/** `ZhipuAIService.recognize_text` and `refine_text`: the control flow around the one call
    to the external vision-language model. The model is an oracle from request to reply;
    every result records the requests that were sent, so "the model is never called" reads
    `sent == []`. */
module Service {
  import opened Common
  import opened Validation
  import ResponseCleaner

  /** One chat-completion request. Recognition sends the image (as a base64 data URL in the
      source) with the prompt in one user message; refinement sends only text. */
  datatype ApiRequest =
    | VisionRequest(image: seq<byte>, prompt: string)
    | TextRequest(prompt: string)

  /** What the client call produced: it raised, or it returned the contents of its choices
      in order. A choice's `message.content` may be None. */
  datatype ApiReply =
    | Raised(reason: string)
    | Replied(choices: seq<Option<string>>)

  /** The external model, as seen by the service. */
  type Api = ApiRequest -> ApiReply

  /** Why a service call raised. */
  datatype ServiceError =
    | InvalidImage
    | NoChoices(model: string)
    | NullContent
    | Transport(reason: string)
  {
    /** `str(e)` of the exception the service re-raises. */
    function Describe(): string {
      match this
      case InvalidImage => "Invalid image format or size"
      case NoChoices(model) => "No response from " + model + " API"
      // clean_response_text(None) returns None and len(None) then raises TypeError
      case NullContent => "object of type 'NoneType' has no len()"
      case Transport(reason) => reason
    }
  }

  /** A service result together with the requests it sent. */
  datatype Call = Call(outcome: Result<string, ServiceError>, sent: seq<ApiRequest>)

  const RecognitionModel: string := "GLM-4.5V"
  const RefinementModel: string := "GLM-4"

  const DefaultPrompt: string :=
    "请仔细识别这张图片中的所有文字内容，特别注意以下要求：\n"
    + "1. 识别所有可见的文字，包括模糊、不清晰或部分遮挡的文字\n"
    + "2. 尽可能准确地还原文字的原始内容和含义\n"
    + "3. 保持原有的文本格式、段落结构和排版布局\n"
    + "4. 对于模糊或不确定的文字，请根据上下文进行合理推测\n"
    + "5. 使用简体中文输出结果\n"
    + "6. 如果图片中包含英文或其他语言，请保持原语言不变\n"
    + "7. 按照从上到下、从左到右的顺序输出文字内容\n"
    + "\n"
    + "请直接输出识别到的文字内容，不需要添加额外的说明或解释。"

  /** `custom_prompt if custom_prompt else default_prompt`. */
  function ChoosePrompt(customPrompt: Option<string>): (p: string)
    ensures customPrompt.Some? && customPrompt.value != "" ==> p == customPrompt.value
    ensures customPrompt.None? || customPrompt.value == "" ==> p == DefaultPrompt
  {
    OrElse(customPrompt, DefaultPrompt)
  }

  /** The refinement prompt: the original text and the instruction embedded in a fixed
      template. */
  function RefinePrompt(originalText: string, instruction: string): (p: string)
    ensures |p| == |RefineHead| + |originalText| + |RefineMiddle| + |instruction| + |RefineTail|
    ensures p[..|RefineHead|] == RefineHead
    ensures p[|RefineHead|..|RefineHead| + |originalText|] == originalText
    ensures p[|RefineHead| + |originalText| + |RefineMiddle|..|p| - |RefineTail|] == instruction
  {
    RefineHead + originalText + RefineMiddle + instruction + RefineTail
  }

  const RefineHead: string := "请根据以下指令对文字内容进行微调：\n\n原始文字内容：\n"
  const RefineMiddle: string := "\n\n微调指令：\n"
  const RefineTail: string := "\n\n请输出微调后的文字内容："

  /** Turning a reply into a result: a raised call re-raises, an empty choice list raises
      "No response", a None content makes the length log raise, and otherwise the first
      choice is cleaned. Later choices are ignored. */
  function Interpret(reply: ApiReply, model: string): (r: Result<string, ServiceError>)
    ensures reply.Raised? ==> r == Failure(Transport(reply.reason))
    ensures reply.Replied? && |reply.choices| == 0 ==> r == Failure(NoChoices(model))
    ensures reply.Replied? && |reply.choices| > 0 && reply.choices[0].None? ==>
              r == Failure(NullContent)
    ensures r.Success? <==> reply.Replied? && |reply.choices| > 0 && reply.choices[0].Some?
    ensures r.Success? ==> r.value == ResponseCleaner.Clean(reply.choices[0].value)
  {
    match reply
    case Raised(reason) => Failure(Transport(reason))
    case Replied(choices) =>
      if |choices| == 0 then Failure(NoChoices(model))
      else match choices[0]
        case None => Failure(NullContent)
        case Some(raw) => Success(ResponseCleaner.Clean(raw))
  }

  /** `recognize_text`: validate the image or raise before any request; otherwise send one
      request carrying the image and the chosen prompt and interpret the reply. */
  function RecognizeText(image: Image, customPrompt: Option<string>, api: Api): (r: Call)
    ensures !ValidateImage(image) <==> r.sent == []
    ensures !ValidateImage(image) ==> r.outcome == Failure(InvalidImage)
    ensures ValidateImage(image) ==>
              r.sent == [VisionRequest(image.bytes, ChoosePrompt(customPrompt))]
    ensures ValidateImage(image) ==> r.outcome == Interpret(api(r.sent[0]), RecognitionModel)
  {
    if !ValidateImage(image) then Call(Failure(InvalidImage), [])
    else
      var request := VisionRequest(image.bytes, ChoosePrompt(customPrompt));
      Call(Interpret(api(request), RecognitionModel), [request])
  }

  /** `refine_text`: always exactly one text-only request. */
  function RefineText(originalText: string, instruction: string, api: Api): (r: Call)
    ensures r.sent == [TextRequest(RefinePrompt(originalText, instruction))]
    ensures r.outcome != Failure(InvalidImage)
    ensures r.outcome == Interpret(api(r.sent[0]), RefinementModel)
  {
    var request := TextRequest(RefinePrompt(originalText, instruction));
    Call(Interpret(api(request), RefinementModel), [request])
  }

  /** A reply with no choices is a failure of both calls, never an empty text. */
  lemma EmptyReplyFails(image: Image, customPrompt: Option<string>, original: string,
                        instruction: string, api: Api)
    requires forall q :: api(q) == Replied([])
    ensures RecognizeText(image, customPrompt, api).outcome.Failure?
    ensures RefineText(original, instruction, api).outcome
         == Failure(NoChoices(RefinementModel))
  {
  }

  /** Whatever the model returns, a successful recognition holds text in the cleaned shape. */
  lemma RecognizedTextIsClean(image: Image, customPrompt: Option<string>, api: Api)
    requires RecognizeText(image, customPrompt, api).outcome.Success?
    ensures ResponseCleaner.CleanShape(RecognizeText(image, customPrompt, api).outcome.value)
  {
  }

  /** Whatever the model returns, a successful refinement holds text in the cleaned shape. */
  lemma RefinedTextIsClean(original: string, instruction: string, api: Api)
    requires RefineText(original, instruction, api).outcome.Success?
    ensures ResponseCleaner.CleanShape(RefineText(original, instruction, api).outcome.value)
  {
  }

  /** The chosen prompt is never empty, and choosing again with it as the custom prompt
      keeps it: every recognition request carries a real prompt. */
  lemma ChosenPromptIsFixed(customPrompt: Option<string>)
    ensures ChoosePrompt(customPrompt) != ""
    ensures ChoosePrompt(Some(ChoosePrompt(customPrompt))) == ChoosePrompt(customPrompt)
  {
    assert DefaultPrompt[0] == '请';
  }
}
