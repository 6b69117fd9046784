# UnblurAI core in Dafny

UnblurAI uploads a photo of blurred text to a FastAPI backend. The backend checks the upload
and sends the image to the GLM-4.5V vision model. It cleans the model's answer and returns
it, either in one reply or as a stream of progress events. A Vue/Pinia store on the frontend
folds those events into what the page shows.

This project models the sequential logic around the model call:

- `ResponseCleaner` (response_cleaner.dfy): `clean_response_text`. It removes the
  `<|begin_of_box|>`/`<|end_of_box|>` markers in one replace pass each. It then splits at
  `'\n'`, strips every line, drops blank lines and rejoins. The string primitives it uses
  live in `Text` (text.dfy): Python's `str.strip` over the `str.isspace` characters,
  `str.split`, `str.join` and `str.replace(p, '')`.
- `Validation` (validation.dfy): the endpoints' content-type and size checks, and
  `validate_image`. The image decoder's verdict is an input: the format name it reports, or
  none when decoding fails.
- `Service` (service.dfy): `recognize_text` and `refine_text`. The external model is an
  oracle from request to reply. Every result records the requests that were sent, so "the
  model is never called" is `sent == []`.
- `Protocol`, `UploadApi`, `StreamApi` (protocol.dfy, upload_api.dfy, stream_api.dfy):
  `/upload`, `/refine`, and the two progress-event generators `generate_stream` and
  `stream_recognition_progress`, each with its endpoint.
- `AppStore` (app_store.dfy): the store's `updateStreamingProgress`, `clearResult` and
  `reset`. `Replay` feeds a whole stream to the reducer.
- `EndToEnd` (end_to_end.dfy): each backend stream, as the store receives it.

Both routers register `POST /upload-stream`. backend/main.py includes upload.py's router
first, so upload.py's `generate_stream` is the one served. Both generators are modelled.

Two points where the code, which the model follows, differs from what one might expect:

- Cleaning is not idempotent in general. The one replace pass can join the text around a
  removed marker into a new marker, so `<|begin<|begin_of_box|>_of_box|>` cleans to
  `<|begin_of_box|>`, and that cleans to the empty text. The model proves idempotence only
  for results that hold no marker, and proves this counterexample.
- stream.py puts `recognized_text` under a `data` object. The store reads it at the top
  level of the frame. Through that stream, a successful recognition leaves the shown text
  empty (`EndToEnd.ProgressStreamLosesText`). The route is shadowed by upload.py's, so the
  served application is not affected.

## Model

| member | source | states |
|---|---|---|
| Common.OrElse | backend/app/services/zhipuai_service.py:78 | Python's `x if x else d` and JavaScript's `x \|\| d` on an optional string: the value when present and non-empty, else the fallback |
| Text.Strip | backend/app/services/zhipuai_service.py:49 | `str.strip()`: the result has no whitespace at either end, is no longer than the input, and is empty exactly when the input is all whitespace |
| Text.StripOccurs | backend/app/services/zhipuai_service.py:49 | the strip of a string is a slice of it |
| Text.StripUnique | backend/app/services/zhipuai_service.py:49 | whitespace around a core that starts and ends with a non-space is exactly what strip removes |
| Text.TrimmedIffStripFixed | backend/app/services/zhipuai_service.py:49 | a string equals its own strip exactly when neither end is whitespace |
| Text.StripIdempotent | backend/app/services/zhipuai_service.py:49 | stripping twice is stripping once |
| Text.SplitOn | backend/app/services/zhipuai_service.py:48 | `str.split(sep)` gives at least one piece, and joining the pieces with the same separator rebuilds the text; `Text.SplitPiecesAvoidSeparator` proves that no piece holds a one-character separator |
| Text.Join | backend/app/services/zhipuai_service.py:51 | `sep.join(parts)` begins with the first piece; `Text.SplitJoin` and `Text.JoinLength` pin the rest |
| Text.SplitPiecesAvoidSeparator | backend/app/services/zhipuai_service.py:48 | no piece of a split at one character contains that character |
| Text.SplitJoin | backend/app/services/zhipuai_service.py:48-51 | splitting a join at a one-character separator that no piece holds gives back the pieces |
| Text.RemoveAll | backend/app/services/zhipuai_service.py:45 | `replace(p, '')` never lengthens the text; `Text.RemoveAllKeepsPieces` and `Text.RemoveAllUnchangedIff` pin its content |
| Text.RemoveAllKeepsPieces | backend/app/services/zhipuai_service.py:45 | `replace(p, '')` is the concatenation of the pieces of `split(p)` |
| Text.RemoveAllUnchangedIff | backend/app/services/zhipuai_service.py:45 | a removal changes the text exactly when the pattern occurs in it |
| Text.JoinHasNoEmptyGap | backend/app/services/zhipuai_service.py:51 | joining non-empty separator-free lines never puts two separators side by side or one at either end |
| ResponseCleaner.Unbox | backend/app/services/zhipuai_service.py:45 | the two removal passes shorten the text exactly when a marker occurs in it, and otherwise leave it unchanged |
| ResponseCleaner.RemovalPassesShrink | backend/app/services/zhipuai_service.py:45 | the begin-marker pass followed by the end-marker pass removes something whenever either marker occurs, and changes nothing otherwise |
| ResponseCleaner.KeepNonBlank | backend/app/services/zhipuai_service.py:49 | every kept line is non-empty and equals its own strip, and no more lines come out than went in |
| ResponseCleaner.KeepNonBlankAppend | backend/app/services/zhipuai_service.py:49 | filtering distributes over concatenation, so surviving lines keep their relative order |
| ResponseCleaner.KeepNonBlankSingle | backend/app/services/zhipuai_service.py:49 | a single line survives exactly when it is not blank, and survives stripped |
| ResponseCleaner.Clean | backend/app/services/zhipuai_service.py:39-51 | the empty text comes back as it is, and every result is empty or made of tidy lines |
| ResponseCleaner.CleanLines | backend/app/services/zhipuai_service.py:45-51 | the result is empty exactly when the unboxed text has no non-blank line, and otherwise its lines are exactly those non-blank lines, stripped, in their original order |
| ResponseCleaner.CleanShrinks | backend/app/services/zhipuai_service.py:39-51 | cleaning never lengthens the text |
| ResponseCleaner.CleanHasNoBlankLine | backend/app/services/zhipuai_service.py:48-51 | the result has no two adjacent newlines and none at either end |
| ResponseCleaner.CleanFixpoint | backend/app/services/zhipuai_service.py:39-51 | cleaning leaves a text unchanged exactly when it already has the cleaned shape and holds no marker |
| ResponseCleaner.CleanIdempotentWithoutMarkers | backend/app/services/zhipuai_service.py:45-51 | cleaning is idempotent on every result that holds no marker |
| ResponseCleaner.CleanCanFormMarker | backend/app/services/zhipuai_service.py:45 | a text exists whose cleaning forms a new begin marker, so cleaning twice differs from cleaning once |
| ResponseCleaner.CleanBoxedLines | backend/app/services/zhipuai_service.py:45-51 | a boxed answer made of a tidy line, a blank line and a whitespace-padded tidy line, all free of `<` and newlines, cleans to the two tidy lines joined by one newline |
| ResponseCleaner.CleanBoxedAnswer | backend/app/services/zhipuai_service.py:45-51 | the boxed answer `hi`, blank line, `  there  ` cleans to `hi\nthere` |
| Validation.CheckContentType | backend/app/api/upload.py:28-34 | a missing type or one not starting with `image/` is "not an image"; otherwise it passes exactly when it is one of the three allowed types |
| Validation.CheckSize | backend/app/api/upload.py:40-41 | a body passes exactly when it has at most 5 MiB, and is otherwise refused as too large |
| Validation.CheckUpload | backend/app/api/upload.py:28-41 | an upload passes exactly when its type is allowed and it is at most 5 MiB; a type refusal carries the type check's reason; the size refusal comes only after the type passes |
| Validation.AllowedTypesAreImages | backend/app/api/upload.py:28-33 | every allowed type starts with `image/`, so the prefix test is implied by membership |
| Validation.SizeBoundIsInclusive | backend/app/api/upload.py:40-41 | exactly 5 MiB passes and one more byte is refused |
| Validation.ContentTypeIsCaseSensitive | backend/app/api/upload.py:28-34 | `image/PNG` is refused as an unsupported format and `IMAGE/png` as not an image |
| Validation.ValidateImage | backend/app/services/zhipuai_service.py:24-37 | valid exactly when decoding succeeds, the lower-cased format is jpeg, jpg or png, and there are at most 5 MiB of bytes; a decode failure or an oversized image is invalid |
| Validation.ValidateImageIgnoresCase | backend/app/services/zhipuai_service.py:29 | the decoded-format check gives the same verdict for a format name and its lower-cased form |
| Validation.ValidateImageAcceptsDecoderNames | backend/app/services/zhipuai_service.py:29-34 | a small image decoded as JPEG or PNG passes and one decoded as GIF does not |
| Service.ChoosePrompt | backend/app/services/zhipuai_service.py:78 | a non-empty custom prompt is used as is; a missing or empty one selects the default prompt |
| Service.RefinePrompt | backend/app/services/zhipuai_service.py:130-138 | the refinement prompt holds the original text and the instruction, unchanged, at fixed places in the template |
| Service.Interpret | backend/app/services/zhipuai_service.py:107-118 | a raised call, an empty choice list and a None content are failures; otherwise the result is the cleaned first choice |
| Service.RecognizeText | backend/app/services/zhipuai_service.py:53-122 | an invalid image fails before any request; a valid one sends exactly one request with the image and the chosen prompt, and its outcome is that request's reply interpreted: the cleaned first choice, or the raised, no-choice or None-content failure |
| Service.RefineText | backend/app/services/zhipuai_service.py:124-168 | always exactly one text request carrying the refinement prompt, and the outcome is its reply interpreted: the cleaned first choice, or the raised, no-choice or None-content failure |
| Service.EmptyReplyFails | backend/app/services/zhipuai_service.py:154-164 | a reply with no choices makes both calls fail, never return empty text |
| Service.RefinedTextIsClean | backend/app/services/zhipuai_service.py:154-162 | whatever the model answers, refined text has the cleaned shape |
| Service.ChosenPromptIsFixed | backend/app/services/zhipuai_service.py:78 | the chosen prompt is never empty, and choosing again with it as the custom prompt keeps it |
| Service.RecognizedTextIsClean | backend/app/services/zhipuai_service.py:107-116 | whatever the model answers, recognized text has the cleaned shape |
| UploadApi.Upload | backend/app/api/upload.py:18-67 | a refused upload is HTTP 400 with the check's message and no request; otherwise `success` holds exactly when the service succeeds, with its text, else the failure message and no text |
| UploadApi.Refine | backend/app/api/upload.py:154-182 | one request and never an HTTP error; `success` holds exactly when the service succeeds, with its text, else the `微调失败: ` message and no text |
| UploadApi.UploadAgreesWithStream | backend/app/api/upload.py:18-141 | `/upload` and `generate_stream` send the same requests; the reply carries a text exactly when the stream's last event carries it; the stream ends in an error exactly when the reply is a refusal or a failure, with the same detail or message |
| UploadApi.RefineReplyIsConsistent | backend/app/api/upload.py:154-182 | `/refine` reports success exactly when it carries text, and that text has the cleaned shape |
| UploadApi.GenerateStream | backend/app/api/upload.py:76-141 | a bad type gives exactly start then error, an oversized body start, one progress, error, neither with a request; an upload that passes both checks gets the recognition stream |
| UploadApi.RecognitionStream | backend/app/api/upload.py:95-141 | the requests are exactly the service's; every stream opens with the start event and the four progress messages (reading the file, calling the model, analysing the image, recognising text); a failure then gives the prefixed error; a success gives the finishing progress message and a success carrying the text at the top level |
| Protocol.NarrationEndsOnce | backend/app/api/upload.py:76-141 | a start, progress events and a final success or error contain exactly one terminal event, last, and no `end` |
| UploadApi.GenerateStreamEndsOnce | backend/app/api/upload.py:76-141 | every stream has exactly one success-or-error event, it is the last, and no `end` event occurs |
| UploadApi.GenerateStreamCallsModelIff | backend/app/api/upload.py:84-118 | the stream reaches the model exactly when the upload passes the endpoint checks and the decoded image is valid |
| StreamApi.StreamRecognitionProgress | backend/app/api/stream.py:17-61 | an invalid image gives exactly start, progress, error and no request; a valid one sends exactly one request, whose failure is never the validation error again |
| StreamApi.ValidatedStream | backend/app/api/stream.py:32-61 | the requests are exactly the service's; a success gives start, the three progress messages (validating, preparing, calling the model), success with the text nested, end; a failure gives the same start and three progress messages, then the prefixed error |
| StreamApi.StreamUpload | backend/app/api/stream.py:63-98 | a refused upload is HTTP 400 before any stream or request; otherwise the body is the progress stream |
| StreamApi.StreamUploadAgreesWithGenerateStream | backend/app/api/stream.py:63-98 | stream.py's endpoint sends the same requests as `generate_stream`; a refusal is the error `generate_stream` closes with; otherwise it delivers a text, nested, exactly when `generate_stream` delivers it at the top level |
| StreamApi.DeliveredTextAgrees | backend/app/api/stream.py:17-61 | for an upload that passed the endpoint checks, stream.py's stream delivers a text, nested, exactly when upload.py's recognition stream ends with it at the top level |
| StreamApi.StreamClosedAfterTerminal | backend/app/api/stream.py:17-61 | exactly one success or error event; `end` only right after a success; nothing after an error |
| AppStore.ClearResult | frontend/src/stores/app.ts:41-45 | the result and logs are emptied and streaming stops, while prompt and loading flag are kept |
| AppStore.Reset | frontend/src/stores/app.ts:88-94 | every field is back at its initial value |
| AppStore.ClearAndReset | frontend/src/stores/app.ts:41-45 | clearing is idempotent, a reset store is already clear, and clearing equals resetting exactly when prompt and loading flag are at their initial values |
| AppStore.Update | frontend/src/stores/app.ts:47-82 | per frame type: the streaming flag, the one log line added (with its default), and the result update; prompt and loading flag never change; an unknown type changes nothing |
| AppStore.ReplayStreamingFlag | frontend/src/stores/app.ts:47-82 | after a stream, the streaming flag is the one set by the last start, success or error frame, or the old value when there is none |
| AppStore.ReplayKeepsPromptAndLogs | frontend/src/stores/app.ts:47-82 | a stream keeps prompt, loading flag and the earlier log lines, and adds one line per handled frame |
| AppStore.ReplayKeepsResult | frontend/src/stores/app.ts:58-80 | frames other than success and error leave the shown result alone |
| AppStore.ReplayEndsIdle | frontend/src/stores/app.ts:58-80 | a stream whose last flag-setting frame is a success or an error leaves the store not streaming |
| EndToEnd.Received | frontend/src/stores/app.ts:12-18 | the frame type of an event matches its constructor and only `end` is unknown to the reducer; every other event's message is passed through unchanged; top-level text is present exactly for a flat success payload, and is that payload's text |
| EndToEnd.UploadStreamLeavesStoreIdle | backend/app/api/upload.py:76-141 | every `generate_stream` stream leaves the store not streaming |
| EndToEnd.ProgressStreamLeavesStoreIdle | backend/app/api/stream.py:17-61 | every `stream_recognition_progress` stream leaves the store not streaming, the trailing `end` included |
| EndToEnd.UploadStreamDeliversText | frontend/src/stores/app.ts:58-72 | through upload.py's stream, a success shows exactly the service's text and marks the result no longer processing |
| EndToEnd.UploadStreamReportsFailure | frontend/src/stores/app.ts:74-80 | through upload.py's stream, a failure marks the result no longer processing and logs both error prefixes with the reason |
| EndToEnd.ProgressStreamLosesText | backend/app/api/stream.py:42-52 | through stream.py's stream, a success blanks the shown text, because the text is nested under `data` |
| EndToEnd.UploadStreamLogsEveryEvent | frontend/src/stores/app.ts:47-82 | every event of upload.py's stream adds exactly one log line after the earlier ones |

## Left out

- The ZhipuAI client, base64 encoding and PIL decoding are foreign libraries. The client is the `Api` oracle and decoding is the `Image.format` input.
- `ZhipuAIService.__init__` raising when `ZHIPUAI_API_KEY` is unset is configuration. It happens at import time, before any request.
- Timing (`time.time`, `processing_time`, `round`) and the `asyncio.sleep` pauses are clocks and floats with no behavioural content. So are the store's `confidence`/`processing_time` defaults. `RecognitionResult` omits both fields.
- JSON serialisation and the `data: …\n\n` framing: events are a datatype, and `EndToEnd.Received` gives the fields the store reads, with the values the events carry.
- The frontend code that reads the progress stream and calls `updateStreamingProgress` is not part of this model. `EndToEnd` assumes it passes each parsed `data:` object to the reducer unchanged and in order; the loss of stream.py's nested text rests on that assumption.
- FastAPI routing, `StreamingResponse`, headers, CORS, backend/main.py, backend/start.py, health.py and the frontend router are plumbing and configuration.
- Reading the upload (`await file.read()`, upload.py:37 and :99, stream.py:80) is I/O and is taken to succeed. A failed read would become a `success=false` reply with the `识别失败: ` message in `/upload`, an error event after the start and one progress event in `generate_stream`, and HTTP 500 in stream.py's endpoint. That catch-all HTTP 500 (stream.py:102-104) is not modelled, because the read is its only cause before the stream starts.
- backend/app/api/tune.py is a thin wrapper over the client: prompt interpolation and `.strip()`, with no marker cleaning.
- backend/app/models/models.py holds only record shapes. They appear as the `UploadResponse`, `RefineRequest` and `RefineResponse` datatypes without the timing field.
- The store setters `setPrompt`, `setRecognitionResult`, `setLoading` and `addStreamingLog` are single assignments with nothing to prove.
- Logging and `console.log` are side effects. Async suspension and client disconnects are concurrency.
- Validation.AsciiLower: lower-cases ASCII letters only, not all of Unicode as `str.lower()` does. A non-ASCII letter cannot lower-case into `jpeg`, `jpg` or `png`, so the verdict is the same.
- Service.Describe: a `Transport` failure carries the exception text as an uninterpreted string.
