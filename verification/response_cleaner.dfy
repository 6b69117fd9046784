/** `ZhipuAIService.clean_response_text`: removes the model's boxed-answer markers in one
    `str.replace` pass per marker, then keeps the non-blank lines, stripped, joined by
    newlines. */
module ResponseCleaner {
  import opened Text

  const BeginOfBox: string := "<|begin_of_box|>"
  const EndOfBox: string := "<|end_of_box|>"
  const Newline: char := '\n'

  predicate HasMarker(s: string) {
    Contains(s, BeginOfBox) || Contains(s, EndOfBox)
  }

  /** A line as the cleaner emits it: non-empty, and neither end is whitespace, so it equals
      its own strip. */
  predicate TidyLine(l: string) {
    l != [] && Trimmed(l)
  }

  /** The shape of every cleaned text: empty, or lines that are all tidy. */
  predicate CleanShape(s: string) {
    s == [] || forall l | l in SplitOn(s, [Newline]) :: TidyLine(l)
  }

  /** The two replace passes, begin marker first. The result is shorter than the input
      exactly when a marker occurs in the input. */
  function Unbox(text: string): (r: string)
    ensures HasMarker(text) ==> |r| < |text|
    ensures !HasMarker(text) ==> r == text
  {
    RemovalPassesShrink(text);
    RemoveAll(RemoveAll(text, BeginOfBox), EndOfBox)
  }

  /** Either pass removes something when its marker occurs, and neither changes a text
      without markers. */
  lemma RemovalPassesShrink(text: string)
    ensures var r := RemoveAll(RemoveAll(text, BeginOfBox), EndOfBox);
      && (HasMarker(text) ==> |r| < |text|)
      && (!HasMarker(text) ==> r == text)
  {
    var once := RemoveAll(text, BeginOfBox);
    RemoveAllUnchangedIff(text, BeginOfBox);
    RemoveAllUnchangedIff(once, EndOfBox);
    if Contains(text, BeginOfBox) {
      RemoveAllShrinks(text, BeginOfBox);
    } else if Contains(text, EndOfBox) {
      RemoveAllShrinks(text, EndOfBox);
    }
  }

  /** `[line.strip() for line in lines if line.strip()]`. */
  function KeepNonBlank(lines: seq<string>): (r: seq<string>)
    ensures |r| <= |lines|
    ensures forall k | 0 <= k < |r| :: TidyLine(r[k])
  {
    if |lines| == 0 then []
    else
      var line := Strip(lines[0]);
      var rest := KeepNonBlank(lines[1..]);
      if line == [] then rest else [line] + rest
  }

  /** Stripping and dropping lines adds no character: the kept lines are no longer in all,
      and hold no newline when the input lines hold none. */
  lemma {:induction false} KeepNonBlankShrinks(lines: seq<string>)
    ensures SumLengths(KeepNonBlank(lines)) <= SumLengths(lines)
    ensures (forall k | 0 <= k < |lines| :: Newline !in lines[k]) ==>
              forall k | 0 <= k < |KeepNonBlank(lines)| :: Newline !in KeepNonBlank(lines)[k]
    decreases |lines|
  {
    if |lines| > 0 {
      KeepNonBlankShrinks(lines[1..]);
      StripKeepsCharacters(lines[0], Newline);
      var line := Strip(lines[0]);
      var rest := KeepNonBlank(lines[1..]);
      if line != [] {
        assert KeepNonBlank(lines) == [line] + rest;
        assert ([line] + rest)[1..] == rest;
        if forall k | 0 <= k < |lines| :: Newline !in lines[k] {
          assert Newline !in lines[0];
          assert forall k | 0 <= k < |lines| - 1 :: lines[1..][k] == lines[k + 1];
        }
      } else {
        if forall k | 0 <= k < |lines| :: Newline !in lines[k] {
          assert forall k | 0 <= k < |lines| - 1 :: lines[1..][k] == lines[k + 1];
        }
      }
    }
  }

  /** `clean_response_text`. The empty text is returned as it is. */
  function Clean(text: string): (r: string)
    ensures text == [] ==> r == []
    ensures CleanShape(r)
  {
    if text == [] then text
    else
      var lines := SplitOn(Unbox(text), [Newline]);
      var kept := KeepNonBlank(lines);
      SplitPiecesAvoidSeparator(Unbox(text), Newline);
      KeepNonBlankShrinks(lines);
      if kept == [] then []
      else SplitJoin(kept, Newline); Join(kept, [Newline])
  }

  /** Filtering lines distributes over concatenation, so surviving lines keep their
      relative order. */
  lemma {:induction false} KeepNonBlankAppend(a: seq<string>, b: seq<string>)
    ensures KeepNonBlank(a + b) == KeepNonBlank(a) + KeepNonBlank(b)
    decreases |a|
  {
    if a != [] {
      assert (a + b)[1..] == a[1..] + b;
      KeepNonBlankAppend(a[1..], b);
    } else {
      assert a + b == b;
    }
  }

  /** A single line survives exactly when it is not blank, and survives stripped. */
  lemma KeepNonBlankSingle(line: string)
    ensures AllSpace(line) ==> KeepNonBlank([line]) == []
    ensures !AllSpace(line) ==> KeepNonBlank([line]) == [Strip(line)]
  {
  }

  /** Lines that are already non-blank and stripped all survive unchanged. */
  lemma {:induction false} KeepNonBlankKeepsTidyLines(lines: seq<string>)
    requires forall l | l in lines :: TidyLine(l)
    ensures KeepNonBlank(lines) == lines
    decreases |lines|
  {
    if lines != [] {
      assert lines[0] in lines;
      TrimmedIffStripFixed(lines[0]);
      assert forall l | l in lines[1..] :: l in lines;
      KeepNonBlankKeepsTidyLines(lines[1..]);
    }
  }

  /** Cleaning never lengthens the text. */
  lemma CleanShrinks(text: string)
    ensures |Clean(text)| <= |Unbox(text)| <= |text|
  {
    if text != [] {
      var u := Unbox(text);
      var lines := SplitOn(u, [Newline]);
      var kept := KeepNonBlank(lines);
      JoinLength(lines, Newline);
      KeepNonBlankShrinks(lines);
      if kept != [] {
        JoinLength(kept, Newline);
      }
    }
  }

  /** The cleaned text never holds a blank line: no two newlines side by side and none at
      either end. */
  lemma CleanHasNoBlankLine(text: string)
    ensures var r := Clean(text);
      && (r == [] || (r[0] != Newline && r[|r| - 1] != Newline))
      && forall i | 0 <= i < |r| - 1 :: !(r[i] == Newline && r[i + 1] == Newline)
  {
    if text != [] {
      var kept := KeepNonBlank(SplitOn(Unbox(text), [Newline]));
      KeptLinesJoinCleanly(Unbox(text));
      if kept != [] {
        assert Clean(text) == Join(kept, [Newline]);
      }
    }
  }

  /** Joining the lines the cleaner keeps gives no blank line. */
  lemma KeptLinesJoinCleanly(u: string)
    ensures var r := Join(KeepNonBlank(SplitOn(u, [Newline])), [Newline]);
      && (r == [] || (r[0] != Newline && r[|r| - 1] != Newline))
      && forall i | 0 <= i < |r| - 1 :: !(r[i] == Newline && r[i + 1] == Newline)
  {
    var lines := SplitOn(u, [Newline]);
    SplitPiecesAvoidSeparator(u, Newline);
    KeepNonBlankShrinks(lines);
    JoinHasNoEmptyGap(KeepNonBlank(lines), Newline);
  }

  /** The cleaned text is empty exactly when the unboxed text has no non-blank line, and
      otherwise splitting it at its newlines gives back exactly those lines, stripped, in
      their original order. */
  lemma CleanLines(text: string)
    ensures var kept := KeepNonBlank(SplitOn(Unbox(text), [Newline]));
      && (Clean(text) == [] <==> kept == [])
      && (kept != [] ==> SplitOn(Clean(text), [Newline]) == kept)
  {
    var lines := SplitOn(Unbox(text), [Newline]);
    var kept := KeepNonBlank(lines);
    if text == [] {
      assert !OccursAt(text, BeginOfBox, 0) && !OccursAt(text, EndOfBox, 0);
      assert lines == [""];
      KeepNonBlankSingle("");
    } else if kept != [] {
      SplitPiecesAvoidSeparator(Unbox(text), Newline);
      KeepNonBlankShrinks(lines);
      SplitJoin(kept, Newline);
      assert kept[0] != [] && kept[0] <= Join(kept, [Newline]);
    }
  }

  /** A text is left as it is by cleaning exactly when it already has the cleaned shape and
      holds no marker. */
  lemma CleanFixpoint(s: string)
    ensures Clean(s) == s <==> CleanShape(s) && !HasMarker(s)
  {
    if s != [] {
      if CleanShape(s) && !HasMarker(s) {
        var lines := SplitOn(s, [Newline]);
        KeepNonBlankKeepsTidyLines(lines);
      }
      if HasMarker(s) {
        CleanShrinks(s);
      }
    } else {
      assert !OccursAt(s, BeginOfBox, 0) && !OccursAt(s, EndOfBox, 0);
    }
  }

  /** Cleaning is idempotent on every result that holds no marker. */
  lemma CleanIdempotentWithoutMarkers(text: string)
    requires !HasMarker(Clean(text))
    ensures Clean(Clean(text)) == Clean(text)
  {
    CleanFixpoint(Clean(text));
  }

  /** When the markers are gone, a text that is a single tidy line is what cleaning returns. */
  lemma {:induction false} CleanOfOneLine(x: string)
    requires x != [] && TidyLine(Unbox(x)) && Newline !in Unbox(x)
    ensures Clean(x) == Unbox(x)
  {
    var u := Unbox(x);
    SplitWithoutSeparator(u, Newline);
    TrimmedIffStripFixed(u);
    assert KeepNonBlank([u]) == [u];
  }

  /** Removing a marker at the front, then a short remainder, leaves nothing behind. */
  lemma RemoveLeadingMarker(p: string, rest: string)
    requires p != []
    ensures RemoveAll(p + rest, p) == RemoveAll(rest, p)
  {
    assert (p + rest)[..|p|] == p && (p + rest)[|p|..] == rest;
  }

  /** Cleaning is not idempotent in general: the replace pass can join the pieces around a
      removed marker into a new marker, which a second cleaning then removes. */
  lemma CleanCanFormMarker(w: string)
    requires w == "<|begin" + BeginOfBox + "_of_box|>"
    ensures Clean(w) == BeginOfBox
    ensures Clean(Clean(w)) == []
  {
    UnboxFormsMarker("<|begin", "_of_box|>");
    CleanOfOneLine(w);
    CleanOfMarker(BeginOfBox);
  }

  lemma UnboxFormsMarker(head: string, tail: string)
    requires head == "<|begin" && tail == "_of_box|>"
    ensures Unbox(head + BeginOfBox + tail) == BeginOfBox
  {
    RemoveBeginFormsMarker(head, tail);
    EndMarkerNotInBegin(BeginOfBox[..3], BeginOfBox[3..]);
  }

  /** The begin-marker pass over the crafted text joins its two halves into a marker. */
  lemma RemoveBeginFormsMarker(head: string, tail: string)
    requires head == "<|begin" && tail == "_of_box|>"
    ensures RemoveAll(head + BeginOfBox + tail, BeginOfBox) == BeginOfBox
  {
    var w := head + BeginOfBox + tail;
    assert w == head + (BeginOfBox + tail);
    forall i | 0 <= i < |head|
      ensures !OccursAt(w, BeginOfBox, i)
    {
      if i == 0 {
        assert w[7] != BeginOfBox[7];
      } else {
        assert w[i] != BeginOfBox[0];
      }
    }
    RemoveAllSkipsPrefix(head, BeginOfBox + tail, BeginOfBox);
    RemoveLeadingMarker(BeginOfBox, tail);
  }

  /** The end-marker pass leaves the begin marker alone. */
  lemma EndMarkerNotInBegin(b1: string, b2: string)
    requires b1 == BeginOfBox[..3] && b2 == BeginOfBox[3..]
    ensures RemoveAll(BeginOfBox, EndOfBox) == BeginOfBox
  {
    assert b1 + b2 == BeginOfBox;
    forall i | 0 <= i < 3
      ensures !OccursAt(b1 + b2, EndOfBox, i)
    {
      if i == 0 {
        assert BeginOfBox[2] != EndOfBox[2];
      } else {
        assert BeginOfBox[i] != EndOfBox[0];
      }
    }
    RemoveAllSkipsPrefix(b1, b2, EndOfBox);
  }

  lemma CleanOfMarker(m: string)
    requires m == BeginOfBox
    ensures Clean(m) == []
  {
    assert m == m + [];
    RemoveLeadingMarker(m, []);
    assert Unbox(m) == [];
    assert KeepNonBlank([[]]) == [];
  }

  /** The boxed answer from the model keeps its interior text: blank lines are dropped and
      the surviving lines are stripped. */
  lemma CleanBoxedAnswer(a: string, pad: string, b: string)
    requires a == "hi" && pad == "  " && b == "there"
    ensures Clean(BeginOfBox + (a + [Newline] + [Newline] + pad + b + pad) + EndOfBox) == a + [Newline] + b
  {
    assert a[0] == 'h' && a[1] == 'i' && b[0] == 't' && b[4] == 'e';
    CleanBoxedLines(a, pad, b);
  }

  /** Removing the markers around a text that holds no `<` gives the text back. */
  lemma UnboxBoxed(t: string)
    requires '<' !in t
    ensures Unbox(BeginOfBox + t + EndOfBox) == t
  {
    RemoveLeadingMarker(BeginOfBox, t + EndOfBox);
    assert BeginOfBox + t + EndOfBox == BeginOfBox + (t + EndOfBox);
    RemoveAllSkipsHeadless(t, EndOfBox, BeginOfBox);
    RemoveAllSkipsHeadless(t, EndOfBox, EndOfBox);
    assert EndOfBox == EndOfBox + [];
    RemoveLeadingMarker(EndOfBox, []);
  }

  /** Two tidy lines separated by a blank line, the second padded with whitespace, boxed:
      cleaning keeps the two lines. */
  lemma CleanBoxedLines(a: string, pad: string, b: string)
    requires TidyLine(a) && TidyLine(b) && AllSpace(pad)
    requires '<' !in a && '<' !in pad && '<' !in b
    requires Newline !in a && Newline !in pad && Newline !in b
    ensures Clean(BeginOfBox + (a + [Newline] + [Newline] + pad + b + pad) + EndOfBox) == a + [Newline] + b
  {
    var t := a + [Newline] + [Newline] + pad + b + pad;
    assert '<' !in t;
    UnboxBoxed(t);
    var lines := [a, [], pad + b + pad];
    assert Join(lines[2..], [Newline]) == pad + b + pad;
    assert Join(lines[1..], [Newline]) == [] + [Newline] + (pad + b + pad);
    assert Join(lines, [Newline]) == t;
    CleanOfLines(BeginOfBox + t + EndOfBox, lines);
    KeepPaddedLine(pad, b);
    KeepBoxedLines(a, pad + b + pad, b);
    assert Join([a, b], [Newline]) == a + [Newline] + b;
  }

  /** A tidy line padded with whitespace on both sides survives as the bare line. */
  lemma KeepPaddedLine(pad: string, b: string)
    requires TidyLine(b) && AllSpace(pad)
    ensures KeepNonBlank([pad + b + pad]) == [b]
  {
    var last := pad + b + pad;
    StripUnique(pad, b, pad);
    KeepNonBlankCons(last, []);
    assert [last] + [] == [last];
  }

  /** A tidy line, a blank line and a line that survives as `b`: the blank line goes. */
  lemma KeepBoxedLines(a: string, last: string, b: string)
    requires TidyLine(a) && KeepNonBlank([last]) == [b]
    ensures KeepNonBlank([a, [], last]) == [a, b]
  {
    var rest := [[]] + [last];
    KeepNonBlankCons([], [last]);
    TrimmedIffStripFixed(a);
    KeepNonBlankCons(a, rest);
    assert [a] + rest == [a, [], last];
  }

  /** One step of the filter: a line is kept, stripped, exactly when it is not blank. */
  lemma KeepNonBlankCons(line: string, rest: seq<string>)
    ensures KeepNonBlank([line] + rest)
         == if Strip(line) == [] then KeepNonBlank(rest) else [Strip(line)] + KeepNonBlank(rest)
  {
    assert ([line] + rest)[0] == line && ([line] + rest)[1..] == rest;
  }

  /** Cleaning a text whose unboxed form is the given lines keeps the non-blank ones. */
  lemma CleanOfLines(x: string, lines: seq<string>)
    requires x != [] && |lines| >= 1
    requires forall k | 0 <= k < |lines| :: Newline !in lines[k]
    requires Unbox(x) == Join(lines, [Newline])
    ensures Clean(x) == Join(KeepNonBlank(lines), [Newline])
  {
    SplitJoin(lines, Newline);
  }
}
