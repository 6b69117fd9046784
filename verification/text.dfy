/** Python string primitives used by the response cleaner: `str.strip()`, `str.split(sep)`,
    `sep.join(parts)` and `str.replace(old, '')`, each with the property that pins it down. */
module Text {

  /** Python's `str.isspace()` for one character: the characters `str.strip()` removes
      when called without arguments. */
  predicate IsSpace(c: char) {
    || ('\t' <= c <= '\r')
    || ('\U{1C}' <= c <= '\U{1F}')
    || c == ' ' || c == '\U{85}' || c == '\U{A0}' || c == '\U{1680}'
    || ('\U{2000}' <= c <= '\U{200A}')
    || c == '\U{2028}' || c == '\U{2029}' || c == '\U{202F}' || c == '\U{205F}'
    || c == '\U{3000}'
  }

  predicate AllSpace(s: string) {
    forall i | 0 <= i < |s| :: IsSpace(s[i])
  }

  /** Neither end of `s` is whitespace (vacuously true of the empty string). */
  predicate Trimmed(s: string) {
    s == [] || (!IsSpace(s[0]) && !IsSpace(s[|s| - 1]))
  }

  // ---------------------------------------------------------------------------------
  // Occurrences of a pattern.

  predicate OccursAt(s: string, p: string, i: int) {
    0 <= i && i + |p| <= |s| && s[i..i + |p|] == p
  }

  /** Python's `p in s`. */
  predicate Contains(s: string, p: string) {
    exists i | 0 <= i <= |s| :: OccursAt(s, p, i)
  }

  lemma OccursShift(s: string, p: string, i: nat)
    requires |s| > 0
    ensures OccursAt(s, p, i + 1) <==> OccursAt(s[1..], p, i)
  {
    if i + |p| <= |s| - 1 {
      assert s[1..][i..i + |p|] == s[i + 1..i + 1 + |p|];
    }
  }

  lemma {:induction false} ContainsShift(s: string, p: string)
    requires |s| > 0
    ensures Contains(s, p) <==> OccursAt(s, p, 0) || Contains(s[1..], p)
  {
    if Contains(s, p) && !OccursAt(s, p, 0) {
      var i :| OccursAt(s, p, i);
      assert OccursAt(s, p, i) && i != 0;
      OccursShift(s, p, i - 1);
    }
    if Contains(s[1..], p) {
      var i :| OccursAt(s[1..], p, i);
      assert OccursAt(s[1..], p, i);
      OccursShift(s, p, i);
    }
  }

  // ---------------------------------------------------------------------------------
  // Whitespace.

  /** The number of whitespace characters `s` begins with. */
  function LeadingSpace(s: string): (n: nat)
    ensures n <= |s|
    ensures forall i | 0 <= i < n :: IsSpace(s[i])
    ensures n < |s| ==> !IsSpace(s[n])
  {
    if |s| == 0 || !IsSpace(s[0]) then 0 else 1 + LeadingSpace(s[1..])
  }

  /** The number of whitespace characters `s` ends with. */
  function TrailingSpace(s: string): (n: nat)
    ensures n <= |s|
    ensures forall i | |s| - n <= i < |s| :: IsSpace(s[i])
    ensures n < |s| ==> !IsSpace(s[|s| - 1 - n])
  {
    if |s| == 0 || !IsSpace(s[|s| - 1]) then 0 else 1 + TrailingSpace(s[..|s| - 1])
  }

  /** Python's `s.strip()`. */
  function Strip(s: string): (r: string)
    ensures |r| <= |s|
    ensures Trimmed(r)
    ensures r == [] <==> AllSpace(s)
  {
    var lo := LeadingSpace(s);
    if lo == |s| then []
    else
      var hi := |s| - TrailingSpace(s);
      assert !IsSpace(s[lo]);
      s[lo..hi]
  }

  /** The strip of `s` is a slice of `s`. */
  lemma StripOccurs(s: string)
    ensures Contains(s, Strip(s))
  {
    var lo := LeadingSpace(s);
    if lo == |s| {
      assert OccursAt(s, Strip(s), 0);
    } else {
      assert OccursAt(s, Strip(s), lo);
    }
  }

  /** Whitespace prefixes are counted exactly: a space-only prefix of length `k` followed by
      a non-space character (or nothing) is what `LeadingSpace` measures. */
  lemma LeadingSpaceIs(s: string, k: nat)
    requires k <= |s| && forall i | 0 <= i < k :: IsSpace(s[i])
    requires k < |s| ==> !IsSpace(s[k])
    ensures LeadingSpace(s) == k
  {
    var n := LeadingSpace(s);
    assert n < |s| ==> !IsSpace(s[n]);
  }

  lemma TrailingSpaceIs(s: string, k: nat)
    requires k <= |s| && forall i | |s| - k <= i < |s| :: IsSpace(s[i])
    requires k < |s| ==> !IsSpace(s[|s| - 1 - k])
    ensures TrailingSpace(s) == k
  {
    var n := TrailingSpace(s);
    assert n < |s| ==> !IsSpace(s[|s| - 1 - n]);
  }

  /** Stripping is determined by the decomposition `lead + core + trail` with whitespace
      borders and a core that does not begin or end with whitespace. */
  lemma StripUnique(lead: string, core: string, trail: string)
    requires AllSpace(lead) && AllSpace(trail) && Trimmed(core)
    ensures Strip(lead + core + trail) == core
  {
    var s := lead + core + trail;
    if core == [] {
      assert forall i | 0 <= i < |s| :: IsSpace(s[i]) by {
        forall i | 0 <= i < |s| ensures IsSpace(s[i]) {
          if i < |lead| { assert s[i] == lead[i]; } else { assert s[i] == trail[i - |lead|]; }
        }
      }
      LeadingSpaceIs(s, |s|);
    } else {
      assert forall i | 0 <= i < |lead| :: s[i] == lead[i];
      assert s[|lead|] == core[0];
      LeadingSpaceIs(s, |lead|);
      assert forall i | |s| - |trail| <= i < |s| :: s[i] == trail[i - (|s| - |trail|)];
      assert s[|s| - 1 - |trail|] == core[|core| - 1];
      TrailingSpaceIs(s, |trail|);
      assert s[|lead|..|s| - |trail|] == core;
    }
  }

  /** Stripping twice is stripping once. */
  lemma StripIdempotent(s: string)
    ensures Strip(Strip(s)) == Strip(s)
  {
    var r := Strip(s);
    assert [] + r + [] == r;
    StripUnique([], r, []);
  }

  /** A text is its own strip exactly when neither end is whitespace. */
  lemma TrimmedIffStripFixed(s: string)
    ensures Trimmed(s) <==> Strip(s) == s
  {
    if Trimmed(s) {
      assert [] + s + [] == s;
      StripUnique([], s, []);
    }
  }

  /** Every character of `Strip(s)` is a character of `s`. */
  lemma StripKeepsCharacters(s: string, c: char)
    ensures c !in s ==> c !in Strip(s)
  {
    var r := Strip(s);
    StripOccurs(s);
    var i :| OccursAt(s, r, i);
    assert OccursAt(s, r, i);
    assert forall k | 0 <= k < |r| :: r[k] == s[i + k];
  }

  // ---------------------------------------------------------------------------------
  // split / join / replace.

  /** Python's `s.split(sep)` for a non-empty separator: occurrences of `sep` are matched
      left to right without overlap, and the pieces between them are returned in order.
      Joining the pieces with the same separator rebuilds the text. */
  function SplitOn(s: string, sep: string): (r: seq<string>)
    requires sep != []
    ensures |r| >= 1
    ensures Join(r, sep) == s
    decreases |s|
  {
    if |s| < |sep| then [s]
    else if s[..|sep|] == sep then
      var rest := SplitOn(s[|sep|..], sep);
      assert ([""] + rest)[1..] == rest;
      assert s == sep + s[|sep|..];
      [""] + rest
    else
      var rest := SplitOn(s[1..], sep);
      JoinExtendsFirst(s[0], rest, sep);
      assert s == [s[0]] + s[1..];
      [[s[0]] + rest[0]] + rest[1..]
  }

  /** Python's `sep.join(parts)`: the pieces in order with `sep` between neighbours, so the
      text begins with the first piece. */
  function Join(parts: seq<string>, sep: string): (r: string)
    ensures |parts| >= 1 ==> parts[0] <= r
  {
    if |parts| == 0 then ""
    else if |parts| == 1 then parts[0]
    else parts[0] + sep + Join(parts[1..], sep)
  }

  /** `''.join(parts)`. */
  function Concat(parts: seq<string>): string {
    if |parts| == 0 then "" else parts[0] + Concat(parts[1..])
  }

  /** Python's `s.replace(p, '')` for a non-empty pattern: one left-to-right pass that
      deletes each non-overlapping occurrence of `p` it meets. */
  function RemoveAll(s: string, p: string): (r: string)
    requires p != []
    ensures |r| <= |s|
    decreases |s|
  {
    if |s| < |p| then s
    else if s[..|p|] == p then RemoveAll(s[|p|..], p)
    else [s[0]] + RemoveAll(s[1..], p)
  }

  /** Deleting every occurrence keeps exactly the text between occurrences, in order. */
  lemma {:induction false} RemoveAllKeepsPieces(s: string, p: string)
    requires p != []
    ensures RemoveAll(s, p) == Concat(SplitOn(s, p))
    decreases |s|
  {
    if |s| < |p| {
      assert Concat([s]) == s + Concat([]);
    } else if s[..|p|] == p {
      RemoveAllKeepsPieces(s[|p|..], p);
      var rest := SplitOn(s[|p|..], p);
      assert ([""] + rest)[1..] == rest;
    } else {
      RemoveAllKeepsPieces(s[1..], p);
      var rest := SplitOn(s[1..], p);
      var r := [[s[0]] + rest[0]] + rest[1..];
      assert r[1..] == rest[1..];
      assert Concat(rest) == rest[0] + Concat(rest[1..]);
    }
  }

  /** Prepending a character to the first piece prepends it to the join. */
  lemma JoinExtendsFirst(c: char, parts: seq<string>, sep: string)
    requires |parts| >= 1
    ensures Join([[c] + parts[0]] + parts[1..], sep) == [c] + Join(parts, sep)
  {
    var r := [[c] + parts[0]] + parts[1..];
    assert r[0] == [c] + parts[0] && r[1..] == parts[1..];
    if |parts| > 1 {
      assert Join(r, sep) == [c] + parts[0] + sep + Join(parts[1..], sep);
    }
  }

  /** The pass changes the text exactly when the pattern occurs in it. */
  lemma {:induction false} RemoveAllUnchangedIff(s: string, p: string)
    requires p != []
    ensures RemoveAll(s, p) == s <==> !Contains(s, p)
    decreases |s|
  {
    if |s| < |p| {
      assert forall i :: !OccursAt(s, p, i);
    } else if s[..|p|] == p {
      assert OccursAt(s, p, 0);
    } else {
      RemoveAllUnchangedIff(s[1..], p);
      ContainsShift(s, p);
      assert s == [s[0]] + s[1..];
      assert !OccursAt(s, p, 0);
      if RemoveAll(s, p) == s {
        assert RemoveAll(s[1..], p) == RemoveAll(s, p)[1..];
      }
    }
  }

  /** Deleting a pattern that occurs shortens the text. */
  lemma RemoveAllShrinks(s: string, p: string)
    requires p != [] && Contains(s, p)
    ensures |RemoveAll(s, p)| < |s|
  {
    RemoveAllUnchangedIff(s, p);
    if |RemoveAll(s, p)| == |s| {
      RemoveAllSameLength(s, p);
    }
  }

  lemma {:induction false} RemoveAllSameLength(s: string, p: string)
    requires p != [] && |RemoveAll(s, p)| == |s|
    ensures RemoveAll(s, p) == s
    decreases |s|
  {
    if |s| < |p| {
    } else if s[..|p|] == p {
      assert false;
    } else {
      RemoveAllSameLength(s[1..], p);
      assert s == [s[0]] + s[1..];
    }
  }

  /** A prefix in which no occurrence of `p` starts passes through unchanged. */
  lemma {:induction false} RemoveAllSkipsPrefix(a: string, b: string, p: string)
    requires p != []
    requires forall i | 0 <= i < |a| :: !OccursAt(a + b, p, i)
    ensures RemoveAll(a + b, p) == a + RemoveAll(b, p)
    decreases |a|
  {
    var s := a + b;
    if a == [] {
      assert s == b;
    } else {
      var t := a[1..] + b;
      assert s[1..] == t;
      forall i | 0 <= i < |a| - 1
        ensures !OccursAt(t, p, i)
      {
        OccursShift(s, p, i);
      }
      RemoveAllSkipsPrefix(a[1..], b, p);
      if |s| < |p| {
        assert RemoveAll(b, p) == b;
      } else {
        assert !OccursAt(s, p, 0);
        assert RemoveAll(s, p) == [s[0]] + RemoveAll(t, p);
        assert s[0] == a[0] && a == [a[0]] + a[1..];
        assert [a[0]] + (a[1..] + RemoveAll(b, p)) == a + RemoveAll(b, p);
      }
    }
  }

  /** A prefix that does not hold the pattern's first character passes through unchanged. */
  lemma RemoveAllSkipsHeadless(a: string, b: string, p: string)
    requires p != [] && p[0] !in a
    ensures RemoveAll(a + b, p) == a + RemoveAll(b, p)
  {
    forall i | 0 <= i < |a|
      ensures !OccursAt(a + b, p, i)
    {
      assert (a + b)[i] == a[i] && a[i] in a;
    }
    RemoveAllSkipsPrefix(a, b, p);
  }

  // ---------------------------------------------------------------------------------
  // Splitting on one character.

  lemma {:induction false} SplitWithoutSeparator(a: string, c: char)
    requires c !in a
    ensures SplitOn(a, [c]) == [a]
    decreases |a|
  {
    if |a| >= 1 {
      SplitWithoutSeparator(a[1..], c);
      assert a[0] in a;
      assert a[..1] != [c];
      assert a == [a[0]] + a[1..];
    }
  }

  lemma {:induction false} SplitAfterFirstPiece(a: string, c: char, b: string)
    requires c !in a
    ensures SplitOn(a + [c] + b, [c]) == [a] + SplitOn(b, [c])
    decreases |a|
  {
    var s := a + [c] + b;
    if a == [] {
      assert s[..1] == [c];
      assert s[1..] == b;
    } else {
      assert a[0] in a && s[0] == a[0];
      assert s[..1] != [c];
      assert s[1..] == a[1..] + [c] + b;
      SplitAfterFirstPiece(a[1..], c, b);
      assert a == [a[0]] + a[1..];
    }
  }

  /** Pieces that do not contain the separator come back from `split` unchanged. */
  lemma {:induction false} SplitJoin(parts: seq<string>, c: char)
    requires |parts| >= 1
    requires forall k | 0 <= k < |parts| :: c !in parts[k]
    ensures SplitOn(Join(parts, [c]), [c]) == parts
    decreases |parts|
  {
    if |parts| == 1 {
      SplitWithoutSeparator(parts[0], c);
    } else {
      SplitJoin(parts[1..], c);
      SplitAfterFirstPiece(parts[0], c, Join(parts[1..], [c]));
      assert parts == [parts[0]] + parts[1..];
    }
  }

  /** No piece of a split on one character contains that character. */
  lemma {:induction false} SplitPiecesAvoidSeparator(s: string, c: char)
    ensures forall k | 0 <= k < |SplitOn(s, [c])| :: c !in SplitOn(s, [c])[k]
    decreases |s|
  {
    if |s| < 1 {
    } else if s[..1] == [c] {
      SplitPiecesAvoidSeparator(s[1..], c);
      var rest := SplitOn(s[1..], [c]);
      assert SplitOn(s, [c]) == [""] + rest;
    } else {
      SplitPiecesAvoidSeparator(s[1..], c);
      var rest := SplitOn(s[1..], [c]);
      assert s[0] != c;
      assert SplitOn(s, [c]) == [[s[0]] + rest[0]] + rest[1..];
    }
  }

  // ---------------------------------------------------------------------------------
  // Lengths and shape of a joined text.

  function SumLengths(parts: seq<string>): nat {
    if |parts| == 0 then 0 else |parts[0]| + SumLengths(parts[1..])
  }

  /** Joining with a one-character separator adds one character between neighbours. */
  lemma {:induction false} JoinLength(parts: seq<string>, c: char)
    requires |parts| >= 1
    ensures |Join(parts, [c])| == SumLengths(parts) + |parts| - 1
    decreases |parts|
  {
    if |parts| > 1 {
      JoinLength(parts[1..], c);
    }
  }

  /** Joining non-empty pieces free of `c` with `c` never puts two `c` side by side, nor
      one at either end. */
  lemma {:induction false} JoinHasNoEmptyGap(parts: seq<string>, c: char)
    requires forall k | 0 <= k < |parts| :: parts[k] != [] && c !in parts[k]
    ensures var r := Join(parts, [c]);
      && (r == [] || (r[0] != c && r[|r| - 1] != c))
      && forall i | 0 <= i < |r| - 1 :: !(r[i] == c && r[i + 1] == c)
    decreases |parts|
  {
    var r := Join(parts, [c]);
    if |parts| == 1 {
      assert r == parts[0];
      assert r[0] in parts[0] && r[|r| - 1] in parts[0];
      assert forall i | 0 <= i < |r| :: r[i] in parts[0];
    } else if |parts| > 1 {
      var l := parts[0];
      var rest := Join(parts[1..], [c]);
      JoinHasNoEmptyGap(parts[1..], c);
      assert r == l + [c] + rest;
      assert parts[1] != [] && rest[0] == parts[1][0] && rest[0] in parts[1];
      assert r[0] == l[0] && l[0] in l;
      assert r[|r| - 1] == rest[|rest| - 1];
      forall i | 0 <= i < |r| - 1
        ensures !(r[i] == c && r[i + 1] == c)
      {
        if i < |l| {
          assert r[i] == l[i] && l[i] in l;
        } else if i > |l| {
          assert r[i] == rest[i - |l| - 1] && r[i + 1] == rest[i - |l|];
        }
      }
    }
  }
}
