/**
 * `cleanGPUName` (go-fetch.go): the pattern `^[A-Z0-9]+\s*\[(.+)\]$` applied
 * to a device name, written as a matcher. A match splits the name in one way
 * only: the longest run of `A-Z`/`0-9` at the start, then the longest run of
 * whitespace, then `[`, then a non-empty body without a newline, then a `]`
 * as the last character.
 */
module GpuName {

  /** `[A-Z0-9]` */
  predicate IsPrefixChar(c: char) {
    'A' <= c <= 'Z' || '0' <= c <= '9'
  }

  /** The regular expression's `\s`: `[\t\n\f\r ]` (no vertical tab). */
  predicate IsPatternSpace(c: char) {
    c == '\t' || c == '\n' || c == '\U{C}' || c == '\r' || c == ' '
  }

  /** The characters `strings.TrimSpace` removes (`unicode.IsSpace`). */
  predicate IsSpace(c: char) {
    || c == '\t' || c == '\n' || c == '\U{B}' || c == '\U{C}' || c == '\r' || c == ' '
    || c == '\U{85}' || c == '\U{A0}' || c == '\U{1680}'
    || ('\U{2000}' <= c <= '\U{200A}')
    || c == '\U{2028}' || c == '\U{2029}' || c == '\U{202F}' || c == '\U{205F}' || c == '\U{3000}'
  }

  // ---------------------------------------------------------------------------
  // strings.TrimSpace
  // ---------------------------------------------------------------------------

  function LeadingSpaces(s: string): (n: nat)
    ensures n <= |s|
    ensures forall k :: 0 <= k < n ==> IsSpace(s[k])
    ensures n < |s| ==> !IsSpace(s[n])
  {
    if s != [] && IsSpace(s[0]) then 1 + LeadingSpaces(s[1..]) else 0
  }

  function TrailingSpaces(s: string): (n: nat)
    ensures n <= |s|
    ensures forall k :: |s| - n <= k < |s| ==> IsSpace(s[k])
    ensures n < |s| ==> !IsSpace(s[|s| - 1 - n])
  {
    if s != [] && IsSpace(s[|s| - 1]) then 1 + TrailingSpaces(s[..|s| - 1]) else 0
  }

  /** `s` is `r`, with only spaces around it. */
  ghost predicate PaddedBy(s: string, r: string, i: nat) {
    i + |r| <= |s| && s[i..i + |r|] == r
    && (forall k :: 0 <= k < i ==> IsSpace(s[k]))
    && (forall k :: i + |r| <= k < |s| ==> IsSpace(s[k]))
  }

  /** `s` without leading or trailing whitespace. */
  function TrimSpace(s: string): (r: string)
    ensures exists i :: PaddedBy(s, r, i)
    ensures r == [] || (!IsSpace(r[0]) && !IsSpace(r[|r| - 1]))
  {
    var lead := LeadingSpaces(s);
    if lead == |s| then
      assert PaddedBy(s, [], |s|);
      []
    else
      var trail := TrailingSpaces(s);
      assert trail <= |s| - 1 - lead;
      var r := s[lead..|s| - trail];
      assert PaddedBy(s, r, lead);
      r
  }

  /** The two conditions of `TrimSpace` leave only one possible result. */
  lemma TrimSpaceUnique(s: string, r: string, i: nat)
    requires PaddedBy(s, r, i)
    requires r == [] || (!IsSpace(r[0]) && !IsSpace(r[|r| - 1]))
    ensures r == TrimSpace(s)
  {
    var t := TrimSpace(s);
    var j: nat :| PaddedBy(s, t, j);
    if r != [] && t != [] {
      // Both start at the first non-space and end after the last one.
      assert s[i] == r[0] && s[j] == t[0];
      assert i == j;
      assert s[i + |r| - 1] == r[|r| - 1] && s[j + |t| - 1] == t[|t| - 1];
      assert |r| == |t|;
    }
  }

  /** A text that starts and ends with a non-space is already trimmed. */
  lemma TrimSpaceOfTrimmed(s: string)
    requires s != [] && !IsSpace(s[0]) && !IsSpace(s[|s| - 1])
    ensures TrimSpace(s) == s
  {
    assert PaddedBy(s, s, 0);
    TrimSpaceUnique(s, s, 0);
  }

  /** Trimming twice is trimming once. */
  lemma TrimSpaceIdempotent(s: string)
    ensures TrimSpace(TrimSpace(s)) == TrimSpace(s)
  {
    var r := TrimSpace(s);
    assert PaddedBy(r, r, 0);
    TrimSpaceUnique(r, r, 0);
  }

  // ---------------------------------------------------------------------------
  // The pattern and cleanGPUName
  // ---------------------------------------------------------------------------

  /**
   * `s` matches the pattern with the `[A-Z0-9]+` run ending at `p` and the
   * `[` at `w`; the capture is then `Capture(s, w)`.
   */
  ghost predicate MatchesAt(s: string, p: nat, w: nat) {
    && 0 < p <= w && w + 2 < |s|
    && (forall k :: 0 <= k < p ==> IsPrefixChar(s[k]))
    && (forall k :: p <= k < w ==> IsPatternSpace(s[k]))
    && s[w] == '[' && s[|s| - 1] == ']'
    && (forall k :: w < k < |s| - 1 ==> s[k] != '\n')
  }

  ghost predicate Matches(s: string) {
    exists p, w :: MatchesAt(s, p, w)
  }

  /** The end of the run of `[A-Z0-9]` that starts at `i`. */
  function PrefixEnd(s: string, i: nat): (j: nat)
    requires i <= |s|
    ensures i <= j <= |s|
    ensures forall k :: i <= k < j ==> IsPrefixChar(s[k])
    ensures j < |s| ==> !IsPrefixChar(s[j])
    decreases |s| - i
  {
    if i < |s| && IsPrefixChar(s[i]) then PrefixEnd(s, i + 1) else i
  }

  /** The end of the run of `\s` characters that starts at `i`. */
  function SpaceEnd(s: string, i: nat): (j: nat)
    requires i <= |s|
    ensures i <= j <= |s|
    ensures forall k :: i <= k < j ==> IsPatternSpace(s[k])
    ensures j < |s| ==> !IsPatternSpace(s[j])
    decreases |s| - i
  {
    if i < |s| && IsPatternSpace(s[i]) then SpaceEnd(s, i + 1) else i
  }

  /** A match can only split the name at the ends of the two runs. */
  lemma MatchesAtRuns(s: string, p: nat, w: nat)
    requires MatchesAt(s, p, w)
    ensures p == PrefixEnd(s, 0) && w == SpaceEnd(s, p)
  {
    assert !IsPrefixChar(s[p]) by {
      if p < w { assert IsPatternSpace(s[p]); }
    }
  }

  /**
   * `cleanGPUName`: on a match, the capture with its surrounding whitespace
   * removed; otherwise the name unchanged.
   */
  function CleanGpuName(name: string): string {
    var p := PrefixEnd(name, 0);
    var w := SpaceEnd(name, p);
    if Bracketed(name, p, w) then TrimSpace(Capture(name, w)) else name
  }

  /** The text between the `[` at `w` and the last character. */
  function Capture(name: string, w: nat): string
    requires w + 2 <= |name|
  {
    name[w + 1..|name| - 1]
  }

  /** What is left to check once the two runs are found: the `[`, the body and the final `]`. */
  predicate Bracketed(name: string, p: nat, w: nat) {
    0 < p && w + 2 < |name| && name[w] == '[' && name[|name| - 1] == ']'
    && '\n' !in Capture(name, w)
  }

  /** On a match, the result is the trimmed text between the `[` and the final `]`. */
  lemma CleanGpuNameOnMatch(name: string, p: nat, w: nat)
    requires MatchesAt(name, p, w)
    ensures CleanGpuName(name) == TrimSpace(Capture(name, w))
  {
    MatchesAtRuns(name, p, w);
    var body := Capture(name, w);
    assert '\n' !in body by {
      forall k | 0 <= k < |body| ensures body[k] != '\n' {
        assert body[k] == name[w + 1 + k];
      }
    }
    assert Bracketed(name, p, w);
  }

  /** The name matches exactly when the rest of the pattern holds after its two runs. */
  lemma MatchesIffBracketed(name: string)
    ensures var p := PrefixEnd(name, 0);
      Matches(name) <==> Bracketed(name, p, SpaceEnd(name, p))
  {
    var p := PrefixEnd(name, 0);
    var w := SpaceEnd(name, p);
    if Matches(name) {
      var p': nat, w': nat :| MatchesAt(name, p', w');
      MatchesAtRuns(name, p', w');
      var body := Capture(name, w);
      forall k | 0 <= k < |body| ensures body[k] != '\n' {
        assert body[k] == name[w + 1 + k];
      }
    }
    if Bracketed(name, p, w) {
      forall k | w < k < |name| - 1 ensures name[k] != '\n' {
        assert name[k] == Capture(name, w)[k - w - 1];
      }
      assert MatchesAt(name, p, w);
    }
  }

  /** Without a match, the name comes back unchanged; and only then. */
  lemma CleanGpuNameNoMatch(name: string)
    ensures !Matches(name) <==> CleanGpuName(name) == name
  {
    MatchesIffBracketed(name);
    if Matches(name) {
      var p': nat, w': nat :| MatchesAt(name, p', w');
      CleanGpuNameShortens(name, p', w');
    }
  }

  /** On a match the result is strictly shorter than the name. */
  lemma CleanGpuNameShortens(name: string, p: nat, w: nat)
    requires MatchesAt(name, p, w)
    ensures |CleanGpuName(name)| < |name|
  {
    CleanGpuNameOnMatch(name, p, w);
    var body := Capture(name, w);
    var i: nat :| PaddedBy(body, TrimSpace(body), i);
  }

  /** A name without the bracketed shape is kept as it is. */
  lemma CleanGpuNameIntel()
    ensures CleanGpuName("Intel HD Graphics") == "Intel HD Graphics"
  {
    CleanGpuNameUnchangedExample("Intel HD Graphics");
  }

  /** A lower-case letter in the prefix prevents the match. */
  lemma CleanGpuNameLowercasePrefix()
    ensures CleanGpuName("0xAB [TestGPU]") == "0xAB [TestGPU]"
  {
    CleanGpuNameUnchangedExample("0xAB [TestGPU]");
  }

  /**
   * A name made of an `[A-Z0-9]+` prefix, `\s*` spaces and a bracketed body
   * without a newline cleans to the trimmed body.
   */
  lemma CleanGpuNameOfShape(prefix: string, gap: string, body: string)
    requires |prefix| > 0 && forall k :: 0 <= k < |prefix| ==> IsPrefixChar(prefix[k])
    requires forall k :: 0 <= k < |gap| ==> IsPatternSpace(gap[k])
    requires |body| > 0 && '\n' !in body
    ensures CleanGpuName(prefix + gap + "[" + body + "]") == TrimSpace(body)
  {
    var name := prefix + gap + "[" + body + "]";
    var p, w := |prefix|, |prefix| + |gap|;
    assert forall k :: 0 <= k < p ==> name[k] == prefix[k];
    assert forall k :: p <= k < w ==> name[k] == gap[k - p];
    assert name[w] == '[' && name[|name| - 1] == ']';
    assert Capture(name, w) == body;
    forall k | w < k < |name| - 1 ensures name[k] != '\n' {
      assert name[k] == body[k - w - 1];
    }
    assert MatchesAt(name, p, w);
    CleanGpuNameOnMatch(name, p, w);
  }

  /** The name is written in the pieces `CleanGpuNameOfShape` takes apart. */
  lemma CleanGpuNameGeForce()
    ensures CleanGpuName("0300" + " " + "[" + "GeForce RTX 3080" + "]") == "GeForce RTX 3080"
  {
    TrimSpaceOfTrimmed("GeForce RTX 3080");
    CleanGpuNameOfShape("0300", " ", "GeForce RTX 3080");
  }

  lemma CleanGpuNameNoSpace()
    ensures CleanGpuName("AB12[Foo]") == "Foo"
  {
    TrimSpaceOfTrimmed("Foo");
    CleanGpuNameExample("AB12", "", "Foo", "AB12[Foo]", "Foo");
  }

  /** Whitespace inside the brackets is trimmed away. */
  lemma CleanGpuNameQuadro()
    ensures CleanGpuName("10DE" + " " + "[" + " Quadro " + "]") == "Quadro"
  {
    assert " Quadro "[1..7] == "Quadro";
    assert PaddedBy(" Quadro ", "Quadro", 1);
    TrimSpaceUnique(" Quadro ", "Quadro", 1);
    CleanGpuNameOfShape("10DE", " ", " Quadro ");
  }

  /** `CleanGpuNameOfShape` for a name and result written out. */
  lemma CleanGpuNameExample(prefix: string, gap: string, body: string, name: string, r: string)
    requires |prefix| > 0 && forall k :: 0 <= k < |prefix| ==> IsPrefixChar(prefix[k])
    requires forall k :: 0 <= k < |gap| ==> IsPatternSpace(gap[k])
    requires |body| > 0 && '\n' !in body
    requires name == prefix + gap + "[" + body + "]" && TrimSpace(body) == r
    ensures CleanGpuName(name) == r
  {
    CleanGpuNameOfShape(prefix, gap, body);
  }

  /** A name whose second character is neither `A-Z`, `0-9`, whitespace nor `[`. */
  lemma CleanGpuNameUnchangedExample(name: string)
    requires |name| >= 2 && IsPrefixChar(name[0]) && !IsPrefixChar(name[1])
    requires !IsPatternSpace(name[1]) && name[1] != '['
    ensures CleanGpuName(name) == name
  {
    assert PrefixEnd(name, 1) == 1;
    assert SpaceEnd(name, 1) == 1;
  }
}
