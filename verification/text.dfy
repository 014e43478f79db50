/** String helpers with the semantics of the Python built-ins the bot uses:
    `str.replace`, `str.isdigit`, `str.strip`, `str.startswith` and slicing. */
module Text {

  /** `s.startswith(p)` */
  predicate StartsWith(s: string, p: string) {
    |p| <= |s| && s[..|p|] == p
  }

  /** Left-to-right, non-overlapping replacement of every occurrence of `pat`,
      as Python's `s.replace(pat, rep)` does for a non-empty `pat`: replacing a
      pattern by itself changes nothing, a shorter replacement never lengthens
      the text and a longer one never shortens it; a text that starts with
      the pattern starts with the replacement, and one that does not keeps
      its first character. */
  function ReplaceAll(s: string, pat: string, rep: string): (r: string)
    requires |pat| > 0
    ensures StartsWith(s, pat) ==> StartsWith(r, rep)
    ensures |s| > 0 && !StartsWith(s, pat) ==> |r| > 0 && r[0] == s[0]
    ensures rep == pat ==> r == s
    ensures |rep| <= |pat| ==> |r| <= |s|
    ensures |rep| >= |pat| ==> |r| >= |s|
    ensures s == [] ==> r == []
    decreases |s|
  {
    if |s| < |pat| then s
    else if s[..|pat|] == pat then
      assert s == s[..|pat|] + s[|pat|..];
      rep + ReplaceAll(s[|pat|..], pat, rep)
    else [s[0]] + ReplaceAll(s[1..], pat, rep)
  }

  /** A string in which `pat` does not occur is left as it is by `ReplaceAll`. */
  lemma {:induction false} ReplaceAllAbsent(s: string, pat: string, rep: string)
    requires |pat| > 0
    requires forall i :: 0 <= i < |s| ==> s[i] != pat[0]
    ensures ReplaceAll(s, pat, rep) == s
    decreases |s|
  {
    if |s| >= |pat| {
      assert s[..|pat|][0] == s[0] != pat[0];
      ReplaceAllAbsent(s[1..], pat, rep);
    }
  }

  /** The pattern followed by a text in which it cannot start again becomes
      the replacement followed by that text: the one occurrence is replaced
      and nothing else. */
  lemma ReplaceLeadingOccurrence(pat: string, rep: string, t: string)
    requires |pat| > 0
    requires forall i :: 0 <= i < |t| ==> t[i] != pat[0]
    ensures ReplaceAll(pat + t, pat, rep) == rep + t
  {
    var s := pat + t;
    assert s[..|pat|] == pat && s[|pat|..] == t;
    ReplaceAllAbsent(t, pat, rep);
  }

  predicate IsAsciiDigit(c: char) {
    '0' <= c <= '9'
  }

  /** `s.isdigit()`, restricted to the ASCII digits: false on the empty string,
      and a string it accepts carries no sign and no white space. */
  function IsDigits(s: string): (b: bool)
    ensures b ==> |s| > 0
    ensures b ==> forall i :: 0 <= i < |s| ==> s[i] != '-' && s[i] != '+' && !IsSpace(s[i])
  {
    |s| > 0 && forall i :: 0 <= i < |s| ==> IsAsciiDigit(s[i])
  }

  function Min(a: int, b: int): int {
    if a <= b then a else b
  }

  /** `t in s` */
  predicate Contains(s: string, t: string) {
    exists i {:trigger s[i..]} :: 0 <= i <= |s| - |t| && s[i..][..|t|] == t
  }

  /** `s[:n]` for `n >= 0` */
  function Take(s: string, n: nat): (r: string)
    ensures |r| == Min(n, |s|)
    ensures r == s[..|r|]
  {
    s[..Min(n, |s|)]
  }

  /** `s[-n:]` for `n > 0` */
  function TakeLast(s: string, n: nat): (r: string)
    requires n > 0
    ensures |r| == Min(n, |s|)
    ensures r == s[|s| - |r|..]
  {
    s[|s| - Min(n, |s|)..]
  }

  /** The ASCII subset of the characters `str.strip()` removes. */
  predicate IsSpace(c: char) {
    c == ' ' || ('\t' <= c <= '\r') || ('\U{1C}' <= c <= '\U{1F}')
  }

  function StripLeft(s: string): (r: string)
    ensures |r| == 0 || !IsSpace(r[0])
    ensures |r| <= |s| && r == s[|s| - |r|..]
    ensures forall j :: 0 <= j < |s| - |r| ==> IsSpace(s[j])
  {
    if |s| > 0 && IsSpace(s[0]) then StripLeft(s[1..]) else s
  }

  function StripRight(s: string): (r: string)
    ensures |r| == 0 || !IsSpace(r[|r| - 1])
    ensures |r| <= |s| && r == s[..|r|]
    ensures forall j :: |r| <= j < |s| ==> IsSpace(s[j])
  {
    if |s| > 0 && IsSpace(s[|s| - 1]) then StripRight(s[..|s| - 1]) else s
  }

  /** `r` is the slice of `s` at `i`, and everything before and after it
      is white space. */
  predicate CutFrom(s: string, r: string, i: int) {
    && 0 <= i <= |s| - |r| && r == s[i..i + |r|]
    && (forall j :: 0 <= j < i ==> IsSpace(s[j]))
    && (forall j :: i + |r| <= j < |s| ==> IsSpace(s[j]))
  }

  /** `s.strip()`: no leading and no trailing white space remains, what
      remains is a contiguous slice of `s`, and everything cut away on
      either side of it is white space. */
  function Strip(s: string): (r: string)
    ensures |r| == 0 || (!IsSpace(r[0]) && !IsSpace(r[|r| - 1]))
    ensures exists i :: CutFrom(s, r, i)
  {
    var l := StripLeft(s);
    var r := StripRight(l);
    var i := |s| - |l|;
    assert r == s[i..i + |r|];
    assert forall j :: i + |r| <= j < |s| ==> IsSpace(s[j]) by {
      forall j | i + |r| <= j < |s| ensures IsSpace(s[j]) {
        assert s[j] == l[j - i];
      }
    }
    assert CutFrom(s, r, i);
    r
  }

  lemma StripLeftNoop(s: string)
    requires |s| == 0 || !IsSpace(s[0])
    ensures StripLeft(s) == s
  {
  }

  lemma StripRightNoop(s: string)
    requires |s| == 0 || !IsSpace(s[|s| - 1])
    ensures StripRight(s) == s
  {
  }

  /** Stripping twice is stripping once. */
  lemma StripIdempotent(s: string)
    ensures Strip(Strip(s)) == Strip(s)
  {
    var t := Strip(s);
    StripLeftNoop(t);
    StripRightNoop(t);
  }

  /** `isdigit` accepts a game id and rejects the empty string, a signed
      number and a string with a letter. */
  lemma IsDigitsExamples()
    ensures IsDigits("1033857091")
    ensures !IsDigits("") && !IsDigits("-1") && !IsDigits("12a")
  {
    assert "-1"[0] == '-';
    assert "12a"[2] == 'a';
  }
}
