/** Escaping of Telegram Markdown control characters. The bot carries three
    identical copies of this routine (`escape_markdown` in bot.py and
    scheduler.py, `escape_markdown_v2` in api_client.py); they are one
    function here. */
module Markdown {
  import Text

  /** The 18 characters the routine escapes, in the order it handles them. */
  const SpecialChars: seq<char> :=
    ['_', '*', '[', ']', '(', ')', '~', '`', '>', '#', '+', '-', '=', '|', '{', '}', '.', '!']

  /** What an empty or missing text is shown as. */
  const Placeholder: string := "N/A"

  predicate IsSpecial(c: char) {
    c in SpecialChars
  }

  /** The characters of `SpecialChars` are distinct and none is a backslash. */
  predicate NoRepeatsNorBackslash(cs: seq<char>) {
    && (forall i, j :: 0 <= i < j < |cs| ==> cs[i] != cs[j])
    && (forall i :: 0 <= i < |cs| ==> cs[i] != '\\')
  }

  lemma SpecialCharsDistinct()
    ensures NoRepeatsNorBackslash(SpecialChars)
  {
  }

  /** Escaping one character against a list of characters to escape. */
  function EscapeCharWith(c: char, d: seq<char>): string {
    if c in d then ['\\', c] else [c]
  }

  /** Per-character escaping: each character of `d` gets a backslash in front. */
  function EscapeWith(s: string, d: seq<char>): string {
    if s == [] then [] else EscapeCharWith(s[0], d) + EscapeWith(s[1..], d)
  }

  /** The reference meaning of the routine on a non-empty text. */
  function EscapeChars(s: string): string {
    EscapeWith(s, SpecialChars)
  }

  /** The routine as written: `text.replace(c, "\\" + c)` for each special
      character in turn; each replacement only inserts, so the text never
      shrinks and an empty text stays empty. */
  function ReplaceChain(s: string, cs: seq<char>): (r: string)
    ensures |r| >= |s|
    ensures s == [] ==> r == []
    decreases |cs|
  {
    if cs == [] then s else ReplaceChain(Text.ReplaceAll(s, [cs[0]], ['\\', cs[0]]), cs[1..])
  }

  /** `escape_markdown(text)`: "N/A" for an empty text, otherwise the chained
      replacements, which amount to a backslash before every special
      character and nothing else; the text grows by one character per
      special character. */
  function Escape(text: string): (r: string)
    ensures text == [] ==> r == Placeholder
    ensures text != [] ==> r == EscapeChars(text)
    ensures text != [] ==> |r| == |text| + CountSpecial(text)
  {
    if text == [] then Placeholder
    else
      SequentialReplaceIsPerChar(text);
      EscapeLength(text);
      ReplaceChain(text, SpecialChars)
  }

  /** A text without special characters is shown as it is: the per-character
      escaping is the identity on it, and so is `escape_markdown` when the
      text is not empty. */
  lemma {:induction false} EscapePlain(s: string)
    requires forall i :: 0 <= i < |s| ==> !IsSpecial(s[i])
    ensures EscapeChars(s) == s
    ensures s != [] ==> Escape(s) == s
  {
    if s != [] {
      EscapePlain(s[1..]);
    }
  }

  /** The placeholder has no special character. */
  lemma EscapePlaceholder()
    ensures Escape(Placeholder) == Placeholder
  {
    var p := Placeholder;
    assert !IsSpecial(p[0]) && !IsSpecial(p[1]) && !IsSpecial(p[2]);
    EscapePlain(p);
  }

  function CountSpecial(s: string): nat {
    if s == [] then 0 else (if IsSpecial(s[0]) then 1 else 0) + CountSpecial(s[1..])
  }

  lemma {:induction false} EscapeLength(s: string)
    ensures |EscapeChars(s)| == |s| + CountSpecial(s)
  {
    if s != [] {
      EscapeLength(s[1..]);
    }
  }

  /** Replacing one character by a string, character by character. */
  function ReplaceChar(s: string, c: char, rep: string): string {
    if s == [] then [] else (if s[0] == c then rep else [s[0]]) + ReplaceChar(s[1..], c, rep)
  }

  lemma {:induction false} ReplaceAllOneChar(s: string, c: char, rep: string)
    ensures Text.ReplaceAll(s, [c], rep) == ReplaceChar(s, c, rep)
    decreases |s|
  {
    if s != [] {
      assert s[..1] == [s[0]];
      ReplaceAllOneChar(s[1..], c, rep);
    }
  }

  lemma {:induction false} ReplaceCharAppend(a: string, b: string, c: char, rep: string)
    ensures ReplaceChar(a + b, c, rep) == ReplaceChar(a, c, rep) + ReplaceChar(b, c, rep)
  {
    if a != [] {
      assert (a + b)[1..] == a[1..] + b;
      ReplaceCharAppend(a[1..], b, c, rep);
    } else {
      assert a + b == b;
    }
  }

  /** One more replacement step extends the escaped set by one character. */
  lemma {:induction false} ReplaceStep(s: string, d: seq<char>, c: char)
    requires c != '\\' && c !in d
    ensures ReplaceChar(EscapeWith(s, d), c, ['\\', c]) == EscapeWith(s, d + [c])
  {
    if s != [] {
      ReplaceCharAppend(EscapeCharWith(s[0], d), EscapeWith(s[1..], d), c, ['\\', c]);
      ReplaceStep(s[1..], d, c);
      var x := s[0];
      if x in d {
        assert ReplaceChar(['\\', x], c, ['\\', c]) == ['\\', x] by {
          assert ['\\', x][1..] == [x];
        }
      }
    }
  }

  lemma {:induction false} EscapeWithNothing(s: string)
    ensures EscapeWith(s, []) == s
  {
    if s != [] {
      EscapeWithNothing(s[1..]);
    }
  }

  lemma {:induction false} ReplaceChainFrom(s: string, d: seq<char>, cs: seq<char>)
    requires NoRepeatsNorBackslash(d + cs)
    ensures ReplaceChain(EscapeWith(s, d), cs) == EscapeWith(s, d + cs)
    decreases |cs|
  {
    if cs != [] {
      var c := cs[0];
      assert c == (d + cs)[|d|];
      assert c !in d by {
        forall i | 0 <= i < |d| ensures d[i] != c {
          assert d[i] == (d + cs)[i];
        }
      }
      ReplaceAllOneChar(EscapeWith(s, d), c, ['\\', c]);
      ReplaceStep(s, d, c);
      assert d + cs == (d + [c]) + cs[1..];
      ReplaceChainFrom(s, d + [c], cs[1..]);
    } else {
      assert d + cs == d;
    }
  }

  /** The chain of `str.replace` calls in the source equals per-character
      escaping: no replacement disturbs the backslashes or characters an
      earlier one inserted. */
  lemma SequentialReplaceIsPerChar(s: string)
    ensures ReplaceChain(s, SpecialChars) == EscapeChars(s)
  {
    SpecialCharsDistinct();
    EscapeWithNothing(s);
    assert [] + SpecialChars == SpecialChars;
    ReplaceChainFrom(s, [], SpecialChars);
  }

  /** Inverse of per-character escaping. */
  function Unescape(s: string): string {
    if s == [] then []
    else if |s| >= 2 && s[0] == '\\' && IsSpecial(s[1]) then [s[1]] + Unescape(s[2..])
    else [s[0]] + Unescape(s[1..])
  }

  lemma {:induction false} EscapedStartsPlain(s: string)
    requires s != []
    ensures !IsSpecial(EscapeChars(s)[0])
  {
  }

  /** Escaping loses nothing: a non-empty text is recovered from its escaped
      form, so distinct names stay distinct in a notification. */
  lemma {:induction false} UnescapeEscape(s: string)
    requires s != []
    ensures Unescape(Escape(s)) == s
  {
    UnescapeEscapeChars(s);
  }

  lemma {:induction false} UnescapeEscapeChars(s: string)
    ensures Unescape(EscapeChars(s)) == s
  {
    if s != [] {
      var rest := EscapeChars(s[1..]);
      UnescapeEscapeChars(s[1..]);
      if IsSpecial(s[0]) {
        assert EscapeChars(s) == ['\\', s[0]] + rest;
        assert (['\\', s[0]] + rest)[2..] == rest;
      } else {
        assert EscapeChars(s) == [s[0]] + rest;
        if rest != [] {
          EscapedStartsPlain(s[1..]);
        }
        assert ([s[0]] + rest)[1..] == rest;
      }
    }
  }
}
