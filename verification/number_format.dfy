/** `format_number`: Python's `f"{number:,}"` with the commas turned into
    dots, the Brazilian thousands separator (15162 is shown as "15.162"). */
module NumberFormat {
  import Text

  function DigitChar(d: nat): char
    requires d < 10
  {
    "0123456789"[d]
  }

  function DigitValue(c: char): nat
    requires Text.IsAsciiDigit(c)
  {
    (c as int - '0' as int) as nat
  }

  /** The decimal numeral of `n`, without leading zeros. */
  function Digits(n: nat): (r: string)
    ensures Text.IsDigits(r)
    ensures |r| > 1 ==> r[0] != '0'
  {
    if n < 10 then [DigitChar(n)] else Digits(n / 10) + [DigitChar(n % 10)]
  }

  /** The value of a numeral read most significant digit first. */
  function ParseDigits(s: string): nat
    requires forall i :: 0 <= i < |s| ==> Text.IsAsciiDigit(s[i])
  {
    if s == [] then 0 else ParseDigits(s[..|s| - 1]) * 10 + DigitValue(s[|s| - 1])
  }

  lemma {:induction false} ParseDigitsOfDigits(n: nat)
    ensures ParseDigits(Digits(n)) == n
  {
    if n >= 10 {
      var d := Digits(n);
      assert d[..|d| - 1] == Digits(n / 10);
      ParseDigitsOfDigits(n / 10);
    }
  }

  /** Inserting a dot before every group of three digits, counted from the right. */
  function Group3(d: string): string
    decreases |d|
  {
    if |d| <= 3 then d else Group3(d[..|d| - 3]) + "." + d[|d| - 3..]
  }

  function RemoveDots(s: string): string {
    if s == [] then [] else (if s[0] == '.' then [] else [s[0]]) + RemoveDots(s[1..])
  }

  /** A grouped numeral: one leading group of one to three digits, then any
      number of groups of exactly three digits, each introduced by a dot. */
  predicate WellGrouped(s: string)
    decreases |s|
  {
    || (1 <= |s| <= 3 && Text.IsDigits(s))
    || (|s| >= 5 && s[|s| - 4] == '.' && Text.IsDigits(s[|s| - 3..]) && WellGrouped(s[..|s| - 4]))
  }

  lemma {:induction false} RemoveDotsAppend(a: string, b: string)
    ensures RemoveDots(a + b) == RemoveDots(a) + RemoveDots(b)
  {
    if a != [] {
      assert (a + b)[1..] == a[1..] + b;
      RemoveDotsAppend(a[1..], b);
    } else {
      assert a + b == b;
    }
  }

  lemma {:induction false} RemoveDotsNoDots(s: string)
    requires forall i :: 0 <= i < |s| ==> Text.IsAsciiDigit(s[i])
    ensures RemoveDots(s) == s
  {
    if s != [] {
      RemoveDotsNoDots(s[1..]);
    }
  }

  lemma {:induction false} Group3KeepsDigits(d: string)
    requires Text.IsDigits(d)
    ensures RemoveDots(Group3(d)) == d
    decreases |d|
  {
    if |d| <= 3 {
      RemoveDotsNoDots(d);
    } else {
      var hi, lo := d[..|d| - 3], d[|d| - 3..];
      assert Text.IsDigits(hi) && Text.IsDigits(lo);
      Group3KeepsDigits(hi);
      var g := Group3(hi);
      RemoveDotsAppend(g + ".", lo);
      RemoveDotsAppend(g, ".");
      RemoveDotsNoDots(lo);
      assert RemoveDots(".") == [];
      assert hi + lo == d;
    }
  }

  lemma {:induction false} Group3WellGrouped(d: string)
    requires Text.IsDigits(d)
    ensures WellGrouped(Group3(d))
    decreases |d|
  {
    if |d| > 3 {
      var hi, lo := d[..|d| - 3], d[|d| - 3..];
      assert Text.IsDigits(hi) && Text.IsDigits(lo);
      Group3WellGrouped(hi);
      var g := Group3(hi);
      var r := g + "." + lo;
      assert |g| >= 1;
      assert r[..|r| - 4] == g;
      assert r[|r| - 3..] == lo;
      assert r[|r| - 4] == '.';
    }
  }

  /** `format_number(n)`: for a non-negative `n`, deleting the dots gives back
      the decimal digits of `n` (and so `n` itself), the first group has one to
      three digits and every later group exactly three; a negative `n` gets a
      leading minus sign in front of the same layout. */
  function FormatNumber(n: int): (r: string)
    ensures n >= 0 ==> RemoveDots(r) == Digits(n) && WellGrouped(r)
    ensures n >= 0 ==> ParseDigits(RemoveDots(r)) == n
    ensures n < 0 ==> |r| > 1 && r[0] == '-' && RemoveDots(r[1..]) == Digits(-n) && WellGrouped(r[1..])
  {
    if n < 0 then
      Group3KeepsDigits(Digits(-n));
      Group3WellGrouped(Digits(-n));
      var r := "-" + Group3(Digits(-n));
      assert r[1..] == Group3(Digits(-n));
      r
    else
      Group3KeepsDigits(Digits(n));
      Group3WellGrouped(Digits(n));
      ParseDigitsOfDigits(n);
      Group3(Digits(n))
  }

  lemma FormatNumberZero()
    ensures FormatNumber(0) == "0"
  {
  }

  lemma FormatNumberExample()
    ensures FormatNumber(15162) == "15.162"
    ensures FormatNumber(999) == "999"
  {
  }
}
