/** The text formatting the bot uses (fmt's `{}`, `{:02}` and `fmt::join`) and
    the digit parsing of `std::stoi` on runs of decimal digits. Strings stand
    for byte strings: one `char` per byte. */
module Format {

  predicate IsDigit(c: char) {
    '0' <= c <= '9'
  }

  predicate AllDigits(s: string) {
    forall i :: 0 <= i < |s| ==> IsDigit(s[i])
  }

  function DigitChar(n: int): (c: char)
    requires 0 <= n < 10
    ensures IsDigit(c)
  {
    ('0' as int + n) as char
  }

  function DigitValue(c: char): (n: int)
    requires IsDigit(c)
    ensures 0 <= n < 10 && DigitChar(n) == c
  {
    c as int - '0' as int
  }

  /** Decimal rendering of a natural number, without leading zeros. */
  function NatToDecimal(n: nat): (s: string)
    ensures 1 <= |s| && AllDigits(s)
    ensures |s| > 1 ==> s[0] != '0'
  {
    if n < 10 then [DigitChar(n)] else NatToDecimal(n / 10) + [DigitChar(n % 10)]
  }

  /** The value of a run of decimal digits, as `std::stoi` reads it. */
  function DigitsValue(s: string): nat
    requires AllDigits(s)
  {
    if s == [] then 0 else DigitsValue(s[..|s| - 1]) * 10 + DigitValue(s[|s| - 1])
  }

  /** fmt's `{}` for an integer. */
  function IntToDecimal(n: int): string {
    if n < 0 then "-" + NatToDecimal(-n) else NatToDecimal(n)
  }

  /** fmt's `{:02}`: zero-padded to width two. Negative numbers already take
      two characters, so only 0..9 receive a leading zero. */
  function Pad2(n: int): string {
    if 0 <= n < 10 then "0" + NatToDecimal(n) else IntToDecimal(n)
  }

  /** `fmt::join(xs, sep)`. */
  function Join(xs: seq<string>, sep: string): string {
    if |xs| == 0 then ""
    else if |xs| == 1 then xs[0]
    else xs[0] + sep + Join(xs[1..], sep)
  }

  /** The "{} on {:02}.{:02}" entry naming a person and a day and month. */
  function OnDate(person: string, d: int, m: int): string {
    person + " on " + Pad2(d) + "." + Pad2(m)
  }

  /** t occurs in s as a contiguous substring. */
  predicate Occurs(t: string, s: string) {
    exists k :: 0 <= k <= |s| && t <= s[k..]
  }

  // ---------------------------------------------------------------------

  /** Reading back a rendered number gives the number. */
  lemma {:induction false} DecimalRoundTrip(n: nat)
    ensures DigitsValue(NatToDecimal(n)) == n
    decreases n
  {
    if n >= 10 {
      DecimalRoundTrip(n / 10);
      var s := NatToDecimal(n);
      assert s[..|s| - 1] == NatToDecimal(n / 10);
    }
  }

  /** `{:02}` of 0..99 is exactly the two decimal digits. */
  lemma Pad2TwoDigits(n: int)
    requires 0 <= n < 100
    ensures Pad2(n) == [DigitChar(n / 10), DigitChar(n % 10)]
  {
    if n >= 10 {
      assert NatToDecimal(n / 10) == [DigitChar(n / 10)];
    }
  }

  /** Two digits read by `std::stoi` and printed by `{:02}` come back unchanged. */
  lemma Pad2OfTwoDigits(s: string)
    requires |s| == 2 && AllDigits(s)
    ensures DigitsValue(s) < 100
    ensures Pad2(DigitsValue(s)) == s
  {
    assert s[..1][..0] == [];
    assert DigitsValue(s[..1]) == DigitValue(s[0]);
    var n := DigitsValue(s);
    assert n == DigitValue(s[0]) * 10 + DigitValue(s[1]);
    Pad2TwoDigits(n);
  }

  /** Joining two non-empty lists is joining their joins. */
  lemma {:induction false} JoinAppend(xs: seq<string>, ys: seq<string>, sep: string)
    requires |xs| > 0 && |ys| > 0
    ensures Join(xs + ys, sep) == Join(xs, sep) + sep + Join(ys, sep)
    decreases |xs|
  {
    if |xs| == 1 {
      assert (xs + ys)[1..] == ys;
    } else {
      assert (xs + ys)[1..] == xs[1..] + ys;
      JoinAppend(xs[1..], ys, sep);
    }
  }

  /** A substring of s is a substring of anything built around s. */
  lemma OccursInContext(t: string, p: string, s: string, q: string)
    requires Occurs(t, s)
    ensures Occurs(t, p + s + q)
  {
    var k :| 0 <= k <= |s| && t <= s[k..];
    var w := p + s + q;
    assert w[|p| + k..] == s[k..] + q;
  }

  /** Every joined item occurs in the joined text. */
  lemma {:induction false} JoinContains(xs: seq<string>, sep: string, i: int)
    requires 0 <= i < |xs|
    ensures Occurs(xs[i], Join(xs, sep))
    decreases |xs|
  {
    if |xs| == 1 || i == 0 {
      var w := Join(xs, sep);
      if |xs| == 1 {
        assert w[0..] == xs[0];
      } else {
        assert w[0..] == xs[0] + (sep + Join(xs[1..], sep));
      }
    } else {
      JoinContains(xs[1..], sep, i - 1);
      OccursInContext(xs[i], xs[0] + sep, Join(xs[1..], sep), "");
      assert xs[0] + sep + Join(xs[1..], sep) + "" == Join(xs, sep);
    }
  }

  /** A substring of a substring is a substring. */
  lemma OccursTrans(a: string, b: string, c: string)
    requires Occurs(a, b) && Occurs(b, c)
    ensures Occurs(a, c)
  {
    var i :| 0 <= i <= |b| && a <= b[i..];
    var j :| 0 <= j <= |c| && b <= c[j..];
    assert c[j + i..] == c[j..][i..];
    assert a <= c[j + i..];
  }
}
