/**
 Numbers as cJSON reads and writes them. `strtod` is written out over the reals: it computes
 the exact value of the decimal text, where the C library rounds to a double.
 */
module CJsonNumbers {
  import opened CJsonStrings

  const INT_MAX: int := 0x7fff_ffff
  const INT_MIN: int := -0x8000_0000

  // ---------------------------------------------------------------- writing

  function Digits(n: nat): (t: string)
    ensures |t| >= 1
    ensures forall k :: 0 <= k < |t| ==> '0' <= t[k] <= '9'
  {
    var last := ['0' + (n % 10) as char];
    if n < 10 then last else Digits(n / 10) + last
  }

  /** `sprintf("%d")`. */
  function IntText(n: int): (t: string)
    ensures |t| >= 1
  {
    if n < 0 then "-" + Digits(-n) else Digits(n)
  }

  // ---------------------------------------------------------------- reading

  /** The characters `parse_number` copies to its buffer. */
  predicate NumberChar(ch: char) {
    '0' <= ch <= '9' || ch in {'+', '-', 'e', 'E', '.'}
  }

  /** The first character from `i` on that is not one of them. */
  function NumberEnd(c: string, i: nat): (e: nat)
    ensures e >= i && (e > i ==> e <= |c|)
    decreases |c| - i
  {
    if i < |c| && NumberChar(c[i]) then NumberEnd(c, i + 1) else i
  }

  /** The buffer holds 63 characters and a NUL. */
  const NUMBER_ROOM: nat := 63

  /** How many characters are copied. */
  function NumberSpan(c: string, i: nat): (n: nat)
    ensures n <= NUMBER_ROOM && (n > 0 ==> i + n <= |c|)
  {
    var n := NumberEnd(c, i) - i;
    if n < NUMBER_ROOM then n else NUMBER_ROOM
  }

  function DigitEnd(t: string, i: nat): (e: nat)
    requires i <= |t|
    ensures i <= e <= |t|
    decreases |t| - i
  {
    if i < |t| && '0' <= t[i] <= '9' then DigitEnd(t, i + 1) else i
  }

  /** The value of a run of digits; other characters do not occur in it. */
  function DigitsValue(t: string): int {
    if t == "" then 0 else DigitsValue(t[..|t| - 1]) * 10 + (t[|t| - 1] as int - '0' as int)
  }

  function Pow10(e: int): real
    decreases if e < 0 then -e else e
  {
    if e == 0 then 1.0 else if e > 0 then 10.0 * Pow10(e - 1) else Pow10(e + 1) / 10.0
  }

  datatype Strtod = Strtod(value: real, length: nat)

  /** `strtod` on the copied characters: an optional sign, digits with an optional point, and
      an optional exponent that counts only if it has digits. */
  function ReadDouble(t: string): (r: Strtod)
    ensures r.length <= |t|
  {
    var s := if t != "" && t[0] in {'+', '-'} then 1 else 0;
    var a := DigitEnd(t, s);
    var b := if a < |t| && t[a] == '.' then DigitEnd(t, a + 1) else a;
    var fraction := if b > a then t[a + 1..b] else "";
    if a == s && fraction == "" then Strtod(0.0, 0)
    else
      var e := Exponent(t, b);
      var mantissa := DigitsValue(t[s..a] + fraction) as real * Pow10(e.0 - |fraction|);
      Strtod(if s == 1 && t[0] == '-' then -mantissa else mantissa, e.1)
  }

  function Exponent(t: string, b: nat): (r: (int, nat))
    requires b <= |t|
    ensures b <= r.1 <= |t|
  {
    if b < |t| && t[b] in {'e', 'E'} then
      var x := if b + 1 < |t| && t[b + 1] in {'+', '-'} then b + 2 else b + 1;
      var d := DigitEnd(t, x);
      if d == x then (0, b)
      else (if t[b + 1] == '-' then -DigitsValue(t[x..d]) else DigitsValue(t[x..d]), d)
    else (0, b)
  }

  /** The fraction cut off. */
  function Truncated(r: real): (n: int)
    ensures r >= 0.0 ==> n as real <= r < n as real + 1.0
    ensures r < 0.0 ==> n as real - 1.0 < r <= n as real
  {
    if r >= 0.0 then r.Floor else -((-r).Floor)
  }

  /** The saturating conversion to `int`. */
  function Saturated(r: real): (n: int)
    ensures INT_MIN <= n <= INT_MAX
    ensures INT_MIN as real < r < INT_MAX as real ==> n == Truncated(r)
  {
    if r >= INT_MAX as real then INT_MAX
    else if r <= INT_MIN as real then INT_MIN
    else Truncated(r)
  }

  // ---------------------------------------------------------------- the round trip

  lemma {:induction false} DigitsRead(n: nat)
    ensures DigitsValue(Digits(n)) == n
    decreases n
  {
    var t := Digits(n);
    if n >= 10 {
      DigitsRead(n / 10);
      assert t[..|t| - 1] == Digits(n / 10);
    } else {
      assert t[..|t| - 1] == "";
    }
  }

  lemma {:induction false} NoLeadingZero(n: nat)
    ensures n > 0 || |Digits(n)| > 1 ==> Digits(n)[0] != '0'
    decreases n
  {
    if n >= 10 {
      NoLeadingZero(n / 10);
    }
  }

  lemma {:induction false} DigitsEnd(t: string, i: nat)
    requires i <= |t| && forall k :: i <= k < |t| ==> '0' <= t[k] <= '9'
    ensures DigitEnd(t, i) == |t|
    decreases |t| - i
  {
    if i < |t| {
      DigitsEnd(t, i + 1);
    }
  }

  lemma {:induction false} DigitsShort(n: nat, limit: nat, k: nat)
    requires Tens(limit, k) && n < limit
    ensures |Digits(n)| <= k
    decreases k
  {
    if n >= 10 {
      DigitsShort(n / 10, limit / 10, k - 1);
    }
  }

  /** `limit` is ten to the power `k`. */
  predicate Tens(limit: nat, k: nat) {
    if k == 1 then limit == 10 else k > 1 && limit % 10 == 0 && Tens(limit / 10, k - 1)
  }

  lemma IntTextShort(n: int)
    requires INT_MIN <= n <= INT_MAX
    ensures |IntText(n)| <= 11
  {
    assert Tens(100, 2) && Tens(10_000, 4) && Tens(1_000_000, 6) && Tens(100_000_000, 8);
    assert Tens(10_000_000_000, 10);
    DigitsShort(if n < 0 then -n else n, 10_000_000_000, 10);
  }

  /** Text that is a sign and digits up to its end. */
  lemma WholeNumber(t: string, s: nat)
    requires s < |t| && s == (if t[0] in {'+', '-'} then 1 else 0) && DigitEnd(t, s) == |t|
    ensures ReadDouble(t) ==
            Strtod(if t[0] == '-' then -(DigitsValue(t[s..]) as real) else DigitsValue(t[s..]) as real, |t|)
  {
    assert t[s..|t|] + "" == t[s..];
    assert Exponent(t, |t|) == (0, |t|);
  }

  lemma SignedDigits(t: string, d: string, s: nat)
    requires s <= 1 && t == (if s == 1 then "-" else "") + d && d != ""
    requires forall k :: 0 <= k < |d| ==> '0' <= d[k] <= '9'
    ensures t[s..] == d && DigitEnd(t, s) == |t|
    ensures s == (if t[0] in {'+', '-'} then 1 else 0) && (t[0] == '-' <==> s == 1)
  {
    assert forall k :: s <= k < |t| ==> t[k] == d[k - s];
    DigitsEnd(t, s);
  }

  lemma Negated(m: int)
    ensures -(m as real) == (-m) as real
  {
  }

  /** An integer that was printed is read back exactly, text and value. */
  lemma IntRoundTrip(n: int)
    ensures ReadDouble(IntText(n)) == Strtod(n as real, |IntText(n)|)
  {
    var m := if n < 0 then -n else n;
    var s := if n < 0 then 1 else 0;
    var d := Digits(m);
    DigitsRead(m);
    SignedDigits(IntText(n), d, s);
    WholeNumber(IntText(n), s);
    Negated(m);
  }

  lemma SaturatedInt(n: int)
    requires INT_MIN <= n <= INT_MAX
    ensures Saturated(n as real) == n
  {
  }

  lemma SpanOfText(c: string, i: nat, t: string)
    requires TextAt(c, i, t) && |t| <= NUMBER_ROOM
    requires forall k :: 0 <= k < |t| ==> NumberChar(t[k])
    requires i + |t| < |c| && !NumberChar(c[i + |t|])
    ensures NumberSpan(c, i) == |t|
  {
    forall k | i <= k < i + |t|
      ensures NumberChar(c[k])
    {
      assert c[i..i + |t|][k - i] == t[k - i];
    }
    NumberEndAt(c, i, i + |t|);
  }

  lemma {:induction false} NumberEndAt(c: string, i: nat, e: nat)
    requires i <= e < |c| && !NumberChar(c[e])
    requires forall k :: i <= k < e ==> NumberChar(c[k])
    ensures NumberEnd(c, i) == e
    decreases e - i
  {
    if i < e {
      NumberEndAt(c, i + 1, e);
    }
  }
}
