/**
 * OBIS registry codes (six value groups A to F, each an unsigned byte) and
 * their textual form, the six groups in decimal separated by dots, which
 * names the properties of the exposed thing.
 */
module Obis {

  /** One value group of an OBIS code: an unsigned 8-bit integer. */
  type Group = x: int | 0 <= x < 256

  datatype ObisCode = ObisCode(a: Group, b: Group, c: Group, d: Group, e: Group, f: Group)

  /** The codes the normalisation table mentions. */
  const Clock: ObisCode := ObisCode(0, 0, 1, 0, 0, 255)
  const DeviceName: ObisCode := ObisCode(0, 0, 42, 0, 0, 255)
  const SerialNumber: ObisCode := ObisCode(0, 0, 96, 1, 0, 255)

  predicate IsDigit(ch: char) {
    '0' <= ch <= '9'
  }

  predicate NoDot(s: string) {
    forall i :: 0 <= i < |s| ==> s[i] != '.'
  }

  /** The decimal rendering of a natural number, without leading zeros. */
  function Decimal(n: nat): (s: string)
    ensures |s| > 0
    ensures forall i :: 0 <= i < |s| ==> IsDigit(s[i])
  {
    var last := ('0' as int + n % 10) as char;
    if n < 10 then [last] else Decimal(n / 10) + [last]
  }

  /** The number a string of decimal digits denotes. */
  function DecimalValue(s: string): int
  {
    if s == [] then 0
    else DecimalValue(s[..|s| - 1]) * 10 + (s[|s| - 1] as int - '0' as int)
  }

  lemma {:induction false} DecimalRoundTrip(n: nat)
    ensures DecimalValue(Decimal(n)) == n
  {
    var s := Decimal(n);
    if n >= 10 {
      DecimalRoundTrip(n / 10);
      assert s[..|s| - 1] == Decimal(n / 10);
    }
  }

  /** The textual form of a code: its six groups in decimal, separated by dots. */
  function ToString(code: ObisCode): string
  {
    Decimal(code.a) + "." + (Decimal(code.b) + "." + (Decimal(code.c) + "." +
      (Decimal(code.d) + "." + (Decimal(code.e) + "." + Decimal(code.f)))))
  }

  /** The position of the first dot in `s`, or `|s|` when there is none. */
  function FirstDot(s: string): (k: nat)
    ensures k <= |s|
  {
    if s == [] || s[0] == '.' then 0 else 1 + FirstDot(s[1..])
  }

  lemma {:induction false} FirstDotAfter(x: string, y: string)
    requires NoDot(x)
    ensures FirstDot(x + "." + y) == |x|
  {
    if x != [] {
      assert (x + "." + y)[1..] == x[1..] + "." + y;
      FirstDotAfter(x[1..], y);
    }
  }

  /** A dot-separated string splits in exactly one way at its first dot. */
  lemma SplitAtFirstDot(x: string, y: string, x': string, y': string)
    requires NoDot(x) && NoDot(x')
    requires x + "." + y == x' + "." + y'
    ensures x == x' && y == y'
  {
    var s := x + "." + y;
    FirstDotAfter(x, y);
    FirstDotAfter(x', y');
    assert x == s[..|x|] == x';
    assert y == s[|x| + 1..] == y';
  }

  lemma DecimalNoDot(n: nat)
    ensures NoDot(Decimal(n))
  {
    var s := Decimal(n);
    forall i | 0 <= i < |s| ensures s[i] != '.' {
      assert IsDigit(s[i]);
    }
  }

  lemma DecimalInjective(m: nat, n: nat)
    ensures Decimal(m) == Decimal(n) ==> m == n
  {
    DecimalRoundTrip(m);
    DecimalRoundTrip(n);
  }

  /** Distinct codes give distinct property names. */
  lemma ToStringInjective(c1: ObisCode, c2: ObisCode)
    ensures ToString(c1) == ToString(c2) ==> c1 == c2
  {
    if ToString(c1) == ToString(c2) {
      DecimalNoDot(c1.a); DecimalNoDot(c1.b); DecimalNoDot(c1.c); DecimalNoDot(c1.d); DecimalNoDot(c1.e);
      DecimalNoDot(c2.a); DecimalNoDot(c2.b); DecimalNoDot(c2.c); DecimalNoDot(c2.d); DecimalNoDot(c2.e);
      var r1 := Decimal(c1.e) + "." + Decimal(c1.f);
      var r2 := Decimal(c2.e) + "." + Decimal(c2.f);
      var q1 := Decimal(c1.d) + "." + r1;
      var q2 := Decimal(c2.d) + "." + r2;
      var p1 := Decimal(c1.c) + "." + q1;
      var p2 := Decimal(c2.c) + "." + q2;
      var o1 := Decimal(c1.b) + "." + p1;
      var o2 := Decimal(c2.b) + "." + p2;
      SplitAtFirstDot(Decimal(c1.a), o1, Decimal(c2.a), o2);
      SplitAtFirstDot(Decimal(c1.b), p1, Decimal(c2.b), p2);
      SplitAtFirstDot(Decimal(c1.c), q1, Decimal(c2.c), q2);
      SplitAtFirstDot(Decimal(c1.d), r1, Decimal(c2.d), r2);
      SplitAtFirstDot(Decimal(c1.e), Decimal(c1.f), Decimal(c2.e), Decimal(c2.f));
      DecimalInjective(c1.a, c2.a);
      DecimalInjective(c1.b, c2.b);
      DecimalInjective(c1.c, c2.c);
      DecimalInjective(c1.d, c2.d);
      DecimalInjective(c1.e, c2.e);
      DecimalInjective(c1.f, c2.f);
    }
  }
}
