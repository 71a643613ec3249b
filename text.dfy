/** Substring facts used to state what the handler's messages mention. */
module Text {

  /** `t` occurs in `s` as a contiguous block of characters. */
  predicate Contains(s: string, t: string) {
    exists i :: 0 <= i <= |s| - |t| && OccursAt(s, t, i)
  }

  /** `t` occurs in `s` starting at index `i`. */
  predicate OccursAt(s: string, t: string, i: nat)
    requires i <= |s| - |t|
  {
    s[i..i + |t|] == t
  }

  /** `s` ends with `t`. */
  predicate EndsWith(s: string, t: string) {
    |t| <= |s| && s[|s| - |t|..] == t
  }

  /** A string contains every piece it was concatenated from. */
  lemma ContainsInfix(a: string, t: string, b: string)
    ensures Contains(a + t + b, t)
  {
    var s := a + t + b;
    assert OccursAt(s, t, |a|);
  }

  lemma ContainsSuffix(a: string, t: string)
    ensures Contains(a + t, t)
  {
    ContainsInfix(a, t, []);
    assert a + t + [] == a + t;
  }

  /** Decimal rendering of a natural number, most significant digit first. */
  function Decimal(n: nat): (r: string)
    ensures |r| >= 1
    ensures forall i :: 0 <= i < |r| ==> '0' <= r[i] <= '9'
    decreases n
  {
    var d := ['0', '1', '2', '3', '4', '5', '6', '7', '8', '9'];
    if n < 10 then [d[n]] else Decimal(n / 10) + [d[n % 10]]
  }

  /** Distinct numbers have distinct renderings. */
  lemma {:induction false} DecimalInjective(n: nat, m: nat)
    requires Decimal(n) == Decimal(m)
    ensures n == m
    decreases n
  {
    if n >= 10 && m >= 10 {
      var a, b := Decimal(n), Decimal(m);
      assert a[..|a| - 1] == Decimal(n / 10);
      assert b[..|b| - 1] == Decimal(m / 10);
      DecimalInjective(n / 10, m / 10);
      assert a[|a| - 1] == b[|b| - 1];
    }
  }
}
