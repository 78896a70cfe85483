/** Decimal text of unsigned numbers: the ring's itoa, and strconv.ParseUint in base ten. */
module Decimal {
  import opened Basics

  function Digit(d: nat): char
    requires d < 10
  {
    (d as char) + '0'
  }

  function Itoa(i: nat): (s: string)
    ensures s != ""
  {
    if i < 10 then [Digit(i)] else Itoa(i / 10) + [Digit(i % 10)]
  }

  /** itoa: digits are prepended, lowest first. */
  method ItoaLoop(i: nat) returns (s: string)
    ensures s == Itoa(i)
  {
    if i == 0 {
      assert Itoa(0) == [Digit(0)];
      return [Digit(0)];
    }
    s := "";
    var n := i;
    assert Itoa(i) == Itoa(n) + s;
    while n > 0
      invariant n > 0 ==> Itoa(i) == Itoa(n) + s
      invariant n == 0 ==> Itoa(i) == s
    {
      s := [Digit(n % 10)] + s;
      n := n / 10;
    }
  }

  predicate IsDigit(c: char) { '0' <= c <= '9' }

  predicate AllDigits(s: string) { forall k :: 0 <= k < |s| ==> IsDigit(s[k]) }

  function Value(s: string): nat
    requires AllDigits(s)
  {
    if s == "" then 0 else 10 * Value(s[..|s| - 1]) + ((s[|s| - 1] as int) - ('0' as int))
  }

  /** strconv.ParseUint(s, 10, 64). */
  function ParseUint(s: string): (r: Option<uint64>)
  {
    if s == "" || !AllDigits(s) || Value(s) > MAX_UINT64 then None else Some(Value(s))
  }

  lemma {:induction false} ItoaValue(i: nat)
    ensures AllDigits(Itoa(i)) && Value(Itoa(i)) == i
    decreases i
  {
    var s := Itoa(i);
    if i < 10 {
      assert s[..0] == "";
    } else {
      ItoaValue(i / 10);
      assert s[..|s| - 1] == Itoa(i / 10);
    }
  }

  /** A number survives being written and parsed. */
  lemma {:induction false} DecimalRoundTrip(i: uint64)
    ensures ParseUint(Itoa(i)) == Some(i)
  {
    ItoaValue(i);
  }
}
