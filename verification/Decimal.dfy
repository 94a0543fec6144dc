/** Signed 64-bit integers as decimal text, and their wrap-around. */
module Decimal {
  import opened Ordering
  import opened Collections

  const TWO63 := 0x8000_0000_0000_0000
  const TWO64 := 0x1_0000_0000_0000_0000

  predicate IsInt64(n: int)
  {
    -TWO63 <= n < TWO63
  }

  /** The value 64-bit two's complement arithmetic leaves for a sum or a negation. */
  function Wrap64(n: int): (r: int)
    ensures IsInt64(r) && (IsInt64(n) ==> r == n) && exists k :: r == n + k * TWO64
  {
    var r := (n + TWO63) % TWO64 - TWO63;
    assert r == n + -((n + TWO63) / TWO64) * TWO64;
    r
  }

  lemma WrapsModulo(n: int)
    ensures (Wrap64(n) - n) % TWO64 == 0
  {
    var k :| Wrap64(n) == n + k * TWO64;
    Multiple(k);
  }

  lemma Multiple(k: int)
    ensures (k * TWO64) % TWO64 == 0
  {
  }

  /** Wrapping an amount before it is added makes no difference to the wrapped sum. */
  lemma SameModulo(n: int, a: int, b: int)
    requires (a - b) % TWO64 == 0
    ensures (Wrap64(n + a) - (n + b)) % TWO64 == 0
  {
    WrapsModulo(n + a);
  }

  function Digits(n: nat): (s: Bytes)
    ensures s != [] && forall i :: 0 <= i < |s| ==> 48 <= s[i] <= 57
  {
    if n < 10 then [48 + n] else Digits(n / 10) + [48 + n % 10]
  }

  /** The number a run of digits stands for. */
  function Value(s: Bytes): Option<nat>
  {
    if s == [] then Some(0)
    else
      var last := s[|s| - 1];
      var front := Value(s[..|s| - 1]);
      if front.Some? && 48 <= last <= 57 then Some(10 * front.value + (last - 48)) else None
  }

  lemma {:induction false} ValueOfDigits(n: nat)
    ensures Value(Digits(n)) == Some(n)
  {
    if n < 10 {
      assert Digits(n)[..0] == [];
      assert Value([]) == Some(0);
    } else {
      ValueOfDigits(n / 10);
      var s := Digits(n);
      assert s[..|s| - 1] == Digits(n / 10) && s[|s| - 1] == 48 + n % 10;
    }
  }

  function Pow10(k: nat): (p: nat)
    ensures p > 0
  {
    if k == 0 then 1 else 10 * Pow10(k - 1)
  }

  /** Most significant digit first, none of them a leading zero. */
  lemma {:induction false} DigitAt(n: nat, i: nat)
    requires i < |Digits(n)|
    ensures Digits(n)[|Digits(n)| - 1 - i] == 48 + n / Pow10(i) % 10
    ensures n > 0 ==> Digits(n)[0] != 48
    ensures n < Pow10(|Digits(n)|)
  {
    if n >= 10 {
      var s := Digits(n);
      DigitAt(n / 10, if i == 0 then 0 else i - 1);
      assert |s| == |Digits(n / 10)| + 1 && s[0] == Digits(n / 10)[0];
      if i > 0 {
        DivTwice(n, 10, Pow10(i - 1));
        assert s[|s| - 1 - i] == Digits(n / 10)[|Digits(n / 10)| - 1 - (i - 1)];
      }
    } else {
      assert n / Pow10(0) % 10 == n;
    }
  }

  lemma DivTwice(n: nat, d: nat, p: nat)
    requires d > 0 && p > 0
    ensures d * p > 0 && n / d / p == n / (d * p)
  {
    var q, r := n / d, n % d;
    var a, b := q / p, q % p;
    Spread(d, p, a, b);
    Times(d, b, p - 1);
    Times(d, p, p);
    Times(d, 1, p);
    QuotientIs(n, d * p, a, d * b + r);
  }

  lemma Spread(d: nat, p: nat, a: nat, b: nat)
    ensures d * (p * a + b) == d * p * a + d * b
  {
  }

  lemma QuotientIs(n: nat, d: nat, a: nat, r: nat)
    requires 0 <= r < d && n == d * a + r
    ensures n / d == a
  {
    var q := n / d;
    if q < a { Times(d, q + 1, a); }
    if q > a { Times(d, a + 1, q); }
  }

  lemma Times(d: nat, x: int, y: int)
    requires x <= y
    ensures d * x <= d * y && d * (x - 1) == d * x - d
  {
  }

  lemma TenTimes(v: int, p: int)
    ensures 10 * (v * p) == v * (10 * p)
  {
  }

  /** Digits have a value, and only digits, and those in front count ten times as much for each one behind. */
  lemma {:induction false} ValueMeans(s: Bytes, t: Bytes)
    ensures Value(s).Some? <==> forall i :: 0 <= i < |s| ==> 48 <= s[i] <= 57
    ensures forall d: Byte :: 48 <= d <= 57 ==> Value([d]) == Some(d - 48)
    ensures Value(s).Some? && Value(t).Some? ==> Value(s + t) == Some(Value(s).value * Pow10(|t|) + Value(t).value)
  {
    ValueDigits(s);
    forall d: Byte | 48 <= d <= 57 ensures Value([d]) == Some(d - 48) {
      assert [d][..0] == [] && Value([]) == Some(0);
    }
    if Value(s).Some? && Value(t).Some? {
      ValueConcat(s, t);
    }
  }

  lemma {:induction false} ValueDigits(s: Bytes)
    ensures Value(s).Some? <==> forall i :: 0 <= i < |s| ==> 48 <= s[i] <= 57
  {
    if s != [] {
      var n := |s| - 1;
      ValueDigits(s[..n]);
      assert forall i :: 0 <= i < n ==> s[..n][i] == s[i];
    }
  }

  lemma {:induction false} ValueConcat(s: Bytes, t: Bytes)
    requires Value(s).Some? && Value(t).Some?
    ensures Value(s + t) == Some(Value(s).value * Pow10(|t|) + Value(t).value)
  {
    if t == [] {
      assert s + t == s;
    } else {
      var n := |t| - 1;
      ValueConcat(s, t[..n]);
      assert (s + t)[..|s + t| - 1] == s + t[..n] && (s + t)[|s + t| - 1] == t[n];
      TenTimes(Value(s).value, Pow10(n));
    }
  }

  function FormatInt(n: int): Bytes
  {
    if n < 0 then [45] + Digits(-n) else Digits(n)
  }

  /** An optional sign, at least one digit, digits only, and a value that fits. */
  function ParseInt(s: Bytes): Option<int>
  {
    var signed := s != [] && (s[0] == 43 || s[0] == 45);
    var digits := if signed then s[1..] else s;
    if digits == [] || Value(digits).None? then None
    else
      var m: int := Value(digits).value;
      var n := if signed && s[0] == 45 then -m else m;
      if IsInt64(n) then Some(n) else None
  }

  lemma ParseOfFormat(n: int)
    requires IsInt64(n)
    ensures ParseInt(FormatInt(n)) == Some(n)
  {
    ValueOfDigits(if n < 0 then -n else n);
    if n < 0 {
      assert FormatInt(n)[1..] == Digits(-n);
    }
  }

  /** What is read as a number: an optional sign, digits only and at least one, and a value that fits. */
  lemma ParseMeans(s: Bytes, n: int)
    ensures var t := if s != [] && (s[0] == 43 || s[0] == 45) then s[1..] else s;
      ParseInt(s) == Some(n) <==>
        t != [] && Value(t).Some? && IsInt64(n) && if s[0] == 45 then -n == Value(t).value else n == Value(t).value
  {
  }
}
