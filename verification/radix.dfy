/** Positional notation: the arithmetic shared by timestamps, base-32 ids and base-58 keys. */
module Radix {
  import opened Texts

  function Pow(b: nat, e: nat): nat {
    if e == 0 then 1 else b * Pow(b, e - 1)
  }

  lemma {:induction false} PowPositive(b: nat, e: nat)
    requires b > 0
    ensures Pow(b, e) > 0
  {
    if e > 0 {
      PowPositive(b, e - 1);
    }
  }

  lemma {:induction false} PowAdd(b: nat, e: nat, f: nat)
    ensures Pow(b, e + f) == Pow(b, e) * Pow(b, f)
  {
    if e > 0 {
      PowAdd(b, e - 1, f);
      Associates(b, Pow(b, e - 1), Pow(b, f));
    }
  }

  lemma Associates(a: int, b: int, c: int)
    ensures (a * b) * c == a * (b * c)
  {
  }

  /** The digits of `n`, least significant last, read in base `b`. */
  function Value(ds: seq<nat>, b: nat): nat {
    if ds == [] then 0 else Value(ds[..|ds| - 1], b) * b + ds[|ds| - 1]
  }

  ghost predicate AreDigits(ds: seq<nat>, b: nat) {
    forall i :: 0 <= i < |ds| ==> ds[i] < b
  }

  /** `n` in exactly `w` digits. */
  function Fixed(n: nat, w: nat, b: nat): (ds: seq<nat>)
    requires b > 0
    ensures |ds| == w && AreDigits(ds, b)
    decreases w, n
  {
    if w == 0 then [] else Quotient(n, b); Fixed(n / b, w - 1, b) + [n % b]
  }

  /** `n` in as few digits as possible; zero has none. */
  function Digits(n: nat, b: nat): (ds: seq<nat>)
    requires b > 1
    ensures AreDigits(ds, b)
  {
    if n == 0 then [] else Quotient(n, b); Digits(n / b, b) + [n % b]
  }

  lemma Quotient(n: nat, b: nat)
    requires b > 0
    ensures n == (n / b) * b + n % b && n % b < b && n / b >= 0
    ensures n > 0 && b > 1 ==> n / b < n
  {
    if n > 0 && b > 1 && n / b >= n {
      MulMonotone(n, n / b, b);
      MulMonotone(2, b, n);
    }
  }

  lemma {:induction false} MulMonotone(p: nat, q: nat, b: nat)
    requires p <= q
    ensures p * b <= q * b && b * p <= b * q
  {
    if p < q {
      MulMonotone(p, q - 1, b);
      assert q * b == (q - 1) * b + b;
    }
  }

  lemma MulStep(p: nat, q: nat, b: nat)
    requires p < q
    ensures p * b + b <= q * b
  {
    MulMonotone(p + 1, q, b);
    assert (p + 1) * b == p * b + b;
  }

  lemma DivRem(q: nat, r: nat, b: nat)
    requires r < b
    ensures q * b + r >= 0 && (q * b + r) / b == q && (q * b + r) % b == r
  {
    MulMonotone(0, q, b);
    var n := q * b + r;
    Quotient(n, b);
    if n / b < q {
      MulStep(n / b, q, b);
    } else if n / b > q {
      MulStep(q, n / b, b);
    }
  }

  lemma {:induction false} ValueOfFixed(n: nat, w: nat, b: nat)
    requires b > 0 && n < Pow(b, w)
    ensures Value(Fixed(n, w, b), b) == n
    decreases w
  {
    if w > 0 {
      Quotient(n, b);
      DivBelow(n, b, Pow(b, w - 1));
      ValueOfFixed(n / b, w - 1, b);
      assert Fixed(n, w, b)[..w - 1] == Fixed(n / b, w - 1, b);
    }
  }

  lemma DivBelow(n: nat, b: nat, m: nat)
    requires b > 0 && n < b * m
    ensures n / b < m
  {
    Quotient(n, b);
    if n / b >= m {
      MulMonotone(m, n / b, b);
    }
  }

  lemma {:induction false} FixedOfValue(ds: seq<nat>, b: nat)
    requires b > 0 && AreDigits(ds, b)
    ensures Fixed(Value(ds, b), |ds|, b) == ds
  {
    if ds != [] {
      var front := ds[..|ds| - 1];
      FixedOfValue(front, b);
      DivRem(Value(front, b), ds[|ds| - 1], b);
      assert ds == front + [ds[|ds| - 1]];
    }
  }

  lemma {:induction false} ValueBelow(ds: seq<nat>, b: nat)
    requires b > 0 && AreDigits(ds, b)
    ensures Value(ds, b) < Pow(b, |ds|)
  {
    if ds != [] {
      var front := ds[..|ds| - 1];
      ValueBelow(front, b);
      MulStep(Value(front, b), Pow(b, |front|), b);
    }
  }

  lemma FixedInjective(m: nat, n: nat, w: nat, b: nat)
    requires b > 0 && m < Pow(b, w) && n < Pow(b, w)
    ensures Fixed(m, w, b) == Fixed(n, w, b) <==> m == n
  {
    ValueOfFixed(m, w, b);
    ValueOfFixed(n, w, b);
  }

  /** `m < n` decided by quotient first, then remainder. */
  lemma DivOrder(m: nat, n: nat, b: nat)
    requires b > 0
    ensures m < n <==> m / b < n / b || (m / b == n / b && m % b < n % b)
  {
    Quotient(m, b);
    Quotient(n, b);
    if m / b < n / b {
      MulStep(m / b, n / b, b);
    } else if m / b > n / b {
      MulStep(n / b, m / b, b);
    }
  }

  /** Fixed-width notation turns the order of numbers into the order of strings. */
  lemma {:induction false} FixedOrder(m: nat, n: nat, w: nat, b: nat)
    requires b > 0 && m < Pow(b, w) && n < Pow(b, w)
    ensures Less(Fixed(m, w, b), Fixed(n, w, b)) <==> m < n
    decreases w
  {
    if w > 0 {
      var p, q, r, s := LastDigits(m, n, w, b);
      FixedOrder(p, q, w - 1, b);
      FixedInjective(p, q, w - 1, b);
      OrderStep(Fixed(p, w - 1, b), Fixed(q, w - 1, b), p, q, r, s);
    }
  }

  /** One more digit on the right decides only between equals. */
  lemma OrderStep(xs: seq<nat>, ys: seq<nat>, p: nat, q: nat, r: nat, s: nat)
    requires |xs| == |ys|
    requires Less(xs, ys) <==> p < q
    requires xs == ys <==> p == q
    ensures Less(xs + [r], ys + [s]) <==> p < q || (p == q && r < s)
  {
    LessSplit(xs, [r], ys, [s]);
  }

  /** Splits the last digit off two numbers, and their comparison with it. */
  lemma LastDigits(m: nat, n: nat, w: nat, b: nat) returns (p: nat, q: nat, r: nat, s: nat)
    requires b > 0 && w > 0 && m < Pow(b, w) && n < Pow(b, w)
    ensures p < Pow(b, w - 1) && q < Pow(b, w - 1)
    ensures Fixed(m, w, b) == Fixed(p, w - 1, b) + [r] && Fixed(n, w, b) == Fixed(q, w - 1, b) + [s]
    ensures m < n <==> p < q || (p == q && r < s)
  {
    Quotient(m, b);
    Quotient(n, b);
    DivBelow(m, b, Pow(b, w - 1));
    DivBelow(n, b, Pow(b, w - 1));
    DivOrder(m, n, b);
    p, q, r, s := m / b, n / b, m % b, n % b;
  }

  lemma {:induction false} ValueOfDigits(n: nat, b: nat)
    requires b > 1
    ensures Value(Digits(n, b), b) == n
  {
    if n > 0 {
      Quotient(n, b);
      ValueOfDigits(n / b, b);
    }
  }

  /** Minimal notation never starts with a zero digit. */
  lemma {:induction false} DigitsLead(n: nat, b: nat)
    requires b > 1
    ensures n > 0 ==> Digits(n, b) != [] && Digits(n, b)[0] != 0
  {
    if n > 0 {
      Quotient(n, b);
      DigitsLead(n / b, b);
    }
  }

  lemma {:induction false} DigitsOfValue(ds: seq<nat>, b: nat)
    requires b > 1 && AreDigits(ds, b) && (ds == [] || ds[0] != 0)
    ensures Digits(Value(ds, b), b) == ds
  {
    if ds != [] {
      var front, last := ds[..|ds| - 1], ds[|ds| - 1];
      DigitsOfValue(front, b);
      DivRem(Value(front, b), last, b);
      assert ds == front + [last];
      if front != [] {
        LeadPositive(front, b);
        assert Value(front, b) * b >= 0;
      }
    }
  }

  lemma {:induction false} LeadPositive(ds: seq<nat>, b: nat)
    requires b > 1 && ds != [] && ds[0] != 0
    ensures Value(ds, b) > 0
  {
    if |ds| > 1 {
      LeadPositive(ds[..|ds| - 1], b);
      MulStep(0, Value(ds[..|ds| - 1], b), b);
    }
  }

  function Zeros(n: nat): (zs: seq<nat>)
    ensures |zs| == n && forall i :: 0 <= i < n ==> zs[i] == 0
  {
    seq(n, _ => 0)
  }

  lemma {:induction false} ValueZeros(n: nat, b: nat)
    ensures Value(Zeros(n), b) == 0
  {
    if n > 0 {
      assert Zeros(n)[..n - 1] == Zeros(n - 1);
      ValueZeros(n - 1, b);
    }
  }

  lemma {:induction false} ValueConcat(xs: seq<nat>, ys: seq<nat>, b: nat)
    ensures Value(xs + ys, b) == Value(xs, b) * Pow(b, |ys|) + Value(ys, b)
  {
    if ys == [] {
      assert xs + ys == xs;
    } else {
      var front := ys[..|ys| - 1];
      assert (xs + ys)[..|xs + ys| - 1] == xs + front;
      ValueConcat(xs, front, b);
      Associates(Value(xs, b), Pow(b, |front|), b);
      Distribute(Value(xs, b) * Pow(b, |front|), Value(front, b), b);
    }
  }

  lemma Distribute(x: int, y: int, b: int)
    ensures (x + y) * b == x * b + y * b
  {
  }

  /** Splitting a number at a power of the base splits its digits. */
  lemma DigitsSplit(q: nat, r: nat, k: nat, b: nat)
    requires b > 1 && q > 0 && r < Pow(b, k)
    ensures Digits(q * Pow(b, k) + r, b) == Digits(q, b) + Fixed(r, k, b)
  {
    var ds := Digits(q, b) + Fixed(r, k, b);
    assert forall i :: 0 <= i < |ds| ==> ds[i] < b;
    ValueConcat(Digits(q, b), Fixed(r, k, b), b);
    ValueOfDigits(q, b);
    ValueOfFixed(r, k, b);
    DigitsLead(q, b);
    DigitsOfValue(ds, b);
  }

  /** How many zero digits a sequence starts with. */
  function LeadingZeros(ds: seq<nat>): (n: nat)
    ensures n <= |ds| && ds[..n] == Zeros(n)
    ensures n < |ds| ==> ds[n] != 0
  {
    if ds == [] || ds[0] != 0 then 0
    else
      var m := LeadingZeros(ds[1..]);
      assert ds[..m + 1] == [0] + ds[1..][..m];
      m + 1
  }

  lemma {:induction false} PowMonotone(b: nat, e: nat, f: nat)
    requires b > 0 && e <= f
    ensures Pow(b, e) <= Pow(b, f)
  {
    PowPositive(b, e);
    PowPositive(b, f - e);
    PowAdd(b, e, f - e);
    MulMonotone(1, Pow(b, f - e), Pow(b, e));
  }

  /** `String(n).padStart(w, '0')` is the fixed-width notation as long as the number fits. */
  lemma {:induction false} DigitsPadded(n: nat, w: nat, b: nat)
    requires b > 1 && n < Pow(b, w)
    ensures |Digits(n, b)| <= w
    ensures Zeros(w - |Digits(n, b)|) + Digits(n, b) == Fixed(n, w, b)
    decreases w
  {
    Quotient(n, b);
    if n == 0 {
      FixedZero(w, b);
      assert Zeros(w) + [] == Zeros(w);
    } else {
      DivBelow(n, b, Pow(b, w - 1));
      DigitsPadded(n / b, w - 1, b);
      assert Zeros(w - |Digits(n, b)|) + Digits(n, b)
          == (Zeros(w - |Digits(n, b)|) + Digits(n / b, b)) + [n % b];
    }
  }

  lemma {:induction false} FixedZero(w: nat, b: nat)
    requires b > 1
    ensures Fixed(0, w, b) == Zeros(w)
  {
    if w > 0 {
      FixedZero(w - 1, b);
      DivRem(0, 0, b);
      assert Zeros(w - 1) + [0] == Zeros(w);
    }
  }

  lemma DigitsTooMany(n: nat, w: nat, b: nat)
    requires b > 1 && n >= Pow(b, w)
    ensures |Digits(n, b)| > w
  {
    ValueOfDigits(n, b);
    ValueBelow(Digits(n, b), b);
    if |Digits(n, b)| <= w {
      PowMonotone(b, |Digits(n, b)|, w);
    }
  }

  /** Digits written with the characters of an alphabet. */
  function Spell(ds: seq<nat>, alphabet: Text): (t: Text)
    requires forall i :: 0 <= i < |ds| ==> ds[i] < |alphabet|
    ensures |t| == |ds| && forall i :: 0 <= i < |ds| ==> t[i] == alphabet[ds[i]]
  {
    seq(|ds|, i requires 0 <= i < |ds| => alphabet[ds[i]])
  }

  ghost predicate Increasing(alphabet: Text) {
    forall i, j :: 0 <= i < j < |alphabet| ==> alphabet[i] < alphabet[j]
  }

  lemma SpellInjective(xs: seq<nat>, ys: seq<nat>, alphabet: Text)
    requires Increasing(alphabet)
    requires forall i :: 0 <= i < |xs| ==> xs[i] < |alphabet|
    requires forall i :: 0 <= i < |ys| ==> ys[i] < |alphabet|
    requires Spell(xs, alphabet) == Spell(ys, alphabet)
    ensures xs == ys
  {
    assert |xs| == |ys|;
    forall i | 0 <= i < |xs|
      ensures xs[i] == ys[i]
    {
      assert Spell(xs, alphabet)[i] == Spell(ys, alphabet)[i];
    }
  }

  /** Spelling with an increasing alphabet keeps the order. */
  lemma {:induction false} SpellOrder(xs: seq<nat>, ys: seq<nat>, alphabet: Text)
    requires Increasing(alphabet)
    requires forall i :: 0 <= i < |xs| ==> xs[i] < |alphabet|
    requires forall i :: 0 <= i < |ys| ==> ys[i] < |alphabet|
    ensures Less(Spell(xs, alphabet), Spell(ys, alphabet)) <==> Less(xs, ys)
  {
    if xs != [] && ys != [] {
      assert Spell(xs, alphabet)[1..] == Spell(xs[1..], alphabet);
      assert Spell(ys, alphabet)[1..] == Spell(ys[1..], alphabet);
      SpellOrder(xs[1..], ys[1..], alphabet);
    }
  }
}
