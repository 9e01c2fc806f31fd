/** Big-endian positional numerals of a fixed width in any base.

    Every number format of the callback tokens is an instance: 16-, 32- and 48-bit
    fields (base 256), ULID text (base 32), base64url groups (base 64) and decimal
    text (base 10). */
module Positional {

  type Base = b: nat | 2 <= b witness 2

  type Byte = b: nat | b < 256

  function Pow(b: Base, k: nat): (p: nat)
    ensures 1 <= p
  {
    if k == 0 then 1 else PowStep(b, Pow(b, k - 1)); b * Pow(b, k - 1)
  }

  lemma PowStep(b: Base, p: nat)
    requires 1 <= p
    ensures 1 <= b * p
  {
  }

  lemma PowNext(b: Base, k: nat)
    ensures Pow(b, k + 1) == b * Pow(b, k)
  {
  }

  lemma MulAssociates(x: nat, y: nat, z: nat)
    ensures x * (y * z) == (x * y) * z
  {
  }

  lemma {:induction false} PowAdd(b: Base, i: nat, j: nat)
    ensures Pow(b, i + j) == Pow(b, i) * Pow(b, j)
  {
    if i == 0 {
      assert Pow(b, 0) == 1;
    } else {
      hide Pow;
      PowAdd(b, i - 1, j);
      PowNext(b, i - 1 + j);
      PowNext(b, i - 1);
      MulAssociates(b, Pow(b, i - 1), Pow(b, j));
    }
  }

  predicate IsNumeral(ds: seq<nat>, b: Base) {
    forall i | 0 <= i < |ds| :: ds[i] < b
  }

  /** The number a numeral denotes, most significant digit first. */
  function Value(ds: seq<nat>, b: Base): nat {
    if ds == [] then 0 else Value(ds[..|ds| - 1], b) * b + ds[|ds| - 1]
  }

  lemma ValueOfOne(d: nat, b: Base)
    ensures Value([d], b) == d
  {
    assert [d][..0] == [];
  }

  /** The `width` low-order digits of `n`. */
  function Digits(n: nat, b: Base, width: nat): (ds: seq<nat>)
    ensures |ds| == width && IsNumeral(ds, b)
  {
    if width == 0 then [] else Digits(n / b, b, width - 1) + [n % b]
  }

  /** Lexicographic order on numerals of one width. */
  ghost predicate LexLess(xs: seq<nat>, ys: seq<nat>)
    requires |xs| == |ys|
  {
    exists k :: 0 <= k < |xs| && xs[..k] == ys[..k] && xs[k] < ys[k]
  }

  lemma MulMonotone(x: nat, y: nat, b: nat)
    requires x <= y
    ensures x * b <= y * b
  {
  }

  lemma AppendBelow(v: nat, d: nat, b: Base, p: nat)
    requires v < p && d < b
    ensures v * b + d < b * p
  {
    MulMonotone(v + 1, p, b);
    assert (v + 1) * b == v * b + b;
  }

  lemma QuotientIsUnique(q: nat, r: nat, v: nat, d: nat, b: Base)
    requires q * b + r == v * b + d && r < b && d < b
    ensures q == v && r == d
  {
    if q < v {
      MulMonotone(q + 1, v, b);
    } else if v < q {
      MulMonotone(v + 1, q, b);
    }
  }

  lemma DivideAppended(v: nat, d: nat, b: Base)
    requires d < b
    ensures (v * b + d) / b == v && (v * b + d) % b == d
  {
    var n := v * b + d;
    QuotientIsUnique(n / b, n % b, v, d, b);
  }

  lemma DivideBelow(n: nat, b: Base, p: nat)
    requires n < b * p
    ensures n / b < p && (n / b) * b + n % b == n
  {
    if p <= n / b { MulMonotone(p, n / b, b); }
  }

  lemma {:induction false} ValueBound(ds: seq<nat>, b: Base)
    requires IsNumeral(ds, b)
    ensures Value(ds, b) < Pow(b, |ds|)
  {
    if ds != [] {
      var init := ds[..|ds| - 1];
      ValueBound(init, b);
      AppendBelow(Value(init, b), ds[|ds| - 1], b, Pow(b, |init|));
    }
  }

  lemma ValueAppend(ds: seq<nat>, d: nat, b: Base)
    ensures Value(ds + [d], b) == Value(ds, b) * b + d
  {
    assert (ds + [d])[..|ds|] == ds;
  }

  /** The last digit and the rest of a number that fits. */
  lemma TakeDigit(n: nat, b: Base, width: nat) returns (q: nat, r: nat)
    requires width > 0 && n < Pow(b, width)
    ensures q < Pow(b, width - 1) && r < b && n == q * b + r
    ensures Digits(n, b, width) == Digits(q, b, width - 1) + [r]
  {
    PowNext(b, width - 1);
    q, r := n / b, n % b;
    assert Digits(n, b, width) == Digits(q, b, width - 1) + [r];
    hide Pow, Digits;
    DivideBelow(n, b, Pow(b, width - 1));
  }

  lemma {:induction false} ValueOfDigits(n: nat, b: Base, width: nat)
    requires n < Pow(b, width)
    ensures Value(Digits(n, b, width), b) == n
  {
    hide *;
    if width == 0 {
      NoDigits(n, b);
    } else {
      var q, r := TakeDigit(n, b, width);
      ValueOfDigits(q, b, width - 1);
      ValueAppend(Digits(q, b, width - 1), r, b);
    }
  }

  lemma NoDigits(n: nat, b: Base)
    requires n < Pow(b, 0)
    ensures Value(Digits(n, b, 0), b) == n
  {
  }

  lemma {:induction false} DigitsOfValue(ds: seq<nat>, b: Base)
    requires IsNumeral(ds, b)
    ensures Digits(Value(ds, b), b, |ds|) == ds
  {
    if ds != [] {
      var init := ds[..|ds| - 1];
      DigitsOfValue(init, b);
      DivideAppended(Value(init, b), ds[|ds| - 1], b);
    }
  }

  lemma AppendOrder(v: nat, w: nat, d: nat, e: nat, b: Base)
    requires d < b && e < b
    ensures v * b + d < w * b + e <==> v < w || (v == w && d < e)
  {
    if v < w {
      MulMonotone(v + 1, w, b);
    } else if w < v {
      MulMonotone(w + 1, v, b);
    }
  }

  lemma LexLessAppend(xs: seq<nat>, ys: seq<nat>)
    requires |xs| == |ys| > 0
    ensures var last := |xs| - 1;
            LexLess(xs, ys) <==> LexLess(xs[..last], ys[..last]) || (xs[..last] == ys[..last] && xs[last] < ys[last])
  {
    var last := |xs| - 1;
    var px, py := xs[..last], ys[..last];
    if LexLess(xs, ys) {
      var k :| 0 <= k < |xs| && xs[..k] == ys[..k] && xs[k] < ys[k];
      if k < last {
        assert px[..k] == xs[..k] && py[..k] == ys[..k];
        assert LexLess(px, py);
      }
    }
    if LexLess(px, py) {
      var k :| 0 <= k < last && px[..k] == py[..k] && px[k] < py[k];
      assert xs[..k] == px[..k] && ys[..k] == py[..k];
      assert LexLess(xs, ys);
    }
  }

  /** Lexicographic order of numerals is the order of the numbers. */
  lemma {:induction false} ValueOrder(xs: seq<nat>, ys: seq<nat>, b: Base)
    requires |xs| == |ys| && IsNumeral(xs, b) && IsNumeral(ys, b)
    ensures LexLess(xs, ys) <==> Value(xs, b) < Value(ys, b)
  {
    if xs != [] {
      var last := |xs| - 1;
      ValueOrder(xs[..last], ys[..last], b);
      LexLessAppend(xs, ys);
      AppendOrder(Value(xs[..last], b), Value(ys[..last], b), xs[last], ys[last], b);
      if Value(xs[..last], b) == Value(ys[..last], b) {
        DigitsOfValue(xs[..last], b);
        DigitsOfValue(ys[..last], b);
      }
    }
  }

  lemma Distribute(d: nat, p: nat, v: nat, b: nat)
    ensures (d * p + v) * b == d * (b * p) + v * b
  {
    assert (d * p) * b == d * (b * p);
  }

  lemma {:induction false} ValuePrepend(d: nat, ds: seq<nat>, b: Base)
    ensures Value([d] + ds, b) == d * Pow(b, |ds|) + Value(ds, b)
  {
    var all := [d] + ds;
    if ds == [] {
      assert all[..0] == [];
    } else {
      var init := ds[..|ds| - 1];
      ValuePrepend(d, init, b);
      assert all[..|all| - 1] == [d] + init;
      Distribute(d, Pow(b, |init|), Value(init, b), b);
    }
  }
}
