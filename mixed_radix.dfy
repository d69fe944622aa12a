// Mixed-radix numbering: a list of digits, each below its radix, is one
// number below the product of the radices; the first digit varies fastest.
// Both the plane index of a dimension order and the element offset of a
// storage order are instances of it.
module MixedRadix {

  function Product(r: seq<nat>): nat
  {
    if |r| == 0 then 1 else r[0] * Product(r[1..])
  }

  predicate AllPositive(r: seq<nat>)
  {
    forall i :: 0 <= i < |r| ==> r[i] > 0
  }

  predicate InRange(d: seq<nat>, r: seq<nat>)
  {
    |d| == |r| && forall i :: 0 <= i < |d| ==> d[i] < r[i]
  }

  function Encode(d: seq<nat>, r: seq<nat>): nat
    requires |d| == |r|
  {
    if |d| == 0 then 0 else d[0] + r[0] * Encode(d[1..], r[1..])
  }

  function Decode(k: nat, r: seq<nat>): (d: seq<nat>)
    requires AllPositive(r)
    ensures |d| == |r|
    decreases |r|
  {
    if |r| == 0 then [] else [k % r[0]] + Decode(k / r[0], r[1..])
  }

  lemma {:induction false} ProductPositive(r: seq<nat>)
    requires AllPositive(r)
    ensures Product(r) > 0
  {
    if |r| > 0 {
      ProductPositive(r[1..]);
    }
  }

  /** A positive product means every radix is positive. */
  lemma {:induction false} PositiveProductRadices(r: seq<nat>)
    requires Product(r) > 0
    ensures AllPositive(r)
  {
    if |r| > 0 {
      PositiveProductRadices(r[1..]);
      assert r[0] != 0;
      forall i | 0 <= i < |r| ensures r[i] > 0 {
        if i > 0 { assert r[i] == r[1..][i - 1]; }
      }
    }
  }

  /** Raising digit j by one raises the number by the product of the radices before it. */
  lemma {:induction false} EncodeStep(d: seq<nat>, r: seq<nat>, j: nat)
    requires |d| == |r| && j < |d|
    ensures Encode(d[j := d[j] + 1], r) == Encode(d, r) + Product(r[..j])
    decreases j
  {
    var d' := d[j := d[j] + 1];
    if j == 0 {
      assert d'[1..] == d[1..];
      assert r[..0] == [];
    } else {
      assert d'[1..] == d[1..][j - 1 := d[1..][j - 1] + 1];
      EncodeStep(d[1..], r[1..], j - 1);
      assert r[..j][1..] == r[1..][..j - 1];
      var e, p := Encode(d[1..], r[1..]), Product(r[1..][..j - 1]);
      assert Encode(d', r) == d[0] + r[0] * (e + p);
      assert r[0] * (e + p) == r[0] * e + r[0] * p;
      assert Product(r[..j]) == r[0] * p;
    }
  }

  /** Digits in range encode to a number below the product of the radices. */
  lemma {:induction false} EncodeBound(d: seq<nat>, r: seq<nat>)
    requires InRange(d, r)
    ensures Encode(d, r) < Product(r)
  {
    if |d| > 0 {
      assert InRange(d[1..], r[1..]) by {
        forall i | 0 <= i < |d| - 1 ensures d[1..][i] < r[1..][i] {
          assert d[1..][i] == d[i + 1];
        }
      }
      EncodeBound(d[1..], r[1..]);
      var e, p := Encode(d[1..], r[1..]), Product(r[1..]);
      MulMonotone(r[0], e + 1, p);
      MulSub(r[0], e + 1, 1);
      assert Encode(d, r) == d[0] + r[0] * e;
      assert Product(r) == r[0] * p;
    }
  }

  /** Decoding an encoded digit list gives the digits back. */
  lemma {:induction false} DecodeEncode(d: seq<nat>, r: seq<nat>)
    requires InRange(d, r)
    ensures AllPositive(r)
    ensures Decode(Encode(d, r), r) == d
  {
    if |d| > 0 {
      assert InRange(d[1..], r[1..]) by {
        forall i | 0 <= i < |d| - 1 ensures d[1..][i] < r[1..][i] {
          assert d[1..][i] == d[i + 1];
        }
      }
      DecodeEncode(d[1..], r[1..]);
      var e := Encode(d[1..], r[1..]);
      var k := d[0] + r[0] * e;
      assert r[0] > 0 by { assert d[0] < r[0]; }
      assert AllPositive(r) by {
        forall i | 0 <= i < |r| ensures r[i] > 0 {
          if i > 0 { assert r[i] == r[1..][i - 1]; } else { assert d[0] < r[0]; }
        }
      }
      DivModDigit(d[0], r[0], e);
      assert Decode(k, r) == [d[0]] + Decode(e, r[1..]);
      assert d == [d[0]] + d[1..];
    }
  }

  lemma {:induction false} DivModDigit(a: nat, b: nat, e: nat)
    requires a < b
    ensures (a + b * e) % b == a && (a + b * e) / b == e
  {
    var n := a + b * e;
    var q := n / b;
    var m := n % b;
    assert n == b * q + m && 0 <= m < b;
    assert b * (q - e) == a - m by { MulSub(b, q, e); }
    if q > e {
      MulAtLeast(b, q - e);
      assert false;
    } else if q < e {
      MulAtLeast(b, e - q);
      MulSub(b, e, q);
      assert false;
    }
  }

  lemma MulSub(b: int, x: int, y: int)
    ensures b * (x - y) == b * x - b * y
  {
  }

  lemma MulAtLeast(b: nat, x: int)
    requires x >= 1
    ensures b * x >= b
  {
    var y := x - 1;
    assert b * x == b + b * y by { MulSub(b, x, 1); }
    assert b * y >= 0;
  }

  lemma MulMonotone(b: nat, x: nat, y: nat)
    requires x <= y
    ensures b * x <= b * y
  {
    assert b * y == b * x + b * (y - x) by { MulSub(b, y, x); }
    assert b * (y - x) >= 0;
  }

  lemma DivModNat(k: nat, b: nat)
    requires b > 0
    ensures 0 <= k / b && 0 <= k % b < b && k == b * (k / b) + k % b
  {
  }

  /** Every number below the product decodes to in-range digits that encode back to it. */
  lemma {:induction false} EncodeDecode(k: nat, r: seq<nat>)
    requires k < Product(r)
    ensures AllPositive(r)
    ensures InRange(Decode(k, r), r)
    ensures Encode(Decode(k, r), r) == k
    decreases |r|
  {
    PositiveProductRadices(r);
    if |r| > 0 {
      var b := r[0];
      DivModNat(k, b);
      var q: nat := k / b;
      var m: nat := k % b;
      var p := Product(r[1..]);
      assert Product(r) == b * p;
      assert q < p by {
        if q >= p {
          MulMonotone(b, p, q);
          assert false;
        }
      }
      EncodeDecode(q, r[1..]);
      var d := Decode(k, r);
      assert d == [m] + Decode(q, r[1..]);
      assert d[1..] == Decode(q, r[1..]);
      forall i | 0 <= i < |d| ensures d[i] < r[i] {
        if i > 0 { assert d[i] == d[1..][i - 1]; }
      }
      assert Encode(d, r) == m + b * Encode(d[1..], r[1..]);
    } else {
      assert k == 0;
    }
  }
}
