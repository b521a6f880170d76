/** Polynomials over GF(2), and division by the CRC-32 generator.

    A polynomial is the sequence of its coefficients, the highest power first. */
module Gf2 {

  type Poly = seq<bool>

  /** The powers of the CRC-32 generator (section 3.2.9 of IEEE 802.3-2018). */
  const EXPONENTS := {32, 26, 23, 22, 16, 12, 11, 10, 8, 7, 5, 4, 2, 1, 0}

  /** The generator itself, degree 32. */
  function Generator(): (g: Poly)
    ensures |g| == 33 && g[0]
  {
    seq(33, i requires 0 <= i < 33 => (32 - i) in EXPONENTS)
  }

  function Zeros(n: nat): (p: Poly)
    ensures |p| == n
  {
    seq(n, _ => false)
  }

  function Add(p: Poly, q: Poly): (s: Poly)
    requires |p| == |q|
    ensures |s| == |p|
    ensures forall i :: 0 <= i < |p| ==> s[i] == (p[i] != q[i])
  {
    seq(|p|, i requires 0 <= i < |p| => p[i] != q[i])
  }

  /** The product of `q` and the generator. */
  function Times(q: Poly): (p: Poly)
    ensures |p| == |q| + 32
  {
    if q == [] then Zeros(32)
    else Add((if q[0] then Generator() else Zeros(33)) + Zeros(|q| - 1), [false] + Times(q[1..]))
  }

  /** `p = q * G + r`, with `r` of degree below 32. */
  ghost predicate IsDivision(p: Poly, q: Poly, r: Poly) {
    |r| == 32 && |p| == |q| + 32 && p == Add(Times(q), Zeros(|q|) + r)
  }

  ghost predicate IsRemainder(p: Poly, r: Poly) {
    exists q :: IsDivision(p, q, r)
  }

  lemma DivisionTail(p: Poly, q: Poly, r: Poly)
    requires IsDivision(p, q, r) && q != []
    ensures p[0] == q[0]
    ensures IsDivision(Add(p, (if q[0] then Generator() else Zeros(33)) + Zeros(|q| - 1))[1..], q[1..], r)
  {
    var lead := (if q[0] then Generator() else Zeros(33)) + Zeros(|q| - 1);
    var tail := Add(p, lead)[1..];
    forall i | 0 <= i < |tail| ensures tail[i] == Add(Times(q[1..]), Zeros(|q| - 1) + r)[i] {
      assert Times(q)[i + 1] == (lead[i + 1] != Times(q[1..])[i]);
    }
  }

  /** Division by the generator has one answer. */
  lemma {:induction false} DivisionUnique(p: Poly, q: Poly, r: Poly, q': Poly, r': Poly)
    requires IsDivision(p, q, r) && IsDivision(p, q', r')
    ensures q == q' && r == r'
    decreases |q|
  {
    if q == [] {
      assert Zeros(0) + r == r && Zeros(0) + r' == r';
      forall i | 0 <= i < 32 ensures r[i] == r'[i] {
        assert p[i] == (Zeros(32)[i] != r[i]) && p[i] == (Zeros(32)[i] != r'[i]);
      }
    } else {
      DivisionTail(p, q, r);
      DivisionTail(p, q', r');
      DivisionUnique(Add(p, (if q[0] then Generator() else Zeros(33)) + Zeros(|q| - 1))[1..], q[1..], r, q'[1..], r');
    }
  }
}
