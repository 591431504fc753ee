/**
 The field with 32 elements and polynomials over it, as BIP 173 defines them: elements are polynomials in
 alpha of degree below 5 with alpha^5 = alpha^3 + 1, written as five bits with that of alpha^4 first.
 */
module Galois {
  import opened BitStrings

  type Element = b: Bits | |b| == 5 witness Zeros(5)

  function TimesAlpha(a: Element): Element {
    [a[1], a[2] != a[0], a[3], a[4], a[0]]
  }

  /** The product of two elements, from the bits of the second. */
  function Times(a: Element, b: Bits): Element {
    if |b| == 0 then Zeros(5)
    else Xor(TimesAlpha(Times(a, b[..|b| - 1])), if b[|b| - 1] then a else Zeros(5))
  }

  /** The coefficients, that of the highest power first. */
  type Poly = seq<Element>

  type Multiplication = (Element, Element) -> Element

  function Multiply(a: Element, b: Element): Element {
    Times(a, b)
  }

  function Scaled(mul: Multiplication, c: Element, p: Poly): (r: Poly)
    ensures |r| == |p|
    ensures forall i :: 0 <= i < |p| ==> r[i] == mul(p[i], c)
  {
    seq(|p|, i requires 0 <= i < |p| => mul(p[i], c))
  }

  /** The sum, for a second polynomial that is not longer. */
  function Plus(p: Poly, q: Poly): (r: Poly)
    requires |q| <= |p|
    ensures |r| == |p|
    ensures forall i :: 0 <= i < |p| ==> r[i] == if i < |p| - |q| then p[i] else Xor(p[i], q[i - (|p| - |q|)])
  {
    seq(|p|, i requires 0 <= i < |p| => if i < |p| - |q| then p[i] else Xor(p[i], q[i - (|p| - |q|)]))
  }

  function Nil(n: nat): (r: Poly)
    ensures |r| == n && forall i :: 0 <= i < n ==> r[i] == Zeros(5)
  {
    seq(n, _ => Zeros(5))
  }

  /** The product, with room for one power less than the length of each. */
  function Product(mul: Multiplication, q: Poly, g: Poly): (r: Poly)
    requires |g| > 0
    ensures |r| == |q| + |g| - 1
  {
    if |q| == 0 then Nil(|g| - 1)
    else Plus(Product(mul, q[..|q| - 1], g) + [Zeros(5)], Scaled(mul, q[|q| - 1], g))
  }
}
