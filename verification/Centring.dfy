/** Integer arithmetic of the per-bit centring, with the truncating division of C. */
module Centring {

  /** C division by a positive divisor: truncates towards zero. */
  function CDiv(a: int, b: int): int
    requires b > 0
  {
    if a >= 0 then a / b else -((-a) / b)
  }

  /** The sweep position of the bit with the smallest window offset: half the offset, where a
    * positive offset is incremented before it is halved.
    */
  function HalfOffset(lo: int): (h: int)
  {
    CDiv(if lo > 0 then lo + 1 else lo, 2)
  }

  /** The position on the sweep axis aimed at for a bit with edges `l` and `r`. */
  function Aim(l: int, r: int, lo: int): int {
    CDiv(l - r - lo, 2) + HalfOffset(lo)
  }

  /** The amount DQS moves is chosen from the smallest offset only, within its chain. */
  function ClampInto(x: int, max: nat): (r: nat)
    ensures r <= max
    ensures 0 <= x <= max ==> r == x
  {
    if x > max then max else if x < 0 then 0 else x
  }

  ghost predicate SmallestOffset(left: seq<int>, right: seq<int>, lo: int)
    requires |left| == |right|
  {
    && (exists i :: 0 <= i < |left| && left[i] - right[i] == lo)
    && forall i :: 0 <= i < |left| ==> lo <= left[i] - right[i]
  }

  /** Aiming leaves the two margins of a bit equal or one tap apart, whatever the sign and parity
    * of the smallest offset, and never eats into a window of nonnegative width.
    */
  lemma AimCentres(l: int, r: int, lo: int)
    requires lo <= l - r
    ensures -1 <= (l - Aim(l, r, lo)) - (r + Aim(l, r, lo)) <= 1
    ensures l + r >= 0 ==> l - Aim(l, r, lo) >= 0 && r + Aim(l, r, lo) >= 0
  {
    assert 0 <= 2 * HalfOffset(lo) - lo <= 1;
    var a := l - r - lo;
    assert 0 <= a - 2 * CDiv(a, 2) <= 1;
  }

  function Min(a: int, b: int): int {
    if a < b then a else b
  }

  /** The smaller of the two margins of a bit placed at `x`. */
  function MinMargin(l: int, r: int, x: int): int {
    Min(l - x, r + x)
  }

  /** No other position has a larger smaller margin: it falls off on both sides of the aim. */
  lemma AimIsBest(l: int, r: int, lo: int, x: int)
    requires lo <= l - r
    ensures MinMargin(l, r, x) <= MinMargin(l, r, Aim(l, r, lo))
    ensures x < Aim(l, r, lo) ==> MinMargin(l, r, x) == r + x
    ensures x > Aim(l, r, lo) ==> MinMargin(l, r, x) == l - x
  {
    AimCentres(l, r, lo);
  }
}
