/** How one read or write test folds the error words of all ranks and virtual groups into a mask
  * of passing bits.
  */
module PassMasks {

  /** A 32-bit register as its bits, bit 0 first. */
  type Bits = s: seq<bool> | |s| == 32 witness seq(32, _ => false)

  function LowBits(n: nat): (z: Bits)
    ensures forall b :: 0 <= b < 32 ==> (z[b] <==> b < n)
  {
    seq(32, b => b < n)
  }

  function And(x: Bits, y: Bits): (z: Bits)
    ensures forall b :: 0 <= b < 32 ==> (z[b] <==> x[b] && y[b])
  {
    seq(32, b requires 0 <= b < 32 => x[b] && y[b])
  }

  function Or(x: Bits, y: Bits): (z: Bits)
    ensures forall b :: 0 <= b < 32 ==> (z[b] <==> x[b] || y[b])
  {
    seq(32, b requires 0 <= b < 32 => x[b] || y[b])
  }

  function Not(x: Bits): (z: Bits)
    ensures forall b :: 0 <= b < 32 ==> (z[b] <==> !x[b])
  {
    seq(32, b requires 0 <= b < 32 => !x[b])
  }

  function ShiftLeft(x: Bits, n: nat): (z: Bits)
    ensures forall b :: 0 <= b < 32 ==> (z[b] <==> b >= n && x[b - n])
  {
    seq(32, b requires 0 <= b < 32 => b >= n && x[b - n])
  }

  /** The error words of one rank, by virtual group. */
  type Words = nat -> Bits

  /** How the groups are laid out: `vgs` groups of `width` bits, each read through a mask of
    * `seen` bits.
    */
  datatype Layout = Layout(vgs: nat, width: nat, seen: nat)

  /** Group `q` reports bit `b` clean, in a mask whose bit 0 belongs to group `base`. */
  predicate Clean(e: Words, l: Layout, q: nat, base: nat, b: nat) {
    q >= base && b < 32 &&
    var off := (q - base) * l.width;
    off <= b < off + l.seen && b - off < 32 && !e(q)[b - off]
  }

  ghost predicate SomeClean(e: Words, l: Layout, base: nat, b: nat) {
    exists q: nat :: q < l.vgs && Clean(e, l, q, base, b)
  }

  lemma ShiftsByGroup(e: Words, l: Layout, q: nat, base: nat, b: nat)
    requires q > base && b < 32
    ensures Clean(e, l, q, base, b) <==> b >= l.width && Clean(e, l, q, base + 1, b - l.width)
  {
    var w, d: nat := l.width, q - base - 1;
    assert (d + 1) * w == d * w + w && d * w >= 0;
  }

  lemma OneMoreGroup(e: Words, l: Layout, base: nat, b: nat)
    requires b < 32 && base < l.vgs
    ensures SomeClean(e, l, base, b) <==>
            (b >= l.width && SomeClean(e, l, base + 1, b - l.width)) || (b < l.seen && !e(base)[b])
  {
    assert Clean(e, l, base, base, b) <==> b < l.seen && !e(base)[b];
    if SomeClean(e, l, base, b) {
      var q: nat :| q < l.vgs && Clean(e, l, q, base, b);
      if q > base {
        ShiftsByGroup(e, l, q, base, b);
      }
    }
    if b >= l.width && SomeClean(e, l, base + 1, b - l.width) {
      var q: nat :| q < l.vgs && Clean(e, l, q, base + 1, b - l.width);
      ShiftsByGroup(e, l, q, base, b);
    }
  }

  /** One rank: shift the mask up by a group and enter the clean bits of the next group below. */
  method RankMask(e: Words, l: Layout) returns (tmp: Bits)
    requires l.vgs > 0
    ensures forall b: nat :: b < 32 ==> (tmp[b] <==> SomeClean(e, l, 0, b))
  {
    tmp := LowBits(0);
    var vg := l.vgs - 1;
    while true
      invariant 0 <= vg < l.vgs
      invariant forall b: nat :: b < 32 ==> (tmp[b] <==> SomeClean(e, l, vg + 1, b))
      decreases vg
    {
      ghost var was := tmp;
      tmp := ShiftLeft(tmp, l.width);
      tmp := Or(tmp, And(LowBits(l.seen), Not(e(vg))));
      forall b: nat | b < 32
        ensures tmp[b] <==> SomeClean(e, l, vg, b)
      {
        OneMoreGroup(e, l, vg, b);
      }
      if vg == 0 {
        break;
      }
      vg := vg - 1;
    }
  }

  /** Error words by rank. */
  type Ranks = nat -> Words

  ghost predicate RanksPass(err: Ranks, skip: nat -> bool, from: nat, to: nat, l: Layout, b: nat) {
    forall r: nat :: from <= r < to && !skip(r) ==> SomeClean(err(r), l, 0, b)
  }

  /** The mask-assembling part of rw_mgr_mem_calibrate_read_test and _write_test; `bits` is the
    * number of bits of the group.
    */
  method Test(err: Ranks, skip: nat -> bool, from: nat, to: nat, l: Layout, bits: nat, allCorrect: bool)
    returns (bitChk: Bits, passed: bool)
    requires l.vgs > 0 && bits <= 32 && from <= to
    ensures forall b: nat :: b < 32 ==> (bitChk[b] <==> b < bits && RanksPass(err, skip, from, to, l, b))
    ensures allCorrect ==> (passed <==> forall b: nat :: b < bits ==> bitChk[b])
    ensures !allCorrect ==> (passed <==> exists b: nat :: b < bits && bitChk[b])
  {
    bitChk := LowBits(bits);
    for r := from to to
      invariant forall b: nat :: b < 32 ==> (bitChk[b] <==> b < bits && RanksPass(err, skip, from, r, l, b))
    {
      if skip(r) {
        continue;
      }
      var tmp := RankMask(err(r), l);
      bitChk := And(bitChk, tmp);
    }
    if allCorrect {
      passed := bitChk == LowBits(bits);
    } else {
      passed := bitChk != LowBits(0);
      if passed {
        var b :| 0 <= b < 32 && bitChk[b] != LowBits(0)[b];
      }
    }
  }

  // ------------------------------------------------------------------ what the mask means

  /** Bit `k` of group `vg` has one place in the mask. */
  function Place(l: Layout, vg: nat, k: nat): nat {
    vg * l.width + k
  }

  /** The rank's mask shows exactly the clean bits of its groups. */
  ghost predicate Exact(e: Words, l: Layout) {
    forall vg: nat, k: nat :: vg < l.vgs && k < l.width ==>
      (SomeClean(e, l, 0, Place(l, vg, k)) <==> !Bit(e, vg, k))
  }

  predicate Bit(e: Words, vg: nat, k: nat) {
    k < 32 && e(vg)[k]
  }

  lemma PlaceFits(l: Layout, vg: nat, k: nat)
    requires l.vgs * l.width <= 32 && vg < l.vgs && k < l.width
    ensures Place(l, vg, k) < 32 && k < 32
  {
    assert (vg + 1) * l.width <= l.vgs * l.width;
    assert vg * l.width >= 0;
  }

  lemma PlaceIsUnique(l: Layout, vg: nat, k: nat, q: nat)
    requires k < l.width && q != vg
    ensures Place(l, vg, k) < q * l.width || Place(l, vg, k) >= q * l.width + l.width
  {
    if q > vg {
      assert q * l.width >= (vg + 1) * l.width;
    } else {
      assert vg * l.width >= (q + 1) * l.width;
    }
  }

  lemma OwnGroup(e: Words, l: Layout, vg: nat, k: nat)
    requires l.vgs * l.width <= 32 && vg < l.vgs && k < l.width
    ensures Clean(e, l, vg, 0, Place(l, vg, k)) <==> k < l.seen && !Bit(e, vg, k)
  {
    PlaceFits(l, vg, k);
  }

  lemma GoodLayoutIsExact(e: Words, l: Layout)
    requires l.vgs * l.width <= 32
    requires l.seen == l.width || (l.vgs == 1 && l.seen >= l.width)
    ensures Exact(e, l)
  {
    forall vg: nat, k: nat | vg < l.vgs && k < l.width
      ensures SomeClean(e, l, 0, Place(l, vg, k)) <==> !Bit(e, vg, k)
    {
      OwnGroup(e, l, vg, k);
      if SomeClean(e, l, 0, Place(l, vg, k)) {
        var q: nat :| q < l.vgs && Clean(e, l, q, 0, Place(l, vg, k));
        if q != vg {
          PlaceIsUnique(l, vg, k, q);
        }
      }
    }
  }

  /** Too narrow a mask: the first bit it misses looks failed on a clean device. */
  lemma NarrowMaskHides(l: Layout)
    requires l.vgs > 0 && l.vgs * l.width <= 32 && l.seen < l.width
    ensures !Exact(_ => LowBits(0), l)
  {
    var e: Words := _ => LowBits(0);
    var b := Place(l, 0, l.seen);
    if SomeClean(e, l, 0, b) {
      var q: nat :| q < l.vgs && Clean(e, l, q, 0, b);
      if q > 0 {
        PlaceIsUnique(l, 0, l.seen, q);
      }
      assert false;
    }
  }

  /** Group 0 clean, every other group failing. */
  function OnlyFirstClean(vg: nat): Bits {
    if vg == 0 then LowBits(0) else LowBits(32)
  }

  /** Too wide a mask: a clean bit of group 0 covers up the first bit of group 1. */
  lemma WideMaskCoversUp(l: Layout)
    requires l.vgs > 1 && 0 < l.width && l.vgs * l.width <= 32 && l.seen > l.width
    ensures !Exact(OnlyFirstClean, l)
  {
    PlaceFits(l, 1, 0);
    assert Place(l, 1, 0) == l.width;
    assert Clean(OnlyFirstClean, l, 0, 0, l.width);
    assert Bit(OnlyFirstClean, 1, 0);
  }

  /** A layout assembles every rank's words correctly exactly if the mask is as wide as a group,
    * or there is only one group and the mask is at least that wide.
    */
  lemma ExactIff(l: Layout)
    requires l.vgs > 0 && l.width > 0 && l.vgs * l.width <= 32
    ensures (forall e: Words :: Exact(e, l)) <==> l.seen == l.width || (l.vgs == 1 && l.seen >= l.width)
  {
    if l.seen == l.width || (l.vgs == 1 && l.seen >= l.width) {
      forall e: Words
        ensures Exact(e, l)
      {
        GoodLayoutIsExact(e, l);
      }
    } else if l.seen < l.width {
      NarrowMaskHides(l);
    } else {
      WideMaskCoversUp(l);
    }
  }

  /** Bit `k` of group `vg` is clean on every rank that is not skipped. */
  ghost predicate CleanOnAll(err: Ranks, skip: nat -> bool, from: nat, to: nat, vg: nat, k: nat) {
    forall r: nat :: from <= r < to && !skip(r) ==> !Bit(err(r), vg, k)
  }

  ghost predicate AllClean(err: Ranks, skip: nat -> bool, from: nat, to: nat, l: Layout) {
    forall vg: nat, k: nat :: vg < l.vgs && k < l.width ==> CleanOnAll(err, skip, from, to, vg, k)
  }

  ghost predicate AnyClean(err: Ranks, skip: nat -> bool, from: nat, to: nat, l: Layout) {
    exists vg: nat, k: nat :: vg < l.vgs && k < l.width && CleanOnAll(err, skip, from, to, vg, k)
  }

  /** The mask of a test, bit by bit in terms of the error words. */
  ghost predicate Shows(bitChk: Bits, err: Ranks, skip: nat -> bool, from: nat, to: nat, l: Layout) {
    forall vg: nat, k: nat :: vg < l.vgs && k < l.width ==>
      Place(l, vg, k) < 32 && (bitChk[Place(l, vg, k)] <==> CleanOnAll(err, skip, from, to, vg, k))
  }

  /** The read test: its layout is good by construction, so every mask bit is the conjunction over
    * ranks, and the two verdicts are "all bits" and "some bit" over the error words.
    */
  method ReadTest(err: Ranks, skip: nat -> bool, from: nat, to: nat, vgs: nat, width: nat, allCorrect: bool)
    returns (bitChk: Bits, passed: bool)
    requires vgs > 0 && vgs * width <= 32 && from <= to
    ensures Shows(bitChk, err, skip, from, to, Layout(vgs, width, width))
    ensures forall b :: vgs * width <= b < 32 ==> !bitChk[b]
    ensures allCorrect ==> (passed <==> AllClean(err, skip, from, to, Layout(vgs, width, width)))
    ensures !allCorrect ==> (passed <==> AnyClean(err, skip, from, to, Layout(vgs, width, width)))
  {
    var l := Layout(vgs, width, width);
    bitChk, passed := Test(err, skip, from, to, l, vgs * width, allCorrect);
    MaskShows(bitChk, err, skip, from, to, l);
    VerdictAll(bitChk, err, skip, from, to, l);
    VerdictAny(bitChk, err, skip, from, to, l);
  }

  lemma MaskShows(bitChk: Bits, err: Ranks, skip: nat -> bool, from: nat, to: nat, l: Layout)
    requires l.seen == l.width && l.vgs * l.width <= 32
    requires forall b: nat :: b < 32 ==> (bitChk[b] <==> b < l.vgs * l.width && RanksPass(err, skip, from, to, l, b))
    ensures Shows(bitChk, err, skip, from, to, l)
  {
    forall vg: nat, k: nat | vg < l.vgs && k < l.width
      ensures Place(l, vg, k) < 32 && (bitChk[Place(l, vg, k)] <==> CleanOnAll(err, skip, from, to, vg, k))
    {
      RanksAreExact(err, skip, from, to, l, vg, k);
    }
  }

  lemma VerdictAll(bitChk: Bits, err: Ranks, skip: nat -> bool, from: nat, to: nat, l: Layout)
    requires l.vgs * l.width <= 32 && Shows(bitChk, err, skip, from, to, l)
    ensures (forall b: nat :: b < l.vgs * l.width ==> bitChk[b]) <==> AllClean(err, skip, from, to, l)
  {
    if AllClean(err, skip, from, to, l) {
      forall b: nat | b < l.vgs * l.width
        ensures bitChk[b]
      {
        EveryPlace(l, b);
      }
    }
    if forall b: nat :: b < l.vgs * l.width ==> bitChk[b] {
      forall vg: nat, k: nat | vg < l.vgs && k < l.width
        ensures CleanOnAll(err, skip, from, to, vg, k)
      {
        PlaceInMask(l, vg, k);
      }
    }
  }

  lemma VerdictAny(bitChk: Bits, err: Ranks, skip: nat -> bool, from: nat, to: nat, l: Layout)
    requires l.vgs * l.width <= 32 && Shows(bitChk, err, skip, from, to, l)
    ensures (exists b: nat :: b < l.vgs * l.width && bitChk[b]) <==> AnyClean(err, skip, from, to, l)
  {
    if b: nat :| b < l.vgs * l.width && bitChk[b] {
      EveryPlace(l, b);
    }
    if vg: nat, k: nat :| vg < l.vgs && k < l.width && CleanOnAll(err, skip, from, to, vg, k) {
      PlaceInMask(l, vg, k);
      assert bitChk[Place(l, vg, k)];
    }
  }

  lemma PlaceInMask(l: Layout, vg: nat, k: nat)
    requires vg < l.vgs && k < l.width
    ensures Place(l, vg, k) < l.vgs * l.width
  {
    assert (vg + 1) * l.width <= l.vgs * l.width;
  }

  lemma RanksAreExact(err: Ranks, skip: nat -> bool, from: nat, to: nat, l: Layout, vg: nat, k: nat)
    requires l.seen == l.width && l.vgs * l.width <= 32 && vg < l.vgs && k < l.width
    ensures Place(l, vg, k) < l.vgs * l.width
    ensures RanksPass(err, skip, from, to, l, Place(l, vg, k)) <==> CleanOnAll(err, skip, from, to, vg, k)
  {
    PlaceInMask(l, vg, k);
    forall r: nat
      ensures SomeClean(err(r), l, 0, Place(l, vg, k)) <==> !Bit(err(r), vg, k)
    {
      GoodLayoutIsExact(err(r), l);
    }
  }

  lemma EveryPlace(l: Layout, b: nat)
    requires b < l.vgs * l.width
    ensures l.width > 0 && b / l.width < l.vgs && b % l.width < l.width && Place(l, b / l.width, b % l.width) == b
  {
    var w, q := l.width, b / l.width;
    assert q * w <= b;
    Monotone(l.vgs, q, w);
  }

  lemma Monotone(x: nat, y: nat, w: nat)
    ensures x <= y ==> x * w <= y * w
  {
  }
}
