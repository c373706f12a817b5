/** SHA-256 message padding into a buffer of 32-bit words, against section 5.1.1 of FIPS 180-4. */
module ShaPadding {

  type Byte = b: nat | b < 0x100

  /** A 32-bit word as its four bytes, most significant first. */
  datatype Word = Word(b0: Byte, b1: Byte, b2: Byte, b3: Byte)

  const ZERO := Word(0, 0, 0, 0)

  function Value(w: Word): nat {
    ((w.b0 * 0x100 + w.b1) * 0x100 + w.b2) * 0x100 + w.b3
  }

  /** The word a C assignment of `n` stores. */
  function OfInt(n: nat): Word {
    var a := n / 0x100;
    var b := a / 0x100;
    Word(b / 0x100 % 0x100, b % 0x100, a % 0x100, n % 0x100)
  }

  lemma ValueOfInt(n: nat)
    requires n < 0x1_0000_0000
    ensures Value(OfInt(n)) == n
  {
    var a := n / 0x100;
    var b := a / 0x100;
    assert b / 0x100 < 0x100;
  }

  /** A byte shifted left by (3 - c) * 8. */
  function Shifted(b: Byte, c: nat): Word
    requires c < 4
  {
    if c == 0 then Word(b, 0, 0, 0) else if c == 1 then Word(0, b, 0, 0)
    else if c == 2 then Word(0, 0, b, 0) else Word(0, 0, 0, b)
  }

  /** Bitwise or of two bytes; or with 0 is spelt out. */
  function OrByte(x: Byte, y: Byte): Byte {
    if x == 0 then y else if y == 0 then x else ((x as bv8) | (y as bv8)) as nat
  }

  function Or(a: Word, b: Word): Word {
    Word(OrByte(a.b0, b.b0), OrByte(a.b1, b.b1), OrByte(a.b2, b.b2), OrByte(a.b3, b.b3))
  }

  function ByteOf(w: Word, c: nat): Byte
    requires c < 4
  {
    if c == 0 then w.b0 else if c == 1 then w.b1 else if c == 2 then w.b2 else w.b3
  }

  // ------------------------------------------------------------------ the standard

  /** Number of 512-bit blocks of a padded message of `l` bytes. */
  function Blocks(l: nat): nat {
    (l + 8) / 64 + 1
  }

  /** The number of zeros is the least that leaves room for the length in a whole block. */
  lemma BlocksIsLeast(l: nat, n: nat)
    ensures l + 9 <= 64 * n <==> Blocks(l) <= n
  {
  }

  /** Messages short enough for the bit length to be an int. */
  predicate Fits(msg: seq<Byte>) {
    8 * |msg| < 0x8000_0000
  }

  /** The message, a one bit, zeros, and the 64-bit length, to a whole number of blocks. */
  function FipsBytes(msg: seq<Byte>): (r: seq<Byte>)
    requires Fits(msg)
    ensures |r| == 64 * Blocks(|msg|)
  {
    var w := OfInt(8 * |msg|);
    msg + [0x80] + seq(64 * Blocks(|msg|) - |msg| - 9, _ => 0)
    + [0, 0, 0, 0] + [ByteOf(w, 0), ByteOf(w, 1), ByteOf(w, 2), ByteOf(w, 3)]
  }

  /** Byte `p` of the padded message. */
  function FipsByte(msg: seq<Byte>, p: nat): Byte
    requires Fits(msg) && p < 64 * Blocks(|msg|)
  {
    if p < |msg| then msg[p]
    else if p == |msg| then 0x80
    else if p < 64 * Blocks(|msg|) - 4 then 0
    else ByteOf(OfInt(8 * |msg|), p - (64 * Blocks(|msg|) - 4))
  }

  lemma FipsByteIsRight(msg: seq<Byte>, p: nat)
    requires Fits(msg) && p < 64 * Blocks(|msg|)
    ensures FipsByte(msg, p) == FipsBytes(msg)[p]
  {
  }

  /** Word `q` of the padded message, big-endian. */
  function FipsWord(msg: seq<Byte>, q: nat): Word
    requires Fits(msg) && q < 16 * Blocks(|msg|)
  {
    var r := FipsBytes(msg);
    Word(r[4 * q], r[4 * q + 1], r[4 * q + 2], r[4 * q + 3])
  }

  lemma FipsWordIs(msg: seq<Byte>, q: nat)
    requires Fits(msg) && q < 16 * Blocks(|msg|)
    ensures FipsWord(msg, q) ==
      Word(FipsByte(msg, 4 * q), FipsByte(msg, 4 * q + 1), FipsByte(msg, 4 * q + 2), FipsByte(msg, 4 * q + 3))
  {
    FipsByteIsRight(msg, 4 * q);
    FipsByteIsRight(msg, 4 * q + 1);
    FipsByteIsRight(msg, 4 * q + 2);
    FipsByteIsRight(msg, 4 * q + 3);
  }

  lemma LastWordIsLength(msg: seq<Byte>)
    requires Fits(msg)
    ensures FipsWord(msg, 16 * Blocks(|msg|) - 1) == OfInt(8 * |msg|)
  {
    FipsWordIs(msg, 16 * Blocks(|msg|) - 1);
  }

  /** The padded block of the three bytes "abc", the example of section 5.1.1. */
  lemma PaddedAbc(q: nat)
    requires q < 16
    ensures Fits([0x61, 0x62, 0x63]) && Blocks(3) == 1
    ensures Value(FipsWord([0x61, 0x62, 0x63], q)) == if q == 0 then 0x61626380 else if q == 15 then 0x18 else 0
  {
    FipsWordIs([0x61, 0x62, 0x63], q);
  }

  /** A message byte can be read back from its word. */
  lemma WordByte(msg: seq<Byte>, p: nat)
    requires Fits(msg) && p < |msg|
    ensures p / 4 < 16 * Blocks(|msg|)
    ensures ByteOf(FipsWord(msg, p / 4), p % 4) == msg[p]
  {
    assert p == 4 * (p / 4) + p % 4;
    FipsWordIs(msg, p / 4);
  }

  /** The padded words determine the message. */
  lemma MessageIsRecoverable(a: seq<Byte>, b: seq<Byte>)
    requires Fits(a) && Fits(b) && Blocks(|a|) == Blocks(|b|)
    requires forall q: nat :: q < 16 * Blocks(|a|) ==> FipsWord(a, q) == FipsWord(b, q)
    ensures a == b
  {
    LastWordIsLength(a);
    LastWordIsLength(b);
    ValueOfInt(8 * |a|);
    ValueOfInt(8 * |b|);
    assert |a| == |b|;
    forall p | 0 <= p < |a|
      ensures a[p] == b[p]
    {
      WordByte(a, p);
      WordByte(b, p);
    }
  }

  // ------------------------------------------------------------------ packing

  /** The first `c` message bytes of word `q`. */
  function Partial(msg: seq<Byte>, q: nat, c: nat): (w: Word)
    requires c <= 4 && 4 * q + c <= |msg|
  {
    Word(if c > 0 then msg[4 * q] else 0, if c > 1 then msg[4 * q + 1] else 0,
         if c > 2 then msg[4 * q + 2] else 0, if c > 3 then msg[4 * q + 3] else 0)
  }

  /** Or-ing the next byte into a word. */
  lemma PartialNext(msg: seq<Byte>, q: nat, c: nat, b: Byte)
    requires c < 4 && 4 * q + c < |msg| && b == msg[4 * q + c]
    ensures Or(Partial(msg, q, c), Shifted(b, c)) == Partial(msg, q, c + 1)
  {
  }

  /** Packs the message bytes into words, big-endian, clearing each word before its first byte. */
  method PackBytes(mem: array<Word>, msg: seq<Byte>) returns (j: nat)
    requires |msg| / 4 < mem.Length
    modifies mem
    ensures j == |msg| / 4
    ensures forall q: nat :: q < j ==> mem[q] == Partial(msg, q, 4)
    ensures mem[j] == Partial(msg, j, |msg| % 4)
    ensures forall q: nat :: j < q < mem.Length ==> mem[q] == old(mem[q])
  {
    var count: nat := 0;
    j := 0;
    mem[j] := ZERO;
    for i := 0 to |msg|
      invariant 4 * j + count == i && count < 4 && j < mem.Length
      invariant forall q: nat :: q < j ==> mem[q] == Partial(msg, q, 4)
      invariant mem[j] == Partial(msg, j, count)
      invariant forall q: nat :: j < q < mem.Length ==> mem[q] == old(mem[q])
    {
      PartialNext(msg, j, count, msg[i]);
      mem[j] := Or(mem[j], Shifted(msg[i], count));
      count := count + 1;
      if count == 4 {
        j := j + 1;
        mem[j] := ZERO;
        count := 0;
      }
    }
  }

  // ------------------------------------------------------------------ the routine

  /** Word `q` of the message, with the one bit behind the last byte. */
  function Marked(msg: seq<Byte>, q: nat): Word
    requires q <= |msg| / 4
  {
    if q < |msg| / 4 then Partial(msg, q, 4)
    else Or(Partial(msg, q, |msg| % 4), Shifted(0x80, |msg| % 4))
  }

  /** The table of length ranges: the word the zeros stop at, and the block count. */
  function Range(l: nat): (r: (nat, nat))
    ensures r.1 == 0 <==> l >= 952
    ensures r.1 != 0 ==> r.0 == 16 * r.1 - 1
  {
    if l <= 55 then (15, 1)
    else if l <= 119 then (31, 2)
    else if l <= 183 then (47, 3)
    else if l <= 247 then (63, 4)
    else if l <= 311 then (79, 5)
    else if l <= 375 then (95, 6)
    else if l <= 439 then (111, 7)
    else if l <= 503 then (127, 8)
    else if l <= 567 then (143, 9)
    else if l <= 631 then (159, 10)
    else if l <= 695 then (175, 11)
    else if l <= 759 then (191, 12)
    else if l <= 823 then (207, 13)
    else if l <= 897 then (223, 14)
    else if l <= 951 then (239, 15)
    else (0, 0)
  }

  function Max(a: nat, b: nat): nat {
    if a < b then b else a
  }

  /** Where the routine puts the length: behind the zeros, or, for a message beyond the table, at
    * whatever its loop variable still holds.
    */
  function LengthAt(l: nat): nat {
    if l < 952 then Max(l / 4 + 1, Range(l).0) else if l % 4 == 0 then l else l % 4
  }

  /** The block count returned: `stale`, the uninitialised local, if no zero had to be written. */
  function Returned(l: nat, stale: int): int {
    if l < 952 && l / 4 + 1 < Range(l).0 then Range(l).1 else stale
  }

  /** Word `q` of the buffer when the routine is done. */
  function Final(mem: seq<Word>, msg: seq<Byte>, q: nat): Word
    requires q < |mem|
  {
    if q == LengthAt(|msg|) then OfInt(8 * |msg|)
    else if LengthAt(|msg|) < q < 64 then ZERO
    else if q <= |msg| / 4 then Marked(msg, q)
    else if |msg| < 952 && q < Range(|msg|).0 then ZERO
    else mem[q]
  }

  /** Writes the one bit behind the last byte; `i` is what the loop variable is left with. */
  method MarkEnd(mem: array<Word>, msg: seq<Byte>) returns (i: nat)
    requires |msg| / 4 < mem.Length && mem[|msg| / 4] == Partial(msg, |msg| / 4, |msg| % 4)
    modifies mem
    ensures mem[|msg| / 4] == Marked(msg, |msg| / 4)
    ensures forall q: nat :: q < mem.Length && q != |msg| / 4 ==> mem[q] == old(mem[q])
    ensures i == if |msg| % 4 == 0 then |msg| else |msg| % 4
  {
    var l := |msg|;
    if l % 4 == 0 {
      i := l;
      mem[l / 4] := Shifted(0x80, 0);
    } else {
      var j := l / 4;
      i := l % 4;
      mem[j] := Or(mem[j], Shifted(0x80, i));
    }
  }

  /** Zeros the words from `from` up to `to`. */
  method ZeroFill(mem: array<Word>, from: nat, to: nat)
    requires to <= mem.Length
    modifies mem
    ensures forall q: nat :: q < mem.Length ==> mem[q] == if from <= q < to then ZERO else old(mem[q])
  {
    var i := from;
    while i < to
      invariant from <= i <= Max(from, to)
      invariant forall q: nat :: q < mem.Length ==> mem[q] == if from <= q < i then ZERO else old(mem[q])
    {
      mem[i] := ZERO;
      i := i + 1;
    }
  }

  /** The routine.  `stale` stands for the local `NumberBlock`, which it does not initialise. */
  method Padding(mem: array<Word>, msg: seq<Byte>, stale: int) returns (n: int)
    requires Fits(msg) && 256 <= mem.Length && |msg| < mem.Length
    modifies mem
    ensures n == Returned(|msg|, stale)
    ensures Leaves(old(mem[..]), mem[..], msg)
    ensures |msg| <= 887 || 898 <= |msg| <= 951 ==> MeetsFips(mem[..], n, msg)
  {
    var l := |msg|;
    var j := PackBytes(mem, msg);
    var i := MarkEnd(mem, msg);
    n := stale;
    var range := Range(l);
    if range.1 != 0 {
      ZeroFill(mem, j + 1, range.0);
      if j + 1 < range.0 {
        n := range.1;
      }
      i := Max(j + 1, range.0);
    }
    mem[i] := OfInt(l * 8);
    ZeroFill(mem, i + 1, 64);
    assert Leaves(old(mem[..]), mem[..], msg);
    if l <= 887 || 898 <= l <= 951 {
      InRange(old(mem[..]), stale, mem[..], msg);
    }
  }

  // ------------------------------------------------------------------ when it meets the standard

  /** The buffer starts with the padded message and the block count is right. */
  ghost predicate MeetsFips(mem: seq<Word>, n: int, msg: seq<Byte>)
    requires Fits(msg)
  {
    && n == Blocks(|msg|) && 16 * n <= |mem|
    && forall q: nat :: q < 16 * n ==> mem[q] == FipsWord(msg, q)
  }

  /** The routine turns buffer `mem` into `after`. */
  ghost predicate Leaves(mem: seq<Word>, after: seq<Word>, msg: seq<Byte>) {
    && 256 <= |mem| == |after| && |msg| < |mem|
    && forall q: nat :: q < |mem| ==> after[q] == Final(mem, msg, q)
  }

  /** For this length the routine meets the standard, whatever the buffer and the local held before. */
  ghost predicate AlwaysRight(msg: seq<Byte>)
    requires Fits(msg)
  {
    forall mem, stale, after :: Leaves(mem, after, msg) ==> MeetsFips(after, Returned(|msg|, stale), msg)
  }

  lemma MarkedIsFips(msg: seq<Byte>, q: nat)
    requires Fits(msg) && q <= |msg| / 4
    ensures q < 16 * Blocks(|msg|) - 1 && Marked(msg, q) == FipsWord(msg, q)
  {
    FipsWordIs(msg, q);
  }

  /** The routine meets the standard for exactly the lengths 0 to 887 and 898 to 951. */
  lemma RightExactlyInRange(msg: seq<Byte>)
    requires Fits(msg)
    ensures AlwaysRight(msg) <==> |msg| <= 887 || 898 <= |msg| <= 951
  {
    var l := |msg|;
    if l <= 887 || 898 <= l <= 951 {
      assert Range(l).1 == Blocks(l);
      forall mem, stale, after | Leaves(mem, after, msg)
        ensures MeetsFips(after, Returned(|msg|, stale), msg)
      {
        InRange(mem, stale, after, msg);
      }
    } else {
      var mem: seq<Word> := seq(l + 256, _ => ZERO);
      var after: seq<Word> := seq(l + 256, q requires 0 <= q < l + 256 => Final(mem, msg, q));
      assert Leaves(mem, after, msg);
      assert Returned(l, 0) == 0;
      assert !MeetsFips(after, Returned(l, 0), msg);
    }
  }

  lemma InRange(mem: seq<Word>, stale: int, after: seq<Word>, msg: seq<Byte>)
    requires Fits(msg) && (|msg| <= 887 || 898 <= |msg| <= 951)
    requires Leaves(mem, after, msg)
    ensures MeetsFips(after, Returned(|msg|, stale), msg)
  {
    var l, n := |msg|, Blocks(|msg|);
    assert Range(l).1 == n && l / 4 + 1 < Range(l).0;
    LastWordIsLength(msg);
    forall q: nat | q < 16 * n
      ensures after[q] == FipsWord(msg, q)
    {
      FipsWordIs(msg, q);
      if q <= l / 4 {
        MarkedIsFips(msg, q);
      }
    }
  }

  /** For lengths 888 to 897 the buffer is wrong whatever it held: the length lands in a word that
    * should hold zeros, and the last block is never written.
    */
  lemma WrongIn888To897(mem: seq<Word>, stale: int, after: seq<Word>, msg: seq<Byte>)
    requires Fits(msg) && 888 <= |msg| <= 897 && Leaves(mem, after, msg)
    ensures !MeetsFips(after, Returned(|msg|, stale), msg)
    ensures Returned(|msg|, stale) == stale
  {
    var q := LengthAt(|msg|);
    FipsWordIs(msg, q);
    assert after[q] == OfInt(8 * |msg|) && FipsWord(msg, q) == ZERO;
    ValueOfInt(8 * |msg|);
  }
}
