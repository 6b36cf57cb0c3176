/** Resource block groups of the PDSCH example (section 7.1.6.1 of 3GPP
    TS 36.213; lib/examples/pdsch_enodeb.c): the arrow keys move and resize a
    block of groups, which is sent most significant bit first. */
module PrbMask {

  predicate Bit(x: bv32, i: bv8)
    requires i <= 32
  { (x >> i) & 1 == 1 }

  /** `reverse`, as five masked swaps. */
  function Reverse(x0: bv32): bv32 {
    var x1 := ((x0 & 0xaaaaaaaa) >> 1) | ((x0 & 0x55555555) << 1);
    var x2 := ((x1 & 0xcccccccc) >> 2) | ((x1 & 0x33333333) << 2);
    var x3 := ((x2 & 0xf0f0f0f0) >> 4) | ((x2 & 0x0f0f0f0f) << 4);
    var x4 := ((x3 & 0xff00ff00) >> 8) | ((x3 & 0x00ff00ff) << 8);
    (x4 >> 16) | (x4 << 16)
  }

  /** The swaps are exactly the reversal of the 32 bits. */
  lemma ReverseReverses(x: bv32, i: bv8)
    requires i < 32
    ensures Bit(Reverse(x), i) <==> Bit(x, 31 - i)
  {
  }

  lemma ReverseTwice(x: bv32)
    ensures Reverse(Reverse(x)) == x
  {
  }

  // ------------------------------------------------- arrow keys

  datatype Block = Block(orig: nat, num: nat)

  datatype Key = Right | Left | Up | Down

  function Press(b: Block, k: Key, nb: nat): Block {
    match k
    case Right => if b.orig + b.num < nb then b.(orig := b.orig + 1) else b
    case Left => if b.orig > 0 then b.(orig := b.orig - 1) else b
    case Up => if b.num < nb then b.(num := b.num + 1) else b
    case Down => if b.num > 0 then b.(num := b.num - 1) else b
  }

  /** The arrows move the block by one group or make it one larger or smaller, each
      in one direction, and stop at the ends; opposite arrows undo each other where
      the first one did something. */
  lemma PressChanges(b: Block, nb: nat)
    ensures Press(b, Right, nb) == Block(b.orig + (if b.orig + b.num < nb then 1 else 0), b.num)
    ensures Press(b, Up, nb) == Block(b.orig, b.num + (if b.num < nb then 1 else 0))
    ensures b.orig > 0 ==> Press(b, Left, nb) == Block(b.orig - 1, b.num)
    ensures b.num > 0 ==> Press(b, Down, nb) == Block(b.orig, b.num - 1)
    ensures b.orig == 0 ==> Press(b, Left, nb) == b
    ensures b.num == 0 ==> Press(b, Down, nb) == b
    ensures Press(b, Right, nb) != b ==> Press(Press(b, Right, nb), Left, nb) == b
    ensures Press(b, Up, nb) != b ==> Press(Press(b, Up, nb), Down, nb) == b
  {
  }

  /** `main` starts with the whole band. */
  function Pressed(keys: seq<Key>, nb: nat): Block {
    if keys == [] then Block(0, nb) else Press(Pressed(keys[..|keys| - 1], nb), keys[|keys| - 1], nb)
  }

  /** The block starts and fits within the band whatever is pressed, though it
      may reach past the end once it is moved and then grown. */
  lemma {:induction false} PressedInBand(keys: seq<Key>, nb: nat)
    ensures Pressed(keys, nb).orig <= nb && Pressed(keys, nb).num <= nb
  {
    if keys != [] { PressedInBand(keys[..|keys| - 1], nb); }
  }

  // ------------------------------------------------- the mask

  /** A 32-bit word by its bits, least significant first. */
  type Word = w: seq<bool> | |w| == 32 witness seq(32, i => false)

  function And(v: Word, w: Word): Word { seq(32, i requires 0 <= i < 32 => v[i] && w[i]) }
  function Or(v: Word, w: Word): Word { seq(32, i requires 0 <= i < 32 => v[i] || w[i]) }

  function ShiftRight(w: Word, k: nat): Word
    requires k <= 32
  { w[k..] + seq(k, i => false) }

  function ShiftLeft(w: Word, k: nat): Word
    requires k <= 32
  { seq(k, i => false) + w[..32 - k] }

  /** Runs of `k` bits, every second run set from the second on: 0xaaaaaaaa,
      0xcccccccc, 0xf0f0f0f0 and 0xff00ff00 for 1, 2, 4 and 8. */
  function Stripes(k: nat): Word
    requires k > 0
  { seq(32, i requires 0 <= i < 32 => i / k % 2 == 1) }

  /** The other runs: 0x55555555, 0x33333333, 0x0f0f0f0f and 0x00ff00ff. */
  function Gaps(k: nat): Word
    requires k > 0
  { seq(32, i requires 0 <= i < 32 => i / k % 2 == 0) }

  function Swap(w: Word, k: nat): Word
    requires 0 < k <= 32
  { Or(ShiftRight(And(w, Stripes(k)), k), ShiftLeft(And(w, Gaps(k)), k)) }

  /** `reverse`, on the bits of a word. */
  function ReverseWord(w0: Word): Word {
    var w := Swap(Swap(Swap(Swap(w0, 1), 2), 4), 8);
    Or(ShiftRight(w, 16), ShiftLeft(w, 16))
  }

  /** Where the bit at `i` comes from: the other run of its pair. */
  function Partner(i: nat, k: nat): int
    requires k > 0
  { if i / k % 2 == 1 then i - k else i + k }

  predicate Width(k: nat) { k == 1 || k == 2 || k == 4 || k == 8 }

  lemma NextRun(i: nat, k: nat)
    requires Width(k)
    ensures (i + k) / k == i / k + 1
  {
    assert k == 1 || k == 2 || k == 4 || k == 8;
  }

  lemma PartnerInWord(i: nat, k: nat)
    requires i < 32 && Width(k)
    ensures 0 <= Partner(i, k) < 32
  {
    assert Width(k) ==> (k == 1 || k == 2) || (k == 4 || k == 8);
  }

  lemma PartnerPairs(i: nat, k: nat)
    requires i < 32 && Width(k)
    ensures 0 <= Partner(i, k) < 32
    ensures i / k % 2 == 1 ==> i >= k && (i - k) / k % 2 == 0 && (i + k) / k % 2 == 0
    ensures i / k % 2 == 0 ==> i + k < 32 && (i + k) / k % 2 == 1 && (i >= k ==> (i - k) / k % 2 == 1)
  {
    PartnerInWord(i, k);
    NextRun(i, k);
    if i >= k { NextRun(i - k, k); }
  }

  lemma ShiftedDown(w: Word, k: nat, i: nat)
    requires i < 32 && 0 < k <= 32
    ensures ShiftRight(And(w, Stripes(k)), k)[i] == (i + k < 32 && w[i + k] && (i + k) / k % 2 == 1)
  {
    var v := And(w, Stripes(k));
    assert i + k < 32 ==> ShiftRight(v, k)[i] == v[k..][i] == v[i + k];
  }

  lemma ShiftedUp(w: Word, k: nat, i: nat)
    requires i < 32 && 0 < k <= 32
    ensures ShiftLeft(And(w, Gaps(k)), k)[i] == (i >= k && w[i - k] && (i - k) / k % 2 == 0)
  {
    var v := And(w, Gaps(k));
    assert i >= k ==> ShiftLeft(v, k)[i] == v[i - k];
  }

  lemma SwapAt(w: Word, k: nat, i: nat)
    requires i < 32 && Width(k)
    ensures 0 <= Partner(i, k) < 32 && Swap(w, k)[i] == w[Partner(i, k)]
  {
    PartnerPairs(i, k);
    ShiftedDown(w, k, i);
    ShiftedUp(w, k, i);
  }

  /** Each swap turns one more binary digit of the index over. */
  lemma PartnersReverse(i: nat)
    requires i < 32
    ensures var j := if i >= 16 then i - 16 else i + 16;
            && 0 <= Partner(j, 8) < 32
            && 0 <= Partner(Partner(j, 8), 4) < 32
            && 0 <= Partner(Partner(Partner(j, 8), 4), 2) < 32
            && Partner(Partner(Partner(Partner(j, 8), 4), 2), 1) == 31 - i
  {
    var q, r := i / 8, i % 8;
    var j := if i >= 16 then i - 16 else i + 16;
    assert q == 0 || q == 1 || q == 2 || q == 3;
    assert Partner(j, 8) == 8 * (3 - q) + r;
    ThreeDigits(3 - q, r);
  }

  lemma ThreeDigits(q: nat, r: nat)
    requires q < 4 && r < 8
    ensures var i := 8 * q + r;
            && 0 <= Partner(i, 4) < 32 && 0 <= Partner(Partner(i, 4), 2) < 32
            && Partner(Partner(Partner(i, 4), 2), 1) == 8 * q + 7 - r
  {
    if r < 4 { TwoDigits(2 * q + 1, r); } else { TwoDigits(2 * q, r - 4); }
  }

  lemma TwoDigits(q: nat, r: nat)
    requires q < 8 && r < 4
    ensures var i := 4 * q + r;
            0 <= Partner(i, 2) < 32 && Partner(Partner(i, 2), 1) == 4 * q + 3 - r
  {
  }

  /** The swaps on the bits of a word are their reversal. */
  lemma ReverseWordAt(w: Word, i: nat)
    requires i < 32
    ensures ReverseWord(w)[i] == w[31 - i]
  {
    var j := if i >= 16 then i - 16 else i + 16;
    var w1 := Swap(w, 1);
    var w2 := Swap(w1, 2);
    var w4 := Swap(w2, 4);
    HalvesAt(Swap(w4, 8), i);
    PartnersReverse(i);
    SwapAt(w4, 8, j);
    SwapAt(w2, 4, Partner(j, 8));
    SwapAt(w1, 2, Partner(Partner(j, 8), 4));
    SwapAt(w, 1, Partner(Partner(Partner(j, 8), 4), 2));
  }

  lemma ReverseWordTwice(w: Word)
    ensures ReverseWord(ReverseWord(w)) == w
  {
    forall i | 0 <= i < 32 ensures ReverseWord(ReverseWord(w))[i] == w[i] {
      ReverseWordAt(ReverseWord(w), i);
      ReverseWordAt(w, 31 - i);
    }
  }

  lemma HalvesAt(w: Word, i: nat)
    requires i < 32
    ensures Or(ShiftRight(w, 16), ShiftLeft(w, 16))[i] == w[if i >= 16 then i - 16 else i + 16]
  {
  }

  /** `0x1 << i`. */
  function Single(i: nat): Word { seq(32, j => j == i) }

  lemma SmallIndex(i: nat)
    requires i < 32
    ensures i as bv8 < 32
  {
  }

  lemma OppositeIndex(i: nat)
    requires i < 32
    ensures (31 - i) as bv8 == 31 - i as bv8
  {
  }

  /** Bit `i` of a 32-bit vector. */
  predicate BitAt(x: bv32, i: nat)
    requires i < 32
  { SmallIndex(i); Bit(x, i as bv8) }

  function Bits(x: bv32): Word { seq(32, i requires 0 <= i < 32 => BitAt(x, i)) }

  /** The swaps on 32-bit vectors are the swaps on their bits. */
  lemma ReverseIsReverseWord(x: bv32)
    ensures Bits(Reverse(x)) == ReverseWord(Bits(x))
  {
    forall i | 0 <= i < 32 ensures Bits(Reverse(x))[i] == ReverseWord(Bits(x))[i] {
      ReverseWordAt(Bits(x), i);
      ReverseBitAt(x, i);
    }
  }

  lemma ReverseBitAt(x: bv32, i: nat)
    requires i < 32
    ensures BitAt(Reverse(x), i) == BitAt(x, 31 - i)
  {
    SmallIndex(i);
    OppositeIndex(i);
    ReverseReverses(x, i as bv8);
  }

  /** Group `i` belongs to the block. */
  predicate Inside(b: Block, i: nat) { b.orig <= i < b.orig + b.num }

  /** `prbset_to_bitmask`: bit `nb - 1 - i` says whether group `i` is in the
      block, and no bit at or above `nb` is set. */
  method PrbsetToBitmask(b: Block, nb: nat) returns (mask: Word)
    requires 1 <= nb <= 32
    ensures forall i :: 0 <= i < nb ==> (mask[nb - 1 - i] <==> Inside(b, i))
    ensures forall j :: nb <= j < 32 ==> !mask[j]
  {
    var m: Word := seq(32, i => false);
    for i := 0 to nb
      invariant forall j :: 0 <= j < 32 ==> (m[j] <==> j < i && Inside(b, j))
    {
      if i >= b.orig && i < b.orig + b.num { m := Or(m, Single(i)); }
    }
    forall i | 0 <= i < 32 ensures ReverseWord(m)[i] == m[31 - i] { ReverseWordAt(m, i); }
    mask := ShiftRight(ReverseWord(m), 32 - nb);
    assert forall j :: 0 <= j < nb ==> mask[j] == m[nb - 1 - j];
    assert forall i :: 0 <= i < nb ==> mask[nb - 1 - i] == m[i];
  }
}
