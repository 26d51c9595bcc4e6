// The De Bruijn bit scan over 64-bit tag words (lifx/wire_proto.h, lifx/wire_proto.c).
//
// A word stands for the set of its bit numbers, `Bits(w)`.  The scan is a multiplication and a table
// look-up; the lemmas below say what it means in terms of that set.
module BitScan {

  type Word = bv64

  const ALL_BITS: Word := 0xffff_ffff_ffff_ffff

  const DEBRUIJN_NUMBER: Word := 0x03f7_9d71_b4cb_0a89

  // The 64-entry table, eight entries a row.
  const DEBRUIJN_SEQUENCE: seq<seq<int>> := [
    [ 0, 47,  1, 56, 48, 27,  2, 60],
    [57, 49, 41, 37, 28, 16,  3, 61],
    [54, 58, 35, 52, 50, 42, 21, 44],
    [38, 32, 29, 23, 17, 11,  4, 62],
    [46, 55, 26, 59, 40, 36, 15, 53],
    [34, 51, 20, 43, 31, 22, 10, 45],
    [25, 39, 14, 33, 19, 30,  9, 24],
    [13, 18,  8, 12,  7,  6,  5, 63]
  ]

  function DebruijnSequence(s: bv6): int {
    var k := s as int;
    DEBRUIJN_SEQUENCE[k / 8][k % 8]
  }

  function Index(i: int): bv6
    requires 0 <= i < 64
  {
    i as bv6
  }

  function Bit(i: bv6): Word {
    1 << i
  }

  // The bits of w from c upwards.
  function From(w: Word, c: bv6): Word {
    w & (ALL_BITS << c)
  }

  predicate MaskTest(w: Word, m: Word) {
    w & m != 0
  }

  // LGTD_LIFX_WIRE_TAG_ID_TO_VALUE
  function Value(i: int): Word
    requires 0 <= i < 64
  {
    Bit(Index(i))
  }

  predicate BitAt(w: Word, i: bv6) {
    (w >> i) & 1 != 0
  }

  predicate Has(w: Word, i: int)
    requires 0 <= i < 64
  {
    BitAt(w, Index(i))
  }

  ghost function Bits(w: Word): (s: set<int>)
    ensures forall i | i in s :: 0 <= i < 64
  {
    set i | 0 <= i < 64 && Has(w, i)
  }

  // The top six bits of the product select the table entry.
  function Slot(m: Word): bv6 {
    ((m * DEBRUIJN_NUMBER) >> 58) as bv6
  }

  function LowestMask(n: Word): Word {
    n ^ (n - 1)
  }

  function BitScanForward(n: Word): int {
    if n != 0 then DebruijnSequence(Slot(LowestMask(n))) else -1
  }

  function NextTagId(current: int, tags: Word): int
    requires -1 <= current < 64
  {
    if current < 63 then BitScanForward(From(tags, Index(current + 1))) else -1
  }

  // ---------------------------------------------------------------- single bits

  lemma IndexAsInt(i: int)
    requires 0 <= i < 64
    ensures Index(i) as int == i
  {}

  lemma IndexOfInt(k: bv6)
    ensures 0 <= k as int < 64 && Index(k as int) == k
  {}

  lemma NumberOrder(a: bv6, b: bv6)
    ensures a <= b <==> a as int <= b as int
  {}

  lemma IndexOrder(i: int, j: int)
    requires 0 <= i < 64 && 0 <= j < 64
    ensures Index(i) <= Index(j) <==> i <= j
    ensures Index(i) == Index(j) <==> i == j
  {
    hide Index;
    IndexAsInt(i);
    IndexAsInt(j);
    NumberOrder(Index(i), Index(j));
  }

  // The C test for one bit.
  lemma BitAtIsMaskTest(w: Word, i: bv6)
    ensures BitAt(w, i) <==> MaskTest(w, Bit(i))
  {}

  lemma BitAtOr(a: Word, b: Word, i: bv6)
    ensures BitAt(a | b, i) <==> BitAt(a, i) || BitAt(b, i)
  {}

  lemma BitAtAnd(a: Word, b: Word, i: bv6)
    ensures BitAt(a & b, i) <==> BitAt(a, i) && BitAt(b, i)
  {}

  lemma BitAtXor(a: Word, b: Word, i: bv6)
    ensures BitAt(a ^ b, i) <==> BitAt(a, i) != BitAt(b, i)
  {}

  lemma BitAtNot(a: Word, i: bv6)
    ensures BitAt(!a, i) <==> !BitAt(a, i)
  {}

  lemma BitAtValue(j: bv6, i: bv6)
    ensures BitAt(Bit(j), i) <==> i == j
  {}

  lemma BitAtFrom(w: Word, c: bv6, i: bv6)
    ensures BitAt(From(w, c), i) <==> BitAt(w, i) && c <= i
  {}

  // ---------------------------------------------------------------- words as sets

  lemma HasIsMaskTest(w: Word, i: int)
    requires 0 <= i < 64
    ensures i in Bits(w) <==> MaskTest(w, Value(i))
  {
    hide BitAt, MaskTest, Bit, Index;
    BitAtIsMaskTest(w, Index(i));
  }

  lemma BitsOr(a: Word, b: Word)
    ensures Bits(a | b) == Bits(a) + Bits(b)
  {
    hide BitAt, Index;
    forall i | 0 <= i < 64 ensures Has(a | b, i) <==> Has(a, i) || Has(b, i) { BitAtOr(a, b, Index(i)); }
  }

  lemma BitsAnd(a: Word, b: Word)
    ensures Bits(a & b) == Bits(a) * Bits(b)
  {
    hide BitAt, Index;
    forall i | 0 <= i < 64 ensures Has(a & b, i) <==> Has(a, i) && Has(b, i) { BitAtAnd(a, b, Index(i)); }
  }

  lemma BitsXor(a: Word, b: Word)
    ensures Bits(a ^ b) == (Bits(a) - Bits(b)) + (Bits(b) - Bits(a))
  {
    hide BitAt, Index;
    forall i | 0 <= i < 64 ensures Has(a ^ b, i) <==> Has(a, i) != Has(b, i) { BitAtXor(a, b, Index(i)); }
  }

  lemma BitsNot(a: Word)
    ensures forall i | 0 <= i < 64 :: i in Bits(!a) <==> i !in Bits(a)
  {
    hide BitAt, Index;
    forall i | 0 <= i < 64 ensures Has(!a, i) <==> !Has(a, i) { BitAtNot(a, Index(i)); }
  }

  lemma BitsValue(j: int)
    requires 0 <= j < 64
    ensures Bits(Value(j)) == {j}
  {
    hide BitAt, Bit, Index;
    forall i | 0 <= i < 64 ensures Has(Value(j), i) <==> i == j {
      IndexOrder(i, j);
      BitAtValue(Index(j), Index(i));
    }
  }

  lemma BitsFrom(w: Word, c: int)
    requires 0 <= c < 64
    ensures forall i :: i in Bits(From(w, Index(c))) <==> i in Bits(w) && c <= i
  {
    hide BitAt, Index, From;
    var high := From(w, Index(c));
    forall i | 0 <= i < 64 ensures Has(high, i) <==> Has(w, i) && c <= i {
      IndexOrder(c, i);
      BitAtFrom(w, Index(c), Index(i));
    }
  }

  lemma BitsZero()
    ensures Bits(0) == {}
  {}

  // ---------------------------------------------------------------- the scan

  // The low i bits.
  function Below(i: bv6): Word {
    (1 << i) - 1
  }

  // Bit i and everything below it.
  function Mask(i: bv6): Word {
    (1 << i) | Below(i)
  }

  // n ^ (n - 1) keeps the lowest set bit of n and everything below it.
  lemma LowestBitMask(n: Word, i: bv6)
    requires !MaskTest(n, Below(i)) && BitAt(n, i)
    ensures LowestMask(n) == Mask(i)
  {
    LowestBitMaskExpanded(n, i);
  }

  lemma LowestBitMaskExpanded(n: Word, i: bv6)
    requires n & ((1 << i) - 1) == 0 && (n >> i) & 1 != 0
    ensures n ^ (n - 1) == (1 << i) | ((1 << i) - 1)
  {}

  lemma LowSlots()
    ensures
      && Slot(0x1) == 0 && Slot(0x3) == 2 && Slot(0x7) == 6 && Slot(0xf) == 14
      && Slot(0x1f) == 30 && Slot(0x3f) == 62 && Slot(0x7f) == 61 && Slot(0xff) == 60
      && Slot(0x1ff) == 58 && Slot(0x3ff) == 54 && Slot(0x7ff) == 46 && Slot(0xfff) == 29
      && Slot(0x1fff) == 59 && Slot(0x3fff) == 56 && Slot(0x7fff) == 50 && Slot(0xffff) == 38
      && Slot(0x1ffff) == 13 && Slot(0x3ffff) == 28 && Slot(0x7ffff) == 57 && Slot(0xfffff) == 52
      && Slot(0x1fffff) == 42 && Slot(0x3fffff) == 22 && Slot(0x7fffff) == 45 && Slot(0xffffff) == 27
      && Slot(0x1ffffff) == 55 && Slot(0x3ffffff) == 48 && Slot(0x7ffffff) == 34 && Slot(0xfffffff) == 5
      && Slot(0x1fffffff) == 12 && Slot(0x3fffffff) == 26 && Slot(0x7fffffff) == 53 && Slot(0xffffffff) == 44
  {}

  lemma HighSlots()
    ensures
      && Slot(0x1ffffffff) == 25 && Slot(0x3ffffffff) == 51 && Slot(0x7ffffffff) == 40 && Slot(0xfffffffff) == 18
      && Slot(0x1fffffffff) == 37 && Slot(0x3fffffffff) == 11 && Slot(0x7fffffffff) == 24 && Slot(0xffffffffff) == 49
      && Slot(0x1ffffffffff) == 36 && Slot(0x3ffffffffff) == 10 && Slot(0x7ffffffffff) == 21 && Slot(0xfffffffffff) == 43
      && Slot(0x1fffffffffff) == 23 && Slot(0x3fffffffffff) == 47 && Slot(0x7fffffffffff) == 32 && Slot(0xffffffffffff) == 1
      && Slot(0x1ffffffffffff) == 4 && Slot(0x3ffffffffffff) == 9 && Slot(0x7ffffffffffff) == 20 && Slot(0xfffffffffffff) == 41
      && Slot(0x1fffffffffffff) == 19 && Slot(0x3fffffffffffff) == 39 && Slot(0x7fffffffffffff) == 16
        && Slot(0xffffffffffffff) == 33
      && Slot(0x1ffffffffffffff) == 3 && Slot(0x3ffffffffffffff) == 8 && Slot(0x7ffffffffffffff) == 17
        && Slot(0xfffffffffffffff) == 35
      && Slot(0x1fffffffffffffff) == 7 && Slot(0x3fffffffffffffff) == 15 && Slot(0x7fffffffffffffff) == 31
        && Slot(0xffffffffffffffff) == 63
  {}

  lemma LowRows()
    ensures
      && DebruijnSequence(0) == 0 && DebruijnSequence(1) == 47 && DebruijnSequence(2) == 1 && DebruijnSequence(3) == 56
      && DebruijnSequence(4) == 48 && DebruijnSequence(5) == 27 && DebruijnSequence(6) == 2 && DebruijnSequence(7) == 60
      && DebruijnSequence(8) == 57 && DebruijnSequence(9) == 49 && DebruijnSequence(10) == 41 && DebruijnSequence(11) == 37
      && DebruijnSequence(12) == 28 && DebruijnSequence(13) == 16 && DebruijnSequence(14) == 3 && DebruijnSequence(15) == 61
      && DebruijnSequence(16) == 54 && DebruijnSequence(17) == 58 && DebruijnSequence(18) == 35 && DebruijnSequence(19) == 52
      && DebruijnSequence(20) == 50 && DebruijnSequence(21) == 42 && DebruijnSequence(22) == 21 && DebruijnSequence(23) == 44
      && DebruijnSequence(24) == 38 && DebruijnSequence(25) == 32 && DebruijnSequence(26) == 29 && DebruijnSequence(27) == 23
      && DebruijnSequence(28) == 17 && DebruijnSequence(29) == 11 && DebruijnSequence(30) == 4 && DebruijnSequence(31) == 62
  {}

  lemma HighRows()
    ensures
      && DebruijnSequence(32) == 46 && DebruijnSequence(33) == 55 && DebruijnSequence(34) == 26 && DebruijnSequence(35) == 59
      && DebruijnSequence(36) == 40 && DebruijnSequence(37) == 36 && DebruijnSequence(38) == 15 && DebruijnSequence(39) == 53
      && DebruijnSequence(40) == 34 && DebruijnSequence(41) == 51 && DebruijnSequence(42) == 20 && DebruijnSequence(43) == 43
      && DebruijnSequence(44) == 31 && DebruijnSequence(45) == 22 && DebruijnSequence(46) == 10 && DebruijnSequence(47) == 45
      && DebruijnSequence(48) == 25 && DebruijnSequence(49) == 39 && DebruijnSequence(50) == 14 && DebruijnSequence(51) == 33
      && DebruijnSequence(52) == 19 && DebruijnSequence(53) == 30 && DebruijnSequence(54) == 9 && DebruijnSequence(55) == 24
      && DebruijnSequence(56) == 13 && DebruijnSequence(57) == 18 && DebruijnSequence(58) == 8 && DebruijnSequence(59) == 12
      && DebruijnSequence(60) == 7 && DebruijnSequence(61) == 6 && DebruijnSequence(62) == 5 && DebruijnSequence(63) == 63
  {}

  lemma Masks()
    ensures
      && Mask(0) == 0x1 && Mask(1) == 0x3 && Mask(2) == 0x7 && Mask(3) == 0xf
      && Mask(4) == 0x1f && Mask(5) == 0x3f && Mask(6) == 0x7f && Mask(7) == 0xff
      && Mask(8) == 0x1ff && Mask(9) == 0x3ff && Mask(10) == 0x7ff && Mask(11) == 0xfff
      && Mask(12) == 0x1fff && Mask(13) == 0x3fff && Mask(14) == 0x7fff && Mask(15) == 0xffff
      && Mask(16) == 0x1ffff && Mask(17) == 0x3ffff && Mask(18) == 0x7ffff && Mask(19) == 0xfffff
      && Mask(20) == 0x1fffff && Mask(21) == 0x3fffff && Mask(22) == 0x7fffff && Mask(23) == 0xffffff
      && Mask(24) == 0x1ffffff && Mask(25) == 0x3ffffff && Mask(26) == 0x7ffffff && Mask(27) == 0xfffffff
      && Mask(28) == 0x1fffffff && Mask(29) == 0x3fffffff && Mask(30) == 0x7fffffff && Mask(31) == 0xffffffff
      && Mask(32) == 0x1ffffffff && Mask(33) == 0x3ffffffff && Mask(34) == 0x7ffffffff && Mask(35) == 0xfffffffff
      && Mask(36) == 0x1fffffffff && Mask(37) == 0x3fffffffff && Mask(38) == 0x7fffffffff && Mask(39) == 0xffffffffff
      && Mask(40) == 0x1ffffffffff && Mask(41) == 0x3ffffffffff && Mask(42) == 0x7ffffffffff && Mask(43) == 0xfffffffffff
      && Mask(44) == 0x1fffffffffff && Mask(45) == 0x3fffffffffff && Mask(46) == 0x7fffffffffff && Mask(47) == 0xffffffffffff
      && Mask(48) == 0x1ffffffffffff && Mask(49) == 0x3ffffffffffff && Mask(50) == 0x7ffffffffffff
        && Mask(51) == 0xfffffffffffff
      && Mask(52) == 0x1fffffffffffff && Mask(53) == 0x3fffffffffffff && Mask(54) == 0x7fffffffffffff
        && Mask(55) == 0xffffffffffffff
      && Mask(56) == 0x1ffffffffffffff && Mask(57) == 0x3ffffffffffffff && Mask(58) == 0x7ffffffffffffff
        && Mask(59) == 0xfffffffffffffff
      && Mask(60) == 0x1fffffffffffffff && Mask(61) == 0x3fffffffffffffff && Mask(62) == 0x7fffffffffffffff
        && Mask(63) == 0xffffffffffffffff
  {}

  // The table inverts the multiplication on each of the 64 possible masks.
  lemma TableInvertsProduct(i: bv6)
    ensures DebruijnSequence(Slot(Mask(i))) == i as int
  {
    hide Slot, Mask, DebruijnSequence;
    Masks();
    LowSlots();
    HighSlots();
    LowRows();
    HighRows();
    match i {
      case 0 => case 1 => case 2 => case 3 => case 4 => case 5 => case 6 => case 7 =>
      case 8 => case 9 => case 10 => case 11 => case 12 => case 13 => case 14 => case 15 =>
      case 16 => case 17 => case 18 => case 19 => case 20 => case 21 => case 22 => case 23 =>
      case 24 => case 25 => case 26 => case 27 => case 28 => case 29 => case 30 => case 31 =>
      case 32 => case 33 => case 34 => case 35 => case 36 => case 37 => case 38 => case 39 =>
      case 40 => case 41 => case 42 => case 43 => case 44 => case 45 => case 46 => case 47 =>
      case 48 => case 49 => case 50 => case 51 => case 52 => case 53 => case 54 => case 55 =>
      case 56 => case 57 => case 58 => case 59 => case 60 => case 61 => case 62 => case _ =>
    }
  }

  lemma {:induction false} ExistsLowestFrom(n: Word, i: bv6) returns (k: bv6)
    requires n != 0 && !MaskTest(n, Below(i))
    ensures BitAt(n, k) && !MaskTest(n, Below(k))
    decreases 63 - i as int
  {
    if BitAt(n, i) {
      k := i;
    } else {
      NoBitHere(n, i);
      k := ExistsLowestFrom(n, i + 1);
    }
  }

  lemma BelowZero(n: Word)
    ensures !MaskTest(n, Below(0))
  {}

  lemma NoBitHere(n: Word, i: bv6)
    requires n != 0 && !MaskTest(n, Below(i)) && !BitAt(n, i)
    ensures i < 63 && !MaskTest(n, Below(i + 1))
  {}

  lemma NoneBelow(n: Word, k: bv6, j: bv6)
    requires !MaskTest(n, Below(k)) && BitAt(n, j)
    ensures k <= j
  {}

  // The scan returns the lowest set bit of every non-zero word, and -1 for zero.
  lemma BitScanForwardLowest(n: Word)
    ensures n == 0 <==> BitScanForward(n) == -1
    ensures n == 0 <==> Bits(n) == {}
    ensures n != 0 ==>
      && BitScanForward(n) in Bits(n)
      && forall j | j in Bits(n) :: BitScanForward(n) <= j
  {
    hide BitAt, MaskTest, LowestMask, Index, Below, Mask, Slot, DebruijnSequence;
    BitsZero();
    if n != 0 {
      BelowZero(n);
      var k := ExistsLowestFrom(n, 0);
      LowestBitMask(n, k);
      TableInvertsProduct(k);
      IndexOfInt(k);
      assert k as int in Bits(n);
      forall j | j in Bits(n) ensures k as int <= j {
        NoneBelow(n, k, Index(j));
        IndexOrder(k as int, j);
      }
    }
  }

  // The next tag id is the least one above the current one, or -1 when there is none.
  lemma NextTagIdIsNext(current: int, tags: Word)
    requires -1 <= current < 64
    ensures -1 <= NextTagId(current, tags) < 64
    ensures var next := NextTagId(current, tags);
      if next == -1
      then forall j | j in Bits(tags) :: j <= current
      else next in Bits(tags) && current < next && forall j | j in Bits(tags) && current < j :: next <= j
  {
    hide Has, Bits, BitScanForward, Index, From;
    if current < 63 {
      var c := current + 1;
      BitsFrom(tags, c);
      BitScanForwardLowest(From(tags, Index(c)));
    }
  }

  ghost predicate Ascending(ids: seq<int>) {
    forall i, j | 0 <= i < j < |ids| :: ids[i] < ids[j]
  }

  // LGTD_LIFX_WIRE_FOREACH_TAG_ID: the loop visits exactly the set bits, once each, in ascending order.
  method ForEachTagId(tags: Word) returns (ids: seq<int>)
    ensures Ascending(ids)
    ensures (set id | id in ids) == Bits(tags)
  {
    hide NextTagId, Bits;
    ids := [];
    var tagId := NextTagId(-1, tags);
    NextTagIdIsNext(-1, tags);
    while tagId != -1
      invariant -1 <= tagId < 64
      invariant Ascending(ids)
      invariant forall id | id in ids :: id in Bits(tags)
      invariant tagId != -1 ==> tagId in Bits(tags)
      invariant tagId != -1 ==> forall id | id in ids :: id < tagId
      invariant forall id :: id in Bits(tags) ==> id in ids || (tagId != -1 && tagId <= id)
      decreases if tagId == -1 then 0 else 64 - tagId
    {
      assert forall k | 0 <= k < |ids| :: ids[k] in ids;
      ids := ids + [tagId];
      NextTagIdIsNext(tagId, tags);
      tagId := NextTagId(tagId, tags);
    }
  }
}
