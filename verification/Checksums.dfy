/**
 The CRC32C checksum that guards a message section, bit by bit: the Castagnoli polynomial in the
 reflected form of section 12.1 of RFC 3720, starting from all ones and complemented at the end.
 */
module Checksums {

  type Bytes = seq<bv8>

  const POLYNOMIAL: bv32 := 0x82F6_3B78
  const ONES: bv32 := 0xFFFF_FFFF

  function BitStep(c: bv32): bv32 {
    if c & 1 == 1 then (c >> 1) ^ POLYNOMIAL else c >> 1
  }

  function BitSteps(c: bv32, n: nat): bv32
    decreases n
  {
    if n == 0 then c else BitSteps(BitStep(c), n - 1)
  }

  function Xor(a: bv32, b: bv32): bv32 {
    a ^ b
  }

  function Mix(c: bv32, b: bv8): bv32 {
    Xor(c, b as bv32)
  }

  /** One byte of input: it enters at the low end, then eight bits are shifted out. */
  function ByteStep(c: bv32, b: bv8): bv32 {
    BitSteps(Mix(c, b), 8)
  }

  function Fold(c: bv32, data: Bytes): bv32
    decreases |data|
  {
    if data == [] then c else Fold(ByteStep(c, data[0]), data[1..])
  }

  function Complement(c: bv32): bv32 {
    c ^ ONES
  }

  function Checksum(data: Bytes): bv32 {
    Complement(Fold(ONES, data))
  }

  // ---------- each step is injective ----------

  /** The polynomial's top bit is set, so the result's top bit tells which bit was shifted out. */
  lemma BitStepInjective(a: bv32, b: bv32)
    requires BitStep(a) == BitStep(b)
    ensures a == b
  {
  }

  lemma {:induction false} BitStepsInjective(a: bv32, b: bv32, n: nat)
    requires BitSteps(a, n) == BitSteps(b, n)
    ensures a == b
    decreases n
  {
    if n == 0 {
    } else {
      BitStepsInjective(BitStep(a), BitStep(b), n - 1);
      BitStepInjective(a, b);
    }
  }

  lemma MixInjectiveInState(c: bv32, d: bv32, x: bv8)
    requires Mix(c, x) == Mix(d, x)
    ensures c == d
  {
  }

  lemma StateInjective(c: bv32, d: bv32, x: bv8)
    requires ByteStep(c, x) == ByteStep(d, x)
    ensures c == d
  {
    hide BitSteps, Mix;
    BitStepsInjective(Mix(c, x), Mix(d, x), 8);
    MixInjectiveInState(c, d, x);
  }

  lemma {:induction false} FoldInjective(c: bv32, d: bv32, data: Bytes)
    requires Fold(c, data) == Fold(d, data)
    ensures c == d
    decreases |data|
  {
    if data == [] {
    } else {
      FoldInjective(ByteStep(c, data[0]), ByteStep(d, data[0]), data[1..]);
      StateInjective(c, d, data[0]);
    }
  }

  lemma {:induction false} FoldAppend(c: bv32, a: Bytes, b: Bytes)
    ensures Fold(c, a + b) == Fold(Fold(c, a), b)
    decreases |a|
  {
    if a == [] {
      assert a + b == b;
    } else {
      assert (a + b)[1..] == a[1..] + b;
      FoldAppend(ByteStep(c, a[0]), a[1..], b);
    }
  }

  lemma FoldOne(c: bv32, x: bv8, b: Bytes)
    ensures Fold(c, [x] + b) == Fold(ByteStep(c, x), b)
    ensures Fold(c, [x]) == ByteStep(c, x)
  {
    assert ([x] + b)[1..] == b;
    assert [x][1..] == [];
    assert Fold(ByteStep(c, x), []) == ByteStep(c, x);
  }

  lemma FoldNone(c: bv32)
    ensures Fold(c, []) == c
  {
  }

  lemma ChecksumTellsFold(data: Bytes, sum: bv32)
    requires sum == Checksum(data)
    ensures Complement(sum) == Fold(ONES, data)
  {
    ComplementTwice(Fold(ONES, data));
  }

  lemma ComplementTwice(c: bv32)
    ensures Complement(Complement(c)) == c
  {
  }

  // ---------- four adjacent bytes ----------

  function Doubled(v: bv32): bv32 {
    v << 1
  }

  function Raised(v: bv32): bv32 {
    v << 8
  }

  predicate TopBitFree(v: bv32) {
    v & 0x8000_0000 == 0
  }

  /** Room for one more byte above. */
  predicate TopFree(v: bv32) {
    v & 0xFF00_0000 == 0
  }

  predicate Odd(c: bv32) {
    c & 1 == 1
  }

  function Halved(c: bv32): bv32 {
    c >> 1
  }

  lemma OddOfXor(u: bv32, a: bv32)
    requires !Odd(a)
    ensures Odd(Xor(u, a)) == Odd(u)
  {
  }

  lemma HalvedOfXor(u: bv32, a: bv32)
    ensures Halved(Xor(u, a)) == Xor(Halved(u), Halved(a))
  {
  }

  lemma XorAssociative(a: bv32, b: bv32, c: bv32)
    ensures Xor(Xor(a, b), c) == Xor(a, Xor(b, c))
  {
  }

  lemma XorCommutes(a: bv32, b: bv32)
    ensures Xor(a, b) == Xor(b, a)
  {
  }

  lemma XorSwaps(x: bv32, y: bv32, z: bv32)
    ensures Xor(Xor(x, y), z) == Xor(Xor(x, z), y)
  {
    hide *;
    XorAssociative(x, y, z);
    XorCommutes(y, z);
    XorAssociative(x, z, y);
  }

  lemma DoubledIsEven(v: bv32)
    requires TopBitFree(v)
    ensures !Odd(Doubled(v)) && Halved(Doubled(v)) == v
  {
  }

  lemma BitStepInParts(c: bv32)
    ensures BitStep(c) == if Odd(c) then Xor(Halved(c), POLYNOMIAL) else Halved(c)
  {
  }

  /** A bit above is shifted in by a step, whatever the step does to the rest. */
  lemma PassesThrough(u: bv32, v: bv32)
    requires TopBitFree(v)
    ensures BitStep(Xor(u, Doubled(v))) == Xor(BitStep(u), v)
  {
    hide *;
    var a := Doubled(v);
    DoubledIsEven(v);
    OddOfXor(u, a);
    HalvedOfXor(u, a);
    XorSwaps(Halved(u), v, POLYNOMIAL);
    BitStepInParts(u);
    BitStepInParts(Xor(u, a));
  }

  function Shifted(v: bv32, n: nat): bv32 {
    if n == 0 then v else Doubled(Shifted(v, n - 1))
  }

  lemma {:induction false} ShiftedIn(u: bv32, v: bv32, n: nat)
    requires forall i | 0 <= i < n :: TopBitFree(Shifted(v, i))
    ensures BitSteps(Xor(u, Shifted(v, n)), n) == Xor(BitSteps(u, n), v)
    decreases n
  {
    hide BitStep, Xor, Doubled, TopBitFree;
    if n == 0 {
    } else {
      PassesThrough(u, Shifted(v, n - 1));
      ShiftedIn(BitStep(u), v, n - 1);
    }
  }

  lemma ShiftsAddUp(v: bv32)
    ensures Doubled(v << 1) == v << 2 && Doubled(v << 2) == v << 3 && Doubled(v << 3) == v << 4
    ensures Doubled(v << 4) == v << 5 && Doubled(v << 5) == v << 6 && Doubled(v << 6) == v << 7
    ensures Doubled(v << 7) == Raised(v)
  {
  }

  lemma StaysFree(v: bv32)
    requires TopFree(v)
    ensures TopBitFree(v) && TopBitFree(v << 1) && TopBitFree(v << 2) && TopBitFree(v << 3)
    ensures TopBitFree(v << 4) && TopBitFree(v << 5) && TopBitFree(v << 6) && TopBitFree(v << 7)
  {
  }

  /** Raising by eight places, one at a time: nothing falls off the top. */
  lemma RaisedInSteps(v: bv32)
    requires TopFree(v)
    ensures Raised(v) == Shifted(v, 8) && forall i | 0 <= i < 8 :: TopBitFree(Shifted(v, i))
  {
    ShiftsAddUp(v);
    StaysFree(v);
    hide TopBitFree, TopFree, Raised;
    assert Shifted(v, 0) == v && Shifted(v, 1) == v << 1;
    assert Shifted(v, 2) == v << 2 && Shifted(v, 3) == v << 3;
    assert Shifted(v, 4) == v << 4 && Shifted(v, 5) == v << 5;
    assert Shifted(v, 6) == v << 6 && Shifted(v, 7) == v << 7;
  }

  lemma ShiftedByte(u: bv32, v: bv32)
    requires TopFree(v)
    ensures BitSteps(Xor(u, Raised(v)), 8) == Xor(BitSteps(u, 8), v)
  {
    hide *;
    RaisedInSteps(v);
    ShiftedIn(u, v, 8);
  }

  lemma {:induction false} StepsAdd(c: bv32, m: nat, n: nat)
    ensures BitSteps(c, m + n) == BitSteps(BitSteps(c, m), n)
    decreases m
  {
    hide BitStep;
    if m == 0 {
    } else {
      StepsAdd(BitStep(c), m - 1, n);
    }
  }

  /** Four bytes as one word, the first lowest. */
  function Word(b0: bv8, b1: bv8, b2: bv8, b3: bv8): bv32 {
    (b0 as bv32) ^ ((b1 as bv32) << 8) ^ ((b2 as bv32) << 16) ^ ((b3 as bv32) << 24)
  }

  lemma WordFirst(b0: bv8, b1: bv8, b2: bv8, b3: bv8)
    ensures Word(b0, b1, b2, b3) == Xor(b0 as bv32, Raised(Word(b1, b2, b3, 0)))
  {
  }

  lemma WordRoom(b0: bv8, b1: bv8, b2: bv8)
    ensures TopFree(Word(b0, b1, b2, 0))
  {
  }

  lemma WordParts(c: bv32, b0: bv8, b1: bv8, b2: bv8, b3: bv8)
    ensures Xor(c, Word(b0, b1, b2, b3)) == Xor(Mix(c, b0), Raised(Word(b1, b2, b3, 0)))
    ensures TopFree(Word(b1, b2, b3, 0))
  {
    hide Word, TopFree, Xor, Raised;
    WordFirst(b0, b1, b2, b3);
    WordRoom(b1, b2, b3);
    XorAssociative(c, b0 as bv32, Raised(Word(b1, b2, b3, 0)));
  }

  lemma WordInjective(a0: bv8, a1: bv8, a2: bv8, a3: bv8, b0: bv8, b1: bv8, b2: bv8, b3: bv8)
    requires Word(a0, a1, a2, a3) == Word(b0, b1, b2, b3)
    ensures a0 == b0 && a1 == b1 && a2 == b2 && a3 == b3
  {
  }

  function At(w: Bytes, i: nat): bv8 {
    if i < |w| then w[i] else 0
  }

  function Pack(w: Bytes): bv32 {
    Word(At(w, 0), At(w, 1), At(w, 2), At(w, 3))
  }

  lemma XorNothing(c: bv32)
    ensures Xor(c, Word(0, 0, 0, 0)) == c
  {
  }

  /** Summing up to four bytes is running their bits out of one word. */
  lemma {:induction false} FoldPacked(c: bv32, w: Bytes)
    requires |w| <= 4
    ensures Fold(c, w) == BitSteps(Xor(c, Pack(w)), 8 * |w|)
    decreases |w|
  {
    hide Fold, BitSteps, Xor, Word, Mix, Raised, TopFree;
    if w == [] {
      FoldNone(c);
      XorNothing(c);
      StepsNone(c);
    } else {
      var x, r := w[0], w[1..];
      assert w == [x] + r;
      FoldOne(c, x, r);
      FoldPacked(ByteStep(c, x), r);
      WordParts(c, At(w, 0), At(w, 1), At(w, 2), At(w, 3));
      assert At(r, 0) == At(w, 1) && At(r, 1) == At(w, 2) && At(r, 2) == At(w, 3) && At(r, 3) == 0;
      ShiftedByte(Mix(c, x), Pack(r));
      StepsAdd(Xor(c, Pack(w)), 8, 8 * |r|);
    }
  }

  lemma StepsNone(c: bv32)
    ensures BitSteps(c, 0) == c
  {
  }

  lemma XorInjective(c: bv32, a: bv32, b: bv32)
    requires Xor(c, a) == Xor(c, b)
    ensures a == b
  {
  }

  lemma PackInjective(w: Bytes, v: Bytes)
    requires |w| == |v| <= 4 && Pack(w) == Pack(v)
    ensures w == v
  {
    hide Word;
    WordInjective(At(w, 0), At(w, 1), At(w, 2), At(w, 3), At(v, 0), At(v, 1), At(v, 2), At(v, 3));
    forall i | 0 <= i < |w| ensures w[i] == v[i] { assert At(w, i) == At(v, i); }
  }

  lemma FoldShortInjective(c: bv32, w: Bytes, v: Bytes)
    requires |w| == |v| <= 4 && Fold(c, w) == Fold(c, v)
    ensures w == v
  {
    hide Fold, BitSteps, Xor, Word, Pack;
    FoldPacked(c, w);
    FoldPacked(c, v);
    BitStepsInjective(Xor(c, Pack(w)), Xor(c, Pack(v)), 8 * |w|);
    XorInjective(c, Pack(w), Pack(v));
    PackInjective(w, v);
  }

  /** Any change confined to four adjacent bytes, wherever they lie, changes the checksum. */
  lemma BurstChangesChecksum(a: Bytes, w: Bytes, v: Bytes, b: Bytes)
    requires |w| == |v| <= 4 && w != v
    ensures Checksum(a + w + b) != Checksum(a + v + b)
  {
    hide Checksum, Fold;
    FoldAppend(ONES, a + w, b);
    FoldAppend(ONES, a + v, b);
    FoldAppend(ONES, a, w);
    FoldAppend(ONES, a, v);
    if Checksum(a + w + b) == Checksum(a + v + b) {
      ChecksumTellsFold(a + w + b, Checksum(a + w + b));
      ChecksumTellsFold(a + v + b, Checksum(a + w + b));
      FoldInjective(Fold(ONES, a + w), Fold(ONES, a + v), b);
      FoldShortInjective(Fold(ONES, a), w, v);
    }
  }

  // ---------- a published value ----------

  const FOUR_ZEROES: Bytes := [0, 0, 0, 0]

  lemma FoldZeroes(c: bv32)
    ensures Fold(c, FOUR_ZEROES) == ByteStep(ByteStep(ByteStep(ByteStep(c, 0), 0), 0), 0)
  {
    hide ByteStep;
    assert FOUR_ZEROES[1..] == [0, 0, 0] && [0, 0, 0][1..] == [0, 0] && [0, 0][1..] == [0] && [0][1..] == [];
    var z: bv8 := 0;
    FoldOne(c, z, [z, z, z]);
    FoldOne(ByteStep(c, z), z, [z, z]);
    FoldOne(ByteStep(ByteStep(c, z), z), z, [z]);
    FoldOne(ByteStep(ByteStep(ByteStep(c, z), z), z), z, []);
    assert [z] + [z, z, z] == FOUR_ZEROES && [z] + [z, z] == [z, z, z] && [z] + [z] == [z, z];
  }

  lemma Zeroes0()
    ensures Fold(0xFFFF_FFFF, FOUR_ZEROES) == 0xB798_B438
  {
    FoldZeroes(0xFFFF_FFFF);
    assert ByteStep(0xFFFF_FFFF, 0) == 0xAD82_ACAE;
    assert ByteStep(0xAD82_ACAE, 0) == 0x0E9E_882D;
    assert ByteStep(0x0E9E_882D, 0) == 0x9F9B_5C85;
    assert ByteStep(0x9F9B_5C85, 0) == 0xB798_B438;
  }

  lemma Zeroes4()
    ensures Fold(0xB798_B438, FOUR_ZEROES) == 0x73D7_4D75
  {
    FoldZeroes(0xB798_B438);
    assert ByteStep(0xB798_B438, 0) == 0xBA8D_89CA;
    assert ByteStep(0xBA8D_89CA, 0) == 0xA8D5_8375;
    assert ByteStep(0xA8D5_8375, 0) == 0x44C1_9592;
    assert ByteStep(0x44C1_9592, 0) == 0x73D7_4D75;
  }

  lemma Zeroes8()
    ensures Fold(0x73D7_4D75, FOUR_ZEROES) == 0xD49F_4AA2
  {
    FoldZeroes(0x73D7_4D75);
    assert ByteStep(0x73D7_4D75, 0) == 0x441A_975C;
    assert ByteStep(0x441A_975C, 0) == 0x1C22_0F94;
    assert ByteStep(0x1C22_0F94, 0) == 0x552E_4907;
    assert ByteStep(0x552E_4907, 0) == 0xD49F_4AA2;
  }

  lemma Zeroes12()
    ensures Fold(0xD49F_4AA2, FOUR_ZEROES) == 0xBD8F_6515
  {
    FoldZeroes(0xD49F_4AA2);
    assert ByteStep(0xD49F_4AA2, 0) == 0x43A4_5A1B;
    assert ByteStep(0x43A4_5A1B, 0) == 0x8994_C80E;
    assert ByteStep(0x8994_C80E, 0) == 0xACF1_2BEF;
    assert ByteStep(0xACF1_2BEF, 0) == 0xBD8F_6515;
  }

  lemma Zeroes16()
    ensures Fold(0xBD8F_6515, FOUR_ZEROES) == 0x433A_A9C1
  {
    FoldZeroes(0xBD8F_6515);
    assert ByteStep(0xBD8F_6515, 0) == 0x2512_5C16;
    assert ByteStep(0x2512_5C16, 0) == 0x36DA_32DB;
    assert ByteStep(0x36DA_32DB, 0) == 0x4A6C_90A2;
    assert ByteStep(0x4A6C_90A2, 0) == 0x433A_A9C1;
  }

  lemma Zeroes20()
    ensures Fold(0x433A_A9C1, FOUR_ZEROES) == 0x7B04_1311
  {
    FoldZeroes(0x433A_A9C1);
    assert ByteStep(0x433A_A9C1, 0) == 0x31A5_9F6E;
    assert ByteStep(0x31A5_9F6E, 0) == 0xCD8F_89DA;
    assert ByteStep(0xCD8F_89DA, 0) == 0xB8FC_461A;
    assert ByteStep(0xB8FC_461A, 0) == 0x7B04_1311;
  }

  lemma Zeroes24()
    ensures Fold(0x7B04_1311, FOUR_ZEROES) == 0x0836_3896
  {
    FoldZeroes(0x7B04_1311);
    assert ByteStep(0x7B04_1311, 0) == 0xE24E_407F;
    assert ByteStep(0xE24E_407F, 0) == 0x2F69_2669;
    assert ByteStep(0x2F69_2669, 0) == 0x195B_2188;
    assert ByteStep(0x195B_2188, 0) == 0x0836_3896;
  }

  lemma Zeroes28()
    ensures Fold(0x0836_3896, FOUR_ZEROES) == 0x756E_C955
  {
    FoldZeroes(0x0836_3896);
    assert ByteStep(0x0836_3896, 0) == 0xB401_2DC7;
    assert ByteStep(0xB401_2DC7, 0) == 0x17F3_4302;
    assert ByteStep(0x17F3_4302, 0) == 0xE12C_83B4;
    assert ByteStep(0xE12C_83B4, 0) == 0x756E_C955;
  }

  /** Thirty-two zero bytes have the checksum printed in section B.4 of RFC 3720: aa 36 91 8a, first byte lowest. */
  lemma ZeroesChecksum()
    ensures Checksum(seq(32, i => 0)) == 0x8A91_36AA
  {
    hide Fold;
    var z := FOUR_ZEROES;
    Zeroes0();
    Zeroes4();
    Zeroes8();
    Zeroes12();
    Zeroes16();
    Zeroes20();
    Zeroes24();
    Zeroes28();
    FoldAppend(ONES, z, z);
    FoldAppend(ONES, z + z, z);
    FoldAppend(ONES, z + z + z, z);
    FoldAppend(ONES, z + z + z + z, z);
    FoldAppend(ONES, z + z + z + z + z, z);
    FoldAppend(ONES, z + z + z + z + z + z, z);
    FoldAppend(ONES, z + z + z + z + z + z + z, z);
    assert z + z + z + z + z + z + z + z == seq(32, i => 0);
  }

  /** The running checksum: any number of writes sums up what was written in all. */
  class Hasher {
    var sum: bv32
    ghost var written: Bytes

    ghost predicate Valid()
      reads this
    {
      sum == Checksum(written)
    }

    constructor ()
      ensures Valid() && written == []
    {
      sum, written := 0, [];
    }

    method Write(p: Bytes)
      requires Valid()
      modifies this
      ensures Valid() && written == old(written) + p
    {
      hide Fold, Complement;
      ChecksumTellsFold(written, sum);
      FoldAppend(ONES, written, p);
      var c := Update(Complement(sum), p);
      sum, written := Complement(c), written + p;
    }
  }

  method Update(start: bv32, p: Bytes) returns (c: bv32)
    ensures c == Fold(start, p)
  {
    hide Fold, ByteStep;
    c := start;
    FoldNone(start);
    for i := 0 to |p|
      invariant c == Fold(start, p[..i])
    {
      assert p[..i + 1] == p[..i] + [p[i]];
      FoldAppend(start, p[..i], [p[i]]);
      FoldOne(c, p[i], []);
      c := ByteStep(c, p[i]);
    }
    assert p[..|p|] == p;
  }
}
