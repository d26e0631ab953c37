/**
 The HyperLogLog sketch. The estimate itself is floating point and not modelled; what is proved
 is that the registers are a function of the set of keys.
 */
module Hll {
  import opened Prelude
  import opened Bytes
  import opened Words64

  const PRECISION: nat := 14
  const REGISTERS: nat := 16_384
  const MAX_RANK: nat := 51

  // ----- The mixer --------------------------------------------------------------------------------------

  const GAMMA: word := 0x9e37_79b9_7f4a_7c15
  const FIRST: word := 0xbf58_476d_1ce4_e5b9
  const SECOND: word := 0x94d0_49bb_1331_11eb

  /** SplitMix64's finaliser. */
  function Mix64(z: word): word {
    ShiftXor(Mul(ShiftXor(Mul(ShiftXor(Add(z, GAMMA), 30), FIRST), 27), SECOND), 31)
  }

  // The multipliers' inverses modulo 2^64.
  const FIRST_INVERSE: word := 0x96de_1b17_3f11_9089
  const SECOND_INVERSE: word := 0x3196_42b2_d24d_8ec3

  /** The steps of `Mix64` undone in reverse order. */
  function Unmix64(h: word): word {
    Add(UnshiftXor(Mul(UnshiftXor(Mul(UnshiftXor(h, 31), SECOND_INVERSE), 27), FIRST_INVERSE), 30), MODULUS - GAMMA)
  }

  lemma InverseMultipliers()
    ensures (FIRST * FIRST_INVERSE) % MODULUS == 1 && (SECOND * SECOND_INVERSE) % MODULUS == 1
    ensures (FIRST_INVERSE * FIRST) % MODULUS == 1 && (SECOND_INVERSE * SECOND) % MODULUS == 1
  {
  }

  lemma MixThenUnmix(z: word)
    ensures Unmix64(Mix64(z)) == z
  {
    var a := Add(z, GAMMA);
    var x := ShiftXor(a, 30);
    var b := Mul(x, FIRST);
    var y := ShiftXor(b, 27);
    InverseMultipliers();
    ShiftXorIsBijective(Mul(y, SECOND), 31);
    MulCancels(y, SECOND, SECOND_INVERSE);
    ShiftXorIsBijective(b, 27);
    MulCancels(x, FIRST, FIRST_INVERSE);
    ShiftXorIsBijective(a, 30);
    AddIsBijective(z, GAMMA);
  }

  lemma UnmixThenMix(h: word)
    ensures Mix64(Unmix64(h)) == h
  {
    var c := UnshiftXor(h, 31);
    var d := Mul(c, SECOND_INVERSE);
    var b := UnshiftXor(d, 27);
    var e := Mul(b, FIRST_INVERSE);
    InverseMultipliers();
    AddIsBijective(UnshiftXor(e, 30), GAMMA);
    ShiftXorIsBijective(e, 30);
    MulCancels(b, FIRST_INVERSE, FIRST);
    ShiftXorIsBijective(d, 27);
    MulCancels(c, SECOND_INVERSE, SECOND);
    ShiftXorIsBijective(h, 31);
  }

  /** `mix64` is a bijection on 64-bit words. */
  lemma MixIsBijective(z: word, w: word)
    ensures Mix64(z) == Mix64(w) ==> z == w
    ensures exists v: word :: Mix64(v) == z
  {
    MixThenUnmix(z);
    MixThenUnmix(w);
    UnmixThenMix(z);
  }

  // ----- Register and rank of a hash ----------------------------------------------------------------------

  /** Leading zeros of `x` as a word of `width` bits. */
  function LeadingZeros(x: nat, width: nat): nat {
    if width == 0 || x >= Pow2(width - 1) then 0 else 1 + LeadingZeros(x, width - 1)
  }

  /** They say where the highest set bit is. */
  lemma {:induction false} LeadingZerosIff(x: nat, width: nat, n: nat)
    requires x < Pow2(width) && n < width
    ensures LeadingZeros(x, width) == n <==> Pow2(width - n - 1) <= x < Pow2(width - n)
    decreases width
  {
    if x < Pow2(width - 1) {
      if n > 0 {
        LeadingZerosIff(x, width - 1, n - 1);
      }
    } else if n > 0 {
      PowersGrow(width - n, width - 1);
    }
  }

  lemma {:induction false} FewLeadingZeros(x: nat, width: nat, k: nat)
    requires x >= Pow2(k) && k < width
    ensures LeadingZeros(x, width) <= width - 1 - k
    decreases width
  {
    if x < Pow2(width - 1) && k < width - 1 {
      FewLeadingZeros(x, width - 1, k);
    }
  }

  /** The top 14 bits. */
  function Index(h: word): (i: nat)
    ensures i < REGISTERS
  {
    h / 0x4_0000_0000_0000
  }

  /** The other bits, shifted to the top of the word. */
  function Rest(h: word): word { Mul(h, 0x4000) }

  function RankOf(h: word): nat {
    if Rest(h) == 0 then 64 - PRECISION + 1 else LeadingZeros(Rest(h), 64) + 1
  }

  lemma RestIsShifted(h: word)
    ensures Rest(h) == (h % 0x4_0000_0000_0000) * 0x4000
  {
    var q, r := h / 0x4_0000_0000_0000, h % 0x4_0000_0000_0000;
    assert h * 0x4000 == q * MODULUS + r * 0x4000;
  }

  /** A rank is at least 1 and never above 51. */
  lemma RankIsBounded(h: word)
    ensures 1 <= RankOf(h) <= MAX_RANK
  {
    RestIsShifted(h);
    SmallPowers();
    if Rest(h) != 0 {
      FewLeadingZeros(Rest(h), 64, 14);
    }
  }

  /** The register is the hash's top 14 bits. */
  lemma IndexIsTop(h: word)
    ensures Index(h) * 0x4_0000_0000_0000 <= h < (Index(h) + 1) * 0x4_0000_0000_0000
  {
  }

  lemma ShiftedBounds(low: nat, m: nat)
    ensures Pow2(m + 14) <= low * 0x4000 <==> Pow2(m) <= low
    ensures low * 0x4000 < Pow2(m + 14) <==> low < Pow2(m)
  {
    PowersMultiply(m, 14);
    SmallPowers();
  }

  /** Fifty bits at the top of a word lead with the zeros they have themselves. */
  lemma LeadingOfShifted(low: nat, r: nat)
    requires 1 <= r <= 50 && 0 < low < Pow2(50)
    ensures LeadingZeros(low * 0x4000, 64) == r - 1 <==> Pow2(50 - r) <= low < Pow2(51 - r)
    ensures low * 0x4000 < Pow2(64) && LeadingZeros(low * 0x4000, 64) < 50
  {
    hide LeadingZeros;
    SmallPowers();
    LeadingZerosIff(low * 0x4000, 64, r - 1);
    FewLeadingZeros(low * 0x4000, 64, 14);
    ShiftedBounds(low, 50 - r);
    ShiftedBounds(low, 51 - r);
  }

  /** The rank says where the highest bit of the other 50 is: rank 1 for the top one, 50 for the
      lowest, 51 for none. */
  lemma RankIff(h: word, r: nat)
    requires 1 <= r <= 50
    ensures var low := h % 0x4_0000_0000_0000;
      (RankOf(h) == r <==> Pow2(50 - r) <= low < Pow2(51 - r)) && (RankOf(h) == 51 <==> low == 0)
  {
    hide LeadingZeros, Rest, Pow2;
    var low := h % 0x4_0000_0000_0000;
    RestIsShifted(h);
    SmallPowers();
    if low != 0 {
      LeadingOfShifted(low, r);
    }
  }

  // ----- Sketches -----------------------------------------------------------------------------------------

  /** A 32-byte key. */
  type Key = s: seq<byte> | |s| == 32 witness seq(32, _ => 0)

  function HashOf(key: Key): word {
    LittleEndianBound(key[..8]);
    assert Power256(8) == MODULUS by {
      assert Power256(2) == 0x1_0000 && Power256(4) == 0x1_0000_0000;
      assert Power256(6) == 0x1_0000_0000_0000;
    }
    Mix64(LittleEndian(key[..8]))
  }

  /** The first eight bytes of a key, the first the least significant, mixed. */
  lemma HashIsOfEightBytes(key: Key)
    ensures var b := seq(8, i requires 0 <= i < 8 => key[i] as int);
      HashOf(key) == Mix64(b[0] + 0x100 * b[1] + 0x1_0000 * b[2] + 0x100_0000 * b[3] + 0x1_0000_0000 * b[4]
                           + 0x100_0000_0000 * b[5] + 0x1_0000_0000_0000 * b[6] + 0x100_0000_0000_0000 * b[7])
  {
    hide Mix64;
    forall k: nat | k < 8 ensures LittleEndian(key[k..8]) == key[k] + 256 * LittleEndian(key[k + 1..8]) {
      assert key[k..8][1..] == key[k + 1..8];
    }
    assert LittleEndian(key[8..8]) == 0;
    assert key[0..8] == key[..8];
  }

  function Slot(key: Key): (i: nat)
    ensures i < REGISTERS
  {
    Index(HashOf(key))
  }

  function Rank(key: Key): (r: nat)
    ensures 1 <= r <= MAX_RANK
  {
    RankIsBounded(HashOf(key));
    RankOf(HashOf(key))
  }

  /** Every register holds the highest rank of any key that selects it, and zero if none does. */
  ghost predicate IsSketch(regs: seq<nat>, keys: set<Key>) {
    && |regs| == REGISTERS
    && (forall key :: key in keys ==> Rank(key) <= regs[Slot(key)])
    && (forall i :: 0 <= i < REGISTERS && regs[i] > 0 ==> Reached(keys, i, regs[i]))
  }

  ghost predicate Reached(keys: set<Key>, i: nat, rank: nat) {
    exists key :: key in keys && Slot(key) == i && Rank(key) == rank
  }

  function Empty(): (regs: seq<nat>)
    ensures |regs| == REGISTERS && forall i :: 0 <= i < REGISTERS ==> regs[i] == 0
  {
    seq(REGISTERS, _ => 0)
  }

  function Inserted(regs: seq<nat>, key: Key): (r: seq<nat>)
    requires |regs| == REGISTERS
    ensures |r| == REGISTERS
  {
    if Rank(key) > regs[Slot(key)] then regs[Slot(key) := Rank(key)] else regs
  }

  function Merged(a: seq<nat>, b: seq<nat>): (r: seq<nat>)
    requires |a| == |b|
    ensures |r| == |a| && forall i :: 0 <= i < |a| ==> r[i] == Max(a[i], b[i])
  {
    seq(|a|, i requires 0 <= i < |a| => Max(a[i], b[i]))
  }

  lemma SketchAtMost(a: seq<nat>, b: seq<nat>, keys: set<Key>, i: nat)
    requires IsSketch(a, keys) && IsSketch(b, keys) && i < REGISTERS
    ensures a[i] <= b[i]
  {
    if a[i] > 0 {
      var key :| key in keys && Slot(key) == i && Rank(key) == a[i];
    }
  }

  /** The registers are a function of the key set. */
  lemma SketchIsUnique(a: seq<nat>, b: seq<nat>, keys: set<Key>)
    requires IsSketch(a, keys) && IsSketch(b, keys)
    ensures a == b
  {
    forall i | 0 <= i < REGISTERS ensures a[i] == b[i] {
      SketchAtMost(a, b, keys, i);
      SketchAtMost(b, a, keys, i);
    }
  }

  lemma ReachedGrows(keys: set<Key>, more: set<Key>, i: nat, rank: nat)
    requires Reached(keys, i, rank) && keys <= more
    ensures Reached(more, i, rank)
  {
    var key :| key in keys && Slot(key) == i && Rank(key) == rank;
  }

  lemma InsertRaisesOne(regs: seq<nat>, key: Key)
    requires |regs| == REGISTERS
    ensures var next := Inserted(regs, key);
      && Rank(key) <= next[Slot(key)]
      && forall i :: 0 <= i < REGISTERS ==>
        regs[i] <= next[i] && (next[i] == regs[i] || (i == Slot(key) && next[i] == Rank(key)))
  {
  }

  lemma InsertIsReached(regs: seq<nat>, keys: set<Key>, key: Key, i: nat)
    requires IsSketch(regs, keys) && i < REGISTERS && Inserted(regs, key)[i] > 0
    ensures Reached(keys + {key}, i, Inserted(regs, key)[i])
  {
    InsertRaisesOne(regs, key);
    if Inserted(regs, key)[i] == regs[i] {
      ReachedGrows(keys, keys + {key}, i, regs[i]);
    } else {
      assert key in keys + {key};
    }
  }

  lemma InsertBounds(regs: seq<nat>, keys: set<Key>, key: Key, k: Key)
    requires IsSketch(regs, keys) && (k in keys || k == key)
    ensures Rank(k) <= Inserted(regs, key)[Slot(k)]
  {
    InsertRaisesOne(regs, key);
  }

  lemma InsertAddsKey(regs: seq<nat>, keys: set<Key>, key: Key)
    requires IsSketch(regs, keys)
    ensures IsSketch(Inserted(regs, key), keys + {key})
  {
    var next := Inserted(regs, key);
    forall i | 0 <= i < REGISTERS && next[i] > 0 ensures Reached(keys + {key}, i, next[i]) {
      InsertIsReached(regs, keys, key, i);
    }
    forall k | k in keys + {key} ensures Rank(k) <= next[Slot(k)] {
      InsertBounds(regs, keys, key, k);
    }
  }

  /** Inserting a key that is already there changes nothing. */
  lemma PresentKeyIsIgnored(regs: seq<nat>, keys: set<Key>, key: Key)
    requires IsSketch(regs, keys) && key in keys
    ensures Inserted(regs, key) == regs
  {
  }

  /** Merging is union. */
  lemma MergeIsUnion(a: seq<nat>, b: seq<nat>, aKeys: set<Key>, bKeys: set<Key>)
    requires IsSketch(a, aKeys) && IsSketch(b, bKeys)
    ensures IsSketch(Merged(a, b), aKeys + bKeys)
  {
    hide Reached, Slot, Rank;
    var r := Merged(a, b);
    forall i | 0 <= i < REGISTERS && r[i] > 0 ensures Reached(aKeys + bKeys, i, r[i]) {
      if r[i] == a[i] {
        ReachedGrows(aKeys, aKeys + bKeys, i, a[i]);
      } else {
        ReachedGrows(bKeys, aKeys + bKeys, i, b[i]);
      }
    }
  }

  /** Merge is associative, commutative and idempotent, on any registers. */
  lemma MergeIsSemilattice(a: seq<nat>, b: seq<nat>, c: seq<nat>)
    requires |a| == |b| == |c|
    ensures Merged(Merged(a, b), c) == Merged(a, Merged(b, c))
    ensures Merged(a, b) == Merged(b, a) && Merged(a, a) == a
  {
  }

  function InsertAll(regs: seq<nat>, stream: seq<Key>): (r: seq<nat>)
    requires |regs| == REGISTERS
    ensures |r| == REGISTERS
  {
    if stream == [] then regs else Inserted(InsertAll(regs, stream[..|stream| - 1]), stream[|stream| - 1])
  }

  function KeysOf(stream: seq<Key>): (keys: set<Key>)
    ensures forall key :: key in keys <==> key in stream
  {
    if stream == [] then {} else KeysOf(stream[..|stream| - 1]) + {stream[|stream| - 1]}
  }

  lemma {:induction false} StreamIsSketched(stream: seq<Key>)
    ensures IsSketch(InsertAll(Empty(), stream), KeysOf(stream))
    decreases |stream|
  {
    if stream != [] {
      var init := stream[..|stream| - 1];
      StreamIsSketched(init);
      InsertAddsKey(InsertAll(Empty(), init), KeysOf(init), stream[|stream| - 1]);
    }
  }

  /** Any order, any repeats: the same keys give the same registers. */
  lemma OrderAndRepeatsDoNotMatter(stream: seq<Key>, other: seq<Key>)
    requires forall key :: key in stream <==> key in other
    ensures InsertAll(Empty(), stream) == InsertAll(Empty(), other)
  {
    StreamIsSketched(stream);
    StreamIsSketched(other);
    assert KeysOf(stream) == KeysOf(other);
    SketchIsUnique(InsertAll(Empty(), stream), InsertAll(Empty(), other), KeysOf(stream));
  }

  /** Sketching two streams apart and merging is sketching them together. */
  lemma MergeIsConcatenation(stream: seq<Key>, other: seq<Key>)
    ensures Merged(InsertAll(Empty(), stream), InsertAll(Empty(), other)) == InsertAll(Empty(), stream + other)
  {
    StreamIsSketched(stream);
    StreamIsSketched(other);
    StreamIsSketched(stream + other);
    assert KeysOf(stream + other) == KeysOf(stream) + KeysOf(other);
    MergeIsUnion(InsertAll(Empty(), stream), InsertAll(Empty(), other), KeysOf(stream), KeysOf(other));
    SketchIsUnique(Merged(InsertAll(Empty(), stream), InsertAll(Empty(), other)), InsertAll(Empty(), stream + other),
                   KeysOf(stream + other));
  }

  // ----- The sketch in place --------------------------------------------------------------------------------

  class Sketch {
    const registers: array<nat>

    ghost predicate Valid()
      reads this
    {
      registers.Length == REGISTERS
    }

    constructor ()
      ensures Valid() && fresh(registers) && registers[..] == Empty()
    {
      registers := new nat[REGISTERS](_ => 0);
      new;
      assert registers[..] == Empty();
    }

    /** `insert`: true exactly when the registers changed. */
    method Insert(key: Key) returns (changed: bool)
      requires Valid()
      modifies registers
      ensures registers[..] == Inserted(old(registers[..]), key)
      ensures changed <==> registers[..] != old(registers[..])
    {
      var i, rank := Slot(key), Rank(key);
      ghost var was := registers[..];
      changed := rank > registers[i];
      if changed {
        registers[i] := rank;
        assert registers[..] == was[i := rank];
        assert registers[..][i] != was[i];
      }
    }

    /** `merge`: register-wise maximum, also with itself. */
    method Merge(other: Sketch)
      requires Valid() && other.Valid()
      modifies registers
      ensures registers[..] == Merged(old(registers[..]), old(other.registers[..]))
    {
      for i := 0 to registers.Length
        invariant forall k :: 0 <= k < i ==> registers[k] == Max(old(registers[k]), old(other.registers[k]))
        invariant forall k :: i <= k < registers.Length ==>
          registers[k] == old(registers[k]) && other.registers[k] == old(other.registers[k])
      {
        if other.registers[i] > registers[i] {
          registers[i] := other.registers[i];
        }
      }
    }
  }
}
