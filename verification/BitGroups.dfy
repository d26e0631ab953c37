/** Regrouping bits: values of one width spread into bits and collected at another. */
module BitGroups {
  import opened Words64

  type bit = x: int | 0 <= x < 2

  /** The lowest `w` bits of `v`, highest first. */
  function ToBits(v: nat, w: nat): (b: seq<bit>)
    ensures |b| == w
  {
    if w == 0 then [] else ToBits(v / 2, w - 1) + [v % 2]
  }

  /** The number a bit string spells, highest bit first. */
  function FromBits(b: seq<bit>): nat {
    if b == [] then 0 else FromBits(b[..|b| - 1]) * 2 + b[|b| - 1]
  }

  /** All values' bits, one after the other. */
  function Spread(values: seq<nat>, w: nat): (b: seq<bit>)
    ensures |b| == |values| * w
  {
    if values == [] then []
    else
      assert |values| * w == w + (|values| - 1) * w;
      ToBits(values[0], w) + Spread(values[1..], w)
  }

  /** Whole groups of `w` bits; a shorter rest is dropped. */
  function Chunks(b: seq<bit>, w: nat): seq<nat>
    requires w > 0
    decreases |b|
  {
    if |b| < w then [] else [FromBits(b[..w])] + Chunks(b[w..], w)
  }

  /** Zeros up to a multiple of five bits. */
  function Padding(n: nat): (b: seq<bit>)
    ensures |b| < 5 && (n + |b|) % 5 == 0
  {
    Zeros((5 - n % 5) % 5)
  }

  function Zeros(n: nat): (b: seq<bit>)
    ensures |b| == n
  {
    if n == 0 then [] else [0] + Zeros(n - 1)
  }

  lemma {:induction false} BitsRoundTrip(v: nat, w: nat)
    requires v < Pow2(w)
    ensures FromBits(ToBits(v, w)) == v
    decreases w
  {
    if w > 0 {
      BitsRoundTrip(v / 2, w - 1);
      assert ToBits(v, w)[..w - 1] == ToBits(v / 2, w - 1);
    }
  }

  lemma {:induction false} NumberRoundTrip(b: seq<bit>)
    ensures ToBits(FromBits(b), |b|) == b && FromBits(b) < Pow2(|b|)
    decreases |b|
  {
    if b != [] {
      NumberRoundTrip(b[..|b| - 1]);
      LastBitOf(FromBits(b[..|b| - 1]), b[|b| - 1], |b|);
      assert b == b[..|b| - 1] + [b[|b| - 1]];
    }
  }

  lemma LastBitOf(x: nat, last: bit, w: nat)
    requires w > 0
    ensures ToBits(x * 2 + last, w) == ToBits(x, w - 1) + [last]
    ensures x < Pow2(w - 1) ==> x * 2 + last < Pow2(w)
  {
    assert (x * 2 + last) / 2 == x && (x * 2 + last) % 2 == last;
  }

  /** Bits come highest first. */
  lemma {:induction false} BitAt(v: nat, w: nat, k: nat)
    requires k < w
    ensures ToBits(v, w)[k] == Shr(v, w - 1 - k) % 2
    decreases w
  {
    if k < w - 1 {
      BitAt(v / 2, w - 1, k);
    }
  }

  /** Bit `k` of value `i`, in the bits of all values. */
  lemma {:induction false} SpreadAt(values: seq<nat>, w: nat, i: nat, k: nat)
    requires i < |values| && k < w
    ensures i * w + k < |Spread(values, w)| && Spread(values, w)[i * w + k] == Shr(values[i], w - 1 - k) % 2
    decreases i
  {
    BitAt(values[i], w, k);
    if i == 0 {
      PlaceInRest(|values|, 0, w, k);
      assert Spread(values, w)[k] == ToBits(values[0], w)[k];
    } else {
      SpreadAt(values[1..], w, i - 1, k);
      PlaceInRest(|values|, i, w, k);
      assert Spread(values, w)[w + ((i - 1) * w + k)] == Spread(values[1..], w)[(i - 1) * w + k];
    }
  }

  lemma PlaceInRest(n: nat, i: nat, w: nat, k: nat)
    requires i < n && k < w
    ensures i * w + k < n * w && (i > 0 ==> i * w + k == w + ((i - 1) * w + k))
  {
    SplitProduct(n - i, i, w);
    AtLeastOnce(n - i, w);
    if i > 0 {
      SplitProduct(1, i - 1, w);
    }
  }

  lemma SplitProduct(a: nat, b: nat, w: nat)
    ensures (a + b) * w == a * w + b * w
  {
  }

  lemma AtLeastOnce(a: nat, w: nat)
    requires a >= 1
    ensures a * w >= w
  {
    SplitProduct(a - 1, 1, w);
  }

  lemma ChunkHead(v: nat, w: nat, rest: seq<bit>)
    requires w > 0 && v < Pow2(w)
    ensures Chunks(ToBits(v, w) + rest, w) == [v] + Chunks(rest, w)
  {
    var b := ToBits(v, w) + rest;
    assert b[..w] == ToBits(v, w) && b[w..] == rest;
    BitsRoundTrip(v, w);
  }

  /** Values come back from their bits, whatever shorter tail follows. */
  lemma {:induction false} SpreadThenChunk(values: seq<nat>, w: nat, tail: seq<bit>)
    requires w > 0 && |tail| < w && forall i :: 0 <= i < |values| ==> values[i] < Pow2(w)
    ensures Chunks(Spread(values, w) + tail, w) == values
    decreases |values|
  {
    if values == [] {
      assert Spread(values, w) + tail == tail;
    } else {
      var rest := Spread(values[1..], w);
      SpreadThenChunk(values[1..], w, tail);
      assert Spread(values, w) + tail == ToBits(values[0], w) + (rest + tail);
      ChunkHead(values[0], w, rest + tail);
      assert values == [values[0]] + values[1..];
    }
  }

  lemma {:induction false} ChunkThenSpread5(b: seq<bit>)
    requires |b| % 5 == 0
    ensures Spread(Chunks(b, 5), 5) == b && forall i :: 0 <= i < |Chunks(b, 5)| ==> Chunks(b, 5)[i] < 32
    decreases |b|
  {
    if |b| >= 5 {
      var rest := Chunks(b[5..], 5);
      ChunkThenSpread5(b[5..]);
      NumberRoundTrip(b[..5]);
      Pow5();
      assert ([FromBits(b[..5])] + rest)[1..] == rest;
      assert b == b[..5] + b[5..];
    }
  }

  lemma Pow5()
    ensures Pow2(5) == 32 && Pow2(8) == 256
  {
    assert Pow2(3) == 8;
    assert Pow2(6) == 64;
  }

  /** BIP-173: bytes regrouped into 5-bit values, padded with zeros. */
  function To5(bytes: seq<nat>): seq<nat> {
    Chunks(Spread(bytes, 8) + Padding(|bytes| * 8), 5)
  }

  /** The decoder's regrouping: 5-bit values back into whole bytes. */
  function To8(values: seq<nat>): seq<nat> {
    Chunks(Spread(values, 5), 8)
  }

  /** Padding to fives and regrouping into eights is the identity on every byte string. */
  lemma RegroupIsIdentity(bytes: seq<nat>)
    requires forall i :: 0 <= i < |bytes| ==> bytes[i] < 256
    ensures To8(To5(bytes)) == bytes && forall i :: 0 <= i < |To5(bytes)| ==> To5(bytes)[i] < 32
  {
    Pow5();
    var pad := Padding(|bytes| * 8);
    ChunkThenSpread5(Spread(bytes, 8) + pad);
    SpreadThenChunk(bytes, 8, pad);
  }
}
