/** The bit arithmetic of one byte of the frame bitmap. */
module Bits {

  // (uint8_t)(1u << k)
  function Mask(k: nat): bv8
    requires k < 8
  {
    (1 as bv8) << k
  }

  predicate IsSet(b: bv8, k: nat)
    requires k < 8
  {
    b & Mask(k) != 0
  }

  lemma SetBit(b: bv8, k: nat, j: nat)
    requires k < 8 && j < 8
    ensures IsSet(b | Mask(k), j) <==> j == k || IsSet(b, j)
  {
    MaskValue(k);
    MaskValue(j);
  }

  lemma ClearBit(b: bv8, k: nat, j: nat)
    requires k < 8 && j < 8
    ensures IsSet(b & !Mask(k), j) <==> j != k && IsSet(b, j)
  {
    MaskValue(k);
    MaskValue(j);
  }

  lemma MaskValue(k: nat)
    requires k < 8
    ensures Mask(k) == [1, 2, 4, 8, 16, 32, 64, 128][k]
  {
    assert (1 as bv8) << 0 == 1;
    assert (1 as bv8) << 1 == 2;
    assert (1 as bv8) << 2 == 4;
    assert (1 as bv8) << 3 == 8;
    assert (1 as bv8) << 4 == 16;
    assert (1 as bv8) << 5 == 32;
    assert (1 as bv8) << 6 == 64;
    assert (1 as bv8) << 7 == 128;
  }

  // Bit number f of a byte sequence.
  predicate BitAt(bytes: seq<bv8>, f: nat)
    requires f / 8 < |bytes|
  {
    IsSet(bytes[f / 8], f % 8)
  }

  // The byte sequence `bytes` stores the bit sequence `bits`, eight bits to a byte.
  ghost predicate Stores(bytes: seq<bv8>, bits: seq<bool>) {
    && |bytes| == (|bits| + 7) / 8
    && forall f {:trigger BitAt(bytes, f)} :: 0 <= f < |bits| ==> bits[f] == BitAt(bytes, f)
  }

  lemma SetStores(bytes: seq<bv8>, bits: seq<bool>, frame: nat)
    requires Stores(bytes, bits) && frame < |bits|
    ensures Stores(bytes[frame / 8 := bytes[frame / 8] | Mask(frame % 8)], bits[frame := true])
  {
    var bytes' := bytes[frame / 8 := bytes[frame / 8] | Mask(frame % 8)];
    forall f | 0 <= f < |bits|
      ensures bits[frame := true][f] == BitAt(bytes', f)
    {
      assert bits[f] == BitAt(bytes, f);
      SetBit(bytes[frame / 8], frame % 8, f % 8);
    }
  }

  lemma ClearStores(bytes: seq<bv8>, bits: seq<bool>, frame: nat)
    requires Stores(bytes, bits) && frame < |bits|
    ensures Stores(bytes[frame / 8 := bytes[frame / 8] & !Mask(frame % 8)], bits[frame := false])
  {
    var bytes' := bytes[frame / 8 := bytes[frame / 8] & !Mask(frame % 8)];
    forall f | 0 <= f < |bits|
      ensures bits[frame := false][f] == BitAt(bytes', f)
    {
      assert bits[f] == BitAt(bytes, f);
      ClearBit(bytes[frame / 8], frame % 8, f % 8);
    }
  }

  // Bytes of all ones: every frame is in use.
  lemma AllOnesStore(bytes: seq<bv8>, n: nat)
    requires |bytes| == (n + 7) / 8 && forall i :: 0 <= i < |bytes| ==> bytes[i] == 0xFF
    ensures Stores(bytes, seq(n, _ => true))
  {
    forall f | 0 <= f < n
      ensures BitAt(bytes, f)
    {
      MaskValue(f % 8);
    }
  }
}
