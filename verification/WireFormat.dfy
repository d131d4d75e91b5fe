/** The frames of the sync protocol, field by field. */
module WireFormat {
  import opened ByteCodec
  import opened WireCodec
  import opened CanonicalFormat

  /** A list of keys from `o` on: their number, then 32 bytes each. */
  ghost predicate KeysAt(b: Bytes, o: nat, keys: seq<Hash>) {
    && U32At(b, o, |keys|)
    && forall i :: 0 <= i < |keys| ==> Holds(b, o + 4 + 32 * i, keys[i])
  }

  /** Where entry `i` starts: each takes its key, the length of its bytes and the bytes. */
  function EntryOffset(pairs: seq<(Hash, Bytes)>, i: nat): nat
    requires i <= |pairs|
  {
    if i == 0 then 0 else EntryOffset(pairs, i - 1) + 36 + |pairs[i - 1].1|
  }

  ghost predicate EntryAt(b: Bytes, o: nat, pair: (Hash, Bytes)) {
    Holds(b, o, pair.0) && U32At(b, o + 32, |pair.1|) && Holds(b, o + 36, pair.1)
  }

  /** The frame of a message: the length of what follows, a tag and the fields of the message. */
  ghost predicate FrameOf(b: Bytes, m: Msg) {
    |b| > 4 && U32At(b, 0, |b| - 4) &&
    match m
    case Want(keys) => b[4] == 0x10 && KeysAt(b, 5, keys) && |b| == 9 + 32 * |keys|
    case Have(keys) => b[4] == 0x11 && KeysAt(b, 5, keys) && |b| == 9 + 32 * |keys|
    case Blobs(pairs) =>
      && b[4] == 0x90 && U32At(b, 5, |pairs|) && |b| == 9 + EntryOffset(pairs, |pairs|)
      && forall i :: 0 <= i < |pairs| ==> EntryAt(b, 9 + EntryOffset(pairs, i), pairs[i])
    case Held(bits) =>
      && b[4] == 0x91 && U32At(b, 5, |bits|) && |b| == 9 + |bits|
      && forall i :: 0 <= i < |bits| ==> b[9 + i] == if bits[i] then 1 else 0
    case Failed(kind, why) =>
      b[4] == 0x9F && |b| == 10 + |why| && b[5] == kind && U32At(b, 6, |why|) && Holds(b, 10, why)
  }

  lemma {:induction false} FlatAt(b: Bytes, o: nat, keys: seq<Hash>)
    requires Holds(b, o, Flat(keys))
    ensures |Flat(keys)| == 32 * |keys| && forall i :: 0 <= i < |keys| ==> Holds(b, o + 32 * i, keys[i])
    decreases |keys|
  {
    hide Holds;
    if keys != [] {
      HoldsConcat(b, o, keys[0], Flat(keys[1..]));
      FlatAt(b, o + 32, keys[1..]);
      forall i | 0 <= i < |keys|
        ensures Holds(b, o + 32 * i, keys[i])
      {
        if i > 0 { assert keys[i] == keys[1..][i - 1] && o + 32 + 32 * (i - 1) == o + 32 * i; }
      }
    }
  }

  lemma {:induction false} BitsAt(b: Bytes, o: nat, bits: seq<bool>)
    requires Holds(b, o, EncodeBits(bits))
    ensures |EncodeBits(bits)| == |bits| && o + |bits| <= |b|
    ensures forall i :: 0 <= i < |bits| ==> b[o + i] == if bits[i] then 1 else 0
    decreases |bits|
  {
    if bits != [] {
      HoldsConcat(b, o, [Bit(bits[0])], EncodeBits(bits[1..]));
      HeldAt(b, o, [Bit(bits[0])], 0);
      BitsAt(b, o + 1, bits[1..]);
      forall i | 0 <= i < |bits|
        ensures b[o + i] == if bits[i] then 1 else 0
      {
        if i > 0 { assert bits[i] == bits[1..][i - 1] && b[o + 1 + (i - 1)] == b[o + i]; }
      }
    }
  }

  lemma {:induction false} OffsetCons(p: (Hash, Bytes), pairs: seq<(Hash, Bytes)>, i: nat)
    requires i <= |pairs|
    ensures EntryOffset([p] + pairs, i + 1) == 36 + |p.1| + EntryOffset(pairs, i)
    decreases i
  {
    if i == 0 {
      assert EntryOffset([p] + pairs, 0) == 0;
    } else {
      OffsetCons(p, pairs, i - 1);
      assert ([p] + pairs)[i] == pairs[i - 1];
    }
  }

  lemma {:induction false} PairsAt(b: Bytes, o: nat, pairs: seq<(Hash, Bytes)>)
    requires EncodePairs(pairs).Fine? && Holds(b, o, EncodePairs(pairs).value)
    ensures |EncodePairs(pairs).value| == EntryOffset(pairs, |pairs|)
    ensures forall i :: 0 <= i < |pairs| ==> EntryAt(b, o + EntryOffset(pairs, i), pairs[i])
    decreases |pairs|
  {
    hide Holds, U32At, Le32, EntryOffset;
    if pairs == [] {
      NoOffset(pairs);
    } else {
      var p, rest := pairs[0], EncodePairs(pairs[1..]).value;
      assert pairs == [p] + pairs[1..];
      HoldsConcat(b, o, p.0, Le32(|p.1|) + (p.1 + rest));
      HoldsConcat(b, o + 32, Le32(|p.1|), p.1 + rest);
      HoldsConcat(b, o + 36, p.1, rest);
      Le32At(b, o + 32, |p.1|);
      PairsAt(b, o + 36 + |p.1|, pairs[1..]);
      OffsetCons(p, pairs[1..], |pairs| - 1);
      NoOffset(pairs);
      forall i | 0 <= i < |pairs|
        ensures EntryAt(b, o + EntryOffset(pairs, i), pairs[i])
      {
        if i > 0 {
          OffsetCons(p, pairs[1..], i - 1);
          assert pairs[i] == pairs[1..][i - 1];
        }
      }
    }
  }

  lemma NoOffset(pairs: seq<(Hash, Bytes)>)
    ensures EntryOffset(pairs, 0) == 0
  {
  }

  /** Every message is written as its frame. */
  lemma FrameExact(m: Msg)
    requires WriteMsg(m).Fine?
    ensures FrameOf(WriteMsg(m).value, m)
  {
    hide Holds, U32At, Le32, Flat, EncodeBits, EncodePairs, EntryOffset;
    var b, body := WriteMsg(m).value, EncodeBody(m).value;
    HoldsWhole(b);
    HoldsConcat(b, 0, Le32(|body|), body);
    Le32At(b, 0, |body|);
    HeldAt(b, 4, body, 0);
    match m
    case Want(keys) => HashesAt(b, TAG_WANT, keys);
    case Have(keys) => HashesAt(b, TAG_HAVE, keys);
    case Blobs(pairs) =>
      HoldsConcat(b, 4, [TAG_BLOBS], Le32(|pairs|) + EncodePairs(pairs).value);
      HoldsConcat(b, 5, Le32(|pairs|), EncodePairs(pairs).value);
      Le32At(b, 5, |pairs|);
      PairsAt(b, 9, pairs);
    case Held(bits) =>
      HoldsConcat(b, 4, [TAG_HELD], Le32(|bits|) + EncodeBits(bits));
      HoldsConcat(b, 5, Le32(|bits|), EncodeBits(bits));
      Le32At(b, 5, |bits|);
      BitsAt(b, 9, bits);
    case Failed(kind, why) =>
      HeldAt(b, 4, body, 1);
      HoldsConcat(b, 4, [TAG_FAILED], [kind] + (Le32(|why|) + why));
      HoldsConcat(b, 5, [kind], Le32(|why|) + why);
      HoldsConcat(b, 6, Le32(|why|), why);
      Le32At(b, 6, |why|);
  }

  lemma HashesAt(b: Bytes, tag: Byte, keys: seq<Hash>)
    requires |keys| < U32_END && Holds(b, 4, [tag] + (Le32(|keys|) + Flat(keys)))
    ensures KeysAt(b, 5, keys) && |Flat(keys)| == 32 * |keys|
  {
    hide Holds, U32At, Le32, Flat;
    HoldsConcat(b, 4, [tag], Le32(|keys|) + Flat(keys));
    HoldsConcat(b, 5, Le32(|keys|), Flat(keys));
    Le32At(b, 5, |keys|);
    FlatAt(b, 9, keys);
  }
}
