/**
 The decoder accepts exactly the encodings, equal bytes mean isomorphic nets, and decoding a
 serialized net rebuilds it.
 */
module BlobProof {
  import opened Common
  import opened ByteCodec
  import opened Canonical
  import opened Blob

  // ---------------------------------------------------------------------------------------------
  // The decoder is the exact inverse of the encoder

  lemma ReadEdgeExact(input: Bytes, pos: nat, e: Edge, p: nat)
    ensures ReadEdge(input, pos) == Ok((e, p)) <==> ValidEdge(e) && Holds(input, pos, EncodeEdge(e)) && p == pos + 5
  {
    hide Le32, Holds;
    if ValidEdge(e) {
      var idx := if e.Live? then e.idx else ERASER_IDX;
      var sel := if e.Live? then Selector(e.kind) else ERASER_SEL;
      HoldsConcat(input, pos, Le32(idx), [sel]);
      ReadU32Exact(input, pos, idx, pos + 4);
      ReadU8Exact(input, pos + 4, sel, pos + 5);
    }
    if ReadEdge(input, pos).Ok? {
      var (idx, q) := ReadU32(input, pos).value;
      var sel := ReadU8(input, q).value.0;
      ReadU32Exact(input, pos, idx, q);
      ReadU8Exact(input, q, sel, q + 1);
      HoldsConcat(input, pos, Le32(idx), [sel]);
      var e' := ReadEdge(input, pos).value.0;
      assert ValidEdge(e') && EncodeEdge(e') == Le32(idx) + [sel];
    }
  }

  lemma ReadEdgesExact(input: Bytes, pos: nat, e0: Edge, e1: Edge, p: nat)
    ensures
      ReadEdges(input, pos) == Ok(((e0, e1), p)) <==>
      ValidEdge(e0) && ValidEdge(e1) && Holds(input, pos, EncodeEdge(e0) + EncodeEdge(e1)) && p == pos + 10
  {
    hide ReadEdge, EncodeEdge, Holds;
    if ValidEdge(e0) && ValidEdge(e1) { HoldsConcat(input, pos, EncodeEdge(e0), EncodeEdge(e1)); }
    ReadEdgeExact(input, pos, e0, pos + 5);
    ReadEdgeExact(input, pos + 5, e1, pos + 10);
    if ReadEdges(input, pos).Ok? {
      ReadEdgeExact(input, pos, ReadEdge(input, pos).value.0, ReadEdge(input, pos).value.1);
      var q := ReadEdge(input, pos).value.1;
      ReadEdgeExact(input, q, ReadEdge(input, q).value.0, ReadEdge(input, q).value.1);
    }
  }

  /** The fields of a replicator record. */
  lemma RepBytes(input: Bytes, pos: nat, r: Record)
    requires r.RRep? && ValidRecord(r)
    ensures
      Holds(input, pos, EncodeRecord(r)) <==>
      && Holds(input, pos, [KIND_REP]) && Holds(input, pos + 1, Le16(r.level))
      && Holds(input, pos + 3, Le16(OfI16(r.delta0))) && Holds(input, pos + 5, Le16(OfI16(r.delta1)))
      && Holds(input, pos + 7, EncodeEdge(r.copy0) + EncodeEdge(r.copy1))
    ensures |EncodeRecord(r)| == 17
  {
    hide Holds, Le16, EncodeEdge;
    var e := EncodeEdge(r.copy0) + EncodeEdge(r.copy1);
    var c, b, a := Le16(OfI16(r.delta1)), Le16(OfI16(r.delta0)), Le16(r.level);
    HoldsConcat(input, pos, [KIND_REP], a + (b + (c + e)));
    HoldsConcat(input, pos + 1, a, b + (c + e));
    HoldsConcat(input, pos + 3, b, c + e);
    HoldsConcat(input, pos + 5, c, e);
  }

  lemma RecordReads(input: Bytes, pos: nat, r: Record)
    requires ValidRecord(r) && Holds(input, pos, EncodeRecord(r))
    ensures ReadRecord(input, pos) == Ok((r, pos + |EncodeRecord(r)|))
  {
    hide Holds, EncodeEdge, ReadEdges, ReadU16, ReadI16, ReadU32, ReadU8, Le16, Le32;
    match r
    case REraser => ReadU8Exact(input, pos, KIND_ERASER, pos + 1);
    case RFree(id) =>
      HoldsConcat(input, pos, [KIND_FREE], Le32(id));
      ReadU8Exact(input, pos, KIND_FREE, pos + 1);
      ReadU32Exact(input, pos + 1, id, pos + 5);
    case RAbs(e0, e1) =>
      HoldsConcat(input, pos, [KIND_ABS], EncodeEdge(e0) + EncodeEdge(e1));
      ReadU8Exact(input, pos, KIND_ABS, pos + 1);
      ReadEdgesExact(input, pos + 1, e0, e1, pos + 11);
    case RApp(e0, e1) =>
      HoldsConcat(input, pos, [KIND_APP], EncodeEdge(e0) + EncodeEdge(e1));
      ReadU8Exact(input, pos, KIND_APP, pos + 1);
      ReadEdgesExact(input, pos + 1, e0, e1, pos + 11);
    case RRep(level, d0, d1, e0, e1) =>
      RepBytes(input, pos, r);
      ReadU8Exact(input, pos, KIND_REP, pos + 1);
      ReadU16Exact(input, pos + 1, level, pos + 3);
      ReadI16Exact(input, pos + 3, d0, pos + 5);
      ReadI16Exact(input, pos + 5, d1, pos + 7);
      ReadEdgesExact(input, pos + 7, e0, e1, pos + 17);
  }

  lemma RecordWasWritten(input: Bytes, pos: nat)
    requires ReadRecord(input, pos).Ok?
    ensures
      var (r, p) := ReadRecord(input, pos).value;
      ValidRecord(r) && Holds(input, pos, EncodeRecord(r)) && p == pos + |EncodeRecord(r)|
  {
    hide Holds, EncodeEdge, Le16, Le32;
    var (r, p) := ReadRecord(input, pos).value;
    var (kind, q) := ReadU8(input, pos).value;
    assert ReadU8(input, pos) == Ok((kind, q));
    ReadU8Exact(input, pos, kind, q);
    match r
    case REraser =>
    case RFree(id) =>
      assert ReadU32(input, q) == Ok((id, p));
      ReadU32Exact(input, q, id, p);
      HoldsConcat(input, pos, [KIND_FREE], Le32(id));
    case RAbs(e0, e1) =>
      assert ReadEdges(input, q) == Ok(((e0, e1), p));
      ReadEdgesExact(input, q, e0, e1, p);
      HoldsConcat(input, pos, [KIND_ABS], EncodeEdge(e0) + EncodeEdge(e1));
    case RApp(e0, e1) =>
      assert ReadEdges(input, q) == Ok(((e0, e1), p));
      ReadEdgesExact(input, q, e0, e1, p);
      HoldsConcat(input, pos, [KIND_APP], EncodeEdge(e0) + EncodeEdge(e1));
    case RRep(_, _, _, _, _) => RepWasWritten(input, pos);
  }

  lemma RepWasWritten(input: Bytes, pos: nat)
    requires ReadRecord(input, pos).Ok? && ReadRecord(input, pos).value.0.RRep?
    ensures
      var (r, p) := ReadRecord(input, pos).value;
      ValidRecord(r) && Holds(input, pos, EncodeRecord(r)) && p == pos + |EncodeRecord(r)|
  {
    hide Holds, EncodeEdge, Le16, Le32, EncodeRecord;
    var (r, p) := ReadRecord(input, pos).value;
    var (kind, q) := ReadU8(input, pos).value;
    assert ReadU8(input, pos) == Ok((kind, q));
    ReadU8Exact(input, pos, kind, q);
    var p1 := ReadU16(input, q).value.1;
    assert ReadU16(input, q) == Ok((r.level, p1));
    ReadU16Exact(input, q, r.level, p1);
    var p2 := ReadI16(input, p1).value.1;
    assert ReadI16(input, p1) == Ok((r.delta0, p2));
    ReadI16Exact(input, p1, r.delta0, p2);
    var p3 := ReadI16(input, p2).value.1;
    assert ReadI16(input, p2) == Ok((r.delta1, p3));
    ReadI16Exact(input, p2, r.delta1, p3);
    assert ReadEdges(input, p3) == Ok(((r.copy0, r.copy1), p));
    ReadEdgesExact(input, p3, r.copy0, r.copy1, p);
    RepBytes(input, pos, r);
  }

  predicate EachValid(rs: seq<Record>) { forall j :: 0 <= j < |rs| ==> ValidRecord(rs[j]) }

  lemma {:induction false} RecordsRead(input: Bytes, pos: nat, rs: seq<Record>)
    requires EachValid(rs) && Holds(input, pos, EncodeAll(rs))
    ensures ReadRecords(input, pos, |rs|) == Ok((rs, pos + |EncodeAll(rs)|))
    decreases |rs|
  {
    hide ReadRecord, EncodeRecord, Holds;
    if rs != [] {
      HoldsConcat(input, pos, EncodeRecord(rs[0]), EncodeAll(rs[1..]));
      RecordReads(input, pos, rs[0]);
      RecordsRead(input, pos + |EncodeRecord(rs[0])|, rs[1..]);
      assert [rs[0]] + rs[1..] == rs;
    }
  }

  lemma {:induction false} RecordsWereWritten(input: Bytes, pos: nat, n: nat)
    requires pos <= |input| && ReadRecords(input, pos, n).Ok?
    ensures
      var (rs, p) := ReadRecords(input, pos, n).value;
      EachValid(rs) && Holds(input, pos, EncodeAll(rs)) && p == pos + |EncodeAll(rs)|
    decreases n
  {
    hide ReadRecord, EncodeRecord, Holds;
    if n == 0 {
      HoldsNothing(input, pos);
    } else {
      RecordWasWritten(input, pos);
      var (r, p) := ReadRecord(input, pos).value;
      HoldsInside(input, pos, EncodeRecord(r));
      RecordsWereWritten(input, p, n - 1);
      var rest := ReadRecords(input, p, n - 1).value.0;
      HoldsConcat(input, pos, EncodeRecord(r), EncodeAll(rest));
      assert ([r] + rest)[1..] == rest;
    }
  }

  lemma HoldsNothing(input: Bytes, pos: nat)
    requires pos <= |input|
    ensures Holds(input, pos, [])
  {
  }

  lemma HoldsInside(input: Bytes, pos: nat, part: Bytes)
    requires Holds(input, pos, part)
    ensures pos + |part| <= |input|
  {
  }

  /** The decoder accepts exactly the non-empty encodings and answers what was encoded. */
  lemma DecodeExact(input: Bytes, rs: seq<Record>)
    ensures Decode(input) == Ok(rs) <==> rs != [] && ValidRecords(rs) && input == Encode(rs)
  {
    if rs != [] && ValidRecords(rs) && input == Encode(rs) { DecodeEncode(rs); }
    if Decode(input) == Ok(rs) { EncodeDecode(input); }
  }

  lemma DecodeEncode(rs: seq<Record>)
    requires rs != [] && ValidRecords(rs)
    ensures Decode(Encode(rs)) == Ok(rs)
  {
    hide ReadRecords, EncodeAll, ReadU32, Le32, Holds;
    var input := Encode(rs);
    HoldsWhole(input);
    HoldsConcat(input, 0, [VERSION], Le32(|rs|) + EncodeAll(rs));
    HoldsConcat(input, 1, Le32(|rs|), EncodeAll(rs));
    ReadU8Exact(input, 0, VERSION, 1);
    ReadU32Exact(input, 1, |rs|, 5);
    RecordsRead(input, 5, rs);
  }

  lemma EncodeDecode(input: Bytes)
    requires Decode(input).Ok?
    ensures
      var rs := Decode(input).value;
      rs != [] && ValidRecords(rs) && input == Encode(rs)
  {
    hide ReadRecords, EncodeAll, ReadU32, Le32, Holds, ReadU8;
    var rs := Decode(input).value;
    var (version, p) := ReadU8(input, 0).value;
    var (n, q) := ReadU32(input, p).value;
    ReadU8Exact(input, 0, version, p);
    ReadU32Exact(input, p, n, q);
    HoldsInside(input, p, Le32(n));
    RecordsWereWritten(input, q, n);
    HoldsConcat(input, 1, Le32(n), EncodeAll(rs));
    HoldsConcat(input, 0, [VERSION], Le32(n) + EncodeAll(rs));
    HoldsAll(input, Encode(rs));
  }

  lemma HoldsAll(input: Bytes, part: Bytes)
    requires Holds(input, 0, part) && |part| == |input|
    ensures input == part
  {
  }
}
