/** The serializer as it runs, appending to a buffer, and the table of local artifact ids. */
module Artifact {
  import opened Common
  import opened Arenas
  import opened Nets
  import opened ByteCodec
  import opened Canonical
  import opened BlobProof
  import opened BlobRoundTrip

  lemma {:induction false} EncodeAppend(rs: seq<Record>, r: Record)
    requires EachValid(rs) && ValidRecord(r)
    ensures EachValid(rs + [r]) && EncodeAll(rs + [r]) == EncodeAll(rs) + EncodeRecord(r)
    decreases |rs|
  {
    hide EncodeRecord, ValidRecord;
    if rs == [] {
      assert (rs + [r])[1..] == [];
      assert EncodeRecord(r) + [] == EncodeRecord(r);
    } else {
      EncodeAppend(rs[1..], r);
      assert (rs + [r])[1..] == rs[1..] + [r];
    }
  }

  lemma NothingEncoded()
    ensures EachValid([]) && EncodeAll([]) == []
  {
  }

  lemma IndicesFit(n: NetState, root: Port)
    requires Words(n)
    ensures |Order(n, root)| < U32_END && forall i :: i in Idx(n, root) ==> Idx(n, root)[i] < U32_END
  {
    hide Walk;
    WalkNumbered(n, [root], []);
    NumberedCount(n, Order(n, root));
    forall i | i in Idx(n, root)
      ensures Idx(n, root)[i] < U32_END
    {
      NumberingBound(Order(n, root), i);
    }
  }

  lemma RecordValid(n: NetState, p: Port, idx: map<nat, nat>)
    requires Words(n) && EmitRecord(n, p, idx).Ok? && forall i :: i in idx ==> idx[i] < U32_END
    ensures ValidRecord(EmitRecord(n, p, idx).value)
  {
  }

  method SerializeNet(n: NetState, root: Port) returns (r: Result<Bytes>)
    requires Words(n) && Closed(n) && InArena(n, root)
    ensures r == Serialize(n, root)
  {
    hide EmitRecord, EncodeRecord, Walk, Words, Closed, ValidRecord, Numbering, Le32, EncodeAll;
    var idx, order := DfsAssign(n, root);
    IndicesFit(n, root);
    assert idx == Idx(n, root) && order == Order(n, root);
    var head := [VERSION] + Le32(|order|);
    var buf := head;
    ghost var done: seq<Record> := [];
    NothingEncoded();
    ghost var all := EmitFrom(n, order, idx, 0);
    PrependNone(all);
    for i := 0 to |order|
      invariant |done| == i && EachValid(done) && buf == head + EncodeAll(done)
      invariant all == Prepend(done, EmitFrom(n, order, idx, i))
    {
      var rec :- EmitRecord(n, order[i], idx);
      RecordValid(n, order[i], idx);
      EncodeAppend(done, rec);
      PrependMore(done, [rec], EmitFrom(n, order, idx, i + 1));
      buf := buf + EncodeRecord(rec);
      done := done + [rec];
    }
    assert done + [] == done;
    RecordsValid(n, root);
    assert all == Records(n, root) == Ok(done);
    assert buf == Encode(done);
    return Ok(buf);
  }

  /** Ids of serializations: the bytes are the key, so ids are equal exactly if the bytes are. */
  class Interner {
    var table: map<Bytes, nat>

    ghost predicate Valid()
      reads this
    {
      && (forall b :: b in table ==> table[b] < |table|)
      && (forall a, b :: a in table && b in table && table[a] == table[b] ==> a == b)
    }

    constructor ()
      ensures Valid() && table == map[]
    {
      table := map[];
    }

    method Intern(bytes: Bytes) returns (id: nat)
      requires Valid()
      modifies this
      ensures Valid() && bytes in table && table[bytes] == id
      ensures old(table).Keys <= table.Keys && forall b :: b in old(table) ==> table[b] == old(table)[b]
    {
      if bytes !in table { table := table[bytes := |table|]; }
      id := table[bytes];
    }

    /** Two artifacts interned in one table get the same id exactly if their serializations are equal. */
    method InternLocal(n: NetState, root: Port) returns (r: Result<nat>)
      requires Valid() && Words(n) && Closed(n) && InArena(n, root)
      modifies this
      ensures Valid()
      ensures r.Err? ==> Serialize(n, root).Err? && table == old(table)
      ensures r.Ok? ==>
        Serialize(n, root).Ok? && Serialize(n, root).value in table && table[Serialize(n, root).value] == r.value
      ensures forall b :: b in old(table) ==> b in table && table[b] == old(table)[b]
      ensures r.Ok? && Serialize(n, root).Ok? ==> forall b :: b in table ==>
        (table[b] == r.value <==> b == Serialize(n, root).value)
    {
      var bytes :- SerializeNet(n, root);
      var id := Intern(bytes);
      return Ok(id);
    }
  }

  /** Equal ids in one table: the two reachable parts are isomorphic on labels and emitted wires. */
  lemma EqualIdsIsomorphic(table: map<Bytes, nat>, n: NetState, r: Port, m: NetState,
      s: Port) returns (phi: map<nat, nat>)
    requires forall a, b :: a in table && b in table && table[a] == table[b] ==> a == b
    requires Words(n) && Closed(n) && InArena(n, r) && Words(m) && Closed(m) && InArena(m, s)
    requires Serialize(n, r).Ok? && Serialize(m, s).Ok?
    requires Serialize(n, r).value in table && Serialize(m, s).value in table
    requires table[Serialize(n, r).value] == table[Serialize(m, s).value]
    ensures EmittedIso(n, r, m, s, phi)
  {
    hide Serialize, Words, Closed;
    phi := EqualBytesIsomorphic(n, r, m, s);
  }
}
