/**
 Main results about blobs: equal bytes mean isomorphic nets, a serialized net is accepted exactly
 if no emitted wire is active, an accepted one decodes to an isomorphic net with the same bytes,
 and no accepted blob holds a principal-to-principal wire.
 */
module BlobRoundTrip {
  import opened Common
  import opened Arenas
  import opened Nets
  import opened ByteCodec
  import opened Canonical
  import opened CanonicalProof
  import opened Blob
  import opened BlobProof

  function Order(n: NetState, root: Port): seq<Port> { Walk(n, [root], []) }

  function Idx(n: NetState, root: Port): map<nat, nat> { Numbering(Order(n, root)) }

  // ---------------------------------------------------------------------------------------------
  // Numbers

  lemma {:induction false} NumberingAt(n: NetState, order: seq<Port>, j: nat)
    requires Numbered(n, order) && j < |order|
    ensures order[j].slot in Numbering(order) && Numbering(order)[order[j].slot] == j
    decreases |order|
  {
    if j < |order| - 1 {
      var rest := order[..|order| - 1];
      assert rest[j] == order[j];
      NumberingAt(n, rest, j);
      assert order[j].slot != order[|order| - 1].slot;
    }
  }

  lemma {:induction false} EmitFromAt(n: NetState, order: seq<Port>, idx: map<nat, nat>, from: nat, j: nat)
    requires from <= j < |order| && EmitFrom(n, order, idx, from).Ok?
    ensures EmitRecord(n, order[j], idx) == Ok(EmitFrom(n, order, idx, from).value[j - from])
    decreases j - from
  {
    hide EmitRecord;
    if from < j { EmitFromAt(n, order, idx, from + 1, j); }
  }

  /** The ports whose wires a record carries. */
  function EmittedKinds(a: Agent): seq<Kind> {
    match a
    case FanAbs => [Aux0, Aux1]
    case FanApp => [Principal, Aux1]
    case Replicator => [Aux0, Aux1]
    case _ => []
  }

  predicate Emits(n: NetState, i: nat, k: Kind) { k in EmittedKinds(AgentOf(n, i)) }

  lemma EdgesAre(n: NetState, p: Port, idx: map<nat, nat>, t: nat)
    requires p.At? && EmitRecord(n, p, idx).Ok?
    ensures
      var edges, kinds := Edges(EmitRecord(n, p, idx).value), EmittedKinds(AgentOf(n, p.slot));
      |edges| == |kinds| && (t < |kinds| ==>
          edges[t].0 == kinds[t] && EmitEdge(n, Addr(p.slot, kinds[t]), idx) == Ok(edges[t].1))
  {
  }

  // ---------------------------------------------------------------------------------------------
  // Equal bytes, isomorphic nets

  lemma {:induction false} EncodeAllEmpty(rs: seq<Record>)
    requires EachValid(rs)
    ensures |EncodeAll(rs)| >= |rs|
  {
    if rs != [] { EncodeAllEmpty(rs[1..]); }
  }

  lemma EncodeInjective(a: seq<Record>, b: seq<Record>)
    requires ValidRecords(a) && ValidRecords(b) && Encode(a) == Encode(b)
    ensures a == b
  {
    hide EncodeAll, Decode;
    EncodeAllEmpty(a);
    EncodeAllEmpty(b);
    if a != [] && b != [] {
      DecodeEncode(a);
      DecodeEncode(b);
    } else {
      SameCount(a, b);
    }
  }

  lemma SameCount(a: seq<Record>, b: seq<Record>)
    requires ValidRecords(a) && ValidRecords(b) && Encode(a) == Encode(b)
    ensures |a| == |b|
  {
    hide EncodeAll;
    assert Encode(a)[1..5] == Le32(|a|) && Encode(b)[1..5] == Le32(|b|);
    Le32RoundTrip(|a|, []);
    Le32RoundTrip(|b|, []);
  }

  /** Agent number `j` of one walk to agent number `j` of the other. */
  ghost function Pairing(x: seq<Port>, y: seq<Port>): map<nat, nat>
    requires |x| == |y| && forall j :: 0 <= j < |y| ==> y[j].At?
  {
    map i | i in Numbering(x) :: (NumberingBound(x, i); y[Numbering(x)[i]].slot)
  }

  /** A one-to-one renaming of the agents reachable from the roots that keeps labels and emitted wires. */
  ghost predicate EmittedIso(n: NetState, r: Port, m: NetState, s: Port, phi: map<nat, nat>) {
    && phi.Keys == Seen(Order(n, r)) && (forall i :: i in Seen(Order(m, s)) <==> exists j :: j in phi && phi[j] == i)
    && (forall i, j :: i in phi && j in phi && phi[i] == phi[j] ==> i == j)
    && AgentMatch(phi, r, s)
    && (forall i :: i in phi ==> i < |n.arena.slots| && phi[i] < |m.arena.slots|)
    && (forall i {:trigger phi[i]} :: i in phi ==> LabelMatch(n.arena.slots[i], m.arena.slots[phi[i]]))
    && (forall i, k {:trigger Emits(n, i, k)} :: i in phi && Emits(n, i, k) ==>
        PortMatch(phi, Peer(n, Addr(i, k)), Peer(m, Addr(phi[i], k))))
  }

  lemma PairingAt(n: NetState, m: NetState, x: seq<Port>, y: seq<Port>, j: nat)
    requires Numbered(n, x) && Numbered(m, y) && |x| == |y| && j < |x|
    ensures x[j].slot in Pairing(x, y) && Pairing(x, y)[x[j].slot] == y[j].slot
  {
    NumberingAt(n, x, j);
  }

  lemma PairingFrom(n: NetState, x: seq<Port>, y: seq<Port>, i: nat) returns (j: nat)
    requires |x| == |y| && (forall j :: 0 <= j < |y| ==> y[j].At?) && i in Pairing(x, y)
    ensures j < |x| && x[j].At? && x[j].slot == i && Pairing(x, y)[i] == y[j].slot
  {
    NumberingBound(x, i);
    j := Numbering(x)[i];
  }

  /** Equal edges lead to agents with the same number. */
  lemma SameEdge(n: NetState, m: NetState, x: seq<Port>, y: seq<Port>, p: Port, q: Port)
    requires Numbered(n, x) && Numbered(m, y) && |x| == |y|
    requires EmitEdge(n, p, Numbering(x)).Ok? && EmitEdge(n, p, Numbering(x)) == EmitEdge(m, q, Numbering(y))
    ensures PortMatch(Pairing(x, y), Peer(n, p), Peer(m, q))
  {
    hide Pairing, Numbered;
    if Peer(n, p).At? {
      var t := Numbering(x)[Peer(n, p).slot];
      NumberingBound(x, Peer(n, p).slot);
      NumberingBound(y, Peer(m, q).slot);
      PairingAt(n, m, x, y, t);
    }
  }

  /** Equal records: same label and matching emitted wires. */
  lemma SameRecord(n: NetState, m: NetState, x: seq<Port>, y: seq<Port>, j: nat)
    requires Numbered(n, x) && Numbered(m, y) && |x| == |y| && j < |x|
    requires EmitRecord(n, x[j], Numbering(x)).Ok?
    requires EmitRecord(n, x[j], Numbering(x)) == EmitRecord(m, y[j], Numbering(y))
    ensures LabelMatch(n.arena.slots[x[j].slot], m.arena.slots[y[j].slot])
    ensures forall k :: Emits(n, x[j].slot, k) ==>
      PortMatch(Pairing(x, y), Peer(n, Addr(x[j].slot, k)), Peer(m, Addr(y[j].slot, k)))
  {
    hide Pairing, EmitEdge, PortMatch;
    var i, i' := x[j].slot, y[j].slot;
    var kinds := EmittedKinds(AgentOf(n, i));
    forall k | Emits(n, i, k)
      ensures PortMatch(Pairing(x, y), Peer(n, Addr(i, k)), Peer(m, Addr(i', k)))
    {
      var t :| 0 <= t < |kinds| && kinds[t] == k;
      EdgesAre(n, x[j], Numbering(x), t);
      EdgesAre(m, y[j], Numbering(y), t);
      SameEdge(n, m, x, y, Addr(i, k), Addr(i', k));
    }
  }

  lemma WalkStarts(n: NetState, root: Port)
    requires root.At? && InArena(n, root)
    ensures Order(n, root) != [] && Order(n, root)[0] == root
  {
    assert Fresh(n, root, []);
    SeenMore(n, root, []);
    assert Numbered(n, [root]);
    WalkNumbered(n, Children(n, root.slot) + [], [root]);
    assert [root][1..] == [] && [] + [root] == [root];
    assert Order(n, root) == Walk(n, Children(n, root.slot) + [], [root]);
  }

  lemma SeenIs(n: NetState, order: seq<Port>, i: nat)
    requires Numbered(n, order)
    ensures i in Seen(order) <==> exists j :: 0 <= j < |order| && order[j].slot == i
  {
    if i in Seen(order) {
      var p :| p in order && p.At? && p.slot == i;
    }
    if j :| 0 <= j < |order| && order[j].slot == i { assert order[j] in order; }
  }

  /** Equal bytes: the reachable parts are isomorphic on kind, free id, level, deltas and emitted wires. */
  lemma EqualBytesIsomorphic(n: NetState, r: Port, m: NetState, s: Port) returns (phi: map<nat, nat>)
    requires Words(n) && Closed(n) && InArena(n, r) && Words(m) && Closed(m) && InArena(m, s)
    requires Serialize(n, r).Ok? && Serialize(n, r) == Serialize(m, s)
    ensures EmittedIso(n, r, m, s, phi)
  {
    hide Encode, Walk, Closed, Words, Records, PortMatch, LabelMatch, Pairing, Emits, Seen;
    var x, y := Order(n, r), Order(m, s);
    EqualRecords(n, r, m, s);
    WalkReachable(n, r);
    WalkReachable(m, s);
    phi := Pairing(x, y);
    PairingKeys(x, y);
    RootsPaired(n, r, m, s);
    forall i | i in phi
      ensures i < |n.arena.slots| && phi[i] < |m.arena.slots| && LabelMatch(n.arena.slots[i], m.arena.slots[phi[i]])
      ensures forall k :: Emits(n, i, k) ==> PortMatch(phi, Peer(n, Addr(i, k)), Peer(m, Addr(phi[i], k)))
    {
      PairedSlot(n, r, m, s, i);
    }
    PairingOneToOne(n, m, x, y);
  }

  lemma PairingKeys(x: seq<Port>, y: seq<Port>)
    requires |x| == |y| && forall j :: 0 <= j < |y| ==> y[j].At?
    ensures Pairing(x, y).Keys == Seen(x)
  {
    NumberingKeys(x);
  }

  lemma EqualRecords(n: NetState, r: Port, m: NetState, s: Port)
    requires Words(n) && Closed(n) && InArena(n, r) && Words(m) && Closed(m) && InArena(m, s)
    requires Serialize(n, r).Ok? && Serialize(n, r) == Serialize(m, s)
    ensures Records(n, r).Ok? && Records(n, r) == Records(m, s) && |Order(n, r)| == |Order(m, s)|
  {
    hide Encode, Walk, Closed, Words;
    RecordsValid(n, r);
    RecordsValid(m, s);
    EncodeInjective(Records(n, r).value, Records(m, s).value);
  }

  lemma PairedSlot(n: NetState, r: Port, m: NetState, s: Port, i: nat)
    requires Numbered(n, Order(n, r)) && Numbered(m, Order(m, s)) && |Order(n, r)| == |Order(m, s)|
    requires Records(n, r).Ok? && Records(n, r) == Records(m, s) && i in Pairing(Order(n, r), Order(m, s))
    ensures
      var phi := Pairing(Order(n, r), Order(m, s));
      && i < |n.arena.slots| && phi[i] < |m.arena.slots| && LabelMatch(n.arena.slots[i], m.arena.slots[phi[i]])
      && forall k :: Emits(n, i, k) ==> PortMatch(phi, Peer(n, Addr(i, k)), Peer(m, Addr(phi[i], k)))
  {
    hide Walk, EmitRecord, PortMatch, LabelMatch, Pairing, Emits;
    var x, y := Order(n, r), Order(m, s);
    var j := PairingFrom(n, x, y, i);
    EmitFromAt(n, x, Numbering(x), 0, j);
    EmitFromAt(m, y, Numbering(y), 0, j);
    SameRecord(n, m, x, y, j);
  }

  lemma RootsPaired(n: NetState, r: Port, m: NetState, s: Port)
    requires InArena(n, r) && InArena(m, s) && Numbered(n, Order(n, r)) && Numbered(m, Order(m, s)) &&
      |Order(n, r)| == |Order(m, s)|
    ensures AgentMatch(Pairing(Order(n, r), Order(m, s)), r, s)
  {
    hide Pairing, Walk;
    if r.At? {
      WalkStarts(n, r);
      PairingAt(n, m, Order(n, r), Order(m, s), 0);
      if s.At? { WalkStarts(m, s); } else { WalkEmpty(m, s); }
    } else {
      WalkEmpty(n, r);
      if s.At? { WalkStarts(m, s); }
    }
  }

  lemma WalkEmpty(n: NetState, root: Port)
    requires !root.At?
    ensures Order(n, root) == []
  {
    assert !Fresh(n, root, []) && [root][1..] == [];
    assert Order(n, root) == Walk(n, [root][1..], []);
  }

  lemma PairingOneToOne(n: NetState, m: NetState, x: seq<Port>, y: seq<Port>)
    requires Numbered(n, x) && Numbered(m, y) && |x| == |y|
    ensures
      var phi := Pairing(x, y);
      && (forall i, j :: i in phi && j in phi && phi[i] == phi[j] ==> i == j)
      && (forall i :: i in Seen(y) <==> exists j :: j in phi && phi[j] == i)
  {
    var phi := Pairing(x, y);
    forall i, j | i in phi && j in phi && phi[i] == phi[j]
      ensures i == j
    {
      var a := PairingFrom(n, x, y, i);
      var b := PairingFrom(n, x, y, j);
    }
    forall i
      ensures i in Seen(y) <==> exists j :: j in phi && phi[j] == i
    {
      SeenIs(m, y, i);
      if i in Seen(y) {
        var b :| 0 <= b < |y| && y[b].slot == i;
        PairingAt(n, m, x, y, b);
      }
      if j :| j in phi && phi[j] == i { var a := PairingFrom(n, x, y, j); }
    }
  }
}
