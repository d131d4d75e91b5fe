/** Decoding a serialized net: when it is accepted, and that it rebuilds the net. */
module BlobRebuild {
  import opened Common
  import opened Arenas
  import opened Nets
  import opened Canonical
  import opened CanonicalProof
  import opened Blob
  import opened BlobProof
  import opened BlobBuild
  import opened BlobRoundTrip

  /** A net that serializes. Slot 0 is the arena's sentinel, which no agent occupies. */
  ghost predicate Shipped(n: NetState, root: Port) {
    && Words(n) && Closed(n) && root.At? && InArena(n, root) && Records(n, root).Ok?
    && 0 !in Seen(Order(n, root))
  }

  ghost function Rs(n: NetState, root: Port): seq<Record>
    requires Shipped(n, root)
  {
    Records(n, root).value
  }

  // ---------------------------------------------------------------------------------------------
  // The allocated agents

  lemma NonzeroCount(n: NetState, order: seq<Port>)
    requires Numbered(n, order) && 0 !in Seen(order)
    ensures |order| == 0 || |order| < |n.arena.slots|
  {
    forall j | 0 <= j < |order|
      ensures order[j].slot > 0
    {
      assert order[j] in order;
    }
    var slots := seq(|order|, j requires 0 <= j < |order| => order[j].slot - 1);
    if |order| > 0 {
      assert order[0].slot < |n.arena.slots|;
      Pigeons(slots, |n.arena.slots| - 1);
    }
  }

  /** One slot per record, after the sentinel slot. */
  ghost predicate Allocated(rs: seq<Record>, b: NetState, slots: seq<Port>) {
    && |b.arena.slots| == 1 + |rs| && b.arena.slots[0] == EMPTY
    && (forall i :: 1 <= i < |b.arena.slots| ==> b.arena.slots[i] == SlotOf(rs[i - 1]))
    && b.f1 == map[] && b.f2 == map[] && !b.pendingC1
    && |slots| == |rs| && (forall j :: 0 <= j < |rs| ==> slots[j] == At(1 + j, Principal, 0))
  }

  lemma RecordFacts(n: NetState, root: Port, j: nat)
    requires Shipped(n, root)
    ensures |Rs(n, root)| == |Order(n, root)| > 0
    ensures Numbered(n, Order(n, root))
    ensures j < |Rs(n, root)| ==> EmitRecord(n, Order(n, root)[j], Idx(n, root)) == Ok(Rs(n, root)[j])
  {
    hide EmitRecord, Walk;
    WalkReachable(n, root);
    WalkStarts(n, root);
    if j < |Rs(n, root)| { EmitFromAt(n, Order(n, root), Idx(n, root), 0, j); }
  }

  lemma NoErasers(n: NetState, root: Port)
    requires Shipped(n, root)
    ensures REraser !in Rs(n, root)
  {
    var rs := Rs(n, root);
    forall j | 0 <= j < |rs|
      ensures !rs[j].REraser?
    {
      RecordFacts(n, root, j);
    }
  }

  lemma AllocShipped(n: NetState, root: Port)
    requires Shipped(n, root)
    ensures
      var rs := Rs(n, root);
      var a := AllocAll(NewNet(Capacity(|rs|)), rs, []);
      a.Ok? && Allocated(rs, a.value.0, a.value.1)
  {
    hide AllocAll, Walk, EmitFrom;
    var rs := Rs(n, root);
    RecordFacts(n, root, 0);
    NonzeroCount(n, Order(n, root));
    NoErasers(n, root);
    AllocExact(NewNet(Capacity(|rs|)), rs, []);
    var b := AllocAll(NewNet(Capacity(|rs|)), rs, []).value.0;
    assert b.arena.slots[0] == b.arena.slots[..1][0];
  }

  // ---------------------------------------------------------------------------------------------
  // The laid wires

  /** Where a port of the net lands in the decoded one; both sentinels become the eraser. */
  function Image(idx: map<nat, nat>, p: Port): Port {
    if p.At? && p.slot in idx then At(idx[p.slot] + 1, p.kind, 0) else Eraser
  }

  lemma ResolvedEdge(n: NetState, root: Port, slots: seq<Port>, p: Port, e: Edge)
    requires Shipped(n, root) && |slots| == |Order(n, root)| && (forall j :: 0 <= j < |slots| ==>
      slots[j] == At(1 + j, Principal, 0))
    requires EmitEdge(n, p, Idx(n, root)) == Ok(e)
    ensures Resolve(slots, e) == Ok(Image(Idx(n, root), Peer(n, p)))
  {
    hide Walk;
    if Peer(n, p).At? { NumberingBound(Order(n, root), Peer(n, p).slot); }
  }

  /** Edge `t` of record `j` as a wire of the decoded net. */
  lemma WireIs(n: NetState, root: Port, slots: seq<Port>, j: nat, t: nat)
    requires Shipped(n, root) && |slots| == |Rs(n, root)| && (forall i :: 0 <= i < |slots| ==>
      slots[i] == At(1 + i, Principal, 0))
    requires j < |Rs(n, root)|
    ensures Order(n, root)[j].At?
    ensures
      var i := Order(n, root)[j].slot;
      var kinds, edges := EmittedKinds(AgentOf(n, i)), Edges(Rs(n, root)[j]);
      && |edges| == |kinds|
      && (t < |kinds| ==>
            && PortOn(slots[j], edges[t].0) == At(1 + j, kinds[t], 0)
            && Resolve(slots, edges[t].1) == Ok(Image(Idx(n, root), Peer(n, Addr(i, kinds[t])))))
  {
    hide Walk, EmitRecord, Image, Resolve, EmittedKinds, Edges, Shipped;
    RecordFacts(n, root, j);
    var p := Order(n, root)[j];
    EdgesAre(n, p, Idx(n, root), t);
    if t < |EmittedKinds(AgentOf(n, p.slot))| {
      ResolvedEdge(n, root, slots, Addr(p.slot, EmittedKinds(AgentOf(n, p.slot))[t]), Edges(Rs(n, root)[j])[t].1);
    }
  }

  lemma PlanShipped(n: NetState, root: Port, slots: seq<Port>)
    requires Shipped(n, root) && |slots| == |Rs(n, root)| && (forall j :: 0 <= j < |slots| ==>
      slots[j] == At(1 + j, Principal, 0))
    ensures Plan(slots, Rs(n, root), 0).Ok?
  {
    hide Plan, Edges, Resolve, Shipped, Rs, Walk;
    var rs := Rs(n, root);
    forall i, t | 0 <= i < |rs| && 0 <= t < |Edges(rs[i])|
      ensures Resolve(slots, Edges(rs[i])[t].1).Ok?
    {
      WireIs(n, root, slots, i, t);
    }
    PlanOk(slots, rs, 0);
  }

  ghost function Base(n: NetState, root: Port): (b: NetState)
    requires Shipped(n, root)
    ensures exists slots :: Allocated(Rs(n, root), b, slots)
  {
    AllocShipped(n, root);
    AllocAll(NewNet(Capacity(|Rs(n, root)|)), Rs(n, root), []).value.0
  }

  ghost function Slots(n: NetState, root: Port): (slots: seq<Port>)
    requires Shipped(n, root)
    ensures Allocated(Rs(n, root), Base(n, root), slots)
  {
    AllocShipped(n, root);
    AllocAll(NewNet(Capacity(|Rs(n, root)|)), Rs(n, root), []).value.1
  }

  ghost function Wires(n: NetState, root: Port): seq<Wire>
    requires Shipped(n, root)
  {
    PlanShipped(n, root, Slots(n, root));
    Plan(Slots(n, root), Rs(n, root), 0).value
  }

  /** The net the decoder builds. */
  ghost function Rebuilt(n: NetState, root: Port): NetState
    requires Shipped(n, root)
  {
    Lay(Base(n, root), Wires(n, root))
  }

  /** Agent number `j` carries the wire of its port `k`. */
  ghost predicate Carries(n: NetState, root: Port, j: nat, k: Kind) {
    j < |Order(n, root)| && Order(n, root)[j].At? && Emits(n, Order(n, root)[j].slot, k)
  }

  ghost function WireOf(n: NetState, root: Port, j: nat, k: Kind): Wire
    requires Carries(n, root, j, k)
  {
    Wire(At(1 + j, k, 0), Image(Idx(n, root), Peer(n, Addr(Order(n, root)[j].slot, k))))
  }

  lemma WireFrom(n: NetState, root: Port, w: Wire) returns (j: nat, k: Kind)
    requires Shipped(n, root) && w in Wires(n, root)
    ensures Carries(n, root, j, k) && w == WireOf(n, root, j, k)
  {
    hide Plan, Edges, Resolve, Walk, Image, EmittedKinds, PortOn;
    RecordFacts(n, root, 0);
    PlanShipped(n, root, Slots(n, root));
    var t;
    j, t := PlanSound(Slots(n, root), Rs(n, root), 0, w);
    WireIs(n, root, Slots(n, root), j, t);
    k := EmittedKinds(AgentOf(n, Order(n, root)[j].slot))[t];
  }

  lemma WireIn(n: NetState, root: Port, j: nat, k: Kind)
    requires Shipped(n, root) && Carries(n, root, j, k)
    ensures WireOf(n, root, j, k) in Wires(n, root)
  {
    hide Plan, Edges, Resolve, Walk, Image, EmittedKinds, PortOn;
    RecordFacts(n, root, 0);
    PlanShipped(n, root, Slots(n, root));
    var kinds := EmittedKinds(AgentOf(n, Order(n, root)[j].slot));
    var t :| 0 <= t < |kinds| && kinds[t] == k;
    WireIs(n, root, Slots(n, root), j, t);
    var w := PlanComplete(Slots(n, root), Rs(n, root), 0, j, t);
  }

  // ---------------------------------------------------------------------------------------------
  // Acceptance

  /** No application's function port meets a principal port or a sentinel. */
  ghost predicate Quiet(n: NetState, root: Port) {
    forall j {:trigger Order(n, root)[j]} ::
      0 <= j < |Order(n, root)| && Order(n, root)[j].At? && AgentOf(n, Order(n, root)[j].slot).FanApp? ==>
      var p := Peer(n, Addr(Order(n, root)[j].slot, Principal));
      p.At? && !p.kind.Principal?
  }

  lemma PeerNumbered(n: NetState, root: Port, j: nat, k: Kind)
    requires Shipped(n, root) && j < |Order(n, root)|
    ensures
      && Order(n, root)[j].At?
      && var i := Order(n, root)[j].slot;
         !AgentOf(n, i).FreeAgent? && !AgentOf(n, i).PrimAgent? && Peer(n, Addr(i, k)).At? ==>
             Peer(n, Addr(i, k)).slot in Idx(n, root)
  {
    hide Walk;
    WalkReachable(n, root);
    NumberingKeys(Order(n, root));
    var i := Order(n, root)[j].slot;
    assert Order(n, root)[j] in Order(n, root) && i in Seen(Order(n, root));
    if !AgentOf(n, i).FreeAgent? && !AgentOf(n, i).PrimAgent? { assert Peer(n, Addr(i, k)) in Children(n, i); }
  }

  lemma ActiveWires(n: NetState, root: Port)
    requires Shipped(n, root)
    ensures Quiet(n, root) <==> forall w :: w in Wires(n, root) ==> !ActiveEnds(w)
  {
    hide Walk, Shipped, Wires;
    if Quiet(n, root) {
      forall w | w in Wires(n, root)
        ensures !ActiveEnds(w)
      {
        var j, k := WireFrom(n, root, w);
        PeerNumbered(n, root, j, k);
      }
    } else {
      var j :| 0 <= j < |Order(n, root)| && Order(n, root)[j].At? && AgentOf(n, Order(n, root)[j].slot).FanApp? &&
        var p := Peer(n, Addr(Order(n, root)[j].slot, Principal)); !(p.At? && !p.kind.Principal?);
      assert Emits(n, Order(n, root)[j].slot, Principal);
      WireIn(n, root, j, Principal);
      assert ActiveEnds(WireOf(n, root, j, Principal));
    }
  }

  lemma AgentAt(n: NetState, root: Port, j: nat)
    requires Shipped(n, root) && j < |Order(n, root)|
    ensures
      && Order(n, root)[j].At? && Order(n, root)[j].slot < |n.arena.slots|
      && 1 + j < |Base(n, root).arena.slots|
      && LabelMatch(n.arena.slots[Order(n, root)[j].slot], Base(n, root).arena.slots[1 + j])
  {
    hide Walk, Base;
    RecordFacts(n, root, j);
    assert Allocated(Rs(n, root), Base(n, root), Slots(n, root));
    assert Base(n, root).arena.slots[1 + j] == SlotOf(Rs(n, root)[j]);
  }

  lemma WiresPlain(n: NetState, root: Port)
    requires Shipped(n, root)
    ensures forall w :: w in Wires(n, root) ==> Plain(Base(n, root), w)
  {
    hide Walk, Shipped, Wires, Base, Image;
    forall w | w in Wires(n, root)
      ensures Plain(Base(n, root), w)
    {
      var j, k := WireFrom(n, root, w);
      AgentAt(n, root, j);
    }
  }

  lemma BuildShipped(n: NetState, root: Port)
    requires Shipped(n, root)
    ensures
      && ValidRecords(Rs(n, root)) && Rs(n, root) != []
      && Build(Rs(n, root)) == if Certified(Rebuilt(n, root)) then Ok((Rebuilt(n, root), At(1, Principal, 0)))
          else Err(ReadbackIncomplete)
  {
    hide Walk, AllocAll, Plan, Lay;
    RecordFacts(n, root, 0);
    RecordsValid(n, root);
    AllocShipped(n, root);
    PlanShipped(n, root, Slots(n, root));
  }

  lemma CertifiedExact(n: NetState, root: Port)
    requires Shipped(n, root)
    ensures Certified(Rebuilt(n, root)) <==> Quiet(n, root)
  {
    hide Walk, Lay, Wires, Quiet, Shipped, Base;
    var b, ws := Base(n, root), Wires(n, root);
    assert Allocated(Rs(n, root), b, Slots(n, root));
    ActiveWires(n, root);
    WiresPlain(n, root);
    LayFrontier1(b, ws);
    LayFrontier2(b, ws);
    LayAgents(b, ws);
  }

  /** A serialized net is accepted exactly if no application's function port is active or unwired. */
  lemma BlobAccepted(n: NetState, root: Port)
    requires Shipped(n, root)
    ensures Serialize(n, root).Ok?
    ensures Deserialize(Serialize(n, root).value) == if Quiet(n, root) then Ok((Rebuilt(n, root), At(1, Principal, 0)))
      else Err(ReadbackIncomplete)
  {
    hide Walk, Rebuilt, Quiet, Encode, Decode, Build;
    BuildShipped(n, root);
    CertifiedExact(n, root);
    DecodeEncode(Rs(n, root));
  }

  // ---------------------------------------------------------------------------------------------
  // The round trip

  /** Does `p` address port `k` of slot `i`, whatever its generation bit? */
  predicate Addresses(p: Port, i: nat, k: Kind) { p.At? && p.slot == i && p.kind == k }

  /** Wires of reachable agents can be followed back. */
  ghost predicate WiresSymmetric(n: NetState, root: Port) {
    forall i, k {:trigger Peer(n, Addr(i, k))} :: i in Seen(Order(n, root)) && Peer(n, Addr(i, k)).At? ==>
      var p := Peer(n, Addr(i, k));
      Addresses(Peer(n, Addr(p.slot, p.kind)), i, k)
  }

  /** Every wire between reachable agents is carried by the record of at least one end. */
  ghost predicate WiresCarried(n: NetState, root: Port) {
    forall i, k {:trigger Peer(n, Addr(i, k))} ::
      i in Seen(Order(n, root)) && Peer(n, Addr(i, k)).At? && Peer(n, Addr(i, k)).slot in Seen(Order(n, root)) ==>
      Emits(n, i, k) || Emits(n, Peer(n, Addr(i, k)).slot, Peer(n, Addr(i, k)).kind)
  }

  lemma NumberOf(n: NetState, root: Port, i: nat) returns (j: nat)
    requires Shipped(n, root) && i in Idx(n, root)
    ensures j < |Order(n, root)| && Order(n, root)[j].At? && Order(n, root)[j].slot == i && Idx(n, root)[i] == j
    ensures i in Seen(Order(n, root))
  {
    hide Walk;
    NumberingKeys(Order(n, root));
    NumberingBound(Order(n, root), i);
    j := Idx(n, root)[i];
  }

  lemma IdxAt(n: NetState, root: Port, j: nat)
    requires Shipped(n, root) && j < |Order(n, root)|
    ensures
      && Order(n, root)[j].At? && Order(n, root)[j].slot in Seen(Order(n, root))
      && Order(n, root)[j].slot in Idx(n, root) && Idx(n, root)[Order(n, root)[j].slot] == j
  {
    hide Walk;
    RecordFacts(n, root, 0);
    NumberingAt(n, Order(n, root), j);
    assert Order(n, root)[j] in Order(n, root);
  }

  /** Every laid wire agrees with the image of the net's wire at the port. */
  lemma WireAgrees(n: NetState, root: Port, j: nat, k: Kind, w: Wire)
    requires Shipped(n, root) && WiresSymmetric(n, root) && j < |Order(n, root)| && Order(n, root)[j].At? &&
      w in Wires(n, root)
    ensures Gives(w, At(1 + j, k, 0), Image(Idx(n, root), Peer(n, Addr(Order(n, root)[j].slot, k))))
  {
    hide Walk, Wires, Shipped;
    var p := At(1 + j, k, 0);
    var j', k' := WireFrom(n, root, w);
    IdxAt(n, root, j);
    IdxAt(n, root, j');
    var i, i' := Order(n, root)[j].slot, Order(n, root)[j'].slot;
    if w.dst == p {
      var q := Peer(n, Addr(i', k'));
      var t := NumberOf(n, root, q.slot);
      assert Addresses(q, i, k);
      assert Addresses(Peer(n, Addr(i, k)), i', k');
    }
  }

  /** Port `k` of decoded agent `j` holds the image of the net's wire if some end carries it, and is null otherwise. */
  lemma DecodedPort(n: NetState, root: Port, j: nat, k: Kind)
    requires Shipped(n, root) && WiresSymmetric(n, root) && j < |Order(n, root)|
    ensures
      && Order(n, root)[j].At?
      && var i := Order(n, root)[j].slot;
         var p := Peer(n, Addr(i, k));
         Peer(Rebuilt(n, root), At(1 + j, k, 0)) ==
         if Emits(n, i, k) || (p.At? && p.slot in Idx(n, root) && Emits(n, p.slot, p.kind)) then Image(Idx(n, root), p)
             else Null
  {
    hide Walk, Wires, Shipped, Lay, Base, Gives, Emits, WiresSymmetric, Image;
    IdxAt(n, root, j);
    var i, b, ws := Order(n, root)[j].slot, Base(n, root), Wires(n, root);
    var q, p := At(1 + j, k, 0), Peer(n, Addr(i, k));
    var v := Image(Idx(n, root), p);
    AgentAt(n, root, j);
    BlankPort(n, root, j, k);
    forall w | w in ws
      ensures Gives(w, q, v)
    {
      WireAgrees(n, root, j, k, w);
    }
    LayAt(b, ws, q, v);
    TouchedExact(n, root, j, k);
  }

  lemma BlankPort(n: NetState, root: Port, j: nat, k: Kind)
    requires Shipped(n, root) && j < |Order(n, root)|
    ensures 1 + j < |Base(n, root).arena.slots| && Peer(Base(n, root), At(1 + j, k, 0)) == Null
  {
    hide Walk, Base;
    RecordFacts(n, root, j);
    assert Allocated(Rs(n, root), Base(n, root), Slots(n, root));
    assert Base(n, root).arena.slots[1 + j] == SlotOf(Rs(n, root)[j]);
  }

  lemma TouchedExact(n: NetState, root: Port, j: nat, k: Kind)
    requires Shipped(n, root) && WiresSymmetric(n, root) && j < |Order(n, root)| && Order(n, root)[j].At?
    ensures
      var i := Order(n, root)[j].slot;
      var p := Peer(n, Addr(i, k));
      (exists w :: w in Wires(n, root) && Touches(w, At(1 + j, k, 0))) <==>
      Emits(n, i, k) || (p.At? && p.slot in Idx(n, root) && Emits(n, p.slot, p.kind))
  {
    hide Walk, Wires, Shipped, Emits;
    IdxAt(n, root, j);
    var i, q := Order(n, root)[j].slot, At(1 + j, k, 0);
    var p := Peer(n, Addr(i, k));
    if Emits(n, i, k) {
      WireIn(n, root, j, k);
      assert Touches(WireOf(n, root, j, k), q);
    } else if p.At? && p.slot in Idx(n, root) && Emits(n, p.slot, p.kind) {
      var t := NumberOf(n, root, p.slot);
      WireIn(n, root, t, p.kind);
      assert Addresses(Peer(n, Addr(p.slot, p.kind)), i, k);
      assert Touches(WireOf(n, root, t, p.kind), q);
    }
    if w :| w in Wires(n, root) && Touches(w, q) {
      var j', k' := WireFrom(n, root, w);
      IdxAt(n, root, j');
      if w.src != q {
        WireAgreesBack(n, root, j, k, j', k');
      }
    }
  }

  lemma WireAgreesBack(n: NetState, root: Port, j: nat, k: Kind, j': nat, k': Kind)
    requires Shipped(n, root) && WiresSymmetric(n, root) && j < |Order(n, root)| && Order(n, root)[j].At?
    requires Carries(n, root, j', k') && WireOf(n, root, j', k').dst == At(1 + j, k, 0)
    ensures
      var p := Peer(n, Addr(Order(n, root)[j].slot, k));
      p.At? && p.slot == Order(n, root)[j'].slot && p.slot in Idx(n, root) && p.kind == k'
  {
    hide Walk, Wires, Shipped, Emits;
    IdxAt(n, root, j);
    IdxAt(n, root, j');
    var i' := Order(n, root)[j'].slot;
    var q := Peer(n, Addr(i', k'));
    var t := NumberOf(n, root, q.slot);
    assert Addresses(q, Order(n, root)[j].slot, k);
  }

  /** Each reachable agent to its slot in the decoded net. */
  ghost function Renaming(n: NetState, root: Port): map<nat, nat> {
    map i | i in Idx(n, root) :: Idx(n, root)[i] + 1
  }

  lemma DecodedLabel(n: NetState, root: Port, j: nat)
    requires Shipped(n, root) && j < |Order(n, root)|
    ensures
      && Order(n, root)[j].At? && Order(n, root)[j].slot < |n.arena.slots| && 1 + j < |Rebuilt(n, root).arena.slots|
      && LabelMatch(n.arena.slots[Order(n, root)[j].slot], Rebuilt(n, root).arena.slots[1 + j])
  {
    hide Walk, Base, Lay, Wires, Shipped;
    AgentAt(n, root, j);
    LayAgents(Base(n, root), Wires(n, root));
    assert SameAgent(Base(n, root).arena.slots[1 + j], Rebuilt(n, root).arena.slots[1 + j]);
  }

  lemma DecodedMatch(n: NetState, root: Port, j: nat, k: Kind)
    requires Shipped(n, root) && WiresSymmetric(n, root) && WiresCarried(n, root) && j < |Order(n, root)|
    ensures
      && Order(n, root)[j].At?
      && var i := Order(n, root)[j].slot;
         !AgentOf(n, i).FreeAgent? ==>
             PortMatch(Renaming(n, root), Peer(n, Addr(i, k)), Peer(Rebuilt(n, root), Addr(1 + j, k)))
  {
    hide Walk, Rebuilt, Shipped, Emits, WiresSymmetric;
    DecodedPort(n, root, j, k);
    PeerNumbered(n, root, j, k);
    IdxAt(n, root, j);
    NotPrim(n, root, j);
    var i := Order(n, root)[j].slot;
    var p := Peer(n, Addr(i, k));
    if !AgentOf(n, i).FreeAgent? && p.At? { var t := NumberOf(n, root, p.slot); }
  }

  lemma NotPrim(n: NetState, root: Port, j: nat)
    requires Shipped(n, root) && j < |Order(n, root)|
    ensures Order(n, root)[j].At? && !AgentOf(n, Order(n, root)[j].slot).PrimAgent?
  {
    hide Walk;
    RecordFacts(n, root, j);
  }

  /** The decoded net is the reachable part of the net up to slot numbers. */
  lemma DecodedIsomorphic(n: NetState, root: Port)
    requires Shipped(n, root) && WiresSymmetric(n, root) && WiresCarried(n, root)
    ensures Renaming(n, root).Keys == Seen(Order(n, root))
    ensures Matches(n, Rebuilt(n, root), Renaming(n, root))
    ensures AgentMatch(Renaming(n, root), root, At(1, Principal, 0))
  {
    hide Walk, Rebuilt, Shipped, WiresSymmetric, WiresCarried, PortMatch, LabelMatch;
    var phi := Renaming(n, root);
    NumberingKeys(Order(n, root));
    forall i | i in phi
      ensures i < |n.arena.slots| && phi[i] < |Rebuilt(n, root).arena.slots| &&
        LabelMatch(n.arena.slots[i], Rebuilt(n, root).arena.slots[phi[i]])
      ensures forall k :: !AgentOf(n, i).FreeAgent? ==>
        PortMatch(phi, Peer(n, Addr(i, k)), Peer(Rebuilt(n, root), Addr(phi[i], k)))
    {
      var j := NumberOf(n, root, i);
      DecodedLabel(n, root, j);
      forall k: Kind
        ensures !AgentOf(n, i).FreeAgent? ==>
          PortMatch(phi, Peer(n, Addr(i, k)), Peer(Rebuilt(n, root), Addr(phi[i], k)))
      {
        DecodedMatch(n, root, j, k);
      }
    }
    OneToOne(n, root);
    RootNumber(n, root);
  }

  lemma OneToOne(n: NetState, root: Port)
    requires Shipped(n, root)
    ensures var phi := Renaming(n, root); forall i, j :: i in phi && j in phi && phi[i] == phi[j] ==> i == j
  {
    hide Walk, Shipped;
    var phi := Renaming(n, root);
    forall i, j | i in phi && j in phi && phi[i] == phi[j]
      ensures i == j
    {
      var a := NumberOf(n, root, i);
      var b := NumberOf(n, root, j);
    }
  }

  lemma RootNumber(n: NetState, root: Port)
    requires Shipped(n, root)
    ensures root.At? && root.slot in Idx(n, root) && Idx(n, root)[root.slot] == 0
  {
    hide Walk;
    WalkStarts(n, root);
    IdxAt(n, root, 0);
  }

  /**
   The round trip. A reachable part with symmetric wires, each carried by one end, and no active
   function port is accepted back; the decoded net is isomorphic to it and has the same bytes.
   */
  lemma BlobRoundTrips(n: NetState, root: Port)
    requires Shipped(n, root) && WiresSymmetric(n, root) && WiresCarried(n, root) && Quiet(n, root)
    ensures
      && Serialize(n, root).Ok?
      && var blob := Serialize(n, root).value;
         && Deserialize(blob).Ok?
         && var (m, r) := Deserialize(blob).value;
            && Matches(n, m, Renaming(n, root)) && Renaming(n, root).Keys == Seen(Order(n, root))
            && AgentMatch(Renaming(n, root), root, r)
            && Words(m) && Closed(m) && InArena(m, r)
            && Serialize(m, r) == Ok(blob)
  {
    hide Walk, Rebuilt, Shipped, WiresSymmetric, WiresCarried, Quiet, Deserialize, Matches, Closed, Words;
    assert Words(n) && Closed(n) && InArena(n, root) by { ShippedNet(n, root); }
    BlobAccepted(n, root);
    DecodedIsomorphic(n, root);
    AcceptedIsPassive(Serialize(n, root).value);
    SerializeCanonical(n, Rebuilt(n, root), Renaming(n, root), root, At(1, Principal, 0));
  }

  lemma ShippedNet(n: NetState, root: Port)
    requires Shipped(n, root)
    ensures Words(n) && Closed(n) && InArena(n, root)
  {
  }
}
