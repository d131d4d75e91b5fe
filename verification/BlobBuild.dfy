/** What rebuilding a net from records does: fresh agents, then exactly the planned wires. */
module BlobBuild {
  import opened Common
  import opened Arenas
  import opened Nets
  import opened ByteCodec
  import opened Canonical
  import opened Blob
  import BlobProof

  // ---------------------------------------------------------------------------------------------
  // Allocation

  /** The slot a record allocates. */
  function SlotOf(r: Record): Slot {
    match r
    case REraser => EMPTY
    case RFree(id) => EMPTY.(agent := FreeAgent, data := id % FREE_ID_END)
    case RAbs(_, _) => EMPTY.(agent := FanAbs)
    case RApp(_, _) => EMPTY.(agent := FanApp)
    case RRep(level, d0, d1, _, _) => EMPTY.(agent := Replicator, data := level, delta0 := d0, delta1 := d1)
  }

  lemma AllocStep(n: NetState, r: Record)
    requires n.arena.free == [] && !r.REraser? && |n.arena.slots| < n.arena.cap
    ensures
      var (m, p) := AllocRecord(n, r).value;
      && AllocRecord(n, r).Ok?
      && m.arena.slots == n.arena.slots + [SlotOf(r)] && m.arena.free == [] && m.arena.cap == n.arena.cap
      && m.f1 == n.f1 && m.f2 == n.f2 && m.pendingC1 == n.pendingC1
      && p == At(|n.arena.slots|, Principal, 0)
  {
  }

  lemma AllocFull(n: NetState, r: Record)
    requires n.arena.free == [] && !r.REraser? && |n.arena.slots| >= n.arena.cap
    ensures AllocRecord(n, r).Err?
  {
  }

  /** Fresh consecutive slots, one per record. */
  lemma {:induction false} AllocExact(n: NetState, rs: seq<Record>, slots: seq<Port>)
    requires n.arena.free == [] && |n.arena.slots| + |rs| <= n.arena.cap && REraser !in rs
    ensures
      && AllocAll(n, rs, slots).Ok?
      && var (m, ps) := AllocAll(n, rs, slots).value;
         && |m.arena.slots| == |n.arena.slots| + |rs| && m.arena.slots[..|n.arena.slots|] == n.arena.slots
         && (forall i :: |n.arena.slots| <= i < |m.arena.slots| ==> m.arena.slots[i] == SlotOf(rs[i - |n.arena.slots|]))
         && m.f1 == n.f1 && m.f2 == n.f2 && m.pendingC1 == n.pendingC1
         && |ps| == |slots| + |rs| && ps[..|slots|] == slots
         && (forall i :: |slots| <= i < |ps| ==> ps[i] == At(|n.arena.slots| + (i - |slots|), Principal, 0))
    decreases |rs|
  {
    hide AllocRecord, SlotOf;
    if rs != [] {
      AllocStep(n, rs[0]);
      var (m, p) := AllocRecord(n, rs[0]).value;
      AllocExact(m, rs[1..], slots + [p]);
      var (k, ps) := AllocAll(n, rs, slots).value;
      var base := |n.arena.slots|;
      assert m.arena.slots[..base] == n.arena.slots && k.arena.slots[..base] == k.arena.slots[..base + 1][..base];
      assert ps[..|slots|] == ps[..|slots| + 1][..|slots|];
      assert k.arena.slots[base] == k.arena.slots[..base + 1][base];
      assert ps[|slots|] == ps[..|slots| + 1][|slots|];
      assert forall j :: 0 < j < |rs| ==> rs[j] == rs[1..][j - 1];
    }
  }

  // ---------------------------------------------------------------------------------------------
  // The plan holds every emitted edge

  /** Edge `t` of record `j` as a wire. */
  predicate IsWire(slots: seq<Port>, rs: seq<Record>, j: nat, t: nat, w: Wire)
    requires |slots| == |rs|
  {
    && j < |rs| && t < |Edges(rs[j])|
    && w.src == PortOn(slots[j], Edges(rs[j])[t].0) && Resolve(slots, Edges(rs[j])[t].1) == Ok(w.dst)
  }

  lemma {:induction false} PlanEdgesAt(slots: seq<Port>, base: Port, edges: seq<(Kind, Edge)>)
    requires PlanEdges(slots, base, edges).Ok?
    ensures
      var ws := PlanEdges(slots, base, edges).value;
      && |ws| == |edges|
      && forall t :: 0 <= t < |edges| ==>
          ws[t].src == PortOn(base, edges[t].0) && Resolve(slots, edges[t].1) == Ok(ws[t].dst)
  {
    if edges != [] {
      PlanEdgesAt(slots, base, edges[1..]);
      assert forall t :: 0 < t < |edges| ==> edges[t] == edges[1..][t - 1];
    }
  }

  /** Every planned wire is an edge of some record. */
  lemma {:induction false} PlanSound(slots: seq<Port>, rs: seq<Record>, j: nat, w: Wire) returns (i: nat, t: nat)
    requires |slots| == |rs| && j <= |rs| && Plan(slots, rs, j).Ok? && w in Plan(slots, rs, j).value
    ensures j <= i && IsWire(slots, rs, i, t, w)
    decreases |rs| - j
  {
    hide Edges;
    PlanEdgesAt(slots, slots[j], Edges(rs[j]));
    var first := PlanEdges(slots, slots[j], Edges(rs[j])).value;
    if w in first {
      i := j;
      t :| 0 <= t < |first| && first[t] == w;
    } else {
      i, t := PlanSound(slots, rs, j + 1, w);
    }
  }

  /** Every edge of every record is planned. */
  lemma {:induction false} PlanComplete(slots: seq<Port>, rs: seq<Record>, j: nat, i: nat, t: nat) returns (w: Wire)
    requires |slots| == |rs| && j <= i < |rs| && t < |Edges(rs[i])| && Plan(slots, rs, j).Ok?
    ensures IsWire(slots, rs, i, t, w) && w in Plan(slots, rs, j).value
    decreases |rs| - j
  {
    hide Edges;
    PlanEdgesAt(slots, slots[j], Edges(rs[j]));
    var first := PlanEdges(slots, slots[j], Edges(rs[j])).value;
    if i == j {
      w := first[t];
      assert w in first;
    } else {
      w := PlanComplete(slots, rs, j + 1, i, t);
    }
  }

  lemma {:induction false} PlanEdgesOk(slots: seq<Port>, base: Port, edges: seq<(Kind, Edge)>)
    requires forall t :: 0 <= t < |edges| ==> Resolve(slots, edges[t].1).Ok?
    ensures PlanEdges(slots, base, edges).Ok?
  {
    if edges != [] {
      assert forall t :: 0 <= t < |edges| - 1 ==> edges[1..][t] == edges[t + 1];
      PlanEdgesOk(slots, base, edges[1..]);
    }
  }

  lemma {:induction false} PlanOk(slots: seq<Port>, rs: seq<Record>, j: nat)
    requires |slots| == |rs| && j <= |rs|
    requires forall i, t :: 0 <= i < |rs| && 0 <= t < |Edges(rs[i])| ==> Resolve(slots, Edges(rs[i])[t].1).Ok?
    ensures Plan(slots, rs, j).Ok?
    decreases |rs| - j
  {
    hide Edges;
    if j < |rs| {
      PlanEdgesOk(slots, slots[j], Edges(rs[j]));
      PlanOk(slots, rs, j + 1);
    }
  }

  // ---------------------------------------------------------------------------------------------
  // Laying wires

  predicate SameAgent(s: Slot, t: Slot) {
    s.agent == t.agent && s.data == t.data && s.delta0 == t.delta0 && s.delta1 == t.delta1 && s.gen == t.gen
  }

  ghost predicate SameAgents(n: NetState, m: NetState) {
    && |n.arena.slots| == |m.arena.slots|
    && forall i :: 0 <= i < |n.arena.slots| ==> SameAgent(n.arena.slots[i], m.arena.slots[i])
  }

  lemma WriteAgents(n: NetState, p: Port, v: Port)
    ensures SameAgents(n, WritePort(n, p, v))
  {
  }

  lemma ConnectAgents(n: NetState, a: Port, b: Port)
    ensures SameAgents(n, Connect(n, a, b, []))
  {
    hide WritePort;
    var m := WritePort(n, a, b);
    WriteAgents(n, a, b);
    WriteAgents(m, b, a);
  }

  lemma {:induction false} LayAgents(n: NetState, ws: seq<Wire>)
    ensures SameAgents(n, Lay(n, ws)) && Lay(n, ws).pendingC1 == n.pendingC1
    decreases |ws|
  {
    hide Connect;
    if ws != [] {
      ConnectAgents(n, ws[0].src, ws[0].dst);
      ConnectFlags(n, ws[0].src, ws[0].dst);
      LayAgents(Connect(n, ws[0].src, ws[0].dst, []), ws[1..]);
    }
  }

  lemma ConnectFlags(n: NetState, a: Port, b: Port)
    ensures Connect(n, a, b, []).pendingC1 == n.pendingC1
  {
  }

  /** A wire between two principal ports; an eraser counts as one. */
  predicate ActiveEnds(w: Wire) {
    KindOf(w.src).Principal? && KindOf(w.dst).Principal? && !w.src.Null? && !w.dst.Null?
  }

  /** The first frontier ends empty exactly if no wire joins two principal ports. */
  lemma {:induction false} LayFrontier1(n: NetState, ws: seq<Wire>)
    ensures Lay(n, ws).f1 == map[] <==> n.f1 == map[] && forall w :: w in ws ==> !ActiveEnds(w)
    decreases |ws|
  {
    if ws != [] {
      var m := Connect(n, ws[0].src, ws[0].dst, []);
      assert m.f1 == map[] <==> n.f1 == map[] && !ActiveEnds(ws[0]) by { ConnectFrontier1(n, ws[0]); }
      LayFrontier1(m, ws[1..]);
      assert ws == [ws[0]] + ws[1..];
    }
  }

  lemma ConnectFrontier1(n: NetState, w: Wire)
    ensures Connect(n, w.src, w.dst, []).f1 == map[] <==> n.f1 == map[] && !ActiveEnds(w)
  {
    if ActiveEnds(w) { assert [] in Connect(n, w.src, w.dst, []).f1; }
  }

  /** The source is neither a replicator's principal nor an application's result. */
  predicate Plain(n: NetState, w: Wire) {
    && !(KindOf(w.src).Principal? && IsRepPort(n, w.src))
    && !(KindOf(w.src).Aux0? && IsAppPort(n, w.src))
  }

  lemma {:induction false} LayFrontier2(n: NetState, ws: seq<Wire>)
    requires forall w :: w in ws ==> Plain(n, w)
    ensures Lay(n, ws).f2 == n.f2
    decreases |ws|
  {
    if ws != [] {
      var m := Connect(n, ws[0].src, ws[0].dst, []);
      ConnectAgents(n, ws[0].src, ws[0].dst);
      assert ws[0] in ws && m.f2 == n.f2 by { ConnectFrontier2(n, ws[0]); }
      forall w | w in ws[1..]
        ensures Plain(m, w)
      {
        assert w in ws;
        PlainSame(n, m, w);
      }
      LayFrontier2(m, ws[1..]);
    }
  }

  lemma ConnectFrontier2(n: NetState, w: Wire)
    requires Plain(n, w)
    ensures Connect(n, w.src, w.dst, []).f2 == n.f2
  {
    var a := WritePort(n, w.src, w.dst);
    var b := WritePort(a, w.dst, w.src);
    assert forall i :: AgentOf(b, i) == AgentOf(n, i);
  }

  lemma PlainSame(n: NetState, m: NetState, w: Wire)
    requires SameAgents(n, m)
    ensures Plain(n, w) <==> Plain(m, w)
  {
    if w.src.At? && w.src.slot < |n.arena.slots| {
      assert SameAgent(n.arena.slots[w.src.slot], m.arena.slots[w.src.slot]);
    }
  }

  // ---------------------------------------------------------------------------------------------
  // Where a port ends up

  predicate Canon(p: Port) { p.At? ==> p.gen == 0 }

  predicate Touches(w: Wire, p: Port) { w.src == p || w.dst == p }

  /** The wire gives `p` the value `v`. */
  predicate Gives(w: Wire, p: Port, v: Port) {
    Canon(w.src) && Canon(w.dst) && (w.src == p ==> w.dst == v) && (w.dst == p ==> w.src == v)
  }

  lemma ConnectAt(n: NetState, w: Wire, p: Port, v: Port)
    requires p.At? && p.gen == 0 && p.slot < |n.arena.slots| && Gives(w, p, v)
    ensures Peer(Connect(n, w.src, w.dst, []), p) == if Touches(w, p) then v else Peer(n, p)
  {
    var a := WritePort(n, w.src, w.dst);
    assert Peer(a, p) == if w.src == p then w.dst else Peer(n, p) by { WriteAt(n, w.src, w.dst, p); }
    assert Peer(WritePort(a, w.dst, w.src), p) == if w.dst == p then w.src else Peer(a, p) by {
      WriteAt(a, w.dst, w.src, p);
    }
  }

  lemma WriteAt(n: NetState, q: Port, v: Port, p: Port)
    requires p.At? && p.gen == 0 && p.slot < |n.arena.slots| && Canon(q)
    ensures Peer(WritePort(n, q, v), p) == if q == p then v else Peer(n, p)
  {
    if q.At? && q.slot == p.slot && q.slot < |n.arena.slots| {
      assert q == p <==> q.kind == p.kind;
    }
  }

  /** If every wire that touches `p` gives it `v`, it ends with `v` when touched and is unchanged otherwise. */
  lemma {:induction false} LayAt(n: NetState, ws: seq<Wire>, p: Port, v: Port)
    requires p.At? && p.gen == 0 && p.slot < |n.arena.slots| && forall w :: w in ws ==> Gives(w, p, v)
    ensures Peer(Lay(n, ws), p) == if exists w :: w in ws && Touches(w, p) then v else Peer(n, p)
    decreases |ws|
  {
    hide Connect, Gives, Touches;
    if ws != [] {
      var m := Connect(n, ws[0].src, ws[0].dst, []);
      assert ws[0] in ws;
      ConnectAt(n, ws[0], p, v);
      ConnectAgents(n, ws[0].src, ws[0].dst);
      LayAt(m, ws[1..], p, v);
      assert ws == [ws[0]] + ws[1..];
    }
  }

  // ---------------------------------------------------------------------------------------------
  // What holds of every decoded net, whatever the records

  /** The port holds nothing, or a wire to an auxiliary port. */
  predicate Passive(p: Port) { p.Null? || (p.At? && !p.kind.Principal?) }

  ghost predicate AllPassive(n: NetState) {
    forall i {:trigger Peer(n, Addr(i, Principal))} :: Passive(Peer(n, Addr(i, Principal)))
  }

  lemma WritePeer(n: NetState, q: Port, v: Port, i: nat, k: Kind)
    ensures Peer(WritePort(n, q, v), Addr(i, k)) == Peer(n, Addr(i, k)) || (q.At? && q.kind == k &&
      Peer(WritePort(n, q, v), Addr(i, k)) == v)
  {
  }

  lemma ConnectPeer(n: NetState, w: Wire, i: nat, k: Kind)
    ensures
      var p := Peer(Connect(n, w.src, w.dst, []), Addr(i, k));
      || p == Peer(n, Addr(i, k))
      || (w.src.At? && w.src.kind == k && p == w.dst)
      || (w.dst.At? && w.dst.kind == k && p == w.src)
  {
    hide WritePort;
    var a := WritePort(n, w.src, w.dst);
    var b := WritePort(a, w.dst, w.src);
    WritePeer(n, w.src, w.dst, i, k);
    WritePeer(a, w.dst, w.src, i, k);
    assert Peer(Connect(n, w.src, w.dst, []), Addr(i, k)) == Peer(b, Addr(i, k));
  }

  lemma {:induction false} LayPassive(n: NetState, ws: seq<Wire>)
    requires AllPassive(n) && forall w :: w in ws ==> !ActiveEnds(w)
    ensures AllPassive(Lay(n, ws))
    decreases |ws|
  {
    hide Connect;
    if ws != [] {
      var m := Connect(n, ws[0].src, ws[0].dst, []);
      assert ws[0] in ws;
      forall i
        ensures Passive(Peer(m, Addr(i, Principal)))
      {
        assert Passive(Peer(n, Addr(i, Principal)));
        ConnectPeer(n, ws[0], i, Principal);
      }
      LayPassive(m, ws[1..]);
    }
  }

  lemma {:induction false} LayClosed(n: NetState, ws: seq<Wire>)
    requires Closed(n) && forall w :: w in ws ==> InArena(n, w.src) && InArena(n, w.dst)
    ensures Closed(Lay(n, ws))
    decreases |ws|
  {
    hide Connect;
    if ws != [] {
      var m := Connect(n, ws[0].src, ws[0].dst, []);
      assert ws[0] in ws;
      ConnectAgents(n, ws[0].src, ws[0].dst);
      forall i, k
        ensures InArena(m, Peer(m, Addr(i, k)))
      {
        assert InArena(n, Peer(n, Addr(i, k)));
        ConnectPeer(n, ws[0], i, k);
      }
      LayClosed(m, ws[1..]);
    }
  }

  lemma LayWords(n: NetState, ws: seq<Wire>)
    requires Words(n)
    ensures Words(Lay(n, ws))
  {
    hide Lay;
    LayAgents(n, ws);
    var m := Lay(n, ws);
    forall i | 0 <= i < |m.arena.slots|
      ensures m.arena.slots[i].data < U16_END && FitsI16(m.arena.slots[i].delta0) && FitsI16(m.arena.slots[i].delta1)
    {
      assert SameAgent(n.arena.slots[i], m.arena.slots[i]);
      var s := n.arena.slots[i];
    }
  }

  /** Null everywhere, within capacity, with machine-sized fields. */
  ghost predicate Blank(n: NetState) {
    && n.arena.free == [] && 0 < |n.arena.slots| <= MAX_SLOTS && n.arena.cap <= MAX_SLOTS
    && Words(n)
    && (forall i, k :: Peer(n, Addr(i, k)) == Null)
    && n.f1 == map[] && n.f2 == map[] && !n.pendingC1
  }

  predicate Allotted(n: NetState, p: Port) { p.Eraser? || (p.At? && p.slot < |n.arena.slots|) }

  lemma AllocBlank(n: NetState, r: Record)
    requires Blank(n) && ValidRecord(r) && AllocRecord(n, r).Ok?
    ensures
      var (m, p) := AllocRecord(n, r).value;
      Blank(m) && Allotted(m, p) && |n.arena.slots| <= |m.arena.slots|
  {
    if !r.REraser? {
      if |n.arena.slots| >= n.arena.cap { AllocFull(n, r); assert false; }
      AllocStep(n, r);
      var m := AllocRecord(n, r).value.0;
      var s := SlotOf(r);
      assert s.data < U16_END && FitsI16(s.delta0) && FitsI16(s.delta1);
      forall i, k
        ensures Peer(m, Addr(i, k)) == Null
      {
        assert Peer(n, Addr(i, k)) == Null;
      }
    }
  }

  lemma {:induction false} AllocAllBlank(n: NetState, rs: seq<Record>, slots: seq<Port>)
    requires Blank(n) && (forall j :: 0 <= j < |rs| ==> ValidRecord(rs[j])) && AllocAll(n, rs, slots).Ok?
    requires forall j :: 0 <= j < |slots| ==> Allotted(n, slots[j])
    ensures
      var (m, ps) := AllocAll(n, rs, slots).value;
      Blank(m) && forall j :: 0 <= j < |ps| ==> Allotted(m, ps[j])
    decreases |rs|
  {
    hide AllocRecord, Blank, ValidRecord;
    if rs != [] {
      AllocBlank(n, rs[0]);
      var (m, p) := AllocRecord(n, rs[0]).value;
      AllocAllBlank(m, rs[1..], slots + [p]);
    }
  }

  lemma NewBlank(capacity: nat)
    ensures Blank(NewNet(capacity))
  {
  }

  lemma PlannedInArena(n: NetState, slots: seq<Port>, rs: seq<Record>, w: Wire)
    requires |slots| == |rs| && |n.arena.slots| > 0 && Plan(slots, rs, 0).Ok? && w in Plan(slots, rs, 0).value
    requires forall j :: 0 <= j < |slots| ==> Allotted(n, slots[j])
    ensures InArena(n, w.src) && InArena(n, w.dst)
  {
    hide Plan;
    var i, t := PlanSound(slots, rs, 0, w);
  }

  /** Any accepted blob decodes to a well-formed net without a wire between two principal ports. */
  lemma AcceptedIsPassive(input: Bytes)
    requires Deserialize(input).Ok?
    ensures
      var (n, root) := Deserialize(input).value;
      Words(n) && Closed(n) && InArena(n, root) && AllPassive(n)
  {
    hide Decode, AllocAll, Plan, Lay, Closed, Words, AllPassive;
    var rs := Decode(input).value;
    BlobProof.EncodeDecode(input);
    var start := NewNet(Capacity(|rs|));
    NewBlank(Capacity(|rs|));
    AllocAllBlank(start, rs, []);
    AllocCount(start, rs, []);
    var (b, slots) := AllocAll(start, rs, []).value;
    var ws := Plan(slots, rs, 0).value;
    BlankFacts(b);
    forall w | w in ws
      ensures InArena(b, w.src) && InArena(b, w.dst)
    {
      PlannedInArena(b, slots, rs, w);
    }
    LayFrontier1(b, ws);
    LayPassive(b, ws);
    LayClosed(b, ws);
    LayWords(b, ws);
    LayAgents(b, ws);
    assert Allotted(b, slots[0]);
  }

  lemma BlankFacts(n: NetState)
    requires Blank(n)
    ensures Words(n) && Closed(n) && AllPassive(n)
  {
  }
}
