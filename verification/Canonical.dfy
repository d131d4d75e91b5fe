/**
 Canonical serialization of a net: a depth-first walk numbers the agents reachable from the root,
 then one record per agent is emitted, with wires written as agent number and port selector.
 */
module Canonical {
  import opened Common
  import opened Arenas
  import opened Nets
  import opened ByteCodec

  const VERSION: Byte := 0x01
  const KIND_ABS: Byte := 0x01
  const KIND_APP: Byte := 0x02
  const KIND_REP: Byte := 0x03
  const KIND_FREE: Byte := 0x04
  const KIND_ERASER: Byte := 0xFF
  const ERASER_IDX := 0xFFFF_FFFF
  const ERASER_SEL: Byte := 0xFF
  const FREE_ID_END := 0x4000

  /** The fields of every slot have their machine widths and the ports stay inside the arena. */
  ghost predicate Words(n: NetState) {
    && |n.arena.slots| <= MAX_SLOTS
    && forall i {:trigger n.arena.slots[i]} :: 0 <= i < |n.arena.slots| ==>
      var s := n.arena.slots[i];
      s.data < U16_END && FitsI16(s.delta0) && FitsI16(s.delta1)
  }

  ghost predicate Closed(n: NetState) {
    forall i, k {:trigger Peer(n, Addr(i, k))} :: InArena(n, Peer(n, Addr(i, k)))
  }

  predicate InArena(n: NetState, p: Port) { p.At? ==> p.slot < |n.arena.slots| }

  // ---------------------------------------------------------------------------------------------
  // The walk

  /** The agents a visit continues with; a free agent and a primitive are leaves. */
  function Children(n: NetState, i: nat): seq<Port> {
    match AgentOf(n, i)
    case FreeAgent => []
    case PrimAgent => []
    case _ => [Peer(n, Addr(i, Principal)), Peer(n, Addr(i, Aux0)), Peer(n, Addr(i, Aux1))]
  }

  function Seen(order: seq<Port>): set<nat> {
    set p | p in order && p.At? :: p.slot
  }

  function Unseen(n: NetState, order: seq<Port>): set<nat> {
    set i: nat | i < |n.arena.slots| && i !in Seen(order)
  }

  /** Is `p` a port of an agent not numbered yet? An index past the arena would abort the program. */
  predicate Fresh(n: NetState, p: Port, order: seq<Port>) {
    p.At? && p.slot < |n.arena.slots| && p.slot !in Seen(order)
  }

  lemma SeenMore(n: NetState, p: Port, order: seq<Port>)
    ensures p.At? ==> Seen(order + [p]) == Seen(order) + {p.slot}
    ensures Fresh(n, p, order) ==> Unseen(n, order + [p]) < Unseen(n, order)
  {
    if p.At? {
      forall i
        ensures i in Seen(order + [p]) <==> i in Seen(order) + {p.slot}
      {
        if i in Seen(order) {
          var q :| q in order && q.At? && q.slot == i;
          assert q in order + [p];
        }
        if i == p.slot { assert p in order + [p]; }
      }
      if Fresh(n, p, order) { assert p.slot in Unseen(n, order) && p.slot !in Unseen(n, order + [p]); }
    }
  }

  /** The walk with the pending ports in the order they will be taken. */
  function Walk(n: NetState, todo: seq<Port>, order: seq<Port>): seq<Port>
    decreases Unseen(n, order), |todo|
  {
    if todo == [] then order
    else if !Fresh(n, todo[0], order) then Walk(n, todo[1..], order)
    else
      SeenMore(n, todo[0], order);
      Walk(n, Children(n, todo[0].slot) + todo[1..], order + [todo[0]])
  }

  /** Agent number by slot. */
  function Numbering(order: seq<Port>): map<nat, nat> {
    if order == [] then map[] else
    var last := order[|order| - 1];
    var m := Numbering(order[..|order| - 1]);
    if last.At? then m[last.slot := |order| - 1] else m
  }

  function Reversed(s: seq<Port>): (r: seq<Port>)
    ensures |r| == |s|
  {
    if s == [] then [] else [s[|s| - 1]] + Reversed(s[..|s| - 1])
  }

  lemma {:induction false} NumberingKeys(order: seq<Port>)
    ensures Numbering(order).Keys == Seen(order)
  {
    if order != [] {
      var rest := order[..|order| - 1];
      NumberingKeys(rest);
      assert order == rest + [order[|order| - 1]];
      if order[|order| - 1].At? {
        SeenMore(NewNet(0), order[|order| - 1], rest);
      } else {
        assert forall p: Port :: p.At? ==> (p in order <==> p in rest);
      }
    }
  }

  lemma WalkStep(n: NetState, stack: seq<Port>, order: seq<Port>)
    requires stack != []
    ensures
      var port, rest := stack[|stack| - 1], Reversed(stack[..|stack| - 1]);
      Walk(n, Reversed(stack), order) ==
      if Fresh(n, port, order) then Walk(n, Children(n, port.slot) + rest, order + [port]) else Walk(n, rest, order)
  {
    assert Reversed(stack)[1..] == Reversed(stack[..|stack| - 1]);
  }

  /** Push an agent's peers so that the principal's is popped first. */
  method PushPeers(n: NetState, slot: nat, stack: seq<Port>) returns (r: seq<Port>)
    ensures Reversed(r) == Children(n, slot) + Reversed(stack)
    ensures forall p :: p in r ==> p in stack || exists k :: p == Peer(n, Addr(slot, k))
  {
    var agent := AgentOf(n, slot);
    if agent.FanAbs? || agent.FanApp? || agent.Replicator? {
      var p, a, b := Peer(n, Addr(slot, Principal)), Peer(n, Addr(slot, Aux0)), Peer(n, Addr(slot, Aux1));
      ReversedPush3(stack, b, a, p);
      return stack + [b] + [a] + [p];
    }
    return stack;
  }

  /** The explicit-stack walk. */
  method DfsAssign(n: NetState, root: Port) returns (idx: map<nat, nat>, order: seq<Port>)
    requires Closed(n) && InArena(n, root)
    ensures order == Walk(n, [root], []) && idx == Numbering(order)
  {
    idx, order := map[], [];
    var stack := [root];
    assert Reversed(stack) == [root];
    while stack != []
      invariant idx == Numbering(order)
      invariant forall p :: p in stack ==> InArena(n, p)
      invariant Walk(n, Reversed(stack), order) == Walk(n, [root], [])
      decreases Unseen(n, order), |stack|
    {
      WalkStep(n, stack, order);
      NumberingKeys(order);
      var port := stack[|stack| - 1];
      assert InArena(n, port);
      stack := stack[..|stack| - 1];
      if port.At? && port.slot !in idx {
        assert Fresh(n, port, order);
        SeenMore(n, port, order);
        idx := idx[port.slot := |order|];
        assert (order + [port])[..|order|] == order;
        order := order + [port];
        stack := PushPeers(n, port.slot, stack);
      }
    }
  }

  lemma ReversedPush3(s: seq<Port>, a: Port, b: Port, c: Port)
    ensures Reversed(s + [a] + [b] + [c]) == [c, b, a] + Reversed(s)
  {
    ReversedPush(s + [a] + [b], c);
    ReversedPush(s + [a], b);
    ReversedPush(s, a);
  }

  lemma ReversedPush(s: seq<Port>, a: Port)
    ensures Reversed(s + [a]) == [a] + Reversed(s)
  {
    assert (s + [a])[..|s|] == s;
  }

  // ---------------------------------------------------------------------------------------------
  // Records

  datatype Edge = EraserEdge | Live(idx: nat, kind: Kind)

  datatype Record =
    | RAbs(body: Edge, bound: Edge)
    | RApp(func: Edge, arg: Edge)
    | RRep(level: nat, delta0: int, delta1: int, copy0: Edge, copy1: Edge)
    | RFree(id: nat)
    | REraser

  function EmitEdge(n: NetState, p: Port, idx: map<nat, nat>): Result<Edge> {
    var peer := Peer(n, p);
    if !peer.At? then Ok(EraserEdge)
    else if peer.slot in idx then Ok(Live(idx[peer.slot], peer.kind))
    else Err(ReadbackIncomplete)
  }

  function EmitRecord(n: NetState, p: Port, idx: map<nat, nat>): Result<Record> {
    if !p.At? then Ok(REraser) else
    if p.slot >= |n.arena.slots| then Err(Panic) else
    var s := n.arena.slots[p.slot];
    match s.agent
    case FreeAgent => Ok(RFree(s.data % FREE_ID_END))
    case FanAbs =>
      var e0 :- EmitEdge(n, Addr(p.slot, Aux0), idx);
      var e1 :- EmitEdge(n, Addr(p.slot, Aux1), idx);
      Ok(RAbs(e0, e1))
    case FanApp =>
      var e0 :- EmitEdge(n, Addr(p.slot, Principal), idx);
      var e1 :- EmitEdge(n, Addr(p.slot, Aux1), idx);
      Ok(RApp(e0, e1))
    case Replicator =>
      var e0 :- EmitEdge(n, Addr(p.slot, Aux0), idx);
      var e1 :- EmitEdge(n, Addr(p.slot, Aux1), idx);
      Ok(RRep(s.data, s.delta0, s.delta1, e0, e1))
    case PrimAgent => Err(PrimError)
  }

  /** The records of the agents from number `j` on. */
  function EmitFrom(n: NetState, order: seq<Port>, idx: map<nat, nat>, j: nat): (r: Result<seq<Record>>)
    requires j <= |order|
    ensures r.Ok? ==> |r.value| == |order| - j
    decreases |order| - j
  {
    if j == |order| then Ok([]) else
    var first :- EmitRecord(n, order[j], idx);
    var rest :- EmitFrom(n, order, idx, j + 1);
    Ok([first] + rest)
  }

  function Records(n: NetState, root: Port): Result<seq<Record>> {
    var order := Walk(n, [root], []);
    EmitFrom(n, order, Numbering(order), 0)
  }

  // ---------------------------------------------------------------------------------------------
  // The byte format

  function Selector(k: Kind): Byte {
    match k
    case Principal => 0
    case Aux0 => 1
    case Aux1 => 2
  }

  predicate ValidEdge(e: Edge) { e.Live? ==> e.idx < U32_END }

  predicate ValidRecord(r: Record) {
    match r
    case RAbs(a, b) => ValidEdge(a) && ValidEdge(b)
    case RApp(a, b) => ValidEdge(a) && ValidEdge(b)
    case RRep(l, d0, d1, a, b) => l < U16_END && FitsI16(d0) && FitsI16(d1) && ValidEdge(a) && ValidEdge(b)
    case RFree(id) => id < FREE_ID_END
    case REraser => true
  }

  predicate ValidRecords(rs: seq<Record>) {
    |rs| < U32_END && forall j :: 0 <= j < |rs| ==> ValidRecord(rs[j])
  }

  function EncodeEdge(e: Edge): (r: Bytes)
    requires ValidEdge(e)
    ensures |r| == 5
  {
    match e
    case EraserEdge => Le32(ERASER_IDX) + [ERASER_SEL]
    case Live(idx, kind) => Le32(idx) + [Selector(kind)]
  }

  function EncodeRecord(r: Record): (b: Bytes)
    requires ValidRecord(r)
    ensures |b| >= 1
  {
    match r
    case RAbs(e0, e1) => [KIND_ABS] + (EncodeEdge(e0) + EncodeEdge(e1))
    case RApp(e0, e1) => [KIND_APP] + (EncodeEdge(e0) + EncodeEdge(e1))
    case RRep(level, d0, d1, e0, e1) =>
      [KIND_REP] + (Le16(level) + (Le16(OfI16(d0)) + (Le16(OfI16(d1)) + (EncodeEdge(e0) + EncodeEdge(e1)))))
    case RFree(id) => [KIND_FREE] + Le32(id)
    case REraser => [KIND_ERASER]
  }

  function EncodeAll(rs: seq<Record>): Bytes
    requires forall j :: 0 <= j < |rs| ==> ValidRecord(rs[j])
  {
    if rs == [] then [] else EncodeRecord(rs[0]) + EncodeAll(rs[1..])
  }

  function Encode(rs: seq<Record>): Bytes
    requires ValidRecords(rs)
  {
    [VERSION] + (Le32(|rs|) + EncodeAll(rs))
  }

  /** Serialize the part of the net reachable from `root`. */
  ghost function Serialize(n: NetState, root: Port): Result<Bytes>
    requires Words(n) && Closed(n) && InArena(n, root)
  {
    var rs :- Records(n, root);
    RecordsValid(n, root);
    Ok(Encode(rs))
  }

  // ---------------------------------------------------------------------------------------------
  // Every number fits its field

  /** Distinct agents inside the arena. */
  ghost predicate Numbered(n: NetState, order: seq<Port>) {
    && (forall j :: 0 <= j < |order| ==> order[j].At? && order[j].slot < |n.arena.slots|)
    && (forall i, j :: 0 <= i < j < |order| ==> order[i].slot != order[j].slot)
  }

  lemma {:induction false} WalkNumbered(n: NetState, todo: seq<Port>, order: seq<Port>)
    requires Numbered(n, order)
    ensures Numbered(n, Walk(n, todo, order)) && order <= Walk(n, todo, order)
    decreases Unseen(n, order), |todo|
  {
    if todo != [] {
      if !Fresh(n, todo[0], order) {
        WalkNumbered(n, todo[1..], order);
      } else {
        SeenMore(n, todo[0], order);
        var p := todo[0];
        assert forall j :: 0 <= j < |order| ==> order[j] in order && order[j].slot in Seen(order);
        WalkNumbered(n, Children(n, p.slot) + todo[1..], order + [p]);
      }
    }
  }

  lemma NumberedCount(n: NetState, order: seq<Port>)
    requires Numbered(n, order)
    ensures |order| <= |n.arena.slots|
  {
    var slots := seq(|order|, j requires 0 <= j < |order| => order[j].slot);
    Pigeons(slots, |n.arena.slots|);
  }

  lemma {:induction false} Pigeons(s: seq<nat>, bound: nat)
    requires forall j :: 0 <= j < |s| ==> s[j] < bound
    requires forall i, j :: 0 <= i < j < |s| ==> s[i] != s[j]
    ensures |s| <= bound
    decreases bound
  {
    if bound > 0 {
      if bound - 1 in s {
        var k :| 0 <= k < |s| && s[k] == bound - 1;
        var rest := s[..k] + s[k + 1..];
        forall j | 0 <= j < |rest|
          ensures rest[j] < bound - 1
        {
          assert rest[j] == s[if j < k then j else j + 1];
        }
        Pigeons(rest, bound - 1);
      } else {
        assert forall j :: 0 <= j < |s| ==> s[j] in s;
        Pigeons(s, bound - 1);
      }
    }
    assert s != [] ==> s[0] < bound;
  }

  lemma {:induction false} NumberingBound(order: seq<Port>, i: nat)
    requires i in Numbering(order)
    ensures Numbering(order)[i] < |order| && order[Numbering(order)[i]].At? && order[Numbering(order)[i]].slot == i
  {
    var last := order[|order| - 1];
    if !(last.At? && last.slot == i) { NumberingBound(order[..|order| - 1], i); }
  }

  lemma {:induction false} EmittedValid(n: NetState, order: seq<Port>, idx: map<nat, nat>, j: nat)
    requires Words(n) && j <= |order| && EmitFrom(n, order, idx, j).Ok?
    requires forall i :: i in idx ==> idx[i] < U32_END
    ensures forall k :: 0 <= k < |order| - j ==> ValidRecord(EmitFrom(n, order, idx, j).value[k])
    decreases |order| - j
  {
    if j < |order| { EmittedValid(n, order, idx, j + 1); }
  }

  lemma RecordsValid(n: NetState, root: Port)
    requires Words(n) && Records(n, root).Ok?
    ensures ValidRecords(Records(n, root).value)
  {
    var order := Walk(n, [root], []);
    WalkNumbered(n, [root], []);
    NumberedCount(n, order);
    forall i | i in Numbering(order)
      ensures Numbering(order)[i] < U32_END
    {
      NumberingBound(order, i);
    }
    EmittedValid(n, order, Numbering(order), 0);
  }
}
