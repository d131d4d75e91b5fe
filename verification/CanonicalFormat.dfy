/**
 The blob format, field by field: which bytes stand where, given the wires of the net and the
 recursive pre-order of its agents.
 */
module CanonicalFormat {
  import opened Common
  import opened Arenas
  import opened Nets
  import opened ByteCodec
  import opened Canonical
  import opened CanonicalProof

  // ---------------------------------------------------------------------------------------------
  // Fields

  /** A number of two bytes, the low one first. */
  predicate U16At(b: Bytes, o: nat, v: int) {
    o + 2 <= |b| && v == (b[o] as int) + 256 * (b[o + 1] as int)
  }

  /** A signed number of two bytes. */
  predicate I16At(b: Bytes, o: nat, v: int) {
    -0x8000 <= v < 0x8000 && U16At(b, o, if v < 0 then v + 0x1_0000 else v)
  }

  /** A number of four bytes, the lowest first. */
  predicate U32At(b: Bytes, o: nat, v: int) {
    && o + 4 <= |b|
    && v == (b[o] as int) + 256 * (b[o + 1] as int) + 0x1_0000 * (b[o + 2] as int) + 0x100_0000 * (b[o + 3] as int)
  }

  /** Principal, first and second auxiliary port are 0, 1 and 2. */
  function PortNumber(k: Kind): int { if k.Principal? then 0 else if k.Aux0? then 1 else 2 }

  /** What port `p` is wired to: the number of the agent and of its port, or all ones for no agent. */
  ghost predicate EdgeAt(b: Bytes, o: nat, n: NetState, order: seq<Port>, p: Port) {
    && o + 5 <= |b|
    && var q := Peer(n, p);
       if q.At? then
         exists j :: 0 <= j < |order| && order[j].At? && order[j].slot == q.slot && U32At(b, o, j) &&
           b[o + 4] == PortNumber(q.kind)
       else U32At(b, o, 0xFFFF_FFFF) && b[o + 4] == 0xFF
  }

  /** The record of the agent in slot `i`: its kind, its labels and the wires it carries. */
  ghost predicate RecordAt(b: Bytes, o: nat, n: NetState, order: seq<Port>, i: nat)
    requires i < |n.arena.slots|
  {
    var s := n.arena.slots[i];
    o < |b| &&
    match s.agent
    case FanAbs =>
      b[o] == 1 && EdgeAt(b, o + 1, n, order, At(i, Aux0, 0)) && EdgeAt(b, o + 6, n, order, At(i, Aux1, 0))
    case FanApp =>
      b[o] == 2 && EdgeAt(b, o + 1, n, order, At(i, Principal, 0)) && EdgeAt(b, o + 6, n, order, At(i, Aux1, 0))
    case Replicator =>
      && b[o] == 3 && U16At(b, o + 1, s.data) && I16At(b, o + 3, s.delta0) && I16At(b, o + 5, s.delta1)
      && EdgeAt(b, o + 7, n, order, At(i, Aux0, 0)) && EdgeAt(b, o + 12, n, order, At(i, Aux1, 0))
    case FreeAgent => b[o] == 4 && U32At(b, o + 1, s.data % 0x4000)
    case PrimAgent => false
  }

  function RecordSize(a: Agent): nat {
    match a
    case FanAbs => 11
    case FanApp => 11
    case Replicator => 17
    case _ => 5
  }

  /** Where record `j` starts, after the version byte and the count. */
  function Offset(n: NetState, order: seq<Port>, j: nat): nat
    requires j <= |order| && forall k :: 0 <= k < |order| ==> order[k].At?
  {
    if j == 0 then 5 else Offset(n, order, j - 1) + RecordSize(AgentOf(n, order[j - 1].slot))
  }

  // ---------------------------------------------------------------------------------------------
  // Encodings fill their fields

  lemma HeldAt(b: Bytes, o: nat, part: Bytes, i: nat)
    requires Holds(b, o, part) && i < |part|
    ensures o + i < |b| && b[o + i] == part[i]
  {
    assert b[o..o + |part|][i] == part[i];
  }

  lemma Le16At(b: Bytes, o: nat, v: nat)
    requires v < U16_END && Holds(b, o, Le16(v))
    ensures U16At(b, o, v)
  {
    assert Le(v / 256, 1) == [v / 256 % 256];
    assert Le16(v) == [v % 256, v / 256];
    HeldAt(b, o, Le16(v), 0);
    HeldAt(b, o, Le16(v), 1);
  }

  lemma Le32Is(v: nat)
    requires v < U32_END
    ensures Le32(v) == [v % 256, v / 256 % 256, v / 0x1_0000 % 256, v / 0x100_0000]
  {
    var a := v / 256;
    var c := a / 256;
    var d := c / 256;
    assert c == v / 0x1_0000 && d == v / 0x100_0000;
    assert Le(d, 1) == [d % 256] + Le(d / 256, 0) == [d];
    assert Le(c, 2) == [c % 256] + Le(d, 1);
    assert Le(a, 3) == [a % 256] + Le(c, 2);
    assert Le(v, 4) == [v % 256] + Le(a, 3);
  }

  lemma Le32At(b: Bytes, o: nat, v: nat)
    requires v < U32_END && Holds(b, o, Le32(v))
    ensures U32At(b, o, v)
  {
    hide Le32, Holds;
    Le32Is(v);
    HeldAt(b, o, Le32(v), 0);
    HeldAt(b, o, Le32(v), 1);
    HeldAt(b, o, Le32(v), 2);
    HeldAt(b, o, Le32(v), 3);
    FourBytes(v);
  }

  lemma FourBytes(v: nat)
    ensures v == v % 256 + 256 * (v / 256 % 256) + 0x1_0000 * (v / 0x1_0000 % 256) + 0x100_0000 * (v / 0x100_0000)
  {
    var a := v / 256;
    var c := a / 256;
    assert c == v / 0x1_0000 && c / 256 == v / 0x100_0000;
  }

  lemma EdgeFilled(b: Bytes, o: nat, n: NetState, order: seq<Port>, p: Port)
    requires EmitEdge(n, p, Numbering(order)).Ok? && ValidEdge(EmitEdge(n, p, Numbering(order)).value)
    requires Holds(b, o, EncodeEdge(EmitEdge(n, p, Numbering(order)).value))
    ensures EdgeAt(b, o, n, order, p)
  {
    hide Holds, Le32, Numbering, U32At;
    var e := EmitEdge(n, p, Numbering(order)).value;
    var idx := if e.Live? then e.idx else ERASER_IDX;
    var sel := if e.Live? then Selector(e.kind) else ERASER_SEL;
    HoldsConcat(b, o, Le32(idx), [sel]);
    Le32At(b, o, idx);
    HeldAt(b, o + 4, [sel], 0);
    if e.Live? { NumberingBound(order, Peer(n, p).slot); }
  }

  /** The record of one agent fills its fields. */
  lemma RecordFilled(b: Bytes, o: nat, n: NetState, order: seq<Port>, p: Port)
    requires p.At? && p.slot < |n.arena.slots|
    requires EmitRecord(n, p, Numbering(order)).Ok? && ValidRecord(EmitRecord(n, p, Numbering(order)).value)
    requires Holds(b, o, EncodeRecord(EmitRecord(n, p, Numbering(order)).value))
    ensures RecordAt(b, o, n, order, p.slot)
    ensures |EncodeRecord(EmitRecord(n, p, Numbering(order)).value)| == RecordSize(AgentOf(n, p.slot))
  {
    hide Holds, EmitEdge, EncodeEdge, EdgeAt, Le16, Le32, U16At, U32At, OfI16;
    var r, i := EmitRecord(n, p, Numbering(order)).value, p.slot;
    HeldAt(b, o, EncodeRecord(r), 0);
    match r
    case RAbs(e0, e1) =>
      HoldsConcat(b, o, [KIND_ABS], EncodeEdge(e0) + EncodeEdge(e1));
      EdgesFilled(b, o + 1, n, order, Addr(i, Aux0), Addr(i, Aux1));
    case RApp(e0, e1) =>
      HoldsConcat(b, o, [KIND_APP], EncodeEdge(e0) + EncodeEdge(e1));
      EdgesFilled(b, o + 1, n, order, Addr(i, Principal), Addr(i, Aux1));
    case RRep(level, d0, d1, e0, e1) =>
      RepFilled(b, o, level, d0, d1, EncodeEdge(e0) + EncodeEdge(e1));
      EdgesFilled(b, o + 7, n, order, Addr(i, Aux0), Addr(i, Aux1));
    case RFree(id) =>
      HoldsConcat(b, o, [KIND_FREE], Le32(id));
      Le32At(b, o + 1, id);
  }

  lemma EdgesFilled(b: Bytes, o: nat, n: NetState, order: seq<Port>, p: Port, q: Port)
    requires EmitEdge(n, p, Numbering(order)).Ok? && ValidEdge(EmitEdge(n, p, Numbering(order)).value)
    requires EmitEdge(n, q, Numbering(order)).Ok? && ValidEdge(EmitEdge(n, q, Numbering(order)).value)
    requires Holds(b, o, EncodeEdge(EmitEdge(n, p, Numbering(order)).value) +
                         EncodeEdge(EmitEdge(n, q, Numbering(order)).value))
    ensures EdgeAt(b, o, n, order, p) && EdgeAt(b, o + 5, n, order, q)
  {
    hide Holds, EmitEdge, EncodeEdge, EdgeAt;
    HoldsConcat(b, o, EncodeEdge(EmitEdge(n, p, Numbering(order)).value),
        EncodeEdge(EmitEdge(n, q, Numbering(order)).value));
    EdgeFilled(b, o, n, order, p);
    EdgeFilled(b, o + 5, n, order, q);
  }

  lemma RepFilled(b: Bytes, o: nat, level: nat, d0: int, d1: int, edges: Bytes)
    requires level < U16_END && FitsI16(d0) && FitsI16(d1)
    requires Holds(b, o, [KIND_REP] + (Le16(level) + (Le16(OfI16(d0)) + (Le16(OfI16(d1)) + edges))))
    ensures U16At(b, o + 1, level) && I16At(b, o + 3, d0) && I16At(b, o + 5, d1) && Holds(b, o + 7, edges)
  {
    hide Holds, Le16, U16At;
    var a, c := Le16(OfI16(d0)), Le16(OfI16(d1));
    HoldsConcat(b, o, [KIND_REP], Le16(level) + (a + (c + edges)));
    HoldsConcat(b, o + 1, Le16(level), a + (c + edges));
    HoldsConcat(b, o + 3, a, c + edges);
    HoldsConcat(b, o + 5, c, edges);
    Le16At(b, o + 1, level);
    Le16At(b, o + 3, OfI16(d0));
    Le16At(b, o + 5, OfI16(d1));
  }

  lemma {:induction false} AllFilled(b: Bytes, n: NetState, order: seq<Port>, j: nat)
    requires Numbered(n, order) && j <= |order|
    requires EmitFrom(n, order, Numbering(order), j).Ok?
    requires var rs := EmitFrom(n, order, Numbering(order), j).value;
      (forall k :: 0 <= k < |rs| ==> ValidRecord(rs[k])) && Holds(b, Offset(n, order, j), EncodeAll(rs))
    ensures forall k :: j <= k < |order| ==> RecordAt(b, Offset(n, order, k), n, order, order[k].slot)
    ensures Offset(n, order, j) + |EncodeAll(EmitFrom(n, order, Numbering(order), j).value)| ==
      Offset(n, order, |order|)
    decreases |order| - j
  {
    hide Holds, EmitRecord, EncodeRecord, RecordAt, Numbering;
    if j < |order| {
      var rs := EmitFrom(n, order, Numbering(order), j).value;
      assert rs[1..] == EmitFrom(n, order, Numbering(order), j + 1).value;
      HoldsConcat(b, Offset(n, order, j), EncodeRecord(rs[0]), EncodeAll(rs[1..]));
      RecordFilled(b, Offset(n, order, j), n, order, order[j]);
      AllFilled(b, n, order, j + 1);
    }
  }

  /**
   The bytes of a net: version 1, the number of agents, and one record per agent in recursive
   pre-order, each at its offset and nothing after the last.
   */
  lemma FormatExact(n: NetState, root: Port)
    requires Words(n) && Closed(n) && InArena(n, root) && Serialize(n, root).Ok?
    ensures
      var b, order := Serialize(n, root).value, Visit(n, root, []);
      && Numbered(n, order) && |b| == Offset(n, order, |order|)
      && b[0] == 1 && U32At(b, 1, |order|)
      && forall j :: 0 <= j < |order| ==> RecordAt(b, Offset(n, order, j), n, order, order[j].slot)
  {
    hide Walk, Visit, Holds, RecordAt, Numbering, EncodeAll, EmitFrom, U32At;
    var b, order := Serialize(n, root).value, Visit(n, root, []);
    WalkIsPreorder(n, root);
    WalkNumbered(n, [root], []);
    RecordsValid(n, root);
    var rs := Records(n, root).value;
    HoldsWhole(b);
    HoldsConcat(b, 0, [VERSION], Le32(|rs|) + EncodeAll(rs));
    HoldsConcat(b, 1, Le32(|rs|), EncodeAll(rs));
    Le32At(b, 1, |rs|);
    AllFilled(b, n, order, 0);
  }
}
