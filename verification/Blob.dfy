/**
 The blob codec: a bounds-checked reader decodes records, agents are allocated, then every emitted
 wire is laid with pair detection, so that a blob holding a redex is refused.
 */
module Blob {
  import opened Common
  import opened Arenas
  import opened Nets
  import opened ByteCodec
  import opened Canonical

  function KindOfSelector(sel: Byte): Result<Kind> {
    if sel == 0 then Ok(Principal) else if sel == 1 then Ok(Aux0) else if sel ==
        2 then Ok(Aux1) else Err(ReadbackIncomplete)
  }

  function ReadEdge(input: Bytes, pos: nat): Result<(Edge, nat)> {
    var (idx, p) :- ReadU32(input, pos);
    var (sel, q) :- ReadU8(input, p);
    if idx == ERASER_IDX && sel == ERASER_SEL then Ok((EraserEdge, q)) else
    var kind :- KindOfSelector(sel);
    Ok((Live(idx, kind), q))
  }

  function ReadEdges(input: Bytes, pos: nat): Result<((Edge, Edge), nat)> {
    var (e0, p) :- ReadEdge(input, pos);
    var (e1, q) :- ReadEdge(input, p);
    Ok(((e0, e1), q))
  }

  function ReadRecord(input: Bytes, pos: nat): Result<(Record, nat)> {
    var (kind, p) :- ReadU8(input, pos);
    if kind == KIND_ERASER then Ok((REraser, p))
    else if kind == KIND_FREE then
      var (id, q) :- ReadU32(input, p);
      if id >= FREE_ID_END then Err(ReadbackIncomplete) else Ok((RFree(id), q))
    else if kind == KIND_ABS then
      var (e, q) :- ReadEdges(input, p);
      Ok((RAbs(e.0, e.1), q))
    else if kind == KIND_APP then
      var (e, q) :- ReadEdges(input, p);
      Ok((RApp(e.0, e.1), q))
    else if kind == KIND_REP then
      var (level, p1) :- ReadU16(input, p);
      var (d0, p2) :- ReadI16(input, p1);
      var (d1, p3) :- ReadI16(input, p2);
      var (e, q) :- ReadEdges(input, p3);
      Ok((RRep(level, d0, d1, e.0, e.1), q))
    else Err(ReadbackIncomplete)
  }

  function ReadRecords(input: Bytes, pos: nat, n: nat): (r: Result<(seq<Record>, nat)>)
    ensures r.Ok? ==> |r.value.0| == n
    decreases n
  {
    if n == 0 then Ok(([], pos)) else
    var (first, p) :- ReadRecord(input, pos);
    var (rest, q) :- ReadRecords(input, p, n - 1);
    Ok(([first] + rest, q))
  }

  /** Version, count, records, and nothing after them. */
  function Decode(input: Bytes): Result<seq<Record>> {
    var (version, p) :- ReadU8(input, 0);
    if version != VERSION then Err(ReadbackIncomplete) else
    var (n, q) :- ReadU32(input, p);
    var (rs, end) :- ReadRecords(input, q, n);
    if end != |input| || rs == [] then Err(ReadbackIncomplete) else Ok(rs)
  }

  // ---------------------------------------------------------------------------------------------
  // Rebuilding the net

  function AllocRecord(n: NetState, r: Record): Result<(NetState, Port)> {
    match r
    case REraser => Ok((n, Eraser))
    case RFree(id) => AllocAgent(n, FreeAgent, id % FREE_ID_END, 0, 0)
    case RAbs(_, _) => AllocAgent(n, FanAbs, 0, 0, 0)
    case RApp(_, _) => AllocAgent(n, FanApp, 0, 0, 0)
    case RRep(level, d0, d1, _, _) => AllocAgent(n, Replicator, level, d0, d1)
  }

  /** Allocate the agents of `rs`, after the ones already in `slots`. */
  function AllocAll(n: NetState, rs: seq<Record>, slots: seq<Port>): Result<(NetState, seq<Port>)>
    decreases |rs|
  {
    if rs == [] then Ok((n, slots)) else
    var (m, p) :- AllocRecord(n, rs[0]);
    AllocAll(m, rs[1..], slots + [p])
  }

  /** The wires a record carries for its own ports. */
  function Edges(r: Record): seq<(Kind, Edge)> {
    match r
    case RAbs(e0, e1) => [(Aux0, e0), (Aux1, e1)]
    case RApp(e0, e1) => [(Principal, e0), (Aux1, e1)]
    case RRep(_, _, _, e0, e1) => [(Aux0, e0), (Aux1, e1)]
    case _ => []
  }

  /** The port of the given kind on the agent of `base`; on the eraser, slot 0, its principal is the null port. */
  function PortOn(base: Port, kind: Kind): Port {
    if base.At? then At(base.slot, kind, base.gen)
    else if kind.Principal? then Null
    else At(0, kind, 0)
  }

  function Resolve(slots: seq<Port>, e: Edge): Result<Port> {
    match e
    case EraserEdge => Ok(Eraser)
    case Live(idx, kind) => if idx < |slots| then Ok(PortOn(slots[idx], kind)) else Err(ReadbackIncomplete)
  }

  datatype Wire = Wire(src: Port, dst: Port)

  function PlanEdges(slots: seq<Port>, base: Port, edges: seq<(Kind, Edge)>): Result<seq<Wire>> {
    if edges == [] then Ok([]) else
    var dst :- Resolve(slots, edges[0].1);
    var rest :- PlanEdges(slots, base, edges[1..]);
    Ok([Wire(PortOn(base, edges[0].0), dst)] + rest)
  }

  /** The wires of the records from `j` on, in the order they are laid. */
  function Plan(slots: seq<Port>, rs: seq<Record>, j: nat): Result<seq<Wire>>
    requires |slots| == |rs| && j <= |rs|
    decreases |rs| - j
  {
    if j == |rs| then Ok([]) else
    var first :- PlanEdges(slots, slots[j], Edges(rs[j]));
    var rest :- Plan(slots, rs, j + 1);
    Ok(first + rest)
  }

  function Lay(n: NetState, ws: seq<Wire>): NetState
    decreases |ws|
  {
    if ws == [] then n else Lay(Connect(n, ws[0].src, ws[0].dst, []), ws[1..])
  }

  predicate Certified(n: NetState) { n.f1 == map[] && n.f2 == map[] && !n.pendingC1 }

  function Capacity(count: nat): nat {
    if count + 1 < 2 then 2 else if count + 1 < U32 then count + 1 else U32 - 1
  }

  lemma {:induction false} AllocCount(n: NetState, rs: seq<Record>, slots: seq<Port>)
    requires AllocAll(n, rs, slots).Ok?
    ensures |AllocAll(n, rs, slots).value.1| == |slots| + |rs|
    decreases |rs|
  {
    if rs != [] {
      var (m, p) := AllocRecord(n, rs[0]).value;
      AllocCount(m, rs[1..], slots + [p]);
    }
  }

  function Build(rs: seq<Record>): Result<(NetState, Port)>
    requires rs != []
  {
    var (n, slots) :- AllocAll(NewNet(Capacity(|rs|)), rs, []);
    AllocCount(NewNet(Capacity(|rs|)), rs, []);
    var ws :- Plan(slots, rs, 0);
    var m := Lay(n, ws);
    if Certified(m) then Ok((m, slots[0])) else Err(ReadbackIncomplete)
  }

  function Deserialize(input: Bytes): Result<(NetState, Port)> {
    var rs :- Decode(input);
    if rs == [] then Err(ReadbackIncomplete) else Build(rs)
  }

  // ---------------------------------------------------------------------------------------------
  // The imperative decoder

  /** A forward-only cursor. A failed read leaves an error; the cursor is then abandoned. */
  class Reader {
    const input: Bytes
    var pos: nat

    constructor (input: Bytes)
      ensures this.input == input && pos == 0
    {
      this.input := input;
      pos := 0;
    }

    method U8() returns (r: Result<Byte>)
      modifies this
      ensures ReadU8(input, old(pos)) == if r.Ok? then Ok((r.value, pos)) else Err(r.error)
    {
      if pos >= |input| { return Err(ReadbackIncomplete); }
      r := Ok(input[pos]);
      pos := pos + 1;
    }

    method TakeBytes(n: nat) returns (r: Result<Bytes>)
      modifies this
      ensures Take(input, old(pos), n) == if r.Ok? then Ok((r.value, pos)) else Err(r.error)
    {
      var end := pos + n;
      if end > |input| { return Err(ReadbackIncomplete); }
      r := Ok(input[pos..end]);
      pos := end;
    }

    method U32() returns (r: Result<nat>)
      modifies this
      ensures ReadU32(input, old(pos)) == if r.Ok? then Ok((r.value, pos)) else Err(r.error)
    {
      var b :- TakeBytes(4);
      return Ok(FromLe(b));
    }

    method U16() returns (r: Result<nat>)
      modifies this
      ensures ReadU16(input, old(pos)) == if r.Ok? then Ok((r.value, pos)) else Err(r.error)
    {
      var b :- TakeBytes(2);
      return Ok(FromLe(b));
    }

    method I16() returns (r: Result<int>)
      modifies this
      ensures ReadI16(input, old(pos)) == if r.Ok? then Ok((r.value, pos)) else Err(r.error)
    {
      var b :- TakeBytes(2);
      Le16RoundTrip(0, b);
      return Ok(ToI16(FromLe(b)));
    }

    method Edge() returns (r: Result<Edge>)
      modifies this
      ensures ReadEdge(input, old(pos)) == if r.Ok? then Ok((r.value, pos)) else Err(r.error)
    {
      var idx :- U32();
      var sel :- U8();
      if idx == ERASER_IDX && sel == ERASER_SEL { return Ok(EraserEdge); }
      var kind :- KindOfSelector(sel);
      return Ok(Live(idx, kind));
    }

    method EdgePair() returns (r: Result<(Edge, Edge)>)
      modifies this
      ensures ReadEdges(input, old(pos)) == if r.Ok? then Ok((r.value, pos)) else Err(r.error)
    {
      var e0 :- Edge();
      var e1 :- Edge();
      return Ok((e0, e1));
    }

    method Record() returns (r: Result<Record>)
      modifies this
      ensures ReadRecord(input, old(pos)) == if r.Ok? then Ok((r.value, pos)) else Err(r.error)
    {
      var kind :- U8();
      if kind == KIND_ERASER {
        return Ok(REraser);
      } else if kind == KIND_FREE {
        var id :- U32();
        if id >= FREE_ID_END { return Err(ReadbackIncomplete); }
        return Ok(RFree(id));
      } else if kind == KIND_ABS {
        var e :- EdgePair();
        return Ok(RAbs(e.0, e.1));
      } else if kind == KIND_APP {
        var e :- EdgePair();
        return Ok(RApp(e.0, e.1));
      } else if kind == KIND_REP {
        var level :- U16();
        var d0 :- I16();
        var d1 :- I16();
        var e :- EdgePair();
        return Ok(RRep(level, d0, d1, e.0, e.1));
      }
      return Err(ReadbackIncomplete);
    }

    /** The count is only a loop bound; nothing is sized from it. */
    method Records(n: nat) returns (r: Result<seq<Record>>)
      modifies this
      ensures ReadRecords(input, old(pos), n) == if r.Ok? then Ok((r.value, pos)) else Err(r.error)
    {
      var rs: seq<Record> := [];
      ghost var start := pos;
      PrependAtNone(ReadRecords(input, pos, n));
      for i := 0 to n
        invariant |rs| == i
        invariant ReadRecords(input, start, n) == PrependAt(rs, ReadRecords(input, pos, n - i))
      {
        var next :- Record();
        PrependAtMore(rs, next, ReadRecords(input, pos, n - i - 1));
        rs := rs + [next];
      }
      assert rs + [] == rs;
      return Ok(rs);
    }
  }

  function PrependAt(done: seq<Record>, rest: Result<(seq<Record>, nat)>): Result<(seq<Record>, nat)> {
    if rest.Ok? then Ok((done + rest.value.0, rest.value.1)) else rest
  }

  lemma PrependAtNone(rest: Result<(seq<Record>, nat)>)
    ensures PrependAt([], rest) == rest
  {
    if rest.Ok? { assert [] + rest.value.0 == rest.value.0; }
  }

  lemma PrependAtMore(done: seq<Record>, r: Record, rest: Result<(seq<Record>, nat)>)
    ensures PrependAt(done + [r], rest) == PrependAt(done, PrependAt([r], rest))
  {
    if rest.Ok? { assert done + [r] + rest.value.0 == done + ([r] + rest.value.0); }
  }
}
