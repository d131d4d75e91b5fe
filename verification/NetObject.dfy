/** The net as an object, with the elaborator, the readback and the blob decoder that act on it. */
module NetObjects {
  import opened Common
  import opened Arenas
  import opened Nets
  import opened Asts
  import opened Elab
  import opened ByteCodec
  import opened Canonical
  import opened Blob
  import R = Readback

  class Net {
    const arena: Arena
    var frontier1: map<Path, ActivePair>
    var frontier2: map<Path, C4Candidate>
    var pendingC1: bool

    function State(): NetState
      reads this, arena
    {
      NetState(arena.State(), frontier1, frontier2, pendingC1)
    }

    constructor (capacity: nat)
      ensures State() == NewNet(capacity) && fresh(arena)
    {
      arena := new Arena(capacity);
      frontier1, frontier2, pendingC1 := map[], map[], false;
    }

    /** Write one end of a wire; an eraser on a replicator's auxiliary port also sets its tag bit. */
    method Write(p: Port, v: Port)
      modifies arena
      ensures State() == WritePort(old(State()), p, v)
    {
      if p.At? && p.slot < |arena.slots| {
        var s := arena.slots[p.slot];
        match p.kind {
          case Principal => s := s.(principal := v);
          case Aux0 =>
            s := s.(aux0 := v);
            if v.Eraser? && s.agent.Replicator? { s := s.(erased0 := true); }
          case Aux1 =>
            s := s.(aux1 := v);
            if v.Eraser? && s.agent.Replicator? { s := s.(erased1 := true); }
        }
        arena.slots := arena.slots[p.slot := s];
      }
    }

    method Detect(a: Port, b: Port, lo: Path)
      modifies this
      ensures State() == DetectPair(old(State()), a, b, lo)
    {
      if KindOf(a).Principal? && KindOf(b).Principal? && !a.Null? && !b.Null? {
        frontier1 := frontier1[lo := ActivePair(a, b, lo)];
      } else if KindOf(a).Principal? && KindOf(b).Aux0? && IsRepPort(State(), a) && IsAppPort(State(), b) {
        frontier2 := frontier2[lo := C4Candidate(a, b, lo)];
      } else if KindOf(a).Aux0? && KindOf(b).Principal? && IsAppPort(State(), a) && IsRepPort(State(), b) {
        frontier2 := frontier2[lo := C4Candidate(b, a, lo)];
      }
    }

    /** Lay a wire: both ends are written, then it is indexed if it is a redex. */
    method Wire(a: Port, b: Port, lo: Path)
      modifies this, arena
      ensures State() == Connect(old(State()), a, b, lo)
    {
      hide WritePort, DetectPair;
      Write(a, b);
      Write(b, a);
      Detect(a, b, lo);
    }

    method NewAgent(agent: Agent, data: nat, d0: int, d1: int) returns (r: Result<Port>)
      modifies arena
      ensures AllocAgent(old(State()), agent, data, d0, d1) == if r.Ok? then Ok((State(), r.value)) else Err(r.error)
      ensures r.Ok? ==> r.value.At?
    {
      var idx :- arena.AllocSlot();
      if idx >= |arena.slots| { return Err(Panic); }
      var slot := arena.slots[idx].(agent := agent, data := data, delta0 := d0, delta1 := d1);
      arena.slots := arena.slots[idx := slot];
      return Ok(At(idx, Principal, slot.gen % 2));
    }
  }

  /** Elaboration consumes variables from a mutable environment while it grows the net. */
  class Elaborator {
    const net: Net
    var env: Env

    constructor (net: Net)
      ensures this.net == net && env == map[]
    {
      this.net := net;
      env := map[];
    }

    /** The port that delivers the term and its level; net and environment are as the specification says. */
    method Run(level: nat, lo: Path, e: Ast, ul: map<string, nat>) returns (r: Result<(Port, nat)>)
      modifies this, net, net.arena
      ensures
        Elaborate(old(net.State()), level, old(env), lo, e, ul) ==
        if r.Ok? then Ok(Out(net.State(), env, r.value.0, r.value.1)) else Err(r.error)
      decreases e, 1
    {
      hide AllocAgent, Connect, Extend;
      match e
      case Name(n) =>
        if n !in env { return Err(ReadbackIncomplete); }
        var b := env[n];
        env := env - {n};
        return Ok((b.port, b.level));
      case Abs(x, body) => r := RunAbs(level, lo, x, body, ul);
      case App(f, x) => r := RunApp(level, lo, f, x, ul);
      case Rep(s, a, b, body) => r := RunRep(level, lo, s, a, b, body, ul);
      case Era(s, body) =>
        var sp :- Run(level, lo, s, ul);
        net.Wire(Eraser, sp.0, lo);
        r := Run(level, lo, body, ul);
      case Fix(inner) => r := RunFix(level, lo, inner, ul);
      case Val(_) =>
        var p :- net.NewAgent(FreeAgent, 0, 0, 0);
        return Ok((p, level));
      case Fun(_) =>
        var p :- net.NewAgent(FreeAgent, 0, 0, 0);
        return Ok((p, level));
    }

    method RunAbs(level: nat, lo: Path, x: string, body: Ast, ul: map<string, nat>) returns (r: Result<(Port, nat)>)
      modifies this, net, net.arena
      ensures
        Elaborate(old(net.State()), level, old(env), lo, Abs(x, body), ul) ==
        if r.Ok? then Ok(Out(net.State(), env, r.value.0, r.value.1)) else Err(r.error)
      decreases Abs(x, body), 0
    {
      hide AllocAgent, Connect, Extend;
      var abs :- net.NewAgent(FanAbs, 0, 0, 0);
      env := env[x := Binding(abs.(kind := Aux1), level + 1)];
      var loBody :- Extend(lo, false);
      var o :- Run(level, loBody, body, ul);
      env := env - {x};
      net.Wire(abs.(kind := Aux0), o.0, loBody);
      return Ok((abs, level));
    }

    method RunApp(level: nat, lo: Path, f: Ast, x: Ast, ul: map<string, nat>) returns (r: Result<(Port, nat)>)
      modifies this, net, net.arena
      ensures
        Elaborate(old(net.State()), level, old(env), lo, App(f, x), ul) ==
        if r.Ok? then Ok(Out(net.State(), env, r.value.0, r.value.1)) else Err(r.error)
      decreases App(f, x), 0
    {
      hide AllocAgent, Connect, Extend;
      var app :- net.NewAgent(FanApp, 0, 0, 0);
      var loFn :- Extend(lo, false);
      var fp :- Run(level, loFn, f, ul);
      var loArg :- Extend(lo, true);
      var xp :- Run(level + 1, loArg, x, ul);
      WireApp(app, fp.0, loFn, xp.0, loArg);
      return Ok((app.(kind := Aux0), level));
    }

    method WireApp(app: Port, f: Port, loFn: Path, x: Port, loArg: Path)
      requires app.At?
      modifies net, net.arena
      ensures net.State() == Connect(Connect(old(net.State()), app, f, loFn), app.(kind := Aux1), x, loArg)
    {
      hide Connect;
      net.Wire(app, f, loFn);
      net.Wire(app.(kind := Aux1), x, loArg);
    }

    method RunRep(level: nat, lo: Path, s: Ast, a: string, b: string, body: Ast, ul: map<string,
        nat>) returns (r: Result<(Port, nat)>)
      modifies this, net, net.arena
      ensures
        Elaborate(old(net.State()), level, old(env), lo, Rep(s, a, b, body), ul) ==
        if r.Ok? then Ok(Out(net.State(), env, r.value.0, r.value.1)) else Err(r.error)
      decreases Rep(s, a, b, body), 0
    {
      hide AllocAgent, Connect;
      var la, lb := LevelOf(ul, a, level), LevelOf(ul, b, level);
      var sp :- Run(level, lo, s, ul);
      var from: int := sp.1;
      var d0, d1 := la - from, lb - from;
      if !FitsI16(d0) || !FitsI16(d1) { return Err(DeltaOverflow); }
      var rep :- net.NewAgent(Replicator, sp.1 % 0x1_0000, d0, d1);
      net.Wire(rep, sp.0, lo);
      env := env[a := Binding(rep.(kind := Aux0), la)][b := Binding(rep.(kind := Aux1), lb)];
      r := Run(level, lo, body, ul);
    }

    method RunFix(level: nat, lo: Path, inner: Ast, ul: map<string, nat>) returns (r: Result<(Port, nat)>)
      modifies this, net, net.arena
      ensures
        Elaborate(old(net.State()), level, old(env), lo, Fix(inner), ul) ==
        if r.Ok? then Ok(Out(net.State(), env, r.value.0, r.value.1)) else Err(r.error)
      decreases Fix(inner), 0
    {
      hide AllocAgent, Connect, Extend;
      var loFn :- Extend(lo, false);
      var ip :- Run(level, loFn, inner, ul);
      var app :- net.NewAgent(FanApp, 0, 0, 0);
      net.Wire(app, ip.0, loFn);
      var rep :- net.NewAgent(Replicator, level % 0x1_0000, 0, 0);
      var loBack :- Extend(lo, true);
      net.Wire(rep, app.(kind := Aux0), loBack);
      net.Wire(app.(kind := Aux1), rep.(kind := Aux0), lo);
      return Ok((rep.(kind := Aux1), level));
    }
  }

  /** Readback: occurrence ports of the open binders, and the next identifier, change as it walks the net. */
  class ReadbackRun {
    const net: NetState
    var occ: R.Occ
    var next: nat

    constructor (net: NetState)
      ensures this.net == net && occ == map[] && next == 0
    {
      this.net := net;
      occ, next := map[], 0;
    }

    /** Record the occurrences of a variable through any tree of replicators; false if it is too deep. */
    method Collect(p: Port, id: nat, fuel: nat) returns (ok: bool)
      modifies `occ
      ensures R.CollectOcc(net, p, id, old(occ), fuel) == if ok then Some(occ) else None
      decreases fuel
    {
      if fuel == 0 { return false; }
      var peer := Peer(net, p);
      if !peer.At? { return true; }
      if R.RepPrincipal(net, peer) {
        ok := Collect(peer.(kind := Aux0), id, fuel - 1);
        if ok { ok := Collect(peer.(kind := Aux1), id, fuel - 1); }
        return;
      }
      occ := occ[p := id];
      return true;
    }

    method Remove(p: Port, fuel: nat) returns (ok: bool)
      modifies `occ
      ensures R.RemoveOcc(net, p, old(occ), fuel) == if ok then Some(occ) else None
      decreases fuel
    {
      if fuel == 0 { return false; }
      var peer := Peer(net, p);
      if !peer.At? { return true; }
      if R.RepPrincipal(net, peer) {
        ok := Remove(peer.(kind := Aux0), fuel - 1);
        if ok { ok := Remove(peer.(kind := Aux1), fuel - 1); }
        return;
      }
      occ := occ - {p};
      return true;
    }

    /** Read the term delivered at `p`. */
    method Psi(p: Port, fuel: nat) returns (r: Option<R.IR>)
      modifies this
      ensures
        var spec := R.PsiS(net, p, old(occ), old(next), fuel);
        if r.Some? then spec == R.Read(r.value, occ, next) else !spec.Read?
      decreases fuel
    {
      hide R.CollectOcc, R.RemoveOcc;
      if fuel == 0 { return None; }
      if !p.At? {
        next := next + 1;
        return Some(R.IVar(next - 1));
      }
      if p in occ { return Some(R.IVar(occ[p])); }
      var agent := AgentOf(net, p.slot);
      if agent.FreeAgent? {
        next := next + 1;
        return Some(R.IVar(next - 1));
      }
      if p.kind.Principal? && agent.FanAbs? {
        var id := next;
        next := next + 1;
        var ok := Collect(p.(kind := Aux1), id, fuel);
        if !ok { return None; }
        var body := Psi(Peer(net, p.(kind := Aux0)), fuel - 1);
        if body.None? { return None; }
        ok := Remove(p.(kind := Aux1), fuel);
        if !ok { return None; }
        return Some(R.IAbs(id, body.value));
      }
      if p.kind.Aux0? && agent.FanApp? {
        var f := Psi(Peer(net, p.(kind := Principal)), fuel - 1);
        if f.None? { return None; }
        var x := Psi(Peer(net, p.(kind := Aux1)), fuel - 1);
        if x.None? { return None; }
        return Some(R.IApp(f.value, x.value));
      }
      return None;
    }
  }

  // ---------------------------------------------------------------------------------------------
  // Decoding a blob

  method AllocFor(net: Net, rec: Record) returns (r: Result<Port>)
    modifies net.arena
    ensures AllocRecord(old(net.State()), rec) == if r.Ok? then Ok((net.State(), r.value)) else Err(r.error)
  {
    match rec
    case REraser => return Ok(Eraser);
    case RFree(id) => r := net.NewAgent(FreeAgent, id % FREE_ID_END, 0, 0);
    case RAbs(_, _) => r := net.NewAgent(FanAbs, 0, 0, 0);
    case RApp(_, _) => r := net.NewAgent(FanApp, 0, 0, 0);
    case RRep(level, d0, d1, _, _) => r := net.NewAgent(Replicator, level, d0, d1);
  }

  /** First pass: one agent per record. */
  method AllocEach(net: Net, rs: seq<Record>) returns (r: Result<seq<Port>>)
    modifies net.arena
    ensures AllocAll(old(net.State()), rs, []) == if r.Ok? then Ok((net.State(), r.value)) else Err(r.error)
  {
    hide AllocRecord;
    var slots: seq<Port> := [];
    for i := 0 to |rs|
      invariant net.frontier1 == old(net.frontier1) && net.frontier2 == old(net.frontier2) &&
        net.pendingC1 == old(net.pendingC1)
      invariant AllocAll(old(net.State()), rs, []) == AllocAll(net.State(), rs[i..], slots)
    {
      assert rs[i..][1..] == rs[i + 1..];
      var p :- AllocFor(net, rs[i]);
      slots := slots + [p];
    }
    return Ok(slots);
  }

  /** Second pass for one record: lay each of its wires with pair detection. */
  method WireRecord(net: Net, slots: seq<Port>, base: Port, edges: seq<(Kind, Edge)>) returns (r: Result<()>)
    modifies net, net.arena
    ensures r.Ok? <==> PlanEdges(slots, base, edges).Ok?
    ensures r.Ok? ==> net.State() == Lay(old(net.State()), PlanEdges(slots, base, edges).value)
    ensures r.Err? ==> r.error == ReadbackIncomplete && PlanEdges(slots, base, edges) == Err(ReadbackIncomplete)
    decreases edges
  {
    hide Connect;
    if edges == [] { return Ok(()); }
    var dst :- Resolve(slots, edges[0].1);
    PlanError(slots, base, edges[1..]);
    net.Wire(PortOn(base, edges[0].0), dst, []);
    var rest := WireRecord(net, slots, base, edges[1..]);
    if rest.Err? { return rest; }
    ghost var ws := PlanEdges(slots, base, edges).value;
    assert ws[1..] == PlanEdges(slots, base, edges[1..]).value;
    return Ok(());
  }

  lemma {:induction false} PlanError(slots: seq<Port>, base: Port, edges: seq<(Kind, Edge)>)
    ensures PlanEdges(slots, base, edges).Err? ==> PlanEdges(slots, base, edges).error == ReadbackIncomplete
  {
    if edges != [] { PlanError(slots, base, edges[1..]); }
  }

  lemma {:induction false} LayConcat(n: NetState, a: seq<Wire>, b: seq<Wire>)
    ensures Lay(n, a + b) == Lay(Lay(n, a), b)
    decreases |a|
  {
    hide Connect;
    if a == [] {
      assert a + b == b;
    } else {
      LayConcat(Connect(n, a[0].src, a[0].dst, []), a[1..], b);
      assert (a + b)[1..] == a[1..] + b;
    }
  }

  method WireEach(net: Net, slots: seq<Port>, rs: seq<Record>) returns (r: Result<()>)
    requires |slots| == |rs|
    modifies net, net.arena
    ensures r.Ok? <==> Plan(slots, rs, 0).Ok?
    ensures r.Ok? ==> net.State() == Lay(old(net.State()), Plan(slots, rs, 0).value)
    ensures r.Err? ==> Plan(slots, rs, 0) == Err(r.error)
  {
    hide PlanEdges, Lay, Edges;
    ghost var start := net.State();
    ghost var done: seq<Wire> := [];
    assert Lay(start, []) == start by { LayNone(start); }
    PrependNone(Plan(slots, rs, 0));
    for i := 0 to |rs|
      invariant net.State() == Lay(start, done)
      invariant Plan(slots, rs, 0) == Prepend(done, Plan(slots, rs, i))
    {
      var one := WireRecord(net, slots, slots[i], Edges(rs[i]));
      if one.Err? { return one; }
      ghost var first := PlanEdges(slots, slots[i], Edges(rs[i])).value;
      LayConcat(start, done, first);
      PrependMore(done, first, Plan(slots, rs, i + 1));
      done := done + first;
    }
    assert done + [] == done;
    return Ok(());
  }

  lemma LayNone(n: NetState)
    ensures Lay(n, []) == n
  {
  }

  /** Decode a blob: read the records, rebuild the net in two passes, certify it. */
  method DecodeBlob(input: Bytes) returns (r: Result<(Net, Port)>)
    ensures Deserialize(input) == if r.Ok? then Ok((r.value.0.State(), r.value.1)) else Err(r.error)
  {
    hide AllocAll, Plan, Lay, ReadRecords, ReadU32;
    var cursor := new Reader(input);
    var version :- cursor.U8();
    if version != VERSION { return Err(ReadbackIncomplete); }
    var n :- cursor.U32();
    var rs :- cursor.Records(n);
    if cursor.pos != |input| || rs == [] { return Err(ReadbackIncomplete); }
    assert Decode(input) == Ok(rs);
    var net := new Net(Capacity(|rs|));
    var slots :- AllocEach(net, rs);
    AllocCount(NewNet(Capacity(|rs|)), rs, []);
    var _ :- WireEach(net, slots, rs);
    if net.frontier1 != map[] || net.frontier2 != map[] || net.pendingC1 { return Err(ReadbackIncomplete); }
    return Ok((net, slots[0]));
  }
}
