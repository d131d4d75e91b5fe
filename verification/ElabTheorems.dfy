/**
 What elaboration guarantees about the net it builds from a linear term: complete symmetric
 wiring, an exact redex index and exact replicator labels.
 */
module ElabTheorems {
  import opened Common
  import opened Arenas
  import opened Nets
  import opened NetFacts
  import opened Asts
  import opened Elab
  import opened ElabProof
  import opened Pass1

  /** A program the linearity check accepts, in the form the front-ends emit. */
  predicate Program(e: Ast) {
    Frag(e) && UniqueBinders(e) && Frees(e) == {} && Linear(e)
  }

  /** Elaborate a program into a fresh net, with the levels the linearity check recorded. */
  function ElaborateProgram(capacity: nat, e: Ast): Result<Out> {
    Elaborate(NewNet(capacity), 0, map[], [], e, Levels(0, map[], e))
  }

  lemma {:induction false} LinearAllUsed(e: Ast)
    requires Linear(e)
    ensures AllUsed(e)
  {
    match e
    case Name(_) =>
    case Abs(x, b) =>
      LinearAllUsed(b);
      UsesFrees(x, b);
    case App(f, x) =>
      LinearAllUsed(f);
      LinearAllUsed(x);
    case Rep(s, a, b, body) =>
      LinearAllUsed(s);
      LinearAllUsed(body);
      UsesFrees(a, body);
      UsesFrees(b, body);
    case Era(s, body) =>
      LinearAllUsed(s);
      LinearAllUsed(body);
    case Fix(i) => LinearAllUsed(i);
    case Val(_) =>
    case Fun(_) =>
  }

  /**
   The redex index is exact after elaboration, and every port but the returned one is wired
   exactly once: to another port that leads back, or to the eraser.
   */
  lemma ElaborationExact(capacity: nat, e: Ast)
    requires Program(e)
    requires ElaborateProgram(capacity, e).Ok?
    ensures
      var o := ElaborateProgram(capacity, e).value;
      && Symmetric(o.net) && Frontier1Exact(o.net) && Frontier2Exact(o.net) && ErasedBitsExact(o.net)
      && IsPort(o.net, o.port)
      && (forall q :: IsPort(o.net, q) ==> (Peer(o.net, q).Null? <==> q == o.port))
      && |o.net.arena.slots| == 1 + Count(e)
      && o.env == map[]
  {
    var n := NewNet(capacity);
    var ul := Levels(0, map[], e);
    NewNetInv(capacity);
    ElaborateKeeps(n, 0, map[], [], e, ul);
    LinearAllUsed(e);
    var o := ElaborateProgram(capacity, e).value;
    forall m
      ensures m !in o.env
    {
    }
    assert o.env == map[];
    forall q | IsPort(o.net, q) && Peer(o.net, q).Null?
      ensures q == o.port
    {
      assert !InEnv(o.env, q);
    }
  }

  /** Laying a wire keeps both frontiers exact exactly if the path it would be indexed under is unused there. */
  lemma IndexExactIff(n: NetState, a: Port, b: Port, lo: Path)
    requires Inv(n) && IsPort(n, a) && IsPort(n, b) && a != b
    requires Peer(n, a).Null? && Peer(n, b).Null?
    ensures
      var m := Connect(n, a, b, lo);
      Frontier1Exact(m) && Frontier2Exact(m) <==> KeyFree(n, a, b, lo)
  {
    hide Connect, Inv, Frontier1Exact, Frontier2Exact;
    if KeyFree(n, a, b, lo) {
      ConnectFacts(n, a, b, lo);
      InvParts(Connect(n, a, b, lo));
    } else if a.kind.Principal? && b.kind.Principal? {
      CollisionLosesPair(n, a, b, lo);
      Frontier1Complete(Connect(n, a, b, lo), n.f1[lo].p0, n.f1[lo].p1);
    } else {
      CollisionLosesCandidate(n, a, b, lo);
      Frontier2Complete(Connect(n, a, b, lo), n.f2[lo].rep, n.f2[lo].app);
    }
  }

  lemma InvParts(n: NetState)
    requires Inv(n)
    ensures Frontier1Exact(n) && Frontier2Exact(n)
  {
  }

  lemma Frontier1Complete(n: NetState, a: Port, b: Port)
    requires ActiveWire(n, a, b) && !Indexed1(n, a, b)
    ensures !Frontier1Exact(n)
  {
  }

  lemma Frontier2Complete(n: NetState, r: Port, a: Port)
    requires CandidateWire(n, r, a) && !Indexed2(n, r, a)
    ensures !Frontier2Exact(n)
  {
  }

  /** Laying a second active pair under a path already used drops the first pair from the index. */
  lemma CollisionLosesPair(n: NetState, a: Port, b: Port, lo: Path)
    requires Inv(n) && IsPort(n, a) && IsPort(n, b) && a != b
    requires Peer(n, a).Null? && Peer(n, b).Null? && a.kind.Principal? && b.kind.Principal?
    requires lo in n.f1
    ensures
      var m := Connect(n, a, b, lo);
      && ActiveWire(m, n.f1[lo].p0, n.f1[lo].p1)
      && !Indexed1(m, n.f1[lo].p0, n.f1[lo].p1)
  {
    var m := Connect(n, a, b, lo);
    var p, q := n.f1[lo].p0, n.f1[lo].p1;
    assert ActiveWire(n, p, q);
    ConnectPeers(n, a, b, lo);
    ConnectKeys(n, a, b, lo);
    LinkedAfter(n, m, a, b, p, q);
    forall k | k in m.f1
      ensures m.f1[k] != ActivePair(p, q, k) && m.f1[k] != ActivePair(q, p, k)
    {
      assert k != lo ==> k in n.f1 && n.f1[k] == m.f1[k];
    }
  }

  /** Likewise for a second replicator facing an application result. */
  lemma CollisionLosesCandidate(n: NetState, a: Port, b: Port, lo: Path)
    requires Inv(n) && IsPort(n, a) && IsPort(n, b) && a != b
    requires Peer(n, a).Null? && Peer(n, b).Null?
    requires !KeyFree(n, a, b, lo) && !(a.kind.Principal? && b.kind.Principal?)
    ensures
      var m := Connect(n, a, b, lo);
      && lo in n.f2
      && CandidateWire(m, n.f2[lo].rep, n.f2[lo].app)
      && !Indexed2(m, n.f2[lo].rep, n.f2[lo].app)
  {
    hide Connect;
    var m := Connect(n, a, b, lo);
    var r, p := n.f2[lo].rep, n.f2[lo].app;
    assert CandidateWire(n, r, p);
    ConnectPeers(n, a, b, lo);
    ConnectKeys(n, a, b, lo);
    LinkedAfter(n, m, a, b, r, p);
    LinkedAfter(n, m, a, b, p, r);
    forall k | k in m.f2
      ensures m.f2[k] != C4Candidate(r, p, k)
    {
      assert k != lo ==> k in n.f2 && n.f2[k] == m.f2[k];
    }
  }

  /** One more agent, its ports unwired, everything else as before. */
  lemma AddAgent(n: NetState, agent: Agent) returns (m: NetState)
    requires Inv(n) && |n.arena.slots| < n.arena.cap && !agent.FreeAgent?
    ensures Inv(m) && m.f1 == n.f1 && m.f2 == n.f2 && m.arena.cap == n.arena.cap
    ensures |m.arena.slots| == |n.arena.slots| + 1 && AgentOf(m, |n.arena.slots|) == agent
    ensures forall k :: IsPort(m, Addr(|n.arena.slots|, k)) && Peer(m, Addr(|n.arena.slots|, k)).Null?
    ensures forall i, k :: IsPort(n, Addr(i, k)) ==>
      IsPort(m, Addr(i, k)) && Peer(m, Addr(i, k)) == Peer(n, Addr(i, k)) && AgentOf(m, i) == AgentOf(n, i)
  {
    hide Inv;
    UnretiredFree(n);
    AllocFacts(n, agent, 0, 0, 0);
    m := AllocAgent(n, agent, 0, 0, 0).value.0;
    forall i | 0 <= i < |n.arena.slots|
      ensures AgentOf(m, i) == AgentOf(n, i)
    {
      assert SameLabel(n.arena.slots[i], m.arena.slots[i]);
    }
  }

  lemma UnretiredFree(n: NetState)
    requires Inv(n)
    ensures n.arena.free == [] && |n.arena.slots| > 0
  {
  }

  /** Both collisions happen: two replicators and two applications, one wire of either kind under the path. */
  lemma CollisionReachable(capacity: nat, lo: Path, k: Kind) returns (n: NetState, a: Port, b: Port)
    requires 5 <= capacity <= MAX_SLOTS && !k.Aux1?
    ensures Inv(n) && IsPort(n, a) && IsPort(n, b) && a != b && Peer(n, a).Null? && Peer(n, b).Null?
    ensures a.kind.Principal? && b.kind == k && !KeyFree(n, a, b, lo)
  {
    hide Inv, Connect;
    NewNetInv(capacity);
    var n1 := AddAgent(NewNet(capacity), Replicator);
    var n2 := AddAgent(n1, FanApp);
    var n3 := AddAgent(n2, Replicator);
    var n4 := AddAgent(n3, FanApp);
    ConnectFacts(n4, Addr(1, Principal), Addr(2, k), lo);
    ConnectPeers(n4, Addr(1, Principal), Addr(2, k), lo);
    n, a, b := Connect(n4, Addr(1, Principal), Addr(2, k), lo), Addr(3, Principal), Addr(4, k);
    assert SameLabel(n4.arena.slots[3], n.arena.slots[3]) && SameLabel(n4.arena.slots[4], n.arena.slots[4]);
  }

  // ---------------------------------------------------------------------------------------------
  // Replicator labels

  /**
   Every replicator carries the level of the variable it copies, and for each copy the level at
   which that copy is consumed minus its own.
   */
  ghost predicate Labelled(n: NetState, e: Ast, base: nat, lev: map<string, nat>, level: nat) {
    match e
    case Name(_) => true
    case Abs(x, b) => Labelled(n, b, base + 1, lev[x := level + 1], level)
    case App(f, x) => Labelled(n, f, base + 1, lev, level) && Labelled(n, x, base + 1 + Count(f), lev, level + 1)
    case Rep(s, a, b, body) =>
      && s.Name? && s.n in lev
      && AgentOf(n, base).Replicator?
      && n.arena.slots[base].data == lev[s.n]
      && n.arena.slots[base].delta0 == OccLevel(a, body, level) - lev[s.n]
      && n.arena.slots[base].delta1 == OccLevel(b, body, level) - lev[s.n]
      && Labelled(n, body, base + 1, lev[a := OccLevel(a, body, level)][b := OccLevel(b, body, level)], level)
    case Era(_, body) => Labelled(n, body, base, lev, level)
    case Fix(i) =>
      && Labelled(n, i, base, lev, level)
      && AgentOf(n, base + Count(i) + 1).Replicator?
      && n.arena.slots[base + Count(i) + 1].data == level
      && n.arena.slots[base + Count(i) + 1].delta0 == 0
      && n.arena.slots[base + Count(i) + 1].delta1 == 0
    case Val(_) => true
    case Fun(_) => true
  }

  /** Every application around a use costs a path bit, so levels are bounded by the path limit. */
  predicate Shallow(e: Ast, level: nat) {
    match e
    case Name(_) => level <= MAX_DEPTH
    case Abs(_, b) => Shallow(b, level)
    case App(f, x) => Shallow(f, level) && Shallow(x, level + 1)
    case Rep(s, _, _, body) => Shallow(s, level) && Shallow(body, level)
    case Era(s, body) => Shallow(s, level) && Shallow(body, level)
    case Fix(i) => Shallow(i, level) && level <= MAX_DEPTH
    case Val(_) => true
    case Fun(_) => true
  }

  lemma {:induction false} ElaborateShallow(n: NetState, level: nat, env: Env, lo: Path, e: Ast, ul: map<string, nat>)
    requires Elaborate(n, level, env, lo, e, ul).Ok?
    requires level <= |lo| <= MAX_DEPTH
    ensures Shallow(e, level)
    decreases e
  {
    hide AllocAgent, Connect;
    match e
    case Name(_) =>
    case Abs(x, b) =>
      var (n1, abs) := AllocAgent(n, FanAbs, 0, 0, 0).value;
      ElaborateShallow(n1, level, env[x := Binding(abs.(kind := Aux1), level + 1)], lo + [false], b, ul);
    case App(f, x) =>
      var (n1, app) := AllocAgent(n, FanApp, 0, 0, 0).value;
      ElaborateShallow(n1, level, env, lo + [false], f, ul);
      var of := Elaborate(n1, level, env, lo + [false], f, ul).value;
      ElaborateShallow(of.net, level + 1, of.env, lo + [true], x, ul);
    case Rep(s, a, b, body) =>
      var la, lb := LevelOf(ul, a, level), LevelOf(ul, b, level);
      ElaborateShallow(n, level, env, lo, s, ul);
      var os := Elaborate(n, level, env, lo, s, ul).value;
      var (n1, rep) := AllocAgent(os.net, Replicator, os.level % 0x1_0000, la - os.level, lb - os.level).value;
      var n2 := Connect(n1, rep, os.port, lo);
      var env1 := os.env[a := Binding(rep.(kind := Aux0), la)][b := Binding(rep.(kind := Aux1), lb)];
      ElaborateShallow(n2, level, env1, lo, body, ul);
    case Era(s, body) =>
      ElaborateShallow(n, level, env, lo, s, ul);
      var os := Elaborate(n, level, env, lo, s, ul).value;
      ElaborateShallow(Connect(os.net, Eraser, os.port, lo), level, os.env, lo, body, ul);
    case Fix(i) => ElaborateShallow(n, level, env, lo + [false], i, ul);
    case Val(_) =>
    case Fun(_) =>
  }

  lemma {:induction false} OccLevelShallow(x: string, e: Ast, level: nat)
    requires Shallow(e, level) && x in Frees(e)
    ensures level <= OccLevel(x, e, level) <= MAX_DEPTH
    decreases e
  {
    match e
    case Name(_) =>
    case Abs(_, b) => OccLevelShallow(x, b, level);
    case App(f, a) => if x in Frees(f) { OccLevelShallow(x, f, level); } else { OccLevelShallow(x, a, level + 1); }
    case Rep(s, _, _, body) => if x in Frees(s) { OccLevelShallow(x, s, level); }
      else { OccLevelShallow(x, body, level); }
    case Era(s, body) => if x in Frees(s) { OccLevelShallow(x, s, level); } else { OccLevelShallow(x, body, level); }
    case Fix(i) => OccLevelShallow(x, i, level);
  }

  ghost predicate SameLevels(e: Ast, env: Env, lev: map<string, nat>) {
    forall x :: x in Frees(e) ==> x in env && x in lev && env[x].level == lev[x] && lev[x] <= MAX_DEPTH + 1
  }

  lemma {:induction false} WiredLabelled(n: NetState, e: Ast, base: nat, env: Env, lev: map<string, nat>,
      level: nat, ul: map<string, nat>)
    requires Frag(e) && Linear(e) && Wired(n, e, base, env, level, ul)
    requires CopiesRecorded(e, level, ul) && Shallow(e, level)
    requires SameLevels(e, env, lev)
    ensures Labelled(n, e, base, lev, level)
    decreases e, 1
  {
    hide Linked;
    match e
    case Name(_) =>
    case Abs(x, b) => WiredLabelledAbs(n, x, b, base, env, lev, level, ul);
    case App(f, x) => WiredLabelledApp(n, f, x, base, env, lev, level, ul);
    case Rep(s, a, b, body) => WiredLabelledRep(n, s, a, b, body, base, env, lev, level, ul);
    case Era(s, body) => WiredLabelled(n, body, base, env, lev, level, ul);
    case Fix(i) => WiredLabelled(n, i, base, env, lev, level, ul);
    case Val(_) =>
    case Fun(_) =>
  }

  lemma {:induction false} WiredLabelledAbs(n: NetState, x: string, b: Ast, base: nat, env: Env, lev: map<string,
      nat>, level: nat, ul: map<string, nat>)
    requires var e := Abs(x, b);
      && Frag(e) && Linear(e) && Wired(n, e, base, env, level, ul)
      && CopiesRecorded(e, level, ul) && Shallow(e, level) && SameLevels(e, env, lev)
    ensures Labelled(n, Abs(x, b), base, lev, level)
    decreases Abs(x, b), 0
  {
    hide Linked;
    UsesFrees(x, b);
    OccLevelShallow(x, b, level);
    WiredLabelled(n, b, base + 1, AbsEnv(env, x, base, level), lev[x := level + 1], level, ul);
  }

  lemma {:induction false} WiredLabelledApp(n: NetState, f: Ast, x: Ast, base: nat, env: Env, lev: map<string, nat>,
      level: nat, ul: map<string, nat>)
    requires var e := App(f, x);
      && Frag(e) && Linear(e) && Wired(n, e, base, env, level, ul)
      && CopiesRecorded(e, level, ul) && Shallow(e, level) && SameLevels(e, env, lev)
    ensures Labelled(n, App(f, x), base, lev, level)
    decreases App(f, x), 0
  {
    hide Linked;
    WiredLabelled(n, f, base + 1, env, lev, level, ul);
    WiredLabelled(n, x, base + 1 + Count(f), env, lev, level + 1, ul);
  }

  lemma {:induction false} WiredLabelledRep(n: NetState, s: Ast, a: string, b: string, body: Ast, base: nat,
      env: Env, lev: map<string, nat>, level: nat, ul: map<string, nat>)
    requires var e := Rep(s, a, b, body);
      && Frag(e) && Linear(e) && Wired(n, e, base, env, level, ul)
      && CopiesRecorded(e, level, ul) && Shallow(e, level) && SameLevels(e, env, lev)
    ensures Labelled(n, Rep(s, a, b, body), base, lev, level)
    decreases Rep(s, a, b, body), 0
  {
    hide Linked;
    UsesFrees(a, body);
    UsesFrees(b, body);
    OccLevelShallow(a, body, level);
    OccLevelShallow(b, body, level);
    assert s.n in Frees(s);
    WiredLabelled(n, body, base + 1, RepEnv(env, a, b, base, ul[a], ul[b]), lev[a := ul[a]][b := ul[b]], level, ul);
  }

  /** The labels of the replicators of an elaborated program are exact. */
  lemma DeltasExact(capacity: nat, e: Ast)
    requires Program(e)
    requires ElaborateProgram(capacity, e).Ok?
    ensures Labelled(ElaborateProgram(capacity, e).value.net, e, 1, map[], 0)
  {
    var n := NewNet(capacity);
    var ul := Levels(0, map[], e);
    NewNetInv(capacity);
    ElaborateKeeps(n, 0, map[], [], e, ul);
    ElaborateShallow(n, 0, map[], [], e, ul);
    LevelsRecord(0, map[], e);
    WiredLabelled(ElaborateProgram(capacity, e).value.net, e, 1, map[], map[], 0, ul);
  }
}
