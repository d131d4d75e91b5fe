/**
 Under which path elaboration indexes each redex: the position of the redex in the syntax tree,
 function to the left, argument to the right. The least path is the leftmost-outermost redex.
 */
module ElabPaths {
  import opened Common
  import opened Arenas
  import opened Nets
  import opened NetFacts
  import opened Asts
  import opened Elab
  import opened ElabProof
  import opened ElabTheorems
  import opened LOPathProof
  import Pass1

  // ---------------------------------------------------------------------------------------------
  // Redexes of the syntax tree

  /** The term delivers an abstraction or a primitive, below its copies and erasures. */
  predicate IsValue(e: Ast) {
    match e
    case Abs(_, _) => true
    case Val(_) => true
    case Fun(_) => true
    case Rep(_, _, _, body) => IsValue(body)
    case Era(_, body) => IsValue(body)
    case _ => false
  }

  /** The node at a position: left into a function or a body, right into an argument; Rep and Era take no step. */
  function Reach(e: Ast, p: Path): Option<Ast>
    decreases e
  {
    match e
    case Rep(_, _, _, body) => Reach(body, p)
    case Era(_, body) => Reach(body, p)
    case Abs(_, b) => if p == [] then Some(e) else if p[0] then None else Reach(b, p[1..])
    case App(f, x) => if p == [] then Some(e) else if p[0] then Reach(x, p[1..]) else Reach(f, p[1..])
    case Fix(i) => if p == [] then Some(e) else if p[0] then None else Reach(i, p[1..])
    case _ => if p == [] then Some(e) else None
  }

  /** An application or recursion at this position meets a value in function position. */
  predicate RedexAt(e: Ast, p: Path) {
    match Reach(e, p)
    case Some(App(f, _)) => IsValue(f)
    case Some(Fix(i)) => IsValue(i)
    case _ => false
  }

  predicate FixAt(e: Ast, p: Path) { Reach(e, p).Some? && Reach(e, p).value.Fix? }

  /** The first redex met when every node is looked at before its function and its function before its argument. */
  function FirstRedex(e: Ast): Option<Path> {
    match e
    case Abs(_, b) => Under(false, FirstRedex(b))
    case App(f, x) =>
      if IsValue(f) then Some([])
      else if FirstRedex(f).Some? then Under(false, FirstRedex(f))
      else Under(true, FirstRedex(x))
    case Fix(i) => if IsValue(i) then Some([]) else Under(false, FirstRedex(i))
    case Rep(_, _, _, body) => FirstRedex(body)
    case Era(_, body) => FirstRedex(body)
    case _ => None
  }

  function Under(bit: bool, p: Option<Path>): Option<Path> {
    if p.Some? then Some([bit] + p.value) else None
  }

  /** The slot of the application agent of the node at a position, when agents are numbered from `base`. */
  function NodeSlot(e: Ast, base: nat, p: Path): nat
    decreases e
  {
    match e
    case Rep(_, _, _, body) => NodeSlot(body, base + 1, p)
    case Era(_, body) => NodeSlot(body, base, p)
    case Fix(i) => if p == [] then base + Count(i) else NodeSlot(i, base, p[1..])
    case Abs(_, b) => if p == [] then base else NodeSlot(b, base + 1, p[1..])
    case App(f, x) =>
      if p == [] then base
      else if p[0] then NodeSlot(x, base + 1 + Count(f), p[1..])
      else NodeSlot(f, base + 1, p[1..])
    case _ => base
  }

  // ---------------------------------------------------------------------------------------------
  // The index a term prescribes

  /** The slot of the agent whose principal port delivers a value. */
  function ValueSlot(e: Ast, base: nat): Option<nat> {
    match e
    case Abs(_, _) => Some(base)
    case Val(_) => Some(base)
    case Fun(_) => Some(base)
    case Rep(_, _, _, body) => ValueSlot(body, base + 1)
    case Era(_, body) => ValueSlot(body, base)
    case _ => None
  }

  /** The entry of an application in slot `app` whose function is `f`. */
  function Own(app: nat, f: Ast, base: nat, key: Path): map<Path, ActivePair> {
    match ValueSlot(f, base)
    case Some(v) => map[key := ActivePair(Addr(app, Principal), Addr(v, Principal), key)]
    case None => map[]
  }

  function Actives(e: Ast, base: nat, lo: Path): map<Path, ActivePair> {
    match e
    case Abs(_, b) => Actives(b, base + 1, lo + [false])
    case App(f, x) =>
      Actives(f, base + 1, lo + [false]) + Actives(x, base + 1 + Count(f), lo + [true])
        + Own(base, f, base + 1, lo + [false])
    case Rep(_, _, _, body) => Actives(body, base + 1, lo)
    case Era(_, body) => Actives(body, base, lo)
    case Fix(i) => Actives(i, base, lo + [false]) + Own(base + Count(i), i, base, lo + [false])
    case _ => map[]
  }

  function Candidates(e: Ast, base: nat, lo: Path): map<Path, C4Candidate> {
    match e
    case Abs(_, b) => Candidates(b, base + 1, lo + [false])
    case App(f, x) => Candidates(f, base + 1, lo + [false]) + Candidates(x, base + 1 + Count(f), lo + [true])
    case Rep(_, _, _, body) => Candidates(body, base + 1, lo)
    case Era(_, body) => Candidates(body, base, lo)
    case Fix(i) =>
      var app := base + Count(i);
      Candidates(i, base, lo + [false])[
        lo + [true] := C4Candidate(Addr(app + 1, Principal), Addr(app, Aux0), lo + [true])]
    case _ => map[]
  }

  // ---------------------------------------------------------------------------------------------
  // Elaboration builds that index

  predicate NoPrincipals(env: Env) { forall m :: m in env ==> !KindOf(env[m].port).Principal? }

  lemma EnvNoPrincipals(n: NetState, env: Env)
    requires EnvOk(n, env)
    ensures NoPrincipals(env)
  {
    forall m | m in env
      ensures !KindOf(env[m].port).Principal?
    {
      assert VarPort(n, env[m].port);
    }
  }

  /** A value is delivered at a principal port, anything else at an auxiliary one. */
  lemma {:induction false} ResultKind(e: Ast, base: nat, env: Env, level: nat, ul: map<string, nat>)
    requires Frag(e) && NoPrincipals(env) && Frees(e) <= env.Keys
    ensures
      var p := ResultPort(e, base, env, level, ul);
      match ValueSlot(e, base)
      case Some(v) => p == Addr(v, Principal)
      case None => !KindOf(p).Principal?
    decreases e
  {
    match e
    case Rep(s, a, b, body) =>
      ResultKind(body, base + 1, RepEnv(env, a, b, base, LevelOf(ul, a, level), LevelOf(ul, b, level)), level, ul);
    case Era(_, body) => ResultKind(body, base, env, level, ul);
    case _ =>
  }

  /** The index after elaborating `e` from `n` is the old one with what the term prescribes. */
  ghost predicate Indexed(n: NetState, lo: Path, e: Ast, m: NetState) {
    && m.f1 == n.f1 + Actives(e, |n.arena.slots|, lo)
    && m.f2 == n.f2 + Candidates(e, |n.arena.slots|, lo)
  }

  lemma {:induction false} ElaborateIndex(n: NetState, level: nat, env: Env, lo: Path, e: Ast, ul: map<string, nat>)
    requires Pre(n, env, lo, e) && Elaborate(n, level, env, lo, e, ul).Ok?
    ensures Indexed(n, lo, e, Elaborate(n, level, env, lo, e, ul).value.net)
    decreases e, 1
  {
    hide Pre, AllocAgent, Connect, Extend, Actives, Candidates;
    match e
    case Name(_) => IndexLeaf(n, lo, e);
    case Abs(x, b) => IndexAbs(n, level, env, lo, x, b, ul);
    case App(f, x) => IndexApp(n, level, env, lo, f, x, ul);
    case Rep(s, a, b, body) => IndexRep(n, level, env, lo, s, a, b, body, ul);
    case Era(s, body) => IndexEra(n, level, env, lo, s, body, ul);
    case Fix(i) => IndexFix(n, level, env, lo, i, ul);
    case Val(_) => IndexVal(n, level, env, lo, e, ul);
    case Fun(_) => IndexVal(n, level, env, lo, e, ul);
  }

  lemma IndexLeaf(n: NetState, lo: Path, e: Ast)
    requires e.Name? || e.Val? || e.Fun?
    ensures Indexed(n, lo, e, n)
  {
  }

  lemma IndexVal(n: NetState, level: nat, env: Env, lo: Path, e: Ast, ul: map<string, nat>)
    requires Pre(n, env, lo, e) && (e.Val? || e.Fun?) && Elaborate(n, level, env, lo, e, ul).Ok?
    ensures Indexed(n, lo, e, Elaborate(n, level, env, lo, e, ul).value.net)
  {
    hide AllocAgent, EnvOk, PathsFree, Inv;
    AllocFacts(n, FreeAgent, 0, 0, 0);
    IndexLeaf(n, lo, e);
  }

  lemma {:induction false} IndexAbs(n: NetState, level: nat, env: Env, lo: Path, x: string, b: Ast,
      ul: map<string, nat>)
    requires Pre(n, env, lo, Abs(x, b)) && Elaborate(n, level, env, lo, Abs(x, b), ul).Ok?
    ensures Indexed(n, lo, Abs(x, b), Elaborate(n, level, env, lo, Abs(x, b), ul).value.net)
    decreases Abs(x, b), 0
  {
    hide Post, AllocAgent, Connect, EnvOk, PathsFree, Inv, Ext, Stretch;
    AllocFacts(n, FanAbs, 0, 0, 0);
    var base := |n.arena.slots|;
    var n1 := AllocAgent(n, FanAbs, 0, 0, 0).value.0;
    var env1 := AbsEnv(env, x, base, level);
    AbsPre(n, level, env, lo, x, b);
    ElaborateKeeps(n1, level, env1, lo + [false], b, ul);
    ElaborateIndex(n1, level, env1, lo + [false], b, ul);
    var o := Elaborate(n1, level, env1, lo + [false], b, ul).value;
    AbsOpen(n, level, env, lo, x, b, ul, n1, o);
    ConnectKeys(o.net, Addr(base, Aux0), o.port, lo + [false]);
  }

  lemma {:induction false} IndexRep(n: NetState, level: nat, env: Env, lo: Path, s: Ast, a: string, b: string,
      body: Ast, ul: map<string, nat>)
    requires Pre(n, env, lo, Rep(s, a, b, body)) && Elaborate(n, level, env, lo, Rep(s, a, b, body), ul).Ok?
    ensures Indexed(n, lo, Rep(s, a, b, body), Elaborate(n, level, env, lo, Rep(s, a, b, body), ul).value.net)
    decreases Rep(s, a, b, body), 0
  {
    hide AllocAgent, Connect, EnvOk, PathsFree, Inv, Ext, Stretch, Linked, Untouched, Wired, Settled, NewPathsBelow;
    var x := s.n;
    assert s == Name(x) && x in env;
    var la, lb := LevelOf(ul, a, level), LevelOf(ul, b, level);
    AllocFacts(n, Replicator, env[x].level % 0x1_0000, la - env[x].level, lb - env[x].level);
    var n1 := AllocAgent(n, Replicator, env[x].level % 0x1_0000, la - env[x].level, lb - env[x].level).value.0;
    var n2 := Connect(n1, Addr(|n.arena.slots|, Principal), env[x].port, lo);
    var env1 := RepEnv(env - {x}, a, b, |n.arena.slots|, la, lb);
    RepOpen(n, env, lo, x, a, b, body, la, lb, n2, env1);
    RepPre(n, env, lo, x, a, b, body, la, lb, n2, env1);
    ElaborateIndex(n2, level, env1, lo, body, ul);
  }

  lemma {:induction false} IndexEra(n: NetState, level: nat, env: Env, lo: Path, s: Ast, body: Ast,
      ul: map<string, nat>)
    requires Pre(n, env, lo, Era(s, body)) && Elaborate(n, level, env, lo, Era(s, body), ul).Ok?
    ensures Indexed(n, lo, Era(s, body), Elaborate(n, level, env, lo, Era(s, body), ul).value.net)
    decreases Era(s, body), 0
  {
    hide Connect, EnvOk, PathsFree, Inv, Ext, Stretch;
    var x := s.n;
    assert s == Name(x) && x in env;
    var n2 := Connect(n, Eraser, env[x].port, lo);
    EraOpen(n, env, lo, x, body, n2);
    ElaborateIndex(n2, level, env - {x}, lo, body, ul);
  }

  /** The wire from an application's function port is indexed exactly if the function is a value. */
  lemma FunctionWire(n: NetState, app: nat, f: Ast, base: nat, env: Env, level: nat, ul: map<string, nat>, p: Port,
      key: Path)
    requires Frag(f) && NoPrincipals(env) && Frees(f) <= env.Keys && p == ResultPort(f, base, env, level, ul)
    requires IsPort(n, Addr(app, Principal)) && IsPort(n, p) && p != Addr(app, Principal) && AgentOf(n, app).FanApp?
    ensures
      var m := Connect(n, Addr(app, Principal), p, key);
      m.f1 == n.f1 + Own(app, f, base, key) && m.f2 == n.f2
  {
    hide Connect, ResultPort, ValueSlot;
    ResultKind(f, base, env, level, ul);
    ConnectKeys(n, Addr(app, Principal), p, key);
  }

  lemma {:induction false} IndexApp(n: NetState, level: nat, env: Env, lo: Path, f: Ast, x: Ast, ul: map<string, nat>)
    requires Pre(n, env, lo, App(f, x)) && Elaborate(n, level, env, lo, App(f, x), ul).Ok?
    ensures Indexed(n, lo, App(f, x), Elaborate(n, level, env, lo, App(f, x), ul).value.net)
    decreases App(f, x), 0
  {
    hide Post, AllocAgent, Connect, EnvOk, PathsFree, Inv;
    AllocFacts(n, FanApp, 0, 0, 0);
    var n1 := AllocAgent(n, FanApp, 0, 0, 0).value.0;
    AppPreFn(n, env, lo, f, x);
    ElaborateKeeps(n1, level, env, lo + [false], f, ul);
    ElaborateIndex(n1, level, env, lo + [false], f, ul);
    var of := Elaborate(n1, level, env, lo + [false], f, ul).value;
    AppPreArg(n, level, env, lo, f, x, ul, n1, of);
    ElaborateKeeps(of.net, level + 1, of.env, lo + [true], x, ul);
    ElaborateIndex(of.net, level + 1, of.env, lo + [true], x, ul);
    var ox := Elaborate(of.net, level + 1, of.env, lo + [true], x, ul).value;
    IndexAppWires(n, level, env, lo, f, x, ul, n1, of, ox);
  }

  lemma IndexAppWires(n: NetState, level: nat, env: Env, lo: Path, f: Ast, x: Ast, ul: map<string, nat>, n1: NetState,
      of: Out, ox: Out)
    requires AppReady(n, level, env, lo, f, x, ul, n1, of, ox)
    requires n1.f1 == n.f1 && n1.f2 == n.f2 && |n1.arena.slots| == |n.arena.slots| + 1
    requires Indexed(n1, lo + [false], f, of.net) && Indexed(of.net, lo + [true], x, ox.net)
    ensures Indexed(n, lo, App(f, x), AppNet(|n.arena.slots|, of, ox, lo))
  {
    hide AllocAgent, Connect, Actives, Candidates, Own, AppReady;
    var base := |n.arena.slots|;
    AppWireKeys(n, level, env, lo, f, x, ul, n1, of, ox);
    AppEnv(n, level, env, lo, f, x, ul, n1, of, ox);
    var l, r := lo + [false], lo + [true];
    MergeThree(n.f1, Actives(f, base + 1, l), Actives(x, base + 1 + Count(f), r), Own(base, f, base + 1, l));
    MergeTwo(n.f2, Candidates(f, base + 1, l), Candidates(x, base + 1 + Count(f), r));
    ActivesApp(f, x, base, lo);
  }

  lemma ActivesApp(f: Ast, x: Ast, base: nat, lo: Path)
    ensures Actives(App(f, x), base, lo) ==
      Actives(f, base + 1, lo + [false]) + Actives(x, base + 1 + Count(f), lo + [true])
      + Own(base, f, base + 1, lo + [false])
    ensures Candidates(App(f, x), base, lo) ==
      Candidates(f, base + 1, lo + [false]) + Candidates(x, base + 1 + Count(f), lo + [true])
  {
  }

  lemma MergeTwo<K, V>(n: map<K, V>, a: map<K, V>, b: map<K, V>)
    ensures n + a + b == n + (a + b)
  {
  }

  lemma MergeUpdate<K, V>(n: map<K, V>, a: map<K, V>, k: K, v: V)
    ensures (n + a)[k := v] == n + a[k := v]
  {
  }

  lemma MergeThree<K, V>(n: map<K, V>, a: map<K, V>, b: map<K, V>, c: map<K, V>)
    ensures n + a + b + c == n + (a + b + c)
  {
  }

  lemma AppWireKeys(n: NetState, level: nat, env: Env, lo: Path, f: Ast, x: Ast, ul: map<string, nat>, n1: NetState,
      of: Out, ox: Out)
    requires AppReady(n, level, env, lo, f, x, ul, n1, of, ox) && |n1.arena.slots| == |n.arena.slots| + 1
    ensures
      var base := |n.arena.slots|;
      var m := AppNet(base, of, ox, lo);
      m.f1 == ox.net.f1 + Own(base, f, base + 1, lo + [false]) && m.f2 == ox.net.f2
  {
    hide AllocAgent, Connect, EnvOk, PathsFree, Inv, Ext, Stretch, Wired, NewWired, Settled, NewPathsBelow, Linked,
        Own, AppReady, Avail;
    var base := |n.arena.slots|;
    var pr, aux1 := Addr(base, Principal), Addr(base, Aux1);
    AppOpen(n, level, env, lo, f, x, ul, n1, of, ox);
    AppEnv(n, level, env, lo, f, x, ul, n1, of, ox);
    assert of.port != pr && ox.port != pr && ox.port != aux1 && of.port != aux1;
    assert Avail(n, env, ox.net, ox.env, pr) && Avail(n, env, ox.net, ox.env, aux1);
    AvailPort(n, env, ox.net, ox.env, pr);
    AvailPort(n, env, ox.net, ox.env, of.port);
    FunctionWire(ox.net, base, f, base + 1, env, level, ul, of.port, lo + [false]);
    var n2 := Connect(ox.net, pr, of.port, lo + [false]);
    AvailWire(n, env, ox.net, ox.env, pr, of.port, lo + [false], aux1);
    AvailWire(n, env, ox.net, ox.env, pr, of.port, lo + [false], ox.port);
    AvailPort(n, env, n2, ox.env, aux1);
    AvailPort(n, env, n2, ox.env, ox.port);
    ConnectKeys(n2, aux1, ox.port, lo + [true]);
  }

  lemma AppEnv(n: NetState, level: nat, env: Env, lo: Path, f: Ast, x: Ast, ul: map<string, nat>, n1: NetState,
      of: Out, ox: Out)
    requires AppReady(n, level, env, lo, f, x, ul, n1, of, ox)
    ensures NoPrincipals(env) && Frees(f) <= env.Keys && Frag(f)
    ensures of.port == ResultPort(f, |n1.arena.slots|, env, level, ul)
    ensures |of.net.arena.slots| == |n1.arena.slots| + Count(f)
  {
    hide AllocAgent, PathsFree, Inv, Ext, Stretch, Wired, NewWired, Settled, NewPathsBelow, EnvOk;
    EnvNoPrincipals(n, env);
  }

  lemma {:induction false} IndexFix(n: NetState, level: nat, env: Env, lo: Path, i: Ast, ul: map<string, nat>)
    requires Pre(n, env, lo, Fix(i)) && Elaborate(n, level, env, lo, Fix(i), ul).Ok?
    ensures Indexed(n, lo, Fix(i), Elaborate(n, level, env, lo, Fix(i), ul).value.net)
    decreases Fix(i), 0
  {
    hide Post, AllocAgent, Connect, EnvOk, PathsFree, Inv;
    FixPre(n, env, lo, i);
    ElaborateKeeps(n, level, env, lo + [false], i, ul);
    ElaborateIndex(n, level, env, lo + [false], i, ul);
    var o := Elaborate(n, level, env, lo + [false], i, ul).value;
    var app, rep := |o.net.arena.slots|, |o.net.arena.slots| + 1;
    PostInv(n, level, env, lo + [false], i, ul, o);
    AllocFacts(o.net, FanApp, 0, 0, 0);
    var n1 := AllocAgent(o.net, FanApp, 0, 0, 0).value.0;
    var n2 := Connect(n1, Addr(app, Principal), o.port, lo + [false]);
    var n3 := AllocAgent(n2, Replicator, level % 0x1_0000, 0, 0).value.0;
    FixAlloc(n, level, env, lo, i, ul, o, n1, n2);
    var n4 := Connect(n3, Addr(rep, Principal), Addr(app, Aux0), lo + [true]);
    var n5 := Connect(n4, Addr(app, Aux1), Addr(rep, Aux0), lo);
    IndexFixWires(n, level, env, lo, i, ul, o, FixNets(n1, n2, n3, n4, n5));
  }

  lemma IndexFixWires(n: NetState, level: nat, env: Env, lo: Path, i: Ast, ul: map<string, nat>, o: Out, w: FixNets)
    requires FixReady(n, level, env, lo, i, ul, o, w) && Indexed(n, lo + [false], i, o.net)
    ensures Indexed(n, lo, Fix(i), w.n5)
  {
    hide AllocAgent, Connect, Stretch, Linked, Ext, Avail, Actives, Candidates, Own, FixReady, NewWired;
    FixFirstWire(n, level, env, lo, i, ul, o, w);
    FixSecondWire(n, level, env, lo, i, ul, o, w);
    FixThirdWire(n, level, env, lo, i, ul, o, w);
    FixSize(n, level, env, lo, i, ul, o, w);
    var base, l := |n.arena.slots|, lo + [false];
    MergeTwo(n.f1, Actives(i, base, l), Own(base + Count(i), i, base, l));
    var app := base + Count(i);
    var key := lo + [true];
    MergeUpdate(n.f2, Candidates(i, base, l), key, C4Candidate(Addr(app + 1, Principal), Addr(app, Aux0), key));
    ActivesFix(i, base, lo);
  }

  lemma ActivesFix(i: Ast, base: nat, lo: Path)
    ensures Actives(Fix(i), base, lo) == Actives(i, base, lo + [false]) + Own(base + Count(i), i, base, lo + [false])
    ensures
      var app := base + Count(i);
      Candidates(Fix(i), base, lo) == Candidates(i, base, lo + [false])[
        lo + [true] := C4Candidate(Addr(app + 1, Principal), Addr(app, Aux0), lo + [true])]
  {
  }

  lemma FixThirdWire(n: NetState, level: nat, env: Env, lo: Path, i: Ast, ul: map<string, nat>, o: Out, w: FixNets)
    requires FixReady(n, level, env, lo, i, ul, o, w)
    ensures w.n5.f1 == w.n4.f1 && w.n5.f2 == w.n4.f2
  {
    hide AllocAgent, Connect, Stretch, Linked, Ext, Avail, NewWired, Pre, Post, RepLabel;
    var app, rep := |o.net.arena.slots|, |o.net.arena.slots| + 1;
    FixOpen2(n, level, env, lo, i, ul, o, w);
    AvailPort(n, env, w.n4, o.env, Addr(app, Aux1));
    AvailPort(n, env, w.n4, o.env, Addr(rep, Aux0));
    ConnectKeys(w.n4, Addr(app, Aux1), Addr(rep, Aux0), lo);
  }

  lemma FixSize(n: NetState, level: nat, env: Env, lo: Path, i: Ast, ul: map<string, nat>, o: Out, w: FixNets)
    requires FixReady(n, level, env, lo, i, ul, o, w)
    ensures |o.net.arena.slots| == |n.arena.slots| + Count(i)
  {
  }

  lemma FixFirstWire(n: NetState, level: nat, env: Env, lo: Path, i: Ast, ul: map<string, nat>, o: Out, w: FixNets)
    requires FixReady(n, level, env, lo, i, ul, o, w)
    ensures w.n2.f1 == o.net.f1 + Own(|o.net.arena.slots|, i, |n.arena.slots|, lo + [false])
    ensures w.n2.f2 == o.net.f2
  {
    hide AllocAgent, Connect, PathsFree, Inv, Ext, Untouched, Wired, NewWired, Settled, NewPathsBelow, Linked, EnvFrom;
    var app := |o.net.arena.slots|;
    StretchAlloc(o.net, o.env, FanApp, 0, 0, 0);
    AvailKeep(n, env, o.net, o.env, o.env, w.n1, o.env, o.port);
    assert Avail(o.net, o.env, w.n1, o.env, Addr(app, Principal));
    EnvNoPrincipals(n, env);
    FunctionWire(w.n1, app, i, |n.arena.slots|, env, level, ul, o.port, lo + [false]);
  }

  lemma FixSecondWire(n: NetState, level: nat, env: Env, lo: Path, i: Ast, ul: map<string, nat>, o: Out, w: FixNets)
    requires FixReady(n, level, env, lo, i, ul, o, w)
    ensures
      var app, rep := |o.net.arena.slots|, |o.net.arena.slots| + 1;
      && w.n4.f1 == w.n2.f1
      && w.n4.f2 == w.n2.f2[lo + [true] := C4Candidate(Addr(rep, Principal), Addr(app, Aux0), lo + [true])]
  {
    hide AllocAgent, Connect, PathsFree, Inv, Ext, Untouched, Wired, NewWired, Settled, NewPathsBelow, Linked,
        EnvFrom, EnvOk;
    var app, rep := |o.net.arena.slots|, |o.net.arena.slots| + 1;
    FixOpen1(n, level, env, lo, i, ul, o, w);
    StretchAlloc(w.n2, o.env, Replicator, level % 0x1_0000, 0, 0);
    AvailKeep(n, env, w.n2, o.env, o.env, w.n3, o.env, Addr(app, Aux0));
    assert Avail(w.n2, o.env, w.n3, o.env, Addr(rep, Principal));
    AgentExt(w.n2, w.n3, app);
    ConnectKeys(w.n3, Addr(rep, Principal), Addr(app, Aux0), lo + [true]);
  }

  // ---------------------------------------------------------------------------------------------
  // Entries are keyed by the position of their redex

  lemma {:induction false} ValueSlotIff(e: Ast, base: nat)
    ensures ValueSlot(e, base).Some? <==> IsValue(e)
    decreases e
  {
    match e
    case Rep(_, _, _, body) => ValueSlotIff(body, base + 1);
    case Era(_, body) => ValueSlotIff(body, base);
    case _ =>
  }

  lemma PathCons(lo: Path, bit: bool, p: Path)
    ensures lo + ([bit] + p) == lo + [bit] + p && ([bit] + p)[1..] == p && ([bit] + p)[0] == bit
  {
  }

  /** Every key of the index is the position of a redex, with the step into its function. */
  lemma {:induction false} KeyIsPosition(e: Ast, base: nat, lo: Path, k: Path) returns (p: Path)
    requires k in Actives(e, base, lo)
    ensures k == lo + p + [false] && RedexAt(e, p)
    ensures KindOf(Actives(e, base, lo)[k].p0).Principal? &&
      Actives(e, base, lo)[k].p0 == Addr(NodeSlot(e, base, p), Principal)
    decreases e
  {
    match e
    case Abs(_, b) =>
      p := KeyIsPosition(b, base + 1, lo + [false], k);
      PathCons(lo, false, p);
      p := [false] + p;
    case App(f, x) =>
      ValueSlotIff(f, base + 1);
      if k in Own(base, f, base + 1, lo + [false]) {
        p := [];
      } else if k in Actives(x, base + 1 + Count(f), lo + [true]) {
        p := KeyIsPosition(x, base + 1 + Count(f), lo + [true], k);
        PathCons(lo, true, p);
        p := [true] + p;
      } else {
        p := KeyIsPosition(f, base + 1, lo + [false], k);
        PathCons(lo, false, p);
        p := [false] + p;
      }
    case Rep(_, _, _, body) => p := KeyIsPosition(body, base + 1, lo, k);
    case Era(_, body) => p := KeyIsPosition(body, base, lo, k);
    case Fix(i) =>
      ValueSlotIff(i, base);
      if k in Own(base + Count(i), i, base, lo + [false]) {
        p := [];
      } else {
        p := KeyIsPosition(i, base, lo + [false], k);
        PathCons(lo, false, p);
        p := [false] + p;
      }
  }

  /** Every redex is indexed under its position. */
  lemma {:induction false} PositionIsKey(e: Ast, base: nat, lo: Path, p: Path)
    requires RedexAt(e, p)
    ensures lo + p + [false] in Actives(e, base, lo)
    decreases e
  {
    match e
    case Rep(_, _, _, body) => PositionIsKey(body, base + 1, lo, p);
    case Era(_, body) => PositionIsKey(body, base, lo, p);
    case Abs(_, b) =>
      assert p == [false] + p[1..];
      PathCons(lo, false, p[1..]);
      PositionIsKey(b, base + 1, lo + [false], p[1..]);
    case App(f, x) =>
      ValueSlotIff(f, base + 1);
      if p == [] {
        assert lo + p + [false] == lo + [false];
      } else {
        assert p == [p[0]] + p[1..];
        PathCons(lo, p[0], p[1..]);
        if p[0] { PositionIsKey(x, base + 1 + Count(f), lo + [true], p[1..]); }
        else { PositionIsKey(f, base + 1, lo + [false], p[1..]); }
      }
    case Fix(i) =>
      ValueSlotIff(i, base);
      if p == [] {
        assert lo + p + [false] == lo + [false];
      } else {
        assert p == [false] + p[1..];
        PathCons(lo, false, p[1..]);
        PositionIsKey(i, base, lo + [false], p[1..]);
      }
  }

  lemma {:induction false} CandidateIsPosition(e: Ast, base: nat, lo: Path, k: Path) returns (p: Path)
    requires k in Candidates(e, base, lo)
    ensures k == lo + p + [true] && FixAt(e, p)
    ensures Candidates(e, base, lo)[k].app == Addr(NodeSlot(e, base, p), Aux0)
    decreases e
  {
    match e
    case Abs(_, b) =>
      p := CandidateIsPosition(b, base + 1, lo + [false], k);
      PathCons(lo, false, p);
      p := [false] + p;
    case App(f, x) =>
      if k in Candidates(x, base + 1 + Count(f), lo + [true]) {
        p := CandidateIsPosition(x, base + 1 + Count(f), lo + [true], k);
        PathCons(lo, true, p);
        p := [true] + p;
      } else {
        p := CandidateIsPosition(f, base + 1, lo + [false], k);
        PathCons(lo, false, p);
        p := [false] + p;
      }
    case Rep(_, _, _, body) => p := CandidateIsPosition(body, base + 1, lo, k);
    case Era(_, body) => p := CandidateIsPosition(body, base, lo, k);
    case Fix(i) =>
      if k == lo + [true] {
        p := [];
      } else {
        p := CandidateIsPosition(i, base, lo + [false], k);
        PathCons(lo, false, p);
        p := [false] + p;
      }
  }

  lemma {:induction false} PositionIsCandidate(e: Ast, base: nat, lo: Path, p: Path)
    requires FixAt(e, p)
    ensures lo + p + [true] in Candidates(e, base, lo)
    decreases e
  {
    match e
    case Rep(_, _, _, body) => PositionIsCandidate(body, base + 1, lo, p);
    case Era(_, body) => PositionIsCandidate(body, base, lo, p);
    case Abs(_, b) =>
      assert p == [false] + p[1..];
      PathCons(lo, false, p[1..]);
      PositionIsCandidate(b, base + 1, lo + [false], p[1..]);
    case App(f, x) =>
      assert p == [p[0]] + p[1..];
      PathCons(lo, p[0], p[1..]);
      if p[0] { PositionIsCandidate(x, base + 1 + Count(f), lo + [true], p[1..]); }
      else { PositionIsCandidate(f, base + 1, lo + [false], p[1..]); }
    case Fix(i) =>
      if p == [] {
        assert lo + p + [true] == lo + [true];
      } else {
        assert p == [false] + p[1..];
        PathCons(lo, false, p[1..]);
        PositionIsCandidate(i, base, lo + [false], p[1..]);
      }
  }

  /** The index holds, under the position of each redex, the application agent there, and nothing else. */
  ghost predicate KeyedByPosition(n: NetState, e: Ast) {
    && (forall k :: k in n.f1 <==> exists p :: k == p + [false] && RedexAt(e, p))
    && (forall p :: RedexAt(e, p) ==>
        p + [false] in n.f1 && n.f1[p + [false]].p0 == Addr(NodeSlot(e, 1, p), Principal))
    && (forall k :: k in n.f2 <==> exists p :: k == p + [true] && FixAt(e, p))
    && (forall p :: FixAt(e, p) ==> p + [true] in n.f2 && n.f2[p + [true]].app == Addr(NodeSlot(e, 1, p), Aux0))
  }

  lemma StepInjective(p: Path, q: Path, bit: bool)
    ensures p + [bit] == q + [bit] ==> p == q
  {
    if p + [bit] == q + [bit] { assert p == (p + [bit])[..|p|] == (q + [bit])[..|q|] == q; }
  }

  lemma ActiveKeys(n: NetState, e: Ast)
    requires n.f1 == Actives(e, 1, [])
    ensures forall k :: k in n.f1 <==> exists p :: k == p + [false] && RedexAt(e, p)
    ensures forall p :: RedexAt(e, p) ==>
      p + [false] in n.f1 && n.f1[p + [false]].p0 == Addr(NodeSlot(e, 1, p), Principal)
  {
    hide Actives, RedexAt, NodeSlot;
    forall k | k in n.f1
      ensures exists p :: k == p + [false] && RedexAt(e, p)
    {
      var p := KeyIsPosition(e, 1, [], k);
      assert [] + p == p;
    }
    forall p | RedexAt(e, p)
      ensures p + [false] in n.f1 && n.f1[p + [false]].p0 == Addr(NodeSlot(e, 1, p), Principal)
    {
      PositionIsKey(e, 1, [], p);
      assert [] + p == p;
      var q := KeyIsPosition(e, 1, [], p + [false]);
      assert [] + q == q;
      StepInjective(p, q, false);
    }
  }

  lemma CandidateKeys(n: NetState, e: Ast)
    requires n.f2 == Candidates(e, 1, [])
    ensures forall k :: k in n.f2 <==> exists p :: k == p + [true] && FixAt(e, p)
    ensures forall p :: FixAt(e, p) ==> p + [true] in n.f2 && n.f2[p + [true]].app == Addr(NodeSlot(e, 1, p), Aux0)
  {
    hide Candidates, FixAt, NodeSlot;
    forall k | k in n.f2
      ensures exists p :: k == p + [true] && FixAt(e, p)
    {
      var p := CandidateIsPosition(e, 1, [], k);
      assert [] + p == p;
    }
    forall p | FixAt(e, p)
      ensures p + [true] in n.f2 && n.f2[p + [true]].app == Addr(NodeSlot(e, 1, p), Aux0)
    {
      PositionIsCandidate(e, 1, [], p);
      assert [] + p == p;
      var q := CandidateIsPosition(e, 1, [], p + [true]);
      assert [] + q == q;
      StepInjective(p, q, true);
    }
  }

  // ---------------------------------------------------------------------------------------------
  // The least path is the leftmost-outermost redex

  lemma {:induction false} FirstIsRedex(e: Ast)
    requires FirstRedex(e).Some?
    ensures RedexAt(e, FirstRedex(e).value)
    decreases e
  {
    match e
    case Abs(_, b) => FirstIsRedex(b); assert FirstRedex(e).value[1..] == FirstRedex(b).value;
    case App(f, x) =>
      if !IsValue(f) {
        if FirstRedex(f).Some? {
          FirstIsRedex(f);
          assert FirstRedex(e).value[1..] == FirstRedex(f).value;
        } else {
          FirstIsRedex(x);
          assert FirstRedex(e).value[1..] == FirstRedex(x).value;
        }
      }
    case Fix(i) =>
      if !IsValue(i) { FirstIsRedex(i); assert FirstRedex(e).value[1..] == FirstRedex(i).value; }
    case Rep(_, _, _, body) => FirstIsRedex(body);
    case Era(_, body) => FirstIsRedex(body);
  }

  /** Position `p` comes before `q`, as keys of the index. */
  predicate Before(p: Path, q: Path) { Lex(p + [false], q + [false]).Less? }

  lemma BeforeCons(bit: bool, p: Path, q: Path)
    ensures Before([bit] + p, [bit] + q) == Before(p, q)
    ensures Before([false] + p, [true] + q)
    ensures Before([], [bit] + q)
  {
    var s, t := [bit] + p + [false], [bit] + q + [false];
    assert s[1..] == p + [false] && t[1..] == q + [false];
    assert ([false] + p + [false])[0] == false && ([true] + q + [false])[0] == true;
    var root: Path := [];
    assert root + [false] == [false] && [false][1..] == [];
  }

  /** Every other redex comes after the first one. */
  lemma {:induction false} FirstIsLeast(e: Ast, q: Path)
    requires RedexAt(e, q)
    ensures FirstRedex(e).Some? && (q == FirstRedex(e).value || Before(FirstRedex(e).value, q))
    decreases e
  {
    hide Before;
    if q != [] { assert q == [q[0]] + q[1..]; }
    match e
    case Abs(_, b) => FirstIsLeast(b, q[1..]); BeforeCons(false, FirstRedex(b).value, q[1..]);
    case App(f, x) =>
      if q != [] {
        if q[0] { FirstIsLeast(x, q[1..]); } else { FirstIsLeast(f, q[1..]); }
        var pf := if FirstRedex(f).Some? then FirstRedex(f).value else [];
        var px := if FirstRedex(x).Some? then FirstRedex(x).value else [];
        BeforeCons(q[0], if q[0] then px else pf, q[1..]);
        BeforeCons(false, pf, q[1..]);
      }
    case Fix(i) =>
      if q != [] {
        FirstIsLeast(i, q[1..]);
        BeforeCons(false, FirstRedex(i).value, q[1..]);
      }
    case Rep(_, _, _, body) => FirstIsLeast(body, q);
    case Era(_, body) => FirstIsLeast(body, q);
  }

  /**
   After elaborating a program the frontiers are keyed by the positions of the redexes, and the
   least key of the first one is that of the leftmost-outermost redex.
   */
  lemma IndexByPosition(capacity: nat, e: Ast)
    requires Program(e) && ElaborateProgram(capacity, e).Ok?
    ensures
      var n := ElaborateProgram(capacity, e).value.net;
      && KeyedByPosition(n, e)
      && (FirstRedex(e).None? <==> n.f1 == map[])
      && (FirstRedex(e).Some? ==>
          var key := FirstRedex(e).value + [false];
          key in n.f1 && forall k :: k in n.f1 && k != key ==> Lex(key, k).Less?)
  {
    hide ElaborateProgram, Program, KeyedByPosition, FirstRedex, Lex;
    var n := ElaborateProgram(capacity, e).value.net;
    ProgramIndex(capacity, e);
    Keyed(n, e);
    LeastKey(n, e);
  }

  lemma Keyed(n: NetState, e: Ast)
    requires n.f1 == Actives(e, 1, []) && n.f2 == Candidates(e, 1, [])
    ensures KeyedByPosition(n, e)
  {
    hide Actives, Candidates, RedexAt, FixAt, NodeSlot;
    ActiveKeys(n, e);
    CandidateKeys(n, e);
  }

  lemma LeastKey(n: NetState, e: Ast)
    requires KeyedByPosition(n, e)
    ensures FirstRedex(e).None? <==> n.f1 == map[]
    ensures FirstRedex(e).Some? ==>
      var key := FirstRedex(e).value + [false];
      key in n.f1 && forall k :: k in n.f1 && k != key ==> Lex(key, k).Less?
  {
    hide RedexAt, FixAt, FirstRedex, NodeSlot, Lex;
    if FirstRedex(e).Some? {
      FirstIsRedex(e);
      assert RedexAt(e, FirstRedex(e).value);
    }
    forall k | k in n.f1
      ensures FirstRedex(e).Some? && (k == FirstRedex(e).value + [false] || Lex(FirstRedex(e).value + [false], k).Less?)
    {
      var p :| k == p + [false] && RedexAt(e, p);
      FirstIsLeast(e, p);
    }
  }

  lemma ProgramIndex(capacity: nat, e: Ast)
    requires Program(e) && ElaborateProgram(capacity, e).Ok?
    ensures
      var n := ElaborateProgram(capacity, e).value.net;
      n.f1 == Actives(e, 1, []) && n.f2 == Candidates(e, 1, [])
  {
    hide Elaborate, Actives, Candidates;
    var n := NewNet(capacity);
    var ul := Pass1.Levels(0, map[], e);
    NewNetInv(capacity);
    ElaborateIndex(n, 0, map[], [], e, ul);
    assert n.f1 == map[] && n.f2 == map[];
    assert map[] + Actives(e, 1, []) == Actives(e, 1, []) && map[] + Candidates(e, 1, []) == Candidates(e, 1, []);
  }
}
