/**
 Elaboration builds exactly the wiring that the term's syntax prescribes, and the frontiers
 stay exact along the way.
 */
module ElabProof {
  import opened Arenas
  import opened Nets
  import opened NetFacts
  import opened Asts
  import opened Elab

  /** Agents a term elaborates to. */
  function Count(e: Ast): nat {
    match e
    case Name(_) => 0
    case Abs(_, b) => 1 + Count(b)
    case App(f, x) => 1 + Count(f) + Count(x)
    case Rep(s, _, _, b) => 1 + Count(s) + Count(b)
    case Era(s, b) => Count(s) + Count(b)
    case Fix(i) => Count(i) + 2
    case Val(_) => 1
    case Fun(_) => 1
  }

  /** Scope of the body of an abstraction whose agent is slot `base`. */
  function AbsEnv(env: Env, x: string, base: nat, level: nat): Env {
    env[x := Binding(Addr(base, Aux1), level + 1)]
  }

  /** Scope of the body of a replication whose agent is slot `base`. */
  function RepEnv(env: Env, a: string, b: string, base: nat, la: nat, lb: nat): Env {
    env[a := Binding(Addr(base, Aux0), la)][b := Binding(Addr(base, Aux1), lb)]
  }

  /** The port at which the value of `e` is delivered when its agents are numbered from `base`. */
  function ResultPort(e: Ast, base: nat, env: Env, level: nat, ul: map<string, nat>): Port
    requires Frag(e)
  {
    match e
    case Name(n) => if n in env then env[n].port else Null
    case Abs(_, _) => Addr(base, Principal)
    case App(_, _) => Addr(base, Aux0)
    case Rep(_, a, b, body) =>
      ResultPort(body, base + 1, RepEnv(env, a, b, base, LevelOf(ul, a, level), LevelOf(ul, b, level)), level, ul)
    case Era(_, body) => ResultPort(body, base, env, level, ul)
    case Fix(i) => Addr(base + Count(i) + 1, Aux1)
    case Val(_) => Addr(base, Principal)
    case Fun(_) => Addr(base, Principal)
  }

  /**
   The wiring the syntax of `e` prescribes: one agent per constructor, children linked to it,
   each variable port linked to (or erased at) the place that uses the variable, and each
   replicator labelled with its level and the two level differences.
   */
  ghost predicate Wired(n: NetState, e: Ast, base: nat, env: Env, level: nat, ul: map<string, nat>)
    requires Frag(e)
  {
    match e
    case Name(m) => m in env
    case Abs(x, b) =>
      var inner := AbsEnv(env, x, base, level);
      && AgentOf(n, base).FanAbs?
      && Linked(n, Addr(base, Aux0), ResultPort(b, base + 1, inner, level, ul))
      && Wired(n, b, base + 1, inner, level, ul)
    case App(f, x) =>
      && AgentOf(n, base).FanApp?
      && Linked(n, Addr(base, Principal), ResultPort(f, base + 1, env, level, ul))
      && Linked(n, Addr(base, Aux1), ResultPort(x, base + 1 + Count(f), env, level + 1, ul))
      && Wired(n, f, base + 1, env, level, ul)
      && Wired(n, x, base + 1 + Count(f), env, level + 1, ul)
    case Rep(s, a, b, body) =>
      var la, lb := LevelOf(ul, a, level), LevelOf(ul, b, level);
      && s.n in env
      && RepLabel(n, base, env[s.n].level, la, lb)
      && Linked(n, Addr(base, Principal), env[s.n].port)
      && Wired(n, body, base + 1, RepEnv(env, a, b, base, la, lb), level, ul)
    case Era(s, body) =>
      && s.n in env
      && IsPort(n, env[s.n].port) && Peer(n, env[s.n].port).Eraser?
      && Wired(n, body, base, env, level, ul)
    case Fix(i) =>
      var app, rep := base + Count(i), base + Count(i) + 1;
      && Wired(n, i, base, env, level, ul)
      && AgentOf(n, app).FanApp? && RepLabel(n, rep, level, level, level)
      && Linked(n, Addr(app, Principal), ResultPort(i, base, env, level, ul))
      && Linked(n, Addr(rep, Principal), Addr(app, Aux0))
      && Linked(n, Addr(app, Aux1), Addr(rep, Aux0))
    case Val(_) => AgentOf(n, base).FreeAgent? && base < |n.arena.slots|
    case Fun(_) => AgentOf(n, base).FreeAgent? && base < |n.arena.slots|
  }

  /** Slot `i` is a replicator of level `l` whose copies are consumed at levels `la` and `lb`. */
  predicate RepLabel(n: NetState, i: nat, l: nat, la: nat, lb: nat) {
    && AgentOf(n, i).Replicator?
    && n.arena.slots[i].data == l % 0x1_0000
    && n.arena.slots[i].delta0 == la - l
    && n.arena.slots[i].delta1 == lb - l
  }

  /** A port that delivers a variable: an abstraction's variable or one copy made by a replicator. */
  predicate VarPort(n: NetState, p: Port) {
    && IsPort(n, p)
    && ((AgentOf(n, p.slot).FanAbs? && p.kind.Aux1?) || (AgentOf(n, p.slot).Replicator? && !p.kind.Principal?))
  }

  ghost predicate InEnv(env: Env, p: Port) {
    exists m :: m in env && env[m].port == p
  }

  /** The variables in scope are delivered at distinct, still unwired ports. */
  ghost predicate EnvOk(n: NetState, env: Env) {
    && (forall m :: m in env ==> VarPort(n, env[m].port) && Peer(n, env[m].port).Null?)
    && (forall m, k :: m in env && k in env && m != k ==> env[m].port != env[k].port)
  }

  /** No indexed path lies strictly below `lo`. */
  ghost predicate PathsFree(n: NetState, lo: Path) {
    && (forall k :: k in n.f1 ==> !(lo < k))
    && (forall k :: k in n.f2 ==> !(lo < k))
  }

  /** Paths indexed since `n` all lie strictly below `lo`. */
  ghost predicate NewPathsBelow(n: NetState, m: NetState, lo: Path) {
    && (forall k :: k in m.f1 && k !in n.f1 ==> lo < k)
    && (forall k :: k in m.f2 && k !in n.f2 ==> lo < k)
  }

  ghost predicate Pre(n: NetState, env: Env, lo: Path, e: Ast) {
    && Inv(n) && EnvOk(n, env) && PathsFree(n, lo)
    && Frag(e) && UniqueBinders(e) && Binders(e) !! env.Keys && Frees(e) !! Binders(e)
  }

  /** An unwired port that delivers no variable in scope is left alone. */
  ghost predicate Untouched(n: NetState, env: Env, m: NetState) {
    forall q :: IsPort(n, q) && Peer(n, q).Null? && !InEnv(env, q) ==> Peer(m, q).Null?
  }

  /** Consumption: exactly the names used by `e` leave the scope, and the rest is unchanged. */
  ghost predicate EnvFrame(e: Ast, env: Env, env': Env) {
    && Frees(e) <= env.Keys
    && (forall m :: m !in Binders(e) ==>
        (m in env' <==> m in env && m !in Frees(e)) && (m in env' ==> env'[m] == env[m]))
  }

  /** The only unwired ports of the agents added since `n` are the pending ones and those of variables in scope. */
  ghost predicate NewWired(n: NetState, m: NetState, env': Env, pending: set<Port>) {
    forall q :: IsPort(m, q) && q.slot >= |n.arena.slots| && Peer(m, q).Null? ==> q in pending || InEnv(env', q)
  }

  /** The port of a variable that `e` uses is wired, unless it is pending. */
  ghost predicate Settled(e: Ast, env: Env, m: NetState, pending: set<Port>) {
    forall x :: x in Frees(e) && x in env ==> env[x].port in pending || !Peer(m, env[x].port).Null?
  }

  /** Every binder is used by its scope. */
  predicate AllUsed(e: Ast) {
    match e
    case Name(_) => true
    case Abs(x, b) => x in Frees(b) && AllUsed(b)
    case App(f, x) => AllUsed(f) && AllUsed(x)
    case Rep(s, a, b, body) => a in Frees(body) && b in Frees(body) && AllUsed(s) && AllUsed(body)
    case Era(s, body) => AllUsed(s) && AllUsed(body)
    case Fix(i) => AllUsed(i)
    case Val(_) => true
    case Fun(_) => true
  }

  /** Every variable left in scope was in scope before or is delivered by a new agent. */
  ghost predicate EnvFrom(env: Env, env': Env, base: nat) {
    forall m :: m in env' ==> env'[m].port.At? && (env'[m].port.slot >= base || InEnv(env, env'[m].port))
  }

  /** One stretch of elaboration, from net `n` and scope `env` to net `m` and scope `env'`. */
  ghost predicate Stretch(n: NetState, env: Env, m: NetState, env': Env) {
    && Inv(m) && Ext(n, m) && EnvOk(m, env')
    && Untouched(n, env, m)
    && EnvFrom(env, env', |n.arena.slots|)
  }

  /** An unwired port that no variable in scope owns, new or taken from the scope since `n`. */
  ghost predicate Avail(n: NetState, env: Env, m: NetState, env': Env, p: Port) {
    && IsPort(m, p) && Peer(m, p).Null? && !InEnv(env', p)
    && (p.slot >= |n.arena.slots| || InEnv(env, p))
  }

  ghost predicate Post(n: NetState, level: nat, env: Env, lo: Path, e: Ast, ul: map<string, nat>, o: Out)
    requires Frag(e)
  {
    && Stretch(n, env, o.net, o.env)
    && Avail(n, env, o.net, o.env, o.port)
    && |o.net.arena.slots| == |n.arena.slots| + Count(e)
    && o.port == ResultPort(e, |n.arena.slots|, env, level, ul)
    && EnvFrame(e, env, o.env)
    && Settled(e, env, o.net, {o.port})
    && Wired(o.net, e, |n.arena.slots|, env, level, ul)
    && (AllUsed(e) ==> NewWired(n, o.net, o.env, {o.port}) && o.env.Keys !! Binders(e))
    && NewPathsBelow(n, o.net, lo)
  }

  // ---------------------------------------------------------------------------------------------
  // Structural lemmas

  lemma LinkedExt(n: NetState, m: NetState, a: Port, b: Port)
    requires Ext(n, m) && Linked(n, a, b)
    ensures Linked(m, a, b)
  {
    assert SameLabel(n.arena.slots[a.slot], m.arena.slots[a.slot]);
    assert SameLabel(n.arena.slots[b.slot], m.arena.slots[b.slot]);
  }

  lemma AgentExt(n: NetState, m: NetState, i: nat)
    requires Ext(n, m) && i < |n.arena.slots|
    ensures AgentOf(m, i) == AgentOf(n, i)
    ensures forall l, la, lb :: RepLabel(n, i, l, la, lb) ==> RepLabel(m, i, l, la, lb)
  {
    assert SameLabel(n.arena.slots[i], m.arena.slots[i]);
  }

  /** Wiring, once laid, survives everything the rest of the elaboration does. */
  lemma {:induction false} WiredExt(n: NetState, m: NetState, e: Ast, base: nat, env: Env, level: nat,
      ul: map<string, nat>)
    requires Frag(e) && Ext(n, m) && Wired(n, e, base, env, level, ul)
    ensures Wired(m, e, base, env, level, ul)
    decreases e, 1
  {
    match e
    case Name(_) =>
    case Abs(x, b) => WiredExtAbs(n, m, x, b, base, env, level, ul);
    case App(f, x) => WiredExtApp(n, m, f, x, base, env, level, ul);
    case Rep(s, a, b, body) => WiredExtRep(n, m, s, a, b, body, base, env, level, ul);
    case Era(s, body) =>
      WiredExt(n, m, body, base, env, level, ul);
      AgentExt(n, m, env[s.n].port.slot);
    case Fix(i) => WiredExtFix(n, m, i, base, env, level, ul);
    case Val(_) => AgentExt(n, m, base);
    case Fun(_) => AgentExt(n, m, base);
  }

  lemma {:induction false} WiredExtAbs(n: NetState, m: NetState, x: string, b: Ast, base: nat, env: Env, level: nat,
      ul: map<string, nat>)
    requires Frag(Abs(x, b)) && Ext(n, m) && Wired(n, Abs(x, b), base, env, level, ul)
    ensures Wired(m, Abs(x, b), base, env, level, ul)
    decreases Abs(x, b), 0
  {
    hide Ext, Linked, RepLabel;
    var inner := AbsEnv(env, x, base, level);
    WiredExt(n, m, b, base + 1, inner, level, ul);
    LinkedExt(n, m, Addr(base, Aux0), ResultPort(b, base + 1, inner, level, ul));
    AgentExt(n, m, base);
  }

  lemma {:induction false} WiredExtApp(n: NetState, m: NetState, f: Ast, x: Ast, base: nat, env: Env, level: nat,
      ul: map<string, nat>)
    requires Frag(App(f, x)) && Ext(n, m) && Wired(n, App(f, x), base, env, level, ul)
    ensures Wired(m, App(f, x), base, env, level, ul)
    decreases App(f, x), 0
  {
    hide Ext, Linked, RepLabel;
    WiredExt(n, m, f, base + 1, env, level, ul);
    WiredExt(n, m, x, base + 1 + Count(f), env, level + 1, ul);
    LinkedExt(n, m, Addr(base, Principal), ResultPort(f, base + 1, env, level, ul));
    LinkedExt(n, m, Addr(base, Aux1), ResultPort(x, base + 1 + Count(f), env, level + 1, ul));
    AgentExt(n, m, base);
  }

  lemma {:induction false} WiredExtRep(n: NetState, m: NetState, s: Ast, a: string, b: string, body: Ast, base: nat,
      env: Env, level: nat, ul: map<string, nat>)
    requires Frag(Rep(s, a, b, body)) && Ext(n, m) && Wired(n, Rep(s, a, b, body), base, env, level, ul)
    ensures Wired(m, Rep(s, a, b, body), base, env, level, ul)
    decreases Rep(s, a, b, body), 0
  {
    hide Ext, Linked;
    WiredExt(n, m, body, base + 1, RepEnv(env, a, b, base, LevelOf(ul, a, level), LevelOf(ul, b, level)), level, ul);
    LinkedExt(n, m, Addr(base, Principal), env[s.n].port);
    AgentExt(n, m, base);
  }

  lemma {:induction false} WiredExtFix(n: NetState, m: NetState, i: Ast, base: nat, env: Env, level: nat,
      ul: map<string, nat>)
    requires Frag(Fix(i)) && Ext(n, m) && Wired(n, Fix(i), base, env, level, ul)
    ensures Wired(m, Fix(i), base, env, level, ul)
    decreases Fix(i), 0
  {
    hide Ext, Linked;
    var app, rep := base + Count(i), base + Count(i) + 1;
    WiredExt(n, m, i, base, env, level, ul);
    LinkedExt(n, m, Addr(app, Principal), ResultPort(i, base, env, level, ul));
    LinkedExt(n, m, Addr(rep, Principal), Addr(app, Aux0));
    LinkedExt(n, m, Addr(app, Aux1), Addr(rep, Aux0));
    AgentExt(n, m, app);
    AgentExt(n, m, rep);
  }

  ghost predicate Agree(e: Ast, env: Env, env': Env) {
    forall m :: m in Frees(e) ==> m in env && m in env' && env[m] == env'[m]
  }

  lemma {:induction false} ResultEnv(e: Ast, base: nat, env: Env, env': Env, level: nat, ul: map<string, nat>)
    requires Frag(e) && Agree(e, env, env')
    ensures ResultPort(e, base, env, level, ul) == ResultPort(e, base, env', level, ul)
    decreases e
  {
    match e
    case Name(m) => assert m in Frees(e);
    case Rep(s, a, b, body) =>
      ResultEnv(body, base + 1, RepEnv(env, a, b, base, LevelOf(ul, a, level), LevelOf(ul, b, level)),
          RepEnv(env', a, b, base, LevelOf(ul, a, level), LevelOf(ul, b, level)), level, ul);
    case Era(s, body) => ResultEnv(body, base, env, env', level, ul);
    case _ =>
  }

  lemma {:induction false} WiredEnv(n: NetState, e: Ast, base: nat, env: Env, env': Env, level: nat, ul: map<string,
      nat>)
    requires Frag(e) && Agree(e, env, env') && Wired(n, e, base, env, level, ul)
    ensures Wired(n, e, base, env', level, ul)
    decreases e, 1
  {
    hide Linked;
    match e
    case Name(m) => assert m in Frees(e);
    case Abs(x, b) =>
      var i, i' := AbsEnv(env, x, base, level), AbsEnv(env', x, base, level);
      ResultEnv(b, base + 1, i, i', level, ul);
      WiredEnv(n, b, base + 1, i, i', level, ul);
    case App(f, x) => WiredEnvApp(n, f, x, base, env, env', level, ul);
    case Rep(s, a, b, body) => WiredEnvRep(n, s, a, b, body, base, env, env', level, ul);
    case Era(s, body) =>
      assert s.n in Frees(e);
      WiredEnv(n, body, base, env, env', level, ul);
    case Fix(i) =>
      ResultEnv(i, base, env, env', level, ul);
      WiredEnv(n, i, base, env, env', level, ul);
    case Val(_) =>
    case Fun(_) =>
  }

  lemma {:induction false} WiredEnvRep(n: NetState, s: Ast, a: string, b: string, body: Ast, base: nat, env: Env,
      env': Env, level: nat, ul: map<string, nat>)
    requires var e := Rep(s, a, b, body); Frag(e) && Agree(e, env, env') && Wired(n, e, base, env, level, ul)
    ensures Wired(n, Rep(s, a, b, body), base, env', level, ul)
    decreases Rep(s, a, b, body), 0
  {
    hide Linked;
    assert s.n in Frees(Rep(s, a, b, body));
    var la, lb := LevelOf(ul, a, level), LevelOf(ul, b, level);
    WiredEnv(n, body, base + 1, RepEnv(env, a, b, base, la, lb), RepEnv(env', a, b, base, la, lb), level, ul);
  }

  lemma {:induction false} WiredEnvApp(n: NetState, f: Ast, x: Ast, base: nat, env: Env, env': Env, level: nat,
      ul: map<string, nat>)
    requires Frag(App(f, x)) && Agree(App(f, x), env, env') && Wired(n, App(f, x), base, env, level, ul)
    ensures Wired(n, App(f, x), base, env', level, ul)
    decreases App(f, x), 0
  {
    hide Linked;
    ResultEnv(f, base + 1, env, env', level, ul);
    ResultEnv(x, base + 1 + Count(f), env, env', level + 1, ul);
    WiredEnv(n, f, base + 1, env, env', level, ul);
    WiredEnv(n, x, base + 1 + Count(f), env, env', level + 1, ul);
  }

  lemma PathStep(lo: Path, bit: bool, k: Path)
    ensures lo < lo + [bit]
    ensures lo + [bit] < k ==> lo < k
    ensures lo + [bit] < k ==> !(lo + [!bit] < k) && k != lo + [bit] && k != lo + [!bit]
  {
    if lo + [bit] < k {
      assert k[..|lo|] == (lo + [bit])[..|lo|] == lo;
      assert k[|lo|] == (lo + [bit])[|lo|];
      assert (lo + [!bit])[|lo|] == !bit;
    }
  }

  /** Nothing below `lo` means nothing below its children, and the children themselves are unused. */
  lemma PathsFreeChild(n: NetState, lo: Path, bit: bool)
    requires PathsFree(n, lo)
    ensures PathsFree(n, lo + [bit])
    ensures lo + [bit] !in n.f1 && lo + [bit] !in n.f2
  {
    PathStep(lo, bit, lo);
    forall k | k in n.f1 || k in n.f2
      ensures lo + [bit] < k ==> lo < k
    {
      PathStep(lo, bit, k);
    }
  }

  lemma NewBelowChild(n: NetState, m: NetState, lo: Path, bit: bool)
    requires NewPathsBelow(n, m, lo + [bit])
    ensures NewPathsBelow(n, m, lo)
    ensures PathsFree(n, lo) ==>
      PathsFree(m, lo + [!bit]) && lo + [bit] !in m.f1 && lo + [!bit] !in m.f1 && lo + [bit] !in m.f2 &&
      lo + [!bit] !in m.f2
  {
    forall k | k in m.f1 || k in m.f2
      ensures lo + [bit] < k ==> lo < k && !(lo + [!bit] < k) && k != lo + [bit] && k != lo + [!bit]
    {
      PathStep(lo, bit, k);
    }
    if PathsFree(n, lo) {
      PathsFreeChild(n, lo, bit);
      PathsFreeChild(n, lo, !bit);
    }
  }

  lemma NewBelowTrans(n: NetState, m: NetState, k: NetState, lo: Path)
    requires NewPathsBelow(n, m, lo) && NewPathsBelow(m, k, lo)
    ensures NewPathsBelow(n, k, lo)
  {
  }

  // ---------------------------------------------------------------------------------------------
  // Stretches compose

  lemma StretchRefl(n: NetState, env: Env)
    requires Inv(n) && EnvOk(n, env)
    ensures Stretch(n, env, n, env)
  {
  }

  lemma StretchTrans(n: NetState, env: Env, m: NetState, env1: Env, env2: Env, k: NetState, env3: Env)
    requires Stretch(n, env, m, env1) && Stretch(m, env2, k, env3)
    requires EnvFrom(env, env2, |n.arena.slots|)
    ensures Stretch(n, env, k, env3)
  {
    hide Inv, EnvOk;
    ExtTrans(n, m, k);
    forall q | IsPort(n, q) && Peer(n, q).Null? && !InEnv(env, q)
      ensures Peer(k, q).Null?
    {
      AgentExt(n, m, q.slot);
      assert IsPort(m, q) && Peer(m, q).Null?;
      assert !InEnv(env2, q);
    }
    forall x | x in env3
      ensures env3[x].port.At? && (env3[x].port.slot >= |n.arena.slots| || InEnv(env, env3[x].port))
    {
      if env3[x].port.slot < |m.arena.slots| {
        assert InEnv(env2, env3[x].port);
      }
    }
  }

  /** A pending port stays available while other parts are elaborated. */
  lemma AvailKeep(n: NetState, env: Env, m: NetState, env1: Env, env2: Env, k: NetState, env3: Env, p: Port)
    requires Avail(n, env, m, env1, p)
    requires Stretch(m, env2, k, env3) && !InEnv(env2, p)
    ensures Avail(n, env, k, env3, p)
  {
    hide Inv, EnvOk;
    AgentExt(m, k, p.slot);
  }

  lemma NonEmpty(n: NetState)
    requires Inv(n)
    ensures |n.arena.slots| > 0
  {
  }

  lemma StretchAlloc(n: NetState, env: Env, agent: Agent, data: nat, d0: int, d1: int)
    requires Inv(n) && EnvOk(n, env)
    requires AllocAgent(n, agent, data, d0, d1).Ok?
    ensures
      var m := AllocAgent(n, agent, data, d0, d1).value.0;
      && Stretch(n, env, m, env)
      && |m.arena.slots| == |n.arena.slots| + 1
      && m.arena.slots[|n.arena.slots|] == EMPTY.(agent := agent, data := data, delta0 := d0, delta1 := d1)
      && m.f1 == n.f1 && m.f2 == n.f2
      && AllocAgent(n, agent, data, d0, d1).value.1 == Addr(|n.arena.slots|, Principal)
      && forall k: Kind :: (agent.FreeAgent? ==> k.Principal?) ==> Avail(n, env, m, env, Addr(|n.arena.slots|, k))
  {
    hide AllocAgent, Inv;
    NonEmpty(n);
    AllocFacts(n, agent, data, d0, d1);
    var m := AllocAgent(n, agent, data, d0, d1).value.0;
    forall x | x in env
      ensures VarPort(m, env[x].port) && Peer(m, env[x].port).Null?
    {
      AgentExt(n, m, env[x].port.slot);
      assert InRange(n, env[x].port);
    }
    forall q | IsPort(n, q) && Peer(n, q).Null?
      ensures Peer(m, q).Null?
    {
      assert InRange(n, q);
    }
    forall k: Kind | agent.FreeAgent? ==> k.Principal?
      ensures Avail(n, env, m, env, Addr(|n.arena.slots|, k))
    {
      assert SlotPort(m.arena.slots[|n.arena.slots|], k).Null?;
      assert !InEnv(env, Addr(|n.arena.slots|, k));
    }
  }

  lemma StretchWire(n: NetState, env: Env, m: NetState, env1: Env, a: Port, b: Port, lo: Path)
    requires Stretch(n, env, m, env1)
    requires Avail(n, env, m, env1, a) && Avail(n, env, m, env1, b) && a != b
    requires KeyFree(m, a, b, lo)
    ensures
      var k := Connect(m, a, b, lo);
      && Stretch(n, env, k, env1) && Ext(m, k) && Linked(k, a, b)
      && WireKeys(m, k, a, b, lo)
      && |k.arena.slots| == |m.arena.slots|
      && (forall q {:trigger Peer(k, q)} :: IsPort(m, q) ==>
            Peer(k, q) == if q == a then b else if q == b then a else Peer(m, q))
  {
    hide Connect, Inv, KeyFree, EnvFrom, WireKeys;
    ConnectFacts(m, a, b, lo);
    var k := Connect(m, a, b, lo);
    ExtTrans(n, m, k);
    forall x | x in env1
      ensures VarPort(k, env1[x].port) && Peer(k, env1[x].port).Null?
    {
      AgentExt(m, k, env1[x].port.slot);
      assert InEnv(env1, env1[x].port);
    }
    forall q | IsPort(n, q) && Peer(n, q).Null? && !InEnv(env, q)
      ensures Peer(k, q).Null?
    {
      AgentExt(n, m, q.slot);
      assert IsPort(m, q) && Peer(m, q).Null?;
    }
  }

  lemma AvailPort(n: NetState, env: Env, m: NetState, env1: Env, p: Port)
    requires Avail(n, env, m, env1, p)
    ensures IsPort(m, p)
  {
  }

  lemma AvailWire(n: NetState, env: Env, m: NetState, env1: Env, a: Port, b: Port, lo: Path, p: Port)
    requires Avail(n, env, m, env1, p) && p != a && p != b
    requires IsPort(m, a) && IsPort(m, b) && a != b
    ensures Avail(n, env, Connect(m, a, b, lo), env1, p)
  {
    hide Connect;
    ConnectPeers(m, a, b, lo);
    var k := Connect(m, a, b, lo);
    assert SameLabel(m.arena.slots[p.slot], k.arena.slots[p.slot]);
  }

  /** Laying a wire settles its two ends. */
  lemma NewWiredWire(n: NetState, m: NetState, env1: Env, pending: set<Port>, a: Port, b: Port, lo: Path)
    requires NewWired(n, m, env1, pending + {a, b})
    requires IsPort(m, a) && IsPort(m, b) && a != b
    ensures NewWired(n, Connect(m, a, b, lo), env1, pending)
  {
    hide Connect;
    ConnectPeers(m, a, b, lo);
    var k := Connect(m, a, b, lo);
    forall q | IsPort(k, q) && q.slot >= |n.arena.slots| && Peer(k, q).Null?
      ensures q in pending || InEnv(env1, q)
    {
      assert SameLabel(m.arena.slots[q.slot], k.arena.slots[q.slot]);
      assert IsPort(m, q);
    }
  }

  lemma SettledWire(e: Ast, env: Env, m: NetState, pending: set<Port>, a: Port, b: Port, lo: Path)
    requires Settled(e, env, m, pending + {b})
    requires IsPort(m, a) && IsPort(m, b) && a != b
    requires forall x :: x in env ==> IsPort(m, env[x].port)
    ensures Settled(e, env, Connect(m, a, b, lo), pending)
  {
    hide Connect;
    ConnectPeers(m, a, b, lo);
  }

  /** Elaborating a part settles everything but its result. */
  lemma NewWiredTrans(n: NetState, m: NetState, env1: Env, env2: Env, pending: set<Port>, k: NetState, env3: Env,
      p: Port)
    requires Ext(m, k) && |n.arena.slots| <= |m.arena.slots|
    requires NewWired(n, m, env1, pending)
    requires NewWired(m, k, env3, {p})
    requires forall q: Port :: q.At? && q.slot < |m.arena.slots| && InEnv(env1, q) && Peer(k, q).Null? ==>
      q == p || q in pending || InEnv(env3, q)
    ensures NewWired(n, k, env3, pending + {p})
  {
    forall q | IsPort(k, q) && q.slot >= |n.arena.slots| && Peer(k, q).Null?
      ensures q in pending + {p} || InEnv(env3, q)
    {
      if q.slot < |m.arena.slots| {
        AgentExt(m, k, q.slot);
        assert IsPort(m, q);
        assert Peer(m, q).Null?;
      }
    }
  }

  /** Dropping a name from the scope. */
  lemma StretchShrink(n: NetState, env: Env, m: NetState, env1: Env, xs: set<string>)
    requires Stretch(n, env, m, env1)
    ensures Stretch(n, env, m, env1 - xs)
    ensures forall p :: Avail(n, env, m, env1, p) ==> Avail(n, env, m, env1 - xs, p)
  {
    hide Inv, Ext;
    forall p | InEnv(env1 - xs, p)
      ensures InEnv(env1, p)
    {
    }
  }

  /** Nothing in scope is delivered at a port that delivers no variable. */
  lemma NotVar(n: NetState, env: Env, p: Port)
    requires EnvOk(n, env) && !VarPort(n, p)
    ensures !InEnv(env, p)
  {
  }

  // ---------------------------------------------------------------------------------------------
  // One lemma per constructor: the invariant is kept when the children keep it

  lemma NameCase(n: NetState, level: nat, env: Env, lo: Path, x: string, ul: map<string, nat>)
    requires Pre(n, env, lo, Name(x)) && x in env
    ensures Post(n, level, env, lo, Name(x), ul, Out(n, env - {x}, env[x].port, env[x].level))
  {
    hide Inv;
    StretchRefl(n, env);
    StretchShrink(n, env, n, env, {x});
    assert InEnv(env, env[x].port);
  }

  lemma AbsPre(n: NetState, level: nat, env: Env, lo: Path, x: string, b: Ast)
    requires Pre(n, env, lo, Abs(x, b))
    requires AllocAgent(n, FanAbs, 0, 0, 0).Ok?
    ensures
      var n1 := AllocAgent(n, FanAbs, 0, 0, 0).value.0;
      Pre(n1, AbsEnv(env, x, |n.arena.slots|, level), lo + [false], b)
  {
    hide AllocAgent, Inv, Ext, Untouched, EnvOk, EnvFrom;
    StretchAlloc(n, env, FanAbs, 0, 0, 0);
    var n1 := AllocAgent(n, FanAbs, 0, 0, 0).value.0;
    PathsFreeChild(n, lo, false);
    assert Avail(n, env, n1, env, Addr(|n.arena.slots|, Aux1));
    EnvAdd(n1, env, x, Addr(|n.arena.slots|, Aux1), level + 1);
  }

  ghost predicate AbsReady(n: NetState, level: nat, env: Env, lo: Path, x: string, b: Ast, ul: map<string, nat>,
      n1: NetState, o: Out) {
    && Pre(n, env, lo, Abs(x, b))
    && AllocAgent(n, FanAbs, 0, 0, 0).Ok?
    && n1 == AllocAgent(n, FanAbs, 0, 0, 0).value.0
    && Post(n1, level, AbsEnv(env, x, |n.arena.slots|, level), lo + [false], b, ul, o)
  }

  /** Before the body is wired to its abstraction: both ends are available. */
  lemma AbsOpen(n: NetState, level: nat, env: Env, lo: Path, x: string, b: Ast, ul: map<string, nat>, n1: NetState,
      o: Out)
    requires AbsReady(n, level, env, lo, x, b, ul, n1, o)
    ensures
      var base := |n.arena.slots|;
      var abs, aux0 := Addr(base, Principal), Addr(base, Aux0);
      && Stretch(n, env, o.net, o.env)
      && Avail(n, env, o.net, o.env, abs) && Avail(n, env, o.net, o.env, aux0) && Avail(n, env, o.net, o.env, o.port)
      && o.port != abs && o.port != aux0
      && AgentOf(o.net, base).FanAbs?
      && KeyFree(o.net, aux0, o.port, lo + [false])
  {
    hide AllocAgent, Inv, Wired, Untouched, NewWired, NewPathsBelow, EnvFrame;
    var base := |n.arena.slots|;
    var abs, aux0 := Addr(base, Principal), Addr(base, Aux0);
    var env1 := AbsEnv(env, x, base, level);
    StretchAlloc(n, env, FanAbs, 0, 0, 0);
    AbsPre(n, level, env, lo, x, b);
    StretchTrans(n, env, n1, env, env1, o.net, o.env);
    assert AgentOf(n1, base).FanAbs?;
    AgentExt(n1, o.net, base);
    NotVar(n1, env1, abs);
    NotVar(n1, env1, aux0);
    AvailKeep(n, env, n1, env, env1, o.net, o.env, abs);
    AvailKeep(n, env, n1, env, env1, o.net, o.env, aux0);
    AbsResult(n, level, env, lo, x, b, ul, n1, o);
  }

  /** The body's port is new or one the caller had. */
  lemma AbsResult(n: NetState, level: nat, env: Env, lo: Path, x: string, b: Ast, ul: map<string, nat>,
      n1: NetState, o: Out)
    requires AbsReady(n, level, env, lo, x, b, ul, n1, o)
    ensures
      var base := |n.arena.slots|;
      o.port.slot <= base ==> InEnv(env, o.port) || o.port == AbsEnv(env, x, base, level)[x].port
  {
    hide AllocAgent, Inv, Wired, Untouched, NewWired, NewPathsBelow, EnvFrame;
    var base := |n.arena.slots|;
    var env1 := AbsEnv(env, x, base, level);
    StretchAlloc(n, env, FanAbs, 0, 0, 0);
    if o.port.slot <= base {
      assert InEnv(env1, o.port);
      var m :| m in env1 && env1[m].port == o.port;
      if m != x { assert InEnv(env, o.port); }
    }
  }

  lemma AbsCase(n: NetState, level: nat, env: Env, lo: Path, x: string, b: Ast, ul: map<string, nat>, n1: NetState,
      o: Out)
    requires AbsReady(n, level, env, lo, x, b, ul, n1, o)
    ensures
      var abs, aux0 := Addr(|n.arena.slots|, Principal), Addr(|n.arena.slots|, Aux0);
      var m := Connect(o.net, aux0, o.port, lo + [false]);
      Post(n, level, env, lo, Abs(x, b), ul, Out(m, o.env - {x}, abs, level))
  {
    hide AllocAgent, Connect, Inv, Ext, Avail, Linked, Untouched, EnvFrom, EnvOk, KeyFree, NewWired, Settled, Wired;
    var base := |n.arena.slots|;
    var abs, aux0 := Addr(base, Principal), Addr(base, Aux0);
    var m := Connect(o.net, aux0, o.port, lo + [false]);
    AbsOpen(n, level, env, lo, x, b, ul, n1, o);
    assert Avail(n, env, o.net, o.env, aux0);
    StretchWire(n, env, o.net, o.env, aux0, o.port, lo + [false]);
    AvailPort(n, env, o.net, o.env, aux0);
    AvailPort(n, env, o.net, o.env, o.port);
    AvailWire(n, env, o.net, o.env, aux0, o.port, lo + [false], abs);
    StretchShrink(n, env, m, o.env, {x});
    StretchAlloc(n, env, FanAbs, 0, 0, 0);
    AbsWired(n, level, env, lo, x, b, ul, n1, o);
    NewBelowChild(n1, o.net, lo, false);
    AbsSettled(n, level, env, lo, x, b, ul, n1, o);
    if AllUsed(Abs(x, b)) {
      AbsUsed(n, level, env, lo, x, b, ul, n1, o);
    }
  }

  lemma AbsWired(n: NetState, level: nat, env: Env, lo: Path, x: string, b: Ast, ul: map<string, nat>, n1: NetState,
      o: Out)
    requires AbsReady(n, level, env, lo, x, b, ul, n1, o)
    ensures Wired(Connect(o.net, Addr(|n.arena.slots|, Aux0), o.port, lo + [false]), Abs(x, b), |n.arena.slots|, env,
      level, ul)
  {
    hide AllocAgent, Connect, Inv, Ext, Avail, Linked, Untouched, EnvFrom, EnvOk, KeyFree, NewWired, Settled;
    var base := |n.arena.slots|;
    var aux0 := Addr(base, Aux0);
    var m := Connect(o.net, aux0, o.port, lo + [false]);
    AbsOpen(n, level, env, lo, x, b, ul, n1, o);
    StretchAlloc(n, env, FanAbs, 0, 0, 0);
    StretchWire(n, env, o.net, o.env, aux0, o.port, lo + [false]);
    WiredExt(o.net, m, b, base + 1, AbsEnv(env, x, base, level), level, ul);
    AgentExt(o.net, m, base);
  }

  lemma AbsSettled(n: NetState, level: nat, env: Env, lo: Path, x: string, b: Ast, ul: map<string, nat>,
      n1: NetState, o: Out)
    requires AbsReady(n, level, env, lo, x, b, ul, n1, o)
    ensures
      var abs, aux0 := Addr(|n.arena.slots|, Principal), Addr(|n.arena.slots|, Aux0);
      Settled(Abs(x, b), env, Connect(o.net, aux0, o.port, lo + [false]), {abs})
  {
    hide AllocAgent, Connect, Inv, Untouched, EnvFrom, KeyFree, Wired, NewWired;
    var base := |n.arena.slots|;
    var aux0 := Addr(base, Aux0);
    AbsOpen(n, level, env, lo, x, b, ul, n1, o);
    SettledWire(b, AbsEnv(env, x, base, level), o.net, {}, aux0, o.port, lo + [false]);
    forall y | y in Frees(Abs(x, b)) && y in env
      ensures AbsEnv(env, x, base, level)[y] == env[y]
    {
    }
  }

  lemma AbsUsed(n: NetState, level: nat, env: Env, lo: Path, x: string, b: Ast, ul: map<string, nat>, n1: NetState,
      o: Out)
    requires AbsReady(n, level, env, lo, x, b, ul, n1, o)
    requires AllUsed(Abs(x, b))
    ensures
      var abs, aux0 := Addr(|n.arena.slots|, Principal), Addr(|n.arena.slots|, Aux0);
      && NewWired(n, Connect(o.net, aux0, o.port, lo + [false]), o.env - {x}, {abs})
      && (o.env - {x}).Keys !! Binders(Abs(x, b))
  {
    hide AllocAgent, Connect, Inv, Untouched, EnvFrom, KeyFree, Wired, Linked, PathsFree, NewPathsBelow, EnvOk;
    var base := |n.arena.slots|;
    var abs, aux0 := Addr(base, Principal), Addr(base, Aux0);
    AbsOpen(n, level, env, lo, x, b, ul, n1, o);
    StretchAlloc(n, env, FanAbs, 0, 0, 0);
    assert x !in o.env;
    assert o.env - {x} == o.env;
    forall q | IsPort(o.net, q) && q.slot >= base && Peer(o.net, q).Null?
      ensures q in {abs} + {aux0, o.port} || InEnv(o.env, q)
    {
      if q == Addr(base, Aux1) {
        assert AbsEnv(env, x, base, level)[x].port == q;
      }
    }
    NewWiredWire(n, o.net, o.env, {abs}, aux0, o.port, lo + [false]);
  }

  lemma EnvFromSelf(env: Env, n: NetState, base: nat)
    requires EnvOk(n, env)
    ensures EnvFrom(env, env, base)
  {
    forall m | m in env
      ensures env[m].port.At? && InEnv(env, env[m].port)
    {
    }
  }

  lemma AvailWeaken(n: NetState, env: Env, m: NetState, env2: Env, k: NetState, env3: Env, p: Port)
    requires Avail(m, env2, k, env3, p)
    requires EnvFrom(env, env2, |n.arena.slots|) && |n.arena.slots| <= |m.arena.slots|
    ensures Avail(n, env, k, env3, p)
  {
  }

  lemma SettledExt(e: Ast, env: Env, m: NetState, k: NetState, pending: set<Port>)
    requires Settled(e, env, m, pending) && Ext(m, k)
    requires forall x :: x in Frees(e) && x in env ==> IsPort(m, env[x].port)
    ensures Settled(e, env, k, pending)
  {
  }

  /** Elaborating a part adds only its result to what is pending. */
  lemma NewWiredPart(n: NetState, m: NetState, env: Env, pending: set<Port>, level: nat, lo: Path, e: Ast,
      ul: map<string, nat>, o: Out)
    requires |n.arena.slots| <= |m.arena.slots|
    requires Pre(m, env, lo, e) && Post(m, level, env, lo, e, ul, o) && AllUsed(e)
    requires NewWired(n, m, env, pending)
    ensures NewWired(n, o.net, o.env, pending + {o.port})
  {
    hide Inv, Wired, Untouched, EnvFrom;
    forall q: Port | q.At? && InEnv(env, q) && Peer(o.net, q).Null?
      ensures q == o.port || InEnv(o.env, q)
    {
      var x :| x in env && env[x].port == q;
      if x !in Frees(e) {
        assert x in o.env && o.env[x] == env[x];
      }
    }
    NewWiredTrans(n, m, env, env, pending, o.net, o.env, o.port);
  }

  // Application

  ghost predicate AppReady(n: NetState, level: nat, env: Env, lo: Path, f: Ast, x: Ast, ul: map<string, nat>,
      n1: NetState, of: Out, ox: Out) {
    && Pre(n, env, lo, App(f, x))
    && AllocAgent(n, FanApp, 0, 0, 0).Ok?
    && n1 == AllocAgent(n, FanApp, 0, 0, 0).value.0
    && Post(n1, level, env, lo + [false], f, ul, of)
    && Post(of.net, level + 1, of.env, lo + [true], x, ul, ox)
  }

  lemma AppPreFn(n: NetState, env: Env, lo: Path, f: Ast, x: Ast)
    requires Pre(n, env, lo, App(f, x))
    requires AllocAgent(n, FanApp, 0, 0, 0).Ok?
    ensures Pre(AllocAgent(n, FanApp, 0, 0, 0).value.0, env, lo + [false], f)
  {
    hide AllocAgent, Inv;
    StretchAlloc(n, env, FanApp, 0, 0, 0);
    PathsFreeChild(n, lo, false);
  }

  lemma AppPreArg(n: NetState, level: nat, env: Env, lo: Path, f: Ast, x: Ast, ul: map<string, nat>, n1: NetState,
      of: Out)
    requires Pre(n, env, lo, App(f, x))
    requires AllocAgent(n, FanApp, 0, 0, 0).Ok?
    requires n1 == AllocAgent(n, FanApp, 0, 0, 0).value.0
    requires Post(n1, level, env, lo + [false], f, ul, of)
    ensures Pre(of.net, of.env, lo + [true], x)
    ensures lo + [false] !in of.net.f1
  {
    hide AllocAgent, Inv, Wired;
    StretchAlloc(n, env, FanApp, 0, 0, 0);
    NewBelowChild(n1, of.net, lo, false);
    assert PathsFree(n1, lo);
  }

  lemma AppOpen(n: NetState, level: nat, env: Env, lo: Path, f: Ast, x: Ast, ul: map<string, nat>, n1: NetState,
      of: Out, ox: Out)
    requires AppReady(n, level, env, lo, f, x, ul, n1, of, ox)
    ensures Stretch(n, env, ox.net, ox.env)
    ensures EnvFrom(env, of.env, |n.arena.slots|)
    ensures Ext(n1, of.net) && Ext(of.net, ox.net)
    ensures AgentOf(ox.net, |n.arena.slots|).FanApp?
    ensures forall k ::
      Avail(n, env, ox.net, ox.env, Addr(|n.arena.slots|, k)) &&
      of.port != Addr(|n.arena.slots|, k) && ox.port != Addr(|n.arena.slots|, k)
    ensures Avail(n, env, ox.net, ox.env, of.port) && Avail(n, env, ox.net, ox.env, ox.port)
    ensures of.port != ox.port
  {
    hide AllocAgent, Inv, Wired, Untouched, NewWired, NewPathsBelow, EnvFrame, Settled;
    var base := |n.arena.slots|;
    StretchAlloc(n, env, FanApp, 0, 0, 0);
    EnvFromSelf(env, n, base);
    StretchTrans(n, env, n1, env, env, of.net, of.env);
    StretchTrans(n, env, of.net, of.env, of.env, ox.net, ox.env);
    AgentExt(n1, of.net, base);
    AgentExt(of.net, ox.net, base);
    AvailWeaken(n, env, n1, env, of.net, of.env, of.port);
    AvailKeep(n, env, of.net, of.env, of.env, ox.net, ox.env, of.port);
    AvailWeaken(n, env, of.net, of.env, ox.net, ox.env, ox.port);
    forall k: Kind
      ensures Avail(n, env, ox.net, ox.env, Addr(base, k)) && of.port != Addr(base, k) && ox.port != Addr(base, k)
    {
      AvailKeep(n, env, n1, env, env, of.net, of.env, Addr(base, k));
      AvailKeep(n, env, of.net, of.env, of.env, ox.net, ox.env, Addr(base, k));
    }
  }

  function AppNet(base: nat, of: Out, ox: Out, lo: Path): NetState {
    var n2 := Connect(ox.net, Addr(base, Principal), of.port, lo + [false]);
    Connect(n2, Addr(base, Aux1), ox.port, lo + [true])
  }

  lemma AppPaths(n: NetState, level: nat, env: Env, lo: Path, f: Ast, x: Ast, ul: map<string, nat>, n1: NetState,
      of: Out, ox: Out)
    requires AppReady(n, level, env, lo, f, x, ul, n1, of, ox)
    ensures KeyFree(ox.net, Addr(|n.arena.slots|, Principal), of.port, lo + [false])
    ensures NewPathsBelow(n, ox.net, lo)
  {
    hide AllocAgent, Inv, Ext, Wired, Stretch, Avail, NewWired, Settled, EnvFrame;
    AppOpen(n, level, env, lo, f, x, ul, n1, of, ox);
    AppPreArg(n, level, env, lo, f, x, ul, n1, of);
    StretchAlloc(n, env, FanApp, 0, 0, 0);
    NewBelowChild(n1, of.net, lo, false);
    NewBelowChild(of.net, ox.net, lo, true);
    NewBelowTrans(n1, of.net, ox.net, lo);
    forall k | k in ox.net.f1 && k !in of.net.f1
      ensures k != lo + [false]
    {
      PathStep(lo, true, k);
    }
  }

  /** What the two wires of an application do. */
  lemma AppNetFacts(n: NetState, level: nat, env: Env, lo: Path, f: Ast, x: Ast, ul: map<string, nat>, n1: NetState,
      of: Out, ox: Out)
    requires AppReady(n, level, env, lo, f, x, ul, n1, of, ox)
    ensures
      var base := |n.arena.slots|;
      var m := AppNet(base, of, ox, lo);
      && Stretch(n, env, m, ox.env) && Ext(ox.net, m)
      && Avail(n, env, m, ox.env, Addr(base, Aux0))
      && Linked(m, Addr(base, Principal), of.port) && Linked(m, Addr(base, Aux1), ox.port)
      && |m.arena.slots| == |ox.net.arena.slots|
      && NewPathsBelow(n, m, lo)
  {
    hide AllocAgent, Connect, Inv, Ext, Avail, Stretch, Linked, KeyFree, Wired, NewWired, Settled, EnvFrame, Pre, Post;
    var base := |n.arena.slots|;
    var pr, aux0, aux1 := Addr(base, Principal), Addr(base, Aux0), Addr(base, Aux1);
    AppOpen(n, level, env, lo, f, x, ul, n1, of, ox);
    AppPaths(n, level, env, lo, f, x, ul, n1, of, ox);
    assert of.port != pr && ox.port != pr && of.port != aux0 && ox.port != aux0 && of.port != aux1 && ox.port != aux1;
    var n2 := Connect(ox.net, pr, of.port, lo + [false]);
    AvailPort(n, env, ox.net, ox.env, pr);
    AvailPort(n, env, ox.net, ox.env, of.port);
    StretchWire(n, env, ox.net, ox.env, pr, of.port, lo + [false]);
    AvailWire(n, env, ox.net, ox.env, pr, of.port, lo + [false], aux0);
    AvailWire(n, env, ox.net, ox.env, pr, of.port, lo + [false], aux1);
    AvailWire(n, env, ox.net, ox.env, pr, of.port, lo + [false], ox.port);
    AvailPort(n, env, n2, ox.env, aux1);
    AvailPort(n, env, n2, ox.env, ox.port);
    NoKey(n2, aux1, ox.port, lo + [true]);
    StretchWire(n, env, n2, ox.env, aux1, ox.port, lo + [true]);
    AvailWire(n, env, n2, ox.env, aux1, ox.port, lo + [true], aux0);
    var m := AppNet(base, of, ox, lo);
    ExtTrans(ox.net, n2, m);
    LinkedExt(n2, m, pr, of.port);
    PathStep(lo, false, lo);
  }

  /** A wire from a second auxiliary port is never indexed. */
  lemma NoKey(n: NetState, a: Port, b: Port, lo: Path)
    requires a.At? && a.kind.Aux1?
    ensures KeyFree(n, a, b, lo)
  {
  }

  lemma AppAgree(n: NetState, level: nat, env: Env, lo: Path, f: Ast, x: Ast, ul: map<string, nat>, n1: NetState,
      of: Out, ox: Out)
    requires AppReady(n, level, env, lo, f, x, ul, n1, of, ox)
    ensures Agree(x, of.env, env)
    ensures EnvFrame(App(f, x), env, ox.env)
  {
    hide AllocAgent, Inv, Ext, Avail, Stretch, Wired, NewWired, Settled;
  }

  lemma AppWired(n: NetState, level: nat, env: Env, lo: Path, f: Ast, x: Ast, ul: map<string, nat>, n1: NetState,
      of: Out, ox: Out)
    requires AppReady(n, level, env, lo, f, x, ul, n1, of, ox)
    ensures Wired(AppNet(|n.arena.slots|, of, ox, lo), App(f, x), |n.arena.slots|, env, level, ul)
  {
    hide AllocAgent, Inv, Ext, Avail, Stretch, NewWired, Settled, EnvFrame, AppNet, Agree, Linked, EnvOk, PathsFree,
        NewPathsBelow, IsPort;
    var base := |n.arena.slots|;
    var m := AppNet(base, of, ox, lo);
    StretchAlloc(n, env, FanApp, 0, 0, 0);
    AppOpen(n, level, env, lo, f, x, ul, n1, of, ox);
    AppNetFacts(n, level, env, lo, f, x, ul, n1, of, ox);
    AppAgree(n, level, env, lo, f, x, ul, n1, of, ox);
    AgentExt(ox.net, m, base);
    ExtTrans(of.net, ox.net, m);
    WiredExt(of.net, m, f, base + 1, env, level, ul);
    WiredExt(ox.net, m, x, base + 1 + Count(f), of.env, level + 1, ul);
    WiredEnv(m, x, base + 1 + Count(f), of.env, env, level + 1, ul);
    ResultEnv(x, base + 1 + Count(f), of.env, env, level + 1, ul);
  }

  lemma AppSettled(n: NetState, level: nat, env: Env, lo: Path, f: Ast, x: Ast, ul: map<string, nat>, n1: NetState,
      of: Out, ox: Out)
    requires AppReady(n, level, env, lo, f, x, ul, n1, of, ox)
    ensures Settled(App(f, x), env, AppNet(|n.arena.slots|, of, ox, lo), {})
  {
    hide AllocAgent, Inv, Avail, NewWired, Wired, EnvFrame, AppNet, Untouched, EnvFrom;
    var m := AppNet(|n.arena.slots|, of, ox, lo);
    AppOpen(n, level, env, lo, f, x, ul, n1, of, ox);
    AppNetFacts(n, level, env, lo, f, x, ul, n1, of, ox);
    AppAgree(n, level, env, lo, f, x, ul, n1, of, ox);
    ExtTrans(of.net, ox.net, m);
    StretchAlloc(n, env, FanApp, 0, 0, 0);
    forall y | y in env
      ensures IsPort(of.net, env[y].port)
    {
      AgentExt(n1, of.net, env[y].port.slot);
    }
    SettledExt(f, env, of.net, m, {of.port});
    forall y | y in of.env
      ensures IsPort(ox.net, of.env[y].port)
    {
      AgentExt(of.net, ox.net, of.env[y].port.slot);
    }
    SettledExt(x, of.env, ox.net, m, {ox.port});
  }

  lemma AppKeys(n: NetState, level: nat, env: Env, lo: Path, f: Ast, x: Ast, ul: map<string, nat>, n1: NetState,
      of: Out, ox: Out)
    requires AppReady(n, level, env, lo, f, x, ul, n1, of, ox)
    requires AllUsed(App(f, x))
    ensures ox.env.Keys !! Binders(App(f, x))
  {
    hide AllocAgent, Connect, Inv, Ext, Stretch, Avail, Wired, NewWired, Settled;
  }

  lemma AppSizes(n: NetState, level: nat, env: Env, lo: Path, f: Ast, x: Ast, ul: map<string, nat>, n1: NetState,
      of: Out, ox: Out)
    requires AppReady(n, level, env, lo, f, x, ul, n1, of, ox)
    ensures |n.arena.slots| <= |n1.arena.slots| <= |of.net.arena.slots|
    ensures var b := |n.arena.slots|; NewWired(n, n1, env, {Addr(b, Principal), Addr(b, Aux0), Addr(b, Aux1)})
  {
    hide AllocAgent, Connect, Inv, Ext, Stretch, Avail, Wired, Settled;
    StretchAlloc(n, env, FanApp, 0, 0, 0);
    forall q | IsPort(n1, q) && q.slot >= |n.arena.slots|
      ensures var b := |n.arena.slots|; q in {Addr(b, Principal), Addr(b, Aux0), Addr(b, Aux1)}
    {
      match q.kind
      case Principal => case Aux0 => case Aux1 =>
    }
  }

  lemma AppUsed(n: NetState, level: nat, env: Env, lo: Path, f: Ast, x: Ast, ul: map<string, nat>, n1: NetState,
      of: Out, ox: Out)
    requires AppReady(n, level, env, lo, f, x, ul, n1, of, ox)
    requires AllUsed(App(f, x))
    ensures NewWired(n, AppNet(|n.arena.slots|, of, ox, lo), ox.env, {Addr(|n.arena.slots|, Aux0)})
    ensures ox.env.Keys !! Binders(App(f, x))
  {
    hide AllocAgent, Connect, Inv, Ext, Stretch, Avail, Wired, NewWired, Settled, EnvFrame, EnvFrom, EnvOk,
        PathsFree, NewPathsBelow, IsPort, Binders;
    AppKeys(n, level, env, lo, f, x, ul, n1, of, ox);
    var base := |n.arena.slots|;
    var pr, aux0, aux1 := Addr(base, Principal), Addr(base, Aux0), Addr(base, Aux1);
    AppPreFn(n, env, lo, f, x);
    AppPreArg(n, level, env, lo, f, x, ul, n1, of);
    AppSizes(n, level, env, lo, f, x, ul, n1, of, ox);
    NewWiredPart(n, n1, env, {pr, aux0, aux1}, level, lo + [false], f, ul, of);
    NewWiredPart(n, of.net, of.env, {pr, aux0, aux1} + {of.port}, level + 1, lo + [true], x, ul, ox);
    AppOpen(n, level, env, lo, f, x, ul, n1, of, ox);
    AvailPort(n, env, ox.net, ox.env, pr);
    AvailPort(n, env, ox.net, ox.env, of.port);
    assert {pr, aux0, aux1} + {of.port} + {ox.port} == {aux0, aux1, ox.port} + {pr, of.port};
    NewWiredWire(n, ox.net, ox.env, {aux0, aux1, ox.port}, pr, of.port, lo + [false]);
    var n2 := Connect(ox.net, pr, of.port, lo + [false]);
    assert {aux0, aux1, ox.port} == {aux0} + {aux1, ox.port};
    AvailWire(n, env, ox.net, ox.env, pr, of.port, lo + [false], aux1);
    AvailWire(n, env, ox.net, ox.env, pr, of.port, lo + [false], ox.port);
    AvailPort(n, env, n2, ox.env, aux1);
    AvailPort(n, env, n2, ox.env, ox.port);
    NewWiredWire(n, n2, ox.env, {aux0}, aux1, ox.port, lo + [true]);
  }

  lemma AppCase(n: NetState, level: nat, env: Env, lo: Path, f: Ast, x: Ast, ul: map<string, nat>, n1: NetState,
      of: Out, ox: Out)
    requires AppReady(n, level, env, lo, f, x, ul, n1, of, ox)
    ensures Post(n, level, env, lo, App(f, x), ul,
                 Out(AppNet(|n.arena.slots|, of, ox, lo), ox.env, Addr(|n.arena.slots|, Aux0), level))
  {
    hide AllocAgent, Inv, Ext, Avail, Stretch, Wired, NewWired, Settled, EnvFrame, AppNet, NewPathsBelow, Linked;
    StretchAlloc(n, env, FanApp, 0, 0, 0);
    AppNetFacts(n, level, env, lo, f, x, ul, n1, of, ox);
    AppAgree(n, level, env, lo, f, x, ul, n1, of, ox);
    AppWired(n, level, env, lo, f, x, ul, n1, of, ox);
    AppSettled(n, level, env, lo, f, x, ul, n1, of, ox);
    SettledMore(App(f, x), env, AppNet(|n.arena.slots|, of, ox, lo), Addr(|n.arena.slots|, Aux0));
    if AllUsed(App(f, x)) {
      AppUsed(n, level, env, lo, f, x, ul, n1, of, ox);
    }
  }

  lemma SettledMore(e: Ast, env: Env, m: NetState, p: Port)
    requires Settled(e, env, m, {})
    ensures Settled(e, env, m, {p})
  {
  }

  lemma NamedScrutinee(s: string, a: string, b: string, body: Ast)
    ensures Frees(Rep(Name(s), a, b, body)) == {s} + (Frees(body) - {a, b})
    ensures Binders(Rep(Name(s), a, b, body)) == {a, b} + Binders(body)
    ensures Frees(Era(Name(s), body)) == {s} + Frees(body)
    ensures Binders(Era(Name(s), body)) == Binders(body)
    ensures Count(Rep(Name(s), a, b, body)) == 1 + Count(body) && Count(Era(Name(s), body)) == Count(body)
  {
    assert Frees(Name(s)) == {s} && Binders(Name(s)) == {} && Count(Name(s)) == 0;
  }

  // Replication

  /** The net and scope in which the body of a replication is elaborated. */
  ghost predicate RepStart(n: NetState, env: Env, lo: Path, s: string, a: string, b: string, body: Ast, la: nat,
      lb: nat, n2: NetState, env1: Env) {
    && Pre(n, env, lo, Rep(Name(s), a, b, body)) && s in env
    && var r := AllocAgent(n, Replicator, env[s].level % 0x1_0000, la - env[s].level, lb - env[s].level);
    && r.Ok?
    && n2 == Connect(r.value.0, Addr(|n.arena.slots|, Principal), env[s].port, lo)
    && env1 == RepEnv(env - {s}, a, b, |n.arena.slots|, la, lb)
  }

  lemma RepOpen(n: NetState, env: Env, lo: Path, s: string, a: string, b: string, body: Ast, la: nat, lb: nat,
      n2: NetState, env1: Env)
    requires RepStart(n, env, lo, s, a, b, body, la, lb, n2, env1)
    ensures Stretch(n, env, n2, env - {s})
    ensures Linked(n2, Addr(|n.arena.slots|, Principal), env[s].port)
    ensures RepLabel(n2, |n.arena.slots|, env[s].level, la, lb)
    ensures Avail(n, env, n2, env - {s}, Addr(|n.arena.slots|, Aux0)) &&
      Avail(n, env, n2, env - {s}, Addr(|n.arena.slots|, Aux1))
    ensures |n2.arena.slots| == |n.arena.slots| + 1 && n2.f1 == n.f1 && n2.f2 == n.f2
  {
    hide AllocAgent, Connect, Inv, Untouched, EnvFrom, PathsFree;
    var base := |n.arena.slots|;
    var pr, aux0, aux1 := Addr(base, Principal), Addr(base, Aux0), Addr(base, Aux1);
    var e1 := env - {s};
    var n1 := AllocAgent(n, Replicator, env[s].level % 0x1_0000, la - env[s].level, lb - env[s].level).value.0;
    StretchRefl(n, env);
    StretchShrink(n, env, n, env, {s});
    StretchAlloc(n, e1, Replicator, env[s].level % 0x1_0000, la - env[s].level, lb - env[s].level);
    StretchTrans(n, env, n, e1, e1, n1, e1);
    assert InEnv(env, env[s].port);
    assert Avail(n, env, n, e1, env[s].port);
    AvailKeep(n, env, n, e1, e1, n1, e1, env[s].port);
    AvailWeaken(n, env, n, e1, n1, e1, pr);
    AvailWeaken(n, env, n, e1, n1, e1, aux0);
    AvailWeaken(n, env, n, e1, n1, e1, aux1);
    assert VarPort(n, env[s].port);
    AgentExt(n, n1, env[s].port.slot);
    assert KeyFree(n1, pr, env[s].port, lo);
    StretchWire(n, env, n1, e1, pr, env[s].port, lo);
    AvailWire(n, env, n1, e1, pr, env[s].port, lo, aux0);
    AvailWire(n, env, n1, e1, pr, env[s].port, lo, aux1);
    AgentExt(n1, n2, base);
    assert RepLabel(n1, base, env[s].level, la, lb);
  }

  lemma EnvAdd(n: NetState, env: Env, x: string, p: Port, level: nat)
    requires EnvOk(n, env) && VarPort(n, p) && Peer(n, p).Null? && !InEnv(env, p)
    ensures EnvOk(n, env[x := Binding(p, level)])
    ensures forall q :: q != p && !InEnv(env, q) ==> !InEnv(env[x := Binding(p, level)], q)
  {
    forall m | m in env
      ensures env[m].port != p
    {
    }
  }

  lemma RepPre(n: NetState, env: Env, lo: Path, s: string, a: string, b: string, body: Ast, la: nat, lb: nat,
      n2: NetState, env1: Env)
    requires RepStart(n, env, lo, s, a, b, body, la, lb, n2, env1)
    ensures Pre(n2, env1, lo, body)
    ensures EnvFrom(env, env1, |n.arena.slots|)
  {
    hide AllocAgent, Connect, Inv, Ext, Untouched, Linked, EnvOk;
    NamedScrutinee(s, a, b, body);
    RepOpen(n, env, lo, s, a, b, body, la, lb, n2, env1);
    var base := |n.arena.slots|;
    EnvAdd(n2, env - {s}, a, Addr(base, Aux0), la);
    EnvAdd(n2, (env - {s})[a := Binding(Addr(base, Aux0), la)], b, Addr(base, Aux1), lb);
    forall m | m in env1
      ensures env1[m].port.At? && (env1[m].port.slot >= base || InEnv(env, env1[m].port))
    {
      if m != a && m != b { assert (env - {s})[m] == env1[m]; }
    }
  }

  ghost predicate RepReady(n: NetState, level: nat, env: Env, lo: Path, s: string, a: string, b: string, body: Ast,
      ul: map<string, nat>, n2: NetState, env1: Env, o: Out) {
    && RepStart(n, env, lo, s, a, b, body, LevelOf(ul, a, level), LevelOf(ul, b, level), n2, env1)
    && Post(n2, level, env1, lo, body, ul, o)
  }

  lemma RepAgree(n: NetState, level: nat, env: Env, lo: Path, s: string, a: string, b: string, body: Ast,
      ul: map<string, nat>, n2: NetState, env1: Env, o: Out)
    requires RepReady(n, level, env, lo, s, a, b, body, ul, n2, env1, o)
    ensures EnvFrame(Rep(Name(s), a, b, body), env, o.env)
    ensures Agree(body, env1, RepEnv(env, a, b, |n.arena.slots|, LevelOf(ul, a, level), LevelOf(ul, b, level)))
    ensures AllUsed(Rep(Name(s), a, b, body)) ==> o.env.Keys !! Binders(Rep(Name(s), a, b, body))
  {
    hide AllocAgent, Connect, Inv, Ext, Stretch, Avail, Linked, Wired, NewWired, Settled, EnvOk, PathsFree,
        NewPathsBelow;
    NamedScrutinee(s, a, b, body);
  }

  lemma RepWired(n: NetState, level: nat, env: Env, lo: Path, s: string, a: string, b: string, body: Ast,
      ul: map<string, nat>, n2: NetState, env1: Env, o: Out)
    requires RepReady(n, level, env, lo, s, a, b, body, ul, n2, env1, o)
    ensures Wired(o.net, Rep(Name(s), a, b, body), |n.arena.slots|, env, level, ul)
    ensures o.port == ResultPort(Rep(Name(s), a, b, body), |n.arena.slots|, env, level, ul)
  {
    hide AllocAgent, Connect, Inv, Ext, Avail, Linked, NewWired, Settled, EnvOk, PathsFree, NewPathsBelow, Agree,
        RepLabel, EnvFrame;
    var la, lb := LevelOf(ul, a, level), LevelOf(ul, b, level);
    var base := |n.arena.slots|;
    RepOpen(n, env, lo, s, a, b, body, la, lb, n2, env1);
    RepAgree(n, level, env, lo, s, a, b, body, ul, n2, env1, o);
    var env2 := RepEnv(env, a, b, base, la, lb);
    LinkedExt(n2, o.net, Addr(base, Principal), env[s].port);
    AgentExt(n2, o.net, base);
    WiredEnv(o.net, body, base + 1, env1, env2, level, ul);
    ResultEnv(body, base + 1, env1, env2, level, ul);
  }

  lemma RepSettled(n: NetState, level: nat, env: Env, lo: Path, s: string, a: string, b: string, body: Ast,
      ul: map<string, nat>, n2: NetState, env1: Env, o: Out)
    requires RepReady(n, level, env, lo, s, a, b, body, ul, n2, env1, o)
    ensures Settled(Rep(Name(s), a, b, body), env, o.net, {o.port})
  {
    hide AllocAgent, Connect, Inv, Ext, Avail, Wired, PathsFree, NewPathsBelow, Agree, RepLabel, EnvFrame,
        Untouched, EnvFrom, EnvOk, NewWired;
    NamedScrutinee(s, a, b, body);
    RepOpen(n, env, lo, s, a, b, body, LevelOf(ul, a, level), LevelOf(ul, b, level), n2, env1);
    LinkedExt(n2, o.net, Addr(|n.arena.slots|, Principal), env[s].port);
    forall y | y in Frees(Rep(Name(s), a, b, body)) && y in env
      ensures env[y].port == o.port || !Peer(o.net, env[y].port).Null?
    {
      if y != s {
        assert y in env1 && env1[y] == env[y];
      }
    }
  }

  lemma RepUsed(n: NetState, level: nat, env: Env, lo: Path, s: string, a: string, b: string, body: Ast,
      ul: map<string, nat>, n2: NetState, env1: Env, o: Out)
    requires RepReady(n, level, env, lo, s, a, b, body, ul, n2, env1, o)
    requires AllUsed(Rep(Name(s), a, b, body))
    ensures NewWired(n, o.net, o.env, {o.port})
  {
    hide AllocAgent, Connect, Inv, Ext, Avail, Stretch, Settled, Wired, PathsFree, NewPathsBelow, Agree, RepLabel,
        EnvFrame, EnvOk;
    var la, lb := LevelOf(ul, a, level), LevelOf(ul, b, level);
    var base := |n.arena.slots|;
    RepOpen(n, env, lo, s, a, b, body, la, lb, n2, env1);
    RepPre(n, env, lo, s, a, b, body, la, lb, n2, env1);
    forall q | IsPort(n2, q) && q.slot >= base && Peer(n2, q).Null?
      ensures InEnv(env1, q)
    {
      match q.kind
      case Principal =>
      case Aux0 => assert env1[a].port == q;
      case Aux1 => assert env1[b].port == q;
    }
    NewWiredPart(n, n2, env1, {}, level, lo, body, ul, o);
    assert {} + {o.port} == {o.port};
  }

  lemma RepCase(n: NetState, level: nat, env: Env, lo: Path, s: string, a: string, b: string, body: Ast,
      ul: map<string, nat>, n2: NetState, env1: Env, o: Out)
    requires RepReady(n, level, env, lo, s, a, b, body, ul, n2, env1, o)
    ensures Post(n, level, env, lo, Rep(Name(s), a, b, body), ul, o)
  {
    hide AllocAgent, Connect, Inv, Ext, Avail, Stretch, Linked, Wired, PathsFree, Agree, RepLabel, EnvFrame,
        EnvFrom, Settled, NewWired;
    NamedScrutinee(s, a, b, body);
    var la, lb := LevelOf(ul, a, level), LevelOf(ul, b, level);
    RepOpen(n, env, lo, s, a, b, body, la, lb, n2, env1);
    RepPre(n, env, lo, s, a, b, body, la, lb, n2, env1);
    RepAgree(n, level, env, lo, s, a, b, body, ul, n2, env1, o);
    RepWired(n, level, env, lo, s, a, b, body, ul, n2, env1, o);
    RepSettled(n, level, env, lo, s, a, b, body, ul, n2, env1, o);
    if AllUsed(Rep(Name(s), a, b, body)) {
      RepUsed(n, level, env, lo, s, a, b, body, ul, n2, env1, o);
    }
    StretchTrans(n, env, n2, env - {s}, env1, o.net, o.env);
    AvailWeaken(n, env, n2, env1, o.net, o.env, o.port);
  }

  // Erasure

  ghost predicate EraReady(n: NetState, level: nat, env: Env, lo: Path, s: string, body: Ast, ul: map<string, nat>,
      n2: NetState, o: Out) {
    && Pre(n, env, lo, Era(Name(s), body)) && s in env
    && n2 == Connect(n, Eraser, env[s].port, lo)
    && Post(n2, level, env - {s}, lo, body, ul, o)
  }

  lemma EraOpen(n: NetState, env: Env, lo: Path, s: string, body: Ast, n2: NetState)
    requires Pre(n, env, lo, Era(Name(s), body)) && s in env
    requires n2 == Connect(n, Eraser, env[s].port, lo)
    ensures Stretch(n, env, n2, env - {s}) && Pre(n2, env - {s}, lo, body)
    ensures IsPort(n2, env[s].port) && Peer(n2, env[s].port).Eraser?
    ensures |n2.arena.slots| == |n.arena.slots| && n2.f1 == n.f1 && n2.f2 == n.f2
  {
    hide Connect, Inv;
    NamedScrutinee(s, "", "", body);
    EraseFacts(n, env[s].port, lo);
    StretchRefl(n, env);
    StretchShrink(n, env, n, env, {s});
    forall m | m in env
      ensures VarPort(n2, env[m].port)
    {
      AgentExt(n, n2, env[m].port.slot);
    }
    assert InEnv(env, env[s].port);
  }

  lemma EraAgree(n: NetState, level: nat, env: Env, lo: Path, s: string, body: Ast, ul: map<string, nat>,
      n2: NetState, o: Out)
    requires EraReady(n, level, env, lo, s, body, ul, n2, o)
    ensures EnvFrame(Era(Name(s), body), env, o.env)
    ensures Agree(body, env - {s}, env)
    ensures AllUsed(Era(Name(s), body)) ==> o.env.Keys !! Binders(Era(Name(s), body))
  {
    hide Connect, Inv, Ext, Stretch, Avail, Linked, Wired, NewWired, Settled, EnvOk, PathsFree, NewPathsBelow;
    NamedScrutinee(s, "", "", body);
  }

  lemma EraWired(n: NetState, level: nat, env: Env, lo: Path, s: string, body: Ast, ul: map<string, nat>,
      n2: NetState, o: Out)
    requires EraReady(n, level, env, lo, s, body, ul, n2, o)
    ensures Wired(o.net, Era(Name(s), body), |n.arena.slots|, env, level, ul)
    ensures o.port == ResultPort(Era(Name(s), body), |n.arena.slots|, env, level, ul)
    ensures Settled(Era(Name(s), body), env, o.net, {o.port})
    ensures AllUsed(Era(Name(s), body)) ==> NewWired(n, o.net, o.env, {o.port})
  {
    hide Connect, Inv, Avail, NewPathsBelow, Agree, EnvFrame, EnvFrom, Untouched, Linked;
    NamedScrutinee(s, "", "", body);
    EraOpen(n, env, lo, s, body, n2);
    EraAgree(n, level, env, lo, s, body, ul, n2, o);
    var base := |n.arena.slots|;
    AgentExt(n2, o.net, env[s].port.slot);
    WiredEnv(o.net, body, base, env - {s}, env, level, ul);
    ResultEnv(body, base, env - {s}, env, level, ul);
    if AllUsed(Era(Name(s), body)) {
      NewWiredPart(n, n2, env - {s}, {}, level, lo, body, ul, o);
      assert {} + {o.port} == {o.port};
    }
  }

  lemma EraCase(n: NetState, level: nat, env: Env, lo: Path, s: string, body: Ast, ul: map<string, nat>,
      n2: NetState, o: Out)
    requires EraReady(n, level, env, lo, s, body, ul, n2, o)
    ensures Post(n, level, env, lo, Era(Name(s), body), ul, o)
  {
    hide Connect, Inv, Ext, Avail, Linked, Wired, PathsFree, Agree, EnvFrame, Settled, NewWired, Untouched, EnvOk;
    NamedScrutinee(s, "", "", body);
    EraOpen(n, env, lo, s, body, n2);
    EraAgree(n, level, env, lo, s, body, ul, n2, o);
    EraWired(n, level, env, lo, s, body, ul, n2, o);
    StretchTrans(n, env, n2, env - {s}, env - {s}, o.net, o.env);
    AvailWeaken(n, env, n2, env - {s}, o.net, o.env, o.port);
  }

  // Recursion

  /** The nets met while the back edge of a recursion is tied, in order. */
  datatype FixNets = FixNets(n1: NetState, n2: NetState, n3: NetState, n4: NetState, n5: NetState)

  ghost predicate FixReady(n: NetState, level: nat, env: Env, lo: Path, i: Ast, ul: map<string, nat>, o: Out,
      w: FixNets) {
    && Pre(n, env, lo, Fix(i))
    && Post(n, level, env, lo + [false], i, ul, o)
    && var app, rep := |o.net.arena.slots|, |o.net.arena.slots| + 1;
    && AllocAgent(o.net, FanApp, 0, 0, 0).Ok? && w.n1 == AllocAgent(o.net, FanApp, 0, 0, 0).value.0
    && w.n2 == Connect(w.n1, Addr(app, Principal), o.port, lo + [false])
    && AllocAgent(w.n2, Replicator, level % 0x1_0000, 0, 0).Ok? && w.n3 ==
        AllocAgent(w.n2, Replicator, level % 0x1_0000, 0, 0).value.0
    && w.n4 == Connect(w.n3, Addr(rep, Principal), Addr(app, Aux0), lo + [true])
    && w.n5 == Connect(w.n4, Addr(app, Aux1), Addr(rep, Aux0), lo)
  }

  lemma FixPre(n: NetState, env: Env, lo: Path, i: Ast)
    requires Pre(n, env, lo, Fix(i))
    ensures Pre(n, env, lo + [false], i)
  {
    hide Inv, EnvOk;
    PathsFreeChild(n, lo, false);
  }

  lemma FixOpen1(n: NetState, level: nat, env: Env, lo: Path, i: Ast, ul: map<string, nat>, o: Out, w: FixNets)
    requires FixReady(n, level, env, lo, i, ul, o, w)
    ensures Stretch(n, env, w.n2, o.env) && Ext(o.net, w.n2)
    ensures var app := |o.net.arena.slots|;
      && |w.n2.arena.slots| == app + 1 && AgentOf(w.n2, app).FanApp?
      && Linked(w.n2, Addr(app, Principal), o.port)
      && Avail(n, env, w.n2, o.env, Addr(app, Aux0)) && Avail(n, env, w.n2, o.env, Addr(app, Aux1))
    ensures w.n2.f2 == o.net.f2 && w.n2.f1.Keys <= o.net.f1.Keys + {lo + [false]}
    ensures AllUsed(i) ==>
      NewWired(n, w.n2, o.env, {Addr(|o.net.arena.slots|, Aux0), Addr(|o.net.arena.slots|, Aux1)})
  {
    hide AllocAgent, Connect, Inv, Untouched, Wired, EnvOk, Settled, EnvFrame, EnvFrom;
    var app := |o.net.arena.slots|;
    var pr, aux0, aux1 := Addr(app, Principal), Addr(app, Aux0), Addr(app, Aux1);
    StretchAlloc(o.net, o.env, FanApp, 0, 0, 0);
    StretchTrans(n, env, o.net, o.env, o.env, w.n1, o.env);
    AvailKeep(n, env, o.net, o.env, o.env, w.n1, o.env, o.port);
    AvailWeaken(n, env, o.net, o.env, w.n1, o.env, pr);
    AvailWeaken(n, env, o.net, o.env, w.n1, o.env, aux0);
    AvailWeaken(n, env, o.net, o.env, w.n1, o.env, aux1);
    NewBelowChild(n, o.net, lo, false);
    assert KeyFree(w.n1, pr, o.port, lo + [false]);
    StretchWire(n, env, w.n1, o.env, pr, o.port, lo + [false]);
    AvailWire(n, env, w.n1, o.env, pr, o.port, lo + [false], aux0);
    AvailWire(n, env, w.n1, o.env, pr, o.port, lo + [false], aux1);
    ExtTrans(o.net, w.n1, w.n2);
    AgentExt(w.n1, w.n2, app);
    if AllUsed(i) {
      forall q | IsPort(w.n1, q) && q.slot >= |n.arena.slots| && Peer(w.n1, q).Null?
        ensures q in {aux0, aux1} + {pr, o.port} || InEnv(o.env, q)
      {
        if q.slot < app {
          AgentExt(o.net, w.n1, q.slot);
          assert IsPort(o.net, q);
          assert Peer(o.net, q).Null?;
        } else {
          match q.kind case Principal => case Aux0 => case Aux1 =>
        }
      }
      NewWiredWire(n, w.n1, o.env, {aux0, aux1}, pr, o.port, lo + [false]);
    }
  }

  lemma FixOpen2(n: NetState, level: nat, env: Env, lo: Path, i: Ast, ul: map<string, nat>, o: Out, w: FixNets)
    requires FixReady(n, level, env, lo, i, ul, o, w)
    ensures Stretch(n, env, w.n4, o.env) && Ext(w.n2, w.n4)
    ensures var app, rep := |o.net.arena.slots|, |o.net.arena.slots| + 1;
      && |w.n4.arena.slots| == app + 2 && RepLabel(w.n4, rep, level, level, level)
      && Linked(w.n4, Addr(rep, Principal), Addr(app, Aux0))
      && Avail(n, env, w.n4, o.env, Addr(app, Aux1)) && Avail(n, env, w.n4, o.env, Addr(rep, Aux0)) &&
          Avail(n, env, w.n4, o.env, Addr(rep, Aux1))
    ensures NewPathsBelow(n, w.n4, lo)
  {
    hide AllocAgent, Connect, Inv, Ext, Untouched, Wired, EnvOk, Settled, EnvFrame, EnvFrom, Linked, NewWired;
    var app, rep := |o.net.arena.slots|, |o.net.arena.slots| + 1;
    var aux0, aux1 := Addr(app, Aux0), Addr(app, Aux1);
    var pr, raux0, raux1 := Addr(rep, Principal), Addr(rep, Aux0), Addr(rep, Aux1);
    FixOpen1(n, level, env, lo, i, ul, o, w);
    StretchAlloc(w.n2, o.env, Replicator, level % 0x1_0000, 0, 0);
    StretchTrans(n, env, w.n2, o.env, o.env, w.n3, o.env);
    AvailKeep(n, env, w.n2, o.env, o.env, w.n3, o.env, aux0);
    AvailKeep(n, env, w.n2, o.env, o.env, w.n3, o.env, aux1);
    AvailWeaken(n, env, w.n2, o.env, w.n3, o.env, pr);
    AvailWeaken(n, env, w.n2, o.env, w.n3, o.env, raux0);
    AvailWeaken(n, env, w.n2, o.env, w.n3, o.env, raux1);
    NewBelowChild(n, o.net, lo, false);
    PathStep(lo, false, lo);
    PathStep(lo, true, lo);
    assert KeyFree(w.n3, pr, aux0, lo + [true]);
    StretchWire(n, env, w.n3, o.env, pr, aux0, lo + [true]);
    AvailWire(n, env, w.n3, o.env, pr, aux0, lo + [true], aux1);
    AvailWire(n, env, w.n3, o.env, pr, aux0, lo + [true], raux0);
    AvailWire(n, env, w.n3, o.env, pr, aux0, lo + [true], raux1);
    ExtTrans(w.n2, w.n3, w.n4);
    assert RepLabel(w.n3, rep, level, level, level);
    AgentExt(w.n3, w.n4, rep);
  }

  lemma FixUsed(n: NetState, level: nat, env: Env, lo: Path, i: Ast, ul: map<string, nat>, o: Out, w: FixNets)
    requires FixReady(n, level, env, lo, i, ul, o, w) && AllUsed(i)
    ensures NewWired(n, w.n4, o.env,
                     {Addr(|o.net.arena.slots|, Aux1), Addr(|o.net.arena.slots| + 1, Aux0),
                         Addr(|o.net.arena.slots| + 1, Aux1)})
  {
    hide AllocAgent, Connect, Inv, Untouched, Wired, EnvOk, Settled, EnvFrame, EnvFrom, Linked, PathsFree,
        NewPathsBelow;
    var app, rep := |o.net.arena.slots|, |o.net.arena.slots| + 1;
    var aux0, aux1 := Addr(app, Aux0), Addr(app, Aux1);
    var pr, raux0, raux1 := Addr(rep, Principal), Addr(rep, Aux0), Addr(rep, Aux1);
    FixOpen1(n, level, env, lo, i, ul, o, w);
    StretchAlloc(w.n2, o.env, Replicator, level % 0x1_0000, 0, 0);
    AvailKeep(n, env, w.n2, o.env, o.env, w.n3, o.env, aux0);
    assert Avail(w.n2, o.env, w.n3, o.env, pr);
    forall q | IsPort(w.n3, q) && q.slot >= |n.arena.slots| && Peer(w.n3, q).Null?
      ensures q in {aux1, raux0, raux1} + {pr, aux0} || InEnv(o.env, q)
    {
      if q.slot < rep {
        AgentExt(w.n2, w.n3, q.slot);
        assert IsPort(w.n2, q);
        assert Peer(w.n2, q).Null?;
      } else {
        match q.kind case Principal => case Aux0 => case Aux1 =>
      }
    }
    NewWiredWire(n, w.n3, o.env, {aux1, raux0, raux1}, pr, aux0, lo + [true]);
  }

  lemma FixNetFacts(n: NetState, level: nat, env: Env, lo: Path, i: Ast, ul: map<string, nat>, o: Out, w: FixNets)
    requires FixReady(n, level, env, lo, i, ul, o, w)
    ensures Stretch(n, env, w.n5, o.env) && Ext(w.n4, w.n5)
    ensures var app, rep := |o.net.arena.slots|, |o.net.arena.slots| + 1;
      && |w.n5.arena.slots| == app + 2
      && Linked(w.n5, Addr(app, Aux1), Addr(rep, Aux0))
      && Avail(n, env, w.n5, o.env, Addr(rep, Aux1))
    ensures NewPathsBelow(n, w.n5, lo)
    ensures AllUsed(i) ==> NewWired(n, w.n5, o.env, {Addr(|o.net.arena.slots| + 1, Aux1)})
  {
    hide AllocAgent, Connect, Inv, Untouched, Wired, EnvOk, Settled, EnvFrame, EnvFrom, Linked, Pre, Post, Ext,
        NewWired;
    var app, rep := |o.net.arena.slots|, |o.net.arena.slots| + 1;
    var aux1, raux0, raux1 := Addr(app, Aux1), Addr(rep, Aux0), Addr(rep, Aux1);
    FixOpen2(n, level, env, lo, i, ul, o, w);
    NoKey(w.n4, aux1, raux0, lo);
    StretchWire(n, env, w.n4, o.env, aux1, raux0, lo);
    AvailWire(n, env, w.n4, o.env, aux1, raux0, lo, raux1);
    if AllUsed(i) {
      FixUsed(n, level, env, lo, i, ul, o, w);
      assert {aux1, raux0, raux1} == {raux1} + {aux1, raux0};
      NewWiredWire(n, w.n4, o.env, {raux1}, aux1, raux0, lo);
    }
  }

  lemma FixWired(n: NetState, level: nat, env: Env, lo: Path, i: Ast, ul: map<string, nat>, o: Out, w: FixNets)
    requires FixReady(n, level, env, lo, i, ul, o, w)
    ensures Wired(w.n5, Fix(i), |n.arena.slots|, env, level, ul)
  {
    hide AllocAgent, Connect, Inv, Ext, Linked, Untouched, EnvFrame, EnvFrom, EnvOk, Avail, NewWired, NewPathsBelow,
        RepLabel, PathsFree, Settled;
    var base := |n.arena.slots|;
    var app, rep := |o.net.arena.slots|, |o.net.arena.slots| + 1;
    FixOpen1(n, level, env, lo, i, ul, o, w);
    FixOpen2(n, level, env, lo, i, ul, o, w);
    FixNetFacts(n, level, env, lo, i, ul, o, w);
    ExtTrans(w.n2, w.n4, w.n5);
    ExtTrans(o.net, w.n2, w.n5);
    WiredExt(o.net, w.n5, i, base, env, level, ul);
    LinkedExt(w.n2, w.n5, Addr(app, Principal), o.port);
    LinkedExt(w.n4, w.n5, Addr(rep, Principal), Addr(app, Aux0));
    AgentExt(w.n2, w.n5, app);
    AgentExt(w.n4, w.n5, rep);
  }

  lemma EnvPorts(n: NetState, env: Env, m: NetState)
    requires EnvOk(n, env) && Ext(n, m)
    ensures forall y :: y in env ==> IsPort(m, env[y].port)
  {
    forall y | y in env
      ensures IsPort(m, env[y].port)
    {
      AgentExt(n, m, env[y].port.slot);
    }
  }

  lemma FixSettled(n: NetState, level: nat, env: Env, lo: Path, i: Ast, ul: map<string, nat>, o: Out, w: FixNets)
    requires FixReady(n, level, env, lo, i, ul, o, w)
    ensures Settled(Fix(i), env, w.n5, {})
  {
    hide AllocAgent, Connect, Inv, Ext, EnvOk, Untouched, EnvFrame, EnvFrom, Avail, NewWired, NewPathsBelow,
        RepLabel, PathsFree, Wired;
    FixOpen1(n, level, env, lo, i, ul, o, w);
    FixOpen2(n, level, env, lo, i, ul, o, w);
    FixNetFacts(n, level, env, lo, i, ul, o, w);
    ExtTrans(w.n2, w.n4, w.n5);
    ExtTrans(o.net, w.n2, w.n5);
    LinkedExt(w.n2, w.n5, Addr(|o.net.arena.slots|, Principal), o.port);
    EnvPorts(n, env, o.net);
    SettledExt(i, env, o.net, w.n5, {o.port});
  }

  lemma FixCase(n: NetState, level: nat, env: Env, lo: Path, i: Ast, ul: map<string, nat>, o: Out, w: FixNets)
    requires FixReady(n, level, env, lo, i, ul, o, w)
    ensures Post(n, level, env, lo, Fix(i), ul, Out(w.n5, o.env, Addr(|o.net.arena.slots| + 1, Aux1), level))
  {
    hide AllocAgent, Connect, Inv, Stretch, Avail, Wired, Linked, Ext, NewWired, NewPathsBelow, Settled;
    FixNetFacts(n, level, env, lo, i, ul, o, w);
    FixWired(n, level, env, lo, i, ul, o, w);
    FixSettled(n, level, env, lo, i, ul, o, w);
    SettledMore(Fix(i), env, w.n5, Addr(|o.net.arena.slots| + 1, Aux1));
  }

  // Primitives without a primitive table

  lemma ValCase(n: NetState, level: nat, env: Env, lo: Path, e: Ast, ul: map<string, nat>)
    requires Pre(n, env, lo, e) && (e.Val? || e.Fun?)
    requires AllocAgent(n, FreeAgent, 0, 0, 0).Ok?
    ensures Post(n, level, env, lo, e, ul,
                 Out(AllocAgent(n, FreeAgent, 0, 0, 0).value.0, env, Addr(|n.arena.slots|, Principal), level))
  {
    hide AllocAgent, Inv, EnvOk, Untouched, EnvFrom;
    StretchAlloc(n, env, FreeAgent, 0, 0, 0);
    assert Avail(n, env, AllocAgent(n, FreeAgent, 0, 0, 0).value.0, env, Addr(|n.arena.slots|, Principal));
  }

  // ---------------------------------------------------------------------------------------------
  // The induction

  lemma {:induction false} ElaborateKeeps(n: NetState, level: nat, env: Env, lo: Path, e: Ast, ul: map<string, nat>)
    requires Pre(n, env, lo, e)
    requires Elaborate(n, level, env, lo, e, ul).Ok?
    ensures Post(n, level, env, lo, e, ul, Elaborate(n, level, env, lo, e, ul).value)
    decreases e, 1
  {
    hide Post, Pre, AllocAgent, Connect, Extend;
    match e
    case Name(x) => NameCase(n, level, env, lo, x, ul);
    case Abs(x, b) => ElaborateAbs(n, level, env, lo, x, b, ul);
    case App(f, x) => ElaborateApp(n, level, env, lo, f, x, ul);
    case Rep(s, a, b, body) => ElaborateRep(n, level, env, lo, s, a, b, body, ul);
    case Era(s, body) => ElaborateEra(n, level, env, lo, s, body, ul);
    case Fix(i) => ElaborateFix(n, level, env, lo, i, ul);
    case Val(_) => ElaborateVal(n, level, env, lo, e, ul);
    case Fun(_) => ElaborateVal(n, level, env, lo, e, ul);
  }

  lemma ElaborateVal(n: NetState, level: nat, env: Env, lo: Path, e: Ast, ul: map<string, nat>)
    requires Pre(n, env, lo, e) && (e.Val? || e.Fun?)
    requires Elaborate(n, level, env, lo, e, ul).Ok?
    ensures Post(n, level, env, lo, e, ul, Elaborate(n, level, env, lo, e, ul).value)
  {
    hide Post, AllocAgent, EnvOk, PathsFree;
    AllocFacts(n, FreeAgent, 0, 0, 0);
    ValCase(n, level, env, lo, e, ul);
  }

  lemma {:induction false} ElaborateAbs(n: NetState, level: nat, env: Env, lo: Path, x: string, b: Ast,
      ul: map<string, nat>)
    requires Pre(n, env, lo, Abs(x, b))
    requires Elaborate(n, level, env, lo, Abs(x, b), ul).Ok?
    ensures Post(n, level, env, lo, Abs(x, b), ul, Elaborate(n, level, env, lo, Abs(x, b), ul).value)
    decreases Abs(x, b), 0
  {
    hide Post, AllocAgent, Connect, EnvOk, PathsFree, Inv;
    AllocFacts(n, FanAbs, 0, 0, 0);
    var n1 := AllocAgent(n, FanAbs, 0, 0, 0).value.0;
    AbsPre(n, level, env, lo, x, b);
    ElaborateKeeps(n1, level, AbsEnv(env, x, |n.arena.slots|, level), lo + [false], b, ul);
    AbsCase(n, level, env, lo, x, b, ul, n1,
        Elaborate(n1, level, AbsEnv(env, x, |n.arena.slots|, level), lo + [false], b, ul).value);
  }

  lemma {:induction false} ElaborateApp(n: NetState, level: nat, env: Env, lo: Path, f: Ast, x: Ast, ul: map<string,
      nat>)
    requires Pre(n, env, lo, App(f, x))
    requires Elaborate(n, level, env, lo, App(f, x), ul).Ok?
    ensures Post(n, level, env, lo, App(f, x), ul, Elaborate(n, level, env, lo, App(f, x), ul).value)
    decreases App(f, x), 0
  {
    hide Post, AllocAgent, Connect, EnvOk, PathsFree, Inv;
    AllocFacts(n, FanApp, 0, 0, 0);
    var n1 := AllocAgent(n, FanApp, 0, 0, 0).value.0;
    AppPreFn(n, env, lo, f, x);
    ElaborateKeeps(n1, level, env, lo + [false], f, ul);
    var of := Elaborate(n1, level, env, lo + [false], f, ul).value;
    AppPreArg(n, level, env, lo, f, x, ul, n1, of);
    ElaborateKeeps(of.net, level + 1, of.env, lo + [true], x, ul);
    AppCase(n, level, env, lo, f, x, ul, n1, of, Elaborate(of.net, level + 1, of.env, lo + [true], x, ul).value);
  }

  lemma {:induction false} ElaborateRep(n: NetState, level: nat, env: Env, lo: Path, s: Ast, a: string, b: string,
      body: Ast, ul: map<string, nat>)
    requires Pre(n, env, lo, Rep(s, a, b, body))
    requires Elaborate(n, level, env, lo, Rep(s, a, b, body), ul).Ok?
    ensures Post(n, level, env, lo, Rep(s, a, b, body), ul, Elaborate(n, level, env, lo, Rep(s, a, b, body), ul).value)
    decreases Rep(s, a, b, body), 0
  {
    hide Post, AllocAgent, Connect, EnvOk, PathsFree, Inv;
    var x := s.n;
    assert s == Name(x) && x in env;
    var la, lb := LevelOf(ul, a, level), LevelOf(ul, b, level);
    AllocFacts(n, Replicator, env[x].level % 0x1_0000, la - env[x].level, lb - env[x].level);
    var n1 := AllocAgent(n, Replicator, env[x].level % 0x1_0000, la - env[x].level, lb - env[x].level).value.0;
    var n2 := Connect(n1, Addr(|n.arena.slots|, Principal), env[x].port, lo);
    var env1 := RepEnv(env - {x}, a, b, |n.arena.slots|, la, lb);
    RepPre(n, env, lo, x, a, b, body, la, lb, n2, env1);
    ElaborateKeeps(n2, level, env1, lo, body, ul);
    RepCase(n, level, env, lo, x, a, b, body, ul, n2, env1, Elaborate(n2, level, env1, lo, body, ul).value);
  }

  lemma {:induction false} ElaborateEra(n: NetState, level: nat, env: Env, lo: Path, s: Ast, body: Ast,
      ul: map<string, nat>)
    requires Pre(n, env, lo, Era(s, body))
    requires Elaborate(n, level, env, lo, Era(s, body), ul).Ok?
    ensures Post(n, level, env, lo, Era(s, body), ul, Elaborate(n, level, env, lo, Era(s, body), ul).value)
    decreases Era(s, body), 0
  {
    hide Post, Connect, EnvOk, PathsFree, Inv;
    var x := s.n;
    assert s == Name(x) && x in env;
    var n2 := Connect(n, Eraser, env[x].port, lo);
    EraOpen(n, env, lo, x, body, n2);
    ElaborateKeeps(n2, level, env - {x}, lo, body, ul);
    EraCase(n, level, env, lo, x, body, ul, n2, Elaborate(n2, level, env - {x}, lo, body, ul).value);
  }

  lemma {:induction false} ElaborateFix(n: NetState, level: nat, env: Env, lo: Path, i: Ast, ul: map<string, nat>)
    requires Pre(n, env, lo, Fix(i))
    requires Elaborate(n, level, env, lo, Fix(i), ul).Ok?
    ensures Post(n, level, env, lo, Fix(i), ul, Elaborate(n, level, env, lo, Fix(i), ul).value)
    decreases Fix(i), 0
  {
    hide Post, AllocAgent, Connect, EnvOk, PathsFree, Inv;
    FixPre(n, env, lo, i);
    ElaborateKeeps(n, level, env, lo + [false], i, ul);
    var o := Elaborate(n, level, env, lo + [false], i, ul).value;
    var app, rep := |o.net.arena.slots|, |o.net.arena.slots| + 1;
    PostInv(n, level, env, lo + [false], i, ul, o);
    AllocFacts(o.net, FanApp, 0, 0, 0);
    var n1 := AllocAgent(o.net, FanApp, 0, 0, 0).value.0;
    var n2 := Connect(n1, Addr(app, Principal), o.port, lo + [false]);
    var n3 := AllocAgent(n2, Replicator, level % 0x1_0000, 0, 0).value.0;
    FixAlloc(n, level, env, lo, i, ul, o, n1, n2);
    var n4 := Connect(n3, Addr(rep, Principal), Addr(app, Aux0), lo + [true]);
    var n5 := Connect(n4, Addr(app, Aux1), Addr(rep, Aux0), lo);
    FixCase(n, level, env, lo, i, ul, o, FixNets(n1, n2, n3, n4, n5));
  }

  lemma PostInv(n: NetState, level: nat, env: Env, lo: Path, e: Ast, ul: map<string, nat>, o: Out)
    requires Frag(e) && Post(n, level, env, lo, e, ul, o)
    ensures Inv(o.net)
  {
  }

  /** The replicator of a recursion is the second of its two agents. */
  lemma FixAlloc(n: NetState, level: nat, env: Env, lo: Path, i: Ast, ul: map<string, nat>, o: Out, n1: NetState,
      n2: NetState)
    requires Pre(n, env, lo, Fix(i)) && Post(n, level, env, lo + [false], i, ul, o)
    requires AllocAgent(o.net, FanApp, 0, 0, 0).Ok? && n1 == AllocAgent(o.net, FanApp, 0, 0, 0).value.0
    requires n2 == Connect(n1, Addr(|o.net.arena.slots|, Principal), o.port, lo + [false])
    requires AllocAgent(n2, Replicator, level % 0x1_0000, 0, 0).Ok?
    ensures AllocAgent(n2, Replicator, level % 0x1_0000, 0, 0).value.1 == Addr(|o.net.arena.slots| + 1, Principal)
  {
    hide AllocAgent, Connect, Wired, Inv;
    var n3 := AllocAgent(n2, Replicator, level % 0x1_0000, 0, 0).value.0;
    var app, rep := |o.net.arena.slots|, |o.net.arena.slots| + 1;
    var n4 := Connect(n3, Addr(rep, Principal), Addr(app, Aux0), lo + [true]);
    var n5 := Connect(n4, Addr(app, Aux1), Addr(rep, Aux0), lo);
    FixOpen1(n, level, env, lo, i, ul, o, FixNets(n1, n2, n3, n4, n5));
    AllocFacts(n2, Replicator, level % 0x1_0000, 0, 0);
  }
}
