/**
 Admission of constants and inductives into the kernel environment. Constants form a DAG, a
 rejected declaration leaves no trace, and every inductive has a matching arity table.
 */
module Admission {
  import opened Common
  import opened Tms
  import opened Driver
  import opened Reduction
  import opened Positivity

  datatype AdmitError = Cycle(c: nat) | Duplicate | BadDecl | Diverged

  /** Does `t` mention the constant being declared or one not yet admitted? */
  predicate RefsUnknown(t: Tm, known: set<nat>, this': nat) {
    match t
    case Const(c) => c == this' || c !in known
    case Pi(a, b) => RefsUnknown(a, known, this') || RefsUnknown(b, known, this')
    case Lam(a, b) => RefsUnknown(a, known, this') || RefsUnknown(b, known, this')
    case App(a, b) => RefsUnknown(a, known, this') || RefsUnknown(b, known, this')
    case _ => false
  }

  function CountRec(args: seq<Tm>, id: nat): nat {
    if args == [] then 0 else CountRec(args[..|args| - 1], id) + if HeadIsInd(args[|args| - 1], id) then 1 else 0
  }

  /** The arity table an inductive must have. */
  function TableOf(ind: Inductive): ArityTable {
    ArityTable(ind.id, |ind.params|, |ind.indices|,
      seq(|ind.ctors|, k requires 0 <= k < |ind.ctors| =>
        CtorArity(ind.ctors[k].ix, |ind.ctors[k].args|, CountRec(ind.ctors[k].args, ind.id))))
  }

  /** Constants mentioned by a term. */
  function Consts(t: Tm): set<nat> {
    match t
    case Const(c) => {c}
    case Pi(a, b) => Consts(a) + Consts(b)
    case Lam(a, b) => Consts(a) + Consts(b)
    case App(a, b) => Consts(a) + Consts(b)
    case _ => {}
  }

  lemma {:induction false} RefsUnknownConsts(t: Tm, known: set<nat>, id: nat)
    ensures !RefsUnknown(t, known, id) <==> Consts(t) <= known - {id}
    decreases t
  {
    match t
    case Pi(a, b) => RefsUnknownConsts(a, known, id); RefsUnknownConsts(b, known, id);
    case Lam(a, b) => RefsUnknownConsts(a, known, id); RefsUnknownConsts(b, known, id);
    case App(a, b) => RefsUnknownConsts(a, known, id); RefsUnknownConsts(b, known, id);
    case _ =>
  }

  function Range(order: seq<nat>, n: nat): set<nat>
    requires n <= |order|
  {
    set k | 0 <= k < n :: order[k]
  }

  /** `order` lists the admitted constants so that each body mentions only earlier ones. */
  ghost predicate Dag(consts: map<nat, ConstDecl>, order: seq<nat>) {
    && (forall c :: c in consts <==> c in order)
    && (forall j, k :: 0 <= j < k < |order| ==> order[j] != order[k])
    && (forall k :: 0 <= k < |order| ==> Consts(consts[order[k]].body) <= Range(order, k))
  }

  /** Inductives and arity tables have the same keys, and each table fits its inductive. */
  ghost predicate TablesAgree(inds: map<nat, Inductive>, recs: map<nat, ArityTable>) {
    && inds.Keys == recs.Keys
    && forall i :: i in inds ==> inds[i].id == i && recs[i] == TableOf(inds[i])
  }

  lemma DagExtend(consts: map<nat, ConstDecl>, order: seq<nat>, id: nat, ty: Tm, body: Tm)
    requires Dag(consts, order) && id !in consts && !RefsUnknown(body, consts.Keys, id)
    ensures Dag(consts[id := ConstDecl(ty, body)], order + [id])
  {
    var next, ord := consts[id := ConstDecl(ty, body)], order + [id];
    RefsUnknownConsts(body, consts.Keys, id);
    forall k | 0 <= k < |ord|
      ensures Consts(next[ord[k]].body) <= Range(ord, k)
    {
      forall c | c in Consts(next[ord[k]].body)
        ensures c in Range(ord, k)
      {
        if k < |order| {
          assert order[k] in order;
          assert c in Range(order, k);
          var j :| 0 <= j < k && order[j] == c;
          assert ord[j] == c;
        } else {
          assert c in order;
          var j :| 0 <= j < |order| && order[j] == c;
          assert ord[j] == c;
        }
      }
    }
    forall c
      ensures c in next <==> c in ord
    {
      if c in order { var j :| 0 <= j < |order| && order[j] == c; assert ord[j] == c; }
      if c == id { assert ord[|order|] == c; }
    }
  }

  /** Checks that need type inference: field universes and return indices, run with the inductive registered. */
  type InferChecks = (GEnv, Inductive) -> bool

  class GlobalEnv {
    var consts: map<nat, ConstDecl>
    var inds: map<nat, Inductive>
    var recs: map<nat, ArityTable>
    ghost var order: seq<nat>

    ghost predicate Valid()
      reads this
    {
      Dag(consts, order) && TablesAgree(inds, recs)
    }

    function Env(): GEnv
      reads this
    {
      GEnv(consts, inds, recs)
    }

    constructor ()
      ensures Valid() && Env() == GEnv(map[], map[], map[])
    {
      consts, inds, recs, order := map[], map[], map[], [];
    }

    /** Admit a constant whose body mentions only admitted constants. */
    method AddConst(id: nat, ty: Tm, body: Tm) returns (r: Option<AdmitError>)
      requires Valid()
      modifies this`consts, this`order
      ensures Valid()
      ensures r == if id in old(consts) then Some(Duplicate)
                   else if Consts(body) <= old(consts.Keys) then None else Some(Cycle(id))
      ensures consts == if r.None? then old(consts)[id := ConstDecl(ty, body)] else old(consts)
    {
      RefsUnknownConsts(body, consts.Keys, id);
      if id in consts { return Some(Duplicate); }
      if RefsUnknown(body, consts.Keys, id) { return Some(Cycle(id)); }
      DagExtend(consts, order, id, ty, body);
      consts := consts[id := ConstDecl(ty, body)];
      order := order + [id];
      return None;
    }

    /** Admit a strictly positive inductive, registering it early and rolling back if a later check fails. */
    method AddInductive(ind: Inductive, o: IndexOracle, checks: InferChecks, fuel: nat) returns (r: Option<AdmitError>)
      requires Valid()
      modifies this`inds, this`recs
      ensures Valid()
      ensures r.Some? ==> inds == old(inds) && recs == old(recs)
      ensures r.None? ==> inds == old(inds)[ind.id := ind] && recs == old(recs)[ind.id := TableOf(ind)]
      ensures r.None? ==> ind.id !in old(inds) && checks(Env().(recs := old(recs)), ind)
      ensures r.None? ==> forall k, p :: 0 <= k < |ind.ctors| && 0 <= p < |ind.ctors[k].args| ==>
        StrictlyPositive(old(Env()), o, ind.id, ind.ctors[k].args[p], fuel) == Some(true)
    {
      if ind.id in inds { return Some(Duplicate); }
      r := CheckPositive(ind, o, fuel);
      if r.Some? { return; }
      var saved := inds;
      inds := inds[ind.id := ind];
      if !checks(Env(), ind) {
        inds := inds - {ind.id};
        assert inds == saved;
        return Some(BadDecl);
      }
      var table := BuildTable(ind);
      recs := recs[ind.id := table];
      return None;
    }

    method CheckPositive(ind: Inductive, o: IndexOracle, fuel: nat) returns (r: Option<AdmitError>)
      ensures r.None? <==> forall k, p :: 0 <= k < |ind.ctors| && 0 <= p < |ind.ctors[k].args| ==>
        StrictlyPositive(Env(), o, ind.id, ind.ctors[k].args[p], fuel) == Some(true)
    {
      for k := 0 to |ind.ctors|
        invariant forall j, p :: 0 <= j < k && 0 <= p < |ind.ctors[j].args| ==>
          StrictlyPositive(Env(), o, ind.id, ind.ctors[j].args[p], fuel) == Some(true)
      {
        for q := 0 to |ind.ctors[k].args|
          invariant forall p :: 0 <= p < q ==>
            StrictlyPositive(Env(), o, ind.id, ind.ctors[k].args[p], fuel) == Some(true)
        {
          match StrictlyPositive(Env(), o, ind.id, ind.ctors[k].args[q], fuel)
          case None => return Some(Diverged);
          case Some(yes) => if !yes { return Some(BadDecl); }
        }
      }
      return None;
    }
  }

  method BuildTable(ind: Inductive) returns (t: ArityTable)
    ensures t == TableOf(ind)
  {
    var ctors: seq<CtorArity> := [];
    for k := 0 to |ind.ctors|
      invariant ctors == TableOf(ind).ctors[..k]
    {
      var args := ind.ctors[k].args;
      var nrec := 0;
      for p := 0 to |args|
        invariant nrec == CountRec(args[..p], ind.id)
      {
        assert args[..p + 1][..p] == args[..p];
        if HeadIsInd(args[p], ind.id) { nrec := nrec + 1; }
      }
      assert args[..|args|] == args;
      ctors := ctors + [CtorArity(ind.ctors[k].ix, |args|, nrec)];
    }
    t := ArityTable(ind.id, |ind.params|, |ind.indices|, ctors);
  }

  // ---------------------------------------------------------------------------------------------
  // Every sequence of admissions

  datatype Cmd = AddC(id: nat, ty: Tm, body: Tm) | AddI(ind: Inductive)

  /** A whole session on a fresh environment. */
  method Session(cmds: seq<Cmd>, o: IndexOracle, checks: InferChecks, fuel: nat) returns (env: GEnv,
      ghost order: seq<nat>)
    ensures Dag(env.consts, order) && TablesAgree(env.inds, env.recs)
  {
    var g := new GlobalEnv();
    for k := 0 to |cmds|
      invariant g.Valid()
      invariant fresh(g)
    {
      match cmds[k] {
        case AddC(id, ty, body) => var _ := g.AddConst(id, ty, body);
        case AddI(ind) => var _ := g.AddInductive(ind, o, checks, fuel);
      }
    }
    env, order := g.Env(), g.order;
  }

  /** Where in the order a constant was admitted. */
  function Rank(order: seq<nat>, c: nat, n: nat): (k: nat)
    requires n <= |order| && c in Range(order, n)
    ensures k < n && order[k] == c
  {
    if order[n - 1] == c then n - 1 else Rank(order, c, n - 1)
  }

  /** Unfold every constant of a term, to the bottom. Terminates because a body only mentions earlier constants. */
  function Unfold(consts: map<nat, ConstDecl>, order: seq<nat>, n: nat, t: Tm): (u: Tm)
    requires Dag(consts, order) && n <= |order| && Consts(t) <= Range(order, n)
    ensures Consts(u) == {}
    decreases n, t
  {
    match t
    case Const(c) =>
      var k := Rank(order, c, n);
      assert order[k] in order;
      Unfold(consts, order, k, consts[c].body)
    case Pi(a, b) => Pi(Unfold(consts, order, n, a), Unfold(consts, order, n, b))
    case Lam(a, b) => Lam(Unfold(consts, order, n, a), Unfold(consts, order, n, b))
    case App(a, b) => App(Unfold(consts, order, n, a), Unfold(consts, order, n, b))
    case _ => t
  }

  /** One unfolding of one constant, anywhere in the term. */
  predicate DeltaStep(consts: map<nat, ConstDecl>, t: Tm, u: Tm)
    decreases t
  {
    match t
    case Const(c) => c in consts && u == consts[c].body
    case Pi(a, b) =>
      u.Pi? && ((DeltaStep(consts, a, u.dom) && u.cod == b) || (u.dom == a && DeltaStep(consts, b, u.cod)))
    case Lam(a, b) =>
      u.Lam? && ((DeltaStep(consts, a, u.dom) && u.body == b) || (u.dom == a && DeltaStep(consts, b, u.body)))
    case App(a, b) =>
      u.App? && ((DeltaStep(consts, a, u.fn) && u.arg == b) || (u.fn == a && DeltaStep(consts, b, u.arg)))
    case _ => false
  }

  /** A sequence of δ steps, in any order and at any places. */
  predicate DeltaRun(consts: map<nat, ConstDecl>, ts: seq<Tm>) {
    |ts| > 0 && (|ts| > 1 ==> DeltaStep(consts, ts[0], ts[1]) && DeltaRun(consts, ts[1..]))
  }

  /** How many δ steps the term has in it. */
  function Weight(consts: map<nat, ConstDecl>, order: seq<nat>, n: nat, t: Tm): nat
    requires Dag(consts, order) && n <= |order| && Consts(t) <= Range(order, n)
    decreases n, t
  {
    match t
    case Const(c) =>
      var k := Rank(order, c, n);
      assert order[k] in order;
      1 + Weight(consts, order, k, consts[c].body)
    case Pi(a, b) => Weight(consts, order, n, a) + Weight(consts, order, n, b)
    case Lam(a, b) => Weight(consts, order, n, a) + Weight(consts, order, n, b)
    case App(a, b) => Weight(consts, order, n, a) + Weight(consts, order, n, b)
    case _ => 0
  }

  lemma UnfoldStep(consts: map<nat, ConstDecl>, order: seq<nat>, n: nat, c: nat)
    requires Dag(consts, order) && n <= |order| && c in Range(order, n)
    ensures c in consts
    ensures Consts(consts[c].body) <= Range(order, Rank(order, c, n)) <= Range(order, n)
  {
    var k := Rank(order, c, n);
    assert order[k] in order;
  }

  /** Only the admitted order matters, not how much of it is looked at. */
  lemma {:induction false} WeightMore(consts: map<nat, ConstDecl>, order: seq<nat>, k: nat, n: nat, t: Tm)
    requires Dag(consts, order) && k <= n <= |order| && Consts(t) <= Range(order, k)
    ensures Consts(t) <= Range(order, n)
    ensures Weight(consts, order, k, t) == Weight(consts, order, n, t)
    ensures Unfold(consts, order, k, t) == Unfold(consts, order, n, t)
    decreases t
  {
    assert Range(order, k) <= Range(order, n);
    match t
    case Const(c) => assert order[Rank(order, c, k)] == order[Rank(order, c, n)];
    case Pi(a, b) => WeightMore(consts, order, k, n, a); WeightMore(consts, order, k, n, b);
    case Lam(a, b) => WeightMore(consts, order, k, n, a); WeightMore(consts, order, k, n, b);
    case App(a, b) => WeightMore(consts, order, k, n, a); WeightMore(consts, order, k, n, b);
    case _ =>
  }

  /** Every δ step takes exactly one off the weight and keeps the full unfolding. */
  lemma {:induction false} StepMeasure(consts: map<nat, ConstDecl>, order: seq<nat>, n: nat, t: Tm, u: Tm)
    requires Dag(consts, order) && n <= |order| && Consts(t) <= Range(order, n) && DeltaStep(consts, t, u)
    ensures Consts(u) <= Range(order, n)
    ensures Weight(consts, order, n, u) + 1 == Weight(consts, order, n, t)
    ensures Unfold(consts, order, n, u) == Unfold(consts, order, n, t)
    decreases t
  {
    hide Dag, Range;
    match t
    case Const(c) =>
      UnfoldStep(consts, order, n, c);
      WeightMore(consts, order, Rank(order, c, n), n, u);
    case Pi(a, b) =>
      if u.cod == b && DeltaStep(consts, a, u.dom) { StepMeasure(consts, order, n, a, u.dom); }
      else { StepMeasure(consts, order, n, b, u.cod); }
    case Lam(a, b) =>
      if u.body == b && DeltaStep(consts, a, u.dom) { StepMeasure(consts, order, n, a, u.dom); }
      else { StepMeasure(consts, order, n, b, u.body); }
    case App(a, b) =>
      if u.arg == b && DeltaStep(consts, a, u.fn) { StepMeasure(consts, order, n, a, u.fn); }
      else { StepMeasure(consts, order, n, b, u.arg); }
  }

  /** Weight nothing means no constant, and then there is nothing to unfold. */
  lemma {:induction false} WeightZero(consts: map<nat, ConstDecl>, order: seq<nat>, n: nat, t: Tm)
    requires Dag(consts, order) && n <= |order| && Consts(t) <= Range(order, n)
    ensures Weight(consts, order, n, t) == 0 <==> Consts(t) == {}
    ensures Consts(t) == {} ==> Unfold(consts, order, n, t) == t
    decreases t
  {
    hide Dag, Range;
    match t
    case Pi(a, b) => WeightZero(consts, order, n, a); WeightZero(consts, order, n, b);
    case Lam(a, b) => WeightZero(consts, order, n, a); WeightZero(consts, order, n, b);
    case App(a, b) => WeightZero(consts, order, n, a); WeightZero(consts, order, n, b);
    case Const(c) => assert c in Consts(t);
    case _ =>
  }

  /** A term with an admitted constant has a δ step. */
  lemma {:induction false} DeltaProgress(consts: map<nat, ConstDecl>, t: Tm) returns (u: Tm)
    requires Consts(t) <= consts.Keys && Consts(t) != {}
    ensures DeltaStep(consts, t, u)
    decreases t
  {
    match t
    case Const(c) => assert c in Consts(t); u := consts[c].body;
    case Pi(a, b) =>
      if Consts(a) != {} { u := DeltaProgress(consts, a); u := Pi(u, b); }
      else { u := DeltaProgress(consts, b); u := Pi(a, u); }
    case Lam(a, b) =>
      if Consts(a) != {} { u := DeltaProgress(consts, a); u := Lam(u, b); }
      else { u := DeltaProgress(consts, b); u := Lam(a, u); }
    case App(a, b) =>
      if Consts(a) != {} { u := DeltaProgress(consts, a); u := App(u, b); }
      else { u := DeltaProgress(consts, b); u := App(a, u); }
  }

  /**
   Every sequence of δ steps over admitted constants ends: it has at most as many steps as the term
   weighs, it has that many exactly if no constant is left, and then it ends in the full unfolding.
   */
  lemma {:induction false} DeltaTerminates(consts: map<nat, ConstDecl>, order: seq<nat>, n: nat, ts: seq<Tm>)
    requires Dag(consts, order) && n <= |order| && DeltaRun(consts, ts) && Consts(ts[0]) <= Range(order, n)
    ensures
      var last := ts[|ts| - 1];
      && Consts(last) <= Range(order, n)
      && |ts| - 1 + Weight(consts, order, n, last) == Weight(consts, order, n, ts[0])
      && (Consts(last) == {} <==> |ts| - 1 == Weight(consts, order, n, ts[0]))
      && (Consts(last) == {} ==> last == Unfold(consts, order, n, ts[0]))
    decreases |ts|
  {
    hide Dag, Range, DeltaStep;
    if |ts| == 1 {
      WeightZero(consts, order, n, ts[0]);
    } else {
      StepMeasure(consts, order, n, ts[0], ts[1]);
      DeltaTerminates(consts, order, n, ts[1..]);
    }
  }

  lemma AllKnown(consts: map<nat, ConstDecl>, order: seq<nat>)
    requires Dag(consts, order)
    ensures consts.Keys == Range(order, |order|)
  {
    forall c | c in consts
      ensures c in Range(order, |order|)
    {
      assert c in order;
    }
    forall c | c in Range(order, |order|)
      ensures c in consts
    {
      assert c in order;
    }
  }

  /** Any term over admitted constants reaches its full unfolding, without constants, by δ steps alone. */
  lemma {:induction false} UnfoldReached(consts: map<nat, ConstDecl>, order: seq<nat>, t: Tm) returns (ts: seq<Tm>)
    requires Dag(consts, order) && Consts(t) <= Range(order, |order|)
    ensures DeltaRun(consts, ts) && ts[0] == t && ts[|ts| - 1] == Unfold(consts, order, |order|, t)
    decreases Weight(consts, order, |order|, t)
  {
    hide Dag, Range, DeltaStep;
    WeightZero(consts, order, |order|, t);
    if Consts(t) == {} {
      ts := [t];
    } else {
      AllKnown(consts, order);
      var u := DeltaProgress(consts, t);
      StepMeasure(consts, order, |order|, t, u);
      var rest := UnfoldReached(consts, order, u);
      ts := [t] + rest;
      assert ts[1..] == rest;
    }
  }

  /** δ steps are steps of the kernel's reduction. */
  lemma {:induction false} DeltaReduces(env: GEnv, o: IndexOracle, ctx: Ctx, t: Tm, u: Tm)
    requires DeltaStep(env.consts, t, u)
    ensures Reduces(env, o, ctx, t, u)
    decreases Depth(t), 1
  {
    hide Reduces;
    match t
    case Const(c) => RedRule(env, o, ctx, DDelta(c, u));
    case Pi(a, b) => DeltaUnder(env, o, ctx, a, b, u.dom, u.cod);
    case Lam(a, b) => DeltaUnder(env, o, ctx, a, b, u.dom, u.body);
    case App(a, b) =>
      if u.arg == b && DeltaStep(env.consts, a, u.fn) {
        DeltaReduces(env, o, ctx, a, u.fn);
        RedRefl(env, o, ctx, b);
      } else {
        RedRefl(env, o, ctx, a);
        DeltaReduces(env, o, ctx, b, u.arg);
      }
      RedApp(env, o, ctx, a, u.fn, b, u.arg);
  }

  lemma {:induction false} DeltaUnder(env: GEnv, o: IndexOracle, ctx: Ctx, a: Tm, b: Tm, a': Tm, b': Tm)
    requires (DeltaStep(env.consts, a, a') && b' == b) || (a' == a && DeltaStep(env.consts, b, b'))
    ensures Reduces(env, o, ctx, Pi(a, b), Pi(a', b')) && Reduces(env, o, ctx, Lam(a, b), Lam(a', b'))
    decreases 1 + Depth(a) + Depth(b), 0
  {
    hide Reduces;
    if DeltaStep(env.consts, a, a') && b' == b {
      DeltaReduces(env, o, ctx, a, a');
      RedRefl(env, o, ctx + [a], b);
    } else {
      RedRefl(env, o, ctx, a);
      DeltaReduces(env, o, ctx + [a], b, b');
    }
    RedBind(env, o, ctx, a, a', b, b');
  }

  lemma {:induction false} DeltaRunReduces(env: GEnv, o: IndexOracle, ctx: Ctx, ts: seq<Tm>)
    requires DeltaRun(env.consts, ts)
    ensures Reduces(env, o, ctx, ts[0], ts[|ts| - 1])
    decreases |ts|
  {
    hide Reduces, DeltaStep;
    if |ts| == 1 {
      RedRefl(env, o, ctx, ts[0]);
    } else {
      DeltaReduces(env, o, ctx, ts[0], ts[1]);
      DeltaRunReduces(env, o, ctx, ts[1..]);
      RedTrans(env, o, ctx, ts[0], ts[1], ts[|ts| - 1]);
    }
  }

  /** The full unfolding is a reduct of the term. */
  lemma UnfoldReduces(env: GEnv, o: IndexOracle, ctx: Ctx, order: seq<nat>, t: Tm)
    requires Dag(env.consts, order) && Consts(t) <= Range(order, |order|)
    ensures Reduces(env, o, ctx, t, Unfold(env.consts, order, |order|, t))
  {
    hide Reduces, Dag, Range;
    var ts := UnfoldReached(env.consts, order, t);
    DeltaRunReduces(env, o, ctx, ts);
  }
}
