/** Reduction is stable under substitution, and normalization commutes with renaming. */
module Stability {
  import opened Common
  import opened Tms
  import opened TmCalculus
  import opened Driver
  import opened Reduction

  ghost predicate ClosedConsts(env: GEnv) {
    forall c :: c in env.consts ==> Scoped(env.consts[c].body, 0)
  }

  predicate Recursive(tele: seq<Tm>, i: nat) {
    exists p :: 0 <= p < |tele| && HeadIsInd(tele[p], i)
  }

  /** ι on family `i` asks type inference for the indices of a recursive field. */
  predicate Asks(ind: Inductive, i: nat) {
    |ind.indices| > 0 && exists k :: 0 <= k < |ind.ctors| && Recursive(ind.ctors[k].args, i)
  }

  /** ι never consults type inference: no indexed family is recursive. */
  ghost predicate NeverAsks(env: GEnv) {
    forall i :: i in env.inds ==> !Asks(env.inds[i], i)
  }

  function InstDoms(doms: seq<Tm>, s: Substitution): (r: seq<Tm>)
    ensures |r| == |doms|
    decreases |doms|
  {
    if doms == [] then [] else [Inst(doms[0], s)] + InstDoms(doms[1..], Up(s))
  }

  function Ups(u: Substitution, d: nat): Substitution
    decreases d
  {
    if d == 0 then u else Ups(Up(u), d - 1)
  }

  /** The inferred indices of the field `f`, under the further binders `doms`, commute with `u`. */
  ghost predicate EquivariantAt(o: IndexOracle, i: nat, ctx: Ctx, ctx': Ctx, u: Substitution, doms: seq<Tm>, f: Tm) {
    o(ctx' + InstDoms(doms, u), i, Inst(f, Ups(u, |doms|))) == InstSome(o(ctx + doms, i, f), Ups(u, |doms|))
  }

  /**
   What the environment and type inference owe a substitution `u` from `ctx` to `ctx'`: constants
   are closed, and where ι asks for indices the inferred ones commute with `u` under any binders.
   */
  ghost predicate Steady(env: GEnv, o: IndexOracle, ctx: Ctx, ctx': Ctx, u: Substitution) {
    && ClosedConsts(env)
    && forall i, doms, f :: i in env.inds && Asks(env.inds[i], i) ==> EquivariantAt(o, i, ctx, ctx', u, doms, f)
  }

  /** Where ι never asks, every substitution is as good as any other. */
  lemma NeverAsksSteady(env: GEnv, o: IndexOracle, ctx: Ctx, ctx': Ctx, u: Substitution)
    requires ClosedConsts(env) && NeverAsks(env)
    ensures Steady(env, o, ctx, ctx', u)
  {
  }

  lemma SteadyUnder(env: GEnv, o: IndexOracle, ctx: Ctx, ctx': Ctx, u: Substitution, d: Tm)
    requires Steady(env, o, ctx, ctx', u)
    ensures Steady(env, o, ctx + [d], ctx' + [Inst(d, u)], Up(u))
  {
    hide Asks, ClosedConsts;
    forall i, doms, f | i in env.inds && Asks(env.inds[i], i)
      ensures EquivariantAt(o, i, ctx + [d], ctx' + [Inst(d, u)], Up(u), doms, f)
    {
      var more := [d] + doms;
      assert EquivariantAt(o, i, ctx, ctx', u, more, f);
      assert more[1..] == doms && ctx + more == ctx + [d] + doms;
      assert ctx' + InstDoms(more, u) == ctx' + [Inst(d, u)] + InstDoms(doms, Up(u));
    }
  }

  lemma {:induction false} UpsExt(doms: seq<Tm>, u: Substitution, v: Substitution)
    requires forall i: nat :: u(i) == v(i)
    ensures InstDoms(doms, u) == InstDoms(doms, v) && forall i: nat :: Ups(u, |doms|)(i) == Ups(v, |doms|)(i)
    decreases |doms|
  {
    if doms != [] {
      InstExt(doms[0], u, v);
      UpsExt(doms[1..], Up(u), Up(v));
    }
  }

  lemma SteadyExt(env: GEnv, o: IndexOracle, ctx: Ctx, ctx': Ctx, u: Substitution, v: Substitution)
    requires Steady(env, o, ctx, ctx', u) && forall i: nat :: u(i) == v(i)
    ensures Steady(env, o, ctx, ctx', v)
  {
    hide Asks, ClosedConsts;
    forall i, doms, f | i in env.inds && Asks(env.inds[i], i)
      ensures EquivariantAt(o, i, ctx, ctx', v, doms, f)
    {
      assert EquivariantAt(o, i, ctx, ctx', u, doms, f);
      UpsExt(doms, u, v);
      InstExt(f, Ups(u, |doms|), Ups(v, |doms|));
      InstSomeExt(o(ctx + doms, i, f), Ups(u, |doms|), Ups(v, |doms|));
    }
  }

  lemma InstSomeExt(t: Option<seq<Tm>>, u: Substitution, v: Substitution)
    requires forall i: nat :: u(i) == v(i)
    ensures InstSome(t, u) == InstSome(t, v)
  {
    if t.Some? {
      forall k | 0 <= k < |t.value|
        ensures InstAll(t.value, u)[k] == InstAll(t.value, v)[k]
      {
        InstExt(t.value[k], u, v);
      }
      assert InstAll(t.value, u) == InstAll(t.value, v);
    }
  }

  function InstSome(t: Option<seq<Tm>>, u: Substitution): Option<seq<Tm>> {
    if t.Some? then Some(InstAll(t.value, u)) else None
  }

  function InstAll(s: seq<Tm>, u: Substitution): seq<Tm> {
    seq(|s|, i requires 0 <= i < |s| => Inst(s[i], u))
  }

  lemma {:induction false} InstApply(h: Tm, args: seq<Tm>, u: Substitution)
    ensures Inst(Apply(h, args), u) == Apply(Inst(h, u), InstAll(args, u))
    decreases |args|
  {
    if args != [] {
      InstApply(h, args[..|args| - 1], u);
      assert InstAll(args, u)[..|args| - 1] == InstAll(args[..|args| - 1], u);
    }
  }

  lemma InstClosed(t: Tm, u: Substitution)
    requires Scoped(t, 0)
    ensures Inst(t, u) == t
  {
    InstScoped(t, 0, u, IdS());
    IdInst(t);
  }

  // ---------------------------------------------------------------------------------------------
  // ι commutes with substitution

  /** The indices ι puts into a hypothesis commute with `u`. */
  ghost predicate FieldsCommute(o: IndexOracle, ctx: Ctx, ctx': Ctx, ind: Inductive, i: nat, u: Substitution) {
    forall f :: FieldIndices(o, ctx', ind, i, Inst(f, u)) == InstSome(FieldIndices(o, ctx, ind, i, f), u)
  }

  lemma SteadyFields(env: GEnv, o: IndexOracle, ctx: Ctx, ctx': Ctx, i: nat, k: nat, u: Substitution)
    requires Steady(env, o, ctx, ctx', u) && i in env.inds && k < |env.inds[i].ctors|
    ensures Recursive(env.inds[i].ctors[k].args, i) ==> FieldsCommute(o, ctx, ctx', env.inds[i], i, u)
  {
    hide Recursive;
    if Recursive(env.inds[i].ctors[k].args, i) {
      assert InstAll([], u) == [];
      forall f
        ensures FieldIndices(o, ctx', env.inds[i], i, Inst(f, u)) ==
          InstSome(FieldIndices(o, ctx, env.inds[i], i, f), u)
      {
        if |env.inds[i].indices| > 0 {
          assert EquivariantAt(o, i, ctx, ctx', u, [], f);
          assert ctx + [] == ctx && ctx' + InstDoms([], u) == ctx';
        }
      }
    }
  }

  lemma {:induction false} HypothesesInst(o: IndexOracle, ctx: Ctx, ctx': Ctx, ind: Inductive, i: nat,
      tele: seq<Tm>, prefix: seq<Tm>, fields: seq<Tm>, pos: nat, u: Substitution)
    requires pos <= |tele| && (Recursive(tele, i) ==> FieldsCommute(o, ctx, ctx', ind, i, u))
    ensures
      var h := Hypotheses(o, ctx, ind, i, tele, prefix, fields, pos);
      Hypotheses(o, ctx', ind, i, tele, InstAll(prefix, u), InstAll(fields, u), pos) == if h.Some?
          then Some(InstAll(h.value, u)) else None
    decreases |tele| - pos
  {
    if pos < |tele| {
      HypothesesInst(o, ctx, ctx', ind, i, tele, prefix, fields, pos + 1, u);
      if HeadIsInd(tele[pos], i) && pos < |fields| {
        var rest := Hypotheses(o, ctx, ind, i, tele, prefix, fields, pos + 1);
        assert Recursive(tele, i);
        var idx := FieldIndices(o, ctx, ind, i, fields[pos]);
        if idx.Some? && rest.Some? {
          InstApply(Elim(i), prefix, u);
          InstApply(Apply(Elim(i), prefix), idx.value, u);
          var h := Hypothesis(i, prefix, idx.value, fields[pos]);
          assert Inst(h, u) == Hypothesis(i, InstAll(prefix, u), InstAll(idx.value, u), InstAll(fields, u)[pos]);
          assert InstAll([h] + rest.value, u) == [Inst(h, u)] + InstAll(rest.value, u);
        }
      }
    } else {
      assert InstAll([], u) == [];
    }
  }

  lemma IotaContractInst(o: IndexOracle, ctx: Ctx, ctx': Ctx, ind: Inductive, i: nat, k: nat, args: seq<Tm>,
      cargs: seq<Tm>, u: Substitution)
    requires |args| >= Arity(ind) && k < |ind.ctors|
    requires Recursive(ind.ctors[k].args, i) ==> FieldsCommute(o, ctx, ctx', ind, i, u)
    ensures
      var r := IotaContract(o, ctx, ind, i, k, args, cargs);
      IotaContract(o, ctx', ind, i, k, InstAll(args, u), InstAll(cargs, u)) == if r.Some? then Some(Inst(r.value, u))
          else None
  {
    hide Recursive, FieldsCommute;
    var np := |ind.params|;
    var fields := cargs[Min(np, |cargs|)..];
    var prefix := args[..np + 1 + |ind.ctors|];
    var args', cargs' := InstAll(args, u), InstAll(cargs, u);
    assert cargs'[Min(np, |cargs'|)..] == InstAll(fields, u);
    assert args'[..np + 1 + |ind.ctors|] == InstAll(prefix, u);
    assert args'[Arity(ind)..] == InstAll(args[Arity(ind)..], u);
    HypothesesInst(o, ctx, ctx', ind, i, ind.ctors[k].args, prefix, fields, 0, u);
    var h := Hypotheses(o, ctx, ind, i, ind.ctors[k].args, prefix, fields, 0);
    if h.Some? {
      InstApply(args[np + 1 + k], fields, u);
      InstApply(Apply(args[np + 1 + k], fields), h.value, u);
      InstApply(Apply(Apply(args[np + 1 + k], fields), h.value), args[Arity(ind)..], u);
    }
  }

  // ---------------------------------------------------------------------------------------------
  // Reduction is stable under substitution

  lemma SubstInst(b: Tm, a: Tm, u: Substitution)
    ensures Subst(Inst(b, Up(u)), 0, Inst(a, u)) == Inst(Subst(b, 0, a), u)
  {
    hide Inst, Subst;
    var both := Composed(SubstS(0, a), u);
    SubstIsInst(b, 0, a);
    SubstIsInst(Inst(b, Up(u)), 0, Inst(a, u));
    InstInst(b, SubstS(0, a), u, both);
    forall i: nat
      ensures both(i) == Inst(Up(u)(i), SubstS(0, Inst(a, u)))
    {
      SubstInstAt(a, u, i);
    }
    InstInst(b, Up(u), SubstS(0, Inst(a, u)), both);
  }

  lemma LiftIsShift(t: Tm)
    ensures Lift(t) == Shift(t, 1, 0)
  {
    ShiftIsRen(t, 1, 0);
    RenExt(t, ShiftR(1, 0), Succ());
  }

  lemma SubstInstAt(a: Tm, u: Substitution, i: nat)
    ensures Inst(SubstS(0, a)(i), u) == Inst(Up(u)(i), SubstS(0, Inst(a, u)))
  {
    ShiftZero(a);
    ShiftZero(Inst(a, u));
    if i > 0 {
      LiftIsShift(u(i - 1));
      SubstIsInst(Shift(u(i - 1), 1, 0), 0, Inst(a, u));
      SubstShiftCancels(u(i - 1), 0, Inst(a, u));
    }
  }

  /** η-contraction commutes with substitution. */
  lemma EtaInst(f: Tm, u: Substitution)
    requires !Occurs(f, 0)
    ensures !Occurs(Inst(f, Up(u)), 0)
    ensures Shift(Inst(f, Up(u)), -1, 0) == Inst(Shift(f, -1, 0), u)
  {
    var g := Shift(f, -1, 0);
    UnshiftShift(f, 0);
    LiftIsShift(g);
    LiftInst(g, u);
    LiftIsShift(Inst(g, u));
    ShiftOccurs(Inst(g, u), 0);
    ShiftUnshift(Inst(g, u), 0);
  }

  function InstD(d: Deriv, u: Substitution): Deriv
    decreases d
  {
    match d
    case DRefl(t) => DRefl(Inst(t, u))
    case DTrans(a, b) => DTrans(InstD(a, u), InstD(b, u))
    case DBeta(dom, body, arg) => DBeta(Inst(dom, u), Inst(body, Up(u)), Inst(arg, u))
    case DDelta(_, _) => d
    case DIota(i, k, args, cargs, out) => DIota(i, k, InstAll(args, u), InstAll(cargs, u), Inst(out, u))
    case DEta(dom, f) => DEta(Inst(dom, u), Inst(f, Up(u)))
    case DPi(a, b) => DPi(InstD(a, u), InstD(b, Up(u)))
    case DLam(a, b) => DLam(InstD(a, u), InstD(b, Up(u)))
    case DApp(a, b) => DApp(InstD(a, u), InstD(b, u))
  }

  lemma {:induction false} InstDerivation(env: GEnv, o: IndexOracle, ctx: Ctx, ctx': Ctx, d: Deriv, u: Substitution)
    requires Steady(env, o, ctx, ctx', u) && Valid(env, o, ctx, d)
    ensures Valid(env, o, ctx', InstD(d, u)) && Src(InstD(d, u)) == Inst(Src(d), u) &&
      Dst(InstD(d, u)) == Inst(Dst(d), u)
    decreases d
  {
    hide Asks, EquivariantAt;
    match d
    case DRefl(_) =>
    case DTrans(a, b) => InstDerivation(env, o, ctx, ctx', a, u); InstDerivation(env, o, ctx, ctx', b, u);
    case DBeta(dom, body, arg) => SubstInst(body, arg, u);
    case DDelta(c, def) => InstClosed(def, u);
    case DIota(i, k, args, cargs, out) => InstIota(env, o, ctx, ctx', i, k, args, cargs, out, u);
    case DEta(dom, f) =>
      EtaInst(f, u);
      assert Inst(App(f, Var(0)), Up(u)) == App(Inst(f, Up(u)), Var(0));
    case DPi(a, b) =>
      InstDerivation(env, o, ctx, ctx', a, u);
      SteadyUnder(env, o, ctx, ctx', u, Src(a));
      InstDerivation(env, o, ctx + [Src(a)], ctx' + [Src(InstD(a, u))], b, Up(u));
    case DLam(a, b) =>
      InstDerivation(env, o, ctx, ctx', a, u);
      SteadyUnder(env, o, ctx, ctx', u, Src(a));
      InstDerivation(env, o, ctx + [Src(a)], ctx' + [Src(InstD(a, u))], b, Up(u));
    case DApp(a, b) => InstDerivation(env, o, ctx, ctx', a, u); InstDerivation(env, o, ctx, ctx', b, u);
  }

  lemma InstIota(env: GEnv, o: IndexOracle, ctx: Ctx, ctx': Ctx, i: nat, k: nat, args: seq<Tm>, cargs: seq<Tm>,
      out: Tm, u: Substitution)
    requires Steady(env, o, ctx, ctx', u) && Valid(env, o, ctx, DIota(i, k, args, cargs, out))
    ensures
      var d := DIota(i, k, args, cargs, out);
      Valid(env, o, ctx', InstD(d, u)) && Src(InstD(d, u)) == Inst(Src(d), u) && Dst(InstD(d, u)) == Inst(Dst(d), u)
  {
    hide IotaContract, Steady;
    SteadyFields(env, o, ctx, ctx', i, k, u);
    var c := Apply(Ctor(i, k), cargs);
    InstApply(Ctor(i, k), cargs, u);
    InstApply(Elim(i), args, u);
    assert InstAll(args + [c], u) == InstAll(args, u) + [Inst(c, u)];
    IotaContractInst(o, ctx, ctx', env.inds[i], i, k, args + [c], cargs, u);
  }

  /** Reduction is stable under any simultaneous substitution. */
  lemma ReducesInst(env: GEnv, o: IndexOracle, ctx: Ctx, ctx': Ctx, t: Tm, t': Tm, u: Substitution)
    requires Steady(env, o, ctx, ctx', u) && Reduces(env, o, ctx, t, t')
    ensures Reduces(env, o, ctx', Inst(t, u), Inst(t', u))
  {
    var d :| Valid(env, o, ctx, d) && Src(d) == t && Dst(d) == t';
    InstDerivation(env, o, ctx, ctx', d, u);
    RedRule(env, o, ctx', InstD(d, u));
  }

  lemma ReducesShift(env: GEnv, o: IndexOracle, ctx: Ctx, ctx': Ctx, t: Tm, t': Tm, d: nat, c: nat)
    requires Steady(env, o, ctx, ctx', ShiftS(d, c)) && Reduces(env, o, ctx, t, t')
    ensures Reduces(env, o, ctx', Shift(t, d, c), Shift(t', d, c))
  {
    ReducesInst(env, o, ctx, ctx', t, t', ShiftS(d, c));
    ShiftIsInst(t, d, c);
    ShiftIsInst(t', d, c);
  }

  lemma ReducesSubst(env: GEnv, o: IndexOracle, ctx: Ctx, ctx': Ctx, t: Tm, t': Tm, j: nat, arg: Tm)
    requires Steady(env, o, ctx, ctx', SubstS(j, arg)) && Reduces(env, o, ctx, t, t')
    ensures Reduces(env, o, ctx', Subst(t, j, arg), Subst(t', j, arg))
  {
    ReducesInst(env, o, ctx, ctx', t, t', SubstS(j, arg));
    SubstIsInst(t, j, arg);
    SubstIsInst(t', j, arg);
  }

  // ---------------------------------------------------------------------------------------------
  // Normalization commutes with renaming

  function RenS(r: Renaming): Substitution { (i: nat) => Var(r(i)) }

  lemma UpRenS(r: Renaming)
    ensures forall i: nat :: Up(RenS(r))(i) == RenS(UpRen(r))(i)
  {
    forall i: nat
      ensures Up(RenS(r))(i) == RenS(UpRen(r))(i)
    {
      if i > 0 { LiftVar(r(i - 1)); }
    }
  }

  /** Renaming keeps the shape of a term, so it keeps its spine. */
  lemma {:induction false} RenSpine(t: Tm, r: Renaming)
    ensures Head(Inst(t, RenS(r))) == Inst(Head(t), RenS(r))
    ensures Args(Inst(t, RenS(r))) == InstAll(Args(t), RenS(r))
    decreases t
  {
    if t.App? {
      RenSpine(t.fn, r);
      assert InstAll(Args(t), RenS(r)) == InstAll(Args(t.fn), RenS(r)) + [Inst(t.arg, RenS(r))];
    } else {
      assert InstAll([], RenS(r)) == [];
    }
  }

  function InstOpt(t: Option<Tm>, u: Substitution): Option<Tm> {
    if t.Some? then Some(Inst(t.value, u)) else None
  }

  function InstIotaOut(t: Iota, u: Substitution): Iota {
    if t.IFire? then IFire(Inst(t.t, u)) else t
  }

  lemma {:induction false} WhnfRen(env: GEnv, o: IndexOracle, ctx: Ctx, ctx': Ctx, t: Tm, r: Renaming, fuel: nat)
    requires Steady(env, o, ctx, ctx', RenS(r))
    ensures Whnf(env, o, ctx', Inst(t, RenS(r)), fuel) == InstOpt(Whnf(env, o, ctx, t, fuel), RenS(r))
    decreases fuel, 1
  {
    hide TryIota, Subst, Apply, EquivariantAt;
    if fuel > 0 {
      var u := RenS(r);
      var head, args := Head(t), Args(t);
      RenSpine(t, r);
      SpineApply(t);
      if head.Lam? && args != [] {
        var next := Apply(Subst(head.body, 0, args[0]), args[1..]);
        SubstInst(head.body, args[0], u);
        InstApply(Subst(head.body, 0, args[0]), args[1..], u);
        assert InstAll(args, u)[1..] == InstAll(args[1..], u);
        WhnfRen(env, o, ctx, ctx', next, r, fuel - 1);
      } else if head.Const? && head.c in env.consts {
        var def := env.consts[head.c].body;
        InstClosed(def, u);
        InstApply(def, args, u);
        WhnfRen(env, o, ctx, ctx', Apply(def, args), r, fuel - 1);
      } else if head.Elim? {
        IotaRen(env, o, ctx, ctx', head.id, args, r, fuel - 1);
        match TryIota(env, o, ctx, head.id, args, fuel - 1)
        case IFire(out) => WhnfRen(env, o, ctx, ctx', out, r, fuel - 1);
        case _ =>
      }
    }
  }

  lemma {:induction false} IotaRen(env: GEnv, o: IndexOracle, ctx: Ctx, ctx': Ctx, i: nat, args: seq<Tm>,
      r: Renaming, fuel: nat)
    requires Steady(env, o, ctx, ctx', RenS(r))
    ensures TryIota(env, o, ctx', i, InstAll(args, RenS(r)), fuel) ==
      InstIotaOut(TryIota(env, o, ctx, i, args, fuel), RenS(r))
    decreases fuel, 2
  {
    hide IotaContract, Whnf, Steady;
    if i in env.inds && |args| >= Arity(env.inds[i]) {
      var ind := env.inds[i];
      WhnfRen(env, o, ctx, ctx', args[Arity(ind) - 1], r, fuel);
      var s := Whnf(env, o, ctx, args[Arity(ind) - 1], fuel);
      if s.Some? {
        RenSpine(s.value, r);
        SpineApply(s.value);
        var h := Head(s.value);
        if h.Ctor? && h.id == i && h.k < |ind.ctors| {
          SteadyFields(env, o, ctx, ctx', i, h.k, RenS(r));
          IotaContractInst(o, ctx, ctx', ind, i, h.k, args, Args(s.value), RenS(r));
        }
      }
    }
  }

  lemma {:induction false} OccursRen(t: Tm, r: Renaming, k: nat)
    requires forall i: nat :: r(i) == k <==> i == k
    ensures Occurs(Inst(t, RenS(r)), k) == Occurs(t, k)
    decreases t
  {
    match t
    case Pi(a, b) => OccursRen(a, r, k); UpRenS(r); InstExt(b, Up(RenS(r)), RenS(UpRen(r)));
      OccursRen(b, UpRen(r), k + 1);
    case Lam(a, b) => OccursRen(a, r, k); UpRenS(r); InstExt(b, Up(RenS(r)), RenS(UpRen(r)));
      OccursRen(b, UpRen(r), k + 1);
    case App(f, x) => OccursRen(f, r, k); OccursRen(x, r, k);
    case _ =>
  }

  /** The η test does not depend on how outer variables are named. */
  lemma EtaRen(body: Tm, r: Renaming)
    ensures EtaBody(Inst(body, RenS(UpRen(r)))) == EtaBody(body)
    ensures EtaBody(body) ==> Shift(Inst(body, RenS(UpRen(r))).fn, -1, 0) == Inst(Shift(body.fn, -1, 0), RenS(r))
  {
    if body.App? {
      OccursRen(body.fn, UpRen(r), 0);
      if EtaBody(body) {
        EtaInst(body.fn, RenS(r));
        UpRenS(r);
        InstExt(body.fn, Up(RenS(r)), RenS(UpRen(r)));
      }
    }
  }

  /** Normalization commutes with renaming, through η-contraction included. */
  lemma {:induction false} NfRen(env: GEnv, o: IndexOracle, ctx: Ctx, ctx': Ctx, t: Tm, r: Renaming, fuel: nat)
    requires Steady(env, o, ctx, ctx', RenS(r))
    ensures Nf(env, o, ctx', Inst(t, RenS(r)), fuel) == InstOpt(Nf(env, o, ctx, t, fuel), RenS(r))
    decreases fuel, 0
  {
    hide Whnf, Steady, EtaBody;
    if fuel > 0 {
      var u := RenS(r);
      WhnfRen(env, o, ctx, ctx', t, r, fuel);
      if Whnf(env, o, ctx, t, fuel).Some? {
        match Whnf(env, o, ctx, t, fuel).value
        case Lam(d, b) => NfRenLam(env, o, ctx, ctx', t, d, b, r, fuel);
        case Pi(d, b) =>
          NfRenUnder(env, o, ctx, ctx', d, b, r, fuel - 1);
          var cod := Nf(env, o, ctx + [d], b, fuel - 1);
          if cod.Some? { NfRenBody(cod.value, r); }
        case App(f, x) =>
          NfRen(env, o, ctx, ctx', f, r, fuel - 1);
          NfRen(env, o, ctx, ctx', x, r, fuel - 1);
        case _ =>
      }
    }
  }

  lemma {:induction false} NfRenLam(env: GEnv, o: IndexOracle, ctx: Ctx, ctx': Ctx, t: Tm, d: Tm, b: Tm,
      r: Renaming, fuel: nat)
    requires Steady(env, o, ctx, ctx', RenS(r)) && fuel > 0 && Whnf(env, o, ctx, t, fuel) == Some(Lam(d, b))
    requires Whnf(env, o, ctx', Inst(t, RenS(r)), fuel) == Some(Inst(Lam(d, b), RenS(r)))
    ensures Nf(env, o, ctx', Inst(t, RenS(r)), fuel) == InstOpt(Nf(env, o, ctx, t, fuel), RenS(r))
    decreases fuel - 1, 2
  {
    hide Whnf, Steady, EtaBody;
    NfRenUnder(env, o, ctx, ctx', d, b, r, fuel - 1);
    var body := Nf(env, o, ctx + [d], b, fuel - 1);
    if body.Some? { NfRenBody(body.value, r); }
  }

  /** A normalized body: η-contraction and the renaming under the binder. */
  lemma NfRenBody(body: Tm, r: Renaming)
    ensures Inst(body, Up(RenS(r))) == Inst(body, RenS(UpRen(r)))
    ensures EtaBody(Inst(body, RenS(UpRen(r)))) == EtaBody(body)
    ensures EtaBody(body) ==> Shift(Inst(body, RenS(UpRen(r))).fn, -1, 0) == Inst(Shift(body.fn, -1, 0), RenS(r))
  {
    hide Inst, Shift, EtaBody;
    EtaRen(body, r);
    UpRenS(r);
    InstExt(body, Up(RenS(r)), RenS(UpRen(r)));
  }

  lemma {:induction false} NfRenUnder(env: GEnv, o: IndexOracle, ctx: Ctx, ctx': Ctx, d: Tm, b: Tm, r: Renaming,
      fuel: nat)
    requires Steady(env, o, ctx, ctx', RenS(r))
    ensures Nf(env, o, ctx', Inst(d, RenS(r)), fuel) == InstOpt(Nf(env, o, ctx, d, fuel), RenS(r))
    ensures Nf(env, o, ctx' + [Inst(d, RenS(r))], Inst(b, Up(RenS(r))), fuel) ==
      InstOpt(Nf(env, o, ctx + [d], b, fuel), RenS(UpRen(r)))
    decreases fuel, 1
  {
    hide Steady;
    NfRen(env, o, ctx, ctx', d, r, fuel);
    UpRenS(r);
    SteadyUnder(env, o, ctx, ctx', RenS(r), d);
    SteadyExt(env, o, ctx + [d], ctx' + [Inst(d, RenS(r))], Up(RenS(r)), RenS(UpRen(r)));
    InstExt(b, Up(RenS(r)), RenS(UpRen(r)));
    NfRen(env, o, ctx + [d], ctx' + [Inst(d, RenS(r))], b, UpRen(r), fuel);
  }

  /** Weak-head and full normalization commute with shift. */
  lemma NormalizationShift(env: GEnv, o: IndexOracle, ctx: Ctx, ctx': Ctx, t: Tm, d: nat, c: nat, fuel: nat)
    requires Steady(env, o, ctx, ctx', ShiftS(d, c))
    ensures Whnf(env, o, ctx, t, fuel).Some? ==>
      Whnf(env, o, ctx', Shift(t, d, c), fuel) == Some(Shift(Whnf(env, o, ctx, t, fuel).value, d, c))
    ensures Nf(env, o, ctx, t, fuel).Some? ==>
      Nf(env, o, ctx', Shift(t, d, c), fuel) == Some(Shift(Nf(env, o, ctx, t, fuel).value, d, c))
    ensures Nf(env, o, ctx, t, fuel).None? ==> Nf(env, o, ctx', Shift(t, d, c), fuel).None?
  {
    hide Whnf, Nf, Shift, Inst;
    var r := ShiftR(d, c);
    SteadyExt(env, o, ctx, ctx', ShiftS(d, c), RenS(r));
    WhnfRen(env, o, ctx, ctx', t, r, fuel);
    NfRen(env, o, ctx, ctx', t, r, fuel);
    RenShift(t, d, c);
    if Whnf(env, o, ctx, t, fuel).Some? { RenShift(Whnf(env, o, ctx, t, fuel).value, d, c); }
    if Nf(env, o, ctx, t, fuel).Some? { RenShift(Nf(env, o, ctx, t, fuel).value, d, c); }
  }

  lemma RenShift(t: Tm, d: nat, c: nat)
    ensures Inst(t, RenS(ShiftR(d, c))) == Shift(t, d, c)
  {
    ShiftIsInst(t, d, c);
    InstExt(t, RenS(ShiftR(d, c)), ShiftS(d, c));
  }

  // ---------------------------------------------------------------------------------------------
  // Where ι never asks for indices, normalization ignores the context

  lemma {:induction false} HypothesesContext(o: IndexOracle, ctx: Ctx, ctx': Ctx, ind: Inductive, i: nat,
      tele: seq<Tm>, prefix: seq<Tm>, fields: seq<Tm>, pos: nat)
    requires pos <= |tele| && (|ind.indices| == 0 || !Recursive(tele, i))
    ensures Hypotheses(o, ctx, ind, i, tele, prefix, fields, pos) ==
      Hypotheses(o, ctx', ind, i, tele, prefix, fields, pos)
    decreases |tele| - pos
  {
    if pos < |tele| { HypothesesContext(o, ctx, ctx', ind, i, tele, prefix, fields, pos + 1); }
  }

  lemma {:induction false} WhnfContext(env: GEnv, o: IndexOracle, ctx: Ctx, ctx': Ctx, t: Tm, fuel: nat)
    requires NeverAsks(env)
    ensures Whnf(env, o, ctx, t, fuel) == Whnf(env, o, ctx', t, fuel)
    decreases fuel, 1
  {
    hide NeverAsks, TryIota;
    if fuel > 0 {
      var head, args := Head(t), Args(t);
      if head.Lam? && args != [] {
        WhnfContext(env, o, ctx, ctx', Apply(Subst(head.body, 0, args[0]), args[1..]), fuel - 1);
      } else if head.Const? && head.c in env.consts {
        WhnfContext(env, o, ctx, ctx', Apply(env.consts[head.c].body, args), fuel - 1);
      } else if head.Elim? {
        IotaContext(env, o, ctx, ctx', head.id, args, fuel - 1);
        match TryIota(env, o, ctx, head.id, args, fuel - 1)
        case IFire(out) => WhnfContext(env, o, ctx, ctx', out, fuel - 1);
        case _ =>
      }
    }
  }

  lemma {:induction false} IotaContext(env: GEnv, o: IndexOracle, ctx: Ctx, ctx': Ctx, i: nat, args: seq<Tm>, fuel: nat)
    requires NeverAsks(env)
    ensures TryIota(env, o, ctx, i, args, fuel) == TryIota(env, o, ctx', i, args, fuel)
    decreases fuel, 2
  {
    hide Whnf, Recursive;
    if i in env.inds && |args| >= Arity(env.inds[i]) {
      var ind := env.inds[i];
      WhnfContext(env, o, ctx, ctx', args[Arity(ind) - 1], fuel);
      var s := Whnf(env, o, ctx, args[Arity(ind) - 1], fuel);
      if s.Some? && Head(s.value).Ctor? && Head(s.value).k < |ind.ctors| {
        var np := |ind.params|;
        assert !Asks(ind, i);
        HypothesesContext(o, ctx, ctx', ind, i, ind.ctors[Head(s.value).k].args, args[..np + 1 + |ind.ctors|],
            Args(s.value)[Min(np, |Args(s.value)|)..], 0);
      }
    }
  }

  lemma {:induction false} NormalizationContext(env: GEnv, o: IndexOracle, ctx: Ctx, ctx': Ctx, t: Tm, fuel: nat)
    requires NeverAsks(env)
    ensures Whnf(env, o, ctx, t, fuel) == Whnf(env, o, ctx', t, fuel)
    ensures Nf(env, o, ctx, t, fuel) == Nf(env, o, ctx', t, fuel)
    decreases fuel
  {
    hide NeverAsks, Whnf;
    WhnfContext(env, o, ctx, ctx', t, fuel);
    if fuel > 0 && Whnf(env, o, ctx, t, fuel).Some? {
      match Whnf(env, o, ctx, t, fuel).value
      case Lam(d, b) =>
        NormalizationContext(env, o, ctx, ctx', d, fuel - 1);
        NormalizationContext(env, o, ctx + [d], ctx' + [d], b, fuel - 1);
      case Pi(d, b) =>
        NormalizationContext(env, o, ctx, ctx', d, fuel - 1);
        NormalizationContext(env, o, ctx + [d], ctx' + [d], b, fuel - 1);
      case App(f, x) =>
        NormalizationContext(env, o, ctx, ctx', f, fuel - 1);
        NormalizationContext(env, o, ctx, ctx', x, fuel - 1);
      case _ =>
    }
  }
}
