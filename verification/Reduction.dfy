/**
 The reduction relation the kernel's normalizer is judged against: β, δ, ι and η steps closed
 under congruence and transitivity, given by explicit derivations.
 */
module Reduction {
  import opened Common
  import opened Tms
  import opened Driver

  datatype Deriv =
    | DRefl(t: Tm)
    | DTrans(first: Deriv, second: Deriv)
    | DBeta(dom: Tm, body: Tm, arg: Tm)
    | DDelta(c: nat, def: Tm)
    | DIota(i: nat, k: nat, args: seq<Tm>, cargs: seq<Tm>, out: Tm)
    | DEta(dom: Tm, f: Tm)
    | DPi(d: Deriv, e: Deriv)
    | DLam(d: Deriv, e: Deriv)
    | DApp(d: Deriv, e: Deriv)

  function Src(d: Deriv): Tm {
    match d
    case DRefl(t) => t
    case DTrans(a, _) => Src(a)
    case DBeta(dom, body, arg) => App(Lam(dom, body), arg)
    case DDelta(c, _) => Const(c)
    case DIota(i, k, args, cargs, _) => App(Apply(Elim(i), args), Apply(Ctor(i, k), cargs))
    case DEta(dom, f) => Lam(dom, App(f, Var(0)))
    case DPi(a, b) => Pi(Src(a), Src(b))
    case DLam(a, b) => Lam(Src(a), Src(b))
    case DApp(a, b) => App(Src(a), Src(b))
  }

  function Dst(d: Deriv): Tm {
    match d
    case DRefl(t) => t
    case DTrans(_, b) => Dst(b)
    case DBeta(_, body, arg) => Subst(body, 0, arg)
    case DDelta(_, def) => def
    case DIota(_, _, _, _, out) => out
    case DEta(_, f) => Shift(f, -1, 0)
    case DPi(a, b) => Pi(Dst(a), Dst(b))
    case DLam(a, b) => Lam(Dst(a), Dst(b))
    case DApp(a, b) => App(Dst(a), Dst(b))
  }

  /** Each rule is applied correctly; under a binder the context grows by the binder's source domain. */
  predicate Valid(env: GEnv, o: IndexOracle, ctx: Ctx, d: Deriv)
    decreases d
  {
    match d
    case DRefl(_) => true
    case DTrans(a, b) => Valid(env, o, ctx, a) && Valid(env, o, ctx, b) && Dst(a) == Src(b)
    case DBeta(_, _, _) => true
    case DDelta(c, def) => c in env.consts && env.consts[c].body == def
    case DIota(i, k, args, cargs, out) =>
      && i in env.inds && k < |env.inds[i].ctors| && |args| + 1 == Arity(env.inds[i])
      && IotaContract(o, ctx, env.inds[i], i, k, args + [Apply(Ctor(i, k), cargs)], cargs) == Some(out)
    case DEta(_, f) => !Occurs(f, 0)
    case DPi(a, b) => Valid(env, o, ctx, a) && Valid(env, o, ctx + [Src(a)], b)
    case DLam(a, b) => Valid(env, o, ctx, a) && Valid(env, o, ctx + [Src(a)], b)
    case DApp(a, b) => Valid(env, o, ctx, a) && Valid(env, o, ctx, b)
  }

  ghost predicate Reduces(env: GEnv, o: IndexOracle, ctx: Ctx, t: Tm, u: Tm) {
    exists d :: Valid(env, o, ctx, d) && Src(d) == t && Dst(d) == u
  }

  /** Two terms with a common reduct. */
  ghost predicate Convertible(env: GEnv, o: IndexOracle, ctx: Ctx, t: Tm, u: Tm) {
    exists w :: Reduces(env, o, ctx, t, w) && Reduces(env, o, ctx, u, w)
  }

  lemma RedRefl(env: GEnv, o: IndexOracle, ctx: Ctx, t: Tm)
    ensures Reduces(env, o, ctx, t, t)
  {
    var d := DRefl(t);
    assert Valid(env, o, ctx, d) && Src(d) == t && Dst(d) == t;
  }

  lemma RedTrans(env: GEnv, o: IndexOracle, ctx: Ctx, t: Tm, u: Tm, v: Tm)
    requires Reduces(env, o, ctx, t, u) && Reduces(env, o, ctx, u, v)
    ensures Reduces(env, o, ctx, t, v)
  {
    var a :| Valid(env, o, ctx, a) && Src(a) == t && Dst(a) == u;
    var b :| Valid(env, o, ctx, b) && Src(b) == u && Dst(b) == v;
    var d := DTrans(a, b);
    assert Valid(env, o, ctx, d) && Src(d) == t && Dst(d) == v;
  }

  lemma RedApp(env: GEnv, o: IndexOracle, ctx: Ctx, f: Tm, f': Tm, x: Tm, x': Tm)
    requires Reduces(env, o, ctx, f, f') && Reduces(env, o, ctx, x, x')
    ensures Reduces(env, o, ctx, App(f, x), App(f', x'))
  {
    var a :| Valid(env, o, ctx, a) && Src(a) == f && Dst(a) == f';
    var b :| Valid(env, o, ctx, b) && Src(b) == x && Dst(b) == x';
    var d := DApp(a, b);
    assert Valid(env, o, ctx, d) && Src(d) == App(f, x) && Dst(d) == App(f', x');
  }

  lemma RedBind(env: GEnv, o: IndexOracle, ctx: Ctx, t: Tm, t': Tm, b: Tm, b': Tm)
    requires Reduces(env, o, ctx, t, t') && Reduces(env, o, ctx + [t], b, b')
    ensures Reduces(env, o, ctx, Lam(t, b), Lam(t', b')) && Reduces(env, o, ctx, Pi(t, b), Pi(t', b'))
  {
    var d :| Valid(env, o, ctx, d) && Src(d) == t && Dst(d) == t';
    var e :| Valid(env, o, ctx + [t], e) && Src(e) == b && Dst(e) == b';
    var l, p := DLam(d, e), DPi(d, e);
    assert Valid(env, o, ctx, l) && Src(l) == Lam(t, b) && Dst(l) == Lam(t', b');
    assert Valid(env, o, ctx, p) && Src(p) == Pi(t, b) && Dst(p) == Pi(t', b');
  }

  lemma RedRule(env: GEnv, o: IndexOracle, ctx: Ctx, d: Deriv)
    requires Valid(env, o, ctx, d)
    ensures Reduces(env, o, ctx, Src(d), Dst(d))
  {
  }

  lemma {:induction false} RedApply(env: GEnv, o: IndexOracle, ctx: Ctx, h: Tm, h': Tm, args: seq<Tm>)
    requires Reduces(env, o, ctx, h, h')
    ensures Reduces(env, o, ctx, Apply(h, args), Apply(h', args))
    decreases |args|
  {
    if args != [] {
      RedApply(env, o, ctx, h, h', args[..|args| - 1]);
      RedRefl(env, o, ctx, args[|args| - 1]);
      RedApp(env, o, ctx, Apply(h, args[..|args| - 1]), Apply(h', args[..|args| - 1]), args[|args| - 1],
          args[|args| - 1]);
    }
  }

  // ---------------------------------------------------------------------------------------------
  // Soundness of normalization

  /** Reducing the scrutinee and contracting is a sequence of steps on the recursor's spine. */
  lemma {:induction false} IotaSound(env: GEnv, o: IndexOracle, ctx: Ctx, i: nat, args: seq<Tm>, fuel: nat)
    requires TryIota(env, o, ctx, i, args, fuel).IFire?
    ensures Reduces(env, o, ctx, Apply(Elim(i), args), TryIota(env, o, ctx, i, args, fuel).t)
    decreases fuel, 2
  {
    var ind := env.inds[i];
    var n := Arity(ind);
    var scrut := Whnf(env, o, ctx, args[n - 1], fuel).value;
    WhnfSound(env, o, ctx, args[n - 1], fuel);
    var k, cargs := Head(scrut).k, Args(scrut);
    SpineApply(scrut);
    var pre, post := args[..n - 1], args[n..];
    IotaExtra(o, ctx, ind, i, k, args, scrut, cargs);
    var out := IotaContract(o, ctx, ind, i, k, pre + [scrut], cargs).value;
    IotaStep(env, o, ctx, i, k, pre, args[n - 1], scrut, cargs, out);
    RedApply(env, o, ctx, App(Apply(Elim(i), pre), args[n - 1]), out, post);
    assert args[..n] == pre + [args[n - 1]] && args[..n][..n - 1] == pre;
    assert Apply(Elim(i), args[..n]) == App(Apply(Elim(i), pre), args[n - 1]);
    assert args == args[..n] + post;
    ApplyConcat(Elim(i), args[..n], post);
  }

  lemma IotaStep(env: GEnv, o: IndexOracle, ctx: Ctx, i: nat, k: nat, pre: seq<Tm>, arg: Tm, scrut: Tm,
      cargs: seq<Tm>, out: Tm)
    requires Reduces(env, o, ctx, arg, scrut) && scrut == Apply(Ctor(i, k), cargs)
    requires i in env.inds && k < |env.inds[i].ctors| && |pre| + 1 == Arity(env.inds[i])
    requires IotaContract(o, ctx, env.inds[i], i, k, pre + [scrut], cargs) == Some(out)
    ensures Reduces(env, o, ctx, App(Apply(Elim(i), pre), arg), out)
  {
    hide IotaContract;
    RedRefl(env, o, ctx, Apply(Elim(i), pre));
    RedApp(env, o, ctx, Apply(Elim(i), pre), Apply(Elim(i), pre), arg, scrut);
    RedRule(env, o, ctx, DIota(i, k, pre, cargs, out));
    RedTrans(env, o, ctx, App(Apply(Elim(i), pre), arg), App(Apply(Elim(i), pre), scrut), out);
  }

  /** The contractum depends on the shared prefix only; extra arguments are re-applied. */
  lemma IotaExtra(o: IndexOracle, ctx: Ctx, ind: Inductive, i: nat, k: nat, args: seq<Tm>, scrut: Tm, cargs: seq<Tm>)
    requires |args| >= Arity(ind) && k < |ind.ctors|
    requires IotaContract(o, ctx, ind, i, k, args, cargs).Some?
    ensures
      var n := Arity(ind);
      var r := IotaContract(o, ctx, ind, i, k, args[..n - 1] + [scrut], cargs);
      r.Some? && IotaContract(o, ctx, ind, i, k, args, cargs).value == Apply(r.value, args[n..])
  {
    var n := Arity(ind);
    var short := args[..n - 1] + [scrut];
    var np := |ind.params|;
    assert short[..np + 1 + |ind.ctors|] == args[..np + 1 + |ind.ctors|];
    assert short[np + 1 + k] == args[np + 1 + k];
    assert short[n..] == [];
  }

  lemma {:induction false} WhnfSound(env: GEnv, o: IndexOracle, ctx: Ctx, t: Tm, fuel: nat)
    requires Whnf(env, o, ctx, t, fuel).Some?
    ensures Reduces(env, o, ctx, t, Whnf(env, o, ctx, t, fuel).value)
    decreases fuel, 1
  {
    var head, args := Head(t), Args(t);
    SpineApply(t);
    if head.Lam? && args != [] {
      var u := Apply(Subst(head.body, 0, args[0]), args[1..]);
      RedRule(env, o, ctx, DBeta(head.dom, head.body, args[0]));
      RedApply(env, o, ctx, App(head, args[0]), Subst(head.body, 0, args[0]), args[1..]);
      assert args == [args[0]] + args[1..];
      ApplyCons(head, args[0], args[1..]);
      WhnfSound(env, o, ctx, u, fuel - 1);
      RedTrans(env, o, ctx, t, u, Whnf(env, o, ctx, t, fuel).value);
    } else if head.Const? && head.c in env.consts {
      var def := env.consts[head.c].body;
      RedRule(env, o, ctx, DDelta(head.c, def));
      RedApply(env, o, ctx, head, def, args);
      WhnfSound(env, o, ctx, Apply(def, args), fuel - 1);
      RedTrans(env, o, ctx, t, Apply(def, args), Whnf(env, o, ctx, t, fuel).value);
    } else if head.Elim? && TryIota(env, o, ctx, head.id, args, fuel - 1).IFire? {
      var r := TryIota(env, o, ctx, head.id, args, fuel - 1).t;
      IotaSound(env, o, ctx, head.id, args, fuel - 1);
      WhnfSound(env, o, ctx, r, fuel - 1);
      RedTrans(env, o, ctx, t, r, Whnf(env, o, ctx, t, fuel).value);
    } else {
      RedRefl(env, o, ctx, t);
    }
  }

  // ---------------------------------------------------------------------------------------------
  // Completeness of weak-head normalization

  /** A head redex with the arguments that follow it. For ι the scrutinee is one that normalizes to a constructor. */
  datatype HeadRedex =
    | HBeta(dom: Tm, body: Tm, arg: Tm, rest: seq<Tm>)
    | HDelta(c: nat, rest: seq<Tm>)
    | HIota(i: nat, k: nat, pre: seq<Tm>, scrut: Tm, cargs: seq<Tm>, out: Tm, rest: seq<Tm>)

  function Redex(h: HeadRedex): Tm {
    match h
    case HBeta(dom, body, arg, rest) => Apply(App(Lam(dom, body), arg), rest)
    case HDelta(c, rest) => Apply(Const(c), rest)
    case HIota(i, _, pre, scrut, _, _, rest) => Apply(App(Apply(Elim(i), pre), scrut), rest)
  }

  function Contractum(env: GEnv, h: HeadRedex): Tm
    requires h.HDelta? ==> h.c in env.consts
  {
    match h
    case HBeta(_, body, arg, rest) => Apply(Subst(body, 0, arg), rest)
    case HDelta(c, rest) => Apply(env.consts[c].body, rest)
    case HIota(_, _, _, _, _, out, rest) => Apply(out, rest)
  }

  /** The redex is one of the environment; an ι redex has its scrutinee normalized with fuel `f`. */
  predicate Fires(env: GEnv, o: IndexOracle, ctx: Ctx, h: HeadRedex, f: nat) {
    match h
    case HBeta(_, _, _, _) => true
    case HDelta(c, _) => c in env.consts
    case HIota(i, k, pre, scrut, cargs, out, _) =>
      && Whnf(env, o, ctx, scrut, f) == Some(Apply(Ctor(i, k), cargs))
      && Valid(env, o, ctx, DIota(i, k, pre, cargs, out))
  }

  lemma RedexSpine(h: HeadRedex)
    ensures
      match h
      case HBeta(dom, body, arg, rest) => Head(Redex(h)) == Lam(dom, body) && Args(Redex(h)) == [arg] + rest
      case HDelta(c, rest) => Head(Redex(h)) == Const(c) && Args(Redex(h)) == rest
      case HIota(i, _, pre, scrut, _, _, rest) =>
        Head(Redex(h)) == Elim(i) && Args(Redex(h)) == pre + [scrut] + rest
  {
    match h
    case HBeta(dom, body, arg, rest) =>
      ApplySpine(App(Lam(dom, body), arg), rest);
      assert [] + [arg] == [arg];
    case HDelta(c, rest) => ApplySpine(Const(c), rest); assert [] + rest == rest;
    case HIota(i, _, pre, scrut, _, _, rest) =>
      ApplySpine(App(Apply(Elim(i), pre), scrut), rest);
      ApplySpine(Elim(i), pre);
      assert [] + pre == pre;
  }

  /** ι fires on every constructor: the recursor's spine steps to the contractum with the extra arguments. */
  lemma IotaFiresAt(env: GEnv, o: IndexOracle, ctx: Ctx, h: HeadRedex, f: nat, g: nat)
    requires h.HIota? && Fires(env, o, ctx, h, f) && f <= g
    ensures TryIota(env, o, ctx, h.i, h.pre + [h.scrut] + h.rest, g) == IFire(Contractum(env, h))
  {
    var ind, args := env.inds[h.i], h.pre + [h.scrut] + h.rest;
    var n, c := Arity(ind), Apply(Ctor(h.i, h.k), h.cargs);
    WhnfFuel(env, o, ctx, h.scrut, f, g);
    ApplySpine(Ctor(h.i, h.k), h.cargs);
    assert [] + h.cargs == h.cargs;
    assert args[n - 1] == h.scrut && args[n..] == h.rest;
    var np := |ind.params|;
    var short := h.pre + [c];
    assert args[..np + 1 + |ind.ctors|] == short[..np + 1 + |ind.ctors|];
    assert args[np + 1 + h.k] == short[np + 1 + h.k] && short[n..] == [];
  }

  function Most(f: nat, g: nat): nat { if f <= g then g else f }

  /** Every head redex is contracted: a redex has the weak-head normal form of its contractum. */
  lemma WhnfFires(env: GEnv, o: IndexOracle, ctx: Ctx, h: HeadRedex, f: nat, g: nat)
    requires Fires(env, o, ctx, h, f) && Whnf(env, o, ctx, Contractum(env, h), g).Some?
    ensures Whnf(env, o, ctx, Redex(h), Most(f, g) + 1) == Whnf(env, o, ctx, Contractum(env, h), g)
  {
    hide TryIota, Valid;
    RedexSpine(h);
    var m := Most(f, g);
    WhnfFuel(env, o, ctx, Contractum(env, h), g, m);
    match h
    case HBeta(_, _, arg, rest) => assert ([arg] + rest)[1..] == rest;
    case HDelta(_, _) =>
    case HIota(_, _, _, _, _, _, _) => IotaFiresAt(env, o, ctx, h, f, m);
  }

  /** A term that normalizes to itself has no head redex. */
  lemma {:induction false} NoHeadStep(env: GEnv, o: IndexOracle, ctx: Ctx, w: Tm, h: nat)
    requires Whnf(env, o, ctx, w, h) == Some(w)
    ensures
      && !(Head(w).Lam? && Args(w) != []) && !(Head(w).Const? && Head(w).c in env.consts)
      && (Head(w).Elim? ==> TryIota(env, o, ctx, Head(w).id, Args(w), h - 1).IStuck?)
    decreases h
  {
    hide TryIota;
    var head, args := Head(w), Args(w);
    if head.Lam? && args != [] {
      WhnfIdem(env, o, ctx, Apply(Subst(head.body, 0, args[0]), args[1..]), h - 1);
      NoHeadStep(env, o, ctx, w, h - 1);
    } else if head.Const? && head.c in env.consts {
      WhnfIdem(env, o, ctx, Apply(env.consts[head.c].body, args), h - 1);
      NoHeadStep(env, o, ctx, w, h - 1);
    } else if head.Elim? {
      match TryIota(env, o, ctx, head.id, args, h - 1)
      case IFire(r) =>
        WhnfIdem(env, o, ctx, r, h - 1);
        NoHeadStep(env, o, ctx, w, h - 1);
        IotaFuel(env, o, ctx, head.id, args, h - 2, h - 1);
      case _ =>
    }
  }

  /** An answer has no head redex left, at any scrutinee fuel. */
  lemma WhnfStops(env: GEnv, o: IndexOracle, ctx: Ctx, t: Tm, f: nat, h: HeadRedex, g: nat)
    requires Whnf(env, o, ctx, t, f).Some? && Fires(env, o, ctx, h, g)
    ensures Whnf(env, o, ctx, t, f).value != Redex(h)
  {
    hide TryIota, Whnf, Valid;
    var w := Whnf(env, o, ctx, t, f).value;
    WhnfIdem(env, o, ctx, t, f);
    WhnfFuel(env, o, ctx, w, f, Most(f, g + 1));
    NoHeadStep(env, o, ctx, w, Most(f, g + 1));
    RedexSpine(h);
    if h.HIota? { IotaFiresAt(env, o, ctx, h, g, Most(f, g + 1) - 1); }
  }

  /** A term without a head redex, whose scrutinee normalizes if it is a saturated recursor, is its own answer. */
  lemma WhnfRests(env: GEnv, o: IndexOracle, ctx: Ctx, t: Tm, f: nat)
    requires forall h: HeadRedex, g: nat :: Fires(env, o, ctx, h, g) ==> Redex(h) != t
    requires
      Head(t).Elim? && Head(t).id in env.inds && |Args(t)| >= Arity(env.inds[Head(t).id]) ==>
        Whnf(env, o, ctx, Args(t)[Arity(env.inds[Head(t).id]) - 1], f).Some?
    ensures Whnf(env, o, ctx, t, f + 1) == Some(t)
  {
    hide Redex, Fires, TryIota;
    SpineApply(t);
    var head, args := Head(t), Args(t);
    if head.Lam? && args != [] {
      BetaAt(env, o, ctx, t);
    } else if head.Const? && head.c in env.consts {
      DeltaAt(env, o, ctx, t);
    } else if head.Elim? {
      IotaAt(env, o, ctx, t, f);
      IotaDeep(env, o, ctx, head.id, args, f);
    }
  }

  lemma IotaDeep(env: GEnv, o: IndexOracle, ctx: Ctx, i: nat, args: seq<Tm>, f: nat)
    ensures TryIota(env, o, ctx, i, args, f).IDeep? ==>
      i in env.inds && |args| >= Arity(env.inds[i]) && Whnf(env, o, ctx, args[Arity(env.inds[i]) - 1], f).None?
  {
    hide Whnf, IotaContract;
  }

  lemma SaturatedSpine(i: nat, args: seq<Tm>, n: nat)
    requires 0 < n <= |args|
    ensures Apply(Elim(i), args) == Apply(App(Apply(Elim(i), args[..n - 1]), args[n - 1]), args[n..])
  {
    assert args[..n] == args[..n - 1] + [args[n - 1]] && args[..n][..n - 1] == args[..n - 1];
    assert args == args[..n] + args[n..];
    ApplyConcat(Elim(i), args[..n], args[n..]);
  }

  lemma BetaAt(env: GEnv, o: IndexOracle, ctx: Ctx, t: Tm)
    requires Head(t).Lam? && Args(t) != []
    ensures exists h: HeadRedex, g: nat :: Fires(env, o, ctx, h, g) && Redex(h) == t
  {
    SpineApply(t);
    var args := Args(t);
    var h := HBeta(Head(t).dom, Head(t).body, args[0], args[1..]);
    assert args == [args[0]] + args[1..];
    ApplyCons(Head(t), args[0], args[1..]);
    assert Fires(env, o, ctx, h, 0) && Redex(h) == t;
  }

  lemma DeltaAt(env: GEnv, o: IndexOracle, ctx: Ctx, t: Tm)
    requires Head(t).Const? && Head(t).c in env.consts
    ensures exists h: HeadRedex, g: nat :: Fires(env, o, ctx, h, g) && Redex(h) == t
  {
    SpineApply(t);
    var h := HDelta(Head(t).c, Args(t));
    assert Fires(env, o, ctx, h, 0) && Redex(h) == t;
  }

  /** Where ι fires in the normalizer, the spine is a redex. */
  lemma IotaAt(env: GEnv, o: IndexOracle, ctx: Ctx, t: Tm, f: nat)
    requires Head(t).Elim?
    ensures TryIota(env, o, ctx, Head(t).id, Args(t), f).IFire? ==>
      exists h: HeadRedex, g: nat :: Fires(env, o, ctx, h, g) && Redex(h) == t
  {
    hide Whnf, IotaContract, Apply;
    var i, args := Head(t).id, Args(t);
    if TryIota(env, o, ctx, i, args, f).IFire? {
      var ind := env.inds[i];
      var n := Arity(ind);
      var scrut := Whnf(env, o, ctx, args[n - 1], f).value;
      SpineApply(scrut);
      SpineApply(t);
      SaturatedSpine(i, args, n);
      IotaExtra(o, ctx, ind, i, Head(scrut).k, args, scrut, Args(scrut));
      var pre := args[..n - 1];
      var out := IotaContract(o, ctx, ind, i, Head(scrut).k, pre + [scrut], Args(scrut)).value;
      var h := HIota(i, Head(scrut).k, pre, args[n - 1], Args(scrut), out, args[n..]);
      assert Fires(env, o, ctx, h, f) && Redex(h) == t;
    }
  }

  // ---------------------------------------------------------------------------------------------
  // Soundness of full normalization

  /** Whenever normalization answers, the answer is reached by β, δ, ι and η steps. */
  lemma {:induction false} NfSound(env: GEnv, o: IndexOracle, ctx: Ctx, t: Tm, fuel: nat)
    requires Nf(env, o, ctx, t, fuel).Some?
    ensures Reduces(env, o, ctx, t, Nf(env, o, ctx, t, fuel).value)
    decreases fuel
  {
    hide Whnf, Reduces;
    var w := Whnf(env, o, ctx, t, fuel).value;
    var r := Nf(env, o, ctx, t, fuel).value;
    WhnfSound(env, o, ctx, t, fuel);
    match w
    case Lam(d, b) =>
      NfSound(env, o, ctx, d, fuel - 1);
      NfSound(env, o, ctx + [d], b, fuel - 1);
      var body := Nf(env, o, ctx + [d], b, fuel - 1).value;
      if EtaBody(body) {
        RedRefl(env, o, ctx, d);
        RedBind(env, o, ctx, d, d, b, body);
        RedRule(env, o, ctx, DEta(d, body.fn));
        RedTrans(env, o, ctx, w, Lam(d, body), r);
      } else {
        RedBind(env, o, ctx, d, Nf(env, o, ctx, d, fuel - 1).value, b, body);
      }
      RedTrans(env, o, ctx, t, w, r);
    case Pi(d, b) =>
      NfSound(env, o, ctx, d, fuel - 1);
      NfSound(env, o, ctx + [d], b, fuel - 1);
      RedBind(env, o, ctx, d, Nf(env, o, ctx, d, fuel - 1).value, b, Nf(env, o, ctx + [d], b, fuel - 1).value);
      RedTrans(env, o, ctx, t, w, r);
    case App(f, x) =>
      NfSound(env, o, ctx, f, fuel - 1);
      NfSound(env, o, ctx, x, fuel - 1);
      RedApp(env, o, ctx, f, Nf(env, o, ctx, f, fuel - 1).value, x, Nf(env, o, ctx, x, fuel - 1).value);
      RedTrans(env, o, ctx, t, w, r);
    case _ =>
  }

  /** Equal normal forms mean convertible terms. */
  lemma EqualNormalFormsConvert(env: GEnv, o: IndexOracle, ctx: Ctx, t: Tm, u: Tm, f: nat, g: nat)
    requires Nf(env, o, ctx, t, f).Some? && Nf(env, o, ctx, t, f) == Nf(env, o, ctx, u, g)
    ensures Convertible(env, o, ctx, t, u)
  {
    NfSound(env, o, ctx, t, f);
    NfSound(env, o, ctx, u, g);
  }

  // ---------------------------------------------------------------------------------------------
  // Normal forms

  predicate ElimFree(t: Tm) {
    match t
    case Elim(_) => false
    case Pi(a, b) => ElimFree(a) && ElimFree(b)
    case Lam(a, b) => ElimFree(a) && ElimFree(b)
    case App(f, x) => ElimFree(f) && ElimFree(x)
    case _ => true
  }

  predicate EnvElimFree(env: GEnv) {
    forall c :: c in env.consts ==> ElimFree(env.consts[c].body)
  }

  /** No β, δ or η redex anywhere. */
  predicate Normal(env: GEnv, t: Tm) {
    match t
    case Const(c) => c !in env.consts
    case Pi(a, b) => Normal(env, a) && Normal(env, b)
    case Lam(a, b) => Normal(env, a) && Normal(env, b) && !EtaBody(b)
    case App(f, x) => !f.Lam? && Normal(env, f) && Normal(env, x)
    case _ => true
  }

  /** The head cannot be contracted, whatever the arguments. */
  predicate Neutral(env: GEnv, t: Tm) {
    var h := Head(t);
    !h.Lam? && !h.Elim? && !(h.Const? && h.c in env.consts)
  }

  lemma {:induction false} ElimFreeShift(t: Tm, d: int, c: nat)
    ensures ElimFree(Shift(t, d, c)) == ElimFree(t)
    decreases t
  {
    match t
    case Pi(a, b) => ElimFreeShift(a, d, c); ElimFreeShift(b, d, c + 1);
    case Lam(a, b) => ElimFreeShift(a, d, c); ElimFreeShift(b, d, c + 1);
    case App(f, x) => ElimFreeShift(f, d, c); ElimFreeShift(x, d, c);
    case _ =>
  }

  lemma {:induction false} ElimFreeSubst(t: Tm, j: nat, arg: Tm)
    requires ElimFree(t) && ElimFree(arg)
    ensures ElimFree(Subst(t, j, arg))
    decreases t
  {
    match t
    case Var(_) => ElimFreeShift(arg, j, 0);
    case Pi(a, b) => ElimFreeSubst(a, j, arg); ElimFreeSubst(b, j + 1, arg);
    case Lam(a, b) => ElimFreeSubst(a, j, arg); ElimFreeSubst(b, j + 1, arg);
    case App(f, x) => ElimFreeSubst(f, j, arg); ElimFreeSubst(x, j, arg);
    case _ =>
  }

  predicate AllElimFree(s: seq<Tm>) {
    forall i :: 0 <= i < |s| ==> ElimFree(s[i])
  }

  lemma {:induction false} ElimFreeSpine(t: Tm)
    ensures ElimFree(t) <==> ElimFree(Head(t)) && AllElimFree(Args(t))
    decreases t
  {
    if t.App? {
      ElimFreeSpine(t.fn);
      assert Args(t)[|Args(t.fn)|] == t.arg;
      assert forall i :: 0 <= i < |Args(t.fn)| ==> Args(t)[i] == Args(t.fn)[i];
    }
  }

  lemma ElimFreeApply(h: Tm, args: seq<Tm>)
    requires ElimFree(h) && AllElimFree(args)
    ensures ElimFree(Apply(h, args))
  {
    ElimFreeSpine(h);
    ApplySpine(h, args);
    ElimFreeSpine(Apply(h, args));
  }

  /** On terms without recursors, weak-head normalization stops at a λ or a neutral term. */
  lemma {:induction false} WhnfElimFree(env: GEnv, o: IndexOracle, ctx: Ctx, t: Tm, fuel: nat)
    requires EnvElimFree(env) && ElimFree(t) && Whnf(env, o, ctx, t, fuel).Some?
    ensures var w := Whnf(env, o, ctx, t, fuel).value; ElimFree(w) && (w.Lam? || Neutral(env, w))
    decreases fuel
  {
    var head, args := Head(t), Args(t);
    ElimFreeSpine(t);
    if head.Lam? && args != [] {
      assert ElimFree(args[0]) && ElimFree(head.body);
      ElimFreeSubst(head.body, 0, args[0]);
      ElimFreeApply(Subst(head.body, 0, args[0]), args[1..]);
      WhnfElimFree(env, o, ctx, Apply(Subst(head.body, 0, args[0]), args[1..]), fuel - 1);
    } else if head.Const? && head.c in env.consts {
      ElimFreeApply(env.consts[head.c].body, args);
      WhnfElimFree(env, o, ctx, Apply(env.consts[head.c].body, args), fuel - 1);
    }
  }

  /** A neutral term normalizes to a term that is not a λ. */
  lemma {:induction false} NeutralNf(env: GEnv, o: IndexOracle, ctx: Ctx, t: Tm, fuel: nat)
    requires Neutral(env, t) && Nf(env, o, ctx, t, fuel).Some?
    ensures !Nf(env, o, ctx, t, fuel).value.Lam?
  {
  }

  /** Lowering the indices above an absent variable keeps occurrences of the others. */
  lemma {:induction false} OccursUnshift(t: Tm, c: nat, k: nat)
    requires k < c && !Occurs(t, c)
    ensures Occurs(Shift(t, -1, c), k) == Occurs(t, k)
    decreases t
  {
    match t
    case Pi(a, b) => OccursUnshift(a, c, k); OccursUnshift(b, c + 1, k + 1);
    case Lam(a, b) => OccursUnshift(a, c, k); OccursUnshift(b, c + 1, k + 1);
    case App(f, x) => OccursUnshift(f, c, k); OccursUnshift(x, c, k);
    case _ =>
  }

  lemma {:induction false} NormalUnshift(env: GEnv, t: Tm, c: nat)
    requires Normal(env, t) && !Occurs(t, c)
    ensures Normal(env, Shift(t, -1, c))
    decreases t
  {
    match t
    case Pi(a, b) => NormalUnshift(env, a, c); NormalUnshift(env, b, c + 1);
    case Lam(a, b) =>
      NormalUnshift(env, a, c);
      NormalUnshift(env, b, c + 1);
      if b.App? {
        OccursUnshift(b.fn, c + 1, 0);
        assert !Occurs(b, c + 1) && !Occurs(b.arg, c + 1);
        assert Shift(b, -1, c + 1) == App(Shift(b.fn, -1, c + 1), Shift(b.arg, -1, c + 1));
        match b.arg
        case Var(i) => assert i != c + 1; assert Shift(b.arg, -1, c + 1) == Var(if i > c then i - 1 else i);
        case _ =>
      }
    case App(f, x) => NormalUnshift(env, f, c); NormalUnshift(env, x, c);
    case _ =>
  }

  /** On terms without recursors, normalization reaches a β-, δ- and η-normal form. */
  lemma {:induction false} NfNormal(env: GEnv, o: IndexOracle, ctx: Ctx, t: Tm, fuel: nat)
    requires EnvElimFree(env) && ElimFree(t) && Nf(env, o, ctx, t, fuel).Some?
    ensures var r := Nf(env, o, ctx, t, fuel).value; Normal(env, r) && ElimFree(r)
    decreases fuel
  {
    WhnfElimFree(env, o, ctx, t, fuel);
    match Whnf(env, o, ctx, t, fuel).value
    case Lam(d, b) =>
      NfNormal(env, o, ctx, d, fuel - 1);
      NfNormal(env, o, ctx + [d], b, fuel - 1);
      var body := Nf(env, o, ctx + [d], b, fuel - 1).value;
      if EtaBody(body) {
        NormalUnshift(env, body.fn, 0);
        ElimFreeShift(body.fn, -1, 0);
      }
    case Pi(d, b) =>
      NfNormal(env, o, ctx, d, fuel - 1);
      NfNormal(env, o, ctx + [d], b, fuel - 1);
    case App(f, x) =>
      NfNormal(env, o, ctx, f, fuel - 1);
      NfNormal(env, o, ctx, x, fuel - 1);
      NeutralNf(env, o, ctx, f, fuel - 1);
    case _ =>
  }

  function Depth(t: Tm): nat {
    match t
    case Pi(a, b) => 1 + Depth(a) + Depth(b)
    case Lam(a, b) => 1 + Depth(a) + Depth(b)
    case App(f, x) => 1 + Depth(f) + Depth(x)
    case _ => 1
  }

  lemma {:induction false} NormalNeutral(env: GEnv, t: Tm)
    requires Normal(env, t) && ElimFree(t)
    ensures t.Lam? || Neutral(env, t)
    decreases t
  {
    if t.App? { NormalNeutral(env, t.fn); }
  }

  lemma NeutralWhnf(env: GEnv, o: IndexOracle, ctx: Ctx, t: Tm, fuel: nat)
    requires (t.Lam? || Neutral(env, t)) && fuel > 0
    ensures Whnf(env, o, ctx, t, fuel) == Some(t)
  {
  }

  /** A normal form is left alone. */
  lemma {:induction false} NormalFixed(env: GEnv, o: IndexOracle, ctx: Ctx, t: Tm, fuel: nat)
    requires Normal(env, t) && ElimFree(t) && fuel >= Depth(t)
    ensures Nf(env, o, ctx, t, fuel) == Some(t)
    decreases t
  {
    hide Whnf;
    NormalNeutral(env, t);
    NeutralWhnf(env, o, ctx, t, fuel);
    match t
    case Pi(a, b) => NormalFixed(env, o, ctx, a, fuel - 1); NormalFixed(env, o, ctx + [a], b, fuel - 1);
    case Lam(a, b) => NormalFixed(env, o, ctx, a, fuel - 1); NormalFixed(env, o, ctx + [a], b, fuel - 1);
    case App(f, x) => NormalFixed(env, o, ctx, f, fuel - 1); NormalFixed(env, o, ctx, x, fuel - 1);
    case _ =>
  }

  /** Normalization is idempotent on terms without recursors. */
  lemma NfIdempotent(env: GEnv, o: IndexOracle, ctx: Ctx, t: Tm, f: nat, g: nat)
    requires EnvElimFree(env) && ElimFree(t) && Nf(env, o, ctx, t, f).Some?
    requires g >= Depth(Nf(env, o, ctx, t, f).value)
    ensures Nf(env, o, ctx, Nf(env, o, ctx, t, f).value, g) == Nf(env, o, ctx, t, f)
  {
    NfNormal(env, o, ctx, t, f);
    NormalFixed(env, o, ctx, Nf(env, o, ctx, t, f).value, g);
  }
}
