/** Strict positivity of constructor arguments, decided lazily by weak-head normalizing node by node. */
module Positivity {
  import opened Common
  import opened Tms
  import opened Driver
  import opened Reduction
  import opened Stability

  /** Does the inductive `i` occur in `t`, each node being reduced first? */
  function OccursInd(env: GEnv, o: IndexOracle, i: nat, t: Tm, fuel: nat): Option<bool>
    decreases fuel
  {
    if fuel == 0 then None else
    match Whnf(env, o, [], t, fuel)
    case None => None
    case Some(w) =>
      match w
      case Ind(j) => Some(j == i)
      case Pi(a, b) => Either(OccursInd(env, o, i, a, fuel - 1), OccursInd(env, o, i, b, fuel - 1))
      case Lam(a, b) => Either(OccursInd(env, o, i, a, fuel - 1), OccursInd(env, o, i, b, fuel - 1))
      case App(a, b) => Either(OccursInd(env, o, i, a, fuel - 1), OccursInd(env, o, i, b, fuel - 1))
      case _ => Some(false)
  }

  /** Short-circuit disjunction of possibly diverging tests. */
  function Either(a: Option<bool>, b: Option<bool>): Option<bool> {
    if a == Some(false) then b else a
  }

  /** The inductive applied to arguments free of it. */
  function ValidIndApp(env: GEnv, o: IndexOracle, i: nat, t: Tm, fuel: nat): Option<bool> {
    if t.App? then
      match OccursInd(env, o, i, t.arg, fuel)
      case None => None
      case Some(yes) => if yes then Some(false) else ValidIndApp(env, o, i, t.fn, fuel)
    else Some(t == Ind(i))
  }

  /** The loop that walks the spine from its last argument to its head. */
  method WalkSpine(env: GEnv, o: IndexOracle, i: nat, t: Tm, fuel: nat) returns (r: Option<bool>)
    ensures r == ValidIndApp(env, o, i, t, fuel)
  {
    var head := t;
    while head.App?
      invariant ValidIndApp(env, o, i, head, fuel) == ValidIndApp(env, o, i, t, fuel)
      decreases head
    {
      match OccursInd(env, o, i, head.arg, fuel)
      case None => return None;
      case Some(yes) =>
        if yes { return Some(false); }
      head := head.fn;
    }
    return Some(head == Ind(i));
  }

  function StrictlyPositive(env: GEnv, o: IndexOracle, i: nat, t: Tm, fuel: nat): Option<bool>
    decreases fuel
  {
    if fuel == 0 then None else
    match Whnf(env, o, [], t, fuel)
    case None => None
    case Some(w) =>
      if w.Pi? then
        match OccursInd(env, o, i, w.dom, fuel)
        case None => None
        case Some(yes) => if yes then Some(false) else StrictlyPositive(env, o, i, w.cod, fuel - 1)
      else
        match OccursInd(env, o, i, w, fuel)
        case None => None
        case Some(yes) => if yes then ValidIndApp(env, o, i, w, fuel) else Some(true)
  }

  // ---------------------------------------------------------------------------------------------
  // Agreement with the normal form

  predicate Mentions(i: nat, t: Tm) {
    match t
    case Ind(j) => j == i
    case Pi(a, b) => Mentions(i, a) || Mentions(i, b)
    case Lam(a, b) => Mentions(i, a) || Mentions(i, b)
    case App(a, b) => Mentions(i, a) || Mentions(i, b)
    case _ => false
  }

  /** The inductive applied to arguments that do not mention it. */
  predicate IndApp(i: nat, t: Tm) {
    if t.App? then IndApp(i, t.fn) && !Mentions(i, t.arg) else t == Ind(i)
  }

  /** A Π-telescope whose domains do not mention `i` and whose end is free of `i` or `i` properly applied. */
  predicate PositiveShape(i: nat, t: Tm) {
    if t.Pi? then !Mentions(i, t.dom) && PositiveShape(i, t.cod)
    else !Mentions(i, t) || IndApp(i, t)
  }

  lemma {:induction false} MentionsShift(i: nat, t: Tm, d: int, c: nat)
    ensures Mentions(i, Shift(t, d, c)) == Mentions(i, t)
    decreases t
  {
    match t
    case Pi(a, b) => MentionsShift(i, a, d, c); MentionsShift(i, b, d, c + 1);
    case Lam(a, b) => MentionsShift(i, a, d, c); MentionsShift(i, b, d, c + 1);
    case App(a, b) => MentionsShift(i, a, d, c); MentionsShift(i, b, d, c);
    case _ =>
  }

  // The test answers by the normal form without η

  /** The normal form that keeps every λ, in the empty context the test reduces in. */
  function Bnf(env: GEnv, o: IndexOracle, t: Tm, fuel: nat): Option<Tm>
    decreases fuel
  {
    if fuel == 0 then None else
    match Whnf(env, o, [], t, fuel)
    case None => None
    case Some(w) =>
      match w
      case Pi(d, b) => Both(Bnf(env, o, d, fuel - 1), Bnf(env, o, b, fuel - 1), (x: Tm, y: Tm) => Pi(x, y))
      case Lam(d, b) => Both(Bnf(env, o, d, fuel - 1), Bnf(env, o, b, fuel - 1), (x: Tm, y: Tm) => Lam(x, y))
      case App(f, x) => Both(Bnf(env, o, f, fuel - 1), Bnf(env, o, x, fuel - 1), (x: Tm, y: Tm) => App(x, y))
      case _ => Some(w)
  }

  function Both(a: Option<Tm>, b: Option<Tm>, make: (Tm, Tm) -> Tm): Option<Tm> {
    if a.Some? && b.Some? then Some(make(a.value, b.value)) else None
  }

  /** The lazy occurrence test is occurrence in that normal form. */
  lemma {:induction false} OccursExact(env: GEnv, o: IndexOracle, i: nat, t: Tm, f: nat, g: nat)
    requires OccursInd(env, o, i, t, f).Some? && Bnf(env, o, t, g).Some?
    ensures OccursInd(env, o, i, t, f).value == Mentions(i, Bnf(env, o, t, g).value)
    decreases f, 0
  {
    hide Whnf;
    WhnfAgree(env, o, [], t, f, g);
    match Whnf(env, o, [], t, f).value
    case Pi(a, b) => OccursHalf(env, o, i, a, f - 1, g - 1); OccursHalf(env, o, i, b, f - 1, g - 1);
    case Lam(a, b) => OccursHalf(env, o, i, a, f - 1, g - 1); OccursHalf(env, o, i, b, f - 1, g - 1);
    case App(a, b) => OccursHalf(env, o, i, a, f - 1, g - 1); OccursHalf(env, o, i, b, f - 1, g - 1);
    case _ =>
  }

  lemma {:induction false} OccursHalf(env: GEnv, o: IndexOracle, i: nat, t: Tm, f: nat, g: nat)
    requires Bnf(env, o, t, g).Some?
    ensures OccursInd(env, o, i, t, f).Some? ==>
      OccursInd(env, o, i, t, f).value == Mentions(i, Bnf(env, o, t, g).value)
    decreases f, 1
  {
    if OccursInd(env, o, i, t, f).Some? { OccursExact(env, o, i, t, f, g); }
  }

  /** No head step: whenever weak-head normalization answers, it answers the term. */
  ghost predicate Stuck(env: GEnv, o: IndexOracle, ctx: Ctx, t: Tm) {
    forall g: nat :: Whnf(env, o, ctx, t, g).Some? ==> Whnf(env, o, ctx, t, g).value == t
  }

  lemma WhnfIsStuck(env: GEnv, o: IndexOracle, ctx: Ctx, t: Tm, f: nat)
    requires Whnf(env, o, ctx, t, f).Some?
    ensures Stuck(env, o, ctx, Whnf(env, o, ctx, t, f).value)
  {
    hide Whnf;
    var w := Whnf(env, o, ctx, t, f).value;
    WhnfIdem(env, o, ctx, t, f);
    forall g: nat | Whnf(env, o, ctx, w, g).Some?
      ensures Whnf(env, o, ctx, w, g).value == w
    {
      WhnfAgree(env, o, ctx, w, f, g);
    }
  }

  /** Dropping the last argument of a stuck spine leaves it stuck. */
  lemma StuckFn(env: GEnv, o: IndexOracle, ctx: Ctx, w: Tm, h: nat)
    requires w.App? && Stuck(env, o, ctx, w) && Whnf(env, o, ctx, w, h).Some?
    ensures Stuck(env, o, ctx, w.fn)
  {
    hide TryIota;
    NoHeadStep(env, o, ctx, w, h);
    forall g: nat | Whnf(env, o, ctx, w.fn, g).Some?
      ensures Whnf(env, o, ctx, w.fn, g).value == w.fn
    {
      if Head(w).Elim? { StuckIota(env, o, ctx, Head(w).id, Args(w.fn), w.arg, h - 1, g - 1); }
    }
  }

  lemma StuckIota(env: GEnv, o: IndexOracle, ctx: Ctx, i: nat, args: seq<Tm>, x: Tm, f: nat, g: nat)
    requires TryIota(env, o, ctx, i, args + [x], f).IStuck?
    ensures !TryIota(env, o, ctx, i, args, g).IFire?
  {
    hide Whnf, IotaContract;
    if i in env.inds && |args| >= Arity(env.inds[i]) {
      var ind := env.inds[i];
      var scrut := Whnf(env, o, ctx, args[Arity(ind) - 1], g);
      if scrut.Some? {
        WhnfAgree(env, o, ctx, args[Arity(ind) - 1], f, g);
        var h := Head(scrut.value);
        if h.Ctor? && h.id == i && h.k < |ind.ctors| { ContractMore(o, ctx, ind, i, h.k, args, x, Args(scrut.value)); }
      }
    }
  }

  lemma ContractMore(o: IndexOracle, ctx: Ctx, ind: Inductive, i: nat, k: nat, args: seq<Tm>, x: Tm, cargs: seq<Tm>)
    requires |args| >= Arity(ind) && k < |ind.ctors|
    ensures IotaContract(o, ctx, ind, i, k, args, cargs).Some? <==>
      IotaContract(o, ctx, ind, i, k, args + [x], cargs).Some?
  {
    var n := |ind.params| + 1 + |ind.ctors|;
    assert (args + [x])[..n] == args[..n];
  }

  /** On a stuck spine the validity test is the shape of the normal form. */
  lemma {:induction false} ValidExact(env: GEnv, o: IndexOracle, i: nat, t: Tm, f: nat, g: nat)
    requires Stuck(env, o, [], t) && ValidIndApp(env, o, i, t, f).Some? && Bnf(env, o, t, g).Some?
    ensures ValidIndApp(env, o, i, t, f).value == IndApp(i, Bnf(env, o, t, g).value)
    decreases t
  {
    hide Whnf, OccursInd;
    if t.App? {
      OccursExact(env, o, i, t.arg, f, g - 1);
      if ValidIndApp(env, o, i, t.fn, f).Some? && OccursInd(env, o, i, t.arg, f) == Some(false) {
        StuckFn(env, o, [], t, g);
        ValidExact(env, o, i, t.fn, f, g - 1);
      }
    }
  }

  /** The lazy positivity test answers exactly whether the normal form without η is positive. */
  lemma {:induction false} PositivityExact(env: GEnv, o: IndexOracle, i: nat, t: Tm, f: nat, g: nat)
    requires StrictlyPositive(env, o, i, t, f).Some? && Bnf(env, o, t, g).Some?
    ensures StrictlyPositive(env, o, i, t, f).value == PositiveShape(i, Bnf(env, o, t, g).value)
    decreases f
  {
    hide Whnf, OccursInd, ValidIndApp, Stuck;
    WhnfAgree(env, o, [], t, f, g);
    var w := Whnf(env, o, [], t, f).value;
    if w.Pi? {
      OccursExact(env, o, i, w.dom, f, g - 1);
      if OccursInd(env, o, i, w.dom, f) == Some(false) { PositivityExact(env, o, i, w.cod, f - 1, g - 1); }
    } else {
      WhnfIdem(env, o, [], t, g);
      WhnfIsStuck(env, o, [], t, g);
      assert Bnf(env, o, w, g) == Bnf(env, o, t, g);
      OccursExact(env, o, i, w, f, g);
      if OccursInd(env, o, i, w, f) == Some(true) {
        ValidExact(env, o, i, w, f, g);
      } else {
        FreeShape(i, Bnf(env, o, t, g).value);
      }
    }
  }

  /** The occurrence test answers wherever the normal form without η does, with that fuel or more. */
  lemma {:induction false} OccursAnswers(env: GEnv, o: IndexOracle, i: nat, t: Tm, g: nat, f: nat)
    requires Bnf(env, o, t, g).Some? && g <= f
    ensures OccursInd(env, o, i, t, f).Some?
    decreases g
  {
    hide Whnf;
    WhnfFuel(env, o, [], t, g, f);
    match Whnf(env, o, [], t, g).value
    case Pi(a, b) => OccursAnswers(env, o, i, a, g - 1, f - 1); OccursAnswers(env, o, i, b, g - 1, f - 1);
    case Lam(a, b) => OccursAnswers(env, o, i, a, g - 1, f - 1); OccursAnswers(env, o, i, b, g - 1, f - 1);
    case App(a, b) => OccursAnswers(env, o, i, a, g - 1, f - 1); OccursAnswers(env, o, i, b, g - 1, f - 1);
    case _ =>
  }

  lemma {:induction false} ValidAnswers(env: GEnv, o: IndexOracle, i: nat, t: Tm, g: nat, f: nat)
    requires Stuck(env, o, [], t) && Bnf(env, o, t, g).Some? && g <= f
    ensures ValidIndApp(env, o, i, t, f).Some?
    decreases t
  {
    hide Whnf, OccursInd;
    if t.App? {
      OccursAnswers(env, o, i, t.arg, g - 1, f);
      StuckFn(env, o, [], t, g);
      ValidAnswers(env, o, i, t.fn, g - 1, f);
    }
  }

  /** The positivity test answers wherever the normal form without η does, and decides its shape. */
  lemma {:induction false} PositivityDecides(env: GEnv, o: IndexOracle, i: nat, t: Tm, g: nat)
    requires Bnf(env, o, t, g).Some?
    ensures StrictlyPositive(env, o, i, t, g) == Some(PositiveShape(i, Bnf(env, o, t, g).value))
    decreases g
  {
    hide Whnf, OccursInd, ValidIndApp, Stuck;
    var w := Whnf(env, o, [], t, g).value;
    if w.Pi? {
      OccursAnswers(env, o, i, w.dom, g - 1, g);
      PositivityDecides(env, o, i, w.cod, g - 1);
    } else {
      WhnfIdem(env, o, [], t, g);
      WhnfIsStuck(env, o, [], t, g);
      assert Bnf(env, o, w, g) == Bnf(env, o, t, g);
      OccursAnswers(env, o, i, w, g, g);
      ValidAnswers(env, o, i, w, g, g);
    }
    PositivityExact(env, o, i, t, g, g);
  }

  lemma {:induction false} FreeShape(i: nat, t: Tm)
    requires !Mentions(i, t)
    ensures PositiveShape(i, t)
    decreases t
  {
    if t.Pi? { FreeShape(i, t.cod); }
  }

  // ---------------------------------------------------------------------------------------------
  // η only forgets

  /** The full normal form mentions no more than the one without η. */
  lemma {:induction false} EtaForgets(env: GEnv, o: IndexOracle, ctx: Ctx, i: nat, t: Tm, g: nat)
    requires NeverAsks(env) && Nf(env, o, ctx, t, g).Some?
    ensures Bnf(env, o, t, g).Some?
    ensures Mentions(i, Nf(env, o, ctx, t, g).value) ==> Mentions(i, Bnf(env, o, t, g).value)
    decreases g
  {
    hide Whnf, NeverAsks;
    WhnfContext(env, o, [], ctx, t, g);
    match Whnf(env, o, ctx, t, g).value
    case Lam(d, b) =>
      EtaForgets(env, o, ctx, i, d, g - 1);
      EtaForgets(env, o, ctx + [d], i, b, g - 1);
      var body := Nf(env, o, ctx + [d], b, g - 1).value;
      if EtaBody(body) { MentionsShift(i, body.fn, -1, 0); }
    case Pi(d, b) =>
      EtaForgets(env, o, ctx, i, d, g - 1);
      EtaForgets(env, o, ctx + [d], i, b, g - 1);
    case App(h, x) =>
      EtaForgets(env, o, ctx, i, h, g - 1);
      EtaForgets(env, o, ctx, i, x, g - 1);
    case _ =>
  }

  lemma {:induction false} EtaKeepsApp(env: GEnv, o: IndexOracle, ctx: Ctx, i: nat, t: Tm, g: nat)
    requires NeverAsks(env) && Nf(env, o, ctx, t, g).Some?
    requires Bnf(env, o, t, g).Some? && IndApp(i, Bnf(env, o, t, g).value)
    ensures IndApp(i, Nf(env, o, ctx, t, g).value)
    decreases g
  {
    hide Whnf, NeverAsks;
    WhnfContext(env, o, [], ctx, t, g);
    match Whnf(env, o, ctx, t, g).value
    case App(h, x) =>
      EtaKeepsApp(env, o, ctx, i, h, g - 1);
      EtaForgets(env, o, ctx, i, x, g - 1);
    case _ =>
  }

  lemma {:induction false} EtaKeepsShape(env: GEnv, o: IndexOracle, ctx: Ctx, i: nat, t: Tm, g: nat)
    requires NeverAsks(env) && Nf(env, o, ctx, t, g).Some?
    requires Bnf(env, o, t, g).Some? && PositiveShape(i, Bnf(env, o, t, g).value)
    ensures PositiveShape(i, Nf(env, o, ctx, t, g).value)
    decreases g
  {
    hide Whnf, NeverAsks;
    WhnfContext(env, o, [], ctx, t, g);
    var w := Whnf(env, o, ctx, t, g).value;
    if w.Pi? {
      EtaForgets(env, o, ctx, i, w.dom, g - 1);
      EtaKeepsShape(env, o, ctx + [w.dom], i, w.cod, g - 1);
    } else {
      EtaForgets(env, o, ctx, i, t, g);
      if Mentions(i, Nf(env, o, ctx, t, g).value) {
        EtaKeepsApp(env, o, ctx, i, t, g);
      } else {
        FreeShape(i, Nf(env, o, ctx, t, g).value);
      }
    }
  }

  /** An accepted type has a positive full normal form. */
  lemma PositivityAgrees(env: GEnv, o: IndexOracle, ctx: Ctx, i: nat, t: Tm, f: nat, g: nat)
    requires NeverAsks(env) && StrictlyPositive(env, o, i, t, f) == Some(true) && Nf(env, o, ctx, t, g).Some?
    ensures PositiveShape(i, Nf(env, o, ctx, t, g).value)
  {
    EtaForgets(env, o, ctx, i, t, g);
    PositivityExact(env, o, i, t, f, g);
    EtaKeepsShape(env, o, ctx, i, t, g);
  }

  /**
   With η the converse fails: a domain mentioning the inductive is dropped, so the full normal form
   can be free of it although the test rejects the type.
   */
  lemma LazyTestIsStricter(o: IndexOracle, i: nat)
    ensures
      var env := GEnv(map[], map[], map[]);
      var t := Lam(Ind(i), App(Var(1), Var(0)));
      && StrictlyPositive(env, o, i, t, 4) == Some(false)
      && Nf(env, o, [], t, 4) == Some(Var(0)) && PositiveShape(i, Var(0))
  {
    var env := GEnv(map[], map[], map[]);
    var body := App(Var(1), Var(0));
    var t := Lam(Ind(i), body);
    assert OccursInd(env, o, i, Ind(i), 3) == Some(true);
    assert OccursInd(env, o, i, t, 4) == Some(true);
    assert Head(body) == Var(1);
    assert Nf(env, o, [Ind(i)], Var(1), 2) == Some(Var(1)) && Nf(env, o, [Ind(i)], Var(0), 2) == Some(Var(0));
    assert Nf(env, o, [] + [Ind(i)], body, 3) == Some(body);
    assert Nf(env, o, [], Ind(i), 3) == Some(Ind(i));
  }
}
