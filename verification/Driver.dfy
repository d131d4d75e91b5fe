/**
 Reduction in the proof kernel: weak-head normalization by β, δ and ι, and full
 normalization with η-contraction. Fuel bounds the recursion, since untyped terms may diverge.
 */
module Driver {
  import opened Common
  import opened Tms

  datatype CtorDecl = CtorDecl(ix: nat, args: seq<Tm>, ret: seq<Tm>)

  datatype Inductive = Inductive(id: nat, params: seq<Tm>, indices: seq<Tm>, sort: nat, ctors: seq<CtorDecl>)

  datatype ConstDecl = ConstDecl(ty: Tm, body: Tm)

  datatype CtorArity = CtorArity(ix: nat, nfields: nat, nrec: nat)

  datatype ArityTable = ArityTable(ind: nat, nparams: nat, nindices: nat, ctors: seq<CtorArity>)

  datatype GEnv = GEnv(consts: map<nat, ConstDecl>, inds: map<nat, Inductive>, recs: map<nat, ArityTable>)

  type Ctx = seq<Tm>

  /** The index arguments of the inferred type of a recursive field, in a context: supplied by type inference. */
  type IndexOracle = (Ctx, nat, Tm) -> Option<seq<Tm>>

  /** The head of an application spine. */
  function Head(t: Tm): Tm {
    if t.App? then Head(t.fn) else t
  }

  /** The arguments of an application spine, left to right. */
  function Args(t: Tm): seq<Tm> {
    if t.App? then Args(t.fn) + [t.arg] else []
  }

  /** The loop that flattens a spine: arguments are pushed outermost first, then reversed. */
  method Spine(t: Tm) returns (head: Tm, args: seq<Tm>)
    ensures head == Head(t) && args == Args(t)
  {
    var rev: seq<Tm> := [];
    var cur := t;
    while cur.App?
      invariant Head(cur) == Head(t)
      invariant Args(t) == Args(cur) + rev
      decreases cur
    {
      rev := [cur.arg] + rev;
      cur := cur.fn;
    }
    return cur, rev;
  }

  function Apply(head: Tm, args: seq<Tm>): Tm {
    if args == [] then head else App(Apply(head, args[..|args| - 1]), args[|args| - 1])
  }

  /** The head of a possibly applied or quantified type is the inductive `id`. */
  predicate HeadIsInd(t: Tm, id: nat) {
    match t
    case Ind(j) => j == id
    case App(f, _) => HeadIsInd(f, id)
    case Pi(_, b) => HeadIsInd(b, id)
    case _ => false
  }

  /** One induction hypothesis per recursive constructor argument from `pos` on. */
  function Hypotheses(o: IndexOracle, ctx: Ctx, ind: Inductive, i: nat, tele: seq<Tm>, prefix: seq<Tm>,
      fields: seq<Tm>, pos: nat): Option<seq<Tm>>
    requires pos <= |tele|
    decreases |tele| - pos
  {
    if pos == |tele| then Some([])
    else if !HeadIsInd(tele[pos], i) then Hypotheses(o, ctx, ind, i, tele, prefix, fields, pos + 1)
    else if pos >= |fields| then None
    else
      match FieldIndices(o, ctx, ind, i, fields[pos])
      case None => None
      case Some(idx) =>
        match Hypotheses(o, ctx, ind, i, tele, prefix, fields, pos + 1)
        case None => None
        case Some(rest) => Some([Hypothesis(i, prefix, idx, fields[pos])] + rest)
  }

  /** The recursor on one field: parameters, motive and minors shared, then the field's indices and the field. */
  function Hypothesis(i: nat, prefix: seq<Tm>, idx: seq<Tm>, field: Tm): Tm {
    App(Apply(Apply(Elim(i), prefix), idx), field)
  }

  function FieldIndices(o: IndexOracle, ctx: Ctx, ind: Inductive, i: nat, field: Tm): Option<seq<Tm>> {
    if |ind.indices| == 0 then Some([]) else o(ctx, i, field)
  }

  /** Arguments a recursor consumes: parameters, motive, minors, indices, scrutinee. */
  function Arity(ind: Inductive): nat {
    |ind.params| + 1 + |ind.ctors| + |ind.indices| + 1
  }

  function Min(a: nat, b: nat): nat { if a < b then a else b }

  /** The contractum of a recursor applied to constructor `k` with arguments `cargs`. */
  function IotaContract(o: IndexOracle, ctx: Ctx, ind: Inductive, i: nat, k: nat, args: seq<Tm>,
      cargs: seq<Tm>): Option<Tm>
    requires |args| >= Arity(ind) && k < |ind.ctors|
  {
    var np := |ind.params|;
    var fields := cargs[Min(np, |cargs|)..];
    match Hypotheses(o, ctx, ind, i, ind.ctors[k].args, args[..np + 1 + |ind.ctors|], fields, 0)
    case None => None
    case Some(ihs) => Some(Apply(Apply(Apply(args[np + 1 + k], fields), ihs), args[Arity(ind)..]))
  }

  datatype Iota = IDeep | IStuck | IFire(t: Tm)

  function TryIota(env: GEnv, o: IndexOracle, ctx: Ctx, i: nat, args: seq<Tm>, fuel: nat): Iota
    decreases fuel, 2
  {
    if i !in env.inds then IStuck else
    var ind := env.inds[i];
    if |args| < Arity(ind) then IStuck else
    match Whnf(env, o, ctx, args[Arity(ind) - 1], fuel)
    case None => IDeep
    case Some(scrut) =>
      var h := Head(scrut);
      if !(h.Ctor? && h.id == i && h.k < |ind.ctors|) then IStuck else
      match IotaContract(o, ctx, ind, i, h.k, args, Args(scrut))
      case None => IStuck
      case Some(r) => IFire(r)
  }

  function Whnf(env: GEnv, o: IndexOracle, ctx: Ctx, t: Tm, fuel: nat): Option<Tm>
    decreases fuel, 1
  {
    if fuel == 0 then None else
    var head, args := Head(t), Args(t);
    if head.Lam? && args != [] then
      Whnf(env, o, ctx, Apply(Subst(head.body, 0, args[0]), args[1..]), fuel - 1)
    else if head.Const? && head.c in env.consts then
      Whnf(env, o, ctx, Apply(env.consts[head.c].body, args), fuel - 1)
    else if head.Elim? then
      match TryIota(env, o, ctx, head.id, args, fuel - 1)
      case IDeep => None
      case IStuck => Some(t)
      case IFire(r) => Whnf(env, o, ctx, r, fuel - 1)
    else Some(t)
  }

  /** The weak-head loop. */
  method WhnfLoop(env: GEnv, o: IndexOracle, ctx: Ctx, t: Tm, fuel: nat) returns (r: Option<Tm>)
    ensures r == Whnf(env, o, ctx, t, fuel)
  {
    var cur := t;
    var left := fuel;
    while left > 0
      invariant Whnf(env, o, ctx, cur, left) == Whnf(env, o, ctx, t, fuel)
    {
      var head, args := Spine(cur);
      if head.Lam? && args != [] {
        cur := Apply(Subst(head.body, 0, args[0]), args[1..]);
      } else if head.Const? && head.c in env.consts {
        cur := Apply(env.consts[head.c].body, args);
      } else if head.Elim? {
        match TryIota(env, o, ctx, head.id, args, left - 1)
        case IDeep => return None;
        case IStuck => return Some(cur);
        case IFire(u) => cur := u;
      } else {
        return Some(cur);
      }
      left := left - 1;
    }
    return None;
  }

  /** `λx. f x` with `x` not in `f`. */
  predicate EtaBody(body: Tm) {
    body.App? && body.arg == Var(0) && !Occurs(body.fn, 0)
  }

  function Nf(env: GEnv, o: IndexOracle, ctx: Ctx, t: Tm, fuel: nat): Option<Tm>
    decreases fuel
  {
    if fuel == 0 then None else
    match Whnf(env, o, ctx, t, fuel)
    case None => None
    case Some(w) =>
      match w
      case Lam(d, b) =>
        var dom, body := Nf(env, o, ctx, d, fuel - 1), Nf(env, o, ctx + [d], b, fuel - 1);
        if dom.None? || body.None? then None
        else if EtaBody(body.value) then Some(Shift(body.value.fn, -1, 0))
        else Some(Lam(dom.value, body.value))
      case Pi(d, b) =>
        var dom, cod := Nf(env, o, ctx, d, fuel - 1), Nf(env, o, ctx + [d], b, fuel - 1);
        if dom.None? || cod.None? then None else Some(Pi(dom.value, cod.value))
      case App(f, x) =>
        var nf, nx := Nf(env, o, ctx, f, fuel - 1), Nf(env, o, ctx, x, fuel - 1);
        if nf.None? || nx.None? then None else Some(App(nf.value, nx.value))
      case _ => Some(w)
  }

  // ---------------------------------------------------------------------------------------------
  // Spines

  lemma {:induction false} SpineApply(t: Tm)
    ensures Apply(Head(t), Args(t)) == t
    ensures !Head(t).App?
  {
    if t.App? {
      SpineApply(t.fn);
      assert Args(t)[..|Args(t)| - 1] == Args(t.fn);
    }
  }

  lemma {:induction false} ApplySpine(h: Tm, args: seq<Tm>)
    ensures Head(Apply(h, args)) == Head(h)
    ensures Args(Apply(h, args)) == Args(h) + args
    decreases |args|
  {
    if args != [] {
      ApplySpine(h, args[..|args| - 1]);
      assert args == args[..|args| - 1] + [args[|args| - 1]];
    }
  }

  lemma {:induction false} ApplyConcat(h: Tm, a: seq<Tm>, b: seq<Tm>)
    ensures Apply(Apply(h, a), b) == Apply(h, a + b)
    decreases |b|
  {
    if b == [] {
      assert a + b == a;
    } else {
      ApplyConcat(h, a, b[..|b| - 1]);
      assert (a + b)[..|a + b| - 1] == a + b[..|b| - 1];
    }
  }

  lemma ApplyCons(h: Tm, a: Tm, b: seq<Tm>)
    ensures Apply(h, [a] + b) == Apply(App(h, a), b)
  {
    ApplyConcat(h, [a], b);
    assert Apply(h, [a]) == App(h, a) by { assert [a][..0] == []; }
  }

  // ---------------------------------------------------------------------------------------------
  // More fuel never changes an answer

  lemma {:induction false} WhnfFuel(env: GEnv, o: IndexOracle, ctx: Ctx, t: Tm, f: nat, g: nat)
    requires f <= g && Whnf(env, o, ctx, t, f).Some?
    ensures Whnf(env, o, ctx, t, g) == Whnf(env, o, ctx, t, f)
    decreases f, 1
  {
    var head, args := Head(t), Args(t);
    if head.Lam? && args != [] {
      WhnfFuel(env, o, ctx, Apply(Subst(head.body, 0, args[0]), args[1..]), f - 1, g - 1);
    } else if head.Const? && head.c in env.consts {
      WhnfFuel(env, o, ctx, Apply(env.consts[head.c].body, args), f - 1, g - 1);
    } else if head.Elim? {
      IotaFuel(env, o, ctx, head.id, args, f - 1, g - 1);
      match TryIota(env, o, ctx, head.id, args, f - 1)
      case IFire(r) => WhnfFuel(env, o, ctx, r, f - 1, g - 1);
      case _ =>
    }
  }

  lemma {:induction false} IotaFuel(env: GEnv, o: IndexOracle, ctx: Ctx, i: nat, args: seq<Tm>, f: nat, g: nat)
    requires f <= g && !TryIota(env, o, ctx, i, args, f).IDeep?
    ensures TryIota(env, o, ctx, i, args, g) == TryIota(env, o, ctx, i, args, f)
    decreases f, 2
  {
    if i in env.inds && |args| >= Arity(env.inds[i]) {
      WhnfFuel(env, o, ctx, args[Arity(env.inds[i]) - 1], f, g);
    }
  }

  lemma {:induction false} NfFuel(env: GEnv, o: IndexOracle, ctx: Ctx, t: Tm, f: nat, g: nat)
    requires f <= g && Nf(env, o, ctx, t, f).Some?
    ensures Nf(env, o, ctx, t, g) == Nf(env, o, ctx, t, f)
    decreases f
  {
    WhnfFuel(env, o, ctx, t, f, g);
    match Whnf(env, o, ctx, t, f).value
    case Lam(d, b) => NfFuel(env, o, ctx, d, f - 1, g - 1); NfFuel(env, o, ctx + [d], b, f - 1, g - 1);
    case Pi(d, b) => NfFuel(env, o, ctx, d, f - 1, g - 1); NfFuel(env, o, ctx + [d], b, f - 1, g - 1);
    case App(h, x) => NfFuel(env, o, ctx, h, f - 1, g - 1); NfFuel(env, o, ctx, x, f - 1, g - 1);
    case _ =>
  }

  /** Two runs that both answer agree. */
  lemma WhnfAgree(env: GEnv, o: IndexOracle, ctx: Ctx, t: Tm, f: nat, g: nat)
    requires Whnf(env, o, ctx, t, f).Some? && Whnf(env, o, ctx, t, g).Some?
    ensures Whnf(env, o, ctx, t, f) == Whnf(env, o, ctx, t, g)
  {
    if f <= g { WhnfFuel(env, o, ctx, t, f, g); } else { WhnfFuel(env, o, ctx, t, g, f); }
  }

  lemma NfAgree(env: GEnv, o: IndexOracle, ctx: Ctx, t: Tm, f: nat, g: nat)
    requires Nf(env, o, ctx, t, f).Some? && Nf(env, o, ctx, t, g).Some?
    ensures Nf(env, o, ctx, t, f) == Nf(env, o, ctx, t, g)
  {
    if f <= g { NfFuel(env, o, ctx, t, f, g); } else { NfFuel(env, o, ctx, t, g, f); }
  }

  /** A weak-head normal form is its own weak-head normal form. */
  lemma {:induction false} WhnfIdem(env: GEnv, o: IndexOracle, ctx: Ctx, t: Tm, f: nat)
    requires Whnf(env, o, ctx, t, f).Some?
    ensures var w := Whnf(env, o, ctx, t, f).value; Whnf(env, o, ctx, w, f) == Some(w)
    decreases f
  {
    var head, args := Head(t), Args(t);
    var w := Whnf(env, o, ctx, t, f).value;
    if head.Lam? && args != [] {
      WhnfIdem(env, o, ctx, Apply(Subst(head.body, 0, args[0]), args[1..]), f - 1);
      WhnfFuel(env, o, ctx, w, f - 1, f);
    } else if head.Const? && head.c in env.consts {
      WhnfIdem(env, o, ctx, Apply(env.consts[head.c].body, args), f - 1);
      WhnfFuel(env, o, ctx, w, f - 1, f);
    } else if head.Elim? {
      match TryIota(env, o, ctx, head.id, args, f - 1)
      case IFire(r) => WhnfIdem(env, o, ctx, r, f - 1); WhnfFuel(env, o, ctx, w, f - 1, f);
      case _ =>
    }
  }
}
