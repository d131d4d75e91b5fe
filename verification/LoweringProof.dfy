/**
 Lowering `fix` to a recursor preserves meaning: on every constructor the emitted recursor and the
 source arm reduce to the same term, in which each self-call is the recursion on its field.
 */
module LoweringProof {
  import opened Common
  import opened Tms
  import opened TmCalculus
  import opened Driver
  import opened Reduction
  import opened Stability
  import opened Lowering
  import Recursor

  // ---------------------------------------------------------------------------------------------
  // Parallel β: a block of λs applied to as many arguments

  /** The last argument replaces variable 0, the first the outermost; the rest drop. */
  function ArgS(xs: seq<Tm>): Substitution {
    (i: nat) => if i < |xs| then xs[|xs| - 1 - i] else Var(i - |xs|)
  }

  /** A substitution carried under `d` binders. */
  function UpN(s: Substitution, d: nat): Substitution {
    (i: nat) => if i < d then Var(i) else Shift(s(i - d), d, 0)
  }

  lemma UpUpN(s: Substitution, d: nat)
    ensures forall i: nat :: UpN(s, d + 1)(i) == Up(UpN(s, d))(i)
  {
    forall i: nat
      ensures UpN(s, d + 1)(i) == Up(UpN(s, d))(i)
    {
      if 0 < i <= d { LiftVar(i - 1); }
      if i > d { ShiftOnce(s(i - d - 1), d); }
    }
  }

  lemma ShiftLift(t: Tm, d: nat)
    ensures Shift(Lift(t), d, 0) == Shift(t, d + 1, 0)
  {
    ShiftIsRen(Lift(t), d, 0);
    ShiftIsRen(t, d + 1, 0);
    RenRen(t, Succ(), ShiftR(d, 0), ShiftR(d + 1, 0));
  }

  lemma UpNUp(s: Substitution, d: nat)
    ensures forall i: nat :: UpN(Up(s), d)(i) == UpN(s, d + 1)(i)
  {
    forall i: nat
      ensures UpN(Up(s), d)(i) == UpN(s, d + 1)(i)
    {
      UpNUpAt(s, d, i);
    }
  }

  lemma UpNUpAt(s: Substitution, d: nat, i: nat)
    ensures UpN(Up(s), d)(i) == UpN(s, d + 1)(i)
  {
    if i == d {
      assert UpN(Up(s), d)(i) == Shift(Up(s)(i - d), d, 0);
    } else if i > d {
      ShiftLift(s(i - d - 1), d);
      assert UpN(Up(s), d)(i) == Shift(Up(s)(i - d), d, 0);
    }
  }

  lemma UpNZero(s: Substitution)
    ensures forall i: nat :: UpN(s, 0)(i) == s(i)
  {
    forall i: nat
      ensures UpN(s, 0)(i) == s(i)
    {
      ShiftZero(s(i));
    }
  }

  lemma {:induction false} InstLams(doms: seq<Tm>, body: Tm, s: Substitution)
    ensures Inst(Lams(doms, body), s) == Lams(InstDoms(doms, s), Inst(body, UpN(s, |doms|)))
    decreases |doms|
  {
    if doms == [] {
      UpNZero(s);
      InstExt(body, UpN(s, 0), s);
    } else {
      InstLams(doms[1..], body, Up(s));
      UpNUp(s, |doms| - 1);
      InstExt(body, UpN(Up(s), |doms| - 1), UpN(s, |doms|));
      assert InstDoms(doms, s)[1..] == InstDoms(doms[1..], Up(s));
    }
  }

  lemma ShiftArgs(t: Tm, xs: seq<Tm>)
    ensures Inst(Shift(t, |xs|, 0), ArgS(xs)) == t
  {
    ShiftIsInst(t, |xs|, 0);
    InstInst(t, ShiftS(|xs|, 0), ArgS(xs), IdS());
    IdInst(t);
  }

  /** Two blocks of arguments, one inside the other, act as one. */
  lemma ComposeArgs(t: Tm, xs: seq<Tm>, ys: seq<Tm>)
    ensures Inst(Inst(t, UpN(ArgS(xs), |ys|)), ArgS(ys)) == Inst(t, ArgS(xs + ys))
  {
    hide Inst;
    forall i: nat
      ensures ArgS(xs + ys)(i) == Inst(UpN(ArgS(xs), |ys|)(i), ArgS(ys))
    {
      ComposeArgsAt(xs, ys, i);
    }
    InstInst(t, UpN(ArgS(xs), |ys|), ArgS(ys), ArgS(xs + ys));
  }

  lemma ComposeArgsAt(xs: seq<Tm>, ys: seq<Tm>, i: nat)
    ensures ArgS(xs + ys)(i) == Inst(UpN(ArgS(xs), |ys|)(i), ArgS(ys))
  {
    if i >= |ys| { ShiftArgs(ArgS(xs)(i - |ys|), ys); }
  }

  lemma SubstIsArg(t: Tm, x: Tm)
    ensures Subst(t, 0, x) == Inst(t, ArgS([x]))
  {
    ShiftZero(x);
    SubstIsInst(t, 0, x);
    InstExt(t, SubstS(0, x), ArgS([x]));
  }

  lemma {:induction false} BetaMany(env: GEnv, o: IndexOracle, ctx: Ctx, doms: seq<Tm>, body: Tm, xs: seq<Tm>)
    requires |doms| == |xs|
    ensures Reduces(env, o, ctx, Apply(Lams(doms, body), xs), Inst(body, ArgS(xs)))
    decreases |doms|
  {
    hide Reduces;
    if doms == [] {
      InstExt(body, ArgS(xs), IdS());
      IdInst(body);
      RedRefl(env, o, ctx, body);
    } else {
      BetaFirst(env, o, ctx, doms, body, xs);
      var s := ArgS(xs[..1]);
      var inner := Inst(body, UpN(s, |doms| - 1));
      var doms' := InstDoms(doms[1..], s);
      BetaMany(env, o, ctx, doms', inner, xs[1..]);
      ComposeArgs(body, xs[..1], xs[1..]);
      assert xs[..1] + xs[1..] == xs;
      RedTrans(env, o, ctx, Apply(Lams(doms, body), xs), Apply(Lams(doms', inner), xs[1..]), Inst(body, ArgS(xs)));
    }
  }

  lemma BetaFirst(env: GEnv, o: IndexOracle, ctx: Ctx, doms: seq<Tm>, body: Tm, xs: seq<Tm>)
    requires |doms| == |xs| > 0
    ensures
      var s := ArgS(xs[..1]);
      Reduces(env, o, ctx, Apply(Lams(doms, body), xs),
              Apply(Lams(InstDoms(doms[1..], s), Inst(body, UpN(s, |doms| - 1))), xs[1..]))
  {
    hide Reduces;
    var rest := Lams(doms[1..], body);
    RedRule(env, o, ctx, DBeta(doms[0], rest, xs[0]));
    SubstIsArg(rest, xs[0]);
    assert xs[..1] == [xs[0]];
    InstLams(doms[1..], body, ArgS(xs[..1]));
    RedApply(env, o, ctx, App(Lam(doms[0], rest), xs[0]), Inst(rest, ArgS(xs[..1])), xs[1..]);
    assert xs == [xs[0]] + xs[1..];
    ApplyCons(Lam(doms[0], rest), xs[0], xs[1..]);
  }

  // ---------------------------------------------------------------------------------------------
  // Substitutions that differ at an absent variable

  lemma {:induction false} InstAvoid(t: Tm, k: nat, s: Substitution, s': Substitution)
    requires !Occurs(t, k) && forall i: nat :: i != k ==> s(i) == s'(i)
    ensures Inst(t, s) == Inst(t, s')
    decreases t
  {
    match t
    case Pi(a, b) => InstAvoid(a, k, s, s'); InstAvoid(b, k + 1, Up(s), Up(s'));
    case Lam(a, b) => InstAvoid(a, k, s, s'); InstAvoid(b, k + 1, Up(s), Up(s'));
    case App(f, x) => InstAvoid(f, k, s, s'); InstAvoid(x, k, s, s');
    case _ =>
  }

  /** Dropping variable `f` and making room for `r` more, as one renaming. */
  function RelocR(d: nat, f: nat, r: nat): Renaming {
    (v: nat) => if v < d then v else if v <= f then v + r else v + r - 1
  }

  lemma {:induction false} CoreIsRen(t: Tm, d: nat, f: nat, r: nat)
    requires d <= f && !Occurs(t, f)
    ensures Shift(Shift(t, -1, f + 1), r, d) == Ren(t, RelocR(d, f, r))
    decreases t
  {
    match t
    case Pi(a, b) => CoreIsRen(a, d, f, r); CoreIsRen(b, d + 1, f + 1, r); RelocUp(b, d, f, r);
    case Lam(a, b) => CoreIsRen(a, d, f, r); CoreIsRen(b, d + 1, f + 1, r); RelocUp(b, d, f, r);
    case App(g, x) => CoreIsRen(g, d, f, r); CoreIsRen(x, d, f, r);
    case _ =>
  }

  lemma RelocUp(t: Tm, d: nat, f: nat, r: nat)
    ensures Ren(t, RelocR(d + 1, f + 1, r)) == Ren(t, UpRen(RelocR(d, f, r)))
  {
    RenExt(t, RelocR(d + 1, f + 1, r), UpRen(RelocR(d, f, r)));
  }

  // ---------------------------------------------------------------------------------------------
  // One arm of a fix

  predicate Increasing(s: seq<nat>) { forall i, j :: 0 <= i < j < |s| ==> s[i] < s[j] }

  /** Shape of an arm: the fix it belongs to, its field count and which fields are recursive. */
  datatype Shape = Shape(head: FixHead, m: nat, recs: seq<nat>) {
    predicate Ok() {
      && head.recArg < head.n
      && (forall j :: 0 <= j < |recs| ==> recs[j] < m)
      && Increasing(recs)
    }

    function Scope(): FixScope
      requires Ok()
    {
      ArmFixScope(head, recs, m)
    }
  }

  /** `f` applied to all its arguments: a recursive field in the decreasing place, the rest unchanged. */
  ghost predicate GoodCall(a: Shape, args: seq<SrcTm>, depth: nat) {
    && |args| == a.head.n
    && a.head.recArg < |args|
    && (forall t :: 0 <= t < |args| && t != a.head.recArg ==> args[t] == SVar(depth + a.m + (a.head.n - 1 - t)))
    && exists p :: p in a.recs && p < a.m && args[a.head.recArg] == SVar(depth + (a.m - 1 - p))
  }

  /** Every occurrence of `f` heads a good call and nothing is matched or fixed inside the arm. */
  ghost predicate Structural(a: Shape, src: SrcTm, depth: nat)
    decreases src
  {
    var f := depth + a.m + a.head.n;
    match src
    case SVar(v) => v != f
    case SCore(t) => !Occurs(t, f)
    case SLam(dom, body) => !Occurs(dom, f) && Structural(a, body, depth + 1)
    case SApp(g, x) =>
      if SrcHead(src) == SVar(f) then GoodCall(a, SrcArgs(src), depth)
      else Structural(a, g, depth) && Structural(a, x, depth)
    case SMatch(_, _, _, _) => false
    case SFix(_, _, _) => false
  }

  lemma {:induction false} FieldMapAt(recs: seq<nat>, m: nat, j: nat, k: nat)
    requires k < j <= |recs|
    requires forall i :: 0 <= i < |recs| ==> recs[i] < m
    requires Increasing(recs)
    ensures
      var h := FieldMap(recs, m, |recs|, j);
      m - 1 - recs[k] in h && h[m - 1 - recs[k]] == |recs| - 1 - k
  {
    if k < j - 1 {
      FieldMapAt(recs, m, j - 1, k);
      assert recs[k] < recs[j - 1];
    }
  }

  lemma {:induction false} FieldMapBack(recs: seq<nat>, m: nat, j: nat, x: nat) returns (k: nat)
    requires j <= |recs|
    requires forall i :: 0 <= i < |recs| ==> recs[i] < m
    requires x in FieldMap(recs, m, |recs|, j)
    ensures k < j && recs[k] + x == m - 1
  {
    if x == m - 1 - recs[j - 1] { k := j - 1; } else { k := FieldMapBack(recs, m, j - 1, x); }
  }

  lemma {:induction false} UniformExact(s: FixScope, args: seq<SrcTm>, depth: nat, pos: nat)
    requires |args| == |s.outer|
    ensures Uniform(s, args, depth, pos) <==>
      forall t :: pos <= t < |args| && t != s.recArg ==> args[t] == SVar(depth + s.outer[t])
    decreases |args| - pos
  {
    if pos < |args| { UniformExact(s, args, depth, pos + 1); }
  }

  /** `self_call_to_ih` accepts exactly the good calls and answers the hypothesis of the field. */
  lemma CallExact(a: Shape, args: seq<SrcTm>, depth: nat)
    requires a.Ok()
    ensures SelfCallToIh(a.Scope(), args, depth).LOk? <==> GoodCall(a, args, depth)
    ensures GoodCall(a, args, depth) ==> exists j :: CallIs(a, args, depth, j)
  {
    hide GoodCall;
    if GoodCall(a, args, depth) {
      CallAccepted(a, args, depth);
    } else if SelfCallToIh(a.Scope(), args, depth).LOk? {
      CallGood(a, args, depth);
      assert false;
    }
  }

  lemma CallAccepted(a: Shape, args: seq<SrcTm>, depth: nat)
    requires a.Ok() && GoodCall(a, args, depth)
    ensures SelfCallToIh(a.Scope(), args, depth).LOk? && exists j :: CallIs(a, args, depth, j)
  {
    hide FieldMap, Uniform;
    var p :| p in a.recs && p < a.m && args[a.head.recArg] == SVar(depth + (a.m - 1 - p));
    var j :| 0 <= j < |a.recs| && a.recs[j] == p;
    FieldMapAt(a.recs, a.m, |a.recs|, j);
    UniformExact(a.Scope(), args, depth, 0);
    assert CallIs(a, args, depth, j);
  }

  lemma CallGood(a: Shape, args: seq<SrcTm>, depth: nat)
    requires a.Ok() && SelfCallToIh(a.Scope(), args, depth).LOk?
    ensures GoodCall(a, args, depth)
  {
    hide FieldMap, Uniform;
    UniformExact(a.Scope(), args, depth, 0);
    var k := FieldMapBack(a.recs, a.m, |a.recs|, args[a.head.recArg].i - depth);
    var p := a.recs[k];
    assert p in a.recs && p < a.m && args[a.head.recArg] == SVar(depth + (a.m - 1 - p));
  }

  /** The call recurses on recursive field number `j` and is replaced by hypothesis `j`. */
  predicate CallIs(a: Shape, args: seq<SrcTm>, depth: nat, j: nat)
    requires a.Ok()
  {
    && j < |a.recs| && a.head.recArg < |args|
    && args[a.head.recArg] == SVar(depth + (a.m - 1 - a.recs[j]))
    && SelfCallToIh(a.Scope(), args, depth) == LOk(Var(|a.recs| - 1 - j + depth))
  }

  /** `lower_rhs` succeeds exactly on the structural arms. */
  lemma {:induction false} LowerRhsAccepts(a: Shape, src: SrcTm, depth: nat)
    requires a.Ok()
    ensures LowerRhs(src, a.Scope(), depth).LOk? <==> Structural(a, src, depth)
    decreases src
  {
    hide SelfCallToIh, GoodCall;
    match src
    case SLam(_, body) => LowerRhsAccepts(a, body, depth + 1);
    case SApp(g, x) =>
      assert IsSelf(a.Scope(), SrcHead(src), depth) <==> SrcHead(src) == SVar(depth + a.m + a.head.n);
      CallExact(a, SrcArgs(src), depth);
      LowerRhsAccepts(a, g, depth);
      LowerRhsAccepts(a, x, depth);
    case _ =>
  }

  // ---------------------------------------------------------------------------------------------
  // The meaning of an arm

  /** A surface term without `match` and `fix` is a core term. */
  predicate Plain(src: SrcTm) {
    match src
    case SVar(_) => true
    case SCore(_) => true
    case SLam(_, b) => Plain(b)
    case SApp(f, x) => Plain(f) && Plain(x)
    case _ => false
  }

  function Erase(src: SrcTm): Tm
    requires Plain(src)
  {
    match src
    case SVar(i) => Var(i)
    case SCore(t) => t
    case SLam(d, b) => Lam(d, Erase(b))
    case SApp(f, x) => App(Erase(f), Erase(x))
  }

  /** Values for one arm: the recursive function, its arguments, the fields and their hypotheses. */
  datatype Site = Site(fn: Tm, args: seq<Tm>, flds: seq<Tm>, ihs: seq<Tm>)

  predicate Fits(a: Shape, v: Site) {
    a.Ok() && |v.args| == a.head.n && |v.flds| == a.m && |v.ihs| == |a.recs|
  }

  /** The arm's source context: the function, its arguments, the fields. */
  function SourceS(v: Site): Substitution { ArgS([v.fn] + v.args + v.flds) }

  /** The minor's context: the arguments, the fields, the hypotheses. */
  function TargetS(v: Site): Substitution { ArgS(v.args + v.flds + v.ihs) }

  /** The number of the recursive field standing in the decreasing place of a call. */
  ghost function CallField(a: Shape, args: seq<SrcTm>, depth: nat): (j: nat)
    requires a.Ok() && GoodCall(a, args, depth)
    ensures CallIs(a, args, depth, j)
  {
    CallExact(a, args, depth);
    var j :| CallIs(a, args, depth, j);
    j
  }

  /** The source arm under the values, with every self-call replaced by the recursion on its field. */
  ghost function ArmValue(a: Shape, v: Site, src: SrcTm, depth: nat): Tm
    requires Fits(a, v) && Structural(a, src, depth)
    decreases src
  {
    match src
    case SVar(i) => UpN(SourceS(v), depth)(i)
    case SCore(t) => Inst(t, UpN(SourceS(v), depth))
    case SLam(dom, body) => Lam(Inst(dom, UpN(SourceS(v), depth)), ArmValue(a, v, body, depth + 1))
    case SApp(g, x) =>
      if SrcHead(src) == SVar(depth + a.m + a.head.n) then Shift(v.ihs[CallField(a, SrcArgs(src), depth)], depth, 0)
      else App(ArmValue(a, v, g, depth), ArmValue(a, v, x, depth))
  }

  function RelocI(a: Shape, depth: nat, i: nat): nat {
    RelocR(depth, depth + a.m + a.head.n, |a.recs|)(i)
  }

  lemma RelocatedVar(a: Shape, v: Site, i: nat, depth: nat)
    requires Fits(a, v) && i != depth + a.m + a.head.n
    ensures UpN(TargetS(v), depth)(RelocI(a, depth, i)) == UpN(SourceS(v), depth)(i)
  {
    var n := a.head.n + a.m;
    if i >= depth {
      var src := i - depth;
      var all := [v.fn] + v.args + v.flds;
      if src < n {
        assert all[n - src] == (v.args + v.flds)[n - 1 - src] == (v.args + v.flds + v.ihs)[n - 1 - src];
      }
    }
  }

  lemma RelocatedIndex(a: Shape, i: nat, depth: nat)
    requires a.Ok() && i != depth + a.m + a.head.n
    ensures RelocateVar(a.Scope(), i, depth) == LOk(RelocI(a, depth, i))
  {
  }

  function Relocated(a: Shape, v: Site, depth: nat): Substitution {
    (i: nat) => UpN(TargetS(v), depth)(RelocI(a, depth, i))
  }

  lemma RelocatedCore(a: Shape, v: Site, t: Tm, depth: nat)
    requires Fits(a, v) && !Occurs(t, depth + a.m + a.head.n)
    ensures
      var u := RelocateCore(a.Scope(), t, depth);
      u.LOk? && Inst(u.value, UpN(TargetS(v), depth)) == Inst(t, UpN(SourceS(v), depth))
  {
    hide Inst, Occurs, Shift, Ren, UpN, RelocR, TargetS, SourceS;
    var f := depth + a.m + a.head.n;
    CoreIsRen(t, depth, f, |a.recs|);
    RelocatedInst(a, v, t, depth);
    forall i: nat | i != f
      ensures Relocated(a, v, depth)(i) == UpN(SourceS(v), depth)(i)
    {
      RelocatedVar(a, v, i, depth);
    }
    InstAvoid(t, f, Relocated(a, v, depth), UpN(SourceS(v), depth));
  }

  lemma RelocatedInst(a: Shape, v: Site, t: Tm, depth: nat)
    ensures
      Inst(Ren(t, RelocR(depth, depth + a.m + a.head.n, |a.recs|)), UpN(TargetS(v), depth)) ==
      Inst(t, Relocated(a, v, depth))
  {
    hide Inst, Ren;
    var rho := RelocR(depth, depth + a.m + a.head.n, |a.recs|);
    forall i: nat
      ensures Relocated(a, v, depth)(i) == UpN(TargetS(v), depth)(rho(i))
    {
      assert RelocI(a, depth, i) == rho(i);
      assert Relocated(a, v, depth)(i) == UpN(TargetS(v), depth)(RelocI(a, depth, i));
    }
    InstRen(t, rho, UpN(TargetS(v), depth), Relocated(a, v, depth));
  }

  /** The emitted minor body under its values is the arm's value. */
  lemma {:induction false} MinorMeaning(a: Shape, v: Site, src: SrcTm, depth: nat)
    requires Fits(a, v) && Structural(a, src, depth)
    ensures
      var t := LowerRhs(src, a.Scope(), depth);
      t.LOk? && Inst(t.value, UpN(TargetS(v), depth)) == ArmValue(a, v, src, depth)
    decreases src
  {
    hide GoodCall, RelocateCore, RelocateVar, SelfCallToIh, UpN;
    match src
    case SVar(i) => RelocatedVar(a, v, i, depth); RelocatedIndex(a, i, depth);
    case SCore(t) => RelocatedCore(a, v, t, depth);
    case SLam(dom, body) =>
      RelocatedCore(a, v, dom, depth);
      MinorMeaning(a, v, body, depth + 1);
      UpUpN(TargetS(v), depth);
      InstExt(LowerRhs(body, a.Scope(), depth + 1).value, UpN(TargetS(v), depth + 1), Up(UpN(TargetS(v), depth)));
    case SApp(g, x) =>
      assert IsSelf(a.Scope(), SrcHead(src), depth) <==> SrcHead(src) == SVar(depth + a.m + a.head.n);
      if SrcHead(src) == SVar(depth + a.m + a.head.n) {
        CallTarget(a, v, CallField(a, SrcArgs(src), depth), depth);
      } else {
        MinorMeaning(a, v, g, depth);
        MinorMeaning(a, v, x, depth);
      }
  }

  lemma CallTarget(a: Shape, v: Site, j: nat, depth: nat)
    requires Fits(a, v) && j < |a.recs|
    ensures UpN(TargetS(v), depth)(|a.recs| - 1 - j + depth) == Shift(v.ihs[j], depth, 0)
  {
    var all := v.args + v.flds + v.ihs;
    assert all[|v.args| + |v.flds| + j] == v.ihs[j];
  }

  // ---------------------------------------------------------------------------------------------
  // The source arm reduces to the arm's value

  /** No constants and no families: only β and η are left. */
  function Bare(): GEnv { GEnv(map[], map[], map[]) }

  lemma {:induction false} DerivationLifts(env: GEnv, o: IndexOracle, ctx: Ctx, d: Deriv)
    requires Valid(Bare(), o, ctx, d)
    ensures Valid(env, o, ctx, d)
    decreases d
  {
    match d
    case DTrans(a, b) => DerivationLifts(env, o, ctx, a); DerivationLifts(env, o, ctx, b);
    case DPi(a, b) => DerivationLifts(env, o, ctx, a); DerivationLifts(env, o, ctx + [Src(a)], b);
    case DLam(a, b) => DerivationLifts(env, o, ctx, a); DerivationLifts(env, o, ctx + [Src(a)], b);
    case DApp(a, b) => DerivationLifts(env, o, ctx, a); DerivationLifts(env, o, ctx, b);
    case _ =>
  }

  /** A reduction without δ and ι moves under binders and into any environment. */
  lemma BareShift(env: GEnv, o: IndexOracle, ctx: Ctx, ctx': Ctx, t: Tm, t': Tm, d: nat)
    requires Reduces(Bare(), o, ctx, t, t')
    ensures Reduces(env, o, ctx', Shift(t, d, 0), Shift(t', d, 0))
  {
    NeverAsksSteady(Bare(), o, ctx, ctx', ShiftS(d, 0));
    ReducesShift(Bare(), o, ctx, ctx', t, t', d, 0);
    var e :| Valid(Bare(), o, ctx', e) && Src(e) == Shift(t, d, 0) && Dst(e) == Shift(t', d, 0);
    DerivationLifts(env, o, ctx', e);
  }

  /** Every recursive call of the source reduces to the matching hypothesis, by β alone. */
  ghost predicate CallsReduce(o: IndexOracle, ctx: Ctx, a: Shape, v: Site)
    requires Fits(a, v)
  {
    forall j :: 0 <= j < |a.recs| ==>
      Reduces(Bare(), o, ctx, Apply(v.fn, v.args[a.head.recArg := v.flds[a.recs[j]]]), v.ihs[j])
  }

  lemma {:induction false} ErasedSpine(src: SrcTm)
    requires Plain(src)
    ensures Plain(SrcHead(src)) && forall k :: 0 <= k < |SrcArgs(src)| ==> Plain(SrcArgs(src)[k])
    ensures Erase(src) == Apply(Erase(SrcHead(src)), ErasedArgs(src))
  {
    if src.SApp? {
      ErasedSpine(src.fn);
      assert ErasedArgs(src)[..|SrcArgs(src.fn)|] == ErasedArgs(src.fn);
    }
  }

  function ErasedArgs(src: SrcTm): (r: seq<Tm>)
    requires Plain(src)
    ensures |r| == |SrcArgs(src)|
    ensures forall k :: 0 <= k < |r| ==> Plain(SrcArgs(src)[k]) && r[k] == Erase(SrcArgs(src)[k])
  {
    if src.SApp? then ErasedArgs(src.fn) + [Erase(src.arg)] else []
  }

  /** A self-call under the values is the function applied to its arguments and the field. */
  lemma CallSource(a: Shape, v: Site, src: SrcTm, depth: nat)
    requires Fits(a, v) && Plain(src) && SrcHead(src) == SVar(depth + a.m + a.head.n)
    requires GoodCall(a, SrcArgs(src), depth)
    ensures
      var j := CallField(a, SrcArgs(src), depth);
      Inst(Erase(src), UpN(SourceS(v), depth)) ==
      Shift(Apply(v.fn, v.args[a.head.recArg := v.flds[a.recs[j]]]), depth, 0)
  {
    hide Inst, Shift, SelfCallToIh, GoodCall, InstAll, UpN, ArgS;
    var u := UpN(SourceS(v), depth);
    var j := CallField(a, SrcArgs(src), depth);
    var xs := v.args[a.head.recArg := v.flds[a.recs[j]]];
    ErasedSpine(src);
    InstApply(Var(depth + a.m + a.head.n), ErasedArgs(src), u);
    ShiftIsInst(Apply(v.fn, xs), depth, 0);
    InstApply(v.fn, xs, ShiftS(depth, 0));
    CallSourceArgs(a, v, src, depth, j);
    CallSourceHead(a, v, depth);
    ShiftIsInst(v.fn, depth, 0);
  }

  lemma CallSourceHead(a: Shape, v: Site, depth: nat)
    requires Fits(a, v)
    ensures Inst(Var(depth + a.m + a.head.n), UpN(SourceS(v), depth)) == Shift(v.fn, depth, 0)
  {
  }

  lemma CallSourceArgs(a: Shape, v: Site, src: SrcTm, depth: nat, j: nat)
    requires Fits(a, v) && Plain(src) && GoodCall(a, SrcArgs(src), depth) && CallIs(a, SrcArgs(src), depth, j)
    ensures
      InstAll(ErasedArgs(src), UpN(SourceS(v), depth)) ==
      InstAll(v.args[a.head.recArg := v.flds[a.recs[j]]], ShiftS(depth, 0))
  {
    hide Inst, Shift, SelfCallToIh, UpN, ArgS;
    var u := UpN(SourceS(v), depth);
    var xs := v.args[a.head.recArg := v.flds[a.recs[j]]];
    forall k | 0 <= k < |xs|
      ensures InstAll(ErasedArgs(src), u)[k] == InstAll(xs, ShiftS(depth, 0))[k]
    {
      CallSourceArg(a, v, SrcArgs(src), depth, j, k);
      ShiftIsInst(xs[k], depth, 0);
      InstOfVar(u, SrcArgs(src)[k].i);
    }
  }

  lemma InstOfVar(u: Substitution, i: nat)
    ensures Inst(Var(i), u) == u(i)
  {
  }

  lemma CallSourceArg(a: Shape, v: Site, ys: seq<SrcTm>, depth: nat, j: nat, k: nat)
    requires Fits(a, v) && GoodCall(a, ys, depth) && CallIs(a, ys, depth, j) && k < a.head.n
    ensures ys[k].SVar? && UpN(SourceS(v), depth)(ys[k].i) ==
      Shift(v.args[a.head.recArg := v.flds[a.recs[j]]][k], depth, 0)
  {
    hide SelfCallToIh;
    var all := [v.fn] + v.args + v.flds;
    assert all[1 + k] == v.args[k];
    assert all[1 + a.head.n + a.recs[j]] == v.flds[a.recs[j]];
  }

  lemma {:induction false} SourceReduces(env: GEnv, o: IndexOracle, ctx: Ctx, under: Ctx, a: Shape, v: Site,
      src: SrcTm, depth: nat)
    requires Fits(a, v) && CallsReduce(o, ctx, a, v)
    requires Structural(a, src, depth) && Plain(src)
    ensures Reduces(env, o, under, Inst(Erase(src), UpN(SourceS(v), depth)), ArmValue(a, v, src, depth))
    decreases src
  {
    hide GoodCall, Reduces, UpN, CallsReduce, Occurs;
    var u := UpN(SourceS(v), depth);
    match src
    case SVar(i) => RedRefl(env, o, under, u(i));
    case SCore(t) => RedRefl(env, o, under, Inst(t, u));
    case SLam(dom, body) =>
      var d := Inst(dom, u);
      SourceReduces(env, o, ctx, under + [d], a, v, body, depth + 1);
      UpUpN(SourceS(v), depth);
      InstExt(Erase(body), UpN(SourceS(v), depth + 1), Up(u));
      RedRefl(env, o, under, d);
      RedBind(env, o, under, d, d, Inst(Erase(body), Up(u)), ArmValue(a, v, body, depth + 1));
    case SApp(g, x) =>
      if SrcHead(src) == SVar(depth + a.m + a.head.n) {
        SourceCall(env, o, ctx, under, a, v, src, depth);
      } else {
        SourceReduces(env, o, ctx, under, a, v, g, depth);
        SourceReduces(env, o, ctx, under, a, v, x, depth);
        RedApp(env, o, under, Inst(Erase(g), u), ArmValue(a, v, g, depth), Inst(Erase(x), u), ArmValue(a, v, x, depth));
      }
  }

  lemma SourceCall(env: GEnv, o: IndexOracle, ctx: Ctx, under: Ctx, a: Shape, v: Site, src: SrcTm, depth: nat)
    requires Fits(a, v) && CallsReduce(o, ctx, a, v) && Plain(src) && src.SApp?
    requires Structural(a, src, depth) && SrcHead(src) == SVar(depth + a.m + a.head.n)
    ensures Reduces(env, o, under, Inst(Erase(src), UpN(SourceS(v), depth)), ArmValue(a, v, src, depth))
  {
    hide GoodCall, Reduces, UpN, SelfCallToIh;
    CallSource(a, v, src, depth);
    var j := CallField(a, SrcArgs(src), depth);
    BareShift(env, o, ctx, under, Apply(v.fn, v.args[a.head.recArg := v.flds[a.recs[j]]]), v.ihs[j], depth);
  }

  /** Does surface variable `k` occur? */
  predicate SrcOccurs(src: SrcTm, k: nat) {
    match src
    case SVar(i) => i == k
    case SCore(t) => Occurs(t, k)
    case SLam(d, b) => Occurs(d, k) || SrcOccurs(b, k + 1)
    case SApp(f, x) => SrcOccurs(f, k) || SrcOccurs(x, k)
    case _ => false
  }

  lemma {:induction false} HeadOccurs(src: SrcTm, k: nat)
    requires SrcHead(src) == SVar(k)
    ensures SrcOccurs(src, k)
  {
    if src.SApp? { HeadOccurs(src.fn, k); }
  }

  /** Without a self-call the arm's value is the source arm itself. */
  lemma {:induction false} NoCallValue(a: Shape, v: Site, src: SrcTm, depth: nat)
    requires Fits(a, v) && Structural(a, src, depth) && Plain(src) && !SrcOccurs(src, depth + a.m + a.head.n)
    ensures ArmValue(a, v, src, depth) == Inst(Erase(src), UpN(SourceS(v), depth))
    decreases src
  {
    hide GoodCall, UpN, Occurs;
    match src
    case SLam(_, body) =>
      NoCallValue(a, v, body, depth + 1);
      UpUpN(SourceS(v), depth);
      InstExt(Erase(body), UpN(SourceS(v), depth + 1), Up(UpN(SourceS(v), depth)));
    case SApp(g, x) =>
      if SrcHead(src) == SVar(depth + a.m + a.head.n) { HeadOccurs(src, depth + a.m + a.head.n); }
      NoCallValue(a, v, g, depth);
      NoCallValue(a, v, x, depth);
    case _ =>
  }

  // ---------------------------------------------------------------------------------------------
  // ι by the layout of the spine

  /** The recursor on each recursive field, in order: the shared prefix, the field's indices, the field. */
  function Recursions(i: nat, prefix: seq<Tm>, recs: seq<nat>, flds: seq<Tm>, idx: seq<seq<Tm>>): (r: seq<Tm>)
    requires |idx| == |flds| && forall j :: 0 <= j < |recs| ==> recs[j] < |flds|
    ensures |r| == |recs|
    ensures forall j :: 0 <= j < |r| ==> r[j] == Apply(Elim(i), prefix + idx[recs[j]] + [flds[recs[j]]])
  {
    seq(|recs|, j requires 0 <= j < |recs| => Apply(Elim(i), prefix + idx[recs[j]] + [flds[recs[j]]]))
  }

  lemma HypothesisIs(i: nat, prefix: seq<Tm>, idx: seq<Tm>, fld: Tm)
    ensures Hypothesis(i, prefix, idx, fld) == Apply(Elim(i), prefix + idx + [fld])
  {
    ApplyConcat(Elim(i), prefix, idx);
    ApplyConcat(Elim(i), prefix + idx, [fld]);
    assert [fld][..0] == [];
  }

  /** The indices of every recursive field are known. */
  ghost predicate IndicesAre(o: IndexOracle, ctx: Ctx, ind: Inductive, i: nat, tele: seq<Tm>, flds: seq<Tm>,
      idx: seq<seq<Tm>>) {
    && |idx| == |tele| == |flds|
    && forall p :: 0 <= p < |tele| && HeadIsInd(tele[p], i) ==> FieldIndices(o, ctx, ind, i, flds[p]) == Some(idx[p])
  }

  lemma {:induction false} HypothesesAre(o: IndexOracle, ctx: Ctx, ind: Inductive, i: nat, tele: seq<Tm>,
      prefix: seq<Tm>, flds: seq<Tm>, idx: seq<seq<Tm>>, pos: nat)
    requires IndicesAre(o, ctx, ind, i, tele, flds, idx) && pos <= |tele|
    ensures
      var h := Hypotheses(o, ctx, ind, i, tele, prefix, flds, pos);
      h.Some? &&
      Recursions(i, prefix, Recursor.Recs(tele, i, pos), flds, idx) + h.value ==
          Recursions(i, prefix, Recursor.Recs(tele, i, |tele|), flds, idx)
    decreases |tele| - pos
  {
    hide Apply, Hypothesis;
    if pos < |tele| {
      HypothesesAre(o, ctx, ind, i, tele, prefix, flds, idx, pos + 1);
      var done := Recursions(i, prefix, Recursor.Recs(tele, i, pos), flds, idx);
      var next := Recursions(i, prefix, Recursor.Recs(tele, i, pos + 1), flds, idx);
      var rest := Hypotheses(o, ctx, ind, i, tele, prefix, flds, pos + 1).value;
      if HeadIsInd(tele[pos], i) {
        HypothesisIs(i, prefix, idx[pos], flds[pos]);
        var h := Hypothesis(i, prefix, idx[pos], flds[pos]);
        assert next == done + [h];
        assert done + ([h] + rest) == next + rest;
      }
    }
  }

  lemma HypothesesAll(o: IndexOracle, ctx: Ctx, ind: Inductive, i: nat, tele: seq<Tm>, prefix: seq<Tm>, flds: seq<Tm>,
      idx: seq<seq<Tm>>)
    requires IndicesAre(o, ctx, ind, i, tele, flds, idx)
    ensures Hypotheses(o, ctx, ind, i, tele, prefix, flds, 0) ==
      Some(Recursions(i, prefix, Recursor.Recs(tele, i, |tele|), flds, idx))
  {
    hide Hypotheses, IndicesAre;
    HypothesesAre(o, ctx, ind, i, tele, prefix, flds, idx, 0);
    IndicesSizes(o, ctx, ind, i, tele, flds, idx);
    var h := Hypotheses(o, ctx, ind, i, tele, prefix, flds, 0).value;
    assert Recursions(i, prefix, Recursor.Recs(tele, i, 0), flds, idx) + h == h;
  }

  lemma IndicesSizes(o: IndexOracle, ctx: Ctx, ind: Inductive, i: nat, tele: seq<Tm>, flds: seq<Tm>, idx: seq<seq<Tm>>)
    requires IndicesAre(o, ctx, ind, i, tele, flds, idx)
    ensures |idx| == |tele| == |flds|
  {
  }

  /**
   The contractum for any parameters and indices. A recursor on parameters, motive, minors, indices
   and a constructor with its parameters and fields becomes the constructor's minor on the fields,
   one recursion per recursive field and the arguments that follow.
   */
  lemma IotaLayout(o: IndexOracle, ctx: Ctx, ind: Inductive, i: nat, k: nat, ps: seq<Tm>, motive: Tm, minors: seq<Tm>,
      ix: seq<Tm>, scrut: Tm, rest: seq<Tm>, qs: seq<Tm>, flds: seq<Tm>, idx: seq<seq<Tm>>)
    requires |ps| == |qs| == |ind.params| && |minors| == |ind.ctors| && |ix| == |ind.indices| && k < |ind.ctors|
    requires IndicesAre(o, ctx, ind, i, ind.ctors[k].args, flds, idx)
    ensures
      var recs := Recursor.Recs(ind.ctors[k].args, i, |flds|);
      var args := ps + [motive] + minors + ix + [scrut] + rest;
      |args| >= Arity(ind) &&
      IotaContract(o, ctx, ind, i, k, args, qs + flds) ==
        Some(Apply(minors[k], flds + Recursions(i, ps + [motive] + minors, recs, flds, idx) + rest))
  {
    hide Hypotheses, Recursions, Recursor.Recs, IndicesAre;
    IndicesSizes(o, ctx, ind, i, ind.ctors[k].args, flds, idx);
    HypothesesAll(o, ctx, ind, i, ind.ctors[k].args, ps + [motive] + minors, flds, idx);
    var ihs := Recursions(i, ps + [motive] + minors, Recursor.Recs(ind.ctors[k].args, i, |flds|), flds, idx);
    var np, args := |ps|, ps + [motive] + minors + ix + [scrut] + rest;
    LayoutParts(ps, motive, minors, ix, scrut, rest, k);
    assert (qs + flds)[Min(np, |qs + flds|)..] == flds;
    ApplyConcat(minors[k], flds, ihs);
    ApplyConcat(minors[k], flds + ihs, rest);
  }

  lemma LayoutParts(ps: seq<Tm>, motive: Tm, minors: seq<Tm>, ix: seq<Tm>, scrut: Tm, rest: seq<Tm>, k: nat)
    requires k < |minors|
    ensures
      var args := ps + [motive] + minors + ix + [scrut] + rest;
      && args[..|ps| + 1 + |minors|] == ps + [motive] + minors && args[|ps| + 1 + k] == minors[k]
      && args[|ps| + 1 + |minors| + |ix| + 1..] == rest
  {
  }

  // ---------------------------------------------------------------------------------------------
  // ι on a family without parameters and indices

  /** The hypotheses a recursor with the given prefix builds for the recursive fields. */
  function Ihs(i: nat, prefix: seq<Tm>, recs: seq<nat>, flds: seq<Tm>): (r: seq<Tm>)
    requires forall j :: 0 <= j < |recs| ==> recs[j] < |flds|
    ensures |r| == |recs| && forall j :: 0 <= j < |r| ==> r[j] == App(Apply(Elim(i), prefix), flds[recs[j]])
  {
    seq(|recs|, j requires 0 <= j < |recs| => App(Apply(Elim(i), prefix), flds[recs[j]]))
  }

  lemma IhsAre(i: nat, prefix: seq<Tm>, recs: seq<nat>, flds: seq<Tm>, idx: seq<seq<Tm>>)
    requires |idx| == |flds| && (forall j :: 0 <= j < |recs| ==> recs[j] < |flds|)
    requires forall p :: 0 <= p < |idx| ==> idx[p] == []
    ensures Recursions(i, prefix, recs, flds, idx) == Ihs(i, prefix, recs, flds)
  {
    forall j | 0 <= j < |recs|
      ensures Recursions(i, prefix, recs, flds, idx)[j] == Ihs(i, prefix, recs, flds)[j]
    {
      var fld := flds[recs[j]];
      assert prefix + [] == prefix && (prefix + [fld])[..|prefix|] == prefix;
    }
  }

  lemma BarePrefix(pre: seq<Tm>, scrut: Tm)
    requires pre != []
    ensures [] + [pre[0]] + pre[1..] == pre
    ensures [] + [pre[0]] + pre[1..] + [] + [scrut] + [] == pre + [scrut]
  {
  }

  lemma IotaContracts(o: IndexOracle, ctx: Ctx, ind: Inductive, i: nat, k: nat, pre: seq<Tm>, scrut: Tm, flds: seq<Tm>)
    requires ind.params == [] && ind.indices == [] && k < |ind.ctors|
    requires |pre| == 1 + |ind.ctors| && |flds| == |ind.ctors[k].args|
    ensures
      var recs := Recursor.Recs(ind.ctors[k].args, i, |flds|);
      IotaContract(o, ctx, ind, i, k, pre + [scrut], flds) == Some(Apply(pre[1 + k], flds + Ihs(i, pre, recs, flds)))
  {
    hide Hypotheses, Ihs, Recursor.Recs, IotaContract, Apply, Recursions;
    var idx: seq<seq<Tm>> := seq(|flds|, _ => []);
    IotaLayout(o, ctx, ind, i, k, [], pre[0], pre[1..], [], scrut, [], [], flds, idx);
    var recs := Recursor.Recs(ind.ctors[k].args, i, |flds|);
    IhsAre(i, pre, recs, flds, idx);
    BarePrefix(pre, scrut);
    assert [] + flds == flds;
    assert flds + Ihs(i, pre, recs, flds) + [] == flds + Ihs(i, pre, recs, flds);
  }

  /** The recursor on a constructor steps to the minor on the fields and their hypotheses. */
  lemma IotaFires(env: GEnv, o: IndexOracle, ctx: Ctx, i: nat, k: nat, pre: seq<Tm>, flds: seq<Tm>)
    requires i in env.inds && env.inds[i].params == [] && env.inds[i].indices == [] && k < |env.inds[i].ctors|
    requires |pre| == 1 + |env.inds[i].ctors| && |flds| == |env.inds[i].ctors[k].args|
    ensures
      var recs := Recursor.Recs(env.inds[i].ctors[k].args, i, |flds|);
      Reduces(env, o, ctx, App(Apply(Elim(i), pre), Apply(Ctor(i, k), flds)),
              Apply(pre[1 + k], flds + Ihs(i, pre, recs, flds)))
  {
    hide Reduces, IotaContract, Ihs, Recursor.Recs, Apply;
    var out := Apply(pre[1 + k], flds + Ihs(i, pre, Recursor.Recs(env.inds[i].ctors[k].args, i, |flds|), flds));
    IotaContracts(o, ctx, env.inds[i], i, k, pre, Apply(Ctor(i, k), flds), flds);
    RedRule(env, o, ctx, DIota(i, k, pre, flds, out));
  }

  // ---------------------------------------------------------------------------------------------
  // The fix

  /** Families are stored under their own name. */
  ghost predicate Named(env: GEnv) {
    forall i :: i in env.inds ==> env.inds[i].id == i
  }

  lemma {:induction false} RecsSorted(fields: seq<Tm>, i: nat, n: nat)
    requires n <= |fields|
    ensures Increasing(Recursor.Recs(fields, i, n))
  {
    if n > 0 {
      RecsSorted(fields, i, n - 1);
      var q := Recursor.Recs(fields, i, n - 1);
      if !HeadIsInd(fields[n - 1], i) { assert q + [] == q; }
    }
  }

  lemma {:induction false} MinorsAt(env: GEnv, ind: Inductive, src: SrcTm, fix: Option<FixHead>, from: nat, k: nat)
    requires src.SMatch? && from <= k < |ind.ctors| && LowerMinors(env, ind, src, fix, from).LOk?
    ensures
      && |LowerMinors(env, ind, src, fix, from).value| == |ind.ctors| - from
      && FindArm(src.arms, k).Some?
      && LowerMinor(env, ind, src.arms[FindArm(src.arms, k).value], fix) ==
          LOk(LowerMinors(env, ind, src, fix, from).value[k - from])
    decreases |ind.ctors| - from
  {
    hide LowerMinor;
    if from < k { MinorsAt(env, ind, src, fix, from + 1, k); }
    else if from + 1 < |ind.ctors| { MinorsAt(env, ind, src, fix, from + 1, from + 1); }
  }

  /** A fix the lowering accepts. */
  predicate Lowered(env: GEnv, fx: SrcTm) {
    fx.SFix? && LowerFix(env, fx).LOk?
  }

  function Doms(fx: SrcTm): seq<Tm>
    requires fx.SFix?
  {
    PeelDoms(fx.fixBody)
  }

  function Body(env: GEnv, fx: SrcTm): (m: SrcTm)
    requires Lowered(env, fx)
    ensures m.SMatch? && m.ind in env.inds && fx.recArg < |Doms(fx)| && m.scrut == SVar(|Doms(fx)| - 1 - fx.recArg)
    ensures LowerMinors(env, env.inds[m.ind], m, Some(FixHeadOf(fx)), 0).LOk?
  {
    var m := PeelBody(fx.fixBody);
    assert LowerMatch(env, m, Some(FixHeadOf(fx))).LOk?;
    m
  }

  function Family(env: GEnv, fx: SrcTm): (ind: Inductive)
    requires Lowered(env, fx)
    ensures ind.params == [] && ind.indices == []
  {
    env.inds[Body(env, fx).ind]
  }

  function FixHeadOf(fx: SrcTm): FixHead
    requires fx.SFix?
  {
    FixHead(fx.recArg, |Doms(fx)|)
  }

  /** The motive and the minors the recursor is applied to. */
  function Prefix(env: GEnv, fx: SrcTm): seq<Tm>
    requires Lowered(env, fx)
  {
    [Body(env, fx).motive] + LowerMinors(env, Family(env, fx), Body(env, fx), Some(FixHeadOf(fx)), 0).value
  }

  lemma FixIs(env: GEnv, fx: SrcTm)
    requires Lowered(env, fx)
    ensures
      LowerFix(env, fx).value ==
      Lams(Doms(fx), App(Apply(Elim(Body(env, fx).ind), Prefix(env, fx)), Var(|Doms(fx)| - 1 - fx.recArg)))
  {
    hide LowerMinors, Lams, Apply, PeelDoms, PeelBody;
  }

  function Arm(env: GEnv, fx: SrcTm, k: nat): (arm: SrcArm)
    requires Lowered(env, fx) && k < |Family(env, fx).ctors|
    ensures arm.ix == k && arm in Body(env, fx).arms
  {
    var m := Body(env, fx);
    MinorsAt(env, Family(env, fx), m, Some(FixHeadOf(fx)), 0, k);
    m.arms[FindArm(m.arms, k).value]
  }

  function ShapeOf(env: GEnv, fx: SrcTm, k: nat): (a: Shape)
    requires Lowered(env, fx) && k < |Family(env, fx).ctors|
    ensures a.Ok()
  {
    var ind := Family(env, fx);
    RecsSorted(ind.ctors[k].args, ind.id, |ind.ctors[k].args|);
    assert fx.recArg < |Doms(fx)|;
    Shape(FixHeadOf(fx), |ind.ctors[k].args|, RecPositions(ind, k))
  }

  lemma {:induction false} StructuralPlain(a: Shape, src: SrcTm, depth: nat)
    requires Structural(a, src, depth)
    ensures Plain(src)
    decreases src
  {
    match src
    case SLam(_, b) => StructuralPlain(a, b, depth + 1);
    case SApp(g, x) =>
      if SrcHead(src) == SVar(depth + a.m + a.head.n) {
        SpinePlain(src);
      } else {
        StructuralPlain(a, g, depth);
        StructuralPlain(a, x, depth);
      }
    case _ =>
  }

  lemma {:induction false} SpinePlain(src: SrcTm)
    requires Plain(SrcHead(src)) && forall k :: 0 <= k < |SrcArgs(src)| ==> SrcArgs(src)[k].SVar?
    ensures Plain(src)
  {
    if src.SApp? {
      assert SrcArgs(src)[|SrcArgs(src)| - 1] == src.arg;
      assert forall k :: 0 <= k < |SrcArgs(src.fn)| ==> SrcArgs(src)[k] == SrcArgs(src.fn)[k];
      SpinePlain(src.fn);
    }
  }

  /** Every arm of an accepted fix is structural, and minor `k` is its lowering under the binders. */
  lemma ArmLowered(env: GEnv, fx: SrcTm, k: nat)
    requires Lowered(env, fx) && k < |Family(env, fx).ctors|
    ensures
      var a, arm := ShapeOf(env, fx, k), Arm(env, fx, k);
      && |arm.binders| == a.m && Structural(a, arm.rhs, 0) && Plain(arm.rhs)
      && |Prefix(env, fx)| == 1 + |Family(env, fx).ctors|
      && LowerRhs(arm.rhs, a.Scope(), 0).LOk?
      && Prefix(env, fx)[1 + k] == Lams(MinorBinders(Family(env, fx), k), LowerRhs(arm.rhs, a.Scope(), 0).value)
  {
    hide LowerMinors, Lams, Structural, LowerRhs, MinorBinders, Plain;
    var a, arm := ShapeOf(env, fx, k), Arm(env, fx, k);
    MinorsAt(env, Family(env, fx), Body(env, fx), Some(FixHeadOf(fx)), 0, k);
    LowerRhsAccepts(a, arm.rhs, 0);
    StructuralPlain(a, arm.rhs, 0);
  }

  /** The recursor a full application of the emitted term reduces to, in any environment. */
  lemma CallIsRecursor(env: GEnv, at: GEnv, o: IndexOracle, ctx: Ctx, fx: SrcTm, xs: seq<Tm>)
    requires Lowered(env, fx) && |xs| == |Doms(fx)|
    ensures
      Reduces(at, o, ctx, Apply(LowerFix(env, fx).value, xs),
              App(Apply(Elim(Body(env, fx).ind), InstAll(Prefix(env, fx), ArgS(xs))), xs[fx.recArg]))
  {
    hide Reduces, LowerFix, Apply, InstAll, Prefix;
    FixIs(env, fx);
    var body := App(Apply(Elim(Body(env, fx).ind), Prefix(env, fx)), Var(|Doms(fx)| - 1 - fx.recArg));
    BetaMany(at, o, ctx, Doms(fx), body, xs);
    InstApply(Elim(Body(env, fx).ind), Prefix(env, fx), ArgS(xs));
  }

  // ---------------------------------------------------------------------------------------------
  // When the recursor's prefix does not depend on the decreasing argument

  /** The variable of the decreasing argument under the fix's λs. */
  function Dec(fx: SrcTm): nat
    requires fx.SFix? && fx.recArg < |Doms(fx)|
  {
    |Doms(fx)| - 1 - fx.recArg
  }

  /** Neither the motive nor a minor of the emitted recursor mentions the decreasing argument. */
  predicate PrefixFree(env: GEnv, fx: SrcTm)
    requires Lowered(env, fx)
  {
    assert Body(env, fx).SMatch?;
    forall q :: 0 <= q < |Prefix(env, fx)| ==> !Occurs(Prefix(env, fx)[q], Dec(fx))
  }

  /** The same of the source: neither the motive nor an arm mentions it. */
  predicate Unmentioned(env: GEnv, fx: SrcTm)
    requires Lowered(env, fx)
  {
    && !Occurs(Body(env, fx).motive, Dec(fx))
    && forall k :: 0 <= k < |Family(env, fx).ctors| ==>
        !SrcOccurs(Arm(env, fx, k).rhs, |Family(env, fx).ctors[k].args| + Dec(fx))
  }

  /** Constructor fields form telescopes. */
  predicate Telescopes(ind: Inductive) {
    forall k, p :: 0 <= k < |ind.ctors| && 0 <= p < |ind.ctors[k].args| ==> Scoped(ind.ctors[k].args[p], p)
  }

  lemma {:induction false} ScopedAvoids(t: Tm, n: nat, k: nat)
    requires Scoped(t, n) && n <= k
    ensures !Occurs(t, k)
    decreases t
  {
    match t
    case Pi(a, b) => ScopedAvoids(a, n, k); ScopedAvoids(b, n + 1, k + 1);
    case Lam(a, b) => ScopedAvoids(a, n, k); ScopedAvoids(b, n + 1, k + 1);
    case App(f, x) => ScopedAvoids(f, n, k); ScopedAvoids(x, n, k);
    case _ =>
  }

  lemma {:induction false} LamsOccurs(doms: seq<Tm>, body: Tm, k: nat)
    requires forall p :: 0 <= p < |doms| ==> !Occurs(doms[p], k + p)
    ensures Occurs(Lams(doms, body), k) == Occurs(body, k + |doms|)
    decreases |doms|
  {
    if doms != [] {
      forall p | 0 <= p < |doms[1..]|
        ensures !Occurs(doms[1..][p], k + 1 + p)
      {
        assert doms[1..][p] == doms[p + 1];
      }
      LamsOccurs(doms[1..], body, k + 1);
    }
  }

  lemma {:induction false} CoreOccurs(t: Tm, d: nat, f: nat, r: nat, k: nat)
    requires d <= k < f && !Occurs(t, f)
    ensures Occurs(Shift(Shift(t, -1, f + 1), r, d), k + r) == Occurs(t, k)
    decreases t
  {
    match t
    case Pi(a, b) => CoreOccurs(a, d, f, r, k); CoreOccurs(b, d + 1, f + 1, r, k + 1);
    case Lam(a, b) => CoreOccurs(a, d, f, r, k); CoreOccurs(b, d + 1, f + 1, r, k + 1);
    case App(g, x) => CoreOccurs(g, d, f, r, k); CoreOccurs(x, d, f, r, k);
    case _ =>
  }

  lemma {:induction false} SpineOccurs(src: SrcTm, k: nat)
    requires SrcHead(src).SVar? && SrcHead(src) != SVar(k)
    requires forall t :: 0 <= t < |SrcArgs(src)| ==> SrcArgs(src)[t].SVar? && SrcArgs(src)[t] != SVar(k)
    ensures !SrcOccurs(src, k)
  {
    if src.SApp? {
      assert SrcArgs(src)[|SrcArgs(src)| - 1] == src.arg;
      assert forall t :: 0 <= t < |SrcArgs(src.fn)| ==> SrcArgs(src)[t] == SrcArgs(src.fn)[t];
      SpineOccurs(src.fn, k);
    }
  }

  /** A good call does not mention the decreasing argument. */
  lemma CallAvoids(a: Shape, src: SrcTm, depth: nat)
    requires a.Ok() && SrcHead(src) == SVar(depth + a.m + a.head.n) && GoodCall(a, SrcArgs(src), depth)
    ensures !SrcOccurs(src, depth + a.m + (a.head.n - 1 - a.head.recArg))
  {
    SpineOccurs(src, depth + a.m + (a.head.n - 1 - a.head.recArg));
  }

  /** The emitted body mentions the decreasing argument exactly if the arm does. */
  lemma {:induction false} MinorOccurs(a: Shape, src: SrcTm, depth: nat)
    requires a.Ok() && Structural(a, src, depth)
    ensures
      var t, k := LowerRhs(src, a.Scope(), depth), depth + a.m + (a.head.n - 1 - a.head.recArg);
      t.LOk? && Occurs(t.value, k + |a.recs|) == SrcOccurs(src, k)
    decreases src
  {
    hide GoodCall, SelfCallToIh, Shift;
    var f, k := depth + a.m + a.head.n, depth + a.m + (a.head.n - 1 - a.head.recArg);
    match src
    case SCore(t) => CoreOccurs(t, depth, f, |a.recs|, k);
    case SLam(dom, body) =>
      CoreOccurs(dom, depth, f, |a.recs|, k);
      MinorOccurs(a, body, depth + 1);
    case SApp(g, x) =>
      assert IsSelf(a.Scope(), SrcHead(src), depth) <==> SrcHead(src) == SVar(f);
      if SrcHead(src) == SVar(f) {
        var j := CallField(a, SrcArgs(src), depth);
        assert LowerRhs(src, a.Scope(), depth) == LOk(Var(|a.recs| - 1 - j + depth));
        CallAvoids(a, src, depth);
      } else {
        MinorOccurs(a, g, depth);
        MinorOccurs(a, x, depth);
      }
    case _ =>
  }

  lemma BindersAvoid(ind: Inductive, k: nat, dec: nat, p: nat)
    requires Telescopes(ind) && k < |ind.ctors| && p < |MinorBinders(ind, k)|
    ensures !Occurs(MinorBinders(ind, k)[p], dec + p)
  {
    var fields, recs := ind.ctors[k].args, RecPositions(ind, k);
    var q := if p < |fields| then p else recs[p - |fields|];
    assert Scoped(fields[q], q);
    ScopedAvoids(fields[q], q, dec + p);
  }

  lemma MinorMentions(env: GEnv, fx: SrcTm, k: nat)
    requires Lowered(env, fx) && Telescopes(Family(env, fx)) && k < |Family(env, fx).ctors|
    ensures |Prefix(env, fx)| == 1 + |Family(env, fx).ctors|
    ensures Occurs(Prefix(env, fx)[1 + k], Dec(fx)) ==
      SrcOccurs(Arm(env, fx, k).rhs, |Family(env, fx).ctors[k].args| + Dec(fx))
  {
    hide LowerRhs, Structural, Lams, Prefix, SrcOccurs, Occurs, MinorBinders, Telescopes;
    var ind, dec := Family(env, fx), Dec(fx);
    var a, arm := ShapeOf(env, fx, k), Arm(env, fx, k);
    ArmLowered(env, fx, k);
    MinorOccurs(a, arm.rhs, 0);
    forall p | 0 <= p < |MinorBinders(ind, k)|
      ensures !Occurs(MinorBinders(ind, k)[p], dec + p)
    {
      BindersAvoid(ind, k, dec, p);
    }
    BinderCount(ind, k);
    LamsOccurs(MinorBinders(ind, k), LowerRhs(arm.rhs, a.Scope(), 0).value, dec);
  }

  /** The emitted recursor is free of the decreasing argument exactly if the source is. */
  lemma PrefixFreeExact(env: GEnv, fx: SrcTm)
    requires Lowered(env, fx) && Telescopes(Family(env, fx))
    ensures PrefixFree(env, fx) <==> Unmentioned(env, fx)
  {
    hide Prefix, SrcOccurs, Occurs, Telescopes;
    PrefixHead(env, fx);
    PrefixLength(env, fx);
    forall k | 0 <= k < |Family(env, fx).ctors|
      ensures Occurs(Prefix(env, fx)[1 + k], Dec(fx)) ==
        SrcOccurs(Arm(env, fx, k).rhs, |Family(env, fx).ctors[k].args| + Dec(fx))
    {
      MinorMentions(env, fx, k);
    }
    if Unmentioned(env, fx) {
      forall q | 0 <= q < |Prefix(env, fx)|
        ensures !Occurs(Prefix(env, fx)[q], Dec(fx))
      {
        if q > 0 { MinorMentions(env, fx, q - 1); }
      }
    }
  }

  lemma BinderCount(ind: Inductive, k: nat)
    requires k < |ind.ctors|
    ensures |MinorBinders(ind, k)| == |ind.ctors[k].args| + |RecPositions(ind, k)|
  {
  }

  lemma PrefixHead(env: GEnv, fx: SrcTm)
    requires Lowered(env, fx)
    ensures |Prefix(env, fx)| > 0 && Prefix(env, fx)[0] == Body(env, fx).motive
  {
  }

  lemma PrefixLength(env: GEnv, fx: SrcTm)
    requires Lowered(env, fx)
    ensures |Prefix(env, fx)| == 1 + |Family(env, fx).ctors|
  {
    var ind := Family(env, fx);
    if |ind.ctors| > 0 { MinorsAt(env, ind, Body(env, fx), Some(FixHeadOf(fx)), 0, 0); }
  }

  /** The recursion a self-call on `y` reaches by β when the fix has received `args`. */
  function Reached(env: GEnv, fx: SrcTm, args: seq<Tm>, y: Tm): Tm
    requires Lowered(env, fx) && |args| == |Doms(fx)|
  {
    App(Apply(Elim(Body(env, fx).ind), InstAll(Prefix(env, fx), ArgS(args[fx.recArg := y]))), y)
  }

  /** The hypothesis ι supplies for the field `y` there. */
  function Supplied(env: GEnv, fx: SrcTm, args: seq<Tm>, y: Tm): Tm
    requires Lowered(env, fx) && |args| == |Doms(fx)|
  {
    App(Apply(Elim(Body(env, fx).ind), InstAll(Prefix(env, fx), ArgS(args))), y)
  }

  lemma PrefixBlind(env: GEnv, fx: SrcTm, args: seq<Tm>, y: Tm)
    requires Lowered(env, fx) && PrefixFree(env, fx) && |args| == |Doms(fx)|
    ensures InstAll(Prefix(env, fx), ArgS(args[fx.recArg := y])) == InstAll(Prefix(env, fx), ArgS(args))
  {
    hide Prefix, Occurs;
    var pre := Prefix(env, fx);
    forall q | 0 <= q < |pre|
      ensures Inst(pre[q], ArgS(args[fx.recArg := y])) == Inst(pre[q], ArgS(args))
    {
      InstAvoid(pre[q], Dec(fx), ArgS(args[fx.recArg := y]), ArgS(args));
    }
  }

  /** Two substitutions that send an occurring variable to different families give different terms. */
  lemma {:induction false} InstTells(t: Tm, k: nat, s: Substitution, s': Substitution)
    requires Occurs(t, k) && s(k).Ind? && s'(k).Ind? && s(k) != s'(k)
    ensures Inst(t, s) != Inst(t, s')
    decreases t
  {
    match t
    case Pi(a, b) => if Occurs(a, k) { InstTells(a, k, s, s'); } else { InstTells(b, k + 1, Up(s), Up(s')); }
    case Lam(a, b) => if Occurs(a, k) { InstTells(a, k, s, s'); } else { InstTells(b, k + 1, Up(s), Up(s')); }
    case App(f, x) => if Occurs(f, k) { InstTells(f, k, s, s'); } else { InstTells(x, k, s, s'); }
    case _ =>
  }

  lemma ElimTells(i: nat, xs: seq<Tm>, ys: seq<Tm>)
    requires xs != ys
    ensures Apply(Elim(i), xs) != Apply(Elim(i), ys)
  {
    ApplySpine(Elim(i), xs);
    ApplySpine(Elim(i), ys);
    assert [] + xs == xs && [] + ys == ys;
  }

  /** Some arguments tell the two recursions apart. */
  lemma RecursionsDiffer(env: GEnv, fx: SrcTm) returns (args: seq<Tm>, y: Tm)
    requires Lowered(env, fx) && !PrefixFree(env, fx)
    ensures |args| == |Doms(fx)| && Reached(env, fx, args, y) != Supplied(env, fx, args, y)
  {
    hide Prefix, Occurs, Apply;
    var pre := Prefix(env, fx);
    var q :| 0 <= q < |pre| && Occurs(pre[q], Dec(fx));
    args, y := seq(|Doms(fx)|, _ => Ind(0)), Ind(1);
    var s, s' := ArgS(args[fx.recArg := y]), ArgS(args);
    InstTells(pre[q], Dec(fx), s, s');
    assert InstAll(pre, s)[q] != InstAll(pre, s')[q];
    ElimTells(Body(env, fx).ind, InstAll(pre, s), InstAll(pre, s'));
  }

  /** β and ι recurse alike for all arguments and fields exactly if the prefix is free of the decreasing argument. */
  lemma RecursionExact(env: GEnv, fx: SrcTm)
    requires Lowered(env, fx)
    ensures PrefixFree(env, fx) <==>
      forall args, y :: |args| == |Doms(fx)| ==> Reached(env, fx, args, y) == Supplied(env, fx, args, y)
  {
    hide PrefixFree, Prefix;
    if PrefixFree(env, fx) {
      forall args, y | |args| == |Doms(fx)|
        ensures Reached(env, fx, args, y) == Supplied(env, fx, args, y)
      {
        PrefixBlind(env, fx, args, y);
      }
    } else {
      var args, y := RecursionsDiffer(env, fx);
    }
  }

  // ---------------------------------------------------------------------------------------------
  // The main results

  /** The values at constructor `k`: the emitted term, its arguments, the fields, their recursions. */
  function SiteOf(env: GEnv, fx: SrcTm, k: nat, args: seq<Tm>, flds: seq<Tm>): (v: Site)
    requires Lowered(env, fx) && k < |Family(env, fx).ctors| && |args| == |Doms(fx)|
    requires |flds| == |Family(env, fx).ctors[k].args|
    ensures Fits(ShapeOf(env, fx, k), v)
  {
    var ind := Family(env, fx);
    Site(LowerFix(env, fx).value, args, flds,
         Ihs(Body(env, fx).ind, InstAll(Prefix(env, fx), ArgS(args)), RecPositions(ind, k), flds))
  }

  lemma CallsAreRecursions(env: GEnv, o: IndexOracle, ctx: Ctx, fx: SrcTm, k: nat, args: seq<Tm>, flds: seq<Tm>)
    requires Lowered(env, fx) && PrefixFree(env, fx) && |args| == |Doms(fx)|
    requires k < |Family(env, fx).ctors| && |flds| == |Family(env, fx).ctors[k].args|
    ensures CallsReduce(o, ctx, ShapeOf(env, fx, k), SiteOf(env, fx, k, args, flds))
  {
    hide Reduces, Prefix, InstAll, LowerFix, PrefixFree, ArgS;
    var recs := RecPositions(Family(env, fx), k);
    var fn := LowerFix(env, fx).value;
    var v := SiteOf(env, fx, k, args, flds);
    forall j | 0 <= j < |recs|
      ensures Reduces(Bare(), o, ctx, Apply(fn, args[fx.recArg := flds[recs[j]]]), v.ihs[j])
    {
      CallIsRecursor(env, Bare(), o, ctx, fx, args[fx.recArg := flds[recs[j]]]);
      PrefixBlind(env, fx, args, flds[recs[j]]);
    }
  }

  /** The emitted term on constructor `k` reduces to the arm's value. */
  lemma EmittedReduces(env: GEnv, o: IndexOracle, ctx: Ctx, fx: SrcTm, k: nat, args: seq<Tm>, flds: seq<Tm>)
    requires Named(env) && Lowered(env, fx) && |args| == |Doms(fx)|
    requires k < |Family(env, fx).ctors| && |flds| == |Family(env, fx).ctors[k].args|
    requires args[fx.recArg] == Apply(Ctor(Body(env, fx).ind, k), flds)
    ensures
      && Structural(ShapeOf(env, fx, k), Arm(env, fx, k).rhs, 0)
      && Reduces(env, o, ctx, Apply(LowerFix(env, fx).value, args),
                 ArmValue(ShapeOf(env, fx, k), SiteOf(env, fx, k, args, flds), Arm(env, fx, k).rhs, 0))
  {
    hide Reduces, LowerFix, Prefix, InstAll, Structural, ArmValue, LowerRhs, Lams, MinorBinders, Apply, ArgS;
    var i, a, v := Body(env, fx).ind, ShapeOf(env, fx, k), SiteOf(env, fx, k, args, flds);
    var body := LowerRhs(Arm(env, fx, k).rhs, a.Scope(), 0);
    var pre := InstAll(Prefix(env, fx), ArgS(args));
    ArmLowered(env, fx, k);
    CallIsRecursor(env, env, o, ctx, fx, args);
    InstAllAt(Prefix(env, fx), ArgS(args), 1 + k);
    IotaFires(env, o, ctx, i, k, pre, flds);
    BinderCount(Family(env, fx), k);
    MinorApplied(env, o, ctx, MinorBinders(Family(env, fx), k), body.value, args, flds + v.ihs);
    MinorMeaning(a, v, Arm(env, fx, k).rhs, 0);
    UpNZero(TargetS(v));
    InstExt(body.value, UpN(TargetS(v), 0), TargetS(v));
    assert args + (flds + v.ihs) == args + flds + v.ihs;
    var value := ArmValue(a, v, Arm(env, fx, k).rhs, 0);
    RedTrans(env, o, ctx, App(Apply(Elim(i), pre), args[fx.recArg]), Apply(pre[1 + k], flds + v.ihs), value);
    RedTrans(env, o, ctx, Apply(LowerFix(env, fx).value, args), App(Apply(Elim(i), pre), args[fx.recArg]), value);
  }

  lemma InstAllAt(s: seq<Tm>, u: Substitution, k: nat)
    requires k < |s|
    ensures |InstAll(s, u)| == |s| && InstAll(s, u)[k] == Inst(s[k], u)
  {
  }

  lemma MinorApplied(env: GEnv, o: IndexOracle, ctx: Ctx, doms: seq<Tm>, body: Tm, outer: seq<Tm>, xs: seq<Tm>)
    requires |doms| == |xs|
    ensures Reduces(env, o, ctx, Apply(Inst(Lams(doms, body), ArgS(outer)), xs), Inst(body, ArgS(outer + xs)))
  {
    hide Reduces, Inst, Lams, Apply;
    InstLams(doms, body, ArgS(outer));
    BetaMany(env, o, ctx, InstDoms(doms, ArgS(outer)), Inst(body, UpN(ArgS(outer), |doms|)), xs);
    ComposeArgs(body, outer, xs);
  }

  /** The arm of constructor `k` mentions the function. */
  predicate SelfCalls(env: GEnv, fx: SrcTm, k: nat)
    requires Lowered(env, fx) && k < |Family(env, fx).ctors|
  {
    SrcOccurs(Arm(env, fx, k).rhs, |Family(env, fx).ctors[k].args| + |Doms(fx)|)
  }

  /**
   Lowering preserves meaning. On every constructor whose arm makes no self-call, and on all if the
   emitted recursor is free of the decreasing argument, the emitted recursor and the source arm,
   with the emitted term for `f`, reduce to a common term: the arm with each self-call replaced by
   the recursor on its field. Without a self-call that is the source arm.
   */
  lemma FixPreserved(env: GEnv, o: IndexOracle, ctx: Ctx, fx: SrcTm, k: nat, args: seq<Tm>, flds: seq<Tm>)
    requires Named(env) && Lowered(env, fx) && |args| == |Doms(fx)|
    requires k < |Family(env, fx).ctors| && |flds| == |Family(env, fx).ctors[k].args|
    requires SelfCalls(env, fx, k) ==> PrefixFree(env, fx)
    requires args[fx.recArg] == Apply(Ctor(Body(env, fx).ind, k), flds)
    ensures
      var e, arm := LowerFix(env, fx).value, Arm(env, fx, k).rhs;
      && Structural(ShapeOf(env, fx, k), arm, 0) && Plain(arm)
      && var common, source :=
            ArmValue(ShapeOf(env, fx, k), SiteOf(env, fx, k, args, flds), arm, 0),
            Inst(Erase(arm), ArgS([e] + args + flds));
         && Reduces(env, o, ctx, Apply(e, args), common)
         && Reduces(env, o, ctx, source, common)
         && (!SelfCalls(env, fx, k) ==> common == source)
  {
    hide Reduces, LowerFix, Structural, ArmValue, PrefixFree, Erase, Plain, SrcOccurs;
    var a, v, arm := ShapeOf(env, fx, k), SiteOf(env, fx, k, args, flds), Arm(env, fx, k).rhs;
    EmittedReduces(env, o, ctx, fx, k, args, flds);
    StructuralPlain(a, arm, 0);
    UpNZero(SourceS(v));
    InstExt(Erase(arm), UpN(SourceS(v), 0), SourceS(v));
    if SelfCalls(env, fx, k) {
      CallsAreRecursions(env, o, ctx, fx, k, args, flds);
      SourceReduces(env, o, ctx, ctx, a, v, arm, 0);
    } else {
      NoCallValue(a, v, arm, 0);
      RedRefl(env, o, ctx, ArmValue(a, v, arm, 0));
    }
  }

  // ---------------------------------------------------------------------------------------------
  // A plain match

  /** The hypotheses of a plain match are dead: shifting past them and supplying them cancels. */
  lemma DeadHypotheses(t: Tm, flds: seq<Tm>, ihs: seq<Tm>)
    ensures Inst(Shift(t, |ihs|, 0), ArgS(flds + ihs)) == Inst(t, ArgS(flds))
  {
    hide Inst;
    ShiftIsInst(t, |ihs|, 0);
    forall i: nat
      ensures ArgS(flds)(i) == Inst(ShiftS(|ihs|, 0)(i), ArgS(flds + ihs))
    {
      InstOfVar(ArgS(flds + ihs), i + |ihs|);
    }
    InstInst(t, ShiftS(|ihs|, 0), ArgS(flds + ihs), ArgS(flds));
  }

  /** The recursor of a plain match, on a constructor, reduces to the lowered arm with the fields for the binders. */
  lemma MatchCase(env: GEnv, o: IndexOracle, ctx: Ctx, src: SrcTm, k: nat, flds: seq<Tm>)
    requires Named(env) && src.SMatch? && LowerMatch(env, src, None).LOk?
    requires k < |env.inds[src.ind].ctors| && |flds| == |env.inds[src.ind].ctors[k].args|
    ensures
      var j, t := FindArm(src.arms, k), LowerMatch(env, src, None).value;
      && j.Some? && Lower(env, src.arms[j.value].rhs).LOk? && t.App?
      && Reduces(env, o, ctx, App(t.fn, Apply(Ctor(src.ind, k), flds)),
                 Inst(Lower(env, src.arms[j.value].rhs).value, ArgS(flds)))
  {
    hide Reduces, LowerMinors, Lams, Apply, MinorBinders, Ihs, Recursor.Recs;
    var ind := env.inds[src.ind];
    var pre := [src.motive] + LowerMinors(env, ind, src, None, 0).value;
    MinorsAt(env, ind, src, None, 0, k);
    var rhs := Lower(env, src.arms[FindArm(src.arms, k).value].rhs).value;
    var ihs := Ihs(src.ind, pre, RecPositions(ind, k), flds);
    IotaFires(env, o, ctx, src.ind, k, pre, flds);
    BinderCount(ind, k);
    var body := Shift(rhs, |ihs|, 0);
    assert pre[1 + k] == Lams(MinorBinders(ind, k), body);
    BetaMany(env, o, ctx, MinorBinders(ind, k), body, flds + ihs);
    DeadHypotheses(rhs, flds, ihs);
    RedTrans(env, o, ctx, App(Apply(Elim(src.ind), pre), Apply(Ctor(src.ind, k), flds)),
        Apply(pre[1 + k], flds + ihs), Inst(rhs, ArgS(flds)));
  }
}
