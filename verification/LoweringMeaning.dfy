/**
 What a surface term means, without reference to how it is lowered: variables, applications and λs
 mean themselves, a match computes its arms and a fix its unfolding. Lowered terms behave so, and
 lowering succeeds exactly on the accepted terms.
 */
module LoweringMeaning {
  import opened Common
  import opened Tms
  import opened TmCalculus
  import opened Driver
  import opened Reduction
  import opened Lowering
  import opened LoweringProof

  /** Arm `j` is the first one for constructor `k`. */
  predicate FirstArm(arms: seq<SrcArm>, j: int, k: nat) {
    0 <= j < |arms| && arms[j].ix == k && forall i :: 0 <= i < j ==> arms[i].ix != k
  }

  /** The term applied to constructor `k` of family `i` reduces to `a` with the fields for its last variables. */
  ghost predicate Computes(env: GEnv, o: IndexOracle, i: nat, fn: Tm, k: nat, a: Tm)
    requires i in env.inds && k < |env.inds[i].ctors|
  {
    forall ctx, flds :: |flds| == |env.inds[i].ctors[k].args| ==>
      Reduces(env, o, ctx, App(fn, Apply(Ctor(i, k), flds)), Inst(a, ArgS(flds)))
  }

  /** The core term `t` does what the surface term `src` says. */
  ghost predicate Behaves(env: GEnv, o: IndexOracle, src: SrcTm, t: Tm)
    decreases src, 1
  {
    match src
    case SVar(i) => t == Var(i)
    case SCore(c) => t == c
    case SApp(f, x) => t.App? && Behaves(env, o, f, t.fn) && Behaves(env, o, x, t.arg)
    case SLam(dom, body) => t.Lam? && t.dom == dom && Behaves(env, o, body, t.body)
    case SMatch(scrut, i, motive, arms) =>
      && i in env.inds && t.App? && Behaves(env, o, scrut, t.arg)
      && Head(t.fn) == Elim(i) && Args(t.fn) != [] && Args(t.fn)[0] == motive
      && forall k :: 0 <= k < |env.inds[i].ctors| ==> CaseBehaves(env, o, src, t.fn, k)
    case SFix(_, _, _) => FixBehaves(env, o, src, t)
  }

  /** On constructor `k` the term computes what the first arm for it means. */
  ghost predicate CaseBehaves(env: GEnv, o: IndexOracle, src: SrcTm, fn: Tm, k: nat)
    requires src.SMatch? && src.ind in env.inds && k < |env.inds[src.ind].ctors|
    decreases src, 0
  {
    exists j, a ::
      FirstArm(src.arms, j, k) && Behaves(env, o, src.arms[j].rhs, a) && Computes(env, o, src.ind, fn, k, a)
  }

  /** The decreasing argument is mentioned neither by the motive nor by any arm. */
  predicate ArgumentUnused(fx: SrcTm)
    requires fx.SFix? && PeelBody(fx.fixBody).SMatch? && fx.recArg < |PeelDoms(fx.fixBody)|
  {
    var m, dec := PeelBody(fx.fixBody), |PeelDoms(fx.fixBody)| - 1 - fx.recArg;
    && !Occurs(m.motive, dec)
    && forall j :: 0 <= j < |m.arms| ==> !SrcOccurs(m.arms[j].rhs, |m.arms[j].binders| + dec)
  }

  /**
   On every constructor the term and the arm, with the term for the function, have a common reduct,
   unless the arm calls the function and the decreasing argument is mentioned somewhere.
   */
  ghost predicate FixBehaves(env: GEnv, o: IndexOracle, fx: SrcTm, t: Tm)
    requires fx.SFix?
  {
    var doms, m := PeelDoms(fx.fixBody), PeelBody(fx.fixBody);
    && fx.recArg < |doms| && m.SMatch? && m.ind in env.inds
    && (exists body :: t == Lams(doms, body))
    && (Telescopes(env.inds[m.ind]) ==>
        forall k :: 0 <= k < |env.inds[m.ind].ctors| ==> FixCaseBehaves(env, o, fx, t, k))
  }

  ghost predicate FixCaseBehaves(env: GEnv, o: IndexOracle, fx: SrcTm, t: Tm, k: nat)
    requires fx.SFix? && fx.recArg < |PeelDoms(fx.fixBody)| && PeelBody(fx.fixBody).SMatch?
    requires PeelBody(fx.fixBody).ind in env.inds && k < |env.inds[PeelBody(fx.fixBody).ind].ctors|
  {
    var m, self := PeelBody(fx.fixBody), |env.inds[PeelBody(fx.fixBody).ind].ctors[k].args| + |PeelDoms(fx.fixBody)|;
    exists j ::
      && FirstArm(m.arms, j, k) && Plain(m.arms[j].rhs)
      && (ArgumentUnused(fx) || !SrcOccurs(m.arms[j].rhs, self) ==> Unfolds(env, o, fx, t, k, Erase(m.arms[j].rhs)))
  }

  ghost predicate Unfolds(env: GEnv, o: IndexOracle, fx: SrcTm, t: Tm, k: nat, arm: Tm)
    requires fx.SFix? && fx.recArg < |PeelDoms(fx.fixBody)| && PeelBody(fx.fixBody).SMatch?
    requires PeelBody(fx.fixBody).ind in env.inds && k < |env.inds[PeelBody(fx.fixBody).ind].ctors|
  {
    var n, i := |PeelDoms(fx.fixBody)|, PeelBody(fx.fixBody).ind;
    forall ctx, args, flds ::
      |args| == n && |flds| == |env.inds[i].ctors[k].args| && args[fx.recArg] == Apply(Ctor(i, k), flds) ==>
      Convertible(env, o, ctx, Apply(t, args), Inst(arm, ArgS([t] + args + flds)))
  }

  // ---------------------------------------------------------------------------------------------
  // Lowered terms behave

  lemma {:induction false} FindArmFirst(arms: seq<SrcArm>, k: nat)
    ensures FindArm(arms, k).Some? ==> FirstArm(arms, FindArm(arms, k).value, k)
    ensures FindArm(arms, k).None? ==> forall j :: 0 <= j < |arms| ==> arms[j].ix != k
    decreases |arms|
  {
    if arms != [] && arms[0].ix != k {
      FindArmFirst(arms[1..], k);
      assert forall j :: 0 <= j < |arms[1..]| ==> arms[1..][j] == arms[j + 1];
      assert forall j :: 0 < j < |arms| ==> arms[j] == arms[1..][j - 1];
    }
  }

  /** A term without matches and fixes lowers to itself. */
  lemma {:induction false} PlainLowers(env: GEnv, src: SrcTm)
    requires Plain(src)
    ensures Lower(env, src) == LOk(Erase(src))
    decreases src
  {
    match src
    case SLam(_, b) => PlainLowers(env, b);
    case SApp(f, x) => PlainLowers(env, f); PlainLowers(env, x);
    case _ =>
  }

  /** Whatever lowering answers behaves as its surface term. */
  lemma {:induction false} LowerBehaves(env: GEnv, o: IndexOracle, src: SrcTm)
    requires Named(env) && Lower(env, src).LOk?
    ensures Behaves(env, o, src, Lower(env, src).value)
    decreases src, 1
  {
    hide Named, Computes, FixBehaves, LowerMatch, LowerFix;
    match src
    case SLam(_, b) => LowerBehaves(env, o, b);
    case SApp(f, x) => LowerBehaves(env, o, f); LowerBehaves(env, o, x);
    case SMatch(_, _, _, _) => MatchBehaves(env, o, src);
    case SFix(_, _, _) => FixLowers(env, o, src);
    case _ =>
  }

  lemma {:induction false} MatchBehaves(env: GEnv, o: IndexOracle, src: SrcTm)
    requires Named(env) && src.SMatch? && LowerMatch(env, src, None).LOk?
    ensures Behaves(env, o, src, LowerMatch(env, src, None).value)
    decreases src, 0
  {
    hide Named, Computes, Apply, LowerMinors;
    var t, ind := LowerMatch(env, src, None).value, env.inds[src.ind];
    LowerBehaves(env, o, src.scrut);
    MatchSpine(env, src);
    forall k | 0 <= k < |ind.ctors|
      ensures CaseBehaves(env, o, src, t.fn, k)
    {
      FindArmFirst(src.arms, k);
      MatchComputesArm(env, o, src, k);
      LowerBehaves(env, o, src.arms[FindArm(src.arms, k).value].rhs);
      var j := FindArm(src.arms, k).value;
      CaseIs(env, o, src, t.fn, k, j, Lower(env, src.arms[j].rhs).value);
    }
  }

  lemma CaseIs(env: GEnv, o: IndexOracle, src: SrcTm, fn: Tm, k: nat, j: nat, a: Tm)
    requires src.SMatch? && src.ind in env.inds && k < |env.inds[src.ind].ctors|
    requires FirstArm(src.arms, j, k) && Behaves(env, o, src.arms[j].rhs, a) && Computes(env, o, src.ind, fn, k, a)
    ensures CaseBehaves(env, o, src, fn, k)
  {
  }

  lemma MatchSpine(env: GEnv, src: SrcTm)
    requires src.SMatch? && LowerMatch(env, src, None).LOk?
    ensures
      var t := LowerMatch(env, src, None).value;
      && t.App? && Lower(env, src.scrut) == LOk(t.arg)
      && Head(t.fn) == Elim(src.ind) && Args(t.fn) != [] && Args(t.fn)[0] == src.motive
  {
    hide LowerMinors, Apply;
    var pre := [src.motive] + LowerMinors(env, env.inds[src.ind], src, None, 0).value;
    ApplySpine(Elim(src.ind), pre);
    assert [] + pre == pre;
  }

  lemma MatchComputesArm(env: GEnv, o: IndexOracle, src: SrcTm, k: nat)
    requires Named(env) && src.SMatch? && LowerMatch(env, src, None).LOk? && k < |env.inds[src.ind].ctors|
    ensures
      var j, t := FindArm(src.arms, k), LowerMatch(env, src, None).value;
      && j.Some? && Lower(env, src.arms[j.value].rhs).LOk? && t.App?
      && Computes(env, o, src.ind, t.fn, k, Lower(env, src.arms[j.value].rhs).value)
  {
    hide Reduces, Apply, Lower, Named;
    MatchCase(env, o, [], src, k, seq(|env.inds[src.ind].ctors[k].args|, _ => Sort(0)));
    var t := LowerMatch(env, src, None).value;
    var a := Lower(env, src.arms[FindArm(src.arms, k).value].rhs).value;
    forall ctx, flds | |flds| == |env.inds[src.ind].ctors[k].args|
      ensures Reduces(env, o, ctx, App(t.fn, Apply(Ctor(src.ind, k), flds)), Inst(a, ArgS(flds)))
    {
      MatchCase(env, o, ctx, src, k, flds);
    }
  }

  /** A lowered match on a constructor reduces to what the first arm for it means, with the fields for the binders. */
  lemma MatchComputes(env: GEnv, o: IndexOracle, ctx: Ctx, src: SrcTm, k: nat, flds: seq<Tm>)
    requires Named(env) && src.SMatch? && Lower(env, src).LOk? && src.ind in env.inds
    requires k < |env.inds[src.ind].ctors| && |flds| == |env.inds[src.ind].ctors[k].args|
    requires Lower(env, src).value.App? && Lower(env, src).value.arg == Apply(Ctor(src.ind, k), flds)
    ensures exists j, a ::
      && FirstArm(src.arms, j, k) && Behaves(env, o, src.arms[j].rhs, a)
      && Reduces(env, o, ctx, Lower(env, src).value, Inst(a, ArgS(flds)))
  {
    hide Reduces, Apply, LowerMatch, Named;
    LowerBehaves(env, o, src);
    var t := Lower(env, src).value;
    assert CaseBehaves(env, o, src, t.fn, k);
    var j, a :|
      FirstArm(src.arms, j, k) && Behaves(env, o, src.arms[j].rhs, a) && Computes(env, o, src.ind, t.fn, k, a);
    assert Reduces(env, o, ctx, App(t.fn, Apply(Ctor(src.ind, k), flds)), Inst(a, ArgS(flds)));
  }

  lemma FixParts(env: GEnv, fx: SrcTm)
    requires Lowered(env, fx)
    ensures Doms(fx) == PeelDoms(fx.fixBody) && Body(env, fx) == PeelBody(fx.fixBody)
    ensures Family(env, fx) == env.inds[PeelBody(fx.fixBody).ind]
  {
  }

  /** The arm the lowering takes for a constructor is the first one for it. */
  lemma ArmIs(env: GEnv, fx: SrcTm, k: nat)
    requires Lowered(env, fx) && k < |Family(env, fx).ctors|
    ensures
      var j := FindArm(Body(env, fx).arms, k);
      j.Some? && FirstArm(Body(env, fx).arms, j.value, k) && Body(env, fx).arms[j.value] == Arm(env, fx, k)
  {
    hide LowerMinors;
    MinorsAt(env, Family(env, fx), Body(env, fx), Some(FixHeadOf(fx)), 0, k);
    FindArmFirst(Body(env, fx).arms, k);
  }

  lemma UnusedUnmentioned(env: GEnv, fx: SrcTm)
    requires Lowered(env, fx) && PeelBody(fx.fixBody).SMatch?
    requires fx.recArg < |PeelDoms(fx.fixBody)| && ArgumentUnused(fx)
    ensures Unmentioned(env, fx)
  {
    hide SrcOccurs, Occurs, LowerMinors;
    FixParts(env, fx);
    forall k | 0 <= k < |Family(env, fx).ctors|
      ensures !SrcOccurs(Arm(env, fx, k).rhs, |Family(env, fx).ctors[k].args| + Dec(fx))
    {
      ArmIs(env, fx, k);
      ArmLowered(env, fx, k);
    }
  }

  lemma FixLowers(env: GEnv, o: IndexOracle, fx: SrcTm)
    requires Named(env) && fx.SFix? && LowerFix(env, fx).LOk?
    ensures Behaves(env, o, fx, LowerFix(env, fx).value)
  {
    hide LowerFix, ArgumentUnused, Unfolds, Telescopes, SrcOccurs, Plain, Lams;
    assert Lowered(env, fx);
    FixParts(env, fx);
    FixIs(env, fx);
    var t, m := LowerFix(env, fx).value, PeelBody(fx.fixBody);
    if Telescopes(env.inds[m.ind]) {
      forall k | 0 <= k < |env.inds[m.ind].ctors|
        ensures FixCaseBehaves(env, o, fx, t, k)
      {
        FixCaseIs(env, o, fx, k);
      }
    }
  }

  lemma FixCaseIs(env: GEnv, o: IndexOracle, fx: SrcTm, k: nat)
    requires Named(env) && Lowered(env, fx) && k < |Family(env, fx).ctors| && Telescopes(Family(env, fx))
    requires PeelBody(fx.fixBody).SMatch? && fx.recArg < |PeelDoms(fx.fixBody)|
    requires Family(env, fx) == env.inds[PeelBody(fx.fixBody).ind] && Body(env, fx) == PeelBody(fx.fixBody)
    ensures FixCaseBehaves(env, o, fx, LowerFix(env, fx).value, k)
  {
    hide ArgumentUnused, Unfolds, Telescopes, SrcOccurs, Plain, Erase;
    var m, t := PeelBody(fx.fixBody), LowerFix(env, fx).value;
    ArmIs(env, fx, k);
    ArmPlain(env, fx, k);
    var j := FindArm(m.arms, k).value;
    if ArgumentUnused(fx) || !SelfCalls(env, fx, k) { FixUnfolds(env, o, fx, k); }
    assert FirstArm(m.arms, j, k) && Plain(m.arms[j].rhs);
  }

  lemma ArmPlain(env: GEnv, fx: SrcTm, k: nat)
    requires Lowered(env, fx) && k < |Family(env, fx).ctors|
    ensures Plain(Arm(env, fx, k).rhs)
  {
    hide Lowered, Plain;
    ArmLowered(env, fx, k);
  }

  lemma FixUnfolds(env: GEnv, o: IndexOracle, fx: SrcTm, k: nat)
    requires Named(env) && Lowered(env, fx) && k < |Family(env, fx).ctors| && Telescopes(Family(env, fx))
    requires PeelBody(fx.fixBody).SMatch? && fx.recArg < |PeelDoms(fx.fixBody)|
    requires ArgumentUnused(fx) || !SelfCalls(env, fx, k)
    ensures Plain(Arm(env, fx, k).rhs)
    ensures PeelBody(fx.fixBody).ind in env.inds && k < |env.inds[PeelBody(fx.fixBody).ind].ctors|
    ensures Unfolds(env, o, fx, LowerFix(env, fx).value, k, Erase(Arm(env, fx, k).rhs))
  {
    hide Reduces, LowerFix, ArgumentUnused, Telescopes, SrcOccurs, Plain, Erase, PrefixFree;
    hide Structural, ArmValue, Apply;
    FixParts(env, fx);
    ArmPlain(env, fx, k);
    if ArgumentUnused(fx) {
      UnusedUnmentioned(env, fx);
      PrefixFreeExact(env, fx);
    }
    var t, arm, i := LowerFix(env, fx).value, Arm(env, fx, k).rhs, PeelBody(fx.fixBody).ind;
    forall ctx, args, flds |
        |args| == |Doms(fx)| && |flds| == |env.inds[i].ctors[k].args| && args[fx.recArg] == Apply(Ctor(i, k), flds)
      ensures Convertible(env, o, ctx, Apply(t, args), Inst(Erase(arm), ArgS([t] + args + flds)))
    {
      FixPreserved(env, o, ctx, fx, k, args, flds);
    }
  }

  // ---------------------------------------------------------------------------------------------
  // Lowering succeeds exactly on the accepted terms

  /** The family can be matched on: declared, without parameters and indices, as many arms as constructors. */
  predicate Matchable(env: GEnv, i: nat, arms: seq<SrcArm>) {
    i in env.inds && env.inds[i].params == [] && env.inds[i].indices == [] && |arms| == |env.inds[i].ctors|
  }

  /** The shape of the arm of constructor `k` inside a fix. */
  function ArmShape(fx: SrcTm, ind: Inductive, k: nat): Shape
    requires fx.SFix? && k < |ind.ctors|
  {
    Shape(FixHead(fx.recArg, |PeelDoms(fx.fixBody)|), |ind.ctors[k].args|, RecPositions(ind, k))
  }

  ghost predicate Accepted(env: GEnv, src: SrcTm)
    decreases src, 1
  {
    match src
    case SVar(_) => true
    case SCore(_) => true
    case SApp(f, x) => Accepted(env, f) && Accepted(env, x)
    case SLam(_, body) => Accepted(env, body)
    case SMatch(scrut, i, _, arms) =>
      && Matchable(env, i, arms) && Accepted(env, scrut)
      && forall k :: 0 <= k < |arms| ==> CaseAccepted(env, src, k)
    case SFix(recArg, _, fixBody) =>
      var n, m := |PeelDoms(fixBody)|, PeelBody(fixBody);
      && recArg < n && m.SMatch? && m.scrut == SVar(n - 1 - recArg) && Matchable(env, m.ind, m.arms)
      && forall k :: 0 <= k < |m.arms| ==> FixCaseAccepted(env, src, k)
  }

  ghost predicate CaseAccepted(env: GEnv, src: SrcTm, k: nat)
    requires src.SMatch? && Matchable(env, src.ind, src.arms) && k < |src.arms|
    decreases src, 0
  {
    exists j ::
      && FirstArm(src.arms, j, k) && |src.arms[j].binders| == |env.inds[src.ind].ctors[k].args|
      && Accepted(env, src.arms[j].rhs)
  }

  ghost predicate FixCaseAccepted(env: GEnv, fx: SrcTm, k: nat)
    requires fx.SFix? && PeelBody(fx.fixBody).SMatch?
    requires Matchable(env, PeelBody(fx.fixBody).ind, PeelBody(fx.fixBody).arms) && k < |PeelBody(fx.fixBody).arms|
  {
    var m := PeelBody(fx.fixBody);
    exists j ::
      && FirstArm(m.arms, j, k) && |m.arms[j].binders| == |env.inds[m.ind].ctors[k].args|
      && Structural(ArmShape(fx, env.inds[m.ind], k), m.arms[j].rhs, 0)
  }

  /** Constructor `k` has an arm, and its first one is lowered. */
  predicate MinorLowers(env: GEnv, ind: Inductive, src: SrcTm, fix: Option<FixHead>, k: nat)
    requires src.SMatch?
  {
    FindArm(src.arms, k).Some? && LowerMinor(env, ind, src.arms[FindArm(src.arms, k).value], fix).LOk?
  }

  lemma FirstArmUnique(arms: seq<SrcArm>, i: int, j: int, k: nat)
    requires FirstArm(arms, i, k) && FirstArm(arms, j, k)
    ensures i == j
  {
  }

  /** The minors are lowered exactly if each constructor has an arm that is. */
  lemma {:induction false} MinorsExact(env: GEnv, ind: Inductive, src: SrcTm, fix: Option<FixHead>, from: nat)
    requires src.SMatch? && from <= |ind.ctors|
    ensures LowerMinors(env, ind, src, fix, from).LOk? <==>
      forall k :: from <= k < |ind.ctors| ==> MinorLowers(env, ind, src, fix, k)
    decreases |ind.ctors| - from
  {
    hide LowerMinor, FindArm;
    if from < |ind.ctors| {
      MinorsExact(env, ind, src, fix, from + 1);
      var j := FindArm(src.arms, from);
      assert MinorLowers(env, ind, src, fix, from) ==
        (j.Some? && LowerMinor(env, ind, src.arms[j.value], fix).LOk?);
    }
  }

  lemma ShapeOk(fx: SrcTm, ind: Inductive, k: nat)
    requires fx.SFix? && fx.recArg < |PeelDoms(fx.fixBody)| && k < |ind.ctors|
    ensures ArmShape(fx, ind, k).Ok()
  {
    RecsSorted(ind.ctors[k].args, ind.id, |ind.ctors[k].args|);
  }

  lemma {:induction false} LowerAccepts(env: GEnv, src: SrcTm)
    ensures Lower(env, src).LOk? <==> Accepted(env, src)
    decreases src, 1
  {
    hide LowerMatch, LowerFix, Matchable, FirstArm, Structural;
    match src
    case SLam(_, b) => LowerAccepts(env, b);
    case SApp(f, x) => LowerAccepts(env, f); LowerAccepts(env, x);
    case SMatch(_, _, _, _) => MatchAccepts(env, src);
    case SFix(_, _, _) => FixAccepts(env, src);
    case _ =>
  }

  lemma {:induction false} MatchAccepts(env: GEnv, src: SrcTm)
    requires src.SMatch?
    ensures LowerMatch(env, src, None).LOk? <==> Accepted(env, src)
    decreases src, 0, 1
  {
    hide LowerMinors, Apply, LowerMinor;
    LowerAccepts(env, src.scrut);
    if Matchable(env, src.ind, src.arms) {
      var ind := env.inds[src.ind];
      MinorsExact(env, ind, src, None, 0);
      forall k | 0 <= k < |ind.ctors|
        ensures MinorLowers(env, ind, src, None, k) <==> CaseAccepted(env, src, k)
      {
        ArmAccepts(env, src, k);
      }
    }
  }

  lemma {:induction false} ArmAccepts(env: GEnv, src: SrcTm, k: nat)
    requires src.SMatch? && Matchable(env, src.ind, src.arms) && k < |src.arms|
    ensures MinorLowers(env, env.inds[src.ind], src, None, k) <==> CaseAccepted(env, src, k)
    decreases src, 0, 0
  {
    FindArmFirst(src.arms, k);
    if FindArm(src.arms, k).Some? {
      var j := FindArm(src.arms, k).value;
      LowerAccepts(env, src.arms[j].rhs);
      forall i | FirstArm(src.arms, i, k)
        ensures i == j
      {
        FirstArmUnique(src.arms, i, j, k);
      }
      assert FirstArm(src.arms, j, k);
    }
  }

  lemma FixAccepts(env: GEnv, src: SrcTm)
    requires src.SFix?
    ensures LowerFix(env, src).LOk? <==> Accepted(env, src)
  {
    hide LowerMinors, Apply, LowerMinor, Structural;
    var n, m := |PeelDoms(src.fixBody)|, PeelBody(src.fixBody);
    if src.recArg < n && m.SMatch? && Matchable(env, m.ind, m.arms) {
      var ind, head := env.inds[m.ind], Some(FixHead(src.recArg, n));
      MinorsExact(env, ind, m, head, 0);
      forall k | 0 <= k < |ind.ctors|
        ensures MinorLowers(env, ind, m, head, k) <==> FixCaseAccepted(env, src, k)
      {
        FixArmAccepts(env, src, k);
      }
    }
  }

  lemma FixArmAccepts(env: GEnv, fx: SrcTm, k: nat)
    requires fx.SFix? && fx.recArg < |PeelDoms(fx.fixBody)| && PeelBody(fx.fixBody).SMatch?
    requires Matchable(env, PeelBody(fx.fixBody).ind, PeelBody(fx.fixBody).arms) && k < |PeelBody(fx.fixBody).arms|
    ensures
      var n, m := |PeelDoms(fx.fixBody)|, PeelBody(fx.fixBody);
      MinorLowers(env, env.inds[m.ind], m, Some(FixHead(fx.recArg, n)), k) <==> FixCaseAccepted(env, fx, k)
  {
    hide Structural, LowerRhs;
    var m := PeelBody(fx.fixBody);
    FindArmFirst(m.arms, k);
    if FindArm(m.arms, k).Some? {
      var j := FindArm(m.arms, k).value;
      ShapeOk(fx, env.inds[m.ind], k);
      LowerRhsAccepts(ArmShape(fx, env.inds[m.ind], k), m.arms[j].rhs, 0);
      forall i | FirstArm(m.arms, i, k)
        ensures i == j
      {
        FirstArmUnique(m.arms, i, j, k);
      }
      assert FirstArm(m.arms, j, k);
    }
  }
}
