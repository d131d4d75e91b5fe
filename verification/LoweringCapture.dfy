/**
 Why the decreasing argument must not be mentioned: a fix the lowering accepts, whose emitted
 recursor computes another value than the source. `fix f n := match n { Z => n | S p => f p }`
 is Z on S Z, and the recursor answers S Z, because its minors are closed over the outermost `n`.
 */
module LoweringCapture {
  import opened Common
  import opened Tms
  import opened TmCalculus
  import opened Driver
  import opened Reduction
  import opened Stability
  import opened Lowering
  import opened LoweringProof
  import Recursor

  /** Family `i` is the natural numbers. */
  predicate Naturals(env: GEnv, i: nat) {
    && i in env.inds
    && var ind := env.inds[i];
       && ind.id == i && ind.params == [] && ind.indices == [] && |ind.ctors| == 2
       && ind.ctors[0].args == [] && ind.ctors[1].args == [Ind(i)]
  }

  function Suc(i: nat, t: Tm): Tm { Apply(Ctor(i, 1), [t]) }

  function ZeroArm(): SrcArm { SrcArm(0, [], SVar(0)) }

  function SucArm(i: nat): SrcArm { SrcArm(1, [Ind(i)], SApp(SVar(2), SVar(0))) }

  function CaptureMatch(i: nat, motive: Tm): SrcTm {
    SMatch(SVar(0), i, motive, [ZeroArm(), SucArm(i)])
  }

  function CaptureFix(i: nat, ty: Tm, motive: Tm): SrcTm {
    SFix(0, ty, SLam(Ind(i), CaptureMatch(i, motive)))
  }

  function SucMinor(i: nat): Tm { Lams([Ind(i), Ind(i)], Var(0)) }

  function Emitted(i: nat, motive: Tm): Tm {
    Lams([Ind(i)], App(Apply(Elim(i), [motive, Var(0), SucMinor(i)]), Var(0)))
  }

  lemma ZeroMinor(env: GEnv, i: nat)
    requires Naturals(env, i)
    ensures LowerMinor(env, env.inds[i], ZeroArm(), Some(FixHead(0, 1))) == LOk(Var(0))
  {
    assert MinorBinders(env.inds[i], 0) == [];
  }

  lemma SucRecs(i: nat)
    ensures Recursor.Recs([Ind(i)], i, 1) == [0]
  {
    assert Recursor.Recs([Ind(i)], i, 0) == [];
  }

  lemma SucMinorIs(env: GEnv, i: nat)
    requires Naturals(env, i)
    ensures LowerMinor(env, env.inds[i], SucArm(i), Some(FixHead(0, 1))) == LOk(SucMinor(i))
  {
    hide Lams;
    SucRecs(i);
    assert MinorBinders(env.inds[i], 1) == [Ind(i), Ind(i)];
    SucCall(i);
  }

  lemma SucCall(i: nat)
    ensures LowerRhs(SucArm(i).rhs, ArmFixScope(FixHead(0, 1), [0], 1), 0) == LOk(Var(0))
  {
    var s := ArmFixScope(FixHead(0, 1), [0], 1);
    assert FieldMap([0], 1, 1, 1) == FieldMap([0], 1, 1, 0)[0 := 0];
    var call := SucArm(i).rhs;
    assert SrcArgs(call) == [SVar(0)] && SrcHead(call) == SVar(2);
    assert Uniform(s, [SVar(0)], 0, 1);
  }

  lemma CaptureMinors(env: GEnv, i: nat, motive: Tm)
    requires Naturals(env, i)
    ensures LowerMinors(env, env.inds[i], CaptureMatch(i, motive), Some(FixHead(0, 1)), 0) == LOk([Var(0), SucMinor(i)])
  {
    hide LowerMinor, SucMinor;
    var ind, m, head := env.inds[i], CaptureMatch(i, motive), Some(FixHead(0, 1));
    ZeroMinor(env, i);
    SucMinorIs(env, i);
    assert m.arms[1..] == [SucArm(i)] && FindArm(m.arms[1..], 1) == Some(0);
    assert FindArm(m.arms, 0) == Some(0) && FindArm(m.arms, 1) == Some(1);
    assert [SucMinor(i)] + [] == [SucMinor(i)] && [Var(0)] + [SucMinor(i)] == [Var(0), SucMinor(i)];
    assert LowerMinors(env, ind, m, head, 2) == LOk([]);
    assert LowerMinors(env, ind, m, head, 1) == LOk([SucMinor(i)]);
  }

  lemma CaptureLowers(env: GEnv, i: nat, ty: Tm, motive: Tm)
    requires Naturals(env, i)
    ensures LowerFix(env, CaptureFix(i, ty, motive)) == LOk(Emitted(i, motive))
  {
    hide LowerMinors, SucMinor, Lams, Apply;
    var m, body := CaptureMatch(i, motive), SLam(Ind(i), CaptureMatch(i, motive));
    CaptureMinors(env, i, motive);
    assert [motive] + [Var(0), SucMinor(i)] == [motive, Var(0), SucMinor(i)];
    assert PeelDoms(m) == [] && PeelBody(m) == m;
    assert PeelDoms(body) == [Ind(i)] && PeelBody(body) == m;
    assert LowerMatch(env, m, Some(FixHead(0, 1))) == LOk(App(Apply(Elim(i), [motive, Var(0), SucMinor(i)]), Var(0)));
  }

  /** What the recursor is applied to once the fix has received `x`. */
  function Given(i: nat, motive: Tm, x: Tm): (pre: seq<Tm>)
    ensures |pre| == 3 && pre[1] == x
  {
    InstAll([motive, Var(0), SucMinor(i)], ArgS([x]))
  }

  lemma OnArgument(env: GEnv, o: IndexOracle, ctx: Ctx, i: nat, motive: Tm, x: Tm)
    ensures Reduces(env, o, ctx, Apply(Emitted(i, motive), [x]), App(Apply(Elim(i), Given(i, motive, x)), x))
  {
    hide Reduces, Apply, Lams, SucMinor;
    var pre := [motive, Var(0), SucMinor(i)];
    BetaMany(env, o, ctx, [Ind(i)], App(Apply(Elim(i), pre), Var(0)), [x]);
    InstApply(Elim(i), pre, ArgS([x]));
  }

  /** The recursor on Z answers the argument the fix received. */
  lemma OnZero(env: GEnv, o: IndexOracle, ctx: Ctx, i: nat, motive: Tm, x: Tm)
    requires Naturals(env, i)
    ensures Reduces(env, o, ctx, App(Apply(Elim(i), Given(i, motive, x)), Ctor(i, 0)), x)
  {
    hide Reduces, Given;
    var pre := Given(i, motive, x);
    IotaFires(env, o, ctx, i, 0, pre, []);
    assert [] + Ihs(i, pre, Recursor.Recs([], i, 0), []) == [];
    assert Apply(Ctor(i, 0), []) == Ctor(i, 0) && Apply(pre[1], []) == x;
  }

  /** The recursor on S Z answers it too, through the hypothesis for Z. */
  lemma OnSuc(env: GEnv, o: IndexOracle, ctx: Ctx, i: nat, motive: Tm, x: Tm)
    requires Naturals(env, i)
    ensures Reduces(env, o, ctx, App(Apply(Elim(i), Given(i, motive, x)), Suc(i, Ctor(i, 0))), x)
  {
    hide Reduces, Apply, Lams;
    var pre, z := Given(i, motive, x), Ctor(i, 0);
    var rec := App(Apply(Elim(i), pre), z);
    IotaFires(env, o, ctx, i, 1, pre, [z]);
    SucRecs(i);
    assert [z] + Ihs(i, pre, [0], [z]) == [z, rec];
    MinorApplied(env, o, ctx, [Ind(i), Ind(i)], Var(0), [x], [z, rec]);
    OnZero(env, o, ctx, i, motive, x);
    RedTrans(env, o, ctx, Apply(pre[2], [z, rec]), rec, x);
    RedTrans(env, o, ctx, App(Apply(Elim(i), pre), Suc(i, z)), Apply(pre[2], [z, rec]), x);
  }

  /**
   The lowering accepts the fix. On S Z the emitted term reduces to S Z. The source arm there is
   the emitted term on Z, which reduces to Z. Both results are distinct normal forms.
   */
  lemma DecreasingArgumentCaptured(env: GEnv, o: IndexOracle, ctx: Ctx, i: nat, ty: Tm, motive: Tm)
    requires Naturals(env, i)
    ensures
      var fx, z := CaptureFix(i, ty, motive), Ctor(i, 0);
      && Lowered(env, fx) && !Unmentioned(env, fx) && !PrefixFree(env, fx)
      && var e := LowerFix(env, fx).value;
         && Reduces(env, o, ctx, Apply(e, [Suc(i, z)]), Suc(i, z))
         && Inst(Erase(SucArm(i).rhs), ArgS([e] + [Suc(i, z)] + [z])) == Apply(e, [z])
         && Reduces(env, o, ctx, Apply(e, [z]), z)
         && Normal(env, z) && Normal(env, Suc(i, z)) && z != Suc(i, z)
  {
    hide Reduces, LowerFix, Emitted, Given;
    var fx, z, e := CaptureFix(i, ty, motive), Ctor(i, 0), Emitted(i, motive);
    CaptureLowers(env, i, ty, motive);
    var m := CaptureMatch(i, motive);
    assert PeelBody(m) == m && PeelDoms(m) == [] && PeelBody(fx.fixBody) == m && PeelDoms(fx.fixBody) == [Ind(i)];
    assert Family(env, fx) == env.inds[i] && Arm(env, fx, 0) == ZeroArm() && SrcOccurs(ZeroArm().rhs, 0);
    CaptureMinors(env, i, motive);
    assert Prefix(env, fx)[1] == Var(0);
    OnArgument(env, o, ctx, i, motive, Suc(i, z));
    OnSuc(env, o, ctx, i, motive, Suc(i, z));
    RedTrans(env, o, ctx, Apply(e, [Suc(i, z)]), App(Apply(Elim(i), Given(i, motive, Suc(i, z))), Suc(i, z)),
        Suc(i, z));
    OnArgument(env, o, ctx, i, motive, z);
    OnZero(env, o, ctx, i, motive, z);
    RedTrans(env, o, ctx, Apply(e, [z]), App(Apply(Elim(i), Given(i, motive, z)), z), z);
    assert [z][..0] == [] && Apply(Ctor(i, 1), []) == Ctor(i, 1);
    assert Suc(i, z) == App(Ctor(i, 1), z);
    assert Apply(e, [z]) == App(Apply(e, []), z);
  }
}
