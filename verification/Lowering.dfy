/**
 Lowering of surface `fix` and `match` to the kernel's recursor. A structural self-call becomes
 the induction hypothesis of the field it recurses on.
 */
module Lowering {
  import opened Common
  import opened Tms
  import opened Driver
  import Recursor

  datatype SrcTm =
    | SVar(i: nat)
    | SApp(fn: SrcTm, arg: SrcTm)
    | SLam(dom: Tm, body: SrcTm)
    | SCore(t: Tm)
    | SFix(recArg: nat, ty: Tm, fixBody: SrcTm)
    | SMatch(scrut: SrcTm, ind: nat, motive: Tm, arms: seq<SrcArm>)

  datatype SrcArm = SrcArm(ix: nat, binders: seq<Tm>, rhs: SrcTm)

  datatype LowerError =
    | UnknownInd | ParamsOrIndices | ArmCount | ArmArity | NonStructural
    | VaryingArg | BareSelf | BadRecArg | NotDirectMatch

  datatype LRes<+T> = LOk(value: T) | LErr(error: LowerError) {
    predicate IsFailure() { LErr? }

    function PropagateFailure<U>(): LRes<U>
      requires LErr?
    {
      LErr(error)
    }

    function Extract(): T
      requires LOk?
    {
      value
    }
  }

  /** What a match needs to know about an enclosing fix: the decreasing position and the arity. */
  datatype FixHead = FixHead(recArg: nat, n: nat)

  /**
   One arm inside a fix. Indices are those of the arm's source context `[f, a, fields]`:
   `self` is `f`, `outer` the fix arguments; `ih` sends a recursive field to its hypothesis in the
   emitted context `[a, fields, hypotheses]`.
   */
  datatype FixScope = FixScope(self: nat, recArg: nat, outer: seq<nat>, ih: map<nat, nat>, r: nat)

  function SrcHead(t: SrcTm): SrcTm { if t.SApp? then SrcHead(t.fn) else t }

  function SrcArgs(t: SrcTm): seq<SrcTm> { if t.SApp? then SrcArgs(t.fn) + [t.arg] else [] }

  method SrcSpine(t: SrcTm) returns (head: SrcTm, args: seq<SrcTm>)
    ensures head == SrcHead(t) && args == SrcArgs(t)
  {
    head, args := t, [];
    while head.SApp?
      invariant SrcHead(head) == SrcHead(t) && SrcArgs(t) == SrcArgs(head) + args
      decreases head
    {
      args := [head.arg] + args;
      head := head.fn;
    }
  }

  /** Recursive fields among the first `j`, sent to their hypotheses. */
  function FieldMap(recs: seq<nat>, m: nat, r: nat, j: nat): map<nat, nat>
    requires j <= |recs| <= r && forall k :: 0 <= k < |recs| ==> recs[k] < m
  {
    if j == 0 then map[] else FieldMap(recs, m, r, j - 1)[m - 1 - recs[j - 1] := r - j]
  }

  method FillFieldMap(recs: seq<nat>, m: nat, r: nat) returns (ih: map<nat, nat>)
    requires |recs| <= r && forall k :: 0 <= k < |recs| ==> recs[k] < m
    ensures ih == FieldMap(recs, m, r, |recs|)
  {
    ih := map[];
    for j := 0 to |recs|
      invariant ih == FieldMap(recs, m, r, j)
    {
      ih := ih[m - 1 - recs[j] := r - 1 - j];
    }
  }

  function ArmFixScope(fh: FixHead, recs: seq<nat>, m: nat): FixScope
    requires forall k :: 0 <= k < |recs| ==> recs[k] < m
  {
    FixScope(m + fh.n, fh.recArg, seq(fh.n, t requires 0 <= t < fh.n => m + (fh.n - 1 - t)),
        FieldMap(recs, m, |recs|, |recs|), |recs|)
  }

  /** Relocate a source variable under `depth` binders of the arm into the emitted minor. */
  function RelocateVar(s: FixScope, v: nat, depth: nat): LRes<nat> {
    if v < depth then LOk(v)
    else if v - depth == s.self then LErr(BareSelf)
    else if v - depth < s.self then LOk(v + s.r)
    else LOk(v + s.r - 1)
  }

  /** Relocate a core fragment: drop `f`, then make room for the hypotheses. A bare `f` is rejected. */
  function RelocateCore(s: FixScope, t: Tm, depth: nat): LRes<Tm> {
    if Occurs(t, depth + s.self) then LErr(BareSelf)
    else LOk(Shift(Shift(t, -1, depth + s.self + 1), s.r, depth))
  }

  /** The arguments other than the decreasing one are the fix's own, from position `pos` on. */
  predicate Uniform(s: FixScope, args: seq<SrcTm>, depth: nat, pos: nat)
    requires |args| == |s.outer|
    decreases |args| - pos
  {
    pos >= |args| ||
    ((pos == s.recArg || (args[pos].SVar? && args[pos].i >= depth && args[pos].i - depth == s.outer[pos])) &&
        Uniform(s, args, depth, pos + 1))
  }

  method CheckUniform(s: FixScope, args: seq<SrcTm>, depth: nat) returns (ok: bool)
    requires |args| == |s.outer|
    ensures ok == Uniform(s, args, depth, 0)
  {
    var pos := 0;
    while pos < |args|
      invariant 0 <= pos <= |args|
      invariant Uniform(s, args, depth, pos) == Uniform(s, args, depth, 0)
    {
      if pos != s.recArg && !(args[pos].SVar? && args[pos].i >= depth && args[pos].i - depth == s.outer[pos]) {
        return false;
      }
      pos := pos + 1;
    }
    return true;
  }

  function SelfCallToIh(s: FixScope, args: seq<SrcTm>, depth: nat): LRes<Tm> {
    if |args| != |s.outer| then LErr(NonStructural)
    else if s.recArg >= |args| then LErr(BadRecArg)
    else
      var dec := args[s.recArg];
      if !(dec.SVar? && dec.i >= depth && dec.i - depth in s.ih) then LErr(NonStructural)
      else if !Uniform(s, args, depth, 0) then LErr(VaryingArg)
      else LOk(Var(s.ih[dec.i - depth] + depth))
  }

  predicate IsSelf(s: FixScope, t: SrcTm, depth: nat) {
    t.SVar? && t.i >= depth && t.i - depth == s.self
  }

  function LowerRhs(src: SrcTm, s: FixScope, depth: nat): LRes<Tm>
    decreases src
  {
    match src
    case SVar(v) =>
      var i :- RelocateVar(s, v, depth);
      LOk(Var(i))
    case SCore(t) => RelocateCore(s, t, depth)
    case SLam(dom, body) =>
      var d :- RelocateCore(s, dom, depth);
      var b :- LowerRhs(body, s, depth + 1);
      LOk(Lam(d, b))
    case SApp(f, x) =>
      if IsSelf(s, SrcHead(src), depth) then SelfCallToIh(s, SrcArgs(src), depth) else
      var g :- LowerRhs(f, s, depth);
      var y :- LowerRhs(x, s, depth);
      LOk(App(g, y))
    case SMatch(_, _, _, _) => LErr(NotDirectMatch)
    case SFix(_, _, _) => LErr(NotDirectMatch)
  }

  /** `λ doms[0] … λ doms[n-1]. body` */
  function Lams(doms: seq<Tm>, body: Tm): Tm {
    if doms == [] then body else Lam(doms[0], Lams(doms[1..], body))
  }

  method WrapLams(doms: seq<Tm>, body: Tm) returns (t: Tm)
    ensures t == Lams(doms, body)
  {
    t := body;
    for k := |doms| downto 0
      invariant t == Lams(doms[k..], body)
    {
      assert doms[k..] == [doms[k]] + doms[k + 1..];
      t := Lam(doms[k], t);
    }
    assert doms[0..] == doms;
  }

  /** The first arm for constructor `k`. */
  function FindArm(arms: seq<SrcArm>, k: nat): (r: Option<nat>)
    ensures r.Some? ==> r.value < |arms| && arms[r.value].ix == k
  {
    if arms == [] then None
    else if arms[0].ix == k then Some(0)
    else
      match FindArm(arms[1..], k)
      case None => None
      case Some(j) => Some(j + 1)
  }

  function RecPositions(ind: Inductive, k: nat): seq<nat>
    requires k < |ind.ctors|
  {
    Recursor.Recs(ind.ctors[k].args, ind.id, |ind.ctors[k].args|)
  }

  /** Binder types of a minor: the fields, then one per hypothesis. */
  function MinorBinders(ind: Inductive, k: nat): seq<Tm>
    requires k < |ind.ctors|
  {
    var fields, recs := ind.ctors[k].args, RecPositions(ind, k);
    fields + seq(|recs|, j requires 0 <= j < |recs| => fields[recs[j]])
  }

  function LowerMinor(env: GEnv, ind: Inductive, arm: SrcArm, fix: Option<FixHead>): LRes<Tm>
    decreases arm, 0
  {
    if arm.ix >= |ind.ctors| then LErr(ArmCount) else
    var m, recs := |ind.ctors[arm.ix].args|, RecPositions(ind, arm.ix);
    if |arm.binders| != m then LErr(ArmArity) else
    var body :- if fix.None? then ShiftRes(Lower(env, arm.rhs), |recs|)
        else LowerRhs(arm.rhs, ArmFixScope(fix.value, recs, m), 0);
    LOk(Lams(MinorBinders(ind, arm.ix), body))
  }

  function ShiftRes(r: LRes<Tm>, d: nat): LRes<Tm> {
    if r.LOk? then LOk(Shift(r.value, d, 0)) else r
  }

  /** The minors of constructors `k` and up, in order. */
  function LowerMinors(env: GEnv, ind: Inductive, src: SrcTm, fix: Option<FixHead>, k: nat): LRes<seq<Tm>>
    requires src.SMatch? && k <= |ind.ctors|
    decreases src, 1, |ind.ctors| - k
  {
    if k == |ind.ctors| then LOk([]) else
    match FindArm(src.arms, k)
    case None => LErr(ArmCount)
    case Some(j) =>
      var minor :- LowerMinor(env, ind, src.arms[j], fix);
      var rest :- LowerMinors(env, ind, src, fix, k + 1);
      LOk([minor] + rest)
  }

  function LowerMatch(env: GEnv, src: SrcTm, fix: Option<FixHead>): LRes<Tm>
    requires src.SMatch?
    decreases src, 2
  {
    if src.ind !in env.inds then LErr(UnknownInd) else
    var ind := env.inds[src.ind];
    if ind.params != [] || ind.indices != [] then LErr(ParamsOrIndices)
    else if |src.arms| != |ind.ctors| then LErr(ArmCount)
    else
      var minors :- LowerMinors(env, ind, src, fix, 0);
      var scrut :- if fix.None? then Lower(env, src.scrut) else if src.scrut.SVar? then LOk(Var(src.scrut.i))
          else LErr(NotDirectMatch);
      LOk(App(Apply(Elim(src.ind), [src.motive] + minors), scrut))
  }

  /** Peel the leading λs of a fix body. */
  function PeelDoms(t: SrcTm): seq<Tm> { if t.SLam? then [t.dom] + PeelDoms(t.body) else [] }

  function PeelBody(t: SrcTm): SrcTm { if t.SLam? then PeelBody(t.body) else t }

  method Peel(t: SrcTm) returns (doms: seq<Tm>, cur: SrcTm)
    ensures doms == PeelDoms(t) && cur == PeelBody(t)
  {
    doms, cur := [], t;
    while cur.SLam?
      invariant PeelDoms(t) == doms + PeelDoms(cur) && PeelBody(t) == PeelBody(cur)
      decreases cur
    {
      doms := doms + [cur.dom];
      cur := cur.body;
    }
  }

  lemma {:induction false} PeelSmaller(t: SrcTm)
    ensures PeelBody(t) == t || PeelBody(t) < t
  {
    if t.SLam? { PeelSmaller(t.body); }
  }

  function LowerFix(env: GEnv, src: SrcTm): LRes<Tm>
    requires src.SFix?
    decreases src, 1
  {
    var doms, m := PeelDoms(src.fixBody), PeelBody(src.fixBody);
    var n := |doms|;
    if src.recArg >= n then LErr(BadRecArg)
    else if !m.SMatch? || m.scrut != SVar(n - 1 - src.recArg) then LErr(NotDirectMatch)
    else if m.ind !in env.inds then LErr(UnknownInd)
    else if env.inds[m.ind].params != [] || env.inds[m.ind].indices != [] then LErr(ParamsOrIndices)
    else
      PeelSmaller(src.fixBody);
      var elim :- LowerMatch(env, m, Some(FixHead(src.recArg, n)));
      LOk(Lams(doms, elim))
  }

  /** Lower a surface term to the core. */
  function Lower(env: GEnv, src: SrcTm): LRes<Tm>
    decreases src, 3
  {
    match src
    case SVar(i) => LOk(Var(i))
    case SCore(t) => LOk(t)
    case SApp(f, x) =>
      var g :- Lower(env, f);
      var y :- Lower(env, x);
      LOk(App(g, y))
    case SLam(dom, body) =>
      var b :- Lower(env, body);
      LOk(Lam(dom, b))
    case SMatch(_, _, _, _) => LowerMatch(env, src, None)
    case SFix(_, _, _) => LowerFix(env, src)
  }

  // ---------------------------------------------------------------------------------------------
  // The lowering as it runs

  lemma {:induction false} LamsConcat(a: seq<Tm>, b: seq<Tm>, body: Tm)
    ensures Lams(a + b, body) == Lams(a, Lams(b, body))
  {
    if a == [] {
      assert a + b == b;
    } else {
      LamsConcat(a[1..], b, body);
      assert (a + b)[1..] == a[1..] + b;
    }
  }

  method BuildCall(s: FixScope, args: seq<SrcTm>, depth: nat) returns (res: LRes<Tm>)
    ensures res == SelfCallToIh(s, args, depth)
  {
    if |args| != |s.outer| { return LErr(NonStructural); }
    if s.recArg >= |args| { return LErr(BadRecArg); }
    var dec := args[s.recArg];
    if !(dec.SVar? && dec.i >= depth && dec.i - depth in s.ih) { return LErr(NonStructural); }
    var uniform := CheckUniform(s, args, depth);
    if !uniform { return LErr(VaryingArg); }
    return LOk(Var(s.ih[dec.i - depth] + depth));
  }

  method BuildRhs(src: SrcTm, s: FixScope, depth: nat) returns (res: LRes<Tm>)
    ensures res == LowerRhs(src, s, depth)
    decreases src
  {
    match src
    case SLam(dom, body) =>
      var d := RelocateCore(s, dom, depth);
      if d.LErr? { return d; }
      var b := BuildRhs(body, s, depth + 1);
      return if b.LErr? then b else LOk(Lam(d.value, b.value));
    case SApp(f, x) =>
      var head, args := SrcSpine(src);
      if IsSelf(s, head, depth) {
        res := BuildCall(s, args, depth);
        return;
      }
      var g := BuildRhs(f, s, depth);
      if g.LErr? { return g; }
      var y := BuildRhs(x, s, depth);
      return if y.LErr? then y else LOk(App(g.value, y.value));
    case _ => return LowerRhs(src, s, depth);
  }

  /** One minor: the arm's body, then the hypothesis binders, then the field binders. */
  method BuildMinor(env: GEnv, ind: Inductive, arm: SrcArm, fix: Option<FixHead>) returns (res: LRes<Tm>)
    ensures res == LowerMinor(env, ind, arm, fix)
    decreases arm, 0
  {
    if arm.ix >= |ind.ctors| { return LErr(ArmCount); }
    var fields, recs := ind.ctors[arm.ix].args, RecPositions(ind, arm.ix);
    if |arm.binders| != |fields| { return LErr(ArmArity); }
    var body;
    if fix.None? {
      body := BuildTerm(env, arm.rhs);
      body := ShiftRes(body, |recs|);
    } else {
      var m, n := |fields|, fix.value.n;
      var ih := FillFieldMap(recs, m, |recs|);
      var outer := seq(n, t requires 0 <= t < n => m + (n - 1 - t));
      assert outer == ArmFixScope(fix.value, recs, m).outer;
      body := BuildRhs(arm.rhs, FixScope(m + n, fix.value.recArg, outer, ih, |recs|), 0);
    }
    if body.LErr? { return body; }
    var hyps := seq(|recs|, j requires 0 <= j < |recs| => fields[recs[j]]);
    var t := WrapLams(hyps, body.value);
    t := WrapLams(fields, t);
    LamsConcat(fields, hyps, body.value);
    assert fields + hyps == MinorBinders(ind, arm.ix);
    return LOk(t);
  }

  function PrependMinors(done: seq<Tm>, rest: LRes<seq<Tm>>): LRes<seq<Tm>> {
    if rest.LOk? then LOk(done + rest.value) else rest
  }

  lemma PrependMinor(done: seq<Tm>, t: Tm, rest: LRes<seq<Tm>>)
    ensures PrependMinors(done + [t], rest) == PrependMinors(done, PrependMinors([t], rest))
  {
    if rest.LOk? { assert done + [t] + rest.value == done + ([t] + rest.value); }
  }

  /** The loop that appends the lowered minors to the recursor. */
  method BuildMatch(env: GEnv, src: SrcTm, fix: Option<FixHead>) returns (res: LRes<Tm>)
    requires src.SMatch?
    ensures res == LowerMatch(env, src, fix)
    decreases src, 2
  {
    hide LowerMinor, Lower, FindArm;
    if src.ind !in env.inds { return LErr(UnknownInd); }
    var ind := env.inds[src.ind];
    if ind.params != [] || ind.indices != [] { return LErr(ParamsOrIndices); }
    if |src.arms| != |ind.ctors| { return LErr(ArmCount); }
    ghost var all := LowerMinors(env, ind, src, fix, 0);
    ghost var done: seq<Tm> := [];
    var k := 0;
    assert all.LOk? ==> [] + all.value == all.value;
    var elim := App(Elim(src.ind), src.motive);
    assert Apply(Elim(src.ind), [src.motive]) == elim by { assert [src.motive][..0] == []; }
    while k < |ind.ctors|
      invariant 0 <= k <= |ind.ctors| && |done| == k
      invariant elim == Apply(Elim(src.ind), [src.motive] + done)
      invariant all == PrependMinors(done, LowerMinors(env, ind, src, fix, k))
    {
      var found := FindArm(src.arms, k);
      if found.None? { return LErr(ArmCount); }
      var minor := BuildMinor(env, ind, src.arms[found.value], fix);
      if minor.LErr? { return LErr(minor.error); }
      ghost var was := [src.motive] + done;
      elim := App(elim, minor.value);
      done := done + [minor.value];
      assert ([src.motive] + done)[..|was|] == was;
      PrependMinor(done[..k], minor.value, LowerMinors(env, ind, src, fix, k + 1));
      assert done[..k] + [minor.value] == done;
      k := k + 1;
    }
    assert done + [] == done;
    var scrut: LRes<Tm> := if src.scrut.SVar? then LOk(Var(src.scrut.i)) else LErr(NotDirectMatch);
    if fix.None? { scrut := BuildTerm(env, src.scrut); }
    if scrut.LErr? { return LErr(scrut.error); }
    return LOk(App(elim, scrut.value));
  }

  /** Peel the λs, lower the match, wrap the λs again; the function itself is not bound any more. */
  method BuildFix(env: GEnv, src: SrcTm) returns (res: LRes<Tm>)
    requires src.SFix?
    ensures res == LowerFix(env, src)
    decreases src, 1
  {
    hide LowerMatch;
    var doms, m := Peel(src.fixBody);
    var n := |doms|;
    if src.recArg >= n { return LErr(BadRecArg); }
    if !m.SMatch? || m.scrut != SVar(n - 1 - src.recArg) { return LErr(NotDirectMatch); }
    if m.ind !in env.inds { return LErr(UnknownInd); }
    if env.inds[m.ind].params != [] || env.inds[m.ind].indices != [] { return LErr(ParamsOrIndices); }
    PeelSmaller(src.fixBody);
    var elim := BuildMatch(env, m, Some(FixHead(src.recArg, n)));
    if elim.LErr? { return elim; }
    var t := WrapLams(doms, elim.value);
    return LOk(t);
  }

  method BuildTerm(env: GEnv, src: SrcTm) returns (res: LRes<Tm>)
    ensures res == Lower(env, src)
    decreases src, 3
  {
    match src
    case SVar(i) => return LOk(Var(i));
    case SCore(t) => return LOk(t);
    case SApp(f, x) =>
      var g := BuildTerm(env, f);
      if g.LErr? { return g; }
      var y := BuildTerm(env, x);
      return if y.LErr? then y else LOk(App(g.value, y.value));
    case SLam(dom, body) =>
      var b := BuildTerm(env, body);
      return if b.LErr? then b else LOk(Lam(dom, b.value));
    case SMatch(_, _, _, _) => res := BuildMatch(env, src, None);
    case SFix(_, _, _) => res := BuildFix(env, src);
  }
}
