/** Synthesis of the type of an inductive family's recursor. */
module Recursor {
  import opened Tms
  import opened TmCalculus
  import opened Driver

  /** `Π tele[0] … Π tele[n-1]. body` */
  function PiTele(tele: seq<Tm>, body: Tm): Tm {
    if tele == [] then body else Pi(tele[0], PiTele(tele[1..], body))
  }

  /** Positions of the recursive ones among the first `n` fields. */
  function Recs(fields: seq<Tm>, i: nat, n: nat): (r: seq<nat>)
    requires n <= |fields|
    ensures |r| <= n && forall j :: 0 <= j < |r| ==> r[j] < n
  {
    if n == 0 then [] else Recs(fields, i, n - 1) + if HeadIsInd(fields[n - 1], i) then [n - 1] else []
  }

  /** `count` consecutive variables in binding order, the last one being `Var(low)`. */
  function DownVars(count: nat, low: nat): (r: seq<Tm>)
    ensures |r| == count && forall a :: 0 <= a < count ==> r[a] == Var(low + (count - 1 - a))
  {
    seq(count, a requires 0 <= a < count => Var(low + (count - 1 - a)))
  }

  /** `I P X` where the parameters lie `depth` binders above the indices. */
  function IndAppAt(i: nat, p: nat, nidx: nat, depth: nat): Tm {
    Apply(Ind(i), DownVars(p, nidx + depth) + DownVars(nidx, 0))
  }

  /** The index arguments in the type `I P idxs` of a recursive field. */
  function IndIndices(ty: Tm, i: nat, p: nat): seq<Tm> {
    if Head(ty) == Ind(i) && |Args(ty)| >= p then Args(ty)[p..] else []
  }

  function ShiftAll(s: seq<Tm>, d: nat, c: nat): seq<Tm> {
    seq(|s|, j requires 0 <= j < |s| => Shift(s[j], d, c))
  }

  /** The type of the `j`-th induction hypothesis of constructor `k`. */
  function HypothesisType(ind: Inductive, k: nat, j: nat): Tm
    requires k < |ind.ctors| && j < |Recs(ind.ctors[k].args, ind.id, |ind.ctors[k].args|)|
  {
    var fields := ind.ctors[k].args;
    var m := |fields|;
    var q := Recs(fields, ind.id, m)[j];
    var idxs := ShiftAll(ShiftAll(IndIndices(fields[q], ind.id, |ind.params|), j + m - q, 0), k + 1, j + m);
    App(Apply(Var(m + j + k), idxs), Var(j + (m - 1 - q)))
  }

  function MinorBody(ind: Inductive, k: nat): Tm
    requires k < |ind.ctors|
  {
    var p, fields := |ind.params|, ind.ctors[k].args;
    var m := |fields|;
    var r := |Recs(fields, ind.id, m)|;
    var rets := ShiftAll(ShiftAll(ind.ctors[k].ret, r, 0), k + 1, r + m);
    App(Apply(Var(m + r + k), rets), Apply(Apply(Ctor(ind.id, k), DownVars(p, m + r + k + 1)), DownVars(m, r)))
  }

  function FieldTypes(ind: Inductive, k: nat): seq<Tm>
    requires k < |ind.ctors|
  {
    var fields := ind.ctors[k].args;
    seq(|fields|, q requires 0 <= q < |fields| => Shift(fields[q], k + 1, q))
  }

  function HypothesisTypes(ind: Inductive, k: nat): seq<Tm>
    requires k < |ind.ctors|
  {
    var r := |Recs(ind.ctors[k].args, ind.id, |ind.ctors[k].args|)|;
    seq(r, j requires 0 <= j < r => HypothesisType(ind, k, j))
  }

  /** The type of the minor premise of constructor `k`. */
  function MinorType(ind: Inductive, k: nat): Tm
    requires k < |ind.ctors|
  {
    PiTele(FieldTypes(ind, k), PiTele(HypothesisTypes(ind, k), MinorBody(ind, k)))
  }

  function MotiveType(ind: Inductive, lm: nat): Tm {
    PiTele(ind.indices, Pi(IndAppAt(ind.id, |ind.params|, |ind.indices|, 0), Sort(lm)))
  }

  function MinorTypes(ind: Inductive): (r: seq<Tm>)
    ensures |r| == |ind.ctors| && forall k :: 0 <= k < |r| ==> r[k] == MinorType(ind, k)
  {
    seq(|ind.ctors|, k requires 0 <= k < |ind.ctors| => MinorType(ind, k))
  }

  function IndexTypes(ind: Inductive): seq<Tm> {
    seq(|ind.indices|, t requires 0 <= t < |ind.indices| => Shift(ind.indices[t], 1 + |ind.ctors|, t))
  }

  function RecursorResult(ind: Inductive): Tm {
    var c, nidx := |ind.ctors|, |ind.indices|;
    var args := DownVars(nidx, 1) + [Var(0)];
    Pi(IndAppAt(ind.id, |ind.params|, nidx, 1 + c), Apply(Var(1 + nidx + c), args))
  }

  function RecursorType(ind: Inductive, lm: nat): Tm {
    PiTele(ind.params, Pi(MotiveType(ind, lm), PiTele(MinorTypes(ind), PiTele(IndexTypes(ind), RecursorResult(ind)))))
  }

  // ---------------------------------------------------------------------------------------------
  // The reverse loops that build the telescopes

  method WrapPi(tele: seq<Tm>, body: Tm) returns (t: Tm)
    ensures t == PiTele(tele, body)
  {
    t := body;
    for k := |tele| downto 0
      invariant t == PiTele(tele[k..], body)
    {
      t := Pi(tele[k], t);
      assert tele[k..] == [tele[k]] + tele[k + 1..];
    }
    assert tele[0..] == tele;
  }

  method BuildMinor(ind: Inductive, k: nat) returns (t: Tm)
    requires k < |ind.ctors|
    ensures t == MinorType(ind, k)
  {
    t := MinorBody(ind, k);
    t := WrapPi(HypothesisTypes(ind, k), t);
    t := WrapPi(FieldTypes(ind, k), t);
  }

  method BuildRecursor(ind: Inductive, lm: nat) returns (t: Tm)
    ensures t == RecursorType(ind, lm)
  {
    hide MinorTypes, MinorType, IndexTypes, RecursorResult, IndAppAt, DownVars;
    t := WrapPi(IndexTypes(ind), RecursorResult(ind));
    ghost var inner := t;
    for k := |ind.ctors| downto 0
      invariant t == PiTele(MinorTypes(ind)[k..], inner)
    {
      var minor := BuildMinor(ind, k);
      assert MinorTypes(ind)[k..] == [minor] + MinorTypes(ind)[k + 1..];
      t := Pi(minor, t);
    }
    assert MinorTypes(ind)[0..] == MinorTypes(ind);
    var motive := WrapPi(ind.indices, Pi(IndAppAt(ind.id, |ind.params|, |ind.indices|, 0), Sort(lm)));
    t := WrapPi(ind.params, Pi(motive, t));
  }

  // ---------------------------------------------------------------------------------------------
  // Reference: variables written as absolute binder positions

  /** At depth `d`, the variable bound by the binder at position `l` counted from the outside. */
  function LVar(d: nat, l: nat): Tm
    requires l < d
  {
    Var(d - 1 - l)
  }

  /** The variables of `count` consecutive binders from position `l` on. */
  function LVars(d: nat, l: nat, count: nat): (r: seq<Tm>)
    requires l + count <= d
    ensures |r| == count && forall j :: 0 <= j < count ==> r[j] == LVar(d, l + j)
  {
    seq(count, j requires 0 <= j < count => LVar(d, l + j))
  }

  lemma LVarsAreDownVars(d: nat, l: nat, count: nat)
    requires l + count <= d
    ensures LVars(d, l, count) == DownVars(count, d - l - count)
  {
  }

  /** Move a term from a context of depth `n` to one of depth `d`, binder `l` becoming binder `f(l)`. */
  function Reloc(t: Tm, n: nat, d: nat, f: nat -> nat): Tm
    requires forall l :: 0 <= l < n ==> f(l) < d
  {
    Ren(t, RelocRen(n, d, f))
  }

  function RelocRen(n: nat, d: nat, f: nat -> nat): Renaming {
    (i: nat) => if i < n && f(n - 1 - i) < d then d - 1 - f(n - 1 - i) else i
  }

  /** Parameters keep their position; what follows them in a declaration lands `gap` binders further in. */
  function Role(p: nat, gap: nat): nat -> nat {
    (l: nat) => if l < p then l else l + gap
  }

  function RelocAll(s: seq<Tm>, n: nat, d: nat, f: nat -> nat): seq<Tm>
    requires forall l :: 0 <= l < n ==> f(l) < d
  {
    seq(|s|, j requires 0 <= j < |s| => Reloc(s[j], n, d, f))
  }

  /** Binder positions in a minor: parameters, motive, `k` earlier minors, fields, hypotheses. */
  function RefHypothesisType(ind: Inductive, k: nat, j: nat): Tm
    requires k < |ind.ctors| && j < |Recs(ind.ctors[k].args, ind.id, |ind.ctors[k].args|)|
  {
    var p, fields := |ind.params|, ind.ctors[k].args;
    var m := |fields|;
    var q := Recs(fields, ind.id, m)[j];
    var d := p + 1 + k + m + j;
    App(Apply(LVar(d, p), RelocAll(IndIndices(fields[q], ind.id, p), p + q, d, Role(p, 1 + k))), LVar(d, p + 1 + k + q))
  }

  function RefMinorBody(ind: Inductive, k: nat): Tm
    requires k < |ind.ctors|
  {
    var p, fields := |ind.params|, ind.ctors[k].args;
    var m := |fields|;
    var d := p + 1 + k + m + |Recs(fields, ind.id, m)|;
    App(Apply(LVar(d, p), RelocAll(ind.ctors[k].ret, p + m, d, Role(p, 1 + k))),
        Apply(Apply(Ctor(ind.id, k), LVars(d, 0, p)), LVars(d, p + 1 + k, m)))
  }

  function RefMinorType(ind: Inductive, k: nat): Tm
    requires k < |ind.ctors|
  {
    var p, fields := |ind.params|, ind.ctors[k].args;
    var r := |Recs(fields, ind.id, |fields|)|;
    PiTele(seq(|fields|, q requires 0 <= q < |fields| => Reloc(fields[q], p + q, p + 1 + k + q, Role(p, 1 + k))),
        PiTele(seq(r, j requires 0 <= j < r => RefHypothesisType(ind, k, j)), RefMinorBody(ind, k)))
  }

  /** `I P X` in a context of depth `d`, with the indices bound from position `x` on. */
  function RefIndApp(i: nat, p: nat, nidx: nat, d: nat, x: nat): Tm
    requires p <= d && x + nidx <= d
  {
    Apply(Ind(i), LVars(d, 0, p) + LVars(d, x, nidx))
  }

  /** Binder positions in a recursor type: parameters, motive, minors, indices, scrutinee. */
  function RefRecursorType(ind: Inductive, lm: nat): Tm {
    var p, c, nidx := |ind.params|, |ind.ctors|, |ind.indices|;
    var motive := PiTele(ind.indices, Pi(RefIndApp(ind.id, p, nidx, p + nidx, p), Sort(lm)));
    var minors := seq(c, k requires 0 <= k < c => RefMinorType(ind, k));
    var x := p + 1 + c;
    var indices := seq(nidx, t requires 0 <= t < nidx => Reloc(ind.indices[t], p + t, x + t, Role(p, 1 + c)));
    var result := Apply(LVar(x + nidx + 1, p), LVars(x + nidx + 1, x, nidx) + [LVar(x + nidx + 1, x + nidx)]);
    PiTele(ind.params, Pi(motive, PiTele(minors, PiTele(indices, Pi(RefIndApp(ind.id, p, nidx, x + nidx, x), result)))))
  }

  /** Every telescope of the declaration is well scoped. */
  ghost predicate WellScoped(ind: Inductive) {
    var p := |ind.params|;
    && (forall a :: 0 <= a < p ==> Scoped(ind.params[a], a))
    && (forall t :: 0 <= t < |ind.indices| ==> Scoped(ind.indices[t], p + t))
    && (forall k :: 0 <= k < |ind.ctors| ==> CtorScoped(ind, k))
  }

  ghost predicate CtorScoped(ind: Inductive, k: nat)
    requires k < |ind.ctors|
  {
    var p, cd := |ind.params|, ind.ctors[k];
    && (forall q :: 0 <= q < |cd.args| ==> Scoped(cd.args[q], p + q))
    && (forall j :: 0 <= j < |cd.ret| ==> Scoped(cd.ret[j], p + |cd.args|))
  }

  // ---------------------------------------------------------------------------------------------
  // The index arithmetic is the relocation

  lemma {:induction false} RenScoped(t: Tm, n: nat, r: Renaming, r': Renaming)
    requires Scoped(t, n) && forall i: nat :: i < n ==> r(i) == r'(i)
    ensures Ren(t, r) == Ren(t, r')
    decreases t
  {
    match t
    case Pi(a, b) => RenScoped(a, n, r, r'); RenScoped(b, n + 1, UpRen(r), UpRen(r'));
    case Lam(a, b) => RenScoped(a, n, r, r'); RenScoped(b, n + 1, UpRen(r), UpRen(r'));
    case App(f, x) => RenScoped(f, n, r, r'); RenScoped(x, n, r, r');
    case _ =>
  }

  /**
   A double shift, first everything by `in'` and then what lies above `cut` by `gap`, sends each
   field and parameter of a declaration context `[P, A]` to its binder in the minor's context.
   */
  lemma DoubleShiftIsReloc(t: Tm, p: nat, q: nat, in': nat, gap: nat)
    requires Scoped(t, p + q)
    ensures Shift(Shift(t, in', 0), gap, in' + q) == Reloc(t, p + q, p + gap + q + in', Role(p, gap))
  {
    hide Shift, Ren, Scoped;
    var n, d := p + q, p + gap + q + in';
    var both: Renaming := (i: nat) => if i >= q then i + in' + gap else i + in';
    ShiftIsRen(t, in', 0);
    ShiftIsRen(Shift(t, in', 0), gap, in' + q);
    RenRen(t, ShiftR(in', 0), ShiftR(gap, in' + q), both);
    RenScoped(t, n, both, RelocRen(n, d, Role(p, gap)));
  }

  lemma SingleShiftIsReloc(t: Tm, p: nat, q: nat, gap: nat)
    requires Scoped(t, p + q)
    ensures Shift(t, gap, q) == Reloc(t, p + q, p + gap + q, Role(p, gap))
  {
    ShiftShiftMerge(t, 0, 0, 0, 0);
    DoubleShiftIsReloc(t, p, q, 0, gap);
    ShiftZero(t);
  }

  lemma {:induction false} ArgsScoped(t: Tm, n: nat)
    requires Scoped(t, n)
    ensures forall j :: 0 <= j < |Args(t)| ==> Scoped(Args(t)[j], n)
    decreases t
  {
    if t.App? { ArgsScoped(t.fn, n); }
  }

  lemma HypothesisRef(ind: Inductive, k: nat, j: nat)
    requires k < |ind.ctors| && CtorScoped(ind, k)
    requires j < |Recs(ind.ctors[k].args, ind.id, |ind.ctors[k].args|)|
    ensures HypothesisType(ind, k, j) == RefHypothesisType(ind, k, j)
  {
    hide Shift, Reloc, Recs;
    var p, fields := |ind.params|, ind.ctors[k].args;
    var m := |fields|;
    var q := Recs(fields, ind.id, m)[j];
    var d := p + 1 + k + m + j;
    var idxs := IndIndices(fields[q], ind.id, p);
    ArgsScoped(fields[q], p + q);
    forall e | 0 <= e < |idxs|
      ensures Shift(Shift(idxs[e], j + m - q, 0), k + 1, j + m) == Reloc(idxs[e], p + q, d, Role(p, 1 + k))
    {
      DoubleShiftIsReloc(idxs[e], p, q, j + m - q, k + 1);
    }
    assert ShiftAll(ShiftAll(idxs, j + m - q, 0), k + 1, j + m) == RelocAll(idxs, p + q, d, Role(p, 1 + k));
  }

  lemma MinorBodyRef(ind: Inductive, k: nat)
    requires k < |ind.ctors| && CtorScoped(ind, k)
    ensures MinorBody(ind, k) == RefMinorBody(ind, k)
  {
    hide Shift, Reloc, Recs;
    var p, fields := |ind.params|, ind.ctors[k].args;
    var m := |fields|;
    var r := |Recs(fields, ind.id, m)|;
    var d := p + 1 + k + m + r;
    var ret := ind.ctors[k].ret;
    forall e | 0 <= e < |ret|
      ensures Shift(Shift(ret[e], r, 0), k + 1, r + m) == Reloc(ret[e], p + m, d, Role(p, 1 + k))
    {
      DoubleShiftIsReloc(ret[e], p, m, r, k + 1);
    }
    assert ShiftAll(ShiftAll(ret, r, 0), k + 1, r + m) == RelocAll(ret, p + m, d, Role(p, 1 + k));
    LVarsAreDownVars(d, 0, p);
    LVarsAreDownVars(d, p + 1 + k, m);
  }

  lemma MinorRef(ind: Inductive, k: nat)
    requires k < |ind.ctors| && CtorScoped(ind, k)
    ensures MinorType(ind, k) == RefMinorType(ind, k)
  {
    hide Shift, Reloc, Recs, PiTele, HypothesisType, RefHypothesisType, MinorBody, RefMinorBody;
    var p, fields := |ind.params|, ind.ctors[k].args;
    var r := |Recs(fields, ind.id, |fields|)|;
    forall q | 0 <= q < |fields|
      ensures Shift(fields[q], k + 1, q) == Reloc(fields[q], p + q, p + 1 + k + q, Role(p, 1 + k))
    {
      SingleShiftIsReloc(fields[q], p, q, k + 1);
    }
    assert FieldTypes(ind, k) ==
        seq(|fields|, q requires 0 <= q < |fields| => Reloc(fields[q], p + q, p + 1 + k + q, Role(p, 1 + k)));
    forall j | 0 <= j < r
      ensures HypothesisType(ind, k, j) == RefHypothesisType(ind, k, j)
    {
      HypothesisRef(ind, k, j);
    }
    assert HypothesisTypes(ind, k) == seq(r, j requires 0 <= j < r => RefHypothesisType(ind, k, j));
    MinorBodyRef(ind, k);
  }

  lemma IndAppRef(i: nat, p: nat, nidx: nat, depth: nat)
    ensures IndAppAt(i, p, nidx, depth) == RefIndApp(i, p, nidx, p + depth + nidx, p + depth)
  {
    hide Apply;
    var d, x := p + depth + nidx, p + depth;
    LVarsAreDownVars(d, 0, p);
    LVarsAreDownVars(d, x, nidx);
  }

  /** The synthesized recursor type is the one whose every variable points to the binder of its role. */
  lemma RecursorBinderCorrect(ind: Inductive, lm: nat)
    requires WellScoped(ind)
    ensures RecursorType(ind, lm) == RefRecursorType(ind, lm)
  {
    hide Shift, Reloc, PiTele, MinorType, RefMinorType, Apply, IndAppAt, RefIndApp;
    var p, c, nidx := |ind.params|, |ind.ctors|, |ind.indices|;
    var x := p + 1 + c;
    IndAppRef(ind.id, p, nidx, 0);
    IndAppRef(ind.id, p, nidx, 1 + c);
    forall k | 0 <= k < c
      ensures MinorType(ind, k) == RefMinorType(ind, k)
    {
      MinorRef(ind, k);
    }
    assert MinorTypes(ind) == seq(c, k requires 0 <= k < c => RefMinorType(ind, k));
    forall t | 0 <= t < nidx
      ensures Shift(ind.indices[t], 1 + c, t) == Reloc(ind.indices[t], p + t, x + t, Role(p, 1 + c))
    {
      SingleShiftIsReloc(ind.indices[t], p, t, 1 + c);
    }
    assert IndexTypes(ind) ==
        seq(nidx, t requires 0 <= t < nidx => Reloc(ind.indices[t], p + t, x + t, Role(p, 1 + c)));
    LVarsAreDownVars(x + nidx + 1, x, nidx);
  }

  // ---------------------------------------------------------------------------------------------
  // Closedness

  lemma {:induction false} PiTeleScoped(tele: seq<Tm>, body: Tm, n: nat)
    requires forall t :: 0 <= t < |tele| ==> Scoped(tele[t], n + t)
    requires Scoped(body, n + |tele|)
    ensures Scoped(PiTele(tele, body), n)
    decreases |tele|
  {
    if tele != [] {
      forall t | 0 <= t < |tele[1..]|
        ensures Scoped(tele[1..][t], n + 1 + t)
      {
        assert tele[1..][t] == tele[t + 1];
      }
      PiTeleScoped(tele[1..], body, n + 1);
    }
  }

  lemma {:induction false} ApplyScoped(h: Tm, args: seq<Tm>, n: nat)
    requires Scoped(h, n) && forall j :: 0 <= j < |args| ==> Scoped(args[j], n)
    ensures Scoped(Apply(h, args), n)
    decreases |args|
  {
    if args != [] { ApplyScoped(h, args[..|args| - 1], n); }
  }

  lemma {:induction false} RenBounded(t: Tm, n: nat, d: nat, r: Renaming)
    requires Scoped(t, n) && forall i: nat :: i < n ==> r(i) < d
    ensures Scoped(Ren(t, r), d)
    decreases t
  {
    match t
    case Pi(a, b) => RenBounded(a, n, d, r); RenBounded(b, n + 1, d + 1, UpRen(r));
    case Lam(a, b) => RenBounded(a, n, d, r); RenBounded(b, n + 1, d + 1, UpRen(r));
    case App(f, x) => RenBounded(f, n, d, r); RenBounded(x, n, d, r);
    case _ =>
  }

  lemma RelocScoped(t: Tm, n: nat, d: nat, f: nat -> nat)
    requires Scoped(t, n) && forall l :: 0 <= l < n ==> f(l) < d
    ensures Scoped(Reloc(t, n, d, f), d)
  {
    RenBounded(t, n, d, RelocRen(n, d, f));
  }

  lemma RefMinorScoped(ind: Inductive, k: nat)
    requires k < |ind.ctors| && CtorScoped(ind, k)
    ensures Scoped(RefMinorType(ind, k), |ind.params| + 1 + k)
  {
    hide Reloc, Recs, Apply, RefHypothesisType, RefMinorBody;
    var p, fields := |ind.params|, ind.ctors[k].args;
    var m := |fields|;
    var r := |Recs(fields, ind.id, m)|;
    var n := p + 1 + k;
    forall j | 0 <= j < r
      ensures Scoped(RefHypothesisType(ind, k, j), n + m + j)
    {
      RefHypothesisScoped(ind, k, j);
    }
    RefMinorBodyScoped(ind, k);
    PiTeleScoped(seq(r, j requires 0 <= j < r => RefHypothesisType(ind, k, j)), RefMinorBody(ind, k), n + m);
    forall q | 0 <= q < m
      ensures Scoped(Reloc(fields[q], p + q, n + q, Role(p, 1 + k)), n + q)
    {
      RelocScoped(fields[q], p + q, n + q, Role(p, 1 + k));
    }
    PiTeleScoped(seq(m, q requires 0 <= q < m => Reloc(fields[q], p + q, n + q, Role(p, 1 + k))),
        PiTele(seq(r, j requires 0 <= j < r => RefHypothesisType(ind, k, j)), RefMinorBody(ind, k)), n);
  }

  lemma RefHypothesisScoped(ind: Inductive, k: nat, j: nat)
    requires k < |ind.ctors| && CtorScoped(ind, k)
    requires j < |Recs(ind.ctors[k].args, ind.id, |ind.ctors[k].args|)|
    ensures Scoped(RefHypothesisType(ind, k, j), |ind.params| + 1 + k + |ind.ctors[k].args| + j)
  {
    hide Reloc, Recs, Apply;
    var p, fields := |ind.params|, ind.ctors[k].args;
    var q := Recs(fields, ind.id, |fields|)[j];
    var d := p + 1 + k + |fields| + j;
    var idxs := IndIndices(fields[q], ind.id, p);
    ArgsScoped(fields[q], p + q);
    forall e | 0 <= e < |idxs|
      ensures Scoped(Reloc(idxs[e], p + q, d, Role(p, 1 + k)), d)
    {
      RelocScoped(idxs[e], p + q, d, Role(p, 1 + k));
    }
    ApplyScoped(LVar(d, p), RelocAll(idxs, p + q, d, Role(p, 1 + k)), d);
  }

  lemma RefMinorBodyScoped(ind: Inductive, k: nat)
    requires k < |ind.ctors| && CtorScoped(ind, k)
    ensures Scoped(RefMinorBody(ind, k),
      |ind.params| + 1 + k + |ind.ctors[k].args| + |Recs(ind.ctors[k].args, ind.id, |ind.ctors[k].args|)|)
  {
    hide Reloc, Recs, Apply;
    var p, fields := |ind.params|, ind.ctors[k].args;
    var m := |fields|;
    var d := p + 1 + k + m + |Recs(fields, ind.id, m)|;
    var ret := ind.ctors[k].ret;
    forall e | 0 <= e < |ret|
      ensures Scoped(Reloc(ret[e], p + m, d, Role(p, 1 + k)), d)
    {
      RelocScoped(ret[e], p + m, d, Role(p, 1 + k));
    }
    ApplyScoped(LVar(d, p), RelocAll(ret, p + m, d, Role(p, 1 + k)), d);
    ApplyScoped(Ctor(ind.id, k), LVars(d, 0, p), d);
    ApplyScoped(Apply(Ctor(ind.id, k), LVars(d, 0, p)), LVars(d, p + 1 + k, m), d);
  }

  /** With well-scoped telescopes the recursor type is closed. */
  lemma RecursorClosed(ind: Inductive, lm: nat)
    requires WellScoped(ind)
    ensures Scoped(RecursorType(ind, lm), 0)
  {
    hide Reloc, PiTele, RefMinorType, Apply, RefIndApp, MinorType, RecursorType;
    RecursorBinderCorrect(ind, lm);
    var p, c, nidx := |ind.params|, |ind.ctors|, |ind.indices|;
    var x := p + 1 + c;
    RefIndAppScoped(ind.id, p, nidx, p + nidx, p);
    RefIndAppScoped(ind.id, p, nidx, x + nidx, x);
    var motive := PiTele(ind.indices, Pi(RefIndApp(ind.id, p, nidx, p + nidx, p), Sort(lm)));
    PiTeleScoped(ind.indices, Pi(RefIndApp(ind.id, p, nidx, p + nidx, p), Sort(lm)), p);
    var args := LVars(x + nidx + 1, x, nidx) + [LVar(x + nidx + 1, x + nidx)];
    ApplyScoped(LVar(x + nidx + 1, p), args, x + nidx + 1);
    var scrut := Pi(RefIndApp(ind.id, p, nidx, x + nidx, x), Apply(LVar(x + nidx + 1, p), args));
    var indices := seq(nidx, t requires 0 <= t < nidx => Reloc(ind.indices[t], p + t, x + t, Role(p, 1 + c)));
    forall t | 0 <= t < nidx
      ensures Scoped(indices[t], x + t)
    {
      RelocScoped(ind.indices[t], p + t, x + t, Role(p, 1 + c));
    }
    PiTeleScoped(indices, scrut, x);
    var minors := seq(c, k requires 0 <= k < c => RefMinorType(ind, k));
    forall k | 0 <= k < c
      ensures Scoped(minors[k], p + 1 + k)
    {
      RefMinorScoped(ind, k);
    }
    PiTeleScoped(minors, PiTele(indices, scrut), p + 1);
    PiTeleScoped(ind.params, Pi(motive, PiTele(minors, PiTele(indices, scrut))), 0);
  }

  lemma RefIndAppScoped(i: nat, p: nat, nidx: nat, d: nat, x: nat)
    requires p <= d && x + nidx <= d
    ensures Scoped(RefIndApp(i, p, nidx, d, x), d)
  {
    ApplyScoped(Ind(i), LVars(d, 0, p) + LVars(d, x, nidx), d);
  }
}
