/** Core terms of the proof kernel with de Bruijn indices, and their shift and substitution. */
module Tms {

  datatype Tm =
    | Var(i: nat)
    | Sort(l: nat)
    | Pi(dom: Tm, cod: Tm)
    | Lam(dom: Tm, body: Tm)
    | App(fn: Tm, arg: Tm)
    | Const(c: nat)
    | Ind(id: nat)
    | Ctor(id: nat, k: nat)
    | Elim(id: nat)

  /** Indices are 32-bit: an index pushed below zero wraps around. */
  function Index(v: int): nat {
    if v >= 0 then v else v % 0x1_0000_0000
  }

  /** Add `d` to every variable at or above `cutoff`. */
  function Shift(t: Tm, d: int, cutoff: nat): Tm {
    match t
    case Var(i) => Var(if i >= cutoff then Index(i + d) else i)
    case Pi(a, b) => Pi(Shift(a, d, cutoff), Shift(b, d, cutoff + 1))
    case Lam(a, b) => Lam(Shift(a, d, cutoff), Shift(b, d, cutoff + 1))
    case App(f, x) => App(Shift(f, d, cutoff), Shift(x, d, cutoff))
    case _ => t
  }

  /** Replace variable `j` by `arg` and close the gap. */
  function Subst(t: Tm, j: nat, arg: Tm): Tm {
    match t
    case Var(i) => if i == j then Shift(arg, j, 0) else Var(if i > j then i - 1 else i)
    case Pi(a, b) => Pi(Subst(a, j, arg), Subst(b, j + 1, arg))
    case Lam(a, b) => Lam(Subst(a, j, arg), Subst(b, j + 1, arg))
    case App(f, x) => App(Subst(f, j, arg), Subst(x, j, arg))
    case _ => t
  }

  /** Does variable `k` occur free in `t`? */
  predicate Occurs(t: Tm, k: nat) {
    match t
    case Var(i) => i == k
    case Pi(a, b) => Occurs(a, k) || Occurs(b, k + 1)
    case Lam(a, b) => Occurs(a, k) || Occurs(b, k + 1)
    case App(f, x) => Occurs(f, k) || Occurs(x, k)
    case _ => false
  }

  /** Every free variable of `t` is below `n`. */
  predicate Scoped(t: Tm, n: nat) {
    match t
    case Var(i) => i < n
    case Pi(a, b) => Scoped(a, n) && Scoped(b, n + 1)
    case Lam(a, b) => Scoped(a, n) && Scoped(b, n + 1)
    case App(f, x) => Scoped(f, n) && Scoped(x, n)
    case _ => true
  }
}

/**
 The substitution calculus. Renamings and parallel substitutions are reference semantics:
 shift and subst are instances of them, and every law reduces to its effect on a variable.
 */
module TmCalculus {
  import opened Tms

  type Renaming = nat -> nat
  type Substitution = nat -> Tm

  function UpRen(r: Renaming): Renaming {
    (i: nat) => if i == 0 then 0 else r(i - 1) + 1
  }

  function Ren(t: Tm, r: Renaming): Tm
    decreases t
  {
    match t
    case Var(i) => Var(r(i))
    case Pi(a, b) => Pi(Ren(a, r), Ren(b, UpRen(r)))
    case Lam(a, b) => Lam(Ren(a, r), Ren(b, UpRen(r)))
    case App(f, x) => App(Ren(f, r), Ren(x, r))
    case _ => t
  }

  function Succ(): Renaming { (i: nat) => i + 1 }

  function Lift(t: Tm): Tm { Ren(t, Succ()) }

  function Up(s: Substitution): Substitution {
    (i: nat) => if i == 0 then Var(0) else Lift(s(i - 1))
  }

  function Inst(t: Tm, s: Substitution): Tm
    decreases t
  {
    match t
    case Var(i) => s(i)
    case Pi(a, b) => Pi(Inst(a, s), Inst(b, Up(s)))
    case Lam(a, b) => Lam(Inst(a, s), Inst(b, Up(s)))
    case App(f, x) => App(Inst(f, s), Inst(x, s))
    case _ => t
  }

  // Congruence: only the values at variables matter

  lemma {:induction false} RenExt(t: Tm, r: Renaming, r': Renaming)
    requires forall i: nat :: r(i) == r'(i)
    ensures Ren(t, r) == Ren(t, r')
    decreases t
  {
    match t
    case Pi(a, b) => RenExt(a, r, r'); RenExt(b, UpRen(r), UpRen(r'));
    case Lam(a, b) => RenExt(a, r, r'); RenExt(b, UpRen(r), UpRen(r'));
    case App(f, x) => RenExt(f, r, r'); RenExt(x, r, r');
    case _ =>
  }

  lemma {:induction false} InstExt(t: Tm, s: Substitution, s': Substitution)
    requires forall i: nat :: s(i) == s'(i)
    ensures Inst(t, s) == Inst(t, s')
    decreases t
  {
    match t
    case Pi(a, b) => InstExt(a, s, s'); InstExt(b, Up(s), Up(s'));
    case Lam(a, b) => InstExt(a, s, s'); InstExt(b, Up(s), Up(s'));
    case App(f, x) => InstExt(f, s, s'); InstExt(x, s, s');
    case _ =>
  }

  // Composition. Each law takes the composed map `c` and its defining equation.

  lemma {:induction false} RenRen(t: Tm, r: Renaming, q: Renaming, c: Renaming)
    requires forall i: nat :: c(i) == q(r(i))
    ensures Ren(Ren(t, r), q) == Ren(t, c)
    decreases t
  {
    match t
    case Pi(a, b) => RenRen(a, r, q, c); RenRen(b, UpRen(r), UpRen(q), UpRen(c));
    case Lam(a, b) => RenRen(a, r, q, c); RenRen(b, UpRen(r), UpRen(q), UpRen(c));
    case App(f, x) => RenRen(f, r, q, c); RenRen(x, r, q, c);
    case _ =>
  }

  lemma {:induction false} InstRen(t: Tm, r: Renaming, s: Substitution, c: Substitution)
    requires forall i: nat :: c(i) == s(r(i))
    ensures Inst(Ren(t, r), s) == Inst(t, c)
    decreases t
  {
    match t
    case Pi(a, b) => InstRen(a, r, s, c); InstRen(b, UpRen(r), Up(s), Up(c));
    case Lam(a, b) => InstRen(a, r, s, c); InstRen(b, UpRen(r), Up(s), Up(c));
    case App(f, x) => InstRen(f, r, s, c); InstRen(x, r, s, c);
    case _ =>
  }

  function Then(r: Renaming, q: Renaming): Renaming { (i: nat) => q(r(i)) }

  lemma LiftRen(t: Tm, r: Renaming)
    ensures Ren(Lift(t), UpRen(r)) == Lift(Ren(t, r))
  {
    var c := Then(r, Succ());
    RenRen(t, Succ(), UpRen(r), c);
    RenRen(t, r, Succ(), c);
  }

  lemma {:induction false} RenInst(t: Tm, s: Substitution, r: Renaming, c: Substitution)
    requires forall i: nat :: c(i) == Ren(s(i), r)
    ensures Ren(Inst(t, s), r) == Inst(t, c)
    decreases t
  {
    match t
    case Pi(a, b) => RenInst(a, s, r, c); UpRenamed(s, r, c); RenInst(b, Up(s), UpRen(r), Up(c));
    case Lam(a, b) => RenInst(a, s, r, c); UpRenamed(s, r, c); RenInst(b, Up(s), UpRen(r), Up(c));
    case App(f, x) => RenInst(f, s, r, c); RenInst(x, s, r, c);
    case _ =>
  }

  lemma UpRenamed(s: Substitution, r: Renaming, c: Substitution)
    requires forall i: nat :: c(i) == Ren(s(i), r)
    ensures forall i: nat :: Up(c)(i) == Ren(Up(s)(i), UpRen(r))
  {
    forall i: nat
      ensures Up(c)(i) == Ren(Up(s)(i), UpRen(r))
    {
      if i > 0 { LiftRen(s(i - 1), r); }
    }
  }

  function Lifted(s: Substitution): Substitution { (i: nat) => Lift(s(i)) }

  lemma LiftInst(t: Tm, s: Substitution)
    ensures Inst(Lift(t), Up(s)) == Lift(Inst(t, s))
  {
    InstRen(t, Succ(), Up(s), Lifted(s));
    RenInst(t, s, Succ(), Lifted(s));
  }

  /** Substituting twice is substituting once with the composed substitution. */
  lemma {:induction false} InstInst(t: Tm, s: Substitution, u: Substitution, c: Substitution)
    requires forall i: nat :: c(i) == Inst(s(i), u)
    ensures Inst(Inst(t, s), u) == Inst(t, c)
    decreases t
  {
    match t
    case Pi(a, b) => InstInst(a, s, u, c); UpInst(s, u, c); InstInst(b, Up(s), Up(u), Up(c));
    case Lam(a, b) => InstInst(a, s, u, c); UpInst(s, u, c); InstInst(b, Up(s), Up(u), Up(c));
    case App(f, x) => InstInst(f, s, u, c); InstInst(x, s, u, c);
    case _ =>
  }

  lemma UpInst(s: Substitution, u: Substitution, c: Substitution)
    requires forall i: nat :: c(i) == Inst(s(i), u)
    ensures forall i: nat :: Up(c)(i) == Inst(Up(s)(i), Up(u))
  {
    forall i: nat
      ensures Up(c)(i) == Inst(Up(s)(i), Up(u))
    {
      if i > 0 { LiftInst(s(i - 1), u); }
    }
  }

  // Shift and subst are instances

  function ShiftR(d: nat, c: nat): Renaming {
    (i: nat) => if i >= c then i + d else i
  }

  function ShiftS(d: nat, c: nat): Substitution {
    (i: nat) => Var(if i >= c then i + d else i)
  }

  function SubstS(j: nat, arg: Tm): Substitution {
    (i: nat) => if i == j then Shift(arg, j, 0) else Var(if i > j then i - 1 else i)
  }

  function IdS(): Substitution { (i: nat) => Var(i) }

  lemma {:induction false} ShiftIsRen(t: Tm, d: nat, c: nat)
    ensures Shift(t, d, c) == Ren(t, ShiftR(d, c))
    decreases t
  {
    match t
    case Pi(a, b) => ShiftIsRen(a, d, c); ShiftIsRen(b, d, c + 1); RenExt(b, ShiftR(d, c + 1), UpRen(ShiftR(d, c)));
    case Lam(a, b) => ShiftIsRen(a, d, c); ShiftIsRen(b, d, c + 1); RenExt(b, ShiftR(d, c + 1), UpRen(ShiftR(d, c)));
    case App(f, x) => ShiftIsRen(f, d, c); ShiftIsRen(x, d, c);
    case _ =>
  }

  lemma {:induction false} ShiftIsInst(t: Tm, d: nat, c: nat)
    ensures Shift(t, d, c) == Inst(t, ShiftS(d, c))
    decreases t
  {
    match t
    case Pi(a, b) =>
      ShiftIsInst(a, d, c); ShiftIsInst(b, d, c + 1);
      UpShift(d, c); InstExt(b, ShiftS(d, c + 1), Up(ShiftS(d, c)));
    case Lam(a, b) =>
      ShiftIsInst(a, d, c); ShiftIsInst(b, d, c + 1);
      UpShift(d, c); InstExt(b, ShiftS(d, c + 1), Up(ShiftS(d, c)));
    case App(f, x) => ShiftIsInst(f, d, c); ShiftIsInst(x, d, c);
    case _ =>
  }

  lemma LiftVar(i: nat)
    ensures Lift(Var(i)) == Var(i + 1)
  {
  }

  lemma UpShift(d: nat, c: nat)
    ensures forall i: nat :: ShiftS(d, c + 1)(i) == Up(ShiftS(d, c))(i)
  {
    forall i: nat
      ensures ShiftS(d, c + 1)(i) == Up(ShiftS(d, c))(i)
    {
      if i > 0 { LiftVar(if i - 1 >= c then i - 1 + d else i - 1); }
    }
  }

  lemma ShiftOnce(t: Tm, j: nat)
    ensures Lift(Shift(t, j, 0)) == Shift(t, j + 1, 0)
  {
    ShiftIsRen(t, j, 0);
    ShiftIsRen(t, j + 1, 0);
    RenRen(t, ShiftR(j, 0), Succ(), ShiftR(j + 1, 0));
  }

  lemma {:induction false} SubstIsInst(t: Tm, j: nat, arg: Tm)
    ensures Subst(t, j, arg) == Inst(t, SubstS(j, arg))
    decreases t
  {
    match t
    case Pi(a, b) =>
      SubstIsInst(a, j, arg); SubstIsInst(b, j + 1, arg);
      UpSubst(j, arg); InstExt(b, SubstS(j + 1, arg), Up(SubstS(j, arg)));
    case Lam(a, b) =>
      SubstIsInst(a, j, arg); SubstIsInst(b, j + 1, arg);
      UpSubst(j, arg); InstExt(b, SubstS(j + 1, arg), Up(SubstS(j, arg)));
    case App(f, x) => SubstIsInst(f, j, arg); SubstIsInst(x, j, arg);
    case _ =>
  }

  lemma UpSubst(j: nat, arg: Tm)
    ensures forall i: nat :: SubstS(j + 1, arg)(i) == Up(SubstS(j, arg))(i)
  {
    ShiftOnce(arg, j);
    forall i: nat
      ensures SubstS(j + 1, arg)(i) == Up(SubstS(j, arg))(i)
    {
      if i > 0 && i - 1 != j { LiftVar(if i - 1 > j then i - 2 else i - 1); }
    }
  }

  // ---------------------------------------------------------------------------------------------
  // The laws

  lemma {:induction false} IdInst(t: Tm)
    ensures Inst(t, IdS()) == t
    decreases t
  {
    match t
    case Pi(a, b) => IdInst(a); IdInst(b); InstExt(b, Up(IdS()), IdS());
    case Lam(a, b) => IdInst(a); IdInst(b); InstExt(b, Up(IdS()), IdS());
    case App(f, x) => IdInst(f); IdInst(x);
    case _ =>
  }

  lemma ShiftZero(t: Tm)
    ensures Shift(t, 0, 0) == t
  {
    ShiftIsInst(t, 0, 0);
    InstExt(t, ShiftS(0, 0), IdS());
    IdInst(t);
  }

  /** A shift followed by the substitution of the fresh variable does nothing. */
  lemma {:induction false} SubstShiftCancels(t: Tm, j: nat, arg: Tm)
    ensures Subst(Shift(t, 1, j), j, arg) == t
  {
    ShiftIsInst(t, 1, j);
    SubstIsInst(Shift(t, 1, j), j, arg);
    InstInst(t, ShiftS(1, j), SubstS(j, arg), IdS());
    IdInst(t);
  }

  /** Shifts at overlapping cutoffs add up. */
  lemma {:induction false} ShiftShiftMerge(t: Tm, d: nat, c: nat, e: nat, k: nat)
    requires c <= k <= c + d
    ensures Shift(Shift(t, d, c), e, k) == Shift(t, d + e, c)
  {
    hide Shift, Ren;
    ShiftIsRen(t, d, c);
    ShiftIsRen(Shift(t, d, c), e, k);
    ShiftIsRen(t, d + e, c);
    RenRen(t, ShiftR(d, c), ShiftR(e, k), ShiftR(d + e, c));
  }

  /** Shifts at separate cutoffs commute. */
  lemma {:induction false} ShiftShiftCommute(t: Tm, d: nat, c: nat, e: nat, k: nat)
    requires k <= c
    ensures Shift(Shift(t, d, c), e, k) == Shift(Shift(t, e, k), d, c + e)
  {
    hide Shift, Ren;
    ShiftIsRen(t, d, c);
    ShiftIsRen(Shift(t, d, c), e, k);
    ShiftIsRen(t, e, k);
    ShiftIsRen(Shift(t, e, k), d, c + e);
    var both: Renaming := (i: nat) => if i >= c then i + d + e else if i >= k then i + e else i;
    RenRen(t, ShiftR(d, c), ShiftR(e, k), both);
    RenRen(t, ShiftR(e, k), ShiftR(d, c + e), both);
  }

  function Composed(s: Substitution, u: Substitution): Substitution { (i: nat) => Inst(s(i), u) }

  /** A shift above the substituted variable moves inside both parts. */
  lemma {:induction false} ShiftSubstAbove(t: Tm, j: nat, arg: Tm, d: nat, c: nat)
    requires j <= c
    ensures Shift(Subst(t, j, arg), d, c) == Subst(Shift(t, d, c + 1), j, Shift(arg, d, c - j))
  {
    hide Shift, Subst, Ren;
    var arg' := Shift(arg, d, c - j);
    var both := Composed(SubstS(j, arg), ShiftS(d, c));
    SubstIsInst(t, j, arg);
    ShiftIsInst(Subst(t, j, arg), d, c);
    InstInst(t, SubstS(j, arg), ShiftS(d, c), both);
    ShiftIsInst(t, d, c + 1);
    SubstIsInst(Shift(t, d, c + 1), j, arg');
    forall i: nat
      ensures both(i) == Inst(ShiftS(d, c + 1)(i), SubstS(j, arg'))
    {
      ShiftSubstAboveAt(j, arg, d, c, i);
    }
    InstInst(t, ShiftS(d, c + 1), SubstS(j, arg'), both);
  }

  lemma ShiftSubstAboveAt(j: nat, arg: Tm, d: nat, c: nat, i: nat)
    requires j <= c
    ensures Inst(SubstS(j, arg)(i), ShiftS(d, c)) == Inst(ShiftS(d, c + 1)(i), SubstS(j, Shift(arg, d, c - j)))
  {
    hide Shift, Subst, Ren;
    if i == j {
      ShiftIsInst(Shift(arg, j, 0), d, c);
      ShiftShiftCommute(arg, d, c - j, j, 0);
    }
  }

  /** A shift below the substituted variable renames that variable. */
  lemma {:induction false} ShiftSubstBelow(t: Tm, j: nat, arg: Tm, d: nat, c: nat)
    requires c <= j
    ensures Shift(Subst(t, j, arg), d, c) == Subst(Shift(t, d, c), j + d, arg)
  {
    hide Shift, Subst, Ren;
    var both := Composed(SubstS(j, arg), ShiftS(d, c));
    SubstIsInst(t, j, arg);
    ShiftIsInst(Subst(t, j, arg), d, c);
    InstInst(t, SubstS(j, arg), ShiftS(d, c), both);
    ShiftIsInst(t, d, c);
    SubstIsInst(Shift(t, d, c), j + d, arg);
    forall i: nat
      ensures both(i) == Inst(ShiftS(d, c)(i), SubstS(j + d, arg))
    {
      ShiftSubstBelowAt(j, arg, d, c, i);
    }
    InstInst(t, ShiftS(d, c), SubstS(j + d, arg), both);
  }

  lemma ShiftSubstBelowAt(j: nat, arg: Tm, d: nat, c: nat, i: nat)
    requires c <= j
    ensures Inst(SubstS(j, arg)(i), ShiftS(d, c)) == Inst(ShiftS(d, c)(i), SubstS(j + d, arg))
  {
    hide Shift, Subst, Ren;
    if i == j {
      ShiftIsInst(Shift(arg, j, 0), d, c);
      ShiftShiftMerge(arg, j, 0, d, c);
    }
  }

  /** The substitution lemma. */
  lemma {:induction false} SubstSubst(t: Tm, j: nat, a: Tm, k: nat, b: Tm)
    requires j <= k
    ensures Subst(Subst(t, j, a), k, b) == Subst(Subst(t, k + 1, b), j, Subst(a, k - j, b))
  {
    hide Shift, Subst, Ren;
    var a' := Subst(a, k - j, b);
    var both := Composed(SubstS(j, a), SubstS(k, b));
    SubstIsInst(t, j, a);
    SubstIsInst(Subst(t, j, a), k, b);
    InstInst(t, SubstS(j, a), SubstS(k, b), both);
    SubstIsInst(t, k + 1, b);
    SubstIsInst(Subst(t, k + 1, b), j, a');
    forall i: nat
      ensures both(i) == Inst(SubstS(k + 1, b)(i), SubstS(j, a'))
    {
      SubstSubstAt(j, a, k, b, i);
    }
    InstInst(t, SubstS(k + 1, b), SubstS(j, a'), both);
  }

  lemma SubstSubstAt(j: nat, a: Tm, k: nat, b: Tm, i: nat)
    requires j <= k
    ensures Inst(SubstS(j, a)(i), SubstS(k, b)) == Inst(SubstS(k + 1, b)(i), SubstS(j, Subst(a, k - j, b)))
  {
    hide Shift, Subst, Ren;
    var a' := Subst(a, k - j, b);
    if i == j {
      SubstIsInst(Shift(a, j, 0), k, b);
      ShiftSubstBelow(a, k - j, b, j, 0);
    } else if i == k + 1 {
      SubstIsInst(Shift(b, k + 1, 0), j, a');
      ShiftShiftMerge(b, k, 0, 1, j);
      SubstShiftCancels(Shift(b, k, 0), j, a');
    }
  }

  /** Without the variable, lowering the indices above it is the same as substituting anything for it. */
  lemma {:induction false} UnshiftIsSubst(t: Tm, c: nat, arg: Tm)
    requires !Occurs(t, c)
    ensures Shift(t, -1, c) == Subst(t, c, arg)
    decreases t
  {
    match t
    case Pi(a, b) => UnshiftIsSubst(a, c, arg); UnshiftIsSubst(b, c + 1, arg);
    case Lam(a, b) => UnshiftIsSubst(a, c, arg); UnshiftIsSubst(b, c + 1, arg);
    case App(f, x) => UnshiftIsSubst(f, c, arg); UnshiftIsSubst(x, c, arg);
    case _ =>
  }

  lemma {:induction false} ShiftOccurs(t: Tm, c: nat)
    ensures !Occurs(Shift(t, 1, c), c)
    decreases t
  {
    match t
    case Pi(a, b) => ShiftOccurs(a, c); ShiftOccurs(b, c + 1);
    case Lam(a, b) => ShiftOccurs(a, c); ShiftOccurs(b, c + 1);
    case App(f, x) => ShiftOccurs(f, c); ShiftOccurs(x, c);
    case _ =>
  }

  /** Raising and lowering cancel. */
  lemma {:induction false} ShiftUnshift(t: Tm, c: nat)
    ensures Shift(Shift(t, 1, c), -1, c) == t
  {
    ShiftOccurs(t, c);
    UnshiftIsSubst(Shift(t, 1, c), c, Sort(0));
    SubstShiftCancels(t, c, Sort(0));
  }

  /** Lowering and raising cancel when the variable is absent. */
  lemma {:induction false} UnshiftShift(t: Tm, c: nat)
    requires !Occurs(t, c)
    ensures Shift(Shift(t, -1, c), 1, c) == t
    decreases t
  {
    match t
    case Pi(a, b) => UnshiftShift(a, c); UnshiftShift(b, c + 1);
    case Lam(a, b) => UnshiftShift(a, c); UnshiftShift(b, c + 1);
    case App(f, x) => UnshiftShift(f, c); UnshiftShift(x, c);
    case _ =>
  }

  // Scoping

  lemma {:induction false} ShiftScoped(t: Tm, d: nat, c: nat, n: nat)
    requires Scoped(t, n)
    ensures Scoped(Shift(t, d, c), n + d)
    decreases t
  {
    match t
    case Pi(a, b) => ShiftScoped(a, d, c, n); ShiftScoped(b, d, c + 1, n + 1);
    case Lam(a, b) => ShiftScoped(a, d, c, n); ShiftScoped(b, d, c + 1, n + 1);
    case App(f, x) => ShiftScoped(f, d, c, n); ShiftScoped(x, d, c, n);
    case _ =>
  }

  lemma {:induction false} SubstScoped(t: Tm, j: nat, arg: Tm, n: nat)
    requires j <= n && Scoped(t, n + 1) && Scoped(arg, n - j)
    ensures Scoped(Subst(t, j, arg), n)
    decreases t
  {
    match t
    case Var(i) => if i == j { ShiftScoped(arg, j, 0, n - j); }
    case Pi(a, b) => SubstScoped(a, j, arg, n); SubstScoped(b, j + 1, arg, n + 1);
    case Lam(a, b) => SubstScoped(a, j, arg, n); SubstScoped(b, j + 1, arg, n + 1);
    case App(f, x) => SubstScoped(f, j, arg, n); SubstScoped(x, j, arg, n);
    case _ =>
  }

  /** Only the variables in scope matter. */
  lemma {:induction false} InstScoped(t: Tm, n: nat, s: Substitution, s': Substitution)
    requires Scoped(t, n) && forall i: nat :: i < n ==> s(i) == s'(i)
    ensures Inst(t, s) == Inst(t, s')
    decreases t
  {
    match t
    case Pi(a, b) => InstScoped(a, n, s, s'); InstScoped(b, n + 1, Up(s), Up(s'));
    case Lam(a, b) => InstScoped(a, n, s, s'); InstScoped(b, n + 1, Up(s), Up(s'));
    case App(f, x) => InstScoped(f, n, s, s'); InstScoped(x, n, s, s');
    case _ =>
  }
}
