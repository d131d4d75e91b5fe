/** α-renaming: every binder gets a name of its own, stamped with a counter. */
module Alpha {
  import opened Common
  import opened Asts
  import opened Decimal
  import opened Pass1
  import opened Linearize
  import opened LinearizeProof
  import opened Elab
  import opened ElabProof
  import opened Nets
  import opened Readback
  import opened ReadbackProof

  function FreshName(base: string, n: nat): string { base + "~" + Digits(n) }

  /** Rename under `env`, drawing stamps from `ctr`; free names pass through. */
  function Rename(e: Ast, env: map<string, string>, ctr: nat): (Ast, nat)
    decreases e
  {
    match e
    case Name(n) => (Name(if n in env then env[n] else n), ctr)
    case Abs(x, b) =>
      var x' := FreshName(x, ctr);
      var (b', c) := Rename(b, env[x := x'], ctr + 1);
      (Abs(x', b'), c)
    case App(f, a) =>
      var (f', c) := Rename(f, env, ctr);
      var (a', c') := Rename(a, env, c);
      (App(f', a'), c')
    case Rep(s, a, b, body) =>
      var (s', c) := Rename(s, env, ctr);
      var a', b' := FreshName(a, c), FreshName(b, c + 1);
      var (body', c') := Rename(body, env[a := a'][b := b'], c + 2);
      (Rep(s', a', b', body'), c')
    case Era(s, body) =>
      var (s', c) := Rename(s, env, ctr);
      var (body', c') := Rename(body, env, c);
      (Era(s', body'), c')
    case Fix(i) =>
      var (i', c) := Rename(i, env, ctr);
      (Fix(i'), c)
    case _ => (e, ctr)
  }

  /** The process-wide counter as an object. */
  class Renamer {
    var ctr: nat

    constructor ()
      ensures ctr == 0
    {
      ctr := 0;
    }

    method Fresh(base: string) returns (r: string)
      modifies this
      ensures r == FreshName(base, old(ctr)) && ctr == old(ctr) + 1
    {
      r := FreshName(base, ctr);
      ctr := ctr + 1;
    }

    method Apply(e: Ast, env: map<string, string>) returns (r: Ast)
      modifies this
      ensures (r, ctr) == Rename(e, env, old(ctr))
      decreases e
    {
      match e
      case Name(n) => return Name(if n in env then env[n] else n);
      case Abs(x, b) =>
        var x' := Fresh(x);
        var b' := Apply(b, env[x := x']);
        return Abs(x', b');
      case App(f, a) =>
        var f' := Apply(f, env);
        var a' := Apply(a, env);
        return App(f', a');
      case Rep(s, a, b, body) =>
        var s' := Apply(s, env);
        var a' := Fresh(a);
        var b' := Fresh(b);
        var body' := Apply(body, env[a := a'][b := b']);
        return Rep(s', a', b', body');
      case Era(s, body) =>
        var s' := Apply(s, env);
        var body' := Apply(body, env);
        return Era(s', body');
      case Fix(i) =>
        var i' := Apply(i, env);
        return Fix(i');
      case Val(_) => return e;
      case Fun(_) => return e;
    }
  }

  // ---------------------------------------------------------------------------------------------
  // Stamps

  /** The number after the last mark of a minted name. */
  function Stamp(s: string): Option<nat> { if '~' in s then ParseDigits(After(s, '~')) else None }

  lemma StampIs(base: string, n: nat)
    ensures Stamp(FreshName(base, n)) == Some(n)
  {
    DigitsPlain(n);
    DigitsBack(n);
    assert FreshName(base, n) == base + ['~'] + Digits(n);
    assert FreshName(base, n)[|base|] == '~';
    AfterIs(base, '~', Digits(n));
  }

  predicate Stamped(s: string, lo: nat, hi: nat) { Stamp(s).Some? && lo <= Stamp(s).value < hi }

  /** One-to-one, onto names stamped before `ctr`. */
  predicate Fresh(env: map<string, string>, ctr: nat) {
    && (forall n :: n in env ==> Stamped(env[n], 0, ctr))
    && (forall n, m :: n in env && m in env && env[n] == env[m] ==> n == m)
  }

  lemma FreshMore(env: map<string, string>, ctr: nat, x: string)
    requires Fresh(env, ctr)
    ensures Fresh(env[x := FreshName(x, ctr)], ctr + 1)
    ensures forall n :: n in env ==> env[n] != FreshName(x, ctr)
  {
    StampIs(x, ctr);
  }

  lemma FreshLater(env: map<string, string>, ctr: nat, c: nat)
    requires Fresh(env, ctr) && ctr <= c
    ensures Fresh(env, c)
  {
  }

  // ---------------------------------------------------------------------------------------------
  // Binders become unique

  predicate AllStamped(names: set<string>, lo: nat, hi: nat) { forall n :: n in names ==> Stamped(n, lo, hi) }

  lemma {:induction false} RenameUnique(e: Ast, env: map<string, string>, ctr: nat)
    requires Pure(e)
    ensures
      var (e', c) := Rename(e, env, ctr);
      ctr <= c && Pure(e') && UniqueBinders(e') && AllStamped(Binders(e'), ctr, c)
    decreases e
  {
    hide Stamp;
    match e
    case Name(_) =>
    case Abs(x, b) =>
      StampIs(x, ctr);
      RenameUnique(b, env[x := FreshName(x, ctr)], ctr + 1);
    case App(f, a) =>
      RenameUnique(f, env, ctr);
      RenameUnique(a, env, Rename(f, env, ctr).1);
    case Rep(s, a, b, body) =>
      StampIs(a, ctr);
      StampIs(b, ctr + 1);
      RenameUnique(body, env[a := FreshName(a, ctr)][b := FreshName(b, ctr + 1)], ctr + 2);
    case Era(s, body) => RenameUnique(body, env, ctr);
  }

  // ---------------------------------------------------------------------------------------------
  // Uses, linearity, meaning

  /** Uses of a renamed name are those of the original; other names are not used. */
  lemma {:induction false} RenameUsesOf(e: Ast, env: map<string, string>, ctr: nat, y: string)
    requires Pure(e) && Frees(e) <= env.Keys && Fresh(env, ctr)
    ensures forall n :: n in env && env[n] == y ==> Uses(y, Rename(e, env, ctr).0) == Uses(n, e)
    ensures (forall n :: n in env ==> env[n] != y) ==> Uses(y, Rename(e, env, ctr).0) == 0
    decreases e, 1
  {
    hide Stamp, FreshName, Fresh;
    RenameUnique(e, env, ctr);
    match e
    case Name(n) => OneToOne(env, ctr);
    case Abs(x, b) =>
      FreshMore(env, ctr, x);
      OneToOne(env, ctr);
      RenameUsesOf(b, env[x := FreshName(x, ctr)], ctr + 1, y);
    case App(f, a) =>
      var c := Rename(f, env, ctr).1;
      RenameUnique(f, env, ctr);
      FreshLater(env, ctr, c);
      RenameUsesOf(f, env, ctr, y);
      RenameUsesOf(a, env, c, y);
    case Rep(s, a, b, body) => RenameUsesRep(s, a, b, body, env, ctr, y);
    case Era(s, body) =>
      RenameUsesOf(s, env, ctr, y);
      RenameUsesOf(body, env, ctr, y);
  }

  lemma OneToOne(env: map<string, string>, ctr: nat)
    requires Fresh(env, ctr)
    ensures forall n, m :: n in env && m in env && env[n] == env[m] ==> n == m
  {
  }

  lemma {:induction false} RenameUsesRep(s: Ast, a: string, b: string, body: Ast, env: map<string, string>,
      ctr: nat, y: string)
    requires var e := Rep(s, a, b, body); Pure(e) && Frees(e) <= env.Keys
    requires Fresh(env, ctr)
    ensures
      var e := Rep(s, a, b, body);
      && (forall n :: n in env && env[n] == y ==> Uses(y, Rename(e, env, ctr).0) == Uses(n, e))
      && ((forall n :: n in env ==> env[n] != y) ==> Uses(y, Rename(e, env, ctr).0) == 0)
    decreases Rep(s, a, b, body), 0
  {
    hide Stamp, FreshName, Fresh;
    var a', b' := FreshName(a, ctr), FreshName(b, ctr + 1);
    FreshMore(env, ctr, a);
    FreshMore(env[a := a'], ctr + 1, b);
    FreshLater(env, ctr, ctr + 1);
    FreshMore(env, ctr + 1, b);
    OneToOne(env, ctr);
    OneToOne(env[a := a'][b := b'], ctr + 2);
    RenameUsesOf(s, env, ctr, y);
    RenameUsesOf(body, env[a := a'][b := b'], ctr + 2, y);
  }

  lemma {:induction false} RenameKeepsLinear(e: Ast, env: map<string, string>, ctr: nat)
    requires Pure(e) && Frees(e) <= env.Keys && Fresh(env, ctr) && Linear(e)
    ensures Linear(Rename(e, env, ctr).0)
    decreases e
  {
    hide Stamp, FreshName, Fresh;
    match e
    case Name(_) =>
    case Abs(x, b) =>
      var x' := FreshName(x, ctr);
      FreshMore(env, ctr, x);
      RenameKeepsLinear(b, env[x := x'], ctr + 1);
      RenameUsesOf(b, env[x := x'], ctr + 1, x');
      assert env[x := x'][x] == x';
    case App(f, a) =>
      var c := Rename(f, env, ctr).1;
      RenameUnique(f, env, ctr);
      FreshLater(env, ctr, c);
      RenameKeepsLinear(f, env, ctr);
      RenameKeepsLinear(a, env, c);
    case Rep(s, a, b, body) =>
      var a', b' := FreshName(a, ctr), FreshName(b, ctr + 1);
      var inner := env[a := a'][b := b'];
      FreshMore(env, ctr, a);
      FreshMore(env[a := a'], ctr + 1, b);
      RenameKeepsLinear(body, inner, ctr + 2);
      RenameUsesOf(body, inner, ctr + 2, a');
      RenameUsesOf(body, inner, ctr + 2, b');
      assert inner[a] == a' && inner[b] == b';
      OneToOne(inner, ctr + 2);
    case Era(s, body) => RenameKeepsLinear(body, env, ctr);
  }

  /** Corresponding names mean the same. */
  predicate SameMeaning(env: map<string, string>, lv: map<string, nat>, lv': map<string, nat>, names: set<string>) {
    forall n :: n in names ==> n in env && n in lv && env[n] in lv' && lv[n] == lv'[env[n]]
  }

  lemma {:induction false} RenameKeepsMeaning(e: Ast, env: map<string, string>, ctr: nat, lv: map<string, nat>,
      lv': map<string, nat>, d: nat)
    requires Pure(e) && Fresh(env, ctr) && SameMeaning(env, lv, lv', Frees(e))
    ensures Pure(Rename(e, env, ctr).0) && Collapse(Rename(e, env, ctr).0, lv', d) == Collapse(e, lv, d)
    decreases e
  {
    hide Stamp, FreshName, Fresh, SameMeaning;
    RenameUnique(e, env, ctr);
    match e
    case Name(n) => MeaningAt(env, lv, lv', Frees(e), n);
    case Abs(x, b) =>
      var x' := FreshName(x, ctr);
      FreshMore(env, ctr, x);
      MeaningUnder(env, lv, lv', Frees(e), x, x', d);
      MeaningPart(env[x := x'], lv[x := d], lv'[x' := d], Frees(e) + {x}, Frees(b));
      RenameKeepsMeaning(b, env[x := x'], ctr + 1, lv[x := d], lv'[x' := d], d + 1);
    case App(f, a) =>
      var c := Rename(f, env, ctr).1;
      RenameUnique(f, env, ctr);
      FreshLater(env, ctr, c);
      MeaningPart(env, lv, lv', Frees(e), Frees(f));
      MeaningPart(env, lv, lv', Frees(e), Frees(a));
      RenameKeepsMeaning(f, env, ctr, lv, lv', d);
      RenameKeepsMeaning(a, env, c, lv, lv', d);
    case Rep(s, a, b, body) =>
      MeaningAt(env, lv, lv', Frees(e), s.n);
      var a', b', v := FreshName(a, ctr), FreshName(b, ctr + 1), lv[s.n];
      FreshMore(env, ctr, a);
      FreshMore(env[a := a'], ctr + 1, b);
      MeaningUnder(env, lv, lv', Frees(e), a, a', v);
      MeaningUnder(env[a := a'], lv[a := v], lv'[a' := v], Frees(e) + {a}, b, b', v);
      MeaningPart(env[a := a'][b := b'], lv[a := v][b := v], lv'[a' := v][b' := v], Frees(e) + {a} + {b}, Frees(body));
      RenameKeepsMeaning(body, env[a := a'][b := b'], ctr + 2, lv[a := v][b := v], lv'[a' := v][b' := v], d);
    case Era(s, body) =>
      MeaningPart(env, lv, lv', Frees(e), Frees(body));
      RenameKeepsMeaning(body, env, ctr, lv, lv', d);
  }

  lemma MeaningAt(env: map<string, string>, lv: map<string, nat>, lv': map<string, nat>, names: set<string>, n: string)
    requires SameMeaning(env, lv, lv', names) && n in names
    ensures n in env && n in lv && env[n] in lv' && lv[n] == lv'[env[n]]
  {
  }

  lemma MeaningPart(env: map<string, string>, lv: map<string, nat>, lv': map<string, nat>, names: set<string>,
      part: set<string>)
    requires SameMeaning(env, lv, lv', names) && part <= names
    ensures SameMeaning(env, lv, lv', part)
  {
  }

  /** Binding a name and its fresh image to the same level. */
  lemma MeaningUnder(env: map<string, string>, lv: map<string, nat>, lv': map<string, nat>, names: set<string>,
      x: string, x': string, v: nat)
    requires SameMeaning(env, lv, lv', names) && forall n :: n in env ==> env[n] != x'
    ensures SameMeaning(env[x := x'], lv[x := v], lv'[x' := v], names + {x})
  {
  }

  // ---------------------------------------------------------------------------------------------
  // The front-end pipeline

  /** Linearize, then give every binder its own name. */
  function Prepared(t: Src, ctr: nat): Ast { Rename(Lin(t), map[], ctr).0 }

  /** A closed term whose names are none of the minted forms. */
  ghost predicate Program(t: Src) { Free(t) == {} && AllAllowed(Params(t)) }

  /**
   Linearization is correct: the prepared term has pairwise distinct binders, is linear, so that
   the linearity check accepts it, is closed, and stands for the source term up to α-equivalence.
   */
  lemma LinearizationCorrect(t: Src, ctr: nat)
    requires Program(t)
    ensures
      var e := Prepared(t, ctr);
      && Pure(e) && UniqueBinders(e) && Linear(e) && Frees(e) == {}
      && Collapse(e, map[], 0) == Levelled(t, map[], 0)
  {
    hide Allowed, Rename, Lin, Collapse, Levelled, UniqueBinders, Linear, Frees;
    assert AllAllowed(Free(t) + Params(t));
    var l := Lin(t);
    LinCollapse(t, map[], 0);
    LinLinear(t);
    LinClosed(t);
    RenameUnique(l, map[], ctr);
    RenameKeepsLinear(l, map[], ctr);
    RenameKeepsMeaning(l, map[], ctr, map[], map[], 0);
    RenamedClosed(l, ctr);
  }

  lemma LinClosed(t: Src)
    requires Program(t)
    ensures Pure(Lin(t)) && Frees(Lin(t)) == {}
  {
    if x :| x in Params(t) { LinShape(t, x); } else { NoLambda(t); }
  }

  lemma {:induction false} NoLambda(t: Src)
    ensures Params(t) != {} || Free(t) != {}
  {
    match t
    case SVar(x) => assert x in Free(t);
    case SLam(p, _) => assert p in Params(t);
    case SApp(f, a) =>
      NoLambda(f);
      assert Params(f) <= Params(t) && Free(f) <= Free(t);
  }

  lemma RenamedClosed(e: Ast, ctr: nat)
    requires Pure(e) && Frees(e) == {}
    ensures Frees(Rename(e, map[], ctr).0) == {}
  {
    var e' := Rename(e, map[], ctr).0;
    forall y
      ensures y !in Frees(e')
    {
      RenameUsesOf(e, map[], ctr, y);
      UsesFrees(y, e');
    }
  }

  /** Preparing, elaborating and reading back gives the source term. */
  lemma PipelineReadsBack(t: Src, ctr: nat, capacity: nat, ul: map<string, nat>, next: nat, fuel: nat)
    requires Program(t)
    requires
      var e := Prepared(t, ctr);
      Elaborate(NewNet(capacity), 0, map[], [], e, ul).Ok? && fuel > Count(e) + 1 + Size(e)
    ensures
      var o := Elaborate(NewNet(capacity), 0, map[], [], Prepared(t, ctr), ul).value;
      var r := PsiS(o.net, o.port, map[], next, fuel);
      r.Read? && IrTerm(r.ir, map[], 0) == Levelled(t, map[], 0) && r.occ == map[]
  {
    hide Allowed, Rename, Lin, Collapse, Levelled, Elaborate, PsiS, UniqueBinders, Linear, Frees, IrTerm;
    LinearizationCorrect(t, ctr);
    ReadbackInvertsElaboration(capacity, Prepared(t, ctr), ul, next, fuel);
  }
}
