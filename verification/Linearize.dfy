/**
 Linearization of λ-terms: a variable used more than once is split by a chain of replicators, an
 unused one is erased.
 */
module Linearize {
  import opened Asts
  import opened Decimal

  /** A source λ-term. */
  datatype Src = SVar(x: string) | SLam(p: string, body: Src) | SApp(fn: Src, arg: Src)

  function Free(t: Src): set<string> {
    match t
    case SVar(x) => {x}
    case SLam(p, b) => Free(b) - {p}
    case SApp(f, a) => Free(f) + Free(a)
  }

  function Params(t: Src): set<string> {
    match t
    case SVar(_) => {}
    case SLam(p, b) => {p} + Params(b)
    case SApp(f, a) => Params(f) + Params(a)
  }

  /** The term with de Bruijn levels for its bound variables. */
  function Levelled(t: Src, env: map<string, nat>, depth: nat): DTm {
    match t
    case SVar(x) => if x in env then DVar(env[x]) else DFree(x)
    case SLam(p, b) => DLam(Levelled(b, env[p := depth], depth + 1))
    case SApp(f, a) => DApp(Levelled(f, env, depth), Levelled(a, env, depth))
  }

  // ---------------------------------------------------------------------------------------------
  // Splitting

  /** The name of copy `i` of `x`. */
  function SplitName(x: string, i: nat): string { x + "__" + Digits(i) }

  /** The name that carries the copies from `i` on. */
  function RestName(x: string, i: nat): string { "__rr_" + SplitName(x, i) }

  /** Free occurrences of `x`; a fixpoint node is not entered. */
  function CountUses(e: Ast, x: string): nat {
    match e
    case Name(n) => if n == x then 1 else 0
    case Abs(y, b) => if y == x then 0 else CountUses(b, x)
    case App(f, a) => CountUses(f, x) + CountUses(a, x)
    case Rep(s, a, b, body) => CountUses(s, x) + (if a == x || b == x then 0 else CountUses(body, x))
    case Era(s, body) => CountUses(s, x) + CountUses(body, x)
    case _ => 0
  }

  /** Rename the free occurrences of `x`, left to right, to copies `idx`, `idx + 1`, … and answer the next number. */
  function IndexedRename(e: Ast, x: string, idx: nat): (Ast, nat)
    decreases e
  {
    match e
    case Name(n) => if n == x then (Name(SplitName(x, idx)), idx + 1) else (e, idx)
    case Abs(y, b) =>
      if y == x then (e, idx) else
      var (b', i) := IndexedRename(b, x, idx);
      (Abs(y, b'), i)
    case App(f, a) =>
      var (f', i) := IndexedRename(f, x, idx);
      var (a', j) := IndexedRename(a, x, i);
      (App(f', a'), j)
    case Rep(s, a, b, body) =>
      var (s', i) := IndexedRename(s, x, idx);
      if a == x || b == x then (Rep(s', a, b, body), i) else
      var (body', j) := IndexedRename(body, x, i);
      (Rep(s', a, b, body'), j)
    case Era(s, body) =>
      var (s', i) := IndexedRename(s, x, idx);
      var (body', j) := IndexedRename(body, x, i);
      (Era(s', body'), j)
    case Fix(inner) =>
      var (inner', i) := IndexedRename(inner, x, idx);
      (Fix(inner'), i)
    case _ => (e, idx)
  }

  /** A chain of replicators that turns `e` into copies `k`, …, `n - 1` of `x` around `body`. */
  function NestReps(e: Ast, x: string, k: nat, n: nat, body: Ast): Ast
    requires k + 2 <= n
    decreases n - k
  {
    if k + 2 == n then Rep(e, SplitName(x, k), SplitName(x, k + 1), body)
    else Rep(e, SplitName(x, k), RestName(x, k + 1), NestReps(Name(RestName(x, k + 1)), x, k + 1, n, body))
  }

  function WrapUses(x: string, uses: nat, body: Ast): Ast {
    if uses == 0 then Era(Name(x), body)
    else if uses == 1 then body
    else NestReps(Name(x), x, 0, uses, IndexedRename(body, x, 0).0)
  }

  function Lin(t: Src): Ast {
    match t
    case SVar(x) => Name(x)
    case SLam(p, b) => Abs(p, WrapUses(p, CountUses(Lin(b), p), Lin(b)))
    case SApp(f, a) => App(Lin(f), Lin(a))
  }

  /** The same with builtins: a name that is not bound is the builtin of that name. */
  function LinIn(t: Src, bound: set<string>, builtin: string -> int): Ast {
    match t
    case SVar(x) => if x in bound then Name(x) else Fun(builtin(x))
    case SLam(p, b) =>
      var e := LinIn(b, bound + {p}, builtin);
      Abs(p, WrapUses(p, CountUses(e, p), e))
    case SApp(f, a) => App(LinIn(f, bound, builtin), LinIn(a, bound, builtin))
  }

  /** Without free names there are no builtins. */
  lemma {:induction false} LinInClosed(t: Src, bound: set<string>, builtin: string -> int)
    requires Free(t) <= bound
    ensures LinIn(t, bound, builtin) == Lin(t)
    decreases t
  {
    match t
    case SVar(_) =>
    case SLam(p, b) => LinInClosed(b, bound + {p}, builtin);
    case SApp(f, a) => LinInClosed(f, bound, builtin); LinInClosed(a, bound, builtin);
  }

  /** Lowering with the set of bound names, which every call leaves as it found it. */
  method Lower(t: Src, bound: set<string>, builtin: string -> int) returns (e: Ast, after: set<string>)
    ensures e == LinIn(t, bound, builtin) && after == bound
    ensures Free(t) <= bound ==> e == Lin(t)
    decreases t
  {
    if Free(t) <= bound { LinInClosed(t, bound, builtin); }
    match t
    case SVar(x) =>
      e, after := if x in bound then Name(x) else Fun(builtin(x)), bound;
    case SLam(p, b) =>
      var fresh' := p !in bound;
      e, after := Lower(b, bound + {p}, builtin);
      if fresh' { after := after - {p}; }
      e := Abs(p, WrapUses(p, CountUses(e, p), e));
    case SApp(f, a) =>
      var g;
      g, after := Lower(f, bound, builtin);
      e, after := Lower(a, after, builtin);
      e := App(g, e);
  }

  // ---------------------------------------------------------------------------------------------
  // Names

  /** The part of `s` after the last `sep`, or all of it. */
  function After(s: string, sep: char): string {
    if s == [] || s[|s| - 1] == sep then [] else After(s[..|s| - 1], sep) + [s[|s| - 1]]
  }

  lemma {:induction false} AfterIs(p: string, sep: char, d: string)
    requires sep !in d
    ensures After(p + [sep] + d, sep) == d
    decreases |d|
  {
    var s := p + [sep] + d;
    if d == [] {
      assert s[|s| - 1] == sep;
    } else {
      var d' := d[..|d| - 1];
      assert s[..|s| - 1] == p + [sep] + d' && s[|s| - 1] == d[|d| - 1];
      assert d[|d| - 1] in d && forall c :: c in d' ==> c in d;
      AfterIs(p, sep, d');
      assert d == d' + [d[|d| - 1]];
    }
  }

  lemma DigitsPlain(n: nat)
    ensures '_' !in Digits(n) && '~' !in Digits(n)
  {
    DigitsBack(n);
  }

  lemma DigitsInjective(i: nat, j: nat)
    requires Digits(i) == Digits(j)
    ensures i == j
  {
    DigitsBack(i);
    DigitsBack(j);
  }

  lemma SplitInjective(x: string, i: nat, y: string, j: nat)
    requires SplitName(x, i) == SplitName(y, j)
    ensures x == y && i == j
  {
    DigitsPlain(i);
    DigitsPlain(j);
    assert SplitName(x, i) == (x + "_") + ['_'] + Digits(i);
    assert SplitName(y, j) == (y + "_") + ['_'] + Digits(j);
    AfterIs(x + "_", '_', Digits(i));
    AfterIs(y + "_", '_', Digits(j));
    DigitsInjective(i, j);
    assert SplitName(x, i)[..|x|] == x && SplitName(y, j)[..|y|] == y;
  }

  predicate StartsRest(x: string) { |x| >= 5 && x[..5] == "__rr_" }

  /** Names a program may use: none of the forms the passes mint. */
  ghost predicate Allowed(x: string) {
    && (forall y, i :: x != SplitName(y, i))
    && !StartsRest(x)
    && '~' !in x
  }

  lemma RestIsSplit(x: string, i: nat)
    ensures RestName(x, i) == SplitName("__rr_" + x, i) && StartsRest("__rr_" + x) && StartsRest(RestName(x, i))
  {
    assert RestName(x, i) == "__rr_" + x + "__" + Digits(i);
    assert ("__rr_" + x)[..5] == "__rr_" && RestName(x, i)[..5] == "__rr_";
  }

  /** `y` is one of the names minted for `x`. */
  ghost predicate Minted(x: string, y: string) {
    exists i :: y == SplitName(x, i) || y == RestName(x, i)
  }

  /** Minted names are apart from program names and from the names minted for another variable. */
  lemma MintedApart(x: string, y: string, z: string)
    requires Allowed(x) && Minted(x, z)
    ensures Allowed(y) ==> z != y
    ensures Allowed(y) && x != y ==> !Minted(y, z)
  {
    var i :| z == SplitName(x, i) || z == RestName(x, i);
    RestIsSplit(x, i);
    if Allowed(y) && Minted(y, z) {
      var j :| z == SplitName(y, j) || z == RestName(y, j);
      RestIsSplit(y, j);
      var a := if z == SplitName(x, i) then x else "__rr_" + x;
      var b := if z == SplitName(y, j) then y else "__rr_" + y;
      SplitInjective(a, i, b, j);
      if a == "__rr_" + x && b == "__rr_" + y { assert a[5..] == x && b[5..] == y; }
    }
  }

  lemma SplitNotRest(x: string, i: nat, j: nat)
    requires Allowed(x)
    ensures SplitName(x, i) != RestName(x, j)
    ensures SplitName(x, i) == SplitName(x, j) ==> i == j
    ensures RestName(x, i) == RestName(x, j) ==> i == j
    ensures Minted(x, SplitName(x, i)) && Minted(x, RestName(x, i))
  {
    RestIsSplit(x, j);
    RestIsSplit(x, i);
    if SplitName(x, i) == RestName(x, j) { SplitInjective(x, i, "__rr_" + x, j); }
    if SplitName(x, i) == SplitName(x, j) { SplitInjective(x, i, x, j); }
    if RestName(x, i) == RestName(x, j) { SplitInjective("__rr_" + x, i, "__rr_" + x, j); }
  }
}
