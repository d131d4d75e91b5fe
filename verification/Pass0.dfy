/**
 Definition resolution, the first pass of elaboration: a depth-first check that definitions do not
 refer to each other in a cycle, then inlining of every reference.
 */
module Pass0 {
  import opened Common
  import opened Asts

  type Defs = map<string, Ast>

  /** Occurrences of definition names, bound or not, in order. */
  function Refs(defs: Defs, e: Ast): seq<string> {
    match e
    case Name(n) => if n in defs then [n] else []
    case Abs(_, b) => Refs(defs, b)
    case App(f, x) => Refs(defs, f) + Refs(defs, x)
    case Rep(s, _, _, body) => Refs(defs, s) + Refs(defs, body)
    case Era(s, body) => Refs(defs, s) + Refs(defs, body)
    case Fix(i) => Refs(defs, i)
    case Val(_) => []
    case Fun(_) => []
  }

  lemma {:induction false} RefsAreDefs(defs: Defs, e: Ast)
    ensures forall r :: r in Refs(defs, e) ==> r in defs
  {
    match e
    case Name(n) =>
    case Abs(_, b) => RefsAreDefs(defs, b);
    case App(f, x) => RefsAreDefs(defs, f); RefsAreDefs(defs, x);
    case Rep(s, _, _, body) => RefsAreDefs(defs, s); RefsAreDefs(defs, body);
    case Era(s, body) => RefsAreDefs(defs, s); RefsAreDefs(defs, body);
    case Fix(i) => RefsAreDefs(defs, i);
    case Val(_) =>
    case Fun(_) =>
  }

  /** The reference list as it is built, appending to `out`. */
  method CollectDefRefs(defs: Defs, e: Ast, out: seq<string>) returns (r: seq<string>)
    ensures r == out + Refs(defs, e)
    decreases e
  {
    match e
    case Name(n) => r := if n in defs then out + [n] else out;
    case Abs(_, b) => r := CollectDefRefs(defs, b, out);
    case App(f, x) =>
      r := CollectDefRefs(defs, f, out);
      r := CollectDefRefs(defs, x, r);
    case Rep(s, _, _, body) =>
      r := CollectDefRefs(defs, s, out);
      r := CollectDefRefs(defs, body, r);
    case Era(s, body) =>
      r := CollectDefRefs(defs, s, out);
      r := CollectDefRefs(defs, body, r);
    case Fix(i) => r := CollectDefRefs(defs, i, out);
    case Val(_) => r := out;
    case Fun(_) => r := out;
  }

  function Elems(s: seq<string>): set<string> { set x | x in s }

  /**
   Visit definition `name`: `path` holds the definitions being visited, outermost first, `done` the
   finished ones in finishing order. The answer is the finished ones, or `None` on a cycle.
   */
  function Dfs(defs: Defs, name: string, path: seq<string>, done: seq<string>): (r: Option<seq<string>>)
    requires name in defs
    ensures r.Some? ==> done <= r.value
    decreases defs.Keys - Elems(path), 0
  {
    if name in path then None
    else if name in done then Some(done)
    else
      assert name in defs.Keys - Elems(path) && name in path + [name];
      assert defs.Keys - Elems(path + [name]) < defs.Keys - Elems(path);
      RefsAreDefs(defs, defs[name]);
      match DfsAll(defs, Refs(defs, defs[name]), path + [name], done)
      case None => None
      case Some(d) => Some(d + [name])
  }

  function DfsAll(defs: Defs, names: seq<string>, path: seq<string>, done: seq<string>): (r: Option<seq<string>>)
    requires forall n :: n in names ==> n in defs
    ensures r.Some? ==> done <= r.value
    decreases defs.Keys - Elems(path), |names|
  {
    if names == [] then Some(done) else
    match Dfs(defs, names[0], path, done)
    case None => None
    case Some(d) => DfsAll(defs, names[1..], path, d)
  }

  /** Check every definition, in the order the keys happen to come. */
  function TopoCheck(defs: Defs, keys: seq<string>): Option<seq<string>>
    requires forall n :: n in keys ==> n in defs
  {
    DfsAll(defs, keys, [], [])
  }

  // ---------------------------------------------------------------------------------------------
  // The check accepts exactly the acyclic definitions

  /** A walk along references that ends where it starts. */
  predicate Cycle(defs: Defs, c: seq<string>) {
    |c| >= 2 && c[0] == c[|c| - 1] && Walk(defs, c)
  }

  predicate Walk(defs: Defs, c: seq<string>) {
    forall i :: 0 <= i < |c| - 1 ==> c[i] in defs && c[i + 1] in Refs(defs, defs[c[i]])
  }

  /** Finished definitions refer only to earlier finished ones. */
  predicate Layered(defs: Defs, done: seq<string>) {
    forall i {:trigger done[i]} :: 0 <= i < |done| ==>
      done[i] in defs && forall r :: r in Refs(defs, defs[done[i]]) ==> r in done[..i]
  }

  lemma LayeredMore(defs: Defs, done: seq<string>, name: string)
    requires Layered(defs, done) && name in defs && forall r :: r in Refs(defs, defs[name]) ==> r in done
    ensures Layered(defs, done + [name])
  {
    var more := done + [name];
    forall i | 0 <= i < |more|
      ensures more[i] in defs && forall r :: r in Refs(defs, defs[more[i]]) ==> r in more[..i]
    {
      if i < |done| { assert more[..i] == done[..i] && more[i] == done[i]; } else { assert more[..i] == done; }
    }
  }

  lemma {:induction false} DfsLayered(defs: Defs, name: string, path: seq<string>, done: seq<string>)
    requires name in defs && Layered(defs, done) && Dfs(defs, name, path, done).Some?
    ensures Layered(defs, Dfs(defs, name, path, done).value) && name in Dfs(defs, name, path, done).value
    decreases defs.Keys - Elems(path), 0
  {
    if name !in done {
      assert name in defs.Keys - Elems(path) && name in path + [name];
      assert defs.Keys - Elems(path + [name]) < defs.Keys - Elems(path);
      RefsAreDefs(defs, defs[name]);
      var refs := Refs(defs, defs[name]);
      DfsAllLayered(defs, refs, path + [name], done);
      LayeredMore(defs, DfsAll(defs, refs, path + [name], done).value, name);
    }
  }

  lemma {:induction false} DfsAllLayered(defs: Defs, names: seq<string>, path: seq<string>, done: seq<string>)
    requires (forall n :: n in names ==> n in defs) && Layered(defs, done) && DfsAll(defs, names, path, done).Some?
    ensures Layered(defs, DfsAll(defs, names, path, done).value)
    ensures forall n :: n in names ==> n in DfsAll(defs, names, path, done).value
    decreases defs.Keys - Elems(path), |names|
  {
    if names != [] {
      DfsLayered(defs, names[0], path, done);
      var d := Dfs(defs, names[0], path, done).value;
      DfsAllLayered(defs, names[1..], path, d);
      var r := DfsAll(defs, names, path, done).value;
      assert forall n :: n in d ==> n in r by {
        forall n | n in d
          ensures n in r
        {
          var i :| 0 <= i < |d| && d[i] == n;
          assert r[i] == n;
        }
      }
      assert names == [names[0]] + names[1..];
    }
  }

  /** A refused visit exhibits a cycle through the path. */
  lemma {:induction false} DfsCycle(defs: Defs, name: string, path: seq<string>,
      done: seq<string>) returns (c: seq<string>)
    requires name in defs && Dfs(defs, name, path, done).None? && Walk(defs, path + [name])
    ensures Cycle(defs, c)
    decreases defs.Keys - Elems(path), 0
  {
    if name in path {
      var k :| 0 <= k < |path| && path[k] == name;
      c := (path + [name])[k..];
      forall i | 0 <= i < |c| - 1
        ensures c[i] in defs && c[i + 1] in Refs(defs, defs[c[i]])
      {
        assert c[i] == (path + [name])[k + i] && c[i + 1] == (path + [name])[k + i + 1];
      }
    } else {
      assert name in defs.Keys - Elems(path) && name in path + [name];
      assert defs.Keys - Elems(path + [name]) < defs.Keys - Elems(path);
      RefsAreDefs(defs, defs[name]);
      c := DfsAllCycle(defs, Refs(defs, defs[name]), path + [name], done);
    }
  }

  lemma {:induction false} DfsAllCycle(defs: Defs, names: seq<string>, path: seq<string>,
      done: seq<string>) returns (c: seq<string>)
    requires (forall n :: n in names ==> n in defs) && DfsAll(defs, names, path, done).None?
    requires forall n :: n in names ==> Walk(defs, path + [n])
    ensures Cycle(defs, c)
    decreases defs.Keys - Elems(path), |names|
  {
    match Dfs(defs, names[0], path, done)
    case None => c := DfsCycle(defs, names[0], path, done);
    case Some(d) => c := DfsAllCycle(defs, names[1..], path, d);
  }

  /** Position of the first occurrence. */
  function Rank(done: seq<string>, n: string): (r: nat)
    ensures n in done ==> r < |done| && done[r] == n && n !in done[..r]
  {
    if done == [] || done[0] == n then 0 else
    var r := Rank(done[1..], n) + 1;
    assert n in done ==> n in done[1..];
    assert n in done ==> done[..r] == [done[0]] + done[1..][..r - 1];
    r
  }

  lemma {:induction false} RankBefore(done: seq<string>, n: string, i: nat)
    requires i <= |done| && n in done[..i]
    ensures Rank(done, n) < i
    decreases i
  {
    if done[0] != n {
      assert done[..i] == [done[0]] + done[1..][..i - 1];
      RankBefore(done[1..], n, i - 1);
    }
  }

  /** References go to definitions that finished earlier. */
  lemma RefsLower(defs: Defs, done: seq<string>, n: string, r: string)
    requires Layered(defs, done) && n in done && n in defs && r in Refs(defs, defs[n])
    ensures r in done && Rank(done, r) < Rank(done, n)
  {
    var i := Rank(done, n);
    assert done[i] == n;
    assert r in done[..i];
    RankBefore(done, r, i);
    var k :| 0 <= k < i && done[..i][k] == r;
    assert done[k] == r;
  }

  lemma {:induction false} WalkDescends(defs: Defs, done: seq<string>, c: seq<string>)
    requires Layered(defs, done) && Walk(defs, c) && |c| >= 2 && c[0] in done
    ensures c[|c| - 1] in done && Rank(done, c[|c| - 1]) < Rank(done, c[0])
    decreases |c|
  {
    RefsLower(defs, done, c[0], c[1]);
    if |c| > 2 {
      var t := c[1..];
      assert forall i {:trigger t[i]} :: 0 <= i < |t| ==> t[i] == c[i + 1];
      WalkDescends(defs, done, t);
    }
  }

  /** The check accepts exactly if no walk along references returns to its start. */
  lemma TopoExact(defs: Defs, keys: seq<string>)
    requires Elems(keys) == defs.Keys
    ensures (forall n :: n in keys ==> n in defs)
    ensures TopoCheck(defs, keys).Some? <==> !exists c :: Cycle(defs, c)
  {
    assert forall n :: n in keys <==> n in Elems(keys);
    if TopoCheck(defs, keys).Some? {
      DfsAllLayered(defs, keys, [], []);
      var done := TopoCheck(defs, keys).value;
      if c :| Cycle(defs, c) {
        assert c[0] in defs;
        WalkDescends(defs, done, c);
      }
    } else {
      var c := DfsAllCycle(defs, keys, [], []);
    }
  }

  // ---------------------------------------------------------------------------------------------
  // Resolution

  function Max(a: nat, b: nat): nat { if a < b then b else a }

  /** One more than the highest rank among the references. */
  function Top(done: seq<string>, refs: seq<string>): nat {
    if refs == [] then 0 else Max(Rank(done, refs[0]) + 1, Top(done, refs[1..]))
  }

  lemma {:induction false} TopConcat(done: seq<string>, a: seq<string>, b: seq<string>)
    ensures Top(done, a + b) == Max(Top(done, a), Top(done, b))
  {
    if a == [] {
      assert a + b == b;
    } else {
      TopConcat(done, a[1..], b);
      assert (a + b)[1..] == a[1..] + b;
    }
  }

  lemma {:induction false} TopBound(done: seq<string>, refs: seq<string>, bound: nat)
    requires forall r :: r in refs ==> Rank(done, r) < bound
    ensures Top(done, refs) <= bound
  {
    if refs != [] { TopBound(done, refs[1..], bound); }
  }

  /** A definition's body ranks below the definition. */
  lemma BodyLower(defs: Defs, done: seq<string>, n: string)
    requires Checked(defs, done) && n in defs
    ensures Top(done, Refs(defs, defs[n])) < Top(done, [n])
  {
    forall r | r in Refs(defs, defs[n])
      ensures Rank(done, r) < Rank(done, n)
    {
      RefsLower(defs, done, n, r);
    }
    TopBound(done, Refs(defs, defs[n]), Rank(done, n));
    assert [n][1..] == [];
  }

  /** The definitions passed the check and `done` is its finishing order. */
  ghost predicate Checked(defs: Defs, done: seq<string>) {
    Layered(defs, done) && forall n :: n in defs ==> n in done
  }

  /**
   Inline references outside the names in `bound`. Leaving a binder removes its name from the set,
   even if an outer binder of the same name is still open.
   */
  function Resolve(defs: Defs, ghost done: seq<string>, e: Ast, bound: set<string>): (Ast, set<string>)
    requires Checked(defs, done)
    decreases Top(done, Refs(defs, e)), e
  {
    match e
    case Name(n) =>
      if n in bound then (e, bound)
      else if n in defs then
        BodyLower(defs, done, n);
        Resolve(defs, done, defs[n], bound)
      else (e, bound)
    case Abs(x, b) =>
      var (b', s) := Resolve(defs, done, b, bound + {x});
      (Abs(x, b'), s - {x})
    case App(f, x) =>
      TopConcat(done, Refs(defs, f), Refs(defs, x));
      var (f', s) := Resolve(defs, done, f, bound);
      var (x', t) := Resolve(defs, done, x, s);
      (App(f', x'), t)
    case Rep(e0, a, b, body) =>
      TopConcat(done, Refs(defs, e0), Refs(defs, body));
      var (e', s) := Resolve(defs, done, e0, bound);
      var (body', t) := Resolve(defs, done, body, s + {a, b});
      (Rep(e', a, b, body'), t - {a} - {b})
    case Era(e0, body) =>
      TopConcat(done, Refs(defs, e0), Refs(defs, body));
      var (e', s) := Resolve(defs, done, e0, bound);
      var (body', t) := Resolve(defs, done, body, s);
      (Era(e', body'), t)
    case Fix(i) =>
      var (i', s) := Resolve(defs, done, i, bound);
      (Fix(i'), s)
    case Val(_) => (e, bound)
    case Fun(_) => (e, bound)
  }

  /** Every definition name replaced by its unfolded body. */
  function Unfold(defs: Defs, ghost done: seq<string>, e: Ast): Ast
    requires Checked(defs, done)
    decreases Top(done, Refs(defs, e)), e
  {
    match e
    case Name(n) =>
      if n in defs then
        BodyLower(defs, done, n);
        Unfold(defs, done, defs[n])
      else e
    case Abs(x, b) => Abs(x, Unfold(defs, done, b))
    case App(f, x) =>
      TopConcat(done, Refs(defs, f), Refs(defs, x));
      App(Unfold(defs, done, f), Unfold(defs, done, x))
    case Rep(s, a, b, body) =>
      TopConcat(done, Refs(defs, s), Refs(defs, body));
      Rep(Unfold(defs, done, s), a, b, Unfold(defs, done, body))
    case Era(s, body) =>
      TopConcat(done, Refs(defs, s), Refs(defs, body));
      Era(Unfold(defs, done, s), Unfold(defs, done, body))
    case Fix(i) => Fix(Unfold(defs, done, i))
    case Val(_) => e
    case Fun(_) => e
  }

  /** No binder of the definitions shares a definition's name. */
  ghost predicate Apart(defs: Defs) {
    forall n :: n in defs ==> Binders(defs[n]) !! defs.Keys
  }

  /** With names apart, resolution is the full unfolding and leaves no definition name. */
  lemma {:induction false} ResolveUnfolds(defs: Defs, done: seq<string>, e: Ast, bound: set<string>)
    requires Checked(defs, done) && Apart(defs) && Binders(e) !! defs.Keys && bound !! defs.Keys
    ensures Resolve(defs, done, e, bound).0 == Unfold(defs, done, e)
    ensures Resolve(defs, done, e, bound).1 !! defs.Keys
    ensures Refs(defs, Unfold(defs, done, e)) == []
    decreases Top(done, Refs(defs, e)), e
  {
    hide Checked;
    match e
    case Name(n) =>
      if n in defs {
        BodyLower(defs, done, n);
        ResolveUnfolds(defs, done, defs[n], bound);
      }
    case Abs(x, b) => ResolveUnfolds(defs, done, b, bound + {x});
    case App(f, x) =>
      TopConcat(done, Refs(defs, f), Refs(defs, x));
      ResolveUnfolds(defs, done, f, bound);
      ResolveUnfolds(defs, done, x, Resolve(defs, done, f, bound).1);
    case Rep(s, a, b, body) =>
      TopConcat(done, Refs(defs, s), Refs(defs, body));
      ResolveUnfolds(defs, done, s, bound);
      ResolveUnfolds(defs, done, body, Resolve(defs, done, s, bound).1 + {a, b});
    case Era(s, body) =>
      TopConcat(done, Refs(defs, s), Refs(defs, body));
      ResolveUnfolds(defs, done, s, bound);
      ResolveUnfolds(defs, done, body, Resolve(defs, done, s, bound).1);
    case Fix(i) => ResolveUnfolds(defs, done, i, bound);
    case Val(_) =>
    case Fun(_) =>
  }

  /** A binder that shares a definition's name loses its scope to an inner binder of that name. */
  lemma ShadowedNameEscapes(x: string, v: int)
    ensures
      var defs := map[x := Val(v)];
      && Checked(defs, [x])
      && Resolve(defs, [x], Abs(x, App(Abs(x, Name(x)), Name(x))), {}).0 == Abs(x, App(Abs(x, Name(x)), Val(v)))
  {
    var defs := map[x := Val(v)];
    var inner := Abs(x, Name(x));
    assert Layered(defs, [x]);
    var open := {} + {x};
    assert Resolve(defs, [x], Name(x), open + {x}) == (Name(x), open + {x});
    assert open + {x} - {x} == {};
    assert Resolve(defs, [x], inner, open) == (inner, {});
    assert Resolve(defs, [x], Name(x), {}) == (Val(v), {});
    TopConcat([x], Refs(defs, inner), Refs(defs, Name(x)));
    assert Resolve(defs, [x], App(inner, Name(x)), open) == (App(inner, Val(v)), {});
  }

  /** A reference inside an inlined body is taken for the caller's binder of that name. */
  lemma CalleeReferenceCaptured(f: string, g: string, v: int)
    requires f != g
    ensures
      var defs := map[f := Name(g), g := Val(v)];
      Checked(defs, [g, f]) && Resolve(defs, [g, f], Abs(g, Name(f)), {}).0 == Abs(g, Name(g))
  {
    var defs := map[f := Name(g), g := Val(v)];
    var done := [g, f];
    assert done[..1] == [g] && done[..0] == [];
    assert Layered(defs, done);
    assert Resolve(defs, done, Name(g), {} + {g}) == (Name(g), {} + {g});
    assert Resolve(defs, done, Name(f), {} + {g}) == (Name(g), {} + {g});
  }

  /** A free name of an inlined body is captured by the caller's binder, even with names apart. */
  lemma FreeNameCaptured(f: string, y: string)
    requires f != y
    ensures
      var defs := map[f := Name(y)];
      && Checked(defs, [f]) && Apart(defs) && Binders(Abs(y, Name(f))) !! defs.Keys
      && Resolve(defs, [f], Abs(y, Name(f)), {}).0 == Abs(y, Name(y))
  {
    var defs := map[f := Name(y)];
    assert [f][..0] == [];
    assert Layered(defs, [f]);
    assert Resolve(defs, [f], Name(y), {} + {y}) == (Name(y), {} + {y});
    assert Resolve(defs, [f], Name(f), {} + {y}) == (Name(y), {} + {y});
  }

  // ---------------------------------------------------------------------------------------------
  // Resolution against lexical scope

  /** Resolution by lexical scope: a binder restores the outer names, a definition's body has its own scope. */
  function Lexical(defs: Defs, ghost done: seq<string>, e: Ast, scope: set<string>): Ast
    requires Checked(defs, done)
    decreases Top(done, Refs(defs, e)), e
  {
    match e
    case Name(n) =>
      if n in scope || n !in defs then e
      else
        BodyLower(defs, done, n);
        Lexical(defs, done, defs[n], {})
    case Abs(x, b) => Abs(x, Lexical(defs, done, b, scope + {x}))
    case App(f, x) =>
      TopConcat(done, Refs(defs, f), Refs(defs, x));
      App(Lexical(defs, done, f, scope), Lexical(defs, done, x, scope))
    case Rep(s, a, b, body) =>
      TopConcat(done, Refs(defs, s), Refs(defs, body));
      Rep(Lexical(defs, done, s, scope), a, b, Lexical(defs, done, body, scope + {a, b}))
    case Era(s, body) =>
      TopConcat(done, Refs(defs, s), Refs(defs, body));
      Era(Lexical(defs, done, s, scope), Lexical(defs, done, body, scope))
    case Fix(i) => Fix(Lexical(defs, done, i, scope))
    case Val(_) => e
    case Fun(_) => e
  }

  /** No definition name met on the way is in the threaded set while lexically free, or out of it while bound. */
  ghost predicate InStep(defs: Defs, done: seq<string>, e: Ast, scope: set<string>, bound: set<string>)
    requires Checked(defs, done)
    decreases Top(done, Refs(defs, e)), e
  {
    match e
    case Name(n) =>
      if n !in defs then true
      else if n in scope || n in bound then n in scope && n in bound
      else
        BodyLower(defs, done, n);
        InStep(defs, done, defs[n], {}, bound)
    case Abs(x, b) => InStep(defs, done, b, scope + {x}, bound + {x})
    case App(f, x) =>
      TopConcat(done, Refs(defs, f), Refs(defs, x));
      InStep(defs, done, f, scope, bound) && InStep(defs, done, x, scope, Resolve(defs, done, f, bound).1)
    case Rep(s, a, b, body) =>
      TopConcat(done, Refs(defs, s), Refs(defs, body));
      && InStep(defs, done, s, scope, bound)
      && InStep(defs, done, body, scope + {a, b}, Resolve(defs, done, s, bound).1 + {a, b})
    case Era(s, body) =>
      TopConcat(done, Refs(defs, s), Refs(defs, body));
      InStep(defs, done, s, scope, bound) && InStep(defs, done, body, scope, Resolve(defs, done, s, bound).1)
    case Fix(i) => InStep(defs, done, i, scope, bound)
    case Val(_) => true
    case Fun(_) => true
  }

  /** A name the code leaves is in the set or no definition. */
  lemma {:induction false} ResolvedName(defs: Defs, done: seq<string>, e: Ast, bound: set<string>)
    requires Checked(defs, done) && Resolve(defs, done, e, bound).0.Name?
    ensures var z := Resolve(defs, done, e, bound).0.n; z in bound || z !in defs
    decreases Top(done, Refs(defs, e))
  {
    hide Checked;
    if e.Name? && e.n !in bound && e.n in defs {
      BodyLower(defs, done, e.n);
      ResolvedName(defs, done, defs[e.n], bound);
    }
  }

  lemma {:induction false} LexicalName(defs: Defs, done: seq<string>, e: Ast)
    requires Checked(defs, done) && Lexical(defs, done, e, {}).Name?
    ensures Lexical(defs, done, e, {}).n !in defs
    decreases Top(done, Refs(defs, e))
  {
    hide Checked;
    if e.Name? && e.n in defs {
      BodyLower(defs, done, e.n);
      LexicalName(defs, done, defs[e.n]);
    }
  }

  /** The code resolves by lexical scope exactly if its threaded set stays in step with the scope. */
  lemma {:induction false} ResolveLexicalIff(defs: Defs, done: seq<string>, e: Ast, scope: set<string>,
      bound: set<string>)
    requires Checked(defs, done)
    ensures Resolve(defs, done, e, bound).0 == Lexical(defs, done, e, scope) <==> InStep(defs, done, e, scope, bound)
    decreases Top(done, Refs(defs, e)), e
  {
    hide Checked;
    match e
    case Name(n) =>
      if n in defs {
        BodyLower(defs, done, n);
        if n in bound {
          if n !in scope && Lexical(defs, done, defs[n], {}).Name? { LexicalName(defs, done, defs[n]); }
        } else if n in scope {
          if Resolve(defs, done, defs[n], bound).0.Name? { ResolvedName(defs, done, defs[n], bound); }
        } else {
          ResolveLexicalIff(defs, done, defs[n], {}, bound);
        }
      }
    case Abs(x, b) => ResolveLexicalIff(defs, done, b, scope + {x}, bound + {x});
    case App(f, x) =>
      TopConcat(done, Refs(defs, f), Refs(defs, x));
      ResolveLexicalIff(defs, done, f, scope, bound);
      ResolveLexicalIff(defs, done, x, scope, Resolve(defs, done, f, bound).1);
    case Rep(s, a, b, body) =>
      TopConcat(done, Refs(defs, s), Refs(defs, body));
      ResolveLexicalIff(defs, done, s, scope, bound);
      ResolveLexicalIff(defs, done, body, scope + {a, b}, Resolve(defs, done, s, bound).1 + {a, b});
    case Era(s, body) =>
      TopConcat(done, Refs(defs, s), Refs(defs, body));
      ResolveLexicalIff(defs, done, s, scope, bound);
      ResolveLexicalIff(defs, done, body, scope, Resolve(defs, done, s, bound).1);
    case Fix(i) => ResolveLexicalIff(defs, done, i, scope, bound);
    case Val(_) =>
    case Fun(_) =>
  }

  // ---------------------------------------------------------------------------------------------
  // Resolution against meaning

  /** Terms up to the names of binders: a bound name is the distance to its binder. */
  datatype BTm =
    | BVar(index: nat)
    | BFree(name: string)
    | BAbs(body: BTm)
    | BApp(fn: BTm, arg: BTm)
    | BRep(e: BTm, body: BTm)
    | BEra(e: BTm, body: BTm)
    | BFix(inner: BTm)
    | BVal(v: int)
    | BFun(prim: int)

  /** How far back the innermost binder of the name is. */
  function Back(open: seq<string>, n: string): (k: nat)
    requires n in open
    ensures k < |open| && open[|open| - 1 - k] == n
  {
    if open[|open| - 1] == n then 0 else Back(open[..|open| - 1], n) + 1
  }

  lemma {:induction false} BackSuffix(outer: seq<string>, inner: seq<string>, n: string)
    requires n in inner
    ensures n in outer + inner && Back(outer + inner, n) == Back(inner, n)
    decreases |inner|
  {
    var all := outer + inner;
    assert all[|all| - 1] == inner[|inner| - 1];
    assert all[..|all| - 1] == outer + inner[..|inner| - 1];
    if inner[|inner| - 1] != n { BackSuffix(outer, inner[..|inner| - 1], n); }
  }

  /** The meaning of a resolved term below the binders `open`, outermost first. */
  function Means(e: Ast, open: seq<string>): BTm {
    match e
    case Name(n) => if n in open then BVar(Back(open, n)) else BFree(n)
    case Abs(x, b) => BAbs(Means(b, open + [x]))
    case App(f, x) => BApp(Means(f, open), Means(x, open))
    case Rep(s, a, b, body) => BRep(Means(s, open), Means(body, open + [a, b]))
    case Era(s, body) => BEra(Means(s, open), Means(body, open))
    case Fix(i) => BFix(Means(i, open))
    case Val(v) => BVal(v)
    case Fun(p) => BFun(p)
  }

  /** The meaning of a term over definitions: a lexically free definition name stands for its body, at top level. */
  function MeansIn(defs: Defs, ghost done: seq<string>, e: Ast, open: seq<string>): BTm
    requires Checked(defs, done)
    decreases Top(done, Refs(defs, e)), e
  {
    match e
    case Name(n) =>
      if n in open then BVar(Back(open, n))
      else if n in defs then
        BodyLower(defs, done, n);
        MeansIn(defs, done, defs[n], [])
      else BFree(n)
    case Abs(x, b) => BAbs(MeansIn(defs, done, b, open + [x]))
    case App(f, x) =>
      TopConcat(done, Refs(defs, f), Refs(defs, x));
      BApp(MeansIn(defs, done, f, open), MeansIn(defs, done, x, open))
    case Rep(s, a, b, body) =>
      TopConcat(done, Refs(defs, s), Refs(defs, body));
      BRep(MeansIn(defs, done, s, open), MeansIn(defs, done, body, open + [a, b]))
    case Era(s, body) =>
      TopConcat(done, Refs(defs, s), Refs(defs, body));
      BEra(MeansIn(defs, done, s, open), MeansIn(defs, done, body, open))
    case Fix(i) => BFix(MeansIn(defs, done, i, open))
    case Val(v) => BVal(v)
    case Fun(p) => BFun(p)
  }

  /**
   The names met on the way are resolved as their own text has them: `inner` are the binders open
   in the text at hand, `outer` those of its callers, `bound` the threaded set. A bound definition
   name is in the set, a free one is out of it and its body is clean too, and any other free name
   is not bound by a caller.
   */
  ghost predicate Hygienic(defs: Defs, done: seq<string>, e: Ast, outer: seq<string>, inner: seq<string>,
      bound: set<string>)
    requires Checked(defs, done)
    decreases Top(done, Refs(defs, e)), e
  {
    match e
    case Name(n) =>
      if n in inner then n in defs ==> n in bound
      else if n !in defs then n !in outer
      else if n in bound then false
      else
        BodyLower(defs, done, n);
        Hygienic(defs, done, defs[n], outer + inner, [], bound)
    case Abs(x, b) => Hygienic(defs, done, b, outer, inner + [x], bound + {x})
    case App(f, x) =>
      TopConcat(done, Refs(defs, f), Refs(defs, x));
      && Hygienic(defs, done, f, outer, inner, bound)
      && Hygienic(defs, done, x, outer, inner, Resolve(defs, done, f, bound).1)
    case Rep(s, a, b, body) =>
      TopConcat(done, Refs(defs, s), Refs(defs, body));
      && Hygienic(defs, done, s, outer, inner, bound)
      && Hygienic(defs, done, body, outer, inner + [a, b], Resolve(defs, done, s, bound).1 + {a, b})
    case Era(s, body) =>
      TopConcat(done, Refs(defs, s), Refs(defs, body));
      && Hygienic(defs, done, s, outer, inner, bound)
      && Hygienic(defs, done, body, outer, inner, Resolve(defs, done, s, bound).1)
    case Fix(i) => Hygienic(defs, done, i, outer, inner, bound)
    case Val(_) => true
    case Fun(_) => true
  }

  /** The threaded set only shrinks. */
  lemma {:induction false} ResolveShrinks(defs: Defs, done: seq<string>, e: Ast, bound: set<string>)
    requires Checked(defs, done)
    ensures Resolve(defs, done, e, bound).1 <= bound
    decreases Top(done, Refs(defs, e)), e
  {
    hide Checked;
    match e
    case Name(n) =>
      if n !in bound && n in defs {
        BodyLower(defs, done, n);
        ResolveShrinks(defs, done, defs[n], bound);
      }
    case Abs(x, b) => ResolveShrinks(defs, done, b, bound + {x});
    case App(f, x) =>
      TopConcat(done, Refs(defs, f), Refs(defs, x));
      ResolveShrinks(defs, done, f, bound);
      ResolveShrinks(defs, done, x, Resolve(defs, done, f, bound).1);
    case Rep(s, a, b, body) =>
      TopConcat(done, Refs(defs, s), Refs(defs, body));
      ResolveShrinks(defs, done, s, bound);
      ResolveShrinks(defs, done, body, Resolve(defs, done, s, bound).1 + {a, b});
    case Era(s, body) =>
      TopConcat(done, Refs(defs, s), Refs(defs, body));
      ResolveShrinks(defs, done, s, bound);
      ResolveShrinks(defs, done, body, Resolve(defs, done, s, bound).1);
    case Fix(i) => ResolveShrinks(defs, done, i, bound);
    case Val(_) =>
    case Fun(_) =>
  }

  /** A definition's body never means a bound name. */
  lemma {:induction false} TopLevelMeaning(defs: Defs, done: seq<string>, e: Ast)
    requires Checked(defs, done)
    ensures !MeansIn(defs, done, e, []).BVar?
    decreases Top(done, Refs(defs, e))
  {
    hide Checked;
    if e.Name? && e.n in defs {
      BodyLower(defs, done, e.n);
      TopLevelMeaning(defs, done, defs[e.n]);
    }
  }

  lemma {:induction false} ResolveMeansName(defs: Defs, done: seq<string>, n: string, outer: seq<string>,
      inner: seq<string>, bound: set<string>)
    requires Checked(defs, done) && bound <= Elems(outer + inner)
    ensures Means(Resolve(defs, done, Name(n), bound).0, outer + inner) == MeansIn(defs, done, Name(n), inner) <==>
      Hygienic(defs, done, Name(n), outer, inner, bound)
    decreases Top(done, Refs(defs, Name(n))), Name(n), 0
  {
    hide Checked;
    if n in inner { BackSuffix(outer, inner, n); }
    if n in defs {
      BodyLower(defs, done, n);
      if n in bound {
        assert n in outer + inner;
        TopLevelMeaning(defs, done, defs[n]);
      } else if n in inner {
        var r := Resolve(defs, done, defs[n], bound).0;
        if r.Name? { ResolvedName(defs, done, defs[n], bound); }
      } else {
        assert outer + inner + [] == outer + inner;
        ResolveMeansIff(defs, done, defs[n], outer + inner, [], bound);
      }
    }
  }

  /** Resolution keeps the meaning of a term exactly if the names on the way are hygienic. */
  lemma {:induction false} ResolveMeansIff(defs: Defs, done: seq<string>, e: Ast, outer: seq<string>,
      inner: seq<string>, bound: set<string>)
    requires Checked(defs, done) && bound <= Elems(outer + inner)
    ensures Means(Resolve(defs, done, e, bound).0, outer + inner) == MeansIn(defs, done, e, inner) <==>
      Hygienic(defs, done, e, outer, inner, bound)
    decreases Top(done, Refs(defs, e)), e, 1
  {
    hide Checked, Elems;
    match e
    case Name(n) => ResolveMeansName(defs, done, n, outer, inner, bound);
    case Abs(x, b) =>
      OpenMore(outer, inner, [x], bound);
      ResolveMeansIff(defs, done, b, outer, inner + [x], bound + {x});
    case App(f, x) =>
      TopConcat(done, Refs(defs, f), Refs(defs, x));
      ResolveShrinks(defs, done, f, bound);
      ResolveMeansIff(defs, done, f, outer, inner, bound);
      ResolveMeansIff(defs, done, x, outer, inner, Resolve(defs, done, f, bound).1);
    case Rep(s, a, b, body) =>
      TopConcat(done, Refs(defs, s), Refs(defs, body));
      ResolveShrinks(defs, done, s, bound);
      ResolveMeansIff(defs, done, s, outer, inner, bound);
      OpenMore(outer, inner, [a, b], Resolve(defs, done, s, bound).1);
      ResolveMeansIff(defs, done, body, outer, inner + [a, b], Resolve(defs, done, s, bound).1 + {a, b});
    case Era(s, body) =>
      TopConcat(done, Refs(defs, s), Refs(defs, body));
      ResolveShrinks(defs, done, s, bound);
      ResolveMeansIff(defs, done, s, outer, inner, bound);
      ResolveMeansIff(defs, done, body, outer, inner, Resolve(defs, done, s, bound).1);
    case Fix(i) => ResolveMeansIff(defs, done, i, outer, inner, bound);
    case Val(_) =>
    case Fun(_) =>
  }

  lemma OpenMore(outer: seq<string>, inner: seq<string>, xs: seq<string>, bound: set<string>)
    requires bound <= Elems(outer + inner)
    ensures outer + (inner + xs) == outer + inner + xs && bound + Elems(xs) <= Elems(outer + (inner + xs))
    ensures |xs| == 1 ==> Elems(xs) == {xs[0]}
    ensures |xs| == 2 ==> Elems(xs) == {xs[0], xs[1]}
  {
  }

  /** The binders among `all` share no name with the definitions or with a name free in them. */
  ghost predicate Separate(defs: Defs, all: set<string>) {
    && all !! defs.Keys
    && forall n :: n in defs ==> Binders(defs[n]) <= all && Frees(defs[n]) - defs.Keys !! all
  }

  /** With separate names every term is hygienic. */
  lemma {:induction false} SeparateHygienic(defs: Defs, done: seq<string>, e: Ast, all: set<string>,
      outer: seq<string>, inner: seq<string>, bound: set<string>)
    requires Checked(defs, done) && Separate(defs, all) && Binders(e) <= all
    requires Elems(outer) <= all && Elems(inner) <= all && bound <= all
    requires Frees(e) - Elems(inner) - defs.Keys !! Elems(outer)
    ensures Hygienic(defs, done, e, outer, inner, bound)
    decreases Top(done, Refs(defs, e)), e
  {
    hide Checked;
    match e
    case Name(n) =>
      if n in defs {
        BodyLower(defs, done, n);
        assert n !in Elems(inner);
        SeparateHygienic(defs, done, defs[n], all, outer + inner, [], bound);
      } else {
        assert n in inner <==> n in Elems(inner);
        assert n in outer <==> n in Elems(outer);
      }
    case Abs(x, b) =>
      ElemsMore(inner, x);
      SeparateHygienic(defs, done, b, all, outer, inner + [x], bound + {x});
    case App(f, x) =>
      TopConcat(done, Refs(defs, f), Refs(defs, x));
      ResolveShrinks(defs, done, f, bound);
      SeparateHygienic(defs, done, f, all, outer, inner, bound);
      SeparateHygienic(defs, done, x, all, outer, inner, Resolve(defs, done, f, bound).1);
    case Rep(s, a, b, body) =>
      TopConcat(done, Refs(defs, s), Refs(defs, body));
      ResolveShrinks(defs, done, s, bound);
      SeparateHygienic(defs, done, s, all, outer, inner, bound);
      assert Elems(inner + [a, b]) == Elems(inner) + {a, b};
      SeparateHygienic(defs, done, body, all, outer, inner + [a, b], Resolve(defs, done, s, bound).1 + {a, b});
    case Era(s, body) =>
      TopConcat(done, Refs(defs, s), Refs(defs, body));
      ResolveShrinks(defs, done, s, bound);
      SeparateHygienic(defs, done, s, all, outer, inner, bound);
      SeparateHygienic(defs, done, body, all, outer, inner, Resolve(defs, done, s, bound).1);
    case Fix(i) => SeparateHygienic(defs, done, i, all, outer, inner, bound);
    case Val(_) =>
    case Fun(_) =>
  }

  // ---------------------------------------------------------------------------------------------
  // The pass as it runs

  lemma ElemsMore(s: seq<string>, x: string)
    ensures Elems(s + [x]) == Elems(s) + {x}
  {
  }

  class Checker {
    const defs: Defs
    var visiting: set<string>
    var visited: set<string>
    ghost var path: seq<string>
    ghost var done: seq<string>

    ghost predicate Valid()
      reads this
    {
      visiting == Elems(path) && visited == Elems(done)
    }

    constructor (defs: Defs)
      ensures this.defs == defs && Valid() && path == [] && done == []
    {
      this.defs := defs;
      visiting, visited := {}, {};
      path, done := [], [];
    }

    /** Visit one definition; on success the visiting set is as before. */
    method DfsCheck(name: string) returns (ok: bool)
      requires Valid() && name in defs
      modifies this
      ensures ok <==> Dfs(defs, name, old(path), old(done)).Some?
      ensures ok ==> Valid() && path == old(path) && done == Dfs(defs, name, old(path), old(done)).value
      decreases defs.Keys - visiting, 0
    {
      if name in visiting { return false; }
      if name in visited { return true; }
      ghost var before := path;
      ElemsMore(path, name);
      visiting := visiting + {name};
      path := path + [name];
      var refs := CollectDefRefs(defs, defs[name], []);
      assert [] + Refs(defs, defs[name]) == Refs(defs, defs[name]);
      RefsAreDefs(defs, defs[name]);
      assert name in defs.Keys - old(visiting) && name !in defs.Keys - visiting;
      ok := DfsEach(refs);
      if !ok { return false; }
      visiting := visiting - {name};
      path := before;
      assert visiting == Elems(path);
      ElemsMore(done, name);
      visited := visited + {name};
      done := done + [name];
    }

    method DfsEach(names: seq<string>) returns (ok: bool)
      requires Valid() && forall n :: n in names ==> n in defs
      modifies this
      ensures ok <==> DfsAll(defs, names, old(path), old(done)).Some?
      ensures ok ==> Valid() && path == old(path) && done == DfsAll(defs, names, old(path), old(done)).value
      decreases defs.Keys - visiting, |names| + 1
    {
      for i := 0 to |names|
        invariant Valid() && path == old(path)
        invariant DfsAll(defs, names, old(path), old(done)) == DfsAll(defs, names[i..], path, done)
      {
        assert names[i..][1..] == names[i + 1..];
        ok := DfsCheck(names[i]);
        if !ok { return false; }
      }
      ok := true;
    }
  }

  /** Check the definitions, then resolve the expression. */
  method Run(defs: Defs, keys: seq<string>, e: Ast) returns (r: Option<Ast>)
    requires Elems(keys) == defs.Keys
    ensures r.Some? <==> !exists c :: Cycle(defs, c)
    ensures r.Some? && Apart(defs) && Binders(e) !! defs.Keys ==>
      Refs(defs, r.value) == [] && exists done :: Checked(defs, done) && r.value == Unfold(defs, done, e)
    ensures r.Some? ==> exists done ::
      && Checked(defs, done)
      && (Means(r.value, []) == MeansIn(defs, done, e, []) <==> Hygienic(defs, done, e, [], [], {}))
  {
    TopoExact(defs, keys);
    var c := new Checker(defs);
    var ok := c.DfsEach(keys);
    if !ok { return None; }
    DfsAllLayered(defs, keys, [], []);
    ghost var done := c.done;
    assert forall n :: n in defs ==> n in Elems(keys);
    if Apart(defs) && Binders(e) !! defs.Keys { ResolveUnfolds(defs, done, e, {}); }
    ResolveMeansIff(defs, done, e, [], [], {});
    ghost var none: seq<string> := [];
    assert none + none == none;
    return Some(Resolve(defs, done, e, {}).0);
  }
}
