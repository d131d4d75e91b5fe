/** Linearized terms are linear and stand for the source term. */
module LinearizeProof {
  import opened Asts
  import opened Pass1
  import opened Linearize

  lemma {:induction false} CountIsUses(e: Ast, x: string)
    requires Pure(e)
    ensures CountUses(e, x) == Uses(x, e)
  {
    match e
    case Name(_) =>
    case Abs(_, b) => CountIsUses(b, x);
    case App(f, a) => CountIsUses(f, x); CountIsUses(a, x);
    case Rep(s, _, _, body) => CountIsUses(s, x); CountIsUses(body, x);
    case Era(s, body) => CountIsUses(s, x); CountIsUses(body, x);
  }

  /** Outside the scopes of binders of `x` no binder has a name minted for `x`. */
  ghost predicate Apart(e: Ast, x: string) {
    match e
    case Name(_) => true
    case Abs(y, b) => y == x || (!Minted(x, y) && Apart(b, x))
    case App(f, a) => Apart(f, x) && Apart(a, x)
    case Rep(s, a, b, body) => Apart(s, x) && a != x && b != x && !Minted(x, a) && !Minted(x, b) && Apart(body, x)
    case Era(s, body) => Apart(s, x) && Apart(body, x)
    case Fix(i) => Apart(i, x)
    case _ => true
  }

  /** No free name was minted for `x`. */
  ghost predicate NoneMinted(e: Ast, x: string) {
    forall n :: n in Frees(e) ==> !Minted(x, n)
  }

  // ---------------------------------------------------------------------------------------------
  // Renaming occurrences to copies

  /** Renaming consumes one number per occurrence, leaves none, and keeps the uses of other names. */
  lemma {:induction false} RenameUses(e: Ast, x: string, k: nat, y: string)
    requires Pure(e) && Apart(e, x) && NoneMinted(e, x) && Allowed(x)
    ensures
      var (e', k') := IndexedRename(e, x, k);
      && Pure(e') && k' == k + Uses(x, e)
      && (y == x ==> Uses(y, e') == 0)
      && (y != x && !Minted(x, y) ==> Uses(y, e') == Uses(y, e))
    decreases e
  {
    match e
    case Name(n) =>
      SplitNotRest(x, k, k);
      MintedApart(x, x, SplitName(x, k));
    case Abs(z, b) => if z != x { RenameUses(b, x, k, y); }
    case App(f, a) =>
      RenameUses(f, x, k, y);
      RenameUses(a, x, IndexedRename(f, x, k).1, y);
    case Rep(s, a, b, body) =>
      RenameUses(s, x, k, y);
      RenameUses(body, x, IndexedRename(s, x, k).1, y);
    case Era(s, body) =>
      RenameUses(s, x, k, y);
      RenameUses(body, x, IndexedRename(s, x, k).1, y);
  }

  /** Each copy in the consumed range is used once; no other minted name is used. */
  lemma {:induction false} RenameCopies(e: Ast, x: string, k: nat, i: nat)
    requires Pure(e) && Apart(e, x) && NoneMinted(e, x) && Allowed(x)
    ensures
      var (e', k') := IndexedRename(e, x, k);
      && Uses(SplitName(x, i), e') == (if k <= i < k' then 1 else 0)
      && Uses(RestName(x, i), e') == 0
    decreases e
  {
    hide Minted, SplitName, RestName, Allowed;
    SplitNotRest(x, i, k);
    SplitNotRest(x, k, i);
    match e
    case Name(n) =>
    case Abs(z, b) =>
      if z != x {
        RenameUses(b, x, k, x);
        RenameCopies(b, x, k, i);
      } else {
        NotFree(e, x, i);
      }
    case App(f, a) =>
      var j := IndexedRename(f, x, k).1;
      RenameUses(f, x, k, x);
      RenameUses(a, x, j, x);
      RenameCopies(f, x, k, i);
      RenameCopies(a, x, j, i);
    case Rep(s, a, b, body) =>
      var j := IndexedRename(s, x, k).1;
      RenameUses(s, x, k, x);
      RenameUses(body, x, j, x);
      RenameCopies(s, x, k, i);
      RenameCopies(body, x, j, i);
    case Era(s, body) =>
      var j := IndexedRename(s, x, k).1;
      RenameUses(s, x, k, x);
      RenameUses(body, x, j, x);
      RenameCopies(s, x, k, i);
      RenameCopies(body, x, j, i);
  }

  lemma NotFree(e: Ast, x: string, i: nat)
    requires NoneMinted(e, x)
    ensures Uses(SplitName(x, i), e) == 0 && Uses(RestName(x, i), e) == 0
  {
    UsesFrees(SplitName(x, i), e);
    UsesFrees(RestName(x, i), e);
    assert Minted(x, SplitName(x, i)) && Minted(x, RestName(x, i));
  }

  lemma {:induction false} RenameLinear(e: Ast, x: string, k: nat)
    requires Pure(e) && Apart(e, x) && NoneMinted(e, x) && Allowed(x) && Linear(e)
    ensures Linear(IndexedRename(e, x, k).0)
    decreases e
  {
    hide Minted;
    match e
    case Name(_) =>
    case Abs(z, b) =>
      if z != x {
        RenameUses(b, x, k, z);
        RenameLinear(b, x, k);
      }
    case App(f, a) =>
      RenameLinear(f, x, k);
      RenameLinear(a, x, IndexedRename(f, x, k).1);
    case Rep(s, a, b, body) =>
      var j := IndexedRename(s, x, k).1;
      RenameLinear(s, x, k);
      RenameUses(body, x, j, a);
      RenameUses(body, x, j, b);
      RenameLinear(body, x, j);
    case Era(s, body) =>
      RenameLinear(s, x, k);
      RenameLinear(body, x, IndexedRename(s, x, k).1);
  }

  /** The environments agree on the given names, all of which are bound. */
  predicate Agree(env: map<string, nat>, env': map<string, nat>, names: set<string>) {
    forall n :: n in names ==> n in env && n in env' && env[n] == env'[n]
  }

  lemma {:induction false} CollapseAgree(e: Ast, env: map<string, nat>, env': map<string, nat>, d: nat)
    requires Pure(e) && Agree(env, env', Frees(e))
    ensures Collapse(e, env, d) == Collapse(e, env', d)
    decreases e
  {
    match e
    case Name(_) =>
    case Abs(x, b) => CollapseAgree(b, env[x := d], env'[x := d], d + 1);
    case App(f, a) => CollapseAgree(f, env, env', d); CollapseAgree(a, env, env', d);
    case Rep(s, a, b, body) =>
      assert s.n in Frees(e);
      CollapseAgree(body, env[a := env[s.n]][b := env[s.n]], env'[a := env'[s.n]][b := env'[s.n]], d);
    case Era(_, body) => CollapseAgree(body, env, env', d);
  }

  /** `env'` gives copy `i` of `x` the meaning `x` has in `env`. */
  predicate CopyMeans(env: map<string, nat>, env': map<string, nat>, x: string, i: nat) {
    x in env && SplitName(x, i) in env' && env'[SplitName(x, i)] == env[x]
  }

  predicate Copies(env: map<string, nat>, env': map<string, nat>, x: string, k: nat, k': nat) {
    forall i: nat :: k <= i < k' ==> CopyMeans(env, env', x, i)
  }

  lemma CopiesPart(env: map<string, nat>, env': map<string, nat>, x: string, k: nat, k': nat, m: nat, m': nat)
    requires Copies(env, env', x, k, k') && k <= m && m' <= k'
    ensures Copies(env, env', x, m, m')
  {
    hide CopyMeans;
  }

  lemma CopyAt(env: map<string, nat>, env': map<string, nat>, x: string, k: nat, k': nat, i: nat)
    requires Copies(env, env', x, k, k') && k <= i < k'
    ensures x in env && SplitName(x, i) in env' && env'[SplitName(x, i)] == env[x]
  {
    assert CopyMeans(env, env', x, i);
  }

  /** A renamed term stands for the same term where the copies mean the variable. */
  lemma {:induction false} RenameCollapse(e: Ast, x: string, k: nat, env: map<string, nat>, env': map<string, nat>,
      d: nat)
    requires Pure(e) && Apart(e, x) && NoneMinted(e, x) && Allowed(x)
    requires Agree(env, env', Frees(e) - {x}) && Copies(env, env', x, k, k + Uses(x, e))
    ensures Pure(IndexedRename(e, x, k).0) && Collapse(IndexedRename(e, x, k).0, env', d) == Collapse(e, env, d)
    decreases e, 1
  {
    hide Minted, Allowed, Copies;
    RenameUses(e, x, k, x);
    match e
    case Name(n) => if n == x { CopyAt(env, env', x, k, k + 1, k); }
    case Abs(z, b) => if z == x { CollapseAgree(e, env, env', d); }
      else { RenameCollapseAbs(z, b, x, k, env, env', d); }
    case App(f, a) => RenameCollapseApp(f, a, x, k, env, env', d);
    case Rep(s, a, b, body) => RenameCollapseRep(s, a, b, body, x, k, env, env', d);
    case Era(s, body) =>
      var m, end := k + Uses(x, s), k + Uses(x, e);
      RenameUses(s, x, k, x);
      CopiesPart(env, env', x, k, end, m, end);
      RenameCollapse(body, x, m, env, env', d);
  }

  lemma {:induction false} RenameCollapseAbs(z: string, b: Ast, x: string, k: nat, env: map<string, nat>,
      env': map<string, nat>, d: nat)
    requires var e := Abs(z, b); Pure(e) && Apart(e, x) && NoneMinted(e, x) && Agree(env, env', Frees(e) - {x})
    requires Allowed(x) && z != x && Copies(env, env', x, k, k + Uses(x, b))
    ensures
      var e := Abs(z, b);
      Pure(IndexedRename(e, x, k).0) && Collapse(IndexedRename(e, x, k).0, env', d) == Collapse(e, env, d)
    decreases Abs(z, b), 0
  {
    hide Minted, Allowed, Copies;
    CopiesUnder(env, env', x, k, k + Uses(x, b), z, d);
    RenameCollapse(b, x, k, env[z := d], env'[z := d], d + 1);
  }

  lemma {:induction false} RenameCollapseApp(f: Ast, a: Ast, x: string, k: nat, env: map<string, nat>,
      env': map<string, nat>, d: nat)
    requires var e := App(f, a); Pure(e) && Apart(e, x) && NoneMinted(e, x) && Agree(env, env', Frees(e) - {x})
    requires Allowed(x) && Copies(env, env', x, k, k + Uses(x, f) + Uses(x, a))
    ensures
      var e := App(f, a);
      Pure(IndexedRename(e, x, k).0) && Collapse(IndexedRename(e, x, k).0, env', d) == Collapse(e, env, d)
    decreases App(f, a), 0
  {
    hide Minted, Allowed, Copies;
    var m, end := k + Uses(x, f), k + Uses(x, f) + Uses(x, a);
    RenameUses(f, x, k, x);
    CopiesPart(env, env', x, k, end, k, m);
    CopiesPart(env, env', x, k, end, m, end);
    RenameCollapse(f, x, k, env, env', d);
    RenameCollapse(a, x, m, env, env', d);
  }

  lemma {:induction false} RenameCollapseRep(s: Ast, a: string, b: string, body: Ast, x: string, k: nat,
      env: map<string, nat>, env': map<string, nat>, d: nat)
    requires var e := Rep(s, a, b, body); Pure(e) && Apart(e, x) && NoneMinted(e, x) && Agree(env, env', Frees(e) - {x})
    requires Allowed(x) && Copies(env, env', x, k, k + Uses(x, s) + Uses(x, body))
    ensures
      var e := Rep(s, a, b, body);
      Pure(IndexedRename(e, x, k).0) && Collapse(IndexedRename(e, x, k).0, env', d) == Collapse(e, env, d)
    decreases Rep(s, a, b, body), 0
  {
    hide Minted, Allowed, Copies;
    RenameUses(s, x, k, x);
    var j, end := k + Uses(x, s), k + Uses(x, s) + Uses(x, body);
    RenameUses(body, x, j, x);
    if s.n == x { CopyAt(env, env', x, k, end, k); }
    var v := env[s.n];
    CopiesPart(env, env', x, k, end, j, end);
    CopiesUnder(env, env', x, j, end, a, v);
    CopiesUnder(env[a := v], env'[a := v], x, j, end, b, v);
    RenameCollapse(body, x, j, env[a := v][b := v], env'[a := v][b := v], d);
  }

  lemma CopiesUnder(env: map<string, nat>, env': map<string, nat>, x: string, k: nat, k': nat, z: string, v: nat)
    requires Copies(env, env', x, k, k') && z != x && !Minted(x, z)
    ensures Copies(env[z := v], env'[z := v], x, k, k')
  {
    hide SplitName;
    var a, b := env[z := v], env'[z := v];
    forall i: nat | k <= i < k'
      ensures CopyMeans(a, b, x, i)
    {
      CopyAt(env, env', x, k, k', i);
      assert Minted(x, SplitName(x, i));
    }
  }

  // ---------------------------------------------------------------------------------------------
  // The chain of replicators

  /** `y` is bound by the chain for copies `k` up to `n` of `x`. */
  ghost predicate Chained(x: string, k: nat, n: nat, y: string) {
    (exists i :: k <= i < n && y == SplitName(x, i)) || (exists i :: k < i < n - 1 && y == RestName(x, i))
  }

  lemma ChainedStep(x: string, k: nat, n: nat, y: string)
    requires k + 2 < n
    ensures Chained(x, k, n, y) <==> y == SplitName(x, k) || y == RestName(x, k + 1) || Chained(x, k + 1, n, y)
  {
    if i :| k <= i < n && y == SplitName(x, i) { if i > k { assert Chained(x, k + 1, n, y); } }
    if i :| k < i < n - 1 && y == RestName(x, i) { if i > k + 1 { assert Chained(x, k + 1, n, y); } }
  }

  lemma ChainedLast(x: string, k: nat, y: string)
    ensures Chained(x, k, k + 2, y) <==> y == SplitName(x, k) || y == SplitName(x, k + 1)
  {
  }

  lemma {:induction false} NestUses(c: string, x: string, k: nat, n: nat, body: Ast, y: string)
    requires k + 2 <= n
    ensures
      Uses(y, NestReps(Name(c), x, k, n, body)) ==
      (if c == y then 1 else 0) + (if Chained(x, k, n, y) then 0 else Uses(y, body))
    decreases n - k
  {
    hide Chained, SplitName, RestName;
    if k + 2 == n {
      ChainedLast(x, k, y);
    } else {
      ChainedStep(x, k, n, y);
      NestUses(RestName(x, k + 1), x, k + 1, n, body, y);
    }
  }

  lemma {:induction false} NestPure(c: string, x: string, k: nat, n: nat, body: Ast)
    requires k + 2 <= n && Pure(body)
    ensures Pure(NestReps(Name(c), x, k, n, body))
    decreases n - k
  {
    if k + 2 < n { NestPure(RestName(x, k + 1), x, k + 1, n, body); }
  }

  /** Every copy is used once in `body` and no rest name is. */
  ghost predicate CopiesUsed(x: string, k: nat, n: nat, body: Ast) {
    && (forall i {:trigger SplitName(x, i)} :: k <= i < n ==> Uses(SplitName(x, i), body) == 1)
    && (forall i {:trigger RestName(x, i)} :: Uses(RestName(x, i), body) == 0)
  }

  lemma NotChained(x: string, k: nat, n: nat)
    requires Allowed(x)
    ensures !Chained(x, k + 1, n, SplitName(x, k)) && !Chained(x, k + 1, n, RestName(x, k + 1))
  {
    hide SplitName, RestName, Allowed;
    forall i: nat
      ensures SplitName(x, k) != RestName(x, i) && (SplitName(x, k) == SplitName(x, i) ==> k == i)
      ensures RestName(x, k + 1) != SplitName(x, i) && (RestName(x, k + 1) == RestName(x, i) ==> k + 1 == i)
    {
      SplitNotRest(x, k, i);
      SplitNotRest(x, i, k + 1);
      SplitNotRest(x, k + 1, i);
    }
  }

  lemma {:induction false} NestLinear(c: string, x: string, k: nat, n: nat, body: Ast)
    requires k + 2 <= n && Allowed(x) && Linear(body) && CopiesUsed(x, k, n, body)
    ensures Linear(NestReps(Name(c), x, k, n, body))
    decreases n - k
  {
    hide Chained, SplitName, RestName, Allowed;
    SplitNotRest(x, k, k + 1);
    if k + 2 < n {
      var r := RestName(x, k + 1);
      NestLinear(r, x, k + 1, n, body);
      NotChained(x, k, n);
      NestUses(r, x, k + 1, n, body, SplitName(x, k));
      NestUses(r, x, k + 1, n, body, r);
    }
  }

  /** The environment inside the chain: every name it binds means `v`. */
  function NestEnv(env: map<string, nat>, x: string, k: nat, n: nat, v: nat): map<string, nat>
    requires k + 2 <= n
    decreases n - k
  {
    if k + 2 == n then env[SplitName(x, k) := v][SplitName(x, k + 1) := v]
    else NestEnv(env[SplitName(x, k) := v][RestName(x, k + 1) := v], x, k + 1, n, v)
  }

  lemma {:induction false} NestCollapse(c: string, x: string, k: nat, n: nat, body: Ast, env: map<string, nat>, d: nat)
    requires k + 2 <= n && Pure(body) && c in env
    ensures Pure(NestReps(Name(c), x, k, n, body))
    ensures Collapse(NestReps(Name(c), x, k, n, body), env, d) == Collapse(body, NestEnv(env, x, k, n, env[c]), d)
    decreases n - k
  {
    NestPure(c, x, k, n, body);
    if k + 2 < n { NestCollapse(RestName(x, k + 1), x, k + 1, n, body,
        env[SplitName(x, k) := env[c]][RestName(x, k + 1) := env[c]], d); }
  }

  lemma {:induction false} NestEnvAt(env: map<string, nat>, x: string, k: nat, n: nat, v: nat, y: string)
    requires k + 2 <= n
    ensures
      var m := NestEnv(env, x, k, n, v);
      && (Chained(x, k, n, y) ==> y in m && m[y] == v)
      && (!Chained(x, k, n, y) ==> (y in m <==> y in env) && (y in env ==> m[y] == env[y]))
    decreases n - k
  {
    hide Chained, SplitName, RestName;
    if k + 2 == n {
      ChainedLast(x, k, y);
    } else {
      ChainedStep(x, k, n, y);
      NestEnvAt(env[SplitName(x, k) := v][RestName(x, k + 1) := v], x, k + 1, n, v, y);
    }
  }

  // ---------------------------------------------------------------------------------------------
  // Where the minted names are

  lemma {:induction false} RenameApart(e: Ast, p: string, k: nat, x: string)
    requires Pure(e) && Apart(e, x)
    ensures Apart(IndexedRename(e, p, k).0, x)
    decreases e
  {
    hide Minted;
    match e
    case Name(_) =>
    case Abs(z, b) => if z != p && z != x { RenameApart(b, p, k, x); }
    case App(f, a) => RenameApart(f, p, k, x); RenameApart(a, p, IndexedRename(f, p, k).1, x);
    case Rep(s, a, b, body) => RenameApart(s, p, k, x); RenameApart(body, p, IndexedRename(s, p, k).1, x);
    case Era(s, body) => RenameApart(s, p, k, x); RenameApart(body, p, IndexedRename(s, p, k).1, x);
  }

  lemma {:induction false} NestApart(c: string, p: string, k: nat, n: nat, body: Ast, x: string)
    requires k + 2 <= n && Allowed(p) && Allowed(x) && p != x && Apart(body, x)
    ensures Apart(NestReps(Name(c), p, k, n, body), x)
    decreases n - k
  {
    hide Minted, Allowed, SplitName, RestName;
    SplitNotRest(p, k, k + 1);
    SplitNotRest(p, k + 1, k);
    MintedApart(p, x, SplitName(p, k));
    MintedApart(p, x, SplitName(p, k + 1));
    MintedApart(p, x, RestName(p, k + 1));
    if k + 2 < n { NestApart(RestName(p, k + 1), p, k + 1, n, body, x); }
  }

  ghost predicate AllAllowed(names: set<string>) { forall x :: x in names ==> Allowed(x) }

  /** Linearization keeps to the fragment, frees no name, and mints only inside the binder it splits. */
  lemma {:induction false} LinShape(t: Src, x: string)
    requires AllAllowed(Free(t) + Params(t)) && Allowed(x)
    ensures Pure(Lin(t)) && Frees(Lin(t)) <= Free(t) && Apart(Lin(t), x)
    decreases t, 1
  {
    hide Minted, Allowed, WrapUses;
    match t
    case SVar(_) =>
    case SLam(p, b) =>
      assert AllAllowed(Free(b) + Params(b)) && Allowed(p);
      LinShape(b, x);
      LinShape(b, p);
      var e := Lin(b);
      CountIsUses(e, p);
      AllowedNotMinted(Free(b), p);
      forall y | y in Frees(WrapUses(p, CountUses(e, p), e))
        ensures y == p || y in Frees(e)
      {
        WrapFrees(p, e, y);
      }
      WrapPure(p, e);
      if x != p {
        WrapApart(p, e, x);
        AllowedNotMinted({p}, x);
      }
    case SApp(f, a) =>
      LinShape(f, x);
      LinShape(a, x);
  }

  lemma AllowedNotMinted(names: set<string>, p: string)
    requires AllAllowed(names) && Allowed(p)
    ensures forall n :: n in names ==> !Minted(p, n)
  {
    forall n | n in names
      ensures !Minted(p, n)
    {
      if Minted(p, n) { MintedApart(p, n, n); }
    }
  }

  lemma WrapPure(p: string, e: Ast)
    requires Pure(e) && Apart(e, p) && NoneMinted(e, p) && Allowed(p)
    ensures Pure(WrapUses(p, CountUses(e, p), e))
  {
    var n := CountUses(e, p);
    RenameUses(e, p, 0, p);
    if n >= 2 { NestPure(p, p, 0, n, IndexedRename(e, p, 0).0); }
  }

  lemma WrapApart(p: string, e: Ast, x: string)
    requires Pure(e) && Apart(e, x) && Allowed(p) && Allowed(x) && p != x
    ensures Apart(WrapUses(p, CountUses(e, p), e), x)
  {
    var n := CountUses(e, p);
    if n >= 2 {
      RenameApart(e, p, 0, x);
      NestApart(p, p, 0, n, IndexedRename(e, p, 0).0, x);
    }
  }

  lemma WrapFrees(p: string, e: Ast, y: string)
    requires Pure(e) && Apart(e, p) && NoneMinted(e, p) && Allowed(p) && CountUses(e, p) == Uses(p, e)
    requires y in Frees(WrapUses(p, CountUses(e, p), e))
    ensures y == p || y in Frees(e)
  {
    hide Minted, Allowed;
    var n := CountUses(e, p);
    if n >= 2 && y != p {
      var body := IndexedRename(e, p, 0).0;
      UsesFrees(y, WrapUses(p, n, e));
      NestUses(p, p, 0, n, body, y);
      RenameUses(e, p, 0, y);
      if Minted(p, y) { MintedChained(e, p, y); }
      UsesFrees(y, e);
    }
  }

  /** A minted name used after renaming is bound by the chain. */
  lemma MintedChained(e: Ast, p: string, y: string)
    requires Pure(e) && Apart(e, p) && NoneMinted(e, p) && Allowed(p) && Minted(p, y)
    ensures Uses(y, IndexedRename(e, p, 0).0) > 0 ==> Chained(p, 0, Uses(p, e), y)
  {
    var i :| y == SplitName(p, i) || y == RestName(p, i);
    RenameCopies(e, p, 0, i);
    RenameUses(e, p, 0, p);
  }

  // ---------------------------------------------------------------------------------------------
  // Linearity and meaning

  lemma RenamedCopies(e: Ast, p: string)
    requires Pure(e) && Apart(e, p) && NoneMinted(e, p) && Allowed(p)
    ensures CopiesUsed(p, 0, Uses(p, e), IndexedRename(e, p, 0).0)
  {
    hide SplitName, RestName, Allowed, NoneMinted, Apart, Uses;
    var n, e' := Uses(p, e), IndexedRename(e, p, 0).0;
    RenameUses(e, p, 0, p);
    forall i {:trigger SplitName(p, i)} | 0 <= i < n
      ensures Uses(SplitName(p, i), e') == 1
    {
      RenameCopies(e, p, 0, i);
    }
    forall i: nat
      ensures Uses(RestName(p, i), e') == 0
    {
      RenameCopies(e, p, 0, i);
    }
  }

  lemma WrapLinear(p: string, e: Ast)
    requires Pure(e) && Apart(e, p) && NoneMinted(e, p) && Allowed(p) && Linear(e) && CountUses(e, p) == Uses(p, e)
    ensures Linear(Abs(p, WrapUses(p, CountUses(e, p), e)))
  {
    hide Minted, Allowed, NoneMinted, Apart;
    var n := CountUses(e, p);
    if n == 0 {
      assert Uses(p, Name(p)) == 1 && Linear(Name(p));
      assert Linear(Era(Name(p), e));
    } else if n >= 2 {
      var body := IndexedRename(e, p, 0).0;
      RenameLinear(e, p, 0);
      RenamedCopies(e, p);
      NestLinear(p, p, 0, n, body);
      NestUses(p, p, 0, n, body, p);
      RenameUses(e, p, 0, p);
    }
  }

  lemma WrapCollapse(p: string, e: Ast, env: map<string, nat>, d: nat)
    requires Pure(e) && Apart(e, p) && NoneMinted(e, p) && Allowed(p) && CountUses(e, p) == Uses(p, e)
    requires Frees(e) <= env.Keys && p in env
    ensures Pure(WrapUses(p, CountUses(e, p), e)) && Collapse(WrapUses(p, CountUses(e, p), e), env, d) ==
      Collapse(e, env, d)
  {
    hide Minted, Allowed, NoneMinted, Apart, Collapse, SplitName, NestEnv;
    WrapPure(p, e);
    var n := CountUses(e, p);
    if n == 0 {
      EraCollapse(p, e, env, d);
    } else if n >= 2 {
      var m := NestEnv(env, p, 0, n, env[p]);
      RenameUses(e, p, 0, p);
      NestCollapse(p, p, 0, n, IndexedRename(e, p, 0).0, env, d);
      NestAgrees(p, n, e, env);
      RenameCollapse(e, p, 0, env, m, d);
    }
  }

  lemma EraCollapse(p: string, e: Ast, env: map<string, nat>, d: nat)
    requires Pure(e)
    ensures Collapse(Era(Name(p), e), env, d) == Collapse(e, env, d)
  {
  }

  lemma NestAgrees(p: string, n: nat, e: Ast, env: map<string, nat>)
    requires 2 <= n && Frees(e) <= env.Keys && p in env && NoneMinted(e, p) && Allowed(p)
    ensures
      var m := NestEnv(env, p, 0, n, env[p]);
      Agree(env, m, Frees(e) - {p}) && Copies(env, m, p, 0, n)
  {
    hide Allowed, SplitName, RestName, NestEnv;
    var m := NestEnv(env, p, 0, n, env[p]);
    forall y | y in Frees(e) - {p}
      ensures y in env && y in m && env[y] == m[y]
    {
      NestEnvAt(env, p, 0, n, env[p], y);
    }
    forall i: nat | i < n
      ensures CopyMeans(env, m, p, i)
    {
      NestEnvAt(env, p, 0, n, env[p], SplitName(p, i));
    }
  }

  lemma LinBody(p: string, b: Src)
    requires AllAllowed(Free(b) + Params(b)) && Allowed(p)
    ensures Pure(Lin(b)) && Apart(Lin(b), p) && NoneMinted(Lin(b), p) && CountUses(Lin(b), p) == Uses(p, Lin(b)) &&
      Frees(Lin(b)) <= Free(b)
  {
    LinShape(b, p);
    CountIsUses(Lin(b), p);
    AllowedNotMinted(Free(b), p);
  }

  /** Every binder of a linearized term is used exactly once. */
  lemma {:induction false} LinLinear(t: Src)
    requires AllAllowed(Free(t) + Params(t))
    ensures Linear(Lin(t))
    decreases t
  {
    hide Minted, Allowed, WrapUses;
    match t
    case SVar(_) =>
    case SLam(p, b) =>
      assert AllAllowed(Free(b) + Params(b)) && Allowed(p);
      LinBody(p, b);
      LinLinear(b);
      WrapLinear(p, Lin(b));
    case SApp(f, a) =>
      LinLinear(f);
      LinLinear(a);
  }

  /** Identifying copies and dropping erasures gives the source term back. */
  lemma {:induction false} LinCollapse(t: Src, env: map<string, nat>, d: nat)
    requires AllAllowed(Free(t) + Params(t)) && Free(t) <= env.Keys
    ensures Pure(Lin(t)) && Collapse(Lin(t), env, d) == Levelled(t, env, d)
    decreases t
  {
    hide Minted, Allowed, WrapUses;
    match t
    case SVar(_) =>
    case SLam(p, b) =>
      assert AllAllowed(Free(b) + Params(b)) && Allowed(p);
      LinBody(p, b);
      LinCollapse(b, env[p := d], d + 1);
      WrapCollapse(p, Lin(b), env[p := d], d + 1);
    case SApp(f, a) =>
      LinCollapse(f, env, d);
      LinCollapse(a, env, d);
  }
}
