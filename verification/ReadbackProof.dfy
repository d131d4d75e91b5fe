/** Reading back an elaborated net gives the λ-term the source stands for. */
module ReadbackProof {
  import opened Arenas
  import opened Nets
  import opened NetFacts
  import opened Asts
  import opened Elab
  import opened ElabProof
  import opened Readback

  // ---------------------------------------------------------------------------------------------
  // Variable trees

  /** Every replicator copies a variable delivered by an earlier agent. */
  ghost predicate Rooted(n: NetState) {
    forall r :: 0 < r < |n.arena.slots| && AgentOf(n, r).Replicator? ==> RootedAt(n, r)
  }

  ghost predicate RootedAt(n: NetState, r: nat) {
    && IsPort(n, Addr(r, Principal))
    && VarPort(n, Peer(n, Addr(r, Principal)))
    && Peer(n, Addr(r, Principal)).slot < r
  }

  /** The variable port one replicator up. */
  function Parent(n: NetState, q: Port): Port
    requires q.At?
  {
    Peer(n, Addr(q.slot, Principal))
  }

  /** The abstraction whose variable is delivered, through copies, at `q`. */
  ghost function Owner(n: NetState, q: Port): Port
    requires Rooted(n) && VarPort(n, q)
    decreases q.slot
  {
    if AgentOf(n, q.slot).FanAbs? then q else
    assert RootedAt(n, q.slot);
    Owner(n, Parent(n, q))
  }

  /** `q` is `p` or a copy made, in one or more steps, from `p`. */
  ghost predicate Below(n: NetState, q: Port, p: Port)
    requires Rooted(n) && VarPort(n, q)
    decreases q.slot
  {
    q == p || (AgentOf(n, q.slot).Replicator? && assert RootedAt(n, q.slot); Below(n, Parent(n, q), p))
  }

  /** An occurrence: a variable port wired to something other than a replicator's principal port. */
  ghost predicate Leaf(n: NetState, q: Port) {
    VarPort(n, q) && Peer(n, q).At? && !RepPrincipal(n, Peer(n, q))
  }

  /** What lies strictly below `p` lies below one of the copies of the replicator wired to `p`. */
  lemma {:induction false} BelowStep(n: NetState, q: Port, p: Port)
    requires Symmetric(n) && Rooted(n) && VarPort(n, q) && Below(n, q, p) && q != p
    ensures
      var r := Peer(n, p);
      && RepPrincipal(n, r) && r.slot > p.slot && IsPort(n, r)
      && VarPort(n, Addr(r.slot, Aux0)) && VarPort(n, Addr(r.slot, Aux1))
      && (Below(n, q, Addr(r.slot, Aux0)) || Below(n, q, Addr(r.slot, Aux1)))
    decreases q.slot
  {
    assert RootedAt(n, q.slot);
    var up := Parent(n, q);
    if up == p {
      assert Peer(n, p) == Addr(q.slot, Principal);
      assert Below(n, q, q);
      assert q.kind.Aux0? || q.kind.Aux1?;
    } else {
      BelowStep(n, up, p);
      var r := Peer(n, p);
      if Below(n, up, Addr(r.slot, Aux0)) {
        BelowExtend(n, q, Addr(r.slot, Aux0));
      } else {
        BelowExtend(n, q, Addr(r.slot, Aux1));
      }
    }
  }

  lemma BelowExtend(n: NetState, q: Port, p: Port)
    requires Rooted(n) && VarPort(n, q) && AgentOf(n, q.slot).Replicator?
    requires RootedAt(n, q.slot) && Below(n, Parent(n, q), p)
    ensures Below(n, q, p)
  {
  }

  lemma {:induction false} BelowTrans(n: NetState, q: Port, m: Port, p: Port)
    requires Rooted(n) && VarPort(n, q) && VarPort(n, m) && Below(n, q, m) && Below(n, m, p)
    ensures Below(n, q, p)
    decreases q.slot
  {
    if q != m {
      assert RootedAt(n, q.slot);
      BelowTrans(n, Parent(n, q), m, p);
    }
  }

  lemma {:induction false} BelowOwner(n: NetState, q: Port, p: Port)
    requires Rooted(n) && VarPort(n, q) && VarPort(n, p) && AgentOf(n, p.slot).FanAbs?
    ensures Below(n, q, p) <==> Owner(n, q) == p
    decreases q.slot
  {
    if AgentOf(n, q.slot).Replicator? {
      assert RootedAt(n, q.slot);
      BelowOwner(n, Parent(n, q), p);
    }
  }

  // ---------------------------------------------------------------------------------------------
  // Collecting occurrences

  /** `occ'` is `occ` with exactly the occurrences below `p` mapped to `id`. */
  ghost predicate Collected(n: NetState, p: Port, id: nat, occ: Occ, occ': Occ)
    requires Rooted(n)
  {
    && (forall q :: q in occ' <==> q in occ || (Leaf(n, q) && Below(n, q, p)))
    && (forall q :: q in occ' ==> occ'[q] == if Leaf(n, q) && Below(n, q, p) then id else occ[q])
  }

  ghost predicate Removed(n: NetState, p: Port, occ: Occ, occ': Occ)
    requires Rooted(n)
  {
    && (forall q :: q in occ' <==> q in occ && !(Leaf(n, q) && Below(n, q, p)))
    && (forall q :: q in occ' ==> occ'[q] == occ[q])
  }

  /** The occurrences below a copied port are those below its two copies. */
  lemma SplitBelow(n: NetState, p: Port, q: Port)
    requires Symmetric(n) && Rooted(n) && VarPort(n, p) && RepPrincipal(n, Peer(n, p)) && Leaf(n, q)
    ensures
      var r := Peer(n, p);
      && VarPort(n, Addr(r.slot, Aux0)) && VarPort(n, Addr(r.slot, Aux1)) && r == Addr(r.slot, Principal) &&
          r.slot > p.slot
      && (Below(n, q, p) <==> Below(n, q, Addr(r.slot, Aux0)) || Below(n, q, Addr(r.slot, Aux1)))
  {
    CopyPorts(n, p);
    var r := Peer(n, p);
    if Below(n, q, p) {
      BelowStep(n, q, p);
    }
    if Below(n, q, Addr(r.slot, Aux0)) {
      BelowTrans(n, q, Addr(r.slot, Aux0), p);
    }
    if Below(n, q, Addr(r.slot, Aux1)) {
      BelowTrans(n, q, Addr(r.slot, Aux1), p);
    }
  }

  lemma CopyPorts(n: NetState, p: Port)
    requires Symmetric(n) && Rooted(n) && VarPort(n, p) && RepPrincipal(n, Peer(n, p))
    ensures
      var r := Peer(n, p);
      && VarPort(n, Addr(r.slot, Aux0)) && VarPort(n, Addr(r.slot, Aux1)) && r == Addr(r.slot, Principal) &&
          r.slot > p.slot
      && Below(n, Addr(r.slot, Aux0), p) && Below(n, Addr(r.slot, Aux1), p)
  {
    var r := Peer(n, p);
    assert IsPort(n, r) && Peer(n, r) == p;
    assert RootedAt(n, r.slot);
    BelowExtend(n, Addr(r.slot, Aux0), p);
    BelowExtend(n, Addr(r.slot, Aux1), p);
  }

  /** Without a replicator on `p`, the only possible occurrence below it is `p` itself. */
  lemma OnlySelf(n: NetState, p: Port, q: Port)
    requires Symmetric(n) && Rooted(n) && VarPort(n, p) && !RepPrincipal(n, Peer(n, p)) && VarPort(n, q)
    ensures Below(n, q, p) <==> q == p
  {
    if Below(n, q, p) && q != p {
      BelowStep(n, q, p);
    }
  }

  lemma {:induction false} CollectExact(n: NetState, p: Port, id: nat, occ: Occ, fuel: nat)
    requires Symmetric(n) && Rooted(n) && VarPort(n, p)
    requires fuel + p.slot > |n.arena.slots|
    ensures CollectOcc(n, p, id, occ, fuel).Some?
    ensures Collected(n, p, id, occ, CollectOcc(n, p, id, occ, fuel).value)
    decreases fuel
  {
    var peer := Peer(n, p);
    if RepPrincipal(n, peer) {
      CopyPorts(n, p);
      var a0, a1 := peer.(kind := Aux0), peer.(kind := Aux1);
      CollectExact(n, a0, id, occ, fuel - 1);
      var occ1 := CollectOcc(n, a0, id, occ, fuel - 1).value;
      CollectExact(n, a1, id, occ1, fuel - 1);
      var occ2 := CollectOcc(n, a1, id, occ1, fuel - 1).value;
      forall q | Leaf(n, q)
        ensures Below(n, q, p) <==> Below(n, q, a0) || Below(n, q, a1)
      {
        SplitBelow(n, p, q);
      }
      assert Collected(n, p, id, occ, occ2);
    } else {
      forall q | Leaf(n, q)
        ensures Below(n, q, p) <==> q == p
      {
        OnlySelf(n, p, q);
      }
    }
  }

  lemma {:induction false} RemoveExact(n: NetState, p: Port, occ: Occ, fuel: nat)
    requires Symmetric(n) && Rooted(n) && VarPort(n, p)
    requires fuel + p.slot > |n.arena.slots|
    ensures RemoveOcc(n, p, occ, fuel).Some?
    ensures Removed(n, p, occ, RemoveOcc(n, p, occ, fuel).value)
    decreases fuel
  {
    var peer := Peer(n, p);
    if RepPrincipal(n, peer) {
      CopyPorts(n, p);
      var a0, a1 := peer.(kind := Aux0), peer.(kind := Aux1);
      RemoveExact(n, a0, occ, fuel - 1);
      var occ1 := RemoveOcc(n, a0, occ, fuel - 1).value;
      RemoveExact(n, a1, occ1, fuel - 1);
      var occ2 := RemoveOcc(n, a1, occ1, fuel - 1).value;
      forall q | Leaf(n, q)
        ensures Below(n, q, p) <==> Below(n, q, a0) || Below(n, q, a1)
      {
        SplitBelow(n, p, q);
      }
      assert Removed(n, p, occ, occ2);
    } else {
      forall q | Leaf(n, q)
        ensures Below(n, q, p) <==> q == p
      {
        OnlySelf(n, p, q);
      }
    }
  }

  // ---------------------------------------------------------------------------------------------
  // The readback of a wired term

  /** The occurrence map holds exactly the occurrences of the abstractions being read, `act`. */
  ghost predicate OccExact(n: NetState, occ: Occ, act: map<Port, nat>)
    requires Rooted(n)
  {
    && (forall q :: q in occ <==> Leaf(n, q) && Owner(n, q) in act)
    && (forall q :: q in occ ==> occ[q] == act[Owner(n, q)])
  }

  lemma OccUnique(n: NetState, occ: Occ, occ': Occ, act: map<Port, nat>)
    requires Rooted(n) && OccExact(n, occ, act) && OccExact(n, occ', act)
    ensures occ == occ'
  {
    assert forall q :: q in occ <==> q in occ';
  }

  /** Entering an abstraction adds exactly its own occurrences. */
  lemma EnterAbs(n: NetState, v: Port, id: nat, occ: Occ, act: map<Port, nat>, fuel: nat)
    requires Symmetric(n) && Rooted(n) && OccExact(n, occ, act)
    requires VarPort(n, v) && AgentOf(n, v.slot).FanAbs? && fuel > |n.arena.slots|
    ensures CollectOcc(n, v, id, occ, fuel).Some?
    ensures OccExact(n, CollectOcc(n, v, id, occ, fuel).value, act[v := id])
  {
    CollectExact(n, v, id, occ, fuel);
    forall q | Leaf(n, q)
      ensures Below(n, q, v) <==> Owner(n, q) == v
    {
      BelowOwner(n, q, v);
    }
  }

  /** Leaving it removes them again. */
  lemma LeaveAbs(n: NetState, v: Port, id: nat, occ: Occ, act: map<Port, nat>, fuel: nat)
    requires Symmetric(n) && Rooted(n) && v !in act && OccExact(n, occ, act[v := id])
    requires VarPort(n, v) && AgentOf(n, v.slot).FanAbs? && fuel > |n.arena.slots|
    ensures RemoveOcc(n, v, occ, fuel).Some?
    ensures OccExact(n, RemoveOcc(n, v, occ, fuel).value, act)
  {
    RemoveExact(n, v, occ, fuel);
    forall q | Leaf(n, q)
      ensures Below(n, q, v) <==> Owner(n, q) == v
    {
      BelowOwner(n, q, v);
    }
  }

  /**
   The scopes of source and readback agree on the free names of `e`: each is delivered by an
   abstraction being read, under the identifier that stands for the name's binder.
   */
  ghost predicate SameScope(n: NetState, e: Ast, env: Env, act: map<Port, nat>, ids: map<nat, nat>, db: map<string,
      nat>)
    requires Rooted(n)
  {
    forall x :: x in Frees(e) ==>
      && x in env && VarPort(n, env[x].port)
      && Owner(n, env[x].port) in act && act[Owner(n, env[x].port)] in ids
      && x in db && ids[act[Owner(n, env[x].port)]] == db[x]
  }

  /** The parts of the reading state that every case needs. */
  ghost predicate Reading(n: NetState, base: nat, act: map<Port, nat>, ids: map<nat, nat>, occ: Occ, next: nat) {
    && Symmetric(n) && Rooted(n) && OccExact(n, occ, act)
    && (forall p :: p in act ==> p.At? && p.slot < base)
    && (forall v :: v in ids ==> v < next)
  }

  /** A port that delivers a variable is read where the variable is used, not where it is copied. */
  ghost predicate UsedHere(n: NetState, p: Port) {
    VarPort(n, p) ==> Leaf(n, p)
  }

  function Size(e: Ast): nat {
    match e
    case Abs(_, b) => 1 + Size(b)
    case App(f, x) => 1 + Size(f) + Size(x)
    case Rep(_, _, _, body) => Size(body)
    case Era(_, body) => Size(body)
    case _ => 1
  }

  ghost predicate ReadsAs(n: NetState, p: Port, occ: Occ, next: nat, fuel: nat, ids: map<nat, nat>, depth: nat,
      t: DTm) {
    var r := PsiS(n, p, occ, next, fuel);
    r.Read? && r.occ == occ && r.next >= next && IrTerm(r.ir, ids, depth) == t
  }

  lemma {:induction false} ReadWired(n: NetState, e: Ast, base: nat, env: Env, level: nat, ul: map<string, nat>,
      act: map<Port, nat>, ids: map<nat, nat>, db: map<string, nat>, depth: nat, occ: Occ, next: nat, fuel: nat)
    requires Pure(e) && Frag(e) && Wired(n, e, base, env, level, ul)
    requires Reading(n, base, act, ids, occ, next) && SameScope(n, e, env, act, ids, db)
    requires UsedHere(n, ResultPort(e, base, env, level, ul))
    requires fuel > |n.arena.slots| + Size(e)
    ensures ReadsAs(n, ResultPort(e, base, env, level, ul), occ, next, fuel, ids, depth, Collapse(e, db, depth))
    decreases e, 1
  {
    match e
    case Name(x) =>
      assert x in Frees(e);
    case Abs(x, b) => ReadAbs(n, x, b, base, env, level, ul, act, ids, db, depth, occ, next, fuel);
    case App(f, x) => ReadApp(n, f, x, base, env, level, ul, act, ids, db, depth, occ, next, fuel);
    case Rep(s, a, b, body) => ReadRep(n, s, a, b, body, base, env, level, ul, act, ids, db, depth, occ, next, fuel);
    case Era(s, body) => ReadWired(n, body, base, env, level, ul, act, ids, db, depth, occ, next, fuel);
  }

  lemma {:induction false} ReadAbs(n: NetState, x: string, b: Ast, base: nat, env: Env, level: nat, ul: map<string,
      nat>,
      act: map<Port, nat>, ids: map<nat, nat>, db: map<string, nat>, depth: nat, occ: Occ, next: nat, fuel: nat)
    requires Pure(Abs(x, b)) && Frag(Abs(x, b)) && Wired(n, Abs(x, b), base, env, level, ul)
    requires Reading(n, base, act, ids, occ, next) && SameScope(n, Abs(x, b), env, act, ids, db)
    requires fuel > |n.arena.slots| + Size(Abs(x, b))
    ensures ReadsAs(n, Addr(base, Principal), occ, next, fuel, ids, depth, Collapse(Abs(x, b), db, depth))
    decreases Abs(x, b), 0
  {
    hide Symmetric, Rooted, OccExact, CollectOcc, RemoveOcc, Wired, PsiS, SameScope;
    var p, v := Addr(base, Principal), Addr(base, Aux1);
    var inner := AbsEnv(env, x, base, level);
    AbsFacts(n, x, b, base, env, level, ul, act, occ);
    EnterAbs(n, v, next, occ, act, fuel);
    var occ1 := CollectOcc(n, v, next, occ, fuel).value;
    assert SameScope(n, b, inner, act[v := next], ids[next := depth], db[x := depth]) by {
      AbsScope(n, x, b, base, env, level, act, ids, db, depth, next);
    }
    ReadWired(n, b, base + 1, inner, level, ul, act[v := next], ids[next := depth], db[x := depth], depth + 1, occ1,
        next + 1, fuel - 1);
    LeaveAbs(n, v, next, occ1, act, fuel);
    OccUnique(n, occ, RemoveOcc(n, v, occ1, fuel).value, act);
    PsiAbsStep(n, p, occ, next, fuel);
  }

  /** One step of readback into an abstraction. */
  lemma PsiAbsStep(n: NetState, p: Port, occ: Occ, next: nat, fuel: nat)
    requires p.At? && p.kind.Principal? && AgentOf(n, p.slot).FanAbs? && p !in occ && fuel > 0
    requires CollectOcc(n, p.(kind := Aux1), next, occ, fuel).Some?
    requires var occ1 := CollectOcc(n, p.(kind := Aux1), next, occ, fuel).value;
      var r := PsiS(n, Peer(n, p.(kind := Aux0)), occ1, next + 1, fuel - 1);
      r.Read? && RemoveOcc(n, p.(kind := Aux1), r.occ, fuel).Some?
    ensures
      var occ1 := CollectOcc(n, p.(kind := Aux1), next, occ, fuel).value;
      var r := PsiS(n, Peer(n, p.(kind := Aux0)), occ1, next + 1, fuel - 1);
      PsiS(n, p, occ, next, fuel) == Read(IAbs(next, r.ir), RemoveOcc(n, p.(kind := Aux1), r.occ, fuel).value, r.next)
  {
    assert PsiS(n, p, occ, next, fuel) == PsiAbs(n, p, occ, next, fuel);
  }

  /** One step of readback into an application. */
  lemma PsiAppStep(n: NetState, p: Port, occ: Occ, next: nat, fuel: nat)
    requires p.At? && p.kind.Aux0? && AgentOf(n, p.slot).FanApp? && p !in occ && fuel > 0
    requires
      var rf := PsiS(n, Peer(n, p.(kind := Principal)), occ, next, fuel - 1);
      rf.Read? && PsiS(n, Peer(n, p.(kind := Aux1)), rf.occ, rf.next, fuel - 1).Read?
    ensures
      var rf := PsiS(n, Peer(n, p.(kind := Principal)), occ, next, fuel - 1);
      var rx := PsiS(n, Peer(n, p.(kind := Aux1)), rf.occ, rf.next, fuel - 1);
      PsiS(n, p, occ, next, fuel) == Read(IApp(rf.ir, rx.ir), rx.occ, rx.next)
  {
    assert PsiS(n, p, occ, next, fuel) == PsiApp(n, p, occ, next, fuel);
  }

  lemma AbsFacts(n: NetState, x: string, b: Ast, base: nat, env: Env, level: nat, ul: map<string, nat>,
      act: map<Port, nat>, occ: Occ)
    requires Frag(Abs(x, b)) && Wired(n, Abs(x, b), base, env, level, ul)
    requires Rooted(n) && OccExact(n, occ, act)
    ensures
      var inner := AbsEnv(env, x, base, level);
      && AgentOf(n, base).FanAbs? && VarPort(n, Addr(base, Aux1)) && Addr(base, Principal) !in occ
      && Peer(n, Addr(base, Aux0)) == ResultPort(b, base + 1, inner, level, ul)
      && UsedHere(n, ResultPort(b, base + 1, inner, level, ul))
      && Wired(n, b, base + 1, inner, level, ul)
  {
  }

  lemma AbsScope(n: NetState, x: string, b: Ast, base: nat, env: Env, level: nat,
      act: map<Port, nat>, ids: map<nat, nat>, db: map<string, nat>, depth: nat, next: nat)
    requires Rooted(n) && AgentOf(n, base).FanAbs? && VarPort(n, Addr(base, Aux1))
    requires forall p :: p in act ==> p.At? && p.slot < base
    requires forall v :: v in ids ==> v < next
    requires SameScope(n, Abs(x, b), env, act, ids, db)
    ensures SameScope(n, b, AbsEnv(env, x, base, level), act[Addr(base, Aux1) := next], ids[next := depth],
      db[x := depth])
  {
    forall y | y in Frees(b) && y != x
      ensures y in Frees(Abs(x, b))
    {
    }
  }

  lemma {:induction false} ReadApp(n: NetState, f: Ast, x: Ast, base: nat, env: Env, level: nat, ul: map<string, nat>,
      act: map<Port, nat>, ids: map<nat, nat>, db: map<string, nat>, depth: nat, occ: Occ, next: nat, fuel: nat)
    requires Pure(App(f, x)) && Frag(App(f, x)) && Wired(n, App(f, x), base, env, level, ul)
    requires Reading(n, base, act, ids, occ, next) && SameScope(n, App(f, x), env, act, ids, db)
    requires fuel > |n.arena.slots| + Size(App(f, x))
    ensures ReadsAs(n, Addr(base, Aux0), occ, next, fuel, ids, depth, Collapse(App(f, x), db, depth))
    decreases App(f, x), 0
  {
    hide Symmetric, Rooted, OccExact, Wired, PsiS;
    AppFacts(n, f, x, base, env, level, ul, act, occ);
    ReadWired(n, f, base + 1, env, level, ul, act, ids, db, depth, occ, next, fuel - 1);
    var r := PsiS(n, ResultPort(f, base + 1, env, level, ul), occ, next, fuel - 1);
    ReadWired(n, x, base + 1 + Count(f), env, level + 1, ul, act, ids, db, depth, occ, r.next, fuel - 1);
    PsiAppStep(n, Addr(base, Aux0), occ, next, fuel);
  }

  lemma AppFacts(n: NetState, f: Ast, x: Ast, base: nat, env: Env, level: nat, ul: map<string, nat>, act: map<Port,
      nat>, occ: Occ)
    requires Frag(App(f, x)) && Wired(n, App(f, x), base, env, level, ul)
    requires Rooted(n) && OccExact(n, occ, act)
    ensures
      var pf, px := ResultPort(f, base + 1, env, level, ul), ResultPort(x, base + 1 + Count(f), env, level + 1, ul);
      && AgentOf(n, base).FanApp? && Addr(base, Aux0) !in occ
      && Peer(n, Addr(base, Principal)) == pf && Peer(n, Addr(base, Aux1)) == px
      && UsedHere(n, pf) && UsedHere(n, px)
      && Wired(n, f, base + 1, env, level, ul) && Wired(n, x, base + 1 + Count(f), env, level + 1, ul)
  {
  }

  lemma {:induction false} ReadRep(n: NetState, s: Ast, a: string, b: string, body: Ast, base: nat, env: Env,
      level: nat, ul: map<string, nat>,
      act: map<Port, nat>, ids: map<nat, nat>, db: map<string, nat>, depth: nat, occ: Occ, next: nat, fuel: nat)
    requires Pure(Rep(s, a, b, body)) && Frag(Rep(s, a, b, body)) && Wired(n, Rep(s, a, b, body), base, env, level, ul)
    requires Reading(n, base, act, ids, occ, next) && SameScope(n, Rep(s, a, b, body), env, act, ids, db)
    requires UsedHere(n, ResultPort(Rep(s, a, b, body), base, env, level, ul))
    requires fuel > |n.arena.slots| + Size(Rep(s, a, b, body))
    ensures ReadsAs(n, ResultPort(Rep(s, a, b, body), base, env, level, ul), occ, next, fuel, ids, depth,
      Collapse(Rep(s, a, b, body), db, depth))
    decreases Rep(s, a, b, body), 0
  {
    hide Symmetric, OccExact, PsiS;
    var la, lb := LevelOf(ul, a, level), LevelOf(ul, b, level);
    var r, a0, a1 := Addr(base, Principal), Addr(base, Aux0), Addr(base, Aux1);
    assert s.n in Frees(s) && s.n in Frees(Rep(s, a, b, body));
    assert RootedAt(n, base);
    assert VarPort(n, a0) && VarPort(n, a1) && Parent(n, a0) == env[s.n].port && Parent(n, a1) == env[s.n].port;
    assert Owner(n, a0) == Owner(n, env[s.n].port) && Owner(n, a1) == Owner(n, env[s.n].port);
    var inner := RepEnv(env, a, b, base, la, lb);
    var db1 := db[a := db[s.n]][b := db[s.n]];
    assert SameScope(n, body, inner, act, ids, db1) by {
      forall y | y in Frees(body) && y != a && y != b
        ensures y in Frees(Rep(s, a, b, body))
      {
      }
    }
    ReadWired(n, body, base + 1, inner, level, ul, act, ids, db1, depth, occ, next, fuel);
  }

  // ---------------------------------------------------------------------------------------------
  // Elaborated nets are rooted

  ghost predicate EnvBefore(n: NetState, e: Ast, env: Env, base: nat) {
    forall x :: x in Frees(e) ==> x in env && VarPort(n, env[x].port) && env[x].port.slot < base
  }

  lemma {:induction false} WiredRooted(n: NetState, e: Ast, base: nat, env: Env, level: nat, ul: map<string, nat>,
      r: nat)
    requires Pure(e) && Frag(e) && Wired(n, e, base, env, level, ul) && EnvBefore(n, e, env, base)
    requires base <= r < base + Count(e) && AgentOf(n, r).Replicator?
    ensures RootedAt(n, r)
    decreases e, 1
  {
    hide LevelOf, RootedAt;
    match e
    case Abs(x, b) =>
      assert VarPort(n, Addr(base, Aux1));
      WiredRooted(n, b, base + 1, AbsEnv(env, x, base, level), level, ul, r);
    case App(f, x) => WiredRootedApp(n, f, x, base, env, level, ul, r);
    case Rep(s, a, b, body) => WiredRootedRep(n, s, a, b, body, base, env, level, ul, r);
    case Era(s, body) =>
      assert Count(s) == 0;
      WiredRooted(n, body, base, env, level, ul, r);
    case Name(_) =>
  }

  lemma {:induction false} WiredRootedApp(n: NetState, f: Ast, x: Ast, base: nat, env: Env, level: nat,
      ul: map<string, nat>, r: nat)
    requires var e := App(f, x);
      && Pure(e) && Frag(e) && Wired(n, e, base, env, level, ul) && EnvBefore(n, e, env, base)
      && base <= r < base + Count(e) && AgentOf(n, r).Replicator?
    ensures RootedAt(n, r)
    decreases App(f, x), 0
  {
    hide LevelOf, RootedAt;
    if r < base + 1 + Count(f) {
      WiredRooted(n, f, base + 1, env, level, ul, r);
    } else {
      WiredRooted(n, x, base + 1 + Count(f), env, level + 1, ul, r);
    }
  }

  lemma {:induction false} WiredRootedRep(n: NetState, s: Ast, a: string, b: string, body: Ast, base: nat, env: Env,
      level: nat, ul: map<string, nat>, r: nat)
    requires var e := Rep(s, a, b, body);
      && Pure(e) && Frag(e) && Wired(n, e, base, env, level, ul) && EnvBefore(n, e, env, base)
      && base <= r < base + Count(e) && AgentOf(n, r).Replicator?
    ensures RootedAt(n, r)
    decreases Rep(s, a, b, body), 0
  {
    hide LevelOf;
    assert s.n in Frees(s) && Count(s) == 0;
    assert VarPort(n, Addr(base, Aux0)) && VarPort(n, Addr(base, Aux1));
    if r > base {
      WiredRooted(n, body, base + 1, RepEnv(env, a, b, base, LevelOf(ul, a, level), LevelOf(ul, b, level)), level, ul,
          r);
    }
  }

  /**
   Readback inverts elaboration: for every closed pure term with distinct binders, redexes
   included, and for every depth of copying, the net that elaboration builds reads back as a
   term α-equivalent to the source with copies identified and erasures dropped.
   */
  lemma ReadbackInvertsElaboration(capacity: nat, e: Ast, ul: map<string, nat>, next: nat, fuel: nat)
    requires Pure(e) && UniqueBinders(e) && Frees(e) == {}
    requires Elaborate(NewNet(capacity), 0, map[], [], e, ul).Ok?
    requires fuel > Count(e) + 1 + Size(e)
    ensures
      var o := Elaborate(NewNet(capacity), 0, map[], [], e, ul).value;
      var r := PsiS(o.net, o.port, map[], next, fuel);
      r.Read? && IrTerm(r.ir, map[], 0) == Collapse(e, map[], 0) && r.occ == map[]
  {
    hide Elaborate, PsiS, Wired;
    PureFrag(e);
    var n0 := NewNet(capacity);
    NewNetInv(capacity);
    ElaborateKeeps(n0, 0, map[], [], e, ul);
    var o := Elaborate(n0, 0, map[], [], e, ul).value;
    var n := o.net;
    forall r | 0 < r < |n.arena.slots| && AgentOf(n, r).Replicator?
      ensures RootedAt(n, r)
    {
      WiredRooted(n, e, 1, map[], 0, ul, r);
    }
    assert !VarPort(n, o.port) by {
      assert e.Abs? || e.App? by { ClosedHead(e); }
      HeadFacts(n, e, ul);
    }
    assert OccExact(n, map[], map[]);
    ReadWired(n, e, 1, map[], 0, ul, map[], map[], map[], 0, map[], next, fuel);
  }

  lemma HeadFacts(n: NetState, e: Ast, ul: map<string, nat>)
    requires Frag(e) && (e.Abs? || e.App?) && Wired(n, e, 1, map[], 0, ul)
    ensures !VarPort(n, ResultPort(e, 1, map[], 0, ul))
  {
  }

  lemma ClosedHead(e: Ast)
    requires Pure(e)
    ensures e.Abs? || e.App? || Frees(e) != {}
  {
    match e
    case Name(n) => assert n in Frees(e);
    case Rep(s, _, _, _) => assert s.n in Frees(s) && s.n in Frees(e);
    case Era(s, _) => assert s.n in Frees(s) && s.n in Frees(e);
    case _ =>
  }

  lemma PureFrag(e: Ast)
    requires Pure(e)
    ensures Frag(e)
  {
  }
}
