/** The walk is recursive pre-order over exactly the reachable agents, and serialization is canonical. */
module CanonicalProof {
  import opened Common
  import opened Arenas
  import opened Nets
  import opened Canonical

  // ---------------------------------------------------------------------------------------------
  // The explicit stack computes the recursive pre-order

  /** The agent has wires to follow: a fan or a replicator. */
  predicate Branching(n: NetState, i: nat) {
    AgentOf(n, i).FanAbs? || AgentOf(n, i).FanApp? || AgentOf(n, i).Replicator?
  }

  /** Recursive pre-order: number the agent, then visit the peer of its principal port, of aux0 and of aux1. */
  function Visit(n: NetState, p: Port, order: seq<Port>): (r: seq<Port>)
    ensures order <= r
    decreases Unseen(n, order)
  {
    if !Fresh(n, p, order) then order
    else
      SeenMore(n, p, order);
      var here := order + [p];
      if !Branching(n, p.slot) then here
      else
        var first := Visit(n, Peer(n, At(p.slot, Principal, 0)), here);
        UnseenShrinks(n, here, first);
        var second := Visit(n, Peer(n, At(p.slot, Aux0, 0)), first);
        UnseenShrinks(n, first, second);
        Visit(n, Peer(n, At(p.slot, Aux1, 0)), second)
  }

  function VisitAll(n: NetState, ps: seq<Port>, order: seq<Port>): (r: seq<Port>)
    ensures order <= r
    decreases |ps|
  {
    if ps == [] then order else VisitAll(n, ps[1..], Visit(n, ps[0], order))
  }

  lemma VisitChildren(n: NetState, p: Port, order: seq<Port>)
    requires Fresh(n, p, order)
    ensures Visit(n, p, order) == VisitAll(n, Children(n, p.slot), order + [p])
  {
    var here := order + [p];
    if Branching(n, p.slot) {
      var a, b, c := Peer(n, Addr(p.slot, Principal)), Peer(n, Addr(p.slot, Aux0)), Peer(n, Addr(p.slot, Aux1));
      assert [a, b, c][1..] == [b, c] && [b, c][1..] == [c] && [c][1..] == [];
      assert VisitAll(n, [c], Visit(n, b, Visit(n, a, here))) == Visit(n, c, Visit(n, b, Visit(n, a, here)));
      assert VisitAll(n, [b, c], Visit(n, a, here)) == VisitAll(n, [c], Visit(n, b, Visit(n, a, here)));
    }
  }

  lemma UnseenShrinks(n: NetState, order: seq<Port>, r: seq<Port>)
    requires order <= r
    ensures Unseen(n, r) <= Unseen(n, order)
  {
    forall i | i in Seen(order)
      ensures i in Seen(r)
    {
      var p :| p in order && p.At? && p.slot == i;
      var j :| 0 <= j < |order| && order[j] == p;
      assert r[j] == p && p in r;
    }
  }

  lemma {:induction false} WalkVisits(n: NetState, ps: seq<Port>, rest: seq<Port>, order: seq<Port>)
    ensures Walk(n, ps + rest, order) == Walk(n, rest, VisitAll(n, ps, order))
    decreases Unseen(n, order), |ps|
  {
    if ps == [] {
      assert ps + rest == rest;
    } else {
      assert (ps + rest)[1..] == ps[1..] + rest;
      if !Fresh(n, ps[0], order) {
        WalkVisits(n, ps[1..], rest, order);
      } else {
        SeenMore(n, ps[0], order);
        var kids, next := Children(n, ps[0].slot), order + [ps[0]];
        WalkVisits(n, kids, ps[1..] + rest, next);
        UnseenShrinks(n, next, VisitAll(n, kids, next));
        VisitChildren(n, ps[0], order);
        WalkVisits(n, ps[1..], rest, VisitAll(n, kids, next));
      }
    }
  }

  /** The stack walk visits agents in recursive pre-order. */
  lemma WalkIsPreorder(n: NetState, root: Port)
    ensures Walk(n, [root], []) == Visit(n, root, [])
  {
    WalkVisits(n, [root], [], []);
    assert [root] + [] == [root];
  }

  // ---------------------------------------------------------------------------------------------
  // It numbers the reachable agents, once each

  /** A set of agents holding the root and, with every agent, its peers. */
  ghost predicate ClosedUnder(n: NetState, root: Port, s: set<nat>) {
    && (root.At? ==> root.slot in s)
    && (forall i, k {:trigger Peer(n, Addr(i, k))} :: i in s && Branching(n, i) && Peer(n, Addr(i, k)).At? ==>
        Peer(n, Addr(i, k)).slot in s)
  }

  lemma ChildrenAre(n: NetState, i: nat, p: Port)
    ensures p in Children(n, i) <==> Branching(n, i) && exists k :: p == Peer(n, Addr(i, k))
  {
    if Branching(n, i) {
      forall k
        ensures Peer(n, Addr(i, k)) in Children(n, i)
      {
        match k case Principal => case Aux0 => case Aux1 =>
      }
    }
  }

  /** Peers of numbered agents are numbered or pending. */
  ghost predicate Pending(n: NetState, todo: seq<Port>, order: seq<Port>) {
    forall i, p {:trigger p in Children(n, i)} :: i in Seen(order) && p in Children(n, i) && p.At? ==>
      p.slot in Seen(order) || p in todo
  }

  lemma {:induction false} WalkClosed(n: NetState, todo: seq<Port>, order: seq<Port>)
    requires Closed(n) && (forall p :: p in todo ==> InArena(n, p)) && Pending(n, todo, order)
    ensures
      var r := Walk(n, todo, order);
      Pending(n, [], r) && Seen(order) <= Seen(r) && forall p :: p in todo && p.At? ==> p.slot in Seen(r)
    decreases Unseen(n, order), |todo|
  {
    if todo != [] {
      var p := todo[0];
      assert todo == [p] + todo[1..];
      SeenMore(n, p, order);
      if !Fresh(n, p, order) {
        WalkClosed(n, todo[1..], order);
      } else {
        ChildrenInArena(n, p.slot);
        WalkClosed(n, Children(n, p.slot) + todo[1..], order + [p]);
      }
    }
  }

  lemma ChildrenInArena(n: NetState, i: nat)
    requires Closed(n)
    ensures forall p :: p in Children(n, i) ==> InArena(n, p)
  {
    assert forall k :: InArena(n, Peer(n, Addr(i, k)));
  }

  lemma {:induction false} WalkLeast(n: NetState, todo: seq<Port>, order: seq<Port>, s: set<nat>)
    requires Seen(order) <= s && (forall p :: p in todo && p.At? ==> p.slot in s)
    requires forall i, p {:trigger p in Children(n, i)} :: i in s && p in Children(n, i) && p.At? ==> p.slot in s
    ensures Seen(Walk(n, todo, order)) <= s
    decreases Unseen(n, order), |todo|
  {
    if todo != [] {
      var p := todo[0];
      assert p in todo && forall q :: q in todo[1..] ==> q in todo;
      SeenMore(n, p, order);
      if !Fresh(n, p, order) {
        WalkLeast(n, todo[1..], order, s);
      } else {
        WalkLeast(n, Children(n, p.slot) + todo[1..], order + [p], s);
      }
    }
  }

  /** The numbered agents are the least closed set holding the root, each numbered once. */
  lemma WalkReachable(n: NetState, root: Port)
    requires Closed(n) && InArena(n, root)
    ensures
      var order := Walk(n, [root], []);
      && Numbered(n, order)
      && ClosedUnder(n, root, Seen(order))
      && forall s :: ClosedUnder(n, root, s) ==> Seen(order) <= s
  {
    WalkNumbered(n, [root], []);
    WalkClosed(n, [root], []);
    assert root in [root];
    var order := Walk(n, [root], []);
    forall i, k | i in Seen(order) && Branching(n, i) && Peer(n, Addr(i, k)).At?
      ensures Peer(n, Addr(i, k)).slot in Seen(order)
    {
      ChildrenAre(n, i, Peer(n, Addr(i, k)));
      assert Peer(n, Addr(i, k)) in Children(n, i);
    }
    forall s | ClosedUnder(n, root, s)
      ensures Seen(order) <= s
    {
      forall i, p | i in s && p in Children(n, i) && p.At?
        ensures p.slot in s
      {
        ChildrenAre(n, i, p);
      }
      WalkLeast(n, [root], [], s);
    }
  }

  // ---------------------------------------------------------------------------------------------
  // Emission never misses a number

  lemma EmitAt(n: NetState, root: Port, j: nat)
    requires Closed(n) && InArena(n, root) && j < |Walk(n, [root], [])|
    ensures
      var order := Walk(n, [root], []);
      var r := EmitRecord(n, order[j], Numbering(order));
      && order[j].At? && order[j].slot < |n.arena.slots|
      && (r.Ok? <==> !AgentOf(n, order[j].slot).PrimAgent?) && (r.Err? ==> r.error == PrimError)
  {
    hide Walk;
    var order := Walk(n, [root], []);
    WalkReachable(n, root);
    NumberingKeys(order);
    var i := order[j].slot;
    assert order[j] in order && i in Seen(order);
    if !AgentOf(n, i).FreeAgent? && !AgentOf(n, i).PrimAgent? {
      forall k: Kind
        ensures EmitEdge(n, Addr(i, k), Numbering(order)).Ok?
      {
        assert Peer(n, Addr(i, k)) in Children(n, i);
      }
    }
  }

  lemma {:induction false} EmitFromExact(n: NetState, root: Port, j: nat)
    requires Closed(n) && InArena(n, root) && j <= |Walk(n, [root], [])|
    ensures
      var order := Walk(n, [root], []);
      var r := EmitFrom(n, order, Numbering(order), j);
      && (r.Ok? <==> forall k :: j <= k < |order| ==> order[k].At? && !AgentOf(n, order[k].slot).PrimAgent?)
      && (r.Err? ==> r.error == PrimError)
    decreases |Walk(n, [root], [])| - j
  {
    hide Walk, EmitRecord;
    if j < |Walk(n, [root], [])| {
      EmitAt(n, root, j);
      EmitFromExact(n, root, j + 1);
    }
  }

  /** A missing number is never met: serialization fails only on a reachable primitive. */
  lemma RecordsExact(n: NetState, root: Port)
    requires Closed(n) && InArena(n, root)
    ensures
      var order := Walk(n, [root], []);
      && (Records(n, root).Ok? <==> forall k :: 0 <= k < |order| ==>
          order[k].At? && !AgentOf(n, order[k].slot).PrimAgent?)
      && (Records(n, root).Err? ==> Records(n, root).error == PrimError)
  {
    EmitFromExact(n, root, 0);
  }

  // ---------------------------------------------------------------------------------------------
  // Renaming slots does not change the bytes

  /** A port of the same agent under the renaming. */
  predicate AgentMatch(phi: map<nat, nat>, p: Port, q: Port) {
    if p.At? then p.slot in phi && q.At? && q.slot == phi[p.slot] else !q.At?
  }

  /** The same port under the renaming; both sentinels are written the same way. */
  predicate PortMatch(phi: map<nat, nat>, p: Port, q: Port) {
    AgentMatch(phi, p, q) && KindOf(p) == KindOf(q)
  }

  /** What a record shows of a slot besides its wires. */
  predicate LabelMatch(s: Slot, t: Slot) {
    && s.agent == t.agent
    && (s.agent.FreeAgent? ==> s.data % FREE_ID_END == t.data % FREE_ID_END)
    && (s.agent.Replicator? ==> s.data == t.data && s.delta0 == t.delta0 && s.delta1 == t.delta1)
  }

  /** `phi` renames slots of `n` to slots of `m` injectively, carrying labels and wires. */
  ghost predicate Matches(n: NetState, m: NetState, phi: map<nat, nat>) {
    && (forall i :: i in phi ==> i < |n.arena.slots| && phi[i] < |m.arena.slots|)
    && (forall i, j :: i in phi && j in phi && phi[i] == phi[j] ==> i == j)
    && (forall i {:trigger phi[i]} :: i in phi ==> LabelMatch(n.arena.slots[i], m.arena.slots[phi[i]]))
    && (forall i, k {:trigger Peer(n, Addr(i, k))} :: i in phi && !AgentOf(n, i).FreeAgent? ==>
          PortMatch(phi, Peer(n, Addr(i, k)), Peer(m, Addr(phi[i], k))))
  }

  /** Two port lists whose agents correspond under the renaming. */
  predicate ListMatch(phi: map<nat, nat>, a: seq<Port>, b: seq<Port>) {
    |a| == |b| && forall j :: 0 <= j < |a| ==> AgentMatch(phi, a[j], b[j])
  }

  lemma FreshMatch(n: NetState, m: NetState, phi: map<nat, nat>, p: Port, q: Port, a: seq<Port>, b: seq<Port>)
    requires Matches(n, m, phi) && AgentMatch(phi, p, q) && ListMatch(phi, a, b)
    ensures Fresh(n, p, a) <==> Fresh(m, q, b)
  {
    if p.At? {
      if p.slot in Seen(a) {
        var x :| x in a && x.At? && x.slot == p.slot;
        var j :| 0 <= j < |a| && a[j] == x;
        assert b[j] in b && b[j].slot == q.slot;
      }
      if q.slot in Seen(b) {
        var x :| x in b && x.At? && x.slot == q.slot;
        var j :| 0 <= j < |b| && b[j] == x;
        assert a[j] in a && phi[a[j].slot] == phi[p.slot];
      }
    }
  }

  lemma ChildrenMatch(n: NetState, m: NetState, phi: map<nat, nat>, i: nat)
    requires Matches(n, m, phi) && i in phi
    ensures ListMatch(phi, Children(n, i), Children(m, phi[i]))
  {
    assert LabelMatch(n.arena.slots[i], m.arena.slots[phi[i]]);
    if !AgentOf(n, i).FreeAgent? && !AgentOf(n, i).PrimAgent? {
      assert forall k :: PortMatch(phi, Peer(n, Addr(i, k)), Peer(m, Addr(phi[i], k)));
    }
  }

  lemma {:induction false} WalkMatch(n: NetState, m: NetState, phi: map<nat, nat>, a: seq<Port>, b: seq<Port>,
      x: seq<Port>, y: seq<Port>)
    requires Matches(n, m, phi) && ListMatch(phi, a, b) && ListMatch(phi, x, y)
    ensures ListMatch(phi, Walk(n, a, x), Walk(m, b, y))
    decreases Unseen(n, x), |a|
  {
    hide Matches, Children, AgentMatch;
    if a != [] {
      FreshMatch(n, m, phi, a[0], b[0], x, y);
      if !Fresh(n, a[0], x) {
        WalkMatch(n, m, phi, a[1..], b[1..], x, y);
      } else {
        SeenMore(n, a[0], x);
        MatchSlot(phi, a[0], b[0]);
        ChildrenMatch(n, m, phi, a[0].slot);
        WalkMatch(n, m, phi, Children(n, a[0].slot) + a[1..], Children(m, b[0].slot) + b[1..], x + [a[0]], y + [b[0]]);
      }
    }
  }

  lemma MatchSlot(phi: map<nat, nat>, p: Port, q: Port)
    requires AgentMatch(phi, p, q) && p.At?
    ensures p.slot in phi && q.At? && q.slot == phi[p.slot]
  {
  }

  /** Corresponding agents have the same number. */
  lemma {:induction false} NumberMatch(n: NetState, m: NetState, phi: map<nat, nat>, x: seq<Port>, y: seq<Port>, i: nat)
    requires Matches(n, m, phi) && ListMatch(phi, x, y) && i in phi
    ensures i in Numbering(x) <==> phi[i] in Numbering(y)
    ensures i in Numbering(x) ==> Numbering(x)[i] == Numbering(y)[phi[i]]
    decreases |x|
  {
    hide Matches;
    if x != [] {
      NumberMatch(n, m, phi, x[..|x| - 1], y[..|y| - 1], i);
      var p := x[|x| - 1];
      assert AgentMatch(phi, p, y[|y| - 1]);
      if p.At? { Injective(n, m, phi, i, p.slot); }
    }
  }

  lemma Injective(n: NetState, m: NetState, phi: map<nat, nat>, i: nat, j: nat)
    requires Matches(n, m, phi) && i in phi && j in phi
    ensures phi[i] == phi[j] ==> i == j
  {
  }

  lemma EdgeMatch(n: NetState, m: NetState, phi: map<nat, nat>, x: seq<Port>, y: seq<Port>, i: nat, k: Kind)
    requires Matches(n, m, phi) && ListMatch(phi, x, y) && i in phi && !AgentOf(n, i).FreeAgent?
    ensures EmitEdge(n, Addr(i, k), Numbering(x)) == EmitEdge(m, Addr(phi[i], k), Numbering(y))
  {
    var p := Peer(n, Addr(i, k));
    assert PortMatch(phi, p, Peer(m, Addr(phi[i], k)));
    if p.At? { NumberMatch(n, m, phi, x, y, p.slot); }
  }

  lemma RecordMatch(n: NetState, m: NetState, phi: map<nat, nat>, x: seq<Port>, y: seq<Port>, p: Port, q: Port)
    requires Matches(n, m, phi) && ListMatch(phi, x, y) && AgentMatch(phi, p, q)
    ensures EmitRecord(n, p, Numbering(x)) == EmitRecord(m, q, Numbering(y))
  {
    hide EmitEdge, Numbering;
    if p.At? {
      var i := p.slot;
      assert LabelMatch(n.arena.slots[i], m.arena.slots[phi[i]]);
      if !AgentOf(n, i).FreeAgent? {
        EdgeMatch(n, m, phi, x, y, i, Principal);
        EdgeMatch(n, m, phi, x, y, i, Aux0);
        EdgeMatch(n, m, phi, x, y, i, Aux1);
      }
    }
  }

  lemma {:induction false} EmitMatch(n: NetState, m: NetState, phi: map<nat, nat>, x: seq<Port>, y: seq<Port>, j: nat)
    requires Matches(n, m, phi) && ListMatch(phi, x, y) && j <= |x|
    ensures EmitFrom(n, x, Numbering(x), j) == EmitFrom(m, y, Numbering(y), j)
    decreases |x| - j
  {
    hide EmitRecord, Matches, Numbering;
    if j < |x| {
      RecordMatch(n, m, phi, x, y, x[j], y[j]);
      EmitMatch(n, m, phi, x, y, j + 1);
    }
  }

  /** Nets related by a renaming of slots have the same records, so the same bytes. */
  lemma RenamedRecords(n: NetState, m: NetState, phi: map<nat, nat>, r: Port, s: Port)
    requires Matches(n, m, phi) && AgentMatch(phi, r, s)
    ensures Records(n, r) == Records(m, s)
  {
    WalkMatch(n, m, phi, [r], [s], [], []);
    EmitMatch(n, m, phi, Walk(n, [r], []), Walk(m, [s], []), 0);
  }

  lemma SerializeCanonical(n: NetState, m: NetState, phi: map<nat, nat>, r: Port, s: Port)
    requires Words(n) && Closed(n) && InArena(n, r) && Words(m) && Closed(m) && InArena(m, s)
    requires Matches(n, m, phi) && AgentMatch(phi, r, s)
    ensures Serialize(n, r) == Serialize(m, s)
  {
    RenamedRecords(n, m, phi, r, s);
  }
}
