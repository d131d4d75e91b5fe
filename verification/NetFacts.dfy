/**
 Invariants of a net under construction: wires are symmetric, a wire once laid is never
 overwritten, and the frontiers index exactly the redexes.
 */
module NetFacts {
  import opened Arenas
  import opened Nets

  /** A port of an allocated agent; a free agent has only its principal port. */
  predicate IsPort(n: NetState, p: Port) {
    && p.At? && 0 < p.slot < |n.arena.slots| && p.gen == 0
    && (AgentOf(n, p.slot).FreeAgent? ==> p.kind.Principal?)
  }

  /** Nothing was ever retired, so every slot is in its first generation. */
  ghost predicate Unretired(n: NetState) {
    && n.arena.free == []
    && |n.arena.slots| > 0
    && forall i :: 0 <= i < |n.arena.slots| ==> n.arena.slots[i].gen == 0
  }

  /** Every wire can be followed back. */
  ghost predicate Symmetric(n: NetState) {
    forall p :: IsPort(n, p) && Peer(n, p).At? ==> IsPort(n, Peer(n, p)) && Peer(n, Peer(n, p)) == p
  }

  /** A wire between `a` and `b`, readable from both ends. */
  predicate Linked(n: NetState, a: Port, b: Port) {
    IsPort(n, a) && IsPort(n, b) && Peer(n, a) == b && Peer(n, b) == a
  }

  predicate ActiveWire(n: NetState, a: Port, b: Port) {
    Linked(n, a, b) && a.kind.Principal? && b.kind.Principal?
  }

  predicate CandidateWire(n: NetState, r: Port, a: Port) {
    Linked(n, r, a) && r.kind.Principal? && IsRepPort(n, r) && a.kind.Aux0? && IsAppPort(n, a)
  }

  ghost predicate Indexed1(n: NetState, a: Port, b: Port) {
    exists lo :: lo in n.f1 && (n.f1[lo] == ActivePair(a, b, lo) || n.f1[lo] == ActivePair(b, a, lo))
  }

  ghost predicate Indexed2(n: NetState, r: Port, a: Port) {
    exists lo :: lo in n.f2 && n.f2[lo] == C4Candidate(r, a, lo)
  }

  /** The first frontier holds the active pairs of the net, each under one path, and nothing else. */
  ghost predicate Frontier1Exact(n: NetState) {
    && (forall lo :: lo in n.f1 ==> n.f1[lo].lo == lo && ActiveWire(n, n.f1[lo].p0, n.f1[lo].p1))
    && (forall a, b :: ActiveWire(n, a, b) ==> Indexed1(n, a, b))
    && (forall lo, ro :: lo in n.f1 && ro in n.f1 && lo != ro ==>
        n.f1[lo].p0 != n.f1[ro].p0 && n.f1[lo].p0 != n.f1[ro].p1)
  }

  /** The second frontier holds the replicators facing an application result, each under one path, and nothing else. */
  ghost predicate Frontier2Exact(n: NetState) {
    && (forall lo :: lo in n.f2 ==> n.f2[lo].lo == lo && CandidateWire(n, n.f2[lo].rep, n.f2[lo].app))
    && (forall r, a :: CandidateWire(n, r, a) ==> Indexed2(n, r, a))
    && (forall lo, ro :: lo in n.f2 && ro in n.f2 && lo != ro ==> n.f2[lo].rep != n.f2[ro].rep)
  }

  /** The erased bit of a replicator says exactly that the port faces an eraser. */
  ghost predicate ErasedBitsExact(n: NetState) {
    forall i {:trigger n.arena.slots[i]} :: 0 <= i < |n.arena.slots| ==>
      var s := n.arena.slots[i];
      && (s.erased0 <==> s.agent.Replicator? && s.aux0.Eraser?)
      && (s.erased1 <==> s.agent.Replicator? && s.aux1.Eraser?)
  }

  ghost predicate Inv(n: NetState) {
    Unretired(n) && Symmetric(n) && Frontier1Exact(n) && Frontier2Exact(n) && ErasedBitsExact(n)
  }

  /** `m` is `n` with more agents and wires: whatever was laid stays. */
  ghost predicate Ext(n: NetState, m: NetState) {
    && |n.arena.slots| <= |m.arena.slots|
    && (forall i {:trigger m.arena.slots[i]} :: 0 <= i < |n.arena.slots| ==>
        SameLabel(n.arena.slots[i], m.arena.slots[i]))
    && (forall p :: IsPort(n, p) && !Peer(n, p).Null? ==> Peer(m, p) == Peer(n, p))
    && (forall lo :: lo in n.f1 ==> lo in m.f1 && m.f1[lo] == n.f1[lo])
    && (forall lo :: lo in n.f2 ==> lo in m.f2 && m.f2[lo] == n.f2[lo])
  }

  predicate SameLabel(s: Slot, t: Slot) {
    s.agent == t.agent && s.data == t.data && s.delta0 == t.delta0 && s.delta1 == t.delta1
  }

  lemma ExtTrans(n: NetState, m: NetState, k: NetState)
    requires Ext(n, m) && Ext(m, k)
    ensures Ext(n, k)
  {
    forall p | IsPort(n, p) && !Peer(n, p).Null?
      ensures Peer(k, p) == Peer(n, p)
    {
      assert Peer(m, p) == Peer(n, p);
      assert IsPort(m, p);
    }
    forall i | 0 <= i < |n.arena.slots|
      ensures SameLabel(n.arena.slots[i], k.arena.slots[i])
    {
      assert SameLabel(n.arena.slots[i], m.arena.slots[i]);
    }
  }

  lemma NewNetInv(capacity: nat)
    ensures Inv(NewNet(capacity))
  {
  }

  /** Allocation adds one agent with null ports and changes nothing else. */
  lemma AllocFacts(n: NetState, agent: Agent, data: nat, d0: int, d1: int)
    requires Inv(n)
    requires AllocAgent(n, agent, data, d0, d1).Ok?
    ensures
      var (m, p) := AllocAgent(n, agent, data, d0, d1).value;
      && p == At(|n.arena.slots|, Principal, 0)
      && |m.arena.slots| == |n.arena.slots| + 1
      && m.arena.slots[p.slot] == EMPTY.(agent := agent, data := data, delta0 := d0, delta1 := d1)
      && m.f1 == n.f1 && m.f2 == n.f2
      && (forall q {:trigger Peer(m, q)} :: InRange(n, q) ==> Peer(m, q) == Peer(n, q))
      && Inv(m) && Ext(n, m)
  {
    var (m, p) := AllocAgent(n, agent, data, d0, d1).value;
    assert forall i :: 0 <= i < |n.arena.slots| ==> m.arena.slots[i] == n.arena.slots[i];
    forall q | IsPort(m, q) && Peer(m, q).At?
      ensures IsPort(m, Peer(m, q)) && Peer(m, Peer(m, q)) == q
    {
      assert q.slot != p.slot;
      assert IsPort(n, q) && Peer(n, q) == Peer(m, q);
    }
    AllocFrontiers(n, m);
  }

  lemma AllocFrontiers(n: NetState, m: NetState)
    requires Inv(n) && Symmetric(m)
    requires |m.arena.slots| == |n.arena.slots| + 1
    requires forall i :: 0 <= i < |n.arena.slots| ==> m.arena.slots[i] == n.arena.slots[i]
    requires forall k :: SlotPort(m.arena.slots[|n.arena.slots|], k).Null?
    requires m.f1 == n.f1 && m.f2 == n.f2
    ensures Frontier1Exact(m) && Frontier2Exact(m)
  {
    forall lo | lo in m.f1
      ensures m.f1[lo].lo == lo && ActiveWire(m, m.f1[lo].p0, m.f1[lo].p1)
    {
      assert ActiveWire(n, n.f1[lo].p0, n.f1[lo].p1);
    }
    forall lo | lo in m.f2
      ensures m.f2[lo].lo == lo && CandidateWire(m, m.f2[lo].rep, m.f2[lo].app)
    {
      assert CandidateWire(n, n.f2[lo].rep, n.f2[lo].app);
    }
    forall a, b | ActiveWire(m, a, b)
      ensures Indexed1(m, a, b)
    {
      assert ActiveWire(n, a, b);
      assert Indexed1(n, a, b);
    }
    forall a, b | CandidateWire(m, a, b)
      ensures Indexed2(m, a, b)
    {
      assert CandidateWire(n, a, b);
      assert Indexed2(n, a, b);
    }
  }

  /** What laying a wire between two unwired ports does to every port. */
  lemma ConnectPeers(n: NetState, a: Port, b: Port, lo: Path)
    requires IsPort(n, a) && IsPort(n, b) && a != b
    ensures
      var m := Connect(n, a, b, lo);
      && |m.arena.slots| == |n.arena.slots|
      && m.arena.free == n.arena.free
      && (forall i {:trigger m.arena.slots[i]} :: 0 <= i < |n.arena.slots| ==>
            SameLabel(n.arena.slots[i], m.arena.slots[i]) && m.arena.slots[i].gen == n.arena.slots[i].gen
            && m.arena.slots[i].erased0 == n.arena.slots[i].erased0 && m.arena.slots[i].erased1 ==
                n.arena.slots[i].erased1)
      && (forall q {:trigger Peer(m, q)} :: IsPort(n, q) ==>
            Peer(m, q) == if q == a then b else if q == b then a else Peer(n, q))
  {
  }

  /** The path under which a new wire would be indexed is unused. */
  ghost predicate KeyFree(n: NetState, a: Port, b: Port, lo: Path) {
    && (KindOf(a).Principal? && KindOf(b).Principal? ==> lo !in n.f1)
    && (KindOf(a).Principal? && KindOf(b).Aux0? && IsRepPort(n, a) && IsAppPort(n, b) ==> lo !in n.f2)
    && (KindOf(b).Principal? && KindOf(a).Aux0? && IsRepPort(n, b) && IsAppPort(n, a) ==> lo !in n.f2)
  }

  lemma ConnectFacts(n: NetState, a: Port, b: Port, lo: Path)
    requires Inv(n)
    requires IsPort(n, a) && IsPort(n, b) && a != b
    requires Peer(n, a).Null? && Peer(n, b).Null?
    requires KeyFree(n, a, b, lo)
    ensures
      var m := Connect(n, a, b, lo);
      && Inv(m) && Ext(n, m) && Linked(m, a, b)
      && |m.arena.slots| == |n.arena.slots|
      && (forall q {:trigger Peer(m, q)} :: IsPort(n, q) ==>
            Peer(m, q) == if q == a then b else if q == b then a else Peer(n, q))
      && WireKeys(n, m, a, b, lo)
  {
    ConnectPeers(n, a, b, lo);
    ConnectErased(n, a, b, lo);
    ConnectKeys(n, a, b, lo);
    WireFacts(n, Connect(n, a, b, lo), a, b, lo);
  }

  lemma ConnectKeys(n: NetState, a: Port, b: Port, lo: Path)
    requires IsPort(n, a) && IsPort(n, b) && a != b
    ensures WireKeys(n, Connect(n, a, b, lo), a, b, lo)
  {
    var w := WritePort(WritePort(n, a, b), b, a);
    assert forall i :: AgentOf(w, i) == AgentOf(n, i);
  }

  ghost predicate WireKeys(n: NetState, m: NetState, a: Port, b: Port, lo: Path)
    requires a.At? && b.At?
  {
    && (m.f1 == if a.kind.Principal? && b.kind.Principal? then n.f1[lo := ActivePair(a, b, lo)] else n.f1)
    && (m.f2 ==
      if a.kind.Principal? && b.kind.Aux0? && IsRepPort(n, a) && IsAppPort(n, b) then n.f2[lo := C4Candidate(a, b, lo)]
      else if a.kind.Aux0? && b.kind.Principal? && IsAppPort(n, a) && IsRepPort(n, b)
        then n.f2[lo := C4Candidate(b, a, lo)]
      else n.f2)
  }

  lemma WireFacts(n: NetState, m: NetState, a: Port, b: Port, lo: Path)
    requires Inv(n) && Unretired(m) && ErasedBitsExact(m)
    requires Wire(n, m, a, b) && KeyFree(n, a, b, lo)
    requires WireKeys(n, m, a, b, lo)
    ensures Inv(m) && Ext(n, m) && Linked(m, a, b)
  {
    hide Frontier1Exact, Frontier2Exact;
    ConnectSymmetric(n, m, a, b);
    ConnectFrontier1(n, m, a, b, lo);
    ConnectFrontier2(n, m, a, b, lo);
    LinkedAfter(n, m, a, b, a, b);
    LinkedAfter(n, m, a, b, b, a);
  }

  lemma ConnectErased(n: NetState, a: Port, b: Port, lo: Path)
    requires ErasedBitsExact(n)
    requires IsPort(n, a) && IsPort(n, b) && a != b
    requires Peer(n, a).Null? && Peer(n, b).Null?
    ensures ErasedBitsExact(Connect(n, a, b, lo))
  {
    var m := Connect(n, a, b, lo);
    forall i | 0 <= i < |m.arena.slots|
      ensures var s := m.arena.slots[i];
        && (s.erased0 <==> s.agent.Replicator? && s.aux0.Eraser?)
        && (s.erased1 <==> s.agent.Replicator? && s.aux1.Eraser?)
    {
      var s := n.arena.slots[i];
      assert s.erased0 <==> s.agent.Replicator? && s.aux0.Eraser?;
    }
  }

  ghost predicate Wire(n: NetState, m: NetState, a: Port, b: Port) {
    && |m.arena.slots| == |n.arena.slots|
    && (forall i {:trigger m.arena.slots[i]} :: 0 <= i < |n.arena.slots| ==>
        SameLabel(n.arena.slots[i], m.arena.slots[i]))
    && IsPort(n, a) && IsPort(n, b) && a != b && Peer(n, a).Null? && Peer(n, b).Null?
    && (forall q {:trigger Peer(m, q)} :: IsPort(n, q) ==>
          Peer(m, q) == if q == a then b else if q == b then a else Peer(n, q))
  }

  lemma ConnectSymmetric(n: NetState, m: NetState, a: Port, b: Port)
    requires Symmetric(n) && Wire(n, m, a, b)
    ensures Symmetric(m)
  {
    forall q | IsPort(m, q) && Peer(m, q).At?
      ensures IsPort(m, Peer(m, q)) && Peer(m, Peer(m, q)) == q
    {
      assert IsPort(n, q);
      if q != a && q != b {
        var r := Peer(n, q);
        assert IsPort(n, r) && Peer(n, r) == q;
      }
    }
  }

  /** A wire that was there before is still there, and the only new one joins `a` and `b`. */
  lemma LinkedAfter(n: NetState, m: NetState, a: Port, b: Port, p: Port, q: Port)
    requires Wire(n, m, a, b)
    ensures Linked(n, p, q) ==> Linked(m, p, q) && p != a && p != b && q != a && q != b
    ensures Linked(m, p, q) ==> Linked(n, p, q) || (p == a && q == b) || (p == b && q == a)
    ensures IsRepPort(m, p) == IsRepPort(n, p) && IsAppPort(m, p) == IsAppPort(n, p)
  {
    if p.At? && p.slot < |m.arena.slots| {
      assert SameLabel(n.arena.slots[p.slot], m.arena.slots[p.slot]);
    }
    if q.At? && q.slot < |m.arena.slots| {
      assert SameLabel(n.arena.slots[q.slot], m.arena.slots[q.slot]);
    }
  }

  lemma ConnectFrontier1(n: NetState, m: NetState, a: Port, b: Port, lo: Path)
    requires Inv(n) && Wire(n, m, a, b) && KeyFree(n, a, b, lo)
    requires m.f1 == if a.kind.Principal? && b.kind.Principal? then n.f1[lo := ActivePair(a, b, lo)] else n.f1
    ensures Frontier1Exact(m)
  {
    forall k | k in m.f1
      ensures m.f1[k].lo == k && ActiveWire(m, m.f1[k].p0, m.f1[k].p1)
      ensures k in n.f1 ==> m.f1[k].p0 != a && m.f1[k].p1 != a && m.f1[k].p0 != b && m.f1[k].p1 != b
    {
      if k in n.f1 {
        assert ActiveWire(n, n.f1[k].p0, n.f1[k].p1);
        LinkedAfter(n, m, a, b, n.f1[k].p0, n.f1[k].p1);
      } else {
        LinkedAfter(n, m, a, b, a, b);
      }
    }
    forall p, q | ActiveWire(m, p, q)
      ensures Indexed1(m, p, q)
    {
      LinkedAfter(n, m, a, b, p, q);
      if Linked(n, p, q) {
        assert ActiveWire(n, p, q);
        assert Indexed1(n, p, q);
        var k :| k in n.f1 && (n.f1[k] == ActivePair(p, q, k) || n.f1[k] == ActivePair(q, p, k));
        assert k in m.f1 && m.f1[k] == n.f1[k];
      } else {
        assert m.f1[lo] == ActivePair(a, b, lo);
      }
    }
  }

  lemma ConnectFrontier2(n: NetState, m: NetState, a: Port, b: Port, lo: Path)
    requires Inv(n) && Wire(n, m, a, b) && KeyFree(n, a, b, lo)
    requires m.f2 ==
      if a.kind.Principal? && b.kind.Aux0? && IsRepPort(n, a) && IsAppPort(n, b) then n.f2[lo := C4Candidate(a, b, lo)]
      else if a.kind.Aux0? && b.kind.Principal? && IsAppPort(n, a) && IsRepPort(n, b)
        then n.f2[lo := C4Candidate(b, a, lo)]
      else n.f2
    ensures Frontier2Exact(m)
  {
    LinkedAfter(n, m, a, b, a, b);
    LinkedAfter(n, m, a, b, b, a);
    forall k | k in m.f2
      ensures m.f2[k].lo == k && CandidateWire(m, m.f2[k].rep, m.f2[k].app)
      ensures k in n.f2 && (lo !in n.f2 || k != lo) ==> m.f2[k].rep != a && m.f2[k].rep != b
    {
      if k in n.f2 {
        assert CandidateWire(n, n.f2[k].rep, n.f2[k].app);
        LinkedAfter(n, m, a, b, n.f2[k].rep, n.f2[k].app);
        LinkedAfter(n, m, a, b, n.f2[k].app, n.f2[k].rep);
      }
    }
    forall p, q | CandidateWire(m, p, q)
      ensures Indexed2(m, p, q)
    {
      LinkedAfter(n, m, a, b, p, q);
      LinkedAfter(n, m, a, b, q, p);
      if Linked(n, p, q) {
        assert CandidateWire(n, p, q);
        assert Indexed2(n, p, q);
        var k :| k in n.f2 && n.f2[k] == C4Candidate(p, q, k);
        assert k in m.f2 && m.f2[k] == n.f2[k];
      } else {
        assert m.f2[lo] == C4Candidate(p, q, lo);
      }
    }
  }

  /** Erasing an unwired auxiliary port. */
  lemma EraseFacts(n: NetState, b: Port, lo: Path)
    requires Inv(n)
    requires IsPort(n, b) && Peer(n, b).Null? && !b.kind.Principal?
    ensures
      var m := Connect(n, Eraser, b, lo);
      && Inv(m) && Ext(n, m)
      && |m.arena.slots| == |n.arena.slots|
      && (forall q {:trigger Peer(m, q)} :: IsPort(n, q) ==> Peer(m, q) == if q == b then Eraser else Peer(n, q))
      && m.f1 == n.f1 && m.f2 == n.f2
  {
    var m := Connect(n, Eraser, b, lo);
    assert forall i :: 0 <= i < |n.arena.slots| ==> SameLabel(n.arena.slots[i], m.arena.slots[i]);
    forall q | IsPort(n, q)
      ensures Peer(m, q) == if q == b then Eraser else Peer(n, q)
    {
    }
    forall q | IsPort(m, q) && Peer(m, q).At?
      ensures IsPort(m, Peer(m, q)) && Peer(m, Peer(m, q)) == q
    {
      assert IsPort(n, q) && Peer(n, q) == Peer(m, q);
    }
    EraseFrontiers(n, m, b);
    forall i | 0 <= i < |m.arena.slots|
      ensures var s := m.arena.slots[i];
        && (s.erased0 <==> s.agent.Replicator? && s.aux0.Eraser?)
        && (s.erased1 <==> s.agent.Replicator? && s.aux1.Eraser?)
    {
      var s := n.arena.slots[i];
      assert s.erased0 <==> s.agent.Replicator? && s.aux0.Eraser?;
    }
  }

  lemma EraseFrontiers(n: NetState, m: NetState, b: Port)
    requires Inv(n) && m.f1 == n.f1 && m.f2 == n.f2
    requires |m.arena.slots| == |n.arena.slots|
    requires forall i {:trigger m.arena.slots[i]} :: 0 <= i < |n.arena.slots| ==>
      SameLabel(n.arena.slots[i], m.arena.slots[i])
    requires IsPort(n, b) && Peer(n, b).Null?
    requires forall q {:trigger Peer(m, q)} :: IsPort(n, q) ==> Peer(m, q) == if q == b then Eraser else Peer(n, q)
    ensures Frontier1Exact(m) && Frontier2Exact(m)
  {
    forall p, q
      ensures ActiveWire(m, p, q) <==> ActiveWire(n, p, q)
      ensures CandidateWire(m, p, q) <==> CandidateWire(n, p, q)
    {
      if p.At? && p.slot < |m.arena.slots| {
        assert SameLabel(n.arena.slots[p.slot], m.arena.slots[p.slot]);
      }
      if q.At? && q.slot < |m.arena.slots| {
        assert SameLabel(n.arena.slots[q.slot], m.arena.slots[q.slot]);
      }
    }
    forall p, q | ActiveWire(m, p, q)
      ensures Indexed1(m, p, q)
    {
      assert Indexed1(n, p, q);
    }
    forall p, q | CandidateWire(m, p, q)
      ensures Indexed2(m, p, q)
    {
      assert Indexed2(n, p, q);
    }
  }
}
