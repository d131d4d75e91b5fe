/** Arena safety over every run, and what a handle's generation bit tells. */
module ArenaFacts {
  import opened Common
  import opened Arenas

  predicate NoDuplicates(s: seq<nat>) { forall i, j :: 0 <= i < j < |s| ==> s[i] != s[j] }

  /**
   Slots 1 and up are exactly the live ones, the free list and the outstanding reservation, each
   once; the live list and the position map are inverse.
   */
  ghost predicate Safe(a: ArenaState, reserved: set<nat>) {
    && 0 < |a.slots| && NoDuplicates(a.free)
    && (forall i :: 0 <= i < |a.live| ==> a.live[i] in a.pos && a.pos[a.live[i]] == i)
    && (forall s :: s in a.pos ==> a.pos[s] < |a.live| && a.live[a.pos[s]] == s)
    && (forall s :: s in a.pos ==> 0 < s < |a.slots| && s !in a.free && s !in reserved)
    && (forall s :: s in a.free ==> 0 < s < |a.slots| && s !in reserved)
    && (forall s :: s in reserved ==> 0 < s < |a.slots|)
    && (forall s :: 0 < s < |a.slots| ==> s in a.pos || s in a.free || s in reserved)
  }

  /** The slots `from` up to but not including `to`. */
  function Range(from: nat, to: nat): set<nat> { set s | s in Span(from, to) }

  lemma InRange(from: nat, to: nat, s: nat)
    ensures s in Span(from, to) <==> from <= s < to
    ensures s in Range(from, to) <==> from <= s < to
  {
    if from <= s < to { assert Span(from, to)[s - from] == s; }
  }

  lemma NewSafe(capacity: nat)
    ensures Safe(NewArena(capacity), {})
  {
  }

  /** The live list has no duplicates and holds exactly the keys of the position map. */
  lemma LiveExact(a: ArenaState, reserved: set<nat>, s: nat)
    requires Safe(a, reserved)
    ensures NoDuplicates(a.live) && (s in a.live <==> s in a.pos)
  {
    forall i, j | 0 <= i < j < |a.live|
      ensures a.live[i] != a.live[j]
    {
      assert a.pos[a.live[i]] == i && a.pos[a.live[j]] == j;
    }
  }

  lemma MakeLiveSafe(a: ArenaState, idx: nat, reserved: set<nat>)
    requires 0 < idx < |a.slots| && idx !in a.pos && idx !in a.free && idx !in reserved
    requires Safe(a, reserved + {idx})
    ensures Safe(MakeLive(a, idx), reserved)
  {
  }

  /** Allocation answers a slot that is neither the sentinel nor live nor reserved. */
  lemma AllocSafe(a: ArenaState, reserved: set<nat>)
    requires Safe(a, reserved) && Alloc(a).Ok?
    ensures
      var (b, idx) := Alloc(a).value;
      && Safe(b, reserved)
      && 0 < idx < |b.slots| && idx !in a.pos && idx !in reserved && idx in b.pos
  {
    if |a.free| > 0 {
      var idx := a.free[|a.free| - 1];
      assert idx in a.free;
      var rest := a.free[..|a.free| - 1];
      var c := a.(free := rest, slots := a.slots[idx := EMPTY.(gen := (a.slots[idx].gen + 1) % U32)]);
      assert idx !in rest;
      assert forall s :: s in a.free <==> s in rest || s == idx by { assert a.free == rest + [idx]; }
      MakeLiveSafe(c, idx, reserved);
    } else {
      var c := a.(slots := a.slots + [EMPTY]);
      MakeLiveSafe(c, |a.slots|, reserved);
    }
  }

  /** It fails only when the arena is full; a free slot is never past the end. */
  lemma AllocOutcome(a: ArenaState, reserved: set<nat>)
    requires Safe(a, reserved)
    ensures Alloc(a).Err? <==> a.free == [] && |a.slots| >= a.cap
    ensures Alloc(a).Err? ==> Alloc(a).error == ArenaCapacityExceeded
  {
    if |a.free| > 0 { assert a.free[|a.free| - 1] in a.free; }
  }

  lemma RetireSafe(a: ArenaState, idx: nat, reserved: set<nat>)
    requires Safe(a, reserved) && idx in a.pos
    ensures Safe(Retire(a, idx), reserved) && idx !in Retire(a, idx).pos
  {
    var b, at, n := Retire(a, idx), a.pos[idx], |a.live|;
    forall i | 0 <= i < |b.live|
      ensures b.live[i] in b.pos && b.pos[b.live[i]] == i && b.live[i] != idx
    {
      assert a.pos[a.live[i]] == i && a.pos[a.live[n - 1]] == n - 1;
    }
    forall s | s in b.pos
      ensures b.pos[s] < |b.live| && b.live[b.pos[s]] == s && s in a.pos && s != idx
    {
      assert a.live[a.pos[idx]] == idx && a.pos[a.live[n - 1]] == n - 1;
    }
    forall s | s in a.pos && s != idx
      ensures s in b.pos
    {
    }
  }

  lemma ReserveSafe(a: ArenaState, n: nat, reserved: set<nat>)
    requires Safe(a, reserved) && Reserve(a, n).Ok?
    ensures
      var (b, base) := Reserve(a, n).value;
      base == |a.slots| && Safe(b, reserved + Range(base, base + n))
  {
    var lo, hi := |a.slots|, |a.slots| + n;
    forall s: nat
      ensures s in Range(lo, hi) <==> lo <= s < hi
    {
      InRange(lo, hi, s);
    }
  }

  lemma CommitSafe(a: ArenaState, idx: nat, slot: Slot, reserved: set<nat>)
    requires Safe(a, reserved) && idx in reserved
    ensures Safe(Commit(a, idx, slot), reserved - {idx})
  {
    var c := a.(slots := a.slots[idx := slot]);
    assert reserved - {idx} + {idx} == reserved;
    MakeLiveSafe(c, idx, reserved - {idx});
  }

  lemma ReleaseSafe(a: ArenaState, base: nat, used: nat, max: nat, reserved: set<nat>)
    requires Safe(a, reserved) && Range(base + used, base + max) <= reserved
    ensures Safe(Release(a, base, used, max), reserved - Range(base + used, base + max))
  {
    var run := Span(base + used, base + max);
    var b := Release(a, base, used, max);
    forall s: nat
      ensures s in run <==> s in Range(base + used, base + max)
    {
    }
    forall i, j | 0 <= i < j < |b.free|
      ensures b.free[i] != b.free[j]
    {
      if i < |a.free| && j >= |a.free| {
        assert b.free[i] == a.free[i] && a.free[i] in a.free;
        assert b.free[j] == run[j - |a.free|] && run[j - |a.free|] in run;
      }
    }
  }

  // ---------------------------------------------------------------------------------------------
  // Runs

  datatype Event =
    | EAlloc
    | ERetire(idx: nat)
    | EReserve(n: nat)
    | ECommit(idx: nat, slot: Slot)
    | ERelease(base: nat, used: nat, max: nat)

  /** The arena with the slots currently reserved. */
  datatype World = World(a: ArenaState, reserved: set<nat>)

  /** Callers retire only live slots, and commit and release only what they reserved. */
  predicate Allowed(w: World, e: Event) {
    match e
    case EAlloc => true
    case ERetire(idx) => idx in w.a.pos
    case EReserve(_) => true
    case ECommit(idx, _) => idx in w.reserved && idx < |w.a.slots|
    case ERelease(base, used, max) => Range(base + used, base + max) <= w.reserved
  }

  /** A refused allocation or reservation changes nothing. */
  function Step(w: World, e: Event): World
    requires Allowed(w, e)
  {
    match e
    case EAlloc => (match Alloc(w.a) case Err(_) => w case Ok((b, _)) => w.(a := b))
    case ERetire(idx) => w.(a := Retire(w.a, idx))
    case EReserve(n) =>
      (match Reserve(w.a, n) case Err(_) => w case Ok((b, base)) => World(b, w.reserved + Range(base, base + n)))
    case ECommit(idx, slot) => World(Commit(w.a, idx, slot), w.reserved - {idx})
    case ERelease(base, used, max) => World(Release(w.a, base, used, max), w.reserved - Range(base + used, base + max))
  }

  lemma StepSafe(w: World, e: Event)
    requires Safe(w.a, w.reserved) && Allowed(w, e)
    ensures Safe(Step(w, e).a, Step(w, e).reserved)
  {
    hide Safe, Retire, Commit, Release, Reserve;
    match e
    case EAlloc => if Alloc(w.a).Ok? { AllocSafe(w.a, w.reserved); }
    case ERetire(idx) => RetireSafe(w.a, idx, w.reserved);
    case EReserve(n) => if Reserve(w.a, n).Ok? { ReserveSafe(w.a, n, w.reserved); }
    case ECommit(idx, slot) => CommitSafe(w.a, idx, slot, w.reserved);
    case ERelease(base, used, max) => ReleaseSafe(w.a, base, used, max, w.reserved);
  }

  /** A run: the worlds it passes through, one event between two. */
  ghost predicate Run(ws: seq<World>, es: seq<Event>) {
    && |ws| == |es| + 1
    && forall i {:trigger es[i]} :: 0 <= i < |es| ==> Allowed(ws[i], es[i]) && ws[i + 1] == Step(ws[i], es[i])
  }

  /** Every world of every run from a fresh arena is safe. */
  lemma {:induction false} RunSafe(capacity: nat, ws: seq<World>, es: seq<Event>, i: nat)
    requires Run(ws, es) && ws[0] == World(NewArena(capacity), {}) && i < |ws|
    ensures Safe(ws[i].a, ws[i].reserved)
  {
    hide Safe;
    if i == 0 {
      NewSafe(capacity);
    } else {
      RunSafe(capacity, ws, es, i - 1);
      assert Allowed(ws[i - 1], es[i - 1]);
      StepSafe(ws[i - 1], es[i - 1]);
    }
  }

  // ---------------------------------------------------------------------------------------------
  // Generations

  /** The step hands out slot `s` again. */
  predicate Reuses(w: World, e: Event, s: nat) {
    e.EAlloc? && |w.a.free| > 0 && w.a.free[|w.a.free| - 1] == s && s < |w.a.slots|
  }

  /** How often slot `s` was handed out again in the first `i` steps. */
  ghost function ReuseCount(ws: seq<World>, es: seq<Event>, s: nat, i: nat): nat
    requires |ws| == |es| + 1 && i <= |es|
  {
    if i == 0 then 0 else ReuseCount(ws, es, s, i - 1) + if Reuses(ws[i - 1], es[i - 1], s) then 1 else 0
  }

  lemma StepGeneration(w: World, e: Event, s: nat)
    requires Allowed(w, e) && s < |w.a.slots| && s !in w.reserved
    ensures s !in Step(w, e).reserved
    ensures
      var b := Step(w, e).a;
      s < |b.slots| && b.slots[s].gen == if Reuses(w, e, s) then (w.a.slots[s].gen + 1) % U32 else w.a.slots[s].gen
  {
  }

  lemma ModUnique(x: nat, m: nat, q: nat, r: nat)
    requires x == q * m + r && r < m
    ensures x % m == r
  {
    var d := x / m;
    assert x == d * m + x % m;
    assert d < q ==> (d + 1) * m <= q * m;
    assert d > q ==> (q + 1) * m <= d * m;
  }

  lemma Wrap(x: nat)
    ensures (x % U32 + 1) % U32 == (x + 1) % U32 && x % U32 % 2 == x % 2
  {
    var q, r := x / U32, x % U32;
    if r + 1 < U32 { ModUnique(x + 1, U32, q, r + 1); } else { ModUnique(x + 1, U32, q + 1, 0); }
    ModUnique(x, 2, q * (U32 / 2) + r / 2, r % 2);
  }

  lemma Parity(g: nat, n: nat)
    ensures (g + n) % U32 % 2 == g % 2 <==> n % 2 == 0
  {
    Wrap(g + n);
  }

  lemma WrapStep(g: nat, n: nat, h: nat)
    requires h == (g + n) % U32
    ensures (h + 1) % U32 == (g + (n + 1)) % U32
  {
    Wrap(g + n);
  }

  /** Along a run, the generation of a slot that was not reserved at its start counts its reuses modulo 2^32. */
  lemma {:induction false} GenerationCounts(ws: seq<World>, es: seq<Event>, s: nat, i: nat)
    requires Run(ws, es) && i <= |es| && s < |ws[0].a.slots| && ws[0].a.slots[s].gen < U32
    requires s !in ws[0].reserved
    ensures s !in ws[i].reserved
    ensures s < |ws[i].a.slots| && ws[i].a.slots[s].gen == (ws[0].a.slots[s].gen + ReuseCount(ws, es, s, i)) % U32
    decreases i
  {
    hide Step, Reuses, Allowed;
    if i > 0 {
      GenerationCounts(ws, es, s, i - 1);
      assert Allowed(ws[i - 1], es[i - 1]);
      StepGeneration(ws[i - 1], es[i - 1], s);
      WrapStep(ws[0].a.slots[s].gen, ReuseCount(ws, es, s, i - 1), ws[i - 1].a.slots[s].gen);
    }
  }

  /** A handle's generation bit still matches exactly if its slot was handed out again an even number of times. */
  lemma HandleMatches(ws: seq<World>, es: seq<Event>, s: nat)
    requires Run(ws, es) && s < |ws[0].a.slots| && ws[0].a.slots[s].gen < U32
    requires s !in ws[0].reserved
    ensures s < |ws[|es|].a.slots|
    ensures ws[|es|].a.slots[s].gen % 2 == ws[0].a.slots[s].gen % 2 <==> ReuseCount(ws, es, s, |es|) % 2 == 0
  {
    hide Step, Reuses, Allowed, ReuseCount;
    GenerationCounts(ws, es, s, |es|);
    Parity(ws[0].a.slots[s].gen, ReuseCount(ws, es, s, |es|));
  }
}
