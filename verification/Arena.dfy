/**
 Slot storage of the engine: a vector of slots with a free list, a dense list of live
 slots and the position of each live slot in that list.
 */
module Arenas {
  import opened Common

  datatype Kind = Principal | Aux0 | Aux1

  /** A port address. `Null` and `Eraser` are the two sentinels that address no slot. */
  datatype Port = Null | Eraser | At(slot: nat, kind: Kind, gen: nat)

  datatype Agent = FreeAgent | FanAbs | FanApp | Replicator | PrimAgent

  /** `erased0`/`erased1` are the tag bits recording an eraser on a replicator's auxiliary port. */
  datatype Slot = Slot(
    agent: Agent, gen: nat,
    principal: Port, aux0: Port, aux1: Port,
    data: nat, delta0: int, delta1: int,
    erased0: bool, erased1: bool)

  const EMPTY := Slot(FreeAgent, 0, Null, Null, Null, 0, 0, 0, false, false)
  const MAX_SLOTS := 0x1000_0000
  const U32 := 0x1_0000_0000

  datatype ArenaState = ArenaState(
    slots: seq<Slot>,
    free: seq<nat>,
    live: seq<nat>,
    pos: map<nat, nat>,
    cap: nat)

  function NewArena(capacity: nat): ArenaState {
    ArenaState([EMPTY], [], [], map[], if capacity < MAX_SLOTS then capacity else MAX_SLOTS)
  }

  /** Append `idx` to the live list and record where it is. */
  function MakeLive(a: ArenaState, idx: nat): ArenaState {
    a.(live := a.live + [idx], pos := a.pos[idx := |a.live|])
  }

  /** Reuse the newest free slot with its generation bumped, or grow the vector up to the capacity. */
  function Alloc(a: ArenaState): Result<(ArenaState, nat)> {
    if |a.free| > 0 then
      var idx := a.free[|a.free| - 1];
      if idx >= |a.slots| then Err(Panic) else
      var slot := EMPTY.(gen := (a.slots[idx].gen + 1) % U32);
      Ok((MakeLive(a.(free := a.free[..|a.free| - 1], slots := a.slots[idx := slot]), idx), idx))
    else
      var idx := |a.slots|;
      if idx >= a.cap then Err(ArenaCapacityExceeded) else
      Ok((MakeLive(a.(slots := a.slots + [EMPTY]), idx), idx))
  }

  /** Take a slot out of the live list by moving the last entry into its place, then free it. */
  function Retire(a: ArenaState, idx: nat): ArenaState {
    var out :=
      if idx !in a.pos || a.pos[idx] >= |a.live| then a else
      var at, last := a.pos[idx], a.live[|a.live| - 1];
      var live := a.live[at := last][..|a.live| - 1];
      var pos := a.pos - {idx};
      a.(live := live, pos := if at < |live| then pos[live[at] := at] else pos);
    out.(free := out.free + [idx])
  }

  function Blanks(n: nat): seq<Slot> { seq(n, i => EMPTY) }

  /** Set aside `n` new slots that are neither live nor free yet. */
  function Reserve(a: ArenaState, n: nat): Result<(ArenaState, nat)> {
    if |a.slots| + n >= U32 || |a.slots| + n > a.cap then Err(ArenaCapacityExceeded)
    else Ok((a.(slots := a.slots + Blanks(n)), |a.slots|))
  }

  function Commit(a: ArenaState, idx: nat, slot: Slot): ArenaState
    requires idx < |a.slots|
  {
    MakeLive(a.(slots := a.slots[idx := slot]), idx)
  }

  /** `from, …, to - 1` */
  function Span(from: nat, to: nat): (r: seq<nat>)
    ensures |r| == if from <= to then to - from else 0
    ensures forall i :: 0 <= i < |r| ==> r[i] == from + i
  {
    seq(if from <= to then to - from else 0, i => from + i)
  }

  /** Free the unused part of a reservation. */
  function Release(a: ArenaState, base: nat, used: nat, max: nat): ArenaState {
    a.(free := a.free + Span(base + used, base + max))
  }

  /** The arena as an object. */
  class Arena {
    var slots: seq<Slot>
    var free: seq<nat>
    var live: seq<nat>
    var pos: map<nat, nat>
    const cap: nat

    function State(): ArenaState
      reads this
    {
      ArenaState(slots, free, live, pos, cap)
    }

    constructor (capacity: nat)
      ensures State() == NewArena(capacity)
    {
      slots, free, live, pos := [EMPTY], [], [], map[];
      cap := if capacity < MAX_SLOTS then capacity else MAX_SLOTS;
    }

    method AllocSlot() returns (r: Result<nat>)
      modifies this
      ensures Alloc(old(State())) == if r.Ok? then Ok((State(), r.value)) else Err(r.error)
      ensures r.Err? ==> State() == old(State())
    {
      var idx: nat;
      if |free| > 0 {
        idx := free[|free| - 1];
        if idx >= |slots| { return Err(Panic); }
        free := free[..|free| - 1];
        slots := slots[idx := EMPTY.(gen := (slots[idx].gen + 1) % U32)];
      } else {
        idx := |slots|;
        if idx >= cap { return Err(ArenaCapacityExceeded); }
        slots := slots + [EMPTY];
      }
      pos := pos[idx := |live|];
      live := live + [idx];
      return Ok(idx);
    }

    method RetireSlot(idx: nat)
      modifies this
      ensures State() == Retire(old(State()), idx)
    {
      if idx in pos && pos[idx] < |live| {
        var at := pos[idx];
        pos := pos - {idx};
        live := live[at := live[|live| - 1]][..|live| - 1];
        if at < |live| { pos := pos[live[at] := at]; }
      }
      free := free + [idx];
    }

    method ReserveSlots(n: nat) returns (r: Result<nat>)
      modifies this
      ensures Reserve(old(State()), n) == if r.Ok? then Ok((State(), r.value)) else Err(r.error)
      ensures r.Err? ==> State() == old(State())
    {
      var base := |slots|;
      if base + n >= U32 || base + n > cap { return Err(ArenaCapacityExceeded); }
      for i := 0 to n
        invariant slots == old(slots) + Blanks(i) && free == old(free) && live == old(live) && pos == old(pos)
      {
        slots := slots + [EMPTY];
      }
      return Ok(base);
    }

    method CommitSlot(idx: nat, slot: Slot)
      requires idx < |slots|
      modifies this
      ensures State() == Commit(old(State()), idx, slot)
    {
      slots := slots[idx := slot];
      pos := pos[idx := |live|];
      live := live + [idx];
    }

    method ReleaseReserved(base: nat, used: nat, max: nat)
      requires used <= max
      modifies this
      ensures State() == Release(old(State()), base, used, max)
    {
      for j := used to max
        invariant free == old(free) + Span(base + used, base + j)
        invariant slots == old(slots) && live == old(live) && pos == old(pos)
      {
        assert Span(base + used, base + j + 1) == Span(base + used, base + j) + [base + j];
        free := free + [base + j];
      }
    }
  }
}
