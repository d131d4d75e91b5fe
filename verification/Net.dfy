/**
 The port graph. `NetState` is the value of a net; its frontiers index the redexes by
 leftmost-outermost path.
 */
module Nets {
  import opened Common
  import opened Arenas

  /** A leftmost-outermost path as the bit string that `LOPaths` shows the limb form to refine. */
  type Path = seq<bool>

  const MAX_DEPTH := 512

  function Extend(lo: Path, bit: bool): (r: Result<Path>)
    ensures r.Ok? ==> r.value == lo + [bit]
  {
    if |lo| >= MAX_DEPTH then Err(LOPathDepthExceeded) else Ok(lo + [bit])
  }

  datatype ActivePair = ActivePair(p0: Port, p1: Port, lo: Path)
  datatype C4Candidate = C4Candidate(rep: Port, app: Port, lo: Path)

  datatype NetState = NetState(
    arena: ArenaState,
    f1: map<Path, ActivePair>,
    f2: map<Path, C4Candidate>,
    pendingC1: bool)

  function NewNet(capacity: nat): NetState {
    NetState(NewArena(capacity), map[], map[], false)
  }

  /** The sentinels carry the bit pattern of a principal port. */
  function KindOf(p: Port): Kind {
    if p.At? then p.kind else Principal
  }

  /** A port of a slot in its first generation. */
  function Addr(i: nat, k: Kind): Port { At(i, k, 0) }

  function SlotPort(s: Slot, k: Kind): Port {
    match k
    case Principal => s.principal
    case Aux0 => s.aux0
    case Aux1 => s.aux1
  }

  function InRange(n: NetState, p: Port): bool {
    p.At? && p.slot < |n.arena.slots|
  }

  /** A port of an index past the end would abort the program; the model answers `Null`. */
  function Peer(n: NetState, p: Port): Port {
    if !p.At? then p
    else if p.slot < |n.arena.slots| then SlotPort(n.arena.slots[p.slot], p.kind)
    else Null
  }

  function AgentOf(n: NetState, i: nat): Agent {
    if i < |n.arena.slots| then n.arena.slots[i].agent else FreeAgent
  }

  function SetSlotPort(s: Slot, k: Kind, v: Port): Slot {
    match k
    case Principal => s.(principal := v)
    case Aux0 => s.(aux0 := v, erased0 := s.erased0 || (v.Eraser? && s.agent.Replicator?))
    case Aux1 => s.(aux1 := v, erased1 := s.erased1 || (v.Eraser? && s.agent.Replicator?))
  }

  function WritePort(n: NetState, p: Port, v: Port): NetState {
    if !InRange(n, p) then n else
    n.(arena := n.arena.(slots := n.arena.slots[p.slot := SetSlotPort(n.arena.slots[p.slot], p.kind, v)]))
  }

  predicate IsRepPort(n: NetState, p: Port) { p.At? && AgentOf(n, p.slot).Replicator? }

  predicate IsAppPort(n: NetState, p: Port) { p.At? && AgentOf(n, p.slot).FanApp? }

  /** Index a freshly laid wire if it is an active pair or a replicator facing an application result. */
  function DetectPair(n: NetState, a: Port, b: Port, lo: Path): NetState {
    if KindOf(a).Principal? && KindOf(b).Principal? && !a.Null? && !b.Null? then
      n.(f1 := n.f1[lo := ActivePair(a, b, lo)])
    else if KindOf(a).Principal? && KindOf(b).Aux0? && IsRepPort(n, a) && IsAppPort(n, b) then
      n.(f2 := n.f2[lo := C4Candidate(a, b, lo)])
    else if KindOf(a).Aux0? && KindOf(b).Principal? && IsAppPort(n, a) && IsRepPort(n, b) then
      n.(f2 := n.f2[lo := C4Candidate(b, a, lo)])
    else n
  }

  function Connect(n: NetState, a: Port, b: Port, lo: Path): NetState {
    DetectPair(WritePort(WritePort(n, a, b), b, a), a, b, lo)
  }

  /** Allocate a slot for an agent, leaving every port null. */
  function AllocAgent(n: NetState, agent: Agent, data: nat, d0: int, d1: int): (r: Result<(NetState, Port)>)
    ensures r.Ok? ==> r.value.1.At? && r.value.1.kind.Principal?
  {
    var (arena, idx) :- Alloc(n.arena);
    if idx >= |arena.slots| then Err(Panic) else
    var slot := arena.slots[idx].(agent := agent, data := data, delta0 := d0, delta1 := d1);
    Ok((n.(arena := arena.(slots := arena.slots[idx := slot])), At(idx, Principal, slot.gen % 2)))
  }
}
