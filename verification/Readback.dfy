/**
 Readback of a net into a λ-term. Variables are recognised by the ports at which they occur,
 collected below an abstraction through any tree of replicators.
 */
module Readback {
  import opened Common
  import opened Arenas
  import opened Nets
  import opened Asts

  datatype IR = IVar(id: nat) | IAbs(id: nat, body: IR) | IApp(fn: IR, arg: IR)

  /** The λ-term of an intermediate term; `ids` gives the binding depth of each identifier. */
  function IrTerm(ir: IR, ids: map<nat, nat>, depth: nat): DTm {
    match ir
    case IVar(v) => if v in ids then DVar(ids[v]) else DFree("")
    case IAbs(v, b) => DLam(IrTerm(b, ids[v := depth], depth + 1))
    case IApp(f, x) => DApp(IrTerm(f, ids, depth), IrTerm(x, ids, depth))
  }

  type Occ = map<Port, nat>

  predicate RepPrincipal(n: NetState, p: Port) {
    p.At? && AgentOf(n, p.slot).Replicator? && p.kind.Principal?
  }

  /** Record the occurrence ports of a variable delivered at `p`. Runs out of fuel only on a cyclic net. */
  function CollectOcc(n: NetState, p: Port, id: nat, occ: Occ, fuel: nat): Option<Occ>
    decreases fuel
  {
    if fuel == 0 then None else
    var peer := Peer(n, p);
    if !peer.At? then Some(occ)
    else if RepPrincipal(n, peer) then
      match CollectOcc(n, peer.(kind := Aux0), id, occ, fuel - 1)
      case None => None
      case Some(o) => CollectOcc(n, peer.(kind := Aux1), id, o, fuel - 1)
    else Some(occ[p := id])
  }

  function RemoveOcc(n: NetState, p: Port, occ: Occ, fuel: nat): Option<Occ>
    decreases fuel
  {
    if fuel == 0 then None else
    var peer := Peer(n, p);
    if !peer.At? then Some(occ)
    else if RepPrincipal(n, peer) then
      match RemoveOcc(n, peer.(kind := Aux0), occ, fuel - 1)
      case None => None
      case Some(o) => RemoveOcc(n, peer.(kind := Aux1), o, fuel - 1)
    else Some(occ - {p})
  }

  /** `Stuck` is a port that a readable net cannot present; `Deep` is an exhausted recursion. */
  datatype ReadOut = Deep | Stuck | Read(ir: IR, occ: Occ, next: nat)

  function PsiS(n: NetState, p: Port, occ: Occ, next: nat, fuel: nat): ReadOut
    decreases fuel, 1
  {
    if fuel == 0 then Deep
    else if !p.At? then Read(IVar(next), occ, next + 1)
    else if p in occ then Read(IVar(occ[p]), occ, next)
    else if AgentOf(n, p.slot).FreeAgent? then Read(IVar(next), occ, next + 1)
    else if p.kind.Principal? && AgentOf(n, p.slot).FanAbs? then PsiAbs(n, p, occ, next, fuel)
    else if p.kind.Aux0? && AgentOf(n, p.slot).FanApp? then PsiApp(n, p, occ, next, fuel)
    else Stuck
  }

  function PsiAbs(n: NetState, p: Port, occ: Occ, next: nat, fuel: nat): ReadOut
    requires p.At? && fuel > 0
    decreases fuel, 0
  {
    var varPort := p.(kind := Aux1);
    match CollectOcc(n, varPort, next, occ, fuel)
    case None => Deep
    case Some(occ1) =>
      match PsiS(n, Peer(n, p.(kind := Aux0)), occ1, next + 1, fuel - 1)
      case Deep => Deep
      case Stuck => Stuck
      case Read(body, occ2, next2) =>
        match RemoveOcc(n, varPort, occ2, fuel)
        case None => Deep
        case Some(occ3) => Read(IAbs(next, body), occ3, next2)
  }

  function PsiApp(n: NetState, p: Port, occ: Occ, next: nat, fuel: nat): ReadOut
    requires p.At? && fuel > 0
    decreases fuel, 0
  {
    match PsiS(n, Peer(n, p.(kind := Principal)), occ, next, fuel - 1)
    case Deep => Deep
    case Stuck => Stuck
    case Read(f, occ1, next1) =>
      match PsiS(n, Peer(n, p.(kind := Aux1)), occ1, next1, fuel - 1)
      case Deep => Deep
      case Stuck => Stuck
      case Read(x, occ2, next2) => Read(IApp(f, x), occ2, next2)
  }
}
