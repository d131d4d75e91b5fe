/**
 Elaboration of a core term into a net: one agent per binder, application, copy and
 recursion, wired as the term's syntax tree with variables as back edges.
 */
module Elab {
  import opened Common
  import opened Arenas
  import opened Nets
  import opened Asts

  /** A variable in scope: the port that delivers it and the level recorded for it. */
  datatype Binding = Binding(port: Port, level: nat)

  type Env = map<string, Binding>

  datatype Out = Out(net: NetState, env: Env, port: Port, level: nat)

  function LevelOf(ul: map<string, nat>, x: string, level: nat): nat {
    if x in ul then ul[x] else level
  }

  /** Elaborate `e`, consuming from `env` each variable it uses. */
  function Elaborate(net: NetState, level: nat, env: Env, lo: Path, e: Ast, ul: map<string, nat>): Result<Out>
    decreases e
  {
    match e
    case Name(n) =>
      if n in env then Ok(Out(net, env - {n}, env[n].port, env[n].level)) else Err(ReadbackIncomplete)

    case Abs(x, body) =>
      var (n1, abs) :- AllocAgent(net, FanAbs, 0, 0, 0);
      var env1 := env[x := Binding(abs.(kind := Aux1), level + 1)];
      var loBody :- Extend(lo, false);
      var o :- Elaborate(n1, level, env1, loBody, body, ul);
      Ok(Out(Connect(o.net, abs.(kind := Aux0), o.port, loBody), o.env - {x}, abs, level))

    case App(f, x) =>
      var (n1, app) :- AllocAgent(net, FanApp, 0, 0, 0);
      var loFn :- Extend(lo, false);
      var of :- Elaborate(n1, level, env, loFn, f, ul);
      var loArg :- Extend(lo, true);
      var ox :- Elaborate(of.net, level + 1, of.env, loArg, x, ul);
      var n2 := Connect(ox.net, app, of.port, loFn);
      var n3 := Connect(n2, app.(kind := Aux1), ox.port, loArg);
      Ok(Out(n3, ox.env, app.(kind := Aux0), level))

    case Rep(s, a, b, body) =>
      var la, lb := LevelOf(ul, a, level), LevelOf(ul, b, level);
      var os :- Elaborate(net, level, env, lo, s, ul);
      if !FitsI16(la - os.level) || !FitsI16(lb - os.level) then Err(DeltaOverflow) else
      var (n1, rep) :- AllocAgent(os.net, Replicator, os.level % 0x1_0000, la - os.level, lb - os.level);
      var n2 := Connect(n1, rep, os.port, lo);
      var env1 := os.env[a := Binding(rep.(kind := Aux0), la)][b := Binding(rep.(kind := Aux1), lb)];
      Elaborate(n2, level, env1, lo, body, ul)

    case Era(s, body) =>
      var os :- Elaborate(net, level, env, lo, s, ul);
      Elaborate(Connect(os.net, Eraser, os.port, lo), level, os.env, lo, body, ul)

    case Fix(inner) =>
      var loFn :- Extend(lo, false);
      var oi :- Elaborate(net, level, env, loFn, inner, ul);
      var (n1, app) :- AllocAgent(oi.net, FanApp, 0, 0, 0);
      var n2 := Connect(n1, app, oi.port, loFn);
      var (n3, rep) :- AllocAgent(n2, Replicator, level % 0x1_0000, 0, 0);
      var loBack :- Extend(lo, true);
      var n4 := Connect(n3, rep, app.(kind := Aux0), loBack);
      var n5 := Connect(n4, app.(kind := Aux1), rep.(kind := Aux0), lo);
      Ok(Out(n5, oi.env, rep.(kind := Aux1), level))

    case Val(_) =>
      var (n1, p) :- AllocAgent(net, FreeAgent, 0, 0, 0);
      Ok(Out(n1, env, p, level))

    case Fun(_) =>
      var (n1, p) :- AllocAgent(net, FreeAgent, 0, 0, 0);
      Ok(Out(n1, env, p, level))
  }
}
