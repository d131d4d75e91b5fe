/** The linear core language that the front-ends emit, and the λ-terms it stands for. */
module Asts {

  datatype Ast =
    | Name(n: string)
    | Abs(x: string, body: Ast)
    | App(fn: Ast, arg: Ast)
    | Rep(e: Ast, a: string, b: string, body: Ast)
    | Era(e: Ast, body: Ast)
    | Fix(inner: Ast)
    | Val(v: int)
    | Fun(prim: int)

  /** λ-terms with de Bruijn levels: the binder at depth `d` is `DVar(d)`. α-equivalence is equality. */
  datatype DTm = DVar(level: nat) | DFree(name: string) | DLam(body: DTm) | DApp(fn: DTm, arg: DTm)

  /** The fragment the front-ends emit: a replicator or eraser is only ever applied to a name. */
  predicate Frag(e: Ast) {
    match e
    case Name(_) => true
    case Abs(_, b) => Frag(b)
    case App(f, x) => Frag(f) && Frag(x)
    case Rep(s, _, _, b) => s.Name? && Frag(b)
    case Era(s, b) => s.Name? && Frag(b)
    case Fix(i) => Frag(i)
    case Val(_) => true
    case Fun(_) => true
  }

  /** No recursion and no primitive: the pure sharing calculus. */
  predicate Pure(e: Ast) {
    match e
    case Name(_) => true
    case Abs(_, b) => Pure(b)
    case App(f, x) => Pure(f) && Pure(x)
    case Rep(s, _, _, b) => s.Name? && Pure(b)
    case Era(s, b) => s.Name? && Pure(b)
    case Fix(_) => false
    case Val(_) => false
    case Fun(_) => false
  }

  function Binders(e: Ast): set<string> {
    match e
    case Name(_) => {}
    case Abs(x, b) => {x} + Binders(b)
    case App(f, x) => Binders(f) + Binders(x)
    case Rep(s, a, b, body) => Binders(s) + {a, b} + Binders(body)
    case Era(s, body) => Binders(s) + Binders(body)
    case Fix(i) => Binders(i)
    case Val(_) => {}
    case Fun(_) => {}
  }

  /** Every binder of the term has a name of its own. */
  predicate UniqueBinders(e: Ast) {
    match e
    case Name(_) => true
    case Abs(x, b) => x !in Binders(b) && UniqueBinders(b)
    case App(f, x) => Binders(f) !! Binders(x) && UniqueBinders(f) && UniqueBinders(x)
    case Rep(s, a, b, body) =>
      && a != b && a !in Binders(body) && b !in Binders(body)
      && Binders(s) !! ({a, b} + Binders(body))
      && UniqueBinders(s) && UniqueBinders(body)
    case Era(s, body) => Binders(s) !! Binders(body) && UniqueBinders(s) && UniqueBinders(body)
    case Fix(i) => UniqueBinders(i)
    case Val(_) => true
    case Fun(_) => true
  }

  /** Names with a free occurrence. */
  function Frees(e: Ast): set<string> {
    match e
    case Name(n) => {n}
    case Abs(x, b) => Frees(b) - {x}
    case App(f, x) => Frees(f) + Frees(x)
    case Rep(s, a, b, body) => Frees(s) + (Frees(body) - {a, b})
    case Era(s, body) => Frees(s) + Frees(body)
    case Fix(i) => Frees(i)
    case Val(_) => {}
    case Fun(_) => {}
  }

  /** The λ-term a pure term stands for: copies made by `Rep` are the variable they copy, `Era` is dropped. */
  function Collapse(e: Ast, env: map<string, nat>, depth: nat): DTm
    requires Pure(e)
  {
    match e
    case Name(n) => if n in env then DVar(env[n]) else DFree(n)
    case Abs(x, b) => DLam(Collapse(b, env[x := depth], depth + 1))
    case App(f, x) => DApp(Collapse(f, env, depth), Collapse(x, env, depth))
    case Rep(s, a, b, body) =>
      if s.n in env then Collapse(body, env[a := env[s.n]][b := env[s.n]], depth)
      else Collapse(body, env - {a, b}, depth)
    case Era(_, body) => Collapse(body, env, depth)
  }
}
