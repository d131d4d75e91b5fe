/**
 The linearity check that precedes elaboration: every binder must be used exactly once.
 It also records the level at which each name is consumed.
 */
module Pass1 {
  import opened Common
  import opened Asts

  datatype LinError = Unused(name: string) | MultiUse(name: string, uses: nat)

  /** Occurrences of `x` in `e` that a binder of `x` just outside `e` would bind. */
  function Uses(x: string, e: Ast): nat {
    match e
    case Name(n) => if n == x then 1 else 0
    case Abs(y, b) => if y == x then 0 else Uses(x, b)
    case App(f, a) => Uses(x, f) + Uses(x, a)
    case Rep(s, a, b, body) => Uses(x, s) + (if a == x || b == x then 0 else Uses(x, body))
    case Era(s, body) => Uses(x, s) + Uses(x, body)
    case Fix(i) => Uses(x, i)
    case Val(_) => 0
    case Fun(_) => 0
  }

  /** Every binder binds exactly one occurrence. */
  predicate Linear(e: Ast) {
    match e
    case Name(_) => true
    case Abs(x, b) => Uses(x, b) == 1 && Linear(b)
    case App(f, x) => Linear(f) && Linear(x)
    case Rep(s, a, b, body) => Linear(s) && Linear(body) && a != b && Uses(a, body) == 1 && Uses(b, body) == 1
    case Era(s, body) => Linear(s) && Linear(body)
    case Fix(i) => Linear(i)
    case Val(_) => true
    case Fun(_) => true
  }

  /** The level recorded for each name: one more for every argument position around it. */
  function Levels(level: nat, ul: map<string, nat>, e: Ast): map<string, nat>
    decreases e
  {
    match e
    case Name(n) => ul[n := level]
    case Abs(_, b) => Levels(level, ul, b)
    case App(f, x) => Levels(level + 1, Levels(level, ul, f), x)
    case Rep(s, _, _, body) => Levels(level, Levels(level, ul, s), body)
    case Era(s, body) => Levels(level, Levels(level, ul, s), body)
    case Fix(i) => Levels(level, ul, i)
    case Val(_) => ul
    case Fun(_) => ul
  }

  predicate HasEra(e: Ast) {
    match e
    case Name(_) => false
    case Abs(_, b) => HasEra(b)
    case App(f, x) => HasEra(f) || HasEra(x)
    case Rep(s, _, _, body) => HasEra(s) || HasEra(body)
    case Era(_, _) => true
    case Fix(i) => HasEra(i)
    case Val(_) => false
    case Fun(_) => false
  }

  predicate HasRep(e: Ast) {
    match e
    case Name(_) => false
    case Abs(_, b) => HasRep(b)
    case App(f, x) => HasRep(f) || HasRep(x)
    case Rep(_, _, _, _) => true
    case Era(s, body) => HasRep(s) || HasRep(body)
    case Fix(i) => HasRep(i)
    case Val(_) => false
    case Fun(_) => false
  }

  type Frames = seq<map<string, nat>>

  /** Frame `i` is the innermost one that counts `x`. */
  predicate Innermost(fs: Frames, i: nat, x: string) {
    i < |fs| && x in fs[i] && forall j :: i < j < |fs| ==> x !in fs[j]
  }

  function Bumped(fs: Frames, i: nat, e: Ast): (r: map<string, nat>)
    requires i < |fs|
    ensures r.Keys == fs[i].Keys
  {
    map x | x in fs[i] :: fs[i][x] + if Innermost(fs, i, x) then Uses(x, e) else 0
  }

  /** The frames after `e`: each name's innermost frame has counted the uses in `e`. */
  function Bump(fs: Frames, e: Ast): (r: Frames)
    ensures |r| == |fs| && forall i :: 0 <= i < |fs| ==> r[i] == Bumped(fs, i, e)
  {
    seq(|fs|, i requires 0 <= i < |fs| => Bumped(fs, i, e))
  }

  lemma InnermostKept(fs: Frames, f: Ast, i: nat, x: string)
    ensures Innermost(Bump(fs, f), i, x) <==> Innermost(fs, i, x)
  {
    hide Bumped, Bump;
    var m := Bump(fs, f);
    assert forall j :: 0 <= j < |fs| ==> m[j].Keys == fs[j].Keys;
    assert forall j :: 0 <= j < |fs| ==> (x in m[j] <==> x in fs[j]);
  }

  lemma BumpedAt(fs: Frames, i: nat, e: Ast, x: string)
    requires i < |fs| && x in fs[i]
    ensures Bumped(fs, i, e)[x] == fs[i][x] + if Innermost(fs, i, x) then Uses(x, e) else 0
  {
  }

  lemma BumpedTwice(fs: Frames, i: nat, e: Ast, f: Ast, g: Ast)
    requires i < |fs| && forall x :: Uses(x, e) == Uses(x, f) + Uses(x, g)
    ensures Bumped(Bump(fs, f), i, g) == Bumped(fs, i, e)
  {
    hide Innermost, Uses, Bump, Bumped;
    var m := Bump(fs, f);
    assert m[i] == Bumped(fs, i, f);
    forall x | x in fs[i]
      ensures Bumped(m, i, g)[x] == Bumped(fs, i, e)[x]
    {
      InnermostKept(fs, f, i, x);
      BumpedAt(m, i, g, x);
      BumpedAt(fs, i, f, x);
      BumpedAt(fs, i, e, x);
    }
    assert Bumped(m, i, g).Keys == Bumped(fs, i, e).Keys;
  }

  /** Running over two parts in turn counts the uses in both. */
  lemma BumpTwice(fs: Frames, e: Ast, f: Ast, g: Ast)
    requires forall x :: Uses(x, e) == Uses(x, f) + Uses(x, g)
    ensures Bump(Bump(fs, f), g) == Bump(fs, e)
  {
    hide Uses, Bump, Bumped;
    forall i | 0 <= i < |fs|
      ensures Bump(Bump(fs, f), g)[i] == Bump(fs, e)[i]
    {
      BumpedTwice(fs, i, e, f, g);
    }
  }

  /** Popping the frame of a binder gives its use count and leaves the outer frames as the binder's term does. */
  lemma BumpScope(fs: Frames, x: string, b: Ast, e: Ast)
    requires forall y :: Uses(y, e) == if y == x then 0 else Uses(y, b)
    ensures Bump(fs + [map[x := 0]], b) == Bump(fs, e) + [map[x := Uses(x, b)]]
  {
    hide Bump, Bumped, Uses, Innermost;
    var g := fs + [map[x := 0]];
    forall i | 0 <= i < |fs|
      ensures Bump(g, b)[i] == Bump(fs, e)[i]
    {
      BumpedScope(fs, x, b, e, i);
    }
    BumpedLast(fs, x, b);
  }

  lemma BumpedScope(fs: Frames, x: string, b: Ast, e: Ast, i: nat)
    requires i < |fs| && forall y :: Uses(y, e) == if y == x then 0 else Uses(y, b)
    ensures Bumped(fs + [map[x := 0]], i, b) == Bumped(fs, i, e)
  {
    hide Bumped, Uses, Innermost;
    var g := fs + [map[x := 0]];
    forall y | y in fs[i]
      ensures Bumped(g, i, b)[y] == Bumped(fs, i, e)[y]
    {
      InnermostScope(fs, x, i, y);
      BumpedAt(g, i, b, y);
      BumpedAt(fs, i, e, y);
    }
    assert Bumped(g, i, b).Keys == Bumped(fs, i, e).Keys;
  }

  lemma InnermostScope(fs: Frames, x: string, i: nat, y: string)
    requires i < |fs|
    ensures Innermost(fs + [map[x := 0]], i, y) <==> Innermost(fs, i, y) && y != x
  {
    var g := fs + [map[x := 0]];
    assert y in g[|fs|] <==> y == x;
    assert forall j :: 0 <= j < |fs| ==> g[j] == fs[j];
  }

  lemma BumpedLast(fs: Frames, x: string, b: Ast)
    ensures Bumped(fs + [map[x := 0]], |fs|, b) == map[x := Uses(x, b)]
  {
    hide Bumped, Uses;
    var g := fs + [map[x := 0]];
    assert Innermost(g, |fs|, x);
    BumpedAt(g, |fs|, b, x);
    assert g[|fs|].Keys == {x};
  }

  /** The scope of `b` is the body, and the scope of `a` is everything under the binder `b`. */
  lemma BumpRep(fs: Frames, s: Ast, a: string, b: string, body: Ast)
    ensures
      Bump(Bump(fs, s) + [map[a := 0]] + [map[b := 0]], body) ==
      Bump(fs, Rep(s, a, b, body)) + [map[a := Uses(a, Abs(b, body))]] + [map[b := Uses(b, body)]]
  {
    hide Bump;
    var mid, inB, inA := Bump(fs, s), Abs(b, body), Abs(a, Abs(b, body));
    BumpScope(mid + [map[a := 0]], b, body, inB);
    BumpScope(mid, a, inB, inA);
    BumpTwice(fs, Rep(s, a, b, body), s, inA);
  }

  lemma BumpNone(fs: Frames, e: Ast)
    requires forall x :: Uses(x, e) == 0
    ensures Bump(fs, e) == fs
  {
    forall i | 0 <= i < |fs|
      ensures Bumped(fs, i, e) == fs[i]
    {
    }
  }

  /** The stack of use counts and the flags and levels collected on the way. */
  class Checker {
    var frames: Frames
    var active: map<string, nat>
    var eraUsed: bool
    var repUsed: bool
    var usageLevels: map<string, nat>

    constructor ()
      ensures frames == [] && !eraUsed && !repUsed && usageLevels == map[]
    {
      frames, active, eraUsed, repUsed, usageLevels := [], map[], false, false, map[];
    }

    method Push(name: string)
      modifies this`frames, this`active
      ensures frames == old(frames) + [map[name := 0]]
    {
      frames := frames + [map[name := 0]];
      active := active[name := 0];
    }

    method Pop(name: string) returns (count: nat)
      requires frames != []
      modifies this`frames, this`active
      ensures frames == old(frames)[..|old(frames)| - 1]
      ensures count == var top := old(frames)[|old(frames)| - 1]; if name in top then top[name] else 0
    {
      var top := frames[|frames| - 1];
      frames := frames[..|frames| - 1];
      count := if name in top then top[name] else 0;
      active := active - {name};
    }

    /** Close the two scopes of a replicator. */
    method PopTwo(b: string, a: string, ghost outer: Frames, ghost nb: nat, ghost na: nat) returns (cb: nat, ca: nat)
      requires frames == outer + [map[a := na]] + [map[b := nb]]
      modifies this`frames, this`active
      ensures frames == outer && cb == nb && ca == na
    {
      cb := Pop(b);
      assert frames == outer + [map[a := na]];
      ca := Pop(a);
    }

    /** Count one use of `name` in the innermost frame that knows it. */
    method Increment(name: string)
      modifies this`frames, this`active
      ensures frames == Bump(old(frames), Name(name))
    {
      if name in active {
        active := active[name := active[name] + 1];
      }
      var i := |frames|;
      while i > 0
        invariant 0 <= i <= |frames| && frames == old(frames)
        invariant forall j :: i <= j < |frames| ==> name !in frames[j]
      {
        i := i - 1;
        if name in frames[i] {
          frames := frames[i := frames[i][name := frames[i][name] + 1]];
          break;
        }
      }
      ghost var was := old(frames);
      assert i < |was| ==> name in was[i] || i == 0;
      forall j | 0 <= j < |was|
        ensures frames[j] == Bumped(was, j, Name(name))
      {
        if name in was[j] && i < |was| && j == i && name in was[i] {
          assert Innermost(was, i, name);
        }
      }
    }

    /** Walk `e`, failing at the first binder that is not used exactly once. */
    method Collect(level: nat, e: Ast) returns (r: Option<LinError>)
      modifies this
      ensures r.None? <==> Linear(e)
      ensures r.None? ==> frames == Bump(old(frames), e)
      ensures r.None? ==> usageLevels == Levels(level, old(usageLevels), e)
      ensures r.None? ==> (eraUsed <==> old(eraUsed) || HasEra(e)) && (repUsed <==> old(repUsed) || HasRep(e))
      decreases e
    {
      match e
      case Name(n) =>
        Increment(n);
        usageLevels := usageLevels[n := level];
        return None;
      case Abs(x, b) =>
        Push(x);
        r := Collect(level, b);
        if r.Some? { return; }
        BumpScope(old(frames), x, b, e);
        var n := Pop(x);
        return CheckCount(x, n);
      case App(f, x) =>
        r := Collect(level, f);
        if r.Some? { return; }
        r := Collect(level + 1, x);
        BumpTwice(old(frames), e, f, x);
        return;
      case Rep(s, a, b, body) =>
        r := CollectRep(level, s, a, b, body);
      case Era(s, body) =>
        eraUsed := true;
        r := Collect(level, s);
        if r.Some? { return; }
        r := Collect(level, body);
        BumpTwice(old(frames), e, s, body);
        return;
      case Fix(i) =>
        r := Collect(level, i);
        assert Bump(old(frames), e) == Bump(old(frames), i) by { BumpSame(old(frames), e, i); }
      case Val(_) =>
        BumpNone(frames, e);
        return None;
      case Fun(_) =>
        BumpNone(frames, e);
        return None;
    }

    method CollectRep(level: nat, s: Ast, a: string, b: string, body: Ast) returns (r: Option<LinError>)
      modifies this
      ensures r.None? <==> Linear(Rep(s, a, b, body))
      ensures r.None? ==> frames == Bump(old(frames), Rep(s, a, b, body))
      ensures r.None? ==> usageLevels == Levels(level, old(usageLevels), Rep(s, a, b, body))
      ensures r.None? ==> (eraUsed <==> old(eraUsed) || HasEra(Rep(s, a, b, body))) && repUsed
      decreases Rep(s, a, b, body), 0
    {
      hide Bump, HasRep;
      repUsed := true;
      r := Collect(level, s);
      if r.Some? { return; }
      Push(a);
      Push(b);
      r := Collect(level, body);
      if r.Some? { return; }
      BumpRep(old(frames), s, a, b, body);
      var nb, na := PopTwo(b, a, Bump(old(frames), Rep(s, a, b, body)), Uses(b, body), Uses(a, Abs(b, body)));
      r := CheckCount(a, na);
      if r.Some? { return; }
      r := CheckCount(b, nb);
    }
  }

  lemma BumpSame(fs: Frames, e: Ast, f: Ast)
    requires forall x :: Uses(x, e) == Uses(x, f)
    ensures Bump(fs, e) == Bump(fs, f)
  {
    hide Bump, Bumped, Uses;
    forall i | 0 <= i < |fs|
      ensures Bump(fs, e)[i] == Bump(fs, f)[i]
    {
      BumpedSame(fs, i, e, f);
    }
  }

  lemma BumpedSame(fs: Frames, i: nat, e: Ast, f: Ast)
    requires i < |fs| && forall x :: Uses(x, e) == Uses(x, f)
    ensures Bumped(fs, i, e) == Bumped(fs, i, f)
  {
    hide Uses, Innermost;
    forall x | x in fs[i]
      ensures Bumped(fs, i, e)[x] == Bumped(fs, i, f)[x]
    {
      assert Uses(x, e) == Uses(x, f);
    }
  }

  function CheckCount(x: string, n: nat): (r: Option<LinError>)
    ensures r.None? <==> n == 1
  {
    if n == 0 then Some(Unused(x)) else if n > 1 then Some(MultiUse(x, n)) else None
  }

  /** The whole pass, from an empty scope stack. */
  method RunPass1(e: Ast) returns (r: Option<LinError>, usageLevels: map<string, nat>, eraUsed: bool, repUsed: bool)
    ensures r.None? <==> Linear(e)
    ensures r.None? ==> usageLevels == Levels(0, map[], e) && (eraUsed <==> HasEra(e)) && (repUsed <==> HasRep(e))
  {
    var c := new Checker();
    r := c.Collect(0, e);
    usageLevels, eraUsed, repUsed := c.usageLevels, c.eraUsed, c.repUsed;
  }

  // ---------------------------------------------------------------------------------------------
  // Recorded levels

  lemma UsesFrees(x: string, e: Ast)
    ensures Uses(x, e) > 0 <==> x in Frees(e)
  {
  }

  /** The level at which the occurrence of `x` in `e` is consumed. */
  function OccLevel(x: string, e: Ast, level: nat): nat {
    match e
    case Name(_) => level
    case Abs(_, b) => OccLevel(x, b, level)
    case App(f, a) => if x in Frees(f) then OccLevel(x, f, level) else OccLevel(x, a, level + 1)
    case Rep(s, _, _, body) => if x in Frees(s) then OccLevel(x, s, level) else OccLevel(x, body, level)
    case Era(s, body) => if x in Frees(s) then OccLevel(x, s, level) else OccLevel(x, body, level)
    case Fix(i) => OccLevel(x, i, level)
    case Val(_) => level
    case Fun(_) => level
  }

  lemma {:induction false} LevelsFrame(level: nat, ul: map<string, nat>, e: Ast, x: string)
    requires x !in Frees(e) && x !in Binders(e)
    ensures x in Levels(level, ul, e) <==> x in ul
    ensures x in ul ==> Levels(level, ul, e)[x] == ul[x]
    decreases e
  {
    match e
    case Name(_) =>
    case Abs(_, b) => LevelsFrame(level, ul, b, x);
    case App(f, a) =>
      LevelsFrame(level, ul, f, x);
      LevelsFrame(level + 1, Levels(level, ul, f), a, x);
    case Rep(s, _, _, body) =>
      LevelsFrame(level, ul, s, x);
      LevelsFrame(level, Levels(level, ul, s), body, x);
    case Era(s, body) =>
      LevelsFrame(level, ul, s, x);
      LevelsFrame(level, Levels(level, ul, s), body, x);
    case Fix(i) => LevelsFrame(level, ul, i, x);
    case Val(_) =>
    case Fun(_) =>
  }

  /** A name used once, and bound nowhere inside, is recorded with the level of that use. */
  lemma {:induction false} LevelsAt(level: nat, ul: map<string, nat>, e: Ast, x: string)
    requires Uses(x, e) == 1 && x !in Binders(e)
    ensures x in Levels(level, ul, e) && Levels(level, ul, e)[x] == OccLevel(x, e, level)
    decreases e, 1
  {
    match e
    case Name(_) =>
    case Abs(_, b) => LevelsAt(level, ul, b, x);
    case App(f, a) =>
      UsesFrees(x, f);
      UsesFrees(x, a);
      if Uses(x, f) == 1 {
        LevelsAt(level, ul, f, x);
        LevelsFrame(level + 1, Levels(level, ul, f), a, x);
      } else {
        LevelsAt(level + 1, Levels(level, ul, f), a, x);
      }
    case Rep(s, _, _, body) => LevelsAtTwo(level, ul, e, s, body, x);
    case Era(s, body) => LevelsAtTwo(level, ul, e, s, body, x);
    case Fix(i) => LevelsAt(level, ul, i, x);
  }

  lemma {:induction false} LevelsAtTwo(level: nat, ul: map<string, nat>, e: Ast, s: Ast, body: Ast, x: string)
    requires (e.Rep? || e.Era?) && e.e == s && e.body == body
    requires Uses(x, s) + Uses(x, body) == 1 && x !in Binders(s) && x !in Binders(body)
    ensures var ul' := Levels(level, Levels(level, ul, s), body);
      x in ul' && ul'[x] == if x in Frees(s) then OccLevel(x, s, level) else OccLevel(x, body, level)
    decreases e, 0
  {
    UsesFrees(x, s);
    UsesFrees(x, body);
    if Uses(x, s) == 1 {
      LevelsAt(level, ul, s, x);
      LevelsFrame(level, Levels(level, ul, s), body, x);
    } else {
      LevelsAt(level, Levels(level, ul, s), body, x);
    }
  }

  /** `ul` records, for every copy made in `e`, the level at which that copy is consumed. */
  predicate CopiesRecorded(e: Ast, level: nat, ul: map<string, nat>) {
    match e
    case Name(_) => true
    case Abs(_, b) => CopiesRecorded(b, level, ul)
    case App(f, x) => CopiesRecorded(f, level, ul) && CopiesRecorded(x, level + 1, ul)
    case Rep(s, a, b, body) =>
      && a in ul && ul[a] == OccLevel(a, body, level) && b in ul && ul[b] == OccLevel(b, body, level)
      && CopiesRecorded(s, level, ul) && CopiesRecorded(body, level, ul)
    case Era(s, body) => CopiesRecorded(s, level, ul) && CopiesRecorded(body, level, ul)
    case Fix(i) => CopiesRecorded(i, level, ul)
    case Val(_) => true
    case Fun(_) => true
  }

  lemma {:induction false} CopiesAgree(e: Ast, level: nat, ul: map<string, nat>, ul': map<string, nat>)
    requires CopiesRecorded(e, level, ul)
    requires forall x :: x in Binders(e) && x in ul ==> x in ul' && ul'[x] == ul[x]
    ensures CopiesRecorded(e, level, ul')
    decreases e
  {
    match e
    case Name(_) =>
    case Abs(_, b) => CopiesAgree(b, level, ul, ul');
    case App(f, x) =>
      CopiesAgree(f, level, ul, ul');
      CopiesAgree(x, level + 1, ul, ul');
    case Rep(s, a, b, body) =>
      CopiesAgree(s, level, ul, ul');
      CopiesAgree(body, level, ul, ul');
    case Era(s, body) =>
      CopiesAgree(s, level, ul, ul');
      CopiesAgree(body, level, ul, ul');
    case Fix(i) => CopiesAgree(i, level, ul, ul');
    case Val(_) =>
    case Fun(_) =>
  }

  /** A part's records survive the rest of the walk, because no other part mentions its binders. */
  lemma CopiesKept(e: Ast, level: nat, ul: map<string, nat>, l2: nat, g: Ast)
    requires CopiesRecorded(e, level, ul)
    requires Binders(e) !! (Frees(g) + Binders(g))
    ensures CopiesRecorded(e, level, Levels(l2, ul, g))
  {
    forall x | x in Binders(e) && x in ul
      ensures x in Levels(l2, ul, g) && Levels(l2, ul, g)[x] == ul[x]
    {
      LevelsFrame(l2, ul, g, x);
    }
    CopiesAgree(e, level, ul, Levels(l2, ul, g));
  }

  lemma {:induction false} LevelsRecord(level: nat, ul: map<string, nat>, e: Ast)
    requires Linear(e) && UniqueBinders(e) && Frees(e) !! Binders(e)
    ensures CopiesRecorded(e, level, Levels(level, ul, e))
    decreases e
  {
    match e
    case Name(_) =>
    case Abs(x, b) => LevelsRecord(level, ul, b);
    case App(f, x) =>
      LevelsRecord(level, ul, f);
      LevelsRecord(level + 1, Levels(level, ul, f), x);
      CopiesKept(f, level, Levels(level, ul, f), level + 1, x);
    case Rep(s, a, b, body) =>
      LevelsRecord(level, ul, s);
      LevelsRecord(level, Levels(level, ul, s), body);
      CopiesKept(s, level, Levels(level, ul, s), level, body);
      LevelsAt(level, Levels(level, ul, s), body, a);
      LevelsAt(level, Levels(level, ul, s), body, b);
    case Era(s, body) =>
      LevelsRecord(level, ul, s);
      LevelsRecord(level, Levels(level, ul, s), body);
      CopiesKept(s, level, Levels(level, ul, s), level, body);
    case Fix(i) => LevelsRecord(level, ul, i);
    case Val(_) =>
    case Fun(_) =>
  }
}
