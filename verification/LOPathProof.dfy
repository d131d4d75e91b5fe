/** Limb paths refine bit strings: appending, prefix, order, and subtrees as intervals. */
module LOPathProof {
  import opened Common
  import opened Nets
  import opened LOPaths

  // ---------------------------------------------------------------------------------------------
  // The reference order on bit strings

  /** Lexicographic, with a prefix before its extensions. */
  function Lex(s: Path, t: Path): Order {
    if s == [] then (if t == [] then Equal else Less)
    else if t == [] then Greater
    else if s[0] != t[0] then (if t[0] then Less else Greater)
    else Lex(s[1..], t[1..])
  }

  lemma {:induction false} LexEqual(s: Path, t: Path)
    ensures Lex(s, t).Equal? <==> s == t
  {
    if s != [] && t != [] && s[0] == t[0] {
      LexEqual(s[1..], t[1..]);
      assert s == [s[0]] + s[1..] && t == [t[0]] + t[1..];
    }
  }

  lemma {:induction false} LexFlip(s: Path, t: Path)
    ensures Lex(s, t).Less? <==> Lex(t, s).Greater?
  {
    if s != [] && t != [] && s[0] == t[0] { LexFlip(s[1..], t[1..]); }
  }

  lemma {:induction false} LexTransitive(s: Path, t: Path, u: Path)
    requires Lex(s, t).Less? && Lex(t, u).Less?
    ensures Lex(s, u).Less?
  {
    if s != [] && t != [] && u != [] && s[0] == t[0] && t[0] == u[0] { LexTransitive(s[1..], t[1..], u[1..]); }
  }

  lemma {:induction false} LexCommon(p: Path, s: Path, t: Path)
    ensures Lex(p + s, p + t) == Lex(s, t)
  {
    if p == [] {
      assert p + s == s && p + t == t;
    } else {
      LexCommon(p[1..], s, t);
      assert (p + s)[1..] == p[1..] + s && (p + t)[1..] == p[1..] + t;
    }
  }

  /** A subtree, all extensions of one path, is an interval of the order. */
  lemma {:induction false} SubtreeInterval(p: Path, a: Path, b: Path, c: Path)
    requires p <= a && p <= c && !Lex(a, b).Greater? && !Lex(b, c).Greater?
    ensures p <= b
  {
    if p != [] {
      LexFlip(a, b);
      assert b != [] && b[0] == p[0];
      SubtreeInterval(p[1..], a[1..], b[1..], c[1..]);
      assert p == [p[0]] + p[1..] && b == [b[0]] + b[1..];
    }
  }

  // ---------------------------------------------------------------------------------------------
  // The limb form of a bit string

  /** Number of full limbs before the last one. */
  function Full(s: Path): nat { if s == [] then 0 else (|s| - 1) / WIDTH }

  /** The bits of limb `i`. */
  function Chunk(s: Path, i: nat): (c: Path)
    requires i <= Full(s)
    ensures |c| <= WIDTH && (i < Full(s) ==> |c| == WIDTH)
  {
    s[WIDTH * i..if i < Full(s) then WIDTH * (i + 1) else |s|]
  }

  function Limb(s: Path, i: nat): nat
    requires i <= Full(s)
  {
    Pad(Chunk(s, i), WIDTH)
  }

  function Of(s: Path): (p: LOPath)
    requires |s| <= MAX_DEPTH
    ensures p.len <= WIDTH
  {
    var f := Full(s);
    LOPath(
      Limb(s, f),
      if f >= 1 then Some(Limb(s, f - 1)) else None,
      if f >= 2 then Some(Limb(s, f - 2)) else None,
      if f >= 3 then Some(Limb(s, f - 3)) else None,
      |s| - WIDTH * f)
  }

  lemma PadEmpty(w: nat)
    ensures Pad([], w) == 0
  {
  }

  /** The root is the empty bit string. */
  lemma RootIs()
    ensures Of([]) == Root()
  {
    hide Pad;
    PadEmpty(WIDTH);
  }

  lemma DepthIs(s: Path)
    requires |s| <= MAX_DEPTH
    ensures Depth(Of(s)) == |s| && FullLimbs(Of(s)) == Full(s) <= 3
  {
    hide Limb;
  }

  /** Appending a bit: the limb form follows, across promotions, up to depth 512. */
  lemma ExtendIs(s: Path, bit: bool)
    requires |s| <= MAX_DEPTH
    ensures ExtendBit(Of(s), bit) == if |s| < MAX_DEPTH then Ok(Of(s + [bit])) else Err(LOPathDepthExceeded)
    ensures Extend(s, bit).Ok? <==> ExtendBit(Of(s), bit).Ok?
  {
    hide Pad, OrBit;
    var f := Full(s);
    DepthIs(s);
    if Of(s).len < WIDTH {
      ExtendInLimb(s, bit);
    } else if |s| < MAX_DEPTH {
      ExtendNewLimb(s, bit);
    }
  }

  lemma SameLimb(s: Path, bit: bool, i: nat)
    requires i <= Full(s) && (i < Full(s) || |s| == WIDTH * (i + 1))
    ensures i <= Full(s + [bit]) && Limb(s + [bit], i) == Limb(s, i)
  {
    hide Pad;
    assert Chunk(s + [bit], i) == Chunk(s, i);
  }

  lemma ExtendInLimb(s: Path, bit: bool)
    requires |s| < MAX_DEPTH && |s| - WIDTH * Full(s) < WIDTH
    ensures ExtendBit(Of(s), bit) == Ok(Of(s + [bit]))
  {
    hide Pad, OrBit, Pow2;
    var f, t := Full(s), s + [bit];
    assert Full(t) == f;
    assert Chunk(t, f) == Chunk(s, f) + [bit];
    PadAppend(Chunk(s, f), WIDTH, bit);
    if f >= 1 { SameLimb(s, bit, f - 1); }
    if f >= 2 { SameLimb(s, bit, f - 2); }
    if f >= 3 { SameLimb(s, bit, f - 3); }
  }

  lemma ExtendNewLimb(s: Path, bit: bool)
    requires |s| < MAX_DEPTH && |s| - WIDTH * Full(s) == WIDTH
    ensures ExtendBit(Of(s), bit) == Ok(Of(s + [bit]))
  {
    hide Pad, OrBit, Pow2;
    var f, t := Full(s), s + [bit];
    assert Full(t) == f + 1;
    assert Chunk(t, f + 1) == [] + [bit];
    PadEmpty(WIDTH);
    PadAppend([], WIDTH, bit);
    SameLimb(s, bit, f);
    if f >= 1 { SameLimb(s, bit, f - 1); }
    if f >= 2 { SameLimb(s, bit, f - 2); }
  }

  // ---------------------------------------------------------------------------------------------
  // Prefix

  lemma LimbAt(s: Path, i: nat)
    requires |s| <= MAX_DEPTH && i <= Full(s)
    ensures |AllLimbs(Of(s))| == Full(s) + 1 && AllLimbs(Of(s))[i] == Limb(s, i)
  {
    hide Limb;
    DepthIs(s);
  }

  lemma ChunkNum(s: Path, i: nat)
    requires i < Full(s)
    ensures Limb(s, i) == Num(Chunk(s, i))
  {
    PadFull(Chunk(s, i), WIDTH);
  }

  lemma PadFull(s: Path, w: nat)
    requires |s| == w
    ensures Pad(s, w) == Num(s)
  {
    assert Pow2(w - |s|) == 1;
  }

  lemma {:induction false} PrefixFromExact(s: Path, t: Path, i: nat)
    requires s != [] && |s| <= |t| <= MAX_DEPTH && i <= Full(s)
    ensures PrefixFrom(Of(s), Of(t), i) <==> s[WIDTH * i..] == t[WIDTH * i..|s|]
    decreases Full(s) - i
  {
    hide Limb, Of, AllLimbs, Pow2, Num;
    LimbAt(s, i);
    LimbAt(t, i);
    if i < Full(s) {
      PrefixFromExact(s, t, i + 1);
      ChunkNum(s, i);
      ChunkNum(t, i);
      if Num(Chunk(s, i)) == Num(Chunk(t, i)) { NumInjective(Chunk(s, i), Chunk(t, i)); }
      var m := WIDTH * (i + 1);
      assert s[WIDTH * i..] == Chunk(s, i) + s[m..];
      assert t[WIDTH * i..|s|] == Chunk(t, i) + t[m..|s|];
      SplitEqual(Chunk(s, i), s[m..], Chunk(t, i), t[m..|s|]);
    } else {
      LastLimb(s, t);
    }
  }

  lemma SplitEqual(a: Path, b: Path, c: Path, d: Path)
    requires |a| == |c|
    ensures a + b == c + d <==> a == c && b == d
  {
    if a + b == c + d {
      assert a == (a + b)[..|a|] && c == (c + d)[..|c|];
      assert b == (a + b)[|a|..] && d == (c + d)[|c|..];
    }
  }

  lemma LastLimb(s: Path, t: Path)
    requires s != [] && |s| <= |t| <= MAX_DEPTH
    ensures
      var f := Full(s);
      f <= Full(t) && (Limb(s, f) / Pow2(WIDTH - Of(s).len) == Limb(t, f) / Pow2(WIDTH - Of(s).len) <==>
          s[WIDTH * f..] == t[WIDTH * f..|s|])
  {
    hide Pow2, Num, Pad;
    var f := Full(s);
    var n := |s| - WIDTH * f;
    PadHigh(Chunk(s, f), WIDTH, n);
    PadHigh(Chunk(t, f), WIDTH, n);
    assert Chunk(s, f)[..n] == s[WIDTH * f..];
    assert Chunk(t, f)[..n] == t[WIDTH * f..|s|];
    if Num(s[WIDTH * f..]) == Num(t[WIDTH * f..|s|]) { NumInjective(s[WIDTH * f..], t[WIDTH * f..|s|]); }
  }

  /** The limb test is sequence prefix. */
  lemma PrefixIs(s: Path, t: Path)
    requires |s| <= MAX_DEPTH && |t| <= MAX_DEPTH
    ensures IsPrefixOf(Of(s), Of(t)) <==> s <= t
  {
    hide Of, PrefixFrom;
    DepthIs(s);
    DepthIs(t);
    if s != [] && |s| <= |t| {
      PrefixFromExact(s, t, 0);
      assert s[WIDTH * 0..] == s && t[WIDTH * 0..|s|] == t[..|s|];
    }
  }

  // ---------------------------------------------------------------------------------------------
  // Order

  lemma {:induction false} NumFront(s: Path)
    requires s != []
    ensures Num(s) == (if s[0] then Pow2(|s| - 1) else 0) + Num(s[1..])
  {
    NumConcat(s[..1], s[1..]);
    assert s == s[..1] + s[1..] && s[..1][..0] == [];
    assert Num(s[..1]) == if s[0] then 1 else 0;
  }

  lemma PadFront(s: Path, w: nat)
    requires 0 < |s| <= w
    ensures Pad(s, w) == (if s[0] then Pow2(w - 1) else 0) + Pad(s[1..], w - 1)
  {
    hide Pow2, Num;
    NumFront(s);
    PowAdd(|s| - 1, w - |s|);
    Distribute(1, if s[0] then Pow2(|s| - 1) else 0, Num(s[1..]), Pow2(w - |s|));
  }

  lemma PadBound(s: Path, w: nat)
    requires |s| <= w
    ensures Pad(s, w) < Pow2(w)
  {
    hide Pow2, Num;
    NumBound(s);
    PowAdd(|s|, w - |s|);
    Below(Num(s), Pow2(|s|), Pow2(w - |s|));
  }

  /** A smaller left-aligned number means an earlier string, whatever follows a full limb. */
  lemma {:induction false} PadLess(a: Path, b: Path, w: nat, u: Path, v: Path)
    requires |a| <= w && |b| <= w && (|a| < w ==> u == []) && (|b| < w ==> v == []) && Pad(a, w) < Pad(b, w)
    ensures Lex(a + u, b + v).Less?
    decreases w
  {
    hide Pad, Pow2;
    if b == [] {
      PadEmpty(w);
    } else if a == [] {
      if w == 0 { PadEmpty(w); }
      assert a + u == [];
    } else {
      PadFront(a, w);
      PadFront(b, w);
      PadBound(a[1..], w - 1);
      PadBound(b[1..], w - 1);
      assert (a + u)[1..] == a[1..] + u && (b + v)[1..] == b[1..] + v;
      if a[0] == b[0] { PadLess(a[1..], b[1..], w - 1, u, v); }
    }
  }

  lemma {:induction false} PadEqual(a: Path, b: Path, w: nat)
    requires |a| <= |b| <= w && Pad(a, w) == Pad(b, w)
    ensures a <= b
    decreases w
  {
    hide Pad, Pow2;
    if a != [] {
      PadFront(a, w);
      PadFront(b, w);
      PadBound(a[1..], w - 1);
      PadBound(b[1..], w - 1);
      PadEqual(a[1..], b[1..], w - 1);
      assert a == [a[0]] + a[1..] && b == [b[0]] + b[1..];
    }
  }

  lemma {:induction false} LexPrefix(s: Path, t: Path)
    requires s <= t
    ensures Lex(s, t) == NatOrder(|s|, |t|) && Lex(t, s) == NatOrder(|t|, |s|)
  {
    if s != [] { LexPrefix(s[1..], t[1..]); }
  }

  /** The bits from limb `i` on. */
  function Rest(s: Path, i: nat): Path
    requires i <= Full(s)
  {
    s[WIDTH * i..]
  }

  lemma RestSplit(s: Path, i: nat)
    requires i <= Full(s)
    ensures Rest(s, i) == Chunk(s, i) + (if i < Full(s) then Rest(s, i + 1) else [])
    ensures i < Full(s) ==> |Rest(s, i + 1)| > 0
    ensures |Rest(s, i)| == |s| - WIDTH * i
  {
  }

  function OrderFrom(s: Path, t: Path, i: nat): Order
    requires |s| <= MAX_DEPTH && |t| <= MAX_DEPTH && i <= Full(s) && i <= Full(t)
  {
    LimbAt(s, i);
    LimbAt(t, i);
    var o := LimbOrder(AllLimbs(Of(s))[i..], AllLimbs(Of(t))[i..]);
    if o.Equal? then NatOrder(|s|, |t|) else o
  }

  lemma OrderStep(s: Path, t: Path, i: nat)
    requires |s| <= MAX_DEPTH && |t| <= MAX_DEPTH && i <= Full(s) && i <= Full(t)
    ensures
      OrderFrom(s, t, i) ==
      if Limb(s, i) != Limb(t, i) then NatOrder(Limb(s, i), Limb(t, i))
      else if i < Full(s) && i < Full(t) then OrderFrom(s, t, i + 1)
      else NatOrder(|s|, |t|)
  {
    hide Limb, Of, AllLimbs;
    LimbAt(s, i);
    LimbAt(t, i);
    var a, b := AllLimbs(Of(s)), AllLimbs(Of(t));
    assert a[i..][1..] == a[i + 1..] && b[i..][1..] == b[i + 1..];
    if !(i < Full(s) && i < Full(t)) { assert LimbOrder(a[i + 1..], b[i + 1..]).Equal?; }
  }

  lemma {:induction false} OrderFromExact(s: Path, t: Path, i: nat)
    requires |s| <= MAX_DEPTH && |t| <= MAX_DEPTH && i <= Full(s) && i <= Full(t)
    ensures OrderFrom(s, t, i) == Lex(Rest(s, i), Rest(t, i))
    decreases Full(s) - i
  {
    hide Limb, Of, AllLimbs, Pad, OrderFrom, Rest, Lex;
    OrderStep(s, t, i);
    RestSplit(s, i);
    RestSplit(t, i);
    var a, b := Chunk(s, i), Chunk(t, i);
    var u := if i < Full(s) then Rest(s, i + 1) else [];
    var v := if i < Full(t) then Rest(t, i + 1) else [];
    LimbIs(s, i);
    LimbIs(t, i);
    if Limb(s, i) < Limb(t, i) {
      PadLess(a, b, WIDTH, u, v);
    } else if Limb(s, i) > Limb(t, i) {
      PadLess(b, a, WIDTH, v, u);
      LexFlip(b + v, a + u);
    } else if i < Full(s) && i < Full(t) {
      PadEqual(a, b, WIDTH);
      assert a == b;
      LexCommon(a, u, v);
      OrderFromExact(s, t, i + 1);
    } else {
      EqualLimbs(a, b, u, v);
    }
  }

  lemma LimbIs(s: Path, i: nat)
    requires i <= Full(s)
    ensures Limb(s, i) == Pad(Chunk(s, i), WIDTH)
  {
  }

  lemma EqualLimbs(a: Path, b: Path, u: Path, v: Path)
    requires |a| <= WIDTH && |b| <= WIDTH && (|a| < WIDTH ==> u == []) && (|b| < WIDTH ==> v == [])
    requires Pad(a, WIDTH) == Pad(b, WIDTH) && (u == [] || v == [])
    ensures Lex(a + u, b + v) == NatOrder(|a + u|, |b + v|)
  {
    hide Pad, Lex;
    if |a| <= |b| { PadEqual(a, b, WIDTH); } else { PadEqual(b, a, WIDTH); }
    if a + u <= b + v {
      LexPrefix(a + u, b + v);
    } else {
      assert b + v <= a + u;
      LexPrefix(b + v, a + u);
    }
  }

  /** The limb comparison is the lexicographic order, prefixes first. */
  lemma CompareIs(s: Path, t: Path)
    requires |s| <= MAX_DEPTH && |t| <= MAX_DEPTH
    ensures Compare(Of(s), Of(t)) == Lex(s, t)
  {
    hide Of, Lex;
    DepthIs(s);
    DepthIs(t);
    LimbAt(s, 0);
    LimbAt(t, 0);
    OrderFromExact(s, t, 0);
    assert Rest(s, 0) == s && Rest(t, 0) == t;
    assert AllLimbs(Of(s))[0..] == AllLimbs(Of(s)) && AllLimbs(Of(t))[0..] == AllLimbs(Of(t));
  }

  /** It is a total order that is Equal only for identical paths. */
  lemma CompareTotal(s: Path, t: Path, u: Path)
    requires |s| <= MAX_DEPTH && |t| <= MAX_DEPTH && |u| <= MAX_DEPTH
    ensures Compare(Of(s), Of(t)).Equal? <==> s == t
    ensures Compare(Of(s), Of(t)).Less? <==> Compare(Of(t), Of(s)).Greater?
    ensures Compare(Of(s), Of(t)).Less? && Compare(Of(t), Of(u)).Less? ==> Compare(Of(s), Of(u)).Less?
    ensures Of(s) == Of(t) ==> s == t
  {
    hide Of, Lex, Compare;
    CompareIs(s, t);
    CompareIs(t, s);
    CompareIs(t, u);
    CompareIs(s, u);
    CompareIs(t, t);
    LexEqual(s, t);
    LexEqual(t, t);
    LexFlip(s, t);
    if Lex(s, t).Less? && Lex(t, u).Less? { LexTransitive(s, t, u); }
  }

  /** Between two paths below `p` every path is below `p`, as the limb operations see it. */
  lemma SubtreeContiguous(p: Path, a: Path, b: Path, c: Path)
    requires |p| <= MAX_DEPTH && |a| <= MAX_DEPTH && |b| <= MAX_DEPTH && |c| <= MAX_DEPTH
    requires IsPrefixOf(Of(p), Of(a)) && IsPrefixOf(Of(p), Of(c))
    requires !Compare(Of(a), Of(b)).Greater? && !Compare(Of(b), Of(c)).Greater?
    ensures IsPrefixOf(Of(p), Of(b))
  {
    hide Of, Lex, Compare, IsPrefixOf;
    PrefixIs(p, a);
    PrefixIs(p, b);
    PrefixIs(p, c);
    CompareIs(a, b);
    CompareIs(b, c);
    SubtreeInterval(p, a, b, c);
  }
}
