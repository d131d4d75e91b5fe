/**
 Leftmost-outermost paths as they are stored: up to four 128-bit limbs, most significant bit
 first, the last one partly filled. They refine bit strings of length at most 512.
 */
module LOPaths {
  import opened Common
  import opened Nets

  const WIDTH: nat := 128

  /** `frozen`, `cold`, `warm` are full limbs, oldest first; `len` bits of `hot` are used. */
  datatype LOPath = LOPath(hot: nat, warm: Option<nat>, cold: Option<nat>, frozen: Option<nat>, len: nat)

  datatype Order = Less | Equal | Greater

  function Pow2(n: nat): (r: nat)
    ensures r > 0
  {
    if n == 0 then 1 else 2 * Pow2(n - 1)
  }

  function Root(): LOPath { LOPath(0, None, None, None, 0) }

  /** `v | bit << pos` */
  function OrBit(v: nat, bit: bool, pos: nat): nat {
    if bit && v / Pow2(pos) % 2 == 0 then v + Pow2(pos) else v
  }

  /** Retire a full hot limb; with all four in use the path is as deep as it can be. */
  function Promote(p: LOPath): Result<LOPath> {
    if p.warm.None? then Ok(p.(warm := Some(p.hot), hot := 0, len := 0))
    else if p.cold.None? then Ok(p.(cold := p.warm, warm := Some(p.hot), hot := 0, len := 0))
    else if p.frozen.None? then Ok(p.(frozen := p.cold, cold := p.warm, warm := Some(p.hot), hot := 0, len := 0))
    else Err(LOPathDepthExceeded)
  }

  function ExtendBit(p: LOPath, bit: bool): Result<LOPath>
    requires p.len <= WIDTH
  {
    var out :- if p.len == WIDTH then Promote(p) else Ok(p);
    Ok(out.(hot := OrBit(out.hot, bit, WIDTH - 1 - out.len), len := out.len + 1))
  }

  function FullLimbs(p: LOPath): nat {
    if p.frozen.Some? then 3 else if p.cold.Some? then 2 else if p.warm.Some? then 1 else 0
  }

  function Depth(p: LOPath): nat { FullLimbs(p) * WIDTH + p.len }

  function OptLimb(o: Option<nat>): seq<nat> { if o.Some? then [o.value] else [] }

  function AllLimbs(p: LOPath): (r: seq<nat>)
    ensures |r| > 0
  {
    OptLimb(p.frozen) + OptLimb(p.cold) + OptLimb(p.warm) + [p.hot]
  }

  function NthLimb(p: LOPath, i: nat): nat {
    if i < |AllLimbs(p)| then AllLimbs(p)[i] else 0
  }

  /** Limbs from `i` on agree, the last one on its used bits. */
  predicate PrefixFrom(p: LOPath, q: LOPath, i: nat)
    requires p.len <= WIDTH
    decreases |AllLimbs(p)| - i
  {
    if i >= |AllLimbs(p)| then true
    else if i + 1 < |AllLimbs(p)| then AllLimbs(p)[i] == NthLimb(q, i) && PrefixFrom(p, q, i + 1)
    else AllLimbs(p)[i] / Pow2(WIDTH - p.len) == NthLimb(q, i) / Pow2(WIDTH - p.len)
  }

  predicate IsPrefixOf(p: LOPath, q: LOPath)
    requires p.len <= WIDTH
  {
    Depth(p) == 0 || (Depth(p) <= Depth(q) && PrefixFrom(p, q, 0))
  }

  method PrefixLoop(p: LOPath, q: LOPath) returns (r: bool)
    requires p.len <= WIDTH
    ensures r == IsPrefixOf(p, q)
  {
    hide Pow2, AllLimbs, NthLimb, Depth;
    if Depth(p) == 0 { return true; }
    if Depth(p) > Depth(q) { return false; }
    var limbs := AllLimbs(p);
    for i := 0 to |limbs|
      invariant PrefixFrom(p, q, 0) == PrefixFrom(p, q, i)
    {
      if i + 1 < |limbs| {
        if limbs[i] != NthLimb(q, i) { return false; }
      } else {
        var unused := Pow2(WIDTH - p.len);
        if limbs[i] / unused != NthLimb(q, i) / unused { return false; }
      }
    }
    return true;
  }

  function NatOrder(a: nat, b: nat): Order {
    if a < b then Less else if a > b then Greater else Equal
  }

  /** The first difference among paired limbs. */
  function LimbOrder(a: seq<nat>, b: seq<nat>): Order {
    if a == [] || b == [] then Equal
    else if a[0] != b[0] then NatOrder(a[0], b[0])
    else LimbOrder(a[1..], b[1..])
  }

  function Compare(p: LOPath, q: LOPath): Order {
    var o := LimbOrder(AllLimbs(p), AllLimbs(q));
    if o.Equal? then NatOrder(Depth(p), Depth(q)) else o
  }

  method CompareLoop(p: LOPath, q: LOPath) returns (r: Order)
    ensures r == Compare(p, q)
  {
    var a, b := AllLimbs(p), AllLimbs(q);
    var i := 0;
    while i < |a| && i < |b|
      invariant i <= |a| && i <= |b|
      invariant LimbOrder(a, b) == LimbOrder(a[i..], b[i..])
    {
      assert a[i..][1..] == a[i + 1..] && b[i..][1..] == b[i + 1..];
      if a[i] < b[i] { return Less; }
      if a[i] > b[i] { return Greater; }
      i := i + 1;
    }
    return NatOrder(Depth(p), Depth(q));
  }

  // ---------------------------------------------------------------------------------------------
  // Bit strings

  /** The number a bit string spells, most significant bit first. */
  function Num(s: Path): nat {
    if s == [] then 0 else 2 * Num(s[..|s| - 1]) + (if s[|s| - 1] then 1 else 0)
  }

  /** The string left-aligned in `w` bits. */
  function Pad(s: Path, w: nat): nat
    requires |s| <= w
  {
    Num(s) * Pow2(w - |s|)
  }

  lemma {:induction false} NumBound(s: Path)
    ensures Num(s) < Pow2(|s|)
  {
    if s != [] { NumBound(s[..|s| - 1]); }
  }

  lemma Assoc(a: nat, b: nat, c: nat)
    ensures a * b * c == a * (b * c)
  {
  }

  lemma Distribute(a: nat, b: nat, c: nat, d: nat)
    ensures (a * b + c) * d == a * (b * d) + c * d
  {
    Assoc(a, b, d);
  }

  lemma Below(a: nat, b: nat, d: nat)
    requires a < b && d > 0
    ensures a * d < b * d
  {
  }

  lemma {:induction false} PowAdd(a: nat, b: nat)
    ensures Pow2(a + b) == Pow2(a) * Pow2(b)
    decreases a
  {
    if a > 0 {
      PowAdd(a - 1, b);
      Assoc(2, Pow2(a - 1), Pow2(b));
    }
  }

  lemma {:induction false} NumConcat(s: Path, t: Path)
    ensures Num(s + t) == Num(s) * Pow2(|t|) + Num(t)
    decreases |t|
  {
    if t == [] {
      assert s + t == s;
    } else {
      var t' := t[..|t| - 1];
      NumConcat(s, t');
      assert (s + t)[..|s + t| - 1] == s + t';
      assert 2 * (Num(s) * Pow2(|t'|)) == Num(s) * (2 * Pow2(|t'|));
    }
  }

  lemma {:induction false} NumInjective(s: Path, t: Path)
    requires |s| == |t| && Num(s) == Num(t)
    ensures s == t
  {
    if s != [] {
      NumInjective(s[..|s| - 1], t[..|t| - 1]);
      assert s == s[..|s| - 1] + [s[|s| - 1]] && t == t[..|t| - 1] + [t[|t| - 1]];
    }
  }

  lemma DivExact(a: nat, b: nat, r: nat)
    requires b > 0 && r < b
    ensures (a * b + r) / b == a
  {
    assert (a * b + r) - a * b == r;
    DivUnique(a * b + r, b, a, r);
  }

  lemma DivUnique(x: nat, b: nat, a: nat, r: nat)
    requires b > 0 && r < b && x == a * b + r
    ensures x / b == a
  {
    var q := x / b;
    assert x == q * b + x % b;
    assert q < a ==> (q + 1) * b <= a * b;
    assert q > a ==> (a + 1) * b <= q * b;
  }

  /** The high bits of a left-aligned string are its prefix. */
  lemma PadHigh(s: Path, w: nat, n: nat)
    requires n <= |s| <= w
    ensures Pad(s, w) / Pow2(w - n) == Num(s[..n])
  {
    hide Pow2, Num;
    var a, b, unit := s[..n], s[n..], Pow2(w - |s|);
    assert s == a + b;
    NumConcat(a, b);
    NumBound(b);
    PowAdd(|b|, w - |s|);
    assert |b| + (w - |s|) == w - n;
    Distribute(Num(a), Pow2(|b|), Num(b), unit);
    Below(Num(b), Pow2(|b|), unit);
    DivExact(Num(a), Pow2(w - n), Num(b) * unit);
  }

  /** Setting the next bit of a left-aligned string appends it. */
  lemma PadAppend(s: Path, w: nat, bit: bool)
    requires |s| < w
    ensures OrBit(Pad(s, w), bit, w - 1 - |s|) == Pad(s + [bit], w)
  {
    var unit := Pow2(w - 1 - |s|);
    assert (s + [bit])[..|s|] == s;
    assert Pow2(w - |s|) == 2 * unit;
    HalfUnits(Num(s), unit);
    DivExact(2 * Num(s), unit, 0);
    Distribute(1, 2 * Num(s), 1, unit);
  }

  lemma HalfUnits(n: nat, unit: nat)
    ensures n * (2 * unit) == 2 * n * unit
  {
  }
}
