/** Little-endian byte encodings and the bounds-checked reads that invert them. */
module ByteCodec {
  import opened Common

  type Byte = b: int | 0 <= b < 256

  type Bytes = seq<Byte>

  const U16_END := 0x1_0000
  const U32_END := 0x1_0000_0000

  /** 256 to the power of `n`. */
  function Radix(n: nat): (r: nat)
    ensures r > 0
  {
    if n == 0 then 1 else 256 * Radix(n - 1)
  }

  /** The `n` low bytes of `v`, least significant first. */
  function Le(v: nat, n: nat): (r: Bytes)
    ensures |r| == n
    decreases n
  {
    if n == 0 then [] else [v % 256] + Le(v / 256, n - 1)
  }

  function FromLe(b: Bytes): nat {
    if b == [] then 0 else
    var low: int := b[0];
    low + 256 * FromLe(b[1..])
  }

  lemma {:induction false} FromLeOfLe(v: nat, n: nat)
    requires v < Radix(n)
    ensures FromLe(Le(v, n)) == v
    decreases n
  {
    if n > 0 {
      FromLeOfLe(v / 256, n - 1);
      assert Le(v, n)[1..] == Le(v / 256, n - 1);
    }
  }

  lemma {:induction false} LeOfFromLe(b: Bytes)
    ensures FromLe(b) < Radix(|b|) && Le(FromLe(b), |b|) == b
  {
    if b != [] {
      LeOfFromLe(b[1..]);
      assert b == [b[0]] + b[1..];
    }
  }

  lemma Radices()
    ensures Radix(2) == U16_END && Radix(4) == U32_END
  {
    assert Radix(1) == 256 && Radix(3) == 0x100_0000;
  }

  function Le16(v: nat): (r: Bytes)
    requires v < U16_END
    ensures |r| == 2
  {
    Le(v, 2)
  }

  function Le32(v: nat): (r: Bytes)
    requires v < U32_END
    ensures |r| == 4
  {
    Le(v, 4)
  }

  /** Two's complement. */
  function OfI16(v: int): (r: nat)
    requires FitsI16(v)
    ensures r < U16_END
  {
    if v < 0 then v + U16_END else v
  }

  function ToI16(v: nat): (r: int)
    requires v < U16_END
    ensures FitsI16(r)
  {
    if v < 0x8000 then v else v - U16_END
  }

  lemma Le16RoundTrip(v: nat, b: Bytes)
    ensures v < U16_END ==> FromLe(Le16(v)) == v
    ensures |b| == 2 ==> FromLe(b) < U16_END && Le16(FromLe(b)) == b
  {
    Radices();
    if v < U16_END { FromLeOfLe(v, 2); }
    if |b| == 2 { LeOfFromLe(b); }
  }

  lemma Le32RoundTrip(v: nat, b: Bytes)
    ensures v < U32_END ==> FromLe(Le32(v)) == v
    ensures |b| == 4 ==> FromLe(b) < U32_END && Le32(FromLe(b)) == b
  {
    Radices();
    if v < U32_END { FromLeOfLe(v, 4); }
    if |b| == 4 { LeOfFromLe(b); }
  }

  // ---------------------------------------------------------------------------------------------
  // Reads at a position answer the value and the next position

  /** The input holds `part` at `pos`. */
  predicate Holds(input: Bytes, pos: nat, part: Bytes) {
    pos + |part| <= |input| && input[pos..pos + |part|] == part
  }

  lemma HoldsWhole(input: Bytes)
    ensures Holds(input, 0, input)
  {
  }

  lemma HoldsConcat(input: Bytes, pos: nat, a: Bytes, b: Bytes)
    ensures Holds(input, pos, a + b) <==> Holds(input, pos, a) && Holds(input, pos + |a|, b)
  {
    if pos + |a| + |b| <= |input| {
      var whole := input[pos..pos + |a + b|];
      assert whole[..|a|] == input[pos..pos + |a|];
      assert whole[|a|..] == input[pos + |a|..pos + |a| + |b|];
      assert whole == whole[..|a|] + whole[|a|..];
      assert (a + b)[..|a|] == a && (a + b)[|a|..] == b;
    }
  }

  function ReadU8(input: Bytes, pos: nat): Result<(Byte, nat)> {
    if pos < |input| then Ok((input[pos], pos + 1)) else Err(ReadbackIncomplete)
  }

  function Take(input: Bytes, pos: nat, n: nat): (r: Result<(Bytes, nat)>)
    ensures r.Ok? ==> |r.value.0| == n && r.value.1 == pos + n
  {
    if pos + n <= |input| then Ok((input[pos..pos + n], pos + n)) else Err(ReadbackIncomplete)
  }

  function ReadU16(input: Bytes, pos: nat): Result<(nat, nat)> {
    var (b, p) :- Take(input, pos, 2);
    Ok((FromLe(b), p))
  }

  function ReadI16(input: Bytes, pos: nat): Result<(int, nat)> {
    var (b, p) :- Take(input, pos, 2);
    Le16RoundTrip(0, b);
    Ok((ToI16(FromLe(b)), p))
  }

  function ReadU32(input: Bytes, pos: nat): Result<(nat, nat)> {
    var (b, p) :- Take(input, pos, 4);
    Ok((FromLe(b), p))
  }

  lemma ReadU8Exact(input: Bytes, pos: nat, v: Byte, p: nat)
    ensures ReadU8(input, pos) == Ok((v, p)) <==> Holds(input, pos, [v]) && p == pos + 1
  {
  }

  lemma ReadU16Exact(input: Bytes, pos: nat, v: nat, p: nat)
    ensures ReadU16(input, pos) == Ok((v, p)) <==> v < U16_END && Holds(input, pos, Le16(v)) && p == pos + 2
  {
    Le16RoundTrip(v, if pos + 2 <= |input| then input[pos..pos + 2] else []);
  }

  lemma ReadI16Exact(input: Bytes, pos: nat, v: int, p: nat)
    ensures ReadI16(input, pos) == Ok((v, p)) <==> FitsI16(v) && Holds(input, pos, Le16(OfI16(v))) && p == pos + 2
  {
    if FitsI16(v) { Le16RoundTrip(OfI16(v), []); }
    Le16RoundTrip(0, if pos + 2 <= |input| then input[pos..pos + 2] else []);
  }

  lemma ReadU32Exact(input: Bytes, pos: nat, v: nat, p: nat)
    ensures ReadU32(input, pos) == Ok((v, p)) <==> v < U32_END && Holds(input, pos, Le32(v)) && p == pos + 4
  {
    Le32RoundTrip(v, if pos + 4 <= |input| then input[pos..pos + 4] else []);
  }
}
