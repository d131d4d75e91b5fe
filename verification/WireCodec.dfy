/** The sync messages of the fetch protocol and their length-prefixed frames. */
module WireCodec {
  import opened Common
  import opened ByteCodec

  type Hash = b: Bytes | |b| == 32 witness ZeroHash()

  function ZeroHash(): (b: Bytes)
    ensures |b| == 32
  {
    seq(32, i => 0)
  }

  /** Text travels as its UTF-8 bytes. */
  datatype Msg =
    | Want(keys: seq<Hash>)
    | Have(keys: seq<Hash>)
    | Blobs(pairs: seq<(Hash, Bytes)>)
    | Held(bits: seq<bool>)
    | Failed(kind: Byte, why: Bytes)

  datatype CacheError = Io | Decode(error: Error) | HashMismatch

  datatype Fallible<+T> = Fine(value: T) | Bad(error: CacheError) {
    predicate IsFailure() { Bad? }

    function PropagateFailure<U>(): Fallible<U>
      requires Bad?
    {
      Bad(error)
    }

    function Extract(): T
      requires Fine?
    {
      value
    }
  }

  const MAX_FRAME := 0x1000_0000
  const TAG_WANT: Byte := 0x10
  const TAG_HAVE: Byte := 0x11
  const TAG_BLOBS: Byte := 0x90
  const TAG_HELD: Byte := 0x91
  const TAG_FAILED: Byte := 0x9F

  predicate Tail(b: Byte) { 0x80 <= b <= 0xBF }

  /** Length of the UTF-8 character at the front, 0 if there is none (section 4 of RFC 3629). */
  function CharLength(b: Bytes): nat
    requires b != []
  {
    var c: int := b[0];
    if c <= 0x7F then 1
    else if 0xC2 <= c <= 0xDF && |b| >= 2 && Tail(b[1]) then 2
    else if 0xE0 <= c <= 0xEF && |b| >= 3 && Tail(b[1]) && Tail(b[2]) && (c == 0xE0 ==> b[1] >= 0xA0) &&
        (c == 0xED ==> b[1] <= 0x9F) then 3
    else if 0xF0 <= c <= 0xF4 && |b| >= 4 && Tail(b[1]) && Tail(b[2]) && Tail(b[3]) &&
        (c == 0xF0 ==> b[1] >= 0x90) && (c == 0xF4 ==> b[1] <= 0x8F) then 4
    else 0
  }

  predicate Utf8(b: Bytes)
    decreases |b|
  {
    b == [] || (0 < CharLength(b) <= |b| && Utf8(b[CharLength(b)..]))
  }

  // ---------------------------------------------------------------------------------------------
  // Writing

  function Flat(keys: seq<Hash>): Bytes {
    if keys == [] then [] else keys[0] + Flat(keys[1..])
  }

  function EncodeHashes(keys: seq<Hash>): Fallible<Bytes> {
    if |keys| >= U32_END then Bad(Io) else Fine(Le32(|keys|) + Flat(keys))
  }

  function EncodePairs(pairs: seq<(Hash, Bytes)>): Fallible<Bytes> {
    if pairs == [] then Fine([]) else
    if |pairs[0].1| >= U32_END then Bad(Io) else
    var rest :- EncodePairs(pairs[1..]);
    Fine(pairs[0].0 + (Le32(|pairs[0].1|) + (pairs[0].1 + rest)))
  }

  function Bit(b: bool): Byte { if b then 1 else 0 }

  function EncodeBits(bits: seq<bool>): Bytes {
    if bits == [] then [] else [Bit(bits[0])] + EncodeBits(bits[1..])
  }

  function EncodeBody(m: Msg): Fallible<Bytes> {
    match m
    case Want(keys) =>
      var b :- EncodeHashes(keys);
      Fine([TAG_WANT] + b)
    case Have(keys) =>
      var b :- EncodeHashes(keys);
      Fine([TAG_HAVE] + b)
    case Blobs(pairs) =>
      if |pairs| >= U32_END then Bad(Io) else
      var b :- EncodePairs(pairs);
      Fine([TAG_BLOBS] + (Le32(|pairs|) + b))
    case Held(bits) =>
      if |bits| >= U32_END then Bad(Io) else
      Fine([TAG_HELD] + (Le32(|bits|) + EncodeBits(bits)))
    case Failed(kind, why) =>
      if |why| >= U32_END then Bad(Io) else
      Fine([TAG_FAILED] + ([kind] + (Le32(|why|) + why)))
  }

  /** The frame of a message: its length, then its body. */
  function WriteMsg(m: Msg): Fallible<Bytes> {
    var body :- EncodeBody(m);
    if |body| > MAX_FRAME then Bad(Io) else Fine(Le32(|body|) + body)
  }

  // ---------------------------------------------------------------------------------------------
  // Reading

  function FromResult<T>(r: Result<T>): Fallible<T> {
    if r.Ok? then Fine(r.value) else Bad(Io)
  }

  function TakeHash(b: Bytes, pos: nat): Fallible<(Hash, nat)> {
    var (h, p) :- FromResult(Take(b, pos, 32));
    Fine((h, p))
  }

  function TakeHashes(b: Bytes, pos: nat, n: nat): (r: Fallible<(seq<Hash>, nat)>)
    ensures r.Fine? ==> |r.value.0| == n
    decreases n
  {
    if n == 0 then Fine(([], pos)) else
    var (h, p) :- TakeHash(b, pos);
    var (rest, q) :- TakeHashes(b, p, n - 1);
    Fine(([h] + rest, q))
  }

  function TakePair(b: Bytes, pos: nat): Fallible<((Hash, Bytes), nat)> {
    var (h, p) :- TakeHash(b, pos);
    var (len, q) :- FromResult(ReadU32(b, p));
    var (blob, r) :- FromResult(Take(b, q, len));
    Fine(((h, blob), r))
  }

  function TakePairs(b: Bytes, pos: nat, n: nat): Fallible<(seq<(Hash, Bytes)>, nat)>
    decreases n
  {
    if n == 0 then Fine(([], pos)) else
    var (pair, p) :- TakePair(b, pos);
    var (rest, q) :- TakePairs(b, p, n - 1);
    Fine(([pair] + rest, q))
  }

  function TakeBits(b: Bytes, pos: nat, n: nat): Fallible<(seq<bool>, nat)>
    decreases n
  {
    if n == 0 then Fine(([], pos)) else
    var (x, p) :- FromResult(ReadU8(b, pos));
    var (rest, q) :- TakeBits(b, p, n - 1);
    Fine(([x != 0] + rest, q))
  }

  function TakeMsg(b: Bytes): Fallible<(Msg, nat)> {
    var (tag, p) :- FromResult(ReadU8(b, 0));
    if tag == TAG_WANT || tag == TAG_HAVE then
      var (n, q) :- FromResult(ReadU32(b, p));
      var (keys, r) :- TakeHashes(b, q, n);
      Fine((if tag == TAG_WANT then Want(keys) else Have(keys), r))
    else if tag == TAG_BLOBS then
      var (n, q) :- FromResult(ReadU32(b, p));
      var (pairs, r) :- TakePairs(b, q, n);
      Fine((Blobs(pairs), r))
    else if tag == TAG_HELD then
      var (n, q) :- FromResult(ReadU32(b, p));
      var (bits, r) :- TakeBits(b, q, n);
      Fine((Held(bits), r))
    else if tag == TAG_FAILED then
      var (kind, q) :- FromResult(ReadU8(b, p));
      var (n, r) :- FromResult(ReadU32(b, q));
      var (why, s) :- FromResult(Take(b, r, n));
      if !Utf8(why) then Bad(Io) else Fine((Failed(kind, why), s))
    else Bad(Io)
  }

  /** A frame body must decode exactly. */
  function DecodeBody(b: Bytes): Fallible<Msg> {
    var (m, p) :- TakeMsg(b);
    if p != |b| then Bad(Io) else Fine(m)
  }

  /** One frame off the front of a stream. */
  function ReadMsg(stream: Bytes): Fallible<(Msg, Bytes)> {
    var (len, p) :- FromResult(ReadU32(stream, 0));
    if len > MAX_FRAME then Bad(Io) else
    var (body, q) :- FromResult(Take(stream, p, len));
    var m :- DecodeBody(body);
    Fine((m, stream[q..]))
  }

  // ---------------------------------------------------------------------------------------------
  // Reading inverts writing

  lemma TakeExact(b: Bytes, pos: nat, part: Bytes)
    requires Holds(b, pos, part)
    ensures Take(b, pos, |part|) == Ok((part, pos + |part|))
  {
  }

  lemma {:induction false} HashesBack(b: Bytes, pos: nat, keys: seq<Hash>)
    requires Holds(b, pos, Flat(keys))
    ensures TakeHashes(b, pos, |keys|) == Fine((keys, pos + |Flat(keys)|))
    decreases |keys|
  {
    hide Holds;
    if keys != [] {
      HoldsConcat(b, pos, keys[0], Flat(keys[1..]));
      TakeExact(b, pos, keys[0]);
      HashesBack(b, pos + 32, keys[1..]);
      assert [keys[0]] + keys[1..] == keys;
    }
  }

  lemma {:induction false} BitsBack(b: Bytes, pos: nat, bits: seq<bool>)
    requires Holds(b, pos, EncodeBits(bits))
    ensures TakeBits(b, pos, |bits|) == Fine((bits, pos + |EncodeBits(bits)|))
    decreases |bits|
  {
    hide Holds;
    if bits != [] {
      HoldsConcat(b, pos, [Bit(bits[0])], EncodeBits(bits[1..]));
      ReadU8Exact(b, pos, Bit(bits[0]), pos + 1);
      BitsBack(b, pos + 1, bits[1..]);
      assert [bits[0]] + bits[1..] == bits;
    }
  }

  lemma {:induction false} PairsBack(b: Bytes, pos: nat, pairs: seq<(Hash, Bytes)>)
    requires EncodePairs(pairs).Fine? && Holds(b, pos, EncodePairs(pairs).value)
    ensures TakePairs(b, pos, |pairs|) == Fine((pairs, pos + |EncodePairs(pairs).value|))
    decreases |pairs|
  {
    hide Holds, ReadU32, Le32, Take;
    if pairs != [] {
      var (h, blob) := pairs[0];
      var rest := EncodePairs(pairs[1..]).value;
      HoldsConcat(b, pos, h, Le32(|blob|) + (blob + rest));
      HoldsConcat(b, pos + 32, Le32(|blob|), blob + rest);
      HoldsConcat(b, pos + 36, blob, rest);
      TakeExact(b, pos, h);
      ReadU32Exact(b, pos + 32, |blob|, pos + 36);
      TakeExact(b, pos + 36, blob);
      PairsBack(b, pos + 36 + |blob|, pairs[1..]);
      assert [pairs[0]] + pairs[1..] == pairs;
    }
  }

  /** Text in a failure message is text. */
  predicate WellFormed(m: Msg) { m.Failed? ==> Utf8(m.why) }

  lemma BodyRoundTrip(m: Msg)
    requires WellFormed(m) && EncodeBody(m).Fine?
    ensures DecodeBody(EncodeBody(m).value) == Fine(m)
  {
    hide Holds, Le32, TakePairs, TakeHashes, TakeBits, EncodePairs, EncodeBits, Flat, Utf8, Take, ReadU32;
    var b := EncodeBody(m).value;
    assert Holds(b, 0, b) by { HoldsWhole(b); }
    match m
    case Want(keys) => HashMsgBack(b, TAG_WANT, keys);
    case Have(keys) => HashMsgBack(b, TAG_HAVE, keys);
    case Blobs(pairs) =>
      var body := EncodePairs(pairs).value;
      HoldsConcat(b, 0, [TAG_BLOBS], Le32(|pairs|) + body);
      HoldsConcat(b, 1, Le32(|pairs|), body);
      ReadU32Exact(b, 1, |pairs|, 5);
      PairsBack(b, 5, pairs);
    case Held(bits) =>
      HoldsConcat(b, 0, [TAG_HELD], Le32(|bits|) + EncodeBits(bits));
      HoldsConcat(b, 1, Le32(|bits|), EncodeBits(bits));
      ReadU32Exact(b, 1, |bits|, 5);
      BitsBack(b, 5, bits);
    case Failed(kind, why) =>
      HoldsConcat(b, 0, [TAG_FAILED], [kind] + (Le32(|why|) + why));
      HoldsConcat(b, 1, [kind], Le32(|why|) + why);
      HoldsConcat(b, 2, Le32(|why|), why);
      ReadU8Exact(b, 1, kind, 2);
      ReadU32Exact(b, 2, |why|, 6);
      TakeExact(b, 6, why);
  }

  lemma HashMsgBack(b: Bytes, tag: Byte, keys: seq<Hash>)
    requires tag == TAG_WANT || tag == TAG_HAVE
    requires |keys| < U32_END && b == [tag] + (Le32(|keys|) + Flat(keys))
    ensures DecodeBody(b) == Fine(if tag == TAG_WANT then Want(keys) else Have(keys))
  {
    hide Holds, Le32, TakeHashes, Flat, ReadU32;
    HoldsWhole(b);
    HoldsConcat(b, 0, [tag], Le32(|keys|) + Flat(keys));
    HoldsConcat(b, 1, Le32(|keys|), Flat(keys));
    ReadU32Exact(b, 1, |keys|, 5);
    HashesBack(b, 5, keys);
  }

  /** `read_msg` inverts `write_msg` and consumes exactly the frame. */
  lemma MsgRoundTrip(m: Msg, rest: Bytes)
    requires WellFormed(m) && WriteMsg(m).Fine?
    ensures ReadMsg(WriteMsg(m).value + rest) == Fine((m, rest))
  {
    hide Holds, Le32, EncodeBody, DecodeBody, Take, ReadU32, Utf8;
    var body := EncodeBody(m).value;
    var stream := Le32(|body|) + body + rest;
    assert stream == Le32(|body|) + (body + rest);
    HoldsWhole(stream);
    HoldsConcat(stream, 0, Le32(|body|), body + rest);
    HoldsConcat(stream, 4, body, rest);
    ReadU32Exact(stream, 0, |body|, 4);
    TakeExact(stream, 4, body);
    BodyRoundTrip(m);
    assert stream[4 + |body|..] == rest;
  }
}
