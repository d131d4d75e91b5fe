/** The message reader and writer as they run: a cursor over a frame body, and loops over counts. */
module WireCursor {
  import opened ByteCodec
  import opened WireCodec

  class Cursor {
    const bytes: Bytes
    var pos: nat

    constructor (bytes: Bytes)
      ensures this.bytes == bytes && pos == 0
    {
      this.bytes := bytes;
      pos := 0;
    }

    method TakeRun(n: nat) returns (r: Fallible<Bytes>)
      modifies this
      ensures FromResult(Take(bytes, old(pos), n)) == if r.Fine? then Fine((r.value, pos)) else Bad(r.error)
    {
      var end := pos + n;
      if end > |bytes| { return Bad(Io); }
      r := Fine(bytes[pos..end]);
      pos := end;
    }

    method U8() returns (r: Fallible<Byte>)
      modifies this
      ensures FromResult(ReadU8(bytes, old(pos))) == if r.Fine? then Fine((r.value, pos)) else Bad(r.error)
    {
      var b :- TakeRun(1);
      return Fine(b[0]);
    }

    method U32() returns (r: Fallible<nat>)
      modifies this
      ensures FromResult(ReadU32(bytes, old(pos))) == if r.Fine? then Fine((r.value, pos)) else Bad(r.error)
    {
      var b :- TakeRun(4);
      return Fine(FromLe(b));
    }

    method HashKey() returns (r: Fallible<Hash>)
      modifies this
      ensures TakeHash(bytes, old(pos)) == if r.Fine? then Fine((r.value, pos)) else Bad(r.error)
    {
      var b :- TakeRun(32);
      return Fine(b);
    }

    /** The peer's count bounds the loop and sizes nothing. */
    method Hashes(n: nat) returns (r: Fallible<seq<Hash>>)
      modifies this
      ensures TakeHashes(bytes, old(pos), n) == if r.Fine? then Fine((r.value, pos)) else Bad(r.error)
    {
      hide TakeHash;
      var out: seq<Hash> := [];
      PrependAtNone(TakeHashes(bytes, pos, n));
      for i := 0 to n
        invariant TakeHashes(bytes, old(pos), n) == PrependAt(out, TakeHashes(bytes, pos, n - i))
      {
        var h :- HashKey();
        PrependAtMore(out, h, TakeHashes(bytes, pos, n - i - 1));
        out := out + [h];
      }
      assert out + [] == out;
      return Fine(out);
    }

    method Pair() returns (r: Fallible<(Hash, Bytes)>)
      modifies this
      ensures TakePair(bytes, old(pos)) == if r.Fine? then Fine((r.value, pos)) else Bad(r.error)
    {
      hide TakeHash, ReadU32;
      var h :- HashKey();
      var len :- U32();
      var blob :- TakeRun(len);
      return Fine((h, blob));
    }

    method Pairs(n: nat) returns (r: Fallible<seq<(Hash, Bytes)>>)
      modifies this
      ensures TakePairs(bytes, old(pos), n) == if r.Fine? then Fine((r.value, pos)) else Bad(r.error)
    {
      hide TakePair;
      var out: seq<(Hash, Bytes)> := [];
      PrependAtNone(TakePairs(bytes, pos, n));
      for i := 0 to n
        invariant TakePairs(bytes, old(pos), n) == PrependAt(out, TakePairs(bytes, pos, n - i))
      {
        var p :- Pair();
        PrependAtMore(out, p, TakePairs(bytes, pos, n - i - 1));
        out := out + [p];
      }
      assert out + [] == out;
      return Fine(out);
    }

    method Bits(n: nat) returns (r: Fallible<seq<bool>>)
      modifies this
      ensures TakeBits(bytes, old(pos), n) == if r.Fine? then Fine((r.value, pos)) else Bad(r.error)
    {
      hide ReadU8;
      var out: seq<bool> := [];
      PrependAtNone(TakeBits(bytes, pos, n));
      for i := 0 to n
        invariant TakeBits(bytes, old(pos), n) == PrependAt(out, TakeBits(bytes, pos, n - i))
      {
        var b :- U8();
        PrependAtMore(out, b != 0, TakeBits(bytes, pos, n - i - 1));
        out := out + [b != 0];
      }
      assert out + [] == out;
      return Fine(out);
    }

    method Message() returns (r: Fallible<Msg>)
      requires pos == 0
      modifies this
      ensures TakeMsg(bytes) == if r.Fine? then Fine((r.value, pos)) else Bad(r.error)
    {
      hide TakeHashes, TakePairs, TakeBits, ReadU32, ReadU8, Take, Utf8;
      var tag :- U8();
      if tag == TAG_WANT || tag == TAG_HAVE {
        var n :- U32();
        var keys :- Hashes(n);
        return Fine(if tag == TAG_WANT then Want(keys) else Have(keys));
      } else if tag == TAG_BLOBS {
        var n :- U32();
        var pairs :- Pairs(n);
        return Fine(Blobs(pairs));
      } else if tag == TAG_HELD {
        var n :- U32();
        var bits :- Bits(n);
        return Fine(Held(bits));
      } else if tag == TAG_FAILED {
        var kind :- U8();
        var n :- U32();
        var why :- TakeRun(n);
        if !Utf8(why) { return Bad(Io); }
        return Fine(Failed(kind, why));
      }
      return Bad(Io);
    }
  }

  function PrependAt<T>(done: seq<T>, rest: Fallible<(seq<T>, nat)>): Fallible<(seq<T>, nat)> {
    if rest.Fine? then Fine((done + rest.value.0, rest.value.1)) else rest
  }

  lemma PrependAtNone<T>(rest: Fallible<(seq<T>, nat)>)
    ensures PrependAt([], rest) == rest
  {
    if rest.Fine? { assert [] + rest.value.0 == rest.value.0; }
  }

  lemma PrependAtMore<T>(done: seq<T>, x: T, rest: Fallible<(seq<T>, nat)>)
    ensures PrependAt(done + [x], rest) == PrependAt(done, PrependAt([x], rest))
  {
    if rest.Fine? { assert done + [x] + rest.value.0 == done + ([x] + rest.value.0); }
  }

  /** Read one frame and parse its body. */
  method ReadFrame(stream: Bytes) returns (r: Fallible<(Msg, Bytes)>)
    ensures r == ReadMsg(stream)
  {
    hide TakeMsg;
    var head :- FromResult(ReadU32(stream, 0));
    if head.0 > MAX_FRAME { return Bad(Io); }
    var body :- FromResult(Take(stream, head.1, head.0));
    var c := new Cursor(body.0);
    var m :- c.Message();
    if c.pos != |body.0| { return Bad(Io); }
    return Fine((m, stream[body.1..]));
  }
}
