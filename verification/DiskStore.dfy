/** The on-disk store as an object, and the client side of the protocol acting on it. */
module DiskStore {
  import opened Common
  import opened Arenas
  import opened Nets
  import opened ByteCodec
  import opened Canonical
  import opened Blob
  import opened BlobBuild
  import opened BlobRebuild
  import opened WireCodec
  import opened WireCursor
  import opened Dist
  import Artifact

  // ---------------------------------------------------------------------------------------------
  // File names

  const DIGITS: seq<char> := "0123456789abcdef"

  function Hex(b: Bytes): string {
    if b == [] then "" else [DIGITS[b[0] / 16], DIGITS[b[0] % 16]] + Hex(b[1..])
  }

  method HexName(b: Bytes) returns (s: string)
    ensures s == Hex(b)
  {
    s := "";
    for i := 0 to |b|
      invariant s + Hex(b[i..]) == Hex(b)
    {
      assert b[i..][1..] == b[i + 1..];
      s := s + [DIGITS[b[i] / 16]] + [DIGITS[b[i] % 16]];
    }
  }

  lemma DigitInjective(x: int, y: int)
    requires 0 <= x < 16 && 0 <= y < 16 && DIGITS[x] == DIGITS[y]
    ensures x == y
  {
  }

  /** Distinct keys have distinct file names. */
  lemma {:induction false} HexInjective(a: Bytes, b: Bytes)
    requires Hex(a) == Hex(b)
    ensures a == b
  {
    if a != [] && b != [] {
      assert Hex(a)[0] == DIGITS[a[0] / 16] && Hex(b)[0] == DIGITS[b[0] / 16];
      assert Hex(a)[1] == DIGITS[a[0] % 16] && Hex(b)[1] == DIGITS[b[0] % 16];
      DigitInjective(a[0] / 16, b[0] / 16);
      DigitInjective(a[0] % 16, b[0] % 16);
      assert Hex(a)[2..] == Hex(a[1..]) && Hex(b)[2..] == Hex(b[1..]);
      HexInjective(a[1..], b[1..]);
      assert a == [a[0]] + a[1..] && b == [b[0]] + b[1..];
    }
  }

  // ---------------------------------------------------------------------------------------------
  // The store

  /** Decode, serialize again and hash. */
  method RehashBlob(hash: HashFn, blob: Bytes) returns (r: Fallible<Hash>)
    ensures r == Rehash(hash, blob)
  {
    var d := Deserialize(blob);
    if d.Err? { return Bad(Decode(d.error)); }
    AcceptedIsPassive(blob);
    var bytes := Artifact.SerializeNet(d.value.0, d.value.1);
    if bytes.Err? { return Bad(Decode(bytes.error)); }
    return Fine(hash(bytes.value));
  }

  class DiskCache {
    const hash: HashFn
    var blobs: Cache

    /** Every stored blob verifies under its key. */
    ghost predicate Valid()
      reads this
    {
      Sound(hash, blobs)
    }

    constructor (hash: HashFn)
      ensures this.hash == hash && blobs == map[] && Valid()
    {
      this.hash := hash;
      blobs := map[];
    }

    method Contains(k: Hash) returns (r: bool)
      ensures r == (k in blobs)
    {
      return k in blobs;
    }

    /** Store a net under its own hash. A well-wired net keeps the store sound exactly if it is quiet. */
    method Store(n: NetState, root: Port) returns (r: Fallible<Hash>)
      requires Bounded(n, root)
      modifies this
      ensures r.Bad? ==> blobs == old(blobs) && Serialize(n, root).Err?
      ensures r.Fine? ==>
        Serialize(n, root).Ok? && r.value == hash(Serialize(n, root).value) &&
            blobs == old(blobs)[r.value := Serialize(n, root).value]
      ensures WellWired(n, root) ==> r.Fine?
      ensures WellWired(n, root) && old(Valid()) ==> (Valid() <==> Quiet(n, root))
    {
      hide Serialize, Verified, WellWired, Words, Closed, Quiet;
      var bytes := Artifact.SerializeNet(n, root);
      if WellWired(n, root) { StoredVerifiedIff(hash, n, root); }
      if bytes.Err? { return Bad(Decode(bytes.error)); }
      var k := hash(bytes.value);
      blobs := blobs[k := bytes.value];
      assert k in blobs && blobs[k] == bytes.value;
      return Fine(k);
    }

    /** Load with verification: absent is no error, bytes that do not verify are. */
    method Load(k: Hash) returns (r: Fallible<Option<(NetState, Port)>>)
      ensures k !in blobs ==> r == Fine(None)
      ensures k in blobs && Verified(hash, k, blobs[k]) ==> r == Fine(Some(Deserialize(blobs[k]).value))
      ensures k in blobs && !Verified(hash, k, blobs[k]) ==> r == Bad(ImportError(hash, k, blobs[k]))
    {
      if k !in blobs { return Fine(None); }
      var found := RehashBlob(hash, blobs[k]);
      if found.Bad? { return Bad(found.error); }
      if found.value != k { return Bad(HashMismatch); }
      return Fine(Some(Deserialize(blobs[k]).value));
    }

    /** The stored bytes verbatim; the importer verifies them. */
    method Export(k: Hash) returns (r: Option<Bytes>)
      ensures r == if k in blobs then Some(blobs[k]) else None
    {
      if k in blobs { return Some(blobs[k]); }
      return None;
    }

    /** Persist bytes from a peer only if they verify under the claimed key. */
    method Import(claimed: Hash, blob: Bytes) returns (r: Fallible<()>)
      modifies this
      ensures old(Valid()) ==> Valid()
      ensures r.Fine? <==> Verified(hash, claimed, blob)
      ensures r.Bad? ==> r.error == ImportError(hash, claimed, blob)
      ensures blobs == if r.Fine? then old(blobs)[claimed := blob] else old(blobs)
    {
      hide Rehash;
      var found := RehashBlob(hash, blob);
      if found.Bad? { return Bad(found.error); }
      if found.value != claimed { return Bad(HashMismatch); }
      blobs := blobs[claimed := blob];
      return Fine(());
    }

    /** The keys this store lacks, in order. */
    method Missing(keys: seq<Hash>) returns (r: seq<Hash>)
      ensures r == Absent(blobs, keys)
    {
      r := [];
      for i := 0 to |keys|
        invariant r + Absent(blobs, keys[i..]) == Absent(blobs, keys)
      {
        assert keys[i..][1..] == keys[i + 1..];
        var here := Contains(keys[i]);
        if !here { r := r + [keys[i]]; }
      }
    }

    /** Import the pairs of a reply; a failure stops the loop and keeps what was imported before it. */
    method ImportPairs(pairs: seq<(Hash, Bytes)>) returns (r: Fallible<()>)
      modifies this
      ensures (old(Valid()) ==> Valid()) && (blobs, r) == ImportAll(hash, old(blobs), pairs)
    {
      hide Sound, Verified;
      for i := 0 to |pairs|
        invariant old(Valid()) ==> Valid()
        invariant ImportAll(hash, old(blobs), pairs) == ImportAll(hash, blobs, pairs[i..])
      {
        assert pairs[i..][1..] == pairs[i + 1..];
        var one := Import(pairs[i].0, pairs[i].1);
        if one.Bad? { return one; }
      }
      return Fine(());
    }

    /** Pull `want` from a peer; `reply` is whatever the peer sends back. */
    method Pull(want: seq<Hash>, reply: Bytes) returns (r: Fallible<()>)
      modifies this
      ensures (old(Valid()) ==> Valid()) && (blobs, r) == SyncPull(hash, old(blobs), want, reply)
    {
      hide Sound, ImportAll, ReadMsg, WriteMsg;
      if WriteMsg(Want(want)).Bad? { return Bad(Io); }
      var frame :- ReadFrame(reply);
      match frame.0
      case Blobs(pairs) => r := ImportPairs(pairs);
      case _ => return Bad(Io);
    }

    /** Answer one request off a connection: exports for a want, presence bits for a have. */
    method Serve(stream: Bytes) returns (r: Fallible<Bytes>)
      ensures r == ServeConn(blobs, stream)
    {
      hide ReadMsg, WriteMsg, Exports;
      var frame :- ReadFrame(stream);
      match frame.0
      case Want(keys) =>
        var pairs := ExportAll(keys);
        return WriteMsg(Blobs(pairs));
      case Have(keys) => return WriteMsg(Held(Contained(blobs, keys)));
      case _ => return WriteMsg(Failed(2, REFUSAL));
    }

    method ExportAll(keys: seq<Hash>) returns (pairs: seq<(Hash, Bytes)>)
      ensures pairs == Exports(blobs, keys)
    {
      pairs := [];
      for i := 0 to |keys|
        invariant pairs + Exports(blobs, keys[i..]) == Exports(blobs, keys)
      {
        assert keys[i..][1..] == keys[i + 1..];
        var blob := Export(keys[i]);
        if blob.Some? { pairs := pairs + [(keys[i], blob.value)]; }
      }
    }

    /** Probe, then pull what the peer says it holds. */
    method Fetch(want: seq<Hash>, answer: Bytes, reply: Bytes) returns (r: Fallible<()>)
      modifies this
      ensures (old(Valid()) ==> Valid()) && (blobs, r) == ProbeThenPull(hash, old(blobs), want, answer, reply)
    {
      hide Sound, SyncPull, Probe;
      var present :- Probe(want, answer);
      var held := Chosen(want, present);
      if held == [] { return Fine(()); }
      r := Pull(held, reply);
    }
  }

  method Chosen(keys: seq<Hash>, present: seq<bool>) returns (r: seq<Hash>)
    requires |keys| == |present|
    ensures r == Select(keys, present)
  {
    r := [];
    for i := 0 to |keys|
      invariant r + Select(keys[i..], present[i..]) == Select(keys, present)
    {
      assert keys[i..][1..] == keys[i + 1..] && present[i..][1..] == present[i + 1..];
      if present[i] { r := r + [keys[i]]; }
    }
  }

  function Absent(c: Cache, keys: seq<Hash>): seq<Hash> {
    if keys == [] then [] else (if keys[0] in c then [] else [keys[0]]) + Absent(c, keys[1..])
  }

  /** Exactly the keys that are not stored are reported missing. */
  lemma {:induction false} AbsentExact(c: Cache, keys: seq<Hash>, k: Hash)
    ensures k in Absent(c, keys) <==> k in keys && k !in c
  {
    if keys != [] {
      AbsentExact(c, keys[1..], k);
      assert keys == [keys[0]] + keys[1..];
    }
  }
}
