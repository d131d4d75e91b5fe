/**
 The content-addressed store and the fetch protocol between two nodes. The hash is a parameter:
 nothing is assumed of it.
 */
module Dist {
  import opened Common
  import opened Arenas
  import opened Nets
  import opened ByteCodec
  import opened Canonical
  import opened CanonicalProof
  import opened Blob
  import opened BlobBuild
  import opened BlobRebuild
  import opened WireCodec

  type HashFn = Bytes -> Hash

  type Cache = map<Hash, Bytes>

  /** Decoding the bytes, serializing the net again and hashing: what import and load both check. */
  ghost function Rehash(hash: HashFn, blob: Bytes): Fallible<Hash> {
    if Deserialize(blob).Err? then Bad(Decode(Deserialize(blob).error)) else
    AcceptedIsPassive(blob);
    var (n, root) := Deserialize(blob).value;
    if Serialize(n, root).Err? then Bad(Decode(Serialize(n, root).error)) else Fine(hash(Serialize(n, root).value))
  }

  /** The bytes decode and hash back to the key. */
  ghost predicate Verified(hash: HashFn, k: Hash, blob: Bytes) { Rehash(hash, blob) == Fine(k) }

  /** Every stored blob verifies under its key. */
  ghost predicate Sound(hash: HashFn, c: Cache) {
    forall k :: k in c ==> Verified(hash, k, c[k])
  }

  ghost function ImportError(hash: HashFn, claimed: Hash, blob: Bytes): CacheError
    requires !Verified(hash, claimed, blob)
  {
    match Rehash(hash, blob)
    case Bad(e) => e
    case Fine(_) => HashMismatch
  }

  // ---------------------------------------------------------------------------------------------
  // Protocol steps on values

  /** Import the pairs of a reply in order, stopping at the first that does not verify. */
  ghost function ImportAll(hash: HashFn, c: Cache, pairs: seq<(Hash, Bytes)>): (Cache, Fallible<()>)
    decreases |pairs|
  {
    if pairs == [] then (c, Fine(()))
    else if Verified(hash, pairs[0].0, pairs[0].1) then ImportAll(hash, c[pairs[0].0 := pairs[0].1], pairs[1..])
    else (c, Bad(ImportError(hash, pairs[0].0, pairs[0].1)))
  }

  /** Ask for `want` and import whatever bytes come back. */
  ghost function SyncPull(hash: HashFn, c: Cache, want: seq<Hash>, reply: Bytes): (Cache, Fallible<()>) {
    if WriteMsg(Want(want)).Bad? then (c, Bad(Io)) else
    match ReadMsg(reply)
    case Bad(e) => (c, Bad(e))
    case Fine((Blobs(pairs), _)) => ImportAll(hash, c, pairs)
    case Fine(_) => (c, Bad(Io))
  }

  function Probe(keys: seq<Hash>, reply: Bytes): (r: Fallible<seq<bool>>)
    ensures r.Fine? ==> |r.value| == |keys|
  {
    if WriteMsg(Have(keys)).Bad? then Bad(Io) else
    match ReadMsg(reply)
    case Bad(e) => Bad(e)
    case Fine((Held(present), _)) => if |present| == |keys| then Fine(present) else Bad(Io)
    case Fine(_) => Bad(Io)
  }

  /** The keys whose bit is set. */
  function Select(keys: seq<Hash>, present: seq<bool>): (r: seq<Hash>)
    requires |keys| == |present|
    ensures |r| <= |keys|
  {
    if keys == [] then []
    else (if present[0] then [keys[0]] else []) + Select(keys[1..], present[1..])
  }

  /** Probe, then pull only the keys the peer says it holds. The two replies are whatever the peer sends. */
  ghost function ProbeThenPull(hash: HashFn, c: Cache, want: seq<Hash>, answer: Bytes, reply: Bytes): (Cache,
      Fallible<()>) {
    match Probe(want, answer)
    case Bad(e) => (c, Bad(e))
    case Fine(present) =>
      var held := Select(want, present);
      if held == [] then (c, Fine(())) else SyncPull(hash, c, held, reply)
  }

  // ---------------------------------------------------------------------------------------------
  // Over every run the store is sound up to local stores, whatever the peer sends

  /** An entry after an import is an old one or verifies. */
  lemma {:induction false} ImportAllKeeps(hash: HashFn, c: Cache, pairs: seq<(Hash, Bytes)>)
    ensures
      var d := ImportAll(hash, c, pairs).0;
      && c.Keys <= d.Keys
      && forall k :: k in d ==> (k in c && d[k] == c[k]) || Verified(hash, k, d[k])
    decreases |pairs|
  {
    hide Verified;
    if pairs != [] && Verified(hash, pairs[0].0, pairs[0].1) {
      ImportAllKeeps(hash, c[pairs[0].0 := pairs[0].1], pairs[1..]);
    }
  }

  /** What a node does to its store: pull with any reply, import any bytes, or store a net of its own. */
  datatype Event =
    | Fetch(want: seq<Hash>, answer: Bytes, reply: Bytes)
    | PullOnly(want: seq<Hash>, reply: Bytes)
    | Receive(claimed: Hash, blob: Bytes)
    | Publish(net: NetState, root: Port)

  /** Fields have their machine widths and ports stay inside the arena. */
  ghost predicate Bounded(n: NetState, root: Port) { Words(n) && Closed(n) && InArena(n, root) }

  /** The net serializes, and its wires are symmetric and each carried by one end. */
  ghost predicate WellWired(n: NetState, root: Port) {
    Shipped(n, root) && WiresSymmetric(n, root) && WiresCarried(n, root)
  }

  ghost predicate Allowed(e: Event) { e.Publish? ==> Bounded(e.net, e.root) }

  ghost function Step(hash: HashFn, c: Cache, e: Event): Cache
    requires Allowed(e)
  {
    match e
    case Fetch(want, answer, reply) => ProbeThenPull(hash, c, want, answer, reply).0
    case PullOnly(want, reply) => SyncPull(hash, c, want, reply).0
    case Receive(k, blob) => ImportAll(hash, c, [(k, blob)]).0
    case Publish(n, root) =>
      if Serialize(n, root).Err? then c else c[hash(Serialize(n, root).value) := Serialize(n, root).value]
  }

  ghost function Run(hash: HashFn, c: Cache, events: seq<Event>): Cache
    requires forall i :: 0 <= i < |events| ==> Allowed(events[i])
  {
    if events == [] then c else Step(hash, Run(hash, c, events[..|events| - 1]), events[|events| - 1])
  }

  /** A stored well-wired net verifies exactly if no application's function port is active or unwired. */
  lemma StoredVerifiedIff(hash: HashFn, n: NetState, root: Port)
    requires WellWired(n, root)
    ensures Serialize(n, root).Ok?
    ensures Verified(hash, hash(Serialize(n, root).value), Serialize(n, root).value) <==> Quiet(n, root)
  {
    hide Serialize, Deserialize, Shipped, WiresSymmetric, WiresCarried, Quiet, Matches;
    BlobAccepted(n, root);
    if Quiet(n, root) { BlobRoundTrips(n, root); }
  }

  /** The event stores these bytes under this key. */
  ghost predicate StoredBy(hash: HashFn, e: Event, k: Hash, blob: Bytes) {
    e.Publish? && Bounded(e.net, e.root) && Serialize(e.net, e.root) == Ok(blob) && hash(blob) == k
  }

  ghost predicate StoredIn(hash: HashFn, events: seq<Event>, k: Hash, blob: Bytes) {
    exists i :: 0 <= i < |events| && StoredBy(hash, events[i], k, blob)
  }

  lemma StepKeeps(hash: HashFn, c: Cache, e: Event)
    requires Allowed(e)
    ensures
      var d := Step(hash, c, e);
      forall k :: k in d ==> (k in c && d[k] == c[k]) || Verified(hash, k, d[k]) || StoredBy(hash, e, k, d[k])
  {
    hide Verified, Serialize;
    match e
    case Fetch(want, answer, reply) =>
      if Probe(want, answer).Fine? && ReadMsg(reply).Fine? && ReadMsg(reply).value.0.Blobs? {
        ImportAllKeeps(hash, c, ReadMsg(reply).value.0.pairs);
      }
    case PullOnly(want, reply) =>
      if ReadMsg(reply).Fine? && ReadMsg(reply).value.0.Blobs? {
        ImportAllKeeps(hash, c, ReadMsg(reply).value.0.pairs);
      }
    case Receive(k, blob) => ImportAllKeeps(hash, c, [(k, blob)]);
    case Publish(n, root) =>
  }

  /** Every entry verifies or was stored locally. */
  ghost predicate Accounted(hash: HashFn, c: Cache, events: seq<Event>) {
    forall k :: k in c ==> Verified(hash, k, c[k]) || StoredIn(hash, events, k, c[k])
  }

  lemma AccountedMore(hash: HashFn, c: Cache, before: seq<Event>, e: Event)
    requires Allowed(e) && Accounted(hash, c, before)
    ensures Accounted(hash, Step(hash, c, e), before + [e])
  {
    hide Step, StoredBy, Verified;
    var d, events := Step(hash, c, e), before + [e];
    StepKeeps(hash, c, e);
    forall k | k in d && !Verified(hash, k, d[k])
      ensures StoredIn(hash, events, k, d[k])
    {
      if StoredBy(hash, e, k, d[k]) {
        assert events[|before|] == e;
      } else {
        var i :| 0 <= i < |before| && StoredBy(hash, before[i], k, d[k]);
        assert events[i] == before[i];
      }
    }
  }

  /**
   Over every run, with any peer replies and any nets stored locally, every key maps to bytes that
   decode and hash to that key, or to the serialization of a net stored locally under its own hash.
   */
  lemma {:induction false} RunSound(hash: HashFn, c: Cache, events: seq<Event>)
    requires (forall i :: 0 <= i < |events| ==> Allowed(events[i])) && Sound(hash, c)
    ensures Accounted(hash, Run(hash, c, events), events)
    decreases |events|
  {
    hide Allowed, Step, Verified, StoredIn;
    if events != [] {
      var before, last := events[..|events| - 1], events[|events| - 1];
      RunSound(hash, c, before);
      AccountedMore(hash, Run(hash, c, before), before, last);
      assert before + [last] == events;
    }
  }

  /** Every net stored locally is well wired, if it serializes at all. */
  ghost predicate AllWellWired(events: seq<Event>) {
    forall i ::
      0 <= i < |events| && events[i].Publish? && Bounded(events[i].net, events[i].root) &&
      Serialize(events[i].net, events[i].root).Ok? ==>
      WellWired(events[i].net, events[i].root)
  }

  /**
   For well-wired nets the entries that do not verify are exactly those of locally stored nets with
   an active or unwired function port; without such nets the store is sound after every run.
   */
  lemma RunExact(hash: HashFn, c: Cache, events: seq<Event>)
    requires (forall i :: 0 <= i < |events| ==> Allowed(events[i])) && Sound(hash, c) && AllWellWired(events)
    ensures
      var d := Run(hash, c, events);
      forall k :: k in d ==> (!Verified(hash, k, d[k]) <==>
        exists i :: 0 <= i < |events| && StoredBy(hash, events[i], k, d[k]) && !Quiet(events[i].net, events[i].root))
    ensures (forall i :: 0 <= i < |events| && events[i].Publish? ==> Quiet(events[i].net, events[i].root)) ==>
      Sound(hash, Run(hash, c, events))
  {
    hide Run, Serialize, Verified, Quiet, WellWired, Bounded;
    RunSound(hash, c, events);
    var d := Run(hash, c, events);
    forall i, k | 0 <= i < |events| && k in d && StoredBy(hash, events[i], k, d[k])
      ensures Verified(hash, k, d[k]) <==> Quiet(events[i].net, events[i].root)
    {
      StoredVerifiedIff(hash, events[i].net, events[i].root);
    }
  }

  // ---------------------------------------------------------------------------------------------
  // An honest peer

  /** The pairs for the keys present, in request order; an absent key is omitted. */
  function Exports(peer: Cache, keys: seq<Hash>): seq<(Hash, Bytes)> {
    if keys == [] then []
    else (if keys[0] in peer then [(keys[0], peer[keys[0]])] else []) + Exports(peer, keys[1..])
  }

  function Contained(peer: Cache, keys: seq<Hash>): (r: seq<bool>)
    ensures |r| == |keys| && forall i :: 0 <= i < |keys| ==> r[i] == (keys[i] in peer)
  {
    seq(|keys|, i requires 0 <= i < |keys| => keys[i] in peer)
  }

  /** "unexpected request" */
  const REFUSAL: Bytes :=
      [0x75, 0x6E, 0x65, 0x78, 0x70, 0x65, 0x63, 0x74, 0x65, 0x64, 0x20, 0x72, 0x65, 0x71, 0x75, 0x65, 0x73, 0x74]

  function Respond(peer: Cache, request: Msg): Msg {
    match request
    case Want(keys) => Blobs(Exports(peer, keys))
    case Have(keys) => Held(Contained(peer, keys))
    case _ => Failed(2, REFUSAL)
  }

  /** Answer one request read off a connection. */
  function ServeConn(peer: Cache, stream: Bytes): Fallible<Bytes> {
    var (request, _) :- ReadMsg(stream);
    WriteMsg(Respond(peer, request))
  }

  lemma {:induction false} SelectHeld(peer: Cache, keys: seq<Hash>)
    ensures
      var held := Select(keys, Contained(peer, keys));
      forall k :: k in held <==> k in keys && k in peer
    decreases |keys|
  {
    if keys != [] {
      SelectHeld(peer, keys[1..]);
      assert Contained(peer, keys)[1..] == Contained(peer, keys[1..]);
      assert keys == [keys[0]] + keys[1..];
    }
  }

  /** Importing an honest peer's exports succeeds and copies exactly the requested entries it holds. */
  lemma {:induction false} ImportExports(hash: HashFn, c: Cache, peer: Cache, keys: seq<Hash>)
    requires Sound(hash, peer)
    ensures
      var (d, r) := ImportAll(hash, c, Exports(peer, keys));
      && r == Fine(())
      && (forall k :: k in d <==> k in c || (k in keys && k in peer))
      && (forall k :: k in d ==> d[k] == if k in keys && k in peer then peer[k] else c[k])
    decreases |keys|
  {
    hide Verified;
    if keys != [] {
      var k := keys[0];
      assert keys == [k] + keys[1..];
      if k in peer {
        ImportExports(hash, c[k := peer[k]], peer, keys[1..]);
        assert Exports(peer, keys)[1..] == Exports(peer, keys[1..]);
      } else {
        ImportExports(hash, c, peer, keys[1..]);
        assert Exports(peer, keys) == Exports(peer, keys[1..]);
      }
    }
  }

  lemma HonestAnswer(peer: Cache, want: seq<Hash>)
    requires WriteMsg(Have(want)).Fine? && ServeConn(peer, WriteMsg(Have(want)).value).Fine?
    ensures Probe(want, ServeConn(peer, WriteMsg(Have(want)).value).value) == Fine(Contained(peer, want))
  {
    hide WriteMsg, ReadMsg;
    var frame := WriteMsg(Have(want)).value;
    MsgRoundTrip(Have(want), []);
    assert frame + [] == frame;
    var answer := WriteMsg(Held(Contained(peer, want))).value;
    MsgRoundTrip(Held(Contained(peer, want)), []);
    assert answer + [] == answer;
  }

  lemma HonestReply(hash: HashFn, c: Cache, peer: Cache, want: seq<Hash>)
    requires WriteMsg(Want(want)).Fine? && ServeConn(peer, WriteMsg(Want(want)).value).Fine?
    ensures SyncPull(hash, c, want, ServeConn(peer, WriteMsg(Want(want)).value).value) ==
      ImportAll(hash, c, Exports(peer, want))
  {
    hide WriteMsg, ReadMsg, ImportAll, Exports;
    var frame := WriteMsg(Want(want)).value;
    MsgRoundTrip(Want(want), []);
    assert frame + [] == frame;
    var reply := WriteMsg(Blobs(Exports(peer, want))).value;
    MsgRoundTrip(Blobs(Exports(peer, want)), []);
    assert reply + [] == reply;
  }

  /**
   With an honest peer whose store is sound, and frames within the limit, probe-then-pull succeeds
   and copies exactly the wanted entries the peer holds, each of which then loads.
   */
  lemma HonestFetch(hash: HashFn, c: Cache, peer: Cache, want: seq<Hash>)
    requires Sound(hash, peer)
    requires WriteMsg(Have(want)).Fine? && ServeConn(peer, WriteMsg(Have(want)).value).Fine?
    requires
      var held := Select(want, Contained(peer, want));
      WriteMsg(Want(held)).Fine? && ServeConn(peer, WriteMsg(Want(held)).value).Fine?
    ensures
      var held := Select(want, Contained(peer, want));
      var answer, reply :=
          ServeConn(peer, WriteMsg(Have(want)).value).value, ServeConn(peer, WriteMsg(Want(held)).value).value;
      var (d, r) := ProbeThenPull(hash, c, want, answer, reply);
      && r == Fine(())
      && (forall k :: k in d <==> k in c || (k in want && k in peer))
      && (forall k :: k in d ==> d[k] == if k in want && k in peer then peer[k] else c[k])
      && (forall k :: k in want && k in peer ==> Verified(hash, k, d[k]))
  {
    hide WriteMsg, ServeConn, SyncPull, Probe, Verified;
    var held := Select(want, Contained(peer, want));
    HonestAnswer(peer, want);
    SelectHeld(peer, want);
    HonestReply(hash, c, peer, held);
    ImportExports(hash, c, peer, held);
    if held == [] { assert forall k :: k !in held; }
  }
}
