# Verified model of the dnx engine

dnx is an interaction-net engine. A linear core language is compiled to a port graph, the graph is
read back as a λ-term, serialized to content-addressed blobs and exchanged between nodes. A small
dependent-type kernel and a compiler from surface recursion to recursors sit beside it. This project
models the code around the reduction rules and proves what that code promises.

The main results:

- **Elaboration and readback.** Reading back an elaborated closed linear term gives the term with its
  copies identified and its erasures dropped, through replicator chains of any depth. The redex index
  agrees exactly with the wires of the net and is keyed by the positions of the redexes in the term, so
  the least key is the leftmost-outermost redex. Replicator deltas are the consumption levels of their
  copies. From the source λ-term on: linearization, α-renaming, elaboration and readback compose to
  the identity up to α-equivalence.
- **Serialization.** The explicit-stack walk is the recursive pre-order along the wires (principal, first,
  then second auxiliary port) over exactly the reachable agents, and the bytes are its fields. Bytes do not depend on slot numbers, and equal bytes mean isomorphic nets. The decoder accepts
  exactly the encodings. A serialized net is accepted back exactly if no function port is active, and
  then the decoded net is isomorphic and has the same bytes.
- **Kernel.** Shift and substitution satisfy their calculus at all cutoffs. Weak-head
  normalization contracts every head β, δ and ι redex and stops only without one. Normalization is
  sound, reaches normal forms, is idempotent and commutes with renaming. The synthesized recursor type is
  closed and binder-correct. Lazy positivity decides the shape of the normal form. Admission keeps a
  DAG, and every sequence of δ steps over it ends in the full unfolding.
- **fix to recursor.** Lowering accepts exactly the terms whose matches are covered and whose fixes are
  structural, and its result behaves as the surface term. A fix keeps its meaning on every constructor without a self-call, and on all of them if the decreasing argument itself is not
  mentioned; β and ι recurse alike for all arguments exactly then.
- **Protocol and codecs.** Over every run with arbitrary peer replies every stored entry verifies or was
  stored locally, an honest peer is fetched from completely, and the message, blob and JSON codecs
  round-trip. Frames are given field by field, and the JSON parser reads exactly a stated grammar with
  the value of every text.
- **Data structures.** Limb paths refine bit strings with their order. Arena slots are partitioned over
  every run.
- **Definitions.** Resolution accepts exactly the acyclic definitions, and keeps the meaning of a term
  exactly if the names on the way are hygienic.

## How the model is laid out

State that the engine updates in place is given twice: as a value with functions on it (`ArenaState`,
`NetState`, `Cache`), on which the theorems are stated, and as a class whose methods are proved to do
what the functions say (`Arenas.Arena`, `NetObjects.Net`, `NetObjects.Elaborator`,
`NetObjects.ReadbackRun`, `Blob.Reader`, `WireCursor.Cursor`, `DiskStore.DiskCache`,
`Artifact.Interner`, `Pass0.Checker`, `Pass1.Checker`, `Admission.GlobalEnv`, `Alpha.Renamer`,
`JsonRun.Printer`, `JsonRun.Parser`). Loops of the engine are methods with invariants.

| area | modules |
|---|---|
| storage and ports | `Arenas`, `ArenaFacts`, `PortIds`, `Nets`, `NetFacts`, `NetObjects` |
| paths | `LOPaths`, `LOPathProof` |
| front-end | `Asts`, `Linearize`, `LinearizeProof`, `Alpha`, `Pass0`, `Pass1` |
| elaboration, readback | `Elab`, `ElabProof`, `ElabTheorems`, `ElabPaths`, `Readback`, `ReadbackProof` |
| serialization | `ByteCodec`, `Canonical`, `CanonicalProof`, `CanonicalFormat`, `Artifact`, `Blob`, `BlobProof`, `BlobBuild`, `BlobRoundTrip`, `BlobRebuild` |
| distribution | `WireCodec`, `WireFormat`, `WireCursor`, `Dist`, `DiskStore` |
| kernel | `Tms`, `TmCalculus`, `Driver`, `Reduction`, `Stability`, `Positivity`, `Recursor`, `Admission` |
| surface recursion | `Lowering`, `LoweringProof`, `LoweringMeaning`, `LoweringCapture` |
| values | `Decimal`, `Json`, `JsonProof`, `JsonGrammar`, `JsonRun` |

## Where code and promise differ

- The redex index is keyed by path, so a second redex under a used path overwrites the first entry, in
  either frontier. `ElabTheorems.IndexExactIff` says exactly when a wire keeps the index exact,
  `CollisionLosesPair` and `CollisionLosesCandidate` show what is lost, and `CollisionReachable` builds
  nets where it happens. Elaboration never reuses a path.
- A self-call of a lowered `fix` and the hypothesis that replaces it are the same recursion for all
  arguments if and only if neither the motive nor a minor mentions the decreasing argument
  (`LoweringProof.RecursionExact`), which can be read off the source (`PrefixFreeExact`). So
  `FixPreserved` holds for a constructor whose arm makes no self-call, and for all constructors if the
  argument is not mentioned. `LoweringCapture.DecreasingArgumentCaptured` is a family where it is
  mentioned and the values differ. Domains that mention the function are emitted unrelocated, but this
  does not affect computation, so nothing is asked of them.
- The positivity test weak-head normalizes every node but never η-contracts. It decides the shape of the
  normal form without η (`Positivity.PositivityExact`, `PositivityDecides`). η can drop a λ's domain, so
  it can refuse a type whose full normal form is positive: `LazyTestIsStricter`.
- Resolution threads one set of bound names through the term and through inlined bodies. A binder loses
  its scope when an inner binder of that name closes (`Pass0.ShadowedNameEscapes`), a reference inside an
  inlined body is taken for the caller's binder (`CalleeReferenceCaptured`), and so is a free name, even
  with all names of binders and definitions apart (`FreeNameCaptured`). The result is that of lexical
  scope if and only if the set stays in step with the scope (`ResolveLexicalIff`), and it keeps the
  meaning of the term if and only if moreover no free name is bound by a caller (`ResolveMeansIff`).
  With binders named apart from definitions and from the names free in them this always holds
  (`SeparateHygienic`).
- Storing a net whose reachable application has an erased or unwired function port breaks the store's
  invariant: its blob is kept under its hash and refused on load. `DiskStore.DiskCache.Store` and
  `Dist.RunExact` say that for well-wired nets these are the only entries that do not verify.
- A net whose application has an erased or unwired function port serializes but is refused by the
  decoder, because an eraser counts as a principal port: `BlobRebuild.BlobAccepted` is exact.
- The two escapes of a surrogate pair, which section 7 of RFC 8259 reads as one character, are read as two
  replacement characters (`JsonGrammar.SurrogatePairSplit`).

## Model

| member | source | states |
|---|---|---|
| `Arenas.Arena.AllocSlot` | crates/dnx-core/src/arena.rs:29-47 | the method reuses the newest free slot with a bumped generation or grows the vector, as the specification function, and a refusal changes nothing |
| `Arenas.Arena.RetireSlot` | crates/dnx-core/src/arena.rs:49-57 | swap-remove from the live list with the moved entry's position updated, then free |
| `Arenas.Arena.ReserveSlots` | crates/dnx-core/src/arena.rs:77-86 | appends that many blank slots or refuses without change |
| `Arenas.Arena.CommitSlot` | crates/dnx-core/src/arena.rs:88-93 | overwrites a reserved slot and makes it live |
| `Arenas.Arena.ReleaseReserved` | crates/dnx-core/src/arena.rs:95-99 | frees the unused part of a reservation, in order |
| `ArenaFacts.RunSafe` | crates/dnx-core/src/arena.rs:16-99 | over every run that retires only live slots and commits and releases only reserved ones, slots 1 and up are partitioned into live, duplicate-free free list and reserved, and live list and position map are inverse |
| `ArenaFacts.AllocSafe` | crates/dnx-core/src/arena.rs:29-47 | allocation never answers slot 0, a live slot or a reserved slot, and keeps the partition |
| `ArenaFacts.AllocOutcome` | crates/dnx-core/src/arena.rs:29-41 | it fails exactly when the free list is empty and the capacity is reached |
| `ArenaFacts.RetireSafe` | crates/dnx-core/src/arena.rs:49-57 | retiring a live slot keeps the partition and the inverse maps through the swap |
| `ArenaFacts.LiveExact` | crates/dnx-core/src/arena.rs:67-73 | the live list has no duplicates and lists exactly the slots the position map knows |
| `ArenaFacts.HandleMatches` | crates/dnx-core/src/arena.rs:29-34 | for a slot that is not reserved, a handle's generation bit matches exactly if the slot was handed out again an even number of times since, across the 32-bit wrap |
| `PortIds.PackReadsBack` | crates/dnx-core/src/port.rs:41-59 | every field of a packed address reads back and it is never taken for the eraser |
| `PortIds.RawReadsBack` | crates/dnx-core/src/port.rs:37-71 | exactly which port addresses survive packing into 32 bits |
| `NetObjects.Net.Write` | crates/dnx-core/src/net.rs:274-301 | writes one port, with the erased bit of a replicator, as the specification function |
| `NetObjects.Net.Detect` | crates/dnx-core/src/net.rs:303-336 | indexes a principal pair or a replicator facing an application result |
| `NetObjects.Net.Wire` | crates/dnx-core/src/net.rs:267-272 | lays a wire at both ends and indexes it |
| `NetObjects.Net.NewAgent` | crates/dnx-core/src/net.rs:227-250 | allocates a labelled agent with null ports |
| `NetFacts.AllocFacts` | crates/dnx-core/src/net.rs:227-260 | allocation adds one agent with null ports, changes no wire and keeps symmetry and both index invariants |
| `NetFacts.ConnectFacts` | crates/dnx-core/src/net.rs:267-336 | laying a wire between free ports under an unused path keeps wires symmetric and both frontiers exact, and overwrites nothing |
| `NetFacts.EraseFacts` | crates/dnx-core/src/net.rs:267-301 | erasing a variable port keeps the invariants and sets exactly its erased bit |
| `LOPathProof.RootIs` | crates/dnx-core/src/lopath.rs:14-22 | the root is the empty bit string |
| `LOPathProof.ExtendIs` | crates/dnx-core/src/lopath.rs:32-56 | the limb form appends a bit across promotions and refuses exactly at depth 512 |
| `LOPathProof.DepthIs` | crates/dnx-core/src/lopath.rs:58-69 | depth is the length of the bit string |
| `LOPathProof.PrefixIs` | crates/dnx-core/src/lopath.rs:71-93 | the limb test is sequence prefix |
| `LOPathProof.CompareIs` | crates/dnx-core/src/lopath.rs:163-173 | the limb comparison is the lexicographic order with prefixes first |
| `LOPathProof.CompareTotal` | crates/dnx-core/src/lopath.rs:163-173 | it is a total order and is Equal only for identical paths |
| `LOPathProof.SubtreeContiguous` | crates/dnx-core/src/lopath.rs:71-173 | all extensions of a path form an interval of the order |
| `LOPaths.PrefixLoop` | crates/dnx-core/src/lopath.rs:71-93 | the loop over limbs computes the prefix test |
| `LOPaths.CompareLoop` | crates/dnx-core/src/lopath.rs:163-173 | the zipped loop with the depth tie-break computes the comparison |
| `Linearize.Lower` | crates/dnx-pyparse/src/lower.rs:131-156 | lowering a λ-term builds the linearized term, with a builtin for every name that is not bound, and leaves the set of bound names as it was |
| `Linearize.LinInClosed` | crates/dnx-pyparse/src/lower.rs:131-156 | a term whose free names are all bound gets no builtin |
| `LinearizeProof.RenameUses` | crates/dnx-pyparse/src/lower.rs:312-345 | indexed renaming consumes one copy name per free occurrence, leaves none, and keeps the uses of every other name |
| `LinearizeProof.RenameCopies` | crates/dnx-pyparse/src/lower.rs:312-345 | each copy name it hands out is used exactly once |
| `LinearizeProof.NestUses` | crates/dnx-pyparse/src/lower.rs:347-360 | the replicator chain uses its scrutinee once and binds exactly the copy and rest names |
| `LinearizeProof.CountIsUses` | crates/dnx-pyparse/src/lower.rs:362-381 | the use counter counts the lexically free occurrences |
| `LinearizeProof.LinLinear` | crates/dnx-pyparse/src/lower.rs:291-360 | every binder of a linearized term has exactly one bound occurrence, shadowing included |
| `LinearizeProof.LinCollapse` | crates/dnx-pyparse/src/lower.rs:144-360 | identifying copies and dropping erasures gives the source term back |
| `Alpha.Renamer.Apply` | crates/dnx-elab/src/alpha.rs:11-79 | the renamer with its process-wide counter computes the renaming function |
| `Alpha.RenameUnique` | crates/dnx-elab/src/alpha.rs:27-73 | renamed binders are pairwise distinct and stamped from the counter's range |
| `Alpha.RenameKeepsLinear` | crates/dnx-elab/src/alpha.rs:27-73 | renaming a term that is linear in scope gives a linear term |
| `Alpha.RenameKeepsMeaning` | crates/dnx-elab/src/alpha.rs:27-73 | renaming preserves the λ-term up to α-equivalence |
| `Alpha.LinearizationCorrect` | crates/dnx-pyparse/src/lower.rs:144-360 | for every closed λ-term without reserved names the prepared term has distinct binders, is linear and closed, and stands for the source term |
| `Alpha.PipelineReadsBack` | crates/dnx-read/src/lib.rs:220-322 | linearizing, renaming, elaborating and reading back a closed λ-term gives it back up to α-equivalence |
| `Pass0.CollectDefRefs` | crates/dnx-elab/src/pass0.rs:57-94 | appends the occurrences of definition names in order |
| `Pass0.Checker.DfsCheck` | crates/dnx-elab/src/pass0.rs:30-55 | the visiting and visited sets follow the depth-first specification |
| `Pass0.TopoExact` | crates/dnx-elab/src/pass0.rs:19-55 | the check accepts exactly if no walk along references returns to its start |
| `Pass0.ResolveUnfolds` | crates/dnx-elab/src/pass0.rs:97-178 | resolution terminates by rank and size; if no binder shares a definition name the result is, as text, the full unfolding and no definition name is left |
| `Pass0.ResolveLexicalIff` | crates/dnx-elab/src/pass0.rs:97-178 | resolution answers what lexical scope gives if and only if no definition name on the way is in the threaded set while free or out of it while bound |
| `Pass0.ResolveMeansIff` | crates/dnx-elab/src/pass0.rs:97-178 | the resolved term has the meaning of the term over its definitions, up to binder names, if and only if the names on the way are hygienic |
| `Pass0.SeparateHygienic` | crates/dnx-elab/src/pass0.rs:97-178 | binders named apart from the definitions and from the names free in them make every term hygienic |
| `Pass0.ShadowedNameEscapes` | crates/dnx-elab/src/pass0.rs:113-118 | a binder sharing a definition name loses its scope to an inner binder of that name |
| `Pass0.CalleeReferenceCaptured` | crates/dnx-elab/src/pass0.rs:104-108 | a reference inside an inlined body is taken for the caller's binder of that name |
| `Pass0.FreeNameCaptured` | crates/dnx-elab/src/pass0.rs:104-108 | a free name of an inlined body is captured by the caller's binder, even with binders and definitions named apart |
| `Pass0.Run` | crates/dnx-elab/src/pass0.rs:9-17 | check and resolve: succeeds exactly on acyclic definitions, keeps the meaning exactly on hygienic terms, and is the full unfolding when names are apart |
| `Pass1.Checker.Increment` | crates/dnx-elab/src/pass1.rs:49-60 | counts a use in the innermost frame that knows the name |
| `Pass1.Checker.Collect` | crates/dnx-elab/src/pass1.rs:63-150 | succeeds exactly on linear terms, and counts, flags and levels are those of the term |
| `Pass1.RunPass1` | crates/dnx-elab/src/pass1.rs:15-20 | the check accepts a term exactly if every binder has exactly one lexically bound occurrence, even with shadowing |
| `Pass1.LevelsRecord` | crates/dnx-elab/src/pass1.rs:69-120 | for distinct linear binders the recorded level of each copy is the level of its occurrence |
| `NetObjects.Elaborator.Run` | crates/dnx-elab/src/pass2.rs:50-223 | the mutating elaborator computes the function that the rows below describe: same net, remaining environment, port and level, same errors |
| `ElabProof.ElaborateKeeps` | crates/dnx-elab/src/pass2.rs:50-223 | every successful elaboration keeps the net invariants, lays each new wire once, uses only paths below its own, and leaves the net wired as the syntax tree |
| `ElabTheorems.ElaborationExact` | crates/dnx-elab/src/pass2.rs:59-157 | for every linear program, Fix included, each port but the returned one is wired exactly once and symmetrically or to the eraser, and the frontiers hold exactly the redexes |
| `ElabTheorems.IndexExactIff` | crates/dnx-core/src/net.rs:303-336 | laying any wire keeps both frontiers exact if and only if the path it is indexed under is unused in its frontier |
| `ElabTheorems.CollisionLosesPair` | crates/dnx-core/src/net.rs:303-309 | a reused path loses the older active pair from the index |
| `ElabTheorems.CollisionLosesCandidate` | crates/dnx-core/src/net.rs:310-333 | a reused path loses the older replicator facing an application result |
| `ElabTheorems.CollisionReachable` | crates/dnx-core/src/net.rs:303-336 | nets built by allocation and wiring in which the path is used, for either frontier |
| `ElabTheorems.DeltasExact` | crates/dnx-elab/src/pass2.rs:95-120 | each replicator carries its variable's level and, per copy, the consumption level minus its own |
| `ElabPaths.ElaborateIndex` | crates/dnx-elab/src/pass2.rs:59-157 | elaborating any part of a program adds to each frontier exactly the entries of that part, keyed by their positions in it |
| `ElabPaths.IndexByPosition` | crates/dnx-elab/src/pass2.rs:59-157 | for every linear program the keys of the first frontier are exactly the positions of the applications and recursions whose function is a value and those of the second the positions of the recursions, left into functions and bodies, right into arguments, followed by the bit of the port, each with the application agent of its node; the least key is the leftmost-outermost redex |
| `ElabPaths.FirstIsLeast` | crates/dnx-elab/src/pass2.rs:59-157 | every other redex position comes after the leftmost-outermost one in the order of paths |
| `NetObjects.ReadbackRun.Collect` | crates/dnx-read/src/lib.rs:276-322 | the mutating collection of occurrence ports computes the specification |
| `NetObjects.ReadbackRun.Remove` | crates/dnx-read/src/lib.rs:324-362 | likewise for their removal |
| `NetObjects.ReadbackRun.Psi` | crates/dnx-read/src/lib.rs:220-269 | the mutating readback computes the specification, with the same failures |
| `ReadbackProof.CollectExact` | crates/dnx-read/src/lib.rs:276-322 | collection records exactly the leaf ports below a variable's replicator tree, of any depth |
| `ReadbackProof.RemoveExact` | crates/dnx-read/src/lib.rs:324-362 | removal deletes exactly those and nothing else |
| `ReadbackProof.ReadbackInvertsElaboration` | crates/dnx-read/src/lib.rs:220-322 | readback of an elaborated closed linear term succeeds and is α-equivalent to the term with Rep and Era collapsed |
| `Canonical.DfsAssign` | crates/dnx-core/src/canonical_hash.rs:111-143 | the explicit-stack loop numbers the agents in the order of the walk, which the next two rows describe |
| `CanonicalProof.WalkIsPreorder` | crates/dnx-core/src/canonical_hash.rs:104-143 | the stack walk is the recursive pre-order stated on the wires: an agent, then along its principal, first and second auxiliary port, skipping the visited |
| `CanonicalProof.WalkReachable` | crates/dnx-core/src/canonical_hash.rs:111-143 | it numbers exactly the reachable agents, each once |
| `CanonicalProof.RecordsExact` | crates/dnx-core/src/canonical_hash.rs:145-256 | serialization fails only on a reachable primitive; the missing-index error never occurs |
| `CanonicalFormat.FormatExact` | crates/dnx-core/src/canonical_hash.rs:81-256 | the bytes, field by field: version, number of agents, then per agent in pre-order its kind, free id, level, deltas and the edge of each emitted wire, by the peer's number and port, or the eraser |
| `CanonicalProof.SerializeCanonical` | crates/dnx-core/src/canonical_hash.rs:81-256 | nets related by any renaming of slots serialize to the same bytes |
| `Artifact.SerializeNet` | crates/dnx-core/src/canonical_hash.rs:81-102 | the buffer-appending serializer computes the specification |
| `BlobRoundTrip.EqualBytesIsomorphic` | crates/dnx-core/src/canonical_hash.rs:81-256 | equal bytes give a bijection of the reachable agents that keeps kind, free id, level, deltas and emitted wires |
| `Artifact.Interner.InternLocal` | crates/dnx-core/src/canonical_hash.rs:57-67 | interned ids are stable, and equal exactly if the serializations are equal |
| `Artifact.EqualIdsIsomorphic` | crates/dnx-core/src/canonical_hash.rs:35-67 | equal ids in one table mean isomorphic reachable parts |
| `Blob.Reader.Record` | crates/dnx-core/src/blob.rs:137-180 | the cursor reads one record as the specification and advances past it |
| `Blob.Reader.Records` | crates/dnx-core/src/blob.rs:244-250 | the record loop uses the count only as a bound |
| `BlobProof.ReadEdgeExact` | crates/dnx-core/src/blob.rs:109-133 | an edge reads back exactly if its encoding is there; the eraser sentinel is never confused with a live edge |
| `BlobProof.DecodeExact` | crates/dnx-core/src/blob.rs:235-258 | the decoder accepts exactly the non-empty encodings and answers what was encoded, so truncation, trailing bytes, bad kinds, selectors and ids are all refused |
| `NetObjects.DecodeBlob` | crates/dnx-core/src/blob.rs:235-286 | the two-pass decoder over a mutable net computes the specification, with the same errors |
| `BlobBuild.AcceptedIsPassive` | crates/dnx-core/src/blob.rs:235-286 | every accepted blob, however crafted, decodes to a well-formed net in which no principal port meets a principal port or the eraser |
| `BlobRebuild.BlobAccepted` | crates/dnx-core/src/blob.rs:235-286 | a serialized net is accepted back if and only if every reachable application's function port meets an auxiliary port |
| `BlobRebuild.DecodedPort` | crates/dnx-core/src/blob.rs:266-282 | each port of the decoded net holds the image of the original wire if either end emitted it, and is null otherwise |
| `BlobRebuild.BlobRoundTrips` | crates/dnx-core/src/blob.rs:235-286 | with symmetric wires, each emitted from one end, and no active function port, decoding succeeds, the net is isomorphic and re-serializing gives identical bytes |
| `WireCodec.MsgRoundTrip` | crates/dnx-dist/src/wire.rs:89-256 | reading inverts writing for every message and consumes exactly its frame |
| `WireFormat.FrameExact` | crates/dnx-dist/src/wire.rs:89-135 | the frame of every message, field by field: length, tag, counts, keys, entries and bits at their offsets |
| `WireCursor.Cursor.Message` | crates/dnx-dist/src/wire.rs:209-255 | the cursor loops parse a frame body as the specification |
| `WireCursor.ReadFrame` | crates/dnx-dist/src/wire.rs:200-256 | a frame over the limit or not decoding exactly is refused |
| `Dist.RunSound` | crates/dnx-dist/src/wire.rs:305-396 | over every run, with arbitrary peer replies, after failures midway and with any nets stored locally, every key maps to bytes that decode and hash to that key or were stored locally under their own hash |
| `Dist.RunExact` | crates/dnx-dist/src/disk.rs:133-193 | for well-wired nets the entries that do not verify are exactly those of locally stored nets with an active or unwired function port, and without such nets the store is sound after every run |
| `Dist.HonestFetch` | crates/dnx-dist/src/wire.rs:287-396 | against an honest peer with frames within the limit, probe-then-pull succeeds and copies exactly the wanted entries the peer holds, which then load |
| `DiskStore.DiskCache.Import` | crates/dnx-dist/src/disk.rs:182-193 | bytes are stored if and only if they decode and hash to the claimed key; otherwise nothing changes |
| `DiskStore.DiskCache.Store` | crates/dnx-dist/src/disk.rs:133-142 | stores the serialization under its hash; a well-wired net leaves a sound store sound if and only if no reachable application's function port is active or unwired |
| `DiskStore.DiskCache.Load` | crates/dnx-dist/src/disk.rs:147-161 | an absent key is no error, verified bytes decode, anything else is the import error |
| `DiskStore.DiskCache.Missing` | crates/dnx-dist/src/disk.rs:199-201 | the loop filters the keys in order |
| `DiskStore.AbsentExact` | crates/dnx-dist/src/disk.rs:199-201 | exactly the keys not stored are reported missing |
| `DiskStore.DiskCache.Pull` | crates/dnx-dist/src/wire.rs:344-361 | pulling with any reply keeps the store sound and imports the prefix of the reply that verifies |
| `DiskStore.DiskCache.Fetch` | crates/dnx-dist/src/wire.rs:374-389 | probing then pulling, with any replies, keeps the store sound |
| `DiskStore.DiskCache.Serve` | crates/dnx-dist/src/wire.rs:287-303 | answers a want with the exports of present keys and a have with the presence bits |
| `DiskStore.HexName` | crates/dnx-dist/src/disk.rs:96-104 | the loop spells a key in lower-case hex |
| `DiskStore.HexInjective` | crates/dnx-dist/src/disk.rs:96-104 | distinct keys have distinct file names |
| `TmCalculus.ShiftIsRen` | crates/dnx-proof/src/tm.rs:20-37 | shift is a renaming under any number of binders |
| `TmCalculus.SubstIsInst` | crates/dnx-proof/src/tm.rs:41-50 | subst is a parallel substitution under any number of binders |
| `TmCalculus.SubstShiftCancels` | crates/dnx-proof/src/tm.rs:20-50 | substituting for a variable just made room for does nothing |
| `TmCalculus.ShiftShiftCommute` | crates/dnx-proof/src/tm.rs:20-37 | shifts at separate cutoffs commute |
| `TmCalculus.ShiftShiftMerge` | crates/dnx-proof/src/tm.rs:20-37 | shifts at overlapping cutoffs add up |
| `TmCalculus.ShiftSubstAbove` | crates/dnx-proof/src/tm.rs:20-50 | shift above the substituted variable commutes with subst |
| `TmCalculus.ShiftSubstBelow` | crates/dnx-proof/src/tm.rs:20-50 | shift below it commutes with subst |
| `TmCalculus.SubstSubst` | crates/dnx-proof/src/tm.rs:41-50 | the substitution lemma at all indices |
| `TmCalculus.UnshiftShift` | crates/dnx-proof/src/tm.rs:20-37 | lowering indices undoes raising them when the variable is absent |
| `TmCalculus.ShiftScoped` | crates/dnx-proof/src/tm.rs:20-37 | shift preserves scoping |
| `TmCalculus.SubstScoped` | crates/dnx-proof/src/tm.rs:41-50 | subst preserves scoping |
| `Driver.Spine` | crates/dnx-proof/src/driver.rs:10-19 | the loop answers the head and the arguments in order |
| `Driver.SpineApply` | crates/dnx-proof/src/driver.rs:10-25 | re-applying the head to the arguments gives the term back |
| `Driver.WhnfLoop` | crates/dnx-proof/src/driver.rs:41-60 | the weak-head loop computes the function that the rows below describe |
| `Driver.NfAgree` | crates/dnx-proof/src/driver.rs:145-168 | the normal form does not depend on the fuel once it is answered |
| `Reduction.WhnfSound` | crates/dnx-proof/src/driver.rs:41-104 | weak-head normalization is a sequence of β, δ and ι steps |
| `Reduction.WhnfFires` | crates/dnx-proof/src/driver.rs:41-104 | every head redex, β, δ and ι on any constructor, has the weak-head normal form of its contractum |
| `Reduction.WhnfStops` | crates/dnx-proof/src/driver.rs:41-104 | an answer has no head redex left |
| `Reduction.WhnfRests` | crates/dnx-proof/src/driver.rs:41-104 | a term without a head redex is its own answer |
| `Reduction.NfSound` | crates/dnx-proof/src/driver.rs:145-168 | input and normal form are related by β, δ, ι and η steps under congruence |
| `Reduction.EqualNormalFormsConvert` | crates/dnx-proof/src/driver.rs:145-168 | terms with equal normal forms are convertible |
| `Reduction.NfNormal` | crates/dnx-proof/src/driver.rs:145-168 | on Elim-free terms the result has no β, δ or η redex |
| `Reduction.NfIdempotent` | crates/dnx-proof/src/driver.rs:145-168 | on Elim-free terms normalizing again changes nothing |
| `Stability.ReducesShift` | crates/dnx-proof/src/tm.rs:20-37 | reduction is stable under shift, for closed constants and whenever the indices ι asks for commute with the shift; only a recursive indexed family makes it ask |
| `Stability.ReducesSubst` | crates/dnx-proof/src/tm.rs:41-50 | reduction is stable under substitution, under the same condition |
| `Stability.NormalizationShift` | crates/dnx-proof/src/driver.rs:132-168 | weak-head and full normalization commute with shift, through η-contraction, under the same condition |
| `Stability.NeverAsksSteady` | crates/dnx-proof/src/driver.rs:112-130 | the condition holds for every substitution if constants are closed and no indexed family is recursive |
| `Stability.NormalizationContext` | crates/dnx-proof/src/driver.rs:41-168 | if no indexed family is recursive, normalization does not depend on the binder context |
| `Positivity.WalkSpine` | crates/dnx-proof/src/positivity.rs:29-42 | the spine loop checks every argument |
| `Positivity.OccursExact` | crates/dnx-proof/src/positivity.rs:44-50 | the node-by-node occurrence test is occurrence in the normal form without η |
| `Positivity.PositivityExact` | crates/dnx-proof/src/positivity.rs:20-50 | in every environment the test accepts a type if and only if its normal form without η is a Π-telescope with no domain mentioning the family, ending free of it or in it applied to arguments free of it |
| `Positivity.PositivityDecides` | crates/dnx-proof/src/positivity.rs:20-50 | the test answers wherever that normal form exists |
| `Positivity.PositivityAgrees` | crates/dnx-proof/src/positivity.rs:20-50 | if no indexed family is recursive, an accepted type's full normal form has that shape too |
| `Positivity.LazyTestIsStricter` | crates/dnx-proof/src/positivity.rs:20-50 | with η the converse fails: a refused type whose full normal form is positive |
| `Recursor.BuildMinor` | crates/dnx-proof/src/recursor.rs:73-135 | the reverse loops build the minor premise type |
| `Recursor.BuildRecursor` | crates/dnx-proof/src/recursor.rs:35-70 | the reverse loops build the recursor type |
| `Recursor.DoubleShiftIsReloc` | crates/dnx-proof/src/recursor.rs:73-135 | each double shift is the renaming that sends every field and parameter to its binder in the minor context |
| `Recursor.RecursorBinderCorrect` | crates/dnx-proof/src/recursor.rs:27-151 | the synthesized type is the one written with absolute binder positions, for any number of parameters, indices, constructors and fields |
| `Recursor.RecursorClosed` | crates/dnx-proof/src/recursor.rs:27-151 | with well-scoped telescopes the recursor type is closed |
| `Admission.GlobalEnv.AddConst` | crates/dnx-proof/src/env.rs:22-31 | admits a constant whose body mentions only earlier ones and keeps the DAG; a rejection changes nothing |
| `Admission.GlobalEnv.AddInductive` | crates/dnx-proof/src/env.rs:41-82 | registers family and arity table together or rolls back to the environment as it was |
| `Admission.BuildTable` | crates/dnx-proof/src/env.rs:65-79 | the arity table's counts are those of the declaration |
| `Admission.Session` | crates/dnx-proof/src/env.rs:22-82 | over every sequence of admissions the constants form a DAG and families and tables agree |
| `Admission.StepMeasure` | crates/dnx-proof/src/env.rs:22-31 | every δ step, anywhere in a term over admitted constants, takes exactly one off its weight and keeps its full unfolding |
| `Admission.UnfoldReached` | crates/dnx-proof/src/env.rs:22-31 | the full unfolding is reached by δ steps alone |
| `Admission.UnfoldReduces` | crates/dnx-proof/src/env.rs:22-31 | so it is a reduct in the kernel's reduction |
| `Admission.DeltaTerminates` | crates/dnx-proof/src/env.rs:22-31 | every sequence of δ steps over admitted constants is at most as long as the term weighs, reaches that length exactly when no constant is left, and then ends in the full unfolding |
| `Lowering.SrcSpine` | crates/dnx-tm-elab/src/lower.rs:378-387 | the loop answers the head and the arguments of a surface application |
| `Lowering.FillFieldMap` | crates/dnx-tm-elab/src/lower.rs:181-196 | the loop fills the field-to-hypothesis map |
| `Lowering.BuildCall` | crates/dnx-tm-elab/src/lower.rs:303-330 | the checks and the uniformity loop answer the hypothesis or the error of the specification |
| `Lowering.BuildRhs` | crates/dnx-tm-elab/src/lower.rs:200-260 | the arm is lowered as the specification, through the spine loop |
| `Lowering.BuildMinor` | crates/dnx-tm-elab/src/lower.rs:124-163 | the field map and the two wrapping loops build the minor |
| `Lowering.BuildMatch` | crates/dnx-tm-elab/src/lower.rs:87-122 | the loop over constructors builds the lowered match, with the same errors |
| `Lowering.BuildFix` | crates/dnx-tm-elab/src/lower.rs:335-375 | peeling, lowering and wrapping again builds the lowered fix, with the same errors |
| `LoweringProof.LowerRhsAccepts` | crates/dnx-tm-elab/src/lower.rs:200-330 | an arm is lowered if and only if every occurrence of the function heads a saturated uniform call on a recursive field and nothing is matched or fixed inside |
| `LoweringProof.CallExact` | crates/dnx-tm-elab/src/lower.rs:307-330 | self-calls are accepted exactly when good, and become the hypothesis of their field |
| `LoweringProof.MinorMeaning` | crates/dnx-tm-elab/src/lower.rs:200-260 | the emitted minor under its values is the source arm with each self-call replaced by the recursion on its field |
| `LoweringProof.IotaFires` | crates/dnx-proof/src/driver.rs:62-104 | the recursor on a constructor steps to its minor on the fields and one hypothesis per recursive field |
| `LoweringProof.IotaLayout` | crates/dnx-proof/src/driver.rs:62-104 | for any parameters and indices the ι contractum is the constructor's minor on its fields, one recursion per recursive field with its indices, and the arguments that follow |
| `LoweringProof.FixPreserved` | crates/dnx-tm-elab/src/lower.rs:124-375 | on every constructor whose arm makes no self-call, and on all if the emitted recursor does not mention the decreasing argument, the emitted recursor and the source arm reduce to a common term: the arm with self-calls replaced by the recursion |
| `LoweringProof.RecursionExact` | crates/dnx-tm-elab/src/lower.rs:303-375 | the recursion a self-call reaches by β equals the hypothesis ι supplies, for all arguments and fields, if and only if the emitted recursor does not mention the decreasing argument |
| `LoweringProof.PrefixFreeExact` | crates/dnx-tm-elab/src/lower.rs:124-375 | it does not if and only if neither the source motive nor an arm mentions it |
| `LoweringMeaning.MatchComputes` | crates/dnx-tm-elab/src/lower.rs:87-160 | a lowered match on a constructor reduces to what the first arm for it means, nested matches and fixes included, with the fields for the binders |
| `LoweringMeaning.PlainLowers` | crates/dnx-tm-elab/src/lower.rs:46-55 | a term without matches and fixes lowers to itself |
| `LoweringMeaning.LowerBehaves` | crates/dnx-tm-elab/src/lower.rs:46-375 | whatever lowering answers behaves as its surface term: variables, applications and λs mean themselves, a match computes its first arm for each constructor, and a fix its unfolding, under the condition of `FixPreserved` |
| `LoweringMeaning.LowerAccepts` | crates/dnx-tm-elab/src/lower.rs:46-375 | lowering succeeds if and only if every match is on a family without parameters and indices, has as many arms as constructors and for each a first arm with as many binders as fields, and every fix is such a match on its decreasing argument with structural arms |
| `LoweringCapture.DecreasingArgumentCaptured` | crates/dnx-tm-elab/src/lower.rs:335-375 | an accepted fix whose arm mentions the decreasing argument computes another value than its source |
| `JsonRun.ToJsonText` | crates/dnx-prim/src/prim.rs:632-694 | the appending printer computes the printed text, with the same failures |
| `JsonRun.FromJsonText` | crates/dnx-prim/src/prim.rs:1058-1255 | the position-moving parser computes the function of which `DocumentExact` says what it reads, with the same failures |
| `JsonRun.Parser.Literal` | crates/dnx-prim/src/prim.rs:1128-1174 | the string loop decodes escapes as the specification |
| `JsonProof.JsonRoundTrip` | crates/dnx-prim/src/prim.rs:632-694 | parsing a printed value gives it back with all input consumed, for all nesting and string contents (sections 4 to 7 of RFC 8259) |
| `JsonProof.FloatTextExact` | crates/dnx-prim/src/prim.rs:1109-1130 | a number with a point or exponent is accepted exactly if it is a decimal float: sign, digits around an optional point, exponent |
| `JsonProof.ParseParsed` | crates/dnx-prim/src/prim.rs:1075-1255 | every parsed value has integers in range, floats of their grammar and sets strictly sorted by key, whatever the input |
| `JsonProof.ReparseStable` | crates/dnx-prim/src/prim.rs:1058-1255 | any document that parses without floats prints to one that parses to the same value |
| `JsonProof.SortPermutes` | crates/dnx-prim/src/prim.rs:1249 | sorting an object keeps every entry, key and value together |
| `JsonGrammar.DocumentExact` | crates/dnx-prim/src/prim.rs:1058-1255 | a text is read as a value if and only if it is a text of the grammar with that value: literals, numbers, strings piece by piece, arrays in order, objects sorted by key with the value of the last occurrence |
| `JsonGrammar.LastWinsUnique` | crates/dnx-prim/src/prim.rs:1237-1249 | the members of an object decide its sorted entries |
| `JsonGrammar.UnescapeExact` | crates/dnx-prim/src/prim.rs:1145-1161 | after a backslash exactly the escapes of section 7 of RFC 8259 are read, each as its character |
| `JsonGrammar.CodeExact` | crates/dnx-prim/src/prim.rs:1178-1189 | the characters after `u` are read exactly as a hexadecimal number, after an optional plus sign |
| `JsonGrammar.SurrogatePairSplit` | crates/dnx-prim/src/prim.rs:1154-1157 | the two halves of a surrogate pair mean two replacement characters |
| `JsonGrammar.IntExact` | crates/dnx-prim/src/prim.rs:1109-1130 | a word is read as an integer exactly if it is an optional sign and decimal digits of that value, in 64 bits |

## Left out

- Reduction rules, parallel and weak-head drivers of the net (`reduce`): the model stops where reduction starts.
- GPU encoding of the arena, of paths and of frontiers.
- `lambda_to_dnx` and `chain_reps`, which turn readback output into the core language again: the same splitting as in `Linearize`, with easier naming.
- `psi_native`, `read_value` and the Scott-list reader, which drive reduction.
- Effects: Perform and Handle nodes of the core language, which the elaborator refuses or desugars.
- Primitive values and functions in elaboration: `Val` and `Fun` become free agents, as without a primitive context.
- Type inference and conversion in the kernel: index arguments of a recursive field and the typing checks of admission are parameters.
- Driver.WhnfLoop: takes fuel, because untyped terms may diverge; every statement is for whatever fuel answers.
- NetObjects.ReadbackRun.Psi: takes fuel, because a cyclic net has no readback; the main theorem names fuel that suffices.
- Stability.ReducesShift: for a recursive indexed family it asks that the inferred indices commute with the shift, since type inference is a parameter; it also asks for closed constants, which admission does not check.
- Stability.ReducesSubst: asks the same of the substitution.
- Stability.NormalizationShift: asks the same of the shift.
- Positivity.PositivityAgrees: is for environments in which no indexed family is recursive, because the test reduces in the empty context and normalization in the growing one.
- LoweringProof.FixPreserved: states computation and not typing, because hypothesis binders carry placeholder types. That a mention of the decreasing argument changes a value is shown for a family and not for every mention, since a mentioned argument may be dropped again.
- The 32-bit width of levels, variable indices and the renaming counters: numbers are unbounded, except where the code truncates or checks (deltas, replicator levels, generations, byte formats).
- An index past the end of the arena aborts the program; the model answers a null port, and no theorem relies on it.
- Floats: a float is carried as the text it was read from; its value and the way it is printed are not modelled.
- JSON text is modelled as characters, so malformed UTF-8 input is not; failure texts on the wire are UTF-8 bytes.
- BLAKE3 is an uninterpreted function; files, sockets and atomic renames are a key-to-bytes map and byte strings.
- `shard_key`, `prefix_independent` and the GPU bits of paths: direct readings of the limb form.
- Other front-ends, the command line, benches and the daemon.
