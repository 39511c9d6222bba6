# Piltover: verified models of the TL layer compiler and the session machinery

This project models the parts of Piltover, a Telegram server in Python, where the order of steps and the shape of data
matter most, and proves what they promise. `dafny verify dfyconfig.toml` checks it all.

**The TL layer compiler** (`tools/tl_gen.py`). Versions of a constructor become one list of fields with layer
intervals, and that list becomes one serializer for all client layers.

| file | what it holds |
|---|---|
| `Containers.dfy`, `TlSchema.dfy`, `TlCode.dfy` | fields, versions, layer intervals; values and the meaning of emitted serializer code |
| `SchemaDedup.dfy`, `LayerArchive.dfy` | reading old schemas, de-duplication, the link to the merge's precondition, and which constructor an archived layer is served |
| `LayerMergeFacts.dfy`, `LayerMerge.dfy` | the merge as it runs, over mutable field objects, and the invariants it keeps |
| `LayerDowngrade.dfy`, `LayerBodies.dfy`, `LayerNecessity.dfy`, `LayerRefinement.dfy` | the guarded serializer, and exactly when it refines history |
| `LayerSources.dfy` | where the guarded serializer takes each value from |
| `LayerWrite.dfy`, `LayerEmit.dfy` | the generated `write`, and the loops that emit the guarded body |
| `NestedLayers.dfy` | which layer the objects inside a written value are written for |
| `TlPrimitives.dfy`, `TlCodec.dfy`, `TlPlainEmit.dfy`, `TlRoundTrip.dfy` | wire primitives, the plain serializer and deserializer, the loops that emit them, and the round trip |
| `TlLayout.dfy`, `TlReading.dfy` | the wire form spelled out, and what readers make of any bytes |
| `ContextFields.dfy` | the memoised search for fields that need the reader's context |

**The MTProto session** (`session.py`, `client.py`, `base_broker.py`, `session_manager.py`, `_system_handlers.py`).
State machines whose steps are the stretches between two awaits, runs as sequences of steps, and classes whose methods
are proved to take exactly those steps: `Outbound.dfy`, `OutboundOrder.dfy`, `OutboundOrigins.dfy`, `Rpc.dfy` with the
class in `Session.dfy`, and `BrokerRun.dfy`, `SessionIdentity.dfy` with the classes in `Broker.dfy` and `Sessions.dfy`.

**Four smaller machines**: `GapRecovery.dfy`, `RateLimit.dfy`, `Upload.dfy`, `CallHandshake.dfy` and
`CallLaws.dfy`.

## What turned out not to hold as is

Each of these has a concrete case in the model and, unless said otherwise, a condition under which, and only under
which, the code does what is expected.

- The guarded serializer skips the bit of a conditional field that is older than the merged entry of its flag word.
  This happens when a flag word changes places between two versions while the conditional field does not
  (`LayerEmit.DisplacedFlagWordFails`; the condition is `LayerDowngrade.Agrees`).
- For a family in which no version has a field the downgradable `write` returns no bytes to older clients, not even the
  constructor id (`LayerWrite.EmptyFamilyWritesNothing`; the condition is in `LayerWrite.WriteFollowsHistory`).
- An object that gives a shared bit by empty vectors alone passes the serializer's own check, is written with its
  bodies but without the bit, and is not read back (`TlRoundTrip.EmptyVectorsOnOneBitAreLost`; the condition is
  `TlRoundTrip.Audible`).
- Objects inside a written value may be written for the newest layer instead of the client's: a field whose type has a
  single constructor listed, old versions counted, is written without context (`NestedLayers.DialogLeaks`; the
  condition is in `NestedLayers.NestedKnownExactly`).
- On a cyclic type graph the context search may leave out a field (`ContextFields.CycleLosesAField`). What it lists is
  always right, and the list of a constructor is complete if no cycle is in its reach; on a cycle
  `ContextFields.FieldIsListedExactly` says which fields get in.
- A constructor id that is dropped and later comes back breaks the ascending layers the merge relies on
  (`SchemaDedup.ComesBack`; the condition is in `SchemaDedup.FamilyIsSorted`). An old constructor that gives way to
  another and is back in a later old layer is kept for its first layer only, and clients of the later layer are served
  the other one (`LayerArchive.BackIsServedWrong`; the condition is in `LayerArchive.ServedAsListed`).
- With a pts limit for one answer, a step in the log wider than the limit makes the client believe it is up to date
  (`GapRecovery.WideStepLosesAll`; the condition is in `GapRecovery.RecoveryIsComplete`).
- Receiving a call, discarding one and hanging up stale ones read the call first and write it later, so a late write can
  replace the answering session or change a discarded call (`CallHandshake.ReceivedOverAccepted`,
  `CallHandshake.DiscardedTwice`, `CallHandshake.HungUpAfterDiscard`). It need not: a late discard writes the reason it
  settled on when it read the call (`CallHandshake.DeclinedTwiceStays`). The conditions are in
  `CallHandshake.AnswerStaysExactly` and `CallHandshake.DiscardedStaysExactly`.
- Codes to one address may be closer than the minimum interval if the window is shorter
  (`RateLimit.ShortWindowBreaksInterval`; the condition is in `RateLimit.IntervalIsKeptExactly`).

Two more things a reader of the code may not expect:

- A negative file part number is accepted and written into the first part's file (`Upload.NegativePartIsAccepted`), but
  then no finalization goes through any more (`Upload.NegativePartIsRefused`). An empty part raises a division by zero
  before the check for empty parts is reached.
- The length check at `tools/tl_gen.py:902-905` compares a value with itself; that the lengths agree is proved from the
  loops instead.

## Assumptions

- Families given to the merge have ascending, disjoint layer ranges and unique field names within a version; flag
  words precede their conditional fields, only conditional fields are `true`, and flag words have 31 bits, as a signed
  32-bit word allows. `SchemaDedup.FamilyIsSorted` says when the first holds.
- `LayerArchive.dfy` is about constructors whose name the base schema has, once, and whose family is ascending.
- A client of layer `l` is served the newest version whose first layer is not above `l`; for the oldest version that is
  its last layer, as in the generated constructor ids.
- Awaits are step boundaries. Refreshing, connecting, registering for push and finalizing are one step each in
  `BrokerRun.dfy`; checking and recording are one step in `RateLimit.dfy`; a part is saved in one step in `Upload.dfy`;
  the transactions of `CallHandshake.dfy` are one step, all else there is taken apart.
- A `calm` run has a clock that does not go back and fewer than 2^30 message ids in a second.
- The pts of a user's updates are distinct, and the log stands still during a recovery (`GapRecovery.dfy`). The table
  has only a plain index on user and pts.
- Cache entries are gone once their time to live has passed, and tables are sequences in the order they are queried.
- SHA-256, UTF-8 validity, layer converters and the encoding of nested objects in the downgrade results are arbitrary
  functions; that an encoded vector has at least one byte is all that the necessity half of
  `LayerRefinement.RefinesExactly` asks.

## Model

| member | source | states |
|---|---|---|
| `LayerMerge.MergeVersions` | tools/tl_gen.py:800-910 | For every sorted family of versions the in-place merge runs to its end (no branch that raises is reachable) and leaves a list that shows every client layer exactly the field list of the version in force, in order; entries are one across versions exactly when a field stays in place; a single version needs no list |
| `LayerMerge.PlaceAdded` | tools/tl_gen.py:850-893 | The loop over fields still to be placed ends: a pass without progress means nothing at all is placed, and then the whole list is appended; older layers see no change meanwhile |
| `LayerMerge.Sweep` | tools/tl_gen.py:850-883 | One pass places at least one pending field or finds that none has a placed neighbour, and then changes nothing |
| `LayerMerge.FindFieldInFieldsMaybe` | tools/tl_gen.py:445-464 | The search finds the entry of a name and layer with the run of same-named entries before it, or nothing if there is none |
| `LayerMerge.RetireLeftovers` | tools/tl_gen.py:895-897 | Entries of the version before that the new one lacks end right below it; no other entry changes |
| `LayerMerge.CheckFields` | tools/tl_gen.py:901-910 | The final comparison tells whether the entries that end with a version and its fields agree, as far as the shorter of the two goes |
| `LayerMerge.CheckPasses` | tools/tl_gen.py:901-910 | In a merged list the entries that end with the newest version are its fields, equal in number, so neither mismatch error can fire |
| `LayerMergeFacts.StepIsExact` | tools/tl_gen.py:814-900 | Adding one version keeps the list exact: earlier versions are shown as before and the new one in full, for all layers |
| `LayerMergeFacts.StepIsMerged` | tools/tl_gen.py:814-900 | Everything the merged list promises after version i-1 holds after version i |
| `LayerMergeFacts.SomePendingHasPlacedNeighbour` | tools/tl_gen.py:850-893 | If some but not all fields of a version are placed, a pending field stands next to a placed one |
| `LayerRefinement.RefinesExactly` | tools/tl_gen.py:980-1089 | The one guarded serializer writes, for every older layer and every object whose converted values the version in force can write (typed, and passing its shared-bit check), what that version's plain serializer writes, if and only if each flag word is as old as the fields it announces, or their bits are set in it by another field all the same, and shared bits are recognised as shared |
| `LayerRefinement.AgreesSuffices` | tools/tl_gen.py:980-1089 | Under that condition the bytes agree for all layers, objects and encoders |
| `LayerRefinement.SimpleAgrees` | tools/tl_gen.py:980-1089 | The condition holds for every family with one merged entry per flag word and no bit used twice in a version |
| `LayerSources.BodyReadsRightly` | tools/tl_gen.py:962-1089 | For every client of an older version: each value the emitted body writes and each flag term it evaluates is that of a field of the version in force, and it reads the object itself if and only if the newest version has just this field, a fallback converter if and only if the newest version has no field of its name, and a downgrade converter if it has another one; a converter is named by the first layer since which the field stands in place; and every field of the version is written so |
| `LayerSources.ConvertedRightly` | tools/tl_gen.py:1143-1153 | The converted values in the refinement theorem are the values of exactly these sources |
| `LayerSources.OneSourceIsRight` | tools/tl_gen.py:962-983 | For a field of a version only one source is right |
| `LayerSources.GeneratesExactly` | tools/tl_gen.py:967-976 | The generator's assertions on flag words hold if and only if the newest version has every flag word of the other versions as it is |
| `LayerWrite.BisectFinds` | tools/tl_gen.py:1141 | bisect_right on ascending layers gives the position after the last one not above the client's |
| `LayerWrite.IdOfVersionInForce` | tools/tl_gen.py:1105-1141 | The constructor id picked by bisect is that of the version in force |
| `LayerWrite.WriteFollowsHistory` | tools/tl_gen.py:1115-1166 | For converted values that suit the version in force, the downgradable `write` does what that version's serializer does, id included, if and only if the version is the newest, or that serializer does not raise on shared bits and some version has a field |
| `LayerWrite.BodyIsEmitted` | tools/tl_gen.py:1154-1160 | The generator emits a body, rather than a bare empty result, exactly when some version has a field |
| `LayerWrite.RefusedExactly` | tools/tl_gen.py:1131-1139 | A client is refused if and only if it is older than the last layer of the oldest version; from the least layer of the newest version on, even above the top layer, it gets what the newest version's serializer gives |
| `LayerWrite.EmptyFamilyWritesNothing` | tools/tl_gen.py:1154-1160 | A concrete family without fields: a client of the older version gets no bytes, where that version's serializer writes its id |
| `NestedLayers.NestedKnownExactly` | tools/tl_gen.py:611-683 | Whatever objects of a constructor are written for a client, it knows every object in them at every depth, if and only if no way leads from the constructor, by versions in force that can be written, to a field whose type has one constructor listed, and from there by newest versions to a constructor whose newest version the client does not know |
| `NestedLayers.HandedExactly` | tools/tl_gen.py:611-683 | The client's layer is handed on to what a field holds, unless the field holds one object of a type under which a single version of a single constructor is listed; vectors always hand it on |
| `NestedLayers.ChosenIsWritten` | tools/tl_gen.py:1131-1151 | The version chosen for an object is the one whose id the generated `write` puts first |
| `NestedLayers.DialogLeaks` | tools/tl_gen.py:617-618 | A concrete schema: below a field written without context a client of layer 1 gets an object as layer 2 has it, though by itself it is written as layer 1 has it |
| `LayerEmit.EmitDowngrade` | tools/tl_gen.py:962-1089 | The generator's loops over the merged entries emit exactly the guarded body; the fallback converters asked for are one for each entry whose name the newest version lacks, the downgrade converters one for each whose name it has for another field |
| `LayerEmit.EmitTerms` | tools/tl_gen.py:1017-1040 | The flag-word terms are those of the conditional entries that start while the word is in use |
| `LayerEmit.GenerateDowngradable` | tools/tl_gen.py:798-1089 | From versions to emitted body: the merged list is right, generation stops exactly if some version has a flag word that the newest lacks, what is asked of converters is as above, and the body refines history exactly under the condition |
| `LayerEmit.DisplacedFlagWordFails` | tools/tl_gen.py:1017-1040 | A concrete family (a flag word moves in front of another field while its conditional field stays) and a concrete object the version of layer 2 can write: the guarded serializer starts with a flag word without the bit, the plain one with it set |
| `LayerEmit.DisplacedDoesNotRefine` | tools/tl_gen.py:1017-1040 | So for that family the guarded serializer does not stand in for the plain ones, whatever encodes nested values |
| `LayerEmit.EmitDisplaced` | tools/tl_gen.py:800-910 | The merge accepts that family and yields the list for which the serializer fails |
| `SchemaDedup.ParseOldSchemas` | tools/tl_gen.py:341-380 | Each constructor name and id survives only in the earliest old layer that has it and in none if the base schema has it; each base constructor's least layer is the least where it occurs; listed are exactly the layers that keep something, in their order |
| `SchemaDedup.Schemas.DropRepeated` | tools/tl_gen.py:365-369 | The nested deletion loops keep every constructor in its earliest layer alone |
| `SchemaDedup.Schemas.ReadLayer` | tools/tl_gen.py:352-363 | Reading one layer lowers the least layer of base constructors it has and collects the others once |
| `SchemaDedup.FamilyIsSorted` | tools/tl_gen.py:341-380 | De-duplication hands the merge a family with disjoint ascending layer ranges if and only if the base constructor is not an old one that came back after another of its name |
| `SchemaDedup.ComesBack` | tools/tl_gen.py:341-380 | A concrete archive in which it came back: what the merge is handed is not ascending |
| `SchemaDedup.FamilyHas` | tools/tl_gen.py:502-515 | The family handed to the merge has a version for each old layer that keeps a constructor of the name, served in that layer alone, and the base version, served from its least layer to the top, as its last |
| `LayerArchive.ServedAsListed` | tools/tl_gen.py:341-380 | From the archive to the client: a client of an archived layer is shown the fields of the constructor that its layer's schema lists if and only if no other constructor of the name came up after that one had, up to that layer; otherwise it is shown the latest |
| `LayerArchive.BackIsServedWrong` | tools/tl_gen.py:365-369 | A concrete archive in which an old constructor is back after another: clients of that layer are served the other one |
| `TlRoundTrip.RoundTripExactly` | tools/tl_gen.py:566-683 | Reading what was written, followed by any bytes, gives the value back and touches nothing of what follows, if and only if no object in it gives a shared bit by empty vectors alone; an optional empty vector alone on its bit comes back as left out |
| `TlRoundTrip.NormWritesTheSame` | tools/tl_gen.py:566-683 | The value that comes back is written as the same bytes as the original |
| `TlRoundTrip.SignalMeansPresent` | tools/tl_gen.py:620-664 | When the shared-bit check passes and no bit is silent, a bit is set exactly when its fields are written, and a bare flag is its bit |
| `TlRoundTrip.BitIsRead` | tools/tl_gen.py:665-672 | The deserializer's test of a bit tells whether some field on it announced itself |
| `TlRoundTrip.EmptyVectorsOnOneBitAreLost` | tools/tl_gen.py:620-664 | A concrete object that passes its serializer's check and does not come back |
| `TlCodec.BodyWrites` | tools/tl_gen.py:566-683 | Running the emitted serializer body writes what the codec's encoder says |
| `TlPlainEmit.EmitBodies` | tools/tl_gen.py:598-683 | The loop over the fields emits the plain serializer and deserializer bodies |
| `TlPlainEmit.EmitChecks` | tools/tl_gen.py:566-596 | The emitted checks refuse exactly the objects in which a shared bit is filled in part |
| `TlPlainEmit.CountOnBit` | tools/tl_gen.py:651-655 | Counting the fields on a bit finds more than one exactly when the bit is shared |
| `TlPrimitives.BytesRoundTrip` | piltover/tl/primitives/str_.py:8-40 | Byte strings read back, short and long, whatever follows |
| `TlPrimitives.BytesLayout` | piltover/tl/primitives/str_.py:26-40 | What is written for a byte string: its length in one byte, or behind a 254 in three little-endian bytes from 254 on; then its bytes; then zeros only, fewer than 4, up to a length divisible by 4 |
| `TlPrimitives.IntBytes` | piltover/tl/primitives/int_.py:22-24 | Byte k of a written integer of any size, negative ones in two's complement, is its digit in base 256 at place k |
| `TlCodec.ScalarBytes` | piltover/tl/primitives/bool_.py:19-21 | The bytes of a 32-bit integer, of both booleans and of a double, spelled out |
| `TlCodec.VectorBytes` | piltover/tl/primitives/vector.py:39-41 | A vector is its id, its count in four bytes and its elements one behind the other |
| `TlCodec.ObjectBytes` | tools/tl_gen.py:566-683 | An object is its constructor id in four bytes and what running the emitted body gives |
| `TlLayout.FieldLayout` | tools/tl_gen.py:598-683 | Field by field, in terms of the values alone: a flag word is four bytes with each bit in its place if some field announces itself by it; nothing is written for a field not given, a bare flag, or an empty list alone on its bit; and else the value |
| `TlLayout.RaisesExactly` | tools/tl_gen.py:566-596 | The check in front of a serializer raises if and only if of two fields on one bit one is given and the other is not |
| `TlReading.IntegerExactly` | piltover/tl/primitives/int_.py:13-36 | Of any bytes: reading an integer of 4 or 8 bytes fails exactly when there are fewer, and what is read is what those bytes are the writing of; wider ones take fewer bytes for the whole |
| `TlReading.StringExactly` | piltover/tl/primitives/str_.py:8-23 | Of any bytes: as many as the length says, as far as there are; then as many are skipped as make the whole divisible by 4, whatever they are |
| `TlReading.BooleanExactly` | piltover/tl/primitives/bool_.py:11-17 | A boolean is read from its two forms and nothing else |
| `TlReading.HeaderExactly` | piltover/tl/primitives/vector.py:28-37 | A vector header is read from the vector id and a count of any sign, and nothing else |
| `TlReading.BulkExactly` | piltover/tl/primitives/vector.py:48-52 | A count that is too high gives what there is, a negative one all of it, and only an element cut short is refused |
| `TlPrimitives.IntReads` | piltover/tl/primitives/int_.py:20-42 | Two's-complement little-endian integers of every size read back |
| `TlPrimitives.HeaderReads` | piltover/tl/primitives/vector.py:30-41 | A vector header gives back its count |
| `TlRoundTrip.BulkVectorTrip` | piltover/tl/primitives/vector.py:48-60 | Number vectors that are read in one piece read back element by element |
| `ContextFields.AnalysisIsExact` | tools/tl_gen.py:414-442 | On every graph the lists hold, in order, only fields that reach a context-needing type or `Object`; the list of every constructor with no cycle in its reach holds all of them, whatever cycles there are elsewhere |
| `ContextFields.AnswerDecides` | tools/tl_gen.py:414-442 | On every graph and after any lists, finished or in the making: a constructor without a list gets one that is not empty if and only if, through constructors without one, it comes to a direct field or to a list that is not empty |
| `ContextFields.FieldIsListedExactly` | tools/tl_gen.py:424-442 | A field gets into the list of its constructor if and only if that holds for it when its turn comes, so this tells which fields a cycle loses |
| `ContextFields.TypeDecides` | tools/tl_gen.py:424-442 | A field of a core type is never listed, one of a type that needs context always is, and of the types that are not known `Object` only |
| `ContextFields.FirstAnswerDecides` | tools/tl_gen.py:414-442 | Cycles or not, the constructor asked first has an empty list exactly when nothing it holds needs context |
| `ContextFields.CycleLosesAField` | tools/tl_gen.py:414-442 | A concrete cyclic graph: the list of one constructor on the cycle leaves out a field that reaches a context-needing type, that of another leaves out nothing |
| `ContextFields.ResolveFieldsForCheck` | tools/tl_gen.py:414-442 | The memoised recursion over objects that carry their lists terminates on every graph and computes the specified lists |
| `ContextFields.AnalyzeAll` | tools/tl_gen.py:685-687 | Code generation asks for the list of each constructor of a type in turn |
| `Outbound.EveryRunConserves` | piltover/gateway/client.py:454-473 | In every run each message that was put in the queue (which ones: `OutboundOrigins.EveryMessageStems`) is in exactly one of: the queue, the write in progress, the unacknowledged store, or gone by an acknowledgement, a failed write of it, a later message with its id, or finalization; it is gone by acknowledgement as often as an event named its id while it was in the store; ids in the store are distinct; drops and failed first writes are equal in number |
| `OutboundOrigins.EveryMessageStems` | piltover/session/session.py:288-318 | Over every run, from the events alone: the enqueued messages are, in their order, those that the enqueuing events ask for, and each message in the queue or the store, being written or about to be rewritten is one of them: its data is the event's, its id counts in fours within its second and ends in 1 for a reply and else 3, and its number is twice the content-related messages enqueued before plus one if content-related itself |
| `OutboundOrigins.IdsTell` | piltover/session/session.py:443-454 | Of every such message: its id is 1 modulo 4 for a reply and else 3, and in a calm run divided by 2^32 it is the time of its event |
| `Outbound.TrackKeepsPlaces` | piltover/session/session.py:152-153 | A written message takes the place of the one with its id in the store, and goes behind the others if there is none |
| `Outbound.AckTakesNamed` | piltover/session/session.py:155-157 | Dropping named ids one by one leaves exactly the messages whose id is not named, in their order |
| `OutboundOrder.MessageIds` | piltover/session/session.py:443-454 | With a clock that does not go back and fewer than 2^30 ids in a second, the ids given out, those of queued messages as they stand in the queue, strictly increase, are 1 modulo 4 for a reply and else 3, and give back their second |
| `OutboundOrder.SequenceNumbers` | piltover/session/session.py:456-461 | In every run the number of each message as it stands in the queue is twice the number of content-related messages queued before, plus one if content-related itself |
| `OutboundOrder.WritesRise` | piltover/gateway/client.py:462-473 | In every calm run the store precedes the queue, both by rising id, and each call writes strictly rising ids however acknowledgements and enqueues interleave |
| `OutboundOrder.NothingIsDisplaced` | piltover/session/session.py:152-153 | In a calm run no message pushes another out of the store |
| `OutboundOrder.ReconnectWritesAll` | piltover/session/session.py:120-132 | Connecting again schedules all unacknowledged messages; if the connection holds, one pass writes them and then the queue, each message once and in its order, and leaves exactly those unacknowledged |
| `OutboundOrder.ConnectedExactly` | piltover/session/session.py:118-150 | In every run the session is connected if and only if it was connected at some point and no disconnection, finalization or disconnecting failed write came after it |
| `OutboundOrder.ResendExactly` | piltover/session/session.py:118-126 | In every run unacknowledged messages are due to be written again if and only if there were some at a connection and neither a rewriting pass nor a finalization has come since |
| `OutboundOrder.PassSeesStore` | piltover/gateway/client.py:462-465 | In every run a rewriting pass that does not raise at its next step still has before it exactly the end of the store as it is now |
| `OutboundOrder.SilentUntilConnected` | piltover/gateway/client.py:454-473 | Until a session is connected nothing of it is written, whatever else happens |
| `Session.Session.AckOutbound` | piltover/session/session.py:155-157 | Acknowledging leaves exactly the messages that are not named, in their order, and makes a resend pass under way raise if the store changed |
| `Session.Session.PackContainer` | piltover/session/session.py:470-480 | A container's id is above every inner id, its sequence number at least every inner one, and the inner ones rise; each of them has the reply bits, the second and the number its object calls for |
| `Session.Session.MsgId` | piltover/session/session.py:443-454 | The id, and that the assertion on its low bits never fires |
| `Session.Session.Finalize` | piltover/session/session.py:159-175 | Finalization clears queue, store, flags and completion tracking |
| `Rpc.EveryRunKeeps` | piltover/session/session.py:177-206 | In every reachable state at most 256 completions are tracked, a stored event is set exactly when its request is among them, and a waiting task's event is the stored one |
| `Rpc.ForgetKeeps` | piltover/session/session.py:177-181 | Forgetting the oldest completion never takes the event of a blocked task |
| `Rpc.MarkWakes` | piltover/session/session.py:183-191 | A completion wakes every task that waits for it since the last finalization |
| `Rpc.BlockedIsWarranted` | piltover/session/session.py:193-206 | A task blocked in this life of the session waits for a request that is not among the completed |
| `Rpc.StartsAfterAll` | piltover/gateway/_system_handlers.py:61-94 | A query that waits for others starts only after all of them completed |
| `Rpc.MarkedWasReported` | piltover/gateway/client.py:622-628 | Completed means that the request was reported completed, and nothing else |
| `Rpc.AskOne` | piltover/session/session.py:193-197 | A wait returns at once exactly when the completion is still tracked; one that was forgotten makes it wait |
| `Rpc.NewestStayTracked` | piltover/session/session.py:177-191 | From the events alone: the completions tracked are the newest 256 since the last finalization, in the order they came; one that comes again while tracked is not a new one |
| `Rpc.TasksExactly` | piltover/gateway/_system_handlers.py:61-94 | A query that asks, or is woken once its event is set, goes on to the first of its requests that is not completed and waits for it, or starts if there is none; one that times out is given up; nothing else changes a query |
| `Session.Session.MarkRpcCompleted` | piltover/session/session.py:183-191 | Marking, with its pruning loop, is one step of the tracked state and keeps its invariant |
| `Session.Session.WaitForInvokeAfter` | piltover/gateway/_system_handlers.py:61-69 | The loop over the listed requests stops at the first that is not completed, registered for it |
| `BrokerRun.NoOldIdentity` | piltover/session/session.py:362-440 | In every reachable state a session found under a user id or authorization id has that id at that moment: through login, change of account, logout and finalization |
| `BrokerRun.EnrolledIsFound` | piltover/message_brokers/base_broker.py:128-141 | From its connection until it is finalized a session is found under the ids it has |
| `BrokerRun.FinalizedIsGone` | piltover/session/session_manager.py:65-73 | A finalized session with a key is found under no user or authorization id |
| `Sessions.TakeAll` | piltover/session/session.py:362-440 | After every run of events (creating, connecting, refreshing with or without a new key, login, change of account, logout, registering for push, channel pushes, finalizing) the broker's dictionaries hold exactly the pairs, and the sessions the fields, that the relations of the run say |
| `SessionIdentity.RefreshGives` | piltover/session/session.py:374-440 | In every reachable state, by the fields of session and request alone: with both keys after the reload a lookup that finds user u and authorization a makes them the session's, with its pending flag; a lookup that finds none, or a lost key, empties them; a recent one leaves them; channels become those joined; the indexes follow, and a connected session is then found under exactly its user and its authorization; nothing else changes |
| `Sessions.SessionManager.RefreshAuthMaybe` | piltover/session/session.py:374-440 | Refreshing, with its early returns and its moves in the dictionaries, is the one step of the machine, and leaves session and dictionaries as `SessionIdentity.RefreshGives` says in their fields |
| `SessionIdentity.FoundExactly` | piltover/message_brokers/base_broker.py:128-141 | In every reachable state a connected session that is not finalized is found under its own user and authorization and under no others |
| `SessionIdentity.ConnectGives` | piltover/message_brokers/base_broker.py:128-141 | Connecting puts a session under its user, authorization, both keys and its channels, and in the push index or out of it, and changes nothing else |
| `SessionIdentity.RegisterPushGives` | piltover/message_brokers/base_broker.py:350-360 | Registering marks the session for push, refreshes it, and puts it under what it has then |
| `SessionIdentity.FinalizeGives` | piltover/session/session_manager.py:65-73 | Finalizing takes a session with a key in use from under everything it has; one without stays where it is |
| `SessionIdentity.SubscribeChannelsGives` | piltover/message_brokers/base_broker.py:296-318 | A channel push puts exactly the sessions found under the users under exactly the channels named, or takes them away |
| `SessionIdentity.CreateGives` | piltover/session/session_manager.py:30-37 | In every reachable state a new session has its keys, no identity, and is found under nothing; an existing one is left alone |
| `Sessions.SessionManager.ProcessChannelsSubscribe` | piltover/message_brokers/base_broker.py:296-318 | A channel push puts every session found under the users under all the channels, or takes it from under them, and no other session |
| `Broker.RepresentationIsUnique` | piltover/message_brokers/base_broker.py:65-70 | A dict of non-empty sets is determined by the pairs it holds |
| `Broker.SubscribeIn` | piltover/message_brokers/base_broker.py:92-126 | Subscribing adds the one pair, unless the id is missing or zero |
| `Broker.UnsubscribeFrom` | piltover/message_brokers/base_broker.py:143-177 | Unsubscribing takes the one pair and leaves no empty set |
| `Broker.ChannelsDiffUpdate` | piltover/message_brokers/base_broker.py:191-207 | The two loops turn the relation into itself less the deleted channels plus the added ones |
| `Broker.BaseMessageBroker.Subscribe` | piltover/message_brokers/base_broker.py:128-141 | All dictionaries after subscribing represent the relations of the machine after the same step |
| `Broker.BaseMessageBroker.Unsubscribe` | piltover/message_brokers/base_broker.py:179-189 | All dictionaries after unsubscribing represent the relations of the machine after the same step |
| `Broker.BaseMessageBroker.ProcessMessageToUsers` | piltover/message_brokers/base_broker.py:209-294 | Every eligible connected session that some addressee list names is delivered to exactly once, and no other |
| `Broker.SendAddressesAll` | piltover/session/session_manager.py:83-145 | The short form of a message addresses the same as the long form |
| `Broker.SentToExactly` | piltover/session/session_manager.py:83-145 | Nothing is sent if and only if no addressee is named; otherwise a session gets the message if and only if it is connected, its authorization is not to be ignored, the update is of a kind for push if the session is for push, and some argument names an id it is found under |
| `Broker.ReachedAsNamed` | piltover/message_brokers/base_broker.py:225-248 | In every reachable state a session reached through users or authorizations has an id that was named |
| `Broker.EnrolledIsTargeted` | piltover/message_brokers/base_broker.py:225-248 | In every reachable state a session that was connected is reached by every message to its user |
| `GapRecovery.RecoveryIsComplete` | piltover/app/handlers/updates.py:57-181 | Asking again from the pts returned, with any total limit and any limit for one answer, ends having read every update above the starting pts exactly once and in order, if and only if there was none, or the server was within the total limit and no step between those updates exceeds the other |
| `GapRecovery.WideStepLosesAll` | piltover/app/handlers/updates.py:57-181 | A concrete log with a wider step: the client is told that it has everything while an update is left |
| `GapRecovery.ShownOnce` | piltover/app/handlers/updates.py:120-145 | Every update read is shown as a message or an update, never both; left out are exactly edits of a message new in the same slice, the excluded login notices and what has nothing to show |
| `GapRecovery.NothingInvented` | piltover/app/handlers/updates.py:120-145 | Nothing is shown that was not read |
| `GapRecovery.GetDifference` | piltover/app/handlers/updates.py:60-181 | The handler's loops give the specified answer |
| `GapRecovery.AnswerExactly` | piltover/app/handlers/updates.py:60-181 | One answer from the log and the request alone: too long, with the last pts, if and only if the log ends beyond the total limit; what is read are the updates above the pts, at most 500 and within the limit; empty if and only if there is none and no secret-chat update waits; a slice, ending at the last update read, if and only if something was read and the log goes on; messages and other updates by rising pts |
| `RateLimit.WindowHolds` | piltover/app/utils/auth_rate_limit.py:37-70 | In every run with checks and records taken together, the codes for one address, or one key, within any window are no more than the limit (or one, if the limit is less) |
| `RateLimit.IntervalHolds` | piltover/app/utils/auth_rate_limit.py:27-43 | By the clock's whole seconds, codes to one address are at least the minimum interval apart, or the window if that is shorter; in real time it may be up to a second less |
| `RateLimit.IntervalIsKeptExactly` | piltover/app/utils/auth_rate_limit.py:27-67 | By the clock's whole seconds, the minimum interval between codes to one address is kept in every run if and only if the window is no shorter than it |
| `RateLimit.ShortWindowBreaksInterval` | piltover/app/utils/auth_rate_limit.py:56-67 | With a shorter window two codes closer than the interval are both sent |
| `RateLimit.Limiter.RecordSendCode` | piltover/app/utils/auth_rate_limit.py:56-70 | Recording renews the expiry of the counters and the time of the last code |
| `RateLimit.Limiter.CheckSendCodeAllowed` | piltover/app/utils/auth_rate_limit.py:37-53 | The check refuses, with the seconds to wait, exactly by interval, address counter and key counter in that order |
| `RateLimit.RefusedExactly` | piltover/app/utils/auth_rate_limit.py:27-53 | In every run, from the times of the codes sent: a request is refused if and only if the last code to its address is too recent or a limit is used up, with the seconds left of the interval, or with the interval but at least a second; all others pass |
| `Upload.UploadAssembles` | piltover/app/handlers/upload.py:27-82 | Whatever requests came, in whatever order and however often repeated: if the parts on record are numbered from 0 without a gap, the part files are exactly those, and joined they are the first accepted data of each part by number |
| `Upload.RecordsPassExactly` | piltover/db/models/uploading_file.py:35-56 | The check of the records lets an upload through exactly when its parts are numbered from 0 without a gap and their number is the announced one |
| `Upload.OrdinaryUpload` | piltover/app/handlers/upload.py:27-82 | The parts of a file of the usual sizes are never refused, in whatever order they come and however often; once all have come, the part files joined by number are the file |
| `Upload.RefusedExactly` | piltover/app/handlers/upload.py:27-82 | Which part is refused, and with which error, by the announced number, the parts on record and the size |
| `Upload.MissingExactly` | piltover/db/models/uploading_file.py:35-56 | Records of the right number that do not pass are said to miss the first part, or the one right before the first part behind a gap |
| `Upload.FinalizeAfter` | piltover/db/models/uploading_file.py:30-74 | After any requests, finalization stores a file exactly then, and what it stores is the first accepted data of each part in order, with no part file left behind |
| `Upload.Uploading.FinalizeUpload` | piltover/db/models/uploading_file.py:30-74 | The handler's checks in order, then the storage's finalization |
| `Upload.NegativePartIsRefused` | piltover/db/models/uploading_file.py:49-56 | Once a negative part is on record every later finalization is refused |
| `Upload.Uploading.FinalizeUploadAs` | piltover/storage/local_file.py:81-103 | Finalization succeeds exactly when all part files are there, stores them joined by number, and leaves none of them behind |
| `Upload.Uploading.SaveFilePart` | piltover/app/handlers/upload.py:27-82 | The handler accepts, ignores or refuses a part as specified, with its order of checks |
| `CallLaws.ConfirmExactly` | piltover/app/handlers/phone.py:367-396 | In the fields of call and request: confirming changes the call if and only if it is accepted, neither confirmed nor discarded, the key has 1 to 256 bytes and the announced hash, the protocol is in bounds and some layer is common; it then stores the key, the present time, the layers both have, each flag either has, and the newest version in common, and nothing else |
| `CallLaws.AcceptExactly` | piltover/app/handlers/phone.py:336-364 | Likewise for accepting, which is refused to a second session and keeps all versions in common |
| `CallLaws.NumbersAreParts` | piltover/app/handlers/phone.py:97-106 | The numbers that versions are compared by are those they are written with |
| `CallLaws.ReceivedExactly` | piltover/app/handlers/phone.py:399-429 | When a receiving report takes effect, and that its late write stores the session and nothing else |
| `CallLaws.DiscardExactly` | piltover/app/handlers/phone.py:217-233 | The reason a discard settles on when it reads the call, and that its late write stores it with the whole seconds from the start it read and nothing else |
| `CallLaws.StaleExactly` | piltover/app/handlers/phone.py:163-172 | A call found neither discarded nor started is hung up later, whatever has become of it |
| `CallHandshake.EveryRunIsSound` | piltover/app/handlers/phone.py:163-429 | In every interleaving, reads and writes of each handler outside a transaction taken apart: the first key implies the second, a start and the announced hash; the layers are never empty; a confirmed call has one library version |
| `CallHandshake.EveryRunProgresses` | piltover/app/handlers/phone.py:121-137 | Between any two points of a run keys are written once, a confirmed protocol stays, and layers only narrow |
| `CallHandshake.ConfirmedVersionIsGreatest` | piltover/app/handlers/phone.py:97-137 | In every run the one version of a confirmed call is the greatest of what the request, an acceptance and a later confirmation of that run have in common, merged in that order, and the call started at the time of that confirmation |
| `CallHandshake.AnswerChangesExactly` | piltover/app/handlers/phone.py:406-429 | The session of an answered call changes in a step exactly when that step is the late write of another session |
| `CallHandshake.AnswerStaysExactly` | piltover/app/handlers/phone.py:406-429 | The session of an answered call is the same after whatever follows if and only if no request that read the call before is still to write another session |
| `CallHandshake.DiscardedStaysExactly` | piltover/app/handlers/phone.py:163-235 | A discarded call is the same after whatever follows, at whatever times to come, if and only if every request that read it before is still to write only what is stored: a discard the same reason (settled when it read the call) and the same duration, a hang-up the same reason, a receiving report the same session |
| `CallHandshake.DeclinedTwiceStays` | piltover/app/handlers/phone.py:313-333 | Declined on two devices at once, the call stays as it is with one discard still under way |
| `CallHandshake.ReceivedOverAccepted` | piltover/app/handlers/phone.py:406-429 | A concrete interleaving in which a late write of the receiving session replaces the one that accepted |
| `CallHandshake.DiscardedTwice` | piltover/app/handlers/phone.py:313-333 | A concrete interleaving of the callee declining and the caller giving up: a call discarded as busy becomes one that was missed |
| `CallHandshake.HungUpAfterDiscard` | piltover/app/handlers/phone.py:163-172 | A concrete interleaving in which hanging up stale calls overwrites the reason of a discarded one |
| `CallHandshake.PickGreatest` | piltover/app/handlers/phone.py:104-106 | Sorting by numbers and taking the last gives the greatest version, of which there is only one |
| `CallHandshake.MergeProtocols` | piltover/app/handlers/phone.py:97-137 | Merging intersects the layers, fails when none is left, joins the flags, and leaves the common versions or, at confirmation, the greatest of them |

## Left out

- Text of the emitted code, imports, files, placeholders and write hooks of the generator: only what the code means is modelled.
- A shared-bit check for downgraded objects: the code has none (a note at `tools/tl_gen.py:922` says so), and `LayerWrite.WriteFollowsHistory` states what follows from that.
- Vectors of vectors: the generator cannot emit them.
- Number vectors come back as arrays in Python; the model keeps their elements only.
- Upload.Uploading.FinalizeUploadAs: says nothing about what is left when a part file is missing, because the original raises half-way.
- CallHandshake.EveryRunIsSound: user and access-hash checks are not modelled.
- ContextFields.AnalysisIsExact: for constructors with a cycle in their reach it states that the list is sound and in order, not when it is complete; that depends on what has been asked before, which `ContextFields.FieldIsListedExactly` takes into account.
- NestedLayers.NestedKnownExactly: takes what converters give as part of the object; hand-written subclasses with a `write` of their own, write hooks and placeholders are not modelled.
- Broker.BaseMessageBroker.ProcessMessageToUsers: the set of sessions is gone through in any order, and failures inside one delivery are not modelled.
- BrokerRun.NoOldIdentity: covers user and authorization ids only; the key, channel and push indexes are not kept in step with the session by the code.
- The unencrypted queue: its messages only take ids; their writes are not modelled.
- The step in which a finalized session's waiting tasks time out: they are no longer woken, which `Rpc.MarkWakes` excludes.
- Encryption, salts, sockets, task queues and database queries behind the handlers.
- Channel differences, sign-in failures and shadow bans: they would add easy members beside their modelled siblings.
- Session hand-over between two live clients, group calls, and all other handlers of the server.
