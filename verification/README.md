# An AMQP 0-9-1 stream parser, verified

A Dafny model of the AMQP stack in `mq/amqpparser/amqp`: the parser that is handed captured TCP
payloads, cuts them into frames, rebuilds the messages of every channel and hands deliveries to
consumers. `dafny verify dfyconfig.toml` checks all of it.

## How it is organised

Each part has a specification made of functions, theorems about those functions, and, where the Go
code works by changing state, classes and methods that are proved to do what the functions say.

| part | specification | theorems | imperative form |
|---|---|---|---|
| fields, tables, arrays | `FieldValues`, `FieldCodec`, `Streams`, `Bytes` | `FieldRoundTrip`, `FieldClosure`, `FieldFormat`, `Containment`, `ArrayEnds` | `Readers` (a cursor with stacked limits), `Writers` |
| methods, content headers, frames | `Methods`, `Headers`, `Frames`, `FrameValues` | in the same modules, `HeaderRoundTrip`, `FrameClosure`, `FrameFormat`, `MethodFormat`, `WireFormat` | `FrameReaders`, `FrameWriters` |
| reassembly of messages | `Reassembly` | in the same module, `TypedMessages`, `ContentFormat` | `Channels` (bodies in shared arrays) |
| connections and packets | `Demultiplexing`, `EndToEnd`, `Sessions` | in the same modules, `Truncation`, `Panics` | `Connections`, `Parsers` |
| publisher confirms | `Resequencing` | in the same module, `Promptness`, `Acknowledgements`, `AcknowledgementFormat` | `PublisherConfirms` |
| consumers | `Consumers`, a transition system | in the same module, `SharedOutputs`, `Dispatching`, `DispatchFormat`, `Overtaking`, `Renewal`, `Consumption` | the steps of the goroutines |

The main results:

- **End to end** (`EndToEnd.MessagesArrive`, `Sessions.MessagesArriveInPackets`): any publications, any
  chunking of bodies, any interleaving of channels, any cut into packets between frames and any
  interleaving of connections: every channel dispatches exactly its own messages, in order and whole.
  With `Dispatching.DeliveriesReachTheirConsumers`, deliveries go on to their consumers, none lost and
  in order at each consumer channel, through any scheduling of the buffer goroutines; in one theorem,
  `Consumption.PacketsReachConsumers`. The order in time depends on the messages alone
  (`Renewal.OrderDependsOnTheMessages`).
- **Cut packets** (`Truncation.CutsAreHarmlessExactlyBetweenFrames`): a stream cut into packets is read as
  it was written if and only if every cut falls between two frames.
- **The codec**: `FieldRoundTrip.FieldRoundTrips` for all nested values and map orders,
  `FieldClosure.RoundTripsExactlyWhenFits` for when it holds, and `FieldClosure.DecodedFieldReencodes`
  for what is decoded from arbitrary octets; `ArrayEnds.ArraysEndAtTheFirstEof` for where arrays end, and
  `Panics.OnlyTheseOctetsPanic` for what can panic.
- **The octets themselves** (`FieldFormat`, `FrameFormat`, `MethodFormat`, `ContentFormat`,
  `AcknowledgementFormat`, `DispatchFormat`): what reader and writer agree on is also what AMQP 0-9-1 lays
  down, spelled out in literal octets and method names, apart from the tables that the two share.
- **Reassembly, exactly** (`Reassembly.ContentIsDispatchedExactly`), and no later frame touches the
  octets of a dispatched body (`Channels.Channel.Receive`).
- **Confirms** are emitted contiguously and independently of their order, and each listener sees exactly
  what is emitted between its registration and its close (`Resequencing.EmissionIsContiguous`,
  `Resequencing.OrderDoesNotMatter`, `Resequencing.ClosedListenersSawTheirShare`).
- **Consumers**: safety over all interleavings, conservation and order of deliveries, and a shutdown
  that ends (`Consumers.OnlyASecondClosePanics`, `Consumers.BuffersConserve`, `Consumers.ShutdownIsBounded`);
  and exactly when a send may block for ever (`Consumers.SendBlocksForeverExactly`) and when a shared consumer
  channel may panic (`SharedOutputs.PanicsExactlyOnSharedOutputs`).

## Conventions

- A *plan* (`FieldValues.Plan`, `Entries`) is a value together with the order in which each of its maps is
  ranged over. Quantifying over plans is quantifying over values and over all map orders. The writing
  methods choose the order arbitrarily and return the plan they followed as a ghost.
- `Canon` is what a value is read back as: a Go `int` becomes the int32 of its low 32 bits, a time loses
  its nanoseconds, everything else is itself.
- `Read<T>` is `Got(value, used)` or `Failed(error, used)`; EOF, UnexpectedEOF and the other errors are
  different outcomes, because EOF ends arrays and the parse loop and the others do not.
- A panic is an outcome: a negative byte-array length (`NegativeLength`) and a heartbeat on a channel
  other than 0.
- Method arguments are positional, by `Methods.Schema`, which lists all 62 methods; consecutive bit
  arguments share one octet. The conditionals over the fourteen properties are a loop over their places.
- A consumer registry has one holder of the lock at a time; a buffer is known by its index.

## Where the code departs from its documentation or from AMQP 0-9-1

The model follows the code.

- A heartbeat on a channel other than 0 panics (`Demultiplexing.PanicsExactlyOnStrayHeartbeats`,
  `Panics.StrayHeartbeatPanics`); so does a byte array with a negative length (`Panics.BlobPanicsExactly`,
  `Panics.NegativeLengthReachesParse`). Nothing else does (`Panics.OnlyTheseOctetsPanic`).
- A table whose section is longer than 2^31-1 octets is read as empty, without an error, and its section is
  then read as something else (`Containment.LongerTablesAreLost`). Long
  strings likewise (`FieldClosure.StringsRoundTripExactlyWhenShort`).
- Short strings and table keys are cut to their length modulo 256 (`FieldRoundTrip.ShortstrInverts`), so that
  a key of more than 255 octets does not survive (`FieldClosure.RoundTripsExactlyWhenFits`).
- Method and header payloads are read without regard to the frame's size; only a body is bounded by it
  (`FrameClosure.SizeMattersExactlyToBodies`).
- The property `reserved1` is read but never written (`HeaderRoundTrip.ReservedIsReadNotWritten`).
- Any EOF from within an element ends an array, also one from a table nested in it, and what is left of the
  array is dropped (`ArrayEnds.ArraysEndAtTheFirstEof`, `ArrayEnds.ElementsBehindACutAreLost`).
- `Multiple` overrules the verdicts of stashed confirmations (`Resequencing.MultipleConfirmsAll`,
  `Resequencing.MultipleKeepsVerdictsExactly`), and does not end for the tag 2^64-1 (`Resequencing.MultipleEndsExactlyBelowTheLimit`).
- A confirmation that comes before its publishing can stay stashed after it
  (`Resequencing.EarlyConfirmationsAreKeptBack`; exactly when, `Promptness.LongestRunIsEmittedExactly`).
- A body may overshoot its declared size; it is dispatched whole (`Reassembly.CompletionIsDispatched`).
- A consumer added after `close` can leave a `send` blocked for ever, and only then
  (`Consumers.SendBlocksForeverExactly`, `Consumers.SendAfterCloseBlocksForever`).
- A consumer channel given to `add` twice can make a buffer panic, and nothing else but a second close can
  (`SharedOutputs.PanicsExactlyOnSharedOutputs`, `SharedOutputs.OneOutputForTwo`).
- A renewed consumer may overtake what is still queued for the cancelled one
  (`Renewal.OrderDependsOnTheMessages`, `Overtaking.RenewedConsumerMayOvertake`).
- Nothing is kept of a frame whose packet ends before it does, and its remainder is read as if a frame began
  there, which can lose whole frames behind it (`Truncation.StraddlingFrameIsNotRead`,
  `Truncation.CutFramesTakeOthersWithThem`).
- A connection is known by its client's port alone; packets of two hosts with the same port share one
  (`Sessions.EndpointsAreThoseOfTheFirstPacket`).

## Model

| member | source | states |
|---|---|---|
| `FieldCodec.ReadField` | mq/amqpparser/amqp/read.go:172-260 | reading a field from any octets ends, stays within its section, and consumes at least one octet when it succeeds |
| `FieldCodec.ReadShortstr` | mq/amqpparser/amqp/read.go:93-104 | a short string has at most 255 octets and takes one more than its length |
| `FieldCodec.ReadLongstr` | mq/amqpparser/amqp/read.go:106-122 | a long string has at most 2^31-1 octets and takes four more than its length (a longer one is read as empty) |
| `FieldRoundTrip.ShortstrInverts` | mq/amqpparser/amqp/write.go:239-253 | readShortstr reads what writeShortstr wrote: the first (length mod 256) octets of the string, and leaves the suffix |
| `FieldRoundTrip.LongstrInverts` | mq/amqpparser/amqp/write.go:255-269 | readLongstr inverts writeLongstr up to 2^31-1 octets and leaves the suffix |
| `FieldRoundTrip.LeafInverts` | mq/amqpparser/amqp/write.go:291-392 | every scalar field is read back as its canonical value: a Go int as the int32 of its low 32 bits, a time without its nanoseconds |
| `FieldRoundTrip.FieldRoundTrips` | mq/amqpparser/amqp/read.go:172-260 | for every nested value and every map order at every level, readField on writeField's output gives the canonical value and leaves exactly the suffix |
| `FieldRoundTrip.ElemsRoundTrip` | mq/amqpparser/amqp/read.go:300-327 | the elements of an array come back in order, ended by the EOF of the section |
| `FieldRoundTrip.TableRoundTrips` | mq/amqpparser/amqp/read.go:270-298 | readTable on writeTable's output followed by any suffix gives the same map, in canonical values, and leaves exactly the suffix |
| `FieldRoundTrip.EntriesRoundTrip` | mq/amqpparser/amqp/write.go:403-416 | the entries of a table, in whatever order they were written, make up the same map |
| `FieldClosure.DecodedFieldReencodes` | mq/amqpparser/amqp/read.go:172-260 | whatever field is decoded from arbitrary octets, the encoder accepts it; it has a plan, and every plan of it, in any map order, fits, is written in no more octets than were consumed, and is read back as the same value |
| `FieldClosure.DecodedTableReencodes` | mq/amqpparser/amqp/read.go:270-298 | the same for tables, with duplicate keys merged and nested arrays cut short by an EOF |
| `FieldClosure.RoundTripsExactlyWhenFits` | mq/amqpparser/amqp/write.go:287-401 | a value of this form reads back as its canonical value with nothing left over exactly when its keys have at most 255 octets and its sections fit their lengths |
| `FieldClosure.CanonWritesAlike` | mq/amqpparser/amqp/write.go:311-319 | replacing a value by its canonical form does not change what is written |
| `FieldClosure.FieldIsSupported` | mq/amqpparser/amqp/read.go:172-260 | validateField accepts whatever readField reads, at every depth |
| `FieldClosure.StringsRoundTripExactlyWhenShort` | mq/amqpparser/amqp/write.go:239-269 | a short string is read back exactly up to 255 octets, a long one exactly up to 2^31-1 |
| `FieldValues.CanonPlanDenotesCanon` | mq/amqpparser/amqp/write.go:311-314 | canonical form commutes with choosing a map order |
| `FieldValues.SomePlan` | mq/amqpparser/amqp/types.go:227-250 | every value that validateField accepts has a plan, so that quantifying over plans misses no value |
| `Containment.ArraysStayInside` | mq/amqpparser/amqp/read.go:300-327 | an array depends on, and consumes, nothing behind its declared length, however it is nested |
| `Containment.TablesStayInside` | mq/amqpparser/amqp/read.go:270-298 | a table depends on nothing behind its declared length, consumes exactly its section, and fails exactly when its section does |
| `Containment.LongerTablesAreLost` | mq/amqpparser/amqp/read.go:112-115 | a table of more than 2^31-1 octets is read as empty with no error, and its section is left in the stream |
| `Readers.Reader.Field` | mq/amqpparser/amqp/read.go:172-260 | the cursor's readField has the value, the error and the position of the reading function, within the limit in force |
| `Readers.Reader.Tagged` | mq/amqpparser/amqp/read.go:178-259 | the switch on the tag octet, likewise |
| `Readers.Reader.Array` | mq/amqpparser/amqp/read.go:300-327 | readArray under a LimitedReader: the limit is lowered, and restored on every way out |
| `Readers.Reader.Elems` | mq/amqpparser/amqp/read.go:316-326 | the appending loop of readArray collects exactly the elements up to the first EOF, or fails as the specification does |
| `Readers.Reader.Table` | mq/amqpparser/amqp/read.go:270-298 | readTable, with its section in a buffer of its own |
| `Readers.Reader.Entries` | mq/amqpparser/amqp/read.go:282-295 | the loop of readTable: later entries overwrite earlier ones under the same key |
| `Readers.Reader.Full` | mq/amqpparser/amqp/read.go:49-51 | io.ReadFull: all octets, or EOF when there are none, or UnexpectedEOF when there are too few |
| `Readers.Reader.Longstr` | mq/amqpparser/amqp/read.go:106-122 | readLongstr, the case above the int32 range included |
| `Readers.Reader.Blob` | mq/amqpparser/amqp/read.go:243-253 | the byte-array case, in which a negative length is a failure of its own |
| `FrameReaders.UnpackBits` | mq/amqpparser/amqp/spec091.go:1222-1255 | testing bits 0, 1, 2... of the flag octet yields the flags that packing put there |
| `FrameReaders.ReadArguments` | mq/amqpparser/amqp/spec091.go:2126-2154 | the argument loop reads exactly the arguments of the schema, in order, or fails where the specification does |
| `FrameReaders.ReadMethodPayload` | mq/amqpparser/amqp/spec091.go:2741-3306 | parseMethodFrame: selection of the method and its arguments |
| `FrameReaders.ReadPropertyList` | mq/amqpparser/amqp/read.go:357-426 | the sequence of optional properties, taken or skipped by their mask bits |
| `FrameReaders.ReadHeaderPayload` | mq/amqpparser/amqp/read.go:334-429 | parseHeaderFrame |
| `FrameReaders.ReadPayloadOf` | mq/amqpparser/amqp/read.go:57-80 | the switch on the frame type; the size bounds only a body and forbids only a heartbeat payload |
| `FrameReaders.ReadOneFrame` | mq/amqpparser/amqp/read.go:46-91 | ReadFrame: seven octets, the payload, and the frame end |
| `Writers.PutUint` | mq/amqpparser/amqp/write.go:306-329 | PutUint16, 32 and 64 fill their part of the scratch array big-endian, modulo the width, and leave the rest of it alone |
| `Writers.WriteScalar` | mq/amqpparser/amqp/write.go:291-346 | each scalar case appends exactly the encoding of the value |
| `Writers.WriteField` | mq/amqpparser/amqp/write.go:287-401 | writeField succeeds exactly on the values that validateField accepts, and then appends the encoding of the value for the map orders it met |
| `Writers.WriteElems` | mq/amqpparser/amqp/write.go:347-366 | the loop over array elements, likewise |
| `Writers.WriteTable` | mq/amqpparser/amqp/write.go:403-416 | the loop over a map, in an arbitrary order, succeeds exactly when every value is supported, and then appends the encoding of the entries in the order they came |
| `FrameWriters.PackBits` | mq/amqpparser/amqp/spec091.go:1180-1220 | setting one bit after the other makes the octet that holds exactly those flags |
| `FrameWriters.BuildMask` | mq/amqpparser/amqp/write.go:87-127 | the first pass over the properties: the mask has the bit of a property exactly when that property is not blank |
| `FrameWriters.WritePropertyList` | mq/amqpparser/amqp/write.go:133-197 | the second pass appends exactly the properties of the mask, and fails exactly on an unsupported header table |
| `FrameWriters.WriteHeaderPayload` | mq/amqpparser/amqp/write.go:68-197 | the payload of a header frame |
| `FrameWriters.WriteMethodPayload` | mq/amqpparser/amqp/write.go:37-49 | the payload of a method frame |
| `FrameWriters.WriteFramed` | mq/amqpparser/amqp/write.go:210-237 | writeFrame: type, channel and size octets, payload, frame end |
| `FrameWriters.WriteFrame` | mq/amqpparser/amqp/write.go:18-28 | a frame is written exactly when every value in it is supported; otherwise the output stream is untouched |
| `Methods.SelectionInvertsId` | mq/amqpparser/amqp/spec091.go:2754-3302 | parseMethodFrame selects a method if and only if it is given the numbers that its id() returns, over all pairs of numbers and all 62 methods |
| `Methods.IdsAreDistinct` | mq/amqpparser/amqp/spec091.go:1143-1145 | no two methods share an id |
| `Methods.PackingInverts` | mq/amqpparser/amqp/spec091.go:1180-1255 | unpacking as many bits as were packed gives the flags back |
| `Methods.ArgRoundTrips` | mq/amqpparser/amqp/spec091.go:2097-2154 | every kind of argument reads back |
| `Methods.ArgsRoundTrip` | mq/amqpparser/amqp/spec091.go:2097-2154 | a method's read inverts its write, for any list of argument kinds |
| `Methods.MethodRoundTrips` | mq/amqpparser/amqp/spec091.go:2741-3306 | parseMethodFrame inverts methodFrame.write on every method, whatever follows |
| `HeaderRoundTrip.MaskInverts` | mq/amqpparser/amqp/types.go:121-136 | hasProperty finds a property in the written mask exactly when the property was present |
| `HeaderRoundTrip.PropertiesRoundTrip` | mq/amqpparser/amqp/read.go:357-426 | reading from any place of the property list on gives the rest of the properties back |
| `HeaderRoundTrip.HeaderRoundTrips` | mq/amqpparser/amqp/read.go:334-429 | parseHeaderFrame inverts headerFrame.write over all presence combinations and unbounded contents, absent and blank being the same |
| `HeaderRoundTrip.ReservedIsReadNotWritten` | mq/amqpparser/amqp/read.go:422-426 | reserved1 is read where its flag is set; the writer never sets it, and reads back nothing for it |
| `Frames.ReadFrame` | mq/amqpparser/amqp/read.go:46-91 | a frame costs at least eight octets, and any read but an EOF consumes at least one: the Parse loop makes progress |
| `Frames.FrameRoundTrips` | mq/amqpparser/amqp/read.go:46-91 | ReadFrame on a frame's encoding plus any suffix returns that frame and leaves the suffix |
| `Frames.BodyRoundTripsExactlyWhenItFits` | mq/amqpparser/amqp/write.go:206-237 | a body frame reads back exactly when its length fits the 32-bit size field |
| `Frames.StreamRoundTrips` | mq/amqpparser/amqp/parser.go:63-73 | the read loop on concatenated frames and any further octets yields exactly those frames, then goes on as it would have |
| `Frames.StreamsAreUnambiguous` | mq/amqpparser/amqp/write.go:210-237 | two lists of frames written to the same octets are the same but for what reading back identifies |
| `Frames.FramesAreBounded` | mq/amqpparser/amqp/parser.go:63-73 | a Parse over n octets demultiplexes at most n/8 frames |
| `FrameValues.ReadBackIsCanon` | mq/amqpparser/amqp/write.go:403-416 | what a peer reads depends on the frame's value only, on no map order |
| `FrameValues.WrittenIsReadAsCanon` | mq/amqpparser/amqp/write.go:18-28 | a frame written with any map orders is read as the canonical form of its value |
| `Reassembly.Step` | mq/amqpparser/amqp/channel.go:170-247 | the invariant: awaiting a header means a pending message and an empty body, awaiting content means a header and a strictly shorter body; and what was dispatched stays dispatched |
| `Reassembly.ContentIsDispatchedExactly` | mq/amqpparser/amqp/channel.go:170-247 | a content message is dispatched at frame i if and only if a contiguous block of content method, header and bodies ends at i, whose total first reaches the declared size there; and it is that message |
| `Reassembly.CompletionIsDispatched` | mq/amqpparser/amqp/channel.go:227-244 | from any state, such a block is dispatched whole where it completes, overshoot included |
| `Reassembly.BareMethodIsDispatched` | mq/amqpparser/amqp/channel.go:170-183 | from any state, a method without content is dispatched at its own frame |
| `Reassembly.NothingElseIsDispatched` | mq/amqpparser/amqp/channel.go:184-191 | no other frame makes the channel dispatch anything |
| `Reassembly.WhereItStands` | mq/amqpparser/amqp/channel.go:165-168 | which state the machine is in after any frames, in terms of those frames alone |
| `Reassembly.LackingIsCollected` | mq/amqpparser/amqp/channel.go:221-247 | while a message lacks octets the machine holds its method, its header and exactly the octets so far |
| `Reassembly.LogIsWhatWasDispatched` | mq/amqpparser/amqp/channel.go:79-79 | the log is the concatenation of what the single frames dispatched |
| `Channels.Channel.Receive` | mq/amqpparser/amqp/channel.go:170-247 | the channel object does what the state machine does, its bodies being slices of shared arrays: no later frame changes the octets of a body already dispatched; a heartbeat panics and changes nothing |
| `Channels.Channel.ReceiveMethod` | mq/amqpparser/amqp/channel.go:170-192 | recvMethod on the object |
| `Channels.Channel.ReceiveHeader` | mq/amqpparser/amqp/channel.go:194-217 | recvHeader on the object |
| `Channels.Channel.ReceiveContent` | mq/amqpparser/amqp/channel.go:221-247 | recvContent on the object: append, compare, complete |
| `Channels.Channel.Append` | mq/amqpparser/amqp/channel.go:230-233 | appending writes into the body's own array or a new one, never into one that was dispatched |
| `Demultiplexing.Demux` | mq/amqpparser/amqp/connection.go:32-91 | one frame keeps every channel's invariant |
| `Demultiplexing.PanicsExactlyOnStrayHeartbeats` | mq/amqpparser/amqp/connection.go:65-91 | a run of frames panics if and only if some channel other than 0 is sent a heartbeat |
| `Demultiplexing.ChannelsAreIsolated` | mq/amqpparser/amqp/connection.go:65-91 | each channel's final state and log equal a run on that channel's frames alone, and exactly the channels addressed come into being |
| `Demultiplexing.ChannelZeroIsApart` | mq/amqpparser/amqp/connection.go:32-63 | no frame gives channel 0 a state or changes it |
| `Demultiplexing.FramesOfDifferentChannelsCommute` | mq/amqpparser/amqp/connection.go:32-91 | two adjacent frames of different channels may be swapped |
| `Connections.Connection.Demux` | mq/amqpparser/amqp/connection.go:32-91 | demux on the object: a channel is made on first use, and the other channels' objects are not touched |
| `Connections.Connection.OpenChannel` | mq/amqpparser/amqp/connection.go:84-91 | dispatchClosed puts a new channel in its initial state under the number, and keeps existing ones |
| `Connections.Connection.Deliver` | mq/amqpparser/amqp/connection.go:65-76 | the frame is received by its own channel; every other keeps its state |
| `Connections.Connection.Parse` | mq/amqpparser/amqp/connection.go:94-108 | the loop demultiplexes every frame that can be read, passes over other errors, and ends at an EOF or a panic |
| `Connections.ParsedNext` | mq/amqpparser/amqp/connection.go:97-106 | one turn of the loop |
| `Parsers.Parser.GetConnection` | mq/amqpparser/amqp/parser.go:49-57 | a connection is found by the client's port, or made with the given endpoints |
| `Parsers.Parser.Parse` | mq/amqpparser/amqp/parser.go:59-74 | one packet changes the connection of its client port as parsing its data does, and no other |
| `Sessions.SessionsAreIsolated` | mq/amqpparser/amqp/parser.go:49-74 | however packets of different ports interleave, each connection's channels are what its own packets make of them in turn |
| `Sessions.CrashesExactlyWhenAPortDoes` | mq/amqpparser/amqp/parser.go:59-74 | the parser panics if and only if the packets of some one port would make it |
| `Sessions.EndpointsAreThoseOfTheFirstPacket` | mq/amqpparser/amqp/parser.go:49-57 | a connection keeps the hosts of the packet that opened it, whatever hosts later packets with that port name |
| `Sessions.MessagesArriveInPackets` | mq/amqpparser/amqp/parser.go:59-74 | packets of any number of connections, in any order that keeps each connection's own: where what is read of them are the frames of publications, every channel of every connection dispatches exactly its own messages in order |
| `Sessions.PacketsStreamTheirFrames` | mq/amqpparser/amqp/parser.go:59-74 | packets of whole frames, each perhaps followed by the beginning of one more, meet what the end-to-end theorem supposes |
| `EndToEnd.PacketsSplitAtFrames` | mq/amqpparser/amqp/parser.go:59-74 | parsing whole frames and then the rest equals parsing the concatenation, even in the middle of a content message |
| `EndToEnd.PacketsMakeOneStream` | mq/amqpparser/amqp/parser.go:49-74 | any number of packets cut between frames parse as one stream |
| `EndToEnd.PublicationIsDelivered` | mq/amqpparser/amqp/channel.go:170-247 | resynchronisation: in any state, the frames of one publication make the channel dispatch exactly that message and leave it idle |
| `EndToEnd.ChunksComplete` | mq/amqpparser/amqp/channel.go:221-247 | any chunking of a body, empty chunks included, completes it with the concatenated octets |
| `EndToEnd.PublicationsAreDelivered` | mq/amqpparser/amqp/channel.go:170-247 | a sequence of publications is dispatched in order, each with its own body |
| `EndToEnd.MessagesArrive` | mq/amqpparser/amqp/parser.go:59-74 | end to end: any publications on any channels, any chunking and any interleaving that keeps each channel's order, written and then parsed on a new connection, are dispatched exactly, in order and whole |
| `EndToEnd.ProjectionOfReadBack` | mq/amqpparser/amqp/connection.go:32-38 | reading back and picking out one channel commute |
| `EndToEnd.SomeInterleaving` | mq/amqpparser/amqp/connection.go:32-38 | any publications on any channels can be interleaved as the end-to-end theorem supposes: one channel after the other will do |
| `EndToEnd.PacketsYieldTheirFrames` | mq/amqpparser/amqp/parser.go:59-74 | for packets with any data at all, parsing them in turn demultiplexes exactly the frames that each of them yields on its own, up to a panic |
| `EndToEnd.ReadFramesAreDispatched` | mq/amqpparser/amqp/connection.go:32-91 | frames that interleave publications, once read, are dispatched as exactly those messages |
| `TypedMessages.MethodIsTyped` | mq/amqpparser/amqp/spec091.go:2741-3306 | every decoded method has the arguments that its schema declares, within their widths |
| `TypedMessages.DispatchedMessagesAreSound` | mq/amqpparser/amqp/channel.go:170-247 | whatever octets are parsed, every dispatched message is well typed and carries content exactly when its method does |
| `Dispatching.DeliveriesReachTheirConsumers` | mq/amqpparser/amqp/channel.go:134-155 | through every interleaving with the buffers, cancels and renewed consumers included, what a tag's buffers received, one after the other, then the delivery in hand, then those to come, are its deliveries in order; drained, each has sent on its share in order |
| `Dispatching.DispatchNeverBlocks` | mq/amqpparser/amqp/channel.go:134-155 | dispatch never waits for a reader of the outputs: while anything is to be dispatched, a step is enabled that emits nothing |
| `Dispatching.DispatchAdvances` | mq/amqpparser/amqp/channel.go:79-163 | each such step uses up one of a bounded number, and no step of a buffer adds any |
| `Acknowledgements.AcknowledgementsAreResequenced` | mq/amqpparser/amqp/channel.go:116-132 | in confirm mode, among any other messages and in any mix with publishings, single acks and nacks of what was published make the confirms emit the longest run of acknowledged tags with their own verdicts and stash the rest |
| `Acknowledgements.AcknowledgementOrderDoesNotMatter` | mq/amqpparser/amqp/channel.go:116-132 | the same acknowledgements in another order make the same emissions |
| `Acknowledgements.NothingIsConfirmedUnasked` | mq/amqpparser/amqp/channel.go:116-132 | out of confirm mode, whatever is acknowledged, nothing is emitted or stashed |
| `Resequencing.EmissionIsContiguous` | mq/amqpparser/amqp/confirms.go:23-94 | under any mix of operations, emitted tags are 1, 2, ..., expecting-1, each open listener has exactly what was emitted since it registered, and each closed one exactly what was emitted between its registration and its close |
| `Resequencing.MultipleEndsExactlyBelowTheLimit` | mq/amqpparser/amqp/confirms.go:78-80 | from any state, the rounds of confirm in the loop of Multiple get past its tag if and only if that is below 2^64-1 |
| `Resequencing.VerdictsAreKept` | mq/amqpparser/amqp/confirms.go:41-71 | with each tag confirmed once, every emitted or stashed confirmation has its own verdict, even when it came before its publishing |
| `Resequencing.LongestRunIsEmitted` | mq/amqpparser/amqp/confirms.go:50-71 | with each tag published before it is confirmed, exactly the longest confirmed run 1..k is emitted and the others are stashed |
| `Resequencing.OrderDoesNotMatter` | mq/amqpparser/amqp/confirms.go:50-71 | the same confirmations in any two orders lead to the same counter, stash and emissions |
| `Resequencing.EarlyConfirmationsAreKeptBack` | mq/amqpparser/amqp/confirms.go:31-59 | confirmed before publishing, tags 2 and 1 leave 2 stashed although both are confirmed and published |
| `Resequencing.OpenListenersSeeTheRest` | mq/amqpparser/amqp/confirms.go:23-47 | a listener that registers sees, until someone closes, exactly what is emitted from then on |
| `Resequencing.ClosedListenersSawTheirShare` | mq/amqpparser/amqp/confirms.go:84-94 | a listener that was closed saw exactly what was emitted between its registration and the close, whatever is done afterwards |
| `Resequencing.CloseFinishesAll` | mq/amqpparser/amqp/confirms.go:84-94 | Close finishes exactly the open listeners, with all they were due, and changes nothing else |
| `Resequencing.FinishedListenersAreLeftAlone` | mq/amqpparser/amqp/confirms.go:41-94 | no later operation changes a finished listener |
| `Resequencing.MultipleConfirmsAll` | mq/amqpparser/amqp/confirms.go:73-82 | all of Multiple: its own verdict for every expected tag up to its own, stashed or not, then the stashed confirmations that follow on with their own verdicts, as far as they go and no further than what was published |
| `Resequencing.ResequenceDrains` | mq/amqpparser/amqp/confirms.go:49-59 | resequence emits exactly the stashed run from the expected tag on, bounded by what was published, and leaves the rest |
| `Resequencing.UpToIsTheFirstRoundPast` | mq/amqpparser/amqp/confirms.go:78-80 | the loop of Multiple ends with the first round that finds its tag passed |
| `Resequencing.MultipleKeepsVerdictsExactly` | mq/amqpparser/amqp/confirms.go:73-82 | Multiple keeps the stashed verdicts of the tags it covers if and only if they all are its own |
| `PublisherConfirms.Confirms.One` | mq/amqpparser/amqp/confirms.go:61-71 | One on the object |
| `PublisherConfirms.Confirms.Multiple` | mq/amqpparser/amqp/confirms.go:74-82 | Multiple on the object, its loop included, for every tag: it is endless exactly when no round of confirm gets past its tag |
| `PublisherConfirms.Confirms.Resequence` | mq/amqpparser/amqp/confirms.go:50-59 | the loop of resequence on the object |
| `PublisherConfirms.Confirms.Confirm` | mq/amqpparser/amqp/confirms.go:41-47 | confirm on the object: the stash, the wrapping counter and every listener |
| `PublisherConfirms.Confirms.Publish` | mq/amqpparser/amqp/confirms.go:31-37 | Publish counts, wraps at 2^64, and returns the count |
| `PublisherConfirms.Confirms.Listen` | mq/amqpparser/amqp/confirms.go:23-28 | a listener is told nothing of what came before |
| `PublisherConfirms.Confirms.Close` | mq/amqpparser/amqp/confirms.go:85-94 | Close finishes every listener and keeps the counters and the stash |
| `Consumers.StepKeeps` | mq/amqpparser/amqp/consumers.go:54-142 | every step of every goroutine keeps the invariant of the registry |
| `Consumers.RunKeeps` | mq/amqpparser/amqp/consumers.go:54-142 | so does every interleaving |
| `Consumers.OnlyASecondClosePanics` | mq/amqpparser/amqp/consumers.go:85-142 | in every reachable state in which no consumer channel was given to two adds, a step panics if and only if it is a second close: no send on a closed channel, no channel closed twice, no negative wait group |
| `Consumers.MappedInputsAreOwned` | mq/amqpparser/amqp/consumers.go:85-112 | every mapped input is open and owned by one buffer, live before any close; every open input is mapped; the wait group counts the buffers yet to run Done |
| `Consumers.BuffersConserve` | mq/amqpparser/amqp/consumers.go:54-82 | what a buffer sent, followed by its queue, is what it received; one that leaves before any close has sent everything before its output closes; shutdown leaves a prefix; a closed output was closed by a buffer that is gone |
| `Consumers.HistoryGrows` | mq/amqpparser/amqp/consumers.go:62-80 | a step appends at most one delivery to one buffer's history: the one being sent to it, or the head of its queue |
| `Consumers.SendIsReceivedWhileLive` | mq/amqpparser/amqp/consumers.go:132-142 | a blocked send can complete exactly when its buffer is live, as it is before any close |
| `Consumers.WaitingLightens` | mq/amqpparser/amqp/consumers.go:114-126 | while close waits, every other step uses up weight (queue length and what each buffer has still to notice) |
| `Consumers.WaitingBuffersCanMove` | mq/amqpparser/amqp/consumers.go:66-70 | while close waits, every buffer yet to run Done has an enabled step that needs no reader |
| `Consumers.ShutdownIsNeverStuck` | mq/amqpparser/amqp/consumers.go:114-126 | in every reachable state in which close waits, Wait returns or a buffer can move without a reader of its output |
| `Consumers.ShutdownIsBounded` | mq/amqpparser/amqp/consumers.go:114-126 | however the steps are scheduled, Wait returns before the weight is used up, or the program has panicked |
| `Consumers.ClosingAdvances` | mq/amqpparser/amqp/consumers.go:114-123 | the loop of close can always go on, and unmaps one input at each turn |
| `Consumers.SendAfterCloseBlocksForever` | mq/amqpparser/amqp/consumers.go:85-142 | the case occurs: close, then add |
| `Consumers.SendBlocksForeverExactly` | mq/amqpparser/amqp/consumers.go:85-142 | in every reachable state with the lock free, sends, cancels and buffer steps alone can end in a send that blocks for ever if and only if the registry has been closed and a consumer is mapped |
| `Consumers.BlockedForever` | mq/amqpparser/amqp/consumers.go:132-142 | a send to a buffer that has left its loop never ends and keeps the lock, whatever happens |
| `Consumers.WaitReturnsExactlyWhenAllAreDone` | mq/amqpparser/amqp/consumers.go:114-126 | Wait returns if and only if every buffer has run Done |
| `Consumers.SelectOffersExactly` | mq/amqpparser/amqp/consumers.go:64-80 | what a buffer with a queue can do, in every reachable state, case by case of its select |
| `Consumers.RangeOffersExactly` | mq/amqpparser/amqp/consumers.go:61-62 | and one without: receive, or leave when its input is closed |
| `WireFormat.FlagsOnTheWire` | mq/amqpparser/amqp/types.go:121-136 | the mask is the sum of the named flag constants of the properties that are not blank, reserved1 never among them |
| `WireFormat.AckOnTheWire` | mq/amqpparser/amqp/spec091.go:2323-2347 | every octet of a basic.ack frame: type, channel, size, class 60, method 80, tag, bit, frame end |
| `Truncation.CutFrameYieldsNothing` | mq/amqpparser/amqp/parser.go:63-73 | a frame cut anywhere before its last octet yields no frame and no panic, whatever it carries |
| `Truncation.FrameRunsOut` | mq/amqpparser/amqp/read.go:46-91 | ReadFrame on any proper beginning of a frame ends with EOF, or with UnexpectedEOF and nothing left |
| `Truncation.StraddlingFrameIsNotRead` | mq/amqpparser/amqp/parser.go:59-74 | of a frame that straddles two packets, the first packet is parsed as if it were not there, the second as if a stream began with its remainder |
| `Truncation.CutsAreHarmlessExactlyBetweenFrames` | mq/amqpparser/amqp/parser.go:59-74 | a stream cut into packets is read as the frames that were written if and only if every cut falls between two frames |
| `Truncation.CutFramesTakeOthersWithThem` | mq/amqpparser/amqp/parser.go:59-74 | a concrete cut: two tx.select frames cut after their first octet dispatch nothing, not even the second, which is whole; uncut, both are dispatched |
| `FrameClosure.FrameClosed` | mq/amqpparser/amqp/read.go:46-91 | whatever octets a frame is read from, it fits the writer's bounds, and they are no fewer than those it is written in |
| `FrameClosure.FrameRoundTripsExactlyWhenItFits` | mq/amqpparser/amqp/write.go:18-28 | a method, header, body or heartbeat frame is read back, with exactly the suffix left, if and only if its strings, tables and body fit their length fields |
| `FrameClosure.StreamRoundTripsExactlyWhenItFits` | mq/amqpparser/amqp/parser.go:63-73 | a stream of frames is read as exactly those frames if and only if each of them fits |
| `FrameClosure.SizeMattersExactlyToBodies` | mq/amqpparser/amqp/read.go:57-76 | whatever stands in its size field, a method or header frame is read back; a body or heartbeat frame if and only if the field holds the size of its payload |
| `Overtaking.RenewedConsumerMayOvertake` | mq/amqpparser/amqp/consumers.go:85-112 | it does occur: delivered, cancelled and delivered again, the second may leave while the first is queued |
| `Promptness.LongestRunIsEmittedExactly` | mq/amqpparser/amqp/confirms.go:31-71 | with each tag confirmed once, nothing is kept back if and only if at some confirmation the run 1..k was no longer than what was published, or there was none yet, and every confirmation since has lengthened it by one tag at most |
| `Promptness.OrderInTimeDoesNotMatter` | mq/amqpparser/amqp/confirms.go:50-71 | two orders of the same confirmations, one of them in time, emit the same if and only if the other is in time, too |
| `SharedOutputs.PanicsExactlyOnSharedOutputs` | mq/amqpparser/amqp/consumers.go:54-98 | in every reachable state with the lock free, some run that adds no one and closes nothing panics if and only if the calls of add so far have not each been given a consumer channel of its own |
| `SharedOutputs.OneOutputForTwo` | mq/amqpparser/amqp/consumers.go:54-98 | it occurs: one consumer channel given to two adds, for one tag or two |
| `SharedOutputs.Finish` | mq/amqpparser/amqp/consumers.go:54-82 | with the lock free, every buffer can be brought to its end without a close, unless a panic comes first |
| `Renewal.OrderDependsOnTheMessages` | mq/amqpparser/amqp/consumers.go:54-112 | a buffer can overtake an earlier one of its tag if and only if the messages renew the tag's consumer (a delivery, later a cancel, later still a delivery); if they do not, the tag's deliveries leave in order in every run; if its deliveries are distinct, only then |
| `Renewal.RenewsInPositions` | mq/amqpparser/amqp/channel.go:96-155 | what renewing means, in positions of the messages |
| `Renewal.FeedMany` | mq/amqpparser/amqp/channel.go:134-155 | any number of messages can be dispatched, each received at once, with no delivery sent on |
| `ArrayEnds.ArraysEndAtTheFirstEof` | mq/amqpparser/amqp/read.go:316-326 | an array is read as vs if and only if its section begins with whole fields of these values and the reading of what is left of it meets the end of the section |
| `ArrayEnds.NothingIsDroppedExactlyWhenFieldsFill` | mq/amqpparser/amqp/read.go:316-326 | what is left is dropped; nothing is exactly when the whole fields fill the section |
| `ArrayEnds.CutStringIsDropped` | mq/amqpparser/amqp/read.go:316-326 | a string cut right behind its length ends the array without an error |
| `ArrayEnds.ElementsBehindACutAreLost` | mq/amqpparser/amqp/read.go:270-327 | an EOF within a nested table ends the array, and a whole nil element behind that table is lost |
| `Panics.BlobPanicsExactly` | mq/amqpparser/amqp/read.go:243-253 | a byte array panics if and only if its length is there and begins with an octet of 128 or more |
| `Panics.HeartbeatsExactly` | mq/amqpparser/amqp/read.go:446-456 | which eight octets are read as a heartbeat on a channel other than 0 |
| `Panics.ParsingPanicsExactly` | mq/amqpparser/amqp/parser.go:63-73 | parsing panics if and only if a negative length is met or a frame read is a heartbeat on a channel other than 0 |
| `Panics.OnlyTheseOctetsPanic` | mq/amqpparser/amqp/parser.go:63-73 | parsing octets panics only if they hold a byte-array tag followed by an octet of 128 or more, or the octets of such a heartbeat |
| `Panics.CalmIsScanned` | mq/amqpparser/amqp/read.go:172-260 | octets in which no byte-array tag is followed by an octet of 128 or more are scanned to their end without a panic |
| `Panics.NegativeLengthReachesParse` | mq/amqpparser/amqp/read.go:243-253 | it occurs: a connection.start-ok with such a table makes Parse panic |
| `Panics.StrayHeartbeatPanics` | mq/amqpparser/amqp/channel.go:191-191 | so does any of those heartbeats where a frame begins |
| `Consumption.PublicationsReachConsumers` | mq/amqpparser/amqp/parser.go:59-74 | from octets to consumers: publications written and parsed are dispatched as exactly those messages, and in every run of the channel's buffers their deliveries are received and sent on in order, in time as well unless the consumer is renewed |
| `Consumption.PacketsReachConsumers` | mq/amqpparser/amqp/parser.go:59-74 | the same for packets of any number of connections |
| `FieldFormat.BoolsAreRead` | mq/amqpparser/amqp/read.go:179-184 | 't': any octet but 0 is true |
| `FieldFormat.OctetsAreRead` | mq/amqpparser/amqp/read.go:186-191 | 'b': the octet |
| `FieldFormat.ShortsAreRead` | mq/amqpparser/amqp/read.go:193-198 | 's': two octets, big-endian, in two's complement |
| `FieldFormat.IntsAreRead` | mq/amqpparser/amqp/read.go:200-205 | 'I': four octets, big-endian, in two's complement |
| `FieldFormat.LongsAreRead` | mq/amqpparser/amqp/read.go:207-212 | 'l': eight octets, big-endian, in two's complement |
| `FieldFormat.FloatsAreRead` | mq/amqpparser/amqp/read.go:214-219 | 'f': four octets as a bit pattern |
| `FieldFormat.DoublesAreRead` | mq/amqpparser/amqp/read.go:221-226 | 'd': eight octets as a bit pattern |
| `FieldFormat.DecimalsAreRead` | mq/amqpparser/amqp/read.go:124-132 | 'D': the scale, then four octets in two's complement |
| `FieldFormat.StringsAreRead` | mq/amqpparser/amqp/read.go:106-122 | 'S': exactly the declared octets, a failure if they are not there, and nothing for a length of 2^31 or more |
| `FieldFormat.TimesAreRead` | mq/amqpparser/amqp/read.go:148-154 | 'T': eight octets of seconds in two's complement |
| `FieldFormat.BlobsAreRead` | mq/amqpparser/amqp/read.go:243-253 | 'x': exactly the declared octets, a failure if they are not there, a panic for a length of 2^31 or more |
| `FieldFormat.NilsAreRead` | mq/amqpparser/amqp/read.go:255-256 | 'V': nil, and no more octets |
| `FieldFormat.ArraysAreRead` | mq/amqpparser/amqp/read.go:300-327 | 'A': the elements read from the declared octets, or from those that are left |
| `FieldFormat.TablesAreRead` | mq/amqpparser/amqp/read.go:270-298 | 'F': the entries read from exactly the declared octets; their error is the table's |
| `FieldFormat.OtherTagsAreErrors` | mq/amqpparser/amqp/read.go:259-259 | any other octet is a syntax error |
| `FieldFormat.TablesAreTheirEntries` | mq/amqpparser/amqp/read.go:282-297 | a section is read as a table if and only if it is nothing but keys and values; the table has the last value under each key |
| `FieldFormat.ScalarsAreWritten` | mq/amqpparser/amqp/write.go:291-398 | every octet that is written for a scalar, type by type |
| `FieldFormat.SectionsAreWritten` | mq/amqpparser/amqp/write.go:347-377 | arrays and tables: tag, size of the section, section |
| `FrameFormat.FramesAreWritten` | mq/amqpparser/amqp/write.go:210-237 | type 1, 2, 3 or 8, channel, size, payload, 206 |
| `FrameFormat.FramesAreRead` | mq/amqpparser/amqp/read.go:46-91 | whatever octets a frame is read from: the first is 1, 2, 3 or 8 as its type has it, the next two are its channel, the last is 206 |
| `FrameFormat.EndIs` | mq/amqpparser/amqp/read.go:82-88 | the octet 206 ends a frame, and no other does |
| `FrameFormat.BodiesAreRead` | mq/amqpparser/amqp/read.go:431-442 | exactly what type 3, a channel, a size and as many octets are read as, with and without a frame end |
| `FrameFormat.HeartbeatsAreRead` | mq/amqpparser/amqp/read.go:446-456 | exactly what type 8 is read as |
| `FrameFormat.PayloadsAreRead` | mq/amqpparser/amqp/read.go:57-80 | types 1 and 2 are a method and a content header; any type but 1, 2, 3 and 8 is an error after seven octets |
| `FrameFormat.HeadersAreWritten` | mq/amqpparser/amqp/write.go:72-197 | class, weight, body size, flags, and each property that is not blank, in their order |
| `FrameFormat.HeadersAreRead` | mq/amqpparser/amqp/read.go:339-355 | class, weight, body size and flags stand in their places, whatever octets a header is read from |
| `MethodFormat.MethodsOnTheWire` | mq/amqpparser/amqp/spec091.go:2741-3306 | for all 62 methods and all arguments: the octets written, method by method, and that these are read as that method, whatever follows |
| `MethodFormat.NumbersAreRead` | mq/amqpparser/amqp/spec091.go:2754-3302 | whatever octets a method is read from begin with its numbers; others are not read as any method |
| `MethodFormat.DeliverOnTheWire` | mq/amqpparser/amqp/spec091.go:2126-2154 | basic.deliver, argument by argument |
| `MethodFormat.PublishOnTheWire` | mq/amqpparser/amqp/spec091.go:1956-2008 | basic.publish, argument by argument |
| `MethodFormat.AckOnTheWire` | mq/amqpparser/amqp/spec091.go:2331-2363 | basic.ack, argument by argument |
| `MethodFormat.NackOnTheWire` | mq/amqpparser/amqp/spec091.go:2519-2556 | basic.nack, argument by argument |
| `MethodFormat.CancelOnTheWire` | mq/amqpparser/amqp/spec091.go:1867-1898 | basic.cancel, argument by argument |
| `ContentFormat.DispatchedContentIsByName` | mq/amqpparser/amqp/channel.go:172-178 | whatever octets are parsed, what is dispatched has content if and only if it is a publish, return, deliver or get-ok |
| `ContentFormat.NamedContentIsDispatched` | mq/amqpparser/amqp/channel.go:170-247 | from any state, a method frame with one of these names, a header, and bodies that first reach its size are dispatched whole |
| `ContentFormat.OthersAreDispatchedBare` | mq/amqpparser/amqp/channel.go:180-181 | from any state, a method frame with any other name is dispatched by itself |
| `AcknowledgementFormat.EmittedVerdictsAreTheirMethods` | mq/amqpparser/amqp/channel.go:116-132 | publishings answered one by one: a tag answered by basic.ack is emitted as an ack, one answered by basic.nack as a nack, or is stashed |
| `AcknowledgementFormat.MultipleAnswersConfirmAll` | mq/amqpparser/amqp/channel.go:116-132 | after any events, a multiple ack or nack of n emits every tag from the expected one to n with its own verdict |
| `AcknowledgementFormat.SingleAnswersAreTaken` | mq/amqpparser/amqp/channel.go:116-132 | after any events, a single ack or nack is emitted with its own verdict if its tag is expected, else emitted or stashed so; a late one is stashed |
| `DispatchFormat.DeliveriesAreSent` | mq/amqpparser/amqp/channel.go:134-152 | dispatching a basic.deliver sends it to its consumer's buffer, or adds one under its consumer tag first |
| `DispatchFormat.CancelsAreMade` | mq/amqpparser/amqp/channel.go:96-102 | dispatching a basic.cancel removes exactly its consumer |
| `DispatchFormat.OthersConcernNoConsumer` | mq/amqpparser/amqp/channel.go:79-163 | any other message leaves the consumers alone |
| `DispatchFormat.DeliveriesAreConsumed` | mq/amqpparser/amqp/channel.go:134-152 | once all is dispatched and drained, every basic.deliver has been sent on by a buffer of its consumer tag |
| `DispatchFormat.NothingElseIsReceived` | mq/amqpparser/amqp/consumers.go:132-142 | no buffer receives anything but deliveries of its own tag |

## Left out

- PublisherConfirms.Confirms.Multiple: on the tag 2^64-1 the loop does not end (`Resequencing.MultipleEndsExactlyBelowTheLimit`); the call then only says so, and what listeners are sent meanwhile is not stated.
- Resequencing.EmissionIsContiguous: confirmed tags are below 2^64-1, the last tag before the counter overflows.
- Resequencing.OrderDoesNotMatter: each tag is confirmed at most once and after it was published; `Promptness.OrderInTimeDoesNotMatter` says exactly when it matters otherwise.
- Acknowledgements.AcknowledgementsAreResequenced: the acknowledgements are single ones; mixes with `Multiple` are covered by contiguity only, since it overrules verdicts.
- Consumers.ShutdownIsBounded: the wait group of `close` returns; that every output is closed by then is not claimed, since `Done` runs before the output is closed.
- Dispatching.DeliveriesReachTheirConsumers: no one closes the registry meanwhile; the channels in the repository never do.
- Sessions.MessagesArriveInPackets: publications whose frames are not what is read of the packets, as when a cut falls within a frame; `Truncation.CutsAreHarmlessExactlyBetweenFrames` says exactly which cuts those are, `EndToEnd.PacketsYieldTheirFrames` what is dispatched all the same.
- Channels.Channel.Append: the capacity that growing a slice gives is arbitrary but sufficient, and the array is zeroed.
- The side effects of `dispatch` other than deliveries, cancels and acknowledgements: flow, return and cancel notifications, the answers it would send (`send` does nothing), and closing a channel (an empty function).
- Where `confirming` is set: nothing in the repository does, and `Acknowledgements` takes it as a parameter.
- The goroutine that forwards deliveries to the application, and the message type it makes (main.go, delivery.go, return.go).
- Failures of the underlying writer, flushing, the buffering of bufio, and allocation: a declared size is always allocatable.
- A method frame without a method, and the class and method numbers that a method frame keeps besides its method.
- Whether an empty table in method arguments is nil or empty.
- The meaning of floating-point numbers, which are bit patterns, and of time zones; a time is its Unix seconds and nanoseconds, or absent for the zero time of a header.
- Each registration of a confirms listener is a channel of its own, and a send on it is received at once.
- Locks of the confirms and of the connection: each operation is one step, as the mutexes make it.
- The heap of delivery tags, error texts, soft exceptions, consumer tag generation, `wait()`, printing, and everything outside `mq/amqpparser/amqp`.
