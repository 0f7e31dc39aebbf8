# MiddFS: a verified model

MiddFS is a star-shaped file system. A client that wants something of another client's files sends one
request packet to the server; the server relays it to the responder of the owning client, and the
response travels back the same way. This project models that path in Dafny, from the bytes of the wire
format to the end-to-end read of a remote file, and proves that it does what it is for.

`dafny verify dfyconfig.toml` checks everything.

## How it is built

- `Wire`, `Packet`, `Decode`: words, strings and blobs; the packets and the list of fields each
  structure is sent as; and a pure reference parser over positions in a byte string. 64-bit values are
  the two words they travel in. Strings have no NUL.
- `SelfDelimiting`, `Exactness`, `Streams`, `Codec`: the laws of the format. It may be decoded again on
  any prefix; encoding and decoding are inverse, with the exact condition; streams of packets may be cut
  anywhere.
- `Layout`: the bytes of every packet written out, with the numbers of all types, and what comes back
  member by member.
- `Serialize`, `Deserialize`, `Shortfall`: the serialisers as they are, writing into an array in place and
  adding up `used`, and the deserialisers filling a partly filled structure, proved against the two above;
  and the number a deserialiser returns when bytes are missing.
- `Retry`, `Buffer`: the growable byte queue and its grow-and-retry loop.
- `Requester`: the requesting client's send and receive loops.
- `Registry`, `PathSplit`: the sorted vector of clients, and the path splitter behind the server's root
  decision.
- `Owner`: what the owner's system makes of a request, and its request handler.
- `Relay`, `RelayInvariant`, `RelaySafety`, `RelayProgress`: `server_loop` with the handlers of either
  daemon, the server's relay or a client's responder, as a state machine over values; its invariant, and
  what holds over whole runs.
- `Turns`: what each turn comes to, case by case, down to the reply a requester is sent.
- `Descriptors`, `Announcements`, `Crashes`, `Leftover`: which descriptors are open and which are leaked;
  how clients come into the registry; exactly when a turn crashes; and why ends may send one packet only.
- `Server`: the loop as it runs, a class that updates an array of sockets in place. Every method is
  proved to take the corresponding step of the state machine, its assertions and dead branches included,
  and the loop as a whole to be a run of it, so that the theorems about runs are theorems about the loop.
- `Packing`: the in-place compaction of the socket table.
- `RemoteRead`: the requester's `client_rsrc_read`, and the read end to end.

In the state machine and in `Server` a socket's buffers are byte sequences, encoded with
`Packet.Encode` and decoded with `Decode.ParsePacket`. `Serialize.SerializePkt`,
`Buffer.Buffer.SerializePacket` and `Deserialize.DeserializePkt` show that the array code computes these.

## What is assumed of the environment

- A read moves between 1 and the bytes waiting, or fails, or finds the end; a write moves at least one
  byte of a non-empty queue, or fails; poll reports only events asked for, errors and hang-ups; accept
  and socket give a descriptor that is not open yet, or fail, and so may connect (`RelayInvariant.Fair`,
  `Relay.Requested`).
- An end sends at most one packet on a connection: a requester a request or a connect, a peer a response
  of a known type (`RelayInvariant.OnePacket`). It may stop in the middle. The clients' code keeps to
  this, and `Leftover.LeftoverIsTakenForTheResponse` shows what would happen otherwise.
- getpeername fails, or gives the address the connection came from. The bytes one end of a connection
  writes are those the other end reads (`RemoteRead.Crossed`).
- Allocation succeeds, except that the owner's `malloc` of a size that arrives as 2^63 or more fails
  (`Owner.OwnerRead`); and sizes do not wrap `size_t`.

## Where the code and its comments differ

The model follows the code.

- A serialiser that does not fit is documented to return the number of bytes required
  (`src/lib/middfs-serial.c:25-31`). Since strings are measured with `strnlen` up to the room left, it
  in general returns only a lower bound (`Wire.SerSizeRefinesEncoding`), and the number of bytes required
  exactly when every string ends within the room left for it (`Retry.TrueSize`). That is also when
  `buffer_serialize` loops "once or twice" (`src/lib/middfs-buf.c:187`) on a packet that does not fit
  (`Retry.OnceOrTwice`); otherwise it may loop once for every string character (`Retry.ConnectCalls`).
- A deserialiser that needs more is documented to return `nbytes + 1` (`src/lib/middfs-serial.c:37-39`);
  it returns some number greater than `nbytes`, such as `nbytes + 2` for a string
  (`Deserialize.DeserializeStr`). `Shortfall.UsedPacket` is the number for a whole packet, and
  `Shortfall.AsksForOneMore` says exactly when it is `nbytes + 1`.
- `inet_connect` does not close the socket it made when connect fails (`src/lib/middfs-util.c:50-52`), so
  each request for a registered client that does not accept connections leaks a descriptor
  (`Descriptors.LeakedExactly`); and it reaches a registered port of 2^16 or more at its low 16 bits
  (`Relay.PortReached`).
- `packet_recv` warns not to treat an interrupted read as an error (`src/client/middfs-client-pkt.c:64`)
  and ends on one as on any other failing read, returning 1 (`Requester.PacketRecv`).
- Size and offset are 64-bit members but are cast to `int32_t` when sent
  (`src/lib/middfs-serial.c:341`, `src/lib/middfs-serial.c:351`). `Codec.RoundTrip`, `Codec.Transparent`
  and `RemoteRead.ReadExact` say exactly what survives.
- The server decides "root" by looking at `mr_path` in a variable named `owner`
  (`src/server/middfs-server-handler.c:88`). `PathSplit.RootDecision` shows that this is right for every
  resource that comes from a path, and `PathSplit.RootTestMistaken` that it is not right for every resource.
- `middfs_socks_pack` is documented to return the number of open sockets (`src/lib/middfs-sock.c:100`)
  and counts only those that did not have to move (`Packing.CountExact`). Its only call is commented out.

## Model

| member | source | states |
|---|---|---|
| Codec.RoundTrip | src/lib/middfs-serial.c:420-502 | For every valid packet and whatever bytes follow it: decoding its encoding takes exactly the encoding and gives back the packet, restricted to what its type carries (written out in Layout.RequestComesBack) and with size and offset sign-extended from their low 32 bits, if and only if the length a WRITE announces survives that sign-extension |
| Layout.RequestComesBack | src/lib/middfs-serial.c:317-418 | The same member by member, with the numbers of the types: READLINK, TRUNCATE, READ and WRITE get back the sign-extended size, ACCESS, CHMOD, CREATE and OPEN the mode, SYMLINK and RENAME the second resource, READ and WRITE the sign-extended offset, WRITE the data, and every other type zeroes in their place |
| Layout.OthersComeBack | src/lib/middfs-serial.c:554-652 | Every valid packet but a request comes back as it is |
| Layout.RequestBytes | src/lib/middfs-serial.c:317-363 | The bytes of a request on the wire, written out with the numbers of the types and of the packet kind |
| Layout.ResponseBytes | src/lib/middfs-serial.c:554-590 | The bytes of each kind of response, with the numbers of the kinds |
| Layout.ConnectBytes | src/lib/middfs-serial.c:634-642 | The bytes of a CONNECT |
| Layout.BareBytes | src/lib/middfs-serial.c:420-453 | The bytes of a DISCONNECT or an unknown kind: no payload |
| Layout.UnknownExactly | src/lib/middfs-serial.c:592-632 | On arbitrary bytes: decoding finds an unknown response type if and only if twelve bytes are there, the kind is 4 and the type is 5 or more |
| Codec.Transparent | src/lib/middfs-serial.c:317-502 | For arbitrary bytes that decode, announced lengths not making sizes wrap: re-encoding the result always has the length of the bytes taken, and is those very bytes if and only if size and offset equal their own 32-bit sign-extension (so always for responses and connects) |
| Codec.HopIsIdentity | src/server/middfs-server-handler.c:80-109 | Decoding and re-encoding what a client encoded changes nothing on the wire, so a relay hop is the identity |
| SelfDelimiting.PacketCut | src/lib/middfs-serial.c:456-502 | On arbitrary bytes, announced lengths not making sizes wrap: every prefix that reaches the end of a decoded packet decodes to the same packet and length, every shorter prefix asks for more, and no prefix ever fails because it is short |
| Codec.StreamRoundTrip | src/lib/middfs-buf.c:210-227 | Any sequence of encoded packets laid end to end comes back as the same sequence, with nothing left over |
| Codec.PacketChunks | src/lib/middfs-buf.c:210-227 | However a byte stream is cut into reads, the packets taken off it and the bytes left over are those of the uncut stream |
| Codec.CompletesOnLastByte | src/lib/middfs-conn.c:275-297 | A packet arriving in pieces is complete on the read that delivers its last byte and on none before, and then is the original one |
| Wire.SerSizeRefinesEncoding | src/lib/middfs-serial.c:19-31 | The size a bounded serialiser reports is within the room it was given exactly when the true encoding fits, is the true length then, and otherwise is more than the room and at most the true length |
| Serialize.SerializePkt | src/lib/middfs-serial.c:420-453 | In place: the reported size is the bounded size of the encoding, the encoding stands at the given position when it fits, and no byte outside the given room is touched |
| Deserialize.DeserializePkt | src/lib/middfs-serial.c:456-502 | Decoding into a structure that was zeroed or left behind by earlier attempts on a prefix of these bytes (its directory array included) gives the answer of a fresh reference decode, and leaves the structure fit for another attempt; announced lengths not making sizes wrap. When bytes are missing the number returned is above nbytes, and exactly the one Shortfall computes |
| Shortfall.AsksForOneMore | src/lib/middfs-serial.c:33-46 | That number is nbytes + 1, as documented for every short input, if and only if one byte is missing from the type word, or from what is read last for the type: a fixed-size member or a data block, with nothing still missing behind it |
| Buffer.Buffer.SerializePacket | src/lib/middfs-buf.c:182-200 | The grow-and-retry loop ends, has appended exactly the encoding behind the bytes already queued, made the number of serialiser calls that Retry counts, and kept the block when it called once and left no spare room otherwise |
| Retry.TrueSize | src/lib/middfs-serial.c:25-31 | A call reports the number of bytes required, as documented, if and only if every string ends within the room its serialiser is offered |
| Retry.OnceOrTwice | src/lib/middfs-buf.c:186-194 | The loop runs once if and only if the packet fits at once, and once or twice, as intended, if and only if it fits at once or the first call sees every string |
| Retry.StringFreeTwice | src/lib/middfs-buf.c:186-194 | So without string characters: one call when it fits and two otherwise |
| Retry.CallsBounded | src/lib/middfs-buf.c:186-194 | In general the calls are at most the number of string characters plus two |
| Retry.ConnectCalls | src/lib/middfs-buf.c:186-194 | The bound is met: a CONNECT with a name of length L on a buffer without room takes exactly L + 2 calls, so the "once or twice" of the comment fails for every non-empty name |
| RelaySafety.RunsKeepInv | src/lib/middfs-conn.c:126-176 | At every moment of every run of the loop, in the server and in a responder, the state, descriptor and buffer invariant of every table entry holds |
| RelaySafety.NeverCrashes | src/lib/middfs-conn.c:184-249 | In every run of either daemon, whatever a fair environment does next, no assertion fails and no abort() is reached |
| Crashes.CrashesExactly | src/lib/middfs-conn.c:254-298 | Without that assumption: a turn of a connection in use crashes if and only if it completes a deadly packet, which is a response of an unknown type or, in the server, a DISCONNECT or a response outside RSPFWD |
| Crashes.CrashesForScript | src/lib/middfs-conn.c:254-298 | So a connection can be made to crash if and only if the first packet its other end sends is deadly, whatever follows it and however it is cut into reads |
| Crashes.AssumedOfEnds | src/server/middfs-server-handler.c:34-57 | What is assumed of a requester is no more than that its first packet is not deadly and that nothing follows it; what is assumed of a peer implies the same |
| Descriptors.DescriptorConservation | src/lib/middfs-sock.c:310-326 | In every run the connected and listening descriptors are exactly those in the table, each at one end of one entry: swaps, moves and removals neither leak, share nor lose one |
| Descriptors.LeakedExactly | src/lib/middfs-util.c:40-55 | In every run a descriptor is leaked, open with no entry owning it, if and only if an earlier connect failed on it after the socket was made; no later turn or poll closes it |
| Descriptors.FailedConnectLeaks | src/server/middfs-server-handler.c:176-179 | The failing input: a whole request for a registered client that does not accept connections; the entry is deleted, and the descriptor made for it stays open without an owner |
| Descriptors.EntryStrays | src/server/middfs-server-handler.c:155-184 | One turn of the loop leaves the leaked descriptors there were, and adds exactly the one of a failing connect |
| Descriptors.PollStrays | src/lib/middfs-sock.c:291-304 | A poll neither closes nor adds a leaked descriptor |
| RelaySafety.ReplySafety | src/server/middfs-server-handler.c:76-220 | In every run, for any number of connections, interleaving and chunk sizes: what was written to a requester is a prefix of the reply it is owed (root answer or ENOENT by the very registry the server had at an earlier turn of that connection, or what its own peer sent); the peer is reached at the IP, and the port cut to 16 bits, of a client listed under the owner's name by the registry at such a turn; a responder's requester gets a prefix of its system's reply; and what was written to it is a prefix of that request's encoding, in the requester's own bytes when size and offset are small |
| RelaySafety.StoriesHappened | src/server/middfs-server-handler.c:80-184 | By induction over runs: every decision recorded for a connection was made at an earlier turn of that connection, with the registry of that moment |
| RelaySafety.HandlerDecides | src/server/middfs-server-handler.c:80-184 | A handler decides a reply only with the registry it has |
| RelaySafety.WholeReply | src/server/middfs-server-handler.c:214-220 | In every run: a step that ends a replying connection without a failure finds its whole reply written, the server's own answer by the registry it decided with, everything the owner named in the request has sent, or in a responder the reply of its system |
| Announcements.RegistryExactly | src/server/middfs-server-handler.c:225-246 | In every run, at every moment: a client is in the registry if and only if an earlier turn completed a CONNECT with its name and port, from its address |
| Announcements.RegistryHistory | src/server/middfs-server-handler.c:225-246 | So in every run each client in the registry was announced at an earlier turn, by a CONNECT of its name and port from its address |
| Announcements.RegistryOnlyGrows | src/server/middfs-client.c:109-124 | In every run no client ever leaves the registry |
| Announcements.ForwardedToAnnounced | src/server/middfs-server-handler.c:155-184 | Every client a request was ever forwarded to announced itself so |
| Announcements.TurnRegisters | src/server/middfs-server-handler.c:225-246 | A turn that completes a CONNECT, with an address to be had and room, adds exactly that client to the registry, as a bag; every other turn leaves the registry as it is |
| Announcements.StepRegisters | src/server/middfs-server-handler.c:225-246 | A step adds to the registry at most the client whose CONNECT it completes, and loses none |
| Announcements.CompletedIsAnnounced | src/lib/middfs-conn.c:275-297 | The CONNECT a turn completes is all its other end has sent |
| Relay.PortReached | src/lib/middfs-util.c:48-49 | The port reached is the one registered if and only if that is below 2^16 |
| RelayProgress.Isolation | src/lib/middfs-conn.c:126-176 | Handling one connection leaves the entry of every other one, and everything its descriptors have read, written or hold, as it was |
| RelayProgress.NoStateIsRevisited | src/lib/middfs-conn.c:227-325 | In every run each connection descends lexicographically by state (REQRD, REQFWD, RSPFWD, RSPWR, deleted) and bytes to go, strictly at every event of it that is handled |
| Turns.ReadEndsExactly | src/lib/middfs-conn.c:254-298 | A turn that reads ends the connection if and only if the read fails or finds the end, or it completes a packet that is not answered: for the server a CONNECT, a packet without payload, or a request for a registered owner that cannot be reached; for a responder all but requests of the types 1, 2, 8, 10, 11, 13, 14 and 15 |
| Turns.ReadMeans | src/server/middfs-server-handler.c:80-212 | Any other turn that reads waits for more, or has the right bytes queued on the right descriptor: the request for a registered owner, the response for the requester, or the reply written out, which is the server's own or its system's |
| Turns.WriteMeans | src/lib/middfs-conn.c:302-325 | A turn that writes ends the connection if and only if the write fails or the whole reply is out; when the request is out it swaps the ends and reads; otherwise it has put a non-empty part of the queue on the stream |
| Turns.OwnReplySent | src/server/middfs-server-handler.c:113-151 | In every run: when a connection the server answered itself is finished, the requester has been sent exactly one packet, the reply written out: for READDIR of the root one directory a registered client, in order; for ACCESS success for modes 0 to 7 and EINVAL otherwise; EPERM for RENAME; ENOENT for the rest and for unknown owners |
| Turns.AcceptsExactly | src/lib/middfs-conn.c:214-222 | A connection is accepted if and only if the listening socket has input and accept succeeds |
| Turns.AcceptMeans | src/lib/middfs-conn.c:136-170 | It gets an entry at the end of the table, waiting for a request with empty buffers; nothing else changes |
| Server.Server.ServerLoop | src/lib/middfs-conn.c:126-176 | One round of the in-place server, under any fair environment, is a piece of a run: one poll step with the answers given, then each entry that was there handled once in order with what the environment does at that turn, none added meanwhile, ending in exactly the new state |
| Server.Server.Serve | src/lib/middfs-conn.c:76-85 | Either daemon, in place from its start, for any number of rounds, with an environment that may differ in every round, is a run in the sense above that starts with the listening socket and an empty registry, its rounds following one another and each doing what its environment says; so every theorem about runs holds of it |
| RemoteRead.RemoteReadIsOwnersRead | src/client/middfs-client-rsrc.c:533-581 | End to end over a run of the server and the runs of the responders it reaches: when a read's connection is finished, either the owner was not in the registry the server decided with, and the requester gets ENOENT; or that registry listed a client under the owner's name that had announced itself, and the requester was sent the answer of the responder at that client's address: the errno of open, malloc or pread, or byte for byte the part of its file from the offset on, for the size and offset that arrived |
| RemoteRead.ReadExact | src/lib/middfs-serial.c:339-352 | That is the read that was asked for, on every file, if and only if the casts are harmless: a size of 2^63 or more stays one; any other arrives below 2^63, and then a negative offset stays negative, and a valid one stays valid and either nothing is asked for or the casts change nothing |
| RemoteRead.HighSizeFails | src/client/middfs-client-handler.c:206-214 | A size with bit 31 set, such as 2^31, arrives as one malloc does not grant: the read fails with ENOMEM on every file that can be opened |
| RemoteRead.SmallReadExact | src/lib/middfs-serial.c:339-352 | In particular whenever size and offset are below 2^31 |
| RemoteRead.FileBytesArrive | src/client/middfs-client-handler.c:202-232 | Corollary of the end-to-end theorem: for a forwarded read with size and offset below 2^31 on an existing file, the data sent to the requester are min(size, what is left) bytes, byte k being byte offset + k of the owner's file |
| PathSplit.RootDecision | src/server/middfs-server-handler.c:85-97 | For every absolute path a client splits, after the trip over the wire, the server's test of the path part agrees with a test of the owner and holds exactly for paths of slashes only |
| Wire.BigEndianInverse | src/lib/middfs-serial.c:234-263 | A word read back from network byte order is the word written |
| Wire.FromBigEndianInverse | src/lib/middfs-serial.c:251-263 | Four bytes read as a word and written again are the same four bytes |
| Wire.BigEndianMeans | src/lib/middfs-serial.c:234-243 | The most significant byte is sent first |
| Layout.Int64Means | src/lib/middfs-serial.c:506-522 | The eight bytes of a 64-bit member are its value, most significant first |
| Layout.EntriesBytes | src/lib/middfs-serial.c:717-730 | Directory entries are sent as name, terminator and mode, one after the other, by induction |
| Wire.CastsCongruent | src/lib/middfs-serial.c:339-352 | The casts between signed and unsigned words keep the value modulo 2^32 and undo each other |
| Wire.SignExtendMeans | src/lib/middfs-serial.c:339-352 | The cast size is congruent modulo 2^64 to the signed value of its low word |
| Wire.SerSizeConcat | src/lib/middfs-serial.c:51-68 | Reported sizes compose: the size of two field lists is that of the first plus that of the second in the room the first leaves |
| Serialize.PutConcat | src/lib/middfs-serial.c:51-68 | Two serialisers chained by "used += f(buf + used, sizerem(nbytes, used))" act as one serialiser of the joined fields, even when the first did not fit |
| Serialize.SerializeStr | src/lib/middfs-serial.c:188-199 | A string with its terminator, measured with strnlen and written only when it fits |
| Serialize.SerializeUint32 | src/lib/middfs-serial.c:234-243 | A word in network byte order, written only when there is room for it |
| Serialize.SerializeUint64 | src/lib/middfs-serial.c:506-522 | High word, then low word |
| Serialize.SerializeRsrc | src/lib/middfs-serial.c:271-278 | Owner, then path |
| Serialize.SerializeBlock | src/lib/middfs-serial.c:354-360 | A data block, written whole or not at all |
| Serialize.SerializeRequest | src/lib/middfs-serial.c:317-363 | The common members and the groups of members the type carries (Layout.RequestBytes), size and offset cast to 32 bits |
| Serialize.SerializeStat | src/lib/middfs-serial.c:654-664 | The four stat members in order |
| Serialize.SerializeData | src/lib/middfs-serial.c:678-691 | The byte count and the bytes |
| Serialize.SerializeDirent | src/lib/middfs-serial.c:757-765 | Name and mode of a directory entry |
| Serialize.SerializeDir | src/lib/middfs-serial.c:717-730 | The loop over the directory entries writes the count and every entry in order, within the room given |
| Serialize.SerializeRsp | src/lib/middfs-serial.c:554-590 | The response type and the payload it calls for |
| Serialize.SerializeConnect | src/lib/middfs-serial.c:634-642 | Port, then name |
| Deserialize.DeserializeUint32 | src/lib/middfs-serial.c:251-263 | The word, or the structure unchanged when there are fewer than four bytes; the number returned is 4 in any case, so nbytes + 1 only when one byte is missing |
| Deserialize.DeserializeStr | src/lib/middfs-serial.c:207-232 | The string up to its terminator; without one the structure unchanged and exactly nbytes + 2 |
| Deserialize.DeserializeUint64 | src/lib/middfs-serial.c:529-546 | Both words, or the structure unchanged |
| Deserialize.DeserializeRsrc | src/lib/middfs-serial.c:281-315 | Agrees with the reference parser on two strings |
| Deserialize.DeserializeRequest | src/lib/middfs-serial.c:365-418 | Agrees with the reference parser; members the type does not carry (Layout.RequestComesBack) keep what the structure held |
| Deserialize.DeserializeStat | src/lib/middfs-serial.c:666-676 | Agrees with the reference parser |
| Deserialize.DeserializeData | src/lib/middfs-serial.c:693-715 | Agrees with the reference parser; the other members of the union are untouched |
| Shortfall.RequestAsksOne | src/lib/middfs-serial.c:365-418 | When deserialize_request returns nbytes + 1 |
| Shortfall.ResponseAsksOne | src/lib/middfs-serial.c:592-632 | When deserialize_rsp returns nbytes + 1 |
| Shortfall.DirentsAskOne | src/lib/middfs-serial.c:750-752 | By induction over the entries: only one byte short of the last entry's mode |
| Deserialize.DeserializeEntries | src/lib/middfs-serial.c:750-752 | The loop over a possibly reused array of entries reads all of them or asks for more |
| Deserialize.DeserializeDir | src/lib/middfs-serial.c:732-755 | Agrees with the reference parser, allocating the array only when there is none and reusing one left by an earlier attempt |
| Deserialize.DeserializeRsp | src/lib/middfs-serial.c:592-632 | Agrees with the reference parser; aborts exactly on a response type it does not know |
| Deserialize.DeserializeConnect | src/lib/middfs-serial.c:644-652 | Agrees with the reference parser; what it asks for is never nbytes + 1 but 6 without the port and nbytes + 2 without the end of the name |
| SelfDelimiting.TextCut | src/lib/middfs-serial.c:207-232 | A string read from a prefix is the same string or more is asked for |
| SelfDelimiting.RequestCut | src/lib/middfs-serial.c:365-418 | A request is self-delimiting |
| SelfDelimiting.DirentsCut | src/lib/middfs-serial.c:750-752 | A list of directory entries is self-delimiting, by induction over the entries |
| SelfDelimiting.ResponseCut | src/lib/middfs-serial.c:592-632 | A response is self-delimiting, and a prefix never reports an unknown type that the whole does not |
| Exactness.PlainRead | src/lib/middfs-serial.c:365-418 | A request whose fields stand in the buffer is read back with everything its type carries |
| Exactness.PlainWritten | src/lib/middfs-serial.c:365-418 | The fields of a decoded request stand exactly where it was read |
| Exactness.ParsedIsCarried | src/lib/middfs-serial.c:387-417 | A decoded request holds nothing its type does not carry, and a WRITE holds as many bytes as it says |
| Codec.DirentsRead | src/lib/middfs-serial.c:717-755 | Written directory entries are read back, by induction over the entries |
| Codec.DirentsWritten | src/lib/middfs-serial.c:717-755 | Decoded directory entries stand exactly where they were read |
| Codec.ResponseRead | src/lib/middfs-serial.c:554-632 | A valid response whose fields stand in the buffer is read back exactly |
| Codec.ResponseWritten | src/lib/middfs-serial.c:554-632 | The fields of a decoded response stand exactly where it was read, and its counts are right |
| Codec.PlainPacketRead | src/lib/middfs-serial.c:420-502 | The same for whole packets |
| Codec.PlainPacketWritten | src/lib/middfs-serial.c:420-502 | The same for whole packets, the other way |
| Codec.CastDetermined | src/lib/middfs-serial.c:339-352 | If a request and its cast have the same bytes, the casts did nothing |
| Codec.CastLength | src/lib/middfs-serial.c:339-352 | The casts change no length |
| Codec.PacketsAreLawful | src/lib/middfs-serial.c:456-502 | Packet decoding makes progress and may be retried on any prefix |
| Streams.DrainChunks | src/lib/middfs-buf.c:210-227 | For any self-delimiting format: draining a first part, keeping the rest, and draining on equals draining the whole |
| Streams.AnyChunking | src/lib/middfs-buf.c:210-227 | The same for any number of reads of any sizes |
| Buffer.Buffer.Resize | src/lib/middfs-buf.c:29-43 | Keeps the queued bytes that still fit |
| Buffer.Buffer.Shift | src/lib/middfs-buf.c:54-69 | Drops bytes from the front by moving the others in place; shifting by too much empties the queue |
| Buffer.Buffer.Increase | src/lib/middfs-buf.c:77-89 | Leaves room for at least one byte, queue unchanged; doubles only when full |
| Buffer.Buffer.Read | src/lib/middfs-buf.c:116-131 | Appends a prefix of what is waiting; a buffer filled only so has a power of two as capacity, at most twice its peak use, and has copied less than its capacity in all reallocations together |
| Buffer.Buffer.Write | src/lib/middfs-buf.c:140-150 | What was sent followed by what is still queued is what was queued |
| Buffer.Buffer.Append | src/lib/middfs-buf.c:159-173 | Appends a block whatever the room |
| Buffer.Buffer.DeserializePacket | src/lib/middfs-buf.c:210-227 | Takes exactly one packet off the front when it is complete and leaves the queue alone otherwise |
| Retry.ConnectSize | src/lib/middfs-serial.c:634-642 | What the serialiser reports for a CONNECT packet on any room |
| Requester.PacketSend | src/client/middfs-client-pkt.c:25-48 | For any answers of the kernel: the return value and the bytes sent are those of a write-by-write reference, and with the bytes still queued they are the encoding; a failure is reported exactly with its errno, and success means nothing is queued or the given answers ran out |
| Requester.PacketRecv | src/client/middfs-client-pkt.c:56-80 | For any read sizes and any failing reads: 0 exactly when the bytes that came hold a whole packet, 1 exactly when they do not, because the stream ended or the last read failed or was interrupted; the packet is that of one fresh decode of the stream although every attempt reused the same structure |
| Requester.ResponseValidate | src/client/middfs-client-pkt.c:113-130 | 0 exactly for a response of the expected type or one reporting error number 0; otherwise the negated error it reports, or -EIO (-5) if it reports none |
| RelayInvariant.ReadOne | src/lib/middfs-conn.c:264-293 | One read of at least a byte from an end that sends one packet: the buffer holds what was read so far, or the packet is complete with nothing left over |
| RelayInvariant.RequestFinished | src/server/middfs-server-handler.c:80-184 | Deciding root, unknown owner or peer leaves the entry ready to write the reply owed, or ready to forward exactly this request on a fresh descriptor that reaches the IP, and the port cut to 16 bits, of a registered client of the owner's name |
| Relay.HereAnswerMeans | src/server/middfs-server-handler.c:113-170 | The server's own answer to any request, written out with its numbers, entry by entry for READDIR |
| RelayInvariant.RequestAnswered | src/client/middfs-client-handler.c:22-66 | In a responder: the entry is ready to write the reply its system gave |
| RelayInvariant.ReadRequest | src/lib/middfs-conn.c:254-298 | Reading in REQRD keeps the invariant |
| RelayInvariant.ReadResponse | src/lib/middfs-conn.c:254-298 | Reading in RSPFWD keeps it: a complete response is queued for the requester with the bytes the peer sent |
| RelayInvariant.WriteRequest | src/lib/middfs-conn.c:302-325 | Writing in REQFWD keeps it, the swap of the two descriptors included |
| RelayInvariant.WriteReply | src/lib/middfs-conn.c:302-325 | Writing in RSPWR keeps it |
| RelayInvariant.HandlerGood | src/lib/middfs-conn.c:184-249 | Every handled event of either daemon: no crash, the entry's invariant kept, only its own streams touched, only fresh descriptors gained (its own, and one whose connect failed), and on removal each descriptor closed once |
| RelaySafety.ReplaceEntry | src/lib/middfs-conn.c:136-170 | Replacing one entry keeps the invariant of the whole table |
| RelaySafety.AcceptKeepsInv | src/lib/middfs-conn.c:214-222 | Accepting a connection keeps it |
| RelaySafety.HandleEntryKeepsInv | src/lib/middfs-conn.c:136-170 | One turn of the loop never crashes and keeps it |
| RelaySafety.PolledInv | src/lib/middfs-sock.c:266-304 | Checking the events of an entry, or closing it when it hung up, keeps its invariant and leaves events that fit its state |
| RelaySafety.PollKeepsInv | src/lib/middfs-sock.c:291-304 | The same for the whole table, by induction over the entries |
| RelaySafety.StepKeepsInv | src/lib/middfs-conn.c:126-176 | Every step of a run keeps the invariant |
| RelaySafety.SockFaithful | src/server/middfs-server-handler.c:76-220 | The invariant of an entry implies that what went out on it was right |
| RelaySafety.Finished | src/server/middfs-server-handler.c:214-220 | When a connection is finished its invariant holds with nothing left to write |
| Leftover.LeftoverIsTakenForTheResponse | src/lib/middfs-conn.c:277-297 | Why ends may send one packet only: from a requester that sends a response right behind its request, five turns of its connection lead to the server writing that response back to it, whatever the peer answers |
| Leftover.ForwardsRequest | src/lib/middfs-conn.c:254-325 | On the way: the request has gone out whole, the ends are swapped, and the leftover still stands in the buffer now read for the peer |
| Leftover.TakesLeftover | src/lib/middfs-conn.c:277-297 | As soon as the peer sends anything, what stands in the buffer is taken for its response |
| RelayProgress.EventsMakeProgress | src/lib/middfs-conn.c:227-325 | Every handled event moves a connection to a later state, or leaves fewer bytes to go |
| RelayProgress.ReadProgresses | src/lib/middfs-conn.c:254-298 | The same for a read |
| RelayProgress.WriteProgresses | src/lib/middfs-conn.c:302-325 | The same for a write |
| RelayProgress.PollDescends | src/lib/middfs-sock.c:291-304 | A poll lets no connection fall back |
| RelayProgress.HandleDescends | src/lib/middfs-conn.c:136-170 | Nor does a turn of the loop |
| RelayProgress.StepDescends | src/lib/middfs-conn.c:126-176 | Nor does any step, and a handled event moves strictly forward |
| Server.Server.constructor | src/lib/middfs-conn.c:76-85 | The table holds only the listening socket and the registry is empty: the start of a run |
| Server.Server.SockinfoDelete | src/lib/middfs-sock.c:219-224 | A tombstone: both descriptors closed once, nothing else changed |
| Server.Server.SocksAdd | src/lib/middfs-sock.c:70-83 | One entry appended, growing the array when it is full |
| Server.Server.SockinfoPollfds | src/lib/middfs-sock.c:235-254 | Claims a pollfd exactly for an entry in use, for the descriptor it waits on and the one event it waits for (input in LSTN, REQRD and RSPFWD, output in RSPWR and REQFWD), and points that end at it when there is room |
| Server.Server.SocksPollfds | src/lib/middfs-sock.c:139-149 | The count is the same for the sizing pass and the filling pass; filling gives every entry in use its own pollfd, with the descriptor and the one event it waits for |
| Server.SlotsApart | src/lib/middfs-sock.c:139-149 | Pollfd slots map injectively to polled entries |
| Server.Server.SocksCheck | src/lib/middfs-sock.c:291-304 | Every pointer followed was set in this round and holds the answer for its own entry; hung-up entries are closed, the others keep their events |
| Server.Server.SocksPoll | src/lib/middfs-sock.c:156-191 | Both passes, poll and check together are the poll step of the state machine, for any answers: an entry answered with an error or a hang-up is closed, and every other one knows exactly whether the event it waits for has happened |
| Server.FilledAsks | src/lib/middfs-sock.c:235-254 | The filled pollfds ask for these events on these descriptors |
| Server.EntryAfterPoll | src/lib/middfs-sock.c:266-284 | What an answer makes of an entry, by its state |
| Server.PollMeans | src/lib/middfs-sock.c:291-304 | The same for every entry of the table |
| Server.HalfNext | src/lib/middfs-sock.c:266-284 | In the middle of the check the next entry still has its own slot and may be closed |
| Server.Server.HandleConnect | src/server/middfs-server-handler.c:225-246 | If the address can be had and there is room, the registry gains exactly the client of this name, IP and port, as a bag and in whatever order qsort leaves; otherwise it is unchanged. The connection ends |
| Server.Server.HandleReqRdFinRoot | src/server/middfs-server-handler.c:113-151 | For READDIR one directory entry (mode 0x41A4) a client, in order; for ACCESS success exactly for modes 0 to 7; EPERM for RENAME and ENOENT for every other type; and the requester's descriptor moved to the out end |
| Server.Server.HandleReqRdFinPeer | src/server/middfs-server-handler.c:155-184 | ENOENT for an unknown owner; otherwise the out end reaches the client found under the owner's name, or the connection ends, leaving open the descriptor a failing connect was made on |
| Server.Server.InetConnect | src/lib/middfs-util.c:40-55 | A new descriptor that reaches the IP and the port cut to 16 bits; when connect fails, -1, with the descriptor made still open |
| Server.Server.HandleReqRdFin | src/server/middfs-server-handler.c:80-109 | In place, the request step of the state machine |
| Server.Server.HandleRspRdFin | src/server/middfs-server-handler.c:201-212 | In place, the response step; its assertion holds |
| Server.Server.ServerRdFin | src/server/middfs-server-handler.c:34-57 | The server's dispatch on the packet type |
| Server.Server.ClientRdFin | src/client/middfs-client-handler.c:22-66 | The responder's: exactly requests with a handler are answered, and the descriptor is turned around; its assertion holds |
| Server.Server.HandlePktRdFin | src/lib/middfs-conn.c:295-297 | The rd_fin of the handlers in use |
| Server.Server.HandlePktWrFin | src/server/middfs-server-handler.c:59-71 | The wr_fin of the handlers in use: in the server the swap of both descriptors after the request and the end after the reply, in a responder the end, its assertion holding |
| Server.Server.BufferRead | src/lib/middfs-buf.c:116-131 | Appends what one read delivers |
| Server.Server.BufferWrite | src/lib/middfs-buf.c:140-150 | Puts a prefix of the queue on the stream |
| Server.Server.HandlePktRd | src/lib/middfs-conn.c:254-298 | In place, the read step; its assertion holds |
| Server.Server.HandlePktWr | src/lib/middfs-conn.c:302-325 | In place, the write step; its assertion holds |
| Server.Server.HandlePktEvent | src/lib/middfs-conn.c:227-249 | Dispatch on the state; the abort() branch is dead |
| Server.Server.HandleSocketEvent | src/lib/middfs-conn.c:184-225 | Dispatch on the type; the abort() branches are dead |
| Server.Server.HandleIndex | src/lib/middfs-conn.c:137-170 | From the invariant alone: one turn of the loop is the turn of the state machine and does not crash |
| Server.HandleStep | src/lib/middfs-conn.c:137-170 | Such a turn extends a run by one step |
| Packing.SocksPack | src/lib/middfs-sock.c:102-128 | In place: the open entries end up at the front in their old order, the entries behind them are closed, and marked unused if all closed ones were, and the count is that of the entries that were at the front already |
| Packing.MoveKeepsOpens | src/lib/middfs-sock.c:388-393 | Moving the next open entry into a gap keeps the sequence of open entries |
| Packing.CountExact | src/lib/middfs-sock.c:97-101 | That count is the number of open sockets, as documented, if and only if no closed entry preceded an open one |
| Registry.Clients.Add | src/server/middfs-client.c:109-124 | Adds one client to the bag and keeps the vector sorted |
| Registry.Clients.Remove | src/server/middfs-client.c:95-107 | Removes exactly the entry at the index (overwriting with the last, sorting again) and keeps the vector sorted |
| Registry.Clients.Resize | src/server/middfs-client.c:149-165 | Keeps the entries that fit, in order, and drops the others |
| Registry.Clients.Find | src/server/middfs-client.c:133-137 | Bisection finds an entry of that name if and only if there is one, duplicates included |
| Registry.Clients.Readdir | src/server/middfs-client.c:177-190 | One directory entry a client, in the vector's order |
| Registry.QSort | src/server/middfs-client.c:170-173 | What the program relies on about qsort: a sorted permutation of the used entries |
| Registry.StrCmpZero | src/server/middfs-client.c:74-76 | Names compare equal only if they are equal |
| Registry.StrCmpTransitive | src/server/middfs-client.c:74-76 | The order of names is transitive, strictly where it must be |
| Registry.StrCmpMeans | src/server/middfs-client.c:74-76 | A name comes before another if and only if it is a proper prefix of it or has the smaller byte where they first differ |
| PathSplit.ClientRsrc.Init | src/client/middfs-client-rsrc.c:81-122 | Refuses relative paths with -EINVAL, and otherwise stores the split of the path written out, with the kind decided by the owner |
| PathSplit.SplitMeans | src/client/middfs-client-rsrc.c:81-122 | A resource is the split of an absolute path if and only if: the path is all slashes and it is the root; or its owner is what stands between the leading slashes and the next slash or the end, and its path is the rest, or "/" if nothing is left |
| PathSplit.SplitUnique | src/client/middfs-client-rsrc.c:81-122 | A path has one split |
| PathSplit.SplitShape | src/client/middfs-client-rsrc.c:81-122 | The owner has no slash; the path part is empty exactly when the owner is, exactly for paths of slashes only, and otherwise starts with a slash |
| PathSplit.RejoinSplits | src/client/middfs-client-rsrc.c:81-122 | Re-joining a resource and splitting again gives the resource |
| PathSplit.RootTestMistaken | src/server/middfs-server-handler.c:88-89 | Every resource with an owner and an empty path would be taken for the root; no path splits into one |
| Owner.HandleRequest | src/client/middfs-client-handler.c:112-200 | The response to a request, for exactly the eight handled types: for READ the bytes or the errno as below, open's errno included; for every other type the handler's own response, or the error its negative status negates. Types without a handler end the connection |
| Owner.ReplyMeans | src/client/middfs-client-handler.c:112-200 | The same of the function the state machine uses |
| Owner.HandleRequestRead | src/client/middfs-client-handler.c:202-232 | As many bytes as were asked for and are there, byte k being byte offset + k of the file; or pread's negated errno, -EINVAL for a negative offset, or -ENOMEM for a block no allocator grants |
| RemoteRead.ReadNetwork | src/client/middfs-client-rsrc.c:533-581 | Copies at most the bytes asked for into the caller's buffer, leaves the rest of it alone and returns their number when that is below 2^31 and its low 32 bits as a signed number in general; or leaves the buffer alone and returns the negated error, -EIO for anything but a data response or an error |
| RemoteRead.ToIntMeans | src/client/middfs-client-rsrc.c:568-571 | The count converted to int is congruent to it modulo 2^32, and the count itself below 2^31 |
| RemoteRead.ReadPacketBytes | src/client/middfs-client-rsrc.c:538-550 | The bytes of the request a read sends, written out |
| RemoteRead.ServiceOfRead | src/client/middfs-client-handler.c:22-72 | What a responder that was sent a read has sent back, when it is finished, is the whole reply of its system |
| RemoteRead.ForwardedRead | src/client/middfs-client-handler.c:202-232 | So the reply the server passes on is the owner's read |
| RemoteRead.AnsweredByServer | src/server/middfs-server-handler.c:163-170 | A read the server answered itself was for an owner not in the registry it decided with, and the requester gets ENOENT |
| RemoteRead.SentToOwner | src/server/middfs-server-handler.c:160-180 | A forwarded read went to a client of the owner's name, at its IP and its port cut to 16 bits |
| RemoteRead.OwnerSees | src/client/middfs-client-rsrc.c:538-550 | The owner finds the request with size and offset sign-extended, and forwarding it again would change nothing |

## Left out

- Mounting, FUSE callbacks, option parsing, configuration, logging, printing and thread start-up: plumbing.
- Real sockets, name resolution and the file system: only their return values are modelled. `pread` is a slice of a byte sequence; `stat`, `opendir`, `access`, `open` for writing, `truncate`, `rename` and `pwrite` are one given outcome each.
- Failing allocation of sizes below 2^63, and memory leaked on error paths.
- Deserialize.DeserializeDir: the `calloc` for a directory count read off the wire always succeeds; a count beyond what the allocator grants makes the code report an error where the model waits for that many entries.
- `poll` failing, which ends the server's loop: a run is a run up to that point.
- `serialize_union`, `serialize_enum` and the varargs of `serialize_struct`: unused, or replaced by direct composition.
- Shutdown (`middfs_socks_delete`), which would delete the buffers of tombstones a second time.
- Overlap of union members: a partly filled packet holds them side by side, and what counts is what its type says.
- Requesters that send a response, DISCONNECT, or a second packet, and peers that send anything but a response of a known type: excluded by assumption. The abort() on an unknown response type is modelled (`Decode.Parsed.Unknown`).
- `packet_recv` returning 1 when the stream ends early, which `packet_xchg` treats as success: `Requester.PacketRecv` states the return value, and the end-to-end theorem is about whole replies.
- Connecting to the server in `packet_xchg`, around the modelled send and receive.
- The local branch of `client_rsrc_read`, and all of `client_rsrc_write` and the other operations: they add no reasoning the read does not have.
- PacketSend: the kernel's answers are a finite list, so a write interrupted for ever is a list that ran out; the contract then says how many bytes went out.
- Server.Server.HandlePktRd: the two buffers of a socket are byte sequences rather than objects of class `Buffer`, so their capacities are not part of the server's state.
- Buffers of deleted sockets: the code frees them; the tombstone in the model keeps the bytes, which nothing reads again.
- Server.Server.Close: close(2) always succeeds; its result is only logged by the code.
- Registry.Clients.Resize: a failing realloc is not modelled.
- RemoteRead.ReadNetwork: the exchange is a function from the request to what comes back; `RemoteRead.RemoteReadIsOwnersRead` says what that is when the server has relayed the read.
