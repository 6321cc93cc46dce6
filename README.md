# Avatar mixer and script cache, modelled in Dafny

This project models two pieces of the High Fidelity code base.

**The avatar mixer.** Each frame, the mixer walks the node hash: an outer pass over
every node, and for each receiver an inner pass over every node again. The model
takes all of these passes to see the same enumeration. Every *receiver* is an agent
node with linked avatar data and an active socket. For each receiver, the mixer packs
the records of every other node that has linked data into BULK_AVATAR_DATA datagrams.
A record is the node's 16-byte RFC 4122 UUID followed by the avatar's broadcast bytes.
When the next record would overflow MAX_PACKET_SIZE, the current packet is written out
and a fresh, header-only packet begins with that record.

Around this pass the model covers:
- attaching avatar data to new nodes;
- the KILL_AVATAR notice sent when an avatar leaves;
- routing of incoming datagrams by their first byte;
- the main loop's absolute-deadline frame schedule.

**The script cache.** The cache maps URLs to downloaded script contents. Script users
wait on a multimap keyed by URL until the download of their script finishes.

## Module layout

- `wire.dfy` (`Wire`): bytes, RFC 4122 UUIDs, the packet type tags, the two-byte
  header, and `QByteArray::mid` / `QUuid::fromRfc4122`.
- `nodes.dfy` (`Nodes`): the `Node` class, whose linked data the mixer changes, and
  `NodeView`, one node as seen by one enumeration of the node hash. It also has the
  ghost `Snapshot` of a whole enumeration and `nodeWithUUID`.
- `broadcast.dfy` (`Broadcast`): `broadcastAvatarData` and `addNodeToBroadcastPacket`.
  - The methods work on the two byte arrays, as the source does.
  - They are proved to send exactly what the functions `Records`, `Groups`,
    `ToReceiver` and `BroadcastPass` describe.
  - The lemmas state the size bound, the split rule, the self-exclusion and the
    completeness of the packing.
- `mixer.dfy` (`AvatarMixer`): `attachAvatarDataToNode`, `nodeKilled`,
  `processDatagram`, and the deadline and stop logic of `run`.
  - The 32-bit arithmetic of the sleep computation is written out.
- `script_cache.dfy` (`Scripts`): the `ScriptCache` class with its two maps, a
  multiset of requests in flight, and a log of the callbacks made on script users.

## Model

| member | source | states |
|---|---|---|
| Wire.UuidAfterHeaderOfPacket | assignment-client/src/avatars/AvatarMixer.cpp:142-143 | the UUID read after the header of a datagram made of a header, a UUID and any payload is that UUID |
| Wire.UuidAfterHeader | assignment-client/src/avatars/AvatarMixer.cpp:142-143 | `dataByteArray.mid(2, 16)` read by `QUuid::fromRfc4122` (`Mid`, `UuidFromRfc4122`) gives the 16 bytes after the two-byte header when the datagram has at least 18 bytes, and the null UUID for every shorter datagram, including one whose slice runs off the end |
| Nodes.NodeWithUuid | assignment-client/src/avatars/AvatarMixer.cpp:146 | the lookup finds a node carrying the UUID if there is one, and finds nothing exactly when no node carries it |
| Nodes.NodeWithUuidOfMember | assignment-client/src/avatars/AvatarMixer.cpp:146 | the lookup finds the first node carrying the UUID: looking up a node's UUID finds that very node when no earlier node shares it, as when UUIDs are unique |
| Broadcast.RecordOf | assignment-client/src/avatars/AvatarMixer.cpp:37-46 | a record is 16 + payload bytes long and begins with the node's RFC 4122 UUID |
| Broadcast.AddNodeToBroadcastPacket | assignment-client/src/avatars/AvatarMixer.cpp:37-46 | writes the node's record at the position, returns the position just past it, and leaves the bytes before the position unchanged |
| Broadcast.Memcpy | assignment-client/src/avatars/AvatarMixer.cpp:88 | the destination range holds the source bytes and every other byte of the array is unchanged |
| Broadcast.PopulateTypeAndVersion | assignment-client/src/avatars/AvatarMixer.cpp:64 | the packet starts with the type tag and its version, and the header length is returned |
| Broadcast.GroupsFlatten | assignment-client/src/avatars/AvatarMixer.cpp:87-107 | packing loses, duplicates and reorders no record: the packets' records, joined, are exactly the records in order |
| Broadcast.GroupsSplitOnOverflow | assignment-client/src/avatars/AvatarMixer.cpp:91-106 | records are never split: there is at least one packet, and each later packet begins with a whole record that would have overflowed the packet before it |
| Broadcast.GroupsFit | assignment-client/src/avatars/AvatarMixer.cpp:87-107 | when a header plus any one record fits, the header plus each packet's records fits in MAX_PACKET_SIZE |
| Broadcast.GroupsCount | assignment-client/src/avatars/AvatarMixer.cpp:92 | the number of packets is one more than the number of records that overflowed |
| Broadcast.ToReceiverCount | assignment-client/src/avatars/AvatarMixer.cpp:111-115 | a receiver is sent one final packet, possibly header-only, plus one per overflow; any other node is sent none |
| Broadcast.ToReceiverBounded | assignment-client/src/avatars/AvatarMixer.cpp:87-115 | every datagram for a receiver is addressed to its UUID and active socket, starts with the BULK_AVATAR_DATA header, and is at most MAX_PACKET_SIZE long |
| Broadcast.BroadcastPassBounded | assignment-client/src/avatars/AvatarMixer.cpp:61-118 | every datagram of a whole pass is at most MAX_PACKET_SIZE and starts with the BULK_AVATAR_DATA header |
| Broadcast.BroadcastPassOnlyToReceivers | assignment-client/src/avatars/AvatarMixer.cpp:72 | a UUID carried by no agent with linked data and an active socket is sent nothing in a pass |
| Broadcast.RecordsExcludeSelf | assignment-client/src/avatars/AvatarMixer.cpp:81 | no record a receiver is owed carries the receiver's own UUID |
| Broadcast.RecordsComplete | assignment-client/src/avatars/AvatarMixer.cpp:81 | every other node with linked data contributes its record to the receiver |
| Broadcast.RecordsEachFit | assignment-client/src/avatars/AvatarMixer.cpp:83-85 | under the codec's bound, each record fits in a datagram together with a header |
| Broadcast.ToReceiverBodies | assignment-client/src/avatars/AvatarMixer.cpp:80-115 | the record sections of the packets built for one receiver, in order, concatenate to exactly the records it is owed |
| Broadcast.ReceiverGetsOtherRecords | assignment-client/src/avatars/AvatarMixer.cpp:80-115 | with unique UUIDs, a receiver is sent exactly its own packets, and their record sections, in send order, concatenate to the other nodes' records in enumeration order |
| Broadcast.AppendRecord | assignment-client/src/avatars/AvatarMixer.cpp:88-90 | the packet becomes its old bytes followed by the record, and the length grows by the record's length |
| Broadcast.AppendToPacket | assignment-client/src/avatars/AvatarMixer.cpp:87-90 | a record that fits is appended to the packet, whose contents become the header and the records so far plus it |
| Broadcast.RestartPacket | assignment-client/src/avatars/AvatarMixer.cpp:100-106 | the packet is reset to its header and holds the one record that did not fit |
| Broadcast.PlaceRecord | assignment-client/src/avatars/AvatarMixer.cpp:87-107 | a record that fits is appended and nothing is written. Otherwise exactly the current packet is written and the record starts the fresh one. Either way the step agrees with the packing rule |
| Broadcast.PackNode | assignment-client/src/avatars/AvatarMixer.cpp:81-108 | a node with linked data and a UUID different from the receiver's has its record placed; for any other node the length, the open records and the written list stay as they were |
| Broadcast.PackAt | assignment-client/src/avatars/AvatarMixer.cpp:80-109 | one inner iteration moves the packing from the records owed from this node on to those owed from the next node on, writing the packets it closes |
| Broadcast.SendToNode | assignment-client/src/avatars/AvatarMixer.cpp:75-115 | the inner loop sends the receiver exactly the packets of its records' packing, the final one included, and counts each of them; the header stays in place |
| Broadcast.ServeNode | assignment-client/src/avatars/AvatarMixer.cpp:71-116 | one outer iteration extends the log by that node's packets if it is a receiver, and by nothing otherwise |
| Broadcast.BroadcastAvatarData | assignment-client/src/avatars/AvatarMixer.cpp:61-118 | the datagrams written are those of the broadcast pass over the enumeration of the node hash, and the packet counter equals their number |
| AvatarMixer.AttachAvatarDataToNode | assignment-client/src/avatars/AvatarMixer.cpp:48-52 | the node's linked data becomes `Attached` of its old value: a node without linked data gets the new data and a node with some keeps its own. Its socket is unchanged |
| AvatarMixer.AttachIdempotent | assignment-client/src/avatars/AvatarMixer.cpp:48-52 | attaching twice is the same as attaching once |
| AvatarMixer.KillNoticeFor | assignment-client/src/avatars/AvatarMixer.cpp:120-134 | a notice exists exactly for an agent with linked data; it is the KILL_AVATAR header followed by the 16-byte UUID, 18 bytes in all, and is addressed to avatar-mixer nodes |
| AvatarMixer.NodeKilled | assignment-client/src/avatars/AvatarMixer.cpp:120-134 | the notice assembled in the stack buffer is `KillNoticeFor` of the killed node |
| AvatarMixer.KillNoticeRoundTrip | assignment-client/src/avatars/AvatarMixer.cpp:126-131 | a kill notice, when received, is routed to `processKillNode`, and the UUID after its header is the killed node's |
| AvatarMixer.ProcessDatagram | assignment-client/src/avatars/AvatarMixer.cpp:136-166 | routing is on `PacketTag`, the first byte of the datagram. Exactly one route is taken. HEAD_DATA updates a node exactly when its UUID follows the header, and is dropped exactly when no node has that UUID. KILL_AVATAR goes to `processKillNode`. Every other tag goes to `processNodeData`. Each handler gets the whole datagram |
| AvatarMixer.EmptyDatagramIsNodeData | assignment-client/src/avatars/AvatarMixer.cpp:140-163 | an empty datagram reads the terminating NUL as its tag (`PacketTag`), which is neither HEAD_DATA nor KILL_AVATAR, so it goes to `processNodeData` |
| AvatarMixer.HeadDataUpdatesSender | assignment-client/src/avatars/AvatarMixer.cpp:141-153 | a HEAD_DATA datagram carrying a node's UUID updates that node with the sender's address and the whole datagram, when no earlier node shares the UUID (as when UUIDs are unique) |
| AvatarMixer.ShortHeadDataLooksUpNilUuid | assignment-client/src/avatars/AvatarMixer.cpp:142-146 | a HEAD_DATA datagram too short to hold a UUID is looked up under the null UUID, and is dropped when no node has it |
| AvatarMixer.BulkDataIsNodeData | assignment-client/src/avatars/AvatarMixer.cpp:160-163 | a BULK_AVATAR_DATA datagram, such as the ones the mixer sends, is handed to `processNodeData` |
| AvatarMixer.ToInt32 | assignment-client/src/avatars/AvatarMixer.cpp:191 | conversion to `int` yields a value in the 32-bit range that is congruent modulo 2^32 and is the identity on that range |
| AvatarMixer.UsecToSleep | assignment-client/src/avatars/AvatarMixer.cpp:191 | `usecToSleep` for frame k is an `int` congruent modulo 2^32 to the exact time left to the deadline `start + k * 16666` |
| AvatarMixer.UsecToSleepIsTimeToDeadline | assignment-client/src/avatars/AvatarMixer.cpp:191 | whenever the time left to the deadline `start + k * 16666` fits in an `int`, `usecToSleep` is exactly that time, even after the 32-bit product has wrapped |
| AvatarMixer.SleepEndsAtDeadline | assignment-client/src/avatars/AvatarMixer.cpp:191-195 | when `PauseFor` sleeps (`usecToSleep > 0`, for that long), the sleep ends at the frame's absolute deadline, whatever earlier frames overran |
| AvatarMixer.OverrunIsLateness | assignment-client/src/avatars/AvatarMixer.cpp:191-197 | when `PauseFor` logs an overrun instead of sleeping, the frame ended at or after its deadline and the logged value is exactly how late it was |
| AvatarMixer.RunFrame | assignment-client/src/avatars/AvatarMixer.cpp:189-197 | one frame broadcasts the pass over the node hash and then pauses by `PauseFor` of `usecToSleep` for that frame number: a sleep when it is positive, a logged overrun otherwise |
| AvatarMixer.Run | assignment-client/src/avatars/AvatarMixer.cpp:176-198 | the loop runs no frame if finished at the start. It runs frames while event processing leaves `_isFinished` unset, and stops at the first tick that sets it. Frame k, counted from 1, broadcasts the pass and pauses for deadline k |
| Scripts.Reverse | libraries/script-engine/src/ScriptCache.cpp:48 | the drained list holds the waiting users from the most recently to the least recently inserted |
| Scripts.ReversePermutes | libraries/script-engine/src/ScriptCache.cpp:48 | the drained list holds every waiting user, as often as it was registered |
| Scripts.Notices | libraries/script-engine/src/ScriptCache.cpp:54-61 | one callback per drained user, in list order: the contents on success, an error otherwise |
| Scripts.NoticesOutcome | libraries/script-engine/src/ScriptCache.cpp:51-61 | every callback of a download names a drained user and the URL. On success it hands over exactly the contents and nobody is told of an error; on failure every callback is an error |
| Scripts.ScriptCache.constructor | libraries/script-engine/src/ScriptCache.cpp:23-25 | a new cache is empty, has nobody waiting and no request in flight, and satisfies the invariant |
| Scripts.ScriptCache.GetScript | libraries/script-engine/src/ScriptCache.cpp:27-43 | a hit returns the cached contents, is not pending, and tells the user once, leaving both maps unchanged. A miss is pending, returns the empty string, appends the user to those waiting for the URL and issues a request; the cache is unchanged either way |
| Scripts.ScriptCache.NotifyAll | libraries/script-engine/src/ScriptCache.cpp:54-61 | the callback loop appends `Notices` of the drained users to the log and changes nothing else |
| Scripts.ScriptCache.ScriptDownloaded | libraries/script-engine/src/ScriptCache.cpp:45-64 | afterwards nobody waits for the URL, whatever the outcome, and one request is no longer in flight. A download succeeded (`Succeeded`) when the reply had no network error and HTTP status 200. On success the URL maps to the body; on failure the cache is unchanged. The drained users, newest first, get their callbacks. Other URLs' entries are untouched and the invariant is kept |

`ScriptCache.Valid`, the invariant every method keeps, holds three things:
- the multimap has no empty entry;
- every waiting user has a request in flight for its URL;
- no URL is both cached and waited for.

A URL that `ScriptDownloaded` caches is therefore a hit for every later `GetScript`:
`isPending` is false exactly when the URL was in the cache.

## Left out

- Sockets and `writeDatagram` are not modelled. A send is an entry `(receiver UUID,
  socket, bytes)` in the returned log, and send failures are not modelled.
- `NodeList` internals are not modelled: `updateNodeWithData`, `processKillNode`,
  `processNodeData`, `broadcastToNodes` and the node hash itself.
  - The node hash is a sequence of `Node` objects. Nothing in the sequence forces
    the UUIDs to differ. Broadcast.ReceiverGetsOtherRecords assumes they do
    (`DistinctUuids`). Nodes.NodeWithUuidOfMember and
    AvatarMixer.HeadDataUpdatesSender assume only that no earlier node shares the
    UUID in question.
  - Handing a datagram to a handler is a `Route` value.
  - The kill notice is a packet with its audience set; the audience is the
    avatar-mixer node type, as written.
- The `AvatarData` codec lies outside the model. Its broadcast bytes are a payload held
  by the node's linked data.
  - Broadcast.BroadcastAvatarData requires that a header and any one record fit in
    MAX_PACKET_SIZE.
  - Beyond that bound the source would overrun its buffers, and the model does not
    define that case.
- PacketHeaders.h, SharedUtil.h, UUID.h, NodeList and AvatarData are not part of this
  model. Their constants are assumed:
  - MAX_PACKET_SIZE is 1500;
  - the tags are 'H' (HEAD_DATA), 'K' (KILL_AVATAR) and 'X' (BULK_AVATAR_DATA);
  - a header is two bytes, the tag and version 0, so `numBytesForPacketHeader` is 2.

  The routing lemmas depend only on the tags being distinct.
- The two `foreach` loops of a pass see one enumeration of the node hash.
  - Other threads changing the node hash during a pass are not modelled.
  - The static buffers are not modelled either: the method allocates its arrays.
- `AVATAR_DATA_SEND_INTERVAL_USECS` is computed in floating point in the source. The
  model uses its truncated value, 16666.
- The clock, `processEvents` and `usleep` are not modelled.
  - The start time and each tick's `usecTimestampNow()` are inputs, and so is whether
    event processing set `_isFinished`.
  - The node set is left unchanged by events.
  - A sleep is recorded, not performed.
- AvatarMixer.Run: runs over a finite trace of ticks, so a trace that ends before
  `_isFinished` is set stops the loop early. It requires fewer than 2^31 ticks, because
  the source's `int` frame counter would overflow beyond that (undefined behaviour).
  The logged overrun is the mathematical negation, including for INT_MIN.
- AvatarMixer.UsecToSleepIsTimeToDeadline: covers only differences that fit in an `int`.
  - In the source, the whole 64-bit expression `start + product - now` is truncated
    when it is assigned to `int usecToSleep`.
  - A larger difference, such as after a clock jump of more than about 35 minutes,
    gives a wrapped value. `UsecToSleep` models that value and the lemmas do not
    characterize it further.
- Script contents are strings. The reply body's conversion from bytes to `QString` is
  not modelled.
  - A reply carries its URL, whether it had no network error, and its HTTP status
    attribute (absent when none was set).
  - Replies are matched to requests by URL only. The user-agent header,
    `deleteLater` and the signal wiring are not modelled.
- The drained list is newest first. That is the order of `QMultiHash::values`, and
  ScriptCache.h, which declares the multimap, is not part of this model.
- AvatarMixer.PacketTag: reading `dataByteArray[0]` of an empty `QByteArray` breaks
  the precondition of `operator[]`. Debug builds assert there. The model gives the
  terminating NUL that a release build reads.
- Scripts.ScriptCache.NotifyAll: the callbacks on script users
  (`scriptContentsAvailable`, `errorInLoadingScript`) are inert log entries. A callback
  that re-enters `getScript` or otherwise changes the cache is not modelled.
- `nodeKilled` sends a notice only for an agent node with linked data
  (AvatarMixer.cpp:121-122).
