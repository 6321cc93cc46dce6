/**
 * The broadcast pass of the avatar mixer (`broadcastAvatarData` and
 * `addNodeToBroadcastPacket`): every agent with linked data and an active
 * socket is sent the records of every other node with linked data, packed
 * into as many BULK_AVATAR_DATA datagrams as the size bound demands.
 *
 * The pass is specified by functions over one enumeration of the node hash
 * (`Fanout`, `Groups`); the method fills byte arrays exactly as the source
 * does and is proved to send what those functions describe.
 */
module Broadcast {
  import opened Wire
  import opened Nodes
  import opened Wrappers

  /** A call to `writeDatagram`: the bytes, and the receiving node and its socket. */
  datatype Datagram = Datagram(receiver: Uuid, to: SockAddr, bytes: seq<Byte>)

  /** The concatenation of a sequence of sequences, in order. */
  function Flatten<T>(xss: seq<seq<T>>): seq<T>
  {
    if xss == [] then [] else Flatten(xss[..|xss| - 1]) + xss[|xss| - 1]
  }

  lemma {:induction false} FlattenConcat<T>(a: seq<seq<T>>, b: seq<seq<T>>)
    ensures Flatten(a + b) == Flatten(a) + Flatten(b)
  {
    if b == [] {
      assert a + b == a;
    } else {
      var b' := b[..|b| - 1];
      assert (a + b)[..|a + b| - 1] == a + b';
      FlattenConcat(a, b');
    }
  }

  /** A node whose data is broadcast to: linked data, an agent, an active socket. */
  predicate IsReceiver(v: NodeView)
  {
    v.linkedData.Some? && v.nodeType == Agent && v.activeSocket.Some?
  }

  /** A node whose record goes to the receiver `self`: linked data and another UUID. */
  predicate IsSender(v: NodeView, self: Uuid)
  {
    v.linkedData.Some? && v.uuid != self
  }

  /** What `addNodeToBroadcastPacket` writes: the RFC 4122 UUID, then the broadcast data. */
  function RecordOf(v: NodeView): (r: seq<Byte>)
    requires v.linkedData.Some?
    ensures |r| == NUM_BYTES_RFC4122_UUID + |v.linkedData.value.broadcastData|
    ensures r[..NUM_BYTES_RFC4122_UUID] == v.uuid
  {
    v.uuid + v.linkedData.value.broadcastData
  }

  /** The codec's bound: a header and any one record fit in a datagram. */
  predicate RecordsFit(view: seq<NodeView>)
  {
    forall i :: 0 <= i < |view| && view[i].linkedData.Some? ==>
      NUM_HEADER_BYTES + |RecordOf(view[i])| <= MAX_PACKET_SIZE
  }

  /**
   * The records a receiver `self` is owed, in enumeration order. None of
   * them carries the receiver's own UUID.
   */
  function Records(view: seq<NodeView>, self: Uuid): (rs: seq<seq<Byte>>)
    ensures |rs| <= |view|
  {
    if view == [] then []
    else Contribution(view[0], self) + Records(view[1..], self)
  }

  /** The record, if any, that the node `v` contributes to the receiver `self`. */
  function Contribution(v: NodeView, self: Uuid): seq<seq<Byte>>
  {
    if IsSender(v, self) then [RecordOf(v)] else []
  }

  /**
   * The packing of `recs` into packets, given the records `open` already in
   * the current packet: a record joins the current packet when the header,
   * the packet's records and it fit in MAX_PACKET_SIZE, and otherwise the
   * current packet is closed and the record opens the next one. The last
   * group is the packet still open at the end.
   */
  function Groups(recs: seq<seq<Byte>>, open: seq<seq<Byte>>): (gs: seq<seq<seq<Byte>>>)
    decreases |recs|
  {
    if recs == [] then [open]
    else if NUM_HEADER_BYTES + |Flatten(open)| + |recs[0]| <= MAX_PACKET_SIZE then
      Groups(recs[1..], open + [recs[0]])
    else
      [open] + Groups(recs[1..], [recs[0]])
  }

  /** The datagrams that carry `groups` to one receiver, in order. */
  function PacketsFor(receiver: Uuid, to: SockAddr, groups: seq<seq<seq<Byte>>>): (ds: seq<Datagram>)
    ensures |ds| == |groups|
  {
    if groups == [] then []
    else
      var last := Datagram(receiver, to, Header(PACKET_TYPE_BULK_AVATAR_DATA) + Flatten(groups[|groups| - 1]));
      PacketsFor(receiver, to, groups[..|groups| - 1]) + [last]
  }

  /** All datagrams one pass sends to the node `r` of the enumeration `universe`. */
  function ToReceiver(universe: seq<NodeView>, r: NodeView): seq<Datagram>
  {
    if IsReceiver(r) then PacketsFor(r.uuid, r.activeSocket.value, Groups(Records(universe, r.uuid), []))
    else []
  }

  /** The datagrams of a pass over the receivers `rs`, in send order. */
  function Fanout(universe: seq<NodeView>, rs: seq<NodeView>): seq<Datagram>
  {
    if rs == [] then []
    else Fanout(universe, rs[..|rs| - 1]) + ToReceiver(universe, rs[|rs| - 1])
  }

  /** One whole broadcast pass over one enumeration of the node hash. */
  function BroadcastPass(view: seq<NodeView>): seq<Datagram>
  {
    Fanout(view, view)
  }

  /** The datagrams of a log written to the node `id`, in order. */
  function SentTo(log: seq<Datagram>, id: Uuid): seq<Datagram>
  {
    if log == [] then []
    else SentTo(log[..|log| - 1], id) + (if log[|log| - 1].receiver == id then [log[|log| - 1]] else [])
  }

  /** The record section of a datagram: everything after the header. */
  function Body(d: Datagram): seq<Byte>
  {
    if |d.bytes| < NUM_HEADER_BYTES then [] else d.bytes[NUM_HEADER_BYTES..]
  }

  /** The concatenated record sections of a sequence of datagrams. */
  function Bodies(ds: seq<Datagram>): seq<Byte>
  {
    if ds == [] then [] else Bodies(ds[..|ds| - 1]) + Body(ds[|ds| - 1])
  }

  // ---------------------------------------------------------------------
  // Properties of the packing

  /**
   * Packing loses, duplicates and reorders no record: the groups, joined,
   * are the open records followed by the new ones.
   */
  lemma {:induction false} GroupsFlatten(recs: seq<seq<Byte>>, open: seq<seq<Byte>>)
    ensures Flatten(Groups(recs, open)) == open + recs
    decreases |recs|
  {
    if recs == [] {
      FlattenSingle(open);
    } else if NUM_HEADER_BYTES + |Flatten(open)| + |recs[0]| <= MAX_PACKET_SIZE {
      GroupsFlatten(recs[1..], open + [recs[0]]);
      assert open + [recs[0]] + recs[1..] == open + recs;
    } else {
      var later := Groups(recs[1..], [recs[0]]);
      assert Groups(recs, open) == [open] + later;
      GroupsFlatten(recs[1..], [recs[0]]);
      FlattenConcat([open], later);
      FlattenSingle(open);
      assert [recs[0]] + recs[1..] == recs;
    }
  }

  lemma FlattenSingle<T>(xs: seq<T>)
    ensures Flatten([xs]) == xs
  {
    assert Flatten([xs]) == Flatten([xs][..0]) + xs;
  }

  /**
   * Group `k` was started by an overflow: its first record did not fit in
   * the packet of group `k - 1`.
   */
  predicate StartedByOverflow(gs: seq<seq<seq<Byte>>>, k: nat)
    requires 0 < k < |gs|
  {
    gs[k] != [] && NUM_HEADER_BYTES + |Flatten(gs[k - 1])| + |gs[k][0]| > MAX_PACKET_SIZE
  }

  /**
   * Packing splits only on overflow: there is at least one packet, the open
   * records start the first, and each later packet begins with a record
   * that would have overflowed the packet before it.
   */
  lemma {:induction false} GroupsSplitOnOverflow(recs: seq<seq<Byte>>, open: seq<seq<Byte>>)
    ensures var gs := Groups(recs, open);
      && |gs| >= 1
      && |gs[0]| >= |open| && gs[0][..|open|] == open
      && forall k :: 0 < k < |gs| ==> StartedByOverflow(gs, k)
    decreases |recs|
  {
    if recs == [] {
    } else if NUM_HEADER_BYTES + |Flatten(open)| + |recs[0]| <= MAX_PACKET_SIZE {
      GroupsSplitOnOverflow(recs[1..], open + [recs[0]]);
      var gs := Groups(recs[1..], open + [recs[0]]);
      assert gs[0][..|open|] == gs[0][..|open| + 1][..|open|];
    } else {
      GroupsSplitOnOverflow(recs[1..], [recs[0]]);
      var tail := Groups(recs[1..], [recs[0]]);
      var gs := [open] + tail;
      assert tail[0][..1] == [recs[0]];
      forall k | 0 < k < |gs|
        ensures StartedByOverflow(gs, k)
      {
        if k > 1 {
          assert StartedByOverflow(tail, k - 1);
          assert gs[k - 1] == tail[k - 2] && gs[k] == tail[k - 1];
        }
      }
    }
  }

  /**
   * Packing respects the size bound: when the open packet and every single
   * record fit with a header, every packet fits.
   */
  lemma {:induction false} GroupsFit(recs: seq<seq<Byte>>, open: seq<seq<Byte>>)
    requires NUM_HEADER_BYTES + |Flatten(open)| <= MAX_PACKET_SIZE
    requires forall k :: 0 <= k < |recs| ==> NUM_HEADER_BYTES + |recs[k]| <= MAX_PACKET_SIZE
    ensures forall k :: 0 <= k < |Groups(recs, open)| ==>
      NUM_HEADER_BYTES + |Flatten(Groups(recs, open)[k])| <= MAX_PACKET_SIZE
    decreases |recs|
  {
    if recs == [] {
    } else if NUM_HEADER_BYTES + |Flatten(open)| + |recs[0]| <= MAX_PACKET_SIZE {
      assert (open + [recs[0]])[..|open|] == open;
      GroupsFit(recs[1..], open + [recs[0]]);
    } else {
      assert Flatten([recs[0]]) == Flatten([recs[0]][..0]) + recs[0];
      GroupsFit(recs[1..], [recs[0]]);
    }
  }

  /** The number of records of `recs` that find no room in the packet before them. */
  function Overflows(recs: seq<seq<Byte>>, open: seq<seq<Byte>>): nat
    decreases |recs|
  {
    if recs == [] then 0
    else if NUM_HEADER_BYTES + |Flatten(open)| + |recs[0]| <= MAX_PACKET_SIZE then
      Overflows(recs[1..], open + [recs[0]])
    else
      1 + Overflows(recs[1..], [recs[0]])
  }

  /** One packet is written at the end, and one more for each overflow. */
  lemma {:induction false} GroupsCount(recs: seq<seq<Byte>>, open: seq<seq<Byte>>)
    ensures |Groups(recs, open)| == 1 + Overflows(recs, open)
    decreases |recs|
  {
    if recs == [] {
    } else if NUM_HEADER_BYTES + |Flatten(open)| + |recs[0]| <= MAX_PACKET_SIZE {
      GroupsCount(recs[1..], open + [recs[0]]);
    } else {
      GroupsCount(recs[1..], [recs[0]]);
    }
  }

  // ---------------------------------------------------------------------
  // Properties of a whole pass

  lemma {:induction false} PacketsForShape(receiver: Uuid, to: SockAddr, gs: seq<seq<seq<Byte>>>, k: nat)
    requires k < |gs|
    ensures PacketsFor(receiver, to, gs)[k] ==
      Datagram(receiver, to, Header(PACKET_TYPE_BULK_AVATAR_DATA) + Flatten(gs[k]))
  {
    if k < |gs| - 1 {
      assert gs[..|gs| - 1][k] == gs[k];
      PacketsForShape(receiver, to, gs[..|gs| - 1], k);
    }
  }

  /**
   * A receiver is sent one packet per overflow plus the final one, possibly
   * header-only; any other node is sent none.
   */
  lemma ToReceiverCount(universe: seq<NodeView>, r: NodeView)
    ensures IsReceiver(r) ==> |ToReceiver(universe, r)| == 1 + Overflows(Records(universe, r.uuid), [])
    ensures !IsReceiver(r) ==> ToReceiver(universe, r) == []
  {
    GroupsCount(Records(universe, r.uuid), []);
  }

  /**
   * Every datagram a receiver is sent starts with the BULK_AVATAR_DATA
   * header and is at most MAX_PACKET_SIZE bytes long.
   */
  lemma ToReceiverBounded(universe: seq<NodeView>, r: NodeView)
    requires RecordsFit(universe)
    ensures forall k :: 0 <= k < |ToReceiver(universe, r)| ==>
      var d := ToReceiver(universe, r)[k];
      && d.receiver == r.uuid && IsReceiver(r) && d.to == r.activeSocket.value
      && NUM_HEADER_BYTES <= |d.bytes| <= MAX_PACKET_SIZE
      && d.bytes[..NUM_HEADER_BYTES] == Header(PACKET_TYPE_BULK_AVATAR_DATA)
  {
    if IsReceiver(r) {
      var recs := Records(universe, r.uuid);
      var gs := Groups(recs, []);
      RecordsEachFit(universe, r.uuid);
      GroupsFit(recs, []);
      assert ToReceiver(universe, r) == PacketsFor(r.uuid, r.activeSocket.value, gs);
      forall k | 0 <= k < |gs|
        ensures var d := ToReceiver(universe, r)[k];
          && d.receiver == r.uuid && d.to == r.activeSocket.value
          && NUM_HEADER_BYTES <= |d.bytes| <= MAX_PACKET_SIZE
          && d.bytes[..NUM_HEADER_BYTES] == Header(PACKET_TYPE_BULK_AVATAR_DATA)
      {
        PacketsForShape(r.uuid, r.activeSocket.value, gs, k);
        var bytes := Header(PACKET_TYPE_BULK_AVATAR_DATA) + Flatten(gs[k]);
        assert bytes[..NUM_HEADER_BYTES] == Header(PACKET_TYPE_BULK_AVATAR_DATA);
        assert NUM_HEADER_BYTES + |Flatten(gs[k])| <= MAX_PACKET_SIZE;
        assert ToReceiver(universe, r)[k].bytes == bytes;
      }
    } else {
      assert ToReceiver(universe, r) == [];
    }
  }

  lemma {:induction false} FanoutBounded(universe: seq<NodeView>, rs: seq<NodeView>)
    requires RecordsFit(universe)
    ensures forall k :: 0 <= k < |Fanout(universe, rs)| ==>
      && NUM_HEADER_BYTES <= |Fanout(universe, rs)[k].bytes| <= MAX_PACKET_SIZE
      && Fanout(universe, rs)[k].bytes[..NUM_HEADER_BYTES] == Header(PACKET_TYPE_BULK_AVATAR_DATA)
  {
    if rs != [] {
      FanoutBounded(universe, rs[..|rs| - 1]);
      ToReceiverBounded(universe, rs[|rs| - 1]);
    }
  }

  /**
   * The size bound of a whole pass: every datagram written is at most
   * MAX_PACKET_SIZE bytes and starts with the BULK_AVATAR_DATA header.
   */
  lemma BroadcastPassBounded(view: seq<NodeView>)
    requires RecordsFit(view)
    ensures forall k :: 0 <= k < |BroadcastPass(view)| ==>
      && NUM_HEADER_BYTES <= |BroadcastPass(view)[k].bytes| <= MAX_PACKET_SIZE
      && BroadcastPass(view)[k].bytes[..NUM_HEADER_BYTES] == Header(PACKET_TYPE_BULK_AVATAR_DATA)
  {
    FanoutBounded(view, view);
  }

  lemma {:induction false} SentToConcat(a: seq<Datagram>, b: seq<Datagram>, id: Uuid)
    ensures SentTo(a + b, id) == SentTo(a, id) + SentTo(b, id)
  {
    if b == [] {
      assert a + b == a;
    } else {
      var b' := b[..|b| - 1];
      assert (a + b)[..|a + b| - 1] == a + b';
      SentToConcat(a, b', id);
    }
  }

  lemma {:induction false} SentToPacketsFor(receiver: Uuid, to: SockAddr, gs: seq<seq<seq<Byte>>>, id: Uuid)
    ensures SentTo(PacketsFor(receiver, to, gs), id) == if id == receiver then PacketsFor(receiver, to, gs) else []
  {
    if gs != [] {
      SentToPacketsFor(receiver, to, gs[..|gs| - 1], id);
    }
  }

  lemma {:induction false} SentToFanoutOne(universe: seq<NodeView>, rs: seq<NodeView>, i: nat)
    requires i < |rs|
    requires forall j :: 0 <= j < |rs| && j != i && IsReceiver(rs[j]) ==> rs[j].uuid != rs[i].uuid
    ensures SentTo(Fanout(universe, rs), rs[i].uuid) == ToReceiver(universe, rs[i])
  {
    var id := rs[i].uuid;
    var init, last := rs[..|rs| - 1], rs[|rs| - 1];
    SentToConcat(Fanout(universe, init), ToReceiver(universe, last), id);
    if i == |rs| - 1 {
      FanoutSkipsNonReceivers(universe, init, id);
    } else {
      SentToFanoutOne(universe, init, i);
    }
    if IsReceiver(last) {
      SentToPacketsFor(last.uuid, last.activeSocket.value, Groups(Records(universe, last.uuid), []), id);
    }
  }

  /**
   * Datagrams go only to receivers: a UUID that no agent with linked data
   * and an active socket carries is sent nothing.
   */
  lemma BroadcastPassOnlyToReceivers(view: seq<NodeView>, id: Uuid)
    requires forall j :: 0 <= j < |view| && IsReceiver(view[j]) ==> view[j].uuid != id
    ensures SentTo(BroadcastPass(view), id) == []
  {
    FanoutSkipsNonReceivers(view, view, id);
  }

  lemma {:induction false} FanoutSkipsNonReceivers(universe: seq<NodeView>, rs: seq<NodeView>, id: Uuid)
    requires forall j :: 0 <= j < |rs| && IsReceiver(rs[j]) ==> rs[j].uuid != id
    ensures SentTo(Fanout(universe, rs), id) == []
  {
    if rs != [] {
      var last := rs[|rs| - 1];
      FanoutSkipsNonReceivers(universe, rs[..|rs| - 1], id);
      SentToConcat(Fanout(universe, rs[..|rs| - 1]), ToReceiver(universe, last), id);
      if IsReceiver(last) {
        SentToPacketsFor(last.uuid, last.activeSocket.value, Groups(Records(universe, last.uuid), []), id);
      }
    }
  }

  lemma {:induction false} BodiesOfPackets(receiver: Uuid, to: SockAddr, gs: seq<seq<seq<Byte>>>)
    ensures Bodies(PacketsFor(receiver, to, gs)) == Flatten(Flatten(gs))
  {
    if gs != [] {
      var init, last := gs[..|gs| - 1], gs[|gs| - 1];
      BodiesOfPackets(receiver, to, init);
      FlattenConcat(init, [last]);
      assert Flatten([last]) == Flatten([last][..0]) + last;
      FlattenConcat(Flatten(init), last);
      var d := Datagram(receiver, to, Header(PACKET_TYPE_BULK_AVATAR_DATA) + Flatten(last));
      assert Body(d) == Flatten(last);
      assert PacketsFor(receiver, to, gs)[..|gs| - 1] == PacketsFor(receiver, to, init);
    }
  }

  /** The record sections of a receiver's packets concatenate to the records it is owed. */
  lemma ToReceiverBodies(universe: seq<NodeView>, r: NodeView)
    requires IsReceiver(r)
    ensures Bodies(ToReceiver(universe, r)) == Flatten(Records(universe, r.uuid))
  {
    var recs := Records(universe, r.uuid);
    var gs := Groups(recs, []);
    GroupsFlatten(recs, []);
    assert Flatten(gs) == recs;
    BodiesOfPackets(r.uuid, r.activeSocket.value, gs);
  }

  /**
   * Fan-out completeness: a receiver of the pass is sent exactly what
   * `ToReceiver` describes, and the record sections of its datagrams, in
   * send order, concatenate to the records of every other node with
   * linked data, in enumeration order.
   */
  lemma ReceiverGetsOtherRecords(view: seq<NodeView>, i: nat)
    requires i < |view| && IsReceiver(view[i]) && DistinctUuids(view)
    ensures SentTo(BroadcastPass(view), view[i].uuid) == ToReceiver(view, view[i])
    ensures Bodies(SentTo(BroadcastPass(view), view[i].uuid)) == Flatten(Records(view, view[i].uuid))
  {
    forall j | 0 <= j < |view| && j != i && IsReceiver(view[j])
      ensures view[j].uuid != view[i].uuid
    {
      if j < i { assert view[j].uuid != view[i].uuid; } else { assert view[i].uuid != view[j].uuid; }
    }
    SentToFanoutOne(view, view, i);
    ToReceiverBodies(view, view[i]);
  }

  /**
   * A receiver never gets its own record: every record it is owed starts
   * with a UUID other than its own.
   */
  lemma {:induction false} RecordsExcludeSelf(view: seq<NodeView>, self: Uuid)
    ensures forall k :: 0 <= k < |Records(view, self)| ==>
      |Records(view, self)[k]| >= NUM_BYTES_RFC4122_UUID
      && Records(view, self)[k][..NUM_BYTES_RFC4122_UUID] != self
  {
    if view != [] {
      RecordsExcludeSelf(view[1..], self);
    }
  }

  /** Under the codec's bound, each record fits in a datagram with a header. */
  lemma {:induction false} RecordsEachFit(view: seq<NodeView>, self: Uuid)
    requires RecordsFit(view)
    ensures forall k :: 0 <= k < |Records(view, self)| ==>
      NUM_HEADER_BYTES + |Records(view, self)[k]| <= MAX_PACKET_SIZE
  {
    if view != [] {
      assert RecordsFit(view[1..]) by {
        forall i | 0 <= i < |view[1..]| && view[1..][i].linkedData.Some?
          ensures NUM_HEADER_BYTES + |RecordOf(view[1..][i])| <= MAX_PACKET_SIZE
        {
          assert view[1..][i] == view[i + 1];
        }
      }
      RecordsEachFit(view[1..], self);
    }
  }

  /** Every other node with linked data contributes its record to a receiver. */
  lemma {:induction false} RecordsComplete(view: seq<NodeView>, self: Uuid, j: nat)
    requires j < |view| && IsSender(view[j], self)
    ensures RecordOf(view[j]) in Records(view, self)
  {
    if j > 0 {
      RecordsComplete(view[1..], self, j - 1);
    }
  }

  // ---------------------------------------------------------------------
  // The imperative pass

  /** `memcpy(dst + at, src, |src|)`. */
  method Memcpy(dst: array<Byte>, at: nat, src: seq<Byte>)
    requires at + |src| <= dst.Length
    modifies dst
    ensures dst[at..at + |src|] == src
    ensures dst[..at] == old(dst[..at])
    ensures forall m :: 0 <= m < dst.Length && !(at <= m < at + |src|) ==> dst[m] == old(dst[m])
  {
    var k := 0;
    while k < |src|
      invariant 0 <= k <= |src|
      invariant forall m :: at <= m < at + k ==> dst[m] == src[m - at]
      invariant forall m :: 0 <= m < dst.Length && !(at <= m < at + k) ==> dst[m] == old(dst[m])
    {
      dst[at + k] := src[k];
      k := k + 1;
    }
  }

  /** `populateTypeAndVersion`: writes the header and returns its length. */
  method PopulateTypeAndVersion(packet: array<Byte>, packetType: Byte) returns (numHeaderBytes: nat)
    requires NUM_HEADER_BYTES <= packet.Length
    modifies packet
    ensures numHeaderBytes == NUM_HEADER_BYTES
    ensures packet[..numHeaderBytes] == Header(packetType)
  {
    packet[0] := packetType;
    packet[1] := VersionForPacketType(packetType);
    numHeaderBytes := NUM_HEADER_BYTES;
  }

  /**
   * `addNodeToBroadcastPacket`: writes the node's UUID and then its
   * broadcast data at `position`, and returns the position after them.
   */
  method AddNodeToBroadcastPacket(buffer: array<Byte>, position: nat, nodeToAdd: Node) returns (end: nat)
    requires nodeToAdd.linkedData.Some?
    requires position + |RecordOf(nodeToAdd.View())| <= buffer.Length
    modifies buffer
    ensures end == position + |RecordOf(nodeToAdd.View())|
    ensures buffer[position..end] == RecordOf(nodeToAdd.View())
    ensures buffer[..position] == old(buffer[..position])
  {
    var rfcUuid := nodeToAdd.uuid;
    Memcpy(buffer, position, rfcUuid);
    var currentPosition := position + |rfcUuid|;
    var broadcastData := nodeToAdd.linkedData.value.broadcastData;
    Memcpy(buffer, currentPosition, broadcastData);
    end := currentPosition + |broadcastData|;
    assert buffer[position..end] == buffer[position..currentPosition] + buffer[currentPosition..end];
  }

  lemma RecordsStep(view: seq<NodeView>, j: nat, self: Uuid)
    requires j < |view|
    ensures Records(view[j..], self) == Contribution(view[j], self) + Records(view[j + 1..], self)
  {
    assert view[j..][1..] == view[j + 1..];
  }

  /** The packing bookkeeping of the inner loop, one node further. */
  lemma PackingStep(all: seq<seq<Byte>>, done: seq<seq<seq<Byte>>>, open: seq<seq<Byte>>,
                    here: seq<seq<Byte>>, later: seq<seq<Byte>>,
                    closed: seq<seq<seq<Byte>>>, newOpen: seq<seq<Byte>>)
    requires done + Groups(here, open) == Groups(all, [])
    requires Groups(here, open) == closed + Groups(later, newOpen)
    ensures (done + closed) + Groups(later, newOpen) == Groups(all, [])
  {
  }

  /** One receiver more in the outer loop. */
  lemma FanoutStep(view: seq<NodeView>, i: nat)
    requires i < |view|
    ensures Fanout(view, view[..i + 1]) == Fanout(view, view[..i]) + ToReceiver(view, view[i])
    ensures !IsReceiver(view[i]) ==> Fanout(view, view[..i + 1]) == Fanout(view, view[..i])
  {
    assert view[..i + 1][..i] == view[..i];
  }

  lemma GroupsStep(rec: seq<Byte>, rest: seq<seq<Byte>>, open: seq<seq<Byte>>)
    ensures NUM_HEADER_BYTES + |Flatten(open)| + |rec| <= MAX_PACKET_SIZE ==>
      Groups([rec] + rest, open) == Groups(rest, open + [rec])
    ensures NUM_HEADER_BYTES + |Flatten(open)| + |rec| > MAX_PACKET_SIZE ==>
      Groups([rec] + rest, open) == [open] + Groups(rest, [rec])
  {
    assert ([rec] + rest)[1..] == rest;
  }

  lemma FlattenSnoc<T>(xss: seq<seq<T>>, xs: seq<T>)
    ensures Flatten(xss + [xs]) == Flatten(xss) + xs
  {
    assert (xss + [xs])[..|xss|] == xss;
  }

  lemma PacketsForSnoc(receiver: Uuid, to: SockAddr, gs: seq<seq<seq<Byte>>>, g: seq<seq<Byte>>)
    ensures PacketsFor(receiver, to, gs + [g]) ==
      PacketsFor(receiver, to, gs) + [Datagram(receiver, to, Header(PACKET_TYPE_BULK_AVATAR_DATA) + Flatten(g))]
  {
    assert (gs + [g])[..|gs|] == gs;
  }

  lemma {:induction false} PacketsForConcat(receiver: Uuid, to: SockAddr, a: seq<seq<seq<Byte>>>, b: seq<seq<seq<Byte>>>)
    ensures PacketsFor(receiver, to, a + b) == PacketsFor(receiver, to, a) + PacketsFor(receiver, to, b)
  {
    if b == [] {
      assert a + b == a;
    } else {
      var b' := b[..|b| - 1];
      assert (a + b)[..|a + b| - 1] == a + b';
      PacketsForConcat(receiver, to, a, b');
    }
  }

  /**
   * The `memcpy` of a record from the scratch buffer to the end of the
   * packet, advancing the packet length.
   */
  method AppendRecord(broadcastPacket: array<Byte>, packetLength: nat, avatarDataBuffer: array<Byte>,
                      avatarDataLength: nat)
    returns (newLength: nat)
    requires broadcastPacket != avatarDataBuffer
    requires NUM_HEADER_BYTES <= packetLength
    requires packetLength + avatarDataLength <= broadcastPacket.Length
    requires avatarDataLength <= avatarDataBuffer.Length
    modifies broadcastPacket
    ensures newLength == packetLength + avatarDataLength
    ensures broadcastPacket[..newLength] == old(broadcastPacket[..packetLength]) + avatarDataBuffer[..avatarDataLength]
    ensures broadcastPacket[..NUM_HEADER_BYTES] == old(broadcastPacket[..NUM_HEADER_BYTES])
  {
    Memcpy(broadcastPacket, packetLength, avatarDataBuffer[..avatarDataLength]);
    newLength := packetLength + avatarDataLength;
    assert broadcastPacket[..newLength] == broadcastPacket[..packetLength] + broadcastPacket[packetLength..newLength];
    assert broadcastPacket[..NUM_HEADER_BYTES] == broadcastPacket[..packetLength][..NUM_HEADER_BYTES];
  }

  /**
   * The packet being assembled holds the BULK_AVATAR_DATA header followed by
   * the records `open`, and `packetLength` is its length.
   */
  ghost predicate PacketHolds(broadcastPacket: array<Byte>, packetLength: nat, open: seq<seq<Byte>>)
    reads broadcastPacket
  {
    && broadcastPacket.Length == MAX_PACKET_SIZE
    && packetLength == NUM_HEADER_BYTES + |Flatten(open)| <= MAX_PACKET_SIZE
    && broadcastPacket[..NUM_HEADER_BYTES] == Header(PACKET_TYPE_BULK_AVATAR_DATA)
    && broadcastPacket[..packetLength] == Header(PACKET_TYPE_BULK_AVATAR_DATA) + Flatten(open)
  }

  /** The record fits: it is copied to the end of the packet. */
  method AppendToPacket(broadcastPacket: array<Byte>, packetLength: nat,
                        avatarDataBuffer: array<Byte>, avatarDataLength: nat,
                        ghost open: seq<seq<Byte>>, ghost rec: seq<Byte>)
    returns (newLength: nat)
    requires broadcastPacket != avatarDataBuffer
    requires PacketHolds(broadcastPacket, packetLength, open)
    requires avatarDataLength <= avatarDataBuffer.Length && avatarDataBuffer[..avatarDataLength] == rec
    requires avatarDataLength + packetLength <= MAX_PACKET_SIZE
    modifies broadcastPacket
    ensures PacketHolds(broadcastPacket, newLength, open + [rec])
  {
    newLength := AppendRecord(broadcastPacket, packetLength, avatarDataBuffer, avatarDataLength);
    FlattenSnoc(open, rec);
  }

  /** The packet is reset to its header and the record copied in after it. */
  method RestartPacket(broadcastPacket: array<Byte>, numHeaderBytes: nat,
                       avatarDataBuffer: array<Byte>, avatarDataLength: nat, ghost rec: seq<Byte>)
    returns (newLength: nat)
    requires broadcastPacket != avatarDataBuffer && broadcastPacket.Length == MAX_PACKET_SIZE
    requires numHeaderBytes == NUM_HEADER_BYTES
    requires broadcastPacket[..numHeaderBytes] == Header(PACKET_TYPE_BULK_AVATAR_DATA)
    requires avatarDataLength <= avatarDataBuffer.Length && avatarDataBuffer[..avatarDataLength] == rec
    requires NUM_HEADER_BYTES + avatarDataLength <= MAX_PACKET_SIZE
    modifies broadcastPacket
    ensures PacketHolds(broadcastPacket, newLength, [rec])
  {
    var currentBufferPosition := numHeaderBytes;
    newLength := AppendRecord(broadcastPacket, currentBufferPosition, avatarDataBuffer, avatarDataLength);
    FlattenSnoc([], rec);
    assert [] + [rec] == [rec];
  }

  /** The datagram written for the current packet carries its group. */
  lemma WrittenPacket(receiver: Uuid, to: SockAddr, packet: seq<Byte>, open: seq<seq<Byte>>)
    requires packet == Header(PACKET_TYPE_BULK_AVATAR_DATA) + Flatten(open)
    ensures [Datagram(receiver, to, packet)] == PacketsFor(receiver, to, [open])
  {
    PacketsForSnoc(receiver, to, [], open);
  }

  /**
   * The body of the inner loop for one record of length `avatarDataLength`
   * sitting in the scratch buffer: it is appended when it fits; otherwise
   * the packet is written out, reset to its header, and the record is
   * copied in as the first record of the fresh packet. `closed` is the
   * group of records written out, if any.
   */
  method PlaceRecord(receiver: Uuid, to: SockAddr, broadcastPacket: array<Byte>, packetLength: nat,
                     avatarDataBuffer: array<Byte>, avatarDataLength: nat,
                     ghost open: seq<seq<Byte>>, ghost rec: seq<Byte>, ghost rest: seq<seq<Byte>>)
    returns (newLength: nat, written: seq<Datagram>, ghost newOpen: seq<seq<Byte>>, ghost closed: seq<seq<seq<Byte>>>)
    requires broadcastPacket != avatarDataBuffer
    requires PacketHolds(broadcastPacket, packetLength, open)
    requires avatarDataLength <= avatarDataBuffer.Length && avatarDataBuffer[..avatarDataLength] == rec
    requires NUM_HEADER_BYTES + |rec| <= MAX_PACKET_SIZE
    modifies broadcastPacket
    ensures PacketHolds(broadcastPacket, newLength, newOpen)
    ensures avatarDataLength + packetLength <= MAX_PACKET_SIZE ==>
      closed == [] && newOpen == open + [rec] && written == []
    ensures avatarDataLength + packetLength > MAX_PACKET_SIZE ==>
      closed == [open] && newOpen == [rec]
    ensures Groups([rec] + rest, open) == closed + Groups(rest, newOpen)
    ensures written == PacketsFor(receiver, to, closed)
  {
    GroupsStep(rec, rest, open);
    if avatarDataLength + packetLength <= MAX_PACKET_SIZE {
      newLength := AppendToPacket(broadcastPacket, packetLength, avatarDataBuffer, avatarDataLength, open, rec);
      written, newOpen, closed := [], open + [rec], [];
    } else {
      written := [Datagram(receiver, to, broadcastPacket[..packetLength])];
      WrittenPacket(receiver, to, broadcastPacket[..packetLength], open);
      newLength := RestartPacket(broadcastPacket, NUM_HEADER_BYTES, avatarDataBuffer, avatarDataLength, rec);
      newOpen, closed := [rec], [open];
    }
  }

  /**
   * One iteration of the inner loop: when `otherNode` has linked data and
   * is not the receiver, its record is built in the scratch buffer and
   * placed in the packet.
   */
  method PackNode(receiver: Uuid, to: SockAddr, otherNode: Node, ghost rest: seq<seq<Byte>>,
                  broadcastPacket: array<Byte>, avatarDataBuffer: array<Byte>, packetLength: nat,
                  ghost open: seq<seq<Byte>>)
    returns (newLength: nat, written: seq<Datagram>, ghost newOpen: seq<seq<Byte>>, ghost closed: seq<seq<seq<Byte>>>)
    requires broadcastPacket != avatarDataBuffer && avatarDataBuffer.Length == MAX_PACKET_SIZE
    requires otherNode.linkedData.Some? ==> NUM_HEADER_BYTES + |RecordOf(otherNode.View())| <= MAX_PACKET_SIZE
    requires PacketHolds(broadcastPacket, packetLength, open)
    modifies broadcastPacket, avatarDataBuffer
    ensures PacketHolds(broadcastPacket, newLength, newOpen)
    ensures !(otherNode.linkedData.Some? && otherNode.uuid != receiver) ==>
      newLength == packetLength && newOpen == open && closed == [] && written == []
    ensures Groups(Contribution(otherNode.View(), receiver) + rest, open) == closed + Groups(rest, newOpen)
    ensures written == PacketsFor(receiver, to, closed)
  {
    if otherNode.linkedData.Some? && otherNode.uuid != receiver {
      ghost var rec := RecordOf(otherNode.View());
      var avatarDataEndpoint := AddNodeToBroadcastPacket(avatarDataBuffer, 0, otherNode);
      var avatarDataLength := avatarDataEndpoint;
      newLength, written, newOpen, closed :=
        PlaceRecord(receiver, to, broadcastPacket, packetLength, avatarDataBuffer, avatarDataLength, open, rec, rest);
    } else {
      newLength, written, newOpen, closed := packetLength, [], open, [];
      assert Contribution(otherNode.View(), receiver) + rest == rest;
    }
  }

  /**
   * One iteration of the inner loop, for the node at `j` in the enumeration:
   * the packing state moves from the records owed from `j` on to those owed
   * from `j + 1` on.
   */
  method PackAt(nodes: seq<Node>, ghost view: seq<NodeView>, j: nat, receiver: Uuid, to: SockAddr,
                broadcastPacket: array<Byte>, avatarDataBuffer: array<Byte>, packetLength: nat,
                ghost open: seq<seq<Byte>>)
    returns (newLength: nat, written: seq<Datagram>, ghost newOpen: seq<seq<Byte>>, ghost closed: seq<seq<seq<Byte>>>)
    requires j < |nodes| == |view| && view[j] == nodes[j].View() && RecordsFit(view)
    requires broadcastPacket != avatarDataBuffer && avatarDataBuffer.Length == MAX_PACKET_SIZE
    requires PacketHolds(broadcastPacket, packetLength, open)
    modifies broadcastPacket, avatarDataBuffer
    ensures PacketHolds(broadcastPacket, newLength, newOpen)
    ensures Groups(Records(view[j..], receiver), open) == closed + Groups(Records(view[j + 1..], receiver), newOpen)
    ensures written == PacketsFor(receiver, to, closed)
  {
    RecordsStep(view, j, receiver);
    newLength, written, newOpen, closed :=
      PackNode(receiver, to, nodes[j], Records(view[j + 1..], receiver),
               broadcastPacket, avatarDataBuffer, packetLength, open);
  }

  /**
   * The inner loop of `broadcastAvatarData` for one receiver: packs the
   * records of the other nodes into `broadcastPacket`, writing out the
   * packet whenever the next record would overflow it, and finally writes
   * the last packet.
   */
  method SendToNode(nodes: seq<Node>, ghost view: seq<NodeView>, node: Node,
                    broadcastPacket: array<Byte>, avatarDataBuffer: array<Byte>,
                    numHeaderBytes: nat, packetsSentBefore: nat)
    returns (out: seq<Datagram>, packetsSent: nat)
    requires |view| == |nodes| && forall k :: 0 <= k < |nodes| ==> view[k] == nodes[k].View()
    requires IsReceiver(node.View()) && RecordsFit(view)
    requires broadcastPacket != avatarDataBuffer
    requires broadcastPacket.Length == MAX_PACKET_SIZE && avatarDataBuffer.Length == MAX_PACKET_SIZE
    requires numHeaderBytes == NUM_HEADER_BYTES
    requires broadcastPacket[..numHeaderBytes] == Header(PACKET_TYPE_BULK_AVATAR_DATA)
    modifies broadcastPacket, avatarDataBuffer
    ensures broadcastPacket[..numHeaderBytes] == Header(PACKET_TYPE_BULK_AVATAR_DATA)
    ensures out == ToReceiver(view, node.View())
    ensures packetsSent == packetsSentBefore + |out|
  {
    ghost var all := Records(view, node.uuid);
    var to := node.activeSocket.value;
    var packetLength := numHeaderBytes;
    ghost var open: seq<seq<Byte>> := [];
    ghost var done: seq<seq<seq<Byte>>> := [];
    out, packetsSent := [], packetsSentBefore;
    assert view[0..] == view;
    var j := 0;
    while j < |nodes|
      invariant 0 <= j <= |nodes|
      invariant PacketHolds(broadcastPacket, packetLength, open)
      invariant done + Groups(Records(view[j..], node.uuid), open) == Groups(all, [])
      invariant out == PacketsFor(node.uuid, to, done)
      invariant packetsSent == packetsSentBefore + |out|
    {
      var written;
      ghost var newOpen, closed;
      packetLength, written, newOpen, closed :=
        PackAt(nodes, view, j, node.uuid, to, broadcastPacket, avatarDataBuffer, packetLength, open);
      PackingStep(all, done, open, Records(view[j..], node.uuid), Records(view[j + 1..], node.uuid), closed, newOpen);
      PacketsForConcat(node.uuid, to, done, closed);
      packetsSent := packetsSent + |written|;
      out := out + written;
      done, open := done + closed, newOpen;
      j := j + 1;
    }
    packetsSent := packetsSent + 1;
    PacketsForSnoc(node.uuid, to, done, open);
    out := out + [Datagram(node.uuid, to, broadcastPacket[..packetLength])];
    done := done + [open];
  }

  /**
   * One iteration of the outer loop of `broadcastAvatarData`: the node
   * `nodes[i]` is sent its packets when it is a receiver (it has linked
   * data, is an agent and has an active socket).
   */
  method ServeNode(nodes: seq<Node>, ghost view: seq<NodeView>, i: nat,
                   broadcastPacket: array<Byte>, avatarDataBuffer: array<Byte>, numHeaderBytes: nat,
                   sent: seq<Datagram>, packetsSent: nat)
    returns (newSent: seq<Datagram>, newPacketsSent: nat)
    requires i < |nodes| && |view| == |nodes| && forall k :: 0 <= k < |nodes| ==> view[k] == nodes[k].View()
    requires RecordsFit(view)
    requires broadcastPacket != avatarDataBuffer
    requires broadcastPacket.Length == MAX_PACKET_SIZE && avatarDataBuffer.Length == MAX_PACKET_SIZE
    requires numHeaderBytes == NUM_HEADER_BYTES
    requires broadcastPacket[..numHeaderBytes] == Header(PACKET_TYPE_BULK_AVATAR_DATA)
    requires sent == Fanout(view, view[..i]) && packetsSent == |sent|
    modifies broadcastPacket, avatarDataBuffer
    ensures broadcastPacket[..numHeaderBytes] == Header(PACKET_TYPE_BULK_AVATAR_DATA)
    ensures newSent == Fanout(view, view[..i + 1]) && newPacketsSent == |newSent|
  {
    var node := nodes[i];
    assert node.View() == view[i];
    FanoutStep(view, i);
    if node.linkedData.Some? && node.nodeType == Agent && node.activeSocket.Some? {
      var out;
      out, newPacketsSent := SendToNode(nodes, view, node, broadcastPacket, avatarDataBuffer, numHeaderBytes, packetsSent);
      newSent := sent + out;
    } else {
      newSent, newPacketsSent := sent, packetsSent;
    }
  }

  /**
   * `broadcastAvatarData`: one pass over the node hash, sending every
   * receiver its packets. The datagrams written are those of
   * `BroadcastPass` over the enumeration, and `packetsSent` counts them.
   */
  method BroadcastAvatarData(nodes: seq<Node>) returns (sent: seq<Datagram>, packetsSent: nat)
    requires RecordsFit(Snapshot(nodes))
    ensures sent == BroadcastPass(Snapshot(nodes))
    ensures packetsSent == |sent|
  {
    ghost var view := Snapshot(nodes);
    var broadcastPacket := new Byte[MAX_PACKET_SIZE];
    var avatarDataBuffer := new Byte[MAX_PACKET_SIZE];
    var numHeaderBytes := PopulateTypeAndVersion(broadcastPacket, PACKET_TYPE_BULK_AVATAR_DATA);
    sent, packetsSent := [], 0;
    var i := 0;
    while i < |nodes|
      invariant 0 <= i <= |nodes|
      invariant broadcastPacket[..numHeaderBytes] == Header(PACKET_TYPE_BULK_AVATAR_DATA)
      invariant sent == Fanout(view, view[..i])
      invariant packetsSent == |sent|
    {
      sent, packetsSent :=
        ServeNode(nodes, view, i, broadcastPacket, avatarDataBuffer, numHeaderBytes, sent, packetsSent);
      i := i + 1;
    }
    assert view[..|nodes|] == view;
    SnapshotIs(nodes, view);
  }
}
