/**
 * The avatar mixer's handlers around the broadcast pass: attaching avatar
 * data to new nodes, the kill notice for a departed avatar, routing of
 * incoming datagrams, and the frame schedule of the main loop.
 */
module AvatarMixer {
  import opened Wire
  import opened Nodes
  import opened Broadcast
  import opened Wrappers

  // ----- attachAvatarDataToNode -----

  /** The linked data of a node after attachment: what it had, or else the new data. */
  function Attached(linkedData: Option<AvatarData>, created: AvatarData): (r: Option<AvatarData>)
    ensures r.Some?
    ensures linkedData.Some? ==> r == linkedData
    ensures linkedData.None? ==> r == Some(created)
  {
    if linkedData.None? then Some(created) else linkedData
  }

  /**
   * `attachAvatarDataToNode`: a node without linked data is given a fresh
   * `AvatarData` (whose broadcast bytes are `created`); a node that has
   * linked data keeps it.
   */
  method AttachAvatarDataToNode(newNode: Node, created: AvatarData)
    modifies newNode
    ensures newNode.linkedData == Attached(old(newNode.linkedData), created)
    ensures newNode.activeSocket == old(newNode.activeSocket)
  {
    if newNode.linkedData.None? {
      newNode.linkedData := Some(created);
    }
  }

  /** Attaching twice is attaching once, whatever the second new data would be. */
  lemma AttachIdempotent(linkedData: Option<AvatarData>, first: AvatarData, second: AvatarData)
    ensures Attached(Attached(linkedData, first), second) == Attached(linkedData, first)
  {
  }

  // ----- nodeKilled -----

  /** A packet and the node types it is broadcast to. */
  datatype KillNotice = KillNotice(packet: seq<Byte>, audience: set<NodeType>)

  /**
   * What `nodeKilled` broadcasts for a departed node: nothing unless it is
   * an agent with linked data; then the KILL_AVATAR header followed by the
   * node's UUID, sent to the avatar-mixer nodes.
   */
  function KillNoticeFor(killed: NodeView): (r: Option<KillNotice>)
    ensures r.Some? <==> killed.nodeType == Agent && killed.linkedData.Some?
    ensures r.Some? ==> |r.value.packet| == NUM_HEADER_BYTES + NUM_BYTES_RFC4122_UUID
    ensures r.Some? ==> r.value.packet[..NUM_HEADER_BYTES] == Header(PACKET_TYPE_KILL_AVATAR)
    ensures r.Some? ==> r.value.packet[NUM_HEADER_BYTES..] == killed.uuid
    ensures r.Some? ==> r.value.audience == {AvatarMixerNode}
  {
    if killed.nodeType == Agent && killed.linkedData.Some? then
      Some(KillNotice(Header(PACKET_TYPE_KILL_AVATAR) + killed.uuid, {AvatarMixerNode}))
    else
      None
  }

  /** `AvatarMixer::nodeKilled`: the packet is assembled in a stack buffer. */
  method NodeKilled(killedNode: Node) returns (notice: Option<KillNotice>)
    ensures notice == KillNoticeFor(killedNode.View())
  {
    if killedNode.nodeType == Agent && killedNode.linkedData.Some? {
      var packetData := new Byte[MAX_PACKET_SIZE];
      var numHeaderBytes := PopulateTypeAndVersion(packetData, PACKET_TYPE_KILL_AVATAR);
      var rfcUuid := killedNode.uuid;
      Memcpy(packetData, numHeaderBytes, rfcUuid);
      var packet := packetData[..numHeaderBytes + NUM_BYTES_RFC4122_UUID];
      assert packet == packetData[..numHeaderBytes] + packetData[numHeaderBytes..numHeaderBytes + NUM_BYTES_RFC4122_UUID];
      notice := Some(KillNotice(packet, {AvatarMixerNode}));
    } else {
      notice := None;
    }
  }

  // ----- processDatagram -----

  /** The handler a datagram is given to. */
  datatype Route =
    | UpdateNode(node: Node, sender: SockAddr, datagram: seq<Byte>)  // `updateNodeWithData`
    | Dropped                                                         // HEAD_DATA for an unknown UUID
    | KillNode(datagram: seq<Byte>)                                   // `processKillNode`
    | NodeData(sender: SockAddr, datagram: seq<Byte>)                 // `processNodeData`

  /**
   * `dataByteArray[0]`: the first byte; an empty `QByteArray` reads its
   * terminating NUL.
   */
  function PacketTag(datagram: seq<Byte>): (t: Byte)
    ensures |datagram| > 0 ==> t == datagram[0]
    ensures |datagram| == 0 ==> t == 0
  {
    if |datagram| == 0 then 0 else datagram[0]
  }

  /**
   * `AvatarMixer::processDatagram`: HEAD_DATA updates the node whose UUID
   * follows the header, if the node list knows it; KILL_AVATAR goes to
   * `processKillNode`; every other tag goes to `processNodeData`.
   */
  function ProcessDatagram(datagram: seq<Byte>, senderSockAddr: SockAddr, nodes: seq<Node>): (r: Route)
    ensures r.UpdateNode? <==>
      PacketTag(datagram) == PACKET_TYPE_HEAD_DATA && NodeWithUuid(nodes, UuidAfterHeader(datagram)).Some?
    ensures r.UpdateNode? ==> r.node in nodes && r.node.uuid == UuidAfterHeader(datagram)
    ensures r.UpdateNode? ==> r.sender == senderSockAddr && r.datagram == datagram
    ensures r.Dropped? <==>
      && PacketTag(datagram) == PACKET_TYPE_HEAD_DATA
      && forall i :: 0 <= i < |nodes| ==> nodes[i].uuid != UuidAfterHeader(datagram)
    ensures r.KillNode? <==> PacketTag(datagram) == PACKET_TYPE_KILL_AVATAR
    ensures r.KillNode? ==> r.datagram == datagram
    ensures r.NodeData? <==>
      PacketTag(datagram) != PACKET_TYPE_HEAD_DATA && PacketTag(datagram) != PACKET_TYPE_KILL_AVATAR
    ensures r.NodeData? ==> r.sender == senderSockAddr && r.datagram == datagram
  {
    var tag := PacketTag(datagram);
    if tag == PACKET_TYPE_HEAD_DATA then
      match NodeWithUuid(nodes, UuidAfterHeader(datagram))
      case Some(avatarNode) => UpdateNode(avatarNode, senderSockAddr, datagram)
      case None => Dropped
    else if tag == PACKET_TYPE_KILL_AVATAR then
      KillNode(datagram)
    else
      NodeData(senderSockAddr, datagram)
  }

  /** An empty datagram reads tag 0, which no handler claims, so it is node data. */
  lemma EmptyDatagramIsNodeData(senderSockAddr: SockAddr, nodes: seq<Node>)
    ensures ProcessDatagram([], senderSockAddr, nodes) == NodeData(senderSockAddr, [])
  {
    assert PacketTag([]) == 0;
  }

  /**
   * A HEAD_DATA datagram carrying a node's UUID updates that node, when no
   * node before it in the node hash has the same UUID.
   */
  lemma HeadDataUpdatesSender(nodes: seq<Node>, i: nat, senderSockAddr: SockAddr, payload: seq<Byte>)
    requires i < |nodes| && forall j :: 0 <= j < i ==> nodes[j].uuid != nodes[i].uuid
    ensures ProcessDatagram(Header(PACKET_TYPE_HEAD_DATA) + nodes[i].uuid + payload, senderSockAddr, nodes)
      == UpdateNode(nodes[i], senderSockAddr, Header(PACKET_TYPE_HEAD_DATA) + nodes[i].uuid + payload)
  {
    var datagram := Header(PACKET_TYPE_HEAD_DATA) + nodes[i].uuid + payload;
    UuidAfterHeaderOfPacket(PACKET_TYPE_HEAD_DATA, nodes[i].uuid, payload);
    NodeWithUuidOfMember(nodes, i);
    assert PacketTag(datagram) == PACKET_TYPE_HEAD_DATA;
    assert NodeWithUuid(nodes, UuidAfterHeader(datagram)) == Some(nodes[i]);
  }

  /**
   * A HEAD_DATA datagram too short to carry a UUID is looked up under the
   * null UUID: it is dropped unless some node has the null UUID.
   */
  lemma ShortHeadDataLooksUpNilUuid(datagram: seq<Byte>, senderSockAddr: SockAddr, nodes: seq<Node>)
    requires PacketTag(datagram) == PACKET_TYPE_HEAD_DATA
    requires |datagram| < NUM_HEADER_BYTES + NUM_BYTES_RFC4122_UUID
    requires forall i :: 0 <= i < |nodes| ==> nodes[i].uuid != NilUuid()
    ensures ProcessDatagram(datagram, senderSockAddr, nodes) == Dropped
  {
    assert |Mid(datagram, NUM_HEADER_BYTES, NUM_BYTES_RFC4122_UUID)| < NUM_BYTES_RFC4122_UUID;
  }

  /** The kill notice a mixer sends is routed to `processKillNode` and names the killed node. */
  lemma KillNoticeRoundTrip(killed: NodeView, senderSockAddr: SockAddr, nodes: seq<Node>)
    requires KillNoticeFor(killed).Some?
    ensures ProcessDatagram(KillNoticeFor(killed).value.packet, senderSockAddr, nodes)
      == KillNode(KillNoticeFor(killed).value.packet)
    ensures UuidAfterHeader(KillNoticeFor(killed).value.packet) == killed.uuid
  {
    UuidAfterHeaderOfPacket(PACKET_TYPE_KILL_AVATAR, killed.uuid, []);
    assert Header(PACKET_TYPE_KILL_AVATAR) + killed.uuid + [] == KillNoticeFor(killed).value.packet;
  }

  /** The bulk avatar data the mixer itself sends falls to `processNodeData` if echoed back. */
  lemma BulkDataIsNodeData(d: Datagram, senderSockAddr: SockAddr, nodes: seq<Node>)
    requires NUM_HEADER_BYTES <= |d.bytes| && d.bytes[..NUM_HEADER_BYTES] == Header(PACKET_TYPE_BULK_AVATAR_DATA)
    ensures ProcessDatagram(d.bytes, senderSockAddr, nodes) == NodeData(senderSockAddr, d.bytes)
  {
    assert d.bytes[0] == d.bytes[..NUM_HEADER_BYTES][0];
  }

  // ----- run: the frame schedule -----

  /** `AVATAR_DATA_SEND_INTERVAL_USECS`: (1 / 60.0) s in microseconds, truncated. */
  const AVATAR_DATA_SEND_INTERVAL_USECS: nat := 16666

  const TWO_TO_THE_32: int := 0x1_0000_0000
  const INT32_MIN: int := -0x8000_0000
  const INT32_MAX: int := 0x7FFF_FFFF

  /** Conversion of a wider integer to `int`: two's complement truncation to 32 bits. */
  function ToInt32(x: int): (r: int)
    ensures INT32_MIN <= r <= INT32_MAX
    ensures (r - x) % TWO_TO_THE_32 == 0
    ensures INT32_MIN <= x <= INT32_MAX ==> r == x
  {
    var m := x % TWO_TO_THE_32;
    if m > INT32_MAX then m - TWO_TO_THE_32 else m
  }

  lemma ModShift(x: int, q: int)
    ensures (x + q * TWO_TO_THE_32) % TWO_TO_THE_32 == x % TWO_TO_THE_32
  {
  }

  /**
   * Reducing one summand modulo 2^32 before truncating to 32 bits changes
   * nothing modulo 2^32: the truncated value stays congruent to the exact one.
   */
  lemma WrapCancels(startUsecs: nat, p: nat, nowUsecs: nat)
    ensures (ToInt32(startUsecs + p % TWO_TO_THE_32 - nowUsecs) - (startUsecs + p - nowUsecs)) % TWO_TO_THE_32 == 0
  {
    var wide := startUsecs + p % TWO_TO_THE_32 - nowUsecs;
    var exact := startUsecs + p - nowUsecs;
    assert p == (p / TWO_TO_THE_32) * TWO_TO_THE_32 + p % TWO_TO_THE_32;
    assert wide == exact - (p / TWO_TO_THE_32) * TWO_TO_THE_32;
    var r := ToInt32(wide);
    ModShift(r - wide, -(p / TWO_TO_THE_32));
  }

  /**
   * `usecToSleep` for frame `frame` at time `now`: `++nextFrame` times the
   * unsigned interval wraps at 32 bits, is added to the start time, the
   * current time is subtracted, and the result is truncated to `int`. It is
   * an `int` congruent modulo 2^32 to the exact time left to the deadline.
   */
  function UsecToSleep(startUsecs: nat, frame: nat, nowUsecs: nat): (r: int)
    ensures INT32_MIN <= r <= INT32_MAX
    ensures (r - (startUsecs + frame * AVATAR_DATA_SEND_INTERVAL_USECS - nowUsecs)) % TWO_TO_THE_32 == 0
  {
    WrapCancels(startUsecs, frame * AVATAR_DATA_SEND_INTERVAL_USECS, nowUsecs);
    ToInt32(startUsecs + (frame * AVATAR_DATA_SEND_INTERVAL_USECS) % TWO_TO_THE_32 - nowUsecs)
  }

  /**
   * The two wrap-arounds cancel: whenever the time left to the deadline
   * `start + frame * interval` fits in an `int`, `usecToSleep` is exactly
   * that time, even after the product has wrapped.
   */
  lemma UsecToSleepIsTimeToDeadline(startUsecs: nat, frame: nat, nowUsecs: nat)
    requires INT32_MIN <= startUsecs + frame * AVATAR_DATA_SEND_INTERVAL_USECS - nowUsecs <= INT32_MAX
    ensures UsecToSleep(startUsecs, frame, nowUsecs)
      == startUsecs + frame * AVATAR_DATA_SEND_INTERVAL_USECS - nowUsecs
  {
    var r := UsecToSleep(startUsecs, frame, nowUsecs);
    var exact := startUsecs + frame * AVATAR_DATA_SEND_INTERVAL_USECS - nowUsecs;
    assert -TWO_TO_THE_32 < r - exact < TWO_TO_THE_32;
  }

  /** What the loop does after a frame's broadcast. */
  datatype Pause = Sleep(usecs: int) | Overrun(usecs: int)

  /** `usleep` when there is time left; otherwise the overrun is logged. */
  function PauseFor(usecToSleep: int): (p: Pause)
    ensures p.Sleep? <==> usecToSleep > 0
    ensures p.Sleep? ==> p.usecs == usecToSleep
    ensures p.Overrun? ==> p.usecs == -usecToSleep && p.usecs >= 0
  {
    if usecToSleep > 0 then Sleep(usecToSleep) else Overrun(-usecToSleep)
  }

  /** A sleep lasts until the frame's deadline, which overruns of earlier frames do not move. */
  lemma SleepEndsAtDeadline(startUsecs: nat, frame: nat, nowUsecs: nat)
    requires INT32_MIN <= startUsecs + frame * AVATAR_DATA_SEND_INTERVAL_USECS - nowUsecs <= INT32_MAX
    requires PauseFor(UsecToSleep(startUsecs, frame, nowUsecs)).Sleep?
    ensures nowUsecs + PauseFor(UsecToSleep(startUsecs, frame, nowUsecs)).usecs
      == startUsecs + frame * AVATAR_DATA_SEND_INTERVAL_USECS
  {
    UsecToSleepIsTimeToDeadline(startUsecs, frame, nowUsecs);
  }

  /** When there is no time left, the overrun logged is how far past its deadline the frame ended. */
  lemma OverrunIsLateness(startUsecs: nat, frame: nat, nowUsecs: nat)
    requires INT32_MIN <= startUsecs + frame * AVATAR_DATA_SEND_INTERVAL_USECS - nowUsecs <= INT32_MAX
    requires PauseFor(UsecToSleep(startUsecs, frame, nowUsecs)).Overrun?
    ensures nowUsecs >= startUsecs + frame * AVATAR_DATA_SEND_INTERVAL_USECS
    ensures PauseFor(UsecToSleep(startUsecs, frame, nowUsecs)).usecs
      == nowUsecs - (startUsecs + frame * AVATAR_DATA_SEND_INTERVAL_USECS)
  {
    UsecToSleepIsTimeToDeadline(startUsecs, frame, nowUsecs);
  }

  /**
   * What one pass through the loop body observes: whether `_isFinished`
   * was set while events were processed, and `usecTimestampNow()` after
   * the broadcast.
   */
  datatype Tick = Tick(finishedAfterEvents: bool, nowUsecs: nat)

  /** One frame of the loop: its number, the datagrams broadcast, and the pause after them. */
  datatype Frame = Frame(number: nat, sent: seq<Datagram>, pause: Pause)

  /** One frame of the loop body: the broadcast pass, then the pause to the frame's deadline. */
  method RunFrame(nodes: seq<Node>, ghost pass: seq<Datagram>, startUsecs: nat, nextFrame: nat, nowUsecs: nat)
    returns (frame: Frame)
    requires RecordsFit(Snapshot(nodes)) && pass == BroadcastPass(Snapshot(nodes))
    ensures frame == Frame(nextFrame, pass, PauseFor(UsecToSleep(startUsecs, nextFrame, nowUsecs)))
  {
    var sent, _ := BroadcastAvatarData(nodes);
    var frameOffset := (nextFrame * AVATAR_DATA_SEND_INTERVAL_USECS) % TWO_TO_THE_32;
    var usecToSleep := ToInt32(startUsecs + frameOffset - nowUsecs);
    frame := Frame(nextFrame, sent, PauseFor(usecToSleep));
  }

  /**
   * The deadline and stop logic of `AvatarMixer::run`, over a finite trace
   * of ticks. `_isFinished` is tested before and after each round of event
   * processing; frame `k` (counted from 1) broadcasts and then sleeps until
   * `start + k * interval`. The node set is not changed by the events of
   * the trace.
   */
  method Run(nodes: seq<Node>, startUsecs: nat, finishedAtStart: bool, trace: seq<Tick>)
    returns (frames: seq<Frame>)
    requires RecordsFit(Snapshot(nodes))
    requires |trace| <= INT32_MAX
    ensures |frames| <= |trace|
    ensures finishedAtStart ==> frames == []
    ensures forall k :: 0 <= k < |frames| ==> !trace[k].finishedAfterEvents
    ensures !finishedAtStart && |frames| < |trace| ==> trace[|frames|].finishedAfterEvents
    ensures forall k :: 0 <= k < |frames| ==>
      frames[k] == Frame(k + 1, BroadcastPass(Snapshot(nodes)),
                         PauseFor(UsecToSleep(startUsecs, k + 1, trace[k].nowUsecs)))
  {
    ghost var pass := BroadcastPass(Snapshot(nodes));
    var nextFrame := 0;
    var isFinished := finishedAtStart;
    frames := [];
    while !isFinished && nextFrame < |trace|
      invariant 0 <= nextFrame <= |trace| && |frames| == nextFrame
      invariant nextFrame > 0 ==> !isFinished
      invariant nextFrame == 0 ==> isFinished == finishedAtStart
      invariant forall k :: 0 <= k < nextFrame ==>
        && !trace[k].finishedAfterEvents
        && frames[k] == Frame(k + 1, pass, PauseFor(UsecToSleep(startUsecs, k + 1, trace[k].nowUsecs)))
    {
      var tick := trace[nextFrame];
      isFinished := tick.finishedAfterEvents;
      if isFinished {
        break;
      }
      nextFrame := nextFrame + 1;
      var frame := RunFrame(nodes, pass, startUsecs, nextFrame, tick.nowUsecs);
      frames := frames + [frame];
    }
  }
}
