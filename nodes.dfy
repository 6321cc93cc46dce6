/**
 * The slice of the node directory (`NodeList`, `Node`) the avatar mixer
 * depends on: a node's identity and type, its active socket, and the
 * avatar data linked to it.
 */
module Nodes {
  import opened Wire
  import opened Wrappers

  datatype NodeType = Agent | AvatarMixerNode | OtherNodeType

  /** A socket address (host and port); opaque to the mixer. */
  datatype SockAddr = SockAddr(host: nat, port: nat)

  /**
   * The avatar state linked to a node. Its codec is not modelled: all the
   * mixer uses is the byte string `getBroadcastData` writes for it.
   */
  datatype AvatarData = AvatarData(broadcastData: seq<Byte>)

  /** What one enumeration of the node hash sees of a node. */
  datatype NodeView = NodeView(
    uuid: Uuid,
    nodeType: NodeType,
    linkedData: Option<AvatarData>,
    activeSocket: Option<SockAddr>)

  /** A node of the directory; the mixer changes only its linked data. */
  class Node {
    const uuid: Uuid
    const nodeType: NodeType
    var linkedData: Option<AvatarData>
    var activeSocket: Option<SockAddr>

    constructor (uuid: Uuid, nodeType: NodeType, activeSocket: Option<SockAddr>)
      ensures this.uuid == uuid && this.nodeType == nodeType
      ensures this.activeSocket == activeSocket && linkedData == None
    {
      this.uuid := uuid;
      this.nodeType := nodeType;
      this.activeSocket := activeSocket;
      linkedData := None;
    }

    function View(): NodeView
      reads this
    {
      NodeView(uuid, nodeType, linkedData, activeSocket)
    }
  }

  /** The node hash enumerated once, in its iteration order. */
  ghost function Snapshot(nodes: seq<Node>): (view: seq<NodeView>)
    reads nodes
    ensures |view| == |nodes|
    ensures forall i :: 0 <= i < |nodes| ==> view[i] == nodes[i].View()
  {
    if nodes == [] then [] else [nodes[0].View()] + Snapshot(nodes[1..])
  }

  /** A sequence of views that agrees with the nodes element by element is their snapshot. */
  lemma SnapshotIs(nodes: seq<Node>, view: seq<NodeView>)
    requires |view| == |nodes| && forall k :: 0 <= k < |nodes| ==> view[k] == nodes[k].View()
    ensures Snapshot(nodes) == view
  {
  }

  /** The node hash is keyed by UUID: no two nodes of an enumeration share one. */
  predicate DistinctUuids(view: seq<NodeView>)
  {
    forall i, j :: 0 <= i < j < |view| ==> view[i].uuid != view[j].uuid
  }

  /** `NodeList::nodeWithUUID`: the node with that UUID, if there is one. */
  function NodeWithUuid(nodes: seq<Node>, id: Uuid): (r: Option<Node>)
    ensures r.Some? ==> r.value in nodes && r.value.uuid == id
    ensures r.None? <==> forall i :: 0 <= i < |nodes| ==> nodes[i].uuid != id
  {
    if nodes == [] then None
    else if nodes[0].uuid == id then Some(nodes[0])
    else NodeWithUuid(nodes[1..], id)
  }

  /**
   * The lookup finds the first node with the UUID: when no node before
   * `nodes[i]` shares its UUID (as when UUIDs are unique), it finds `nodes[i]`.
   */
  lemma {:induction false} NodeWithUuidOfMember(nodes: seq<Node>, i: nat)
    requires i < |nodes| && forall j :: 0 <= j < i ==> nodes[j].uuid != nodes[i].uuid
    ensures NodeWithUuid(nodes, nodes[i].uuid) == Some(nodes[i])
  {
    if i > 0 {
      assert nodes[0].uuid != nodes[i].uuid;
      assert nodes[1..][i - 1] == nodes[i];
      forall j | 0 <= j < i - 1
        ensures nodes[1..][j].uuid != nodes[1..][i - 1].uuid
      {
        assert nodes[1..][j] == nodes[j + 1];
      }
      NodeWithUuidOfMember(nodes[1..], i - 1);
    }
  }
}
