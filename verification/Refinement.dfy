/** The server class refines a node of the replication protocol: a protocol step at a node and
    the handler run on the bytes of that step leave the same board. */
module Refinement {
  import opened CText
  import opened Boards
  import opened Packets
  import opened Messages
  import opened Wire
  import opened Reassembly
  import opened Commands
  import opened Delivery
  import opened Replication
  import opened MsgServers

  function Text(p: Post): string { p.text }

  /** The server's history and clock are the node's, without the identity of the posts. */
  ghost predicate Mirrors(server: MsgServer, node: Node)
    reads server
  {
    server.State() == MapBoard(Text, node.board)
  }

  /** The packets of a batch as texts. */
  function OnTheWire(batch: seq<Parcel>): seq<Packet<string>> {
    MapPackets(Text, PacketsOf(batch))
  }

  /** A batch that arrives as bytes has the effect of the protocol step, replies included. */
  lemma BytesHaveStepEffect(capacity: nat, node: Node, batch: seq<Parcel>, chunks: seq<Chunk>)
    requires AllPacketsCarriable(OnTheWire(batch))
    requires Stream(chunks) == EncodeAll(OnTheWire(batch)) && Harmless(false, chunks)
    ensures OnLines(capacity, Intake(MapBoard(Text, node.board), false, []), Feed("", chunks)) ==
            MapIntake(Text, Taken(capacity, node, batch))
  {
    var t := Intake(node.board, false, []);
    assert MapIntake(Text, t) == Intake(MapBoard(Text, node.board), false, []);
    hide *;
    BatchDelivered(capacity, MapIntake(Text, t), OnTheWire(batch), chunks);
    MapTaken(capacity, node, batch);
  }

  lemma MapTaken(capacity: nat, node: Node, batch: seq<Parcel>)
    ensures HandleAll(NonEmpty, capacity, MapIntake(Text, Intake(node.board, false, [])), OnTheWire(batch)) ==
            MapIntake(Text, Taken(capacity, node, batch))
  {
    MapHandleAll(Text, Accepts, NonEmpty, capacity, Intake(node.board, false, []), PacketsOf(batch));
  }

  /** A server that mirrors a node and treats the bytes of a batch mirrors the node after the
      delivery, and its replies are the boards that the node hands over. */
  method DeliverBytes(server: MsgServer, chunks: seq<Chunk>, ghost node: Node, ghost batch: seq<Parcel>)
    returns (replies: seq<string>)
    requires server.Valid() && Mirrors(server, node)
    requires AllPacketsCarriable(OnTheWire(batch))
    requires Stream(chunks) == EncodeAll(OnTheWire(batch)) && Harmless(false, chunks)
    modifies server, server.ring, server.ring.cells
    ensures server.Valid()
    ensures var t := Taken(server.ring.capacity, node, batch);
      && server.State() == MapBoard(Text, t.board)
      && |replies| == |t.replies|
      && forall i :: 0 <= i < |replies| ==>
           replies[i] == BoardText(MapEntries(Text, t.replies[i]), server.ring.capacity)
  {
    hide *;
    assert server.State() == MapBoard(Text, node.board) by { MirrorsMeans(server, node); }
    BytesHaveStepEffect(server.ring.capacity, node, batch, chunks);
    ghost var sent;
    replies, sent := server.TreatCommunications(chunks);
    MapIntakeMeans(Taken(server.ring.capacity, node, batch));
    RepliesAre(replies, sent, server.ring.capacity);
  }

  lemma MirrorsMeans(server: MsgServer, node: Node)
    requires Mirrors(server, node)
    ensures server.State() == MapBoard(Text, node.board)
  {
  }

  lemma MapIntakeMeans(t: Intake<Post>)
    ensures var r := MapIntake(Text, t);
      && r.board == MapBoard(Text, t.board)
      && |r.replies| == |t.replies|
      && forall i :: 0 <= i < |t.replies| ==> r.replies[i] == MapEntries(Text, t.replies[i])
  {
  }

  lemma RepliesAre(replies: seq<string>, sent: seq<seq<Message>>, capacity: nat)
    requires ReplyTexts(replies, sent, capacity)
    ensures |replies| == |sent| && forall i :: 0 <= i < |replies| ==> replies[i] == BoardText(sent[i], capacity)
  {
  }

  /** A published datagram has the effect of the protocol's publication, and what the server
      shares is the packet that the protocol puts on its links. */
  method PublishBytes(server: MsgServer, datagram: string, ghost node: Node, ghost at: nat)
    returns (shared: Option<string>)
    requires server.Valid() && Mirrors(server, node)
    requires ParseCommand(datagram).0 == PUBLISH && server.clock < 100000
    modifies server, server.ring, server.ring.cells
    ensures server.Valid()
    ensures var post := Post(at, node.board.clock, ParseCommand(datagram).1);
      && server.State() == MapBoard(Text, Append(node.board, post))
      && shared.Some?
      && shared.value == Encode(MapPacket(Text, Share(Stamped(node.board.clock, post))))
  {
    CommandTextFits(datagram);
    var reply;
    ghost var post := Post(at, node.board.clock, ParseCommand(datagram).1);
    MapAppend(node.board, post);
    ShareTextIsPacket(Stamped(node.board.clock, post.text));
    hide *;
    reply, shared := server.ServeClient(datagram);
  }

  lemma MapAppend(b: Board<Post>, post: Post)
    ensures MapBoard(Text, Append(b, post)) == Append(MapBoard(Text, b), post.text)
  {
    assert MapEntries(Text, Append(b, post).history) == MapEntries(Text, b.history) + [Stamped(b.clock, post.text)];
  }
}
