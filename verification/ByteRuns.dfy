/** Whole runs of servers that exchange bytes: datagrams come in, texts are written to links, and
    every call of the line handler gets what has been written in chunks. Each such run is mirrored
    by a run of the replication protocol (src/msgserv/main.c, lines 175-262). */
module ByteRuns {
  import opened CText
  import opened Boards
  import opened Packets
  import opened Messages
  import opened Wire
  import opened Reassembly
  import opened Commands
  import opened Delivery
  import opened Replication
  import opened Refinement
  import opened Mesh

  /** Boards, what has been written to each link and not yet been read, and the servers at which
      something has been published. */
  datatype Bytes = Bytes(boards: seq<Board<string>>, links: map<Link, seq<string>>, serving: set<nat>)

  datatype ByteStep =
    | Datagram(at: nat, datagram: string, peers: set<nat>)             // one datagram of a client
    | Treat(from: nat, at: nat, count: nat, chunks: seq<Chunk>)        // one call of the line handler
    | Request(at: nat, peer: nat, again: bool)                         // a joining server asks for the board
    | Lose(from: nat, at: nat)                                         // a connection is lost

  function Concat(texts: seq<string>): string {
    if texts == [] then "" else texts[0] + Concat(texts[1..])
  }

  predicate CanStep(b: Bytes, step: ByteStep) {
    match step
    case Datagram(at, _, _) => at < |b.boards|
    case Treat(from, at, count, chunks) =>
      && at < |b.boards| && from != at && (from, at) in b.links && (at, from) in b.links
      && 1 <= count <= |b.links[(from, at)]|
      && Stream(chunks) == Concat(b.links[(from, at)][..count]) && Harmless(false, chunks)
    case Request(at, peer, again) =>
      && at < |b.boards| && (at, peer) in b.links && at !in b.serving
      && (!again ==> b.boards[at].history == [])
    case Lose(from, at) => (from, at) in b.links
  }

  function Answers(capacity: nat, windows: seq<seq<Message>>): (r: seq<string>)
    requires 0 < capacity
    ensures |r| == |windows| && forall i :: 0 <= i < |windows| ==> r[i] == BoardText(windows[i], capacity)
  {
    seq(|windows|, i requires 0 <= i < |windows| => BoardText(windows[i], capacity))
  }

  /** The board and the boards handed over after one call of the line handler. */
  function Treated(capacity: nat, board: Board<string>, chunks: seq<Chunk>): Intake<string> {
    OnLines(capacity, Intake(board, false, []), Feed("", chunks))
  }

  function Stepped(capacity: nat -> nat, b: Bytes, step: ByteStep): Bytes
    requires CanStep(b, step) && forall i :: 0 < capacity(i)
  {
    match step
    case Datagram(at, datagram, peers) =>
      var (op, text) := ParseCommand(datagram);
      var board := b.boards[at];
      if op != PUBLISH then b
      else Bytes(b.boards[at := Append(board, text)],
                 map l | l in b.links ::
                   if l.0 == at && l.1 in peers then b.links[l] + [ShareText(Stamped(board.clock, text))] else b.links[l],
                 b.serving + {at})
    case Treat(from, at, count, chunks) =>
      var t := Treated(capacity(at), b.boards[at], chunks);
      b.(boards := b.boards[at := t.board],
         links := b.links[(from, at) := b.links[(from, at)][count..]]
                         [(at, from) := b.links[(at, from)] + Answers(capacity(at), t.replies)])
    case Request(at, peer, _) =>
      b.(links := b.links[(at, peer) := b.links[(at, peer)] + [SGET_CODE + "\n"]])
    case Lose(from, at) => b.(links := b.links[(from, at) := []])
  }

  // ----- a run of the protocol beside it -----

  /** What a queue of parcels looks like on a link. */
  function Written(parcels: seq<Parcel>): (r: seq<string>)
    ensures |r| == |parcels|
    ensures forall i :: 0 <= i < |parcels| ==> r[i] == Encode(MapPacket(Text, parcels[i].packet))
  {
    seq(|parcels|, i requires 0 <= i < |parcels| => Encode(MapPacket(Text, parcels[i].packet)))
  }

  ghost predicate Mirrored(b: Bytes, s: Net) {
    && |b.boards| == |s.nodes|
    && (forall i :: 0 <= i < |b.boards| ==> b.boards[i] == MapBoard(Text, s.nodes[i].board))
    && b.links.Keys == s.links.Keys
    && (forall l <- b.links :: b.links[l] == Written(s.links[l]))
    && (forall k :: 0 <= k < |s.log| ==> s.log[k].post.origin in b.serving)
  }

  /** Texts as published datagrams yield them. */
  ghost predicate AllPlain(ms: seq<Message>) {
    forall i :: 0 <= i < |ms| ==> Publishable(ms[i].body)
  }

  ghost predicate Sendable(parcel: Parcel) {
    AllCarriable(Contents(MapPacket(Text, parcel.packet)))
  }

  ghost predicate AllSendable(s: Net) {
    forall l <- s.links, k :: 0 <= k < |s.links[l]| ==> Sendable(s.links[l][k])
  }

  ghost predicate PlainBoards(boards: seq<Board<string>>) {
    forall i :: 0 <= i < |boards| ==> AllPlain(boards[i].history)
  }

  ghost predicate Clean(b: Bytes, s: Net) {
    ClocksInOrder(s) && PlainBoards(b.boards) && AllSendable(s)
  }

  /** No clock has outgrown its five characters. */
  ghost predicate WithinLimits(b: Bytes) {
    forall i :: 0 <= i < |b.boards| ==> b.boards[i].clock <= 100000
  }

  /** If the step hands boards over, they are sent whole. */
  ghost predicate WholeAnswers(capacity: nat -> nat, b: Bytes, step: ByteStep)
    requires CanStep(b, step)
  {
    step.Treat? && Treated(capacity(step.at), b.boards[step.at], step.chunks).replies != [] ==>
      SentWhole(LastN(b.boards[step.at].history, capacity(step.at)), capacity(step.at))
  }

  /** The step of the protocol that a step on bytes is: none for a datagram that publishes nothing. */
  function Shadow(step: ByteStep): Option<Step> {
    match step
    case Datagram(at, datagram, peers) =>
      var (op, text) := ParseCommand(datagram);
      if op == PUBLISH then Some(Publish(at, text, peers)) else None
    case Treat(from, at, count, _) => Some(Deliver(from, at, count))
    case Request(at, peer, again) => Some(Ask(at, peer, again))
    case Lose(from, at) => Some(Cut(from, at))
  }

  lemma ShadowEnabled(b: Bytes, s: Net, step: ByteStep)
    requires Mirrored(b, s) && CanStep(b, step) && Shadow(step).Some?
    ensures Enabled(s, Shadow(step).value)
  {
    if step.Datagram? { CommandTextFits(step.datagram); }
  }

  // ----- a call of the line handler -----

  lemma {:induction false} WrittenIsEncoded(batch: seq<Parcel>)
    ensures Concat(Written(batch)) == EncodeAll(OnTheWire(batch))
  {
    if batch == [] {
    } else {
      hide Encode;
      WrittenIsEncoded(batch[1..]);
      assert Written(batch)[1..] == Written(batch[1..]);
      assert OnTheWire(batch)[1..] == OnTheWire(batch[1..]);
    }
  }

  lemma BatchCarriable(batch: seq<Parcel>)
    requires forall k :: 0 <= k < |batch| ==> Sendable(batch[k])
    ensures AllPacketsCarriable(OnTheWire(batch))
  {
    forall i | 0 <= i < |batch| ensures AllCarriable(Contents(OnTheWire(batch)[i])) {
      assert Sendable(batch[i]);
    }
  }

  /** A plain board within the limits can be sent. */
  lemma BoardCarriable(board: Board<Post>, n: nat)
    requires WellClocked(board) && board.clock <= 100000 && AllPlain(MapBoard(Text, board).history)
    ensures AllCarriable(LastN(MapBoard(Text, board).history, n))
  {
    var h := MapBoard(Text, board).history;
    forall i | 0 <= i < |h| ensures Carriable(h[i]) {
      assert h[i].clock == board.history[i].clock;
      assert Publishable(h[i].body);
      if i < |h| - 1 { assert board.history[i].clock < board.history[|h| - 1].clock; }
    }
  }

  lemma MappedWindow(entries: seq<Stamped<Post>>, n: nat)
    ensures MapEntries(Text, LastN(entries, n)) == LastN(MapEntries(Text, entries), n)
  {
  }

  /** The answers to requests are the histories that the protocol hands over. */
  lemma AnswersWritten(capacity: nat, node: Node, batch: seq<Parcel>, windows: seq<seq<Stamped<Post>>>,
                       texts: seq<seq<Message>>)
    requires 0 < capacity && WellClocked(node.board) && node.board.clock <= 100000
    requires AllPlain(MapBoard(Text, node.board).history)
    requires windows != [] ==> SentWhole(LastN(MapBoard(Text, node.board).history, capacity), capacity)
    requires forall i :: 0 <= i < |windows| ==> windows[i] == LastN(node.board.history, capacity)
    requires |texts| == |windows| && forall i :: 0 <= i < |windows| ==> texts[i] == MapEntries(Text, windows[i])
    ensures Answers(capacity, texts) == Written(Replies(windows, node.known, batch))
  {
    var window := LastN(MapBoard(Text, node.board).history, capacity);
    BoardCarriable(node.board, capacity);
    BoardTextExact(window, capacity);
    MappedWindow(node.board.history, capacity);
    hide SentWhole;
    hide BoardText;
    hide Encode;
    hide WellClocked;
    hide LastN;
    assert forall i :: 0 <= i < |windows| ==> texts[i] == window;
  }

  /** One call, on bytes and in the protocol. */
  lemma TreatedIsTaken(capacity: nat, node: Node, batch: seq<Parcel>, chunks: seq<Chunk>)
    requires forall k :: 0 <= k < |batch| ==> Sendable(batch[k])
    requires Stream(chunks) == Concat(Written(batch)) && Harmless(false, chunks)
    ensures Treated(capacity, MapBoard(Text, node.board), chunks) == MapIntake(Text, Taken(capacity, node, batch))
  {
    hide Stream;
    hide Concat;
    hide Harmless;
    hide OnLines;
    hide Feed;
    hide Taken;
    BatchCarriable(batch);
    WrittenIsEncoded(batch);
    BytesHaveStepEffect(capacity, node, batch, chunks);
  }

  lemma PlainReceived(board: Board<string>, entries: seq<Message>)
    requires AllPlain(board.history) && AllPlain(entries)
    ensures AllPlain(ReceiveAll(board, entries).history)
  {
    var h := ReceiveAll(board, entries).history;
    forall i | 0 <= i < |h| ensures Publishable(h[i].body) {
      if i < |board.history| {
        assert h[i] == h[..|board.history|][i];
      } else {
        ReceivedCopy(board, entries, i - |board.history|);
      }
    }
  }

  /** What a batch leaves behind is plain. */
  lemma TakenPlain(capacity: nat, node: Node, batch: seq<Parcel>)
    requires AllPlain(MapBoard(Text, node.board).history)
    requires forall k :: 0 <= k < |batch| ==> Sendable(batch[k])
    ensures AllPlain(MapBoard(Text, Taken(capacity, node, batch).board).history)
  {
    hide Taken;
    hide ReceiveAll;
    var all := AllContents(PacketsOf(batch));
    var kept := Accepted(Accepts, all);
    BatchTaken(capacity, node, batch);
    var texts := MapEntries(Text, kept);
    forall i | 0 <= i < |texts| ensures Publishable(texts[i].body) {
      var j := AcceptedFrom(Accepts, all, i);
      var k, m := ContentsFrom(PacketsOf(batch), j);
      assert Sendable(batch[k]);
      MapContents(Text, batch[k].packet);
      assert Carriable(Contents(MapPacket(Text, batch[k].packet))[m]);
    }
    MapReceiveAll(Text, node.board, kept);
    PlainReceived(MapBoard(Text, node.board), texts);
  }

  lemma WrittenParts(a: seq<Parcel>, b: seq<Parcel>, count: nat)
    ensures Written(a + b) == Written(a) + Written(b)
    ensures count <= |a| ==> Written(a[count..]) == Written(a)[count..] && Written(a[..count]) == Written(a)[..count]
  {
  }

  /** The batch of a call, and the server that makes the call. */
  lemma TreatSituation(b: Bytes, s: Net, step: ByteStep)
    requires step.Treat? && Mirrored(b, s) && Clean(b, s) && CanStep(b, step) && WithinLimits(b)
    ensures Enabled(s, Shadow(step).value)
    ensures var node, batch := s.nodes[step.at], s.links[(step.from, step.at)][..step.count];
      && b.boards[step.at] == MapBoard(Text, node.board)
      && (forall k :: 0 <= k < |batch| ==> Sendable(batch[k]))
      && Stream(step.chunks) == Concat(Written(batch)) && Harmless(false, step.chunks)
      && WellClocked(node.board) && node.board.clock <= 100000 && AllPlain(b.boards[step.at].history)
  {
    WrittenParts(s.links[(step.from, step.at)], [], step.count);
    hide Stream;
    hide Concat;
    hide Harmless;
    hide EntriesFollowOrigin;
  }

  /** What a call leaves of the boards and of each link. */
  lemma TreatedBytes(capacity: nat -> nat, b: Bytes, step: ByteStep)
    requires step.Treat? && CanStep(b, step) && forall i :: 0 < capacity(i)
    ensures var b' := Stepped(capacity, b, step);
      var link, back := (step.from, step.at), (step.at, step.from);
      var t := Treated(capacity(step.at), b.boards[step.at], step.chunks);
      && b'.boards == b.boards[step.at := t.board]
      && b'.serving == b.serving && b'.links.Keys == b.links.Keys
      && b'.links[link] == b.links[link][step.count..]
      && b'.links[back] == b.links[back] + Answers(capacity(step.at), t.replies)
      && forall l <- b.links :: l != link && l != back ==> b'.links[l] == b.links[l]
  {
    hide Treated;
  }

  /** The outcome of a call, and that of the delivery beside it. */
  lemma TreatOutcome(capacity: nat -> nat, b: Bytes, s: Net, step: ByteStep)
    requires step.Treat? && Mirrored(b, s) && Clean(b, s) && CanStep(b, step) && WithinLimits(b)
    requires WholeAnswers(capacity, b, step)
    requires forall i :: 0 < capacity(i)
    ensures Enabled(s, Shadow(step).value)
    ensures var node, queue := s.nodes[step.at], s.links[(step.from, step.at)];
      var t := Taken(capacity(step.at), node, queue[..step.count]);
      var bytes := Treated(capacity(step.at), b.boards[step.at], step.chunks);
      && bytes.board == MapBoard(Text, t.board)
      && AllPlain(bytes.board.history)
      && Answers(capacity(step.at), bytes.replies) ==
         Written(RepliesTo(capacity(step.at), node, queue[..step.count]))
  {
    TreatSituation(b, s, step);
    assert Treated(capacity(step.at), b.boards[step.at], step.chunks).replies != [] ==>
      SentWhole(LastN(b.boards[step.at].history, capacity(step.at)), capacity(step.at));
    hide *;
    var node, queue := s.nodes[step.at], s.links[(step.from, step.at)];
    var batch := queue[..step.count];
    var t := Taken(capacity(step.at), node, batch);
    TreatedIsTaken(capacity(step.at), node, batch, step.chunks);
    BatchTaken(capacity(step.at), node, batch);
    MapIntakeMeans(t);
    AnswersWritten(capacity(step.at), node, batch, t.replies, MapIntake(Text, t).replies);
    RepliesToMeans(capacity(step.at), node, batch);
    TakenPlain(capacity(step.at), node, batch);
  }

  lemma RepliesToMeans(capacity: nat, node: Node, batch: seq<Parcel>)
    ensures RepliesTo(capacity, node, batch) == Replies(Taken(capacity, node, batch).replies, node.known, batch)
  {
  }

  lemma TreatMirrored(capacity: nat -> nat, b: Bytes, s: Net, step: ByteStep)
    requires step.Treat? && Mirrored(b, s) && Clean(b, s) && CanStep(b, step) && WithinLimits(b)
    requires WholeAnswers(capacity, b, step)
    requires forall i :: 0 < capacity(i)
    ensures Enabled(s, Shadow(step).value)
    ensures Mirrored(Stepped(capacity, b, step), Next(capacity, s, Shadow(step).value))
  {
    ShadowEnabled(b, s, step);
    var link, back := (step.from, step.at), (step.at, step.from);
    assert link in b.links && back in b.links && link != back && step.at < |b.boards|;
    hide *;
    ShadowOfTreat(step);
    TreatOutcome(capacity, b, s, step);
    TreatedBytes(capacity, b, step);
    DeliveredNodes(capacity, s, Shadow(step).value);
    DeliveredLinks(capacity, s, Shadow(step).value);
    MirrorMeans(b, s, link);
    MirrorMeans(b, s, back);
    WrittenParts(s.links[link], [], step.count);
    WrittenParts(s.links[back], RepliesTo(capacity(step.at), s.nodes[step.at], s.links[link][..step.count]), 0);
    StillMirrored(b, s, Stepped(capacity, b, step), Next(capacity, s, Shadow(step).value), link, back, step.at);
  }

  lemma MirrorMeans(b: Bytes, s: Net, l: Link)
    requires Mirrored(b, s) && l in b.links
    ensures l in s.links && b.links[l] == Written(s.links[l]) && |s.links[l]| == |b.links[l]|
    ensures |b.boards| == |s.nodes| && b.links.Keys == s.links.Keys
  {
  }

  /** One board and two links have changed on both sides alike. */
  lemma StillMirrored(b: Bytes, s: Net, b': Bytes, s': Net, link: Link, back: Link, at: nat)
    requires Mirrored(b, s) && link in b.links && back in b.links && at < |b.boards|
    requires b'.links.Keys == b.links.Keys && s'.links.Keys == s.links.Keys
    requires b'.links[link] == Written(s'.links[link]) && b'.links[back] == Written(s'.links[back])
    requires forall l <- b.links :: l != link && l != back ==> b'.links[l] == b.links[l] && s'.links[l] == s.links[l]
    requires |b'.boards| == |b.boards| && |s'.nodes| == |s.nodes|
    requires b'.boards[at] == MapBoard(Text, s'.nodes[at].board)
    requires forall i :: 0 <= i < |b.boards| && i != at ==> b'.boards[i] == b.boards[i] && s'.nodes[i] == s.nodes[i]
    requires b'.serving == b.serving && s'.log == s.log
    ensures Mirrored(b', s')
  {
    hide Written;
    hide MapBoard;
  }

  lemma ShadowOfTreat(step: ByteStep)
    requires step.Treat?
    ensures Shadow(step) == Some(Deliver(step.from, step.at, step.count))
  {
  }

  lemma TreatClean(capacity: nat -> nat, b: Bytes, s: Net, step: ByteStep)
    requires step.Treat? && Mirrored(b, s) && Clean(b, s) && CanStep(b, step) && WithinLimits(b)
    requires WholeAnswers(capacity, b, step)
    requires forall i :: 0 < capacity(i)
    ensures Enabled(s, Shadow(step).value)
    ensures Clean(Stepped(capacity, b, step), Next(capacity, s, Shadow(step).value))
  {
    TreatSituation(b, s, step);
    var node := s.nodes[step.at];
    hide *;
    ShadowOfTreat(step);
    TreatOutcome(capacity, b, s, step);
    TreatedBytes(capacity, b, step);
    StepKeepsClocks(capacity, s, Shadow(step).value);
    HandoversSendable(capacity(step.at), node);
    ParcelsSendable(capacity, s, Shadow(step).value);
    PlainBoardsUpdated(b.boards, step.at, Treated(capacity(step.at), b.boards[step.at], step.chunks).board);
  }

  lemma ParcelsSendable(capacity: nat -> nat, s: Net, step: Step)
    requires step.Deliver? && Enabled(s, step)
    requires AllSendable(s)
    requires forall batch, i :: Sendable(Handover(capacity(step.at), s.nodes[step.at], batch, i))
    ensures AllSendable(Next(capacity, s, step))
  {
    hide Sendable;
    hide Next;
    DeliveredParcels(capacity, s, step, (l: Link, p: Parcel) => Sendable(p));
  }

  lemma HandoversSendable(n: nat, node: Node)
    requires WellClocked(node.board) && node.board.clock <= 100000 && AllPlain(MapBoard(Text, node.board).history)
    ensures forall batch, i :: Sendable(Handover(n, node, batch, i))
  {
    BoardCarriable(node.board, n);
    MappedWindow(node.board.history, n);
  }

  lemma PlainBoardsUpdated(boards: seq<Board<string>>, at: nat, board: Board<string>)
    requires PlainBoards(boards) && at < |boards| && AllPlain(board.history)
    ensures PlainBoards(boards[at := board])
  {
  }

  // ----- the other steps -----

  /** What is written for a publication is the packet that the protocol puts on its links. */
  lemma PublishWritten(board: Board<Post>, post: Post, known: set<Post>)
    requires Publishable(post.text) && board.clock < 100000
    ensures var parcel := Parcel(Share(Stamped(board.clock, post)), known);
      && Sendable(parcel)
      && Written([parcel]) == [ShareText(Stamped(board.clock, post.text))]
  {
    ShareTextIsPacket(Stamped(board.clock, post.text));
  }

  /** What a publication leaves of the boards and of each link. */
  lemma PublishedBytes(capacity: nat -> nat, b: Bytes, step: ByteStep)
    requires forall i :: 0 < capacity(i)
    requires step.Datagram? && CanStep(b, step) && ParseCommand(step.datagram).0 == PUBLISH
    ensures var b' := Stepped(capacity, b, step);
      var board, text := b.boards[step.at], ParseCommand(step.datagram).1;
      && b'.boards == b.boards[step.at := Append(board, text)]
      && b'.serving == b.serving + {step.at} && b'.links.Keys == b.links.Keys
      && forall l <- b.links :: b'.links[l] == b.links[l] +
           if l.0 == step.at && l.1 in step.peers then [ShareText(Stamped(board.clock, text))] else []
  {
    hide ShareText;
    hide ParseCommand;
  }

  lemma PublishedNet(capacity: nat -> nat, s: Net, step: Step)
    requires step.Publish? && Enabled(s, step)
    ensures var s' := Next(capacity, s, step);
      var node := s.nodes[step.at];
      var post := Post(step.at, node.board.clock, step.text);
      && s'.nodes == s.nodes[step.at := Node(Append(node.board, post), node.known + {post})]
      && s'.log == s.log + [Birth(post, node.known)] && s'.links.Keys == s.links.Keys
      && forall l <- s.links :: s'.links[l] == s.links[l] +
           if l.0 == step.at && l.1 in step.peers then [Parcel(Share(Stamped(node.board.clock, post)), node.known + {post})]
           else []
  {
  }

  /** The server at which a datagram publishes. */
  lemma PublishSituation(capacity: nat -> nat, b: Bytes, s: Net, step: ByteStep)
    requires forall i :: 0 < capacity(i)
    requires step.Datagram? && Mirrored(b, s) && Clean(b, s) && CanStep(b, step)
    requires ParseCommand(step.datagram).0 == PUBLISH && WithinLimits(Stepped(capacity, b, step))
    ensures var node, text := s.nodes[step.at], ParseCommand(step.datagram).1;
      && Publishable(text) && node.board.clock < 100000
      && b.boards[step.at] == MapBoard(Text, node.board)
      && AllPlain(b.boards[step.at].history)
      && Shadow(step) == Some(Publish(step.at, text, step.peers))
      && Enabled(s, Publish(step.at, text, step.peers))
  {
    CommandTextFits(step.datagram);
    PublishedBytes(capacity, b, step);
    var b' := Stepped(capacity, b, step);
    hide Stepped;
    hide ParseCommand;
    hide ClocksInOrder;
    assert b'.boards[step.at].clock <= 100000;
  }

  lemma MirrorSize(b: Bytes, s: Net)
    requires Mirrored(b, s)
    ensures |b.boards| == |s.nodes|
  {
  }

  lemma MirrorMade(b: Bytes, s: Net)
    requires |b.boards| == |s.nodes| && forall i :: 0 <= i < |b.boards| ==> b.boards[i] == MapBoard(Text, s.nodes[i].board)
    requires b.links.Keys == s.links.Keys && forall l <- b.links :: b.links[l] == Written(s.links[l])
    requires forall k :: 0 <= k < |s.log| ==> s.log[k].post.origin in b.serving
    ensures Mirrored(b, s)
  {
  }

  lemma DatagramMirrored(capacity: nat -> nat, b: Bytes, s: Net, step: ByteStep)
    requires forall i :: 0 < capacity(i)
    requires step.Datagram? && Mirrored(b, s) && Clean(b, s) && CanStep(b, step)
    requires Shadow(step).Some? && WithinLimits(Stepped(capacity, b, step))
    ensures Enabled(s, Shadow(step).value)
    ensures Mirrored(Stepped(capacity, b, step), Next(capacity, s, Shadow(step).value))
  {
    var text := ParseCommand(step.datagram).1;
    var at := step.at;
    assert ParseCommand(step.datagram).0 == PUBLISH && at < |b.boards|;
    hide *;
    PublishSituation(capacity, b, s, step);
    PublishedBytes(capacity, b, step);
    PublishedNet(capacity, s, Shadow(step).value);
    MirrorSize(b, s);
    var node := s.nodes[at];
    var post := Post(at, node.board.clock, text);
    var parcel := Parcel(Share(Stamped(node.board.clock, post)), node.known + {post});
    var b', s' := Stepped(capacity, b, step), Next(capacity, s, Shadow(step).value);
    PublishWritten(node.board, post, node.known + {post});
    MapAppend(node.board, post);
    MappedClock(node.board);
    PublishedLinks(b, s, b', s', at, step.peers, ShareText(Stamped(node.board.clock, text)), parcel);
    PublishedBoards(b, s, b', s', at);
    MirrorMade(b', s');
  }

  lemma PublishedBoards(b: Bytes, s: Net, b': Bytes, s': Net, at: nat)
    requires Mirrored(b, s) && at < |b.boards| == |b'.boards| && |s'.nodes| == |s.nodes|
    requires forall i :: 0 <= i < |b.boards| && i != at ==> b'.boards[i] == b.boards[i] && s'.nodes[i] == s.nodes[i]
    requires b'.boards[at] == MapBoard(Text, s'.nodes[at].board)
    requires |s'.log| == |s.log| + 1 && s'.log[..|s.log|] == s.log && s'.log[|s.log|].post.origin == at
    requires b'.serving == b.serving + {at}
    ensures |b'.boards| == |s'.nodes|
    ensures forall i :: 0 <= i < |b'.boards| ==> b'.boards[i] == MapBoard(Text, s'.nodes[i].board)
    ensures forall k :: 0 <= k < |s'.log| ==> s'.log[k].post.origin in b'.serving
  {
    hide MapBoard;
    hide Written;
    forall k | 0 <= k < |s'.log| ensures s'.log[k].post.origin in b'.serving {
      if k < |s.log| { assert s'.log[k] == s'.log[..|s.log|][k] == s.log[k]; }
    }
  }

  /** Writing a text and sending its parcel on the same links. */
  lemma PublishedLinks(b: Bytes, s: Net, b': Bytes, s': Net, at: nat, peers: set<nat>, text: string, parcel: Parcel)
    requires Mirrored(b, s) && b'.links.Keys == b.links.Keys && s'.links.Keys == s.links.Keys
    requires Written([parcel]) == [text]
    requires forall l <- b.links :: b'.links[l] == b.links[l] + if l.0 == at && l.1 in peers then [text] else []
    requires forall l <- s.links :: s'.links[l] == s.links[l] + if l.0 == at && l.1 in peers then [parcel] else []
    ensures b'.links.Keys == s'.links.Keys && forall l <- b'.links :: b'.links[l] == Written(s'.links[l])
  {
    hide Written;
    NothingWritten();
    forall l | l in b'.links ensures b'.links[l] == Written(s'.links[l]) {
      WrittenParts(s.links[l], if l.0 == at && l.1 in peers then [parcel] else [], 0);
    }
  }

  lemma MappedClock(board: Board<Post>)
    ensures MapBoard(Text, board).clock == board.clock
  {
  }

  lemma NothingWritten()
    ensures Written([]) == []
  {
  }

  lemma DatagramClean(capacity: nat -> nat, b: Bytes, s: Net, step: ByteStep)
    requires forall i :: 0 < capacity(i)
    requires step.Datagram? && Mirrored(b, s) && Clean(b, s) && CanStep(b, step)
    requires Shadow(step).Some? && WithinLimits(Stepped(capacity, b, step))
    ensures Enabled(s, Shadow(step).value)
    ensures Clean(Stepped(capacity, b, step), Next(capacity, s, Shadow(step).value))
  {
    var text := ParseCommand(step.datagram).1;
    var at := step.at;
    assert ParseCommand(step.datagram).0 == PUBLISH && at < |b.boards|;
    hide *;
    PublishSituation(capacity, b, s, step);
    PublishedBytes(capacity, b, step);
    PublishedNet(capacity, s, Shadow(step).value);
    var node := s.nodes[at];
    var post := Post(at, node.board.clock, text);
    var parcel := Parcel(Share(Stamped(node.board.clock, post)), node.known + {post});
    var b', s' := Stepped(capacity, b, step), Next(capacity, s, Shadow(step).value);
    PublishWritten(node.board, post, node.known + {post});
    StepKeepsClocks(capacity, s, Shadow(step).value);
    PlainAppended(b.boards[at], text);
    PublishedSendable(s, s', at, step.peers, parcel);
    PlainBoardsUpdated(b.boards, at, Append(b.boards[at], text));
  }

  lemma PublishedSendable(s: Net, s': Net, at: nat, peers: set<nat>, parcel: Parcel)
    requires AllSendable(s) && Sendable(parcel) && s'.links.Keys == s.links.Keys
    requires forall l <- s.links :: s'.links[l] == s.links[l] + if l.0 == at && l.1 in peers then [parcel] else []
    ensures AllSendable(s')
  {
    hide Sendable;
  }

  lemma PlainAppended(board: Board<string>, text: string)
    requires AllPlain(board.history) && Publishable(text)
    ensures AllPlain(Append(board, text).history)
  {
  }

  lemma RequestWritten(known: set<Post>)
    ensures Written([Parcel(Packet<Post>.Request, known)]) == [SGET_CODE + "\n"]
    ensures Sendable(Parcel(Packet<Post>.Request, known))
  {
  }

  /** Requests and lost connections change one link. */
  lemma LinkChanged(capacity: nat -> nat, b: Bytes, s: Net, step: ByteStep)
    requires forall i :: 0 < capacity(i)
    requires (step.Request? || step.Lose?) && Mirrored(b, s) && Clean(b, s) && CanStep(b, step)
    ensures Enabled(s, Shadow(step).value)
    ensures Mirrored(Stepped(capacity, b, step), Next(capacity, s, Shadow(step).value))
    ensures Clean(Stepped(capacity, b, step), Next(capacity, s, Shadow(step).value))
  {
    ShadowEnabled(b, s, step);
    StepKeepsClocks(capacity, s, Shadow(step).value);
    hide MapBoard;
    hide Written;
    hide Sendable;
    hide ClocksInOrder;
    hide PlainBoards;
    NothingWritten();
    if step.Request? {
      var known := s.nodes[step.at].known;
      RequestWritten(known);
      WrittenParts(s.links[(step.at, step.peer)], [Parcel(Packet<Post>.Request, known)], 0);
    }
  }

  // ----- whole runs -----

  lemma StepSimulated(capacity: nat -> nat, b: Bytes, s: Net, step: ByteStep)
    requires forall i :: 0 < capacity(i)
    requires Mirrored(b, s) && Clean(b, s) && CanStep(b, step)
    requires WithinLimits(b) && WithinLimits(Stepped(capacity, b, step)) && WholeAnswers(capacity, b, step)
    ensures Shadow(step) == None ==> Stepped(capacity, b, step) == b
    ensures Shadow(step).Some? ==>
      && Enabled(s, Shadow(step).value)
      && Mirrored(Stepped(capacity, b, step), Next(capacity, s, Shadow(step).value))
      && Clean(Stepped(capacity, b, step), Next(capacity, s, Shadow(step).value))
  {
    hide ParseCommand;
    hide Mirrored;
    hide Clean;
    hide WithinLimits;
    hide WholeAnswers;
    hide Next;
    match step
    case Datagram(_, _, _) =>
      if Shadow(step).Some? {
        DatagramMirrored(capacity, b, s, step);
        DatagramClean(capacity, b, s, step);
      }
    case Treat(_, _, _, _) =>
      TreatMirrored(capacity, b, s, step);
      TreatClean(capacity, b, s, step);
    case Request(_, _, _) => LinkChanged(capacity, b, s, step);
    case Lose(_, _) => LinkChanged(capacity, b, s, step);
  }

  /** `steps` can be taken one after another, with clocks of at most five characters. */
  ghost predicate CanRun(capacity: nat -> nat, b: Bytes, steps: seq<ByteStep>)
    requires forall i :: 0 < capacity(i)
    decreases |steps|
  {
    steps == [] ||
    (&& CanStep(b, steps[0]) && WithinLimits(Stepped(capacity, b, steps[0]))
     && CanRun(capacity, Stepped(capacity, b, steps[0]), steps[1..]))
  }

  /** Every board that is handed over on the way is sent whole. */
  ghost predicate AnsweredWhole(capacity: nat -> nat, b: Bytes, steps: seq<ByteStep>)
    requires (forall i :: 0 < capacity(i)) && CanRun(capacity, b, steps)
    decreases |steps|
  {
    steps == [] ||
    (WholeAnswers(capacity, b, steps[0]) && AnsweredWhole(capacity, Stepped(capacity, b, steps[0]), steps[1..]))
  }

  ghost function AfterAll(capacity: nat -> nat, b: Bytes, steps: seq<ByteStep>): Bytes
    requires (forall i :: 0 < capacity(i)) && CanRun(capacity, b, steps)
    decreases |steps|
  {
    if steps == [] then b else AfterAll(capacity, Stepped(capacity, b, steps[0]), steps[1..])
  }

  function Shadows(steps: seq<ByteStep>): seq<Step> {
    if steps == [] then []
    else
      match Shadow(steps[0])
      case None => Shadows(steps[1..])
      case Some(step) => [step] + Shadows(steps[1..])
  }

  ghost predicate AllAllowed(allowed: Step -> bool, steps: seq<ByteStep>) {
    forall i :: 0 <= i < |steps| && Shadow(steps[i]).Some? ==> allowed(Shadow(steps[i]).value)
  }

  lemma {:induction false} RunSimulated(capacity: nat -> nat, allowed: Step -> bool, b: Bytes, s: Net,
                                        steps: seq<ByteStep>)
    requires forall i :: 0 < capacity(i)
    requires Mirrored(b, s) && Clean(b, s) && WithinLimits(b)
    requires CanRun(capacity, b, steps) && AnsweredWhole(capacity, b, steps) && AllAllowed(allowed, steps)
    ensures Possible(capacity, allowed, s, Shadows(steps))
    ensures Mirrored(AfterAll(capacity, b, steps), Run(capacity, allowed, s, Shadows(steps)))
    ensures Clean(AfterAll(capacity, b, steps), Run(capacity, allowed, s, Shadows(steps)))
    decreases |steps|
  {
    hide CanStep;
    hide Mirrored;
    hide Clean;
    hide WithinLimits;
    hide WholeAnswers;
    hide Next;
    hide Stepped;
    hide Shadow;
    hide Enabled;
    if steps == [] {
    } else {
      StepSimulated(capacity, b, s, steps[0]);
      var b' := Stepped(capacity, b, steps[0]);
      match Shadow(steps[0])
      case None =>
        RunSimulated(capacity, allowed, b', s, steps[1..]);
      case Some(step) =>
        RunSimulated(capacity, allowed, b', Next(capacity, s, step), steps[1..]);
        ShadowFirst(capacity, allowed, s, step, Shadows(steps[1..]));
    }
  }

  lemma ShadowFirst(capacity: nat -> nat, allowed: Step -> bool, s: Net, step: Step, steps: seq<Step>)
    requires Enabled(s, step) && allowed(step) && Possible(capacity, allowed, Next(capacity, s, step), steps)
    ensures Possible(capacity, allowed, s, [step] + steps)
    ensures Run(capacity, allowed, s, [step] + steps) == Run(capacity, allowed, Next(capacity, s, step), steps)
  {
    hide Enabled;
    hide Next;
    assert ([step] + steps)[1..] == steps;
  }

  function InitBytes(n: nat): Bytes {
    Bytes(seq(n, _ => EMPTY_BOARD), map i, j | 0 <= i < n && 0 <= j < n && i != j :: (i, j) := [], {})
  }

  lemma InitMirrored(n: nat)
    ensures Mirrored(InitBytes(n), Init(n)) && Clean(InitBytes(n), Init(n)) && WithinLimits(InitBytes(n))
  {
    InitClocks(n);
    NothingWritten();
    assert MapBoard(Text, Board([], 0)) == EMPTY_BOARD;
  }

  /** Every run on bytes, of any number of servers with any capacities, with any datagrams, any
      chunks cut at harmless places, requests and lost connections, in which the boards that are
      handed over are sent whole, has a run of the protocol
      beside it: the same publications, deliveries, requests and losses are possible there, and
      leave the same boards, and on each link the texts of the parcels. */
  lemma ByteRunTheorem(capacity: nat -> nat, allowed: Step -> bool, n: nat, steps: seq<ByteStep>)
    requires forall i :: 0 < capacity(i)
    requires CanRun(capacity, InitBytes(n), steps) && AnsweredWhole(capacity, InitBytes(n), steps)
    requires AllAllowed(allowed, steps)
    ensures Possible(capacity, allowed, Init(n), Shadows(steps))
    ensures Mirrored(AfterAll(capacity, InitBytes(n), steps), Run(capacity, allowed, Init(n), Shadows(steps)))
    ensures ClocksInOrder(Run(capacity, allowed, Init(n), Shadows(steps)))
  {
    InitMirrored(n);
    RunSimulated(capacity, allowed, InitBytes(n), Init(n), steps);
  }

  // ----- what the theorems about the protocol say of bytes -----

  /** Datagrams that publish nothing empty, shared with all others, and calls of the line handler. */
  function StaticTexts(n: nat): Step -> bool {
    (step: Step) => Static(n)(step) && (step.Publish? ==> step.text != "")
  }

  lemma {:induction false} StaticTextsRun(capacity: nat -> nat, n: nat, s: Net, steps: seq<Step>)
    requires Possible(capacity, StaticTexts(n), s, steps)
    requires forall k :: 0 <= k < |s.log| ==> Accepts(s.log[k].post)
    ensures Possible(capacity, Static(n), s, steps)
    ensures var r := Run(capacity, Static(n), s, steps);
      r == Run(capacity, StaticTexts(n), s, steps) && forall k :: 0 <= k < |r.log| ==> Accepts(r.log[k].post)
    decreases |steps|
  {
    hide Taken;
    hide Pasts;
    if steps == [] {
    } else {
      StaticTextsRun(capacity, n, Next(capacity, s, steps[0]), steps[1..]);
    }
  }

  /** In a static mesh nobody asks, so no board is handed over. */
  lemma NothingHandedOver(capacity: nat -> nat, n: nat, b: Bytes, s: Net, step: ByteStep)
    requires step.Treat? && Mirrored(b, s) && Clean(b, s) && CanStep(b, step) && WithinLimits(b) && MeshInvariant(n, s)
    ensures WholeAnswers(capacity, b, step)
  {
    TreatSituation(b, s, step);
    var l := (step.from, step.at);
    assert l in s.links && step.count <= |s.links[l]|;
    hide *;
    var node, batch := s.nodes[step.at], s.links[l][..step.count];
    MeshLinks(n, s, l);
    OwnSharesPart(l.0, s.links[l], step.count);
    NoReplies(capacity(step.at), l.0, node, batch);
    TreatedIsTaken(capacity(step.at), node, batch, step.chunks);
    MapIntakeMeans(Taken(capacity(step.at), node, batch));
  }

  lemma {:induction false} StaticAnsweredWhole(capacity: nat -> nat, n: nat, b: Bytes, s: Net, steps: seq<ByteStep>)
    requires forall i :: 0 < capacity(i)
    requires Mirrored(b, s) && Clean(b, s) && WithinLimits(b) && MeshInvariant(n, s)
    requires CanRun(capacity, b, steps) && AllAllowed(Static(n), steps)
    ensures AnsweredWhole(capacity, b, steps)
    decreases |steps|
  {
    hide CanStep;
    hide Mirrored;
    hide Clean;
    hide WithinLimits;
    hide Next;
    hide Stepped;
    hide Shadow;
    hide Enabled;
    hide MeshInvariant;
    if steps == [] {
    } else {
      if steps[0].Treat? { NothingHandedOver(capacity, n, b, s, steps[0]); }
      StepSimulated(capacity, b, s, steps[0]);
      var b' := Stepped(capacity, b, steps[0]);
      match Shadow(steps[0])
      case None =>
        StaticAnsweredWhole(capacity, n, b', s, steps[1..]);
      case Some(step) =>
        StepKeepsMesh(capacity, n, s, step);
        StaticAnsweredWhole(capacity, n, b', Next(capacity, s, step), steps[1..]);
    }
  }

  function TextsOf(ms: seq<Message>): (r: seq<string>)
    ensures |r| == |ms| && forall i :: 0 <= i < |r| ==> r[i] == ms[i].body
  {
    seq(|ms|, i requires 0 <= i < |ms| => ms[i].body)
  }

  function TextsOfPosts(posts: seq<Post>): (r: seq<string>)
    ensures |r| == |posts| && forall i :: 0 <= i < |r| ==> r[i] == posts[i].text
  {
    seq(|posts|, i requires 0 <= i < |posts| => posts[i].text)
  }

  lemma WithoutOne<T>(s: seq<T>, i: nat)
    requires i < |s|
    ensures multiset(s) == multiset(s[..i] + s[i + 1..]) + multiset{s[i]}
  {
    assert s == s[..i] + [s[i]] + s[i + 1..];
  }

  lemma WithoutFirst<T>(s: seq<T>)
    requires s != []
    ensures multiset(s) == multiset(s[1..]) + multiset{s[0]}
  {
    assert s == [s[0]] + s[1..];
  }

  lemma TextsWithoutOne(posts: seq<Post>, i: nat)
    requires i < |posts|
    ensures var texts := TextsOfPosts(posts);
      && TextsOfPosts(posts[..i] + posts[i + 1..]) == texts[..i] + texts[i + 1..]
      && TextsOfPosts(posts[1..]) == texts[1..]
  {
  }

  lemma SameRests<T>(a: multiset<T>, restA: multiset<T>, b: multiset<T>, restB: multiset<T>, x: T)
    requires a == b && a == restA + multiset{x} && b == restB + multiset{x}
    ensures restA == restB
  {
    assert restA == a - multiset{x};
  }

  lemma {:induction false} SameTexts(a: seq<Post>, b: seq<Post>)
    requires multiset(a) == multiset(b)
    ensures multiset(TextsOfPosts(a)) == multiset(TextsOfPosts(b))
    decreases |a|
  {
    hide TextsOfPosts;
    assert |multiset(a)| == |a| && |multiset(b)| == |b|;
    if a == [] {
    } else {
      assert a[0] in multiset(b);
      var i :| 0 <= i < |b| && b[i] == a[0];
      var rest := b[..i] + b[i + 1..];
      WithoutFirst(a);
      WithoutOne(b, i);
      SameRests(multiset(a), multiset(a[1..]), multiset(b), multiset(rest), a[0]);
      SameTexts(a[1..], rest);
      TextsWithoutOne(a, 0);
      TextsWithoutOne(b, i);
      WithoutFirst(TextsOfPosts(a));
      WithoutOne(TextsOfPosts(b), i);
    }
  }

  lemma MirroredTexts(b: Bytes, s: Net)
    requires Mirrored(b, s)
    ensures forall i :: 0 <= i < |b.boards| ==>
      TextsOf(b.boards[i].history) == TextsOfPosts(Bodies(s.nodes[i].board.history))
  {
    forall i | 0 <= i < |b.boards|
      ensures TextsOf(b.boards[i].history) == TextsOfPosts(Bodies(s.nodes[i].board.history))
    {
      assert b.boards[i] == MapBoard(Text, s.nodes[i].board);
    }
  }

  /** Servers that agree in the protocol agree on bytes. */
  lemma AgreementShows(b: Bytes, s: Net)
    requires Mirrored(b, s) && Agreement(s)
    ensures forall i, j :: 0 <= i < |b.boards| && 0 <= j < |b.boards| ==>
      multiset(TextsOf(b.boards[i].history)) == multiset(TextsOf(b.boards[j].history))
  {
    MirroredTexts(b, s);
    hide Bodies;
    hide TextsOf;
    hide TextsOfPosts;
    forall i, j | 0 <= i < |b.boards| && 0 <= j < |b.boards|
      ensures multiset(TextsOf(b.boards[i].history)) == multiset(TextsOf(b.boards[j].history))
    {
      SameTexts(Bodies(s.nodes[i].board.history), Bodies(s.nodes[j].board.history));
    }
  }

  lemma NothingLeft(b: Bytes, s: Net)
    requires Mirrored(b, s) && forall l <- b.links :: b.links[l] == []
    ensures Quiet(s)
  {
    forall l | l in s.links ensures s.links[l] == [] { assert b.links[l] == Written(s.links[l]); }
  }

  /** In every run on bytes of a static full mesh that publishes no empty text: once everything
      that was written has been read, all servers hold the same texts, equally often. */
  lemma BytesAgree(capacity: nat -> nat, n: nat, steps: seq<ByteStep>)
    requires 2 <= n && forall i :: 0 < capacity(i)
    requires CanRun(capacity, InitBytes(n), steps) && AllAllowed(StaticTexts(n), steps)
    requires var b := AfterAll(capacity, InitBytes(n), steps); forall l <- b.links :: b.links[l] == []
    ensures var b := AfterAll(capacity, InitBytes(n), steps);
      forall i, j :: 0 <= i < |b.boards| && 0 <= j < |b.boards| ==>
        multiset(TextsOf(b.boards[i].history)) == multiset(TextsOf(b.boards[j].history))
  {
    var b := AfterAll(capacity, InitBytes(n), steps);
    InitMirrored(n);
    InitMesh(n);
    StaticAnsweredWhole(capacity, n, InitBytes(n), Init(n), steps);
    ByteRunTheorem(capacity, StaticTexts(n), n, steps);
    InitFacts(n);
    StaticTextsRun(capacity, n, Init(n), Shadows(steps));
    MeshTheorem(capacity, n, Shadows(steps));
    var s := Run(capacity, Static(n), Init(n), Shadows(steps));
    hide *;
    NothingLeft(b, s);
    AllAccepted(s);
    AgreementShows(b, s);
  }

  lemma AllAccepted(s: Net)
    requires forall k :: 0 <= k < |s.log| ==> Accepts(s.log[k].post)
    ensures forall p <- Posts(s.log) :: Accepts(p)
  {
  }
}
