/** The replication protocol: servers joined by reliable FIFO links, publishing, delivering
    batches, asking for and handing over boards, in any order (src/msgserv/message.c and
    src/msgserv/main.c, lines 175-262). */
module Replication {
  import opened CText
  import opened Boards
  import opened Packets

  /** A published message: where it was published, the clock it got there, and its text. The
      clocks of one origin differ, so a post identifies one publication. */
  datatype Post = Post(origin: nat, clock: nat, text: string)

  /** A packet in flight, with the posts in the causal past of its sending. */
  datatype Parcel = Parcel(packet: Packet<Post>, past: set<Post>)

  /** A server and the posts in its causal past. */
  datatype Node = Node(board: Board<Post>, known: set<Post>)

  /** A publication and what was in the causal past of its server just before. */
  datatype Birth = Birth(post: Post, past: set<Post>)

  type Link = (nat, nat)

  datatype Net = Net(nodes: seq<Node>, links: map<Link, seq<Parcel>>, log: seq<Birth>)

  datatype Step =
    | Publish(at: nat, text: string, peers: set<nat>)  // share with the connected peers
    | Deliver(from: nat, at: nat, count: nat)          // treat one batch from one peer
    | Ask(at: nat, peer: nat, again: bool)             // a joining server asks for the board
    | Cut(from: nat, at: nat)                          // a connection is lost

  predicate Accepts(p: Post) { p.text != "" }

  function Init(n: nat): Net {
    Net(seq(n, _ => Node(Board([], 0), {})),
        map i, j | 0 <= i < n && 0 <= j < n && i != j :: (i, j) := [],
        [])
  }

  function PacketsOf(parcels: seq<Parcel>): (r: seq<Packet<Post>>)
    ensures |r| == |parcels|
    ensures forall i :: 0 <= i < |parcels| ==> r[i] == parcels[i].packet
  {
    seq(|parcels|, i requires 0 <= i < |parcels| => parcels[i].packet)
  }

  function Pasts(parcels: seq<Parcel>): set<Post> {
    set i, a | 0 <= i < |parcels| && a in parcels[i].past :: a
  }

  predicate Publishable(text: string) { |text| <= 140 && '\n' !in text && '\0' !in text }

  /** A server asks before it serves, so before anything is published at it. It asks again if its
      join failed, and may have received messages by then. */
  predicate Enabled(s: Net, step: Step) {
    match step
    case Publish(at, text, peers) =>
      at < |s.nodes| && Publishable(text)
    case Deliver(from, at, count) =>
      && at < |s.nodes| && from != at && (from, at) in s.links && (at, from) in s.links
      && 1 <= count <= |s.links[(from, at)]|
    case Ask(at, peer, again) =>
      && at < |s.nodes| && (at, peer) in s.links
      && (forall b <- s.log :: b.post.origin != at)
      && (!again ==> s.nodes[at].board.history == [])
    case Cut(from, at) => (from, at) in s.links
  }

  /** What the receiver of a batch becomes, and the boards it hands over in reply. */
  function Taken(capacity: nat, node: Node, batch: seq<Parcel>): Intake<Post> {
    HandleAll(Accepts, capacity, Intake(node.board, false, []), PacketsOf(batch))
  }

  /** What led to the i-th reply to a batch: all that the server knew, and all that led to the
      requests up to the one it answers. */
  function ReplyPast(known: set<Post>, batch: seq<Parcel>, i: nat): set<Post> {
    known + Pasts(batch[..Min(i + 1, |batch|)])
  }

  function Replies(windows: seq<seq<Stamped<Post>>>, known: set<Post>, batch: seq<Parcel>): (r: seq<Parcel>)
    ensures |r| == |windows|
    ensures forall i :: 0 <= i < |windows| ==> r[i] == Parcel(History(windows[i]), ReplyPast(known, batch, i))
  {
    seq(|windows|, i requires 0 <= i < |windows| => Parcel(History(windows[i]), ReplyPast(known, batch, i)))
  }

  function Next(capacity: nat -> nat, s: Net, step: Step): Net
    requires Enabled(s, step)
  {
    match step
    case Publish(at, text, peers) =>
      var node := s.nodes[at];
      var post := Post(at, node.board.clock, text);
      var parcel := Parcel(Share(Stamped(node.board.clock, post)), node.known + {post});
      Net(s.nodes[at := Node(Append(node.board, post), node.known + {post})],
          map l | l in s.links :: if l.0 == at && l.1 in peers then s.links[l] + [parcel] else s.links[l],
          s.log + [Birth(post, node.known)])
    case Deliver(from, at, count) =>
      var node, queue := s.nodes[at], s.links[(from, at)];
      var t := Taken(capacity(at), node, queue[..count]);
      var replies := Replies(t.replies, node.known, queue[..count]);
      Net(s.nodes[at := Node(t.board, node.known + Pasts(queue[..count]))],
          s.links[(from, at) := queue[count..]][(at, from) := s.links[(at, from)] + replies],
          s.log)
    case Ask(at, peer, _) =>
      s.(links := s.links[(at, peer) := s.links[(at, peer)] + [Parcel(Request, s.nodes[at].known)]])
    case Cut(from, at) =>
      s.(links := s.links[(from, at) := []])
  }

  /** `steps` can be taken one after another from `s`, and each of them meets `allowed`. */
  predicate Possible(capacity: nat -> nat, allowed: Step -> bool, s: Net, steps: seq<Step>)
    decreases |steps|
  {
    steps == [] ||
    (Enabled(s, steps[0]) && allowed(steps[0]) && Possible(capacity, allowed, Next(capacity, s, steps[0]), steps[1..]))
  }

  function Run(capacity: nat -> nat, allowed: Step -> bool, s: Net, steps: seq<Step>): Net
    requires Possible(capacity, allowed, s, steps)
    decreases |steps|
  {
    if steps == [] then s else Run(capacity, allowed, Next(capacity, s, steps[0]), steps[1..])
  }

  // ----- clocks, on every run -----

  ghost predicate EntriesFollowOrigin(entries: seq<Stamped<Post>>) {
    forall i :: 0 <= i < |entries| ==> entries[i].body.clock <= entries[i].clock
  }

  ghost predicate ClocksInOrder(s: Net) {
    && (forall i :: 0 <= i < |s.nodes| ==>
          WellClocked(s.nodes[i].board) && EntriesFollowOrigin(s.nodes[i].board.history))
    && (forall l <- s.links, k :: 0 <= k < |s.links[l]| ==>
          EntriesFollowOrigin(Contents(s.links[l][k].packet)))
  }

  lemma {:induction false} ContentsFrom<T>(ps: seq<Packet<T>>, i: nat) returns (k: nat, m: nat)
    requires i < |AllContents(ps)|
    ensures k < |ps| && m < |Contents(ps[k])| && Contents(ps[k])[m] == AllContents(ps)[i]
    decreases |ps|
  {
    if i < |Contents(ps[0])| {
      k, m := 0, i;
    } else {
      k, m := ContentsFrom(ps[1..], i - |Contents(ps[0])|);
      k := k + 1;
    }
  }

  lemma {:induction false} ContentsInto<T>(ps: seq<Packet<T>>, k: nat, m: nat) returns (i: nat)
    requires k < |ps| && m < |Contents(ps[k])|
    ensures i < |AllContents(ps)| && AllContents(ps)[i] == Contents(ps[k])[m]
    decreases |ps|
  {
    if k == 0 {
      i := m;
    } else {
      i := ContentsInto(ps[1..], k - 1, m);
      i := i + |Contents(ps[0])|;
    }
  }

  lemma ReceivedFollowOrigin(b: Board<Post>, entries: seq<Stamped<Post>>)
    requires EntriesFollowOrigin(b.history) && EntriesFollowOrigin(entries)
    ensures EntriesFollowOrigin(ReceiveAll(b, entries).history)
  {
    var h := ReceiveAll(b, entries).history;
    forall i | 0 <= i < |h| ensures h[i].body.clock <= h[i].clock {
      if i < |b.history| {
        assert h[i] == h[..|b.history|][i];
      } else {
        ReceivedCopy(b, entries, i - |b.history|);
      }
    }
  }

  lemma BatchFollowsOrigin(batch: seq<Parcel>)
    requires forall k :: 0 <= k < |batch| ==> EntriesFollowOrigin(Contents(batch[k].packet))
    ensures EntriesFollowOrigin(Accepted(Accepts, AllContents(PacketsOf(batch))))
  {
    var all := AllContents(PacketsOf(batch));
    var kept := Accepted(Accepts, all);
    forall i | 0 <= i < |kept| ensures kept[i].body.clock <= kept[i].clock {
      var j := AcceptedFrom(Accepts, all, i);
      var k, m := ContentsFrom(PacketsOf(batch), j);
    }
  }

  lemma PublishKeepsClocks(capacity: nat -> nat, s: Net, step: Step)
    requires step.Publish? && Enabled(s, step) && ClocksInOrder(s)
    ensures ClocksInOrder(Next(capacity, s, step))
  {
    var board := s.nodes[step.at].board;
    var post := Post(step.at, board.clock, step.text);
    AppendKeepsClocks(board, post);
    hide WellClocked;
    assert EntriesFollowOrigin(board.history + [Stamped(board.clock, post)]);
    assert EntriesFollowOrigin([Stamped(board.clock, post)]);
  }

  /** What one batch leaves of the receiving board. */
  lemma BatchTaken(capacity: nat, node: Node, batch: seq<Parcel>)
    ensures var t := Taken(capacity, node, batch);
      && t.board == ReceiveAll(node.board, Accepted(Accepts, AllContents(PacketsOf(batch))))
      && forall i :: 0 <= i < |t.replies| ==> t.replies[i] == LastN(node.board.history, capacity)
  {
    BatchEffect(Accepts, capacity, Intake(node.board, false, []), PacketsOf(batch));
  }

  /** What a delivery leaves of the servers. */
  lemma DeliveredNodes(capacity: nat -> nat, s: Net, step: Step)
    requires step.Deliver? && Enabled(s, step)
    ensures var s' := Next(capacity, s, step);
      var batch := s.links[(step.from, step.at)][..step.count];
      && s'.nodes == s.nodes[step.at := Node(Taken(capacity(step.at), s.nodes[step.at], batch).board,
                                             s.nodes[step.at].known + Pasts(batch))]
      && s'.log == s.log
  {
    hide Taken;
  }

  function RepliesTo(capacity: nat, node: Node, batch: seq<Parcel>): (r: seq<Parcel>)
    ensures |r| == |Taken(capacity, node, batch).replies|
  {
    Replies(Taken(capacity, node, batch).replies, node.known, batch)
  }

  /** A board handed over. */
  function Handover(capacity: nat, node: Node, batch: seq<Parcel>, i: nat): Parcel {
    Parcel(History(LastN(node.board.history, capacity)), ReplyPast(node.known, batch, i))
  }

  /** What a delivery leaves on each link. */
  lemma DeliveredLinks(capacity: nat -> nat, s: Net, step: Step)
    requires step.Deliver? && Enabled(s, step)
    ensures var s' := Next(capacity, s, step);
      var link, back := (step.from, step.at), (step.at, step.from);
      && s'.links.Keys == s.links.Keys
      && s'.links[link] == s.links[link][step.count..]
      && s'.links[back] == s.links[back] + RepliesTo(capacity(step.at), s.nodes[step.at], s.links[link][..step.count])
      && forall l <- s.links :: l != link && l != back ==> s'.links[l] == s.links[l]
  {
    hide Taken;
  }

  lemma RepliesAreHandovers(capacity: nat, node: Node, batch: seq<Parcel>)
    ensures var replies := RepliesTo(capacity, node, batch);
      forall i :: 0 <= i < |replies| ==> replies[i] == Handover(capacity, node, batch, i)
  {
    BatchTaken(capacity, node, batch);
  }

  /** What holds of every parcel in flight and of the reply still does after a delivery. */
  lemma DeliveredParcels(capacity: nat -> nat, s: Net, step: Step, ok: (Link, Parcel) -> bool)
    requires step.Deliver? && Enabled(s, step)
    requires forall l <- s.links, k :: 0 <= k < |s.links[l]| ==> ok(l, s.links[l][k])
    requires var node, batch := s.nodes[step.at], s.links[(step.from, step.at)][..step.count];
      forall i :: 0 <= i < |RepliesTo(capacity(step.at), node, batch)| ==>
        ok((step.at, step.from), Handover(capacity(step.at), node, batch, i))
    ensures var s' := Next(capacity, s, step);
      forall l <- s'.links, k :: 0 <= k < |s'.links[l]| ==> ok(l, s'.links[l][k])
  {
    var s' := Next(capacity, s, step);
    hide *;
    DeliveredLinks(capacity, s, step);
    var link, back := (step.from, step.at), (step.at, step.from);
    var node, batch := s.nodes[step.at], s.links[link][..step.count];
    RepliesAreHandovers(capacity(step.at), node, batch);
    forall l, k | l in s'.links && 0 <= k < |s'.links[l]| ensures ok(l, s'.links[l][k]) {
      if l == link {
        assert s'.links[l][k] == s.links[l][step.count + k];
      } else if l == back && |s.links[l]| <= k {
        var j := k - |s.links[l]|;
        assert s'.links[l][k] == RepliesTo(capacity(step.at), node, batch)[j];
      } else {
        assert s'.links[l][k] == s.links[l][k];
      }
    }
  }

  lemma DeliverKeepsClocks(capacity: nat -> nat, s: Net, step: Step)
    requires step.Deliver? && Enabled(s, step) && ClocksInOrder(s)
    ensures ClocksInOrder(Next(capacity, s, step))
  {
    hide Taken;
    hide Next;
    hide ReceiveAll;
    hide AllContents;
    hide Accepted;
    var node, batch := s.nodes[step.at], s.links[(step.from, step.at)][..step.count];
    BatchTaken(capacity(step.at), node, batch);
    BatchFollowsOrigin(batch);
    ReceiveAllClocks(node.board, Accepted(Accepts, AllContents(PacketsOf(batch))));
    ReceivedFollowOrigin(node.board, Accepted(Accepts, AllContents(PacketsOf(batch))));
    DeliveredNodes(capacity, s, step);
    DeliveredLinks(capacity, s, step);
    DeliveredParcels(capacity, s, step, (l: Link, p: Parcel) => EntriesFollowOrigin(Contents(p.packet)));
  }

  lemma StepKeepsClocks(capacity: nat -> nat, s: Net, step: Step)
    requires Enabled(s, step) && ClocksInOrder(s)
    ensures ClocksInOrder(Next(capacity, s, step))
  {
    match step
    case Publish(_, _, _) => PublishKeepsClocks(capacity, s, step);
    case Deliver(_, _, _) => DeliverKeepsClocks(capacity, s, step);
    case Ask(_, _, _) =>
    case Cut(_, _) =>
  }

  /** In every run, from any number of servers, with any capacities: the clocks a server stores
      increase strictly, the next one it will use is one above the last, and no copy, stored or
      in flight, has a clock below the one its message was published with. */
  lemma {:induction false} ClockTheorem(capacity: nat -> nat, allowed: Step -> bool, s: Net, steps: seq<Step>)
    requires ClocksInOrder(s) && Possible(capacity, allowed, s, steps)
    ensures ClocksInOrder(Run(capacity, allowed, s, steps))
    decreases |steps|
  {
    if steps == [] {
    } else {
      StepKeepsClocks(capacity, s, steps[0]);
      ClockTheorem(capacity, allowed, Next(capacity, s, steps[0]), steps[1..]);
    }
  }

  lemma InitClocks(n: nat)
    ensures ClocksInOrder(Init(n))
  {
  }

  // ----- causality -----

  /** Every post in the causal past of a publication has a smaller clock. */
  ghost predicate CausallyOrdered(s: Net) {
    forall k, a :: 0 <= k < |s.log| && a in s.log[k].past ==> a.clock < s.log[k].post.clock
  }

  ghost predicate NoEmptyTexts(entries: seq<Stamped<Post>>) {
    forall i :: 0 <= i < |entries| ==> Accepts(entries[i].body)
  }

  /** A parcel's last clock dominates the causal past of its sending. */
  ghost predicate Dominates(p: Parcel) {
    var entries := Contents(p.packet);
    NoEmptyTexts(entries) &&
    forall a <- p.past :: entries != [] && a.clock <= entries[|entries| - 1].clock
  }

  /** A server's next clock is above everything in its causal past, and so is every parcel's. */
  ghost predicate ClocksDominate(s: Net) {
    && CausallyOrdered(s)
    && (forall i :: 0 <= i < |s.nodes| ==>
          NoEmptyTexts(s.nodes[i].board.history) && forall a <- s.nodes[i].known :: a.clock < s.nodes[i].board.clock)
    && (forall l <- s.links, k :: 0 <= k < |s.links[l]| ==> Dominates(s.links[l][k]))
  }

  lemma PublishDominates(capacity: nat -> nat, s: Net, step: Step)
    requires step.Publish? && step.text != "" && Enabled(s, step) && ClocksInOrder(s) && ClocksDominate(s)
    ensures ClocksDominate(Next(capacity, s, step))
  {
    var s' := Next(capacity, s, step);
    var node := s.nodes[step.at];
    var post := Post(step.at, node.board.clock, step.text);
    forall k, a | 0 <= k < |s'.log| && a in s'.log[k].past ensures a.clock < s'.log[k].post.clock {
      if k < |s.log| { assert s'.log[k] == s.log[k]; }
    }
    assert Dominates(Parcel(Share(Stamped(node.board.clock, post)), node.known + {post}));
  }

  /** After a batch the receiver's clock is above everything that the batch was caused by. */
  lemma BatchDominated(board: Board<Post>, batch: seq<Parcel>)
    requires forall k :: 0 <= k < |batch| ==> Dominates(batch[k])
    ensures var all := AllContents(PacketsOf(batch));
      && Accepted(Accepts, all) == all && NoEmptyTexts(all)
      && forall a <- Pasts(batch) :: a.clock < ReceiveAll(board, all).clock
  {
    hide ReceiveAll;
    hide AllContents;
    hide Accepted;
    var all := AllContents(PacketsOf(batch));
    forall i | 0 <= i < |all| ensures Accepts(all[i].body) {
      var k, m := ContentsFrom(PacketsOf(batch), i);
      assert NoEmptyTexts(Contents(batch[k].packet));
    }
    AcceptedAll(Accepts, all);
    forall a | a in Pasts(batch) ensures a.clock < ReceiveAll(board, all).clock {
      var k :| 0 <= k < |batch| && a in batch[k].past;
      var entries := Contents(batch[k].packet);
      assert Dominates(batch[k]);
      var i := ContentsInto(PacketsOf(batch), k, |entries| - 1);
      ReceivedCopy(board, all, i);
    }
  }

  lemma ReceivedNotEmpty(b: Board<Post>, entries: seq<Stamped<Post>>)
    requires NoEmptyTexts(b.history) && NoEmptyTexts(entries)
    ensures NoEmptyTexts(ReceiveAll(b, entries).history)
  {
    var h := ReceiveAll(b, entries).history;
    forall i | 0 <= i < |h| ensures Accepts(h[i].body) {
      if i < |b.history| {
        assert h[i] == h[..|b.history|][i];
      } else {
        ReceivedCopy(b, entries, i - |b.history|);
      }
    }
  }

  lemma WindowDominates(node: Node, capacity: nat)
    requires WellClocked(node.board) && NoEmptyTexts(node.board.history) && 0 < capacity
    requires forall a <- node.known :: a.clock < node.board.clock
    ensures Dominates(Parcel(History(LastN(node.board.history, capacity)), node.known))
  {
  }

  /** A reply answers a request, with nothing but requests in front of it. */
  lemma {:induction false} LeadingAre<T>(ps: seq<Packet<T>>, k: nat)
    requires k < LeadingRequests(ps)
    ensures k < |ps| && ps[k].Request?
    decreases |ps|
  {
    if k == 0 {
    } else {
      LeadingAre(ps[1..], k - 1);
    }
  }

  lemma RepliesAnswer(capacity: nat, node: Node, batch: seq<Parcel>, i: nat)
    requires i < |RepliesTo(capacity, node, batch)|
    ensures i < |batch| && forall k :: 0 <= k <= i ==> batch[k].packet.Request?
  {
    BatchEffect(Accepts, capacity, Intake(node.board, false, []), PacketsOf(batch));
    LeadingAre(PacketsOf(batch), i);
    forall k | 0 <= k <= i ensures batch[k].packet.Request? {
      LeadingAre(PacketsOf(batch), k);
    }
  }

  /** A request that is dominated carries no knowledge. */
  lemma HandoverDominates(capacity: nat, node: Node, batch: seq<Parcel>, i: nat)
    requires WellClocked(node.board) && NoEmptyTexts(node.board.history) && 0 < capacity
    requires forall a <- node.known :: a.clock < node.board.clock
    requires forall k :: 0 <= k < |batch| ==> Dominates(batch[k])
    requires i < |RepliesTo(capacity, node, batch)|
    ensures Dominates(Handover(capacity, node, batch, i))
  {
    RepliesAnswer(capacity, node, batch, i);
    hide RepliesTo;
    hide WellClocked;
    hide NoEmptyTexts;
    forall k | 0 <= k <= i ensures batch[k].past == {} {
      assert Dominates(batch[k]);
    }
    assert Pasts(batch[..i + 1]) == {};
    assert ReplyPast(node.known, batch, i) == node.known;
    WindowDominates(node, capacity);
  }

  /** The receiver after a batch: its clock is above all that it now knows of. */
  lemma TakenDominates(capacity: nat, node: Node, batch: seq<Parcel>)
    requires NoEmptyTexts(node.board.history)
    requires forall a <- node.known :: a.clock < node.board.clock
    requires forall k :: 0 <= k < |batch| ==> Dominates(batch[k])
    ensures var t := Taken(capacity, node, batch);
      && NoEmptyTexts(t.board.history)
      && forall a <- node.known + Pasts(batch) :: a.clock < t.board.clock
  {
    hide Taken;
    hide Pasts;
    hide Dominates;
    var all := AllContents(PacketsOf(batch));
    BatchTaken(capacity, node, batch);
    BatchDominated(node.board, batch);
    ReceivedNotEmpty(node.board, all);
    ReceiveAllGrows(node.board, all);
  }

  lemma DeliverDominates(capacity: nat -> nat, s: Net, step: Step)
    requires step.Deliver? && Enabled(s, step) && ClocksInOrder(s) && ClocksDominate(s)
    requires 0 < capacity(step.at)
    ensures ClocksDominate(Next(capacity, s, step))
  {
    hide Taken;
    hide Pasts;
    hide Dominates;
    hide NoEmptyTexts;
    hide ReceiveAll;
    hide Next;
    var node, batch := s.nodes[step.at], s.links[(step.from, step.at)][..step.count];
    TakenDominates(capacity(step.at), node, batch);
    forall i | 0 <= i < |RepliesTo(capacity(step.at), node, batch)|
      ensures Dominates(Handover(capacity(step.at), node, batch, i))
    {
      HandoverDominates(capacity(step.at), node, batch, i);
    }
    DeliveredNodes(capacity, s, step);
    DeliveredLinks(capacity, s, step);
    DeliveredParcels(capacity, s, step, (l: Link, p: Parcel) => Dominates(p));
  }

  lemma StepDominates(capacity: nat -> nat, s: Net, step: Step)
    requires Enabled(s, step) && ClocksInOrder(s) && ClocksDominate(s)
    requires (step.Publish? ==> step.text != "") && (step.Ask? ==> !step.again)
    requires forall i :: 0 < capacity(i)
    ensures ClocksDominate(Next(capacity, s, step))
  {
    match step
    case Publish(_, _, _) => PublishDominates(capacity, s, step);
    case Deliver(_, _, _) => DeliverDominates(capacity, s, step);
    case Ask(at, peer, _) => assert s.nodes[at].known == {};
    case Cut(_, _) =>
  }

  lemma {:induction false} RunDominates(capacity: nat -> nat, allowed: Step -> bool, s: Net, steps: seq<Step>)
    requires ClocksInOrder(s) && ClocksDominate(s) && Possible(capacity, allowed, s, steps)
    requires forall step: Step :: allowed(step) ==> (step.Publish? ==> step.text != "") && (step.Ask? ==> !step.again)
    requires forall i :: 0 < capacity(i)
    ensures ClocksDominate(Run(capacity, allowed, s, steps))
    decreases |steps|
  {
    if steps == [] {
    } else {
      StepKeepsClocks(capacity, s, steps[0]);
      StepDominates(capacity, s, steps[0]);
      RunDominates(capacity, allowed, Next(capacity, s, steps[0]), steps[1..]);
    }
  }

  lemma InitFacts(n: nat)
    ensures var s := Init(n);
      && |s.nodes| == n && s.log == []
      && (forall i :: 0 <= i < n ==> s.nodes[i] == Node(Board([], 0), {}))
      && (forall i, j :: 0 <= i < n && 0 <= j < n && i != j ==> (i, j) in s.links)
      && (forall l <- s.links :: s.links[l] == [] && l.0 < n && l.1 < n && l.0 != l.1)
  {
  }

  // ----- one step more -----

  lemma OneStep(capacity: nat -> nat, allowed: Step -> bool, s: Net, step: Step)
    requires allowed(step) && Enabled(s, step)
    ensures Possible(capacity, allowed, s, [step])
    ensures Run(capacity, allowed, s, [step]) == Next(capacity, s, step)
  {
    hide Next;
    hide Enabled;
    assert [step][1..] == [];
    assert Possible(capacity, allowed, Next(capacity, s, step), []);
  }

  /** A run and one further step are a run. */
  lemma {:induction false} OneMore(capacity: nat -> nat, allowed: Step -> bool, s: Net, steps: seq<Step>, step: Step)
    requires Possible(capacity, allowed, s, steps)
    requires allowed(step) && Enabled(Run(capacity, allowed, s, steps), step)
    ensures Possible(capacity, allowed, s, steps + [step])
    ensures Run(capacity, allowed, s, steps + [step]) == Next(capacity, Run(capacity, allowed, s, steps), step)
    decreases |steps|
  {
    hide Next;
    hide Enabled;
    var more := steps + [step];
    if steps == [] {
      assert more == [step] && [step][1..] == [];
      assert Possible(capacity, allowed, Next(capacity, s, step), []);
    } else {
      assert more[0] == steps[0] && more[1..] == steps[1..] + [step];
      OneMore(capacity, allowed, Next(capacity, s, steps[0]), steps[1..], step);
    }
  }

  // ----- a post identifies its publication -----

  /** Every post comes from a server of the network, at a clock which that server has left
      behind, and was published once. */
  ghost predicate PostsDistinct(s: Net) {
    && (forall k :: 0 <= k < |s.log| ==>
          var p := s.log[k].post; p.origin < |s.nodes| && p.clock < s.nodes[p.origin].board.clock)
    && (forall i, j :: 0 <= i < j < |s.log| ==> s.log[i].post != s.log[j].post)
  }

  lemma StepKeepsPosts(capacity: nat -> nat, s: Net, step: Step)
    requires Enabled(s, step) && PostsDistinct(s)
    ensures PostsDistinct(Next(capacity, s, step))
  {
    if step.Deliver? {
      hide Taken;
      hide Pasts;
      var node, batch := s.nodes[step.at], s.links[(step.from, step.at)][..step.count];
      DeliveredNodes(capacity, s, step);
      BatchTaken(capacity(step.at), node, batch);
      ReceiveAllGrows(node.board, Accepted(Accepts, AllContents(PacketsOf(batch))));
    }
  }

  /** On every run, no two publications are the same post. */
  lemma {:induction false} PostsTheorem(capacity: nat -> nat, allowed: Step -> bool, s: Net, steps: seq<Step>)
    requires PostsDistinct(s) && Possible(capacity, allowed, s, steps)
    ensures PostsDistinct(Run(capacity, allowed, s, steps))
    decreases |steps|
  {
    if steps == [] {
    } else {
      StepKeepsPosts(capacity, s, steps[0]);
      PostsTheorem(capacity, allowed, Next(capacity, s, steps[0]), steps[1..]);
    }
  }
}
