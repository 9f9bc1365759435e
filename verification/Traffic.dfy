/** What every step of the protocol does to every link and server: which messages a link carries
    afterwards, and which a server stores (src/msgserv/message.c, lines 37-75, 119-176 and 247-261). */
module Traffic {
  import opened CText
  import opened Boards
  import opened Packets
  import opened Replication
  import opened Mesh

  /** When each step can be taken: whatever a datagram yields can be published at any time, any
      number of parcels can be delivered together, any connection can be lost, and a server that
      has not served can ask any peer. */
  lemma WhatCanHappen(s: Net, i: nat, j: nat, count: nat, text: string, peers: set<nat>)
    requires i < |s.nodes| && j < |s.nodes| && i != j && (i, j) in s.links && (j, i) in s.links
    ensures |text| <= 140 && '\n' !in text && '\0' !in text ==> Enabled(s, Publish(i, text, peers))
    ensures 1 <= count <= |s.links[(i, j)]| ==> Enabled(s, Deliver(i, j, count))
    ensures (forall k :: 0 <= k < |s.log| ==> s.log[k].post.origin != i) ==>
      Enabled(s, Ask(i, j, true)) && (s.nodes[i].board.history == [] ==> Enabled(s, Ask(i, j, false)))
    ensures Enabled(s, Cut(i, j))
  {
  }

  /** Published is one message, stored at its server alone; it is on its way to exactly the peers
      that it is shared with, behind everything that is on its way already, unless it is empty. */
  lemma PublishTraffic(capacity: nat -> nat, s: Net, at: nat, text: string, peers: set<nat>, l: Link)
    requires Enabled(s, Publish(at, text, peers)) && l in s.links
    ensures var s' := Next(capacity, s, Publish(at, text, peers));
      var post := Post(at, s.nodes[at].board.clock, text);
      && l in s'.links
      && Carried(s'.links[l]) ==
         Carried(s.links[l]) + (if l.0 == at && l.1 in peers && text != "" then [post] else [])
      && Posts(s'.log) == Posts(s.log) + [post]
      && |s'.nodes| == |s.nodes|
      && forall i :: 0 <= i < |s.nodes| ==>
           Bodies(s'.nodes[i].board.history) == Bodies(s.nodes[i].board.history) + (if i == at then [post] else [])
  {
    var s' := Next(capacity, s, Publish(at, text, peers));
    var node := s.nodes[at];
    var post := Post(at, node.board.clock, text);
    var parcel := Parcel(Share(Stamped(node.board.clock, post)), node.known + {post});
    assert s'.links[l] == if l.0 == at && l.1 in peers then s.links[l] + [parcel] else s.links[l];
    CarriedPush(s.links[l], parcel);
    hide Carried;
    assert Carried(s.links[l]) + [] == Carried(s.links[l]);
  }

  /** A delivery takes as many parcels from the front of its link as it treats, and stores what
      they carry; the boards that are handed over in reply go on the way back; nothing else moves. */
  lemma DeliverTraffic(capacity: nat -> nat, s: Net, from: nat, at: nat, count: nat, l: Link)
    requires Enabled(s, Deliver(from, at, count)) && l in s.links
    ensures var s' := Next(capacity, s, Deliver(from, at, count));
      var queue := s.links[(from, at)];
      var asked := LeadingRequests(PacketsOf(queue[..count]));
      && l in s'.links
      && (l == (from, at) ==> Carried(s.links[l]) == Carried(queue[..count]) + Carried(s'.links[l]))
      && (l == (at, from) ==>
            && |s'.links[l]| == |s.links[l]| + asked && s'.links[l][..|s.links[l]|] == s.links[l]
            && forall k :: |s.links[l]| <= k < |s'.links[l]| ==>
                 s'.links[l][k].packet == History(LastN(s.nodes[at].board.history, capacity(at))))
      && (l != (from, at) && l != (at, from) ==> s'.links[l] == s.links[l])
      && Posts(s'.log) == Posts(s.log) && |s'.nodes| == |s.nodes|
      && forall i :: 0 <= i < |s.nodes| ==>
           Bodies(s'.nodes[i].board.history) ==
           Bodies(s.nodes[i].board.history) + (if i == at then Carried(queue[..count]) else [])
  {
    var step := Deliver(from, at, count);
    var s' := Next(capacity, s, step);
    var queue, node := s.links[(from, at)], s.nodes[at];
    DeliveredNodes(capacity, s, step);
    DeliveredLinks(capacity, s, step);
    BatchEffect(Accepts, capacity(at), Intake(node.board, false, []), PacketsOf(queue[..count]));
    BatchTaken(capacity(at), node, queue[..count]);
    RepliesAreHandovers(capacity(at), node, queue[..count]);
    ReceivedBodies(node.board, Accepted(Accepts, AllContents(PacketsOf(queue[..count]))));
    CarriedMeans(queue[..count]);
    CarriedConcat(queue[..count], queue[count..]);
    assert queue == queue[..count] + queue[count..];
    hide Next;
    hide Carried;
    hide Bodies;
    hide AllContents;
    hide Accepted;
    hide HandleAll;
    hide ReceiveAll;
    hide LeadingRequests;
  }

  /** A request goes on one link, behind everything on its way there, and carries no message. */
  lemma AskTraffic(capacity: nat -> nat, s: Net, at: nat, peer: nat, again: bool, l: Link)
    requires Enabled(s, Ask(at, peer, again)) && l in s.links
    ensures var s' := Next(capacity, s, Ask(at, peer, again));
      && l in s'.links && s'.nodes == s.nodes && s'.log == s.log
      && (l == (at, peer) ==>
            |s'.links[l]| == |s.links[l]| + 1 && s'.links[l][..|s.links[l]|] == s.links[l]
            && s'.links[l][|s.links[l]|].packet == Request)
      && (l != (at, peer) ==> s'.links[l] == s.links[l])
  {
  }

  /** A lost connection loses exactly what is on its link. */
  lemma CutTraffic(capacity: nat -> nat, s: Net, from: nat, at: nat, l: Link)
    requires Enabled(s, Cut(from, at)) && l in s.links
    ensures var s' := Next(capacity, s, Cut(from, at));
      && l in s'.links && s'.nodes == s.nodes && s'.log == s.log
      && Carried(s'.links[l]) == (if l == (from, at) then [] else Carried(s.links[l]))
      && (l == (from, at) ==> |s'.links[l]| == 0)
  {
    CarriedNothing();
  }

  // ----- what leads to what -----

  /** A publication follows from everything that its server knew, and its share from that and the
      publication; the server knows it from then on. */
  lemma PublishCauses(capacity: nat -> nat, s: Net, at: nat, text: string, peers: set<nat>)
    requires Enabled(s, Publish(at, text, peers))
    ensures var s' := Next(capacity, s, Publish(at, text, peers));
      var post := Post(at, s.nodes[at].board.clock, text);
      && |s'.log| == |s.log| + 1 && s'.log[|s.log|] == Birth(post, s.nodes[at].known)
      && (forall a :: a in s'.nodes[at].known <==> a in s.nodes[at].known || a == post)
      && forall l <- s.links :: l.0 == at && l.1 in peers ==>
           |s'.links[l]| == |s.links[l]| + 1
           && (forall a :: a in s'.links[l][|s.links[l]|].past <==> a in s.nodes[at].known || a == post)
  {
  }

  /** After a delivery a server knows what it knew and what led to each parcel. */
  lemma DeliverCauses(capacity: nat -> nat, s: Net, from: nat, at: nat, count: nat, a: Post)
    requires Enabled(s, Deliver(from, at, count))
    ensures a in Next(capacity, s, Deliver(from, at, count)).nodes[at].known <==>
      a in s.nodes[at].known || exists k :: 0 <= k < count && a in s.links[(from, at)][k].past
  {
    var batch := s.links[(from, at)][..count];
    DeliveredNodes(capacity, s, Deliver(from, at, count));
    hide Next;
    hide Taken;
    hide Pasts;
    PastsMean(batch);
    assert forall k :: 0 <= k < count ==> batch[k] == s.links[(from, at)][k];
  }

  /** A board that is handed over follows from what the server knew and from the requests up to
      the one it answers. */
  lemma ReplyCauses(capacity: nat -> nat, s: Net, from: nat, at: nat, count: nat, i: nat, a: Post)
    requires Enabled(s, Deliver(from, at, count))
    requires |s.links[(at, from)]| + i < |Next(capacity, s, Deliver(from, at, count)).links[(at, from)]|
    ensures i < count
    ensures a in Next(capacity, s, Deliver(from, at, count)).links[(at, from)][|s.links[(at, from)]| + i].past <==>
      a in s.nodes[at].known || exists k :: 0 <= k <= i && a in s.links[(from, at)][k].past
  {
    var s' := Next(capacity, s, Deliver(from, at, count));
    var node, back, batch := s.nodes[at], s.links[(at, from)], s.links[(from, at)][..count];
    DeliveredLinks(capacity, s, Deliver(from, at, count));
    RepliesAreHandovers(capacity(at), node, batch);
    hide Next;
    hide RepliesTo;
    hide Taken;
    hide Pasts;
    RepliesAnswer(capacity(at), node, batch, i);
    assert s'.links[(at, from)][|back| + i] == Handover(capacity(at), node, batch, i);
    PastsMean(batch[..i + 1]);
    assert forall k :: 0 <= k <= i ==> batch[..i + 1][k] == s.links[(from, at)][k];
  }

  lemma PastsMean(batch: seq<Parcel>)
    ensures forall a :: a in Pasts(batch) <==> exists k :: 0 <= k < |batch| && a in batch[k].past
  {
  }

  /** A request follows from everything that its server knows. */
  lemma AskCauses(capacity: nat -> nat, s: Net, at: nat, peer: nat, again: bool)
    requires Enabled(s, Ask(at, peer, again))
    ensures var queue := Next(capacity, s, Ask(at, peer, again)).links[(at, peer)];
      queue != [] && queue[|queue| - 1].past == s.nodes[at].known
  {
  }

  // ----- nothing is made up -----

  ghost predicate InLog(log: seq<Birth>, entries: seq<Stamped<Post>>) {
    forall m :: 0 <= m < |entries| ==> entries[m].body in Posts(log)
  }

  /** Whatever is stored or carried anywhere has been published. */
  ghost predicate AllPublished(s: Net) {
    && (forall i :: 0 <= i < |s.nodes| ==> InLog(s.log, s.nodes[i].board.history))
    && (forall l <- s.links, k :: 0 <= k < |s.links[l]| ==> InLog(s.log, Contents(s.links[l][k].packet)))
  }

  lemma InLogStays(log: seq<Birth>, birth: Birth, entries: seq<Stamped<Post>>)
    requires InLog(log, entries)
    ensures InLog(log + [birth], entries)
  {
    assert Posts(log + [birth]) == Posts(log) + [birth.post];
  }

  lemma PublishPublished(capacity: nat -> nat, s: Net, step: Step)
    requires step.Publish? && Enabled(s, step) && AllPublished(s)
    ensures AllPublished(Next(capacity, s, step))
  {
    var s' := Next(capacity, s, step);
    var node := s.nodes[step.at];
    var post := Post(step.at, node.board.clock, step.text);
    var birth := Birth(post, node.known);
    assert Posts(s'.log) == Posts(s.log) + [post];
    InLogStays(s.log, birth, node.board.history);
    forall i | 0 <= i < |s'.nodes| ensures InLog(s'.log, s'.nodes[i].board.history) {
      InLogStays(s.log, birth, s.nodes[i].board.history);
    }
    forall l, k | l in s'.links && 0 <= k < |s'.links[l]| ensures InLog(s'.log, Contents(s'.links[l][k].packet)) {
      if k < |s.links[l]| {
        assert s'.links[l][k] == s.links[l][k];
        InLogStays(s.log, birth, Contents(s.links[l][k].packet));
      }
    }
  }

  lemma BatchPublished(log: seq<Birth>, board: Board<Post>, batch: seq<Parcel>)
    requires InLog(log, board.history)
    requires forall k :: 0 <= k < |batch| ==> InLog(log, Contents(batch[k].packet))
    ensures InLog(log, ReceiveAll(board, Accepted(Accepts, AllContents(PacketsOf(batch)))).history)
  {
    hide AllContents;
    hide Accepted;
    var all := AllContents(PacketsOf(batch));
    var kept := Accepted(Accepts, all);
    var h := ReceiveAll(board, kept).history;
    hide ReceiveAll;
    forall m | 0 <= m < |h| ensures h[m].body in Posts(log) {
      if m < |board.history| {
        assert h[m] == h[..|board.history|][m];
      } else {
        ReceivedCopy(board, kept, m - |board.history|);
        var j := AcceptedFrom(Accepts, all, m - |board.history|);
        var k, i := ContentsFrom(PacketsOf(batch), j);
        assert InLog(log, Contents(batch[k].packet));
      }
    }
  }

  lemma DeliverPublished(capacity: nat -> nat, s: Net, step: Step)
    requires step.Deliver? && Enabled(s, step) && AllPublished(s)
    ensures AllPublished(Next(capacity, s, step))
  {
    var node, batch := s.nodes[step.at], s.links[(step.from, step.at)][..step.count];
    DeliveredNodes(capacity, s, step);
    hide Next;
    hide Taken;
    hide InLog;
    BatchTaken(capacity(step.at), node, batch);
    BatchPublished(s.log, node.board, batch);
    WindowInLog(s.log, capacity(step.at), node);
    DeliveredParcels(capacity, s, step, (l: Link, p: Parcel) => InLog(s.log, Contents(p.packet)));
  }

  lemma WindowInLog(log: seq<Birth>, capacity: nat, node: Node)
    requires InLog(log, node.board.history)
    ensures forall batch, i :: InLog(log, Contents(Handover(capacity, node, batch, i).packet))
  {
  }

  /** On every run, with any topology, joins and lost connections. */
  lemma {:induction false} NothingMadeUp(capacity: nat -> nat, allowed: Step -> bool, s: Net, steps: seq<Step>)
    requires AllPublished(s) && Possible(capacity, allowed, s, steps)
    ensures AllPublished(Run(capacity, allowed, s, steps))
    decreases |steps|
  {
    hide InLog;
    if steps == [] {
    } else {
      match steps[0] {
        case Publish(_, _, _) => PublishPublished(capacity, s, steps[0]);
        case Deliver(_, _, _) => DeliverPublished(capacity, s, steps[0]);
        case Ask(_, _, _) => AskPublished(capacity, s, steps[0]);
        case Cut(_, _) =>
      }
      NothingMadeUp(capacity, allowed, Next(capacity, s, steps[0]), steps[1..]);
    }
  }

  lemma AskPublished(capacity: nat -> nat, s: Net, step: Step)
    requires step.Ask? && Enabled(s, step) && AllPublished(s)
    ensures AllPublished(Next(capacity, s, step))
  {
  }
}
