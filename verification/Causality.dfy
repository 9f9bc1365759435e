/** Which runs respect causality: a publication has a greater clock than everything that led to it
    (src/msgserv/message.c, lines 156-176, and src/utils/struct_message.c, lines 91-101). */
module Causality {
  import opened Boards
  import opened Packets
  import opened Replication

  /** The runs that publish only texts of a given kind, and in which a server may (`retries`) or
      may not ask for a board after a failed join, when it has one already. */
  function Runs(kind: string -> bool, retries: bool): Step -> bool {
    (step: Step) => (step.Publish? ==> kind(step.text)) && (step.Ask? && step.again ==> retries)
  }

  lemma RunsAllow(kind: string -> bool, retries: bool, step: Step)
    requires step.Publish? ==> kind(step.text)
    requires step.Ask? && step.again ==> retries
    ensures Runs(kind, retries)(step)
  {
  }

  // ----- an empty text is dropped with its clock -----

  /** The first publication of the run below. */
  lemma EmptyTextShared(capacity: nat -> nat, n: nat, s: Net)
    requires 2 <= n && Enabled(Init(n), Publish(0, "", {1})) && s == Next(capacity, Init(n), Publish(0, "", {1}))
    ensures |s.nodes| == n && s.nodes[1] == Node(Board([], 0), {}) && |s.log| == 1
    ensures (0, 1) in s.links && (1, 0) in s.links
    ensures s.links[(0, 1)] == [Parcel(Share(Stamped(0, Post(0, 0, ""))), {Post(0, 0, "")})]
  {
    InitFacts(n);
    hide Init;
    assert (0, 1) in Init(n).links && (1, 0) in Init(n).links;
    var post := Post(0, 0, "");
    assert {} + {post} == {post};
    var parcel := Parcel(Share(Stamped(0, post)), {post});
    assert [] + [parcel] == [parcel];
  }

  /** The delivery: the peer drops the text, and with it the clock. */
  lemma EmptyTextDropped(capacity: nat -> nat, s: Net)
    requires 2 <= |s.nodes| && s.nodes[1] == Node(Board([], 0), {})
    requires (0, 1) in s.links && (1, 0) in s.links
    requires s.links[(0, 1)] == [Parcel(Share(Stamped(0, Post(0, 0, ""))), {Post(0, 0, "")})]
    ensures Enabled(s, Deliver(0, 1, 1))
    ensures var s' := Next(capacity, s, Deliver(0, 1, 1));
      |s'.nodes| == |s.nodes| && s'.log == s.log && s'.nodes[1] == Node(Board([], 0), {Post(0, 0, "")})
  {
    hide Taken;
    var batch := s.links[(0, 1)];
    assert batch[..1] == batch;
    assert Pasts(batch) == {Post(0, 0, "")} by {
      assert batch[0].past == {Post(0, 0, "")};
    }
    BatchTaken(capacity(1), s.nodes[1], batch);
    OneShare(batch[0].packet.entry, batch);
    DeliveredNodes(capacity, s, Deliver(0, 1, 1));
  }

  lemma OneShare(entry: Stamped<Post>, batch: seq<Parcel>)
    requires |batch| == 1 && batch[0].packet == Share(entry) && entry.body.text == ""
    ensures Accepted(Accepts, AllContents(PacketsOf(batch))) == []
  {
    assert PacketsOf(batch)[1..] == [];
  }

  lemma FirstEnabled(n: nat)
    requires 2 <= n
    ensures Enabled(Init(n), Publish(0, "", {1}))
  {
    InitFacts(n);
  }

  /** The second publication: its clock is not above that of the post it follows. */
  lemma EmptyTextReordered(capacity: nat -> nat, s: Net)
    requires 2 <= |s.nodes| && |s.log| == 1 && s.nodes[1] == Node(Board([], 0), {Post(0, 0, "")})
    ensures Enabled(s, Publish(1, "", {}))
    ensures !CausallyOrdered(Next(capacity, s, Publish(1, "", {})))
  {
    var s' := Next(capacity, s, Publish(1, "", {}));
    assert s'.log[1] == Birth(Post(1, 0, ""), {Post(0, 0, "")});
    assert Post(0, 0, "") in s'.log[1].past;
  }

  /** Two publications of the empty text, the second after the first was delivered. */
  lemma EmptyTextBreaksCausality(capacity: nat -> nat, kind: string -> bool, retries: bool, n: nat)
    requires 2 <= n && kind("")
    ensures exists steps :: Possible(capacity, Runs(kind, retries), Init(n), steps)
                         && !CausallyOrdered(Run(capacity, Runs(kind, retries), Init(n), steps))
  {
    hide *;
    var allowed := Runs(kind, retries);
    var first, second, third := Publish(0, "", {1}), Deliver(0, 1, 1), Publish(1, "", {});
    RunsAllow(kind, retries, first);
    RunsAllow(kind, retries, second);
    RunsAllow(kind, retries, third);
    FirstEnabled(n);
    OneStep(capacity, allowed, Init(n), first);
    EmptyTextShared(capacity, n, Next(capacity, Init(n), first));
    EmptyTextDropped(capacity, Next(capacity, Init(n), first));
    OneMore(capacity, allowed, Init(n), [first], second);
    EmptyTextReordered(capacity, Next(capacity, Next(capacity, Init(n), first), second));
    OneMore(capacity, allowed, Init(n), [first] + [second], third);
  }

  // ----- a request carries knowledge, but no clock -----

  /** Server 2 publishes x and shares it with server 0, which has failed to join. */
  ghost predicate XShared(s: Net, x: Post) {
    && 3 <= |s.nodes| && s.nodes[0] == s.nodes[1] == Node(Board([], 0), {})
    && (0, 1) in s.links && (1, 0) in s.links && (2, 0) in s.links && (0, 2) in s.links
    && s.links[(0, 1)] == [] && s.links[(2, 0)] == [Parcel(Share(Stamped(0, x)), {x})]
    && |s.log| == 1 && s.log[0].post == x
  }

  lemma XIsShared(capacity: nat -> nat, n: nat, text: string)
    requires 3 <= n && Publishable(text)
    ensures Enabled(Init(n), Publish(2, text, {0}))
    ensures XShared(Next(capacity, Init(n), Publish(2, text, {0})), Post(2, 0, text))
  {
    InitFacts(n);
    hide Init;
    var s := Init(n);
    assert (0, 1) in s.links && (1, 0) in s.links && (2, 0) in s.links && (0, 2) in s.links;
    var x := Post(2, 0, text);
    assert {} + {x} == {x};
    var parcel := Parcel(Share(Stamped(0, x)), {x});
    assert [] + [parcel] == [parcel];
  }

  /** Server 0 has received x, and asks server 1. */
  ghost predicate XReceived(s: Net, x: Post) {
    && 3 <= |s.nodes| && s.nodes[0].known == {x} && s.nodes[1] == Node(Board([], 0), {})
    && (0, 1) in s.links && (1, 0) in s.links && s.links[(0, 1)] == []
    && |s.log| == 1 && s.log[0].post == x
  }

  lemma XIsReceived(capacity: nat -> nat, s: Net, x: Post)
    requires XShared(s, x)
    ensures Enabled(s, Deliver(2, 0, 1))
    ensures XReceived(Next(capacity, s, Deliver(2, 0, 1)), x)
  {
    hide Taken;
    var batch := s.links[(2, 0)];
    assert batch[..1] == batch;
    assert Pasts(batch) == {x} by {
      assert batch[0].past == {x};
    }
    DeliveredNodes(capacity, s, Deliver(2, 0, 1));
    DeliveredLinks(capacity, s, Deliver(2, 0, 1));
  }

  ghost predicate Requested(s: Net, x: Post) {
    && 3 <= |s.nodes| && s.nodes[1] == Node(Board([], 0), {})
    && (0, 1) in s.links && (1, 0) in s.links && s.links[(0, 1)] == [Parcel(Request, {x})]
    && |s.log| == 1
  }

  lemma XIsRequested(capacity: nat -> nat, s: Net, x: Post)
    requires XReceived(s, x) && x.origin != 0
    ensures Enabled(s, Ask(0, 1, true))
    ensures Requested(Next(capacity, s, Ask(0, 1, true)), x)
  {
    assert [] + [Parcel(Request, {x})] == [Parcel(Request, {x})];
  }

  /** The request leaves server 1 with x in its causal past, but at its old clock. */
  lemma RequestDelivered(capacity: nat -> nat, s: Net, x: Post)
    requires Requested(s, x)
    ensures Enabled(s, Deliver(0, 1, 1))
    ensures var s' := Next(capacity, s, Deliver(0, 1, 1));
      2 <= |s'.nodes| && |s'.log| == 1 && s'.nodes[1] == Node(Board([], 0), {x})
  {
    hide Taken;
    var batch := s.links[(0, 1)];
    assert batch[..1] == batch;
    assert Pasts(batch) == {x} by {
      assert batch[0].past == {x};
    }
    BatchTaken(capacity(1), s.nodes[1], batch);
    NothingCarried(batch);
    DeliveredNodes(capacity, s, Deliver(0, 1, 1));
  }

  lemma NothingCarried(batch: seq<Parcel>)
    requires |batch| == 1 && batch[0].packet == Request
    ensures Accepted(Accepts, AllContents(PacketsOf(batch))) == []
  {
    assert PacketsOf(batch)[1..] == [];
  }

  lemma PublishedBehind(capacity: nat -> nat, s: Net, x: Post, text: string)
    requires 2 <= |s.nodes| && |s.log| == 1 && s.nodes[1] == Node(Board([], 0), {x})
    requires x.clock == 0 && Publishable(text)
    ensures Enabled(s, Publish(1, text, {}))
    ensures !CausallyOrdered(Next(capacity, s, Publish(1, text, {})))
  {
    var s' := Next(capacity, s, Publish(1, text, {}));
    assert s'.log[1] == Birth(Post(1, 0, text), {x});
    assert x in s'.log[1].past;
  }

  /** A server that joins again asks with what it has received in the meantime in its causal
      past. The server that is asked learns no clock from the request. */
  lemma RetryBreaksCausality(capacity: nat -> nat, kind: string -> bool, n: nat, text: string)
    requires 3 <= n && kind(text) && Publishable(text)
    ensures exists steps :: Possible(capacity, Runs(kind, true), Init(n), steps)
                         && !CausallyOrdered(Run(capacity, Runs(kind, true), Init(n), steps))
  {
    hide *;
    var allowed := Runs(kind, true);
    var x := Post(2, 0, text);
    var a, b, c, d, e := Publish(2, text, {0}), Deliver(2, 0, 1), Ask(0, 1, true), Deliver(0, 1, 1), Publish(1, text, {});
    RunsAllow(kind, true, a);
    RunsAllow(kind, true, b);
    RunsAllow(kind, true, c);
    RunsAllow(kind, true, d);
    RunsAllow(kind, true, e);
    XIsShared(capacity, n, text);
    OneStep(capacity, allowed, Init(n), a);
    var s1 := Next(capacity, Init(n), a);
    XIsReceived(capacity, s1, x);
    OneMore(capacity, allowed, Init(n), [a], b);
    var s2 := Next(capacity, s1, b);
    XIsRequested(capacity, s2, x);
    OneMore(capacity, allowed, Init(n), [a] + [b], c);
    var s3 := Next(capacity, s2, c);
    RequestDelivered(capacity, s3, x);
    OneMore(capacity, allowed, Init(n), [a] + [b] + [c], d);
    PublishedBehind(capacity, Next(capacity, s3, d), x, text);
    OneMore(capacity, allowed, Init(n), [a] + [b] + [c] + [d], e);
  }

  // ----- nothing else breaks it -----

  lemma {:induction false} NothingPublished(capacity: nat -> nat, allowed: Step -> bool, s: Net, steps: seq<Step>)
    requires s.log == [] && Possible(capacity, allowed, s, steps)
    requires forall step: Step :: allowed(step) && step.Publish? ==> !Publishable(step.text)
    ensures Run(capacity, allowed, s, steps).log == []
    decreases |steps|
  {
    hide Taken;
    if steps == [] {
    } else {
      NothingPublished(capacity, allowed, Next(capacity, s, steps[0]), steps[1..]);
    }
  }

  ghost predicate AnythingPublishable(kind: string -> bool) {
    exists text :: Publishable(text) && kind(text)
  }

  // ----- between two servers a request tells nothing new -----

  ghost predicate InLog(s: Net, a: Post) { exists k :: 0 <= k < |s.log| && s.log[k].post == a }

  /** What led to a request was published at the server that is asked; the clocks of any other
      parcel dominate what led to it. */
  ghost predicate Credible(s: Net, l: Link, p: Parcel) {
    && (forall a <- p.past :: InLog(s, a))
    && NoEmptyTexts(Contents(p.packet))
    && if p.packet.Request? then forall a <- p.past :: a.origin == l.1 else Dominates(p)
  }

  ghost predicate KnowsBelow(s: Net, node: Node) {
    forall a <- node.known :: InLog(s, a) && a.clock < node.board.clock
  }

  ghost predicate PairStructure(s: Net) {
    |s.nodes| <= 2 && forall l <- s.links :: l.0 < |s.nodes| && l.1 < |s.nodes| && l.0 != l.1
  }

  ghost predicate NodesFine(s: Net) {
    forall i :: 0 <= i < |s.nodes| ==> NoEmptyTexts(s.nodes[i].board.history) && KnowsBelow(s, s.nodes[i])
  }

  ghost predicate LinksFine(s: Net) {
    forall l <- s.links, k :: 0 <= k < |s.links[l]| ==> Credible(s, l, s.links[l][k])
  }

  ghost predicate PairInvariant(s: Net) {
    PairStructure(s) && ClocksInOrder(s) && PostsDistinct(s) && CausallyOrdered(s) && NodesFine(s) && LinksFine(s)
  }

  lemma CredibleStays(s: Net, s': Net, l: Link, p: Parcel)
    requires Credible(s, l, p) && |s.log| <= |s'.log| && s'.log[..|s.log|] == s.log
    ensures Credible(s', l, p)
  {
    forall a | a in p.past ensures InLog(s', a) {
      var k :| 0 <= k < |s.log| && s.log[k].post == a;
      assert s'.log[k] == s'.log[..|s.log|][k];
    }
  }

  lemma KnowsStays(s: Net, s': Net, node: Node)
    requires KnowsBelow(s, node) && |s.log| <= |s'.log| && s'.log[..|s.log|] == s.log
    ensures KnowsBelow(s', node)
  {
    forall a | a in node.known ensures InLog(s', a) {
      var k :| 0 <= k < |s.log| && s.log[k].post == a;
      assert s'.log[k] == s'.log[..|s.log|][k];
    }
  }

  /** What a publication leaves of servers, links and log. */
  lemma Published(capacity: nat -> nat, s: Net, step: Step)
    requires step.Publish? && Enabled(s, step)
    ensures var s' := Next(capacity, s, step);
      var node := s.nodes[step.at];
      var post := Post(step.at, node.board.clock, step.text);
      var parcel := Parcel(Share(Stamped(node.board.clock, post)), node.known + {post});
      && s'.nodes == s.nodes[step.at := Node(Append(node.board, post), node.known + {post})]
      && s'.log == s.log + [Birth(post, node.known)] && s'.links.Keys == s.links.Keys
      && forall l <- s.links :: (s'.links[l] == s.links[l] || s'.links[l] == s.links[l] + [parcel])
  {
  }

  lemma PairPublishLinks(s: Net, s': Net, birth: Birth, parcel: Parcel)
    requires s'.log == s.log + [birth] && s'.links.Keys == s.links.Keys
    requires LinksFine(s)
    requires forall l <- s.links :: (s'.links[l] == s.links[l] || s'.links[l] == s.links[l] + [parcel])
    requires forall l: Link :: Credible(s', l, parcel)
    ensures LinksFine(s')
  {
    assert s'.log[..|s.log|] == s.log;
    hide Credible;
    forall l, k | l in s'.links && 0 <= k < |s'.links[l]| ensures Credible(s', l, s'.links[l][k]) {
      if k < |s.links[l]| {
        assert s'.links[l][k] == s.links[l][k];
        CredibleStays(s, s', l, s.links[l][k]);
      }
    }
  }

  /** The parcel of a publication dominates what led to it. */
  lemma NewParcelCredible(s: Net, s': Net, node: Node, post: Post)
    requires KnowsBelow(s, node) && s'.log == s.log + [Birth(post, node.known)]
    requires Accepts(post) && post.clock == node.board.clock
    ensures KnowsBelow(s', Node(Append(node.board, post), node.known + {post}))
    ensures forall l: Link :: Credible(s', l, Parcel(Share(Stamped(node.board.clock, post)), node.known + {post}))
  {
    assert s'.log[..|s.log|] == s.log;
    KnowsStays(s, s', node);
    assert InLog(s', post) by { assert s'.log[|s.log|].post == post; }
  }

  lemma PublishOrdered(s: Net, s': Net, node: Node, post: Post)
    requires CausallyOrdered(s) && KnowsBelow(s, node) && post.clock == node.board.clock
    requires s'.log == s.log + [Birth(post, node.known)]
    ensures CausallyOrdered(s')
  {
    forall k, a | 0 <= k < |s'.log| && a in s'.log[k].past ensures a.clock < s'.log[k].post.clock {
      if k < |s.log| { assert s'.log[k] == s.log[k]; }
    }
  }

  lemma PublishNodesFine(s: Net, s': Net, at: nat, post: Post)
    requires at < |s.nodes| && NodesFine(s) && s'.log == s.log + [Birth(post, s.nodes[at].known)]
    requires s'.nodes == s.nodes[at := Node(Append(s.nodes[at].board, post), s.nodes[at].known + {post})]
    requires Accepts(post) && KnowsBelow(s', s'.nodes[at])
    ensures NodesFine(s')
  {
    assert s'.log[..|s.log|] == s.log;
    hide KnowsBelow;
    forall i | 0 <= i < |s'.nodes| ensures NoEmptyTexts(s'.nodes[i].board.history) && KnowsBelow(s', s'.nodes[i]) {
      if i != at { KnowsStays(s, s', s.nodes[i]); }
    }
  }

  lemma PairPublish(capacity: nat -> nat, s: Net, step: Step)
    requires step.Publish? && step.text != "" && Enabled(s, step) && PairInvariant(s)
    ensures PairInvariant(Next(capacity, s, step))
  {
    var s' := Next(capacity, s, step);
    var node := s.nodes[step.at];
    var post := Post(step.at, node.board.clock, step.text);
    assert KnowsBelow(s, node) by { assert NodesFine(s); }
    StepKeepsClocks(capacity, s, step);
    StepKeepsPosts(capacity, s, step);
    Published(capacity, s, step);
    hide Next;
    hide ClocksInOrder;
    hide PostsDistinct;
    hide Credible;
    hide LinksFine;
    hide NodesFine;
    hide CausallyOrdered;
    hide KnowsBelow;
    NewParcelCredible(s, s', node, post);
    PairPublishLinks(s, s', Birth(post, node.known), Parcel(Share(Stamped(node.board.clock, post)), node.known + {post}));
    PublishOrdered(s, s', node, post);
    PublishNodesFine(s, s', step.at, post);
  }

  lemma PairAsk(capacity: nat -> nat, s: Net, step: Step)
    requires step.Ask? && Enabled(s, step) && PairInvariant(s)
    ensures PairInvariant(Next(capacity, s, step))
  {
    var s' := Next(capacity, s, step);
    var l := (step.at, step.peer);
    var known := s.nodes[step.at].known;
    forall a | a in known ensures a.origin == step.peer {
      assert KnowsBelow(s, s.nodes[step.at]);
      var k :| 0 <= k < |s.log| && s.log[k].post == a;
    }
    StepKeepsClocks(capacity, s, step);
    hide ClocksInOrder;
    forall i | 0 <= i < |s'.nodes| ensures KnowsBelow(s', s'.nodes[i]) { KnowsStays(s, s', s.nodes[i]); }
    forall m, k | m in s'.links && 0 <= k < |s'.links[m]| ensures Credible(s', m, s'.links[m][k]) {
      if k < |s.links[m]| {
        assert s'.links[m][k] == s.links[m][k];
        CredibleStays(s, s', m, s.links[m][k]);
      } else {
        assert s'.links[m][k] == Parcel(Request, known);
        KnowsStays(s, s', s.nodes[step.at]);
      }
    }
  }

  lemma PairCut(capacity: nat -> nat, s: Net, step: Step)
    requires step.Cut? && Enabled(s, step) && PairInvariant(s)
    ensures PairInvariant(Next(capacity, s, step))
  {
    var s' := Next(capacity, s, step);
    StepKeepsClocks(capacity, s, step);
    hide ClocksInOrder;
    forall i | 0 <= i < |s'.nodes| ensures KnowsBelow(s', s'.nodes[i]) { KnowsStays(s, s', s.nodes[i]); }
    forall m, k | m in s'.links && 0 <= k < |s'.links[m]| ensures Credible(s', m, s'.links[m][k]) {
      CredibleStays(s, s', m, s.links[m][k]);
    }
  }

  /** After a batch the clock is above everything that led to it: what led to a request is older
      than the server that is asked. */
  lemma PairBatch(s: Net, l: Link, capacity: nat, count: nat)
    requires PairInvariant(s) && l in s.links && count <= |s.links[l]|
    ensures l.1 < |s.nodes|
    ensures var node, batch := s.nodes[l.1], s.links[l][..count];
      var t := Taken(capacity, node, batch);
      && NoEmptyTexts(t.board.history)
      && (forall a <- Pasts(batch) :: InLog(s, a) && a.clock < t.board.clock)
      && node.board.clock <= t.board.clock
  {
    var node, batch := s.nodes[l.1], s.links[l][..count];
    assert forall k :: 0 <= k < |batch| ==> Credible(s, l, batch[k]);
    var all := AllContents(PacketsOf(batch));
    hide Taken;
    hide ReceiveAll;
    hide AllContents;
    hide Accepted;
    hide ClocksInOrder;
    forall i | 0 <= i < |all| ensures Accepts(all[i].body) {
      var k, m := ContentsFrom(PacketsOf(batch), i);
      assert NoEmptyTexts(Contents(batch[k].packet));
    }
    AcceptedAll(Accepts, all);
    BatchTaken(capacity, node, batch);
    ReceivedNotEmpty(node.board, all);
    ReceiveAllGrows(node.board, all);
    forall a | a in Pasts(batch) ensures InLog(s, a) && a.clock < ReceiveAll(node.board, all).clock {
      var k :| 0 <= k < |batch| && a in batch[k].past;
      PairParcel(s, l, batch, k, a);
    }
  }

  lemma PairParcel(s: Net, l: Link, batch: seq<Parcel>, k: nat, a: Post)
    requires PostsDistinct(s) && l.1 < |s.nodes| && k < |batch| && a in batch[k].past && Credible(s, l, batch[k])
    ensures InLog(s, a)
    ensures a.clock < ReceiveAll(s.nodes[l.1].board, AllContents(PacketsOf(batch))).clock
  {
    hide ReceiveAll;
    hide AllContents;
    var board, all := s.nodes[l.1].board, AllContents(PacketsOf(batch));
    ReceiveAllGrows(board, all);
    if batch[k].packet.Request? {
      OlderThanOrigin(s, a);
    } else {
      var entries := Contents(batch[k].packet);
      var i := ContentsInto(PacketsOf(batch), k, |entries| - 1);
      ReceivedCopy(board, all, i);
    }
  }

  lemma OlderThanOrigin(s: Net, a: Post)
    requires PostsDistinct(s) && InLog(s, a)
    ensures a.origin < |s.nodes| && a.clock < s.nodes[a.origin].board.clock
  {
  }

  /** What led to the requests of a batch is older than the server that is asked. */
  lemma RequestsOlder(s: Net, l: Link, count: nat, a: Post)
    requires PostsDistinct(s) && LinksFine(s) && l in s.links && count <= |s.links[l]| && l.1 < |s.nodes|
    requires forall k :: 0 <= k < count ==> s.links[l][k].packet.Request?
    requires a in Pasts(s.links[l][..count])
    ensures InLog(s, a) && a.clock < s.nodes[l.1].board.clock
  {
    var k :| 0 <= k < count && a in s.links[l][..count][k].past;
    assert Credible(s, l, s.links[l][k]);
    OlderThanOrigin(s, a);
  }

  /** A board that is handed over dominates what led to it, the request included. */
  lemma PairHandover(s: Net, l: Link, capacity: nat, count: nat, i: nat)
    requires PairInvariant(s) && l in s.links && count <= |s.links[l]| && 0 < capacity && l.1 < |s.nodes|
    requires i < |RepliesTo(capacity, s.nodes[l.1], s.links[l][..count])|
    ensures Credible(s, (l.1, l.0), Handover(capacity, s.nodes[l.1], s.links[l][..count], i))
  {
    var node, batch := s.nodes[l.1], s.links[l][..count];
    RepliesAnswer(capacity, node, batch, i);
    assert KnowsBelow(s, node) && WellClocked(node.board) && NoEmptyTexts(node.board.history);
    assert batch[..i + 1] == s.links[l][..i + 1];
    assert forall k :: 0 <= k < i + 1 ==> s.links[l][k] == batch[k];
    hide RepliesTo;
    hide ClocksInOrder;
    hide PostsDistinct;
    hide NodesFine;
    hide LinksFine;
    hide InLog;
    hide Pasts;
    forall a | a in Pasts(batch[..i + 1]) ensures InLog(s, a) && a.clock < node.board.clock {
      RequestsOlder(s, l, i + 1, a);
    }
    WindowCredible(s, (l.1, l.0), capacity, node, batch, i);
  }

  lemma WindowCredible(s: Net, l: Link, capacity: nat, node: Node, batch: seq<Parcel>, i: nat)
    requires WellClocked(node.board) && NoEmptyTexts(node.board.history) && 0 < capacity && i < |batch|
    requires KnowsBelow(s, node)
    requires forall a <- Pasts(batch[..i + 1]) :: InLog(s, a) && a.clock < node.board.clock
    ensures Credible(s, l, Handover(capacity, node, batch, i))
  {
    hide InLog;
    hide Pasts;
    var parcel := Handover(capacity, node, batch, i);
    assert forall a <- parcel.past :: InLog(s, a) && a.clock < node.board.clock;
  }

  lemma DeliverLinksFine(capacity: nat -> nat, s: Net, step: Step)
    requires step.Deliver? && Enabled(s, step) && PairInvariant(s) && 0 < capacity(step.at)
    ensures LinksFine(Next(capacity, s, step))
  {
    var s' := Next(capacity, s, step);
    var l := (step.from, step.at);
    var node, batch := s.nodes[step.at], s.links[l][..step.count];
    forall i | 0 <= i < |RepliesTo(capacity(step.at), node, batch)|
      ensures Credible(s, (step.at, step.from), Handover(capacity(step.at), node, batch, i))
    {
      PairHandover(s, l, capacity(step.at), step.count, i);
    }
    DeliveredNodes(capacity, s, step);
    hide Next;
    hide RepliesTo;
    hide Credible;
    hide NodesFine;
    DeliveredParcels(capacity, s, step, (m: Link, p: Parcel) => Credible(s, m, p));
    assert s'.log[..|s.log|] == s.log;
    forall m, k | m in s'.links && 0 <= k < |s'.links[m]| ensures Credible(s', m, s'.links[m][k]) {
      CredibleStays(s, s', m, s'.links[m][k]);
    }
  }

  lemma DeliverNodesFine(capacity: nat -> nat, s: Net, step: Step)
    requires step.Deliver? && Enabled(s, step) && PairInvariant(s)
    ensures NodesFine(Next(capacity, s, step))
  {
    var s' := Next(capacity, s, step);
    PairBatch(s, (step.from, step.at), capacity(step.at), step.count);
    DeliveredNodes(capacity, s, step);
    SameLog(s, s');
    hide Next;
    hide Taken;
    hide Pasts;
    hide LinksFine;
    hide ClocksInOrder;
    hide PostsDistinct;
    hide NoEmptyTexts;
    forall i | 0 <= i < |s'.nodes| ensures NoEmptyTexts(s'.nodes[i].board.history) && KnowsBelow(s', s'.nodes[i]) {
      assert KnowsBelow(s, s.nodes[i]);
    }
  }

  lemma PairDeliver(capacity: nat -> nat, s: Net, step: Step)
    requires step.Deliver? && Enabled(s, step) && PairInvariant(s) && 0 < capacity(step.at)
    ensures PairInvariant(Next(capacity, s, step))
  {
    DeliveredNodes(capacity, s, step);
    DeliveredLinks(capacity, s, step);
    hide Next;
    hide Taken;
    hide ClocksInOrder;
    hide PostsDistinct;
    hide NodesFine;
    hide LinksFine;
    StepKeepsClocks(capacity, s, step);
    StepKeepsPosts(capacity, s, step);
    DeliverLinksFine(capacity, s, step);
    DeliverNodesFine(capacity, s, step);
  }

  lemma SameLog(s: Net, s': Net)
    requires s.log == s'.log
    ensures forall a :: InLog(s, a) <==> InLog(s', a)
  {
  }

  lemma {:induction false} PairRun(capacity: nat -> nat, allowed: Step -> bool, s: Net, steps: seq<Step>)
    requires PairInvariant(s) && Possible(capacity, allowed, s, steps)
    requires forall step: Step :: allowed(step) && step.Publish? ==> step.text != ""
    requires forall i :: 0 < capacity(i)
    ensures PairInvariant(Run(capacity, allowed, s, steps))
    decreases |steps|
  {
    hide PairInvariant;
    hide Next;
    hide Enabled;
    if steps == [] {
    } else {
      match steps[0] {
        case Publish(_, _, _) => PairPublish(capacity, s, steps[0]);
        case Deliver(_, _, _) => PairDeliver(capacity, s, steps[0]);
        case Ask(_, _, _) => PairAsk(capacity, s, steps[0]);
        case Cut(_, _) => PairCut(capacity, s, steps[0]);
      }
      PairRun(capacity, allowed, Next(capacity, s, steps[0]), steps[1..]);
    }
  }

  lemma InitPair(n: nat)
    requires n <= 2
    ensures PairInvariant(Init(n))
  {
    InitFacts(n);
    InitClocks(n);
    hide Init;
    hide ClocksInOrder;
  }

  // ----- a server alone -----

  ghost predicate Alone(s: Net) {
    && (forall l :: l !in s.links) && CausallyOrdered(s)
    && forall i :: 0 <= i < |s.nodes| ==> forall a <- s.nodes[i].known :: a.clock < s.nodes[i].board.clock
  }

  lemma {:induction false} AloneRun(capacity: nat -> nat, allowed: Step -> bool, s: Net, steps: seq<Step>)
    requires Alone(s) && Possible(capacity, allowed, s, steps)
    ensures Alone(Run(capacity, allowed, s, steps))
    decreases |steps|
  {
    if steps == [] {
    } else {
      var s' := Next(capacity, s, steps[0]);
      Published(capacity, s, steps[0]);
      assert Alone(s') by {
        var node := s.nodes[steps[0].at];
        forall k, a | 0 <= k < |s'.log| && a in s'.log[k].past ensures a.clock < s'.log[k].post.clock {
          if k < |s.log| { assert s'.log[k] == s.log[k]; }
        }
      }
      AloneRun(capacity, allowed, s', steps[1..]);
    }
  }

  // ----- which runs respect causality -----

  ghost predicate AllOrdered(capacity: nat -> nat, allowed: Step -> bool, n: nat) {
    forall steps :: Possible(capacity, allowed, Init(n), steps) ==> CausallyOrdered(Run(capacity, allowed, Init(n), steps))
  }

  lemma AloneOrdered(capacity: nat -> nat, allowed: Step -> bool, n: nat)
    requires n <= 1
    ensures AllOrdered(capacity, allowed, n)
  {
    forall steps | Possible(capacity, allowed, Init(n), steps)
      ensures CausallyOrdered(Run(capacity, allowed, Init(n), steps))
    {
      InitFacts(n);
      AloneRun(capacity, allowed, Init(n), steps);
    }
  }

  lemma PairOrdered(capacity: nat -> nat, kind: string -> bool, retries: bool, n: nat)
    requires n <= 2 && !kind("") && forall i :: 0 < capacity(i)
    ensures AllOrdered(capacity, Runs(kind, retries), n)
  {
    forall steps | Possible(capacity, Runs(kind, retries), Init(n), steps)
      ensures CausallyOrdered(Run(capacity, Runs(kind, retries), Init(n), steps))
    {
      InitPair(n);
      PairRun(capacity, Runs(kind, retries), Init(n), steps);
    }
  }

  lemma ManyOrdered(capacity: nat -> nat, kind: string -> bool, retries: bool, n: nat)
    requires !kind("") && !(retries && AnythingPublishable(kind)) && forall i :: 0 < capacity(i)
    ensures AllOrdered(capacity, Runs(kind, retries), n)
  {
    forall steps | Possible(capacity, Runs(kind, retries), Init(n), steps)
      ensures CausallyOrdered(Run(capacity, Runs(kind, retries), Init(n), steps))
    {
      InitClocks(n);
      if retries {
        NothingPublished(capacity, Runs(kind, retries), Init(n), steps);
      } else {
        RunDominates(capacity, Runs(kind, retries), Init(n), steps);
      }
    }
  }

  /** Causality, for any number of servers. The runs that publish texts of some kind respect
      causality through any number of shares and state transfers, on any topology, with any
      batches and lost connections, exactly if: there is only one server; or the kind does not
      include the empty text, which peers drop with its clock, and, among three servers or more,
      no server that has received messages asks for a board, since its request carries no clock. */
  lemma CausalityTheorem(capacity: nat -> nat, kind: string -> bool, retries: bool, n: nat)
    requires forall i :: 0 < capacity(i)
    ensures n <= 1 || (!kind("") && !(3 <= n && retries && AnythingPublishable(kind))) <==>
      AllOrdered(capacity, Runs(kind, retries), n)
  {
    if n <= 1 {
      AloneOrdered(capacity, Runs(kind, retries), n);
    } else if kind("") {
      EmptyTextBreaksCausality(capacity, kind, retries, n);
    } else if n == 2 {
      PairOrdered(capacity, kind, retries, n);
    } else if retries && AnythingPublishable(kind) {
      var text :| Publishable(text) && kind(text);
      RetryBreaksCausality(capacity, kind, n, text);
    } else {
      ManyOrdered(capacity, kind, retries, n);
    }
  }
}
