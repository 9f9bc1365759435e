/** A server that joins a mesh at rest: it asks one peer for its board, and takes part from then on
    (src/msgserv/identity.c, lines 116-206; src/msgserv/message.c, lines 3-34 and 156-176). */
module Newcomers {
  import opened CText
  import opened Boards
  import opened Packets
  import opened Replication
  import opened Mesh

  // ----- what has happened since a state -----

  /** Histories and log of `s` continue those of `base`. */
  ghost predicate Extends(base: Net, s: Net) {
    && |base.nodes| == |s.nodes|
    && (forall i :: 0 <= i < |s.nodes| ==> base.nodes[i].board.history <= s.nodes[i].board.history)
    && base.log <= s.log
  }

  function Newer(board: Board<Post>, k: nat): Board<Post>
    requires k <= |board.history|
  {
    Board(board.history[k..], board.clock)
  }

  /** The state without what had been stored and published in `base`. */
  ghost function Since(base: Net, s: Net): (r: Net)
    requires Extends(base, s)
    ensures |r.nodes| == |s.nodes|
    ensures forall i :: 0 <= i < |s.nodes| ==>
      r.nodes[i] == Node(Newer(s.nodes[i].board, |base.nodes[i].board.history|), s.nodes[i].known)
    ensures r.links == s.links && r.log == s.log[|base.log|..]
  {
    Net(seq(|s.nodes|, i requires 0 <= i < |s.nodes| =>
          Node(Newer(s.nodes[i].board, |base.nodes[i].board.history|), s.nodes[i].known)),
        s.links, s.log[|base.log|..])
  }

  /** What is received does not depend on what was stored before. */
  lemma {:induction false} NewerReceived(board: Board<Post>, entries: seq<Stamped<Post>>, k: nat)
    requires k <= |board.history|
    ensures board.history <= ReceiveAll(board, entries).history
    ensures Newer(ReceiveAll(board, entries), k) == ReceiveAll(Newer(board, k), entries)
    decreases |entries|
  {
    if entries == [] {
    } else {
      var next := Receive(board, entries[0]);
      assert Newer(next, k) == Receive(Newer(board, k), entries[0]);
      NewerReceived(next, entries[1..], k);
    }
  }

  lemma NewerAppended(board: Board<Post>, post: Post, k: nat)
    requires k <= |board.history|
    ensures board.history <= Append(board, post).history
    ensures Newer(Append(board, post), k) == Append(Newer(board, k), post)
  {
  }

  /** A publication, seen since a state. */
  lemma PublishSince(capacity: nat -> nat, base: Net, s: Net, step: Step)
    requires step.Publish? && Enabled(s, step) && Extends(base, s)
    ensures Enabled(Since(base, s), step)
    ensures Extends(base, Next(capacity, s, step))
    ensures Since(base, Next(capacity, s, step)) == Next(capacity, Since(base, s), step)
  {
    var node := s.nodes[step.at];
    NewerAppended(node.board, Post(step.at, node.board.clock, step.text), |base.nodes[step.at].board.history|);
    var s', r := Next(capacity, s, step), Next(capacity, Since(base, s), step);
    assert s'.log[|base.log|..] == r.log;
    assert s'.links == r.links;
    assert Extends(base, s');
    assert Since(base, s').nodes == r.nodes;
  }

  /** What a batch of shares leaves of the receiving server. */
  lemma SharesTaken(capacity: nat, origin: nat, node: Node, batch: seq<Parcel>, k: nat)
    requires OwnShares(origin, batch) && k <= |node.board.history|
    ensures RepliesTo(capacity, node, batch) == []
    ensures node.board.history <= Taken(capacity, node, batch).board.history
    ensures Newer(Taken(capacity, node, batch).board, k) ==
            Taken(capacity, Node(Newer(node.board, k), node.known), batch).board
    ensures RepliesTo(capacity, Node(Newer(node.board, k), node.known), batch) == []
  {
    var newer := Node(Newer(node.board, k), node.known);
    NoReplies(capacity, origin, node, batch);
    NoReplies(capacity, origin, newer, batch);
    hide Taken;
    hide RepliesTo;
    hide ReceiveAll;
    hide Accepted;
    hide AllContents;
    BatchTaken(capacity, node, batch);
    BatchTaken(capacity, newer, batch);
    NewerReceived(node.board, Accepted(Accepts, AllContents(PacketsOf(batch))), k);
  }

  /** A delivery in a mesh, seen since a state. */
  lemma DeliverSince(capacity: nat -> nat, n: nat, base: Net, s: Net, step: Step)
    requires step.Deliver? && Enabled(s, step) && Extends(base, s) && MeshInvariant(n, Since(base, s))
    ensures Enabled(Since(base, s), step)
    ensures Extends(base, Next(capacity, s, step))
    ensures Since(base, Next(capacity, s, step)) == Next(capacity, Since(base, s), step)
  {
    var l, back := (step.from, step.at), (step.at, step.from);
    var since := Since(base, s);
    MeshLinks(n, since, l);
    OwnSharesPart(l.0, s.links[l], step.count);
    var node, batch, k := s.nodes[step.at], s.links[l][..step.count], |base.nodes[step.at].board.history|;
    SharesTaken(capacity(step.at), l.0, node, batch, k);
    DeliveredNodes(capacity, s, step);
    DeliveredLinks(capacity, s, step);
    DeliveredNodes(capacity, since, step);
    DeliveredLinks(capacity, since, step);
    hide Next;
    hide Taken;
    hide RepliesTo;
    hide MeshInvariant;
    hide Pasts;
    var s', r := Next(capacity, s, step), Next(capacity, since, step);
    assert s'.links == r.links;
    assert Extends(base, s');
    assert Since(base, s').nodes == r.nodes;
    assert Since(base, s').log == r.log;
  }

  lemma StepSince(capacity: nat -> nat, n: nat, base: Net, s: Net, step: Step)
    requires Enabled(s, step) && Static(n)(step) && Extends(base, s) && MeshInvariant(n, Since(base, s))
    ensures Extends(base, Next(capacity, s, step))
    ensures MeshInvariant(n, Since(base, Next(capacity, s, step)))
  {
    hide MeshInvariant;
    hide Next;
    hide Since;
    hide Extends;
    if step.Publish? {
      PublishSince(capacity, base, s, step);
    } else {
      DeliverSince(capacity, n, base, s, step);
    }
    StepKeepsMesh(capacity, n, Since(base, s), step);
  }

  lemma {:induction false} RunSince(capacity: nat -> nat, n: nat, base: Net, s: Net, steps: seq<Step>)
    requires Possible(capacity, Static(n), s, steps) && Extends(base, s) && MeshInvariant(n, Since(base, s))
    ensures Extends(base, Run(capacity, Static(n), s, steps))
    ensures MeshInvariant(n, Since(base, Run(capacity, Static(n), s, steps)))
    decreases |steps|
  {
    hide MeshInvariant;
    hide Next;
    hide Since;
    hide Extends;
    if steps == [] {
    } else {
      StepSince(capacity, n, base, s, steps[0]);
      RunSince(capacity, n, base, Next(capacity, s, steps[0]), steps[1..]);
    }
  }

  // ----- a mesh at rest -----

  /** All links of a full mesh, and nothing on them. */
  ghost predicate AtRest(n: nat, s: Net) {
    && |s.nodes| == n
    && (forall l :: l in s.links <==> l.0 < n && l.1 < n && l.0 != l.1)
    && Quiet(s)
  }

  lemma RestIsMesh(n: nat, s: Net)
    requires AtRest(n, s)
    ensures Extends(s, s) && MeshInvariant(n, Since(s, s))
  {
    var r := Since(s, s);
    CarriedNothing();
    hide Carried;
    assert Posts(r.log) == [];
    forall i, j | 0 <= i < n && 0 <= j < n ensures Accounted(r, i, j) {
      assert Bodies(r.nodes[j].board.history) == [];
      if i != j { assert (i, j) in r.links; }
    }
  }

  /** Server j has post p, stored or on its way, as often as it held and as was published. */
  ghost predicate Has(s: Net, j: nat, p: Post, held: seq<Stamped<Post>>, published: seq<Birth>)
    requires j < |s.nodes|
  {
    multiset(Bodies(s.nodes[j].board.history))[p] + multiset(InFlight(s, j, |s.nodes|))[p] ==
    multiset(Bodies(held))[p] + if p.origin == j || Accepts(p) then multiset(Posts(published))[p] else 0
  }

  ghost predicate CountsSince(base: Net, s: Net, j: nat, p: Post)
    requires Extends(base, s) && j < |s.nodes|
  {
    Has(s, j, p, base.nodes[j].board.history, s.log[|base.log|..])
  }

  ghost predicate NothingLostSince(base: Net, s: Net)
    requires Extends(base, s)
  {
    forall j, p: Post :: 0 <= j < |s.nodes| ==> CountsSince(base, s, j, p)
  }

  lemma {:induction false} SameInFlight(s: Net, r: Net, at: nat, m: nat)
    requires s.links == r.links
    ensures InFlight(s, at, m) == InFlight(r, at, m)
  {
    if m == 0 {
    } else {
      SameInFlight(s, r, at, m - 1);
    }
  }

  lemma BodiesSince(board: Board<Post>, base: Board<Post>, p: Post)
    requires base.history <= board.history
    ensures multiset(Bodies(board.history))[p] ==
            multiset(Bodies(base.history))[p] + multiset(Bodies(Newer(board, |base.history|).history))[p]
  {
    assert Bodies(board.history) == Bodies(base.history) + Bodies(Newer(board, |base.history|).history);
    CountConcat(Bodies(base.history), Bodies(Newer(board, |base.history|).history), p);
  }

  lemma CountedSince(n: nat, base: Net, s: Net, j: nat, p: Post)
    requires Extends(base, s) && MeshInvariant(n, Since(base, s)) && j < n
    ensures |s.nodes| == n && CountsSince(base, s, j, p)
  {
    Conserved(n, Since(base, s), j, p);
    hide MeshInvariant;
    hide InFlight;
    hide Bodies;
    hide Posts;
    SameInFlight(s, Since(base, s), j, n);
    BodiesSince(s.nodes[j].board, base.nodes[j].board, p);
  }

  /** Conservation, from any mesh at rest, whatever its servers hold: stored and in flight together
      are what was held and what has been published since, equally often. */
  lemma RestTheorem(capacity: nat -> nat, n: nat, base: Net, steps: seq<Step>)
    requires AtRest(n, base) && Possible(capacity, Static(n), base, steps)
    ensures var s := Run(capacity, Static(n), base, steps); Extends(base, s) && |s.nodes| == n && NothingLostSince(base, s)
  {
    RestIsMesh(n, base);
    RunSince(capacity, n, base, base, steps);
    var s := Run(capacity, Static(n), base, steps);
    hide *;
    SinceSize(n, base, s);
    forall j, p: Post | 0 <= j < |s.nodes| ensures CountsSince(base, s, j, p) {
      CountedSince(n, base, s, j, p);
    }
  }

  lemma SinceSize(n: nat, base: Net, s: Net)
    requires Extends(base, s) && MeshInvariant(n, Since(base, s))
    ensures |s.nodes| == n
  {
  }

  // ----- joining a mesh at rest -----

  /** One parcel is delivered on a link that carries nothing else. */
  lemma OneDelivered(capacity: nat -> nat, s: Net, from: nat, at: nat, p: Parcel)
    requires at < |s.nodes| && from != at && (from, at) in s.links && (at, from) in s.links
    requires s.links[(from, at)] == [p] && s.links[(at, from)] == []
    ensures Enabled(s, Deliver(from, at, 1))
    ensures var s' := Next(capacity, s, Deliver(from, at, 1));
      var node := s.nodes[at];
      && s'.nodes == s.nodes[at := Node(Taken(capacity(at), node, [p]).board, node.known + Pasts([p]))]
      && s'.log == s.log && s'.links.Keys == s.links.Keys
      && s'.links[(from, at)] == [] && s'.links[(at, from)] == RepliesTo(capacity(at), node, [p])
      && forall l <- s.links :: l != (from, at) && l != (at, from) ==> s'.links[l] == s.links[l]
  {
    hide Taken;
    hide Pasts;
    assert [p][..1] == [p];
    DeliveredNodes(capacity, s, Deliver(from, at, 1));
    DeliveredLinks(capacity, s, Deliver(from, at, 1));
  }

  lemma HandleOne<T>(accepts: T -> bool, capacity: nat, t: Intake<T>, p: Packet<T>)
    ensures HandleAll(accepts, capacity, t, [p]) == Handle(accepts, capacity, t, p)
  {
    assert [p][1..] == [];
  }

  lemma RequestTaken(capacity: nat, node: Node, p: Parcel)
    requires p.packet.Request?
    ensures Taken(capacity, node, [p]).board == node.board
    ensures RepliesTo(capacity, node, [p]) == [Handover(capacity, node, [p], 0)]
  {
    assert PacketsOf([p]) == [p.packet];
    HandleOne(Accepts, capacity, Intake(node.board, false, []), p.packet);
    assert |RepliesTo(capacity, node, [p])| == 1;
    RepliesAreHandovers(capacity, node, [p]);
  }

  lemma HistoryTaken(capacity: nat, node: Node, p: Parcel)
    requires p.packet.History?
    ensures Taken(capacity, node, [p]).board == ReceiveAll(node.board, Accepted(Accepts, p.packet.entries))
    ensures RepliesTo(capacity, node, [p]) == []
  {
    assert PacketsOf([p]) == [p.packet];
    HandleOne(Accepts, capacity, Intake(node.board, false, []), p.packet);
  }

  /** Server j joins: it holds nothing, nothing has been published at it, and it asks server i. */
  ghost predicate CanJoin(n: nat, s: Net, j: nat, i: nat) {
    && AtRest(n, s) && i < n && j < n && i != j
    && s.nodes[j].board == Board([], 0) && forall b <- s.log :: b.post.origin != j
  }

  lemma Asked(capacity: nat -> nat, n: nat, s: Net, j: nat, i: nat)
    requires CanJoin(n, s, j, i)
    ensures Enabled(s, Ask(j, i, false))
    ensures var s' := Next(capacity, s, Ask(j, i, false));
      && s'.nodes == s.nodes && s'.log == s.log && s'.links.Keys == s.links.Keys
      && s'.links[(j, i)] == [Parcel(Request, s.nodes[j].known)]
      && forall l <- s.links :: l != (j, i) ==> s'.links[l] == []
  {
    assert (j, i) in s.links;
    assert [] + [Parcel(Request, s.nodes[j].known)] == [Parcel(Request, s.nodes[j].known)];
  }

  /** Only one link carries something. */
  ghost predicate OnlyOn(n: nat, s: Net, l: Link, p: Parcel) {
    && |s.nodes| == n
    && (forall m :: m in s.links <==> m.0 < n && m.1 < n && m.0 != m.1)
    && l in s.links && s.links[l] == [p] && forall m <- s.links :: m != l ==> s.links[m] == []
  }

  /** The only parcel is delivered: what it leaves, and what comes back. */
  lemma OnlyDelivered(capacity: nat -> nat, n: nat, s: Net, from: nat, at: nat, p: Parcel)
    requires OnlyOn(n, s, (from, at), p)
    ensures from < n && at < n && from != at && Enabled(s, Deliver(from, at, 1))
    ensures var s' := Next(capacity, s, Deliver(from, at, 1));
      && |s'.nodes| == n && s'.log == s.log
      && s'.nodes[at].board == Taken(capacity(at), s.nodes[at], [p]).board
      && (forall k :: 0 <= k < n && k != at ==> s'.nodes[k] == s.nodes[k])
      && (RepliesTo(capacity(at), s.nodes[at], [p]) == [] ==> AtRest(n, s'))
      && forall q :: RepliesTo(capacity(at), s.nodes[at], [p]) == [q] ==> OnlyOn(n, s', (at, from), q)
  {
    assert (at, from) in s.links;
    OneDelivered(capacity, s, from, at, p);
    hide Next;
    hide Taken;
    hide RepliesTo;
    hide Pasts;
    hide Enabled;
  }

  /** The join, up to the point where the mesh is at rest again: the request, and its answer. */
  lemma JoinSteps(capacity: nat -> nat, allowed: Step -> bool, n: nat, s: Net, j: nat, i: nat) returns (r: Net)
    requires CanJoin(n, s, j, i)
    requires allowed(Ask(j, i, false)) && allowed(Deliver(j, i, 1)) && allowed(Deliver(i, j, 1))
    ensures var steps := [Ask(j, i, false)] + [Deliver(j, i, 1)] + [Deliver(i, j, 1)];
      Possible(capacity, allowed, s, steps) && r == Run(capacity, allowed, s, steps)
    ensures AtRest(n, r) && r.log == s.log
    ensures r.nodes[j].board ==
            ReceiveAll(Board([], 0), Accepted(Accepts, LastN(s.nodes[i].board.history, capacity(i))))
    ensures forall k :: 0 <= k < n && k != j ==> r.nodes[k].board == s.nodes[k].board
  {
    var request := Parcel(Request, s.nodes[j].known);
    Asked(capacity, n, s, j, i);
    var s1 := Next(capacity, s, Ask(j, i, false));
    assert OnlyOn(n, s1, (j, i), request) && s1.nodes == s.nodes && s1.log == s.log && i < n && j < n;
    assert s.nodes[j].board == Board([], 0);
    hide *;
    OneStep(capacity, allowed, s, Ask(j, i, false));
    OnlyDelivered(capacity, n, s1, j, i, request);
    RequestTaken(capacity(i), s.nodes[i], request);
    OneMore(capacity, allowed, s, [Ask(j, i, false)], Deliver(j, i, 1));
    var s2 := Next(capacity, s1, Deliver(j, i, 1));
    var answer := Handover(capacity(i), s.nodes[i], [request], 0);
    OnlyDelivered(capacity, n, s2, i, j, answer);
    HandoverMeans(capacity(i), s.nodes[i], [request]);
    HistoryTaken(capacity(j), s2.nodes[j], answer);
    OneMore(capacity, allowed, s, [Ask(j, i, false)] + [Deliver(j, i, 1)], Deliver(i, j, 1));
    r := Next(capacity, s2, Deliver(i, j, 1));
  }

  lemma HandoverMeans(capacity: nat, node: Node, batch: seq<Parcel>)
    ensures Handover(capacity, node, batch, 0).packet == History(LastN(node.board.history, capacity))
  {
  }

  lemma ReceivedWindow(window: seq<Stamped<Post>>)
    requires Ascending(window)
    ensures ReceiveAll(Board([], 0), Accepted(Accepts, window)).history == Accepted(Accepts, window)
  {
    AcceptedAscending(Accepts, window);
    ReceiveAllAscending(Board([], 0), Accepted(Accepts, window));
  }

  /** What server j has from its peer when it has joined. */
  function Brought(capacity: nat, peer: Node): seq<Stamped<Post>> {
    Accepted(Accepts, LastN(peer.board.history, capacity))
  }

  /** What server k holds when server j has joined. */
  ghost function Held(s: Net, j: nat, brought: seq<Stamped<Post>>, k: nat): seq<Stamped<Post>>
    requires k < |s.nodes|
  {
    if k == j then brought else s.nodes[k].board.history
  }

  /** Each server has, stored or on its way, what it had before the join, and server j what its
      peer brought it, and besides exactly what has been published since. */
  ghost predicate TookPart(s: Net, j: nat, brought: seq<Stamped<Post>>, t: Net) {
    && |t.nodes| == |s.nodes| && s.log <= t.log && j < |t.nodes|
    && brought <= t.nodes[j].board.history
    && forall k, p: Post :: 0 <= k < |t.nodes| ==>
         Has(t, k, p, Held(s, j, brought, k), t.log[|s.log|..])
  }

  /** A server joins a mesh at rest. It brings in the non-empty messages that its peer's ring shows,
      with their clocks and in their order; and in every run of the mesh from then on, it and
      all others store each message that is published exactly once, as far as it has arrived. */
  lemma JoinTheorem(capacity: nat -> nat, allowed: Step -> bool, n: nat, s: Net, j: nat, i: nat) returns (r: Net)
    requires CanJoin(n, s, j, i) && ClocksInOrder(s)
    requires allowed(Ask(j, i, false)) && allowed(Deliver(j, i, 1)) && allowed(Deliver(i, j, 1))
    ensures var steps := [Ask(j, i, false)] + [Deliver(j, i, 1)] + [Deliver(i, j, 1)];
      Possible(capacity, allowed, s, steps) && r == Run(capacity, allowed, s, steps)
    ensures AtRest(n, r) && r.nodes[j].board.history == Brought(capacity(i), s.nodes[i])
    ensures forall steps :: Possible(capacity, Static(n), r, steps) ==>
      TookPart(s, j, Brought(capacity(i), s.nodes[i]), Run(capacity, Static(n), r, steps))
  {
    assert WellClocked(s.nodes[i].board);
    assert Ascending(LastN(s.nodes[i].board.history, capacity(i)));
    ReceivedWindow(LastN(s.nodes[i].board.history, capacity(i)));
    assert |s.nodes| == n && j < n;
    r := JoinSteps(capacity, allowed, n, s, j, i);
    forall steps | Possible(capacity, Static(n), r, steps)
      ensures TookPart(s, j, Brought(capacity(i), s.nodes[i]), Run(capacity, Static(n), r, steps))
    {
      RestTheorem(capacity, n, r, steps);
      PartTaken(s, r, j, Brought(capacity(i), s.nodes[i]), Run(capacity, Static(n), r, steps));
    }
  }

  lemma PartTaken(s: Net, r: Net, j: nat, brought: seq<Stamped<Post>>, t: Net)
    requires |r.nodes| == |s.nodes| && j < |s.nodes| && r.log == s.log && r.nodes[j].board.history == brought
    requires forall k :: 0 <= k < |s.nodes| && k != j ==> r.nodes[k].board == s.nodes[k].board
    requires Extends(r, t) && NothingLostSince(r, t)
    ensures TookPart(s, j, brought, t)
  {
    hide Has;
    forall k, p: Post | 0 <= k < |t.nodes|
      ensures Has(t, k, p, Held(s, j, brought, k), t.log[|s.log|..])
    {
      assert CountsSince(r, t, k, p);
    }
  }
}
