/** In which meshes every server stores a message after those that led to it: with more than two
    servers, links are first-in first-out only by themselves (src/msgserv/message.c, lines 59-75
    and 156-176). */
module DeliveryOrder {
  import opened CText
  import opened Boards
  import opened Packets
  import opened Replication
  import opened Mesh

  /** No server stores a message in front of one in its causal past. */
  ghost predicate StoredInOrder(s: Net) {
    forall j, a, b, k | 0 <= j < |s.nodes| && 0 <= a < b < |s.nodes[j].board.history| && 0 <= k < |s.log| ::
      s.log[k].post == s.nodes[j].board.history[a].body ==> s.nodes[j].board.history[b].body !in s.log[k].past
  }

  // ----- what everyone knows has been published -----

  ghost predicate Logged(s: Net, posts: set<Post>) {
    forall p <- posts :: p in Posts(s.log)
  }

  ghost predicate KnownIsLogged(s: Net) {
    && (forall i :: 0 <= i < |s.nodes| ==> Logged(s, s.nodes[i].known))
    && (forall l <- s.links, k :: 0 <= k < |s.links[l]| ==> Logged(s, s.links[l][k].past))
    && (forall k :: 0 <= k < |s.log| ==> Logged(s, s.log[k].past) && s.log[k].post !in s.log[k].past)
  }

  /** Whether server j will have p, if at all, only before what follows from p. */
  predicate Never(j: nat, p: Post) { p.origin != j && !Accepts(p) }

  ghost predicate Sent(parcels: seq<Parcel>, k: nat, p: Post) {
    exists m :: 0 <= m <= k && m < |parcels| && parcels[m].packet.Share? && parcels[m].packet.entry.body == p
  }

  /** What led to the sending of a parcel has arrived, or travels in front of it. */
  ghost predicate Trailing(j: nat, here: seq<Post>, queue: seq<Parcel>) {
    forall k, p :: 0 <= k < |queue| && p in queue[k].past ==> Never(j, p) || p in here || Sent(queue, k, p)
  }

  ghost predicate InFront(s: Net, l: Link)
    requires l in s.links && l.1 < |s.nodes|
  {
    Trailing(l.1, Bodies(s.nodes[l.1].board.history), s.links[l])
  }

  /** A parcel is sent with its message and all that led to it. */
  ghost predicate PastMatches(log: seq<Birth>, parcel: Parcel) {
    parcel.packet.Share? ==>
      && parcel.packet.entry.body in parcel.past
      && forall b :: 0 <= b < |log| && log[b].post == parcel.packet.entry.body ==> log[b].past <= parcel.past
  }

  ghost predicate PastsMatch(s: Net) {
    forall l <- s.links, k :: 0 <= k < |s.links[l]| ==> PastMatches(s.log, s.links[l][k])
  }

  /** What led to a stored message is stored in front of it. */
  ghost predicate CausesFirst(j: nat, h: seq<Post>, log: seq<Birth>) {
    forall a, k, p :: 0 <= a < |h| && 0 <= k < |log| && log[k].post == h[a] && p in log[k].past ==>
      Never(j, p) || p in h[..a]
  }

  ghost predicate KnownIsHere(j: nat, h: seq<Post>, known: set<Post>) {
    forall p <- known :: Never(j, p) || p in h
  }

  ghost predicate Founded(s: Net, j: nat)
    requires j < |s.nodes|
  {
    var h := Bodies(s.nodes[j].board.history);
    KnownIsHere(j, h, s.nodes[j].known) && CausesFirst(j, h, s.log)
  }

  ghost predicate Ordered(n: nat, s: Net) {
    && MeshInvariant(n, s) && PostsDistinct(s) && KnownIsLogged(s) && PastsMatch(s)
    && (forall l <- s.links :: InFront(s, l))
    && (forall j :: 0 <= j < n ==> Founded(s, j))
  }

  // ----- order in the invariant -----

  lemma {:induction false} CountAtMostOnce(log: seq<Birth>, p: Post)
    requires forall i, j :: 0 <= i < j < |log| ==> log[i].post != log[j].post
    ensures multiset(Posts(log))[p] <= 1
  {
    if log == [] {
    } else {
      var front, last := log[..|log| - 1], log[|log| - 1];
      CountAtMostOnce(front, p);
      assert Posts(log) == Posts(front) + [last.post];
      if last.post == p {
        assert p !in Posts(front);
      }
    }
  }

  lemma CountTwice(h: seq<Post>, a: nat, b: nat)
    requires a < b < |h| && h[a] == h[b]
    ensures multiset(h)[h[a]] >= 2
  {
    assert h == h[..b] + h[b..];
    assert h[..b][a] == h[a] && h[b..][0] == h[b];
  }

  /** What is stored with its causes in front of it has none of them behind it. */
  lemma NotBehind(n: nat, s: Net, j: nat, a: nat, b: nat, p: Post)
    requires MeshInvariant(n, s) && PostsDistinct(s) && j < n
    requires var h := Bodies(s.nodes[j].board.history);
      a < b < |h| && (Never(j, p) || p in h[..a])
    ensures Bodies(s.nodes[j].board.history)[b] != p
  {
    Conserved(n, s, j, p);
    CountAtMostOnce(s.log, p);
    hide MeshInvariant;
    hide InFlight;
    hide Posts;
    hide Bodies;
    var h := Bodies(s.nodes[j].board.history);
    if h[b] == p {
      assert p in multiset(h);
      if p in h[..a] {
        var c :| 0 <= c < a && h[c] == p;
        CountTwice(h, c, b);
      }
    }
  }

  lemma OrderedIsStoredInOrder(n: nat, s: Net)
    requires Ordered(n, s)
    ensures StoredInOrder(s)
  {
    forall j, a, b, k | 0 <= j < |s.nodes| && 0 <= a < b < |s.nodes[j].board.history| && 0 <= k < |s.log|
      && s.log[k].post == s.nodes[j].board.history[a].body
      ensures s.nodes[j].board.history[b].body !in s.log[k].past
    {
      var h := Bodies(s.nodes[j].board.history);
      assert Founded(s, j);
      hide MeshInvariant;
      hide KnownIsLogged;
      hide PastsMatch;
      hide InFront;
      assert s.log[k].post == h[a];
      if h[b] in s.log[k].past {
        NotBehind(n, s, j, a, b, h[b]);
      }
    }
  }

  // ----- a publication keeps it -----

  lemma {:induction false} OnlyHas(keep: Post -> bool, posts: seq<Post>, p: Post)
    requires p in posts && keep(p)
    ensures p in Only(keep, posts)
  {
    var last := |posts| - 1;
    if posts[last] == p {
    } else {
      var i :| 0 <= i < |posts| && posts[i] == p;
      assert posts[..last][i] == p;
      OnlyHas(keep, posts[..last], p);
    }
  }

  lemma CarriedIsSent(origin: nat, parcels: seq<Parcel>, p: Post)
    requires OwnShares(origin, parcels) && p in Carried(parcels)
    ensures Sent(parcels, |parcels|, p)
  {
    var all := AllContents(PacketsOf(parcels));
    var i :| 0 <= i < |Carried(parcels)| && Carried(parcels)[i] == p;
    var j := AcceptedFrom(Accepts, all, i);
    var k, m := ContentsFrom(PacketsOf(parcels), j);
    assert parcels[k].packet.Share? && parcels[k].packet.entry.body == p;
  }

  /** Between two servers, whatever has been published has arrived, is on its way, or never will. */
  lemma Arrives(n: nat, s: Net, l: Link, p: Post)
    requires n <= 2 && MeshInvariant(n, s) && l in s.links && p in Posts(s.log)
    ensures l.1 < |s.nodes|
    ensures Never(l.1, p) || p in Bodies(s.nodes[l.1].board.history) || Sent(s.links[l], |s.links[l]|, p)
  {
    MeshLinks(n, s, l);
    assert p.origin == l.0 || p.origin == l.1;
    assert Accounted(s, p.origin, l.1);
    hide MeshInvariant;
    hide Only;
    hide Carried;
    hide OwnShares;
    OnlyHas(From(p.origin), Posts(s.log), p);
    var here := Only(From(p.origin), Bodies(s.nodes[l.1].board.history));
    if p.origin == l.0 && Accepts(p) {
      OnlyHas(Accepts, Only(From(p.origin), Posts(s.log)), p);
      var carried := Carried(s.links[l]);
      assert l == (l.0, l.1);
      assert p in here + carried;
      if p in carried { CarriedIsSent(l.0, s.links[l], p); }
    }
  }

  /** The post that is published is new. */
  lemma NewPost(s: Net, at: nat, text: string)
    requires at < |s.nodes| && PostsDistinct(s)
    ensures Post(at, s.nodes[at].board.clock, text) !in Posts(s.log)
  {
  }

  lemma LoggedStays(s: Net, s': Net, posts: set<Post>, more: Post)
    requires Posts(s'.log) == Posts(s.log) + [more]
    ensures Logged(s, posts) ==> Logged(s', posts) && Logged(s', posts + {more})
  {
  }

  /** The birth of a post that no parcel carries yet. */
  lemma PastStillMatches(s: Net, birth: Birth, parcel: Parcel)
    requires birth.post !in Posts(s.log) && Logged(s, parcel.past) && PastMatches(s.log, parcel)
    ensures PastMatches(s.log + [birth], parcel)
  {
    var log := s.log + [birth];
    if parcel.packet.Share? {
      forall b | 0 <= b < |log| && log[b].post == parcel.packet.entry.body ensures log[b].past <= parcel.past {
        assert parcel.packet.entry.body in Posts(s.log);
        assert b < |s.log| && log[b] == s.log[b];
      }
    }
  }

  /** The parcel that a publication sends. */
  lemma NewPastMatches(s: Net, birth: Birth, entry: Stamped<Post>)
    requires birth.post !in Posts(s.log) && entry.body == birth.post
    ensures PastMatches(s.log + [birth], Parcel(Share(entry), birth.past + {birth.post}))
  {
    assert forall b :: 0 <= b < |s.log| ==> Posts(s.log)[b] == s.log[b].post;
  }

  /** What a publication adds, and that it is new. */
  lemma PublishAdds(capacity: nat -> nat, n: nat, s: Net, step: Step)
    requires step.Publish? && Enabled(s, step) && Static(n)(step) && Ordered(n, s)
    ensures var s' := Next(capacity, s, step);
      var node := s.nodes[step.at];
      var post := Post(step.at, node.board.clock, step.text);
      && post !in Posts(s.log) && Posts(s'.log) == Posts(s.log) + [post]
      && s'.log == s.log + [Birth(post, node.known)]
      && s'.nodes == s.nodes[step.at := Node(s'.nodes[step.at].board, node.known + {post})]
      && s'.links.Keys == s.links.Keys
      && forall l <- s.links :: s'.links[l] == s.links[l] ||
           s'.links[l] == s.links[l] + [Parcel(Share(Stamped(node.board.clock, post)), node.known + {post})]
  {
    PublishedMesh(capacity, n, s, step);
    NewPost(s, step.at, step.text);
  }

  lemma PublishKnownParcels(s: Net, s': Net, birth: Birth, entry: Stamped<Post>)
    requires KnownIsLogged(s) && PastsMatch(s) && Logged(s, birth.past)
    requires birth.post !in Posts(s.log) && s'.log == s.log + [birth] && entry.body == birth.post
    requires s'.links.Keys == s.links.Keys
    requires forall l <- s.links ::
      (s'.links[l] == s.links[l] || s'.links[l] == s.links[l] + [Parcel(Share(entry), birth.past + {birth.post})])
    ensures PastsMatch(s') && forall l <- s'.links, k :: 0 <= k < |s'.links[l]| ==> Logged(s', s'.links[l][k].past)
  {
    assert Posts(s'.log) == Posts(s.log) + [birth.post];
    hide Logged;
    hide PastMatches;
    hide Posts;
    LoggedStays(s, s', birth.past, birth.post);
    NewPastMatches(s, birth, entry);
    forall l, k | l in s'.links && 0 <= k < |s'.links[l]|
      ensures Logged(s', s'.links[l][k].past) && PastMatches(s'.log, s'.links[l][k])
    {
      if k < |s.links[l]| {
        assert s'.links[l][k] == s.links[l][k];
        LoggedStays(s, s', s.links[l][k].past, birth.post);
        PastStillMatches(s, birth, s.links[l][k]);
      }
    }
  }

  lemma PublishKnown(capacity: nat -> nat, n: nat, s: Net, step: Step)
    requires step.Publish? && Enabled(s, step) && Static(n)(step) && Ordered(n, s)
    ensures KnownIsLogged(Next(capacity, s, step)) && PastsMatch(Next(capacity, s, step))
  {
    PublishAdds(capacity, n, s, step);
    var s' := Next(capacity, s, step);
    var node := s.nodes[step.at];
    var birth := Birth(Post(step.at, node.board.clock, step.text), node.known);
    hide Next;
    hide MeshInvariant;
    hide PostsDistinct;
    hide PastsMatch;
    hide InFront;
    hide Founded;
    hide Logged;
    hide Posts;
    assert Logged(s, node.known);
    PublishKnownParcels(s, s', birth, Stamped(node.board.clock, birth.post));
    LoggedStays(s, s', node.known, birth.post);
    NotKnown(s, node.known, birth.post);
    forall i | 0 <= i < |s'.nodes| ensures Logged(s', s'.nodes[i].known) {
      LoggedStays(s, s', s.nodes[i].known, birth.post);
    }
    forall k | 0 <= k < |s'.log| ensures Logged(s', s'.log[k].past) && s'.log[k].post !in s'.log[k].past {
      if k < |s.log| { LoggedStays(s, s', s.log[k].past, birth.post); }
    }
  }

  lemma NotKnown(s: Net, posts: set<Post>, p: Post)
    requires Logged(s, posts) && p !in Posts(s.log)
    ensures p !in posts
  {
  }

  lemma PublishInFront(capacity: nat -> nat, n: nat, s: Net, step: Step, l: Link)
    requires n <= 2 && step.Publish? && Enabled(s, step) && Static(n)(step) && Ordered(n, s) && l in s.links
    ensures var s' := Next(capacity, s, step); l in s'.links && l.1 < |s'.nodes| && InFront(s', l)
  {
    PublishedMesh(capacity, n, s, step);
    PublishKnown(capacity, n, s, step);
    PublishKeepsMesh(capacity, n, s, step);
    MeshLinks(n, s, l);
    var s' := Next(capacity, s, step);
    assert InFront(s, l);
    var here, queue := Bodies(s'.nodes[l.1].board.history), s'.links[l];
    assert forall p <- Bodies(s.nodes[l.1].board.history) :: p in here;
    hide Next;
    forall k, p | 0 <= k < |queue| && p in queue[k].past ensures Never(l.1, p) || p in here || Sent(queue, k, p) {
      if k < |s.links[l]| {
        assert queue[k] == s.links[l][k];
        if Sent(s.links[l], k, p) {
          var m :| 0 <= m <= k && m < |s.links[l]| && s.links[l][m].packet.Share? && s.links[l][m].packet.entry.body == p;
          assert queue[m] == s.links[l][m];
        }
      } else {
        assert Logged(s', queue[k].past);
        Arrives(n, s', l, p);
      }
    }
  }

  lemma PublishFounded(capacity: nat -> nat, n: nat, s: Net, step: Step, j: nat)
    requires step.Publish? && Enabled(s, step) && Static(n)(step) && Ordered(n, s) && j < n
    ensures var s' := Next(capacity, s, step); j < |s'.nodes| && Founded(s', j)
  {
    PublishedMesh(capacity, n, s, step);
    NewPost(s, step.at, step.text);
    StoredIsLogged(n, s, j);
    assert Founded(s, j);
    var s' := Next(capacity, s, step);
    var node := s.nodes[step.at];
    var post := Post(step.at, node.board.clock, step.text);
    assert s'.nodes[j].known == if j == step.at then node.known + {post} else s.nodes[j].known;
    assert s'.log == s.log + [Birth(post, node.known)];
    hide Next;
    hide MeshInvariant;
    hide KnownIsLogged;
    hide PastsMatch;
    assert forall k :: 0 <= k < |s.log| ==> s.log[k].post == Posts(s.log)[k] && s.log[k].post != post;
    var h, h' := Bodies(s.nodes[j].board.history), Bodies(s'.nodes[j].board.history);
    assert h' == if j == step.at then h + [post] else h;
    forall a, k, p | 0 <= a < |h'| && 0 <= k < |s'.log| && s'.log[k].post == h'[a] && p in s'.log[k].past
      ensures Never(j, p) || p in h'[..a]
    {
      if a < |h| {
        assert h'[a] == h[a] && h'[..a] == h[..a];
        assert h[a] in Posts(s.log);
      } else {
        assert h'[..a] == h;
      }
    }
  }

  lemma StoredIsLogged(n: nat, s: Net, j: nat)
    requires MeshInvariant(n, s) && j < n
    ensures forall p <- Bodies(s.nodes[j].board.history) :: p in Posts(s.log)
  {
    forall p | p in Bodies(s.nodes[j].board.history) ensures p in Posts(s.log) {
      Conserved(n, s, j, p);
      if p !in Posts(s.log) { CountAbsent(Posts(s.log), p); }
    }
  }

  lemma PublishOrdered(capacity: nat -> nat, n: nat, s: Net, step: Step)
    requires n <= 2 && step.Publish? && Enabled(s, step) && Static(n)(step) && Ordered(n, s)
    ensures Ordered(n, Next(capacity, s, step))
  {
    var s' := Next(capacity, s, step);
    PublishedMesh(capacity, n, s, step);
    PublishKeepsMesh(capacity, n, s, step);
    StepKeepsPosts(capacity, s, step);
    PublishKnown(capacity, n, s, step);
    forall l | l in s'.links ensures l.1 < |s'.nodes| && InFront(s', l) { PublishInFront(capacity, n, s, step, l); }
    forall j | 0 <= j < n ensures j < |s'.nodes| && Founded(s', j) { PublishFounded(capacity, n, s, step, j); }
    hide *;
  }

  // ----- a delivery keeps it -----

  /** What everyone knows after a delivery. */
  lemma NodesKnown(capacity: nat -> nat, s: Net, step: Step)
    requires step.Deliver? && Enabled(s, step) && KnownIsLogged(s)
    ensures var s' := Next(capacity, s, step);
      s'.log == s.log && forall i :: 0 <= i < |s'.nodes| ==> Logged(s, s'.nodes[i].known)
  {
    DeliveredNodes(capacity, s, step);
    var queue := s.links[(step.from, step.at)];
    var s' := Next(capacity, s, step);
    hide Next;
    hide Taken;
    forall i | 0 <= i < |s'.nodes| ensures Logged(s, s'.nodes[i].known) {
      assert Logged(s, s.nodes[i].known);
      if i == step.at { PastsLogged(s, queue[..step.count]); }
    }
  }

  lemma PastsLogged(s: Net, batch: seq<Parcel>)
    requires forall k :: 0 <= k < |batch| ==> Logged(s, batch[k].past)
    ensures Logged(s, Pasts(batch))
  {
    forall p | p in Pasts(batch) ensures p in Posts(s.log) {
      var k :| 0 <= k < |batch| && p in batch[k].past;
      assert Logged(s, batch[k].past);
    }
  }

  lemma DeliverKnown(capacity: nat -> nat, s: Net, step: Step)
    requires step.Deliver? && Enabled(s, step) && KnownIsLogged(s) && PastsMatch(s)
    ensures KnownIsLogged(Next(capacity, s, step)) && PastsMatch(Next(capacity, s, step))
  {
    var s' := Next(capacity, s, step);
    hide Next;
    hide Posts;
    hide PastMatches;
    NodesKnown(capacity, s, step);
    HandoversKnown(s, capacity(step.at), s.nodes[step.at], s.links[(step.from, step.at)][..step.count]);
    DeliveredParcels(capacity, s, step, (l: Link, p: Parcel) => Logged(s, p.past) && PastMatches(s.log, p));
    assert forall posts :: Logged(s, posts) ==> Logged(s', posts);
  }

  lemma HandoversKnown(s: Net, n: nat, node: Node, batch: seq<Parcel>)
    requires Logged(s, node.known) && forall k :: 0 <= k < |batch| ==> Logged(s, batch[k].past)
    ensures forall i: nat ::
      Logged(s, Handover(n, node, batch, i).past) && PastMatches(s.log, Handover(n, node, batch, i))
  {
    forall i: nat
      ensures Logged(s, Handover(n, node, batch, i).past) && PastMatches(s.log, Handover(n, node, batch, i))
    {
      PastsLogged(s, batch[..Min(i + 1, |batch|)]);
    }
  }

  /** A share that is carried stands in the carried posts behind those sent before it. */
  lemma {:induction false} CarriedAt(origin: nat, parcels: seq<Parcel>, a: nat) returns (k: nat)
    requires OwnShares(origin, parcels) && a < |Carried(parcels)|
    ensures k < |parcels| && parcels[k].packet.entry.body == Carried(parcels)[a]
    ensures Carried(parcels)[..a] == Carried(parcels[..k])
    decreases |parcels|
  {
    hide Carried;
    CarriedNothing();
    assert parcels != [];
    var last := |parcels| - 1;
    assert parcels == parcels[..last] + [parcels[last]];
    CarriedPush(parcels[..last], parcels[last]);
    if a < |Carried(parcels[..last])| {
      k := CarriedAt(origin, parcels[..last], a);
      assert parcels[..last][..k] == parcels[..k];
    } else {
      k := last;
    }
  }

  lemma SentIsCarried(origin: nat, parcels: seq<Parcel>, m: nat)
    requires OwnShares(origin, parcels) && m < |parcels| && Accepts(parcels[m].packet.entry.body)
    ensures parcels[m].packet.entry.body in Carried(parcels)
  {
    hide Carried;
    assert parcels == parcels[..m] + ([parcels[m]] + parcels[m + 1..]);
    CarriedConcat(parcels[..m], [parcels[m]] + parcels[m + 1..]);
    CarriedConcat([parcels[m]], parcels[m + 1..]);
    CarriedShare(parcels[m]);
  }

  /** What a parcel of a queue was sent with, once the parcels in front of it have been stored. */
  lemma Settled(l: Link, here: seq<Post>, queue: seq<Parcel>, k: nat, p: Post)
    requires OwnShares(l.0, queue) && l.0 != l.1 && k <= |queue|
    requires Never(l.1, p) || p in here || exists m :: 0 <= m < k && queue[m].packet.entry.body == p
    ensures Never(l.1, p) || p in here + Carried(queue[..k])
  {
    hide Carried;
    if !Never(l.1, p) && p !in here {
      var m :| 0 <= m < k && queue[m].packet.entry.body == p;
      OwnSharesPart(l.0, queue, k);
      assert queue[..k][m] == queue[m];
      SentIsCarried(l.0, queue[..k], m);
    }
  }

  lemma TrailingAdvances(l: Link, here: seq<Post>, queue: seq<Parcel>, count: nat)
    requires OwnShares(l.0, queue) && l.0 != l.1 && count <= |queue| && Trailing(l.1, here, queue)
    ensures Trailing(l.1, here + Carried(queue[..count]), queue[count..])
  {
    hide Carried;
    var here', queue' := here + Carried(queue[..count]), queue[count..];
    forall k, p | 0 <= k < |queue'| && p in queue'[k].past ensures Never(l.1, p) || p in here' || Sent(queue', k, p) {
      assert queue'[k] == queue[count + k];
      if !Never(l.1, p) && p !in here {
        var m :| 0 <= m <= count + k && m < |queue| && queue[m].packet.Share? && queue[m].packet.entry.body == p;
        if m < count {
          Settled(l, here, queue, count, p);
        } else {
          assert queue'[m - count] == queue[m];
        }
      }
    }
  }

  lemma TrailingStays(j: nat, here: seq<Post>, more: seq<Post>, queue: seq<Parcel>)
    requires Trailing(j, here, queue)
    ensures Trailing(j, here + more, queue)
  {
  }

  lemma DeliverInFront(capacity: nat -> nat, n: nat, s: Net, step: Step, l: Link)
    requires step.Deliver? && Enabled(s, step) && Ordered(n, s) && l in s.links
    ensures var s' := Next(capacity, s, step); l in s'.links && l.1 < |s'.nodes| && InFront(s', l)
  {
    DeliveredMesh(capacity, n, s, step);
    MeshLinks(n, s, l);
    assert InFront(s, l);
    hide Next;
    hide MeshInvariant;
    hide KnownIsLogged;
    hide PastsMatch;
    hide Carried;
    hide Trailing;
    var here := Bodies(s.nodes[l.1].board.history);
    if l == (step.from, step.at) {
      TrailingAdvances(l, here, s.links[l], step.count);
    } else if l.1 == step.at {
      TrailingStays(l.1, here, Carried(s.links[(step.from, step.at)][..step.count]), s.links[l]);
    }
  }

  lemma BatchKnown(s: Net, l: Link, count: nat)
    requires l in s.links && l.1 < |s.nodes| && InFront(s, l) && Founded(s, l.1)
    requires OwnShares(l.0, s.links[l]) && l.0 != l.1 && count <= |s.links[l]|
    ensures var batch := s.links[l][..count];
      KnownIsHere(l.1, Bodies(s.nodes[l.1].board.history) + Carried(batch), s.nodes[l.1].known + Pasts(batch))
  {
    hide Carried;
    var here, queue := Bodies(s.nodes[l.1].board.history), s.links[l];
    forall p | p in s.nodes[l.1].known + Pasts(queue[..count])
      ensures Never(l.1, p) || p in here + Carried(queue[..count])
    {
      if p !in s.nodes[l.1].known {
        var k :| 0 <= k < count && p in queue[..count][k].past;
        InPastOf(s, l, k, p);
        Settled(l, here, queue, count, p);
      }
    }
  }

  lemma BatchCausesFirst(s: Net, l: Link, count: nat)
    requires l in s.links && l.1 < |s.nodes| && InFront(s, l) && Founded(s, l.1) && PastsMatch(s) && KnownIsLogged(s)
    requires OwnShares(l.0, s.links[l]) && l.0 != l.1 && count <= |s.links[l]|
    ensures CausesFirst(l.1, Bodies(s.nodes[l.1].board.history) + Carried(s.links[l][..count]), s.log)
  {
    var here, queue := Bodies(s.nodes[l.1].board.history), s.links[l];
    var batch := queue[..count];
    var here' := here + Carried(batch);
    hide Carried;
    hide PastsMatch;
    hide KnownIsLogged;
    OwnSharesPart(l.0, queue, count);
    forall a, k, p | 0 <= a < |here'| && 0 <= k < |s.log| && s.log[k].post == here'[a] && p in s.log[k].past
      ensures Never(l.1, p) || p in here'[..a]
    {
      if a < |here| {
        assert here'[a] == here[a] && here'[..a] == here[..a];
      } else {
        var m := CarriedAt(l.0, batch, a - |here|);
        assert here'[..a] == here + Carried(batch)[..a - |here|];
        assert batch[..m] == queue[..m];
        CauseInFront(s, l, m, k, p);
        Settled(l, here, queue, m, p);
      }
    }
  }

  lemma DeliverFounded(capacity: nat -> nat, n: nat, s: Net, step: Step)
    requires step.Deliver? && Enabled(s, step) && Ordered(n, s)
    ensures var s' := Next(capacity, s, step); step.at < |s'.nodes| && Founded(s', step.at)
  {
    var l := (step.from, step.at);
    DeliveredMesh(capacity, n, s, step);
    DeliveredNodes(capacity, s, step);
    MeshLinks(n, s, l);
    assert InFront(s, l) && Founded(s, step.at);
    hide *;
    BatchKnown(s, l, step.count);
    BatchCausesFirst(s, l, step.count);
  }

  /** In terms of positions: what is in the past of a parcel. */
  lemma InPastOf(s: Net, l: Link, k: nat, p: Post)
    requires l in s.links && l.1 < |s.nodes| && InFront(s, l) && k < |s.links[l]| && p in s.links[l][k].past
    ensures Never(l.1, p) || p in Bodies(s.nodes[l.1].board.history) ||
      exists m :: 0 <= m <= k && s.links[l][m].packet.Share? && s.links[l][m].packet.entry.body == p
  {
  }

  /** What led to the message of a parcel travels in front of the parcel, if it travels. */
  lemma CauseInFront(s: Net, l: Link, m: nat, k: nat, p: Post)
    requires l in s.links && l.1 < |s.nodes| && InFront(s, l) && PastsMatch(s) && KnownIsLogged(s)
    requires m < |s.links[l]| && s.links[l][m].packet.Share? && k < |s.log|
    requires s.log[k].post == s.links[l][m].packet.entry.body && p in s.log[k].past
    ensures Never(l.1, p) || p in Bodies(s.nodes[l.1].board.history) ||
      exists i :: 0 <= i < m && s.links[l][i].packet.Share? && s.links[l][i].packet.entry.body == p
  {
    assert PastMatches(s.log, s.links[l][m]);
    InPastOf(s, l, m, p);
  }

  lemma DeliverOrdered(capacity: nat -> nat, n: nat, s: Net, step: Step)
    requires step.Deliver? && Enabled(s, step) && Ordered(n, s)
    ensures Ordered(n, Next(capacity, s, step))
  {
    var s' := Next(capacity, s, step);
    DeliveredMesh(capacity, n, s, step);
    DeliverKeepsMesh(capacity, n, s, step);
    StepKeepsPosts(capacity, s, step);
    DeliverKnown(capacity, s, step);
    forall l | l in s'.links ensures l.1 < |s'.nodes| && InFront(s', l) { DeliverInFront(capacity, n, s, step, l); }
    DeliverFounded(capacity, n, s, step);
    forall j | 0 <= j < n ensures j < |s'.nodes| && Founded(s', j) {
      assert Founded(s, j);
    }
    hide *;
  }

  lemma {:induction false} RunOrdered(capacity: nat -> nat, n: nat, s: Net, steps: seq<Step>)
    requires n <= 2 && Ordered(n, s) && Possible(capacity, Static(n), s, steps)
    ensures Ordered(n, Run(capacity, Static(n), s, steps))
    decreases |steps|
  {
    hide Ordered;
    hide Next;
    if steps == [] {
    } else {
      if steps[0].Publish? {
        PublishOrdered(capacity, n, s, steps[0]);
      } else {
        DeliverOrdered(capacity, n, s, steps[0]);
      }
      RunOrdered(capacity, n, Next(capacity, s, steps[0]), steps[1..]);
    }
  }

  lemma InitOrdered(n: nat)
    ensures Ordered(n, Init(n))
  {
    InitMesh(n);
    InitFacts(n);
    hide Init;
  }

  // ----- with more than two servers it is lost -----

  /** Delivering a single share on a link. */
  lemma ShareDelivered(capacity: nat -> nat, s: Net, from: nat, at: nat, entry: Stamped<Post>, past: set<Post>)
    requires Enabled(s, Deliver(from, at, 1)) && Accepts(entry.body)
    requires s.links[(from, at)] == [Parcel(Share(entry), past)]
    ensures var s' := Next(capacity, s, Deliver(from, at, 1));
      && s'.nodes == s.nodes[at := Node(Receive(s.nodes[at].board, entry), s.nodes[at].known + past)]
      && s'.log == s.log && s'.links.Keys == s.links.Keys
      && forall l <- s.links :: l != (from, at) && l != (at, from) ==> s'.links[l] == s.links[l]
  {
    hide Taken;
    var batch := s.links[(from, at)];
    assert batch[..1] == batch;
    assert Pasts(batch) == past by {
      assert batch[0].past == past;
    }
    assert AllContents(PacketsOf(batch)) == [entry] by {
      assert PacketsOf(batch)[1..] == [];
      JoinEmpty([entry]);
    }
    assert Accepted(Accepts, [entry]) == [entry] by {
      assert [entry][1..] == [];
    }
    BatchTaken(capacity(at), s.nodes[at], batch);
    ReceivedOne(s.nodes[at].board, entry);
    DeliveredNodes(capacity, s, Deliver(from, at, 1));
    DeliveredLinks(capacity, s, Deliver(from, at, 1));
  }

  lemma ReceivedOne(b: Board<Post>, entry: Stamped<Post>)
    ensures ReceiveAll(b, [entry]) == Receive(b, entry)
  {
    assert [entry][1..] == [];
  }

  const QUESTION := Post(0, 0, "question")
  const ANSWER := Post(1, 1, "answer")

  function Others(n: nat, at: nat): (r: set<nat>)
    ensures forall i: nat :: i in r <==> i < n && i != at
  {
    if n == 0 then {} else if n - 1 == at then Others(n - 1, at) else Others(n - 1, at) + {n - 1}
  }

  lemma StaticPublish(n: nat, at: nat, text: string)
    ensures Static(n)(Publish(at, text, Others(n, at)))
  {
  }

  lemma StaticDeliver(n: nat, from: nat, at: nat, count: nat)
    ensures Static(n)(Deliver(from, at, count))
  {
  }

  /** Server 0 has published the question. */
  ghost predicate QuestionShared(s: Net) {
    && 3 <= |s.nodes| && s.nodes[1] == s.nodes[2] == Node(Board([], 0), {})
    && (0, 1) in s.links && (1, 0) in s.links && (0, 2) in s.links && (2, 0) in s.links
    && (1, 2) in s.links && (2, 1) in s.links
    && s.links[(0, 1)] == s.links[(0, 2)] == [Parcel(Share(Stamped(0, QUESTION)), {QUESTION})]
    && s.links[(1, 2)] == [] && |s.log| == 1
  }

  lemma QuestionIsShared(capacity: nat -> nat, n: nat)
    requires 3 <= n
    ensures Enabled(Init(n), Publish(0, "question", Others(n, 0)))
    ensures QuestionShared(Next(capacity, Init(n), Publish(0, "question", Others(n, 0))))
  {
    InitFacts(n);
    hide Init;
    var s := Init(n);
    assert (0, 1) in s.links && (1, 0) in s.links && (0, 2) in s.links && (2, 0) in s.links;
    assert (1, 2) in s.links && (2, 1) in s.links;
    assert {} + {QUESTION} == {QUESTION};
    var parcel := Parcel(Share(Stamped(0, QUESTION)), {QUESTION});
    assert [] + [parcel] == [parcel];
  }

  /** Server 1 has received it, server 2 has not. */
  ghost predicate QuestionReceived(s: Net) {
    && 3 <= |s.nodes| && s.nodes[1] == Node(Board([Stamped(0, QUESTION)], 1), {QUESTION}) && s.nodes[2] == Node(Board([], 0), {})
    && (0, 2) in s.links && (2, 0) in s.links && (1, 2) in s.links && (2, 1) in s.links
    && s.links[(0, 2)] == [Parcel(Share(Stamped(0, QUESTION)), {QUESTION})]
    && s.links[(1, 2)] == [] && |s.log| == 1
  }

  lemma QuestionIsReceived(capacity: nat -> nat, s: Net)
    requires QuestionShared(s)
    ensures Enabled(s, Deliver(0, 1, 1)) && QuestionReceived(Next(capacity, s, Deliver(0, 1, 1)))
  {
    ShareDelivered(capacity, s, 0, 1, Stamped(0, QUESTION), {QUESTION});
    hide Next;
    assert {} + {QUESTION} == {QUESTION};
    assert [] + [Stamped(0, QUESTION)] == [Stamped(0, QUESTION)];
  }

  /** Server 1 has published the answer. */
  ghost predicate AnswerShared(s: Net) {
    && 3 <= |s.nodes| && s.nodes[2] == Node(Board([], 0), {})
    && (0, 2) in s.links && (2, 0) in s.links && (1, 2) in s.links && (2, 1) in s.links
    && s.links[(0, 2)] == [Parcel(Share(Stamped(0, QUESTION)), {QUESTION})]
    && s.links[(1, 2)] == [Parcel(Share(Stamped(1, ANSWER)), {QUESTION, ANSWER})]
    && |s.log| == 2 && s.log[1] == Birth(ANSWER, {QUESTION})
  }

  lemma AnswerIsShared(capacity: nat -> nat, n: nat, s: Net)
    requires 3 <= n && QuestionReceived(s)
    ensures Enabled(s, Publish(1, "answer", Others(n, 1))) && AnswerShared(Next(capacity, s, Publish(1, "answer", Others(n, 1))))
  {
    assert {QUESTION} + {ANSWER} == {QUESTION, ANSWER};
    var parcel := Parcel(Share(Stamped(1, ANSWER)), {QUESTION, ANSWER});
    assert [] + [parcel] == [parcel];
  }

  /** Server 2 has received the answer, and the question is still on its way. */
  ghost predicate AnswerReceived(s: Net) {
    && 3 <= |s.nodes| && s.nodes[2].board.history == [Stamped(1, ANSWER)]
    && (0, 2) in s.links && (2, 0) in s.links && s.links[(0, 2)] == [Parcel(Share(Stamped(0, QUESTION)), {QUESTION})]
    && |s.log| == 2 && s.log[1] == Birth(ANSWER, {QUESTION})
  }

  lemma AnswerIsReceived(capacity: nat -> nat, s: Net)
    requires AnswerShared(s)
    ensures Enabled(s, Deliver(1, 2, 1)) && AnswerReceived(Next(capacity, s, Deliver(1, 2, 1)))
  {
    ShareDelivered(capacity, s, 1, 2, Stamped(1, ANSWER), {QUESTION, ANSWER});
    hide Next;
    assert [] + [Stamped(1, ANSWER)] == [Stamped(1, ANSWER)];
  }

  lemma QuestionBehindAnswer(capacity: nat -> nat, s: Net)
    requires AnswerReceived(s)
    ensures Enabled(s, Deliver(0, 2, 1)) && !StoredInOrder(Next(capacity, s, Deliver(0, 2, 1)))
  {
    ShareDelivered(capacity, s, 0, 2, Stamped(0, QUESTION), {QUESTION});
    var s' := Next(capacity, s, Deliver(0, 2, 1));
    hide Next;
    assert s'.nodes[2].board.history[0].body == ANSWER && s'.nodes[2].board.history[1].body == QUESTION;
    assert s'.log[1].post == ANSWER && QUESTION in s'.log[1].past;
  }

  lemma ThirdServerBreaksOrder(capacity: nat -> nat, n: nat)
    requires 3 <= n
    ensures exists steps :: Possible(capacity, Static(n), Init(n), steps)
                         && !StoredInOrder(Run(capacity, Static(n), Init(n), steps))
  {
    hide *;
    var allowed := Static(n);
    var a, b, c, d, e := Publish(0, "question", Others(n, 0)), Deliver(0, 1, 1), Publish(1, "answer", Others(n, 1)),
                         Deliver(1, 2, 1), Deliver(0, 2, 1);
    StaticPublish(n, 0, "question");
    StaticDeliver(n, 0, 1, 1);
    StaticPublish(n, 1, "answer");
    StaticDeliver(n, 1, 2, 1);
    StaticDeliver(n, 0, 2, 1);
    QuestionIsShared(capacity, n);
    OneStep(capacity, allowed, Init(n), a);
    var s1 := Next(capacity, Init(n), a);
    QuestionIsReceived(capacity, s1);
    OneMore(capacity, allowed, Init(n), [a], b);
    var s2 := Next(capacity, s1, b);
    AnswerIsShared(capacity, n, s2);
    OneMore(capacity, allowed, Init(n), [a] + [b], c);
    var s3 := Next(capacity, s2, c);
    AnswerIsReceived(capacity, s3);
    OneMore(capacity, allowed, Init(n), [a] + [b] + [c], d);
    QuestionBehindAnswer(capacity, Next(capacity, s3, d));
    OneMore(capacity, allowed, Init(n), [a] + [b] + [c] + [d], e);
  }

  /** In every run of a static full mesh every server stores a message behind all that led to it,
      if and only if the mesh has at most two servers. */
  lemma StoringOrderTheorem(capacity: nat -> nat, n: nat)
    ensures n <= 2 <==>
      forall steps :: Possible(capacity, Static(n), Init(n), steps) ==>
        StoredInOrder(Run(capacity, Static(n), Init(n), steps))
  {
    if n > 2 {
      ThirdServerBreaksOrder(capacity, n);
    } else {
      forall steps | Possible(capacity, Static(n), Init(n), steps)
        ensures StoredInOrder(Run(capacity, Static(n), Init(n), steps))
      {
        InitOrdered(n);
        RunOrdered(capacity, n, Init(n), steps);
        OrderedIsStoredInOrder(n, Run(capacity, Static(n), Init(n), steps));
      }
    }
  }
}
