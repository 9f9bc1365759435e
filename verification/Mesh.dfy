/** What a static full mesh conserves: every server shares each message it publishes with all
    the others, over one reliable FIFO link per pair, and deliveries are never shared again
    (src/msgserv/message.c, lines 59-75 and 119-176; src/msgserv/main.c, lines 255-262). */
module Mesh {
  import opened CText
  import opened Boards
  import opened Packets
  import opened Replication

  function Bodies(entries: seq<Stamped<Post>>): (r: seq<Post>)
    ensures |r| == |entries|
    ensures forall i :: 0 <= i < |entries| ==> r[i] == entries[i].body
  {
    seq(|entries|, i requires 0 <= i < |entries| => entries[i].body)
  }

  function Posts(log: seq<Birth>): (r: seq<Post>)
    ensures |r| == |log|
    ensures forall i :: 0 <= i < |log| ==> r[i] == log[i].post
  {
    seq(|log|, i requires 0 <= i < |log| => log[i].post)
  }

  function Only(keep: Post -> bool, posts: seq<Post>): (r: seq<Post>)
    ensures forall p <- r :: keep(p) && p in posts
    decreases |posts|
  {
    if posts == [] then []
    else
      var rest := Only(keep, posts[..|posts| - 1]);
      if keep(posts[|posts| - 1]) then rest + [posts[|posts| - 1]] else rest
  }

  function From(origin: nat): Post -> bool { (p: Post) => p.origin == origin }

  lemma {:induction false} OnlyConcat(keep: Post -> bool, a: seq<Post>, b: seq<Post>)
    ensures Only(keep, a + b) == Only(keep, a) + Only(keep, b)
    decreases |b|
  {
    if b == [] {
      assert a + b == a;
    } else {
      var whole := a + b;
      assert whole[|whole| - 1] == b[|b| - 1] && whole[..|whole| - 1] == a + b[..|b| - 1];
      OnlyConcat(keep, a, b[..|b| - 1]);
    }
  }

  lemma {:induction false} OnlyAll(keep: Post -> bool, posts: seq<Post>)
    requires forall p <- posts :: keep(p)
    ensures Only(keep, posts) == posts
    decreases |posts|
  {
    if posts == [] {
    } else {
      OnlyAll(keep, posts[..|posts| - 1]);
    }
  }

  lemma {:induction false} OnlyNone(keep: Post -> bool, posts: seq<Post>)
    requires forall p <- posts :: !keep(p)
    ensures Only(keep, posts) == []
    decreases |posts|
  {
    if posts == [] {
    } else {
      OnlyNone(keep, posts[..|posts| - 1]);
    }
  }

  /** The multiplicity of a post is already its multiplicity among the posts of its origin. */
  lemma {:induction false} CountOnly(keep: Post -> bool, posts: seq<Post>, p: Post)
    ensures multiset(Only(keep, posts))[p] == if keep(p) then multiset(posts)[p] else 0
    decreases |posts|
  {
    if posts == [] {
    } else {
      var front := posts[..|posts| - 1];
      assert posts == front + [posts[|posts| - 1]];
      CountOnly(keep, front, p);
    }
  }

  /** What the parcels of a link still add to the receiver's history. */
  function Carried(parcels: seq<Parcel>): seq<Post> {
    Bodies(Accepted(Accepts, AllContents(PacketsOf(parcels))))
  }

  lemma AllContentsJoin(a: seq<Packet<Post>>, b: seq<Packet<Post>>)
    ensures AllContents(a + b) == AllContents(a) + AllContents(b)
    decreases |a|
  {
    if a == [] {
      assert a + b == b;
    } else {
      var whole := a + b;
      assert whole[0] == a[0] && whole[1..] == a[1..] + b;
      AllContentsJoin(a[1..], b);
      JoinAssoc(Contents(a[0]), AllContents(a[1..]), AllContents(b));
      JoinIsConcatenation(AllContents(a), AllContents(b));
      JoinIsConcatenation(AllContents(a[1..]), AllContents(b));
    }
  }

  lemma CarriedConcat(a: seq<Parcel>, b: seq<Parcel>)
    ensures Carried(a + b) == Carried(a) + Carried(b)
  {
    hide AllContents;
    hide Accepted;
    var pa, pb := PacketsOf(a), PacketsOf(b);
    assert PacketsOf(a + b) == pa + pb;
    AllContentsJoin(pa, pb);
    JoinIsConcatenation(AllContents(pa), AllContents(pb));
    AcceptedJoin(Accepts, AllContents(pa), AllContents(pb));
    JoinIsConcatenation(Accepted(Accepts, AllContents(pa)), Accepted(Accepts, AllContents(pb)));
  }

  lemma CarriedShare(p: Parcel)
    requires p.packet.Share?
    ensures Carried([p]) == if Accepts(p.packet.entry.body) then [p.packet.entry.body] else []
  {
    assert PacketsOf([p]) == [p.packet] && [p.packet][1..] == [];
    JoinEmpty([p.packet.entry]);
    assert AllContents(PacketsOf([p])) == [p.packet.entry];
    assert [p.packet.entry][1..] == [];
  }

  /** Publish to everyone else, or deliver. */
  function Static(n: nat): Step -> bool {
    (step: Step) => match step
      case Publish(at, _, peers) => forall i :: 0 <= i < n ==> (i in peers <==> i != at)
      case Deliver(_, _, _) => true
      case Ask(_, _, _) => false
      case Cut(_, _) => false
  }

  ghost predicate OwnShares(origin: nat, parcels: seq<Parcel>) {
    forall k :: 0 <= k < |parcels| ==> parcels[k].packet.Share? && parcels[k].packet.entry.body.origin == origin
  }

  /** What one server has and what is on its way to it, origin by origin. */
  ghost predicate Accounted(s: Net, origin: nat, at: nat)
    requires at < |s.nodes|
  {
    var here := Only(From(origin), Bodies(s.nodes[at].board.history));
    var published := Only(From(origin), Posts(s.log));
    if origin == at then here == published
    else (origin, at) in s.links && here + Carried(s.links[(origin, at)]) == Only(Accepts, published)
  }

  ghost predicate MeshInvariant(n: nat, s: Net) {
    && |s.nodes| == n
    && (forall l :: l in s.links <==> l.0 < n && l.1 < n && l.0 != l.1)
    && (forall l <- s.links :: OwnShares(l.0, s.links[l]))
    && (forall p <- Posts(s.log) :: p.origin < n)
    && (forall i, p :: 0 <= i < n && p in Bodies(s.nodes[i].board.history) ==> p.origin < n)
    && (forall i, j :: 0 <= i < n && 0 <= j < n ==> Accounted(s, i, j))
  }

  lemma OnlyPush(keep: Post -> bool, posts: seq<Post>, p: Post)
    ensures Only(keep, posts + [p]) == if keep(p) then Only(keep, posts) + [p] else Only(keep, posts)
  {
    assert (posts + [p])[..|posts|] == posts;
  }

  lemma {:induction false} ReceivedBodies(b: Board<Post>, entries: seq<Stamped<Post>>)
    ensures Bodies(ReceiveAll(b, entries).history) == Bodies(b.history) + Bodies(entries)
  {
    var h := ReceiveAll(b, entries).history;
    forall i | 0 <= i < |h| ensures h[i].body == (Bodies(b.history) + Bodies(entries))[i] {
      if i < |b.history| {
        assert h[i] == h[..|b.history|][i];
      } else {
        ReceivedCopy(b, entries, i - |b.history|);
      }
    }
  }

  lemma CarriedOrigin(origin: nat, parcels: seq<Parcel>)
    requires OwnShares(origin, parcels)
    ensures forall p <- Carried(parcels) :: p.origin == origin && Accepts(p)
  {
    var all := AllContents(PacketsOf(parcels));
    forall p | p in Carried(parcels) ensures p.origin == origin && Accepts(p) {
      var i :| 0 <= i < |Carried(parcels)| && Carried(parcels)[i] == p;
      AcceptedAccepts(all, i);
      var j := AcceptedFrom(Accepts, all, i);
      var k, m := ContentsFrom(PacketsOf(parcels), j);
    }
  }

  lemma {:induction false} AcceptedAccepts(entries: seq<Stamped<Post>>, i: nat)
    requires i < |Accepted(Accepts, entries)|
    ensures Accepts(Accepted(Accepts, entries)[i].body)
    decreases |entries|
  {
    if !Accepts(entries[0].body) {
      AcceptedAccepts(entries[1..], i);
    } else if i > 0 {
      AcceptedAccepts(entries[1..], i - 1);
    }
  }

  /** What a publication changes. */
  lemma PublishedMesh(capacity: nat -> nat, n: nat, s: Net, step: Step)
    requires step.Publish? && Enabled(s, step) && Static(n)(step) && MeshInvariant(n, s)
    ensures var s' := Next(capacity, s, step);
      var node := s.nodes[step.at];
      var post := Post(step.at, node.board.clock, step.text);
      && |s'.nodes| == n
      && Bodies(s'.nodes[step.at].board.history) == Bodies(node.board.history) + [post]
      && (forall i :: 0 <= i < n && i != step.at ==> s'.nodes[i] == s.nodes[i])
      && Posts(s'.log) == Posts(s.log) + [post]
      && s'.links.Keys == s.links.Keys
      && (forall l <- s.links :: l.0 != step.at ==> s'.links[l] == s.links[l])
      && forall l <- s.links :: l.0 == step.at ==>
           s'.links[l] == s.links[l] + [Parcel(Share(Stamped(node.board.clock, post)), node.known + {post})]
  {
  }

  lemma CarriedPush(parcels: seq<Parcel>, p: Parcel)
    requires p.packet.Share?
    ensures var post := p.packet.entry.body;
      Carried(parcels + [p]) == if Accepts(post) then Carried(parcels) + [post] else Carried(parcels)
  {
    hide Carried;
    CarriedConcat(parcels, [p]);
    CarriedShare(p);
    assert Carried(parcels) + [] == Carried(parcels);
  }

  lemma AccountPush(here: seq<Post>, carried: seq<Post>, published: seq<Post>, post: Post)
    requires here + carried == Only(Accepts, published)
    ensures here + (if Accepts(post) then carried + [post] else carried) == Only(Accepts, published + [post])
  {
    OnlyPush(Accepts, published, post);
    if Accepts(post) {
      assert here + (carried + [post]) == here + carried + [post];
    }
  }

  lemma PublishAccounted(capacity: nat -> nat, n: nat, s: Net, step: Step, origin: nat, at: nat)
    requires step.Publish? && Enabled(s, step) && Static(n)(step) && MeshInvariant(n, s)
    requires origin < n && at < n
    ensures at < |Next(capacity, s, step).nodes| && Accounted(Next(capacity, s, step), origin, at)
  {
    PublishedMesh(capacity, n, s, step);
    assert Accounted(s, origin, at);
    var s' := Next(capacity, s, step);
    hide Next;
    hide Only;
    hide Carried;
    hide Bodies;
    hide Posts;
    hide MeshInvariant;
    var node := s.nodes[step.at];
    var post := Post(step.at, node.board.clock, step.text);
    OnlyPush(From(origin), Bodies(node.board.history), post);
    OnlyPush(From(origin), Posts(s.log), post);
    if origin == step.at && at != origin {
      var parcel := Parcel(Share(Stamped(node.board.clock, post)), node.known + {post});
      var queue := s.links[(origin, at)];
      CarriedPush(queue, parcel);
      AccountPush(Only(From(origin), Bodies(s.nodes[at].board.history)), Carried(queue),
                  Only(From(origin), Posts(s.log)), post);
    }
  }

  /** What a delivery changes: nothing is sent on. */
  lemma DeliveredMesh(capacity: nat -> nat, n: nat, s: Net, step: Step)
    requires step.Deliver? && Enabled(s, step) && MeshInvariant(n, s)
    ensures var s' := Next(capacity, s, step);
      var link := (step.from, step.at);
      && |s'.nodes| == n && s'.log == s.log
      && Bodies(s'.nodes[step.at].board.history) ==
         Bodies(s.nodes[step.at].board.history) + Carried(s.links[link][..step.count])
      && (forall i :: 0 <= i < n && i != step.at ==> s'.nodes[i] == s.nodes[i])
      && s'.links == s.links[link := s.links[link][step.count..]]
  {
    var s' := Next(capacity, s, step);
    var link, back := (step.from, step.at), (step.at, step.from);
    hide *;
    DeliveredNodes(capacity, s, step);
    DeliveredLinks(capacity, s, step);
    var node, batch := s.nodes[step.at], s.links[link][..step.count];
    NoReplies(capacity(step.at), step.from, node, batch) by {
      assert OwnShares(link.0, s.links[link]) by { MeshLinks(n, s, link); }
      OwnSharesPart(link.0, s.links[link], step.count);
    }
    BatchTaken(capacity(step.at), node, batch);
    ReceivedBodies(node.board, Accepted(Accepts, AllContents(PacketsOf(batch))));
    CarriedMeans(batch);
    assert |s'.nodes| == n by { MeshLinks(n, s, link); }
    assert s.links[back] + [] == s.links[back];
  }

  lemma CarriedMeans(parcels: seq<Parcel>)
    ensures Carried(parcels) == Bodies(Accepted(Accepts, AllContents(PacketsOf(parcels))))
  {
  }

  lemma MeshLinks(n: nat, s: Net, l: Link)
    requires MeshInvariant(n, s) && l in s.links
    ensures |s.nodes| == n && l.0 < n && l.1 < n && l.0 != l.1
    ensures OwnShares(l.0, s.links[l])
  {
  }

  lemma OwnSharesPart(origin: nat, parcels: seq<Parcel>, count: nat)
    requires OwnShares(origin, parcels) && count <= |parcels|
    ensures OwnShares(origin, parcels[..count]) && OwnShares(origin, parcels[count..])
  {
  }

  lemma NoReplies(capacity: nat, origin: nat, node: Node, batch: seq<Parcel>)
    requires OwnShares(origin, batch)
    ensures Taken(capacity, node, batch).replies == [] && RepliesTo(capacity, node, batch) == []
  {
    BatchEffect(Accepts, capacity, Intake(node.board, false, []), PacketsOf(batch));
  }

  /** Moving the front of a queue into the history, seen from one origin. */
  lemma AccountMove(origin: nat, from: nat, history: seq<Post>, queue: seq<Parcel>, count: nat)
    requires OwnShares(from, queue) && count <= |queue|
    ensures var after := Only(From(origin), history + Carried(queue[..count]));
      var before := Only(From(origin), history);
      if origin == from then after + Carried(queue[count..]) == before + Carried(queue) else after == before
  {
    hide Only;
    hide Carried;
    var batch, rest := queue[..count], queue[count..];
    var before := Only(From(origin), history);
    OwnSharesPart(from, queue, count);
    CarriedOrigin(from, batch);
    OnlyConcat(From(origin), history, Carried(batch));
    if origin == from {
      OnlyAll(From(origin), Carried(batch));
      assert queue == batch + rest;
      CarriedConcat(batch, rest);
      assert before + (Carried(batch) + Carried(rest)) == before + Carried(batch) + Carried(rest);
    } else {
      OnlyNone(From(origin), Carried(batch));
      assert before + [] == before;
    }
  }

  lemma DeliverAccounted(capacity: nat -> nat, n: nat, s: Net, step: Step, origin: nat, at: nat)
    requires step.Deliver? && Enabled(s, step) && MeshInvariant(n, s)
    requires origin < n && at < n
    ensures at < |Next(capacity, s, step).nodes| && Accounted(Next(capacity, s, step), origin, at)
  {
    DeliveredMesh(capacity, n, s, step);
    assert Accounted(s, origin, at);
    var s' := Next(capacity, s, step);
    var link := (step.from, step.at);
    MeshLinks(n, s, link);
    hide Next;
    hide Only;
    hide Carried;
    hide Bodies;
    hide Posts;
    hide OwnShares;
    hide MeshInvariant;
    if at == step.at {
      AccountMove(origin, step.from, Bodies(s.nodes[at].board.history), s.links[link], step.count);
    }
  }

  lemma PublishKeepsMesh(capacity: nat -> nat, n: nat, s: Net, step: Step)
    requires step.Publish? && Enabled(s, step) && Static(n)(step) && MeshInvariant(n, s)
    ensures MeshInvariant(n, Next(capacity, s, step))
  {
    PublishedMesh(capacity, n, s, step);
    var s' := Next(capacity, s, step);
    forall i, j | 0 <= i < n && 0 <= j < n ensures Accounted(s', i, j) {
      PublishAccounted(capacity, n, s, step, i, j);
    }
    hide Next;
    hide Only;
    hide Carried;
    hide Accounted;
    hide Bodies;
    hide Posts;
  }

  lemma DeliverKeepsMesh(capacity: nat -> nat, n: nat, s: Net, step: Step)
    requires step.Deliver? && Enabled(s, step) && MeshInvariant(n, s)
    ensures MeshInvariant(n, Next(capacity, s, step))
  {
    DeliveredMesh(capacity, n, s, step);
    var s' := Next(capacity, s, step);
    var link := (step.from, step.at);
    OwnSharesPart(link.0, s.links[link], step.count);
    CarriedOrigin(link.0, s.links[link][..step.count]);
    forall i, j | 0 <= i < n && 0 <= j < n ensures Accounted(s', i, j) {
      DeliverAccounted(capacity, n, s, step, i, j);
    }
    hide Next;
    hide Only;
    hide Carried;
    hide Accounted;
    hide Bodies;
    hide Posts;
    hide OwnShares;
  }

  lemma StepKeepsMesh(capacity: nat -> nat, n: nat, s: Net, step: Step)
    requires Enabled(s, step) && Static(n)(step) && MeshInvariant(n, s)
    ensures MeshInvariant(n, Next(capacity, s, step))
  {
    hide Next;
    hide MeshInvariant;
    if step.Publish? {
      PublishKeepsMesh(capacity, n, s, step);
    } else {
      DeliverKeepsMesh(capacity, n, s, step);
    }
  }

  lemma {:induction false} RunKeepsMesh(capacity: nat -> nat, n: nat, s: Net, steps: seq<Step>)
    requires MeshInvariant(n, s) && Possible(capacity, Static(n), s, steps)
    ensures MeshInvariant(n, Run(capacity, Static(n), s, steps))
    decreases |steps|
  {
    if steps == [] {
    } else {
      StepKeepsMesh(capacity, n, s, steps[0]);
      RunKeepsMesh(capacity, n, Next(capacity, s, steps[0]), steps[1..]);
    }
  }

  lemma CarriedNothing()
    ensures Carried([]) == []
  {
    assert PacketsOf([]) == [];
  }

  lemma InitMesh(n: nat)
    ensures MeshInvariant(n, Init(n))
  {
    InitFacts(n);
    CarriedNothing();
    var s := Init(n);
    hide Init;
    hide Carried;
    assert Posts(s.log) == [];
    assert forall l :: l in s.links <==> l == (l.0, l.1) && l.0 < n && l.1 < n && l.0 != l.1;
    forall i, j | 0 <= i < n && 0 <= j < n ensures Accounted(s, i, j) {
      assert Bodies(s.nodes[j].board.history) == [];
      if i != j { assert (i, j) in s.links; }
    }
  }

  /** Everything on its way to one server, from the first `m` origins. */
  function InFlight(s: Net, at: nat, m: nat): seq<Post> {
    if m == 0 then []
    else if (m - 1, at) in s.links then InFlight(s, at, m - 1) + Carried(s.links[(m - 1, at)])
    else InFlight(s, at, m - 1)
  }

  lemma CountConcat(a: seq<Post>, b: seq<Post>, p: Post)
    ensures multiset(a + b)[p] == multiset(a)[p] + multiset(b)[p]
  {
  }

  lemma CountAbsent(posts: seq<Post>, p: Post)
    requires p !in posts
    ensures multiset(posts)[p] == 0
  {
  }

  /** Only the link from a post's origin can carry it. */
  lemma {:induction false} CountInFlight(n: nat, s: Net, at: nat, m: nat, p: Post)
    requires MeshInvariant(n, s) && at < n && m <= n
    ensures multiset(InFlight(s, at, m))[p] ==
      if p.origin < m && p.origin != at then multiset(Carried(s.links[(p.origin, at)]))[p] else 0
  {
    hide Carried;
    if m == 0 {
    } else {
      CountInFlight(n, s, at, m - 1, p);
      if m - 1 != at {
        MeshLinks(n, s, (m - 1, at));
        hide MeshInvariant;
        hide OwnShares;
        var carried := Carried(s.links[(m - 1, at)]);
        CountConcat(InFlight(s, at, m - 1), carried, p);
        CarriedOrigin(m - 1, s.links[(m - 1, at)]);
        if p.origin != m - 1 { CountAbsent(carried, p); }
      }
    }
  }

  /** Conservation, in every state: counting what a server stores and what is in flight to it,
      each post of its own and each non-empty post of another occurs exactly as often as it was
      published, and an empty post of another not at all. */
  lemma Conserved(n: nat, s: Net, at: nat, p: Post)
    requires MeshInvariant(n, s) && at < n
    ensures multiset(Bodies(s.nodes[at].board.history))[p] + multiset(InFlight(s, at, n))[p] ==
      if p.origin == at || Accepts(p) then multiset(Posts(s.log))[p] else 0
  {
    var here, log := Bodies(s.nodes[at].board.history), Posts(s.log);
    CountInFlight(n, s, at, n, p);
    if p.origin < n {
      assert Accounted(s, p.origin, at);
      hide MeshInvariant;
      hide Only;
      hide Carried;
      var published := Only(From(p.origin), log);
      CountOnly(From(p.origin), here, p);
      CountOnly(From(p.origin), log, p);
      if p.origin != at {
        CountOnly(Accepts, published, p);
        CountConcat(Only(From(p.origin), here), Carried(s.links[(p.origin, at)]), p);
      }
    } else {
      CountAbsent(here, p);
      CountAbsent(log, p);
    }
  }

  /** Everything that was sent has been delivered. */
  ghost predicate Quiet(s: Net) { forall l <- s.links :: s.links[l] == [] }

  ghost predicate Agreement(s: Net) {
    forall i, j :: 0 <= i < |s.nodes| && 0 <= j < |s.nodes| ==>
      multiset(Bodies(s.nodes[i].board.history)) == multiset(Bodies(s.nodes[j].board.history))
  }

  lemma {:induction false} QuietInFlight(s: Net, at: nat, m: nat)
    requires Quiet(s)
    ensures InFlight(s, at, m) == []
  {
    if m == 0 {
    } else {
      QuietInFlight(s, at, m - 1);
      CarriedNothing();
    }
  }

  /** At rest, all servers hold the same messages, exactly if no published text was empty. */
  lemma AgreementAtRest(n: nat, s: Net)
    requires 2 <= n && MeshInvariant(n, s) && Quiet(s)
    ensures Agreement(s) <==> forall p <- Posts(s.log) :: Accepts(p)
  {
    if forall p <- Posts(s.log) :: Accepts(p) {
      forall i, j | 0 <= i < n && 0 <= j < n
        ensures multiset(Bodies(s.nodes[i].board.history)) == multiset(Bodies(s.nodes[j].board.history))
      {
        forall p: Post
          ensures multiset(Bodies(s.nodes[i].board.history))[p] == multiset(Bodies(s.nodes[j].board.history))[p]
        {
          Conserved(n, s, i, p);
          Conserved(n, s, j, p);
          QuietInFlight(s, i, n);
          QuietInFlight(s, j, n);
          if !Accepts(p) { CountAbsent(Posts(s.log), p); }
        }
      }
    } else {
      var p :| p in Posts(s.log) && !Accepts(p);
      var other := if p.origin == 0 then 1 else 0;
      Conserved(n, s, p.origin, p);
      Conserved(n, s, other, p);
      QuietInFlight(s, p.origin, n);
      QuietInFlight(s, other, n);
    }
  }

  /** Each server has the messages of one origin in the order of their publication: all of its
      own, and an initial stretch of the non-empty ones of any other. */
  ghost predicate InPublishOrder(s: Net) {
    forall i, j :: 0 <= i < |s.nodes| && 0 <= j < |s.nodes| ==>
      var here := Only(From(i), Bodies(s.nodes[j].board.history));
      var published := Only(From(i), Posts(s.log));
      if i == j then here == published else here <= Only(Accepts, published)
  }

  /** Stored and in flight together: what was published, except empty texts of others. */
  ghost predicate NothingLostOrDoubled(s: Net) {
    forall j, p: Post :: 0 <= j < |s.nodes| ==>
      multiset(Bodies(s.nodes[j].board.history))[p] + multiset(InFlight(s, j, |s.nodes|))[p] ==
      if p.origin == j || Accepts(p) then multiset(Posts(s.log))[p] else 0
  }

  lemma OrderFromAccounts(n: nat, s: Net)
    requires MeshInvariant(n, s)
    ensures InPublishOrder(s)
  {
    hide Only;
    hide Carried;
    forall i, j | 0 <= i < n && 0 <= j < n
      ensures var here := Only(From(i), Bodies(s.nodes[j].board.history));
        var published := Only(From(i), Posts(s.log));
        if i == j then here == published else here <= Only(Accepts, published)
    {
      assert Accounted(s, i, j);
    }
  }

  lemma CountsFromAccounts(n: nat, s: Net)
    requires MeshInvariant(n, s)
    ensures NothingLostOrDoubled(s)
  {
    hide InFlight;
    hide Posts;
    hide Bodies;
    forall j, p: Post | 0 <= j < n
      ensures multiset(Bodies(s.nodes[j].board.history))[p] + multiset(InFlight(s, j, n))[p] ==
              if p.origin == j || Accepts(p) then multiset(Posts(s.log))[p] else 0
    {
      Conserved(n, s, j, p);
    }
  }

  /** Every run of a static full mesh of any size keeps publication order, loses and duplicates
      nothing, and once everything sent has been delivered, all servers hold the same messages
      exactly if no empty text was published. */
  lemma MeshTheorem(capacity: nat -> nat, n: nat, steps: seq<Step>)
    requires 2 <= n && Possible(capacity, Static(n), Init(n), steps)
    ensures var s := Run(capacity, Static(n), Init(n), steps);
      && |s.nodes| == n
      && InPublishOrder(s)
      && NothingLostOrDoubled(s)
      && (Quiet(s) ==> (Agreement(s) <==> forall p <- Posts(s.log) :: Accepts(p)))
  {
    var s := Run(capacity, Static(n), Init(n), steps);
    InitMesh(n);
    RunKeepsMesh(capacity, n, Init(n), steps);
    OrderFromAccounts(n, s);
    CountsFromAccounts(n, s);
    if Quiet(s) { AgreementAtRest(n, s); }
  }
}
