/** The client on its lists: src/rmb/message.c, lines 25-65, and src/rmb/main.c, lines 133-187. */
module RmbClients {
  import opened CText
  import opened LinkedLists
  import opened Servers
  import opened Bans
  import opened Failover
  import Registry

  /** `select_server` with `draw` for the value of `rand`: the walk always stops on a member. */
  method SelectServer(list: List<Server>, draw: nat) returns (sel: Server?)
    requires list.Valid()
    ensures sel == null <==> list.nodes == []
    ensures sel != null ==> sel == list.Items()[draw % |list.Items()|]
  {
    hide List.Items;
    list.Follow();
    var head := list.head;
    if head == null {
      return null;
    }
    var r := draw % list.size;
    var i := 0;
    while i < r
      invariant 0 <= i <= r && head == list.NodeAt(i) && head != null
    {
      head := head.next;
      i := i + 1;
    }
    sel := head.item;
  }

  lemma {:induction false} RemoveFirstAt(ids: seq<Identity>, id: Identity, i: nat)
    requires i < |ids| && ids[i] == id && forall k :: 0 <= k < i ==> ids[k] != id
    ensures RemoveFirst(ids, id) == Join(ids[..i], ids[i + 1..])
  {
    if i == 0 {
    } else {
      var first, rest := [ids[0]], ids[1..];
      RemoveFirstAt(rest, id, i - 1);
      JoinAssoc(first, rest[..i - 1], rest[i..]);
      assert ids[..i] == Join(first, rest[..i - 1]) && ids[i + 1..] == rest[i..];
    }
  }

  lemma {:induction false} RemoveFirstNone(ids: seq<Identity>, id: Identity)
    requires forall k :: 0 <= k < |ids| ==> ids[k] != id
    ensures RemoveFirst(ids, id) == ids
  {
    if ids == [] {
    } else {
      RemoveFirstNone(ids[1..], id);
    }
  }

  /** The first entry with the address and ports of `awol` stands at `at`, or there is none and `at`
      is the length. */
  ghost predicate FirstAt(items: seq<Server>, awol: Server, at: nat) {
    && at <= |items|
    && (at < |items| ==> items[at].ip == awol.ip && items[at].udp == awol.udp && items[at].tcp == awol.tcp)
    && forall k :: 0 <= k < at ==> items[k].ip != awol.ip || items[k].udp != awol.udp || items[k].tcp != awol.tcp
  }

  /** A list without the entry at `at`, if it has one. */
  ghost function WithoutAt(items: seq<Server>, at: nat): seq<Server> {
    if at < |items| then Without(items, at) else items
  }

  lemma WithoutFirst(items: seq<Server>, awol: Server, at: nat)
    requires FirstAt(items, awol, at)
    ensures Ids(WithoutAt(items, at)) == RemoveFirst(Ids(items), awol.Id())
  {
    if at < |items| {
      RemoveFirstAt(Ids(items), awol.Id(), at);
      assert Ids(items[..at] + items[at + 1..]) == Ids(items)[..at] + Ids(items)[at + 1..];
    } else {
      RemoveFirstNone(Ids(items), awol.Id());
    }
  }

  /** No entry before `at` has the address and ports of `awol`. */
  ghost predicate NoneBefore(items: seq<Server>, awol: Server, at: nat) {
    at <= |items| && forall k :: 0 <= k < at ==> DifferentServers(items[k], awol)
  }

  lemma NoneBeforeStart(items: seq<Server>, awol: Server)
    ensures NoneBefore(items, awol, 0)
  {
  }

  lemma NoneBeforeNext(items: seq<Server>, awol: Server, at: nat)
    requires NoneBefore(items, awol, at) && at < |items| && DifferentServers(items[at], awol)
    ensures NoneBefore(items, awol, at + 1)
  {
  }

  /** The walk has come to the first entry, or to the end. */
  lemma FirstFound(items: seq<Server>, awol: Server, at: nat)
    requires NoneBefore(items, awol, at) && (at < |items| ==> !DifferentServers(items[at], awol))
    ensures FirstAt(items, awol, at) && Ids(WithoutAt(items, at)) == RemoveFirst(Ids(items), awol.Id())
    ensures WithoutAt(items, at) == if at < |items| then Without(items, at) else items
    ensures items != [] ==> Without(items, 0) == items[1..]
  {
    forall k | 0 <= k < |items| && k <= at { DifferentMeans(items[k], awol); }
    WithoutFirst(items, awol, at);
  }

  /** `rem_awol_server`: exactly the first entry with the given address and ports goes, or none. */
  method RemAwolServer(list: List<Server>, awol: Server) returns (ghost at: nat)
    requires list.Valid()
    modifies list, list.nodes
    ensures list.Valid()
    ensures FirstAt(old(list.Items()), awol, at) && list.Items() == WithoutAt(old(list.Items()), at)
    ensures Ids(list.Items()) == RemoveFirst(old(Ids(list.Items())), awol.Id())
    ensures forall n :: n in list.nodes ==> n in old(list.nodes)
  {
    hide RemoveFirst;
    hide List.Items;
    hide Ids;
    hide DifferentServers;
    hide NoneBefore;
    hide FirstAt;
    hide WithoutAt;
    hide Without;
    list.Follow();
    ghost var items := list.Items();
    at := 0;
    NoneBeforeStart(items, awol);
    if list.head == null {
      FirstFound(items, awol, at);
      return;
    }
    if !DifferentServers(list.head.item, awol) {
      FirstFound(items, awol, at);
      list.RemoveHead();
      return;
    }
    NoneBeforeNext(items, awol, 0);
    var aux := list.head;
    var nextNode := aux.next;
    at := 1;
    while nextNode != null
      invariant list.Valid() && list.Items() == items && list.nodes == old(list.nodes)
      invariant 0 < at <= |list.nodes| && aux == list.nodes[at - 1] && nextNode == list.NodeAt(at)
      invariant NoneBefore(items, awol, at)
      decreases |list.nodes| - at
    {
      list.Follow();
      if !DifferentServers(nextNode.item, awol) {
        FirstFound(items, awol, at);
        list.RemoveNextNode(aux, at - 1);
        SubsetWithout(old(list.nodes), at);
        return;
      }
      NoneBeforeNext(items, awol, at);
      aux := nextNode;
      nextNode := nextNode.next;
      at := at + 1;
    }
    FirstFound(items, awol, at);
  }

  lemma SubsetWithout<T>(s: seq<T>, i: nat)
    requires i < |s|
    ensures forall x :: x in Without(s, i) ==> x in s
  {
  }

  function ListedIds(servers: seq<Listed>): (ids: seq<Identity>)
    ensures |ids| == |servers| && forall i :: 0 <= i < |ids| ==> ids[i] == servers[i].Id()
  {
    seq(|servers|, i requires 0 <= i < |servers| => servers[i].Id())
  }

  /** The entries that the client makes of a reply of the identity server. */
  function Entries(reply: string): seq<Listed> {
    Registry.Reversed(Registry.ReadLines(Registry.Body(Registry.Received(reply))))
  }

  function Fetched(reply: string): seq<Identity> { ListedIds(Entries(reply)) }

  /** A registry that the identity server printed is fetched up to the first server without a name
      or an address, names included, in reverse order. */
  lemma FetchedRegistry(servers: seq<Listed>)
    requires forall i :: 0 <= i < |servers| ==> Registry.Separable(servers[i])
    requires |Registry.PrintServers(servers)| < 512
    ensures var entries := Entries(Registry.PrintServers(servers));
      && |entries| == Registry.Readables(servers)
      && forall i :: 0 <= i < |entries| ==> entries[i] == servers[|entries| - 1 - i]
  {
    hide *;
    Registry.RegistryRead(servers);
    var read := servers[..Registry.Readables(servers)];
    var entries := Entries(Registry.PrintServers(servers));
    EntriesFrom(Registry.PrintServers(servers), read);
    Registry.ReversedLength(read);
    forall i | 0 <= i < |entries| ensures entries[i] == servers[|entries| - 1 - i] {
      Registry.ReversedAt(read, i);
    }
  }

  lemma EntriesFrom(reply: string, read: seq<Listed>)
    requires Registry.ReadLines(Registry.Body(Registry.Received(reply))) == read
    ensures Entries(reply) == Registry.Reversed(read)
  {
  }

  lemma DescribedIds(items: seq<Server>)
    ensures ListedIds(Describe(items)) == Ids(items)
  {
  }

  /** `fetch_servers`, given what the identity server replies: new objects, which say what the
      reply says. */
  method FetchServers(reply: string) returns (list: List<Server>)
    ensures list.Valid() && fresh(list) && fresh(list.nodes) && fresh(list.Items())
    ensures Describe(list.Items()) == Entries(reply) && NoRepeats(list.Items())
    ensures Ids(list.Items()) == Fetched(reply)
  {
    list := Registry.ParseForClient(Registry.Received(reply));
    hide List.Items;
    hide Registry.ReadLines;
    hide Registry.Received;
    hide Registry.Body;
    DescribedIds(list.Items());
  }

  /** As much of `fetch_servers` as the choice of a server depends on. */
  method FetchChoices(reply: string) returns (list: List<Server>)
    ensures list.Valid() && fresh(list) && fresh(list.nodes)
    ensures Ids(list.Items()) == Fetched(reply)
  {
    list := FetchServers(reply);
  }

  /** The variables of the client's main loop that the block works on. */
  class RmbClient {
    var servers: List<Server>
    const bans: BanList
    var sel: Server?
    var err: bool
    /** `server_not_answering` */
    var silent: bool
    var calls: nat
    var fetched: nat

    ghost predicate Valid()
      reads this, servers, servers.nodes, bans, bans.entries, bans.entries.nodes
    {
      servers.Valid() && bans.Valid() && Apart()
    }

    /** The two lists share no part of their structure. */
    ghost predicate Apart()
      reads this, servers, bans, bans.entries
    {
      servers != bans.entries && forall n :: n in servers.nodes ==> n !in bans.entries.nodes
    }

    ghost function State(): Client
      requires Valid()
      reads this, servers, servers.nodes, bans, bans.entries, bans.entries.nodes, bans.entries.Items()
    {
      Client(Ids(servers.Items()), bans.Counters(), Selected(sel), err, silent, calls, fetched)
    }

    /** `init_program` with the first list fetched. */
    constructor (reply: string, rand: nat -> nat)
      ensures Valid() && Sane(State()) && fresh(servers) && fresh(servers.nodes)
      ensures Ids(servers.Items()) == Fetched(reply)
    {
      hide Fetched;
      hide List.Items;
      hide NoRepeats;
      hide Chain;
      bans := new BanList();
      var list := FetchChoices(reply);
      servers := list;
      err, silent := false, false;
      var chosen := SelectServer(list, rand(0));
      sel := chosen;
      calls := if chosen == null then 0 else 1;
      fetched := 0;
      new;
      assert sel != null ==> Ids(servers.Items())[rand(0) % |servers.Items()|] == sel.Id();
    }

    /** Lines 153 and 160. */
    method Pick(rand: nat -> nat)
      requires Valid()
      modifies this`sel, this`calls
      ensures Valid()
      ensures sel == null <==> Ids(servers.Items()) == []
      ensures sel == null ==> calls == old(calls)
      ensures sel != null ==> calls == old(calls) + 1
      ensures sel != null ==> sel.Id() == Ids(servers.Items())[rand(old(calls)) % |Ids(servers.Items())|]
    {
      hide List.Items;
      hide NoRepeats;
      hide Chain;
      sel := SelectServer(servers, rand(calls));
      if sel != null {
        calls := calls + 1;
      }
    }

    /** `is_banned` on the selected server. */
    method AskSelected() returns (banned: bool)
      requires Valid() && sel != null
      modifies bans.entries.Items()
      ensures Valid() && Ids(servers.Items()) == old(Ids(servers.Items()))
      ensures bans.entries.nodes == old(bans.entries.nodes) && bans.entries.Items() == old(bans.entries.Items())
      ensures bans.Counters() == Ask(old(bans.Counters()), sel.Id())
      ensures banned <==> Answer(old(bans.Counters()), sel.Id())
    {
      hide RemoveFirst;
      hide List.Items;
      hide NoRepeats;
      hide Chain;
      hide Ids;
      hide BanList.Counters;
      banned := bans.IsBanned(sel);
    }

    /** `rem_awol_server` on the selected server. */
    method DropSelected()
      requires Valid() && sel != null
      modifies servers, servers.nodes
      ensures Valid() && Ids(servers.Items()) == RemoveFirst(old(Ids(servers.Items())), sel.Id())
      ensures forall n :: n in servers.nodes ==> n in old(servers.nodes)
      ensures bans.Counters() == old(bans.Counters())
      ensures bans.entries.nodes == old(bans.entries.nodes) && bans.entries.Items() == old(bans.entries.Items())
    {
      hide RemoveFirst;
      hide List.Items;
      hide NoRepeats;
      hide Chain;
      hide Ids;
      hide BanList.Counters;
      ghost var mine := set n | n in servers.nodes;
      ghost var others := bans.entries.nodes;
      assert forall i :: 0 <= i < |others| ==> others[i] !in mine;
      ghost var at := RemAwolServer(servers, sel);
      assert forall i :: 0 <= i < |others| ==> others[i].item == old(others[i].item) && others[i].next == old(others[i].next);
      assert bans.entries.Items() == old(bans.entries.Items());
      assert bans.Valid();
    }

    /** The search is over, or its next pick is banned and still to be dropped. */
    ghost predicate Pending(banned: bool, target: Found, rand: nat -> nat)
      requires Valid()
      reads this, servers, servers.nodes, bans, bans.entries, bans.entries.nodes, bans.entries.Items()
    {
      if sel != null && banned then
        && sel.Id() in Ids(servers.Items())
        && target == Search(RemoveFirst(Ids(servers.Items()), sel.Id()), bans.Counters(), rand, calls)
      else target == Found(Ids(servers.Items()), bans.Counters(), Selected(sel), calls)
    }

    /** A pick and the question whether it is banned. */
    method PickAndAsk(rand: nat -> nat) returns (banned: bool)
      requires Valid()
      modifies this`sel, this`calls, bans.entries.Items()
      ensures Valid()
      ensures Ids(servers.Items()) == old(Ids(servers.Items()))
      ensures bans.entries.nodes == old(bans.entries.nodes) && bans.entries.Items() == old(bans.entries.Items())
      ensures Pending(banned, Search(old(Ids(servers.Items())), old(bans.Counters()), rand, old(calls)), rand)
    {
      hide RemoveFirst;
      hide List.Items;
      hide NoRepeats;
      hide Chain;
      hide Ids;
      hide BanList.Counters;
      hide BanList.Valid;
      hide Search;
      SearchStep(Ids(servers.Items()), bans.Counters(), rand, calls);
      Pick(rand);
      banned := false;
      if sel != null {
        banned := AskSelected();
      }
    }

    /** Lines 153-161: the search refines the one on values, whatever `rand` returns. */
    method SearchList(rand: nat -> nat)
      requires Valid()
      modifies this`sel, this`calls, servers, servers.nodes, bans.entries.Items()
      ensures Valid()
      ensures forall n :: n in servers.nodes ==> n in old(servers.nodes)
      ensures bans.entries.nodes == old(bans.entries.nodes) && bans.entries.Items() == old(bans.entries.Items())
      ensures Found(Ids(servers.Items()), bans.Counters(), Selected(sel), calls) ==
              Search(old(Ids(servers.Items())), old(bans.Counters()), rand, old(calls))
    {
      hide RemoveFirst;
      hide List.Items;
      hide NoRepeats;
      hide Chain;
      hide Ids;
      hide BanList.Counters;
      hide BanList.Valid;
      hide Search;
      ghost var target := Search(Ids(servers.Items()), bans.Counters(), rand, calls);
      var banned := PickAndAsk(rand);
      while sel != null && banned
        invariant Valid()
        invariant forall n :: n in servers.nodes ==> n in old(servers.nodes)
        invariant bans.entries.nodes == old(bans.entries.nodes) && bans.entries.Items() == old(bans.entries.Items())
        invariant Pending(banned, target, rand)
        decreases |Ids(servers.Items())|
      {
        Shorter(Ids(servers.Items()), sel.Id());
        assert servers == old(servers);
        assert forall k :: 0 <= k < |servers.nodes| ==> servers.nodes[k] in old(servers.nodes);
        DropSelected();
        banned := PickAndAsk(rand);
      }
    }

    /** Lines 143-147. */
    method BanSelected()
      requires Valid() && sel != null
      modifies bans.entries, bans.entries.Items()
      ensures Valid()
      ensures bans.Counters() == Ban(old(bans.Counters()), sel.Id())
      ensures Ids(servers.Items()) == old(Ids(servers.Items()))
      ensures forall s :: s in bans.entries.Items() ==> s in old(bans.entries.Items()) || fresh(s)
    {
      hide RemoveFirst;
      hide List.Items;
      hide NoRepeats;
      hide Chain;
      hide Ids;
      hide BanList.Counters;
      hide Search;
      ghost var nodes, items := bans.entries.nodes, bans.entries.Items();
      bans.BanServer(sel);
      FirstNew(bans.entries.nodes, nodes);
      FirstNew(bans.entries.Items(), items);
    }

    /** Lines 139-151: a server that does not answer is banned and leaves the list. Without a
        selected server nothing is pending, so `rem_awol_server` never gets NULL. */
    method React()
      requires Valid() && (sel == null ==> !err && !silent)
      modifies this`silent, bans.entries, bans.entries.Items(), servers, servers.nodes
      ensures Valid() && silent == (old(silent) || err)
      ensures bans.Counters() == if silent then Ban(old(bans.Counters()), sel.Id()) else old(bans.Counters())
      ensures Ids(servers.Items()) ==
              if silent then RemoveFirst(old(Ids(servers.Items())), sel.Id()) else old(Ids(servers.Items()))
      ensures forall s :: s in bans.entries.Items() ==> s in old(bans.entries.Items()) || fresh(s)
      ensures forall n :: n in servers.nodes ==> n in old(servers.nodes)
    {
      hide RemoveFirst;
      hide List.Items;
      hide NoRepeats;
      hide Chain;
      hide Ids;
      hide BanList.Counters;
      hide BanList.Valid;
      hide Search;
      if err {
        silent := true;
      }
      if silent {
        BanSelected();
        DropSelected();
      }
    }

    /** Lines 163-185: the search succeeded, or a new list is fetched. */
    method Conclude(reply: string)
      requires Valid()
      modifies this
      ensures Valid() && calls == old(calls) && sel == old(sel) && !silent
      ensures err == (old(err) && sel != null) && fetched == old(fetched) + if sel == null then 1 else 0
      ensures bans.Counters() == old(bans.Counters())
      ensures Ids(servers.Items()) == if sel == null then Fetched(reply) else old(Ids(servers.Items()))
      ensures sel != null ==> servers == old(servers) && servers.nodes == old(servers.nodes)
      ensures sel == null ==> fresh(servers) && fresh(servers.nodes)
      ensures bans.entries.nodes == old(bans.entries.nodes) && bans.entries.Items() == old(bans.entries.Items())
    {
      hide RemoveFirst;
      hide List.Items;
      hide NoRepeats;
      hide Chain;
      hide Ids;
      hide BanList.Counters;
      hide BanList.Valid;
      hide Search;
      hide Fetched;
      ghost var parts: seq<object> := [bans, bans.entries] + bans.entries.nodes + bans.entries.Items();
      assert forall k :: 0 <= k < |parts| ==> parts[k] != this;
      if sel != null {
        silent := false;
      } else {
        err := false;
        var list := FetchChoices(reply);
        servers := list;
        fetched := fetched + 1;
        silent := false;
      }
    }

    /** Lines 139-161: react to what is pending, and search. */
    method ReactAndSearch(rand: nat -> nat)
      requires Valid() && (sel == null ==> !err && !silent)
      modifies this`silent, this`sel, this`calls, servers, servers.nodes, bans.entries, bans.entries.Items()
      ensures Valid() && silent == (old(silent) || err)
      ensures Found(Ids(servers.Items()), bans.Counters(), Selected(sel), calls) ==
              SearchAfter(old(State()), rand)
      ensures forall n :: n in servers.nodes ==> n in old(servers.nodes)
      ensures forall s :: s in bans.entries.Items() ==> s in old(bans.entries.Items()) || fresh(s)
    {
      hide Ids;
      hide List.Items;
      hide NoRepeats;
      hide Chain;
      hide BanList.Counters;
      hide BanList.Valid;
      hide Search;
      hide RemoveFirst;
      React();
      ghost var items := bans.entries.Items();
      assert forall k :: 0 <= k < |items| ==> items[k] in old(bans.entries.Items()) || fresh(items[k]);
      assert forall k :: 0 <= k < |servers.nodes| ==> servers.nodes[k] in old(servers.nodes);
      SearchList(rand);
    }

    /** The block of lines 139-186, once through: it refines the one on values. */
    method PassBlock(rand: nat -> nat, reply: string)
      requires Valid() && Sane(State())
      modifies this, servers, servers.nodes, bans.entries, bans.entries.Items()
      ensures Valid() && Sane(State())
      ensures State() == Pass(old(State()), rand, Fetched(reply))
      ensures old(sel) != null && old(silent || err) ==>
        var x := old(sel).Id();
        && x in bans.Counters()
        && (x !in old(bans.Counters()) || old(bans.Counters())[x] < 0 ==>
              bans.Counters()[x] >= 5 - (Times(old(Ids(servers.Items())), x) - 1))
      ensures servers == old(servers) || fresh(servers)
      ensures forall n :: n in servers.nodes ==> n in old(servers.nodes) || fresh(n)
      ensures forall s :: s in bans.entries.Items() ==> s in old(bans.entries.Items()) || fresh(s)
    {
      hide Ids;
      hide List.Items;
      hide NoRepeats;
      hide Chain;
      hide BanList.Counters;
      hide BanList.Valid;
      hide SearchAfter;
      hide Fetched;
      hide Pass;
      ghost var before := State();
      PassKeepsSane(before, rand, Fetched(reply));
      if sel != null && (silent || err) { SilentIsBanned(before, rand, Fetched(reply)); }
      ReactAndSearch(rand);
      ghost var found := Found(Ids(servers.Items()), bans.Counters(), Selected(sel), calls);
      Conclude(reply);
      PassInParts(before, found, State(), rand, Fetched(reply));
    }

    /** The loop around the block: as long as it is entered, and with an identity server that
        answers every fetch, each time with a list that is not empty. It ends with a selected
        server and nothing pending, as the choice on values does. */
    method RepeatBlock(rand: nat -> nat, replies: nat -> string)
      requires Valid() && Sane(State()) && NeverEmpty(FetchedLists(replies))
      modifies this, servers, servers.nodes, bans.entries, bans.entries.Items()
      ensures Valid() && Sane(State()) && !Searching(State())
      ensures State() == Choose(old(State()), rand, FetchedLists(replies))
    {
      hide Ids;
      hide List.Items;
      hide NoRepeats;
      hide Chain;
      hide BanList.Counters;
      hide BanList.Valid;
      hide Choose;
      hide Pass;
      hide Total;
      hide Fetched;
      ghost var registry := FetchedLists(replies);
      ghost var target := Choose(State(), rand, registry);
      while sel == null || err || silent
        invariant Valid() && Sane(State())
        invariant servers == old(servers) || fresh(servers)
        invariant forall n :: n in servers.nodes ==> n in old(servers.nodes) || fresh(n)
        invariant forall s :: s in bans.entries.Items() ==> s in old(bans.entries.Items()) || fresh(s)
        invariant Choose(State(), rand, registry) == target
        decreases err, Searching(State()), sel != null || Ids(servers.Items()) == [],
          if err then |Ids(servers.Items())| else Total(bans.Counters())
      {
        ChooseStep(State(), rand, registry);
        PassShrinks(State(), rand, registry(fetched));
        ghost var nodes, items := servers.nodes, bans.entries.Items();
        assert forall k :: 0 <= k < |nodes| ==> nodes[k] in old(servers.nodes) || fresh(nodes[k]);
        assert forall k :: 0 <= k < |items| ==> items[k] in old(bans.entries.Items()) || fresh(items[k]);
        PassBlock(rand, replies(fetched));
      }
      ChooseDone(State(), rand, registry);
    }

    /** The choice of a server: a selected one that did not answer, and has no further entry in the
        list, is not chosen again unless a list is fetched. */
    method ChooseServer(rand: nat -> nat, replies: nat -> string)
      requires Valid() && Sane(State()) && NeverEmpty(FetchedLists(replies))
      modifies this, servers, servers.nodes, bans.entries, bans.entries.Items()
      ensures Valid() && Sane(State()) && !Searching(State())
      ensures State() == Choose(old(State()), rand, FetchedLists(replies))
      ensures old(sel) != null && old(silent || err) && Times(old(Ids(servers.Items())), old(sel).Id()) == 1 ==>
        (fetched == old(fetched) ==> sel.Id() != old(sel).Id())
    {
      hide Ids;
      hide List.Items;
      hide NoRepeats;
      hide Chain;
      hide BanList.Counters;
      hide BanList.Valid;
      hide Choose;
      hide Times;
      SilentLeft(State(), rand, FetchedLists(replies));
      RepeatBlock(rand, replies);
    }
  }

  /** The lists that the client makes of one reply after the other. */
  function FetchedLists(replies: nat -> string): nat -> seq<Identity> {
    (i: nat) => Fetched(replies(i))
  }

  /** The search of a run through the block, after what was pending has been dealt with. */
  function SearchAfter(c: Client, rand: nat -> nat): Found {
    if (c.silent || c.err) && c.sel.Some? then
      Search(RemoveFirst(c.servers, c.sel.value), Ban(c.bans, c.sel.value), rand, c.calls)
    else Search(c.servers, c.bans, rand, c.calls)
  }

  /** The parts of the block put together. */
  lemma PassInParts(before: Client, found: Found, after: Client, rand: nat -> nat, registry: seq<Identity>)
    requires found == SearchAfter(before, rand)
    requires after.sel == found.sel && after.calls == found.calls && after.bans == found.bans
    requires after.servers == if found.sel == None then registry else found.servers
    requires !after.silent && after.err == (before.err && found.sel != None)
    requires after.fetched == before.fetched + if found.sel == None then 1 else 0
    ensures after == Pass(before, rand, registry)
  {
    hide Search;
  }

  lemma SilentLeft(c: Client, rand: nat -> nat, registry: nat -> seq<Identity>)
    requires Sane(c) && NeverEmpty(registry)
    ensures c.sel.Some? && (c.silent || c.err) && Times(c.servers, c.sel.value) == 1 ==>
      (Choose(c, rand, registry).fetched == c.fetched ==> Choose(c, rand, registry).sel != c.sel)
  {
    if c.sel.Some? && (c.silent || c.err) && Times(c.servers, c.sel.value) == 1 {
      SilentNotChosen(c, rand, registry);
    }
  }

  lemma ChooseStep(c: Client, rand: nat -> nat, registry: nat -> seq<Identity>)
    requires Sane(c) && Searching(c) && NeverEmpty(registry)
    ensures Sane(Pass(c, rand, registry(c.fetched))) && registry(c.fetched) != []
    ensures Choose(c, rand, registry) == Choose(Pass(c, rand, registry(c.fetched)), rand, registry)
  {
    PassKeepsSane(c, rand, registry(c.fetched));
  }

  lemma ChooseDone(c: Client, rand: nat -> nat, registry: nat -> seq<Identity>)
    requires Sane(c) && !Searching(c) && NeverEmpty(registry)
    ensures Choose(c, rand, registry) == c
  {
  }

  lemma FirstNew<T>(now: seq<T>, before: seq<T>)
    requires now == before || (|now| > 0 && now[1..] == before)
    ensures forall x :: x in now ==> x in before || x == now[0]
  {
  }

  lemma Shorter(ids: seq<Identity>, id: Identity)
    requires id in ids
    ensures |RemoveFirst(ids, id)| < |ids|
  {
  }

  /** One turn of the search. */
  lemma SearchStep(servers: seq<Identity>, bans: Counters, rand: nat -> nat, calls: nat)
    ensures Search(servers, bans, rand, calls) ==
      if servers == [] then Found([], bans, None, calls)
      else
        var id := servers[rand(calls) % |servers|];
        if Answer(bans, id) then Search(RemoveFirst(servers, id), Ask(bans, id), rand, calls + 1)
        else Found(servers, Ask(bans, id), Some(id), calls + 1)
  {
  }

  function Selected(sel: Server?): Option<Identity> {
    if sel == null then None else Some(sel.Id())
  }
}
