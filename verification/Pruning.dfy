/** `remove_bad_servers` (src/msgserv/identity.c, lines 209-248): one walk along the list that
    deletes while it walks, and collects the descriptors to wait on. */
module Pruning {
  import opened CText
  import opened LinkedLists
  import opened Servers

  // ----- what one pass keeps -----

  /** What one pass leaves of a list when its first element may (`drop`) or may not be dropped:
      the element behind a dropped one is not looked at. */
  function Sweep<T(==)>(bad: set<T>, items: seq<T>, drop: bool): seq<T> {
    if items == [] then []
    else if drop && items[0] in bad then Sweep(bad, items[1..], false)
    else [items[0]] + Sweep(bad, items[1..], true)
  }

  function Good<T(==)>(bad: set<T>, items: seq<T>): seq<T> {
    if items == [] then []
    else if items[0] in bad then Good(bad, items[1..])
    else [items[0]] + Good(bad, items[1..])
  }

  function CountBad<T(==)>(bad: set<T>, items: seq<T>): nat {
    if items == [] then 0 else (if items[0] in bad then 1 else 0) + CountBad(bad, items[1..])
  }

  /** A pass keeps every good server, in order, and of the bad ones at most half. */
  lemma {:induction false} SweepTheorem<T>(bad: set<T>, items: seq<T>, drop: bool)
    ensures Good(bad, Sweep(bad, items, drop)) == Good(bad, items)
    ensures CountBad(bad, Sweep(bad, items, drop)) <= (CountBad(bad, items) + if drop then 0 else 1) / 2
  {
    if items == [] {
    } else {
      var next := !(drop && items[0] in bad);
      SweepTheorem(bad, items[1..], next);
      if next {
        var rest := Sweep(bad, items[1..], true);
        assert ([items[0]] + rest)[1..] == rest;
      }
    }
  }

  /** The bound is attained by every run of bad servers behind a good one: half of them stay. */
  lemma {:induction false} RunOfBadServers<T>(bad: set<T>, run: seq<T>, rest: seq<T>)
    requires forall x <- run :: x in bad
    requires rest == [] || rest[0] !in bad
    ensures |Sweep(bad, run + rest, true)| == |run| / 2 + |Sweep(bad, rest, true)|
    decreases |run|
  {
    var all := run + rest;
    if |run| == 0 {
      assert all == rest;
    } else if |run| == 1 {
      assert all[1..] == rest;
    } else {
      assert all[1..][0] == run[1] && all[1..][1..] == run[2..] + rest;
      RunOfBadServers(bad, run[2..], rest);
    }
  }

  function Passes<T(==)>(bad: set<T>, items: seq<T>, k: nat): seq<T>
    decreases k
  {
    if k == 0 then items else Passes(bad, Sweep(bad, items, true), k - 1)
  }

  function Pow2(k: nat): nat { if k == 0 then 1 else 2 * Pow2(k - 1) }

  lemma {:induction false} OnlyGood<T>(bad: set<T>, items: seq<T>)
    requires CountBad(bad, items) == 0
    ensures Good(bad, items) == items
  {
    if items == [] {
    } else {
      OnlyGood(bad, items[1..]);
    }
  }

  /** As long as nothing changes, passes reach the list of the good servers, in a number of
      passes logarithmic in the number of bad ones. */
  lemma {:induction false} PassesReachGood<T>(bad: set<T>, items: seq<T>, k: nat)
    requires CountBad(bad, items) < Pow2(k)
    ensures Passes(bad, items, k) == Good(bad, items)
    decreases k
  {
    if k == 0 {
      OnlyGood(bad, items);
    } else {
      SweepTheorem(bad, items, true);
      PassesReachGood(bad, Sweep(bad, items, true), k - 1);
    }
  }

  // ----- the pass itself -----

  /** To be removed: connections that broke, and the entry of the server itself. */
  predicate Bad(s: Server, host: Server)
    reads s
  {
    s.fd == -1 || (s.ip == host.ip && s.udp == host.udp && s.tcp == host.tcp)
  }

  /** The same, given the descriptor. */
  predicate BadWith(s: Server, fd: int, host: Server) {
    fd == -1 || (s.ip == host.ip && s.udp == host.udp && s.tcp == host.tcp)
  }

  ghost function BadOnes(items: seq<Server>, host: Server): set<Server>
    reads items
  {
    set s | s in items && Bad(s, host)
  }

  /** The descriptors to wait on, given the servers' descriptors. */
  ghost function PositiveFds(fd: map<Server, int>, items: seq<Server>): set<int> {
    set s | s in items && s in fd && 0 < fd[s] :: fd[s]
  }

  ghost predicate IsMax(fd: map<Server, int>, max: int, start: int, items: seq<Server>) {
    && start <= max
    && (forall s <- items :: s in fd ==> fd[s] <= max)
    && (max == start || exists s <- items :: s in fd && fd[s] == max)
  }

  ghost function FdMap(items: seq<Server>): map<Server, int>
    reads items
  {
    map s | s in items :: s.fd
  }

  /** One turn of the walk: the element at `i` stays, the next one goes if it is bad. */
  lemma SweepTurn<T>(bad: set<T>, items: seq<T>, i: nat, items': seq<T>)
    requires i < |items|
    requires items' == if i + 1 < |items| && items[i + 1] in bad then items[..i + 1] + items[i + 2..] else items
    ensures i < |items'| && items'[..i + 1] == items[..i + 1]
    ensures Join(items[..i], Sweep(bad, items[i..], false)) ==
            Join(items'[..i + 1], Sweep(bad, items'[i + 1..], false))
  {
    hide Sweep;
    var behind := items[i + 1..];
    assert items[i..] == [items[i]] + behind;
    SweepFirst(bad, items[i], behind);
    if i + 1 < |items| && items[i + 1] in bad {
      assert items'[i + 1..] == items[i + 2..] == behind[1..];
      SweepDrop(bad, behind);
    } else {
      assert items'[i + 1..] == behind;
      SweepNoDrop(bad, behind);
    }
    JoinAssoc(items[..i], [items[i]], Sweep(bad, behind, true));
    assert Join(items[..i], [items[i]]) == items[..i + 1];
  }

  lemma SweepFirst<T>(bad: set<T>, x: T, behind: seq<T>)
    ensures Sweep(bad, [x] + behind, false) == [x] + Sweep(bad, behind, true)
  {
    assert ([x] + behind)[1..] == behind;
  }

  lemma SweepDrop<T>(bad: set<T>, items: seq<T>)
    requires items != [] && items[0] in bad
    ensures Sweep(bad, items, true) == Sweep(bad, items[1..], false)
  {
  }

  lemma SweepNoDrop<T>(bad: set<T>, items: seq<T>)
    requires items == [] || items[0] !in bad
    ensures Sweep(bad, items, true) == Sweep(bad, items, false)
  {
  }

  /** Lines 227-234: look at the element behind the current one. */
  method RemoveNextIfBad(list: List<Server>, aux: Node<Server>, ghost i: nat, host: Server)
    requires list.Valid() && i < |list.nodes| && list.nodes[i] == aux
    modifies list, aux`next
    ensures list.Valid() && i < |list.nodes| && list.nodes[i] == aux
    ensures list.nodes == old(list.nodes) ||
      (i + 1 < |old(list.nodes)| && list.nodes == old(list.nodes)[..i + 1] + old(list.nodes)[i + 2..])
    ensures var items := old(list.Items());
      list.Items() ==
      if i + 1 < |items| && old(Bad(list.Items()[i + 1], host)) then items[..i + 1] + items[i + 2..] else items
    ensures aux.next == list.NodeAt(i + 1)
  {
    list.Follow();
    var next := aux.next;
    if next != null {
      DifferentMeans(next.item, host);
      if next.item.fd == -1 {
        list.RemoveNextNode(aux, i);
      } else if !DifferentServers(next.item, host) {
        list.RemoveNextNode(aux, i);
      }
    }
    list.Follow();
  }

  /** Lines 214-218: the head has no predecessor and is looked at on its own. */
  method RemoveHeadIfBad(list: List<Server>, host: Server)
    requires list.Valid()
    modifies list
    ensures list.Valid()
    ensures list.nodes == old(list.nodes) || (old(list.nodes) != [] && list.nodes == old(list.nodes)[1..])
    ensures var items := old(list.Items());
      list.Items() == if items != [] && old(Bad(list.Items()[0], host)) then items[1..] else items
    ensures list.head == list.NodeAt(0)
  {
    list.Follow();
    if list.head != null {
      DifferentMeans(list.head.item, host);
      if list.head.item.fd == -1 {
        list.RemoveHead();
      } else if !DifferentServers(list.head.item, host) {
        list.RemoveHead();
      }
    }
    list.Follow();
  }

  lemma FdsPush(fd: map<Server, int>, items: seq<Server>, s: Server)
    requires s in fd
    ensures PositiveFds(fd, items + [s]) == PositiveFds(fd, items) + if 0 < fd[s] then {fd[s]} else {}
  {
  }

  lemma MaxPush(fd: map<Server, int>, max: int, start: int, items: seq<Server>, s: Server)
    requires s in fd && IsMax(fd, max, start, items)
    ensures IsMax(fd, if fd[s] > max then fd[s] else max, start, items + [s])
  {
    assert s in items + [s] && forall t <- items :: t in items + [s];
  }

  lemma NoFds(fd: map<Server, int>, start: int)
    ensures PositiveFds(fd, []) == {} && IsMax(fd, start, start, [])
  {
  }

  /** Elements only ever leave the list. */
  ghost predicate Within<T>(items: seq<T>, all: set<T>) {
    forall k :: 0 <= k < |items| ==> items[k] in all
  }

  lemma StillWithin<T>(items: seq<T>, items': seq<T>, i: nat, all: set<T>)
    requires Within(items, all) && i < |items|
    requires items' == items || (i + 1 < |items| && items' == items[..i + 1] + items[i + 2..])
    ensures Within(items', all) && |items'| <= |items|
  {
  }

  lemma HeadTurn<T>(bad: set<T>, items: seq<T>, items': seq<T>)
    requires items' == if items != [] && items[0] in bad then items[1..] else items
    ensures Sweep(bad, items, true) == Sweep(bad, items', false)
  {
  }

  /** One turn of the walk, lines 224-243. */
  method Turn(list: List<Server>, aux: Node<Server>, ghost i: nat, host: Server, maxFd: int, rfds: set<int>,
              ghost bad: set<Server>, ghost fd: map<Server, int>, ghost chain: set<Node<Server>>)
    returns (max: int, fds: set<int>)
    requires list.Valid() && i < |list.nodes| && list.nodes[i] == aux
    requires Within(list.Items(), fd.Keys) && Within(list.nodes, chain)
    requires forall s <- fd :: s.fd == fd[s]
    requires forall s <- fd :: s in bad <==> BadWith(s, fd[s], host)
    modifies list, aux`next
    ensures list.Valid() && i < |list.nodes| && aux.next == list.NodeAt(i + 1)
    ensures Within(list.Items(), fd.Keys) && Within(list.nodes, chain) && |list.nodes| <= |old(list.nodes)|
    ensures forall s <- fd :: s.fd == fd[s]
    ensures list.Items()[..i + 1] == old(list.Items())[..i] + [aux.item] && aux.item == old(aux.item)
    ensures Join(list.Items()[..i + 1], Sweep(bad, list.Items()[i + 1..], false)) ==
            Join(old(list.Items())[..i], Sweep(bad, old(list.Items())[i..], false))
    ensures fds == rfds + if 0 < aux.item.fd then {aux.item.fd} else {}
    ensures max == if aux.item.fd > maxFd then aux.item.fd else maxFd
  {
    hide Sweep;
    hide Join;
    hide List.Items;
    ghost var before := list.Items();
    if i + 1 < |before| {
      Member(before, i + 1, fd.Keys);
    }
    ghost var nodes := list.nodes;
    RemoveNextIfBad(list, aux, i, host);
    StillWithin(before, list.Items(), i, fd.Keys);
    StillWithin(nodes, list.nodes, i, chain);
    SweepTurn(bad, before, i, list.Items());
    assert before[..i + 1] == before[..i] + [aux.item];
    fds := if 0 < aux.item.fd then rfds + {aux.item.fd} else rfds;
    max := if aux.item.fd > maxFd then aux.item.fd else maxFd;
  }

  lemma InitiallyWithin<T>(items: seq<T>, all: set<T>)
    requires all == set x | x in items
    ensures Within(items, all)
  {
  }

  lemma WithoutHead<T>(items: seq<T>, all: set<T>)
    requires Within(items, all)
    ensures items != [] ==> Within(items[1..], all)
  {
  }

  lemma Member<T>(items: seq<T>, i: nat, all: set<T>)
    requires Within(items, all) && i < |items|
    ensures items[i] in all
  {
  }

  lemma WalkStart<T>(bad: set<T>, items: seq<T>)
    ensures Join([], Sweep(bad, items[0..], false)) == Sweep(bad, items, false)
    ensures items[..0] == []
  {
    assert items[0..] == items;
  }

  lemma WalkEnd<T>(bad: set<T>, items: seq<T>, done: seq<T>, i: nat)
    requires i == |items| && done == items[..i]
    ensures done == items
    ensures Join(done, Sweep(bad, items[i..], false)) == items
  {
    JoinEmpty(items);
  }

  /** What the pass has been given: the descriptors, those to be removed, and what is left when
      it ends. */
  datatype Task = Task(fd: map<Server, int>, bad: set<Server>, target: seq<Server>, maxFd: int, rfds: set<int>)

  /** The walk has come to the node at `i`. */
  ghost predicate Walking(task: Task, list: List<Server>, aux: Node?<Server>, i: nat, max: int, fds: set<int>)
    reads list, list.nodes, task.fd.Keys
  {
    && list.Valid() && i <= |list.nodes| && aux == list.NodeAt(i)
    && Within(list.Items(), task.fd.Keys)
    && (forall s <- task.fd :: s.fd == task.fd[s])
    && Join(list.Items()[..i], Sweep(task.bad, list.Items()[i..], false)) == task.target
    && fds == task.rfds + PositiveFds(task.fd, list.Items()[..i])
    && IsMax(task.fd, max, task.maxFd, list.Items()[..i])
  }

  /** One turn of the walk. */
  method Advance(ghost task: Task, list: List<Server>, aux: Node<Server>, ghost i: nat, host: Server, maxFd: int,
                 rfds: set<int>, ghost chain: set<Node<Server>>)
    returns (next: Node?<Server>, max: int, fds: set<int>)
    requires Walking(task, list, aux, i, maxFd, rfds) && Within(list.nodes, chain)
    requires forall s <- task.fd :: s in task.bad <==> BadWith(s, task.fd[s], host)
    modifies list, aux`next
    ensures Walking(task, list, next, i + 1, max, fds) && Within(list.nodes, chain)
    ensures i < |list.nodes| <= |old(list.nodes)|
  {
    hide Sweep;
    hide Join;
    hide PositiveFds;
    hide IsMax;
    hide List.Items;
    hide Within;
    ghost var done := list.Items()[..i];
    Member(list.Items(), i, task.fd.Keys);
    FdsPush(task.fd, done, aux.item);
    MaxPush(task.fd, maxFd, task.maxFd, done, aux.item);
    max, fds := Turn(list, aux, i, host, maxFd, rfds, task.bad, task.fd, chain);
    next := aux.next;
  }

  /** The descriptors collected and their maximum, in terms of the servers. */
  lemma FdsMean(fd: map<Server, int>, items: seq<Server>, max: int, start: int)
    requires Within(items, fd.Keys) && (forall s <- fd :: s.fd == fd[s]) && IsMax(fd, max, start, items)
    ensures forall x :: x in PositiveFds(fd, items) <==> exists s <- items :: s.fd == x && 0 < x
    ensures start <= max && forall s <- items :: s.fd <= max
    ensures max == start || exists s <- items :: s.fd == max
  {
    assert forall s <- items :: s in fd;
    forall x ensures x in PositiveFds(fd, items) <==> exists s <- items :: s.fd == x && 0 < x {
      if s: Server :| s in items && s.fd == x && 0 < x { assert fd[s] == x; }
    }
  }

  lemma BadMeans(items: seq<Server>, host: Server)
    ensures forall s <- items ::
      (s in BadOnes(items, host) <==>
         FdMap(items)[s] == -1 || (s.ip == host.ip && s.udp == host.udp && s.tcp == host.tcp))
  {
  }

  /** Whatever the list, the host and the descriptors: the list becomes what the pass keeps, the
      descriptors added are exactly the positive ones of the servers that stay, and the maximum
      returned is the greatest of them and the one passed in. */
  method RemoveBadServers(list: List<Server>, host: Server, maxFd: int, rfds: set<int>)
    returns (max: int, fds: set<int>)
    requires list.Valid()
    modifies list, list.nodes
    ensures list.Valid()
    ensures list.Items() == Sweep(old(BadOnes(list.Items(), host)), old(list.Items()), true)
    ensures forall s <- old(list.Items()) ::
      (s in old(BadOnes(list.Items(), host)) <==>
         old(FdMap(list.Items()))[s] == -1 || (s.ip == host.ip && s.udp == host.udp && s.tcp == host.tcp))
    ensures fds == rfds + PositiveFds(old(FdMap(list.Items())), list.Items())
    ensures forall x :: x in fds <==> x in rfds || exists s <- list.Items() :: s.fd == x && 0 < x
    ensures IsMax(old(FdMap(list.Items())), max, maxFd, list.Items())
    ensures maxFd <= max && (forall s <- list.Items() :: s.fd <= max)
    ensures max == maxFd || exists s <- list.Items() :: s.fd == max
  {
    hide Sweep;
    hide Join;
    hide PositiveFds;
    hide IsMax;
    hide List.Items;
    hide Within;
    ghost var items := list.Items();
    ghost var bad, fd := BadOnes(items, host), FdMap(items);
    ghost var task := Task(fd, bad, Sweep(bad, items, true), maxFd, rfds);
    ghost var chain := set n | n in list.nodes;
    InitiallyWithin(items, fd.Keys);
    InitiallyWithin(list.nodes, chain);
    WithoutHead(items, fd.Keys);
    WithoutHead(list.nodes, chain);
    max, fds := maxFd, rfds;
    NoFds(fd, maxFd);
    BadMeans(items, host);
    RemoveHeadIfBad(list, host);
    HeadTurn(bad, items, list.Items());
    WalkStart(bad, list.Items());
    var aux := list.head;
    ghost var i := 0;
    while aux != null
      invariant Walking(task, list, aux, i, max, fds) && Within(list.nodes, chain)
      decreases |list.nodes| - i
    {
      Member(list.nodes, i, chain);
      aux, max, fds := Advance(task, list, aux, i, host, max, fds, chain);
      i := i + 1;
    }
    WalkEnd(bad, list.Items(), list.Items()[..i], i);
    FdsMean(fd, list.Items(), max, maxFd);
  }
}
