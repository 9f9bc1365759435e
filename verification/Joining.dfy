/** `join_to_old_servers` and `connect_to_old_server` (src/msgserv/identity.c, lines 116-206):
    connect to every listed server and ask exactly one of them for its board. */
module Joining {
  import opened CText
  import opened LinkedLists
  import opened Servers
  import Registry

  /** How the network answers an attempt to reach a server: no socket can be made, the address
      does not resolve, the connection is refused, or it stands with a descriptor, on which
      sending the request works or not. */
  datatype Attempt = NoSocket | Unresolved | Refused | Connected(fd: nat, sendOk: bool)

  const FRESH := -2

  /** One server: 0 if the request has been sent by now, 1 if not yet, -1 on a fatal error. */
  method ConnectToOldServer(server: Server, isCommSent: bool, attempt: Attempt) returns (status: int, asked: bool)
    modifies server`fd
    ensures server.fd == if old(server.fd) != FRESH then old(server.fd) else FdAfter(isCommSent, attempt)
    ensures asked <==> old(server.fd) == FRESH && !isCommSent && attempt.Connected? && attempt.sendOk
    ensures status == if old(server.fd) == FRESH && attempt.NoSocket? then -1
                      else if isCommSent || asked then 0 else 1
  {
    status, asked := 1, false;
    if server.fd == FRESH {
      var processingFd: int;
      match attempt {
        case NoSocket =>
          return -1, false;
        case Unresolved =>
          processingFd := -1;
        case Refused =>
          processingFd := -1;
        case Connected(fd, sendOk) =>
          processingFd := fd;
          if !isCommSent {
            if sendOk {
              status, asked := 0, true;
            } else {
              processingFd := -1;
            }
          }
      }
      server.fd := processingFd;
    }
    if status == 1 && isCommSent {
      status := 0;
    }
  }

  /** The descriptor of a freshly listed server after the attempt. */
  function FdAfter(isCommSent: bool, attempt: Attempt): int {
    match attempt
    case NoSocket => FRESH
    case Unresolved => -1
    case Refused => -1
    case Connected(fd, sendOk) => if isCommSent || sendOk then fd else -1
  }

  /** To be connected to: any server but the own one that has not been tried. */
  predicate Eligible(s: Server, host: Server)
    reads s
  {
    (s.ip != host.ip || s.udp != host.udp || s.tcp != host.tcp) && s.fd == -2
  }

  ghost function EligibleOnes(items: seq<Server>, host: Server): (r: seq<bool>)
    reads items
    ensures |r| == |items| && forall i :: 0 <= i < |items| ==> r[i] == Eligible(items[i], host)
  {
    seq(|items|, i requires 0 <= i < |items| reads items => Eligible(items[i], host))
  }

  /** Whether the request can be sent to the server at `i`. */
  ghost predicate Reachable(eligible: seq<bool>, attempts: seq<Attempt>, i: nat)
    requires i < |eligible| == |attempts|
  {
    eligible[i] && attempts[i].Connected? && attempts[i].sendOk
  }

  /** The first of the first `n` servers that the request can be sent to, or `n`. */
  ghost function FirstReachable(eligible: seq<bool>, attempts: seq<Attempt>, n: nat): (k: nat)
    requires n <= |eligible| == |attempts|
    ensures k <= n
    ensures k < n ==> Reachable(eligible, attempts, k)
    ensures forall i :: 0 <= i < k ==> !Reachable(eligible, attempts, i)
  {
    if n == 0 then 0
    else
      var k := FirstReachable(eligible, attempts, n - 1);
      if k < n - 1 || Reachable(eligible, attempts, n - 1) then k else n
  }

  /** The descriptors after the first `n` servers were tried. */
  ghost function FdsUpTo(eligible: seq<bool>, attempts: seq<Attempt>, fds: seq<int>, n: nat): (r: seq<int>)
    requires n <= |eligible| == |attempts| == |fds|
    ensures |r| == |fds|
    ensures forall k :: 0 <= k < |fds| ==>
      r[k] == if k < n && eligible[k] then FdAfter(FirstReachable(eligible, attempts, n) < k, attempts[k]) else fds[k]
  {
    var first := FirstReachable(eligible, attempts, n);
    seq(|fds|, k requires 0 <= k < |fds| =>
      if k < n && eligible[k] then FdAfter(first < k, attempts[k]) else fds[k])
  }

  /** The servers asked among the first `n`. */
  ghost function AskedUpTo(eligible: seq<bool>, attempts: seq<Attempt>, n: nat): seq<nat>
    requires n <= |eligible| == |attempts|
  {
    var first := FirstReachable(eligible, attempts, n);
    if first < n then [first] else []
  }

  /** One server further. */
  lemma OneFurther(eligible: seq<bool>, attempts: seq<Attempt>, fds: seq<int>, n: nat)
    requires n < |eligible| == |attempts| == |fds|
    ensures var sent := FirstReachable(eligible, attempts, n) < n;
      && FdsUpTo(eligible, attempts, fds, n + 1) ==
         (if eligible[n] then FdsUpTo(eligible, attempts, fds, n)[n := FdAfter(sent, attempts[n])]
          else FdsUpTo(eligible, attempts, fds, n))
      && (FirstReachable(eligible, attempts, n + 1) < n + 1 <==> sent || Reachable(eligible, attempts, n))
      && AskedUpTo(eligible, attempts, n + 1) ==
         if !sent && Reachable(eligible, attempts, n) then Join(AskedUpTo(eligible, attempts, n), [n])
         else AskedUpTo(eligible, attempts, n)
  {
  }

  /** Who was asked, and what becomes of each server, in terms of the outcomes alone: only the
      first server that can be reached is asked; a server ends connected exactly if its
      connection stood and, unless an earlier one had been asked, the request went out. */
  lemma JoinOutcome(eligible: seq<bool>, attempts: seq<Attempt>, fds: seq<int>, n: nat, k: nat)
    requires k < n <= |eligible| == |attempts| == |fds|
    requires eligible[k] ==> fds[k] == FRESH && !attempts[k].NoSocket?
    ensures AskedUpTo(eligible, attempts, n) == [k] <==>
      Reachable(eligible, attempts, k) && forall j :: 0 <= j < k ==> !Reachable(eligible, attempts, j)
    ensures AskedUpTo(eligible, attempts, n) == [] <==>
      forall j :: 0 <= j < n ==> !Reachable(eligible, attempts, j)
    ensures !eligible[k] ==> FdsUpTo(eligible, attempts, fds, n)[k] == fds[k]
    ensures eligible[k] ==>
      (FdsUpTo(eligible, attempts, fds, n)[k] == -1 <==>
         !attempts[k].Connected? ||
         (!attempts[k].sendOk && forall j :: 0 <= j < k ==> !Reachable(eligible, attempts, j)))
    ensures eligible[k] && FdsUpTo(eligible, attempts, fds, n)[k] != -1 ==>
      FdsUpTo(eligible, attempts, fds, n)[k] == attempts[k].fd
  {
    var first := FirstReachable(eligible, attempts, n);
    assert first < n ==> Reachable(eligible, attempts, first);
    if first < k {
      assert !(forall j :: 0 <= j < k ==> !Reachable(eligible, attempts, j));
    } else if Reachable(eligible, attempts, k) {
      assert first == k;
    }
  }

  lemma NoneYet(eligible: seq<bool>, attempts: seq<Attempt>, fds: seq<int>)
    requires |eligible| == |attempts| == |fds|
    ensures FdsUpTo(eligible, attempts, fds, 0) == fds
    ensures AskedUpTo(eligible, attempts, 0) == [] && FirstReachable(eligible, attempts, 0) == 0
  {
  }

  /** Lines 194-199 for the server at `i`: the flag afterwards, and whether all is well. */
  method TryServer(server: Server, host: Server, isCommSent: bool, attempt: Attempt, ghost items: seq<Server>,
                   ghost i: nat) returns (ok: bool, isCommSent': bool, asked: bool)
    requires i < |items| && items[i] == server && NoRepeats(items)
    modifies server`fd
    ensures var eligible := old(Eligible(server, host));
      && (!ok <==> eligible && attempt.NoSocket?)
      && (!ok ==> Fds(items) == old(Fds(items)))
      && (ok ==> (isCommSent' <==> isCommSent || asked))
      && (asked <==> eligible && !isCommSent && attempt.Connected? && attempt.sendOk)
      && Fds(items) == if eligible then old(Fds(items))[i := FdAfter(isCommSent, attempt)] else old(Fds(items))
  {
    NoRepeatsMeans(items);
    ghost var before := Fds(items);
    ok, isCommSent', asked := true, isCommSent, false;
    DifferentMeans(server, host);
    if DifferentServers(server, host) {
      var status;
      status, asked := ConnectToOldServer(server, isCommSent, attempt);
      if status == 0 {
        isCommSent' := true;
      } else if status == 1 {
        isCommSent' := false;
      } else {
        ok := false;
      }
    }
    FdsChanged(items, i, before);
  }

  /** The walk along the list ended at `stop`: at its end, or at the first eligible server for
      which no socket could be made; up to there the servers in `asked` were asked. */
  ghost predicate Walked(eligible: seq<bool>, attempts: seq<Attempt>, stop: nat, asked: seq<nat>)
    requires stop <= |eligible| == |attempts|
  {
    && (forall i :: 0 <= i < stop ==> !(eligible[i] && attempts[i].NoSocket?))
    && (stop < |eligible| ==> eligible[stop] && attempts[stop].NoSocket?)
    && asked == AskedUpTo(eligible, attempts, stop)
  }

  /** The walk has come to the server at `i`, and has left the descriptors `now`. */
  ghost predicate Progress(eligible: seq<bool>, attempts: seq<Attempt>, fds: seq<int>, now: seq<int>, i: nat, sent: bool,
                           asked: seq<nat>)
    requires i <= |eligible| == |attempts| == |fds|
  {
    && (forall k :: 0 <= k < i ==> !(eligible[k] && attempts[k].NoSocket?))
    && (sent <==> FirstReachable(eligible, attempts, i) < i)
    && asked == AskedUpTo(eligible, attempts, i)
    && now == FdsUpTo(eligible, attempts, fds, i)
  }

  lemma ProgressStart(eligible: seq<bool>, attempts: seq<Attempt>, fds: seq<int>)
    requires |eligible| == |attempts| == |fds|
    ensures Progress(eligible, attempts, fds, fds, 0, false, [])
  {
    NoneYet(eligible, attempts, fds);
  }

  lemma ProgressFurther(eligible: seq<bool>, attempts: seq<Attempt>, fds: seq<int>, now: seq<int>, i: nat, sent: bool,
                        asked: seq<nat>)
    requires i < |eligible| == |attempts| == |fds| && Progress(eligible, attempts, fds, now, i, sent, asked)
    ensures |now| == |fds| && now[i] == fds[i]
    ensures eligible[i] && attempts[i].NoSocket? ==>
      Walked(eligible, attempts, i, asked) && now == FdsUpTo(eligible, attempts, fds, i)
    ensures Reachable(eligible, attempts, i) <==> eligible[i] && attempts[i].Connected? && attempts[i].sendOk
    ensures !(eligible[i] && attempts[i].NoSocket?) ==>
      var sentNow := !sent && Reachable(eligible, attempts, i);
      Progress(eligible, attempts, fds, if eligible[i] then now[i := FdAfter(sent, attempts[i])] else now, i + 1,
               sent || sentNow, if sentNow then Join(asked, [i]) else asked)
  {
    OneFurther(eligible, attempts, fds, i);
    hide FirstReachable;
    hide FdsUpTo;
    hide AskedUpTo;
    hide Join;
  }

  lemma ProgressDone(eligible: seq<bool>, attempts: seq<Attempt>, fds: seq<int>, now: seq<int>, i: nat, sent: bool,
                     asked: seq<nat>)
    requires i == |eligible| == |attempts| == |fds| && Progress(eligible, attempts, fds, now, i, sent, asked)
    ensures Walked(eligible, attempts, i, asked) && now == FdsUpTo(eligible, attempts, fds, i)
  {
  }

  lemma ListPlace(list: List<Server>, i: nat)
    requires list.Valid() && i <= |list.Items()|
    ensures |list.Items()| == |list.nodes|
    ensures list.NodeAt(i) == null <==> i == |list.nodes|
    ensures i < |list.nodes| ==> list.NodeAt(i) == list.nodes[i] && list.nodes[i].item == list.Items()[i]
  {
  }

  /** Eligibility at the start of the walk, in terms of the descriptors then. */
  ghost predicate Judged(items: seq<Server>, host: Server, eligible: seq<bool>, fds: seq<int>) {
    && |eligible| == |items| == |fds|
    && forall k :: 0 <= k < |items| ==> (eligible[k] <==>
         (items[k].ip != host.ip || items[k].udp != host.udp || items[k].tcp != host.tcp) && fds[k] == -2)
  }

  lemma JudgedNow(items: seq<Server>, host: Server)
    ensures Judged(items, host, EligibleOnes(items, host), Fds(items))
  {
  }

  lemma JudgedMeans(items: seq<Server>, host: Server, eligible: seq<bool>, fds: seq<int>)
    requires Judged(items, host, eligible, fds)
    ensures |eligible| == |items| == |fds|
    ensures forall k :: 0 <= k < |items| ==>
      (eligible[k] <==> (items[k].ip != host.ip || items[k].udp != host.udp || items[k].tcp != host.tcp) && fds[k] == -2)
  {
  }

  lemma StillEligible(items: seq<Server>, host: Server, eligible: seq<bool>, fds: seq<int>, i: nat)
    requires Judged(items, host, eligible, fds) && i < |items| && Fds(items)[i] == fds[i]
    ensures Eligible(items[i], host) <==> eligible[i]
  {
  }

  /** Over any list, with any outcomes: the request is sent, successfully, to exactly the first
      eligible server whose connection and sending succeed, and to none if there is none. That
      server and those after it keep the descriptors of their connections; servers that cannot
      be reached, or that fail before anyone was asked, get -1; the own entry and servers tried
      before keep theirs. A socket that cannot be made ends the walk there. */
  method JoinToOldServers(list: List<Server>, host: Server, attempts: seq<Attempt>)
    returns (code: int, asked: seq<nat>, ghost stop: nat)
    requires list.Valid() && NoRepeats(list.Items()) && |attempts| == |list.Items()|
    modifies list.Items()
    ensures list.Valid() && list.Items() == old(list.Items())
    ensures forall i :: 0 <= i < |list.Items()| ==>
      var s := list.Items()[i];
      (old(EligibleOnes(list.Items(), host))[i] <==>
         (s.ip != host.ip || s.udp != host.udp || s.tcp != host.tcp) && old(Fds(list.Items()))[i] == -2)
    ensures var eligible := old(EligibleOnes(list.Items(), host));
      && stop <= |eligible| && code == (if stop == |eligible| then 0 else -1)
      && Walked(eligible, attempts, stop, asked)
      && Fds(list.Items()) == FdsUpTo(eligible, attempts, old(Fds(list.Items())), stop)
  {
    hide *;
    ghost var items := list.Items();
    ghost var eligible, fds := EligibleOnes(items, host), Fds(items);
    JudgedNow(items, host);
    JudgedMeans(items, host, eligible, fds);
    ProgressStart(eligible, attempts, fds);
    var isCommSent := false;
    asked := [];
    list.Follow();
    var aux := list.head;
    var i: nat := 0;
    while aux != null
      invariant list.Valid() && list.nodes == old(list.nodes) && list.Items() == items
      invariant 0 <= i <= |items| && aux == list.NodeAt(i)
      invariant Progress(eligible, attempts, fds, Fds(items), i, isCommSent, asked)
      decreases |items| - i
    {
      ListPlace(list, i);
      ProgressFurther(eligible, attempts, fds, Fds(items), i, isCommSent, asked);
      StillEligible(items, host, eligible, fds, i);
      var ok, sent;
      ok, isCommSent, sent := TryServer(aux.item, host, isCommSent, attempts[i], items, i);
      if !ok {
        return -1, asked, i;
      }
      if sent {
        asked := Join<nat>(asked, [i]);
      }
      list.Follow();
      aux := aux.next;
      i := i + 1;
    }
    ListPlace(list, i);
    ProgressDone(eligible, attempts, fds, Fds(items), i, isCommSent, asked);
    code, stop := 0, i;
  }

  // ----- the whole join -----

  /** Which of the servers that a parser has just listed are connected to: all but the own one. */
  function OthersThan(host: Server, read: seq<Listed>): (r: seq<bool>)
    ensures |r| == |read|
    ensures forall i :: 0 <= i < |r| ==>
      (r[i] <==> read[i].ip != host.ip || read[i].udp != host.udp || read[i].tcp != host.tcp)
  {
    seq(|read|, i requires 0 <= i < |read| =>
      read[i].ip != host.ip || read[i].udp != host.udp || read[i].tcp != host.tcp)
  }

  /** The descriptors of servers that have just been listed. */
  function Untried(n: nat): (r: seq<int>)
    ensures |r| == n && forall i :: 0 <= i < n ==> r[i] == FRESH
  {
    seq(n, _ => FRESH)
  }

  /** The entries that the parser has made are eligible unless they are the server itself; those
      in the list before keep their standing. */
  lemma EligibleAfterParsing(added: seq<Server>, read: seq<Listed>, before: seq<Server>, host: Server)
    requires Registry.Made(added, read)
    ensures |Registry.Reversed(read)| == |added|
    ensures EligibleOnes(added + before, host) ==
            OthersThan(host, Registry.Reversed(read)) + EligibleOnes(before, host)
    ensures Fds(added + before) == Untried(|added|) + Fds(before)
  {
    var listed := Registry.Reversed(read);
    assert Describe(added) == listed;
    forall i | 0 <= i < |added| ensures Eligible(added[i], host) <==> OthersThan(host, listed)[i] {
      assert listed[i] == Listed(added[i].name, added[i].ip, added[i].udp, added[i].tcp);
    }
  }

  lemma StillDistinct(added: seq<Server>, before: seq<Server>)
    requires NoRepeats(added) && NoRepeats(before) && forall s <- added :: s !in before
    ensures NoRepeats(added + before)
  {
    NoRepeatsMeans(added);
    NoRepeatsMeans(before);
    var all := added + before;
    forall i, j | 0 <= i < j < |all| ensures all[i] != all[j] {
      if i < |added| <= j { assert all[i] in added; }
    }
    NoRepeatsMeans(all);
  }

  lemma MadeDistinct(added: seq<Server>, read: seq<Listed>)
    requires Registry.Made(added, read)
    ensures NoRepeats(added) && Describe(added) == Registry.Reversed(read)
  {
  }

  lemma Front<T>(a: seq<T>, b: seq<T>)
    ensures (a + b)[..|a|] == a && (a + b)[|a|..] == b
  {
  }

  function Answers(attempt: nat -> Attempt, n: nat): (r: seq<Attempt>)
    ensures |r| == n && forall i :: 0 <= i < n ==> r[i] == attempt(i)
  {
    seq(n, i requires 0 <= i < n => attempt(i))
  }

  /** `handle_join`, given whether the registration and the request for the registry went through
      and what was replied. `attempt` answers the attempts at the servers of the list, in their
      order there, which is that of the reply turned round. Who is asked for its board follows
      from the reply and the answers alone. */
  method HandleJoin(list: List<Server>, host: Server, registered: bool, reply: Option<string>, attempt: nat -> Attempt)
    returns (err: nat, asked: seq<nat>, ghost stop: nat)
    requires list.Valid() && NoRepeats(list.Items())
    requires reply.Some? ==> Registry.Readable(Registry.Received(reply.value))
    modifies list, list.Items()
    ensures list.Valid() && NoRepeats(list.Items())
    ensures err == 1 <==> !registered
    ensures err == 2 <==>
      registered && (reply.None? || Tokens(Registry.Received(reply.value))[0] != Registry.HEADER)
    ensures err == 1 || err == 2 ==> list.Items() == old(list.Items()) && asked == []
    ensures err == 0 || err == 3 ==>
      var listed := Registry.Reversed(Registry.ReadLines(Registry.Body(Registry.Received(reply.value))));
      var eligible := OthersThan(host, listed) + old(EligibleOnes(list.Items(), host));
      var attempts := Answers(attempt, |eligible|);
      && |listed| <= |list.Items()| && list.Items()[|listed|..] == old(list.Items())
      && Describe(list.Items()[..|listed|]) == listed
      && stop <= |eligible| && err == (if stop == |eligible| then 0 else 3)
      && Walked(eligible, attempts, stop, asked)
      && Fds(list.Items()) ==
         FdsUpTo(eligible, attempts, Untried(|listed|) + old(Fds(list.Items())), stop)
    ensures err <= 3
  {
    hide *;
    asked, stop := [], 0;
    if !registered {
      return 1, asked, stop;
    }
    if reply.None? {
      return 2, asked, stop;
    }
    ghost var before := list.Items();
    ghost var eligibleBefore, fdsBefore := EligibleOnes(before, host), Fds(before);
    var code, added := Registry.ParseForServer(Registry.Received(reply.value), list);
    if code != 0 {
      return 2, asked, stop;
    }
    ghost var read := Registry.ReadLines(Registry.Body(Registry.Received(reply.value)));
    EligibleAfterParsing(added, read, before, host);
    MadeDistinct(added, read);
    StillDistinct(added, before);
    Front(added, before);
    list.Follow();
    var attempts := Answers(attempt, list.size);
    code, asked, stop := JoinToOldServers(list, host, attempts);
    err := if code == 0 then 0 else 3;
  }
}
