/** src/rmb/ban.c: the list of banned servers, whose `fd` field counts down. */
module Bans {
  import opened LinkedLists
  import opened Servers

  const SERVER_BAN_TIME := 5

  // ----- the ban list as a map -----

  type Counters = map<Identity, int>

  function Ban(m: Counters, id: Identity): Counters {
    if id !in m || m[id] < 0 then m[id := SERVER_BAN_TIME] else m
  }

  /** `is_banned` counts down before it looks. */
  function Ask(m: Counters, id: Identity): Counters {
    if id in m then m[id := m[id] - 1] else m
  }

  predicate Answer(m: Counters, id: Identity) {
    id in m && m[id] - 1 >= 0
  }

  datatype Op = BanOp(id: Identity) | AskOp(id: Identity)

  function Apply(m: Counters, op: Op): Counters {
    match op
    case BanOp(id) => Ban(m, id)
    case AskOp(id) => Ask(m, id)
  }

  function ApplyAll(m: Counters, ops: seq<Op>): Counters {
    if ops == [] then m else Apply(ApplyAll(m, ops[..|ops| - 1]), ops[|ops| - 1])
  }

  function Asks(ops: seq<Op>, id: Identity): nat {
    if ops == [] then 0 else Asks(ops[..|ops| - 1], id) + if ops[|ops| - 1] == AskOp(id) then 1 else 0
  }

  /** A server that is unlisted or expired when it is banned: in every later history of bans and
      queries of any servers, in which it is not banned again after its sixth query, exactly its
      first five queries answer true, whatever happens to other servers and however often it is
      banned again before it expires. */
  lemma {:induction false} BanLasts(m: Counters, id: Identity, ops: seq<Op>)
    requires id in m ==> m[id] < 0
    requires forall i :: 0 <= i < |ops| && ops[i] == BanOp(id) ==> Asks(ops[..i], id) <= 5
    ensures var later := ApplyAll(Ban(m, id), ops);
      && id in later && later[id] == 5 - Asks(ops, id)
      && (Answer(later, id) <==> Asks(ops, id) < 5)
    decreases |ops|
  {
    if ops == [] {
    } else {
      var front := ops[..|ops| - 1];
      assert forall i :: 0 <= i < |front| ==> ops[..i] == front[..i] && ops[i] == front[i];
      BanLasts(m, id, front);
      assert ops[|ops| - 1] == BanOp(id) ==> Asks(ops[..|ops| - 1], id) <= 5;
    }
  }

  /** A ban leaves the full time exactly if the server was unlisted, expired, or banned just
      before: banning again does not restore a time that is running out. */
  lemma BanRestores(m: Counters, id: Identity)
    ensures id in Ban(m, id)
    ensures Ban(m, id)[id] == 5 <==> id !in m || m[id] < 0 || m[id] == 5
  {
  }

  /** Banned, asked about once, and banned again: four queries are left, not five. */
  lemma NotRestored(m: Counters, id: Identity)
    requires id in m ==> m[id] < 0
    ensures Ban(Ask(Ban(m, id), id), id)[id] == 4
  {
  }

  /** Operations on other servers leave a server's counter alone. */
  lemma {:induction false} OthersUnaffected(m: Counters, id: Identity, ops: seq<Op>)
    requires forall i :: 0 <= i < |ops| ==> ops[i].id != id
    ensures id in ApplyAll(m, ops) <==> id in m
    ensures id in m ==> ApplyAll(m, ops)[id] == m[id]
    decreases |ops|
  {
    if ops == [] {
    } else {
      OthersUnaffected(m, id, ops[..|ops| - 1]);
    }
  }

  /** No counter ever exceeds the ban time. */
  ghost predicate Bounded(m: Counters) {
    forall id <- m :: m[id] <= SERVER_BAN_TIME
  }

  lemma {:induction false} AlwaysBounded(m: Counters, ops: seq<Op>)
    requires Bounded(m)
    ensures Bounded(ApplyAll(m, ops))
    decreases |ops|
  {
    if ops == [] {
    } else {
      AlwaysBounded(m, ops[..|ops| - 1]);
    }
  }

  // ----- the list that implements it -----

  /** The map that lists identities with their counters. */
  ghost function ToMap(ids: seq<Identity>, counts: seq<int>): (m: Counters)
    requires |ids| == |counts| && NoRepeats(ids)
    ensures forall id :: id in m <==> id in ids
    ensures forall i :: 0 <= i < |ids| ==> ids[i] in m && m[ids[i]] == counts[i]
  {
    if ids == [] then map[] else ToMap(ids[1..], counts[1..])[ids[0] := counts[0]]
  }

  lemma ToMapUpdate(ids: seq<Identity>, counts: seq<int>, i: nat, v: int)
    requires |ids| == |counts| && NoRepeats(ids) && i < |ids|
    ensures ToMap(ids, counts[i := v]) == ToMap(ids, counts)[ids[i] := v]
  {
    NoRepeatsMeans(ids);
    var a, b := ToMap(ids, counts[i := v]), ToMap(ids, counts)[ids[i] := v];
    forall id | id in ids ensures id in a && id in b && a[id] == b[id] {
      var k :| 0 <= k < |ids| && ids[k] == id;
      assert a[ids[k]] == counts[i := v][k];
      assert ToMap(ids, counts)[ids[k]] == counts[k];
    }
  }

  lemma ToMapPush(id: Identity, v: int, ids: seq<Identity>, counts: seq<int>)
    requires |ids| == |counts| && NoRepeats(ids) && id !in ids
    ensures NoRepeats([id] + ids)
    ensures ToMap([id] + ids, [v] + counts) == ToMap(ids, counts)[id := v]
  {
    assert ([id] + ids)[1..] == ids && ([v] + counts)[1..] == counts;
  }

  class BanList {
    const entries: List<Server>

    ghost predicate Valid()
      reads this, entries, entries.nodes
    {
      entries.Valid() && NoRepeats(Ids(entries.Items()))
    }

    ghost function Counters(): Counters
      requires Valid()
      reads this, entries, entries.nodes, entries.Items()
    {
      ToMap(Ids(entries.Items()), Fds(entries.Items()))
    }

    constructor ()
      ensures Valid() && fresh(entries) && entries.nodes == [] && Counters() == map[]
    {
      entries := new List<Server>();
    }

    /** The walk of `is_server_in_list`: the first entry with the identity, or NULL. */
    method IsServerInList(server: Server) returns (found: Server?, ghost i: nat)
      requires Valid()
      ensures found == null ==> server.Id() !in Ids(entries.Items())
      ensures found == null ==> forall k :: 0 <= k < |entries.Items()| ==>
        var s := entries.Items()[k]; s.ip != server.ip || s.udp != server.udp || s.tcp != server.tcp
      ensures found != null ==>
        i < |entries.Items()| && found == entries.Items()[i] && found.Id() == server.Id()
      ensures found != null ==> found.ip == server.ip && found.udp == server.udp && found.tcp == server.tcp
    {
      hide Ids;
      hide NoRepeats;
      entries.Follow();
      var aux := entries.head;
      i := 0;
      while aux != null
        invariant 0 <= i <= |entries.nodes| && aux == entries.NodeAt(i)
        invariant forall k :: 0 <= k < i ==> Ids(entries.Items())[k] != server.Id()
        decreases |entries.nodes| - i
      {
        if !DifferentServers(aux.item, server) {
          return aux.item, i;
        }
        aux := aux.next;
        i := i + 1;
      }
      found := null;
    }

    /** `set_ban_time` on the entry at `i`. */
    method SetBanTime(entry: Server, ghost i: nat, time: int)
      requires Valid() && i < |entries.Items()| && entry == entries.Items()[i]
      modifies entry`fd
      ensures Valid() && entries.nodes == old(entries.nodes) && entries.Items() == old(entries.Items())
      ensures Counters() == old(Counters())[entry.Id() := time] && entry.fd == time
    {
      hide *;
      Means();
      ghost var items := entries.Items();
      ghost var fds := Fds(items);
      ToMapUpdate(Ids(items), fds, i, time);
      DistinctObjects(items);
      entry.fd := time;
      FdsChanged(items, i, fds);
      Means();
    }

    method PushEntry(entry: Server)
      requires Valid() && entry.Id() !in Ids(entries.Items())
      modifies entries
      ensures Valid() && Counters() == old(Counters())[entry.Id() := entry.fd]
      ensures |entries.nodes| > 0 && fresh(entries.nodes[0])
      ensures entries.nodes[1..] == old(entries.nodes) && entries.Items() == [entry] + old(entries.Items())
    {
      hide List.Items;
      ghost var items, fds := entries.Items(), Fds(entries.Items());
      ToMapPush(entry.Id(), entry.fd, Ids(items), fds);
      entries.PushItem(entry);
      FirstFd(entry, items);
      assert Fds(items) == fds;
    }

    lemma Means()
      requires Valid()
      ensures entries.Valid() && NoRepeats(Ids(entries.Items()))
      ensures Counters() == ToMap(Ids(entries.Items()), Fds(entries.Items()))
    {
    }

    /** Whether an identity is listed can be read off the map. */
    lemma Listed(id: Identity)
      requires Valid()
      ensures id in Counters() <==> id in Ids(entries.Items())
    {
    }

    lemma CounterAt(i: nat)
      requires Valid() && i < |entries.Items()|
      ensures entries.Items()[i].Id() in Counters() && Counters()[entries.Items()[i].Id()] == entries.Items()[i].fd
    {
      assert Ids(entries.Items())[i] == entries.Items()[i].Id() && Fds(entries.Items())[i] == entries.Items()[i].fd;
    }

    /** An unlisted server is entered, an expired entry renewed, a running ban left alone. */
    method BanServer(server: Server)
      requires Valid()
      modifies entries, entries.Items()
      ensures Valid() && Counters() == Ban(old(Counters()), server.Id())
      ensures (entries.nodes == old(entries.nodes) && entries.Items() == old(entries.Items())) ||
        (|entries.nodes| > 0 && fresh(entries.nodes[0]) && entries.nodes[1..] == old(entries.nodes) &&
         |entries.Items()| > 0 && fresh(entries.Items()[0]) && entries.Items()[1..] == old(entries.Items()))
    {
      hide *;
      Means();
      ghost var m := Counters();
      BanMeans(m, server.Id());
      var mem := new Server(server.name, server.ip, server.udp, server.tcp);
      mem.fd := SERVER_BAN_TIME;
      assert mem.Id() == server.Id() by { SameFields(mem, server); }
      Listed(mem.Id());
      var found, i := IsServerInList(mem);
      assert Counters() == m;
      if found == null {
        PushEntry(mem);
      } else {
        CounterAt(i);
        if 0 > found.fd {
          SetBanTime(found, i, SERVER_BAN_TIME);
        }
      }
      assert Counters() == Ban(m, server.Id());
    }

    /** Counting down is part of the question. */
    method IsBanned(server: Server) returns (banned: bool)
      requires Valid()
      modifies entries.Items()
      ensures Valid() && entries.nodes == old(entries.nodes) && entries.Items() == old(entries.Items())
      ensures Counters() == Ask(old(Counters()), server.Id())
      ensures banned <==> Answer(old(Counters()), server.Id())
    {
      hide *;
      Means();
      Listed(server.Id());
      AskMeans(Counters(), server.Id());
      var found, i := IsServerInList(server);
      if found == null {
        return false;
      }
      CounterAt(i);
      SetBanTime(found, i, found.fd - 1);
      banned := found.fd >= 0;
    }
  }

  lemma SameFields(a: Server, b: Server)
    requires a.ip == b.ip && a.udp == b.udp && a.tcp == b.tcp
    ensures a.Id() == b.Id()
  {
  }

  lemma BanMeans(m: Counters, id: Identity)
    ensures Ban(m, id) == if id !in m || m[id] < 0 then m[id := SERVER_BAN_TIME] else m
  {
  }

  lemma AskMeans(m: Counters, id: Identity)
    ensures Ask(m, id) == if id in m then m[id := m[id] - 1] else m
    ensures Answer(m, id) <==> id in m && m[id] - 1 >= 0
  {
  }

  lemma FirstFd(entry: Server, items: seq<Server>)
    ensures Ids([entry] + items) == [entry.Id()] + Ids(items)
    ensures Fds([entry] + items) == [entry.fd] + Fds(items)
  {
  }

  lemma DistinctObjects(items: seq<Server>)
    requires NoRepeats(Ids(items))
    ensures forall i, j :: 0 <= i < |items| && 0 <= j < |items| && i != j ==> items[i] != items[j]
  {
    NoRepeatsMeans(Ids(items));
    forall i, j | 0 <= i < j < |items| ensures items[i] != items[j] {
      assert Ids(items)[i] != Ids(items)[j];
    }
  }
}
