/** How the client chooses a server: the block of src/rmb/main.c, lines 133-187, on values. */
module Failover {
  import opened CText
  import opened Servers
  import opened Bans

  function RemoveFirst(ids: seq<Identity>, id: Identity): (r: seq<Identity>)
    ensures |r| == if id in ids then |ids| - 1 else |ids|
  {
    if ids == [] then []
    else if ids[0] == id then ids[1..]
    else [ids[0]] + RemoveFirst(ids[1..], id)
  }

  function Times(ids: seq<Identity>, id: Identity): nat {
    if ids == [] then 0 else (if ids[0] == id then 1 else 0) + Times(ids[1..], id)
  }

  lemma {:induction false} TimesPositive(ids: seq<Identity>, id: Identity)
    ensures Times(ids, id) > 0 <==> id in ids
  {
    if ids == [] {
    } else {
      TimesPositive(ids[1..], id);
    }
  }

  lemma {:induction false} TimesRemoved(ids: seq<Identity>, id: Identity, x: Identity)
    ensures Times(RemoveFirst(ids, id), x) == Times(ids, x) - if x == id && id in ids then 1 else 0
  {
    if ids != [] && ids[0] != id {
      TimesRemoved(ids[1..], id, x);
      var rest := RemoveFirst(ids[1..], id);
      assert ([ids[0]] + rest)[1..] == rest;
    }
  }

  /** The outcome of the inner loop: the servers and counters left, the server chosen, and how
      often `rand` has been called. */
  datatype Found = Found(servers: seq<Identity>, bans: Counters, sel: Option<Identity>, calls: nat)

  /** Lines 153-161: pick at random; drop the pick and try again while it is banned. */
  function Search(servers: seq<Identity>, bans: Counters, rand: nat -> nat, calls: nat): Found
    decreases |servers|
  {
    if servers == [] then Found([], bans, None, calls)
    else
      var id := servers[rand(calls) % |servers|];
      if Answer(bans, id) then Search(RemoveFirst(servers, id), Ask(bans, id), rand, calls + 1)
      else Found(servers, Ask(bans, id), Some(id), calls + 1)
  }

  /** Safety. Whatever the picks: either nothing is chosen and the list is empty, or a member of
      the list that is not listed as banned or has expired. */
  lemma {:induction false} SearchChooses(servers: seq<Identity>, bans: Counters, rand: nat -> nat, calls: nat)
    ensures var f := Search(servers, bans, rand, calls);
      && |f.servers| <= |servers|
      && (f.sel == None <==> f.servers == [])
      && (f.sel.Some? ==> f.sel.value in f.servers && (f.sel.value in f.bans ==> f.bans[f.sel.value] < 0))
    decreases |servers|
  {
    if servers == [] {
    } else {
      var id := servers[rand(calls) % |servers|];
      if Answer(bans, id) {
        SearchChooses(RemoveFirst(servers, id), Ask(bans, id), rand, calls + 1);
      }
    }
  }

  /** Every query is accounted for: a server's counter went down once for each copy of it that
      was dropped, and once more if it was chosen; only a server with a running ban was dropped. */
  lemma {:induction false} SearchAccounts(servers: seq<Identity>, bans: Counters, rand: nat -> nat, calls: nat,
                                          x: Identity)
    ensures var f := Search(servers, bans, rand, calls);
      && Times(f.servers, x) <= Times(servers, x)
      && (x in f.bans <==> x in bans)
      && (x in bans ==>
            bans[x] - f.bans[x] == Times(servers, x) - Times(f.servers, x) + if f.sel == Some(x) then 1 else 0)
      && (Times(f.servers, x) < Times(servers, x) ==> x in bans && bans[x] >= 1)
    decreases |servers|
  {
    if servers == [] {
    } else {
      var id := servers[rand(calls) % |servers|];
      if Answer(bans, id) {
        TimesRemoved(servers, id, x);
        SearchAccounts(RemoveFirst(servers, id), Ask(bans, id), rand, calls + 1, x);
      }
    }
  }

  /** Every server of the list is banned for at least as many queries as it has entries. */
  ghost predicate Covered(servers: seq<Identity>, bans: Counters) {
    forall x :: Times(servers, x) > 0 ==> x in bans && bans[x] >= Times(servers, x)
  }

  lemma CoveredStep(servers: seq<Identity>, bans: Counters, id: Identity)
    requires id in servers
    ensures Covered(servers, bans) <==> Answer(bans, id) && Covered(RemoveFirst(servers, id), Ask(bans, id))
  {
    hide Times;
    hide RemoveFirst;
    var rest, left := RemoveFirst(servers, id), Ask(bans, id);
    TimesPositive(servers, id);
    forall x ensures Times(rest, x) == Times(servers, x) - if x == id then 1 else 0 {
      TimesRemoved(servers, id, x);
    }
    if Covered(servers, bans) {
      assert bans[id] >= Times(servers, id);
      forall x | Times(rest, x) > 0 ensures x in left && left[x] >= Times(rest, x) {
        assert Times(servers, x) > 0;
      }
    }
    if Answer(bans, id) && Covered(rest, left) {
      forall x | Times(servers, x) > 0 ensures x in bans && bans[x] >= Times(servers, x) {
        if Times(rest, x) > 0 { assert left[x] >= Times(rest, x); }
      }
    }
  }

  /** A list is run through without a choice exactly if it is covered, whatever the picks. */
  lemma {:induction false} ExhaustedIff(servers: seq<Identity>, bans: Counters, rand: nat -> nat, calls: nat)
    ensures Search(servers, bans, rand, calls).sel == None <==> Covered(servers, bans)
    decreases |servers|
  {
    if servers == [] {
    } else {
      var id := servers[rand(calls) % |servers|];
      CoveredStep(servers, bans, id);
      if Answer(bans, id) {
        ExhaustedIff(RemoveFirst(servers, id), Ask(bans, id), rand, calls + 1);
      }
    }
  }

  // ----- a server is found -----

  /** What running through a list costs each counter. */
  lemma Exhausted(servers: seq<Identity>, bans: Counters, rand: nat -> nat, calls: nat, x: Identity)
    requires Search(servers, bans, rand, calls).sel == None
    ensures var f := Search(servers, bans, rand, calls);
      && f.servers == []
      && (x in f.bans <==> x in bans)
      && (x in bans ==> f.bans[x] == bans[x] - Times(servers, x))
      && (x in servers ==> x in bans && Times(servers, x) >= 1 && f.bans[x] >= 0)
  {
    SearchChooses(servers, bans, rand, calls);
    SearchAccounts(servers, bans, rand, calls, x);
    ExhaustedIff(servers, bans, rand, calls);
    TimesPositive(servers, x);
  }

  /** How many copies of a list that the identity server keeps returning are run through before
      a server is chosen. */
  function Rounds(servers: seq<Identity>, bans: Counters, rand: nat -> nat, calls: nat): nat
    requires servers != []
    decreases if servers[0] in bans && bans[servers[0]] > 0 then bans[servers[0]] else 0
  {
    var f := Search(servers, bans, rand, calls);
    if f.sel.Some? then 0
    else
      Exhausted(servers, bans, rand, calls, servers[0]);
      1 + Rounds(servers, f.bans, rand, f.calls)
  }

  /** Every server's counter covers `k` times its number of entries. */
  ghost predicate CoveredTimes(servers: seq<Identity>, bans: Counters, k: nat) {
    forall x :: Times(servers, x) > 0 ==> x in bans && bans[x] >= k * Times(servers, x)
  }

  lemma CoveredTimesStep(servers: seq<Identity>, bans: Counters, left: Counters, k: nat)
    requires k > 0
    requires forall x :: Times(servers, x) > 0 ==> x in bans && x in left && left[x] == bans[x] - Times(servers, x)
    ensures CoveredTimes(servers, left, k - 1) <==> CoveredTimes(servers, bans, k)
  {
    hide Times;
    forall x | Times(servers, x) > 0
      ensures left[x] >= (k - 1) * Times(servers, x) <==> bans[x] >= k * Times(servers, x)
    {
      assert k * Times(servers, x) == (k - 1) * Times(servers, x) + Times(servers, x);
    }
    if CoveredTimes(servers, left, k - 1) {
      forall x | Times(servers, x) > 0 ensures bans[x] >= k * Times(servers, x) {
        assert left[x] >= (k - 1) * Times(servers, x);
      }
    }
    if CoveredTimes(servers, bans, k) {
      forall x | Times(servers, x) > 0 ensures left[x] >= (k - 1) * Times(servers, x) {
        assert bans[x] >= k * Times(servers, x);
      }
    }
  }

  lemma CoveredOften(servers: seq<Identity>, bans: Counters, k: nat)
    requires k > 0 && CoveredTimes(servers, bans, k)
    ensures Covered(servers, bans)
  {
    hide Times;
    forall x | Times(servers, x) > 0 ensures x in bans && bans[x] >= Times(servers, x) {
      assert bans[x] >= k * Times(servers, x);
      assert k * Times(servers, x) >= Times(servers, x);
    }
  }

  /** The first `k` copies of the list are all run through exactly if every counter covers `k`
      times the server's number of entries: the picks do not matter, and duplicate entries
      shorten the wait. */
  lemma {:induction false} RoundsExact(servers: seq<Identity>, bans: Counters, rand: nat -> nat, calls: nat, k: nat)
    requires servers != []
    ensures Rounds(servers, bans, rand, calls) >= k <==> k == 0 || CoveredTimes(servers, bans, k)
    decreases k
  {
    hide Search;
    hide CoveredTimes;
    hide Covered;
    hide Times;
    if k == 0 {
    } else {
      var f := Search(servers, bans, rand, calls);
      ExhaustedIff(servers, bans, rand, calls);
      if f.sel == None {
        RoundsExact(servers, f.bans, rand, f.calls, k - 1);
        forall x | Times(servers, x) > 0
          ensures x in bans && x in f.bans && f.bans[x] == bans[x] - Times(servers, x)
        {
          TimesPositive(servers, x);
          Exhausted(servers, bans, rand, calls, x);
        }
        CoveredTimesStep(servers, bans, f.bans, k);
        CoveredZero(servers, f.bans) by {
          forall x | Times(servers, x) > 0 ensures x in f.bans && f.bans[x] >= 0 {
            TimesPositive(servers, x);
            Exhausted(servers, bans, rand, calls, x);
          }
        }
      } else if CoveredTimes(servers, bans, k) {
        CoveredOften(servers, bans, k);
        assert false;
      }
    }
  }

  lemma CoveredZero(servers: seq<Identity>, bans: Counters)
    requires forall x :: Times(servers, x) > 0 ==> x in bans && bans[x] >= 0
    ensures CoveredTimes(servers, bans, 0)
  {
  }

  /** Liveness: no counter exceeds the ban time, so at most five lists are run through. */
  lemma AtMostFiveRounds(servers: seq<Identity>, bans: Counters, rand: nat -> nat, calls: nat)
    requires servers != [] && Bounded(bans)
    ensures Rounds(servers, bans, rand, calls) <= SERVER_BAN_TIME
  {
    RoundsExact(servers, bans, rand, calls, SERVER_BAN_TIME + 1);
    var x := servers[0];
    TimesPositive(servers, x);
    assert (SERVER_BAN_TIME + 1) * Times(servers, x) > SERVER_BAN_TIME;
  }

  // ----- the whole block -----

  /** The client's state: `silent` is `server_not_answering`; `calls` and `fetched` count the calls
      of `rand` and the lists fetched so far. */
  datatype Client = Client(servers: seq<Identity>, bans: Counters, sel: Option<Identity>, err: bool, silent: bool,
                           calls: nat, fetched: nat)

  /** The block is entered. */
  predicate Searching(c: Client) { c.sel == None || c.err || c.silent }

  /** One run through the block; `registry` is the list that the identity server returns, if it
      is asked. */
  function Pass(c: Client, rand: nat -> nat, registry: seq<Identity>): Client {
    var silent := c.err || c.silent;
    var drop := silent && c.sel.Some?;
    var bans := if drop then Ban(c.bans, c.sel.value) else c.bans;
    var servers := if drop then RemoveFirst(c.servers, c.sel.value) else c.servers;
    var f := Search(servers, bans, rand, c.calls);
    if f.sel.Some? then Client(f.servers, f.bans, f.sel, c.err, false, f.calls, c.fetched)
    else Client(registry, f.bans, None, false, false, f.calls, c.fetched + 1)
  }

  /** What holds whenever the block is reached: without a selected server there is no error to
      react to, so `rem_awol_server` never gets NULL, and a selected server is on the list. */
  ghost predicate Sane(c: Client) {
    && (c.sel == None ==> !c.err && !c.silent)
    && (c.sel.Some? ==> c.sel.value in c.servers)
    && Bounded(c.bans)
  }

  lemma PassKeepsSane(c: Client, rand: nat -> nat, registry: seq<Identity>)
    requires Sane(c)
    ensures var c' := Pass(c, rand, registry);
      && Sane(c')
      && (c'.sel.Some? ==> (c'.sel.value in c'.bans ==> c'.bans[c'.sel.value] < 0))
      && (c'.sel == None ==> c'.servers == registry && !c'.err)
      && c'.fetched == c.fetched + if c'.sel == None then 1 else 0
  {
    var drop := (c.err || c.silent) && c.sel.Some?;
    var bans := if drop then Ban(c.bans, c.sel.value) else c.bans;
    var servers := if drop then RemoveFirst(c.servers, c.sel.value) else c.servers;
    SearchChooses(servers, bans, rand, c.calls);
    var f := Search(servers, bans, rand, c.calls);
    forall id | id in f.bans ensures f.bans[id] <= SERVER_BAN_TIME {
      SearchAccounts(servers, bans, rand, c.calls, id);
    }
  }

  /** How often a server was dropped from the list in a run through the block, and chosen at its
      end: what it was queried for. */
  function Queried(c: Client, c': Client, y: Identity): int {
    (if c'.sel == None then Times(c.servers, y) else Times(c.servers, y) - Times(c'.servers, y))
    - (if (c.silent || c.err) && c.sel == Some(y) then 1 else 0)
    + (if c'.sel == Some(y) then 1 else 0)
  }

  /** Every server's counter after a run through the block: a selected server that did not answer
      is banned for five queries, unless its ban was still running; no other server is; and each
      query costs one. */
  lemma PassAccounts(c: Client, rand: nat -> nat, registry: seq<Identity>, y: Identity)
    requires Sane(c)
    ensures var c' := Pass(c, rand, registry);
      var silent := (c.silent || c.err) && c.sel == Some(y);
      && (y in c'.bans <==> y in c.bans || silent)
      && (y in c'.bans ==>
            c'.bans[y] == (if silent && (y !in c.bans || c.bans[y] < 0) then 5 else c.bans[y]) - Queried(c, c', y))
  {
    var drop := (c.err || c.silent) && c.sel.Some?;
    var bans := if drop then Ban(c.bans, c.sel.value) else c.bans;
    var servers := if drop then RemoveFirst(c.servers, c.sel.value) else c.servers;
    SearchChooses(servers, bans, rand, c.calls);
    SearchAccounts(servers, bans, rand, c.calls, y);
    if drop { TimesRemoved(c.servers, c.sel.value, y); }
  }

  /** A selected server that did not answer is banned after a run through the block, and if it was
      not, or no longer, banned before, for at least five queries less one for each further entry
      of it in the list. */
  lemma SilentIsBanned(c: Client, rand: nat -> nat, registry: seq<Identity>)
    requires Sane(c) && c.sel.Some? && (c.silent || c.err)
    ensures var x, c' := c.sel.value, Pass(c, rand, registry);
      x in c'.bans && (x !in c.bans || c.bans[x] < 0 ==> c'.bans[x] >= 5 - (Times(c.servers, x) - 1))
  {
    var x, c' := c.sel.value, Pass(c, rand, registry);
    PassAccounts(c, rand, registry, x);
    PassKeepsSane(c, rand, registry);
    if c'.sel == Some(x) { TimesPositive(c'.servers, x); }
  }

  /** Without a further entry in the list, it is not what the run finds. */
  lemma SilentNotFound(c: Client, rand: nat -> nat, registry: seq<Identity>)
    requires Sane(c) && c.sel.Some? && (c.silent || c.err) && Times(c.servers, c.sel.value) == 1
    ensures Pass(c, rand, registry).sel != c.sel
  {
    var x := c.sel.value;
    var servers, bans := RemoveFirst(c.servers, x), Ban(c.bans, x);
    TimesRemoved(c.servers, x, x);
    TimesPositive(c.servers, x);
    SearchChooses(servers, bans, rand, c.calls);
    SearchAccounts(servers, bans, rand, c.calls, x);
    TimesPositive(Search(servers, bans, rand, c.calls).servers, x);
  }

  /** With an error pending, a pass either fetches a new list and clears the error, or has
      dropped at least one server; so the error is cleared after at most as many passes as there
      are servers, even though finding a server does not clear it. */
  function PassesUntilFetch(c: Client, rand: nat -> nat, registry: seq<Identity>): (passes: nat)
    requires c.err && c.sel.Some? && c.sel.value in c.servers
    ensures 1 <= passes <= |c.servers|
    decreases |c.servers|
  {
    var c' := Pass(c, rand, registry);
    SearchChooses(RemoveFirst(c.servers, c.sel.value), Ban(c.bans, c.sel.value), rand, c.calls);
    if c'.sel == None then 1 else 1 + PassesUntilFetch(c', rand, registry)
  }

  /** A server that is found is kept exactly if no error was pending. */
  lemma FoundIsKept(c: Client, rand: nat -> nat, registry: seq<Identity>)
    requires Pass(c, rand, registry).sel.Some?
    ensures !Searching(Pass(c, rand, registry)) <==> !c.err
  {
  }

  /** The client at the fetch that clears a pending error. */
  function AtFetch(c: Client, rand: nat -> nat, registry: seq<Identity>): (r: Client)
    requires c.err && c.sel.Some? && c.sel.value in c.servers
    ensures r.sel == None && r.servers == registry && !r.err
    decreases |c.servers|
  {
    var c' := Pass(c, rand, registry);
    SearchChooses(RemoveFirst(c.servers, c.sel.value), Ban(c.bans, c.sel.value), rand, c.calls);
    if c'.sel == None then c' else AtFetch(c', rand, registry)
  }

  /** What is dropped from the list and not chosen leaves with its ban running. */
  lemma {:induction false} DroppedIsBanned(servers: seq<Identity>, bans: Counters, rand: nat -> nat, calls: nat,
                                           x: Identity)
    requires x in servers || (x in bans && bans[x] >= 0)
    ensures var f := Search(servers, bans, rand, calls);
      x in f.servers || (x in f.bans && f.bans[x] >= 0)
    decreases |servers|
  {
    if servers == [] {
    } else {
      var id := servers[rand(calls) % |servers|];
      if Answer(bans, id) {
        RemovedOne(servers, id, x);
        DroppedIsBanned(RemoveFirst(servers, id), Ask(bans, id), rand, calls + 1, x);
      }
    }
  }

  lemma RemovedOne(servers: seq<Identity>, id: Identity, x: Identity)
    ensures x in servers && x != id ==> x in RemoveFirst(servers, id)
  {
    TimesRemoved(servers, id, x);
    TimesPositive(servers, x);
    TimesPositive(RemoveFirst(servers, id), x);
  }

  /** An error that is pending gets every server of the list banned, whether or not it answers,
      before a new list is fetched. */
  lemma {:induction false} ErrorBansAll(c: Client, rand: nat -> nat, registry: seq<Identity>, x: Identity)
    requires c.err && c.sel.Some? && c.sel.value in c.servers
    requires x in c.servers || (x in c.bans && c.bans[x] >= 0)
    ensures var r := AtFetch(c, rand, registry); x in r.bans && r.bans[x] >= 0
    decreases |c.servers|
  {
    var id := c.sel.value;
    var servers, bans := RemoveFirst(c.servers, id), Ban(c.bans, id);
    RemovedOne(c.servers, id, x);
    SearchChooses(servers, bans, rand, c.calls);
    DroppedIsBanned(servers, bans, rand, c.calls, x);
    var c' := Pass(c, rand, registry);
    if c'.sel == None {
    } else {
      ErrorBansAll(c', rand, registry, x);
    }
  }

  // ----- what the counters are worth -----

  function Positive(m: Counters, id: Identity): nat {
    if id in m && m[id] > 0 then m[id] else 0
  }

  ghost function SumOver(ids: set<Identity>, m: Counters): nat {
    if ids == {} then 0
    else
      var id :| id in ids;
      Positive(m, id) + SumOver(ids - {id}, m)
  }

  /** The queries that all bans together still answer with true. */
  ghost function Total(m: Counters): nat { SumOver(m.Keys, m) }

  lemma {:induction false} SumWithout(ids: set<Identity>, m: Counters, id: Identity)
    requires id in ids
    ensures SumOver(ids, m) == Positive(m, id) + SumOver(ids - {id}, m)
  {
    var x :| x in ids && SumOver(ids, m) == Positive(m, x) + SumOver(ids - {x}, m);
    if x != id {
      SumWithout(ids - {x}, m, id);
      SumWithout(ids - {id}, m, x);
      assert ids - {x} - {id} == ids - {id} - {x};
    }
  }

  lemma {:induction false} SumSame(ids: set<Identity>, m: Counters, m': Counters)
    requires forall id <- ids :: Positive(m, id) == Positive(m', id)
    ensures SumOver(ids, m) == SumOver(ids, m')
  {
    if ids == {} {
    } else {
      var id :| id in ids;
      SumWithout(ids, m, id);
      SumWithout(ids, m', id);
      SumSame(ids - {id}, m, m');
    }
  }

  /** A query that is answered with true uses up one, any other none. */
  lemma TotalAsk(m: Counters, id: Identity)
    ensures Total(Ask(m, id)) + (if Answer(m, id) then 1 else 0) == Total(m)
  {
    if id in m {
      assert Ask(m, id).Keys == m.Keys;
      SumWithout(m.Keys, m, id);
      SumWithout(m.Keys, Ask(m, id), id);
      SumSame(m.Keys - {id}, m, Ask(m, id));
    }
  }

  lemma {:induction false} SumBounded(ids: set<Identity>, m: Counters)
    requires Bounded(m)
    ensures SumOver(ids, m) <= SERVER_BAN_TIME * |ids|
  {
    if ids == {} {
    } else {
      var id :| id in ids;
      SumWithout(ids, m, id);
      SumBounded(ids - {id}, m);
    }
  }

  lemma TotalBounded(m: Counters)
    requires Bounded(m)
    ensures Total(m) <= SERVER_BAN_TIME * |m|
  {
    SumBounded(m.Keys, m);
  }

  /** A search uses up as much as it drops servers. */
  lemma {:induction false} SearchUses(servers: seq<Identity>, bans: Counters, rand: nat -> nat, calls: nat)
    ensures var f := Search(servers, bans, rand, calls);
      |f.servers| <= |servers| && Total(f.bans) + (|servers| - |f.servers|) == Total(bans)
    decreases |servers|
  {
    hide Total;
    if servers == [] {
    } else {
      var id := servers[rand(calls) % |servers|];
      TotalAsk(bans, id);
      if Answer(bans, id) {
        SearchUses(RemoveFirst(servers, id), Ask(bans, id), rand, calls + 1);
      }
    }
  }

  // ----- the loop around the block -----

  /** The lists that the identity server returns, one fetch after the other. */
  ghost predicate NeverEmpty(registry: nat -> seq<Identity>) {
    forall i :: registry(i) != []
  }

  /** Runs of the block while it is entered: as long as the identity server returns non-empty
      lists, whichever they are, it ends, with a selected server and nothing pending. */
  ghost function Choose(c: Client, rand: nat -> nat, registry: nat -> seq<Identity>): (r: Client)
    requires Sane(c) && NeverEmpty(registry)
    ensures Sane(r) && !Searching(r)
    decreases c.err, c.sel.Some? || c.servers == [], if c.err then |c.servers| else Total(c.bans)
  {
    if !Searching(c) then c
    else
      var c' := Pass(c, rand, registry(c.fetched));
      PassKeepsSane(c, rand, registry(c.fetched));
      PassShrinks(c, rand, registry(c.fetched));
      if !Searching(c') then c' else Choose(c', rand, registry)
  }

  lemma PassShrinks(c: Client, rand: nat -> nat, registry: seq<Identity>)
    requires Sane(c) && Searching(c) && registry != []
    ensures var c' := Pass(c, rand, registry);
      if c.err then !c'.err || (c'.sel.Some? && |c'.servers| < |c.servers|)
      else
        && !c'.err
        && (Searching(c') ==> c'.sel == None && c'.servers != [])
        && (Searching(c') && c.sel == None ==> Total(c'.bans) + |c.servers| == Total(c.bans))
  {
    hide Total;
    if c.err {
      SearchChooses(RemoveFirst(c.servers, c.sel.value), Ban(c.bans, c.sel.value), rand, c.calls);
    } else if c.sel == None {
      SearchUses(c.servers, c.bans, rand, c.calls);
      SearchChooses(c.servers, c.bans, rand, c.calls);
    }
  }

  /** Lists are only ever fetched in addition. */
  lemma {:induction false} ChooseFetches(c: Client, rand: nat -> nat, registry: nat -> seq<Identity>)
    requires Sane(c) && NeverEmpty(registry)
    ensures c.fetched <= Choose(c, rand, registry).fetched
    decreases c.err, c.sel.Some? || c.servers == [], if c.err then |c.servers| else Total(c.bans)
  {
    if Searching(c) {
      PassKeepsSane(c, rand, registry(c.fetched));
      PassShrinks(c, rand, registry(c.fetched));
      var c' := Pass(c, rand, registry(c.fetched));
      if Searching(c') { ChooseFetches(c', rand, registry); }
    }
  }

  /** With an error pending, a list is fetched. */
  lemma {:induction false} ErrorFetches(c: Client, rand: nat -> nat, registry: nat -> seq<Identity>)
    requires Sane(c) && c.err && NeverEmpty(registry)
    ensures c.fetched < Choose(c, rand, registry).fetched
    decreases |c.servers|
  {
    PassKeepsSane(c, rand, registry(c.fetched));
    PassShrinks(c, rand, registry(c.fetched));
    var c' := Pass(c, rand, registry(c.fetched));
    if c'.sel == None {
      ChooseFetches(c', rand, registry);
    } else {
      ErrorFetches(c', rand, registry);
    }
  }

  /** A server that did not answer, and has no further entry in the list, is not chosen from that
      list again. */
  lemma SilentNotChosen(c: Client, rand: nat -> nat, registry: nat -> seq<Identity>)
    requires Sane(c) && c.sel.Some? && (c.silent || c.err) && Times(c.servers, c.sel.value) == 1
    requires NeverEmpty(registry)
    ensures Choose(c, rand, registry).fetched == c.fetched ==> Choose(c, rand, registry).sel != c.sel
  {
    SilentNotFound(c, rand, registry(c.fetched));
    if c.err {
      ErrorFetches(c, rand, registry);
    } else {
      PassKeepsSane(c, rand, registry(c.fetched));
      PassShrinks(c, rand, registry(c.fetched));
      var c' := Pass(c, rand, registry(c.fetched));
      if Searching(c') { ChooseFetches(c', rand, registry); }
    }
  }

  // ----- how long a choice takes -----

  /** How many fetched lists are run through, the current one first, before a server is chosen. */
  ghost function Lists(c: Client, rand: nat -> nat, registry: nat -> seq<Identity>): nat
    requires Sane(c) && c.sel == None && c.servers != [] && NeverEmpty(registry)
    decreases Total(c.bans)
  {
    var c' := Pass(c, rand, registry(c.fetched));
    PassKeepsSane(c, rand, registry(c.fetched));
    PassShrinks(c, rand, registry(c.fetched));
    if !Searching(c') then 0 else 1 + Lists(c', rand, registry)
  }

  lemma ListsStep(c: Client, rand: nat -> nat, registry: nat -> seq<Identity>)
    requires Sane(c) && c.sel == None && c.servers != [] && NeverEmpty(registry)
    ensures var c' := Pass(c, rand, registry(c.fetched));
      && Sane(c')
      && if Searching(c') then
           && c'.sel == None && c'.servers == registry(c.fetched) && c'.servers != []
           && Total(c'.bans) + |c.servers| == Total(c.bans)
           && Lists(c, rand, registry) == 1 + Lists(c', rand, registry)
         else Lists(c, rand, registry) == 0
  {
    PassKeepsSane(c, rand, registry(c.fetched));
    PassShrinks(c, rand, registry(c.fetched));
  }

  /** Liveness, whatever the lists: no more of them are run through than the bans together can
      still answer queries with true. */
  lemma {:induction false} ListsBounded(c: Client, rand: nat -> nat, registry: nat -> seq<Identity>)
    requires Sane(c) && c.sel == None && c.servers != [] && NeverEmpty(registry)
    ensures Lists(c, rand, registry) <= Total(c.bans)
    decreases Total(c.bans)
  {
    hide Lists;
    hide Total;
    hide Pass;
    ListsStep(c, rand, registry);
    var c' := Pass(c, rand, registry(c.fetched));
    if Searching(c') {
      ListsBounded(c', rand, registry);
    }
  }

  /** With the same list at every fetch, there are exactly as many as were counted above. */
  lemma {:induction false} ListsOfOne(c: Client, rand: nat -> nat, registry: nat -> seq<Identity>)
    requires Sane(c) && c.sel == None && c.servers != [] && forall i :: registry(i) == c.servers
    ensures Lists(c, rand, registry) == Rounds(c.servers, c.bans, rand, c.calls)
    decreases Total(c.bans)
  {
    hide Lists;
    hide Total;
    ListsStep(c, rand, registry);
    var c' := Pass(c, rand, registry(c.fetched));
    if Searching(c') {
      ListsOfOne(c', rand, registry);
    }
  }

  /** Runs through the block, and lists fetched in them. */
  datatype Effort = Effort(passes: nat, fetches: nat)

  ghost function Spent(c: Client, rand: nat -> nat, registry: nat -> seq<Identity>): Effort
    requires Sane(c) && NeverEmpty(registry)
    decreases c.err, c.sel.Some? || c.servers == [], if c.err then |c.servers| else Total(c.bans)
  {
    if !Searching(c) then Effort(0, 0)
    else
      var c' := Pass(c, rand, registry(c.fetched));
      PassKeepsSane(c, rand, registry(c.fetched));
      PassShrinks(c, rand, registry(c.fetched));
      if !Searching(c') then Effort(1, 0)
      else
        var rest := Spent(c', rand, registry);
        Effort(1 + rest.passes, rest.fetches + if c'.sel == None then 1 else 0)
  }

  lemma SpentStep(c: Client, rand: nat -> nat, registry: nat -> seq<Identity>)
    requires Sane(c) && Searching(c) && NeverEmpty(registry)
    ensures var c' := Pass(c, rand, registry(c.fetched));
      Sane(c') && Spent(c, rand, registry) == Effort(1 + Spent(c', rand, registry).passes,
        Spent(c', rand, registry).fetches + if c'.sel == None then 1 else 0)
  {
    PassKeepsSane(c, rand, registry(c.fetched));
  }

  /** From a fetched list: one run for each list that is run through, and one that finds. */
  lemma {:induction false} SpentAfterFetch(c: Client, rand: nat -> nat, registry: nat -> seq<Identity>)
    requires Sane(c) && c.sel == None && c.servers != [] && NeverEmpty(registry)
    ensures var lists := Lists(c, rand, registry); Spent(c, rand, registry) == Effort(lists + 1, lists)
    decreases Total(c.bans)
  {
    hide Spent;
    hide Lists;
    hide Total;
    hide Pass;
    ListsStep(c, rand, registry);
    SpentStep(c, rand, registry);
    var c' := Pass(c, rand, registry(c.fetched));
    if Searching(c') {
      SpentAfterFetch(c', rand, registry);
    } else {
      SpentWhenDone(c', rand, registry);
    }
  }

  lemma SpentWhenDone(c: Client, rand: nat -> nat, registry: nat -> seq<Identity>)
    requires Sane(c) && !Searching(c) && NeverEmpty(registry)
    ensures Spent(c, rand, registry) == Effort(0, 0)
  {
  }

  /** One run with an error pending. */
  lemma ErrorStep(c: Client, rand: nat -> nat, registry: seq<Identity>)
    requires Sane(c) && c.err && c.sel.Some?
    ensures var c' := Pass(c, rand, registry);
      && Sane(c')
      && if c'.sel == None then
           AtFetch(c, rand, registry) == c' && PassesUntilFetch(c, rand, registry) == 1
         else
           && c'.err && c'.sel.value in c'.servers && |c'.servers| < |c.servers| && c'.fetched == c.fetched
           && AtFetch(c, rand, registry) == AtFetch(c', rand, registry)
           && PassesUntilFetch(c, rand, registry) == 1 + PassesUntilFetch(c', rand, registry)
  {
    PassKeepsSane(c, rand, registry);
    SearchChooses(RemoveFirst(c.servers, c.sel.value), Ban(c.bans, c.sel.value), rand, c.calls);
  }

  /** With an error pending: the runs until the fetch, and those after it. */
  lemma {:induction false} SpentWithError(c: Client, rand: nat -> nat, registry: nat -> seq<Identity>)
    requires Sane(c) && c.err && c.sel.Some? && NeverEmpty(registry)
    ensures var list := registry(c.fetched);
      var r := AtFetch(c, rand, list);
      && Sane(r)
      && Spent(c, rand, registry) == Effort(PassesUntilFetch(c, rand, list) + Spent(r, rand, registry).passes,
                                            1 + Spent(r, rand, registry).fetches)
    decreases |c.servers|
  {
    hide Spent;
    hide Pass;
    hide AtFetch;
    hide PassesUntilFetch;
    SpentStep(c, rand, registry);
    ErrorStep(c, rand, registry(c.fetched));
    var c' := Pass(c, rand, registry(c.fetched));
    if c'.sel == None {
    } else {
      SpentWithError(c', rand, registry);
    }
  }

  /** The client when it goes on without an error: at the fetch that clears it, or after one run. */
  ghost function Cleared(c: Client, rand: nat -> nat, registry: nat -> seq<Identity>): Client
    requires Sane(c) && Searching(c)
  {
    if c.err then AtFetch(c, rand, registry(c.fetched)) else Pass(c, rand, registry(c.fetched))
  }

  /** What a choice costs, from any state of the client and with any lists: the runs until no
      error is pending, at most as many as the list has entries (one if it has none); then, if no
      server is found by then, one run for each list that is run through and one that finds. */
  lemma ChoiceCosts(c: Client, rand: nat -> nat, registry: nat -> seq<Identity>)
    requires Sane(c) && Searching(c) && NeverEmpty(registry)
    ensures var r := Cleared(c, rand, registry);
      var until := if c.err then PassesUntilFetch(c, rand, registry(c.fetched)) else 1;
      && until <= (if c.servers == [] then 1 else |c.servers|)
      && Sane(r)
      && if r.sel == None then
           && r.servers != [] && Lists(r, rand, registry) <= Total(r.bans) <= SERVER_BAN_TIME * |r.bans|
           && Spent(c, rand, registry) ==
              Effort(until + Lists(r, rand, registry) + 1, 1 + Lists(r, rand, registry))
         else Spent(c, rand, registry) == Effort(1, 0)
  {
    hide Spent;
    hide Lists;
    hide Total;
    hide Rounds;
    var list := registry(c.fetched);
    var r := Cleared(c, rand, registry);
    if c.err {
      SpentWithError(c, rand, registry);
    } else {
      SpentStep(c, rand, registry);
      PassKeepsSane(c, rand, list);
    }
    if r.sel == None {
      SpentAfterFetch(r, rand, registry);
      ListsBounded(r, rand, registry);
      TotalBounded(r.bans);
    } else {
      SpentWhenDone(r, rand, registry);
    }
  }

  /** With the same list at every fetch: at most six lists are fetched, and the block is run
      through at most six times more than the list has entries. */
  lemma ChoiceIsQuick(c: Client, rand: nat -> nat, list: seq<Identity>)
    requires Sane(c) && list != []
    ensures var spent := Spent(c, rand, (_: nat) => list);
      && spent.fetches <= SERVER_BAN_TIME + 1
      && spent.passes <= SERVER_BAN_TIME + 1 + if |c.servers| == 0 then 1 else |c.servers|
  {
    hide Spent;
    hide Lists;
    hide Total;
    hide Rounds;
    var registry := (_: nat) => list;
    if !Searching(c) {
      SpentWhenDone(c, rand, registry);
    } else {
      ChoiceCosts(c, rand, registry);
      var r := Cleared(c, rand, registry);
      if r.sel == None {
        PassKeepsSane(c, rand, list);
        ListsOfOne(r, rand, registry);
        AtMostFiveRounds(list, r.bans, rand, r.calls);
      }
    }
  }
}
