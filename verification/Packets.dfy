/** What servers send each other, and what a server does with a batch of it. Generic in what a
    message carries, like boards. */
module Packets {
  import opened CText
  import opened Boards

  /** A request for the whole board, one published message, or a board handed over. */
  datatype Packet<+T> = Request | Share(entry: Stamped<T>) | History(entries: seq<Stamped<T>>)

  function Contents<T>(p: Packet<T>): seq<Stamped<T>> {
    match p
    case Request => []
    case Share(entry) => [entry]
    case History(entries) => entries
  }

  function AllContents<T(==)>(ps: seq<Packet<T>>): seq<Stamped<T>> {
    if ps == [] then [] else Join(Contents(ps[0]), AllContents(ps[1..]))
  }

  /** The entries a server stores: those whose content it accepts. */
  function Accepted<T>(accepts: T -> bool, entries: seq<Stamped<T>>): (r: seq<Stamped<T>>)
    ensures |r| <= |entries|
  {
    if entries == [] then []
    else if accepts(entries[0].body) then [entries[0]] + Accepted(accepts, entries[1..])
    else Accepted(accepts, entries[1..])
  }

  lemma {:induction false} AcceptedJoin<T>(accepts: T -> bool, a: seq<Stamped<T>>, b: seq<Stamped<T>>)
    ensures Accepted(accepts, Join(a, b)) == Join(Accepted(accepts, a), Accepted(accepts, b))
    decreases |a|
  {
    if a == [] {
    } else {
      var whole := a + b;
      assert whole[0] == a[0];
      assert whole[1..] == Join(a[1..], b);
      AcceptedJoin(accepts, a[1..], b);
      if accepts(a[0].body) {
        JoinAssoc([a[0]], Accepted(accepts, a[1..]), Accepted(accepts, b));
      }
    }
  }

  lemma {:induction false} AcceptedAll<T>(accepts: T -> bool, entries: seq<Stamped<T>>)
    requires forall i :: 0 <= i < |entries| ==> accepts(entries[i].body)
    ensures Accepted(accepts, entries) == entries
    decreases |entries|
  {
    if entries == [] {
    } else {
      AcceptedAll(accepts, entries[1..]);
    }
  }

  lemma {:induction false} AcceptedFrom<T>(accepts: T -> bool, entries: seq<Stamped<T>>, i: nat) returns (k: nat)
    requires i < |Accepted(accepts, entries)|
    ensures k < |entries| && entries[k] == Accepted(accepts, entries)[i]
    decreases |entries|
  {
    if accepts(entries[0].body) && i == 0 {
      k := 0;
    } else {
      k := AcceptedFrom(accepts, entries[1..], if accepts(entries[0].body) then i - 1 else i);
      k := k + 1;
    }
  }

  /** Everything is accepted exactly if nothing gets lost. */
  lemma {:induction false} AcceptedWhole<T>(accepts: T -> bool, entries: seq<Stamped<T>>)
    ensures Accepted(accepts, entries) == entries <==> forall i :: 0 <= i < |entries| ==> accepts(entries[i].body)
    decreases |entries|
  {
    if entries == [] {
    } else {
      AcceptedWhole(accepts, entries[1..]);
      if accepts(entries[0].body) {
        assert entries == [entries[0]] + entries[1..];
        if Accepted(accepts, entries) == entries {
          assert Accepted(accepts, entries)[1..] == Accepted(accepts, entries[1..]);
        }
        assert forall i :: 0 < i < |entries| ==> entries[i] == entries[1..][i - 1];
      } else {
        assert |Accepted(accepts, entries)| < |entries|;
      }
    }
  }

  lemma {:induction false} AcceptedAscending<T>(accepts: T -> bool, entries: seq<Stamped<T>>)
    requires Ascending(entries)
    ensures Ascending(Accepted(accepts, entries))
    decreases |entries|
  {
    if entries == [] {
    } else {
      AcceptedAscending(accepts, entries[1..]);
      var rest := Accepted(accepts, entries[1..]);
      forall j | 0 <= j < |rest| ensures entries[0].clock < rest[j].clock {
        var k := AcceptedFrom(accepts, entries[1..], j);
        assert entries[1..][k] == entries[k + 1];
      }
    }
  }

  /** With increasing clocks, the last accepted entry has the last clock exactly if it is the
      last entry. */
  lemma AcceptedLast<T>(accepts: T -> bool, entries: seq<Stamped<T>>)
    requires Ascending(entries) && entries != []
    ensures var kept, last := Accepted(accepts, entries), entries[|entries| - 1];
      (kept != [] && kept[|kept| - 1].clock == last.clock) <==> accepts(last.body)
    ensures var kept, last := Accepted(accepts, entries), entries[|entries| - 1];
      kept != [] ==> kept[|kept| - 1].clock <= last.clock
  {
    var front, last := entries[..|entries| - 1], entries[|entries| - 1];
    assert entries == Join(front, [last]);
    AcceptedJoin(accepts, front, [last]);
    assert [last][1..] == [];
    var kept := Accepted(accepts, front);
    if kept != [] {
      var k := AcceptedFrom(accepts, front, |kept| - 1);
    }
    JoinEmpty(kept);
  }

  /** The receiving side of one batch: its board, whether a record header has been seen, and the
      boards it has handed over in reply. */
  datatype Intake<+T> = Intake(board: Board<T>, inRecords: bool, replies: seq<seq<Stamped<T>>>)

  /** A packet's effect. Once a record header has been seen in a batch, every later line of the
      batch is read as a record, so a request behind it gets no answer. */
  function Handle<T>(accepts: T -> bool, capacity: nat, t: Intake<T>, p: Packet<T>): Intake<T> {
    if p.Request? then
      if t.inRecords then t
      else t.(replies := t.replies + [LastN(t.board.history, capacity)])
    else t.(board := ReceiveAll(t.board, Accepted(accepts, Contents(p))), inRecords := true)
  }

  function HandleAll<T>(accepts: T -> bool, capacity: nat, t: Intake<T>, ps: seq<Packet<T>>): Intake<T>
    decreases |ps|
  {
    if ps == [] then t else HandleAll(accepts, capacity, Handle(accepts, capacity, t, ps[0]), ps[1..])
  }

  /** The number of requests in front of the first records. */
  function LeadingRequests<T>(ps: seq<Packet<T>>): nat
    decreases |ps|
  {
    if ps == [] || !ps[0].Request? then 0 else 1 + LeadingRequests(ps[1..])
  }

  /** A whole batch in closed form: everything accepted is received in order, and only the
      leading requests are answered, each with the board as it stood before the batch. */
  lemma {:induction false} BatchEffect<T>(accepts: T -> bool, capacity: nat, t: Intake<T>, ps: seq<Packet<T>>)
    ensures var r := HandleAll(accepts, capacity, t, ps);
      && r.board == ReceiveAll(t.board, Accepted(accepts, AllContents(ps)))
      && r.inRecords == (t.inRecords || LeadingRequests(ps) < |ps|)
      && r.replies == t.replies + seq(if t.inRecords then 0 else LeadingRequests(ps),
                                      _ => LastN(t.board.history, capacity))
    decreases |ps|
  {
    if ps == [] {
    } else {
      var next := Handle(accepts, capacity, t, ps[0]);
      BatchEffect(accepts, capacity, next, ps[1..]);
      AcceptedJoin(accepts, Contents(ps[0]), AllContents(ps[1..]));
      ReceiveAllJoin(t.board, Accepted(accepts, Contents(ps[0])), Accepted(accepts, AllContents(ps[1..])));
    }
  }

  // ----- forgetting part of what messages carry -----

  function MapEntries<A, B>(f: A -> B, entries: seq<Stamped<A>>): (r: seq<Stamped<B>>)
    ensures |r| == |entries|
    ensures forall i :: 0 <= i < |entries| ==> r[i] == Stamped(entries[i].clock, f(entries[i].body))
  {
    seq(|entries|, i requires 0 <= i < |entries| => Stamped(entries[i].clock, f(entries[i].body)))
  }

  function MapBoard<A, B>(f: A -> B, b: Board<A>): Board<B> {
    Board(MapEntries(f, b.history), b.clock)
  }

  function MapPacket<A, B>(f: A -> B, p: Packet<A>): Packet<B> {
    match p
    case Request => Request
    case Share(entry) => Share(Stamped(entry.clock, f(entry.body)))
    case History(entries) => History(MapEntries(f, entries))
  }

  function MapPackets<A, B>(f: A -> B, ps: seq<Packet<A>>): (r: seq<Packet<B>>)
    ensures |r| == |ps|
    ensures forall i :: 0 <= i < |ps| ==> r[i] == MapPacket(f, ps[i])
  {
    seq(|ps|, i requires 0 <= i < |ps| => MapPacket(f, ps[i]))
  }

  function MapIntake<A, B>(f: A -> B, t: Intake<A>): (r: Intake<B>)
    ensures |r.replies| == |t.replies|
  {
    Intake(MapBoard(f, t.board), t.inRecords,
           seq(|t.replies|, i requires 0 <= i < |t.replies| => MapEntries(f, t.replies[i])))
  }

  lemma {:induction false} MapReceiveAll<A, B>(f: A -> B, b: Board<A>, entries: seq<Stamped<A>>)
    ensures MapBoard(f, ReceiveAll(b, entries)) == ReceiveAll(MapBoard(f, b), MapEntries(f, entries))
    decreases |entries|
  {
    if entries == [] {
    } else {
      var next := Receive(b, entries[0]);
      MapReceiveAll(f, next, entries[1..]);
      assert MapEntries(f, next.history) ==
             MapEntries(f, b.history) + [Stamped(next.clock - 1, f(entries[0].body))];
      assert MapEntries(f, entries)[1..] == MapEntries(f, entries[1..]);
    }
  }

  lemma {:induction false} MapAccepted<A, B>(f: A -> B, acceptsA: A -> bool, acceptsB: B -> bool,
                                             entries: seq<Stamped<A>>)
    requires forall i :: 0 <= i < |entries| ==> acceptsB(f(entries[i].body)) == acceptsA(entries[i].body)
    ensures MapEntries(f, Accepted(acceptsA, entries)) == Accepted(acceptsB, MapEntries(f, entries))
    decreases |entries|
  {
    if entries == [] {
    } else {
      MapAccepted(f, acceptsA, acceptsB, entries[1..]);
      assert MapEntries(f, entries)[1..] == MapEntries(f, entries[1..]);
    }
  }

  lemma MapContents<A, B>(f: A -> B, p: Packet<A>)
    ensures Contents(MapPacket(f, p)) == MapEntries(f, Contents(p))
  {
  }

  /** Handling a batch commutes with forgetting. */
  lemma {:induction false} MapHandleAll<A, B>(f: A -> B, acceptsA: A -> bool, acceptsB: B -> bool,
                                              capacity: nat, t: Intake<A>, ps: seq<Packet<A>>)
    requires forall a: A :: acceptsB(f(a)) == acceptsA(a)
    ensures MapIntake(f, HandleAll(acceptsA, capacity, t, ps)) ==
            HandleAll(acceptsB, capacity, MapIntake(f, t), MapPackets(f, ps))
    decreases |ps|
  {
    if ps == [] {
    } else {
      var next := Handle(acceptsA, capacity, t, ps[0]);
      MapHandleAll(f, acceptsA, acceptsB, capacity, next, ps[1..]);
      assert MapPackets(f, ps)[1..] == MapPackets(f, ps[1..]);
      MapContents(f, ps[0]);
      MapAccepted(f, acceptsA, acceptsB, Contents(ps[0]));
      MapReceiveAll(f, t.board, Accepted(acceptsA, Contents(ps[0])));
      if ps[0].Request? && !t.inRecords {
        var shown := LastN(t.board.history, capacity);
        assert MapEntries(f, shown) == LastN(MapEntries(f, t.board.history), capacity);
        assert MapIntake(f, next).replies == MapIntake(f, t).replies + [MapEntries(f, shown)];
      }
      assert MapIntake(f, next) == Handle(acceptsB, capacity, MapIntake(f, t), MapPacket(f, ps[0]));
    }
  }
}
