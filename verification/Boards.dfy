/** The abstract state of one message server: the unbounded history of which its ring shows
    the end, and the next unused logical clock (`g_lc`). Generic in what a message carries,
    so that the server class uses it on texts and the replication protocol on posts with an
    identity. */
module Boards {
  import opened CText

  datatype Stamped<+T> = Stamped(clock: nat, body: T)

  datatype Board<+T> = Board(history: seq<Stamped<T>>, clock: nat)

  const EMPTY_BOARD: Board<string> := Board([], 0)

  /** `new_message` followed by `add_element`: stamp with `g_lc`, then count it up. */
  function Append<T>(b: Board<T>, body: T): Board<T> {
    Board(b.history + [Stamped(b.clock, body)], b.clock + 1)
  }

  /** The clock rule of `parse_message`: raise `g_lc` to the incoming clock, then append. */
  function Receive<T>(b: Board<T>, incoming: Stamped<T>): Board<T> {
    Append(b.(clock := if incoming.clock > b.clock then incoming.clock else b.clock), incoming.body)
  }

  /** The clock that a received message should get: one more than the greater of the last own
      clock and the incoming one. */
  function OneAboveBoth<T>(b: Board<T>, incoming: Stamped<T>): int {
    var last := b.clock - 1;
    1 + if last < incoming.clock then incoming.clock else last
  }

  /** It gets that clock, and one above the incoming clock, exactly if its incoming clock has been
      passed already. */
  lemma ReceivedAboveBoth<T>(b: Board<T>, incoming: Stamped<T>)
    ensures var stored := Receive(b, incoming).history[|b.history|].clock;
      (stored == OneAboveBoth(b, incoming) <==> incoming.clock < b.clock)
      && (incoming.clock < stored <==> incoming.clock < b.clock)
  {
  }

  /** The first message that reaches an empty server keeps its clock. */
  lemma FirstKeepsClock(m: Stamped<string>)
    ensures Receive(EMPTY_BOARD, m).history == [m] && OneAboveBoth(EMPTY_BOARD, m) == m.clock + 1
  {
    assert [] + [m] == [m];
  }

  function ReceiveAll<T>(b: Board<T>, entries: seq<Stamped<T>>): (r: Board<T>)
    ensures |r.history| == |b.history| + |entries|
    ensures r.history[..|b.history|] == b.history
    decreases |entries|
  {
    if entries == [] then b
    else
      var next := Receive(b, entries[0]);
      var r := ReceiveAll(next, entries[1..]);
      assert r.history[..|b.history|] == r.history[..|next.history|][..|b.history|];
      r
  }

  ghost predicate Ascending<T>(entries: seq<Stamped<T>>) {
    forall i, j :: 0 <= i < j < |entries| ==> entries[i].clock < entries[j].clock
  }

  /** Stored clocks increase strictly, and `g_lc` is one above the last of them. */
  ghost predicate WellClocked<T>(b: Board<T>) {
    && Ascending(b.history)
    && b.clock == (if b.history == [] then 0 else b.history[|b.history| - 1].clock + 1)
  }

  lemma AppendKeepsClocks<T>(b: Board<T>, body: T)
    requires Ascending(b.history)
    requires b.history == [] || b.history[|b.history| - 1].clock < b.clock
    ensures WellClocked(Append(b, body))
  {
    var h := Append(b, body).history;
    forall i, j | 0 <= i < j < |h| ensures h[i].clock < h[j].clock {
      if j == |b.history| && i < |b.history| - 1 {
        assert b.history[i].clock < b.history[|b.history| - 1].clock;
      }
    }
  }

  lemma {:induction false} ReceiveAllGrows<T>(b: Board<T>, entries: seq<Stamped<T>>)
    ensures b.clock + |entries| <= ReceiveAll(b, entries).clock
    decreases |entries|
  {
    if entries == [] {
    } else {
      ReceiveAllGrows(Receive(b, entries[0]), entries[1..]);
    }
  }

  /** Whatever clocks arrive, in whatever order, the board stays well clocked. */
  lemma {:induction false} ReceiveAllClocks<T>(b: Board<T>, entries: seq<Stamped<T>>)
    requires WellClocked(b)
    ensures WellClocked(ReceiveAll(b, entries))
    decreases |entries|
  {
    if entries == [] {
    } else {
      AppendKeepsClocks(b.(clock := if entries[0].clock > b.clock then entries[0].clock else b.clock),
                        entries[0].body);
      ReceiveAllClocks(Receive(b, entries[0]), entries[1..]);
    }
  }

  lemma ReceivedFirst<T>(b: Board<T>, entries: seq<Stamped<T>>)
    requires entries != []
    ensures var next := Receive(b, entries[0]);
      ReceiveAll(b, entries).history[|b.history|] == next.history[|b.history|]
  {
    var next := Receive(b, entries[0]);
    assert ReceiveAll(next, entries[1..]).history[..|next.history|][|b.history|] == next.history[|b.history|];
  }

  /** Every copy is stored in its turn, at no less than the clock it came with, and the next
      unused clock ends above it. */
  lemma {:induction false} ReceivedCopy<T>(b: Board<T>, entries: seq<Stamped<T>>, i: nat)
    requires i < |entries|
    ensures var r := ReceiveAll(b, entries);
      && entries[i].clock < r.clock
      && r.history[|b.history| + i].body == entries[i].body
      && entries[i].clock <= r.history[|b.history| + i].clock
    decreases |entries|
  {
    var next := Receive(b, entries[0]);
    if i == 0 {
      ReceivedFirst(b, entries);
      ReceiveAllGrows(next, entries[1..]);
    } else {
      ReceivedCopy(next, entries[1..], i - 1);
    }
  }

  lemma MoveFirst<T>(a: seq<T>, b: seq<T>)
    requires b != []
    ensures a + b == a + [b[0]] + b[1..]
  {
  }

  /** Clocks that already increase and start at or above `g_lc` are stored unchanged. */
  lemma {:induction false} ReceiveAllAscending<T>(b: Board<T>, entries: seq<Stamped<T>>)
    requires Ascending(entries)
    requires entries != [] ==> b.clock <= entries[0].clock
    ensures ReceiveAll(b, entries).history == b.history + entries
    ensures ReceiveAll(b, entries).clock ==
            if entries == [] then b.clock else entries[|entries| - 1].clock + 1
    decreases |entries|
  {
    if entries == [] {
    } else {
      var next := Receive(b, entries[0]);
      assert next.history == b.history + [entries[0]] && next.clock == entries[0].clock + 1;
      if |entries| > 1 { assert entries[0].clock < entries[1].clock; }
      ReceiveAllAscending(next, entries[1..]);
      MoveFirst(b.history, entries);
    }
  }

  lemma ReceiveAllOnEmpty(entries: seq<Stamped<string>>)
    requires Ascending(entries)
    ensures ReceiveAll(EMPTY_BOARD, entries).history == entries
    ensures ReceiveAll(EMPTY_BOARD, entries).clock == if entries == [] then 0 else entries[|entries| - 1].clock + 1
  {
    ReceiveAllAscending(EMPTY_BOARD, entries);
  }

  lemma {:induction false} ReceiveAllJoin<T>(b: Board<T>, first: seq<Stamped<T>>, second: seq<Stamped<T>>)
    ensures ReceiveAll(b, Join(first, second)) == ReceiveAll(ReceiveAll(b, first), second)
    decreases |first|
  {
    if first == [] {
    } else {
      var whole := first + second;
      assert whole[0] == first[0];
      assert whole[1..] == Join(first[1..], second);
      ReceiveAllJoin(Receive(b, first[0]), first[1..], second);
    }
  }
}
