/** From packets to boards, through text, chunks, lines and records. */
module Delivery {
  import opened CText
  import opened Boards
  import opened Packets
  import opened Lines
  import opened Messages
  import opened Wire
  import opened Reassembly

  /** Text that can follow other text on a link: whole lines of moderate length, without NUL. */
  ghost predicate Sound(s: string) {
    && '\0' !in s
    && Rest("", s) == ""
    && LinesShort(Scan("", s))
  }

  lemma SoundLine(line: string, rest: string)
    requires '\n' !in line && '\0' !in line && |line| < ANALYZE_SIZE - 1 && Sound(rest)
    ensures Sound(line + "\n" + rest)
  {
    ScanLine(line, rest);
  }

  lemma {:induction false} SoundListing(ms: seq<Message>, rest: string)
    requires AllCarriable(ms) && Sound(rest)
    ensures Sound(Listing(WithClock, ms) + rest)
    decreases |ms|
  {
    hide Scan;
    hide Rest;
    hide LinesShort;
    if ms == [] {
      assert Listing(WithClock, ms) + rest == rest;
    } else {
      var line, tail := Line(WithClock, ms[0]), Listing(WithClock, ms[1..]) + rest;
      CarriableLine(ms[0]);
      RecordLength(WithClock, ms[0]);
      SoundListing(ms[1..], rest);
      SoundLine(line, tail);
      assert Listing(WithClock, ms) + rest == line + "\n" + tail;
    }
  }

  lemma SoundPacket(p: Packet<string>, rest: string)
    requires AllCarriable(Contents(p)) && Sound(rest)
    ensures Sound(Encode(p) + rest)
  {
    hide Scan;
    hide Rest;
    hide Listing;
    hide LinesShort;
    match p
    case Request =>
      PlainCodes();
      SoundLine(SGET_CODE, rest);
    case Share(m) =>
      PlainCodes();
      SharedRecord(m);
      SoundListing([m], rest);
      SoundLine(SMESSAGE_CODE, Listing(WithClock, [m]) + rest);
      assert Encode(p) + rest == SMESSAGE_CODE + "\n" + (Listing(WithClock, [m]) + rest);
    case History(ms) =>
      PlainCodes();
      SoundLine("", rest);
      assert "" + "\n" + rest == "\n" + rest;
      SoundListing(ms, "\n" + rest);
      SoundLine(SMESSAGE_CODE, Listing(WithClock, ms) + ("\n" + rest));
      assert Encode(p) + rest == SMESSAGE_CODE + "\n" + (Listing(WithClock, ms) + ("\n" + rest));
  }

  lemma PlainCodes()
    ensures '\n' !in SGET_CODE && '\0' !in SGET_CODE && '\n' !in SMESSAGE_CODE && '\0' !in SMESSAGE_CODE
  {
    assert forall i :: 0 <= i < |SGET_CODE| ==> 'A' <= SGET_CODE[i];
    assert forall i :: 0 <= i < |SMESSAGE_CODE| ==> 'A' <= SMESSAGE_CODE[i];
  }

  ghost predicate AllPacketsCarriable(ps: seq<Packet<string>>) {
    forall i :: 0 <= i < |ps| ==> AllCarriable(Contents(ps[i]))
  }

  lemma {:induction false} SoundPackets(ps: seq<Packet<string>>)
    requires AllPacketsCarriable(ps)
    ensures Sound(EncodeAll(ps))
    decreases |ps|
  {
    if ps == [] {
    } else {
      SoundPackets(ps[1..]);
      SoundPacket(ps[0], EncodeAll(ps[1..]));
    }
  }

  lemma {:induction false} ChunkInStream(chunks: seq<Chunk>, i: nat)
    requires i < |chunks| && '\0' !in Stream(chunks)
    ensures '\0' !in chunks[i]
    decreases |chunks|
  {
    var first: string, tail := chunks[0], Stream(chunks[1..]);
    assert Stream(chunks) == first + tail;
    assert forall k :: 0 <= k < |first| ==> (first + tail)[k] == first[k];
    assert forall k :: 0 <= k < |tail| ==> (first + tail)[|first| + k] == tail[k];
    if i == 0 {
    } else {
      ChunkInStream(chunks[1..], i - 1);
    }
  }

  /** A batch of packets arrives as it was sent, however the byte stream is cut at harmless
      places: the line handler leaves the board and gives the replies the packets call for. */
  lemma BatchDelivered(capacity: nat, t: Intake<string>, ps: seq<Packet<string>>, chunks: seq<Chunk>)
    requires AllPacketsCarriable(ps)
    requires Stream(chunks) == EncodeAll(ps) && Harmless(false, chunks)
    ensures OnLines(capacity, t, Feed("", chunks)) == HandleAll(NonEmpty, capacity, t, ps)
  {
    SoundPackets(ps);
    forall i | 0 <= i < |chunks| ensures '\0' !in chunks[i] { ChunkInStream(chunks, i); }
    ChunkingTheorem(chunks);
    WireRoundTrip(capacity, t, ps);
  }

  // ----- handing a board over -----

  lemma LastNOfLastN<T>(s: seq<T>, a: nat, b: nat)
    ensures LastN(LastN(s, a), b) == LastN(s, Min(a, b))
  {
  }

  lemma WindowKeepsOrder<T>(h: seq<Stamped<T>>, n: nat)
    requires Ascending(h)
    ensures Ascending(LastN(h, n))
  {
  }

  /** What an empty server makes of a window of a well-clocked one. */
  lemma WindowReceived(sender: Board<string>, n: nat)
    requires WellClocked(sender) && 0 < n
    ensures var window := LastN(sender.history, n);
      var received := ReceiveAll(EMPTY_BOARD, Accepted(NonEmpty, window));
      && received.history == Accepted(NonEmpty, window)
      && WellClocked(received)
      && (received.clock == sender.clock <==> window == [] || NonEmpty(window[|window| - 1].body))
  {
    hide ReceiveAll;
    hide Accepted;
    var window := LastN(sender.history, n);
    var kept := Accepted(NonEmpty, window);
    WindowKeepsOrder(sender.history, n);
    AcceptedAscending(NonEmpty, window);
    ReceiveAllOnEmpty(kept);
    if window != [] {
      AcceptedLast(NonEmpty, window);
      assert window[|window| - 1] == sender.history[|sender.history| - 1];
    }
  }

  /** State transfer is exact. An empty server receives the board text of a well-clocked server,
      sent whole and cut at harmless places. It stores exactly the non-empty messages that the
      sender's ring showed, with their clocks and in their order: the whole window if and only if
      no text in it is empty. Its next unused clock is the sender's if and only if the sender's
      newest text is not empty. */
  lemma StateTransferExact(sender: Board<string>, senderCapacity: nat, capacity: nat, chunks: seq<Chunk>)
    requires WellClocked(sender) && 0 < senderCapacity
    requires var window := LastN(sender.history, senderCapacity);
      && AllCarriable(window) && SentWhole(window, senderCapacity)
      && Stream(chunks) == BoardText(window, senderCapacity)
    requires Harmless(false, chunks)
    ensures var window := LastN(sender.history, senderCapacity);
      var received := OnLines(capacity, Intake(EMPTY_BOARD, false, []), Feed("", chunks)).board;
      && received.history == Accepted(NonEmpty, window)
      && WellClocked(received)
      && (received.history == window <==> forall i :: 0 <= i < |window| ==> NonEmpty(window[i].body))
      && (received.clock == sender.clock <==> window == [] || NonEmpty(window[|window| - 1].body))
      && (received.history == window ==>
            LastN(received.history, capacity) == LastN(sender.history, Min(senderCapacity, capacity)))
  {
    var window := LastN(sender.history, senderCapacity);
    hide *;
    assert AllCarriable(window);
    WindowTransferred(window, senderCapacity, capacity, chunks);
    WindowReceived(sender, senderCapacity);
    AcceptedWhole(NonEmpty, window);
    LastNOfLastN(sender.history, senderCapacity, capacity);
  }

  lemma WindowTransferred(window: seq<Message>, senderCapacity: nat, capacity: nat, chunks: seq<Chunk>)
    requires 0 < senderCapacity && AllCarriable(window) && SentWhole(window, senderCapacity)
    requires Stream(chunks) == BoardText(window, senderCapacity) && Harmless(false, chunks)
    ensures OnLines(capacity, Intake(EMPTY_BOARD, false, []), Feed("", chunks)).board ==
            ReceiveAll(EMPTY_BOARD, Accepted(NonEmpty, window))
  {
    hide Feed;
    hide OnLines;
    hide Listing;
    hide BoardText;
    hide Stream;
    hide ReceiveAll;
    hide Accepted;
    BoardTextExact(window, senderCapacity);
    OnePacket(History(window));
    BatchDelivered(capacity, Intake(EMPTY_BOARD, false, []), [History(window)], chunks);
  }

  lemma OnePacket(p: Packet<string>)
    ensures EncodeAll([p]) == Encode(p)
    ensures forall capacity: nat, t: Intake<string> ::
      HandleAll(NonEmpty, capacity, t, [p]) == Handle(NonEmpty, capacity, t, p)
  {
    assert [p][1..] == [];
  }
}
