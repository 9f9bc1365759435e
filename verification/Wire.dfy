/** The text formats between servers: src/msgserv/message.c, lines 3-75, 156-176 and 247-261. */
module Wire {
  import opened CText
  import opened Boards
  import opened Packets
  import opened Messages
  import opened Lines

  const SMESSAGE_CODE := "SMESSAGES"
  const SGET_CODE := "SGET_MESSAGES"

  /** The text `share_last_message` sends. */
  function ShareText(m: Message): string {
    Snprintf(2 * STRING_SIZE, SMESSAGE_CODE + "\n" + Record(WithClock, m))
  }

  /** The text `handle_sget_messages` sends when its ring shows `window`. */
  function BoardText(window: seq<Message>, capacity: nat): string {
    Snprintf(STRING_SIZE * (capacity + 1),
             SMESSAGE_CODE + "\n" + Render(WithClock, capacity, window) + "\n")
  }

  /** `parse_message`: clock, semicolon, then a non-empty text of at most 140 characters. The
      clock passes through `atoi` into an unsigned 64-bit variable. */
  function ParseRecord(line: string): Option<Message> {
    var field := TakeUntil(line, ';');
    if field == "" || |field| == |line| then None
    else
      var text := Clip(TEXT_LIMIT, TakeUntil(line[|field| + 1..], '\n'));
      if text == "" then None else Some(Stamped((Atoi(field) % U64) as nat, text))
  }

  predicate NonEmpty(text: string) { text != "" }

  /** One pass through the line handler of `server_treat_communications`. */
  function OnLine(capacity: nat, t: Intake<string>, line: string): Intake<string> {
    if t.inRecords then
      match ParseRecord(line)
      case None => t
      case Some(m) => t.(board := Receive(t.board, m))
    else if line == SGET_CODE then t.(replies := t.replies + [LastN(t.board.history, capacity)])
    else if line == SMESSAGE_CODE then t.(inRecords := true)
    else t
  }

  function OnLines(capacity: nat, t: Intake<string>, lines: seq<string>): Intake<string>
    decreases |lines|
  {
    if lines == [] then t else OnLines(capacity, OnLine(capacity, t, lines[0]), lines[1..])
  }

  // ----- packets as text -----

  function Encode(p: Packet<string>): string {
    match p
    case Request => SGET_CODE + "\n"
    case Share(m) => SMESSAGE_CODE + "\n" + Record(WithClock, m)
    case History(ms) => SMESSAGE_CODE + "\n" + Listing(WithClock, ms) + "\n"
  }

  function EncodeAll(ps: seq<Packet<string>>): string {
    if ps == [] then "" else Encode(ps[0]) + EncodeAll(ps[1..])
  }

  /** Texts that fit on a line, as a published datagram yields them, with a clock that fits the
      five-character field of `parse_message`. The text may be empty or contain semicolons. */
  ghost predicate Carriable(m: Message) {
    |m.body| <= TEXT_LIMIT && '\n' !in m.body && '\0' !in m.body && m.clock < 100000
  }

  ghost predicate AllCarriable(ms: seq<Message>) {
    forall i :: 0 <= i < |ms| ==> Carriable(ms[i])
  }

  /** A line is cut at its first semicolon, wherever others stand in the text. */
  lemma RecordSplits(field: string, text: string)
    requires ';' !in field && '\n' !in text
    ensures var line := field + ";" + text;
      && TakeUntil(line, ';') == field
      && TakeUntil(line[|field| + 1..], '\n') == text
  {
    var line := field + ";" + text;
    assert line == field + (";" + text);
    TakeUntilStops(field, ";" + text, ';');
    assert line[|field| + 1..] == text == text + "";
    TakeUntilStops(text, "", '\n');
  }

  lemma CarriableLine(m: Message)
    requires Carriable(m)
    ensures Line(WithClock, m) == Digits(m.clock) + ";" + m.body
    ensures Line(WithClock, m) != ""
    ensures '\n' !in Line(WithClock, m) && '\0' !in Line(WithClock, m)
  {
    DigitsAreDigits(m.clock);
    assert ToInt32(m.clock) == m.clock;
  }

  lemma ParseSplit(field: string, text: string)
    requires field != "" && ';' !in field && '\n' !in text && |text| <= TEXT_LIMIT
    ensures ParseRecord(field + ";" + text) ==
      if text == "" then None else Some(Stamped((Atoi(field) % U64) as nat, text))
  {
    RecordSplits(field, text);
    hide TakeUntil;
    hide Atoi;
    assert Clip(TEXT_LIMIT, text) == text;
  }

  /** Which lines are records, and what they say: a field that is not empty, a semicolon, and at
      least one character in front of the next newline. */
  lemma RecordLine(field: string, text: string)
    requires ';' !in field
    ensures var r := ParseRecord(field + ";" + text);
      && (r.Some? <==> field != "" && text != "" && text[0] != '\n')
      && (r.Some? ==>
            var body := r.value.body;
            && r.value.clock == Atoi(field) % 0x1_0000_0000_0000_0000
            && |body| <= 140 && body <= text && '\n' !in body
            && (|body| == 140 || |body| == |text| || text[|body|] == '\n'))
  {
    hide Atoi;
    var line := field + ";" + text;
    assert line == field + (";" + text);
    TakeUntilStops(field, ";" + text, ';');
    assert line[|field| + 1..] == text;
  }

  lemma NoSemicolonNoRecord(line: string)
    requires ';' !in line
    ensures ParseRecord(line) == None
  {
    assert line + "" == line;
    TakeUntilStops(line, "", ';');
  }

  /** A clock of any size comes back as the `int` it was printed from, read as an unsigned number. */
  lemma AnyClockRead(m: Message)
    requires m.body != "" && |m.body| <= TEXT_LIMIT && '\n' !in m.body
    ensures ParseRecord(Line(WithClock, m)) == Some(Stamped(ToInt32(m.clock) % 0x1_0000_0000_0000_0000, m.body))
  {
    var v := ToInt32(m.clock);
    PrintedInt(v);
    PlainInt(v);
    hide Atoi;
    hide PrintInt;
    ParseSplit(PrintInt(v), m.body);
  }

  lemma PlainInt(v: int)
    ensures PrintInt(v) != "" && ';' !in PrintInt(v)
  {
    DigitsAreDigits(if v < 0 then -v else v);
  }

  /** A record read back: the same clock and text, or nothing if the text is empty. */
  lemma RecordRoundTrip(m: Message)
    requires Carriable(m)
    ensures ParseRecord(Line(WithClock, m)) == if m.body == "" then None else Some(m)
  {
    CarriableLine(m);
    DigitsAreDigits(m.clock);
    AtoiPrinted(m.clock);
    hide *;
    assert ';' !in Digits(m.clock) by { NoSemicolon(Digits(m.clock)); }
    assert '\n' !in m.body && |m.body| <= TEXT_LIMIT by { CarriableText(m); }
    ParseSplit(Digits(m.clock), m.body);
  }

  lemma NoSemicolon(digits: string)
    requires forall c :: c in digits ==> IsDigit(c)
    ensures ';' !in digits
  {
  }

  lemma CarriableText(m: Message)
    requires Carriable(m)
    ensures '\n' !in m.body && |m.body| <= TEXT_LIMIT
  {
  }

  /** Reading a listing, line by line, receives its non-empty messages; what follows is kept. */
  lemma {:induction false} ListingReceived(capacity: nat, t: Intake<string>, ms: seq<Message>, rest: string)
    requires AllCarriable(ms) && t.inRecords
    ensures OnLines(capacity, t, Scan("", Listing(WithClock, ms) + rest)) ==
            OnLines(capacity, t.(board := ReceiveAll(t.board, Accepted(NonEmpty, ms))), Scan("", rest))
    decreases |ms|
  {
    if ms == [] {
      assert Listing(WithClock, ms) + rest == rest;
      assert t.(board := t.board) == t;
    } else {
      var line := Line(WithClock, ms[0]);
      CarriableLine(ms[0]);
      RecordRoundTrip(ms[0]);
      var tail := Listing(WithClock, ms[1..]) + rest;
      assert Listing(WithClock, ms) + rest == line + "\n" + tail;
      ScanLine(line, tail);
      ListingReceived(capacity, OnLine(capacity, t, line), ms[1..], rest);
    }
  }

  lemma CodesHaveNoSemicolon()
    ensures ';' !in SGET_CODE && ';' !in SMESSAGE_CODE
  {
    var upper := (c: char) => 'A' <= c <= '_';
    assert forall i :: 0 <= i < |SGET_CODE| ==> upper(SGET_CODE[i]);
    assert forall i :: 0 <= i < |SMESSAGE_CODE| ==> upper(SMESSAGE_CODE[i]);
  }

  lemma CommandLine(capacity: nat, t: Intake<string>, command: string, rest: string)
    requires command == SGET_CODE || command == SMESSAGE_CODE
    ensures OnLines(capacity, t, Scan("", command + "\n" + rest)) ==
            OnLines(capacity, OnLine(capacity, t, command), Scan("", rest))
    ensures t.inRecords ==> OnLine(capacity, t, command) == t
  {
    ScanLine(command, rest);
    if t.inRecords {
      CodesHaveNoSemicolon();
      TakeUntilStops(command, "", ';');
      assert command + "" == command;
    }
  }

  lemma RecordsReceived(capacity: nat, t: Intake<string>, ms: seq<Message>, rest: string)
    requires AllCarriable(ms)
    ensures OnLines(capacity, t, Scan("", SMESSAGE_CODE + "\n" + (Listing(WithClock, ms) + rest))) ==
            OnLines(capacity, Handle(NonEmpty, capacity, t, History(ms)), Scan("", rest))
  {
    CommandLine(capacity, t, SMESSAGE_CODE, Listing(WithClock, ms) + rest);
    ListingReceived(capacity, t.(inRecords := true), ms, rest);
  }

  lemma SharedRecord(m: Message)
    ensures Listing(WithClock, [m]) == Record(WithClock, m)
  {
    assert [m][1..] == [];
  }

  lemma PacketReceived(capacity: nat, t: Intake<string>, p: Packet<string>, rest: string)
    requires AllCarriable(Contents(p))
    ensures OnLines(capacity, t, Scan("", Encode(p) + rest)) ==
            OnLines(capacity, Handle(NonEmpty, capacity, t, p), Scan("", rest))
  {
    hide Scan;
    hide OnLines;
    hide Listing;
    match p
    case Request =>
      CommandLine(capacity, t, SGET_CODE, rest);
    case Share(m) =>
      SharedRecord(m);
      assert Encode(p) + rest == SMESSAGE_CODE + "\n" + (Listing(WithClock, [m]) + rest);
      RecordsReceived(capacity, t, [m], rest);
    case History(ms) =>
      assert Encode(p) + rest == SMESSAGE_CODE + "\n" + (Listing(WithClock, ms) + ("\n" + rest));
      RecordsReceived(capacity, t, ms, "\n" + rest);
      BlankLine(rest);
  }

  lemma BlankLine(rest: string)
    ensures Scan("", "\n" + rest) == Scan("", rest)
  {
    assert ("\n" + rest)[1..] == rest;
  }

  /** The line handler run over any concatenation of encoded packets does exactly what the
      packets say: repeated headers and blank lines contribute nothing, empty texts are dropped. */
  lemma {:induction false} WireRoundTrip(capacity: nat, t: Intake<string>, ps: seq<Packet<string>>)
    requires forall i :: 0 <= i < |ps| ==> AllCarriable(Contents(ps[i]))
    ensures OnLines(capacity, t, Scan("", EncodeAll(ps))) == HandleAll(NonEmpty, capacity, t, ps)
    decreases |ps|
  {
    if ps == [] {
    } else {
      PacketReceived(capacity, t, ps[0], EncodeAll(ps[1..]));
      WireRoundTrip(capacity, Handle(NonEmpty, capacity, t, ps[0]), ps[1..]);
    }
  }

  /** The length limit of `share_last_message` never cuts a record. */
  lemma ShareTextIsPacket(m: Message)
    requires Carriable(m)
    ensures ShareText(m) == Encode(Share(m))
  {
    RecordLength(WithClock, m);
  }

  // ----- which boards are sent unabridged -----

  /** Every line and the whole text stay within the limits that cut them. */
  ghost predicate SentWhole(window: seq<Message>, capacity: nat) {
    && (forall i :: 0 <= i < |window| ==> |Record(WithClock, window[i])| <= STRING_SIZE * capacity)
    && |Listing(WithClock, window)| + |SMESSAGE_CODE| + 2 < STRING_SIZE * (capacity + 1)
  }

  lemma LinesUncut(window: seq<Message>, capacity: nat)
    requires AllCarriable(window)
    ensures Unabridged(WithClock, capacity, window) <==>
      forall i :: 0 <= i < |window| ==> |Record(WithClock, window[i])| <= STRING_SIZE * capacity
  {
    forall i | 0 <= i < |window|
      ensures Piece(WithClock, capacity, window[i]) == Record(WithClock, window[i]) <==>
              |Record(WithClock, window[i])| <= STRING_SIZE * capacity
    {
      RecordLength(WithClock, window[i]);
      hide Record;
    }
  }

  /** A board goes out as it is exactly if no line is longer than the limit for one line, and
      the text stays below the limit for the reply. */
  lemma BoardTextExact(window: seq<Message>, capacity: nat)
    requires 0 < capacity && AllCarriable(window)
    ensures BoardText(window, capacity) == Encode(History(window)) <==> SentWhole(window, capacity)
  {
    LinesUncut(window, capacity);
    RenderLength(WithClock, capacity, window);
    if Unabridged(WithClock, capacity, window) { RenderIsListing(WithClock, capacity, window); }
    hide Render;
    hide Listing;
    hide Record;
    hide Unabridged;
    assert |BoardText(window, capacity)| <= |SMESSAGE_CODE| + 2 + |Render(WithClock, capacity, window)|;
    assert |Encode(History(window))| == |SMESSAGE_CODE| + 2 + |Listing(WithClock, window)|;
  }

  /** With clocks of at most five digits, texts of up to 133 characters always fit, and fit the
      buffer of the listing. */
  lemma {:induction false} ListingFits(ms: seq<Message>, capacity: nat)
    requires |ms| <= capacity && 0 < capacity
    requires forall i :: 0 <= i < |ms| ==> |ms[i].body| <= 133 && ms[i].clock < 100000
    ensures |Listing(WithClock, ms)| < STRING_SIZE * capacity
    decreases |ms|
  {
    if ms == [] {
    } else {
      RecordLength(WithClock, ms[0]);
      if |ms| == 1 {
        assert ms[1..] == [];
      } else {
        ListingFits(ms[1..], capacity - 1);
      }
    }
  }

  /** A listing that fits its buffer is sent whole. */
  lemma FittingIsWhole(window: seq<Message>, capacity: nat)
    requires 0 < capacity && |Listing(WithClock, window)| < STRING_SIZE * capacity
    ensures SentWhole(window, capacity)
  {
    hide Listing;
    hide Record;
    forall i | 0 <= i < |window| ensures |Record(WithClock, window[i])| <= STRING_SIZE * capacity {
      RecordInListing(WithClock, window, i);
    }
  }

  lemma FullRecord(m: Message)
    requires Carriable(m) && |m.body| == TEXT_LIMIT
    ensures STRING_SIZE + 2 <= |Record(WithClock, m)|
  {
    CarriableLine(m);
    DigitsAreDigits(m.clock);
  }

  lemma {:induction false} FullListing(ms: seq<Message>)
    requires AllCarriable(ms) && forall i :: 0 <= i < |ms| ==> |ms[i].body| == TEXT_LIMIT
    ensures (STRING_SIZE + 2) * |ms| <= |Listing(WithClock, ms)|
  {
    if ms == [] {
    } else {
      hide Record;
      FullRecord(ms[0]);
      FullListing(ms[1..]);
    }
  }

  /** A full ring of texts of the full length is never sent whole if it has one place, or 65 and
      more. */
  lemma FullBoardCut(window: seq<Message>, capacity: nat)
    requires |window| == capacity && AllCarriable(window)
    requires forall i :: 0 <= i < |window| ==> |window[i].body| == TEXT_LIMIT
    requires capacity == 1 || 65 <= capacity
    ensures BoardText(window, capacity) != Encode(History(window))
  {
    BoardTextExact(window, capacity);
    FullListing(window);
    FullRecord(window[0]);
  }

  // ----- lines that are neither header nor record -----

  /** In front of a header, whatever is not one is passed over. */
  lemma {:induction false} NoiseIgnored(capacity: nat, t: Intake<string>, noise: seq<string>, lines: seq<string>)
    requires !t.inRecords && forall i :: 0 <= i < |noise| ==> noise[i] != "SGET_MESSAGES" && noise[i] != "SMESSAGES"
    ensures OnLines(capacity, t, noise + lines) == OnLines(capacity, t, lines)
  {
    if noise == [] {
      assert noise + lines == lines;
    } else {
      assert (noise + lines)[0] == noise[0] && (noise + lines)[1..] == noise[1..] + lines;
      NoiseIgnored(capacity, t, noise[1..], lines);
    }
  }

  /** Behind a header, whatever is not a record is passed over, requests and headers included. */
  lemma {:induction false} MalformedIgnored(capacity: nat, t: Intake<string>, noise: seq<string>, lines: seq<string>)
    requires t.inRecords && forall i :: 0 <= i < |noise| ==> ParseRecord(noise[i]) == None
    ensures OnLines(capacity, t, noise + lines) == OnLines(capacity, t, lines)
    ensures ParseRecord("SGET_MESSAGES") == None && ParseRecord("SMESSAGES") == None
  {
    hide ParseRecord;
    NoSemicolonNoRecord("SGET_MESSAGES");
    NoSemicolonNoRecord("SMESSAGES");
    if noise == [] {
      assert noise + lines == lines;
    } else {
      assert (noise + lines)[0] == noise[0] && (noise + lines)[1..] == noise[1..] + lines;
      MalformedIgnored(capacity, t, noise[1..], lines);
    }
  }
}
