/** The datagrams between clients and servers: src/msgserv/message.c, lines 78-154, and
    src/rmb/message.c, lines 66-129 and 164-184. */
module Commands {
  import opened CText
  import opened Messages

  function TakeWord(s: string): (w: string)
    ensures |w| <= |s| && w == s[..|w|]
  {
    if s == "" || IsSpace(s[0]) then "" else [s[0]] + TakeWord(s[1..])
  }

  function SkipBlanks(s: string): (r: string)
    ensures |r| <= |s|
  {
    if s != "" && s[0] == ' ' then SkipBlanks(s[1..]) else s
  }

  /** `sscanf(buffer, "%s%*[ ]%140[^\n]", op, input)`: a word, blanks, then the rest of the line. */
  function ParseCommand(buffer: string): (string, string) {
    var s := SkipSpaces(CString(buffer));
    var op := TakeWord(s);
    var rest := s[|op|..];
    if op == "" || rest == "" || rest[0] != ' ' then (op, "")
    else (op, Clip(TEXT_LIMIT, TakeUntil(SkipBlanks(rest), '\n')))
  }

  lemma {:induction false} SubstringFree(s: string, c: char)
    requires c !in s
    ensures c !in SkipSpaces(s) && c !in SkipBlanks(s)
    decreases |s|
  {
    if s == "" {
    } else {
      SubstringFree(s[1..], c);
    }
  }

  /** Whatever arrives, the text a server takes from a datagram fits on one line. */
  lemma CommandTextFits(buffer: string)
    ensures var text := ParseCommand(buffer).1;
      |text| <= TEXT_LIMIT && '\n' !in text && '\0' !in text
  {
    var s := SkipSpaces(CString(buffer));
    SubstringFree(CString(buffer), '\0');
    var rest := s[|TakeWord(s)|..];
    assert '\0' !in rest;
    SubstringFree(rest, '\0');
  }

  const PUBLISH := "PUBLISH"
  const GET_MESSAGES := "GET_MESSAGES"

  lemma {:induction false} WordBeforeBlank(w: string, rest: string)
    requires forall i :: 0 <= i < |w| ==> !IsSpace(w[i])
    requires rest != "" && IsSpace(rest[0])
    ensures TakeWord(w + rest) == w
    decreases |w|
  {
    if w == "" {
      assert w + rest == rest;
    } else {
      assert (w + rest)[0] == w[0] && (w + rest)[1..] == w[1..] + rest;
      WordBeforeBlank(w[1..], rest);
    }
  }

  /** How a server reads an operation with one argument. */
  lemma CommandParsed(op: string, text: string)
    requires op != "" && forall i :: 0 <= i < |op| ==> !IsSpace(op[i]) && op[i] != '\0'
    requires '\0' !in text
    ensures ParseCommand(op + " " + text) == (op, Clip(TEXT_LIMIT, TakeUntil(SkipBlanks(text), '\n')))
  {
    hide TakeUntil;
    hide TakeWord;
    var buffer, rest := op + " " + text, " " + text;
    assert buffer == op + rest;
    assert '\0' !in rest;
    assert buffer[0] == op[0];
    assert SkipSpaces(buffer) == buffer;
    WordBeforeBlank(op, rest);
    assert buffer[|op|..] == rest && rest[1..] == text;
  }

  /** The parts of a datagram: blanks, a word, blanks, a line, and what is left over. */
  lemma CommandInParts(spaces: string, op: string, blanks: string, text: string, tail: string)
    requires forall i :: 0 <= i < |spaces| ==> IsSpace(spaces[i])
    requires op != "" && forall i :: 0 <= i < |op| ==> !IsSpace(op[i]) && op[i] != '\0'
    requires blanks != "" && forall i :: 0 <= i < |blanks| ==> blanks[i] == ' '
    requires '\n' !in text && '\0' !in text && (text != "" ==> text[0] != ' ')
    requires tail == "" || tail[0] == '\n' || tail[0] == '\0'
    ensures ParseCommand(spaces + (op + (blanks + (text + tail)))) == (op, text[..Min(140, |text|)])
  {
    hide TakeUntil;
    hide TakeWord;
    hide SkipBlanks;
    hide SkipSpaces;
    hide CString;
    var line := TakeUntil(tail, '\0');
    BufferCut(spaces + (op + (blanks + text)), tail);
    var rest := blanks + (text + line);
    var whole := spaces + (op + rest);
    assert spaces + (op + (blanks + (text + tail))) == spaces + (op + (blanks + text)) + tail;
    assert whole == spaces + (op + (blanks + text)) + line;
    SpacesSkipped(spaces, op + rest);
    assert (op + rest)[0] == op[0];
    WordBeforeBlank(op, rest);
    assert (op + rest)[|op|..] == rest && rest[0] == ' ';
    BlanksSkipped(blanks, text + line);
    TakeUntilStops(text, line, '\n');
  }

  /** A C string ends in front of the first NUL. */
  lemma BufferCut(front: string, tail: string)
    requires '\0' !in front
    ensures CString(front + tail) == front + TakeUntil(tail, '\0')
  {
    var line := TakeUntil(tail, '\0');
    assert front + tail == (front + line) + tail[|line|..];
    TakeUntilStops(front + line, tail[|line|..], '\0');
  }

  lemma {:induction false} BlanksSkipped(blanks: string, rest: string)
    requires forall i :: 0 <= i < |blanks| ==> blanks[i] == ' '
    requires rest == "" || rest[0] != ' '
    ensures SkipBlanks(blanks + rest) == rest
  {
    if blanks == "" {
      assert blanks + rest == rest;
    } else {
      assert (blanks + rest)[0] == ' ' && (blanks + rest)[1..] == blanks[1..] + rest;
      BlanksSkipped(blanks[1..], rest);
    }
  }

  /** A word with nothing behind it, or with white space other than a blank, has no argument. */
  lemma CommandAlone(spaces: string, op: string, tail: string)
    requires forall i :: 0 <= i < |spaces| ==> IsSpace(spaces[i])
    requires op != "" && forall i :: 0 <= i < |op| ==> !IsSpace(op[i]) && op[i] != '\0'
    requires tail == "" || tail[0] == '\0' || (IsSpace(tail[0]) && tail[0] != ' ')
    ensures ParseCommand(spaces + (op + tail)) == (op, "")
  {
    var line := TakeUntil(tail, '\0');
    BufferCut(spaces + op, tail);
    assert spaces + (op + tail) == spaces + op + tail;
    assert spaces + (op + line) == spaces + op + line;
    SpacesSkipped(spaces, op + line);
    if line == "" {
      WordAtEnd(op);
      assert op + line == op;
    } else {
      WordBeforeBlank(op, line);
    }
    assert (op + line)[|op|..] == line;
  }

  lemma {:induction false} WordAtEnd(w: string)
    requires forall i :: 0 <= i < |w| ==> !IsSpace(w[i])
    ensures TakeWord(w) == w
  {
    if w == "" {
    } else {
      WordAtEnd(w[1..]);
    }
  }

  /** White space alone is no command. */
  lemma NoCommand(spaces: string, tail: string)
    requires forall i :: 0 <= i < |spaces| ==> IsSpace(spaces[i])
    requires tail == "" || tail[0] == '\0'
    ensures ParseCommand(spaces + tail) == ("", "")
  {
    BufferCut(spaces, tail);
    SpacesSkipped(spaces, "");
    assert spaces + "" == spaces;
  }

  /** A text published by a client reaches the server unchanged exactly if it does not begin
      with a blank; the client's own prompt never produces such a text. */
  lemma PublishRoundTrip(text: string)
    requires text != "" && |text| <= TEXT_LIMIT && '\n' !in text && '\0' !in text
    ensures ParseCommand(PUBLISH + " " + text).0 == PUBLISH
    ensures ParseCommand(PUBLISH + " " + text).1 == text <==> text[0] != ' '
  {
    hide ParseCommand;
    hide TakeUntil;
    hide SkipBlanks;
    CommandParsed(PUBLISH, text);
    BlanksShorten(text);
    SubstringFree(text, '\n');
    WholeLine(SkipBlanks(text));
  }

  lemma WholeLine(s: string)
    requires '\n' !in s
    ensures TakeUntil(s, '\n') == s
  {
    assert |TakeUntil(s, '\n')| == |s|;
  }

  lemma BlanksShorten(s: string)
    ensures SkipBlanks(s) == s <==> s == "" || s[0] != ' '
    ensures |SkipBlanks(s)| <= |s|
    decreases |s|
  {
  }

  // ----- GET_MESSAGES -----

  const MESSAGES_HEADER := "MESSAGES\n"

  /** How many messages `handle_get_messages` lists for an argument: none if it reads as 0, and
      a negative number counts as a huge one. */
  function Wanted(input: string, capacity: nat, size: nat): nat {
    var num := (Atoi(input) % U64) as nat;
    Min(size, Min(capacity, num))
  }

  /** The reply of `handle_get_messages`. */
  function MessagesText(num: nat, window: seq<Message>): string {
    if window == [] then MESSAGES_HEADER
    else Snprintf(STRING_SIZE * (num + 1), MESSAGES_HEADER + Render(WithoutClock, num, window))
  }

  lemma {:induction false} TextListingLength(ms: seq<Message>)
    requires TextsFit(ms)
    ensures |Listing(WithoutClock, ms)| <= STRING_SIZE * |ms|
    decreases |ms|
  {
    if ms == [] {
    } else {
      TextListingLength(ms[1..]);
    }
  }

  /** The reply is always complete: header and the listed texts, never cut by its limit. */
  lemma ReplyComplete(num: nat, window: seq<Message>)
    requires |window| <= num && TextsFit(window)
    ensures MessagesText(num, window) == MESSAGES_HEADER + Listing(WithoutClock, window)
    ensures window != [] ==> |MessagesText(num, window)| < STRING_SIZE * (num + 1)
  {
    if window != [] {
      ListingComplete(WithoutClock, num, window);
      TextListingLength(window);
    }
  }

  function Texts(ms: seq<Message>): seq<string> {
    if ms == [] then []
    else if ms[0].body == "" then Texts(ms[1..])
    else [ms[0].body] + Texts(ms[1..])
  }

  lemma {:induction false} ListingTokens(ms: seq<Message>)
    requires OneLine(ms)
    ensures Tokens(Listing(WithoutClock, ms)) == Texts(ms)
    decreases |ms|
  {
    if ms == [] {
    } else {
      TokensOfLine(ms[0].body, Listing(WithoutClock, ms[1..]));
      ListingTokens(ms[1..]);
    }
  }

  lemma Behind(header: string, text: string)
    ensures (header + text)[|header|..] == text
  {
  }

  /** What the client prints from a reply, starting behind the header, are exactly the
      non-empty texts of the window, in order. */
  lemma ClientReadsWindow(num: nat, window: seq<Message>)
    requires |window| <= num && TextsFit(window)
    requires OneLine(window)
    ensures Tokens(MessagesText(num, window)[|MESSAGES_HEADER|..]) == Texts(window)
  {
    hide *;
    ReplyComplete(num, window);
    Behind(MESSAGES_HEADER, Listing(WithoutClock, window));
    ListingTokens(window);
  }

  // ----- request, reply and what the client prints -----

  /** The reply that a datagram gets from a server. */
  function Reply(datagram: string, history: seq<Message>, capacity: nat): Option<string> {
    var (op, input) := ParseCommand(datagram);
    if op != GET_MESSAGES || Atoi(input) % U64 == 0 then None
    else
      var num := Wanted(input, capacity, |history|);
      Some(MessagesText(num, LastN(history, num)))
  }

  lemma RequestParsed(n: nat)
    requires |Digits(n)| <= TEXT_LIMIT
    ensures ParseCommand(GET_MESSAGES + " " + Digits(n)) == (GET_MESSAGES, Digits(n))
  {
    DigitsAreDigits(n);
    hide Digits;
    hide ParseCommand;
    CommandParsed(GET_MESSAGES, Digits(n));
    BlanksShorten(Digits(n));
    assert IsDigit(Digits(n)[0]);
    WholeLine(Digits(n));
  }

  lemma LastNOfSize<T>(s: seq<T>, n: nat)
    ensures LastN(s, Min(|s|, n)) == LastN(s, n)
  {
  }

  lemma RequestAnswered(n: nat, history: seq<Message>, capacity: nat)
    requires 0 < n < U64
    ensures var num := Min(|history|, Min(capacity, n));
      Reply(GET_MESSAGES + " " + Digits(n), history, capacity) == Some(MessagesText(num, LastN(history, num)))
  {
    hide ParseCommand;
    hide Digits;
    hide Atoi;
    hide MessagesText;
    DigitsOfU64(n);
    RequestParsed(n);
    AtoiPrinted(n);
    InRange(n);
  }

  lemma InRange(n: nat)
    requires n < U64
    ensures n % U64 == n
  {
  }

  /** A client that asks for n messages, n of at most 64 bits, prints exactly the non-empty texts
      among the last n of the server's history that its ring can show, oldest first. */
  lemma RequestTheorem(n: nat, history: seq<Message>, capacity: nat)
    requires 0 < n < U64
    requires TextsFit(history) && OneLine(history)
    ensures var reply := Reply(GET_MESSAGES + " " + Digits(n), history, capacity);
      && reply.Some?
      && |reply.value| >= |MESSAGES_HEADER|
      && Tokens(reply.value[|MESSAGES_HEADER|..]) == Texts(LastN(history, Min(capacity, n)))
  {
    var num := Min(|history|, Min(capacity, n));
    var window := LastN(history, num);
    assert |window| <= num && TextsFit(window) && OneLine(window);
    LastNOfSize(history, Min(capacity, n));
    hide *;
    RequestAnswered(n, history, capacity);
    ReplyComplete(num, window);
    ClientReadsWindow(num, window);
  }

  /** A negative count is read as a huge one: the whole ring is shown. */
  lemma NegativeRequest(n: nat, history: seq<Message>, capacity: nat)
    requires 0 < n < U64 && n + capacity <= U64
    ensures ParseCommand("GET_MESSAGES -" + Digits(n)) == ("GET_MESSAGES", "-" + Digits(n))
    ensures var num := Min(|history|, capacity);
      Reply("GET_MESSAGES -" + Digits(n), history, capacity) == Some(MessagesText(num, LastN(history, num)))
  {
    hide *;
    DigitsOfU64(n);
    NegativeParsed(n);
    NegativeRead(n);
    NegativeWanted("-" + Digits(n), n, capacity, |history|);
    ReplyTo("GET_MESSAGES -" + Digits(n), "-" + Digits(n), history, capacity);
  }

  lemma NegativeRead(n: nat)
    ensures Atoi("-" + Digits(n)) == -(n as int)
  {
    AtoiOf("", n, "");
    assert "" + ("-" + (Digits(n) + "")) == "-" + Digits(n);
  }

  lemma NegativeWanted(input: string, n: nat, capacity: nat, size: nat)
    requires Atoi(input) == -(n as int) && 0 < n < U64 && n + capacity <= U64
    ensures Atoi(input) % U64 != 0
    ensures Wanted(input, capacity, size) == Min(size, capacity)
  {
    hide Atoi;
    NegativeCut(n);
  }

  lemma ReplyTo(datagram: string, input: string, history: seq<Message>, capacity: nat)
    requires ParseCommand(datagram) == ("GET_MESSAGES", input) && Atoi(input) % U64 != 0
    ensures var num := Wanted(input, capacity, |history|);
      Reply(datagram, history, capacity) == Some(MessagesText(num, LastN(history, num)))
  {
  }

  lemma NegativeCut(n: nat)
    requires 0 < n < U64
    ensures -(n as int) % U64 == U64 - n
  {
    assert -(n as int) == -1 * U64 + (U64 - n);
  }

  lemma NegativeParsed(n: nat)
    requires |Digits(n)| <= 20
    ensures ParseCommand("GET_MESSAGES -" + Digits(n)) == ("GET_MESSAGES", "-" + Digits(n))
  {
    DigitsAreDigits(n);
    hide Digits;
    hide ParseCommand;
    var text := "-" + Digits(n);
    assert "GET_MESSAGES -" + Digits(n) == GET_MESSAGES + " " + text;
    CommandParsed(GET_MESSAGES, text);
    BlanksShorten(text);
    WholeLine(text);
  }
}
