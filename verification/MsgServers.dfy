/** A message server: the ring and `g_lc`, tied to the unbounded history behind them, and the
    handlers that change them (src/msgserv/message.c, src/msgserv/main.c lines 255-262). */
module MsgServers {
  import opened CText
  import opened Boards
  import opened Packets
  import opened Matrices
  import opened Messages
  import opened Wire
  import opened Reassembly
  import opened Commands

  class MsgServer {
    const ring: Matrix<Message>
    var clock: nat
    /** Everything ever stored; the ring shows the end of it. */
    ghost var history: seq<Message>

    /** The ring shows the history, whose texts fit on a line. */
    ghost predicate Consistent()
      reads this, ring, ring.cells
    {
      ring.Holds(history) && TextsFit(history) && OneLine(history)
    }

    /** Between two calls the stored clocks also increase strictly, up to `g_lc`. */
    ghost predicate Valid()
      reads this, ring, ring.cells
    {
      Consistent() && WellClocked(State())
    }

    ghost function State(): Board<string>
      reads this
    {
      Board(history, clock)
    }

    constructor (capacity: nat, indeterminate: bool)
      requires 0 < capacity
      ensures Valid() && fresh(ring) && fresh(ring.cells) && ring.capacity == capacity
      ensures State() == EMPTY_BOARD
    {
      ring := new Matrix<Message>(capacity, indeterminate);
      clock := 0;
      history := [];
    }

    /** `new_message` and `add_element` at the index `size`. */
    method Store(text: string)
      requires Consistent() && Ascending(history) && '\n' !in text
      requires history == [] || history[|history| - 1].clock < clock
      modifies this, ring, ring.cells
      ensures Valid() && State() == Append(old(State()), Clip(TEXT_LIMIT, text))
    {
      hide Cells;
      AppendKeepsClocks(State(), Clip(TEXT_LIMIT, text));
      var m := Stamped(clock, Clip(TEXT_LIMIT, text));
      TextAppended(history, m);
      clock := clock + 1;
      ring.AddElement(ring.size, m);
      history := history + [m];
    }

    method HandlePublish(text: string) returns (code: nat)
      requires Valid() && '\n' !in text
      modifies this, ring, ring.cells
      ensures Valid() && State() == Append(old(State()), Clip(TEXT_LIMIT, text))
      ensures code == 2
    {
      Store(text);
      code := 2;
    }

    /** `parse_message`: a record is received, anything else changes nothing. */
    method ParseMessage(info: string) returns (code: nat)
      requires Valid()
      modifies this, ring, ring.cells
      ensures Valid()
      ensures match ParseRecord(info)
        case None => code == 1 && State() == old(State())
        case Some(m) => code == 0 && State() == Receive(old(State()), m)
    {
      var field := TakeUntil(info, ';');
      if field == "" || |field| == |info| {
        return 1;
      }
      var text := Clip(TEXT_LIMIT, TakeUntil(info[|field| + 1..], '\n'));
      if text == "" {
        return 1;
      }
      var messLc := (Atoi(field) % U64) as nat;
      if messLc > clock {
        clock := messLc;
      }
      assert Clip(TEXT_LIMIT, text) == text;
      Store(text);
      code := 0;
    }

    /** The listing of the last `n` messages; NULL stands for an empty board. */
    method Newest(n: nat, mode: Mode) returns (listing: Option<string>)
      requires Valid() && 1 <= n <= ring.capacity
      ensures listing.None? <==> history == []
      ensures listing.Some? ==> listing.value == Render(mode, n, LastN(history, n))
    {
      hide Visited;
      hide Render;
      hide Cells;
      listing := GetFirstNMessages(ring, n, mode);
      VisitedIsWindow(history, ring.capacity, ring.overflow, n);
    }

    method HandleSgetMessages() returns (response: string)
      requires Valid()
      ensures response == BoardText(LastN(history, ring.capacity), ring.capacity)
    {
      hide Snprintf;
      var toAppend := Newest(ring.capacity, WithClock);
      if toAppend.None? {
        response := Snprintf(STRING_SIZE * (ring.capacity + 1), SMESSAGE_CODE + "\n\n");
        assert SMESSAGE_CODE + "\n" + "" + "\n" == SMESSAGE_CODE + "\n\n";
      } else {
        response := Snprintf(STRING_SIZE * (ring.capacity + 1), SMESSAGE_CODE + "\n" + toAppend.value + "\n");
      }
    }

    /** The text of the newest message, as it goes to every peer. */
    method ShareLastMessage() returns (text: string)
      requires Valid() && history != []
      ensures text == ShareText(history[|history| - 1])
    {
      ElementOfHistory(history, ring.capacity, |history| - 1);
      var last := ring.GetElement(ring.size - 1);
      text := ShareText(last.value);
    }

    method HandleGetMessages(input: string) returns (code: nat, reply: Option<string>)
      requires Valid()
      ensures Atoi(input) % U64 == 0 ==> code == 1 && reply == None
      ensures Atoi(input) % U64 != 0 ==>
        var num := Wanted(input, ring.capacity, |history|);
        code == 0 && reply.Some? && reply.value == MessagesText(num, LastN(history, num))
    {
      hide Snprintf;
      hide Render;
      hide Cells;
      hide Atoi;
      hide TextsFit;
      var num := (Atoi(input) % U64) as nat;
      if 1 > num {
        return 1, None;
      }
      num := if ring.capacity < num then ring.capacity else num;
      num := if ring.size < num then ring.size else num;
      code := 0;
      if num == 0 {
        reply := Some(MESSAGES_HEADER);
      } else {
        var toAppend := Newest(num, WithoutClock);
        reply := Some(Snprintf(STRING_SIZE * (num + 1), MESSAGES_HEADER + toAppend.value));
      }
    }

    /** `handle_client_comms`: only a published message makes the caller share (code 2). */
    method HandleClientComms(datagram: string) returns (code: nat, reply: Option<string>)
      requires Valid()
      modifies this, ring, ring.cells
      ensures Valid()
      ensures reply == Reply(datagram, history, ring.capacity)
      ensures reply.Some? <==>
        ParseCommand(datagram).0 == "GET_MESSAGES" && Atoi(ParseCommand(datagram).1) % 0x1_0000_0000_0000_0000 != 0
      ensures reply.Some? ==>
        var num := Wanted(ParseCommand(datagram).1, ring.capacity, |history|);
        reply.value == MessagesText(num, LastN(history, num))
      ensures ParseCommand(datagram).0 == "PUBLISH" ==> reply == None
      ensures var (op, input) := ParseCommand(datagram);
        if op == "PUBLISH" then code == 2 && State() == Append(old(State()), input)
        else
          && code == (if op == "GET_MESSAGES" && reply == None then 1 else 0)
          && State() == old(State())
    {
      var (op, input) := ParseCommand(datagram);
      reply := None;
      code := 0;
      if op == PUBLISH {
        CommandTextFits(datagram);
        assert Clip(TEXT_LIMIT, input) == input;
        code := HandlePublish(input);
      } else if op == GET_MESSAGES {
        code, reply := HandleGetMessages(input);
      }
    }

    /** Lines 255-260 of the processing loop: what goes to the peers after one datagram. */
    method ServeClient(datagram: string) returns (reply: Option<string>, shared: Option<string>)
      requires Valid()
      modifies this, ring, ring.cells
      ensures Valid()
      ensures shared.Some? <==> ParseCommand(datagram).0 == "PUBLISH"
      ensures reply.Some? <==>
        ParseCommand(datagram).0 == "GET_MESSAGES" && Atoi(ParseCommand(datagram).1) % 0x1_0000_0000_0000_0000 != 0
      ensures shared.Some? ==>
        && State() == Append(old(State()), ParseCommand(datagram).1)
        && shared.value == ShareText(Stamped(old(clock), ParseCommand(datagram).1))
      ensures shared.None? ==> State() == old(State())
      ensures reply == Reply(datagram, history, ring.capacity)
    {
      var code;
      code, reply := HandleClientComms(datagram);
      shared := None;
      if code == 2 {
        var text := ShareLastMessage();
        shared := Some(text);
      }
    }

    /** One line through the handler. */
    method Analyze(line: string, inRecords: bool, replies: seq<string>, ghost sent: seq<seq<Message>>)
      returns (inRecords': bool, replies': seq<string>, ghost sent': seq<seq<Message>>)
      requires Valid() && ReplyTexts(replies, sent, ring.capacity)
      modifies this, ring, ring.cells
      ensures Valid() && ReplyTexts(replies', sent', ring.capacity)
      ensures Intake(State(), inRecords', sent') == OnLine(ring.capacity, Intake(old(State()), inRecords, sent), line)
    {
      inRecords', replies', sent' := inRecords, replies, sent;
      if inRecords {
        var err := ParseMessage(line);
      } else if line == SGET_CODE {
        var response := HandleSgetMessages();
        replies' := replies + [response];
        sent' := sent + [LastN(history, ring.capacity)];
      } else if line == SMESSAGE_CODE {
        inRecords' := true;
      }
    }

    /** `server_treat_communications` for one peer and one call: `chunks` is what `recv` delivers
        before it reports the end or that nothing is left. */
    method TreatCommunications(chunks: seq<Chunk>) returns (replies: seq<string>, ghost sent: seq<seq<Message>>)
      requires Valid()
      modifies this, ring, ring.cells
      ensures Valid() && ReplyTexts(replies, sent, ring.capacity)
      ensures var t := OnLines(ring.capacity, Intake(old(State()), false, []), Feed("", chunks));
        State() == t.board && sent == t.replies
    {
      hide Feed;
      hide FeedTokens;
      hide Analyzed;
      hide Tokens;
      hide StrTok;
      hide OnLine;
      hide ReplyTexts;
      var toHold := "";
      var smsState := false;
      replies, sent := [], [];
      NoReplies(ring.capacity);
      ghost var cap := ring.capacity;
      ghost var target := OnLines(cap, Intake(State(), false, []), Feed("", chunks));
      assert chunks[0..] == chunks;
      var n := 0;
      while n < |chunks|
        invariant 0 <= n <= |chunks|
        invariant Valid() && ReplyTexts(replies, sent, cap)
        invariant OnLines(cap, Intake(State(), smsState, sent), Feed(toHold, chunks[n..])) == target
      {
        var microBuffer := chunks[n];
        var messageEnd := EndsLine(microBuffer);
        var next := StrTok(CString(microBuffer));
        ghost var later := chunks[n + 1..];
        FeedStart(toHold, chunks, n);
        while next.Some?
          invariant Valid() && ReplyTexts(replies, sent, cap)
          invariant OnLines(cap, Intake(State(), smsState, sent),
                            FeedTokens(toHold, Pending(next), messageEnd, later)) == target
          decreases |Pending(next)|
        {
          var (token, rest) := next.value;
          var aux := StrTok(rest);
          PendingTokens(rest);
          FeedToken(toHold, token, Pending(aux), messageEnd, later);
          if aux.None? && !messageEnd {
            toHold := Join(toHold, token);
          } else {
            var toAnalyze := Analyzed(toHold, token);
            if aux.Some? {
              toHold := "";
            }
            smsState, replies, sent := Analyze(toAnalyze, smsState, replies, sent);
          }
          next := aux;
        }
        FeedEnd(toHold, messageEnd, later);
        n := n + 1;
      }
      assert chunks[n..] == [];
      FeedEmpty(toHold);
      assert Intake(State(), smsState, sent) == target;
    }
  }

  lemma TextAppended(history: seq<Message>, m: Message)
    requires TextsFit(history) && OneLine(history) && |m.body| <= TEXT_LIMIT && '\n' !in m.body
    ensures TextsFit(history + [m]) && OneLine(history + [m])
  {
  }

  lemma NoReplies(capacity: nat)
    ensures ReplyTexts([], [], capacity)
  {
  }

  lemma FeedEmpty(hold: string)
    ensures Feed(hold, []) == []
  {
  }

  lemma FeedEnd(hold: string, ends: bool, later: seq<Chunk>)
    ensures FeedTokens(hold, [], ends, later) == Feed(hold, later)
  {
  }

  /** Each reply is the listing of the window that the server showed when it answered. */
  ghost predicate ReplyTexts(replies: seq<string>, sent: seq<seq<Message>>, capacity: nat) {
    |replies| == |sent| && forall i :: 0 <= i < |replies| ==> replies[i] == BoardText(sent[i], capacity)
  }

  /** What is still to be analysed: the tokens of the current chunk, then the later chunks. */
  ghost function FeedTokens(hold: string, tokens: seq<string>, ends: bool, later: seq<Chunk>): seq<string> {
    Join(Assemble(hold, tokens, ends).0, Feed(Assemble(hold, tokens, ends).1, later))
  }

  lemma FeedStart(hold: string, chunks: seq<Chunk>, n: nat)
    requires n < |chunks|
    ensures Feed(hold, chunks[n..]) ==
            FeedTokens(hold, Pending(StrTok(CString(chunks[n]))), EndsLine(chunks[n]), chunks[n + 1..])
  {
    assert chunks[n..][0] == chunks[n] && chunks[n..][1..] == chunks[n + 1..];
  }

  /** One turn of the token loop. */
  lemma FeedToken(hold: string, token: string, tokens: seq<string>, ends: bool, later: seq<Chunk>)
    ensures FeedTokens(hold, [token] + tokens, ends, later) ==
      if tokens != [] then [Analyzed(hold, token)] + FeedTokens("", tokens, ends, later)
      else if ends then [Analyzed(hold, token)] + FeedTokens(hold, [], ends, later)
      else FeedTokens(Join(hold, token), [], ends, later)
  {
    hide Analyzed;
    hide Feed;
    assert ([token] + tokens)[1..] == tokens;
    if tokens != [] {
      var (lines, last) := Assemble("", tokens, ends);
      JoinAssoc([Analyzed(hold, token)], lines, Feed(last, later));
    }
  }
}
