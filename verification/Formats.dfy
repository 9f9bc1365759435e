/** The texts of all formats, written out, and the limits in numbers (src/utils/utils.h;
    src/msgserv/message.c; src/idserv/main.go, lines 113-125). */
module Formats {
  import opened CText
  import opened Boards
  import opened Packets
  import opened Messages
  import opened Wire
  import opened Reassembly
  import opened Commands
  import opened Servers
  import Registry
  import Bans
  import Joining

  lemma LimitsInNumbers()
    ensures STRING_SIZE == 141 && TEXT_LIMIT == 140 && ANALYZE_SIZE == 423
    ensures Registry.FIELD_SIZE == 141 && Registry.RESPONSE_SIZE == 512
    ensures Bans.SERVER_BAN_TIME == 5 && Joining.FRESH == -2 && U64 == 0x1_0000_0000_0000_0000
  {
  }

  /** A number is printed without leading zeros. */
  lemma {:induction false} NoLeadingZero(n: nat)
    ensures Digits(n) != "" && (Digits(n)[0] == '0' <==> n == 0)
  {
    if n < 10 {
    } else {
      NoLeadingZero(n / 10);
    }
  }

  /** What goes over a link. */
  lemma PacketFormats(m: Message)
    requires Carriable(m)
    ensures Encode(Request) == "SGET_MESSAGES\n"
    ensures Encode(Share(m)) == "SMESSAGES\n" + Digits(m.clock) + ";" + m.body + "\n"
    ensures ShareText(m) == "SMESSAGES\n" + Digits(m.clock) + ";" + m.body + "\n"
    ensures Encode(History([])) == "SMESSAGES\n\n"
    ensures Encode(History([m])) == "SMESSAGES\n" + Digits(m.clock) + ";" + m.body + "\n\n"
  {
    CarriableLine(m);
    ShareTextIsPacket(m);
    SharedRecord(m);
    hide Digits;
    hide ShareText;
  }

  lemma ListingFirst(m: Message, ms: seq<Message>)
    ensures Listing(WithClock, [m] + ms) == Record(WithClock, m) + Listing(WithClock, ms)
  {
    assert ([m] + ms)[0] == m && ([m] + ms)[1..] == ms;
  }

  lemma Behind10(text: string)
    ensures ("SMESSAGES\n" + text)[10..] == text
  {
  }

  lemma Regrouped(a: string, b: string, c: string)
    ensures a + b + c == a + (b + c)
  {
  }

  lemma HistoryText(ms: seq<Message>)
    ensures Encode(History(ms)) == "SMESSAGES\n" + (Listing(WithClock, ms) + "\n")
  {
    hide Listing;
    Regrouped("SMESSAGES\n", Listing(WithClock, ms), "\n");
  }

  lemma RecordText(m: Message)
    requires Carriable(m)
    ensures Record(WithClock, m) == Digits(m.clock) + ";" + m.body + "\n"
  {
    CarriableLine(m);
  }

  /** A board is sent one record after the other. */
  lemma HistoryFormat(m: Message, ms: seq<Message>)
    requires Carriable(m)
    ensures Encode(History([m] + ms)) ==
      "SMESSAGES\n" + (Digits(m.clock) + ";" + m.body + "\n" + Encode(History(ms))[10..])
  {
    hide *;
    HistoryText([m] + ms);
    HistoryText(ms);
    ListingFirst(m, ms);
    RecordText(m);
    Behind10(Listing(WithClock, ms) + "\n");
    Regrouped(Record(WithClock, m), Listing(WithClock, ms), "\n");
  }

  /** What a client is answered. */
  lemma ReplyFormats(num: nat, m: Message, ms: seq<Message>)
    requires 1 + |ms| <= num && TextsFit([m] + ms)
    ensures MessagesText(num, []) == "MESSAGES\n"
    ensures MessagesText(num, [m] + ms) == "MESSAGES\n" + (m.body + "\n" + MessagesText(num, ms)[9..])
  {
    assert ([m] + ms)[0] == m && ([m] + ms)[1..] == ms;
    assert TextsFit(ms) by {
      assert forall i :: 0 <= i < |ms| ==> ms[i] == ([m] + ms)[i + 1];
    }
    ReplyComplete(num, [m] + ms);
    ReplyComplete(num, ms);
    hide MessagesText;
    assert MessagesText(num, ms)[9..] == Listing(WithoutClock, ms);
  }

  /** What a client sends is read as what it meant. */
  lemma CommandFormats(text: string, n: nat)
    requires text != "" && |text| <= 140 && '\n' !in text && '\0' !in text && text[0] != ' ' && n < U64
    ensures ParseCommand("PUBLISH " + text) == ("PUBLISH", text)
    ensures ParseCommand("GET_MESSAGES " + Digits(n)) == ("GET_MESSAGES", Digits(n))
  {
    PublishRoundTrip(text);
    DigitsOfU64(n);
    RequestParsed(n);
    assert "PUBLISH" + " " + text == "PUBLISH " + text;
    assert "GET_MESSAGES" + " " + Digits(n) == "GET_MESSAGES " + Digits(n);
  }

  /** What the identity server prints. */
  lemma RegistryFormat(s: Listed, servers: seq<Listed>)
    ensures Registry.PrintServers([]) == "SERVERS\n"
    ensures Registry.PrintServers([s] + servers) ==
      "SERVERS\n" + (s.name + ";" + s.ip + ";" + Digits(s.udp) + ";" + Digits(s.tcp) + "\n"
                     + Registry.PrintServers(servers)[8..])
  {
    hide Digits;
    assert ([s] + servers)[0] == s && ([s] + servers)[1..] == servers;
    assert Registry.PrintServers(servers)[8..] == Registry.PrintLines(servers);
  }
}
