/** The list that the identity server prints (src/idserv/main.go, lines 113-125) and its two
    readers (src/rmb/identity.c, lines 98-131; src/msgserv/identity.c, lines 322-365). */
module Registry {
  import opened CText
  import opened LinkedLists
  import opened Servers

  const HEADER := "SERVERS"
  const FIELD_SIZE := 141
  const RESPONSE_SIZE := 512

  // ----- printing -----

  function PrintLine(s: Listed): string {
    s.name + ";" + s.ip + ";" + Digits(s.udp) + ";" + Digits(s.tcp)
  }

  function PrintLines(servers: seq<Listed>): string {
    if servers == [] then "" else PrintLine(servers[0]) + "\n" + PrintLines(servers[1..])
  }

  function PrintServers(servers: seq<Listed>): string {
    HEADER + "\n" + PrintLines(servers)
  }

  // ----- reading one line: "%[^;];%[^;];%hu;%hu" -----

  /** `%[^;];`: a non-empty field and the semicolon behind it. */
  function ReadField(s: string): (r: Option<(string, string)>)
  {
    var field := TakeUntil(s, ';');
    if field == "" || |field| == |s| then None else Some((field, s[|field| + 1..]))
  }

  function AfterDigits(s: string): (r: string)
    ensures |r| <= |s| && r == s[|s| - |r|..]
  {
    if s != "" && IsDigit(s[0]) then AfterDigits(s[1..]) else s
  }

  /** What is stored of a number: saturated at the width of `unsigned long`, negated if there is a
      minus sign, and cut to sixteen bits. */
  function PortBits(negative: bool, v: nat): nat {
    (if v >= U64 then U64 - 1 else if negative then (U64 - v) % U64 else v) % 0x1_0000
  }

  /** `%hu`: blanks, an optional sign, at least one digit. */
  function ReadUShort(s: string): Option<(nat, string)> {
    var t := SkipSpaces(s);
    var digits := if t != "" && (t[0] == '-' || t[0] == '+') then t[1..] else t;
    if digits == "" || !IsDigit(digits[0]) then None
    else Some((PortBits(t[0] == '-', ReadDigits(digits, 0)), AfterDigits(digits)))
  }

  function ReadLine(line: string): Option<Listed> {
    match ReadField(line)
    case None => None
    case Some((name, rest1)) =>
      match ReadField(rest1)
      case None => None
      case Some((ip, rest2)) =>
        match ReadUShort(rest2)
        case None => None
        case Some((udp, rest3)) =>
          if rest3 == "" || rest3[0] != ';' then None
          else
            match ReadUShort(rest3[1..])
            case None => None
            case Some((tcp, _)) => Some(Listed(name, ip, udp, tcp))
  }

  // ----- a printed line reads back -----

  /** A server whose line can be told apart into its fields, and these fit their buffers. */
  predicate Separable(s: Listed) {
    && |s.name| < FIELD_SIZE && |s.ip| < FIELD_SIZE
    && ';' !in s.name && '\n' !in s.name && '\0' !in s.name
    && ';' !in s.ip && '\n' !in s.ip && '\0' !in s.ip
    && s.udp < 0x1_0000 && s.tcp < 0x1_0000
  }

  /** What a registered server can look like for its line to carry it. */
  predicate Printable(s: Listed) {
    Separable(s) && s.name != "" && s.ip != ""
  }

  lemma FieldRead(field: string, rest: string)
    requires field != "" && ';' !in field
    ensures ReadField(field + ";" + rest) == Some((field, rest))
  {
    assert field + ";" + rest == field + (";" + rest);
    TakeUntilStops(field, ";" + rest, ';');
    assert (field + ";" + rest)[|field| + 1..] == rest;
  }

  lemma {:induction false} DigitsPassed(digits: string, rest: string)
    requires forall c :: c in digits ==> IsDigit(c)
    requires rest == "" || !IsDigit(rest[0])
    ensures AfterDigits(digits + rest) == rest
    decreases |digits|
  {
    if digits == "" {
      assert digits + rest == rest;
    } else {
      var s := digits + rest;
      assert s[0] == digits[0] && s[1..] == digits[1..] + rest;
      DigitsPassed(digits[1..], rest);
    }
  }

  lemma PortRead(port: nat, rest: string)
    requires port < 0x1_0000 && (rest == "" || !IsDigit(rest[0]))
    ensures ReadUShort(Digits(port) + rest) == Some((port, rest))
  {
    hide Digits;
    hide ReadDigits;
    hide AfterDigits;
    DigitsAreDigits(port);
    var s := Digits(port) + rest;
    assert s[0] == Digits(port)[0] && IsDigit(s[0]);
    ReadPrinted(port, rest);
    NothingToRead(rest, port);
    DigitsPassed(Digits(port), rest);
  }

  // ----- which lines are malformed -----

  function Semicolons(s: string): nat {
    if s == "" then 0 else (if s[0] == ';' then 1 else 0) + Semicolons(s[1..])
  }

  lemma {:induction false} SemicolonsOfParts(a: string, b: string)
    ensures Semicolons(a + b) == Semicolons(a) + Semicolons(b)
  {
    if a == "" {
      assert a + b == b;
    } else {
      assert (a + b)[0] == a[0] && (a + b)[1..] == a[1..] + b;
      SemicolonsOfParts(a[1..], b);
    }
  }

  /** A suffix has no more of them. */
  lemma SemicolonsOfSuffix(s: string, k: nat)
    requires k <= |s|
    ensures Semicolons(s[k..]) <= Semicolons(s)
  {
    assert s == s[..k] + s[k..];
    SemicolonsOfParts(s[..k], s[k..]);
  }

  lemma FieldUses(s: string)
    ensures ReadField(s).Some? ==> Semicolons(ReadField(s).value.1) + 1 <= Semicolons(s)
  {
    if ReadField(s).Some? {
      var k := |TakeUntil(s, ';')|;
      SemicolonsOfSuffix(s, k);
      assert s[k..][0] == ';' && s[k..][1..] == s[k + 1..];
    }
  }

  /** What stands behind a number is a suffix. */
  lemma PortTail(s: string) returns (k: nat)
    requires ReadUShort(s).Some?
    ensures k <= |s| && ReadUShort(s).value.1 == s[k..]
  {
    hide ReadDigits;
    hide AfterDigits;
    hide SkipSpaces;
    SpacesAreSuffix(s);
    var t := SkipSpaces(s);
    var digits := if t != "" && (t[0] == '-' || t[0] == '+') then t[1..] else t;
    k := |s| - |AfterDigits(digits)|;
    assert digits == s[|s| - |digits|..];
  }

  lemma PortUses(s: string)
    ensures ReadUShort(s).Some? ==> Semicolons(ReadUShort(s).value.1) <= Semicolons(s)
  {
    hide ReadUShort;
    if ReadUShort(s).Some? {
      var k := PortTail(s);
      SemicolonsOfSuffix(s, k);
    }
  }

  lemma {:induction false} SpacesAreSuffix(s: string)
    ensures |SkipSpaces(s)| <= |s| && SkipSpaces(s) == s[|s| - |SkipSpaces(s)|..]
  {
    if s != "" && IsSpace(s[0]) {
      SpacesAreSuffix(s[1..]);
    }
  }

  /** A line with fewer than three semicolons is malformed. */
  lemma FewSemicolons(line: string)
    requires Semicolons(line) < 3
    ensures ReadLine(line) == None
  {
    FieldUses(line);
    if ReadField(line).Some? {
      var rest1 := ReadField(line).value.1;
      FieldUses(rest1);
      if ReadField(rest1).Some? {
        var rest2 := ReadField(rest1).value.1;
        PortUses(rest2);
        hide ReadUShort;
        hide ReadField;
      }
    }
  }

  /** An empty field makes a line malformed: nothing is matched in front of the semicolon. */
  lemma EmptyField(rest: string)
    ensures ReadField(";" + rest) == None
  {
  }

  /** The sixteen bits of a number. */
  lemma PortBitsMean(n: nat)
    ensures PortBits(false, n) == if n < 0x1_0000_0000_0000_0000 then n % 65536 else 65535
    ensures PortBits(true, n) == if n < 0x1_0000_0000_0000_0000 then (65536 - n % 65536) % 65536 else 65535
  {
    if 0 < n < U64 {
      assert (U64 - n) % U64 == U64 - n;
      assert U64 - n == (U64 / 65536 - n / 65536 - 1) * 65536 + (65536 - n % 65536);
    }
  }

  lemma AnyPortRead(port: nat, rest: string)
    requires rest == "" || !IsDigit(rest[0])
    ensures ReadUShort(Digits(port) + rest) == Some((PortBits(false, port), rest))
  {
    hide Digits;
    hide ReadDigits;
    hide AfterDigits;
    hide PortBits;
    DigitsAreDigits(port);
    ReadPrinted(port, rest);
    NothingToRead(rest, port);
    DigitsPassed(Digits(port), rest);
    assert (Digits(port) + rest)[0] == Digits(port)[0] && IsDigit(Digits(port)[0]);
  }

  /** Blanks in front of a port, or a plus sign, do not matter; a minus sign negates. */
  lemma SignedPortRead(blanks: string, s: string)
    requires forall i :: 0 <= i < |blanks| ==> IsSpace(blanks[i])
    requires s != "" && IsDigit(s[0])
    ensures ReadUShort(blanks + s) == ReadUShort("+" + s) == ReadUShort(s)
    ensures ReadUShort("-" + s) == Some((PortBits(true, ReadDigits(s, 0)), AfterDigits(s)))
  {
    hide ReadDigits;
    hide AfterDigits;
    hide PortBits;
    SpacesSkipped(blanks, s);
    assert ("+" + s)[1..] == s && ("-" + s)[1..] == s;
  }

  /** Without a digit behind blanks and a sign there is no port. */
  lemma NoPort(blanks: string, rest: string)
    requires forall i :: 0 <= i < |blanks| ==> IsSpace(blanks[i])
    requires rest == "" || (!IsSpace(rest[0]) && !IsDigit(rest[0]) && rest[0] != '-' && rest[0] != '+')
    ensures ReadUShort(blanks + rest) == None
    ensures ReadUShort(blanks + "-" + rest) == None && ReadUShort(blanks + "+" + rest) == None
  {
    SpacesSkipped(blanks, rest);
    SpacesSkipped(blanks, "-" + rest);
    SpacesSkipped(blanks, "+" + rest);
    assert blanks + "-" + rest == blanks + ("-" + rest) && blanks + "+" + rest == blanks + ("+" + rest);
    assert ("-" + rest)[1..] == rest && ("+" + rest)[1..] == rest;
  }

  /** A line with two fields that are not empty and two numbers is read, whatever follows. */
  lemma FieldsRead(name: string, ip: string, udp: nat, tcp: nat, rest: string)
    requires name != "" && ';' !in name && ip != "" && ';' !in ip && (rest == "" || !IsDigit(rest[0]))
    ensures ReadLine(name + ";" + ip + ";" + Digits(udp) + ";" + Digits(tcp) + rest) ==
            Some(Listed(name, ip, PortBits(false, udp), PortBits(false, tcp)))
  {
    hide ReadField;
    hide ReadUShort;
    hide Digits;
    hide PortBits;
    var rest3 := ";" + (Digits(tcp) + rest);
    var rest2 := Digits(udp) + rest3;
    var rest1 := ip + ";" + rest2;
    assert name + ";" + ip + ";" + Digits(udp) + ";" + Digits(tcp) + rest == name + ";" + rest1;
    FieldRead(name, rest1);
    FieldRead(ip, rest2);
    AnyPortRead(udp, rest3);
    assert rest3[1..] == Digits(tcp) + rest;
    AnyPortRead(tcp, rest);
  }

  /** Without a name nothing is matched in front of the first semicolon, without an address
      nothing in front of the second. */
  lemma Nameless(rest: string)
    ensures ReadLine(";" + rest) == None
  {
    EmptyField(rest);
  }

  lemma Addressless(name: string, rest: string)
    requires name != "" && ';' !in name
    ensures ReadLine(name + ";" + (";" + rest)) == None
  {
    FieldRead(name, ";" + rest);
    EmptyField(rest);
    hide ReadField;
  }

  /** A printed line is read back if and only if neither the name nor the address is empty. */
  lemma PrintedWellFormed(s: Listed)
    requires Separable(s)
    ensures ReadLine(PrintLine(s)) == if s.name != "" && s.ip != "" then Some(s) else None
  {
    hide ReadLine;
    hide Digits;
    var rest := Digits(s.udp) + ";" + Digits(s.tcp);
    if s.name == "" {
      assert PrintLine(s) == ";" + (s.ip + ";" + rest);
      Nameless(s.ip + ";" + rest);
    } else if s.ip == "" {
      assert PrintLine(s) == s.name + ";" + (";" + rest);
      Addressless(s.name, rest);
    } else {
      assert PrintLine(s) == s.name + ";" + s.ip + ";" + Digits(s.udp) + ";" + Digits(s.tcp) + "";
      FieldsRead(s.name, s.ip, s.udp, s.tcp, "");
    }
  }

  lemma LineRead(s: Listed)
    requires Printable(s)
    ensures ReadLine(PrintLine(s)) == Some(s)
  {
    hide ReadField;
    hide ReadUShort;
    hide Digits;
    var rest3 := ";" + Digits(s.tcp);
    var rest2 := Digits(s.udp) + rest3;
    var rest1 := s.ip + ";" + rest2;
    assert PrintLine(s) == s.name + ";" + rest1;
    FieldRead(s.name, rest1);
    FieldRead(s.ip, rest2);
    PortRead(s.udp, rest3);
    assert rest3[1..] == Digits(s.tcp) == Digits(s.tcp) + "";
    PortRead(s.tcp, "");
  }

  function Lines(servers: seq<Listed>): seq<string> {
    if servers == [] then [] else [PrintLine(servers[0])] + Lines(servers[1..])
  }

  lemma LinePlain(s: Listed)
    requires Separable(s)
    ensures '\n' !in PrintLine(s) && PrintLine(s) != ""
  {
    DigitsAreDigits(s.udp);
    DigitsAreDigits(s.tcp);
  }

  lemma {:induction false} LinesTokens(servers: seq<Listed>)
    requires forall i :: 0 <= i < |servers| ==> Separable(servers[i])
    ensures Tokens(PrintLines(servers)) == Lines(servers)
  {
    hide PrintLine;
    if servers == [] {
    } else {
      LinePlain(servers[0]);
      TokensOfLine(PrintLine(servers[0]), PrintLines(servers[1..]));
      LinesTokens(servers[1..]);
    }
  }

  lemma PrintedTokens(servers: seq<Listed>)
    requires forall i :: 0 <= i < |servers| ==> Separable(servers[i])
    ensures Tokens(PrintServers(servers)) == [HEADER] + Lines(servers)
  {
    hide Tokens;
    hide Lines;
    hide PrintLines;
    LinesTokens(servers);
    PlainHeader();
    TokensOfLine(HEADER, PrintLines(servers));
  }

  lemma PlainHeader()
    ensures '\n' !in HEADER && HEADER != ""
  {
    assert forall i :: 0 <= i < |HEADER| ==> 'A' <= HEADER[i];
  }

  // ----- reading all lines -----

  /** The servers of the lines up to the first malformed one. */
  function ReadLines(lines: seq<string>): seq<Listed> {
    if lines == [] || ReadLine(lines[0]).None? then []
    else [ReadLine(lines[0]).value] + ReadLines(lines[1..])
  }

  predicate AllWellFormed(lines: seq<string>) {
    forall i :: 0 <= i < |lines| ==> ReadLine(lines[i]).Some?
  }

  lemma WellFormedMore(line: string, lines: seq<string>)
    requires ReadLine(line).Some? && AllWellFormed(lines)
    ensures AllWellFormed([line] + lines)
    ensures ReadLines([line] + lines) == [ReadLine(line).value] + ReadLines(lines)
  {
    hide ReadLine;
    var all := [line] + lines;
    assert all[1..] == lines;
    forall i | 0 <= i < |all| ensures ReadLine(all[i]).Some? {
      if i > 0 { assert all[i] == lines[i - 1]; }
    }
  }

  lemma {:induction false} LinesRead(servers: seq<Listed>)
    requires forall i :: 0 <= i < |servers| ==> Printable(servers[i])
    ensures ReadLines(Lines(servers)) == servers && AllWellFormed(Lines(servers))
  {
    hide ReadLine;
    hide ReadLines;
    hide AllWellFormed;
    hide PrintLine;
    NothingRead();
    if servers == [] {
    } else {
      LineRead(servers[0]);
      LinesRead(servers[1..]);
      WellFormedMore(PrintLine(servers[0]), Lines(servers[1..]));
    }
  }

  function Reversed<T>(s: seq<T>): seq<T> {
    if s == [] then [] else [s[|s| - 1]] + Reversed(s[..|s| - 1])
  }

  lemma {:induction false} ReversedAt<T>(s: seq<T>, i: nat)
    requires i < |s|
    ensures |Reversed(s)| == |s| && Reversed(s)[i] == s[|s| - 1 - i]
  {
    if i > 0 {
      ReversedAt(s[..|s| - 1], i - 1);
    } else if |s| > 1 {
      ReversedAt(s[..|s| - 1], 0);
    }
  }

  lemma ReversedLength<T>(s: seq<T>)
    ensures |Reversed(s)| == |s|
  {
    if s != [] { ReversedAt(s, 0); }
  }

  lemma ReversedPush<T>(s: seq<T>, x: T)
    ensures Reversed(s + [x]) == [x] + Reversed(s)
  {
    assert (s + [x])[..|s|] == s;
  }

  lemma ReadNext(done: seq<Listed>, token: string, rest: seq<string>)
    ensures Join(done, ReadLines([token] + rest)) ==
      match ReadLine(token)
      case None => done
      case Some(s) => Join(Join(done, [s]), ReadLines(rest))
  {
    hide ReadLine;
    assert ([token] + rest)[1..] == rest;
    match ReadLine(token)
    case None => JoinEmpty(done);
    case Some(s) => JoinAssoc(done, [s], ReadLines(rest));
  }

  /** A new list node for a parsed line. */
  method PushParsed(list: List<Server>, s: Listed) returns (server: Server)
    requires list.Valid()
    modifies list
    ensures list.Valid() && list.Items() == [server] + old(list.Items())
    ensures fresh(server) && server.fd == -2 && Listed(server.name, server.ip, server.udp, server.tcp) == s
    ensures |list.nodes| > 0 && fresh(list.nodes[0]) && list.nodes[1..] == old(list.nodes)
  {
    hide List.Items;
    server := new Server(s.name, s.ip, s.udp, s.tcp);
    server.fd := -2;
    list.PushItem(server);
  }

  /** The entries that a parser has made: different objects, none of them tried yet, which say
      what has been read. */
  ghost predicate Made(added: seq<Server>, read: seq<Listed>)
    reads added
  {
    && NoRepeats(added)
    && (forall i :: 0 <= i < |added| ==> added[i].fd == -2)
    && Describe(added) == Reversed(read)
  }

  lemma MadeOne(server: Server, added: seq<Server>, read: seq<Listed>, s: Listed)
    requires Made(added, read) && server !in added && server.fd == -2
    requires Listed(server.name, server.ip, server.udp, server.tcp) == s
    ensures Made([server] + added, Join(read, [s]))
    ensures forall items :: [server] + Join(added, items) == Join([server] + added, items)
  {
    AppendOne(read, s);
    ReversedPush(read, s);
    DescribeFirst(server, added);
    assert ([server] + added)[1..] == added;
    forall items: seq<Server> ensures [server] + Join(added, items) == Join([server] + added, items) {
      JoinAssoc([server], added, items);
    }
  }

  lemma NothingMade()
    ensures Made([], [])
  {
  }

  /** The lines behind the first. */
  function Body(reply: string): seq<string> {
    var tokens := Tokens(reply);
    if tokens == [] then [] else tokens[1..]
  }

  /** `parse_servers` of the client: the first line is skipped unread, and the list ends at the
      first malformed line. */
  method ParseForClient(reply: string) returns (list: List<Server>)
    ensures list.Valid() && fresh(list) && fresh(list.nodes) && fresh(list.Items())
    ensures Made(list.Items(), ReadLines(Body(reply)))
  {
    hide Tokens;
    hide StrTok;
    hide ReadLine;
    hide ReadLines;
    hide Reversed;
    hide List.Items;
    hide Join;
    hide Made;
    list := new List<Server>();
    NothingMade();
    NothingRead();
    var first := StrTok(reply);
    PendingTokens(reply);
    if first.None? {
      return;
    }
    var next := StrTok(first.value.1);
    PendingTokens(first.value.1);
    ghost var done: seq<Listed> := [];
    ghost var target := ReadLines(Pending(next));
    JoinEmpty(target);
    while next.Some?
      invariant list.Valid() && fresh(list) && fresh(list.nodes) && fresh(list.Items())
      invariant Made(list.Items(), done)
      invariant Join(done, ReadLines(Pending(next))) == target
      decreases |Pending(next)|
    {
      var (token, rest) := next.value;
      ReadNext(done, token, Tokens(rest));
      var parsed := ReadLine(token);
      if parsed.None? {
        return;
      }
      ghost var made := list.Items();
      var server := PushParsed(list, parsed.value);
      MadeOne(server, made, done, parsed.value);
      done := Join(done, [parsed.value]);
      next := StrTok(rest);
      PendingTokens(rest);
    }
    JoinEmpty(done);
  }

  lemma NothingRead()
    ensures ReadLines([]) == [] && AllWellFormed([]) && Reversed<Listed>([]) == []
  {
  }

  lemma AppendOne<T>(a: seq<T>, x: T)
    ensures Join(a, [x]) == a + [x]
  {
  }

  // ----- the server's reader, which does not advance past a malformed line -----

  /** The lines not yet read, the current one first, and the list so far. */
  datatype Reading = Reading(pending: seq<string>, list: seq<Listed>)

  /** One turn of the loop of `parse_servers`: a malformed line is looked at again. */
  function ReadingStep(r: Reading): Reading {
    if r.pending == [] || ReadLine(r.pending[0]).None? then r
    else Reading(r.pending[1..], [ReadLine(r.pending[0]).value] + r.list)
  }

  function ReadingSteps(r: Reading, n: nat): Reading
    decreases n
  {
    if n == 0 then r else ReadingSteps(ReadingStep(r), n - 1)
  }

  lemma {:induction false} StuckOnMalformed(r: Reading, n: nat)
    requires !AllWellFormed(r.pending)
    ensures ReadingSteps(r, n).pending != []
    decreases n
  {
    hide ReadLine;
    if n == 0 {
    } else {
      if ReadLine(r.pending[0]).Some? {
        assert !AllWellFormed(r.pending[1..]) by {
          var i :| 0 <= i < |r.pending| && ReadLine(r.pending[i]).None?;
          assert r.pending[1..][i - 1] == r.pending[i];
        }
      }
      StuckOnMalformed(ReadingStep(r), n - 1);
    }
  }

  lemma {:induction false} ReadsWellFormed(r: Reading, done: seq<Listed>)
    requires AllWellFormed(r.pending) && r.list == Reversed(done)
    ensures ReadingSteps(r, |r.pending|) == Reading([], Reversed(Join(done, ReadLines(r.pending))))
    decreases |r.pending|
  {
    hide ReadLine;
    if r.pending == [] {
      JoinEmpty(done);
    } else {
      var s := ReadLine(r.pending[0]).value;
      ReversedPush(done, s);
      AppendOne(done, s);
      ReadsWellFormed(ReadingStep(r), done + [s]);
      JoinAssoc(done, [s], ReadLines(r.pending[1..]));
    }
  }

  /** The server's reader comes to an end exactly if every line is well formed, and then it has
      the servers in reverse order. */
  lemma ServerReaderEnds(lines: seq<string>)
    ensures (exists n: nat :: ReadingSteps(Reading(lines, []), n).pending == []) <==> AllWellFormed(lines)
    ensures AllWellFormed(lines) ==>
      ReadingSteps(Reading(lines, []), |lines|) == Reading([], Reversed(ReadLines(lines)))
  {
    hide ReadLine;
    hide ReadingSteps;
    if AllWellFormed(lines) {
      ReadsWellFormed(Reading(lines, []), []);
    } else {
      forall n: nat ensures ReadingSteps(Reading(lines, []), n).pending != [] {
        StuckOnMalformed(Reading(lines, []), n);
      }
    }
  }

  /** The reply has a first line, and if that is the header, no malformed line behind it. */
  ghost predicate Readable(reply: string) {
    var tokens := Tokens(reply);
    tokens != [] && (tokens[0] == HEADER ==> AllWellFormed(tokens[1..]))
  }

  /** `parse_servers` of the server, for replies on which it ends: the header has to be right,
      and the servers are pushed onto the list in front of what it holds. */
  method ParseForServer(reply: string, list: List<Server>) returns (code: nat, ghost added: seq<Server>)
    requires list.Valid() && Readable(reply)
    modifies list
    ensures list.Valid() && list.Items() == added + old(list.Items()) && fresh(added)
    ensures code == 1 ==> list.Items() == old(list.Items())
    ensures code == if Tokens(reply)[0] == HEADER then 0 else 1
    ensures Made(added, if code == 0 then ReadLines(Body(reply)) else [])
  {
    hide Tokens;
    hide StrTok;
    hide ReadLine;
    hide ReadLines;
    hide Reversed;
    hide AllWellFormed;
    hide List.Items;
    hide Join;
    hide Made;
    var first := StrTok(reply);
    PendingTokens(reply);
    NothingRead();
    NothingMade();
    added := [];
    ghost var before := list.Items();
    JoinIsConcatenation(added, before);
    if first.value.0 != HEADER {
      return 1, [];
    }
    var next := StrTok(first.value.1);
    PendingTokens(first.value.1);
    ghost var done: seq<Listed> := [];
    ghost var target := ReadLines(Pending(next));
    JoinEmpty(target);
    while next.Some?
      invariant list.Valid() && AllWellFormed(Pending(next))
      invariant list.Items() == Join(added, before) && fresh(added)
      invariant Made(added, done)
      invariant Join(done, ReadLines(Pending(next))) == target
      decreases |Pending(next)|
    {
      var (token, rest) := next.value;
      ReadNext(done, token, Tokens(rest));
      WellFormedNext(token, Tokens(rest));
      var parsed := ReadLine(token);
      var server := PushParsed(list, parsed.value);
      MadeOne(server, added, done, parsed.value);
      added := [server] + added;
      done := Join(done, [parsed.value]);
      next := StrTok(rest);
      PendingTokens(rest);
    }
    JoinEmpty(done);
    JoinIsConcatenation(added, before);
    code := 0;
  }

  lemma WellFormedNext(token: string, rest: seq<string>)
    requires AllWellFormed([token] + rest)
    ensures ReadLine(token).Some? && AllWellFormed(rest)
  {
    hide ReadLine;
    assert ([token] + rest)[0] == token;
    forall i | 0 <= i < |rest| ensures ReadLine(rest[i]).Some? {
      assert ([token] + rest)[i + 1] == rest[i];
    }
  }

  // ----- the round trip -----

  lemma {:induction false} PrintedPlain(servers: seq<Listed>)
    requires forall i :: 0 <= i < |servers| ==> Separable(servers[i])
    ensures '\0' !in PrintLines(servers)
  {
    if servers == [] {
    } else {
      DigitsAreDigits(servers[0].udp);
      DigitsAreDigits(servers[0].tcp);
      hide Digits;
      PrintedPlain(servers[1..]);
      assert '\0' !in PrintLine(servers[0]);
    }
  }

  /** What `get_servers` hands on of a reply: at most one buffer, read as a C string. */
  function Received(reply: string): string {
    CString(reply[..Min(RESPONSE_SIZE, |reply|)])
  }

  /** Of a longer reply only the first 512 characters are read. */
  lemma LongReplyCut(reply: string)
    requires '\0' !in reply
    ensures Received(reply) == reply[..Min(512, |reply|)]
  {
  }

  /** A printed registry that fits the buffer reads back: both readers accept the header, meet
      no malformed line, and end with the same servers, in reverse order. */
  lemma RegistryRoundTrip(servers: seq<Listed>)
    requires forall i :: 0 <= i < |servers| ==> Printable(servers[i])
    requires |PrintServers(servers)| < RESPONSE_SIZE
    ensures var tokens := Tokens(Received(PrintServers(servers)));
      && tokens != [] && tokens[0] == HEADER
      && AllWellFormed(tokens[1..])
      && ReadLines(Body(Received(PrintServers(servers)))) == servers
  {
    hide Tokens;
    hide PrintLines;
    hide ReadLines;
    hide AllWellFormed;
    hide Lines;
    hide TakeUntil;
    var text := PrintServers(servers);
    PrintedPlain(servers);
    PrintedTokens(servers);
    LinesRead(servers);
    assert forall i :: 0 <= i < |HEADER| ==> HEADER[i] != '\0';
    assert '\0' !in text;
    assert text[..Min(RESPONSE_SIZE, |text|)] == text;
  }

  // ----- registries with servers that cannot be read -----

  /** The number of servers in front of the first without a name or an address. */
  function Readables(servers: seq<Listed>): (k: nat)
    ensures k <= |servers|
    ensures forall i :: 0 <= i < k ==> servers[i].name != "" && servers[i].ip != ""
    ensures k < |servers| ==> servers[k].name == "" || servers[k].ip == ""
  {
    if servers == [] || servers[0].name == "" || servers[0].ip == "" then 0 else 1 + Readables(servers[1..])
  }

  /** The lines of a registry are read up to the first such server. */
  lemma {:induction false} ReadUpToNameless(servers: seq<Listed>)
    requires forall i :: 0 <= i < |servers| ==> Separable(servers[i])
    ensures ReadLines(Lines(servers)) == servers[..Readables(servers)]
    ensures AllWellFormed(Lines(servers)) <==> Readables(servers) == |servers|
    decreases |servers|
  {
    hide ReadLine;
    hide PrintLine;
    if servers == [] {
    } else {
      PrintedWellFormed(servers[0]);
      ReadUpToNameless(servers[1..]);
      var lines, rest := Lines(servers), Lines(servers[1..]);
      assert lines[0] == PrintLine(servers[0]) && lines[1..] == rest;
      if ReadLine(lines[0]).Some? {
        assert servers[..Readables(servers)] == [servers[0]] + servers[1..][..Readables(servers[1..])];
        assert AllWellFormed(lines) <==> AllWellFormed(rest) by {
          assert forall i :: 0 <= i < |rest| ==> lines[i + 1] == rest[i];
          assert forall i :: 0 < i < |lines| ==> lines[i] == rest[i - 1];
        }
      } else {
        assert !AllWellFormed(lines);
      }
    }
  }

  lemma ReceivedWhole(servers: seq<Listed>)
    requires forall i :: 0 <= i < |servers| ==> Separable(servers[i])
    requires |PrintServers(servers)| < 512
    ensures Tokens(Received(PrintServers(servers))) == ["SERVERS"] + Lines(servers)
  {
    hide Tokens;
    hide PrintLines;
    hide Lines;
    hide TakeUntil;
    var text := PrintServers(servers);
    PrintedPlain(servers);
    PrintedTokens(servers);
    assert forall i :: 0 <= i < |HEADER| ==> HEADER[i] != '\0';
    assert '\0' !in text;
    assert text[..Min(RESPONSE_SIZE, |text|)] == text;
  }

  /** A printed registry that fits one buffer, with servers of any names and addresses. The client
      reads it up to the first server without a name or an address; the server's own reader
      comes to an end if and only if there is no such server. */
  lemma RegistryRead(servers: seq<Listed>)
    requires forall i :: 0 <= i < |servers| ==> Separable(servers[i])
    requires |PrintServers(servers)| < 512
    ensures var reply := Received(PrintServers(servers));
      && Tokens(reply) != [] && Tokens(reply)[0] == "SERVERS"
      && ReadLines(Body(reply)) == servers[..Readables(servers)]
      && ((exists n: nat :: ReadingSteps(Reading(Body(reply), []), n).pending == []) <==>
            forall i :: 0 <= i < |servers| ==> servers[i].name != "" && servers[i].ip != "")
  {
    hide Tokens;
    hide ReadLines;
    hide AllWellFormed;
    hide ReadingSteps;
    hide PrintServers;
    ReceivedWhole(servers);
    var reply := Received(PrintServers(servers));
    assert Body(reply) == Lines(servers);
    hide Received;
    ReadUpToNameless(servers);
    ServerReaderEnds(Lines(servers));
  }
}
