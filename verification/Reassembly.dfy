/** How `server_treat_communications` puts lines together from chunks:
    src/msgserv/message.c, lines 205-266. */
module Reassembly {
  import opened CText
  import opened Messages
  import opened Lines

  /** What one `recv` call delivers: it asks for at most `STRING_SIZE - 1` bytes. */
  type Chunk = c: string | 1 <= |c| < STRING_SIZE witness "x"

  const ANALYZE_SIZE := 3 * STRING_SIZE

  /** The line handed on for a token, given the text held back from earlier chunks. */
  function Analyzed(hold: string, token: string): string {
    if hold == "" then token else Snprintf(ANALYZE_SIZE, hold + token)
  }

  /** A line put together from more text than the buffer holds loses its end. */
  lemma LongLineCut(hold: string, token: string)
    requires hold != "" && 423 <= |hold| + |token|
    ensures |Analyzed(hold, token)| == 422 && Analyzed(hold, token) <= hold + token
  {
  }

  predicate EndsLine(c: string) { c != "" && c[|c| - 1] == '\n' }

  /** The token loop over one chunk: the lines handed on and the text then held. A token that
      is not the last clears the hold; the last token of a chunk that ends with a newline uses
      the hold without clearing it. */
  function Assemble(hold: string, tokens: seq<string>, ends: bool): (seq<string>, string)
    decreases |tokens|
  {
    if tokens == [] then ([], hold)
    else if |tokens| > 1 then
      var (lines, last) := Assemble("", tokens[1..], ends);
      ([Analyzed(hold, tokens[0])] + lines, last)
    else if ends then ([Analyzed(hold, tokens[0])], hold)
    else ([], Join(hold, tokens[0]))
  }

  function AssembleChunk(hold: string, c: string): (seq<string>, string) {
    Assemble(hold, Tokens(CString(c)), EndsLine(c))
  }

  /** All lines handed on while the chunks of one call arrive. */
  function Feed(hold: string, chunks: seq<Chunk>): seq<string>
    decreases |chunks|
  {
    if chunks == [] then []
    else
      var (lines, last) := AssembleChunk(hold, chunks[0]);
      Join(lines, Feed(last, chunks[1..]))
  }

  function Stream(chunks: seq<Chunk>): string {
    if chunks == [] then "" else chunks[0] + Stream(chunks[1..])
  }

  // ----- one chunk, in terms of the reference reading -----

  /** Lines, and behind them an unterminated rest if there is one. */
  function WithRest(lines: seq<string>, rest: string): seq<string> {
    if rest == "" then lines else Join(lines, [rest])
  }

  lemma WithRestFirst(line: string, lines: seq<string>, rest: string)
    ensures WithRest([line] + lines, rest) == [line] + WithRest(lines, rest)
  {
    JoinAssoc([line], lines, [rest]);
  }

  lemma {:induction false} TokensAreLines(s: string)
    ensures Tokens(s) == WithRest(Scan("", s), Rest("", s))
    decreases |s|
  {
    if s == "" {
    } else if s[0] == '\n' {
      TokensSkipNewline(s);
      TokensAreLines(s[1..]);
    } else {
      hide Scan;
      hide Rest;
      hide Tokens;
      hide WithRest;
      var token := TakeUntil(s, '\n');
      if |token| == |s| {
        ScanPlain("", s);
        SingleToken(s);
        RestAlone(s);
      } else {
        var rest := s[|token| + 1..];
        assert s == token + "\n" + rest;
        TokensOfLine(token, rest);
        ScanLine(token, rest);
        TokensAreLines(rest);
        WithRestFirst(token, Scan("", rest), Rest("", rest));
      }
    }
  }

  lemma RestAlone(rest: string)
    requires rest != ""
    ensures WithRest([], rest) == [rest]
  {
  }

  lemma SingleToken(s: string)
    requires s != "" && '\n' !in s
    ensures Tokens(s) == [s]
  {
    var token := TakeUntil(s, '\n');
    assert |token| == |s|;
    assert token == s && s[|token|..] == "";
    assert StrTok(s) == Some((s, ""));
    assert Tokens("") == [];
  }

  /** The first line gets the held text in front of it. */
  function Joined(hold: string, lines: seq<string>): (r: seq<string>)
    ensures |r| == |lines|
  {
    if lines == [] then [] else [Analyzed(hold, lines[0])] + lines[1..]
  }

  lemma {:induction false} AssembleWithoutHold(tokens: seq<string>, lines: seq<string>, rest: string)
    requires tokens == WithRest(lines, rest)
    requires tokens != []
    ensures Assemble("", tokens, rest == "").0 == lines
    ensures Assemble("", tokens, rest == "").1 == rest
    decreases |tokens|
  {
    if lines == [] {
    } else {
      assert tokens[0] == lines[0] && [lines[0]] + lines[1..] == lines;
      if |tokens| > 1 { AssembleWithoutHold(tokens[1..], lines[1..], rest); }
    }
  }

  function HoldAfter(hold: string, lines: seq<string>, rest: string): string {
    if lines == [] then Join(hold, rest) else if |lines| == 1 && rest == "" then hold else rest
  }

  /** The token loop with a hold: the hold goes in front of the first line, and what is held
      afterwards is the rest, except after a single line that ends the chunk. */
  lemma AssembleWithHold(hold: string, tokens: seq<string>, lines: seq<string>, rest: string)
    requires tokens == WithRest(lines, rest)
    requires tokens != []
    ensures Assemble(hold, tokens, rest == "").0 == Joined(hold, lines)
    ensures Assemble(hold, tokens, rest == "").1 == HoldAfter(hold, lines, rest)
  {
    hide Analyzed;
    if |tokens| > 1 {
      assert tokens[0] == lines[0];
      AssembleWithoutHold(tokens[1..], lines[1..], rest);
    }
  }

  /** A chunk's lines are the reference lines with the hold in front. */
  lemma ChunkEffect(hold: string, c: Chunk)
    requires '\0' !in c
    ensures AssembleChunk(hold, c).0 == Joined(hold, Scan("", c))
    ensures AssembleChunk(hold, c).1 == HoldAfter(hold, Scan("", c), Rest("", c))
  {
    hide Scan;
    hide Rest;
    hide Tokens;
    TokensAreLines(c);
    RestEndsWithoutNewline("", c);
    if Tokens(c) == [] {
      JoinEmpty(hold);
    } else {
      AssembleWithHold(hold, Tokens(c), Scan("", c), Rest("", c));
    }
  }

  // ----- when chunking does not matter -----

  predicate OnlyNewlines(c: string) { forall i :: 0 <= i < |c| ==> c[i] == '\n' }

  predicate AllOnlyNewlines(chunks: seq<Chunk>) {
    forall i :: 0 <= i < |chunks| ==> OnlyNewlines(chunks[i])
  }

  /** One line and the newline that ends it, perhaps with further newlines around it. */
  predicate SingleLine(c: string) { EndsLine(c) && |Tokens(c)| == 1 }

  /** The chunk boundaries that the loop copes with. While a line is incomplete (`open`), the
      next chunk must not start with the newline that completes it; nor may it be the end of
      that line and nothing more, unless only newlines follow. */
  predicate Harmless(open: bool, chunks: seq<Chunk>)
    decreases |chunks|
  {
    chunks == [] ||
    (&& (open ==> chunks[0][0] != '\n' && (SingleLine(chunks[0]) ==> AllOnlyNewlines(chunks[1..])))
     && Harmless(!EndsLine(chunks[0]), chunks[1..]))
  }

  ghost predicate LinesShort(lines: seq<string>) {
    forall i :: 0 <= i < |lines| ==> |lines[i]| < ANALYZE_SIZE - 1
  }

  /** A stream that ends with a newline and whose lines fit the analysis buffer. */
  ghost predicate Complete(partial: string, chunks: seq<Chunk>) {
    && (forall i :: 0 <= i < |chunks| ==> '\0' !in chunks[i])
    && Rest(partial, Stream(chunks)) == ""
    && LinesShort(Scan(partial, Stream(chunks)))
  }

  lemma CompleteTail(partial: string, chunks: seq<Chunk>)
    requires chunks != [] && Complete(partial, chunks)
    ensures Complete(Rest(partial, chunks[0]), chunks[1..])
    ensures LinesShort(Scan(partial, chunks[0]))
    ensures Scan(partial, Stream(chunks)) ==
            Join(Scan(partial, chunks[0]), Scan(Rest(partial, chunks[0]), Stream(chunks[1..])))
  {
    ScanConcat(partial, chunks[0], Stream(chunks[1..]));
    var first := Scan(partial, chunks[0]);
    var rest := Scan(Rest(partial, chunks[0]), Stream(chunks[1..]));
    assert forall i :: 0 <= i < |first| ==> Join(first, rest)[i] == first[i];
    assert forall i :: 0 <= i < |rest| ==> Join(first, rest)[|first| + i] == rest[i];
  }

  /** The reference reading of a chunk, with and without the incomplete line before it. */
  lemma ReferenceChunk(partial: string, c: Chunk)
    ensures partial != "" && c[0] == '\n' ==>
      Scan(partial, c) == [partial] + Scan("", c) && Rest(partial, c) == Rest("", c)
    ensures partial == "" || c[0] != '\n' ==>
      && Scan(partial, c) == Prefixed(partial, Scan("", c))
      && Rest(partial, c) == if Scan("", c) == [] then Join(partial, Rest("", c)) else Rest("", c)
  {
    if partial == "" {
      var lines := Scan("", c);
      assert Prefixed("", lines) == lines;
    } else if c[0] != '\n' {
      JoinEmpty(partial);
      ScanPrefix(partial, "", c);
    }
  }

  /** However the stream is cut, the loop never hands on more lines than there are. */
  lemma {:induction false} FeedCount(hold: string, partial: string, chunks: seq<Chunk>)
    requires forall i :: 0 <= i < |chunks| ==> '\0' !in chunks[i]
    ensures |Feed(hold, chunks)| <= |Scan(partial, Stream(chunks))|
    decreases |chunks|
  {
    if chunks == [] {
    } else {
      ChunkEffect(hold, chunks[0]);
      ReferenceChunk(partial, chunks[0]);
      ScanConcat(partial, chunks[0], Stream(chunks[1..]));
      FeedCount(AssembleChunk(hold, chunks[0]).1, Rest(partial, chunks[0]), chunks[1..]);
    }
  }

  /** A newline that completes an open line at the start of a chunk loses that line. */
  lemma LostLine(hold: string, partial: string, chunks: seq<Chunk>)
    requires Complete(partial, chunks) && chunks != [] && partial != "" && chunks[0][0] == '\n'
    ensures Feed(hold, chunks) != Scan(partial, Stream(chunks))
  {
    ChunkEffect(hold, chunks[0]);
    ReferenceChunk(partial, chunks[0]);
    CompleteTail(partial, chunks);
    FeedCount(AssembleChunk(hold, chunks[0]).1, Rest(partial, chunks[0]), chunks[1..]);
  }

  /** When neither reading finds a line in a chunk, the comparison moves to the rest. */
  lemma FeedPastChunk(hold: string, partial: string, chunks: seq<Chunk>)
    requires Complete(partial, chunks) && chunks != []
    requires partial == "" || chunks[0][0] != '\n'
    requires Scan("", chunks[0]) == []
    ensures var c := chunks[0];
      && Feed(hold, chunks) == Feed(Join(hold, Rest("", c)), chunks[1..])
      && Rest(partial, c) == Join(partial, Rest("", c))
      && Scan(partial, Stream(chunks)) == Scan(Join(partial, Rest("", c)), Stream(chunks[1..]))
      && Complete(Join(partial, Rest("", c)), chunks[1..])
  {
    ChunkEffect(hold, chunks[0]);
    ReferenceChunk(partial, chunks[0]);
    CompleteTail(partial, chunks);
  }

  /** When both find a line, a longer hold makes the first lines differ. */
  lemma FeedSpoiltChunk(hold: string, partial: string, chunks: seq<Chunk>)
    requires Complete(partial, chunks) && chunks != [] && |hold| > |partial|
    requires partial == "" || chunks[0][0] != '\n'
    requires Scan("", chunks[0]) != []
    ensures Feed(hold, chunks) != Scan(partial, Stream(chunks))
  {
    var c := chunks[0];
    hide Scan;
    hide Rest;
    hide AssembleChunk;
    hide Analyzed;
    hide LinesShort;
    ChunkEffect(hold, c);
    ReferenceChunk(partial, c);
    CompleteTail(partial, chunks);
    LongerFirst(hold, partial, Scan("", c));
    DifferentFirst(AssembleChunk(hold, c).0, Scan(partial, c), Feed(AssembleChunk(hold, c).1, chunks[1..]),
                   Scan(Rest(partial, c), Stream(chunks[1..])));
  }

  /** A longer hold makes a first line of another length, even where it is cut. */
  lemma LongerFirst(hold: string, partial: string, lines: seq<string>)
    requires lines != [] && |hold| > |partial| && LinesShort(Prefixed(partial, lines))
    ensures |Joined(hold, lines)[0]| != |Prefixed(partial, lines)[0]|
  {
    assert |Prefixed(partial, lines)[0]| < ANALYZE_SIZE - 1;
  }

  lemma DifferentFirst(a: seq<string>, b: seq<string>, restA: seq<string>, restB: seq<string>)
    requires a != [] && b != [] && |a[0]| != |b[0]|
    ensures Join(a, restA) != Join(b, restB)
  {
    assert Join(a, restA)[0] == a[0] && Join(b, restB)[0] == b[0];
  }

  /** A hold longer than the open line spoils the line when it is completed. */
  lemma {:induction false} SpoiledLine(hold: string, partial: string, chunks: seq<Chunk>)
    requires Complete(partial, chunks)
    requires partial != "" && |hold| > |partial|
    ensures Feed(hold, chunks) != Scan(partial, Stream(chunks))
    decreases |chunks|
  {
    if chunks != [] && chunks[0][0] == '\n' {
      LostLine(hold, partial, chunks);
    } else if chunks != [] {
      var rest := Rest("", chunks[0]);
      if Scan("", chunks[0]) == [] {
        FeedPastChunk(hold, partial, chunks);
        SpoiledLine(Join(hold, rest), Join(partial, rest), chunks[1..]);
      } else {
        FeedSpoiltChunk(hold, partial, chunks);
      }
    }
  }

  lemma {:induction false} NewlinesAreNoLines(c: string)
    ensures OnlyNewlines(c) <==> Scan("", c) == [] && Rest("", c) == ""
    decreases |c|
  {
    if c != "" && c[0] == '\n' {
      NewlinesAreNoLines(c[1..]);
      if OnlyNewlines(c[1..]) {
        forall i | 0 <= i < |c| ensures c[i] == '\n' { if i > 0 { assert c[i] == c[1..][i - 1]; } }
      }
    } else if c != "" {
      ScanRestNonEmpty([c[0]], c[1..]);
    }
  }

  lemma {:induction false} ScanRestNonEmpty(partial: string, s: string)
    requires partial != ""
    ensures Scan(partial, s) != [] || Rest(partial, s) != ""
    decreases |s|
  {
    if s != "" && s[0] != '\n' { ScanRestNonEmpty(Join(partial, [s[0]]), s[1..]); }
  }

  /** A hold left over after its line was handed on is harmless only while nothing but
      newlines follows. */
  lemma {:induction false} StaleHold(hold: string, chunks: seq<Chunk>)
    requires Complete("", chunks) && hold != ""
    ensures Feed(hold, chunks) == Scan("", Stream(chunks)) <==> AllOnlyNewlines(chunks)
    decreases |chunks|
  {
    if chunks == [] {
    } else {
      var c := chunks[0];
      NewlinesAreNoLines(c);
      if Scan("", c) != [] {
        FeedSpoiltChunk(hold, "", chunks);
      } else {
        FeedPastChunk(hold, "", chunks);
        if OnlyNewlines(c) {
          JoinEmpty(hold);
          StaleHold(hold, chunks[1..]);
          NewlinesFirst(chunks);
        } else {
          SpoiledLine(Join(hold, Rest("", c)), Rest("", c), chunks[1..]);
        }
      }
    }
  }

  lemma NewlinesFirst(chunks: seq<Chunk>)
    requires chunks != [] && OnlyNewlines(chunks[0])
    ensures AllOnlyNewlines(chunks) <==> AllOnlyNewlines(chunks[1..])
  {
    if AllOnlyNewlines(chunks[1..]) {
      forall i | 0 <= i < |chunks| ensures OnlyNewlines(chunks[i]) {
        if i > 0 { assert chunks[i] == chunks[1..][i - 1]; }
      }
    }
  }

  lemma {:induction false} NewlinesHarmless(chunks: seq<Chunk>)
    requires AllOnlyNewlines(chunks)
    ensures Harmless(false, chunks)
    decreases |chunks|
  {
    if chunks == [] {
    } else {
      NewlinesHarmless(chunks[1..]);
    }
  }

  lemma SamePrefix(a: seq<string>, restA: seq<string>, restB: seq<string>)
    ensures Join(a, restA) == Join(a, restB) <==> restA == restB
  {
    if a != [] && a + restA == a + restB {
      assert restA == (a + restA)[|a|..] == (a + restB)[|a|..] == restB;
    }
  }

  /** A chunk that both readings take the same way leaves the comparison to the rest. */
  lemma FeedTogether(hold: string, chunks: seq<Chunk>)
    requires Complete(hold, chunks) && chunks != []
    requires hold == "" || chunks[0][0] != '\n'
    ensures var c := chunks[0];
      Feed(hold, chunks) == Scan(hold, Stream(chunks)) <==>
      Feed(HoldAfter(hold, Scan("", c), Rest("", c)), chunks[1..]) == Scan(Rest(hold, c), Stream(chunks[1..]))
  {
    hide Scan;
    hide Rest;
    hide AssembleChunk;
    var c := chunks[0];
    ChunkEffect(hold, c);
    ReferenceChunk(hold, c);
    CompleteTail(hold, chunks);
    JoinedIsPrefixed(hold, Scan("", c));
    SamePrefix(Scan(hold, c), Feed(AssembleChunk(hold, c).1, chunks[1..]), Scan(Rest(hold, c), Stream(chunks[1..])));
  }

  lemma JoinedIsPrefixed(hold: string, lines: seq<string>)
    requires LinesShort(Prefixed(hold, lines))
    ensures Joined(hold, lines) == Prefixed(hold, lines)
  {
    if lines != [] { assert |Prefixed(hold, lines)[0]| < ANALYZE_SIZE - 1; }
  }

  lemma SingleLineMeans(c: Chunk)
    requires '\0' !in c
    ensures EndsLine(c) <==> Rest("", c) == ""
    ensures SingleLine(c) <==> |Scan("", c)| == 1 && Rest("", c) == ""
  {
    RestEndsWithoutNewline("", c);
    TokensAreLines(c);
  }

  lemma {:induction false} InStep(hold: string, chunks: seq<Chunk>)
    requires Complete(hold, chunks)
    ensures Feed(hold, chunks) == Scan(hold, Stream(chunks)) <==> Harmless(hold != "", chunks)
    decreases |chunks|
  {
    if chunks == [] {
    } else {
      if hold != "" && chunks[0][0] == '\n' {
        LostLine(hold, hold, chunks);
      } else {
        hide Scan;
        hide Rest;
        hide Feed;
        hide SingleLine;
        hide EndsLine;
        var c := chunks[0];
        FeedTogether(hold, chunks);
        CompleteTail(hold, chunks);
        ReferenceChunk(hold, c);
        SingleLineMeans(c);
        RestEndsWithoutNewline(hold, c);
        RestEndsWithoutNewline("", c);
        if hold != "" && SingleLine(c) {
          StaleHold(hold, chunks[1..]);
          if AllOnlyNewlines(chunks[1..]) { NewlinesHarmless(chunks[1..]); }
        } else {
          InStep(Rest(hold, c), chunks[1..]);
        }
      }
    }
  }

  /** Chunking does not matter exactly when every chunk boundary is harmless: for every stream
      that ends with a newline and every way of cutting it, the lines handed on are the
      non-empty lines of the stream, in order, if and only if no open line is completed by a
      chunk that starts with the newline, and none by a chunk that holds nothing further while
      another line follows. */
  lemma ChunkingTheorem(chunks: seq<Chunk>)
    requires Complete("", chunks)
    ensures Feed("", chunks) == Scan("", Stream(chunks)) <==> Harmless(false, chunks)
  {
    InStep("", chunks);
  }

  // ----- the two excluded shapes, on the smallest streams -----

  /** Text that fits a chunk together with the newline behind it. */
  predicate Word(s: string) { 0 < |s| < STRING_SIZE - 1 && '\n' !in s && '\0' !in s }

  function Ended(s: string): Chunk
    requires Word(s)
  {
    s + "\n"
  }

  lemma StreamOf(c: Chunk, rest: seq<Chunk>)
    ensures Stream([c] + rest) == c + Stream(rest)
    ensures forall hold :: Feed(hold, [c] + rest) == Join(AssembleChunk(hold, c).0, Feed(AssembleChunk(hold, c).1, rest))
  {
    hide AssembleChunk;
    assert ([c] + rest)[1..] == rest;
  }

  lemma EndedEffect(hold: string, s: string)
    requires Word(s) && |hold| < STRING_SIZE
    ensures Scan("", Ended(s)) == [s] && Rest("", Ended(s)) == ""
    ensures AssembleChunk(hold, Ended(s)) == ([Join(hold, s)], hold)
  {
    hide Scan;
    hide Rest;
    hide AssembleChunk;
    ScanLine(s, "");
    assert s + "\n" + "" == Ended(s);
    EmptyScan();
    ChunkEffect(hold, Ended(s));
    OneJoined(hold, s);
  }

  lemma OneJoined(hold: string, s: string)
    requires |hold| < STRING_SIZE && |s| < STRING_SIZE
    ensures Joined(hold, [s]) == [Join(hold, s)] && HoldAfter(hold, [s], "") == hold
  {
    assert [s][1..] == [];
  }

  lemma EmptyScan()
    ensures Scan("", "") == [] && Rest("", "") == ""
  {
  }

  lemma StartLine(a: string, rest: seq<Chunk>)
    requires Word(a)
    ensures Feed("", [a] + rest) == Feed(a, rest)
    ensures Scan("", Stream([a] + rest)) == Scan(a, Stream(rest))
  {
    hide Scan;
    hide Rest;
    hide AssembleChunk;
    StreamOf(a, rest);
    ScanPlain("", a);
    ChunkEffect("", a);
    ScanConcat("", a, Stream(rest));
  }

  lemma EndLine(hold: string, partial: string, s: string, rest: seq<Chunk>)
    requires Word(s) && |hold| < STRING_SIZE
    ensures Feed(hold, [Ended(s)] + rest) == [Join(hold, s)] + Feed(hold, rest)
    ensures Scan(partial, Stream([Ended(s)] + rest)) == [Join(partial, s)] + Scan("", Stream(rest))
  {
    hide Scan;
    hide Rest;
    hide AssembleChunk;
    StreamOf(Ended(s), rest);
    EndedEffect(hold, s);
    ReferenceChunk(partial, Ended(s));
    ScanConcat(partial, Ended(s), Stream(rest));
  }

  lemma BreakLine(a: string, rest: seq<Chunk>)
    requires Word(a)
    ensures Feed(a, ["\n"] + rest) == Feed(a, rest)
    ensures Scan(a, Stream(["\n"] + rest)) == [a] + Scan("", Stream(rest))
  {
    StreamOf("\n", rest);
    NewlinesAreNoLines("\n");
    hide Scan;
    hide Rest;
    hide AssembleChunk;
    ChunkEffect(a, "\n");
    ReferenceChunk(a, "\n");
    ScanConcat(a, "\n", Stream(rest));
    JoinEmpty(a);
    JoinEmpty(Scan("", Stream(rest)));
  }

  lemma Nothing(hold: string)
    ensures Feed(hold, []) == [] && Stream([]) == "" && Scan("", "") == []
  {
  }

  /** The text held back is used a second time: "a", "b\n", "c\n" is read as "ab", "ac". */
  lemma HeldTwice(a: string, b: string, c: string)
    requires Word(a) && Word(b) && Word(c)
    ensures Feed("", [a, Ended(b), Ended(c)]) == [a + b, a + c]
    ensures Scan("", Stream([a, Ended(b), Ended(c)])) == [a + b, c]
  {
    hide Feed;
    hide Scan;
    hide Stream;
    var last: seq<Chunk> := [Ended(c)];
    assert [Ended(c)] + [] == last;
    assert [a, Ended(b), Ended(c)] == [a] + ([Ended(b)] + last);
    StartLine(a, [Ended(b)] + last);
    EndLine(a, a, b, last);
    EndLine(a, "", c, []);
    Nothing(a);
  }

  /** The line break is skipped: "a", "\n", "c\n" is read as "ac". */
  lemma BreakSkipped(a: string, c: string)
    requires Word(a) && Word(c)
    ensures Feed("", [a, "\n", Ended(c)]) == [a + c]
    ensures Scan("", Stream([a, "\n", Ended(c)])) == [a, c]
  {
    hide Feed;
    hide Scan;
    hide Stream;
    var last: seq<Chunk> := [Ended(c)];
    assert [Ended(c)] + [] == last;
    assert [a, "\n", Ended(c)] == [a] + (["\n"] + last);
    StartLine(a, ["\n"] + last);
    BreakLine(a, last);
    EndLine(a, "", c, []);
    Nothing(a);
  }
}
