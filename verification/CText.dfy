/** The pieces of the C library that the text formats of the message board rest on:
    `strtok` on newlines, the scanf directive that reads up to a stop character, decimal
    printing and reading, and the length limit of `snprintf`. */
module CText {

  datatype Option<+T> = None | Some(value: T)

  /** `uint_fast32_t` is a 64-bit unsigned type on the platforms the programs are built for. */
  const U64 := 0x1_0000_0000_0000_0000

  function Min(a: nat, b: nat): nat { if a < b then a else b }

  /** The last `n` elements, or all of them if there are fewer. */
  function LastN<T>(s: seq<T>, n: nat): seq<T> {
    if |s| <= n then s else s[|s| - n..]
  }

  lemma LastNSlice<T>(s: seq<T>, n: nat)
    requires n <= |s|
    ensures s[|s| - n..|s|] == LastN(s, n)
  {
  }

  /** Concatenation, written so that nothing is put in front of `b` when `a` is empty: as a
      defining equation this is much easier on the verifier than `a + b`. */
  function Join<T(==)>(a: seq<T>, b: seq<T>): seq<T> {
    if a == [] then b else a + b
  }

  lemma JoinIsConcatenation<T>(a: seq<T>, b: seq<T>)
    ensures Join(a, b) == a + b
  {
  }

  lemma JoinAssoc<T>(a: seq<T>, b: seq<T>, c: seq<T>)
    ensures Join(a, Join(b, c)) == Join(Join(a, b), c)
  {
    if a == [] {
    } else if b == [] {
      assert a + b == a;
    } else {
      assert a + (b + c) == a + b + c;
    }
  }

  lemma JoinEmpty<T>(a: seq<T>)
    ensures Join(a, []) == a && Join([], a) == a
  {
  }

  /** A buffer read as a C string: everything before the first NUL. */
  function CString(s: string): (r: string)
    ensures '\0' !in s ==> r == s
    ensures '\0' !in r && |r| <= |s| && r == s[..|r|]
    ensures |r| < |s| ==> s[|r|] == '\0'
  {
    TakeUntil(s, '\0')
  }

  /** The longest prefix without `stop`: what `%[^;]` and the scan inside `strtok` consume. */
  function TakeUntil(s: string, stop: char): (t: string)
    ensures |t| <= |s| && t == s[..|t|]
    ensures stop !in t
    ensures |t| < |s| ==> s[|t|] == stop
  {
    if s == "" || s[0] == stop then "" else [s[0]] + TakeUntil(s[1..], stop)
  }

  lemma {:induction false} TakeUntilStops(a: string, b: string, stop: char)
    requires stop !in a
    requires b != "" ==> b[0] == stop
    ensures TakeUntil(a + b, stop) == a
  {
    if a == "" {
      assert a + b == b;
    } else {
      assert (a + b)[0] == a[0] && (a + b)[1..] == a[1..] + b;
      TakeUntilStops(a[1..], b, stop);
    }
  }

  function SkipNewlines(s: string): (r: string)
    ensures |r| <= |s| && r == s[|s| - |r|..]
    ensures r != "" ==> r[0] != '\n'
  {
    if s != "" && s[0] == '\n' then SkipNewlines(s[1..]) else s
  }

  /** One call of `strtok(s, "\n")`: the next non-empty token and what follows it. */
  function StrTok(s: string): (r: Option<(string, string)>)
    ensures r.Some? ==> |r.value.1| < |s| && r.value.0 != "" && '\n' !in r.value.0
  {
    var start := SkipNewlines(s);
    if start == "" then None
    else
      var token := TakeUntil(start, '\n');
      Some((token, start[|token|..]))
  }

  /** All tokens `strtok` yields, in order. */
  function Tokens(s: string): seq<string>
    decreases |s|
  {
    match StrTok(s)
    case None => []
    case Some((token, rest)) => [token] + Tokens(rest)
  }

  /** The tokens still to come after a call of `strtok`, the current one first. */
  function Pending(next: Option<(string, string)>): seq<string> {
    match next
    case None => []
    case Some((token, rest)) => [token] + Tokens(rest)
  }

  lemma PendingTokens(s: string)
    ensures Tokens(s) == Pending(StrTok(s))
  {
  }

  lemma TokensSkipNewline(s: string)
    requires s != "" && s[0] == '\n'
    ensures Tokens(s) == Tokens(s[1..])
  {
    assert SkipNewlines(s) == SkipNewlines(s[1..]);
  }

  lemma TokensOfLine(line: string, rest: string)
    requires '\n' !in line
    ensures Tokens(line + "\n" + rest) == if line == "" then Tokens(rest) else [line] + Tokens(rest)
  {
    var s := line + "\n" + rest;
    if line == "" {
      assert s[1..] == rest;
      TokensSkipNewline(s);
    } else {
      assert s[0] == line[0];
      assert SkipNewlines(s) == s;
      assert s == line + ("\n" + rest);
      TakeUntilStops(line, "\n" + rest, '\n');
      assert s[|line|..] == "\n" + rest;
      TokensSkipNewline("\n" + rest);
      assert ("\n" + rest)[1..] == rest;
    }
  }

  // ----- decimal numbers -----

  predicate IsDigit(c: char) { '0' <= c <= '9' }

  predicate IsSpace(c: char) { c == ' ' || '\t' <= c <= '\r' }

  function DigitChar(d: nat): (c: char)
    requires d < 10
    ensures IsDigit(c)
  {
    '0' + d as char
  }

  /** `%d` on a non-negative value. */
  function Digits(n: nat): string {
    if n < 10 then [DigitChar(n)] else Digits(n / 10) + [DigitChar(n % 10)]
  }

  /** Passing a 64-bit clock through the `int` that `get_lc` returns. */
  function ToInt32(v: nat): int {
    (v + 0x8000_0000) % 0x1_0000_0000 - 0x8000_0000
  }

  function PrintInt(v: int): string {
    if v < 0 then "-" + Digits(-v) else Digits(v)
  }

  lemma {:induction false} DigitsAreDigits(n: nat)
    ensures Digits(n) != ""
    ensures forall c :: c in Digits(n) ==> IsDigit(c)
  {
    if n >= 10 { DigitsAreDigits(n / 10); }
  }

  function Pow10(k: nat): nat { if k == 0 then 1 else 10 * Pow10(k - 1) }

  lemma {:induction false} PowerSum(a: nat, b: nat)
    ensures Pow10(a + b) == Pow10(a) * Pow10(b)
  {
    if a == 0 {
    } else {
      PowerSum(a - 1, b);
    }
  }

  lemma {:induction false} DigitsLength(n: nat, k: nat)
    requires 0 < k && n < Pow10(k)
    ensures |Digits(n)| <= k
  {
    if n < 10 {
    } else {
      assert k > 1 && n / 10 < Pow10(k - 1);
      DigitsLength(n / 10, k - 1);
    }
  }

  /** No 64-bit number has more than twenty digits. */
  lemma DigitsOfU64(n: nat)
    requires n < U64
    ensures |Digits(n)| <= 20
  {
    assert Pow10(5) == 100000;
    PowerSum(5, 5);
    PowerSum(10, 10);
    DigitsLength(n, 20);
  }

  /** The digit loop shared by `atoi` and `%hu`. */
  function ReadDigits(s: string, acc: nat): nat {
    if s == "" || !IsDigit(s[0]) then acc
    else ReadDigits(s[1..], 10 * acc + (s[0] - '0') as nat)
  }

  function SkipSpaces(s: string): (r: string)
    ensures |r| <= |s|
  {
    if s != "" && IsSpace(s[0]) then SkipSpaces(s[1..]) else s
  }

  /** `atoi`: blanks, an optional sign, then digits; anything else reads as 0. */
  function Atoi(s: string): int {
    var t := SkipSpaces(s);
    if t != "" && t[0] == '-' then -(ReadDigits(t[1..], 0) as int)
    else if t != "" && t[0] == '+' then ReadDigits(t[1..], 0)
    else ReadDigits(t, 0)
  }

  lemma {:induction false} ReadPrinted(n: nat, rest: string)
    ensures ReadDigits(Digits(n) + rest, 0) == ReadDigits(rest, n)
  {
    if n < 10 {
      assert (Digits(n) + rest)[1..] == rest;
    } else {
      var d := [DigitChar(n % 10)];
      assert Digits(n) + rest == Digits(n / 10) + (d + rest);
      ReadPrinted(n / 10, d + rest);
      assert (d + rest)[1..] == rest;
    }
  }

  /** Printing a number and reading it back is the identity. */
  lemma AtoiPrinted(n: nat)
    ensures Atoi(Digits(n)) == n
  {
    ReadPrinted(n, "");
    assert Digits(n) + "" == Digits(n);
    DigitsAreDigits(n);
    assert IsDigit(Digits(n)[0]);
  }

  lemma NothingToRead(rest: string, acc: nat)
    requires rest == "" || !IsDigit(rest[0])
    ensures ReadDigits(rest, acc) == acc
  {
  }

  lemma {:induction false} SpacesSkipped(blanks: string, rest: string)
    requires forall i :: 0 <= i < |blanks| ==> IsSpace(blanks[i])
    requires rest == "" || !IsSpace(rest[0])
    ensures SkipSpaces(blanks + rest) == rest
  {
    if blanks == "" {
      assert blanks + rest == rest;
    } else {
      assert (blanks + rest)[0] == blanks[0] && (blanks + rest)[1..] == blanks[1..] + rest;
      SpacesSkipped(blanks[1..], rest);
    }
  }

  /** `atoi` on blanks, a sign and a number, whatever follows the number. */
  lemma AtoiOf(blanks: string, n: nat, rest: string)
    requires forall i :: 0 <= i < |blanks| ==> IsSpace(blanks[i])
    requires rest == "" || !IsDigit(rest[0])
    ensures Atoi(blanks + (Digits(n) + rest)) == n
    ensures Atoi(blanks + ("-" + (Digits(n) + rest))) == -(n as int)
    ensures Atoi(blanks + ("+" + (Digits(n) + rest))) == n
  {
    hide Digits;
    hide ReadDigits;
    hide SkipSpaces;
    DigitsAreDigits(n);
    ReadPrinted(n, rest);
    NothingToRead(rest, n);
    var s := Digits(n) + rest;
    assert s[0] == Digits(n)[0] && IsDigit(s[0]);
    SpacesSkipped(blanks, s);
    SpacesSkipped(blanks, "-" + s);
    SpacesSkipped(blanks, "+" + s);
    assert ("-" + s)[1..] == s && ("+" + s)[1..] == s;
  }

  /** Anything else reads as 0. */
  lemma AtoiNone(blanks: string, rest: string)
    requires forall i :: 0 <= i < |blanks| ==> IsSpace(blanks[i])
    requires rest == "" || (!IsSpace(rest[0]) && !IsDigit(rest[0]))
    ensures rest == "" || (rest[0] != '-' && rest[0] != '+') ==> Atoi(blanks + rest) == 0
    ensures Atoi(blanks + ("-" + rest)) == 0 && Atoi(blanks + ("+" + rest)) == 0
  {
    SpacesSkipped(blanks, rest);
    SpacesSkipped(blanks, "-" + rest);
    SpacesSkipped(blanks, "+" + rest);
    assert ("-" + rest)[1..] == rest && ("+" + rest)[1..] == rest;
  }

  /** Any integer reads back. */
  lemma PrintedInt(v: int)
    ensures Atoi(PrintInt(v)) == v
  {
    var n := if v < 0 then -v else v;
    AtoiOf("", n, "");
    assert "" + (Digits(n) + "") == Digits(n);
    assert "" + ("-" + (Digits(n) + "")) == "-" + Digits(n);
  }

  /** The `int` that a clock passes through: the same up to multiples of 2^32, and within range. */
  lemma Int32Cut(v: nat)
    ensures -0x8000_0000 <= ToInt32(v) < 0x8000_0000
    ensures (v - ToInt32(v)) % 0x1_0000_0000 == 0
    ensures v < 0x8000_0000 ==> ToInt32(v) == v
  {
  }

  /** `snprintf(buffer, limit, ...)` keeps at most `limit - 1` characters. */
  function Snprintf(limit: nat, s: string): string
    requires 0 < limit
  {
    if |s| < limit then s else s[..limit - 1]
  }
}
