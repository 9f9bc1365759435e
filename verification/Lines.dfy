/** The reference reading of a byte stream as lines: what a receiver should analyse. */
module Lines {
  import opened CText

  /** The non-empty newline-terminated lines of `s`, when `partial` has been read before it. */
  function Scan(partial: string, s: string): seq<string>
    decreases |s|
  {
    if s == "" then []
    else if s[0] != '\n' then Scan(Join(partial, [s[0]]), s[1..])
    else if partial == "" then Scan("", s[1..])
    else [partial] + Scan("", s[1..])
  }

  /** The unterminated rest. */
  function Rest(partial: string, s: string): string
    decreases |s|
  {
    if s == "" then partial
    else if s[0] != '\n' then Rest(Join(partial, [s[0]]), s[1..])
    else Rest("", s[1..])
  }

  lemma {:induction false} ScanConcat(partial: string, a: string, b: string)
    ensures Scan(partial, a + b) == Join(Scan(partial, a), Scan(Rest(partial, a), b))
    ensures Rest(partial, a + b) == Rest(Rest(partial, a), b)
    decreases |a|
  {
    if a == "" {
      assert a + b == b;
    } else {
      var s := a + b;
      assert s[0] == a[0] && s[1..] == a[1..] + b;
      if a[0] != '\n' {
        ScanConcat(Join(partial, [a[0]]), a[1..], b);
      } else {
        ScanConcat("", a[1..], b);
        if partial != "" {
          JoinAssoc([partial], Scan("", a[1..]), Scan(Rest("", a[1..]), b));
        }
      }
    }
  }

  lemma {:induction false} ScanPlain(partial: string, a: string)
    requires '\n' !in a
    ensures Scan(partial, a) == []
    ensures Rest(partial, a) == Join(partial, a)
    decreases |a|
  {
    if a != "" {
      ScanPlain(Join(partial, [a[0]]), a[1..]);
      assert [a[0]] + a[1..] == a;
      JoinAssoc(partial, [a[0]], a[1..]);
    } else {
      JoinEmpty(partial);
    }
  }

  lemma ScanLine(line: string, rest: string)
    requires '\n' !in line
    ensures Scan("", line + "\n" + rest) == if line == "" then Scan("", rest) else [line] + Scan("", rest)
    ensures Rest("", line + "\n" + rest) == Rest("", rest)
  {
    ScanPlain("", line);
    assert line + "\n" + rest == line + ("\n" + rest);
    ScanConcat("", line, "\n" + rest);
    assert ("\n" + rest)[1..] == rest;
  }

  /** A text put in front lengthens the first line, or else the rest. */
  function Prefixed(p: string, lines: seq<string>): (r: seq<string>)
    ensures |r| == |lines|
  {
    if lines == [] then [] else [Join(p, lines[0])] + lines[1..]
  }

  lemma {:induction false} ScanPrefix(p: string, q: string, s: string)
    requires q != "" || s == "" || s[0] != '\n'
    ensures Scan(Join(p, q), s) == Prefixed(p, Scan(q, s))
    ensures Rest(Join(p, q), s) == if Scan(q, s) == [] then Join(p, Rest(q, s)) else Rest(q, s)
    decreases |s|
  {
    if s != "" && s[0] != '\n' {
      JoinAssoc(p, q, [s[0]]);
      ScanPrefix(p, Join(q, [s[0]]), s[1..]);
    }
  }

  lemma {:induction false} RestEndsWithoutNewline(partial: string, s: string)
    requires s != ""
    ensures Rest(partial, s) == "" <==> s[|s| - 1] == '\n'
    decreases |s|
  {
    var next := if s[0] == '\n' then "" else Join(partial, [s[0]]);
    if |s| > 1 { RestEndsWithoutNewline(next, s[1..]); }
  }
}
