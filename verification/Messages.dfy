/** src/utils/struct_message.c: stamped messages and the text listing of the newest ones. */
module Messages {
  import opened CText
  import opened Boards
  import opened Matrices

  const STRING_SIZE := 141
  const TEXT_LIMIT := STRING_SIZE - 1

  type Message = Stamped<string>

  datatype Mode = WithoutClock | WithClock

  /** What `new_message` keeps of its argument. */
  function Clip(limit: nat, s: string): string { s[..Min(limit, |s|)] }

  /** One line of a listing: the text, in server-to-server listings after its clock. */
  function Line(mode: Mode, m: Message): string {
    if mode.WithClock? then PrintInt(ToInt32(m.clock)) + ";" + m.body else m.body
  }

  function Record(mode: Mode, m: Message): string { Line(mode, m) + "\n" }

  /** One line as it is appended when `n` messages were asked for: `snprintf` limits it to its
      local buffer, `strncat` to the size of the listing. */
  function Piece(mode: Mode, n: nat, m: Message): string {
    Clip(STRING_SIZE * n, Snprintf(2 * STRING_SIZE, Record(mode, m)))
  }

  function Render(mode: Mode, n: nat, ms: seq<Message>): string {
    if ms == [] then "" else Join(Piece(mode, n, ms[0]), Render(mode, n, ms[1..]))
  }

  /** The unabridged listing. */
  function Listing(mode: Mode, ms: seq<Message>): string {
    if ms == [] then "" else Record(mode, ms[0]) + Listing(mode, ms[1..])
  }

  ghost predicate TextsFit(ms: seq<Message>) {
    forall i :: 0 <= i < |ms| ==> |ms[i].body| <= TEXT_LIMIT
  }

  ghost predicate OneLine(ms: seq<Message>) {
    forall i :: 0 <= i < |ms| ==> '\n' !in ms[i].body
  }

  lemma RecordLength(mode: Mode, m: Message)
    ensures mode.WithoutClock? ==> |Record(mode, m)| == |m.body| + 1
    ensures m.clock < 100000 ==> |Record(mode, m)| <= 7 + |m.body|
  {
    if m.clock < 100000 {
      assert Pow10(5) == 100000;
      DigitsLength(m.clock, 5);
    }
  }

  ghost predicate Unabridged(mode: Mode, n: nat, ms: seq<Message>) {
    forall i :: 0 <= i < |ms| ==> Piece(mode, n, ms[i]) == Record(mode, ms[i])
  }

  lemma {:induction false} RenderIsListing(mode: Mode, n: nat, ms: seq<Message>)
    requires Unabridged(mode, n, ms)
    ensures Render(mode, n, ms) == Listing(mode, ms)
  {
    if ms == [] {
    } else {
      RenderIsListing(mode, n, ms[1..]);
    }
  }

  /** The length limits only ever shorten a line. */
  lemma PieceLength(mode: Mode, n: nat, m: Message)
    ensures |Piece(mode, n, m)| <= |Record(mode, m)|
    ensures |Piece(mode, n, m)| == |Record(mode, m)| <==> Piece(mode, n, m) == Record(mode, m)
  {
    hide Record;
  }

  lemma UnabridgedFirst(mode: Mode, n: nat, ms: seq<Message>)
    requires ms != []
    ensures Unabridged(mode, n, ms) <==> Piece(mode, n, ms[0]) == Record(mode, ms[0]) && Unabridged(mode, n, ms[1..])
  {
    hide Record;
    hide Piece;
    if Piece(mode, n, ms[0]) == Record(mode, ms[0]) && Unabridged(mode, n, ms[1..]) {
      forall i | 0 <= i < |ms| ensures Piece(mode, n, ms[i]) == Record(mode, ms[i]) {
        if i > 0 { assert ms[i] == ms[1..][i - 1]; }
      }
    }
  }

  /** A listing is shorter than the unabridged one exactly if one of its lines was cut. */
  lemma {:induction false} RenderLength(mode: Mode, n: nat, ms: seq<Message>)
    ensures |Render(mode, n, ms)| <= |Listing(mode, ms)|
    ensures |Render(mode, n, ms)| == |Listing(mode, ms)| <==> Unabridged(mode, n, ms)
  {
    if ms == [] {
    } else {
      hide Record;
      hide Piece;
      hide Unabridged;
      PieceLength(mode, n, ms[0]);
      UnabridgedFirst(mode, n, ms);
      RenderLength(mode, n, ms[1..]);
    }
  }

  lemma {:induction false} RecordInListing(mode: Mode, ms: seq<Message>, i: nat)
    requires i < |ms|
    ensures |Record(mode, ms[i])| <= |Listing(mode, ms)|
  {
    hide Record;
    if i == 0 {
    } else {
      RecordInListing(mode, ms[1..], i - 1);
    }
  }

  /** Listings of texts alone, and clocked listings that fit the buffer `get_first_n_messages`
      allocates for them, lose nothing to the length limits. */
  lemma ListingComplete(mode: Mode, n: nat, ms: seq<Message>)
    requires 0 < n && TextsFit(ms)
    requires mode.WithClock? ==> |Listing(mode, ms)| < STRING_SIZE * n
    requires forall i :: 0 <= i < |ms| ==> ms[i].clock < 100000 || mode.WithoutClock?
    ensures Render(mode, n, ms) == Listing(mode, ms)
  {
    forall i | 0 <= i < |ms| ensures Piece(mode, n, ms[i]) == Record(mode, ms[i]) {
      RecordLength(mode, ms[i]);
      RecordInListing(mode, ms, i);
    }
    RenderIsListing(mode, n, ms);
  }

  lemma {:induction false} RenderJoin(mode: Mode, n: nat, a: seq<Message>, b: seq<Message>)
    ensures Render(mode, n, Join(a, b)) == Join(Render(mode, n, a), Render(mode, n, b))
  {
    hide Piece;
    if a == [] {
    } else {
      var whole := a + b;
      assert whole[0] == a[0];
      if |a| == 1 {
        assert whole[1..] == b && a[1..] == [];
        JoinEmpty(Piece(mode, n, a[0]));
      } else {
        assert whole[1..] == a[1..] + b;
        RenderJoin(mode, n, a[1..], b);
        JoinAssoc(Piece(mode, n, a[0]), Render(mode, n, a[1..]), Render(mode, n, b));
      }
    }
  }

  /** One turn of the listing loops, and their end. */
  lemma ListingStep(mode: Mode, n: nat, cells: seq<Option<Message>>, i: nat, end: nat, text: string)
    requires 0 < |cells|
    ensures i < end && cells[i % |cells|].Some? ==>
      Join(text, Render(mode, n, Present(cells, i, end))) ==
      Join(Join(text, Piece(mode, n, cells[i % |cells|].value)), Render(mode, n, Present(cells, i + 1, end)))
    ensures end <= i || cells[i % |cells|].None? ==> Join(text, Render(mode, n, Present(cells, i, end))) == text
  {
    hide Piece;
    if i < end && cells[i % |cells|].Some? {
      JoinAssoc(text, Piece(mode, n, cells[i % |cells|].value), Render(mode, n, Present(cells, i + 1, end)));
    } else {
      JoinEmpty(text);
    }
  }

  /** The loop of `get_first_n_messages`, which the source writes out three times: append the
      items of an index range to the listing so far. */
  method ListRange(ring: Matrix<Message>, n: nat, mode: Mode, from: nat, end: nat, sofar: string)
    returns (text: string)
    requires ring.Valid() && 0 < ring.capacity
    ensures text == Join(sofar, Render(mode, n, Present(ring.cells[..], from, end)))
  {
    hide Render;
    hide Present;
    hide Piece;
    hide Join;
    ghost var cells := ring.cells[..];
    text := sofar;
    var i := from;
    while i < end
      invariant Join(text, Render(mode, n, Present(cells, i, end))) ==
                Join(sofar, Render(mode, n, Present(cells, from, end)))
    {
      ListingStep(mode, n, cells, i, end, text);
      var element := ring.GetElement(i);
      if element.None? {
        break;
      }
      text := Join(text, Piece(mode, n, element.value));
      i := i + 1;
    }
    ListingStep(mode, n, cells, i, end, text);
  }

  lemma RenderVisited(mode: Mode, cells: seq<Option<Message>>, size: nat, overflow: bool, n: nat)
    requires 1 <= n <= |cells|
    ensures Render(mode, n, Visited(cells, size, overflow, n)) ==
      if size >= n then Render(mode, n, Present(cells, size - n, size))
      else if overflow then Join(Render(mode, n, Present(cells, |cells| + size - n, |cells|)),
                                 Render(mode, n, Present(cells, 0, size)))
      else Render(mode, n, Present(cells, 0, size))
  {
    hide Render;
    hide Present;
    hide Join;
    if size < n && overflow {
      RenderJoin(mode, n, Present(cells, |cells| + size - n, |cells|), Present(cells, 0, size));
    }
  }

  /** `get_first_n_messages`, as a listing of the messages it visits. */
  method GetFirstNMessages(ring: Matrix<Message>, n: nat, mode: Mode) returns (listing: Option<string>)
    requires ring.Valid() && 1 <= n <= ring.capacity
    ensures listing.None? <==> ring.size == 0
    ensures listing.Some? ==>
      listing.value == Render(mode, n, Visited(ring.cells[..], ring.size, ring.overflow, n))
  {
    hide Render;
    hide Present;
    hide Visited;
    hide Join;
    if ring.size == 0 {
      return None;
    }
    RenderVisited(mode, ring.cells[..], ring.size, ring.overflow, n);
    var text := "";
    if ring.size < n {
      JoinEmpty(Render(mode, n, Present(ring.cells[..], 0, ring.size)));
      if ring.overflow {
        JoinEmpty(Render(mode, n, Present(ring.cells[..], ring.capacity + ring.size - n, ring.capacity)));
        text := ListRange(ring, n, mode, ring.capacity + ring.size - n, ring.capacity, text);
      }
      text := ListRange(ring, n, mode, 0, ring.size, text);
    } else {
      JoinEmpty(Render(mode, n, Present(ring.cells[..], ring.size - n, ring.size)));
      text := ListRange(ring, n, mode, ring.size - n, ring.size, text);
    }
    listing := Some(text);
  }
}
