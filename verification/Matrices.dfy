/** src/utils/util_matrix.c: the bounded ring in which a server keeps its messages. */
module Matrices {
  import opened CText

  /** The cells of a ring of capacity `c` into which the history `h` was written one by one. */
  ghost function Cells<T>(h: seq<T>, c: nat): (r: seq<Option<T>>)
    requires 0 < c
    ensures |r| == c
  {
    if h == [] then seq(c, _ => None)
    else Cells(h[..|h| - 1], c)[(|h| - 1) % c := Some(h[|h| - 1])]
  }

  lemma NoMultipleBetween(k: int, c: nat)
    ensures !(0 < k * c < c)
  {
    if k >= 1 {
      assert k * c >= c;
    } else {
      assert k * c <= 0;
    }
  }

  lemma SmallSlot(k: nat, c: nat)
    requires k < c
    ensures k % c == k
  {
  }

  lemma DifferentSlots(a: nat, b: nat, c: nat)
    requires 0 < c && a < b < a + c
    ensures a % c != b % c
  {
    assert b - a == (b / c - a / c) * c + (b % c - a % c);
    NoMultipleBetween(b / c - a / c, c);
  }

  /** The ring refines "the last c of the history": every index among them finds its item. */
  lemma {:induction false} CellsHoldWindow<T>(h: seq<T>, c: nat, k: nat)
    requires 0 < c && k < |h| <= k + c
    ensures Cells(h, c)[k % c] == Some(h[k])
  {
    if k < |h| - 1 {
      CellsHoldWindow(h[..|h| - 1], c, k);
      DifferentSlots(k, |h| - 1, c);
    }
  }

  /** Before the ring has gone round once, the cells from the size upward are empty. */
  lemma {:induction false} CellsBeyondHistory<T>(h: seq<T>, c: nat, k: nat)
    requires 0 < c && |h| <= k < c
    ensures Cells(h, c)[k] == None
  {
    if h == [] {
    } else {
      SmallSlot(|h| - 1, c);
      CellsBeyondHistory(h[..|h| - 1], c, k);
    }
  }

  /** Reading any index of the window yields the item of the history with that index, and an
      index above the size yields NULL as long as the ring has not gone round. */
  lemma ElementOfHistory<T>(h: seq<T>, c: nat, index: nat)
    requires 0 < c
    ensures index < |h| <= index + c ==> Cells(h, c)[index % c] == Some(h[index])
    ensures |h| <= index < c ==> Cells(h, c)[index % c] == None
  {
    if index < |h| <= index + c {
      CellsHoldWindow(h, c, index);
    } else if |h| <= index < c {
      SmallSlot(index, c);
      CellsBeyondHistory(h, c, index);
    }
  }

  /** The items at the indices `from..end` of a ring, up to the first empty cell. */
  function Present<T(==)>(cells: seq<Option<T>>, from: nat, end: nat): seq<T>
    requires 0 < |cells|
    decreases end - from
  {
    if from >= end || cells[from % |cells|].None? then []
    else [cells[from % |cells|].value] + Present(cells, from + 1, end)
  }

  lemma {:induction false} PresentOfHistory<T>(h: seq<T>, c: nat, from: nat, end: nat)
    requires 0 < c
    ensures from <= end <= |h| <= from + c ==> Present(Cells(h, c), from, end) == h[from..end]
    ensures |h| <= from && end <= c ==> Present(Cells(h, c), from, end) == []
    decreases end - from
  {
    if from < end {
      ElementOfHistory(h, c, from);
      PresentOfHistory(h, c, from + 1, end);
    }
  }

  /** The messages that `get_first_n_messages` visits, branch by branch. */
  function Visited<T(==)>(cells: seq<Option<T>>, size: nat, overflow: bool, n: nat): seq<T>
    requires 1 <= n <= |cells|
  {
    if size >= n then Present(cells, size - n, size)
    else if overflow then Join(Present(cells, |cells| + size - n, |cells|), Present(cells, 0, size))
    else Present(cells, 0, size)
  }

  lemma VisitedOfLongHistory<T>(h: seq<T>, c: nat, n: nat)
    requires 1 <= n <= c && n <= |h|
    ensures Present(Cells(h, c), |h| - n, |h|) == LastN(h, n)
  {
    hide Present;
    hide Cells;
    PresentOfHistory(h, c, |h| - n, |h|);
    LastNSlice(h, n);
  }

  lemma VisitedOfShortHistory<T>(h: seq<T>, c: nat, overflow: bool, n: nat)
    requires 1 <= n <= c && |h| < n
    ensures Visited(Cells(h, c), |h|, overflow, n) == h
  {
    hide Present;
    hide Cells;
    PresentOfHistory(h, c, c + |h| - n, c);
    PresentOfHistory(h, c, 0, |h|);
    assert h[0..|h|] == h;
  }

  /** For every capacity, every history written into the ring and every value of the overflow
      flag, the messages visited are exactly the last n, oldest first. */
  lemma VisitedIsWindow<T>(h: seq<T>, c: nat, overflow: bool, n: nat)
    requires 1 <= n <= c
    ensures Visited(Cells(h, c), |h|, overflow, n) == LastN(h, n)
  {
    hide Present;
    hide Cells;
    if |h| < n {
      VisitedOfShortHistory(h, c, overflow, n);
    } else {
      VisitedOfLongHistory(h, c, n);
    }
  }

  class Matrix<T(!new)> {
    const cells: array<Option<T>>
    const capacity: nat
    var size: nat
    var overflow: bool

    ghost predicate Valid()
      reads this
    {
      cells.Length == capacity
    }

    /** The ring is what writing `h` item by item at index `size` leaves behind. */
    ghost predicate Holds(h: seq<T>)
      reads this, cells
    {
      Valid() && 0 < capacity && size == |h| && cells[..] == Cells(h, capacity)
    }

    /** `create_matrix` does not set the overflow flag: `indeterminate` is whatever it starts as. */
    constructor (capacity: nat, indeterminate: bool)
      ensures Valid() && this.capacity == capacity && fresh(cells)
      ensures overflow == indeterminate
      ensures size == 0 && forall i :: 0 <= i < capacity ==> cells[i] == None
      ensures 0 < capacity ==> Holds([])
    {
      cells := new Option<T>[capacity](_ => None);
      this.capacity := capacity;
      size := 0;
      overflow := indeterminate;
    }

    /** The message with the given index in the history, as long as the ring still has it. */
    function GetElement(index: nat): (item: Option<T>)
      requires Valid() && 0 < capacity
      reads this, cells
      ensures forall h: seq<T> :: Holds(h) && index < |h| <= index + capacity ==> item == Some(h[index])
      ensures forall h: seq<T> :: Holds(h) && |h| <= index < capacity ==> item == None
    {
      assert forall h: seq<T> :: Holds(h) && index < |h| <= index + capacity ==> cells[index % capacity] == Some(h[index]) by {
        forall h: seq<T> | Holds(h) && index < |h| <= index + capacity ensures cells[index % capacity] == Some(h[index]) {
          ElementOfHistory(h, capacity, index);
          assert cells[..][index % capacity] == cells[index % capacity];
        }
      }
      assert forall h: seq<T> :: Holds(h) && |h| <= index < capacity ==> cells[index % capacity] == None by {
        forall h: seq<T> | Holds(h) && |h| <= index < capacity ensures cells[index % capacity] == None {
          ElementOfHistory(h, capacity, index);
          assert cells[..][index % capacity] == cells[index % capacity];
        }
      }
      cells[index % capacity]
    }

    method AddElement(index: nat, toAdd: T)
      requires Valid() && 0 < capacity
      modifies this, cells
      ensures Valid()
      ensures size == old(size) + 1
      ensures cells[..] == old(cells[..])[index % capacity := Some(toAdd)]
      ensures overflow == (old(overflow) || old(cells[index % capacity]).Some?)
      ensures forall h: seq<T> :: old(Holds(h)) && index == |h| ==> Holds(h + [toAdd])
    {
      var slot := index % capacity;
      if cells[slot].Some? {
        overflow := true;
      }
      cells[slot] := Some(toAdd);
      size := size + 1;
    }
  }
}
