/** The singly linked list of pending callbacks of async.c. */
module CallbackLists {
  /** `id` observes which accepted command the callback belongs to; `hasFn` says that its function is not NULL. */
  datatype Callback = Callback(id: nat, hasFn: bool)

  /** A cell of the list; `pos` observes how many callbacks were pushed before it. */
  class Cell {
    var cb: Callback
    var next: Cell?
    ghost const pos: nat

    constructor (cb: Callback, ghost pos: nat)
      ensures this.cb == cb && next == null && this.pos == pos
    {
      this.cb := cb;
      next := null;
      this.pos := pos;
    }
  }

  class CallbackList {
    var head: Cell?
    var tail: Cell?
    ghost var shifted: nat
    ghost var cells: seq<Cell>
    ghost var contents: seq<Callback>
    ghost var repr: set<object>

    /** The cell at `i` holds its callback and leads to the next one. */
    ghost predicate CellAt(i: nat)
      requires i < |cells| == |contents|
      reads this, repr
    {
      && cells[i] in repr && cells[i].cb == contents[i] && cells[i].pos == shifted + i
      && cells[i].next == if i + 1 < |cells| then cells[i + 1] else null
    }

    ghost predicate Valid()
      reads this, repr
      ensures Valid() ==> this in repr
    {
      && this in repr && |cells| == |contents|
      && (head == if |cells| == 0 then null else cells[0])
      && (tail == if |cells| == 0 then null else cells[|cells| - 1])
      && (forall i | 0 <= i < |cells| :: CellAt(i))
    }

    constructor ()
      ensures Valid() && fresh(repr) && contents == []
    {
      head, tail, shifted := null, null, 0;
      cells, contents, repr := [], [], {this};
    }

    /** Appends a copy of `cb`. */
    method Push(cb: Callback)
      requires Valid()
      modifies repr
      ensures Valid() && fresh(repr - old(repr))
      ensures contents == old(contents) + [cb]
    {
      ghost var n := |cells|;
      var cell := new Cell(cb, shifted + n);
      if head == null { head := cell; }
      if tail != null {
        assert CellAt(n - 1);
        tail.next := cell;
      }
      tail := cell;
      cells, contents, repr := cells + [cell], contents + [cb], repr + {cell};
      forall i | 0 <= i < |cells|
        ensures CellAt(i)
      {
        assert i < n ==> old(CellAt(i));
        if 0 < n && i < n - 1 { assert old(CellAt(n - 1)); }
      }
    }

    /** Takes off the first callback, if there is one. */
    method Shift() returns (ok: bool, target: Callback)
      requires Valid()
      modifies repr
      ensures Valid() && fresh(repr - old(repr))
      ensures ok == (|old(contents)| > 0)
      ensures ok ==> old(contents) == [target] + contents
      ensures !ok ==> |contents| == 0
    {
      target := Callback(0, false);
      ok := head != null;
      if head != null {
        var cell := head;
        assert CellAt(0) && CellAt(|cells| - 1);
        head := cell.next;
        if cell == tail { tail := null; }
        target := cell.cb;
        cells, contents, shifted := cells[1..], contents[1..], shifted + 1;
        forall i | 0 <= i < |cells|
          ensures CellAt(i)
        {
          assert old(CellAt(i + 1));
        }
        assert old(contents) == [target] + contents;
      }
    }

    method IsEmpty() returns (empty: bool)
      requires Valid()
      ensures empty == (|contents| == 0)
    {
      empty := head == null;
    }
  }
}
