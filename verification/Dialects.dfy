/**
  The two readers of the repository: the nine-slot RESP2 reader of src/redis_pool/read.c and the
  growing RESP3 reader of hiredis/read.c. They agree on a stream exactly when the older one does
  not run into one of its own limits.
*/
module Dialects {
  import opened Options
  import opened Resp

  /** The errors only a limit of the older reader explains. */
  predicate OldLimit(newer: Config, e: Error) {
    match e
    case TooDeep => true
    case MultiRange(count) => count > INT_MAX && !OverLimit(newer, count)
    case TypeByte(c) => c in {',', '_', '%', '~', '#', '=', '>'}
    case _ => false
  }

  /** An older reader beside a newer one that allows at least as many elements. */
  ghost predicate Beside(older: Config, newer: Config) {
    && older.dialect.FixedStack? && newer.dialect.Growing?
    && (newer.maxElements <= 0 || newer.maxElements >= INT_MAX)
  }

  /** Equal outcomes, unless the older reader met its own limit; the newer one never reports it. */
  ghost predicate Agree<T>(newer: Config, o: Outcome<T>, n: Outcome<T>) {
    && (o == n || (o.Bad? && OldLimit(newer, o.error)))
    && (n.Bad? ==> !OldLimit(newer, n.error))
  }

  /** The outcome is one of the older reader's own limits. */
  ghost predicate Stopped<T>(newer: Config, o: Outcome<T>) {
    o.Bad? && OldLimit(newer, o.error)
  }

  // ------------------------------------------------- what the older reader understands

  /**
    Nothing in the next item is beyond the older reader: neither its type byte nor, as far as the
    item goes, those of its elements are of RESP3, no array is at the last stack index, and no array
    has more than INT_MAX elements.
  */
  predicate Resp2Item(newer: Config, depth: nat, s: string)
    decreases |s|, 0, 0
  {
    s != "" ==>
      && s[0] !in {',', '_', '%', '~', '#', '=', '>'}
      && (s[0] == '*' ==> Resp2Array(newer, depth, s[1..]))
  }

  predicate Resp2Array(newer: Config, depth: nat, s: string)
    decreases |s|, 0, 0
  {
    && depth != FIXED_STACK_SIZE - 1
    && var h := Header(newer, depth, ARRAY, s);
      h.Done? && h.value.Some? ==> h.value.value <= INT_MAX && Resp2Items(newer, depth + 1, h.value.value, h.rest)
  }

  predicate Resp2Items(newer: Config, depth: nat, n: nat, s: string)
    decreases |s|, 1, n
  {
    n > 0 ==>
      && Resp2Item(newer, depth, s)
      && var o := ParseItem(newer, depth, Some(ARRAY), s);
        o.Done? ==> Resp2Items(newer, depth, n - 1, o.rest)
  }

  /** The same for all items of a stream. */
  predicate Resp2Stream(newer: Config, s: string)
    decreases |s|
  {
    && Resp2Item(newer, 0, s)
    && var o := ParseItem(newer, 0, None, s);
      o.Done? ==> Resp2Stream(newer, o.rest)
  }

  // ------------------------------------------------------------------- agreement

  lemma HeadersAgree(older: Config, newer: Config, depth: nat, s: string)
    requires Beside(older, newer)
    ensures Agree(newer, Header(older, depth, ARRAY, s), Header(newer, depth, ARRAY, s))
  {
  }

  lemma TypesAgree(older: Config, newer: Config, c: char)
    requires Beside(older, newer)
    ensures var k := TypeOf(older, c);
      if k.Some? then TypeOf(newer, c) == k && (IsAggregate(k.value) ==> k.value == ARRAY)
      else TypeOf(newer, c).None? <==> !OldLimit(newer, TypeByte(c))
  {
  }

  /** The newer reader never reports a limit that only the older one has. */
  lemma {:induction false} NewerItem(newer: Config, depth: nat, parent: Option<Kind>, s: string)
    requires newer.dialect.Growing?
    ensures var n := ParseItem(newer, depth, parent, s); n.Bad? ==> !OldLimit(newer, n.error)
    decreases |s|, 0, 0
  {
    if s != "" && TypeOf(newer, s[0]).Some? {
      NewerTyped(newer, depth, parent, TypeOf(newer, s[0]).value, s[1..]);
    }
  }

  lemma {:induction false} NewerTyped(newer: Config, depth: nat, parent: Option<Kind>, k: Kind, s: string)
    requires newer.dialect.Growing?
    ensures var n := ParseTyped(newer, depth, parent, k, s); n.Bad? ==> !OldLimit(newer, n.error)
    decreases |s|, 0, 0
  {
    if IsAggregate(k) {
      var h := Header(newer, depth, k, s);
      if h.Done? && h.value.Some? {
        NewerItems(newer, depth + 1, k, h.value.value, h.rest);
      }
    }
  }

  lemma {:induction false} NewerItems(newer: Config, depth: nat, k: Kind, n: nat, s: string)
    requires newer.dialect.Growing?
    ensures var o := ParseItems(newer, depth, k, n, s); o.Bad? ==> !OldLimit(newer, o.error)
    decreases |s|, 1, n
  {
    if n > 0 {
      NewerItem(newer, depth, Some(k), s);
      var o := ParseItem(newer, depth, Some(k), s);
      if o.Done? {
        NewerItems(newer, depth, k, n - 1, o.rest);
      }
    }
  }

  lemma {:induction false} ItemsAgree(older: Config, newer: Config, depth: nat, n: nat, s: string)
    requires Beside(older, newer)
    ensures Agree(newer, ParseItems(older, depth, ARRAY, n, s), ParseItems(newer, depth, ARRAY, n, s))
    ensures Resp2Items(newer, depth, n, s) <==> !Stopped(newer, ParseItems(older, depth, ARRAY, n, s))
    decreases |s|, 1, n
  {
    NewerItems(newer, depth, ARRAY, n, s);
    if n > 0 {
      ItemAgrees(older, newer, depth, Some(ARRAY), s);
      var o := ParseItem(older, depth, Some(ARRAY), s);
      if o.Done? {
        ItemsAgree(older, newer, depth, n - 1, o.rest);
      }
    }
  }

  lemma {:induction false} ItemAgrees(older: Config, newer: Config, depth: nat, parent: Option<Kind>, s: string)
    requires Beside(older, newer) && parent in {None, Some(ARRAY)}
    ensures Agree(newer, ParseItem(older, depth, parent, s), ParseItem(newer, depth, parent, s))
    ensures Resp2Item(newer, depth, s) <==> !Stopped(newer, ParseItem(older, depth, parent, s))
    decreases |s|, 0, 0
  {
    NewerItem(newer, depth, parent, s);
    if s != "" {
      TypesAgree(older, newer, s[0]);
      var k := TypeOf(older, s[0]);
      if k.Some? {
        TypedAgrees(older, newer, depth, parent, k.value, s[1..]);
      }
    }
  }

  lemma {:induction false} TypedAgrees(
      older: Config, newer: Config, depth: nat, parent: Option<Kind>, k: Kind, s: string)
    requires Beside(older, newer) && (IsAggregate(k) ==> k == ARRAY)
    requires k in {ARRAY, STRING, INTEGER, STATUS, ERROR}
    ensures Agree(newer, ParseTyped(older, depth, parent, k, s), ParseTyped(newer, depth, parent, k, s))
    ensures (k == ARRAY ==> Resp2Array(newer, depth, s)) <==> !Stopped(newer, ParseTyped(older, depth, parent, k, s))
    decreases |s|, 0, 1
  {
    if k == ARRAY {
      ArraysAgree(older, newer, depth, parent, s);
    } else {
      ScalarsAgree(older, newer, depth, parent, k, s);
    }
  }

  /** The older reader has no limit of its own for anything but arrays. */
  lemma ScalarsAgree(older: Config, newer: Config, depth: nat, parent: Option<Kind>, k: Kind, s: string)
    requires Beside(older, newer) && k in {STRING, INTEGER, STATUS, ERROR}
    ensures var o := ParseTyped(older, depth, parent, k, s);
      o == ParseTyped(newer, depth, parent, k, s) && !Stopped(newer, o)
  {
    if k != STRING {
      assert ParseLine(older, parent, k, s) == ParseLine(newer, parent, k, s);
    }
  }

  lemma {:induction false} ArraysAgree(older: Config, newer: Config, depth: nat, parent: Option<Kind>, s: string)
    requires Beside(older, newer)
    ensures Agree(newer, ParseTyped(older, depth, parent, ARRAY, s), ParseTyped(newer, depth, parent, ARRAY, s))
    ensures Resp2Array(newer, depth, s) <==> !Stopped(newer, ParseTyped(older, depth, parent, ARRAY, s))
    decreases |s|, 0, 0
  {
    NewerTyped(newer, depth, parent, ARRAY, s);
    HeadersAgree(older, newer, depth, s);
    var h := Header(older, depth, ARRAY, s);
    if h.Done? && h.value.Some? {
      ItemsAgree(older, newer, depth + 1, h.value.value, h.rest);
    }
  }

  /**
    On every stream the older reader hands out the same replies and ends the same way as the newer
    one exactly if the stream keeps to what the older one understands: type bytes of RESP2, no array
    at stack index 8, no more than INT_MAX elements. Whatever the stream, the older reader hands out
    only replies the newer one hands out too.
  */
  lemma {:induction false} ReadersAgree(older: Config, newer: Config, s: string)
    requires Beside(older, newer)
    ensures var o, n := ParseAll(older, s), ParseAll(newer, s);
      && (o == n <==> Resp2Stream(newer, s))
      && (o != n ==> o.end.Fail? && OldLimit(newer, o.end.error))
      && o.replies <= n.replies
    decreases |s|
  {
    ItemAgrees(older, newer, 0, None, s);
    NewerStream(newer, s);
    var o := ParseItem(older, 0, None, s);
    if o.Done? {
      ReadersAgree(older, newer, o.rest);
      var tail, tail' := ParseAll(older, o.rest), ParseAll(newer, o.rest);
      assert ParseAll(older, s).replies[1..] == tail.replies;
      assert ParseAll(newer, s).replies[1..] == tail'.replies;
    }
  }

  lemma {:induction false} NewerStream(newer: Config, s: string)
    requires newer.dialect.Growing?
    ensures var n := ParseAll(newer, s); n.end.Fail? ==> !OldLimit(newer, n.end.error)
    decreases |s|
  {
    NewerItem(newer, 0, None, s);
    var o := ParseItem(newer, 0, None, s);
    if o.Done? {
      NewerStream(newer, o.rest);
    }
  }
}
