/**
  The chained hash table of dict.c and its iterator. Entries are heap nodes that are linked,
  unlinked and moved between tables in place.
*/
module Dicts {
  import opened Arithmetic
  import opened Options

  const INITIAL_SIZE: nat := 4

  // ------------------------------------------------------------ bucket index

  /** The bitwise `&` of two natural numbers. */
  function And(a: nat, b: nat): nat {
    if a == 0 || b == 0 then 0 else 2 * And(a / 2, b / 2) + (a % 2) * (b % 2)
  }

  predicate IsPowerOfTwo(n: nat) {
    n == 1 || (n > 1 && n % 2 == 0 && IsPowerOfTwo(n / 2))
  }

  lemma DoubleMod(q: nat, r: nat, m: nat)
    requires m > 0 && r < 2
    ensures (2 * q + r) % (2 * m) == 2 * (q % m) + r
  {
    var t, s := q / m, q % m;
    assert 2 * q + r == (2 * m) * t + (2 * s + r);
    ModOfSum(2 * m, t, 2 * s + r);
  }

  lemma Distribute(n: nat, t: int, q: int)
    ensures n * t - n * q == n * (t - q)
  {
  }

  lemma ModOfSum(n: nat, t: nat, s: nat)
    requires s < n
    ensures (n * t + s) % n == s
  {
    var x := n * t + s;
    var q, r := x / n, x % n;
    assert x == n * q + r;
    Distribute(n, t, q);
    Multiple(n, t - q);
  }

  /** Masking with a power of two less one is taking the remainder, so it always gives a bucket. */
  lemma {:induction false} MaskIsMod(h: nat, n: nat)
    requires IsPowerOfTwo(n)
    ensures And(h, n - 1) == h % n
  {
    if n > 1 {
      MaskIsMod(h / 2, n / 2);
      DoubleMod(h / 2, h % 2, n / 2);
      assert n == 2 * (n / 2) && h == 2 * (h / 2) + h % 2;
      assert (n - 1) / 2 == n / 2 - 1 && (n - 1) % 2 == 1;
    }
  }

  /** `_dictNextPower` on sizes that memory can hold. */
  method NextPower(size: nat) returns (i: nat)
    ensures IsPowerOfTwo(i) && i >= INITIAL_SIZE && i >= size
    ensures i == INITIAL_SIZE || (size > INITIAL_SIZE && i / 2 < size)
  {
    i := INITIAL_SIZE;
    while i < size
      invariant IsPowerOfTwo(i) && i >= INITIAL_SIZE
      invariant i == INITIAL_SIZE || (size > INITIAL_SIZE && i / 2 < size)
    {
      DoublePower(i);
      i := i * 2;
    }
  }

  lemma DoublePower(n: nat)
    requires IsPowerOfTwo(n)
    ensures IsPowerOfTwo(n * 2) && n * 2 / 2 == n
  {
  }

  // ----------------------------------------------------------------- chains

  class Entry<K, V> {
    const key: K
    var val: V
    var next: Entry?<K, V>

    constructor (key: K, val: V, next: Entry?<K, V>)
      ensures this.key == key && this.val == val && this.next == next
    {
      this.key, this.val, this.next := key, val, next;
    }
  }

  /** The entries of `chain` are linked in this order, from `head` to the end. */
  ghost predicate Chained<K, V>(head: Entry?<K, V>, chain: seq<Entry<K, V>>)
    reads chain`next
  {
    && head == (if |chain| == 0 then null else chain[0])
    && (forall i :: 0 < i < |chain| ==> chain[i - 1].next == chain[i])
    && (|chain| > 0 ==> chain[|chain| - 1].next == null)
  }

  /** All keys of the chain belong into bucket `b`, and no two are equal. */
  ghost predicate Keyed<K, V>(hash: K -> nat, size: nat, b: nat, chain: seq<Entry<K, V>>) {
    && (forall e :: e in chain ==> Bucket(hash, size, e.key) == b)
    && (forall i, j :: 0 <= i < j < |chain| ==> chain[i].key != chain[j].key)
  }

  function Bucket<K>(hash: K -> nat, size: nat, k: K): nat {
    if size == 0 then 0 else hash(k) % size
  }

  /** Chain number `i + j` starts at `heads[j]`, and holds only keys of its bucket. */
  ghost predicate Linked<K, V>(
    hash: K -> nat, size: nat, i: nat, heads: seq<Entry?<K, V>>, chains: seq<seq<Entry<K, V>>>, nodes: set<Entry<K, V>>)
    reads nodes`next
  {
    && |heads| == |chains|
    && (forall j :: 0 <= j < |chains| ==>
          InNodes(chains[j], nodes) && Chained(heads[j], chains[j]) && Keyed(hash, size, i + j, chains[j]))
  }

  ghost predicate InNodes<K, V>(s: seq<Entry<K, V>>, nodes: set<Entry<K, V>>) {
    forall e :: e in s ==> e in nodes
  }

  /** The entry of a key in a chain. */
  ghost function Lookup<K, V>(chain: seq<Entry<K, V>>, k: K): Entry?<K, V> {
    if |chain| == 0 then null else if chain[0].key == k then chain[0] else Lookup(chain[1..], k)
  }

  /** The entry of a key in the chains from number `i` on. */
  ghost function EntryOf<K, V>(hash: K -> nat, size: nat, i: nat, chains: seq<seq<Entry<K, V>>>, k: K): Entry?<K, V> {
    var b := Bucket(hash, size, k);
    if i <= b < i + |chains| then Lookup(chains[b - i], k) else null
  }

  ghost function Total<T>(chains: seq<seq<T>>): nat {
    if |chains| == 0 then 0 else |chains[0]| + Total(chains[1..])
  }

  // ------------------------------------------------------- changing a chain

  lemma ChainedPush<K, V>(e: Entry<K, V>, chain: seq<Entry<K, V>>)
    requires Chained(e.next, chain)
    ensures Chained(e, [e] + chain)
  {
    var all := [e] + chain;
    forall i | 0 < i < |all| ensures all[i - 1].next == all[i] {
      if i > 1 { assert chain[i - 2].next == chain[i - 1]; }
    }
  }

  lemma ChainedPop<K, V>(head: Entry?<K, V>, chain: seq<Entry<K, V>>)
    requires Chained(head, chain) && |chain| > 0
    ensures head == chain[0] && Chained(chain[0].next, chain[1..])
  {
    var rest := chain[1..];
    if |rest| > 0 { assert chain[1 - 1].next == chain[1]; }
    forall i | 0 < i < |rest| ensures rest[i - 1].next == rest[i] {
      assert chain[i + 1 - 1].next == chain[i + 1];
    }
  }

  lemma {:induction false} LookupFinds<K, V>(chain: seq<Entry<K, V>>, k: K)
    ensures Lookup(chain, k) != null ==> Lookup(chain, k) in chain && Lookup(chain, k).key == k
    ensures Lookup(chain, k) == null ==> forall e :: e in chain ==> e.key != k
  {
    if |chain| > 0 {
      LookupFinds(chain[1..], k);
      assert chain == [chain[0]] + chain[1..];
    }
  }

  lemma KeyedPush<K, V>(hash: K -> nat, size: nat, b: nat, chain: seq<Entry<K, V>>, e: Entry<K, V>)
    requires Keyed(hash, size, b, chain) && Bucket(hash, size, e.key) == b && Lookup(chain, e.key) == null
    ensures Keyed(hash, size, b, [e] + chain) && e !in chain
    ensures forall k :: Lookup([e] + chain, k) == if k == e.key then e else Lookup(chain, k)
  {
    LookupFinds(chain, e.key);
    assert ([e] + chain)[1..] == chain;
  }

  lemma KeyedPop<K, V>(hash: K -> nat, size: nat, b: nat, chain: seq<Entry<K, V>>)
    requires Keyed(hash, size, b, chain) && |chain| > 0
    ensures Keyed(hash, size, b, chain[1..]) && chain[0] !in chain[1..]
    ensures Lookup(chain[1..], chain[0].key) == null
    ensures forall k :: k != chain[0].key ==> Lookup(chain[1..], k) == Lookup(chain, k)
  {
    LookupFinds(chain[1..], chain[0].key);
  }

  lemma {:induction false} TotalUpdate<T>(chains: seq<seq<T>>, h: nat, chain: seq<T>)
    requires h < |chains|
    ensures Total(chains[h := chain]) + |chains[h]| == Total(chains) + |chain|
  {
    if h == 0 {
      assert chains[h := chain][1..] == chains[1..];
    } else {
      TotalUpdate(chains[1..], h - 1, chain);
      assert chains[h := chain][1..] == chains[1..][h - 1 := chain];
    }
  }

  lemma {:induction false} TotalZero<T>(chains: seq<seq<T>>)
    requires Total(chains) == 0
    ensures forall j :: 0 <= j < |chains| ==> chains[j] == []
  {
    if |chains| > 0 { TotalZero(chains[1..]); }
  }

  /** The entry `e` in front of chain `h`, to whose first entry it already points. */
  lemma PushChain<K(!new), V>(
    hash: K -> nat, size: nat, heads: seq<Entry?<K, V>>, chains: seq<seq<Entry<K, V>>>, nodes: set<Entry<K, V>>,
      e: Entry<K, V>, h: nat)
    returns (pushed: seq<seq<Entry<K, V>>>)
    requires Linked(hash, size, 0, heads, chains, nodes) && size == |chains| && h == Bucket(hash, size, e.key) < size
    requires EntryOf(hash, size, 0, chains, e.key) == null && e.next == heads[h]
    ensures |pushed| == size && Linked(hash, size, 0, heads[h := e], pushed, nodes + {e})
    ensures Total(pushed) == Total(chains) + 1
    ensures forall k :: EntryOf(hash, size, 0, pushed, k) == if k == e.key then e else EntryOf(hash, size, 0, chains, k)
  {
    pushed := chains[h := [e] + chains[h]];
    KeyedPush(hash, size, h, chains[h], e);
    ChainedPush(e, chains[h]);
    TotalUpdate(chains, h, [e] + chains[h]);
  }

  /** A chain without its entry number `j`. */
  ghost function Cut<T>(chain: seq<T>, j: nat): seq<T>
    requires j < |chain|
  {
    chain[..j] + chain[j + 1..]
  }

  lemma KeyedCut<K, V>(hash: K -> nat, size: nat, b: nat, chain: seq<Entry<K, V>>, j: nat)
    requires Keyed(hash, size, b, chain) && j < |chain|
    ensures Keyed(hash, size, b, Cut(chain, j)) && forall e :: e in Cut(chain, j) ==> e in chain
  {
    var cut := Cut(chain, j);
    forall i | 0 <= i < |cut| ensures cut[i] == chain[if i < j then i else i + 1] {}
  }

  lemma {:induction false} LookupCut<K, V>(chain: seq<Entry<K, V>>, j: nat, k: K)
    requires j < |chain| && forall a, b :: 0 <= a < b < |chain| ==> chain[a].key != chain[b].key
    ensures Lookup(Cut(chain, j), k) == if k == chain[j].key then null else Lookup(chain, k)
  {
    if j == 0 {
      assert Cut(chain, 0) == chain[1..];
      LookupFinds(chain[1..], k);
    } else {
      assert Cut(chain, j)[1..] == Cut(chain[1..], j - 1);
      LookupCut(chain[1..], j - 1, k);
    }
  }

  lemma CutEntries<K(!new), V>(hash: K -> nat, size: nat, chains: seq<seq<Entry<K, V>>>, h: nat, j: nat)
    requires |chains| == size && h < size && Keyed(hash, size, h, chains[h]) && j < |chains[h]|
    ensures var cut := chains[h := Cut(chains[h], j)];
      && Total(cut) + 1 == Total(chains)
      && forall k :: EntryOf(hash, size, 0, cut, k) == if k == chains[h][j].key then null
        else EntryOf(hash, size, 0, chains, k)
  {
    TotalUpdate(chains, h, Cut(chains[h], j));
    assert chains[h][j] in chains[h];
    forall k
      ensures EntryOf(hash, size, 0, chains[h := Cut(chains[h], j)], k) ==
        if k == chains[h][j].key then null else EntryOf(hash, size, 0, chains, k)
    {
      LookupCut(chains[h], j, k);
    }
  }

  /** Unlinks entry number `j` from the one before it. */
  method Bypass<K, V>(prevde: Entry<K, V>, de: Entry<K, V>, ghost head: Entry?<K, V>, ghost chain: seq<Entry<K, V>>,
        ghost j: nat)
    requires Chained(head, chain) && 0 < j < |chain| && chain[j] == de && chain[j - 1] == prevde
    requires forall a, b :: 0 <= a < b < |chain| ==> chain[a].key != chain[b].key
    modifies prevde`next
    ensures Chained(head, Cut(chain, j))
  {
    ghost var cut := Cut(chain, j);
    assert j + 1 < |chain| ==> chain[j + 1 - 1].next == chain[j + 1];
    prevde.next := de.next;
    forall i | 0 < i < |cut| ensures cut[i - 1].next == cut[i] {
      if i < j {
        assert chain[i - 1].next == chain[i];
      } else if i > j {
        assert chain[i + 1 - 1].next == chain[i + 1];
      }
    }
  }

  /** The other chains do not use the nodes of chain `h`. */
  lemma SetAside<K, V>(hash: K -> nat, size: nat, heads: seq<Entry?<K, V>>, chains: seq<seq<Entry<K, V>>>,
        nodes: set<Entry<K, V>>, h: nat)
    requires Linked(hash, size, 0, heads, chains, nodes) && h < |chains|
    ensures var mine := set e | e in chains[h];
      Linked(hash, size, 0, heads[h := null], chains[h := []], nodes - mine) && mine <= nodes
  {
    assert Keyed(hash, size, h, chains[h]) && InNodes(chains[h], nodes);
    var mine := set e | e in chains[h];
    forall i | 0 <= i < |chains| && i != h ensures InNodes(chains[i], nodes - mine) {
      assert Keyed(hash, size, i, chains[i]) && InNodes(chains[i], nodes);
    }
  }

  lemma PutBack<K, V>(
    hash: K -> nat, size: nat, heads: seq<Entry?<K, V>>, chains: seq<seq<Entry<K, V>>>, others: set<Entry<K, V>>,
    h: nat, head: Entry?<K, V>, chain: seq<Entry<K, V>>, nodes: set<Entry<K, V>>)
    requires Linked(hash, size, 0, heads, chains, others) && h < |chains| && others <= nodes
    requires Chained(head, chain) && Keyed(hash, size, h, chain) && InNodes(chain, nodes)
    ensures Linked(hash, size, 0, heads[h := head], chains[h := chain], nodes)
  {
  }

  // -------------------------------------------------- moving to a new table

  /**
    Where a move to a new table stands: `nchains`, with the nodes `moved`, are in the new table;
    `tails`, with the nodes `left`, are what remains of the old chains from number `i` on.
  */
  datatype Move<!K, V> = Move(
    nchains: seq<seq<Entry<K, V>>>, moved: set<Entry<K, V>>,
    i: nat, heads: seq<Entry?<K, V>>, tails: seq<seq<Entry<K, V>>>, left: set<Entry<K, V>>)

  ghost predicate Moving<K, V>(hash: K -> nat, size: nat, n: array<Entry?<K, V>>, m: Move<K, V>)
    reads n, m.moved`next, m.left`next
  {
    && IsPowerOfTwo(n.Length) && |m.nchains| == n.Length && m.i + |m.tails| == size
    && Linked(hash, n.Length, 0, n[..], m.nchains, m.moved)
    && Linked(hash, size, m.i, m.heads, m.tails, m.left)
    && m.moved !! m.left
  }

  /** Every key has its entry either in the new table or in what is left, and nowhere twice. */
  ghost predicate SameEntries<K(!new), V>(hash: K -> nat, size: nat, nsize: nat, m: Move<K, V>,
        chains: seq<seq<Entry<K, V>>>) {
    forall k :: Divided(EntryOf(hash, nsize, 0, m.nchains, k), EntryOf(hash, size, m.i, m.tails, k),
      EntryOf(hash, size, 0, chains, k))
  }

  ghost predicate Divided<K, V>(now: Entry?<K, V>, later: Entry?<K, V>, all: Entry?<K, V>) {
    if now != null then later == null && all == now else all == later
  }

  /** The first entry of the first chain is taken off: the chain then starts with what follows. */
  ghost function TakeOff<K, V>(m: Move<K, V>, nextHe: Entry?<K, V>): Move<K, V>
    requires |m.heads| == |m.tails| > 0 && |m.tails[0]| > 0
  {
    m.(heads := m.heads[0 := nextHe], tails := m.tails[0 := m.tails[0][1..]], left := m.left - {m.tails[0][0]})
  }

  lemma TakeOffKeeps<K(!new), V>(hash: K -> nat, size: nat, n: array<Entry?<K, V>>, m: Move<K, V>)
    requires Moving(hash, size, n, m) && |m.tails| > 0 && |m.tails[0]| > 0
    ensures var e := m.tails[0][0];
      var m' := TakeOff(m, e.next);
      && m.heads[0] == e && e in m.left && Moving(hash, size, n, m')
      && Total(m'.tails) + 1 == Total(m.tails)
      && EntryOf(hash, size, m.i, m.tails, e.key) == e
      && forall k :: EntryOf(hash, size, m.i, m'.tails, k) == if k == e.key then null
        else EntryOf(hash, size, m.i, m.tails, k)
  {
    var e, chain := m.tails[0][0], m.tails[0];
    var m' := TakeOff(m, e.next);
    ChainedPop(m.heads[0], chain);
    KeyedPop(hash, size, m.i, chain);
    TotalUpdate(m.tails, 0, chain[1..]);
    assert Bucket(hash, size, e.key) == m.i + 0;
    assert InNodes(chain[1..], m'.left);
  }

  /** An entry goes from the old table to the new one. */
  lemma OneMoved<K(!new), V>(hash: K -> nat, size: nat, nsize: nat, m: Move<K, V>, m': Move<K, V>,
        chains: seq<seq<Entry<K, V>>>, e: Entry<K, V>)
    requires SameEntries(hash, size, nsize, m, chains) && EntryOf(hash, size, m.i, m.tails, e.key) == e && m'.i == m.i
    requires forall k :: EntryOf(hash, size, m.i, m'.tails, k) == if k == e.key then null
      else EntryOf(hash, size, m.i, m.tails, k)
    requires forall k :: EntryOf(hash, nsize, 0, m'.nchains, k) == if k == e.key then e
      else EntryOf(hash, nsize, 0, m.nchains, k)
    ensures SameEntries(hash, size, nsize, m', chains)
  {
    forall k
      ensures Divided(EntryOf(hash, nsize, 0, m'.nchains, k), EntryOf(hash, size, m.i, m'.tails, k),
        EntryOf(hash, size, 0, chains, k))
    {
      assert Divided(EntryOf(hash, nsize, 0, m.nchains, k), EntryOf(hash, size, m.i, m.tails, k),
        EntryOf(hash, size, 0, chains, k));
    }
  }

  /** An empty chain is left behind. */
  lemma NextChain<K(!new), V>(hash: K -> nat, size: nat, n: array<Entry?<K, V>>, m: Move<K, V>,
        chains: seq<seq<Entry<K, V>>>) returns (m': Move<K, V>)
    requires Moving(hash, size, n, m) && SameEntries(hash, size, n.Length, m, chains) && |m.tails| > 0
    requires |m.tails[0]| == 0
    ensures m' == m.(i := m.i + 1, heads := m.heads[1..], tails := m.tails[1..])
    ensures Moving(hash, size, n, m') && SameEntries(hash, size, n.Length, m', chains)
    ensures Total(m'.tails) == Total(m.tails)
  {
    m' := m.(i := m.i + 1, heads := m.heads[1..], tails := m.tails[1..]);
    forall k
      ensures Divided(EntryOf(hash, n.Length, 0, m.nchains, k), EntryOf(hash, size, m'.i, m'.tails, k),
        EntryOf(hash, size, 0, chains, k))
    {
      assert Divided(EntryOf(hash, n.Length, 0, m.nchains, k), EntryOf(hash, size, m.i, m.tails, k),
        EntryOf(hash, size, 0, chains, k));
    }
  }

  /** When the end of the old table is reached, or the count of entries, nothing is left behind. */
  lemma EndMove<K(!new), V>(hash: K -> nat, size: nat, nsize: nat, m: Move<K, V>, chains: seq<seq<Entry<K, V>>>)
    requires SameEntries(hash, size, nsize, m, chains) && m.i + |m.tails| == size
    requires (m.i == size || Total(m.tails) == 0)
    ensures Total(m.tails) == 0
    ensures forall k :: EntryOf(hash, nsize, 0, m.nchains, k) == EntryOf(hash, size, 0, chains, k)
  {
    TotalZero(m.tails);
    forall k
      ensures EntryOf(hash, nsize, 0, m.nchains, k) == EntryOf(hash, size, 0, chains, k)
    {
      assert Divided(EntryOf(hash, nsize, 0, m.nchains, k), EntryOf(hash, size, m.i, m.tails, k),
        EntryOf(hash, size, 0, chains, k));
    }
  }

  lemma {:induction false} TotalNone<T>(chains: seq<seq<T>>)
    requires forall j :: 0 <= j < |chains| ==> |chains[j]| == 0
    ensures Total(chains) == 0
  {
    if |chains| > 0 { TotalNone(chains[1..]); }
  }

  lemma DropMore<T>(s: seq<T>, i: nat)
    requires i < |s|
    ensures s[i..][0] == s[i] && s[i..][1..] == s[i + 1..]
  {
  }

  class Dict<K(==,!new), V> {
    const hash: K -> nat
    var table: array<Entry?<K, V>>
    var size: nat
    var sizemask: nat
    var used: nat
    ghost var chains: seq<seq<Entry<K, V>>>
    ghost var nodes: set<Entry<K, V>>

    ghost predicate Valid()
      reads this, table, nodes`next
    {
      && table.Length == size == |chains|
      && (size == 0 || (IsPowerOfTwo(size) && size >= INITIAL_SIZE))
      && sizemask == (if size == 0 then 0 else size - 1)
      && used == Total(chains) <= size
      && Linked(hash, size, 0, table[..], chains, nodes)
    }

    /** The entry of a key, or null. */
    ghost function At(k: K): Entry?<K, V>
      reads this
    {
      EntryOf(hash, size, 0, chains, k)
    }

    lemma AtInNodes(k: K)
      requires Valid()
      ensures At(k) != null ==> At(k) in nodes && At(k).key == k
    {
      var b := Bucket(hash, size, k);
      if b < size {
        LookupFinds(chains[b], k);
        assert InNodes(chains[b], nodes);
      }
    }

    lemma AllInNodes()
      requires Valid()
      ensures forall k :: At(k) != null ==> At(k) in nodes && At(k).key == k
    {
      forall k ensures At(k) != null ==> At(k) in nodes && At(k).key == k { AtInNodes(k); }
    }

    /** The finite map that the table stands for: the value of a key, if it has one. */
    ghost function Get(k: K): Option<V>
      requires Valid()
      reads this, table, nodes
    {
      AtInNodes(k);
      if At(k) == null then None else Some(At(k).val)
    }

    constructor (hash: K -> nat)
      ensures Valid() && fresh(table) && nodes == {} && used == 0 && this.hash == hash
      ensures forall k :: At(k) == null
    {
      this.hash := hash;
      table := new Entry?<K, V>[0];
      size, sizemask, used := 0, 0, 0;
      chains, nodes := [], {};
    }

    lemma BucketExists(k: K)
      requires IsPowerOfTwo(size) && sizemask == size - 1
      ensures And(hash(k), sizemask) == Bucket(hash, size, k) < size
    {
      MaskIsMod(hash(k), size);
    }

    /** The entry of `key`, or null if there is none. */
    method Find(key: K) returns (he: Entry?<K, V>)
      requires Valid()
      ensures he == At(key)
    {
      if size == 0 { return null; }
      BucketExists(key);
      var h := And(hash(key), sizemask);
      he := table[h];
      ghost var rest := chains[h];
      assert Chained(table[..][h], rest);
      while he != null
        invariant Chained(he, rest) && Lookup(rest, key) == At(key)
        decreases |rest|
      {
        if key == he.key { return; }
        ChainedPop(he, rest);
        he, rest := he.next, rest[1..];
      }
    }

    /** Puts `entry`, which already points to the first entry of chain `h`, in front of that chain. */
    method Push(h: nat, entry: Entry<K, V>)
      requires Valid() && used < size && h == Bucket(hash, size, entry.key) < size && At(entry.key) == null
      requires entry.next == table[h]
      modifies this`used, this`chains, this`nodes, table
      ensures Valid() && nodes == old(nodes) + {entry} && used == old(used) + 1
      ensures forall k :: At(k) == if k == entry.key then entry else old(At(k))
    {
      ghost var pushed := PushChain(hash, size, table[..], chains, nodes, entry, h);
      ghost var heads := table[..];
      table[h] := entry;
      used := used + 1;
      chains, nodes := pushed, nodes + {entry};
      assert table[..] == heads[h := entry];
    }

    /** Moves an entry that is in no chain to the new table `n`. */
    method MoveEntry(n: array<Entry?<K, V>>, e: Entry<K, V>, ghost nchains: seq<seq<Entry<K, V>>>,
          ghost moved: set<Entry<K, V>>)
      returns (ghost nchains': seq<seq<Entry<K, V>>>)
      requires IsPowerOfTwo(n.Length) && |nchains| == n.Length && e !in moved
      requires Linked(hash, n.Length, 0, n[..], nchains, moved) && EntryOf(hash, n.Length, 0, nchains, e.key) == null
      modifies n, e`next
      ensures |nchains'| == n.Length && Linked(hash, n.Length, 0, n[..], nchains', moved + {e})
      ensures Total(nchains') == Total(nchains) + 1
      ensures forall k :: EntryOf(hash, n.Length, 0, nchains', k) == if k == e.key then e
        else EntryOf(hash, n.Length, 0, nchains, k)
    {
      MaskIsMod(hash(e.key), n.Length);
      var h := And(hash(e.key), n.Length - 1);
      ghost var heads := n[..];
      e.next := n[h];
      n[h] := e;
      nchains' := PushChain(hash, n.Length, heads, nchains, moved, e, h);
      assert n[..] == heads[h := e];
    }

    /** Moves `he`, which has been taken off its old chain. */
    method MoveFirst(n: array<Entry?<K, V>>, he: Entry<K, V>, ghost m: Move<K, V>) returns (ghost m': Move<K, V>)
      requires Moving(hash, size, n, m) && he !in m.moved && he !in m.left && n != table && used > 0
      requires EntryOf(hash, n.Length, 0, m.nchains, he.key) == null
      modifies n, he`next, `used
      ensures Moving(hash, size, n, m') && m' == m.(nchains := m'.nchains, moved := m.moved + {he})
      ensures used == old(used) - 1 && table[..] == old(table[..]) && Total(m'.nchains) == Total(m.nchains) + 1
      ensures forall k :: EntryOf(hash, n.Length, 0, m'.nchains, k) == if k == he.key then he
        else EntryOf(hash, n.Length, 0, m.nchains, k)
    {
      used := used - 1;
      ghost var nchains' := MoveEntry(n, he, m.nchains, m.moved);
      m' := m.(nchains := nchains', moved := m.moved + {he});
    }

    /** Moves all entries of the next chain. */
    method MoveChain(n: array<Entry?<K, V>>, head: Entry?<K, V>, ghost all: set<Entry<K, V>>, ghost m: Move<K, V>)
      returns (ghost m': Move<K, V>)
      requires Moving(hash, size, n, m) && SameEntries(hash, size, n.Length, m, chains) && n != table
      requires |m.tails| > 0 && m.heads[0] == head && used == Total(m.tails) && m.left <= all
      modifies n, all`next, `used
      ensures Moving(hash, size, n, m') && SameEntries(hash, size, n.Length, m', chains)
      ensures used == Total(m'.tails) && m'.left <= all && table[..] == old(table[..])
      ensures Total(m'.nchains) + Total(m'.tails) == Total(m.nchains) + Total(m.tails)
      ensures m'.i == m.i + 1 && m'.heads == m.heads[1..] && m'.tails == m.tails[1..]
      ensures m'.moved + m'.left <= m.moved + m.left
    {
      m' := m;
      var he := head;
      assert Chained(m'.heads[0], m'.tails[0]);
      while he != null
        invariant Moving(hash, size, n, m') && SameEntries(hash, size, n.Length, m', chains)
        invariant |m'.tails| > 0 && he == m'.heads[0] && (he == null <==> |m'.tails[0]| == 0)
        invariant used == Total(m'.tails) && m'.left <= all && table[..] == old(table[..])
        invariant m'.moved + m'.left <= m.moved + m.left
        invariant Total(m'.nchains) + Total(m'.tails) == Total(m.nchains) + Total(m.tails)
        invariant m'.i == m.i && m'.heads[1..] == m.heads[1..] && m'.tails[1..] == m.tails[1..]
        decreases |m'.tails[0]|
      {
        var nextHe := he.next;
        ghost var before, off := m', TakeOff(m', nextHe);
        TakeOffKeeps(hash, size, n, m');
        assert Chained(off.heads[0], off.tails[0]);
        assert Divided(EntryOf(hash, n.Length, 0, m'.nchains, he.key), EntryOf(hash, size, m'.i, m'.tails, he.key),
          EntryOf(hash, size, 0, chains, he.key));
        m' := MoveFirst(n, he, off);
        OneMoved(hash, size, n.Length, before, m', chains, he);
        he := nextHe;
      }
      m' := NextChain(hash, size, n, m', chains);
    }

    /** The outer loop of `dictExpand`. It may stop early because its count of entries has come down to 0. */
    method MoveChains(n: array<Entry?<K, V>>, ghost m: Move<K, V>) returns (ghost m': Move<K, V>)
      requires Moving(hash, size, n, m) && SameEntries(hash, size, n.Length, m, chains) && n != table
      requires size == table.Length && used == Total(m.tails) && m.i == 0 && m.heads == table[..]
      modifies n, m.left`next, `used
      ensures Moving(hash, size, n, m') && used == 0 && m'.moved <= m.moved + m.left
      ensures Total(m'.nchains) == Total(m.nchains) + Total(m.tails)
      ensures forall k :: EntryOf(hash, n.Length, 0, m'.nchains, k) == At(k)
    {
      m' := m;
      var i := 0;
      while i < size && used > 0
        invariant i <= size && m'.i == i && m'.heads == m.heads[i..] && table[..] == m.heads
        invariant Moving(hash, size, n, m') && SameEntries(hash, size, n.Length, m', chains)
        invariant used == Total(m'.tails) && m'.left <= m.left && m'.moved + m'.left <= m.moved + m.left
        invariant Total(m'.nchains) + Total(m'.tails) == Total(m.nchains) + Total(m.tails)
      {
        DropMore(m.heads, i);
        m' := MoveChain(n, table[i], m.left, m');
        i := i + 1;
      }
      EndMove(hash, size, n.Length, m', chains);
    }

    /** The new table takes the place of the old one. */
    method Install(n: array<Entry?<K, V>>, realsize: nat, count: nat, ghost nchains: seq<seq<Entry<K, V>>>,
          ghost moved: set<Entry<K, V>>)
      requires n.Length == realsize == |nchains| && IsPowerOfTwo(realsize) && realsize >= INITIAL_SIZE
      requires count == Total(nchains) <= realsize && Linked(hash, realsize, 0, n[..], nchains, moved)
      modifies `table, `size, `sizemask, `used, `chains, `nodes
      ensures Valid() && table == n && size == realsize && used == count && nodes == moved
      ensures forall k :: At(k) == EntryOf(hash, realsize, 0, nchains, k)
    {
      table, size, sizemask, used := n, realsize, realsize - 1, count;
      chains, nodes := nchains, moved;
    }

    /** `dictExpand`: the same entries in a new table. */
    method Expand(want: nat) returns (ok: bool)
      requires Valid()
      modifies this, nodes`next
      ensures Valid() && nodes <= old(nodes) && (forall k :: At(k) == old(At(k)))
      ensures ok == (old(used) <= want) && used == old(used)
      ensures if ok
              then fresh(table) && size >= want && (size == INITIAL_SIZE || (want > INITIAL_SIZE && size / 2 < want))
              else table == old(table) && size == old(size)
    {
      var realsize := NextPower(want);
      if used > want { return false; }
      var n := new Entry?<K, V>[realsize](_ => null);
      var count := used;
      ghost var none: seq<seq<Entry<K, V>>> := seq(realsize, _ => []);
      TotalNone(none);
      ghost var m := Move(none, {}, 0, table[..], chains, nodes);
      m := MoveChains(n, m);
      Install(n, realsize, count, m.nchains, m.moved);
      return true;
    }

    /** The table grows when it is full, so there is room for one more entry. */
    method ExpandIfNeeded() returns (ok: bool)
      requires Valid()
      modifies this, nodes`next
      ensures Valid() && nodes <= old(nodes) && (forall k :: At(k) == old(At(k)))
      ensures ok && used == old(used) < size && (table == old(table) || fresh(table))
      ensures if old(size) == 0 then size == 4
              else if old(used) == old(size) then 2 * old(size) <= size < 4 * old(size)
              else size == old(size) && table == old(table)
    {
      if size == 0 {
        ok := Expand(INITIAL_SIZE);
      } else if used == size {
        ok := Expand(size * 2);
      } else {
        ok := true;
      }
    }

    /** The bucket for a new entry, or -1 if the key has one. */
    method KeyIndex(key: K) returns (index: int)
      requires Valid()
      modifies this, nodes`next
      ensures Valid() && nodes <= old(nodes) && (forall k :: At(k) == old(At(k)) && Get(k) == old(Get(k)))
      ensures used == old(used) < size && (table == old(table) || fresh(table))
      ensures if old(At(key)) == null then 0 <= index < size && index == Bucket(hash, size, key) else index == -1
    {
      AllInNodes();
      var ok := ExpandIfNeeded();
      if !ok { return -1; }
      var he := Find(key);
      if he != null { return -1; }
      BucketExists(key);
      return And(hash(key), sizemask);
    }

    method Insert(h: nat, key: K, val: V)
      requires Valid() && used < size && h == Bucket(hash, size, key) < size && At(key) == null
      modifies this`used, this`chains, this`nodes, table
      ensures Valid() && fresh(nodes - old(nodes)) && used == old(used) + 1
      ensures At(key) != null && fresh(At(key)) && At(key).val == val
      ensures forall k :: k != key ==> At(k) == old(At(k))
      ensures forall k :: Get(k) == if k == key then Some(val) else old(Get(k))
    {
      AllInNodes();
      var entry := new Entry(key, val, table[h]);
      Push(h, entry);
    }

    /** Adds an entry unless the key has one. */
    method Add(key: K, val: V) returns (ok: bool)
      requires Valid()
      modifies this, table, nodes`next
      ensures Valid() && (table == old(table) || fresh(table)) && fresh(nodes - old(nodes))
      ensures ok == (old(At(key)) == null) && used == old(used) + (if ok then 1 else 0)
      ensures forall k :: !ok || k != key ==> At(k) == old(At(k))
      ensures forall k :: Get(k) == if ok && k == key then Some(val) else old(Get(k))
    {
      var index := KeyIndex(key);
      if index == -1 { return false; }
      Insert(index, key, val);
      return true;
    }

    /** Sets the value of an entry that is there. */
    method Overwrite(key: K, val: V)
      requires Valid() && At(key) != null
      modifies nodes`val
      ensures Valid() && forall k :: Get(k) == if k == key then Some(val) else old(Get(k))
    {
      AllInNodes();
      var entry := Find(key);
      entry.val := val;
    }

    /** Sets the value of a key, whether it has an entry or not; tells whether the entry is new. */
    method Replace(key: K, val: V) returns (added: bool)
      requires Valid()
      modifies this, table, nodes
      ensures Valid() && (table == old(table) || fresh(table)) && fresh(nodes - old(nodes))
      ensures added == (old(Get(key)) == None) && used == old(used) + (if added then 1 else 0)
      ensures forall k :: Get(k) == if k == key then Some(val) else old(Get(k))
    {
      AtInNodes(key);
      added := Add(key, val);
      if !added { Overwrite(key, val); }
    }

    /** Takes the first entry out of chain `h`. */
    method UnlinkFirst(h: nat, de: Entry<K, V>)
      requires table.Length == size == |chains| && Linked(hash, size, 0, table[..], chains, nodes)
      requires h < size && |chains[h]| > 0 && chains[h][0] == de
      modifies this`chains, table
      ensures |chains| == size && Linked(hash, size, 0, table[..], chains, nodes)
      ensures chains == old(chains)[h := Cut(old(chains[h]), 0)]
    {
      ghost var heads, chain := table[..], chains[h];
      assert Chained(heads[h], chain) && Keyed(hash, size, h, chain) && InNodes(chain, nodes);
      ChainedPop(table[h], chain);
      KeyedCut(hash, size, h, chain, 0);
      assert Cut(chain, 0) == chain[1..];
      PutBack(hash, size, heads, chains, nodes, h, de.next, Cut(chain, 0), nodes);
      table[h] := de.next;
      assert table[..] == heads[h := de.next];
      chains := chains[h := Cut(chain, 0)];
    }

    /** Takes entry number `j` out of chain `h`; `prevde` is the one before it. */
    method UnlinkInside(h: nat, prevde: Entry<K, V>, de: Entry<K, V>, ghost j: nat)
      requires table.Length == size == |chains| && Linked(hash, size, 0, table[..], chains, nodes)
      requires h < size && 0 < j < |chains[h]| && chains[h][j] == de && chains[h][j - 1] == prevde
      modifies this`chains, prevde`next
      ensures |chains| == size && Linked(hash, size, 0, table[..], chains, nodes)
      ensures chains == old(chains)[h := Cut(old(chains[h]), j)]
    {
      ghost var heads, chain := table[..], chains[h];
      ghost var mine := set e | e in chain;
      assert Chained(heads[h], chain) && Keyed(hash, size, h, chain) && InNodes(chain, nodes);
      KeyedCut(hash, size, h, chain, j);
      SetAside(hash, size, heads, chains, nodes, h);
      assert prevde in mine;
      Bypass(prevde, de, table[h], chain, j);
      PutBack(hash, size, heads[h := null], chains[h := []], nodes - mine, h, table[h], Cut(chain, j), nodes);
      assert table[..] == heads[h := null][h := table[h]];
      chains := chains[h := []][h := Cut(chain, j)];
    }

    /** The entry of a key in chain `b`, which is its number `j`, and the one before it. */
    method Locate(b: nat, key: K) returns (prevde: Entry?<K, V>, de: Entry?<K, V>, ghost j: nat)
      requires Valid() && b == Bucket(hash, size, key) < size
      ensures de == At(key)
      ensures de != null ==>
        j < |chains[b]| && chains[b][j] == de && prevde == if j == 0 then null else chains[b][j - 1]
    {
      prevde, de, j := null, table[b], 0;
      ghost var chain := chains[b];
      assert Chained(table[..][b], chain);
      while de != null && key != de.key
        invariant j <= |chain| && Chained(de, chain[j..]) && Lookup(chain[j..], key) == At(key)
        invariant prevde == if j == 0 then null else chain[j - 1]
        decreases |chain| - j
      {
        ChainedPop(de, chain[j..]);
        assert chain[j..][1..] == chain[j + 1..];
        prevde, de, j := de, de.next, j + 1;
      }
    }

    /** Takes entry number `j` out of chain `b`. */
    method Remove(b: nat, prevde: Entry?<K, V>, de: Entry<K, V>, ghost j: nat)
      requires Valid() && b < size && j < |chains[b]| && chains[b][j] == de
      requires prevde == if j == 0 then null else chains[b][j - 1]
      modifies this`chains, this`used, table, nodes`next
      ensures Valid() && used == old(used) - 1 && chains == old(chains)[b := Cut(old(chains[b]), j)]
      ensures forall k :: At(k) == if k == de.key then null else old(At(k))
    {
      assert Keyed(hash, size, b, chains[b]);
      CutEntries(hash, size, chains, b, j);
      used := used - 1;
      if prevde != null { UnlinkInside(b, prevde, de, j); } else { UnlinkFirst(b, de); }
    }

    /** Removes the entry of a key, if it has one: it was number `j` of chain `b`. */
    method Delete(key: K) returns (ok: bool, ghost b: nat, ghost j: nat)
      requires Valid()
      modifies this`chains, this`used, table, nodes`next
      ensures Valid() && ok == (old(At(key)) != null) && used == old(used) - (if ok then 1 else 0)
      ensures forall k :: At(k) == if k == key then null else old(At(k))
      ensures forall k :: Get(k) == if k == key then None else old(Get(k))
      ensures ok ==>
        && b < size && j < |old(chains[b])| && old(chains[b])[j] == old(At(key))
        && chains == old(chains)[b := Cut(old(chains[b]), j)]
      ensures !ok ==> chains == old(chains)
    {
      ok, b, j := false, 0, 0;
      AllInNodes();
      if size == 0 { return; }
      ok, b, j := DeleteIn(key);
    }

    /** The search for the entry in its bucket, and its removal. */
    method DeleteIn(key: K) returns (ok: bool, ghost b: nat, ghost j: nat)
      requires Valid() && size > 0
      modifies this`chains, this`used, table, nodes`next
      ensures Valid() && ok == (old(At(key)) != null) && used == old(used) - (if ok then 1 else 0)
      ensures forall k :: At(k) == if k == key then null else old(At(k))
      ensures ok ==>
        && b < size && j < |old(chains[b])| && old(chains[b])[j] == old(At(key))
        && chains == old(chains)[b := Cut(old(chains[b]), j)]
      ensures !ok ==> chains == old(chains)
    {
      ok, b, j := false, 0, 0;
      BucketExists(key);
      var h := And(hash(key), sizemask);
      var prevde, de, at := Locate(h, key);
      if de == null { return; }
      AtInNodes(key);
      Remove(h, prevde, de, at);
      ok, b, j := true, h, at;
    }
  }

  // --------------------------------------------------------------- iterating

  /** All entries, in the order of the iterator. */
  ghost function Flat<T>(chains: seq<seq<T>>): seq<T> {
    if |chains| == 0 then [] else chains[0] + Flat(chains[1..])
  }

  ghost predicate Suffix<T>(s: seq<T>, all: seq<T>) {
    |s| <= |all| && s == all[|all| - |s|..]
  }

  ghost function First<K, V>(s: seq<Entry<K, V>>): Entry?<K, V> {
    if |s| == 0 then null else s[0]
  }

  lemma SuffixNext<K, V>(chain: seq<Entry<K, V>>, s: seq<Entry<K, V>>, head: Entry?<K, V>)
    requires Chained(head, chain) && Suffix(s, chain) && |s| > 0
    ensures s[0].next == First(s[1..]) && Suffix(s[1..], chain)
  {
    var a := |chain| - |s|;
    if |s| > 1 { assert chain[a + 1 - 1].next == chain[a + 1]; }
  }

  /** What an iterator has before it: the rest of a chain and the chains after bucket `index`. */
  ghost function Ahead<K, V>(chains: seq<seq<Entry<K, V>>>, index: int, rest: seq<Entry<K, V>>): seq<Entry<K, V>>
    requires -1 <= index
  {
    rest + if index + 1 < |chains| then Flat(chains[index + 1..]) else []
  }

  lemma NextBucket<K, V>(chains: seq<seq<Entry<K, V>>>, index: int)
    requires -1 <= index && index + 1 < |chains|
    ensures Ahead(chains, index, []) == Ahead(chains, index + 1, chains[index + 1])
  {
    var tail := chains[index + 1..];
    assert tail[0] == chains[index + 1] && tail[1..] == chains[index + 2..];
    assert Flat(tail) == tail[0] + Flat(tail[1..]);
  }

  lemma AheadNext<K, V>(chains: seq<seq<Entry<K, V>>>, index: int, ahead: seq<Entry<K, V>>)
    requires -1 <= index
    ensures |ahead| > 0 ==>
      |Ahead(chains, index, ahead)| > 0 && Ahead(chains, index, ahead)[0] == ahead[0]
      && Ahead(chains, index, ahead)[1..] == Ahead(chains, index, ahead[1..])
    ensures |ahead| == 0 && index >= |chains| ==> Ahead(chains, index, ahead) == []
  {
  }

  /** An entry has been fetched from bucket `index`; `rest` is what follows it in its chain. */
  ghost predicate Standing<K, V>(chains: seq<seq<Entry<K, V>>>, index: int, entry: Entry?<K, V>,
        nextEntry: Entry?<K, V>, rest: seq<Entry<K, V>>) {
    && -1 <= index
    && (entry == null ==> |rest| == 0)
    && (entry != null ==> index >= 0 && index < |chains| && Suffix(rest, chains[index]) && nextEntry == First(rest))
  }

  class Iterator<K(==,!new), V> {
    const ht: Dict<K, V>
    var index: int
    var entry: Entry?<K, V>
    var nextEntry: Entry?<K, V>
    ghost var rest: seq<Entry<K, V>>

    ghost predicate Valid()
      reads this, ht
    {
      Standing(ht.chains, index, entry, nextEntry, rest)
    }

    /** The entries still to come. */
    ghost function Remaining(): seq<Entry<K, V>>
      requires Valid()
      reads this, ht
    {
      Ahead(ht.chains, index, rest)
    }

    constructor (ht: Dict<K, V>)
      ensures Valid() && this.ht == ht && Remaining() == Flat(ht.chains)
    {
      this.ht := ht;
      index, entry, nextEntry, rest := -1, null, null, [];
      assert ht.chains[0..] == ht.chains;
    }

    lemma ChainStarts(b: nat)
      requires ht.Valid() && b < ht.size
      ensures b < |ht.chains| && ht.table[b] == First(ht.chains[b])
    {
      assert Chained(ht.table[..][b], ht.chains[b]);
    }

    lemma ChainGoesOn(b: nat, s: seq<Entry<K, V>>)
      requires ht.Valid() && b < ht.size == |ht.chains| && |s| > 0 && Suffix(s, ht.chains[b])
      ensures s[0].next == First(s[1..]) && Suffix(s[1..], ht.chains[b])
    {
      SuffixNext(ht.chains[b], s, ht.table[..][b]);
    }

    /**
      The first of the entries still to come, or null. What follows it is saved, because the caller
      may delete it.
    */
    method Next() returns (e: Entry?<K, V>)
      requires Valid() && ht.Valid()
      modifies this
      ensures Valid() && ht.Valid() && e == entry == First(old(Remaining()))
      ensures Remaining() == if e == null then [] else old(Remaining())[1..]
    {
      ghost var chains, before := ht.chains, Remaining();
      var i, next;
      ghost var ahead;
      e, i, next, ahead := Fetch(index, entry, nextEntry, rest);
      AheadNext(chains, i, ahead);
      ghost var after := if e == null then [] else ahead[1..];
      assert before == Ahead(chains, i, ahead);
      assert Ahead(chains, i, after) == if e == null then [] else before[1..];
      index, entry, nextEntry, rest := i, e, next, after;
    }

    /** The loop of `dictNext` on the iterator's fields. */
    method Fetch(at: int, last: Entry?<K, V>, saved: Entry?<K, V>, ghost rest: seq<Entry<K, V>>)
      returns (e: Entry?<K, V>, index: int, next: Entry?<K, V>, ghost ahead: seq<Entry<K, V>>)
      requires ht.Valid() && Standing(ht.chains, at, last, saved, rest)
      ensures index >= -1 && e == First(ahead) && Ahead(ht.chains, index, ahead) == Ahead(ht.chains, at, rest)
      ensures e == null ==> index >= ht.size
      ensures e != null ==>
        0 <= index < |ht.chains| && Suffix(ahead[1..], ht.chains[index]) && next == First(ahead[1..])
    {
      index, e, next, ahead := at, last, saved, rest;
      ghost var all := Ahead(ht.chains, at, rest);
      while true
        invariant Standing(ht.chains, index, e, next, ahead) && Ahead(ht.chains, index, ahead) == all
        decreases ht.size - index, if e == null then 0 else 1
      {
        if e == null {
          index := index + 1;
          if index >= ht.size { return; }
          assert ahead == [];
          NextBucket(ht.chains, index - 1);
          ChainStarts(index);
          e, ahead := ht.table[index], ht.chains[index];
        } else {
          e := next;
        }
        if e != null {
          ChainGoesOn(index, ahead);
          next := e.next;
          return;
        }
      }
    }
  }

  ghost predicate DistinctKeys<K, V>(s: seq<Entry<K, V>>) {
    forall i, j :: 0 <= i < j < |s| ==> s[i].key != s[j].key
  }

  /** `tails` are chains from number `i` on, each with the keys of its bucket only. */
  ghost predicate AllKeyed<K, V>(hash: K -> nat, size: nat, i: nat, tails: seq<seq<Entry<K, V>>>) {
    forall j :: 0 <= j < |tails| ==> Keyed(hash, size, i + j, tails[j])
  }

  /** The iterator's order lists every entry once. */
  lemma {:induction false} FlatLists<K(!new), V>(hash: K -> nat, size: nat, i: nat, tails: seq<seq<Entry<K, V>>>)
    requires AllKeyed(hash, size, i, tails)
    ensures DistinctKeys(Flat(tails)) && |Flat(tails)| == Total(tails)
    ensures forall e :: e in Flat(tails) ==> EntryOf(hash, size, i, tails, e.key) == e && Bucket(hash, size, e.key) >= i
    ensures forall k :: EntryOf(hash, size, i, tails, k) != null ==> EntryOf(hash, size, i, tails, k) in Flat(tails)
    decreases |tails|
  {
    if |tails| > 0 {
      var rest := tails[1..];
      assert forall j :: 0 <= j < |rest| ==> rest[j] == tails[j + 1];
      FlatLists(hash, size, i + 1, rest);
      assert Keyed(hash, size, i + 0, tails[0]);
      forall e | e in tails[0] ensures Lookup(tails[0], e.key) == e { LookupOf(tails[0], e); }
      forall k | EntryOf(hash, size, i, tails, k) != null ensures EntryOf(hash, size, i, tails, k) in Flat(tails) {
        if Bucket(hash, size, k) == i {
          LookupFinds(tails[0], k);
        } else {
          assert EntryOf(hash, size, i, tails, k) == EntryOf(hash, size, i + 1, rest, k);
        }
      }
    }
  }

  lemma LookupOf<K, V>(chain: seq<Entry<K, V>>, e: Entry<K, V>)
    requires e in chain && DistinctKeys(chain)
    ensures Lookup(chain, e.key) == e
  {
    LookupFinds(chain, e.key);
  }

  /** Deleting an entry that the iterator has passed changes nothing it has before it. */
  lemma DeletePassed<K, V>(
    chains: seq<seq<Entry<K, V>>>, b: nat, j: nat, index: int, entry: Entry?<K, V>, nextEntry: Entry?<K, V>,
      rest: seq<Entry<K, V>>)
    requires b < |chains| && j < |chains[b]| && Standing(chains, index, entry, nextEntry, rest) && entry != null
    requires chains[b][j] !in Ahead(chains, index, rest)
    ensures var cut := chains[b := Cut(chains[b], j)];
      Standing(cut, index, entry, nextEntry, rest) && Ahead(cut, index, rest) == Ahead(chains, index, rest)
  {
    var e, cut := chains[b][j], chains[b := Cut(chains[b], j)];
    if b > index {
      var tail := chains[index + 1..];
      FlatHas(tail, b - (index + 1), e);
      assert false;
    }
    assert cut[index + 1..] == chains[index + 1..];
    if b == index {
      var a := |chains[b]| - |rest|;
      forall x | a <= x < |chains[b]| ensures chains[b][x] in rest {
        assert rest[x - a] == chains[b][x];
      }
      assert Cut(chains[b], j)[a - 1..] == rest;
    }
  }

  lemma {:induction false} FlatHas<T>(chains: seq<seq<T>>, b: nat, x: T)
    requires b < |chains| && x in chains[b]
    ensures x in Flat(chains)
  {
    if b > 0 { FlatHas(chains[1..], b - 1, x); }
  }

  ghost predicate HasKey<K, V>(s: seq<Entry<K, V>>, k: K) {
    exists i :: 0 <= i < |s| && s[i].key == k
  }

  /** `chains` lacks, of the entries in `all`, those that were seen and are to be dropped. */
  ghost predicate Swept<K(!new), V>(
    hash: K -> nat, size: nat, all: seq<seq<Entry<K, V>>>, chains: seq<seq<Entry<K, V>>>, seen: seq<Entry<K, V>>,
      drop: K -> bool) {
    forall k :: EntryOf(hash, size, 0, chains, k) == if drop(k) && HasKey(seen, k) then null
      else EntryOf(hash, size, 0, all, k)
  }

  lemma SweptMore<K(!new), V>(
    hash: K -> nat, size: nat, all: seq<seq<Entry<K, V>>>, chains: seq<seq<Entry<K, V>>>,
      chains': seq<seq<Entry<K, V>>>,
    seen: seq<Entry<K, V>>, e: Entry<K, V>, drop: K -> bool)
    requires Swept(hash, size, all, chains, seen, drop)
    requires forall k :: EntryOf(hash, size, 0, chains', k) == if k == e.key && drop(k) then null
      else EntryOf(hash, size, 0, chains, k)
    ensures Swept(hash, size, all, chains', seen + [e], drop)
  {
    forall k ensures HasKey(seen + [e], k) <==> HasKey(seen, k) || k == e.key {
      if HasKey(seen, k) {
        var i :| 0 <= i < |seen| && seen[i].key == k;
        assert (seen + [e])[i].key == k;
      }
      assert (seen + [e])[|seen|] == e;
    }
  }

  /** The caller of the iterator may delete the entry it has just got. */
  method Visit<K(!new), V>(ht: Dict<K, V>, it: Iterator<K, V>, e: Entry<K, V>, drop: K -> bool)
    requires ht.Valid() && it.Valid() && it.ht == ht && it.entry == e && ht.At(e.key) == e && e !in it.Remaining()
    modifies ht`chains, ht`used, ht.table, ht.nodes`next
    ensures ht.Valid() && it.Valid() && it.Remaining() == old(it.Remaining())
    ensures forall k :: ht.At(k) == if k == e.key && drop(k) then null else old(ht.At(k))
  {
    if drop(e.key) {
      var ok, b, j := ht.Delete(e.key);
      DeletePassed(old(ht.chains), b, j, it.index, it.entry, it.nextEntry, it.rest);
    }
  }

  lemma NextOfAll<K(!new), V>(
    hash: K -> nat, size: nat, all: seq<seq<Entry<K, V>>>, chains: seq<seq<Entry<K, V>>>, seen: seq<Entry<K, V>>,
      drop: K -> bool,
    e: Entry<K, V>, left: seq<Entry<K, V>>)
    requires AllKeyed(hash, size, 0, all) && Flat(all) == seen + ([e] + left)
    requires Swept(hash, size, all, chains, seen, drop)
    ensures EntryOf(hash, size, 0, chains, e.key) == e && e !in left
  {
    var n := |seen|;
    FlatLists(hash, size, 0, all);
    assert Flat(all)[n] == e;
    forall i | 0 <= i < n ensures seen[i].key != e.key {
      assert Flat(all)[i] == seen[i];
    }
    forall i | 0 <= i < |left| ensures left[i] != e {
      assert Flat(all)[n + 1 + i] == left[i];
    }
  }

  /** The entry the iterator has just returned is the next of all entries that the sweep started with. */
  method VisitNext<K(!new), V>(
    ht: Dict<K, V>, it: Iterator<K, V>, e: Entry<K, V>, drop: K -> bool, ghost all: seq<seq<Entry<K, V>>>,
      ghost seen: seq<Entry<K, V>>)
    requires ht.Valid() && it.Valid() && it.ht == ht && it.entry == e
    requires AllKeyed(ht.hash, ht.size, 0, all) && Flat(all) == seen + ([e] + it.Remaining())
    requires Swept(ht.hash, ht.size, all, ht.chains, seen, drop)
    modifies ht`chains, ht`used, ht.table, ht.nodes`next
    ensures ht.Valid() && it.Valid() && it.Remaining() == old(it.Remaining())
    ensures Swept(ht.hash, ht.size, all, ht.chains, seen + [e], drop)
  {
    ghost var before := ht.chains;
    NextOfAll(ht.hash, ht.size, all, before, seen, drop, e, it.Remaining());
    Visit(ht, it, e, drop);
    SweptMore(ht.hash, ht.size, all, before, ht.chains, seen, e, drop);
  }

  /** One round of a sweep over the entries of `all`. */
  method SweepOne<K(!new), V>(ht: Dict<K, V>, it: Iterator<K, V>, drop: K -> bool, ghost all: seq<seq<Entry<K, V>>>,
        seen: seq<Entry<K, V>>)
    returns (more: bool, seen': seq<Entry<K, V>>)
    requires ht.Valid() && it.Valid() && it.ht == ht
    requires AllKeyed(ht.hash, ht.size, 0, all) && Flat(all) == seen + it.Remaining()
    requires Swept(ht.hash, ht.size, all, ht.chains, seen, drop)
    modifies it, ht`chains, ht`used, ht.table, ht.nodes`next
    ensures ht.Valid() && it.Valid() && |it.Remaining()| == |old(it.Remaining())| - if more then 1 else 0
    ensures !more ==> |it.Remaining()| == 0
    ensures Swept(ht.hash, ht.size, all, ht.chains, seen', drop) && Flat(all) == seen' + it.Remaining()
  {
    ghost var left := it.Remaining();
    var e := it.Next();
    more, seen' := e != null, seen;
    if e != null {
      var found: Entry<K, V> := e;
      assert left == [found] + it.Remaining();
      MoveOver(seen, found, it.Remaining());
      VisitNext(ht, it, found, drop, all, seen);
      seen' := seen + [found];
    }
  }

  lemma MoveOver<T>(s: seq<T>, x: T, t: seq<T>)
    ensures s + ([x] + t) == (s + [x]) + t && |[x] + t| == |t| + 1
  {
  }

  /**
    A sweep over the whole table that deletes some of the entries, each just after the iterator
    returned it: it meets every entry that was there once, and then NULL.
  */
  method Sweep<K(!new), V>(ht: Dict<K, V>, drop: K -> bool) returns (seen: seq<Entry<K, V>>)
    requires ht.Valid()
    modifies ht`chains, ht`used, ht.table, ht.nodes`next
    ensures ht.Valid() && seen == old(Flat(ht.chains))
    ensures DistinctKeys(seen) && |seen| == old(ht.used)
    ensures forall k :: old(ht.At(k)) != null ==> old(ht.At(k)) in seen
    ensures Swept(ht.hash, ht.size, old(ht.chains), ht.chains, seen, drop)
  {
    ghost var chains := ht.chains;
    FlatLists(ht.hash, ht.size, 0, chains);
    var it := new Iterator(ht);
    seen := [];
    while true
      invariant ht.Valid() && it.Valid() && it.ht == ht && fresh(it)
      invariant seen + it.Remaining() == Flat(chains)
      invariant Swept(ht.hash, ht.size, chains, ht.chains, seen, drop)
      decreases |it.Remaining()|
    {
      var more;
      more, seen := SweepOne(ht, it, drop, chains, seen);
      if !more { break; }
    }
  }
}
