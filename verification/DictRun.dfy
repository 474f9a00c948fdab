/** Whole runs on the hash table of dict.c, against a finite map. */
module DictRuns {
  import opened Options
  import opened Dicts

  datatype Op<K, V> = AddOp(key: K, val: V) | ReplaceOp(key: K, val: V) | DeleteOp(key: K) | FindOp(key: K)

  datatype Answer<V> = Status(ok: bool) | Found(val: Option<V>)

  /** What an operation does to a finite map. */
  ghost function Apply<K, V>(m: map<K, V>, op: Op<K, V>): map<K, V> {
    match op
    case AddOp(key, val) => if key in m then m else m[key := val]
    case ReplaceOp(key, val) => m[key := val]
    case DeleteOp(key) => m - {key}
    case FindOp(_) => m
  }

  ghost function Says<K, V>(m: map<K, V>, op: Op<K, V>): Answer<V> {
    match op
    case AddOp(key, _) => Status(key !in m)
    case ReplaceOp(key, _) => Status(key !in m)
    case DeleteOp(key) => Status(key in m)
    case FindOp(key) => Found(ValueIn(m, key))
  }

  ghost function ValueIn<K, V>(m: map<K, V>, k: K): Option<V> {
    if k in m then Some(m[k]) else None
  }

  /** The map after the first `n` operations. */
  ghost function MapAfter<K, V>(ops: seq<Op<K, V>>, n: nat): map<K, V>
    requires n <= |ops|
  {
    if n == 0 then map[] else Apply(MapAfter(ops, n - 1), ops[n - 1])
  }

  /** The table stands for the map `m`, and `used` counts its keys. */
  ghost predicate Stands<K(!new), V>(ht: Dict<K, V>, m: map<K, V>)
    requires ht.Valid()
    reads ht, ht.table, ht.nodes
  {
    ht.used == |m| && forall k {:trigger ht.Get(k)} :: ht.Get(k) == ValueIn(m, k)
  }

  lemma SizeOfUpdate<K, V>(m: map<K, V>, k: K, v: V)
    ensures |m[k := v]| == |m| + if k in m then 0 else 1
    ensures |m - {k}| == |m| - if k in m then 1 else 0
  {
    var w := m[k := v];
    assert w.Keys == m.Keys + {k};
    assert (m - {k}).Keys == m.Keys - {k};
    assert |w| == |w.Keys| && |m| == |m.Keys| && |m - {k}| == |(m - {k}).Keys|;
  }

  /** A valid table that stands for `m`. */
  ghost predicate Owned<K(!new), V>(ht: Dict<K, V>, m: map<K, V>)
    reads ht, ht.table, ht.nodes
  {
    ht.Valid() && Stands(ht, m)
  }

  method ActAdd<K(==,!new), V>(ht: Dict<K, V>, op: Op<K, V>, ghost m: map<K, V>) returns (ok: bool)
    requires Owned(ht, m) && op.AddOp?
    modifies ht, ht.table, ht.nodes`next
    ensures (ht.table == old(ht.table) || fresh(ht.table)) && fresh(ht.nodes - old(ht.nodes))
    ensures Owned(ht, Apply(m, op)) && ok == (op.key !in m)
  {
    assert ht.Get(op.key) == ValueIn(m, op.key);
    SizeOfUpdate(m, op.key, op.val);
    ok := ht.Add(op.key, op.val);
  }

  method ActReplace<K(==,!new), V>(ht: Dict<K, V>, op: Op<K, V>, ghost m: map<K, V>) returns (added: bool)
    requires Owned(ht, m) && op.ReplaceOp?
    modifies ht, ht.table, ht.nodes
    ensures (ht.table == old(ht.table) || fresh(ht.table)) && fresh(ht.nodes - old(ht.nodes))
    ensures Owned(ht, Apply(m, op)) && added == (op.key !in m)
  {
    assert ht.Get(op.key) == ValueIn(m, op.key);
    SizeOfUpdate(m, op.key, op.val);
    added := ht.Replace(op.key, op.val);
  }

  method ActDelete<K(==,!new), V>(ht: Dict<K, V>, op: Op<K, V>, ghost m: map<K, V>) returns (ok: bool)
    requires Owned(ht, m) && op.DeleteOp?
    modifies ht`chains, ht`used, ht.table, ht.nodes`next
    ensures Owned(ht, Apply(m, op)) && ok == (op.key in m)
  {
    assert ht.Get(op.key) == ValueIn(m, op.key);
    if op.key in m { SizeOfUpdate(m, op.key, m[op.key]); } else { assert m - {op.key} == m; }
    ghost var b, j;
    ok, b, j := ht.Delete(op.key);
  }

  method ActFind<K(==,!new), V>(ht: Dict<K, V>, op: Op<K, V>, ghost m: map<K, V>) returns (val: Option<V>)
    requires Owned(ht, m) && op.FindOp?
    ensures val == ValueIn(m, op.key)
  {
    assert ht.Get(op.key) == ValueIn(m, op.key);
    var he := ht.Find(op.key);
    assert ht.Get(op.key) == if he == null then None else Some(he.val);
    val := if he == null then None else Some(he.val);
  }

  method Act<K(==,!new), V>(ht: Dict<K, V>, op: Op<K, V>, ghost m: map<K, V>) returns (a: Answer<V>)
    requires Owned(ht, m)
    modifies ht, ht.table, ht.nodes
    ensures (ht.table == old(ht.table) || fresh(ht.table)) && fresh(ht.nodes - old(ht.nodes))
    ensures Owned(ht, Apply(m, op)) && a == Says(m, op)
  {
    match op
    case AddOp(_, _) =>
      var ok := ActAdd(ht, op, m);
      a := Status(ok);
    case ReplaceOp(_, _) =>
      var added := ActReplace(ht, op, m);
      a := Status(added);
    case DeleteOp(_) =>
      var ok := ActDelete(ht, op, m);
      a := Status(ok);
    case FindOp(_) =>
      var val := ActFind(ht, op, m);
      a := Found(val);
  }

  /** The answers of a finite map to the first `n` operations. */
  ghost function AllAnswers<K, V>(ops: seq<Op<K, V>>, n: nat): seq<Answer<V>>
    requires n <= |ops|
  {
    if n == 0 then [] else AllAnswers(ops, n - 1) + [Says(MapAfter(ops, n - 1), ops[n - 1])]
  }

  method NewTable<K(==,!new), V>(hash: K -> nat) returns (ht: Dict<K, V>)
    ensures fresh(ht) && fresh(ht.table) && fresh(ht.nodes) && Owned(ht, map[])
  {
    ht := new Dict(hash);
  }

  /** The first `n` operations have been done on the table, with these answers. */
  ghost predicate Played<K(!new), V>(ht: Dict<K, V>, ops: seq<Op<K, V>>, n: nat, answers: seq<Answer<V>>)
    requires n <= |ops|
    reads ht, ht.table, ht.nodes
  {
    Owned(ht, MapAfter(ops, n)) && answers == AllAnswers(ops, n)
  }

  method PlayNext<K(==,!new), V>(ht: Dict<K, V>, ops: seq<Op<K, V>>, n: nat, answers: seq<Answer<V>>)
    returns (answers': seq<Answer<V>>)
    requires n < |ops| && Played(ht, ops, n, answers)
    modifies ht, ht.table, ht.nodes
    ensures (ht.table == old(ht.table) || fresh(ht.table)) && fresh(ht.nodes - old(ht.nodes))
    ensures Played(ht, ops, n + 1, answers')
  {
    var a := Act(ht, ops[n], MapAfter(ops, n));
    answers' := answers + [a];
  }

  /** Any run of operations on a new table answers as a finite map would, and ends standing for it. */
  method Play<K(==,!new), V>(hash: K -> nat, ops: seq<Op<K, V>>) returns (ht: Dict<K, V>, answers: seq<Answer<V>>)
    ensures Owned(ht, MapAfter(ops, |ops|)) && answers == AllAnswers(ops, |ops|)
  {
    ht := NewTable(hash);
    answers := [];
    for n := 0 to |ops|
      invariant fresh(ht) && fresh(ht.table) && fresh(ht.nodes)
      invariant Played(ht, ops, n, answers)
    {
      answers := PlayNext(ht, ops, n, answers);
    }
  }
}
