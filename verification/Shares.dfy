/** Who contributed which values to a list. */
module Shares {
  /** The values that belong to `t`, in order; `owner` tells for each value whose it is. */
  function By<T>(owner: seq<nat>, vals: seq<T>, t: nat): seq<T>
    requires |owner| == |vals|
  {
    if vals == [] then []
    else
      var n := |vals| - 1;
      By(owner[..n], vals[..n], t) + if owner[n] == t then [vals[n]] else []
  }

  lemma ByOneMore<T>(owner: seq<nat>, vals: seq<T>, u: nat, v: T, t: nat)
    requires |owner| == |vals|
    ensures By(owner + [u], vals + [v], t) == By(owner, vals, t) + if u == t then [v] else []
  {
    assert (owner + [u])[..|vals|] == owner && (vals + [v])[..|vals|] == vals;
  }
}
