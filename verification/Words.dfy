/**
  The 64-bit words of SimpleLockFreeQueue.h: a version in the upper 24 bits, below it the way from
  the container of uber blocks down to a node, and the consumed flag in the lowest bit.
*/
module Words {
  const VERSION_MASK: bv64 := 0xFFFF_FF00_0000_0000
  const VERSION_INCR: bv64 := 0x0000_0100_0000_0000
  const ADDRESS_MASK: bv64 := 0x0000_00FF_FFFF_FFFE
  const FLAG: bv64 := 1

  function SetConsumed(x: bv64): bv64 { x | FLAG }

  function ClearConsumed(x: bv64): bv64 { x & !FLAG }

  predicate IsConsumed(x: bv64) { x & FLAG != 0 }

  function Bump(x: bv64): bv64 {
    (x & !VERSION_MASK) | ((x + VERSION_INCR) & VERSION_MASK)
  }

  /** The slots `get_node_at` goes through. */
  datatype Path = Path(uberIdx: bv64, uber: bv64, ultra: bv64, super: bv64, node: bv64)

  function NodeAt(x: bv64): Path {
    Path((x & 0xFF_0000_0000) >> 32, (x & 0x00_FF00_0000) >> 24, (x & 0x00_00FF_0000) >> 16,
         (x & 0x00_0000_FF00) >> 8, (x & 0x00_0000_00FE) >> 1)
  }

  /** The word of a node number below 2^39 and a version below 2^24. */
  function Pack(node: bv64, ver: bv64): bv64
    requires node < 0x80_0000_0000 && ver < 0x100_0000
  {
    (ver << 40) | (node << 1)
  }

  lemma PathRebuilds(x: bv64)
    ensures var a := NodeAt(x);
      x & ADDRESS_MASK == (a.uberIdx << 32) | (a.uber << 24) | (a.ultra << 16) | (a.super << 8) | (a.node << 1)
  {
  }

  lemma PathNeedsOnly(x: bv64)
    ensures NodeAt(x) == NodeAt(x & ADDRESS_MASK)
  {
  }

  lemma PathInBounds(x: bv64)
    ensures NodeAt(x).uberIdx < 256 && NodeAt(x).uber < 256 && NodeAt(x).ultra < 256 && NodeAt(x).super < 256
    ensures NodeAt(x).node < 128
  {
  }

  /** Two words lead to the same node exactly if they agree in bits 1 to 39; every slot on the way exists. */
  lemma SameNodeSameBits(x: bv64, y: bv64)
    ensures NodeAt(x) == NodeAt(y) <==> x & ADDRESS_MASK == y & ADDRESS_MASK
    ensures NodeAt(x).uberIdx < 256 && NodeAt(x).uber < 256 && NodeAt(x).ultra < 256 && NodeAt(x).super < 256
    ensures NodeAt(x).node < 128
  {
    PathRebuilds(x);
    PathRebuilds(y);
    PathNeedsOnly(x);
    PathNeedsOnly(y);
    PathInBounds(x);
  }

  lemma BumpBits(x: bv64)
    ensures Bump(x) & ADDRESS_MASK == x & ADDRESS_MASK && Bump(x) != x
  {
  }

  lemma SetBits(x: bv64)
    ensures SetConsumed(x) & ADDRESS_MASK == x & ADDRESS_MASK && IsConsumed(SetConsumed(x))
  {
  }

  lemma ClearBits(x: bv64)
    ensures ClearConsumed(x) & ADDRESS_MASK == x & ADDRESS_MASK && !IsConsumed(ClearConsumed(x))
  {
  }

  lemma ClearAfterSet(x: bv64)
    ensures !IsConsumed(x) ==> ClearConsumed(SetConsumed(x)) == x
  {
  }

  /** A new version and the flag leave the node alone, and clearing the flag undoes setting it. */
  lemma NodeSurvives(x: bv64)
    ensures NodeAt(Bump(x)) == NodeAt(x) == NodeAt(SetConsumed(x)) == NodeAt(ClearConsumed(x))
    ensures Bump(x) != x
    ensures IsConsumed(SetConsumed(x)) && !IsConsumed(ClearConsumed(x))
    ensures !IsConsumed(x) ==> ClearConsumed(SetConsumed(x)) == x
  {
    BumpBits(x);
    SetBits(x);
    ClearBits(x);
    ClearAfterSet(x);
    PathNeedsOnly(x);
    PathNeedsOnly(Bump(x));
    PathNeedsOnly(SetConsumed(x));
    PathNeedsOnly(ClearConsumed(x));
  }

  lemma PackInjective(n: bv64, v: bv64, n': bv64, v': bv64)
    requires n < 0x80_0000_0000 && v < 0x100_0000 && n' < 0x80_0000_0000 && v' < 0x100_0000
    requires Pack(n, v) == Pack(n', v')
    ensures n == n' && v == v'
  {
  }

  lemma PackedBits(n: bv64, v: bv64)
    requires n < 0x80_0000_0000 && v < 0x100_0000
    ensures Pack(n, v) & ADDRESS_MASK == n << 1
    ensures !IsConsumed(Pack(n, v)) && (n != 0 ==> Pack(n, v) != 0)
  {
  }

  lemma PackedBump(n: bv64, v: bv64)
    requires n < 0x80_0000_0000 && v < 0xFF_FFFF
    ensures Bump(Pack(n, v)) == Pack(n, v + 1)
  {
  }

  lemma PackedWrap(n: bv64)
    requires n < 0x80_0000_0000
    ensures Bump(Pack(n, 0xFF_FFFF)) == Pack(n, 0)
  {
  }

  lemma AddressTellsNumber(n: bv64, v: bv64, n': bv64, v': bv64)
    requires n < 0x80_0000_0000 && v < 0x100_0000 && n' < 0x80_0000_0000 && v' < 0x100_0000
    requires Pack(n, v) & ADDRESS_MASK == Pack(n', v') & ADDRESS_MASK
    ensures n == n'
  {
  }

  lemma NumberTellsAddress(n: bv64, v: bv64, v': bv64)
    requires n < 0x80_0000_0000 && v < 0x100_0000 && v' < 0x100_0000
    ensures Pack(n, v) & ADDRESS_MASK == Pack(n, v') & ADDRESS_MASK
  {
  }

  /** Packed words lead to the same node exactly if they hold the same node number. */
  lemma PackedNode(n: bv64, v: bv64, n': bv64, v': bv64)
    requires n < 0x80_0000_0000 && v < 0x100_0000 && n' < 0x80_0000_0000 && v' < 0x100_0000
    ensures NodeAt(Pack(n, v)) == NodeAt(Pack(n', v')) ==> n == n'
    ensures n == n' ==> NodeAt(Pack(n, v)) == NodeAt(Pack(n', v'))
  {
    if n == n' {
      NumberTellsAddress(n, v, v');
      SameNodeSameBits(Pack(n, v), Pack(n, v'));
    } else if NodeAt(Pack(n, v)) == NodeAt(Pack(n', v')) {
      SameNodeSameBits(Pack(n, v), Pack(n', v'));
      AddressTellsNumber(n, v, n', v');
    }
  }

  /**
    Words stand for pairs of a node number and a version: packing is injective, never sets the
    flag, gives 0 for no node but 0, and the source's version step is the next version until
    24 bits are used up, when versions start again.
  */
  lemma WordsArePairs(n: bv64, v: bv64, n': bv64, v': bv64)
    requires n < 0x80_0000_0000 && v < 0x100_0000 && n' < 0x80_0000_0000 && v' < 0x100_0000
    ensures Pack(n, v) == Pack(n', v') <==> n == n' && v == v'
    ensures !IsConsumed(Pack(n, v)) && (n != 0 ==> Pack(n, v) != 0)
    ensures Bump(Pack(n, v)) == if v == 0xFF_FFFF then Pack(n, 0) else Pack(n, v + 1)
  {
    PackedBits(n, v);
    if Pack(n, v) == Pack(n', v') { PackInjective(n, v, n', v'); }
    if v < 0xFF_FFFF { PackedBump(n, v); } else { PackedWrap(n); }
  }
}