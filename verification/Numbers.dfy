/**
  Decimal integers as hiredis prints and reads them: `string2ll` of read.c and
  `hi_sdsll2str` of sds.c.

  A C `char` is a Dafny `char` throughout the project, and a byte buffer is a `string`.
*/
module Numbers {
  import opened Options

  const ULLONG_MAX: int := 0xFFFF_FFFF_FFFF_FFFF
  const LLONG_MAX: int := 0x7FFF_FFFF_FFFF_FFFF
  const LLONG_MIN: int := -0x8000_0000_0000_0000
  const LLSTR_SIZE: nat := 21

  /** `unsigned long long`: every operation on it is checked to stay within 64 bits. */
  newtype ULong = x: int | 0 <= x <= 0xFFFF_FFFF_FFFF_FFFF

  predicate IsDigit(c: char) {
    '0' <= c <= '9'
  }

  function Digit(d: nat): (c: char)
    requires d < 10
    ensures IsDigit(c) && c as int - '0' as int == d
  {
    '0' + d as char
  }

  predicate AllDigits(s: string) {
    forall i | 0 <= i < |s| :: IsDigit(s[i])
  }

  // ---------------------------------------------------------------- printing

  function Dec(n: nat): (s: string)
    ensures |s| >= 1 && AllDigits(s)
    ensures n > 0 ==> s[0] != '0'
  {
    if n < 10 then [Digit(n)] else Dec(n / 10) + [Digit(n % 10)]
  }

  /** The decimal form of an integer, as `%d`, `%lld` and `%zu` print it. */
  function Show(v: int): (s: string)
    ensures |s| >= 1
  {
    if v < 0 then "-" + Dec(-v) else Dec(v)
  }

  // ----------------------------------------------------------------- reading

  /** The value of a string of digits, most significant first. */
  function Val(s: string): (v: nat)
    requires AllDigits(s)
  {
    if s == "" then 0
    else 10 * Val(s[..|s| - 1]) + (s[|s| - 1] as int - '0' as int)
  }

  /** No sign other than a single minus, no leading zero, no "-0", nothing but digits. */
  predicate Positive(s: string) {
    s != "" && AllDigits(s) && s[0] != '0'
  }

  predicate Canonical(s: string) {
    || s == "0"
    || Positive(s)
    || (s != "" && s[0] == '-' && Positive(s[1..]))
  }

  predicate InLongLong(v: int) {
    LLONG_MIN <= v <= LLONG_MAX
  }

  function Value(s: string): int
    requires Canonical(s)
  {
    if s == "0" then 0
    else if s[0] == '-' then 0 - Val(s[1..])
    else Val(s)
  }

  /** What `string2ll` answers: the value of a canonical decimal that fits 64 signed bits. */
  function Number(s: string): Option<int> {
    if Canonical(s) && InLongLong(Value(s)) then Some(Value(s)) else None
  }

  // ------------------------------------------------------------------ lemmas

  lemma {:induction false} ValOfDec(n: nat)
    ensures Val(Dec(n)) == n
  {
    if n < 10 {
      assert Dec(n)[..0] == "";
    } else {
      ValOfDec(n / 10);
      assert Dec(n)[..|Dec(n)| - 1] == Dec(n / 10);
    }
  }

  lemma {:induction false} PositiveVal(s: string)
    requires Positive(s)
    ensures Val(s) > 0
  {
    if |s| == 1 {
      assert s[..0] == "";
    } else {
      PositiveVal(s[..|s| - 1]);
    }
  }

  lemma {:induction false} DecOfVal(s: string)
    requires Positive(s)
    ensures Dec(Val(s)) == s
  {
    var front, last := s[..|s| - 1], s[|s| - 1];
    if |s| == 1 {
      assert front == "";
      assert s == [last];
    } else {
      PositiveVal(front);
      DecOfVal(front);
      assert Val(s) / 10 == Val(front);
      assert s == front + [last];
    }
  }

  /**
    `string2ll` and `hi_sdsll2str` are inverse to each other: a string is read as `v` exactly
    when it is what `v` prints as, and `v` fits 64 signed bits.
  */
  lemma NumberInvertsShow(s: string, v: int)
    ensures Number(s) == Some(v) <==> s == Show(v) && InLongLong(v)
  {
    if s == Show(v) {
      var digits := Dec(if v < 0 then -v else v);
      ValOfDec(if v < 0 then -v else v);
      if v < 0 {
        assert s[1..] == digits;
      }
      assert Canonical(s) && Value(s) == v;
    }
    if Canonical(s) {
      ShowOfValue(s);
    }
  }

  lemma ShowOfValue(s: string)
    requires Canonical(s)
    ensures Show(Value(s)) == s
  {
    if s != "0" && s[0] == '-' {
      DecOfVal(s[1..]);
      PositiveVal(s[1..]);
      assert s == "-" + s[1..];
    } else if s != "0" {
      DecOfVal(s);
    }
  }

  /** Reading one more digit never makes the value smaller. */
  lemma {:induction false} ValGrows(s: string, k: nat)
    requires AllDigits(s) && k <= |s|
    ensures Val(s[..k]) <= Val(s)
    ensures k < |s| ==> 10 * Val(s[..k]) + (s[k] as int - '0' as int) <= Val(s)
    decreases |s|
  {
    if k == |s| {
      assert s[..k] == s;
    } else if k == |s| - 1 {
    } else {
      var front := s[..|s| - 1];
      ValGrows(front, k);
      assert front[..k] == s[..k];
      assert front[k] == s[k];
    }
  }

  lemma {:induction false} DecLength(n: nat, e: nat)
    requires n < Pow10(e) && e >= 1
    ensures |Dec(n)| <= e
  {
    if n >= 10 {
      DecLength(n / 10, e - 1);
    }
  }

  function Pow10(e: nat): nat {
    if e == 0 then 1 else 10 * Pow10(e - 1)
  }

  lemma ShowFitsBuffer(v: int)
    requires InLongLong(v)
    ensures |Show(v)| + 1 <= LLSTR_SIZE
  {
    assert Pow10(19) == 10000000000000000000 by {
      assert Pow10(5) == 100000;
      assert Pow10(10) == 100000 * Pow10(5);
      assert Pow10(15) == 100000 * Pow10(10);
    }
    DecLength(if v < 0 then -v else v, 19);
  }

  // ----------------------------------------------------------------- methods

  /**
    `string2ll`. The accumulator has type `ULong`, so its two overflow tests are proved to keep
    every intermediate value within 64 unsigned bits. The second test for "0" in the source
    (after the minus sign has been handled) can never succeed and has no counterpart here.
  */
  method String2ll(s: string) returns (r: Option<int>)
    ensures r == Number(s)
  {
    var plen, negative := 0, false;
    if plen == |s| {
      return None;
    }
    if |s| == 1 && s[0] == '0' {
      return Some(0);
    }
    if s[0] == '-' {
      negative, plen := true, 1;
      if plen == |s| {
        return None;
      }
    }
    ghost var first := plen;
    if !('1' <= s[plen] <= '9') {
      return None;
    }
    var v: ULong := (s[plen] as int - '0' as int) as ULong;
    plen := plen + 1;
    assert s[first..plen] == [s[first]] && [s[first]][..0] == "";

    while plen < |s| && IsDigit(s[plen])
      invariant first < plen <= |s|
      invariant AllDigits(s[first..plen]) && Val(s[first..plen]) == v as int
    {
      var d := (s[plen] as int - '0' as int) as ULong;
      OneMoreDigit(s, first, plen);
      if v > 0xFFFF_FFFF_FFFF_FFFF / 10 {
        TooBig(s, first, plen);
        return None;
      }
      v := v * 10;
      if v > 0xFFFF_FFFF_FFFF_FFFF - d {
        TooBig(s, first, plen);
        return None;
      }
      v := v + d;
      plen := plen + 1;
    }
    if plen < |s| {
      NotAllDigits(s, first, plen);
      return None;
    }
    assert s[first..] == s[first..plen];
    NumberOfDigits(s, first);
    if negative {
      if v > 0x8000_0000_0000_0000 {
        return None;
      }
      return Some(-(v as int));
    } else {
      if v > 0x7FFF_FFFF_FFFF_FFFF {
        return None;
      }
      return Some(v as int);
    }
  }

  /** Where the digits of `s` start. */
  ghost predicate StartsAt(s: string, first: nat) {
    first < |s| && first <= 1 && (first == 1 <==> s[0] == '-')
  }

  lemma OneMoreDigit(s: string, first: nat, plen: nat)
    requires first <= plen < |s| && AllDigits(s[first..plen]) && IsDigit(s[plen])
    ensures AllDigits(s[first..plen + 1])
    ensures Val(s[first..plen + 1]) == 10 * Val(s[first..plen]) + (s[plen] as int - '0' as int)
  {
    var digits := s[first..plen + 1];
    assert digits[..|digits| - 1] == s[first..plen];
  }

  lemma NumberOfDigits(s: string, first: nat)
    requires StartsAt(s, first) && AllDigits(s[first..]) && s[first] != '0'
    ensures Number(s) ==
      var v := if first == 1 then 0 - Val(s[first..]) else Val(s[first..]);
      if InLongLong(v) then Some(v) else None
  {
    assert s[0..] == s;
  }

  lemma TooBig(s: string, first: nat, plen: nat)
    requires StartsAt(s, first) && first < plen < |s| && s[first] != '0'
    requires AllDigits(s[first..plen]) && IsDigit(s[plen])
    requires 10 * Val(s[first..plen]) + (s[plen] as int - '0' as int) > ULLONG_MAX
    ensures Number(s) == None
  {
    var digits := s[first..];
    if AllDigits(digits) {
      ValGrows(digits, plen - first);
      assert digits[..plen - first] == s[first..plen];
    }
    assert s[0..] == s;
  }

  lemma NotAllDigits(s: string, first: nat, plen: nat)
    requires StartsAt(s, first) && first < plen < |s| && s[first] != '0' && !IsDigit(s[plen])
    ensures Number(s) == None
  {
    assert s[first..][plen - first] == s[plen];
    assert s[0..] == s;
  }

  /** The digit loop of `hi_sdsll2str`: it leaves the digits in reverse order. */
  method PutDigits(a: array<char>, magnitude: ULong, ghost digits: string) returns (p: nat)
    requires digits == Dec(magnitude as int) && a.Length >= |digits|
    modifies a
    ensures p == |digits|
    ensures forall k | 0 <= k < p :: a[k] == digits[p - 1 - k]
    ensures forall k | p <= k < a.Length :: a[k] == old(a[k])
  {
    var v, more := magnitude, true;
    p := 0;
    while more
      invariant p <= |digits|
      invariant if more then Dec(v as int) == digits[..|digits| - p] else p == |digits|
      invariant forall k | 0 <= k < p :: a[k] == digits[|digits| - 1 - k]
      invariant forall k | p <= k < a.Length :: a[k] == old(a[k])
      decreases more, v
    {
      a[p] := Digit((v % 10) as int);
      p := p + 1;
      v := v / 10;
      more := v != 0;
    }
  }

  /** `hi_sdsll2str`: digits are produced least significant first, then reversed in place. */
  method Ll2str(a: array<char>, value: int) returns (l: nat)
    requires a.Length >= LLSTR_SIZE && InLongLong(value)
    modifies a
    ensures l == |Show(value)| < LLSTR_SIZE
    ensures a[..l] == Show(value) && a[l] == '\0'
    ensures forall k | l < k < a.Length :: a[k] == old(a[k])
  {
    ShowFitsBuffer(value);
    var magnitude := if value < 0 then -value else value;
    ghost var text := Show(value);
    var p := PutDigits(a, magnitude as ULong, Dec(magnitude));
    if value < 0 {
      a[p] := '-';
      p := p + 1;
    }
    l := p;
    a[p] := '\0';
    assert forall k | 0 <= k < l :: a[k] == text[l - 1 - k];
    ReverseInPlace(a, l);
  }

  /** The closing loop of `hi_sdsll2str`. */
  method ReverseInPlace(a: array<char>, l: nat)
    requires l <= a.Length
    modifies a
    ensures forall k | 0 <= k < l :: a[k] == old(a[l - 1 - k])
    ensures forall k | l <= k < a.Length :: a[k] == old(a[k])
  {
    var s, p := 0, l - 1;
    while s < p
      invariant 0 <= s <= l && s + p == l - 1
      invariant s <= p + 2
      invariant forall k | 0 <= k < s :: a[k] == old(a[l - 1 - k]) && a[l - 1 - k] == old(a[k])
      invariant forall k | s <= k <= p :: a[k] == old(a[k])
      invariant forall k | l <= k < a.Length :: a[k] == old(a[k])
    {
      a[s], a[p] := a[p], a[s];
      s, p := s + 1, p - 1;
    }
  }
}
