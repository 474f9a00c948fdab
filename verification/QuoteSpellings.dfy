/** Every way to write an argument: plain, in double quotes with any escapes, or in single quotes. */
module QuoteSpellings {
  import opened Options
  import opened Quote

  /** What a backslash and this character stand for in double quotes. */
  function Meaning(d: char): char {
    if d == 'n' then 10 as char
    else if d == 'r' then 13 as char
    else if d == 't' then 9 as char
    else if d == 'b' then 8 as char
    else if d == 'a' then 7 as char
    else d
  }

  const LOWER: string := "0123456789abcdef"
  const UPPER: string := "0123456789ABCDEF"

  /** `c` is the hexadecimal digit of value `v`, in either case. */
  ghost predicate IsHexOf(c: char, v: nat) {
    v < 16 && (c == LOWER[v] || c == UPPER[v])
  }

  /** The text `u` stands for the character `c` in this mode. */
  ghost predicate Unit(mode: Mode, u: string, c: char) {
    match mode
    case Plain => u == [c] && c !in " \n\r\t\"'\0"
    case Quoted =>
      || (u == [c] && c !in "\\\"\0")
      || (|u| == 2 && u[0] == '\\' && u[1] !in "x\0" && c == Meaning(u[1]))
      || (|u| == 4 && u[..2] == "\\x" && c as int < 256
          && IsHexOf(u[2], c as int / 16) && IsHexOf(u[3], c as int % 16))
    case SingleQuoted => (u == [c] && c !in "'\0") || (u == "\\'" && c == '\'')
  }

  ghost predicate Spells(mode: Mode, us: seq<string>, x: string) {
    |us| == |x| && forall i | 0 <= i < |us| :: Unit(mode, us[i], x[i])
  }

  function Join(us: seq<string>): string {
    if us == [] then "" else us[0] + Join(us[1..])
  }

  lemma HexOf(c: char, v: nat)
    requires IsHexOf(c, v)
    ensures IsHex(c) && HexValue(c) == v
  {
  }

  lemma DoubleUnit(u: string, c: char, s: string, arg: string)
    requires Unit(Quoted, u, c)
    ensures Step(u + s, Quoted, arg) == Go(|u|, Quoted, arg + [c])
  {
    if |u| == 4 {
      HexOf(u[2], c as int / 16);
      HexOf(u[3], c as int % 16);
      assert u[0] == u[..2][0] && u[1] == u[..2][1];
    }
  }

  /** In single quotes a backslash escapes the quote only, so it must not stand in front of the closing one. */
  lemma SingleUnit(u: string, c: char, s: string, arg: string)
    requires Unit(SingleQuoted, u, c) && (u == "\\" ==> At(s, 0) != '\'')
    ensures Step(u + s, SingleQuoted, arg) == Go(|u|, SingleQuoted, arg + [c])
  {
    assert u == [c] ==> At(u + s, 1) == At(s, 0);
  }

  lemma PlainUnit(u: string, c: char, s: string, arg: string)
    requires Unit(Plain, u, c)
    ensures Step(u + s, Plain, arg) == Go(|u|, Plain, arg + [c])
  {
  }

  lemma UnitScans(mode: Mode, u: string, c: char, s: string, arg: string)
    requires Unit(mode, u, c) && (mode.SingleQuoted? && u == "\\" ==> At(s, 0) != '\'')
    ensures Scan(u + s, mode, arg) == Scan(s, mode, arg + [c])
  {
    match mode
    case Quoted => DoubleUnit(u, c, s, arg);
    case SingleQuoted => SingleUnit(u, c, s, arg);
    case Plain => PlainUnit(u, c, s, arg);
    assert (u + s)[|u|..] == s;
  }

  /** The last unit may be followed by `s`. */
  ghost predicate MayEnd(mode: Mode, us: seq<string>, s: string) {
    mode.SingleQuoted? && us != [] && us[|us| - 1] == "\\" ==> At(s, 0) != '\''
  }

  lemma {:induction false} UnitsScan(mode: Mode, us: seq<string>, x: string, s: string, arg: string)
    requires Spells(mode, us, x) && MayEnd(mode, us, s)
    ensures Scan(Join(us) + s, mode, arg) == Scan(s, mode, arg + x)
    decreases |us|
  {
    if us == [] {
      assert Join(us) + s == s && arg + x == arg;
    } else {
      var u, behind := us[0], Join(us[1..]) + s;
      assert Join(us) + s == u + behind;
      NoQuoteNext(mode, us, x, s);
      UnitScans(mode, u, x[0], behind, arg);
      UnitsScan(mode, us[1..], x[1..], s, arg + [x[0]]);
      TakeFirst(arg, x);
    }
  }

  /** No unit begins with a single quote. */
  lemma NoQuoteNext(mode: Mode, us: seq<string>, x: string, s: string)
    requires us != [] && Spells(mode, us, x) && MayEnd(mode, us, s)
    ensures mode.SingleQuoted? && us[0] == "\\" ==> At(Join(us[1..]) + s, 0) != '\''
    ensures Spells(mode, us[1..], x[1..]) && MayEnd(mode, us[1..], s)
  {
    if |us| == 1 {
      assert Join(us[1..]) + s == s;
    } else {
      assert Unit(mode, us[1], x[1]) && us[1..][0] == us[1];
      assert At(Join(us[1..]) + s, 0) == us[1][0];
      assert us[1..][|us| - 2] == us[|us| - 1];
    }
  }

  /** An argument: a plain part, which may be followed by a part in quotes. */
  datatype Spelling = Spelling(plain: string, mode: Mode, units: seq<string>, text: string)

  function Quotes(mode: Mode): string {
    match mode
    case Plain => ""
    case Quoted => "\""
    case SingleQuoted => "'"
  }

  function Written(a: Spelling): string {
    a.plain + Quotes(a.mode) + Join(a.units) + Quotes(a.mode)
  }

  ghost predicate Right(a: Spelling) {
    && (forall i | 0 <= i < |a.plain| :: Unit(Plain, [a.plain[i]], a.plain[i]))
    && (if a.mode.Plain? then a.units == [] && a.text == "" && a.plain != ""
        else Spells(a.mode, a.units, a.text) && MayEnd(a.mode, a.units, Quotes(a.mode)))
  }

  lemma {:induction false} PlainScans(plain: string, s: string, arg: string)
    requires forall i | 0 <= i < |plain| :: Unit(Plain, [plain[i]], plain[i])
    ensures Scan(plain + s, Plain, arg) == Scan(s, Plain, arg + plain)
  {
    if plain == "" {
      assert plain + s == s && arg + plain == arg;
    } else {
      assert plain + s == [plain[0]] + (plain[1..] + s);
      UnitScans(Plain, [plain[0]], plain[0], plain[1..] + s, arg);
      PlainScans(plain[1..], s, arg + [plain[0]]);
      TakeFirst(arg, plain);
    }
  }

  lemma OpensQuotes(mode: Mode, s: string, arg: string)
    requires !mode.Plain?
    ensures Scan(Quotes(mode) + s, Plain, arg) == Scan(s, mode, arg)
  {
    assert (Quotes(mode) + s)[1..] == s;
  }

  lemma ClosesQuotes(mode: Mode, s: string, arg: string)
    requires !mode.Plain?
    ensures Scan(Quotes(mode) + s, mode, arg) == if EndsToken(At(s, 0)) then Token(arg, s) else Unbalanced
  {
    assert (Quotes(mode) + s)[1..] == s && At(Quotes(mode) + s, 1) == At(s, 0);
  }

  /**
    However an argument is written, it is read back, up to the blank or the end behind it; text right
    behind a closing quote is an error.
  */
  lemma SpellingScans(a: Spelling, s: string)
    requires Right(a) && (a.mode.Plain? ==> At(s, 0) in " \n\r\t\0")
    ensures Scan(Written(a) + s, Plain, "") ==
      if !a.mode.Plain? && !EndsToken(At(s, 0)) then Unbalanced
      else Token(a.plain + a.text, if a.mode.Plain? && At(s, 0) != '\0' then s[1..] else s)
  {
    var q := Quotes(a.mode);
    var quoted := q + (Join(a.units) + (q + s));
    assert Written(a) + s == a.plain + quoted;
    PlainScans(a.plain, quoted, "");
    assert "" + a.plain == a.plain;
    if a.mode.Plain? {
      assert quoted == s && a.plain + a.text == a.plain;
    } else {
      OpensQuotes(a.mode, Join(a.units) + (q + s), a.plain);
      assert At(q + s, 0) == At(q, 0);
      UnitsScan(a.mode, a.units, a.text, q + s, a.plain);
      ClosesQuotes(a.mode, s, a.plain + a.text);
    }
  }

  /** A quote that is not closed is an error. */
  lemma Unclosed(plain: string, mode: Mode, us: seq<string>, x: string)
    requires !mode.Plain? && Spells(mode, us, x)
    requires forall i | 0 <= i < |plain| :: Unit(Plain, [plain[i]], plain[i])
    ensures Scan(plain + (Quotes(mode) + Join(us)), Plain, "") == Unbalanced
  {
    PlainScans(plain, Quotes(mode) + Join(us), "");
    assert "" + plain == plain;
    OpensQuotes(mode, Join(us), plain);
    UnitsScan(mode, us, x, "", plain);
    assert Join(us) + "" == Join(us);
  }

  // -------------------------------------------------------------------- lines

  /** A line of these arguments; each is followed by its blanks. */
  function LineOf(items: seq<Spelling>, gaps: seq<string>): string
    requires |gaps| == |items| + 1
  {
    gaps[0] + if items == [] then "" else Written(items[0]) + LineOf(items[1..], gaps[1..])
  }

  function ValuesOf(items: seq<Spelling>): seq<string> {
    if items == [] then [] else [items[0].plain + items[0].text] + ValuesOf(items[1..])
  }

  ghost predicate IsGap(gap: string) {
    forall i | 0 <= i < |gap| :: gap[i] in " \n\r\t"
  }

  lemma {:induction false} GapSkipped(gap: string, s: string)
    requires IsGap(gap)
    ensures SkipBlanks(gap + s) == SkipBlanks(s)
  {
    if gap == "" {
      assert gap + s == s;
    } else {
      assert (gap + s)[1..] == gap[1..] + s;
      GapSkipped(gap[1..], s);
    }
  }

  lemma SplitSkips(gap: string, s: string)
    requires IsGap(gap)
    ensures Split(gap + s) == Split(s)
  {
    GapSkipped(gap, s);
  }

  /** An argument starts with a character that is skipped by no loop over blanks. */
  ghost predicate Firm(a: Spelling) {
    a.plain != "" ==> !IsSpace(a.plain[0])
  }

  /** The arguments are rightly written, with blanks between any two of them. */
  ghost predicate RightLine(items: seq<Spelling>, gaps: seq<string>)
    requires |gaps| == |items| + 1
  {
    IsGap(gaps[0])
    && (items != [] ==>
          Right(items[0]) && Firm(items[0]) && (|items| > 1 ==> gaps[1] != "") && RightLine(items[1..], gaps[1..]))
  }

  lemma StartsArgument(a: Spelling, s: string)
    requires Right(a) && Firm(a)
    ensures SkipBlanks(Written(a) + s) == Written(a) + s && At(Written(a) + s, 0) != '\0'
  {
    if a.plain != "" {
      assert At(Written(a) + s, 0) == a.plain[0];
      assert Unit(Plain, [a.plain[0]], a.plain[0]);
    } else {
      assert At(Written(a) + s, 0) == Quotes(a.mode)[0];
    }
  }

  /** Behind a plain argument its blank has been consumed already. */
  lemma SplitBehind(gap: string, s: string)
    requires IsGap(gap) && gap != ""
    ensures Split((gap + s)[1..]) == Split(gap + s)
  {
    assert IsGap(gap[1..]) && (gap + s)[1..] == gap[1..] + s;
    SplitSkips(gap, s);
    SplitSkips(gap[1..], s);
  }

  /**
    A line is split into the arguments it spells: whichever way each of them is written, and
    whatever blanks are in front of, between and behind them.
  */
  lemma {:induction false} LineSpellsArguments(items: seq<Spelling>, gaps: seq<string>)
    requires |gaps| == |items| + 1 && RightLine(items, gaps)
    ensures Split(LineOf(items, gaps)) == Some(ValuesOf(items))
    decreases |items|
  {
    if items == [] {
      assert LineOf(items, gaps) == gaps[0] + "";
      SplitSkips(gaps[0], "");
    } else {
      var a, rest := items[0], LineOf(items[1..], gaps[1..]);
      SplitSkips(gaps[0], Written(a) + rest);
      StartsArgument(a, rest);
      GapFirst(items[1..], gaps[1..]);
      SpellingScans(a, rest);
      LineSpellsArguments(items[1..], gaps[1..]);
      if a.mode.Plain? && rest != "" { GapSplits(items[1..], gaps[1..]); }
    }
  }

  /** What follows an argument is a blank or the end. */
  lemma GapFirst(items: seq<Spelling>, gaps: seq<string>)
    requires |gaps| == |items| + 1 && IsGap(gaps[0]) && (items != [] ==> gaps[0] != "")
    ensures At(LineOf(items, gaps), 0) in " \n\r\t\0"
    ensures At(LineOf(items, gaps), 0) == '\0' <==> LineOf(items, gaps) == ""
  {
    if gaps[0] != "" { assert At(LineOf(items, gaps), 0) == gaps[0][0]; }
  }

  lemma GapSplits(items: seq<Spelling>, gaps: seq<string>)
    requires |gaps| == |items| + 1 && IsGap(gaps[0]) && (items != [] ==> gaps[0] != "") && LineOf(items, gaps) != ""
    ensures Split(LineOf(items, gaps)[1..]) == Split(LineOf(items, gaps))
  {
    var rest := if items == [] then "" else Written(items[0]) + LineOf(items[1..], gaps[1..]);
    SplitBehind(gaps[0], rest);
  }
}
