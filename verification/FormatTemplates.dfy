/** Where the values of a format end up: the format alone says how every argument is put together. */
module FormatTemplates {
  import opened Options
  import opened Formatter

  /** A piece of an argument: text of the format, or a value, which `%s` cuts at its first NUL. */
  datatype Part = Literal(text: string) | Value(i: nat, cut: bool)

  /**
    The arguments that a format describes, each as a list of parts. `cur` is the argument that is
    being collected, `i` the number of the next value. None if the format has another conversion.
  */
  function Templates(format: string, i: nat, cur: seq<Part>): Option<seq<seq<Part>>> {
    if format == "" then Some(Ended(cur))
    else if format[0] == ' ' then Behind(Ended(cur), Templates(format[1..], i, []))
    else if format[0] != '%' || |format| == 1 then Templates(format[1..], i, cur + [Literal([format[0]])])
    else if format[1] == '%' then Templates(format[2..], i, cur + [Literal("%")])
    else if format[1] in {'s', 'b'} then Templates(format[2..], i + 1, cur + [Value(i, format[1] == 's')])
    else None
  }

  function Ended(cur: seq<Part>): seq<seq<Part>> {
    if cur == [] then [] else [cur]
  }

  function Behind(first: seq<seq<Part>>, rest: Option<seq<seq<Part>>>): Option<seq<seq<Part>>> {
    if rest.Some? then Some(first + rest.value) else None
  }

  /** How many values a format takes. */
  function ValueCount(format: string): nat {
    if format == "" then 0
    else if format[0] != '%' || |format| == 1 then ValueCount(format[1..])
    else if format[1] in {'s', 'b'} then 1 + ValueCount(format[2..])
    else ValueCount(format[2..])
  }

  /** Parts with the values filled in. */
  function Fill(parts: seq<Part>, args: seq<string>): string {
    if parts == [] then "" else Fill(parts[..|parts| - 1], args) + FillPart(parts[|parts| - 1], args)
  }

  function FillPart(p: Part, args: seq<string>): string {
    match p
    case Literal(text) => text
    case Value(i, cut) => if i >= |args| then "" else if cut then CString(args[i]) else args[i]
  }

  function FillEach(ts: seq<seq<Part>>, args: seq<string>): seq<string> {
    if ts == [] then [] else [Fill(ts[0], args)] + FillEach(ts[1..], args)
  }

  /** The filled templates behind the arguments `argv`, if there are enough values. */
  ghost function Filled(argv: seq<string>, ts: Option<seq<seq<Part>>>, enough: bool,
        args: seq<string>): Option<seq<string>> {
    if ts.Some? && enough then Some(argv + FillEach(ts.value, args)) else None
  }

  lemma FillOneMore(parts: seq<Part>, p: Part, args: seq<string>)
    ensures Fill(parts + [p], args) == Fill(parts, args) + FillPart(p, args)
  {
    assert (parts + [p])[..|parts|] == parts;
  }

  /** One more part of the argument that is being collected. */
  lemma PartFills(argv: seq<string>, cur: seq<Part>, p: Part, args: seq<string>, rest: Scanned)
    ensures Result(argv, Pending(Fill(cur, args), cur != [], Cons(Piece(FillPart(p, args)), rest))) ==
      Result(argv, Pending(Fill(cur + [p], args), cur + [p] != [], rest))
  {
    FillOneMore(cur, p, args);
    AddPiece(argv, Fill(cur, args), cur != [], FillPart(p, args), rest);
  }

  /** A break ends that argument. */
  lemma BreakFills(argv: seq<string>, cur: seq<Part>, ts: Option<seq<seq<Part>>>, enough: bool, args: seq<string>)
    ensures Filled(argv, Behind(Ended(cur), ts), enough, args) ==
      Filled(if cur != [] then argv + [Fill(cur, args)] else argv, ts, enough, args)
  {
    if ts.Some? {
      if cur == [] {
        assert [] + ts.value == ts.value;
      } else {
        var all := [cur] + ts.value;
        assert all[1..] == ts.value;
        assert argv + ([Fill(cur, args)] + FillEach(ts.value, args)) ==
          argv + [Fill(cur, args)] + FillEach(ts.value, args);
      }
    }
  }

  lemma EndFills(argv: seq<string>, cur: seq<Part>, args: seq<string>)
    ensures Result(argv, Pending(Fill(cur, args), cur != [], Items([]))) == Some(argv + FillEach(Ended(cur), args))
  {
    if cur != [] {
      var items := [Piece(Fill(cur, args))];
      assert items + [] == items;
      assert Words(items) == [items[0].text] + Words([]);
      assert [cur][1..] == [] && FillEach([cur], args) == [Fill(cur, args)];
    }
  }

  lemma {:induction false} TemplatesFill(
      format: string, args: seq<string>, i: nat, cur: seq<Part>, argv: seq<string>)
    requires i <= |args|
    ensures Result(argv, Pending(Fill(cur, args), cur != [], Scan(format, args[i..]))) ==
      Filled(argv, Templates(format, i, cur), ValueCount(format) <= |args| - i, args)
    decreases |format|
  {
    if format == "" {
      EndFills(argv, cur, args);
    } else if format[0] == ' ' {
      var argv' := if cur != [] then argv + [Fill(cur, args)] else argv;
      AddBreak(argv, Fill(cur, args), cur != [], Scan(format[1..], args[i..]));
      TemplatesFill(format[1..], args, i, [], argv');
      BreakFills(argv, cur, Templates(format[1..], i, []), ValueCount(format) <= |args| - i, args);
    } else if format[0] != '%' || |format| == 1 {
      var p := Literal([format[0]]);
      PartFills(argv, cur, p, args, Scan(format[1..], args[i..]));
      TemplatesFill(format[1..], args, i, cur + [p], argv);
    } else if format[1] == '%' {
      PartFills(argv, cur, Literal("%"), args, Scan(format[2..], args[i..]));
      TemplatesFill(format[2..], args, i, cur + [Literal("%")], argv);
    } else if format[1] in {'s', 'b'} && i < |args| {
      var p := Value(i, format[1] == 's');
      assert args[i..][0] == args[i] && args[i..][1..] == args[i + 1..];
      PartFills(argv, cur, p, args, Scan(format[2..], args[i + 1..]));
      TemplatesFill(format[2..], args, i + 1, cur + [p], argv);
    }
  }

  /**
    For every format and every list of values: the arguments are the templates of the format, each
    filled in. So an argument ends only at a blank of the format, values go where their conversions
    stand, whole and in order, and there is no command exactly for a conversion that is not known or
    for too few values.
  */
  lemma FormatAloneSplits(format: string, args: seq<string>)
    ensures Result([], Scan(format, args)) == Filled([], Templates(format, 0, []), ValueCount(format) <= |args|, args)
  {
    TemplatesFill(format, args, 0, [], []);
    assert args[0..] == args;
  }

  // ------------------------------------------------------ formats for templates

  /** How a part is written in a format; a literal is one character. */
  function PartText(p: Part): string {
    match p
    case Literal(text) => if text == "%" then "%%" else text
    case Value(_, cut) => if cut then "%s" else "%b"
  }

  function PartsText(parts: seq<Part>): string {
    if parts == [] then "" else PartText(parts[0]) + PartsText(parts[1..])
  }

  function Blanks(n: nat): string {
    if n == 0 then "" else " " + Blanks(n - 1)
  }

  /** A format for these arguments, with `gaps` of blanks in front, in between, and at the end. */
  function FormatOf(ts: seq<seq<Part>>, gaps: seq<nat>): string
    requires |gaps| == |ts| + 1
  {
    Blanks(gaps[0]) + if ts == [] then "" else PartsText(ts[0]) + FormatOf(ts[1..], gaps[1..])
  }

  /** The number of the next value behind these parts, if the first one has number `i`. */
  function NextValue(parts: seq<Part>, i: nat): nat {
    if parts == [] then i else NextValue(parts[1..], if parts[0].Value? then i + 1 else i)
  }

  /** Literals are single characters and no blanks; values are numbered from `i` on. */
  predicate Proper(parts: seq<Part>, i: nat) {
    parts != [] ==>
      match parts[0]
      case Literal(text) => |text| == 1 && text[0] != ' ' && Proper(parts[1..], i)
      case Value(n, _) => n == i && Proper(parts[1..], i + 1)
  }

  /** Every argument has parts, and there is a blank between any two arguments. */
  predicate AllProper(ts: seq<seq<Part>>, gaps: seq<nat>, i: nat)
    requires |gaps| == |ts| + 1
  {
    ts != [] ==>
      && ts[0] != [] && Proper(ts[0], i) && (|ts| > 1 ==> gaps[1] > 0)
      && AllProper(ts[1..], gaps[1..], NextValue(ts[0], i))
  }

  lemma {:induction false} PartsAreRead(parts: seq<Part>, rest: string, i: nat, cur: seq<Part>)
    requires Proper(parts, i)
    ensures Templates(PartsText(parts) + rest, i, cur) == Templates(rest, NextValue(parts, i), cur + parts)
    decreases |parts|
  {
    if parts == [] {
      assert PartsText(parts) + rest == rest && cur + parts == cur;
    } else {
      var p, behind := parts[0], PartsText(parts[1..]) + rest;
      assert PartsText(parts) + rest == PartText(p) + behind;
      PartsAreRead(parts[1..], rest, if p.Value? then i + 1 else i, cur + [p]);
      PartIsRead(p, behind, i, cur);
      assert cur + [p] + parts[1..] == cur + parts;
    }
  }

  lemma PartIsRead(p: Part, rest: string, i: nat, cur: seq<Part>)
    requires match p case Literal(text) => |text| == 1 && text[0] != ' ' case Value(n, _) => n == i
    ensures Templates(PartText(p) + rest, i, cur) == Templates(rest, if p.Value? then i + 1 else i, cur + [p])
  {
    var text := PartText(p);
    assert (text + rest)[|text|..] == rest;
    if p.Literal? { assert p.text == [p.text[0]]; }
  }

  /** Blanks end the argument that is being collected. */
  lemma {:induction false} BlanksAreRead(n: nat, rest: string, i: nat, cur: seq<Part>)
    requires n > 0
    ensures Templates(Blanks(n) + rest, i, cur) == Behind(Ended(cur), Templates(rest, i, []))
  {
    var behind := Blanks(n - 1) + rest;
    assert Blanks(n) + rest == " " + behind && (" " + behind)[1..] == behind;
    if n > 1 {
      BlanksAreRead(n - 1, rest, i, []);
      NothingBehind(Templates(rest, i, []));
    } else {
      assert behind == rest;
    }
  }

  lemma NothingBehind(ts: Option<seq<seq<Part>>>)
    ensures Behind(Ended([]), ts) == ts
  {
    if ts.Some? { assert [] + ts.value == ts.value; }
  }

  /** Behind the parts of an argument there is a blank, or the format ends. */
  lemma ArgumentEnds(ts: seq<seq<Part>>, gaps: seq<nat>, i: nat, cur: seq<Part>)
    requires |gaps| == |ts| + 1 && (ts != [] ==> gaps[0] > 0)
    ensures Templates(FormatOf(ts, gaps), i, cur) == Behind(Ended(cur), Templates(FormatOf(ts, gaps), i, []))
  {
    var rest := if ts == [] then "" else PartsText(ts[0]) + FormatOf(ts[1..], gaps[1..]);
    if gaps[0] > 0 {
      BlanksAreRead(gaps[0], rest, i, cur);
      BlanksAreRead(gaps[0], rest, i, []);
      NothingBehind(Templates(rest, i, []));
    } else {
      assert Ended(cur) + [] == Ended(cur);
    }
  }

  /** A format written for given arguments is read as these arguments. */
  lemma {:induction false} FormatIsRead(ts: seq<seq<Part>>, gaps: seq<nat>, i: nat)
    requires |gaps| == |ts| + 1 && AllProper(ts, gaps, i)
    ensures Templates(FormatOf(ts, gaps), i, []) == Some(ts)
    decreases |ts|
  {
    var rest := if ts == [] then "" else PartsText(ts[0]) + FormatOf(ts[1..], gaps[1..]);
    if gaps[0] > 0 {
      BlanksAreRead(gaps[0], rest, i, []);
      NothingBehind(Templates(rest, i, []));
    } else {
      assert FormatOf(ts, gaps) == rest;
    }
    if ts != [] {
      var tail, n := FormatOf(ts[1..], gaps[1..]), NextValue(ts[0], i);
      PartsAreRead(ts[0], tail, i, []);
      assert [] + ts[0] == ts[0];
      ArgumentEnds(ts[1..], gaps[1..], n, ts[0]);
      FormatIsRead(ts[1..], gaps[1..], n);
      assert ts == [ts[0]] + ts[1..];
    }
  }

  /**
    The formatter does what its format says. For any arguments put together from characters and
    values, and any blanks between them: the format that writes them down, `%%` for a percent sign,
    `%s` or `%b` for a value, gives exactly these arguments.
  */
  lemma FormatSaysArguments(ts: seq<seq<Part>>, gaps: seq<nat>, args: seq<string>)
    requires |gaps| == |ts| + 1 && AllProper(ts, gaps, 0)
    ensures Result([], Scan(FormatOf(ts, gaps), args)) ==
      if ValueCount(FormatOf(ts, gaps)) <= |args| then Some(FillEach(ts, args)) else None
  {
    FormatAloneSplits(FormatOf(ts, gaps), args);
    FormatIsRead(ts, gaps, 0);
    assert [] + FillEach(ts, args) == FillEach(ts, args);
  }
}
