/** The three command formatters of hiredis.c. */
module Formatter {
  import opened Options
  import opened Numbers
  import opened Resp

  const UINT_RANGE: int := 0x1_0000_0000

  // ------------------------------------------------------ what a command is

  function Bulks(argv: seq<string>): string {
    if argv == [] then "" else "$" + Bulk(argv[0]) + Bulks(argv[1..])
  }

  /** The wire form of a command: an array of bulk strings. */
  function Command(argv: seq<string>): string {
    "*" + Line(Show(|argv|)) + Bulks(argv)
  }

  function Texts(argv: seq<string>): (es: seq<Reply>)
    ensures |es| == |argv|
  {
    if argv == [] then [] else [Text(STRING, argv[0])] + Texts(argv[1..])
  }

  lemma {:induction false} BulksAreEncoded(argv: seq<string>)
    ensures AllWellFormed(Texts(argv)) && EncodeAll(Texts(argv)) == Bulks(argv)
  {
    if argv != [] {
      BulksAreEncoded(argv[1..]);
      assert Texts(argv)[1..] == Texts(argv[1..]);
      assert Encode(Text(STRING, argv[0])) == "$" + Bulk(argv[0]);
    }
  }

  lemma {:induction false} TextsAreReadable(cfg: Config, depth: nat, argv: seq<string>)
    requires forall a | a in argv :: |a| <= LLONG_MAX
    ensures AllReadable(cfg, depth, ARRAY, Texts(argv))
  {
    if argv != [] {
      assert argv[0] in argv && forall a | a in argv[1..] :: a in argv;
      TextsAreReadable(cfg, depth, argv[1..]);
      assert Texts(argv)[1..] == Texts(argv[1..]);
    }
  }

  /**
    Reading a formatted command gives an array of exactly its arguments, whatever bytes they hold,
    and consumes every byte of it.
  */
  lemma CommandRoundTrip(cfg: Config, argv: seq<string>, t: string)
    requires |argv| <= INT_MAX && !OverLimit(cfg, |argv|)
    requires forall a | a in argv :: |a| <= LLONG_MAX
    ensures ParseItem(cfg, 0, None, Command(argv) + t) == Done(Agg(ARRAY, Texts(argv)), t)
  {
    var r := Agg(ARRAY, Texts(argv));
    BulksAreEncoded(argv);
    assert Encode(r) == Command(argv);
    TextsAreReadable(cfg, 1, argv);
    assert Readable(cfg, 0, None, r);
    RoundTrip(cfg, 0, None, r, t);
  }

  // ---------------------------------------------------------- lengths ahead

  /** `countDigits` */
  method CountDigits(n: ULong) returns (result: nat)
    ensures result == |Dec(n as int)|
  {
    var v := n;
    result := 1;
    while true
      invariant result + |Dec(v as int)| - 1 == |Dec(n as int)|
      decreases v
    {
      if v < 10000 {
        FewDigits(v as int);
      }
      if v < 10 {
        return;
      }
      if v < 100 {
        return result + 1;
      }
      if v < 1000 {
        return result + 2;
      }
      if v < 10000 {
        return result + 3;
      }
      FourDigits(v as int);
      v := v / 10000;
      result := result + 4;
    }
  }

  lemma FewDigits(v: nat)
    requires v < 10000
    ensures |Dec(v)| == if v < 10 then 1 else if v < 100 then 2 else if v < 1000 then 3 else 4
  {
    assert |Dec(v)| == if v < 10 then 1 else 1 + |Dec(v / 10)|;
    assert |Dec(v / 10)| == if v / 10 < 10 then 1 else 1 + |Dec(v / 100)|;
  }

  lemma FourDigits(v: nat)
    requires v >= 10000
    ensures |Dec(v)| == 4 + |Dec(v / 10000)|
  {
    assert v / 10 / 10 == v / 100 && v / 100 / 10 == v / 1000 && v / 1000 / 10 == v / 10000;
    assert |Dec(v / 100)| == 2 + |Dec(v / 10000)|;
  }

  /** `bulklen` */
  method BulkLen(len: nat) returns (n: nat)
    requires len <= ULLONG_MAX
    ensures forall a: string | |a| == len :: n == |"$" + Bulk(a)|
  {
    var digits := CountDigits(len as ULong);
    n := 1 + digits + 2 + len + 2;
  }

  /** The opening loop of both argv formatters: the length of the command before it is built. */
  method TotalLen(argv: seq<string>) returns (totlen: nat)
    requires |argv| <= INT_MAX && forall a | a in argv :: |a| <= ULLONG_MAX
    ensures totlen == |Command(argv)|
  {
    var digits := CountDigits(|argv| as ULong);
    totlen := 1 + digits + 2;
    for j := 0 to |argv|
      invariant totlen + |Bulks(argv[j..])| == |Command(argv)|
    {
      assert argv[j] in argv;
      var n := BulkLen(|argv[j]|);
      assert n == |"$" + Bulk(argv[j])|;
      totlen := totlen + n;
      assert argv[j..][1..] == argv[j + 1..];
    }
  }

  // ------------------------------------------------------------- formatters

  /** `sprintf` or `memcpy` into the command buffer. */
  method Put(cmd: array<char>, pos: nat, s: string) returns (next: nat)
    requires pos + |s| <= cmd.Length
    modifies cmd
    ensures next == pos + |s|
    ensures cmd[..next] == old(cmd[..pos]) + s
  {
    next := pos + |s|;
    forall k | pos <= k < next {
      cmd[k] := s[k - pos];
    }
  }

  /** One argument: its length, its bytes, and the closing line end. */
  method PutBulk(cmd: array<char>, pos: nat, arg: string) returns (next: nat)
    requires pos + |"$" + Bulk(arg)| <= cmd.Length
    modifies cmd
    ensures next == pos + |"$" + Bulk(arg)|
    ensures cmd[..next] == old(cmd[..pos]) + ("$" + Bulk(arg))
  {
    next := Put(cmd, pos, "$" + Line(Show(|arg|)));
    next := Put(cmd, next, arg);
    next := Put(cmd, next, "\r\n");
    assert "$" + Bulk(arg) == "$" + Line(Show(|arg|)) + arg + "\r\n";
  }

  /** Building the command at protocol level; `totlen` was computed ahead. */
  method Build(argv: seq<string>, totlen: nat) returns (cmd: array<char>)
    requires totlen == |Command(argv)|
    ensures fresh(cmd) && cmd.Length == totlen + 1
    ensures cmd[..totlen] == Command(argv) && cmd[totlen] == '\0'
  {
    cmd := new char[totlen + 1];
    ghost var head := "*" + Line(Show(|argv|));
    var pos := Put(cmd, 0, "*" + Line(Show(|argv|)));
    for j := 0 to |argv|
      invariant pos + |Bulks(argv[j..])| == totlen && 0 <= pos
      invariant |cmd[..pos]| == pos && Rest(cmd[..pos], argv, j, Command(argv))
    {
      FirstBulk(argv, j);
      StepRest(cmd[..pos], argv, j, Command(argv));
      pos := PutBulk(cmd, pos, argv[j]);
    }
    assert Bulks(argv[|argv|..]) == "";
    cmd[pos] := '\0';
  }

  /** What is still missing from the command are the arguments from `j` on. */
  ghost predicate Rest(done: string, argv: seq<string>, j: nat, all: string)
    requires j <= |argv|
  {
    done + Bulks(argv[j..]) == all
  }

  lemma StepRest(done: string, argv: seq<string>, j: nat, all: string)
    requires j < |argv| && Rest(done, argv, j, all)
    ensures Rest(done + ("$" + Bulk(argv[j])), argv, j + 1, all)
  {
    FirstBulk(argv, j);
  }

  lemma FirstBulk(argv: seq<string>, j: nat)
    requires j < |argv|
    ensures Bulks(argv[j..]) == ("$" + Bulk(argv[j])) + Bulks(argv[j + 1..])
  {
    assert argv[j..][1..] == argv[j + 1..];
  }

  /** `redisFormatCommandArgv` */
  method FormatCommandArgv(argv: seq<string>) returns (cmd: array<char>, totlen: nat)
    requires |argv| <= INT_MAX && forall a | a in argv :: |a| <= ULLONG_MAX
    ensures totlen == |Command(argv)| && fresh(cmd) && cmd.Length == totlen + 1
    ensures cmd[..totlen] == Command(argv) && cmd[totlen] == '\0'
  {
    totlen := TotalLen(argv);
    cmd := Build(argv, totlen);
  }

  /** What `redisFormatSdsCommandArgv` writes: it prints each length with a 32-bit conversion. */
  function SdsBulks(argv: seq<string>): string {
    if argv == [] then ""
    else "$" + Line(Show(|argv[0]| % UINT_RANGE)) + Line(argv[0]) + SdsBulks(argv[1..])
  }

  function SdsCommand(argv: seq<string>): string {
    "*" + Line(Show(|argv|)) + SdsBulks(argv)
  }

  /** `redisFormatSdsCommandArgv`; `ok` is the outcome of its closing assertion. */
  method FormatSdsCommandArgv(argv: seq<string>) returns (cmd: string, ok: bool)
    requires |argv| <= INT_MAX && forall a | a in argv :: |a| <= ULLONG_MAX
    ensures cmd == SdsCommand(argv)
    ensures ok == (|cmd| == |Command(argv)|)
    ensures ok && cmd == Command(argv) <==> forall a | a in argv :: |a| < UINT_RANGE
  {
    var totlen := TotalLen(argv);
    cmd := "*" + Line(Show(|argv|));
    ghost var head := cmd;
    for j := 0 to |argv|
      invariant cmd + SdsBulks(argv[j..]) == head + SdsBulks(argv)
    {
      var len := |argv[j]|;
      assert argv[j..][1..] == argv[j + 1..];
      cmd := cmd + ("$" + Line(Show(len % UINT_RANGE)) + Line(argv[j]));
    }
    ok := |cmd| == totlen;
    SdsBulksAgree(argv);
    AllShortMeaning(argv);
    assert cmd == head + SdsBulks(argv);
    assert cmd[|head|..] == SdsBulks(argv) && Command(argv)[|head|..] == Bulks(argv);
  }

  predicate AllShort(argv: seq<string>) {
    argv != [] ==> |argv[0]| < UINT_RANGE && AllShort(argv[1..])
  }

  lemma {:induction false} AllShortMeaning(argv: seq<string>)
    ensures AllShort(argv) <==> forall a | a in argv :: |a| < UINT_RANGE
  {
    if argv != [] {
      AllShortMeaning(argv[1..]);
      assert forall b :: b in argv <==> b == argv[0] || b in argv[1..];
    }
  }

  /** The 32-bit conversion is harmless exactly if every length is below 2^32. */
  lemma {:induction false} SdsBulksAgree(argv: seq<string>)
    ensures SdsBulks(argv) == Bulks(argv) <==> AllShort(argv)
  {
    if argv != [] {
      var a, rest := argv[0], argv[1..];
      SdsBulksAgree(rest);
      if |a| < UINT_RANGE && AllShort(rest) {
        assert |a| % UINT_RANGE == |a|;
        assert "$" + Bulk(a) == "$" + Line(Show(|a|)) + Line(a);
      } else if SdsBulks(argv) == Bulks(argv) {
        SameBulk(a, |a| % UINT_RANGE, Bulks(rest), SdsBulks(rest));
      }
    }
  }

  lemma SameBulk(a: string, w: nat, t: string, t': string)
    requires "$" + Bulk(a) + t == "$" + Line(Show(w)) + Line(a) + t'
    ensures w == |a| && t == t'
  {
    var u, u' := Line(a) + t, Line(a) + t';
    var s, s' := Show(|a|) + "\r\n" + u, Show(w) + "\r\n" + u';
    assert ("$" + Bulk(a) + t)[1..] == s;
    assert ("$" + Line(Show(w)) + Line(a) + t')[1..] == s';
    SameLine(|a|, u, w, u');
    assert u[|a| + 2..] == t && u'[|a| + 2..] == t';
  }

  lemma SameLine(v: nat, t: string, w: nat, t': string)
    requires Show(v) + "\r\n" + t == Show(w) + "\r\n" + t'
    ensures v == w && t == t'
  {
    ShowHasNoNewline(v);
    ShowHasNoNewline(w);
    NewlineOf(Show(v), t);
    NewlineOf(Show(w), t');
    ShowInjective(v, w);
  }

  // ------------------------------------------------- the printf-like formatter

  /** What a format and its arguments mean: pieces of text, and the breaks between arguments. */
  datatype Item = Break | Piece(text: string)

  datatype Scanned =
    | Items(items: seq<Item>)
    /** A conversion other than %s, %b and %% is reached: the printf branch of the source. */
    | OtherConversion
    /** More arguments are asked for than were passed, which C leaves undefined. */
    | MissingArgument

  /** A C string ends in front of its first NUL, or where it ends. */
  function CString(s: string): (r: string)
    ensures r <= s && '\0' !in r && (r == s || s[|r|] == '\0')
  {
    if s == "" || s[0] == '\0' then "" else [s[0]] + CString(s[1..])
  }

  function Cons(i: Item, s: Scanned): Scanned {
    if s.Items? then Items([i] + s.items) else s
  }

  /** Only a blank of the format itself is a break; an argument is one piece whatever it contains. */
  function Scan(format: string, args: seq<string>): Scanned {
    if format == "" then Items([])
    else if format[0] == ' ' then Cons(Break, Scan(format[1..], args))
    else if format[0] != '%' || |format| == 1 then Cons(Piece([format[0]]), Scan(format[1..], args))
    else if format[1] == '%' then Cons(Piece("%"), Scan(format[2..], args))
    else if format[1] in {'s', 'b'} then
      if args == [] then MissingArgument
      else Cons(Piece(if format[1] == 's' then CString(args[0]) else args[0]), Scan(format[2..], args[1..]))
    else OtherConversion
  }

  /** The arguments: adjacent pieces are joined, and every maximal run of pieces is one argument. */
  function Words(items: seq<Item>): seq<string>
    decreases |items|
  {
    if items == [] then []
    else
      var i, rest := items[0], items[1..];
      if i.Break? then Words(rest)
      else if rest == [] || rest[0].Break? then [i.text] + Words(rest)
      else Words([Piece(i.text + rest[0].text)] + rest[1..])
  }

  /** The argument being collected, put back in front of the items still to come. */
  function Pending(cur: string, touched: bool, s: Scanned): Scanned {
    if touched then Cons(Piece(cur), s) else s
  }

  function Result(argv: seq<string>, s: Scanned): Option<seq<string>> {
    if s.Items? then Some(argv + Words(s.items)) else None
  }

  lemma AddPiece(argv: seq<string>, cur: string, touched: bool, text: string, rest: Scanned)
    requires !touched ==> cur == ""
    ensures Result(argv, Pending(cur, touched, Cons(Piece(text), rest))) ==
      Result(argv, Pending(cur + text, true, rest))
  {
    if rest.Items? && touched {
      var items := [Piece(cur)] + ([Piece(text)] + rest.items);
      assert items[1..] == [Piece(text)] + rest.items && items[1..][1..] == rest.items;
    } else {
      assert !touched ==> cur + text == text;
    }
  }

  lemma AddBreak(argv: seq<string>, cur: string, touched: bool, rest: Scanned)
    ensures Result(argv, Pending(cur, touched, Cons(Break, rest))) ==
      Result(if touched then argv + [cur] else argv, rest)
  {
    if rest.Items? {
      var items := [Break] + rest.items;
      assert items[1..] == rest.items && Words(items) == Words(rest.items);
      if touched {
        var all := [Piece(cur)] + items;
        assert all[1..] == items && items[0].Break?;
        assert Words(all) == [cur] + Words(items);
        assert argv + ([cur] + Words(rest.items)) == argv + [cur] + Words(rest.items);
      }
    }
  }

  /** The `switch` on a conversion: the text it stands for, and the values left. */
  method Convert(format: string, c: nat, args: seq<string>, a: nat) returns (ok: bool, text: string, next: nat)
    requires c + 1 < |format| && format[c] == '%' && a <= |args|
    ensures !ok ==> !Scan(format[c..], args[a..]).Items?
    ensures ok ==> a <= next <= |args|
    ensures ok ==> Scan(format[c..], args[a..]) == Cons(Piece(text), Scan(format[c + 2..], args[next..]))
  {
    assert format[c..][1..] == format[c + 1..] && format[c..][2..] == format[c + 2..];
    text, next := "%", a;
    if format[c + 1] in {'s', 'b'} {
      if a == |args| { return false, "", a; }
      assert args[a..][1..] == args[a + 1..];
      text := if format[c + 1] == 's' then CString(args[a]) else args[a];
      next := a + 1;
    } else if format[c + 1] != '%' {
      return false, "", a;
    }
    ok := true;
  }

  /** The scanning loop of `redisvFormatCommand`, without its printf branch. */
  method CollectArguments(format: string, args: seq<string>) returns (argv: Option<seq<string>>)
    ensures argv == Result([], Scan(format, args))
  {
    var c, a := 0, 0;
    var curarg, touched, curargv := "", false, [];
    assert format[0..] == format && args[0..] == args;
    while c < |format|
      invariant 0 <= c <= |format| && 0 <= a <= |args| && (!touched ==> curarg == "")
      invariant Result(curargv, Pending(curarg, touched, Scan(format[c..], args[a..]))) ==
        Result([], Scan(format, args))
    {
      ghost var f := format[c..];
      assert f[1..] == format[c + 1..] && (|f| >= 2 ==> f[2..] == format[c + 2..]);
      if format[c] != '%' || c + 1 == |format| {
        if format[c] == ' ' {
          AddBreak(curargv, curarg, touched, Scan(format[c + 1..], args[a..]));
          if touched {
            curargv := curargv + [curarg];
            curarg, touched := "", false;
          }
        } else {
          AddPiece(curargv, curarg, touched, [format[c]], Scan(format[c + 1..], args[a..]));
          curarg, touched := curarg + [format[c]], true;
        }
      } else {
        var ok, text, next := Convert(format, c, args, a);
        if !ok { return None; }
        a := next;
        AddPiece(curargv, curarg, touched, text, Scan(format[c + 2..], args[a..]));
        curarg, touched := curarg + text, true;
        c := c + 1;
      }
      c := c + 1;
    }
    assert format[c..] == "";
    if touched {
      assert [Piece(curarg)] + [] == [Piece(curarg)];
      assert Words([Piece(curarg)]) == [curarg] + Words([]);
      assert [curarg] + [] == [curarg];
      curargv := curargv + [curarg];
    } else {
      assert curargv + Words([]) == curargv;
    }
    argv := Some(curargv);
  }

  /** The arguments fit C's `int` and `size_t`. */
  ghost predicate Fits(argv: Option<seq<string>>) {
    argv.Some? ==> |argv.value| <= INT_MAX && forall a | a in argv.value :: |a| <= ULLONG_MAX
  }

  /**
    `redisvFormatCommand`: the arguments are the words of the format, and the command is byte for
    byte the one `redisFormatCommandArgv` builds from them. No command at all if the format reaches
    a conversion that is not modelled, or asks for more arguments than there are.
  */
  method FormatCommand(format: string, args: seq<string>) returns (cmd: array?<char>, totlen: nat)
    requires Fits(Result([], Scan(format, args)))
    ensures match Result([], Scan(format, args))
      case None => cmd == null
      case Some(argv) =>
        && cmd != null && fresh(cmd) && cmd.Length == totlen + 1
        && cmd[..totlen] == Command(argv) && cmd[totlen] == '\0'
  {
    var argv := CollectArguments(format, args);
    if argv.None? {
      return null, 0;
    }
    totlen := TotalLen(argv.value);
    cmd := Build(argv.value, totlen);
  }

  /** The conversions `cs`, with a blank between any two of them: "%s %b %s", say. */
  function Conversions(cs: string): string {
    if cs == "" then "" else if |cs| == 1 then ['%', cs[0]] else ['%', cs[0], ' '] + Conversions(cs[1..])
  }

  /** The values can be passed for these conversions; what `%s` is to copy holds no NUL. */
  ghost predicate Suits(cs: string, args: seq<string>) {
    |cs| == |args| && forall i | 0 <= i < |cs| :: cs[i] == 'b' || (cs[i] == 's' && '\0' !in args[i])
  }

  /** One piece for each value, and a break between any two of them. */
  function Spaced(args: seq<string>): seq<Item> {
    if args == [] then []
    else if |args| == 1 then [Piece(args[0])]
    else [Piece(args[0])] + ([Break] + Spaced(args[1..]))
  }

  lemma {:induction false} ScanSpaced(cs: string, args: seq<string>)
    requires Suits(cs, args)
    ensures Scan(Conversions(cs), args) == Items(Spaced(args))
  {
    if |args| == 1 {
      ScanValue(cs[0], "", args);
    } else if args != [] {
      var format := " " + Conversions(cs[1..]);
      ScanSpaced(cs[1..], args[1..]);
      ScanValue(cs[0], format, args);
      assert ['%', cs[0]] + format == Conversions(cs);
      assert format[1..] == Conversions(cs[1..]);
      assert Scan(format, args[1..]) == Cons(Break, Scan(format[1..], args[1..]));
    }
  }

  lemma {:induction false} WordsSpaced(args: seq<string>)
    ensures Words(Spaced(args)) == args
  {
    if |args| == 1 {
      assert Words([Piece(args[0])]) == [args[0]] + Words([]);
    } else if args != [] {
      var rest := [Break] + Spaced(args[1..]);
      WordsSpaced(args[1..]);
      assert rest[1..] == Spaced(args[1..]) && Words(rest) == args[1..];
      assert Spaced(args)[1..] == rest && Words(Spaced(args)) == [args[0]] + Words(rest);
    }
  }

  /**
    Interpolated values are never split and never lost: for any argument list at all, blanks, percent
    signs and empty strings included, "%b %b ... %b" yields exactly that list, and so does a format
    with `%s` for any of the values that hold no NUL.
  */
  lemma ValuesStayWhole(cs: string, args: seq<string>)
    requires Suits(cs, args)
    ensures Result([], Scan(Conversions(cs), args)) == Some(args)
  {
    ScanSpaced(cs, args);
    WordsSpaced(args);
    assert [] + args == args;
  }

  lemma ScanValue(c: char, format: string, args: seq<string>)
    requires args != [] && (c == 'b' || (c == 's' && '\0' !in args[0]))
    ensures Scan(['%', c] + format, args) == Cons(Piece(args[0]), Scan(format, args[1..]))
  {
    assert (['%', c] + format)[2..] == format;
  }

  ghost function Joined(ss: seq<string>): string {
    if ss == [] then "" else ss[0] + Joined(ss[1..])
  }

  ghost function Pieces(items: seq<Item>): string {
    if items == [] then "" else (if items[0].Break? then "" else items[0].text) + Pieces(items[1..])
  }

  /** No byte of the format or of a value is lost, repeated or moved. */
  lemma {:induction false} NothingLost(items: seq<Item>)
    ensures Joined(Words(items)) == Pieces(items)
    decreases |items|
  {
    if items != [] {
      var i, rest := items[0], items[1..];
      if i.Break? {
        NothingLost(rest);
      } else if rest == [] || rest[0].Break? {
        NothingLost(rest);
        assert ([i.text] + Words(rest))[1..] == Words(rest);
      } else {
        var joined := [Piece(i.text + rest[0].text)] + rest[1..];
        NothingLost(joined);
        assert joined[1..] == rest[1..];
      }
    }
  }

  /**
    The three formatters agree: for any arguments shorter than 2^32 bytes, and only for those, the
    string builder writes the command that the other two build, and these two always do.
  */
  lemma FormattersAgree(argv: seq<string>)
    ensures Result([], Scan(Conversions(seq(|argv|, _ => 'b')), argv)) == Some(argv)
    ensures SdsCommand(argv) == Command(argv) <==> forall a | a in argv :: |a| < UINT_RANGE
  {
    ValuesStayWhole(seq(|argv|, _ => 'b'), argv);
    SdsBulksAgree(argv);
    AllShortMeaning(argv);
    var head := "*" + Line(Show(|argv|));
    assert SdsCommand(argv)[|head|..] == SdsBulks(argv) && Command(argv)[|head|..] == Bulks(argv);
  }

  /** There is an argument for which they do not. */
  lemma LongArgument()
    ensures var a := seq(UINT_RANGE, i => 'x'); SdsCommand([a]) != Command([a])
  {
    var a := seq(UINT_RANGE, i => 'x');
    FormattersAgree([a]);
    assert a in [a];
  }
}
