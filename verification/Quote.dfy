/**
  `hi_sdscatrepr` and `hi_sdssplitargs` of sds.c, with the character classes of the "C" locale. A
  string of the model ends where the C string ends: at a NUL byte or at its end.
*/
module Quote {
  import opened Options

  /** The character at `k`, or NUL at the end of the string. */
  function At(s: string, k: nat): char {
    if k < |s| then s[k] else '\0'
  }

  predicate IsPrint(c: char) { ' ' <= c <= '~' }

  predicate IsSpace(c: char) {
    c == ' ' || 9 <= c as int <= 13
  }

  predicate IsHex(c: char) {
    '0' <= c <= '9' || 'a' <= c <= 'f' || 'A' <= c <= 'F'
  }

  predicate Bytes(s: string) {
    forall i :: 0 <= i < |s| ==> s[i] as int < 256
  }

  const ALERT: char := 7 as char
  const BACKSPACE: char := 8 as char

  // ---------------------------------------------------------------- printing

  function HexDigit(d: nat): char
    requires d < 16
  {
    if d < 10 then '0' + d as char else 'a' + (d - 10) as char
  }

  /** `\x%02x`. */
  function HexEscape(c: char): string {
    ['\\', 'x', HexDigit(c as int % 256 / 16), HexDigit(c as int % 16)]
  }

  function Escape(c: char): string {
    if c == '\\' || c == '"' then ['\\', c]
    else if c == '\n' then "\\n"
    else if c == '\r' then "\\r"
    else if c == '\t' then "\\t"
    else if c == ALERT then "\\a"
    else if c == BACKSPACE then "\\b"
    else if IsPrint(c) then [c]
    else HexEscape(c)
  }

  ghost function Escaped(s: string): string {
    if |s| == 0 then "" else Escape(s[0]) + Escaped(s[1..])
  }

  ghost function Repr(s: string): string {
    "\"" + Escaped(s) + "\""
  }

  lemma Associates(a: string, b: string, c: string)
    ensures (a + b) + c == a + (b + c)
  {
  }

  lemma EscapedFirst(a: string, b: string)
    requires |a| > 0
    ensures Escaped(a + b) == Escape(a[0]) + Escaped(a[1..] + b)
  {
    assert (a + b)[1..] == a[1..] + b && (a + b)[0] == a[0];
  }

  lemma {:induction false} EscapedAppend(a: string, b: string)
    ensures Escaped(a + b) == Escaped(a) + Escaped(b)
  {
    if |a| == 0 {
      assert a + b == b;
    } else {
      EscapedAppend(a[1..], b);
      EscapedFirst(a, b);
      Associates(Escape(a[0]), Escaped(a[1..]), Escaped(b));
    }
  }

  /** The quoted form is printable, whatever the bytes are. */
  lemma ReprIsPrintable(s: string)
    ensures forall i | 0 <= i < |Repr(s)| :: 32 <= Repr(s)[i] as int <= 126
  {
    EscapedIsPrintable(s);
  }

  lemma {:induction false} EscapedIsPrintable(s: string)
    ensures forall i | 0 <= i < |Escaped(s)| :: 32 <= Escaped(s)[i] as int <= 126
  {
    if |s| > 0 {
      EscapedIsPrintable(s[1..]);
      assert forall i | 0 <= i < |Escape(s[0])| :: 32 <= Escape(s[0])[i] as int <= 126;
    }
  }

  /** `hi_sdscatrepr`. */
  method CatRepr(s: string, p: string) returns (r: string)
    ensures r == s + Repr(p)
  {
    r := s + "\"";
    var i := 0;
    while i < |p|
      invariant i <= |p| && r == s + "\"" + Escaped(p[..i])
    {
      EscapedAppend(p[..i], [p[i]]);
      assert p[..i + 1] == p[..i] + [p[i]] && Escaped([p[i]]) == Escape(p[i]);
      r := r + Escape(p[i]);
      i := i + 1;
    }
    assert p[..i] == p;
    r := r + "\"";
  }

  // --------------------------------------------------------------- splitting

  function HexValue(c: char): nat {
    if '0' <= c <= '9' then c as int - '0' as int
    else if 'a' <= c <= 'f' then c as int - 'a' as int + 10
    else if 'A' <= c <= 'F' then c as int - 'A' as int + 10
    else 0
  }

  function Unescape(c: char): char {
    match c
    case 'n' => '\n'
    case 'r' => '\r'
    case 't' => '\t'
    case 'b' => BACKSPACE
    case 'a' => ALERT
    case _ => c
  }

  datatype Mode = Plain | Quoted | SingleQuoted

  /** A finished argument and what follows it, or quotes that do not match. */
  datatype Token = Token(arg: string, rest: string) | Unbalanced

  predicate EndsToken(c: char) {
    c == '\0' || IsSpace(c)
  }

  /** What one round of the loop does: it takes `n` characters, ends the argument, or fails. */
  datatype Move = Go(n: nat, mode: Mode, arg: string) | Stop(n: nat) | Fail

  function Step(s: string, mode: Mode, arg: string): (m: Move)
    ensures m.Go? ==> 1 <= m.n <= |s|
    ensures m.Stop? ==> m.n <= |s| && (At(s, 0) != '\0' ==> 1 <= m.n)
  {
    var c, d := At(s, 0), At(s, 1);
    match mode
    case Quoted =>
      if c == '\\' && d == 'x' && IsHex(At(s, 2)) && IsHex(At(s, 3)) then
        Go(4, Quoted, arg + [(HexValue(s[2]) * 16 + HexValue(s[3])) as char])
      else if c == '\\' && d != '\0' then Go(2, Quoted, arg + [Unescape(d)])
      else if c == '"' then (if EndsToken(d) then Stop(1) else Fail)
      else if c == '\0' then Fail
      else Go(1, Quoted, arg + [c])
    case SingleQuoted =>
      if c == '\\' && d == '\'' then Go(2, SingleQuoted, arg + ['\''])
      else if c == '\'' then (if EndsToken(d) then Stop(1) else Fail)
      else if c == '\0' then Fail
      else Go(1, SingleQuoted, arg + [c])
    case Plain =>
      if c == '\0' then Stop(0)
      else if c == ' ' || c == '\n' || c == '\r' || c == '\t' then Stop(1)
      else if c == '"' then Go(1, Quoted, arg)
      else if c == '\'' then Go(1, SingleQuoted, arg)
      else Go(1, Plain, arg + [c])
  }

  /** The rest of an argument, of which `arg` has been read. */
  function Scan(s: string, mode: Mode, arg: string): (t: Token)
    ensures t.Token? ==> |t.rest| <= |s| && (At(s, 0) != '\0' ==> |t.rest| < |s|)
    decreases |s|
  {
    match Step(s, mode, arg)
    case Go(n, mode', arg') => Scan(s[n..], mode', arg')
    case Stop(n) => Token(arg, s[n..])
    case Fail => Unbalanced
  }

  function SkipBlanks(s: string): (r: string)
    ensures |r| <= |s| && !IsSpace(At(r, 0))
  {
    if IsSpace(At(s, 0)) then SkipBlanks(s[1..]) else s
  }

  /** The arguments of a line, or none if quotes do not match. */
  function Split(s: string): Option<seq<string>>
    decreases |s|
  {
    var r := SkipBlanks(s);
    if At(r, 0) == '\0' then Some([])
    else
      match Scan(r, Plain, "")
      case Unbalanced => None
      case Token(arg, rest) => Before([arg], Split(rest))
  }

  function Before(args: seq<string>, rest: Option<seq<string>>): Option<seq<string>> {
    match rest
    case None => None
    case Some(more) => Some(args + more)
  }

  // -------------------------------------------------------------- round trip

  /** The quoted forms with single spaces between them. */
  ghost function Line(args: seq<string>): string {
    if |args| == 0 then ""
    else Repr(args[0]) + if |args| == 1 then "" else " " + Line(args[1..])
  }

  lemma HexDigits(d: nat)
    requires d < 16
    ensures IsHex(HexDigit(d)) && HexValue(HexDigit(d)) == d
  {
  }

  lemma HexStep(c: char, s: string, arg: string)
    requires c as int < 256
    ensures Step(HexEscape(c) + s, Quoted, arg) == Go(4, Quoted, arg + [c])
  {
    var d := c as int;
    TwoDigits(d);
    HexDigits(d / 16);
    HexDigits(d % 16);
    HexRead(HexDigit(d / 16), HexDigit(d % 16), s, arg);
  }

  lemma TwoDigits(d: nat)
    requires d < 256
    ensures d / 16 < 16 && d % 256 == d && d / 16 * 16 + d % 16 == d
  {
  }

  lemma HexRead(h: char, l: char, s: string, arg: string)
    requires IsHex(h) && IsHex(l)
    ensures Step(['\\', 'x', h, l] + s, Quoted, arg) == Go(4, Quoted, arg + [(HexValue(h) * 16 + HexValue(l)) as char])
  {
    var t := ['\\', 'x', h, l] + s;
    assert t[0] == '\\' && t[1] == 'x' && t[2] == h && t[3] == l;
  }

  lemma ShortStep(c: char, s: string, arg: string)
    requires Escape(c) != HexEscape(c)
    ensures Step(Escape(c) + s, Quoted, arg) == Go(|Escape(c)|, Quoted, arg + [c])
  {
    var t := Escape(c) + s;
    assert t[0] == Escape(c)[0] && (|Escape(c)| == 2 ==> t[1] == Escape(c)[1]);
  }

  lemma EscapeStep(c: char, s: string, arg: string)
    requires c as int < 256
    ensures Step(Escape(c) + s, Quoted, arg) == Go(|Escape(c)|, Quoted, arg + [c])
  {
    if Escape(c) == HexEscape(c) { HexStep(c, s, arg); } else { ShortStep(c, s, arg); }
  }

  lemma EscapeScans(c: char, s: string, arg: string)
    requires c as int < 256
    ensures Scan(Escape(c) + s, Quoted, arg) == Scan(s, Quoted, arg + [c])
  {
    EscapeStep(c, s, arg);
    assert (Escape(c) + s)[|Escape(c)|..] == s;
  }

  lemma TakeFirst(arg: string, x: string)
    requires |x| > 0
    ensures arg + [x[0]] + x[1..] == arg + x
  {
  }

  lemma {:induction false} EscapedScans(x: string, s: string, arg: string)
    requires Bytes(x)
    ensures Scan(Escaped(x) + s, Quoted, arg) == Scan(s, Quoted, arg + x)
  {
    if |x| == 0 {
      assert Escaped(x) + s == s && arg + x == arg;
    } else {
      var more := Escaped(x[1..]);
      EscapedScans(x[1..], s, arg + [x[0]]);
      TakeFirst(arg, x);
      EscapeScans(x[0], more + s, arg);
      Associates(Escape(x[0]), more, s);
    }
  }

  /** A quoted form followed by a blank or the end is read back as one argument. */
  lemma ReprScans(x: string, s: string)
    requires Bytes(x) && EndsToken(At(s, 0))
    ensures Scan(Repr(x) + s, Plain, "") == Token(x, s)
  {
    var t := Repr(x) + s;
    assert t[1..] == Escaped(x) + ("\"" + s);
    EscapedScans(x, "\"" + s, "");
    assert "" + x == x && ("\"" + s)[1..] == s;
    assert At("\"" + s, 1) == At(s, 0);
  }

  /** Whatever bytes the arguments consist of, their quoted forms split into them again. */
  lemma {:induction false} QuoteRoundTrip(args: seq<string>)
    requires forall i :: 0 <= i < |args| ==> Bytes(args[i])
    ensures Split(Line(args)) == Some(args)
  {
    if |args| > 0 {
      var s := if |args| == 1 then "" else " " + Line(args[1..]);
      ReprScans(args[0], s);
      assert Line(args) == Repr(args[0]) + s;
      assert SkipBlanks(Line(args)) == Line(args);
      QuoteRoundTrip(args[1..]);
      if |args| > 1 {
        assert s[1..] == Line(args[1..]);
        assert Split(s) == Split(Line(args[1..]));
      }
      assert [args[0]] + args[1..] == args;
    }
  }

  // ------------------------------------------------------- the loops of the source

  function ModeOf(inq: bool, insq: bool): Mode {
    if inq then Quoted else if insq then SingleQuoted else Plain
  }

  /** One round of the loop of `hi_sdssplitargs` over the characters of an argument. */
  method NextCharacter(line: string, p: nat, inq: bool, insq: bool, current: string)
    returns (ok: bool, done: bool, p': nat, inq': bool, insq': bool, current': string)
    requires p <= |line|
    ensures match Step(line[p..], ModeOf(inq, insq), current)
      case Fail => !ok
      case Stop(n) => ok && done && p' == p + n && current' == current
      case Go(n, mode, arg) => ok && !done && p' == p + n && ModeOf(inq', insq') == mode && current' == arg
  {
    ok, done, p', inq', insq', current' := true, false, p, inq, insq, current;
    var c, d := At(line, p), At(line, p + 1);
    if inq {
      if c == '\\' && d == 'x' && IsHex(At(line, p + 2)) && IsHex(At(line, p + 3)) {
        current' := current + [(HexValue(line[p + 2]) * 16 + HexValue(line[p + 3])) as char];
        p' := p + 3;
      } else if c == '\\' && d != '\0' {
        p' := p + 1;
        current' := current + [Unescape(d)];
      } else if c == '"' {
        if d != '\0' && !IsSpace(d) { ok := false; return; }
        done := true;
      } else if c == '\0' {
        ok := false;
        return;
      } else {
        current' := current + [c];
      }
    } else if insq {
      if c == '\\' && d == '\'' {
        p' := p + 1;
        current' := current + ['\''];
      } else if c == '\'' {
        if d != '\0' && !IsSpace(d) { ok := false; return; }
        done := true;
      } else if c == '\0' {
        ok := false;
        return;
      } else {
        current' := current + [c];
      }
    } else {
      if c == ' ' || c == '\n' || c == '\r' || c == '\t' || c == '\0' {
        done := true;
      } else if c == '"' {
        inq' := true;
      } else if c == '\'' {
        insq' := true;
      } else {
        current' := current + [c];
      }
    }
    if At(line, p') != '\0' { p' := p' + 1; }
  }

  method NextArgument(line: string, start: nat) returns (ok: bool, current: string, p: nat)
    requires start <= |line|
    ensures ok ==> p <= |line| && Scan(line[start..], Plain, "") == Token(current, line[p..])
    ensures !ok ==> Scan(line[start..], Plain, "") == Unbalanced
  {
    var inq, insq, done := false, false, false;
    p, current, ok := start, "", true;
    while !done
      invariant ok && p <= |line|
      invariant Scan(line[start..], Plain, "") ==
        if done then Token(current, line[p..]) else Scan(line[p..], ModeOf(inq, insq), current)
      decreases if done then 0 else 1, |line| - p
    {
      ghost var before := p;
      ok, done, p, inq, insq, current := NextCharacter(line, p, inq, insq, current);
      if !ok { return; }
      assert line[before..][p - before..] == line[p..];
    }
  }

  lemma BeforeBefore(args: seq<string>, arg: string, rest: Option<seq<string>>)
    ensures Before(args, Before([arg], rest)) == Before(args + [arg], rest)
    ensures Before([], rest) == rest && Before(args, Some([])) == Some(args)
  {
    if rest.Some? {
      assert args + ([arg] + rest.value) == args + [arg] + rest.value;
      assert [] + rest.value == rest.value;
    }
    assert args + [] == args;
  }

  method SkipSpaces(line: string, start: nat) returns (p: nat)
    requires start <= |line|
    ensures start <= p <= |line| && SkipBlanks(line[start..]) == line[p..]
  {
    p := start;
    while At(line, p) != '\0' && IsSpace(At(line, p))
      invariant start <= p <= |line| && SkipBlanks(line[p..]) == SkipBlanks(line[start..])
      decreases |line| - p
    {
      assert line[p..][1..] == line[p + 1..];
      p := p + 1;
    }
    assert At(line[p..], 0) == At(line, p);
  }

  /** `hi_sdssplitargs`. */
  method SplitArgs(line: string) returns (vector: Option<seq<string>>)
    ensures vector == Split(line)
  {
    var p, args := 0, [];
    assert line[0..] == line;
    BeforeBefore([], "", Split(line));
    while true
      invariant p <= |line| && Split(line) == Before(args, Split(line[p..]))
      decreases |line| - p
    {
      var start := SkipSpaces(line, p);
      assert At(line[start..], 0) == At(line, start);
      if At(line, start) == '\0' {
        BeforeBefore(args, "", None);
        return Some(args);
      }
      var ok, current, next := NextArgument(line, start);
      if !ok { return None; }
      BeforeBefore(args, current, Split(line[next..]));
      p, args := next, args + [current];
    }
  }
}
