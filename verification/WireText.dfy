/**
  Which bytes denote which reply, and which bytes no reply begins with, said about the text alone:
  nothing here reads a stream. The grammar of `Resp` reads a reply exactly if the bytes it takes
  denote that reply, and rejects a stream exactly if it begins with a text that is broken.
*/
module WireText {
  import opened Options
  import opened Numbers
  import opened Resp
  import Resume

  // ------------------------------------------------------------------ texts

  ghost predicate NoBreak(text: string) {
    forall k | 0 <= k < |text| - 1 :: !(text[k] == '\r' && text[k + 1] == '\n')
  }

  /** One line behind the type byte `c`. */
  ghost predicate IsLineOf(c: char, text: string, w: string) {
    w == [c] + text + "\r\n" && NoBreak(text)
  }

  /** A string behind its length; the two bytes behind the string may be anything. */
  ghost predicate IsBulkOf(c: char, body: string, w: string) {
    && |body| <= LLONG_MAX && |w| >= 2
    && w[..|w| - 2] == [c] + Show(|body|) + "\r\n" + body
  }

  /** The decimal form of a number of 64 bits. */
  ghost predicate IsNumber(text: string) {
    exists v :: InLongLong(v) && text == Show(v)
  }

  /** The type bytes of the protocol; the older reader knows the first five. */
  predicate Known(cfg: Config, c: char) {
    c in "-+:$*" || (cfg.dialect.Growing? && c in ",_%~#=>")
  }

  function ByteOf(k: Kind): char {
    match k
    case ERROR => '-'
    case STATUS => '+'
    case INTEGER => ':'
    case STRING => '$'
    case ARRAY => '*'
    case DOUBLE => ','
    case NIL => '_'
    case MAP => '%'
    case SET => '~'
    case BOOL => '#'
    case VERB => '='
    case PUSH => '>'
  }

  /** The older reader has nine task slots, and refuses any array in the last one. */
  predicate LastSlot(cfg: Config, depth: nat) {
    cfg.dialect.FixedStack? && depth == 8
  }

  predicate TooMany(cfg: Config, count: int) {
    match cfg.dialect
    case FixedStack => count > 0x7FFF_FFFF
    case Growing => 0 < cfg.maxElements < count
  }

  // ------------------------------------------------------- what a text denotes

  /** Null has a line of its own, whose text does not matter, and is also a string or an aggregate of length -1. */
  ghost predicate IsNil(cfg: Config, depth: nat, w: string) {
    || (cfg.dialect.Growing? && exists text :: IsLineOf('_', text, w))
    || (exists c :: c in "$=*%~>" && Known(cfg, c) && w == [c] + "-1\r\n" && (c == '*' ==> !LastSlot(cfg, depth)))
  }

  ghost predicate IsBool(cfg: Config, parent: Option<Kind>, w: string, b: bool) {
    && cfg.dialect.Growing? && parent != Some(PUSH)
    && exists text :: IsLineOf('#', text, w) && (b <==> text != "" && text[0] in "tT")
  }

  ghost predicate IsDoubleText(cfg: Config, text: string) {
    |text| < 326 && cfg.isDouble(text)
  }

  /** An aggregate may stand here with so many counted elements. */
  ghost predicate MayOpen(cfg: Config, depth: nat, k: Kind, count: int) {
    && IsAggregate(k) && Known(cfg, ByteOf(k)) && !LastSlot(cfg, depth)
    && 0 <= count <= LLONG_MAX && !TooMany(cfg, count)
  }

  /** The line that opens an aggregate. */
  function Opening(k: Kind, count: int): string {
    [ByteOf(k)] + Show(count) + "\r\n"
  }

  /** A map counts pairs. */
  function Elements(k: Kind, count: nat): nat {
    if k == MAP then 2 * count else count
  }

  /** The whole text `w` denotes the reply `r`, `depth` levels deep inside an aggregate of type `parent`. */
  ghost predicate Denotes(cfg: Config, depth: nat, parent: Option<Kind>, w: string, r: Reply)
    decreases |w|, 0, 1
  {
    match r
    case Text(k, s) =>
      k in {STATUS, ERROR, STRING} && if k == STRING then IsBulkOf('$', s, w) else IsLineOf(ByteOf(k), s, w)
    case Int(v) => IsLineOf(':', Show(v), w) && InLongLong(v)
    case Nil => IsNil(cfg, depth, w)
    case Bool(b) => IsBool(cfg, parent, w, b)
    case Double(d) =>
      cfg.dialect.Growing? && parent != Some(PUSH) && IsLineOf(',', d, w) && IsDoubleText(cfg, d)
    case Verb(vtype, text) =>
      cfg.dialect.Growing? && |vtype| == 3 && IsBulkOf('=', vtype + ":" + text, w)
    case Agg(k, es) => exists count: nat :: DenotesCounted(cfg, depth, w, k, count, es)
  }

  /** The opening line announces `count`, and as many texts follow. */
  ghost predicate DenotesCounted(cfg: Config, depth: nat, w: string, k: Kind, count: nat, es: seq<Reply>)
    decreases |w|, 0, 0
  {
    && MayOpen(cfg, depth, k, count) && |es| == Elements(k, count)
    && Opening(k, count) <= w && DenotesAll(cfg, depth + 1, k, w[|Opening(k, count)|..], es)
  }

  /** The text is made of texts that denote the elements, in order. */
  ghost predicate DenotesAll(cfg: Config, depth: nat, k: Kind, w: string, es: seq<Reply>)
    decreases |w|, 1, |es|
  {
    if es == [] then w == "" else exists i | 0 <= i <= |w| :: DenotesFirst(cfg, depth, k, w, es, i)
  }

  ghost predicate DenotesFirst(cfg: Config, depth: nat, k: Kind, w: string, es: seq<Reply>, i: nat)
    requires es != [] && i <= |w|
    decreases |w|, 1, |es|, 0
  {
    Denotes(cfg, depth, Some(k), w[..i], es[0]) && DenotesAll(cfg, depth, k, w[i..], es[1..])
  }

  // ------------------------------------------------------- what a text breaks

  ghost predicate BrokenLine(cfg: Config, parent: Option<Kind>, w: string, e: Error) {
    match e
    case BadInteger => exists text :: IsLineOf(':', text, w) && !IsNumber(text)
    case BadDouble =>
      cfg.dialect.Growing? && exists text :: IsLineOf(',', text, w) && |text| < 326 && !cfg.isDouble(text)
    case DoubleTooLarge => cfg.dialect.Growing? && exists text :: IsLineOf(',', text, w) && |text| >= 326
    case AssertFailed =>
      && cfg.dialect.Growing? && parent == Some(PUSH)
      && exists text :: IsLineOf('#', text, w) || (IsLineOf(',', text, w) && IsDoubleText(cfg, text))
    case _ => false
  }

  ghost predicate BrokenBulk(cfg: Config, w: string, e: Error) {
    match e
    case BadBulkLength => exists c, text :: c in "$=" && Known(cfg, c) && IsLineOf(c, text, w) && !IsNumber(text)
    case BulkRange => exists c, v :: c in "$=" && Known(cfg, c) && IsLineOf(c, Show(v), w) && InLongLong(v) && v < -1
    case BadVerbatim =>
      cfg.dialect.Growing? && exists body :: IsBulkOf('=', body, w) && !(|body| >= 4 && body[3] == ':')
    case _ => false
  }

  /** The line that opens an aggregate is broken. */
  ghost predicate BrokenOpening(cfg: Config, depth: nat, k: Kind, w: string, e: Error) {
    if LastSlot(cfg, depth) then e == TooDeep && w == [ByteOf(k)]
    else
      match e
      case BadMultiLength => exists text :: IsLineOf(ByteOf(k), text, w) && !IsNumber(text)
      case MultiRange(v) => IsLineOf(ByteOf(k), Show(v), w) && InLongLong(v) && (v < -1 || TooMany(cfg, v))
      case _ => false
  }

  /** The text ends at the place where no reply can begin with it any more, and this is what is wrong. */
  ghost predicate Broken(cfg: Config, depth: nat, parent: Option<Kind>, w: string, e: Error)
    decreases |w|, 0, 1
  {
    || (e.TypeByte? && !Known(cfg, e.c) && w == [e.c])
    || BrokenLine(cfg, parent, w, e)
    || BrokenBulk(cfg, w, e)
    || (exists k :: IsAggregate(k) && Known(cfg, ByteOf(k)) && BrokenOpening(cfg, depth, k, w, e))
    || (exists k, count: nat :: BrokenInside(cfg, depth, w, e, k, count))
  }

  /** The opening line is fine, but one of the elements is broken. */
  ghost predicate BrokenInside(cfg: Config, depth: nat, w: string, e: Error, k: Kind, count: nat)
    decreases |w|, 0, 0
  {
    && MayOpen(cfg, depth, k, count) && Opening(k, count) <= w
    && BrokenAll(cfg, depth + 1, k, Elements(k, count), w[|Opening(k, count)|..], e)
  }

  /** Of `n` elements the first few are there, and the next one is broken. */
  ghost predicate BrokenAll(cfg: Config, depth: nat, k: Kind, n: nat, w: string, e: Error)
    decreases |w|, 1, n
  {
    && n > 0
    && (|| Broken(cfg, depth, Some(k), w, e)
        || exists i, r | 0 <= i <= |w| :: BrokenLater(cfg, depth, k, n, w, e, i, r))
  }

  ghost predicate BrokenLater(cfg: Config, depth: nat, k: Kind, n: nat, w: string, e: Error, i: nat, r: Reply)
    requires n > 0 && i <= |w|
    decreases |w|, 1, n, 0
  {
    Denotes(cfg, depth, Some(k), w[..i], r) && BrokenAll(cfg, depth, k, n - 1, w[i..], e)
  }

  // ------------------------------------------------------------ lines and lengths

  lemma TypeBytes(cfg: Config, c: char, k: Kind)
    ensures TypeOf(cfg, c).Some? <==> Known(cfg, c)
    ensures TypeOf(cfg, c) == Some(k) <==> Known(cfg, c) && c == ByteOf(k)
  {
  }

  lemma NoBreakMeaning(text: string)
    ensures NoBreak(text) <==> Newline(text).None?
  {
    if !NoBreak(text) {
      var k :| 0 <= k < |text| - 1 && text[k] == '\r' && text[k + 1] == '\n';
      assert NewlineAt(text, k);
    }
  }

  lemma NumberMeaning(text: string)
    ensures Number(text).Some? <==> IsNumber(text)
  {
    if Number(text).Some? { NumberInvertsShow(text, Number(text).value); }
    if v :| InLongLong(v) && text == Show(v) { NumberInvertsShow(text, v); }
  }

  /** Behind its type byte, a line is found whatever follows it. */
  lemma LineFound(c: char, text: string, w: string, t: string)
    requires IsLineOf(c, text, w)
    ensures w != "" && (w + t)[0] == c && (w + t)[1..] == text + "\r\n" + t
    ensures var s := text + "\r\n" + t; Newline(s) == Some(|text|) && s[..|text|] == text && s[|text| + 2..] == t
  {
    NoBreakMeaning(text);
    NewlineOf(text, t);
  }

  /** What is in front of the first line end is a line. */
  lemma LineTaken(s: string)
    requires s != "" && Newline(s[1..]).Some?
    ensures var n := Newline(s[1..]).value;
      n + 3 <= |s| && IsLineOf(s[0], s[1..][..n], s[..n + 3]) && s[1..][n + 2..] == s[n + 3..]
  {
    var n, text := Newline(s[1..]).value, s[1..][..Newline(s[1..]).value];
    assert NewlineAt(s[1..], n);
    forall k | 0 <= k < |text| - 1
      ensures !(text[k] == '\r' && text[k + 1] == '\n')
    {
      assert !NewlineAt(s[1..], k);
    }
    assert s[..n + 3] == [s[0]] + text + "\r\n";
  }

  /** A string is found by its length. */
  lemma BulkFound(k: Kind, c: char, body: string, w: string, t: string)
    requires IsBulk(k) && IsBulkOf(c, body, w)
    ensures w != "" && (w + t)[0] == c
    ensures ParseBulk(k, (w + t)[1..]) ==
      if k == VERB && (|body| < 4 || body[3] != ':') then Bad(BadVerbatim) else Done(BulkReply(k, body), t)
  {
    var len, end := Show(|body|), w[|w| - 2..];
    NumberInvertsShow(len, |body|);
    ShowHasNoNewline(|body|);
    BulkParts(c, len, body, w, t);
    NewlineOf(len, body + end + t);
    BodyFound((w + t)[1..], |len| + 2, body, end, t);
  }

  lemma BulkParts(c: char, len: string, body: string, w: string, t: string)
    requires |w| >= 2 && w[..|w| - 2] == [c] + len + "\r\n" + body
    ensures var end := w[|w| - 2..];
      |end| == 2 && (w + t)[0] == c && (w + t)[1..] == len + "\r\n" + (body + end + t)
      && (w + t)[1..][|len| + 2..] == body + end + t
  {
    var end := w[|w| - 2..];
    assert w == [c] + len + "\r\n" + body + end;
    assert (w + t)[1..] == len + "\r\n" + (body + end + t);
  }

  lemma BodyFound(s: string, first: nat, body: string, end: string, t: string)
    requires first <= |s| && s[first..] == body + end + t && |end| == 2
    ensures |s| == first + |body| + 2 + |t|
    ensures s[first..first + |body|] == body && s[first + |body| + 2..] == t
    ensures |body| >= 4 ==> s[first + 3] == body[3]
  {
    var rest := s[first..];
    assert s[first..first + |body|] == rest[..|body|];
    assert s[first + |body| + 2..] == rest[|body| + 2..];
    assert |body| >= 4 ==> s[first + 3] == rest[3];
  }

  /** What a reader has taken of `s` when `rest` is left. */
  function Front(s: string, rest: string): string {
    if |rest| <= |s| then s[..|s| - |rest|] else s
  }

  /** `rest` is the end of `s`. */
  ghost predicate EndsWith(s: string, rest: string) {
    |rest| <= |s| && s[|s| - |rest|..] == rest
  }

  /** What a reader takes for a string, type byte included, is one. */
  lemma BulkTaken(k: Kind, s: string)
    requires IsBulk(k) && s != "" && Newline(s[1..]).Some? && Number(s[1..][..Newline(s[1..]).value]).Some?
    ensures var n := Newline(s[1..]).value; var len := Number(s[1..][..n]).value; var first := n + 2;
      len >= 0 && first + len + 2 <= |s[1..]| ==>
        IsBulkOf(s[0], s[1..][first..first + len], s[..first + len + 3])
  {
    var n := Newline(s[1..]).value;
    var len := Number(s[1..][..n]).value;
    LineTaken(s);
    NumberInvertsShow(s[1..][..n], len);
    if len >= 0 && n + 2 + len + 2 <= |s[1..]| {
      var w, body := s[..n + len + 5], s[1..][n + 2..n + 2 + len];
      assert w[..|w| - 2] == s[..n + 3] + body;
    }
  }

  // ------------------------------------------- texts are read and rejected as such

  /** A line behind its type byte is read, or rejected, by its text. */
  lemma LineIsRead(cfg: Config, depth: nat, parent: Option<Kind>, k: Kind, text: string, w: string, t: string)
    requires IsLine(k) && Known(cfg, ByteOf(k)) && IsLineOf(ByteOf(k), text, w)
    ensures ParseItem(cfg, depth, parent, w + t) ==
      match LineReply(cfg, parent, k, text) case Done(r, _) => Done(r, t) case other => other
  {
    TypeBytes(cfg, ByteOf(k), k);
    LineFound(ByteOf(k), text, w, t);
  }

  lemma BulkIsRead(cfg: Config, depth: nat, parent: Option<Kind>, k: Kind, body: string, w: string, t: string)
    requires IsBulk(k) && Known(cfg, ByteOf(k)) && IsBulkOf(ByteOf(k), body, w)
    ensures ParseItem(cfg, depth, parent, w + t) ==
      if k == VERB && (|body| < 4 || body[3] != ':') then Bad(BadVerbatim) else Done(BulkReply(k, body), t)
  {
    TypeBytes(cfg, ByteOf(k), k);
    BulkFound(k, ByteOf(k), body, w, t);
  }

  /** A length line that announces no string is read, or rejected, on its own. */
  lemma LengthIsRead(cfg: Config, depth: nat, parent: Option<Kind>, k: Kind, text: string, w: string, t: string)
    requires IsBulk(k) && Known(cfg, ByteOf(k)) && IsLineOf(ByteOf(k), text, w)
    ensures !IsNumber(text) ==> ParseItem(cfg, depth, parent, w + t) == Bad(BadBulkLength)
    ensures forall v | InLongLong(v) && text == Show(v) ::
      && (v < -1 ==> ParseItem(cfg, depth, parent, w + t) == Bad(BulkRange))
      && (v == -1 ==> ParseItem(cfg, depth, parent, w + t) == Done(Nil, t))
  {
    TypeBytes(cfg, ByteOf(k), k);
    LineFound(ByteOf(k), text, w, t);
    NumberMeaning(text);
    forall v | InLongLong(v) && text == Show(v)
      ensures Number(text) == Some(v)
    {
      NumberInvertsShow(text, v);
    }
  }

  function Opened(cfg: Config, k: Kind, v: int, t: string): Outcome<Option<nat>> {
    if v < -1 || TooMany(cfg, v) then Bad(MultiRange(v))
    else if v == -1 then Done(None, t)
    else Done(Some(Elements(k, v)), t)
  }

  /** A complete line that opens an aggregate, outside of the last slot. */
  lemma HeaderOf(cfg: Config, depth: nat, k: Kind, s: string, n: nat)
    requires Newline(s) == Some(n) && !LastSlot(cfg, depth)
    ensures Header(cfg, depth, k, s) ==
      var count := Number(s[..n]);
      if count.None? then Bad(BadMultiLength)
      else if count.value >= -1 && !TooMany(cfg, count.value) then Opened(cfg, k, count.value, s[n + 2..])
      else Bad(MultiRange(count.value))
  {
  }

  /** So is the line that opens an aggregate. */
  lemma OpeningIsRead(cfg: Config, depth: nat, k: Kind, text: string, w: string, t: string)
    requires IsAggregate(k) && Known(cfg, ByteOf(k)) && IsLineOf(ByteOf(k), text, w) && !LastSlot(cfg, depth)
    ensures !IsNumber(text) ==> Header(cfg, depth, k, (w + t)[1..]) == Bad(BadMultiLength)
    ensures forall v | InLongLong(v) && text == Show(v) :: Header(cfg, depth, k, (w + t)[1..]) == Opened(cfg, k, v, t)
  {
    LineFound(ByteOf(k), text, w, t);
    HeaderOf(cfg, depth, k, (w + t)[1..], |text|);
    NumberMeaning(text);
    forall v | InLongLong(v) && text == Show(v)
      ensures Number(text) == Some(v)
    {
      NumberInvertsShow(text, v);
    }
  }

  /** An aggregate is opened by its line. */
  lemma Opens(cfg: Config, depth: nat, k: Kind, count: nat, w: string, t: string)
    requires MayOpen(cfg, depth, k, count) && Opening(k, count) <= w
    ensures var body := w[|Opening(k, count)|..] + t;
      w != "" && (w + t)[0] == ByteOf(k) && |body| < |w + t|
      && Header(cfg, depth, k, (w + t)[1..]) == Done(Some(Elements(k, count)), body)
  {
    OpeningLine(k, count);
    OpeningIsRead(cfg, depth, k, Show(count), Opening(k, count), w[|Opening(k, count)|..] + t);
    Regrouped(Opening(k, count), w, t);
  }

  lemma OpeningLine(k: Kind, count: int)
    ensures IsLineOf(ByteOf(k), Show(count), Opening(k, count))
  {
    ShowHasNoNewline(count);
    NoBreakMeaning(Show(count));
  }

  lemma Regrouped(first: string, w: string, t: string)
    requires first <= w
    ensures w + t == first + (w[|first|..] + t)
  {
  }

  lemma NilIsRead(cfg: Config, depth: nat, parent: Option<Kind>, w: string, t: string)
    requires IsNil(cfg, depth, w)
    ensures ParseItem(cfg, depth, parent, w + t) == Done(Nil, t)
  {
    if cfg.dialect.Growing? && exists text :: IsLineOf('_', text, w) {
      var text :| IsLineOf('_', text, w);
      LineIsRead(cfg, depth, parent, NIL, text, w, t);
    } else {
      var c :| c in "$=*%~>" && Known(cfg, c) && w == [c] + "-1\r\n" && (c == '*' ==> !LastSlot(cfg, depth));
      NilLengthIsRead(cfg, depth, parent, c, t);
    }
  }

  lemma NilLengthIsRead(cfg: Config, depth: nat, parent: Option<Kind>, c: char, t: string)
    requires c in "$=*%~>" && Known(cfg, c) && (c == '*' ==> !LastSlot(cfg, depth))
    ensures ParseItem(cfg, depth, parent, [c] + "-1\r\n" + t) == Done(Nil, t)
  {
    var w := [c] + "-1\r\n";
    assert Show(-1) == "-1" by { assert Dec(1) == "1"; }
    assert IsLineOf(c, "-1", w);
    var k :| k in {STRING, VERB, ARRAY, MAP, SET, PUSH} && c == ByteOf(k);
    if IsBulk(k) {
      LengthIsRead(cfg, depth, parent, k, "-1", w, t);
    } else {
      TypeBytes(cfg, c, k);
      OpeningIsRead(cfg, depth, k, "-1", w, t);
    }
  }

  /** A text that denotes a reply is read as that reply, and nothing behind it is touched. */
  lemma {:induction false} Reads(cfg: Config, depth: nat, parent: Option<Kind>, w: string, r: Reply, t: string)
    requires Denotes(cfg, depth, parent, w, r)
    ensures ParseItem(cfg, depth, parent, w + t) == Done(r, t)
    decreases |w|, 0, 0
  {
    match r
    case Text(k, s) =>
      if k == STRING {
        BulkIsRead(cfg, depth, parent, k, s, w, t);
      } else {
        LineIsRead(cfg, depth, parent, k, s, w, t);
      }
    case Int(v) =>
      NumberInvertsShow(Show(v), v);
      LineIsRead(cfg, depth, parent, INTEGER, Show(v), w, t);
    case Nil => NilIsRead(cfg, depth, parent, w, t);
    case Bool(b) =>
      var text :| IsLineOf('#', text, w) && (b <==> text != "" && text[0] in "tT");
      LineIsRead(cfg, depth, parent, BOOL, text, w, t);
    case Double(d) => LineIsRead(cfg, depth, parent, DOUBLE, d, w, t);
    case Verb(vtype, text) => VerbIsRead(cfg, depth, parent, vtype, text, w, t);
    case Agg(k, es) =>
      var count: nat :| DenotesCounted(cfg, depth, w, k, count, es);
      ReadsAll(cfg, depth + 1, k, w[|Opening(k, count)|..], es, t);
      AggregateIsRead(cfg, depth, parent, k, count, w, t);
  }

  lemma VerbIsRead(cfg: Config, depth: nat, parent: Option<Kind>, vtype: string, text: string, w: string, t: string)
    requires cfg.dialect.Growing? && |vtype| == 3 && IsBulkOf('=', vtype + ":" + text, w)
    ensures ParseItem(cfg, depth, parent, w + t) == Done(Verb(vtype, text), t)
  {
    var body := vtype + ":" + text;
    BulkIsRead(cfg, depth, parent, VERB, body, w, t);
    assert body[..3] == vtype && body[4..] == text;
  }

  function Closed(k: Kind, o: Outcome<seq<Reply>>): Outcome<Reply> {
    match o
    case Done(es, rest) => Done(Agg(k, es), rest)
    case More => More
    case Bad(e) => Bad(e)
  }

  /** Once an aggregate is open, its elements decide. */
  lemma AggregateIsRead(cfg: Config, depth: nat, parent: Option<Kind>, k: Kind, count: nat, w: string, t: string)
    requires MayOpen(cfg, depth, k, count) && Opening(k, count) <= w
    ensures ParseItem(cfg, depth, parent, w + t) ==
      Closed(k, ParseItems(cfg, depth + 1, k, Elements(k, count), w[|Opening(k, count)|..] + t))
  {
    Opens(cfg, depth, k, count, w, t);
    TypeBytes(cfg, ByteOf(k), k);
  }

  lemma {:induction false} ReadsAll(cfg: Config, depth: nat, k: Kind, w: string, es: seq<Reply>, t: string)
    requires DenotesAll(cfg, depth, k, w, es)
    ensures ParseItems(cfg, depth, k, |es|, w + t) == Done(es, t)
    decreases |w|, 1, |es|
  {
    if es == [] {
      assert w + t == t;
    } else {
      var i :| 0 <= i <= |w| && DenotesFirst(cfg, depth, k, w, es, i);
      Regrouped(w[..i], w, t);
      Reads(cfg, depth, Some(k), w[..i], es[0], w[i..] + t);
      ReadsAll(cfg, depth, k, w[i..], es[1..], t);
      ReadsOneMore(cfg, depth, k, es, w + t, w[i..] + t, t);
    }
  }

  lemma ReadsOneMore(cfg: Config, depth: nat, k: Kind, es: seq<Reply>, s: string, rest: string, t: string)
    requires es != [] && ParseItem(cfg, depth, Some(k), s) == Done(es[0], rest)
    requires ParseItems(cfg, depth, k, |es| - 1, rest) == Done(es[1..], t)
    ensures ParseItems(cfg, depth, k, |es|, s) == Done(es, t)
  {
    ConsDone(cfg, depth, k, |es|, s, es[0], rest);
    assert es == [es[0]] + es[1..];
  }

  lemma IntegerRejected(cfg: Config, depth: nat, parent: Option<Kind>, text: string, w: string, t: string)
    requires IsLineOf(':', text, w) && !IsNumber(text)
    ensures ParseItem(cfg, depth, parent, w + t) == Bad(BadInteger)
  {
    NumberMeaning(text);
    LineIsRead(cfg, depth, parent, INTEGER, text, w, t);
  }

  lemma DoubleRejected(cfg: Config, depth: nat, parent: Option<Kind>, text: string, w: string, t: string)
    requires cfg.dialect.Growing? && IsLineOf(',', text, w)
    ensures var o := ParseItem(cfg, depth, parent, w + t);
      && (|text| >= 326 ==> o == Bad(DoubleTooLarge))
      && (|text| < 326 && !cfg.isDouble(text) ==> o == Bad(BadDouble))
      && (IsDoubleText(cfg, text) && parent == Some(PUSH) ==> o == Bad(AssertFailed))
  {
    LineIsRead(cfg, depth, parent, DOUBLE, text, w, t);
  }

  lemma LineRejected(cfg: Config, depth: nat, parent: Option<Kind>, w: string, e: Error, t: string)
    requires BrokenLine(cfg, parent, w, e)
    ensures ParseItem(cfg, depth, parent, w + t) == Bad(e)
  {
    if e.BadInteger? {
      var text :| IsLineOf(':', text, w) && !IsNumber(text);
      IntegerRejected(cfg, depth, parent, text, w, t);
    } else if text :| IsLineOf(',', text, w) {
      DoubleRejected(cfg, depth, parent, text, w, t);
      OneText(',', text, w);
    } else {
      var text :| IsLineOf('#', text, w);
      LineIsRead(cfg, depth, parent, BOOL, text, w, t);
    }
  }

  /** A text is one line in one way only. */
  lemma OneText(c: char, text: string, w: string)
    requires IsLineOf(c, text, w)
    ensures forall c', text' | IsLineOf(c', text', w) :: c' == c && text' == text
  {
    forall c', text' | IsLineOf(c', text', w)
      ensures c' == c && text' == text
    {
      assert w[1..|w| - 2] == text && w[1..|w| - 2] == text';
    }
  }

  lemma BulkRejected(cfg: Config, depth: nat, parent: Option<Kind>, w: string, e: Error, t: string)
    requires BrokenBulk(cfg, w, e)
    ensures ParseItem(cfg, depth, parent, w + t) == Bad(e)
  {
    match e
    case BadVerbatim =>
      var body :| IsBulkOf('=', body, w) && !(|body| >= 4 && body[3] == ':');
      BulkIsRead(cfg, depth, parent, VERB, body, w, t);
    case _ => LengthRejected(cfg, depth, parent, w, e, t);
  }

  lemma LengthRejected(cfg: Config, depth: nat, parent: Option<Kind>, w: string, e: Error, t: string)
    requires BrokenBulk(cfg, w, e) && !e.BadVerbatim?
    ensures ParseItem(cfg, depth, parent, w + t) == Bad(e)
  {
    match e
    case BadBulkLength =>
      var c, text :| c in "$=" && Known(cfg, c) && IsLineOf(c, text, w) && !IsNumber(text);
      LengthIsRead(cfg, depth, parent, if c == '$' then STRING else VERB, text, w, t);
    case BulkRange =>
      var c, v :| c in "$=" && Known(cfg, c) && IsLineOf(c, Show(v), w) && InLongLong(v) && v < -1;
      LengthIsRead(cfg, depth, parent, if c == '$' then STRING else VERB, Show(v), w, t);
  }

  lemma OpeningRejected(cfg: Config, depth: nat, parent: Option<Kind>, k: Kind, w: string, e: Error, t: string)
    requires IsAggregate(k) && Known(cfg, ByteOf(k)) && BrokenOpening(cfg, depth, k, w, e)
    ensures ParseItem(cfg, depth, parent, w + t) == Bad(e)
  {
    TypeBytes(cfg, ByteOf(k), k);
    if LastSlot(cfg, depth) {
      assert (w + t)[0] == ByteOf(k);
    } else if e.BadMultiLength? {
      var text :| IsLineOf(ByteOf(k), text, w) && !IsNumber(text);
      OpeningIsRead(cfg, depth, k, text, w, t);
      LineFound(ByteOf(k), text, w, t);
    } else {
      OpeningIsRead(cfg, depth, k, Show(e.count), w, t);
      LineFound(ByteOf(k), Show(e.count), w, t);
    }
  }

  /** A stream that begins with a broken text is rejected for what is wrong with that text. */
  lemma {:induction false} Rejects(cfg: Config, depth: nat, parent: Option<Kind>, w: string, e: Error, t: string)
    requires Broken(cfg, depth, parent, w, e)
    ensures ParseItem(cfg, depth, parent, w + t) == Bad(e)
    decreases |w|, 0, 0
  {
    if e.TypeByte? && !Known(cfg, e.c) && w == [e.c] {
      TypeBytes(cfg, e.c, NIL);
    } else if BrokenLine(cfg, parent, w, e) {
      LineRejected(cfg, depth, parent, w, e, t);
    } else if BrokenBulk(cfg, w, e) {
      BulkRejected(cfg, depth, parent, w, e, t);
    } else if k :| IsAggregate(k) && Known(cfg, ByteOf(k)) && BrokenOpening(cfg, depth, k, w, e) {
      OpeningRejected(cfg, depth, parent, k, w, e, t);
    } else {
      var k, count: nat :| BrokenInside(cfg, depth, w, e, k, count);
      RejectsAll(cfg, depth + 1, k, Elements(k, count), w[|Opening(k, count)|..], e, t);
      AggregateIsRead(cfg, depth, parent, k, count, w, t);
    }
  }

  lemma FirstBad(cfg: Config, depth: nat, k: Kind, n: nat, s: string, e: Error)
    requires n > 0 && ParseItem(cfg, depth, Some(k), s) == Bad(e)
    ensures ParseItems(cfg, depth, k, n, s) == Bad(e)
  {
  }

  lemma RejectsLater(cfg: Config, depth: nat, k: Kind, n: nat, w: string, e: Error, t: string, i: nat, r: Reply)
    requires n > 0 && i <= |w| && Denotes(cfg, depth, Some(k), w[..i], r)
    requires ParseItems(cfg, depth, k, n - 1, w[i..] + t) == Bad(e)
    ensures ParseItems(cfg, depth, k, n, w + t) == Bad(e)
  {
    Reads(cfg, depth, Some(k), w[..i], r, w[i..] + t);
    Regrouped(w[..i], w, t);
    ConsDone(cfg, depth, k, n, w + t, r, w[i..] + t);
  }

  lemma {:induction false} RejectsAll(cfg: Config, depth: nat, k: Kind, n: nat, w: string, e: Error, t: string)
    requires BrokenAll(cfg, depth, k, n, w, e)
    ensures ParseItems(cfg, depth, k, n, w + t) == Bad(e)
    decreases |w|, 1, n
  {
    if i, r :| 0 <= i <= |w| && BrokenLater(cfg, depth, k, n, w, e, i, r) {
      RejectsAll(cfg, depth, k, n - 1, w[i..], e, t);
      RejectsLater(cfg, depth, k, n, w, e, t, i, r);
    } else {
      Rejects(cfg, depth, Some(k), w, e, t);
      FirstBad(cfg, depth, k, n, w + t, e);
    }
  }

  // -------------------------------------- what was read or rejected is such a text

  /** A reply was read off a text that denotes it, or the stream was rejected for a broken text. */
  ghost predicate Explained(cfg: Config, depth: nat, parent: Option<Kind>, s: string, o: Outcome<Reply>) {
    match o
    case Done(r, rest) => EndsWith(s, rest) && Denotes(cfg, depth, parent, Front(s, rest), r)
    case Bad(e) => exists n | 0 <= n <= |s| :: Broken(cfg, depth, parent, s[..n], e)
    case More => true
  }

  ghost predicate AllExplained(cfg: Config, depth: nat, k: Kind, n: nat, s: string, o: Outcome<seq<Reply>>) {
    match o
    case Done(es, rest) => EndsWith(s, rest) && DenotesAll(cfg, depth, k, Front(s, rest), es)
    case Bad(e) => exists m | 0 <= m <= |s| :: BrokenAll(cfg, depth, k, n, s[..m], e)
    case More => true
  }

  /** The kind of line that `LineReply` rejects. */
  lemma LineRejects(cfg: Config, parent: Option<Kind>, k: Kind, text: string, w: string)
    requires IsLine(k) && Known(cfg, ByteOf(k)) && IsLineOf(ByteOf(k), text, w)
    ensures var o := LineReply(cfg, parent, k, text); o.Bad? ==> BrokenLine(cfg, parent, w, o.error)
  {
    NumberMeaning(text);
  }

  /** The kind of line that `LineReply` accepts. */
  lemma LineAccepts(cfg: Config, depth: nat, parent: Option<Kind>, k: Kind, text: string, w: string)
    requires IsLine(k) && Known(cfg, ByteOf(k)) && IsLineOf(ByteOf(k), text, w)
    ensures var o := LineReply(cfg, parent, k, text); o.Done? ==> Denotes(cfg, depth, parent, w, o.value)
  {
    if k == INTEGER && Number(text).Some? { NumberInvertsShow(text, Number(text).value); }
  }

  lemma LineExplained(cfg: Config, depth: nat, parent: Option<Kind>, k: Kind, s: string)
    requires s != "" && IsLine(k) && TypeOf(cfg, s[0]) == Some(k)
    ensures Explained(cfg, depth, parent, s, ParseLine(cfg, parent, k, s[1..]))
  {
    if Newline(s[1..]).Some? {
      var n := Newline(s[1..]).value;
      TypeBytes(cfg, s[0], k);
      LineTaken(s);
      LineRejects(cfg, parent, k, s[1..][..n], s[..n + 3]);
      LineAccepts(cfg, depth, parent, k, s[1..][..n], s[..n + 3]);
    }
  }

  lemma LengthExplained(cfg: Config, depth: nat, parent: Option<Kind>, k: Kind, text: string, w: string)
    requires IsBulk(k) && Known(cfg, ByteOf(k)) && IsLineOf(ByteOf(k), text, w)
    ensures Number(text).None? ==> Broken(cfg, depth, parent, w, BadBulkLength)
    ensures Number(text).Some? && Number(text).value < -1 ==> Broken(cfg, depth, parent, w, BulkRange)
    ensures Number(text) == Some(-1) ==> Denotes(cfg, depth, parent, w, Nil)
  {
    NumberMeaning(text);
    if Number(text).Some? {
      var v := Number(text).value;
      NumberInvertsShow(text, v);
      if v < -1 { assert BrokenBulk(cfg, w, BulkRange); }
      if v == -1 { MinusOne(); assert ByteOf(k) in "$=" && w == [ByteOf(k)] + "-1\r\n"; }
    } else {
      assert BrokenBulk(cfg, w, BadBulkLength);
    }
  }

  lemma MinusOne()
    ensures Show(-1) == "-1"
  {
    assert Dec(1) == "1";
  }

  lemma BodyExplained(cfg: Config, depth: nat, parent: Option<Kind>, k: Kind, body: string, w: string)
    requires IsBulk(k) && Known(cfg, ByteOf(k)) && IsBulkOf(ByteOf(k), body, w)
    ensures if k == VERB && (|body| < 4 || body[3] != ':') then Broken(cfg, depth, parent, w, BadVerbatim)
      else Denotes(cfg, depth, parent, w, BulkReply(k, body))
  {
    if k == VERB && |body| >= 4 && body[3] == ':' {
      assert body == body[..3] + ":" + body[4..];
    } else if k == VERB {
      assert BrokenBulk(cfg, w, BadVerbatim);
    }
  }

  lemma DoneExplained(cfg: Config, depth: nat, parent: Option<Kind>, s: string, m: nat, r: Reply)
    requires m <= |s| && Denotes(cfg, depth, parent, s[..m], r)
    ensures Explained(cfg, depth, parent, s, Done(r, s[m..]))
  {
    assert Front(s, s[m..]) == s[..m];
  }

  lemma BadExplained(cfg: Config, depth: nat, parent: Option<Kind>, s: string, m: nat, e: Error)
    requires m <= |s| && Broken(cfg, depth, parent, s[..m], e)
    ensures Explained(cfg, depth, parent, s, Bad(e))
  {
  }

  lemma BulkExplained(cfg: Config, depth: nat, parent: Option<Kind>, k: Kind, s: string)
    requires s != "" && IsBulk(k) && TypeOf(cfg, s[0]) == Some(k)
    ensures Explained(cfg, depth, parent, s, ParseBulk(k, s[1..]))
  {
    var line := Newline(s[1..]);
    if line.Some? {
      TypeBytes(cfg, s[0], k);
      LineTaken(s);
      var len := Number(s[1..][..line.value]);
      if len.None? || len.value < 0 {
        NoStringExplained(cfg, depth, parent, k, s, line.value);
      } else {
        SomeStringExplained(cfg, depth, parent, k, s, line.value, len.value);
      }
    }
  }

  lemma SomeStringExplained(cfg: Config, depth: nat, parent: Option<Kind>, k: Kind, s: string, n: nat, len: nat)
    requires s != "" && IsBulk(k) && Known(cfg, s[0]) && s[0] == ByteOf(k) && n + 3 <= |s|
    requires Newline(s[1..]) == Some(n) && Number(s[1..][..n]) == Some(len)
    ensures Explained(cfg, depth, parent, s, BulkBody(k, len, s[1..], n + 2))
  {
    BulkTaken(k, s);
    StringExplained(cfg, depth, parent, k, s, n + 2, len);
  }

  lemma NoStringExplained(cfg: Config, depth: nat, parent: Option<Kind>, k: Kind, s: string, n: nat)
    requires s != "" && IsBulk(k) && Known(cfg, s[0]) && s[0] == ByteOf(k) && n + 3 <= |s|
    requires IsLineOf(s[0], s[1..][..n], s[..n + 3]) && s[1..][n + 2..] == s[n + 3..]
    ensures var len := Number(s[1..][..n]);
      && (len.None? ==> Explained(cfg, depth, parent, s, Bad(BadBulkLength)))
      && (len.Some? && len.value < 0 ==> Explained(cfg, depth, parent, s, BulkBody(k, len.value, s[1..], n + 2)))
  {
    var len := Number(s[1..][..n]);
    LengthExplained(cfg, depth, parent, k, s[1..][..n], s[..n + 3]);
    if len.None? {
      BadExplained(cfg, depth, parent, s, n + 3, BadBulkLength);
    } else if len.value < -1 {
      BadExplained(cfg, depth, parent, s, n + 3, BulkRange);
    } else if len.value == -1 {
      DoneExplained(cfg, depth, parent, s, n + 3, Nil);
    }
  }

  lemma StringExplained(cfg: Config, depth: nat, parent: Option<Kind>, k: Kind, s: string, first: nat, len: nat)
    requires s != "" && IsBulk(k) && Known(cfg, s[0]) && s[0] == ByteOf(k) && first <= |s[1..]|
    requires first + len + 2 <= |s[1..]| ==> IsBulkOf(s[0], s[1..][first..first + len], s[..first + len + 3])
    ensures Explained(cfg, depth, parent, s, BulkBody(k, len, s[1..], first))
  {
    if first + len + 2 <= |s[1..]| {
      var body, m := s[1..][first..first + len], first + len + 3;
      BodyExplained(cfg, depth, parent, k, body, s[..m]);
      assert len >= 4 ==> s[1..][first + 3] == body[3];
      if k == VERB && (len < 4 || body[3] != ':') {
        BadExplained(cfg, depth, parent, s, m, BadVerbatim);
      } else {
        assert s[1..][first + len + 2..] == s[m..];
        DoneExplained(cfg, depth, parent, s, m, BulkReply(k, body));
      }
    }
  }

  // -------------------------------------------------------------- aggregates

  lemma LineBroken(cfg: Config, depth: nat, parent: Option<Kind>, k: Kind, w: string, e: Error)
    requires IsAggregate(k) && Known(cfg, ByteOf(k)) && BrokenOpening(cfg, depth, k, w, e)
    ensures Broken(cfg, depth, parent, w, e)
  {
  }

  /** The line that opens an aggregate is broken, or null, or a count. */
  ghost predicate OpeningExplained(cfg: Config, depth: nat, parent: Option<Kind>, k: Kind, s: string,
        o: Outcome<Option<nat>>) {
    match o
    case More => true
    case Bad(e) => Explained(cfg, depth, parent, s, Bad(e))
    case Done(None, rest) => Explained(cfg, depth, parent, s, Done(Nil, rest))
    case Done(Some(n), rest) => Starts(cfg, depth, k, n, s, rest)
  }

  lemma HeaderExplained(cfg: Config, depth: nat, parent: Option<Kind>, k: Kind, s: string)
    requires s != "" && IsAggregate(k) && TypeOf(cfg, s[0]) == Some(k)
    ensures OpeningExplained(cfg, depth, parent, k, s, Header(cfg, depth, k, s[1..]))
  {
    var line := Newline(s[1..]);
    TypeBytes(cfg, s[0], k);
    if LastSlot(cfg, depth) {
      assert s[..1] == [s[0]];
      LineBroken(cfg, depth, parent, k, s[..1], TooDeep);
      BadExplained(cfg, depth, parent, s, 1, TooDeep);
    } else if line.Some? {
      LineTaken(s);
      CountExplained(cfg, depth, parent, k, s, line.value);
    }
  }

  /** An aggregate of `n` elements is opened in front of `rest`. */
  ghost predicate Starts(cfg: Config, depth: nat, k: Kind, n: nat, s: string, rest: string) {
    exists count: nat ::
      && MayOpen(cfg, depth, k, count) && n == Elements(k, count)
      && s == Opening(k, count) + rest
  }

  lemma CountExplained(cfg: Config, depth: nat, parent: Option<Kind>, k: Kind, s: string, n: nat)
    requires s != "" && IsAggregate(k) && Known(cfg, s[0]) && s[0] == ByteOf(k) && !LastSlot(cfg, depth)
    requires Newline(s[1..]) == Some(n) && n + 3 <= |s|
    requires IsLineOf(s[0], s[1..][..n], s[..n + 3]) && s[1..][n + 2..] == s[n + 3..]
    ensures OpeningExplained(cfg, depth, parent, k, s, Header(cfg, depth, k, s[1..]))
  {
    HeaderOf(cfg, depth, k, s[1..], n);
    var text, w := s[1..][..n], s[..n + 3];
    NumberMeaning(text);
    if Number(text).None? {
      LineBroken(cfg, depth, parent, k, w, BadMultiLength);
      BadExplained(cfg, depth, parent, s, n + 3, BadMultiLength);
    } else {
      NumberInvertsShow(text, Number(text).value);
      CountedExplained(cfg, depth, parent, k, Number(text).value, s, n + 3);
    }
  }

  lemma CountedExplained(cfg: Config, depth: nat, parent: Option<Kind>, k: Kind, v: int, s: string, m: nat)
    requires IsAggregate(k) && Known(cfg, ByteOf(k)) && !LastSlot(cfg, depth) && m <= |s|
    requires IsLineOf(ByteOf(k), Show(v), s[..m]) && InLongLong(v)
    ensures OpeningExplained(cfg, depth, parent, k, s, Opened(cfg, k, v, s[m..]))
  {
    if v < -1 || TooMany(cfg, v) {
      LineBroken(cfg, depth, parent, k, s[..m], MultiRange(v));
      BadExplained(cfg, depth, parent, s, m, MultiRange(v));
    } else if v == -1 {
      MinusOne();
      assert ByteOf(k) in "$=*%~>" && s[..m] == [ByteOf(k)] + "-1\r\n";
      DoneExplained(cfg, depth, parent, s, m, Nil);
    } else {
      assert s == Opening(k, v) + s[m..];
    }
  }

  /** Behind its opening line, an aggregate is explained by its elements. */
  lemma InsideExplained(cfg: Config, depth: nat, parent: Option<Kind>, k: Kind, n: nat, s: string, rest: string,
        o: Outcome<seq<Reply>>)
    requires Starts(cfg, depth, k, n, s, rest) && AllExplained(cfg, depth + 1, k, n, rest, o)
    requires o.Done? ==> |o.value| == n
    ensures Explained(cfg, depth, parent, s, Closed(k, o))
  {
    var count: nat :|
      && MayOpen(cfg, depth, k, count) && n == Elements(k, count)
      && s == Opening(k, count) + rest;
    match o
    case More =>
    case Done(es, rest') => AllRead(cfg, depth, parent, k, count, s, rest, es, rest');
    case Bad(e) =>
      var m :| 0 <= m <= |rest| && BrokenAll(cfg, depth + 1, k, n, rest[..m], e);
      OneBroken(cfg, depth, parent, k, count, s, rest, m, e);
  }

  lemma Behind(first: string, rest: string, m: nat)
    requires m <= |rest|
    ensures var w := (first + rest)[..|first| + m]; first <= w && w[|first|..] == rest[..m]
    ensures (first + rest)[|first| + m..] == rest[m..]
  {
  }

  lemma AllRead(cfg: Config, depth: nat, parent: Option<Kind>, k: Kind, count: nat, s: string, rest: string,
        es: seq<Reply>, rest': string)
    requires MayOpen(cfg, depth, k, count) && s == Opening(k, count) + rest && |es| == Elements(k, count)
    requires EndsWith(rest, rest') && DenotesAll(cfg, depth + 1, k, Front(rest, rest'), es)
    ensures Explained(cfg, depth, parent, s, Done(Agg(k, es), rest'))
  {
    var m := |rest| - |rest'|;
    Behind(Opening(k, count), rest, m);
    assert DenotesCounted(cfg, depth, s[..|Opening(k, count)| + m], k, count, es);
    DoneExplained(cfg, depth, parent, s, |Opening(k, count)| + m, Agg(k, es));
  }

  lemma OneBroken(cfg: Config, depth: nat, parent: Option<Kind>, k: Kind, count: nat, s: string, rest: string,
        m: nat, e: Error)
    requires MayOpen(cfg, depth, k, count) && s == Opening(k, count) + rest
    requires m <= |rest| && BrokenAll(cfg, depth + 1, k, Elements(k, count), rest[..m], e)
    ensures Explained(cfg, depth, parent, s, Bad(e))
  {
    Behind(Opening(k, count), rest, m);
    assert BrokenInside(cfg, depth, s[..|Opening(k, count)| + m], e, k, count);
    BadExplained(cfg, depth, parent, s, |Opening(k, count)| + m, e);
  }

  /** One element more in front of the others. */
  lemma OneMoreExplained(cfg: Config, depth: nat, k: Kind, n: nat, s: string, r: Reply, rest: string,
        o: Outcome<seq<Reply>>)
    requires n > 0 && Explained(cfg, depth, Some(k), s, Done(r, rest)) && AllExplained(cfg, depth, k, n - 1, rest, o)
    ensures AllExplained(cfg, depth, k, n, s,
      match o case Done(es, rest') => Done([r] + es, rest') case More => More case Bad(e) => Bad(e))
  {
    var i := |s| - |rest|;
    match o
    case More =>
    case Done(es, rest') =>
      var w, all := Front(s, rest'), [r] + es;
      assert w[..i] == s[..i] && w[i..] == Front(rest, rest') && s[|s| - |rest'|..] == rest';
      assert all[1..] == es;
      assert DenotesFirst(cfg, depth, k, w, all, i);
    case Bad(e) =>
      var m :| 0 <= m <= |rest| && BrokenAll(cfg, depth, k, n - 1, rest[..m], e);
      var w := s[..i + m];
      assert w[..i] == s[..i] && w[i..] == rest[..m];
      assert BrokenLater(cfg, depth, k, n, w, e, i, r);
  }

  lemma {:induction false} ItemExplained(cfg: Config, depth: nat, parent: Option<Kind>, s: string)
    ensures Explained(cfg, depth, parent, s, ParseItem(cfg, depth, parent, s))
    decreases |s|, 0, 0
  {
    if s != "" {
      var k := TypeOf(cfg, s[0]);
      TypeBytes(cfg, s[0], NIL);
      if k.None? {
        assert s[..1] == [s[0]];
        BadExplained(cfg, depth, parent, s, 1, TypeByte(s[0]));
      } else if IsLine(k.value) {
        LineExplained(cfg, depth, parent, k.value, s);
      } else if IsBulk(k.value) {
        BulkExplained(cfg, depth, parent, k.value, s);
      } else {
        HeaderExplained(cfg, depth, parent, k.value, s);
        match Header(cfg, depth, k.value, s[1..])
        case Done(Some(n), rest) =>
          ItemsExplained(cfg, depth + 1, k.value, n, rest);
          InsideExplained(cfg, depth, parent, k.value, n, s, rest, ParseItems(cfg, depth + 1, k.value, n, rest));
        case _ =>
      }
    }
  }

  lemma {:induction false} ItemsExplained(cfg: Config, depth: nat, k: Kind, n: nat, s: string)
    ensures AllExplained(cfg, depth, k, n, s, ParseItems(cfg, depth, k, n, s))
    decreases |s|, 1, n
  {
    if n == 0 {
      assert Front(s, s) == "";
    } else {
      ItemExplained(cfg, depth, Some(k), s);
      match ParseItem(cfg, depth, Some(k), s)
      case More =>
      case Bad(e) =>
        var m :| 0 <= m <= |s| && Broken(cfg, depth, Some(k), s[..m], e);
        assert BrokenAll(cfg, depth, k, n, s[..m], e);
      case Done(r, rest) =>
        ItemsExplained(cfg, depth, k, n - 1, rest);
        OneMoreExplained(cfg, depth, k, n, s, r, rest, ParseItems(cfg, depth, k, n - 1, rest));
    }
  }

  // ------------------------------------------------------------- main results

  lemma FrontOf(w: string, t: string)
    ensures Front(w + t, t) == w
  {
  }

  /**
    A reply is read, up to some point of the stream, if and only if the bytes up to that point
    denote it.
  */
  lemma ReadExactly(cfg: Config, depth: nat, parent: Option<Kind>, w: string, r: Reply, t: string)
    ensures ParseItem(cfg, depth, parent, w + t) == Done(r, t) <==> Denotes(cfg, depth, parent, w, r)
  {
    if Denotes(cfg, depth, parent, w, r) {
      Reads(cfg, depth, parent, w, r, t);
    } else if ParseItem(cfg, depth, parent, w + t) == Done(r, t) {
      ItemExplained(cfg, depth, parent, w + t);
      FrontOf(w, t);
    }
  }

  /** A stream is rejected if and only if it begins with a broken text, and for what is wrong with that. */
  lemma RejectedExactly(cfg: Config, depth: nat, parent: Option<Kind>, s: string, e: Error)
    ensures ParseItem(cfg, depth, parent, s) == Bad(e) <==>
      exists n | 0 <= n <= |s| :: Broken(cfg, depth, parent, s[..n], e)
  {
    if n :| 0 <= n <= |s| && Broken(cfg, depth, parent, s[..n], e) {
      Rejects(cfg, depth, parent, s[..n], e, s[n..]);
      assert s[..n] + s[n..] == s;
    } else {
      ItemExplained(cfg, depth, parent, s);
    }
  }

  /** No reply and no error starts the stream: more bytes are wanted. */
  ghost predicate Unfinished(cfg: Config, s: string) {
    forall n | 0 <= n <= |s| ::
      && (forall r :: !Denotes(cfg, 0, None, s[..n], r))
      && (forall e :: !Broken(cfg, 0, None, s[..n], e))
  }

  /** The stream is made of texts that denote `rs`, in order, and of an end that denotes nothing. */
  ghost predicate Streams(cfg: Config, s: string, rs: seq<Reply>, end: End)
    decreases |rs|
  {
    if rs == [] then
      match end
      case Dry => Unfinished(cfg, s)
      case Fail(e) => exists n | 0 <= n <= |s| :: Broken(cfg, 0, None, s[..n], e)
    else
      exists n | 0 <= n <= |s| :: Denotes(cfg, 0, None, s[..n], rs[0]) && Streams(cfg, s[n..], rs[1..], end)
  }

  lemma Begins(cfg: Config, s: string, n: nat, r: Reply)
    requires n <= |s| && Denotes(cfg, 0, None, s[..n], r)
    ensures ParseItem(cfg, 0, None, s) == Done(r, s[n..])
  {
    Reads(cfg, 0, None, s[..n], r, s[n..]);
    assert s[..n] + s[n..] == s;
  }

  lemma UnfinishedMeansMore(cfg: Config, s: string)
    ensures Unfinished(cfg, s) <==> ParseItem(cfg, 0, None, s) == More
  {
    ItemExplained(cfg, 0, None, s);
    if ParseItem(cfg, 0, None, s) == More {
      forall n | 0 <= n <= |s|
        ensures (forall r :: !Denotes(cfg, 0, None, s[..n], r)) && (forall e :: !Broken(cfg, 0, None, s[..n], e))
      {
        if r :| Denotes(cfg, 0, None, s[..n], r) {
          Begins(cfg, s, n, r);
        }
        if e :| Broken(cfg, 0, None, s[..n], e) {
          RejectedExactly(cfg, 0, None, s, e);
        }
      }
    }
  }

  /** The end of a stream: nothing more begins there. */
  lemma StreamEnds(cfg: Config, s: string, end: End)
    ensures Streams(cfg, s, [], end) <==> ParseItem(cfg, 0, None, s) == if end.Dry? then More else Bad(end.error)
  {
    if end.Dry? { UnfinishedMeansMore(cfg, s); } else { RejectedExactly(cfg, 0, None, s, end.error); }
  }

  /** The meaning of a stream is exactly the replies that its texts denote, and how it ends. */
  lemma {:induction false} StreamExactly(cfg: Config, s: string, rs: seq<Reply>, end: End)
    ensures ParseAll(cfg, s) == Parsed(rs, end) <==> Streams(cfg, s, rs, end)
    decreases |rs|
  {
    var o := ParseItem(cfg, 0, None, s);
    if rs == [] {
      StreamEnds(cfg, s, end);
    } else if o.Done? {
      StreamExactly(cfg, o.rest, rs[1..], end);
      ItemExplained(cfg, 0, None, s);
      FirstOfStream(cfg, s, o.value, o.rest, rs, end);
      FirstOfMeaning(cfg, s, o.value, o.rest, rs, end);
    } else if n :| 0 <= n <= |s| && Denotes(cfg, 0, None, s[..n], rs[0]) {
      Begins(cfg, s, n, rs[0]);
    }
  }

  lemma FirstOfStream(cfg: Config, s: string, r: Reply, rest: string, rs: seq<Reply>, end: End)
    requires ParseItem(cfg, 0, None, s) == Done(r, rest) && rs != []
    ensures Streams(cfg, s, rs, end) <==> r == rs[0] && Streams(cfg, rest, rs[1..], end)
  {
    ItemExplained(cfg, 0, None, s);
    var m := |s| - |rest|;
    assert s[..m] == Front(s, rest) && s[m..] == rest;
    if Streams(cfg, s, rs, end) {
      var n :| 0 <= n <= |s| && Denotes(cfg, 0, None, s[..n], rs[0]) && Streams(cfg, s[n..], rs[1..], end);
      Begins(cfg, s, n, rs[0]);
    }
  }

  lemma FirstOfMeaning(cfg: Config, s: string, r: Reply, rest: string, rs: seq<Reply>, end: End)
    requires ParseItem(cfg, 0, None, s) == Done(r, rest) && rs != []
    ensures ParseAll(cfg, s) == Parsed(rs, end) <==> r == rs[0] && ParseAll(cfg, rest) == Parsed(rs[1..], end)
  {
    assert rs == [rs[0]] + rs[1..];
    assert ([r] + ParseAll(cfg, rest).replies)[1..] == ParseAll(cfg, rest).replies;
  }

  /**
    So a reader that has been drained, however its stream was cut, has handed out exactly the replies
    that the texts of the stream denote, and is in error exactly if the stream goes on with a broken one.
  */
  lemma DrainedReader(cfg: Config, ops: seq<Resume.Op>)
    requires Resume.Drained(cfg, ops)
    ensures Streams(cfg, Resume.Stream(ops), Resume.Run(cfg, ops).1, Resume.EndOf(Resume.Run(cfg, ops).0))
  {
    Resume.ChunkingIndependence(cfg, ops);
    StreamExactly(cfg, Resume.Stream(ops), Resume.Run(cfg, ops).1, Resume.EndOf(Resume.Run(cfg, ops).0));
  }
}
