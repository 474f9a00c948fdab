/**
  The Redis serialization protocol as a recursive grammar over a whole byte stream, and the
  wire form of a reply. The resumable reader of read.c is measured against this grammar.
*/
module Resp {
  import opened Options
  import opened Numbers

  /** The REDIS_REPLY_* types the readers know. */
  datatype Kind =
    | STRING | ARRAY | INTEGER | NIL | STATUS | ERROR
    | DOUBLE | BOOL | MAP | SET | PUSH | VERB

  /** A reply tree. `Text` holds a status, an error or a bulk string. */
  datatype Reply =
    | Text(kind: Kind, str: string)
    | Int(v: int)
    | Nil
    | Bool(b: bool)
    | Double(digits: string)
    | Verb(vtype: string, text: string)
    | Agg(akind: Kind, elems: seq<Reply>)

  /**
    What a reader rejects. `AssertFailed` stands for a failing assertion in the object builders;
    `MultiRange` also records the count that was out of range.
  */
  datatype Error =
    | BadInteger | BadDouble | DoubleTooLarge
    | BadBulkLength | BulkRange | BadVerbatim
    | BadMultiLength | MultiRange(count: int) | TypeByte(c: char)
    | TooDeep | AssertFailed

  /** The growing-stack RESP3 reader of hiredis, and the older nine-slot RESP2 reader. */
  datatype Dialect = Growing | FixedStack

  /**
    The settings of a reader: `maxElements` is the `maxelements` field (0 means no limit) and
    `isDouble` stands for the C library's verdict on the text of a double.
  */
  datatype Config = Config(dialect: Dialect, maxElements: int, isDouble: string -> bool)

  const FIXED_STACK_SIZE: nat := 9
  const INT_MAX: int := 0x7FFF_FFFF
  const DOUBLE_SIZE: nat := 326

  datatype Outcome<+T> = Done(value: T, rest: string) | More | Bad(error: Error)

  predicate IsAggregate(k: Kind) {
    k in {ARRAY, MAP, SET, PUSH}
  }

  predicate IsBulk(k: Kind) {
    k in {STRING, VERB}
  }

  predicate IsLine(k: Kind) {
    !IsAggregate(k) && !IsBulk(k)
  }

  function TypeOf(cfg: Config, c: char): Option<Kind> {
    match c
    case '-' => Some(ERROR)
    case '+' => Some(STATUS)
    case ':' => Some(INTEGER)
    case '$' => Some(STRING)
    case '*' => Some(ARRAY)
    case _ =>
      if cfg.dialect.FixedStack? then None
      else match c
        case ',' => Some(DOUBLE)
        case '_' => Some(NIL)
        case '%' => Some(MAP)
        case '~' => Some(SET)
        case '#' => Some(BOOL)
        case '=' => Some(VERB)
        case '>' => Some(PUSH)
        case _ => None
  }

  // ------------------------------------------------------------------- lines

  predicate NewlineAt(s: string, k: int) {
    0 <= k < |s| - 1 && s[k] == '\r' && s[k + 1] == '\n'
  }

  /** The position of the first "\r\n". */
  function Newline(s: string): (r: Option<nat>)
    ensures r.Some? ==> NewlineAt(s, r.value) && forall k | 0 <= k < r.value :: !NewlineAt(s, k)
    ensures r.None? ==> forall k :: !NewlineAt(s, k)
  {
    if |s| < 2 then None
    else if NewlineAt(s, 0) then Some(0)
    else
      var r := Newline(s[1..]);
      assert forall k | k > 0 :: NewlineAt(s, k) <==> NewlineAt(s[1..], k - 1);
      if r.None? then None else Some(r.value + 1)
  }

  /** A line that is complete stays the same line when more bytes arrive. */
  lemma NewlineStable(s: string, f: string)
    requires Newline(s).Some?
    ensures Newline(s + f) == Newline(s)
  {
    var n := Newline(s).value;
    assert NewlineAt(s + f, n);
    assert forall k | 0 <= k < n :: NewlineAt(s + f, k) ==> NewlineAt(s, k);
  }

  lemma NewlineIs(s: string, n: nat)
    requires NewlineAt(s, n) && forall k | 0 <= k < n :: !NewlineAt(s, k)
    ensures Newline(s) == Some(n)
  {
  }

  lemma LineSlices(line: string, t: string)
    ensures var s := line + "\r\n" + t;
      && NewlineAt(s, |line|) && s[..|line|] == line && s[|line| + 2..] == t
      && forall k | 0 <= k < |line| :: s[k] == line[k]
  {
  }

  lemma NewlineOf(line: string, t: string)
    requires Newline(line).None?
    ensures var s := line + "\r\n" + t;
      Newline(s) == Some(|line|) && s[..|line|] == line && s[|line| + 2..] == t
  {
    var s := line + "\r\n" + t;
    LineSlices(line, t);
    forall k | 0 <= k < |line|
      ensures !NewlineAt(s, k)
    {
      assert !NewlineAt(line, k);
    }
    NewlineIs(s, |line|);
  }

  // ------------------------------------------------------------------ grammar

  /** The object a complete line of type `k` denotes; `parent` is the type of the enclosing aggregate. */
  function LineReply(cfg: Config, parent: Option<Kind>, k: Kind, line: string): Outcome<Reply> {
    match k
    case INTEGER =>
      var v := Number(line);
      if v.None? then Bad(BadInteger) else Done(Int(v.value), "")
    case DOUBLE =>
      if |line| >= DOUBLE_SIZE then Bad(DoubleTooLarge)
      else if !cfg.isDouble(line) then Bad(BadDouble)
      else if parent == Some(PUSH) then Bad(AssertFailed)
      else Done(Double(line), "")
    case NIL => Done(Nil, "")
    case BOOL =>
      if parent == Some(PUSH) then Bad(AssertFailed)
      else Done(Bool(line != "" && line[0] in {'t', 'T'}), "")
    case _ => Done(Text(k, line), "")
  }

  function ParseLine(cfg: Config, parent: Option<Kind>, k: Kind, s: string): Outcome<Reply> {
    var n := Newline(s);
    if n.None? then More
    else match LineReply(cfg, parent, k, s[..n.value])
      case Done(r, _) => Done(r, s[n.value + 2..])
      case other => other
  }

  function ParseBulk(k: Kind, s: string): Outcome<Reply> {
    var n := Newline(s);
    if n.None? then More
    else
      var len := Number(s[..n.value]);
      if len.None? then Bad(BadBulkLength) else BulkBody(k, len.value, s, n.value + 2)
  }

  /** A string whose announced length is `len`; its bytes start at `first`. */
  function BulkBody(k: Kind, len: int, s: string, first: nat): Outcome<Reply>
    requires first <= |s|
  {
    if len < -1 then Bad(BulkRange)
    else if len == -1 then Done(Nil, s[first..])
    else if first + len + 2 > |s| then More
    else if k == VERB && (len < 4 || s[first + 3] != ':') then Bad(BadVerbatim)
    else Done(BulkReply(k, s[first..first + len]), s[first + len + 2..])
  }

  function BulkReply(k: Kind, body: string): Reply
    requires k == VERB ==> |body| >= 4
  {
    if k == VERB then Verb(body[..3], body[4..]) else Text(k, body)
  }

  /** The line that opens an aggregate: nil, or the number of elements that follow. */
  function Header(cfg: Config, depth: nat, k: Kind, s: string): (o: Outcome<Option<nat>>)
    ensures o.Done? ==> |o.rest| + 2 <= |s|
  {
    if cfg.dialect.FixedStack? && depth == FIXED_STACK_SIZE - 1 then Bad(TooDeep) else HeaderLine(cfg, k, s)
  }

  function HeaderLine(cfg: Config, k: Kind, s: string): (o: Outcome<Option<nat>>)
    ensures o.Done? ==> |o.rest| + 2 <= |s|
  {
    var n := Newline(s);
    if n.None? then More
    else
      var count := Number(s[..n.value]);
      if count.None? then Bad(BadMultiLength)
      else if count.value < -1 || OverLimit(cfg, count.value) then Bad(MultiRange(count.value))
      else if count.value == -1 then Done(None, s[n.value + 2..])
      else Done(Some(if k == MAP then 2 * count.value else count.value), s[n.value + 2..])
  }

  predicate OverLimit(cfg: Config, count: int) {
    if cfg.dialect.FixedStack? then count > INT_MAX
    else cfg.maxElements > 0 && count > cfg.maxElements
  }

  /** One reply of the stream, at nesting level `depth` inside an aggregate of type `parent`. */
  function ParseItem(cfg: Config, depth: nat, parent: Option<Kind>, s: string): (o: Outcome<Reply>)
    ensures o.Done? ==> |o.rest| < |s|
    decreases |s|, 0, 0
  {
    if s == "" then More
    else
      var k := TypeOf(cfg, s[0]);
      if k.None? then Bad(TypeByte(s[0])) else ParseTyped(cfg, depth, parent, k.value, s[1..])
  }

  function ParseTyped(cfg: Config, depth: nat, parent: Option<Kind>, k: Kind, s: string): (o: Outcome<Reply>)
    ensures o.Done? ==> |o.rest| < |s|
    decreases |s|, 0, 0
  {
    if IsLine(k) then ParseLine(cfg, parent, k, s)
    else if IsBulk(k) then ParseBulk(k, s)
    else
      match Header(cfg, depth, k, s)
      case More => More
      case Bad(e) => Bad(e)
      case Done(None, rest) => Done(Nil, rest)
      case Done(Some(n), rest) =>
        match ParseItems(cfg, depth + 1, k, n, rest)
        case More => More
        case Bad(e) => Bad(e)
        case Done(es, rest') => Done(Agg(k, es), rest')
  }

  function ParseItems(cfg: Config, depth: nat, k: Kind, n: nat, s: string): (o: Outcome<seq<Reply>>)
    ensures o.Done? ==> |o.rest| <= |s| && |o.value| == n
    decreases |s|, 1, n
  {
    if n == 0 then Done([], s)
    else
      match ParseItem(cfg, depth, Some(k), s)
      case More => More
      case Bad(e) => Bad(e)
      case Done(r, rest) =>
        match ParseItems(cfg, depth, k, n - 1, rest)
        case More => More
        case Bad(e) => Bad(e)
        case Done(es, rest') => Done([r] + es, rest')
  }

  /** How a stream ends: more bytes are wanted, or it is rejected for good. */
  datatype End = Dry | Fail(error: Error)

  datatype Parsed = Parsed(replies: seq<Reply>, end: End)

  /** The meaning of a whole stream: every reply it holds, and how it ends. */
  function ParseAll(cfg: Config, s: string): Parsed
    decreases |s|
  {
    match ParseItem(cfg, 0, None, s)
    case More => Parsed([], Dry)
    case Bad(e) => Parsed([], Fail(e))
    case Done(r, rest) => Prepend([r], ParseAll(cfg, rest))
  }

  function Prepend(rs: seq<Reply>, p: Parsed): Parsed {
    p.(replies := rs + p.replies)
  }

  // ---------------------------------------------------------------- wire form

  /** Reply trees that have a wire form at all. */
  predicate WellFormed(r: Reply) {
    match r
    case Text(k, _) => k in {STATUS, ERROR, STRING}
    case Agg(k, es) => IsAggregate(k) && (k == MAP ==> |es| % 2 == 0) && AllWellFormed(es)
    case _ => true
  }

  predicate AllWellFormed(es: seq<Reply>) {
    es != [] ==> WellFormed(es[0]) && AllWellFormed(es[1..])
  }

  function Line(s: string): string {
    s + "\r\n"
  }

  /** A length-prefixed string. */
  function Bulk(s: string): string {
    Line(Show(|s|)) + Line(s)
  }

  function Tag(r: Reply): char
    requires WellFormed(r)
  {
    match r
    case Text(k, _) => (match k case STRING => '$' case STATUS => '+' case _ => '-')
    case Int(_) => ':'
    case Nil => '_'
    case Bool(_) => '#'
    case Double(_) => ','
    case Verb(_, _) => '='
    case Agg(k, _) => (match k case ARRAY => '*' case MAP => '%' case SET => '~' case _ => '>')
  }

  function Body(r: Reply): string
    requires WellFormed(r)
    decreases r, 0
  {
    match r
    case Text(k, s) => if k == STRING then Bulk(s) else Line(s)
    case Int(v) => Line(Show(v))
    case Nil => Line("")
    case Bool(b) => Line(if b then "t" else "f")
    case Double(d) => Line(d)
    case Verb(vt, t) => Bulk(vt + ":" + t)
    case Agg(k, es) => Line(Show(Count(k, es))) + EncodeAll(es)
  }

  /** The wire form, by the Redis serialization protocol specification. */
  function Encode(r: Reply): string
    requires WellFormed(r)
    decreases r, 1
  {
    [Tag(r)] + Body(r)
  }

  function EncodeAll(es: seq<Reply>): string
    requires AllWellFormed(es)
    decreases es, 2
  {
    if es == [] then "" else Encode(es[0]) + EncodeAll(es[1..])
  }

  function Count(k: Kind, es: seq<Reply>): nat {
    if k == MAP then |es| / 2 else |es|
  }

  /** The trees that survive a trip over the wire to a reader with the given settings. */
  predicate Readable(cfg: Config, depth: nat, parent: Option<Kind>, r: Reply)
    decreases r
  {
    match r
    case Text(k, s) => if k == STRING then |s| <= LLONG_MAX else Newline(s).None?
    case Int(v) => InLongLong(v)
    case Nil => cfg.dialect.Growing?
    case Bool(_) => cfg.dialect.Growing? && parent != Some(PUSH)
    case Double(d) =>
      && cfg.dialect.Growing? && parent != Some(PUSH)
      && Newline(d).None? && |d| < DOUBLE_SIZE && cfg.isDouble(d)
    case Verb(vt, t) => cfg.dialect.Growing? && |vt| == 3 && |t| + 4 <= LLONG_MAX
    case Agg(k, es) =>
      && (k != ARRAY ==> cfg.dialect.Growing?)
      && (cfg.dialect.FixedStack? ==> depth < FIXED_STACK_SIZE - 1)
      && Count(k, es) <= LLONG_MAX && !OverLimit(cfg, Count(k, es))
      && AllReadable(cfg, depth + 1, k, es)
  }

  predicate AllReadable(cfg: Config, depth: nat, k: Kind, es: seq<Reply>)
    decreases es
  {
    es != [] ==> Readable(cfg, depth, Some(k), es[0]) && AllReadable(cfg, depth, k, es[1..])
  }

  lemma ShowHasNoNewline(v: int)
    ensures Newline(Show(v)).None?
  {
    assert forall k | 1 <= k < |Show(v)| :: IsDigit(Show(v)[k]);
    assert Show(v)[0] != '\r';
    assert forall k | 0 <= k < |Show(v)| :: Show(v)[k] != '\r';
  }

  /** Reading back a printed number. */
  lemma NumberOfShow(v: int)
    ensures Newline(Show(v)).None?
    ensures Number(Show(v)) == if InLongLong(v) then Some(v) else None
  {
    ShowHasNoNewline(v);
    NumberInvertsShow(Show(v), v);
    if !InLongLong(v) && Number(Show(v)).Some? {
      var w := Number(Show(v)).value;
      NumberInvertsShow(Show(v), w);
      ShowInjective(v, w);
    }
  }

  lemma ShowInjective(v: int, w: int)
    requires Show(v) == Show(w)
    ensures v == w
  {
    ValOfDec(if v < 0 then -v else v);
    ValOfDec(if w < 0 then -w else w);
    assert v < 0 ==> Show(v)[1..] == Dec(-v);
    assert w < 0 ==> Show(w)[1..] == Dec(-w);
  }

  // --------------------------------------------------------------- round trip

  ghost predicate Returns<T>(o: Outcome<T>, v: T) {
    o.Done? && o.value == v
  }

  lemma LineTrip(cfg: Config, parent: Option<Kind>, k: Kind, line: string, t: string)
    ensures var o := ParseLine(cfg, parent, k, Line(line) + t);
      var n := Newline(line);
      if n.None? then
        (match LineReply(cfg, parent, k, line) case Done(r, _) => o == Done(r, t) case other => o == other)
      else
        (match LineReply(cfg, parent, k, line[..n.value]) case Done(r, _) => Returns(o, r) case other => o == other)
  {
    if Newline(line).None? {
      NewlineOf(line, t);
    } else {
      NewlineStable(line, "\r\n" + t);
      assert Line(line) + t == line + ("\r\n" + t);
      assert (Line(line) + t)[..Newline(line).value] == line[..Newline(line).value];
    }
  }

  lemma BulkTrip(k: Kind, body: string, t: string)
    requires IsBulk(k)
    ensures ParseBulk(k, Bulk(body) + t) ==
      if |body| > LLONG_MAX then Bad(BadBulkLength)
      else if k == VERB && (|body| < 4 || body[3] != ':') then Bad(BadVerbatim)
      else Done(BulkReply(k, body), t)
  {
    var rest := Line(body) + t;
    var s := Show(|body|) + "\r\n" + rest;
    NumberOfShow(|body|);
    NewlineOf(Show(|body|), rest);
    assert Bulk(body) + t == s;
    BodySlice(s, |Show(|body|)| + 2, body, t);
  }

  lemma BodySlice(s: string, first: nat, body: string, t: string)
    requires first <= |s| && s[first..] == Line(body) + t
    ensures |s| == first + |body| + 2 + |t|
    ensures s[first..first + |body|] == body && s[first + |body| + 2..] == t
    ensures |body| >= 4 ==> s[first + 3] == body[3]
  {
    var rest := s[first..];
    assert s[first..first + |body|] == rest[..|body|];
    assert s[first + |body| + 2..] == rest[|body| + 2..];
    assert |body| >= 4 ==> s[first + 3] == rest[3];
  }

  lemma HeaderTrip(cfg: Config, depth: nat, k: Kind, es: seq<Reply>, t: string)
    requires k == MAP ==> |es| % 2 == 0
    ensures Header(cfg, depth, k, Line(Show(Count(k, es))) + t) ==
      if cfg.dialect.FixedStack? && depth == FIXED_STACK_SIZE - 1 then Bad(TooDeep)
      else if Count(k, es) > LLONG_MAX then Bad(BadMultiLength)
      else if OverLimit(cfg, Count(k, es)) then Bad(MultiRange(Count(k, es)))
      else Done(Some(|es|), t)
  {
    NumberOfShow(Count(k, es));
    NewlineOf(Show(Count(k, es)), t);
  }

  /** The type byte leads to the item behind it. */
  lemma Untag(cfg: Config, depth: nat, parent: Option<Kind>, c: char, body: string, t: string)
    ensures ParseItem(cfg, depth, parent, [c] + body + t) ==
      var k := TypeOf(cfg, c);
      if k.None? then Bad(TypeByte(c)) else ParseTyped(cfg, depth, parent, k.value, body + t)
  {
    assert ([c] + body + t)[1..] == body + t;
  }

  ghost predicate Trips(cfg: Config, depth: nat, parent: Option<Kind>, r: Reply, t: string, o: Outcome<Reply>) {
    if Readable(cfg, depth, parent, r) then o == Done(r, t) else !Returns(o, r)
  }

  lemma IntTrip(cfg: Config, depth: nat, parent: Option<Kind>, v: int, t: string)
    ensures Trips(cfg, depth, parent, Int(v), t, ParseLine(cfg, parent, INTEGER, Line(Show(v)) + t))
  {
    NumberOfShow(v);
    LineTrip(cfg, parent, INTEGER, Show(v), t);
  }

  lemma DoubleTrip(cfg: Config, depth: nat, parent: Option<Kind>, d: string, t: string)
    requires cfg.dialect.Growing?
    ensures Trips(cfg, depth, parent, Double(d), t, ParseLine(cfg, parent, DOUBLE, Line(d) + t))
  {
    LineTrip(cfg, parent, DOUBLE, d, t);
  }

  lemma TextTrip(cfg: Config, depth: nat, parent: Option<Kind>, k: Kind, s: string, t: string)
    requires k == STATUS || k == ERROR
    ensures Trips(cfg, depth, parent, Text(k, s), t, ParseLine(cfg, parent, k, Line(s) + t))
  {
    LineTrip(cfg, parent, k, s, t);
  }

  lemma BoolTrip(cfg: Config, depth: nat, parent: Option<Kind>, b: bool, t: string)
    requires cfg.dialect.Growing?
    ensures Trips(cfg, depth, parent, Bool(b), t, ParseLine(cfg, parent, BOOL, Line(if b then "t" else "f") + t))
  {
    LineTrip(cfg, parent, BOOL, if b then "t" else "f", t);
  }

  lemma NilTrip(cfg: Config, depth: nat, parent: Option<Kind>, t: string)
    requires cfg.dialect.Growing?
    ensures Trips(cfg, depth, parent, Nil, t, ParseLine(cfg, parent, NIL, Line("") + t))
  {
    LineTrip(cfg, parent, NIL, "", t);
  }

  /** The type byte of a reply that is a single line, and that line. */
  lemma ScalarTag(cfg: Config, r: Reply, k: Kind)
    requires WellFormed(r) && TypeOf(cfg, Tag(r)) == Some(k) && IsLine(k)
    ensures !r.Agg? && !r.Verb?
    ensures r.Text? ==> k == r.kind && k != STRING && Body(r) == Line(r.str)
    ensures r.Int? ==> k == INTEGER && Body(r) == Line(Show(r.v))
    ensures !r.Text? && !r.Int? ==> cfg.dialect.Growing?
    ensures r.Bool? ==> k == BOOL && Body(r) == Line(if r.b then "t" else "f")
    ensures r.Double? ==> k == DOUBLE && Body(r) == Line(r.digits)
    ensures r.Nil? ==> k == NIL && Body(r) == Line("")
  {
  }

  lemma ScalarTrip(cfg: Config, depth: nat, parent: Option<Kind>, k: Kind, r: Reply, t: string)
    requires WellFormed(r) && TypeOf(cfg, Tag(r)) == Some(k) && IsLine(k)
    ensures Trips(cfg, depth, parent, r, t, ParseLine(cfg, parent, k, Body(r) + t))
  {
    ScalarTag(cfg, r, k);
    match r
    case Text(_, s) => TextTrip(cfg, depth, parent, k, s, t);
    case Int(v) => IntTrip(cfg, depth, parent, v, t);
    case Bool(b) => BoolTrip(cfg, depth, parent, b, t);
    case Double(d) => DoubleTrip(cfg, depth, parent, d, t);
    case Nil => NilTrip(cfg, depth, parent, t);
  }

  lemma VerbTrip(cfg: Config, depth: nat, parent: Option<Kind>, vt: string, text: string, t: string)
    requires cfg.dialect.Growing?
    ensures Trips(cfg, depth, parent, Verb(vt, text), t, ParseBulk(VERB, Bulk(vt + ":" + text) + t))
  {
    var body := vt + ":" + text;
    BulkTrip(VERB, body, t);
    if |vt| == 3 {
      assert body[..3] == vt && body[4..] == text;
    }
  }

  lemma StringTrip(cfg: Config, depth: nat, parent: Option<Kind>, k: Kind, r: Reply, t: string)
    requires WellFormed(r) && TypeOf(cfg, Tag(r)) == Some(k) && IsBulk(k)
    ensures Trips(cfg, depth, parent, r, t, ParseBulk(k, Body(r) + t))
  {
    assert r.Verb? ==> cfg.dialect.Growing? && k == VERB;
    assert !r.Verb? ==> r.Text? && r.kind == STRING && k == STRING;
    if r.Text? {
      BulkTrip(k, r.str, t);
    } else {
      VerbTrip(cfg, depth, parent, r.vtype, r.text, t);
    }
  }

  lemma TagType(cfg: Config, r: Reply)
    requires WellFormed(r) && TypeOf(cfg, Tag(r)).Some?
    ensures var k := TypeOf(cfg, Tag(r)).value;
      && (r.Agg? ==> k == r.akind && IsAggregate(k) && (cfg.dialect.FixedStack? ==> k == ARRAY))
      && (!r.Agg? ==> !IsAggregate(k))
  {
  }

  lemma UntypedTrip(cfg: Config, depth: nat, parent: Option<Kind>, r: Reply, t: string)
    requires WellFormed(r) && TypeOf(cfg, Tag(r)).None?
    ensures Trips(cfg, depth, parent, r, t, Bad(TypeByte(Tag(r))))
  {
  }

  /**
    The codec round trip, and exactly when it holds: reading the wire form of a reply in front of
    any further bytes gives the reply back and stops right behind it, if and only if the reply is
    `Readable`. An unreadable reply is rejected or comes back as another tree.
  */
  lemma {:induction false} RoundTrip(cfg: Config, depth: nat, parent: Option<Kind>, r: Reply, t: string)
    requires WellFormed(r) && (cfg.dialect.FixedStack? ==> depth < FIXED_STACK_SIZE)
    ensures Trips(cfg, depth, parent, r, t, ParseItem(cfg, depth, parent, Encode(r) + t))
    decreases r, 1
  {
    var k := TypeOf(cfg, Tag(r));
    Untag(cfg, depth, parent, Tag(r), Body(r), t);
    if k.None? {
      UntypedTrip(cfg, depth, parent, r, t);
    } else if r.Agg? {
      assert IsAggregate(k.value) by { TagType(cfg, r); }
      AggregateTrip(cfg, depth, parent, k.value, r, t);
    } else if IsBulk(k.value) {
      StringTrip(cfg, depth, parent, k.value, r, t);
    } else {
      assert IsLine(k.value) by { TagType(cfg, r); }
      ScalarTrip(cfg, depth, parent, k.value, r, t);
    }
  }

  lemma {:induction false} AggregateTrip(cfg: Config, depth: nat, parent: Option<Kind>, k: Kind, r: Reply, t: string)
    requires r.Agg? && WellFormed(r) && TypeOf(cfg, Tag(r)) == Some(k)
    requires cfg.dialect.FixedStack? ==> depth < FIXED_STACK_SIZE
    ensures Trips(cfg, depth, parent, r, t, ParseTyped(cfg, depth, parent, k, Body(r) + t))
    decreases r, 0
  {
    TagType(cfg, r);
    var es := r.elems;
    var rest := EncodeAll(es) + t;
    assert Body(r) + t == Line(Show(Count(k, es))) + rest;
    HeaderTrip(cfg, depth, k, es, rest);
    var h := Header(cfg, depth, k, Body(r) + t);
    if h.Done? {
      ItemsTrip(cfg, depth + 1, k, es, t);
      OpenedTrip(cfg, depth, parent, k, es, Body(r) + t, rest);
    }
  }

  /** The count line has been read: what follows is the elements. */
  lemma OpenedTrip(cfg: Config, depth: nat, parent: Option<Kind>, k: Kind, es: seq<Reply>, s: string, rest: string)
    requires IsAggregate(k) && Header(cfg, depth, k, s) == Done(Some(|es|), rest)
    ensures ParseTyped(cfg, depth, parent, k, s) ==
      match ParseItems(cfg, depth + 1, k, |es|, rest)
      case Done(r, rest') => Done(Agg(k, r), rest')
      case More => More
      case Bad(e) => Bad(e)
  {
  }

  lemma {:induction false} ItemsTrip(cfg: Config, depth: nat, k: Kind, es: seq<Reply>, t: string)
    requires AllWellFormed(es) && (cfg.dialect.FixedStack? ==> depth < FIXED_STACK_SIZE)
    ensures var o := ParseItems(cfg, depth, k, |es|, EncodeAll(es) + t);
      if AllReadable(cfg, depth, k, es) then o == Done(es, t) else !Returns(o, es)
    decreases es, 2
  {
    if es == [] {
      assert EncodeAll(es) + t == t;
    } else {
      var tail := EncodeAll(es[1..]) + t;
      assert EncodeAll(es) + t == Encode(es[0]) + tail;
      RoundTrip(cfg, depth, Some(k), es[0], tail);
      if Readable(cfg, depth, Some(k), es[0]) {
        ItemsTrip(cfg, depth, k, es[1..], t);
        ConsDone(cfg, depth, k, |es|, Encode(es[0]) + tail, es[0], tail);
        assert es == [es[0]] + es[1..];
      } else {
        ConsOther(cfg, depth, k, |es|, Encode(es[0]) + tail, es[0]);
      }
    }
  }

  lemma ConsDone(cfg: Config, depth: nat, k: Kind, n: nat, s: string, r: Reply, rest: string)
    requires n > 0 && ParseItem(cfg, depth, Some(k), s) == Done(r, rest)
    ensures ParseItems(cfg, depth, k, n, s) ==
      match ParseItems(cfg, depth, k, n - 1, rest) case Done(es, rest') => Done([r] + es, rest') case other => other
  {
  }

  lemma ConsOther(cfg: Config, depth: nat, k: Kind, n: nat, s: string, r: Reply)
    requires n > 0 && !Returns(ParseItem(cfg, depth, Some(k), s), r)
    ensures var o := ParseItems(cfg, depth, k, n, s); o.Done? ==> o.value != [] && o.value[0] != r
  {
  }
}
