/** The body part of the HTTP parser (`utils/http_parser.c`), from the end of the headers to the end of the message,
    byte by byte. The callbacks are taken not to fail or pause. */
module HttpBody {
  import opened Octets

  const ULLONG_MAX: nat := 0xFFFF_FFFF_FFFF_FFFF
  const MAX_HEADER_SIZE: nat := 80 * 1024
  const CR: Byte := 13
  const LF: Byte := 10

  /** The parser states of the body. `FieldStart` and `AlmostDone` are those after the last chunk; `Trailer` is
    where a trailer field begins and `Complete` where the next message would, neither of which is modelled. */
  datatype State =
    | HeadersDone | ChunkSizeStart | ChunkSize | ChunkParameters | ChunkSizeAlmostDone | FieldStart | AlmostDone
    | ChunkData | ChunkDataAlmostDone | ChunkDataDone | BodyIdentity | BodyIdentityEof | Trailer | Complete

  datatype Errno = Fine | HeaderOverflow | Strict | InvalidChunkSize | InvalidContentLength | InvalidEofState

  /** What the headers have settled. A length of `ULLONG_MAX` stands for none. */
  datatype Head = Head(request: bool, status: nat, chunked: bool, skipBody: bool, upgrade: bool, connect: bool,
    length: nat)

  /** The parser, and what the callbacks have been told: the bytes of `on_body`, the sizes at `on_chunk_header`, and
    how often `on_chunk_complete` and `on_message_complete` came. */
  datatype Parser = Parser(state: State, errno: Errno, contentLength: nat, nread: nat, body: seq<Byte>,
    sizes: seq<nat>, chunks: nat, messages: nat)

  /** `unhex`: the table gives no values from 128 on, so that these bytes are digits of value 0. */
  function Unhex(b: Byte): int {
    if '0' as int <= b <= '9' as int then b - '0' as int
    else if 'a' as int <= b <= 'f' as int then b - 'a' as int + 10
    else if 'A' as int <= b <= 'F' as int then b - 'A' as int + 10
    else if b >= 128 then 0
    else -1
  }

  /** Arithmetic of `uint64_t`. */
  function Wrap64(n: nat): nat {
    n % (ULLONG_MAX + 1)
  }

  predicate ParsingHeader(s: State) {
    s.HeadersDone? || s.ChunkSizeStart? || s.ChunkSize? || s.ChunkParameters? || s.ChunkSizeAlmostDone?
      || s.FieldStart? || s.AlmostDone?
  }

  predicate Live(p: Parser) {
    p.errno.Fine? && !p.state.Complete? && !p.state.Trailer?
  }

  /** `http_message_needs_eof` */
  predicate NeedsEof(h: Head) {
    !h.request && !(h.status / 100 == 1 || h.status == 204 || h.status == 304 || h.skipBody) && !h.chunked
      && h.length == ULLONG_MAX
  }

  function MessageComplete(p: Parser): Parser {
    p.(state := Complete, messages := p.messages + 1)
  }

  /** `s_headers_done` */
  function AfterHeaders(h: Head, p: Parser): Parser {
    var hasBody := h.chunked || (p.contentLength > 0 && p.contentLength != ULLONG_MAX);
    if h.upgrade && (h.connect || h.skipBody || !hasBody) then MessageComplete(p)
    else if h.skipBody then MessageComplete(p)
    else if h.chunked then p.(state := ChunkSizeStart)
    else if p.contentLength == 0 then MessageComplete(p)
    else if p.contentLength != ULLONG_MAX then p.(state := BodyIdentity)
    else if !NeedsEof(h) then MessageComplete(p)
    else p.(state := BodyIdentityEof)
  }

  /** One byte, in a state where the header size is all right. */
  function Consume(h: Head, p: Parser, ch: Byte): Parser {
    match p.state
    case HeadersDone => if ch != LF then p.(errno := Strict) else AfterHeaders(h, p.(nread := 0))
    case ChunkSizeStart =>
      if Unhex(ch) == -1 then p.(errno := InvalidChunkSize) else p.(contentLength := Unhex(ch), state := ChunkSize)
    case ChunkSize =>
      if ch == CR then p.(state := ChunkSizeAlmostDone)
      else if Unhex(ch) == -1 then
        if ch == ';' as int || ch == ' ' as int then p.(state := ChunkParameters) else p.(errno := InvalidChunkSize)
      else if (ULLONG_MAX - 16) / 16 < p.contentLength then p.(errno := InvalidContentLength)
      else p.(contentLength := Wrap64(p.contentLength * 16 + Unhex(ch)))
    case ChunkParameters => if ch == CR then p.(state := ChunkSizeAlmostDone) else p
    case ChunkSizeAlmostDone =>
      if ch != LF then p.(errno := Strict)
      else p.(nread := 0, sizes := p.sizes + [p.contentLength], state := if p.contentLength == 0 then FieldStart
        else ChunkData)
    case ChunkData =>
      p.(contentLength := if p.contentLength == 0 then 0 else p.contentLength - 1, body := p.body + [ch],
         state := if p.contentLength <= 1 then ChunkDataAlmostDone else ChunkData)
    case ChunkDataAlmostDone => if ch != CR then p.(errno := Strict) else p.(state := ChunkDataDone)
    case ChunkDataDone =>
      if ch != LF then p.(errno := Strict) else p.(nread := 0, state := ChunkSizeStart, chunks := p.chunks + 1)
    case FieldStart =>
      if ch == CR then p.(state := AlmostDone)
      else if ch == LF then MessageComplete(p.(chunks := p.chunks + 1))
      else p.(state := Trailer)
    case AlmostDone => if ch != LF then p.(errno := Strict) else MessageComplete(p.(chunks := p.chunks + 1))
    case BodyIdentity =>
      var q := p.(contentLength := if p.contentLength == 0 then 0 else p.contentLength - 1, body := p.body + [ch]);
      if q.contentLength == 0 then MessageComplete(q) else q
    case BodyIdentityEof => p.(body := p.body + [ch])
    case Trailer => p
    case Complete => p
  }

  function Feed(h: Head, p: Parser, ch: Byte): Parser {
    var q := if ParsingHeader(p.state) then p.(nread := p.nread + 1) else p;
    if ParsingHeader(p.state) && q.nread > MAX_HEADER_SIZE then q.(errno := HeaderOverflow) else Consume(h, q, ch)
  }

  /** The bytes of the message one after the other; after an error or the end of the message nothing more is taken. */
  function Run(h: Head, p: Parser, s: seq<Byte>): Parser
    decreases |s|
  {
    if s == [] || !Live(p) then p else Run(h, Feed(h, p, s[0]), s[1..])
  }

  /** How many bytes are taken. */
  function Taken(h: Head, p: Parser, s: seq<Byte>): (n: nat)
    ensures n <= |s|
    decreases |s|
  {
    if s == [] || !Live(p) then 0 else 1 + Taken(h, Feed(h, p, s[0]), s[1..])
  }

  lemma {:induction false} RunAppend(h: Head, p: Parser, s: seq<Byte>, t: seq<Byte>)
    ensures Run(h, p, s + t) == Run(h, Run(h, p, s), t)
    ensures Taken(h, p, s + t) == Taken(h, p, s) + Taken(h, Run(h, p, s), t)
    decreases |s|
  {
    hide Feed;
    if s == [] {
      assert s + t == t;
    } else if Live(p) {
      assert (s + t)[1..] == s[1..] + t;
      RunAppend(h, Feed(h, p, s[0]), s[1..], t);
    }
  }

  lemma RunOne(h: Head, p: Parser, ch: Byte)
    requires Live(p)
    ensures Run(h, p, [ch]) == Feed(h, p, ch) && Taken(h, p, [ch]) == 1
  {
    hide Feed;
    assert [ch][1..] == [];
  }

  /** After the bytes up to `n`, those up to `n + k`. */
  lemma RunOn(h: Head, p: Parser, s: seq<Byte>, n: nat, k: nat)
    requires n + k <= |s|
    ensures Run(h, p, s[..n + k]) == Run(h, Run(h, p, s[..n]), s[n..n + k])
    ensures Taken(h, p, s[..n + k]) == Taken(h, p, s[..n]) + Taken(h, Run(h, p, s[..n]), s[n..n + k])
  {
    RunAppend(h, p, s[..n], s[n..n + k]);
    assert s[..n + k] == s[..n] + s[n..n + k];
  }

  lemma RunNone(h: Head, p: Parser, s: seq<Byte>)
    ensures Run(h, p, s[..0]) == p && Taken(h, p, s[..0]) == 0
  {
  }

  /** Nothing is taken any more after an error or the end. */
  lemma RunStops(h: Head, p: Parser, s: seq<Byte>, n: nat)
    requires n <= |s| && (n == |s| || !Live(Run(h, p, s[..n])))
    ensures Run(h, p, s) == Run(h, p, s[..n]) && Taken(h, p, s) == Taken(h, p, s[..n])
  {
    RunOn(h, p, s, n, |s| - n);
    assert s[..n + (|s| - n)] == s;
  }

  /** Where a line must end, and where a size must be. */
  predicate NeedsLf(s: State) {
    s.HeadersDone? || s.ChunkSizeAlmostDone? || s.ChunkDataDone? || s.AlmostDone?
  }

  predicate IsDigit(b: Byte) {
    '0' as int <= b <= '9' as int || 'a' as int <= b <= 'f' as int || 'A' as int <= b <= 'F' as int || b >= 128
  }

  /** Every error that a byte can cause, and when: too long a line; no end of line where one must be; something else
    than a digit where a size begins, or what may not follow its digits; and a size that does not fit. */
  lemma RefusedBytes(h: Head, p: Parser, ch: Byte)
    requires Live(p)
    ensures var e := Feed(h, p, ch).errno;
      var long := ParsingHeader(p.state) && p.nread >= 80 * 1024;
      && (e == HeaderOverflow <==> long)
      && (e == Strict <==> !long && ((NeedsLf(p.state) && ch != 10) || (p.state.ChunkDataAlmostDone? && ch != 13)))
      && (e == InvalidChunkSize <==>
        && !long && !IsDigit(ch)
        && (p.state.ChunkSizeStart? || (p.state.ChunkSize? && ch != 13 && ch != ';' as int && ch != ' ' as int)))
      && (e == InvalidContentLength <==>
        && !long && p.state.ChunkSize? && IsDigit(ch)
        && p.contentLength > (0xFFFF_FFFF_FFFF_FFFF - 16) / 16)
      && e != InvalidEofState
  {
    hide Wrap64, NeedsEof;
  }

  // ----- What holds in every reachable state

  /** The assertions of the source, and that a chunk size stays clear of the value that means none. */
  predicate Sane(p: Parser) {
    match p.state
    case ChunkSizeStart => p.nread == 0
    case ChunkSize => p.contentLength < ULLONG_MAX - 15
    case ChunkParameters => p.contentLength < ULLONG_MAX - 15
    case ChunkSizeAlmostDone => p.contentLength < ULLONG_MAX - 15
    case ChunkData => 0 < p.contentLength < ULLONG_MAX - 15
    case ChunkDataAlmostDone => p.contentLength == 0
    case BodyIdentity => 0 < p.contentLength < ULLONG_MAX
    case _ => true
  }

  lemma SaneBody(p: Parser, q: Parser)
    requires Sane(q) && p == q.(body := p.body)
    ensures Sane(p)
  {
  }

  /** In the other states a byte neither adds to the body nor depends on it. */
  lemma FeedBody(h: Head, p: Parser, ch: Byte, body: seq<Byte>)
    requires Live(p) && !p.state.ChunkData? && !p.state.BodyIdentity? && !p.state.BodyIdentityEof?
    ensures Feed(h, p.(body := body), ch) == Feed(h, p, ch).(body := body) && Feed(h, p, ch).body == p.body
  {
  }

  lemma FeedAlmostDone(h: Head, p: Parser, ch: Byte)
    requires p.state.ChunkDataAlmostDone?
    ensures Feed(h, p, ch) == if ch != CR then p.(errno := Strict) else p.(state := ChunkDataDone)
  {
  }

  lemma FeedSane(h: Head, p: Parser, ch: Byte)
    requires Live(p) && Sane(p) && p.contentLength <= ULLONG_MAX
    ensures var q := Feed(h, p, ch); q.contentLength <= ULLONG_MAX && (Live(q) ==> Sane(q))
    ensures p.state.ChunkSize? && Live(Feed(h, p, ch)) && Unhex(ch) >= 0 && ch != CR ==>
      Feed(h, p, ch).contentLength == p.contentLength * 16 + Unhex(ch)
  {
    if p.state.ChunkSize? && Unhex(ch) >= 0 && (ULLONG_MAX - 16) / 16 >= p.contentLength {
      NoWrap(p.contentLength, Unhex(ch));
    }
    hide Wrap64;
  }

  lemma NoWrap(n: nat, digit: nat)
    requires n <= (ULLONG_MAX - 16) / 16 && digit < 16
    ensures Wrap64(n * 16 + digit) == n * 16 + digit < ULLONG_MAX - 15
  {
  }

  /** For any bytes, however they come: every assertion of the body states holds. */
  lemma {:induction false} RunSane(h: Head, p: Parser, s: seq<Byte>)
    requires (Live(p) ==> Sane(p)) && p.contentLength <= ULLONG_MAX
    ensures var q := Run(h, p, s); q.contentLength <= ULLONG_MAX && (Live(q) ==> Sane(q))
    decreases |s|
  {
    hide Feed, Sane;
    if s != [] && Live(p) {
      FeedSane(h, p, s[0]);
      RunSane(h, Feed(h, p, s[0]), s[1..]);
    }
  }

  // ----- The chunked encoding (section 4.1 of RFC 7230), without trailer fields

  /** A chunk: its size line is made of digits and of parameters, which are ignored. */
  datatype Chunk = Chunk(digits: seq<Byte>, params: seq<Byte>, data: seq<Byte>)

  function Number(sofar: nat, digits: seq<Byte>): nat
    requires forall d :: d in digits ==> Unhex(d) >= 0
    decreases |digits|
  {
    if digits == [] then sofar else Number(sofar * 16 + Unhex(digits[0]), digits[1..])
  }

  const DIGITS: string := "0123456789abcdef"
  const CAPITALS: string := "0123456789ABCDEF"

  /** The digit for a value, small or capital. The source's table has no entries from 128 on, so that each of these
    bytes stands for zero. */
  predicate StandsFor(b: Byte, value: nat)
    requires value < 16
  {
    b == DIGITS[value] as int || b == CAPITALS[value] as int || (b >= 128 && value == 0)
  }

  /** The bytes write a number in base sixteen: the last one its remainder, those before it its quotient. */
  predicate Writes(digits: seq<Byte>, n: nat)
    decreases |digits|
  {
    if digits == [] then n == 0
    else StandsFor(digits[|digits| - 1], n % 16) && Writes(digits[..|digits| - 1], n / 16)
  }

  /** Short enough, with at least one digit; parameters begin with a semicolon or a blank. */
  predicate SizeLine(digits: seq<Byte>, params: seq<Byte>) {
    && digits != [] && (params != [] ==> params[0] == ';' as int || params[0] == ' ' as int) && CR !in params
    && |digits| + |params| + 2 <= MAX_HEADER_SIZE
  }

  predicate Proper(c: Chunk) {
    SizeLine(c.digits, c.params) && Writes(c.digits, |c.data|) && |c.data| < ULLONG_MAX - 15
  }

  // ----- The digits

  /** What the parser reads of one byte: the value that it stands for, or that it is no digit. */
  lemma UnhexIsDigit(b: Byte, value: nat)
    requires value < 16
    ensures Unhex(b) == value <==> StandsFor(b, value)
    ensures Unhex(b) == -1 || 0 <= Unhex(b) < 16
  {
    DigitAt(value);
  }

  lemma DigitAt(value: nat)
    requires value < 16
    ensures DIGITS[value] as int == (if value < 10 then '0' as int + value else 'a' as int + value - 10)
    ensures CAPITALS[value] as int == (if value < 10 then '0' as int + value else 'A' as int + value - 10)
  {
  }

  lemma {:induction false} NumberLast(sofar: nat, digits: seq<Byte>)
    requires digits != [] && forall d :: d in digits ==> Unhex(d) >= 0
    ensures Number(sofar, digits)
      == Number(sofar, digits[..|digits| - 1]) * 16 + Unhex(digits[|digits| - 1])
    decreases |digits|
  {
    hide Unhex;
    if |digits| == 1 {
      assert digits[1..] == [] && digits[..0] == [];
    } else {
      NumberLast(sofar * 16 + Unhex(digits[0]), digits[1..]);
      var front := digits[..|digits| - 1];
      assert front[1..] == digits[1..][..|digits| - 2];
    }
  }

  /** Reading what writes a number gives that number, and nothing else is read as it. */
  lemma {:induction false} WritesNumber(digits: seq<Byte>, n: nat)
    ensures Writes(digits, n) <==> (forall d :: d in digits ==> Unhex(d) >= 0) && Number(0, digits) == n
    decreases |digits|
  {
    hide Unhex, StandsFor;
    if digits != [] {
      var front, last := digits[..|digits| - 1], digits[|digits| - 1];
      assert digits == front + [last];
      UnhexIsDigit(last, n % 16);
      WritesNumber(front, n / 16);
      if forall d :: d in digits ==> Unhex(d) >= 0 {
        NumberLast(0, digits);
        UnhexIsDigit(last, 0);
      }
    }
  }

  /** The usual writing of a number. */
  function HexOf(n: nat): seq<Byte> {
    (if n < 16 then [] else HexOf(n / 16)) + [DIGITS[n % 16] as int]
  }

  lemma {:induction false} HexOfWrites(n: nat)
    ensures Writes(HexOf(n), n) && (forall d :: d in HexOf(n) ==> Unhex(d) >= 0) && Number(0, HexOf(n)) == n
  {
    var s := HexOf(n);
    if n >= 16 {
      HexOfWrites(n / 16);
      assert s[..|s| - 1] == HexOf(n / 16);
    } else {
      assert s[..|s| - 1] == [];
    }
    WritesNumber(s, n);
  }

  function Line(c: Chunk): seq<Byte> {
    c.digits + c.params + [CR, LF]
  }

  /** The chunks with data, the last one without, and the end of line after it. */
  function Encode(chunks: seq<Chunk>, last: Chunk, end: seq<Byte>): seq<Byte> {
    if chunks == [] then Line(last) + end
      else Line(chunks[0]) + chunks[0].data + [CR, LF] + Encode(chunks[1..], last, end)
  }

  /** A carriage return may be missing in the last line. */
  predicate Encoding(chunks: seq<Chunk>, last: Chunk, end: seq<Byte>) {
    (forall c :: c in chunks ==> Proper(c) && c.data != []) && Proper(last) && last.data == []
      && (end == [CR, LF] || end == [LF])
  }

  function Payload(chunks: seq<Chunk>): seq<Byte> {
    if chunks == [] then [] else chunks[0].data + Payload(chunks[1..])
  }

  function Sizes(chunks: seq<Chunk>): seq<nat> {
    seq(|chunks|, i requires 0 <= i < |chunks| => |chunks[i].data|)
  }

  lemma {:induction false} NumberGrows(sofar: nat, digits: seq<Byte>)
    requires forall d :: d in digits ==> Unhex(d) >= 0
    ensures Number(sofar, digits) >= sofar
    decreases |digits|
  {
    if digits != [] { NumberGrows(sofar * 16 + Unhex(digits[0]), digits[1..]); }
  }

  lemma FeedDigit(h: Head, p: Parser, ch: Byte)
    requires p.state.ChunkSize? && p.errno.Fine? && Unhex(ch) >= 0 && p.nread + 1 <= MAX_HEADER_SIZE
    ensures if p.contentLength <= (ULLONG_MAX - 16) / 16
      then Feed(h, p, ch) == p.(contentLength := p.contentLength * 16 + Unhex(ch), nread := p.nread + 1)
        && p.contentLength * 16 + Unhex(ch) < ULLONG_MAX - 15
      else Feed(h, p, ch).errno == InvalidContentLength
  {
    if p.contentLength <= (ULLONG_MAX - 16) / 16 { NoWrap(p.contentLength, Unhex(ch)); }
    hide Wrap64;
  }

  /** The digits of a size are taken for its exact value if and only if that is below the limit; else they are
    refused. */
  lemma {:induction false} DigitsRun(h: Head, p: Parser, digits: seq<Byte>)
    requires p.state.ChunkSize? && p.errno.Fine? && (forall d :: d in digits ==> Unhex(d) >= 0)
    requires p.contentLength < ULLONG_MAX - 15 && p.nread + |digits| <= MAX_HEADER_SIZE
    ensures var n := Number(p.contentLength, digits);
      if n < ULLONG_MAX - 15 then Run(h, p, digits) == p.(contentLength := n, nread := p.nread + |digits|)
      else Run(h, p, digits).errno == InvalidContentLength
    decreases |digits|
  {
    hide Feed, Unhex;
    if digits != [] {
      var q := Feed(h, p, digits[0]);
      FeedDigit(h, p, digits[0]);
      NumberGrows(p.contentLength * 16 + Unhex(digits[0]), digits[1..]);
      if p.contentLength <= (ULLONG_MAX - 16) / 16 {
        DigitsRun(h, q, digits[1..]);
      } else {
        assert Run(h, q, digits[1..]) == q;
      }
    }
  }

  lemma {:induction false} ParamsRun(h: Head, p: Parser, params: seq<Byte>)
    requires p.state.ChunkParameters? && p.errno.Fine? && CR !in params && p.nread + |params| <= MAX_HEADER_SIZE
    ensures Run(h, p, params) == p.(nread := p.nread + |params|)
    decreases |params|
  {
    if params != [] {
      ParamsRun(h, Feed(h, p, params[0]), params[1..]);
    }
  }

  lemma {:induction false} DataRun(h: Head, p: Parser, data: seq<Byte>)
    requires p.state.ChunkData? && p.errno.Fine? && 0 < |data| <= p.contentLength
    ensures Run(h, p, data) == p.(contentLength := p.contentLength - |data|, body := p.body + data,
      state := if p.contentLength == |data| then ChunkDataAlmostDone else ChunkData)
    ensures Taken(h, p, data) == |data|
    decreases |data|
  {
    var q := Feed(h, p, data[0]);
    if |data| == 1 {
      assert data[1..] == [] && p.body + [data[0]] == p.body + data;
    } else {
      DataRun(h, q, data[1..]);
      assert p.body + [data[0]] + data[1..] == p.body + data;
    }
  }

  lemma {:induction false} IdentityRun(h: Head, p: Parser, data: seq<Byte>)
    requires p.state.BodyIdentity? && p.errno.Fine? && 0 < |data| <= p.contentLength
    ensures var q := p.(contentLength := p.contentLength - |data|, body := p.body + data);
      Run(h, p, data) == if q.contentLength == 0 then MessageComplete(q) else q
    ensures Taken(h, p, data) == |data|
    decreases |data|
  {
    var q := Feed(h, p, data[0]);
    if |data| == 1 {
      assert data[1..] == [] && p.body + [data[0]] == p.body + data;
    } else {
      IdentityRun(h, q, data[1..]);
      assert p.body + [data[0]] + data[1..] == p.body + data;
    }
  }

  lemma {:induction false} EofRun(h: Head, p: Parser, data: seq<Byte>)
    requires p.state.BodyIdentityEof? && p.errno.Fine?
    ensures Run(h, p, data) == p.(body := p.body + data) && Taken(h, p, data) == |data|
    decreases |data|
  {
    if data == [] {
      assert p.body + data == p.body;
    } else {
      EofRun(h, Feed(h, p, data[0]), data[1..]);
      assert p.body + [data[0]] + data[1..] == p.body + data;
    }
  }

  /** A run over several parts, one after the other. */
  lemma RunParts(h: Head, p: Parser, a: seq<Byte>, b: seq<Byte>, c: seq<Byte>)
    ensures Run(h, p, a + b + c) == Run(h, Run(h, Run(h, p, a), b), c)
  {
    hide Run;
    RunAppend(h, p, a + b, c);
    RunAppend(h, p, a, b);
  }

  lemma RunTwo(h: Head, p: Parser, a: Byte, b: Byte)
    requires Live(p) && Live(Feed(h, p, a))
    ensures Run(h, p, [a, b]) == Feed(h, Feed(h, p, a), b)
  {
    hide Feed;
    var q := Feed(h, p, a);
    assert [a, b][1..] == [b];
    assert [b][1..] == [];
    assert Run(h, q, [b]) == Feed(h, q, b);
  }

  /** Between two chunks. */
  predicate AtStart(p: Parser) {
    p.state.ChunkSizeStart? && p.errno.Fine? && p.nread == 0
  }

  lemma SizeRun(h: Head, p: Parser, c: Chunk)
    requires AtStart(p) && Proper(c)
    ensures Run(h, p, c.digits) == p.(nread := |c.digits|, contentLength := |c.data|, state := ChunkSize)
  {
    hide Wrap64, Writes;
    WritesNumber(c.digits, |c.data|);
    var first := Feed(h, p, c.digits[0]);
    DigitsRun(h, first, c.digits[1..]);
    hide Feed;
    assert c.digits == [c.digits[0]] + c.digits[1..];
  }

  lemma ParamsPart(h: Head, p: Parser, params: seq<Byte>)
    requires p.state.ChunkSize? && p.errno.Fine? && p.nread + |params| <= MAX_HEADER_SIZE
    requires CR !in params && (params != [] ==> params[0] == ';' as int || params[0] == ' ' as int)
    ensures Run(h, p, params) == p.(nread := p.nread + |params|, state := if params == [] then ChunkSize
      else ChunkParameters)
  {
    hide Wrap64;
    if params != [] {
      ParamsRun(h, Feed(h, p, params[0]), params[1..]);
    }
  }

  lemma LineEnd(h: Head, p: Parser)
    requires (p.state.ChunkSize? || p.state.ChunkParameters?) && p.errno.Fine? && p.nread + 2 <= MAX_HEADER_SIZE
    ensures Run(h, p, [CR, LF]) == p.(nread := 0, sizes := p.sizes + [p.contentLength],
      state := if p.contentLength == 0 then FieldStart else ChunkData)
  {
    hide Wrap64, Run;
    RunTwo(h, p, CR, LF);
  }

  /** The size line of a chunk is read to its exact size. */
  lemma LineRun(h: Head, p: Parser, c: Chunk)
    requires AtStart(p) && Proper(c)
    ensures Run(h, p, Line(c)) == p.(nread := 0, contentLength := |c.data|, sizes := p.sizes + [|c.data|],
      state := if c.data == [] then FieldStart else ChunkData)
  {
    hide Run, Feed, Writes;
    RunParts(h, p, c.digits, c.params, [CR, LF]);
    SizeRun(h, p, c);
    var q := Run(h, p, c.digits);
    ParamsPart(h, q, c.params);
    LineEnd(h, Run(h, q, c.params));
  }

  /** A whole chunk adds its data to the body. */
  lemma ChunkRun(h: Head, p: Parser, c: Chunk)
    requires AtStart(p) && Proper(c) && c.data != []
    ensures Run(h, p, Line(c) + c.data + [CR, LF]) ==
      p.(contentLength := 0, sizes := p.sizes + [|c.data|], body := p.body + c.data, chunks := p.chunks + 1)
  {
    hide Writes, Line, Wrap64, Run;
    LineRun(h, p, c);
    DataRun(h, Run(h, p, Line(c)), c.data);
    RunParts(h, p, Line(c), c.data, [CR, LF]);
    RunTwo(h, Run(h, Run(h, p, Line(c)), c.data), CR, LF);
  }

  /** Decoding an encoding: the body is the payload, each size was announced exactly, and the message is complete
    once, with the last byte. */
  lemma {:induction false} EncodingRun(h: Head, p: Parser, chunks: seq<Chunk>, last: Chunk, end: seq<Byte>)
    requires AtStart(p) && Encoding(chunks, last, end)
    ensures Run(h, p, Encode(chunks, last, end)) ==
      p.(state := Complete, contentLength := 0, nread := |end|, body := p.body + Payload(chunks),
        sizes := p.sizes + Sizes(chunks) + [0],
         chunks := p.chunks + |chunks| + 1, messages := p.messages + 1)
    decreases |chunks|
  {
    hide Line, Proper, Run, Feed;
    if chunks == [] {
      LineRun(h, p, last);
      RunAppend(h, p, Line(last), end);
      EndRun(h, Run(h, p, Line(last)), end);
      assert p.sizes + Sizes(chunks) + [0] == p.sizes + [0];
      assert p.body + Payload(chunks) == p.body;
    } else {
      var c := chunks[0];
      ChunkRun(h, p, c);
      var q := Run(h, p, Line(c) + c.data + [CR, LF]);
      EncodingRun(h, q, chunks[1..], last, end);
      RunAppend(h, p, Line(c) + c.data + [CR, LF], Encode(chunks[1..], last, end));
      SumsUp(p, chunks);
    }
  }

  lemma SumsUp(p: Parser, chunks: seq<Chunk>)
    requires chunks != []
    ensures p.sizes + [|chunks[0].data|] + Sizes(chunks[1..]) + [0] == p.sizes + Sizes(chunks) + [0]
    ensures p.body + chunks[0].data + Payload(chunks[1..]) == p.body + Payload(chunks)
  {
    assert Sizes(chunks) == [|chunks[0].data|] + Sizes(chunks[1..]);
  }

  lemma EndRun(h: Head, p: Parser, end: seq<Byte>)
    requires p.state.FieldStart? && p.errno.Fine? && p.nread == 0 && (end == [CR, LF] || end == [LF])
    ensures Run(h, p, end) == p.(state := Complete, nread := |end|, chunks := p.chunks + 1, messages := p.messages + 1)
  {
    if |end| == 2 {
      RunTwo(h, p, CR, LF);
    } else {
      assert Run(h, p, [LF]) == Feed(h, p, LF);
    }
  }

  // ----- Nothing else is taken for a message

  /** All of the bytes are taken and the message is then complete. */
  predicate Ends(h: Head, p: Parser, s: seq<Byte>) {
    Run(h, p, s).state.Complete? && Run(h, p, s).errno.Fine? && Taken(h, p, s) == |s|
  }

  lemma EndsStep(h: Head, p: Parser, s: seq<Byte>)
    requires Live(p) && Ends(h, p, s)
    ensures s != []
    ensures var q := Feed(h, p, s[0]);
      q.errno.Fine? && !q.state.Trailer? && Ends(h, q, s[1..]) && (q.state.Complete? ==> s[1..] == [])
  {
    hide Feed;
    var q := Feed(h, p, s[0]);
    if !Live(q) {
      assert Run(h, q, s[1..]) == q;
    }
  }

  /** Where two given bytes must come, they come. */
  lemma EndsTwo(h: Head, p: Parser, s: seq<Byte>) returns (rest: seq<Byte>)
    requires p.errno.Fine? && (p.state.ChunkDataAlmostDone? || (p.state.ChunkSize? && |s| > 0 && s[0] == CR)
      || (p.state.ChunkParameters? && |s| > 0 && s[0] == CR))
    requires Ends(h, p, s)
    ensures s == [CR, LF] + rest && (!p.state.ChunkDataAlmostDone? ==> p.nread + 2 <= MAX_HEADER_SIZE)
  {
    hide Run, Taken, Wrap64;
    EndsStep(h, p, s);
    var q := Feed(h, p, s[0]);
    EndsStep(h, q, s[1..]);
    rest := s[2..];
  }

  lemma {:induction false} EndsParams(h: Head, p: Parser, s: seq<Byte>) returns (params: seq<Byte>, rest: seq<Byte>)
    requires p.state.ChunkParameters? && p.errno.Fine? && Ends(h, p, s)
    ensures s == params + [CR, LF] + rest && CR !in params && p.nread + |params| + 2 <= MAX_HEADER_SIZE
    decreases |s|
  {
    hide Run, Taken, Ends;
    EndsStep(h, p, s);
    if s[0] == CR {
      params := [];
      rest := EndsTwo(h, p, s);
    } else {
      params, rest := EndsParams(h, Feed(h, p, s[0]), s[1..]);
      params := [s[0]] + params;
    }
  }

  lemma {:induction false} EndsSize(h: Head, p: Parser, s: seq<Byte>)
    returns (digits: seq<Byte>, params: seq<Byte>, rest: seq<Byte>)
    requires p.state.ChunkSize? && p.errno.Fine? && Ends(h, p, s) && p.contentLength < ULLONG_MAX - 15
    ensures s == digits + params + [CR, LF] + rest && CR !in params
      && p.nread + |digits| + |params| + 2 <= MAX_HEADER_SIZE
    ensures (params != [] ==> params[0] == ';' as int || params[0] == ' ' as int)
    ensures (forall d :: d in digits ==> Unhex(d) >= 0) && Number(p.contentLength, digits) < ULLONG_MAX - 15
    decreases |s|
  {
    hide Run, Taken, Ends, Wrap64;
    EndsStep(h, p, s);
    var q := Feed(h, p, s[0]);
    digits, params := [], [];
    if s[0] == CR {
      rest := EndsTwo(h, p, s);
    } else if Unhex(s[0]) >= 0 {
      NoWrap(p.contentLength, Unhex(s[0]));
      digits, params, rest := EndsSize(h, q, s[1..]);
      digits := [s[0]] + digits;
      assert digits[1..] + params + [CR, LF] + rest == s[1..];
    } else {
      params, rest := EndsParams(h, q, s[1..]);
      params := [s[0]] + params;
    }
  }

  /** The first line of what ends a message is the size line of a chunk. */
  lemma EndsLine(h: Head, p: Parser, s: seq<Byte>)
    returns (digits: seq<Byte>, n: nat, params: seq<Byte>, rest: seq<Byte>)
    requires AtStart(p) && Ends(h, p, s)
    ensures SizeLine(digits, params) && Writes(digits, n) && n < ULLONG_MAX - 15
      && s == digits + params + [CR, LF] + rest
  {
    hide Run, Taken, Ends, Wrap64, Writes;
    EndsStep(h, p, s);
    digits, params, rest := EndsSize(h, Feed(h, p, s[0]), s[1..]);
    digits := [s[0]] + digits;
    assert digits[1..] + params + [CR, LF] + rest == s[1..];
    n := Number(0, digits);
    WritesNumber(digits, n);
  }

  lemma EndsSplit(h: Head, p: Parser, a: seq<Byte>, b: seq<Byte>)
    requires Ends(h, p, a + b)
    ensures Ends(h, Run(h, p, a), b)
  {
    hide Run;
    RunAppend(h, p, a, b);
  }

  lemma EndsData(h: Head, p: Parser, s: seq<Byte>)
    requires p.state.ChunkData? && p.errno.Fine? && 0 < p.contentLength && Ends(h, p, s)
    ensures |s| > p.contentLength
  {
    hide Feed;
    if 0 < |s| <= p.contentLength {
      DataRun(h, p, s);
    }
  }

  /** After the last chunk comes the end of the message. */
  lemma EndsLast(h: Head, p: Parser, s: seq<Byte>)
    requires p.state.FieldStart? && p.errno.Fine? && Ends(h, p, s)
    ensures s == [LF] || s == [CR, LF]
  {
    hide Run, Taken, Ends;
    EndsStep(h, p, s);
    var q := Feed(h, p, s[0]);
    if s[0] == CR {
      EndsStep(h, q, s[1..]);
      assert s[2..] == [];
    }
  }

  /** Only encodings end a message: with `EncodingRun`, the bytes that end one are exactly the encodings. */
  lemma {:induction false} EndsEncoding(h: Head, p: Parser, s: seq<Byte>)
    returns (chunks: seq<Chunk>, last: Chunk, end: seq<Byte>)
    requires AtStart(p) && Ends(h, p, s)
    ensures Encoding(chunks, last, end) && s == Encode(chunks, last, end)
    decreases |s|
  {
    hide Run, Taken, Ends, Feed, Writes;
    var digits, n, params, rest := EndsLine(h, p, s);
    var c := Chunk(digits, params, seq(n, _ => 0));
    LineRun(h, p, c);
    EndsSplit(h, p, Line(c), rest);
    var q := Run(h, p, Line(c));
    if n == 0 {
      EndsLast(h, q, rest);
      chunks, last, end := [], c, rest;
    } else {
      EndsData(h, q, rest);
      c := c.(data := rest[..n]);
      DataRun(h, q, c.data);
      assert rest == c.data + rest[n..];
      EndsSplit(h, q, c.data, rest[n..]);
      var more := EndsTwo(h, Run(h, q, c.data), rest[n..]);
      ChunkRun(h, p, c);
      var whole := Line(c) + c.data + [CR, LF];
      assert s == whole + more;
      EndsSplit(h, p, whole, more);
      chunks, last, end := EndsEncoding(h, Run(h, p, whole), more);
      EncodeMore(c, chunks, last, end);
      chunks := [c] + chunks;
    }
  }

  lemma EncodeMore(c: Chunk, chunks: seq<Chunk>, last: Chunk, end: seq<Byte>)
    requires Encoding(chunks, last, end) && Proper(c) && c.data != []
    ensures Encoding([c] + chunks, last, end)
    ensures Encode([c] + chunks, last, end) == Line(c) + c.data + [CR, LF] + Encode(chunks, last, end)
  {
    hide Proper, Line;
    assert ([c] + chunks)[1..] == chunks;
  }
}
