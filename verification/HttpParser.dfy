/** `http_parser_execute` in the body states, segment by segment. */
module HttpParsers {
  import opened Octets
  import opened HttpBody

  class HttpParser {
    const head: Head
    var state: State
    var errno: Errno
    var contentLength: nat
    var nread: nat
    /** What the callbacks have been given. */
    var pieces: seq<seq<Byte>>
    var sizes: seq<nat>
    var chunks: nat
    var messages: nat

    ghost function View(): Parser
      reads this
    {
      Parser(state, errno, contentLength, nread, Concat(pieces), sizes, chunks, messages)
    }

    /** The parser at the line feed that ends the headers. */
    constructor (head: Head, nread: nat)
      ensures View() == Parser(HeadersDone, Fine, head.length, nread, [], [], 0, 0) && this.head == head
    {
      this.head := head;
      state, errno, contentLength, this.nread := HeadersDone, Fine, head.length, nread;
      pieces, sizes, chunks, messages := [], [], 0, 0;
    }

    /** The states that take one byte and tell nothing of the body. */
    method OneByte(ch: Byte)
      requires Live(View()) && !state.ChunkData? && !state.ChunkDataAlmostDone? && !state.BodyIdentity?
        && !state.BodyIdentityEof?
      modifies this
      ensures View() == Feed(head, old(View()), ch) && pieces == old(pieces)
    {
      if ParsingHeader(state) {
        nread := nread + 1;
        if nread > MAX_HEADER_SIZE {
          errno := HeaderOverflow;
          return;
        }
      }
      match state {
        case HeadersDone =>
          if ch != LF { errno := Strict; return; }
          nread := 0;
          var hasBody := head.chunked || (contentLength > 0 && contentLength != ULLONG_MAX);
          if head.upgrade && (head.connect || head.skipBody || !hasBody) {
            state, messages := Complete, messages + 1;
          } else if head.skipBody {
            state, messages := Complete, messages + 1;
          } else if head.chunked {
            state := ChunkSizeStart;
          } else if contentLength == 0 {
            state, messages := Complete, messages + 1;
          } else if contentLength != ULLONG_MAX {
            state := BodyIdentity;
          } else if !NeedsEof(head) {
            state, messages := Complete, messages + 1;
          } else {
            state := BodyIdentityEof;
          }
        case ChunkSizeStart =>
          if Unhex(ch) == -1 { errno := InvalidChunkSize; return; }
          contentLength := Unhex(ch);
          state := ChunkSize;
        case ChunkSize =>
          if ch == CR { state := ChunkSizeAlmostDone; return; }
          if Unhex(ch) == -1 {
            if ch == ';' as int || ch == ' ' as int { state := ChunkParameters; return; }
            errno := InvalidChunkSize;
            return;
          }
          var t := Wrap64(contentLength * 16 + Unhex(ch));
          if (ULLONG_MAX - 16) / 16 < contentLength { errno := InvalidContentLength; return; }
          contentLength := t;
        case ChunkParameters =>
          if ch == CR { state := ChunkSizeAlmostDone; }
        case ChunkSizeAlmostDone =>
          if ch != LF { errno := Strict; return; }
          nread := 0;
          state := if contentLength == 0 then FieldStart else ChunkData;
          sizes := sizes + [contentLength];
        case ChunkDataDone =>
          if ch != LF { errno := Strict; return; }
          nread := 0;
          state := ChunkSizeStart;
          chunks := chunks + 1;
        case FieldStart =>
          if ch == CR {
            state := AlmostDone;
          } else if ch == LF {
            chunks := chunks + 1;
            state, messages := Complete, messages + 1;
          } else {
            state := Trailer;
          }
        case AlmostDone =>
          if ch != LF { errno := Strict; return; }
          chunks := chunks + 1;
          state, messages := Complete, messages + 1;
      }
    }

    /** The parser with the piece of the body that is not yet given to the callback. */
    ghost function Shown(data: seq<Byte>, mark: int, n: nat): Parser
      requires mark <= n <= |data|
      reads this
    {
      if mark < 0 then View() else View().(body := Concat(pieces) + data[mark..n])
    }

    /** `CALLBACK_DATA(body)` */
    method Give(data: seq<Byte>, mark: int, n: nat)
      requires mark <= n <= |data|
      modifies this`pieces
      ensures View() == old(Shown(data, mark, n))
    {
      if mark >= 0 {
        ConcatLast(pieces, data[mark..n]);
        pieces := pieces + [data[mark..n]];
      }
    }

    static lemma Longer(given: seq<Byte>, data: seq<Byte>, mark: int, n: nat, k: nat)
      requires mark <= n && n + k <= |data|
      ensures if mark < 0 then given + data[n..n + k] == given + data[n..][..k]
        else given + data[mark..n] + data[n..n + k] == given + data[mark..n + k]
    {
      if mark >= 0 {
        assert data[mark..n] + data[n..n + k] == data[mark..n + k];
      } else {
        assert data[n..n + k] == data[n..][..k];
      }
    }

    predicate InBody()
      reads this
    {
      state.ChunkData? || state.BodyIdentity? || state.BodyIdentityEof?
    }

    /** A turn of the loop in a state that takes what there is of the body. */
    method TakeBody(data: seq<Byte>, mark: int, n: nat) returns (mark': int, k: nat)
      requires mark <= n < |data| && Live(View()) && Sane(View()) && InBody()
      modifies this
      ensures errno.Fine? && 0 < k <= |data| - n && mark' <= n + k
        && (mark' >= 0 ==> InBody() || state.ChunkDataAlmostDone?)
      ensures Taken(head, old(Shown(data, mark, n)), data[n..n + k]) == k
      ensures Shown(data, mark', n + k) == Run(head, old(Shown(data, mark, n)), data[n..n + k])
    {
      hide Run, Taken, Concat, Feed;
      ghost var at := Shown(data, mark, n);
      k := |data| - n;
      if !state.BodyIdentityEof? && contentLength < k { k := contentLength; }
      Longer(Concat(pieces), data, mark, n, k);
      mark' := if mark < 0 then n else mark;
      if state.ChunkData? {
        DataRun(head, at, data[n..n + k]);
        contentLength := contentLength - k;
        if contentLength == 0 { state := ChunkDataAlmostDone; }
      } else if state.BodyIdentity? {
        IdentityRun(head, at, data[n..n + k]);
        contentLength := contentLength - k;
        if contentLength == 0 {
          state := Complete;
          Give(data, mark', n + k);
          mark' := -1;
          messages := messages + 1;
        }
      } else {
        EofRun(head, at, data[n..n + k]);
      }
    }

    /** A turn of the loop in another state: one byte. */
    method TakeByte(data: seq<Byte>, mark: int, n: nat) returns (mark': int)
      requires mark <= n < |data| && Live(View()) && !InBody() && (mark >= 0 ==> state.ChunkDataAlmostDone?)
      modifies this
      ensures mark' < 0
      ensures var q := Feed(head, old(Shown(data, mark, n)), data[n]);
        View().(body := q.body) == q && View().body <= q.body && (errno.Fine? ==> Shown(data, mark', n + 1) == q)
    {
      hide Run, Taken, Concat, Feed;
      var ch := data[n];
      mark' := mark;
      ghost var at := Shown(data, mark, n);
      FeedBody(head, View(), ch, at.body);
      if state.ChunkDataAlmostDone? {
        FeedAlmostDone(head, at, ch);
        mark' := -1;
        if ch != CR {
          errno := Strict;
          return;
        }
        state := ChunkDataDone;
        Give(data, mark, n);
      } else {
        OneByte(ch);
      }
    }

    /** `http_parser_execute` on one segment. A piece of the body is given to the callback at its end or at the end
      of the segment; on an error the piece that is not yet given is lost. */
    method Execute(data: seq<Byte>) returns (n: nat)
      requires contentLength <= ULLONG_MAX && (Live(View()) ==> Sane(View()))
      modifies this
      ensures contentLength <= ULLONG_MAX && (Live(View()) ==> Sane(View()))
      ensures !old(Live(View())) ==> View() == old(View()) && n == 0
      ensures data == [] && old(Live(View())) ==>
        View() == if old(state).BodyIdentityEof? then old(View()).(messages := old(messages) + 1)
          else old(View()).(errno := InvalidEofState)
      ensures data != [] && old(Live(View())) ==>
        var p := Run(head, old(View()), data);
        && View().(body := p.body) == p
        && (if p.errno.Fine? then View().body == p.body && n == Taken(head, old(View()), data)
            else View().body <= p.body && n + 1 == Taken(head, old(View()), data))
    {
      hide Run, Taken, Concat, Feed;
      n := 0;
      if !errno.Fine? || state.Complete? || state.Trailer? { return; }
      if |data| == 0 {
        if state.BodyIdentityEof? {
          messages := messages + 1;
          return 0;
        }
        errno := InvalidEofState;
        return 1;
      }
      ghost var start := View();
      var mark := -1;
      RunNone(head, start, data);
      while n < |data| && !state.Complete? && !state.Trailer?
        invariant n <= |data| && mark <= n
        invariant errno.Fine? && (mark >= 0 ==> InBody() || state.ChunkDataAlmostDone?)
        invariant Shown(data, mark, n) == Run(head, start, data[..n])
        invariant n == Taken(head, start, data[..n])
        decreases |data| - n
      {
        RunSane(head, start, data[..n]);
        SaneBody(View(), Shown(data, mark, n));
        ghost var at := Shown(data, mark, n);
        var k := 1;
        if InBody() {
          mark, k := TakeBody(data, mark, n);
        } else {
          RunOne(head, at, data[n]);
          assert data[n..n + 1] == [data[n]];
          mark := TakeByte(data, mark, n);
        }
        RunOn(head, start, data, n, k);
        if !errno.Fine? {
          RunStops(head, start, data, n + k);
          RunSane(head, start, data);
          return;
        }
        n := n + k;
      }
      RunStops(head, start, data, n);
      Give(data, mark, n);
      RunSane(head, start, data);
    }
  }

  function Start(head: Head, nread: nat): Parser {
    Parser(HeadersDone, Fine, head.length, nread, [], [], 0, 0)
  }

  lemma {:induction false} ConcatSplit(parts: seq<seq<Byte>>, i: nat)
    requires i < |parts|
    ensures Concat(parts[..i + 1]) == Concat(parts[..i]) + parts[i]
  {
    ConcatLast(parts[..i], parts[i]);
    assert parts[..i + 1] == parts[..i] + [parts[i]];
  }

  /** However a stream is cut into segments, the callbacks get the same body, sizes and notifications; what an error
    can take away is the end of the body. */
  method ExecuteAll(head: Head, nread: nat, segments: seq<seq<Byte>>) returns (parser: HttpParser)
    requires head.length <= ULLONG_MAX && [] !in segments
    ensures var p := Run(head, Start(head, nread), Concat(segments));
      && parser.View().(body := p.body) == p && parser.View().body <= p.body
      && (p.errno.Fine? ==> Concat(parser.pieces) == p.body)
  {
    hide Run, Taken, Concat, Sane;
    parser := new HttpParser(head, nread);
    ghost var start := parser.View();
    RunNone(head, start, []);
    assert segments[..0] == [];
    ConcatNone();
    SaneStart(start);
    for i := 0 to |segments|
      invariant fresh(parser) && parser.head == head
      invariant parser.contentLength <= ULLONG_MAX && (Live(parser.View()) ==> Sane(parser.View()))
      invariant var p := Run(head, start, Concat(segments[..i]));
        && parser.View().(body := p.body) == p && parser.View().body <= p.body
          && (p.errno.Fine? ==> parser.View().body == p.body)
    {
      ghost var before := parser.View();
      ConcatSplit(segments, i);
      RunAppend(head, start, Concat(segments[..i]), segments[i]);
      if !Live(before) { RunDead(head, Run(head, start, Concat(segments[..i])), segments[i]); }
      var _ := parser.Execute(segments[i]);
    }
    assert segments[..|segments|] == segments;
  }

  lemma ConcatNone()
    ensures Concat([]) == []
  {
  }

  lemma SaneStart(p: Parser)
    requires p.state.HeadersDone?
    ensures Sane(p)
  {
  }

  lemma RunDead(h: Head, p: Parser, s: seq<Byte>)
    requires !Live(p)
    ensures Run(h, p, s) == p
  {
  }

  /** The messages that end with their headers (section 3.3.3 of RFC 7230): what answers HEAD, what hands the connection
    over to another protocol, what announces nothing, and, if no length is given, requests and the responses that
    never have a body. */
  predicate BodyLess(head: Head) {
    || head.skipBody
    || (head.upgrade && head.connect)
    || (!head.chunked && head.length == 0)
    || (!head.chunked && head.length == ULLONG_MAX
        && (head.upgrade || head.request || 100 <= head.status < 200 || head.status == 204 || head.status == 304))
  }

  /** What the end of the headers decides. */
  lemma HeadDecides(head: Head, nread: nat)
    requires nread < MAX_HEADER_SIZE
    ensures var p, q := Run(head, Start(head, nread), [LF]), Start(head, 0);
      && (BodyLess(head) <==> p == q.(state := Complete, messages := 1))
      && (!BodyLess(head) && head.chunked <==> p == q.(state := ChunkSizeStart))
      && (!BodyLess(head) && !head.chunked && head.length != ULLONG_MAX <==> p == q.(state := BodyIdentity))
      && (!BodyLess(head) && !head.chunked && head.length == ULLONG_MAX <==> p == q.(state := BodyIdentityEof))
  {
    RunOne(head, Start(head, nread), LF);
  }

  /** A body without chunks, cut into any segments: the pieces given to the callback make it up, and the message is
    complete once all bytes that the headers announce are there; if they announce none, only the end of the stream
    completes it. */
  method DecodePlain(head: Head, nread: nat, segments: seq<seq<Byte>>, ghost data: seq<Byte>)
    returns (pieces: seq<seq<Byte>>, messages: nat)
    requires !BodyLess(head) && !head.chunked && |data| <= head.length <= ULLONG_MAX && nread < MAX_HEADER_SIZE
    requires [] !in segments && Concat(segments) == [LF] + data
    ensures Concat(pieces) == data
    ensures messages == if |data| == head.length < ULLONG_MAX then 1 else 0
  {
    hide Run, Concat;
    var parser := ExecuteAll(head, nread, segments);
    HeadDecides(head, nread);
    RunAppend(head, Start(head, nread), [LF], data);
    PlainRun(head, Run(head, Start(head, nread), [LF]), data);
    pieces, messages := parser.pieces, parser.messages;
    assert [] + data == data;
  }

  lemma PlainRun(head: Head, p: Parser, data: seq<Byte>)
    requires p.errno.Fine? && (p.state.BodyIdentityEof? || (p.state.BodyIdentity? && p.contentLength > 0))
    requires p.state.BodyIdentity? ==> |data| <= p.contentLength
    ensures var q := Run(head, p, data);
      && q.errno.Fine? && q.body == p.body + data
      && q.messages == p.messages + if p.state.BodyIdentity? && |data| == p.contentLength then 1 else 0
  {
    if data == [] {
      assert p.body + data == p.body;
    } else {
      hide Run;
      if p.state.BodyIdentity? { IdentityRun(head, p, data); } else { EofRun(head, p, data); }
    }
  }

  predicate ChunkedBody(head: Head) {
    head.chunked && !head.skipBody && !(head.upgrade && head.connect)
  }

  lemma HeadersRun(head: Head, nread: nat, s: seq<Byte>)
    requires ChunkedBody(head) && nread < MAX_HEADER_SIZE
    ensures var p := Start(head, nread).(state := ChunkSizeStart, nread := 0);
      Run(head, Start(head, nread), [LF] + s) == Run(head, p, s)
  {
    hide Run;
    RunAppend(head, Start(head, nread), [LF], s);
    RunOne(head, Start(head, nread), LF);
  }

  /** Any payload in any chunks, cut into any segments: the pieces given to the callback make up the payload, every
    size was announced exactly, and the message was complete once. */
  method DecodeChunked(head: Head, nread: nat, segments: seq<seq<Byte>>, ghost chunks: seq<Chunk>, ghost last: Chunk,
          ghost end: seq<Byte>)
    returns (pieces: seq<seq<Byte>>, sizes: seq<nat>, messages: nat)
    requires ChunkedBody(head) && head.length <= ULLONG_MAX && nread < MAX_HEADER_SIZE
    requires [] !in segments && Encoding(chunks, last, end) && Concat(segments) == [LF] + Encode(chunks, last, end)
    ensures Concat(pieces) == Payload(chunks) && sizes == Sizes(chunks) + [0] && messages == 1
  {
    hide Run, Concat, Encode, Encoding, Sizes, Payload;
    var parser := ExecuteAll(head, nread, segments);
    HeadersRun(head, nread, Encode(chunks, last, end));
    EncodingRun(head, Start(head, nread).(state := ChunkSizeStart, nread := 0), chunks, last, end);
    pieces, sizes, messages := parser.pieces, parser.sizes, parser.messages;
    assert [] + Payload(chunks) == Payload(chunks);
    assert [] + Sizes(chunks) + [0] == Sizes(chunks) + [0];
  }
}
