/** The two directions of a stream session (`network/nw_ses.c`) and what they deliver together. */
module Sessions {
  import opened Octets
  import opened Framing
  import opened Streams
  import opened Buffers

  datatype Errno = Again | Interrupted | Other

  // ----- Sending

  /** What the kernel does with one `write`: takes some of the bytes, or fails. */
  datatype WriteCall = Takes(n: nat) | WriteFails(errno: Errno)

  /** Every call takes something, if it is not interrupted. */
  predicate NoWriteFails(script: seq<WriteCall>) {
    forall call | call in script :: if call.Takes? then call.n > 0 else call.errno == Interrupted
  }

  /** How many calls take something. */
  function Takings(script: seq<WriteCall>): nat {
    if script == [] then 0 else (if script[0].Takes? then 1 else 0) + Takings(script[1..])
  }

  /** The sending side of a connected socket; `wire` is all that it has taken so far. Once its script is over it
    takes no more. */
  class OutSocket {
    var script: seq<WriteCall>
    var wire: seq<Byte>
    var errno: Errno

    constructor ()
      ensures wire == []
    {
      script, wire, errno := [], [], Other;
    }

    method Write(s: seq<Byte>) returns (ret: int)
      modifies this
      ensures -1 <= ret <= |s| && wire == old(wire) + s[..if ret < 0 then 0 else ret]
      ensures |script| < |old(script)| || (script == [] && ret == -1 && errno == Again)
      ensures NoWriteFails(old(script)) && s != [] ==>
                && NoWriteFails(script) && ret != 0
                && (ret > 0 ==> Takings(script) + 1 == Takings(old(script)))
                && (ret < 0 && errno == Interrupted ==> Takings(script) == Takings(old(script)))
                && (ret < 0 && errno != Interrupted ==> errno == Again && Takings(script) == Takings(old(script)) == 0)
    {
      if script == [] {
        ret, errno := -1, Again;
      } else {
        assert script[0] in script && forall call | call in script[1..] :: call in script;
        match script[0] {
          case Takes(n) =>
            ret := Min(n, |s|);
            wire := wire + s[..ret];
          case WriteFails(e) =>
            ret, errno := -1, e;
        }
        script := script[1..];
      }
    }

    /** `nw_write_stream`: writes until all is taken, nothing is, or a call fails other than by interruption. */
    method WriteStream(s: seq<Byte>) returns (spos: nat)
      modifies this
      ensures spos <= |s| && wire == old(wire) + s[..spos]
      ensures NoWriteFails(old(script)) ==>
                && NoWriteFails(script) && Takings(script) + spos >= Takings(old(script))
                && (spos < |s| ==> errno == Again && Takings(script) == 0)
    {
      hide NoWriteFails, Takings;
      spos := 0;
      while spos < |s|
        invariant spos <= |s| && wire == old(wire) + s[..spos]
        invariant NoWriteFails(old(script)) ==> NoWriteFails(script) && Takings(script) + spos >= Takings(old(script))
        decreases |script|
      {
        var ret := Write(s[spos..]);
        if ret > 0 {
          assert s[..spos] + s[spos..][..ret] == s[..spos + ret];
          spos := spos + ret;
        } else if ret < 0 {
          if errno == Interrupted { continue; }
          break;
        } else {
          break;
        }
      }
    }
  }

  datatype Watch = Off | ReadOnly | ReadWrite

  /** The sending half of a session. `offered` is all the bytes it has been given while open. */
  class Sender {
    const sock: OutSocket
    const list: NwBufList
    var open: bool
    var watch: Watch
    ghost var offered: seq<Byte>

    ghost predicate Separate()
      reads list
    {
      this !in list.Repr && sock !in list.Repr
    }

    /** While open, what was offered is on the wire or waits in order, and writing is watched exactly while
      something waits. */
    ghost predicate Valid()
      reads this, sock`wire, list, list.Repr
    {
      && Separate() && list.Valid()
      && sock.wire <= offered
      && if open then offered == sock.wire + list.Contents()
        && watch == (if list.bufs != [] then ReadWrite else ReadOnly)
         else list.bufs == [] && watch == Off
    }

    constructor (sock: OutSocket, size: nat, limit: nat)
      requires size > 0 && sock.wire == []
      ensures Valid() && fresh(list) && fresh(list.Repr) && this.sock == sock && open && offered == []
        && list.size == size && list.limit == limit
    {
      this.sock := sock;
      list := new NwBufList(size, limit);
      open, watch, offered := true, ReadOnly, [];
    }

    /** `nw_ses_close`, which the error callbacks come to: the waiting buffers are dropped. */
    method Close()
      requires Separate() && list.Valid() && sock.wire <= offered
      modifies this`open, this`watch, list
      ensures Valid() && !open && list.Repr == old(list.Repr)
    {
      open, watch := false, Off;
      while list.bufs != []
        invariant Separate() && list.Valid() && list.Repr == old(list.Repr) && sock.wire <= offered && !open
          && watch == Off
        decreases |list.bufs|
      {
        list.Shift();
      }
    }

    lemma NothingWaits()
      requires Valid()
      ensures list in list.Repr && (open && list.bufs == [] ==> list.Contents() == [] && sock.wire == offered)
    {
      assert list.bufs == [] ==> list.parts == [];
    }

    /** `nw_ses_send`: the bytes are taken or kept behind those that wait; else the session is closed. */
    method Send(data: seq<Byte>) returns (ret: int)
      requires Valid()
      modifies this, sock, list.Repr
      ensures Valid() && fresh(list.Repr - old(list.Repr))
      ensures ret == (if open then 0 else -1)
      ensures offered == if old(open) then old(offered) + data else old(offered)
      ensures old(sock.wire) <= sock.wire && (!old(open) ==> !open)
      ensures old(open) && list.limit == 0 && NoWriteFails(old(sock.script)) ==> open
    {
      NothingWaits();
      hide NwBufList.Valid, NwBufList.Contents, NoWriteFails, Takings;
      if !open { return -1; }
      offered := offered + data;
      if list.bufs != [] {
        var nwrite := list.Write(data);
        if nwrite != |data| {
          Close();
          return -1;
        }
        assert data[..nwrite] == data;
      } else {
        var nwrite := sock.WriteStream(data);
        if nwrite < |data| {
          assert sock.wire + data[nwrite..] == offered;
          if sock.errno == Again {
            var kept := list.Write(data[nwrite..]);
            if kept != |data| - nwrite {
              Close();
              return -1;
            }
            assert data[nwrite..][..kept] == data[nwrite..];
            watch := ReadWrite;
          } else {
            Close();
            return -1;
          }
        }
      }
      return 0;
    }

    /** `on_can_write`: what waits goes out in order; a short write that is not for want of room closes the session. */
    method CanWrite()
      requires Valid()
      modifies this, sock, list.Repr
      ensures Valid() && list.Repr == old(list.Repr) && offered == old(offered)
      ensures old(sock.wire) <= sock.wire && (!old(open) ==> !open)
      ensures open ==> list.bufs == [] || sock.errno == Again
      ensures old(open) && NoWriteFails(old(sock.script)) ==> open
      ensures old(open) && NoWriteFails(old(sock.script)) && Takings(old(sock.script)) >= |old(list.Contents())| ==>
        list.bufs == []
    {
      NothingWaits();
      hide NwBufList.Valid, Concat, NoWriteFails, Takings;
      if !open { return; }
      while list.bufs != []
        invariant Separate() && list.Valid() && list.Repr == old(list.Repr) && offered == old(offered) && open
        invariant offered == sock.wire + list.Contents() && old(sock.wire) <= sock.wire
        invariant watch == old(watch) && (list.bufs != [] ==> watch == ReadWrite)
        invariant NoWriteFails(old(sock.script)) ==> NoWriteFails(sock.script)
        invariant NoWriteFails(old(sock.script)) && Takings(old(sock.script)) >= |old(list.Contents())| ==>
                    Takings(sock.script) >= |list.Contents()|
        decreases |list.bufs|
      {
        list.Head();
        var buf := list.bufs[0];
        ghost var wire := sock.wire;
        var size := buf.wpos - buf.rpos;
        var nwrite := sock.WriteStream(buf.data[buf.rpos..buf.wpos]);
        HeadGone(offered, wire, list.parts, nwrite);
        if nwrite < size {
          if sock.errno == Again {
            list.Advance(nwrite);
            break;
          } else {
            Close();
            return;
          }
        } else {
          list.Shift();
        }
      }
      if list.bufs == [] {
        watch := ReadOnly;
      }
    }

    static lemma HeadGone(offered: seq<Byte>, wire: seq<Byte>, parts: seq<seq<Byte>>, n: nat)
      requires parts != [] && n <= |parts[0]| && offered == wire + Concat(parts)
      ensures wire + parts[0][..n] <= offered && offered == (wire + parts[0][..n]) + Concat(parts)[n..]
      ensures n == |parts[0]| ==> Concat(parts)[n..] == Concat(parts[1..])
      ensures |parts[0]| <= |Concat(parts)|
    {
    }
  }

  /** `rpc_send`. */
  method RpcSend(ses: Sender, p: Pkg, crc: Crc) returns (ret: int)
    requires ses.Valid() && Typed(p)
    modifies ses, ses.sock, ses.list.Repr
    ensures ses.Valid() && fresh(ses.list.Repr - old(ses.list.Repr))
    ensures ret == (if |p.body| <= MAX_BODY_SIZE && ses.open then 0 else -1)
    ensures ses.offered == if Packable(p) && old(ses.open) then old(ses.offered) + Packed(p, crc) else old(ses.offered)
    ensures old(ses.sock.wire) <= ses.sock.wire && (!old(ses.open) ==> !ses.open)
    ensures old(ses.open) && ses.list.limit == 0 && NoWriteFails(old(ses.sock.script)) ==> ses.open
  {
    hide NoWriteFails;
    if |p.body| > MAX_BODY_SIZE { return -1; }
    ret := ses.Send(Packed(p, crc));
  }

  // ----- Receiving

  /** What the kernel does with one `read`: some bytes, the end of the stream, or a failure. */
  datatype ReadCall = Gives(n: nat) | EndOfStream | ReadFails(errno: Errno)

  /** Every call gives something, if it is not interrupted and there is something. */
  predicate NoReadFails(script: seq<ReadCall>) {
    forall call | call in script :: (call.Gives? && call.n > 0) || call == ReadFails(Interrupted)
  }

  /** How many calls give something. */
  function Givings(script: seq<ReadCall>): nat {
    if script == [] then 0 else (if script[0].Gives? then 1 else 0) + Givings(script[1..])
  }

  /** The receiving side of a connected socket: `coming` has arrived and is not yet read, `taken` has been read. */
  class InSocket {
    var script: seq<ReadCall>
    var coming: seq<Byte>
    ghost var taken: seq<Byte>
    var errno: Errno
    /** Whether the stream has ended or failed. */
    ghost var broken: bool

    constructor ()
      ensures taken == coming == []
    {
      script, coming, taken, errno, broken := [], [], [], Other, false;
    }

    /** One `read` with room for something; with no room it would answer 0, which means the end of the stream. */
    method Read(room: nat) returns (ret: int, bytes: seq<Byte>)
      requires room > 0
      modifies this
      ensures -1 <= ret == (if ret < 0 then ret else |bytes|) <= room && taken == old(taken) + bytes
        && bytes + coming == old(coming)
      ensures ret <= 0 ==> bytes == [] && taken == old(taken) && coming == old(coming)
      ensures ret == 0 || (ret < 0 && errno.Other?) ==> broken
      ensures |script| < |old(script)| || (script == [] && ret == -1 && errno == Again)
      ensures NoReadFails(old(script)) ==>
                && NoReadFails(script) && ret != 0
                && (ret > 0 ==> Givings(script) + 1 == Givings(old(script)))
                && (ret < 0 && errno == Interrupted ==> Givings(script) == Givings(old(script)))
                && (ret < 0 && errno != Interrupted ==> errno == Again && (coming == [] || Givings(old(script)) == 0))
    {
      ret, bytes := -1, [];
      if script == [] {
        errno := Again;
      } else {
        assert script[0] in script && forall call | call in script[1..] :: call in script;
        match script[0] {
          case Gives(n) =>
            ret := Min(Min(n, room), |coming|);
            if ret == 0 {
              ret, errno := -1, Again;
            } else {
              bytes := coming[..ret];
              taken, coming := taken + bytes, coming[ret..];
            }
          case EndOfStream =>
            ret := 0;
            broken := true;
          case ReadFails(e) =>
            errno := e;
            broken := broken || e.Other?;
        }
        script := script[1..];
      }
    }
  }

  /** The receiving half of a session with the callbacks of an RPC server or client. */
  class Receiver {
    const sock: InSocket
    const size: nat
    const crc: Crc
    const closes: Pkg -> bool
    var readBuf: NwBuf?
    var open: bool
    var delivered: seq<Pkg>

    ghost function Reading(): Reader { Reader(crc, size, closes) }

    ghost predicate Holds(s: seq<Byte>)
      reads this, readBuf, if readBuf == null then {} else {readBuf.data}
    {
      readBuf != null && readBuf.Valid() && readBuf.data.Length == size && readBuf.Contents() == s
    }

    ghost predicate Waiting()
      reads this, sock`taken, readBuf, if readBuf == null then {} else {readBuf.data}
    {
      var parsed := Parse(sock.taken, Reading());
      && parsed.end.More?
      && (if readBuf == null then parsed.rest == [] else readBuf.rpos == 0 && readBuf.wpos < size && Holds(parsed.rest))
    }

    /** The packages of what was read have been delivered, and only those; what is left over is at the front of the
      read buffer, which has room. */
    ghost predicate Valid()
      reads this, sock`taken, readBuf, if readBuf == null then {} else {readBuf.data}
    {
      && size > 0
      && delivered == Parse(sock.taken, Reading()).pkgs
      && (if open then Waiting() else readBuf == null)
    }

    constructor (sock: InSocket, size: nat, crc: Crc, closes: Pkg -> bool)
      requires size > 0 && sock.taken == []
      ensures Valid() && open && delivered == [] && this.sock == sock && this.size == size && this.crc == crc
        && this.closes == closes
      ensures readBuf == null
    {
      this.sock, this.size, this.crc, this.closes := sock, size, crc, closes;
      readBuf, open, delivered := null, true, [];
      new;
      ParseNone(Reading());
    }

    method Close()
      modifies this`readBuf, this`open
      ensures !open && readBuf == null
    {
      open, readBuf := false, null;
    }

    /** `on_can_read`: reads as long as there is something to read, and delivers every package as it becomes whole. */
    method CanRead()
      requires Valid()
      modifies this, sock, readBuf, if readBuf == null then {} else {readBuf.data}
      ensures Valid() && (!old(open) ==> !open)
      ensures old(sock.taken) <= sock.taken && sock.taken + sock.coming == old(sock.taken + sock.coming)
      ensures open ==> sock.errno == Again
      ensures readBuf != null ==> readBuf == old(readBuf) || (fresh(readBuf) && fresh(readBuf.data))
      ensures old(open) && !open ==> sock.broken || !Parse(sock.taken, Reading()).end.More?
      ensures old(open) && NoReadFails(old(sock.script)) ==>
                if open then Givings(old(sock.script)) >= |old(sock.coming)| ==> sock.coming == []
                else !Parse(sock.taken, Reading()).end.More?
    {
      hide Parse, Next, Min, NoReadFails, Givings;
      if !open { return; }
      if readBuf == null {
        readBuf := new NwBuf(size);
      }
      while true
        invariant Valid() && open && readBuf != null
        invariant readBuf == old(readBuf) || (fresh(readBuf) && fresh(readBuf.data))
        invariant old(sock.taken) <= sock.taken && sock.taken + sock.coming == old(sock.taken + sock.coming)
        invariant NoReadFails(old(sock.script)) ==>
                    NoReadFails(sock.script) && Givings(sock.script) + |sock.taken| >= Givings(old(sock.script))
                      + |old(sock.taken)|
        decreases |sock.script|
      {
        ghost var before := sock.taken;
        var ret, bytes := sock.Read(size - readBuf.wpos);
        if ret < 0 {
          if sock.errno == Interrupted { continue; }
          if sock.errno == Again { break; }
          Close();
          return;
        } else if ret == 0 {
          Close();
          return;
        }
        Take(before, bytes);
        if !open { return; }
      }
      if readBuf.rpos == readBuf.wpos {
        readBuf := null;
      }
    }

    /** The kernel puts the bytes it gives behind those in the buffer. */
    method Take(ghost before: seq<Byte>, bytes: seq<Byte>)
      requires size > 0 && open && readBuf != null && readBuf.Valid()
        && readBuf.wpos + |bytes| <= readBuf.data.Length == size
      requires var parsed := Parse(before, Reading());
        parsed.end.More? && delivered == parsed.pkgs && readBuf.Contents() == parsed.rest
      requires sock.taken == before + bytes
      modifies this, readBuf, readBuf.data
      ensures Valid() && (if open then readBuf == old(readBuf) else !Parse(sock.taken, Reading()).end.More?)
    {
      hide Parse, Next;
      ParseMore(before, bytes, Reading());
      var n := readBuf.Write(bytes);
      assert bytes[..n] == bytes;
      Deliver();
    }

    /** The packages that are whole in the read buffer are delivered; an error or a full buffer closes the session. */
    method Deliver()
      requires open && size > 0 && readBuf != null && readBuf.Valid() && readBuf.data.Length == size
      requires var c := Parse(readBuf.Contents(), Reading());
        Parse(sock.taken, Reading()) == Parsed(delivered + c.pkgs, c.rest, c.end)
      modifies this, readBuf, readBuf.data
      ensures Valid() && (if open then readBuf == old(readBuf) else !Parse(sock.taken, Reading()).end.More?)
    {
      hide Decode;
      var buf := readBuf;
      ghost var all := Parse(sock.taken, Reading());
      while buf.wpos - buf.rpos > 0
        invariant open && readBuf == buf && buf.Valid() && buf.data.Length == size
        invariant var c := Parse(buf.Contents(), Reading()); all == Parsed(delivered + c.pkgs, c.rest, c.end)
        decreases buf.wpos - buf.rpos
      {
        ghost var s := buf.Contents();
        assert s[..Min(|s|, size)] == s;
        match Decode(buf.data[buf.rpos..buf.wpos], crc) {
          case Bad(_) =>
            assert delivered + [] == delivered;
            Close();
            return;
          case Whole(p, n) =>
            NextSize(s, Reading());
            ghost var tail := Parse(s[n..], Reading());
            assert delivered + ([p] + tail.pkgs) == (delivered + [p]) + tail.pkgs;
            delivered := delivered + [p];
            if closes(p) {
              Close();
              return;
            }
            buf.rpos := buf.rpos + n;
            assert buf.Contents() == s[n..];
          case NeedMore =>
            buf.Shift();
            if buf.wpos == buf.data.Length {
              Close();
              return;
            }
            break;
        }
      }
      ParseNone(Reading());
      assert delivered + [] == delivered;
      buf.Shift();
    }
  }

  // ----- Both ends together

  /** Whatever part of the wire the receiver has read, it has delivered exactly the messages that are whole in it,
    in order, and has seen no error. */
  lemma ExactlyOnce(s: Sender, r: Receiver, msgs: seq<Pkg>)
    requires s.Valid() && r.Valid() && s.offered == Packing(msgs, r.crc) && Deliverable(msgs, r.Reading())
    requires r.sock.taken <= s.sock.wire
    ensures r.delivered == msgs[..Arrived(msgs, |r.sock.taken|, r.crc)] && Parse(r.sock.taken, r.Reading()).end.More?
    ensures s.open && s.list.bufs == [] && r.sock.taken == s.sock.wire ==> r.delivered == msgs
  {
    hide Parse, Packed;
    assert Packing(msgs, r.crc)[..|r.sock.taken|] == r.sock.taken;
    var _ := ParsePacking(msgs, |r.sock.taken|, r.Reading());
    ArrivedAll(msgs, r.crc);
    s.NothingWaits();
  }

  /** What can happen on a connection: a message is posted, the socket can be written, bytes are carried over, the
    other socket can be read. */
  datatype Event =
    | Post(p: Pkg, writing: seq<WriteCall>)
    | Writable(writing: seq<WriteCall>)
    | Carry(n: nat)
    | Readable(reading: seq<ReadCall>)

  /** The kernel does not fail. */
  predicate Smooth(e: Event) {
    match e
    case Post(_, writing) => NoWriteFails(writing)
    case Writable(writing) => NoWriteFails(writing)
    case Carry(_) => true
    case Readable(reading) => NoReadFails(reading)
  }

  /** The packages that are posted and can be packed, in order. */
  function Posts(events: seq<Event>): seq<Pkg> {
    if events == [] then []
    else
      var e := events[|events| - 1];
      Posts(events[..|events| - 1]) + (if e.Post? && Packable(e.p) then [e.p] else [])
  }

  /** Two connected sessions and the network between them. */
  class Connection {
    const s: Sender
    const r: Receiver
    const reader: Reader
    var carried: nat
    var posted: seq<Pkg>
    ghost var Repr: set<object>

    /** The two ends share no memory. */
    ghost predicate Apart()
      reads this, s, s.list, r
    {
      && {this as object, s, s.sock, r, r.sock} <= Repr && s.list.Repr <= Repr
      && s.sock as object != r.sock && this as object !in s.list.Repr
      && {r as object, r.sock} !! s.list.Repr
      && (r.readBuf != null ==>
            && {r.readBuf as object, r.readBuf.data} <= Repr
            && {r.readBuf as object, r.readBuf.data} !! s.list.Repr)
    }

    ghost predicate Valid()
      reads this, Repr
    {
      && {this as object, s, s.sock, s.list, r, r.sock} <= Repr && Apart()
      && s.Valid() && r.Valid() && r.Reading() == reader
      && s.offered == Packing(posted, reader.crc) && Deliverable(posted, reader)
      && carried <= |s.sock.wire| && r.sock.taken + r.sock.coming == s.sock.wire[..carried]
    }

    constructor (size: nat, limit: nat, reader: Reader)
      requires size > 0 && reader.capacity > 0
      ensures Valid() && fresh(Repr) && posted == [] && this.reader == reader
      ensures s.open && r.open && s.list.limit == limit
    {
      hide Sender.Valid, Receiver.Valid, NwBufList.Valid, NwBufList.Contents, Receiver.Waiting, Receiver.Holds, Parse,
        Packed;
      var outSock := new OutSocket();
      var inSock := new InSocket();
      s := new Sender(outSock, size, limit);
      r := new Receiver(inSock, reader.capacity, reader.crc, reader.closes);
      this.reader, carried, posted := reader, 0, [];
      new;
      Repr := {this, s, outSock, s.list, r, inSock} + s.list.Repr;
    }

    method Post(p: Pkg, writing: seq<WriteCall>)
      requires Valid() && Typed(p) && (Packable(p) ==> Deliverable([p], reader))
      modifies Repr
      ensures Valid() && fresh(Repr - old(Repr))
      ensures posted == if old(s.open) && Packable(p) then old(posted) + [p] else old(posted)
      ensures !old(s.open) ==> !s.open
      ensures old(s.open) && s.list.limit == 0 && NoWriteFails(writing) ==> s.open
      ensures r.open == old(r.open)
    {
      hide Sender.Valid, Receiver.Valid, Packed, NoWriteFails;
      Bounds();
      s.sock.script := writing;
      var was := s.open;
      var ret := RpcSend(s, p, reader.crc);
      if was && |p.body| <= MAX_BODY_SIZE {
        PackingAppend(posted, p, reader.crc);
        assert [p][0] == p;
        posted := posted + [p];
      }
      Repr := Repr + s.list.Repr;
    }

    lemma Bounds()
      requires Valid()
      ensures s.list in s.list.Repr && s !in s.list.Repr && s.sock !in s.list.Repr
    {
    }

    method Writable(writing: seq<WriteCall>)
      requires Valid()
      modifies Repr
      ensures Valid() && Repr == old(Repr) && posted == old(posted) && r.open == old(r.open)
        && s.offered == old(s.offered)
      ensures !old(s.open) ==> !s.open
      ensures old(s.open) && NoWriteFails(writing) ==>
        s.open && (Takings(writing) >= |old(s.list.Contents())| ==> s.list.bufs == [])
    {
      hide Sender.Valid, Receiver.Valid, Packed, Packing, NoWriteFails, Takings;
      Bounds();
      s.sock.script := writing;
      s.CanWrite();
    }

    method Carry(n: nat)
      requires Valid()
      modifies Repr
      ensures Valid() && Repr == old(Repr) && posted == old(posted)
      ensures s.open == old(s.open) && s.list.bufs == old(s.list.bufs) && s.sock.wire == old(s.sock.wire)
        && s.offered == old(s.offered)
      ensures carried == Min(old(carried) + n, |s.sock.wire|) && r.open == old(r.open)
    {
      hide Parse, Packed, Packing;
      var k := Min(n, |s.sock.wire| - carried);
      var more := s.sock.wire[carried..carried + k];
      assert s.sock.wire[..carried] + more == s.sock.wire[..carried + k];
      assert r.sock.taken + (r.sock.coming + more) == (r.sock.taken + r.sock.coming) + more;
      r.sock.coming := r.sock.coming + more;
      carried := carried + k;
    }

    method Readable(reading: seq<ReadCall>)
      requires Valid()
      modifies Repr
      ensures Valid() && fresh(Repr - old(Repr)) && posted == old(posted)
      ensures s.open == old(s.open) && s.list.bufs == old(s.list.bufs) && s.sock.wire == old(s.sock.wire)
        && carried == old(carried)
      ensures old(r.open) && NoReadFails(reading) ==>
        r.open && (Givings(reading) >= |old(r.sock.coming)| ==> r.sock.coming == [])
    {
      hide Sender.Valid, Receiver.Valid, Packed, Packing, NoReadFails, Givings;
      Bounds();
      r.sock.script := reading;
      r.CanRead();
      ExactlyOnce(s, r, posted);
      if r.readBuf != null {
        Repr := Repr + {r.readBuf, r.readBuf.data};
      }
    }

    /** Whether nothing waits anywhere. Then everything posted has been delivered. */
    method Idle() returns (idle: bool)
      requires Valid()
      ensures idle == (s.open && s.list.bufs == [] && carried == |s.sock.wire| && r.sock.coming == [])
      ensures r.delivered == posted[..Arrived(posted, |r.sock.taken|, reader.crc)]
      ensures idle ==> r.delivered == posted
    {
      idle := s.open && s.list.bufs == [] && carried == |s.sock.wire| && r.sock.coming == [];
      ExactlyOnce(s, r, posted);
    }
  }

  /** Any run of a connection: messages posted, buffers written out, bytes carried over and read in any order and
    any portions. The messages that were accepted are the first of those posted, and all of them while the sender is
    open. What has been delivered is exactly the accepted messages that are whole in what was read, and all of them
    once nothing waits anywhere. */
  method Run(events: seq<Event>, size: nat, limit: nat, reader: Reader) returns (c: Connection, idle: bool)
    requires size > 0 && reader.capacity > 0
    requires forall e :: e in events && e.Post? ==> Typed(e.p) && (Packable(e.p) ==> Deliverable([e.p], reader))
    ensures c.Valid() && fresh(c.Repr) && c.reader == reader
    ensures c.posted <= Posts(events) && (c.s.open ==> c.posted == Posts(events))
    ensures c.r.delivered == c.posted[..Arrived(c.posted, |c.r.sock.taken|, reader.crc)]
    ensures idle == (c.s.open && c.s.list.bufs == [] && c.carried == |c.s.sock.wire| && c.r.sock.coming == [])
    ensures idle ==> c.r.delivered == c.posted == Posts(events)
    ensures limit == 0 && (forall e | e in events :: Smooth(e)) ==> c.s.open && c.r.open
  {
    hide *;
    c := new Connection(size, limit, reader);
    PostsNone();
    assert events[..0] == [];
    for i := 0 to |events|
      invariant c.Valid() && fresh(c.Repr) && c.reader == reader
      invariant c.posted <= Posts(events[..i]) && (c.s.open ==> c.posted == Posts(events[..i]))
      invariant c.s.list.limit == limit
      invariant limit == 0 && (forall e | e in events :: Smooth(e)) ==> c.s.open && c.r.open
    {
      PostsNext(events, i);
      assert events[i] in events;
      SmoothCases(events[i]);
      match events[i] {
        case Post(p, writing) => c.Post(p, writing);
        case Writable(writing) => c.Writable(writing);
        case Carry(n) => c.Carry(n);
        case Readable(reading) => c.Readable(reading);
      }
    }
    assert events[..|events|] == events;
    idle := c.Idle();
  }

  lemma SmoothCases(e: Event)
    ensures Smooth(e) ==>
      && (e.Post? ==> NoWriteFails(e.writing)) && (e.Writable? ==> NoWriteFails(e.writing))
      && (e.Readable? ==> NoReadFails(e.reading))
  {
  }

  lemma PostsNone()
    ensures Posts([]) == []
  {
  }

  lemma PostsNext(events: seq<Event>, i: nat)
    requires i < |events|
    ensures Posts(events[..i + 1]) == Posts(events[..i])
      + (if events[i].Post? && Packable(events[i].p) then [events[i].p] else [])
  {
    assert events[..i + 1][..i] == events[..i];
  }

  /** Progress: from any point of any run at which both ends are open, once the waiting buffers are written, the
    wire is carried over and the other end is read, without failures, nothing waits any more and everything accepted
    has been delivered. */
  method Drain(c: Connection, writing: seq<WriteCall>, reading: seq<ReadCall>) returns (idle: bool)
    requires c.Valid() && c.s.open && c.r.open
    requires NoWriteFails(writing) && Takings(writing) >= |c.s.list.Contents()|
    requires NoReadFails(reading) && Givings(reading) >= |c.s.offered|
    modifies c.Repr
    ensures c.Valid() && c.posted == old(c.posted) && c.s.open && c.r.open
    ensures idle && c.r.delivered == c.posted
  {
    hide Parse, Packed, Packing, NoWriteFails, Takings, NoReadFails, Givings;
    c.Writable(writing);
    c.Carry(|c.s.sock.wire|);
    ComingBound(c);
    c.Readable(reading);
    idle := c.Idle();
  }

  lemma ComingBound(c: Connection)
    requires c.Valid()
    ensures |c.r.sock.coming| <= |c.s.offered|
  {
    hide Parse, Packed, Packing;
  }
}
