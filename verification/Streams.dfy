/** What a receiver of a byte stream makes of it (`network/nw_ses.c`, the stream branch of `on_can_read`). */
module Streams {
  import opened Octets
  import opened Framing

  /** How reading the packages of a stream ends: for want of bytes, on an error, or because the callback closed the
    session. */
  datatype End = More | Failed | Stopped
  datatype Parsed = Parsed(pkgs: seq<Pkg>, rest: seq<Byte>, end: End)

  /** What is fixed for a session: the checksum, the size of the read buffer and the packages on which the callback
    closes the session. */
  datatype Reader = Reader(crc: Crc, capacity: nat, closes: Pkg -> bool)

  function Min(a: nat, b: nat): nat { if a < b then a else b }

  /** The next package, as far as a full read buffer can show it. */
  function Next(s: seq<Byte>, r: Reader): Decoded {
    Decode(s[..Min(|s|, r.capacity)], r.crc)
  }

  lemma NextSize(s: seq<Byte>, r: Reader)
    requires Next(s, r).Whole?
    ensures HEAD_SIZE <= Next(s, r).size <= Min(|s|, r.capacity)
  {
    DecodeStable(s[..Min(|s|, r.capacity)], [], r.crc);
  }

  /** All packages of a stream. A buffer filled by a package that is still not whole is an error. */
  ghost function Parse(s: seq<Byte>, r: Reader): Parsed
    decreases |s|
  {
    match Next(s, r)
    case NeedMore => Parsed([], s, if |s| < r.capacity then More else Failed)
    case Bad(_) => Parsed([], s, Failed)
    case Whole(p, size) =>
      NextSize(s, r);
      if r.closes(p) then Parsed([p], s[size..], Stopped)
      else var tail := Parse(s[size..], r); Parsed([p] + tail.pkgs, tail.rest, tail.end)
  }

  lemma NextStable(s: seq<Byte>, more: seq<Byte>, r: Reader)
    requires !Next(s, r).NeedMore? || |s| >= r.capacity
    ensures Next(s + more, r) == Next(s, r)
  {
    var n, m := Min(|s|, r.capacity), Min(|s + more|, r.capacity);
    if |s| >= r.capacity {
      assert (s + more)[..m] == s[..n];
    } else {
      assert (s + more)[..m] == s[..n] + more[..m - n];
      DecodeStable(s[..n], more[..m - n], r.crc);
    }
  }

  /** Reading on with more bytes takes up where reading stopped for want of them, and changes nothing once reading
    has ended. */
  lemma {:induction false} ParseMore(s: seq<Byte>, more: seq<Byte>, r: Reader)
    ensures var a, b := Parse(s, r), Parse(s + more, r);
      if a.end.More? then var c := Parse(a.rest + more, r); b == Parsed(a.pkgs + c.pkgs, c.rest, c.end)
      else b == Parsed(a.pkgs, a.rest + more, a.end)
    decreases |s|
  {
    hide Decode;
    if Next(s, r).NeedMore? && |s| < r.capacity {
      var c := Parse(s + more, r);
      assert [] + c.pkgs == c.pkgs;
    } else {
      NextStable(s, more, r);
      if Next(s, r).Whole? {
        NextSize(s, r);
        var size := Next(s, r).size;
        assert (s + more)[size..] == s[size..] + more;
        if !r.closes(Next(s, r).pkg) {
          ParseMore(s[size..], more, r);
          ConsAssoc(Next(s, r).pkg, s, more, size, r);
        }
      }
    }
  }

  lemma ConsAssoc(p: Pkg, s: seq<Byte>, more: seq<Byte>, size: nat, r: Reader)
    requires size <= |s|
    ensures var a := Parse(s[size..], r); var c := Parse(a.rest + more, r);
      [p] + (a.pkgs + c.pkgs) == ([p] + a.pkgs) + c.pkgs
  {
  }

  // ----- What a sender puts on the stream

  function Packing(msgs: seq<Pkg>, crc: Crc): seq<Byte> {
    if msgs == [] then [] else Packed(msgs[0], crc) + Packing(msgs[1..], crc)
  }

  lemma {:induction false} PackingAppend(msgs: seq<Pkg>, p: Pkg, crc: Crc)
    ensures Packing(msgs + [p], crc) == Packing(msgs, crc) + Packed(p, crc)
  {
    hide Packed;
    if msgs == [] {
      assert [p][1..] == [];
    } else {
      assert (msgs + [p])[1..] == msgs[1..] + [p];
      PackingAppend(msgs[1..], p, crc);
    }
  }

  /** Each message can be packed and fits the read buffer of the receiver, who does not close on it. */
  predicate Deliverable(msgs: seq<Pkg>, r: Reader) {
    forall i :: 0 <= i < |msgs| ==> Packable(msgs[i]) && |Packed(msgs[i], r.crc)| <= r.capacity && !r.closes(msgs[i])
  }

  lemma NextPacked(p: Pkg, rest: seq<Byte>, r: Reader)
    requires Packable(p) && |Packed(p, r.crc)| <= r.capacity
    ensures Next(Packed(p, r.crc) + rest, r) == Whole(p, |Packed(p, r.crc)|)
  {
    hide Decode, Packed;
    var b := Packed(p, r.crc);
    var m := Min(|b + rest|, r.capacity);
    assert (b + rest)[..m] == b + rest[..m - |b|];
    DecodePacked(p, r.crc, rest[..m - |b|]);
  }

  lemma NextPrefix(p: Pkg, n: nat, r: Reader)
    requires Packable(p) && n < |Packed(p, r.crc)| <= r.capacity
    ensures Next(Packed(p, r.crc)[..n], r).NeedMore?
  {
    hide Decode, Packed;
    var s := Packed(p, r.crc)[..n];
    assert s[..Min(|s|, r.capacity)] == s;
    DecodePrefix(p, r.crc, n);
  }

  /** How many of the messages lie within the first `n` bytes. */
  function Arrived(msgs: seq<Pkg>, n: nat, crc: Crc): (k: nat)
    ensures k <= |msgs|
  {
    if msgs == [] || n < |Packed(msgs[0], crc)| then 0 else Arrived(msgs[1..], n - |Packed(msgs[0], crc)|, crc) + 1
  }

  /** These messages are all there, and the next one is not. */
  lemma {:induction false} ArrivedBounds(msgs: seq<Pkg>, n: nat, crc: Crc)
    ensures var k := Arrived(msgs, n, crc);
      |Packing(msgs[..k], crc)| <= n && (k < |msgs| ==> n < |Packing(msgs[..k + 1], crc)|)
  {
    hide Packed;
    if msgs != [] {
      if n < |Packed(msgs[0], crc)| {
        FirstOf(msgs, 0, crc);
      } else {
        ArrivedBounds(msgs[1..], n - |Packed(msgs[0], crc)|, crc);
        var j := Arrived(msgs[1..], n - |Packed(msgs[0], crc)|, crc);
        FirstOf(msgs, j, crc);
        if j + 1 < |msgs| { FirstOf(msgs, j + 1, crc); }
      }
    }
  }

  lemma FirstOf(msgs: seq<Pkg>, j: nat, crc: Crc)
    requires j + 1 <= |msgs|
    ensures Packing(msgs[..j + 1], crc) == Packed(msgs[0], crc) + Packing(msgs[1..][..j], crc)
  {
    assert msgs[..j + 1][1..] == msgs[1..][..j];
  }

  lemma ParseNone(r: Reader)
    requires r.capacity > 0
    ensures Parse([], r) == Parsed([], [], More)
  {
  }

  /** Part of a message is kept. */
  lemma ParsePart(p: Pkg, n: nat, r: Reader)
    requires Packable(p) && n < |Packed(p, r.crc)| <= r.capacity
    ensures Parse(Packed(p, r.crc)[..n], r) == Parsed([], Packed(p, r.crc)[..n], More)
  {
    hide Decode, Packed;
    NextPrefix(p, n, r);
  }

  /** A message that does not fit the read buffer is an error, as soon as the buffer is full and not before. */
  lemma ParseTooLarge(p: Pkg, n: nat, r: Reader)
    requires Packable(p) && r.capacity < |Packed(p, r.crc)| && n <= |Packed(p, r.crc)|
    ensures var s := Packed(p, r.crc)[..n]; Parse(s, r) == Parsed([], s, if n < r.capacity then More else Failed)
  {
    hide Decode, Packed;
    var s, m := Packed(p, r.crc)[..n], Min(n, r.capacity);
    assert s[..m] == Packed(p, r.crc)[..m];
    DecodePrefix(p, r.crc, m);
  }

  /** Reading one packed message first. */
  lemma ParseCons(p: Pkg, rest: seq<Byte>, r: Reader)
    requires Deliverable([p], r)
    ensures var tail := Parse(rest, r);
      Parse(Packed(p, r.crc) + rest, r) == Parsed([p] + tail.pkgs, tail.rest, tail.end)
  {
    hide Decode, Packed;
    assert [p][0] == p;
    NextPacked(p, rest, r);
    assert (Packed(p, r.crc) + rest)[|Packed(p, r.crc)|..] == rest;
  }

  /** However much of the stream has arrived, the receiver has exactly the messages that are whole, in order, and no
    error. */
  lemma {:induction false} ParsePacking(msgs: seq<Pkg>, n: nat, r: Reader) returns (rest: seq<Byte>)
    requires Deliverable(msgs, r) && n <= |Packing(msgs, r.crc)| && r.capacity > 0
    ensures Packing(msgs, r.crc)[..n] == Packing(msgs[..Arrived(msgs, n, r.crc)], r.crc) + rest
    ensures Parse(Packing(msgs, r.crc)[..n], r) == Parsed(msgs[..Arrived(msgs, n, r.crc)], rest, More)
    decreases |msgs|
  {
    hide Parse, Packed;
    var all := Packing(msgs, r.crc);
    rest := all[..n];
    if msgs == [] {
      ParseNone(r);
    } else {
      var b, later := Packed(msgs[0], r.crc), Packing(msgs[1..], r.crc);
      if n < |b| {
        assert all[..n] == b[..n];
        ParsePart(msgs[0], n, r);
      } else {
        var j := Arrived(msgs[1..], n - |b|, r.crc);
        rest := ParsePacking(msgs[1..], n - |b|, r);
        assert all[..n] == b + later[..n - |b|];
        ParseCons(msgs[0], later[..n - |b|], r);
        FirstOf(msgs, j, r.crc);
        assert [msgs[0]] + msgs[1..][..j] == msgs[..j + 1];
      }
    }
  }

  /** All bytes arrived: all messages. */
  lemma ArrivedAll(msgs: seq<Pkg>, crc: Crc)
    ensures Arrived(msgs, |Packing(msgs, crc)|, crc) == |msgs|
  {
    hide Packed, Packing;
    var k := Arrived(msgs, |Packing(msgs, crc)|, crc);
    ArrivedBounds(msgs, |Packing(msgs, crc)|, crc);
    PackingPrefix(msgs, if k < |msgs| then k + 1 else k, crc);
  }

  lemma {:induction false} PackingPrefix(msgs: seq<Pkg>, k: nat, crc: Crc)
    requires k <= |msgs|
    ensures |Packing(msgs[..k], crc)| <= |Packing(msgs, crc)|
  {
    if k > 0 {
      FirstOf(msgs, k - 1, crc);
      PackingPrefix(msgs[1..], k - 1, crc);
    }
  }
}
