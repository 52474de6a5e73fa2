/** Package framing (`utils/ut_rpc.c`). The checksum is an arbitrary function of the bytes. */
module Framing {
  import opened Octets

  type Crc = seq<Byte> -> nat

  const MAGIC: nat := 0x70656562
  const HEAD_SIZE: nat := 36
  const UINT16: nat := 0x1_0000
  const INT32: nat := 0x8000_0000
  const UINT32: nat := 0x1_0000_0000
  const UINT64: nat := 0x1_0000_0000_0000_0000
  const MAX_BODY_SIZE: nat := UINT32 / 2 - 1 - (UINT16 - 1) - (HEAD_SIZE + 16)

  /** `rpc_pkg`: the fields that a sender chooses. The sizes are those of the two parts. */
  datatype Pkg = Pkg(command: nat, pkgType: nat, result: nat, sequence: nat, reqId: nat, ext: seq<Byte>,
    body: seq<Byte>)

  /** The widths of the C fields. */
  predicate Typed(p: Pkg) {
    p.command < UINT32 && p.pkgType < UINT16 && p.result < UINT32 && p.sequence < UINT32 && p.reqId < UINT64
      && |p.ext| < UINT16
  }

  function LE(n: nat, width: nat): (s: seq<Byte>)
    ensures |s| == width
  {
    if width == 0 then [] else [n % 256] + LE(n / 256, width - 1)
  }

  function FromLE(s: seq<Byte>): nat {
    if s == [] then 0 else s[0] + 256 * FromLE(s[1..])
  }

  function Pow256(w: nat): nat {
    if w == 0 then 1 else 256 * Pow256(w - 1)
  }

  lemma {:induction false} LERoundTrip(n: nat, w: nat)
    requires n < Pow256(w)
    ensures FromLE(LE(n, w)) == n
  {
    if w > 0 {
      LERoundTrip(n / 256, w - 1);
      assert LE(n, w)[1..] == LE(n / 256, w - 1);
    }
  }

  lemma {:induction false} LEOfRead(s: seq<Byte>)
    ensures FromLE(s) < Pow256(|s|) && LE(FromLE(s), |s|) == s
  {
    if s != [] {
      LEOfRead(s[1..]);
      var first: nat, rest := s[0], FromLE(s[1..]);
      LowByte(first, rest);
      assert LE(first + 256 * rest, |s|) == [s[0]] + LE(rest, |s| - 1);
    }
  }

  lemma LowByte(first: nat, rest: nat)
    requires first < 256
    ensures (first + 256 * rest) % 256 == first && (first + 256 * rest) / 256 == rest
  {
  }

  lemma Widths()
    ensures Pow256(2) == UINT16 && Pow256(4) == UINT32 && Pow256(8) == UINT64
  {
    assert Pow256(2) == 256 * (256 * Pow256(0));
    assert Pow256(4) == 256 * (256 * Pow256(2));
    assert Pow256(6) == 256 * (256 * Pow256(4));
    assert Pow256(8) == 256 * (256 * Pow256(6));
  }

  // ----- Packing

  function Head(p: Pkg, crc: nat): seq<Byte> {
    LE(MAGIC, 4) + LE(p.command, 4) + LE(p.pkgType, 2) + LE(p.result, 4) + LE(crc, 4) + LE(p.sequence, 4)
      + LE(p.reqId, 8)
    + LE(|p.body|, 4) + LE(|p.ext|, 2)
  }

  /** The bytes of a package whose checksum field holds `crc`. */
  function Bytes(p: Pkg, crc: nat): (s: seq<Byte>)
    ensures |s| == HEAD_SIZE + |p.ext| + |p.body|
  {
    Head(p, crc) + p.ext + p.body
  }

  /** `rpc_pack`: the checksum is taken with its own field at zero. */
  function Packed(p: Pkg, crc: Crc): seq<Byte> {
    Bytes(p, crc(Bytes(p, 0)) % UINT32)
  }

  predicate Packable(p: Pkg) {
    Typed(p) && |p.body| <= MAX_BODY_SIZE
  }

  // ----- Decoding

  datatype Decoded = NeedMore | Bad(code: int) | Whole(pkg: Pkg, size: nat)

  function Field(s: seq<Byte>, at: nat, width: nat): nat
    requires at + width <= |s|
  {
    FromLE(s[at..at + width])
  }

  /** The bytes with the checksum field cleared. */
  function Cleared(s: seq<Byte>): seq<Byte>
    requires |s| >= HEAD_SIZE
  {
    s[..14] + [0, 0, 0, 0] + s[18..]
  }

  /** `rpc_decode`: nothing yet, an error, or a whole package at the front. The size is kept in 32 bits and answered
    as a signed integer. */
  function Decode(s: seq<Byte>, crc: Crc): Decoded {
    if |s| < HEAD_SIZE then NeedMore
    else if Field(s, 0, 4) != MAGIC then Bad(-1)
    else
      var extSize, bodySize := Field(s, 34, 2), Field(s, 30, 4);
      var size := (HEAD_SIZE + extSize + bodySize) % UINT32;
      if |s| < size then NeedMore
      else if size < HEAD_SIZE + extSize + bodySize then Bad(-3)
      else if Field(s, 14, 4) != crc(Cleared(s[..size])) % UINT32 then Bad(-3)
      else if size >= INT32 then Bad(size - UINT32)
      else
        Whole(Pkg(Field(s, 4, 4), Field(s, 8, 2), Field(s, 10, 4), Field(s, 18, 4), Field(s, 22, 8),
                  s[HEAD_SIZE..HEAD_SIZE + extSize], s[HEAD_SIZE + extSize..size]), size)
  }

  lemma FieldAt(pre: seq<Byte>, n: nat, width: nat, post: seq<Byte>)
    requires n < Pow256(width)
    ensures Field(pre + LE(n, width) + post, |pre|, width) == n
  {
    assert (pre + LE(n, width) + post)[|pre|..|pre| + width] == LE(n, width);
    LERoundTrip(n, width);
  }

  /** Each field of the head can be read back from its place. */
  lemma HeadFields(p: Pkg, crc: nat, rest: seq<Byte>)
    requires Packable(p) && crc < UINT32
    ensures var s := Head(p, crc) + rest;
      && Field(s, 0, 4) == MAGIC && Field(s, 4, 4) == p.command && Field(s, 8, 2) == p.pkgType
        && Field(s, 10, 4) == p.result
      && Field(s, 14, 4) == crc && Field(s, 18, 4) == p.sequence && Field(s, 22, 8) == p.reqId
      && Field(s, 30, 4) == |p.body| && Field(s, 34, 2) == |p.ext|
  {
    hide LE, Field;
    Widths();
    var f := [LE(MAGIC, 4), LE(p.command, 4), LE(p.pkgType, 2), LE(p.result, 4), LE(crc, 4), LE(p.sequence, 4),
      LE(p.reqId, 8), LE(|p.body|, 4), LE(|p.ext|, 2)];
    var s := Head(p, crc) + rest;
    var p1 := f[0]; var p2 := p1 + f[1]; var p3 := p2 + f[2]; var p4 := p3 + f[3];
    var p5 := p4 + f[4]; var p6 := p5 + f[5]; var p7 := p6 + f[6]; var p8 := p7 + f[7];
    assert s == [] + f[0] + s[4..]; FieldAt([], MAGIC, 4, s[4..]);
    assert s == p1 + f[1] + s[8..]; FieldAt(p1, p.command, 4, s[8..]);
    assert s == p2 + f[2] + s[10..]; FieldAt(p2, p.pkgType, 2, s[10..]);
    assert s == p3 + f[3] + s[14..]; FieldAt(p3, p.result, 4, s[14..]);
    assert s == p4 + f[4] + s[18..]; FieldAt(p4, crc, 4, s[18..]);
    assert s == p5 + f[5] + s[22..]; FieldAt(p5, p.sequence, 4, s[22..]);
    assert s == p6 + f[6] + s[30..]; FieldAt(p6, p.reqId, 8, s[30..]);
    assert s == p7 + f[7] + s[34..]; FieldAt(p7, |p.body|, 4, s[34..]);
    assert s == p8 + f[8] + s[36..]; FieldAt(p8, |p.ext|, 2, s[36..]);
  }

  lemma ClearedHead(p: Pkg, crc: nat)
    ensures Cleared(Bytes(p, crc)) == Bytes(p, 0)
  {
    var front := LE(MAGIC, 4) + LE(p.command, 4) + LE(p.pkgType, 2) + LE(p.result, 4);
    var back := LE(p.sequence, 4) + LE(p.reqId, 8) + LE(|p.body|, 4) + LE(|p.ext|, 2);
    assert |front| == 14 && |back| == 18;
    hide LE;
    ZeroBytes();
    ClearedMiddle(front, LE(crc, 4), back + p.ext + p.body);
    HeadSplit(p, crc, front, back);
    HeadSplit(p, 0, front, back);
  }

  lemma HeadSplit(p: Pkg, crc: nat, front: seq<Byte>, back: seq<Byte>)
    requires front == LE(MAGIC, 4) + LE(p.command, 4) + LE(p.pkgType, 2) + LE(p.result, 4)
    requires back == LE(p.sequence, 4) + LE(p.reqId, 8) + LE(|p.body|, 4) + LE(|p.ext|, 2)
    ensures Bytes(p, crc) == front + LE(crc, 4) + (back + p.ext + p.body)
  {
    hide LE;
    assert Head(p, crc) == front + LE(crc, 4) + back;
  }

  lemma ClearedMiddle(front: seq<Byte>, middle: seq<Byte>, rest: seq<Byte>)
    requires |front| == 14 && |middle| == 4 && |rest| >= 18
    ensures Cleared(front + middle + rest) == front + [0, 0, 0, 0] + rest
  {
    var s := front + middle + rest;
    assert s[..14] == front && s[18..] == rest;
  }

  lemma ZeroBytes()
    ensures LE(0, 4) == [0, 0, 0, 0]
  {
    assert LE(0, 3) == [0] + LE(0, 2);
    assert LE(0, 1) == [0] + LE(0, 0);
  }

  /** Decoding what was packed, with anything after it, gives the package and its size back. */
  lemma DecodePacked(p: Pkg, crc: Crc, rest: seq<Byte>)
    requires Packable(p)
    ensures Decode(Packed(p, crc) + rest, crc) == Whole(p, |Packed(p, crc)|)
  {
    hide LE, Field, FromLE, Head, Cleared;
    var sum := crc(Bytes(p, 0)) % UINT32;
    var b := Bytes(p, sum);
    var s := b + rest;
    assert s == Head(p, sum) + (p.ext + p.body + rest);
    HeadFields(p, sum, p.ext + p.body + rest);
    HeadLength(p, sum);
    assert s[..|b|] == b;
    ClearedHead(p, sum);
    assert s[HEAD_SIZE..HEAD_SIZE + |p.ext|] == p.ext;
    assert s[HEAD_SIZE + |p.ext|..|b|] == p.body;
  }

  lemma HeadLength(p: Pkg, crc: nat)
    ensures |Head(p, crc)| == HEAD_SIZE
  {
  }

  /** A proper prefix of a packed package is never taken for a package or an error. */
  lemma DecodePrefix(p: Pkg, crc: Crc, n: nat)
    requires Packable(p) && n < |Packed(p, crc)|
    ensures Decode(Packed(p, crc)[..n], crc) == NeedMore
  {
    hide LE, Field, FromLE, Head, Cleared;
    var sum := crc(Bytes(p, 0)) % UINT32;
    var b := Bytes(p, sum);
    HeadLength(p, sum);
    if n >= HEAD_SIZE {
      var s := b[..n];
      assert s == Head(p, sum) + s[HEAD_SIZE..];
      HeadFields(p, sum, s[HEAD_SIZE..]);
    }
  }

  /** Once a package or an error is seen, later bytes do not change it. */
  lemma DecodeStable(s: seq<Byte>, more: seq<Byte>, crc: Crc)
    requires !Decode(s, crc).NeedMore?
    ensures Decode(s + more, crc) == Decode(s, crc)
    ensures Decode(s, crc).Whole? ==> HEAD_SIZE <= Decode(s, crc).size <= |s|
  {
    hide FromLE, Cleared;
    var t := s + more;
    assert t[0..4] == s[0..4] && t[4..8] == s[4..8] && t[8..10] == s[8..10] && t[10..14] == s[10..14]
      && t[14..18] == s[14..18];
    assert t[18..22] == s[18..22] && t[22..30] == s[22..30] && t[30..34] == s[30..34] && t[34..36] == s[34..36];
    var extSize, bodySize := Field(s, 34, 2), Field(s, 30, 4);
    var size := (HEAD_SIZE + extSize + bodySize) % UINT32;
    if |s| >= size {
      assert t[..size] == s[..size];
      if size >= HEAD_SIZE + extSize + bodySize {
        assert t[HEAD_SIZE..HEAD_SIZE + extSize] == s[HEAD_SIZE..HEAD_SIZE + extSize];
        assert t[HEAD_SIZE + extSize..size] == s[HEAD_SIZE + extSize..size];
      }
    }
  }

  /** Only what was packed is taken for a package: it is at the front, byte for byte, with its checksum. */
  lemma WholeIsPacked(s: seq<Byte>, crc: Crc)
    requires Decode(s, crc).Whole?
    ensures var p, n := Decode(s, crc).pkg, Decode(s, crc).size;
      Typed(p) && n == HEAD_SIZE + |p.ext| + |p.body| < INT32 && n <= |s| && s[..n] == Packed(p, crc)
  {
    hide LE, FromLE, Cleared, Head;
    var p, n := Decode(s, crc).pkg, Decode(s, crc).size;
    var sum := Field(s, 14, 4);
    Widths();
    DecodeStable(s, [], crc);
    HeadRead(s, p, sum);
    assert s[..n] == s[..HEAD_SIZE] + p.ext + p.body;
    ClearedHead(p, sum);
    LEOfRead(s[4..8]); LEOfRead(s[8..10]); LEOfRead(s[10..14]); LEOfRead(s[18..22]); LEOfRead(s[22..30]);
    LEOfRead(s[34..36]);
  }

  lemma HeadRead(s: seq<Byte>, p: Pkg, sum: nat)
    requires |s| >= HEAD_SIZE && Field(s, 0, 4) == MAGIC && sum == Field(s, 14, 4)
    requires p.command == Field(s, 4, 4) && p.pkgType == Field(s, 8, 2) && p.result == Field(s, 10, 4)
    requires p.sequence == Field(s, 18, 4) && p.reqId == Field(s, 22, 8)
    requires |p.body| == Field(s, 30, 4) && |p.ext| == Field(s, 34, 2)
    ensures s[..HEAD_SIZE] == Head(p, sum)
  {
    hide LE, FromLE, Pow256;
    LEOfRead(s[0..4]); LEOfRead(s[4..8]); LEOfRead(s[8..10]); LEOfRead(s[10..14]); LEOfRead(s[14..18]);
    LEOfRead(s[18..22]); LEOfRead(s[22..30]); LEOfRead(s[30..34]); LEOfRead(s[34..36]);
    assert s[..HEAD_SIZE] == s[0..4] + s[4..8] + s[8..10] + s[10..14] + s[14..18] + s[18..22] + s[22..30] + s[30..34]
      + s[34..36];
  }

  /** The mark, as the bytes that come first. */
  const BEEP: seq<Byte> := ['b' as int, 'e' as int, 'e' as int, 'p' as int]

  lemma MarkFirst(s: seq<Byte>)
    requires |s| == 4
    ensures FromLE(s) == MAGIC <==> s == BEEP
  {
    var a: int, b: int, c: int, d: int := s[0], s[1], s[2], s[3];
    assert s[1..][1..][1..] == [s[3]] && s[1..][1..] == [s[2], s[3]];
    assert FromLE([s[3]]) == d;
    assert FromLE([s[2], s[3]]) == c + 256 * d;
    assert FromLE(s[1..]) == b + 256 * (c + 256 * d);
    assert FromLE(s) == a + 256 * (b + 256 * (c + 256 * d));
  }

  /** What is refused: bytes that do not begin with the mark, and whole packages with another checksum. */
  lemma DecodeRefuses(s: seq<Byte>, crc: Crc)
    requires |s| >= HEAD_SIZE
    ensures s[..4] != BEEP ==> Decode(s, crc) == Bad(-1)
    ensures var n := HEAD_SIZE + FromLE(s[34..36]) + FromLE(s[30..34]);
      s[..4] == BEEP && n < INT32 ==>
        && (Decode(s, crc).NeedMore? <==> |s| < n)
        && (Decode(s, crc).Whole? <==> |s| >= n && FromLE(s[14..18]) == crc(Cleared(s[..n])) % UINT32)
        && (Decode(s, crc) == Bad(-3) <==> |s| >= n && FromLE(s[14..18]) != crc(Cleared(s[..n])) % UINT32)
  {
    MarkFirst(s[..4]);
    assert s[0..4] == s[..4];
    hide FromLE, Cleared;
  }

  // ----- Sizes that wrap

  /** The size that a header announces. The program keeps it in 32 bits. */
  function Announced(s: seq<Byte>): nat
    requires |s| >= HEAD_SIZE
  {
    HEAD_SIZE + Field(s, 34, 2) + Field(s, 30, 4)
  }

  /** What `rpc_decode` answers, for any header: nothing yet, an error, or how many bytes the package takes. */
  function RpcDecode(s: seq<Byte>, crc: Crc): int {
    if |s| < HEAD_SIZE then 0
    else if Field(s, 0, 4) != MAGIC then -1
    else
      var size := Announced(s) % UINT32;
      if |s| < size then 0
      else if Field(s, 14, 4) != crc(Cleared(s)[..size]) % UINT32 then -3
      else if size >= INT32 then size - UINT32
      else size
  }

  /** Below 2^32 the answer is that of `Decode`; a package that is accepted lies within the bytes that it takes if
    and only if its header announces less than 2^32. */
  lemma AnnouncedInside(s: seq<Byte>, crc: Crc)
    requires |s| >= HEAD_SIZE
    ensures Announced(s) < UINT32 ==>
      RpcDecode(s, crc) == match Decode(s, crc) case NeedMore => 0 case Bad(code) => code case Whole(_, n) => n
    ensures RpcDecode(s, crc) > 0 ==> (Announced(s) <= RpcDecode(s, crc) <==> Announced(s) < UINT32)
  {
    hide FromLE;
    var size := Announced(s) % UINT32;
    if Announced(s) < UINT32 && |s| >= size {
      assert Cleared(s)[..size] == Cleared(s[..size]);
    }
  }

  /** What `rpc_pack` makes announces less than 2^32. */
  lemma PackedInside(p: Pkg, crc: Crc, rest: seq<Byte>)
    requires Packable(p)
    ensures var s := Packed(p, crc) + rest;
      |s| >= HEAD_SIZE && Announced(s) == |Packed(p, crc)| < UINT32 && RpcDecode(s, crc) == |Packed(p, crc)|
  {
    hide LE, Field, FromLE, Head, Cleared, Decode, RpcDecode;
    var sum := crc(Bytes(p, 0)) % UINT32;
    var s := Packed(p, crc) + rest;
    assert s == Head(p, sum) + (p.ext + p.body + rest);
    HeadFields(p, sum, p.ext + p.body + rest);
    DecodePacked(p, crc, rest);
    AnnouncedInside(s, crc);
  }

  /** Once something other than nothing is answered, later bytes do not change it. */
  lemma RpcDecodeStable(s: seq<Byte>, more: seq<Byte>, crc: Crc)
    requires RpcDecode(s, crc) != 0
    ensures RpcDecode(s + more, crc) == RpcDecode(s, crc)
  {
    hide FromLE;
    var t := s + more;
    assert t[0..4] == s[0..4] && t[14..18] == s[14..18] && t[30..34] == s[30..34] && t[34..36] == s[34..36];
    var size := Announced(s) % UINT32;
    if |s| >= size {
      assert Cleared(t)[..size] == Cleared(s)[..size];
    }
  }
}
