/** The byte buffers of a session (`network/nw_buf.c`). */
module Buffers {
  import opened Octets
  import opened Streams

  /** `nw_buf`: bytes `rpos..wpos` of a fixed array. */
  class NwBuf {
    const data: array<Byte>
    var rpos: nat
    var wpos: nat

    ghost predicate Valid()
      reads this
    {
      rpos <= wpos <= data.Length
    }

    ghost function Contents(): seq<Byte>
      requires Valid()
      reads this, data
    {
      data[rpos..wpos]
    }

    constructor (size: nat)
      ensures Valid() && fresh(data) && data.Length == size && rpos == wpos == 0
    {
      data := new Byte[size];
      rpos, wpos := 0, 0;
    }

    /** `nw_buf_write`: as much as there is room for. */
    method Write(s: seq<Byte>) returns (n: nat)
      requires Valid()
      modifies this`wpos, data
      ensures Valid() && n == Min(|s|, data.Length - old(wpos)) && wpos == old(wpos) + n
      ensures Contents() == old(Contents()) + s[..n]
    {
      n := Min(|s|, data.Length - wpos);
      ghost var before := data[..];
      forall i | 0 <= i < n { data[wpos + i] := s[i]; }
      wpos := wpos + n;
      assert data[rpos..old(wpos)] == before[rpos..old(wpos)];
      assert forall i | 0 <= i < n :: data[old(wpos) + i] == s[i];
      assert data[old(wpos)..wpos] == s[..n];
      assert data[rpos..wpos] == data[rpos..old(wpos)] + data[old(wpos)..wpos];
    }

    /** `nw_buf_shift`: the bytes move to the front of the array. */
    method Shift()
      requires Valid()
      modifies this`rpos, this`wpos, data
      ensures Valid() && rpos == 0 && Contents() == old(Contents())
    {
      if rpos == wpos {
        rpos, wpos := 0, 0;
      } else if rpos != 0 {
        forall i | 0 <= i < wpos - rpos { data[i] := data[rpos + i]; }
        wpos := wpos - rpos;
        rpos := 0;
      }
    }
  }

  lemma {:induction false} ConcatGrows(parts: seq<seq<Byte>>, more: seq<Byte>)
    requires parts != []
    ensures Concat(parts[..|parts| - 1] + [parts[|parts| - 1] + more]) == Concat(parts) + more
  {
    var longer := parts[..|parts| - 1] + [parts[|parts| - 1] + more];
    if |parts| == 1 {
      assert longer[1..] == [] && parts[1..] == [];
    } else {
      assert longer[1..] == parts[1..][..|parts| - 2] + [parts[1..][|parts| - 2] + more];
      ConcatGrows(parts[1..], more);
    }
  }

  lemma ConcatFirst(parts: seq<seq<Byte>>, n: nat)
    requires parts != [] && n <= |parts[0]|
    ensures Concat(parts[0 := parts[0][n..]]) == Concat(parts)[n..]
  {
    assert parts[0 := parts[0][n..]][1..] == parts[1..];
  }

  /** `nw_buf_list`: the chain of buffers, from head to tail; `parts` is what each of them holds. */
  class NwBufList {
    const size: nat
    const limit: nat
    var bufs: seq<NwBuf>
    ghost var parts: seq<seq<Byte>>
    ghost var Repr: set<object>

    /** No buffer of the chain is empty, none is shared, and a limit is kept. */
    ghost predicate Valid()
      reads this, Repr
    {
      && this in Repr
      && size > 0
      && (limit > 0 ==> |bufs| <= limit)
      && |parts| == |bufs|
      && (forall i :: 0 <= i < |bufs| ==>
            && bufs[i] in Repr && bufs[i].data in Repr && bufs[i].Valid()
            && bufs[i].data.Length == size && bufs[i].Contents() == parts[i] != [])
      && (forall i, j :: 0 <= i < j < |bufs| ==> bufs[i] != bufs[j] && bufs[i].data != bufs[j].data)
    }

    ghost function Contents(): seq<Byte>
      reads this
    {
      Concat(parts)
    }

    constructor (size: nat, limit: nat)
      requires size > 0
      ensures Valid() && fresh(Repr) && bufs == [] && this.size == size && this.limit == limit
    {
      this.size, this.limit, bufs, parts, Repr := size, limit, [], [], {this};
    }

    /** `nw_buf_list_write`: everything, or what fits when the limit is reached and the last buffer is full. */
    method Write(s: seq<Byte>) returns (n: nat)
      requires Valid()
      modifies Repr
      ensures Valid() && fresh(Repr - old(Repr))
      ensures n <= |s| && Contents() == old(Contents()) + s[..n]
      ensures n < |s| ==> limit > 0 && |bufs| == limit && bufs[limit - 1].wpos == size
    {
      hide Valid, Concat;
      WithinLimit();
      n := 0;
      if bufs != [] && bufs[|bufs| - 1].wpos < size {
        n := WriteTail(s);
      }
      while n < |s|
        invariant Valid() && fresh(Repr - old(Repr))
        invariant n <= |s| && Contents() == old(Contents()) + s[..n]
        invariant n < |s| && bufs != [] ==> bufs[|bufs| - 1].wpos == size
        invariant limit > 0 ==> |bufs| <= limit
        decreases |s| - n
      {
        if limit > 0 && |bufs| >= limit { return; }
        var w := WriteNew(s[n..]);
        Rejoin(s, n, w);
        n := n + w;
      }
      assert s[..n] == s;
    }

    static lemma Rejoin(s: seq<Byte>, n: nat, w: nat)
      requires n + w <= |s|
      ensures s[..n] + s[n..][..w] == s[..n + w]
    {
    }

    lemma WithinLimit()
      requires Valid()
      ensures this in Repr && size > 0 && (limit > 0 ==> |bufs| <= limit)
      ensures forall b :: b in bufs ==> b.wpos <= size
    {
    }

    /** Bytes are added to the last buffer of the chain. */
    method WriteTail(s: seq<Byte>) returns (n: nat)
      requires Valid() && bufs != [] && bufs[|bufs| - 1].wpos <= size
      modifies Repr
      ensures Valid() && bufs == old(bufs) && Repr == old(Repr)
      ensures n == Min(|s|, size - old(bufs[|bufs| - 1].wpos))
        && bufs[|bufs| - 1].wpos == old(bufs[|bufs| - 1].wpos) + n
      ensures Contents() == old(Contents()) + s[..n]
    {
      hide Concat;
      var k := |bufs| - 1;
      n := bufs[k].Write(s);
      ConcatGrows(parts, s[..n]);
      parts := parts[..k] + [parts[k] + s[..n]];
    }

    /** A new buffer at the end of the chain takes the bytes. */
    method WriteNew(s: seq<Byte>) returns (n: nat)
      requires Valid() && s != [] && size > 0 && (limit > 0 ==> |bufs| < limit)
      modifies this
      ensures Valid() && fresh(Repr - old(Repr)) && |bufs| == old(|bufs|) + 1
      ensures n == Min(|s|, size) && bufs[|bufs| - 1].wpos == n
      ensures Contents() == old(Contents()) + s[..n]
    {
      hide Valid, Concat;
      var buf := new NwBuf(size);
      n := buf.Write(s);
      Link(buf);
    }

    /** The chain grows by a buffer of its own. */
    method Link(buf: NwBuf)
      requires Valid() && buf.Valid() && buf.Contents() != [] && buf.data.Length == size
        && (limit > 0 ==> |bufs| < limit)
      requires buf !in Repr && buf.data !in Repr
      modifies this
      ensures Valid() && bufs == old(bufs) + [buf] && Contents() == old(Contents()) + old(buf.Contents())
      ensures Repr == old(Repr) + {buf, buf.data}
    {
      hide Concat;
      ConcatLast(parts, buf.Contents());
      bufs := bufs + [buf];
      parts := parts + [buf.Contents()];
      Repr := Repr + {buf, buf.data};
    }

    lemma Head()
      requires Valid() && bufs != []
      ensures bufs[0] in Repr && bufs[0].Valid() && bufs[0].Contents() == parts[0] && |parts| == |bufs|
    {
    }

    /** `nw_buf_list_shift`: the head of the chain goes. */
    method Shift()
      requires Valid()
      modifies this
      ensures Valid() && Repr == old(Repr)
      ensures old(bufs) == [] ==> bufs == [] && parts == old(parts)
      ensures old(bufs) != [] ==> bufs == old(bufs[1..]) && parts == old(parts[1..])
    {
      if bufs != [] {
        bufs, parts := bufs[1..], parts[1..];
      }
    }

    /** The first `n` bytes of the head are used up, but not all of it. */
    method Advance(n: nat)
      requires Valid() && bufs != [] && n < |parts[0]|
      modifies this`parts, bufs[0]
      ensures Valid() && Repr == old(Repr) && bufs == old(bufs) && Contents() == old(Contents()[n..])
    {
      bufs[0].rpos := bufs[0].rpos + n;
      ConcatFirst(parts, n);
      parts := parts[0 := parts[0][n..]];
    }
  }
}
