/** Segments of the buffered file descriptors: byte arrays with head room, filled and drained at both ends. */
module FsBuffer {
  import opened Words

  /** The bytes in opposite order. */
  function Rev(s: seq<byte>): (r: seq<byte>)
    ensures |r| == |s|
    ensures forall i {:trigger r[i]} :: 0 <= i < |s| ==> r[i] == s[|s| - 1 - i]
  {
    seq(|s|, i requires 0 <= i < |s| => s[|s| - 1 - i])
  }

  lemma RevOfSum(a: seq<byte>, b: seq<byte>)
    ensures Rev(a + b) == Rev(b) + Rev(a)
  {
  }

  lemma RevTwice(s: seq<byte>)
    ensures Rev(Rev(s)) == s
  {
  }

  /** The order in which a transfer moves the bytes: a packed one moves the last byte first. */
  function Ordered(packed: bool, s: seq<byte>): (r: seq<byte>)
    ensures |r| == |s|
  {
    if packed then Rev(s) else s
  }

  /** A packed transfer ends with the first byte, any other begins with it. */
  lemma PackedOrder(s: seq<byte>)
    ensures Ordered(false, s) == s && forall i :: 0 <= i < |s| ==> Ordered(true, s)[i] == s[|s| - 1 - i]
  {
  }

  /** s with the bytes x at position p. */
  function Patch(s: seq<byte>, p: nat, x: seq<byte>): (r: seq<byte>)
    requires p + |x| <= |s|
    ensures |r| == |s|
  {
    s[..p] + x + s[p + |x|..]
  }

  /** memcpy from a sequence. */
  method CopyIn(to: array<byte>, at: nat, from: seq<byte>)
    requires at + |from| <= to.Length
    modifies to
    ensures to[..] == Patch(old(to[..]), at, from)
  {
    forall i | 0 <= i < |from| {
      to[at + i] := from[i];
    }
  }

  /** fs_memcpy_r: copy last byte first. */
  method CopyReversed(to: array<byte>, at: nat, from: seq<byte>)
    requires at + |from| <= to.Length
    modifies to
    ensures to[..] == Patch(old(to[..]), at, Rev(from))
  {
    ghost var was := to[..];
    var d, n := at + |from|, 0;
    while n < |from|
      invariant 0 <= n <= |from| && d == at + |from| - n
      invariant to[..] == Patch(was, d, Rev(from[..n]))
    {
      d := d - 1;
      to[d] := from[n];
      n := n + 1;
    }
    assert from[..n] == from;
  }

  method CopyOrdered(to: array<byte>, at: nat, from: seq<byte>, packed: bool)
    requires at + |from| <= to.Length
    modifies to
    ensures to[..] == Patch(old(to[..]), at, Ordered(packed, from))
  {
    if packed {
      CopyReversed(to, at, from);
    } else {
      CopyIn(to, at, from);
    }
  }

  lemma SliceOfSlice(s: seq<byte>, h: nat, n: nat, i: nat, j: nat)
    requires h + n <= |s| && i <= j <= n
    ensures s[h..h + n][i..j] == s[h + i..h + j]
  {
    var t := s[h..h + n];
    assert forall k :: 0 <= k < n ==> t[k] == s[h + k];
  }

  class Segment {
    const data: array<byte>
    var head: nat
    var length: nat

    ghost predicate Ok()
      reads this
    {
      head + length <= data.Length
    }

    ghost function Bytes(): (b: seq<byte>)
      requires Ok()
      reads this, data
      ensures |b| == length
    {
      data[head..head + length]
    }

    /** FS_BUFFER_SPACE */
    function Space(): nat
      requires Ok()
      reads this
    {
      data.Length - length
    }

    /** FS_BUFFER_TAIL_ROOM */
    function TailRoom(): nat
      requires Ok()
      reads this
    {
      Space() - head
    }

    constructor (space: array<byte>)
      ensures Ok() && data == space && head == length == 0
    {
      data, head, length := space, 0, 0;
    }

    /** fs_buffer_init */
    method Init()
      modifies this`head, this`length
      ensures Ok() && head == length == 0
    {
      head, length := 0, 0;
    }

    /** fs_buffer_add_head: shift the bytes up. The source compares with all the space of the segment, which is not
        enough: the caller sees to it that the bytes are not shifted over the end of the segment, and even an empty
        segment is left with its head behind its end when it is asked for more than its tail room. */
    method AddHead(size: nat) returns (ok: bool)
      requires Ok() && (length > 0 && size <= Space() ==> head + size + length <= data.Length)
      modifies this`head, data
      ensures ok == (old(Space()) >= size) && length == old(length)
      ensures head == if ok then old(head) + size else old(head)
      ensures Ok() <==> !ok || size <= old(TailRoom())
      ensures Ok() ==> Bytes() == old(Bytes())
      ensures !ok || length == 0 ==> data[..] == old(data[..])
    {
      ok := Space() >= size;
      if ok {
        if length != 0 {
          forall i | 0 <= i < length {
            data[head + size + i] := data[head + i];
          }
        }
        head := head + size;
      }
    }

    /** The bytes may be shifted exactly as far as there is tail room, while the source lets them be shifted as far as
        there is space: a segment of 8 bytes with 4 of them in use from position 2 on accepts 3 bytes of head room, and
        its last byte goes to position 8. */
    lemma ShiftRoom(size: nat)
      requires Ok() && length > 0
      ensures head + size + length <= data.Length <==> size <= TailRoom()
      ensures data.Length == 8 && head == 2 && length == 4 ==> 3 <= Space() && head + 3 + (length - 1) == data.Length
    {
    }

    /** What a push of n bytes needs. */
    predicate Takes(n: nat, offset: nat, update: bool, onHead: bool)
      requires Ok()
      reads this
    {
      if update then length >= n + offset else if onHead then Space() >= n else TailRoom() >= n
    }

    /** What a push makes of the bytes b: new bytes go to either end, an update overwrites them offset bytes from it. */
    static ghost function Pushed(b: seq<byte>, x: seq<byte>, offset: nat, update: bool, onHead: bool): seq<byte>
      requires update ==> |x| + offset <= |b|
    {
      if !update then if onHead then x + b else b + x
      else Patch(b, if onHead then offset else |b| - (|x| + offset), x)
    }

    /** fs_buffer_push_offset */
    method Push(from: seq<byte>, offset: nat, packed: bool, update: bool, onHead: bool) returns (ok: bool)
      requires Ok() && (offset != 0 ==> update)
      modifies this`head, this`length, data
      ensures Ok()
      ensures ok <==> if update then |from| + offset <= old(length)
                      else if onHead then |from| + old(length) <= data.Length
                      else old(head + length) + |from| <= data.Length
      ensures ok && !update ==>
                Bytes() == if onHead then Ordered(packed, from) + old(Bytes()) else old(Bytes()) + Ordered(packed, from)
      ensures ok && update ==>
                Bytes() == Patch(old(Bytes()), if onHead then offset else old(length) - (|from| + offset),
                                 Ordered(packed, from))
      ensures !ok ==> head == old(head) && Bytes() == old(Bytes())
      ensures ok && !update ==>
                TailRoom() == if onHead then Min(old(TailRoom()), old(Space()) - |from|) else old(TailRoom()) - |from|
      ensures update ==> head == old(head)
    {
      hide Patch, Ordered, Rev, Pushed;
      ok := Takes(|from|, offset, update, onHead);
      if !ok {
        return;
      }
      PushedIs(Bytes(), Ordered(packed, from), offset, update, onHead);
      if !update && onHead && head < |from| {
        var _ := AddHead(|from| - head);
      }
      Place(from, offset, packed, update, onHead);
    }

    /** The copying part of fs_buffer_push_offset. */
    method Place(from: seq<byte>, offset: nat, packed: bool, update: bool, onHead: bool)
      requires Ok() &&
               (if update then |from| + offset <= length
                else offset == 0 && if onHead then |from| <= head else |from| <= TailRoom())
      modifies this`head, this`length, data
      ensures Ok() && Bytes() == Pushed(old(Bytes()), Ordered(packed, from), offset, update, onHead)
      ensures head == if !update && onHead then old(head) - |from| else old(head)
      ensures length == if update then old(length) else old(length) + |from|
    {
      hide Patch, Ordered, Rev, Pushed;
      ghost var b, whole, h := Bytes(), data[..], head;
      var to: nat;
      if onHead {
        if !update {
          head := head - |from|;
        }
        to := head + offset;
      } else {
        if !update {
          to := head + length;
        } else {
          to := head + (length - (|from| + offset));
        }
      }
      CopyOrdered(data, to, from, packed);
      if !update {
        length := length + |from|;
      }
      PushedBytes(whole, h, b, Ordered(packed, from), offset, update, onHead, to, head, length);
    }

    static lemma PushedIs(b: seq<byte>, x: seq<byte>, offset: nat, update: bool, onHead: bool)
      requires update ==> |x| + offset <= |b|
      ensures !update ==> Pushed(b, x, offset, update, onHead) == if onHead then x + b else b + x
      ensures update ==>
                Pushed(b, x, offset, update, onHead) == Patch(b, if onHead then offset else |b| - (|x| + offset), x)
    {
      hide Patch;
    }

    static lemma PushedBytes(whole: seq<byte>, h: nat, b: seq<byte>, x: seq<byte>, offset: nat, update: bool,
                             onHead: bool, to: nat, h': nat, n': nat)
      requires h + |b| <= |whole| && b == whole[h..h + |b|]
      requires if update then |x| + offset <= |b|
               else offset == 0 && if onHead then |x| <= h else h + |b| + |x| <= |whole|
      requires h' == (if !update && onHead then h - |x| else h) && n' == (if update then |b| else |b| + |x|)
      requires to == if onHead then h' + offset else if update then h + (|b| - (|x| + offset)) else h + |b|
      ensures Patch(whole, to, x)[h'..h' + n'] == Pushed(b, x, offset, update, onHead)
    {
      hide Patch;
      PushedLength(b, x, offset, update, onHead);
      hide Segment.Pushed;
      var p, q := Patch(whole, to, x)[h'..h' + n'], Pushed(b, x, offset, update, onHead);
      forall i | 0 <= i < n'
        ensures p[i] == q[i]
      {
        PushedByte(whole, h, b, x, offset, update, onHead, to, h', n', i);
      }
    }

    static lemma PushedLength(b: seq<byte>, x: seq<byte>, offset: nat, update: bool, onHead: bool)
      requires update ==> |x| + offset <= |b|
      ensures |Pushed(b, x, offset, update, onHead)| == if update then |b| else |b| + |x|
    {
    }

    static lemma PushedByte(whole: seq<byte>, h: nat, b: seq<byte>, x: seq<byte>, offset: nat, update: bool,
                            onHead: bool, to: nat, h': nat, n': nat, i: nat)
      requires h + |b| <= |whole| && b == whole[h..h + |b|]
      requires if update then |x| + offset <= |b|
               else offset == 0 && if onHead then |x| <= h else h + |b| + |x| <= |whole|
      requires h' == (if !update && onHead then h - |x| else h) && n' == (if update then |b| else |b| + |x|)
      requires to == if onHead then h' + offset else if update then h + (|b| - (|x| + offset)) else h + |b|
      requires i < n'
      ensures h' + i < |whole| && i < |Pushed(b, x, offset, update, onHead)|
      ensures Patch(whole, to, x)[h' + i] == Pushed(b, x, offset, update, onHead)[i]
    {
      PatchAt(whole, to, x, h' + i);
      if update {
        PatchAt(b, to - h, x, i);
      }
    }

    static lemma PatchAt(s: seq<byte>, p: nat, x: seq<byte>, i: nat)
      requires p + |x| <= |s| && i < |s|
      ensures Patch(s, p, x)[i] == if p <= i < p + |x| then x[i - p] else s[i]
    {
    }

    /** fs_buffer_pull_offset */
    method Pull(to: array?<byte>, at: nat, size: nat, offset: nat, packed: bool, peek: bool,
                fromTail: bool)
      returns (ok: bool)
      requires Ok() && (offset != 0 ==> peek) && (to != null ==> to != data && at + size <= to.Length)
      modifies if peek then {} else {this}, to
      ensures Ok() && ok == (old(length) >= size + offset)
      ensures !ok || peek ==> Bytes() == old(Bytes()) && head == old(head)
      ensures ok && !peek ==> Bytes() == if fromTail then old(Bytes())[..old(length) - size] else old(Bytes())[size..]
      ensures to != null ==>
                to[..] ==
                  if ok then Patch(old(to[..]), at, Ordered(packed, Piece(old(Bytes()), size, offset, fromTail)))
                  else old(to[..])
    {
      hide Patch, Ordered, Rev;
      ok := length >= size + offset;
      if !ok {
        return;
      }
      if to != null {
        Fetch(to, at, if fromTail then length - (size + offset) else offset, size, packed);
      }
      if !peek {
        Drop(size, fromTail);
      }
    }

    /** Copy bytes of the segment out. */
    method Fetch(to: array<byte>, at: nat, from: nat, size: nat, packed: bool)
      requires Ok() && from + size <= length && to != data && at + size <= to.Length
      modifies to
      ensures to[..] == Patch(old(to[..]), at, Ordered(packed, Bytes()[from..from + size])) && Bytes() == old(Bytes())
    {
      hide Patch, Ordered, Rev;
      SliceOfSlice(data[..], head, length, from, from + size);
      assert data[head + from..head + from + size] == data[..][head + from..head + from + size];
      CopyOrdered(to, at, data[head + from..head + from + size], packed);
    }

    /** Give up bytes at either end. */
    method Drop(size: nat, fromTail: bool)
      requires Ok() && size <= length
      modifies this`head, this`length
      ensures Ok() && length == old(length) - size
      ensures Bytes() == if fromTail then old(Bytes())[..old(length) - size] else old(Bytes())[size..]
    {
      SliceOfSlice(data[..], head, length, 0, length - size);
      SliceOfSlice(data[..], head, length, size, length);
      if !fromTail {
        head := head + size;
      }
      length := length - size;
    }
  }

  /** The size bytes that lie offset bytes from either end of b. */
  function Piece(b: seq<byte>, size: nat, offset: nat, fromTail: bool): (r: seq<byte>)
    requires size + offset <= |b|
    ensures |r| == size
  {
    if fromTail then b[|b| - (size + offset)..|b| - offset] else b[offset..offset + size]
  }

  /** Twice head room in an empty segment of 8 bytes: the second time it has 2 bytes left, is asked for 4 and does not
      refuse. Its head is behind its end then. */
  method HeadBehindEnd() returns (s: Segment)
    ensures fresh(s) && s.data.Length == 8 && s.length == 0 && s.head == 10 && !s.Ok()
  {
    var space := new byte[8];
    s := new Segment(space);
    var first := s.AddHead(6);
    var second := s.AddHead(4);
  }
}
