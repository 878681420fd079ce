/** Pipes: a ring of bytes that holds messages with in-band headers, as a queue of byte strings. */
module Pipe {
  import opened Words

  const HEADER := 8
  const MAX_SIZE := 0x7FFF_FFFF

  /** ALLIGN_CEIL */
  function Align(n: nat): (r: nat)
    ensures r % 8 == 0 && n <= r < n + 8
  {
    AlignedUp(n);
    if n % 8 == 0 then n else n - n % 8 + 8
  }

  lemma AlignedUp(n: nat)
    ensures (n - n % 8 + 8) % 8 == 0
  {
    DivModUnique(n - n % 8 + 8, 8, n / 8 + 1, 0);
  }

  /** What a message of n bytes at position pos takes of the ring: header, bytes and padding, and what is left at the
      end of the ring when no header fits there any more. */
  function Span(pos: nat, n: nat, size: nat): (s: nat)
    ensures s >= HEADER + Align(n)
  {
    var x := pos + HEADER + Align(n);
    if x <= size < x + HEADER then size - pos else HEADER + Align(n)
  }

  /** What the messages of q take, the first of them at position pos. */
  function Used(pos: nat, q: seq<seq<byte>>, size: nat): (u: nat)
    ensures if q == [] then u == 0 else u >= HEADER
    decreases |q|
  {
    if q == [] then 0
    else
      var n := Span(pos, |q[0]|, size);
      n + Used(Wrap(pos + n, size), q[1..], size)
  }

  /** The header of a message of n bytes: the valid flag and the length, least significant byte first. */
  function Header(n: nat): (h: seq<byte>)
    ensures |h| == HEADER
  {
    [1, 0, 0, 0, ByteOf(n, 0), ByteOf(n, 1), ByteOf(n, 2), ByteOf(n, 3)]
  }

  /** The header in memory: a word that is 1, and the number of bytes. */
  lemma HeaderWords(n: nat)
    requires n < U32
    ensures var h := Header(n);
            LdDword(h[0], h[1], h[2], h[3]) == 1 && LdDword(h[4], h[5], h[6], h[7]) == n
  {
    PaddedSizes();
    hide ByteOf, LdDword;
    LoadStoreDword(n);
  }

  /** The bytes s start with the messages of q, each behind its header and followed by its padding. In the ring s
      begins at position pos. */
  ghost predicate Coded(s: seq<byte>, pos: nat, q: seq<seq<byte>>, size: nat)
    decreases |q|
  {
    q == [] ||
    var n := Span(pos, |q[0]|, size);
    n <= |s| && s[..HEADER] == Header(|q[0]|) && s[HEADER..HEADER + |q[0]|] == q[0] &&
    Coded(s[n..], Wrap(pos + n, size), q[1..], size)
  }

  /** The ring read once around from pos on. */
  function Ring(d: seq<byte>, pos: nat): (r: seq<byte>)
    requires pos <= |d|
    ensures |r| == |d|
  {
    d[pos..] + d[..pos]
  }

  function Wrap(x: nat, size: nat): (r: nat)
    ensures x < size ==> r == x
    ensures x < 2 * size ==> r < size
  {
    if x >= size then x - size else x
  }

  /** A header fits wherever a message ends. */
  lemma HeaderFits(pos: nat, n: nat, size: nat)
    requires pos + HEADER <= size && Span(pos, n, size) <= size
    ensures Wrap(pos + Span(pos, n, size), size) + HEADER <= size
  {
  }

  /** Two steps around the ring. */
  lemma WrapTwice(pos: nat, a: nat, b: nat, size: nat)
    requires pos < size && a + b <= size
    ensures Wrap(pos + a, size) < size
    ensures Wrap(Wrap(pos + a, size) + b, size) == Wrap(pos + (a + b), size)
  {
  }

  /** Reading from further on. */
  lemma RingFurther(d: seq<byte>, pos: nat, u: nat)
    requires pos < |d| && u <= |d|
    ensures Wrap(pos + u, |d|) <= |d|
    ensures Ring(d, Wrap(pos + u, |d|)) == Ring(d, pos)[u..] + Ring(d, pos)[..u]
  {
  }

  lemma {:induction false} UsedOfMore(pos: nat, q: seq<seq<byte>>, m: seq<byte>, size: nat)
    requires pos < size && Used(pos, q, size) <= size
    ensures Used(pos, q + [m], size) ==
              Used(pos, q, size) + Span(Wrap(pos + Used(pos, q, size), size), |m|, size)
    decreases |q|
  {
    hide Span, Wrap, Align;
    if q == [] {
      assert [] + [m] == [m] && [m][1..] == [];
      WrapTwice(pos, 0, 0, size);
      assert Used(pos, [m], size) == Span(pos, |m|, size) + Used(Wrap(pos + Span(pos, |m|, size), size), [], size);
      assert Wrap(pos, size) == pos;
    } else {
      var n := Span(pos, |q[0]|, size);
      var next := Wrap(pos + n, size);
      assert (q + [m])[1..] == q[1..] + [m];
      WrapTwice(pos, n, Used(next, q[1..], size), size);
      UsedOfMore(next, q[1..], m, size);
    }
  }

  /** Only the bytes in use matter. */
  lemma {:induction false} CodedByPrefix(s: seq<byte>, t: seq<byte>, pos: nat, q: seq<seq<byte>>, size: nat)
    requires var u := Used(pos, q, size); Coded(s, pos, q, size) && u <= |s| && u <= |t| && s[..u] == t[..u]
    ensures Coded(t, pos, q, size)
    decreases |q|
  {
    hide Header, Span, Wrap, Align;
    if q != [] {
      var n, u := Span(pos, |q[0]|, size), Used(pos, q, size);
      assert forall i :: 0 <= i < u ==> s[..u][i] == t[..u][i];
      assert t[..HEADER] == s[..HEADER] && t[HEADER..HEADER + |q[0]|] == s[HEADER..HEADER + |q[0]|];
      CodedByPrefix(s[n..], t[n..], Wrap(pos + n, size), q[1..], size);
    }
  }

  /** A message put behind those in use is the last of the queue. */
  lemma {:induction false} CodedWithMore(s: seq<byte>, pos: nat, q: seq<seq<byte>>, m: seq<byte>, size: nat)
    requires pos < size && Coded(s, pos, q, size) && |s| <= size && Behind(s, pos, Used(pos, q, size), m, size)
    ensures Coded(s, pos, q + [m], size)
    decreases |q|
  {
    hide Header, Span, Wrap, Align, Behind;
    if q == [] {
      CodedAlone(s, pos, m, size);
      assert q + [m] == [m];
    } else {
      var k := Span(pos, |q[0]|, size);
      var next := Wrap(pos + k, size);
      assert (q + [m])[1..] == q[1..] + [m];
      FurtherBehind(s, pos, k, Used(next, q[1..], size), m, size);
      CodedWithMore(s[k..], next, q[1..], m, size);
    }
  }

  /** The message m lies u bytes on in s, which begins at position pos. */
  predicate Behind(s: seq<byte>, pos: nat, u: nat, m: seq<byte>, size: nat) {
    && u + Span(Wrap(pos + u, size), |m|, size) <= |s|
    && s[u..u + HEADER] == Header(|m|) && s[u + HEADER..u + HEADER + |m|] == m
  }

  lemma CodedAlone(s: seq<byte>, pos: nat, m: seq<byte>, size: nat)
    requires pos < size && Behind(s, pos, 0, m, size)
    ensures Coded(s, pos, [m], size)
  {
    hide Header, Span, Align;
    assert [m][1..] == [];
  }

  lemma FurtherBehind(s: seq<byte>, pos: nat, k: nat, u: nat, m: seq<byte>, size: nat)
    requires pos < size && k <= |s| <= size && Behind(s, pos, k + u, m, size)
    ensures Wrap(pos + k, size) < size && Behind(s[k..], Wrap(pos + k, size), u, m, size)
  {
    hide Header, Span, Wrap, Align;
    WrapTwice(pos, k, u, size);
    SliceOfRest(s, k, u, u + HEADER);
    SliceOfRest(s, k, u + HEADER, u + HEADER + |m|);
  }

  lemma SliceOfRest(s: seq<byte>, k: nat, i: nat, j: nat)
    requires i <= j && k + j <= |s|
    ensures s[k..][i..j] == s[k + i..k + j]
  {
  }

  /** In d' a message has been stored at position pos of the ring d, and the other bytes are those of d. */
  ghost predicate HasStamp(d: seq<byte>, d': seq<byte>, pos: nat, m: seq<byte>) {
    && pos <= |d| == |d'| && HEADER + |m| <= |d|
    && Ring(d', pos) == Header(|m|) + m + Ring(d, pos)[HEADER + |m|..]
  }

  /** What a stored message changes: from its position on, around the end of the buffer, 8 bytes of header and its
      bytes, and nothing else. */
  lemma StampOnRing(d: seq<byte>, d': seq<byte>, pos: nat, m: seq<byte>, o: nat)
    requires HasStamp(d, d', pos, m) && o < |d|
    ensures var k := if pos + o < |d| then pos + o else pos + o - |d|;
            d'[k] == if o < 8 then Header(|m|)[o] else if o < 8 + |m| then m[o - 8] else d[k]
  {
    var k := if pos + o < |d| then pos + o else pos + o - |d|;
    assert Ring(d', pos)[o] == d'[k] && Ring(d, pos)[o] == d[k];
  }

  /** Stamping a message at the free position leaves the messages in use alone and queues the new one. */
  lemma Stamped(d: seq<byte>, d': seq<byte>, message: nat, free: nat, q: seq<seq<byte>>, m: seq<byte>)
    requires |d| == |d'| && message < |d| && free < |d|
    requires var u := Used(message, q, |d|); free == Wrap(message + u, |d|) && u + Span(free, |m|, |d|) <= |d|
    requires Coded(Ring(d, message), message, q, |d|)
    requires HasStamp(d, d', free, m)
    ensures Coded(Ring(d', message), message, q + [m], |d|)
  {
    hide Coded, Used, Header, Span, Ring, Wrap, Turned;
    var u := Used(message, q, |d|);
    RingBack(d, message, free, u);
    RingBack(d', message, free, u);
    StampTurned(Ring(d, free), Ring(d', free), u, Header(|m|), m);
    CodedByPrefix(Ring(d, message), Ring(d', message), message, q, |d|);
    CodedWithMore(Ring(d', message), message, q, m, |d|);
  }

  lemma RingBack(d: seq<byte>, message: nat, free: nat, u: nat)
    requires message < |d| && free < |d| && u <= |d| && free == Wrap(message + u, |d|)
    ensures Ring(d, message) == Turned(Ring(d, free), |d| - u)
  {
    var y := Ring(d, free);
    forall i | 0 <= i < |d|
      ensures Ring(d, message)[i] == Turned(y, |d| - u)[i]
    {
      var k := if i < u then |d| - u + i else i - u;
      RingAt(d, message, i);
      RingAt(d, free, k);
      assert Turned(y, |d| - u)[i] == y[k];
    }
  }

  lemma StampTurned(x: seq<byte>, x': seq<byte>, u: nat, h: seq<byte>, m: seq<byte>)
    requires u + |h| + |m| <= |x| && x' == h + m + x[|h| + |m|..]
    ensures var r, r' := Turned(x, |x| - u), Turned(x', |x| - u);
            r'[..u] == r[..u] && r'[u..u + |h|] == h && r'[u + |h|..u + |h| + |m|] == m
  {
    hide Turned;
    var n := |x|;
    TurnedParts(x, n - u);
    TurnedParts(x', n - u);
    StampParts(x, x', n - u, h, m);
    SliceOfRest(Turned(x', n - u), u, 0, |h|);
    SliceOfRest(Turned(x', n - u), u, |h|, |h| + |m|);
  }

  lemma StampParts(x: seq<byte>, x': seq<byte>, k: nat, h: seq<byte>, m: seq<byte>)
    requires |h| + |m| <= k <= |x| && x' == h + m + x[|h| + |m|..]
    ensures x'[k..] == x[k..] && x'[..k][0..|h|] == h && x'[..k][|h|..|h| + |m|] == m
  {
    forall i | 0 <= i < |x|
      ensures x'[i] == if i < |h| then h[i] else if i < |h| + |m| then m[i - |h|] else x[i]
    {
    }
  }

  /** A sequence read from position k on, and then from the top. */
  function Turned(x: seq<byte>, k: nat): (r: seq<byte>)
    requires k <= |x|
    ensures |r| == |x|
  {
    x[k..] + x[..k]
  }

  lemma TurnedParts(x: seq<byte>, k: nat)
    requires k <= |x|
    ensures Turned(x, k)[..|x| - k] == x[k..] && Turned(x, k)[|x| - k..] == x[..k]
  {
  }

  /** How far position k lies behind pos, around the ring. */
  function Offset(k: nat, pos: nat, size: nat): nat
    requires k < size && pos < size
  {
    if k >= pos then k - pos else k + size - pos
  }

  lemma RingOfOffsets(d: seq<byte>, pos: nat, x: seq<byte>)
    requires pos < |d| == |x| && forall k {:trigger d[k]} :: 0 <= k < |d| ==> d[k] == x[Offset(k, pos, |d|)]
    ensures Ring(d, pos) == x
  {
    forall i | 0 <= i < |d|
      ensures Ring(d, pos)[i] == x[i]
    {
      var k := Wrap(pos + i, |d|);
      assert d[k] == x[Offset(k, pos, |d|)];
    }
  }

  lemma RingAt(d: seq<byte>, pos: nat, i: nat)
    requires pos < |d| && i < |d|
    ensures Wrap(pos + i, |d|) < |d| && Ring(d, pos)[i] == d[Wrap(pos + i, |d|)]
  {
  }

  /** The first message of the queue, as the header in the ring tells it. */
  lemma FrontHeader(d: seq<byte>, pos: nat, q: seq<seq<byte>>)
    requires pos + HEADER <= |d| && q != [] && Coded(Ring(d, pos), pos, q, |d|) && |q[0]| < U32
    ensures Span(pos, |q[0]|, |d|) <= |d| && d[pos..pos + HEADER] == Header(|q[0]|)
    ensures Ring(d, pos)[HEADER..HEADER + |q[0]|] == q[0]
    ensures d[pos] == 1 && LdDword(d[pos + 4], d[pos + 5], d[pos + 6], d[pos + 7]) == |q[0]|
  {
    hide LdDword, ByteOf;
    var h := d[pos..pos + HEADER];
    assert Ring(d, pos)[..HEADER] == h;
    assert d[pos] == h[0] && d[pos + 4] == h[4] && d[pos + 5] == h[5] && d[pos + 6] == h[6] && d[pos + 7] == h[7];
    LoadStoreDword(|q[0]|);
  }

  lemma CodedRest(s: seq<byte>, pos: nat, q: seq<seq<byte>>, size: nat)
    requires q != [] && Coded(s, pos, q, size)
    ensures var n := Span(pos, |q[0]|, size); n <= |s| && Coded(s[n..], Wrap(pos + n, size), q[1..], size)
  {
  }

  /** The rest of the queue starts behind the first message. */
  lemma WithoutFront(d: seq<byte>, pos: nat, q: seq<seq<byte>>)
    requires pos < |d| && q != [] && Coded(Ring(d, pos), pos, q, |d|) && Used(pos, q, |d|) <= |d|
    ensures var p := Wrap(pos + Span(pos, |q[0]|, |d|), |d|); p <= |d| && Coded(Ring(d, p), p, q[1..], |d|)
  {
    hide Ring, Coded, Used, Span, Wrap, Align;
    var s, n := Ring(d, pos), Span(pos, |q[0]|, |d|);
    var p := Wrap(pos + n, |d|);
    CodedRest(s, pos, q, |d|);
    UsedOfRest(pos, q, |d|);
    RingFurther(d, pos, n);
    PrefixOfSum(s[n..], s[..n], Used(p, q[1..], |d|));
    CodedByPrefix(s[n..], s[n..] + s[..n], p, q[1..], |d|);
  }

  lemma PrefixOfSum(a: seq<byte>, b: seq<byte>, u: nat)
    requires u <= |a|
    ensures (a + b)[..u] == a[..u]
  {
  }

  /** The messages of q lie in the ring d, from message up to free; an empty ring has been reset. */
  ghost predicate Placed(d: seq<byte>, message: nat, free: nat, q: seq<seq<byte>>)
    ensures Placed(d, message, free, q) ==>
              && |d| <= MAX_SIZE && message + HEADER <= |d| && free + HEADER <= |d|
              && Used(message, q, |d|) <= |d| && free == Wrap(message + Used(message, q, |d|), |d|)
  {
    && |d| <= MAX_SIZE && message + HEADER <= |d| && free + HEADER <= |d|
    && Used(message, q, |d|) <= |d| && free == Wrap(message + Used(message, q, |d|), |d|)
    && Coded(Ring(d, message), message, q, |d|)
    && (q == [] ==> message == 0 && d[0] % 2 == 0)
    && forall m :: m in q ==> |m| < 0x8000_0000
  }

  lemma FlushedIsPlaced(d: seq<byte>, size: nat)
    requires HEADER <= |d| <= MAX_SIZE
    ensures Placed(With(d, 0, Dword(0)), 0, 0, [])
  {
    PlacedEmpty(With(d, 0, Dword(0)));
  }

  /** Past the first message is where the position goes. */
  lemma FrontSpan(d: seq<byte>, message: nat, free: nat, q: seq<seq<byte>>)
    requires Placed(d, message, free, q) && q != []
    ensures PastBytes(message + HEADER, |q[0]|, |d|) == Wrap(message + Span(message, |q[0]|, |d|), |d|)
  {
    UsedOfRest(message, q, |d|);
    PastIsNextToo(message, |q[0]|, |d|);
  }

  lemma PlacedEmpty(d: seq<byte>)
    requires HEADER <= |d| <= MAX_SIZE && d[0] % 2 == 0
    ensures Placed(d, 0, 0, [])
  {
  }

  /** A message stored at the free position joins the queue. */
  lemma PlacedPush(d0: seq<byte>, d: seq<byte>, message: nat, start: nat, free: nat, q: seq<seq<byte>>, m: seq<byte>)
    requires Placed(d0, message, start, q) && |d| == |d0| && |m| < 0x8000_0000
    requires Used(message, q, |d|) + Span(start, |m|, |d|) <= |d|
    requires HasStamp(d0, d, start, m)
    requires free == Wrap(start + Span(start, |m|, |d|), |d|)
    ensures Placed(d, message, free, q + [m])
    ensures Used(message, q + [m], |d|) == Used(message, q, |d|) + Span(start, |m|, |d|)
  {
    hide Coded, Ring, Header, Used, Wrap, Span, Align, HasStamp;
    HeaderFits(start, |m|, |d|);
    Stamped(d0, d, message, start, q, m);
    Joined(message, start, q, m, |d|);
    NoneTooLong(q, m);
  }

  lemma NoneTooLong(q: seq<seq<byte>>, m: seq<byte>)
    requires (forall x :: x in q ==> |x| < 0x8000_0000) && |m| < 0x8000_0000
    ensures forall x :: x in q + [m] ==> |x| < 0x8000_0000
  {
  }

  /** Behind the first message the rest of the queue is placed, unless nothing is left. */
  lemma PlacedPop(d: seq<byte>, message: nat, free: nat, q: seq<seq<byte>>)
    requires Placed(d, message, free, q) && q != []
    ensures var p := Wrap(message + Span(message, |q[0]|, |d|), |d|);
            (p == free <==> q[1..] == []) && (q[1..] != [] ==> Placed(d, p, free, q[1..]))
  {
    hide Coded, Ring, Used, Wrap, Span, Align;
    FreeBehindRest(message, free, q, |d|);
    WithoutFront(d, message, q);
    RestOf(q);
  }

  lemma FreeBehindRest(message: nat, free: nat, q: seq<seq<byte>>, size: nat)
    requires message + HEADER <= size && q != []
    requires Used(message, q, size) <= size && free == Wrap(message + Used(message, q, size), size)
    ensures var p := Wrap(message + Span(message, |q[0]|, size), size);
            && p + HEADER <= size && (p == free <==> q[1..] == [])
            && Used(p, q[1..], size) <= size && free == Wrap(p + Used(p, q[1..], size), size)
  {
    var n := Span(message, |q[0]|, size);
    hide Span, Align;
    UsedOfRest(message, q, size);
    HeaderFits(message, |q[0]|, size);
    hide Used, Wrap;
    EmptyTest(message, n, Used(Wrap(message + n, size), q[1..], size), size);
  }

  class PipeFile {
    const data: array<byte>
    const size: nat
    var message: nat
    var free: nat
    var dataAvailable: bool
    var spaceAvailable: bool
    /** The messages in the pipe, first come first; and everything ever written and read. */
    ghost var queue: seq<seq<byte>>
    ghost var written: seq<seq<byte>>
    ghost var taken: seq<seq<byte>>

    ghost predicate Valid()
      reads this, data
    {
      && size == data.Length && Placed(data[..], message, free, queue)
      && (dataAvailable <==> queue != [])
      && written == taken + queue
    }

    /** pipe_create */
    constructor (buffer: array<byte>)
      requires HEADER <= buffer.Length <= MAX_SIZE
      modifies buffer
      ensures Valid() && data == buffer && queue == written == taken == [] && spaceAvailable
    {
      data, size := buffer, buffer.Length;
      message, free := 0, 0;
      dataAvailable, spaceAvailable := false, true;
      queue, written, taken := [], [], [];
      new;
      StoreDword(0, 0);
      PlacedEmpty(data[..]);
    }

    method StoreDword(pos: nat, x: nat)
      requires pos + 4 <= data.Length && x < U32
      modifies data
      ensures data[..] == With(old(data[..]), pos, Dword(x))
    {
      data[pos], data[pos + 1], data[pos + 2], data[pos + 3] := ByteOf(x, 0), ByteOf(x, 1), ByteOf(x, 2), ByteOf(x, 3);
    }

    /** The bytes of the ring in use. */
    ghost function InUse(): nat
      reads this
    {
      Used(message, queue, size)
    }

    /** A message of n bytes is let in: the pipe is empty, or has room for it and one byte more. */
    ghost predicate Accepts(n: nat)
      reads this
    {
      queue == [] || InUse() + HEADER + Align(n) < size
    }

    /** Write the header of a message, not yet valid, and move past it. */
    method PutHeader(n: nat)
      requires size == data.Length && free + HEADER <= size && n < U32
      modifies this`free, data
      ensures free == Wrap(old(free) + HEADER, size)
      ensures data[..] == With(old(data[..]), old(free), NotYetValid(n))
    {
      hide ByteOf, With, Dword, NotYetValid;
      ghost var d0 := data[..];
      StoreDword(free, 0);
      StoreDword(free + 4, n);
      TwoStores(d0, free, n);
      free := free + HEADER;
      if free == size {
        free := 0;
      }
    }

    /** Copy n bytes to the free position on, in two parts if the end of the buffer comes between. The second part must
        end in the buffer. */
    method PutBytes(src: array<byte>, n: nat)
      requires size == data.Length && free < size && n <= (size - free) + size && n <= src.Length && src != data
      modifies data
      ensures n <= size ==> WithBytes(old(data[..]), data[..], free, src[..n])
    {
      var part := if free + n > size then size - free else n;
      forall i | 0 <= i < part {
        data[free + i] := src[i];
      }
      forall i | 0 <= i < n - part {
        data[i] := src[part + i];
      }
    }

    /** Move the free position past n bytes and their padding, and back to the top when no header fits behind them. */
    method PassBytes(n: nat)
      requires 0 < size
      modifies this`free
      ensures free == PastBytes(old(free), n, size)
    {
      free := free + Align(n);
      if free > size {
        free := free % size;
      } else if free + HEADER > size {
        free := 0;
      }
    }

    /** Store header and bytes of a message, then set its valid flag. */
    method PutMessage(src: array<byte>, n: nat)
      requires size == data.Length && free + HEADER <= size && CopyStays(n)
      requires n <= src.Length && src != data && n < U32
      modifies this`free, data
      ensures free == PastBytes(Wrap(old(free) + HEADER, size), n, size)
      ensures HEADER + n <= size ==> HasStamp(old(data[..]), data[..], old(free), src[..n])
    {
      hide Header, Ring, With, NotYetValid, WithBytes, Align, Span, HasStamp, PastBytes;
      ghost var d0 := data[..];
      var start := free;
      PutHeader(n);
      ghost var d1 := data[..];
      PutBytes(src, n);
      ghost var d2 := data[..];
      PassBytes(n);
      data[start] := data[start] - data[start] % 2 + 1;
      if HEADER + n <= size {
        MessagePut(d0, d1, d2, data[..], start, src[..n]);
      }
    }

    /** The bytes of a message behind its header at the free position do not run past the end of the buffer twice. */
    predicate CopyStays(n: nat)
      requires free + HEADER <= size
      reads this
    {
      n <= (size - Wrap(free + HEADER, size)) + size
    }

    /** The test pipe_write makes. */
    predicate LetsIn(n: nat)
      requires size == data.Length && message < size
      reads this, data
    {
      var required := Align(n) + HEADER;
      || data[message] % 2 == 0
      || (free > message && free + required < size + message)
      || (free < message && free + required < message)
    }

    /** No header fits any more, as pipe_write sees it. */
    predicate RunsOut()
      reads this
    {
      (free > message && free + HEADER >= size + message) || (free < message && free + HEADER >= message)
    }

    /** pipe_write on any state of the pipe whose positions leave room for a header. */
    method Store(src: array<byte>, n: nat) returns (r: nat)
      requires size == data.Length && message + HEADER <= size && free + HEADER <= size
      requires n <= src.Length && src != data && n < 0x8000_0000 && (LetsIn(n) ==> CopyStays(n))
      modifies this`free, this`dataAvailable, this`spaceAvailable, data
      ensures r == if old(LetsIn(n)) then n else 0
      ensures if old(LetsIn(n))
              then free == PastBytes(Wrap(old(free) + HEADER, size), n, size) && dataAvailable &&
                   (spaceAvailable <==> old(spaceAvailable) && !RunsOut()) &&
                   (HEADER + n <= size ==> HasStamp(old(data[..]), data[..], old(free), src[..n]))
              else data[..] == old(data[..]) && free == old(free) && dataAvailable == old(dataAvailable) &&
                   spaceAvailable == old(spaceAvailable)
    {
      hide HasStamp, PastBytes, Align;
      r := 0;
      if LetsIn(n) {
        PutMessage(src, n);
        if RunsOut() {
          spaceAvailable := false;
        }
        dataAvailable := true;
        r := n;
      }
    }

    /** The tests in bytes. With messages in the pipe, what is free of the ring lies from the free position up to the
        message position, around the end of the buffer. A message is let in when its header and its bytes, rounded up,
        are less than that, and into an empty pipe always; space runs out when at most a header is free, but some is. */
    lemma RoomLeft(n: nat)
      requires Valid()
      ensures var room := if free > message then size - (free - message) else message - free;
              && (queue != [] ==> InUse() == size - room)
              && (LetsIn(n) <==> queue == [] || 8 + Align(n) < room)
              && (Accepts(n) <==> queue == [] || 8 + Align(n) < room)
              && (queue != [] ==> (RunsOut() <==> 0 < room <= 8))
    {
      LetsInAccepted(n);
      if queue != [] {
        RunsOutTells();
      }
      hide Align;
    }

    lemma CopyMayStart(n: nat)
      requires Valid() && (queue == [] ==> CopyStays(n))
      ensures LetsIn(n) ==> CopyStays(n)
    {
      LetsInAccepted(n);
      hide PipeFile.LetsIn, Align, Placed, Used;
      RoomToCopy(free, InUse(), n, size);
    }

    /** It runs out of room when less than a header and one byte more is left, unless the ring is exactly full. */
    lemma RunsOutTells()
      requires Valid() && queue != []
      ensures !RunsOut() <==> InUse() == size || InUse() + HEADER < size
    {
      hide Placed, Used;
      RoomTests(message, free, InUse(), size, HEADER);
    }

    /** The test lets in what there is room for, and anything at all into an empty pipe. */
    lemma LetsInAccepted(n: nat)
      requires Valid()
      ensures LetsIn(n) <==> Accepts(n)
      ensures queue == [] ==> Accepts(n)
      ensures queue == [] ==> message == free == InUse() == 0
    {
      hide Placed, Align, Used;
      FlagTells();
      if queue == [] {
        EmptyAtTop();
      } else {
        RoomTests(message, free, InUse(), size, Align(n) + HEADER);
      }
    }

    /** pipe_write. An accepted message joins the queue; a refused one changes nothing. The source does not ask whether
        a message fits into the empty pipe: with header and padding it must, or the pipe is in order no more. */
    method Write(src: array<byte>, n: nat) returns (r: nat)
      requires Valid() && n <= src.Length && src != data && n < 0x8000_0000
      requires queue == [] ==> CopyStays(n)
      modifies this, data
      ensures Valid() <==> old(queue) != [] || HEADER + Align(n) <= size
      ensures r == if old(Accepts(n)) then n else 0
      ensures queue == if old(Accepts(n)) then old(queue) + [src[..n]] else old(queue)
      ensures written == if old(Accepts(n)) then old(written) + [src[..n]] else old(written)
      ensures taken == old(taken) && message == old(message)
      ensures !old(Accepts(n)) ==>
                data[..] == old(data[..]) && free == old(free) && spaceAvailable == old(spaceAvailable)
      ensures old(Accepts(n)) && Valid() ==>
                (spaceAvailable <==> old(spaceAvailable) && (InUse() == size || InUse() + HEADER < size))
      ensures HEADER + n <= size && !Valid() ==>
                free == HEADER + Align(n) - size && HasStamp(old(data[..]), data[..], 0, src[..n])
    {
      ghost var d0, m, start := data[..], src[..n], free;
      LetsInAccepted(n);
      CopyMayStart(n);
      PositionsFit(n);
      hide Placed, Header, Ring, Used, Align, HasStamp, PastBytes, Span, Wrap;
      hide PipeFile.Valid, PipeFile.LetsIn, PipeFile.RunsOut, PipeFile.CopyStays, PipeFile.Accepts, PipeFile.InUse;
      ghost var lets := LetsIn(n);
      r := Store(src, n);
      assert src[..n] == m;
      if lets {
        Enqueue(d0, start, m);
        assert src[..n] == m;
      } else {
        StillValid();
      }
    }

    lemma PositionsFit(n: nat)
      requires Valid()
      ensures size == data.Length && message + HEADER <= size && free + HEADER <= size
      ensures Placed(data[..], message, free, queue) && written == taken + queue
      ensures queue != [] && Accepts(n) ==> Used(message, queue, size) + HEADER + Align(n) < size
    {
      hide Used;
    }

    /** A refusal leaves everything as it was. */
    twostate lemma StillValid()
      requires old(Valid()) && data[..] == old(data[..]) && message == old(message) && free == old(free)
      requires dataAvailable == old(dataAvailable)
      requires queue == old(queue) && written == old(written) && taken == old(taken)
      ensures Valid()
    {
      hide Placed;
    }

    /** The message stored behind those in the queue joins it. */
    ghost method Enqueue(d0: seq<byte>, start: nat, m: seq<byte>)
      requires size == data.Length == |d0| && Placed(d0, message, start, queue) && |m| < 0x8000_0000
      requires HEADER + |m| <= size ==> HasStamp(d0, data[..], start, m)
      requires free == PastBytes(Wrap(start + HEADER, size), |m|, size) && dataAvailable && written == taken + queue
      requires queue == [] || Used(message, queue, size) + HEADER + Align(|m|) < size
      modifies this`queue, this`written
      ensures queue == old(queue) + [m] && written == old(written) + [m]
      ensures Valid() <==> old(queue) != [] || HEADER + Align(|m|) <= size
      ensures Valid() ==> (!RunsOut() <==> InUse() == size || InUse() + HEADER < size)
      ensures HEADER + |m| <= size && !Valid() ==> free == HEADER + Align(|m|) - size
    {
      var q := queue;
      hide Header, Ring, Used, HasStamp, PastBytes, PipeFile.RunsOut, Span, Wrap, Coded;
      queue, written := q + [m], written + [m];
      if q != [] || HEADER + Align(|m|) <= size {
        FitsInRing(m, size);
        hide Placed, Align;
        StoredIsPlaced(d0, data[..], message, start, free, q, m);
        RunsOutTells();
      } else {
        NothingUsed(message, size);
        RunsOver(|m|, size);
        OverFull(data[..], message, free, m);
        assert q + [m] == [m];
      }
    }

    /** Copy the bytes of the current message out, in two parts if the end of the buffer comes between. */
    method GetBytes(buffer: array<byte>, n: nat)
      requires size == data.Length && message + HEADER <= size && HEADER + n <= size && n <= buffer.Length &&
               buffer != data
      modifies buffer
      ensures buffer[..n] == Ring(data[..], message)[HEADER..HEADER + n]
      ensures forall i :: n <= i < buffer.Length ==> buffer[i] == old(buffer[i])
    {
      var part := if message + (HEADER + n) > size then size - (message + HEADER) else n;
      forall i | 0 <= i < part {
        buffer[i] := data[message + HEADER + i];
      }
      forall i | part <= i < n {
        buffer[i] := data[i - part];
      }
      forall i | 0 <= i < n
        ensures buffer[i] == Ring(data[..], message)[HEADER..HEADER + n][i]
      {
        RingAt(data[..], message, HEADER + i);
      }
    }

    /** Move the message position past the current message, and back to the top when no header fits behind it. */
    method PassMessage(n: nat)
      requires 0 < size
      modifies this`message
      ensures message == PastBytes(old(message) + HEADER, n, size)
    {
      message := message + HEADER + Align(n);
      if message > size {
        message := message % size;
      } else if message + HEADER > size {
        message := 0;
      }
    }

    /** Reset an empty pipe. */
    method Flush()
      requires data.Length == size && HEADER <= size
      modifies this`message, this`free, this`dataAvailable, data
      ensures message == free == 0 && !dataAvailable && data[..] == With(old(data[..]), 0, Dword(0))
    {
      message, free := 0, 0;
      StoreDword(0, 0);
      dataAvailable := false;
    }

    /** The length field of the current header. */
    function Length(): nat
      requires size == data.Length && message + HEADER <= size
      reads this, data
    {
      LdDword(data[message + 4], data[message + 5], data[message + 6], data[message + 7])
    }

    /** The test pipe_read makes. */
    predicate Yields(n: nat)
      requires size == data.Length && message + HEADER <= size
      reads this, data
    {
      data[message] % 2 == 1 && n >= Length()
    }

    /** pipe_read on any state of the pipe whose current header lies in the buffer, if the message it tells of does. */
    method Fetch(buffer: array<byte>, n: nat) returns (r: nat)
      requires size == data.Length && message + HEADER <= size && n <= buffer.Length && buffer != data
      requires Yields(n) ==> HEADER + Length() <= size
      modifies this`message, this`free, this`dataAvailable, data, buffer
      ensures r == if old(Yields(n)) then old(Length()) else 0
      ensures forall i :: r <= i < buffer.Length ==> buffer[i] == old(buffer[i])
      ensures if old(Yields(n))
              then buffer[..r] == old(Ring(data[..], message))[HEADER..HEADER + r] &&
                   if PastBytes(old(message) + HEADER, r, size) == old(free)
                   then message == free == 0 && !dataAvailable && data[..] == With(old(data[..]), 0, Dword(0))
                   else message == PastBytes(old(message) + HEADER, r, size) && free == old(free) &&
                        dataAvailable == old(dataAvailable) && data[..] == old(data[..])
              else message == old(message) && free == old(free) && data[..] == old(data[..]) &&
                   dataAvailable == old(dataAvailable)
    {
      hide Ring, PastBytes, With, Dword, LdDword;
      r := 0;
      if Yields(n) {
        r := Length();
        GetBytes(buffer, r);
        PassMessage(r);
        if message == free {
          Flush();
        }
      }
    }

    /** pipe_read. The first message leaves the queue for the buffer; one that does not fit changes nothing. */
    method Read(buffer: array<byte>, n: nat) returns (r: nat)
      requires Valid() && n <= buffer.Length && buffer != data
      modifies this, data, buffer
      ensures Valid() && written == old(written) && spaceAvailable == old(spaceAvailable)
      ensures old(queue) != [] && |old(queue)[0]| <= n ==>
                r == |old(queue)[0]| && buffer[..r] == old(queue)[0] && queue == old(queue)[1..] &&
                taken == old(taken) + [old(queue)[0]]
      ensures !(old(queue) != [] && |old(queue)[0]| <= n) ==>
                r == 0 && queue == old(queue) && taken == old(taken) && data[..] == old(data[..]) &&
                message == old(message) && free == old(free)
      ensures forall i :: r <= i < buffer.Length ==> buffer[i] == old(buffer[i])
    {
      ghost var d0, pos, end := data[..], message, free;
      FlagTells();
      if queue != [] {
        FrontFits();
      }
      hide Placed, Header, Ring, Used, LdDword, Wrap, PastBytes, With, Dword;
      ghost var gives := Yields(n);
      r := Fetch(buffer, n);
      if gives {
        Dequeue(d0, pos, end);
      }
    }

    /** The first message leaves the queue. */
    ghost method Dequeue(d0: seq<byte>, pos: nat, end: nat)
      requires size == data.Length == |d0| && Placed(d0, pos, end, queue) && queue != [] && written == taken + queue
      requires var p := PastBytes(pos + HEADER, |queue[0]|, size);
               if p == end then message == free == 0 && !dataAvailable && data[..] == With(d0, 0, Dword(0))
               else message == p && free == end && dataAvailable && data[..] == d0
      modifies this`queue, this`taken
      ensures Valid() && queue == old(queue[1..]) && taken == old(taken + [queue[0]])
    {
      hide Coded, Ring, Header, Used, Wrap, Span, PastBytes, Align;
      FrontSpan(d0, pos, end, queue);
      PlacedPop(d0, pos, end, queue);
      FrontMoves(written, taken, queue);
      FlushedIsPlaced(d0, size);
      hide Placed, With, Dword;
      taken, queue := taken + [queue[0]], queue[1..];
    }

    lemma FrontFits()
      requires Valid() && queue != []
      ensures message + HEADER <= size && HEADER + |queue[0]| <= size &&
              Ring(data[..], message)[HEADER..HEADER + |queue[0]|] == queue[0]
      ensures LdDword(data[message + 4], data[message + 5], data[message + 6], data[message + 7]) == |queue[0]|
    {
      hide Coded, Ring, Header, LdDword;
      FrontHeader(data[..], message, queue);
    }

    lemma EmptyAtTop()
      requires Valid() && queue == []
      ensures message == 0 && InUse() == 0
    {
    }

    /** The valid flag of the current header tells whether there is a message. */
    lemma FlagTells()
      requires Valid()
      ensures data[message] % 2 == 1 <==> queue != []
    {
      hide Coded, Ring, Header, LdDword;
      if queue != [] {
        FrontHeader(data[..], message, queue);
      }
    }
  }

  /** Two messages written to a pipe of 20 bytes, the first of 12 bytes, and read back: the padding of the first carries
      the free position into its own header, the second one is let in on top of it, and what is read is a single byte
      that was never written. */
  method WrongMessageRead() returns (written: seq<byte>, read: seq<byte>)
    ensures written == seq(12, _ => 7) && read == [0]
  {
    hide PipeFile.Valid, PipeFile.LetsIn, Ring, LdDword;
    var src, out := new byte[12](_ => 7), new byte[12];
    written := src[..12];
    var p := FilledUp(src);
    var second := WriteOnTop(p, src);
    assert p.Yields(12) && p.Length() == 1 by { ShortLength(p); }
    var r := p.Fetch(out, 12);
    read := out[..r];
  }

  method FilledUp(src: array<byte>) returns (p: PipeFile)
    requires src.Length == 12
    ensures fresh(p) && fresh(p.data) && p.data.Length == p.size == 20
    ensures p.message == 0 && p.free == 4 && p.data[0] == 1
  {
    var space := new byte[20];
    p := new PipeFile(space);
    ghost var d0 := p.data[..];
    PaddedSizes();
    hide HasStamp, Placed, Align, Header;
    var first := p.Write(src, 12);
    FirstStamp(d0, p.data[..], src[..12]);
  }

  method WriteOnTop(p: PipeFile, src: array<byte>) returns (r: nat)
    requires p.data.Length == p.size == 20 && src != p.data
    requires p.message == 0 && p.free == 4 && p.data[0] == 1
    modifies p`free, p`dataAvailable, p`spaceAvailable, p.data
    ensures p.message == 0 && p.data[0] == 1 && p.data[4..8] == [1, 0, 0, 0]
    ensures Ring(p.data[..], 0)[8..9] == [0]
  {
    ghost var d1 := p.data[..];
    PaddedSizes();
    hide HasStamp, Align, Ring;
    r := p.Store(src, 0);
    assert src[..0] == [];
    SecondStamp(d1, p.data[..]);
    assert p.data[..][4..8] == p.data[4..8];
  }

  lemma ShortLength(p: PipeFile)
    requires p.data.Length == p.size == 20 && p.message == 0 && p.data[0] == 1 && p.data[4..8] == [1, 0, 0, 0]
    ensures p.Yields(12) && p.Length() == 1
  {
    assert p.data[4] == p.data[4..8][0] && p.data[5] == p.data[4..8][1];
    assert p.data[6] == p.data[4..8][2] && p.data[7] == p.data[4..8][3];
    PaddedSizes();
  }

  lemma PaddedSizes()
    ensures Align(12) == 16 && Align(0) == 0 && LdDword(1, 0, 0, 0) == 1
  {
  }

  lemma FirstStamp(d0: seq<byte>, d1: seq<byte>, m: seq<byte>)
    requires |d0| == 20 && HasStamp(d0, d1, 0, m)
    ensures d1[0] == 1
  {
    assert Ring(d1, 0)[0] == d1[0];
  }

  lemma SecondStamp(d1: seq<byte>, d2: seq<byte>)
    requires |d1| == 20 && HasStamp(d1, d2, 4, []) && d1[0] == 1
    ensures |d2| == 20 && d2[0] == 1 && d2[4..8] == [1, 0, 0, 0] && Ring(d2, 0)[8..9] == [0]
  {
    var x := Header(0) + [] + Ring(d1, 4)[HEADER..];
    assert ByteOf(0, 0) == 0;
    assert Ring(d2, 4)[16] == d2[0] && x[16] == Ring(d1, 4)[16] == d1[0];
    assert d2[4] == Ring(d2, 4)[0] == x[0] == 1 && d2[5] == Ring(d2, 4)[1] == x[1] == 0;
    assert d2[6] == Ring(d2, 4)[2] == x[2] == 0 && d2[7] == Ring(d2, 4)[3] == x[3] == 0;
    assert Ring(d2, 0)[8] == d2[8] == Ring(d2, 4)[4] == x[4] == 0;
  }

  /** The comparisons pipe_write makes are about the room left in the ring; a full ring fails both. */
  lemma RoomTests(message: nat, free: nat, used: nat, size: nat, required: nat)
    requires message < size && free < size && 0 < used <= size && free == Wrap(message + used, size) && required > 0
    ensures (free > message && free + required < size + message) || (free < message && free + required < message)
       <==> used + required < size
    ensures (free > message && free + required >= size + message) || (free < message && free + required >= message)
       <==> used < size <= used + required
  {
  }

  /** The messages in use leave room for a message that the tests let in. */
  lemma RoomIsEnough(message: nat, free: nat, used: nat, n: nat, size: nat)
    requires message + HEADER <= size && free + HEADER <= size && used <= size && free == Wrap(message + used, size)
    requires if used == 0 then message == 0 && HEADER + Align(n) <= size else used + HEADER + Align(n) < size
    ensures used + Span(free, n, size) <= size
  {
    hide Align;
  }

  /** Where the free position goes behind n bytes. */
  function PastBytes(free: nat, n: nat, size: nat): nat
    requires 0 < size
  {
    var x := free + Align(n);
    if x > size then x % size else if x + HEADER > size then 0 else x
  }

  lemma PastIsNext(start: nat, n: nat, size: nat)
    requires start + HEADER <= size && HEADER + Align(n) <= size
    ensures PastBytes(Wrap(start + HEADER, size), n, size) == Wrap(start + Span(start, n, size), size)
  {
    hide Align;
    ModIsWrap(Wrap(start + HEADER, size) + Align(n), size);
  }

  lemma PastIsNextToo(pos: nat, n: nat, size: nat)
    requires pos + HEADER <= size && HEADER + Align(n) <= size
    ensures PastBytes(pos + HEADER, n, size) == Wrap(pos + Span(pos, n, size), size)
  {
    hide Align;
    ModIsWrap(pos + HEADER + Align(n), size);
  }

  /** A message that fits into the empty ring without its padding carries the free position into its own header. */
  lemma RunsOver(n: nat, size: nat)
    requires HEADER <= size < HEADER + Align(n)
    ensures HEADER + n <= size ==>
              HEADER < size && PastBytes(Wrap(HEADER, size), n, size) == HEADER + Align(n) - size < HEADER
  {
    assert n == 0 ==> Align(n) == 0;
    if HEADER + n <= size {
      var a := Align(n);
      hide Align;
      ModIsWrap(HEADER + a, size);
    }
  }

  /** What is stored for a message that there is room for puts it into the queue. */
  lemma StoredIsPlaced(d0: seq<byte>, d: seq<byte>, message: nat, start: nat, free: nat, q: seq<seq<byte>>,
      m: seq<byte>)
    requires Placed(d0, message, start, q) && |d| == |d0| && |m| < 0x8000_0000 && HasStamp(d0, d, start, m)
    requires free == PastBytes(Wrap(start + HEADER, |d|), |m|, |d|)
    requires if q == [] then HEADER + Align(|m|) <= |d| else Used(message, q, |d|) + HEADER + Align(|m|) < |d|
    ensures Placed(d, message, free, q + [m])
  {
    hide Coded, Ring, HasStamp, PastBytes, Used, Align, Header, Span;
    PastIsNext(start, |m|, |d|);
    RoomIsEnough(message, start, Used(message, q, |d|), |m|, |d|);
    hide Placed, Wrap;
    PlacedPush(d0, d, message, start, free, q, m);
  }

  lemma FitsInRing(m: seq<byte>, size: nat)
    ensures HEADER + Align(|m|) <= size ==> HEADER + |m| <= size
  {
  }

  lemma NothingUsed(message: nat, size: nat)
    ensures Used(message, [], size) == 0
  {
  }

  lemma OverFull(d: seq<byte>, message: nat, free: nat, m: seq<byte>)
    requires HEADER + Align(|m|) > |d|
    ensures !Placed(d, message, free, [m])
  {
    hide Coded, Ring, Align, Span, Wrap;
    assert Used(message, [m], |d|) >= Span(message, |m|, |d|);
  }

  lemma RoomToCopy(free: nat, used: nat, n: nat, size: nat)
    requires free + HEADER <= size
    ensures used + HEADER + Align(n) < size ==> n <= (size - Wrap(free + HEADER, size)) + size
  {
    hide Align;
  }

  lemma UsedOfRest(pos: nat, q: seq<seq<byte>>, size: nat)
    requires q != []
    ensures var n := Span(pos, |q[0]|, size); Used(pos, q, size) == n + Used(Wrap(pos + n, size), q[1..], size)
  {
  }

  lemma RestOf(q: seq<seq<byte>>)
    requires q != []
    ensures forall m :: m in q[1..] ==> m in q
  {
  }

  lemma FrontMoves(written: seq<seq<byte>>, taken: seq<seq<byte>>, q: seq<seq<byte>>)
    requires q != [] && written == taken + q
    ensures written == (taken + [q[0]]) + q[1..] && forall m :: m in q[1..] ==> m in q
  {
  }

  /** The two positions meet exactly when nothing is left. */
  lemma EmptyTest(message: nat, space: nat, rest: nat, size: nat)
    requires message < size && 0 < space && space + rest <= size
    ensures Wrap(message + (space + rest), size) == Wrap(Wrap(message + space, size) + rest, size)
    ensures Wrap(message + space, size) == Wrap(message + (space + rest), size) <==> rest == 0
  {
  }

  /** A header, the bytes behind it, and the valid flag make a message at the free position. */
  lemma MessagePut(d0: seq<byte>, d1: seq<byte>, d2: seq<byte>, d3: seq<byte>, start: nat, m: seq<byte>)
    requires start + HEADER <= |d0| && HEADER + |m| <= |d0|
    requires d1 == With(d0, start, NotYetValid(|m|)) && WithBytes(d1, d2, Wrap(start + HEADER, |d0|), m)
    requires d3 == d2[start := d2[start] - d2[start] % 2 + 1]
    ensures HasStamp(d0, d3, start, m)
  {
    hide Ring, With, NotYetValid;
    WithAt(d0, start, NotYetValid(|m|), start);
    assert Offset(start, Wrap(start + HEADER, |d0|), |d0|) == |d0| - HEADER;
    assert d2[start] == d1[start] == 0;
    var x := Header(|m|) + m + Ring(d0, start)[HEADER + |m|..];
    forall k | 0 <= k < |d0|
      ensures d3[k] == x[Offset(k, start, |d0|)]
    {
      var o := Offset(k, start, |d0|);
      RingAt(d0, start, o);
      WithAt(d0, start, NotYetValid(|m|), k);
      if o < HEADER {
        assert Offset(k, Wrap(start + HEADER, |d0|), |d0|) == o + |d0| - HEADER;
        assert d1[k] == if o == 0 then 0 else Header(|m|)[o];
      } else {
        assert Offset(k, Wrap(start + HEADER, |d0|), |d0|) == o - HEADER;
        assert d1[k] == d0[k];
      }
    }
    RingOfOffsets(d3, start, x);
  }

  /** The new message is behind the others, and the free position behind it. */
  lemma Joined(message: nat, start: nat, q: seq<seq<byte>>, m: seq<byte>, size: nat)
    requires message < size && start < size
    requires var u := Used(message, q, size); start == Wrap(message + u, size) && u + Span(start, |m|, size) <= size
    ensures Used(message, q + [m], size) == Used(message, q, size) + Span(start, |m|, size)
    ensures Wrap(start + Span(start, |m|, size), size) == Wrap(message + Used(message, q + [m], size), size)
  {
    hide Used, Span, Wrap, Align;
    UsedOfMore(message, q, m, size);
    WrapTwice(message, Used(message, q, size), Span(start, |m|, size), size);
  }

  /** d with the bytes h at position pos. */
  function With(d: seq<byte>, pos: nat, h: seq<byte>): (r: seq<byte>)
    requires pos + |h| <= |d|
    ensures |r| == |d|
  {
    d[..pos] + h + d[pos + |h|..]
  }

  lemma WithAt(d: seq<byte>, pos: nat, h: seq<byte>, i: nat)
    requires pos + |h| <= |d| && i < |d|
    ensures With(d, pos, h)[i] == if pos <= i < pos + |h| then h[i - pos] else d[i]
  {
  }

  function Dword(x: nat): (h: seq<byte>)
    ensures |h| == 4
  {
    [ByteOf(x, 0), ByteOf(x, 1), ByteOf(x, 2), ByteOf(x, 3)]
  }

  /** The header of a message that is not yet valid. */
  function NotYetValid(n: nat): (h: seq<byte>)
    ensures |h| == HEADER && h[0] == 0 && forall k :: 0 < k < HEADER ==> h[k] == Header(n)[k]
  {
    [0] + Header(n)[1..]
  }

  lemma TwoStores(d: seq<byte>, pos: nat, n: nat)
    requires pos + HEADER <= |d| && n < U32
    ensures With(With(d, pos, Dword(0)), pos + 4, Dword(n)) == With(d, pos, NotYetValid(n))
  {
    TwoDwords(n);
    hide With, Dword, NotYetValid;
    forall i | 0 <= i < |d|
      ensures With(With(d, pos, Dword(0)), pos + 4, Dword(n))[i] == With(d, pos, NotYetValid(n))[i]
    {
      WithAt(With(d, pos, Dword(0)), pos + 4, Dword(n), i);
      WithAt(d, pos, Dword(0), i);
      WithAt(d, pos, NotYetValid(n), i);
    }
  }

  lemma TwoDwords(n: nat)
    ensures NotYetValid(n) == Dword(0) + Dword(n)
  {
    assert ByteOf(0, 0) == ByteOf(0, 1) == ByteOf(0, 2) == ByteOf(0, 3) == 0;
    hide ByteOf;
    assert NotYetValid(n) == [0, 0, 0, 0, ByteOf(n, 0), ByteOf(n, 1), ByteOf(n, 2), ByteOf(n, 3)];
  }

  /** d' is d with the bytes m put at position pos on, around the ring. */
  ghost predicate WithBytes(d: seq<byte>, d': seq<byte>, pos: nat, m: seq<byte>)
    requires pos < |d|
  {
    |d'| == |d| && forall k {:trigger d'[k]} :: 0 <= k < |d| ==>
      d'[k] == if Offset(k, pos, |d|) < |m| then m[Offset(k, pos, |d|)] else d[k]
  }

  lemma ModIsWrap(x: nat, size: nat)
    requires 0 < size && x < 2 * size
    ensures x > size ==> x % size == x - size
  {
    if x > size {
      DivModUnique(x, size, 1, x - size);
    }
  }
}
