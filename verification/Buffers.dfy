/** The buffers of one file descriptor: any number of lists that draw their segments from one pool. */
module Buffers {
  import opened Words
  import opened FsBuffer
  import opened BufferList

  /** The elements of several sequences, one sequence after the other. */
  ghost function Concat(ls: seq<seq<Segment>>): seq<Segment> {
    if ls == [] then [] else ls[0] + Concat(ls[1..])
  }

  /** Exchanging one of the sequences for another. */
  lemma {:induction false} ConcatUpdate(ls: seq<seq<Segment>>, i: nat, x: seq<Segment>)
    requires i < |ls|
    ensures multiset(Concat(ls[i := x])) + multiset(ls[i]) == multiset(Concat(ls)) + multiset(x)
  {
    hide Concat;
    FirstOfConcat(ls[0], ls[1..]);
    assert [ls[0]] + ls[1..] == ls;
    if i == 0 {
      FirstOfConcat(x, ls[1..]);
      assert [x] + ls[1..] == ls[0 := x];
    } else {
      var ls' := ls[1..][i - 1 := x];
      ConcatUpdate(ls[1..], i - 1, x);
      FirstOfConcat(ls[0], ls');
      assert [ls[0]] + ls' == ls[i := x];
      Exchange(multiset(ls[0]), multiset(Concat(ls[1..])), multiset(Concat(ls')), multiset(ls[i]), multiset(x));
    }
  }

  lemma Exchange(h: multiset<Segment>, r: multiset<Segment>, r': multiset<Segment>, a: multiset<Segment>,
                 b: multiset<Segment>)
    requires r' + a == r + b
    ensures (h + r') + a == (h + r) + b
  {
    assert (h + r') + a == h + (r' + a);
    assert (h + r) + b == h + (r + b);
  }

  lemma FirstOfConcat(x: seq<Segment>, ls: seq<seq<Segment>>)
    ensures multiset(Concat([x] + ls)) == multiset(x) + multiset(Concat(ls))
  {
    assert ([x] + ls)[1..] == ls;
  }

  lemma {:induction false} PartOfConcat(ls: seq<seq<Segment>>, i: nat)
    requires i < |ls|
    ensures multiset(ls[i]) <= multiset(Concat(ls))
  {
    if i > 0 {
      PartOfConcat(ls[1..], i - 1);
    }
  }

  lemma {:induction false} TwoPartsOfConcat(ls: seq<seq<Segment>>, i: nat, j: nat)
    requires i < |ls| && j < |ls| && i != j
    ensures multiset(ls[i]) + multiset(ls[j]) <= multiset(Concat(ls))
  {
    if i == 0 {
      PartOfConcat(ls[1..], j - 1);
    } else if j == 0 {
      PartOfConcat(ls[1..], i - 1);
    } else {
      TwoPartsOfConcat(ls[1..], i - 1, j - 1);
    }
  }

  lemma {:induction false} ConcatOfEmpty(ls: seq<seq<Segment>>)
    requires forall i :: 0 <= i < |ls| ==> ls[i] == []
    ensures Concat(ls) == []
  {
    if ls != [] {
      ConcatOfEmpty(ls[1..]);
    }
  }

  ghost predicate Beyond(s: Segment, os: set<object>) {
    s as object !in os && s.data as object !in os
  }

  lemma ListIsNone(l: SegmentList, m: multiset<Segment>)
    ensures l as object !in Objects(m)
  {
  }

  lemma ClearIsBeyond(s: Segment, segs: seq<Segment>, m: multiset<Segment>)
    requires Apart(m) && multiset{s} + multiset(segs) <= m
    ensures Beyond(s, Objects(multiset(segs)))
  {
    ClearOf(s, segs, m);
    forall t | t in multiset(segs)
      ensures t != s && t.data != s.data
    {
      assert t in segs;
    }
  }

  lemma NewInPool(free: seq<Segment>, b: Segment)
    requires Apart(multiset(free)) && Clear(b, free)
    ensures Apart(multiset(free + [b]))
  {
    var m := multiset(free + [b]);
    assert m == multiset(free) + multiset{b};
    forall s | s in free
      ensures s != b && s.data != b.data
    {
      var i :| 0 <= i < |free| && free[i] == s;
    }
  }

  /** One operation on list number list. */
  datatype Operation =
    | PushHead(list: nat, data: seq<byte>, packed: bool, th: bool)
    | PushTail(list: nat, data: seq<byte>, packed: bool, th: bool)
    | Update(list: nat, data: seq<byte>, offset: nat, packed: bool, onHead: bool)
    | Peek(list: nat, size: nat, offset: nat, packed: bool, fromTail: bool)
    | PullHead(list: nat, size: nat, packed: bool)
    | DropTail(list: nat, size: nat)
    | ReturnAll(list: nat)

  /** Where an update starts. */
  function Start(data: seq<byte>, offset: nat, onHead: bool, length: nat): nat
    requires |data| + offset <= length
  {
    if onHead then offset else length - (|data| + offset)
  }

  /** The bytes of a list after an operation that has been carried out. */
  ghost function After(op: Operation, b: seq<byte>): seq<byte> {
    match op
    case PushHead(_, data, packed, _) => Ordered(packed, data) + b
    case PushTail(_, data, packed, _) => b + Ordered(packed, data)
    case Update(_, data, offset, packed, onHead) =>
      if |data| + offset <= |b| then Patch(b, Start(data, offset, onHead, |b|), Ordered(packed, data)) else b
    case Peek(_, _, _, _, _) => b
    case PullHead(_, size, _) => if size <= |b| then b[size..] else b
    case DropTail(_, size) => if size <= |b| then b[..|b| - size] else b
    case ReturnAll(_) => []
  }

  /** The bytes of list i, once b, after a run of operations of which those in done have been carried out. */
  ghost function Replayed(b: seq<byte>, i: nat, ops: seq<Operation>, done: seq<bool>): seq<byte>
    requires |ops| == |done|
  {
    if ops == [] then b
    else
      var k := |ops| - 1;
      var r := Replayed(b, i, ops[..k], done[..k]);
      if done[k] && ops[k].list == i then After(ops[k], r) else r
  }

  /** All lists after a run. */
  ghost function ReplayedAll(bs: seq<seq<byte>>, ops: seq<Operation>, done: seq<bool>): (r: seq<seq<byte>>)
    requires |ops| == |done|
    ensures |r| == |bs|
  {
    seq(|bs|, i requires 0 <= i < |bs| => Replayed(bs[i], i, ops, done))
  }

  /** All lists after one operation. */
  ghost function OneReplayed(bs: seq<seq<byte>>, op: Operation, ok: bool): (r: seq<seq<byte>>)
    ensures |r| == |bs|
  {
    seq(|bs|, i requires 0 <= i < |bs| => if ok && op.list == i then After(op, bs[i]) else bs[i])
  }

  lemma NothingReplayed(bs: seq<seq<byte>>)
    ensures ReplayedAll(bs, [], []) == bs
  {
  }

  lemma ReplayedMore(bs: seq<seq<byte>>, ops: seq<Operation>, done: seq<bool>, op: Operation, ok: bool)
    requires |ops| == |done|
    ensures ReplayedAll(bs, ops + [op], done + [ok]) == OneReplayed(ReplayedAll(bs, ops, done), op, ok)
  {
    var k := |ops|;
    assert (ops + [op])[..k] == ops && (done + [ok])[..k] == done;
  }

  lemma NeedsAtMost(size: nat, room: nat, bufferSize: nat)
    requires bufferSize > 0
    ensures Need(size, room, bufferSize) <= CeilDiv(size, bufferSize)
    ensures size == 0 ==> Need(size, room, bufferSize) == 0
  {
    if size > room {
      DivMonotone(size - room + bufferSize - 1, size + bufferSize - 1, bufferSize);
    }
  }

  lemma OrderedLength(packed: bool, x: seq<byte>)
    ensures |Ordered(packed, x)| == |x|
  {
  }

  ghost function TotalLength(bs: seq<seq<byte>>): nat {
    if bs == [] then 0 else |bs[0]| + TotalLength(bs[1..])
  }

  lemma {:induction false} TotalAfter(bs: seq<seq<byte>>, bs': seq<seq<byte>>, i: nat, n: nat)
    requires i < |bs| == |bs'| && |bs'[i]| == |bs[i]| + n
    requires forall j :: 0 <= j < |bs| && j != i ==> bs'[j] == bs[j]
    ensures TotalLength(bs') == TotalLength(bs) + n
  {
    if i == 0 {
      assert bs'[1..] == bs[1..];
    } else {
      TotalAfter(bs[1..], bs'[1..], i - 1, n);
    }
  }

  /** As many segments as bytes at most, and as many as it takes for the bytes at least. */
  lemma {:induction false} TotalsMatch(ls: seq<seq<Segment>>, bs: seq<seq<byte>>, n: nat)
    requires |ls| == |bs| && forall i :: 0 <= i < |ls| ==> |ls[i]| <= |bs[i]| <= |ls[i]| * n
    ensures SumOfLengths(ls) <= TotalLength(bs) <= SumOfLengths(ls) * n
  {
    if ls != [] {
      TotalsMatch(ls[1..], bs[1..], n);
      calc {
        SumOfLengths(ls) * n;
        (|ls[0]| + SumOfLengths(ls[1..])) * n;
        |ls[0]| * n + SumOfLengths(ls[1..]) * n;
      }
    }
  }

  lemma MulNext(k: nat, n: nat)
    ensures (k + 1) * n == n + k * n
  {
  }

  lemma SegmentInFront(segs: seq<Segment>, n: nat)
    requires Sized(segs, n) && NoneEmpty(segs) && segs != []
    ensures Sized(segs[1..], n) && NoneEmpty(segs[1..])
    ensures |Flat(segs)| == segs[0].length + |Flat(segs[1..])| && 0 < segs[0].length <= n
  {
  }

  /** None of the segments is empty, and none is more than full. */
  lemma {:induction false} SegmentsMatch(segs: seq<Segment>, n: nat)
    requires Sized(segs, n) && NoneEmpty(segs)
    ensures |segs| <= |Flat(segs)| <= |segs| * n
  {
    if segs != [] {
      SegmentInFront(segs, n);
      hide Flat, Sized, NoneEmpty;
      SegmentsMatch(segs[1..], n);
      assert |segs| * n == n + |segs[1..]| * n by { MulNext(|segs[1..]|, n); }
    }
  }

  /** An operation that is no push, on a list with the bytes b. */
  ghost predicate Fits(op: Operation, b: seq<byte>)
    requires !op.PushHead? && !op.PushTail?
  {
    match op
    case Update(_, data, offset, _, onHead) => |data| + offset <= |b| && Start(data, offset, onHead, |b|) < |b|
    case Peek(_, size, offset, _, _) => size + offset <= |b| && b != []
    case PullHead(_, size, _) => size <= |b|
    case DropTail(_, size) => size <= |b|
    case ReturnAll(_) => true
  }

  /** What an operation needs in any case when the lists have these bytes, among n segments of size bytes: a push, room
      for its bytes in all segments together, or in all but the threshold if it is to leave that and the segments held
      cannot be enough; any other, exactly what it asks of its list. */
  ghost predicate MayWork(op: Operation, bs: seq<seq<byte>>, n: nat, size: nat, threshold: nat) {
    op.list < |bs| &&
    match op
    case PushHead(_, data, _, th) => MayHold(|data|, th, TotalLength(bs), n, size, threshold)
    case PushTail(_, data, _, th) => MayHold(|data|, th, TotalLength(bs), n, size, threshold)
    case _ => Fits(op, bs[op.list])
  }

  /** What an operation may make of the number of free segments: a push takes none or leaves the threshold if it is
      to, and no other operation takes any. */
  predicate Leaves(op: Operation, before: nat, after: nat, threshold: nat) {
    if op.PushHead? || op.PushTail? then after == before || after >= if op.th then threshold else 0
    else after >= before
  }

  predicate MayHold(bytes: nat, th: bool, held: nat, n: nat, size: nat, threshold: nat) {
    && bytes + held <= n * size
    && (th && bytes + held > held * size ==> bytes + held + threshold * size <= n * size)
  }

  /** What lets an operation succeed in any case: for a push, that there are segments enough for it even if each byte
      held takes one. */
  ghost predicate MustWork(op: Operation, bs: seq<seq<byte>>, n: nat, size: nat, threshold: nat)
    requires size > 0
  {
    op.list < |bs| &&
    match op
    case PushHead(_, data, _, th) => Enough(|data|, th, TotalLength(bs), n, size, threshold)
    case PushTail(_, data, _, th) => Enough(|data|, th, TotalLength(bs), n, size, threshold)
    case _ => Fits(op, bs[op.list])
  }

  predicate Enough(bytes: nat, th: bool, held: nat, n: nat, size: nat, threshold: nat)
    requires size > 0
  {
    bytes == 0 || CeilDiv(bytes, size) + (if th then threshold else 0) + held <= n
  }

  /** Bytes pushed, when k of the n segments are left free: no more segments are held than there were bytes, or the
      threshold is left. */
  lemma HeldAfter(bytes: nat, th: bool, held: nat, n: nat, k: nat, size: nat, threshold: nat)
    requires k <= n && bytes + held <= (n - k) * size
    requires n - k <= held || k >= if th then threshold else 0
    ensures MayHold(bytes, th, held, n, size, threshold)
  {
    assert (n - k) * size + k * size == n * size;
    MulMonotone(size, 0, k);
    if k >= threshold {
      MulMonotone(size, threshold, k);
    }
    if n - k <= held {
      MulMonotone(size, n - k, held);
    }
  }

  lemma PushedTotal(bs: seq<seq<byte>>, bs': seq<seq<byte>>, op: Operation)
    requires |bs| == |bs'| && op.list < |bs| && (op.PushHead? || op.PushTail?)
    requires forall i :: 0 <= i < |bs| ==> bs'[i] == if op.list == i then After(op, bs[i]) else bs[i]
    ensures TotalLength(bs') == TotalLength(bs) + |op.data|
  {
    OrderedLength(op.packed, op.data);
    TotalAfter(bs, bs', op.list, |op.data|);
  }

  ghost function SumOfLengths(ls: seq<seq<Segment>>): nat {
    if ls == [] then 0 else |ls[0]| + SumOfLengths(ls[1..])
  }

  lemma {:induction false} LengthOfConcat(ls: seq<seq<Segment>>)
    ensures |Concat(ls)| == SumOfLengths(ls)
  {
    if ls != [] {
      LengthOfConcat(ls[1..]);
    }
  }

  /** FS_BUFFER_DATA */
  class Dataset {
    const pool: Pool
    const lists: seq<SegmentList>
    /** All segments there are, wherever they may be. */
    ghost const all: seq<Segment>

    /** The segments each list holds. */
    ghost function Segments(): (ls: seq<seq<Segment>>)
      reads lists
      ensures |ls| == |lists|
    {
      seq(|lists|, i requires 0 <= i < |lists| reads lists => lists[i].list)
    }

    /** Every segment is free or held by one of the lists, and no segment is in two places. */
    ghost predicate Conserved()
      reads pool, lists
    {
      && (forall i, j :: 0 <= i < j < |lists| ==> lists[i] != lists[j])
      && (forall i :: 0 <= i < |lists| ==> lists[i].pool == pool)
      && multiset(pool.free + Concat(Segments())) == multiset(all) && Apart(multiset(all))
    }

    ghost predicate Valid()
      reads this, pool, lists, all, set s: Segment | s in all :: s.data
      ensures Valid() ==> Conserved()
    {
      Conserved() && PoolValid() && forall i :: 0 <= i < |lists| ==> ListValid(i)
    }

    ghost predicate PoolValid()
      requires Conserved()
      reads pool, lists, all
    {
      Accounted();
      pool.Valid()
    }

    ghost predicate ListValid(i: nat)
      requires Conserved() && i < |lists|
      reads pool, lists, all, set s: Segment | s in all :: s.data
    {
      Accounted();
      SegmentsOf(i);
      lists[i].Valid()
    }

    lemma SegmentsOf(i: nat)
      requires Conserved() && i < |lists|
      ensures lists[i].pool == pool && forall k :: 0 <= k < |lists[i].list| ==> lists[i].list[k] in all
    {
      Accounted();
    }

    lemma Accounted()
      requires Conserved()
      ensures forall k :: 0 <= k < |pool.free| ==> pool.free[k] in all
      ensures forall i, k :: 0 <= i < |lists| && 0 <= k < |lists[i].list| ==> lists[i].list[k] in all
    {
      var m := multiset(pool.free + Concat(Segments()));
      assert m == multiset(pool.free) + multiset(Concat(Segments()));
      forall k | 0 <= k < |pool.free|
        ensures pool.free[k] in all
      {
        assert pool.free[k] in multiset(pool.free) && pool.free[k] in m;
      }
      forall i, k | 0 <= i < |lists| && 0 <= k < |lists[i].list|
        ensures lists[i].list[k] in all
      {
        PartOfConcat(Segments(), i);
        var s := lists[i].list[k];
        assert s in multiset(Segments()[i]) && s in multiset(Concat(Segments())) && s in m;
      }
    }

    /** The bytes of list i. */
    ghost function Bytes(i: nat): seq<byte>
      requires Valid() && i < |lists|
      reads this, pool, lists, all, set s: Segment | s in all :: s.data
    {
      assert ListValid(i);
      Accounted();
      SegmentsOf(i);
      lists[i].Contents()
    }

    /** fs_buffer_dataset: all buffers in the pool, all lists empty. */
    constructor (numBuffers: nat, bufferSize: nat, threshold: nat, numLists: nat)
      requires bufferSize > 0
      ensures Valid() && |all| == |pool.free| == numBuffers && |lists| == numLists
      ensures pool.bufferSize == bufferSize && pool.threshold == threshold
      ensures forall i :: 0 <= i < |lists| ==> lists[i].list == []
    {
      var p := FullPool(numBuffers, bufferSize, threshold);
      var ls := EmptyLists(p, numLists);
      pool, all, lists := p, p.free, ls;
      new;
      NothingHeld();
    }

    /** The pool grants a push of size bytes to list i. */
    ghost predicate Grants(i: nat, size: nat, onHead: bool, th: bool)
      requires Valid() && i < |lists|
      reads this, pool, lists, all, set s: Segment | s in all :: s.data
    {
      assert ListValid(i);
      SegmentsOf(i);
      lists[i].Granted(Need(size, if onHead then lists[i].HeadRoom() else lists[i].TailRoom(), pool.bufferSize), th)
    }

    /** A push at the head of list i. */
    method PushHead(i: nat, data: seq<byte>, packed: bool, th: bool) returns (ok: bool)
      requires Valid() && i < |lists|
      modifies pool, lists[i], Objects(multiset(all))
      ensures Valid() && OthersKept(i)
      ensures ok == old(Grants(i, |data|, true, th))
      ensures Bytes(i) == if ok then Ordered(packed, data) + old(Bytes(i)) else old(Bytes(i))
      ensures pool.count == old(pool.count) || pool.count >= if th then pool.threshold else 0
    {
      hide Apart, Clear, Sized, NoneEmpty, AllBlank, Flat, Ordered, Patch, Piece, Rev, Objects, Need, Concat,
           Pool.Valid;
      Enter(i);
      ok := lists[i].PushHead(data, packed, th);
      AfterOperation(i);
    }

    /** A push at the tail of list i. */
    method PushTail(i: nat, data: seq<byte>, packed: bool, th: bool) returns (ok: bool)
      requires Valid() && i < |lists|
      modifies pool, lists[i], Objects(multiset(all))
      ensures Valid() && OthersKept(i)
      ensures ok == old(Grants(i, |data|, false, th))
      ensures Bytes(i) == if ok then old(Bytes(i)) + Ordered(packed, data) else old(Bytes(i))
      ensures pool.count == old(pool.count) || pool.count >= if th then pool.threshold else 0
    {
      hide Apart, Clear, Sized, NoneEmpty, AllBlank, Flat, Ordered, Patch, Piece, Rev, Objects, Need, Concat,
           Pool.Valid;
      Enter(i);
      ok := lists[i].PushTail(data, packed, th);
      AfterOperation(i);
    }

    /** An update of bytes of list i. */
    method Update(i: nat, data: seq<byte>, offset: nat, packed: bool, onHead: bool) returns (ok: bool)
      requires Valid() && i < |lists| && |data| + offset <= |Bytes(i)|
      modifies pool, lists[i], Objects(multiset(all))
      ensures Valid() && OthersKept(i)
      ensures var b, start := old(Bytes(i)), if onHead then offset else |old(Bytes(i))| - (|data| + offset);
              && ok == (start < |b|) && Bytes(i) == Patch(b, start, Ordered(packed, data))
      ensures !ok ==> Bytes(i) == old(Bytes(i))
      ensures pool.count == old(pool.count)
    {
      hide Apart, Clear, Sized, NoneEmpty, AllBlank, Flat, Ordered, Patch, Piece, Rev, Objects, Need, Concat,
           Pool.Valid;
      ghost var b := Bytes(i);
      Enter(i);
      ok := lists[i].Update(data, offset, packed, onHead);
      if !ok {
        PatchNothing(b, |b|, packed, data);
      }
      AfterOperation(i);
    }

    /** A peek into list i. */
    method Peek(i: nat, size: nat, offset: nat, packed: bool, fromTail: bool) returns (ok: bool, out: seq<byte>)
      requires Valid() && i < |lists| && (size + offset <= |Bytes(i)| ==> lists[i].list != [])
      modifies pool, lists[i], Objects(multiset(all))
      ensures Valid() && OthersKept(i)
      ensures ok == (size + offset <= |Bytes(i)|) && Bytes(i) == old(Bytes(i))
      ensures out == if ok then Ordered(packed, Piece(Bytes(i), size, offset, fromTail)) else []
      ensures pool.count == old(pool.count)
    {
      hide Apart, Clear, Sized, NoneEmpty, AllBlank, Flat, Ordered, Patch, Piece, Rev, Objects, Need, Concat,
           Pool.Valid;
      Enter(i);
      var to := new byte[size];
      OwnBuffer(i, to, size);
      ok := lists[i].Peek(to, 0, size, offset, packed, fromTail);
      out := if ok then to[..] else [];
      AfterOperation(i);
    }

    /** A pull from the head of list i. */
    method PullHead(i: nat, size: nat, packed: bool) returns (ok: bool, out: seq<byte>)
      requires Valid() && i < |lists|
      modifies pool, lists[i], Objects(multiset(all))
      ensures Valid() && OthersKept(i)
      ensures ok == (size <= |old(Bytes(i))|)
      ensures Bytes(i) == if ok then old(Bytes(i))[size..] else old(Bytes(i))
      ensures out == if ok then Ordered(packed, old(Bytes(i))[..size]) else []
      ensures pool.count >= old(pool.count)
    {
      hide Apart, Clear, Sized, NoneEmpty, AllBlank, Flat, Ordered, Patch, Piece, Rev, Objects, Need, Concat,
           Pool.Valid, SegmentList.Shaped;
      Enter(i);
      var to := new byte[size];
      OwnBuffer(i, to, size);
      ok := lists[i].PullHead(to, 0, size, packed);
      out := if ok then to[..] else [];
      AfterOperation(i);
    }

    /** Bytes discarded from the tail of list i. */
    method DropTail(i: nat, size: nat) returns (ok: bool)
      requires Valid() && i < |lists|
      modifies pool, lists[i], Objects(multiset(all))
      ensures Valid() && OthersKept(i)
      ensures ok == (size <= |old(Bytes(i))|)
      ensures Bytes(i) == if ok then old(Bytes(i))[..|old(Bytes(i))| - size] else old(Bytes(i))
      ensures pool.count >= old(pool.count)
    {
      hide Apart, Clear, Sized, NoneEmpty, AllBlank, Flat, Ordered, Patch, Piece, Rev, Objects, Need, Concat,
           Pool.Valid;
      Enter(i);
      ok := lists[i].DropTail(size);
      AfterOperation(i);
    }

    /** All segments of list i given back. */
    method ReturnAll(i: nat)
      requires Valid() && i < |lists|
      modifies pool, lists[i], Objects(multiset(all))
      ensures Valid() && OthersKept(i)
      ensures Bytes(i) == []
      ensures pool.count >= old(pool.count)
    {
      hide Apart, Clear, Sized, NoneEmpty, AllBlank, Flat, Ordered, Patch, Piece, Rev, Objects, Need, Concat,
           Pool.Valid;
      Enter(i);
      lists[i].ReturnAll();
      NothingAtAll(lists[i].list);
      assert pool.free + lists[i].list == pool.free;
      AfterOperation(i);
    }

    /** The list exists, and the source would not stop at one of its assertions. */
    predicate Allowed(op: Operation)
      reads lists
    {
      && op.list < |lists|
      && (op.Update? ==> |op.data| + op.offset <= lists[op.list].totalLength)
      && (op.Peek? ==> lists[op.list].list != [])
    }

    /** When an operation is carried out. */
    ghost predicate Works(op: Operation)
      requires Valid()
      reads this, pool, lists, all, set s: Segment | s in all :: s.data
    {
      op.list < |lists| &&
      match op
      case PushHead(i, data, _, th) => Grants(i, |data|, true, th)
      case PushTail(i, data, _, th) => Grants(i, |data|, false, th)
      case _ => Fits(op, Bytes(op.list))
    }

    /** One operation, if it is allowed. */
    method Perform(op: Operation) returns (ok: bool)
      requires Valid()
      modifies pool, lists, Objects(multiset(all))
      ensures Valid() && ok == old(Works(op))
      ensures forall i :: 0 <= i < |lists| ==>
                Bytes(i) == if ok && op.list == i then After(op, old(Bytes(i))) else old(Bytes(i))
      ensures Leaves(op, old(pool.count), pool.count, pool.threshold)
    {
      NotAllowed(op);
      hide After, Objects, Dataset.Valid, Dataset.Bytes, Dataset.Works;
      ok := Allowed(op);
      if ok {
        ok := PerformAllowed(op);
      }
    }

    lemma NotAllowed(op: Operation)
      requires Valid()
      ensures !Allowed(op) ==> !Works(op)
    {
      if op.list < |lists| {
        Enter(op.list);
        BytesThere(op.list);
      }
    }

    /** A list has segments exactly when it has bytes, between one and all that fit into each. */
    lemma BytesThere(i: nat)
      requires Valid() && i < |lists|
      ensures |lists[i].list| <= |Bytes(i)| <= |lists[i].list| * pool.bufferSize
    {
      assert ListValid(i);
      SegmentsOf(i);
      SegmentsMatch(lists[i].list, pool.bufferSize);
    }

    method PerformAllowed(op: Operation) returns (ok: bool)
      requires Valid() && Allowed(op)
      modifies pool, lists, Objects(multiset(all))
      ensures Valid() && OthersKept(op.list) && ok == old(Works(op))
      ensures Bytes(op.list) == if ok then After(op, old(Bytes(op.list))) else old(Bytes(op.list))
      ensures Leaves(op, old(pool.count), pool.count, pool.threshold)
    {
      hide Conserved, Ordered, Patch, Piece, Objects, Need, Concat, ListValid, PoolValid, Dataset.Valid, Dataset.Bytes;
      hide Start, Dataset.Grants, Dataset.OthersKept, Fits;
      match op {
        case PushHead(_, _, _, _) => ok := PerformPush(op);
        case PushTail(_, _, _, _) => ok := PerformPush(op);
        case Update(_, _, _, _, _) => ok := PerformUpdate(op);
        case Peek(_, _, _, _, _) => ok := PerformPeek(op);
        case _ => ok := PerformPull(op);
      }
    }

    method PerformPush(op: Operation) returns (ok: bool)
      requires Valid() && op.list < |lists| && (op.PushHead? || op.PushTail?)
      modifies pool, lists, Objects(multiset(all))
      ensures Valid() && OthersKept(op.list) && ok == old(Grants(op.list, |op.data|, op.PushHead?, op.th))
      ensures Bytes(op.list) == if ok then After(op, old(Bytes(op.list))) else old(Bytes(op.list))
      ensures pool.count == old(pool.count) || pool.count >= if op.th then pool.threshold else 0
    {
      hide Conserved, Ordered, Objects, Need, Concat, ListValid, PoolValid, Dataset.Valid, Dataset.Bytes;
      hide Dataset.Grants, Dataset.OthersKept;
      Enter(op.list);
      match op {
        case PushHead(i, data, packed, th) => ok := PushHead(i, data, packed, th);
        case PushTail(i, data, packed, th) => ok := PushTail(i, data, packed, th);
      }
    }

    method PerformUpdate(op: Operation) returns (ok: bool)
      requires Valid() && Allowed(op) && op.Update?
      modifies pool, lists, Objects(multiset(all))
      ensures Valid() && OthersKept(op.list) && ok == Fits(op, old(Bytes(op.list)))
      ensures Bytes(op.list) == if ok then After(op, old(Bytes(op.list))) else old(Bytes(op.list))
      ensures pool.count >= old(pool.count)
    {
      hide Conserved, Ordered, Patch, Piece, Objects, Need, Concat, ListValid, PoolValid, Dataset.Valid, Dataset.Bytes;
      hide Dataset.OthersKept;
      Enter(op.list);
      ok := Update(op.list, op.data, op.offset, op.packed, op.onHead);
    }

    method PerformPeek(op: Operation) returns (ok: bool)
      requires Valid() && Allowed(op) && op.Peek?
      modifies pool, lists, Objects(multiset(all))
      ensures Valid() && OthersKept(op.list) && ok == Fits(op, old(Bytes(op.list)))
      ensures Bytes(op.list) == old(Bytes(op.list))
      ensures pool.count >= old(pool.count)
    {
      BytesThere(op.list);
      hide Conserved, Ordered, Patch, Piece, Objects, Need, Concat, ListValid, PoolValid, Dataset.Valid, Dataset.Bytes;
      hide Start, Dataset.OthersKept;
      var out;
      ok, out := Peek(op.list, op.size, op.offset, op.packed, op.fromTail);
    }

    method PerformPull(op: Operation) returns (ok: bool)
      requires Valid() && op.list < |lists| && (op.PullHead? || op.DropTail? || op.ReturnAll?)
      modifies pool, lists, Objects(multiset(all))
      ensures Valid() && OthersKept(op.list) && ok == Fits(op, old(Bytes(op.list)))
      ensures Bytes(op.list) == if ok then After(op, old(Bytes(op.list))) else old(Bytes(op.list))
      ensures pool.count >= old(pool.count)
    {
      hide Conserved, Ordered, Patch, Piece, Objects, Need, Concat, ListValid, PoolValid, Dataset.Valid, Dataset.Bytes;
      hide Start, Dataset.OthersKept;
      Enter(op.list);
      match op {
        case PullHead(i, size, packed) =>
          var out;
          ok, out := PullHead(i, size, packed);
        case DropTail(i, size) => ok := DropTail(i, size);
        case ReturnAll(i) =>
          ReturnAll(i);
          ok := true;
      }
    }

    ghost function AllBytes(): (bs: seq<seq<byte>>)
      requires Valid()
      reads this, pool, lists, all, set s: Segment | s in all :: s.data
      ensures |bs| == |lists| && forall i :: 0 <= i < |lists| ==> bs[i] == Bytes(i)
    {
      seq(|lists|, i requires 0 <= i < |lists| && Valid()
                     reads this, pool, lists, all, set s: Segment | s in all :: s.data
                   => Bytes(i))
    }

    /** Whether an operation was carried out is what the bytes of the lists before it call for. */
    ghost predicate Explained(bs: seq<seq<byte>>, op: Operation, ok: bool) {
      && pool.bufferSize > 0
      && (ok ==> MayWork(op, bs, |all|, pool.bufferSize, pool.threshold))
      && (MustWork(op, bs, |all|, pool.bufferSize, pool.threshold) ==> ok)
    }

    /** Any run of operations on any of the lists: every list has the bytes its own operations give it, no segment is
        lost or made up, no operation is carried out that cannot be, and none refused that must be. */
    method Run(ops: seq<Operation>) returns (done: seq<bool>)
      requires Valid()
      modifies pool, lists, Objects(multiset(all))
      ensures Valid() && |done| == |ops|
      ensures AllBytes() == ReplayedAll(old(AllBytes()), ops, done)
      ensures forall k :: 0 <= k < |ops| ==>
                Explained(ReplayedAll(old(AllBytes()), ops[..k], done[..k]), ops[k], done[k])
      ensures pool.count + SumOfLengths(Segments()) == |all|
      ensures (forall op :: op in ops && (op.PushHead? || op.PushTail?) ==> op.th) ==>
                pool.count >= Min(old(pool.count), pool.threshold)
    {
      hide Objects, Dataset.Valid, Dataset.Bytes, Dataset.AllBytes, Dataset.Explained, ReplayedAll, OneReplayed;
      hide Conserved, SumOfLengths, Dataset.Segments;
      ghost var bs := AllBytes();
      NothingReplayed(bs);
      done := [];
      assert ops[..0] == [];
      while |done| < |ops|
        invariant Valid() && |done| <= |ops|
        invariant AllBytes() == ReplayedAll(bs, ops[..|done|], done)
        invariant (forall op :: op in ops && (op.PushHead? || op.PushTail?) ==> op.th) ==>
                    pool.count >= Min(old(pool.count), pool.threshold)
        invariant forall k :: 0 <= k < |done| ==>
                    Explained(ReplayedAll(bs, ops[..k], done[..k]), ops[k], done[k])
      {
        ghost var k := |done|;
        assert ops[k] in ops;
        var ok := PerformOne(ops[|done|]);
        ReplayedMore(bs, ops[..k], done, ops[k], ok);
        assert ops[..k + 1] == ops[..k] + [ops[k]];
        assert forall j :: 0 <= j <= k ==> (done + [ok])[..j] == done[..j];
        done := done + [ok];
      }
      assert ops[..|done|] == ops;
      NothingLost();
    }

    /** One operation, with what all the lists hold before and after. */
    method PerformOne(op: Operation) returns (ok: bool)
      requires Valid()
      modifies pool, lists, Objects(multiset(all))
      ensures Valid() && Explained(old(AllBytes()), op, ok)
      ensures AllBytes() == OneReplayed(old(AllBytes()), op, ok)
      ensures Leaves(op, old(pool.count), pool.count, pool.threshold)
    {
      ghost var bs := AllBytes();
      MustBeDone(op);
      FewSegments();
      hide Objects, Dataset.Valid, Dataset.Bytes, Dataset.AllBytes, After, Dataset.Works, MustWork, MayWork;
      hide TotalLength, OneReplayed, Dataset.Segments, Dataset.Explained, Fits, Conserved, Leaves;
      ghost var free := pool.count;
      ok := Perform(op);
      CanBeDone(bs, AllBytes(), op, ok, free);
    }

    /** The bytes of all lists need at most one segment each, and fit into the segments there are. */
    lemma RoomForAll()
      requires Valid()
      ensures pool.bufferSize > 0 && SumOfLengths(Segments()) + pool.count == |all|
      ensures SumOfLengths(Segments()) <= TotalLength(AllBytes()) <= SumOfLengths(Segments()) * pool.bufferSize
      ensures TotalLength(AllBytes()) <= |all| * pool.bufferSize
    {
      NothingLost();
      forall i | 0 <= i < |lists|
        ensures |Segments()[i]| <= |AllBytes()[i]| <= |Segments()[i]| * pool.bufferSize
      {
        BytesThere(i);
      }
      assert pool.bufferSize > 0 by { assert PoolValid(); }
      hide Dataset.Valid, Dataset.AllBytes, SumOfLengths, TotalLength;
      TotalsMatch(Segments(), AllBytes(), pool.bufferSize);
      MulMonotone(pool.bufferSize, SumOfLengths(Segments()), |all|);
    }

    lemma MustBeDone(op: Operation)
      requires Valid()
      ensures pool.bufferSize > 0
      ensures MustWork(op, AllBytes(), |all|, pool.bufferSize, pool.threshold) ==> Works(op)
      ensures Works(op) && !op.PushHead? && !op.PushTail? ==>
                MayWork(op, AllBytes(), |all|, pool.bufferSize, pool.threshold)
    {
      RoomForAll();
      if op.list < |lists| && (op.PushHead? || op.PushTail?) {
        assert ListValid(op.list);
        SegmentsOf(op.list);
        var l := lists[op.list];
        NeedsAtMost(|op.data|, if op.PushHead? then l.HeadRoom() else l.TailRoom(), pool.bufferSize);
      }
    }

    lemma FewSegments()
      requires Valid()
      ensures pool.count <= |all| && |all| - pool.count <= TotalLength(AllBytes())
    {
      RoomForAll();
    }

    lemma CanBeDone(bs: seq<seq<byte>>, bs': seq<seq<byte>>, op: Operation, ok: bool, free: nat)
      requires Valid() && bs' == AllBytes() && |bs| == |bs'| && (ok ==> op.list < |bs|)
      requires forall i :: 0 <= i < |bs| ==> bs'[i] == if ok && op.list == i then After(op, bs[i]) else bs[i]
      requires |all| - free <= TotalLength(bs) && Leaves(op, free, pool.count, pool.threshold)
      requires pool.bufferSize > 0 && (MustWork(op, bs, |all|, pool.bufferSize, pool.threshold) ==> ok)
      requires ok && !op.PushHead? && !op.PushTail? ==> MayWork(op, bs, |all|, pool.bufferSize, pool.threshold)
      ensures bs' == OneReplayed(bs, op, ok) && Explained(bs, op, ok)
    {
      hide MustWork;
      if ok && (op.PushHead? || op.PushTail?) {
        PushedTotal(bs, bs', op);
        PushHeld(TotalLength(bs), |op.data|, op.th);
      }
    }

    lemma PushHeld(held: nat, bytes: nat, th: bool)
      requires Valid() && TotalLength(AllBytes()) == held + bytes
      requires |all| - pool.count <= held || pool.count >= if th then pool.threshold else 0
      ensures MayHold(bytes, th, held, |all|, pool.bufferSize, pool.threshold)
    {
      RoomForAll();
      HeldAfter(bytes, th, held, |all|, pool.count, pool.bufferSize, pool.threshold);
    }

    /** The counter of the pool and the lengths of all lists add up to the number of buffers. */
    lemma NothingLost()
      requires Valid()
      ensures pool.count == |pool.free| && pool.count + SumOfLengths(Segments()) == |all|
    {
      LengthOfConcat(Segments());
      assert PoolValid();
      assert |multiset(pool.free + Concat(Segments()))| == |multiset(all)|;
    }

    /** A buffer that belongs to no segment may receive bytes of list i. */
    lemma OwnBuffer(i: nat, to: array<byte>, size: nat)
      requires Conserved() && i < |lists| && to.Length == size && forall k :: 0 <= k < |all| ==> all[k].data != to
      ensures lists[i].Foreign(to, 0, size)
      ensures forall x: seq<byte> :: |x| == size ==> Patch(to[..], 0, x) == x
    {
      hide Concat, Apart;
      PartFits(i);
      forall s | s in multiset(pool.free + lists[i].list)
        ensures s.data != to
      {
        assert multiset(pool.free + lists[i].list) == multiset(pool.free) + multiset(lists[i].list);
        assert s in multiset(all) && s in all;
      }
    }

    /** Before an operation on list i. */
    lemma Enter(i: nat)
      requires Valid() && i < |lists|
      ensures lists[i].Valid() && lists[i].totalLength == |Bytes(i)|
      ensures Objects(multiset(lists[i].list)) <= Objects(multiset(pool.free + lists[i].list)) <= Objects(multiset(all))
      ensures forall j, k :: 0 <= j < |lists| && j != i && 0 <= k < |lists[j].list| ==>
                Beyond(lists[j].list[k], Objects(multiset(pool.free + lists[i].list)))
      ensures forall j :: 0 <= j < |lists| ==> lists[j] as object !in Objects(multiset(pool.free + lists[i].list))
    {
      forall j | 0 <= j < |lists|
        ensures lists[j] as object !in Objects(multiset(pool.free + lists[i].list))
      {
        ListIsNone(lists[j], multiset(pool.free + lists[i].list));
      }
      hide Concat, Apart, Objects;
      assert ListValid(i);
      OutOfReach(i);
      WithinReach(i);
    }

    lemma WithinReach(i: nat)
      requires Conserved() && i < |lists|
      ensures Objects(multiset(lists[i].list)) <= Objects(multiset(pool.free + lists[i].list)) <= Objects(multiset(all))
    {
      hide Concat, Apart;
      PartFits(i);
      PartObjects(pool.free, lists[i].list);
      MoreObjects(multiset(pool.free + lists[i].list), multiset(all));
    }

    /** The segments of another list are out of reach of an operation on list i. */
    lemma OutOfReach(i: nat)
      requires Conserved() && i < |lists|
      ensures forall j, k :: 0 <= j < |lists| && j != i && 0 <= k < |lists[j].list| ==>
                Beyond(lists[j].list[k], Objects(multiset(pool.free + lists[i].list)))
    {
      forall j, k | 0 <= j < |lists| && j != i && 0 <= k < |lists[j].list|
        ensures Beyond(lists[j].list[k], Objects(multiset(pool.free + lists[i].list)))
      {
        var s := lists[j].list[k];
        TwoPartsOfConcat(Segments(), i, j);
        assert multiset{s} <= multiset(lists[j].list);
        assert multiset(pool.free + lists[i].list) == multiset(pool.free) + multiset(lists[i].list);
        assert multiset(pool.free + Concat(Segments())) == multiset(pool.free) + multiset(Concat(Segments()));
        assert multiset{s} + multiset(pool.free + lists[i].list) <= multiset(all);
        ClearIsBeyond(s, pool.free + lists[i].list, multiset(all));
      }
    }

    /** All lists but list i are as they were. */
    twostate predicate OthersKept(i: nat)
      requires old(Valid()) && Valid()
      reads this, pool, lists, all, set s: Segment | s in all :: s.data
    {
      forall j :: 0 <= j < |lists| && j != i ==> lists[j].list == old(lists[j].list) && Bytes(j) == old(Bytes(j))
    }

    /** An operation on list i that only moves segments between it and the pool conserves them all,
        and keeps all other lists. */
    twostate lemma AfterOperation(new i: nat)
      requires old(Valid()) && i < |lists| && lists[i].Valid()
      requires multiset(pool.free + lists[i].list) == old(multiset(pool.free + lists[i].list))
      requires forall j :: 0 <= j < |lists| && j != i ==> unchanged(lists[j])
      requires forall j, k :: 0 <= j < |lists| && j != i && 0 <= k < |lists[j].list| ==>
                 unchanged(lists[j].list[k]) && unchanged(lists[j].list[k].data)
      ensures Valid() && OthersKept(i)
    {
      hide Apart, Flat, Sized, NoneEmpty, AllBlank, Concat, Pool.Valid;
      StillConserved(i);
      forall j | 0 <= j < |lists| && j != i
        ensures lists[j].Valid() && old(lists[j].Valid()) && lists[j].Contents() == old(lists[j].Contents())
      {
        assert old(ListValid(j)) && lists[j].pool == pool;
        OtherListKept(j);
      }
    }

    twostate lemma StillConserved(new i: nat)
      requires old(Conserved()) && i < |lists|
      requires multiset(pool.free + lists[i].list) == old(multiset(pool.free + lists[i].list))
      requires forall j :: 0 <= j < |lists| && j != i ==> unchanged(lists[j])
      ensures Conserved()
    {
      hide Concat, Apart;
      var ls, ls', f, f' := old(Segments()), Segments(), old(pool.free), pool.free;
      assert ls' == ls[i := lists[i].list];
      ConcatUpdate(ls, i, ls'[i]);
      assert multiset(f + ls[i]) == multiset(f) + multiset(ls[i]);
      assert multiset(f' + ls'[i]) == multiset(f') + multiset(ls'[i]);
      SameTogether(multiset(f), multiset(ls[i]), multiset(Concat(ls)),
                   multiset(f'), multiset(ls'[i]), multiset(Concat(ls')));
      assert multiset(f + Concat(ls)) == multiset(f) + multiset(Concat(ls));
      assert multiset(f' + Concat(ls')) == multiset(f') + multiset(Concat(ls'));
    }

    twostate lemma OtherListKept(new j: nat)
      requires j < |lists| && lists[j].pool == pool && old(lists[j].Valid()) && pool.Valid() && Conserved()
      requires unchanged(lists[j]) &&
               forall k ::
                 0 <= k < |lists[j].list| ==> unchanged(lists[j].list[k]) && unchanged(lists[j].list[k].data)
      ensures lists[j].Valid() && lists[j].Contents() == old(lists[j].Contents())
    {
      PartFits(j);
      hide Apart, Flat, Sized, NoneEmpty, AllBlank, Concat, Pool.Valid, SegmentList.Valid, SegmentList.Shaped,
           SegmentList.Contents;
      ListKept(lists[j], multiset(all));
    }

    lemma PartFits(j: nat)
      requires Conserved() && j < |lists|
      ensures multiset(pool.free) + multiset(lists[j].list) <= multiset(all)
    {
      hide Apart, Concat;
      PartOfConcat(Segments(), j);
      assert multiset(pool.free + Concat(Segments())) == multiset(pool.free) + multiset(Concat(Segments()));
    }

    lemma NothingHeld()
      requires pool.Valid() && all == pool.free
      requires forall j ::
                 0 <= j < |lists| ==> lists[j].pool == pool && lists[j].list == [] && lists[j].totalLength == 0
      requires forall j, k :: 0 <= j < k < |lists| ==> lists[j] != lists[k]
      ensures Valid()
    {
      ConcatOfEmpty(Segments());
      assert pool.free + [] == pool.free;
      forall i | 0 <= i < |lists|
        ensures lists[i].Valid()
      {
        NothingAtAll(lists[i].list);
        assert pool.free + lists[i].list == pool.free;
      }
    }
  }

  /** What two parts of a whole become when the first gives and takes: the whole stays. */
  lemma SameTogether(free0: multiset<Segment>, a0: multiset<Segment>, c0: multiset<Segment>,
                     free: multiset<Segment>, a: multiset<Segment>, c: multiset<Segment>)
    requires free + a == free0 + a0 && c + a0 == c0 + a
    ensures free + c == free0 + c0
  {
    assert free + c + a0 == free + (c + a0) == (free + a) + c0 == free0 + c0 + a0;
    assert (free + c + a0) - a0 == free + c && (free0 + c0 + a0) - a0 == free0 + c0;
  }

  /** The loop over the buffers. */
  method FullPool(n: nat, bufferSize: nat, threshold: nat) returns (p: Pool)
    requires bufferSize > 0
    ensures fresh(p) && p.Valid() && |p.free| == n && p.bufferSize == bufferSize && p.threshold == threshold
  {
    hide Pool.Valid;
    p := new Pool(bufferSize, threshold);
    for i := 0 to n
      invariant p.Valid() && fresh(p) && |p.free| == i && p.bufferSize == bufferSize && p.threshold == threshold
    {
      AddNew(p);
    }
  }

  method AddNew(p: Pool)
    requires p.Valid()
    modifies p
    ensures p.Valid() && |p.free| == |old(p.free)| + 1
  {
    hide Apart, Sized, AllBlank;
    var space := new byte[p.bufferSize];
    var b := new Segment(space);
    NewInPool(p.free, b);
    p.Add(b);
  }

  /** A list out of reach keeps its segments and its bytes. */
  twostate lemma ListKept(l: SegmentList, new all: multiset<Segment>)
    requires old(l.Valid()) && unchanged(l) && l.pool.Valid() && Apart(all) &&
             multiset(l.pool.free) + multiset(l.list) <= all
    requires forall k :: 0 <= k < |l.list| ==> unchanged(l.list[k]) && unchanged(l.list[k].data)
    ensures l.Valid() && l.Contents() == old(l.Contents())
  {
    KeptFlat(l.list);
    ApartSub(multiset(l.pool.free + l.list), all);
  }

  /** The loop over the lists. */
  method EmptyLists(p: Pool, n: nat) returns (ls: seq<SegmentList>)
    requires p.Valid()
    ensures |ls| == n
    ensures forall j :: 0 <= j < |ls| ==> ls[j].pool == p && ls[j].list == [] && ls[j].totalLength == 0
    ensures forall j, k :: 0 <= j < k < |ls| ==> ls[j] != ls[k]
  {
    hide Pool.Valid, SegmentList.Valid, SegmentList.Shaped, SegmentList.Contents;
    ls := [];
    for i := 0 to n
      invariant p.Valid() && |ls| == i
      invariant forall j :: 0 <= j < |ls| ==> ls[j].pool == p && ls[j].list == [] && ls[j].totalLength == 0
      invariant forall j, k :: 0 <= j < k < |ls| ==> ls[j] != ls[k]
    {
      var l := new SegmentList(p);
      ls := ls + [l];
    }
  }
}
