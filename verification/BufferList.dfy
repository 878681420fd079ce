/** Lists of segments drawn from a shared pool: whatever the segmentation, they behave as one flat byte sequence. */
module BufferList {
  import opened Words
  import opened FsBuffer

  /** The segments and their arrays. */
  ghost function Objects(m: multiset<Segment>): set<object> {
    (set s: Segment | s in m :: s as object) + (set s: Segment | s in m :: s.data as object)
  }

  /** No segment is there twice, and no two share their bytes. */
  ghost predicate Apart(m: multiset<Segment>) {
    && (forall s :: s in m ==> m[s] == 1)
    && (forall s, t :: s in m && t in m && s != t ==> s.data != t.data)
  }

  /** Segments of n bytes. */
  ghost predicate Sized(segs: seq<Segment>, n: nat)
    reads segs
  {
    forall i :: 0 <= i < |segs| ==> segs[i].Ok() && segs[i].data.Length == n
  }

  ghost predicate NoneEmpty(segs: seq<Segment>)
    reads segs
  {
    forall i :: 0 <= i < |segs| ==> segs[i].length > 0
  }

  ghost predicate AllBlank(segs: seq<Segment>)
    reads segs
  {
    forall i :: 0 <= i < |segs| ==> segs[i].head == 0 && segs[i].length == 0
  }

  /** The bytes of the segments, one after the other. */
  ghost function Flat(segs: seq<Segment>): (b: seq<byte>)
    requires forall i :: 0 <= i < |segs| ==> segs[i].Ok()
    reads segs, set s: Segment | s in segs :: s.data
  {
    if segs == [] then [] else segs[0].Bytes() + Flat(segs[1..])
  }

  lemma {:induction false} FlatOfSum(a: seq<Segment>, b: seq<Segment>)
    requires (forall i :: 0 <= i < |a| ==> a[i].Ok()) && (forall i :: 0 <= i < |b| ==> b[i].Ok())
    ensures Flat(a + b) == Flat(a) + Flat(b)
  {
    if a == [] {
      assert a + b == b;
    } else {
      assert (a + b)[1..] == a[1..] + b;
      FlatOfSum(a[1..], b);
    }
  }

  /** b is none of the segments, and shares no bytes with them. */
  ghost predicate Clear(b: Segment, segs: seq<Segment>) {
    forall i :: 0 <= i < |segs| ==> segs[i] != b && segs[i].data != b.data
  }

  lemma ApartSub(a: multiset<Segment>, m: multiset<Segment>)
    requires Apart(m) && a <= m
    ensures Apart(a)
  {
    forall s | s in a
      ensures a[s] == 1 && s in m
    {
      assert a[s] <= m[s];
    }
  }

  lemma ClearOf(b: Segment, segs: seq<Segment>, m: multiset<Segment>)
    requires Apart(m) && multiset{b} + multiset(segs) <= m
    ensures Clear(b, segs)
  {
    var sum := multiset{b} + multiset(segs);
    ApartSub(sum, m);
    forall i | 0 <= i < |segs|
      ensures segs[i] != b && segs[i].data != b.data
    {
      assert segs[i] in multiset(segs) && segs[i] in sum && b in sum;
      assert sum[b] == 1 + multiset(segs)[b];
    }
  }

  lemma ApartParts(a: seq<Segment>, b: seq<Segment>)
    requires Apart(multiset(a + b))
    ensures Apart(multiset(a)) && Apart(multiset(b))
    ensures b != [] ==> Clear(b[0], a) && Clear(b[0], b[1..]) && Clear(b[|b| - 1], a) && Clear(b[|b| - 1], b[..|b| - 1])
  {
    hide Apart, Clear;
    var m := multiset(a + b);
    assert m == multiset(a) + multiset(b);
    ApartSub(multiset(a), m);
    ApartSub(multiset(b), m);
    if b != [] {
      EndsOf(b);
      ClearOf(b[0], a, m);
      ClearOf(b[0], b[1..], m);
      ClearOf(b[|b| - 1], a, m);
      ClearOf(b[|b| - 1], b[..|b| - 1], m);
    }
  }

  lemma EndsOf(b: seq<Segment>)
    requires b != []
    ensures multiset(b) == multiset{b[0]} + multiset(b[1..]) == multiset{b[|b| - 1]} + multiset(b[..|b| - 1])
  {
    assert b == [b[0]] + b[1..] == b[..|b| - 1] + [b[|b| - 1]];
  }

  /** Segments clear of the one that changed are as they were. */
  twostate lemma Kept(new b: Segment, segs: seq<Segment>, new n: nat)
    requires Clear(b, segs) && old(Sized(segs, n))
    requires forall i :: 0 <= i < |segs| && segs[i] != b ==> unchanged(segs[i])
    requires forall i :: 0 <= i < |segs| && segs[i].data != b.data ==> unchanged(segs[i].data)
    ensures Sized(segs, n) && Flat(segs) == old(Flat(segs))
    ensures old(NoneEmpty(segs)) ==> NoneEmpty(segs)
    ensures old(AllBlank(segs)) ==> AllBlank(segs)
  {
    KeptFlat(segs);
  }

  twostate lemma {:induction false} KeptFlat(segs: seq<Segment>)
    requires forall i :: 0 <= i < |segs| ==> old(segs[i].Ok()) && unchanged(segs[i]) && unchanged(segs[i].data)
    ensures forall i :: 0 <= i < |segs| ==> segs[i].Ok()
    ensures Flat(segs) == old(Flat(segs))
  {
    if segs != [] {
      KeptFlat(segs[1..]);
    }
  }

  /** Segments needed for size bytes when the list still has room for some of them. */
  function Need(size: nat, room: nat, bufferSize: nat): nat
    requires bufferSize > 0
  {
    if size <= room then 0 else CeilDiv(size - room, bufferSize)
  }

  /** Filling the room there is changes nothing about the need; a new segment is one needed less. */
  lemma NeedStep(size: nat, room: nat, bufferSize: nat)
    requires bufferSize > 0 && size > 0
    ensures room > 0 ==>
              Need(size - Min(room, size), room - Min(room, size), bufferSize) == Need(size, room, bufferSize)
    ensures room == 0 ==>
              Need(size - Min(bufferSize, size), bufferSize - Min(bufferSize, size), bufferSize) + 1 ==
                Need(size, 0, bufferSize)
  {
    if room == 0 {
      if size <= bufferSize {
        DivModUnique(size + bufferSize - 1, bufferSize, 1, size - 1);
      } else {
        var q, r := (size - 1) / bufferSize, (size - 1) % bufferSize;
        DivModUnique(size - 1 + bufferSize, bufferSize, q + 1, r);
      }
    }
  }

  /** The need is the least number of segments that hold what the room does not: k are enough exactly when the bytes fit
      into the room and k segments. */
  lemma NeedIsLeast(size: nat, room: nat, bufferSize: nat, k: int)
    requires bufferSize > 0
    ensures size > room ==> (Need(size, room, bufferSize) <= k <==> size <= room + k * bufferSize)
    ensures Need(size, room, bufferSize) == 0 <==> size <= room
  {
    if size > room {
      var missing, q := size - room, Need(size, room, bufferSize);
      assert missing + bufferSize - 1 == bufferSize * q + (missing + bufferSize - 1) % bufferSize;
      assert bufferSize * (q - 1) < missing <= bufferSize * q;
      if q <= k {
        MulMonotone(bufferSize, q, k);
      } else {
        MulMonotone(bufferSize, k, q - 1);
      }
      assert bufferSize * k == k * bufferSize;
    }
  }

  /** The n bytes of the caller's data moved next, and those left: in reverse they are taken off the end. */
  function NextBytes(rest: seq<byte>, n: nat, reverse: bool): (r: seq<byte>)
    requires n <= |rest|
    ensures |r| == n
  {
    if reverse then rest[|rest| - n..] else rest[..n]
  }

  function LeftBytes(rest: seq<byte>, n: nat, reverse: bool): (r: seq<byte>)
    requires n <= |rest|
    ensures |r| == |rest| - n
  {
    if reverse then rest[..|rest| - n] else rest[n..]
  }

  /** The free buffers of a file descriptor. */
  class Pool {
    const bufferSize: nat
    const threshold: nat
    var free: seq<Segment>
    var count: nat
    var spaceAvailable: bool

    /** An empty pool, before fs_buffer_dataset adds its buffers. */
    constructor (bufferSize: nat, threshold: nat)
      requires bufferSize > 0
      ensures Valid() && free == [] && this.bufferSize == bufferSize && this.threshold == threshold
    {
      this.bufferSize, this.threshold := bufferSize, threshold;
      free, count, spaceAvailable := [], 0, false;
    }

    ghost predicate Valid()
      reads this, free
    {
      && bufferSize > 0 && count == |free| && (spaceAvailable <==> free != [])
      && Apart(multiset(free)) && Sized(free, bufferSize) && AllBlank(free)
    }

    /** fs_buffer_get of a free buffer */
    method Get() returns (b: Segment?)
      requires Valid()
      modifies this
      ensures Valid()
      ensures old(free) == [] ==> b == null && free == []
      ensures old(free) != [] ==> b == old(free[0]) && free == old(free[1..])
    {
      b := null;
      if free != [] {
        EndsOf(free);
        ApartSub(multiset(free[1..]), multiset(free));
        b, free := free[0], free[1..];
      }
      if b != null {
        count := count - 1;
      }
      if free == [] {
        spaceAvailable := false;
      }
    }

    /** fs_buffer_add of a free buffer */
    method Add(b: Segment)
      requires Valid() && Apart(multiset(free + [b])) && b.data.Length == bufferSize
      modifies this, b`head, b`length
      ensures Valid() && free == old(free) + [b]
    {
      b.Init();
      free := free + [b];
      count := count + 1;
      spaceAvailable := true;
    }
  }

  class SegmentList {
    const pool: Pool
    var list: seq<Segment>
    var totalLength: nat

    /** Valid(), except that segments may be empty. */
    ghost predicate Shaped()
      reads this, pool, pool.free, list
      ensures Shaped() ==> forall i :: 0 <= i < |list| ==> list[i].Ok()
    {
      && pool.Valid() && Apart(multiset(pool.free + list)) && Sized(list, pool.bufferSize)
    }

    ghost predicate Valid()
      reads this, pool, pool.free, list, set s: Segment | s in list :: s.data
      ensures Valid() ==> Shaped() && pool.bufferSize > 0
    {
      Shaped() && NoneEmpty(list) && totalLength == |Flat(list)|
    }

    ghost function Contents(): seq<byte>
      requires Shaped()
      reads this, pool, pool.free, list, set s: Segment | s in list :: s.data
    {
      Flat(list)
    }

    /** fs_buffer_list_init */
    constructor (pool: Pool)
      requires pool.Valid()
      ensures Valid() && this.pool == pool && list == [] && totalLength == 0 && Contents() == []
    {
      this.pool, list, totalLength := pool, [], 0;
      new;
      assert pool.free + [] == pool.free;
    }

    /** How many bytes lie before segment i. */
    ghost function Before(i: nat): nat
      requires Shaped() && i <= |list|
      reads this, pool, pool.free, list, set s: Segment | s in list :: s.data
    {
      |Flat(list[..i])|
    }

    /** The room a push at the head finds without a new segment. */
    function HeadRoom(): nat
      requires list != [] ==> list[0].Ok()
      reads this, list
    {
      if list == [] then 0 else list[0].Space()
    }

    function TailRoom(): nat
      requires list != [] ==> list[|list| - 1].Ok()
      reads this, list
    {
      if list == [] then 0 else list[|list| - 1].TailRoom()
    }

    /** Put bytes into the room of the first segment. */
    method FillHead(from: seq<byte>, packed: bool)
      requires Shaped() && list != [] && from != [] && |from| <= list[0].Space()
      requires NoneEmpty(list[1..]) && totalLength == |Flat(list)|
      modifies this`totalLength, list[0], list[0].data
      ensures Valid() && list[0].Space() == old(list[0].Space()) - |from|
      ensures Contents() == Ordered(packed, from) + old(Contents())
    {
      hide Ordered, Patch, Apart, Clear, Sized, NoneEmpty, AllBlank, Flat, Rev;
      FirstOf(list, pool.bufferSize);
      ApartParts(pool.free, list);
      ghost var b, rest := list[0].Bytes(), Flat(list[1..]);
      PushFirst(from, packed);
      totalLength := totalLength + |from|;
      Regroup(Ordered(packed, from), b, rest);
    }

    method PushFirst(from: seq<byte>, packed: bool)
      requires Shaped() && list != [] && from != [] && |from| <= list[0].Space() && NoneEmpty(list[1..])
      requires Clear(list[0], pool.free) && Clear(list[0], list[1..]) && Sized(list[1..], pool.bufferSize)
      modifies list[0], list[0].data
      ensures Shaped() && NoneEmpty(list) && list[0].Space() == old(list[0].Space()) - |from|
      ensures list[0].Bytes() == Ordered(packed, from) + old(list[0].Bytes())
      ensures Flat(list) == list[0].Bytes() + old(Flat(list[1..]))
    {
      hide Ordered, Patch, Apart, Clear, Sized, NoneEmpty, AllBlank, Flat, Rev;
      FirstOf(list, pool.bufferSize);
      var buffer := list[0];
      var _ := buffer.Push(from, 0, packed, false, true);
      Kept(buffer, list[1..], pool.bufferSize);
      Kept(buffer, pool.free, pool.bufferSize);
      Rebuilt(list, pool.bufferSize);
    }

    /** Get a segment from the pool; it is in no list. */
    method GetSegment() returns (buffer: Segment)
      requires Valid() && pool.free != []
      modifies pool
      ensures pool.Valid() && pool.free == old(pool.free[1..]) && buffer == old(pool.free[0])
      ensures buffer.head == 0 && buffer.length == 0 && buffer.Ok() && buffer.data.Length == pool.bufferSize
      ensures Clear(buffer, pool.free) && Clear(buffer, list)
      ensures Apart(multiset(pool.free + ([buffer] + list))) && Apart(multiset(pool.free + (list + [buffer])))
    {
      hide Apart, Clear, Sized, NoneEmpty, AllBlank, Flat;
      FirstOf(pool.free, pool.bufferSize);
      FirstBlank(pool.free);
      MoveFront(pool.free, list);
      ApartParts(pool.free[1..], [pool.free[0]] + list);
      assert ([pool.free[0]] + list)[1..] == list;
      buffer := pool.Get();
    }

    /** fs_buffer_add_head on a new segment, which is asked for its length: for nothing. */
    method AskForNone(buffer: Segment)
      requires pool.Valid() && Sized(list, pool.bufferSize) && Clear(buffer, pool.free) && Clear(buffer, list)
      requires buffer.Ok() && buffer.head == buffer.length == 0
      modifies buffer`head, buffer.data
      ensures pool.Valid() && Sized(list, pool.bufferSize) && Flat(list) == old(Flat(list))
      ensures buffer.head == 0 && (old(NoneEmpty(list)) ==> NoneEmpty(list))
    {
      hide Apart, Clear, Sized, NoneEmpty, AllBlank, Flat;
      var _ := buffer.AddHead(buffer.length);
      Kept(buffer, pool.free, pool.bufferSize);
      Kept(buffer, list, pool.bufferSize);
    }

    /** Put a segment from the pool in front of the list. */
    method NewHead()
      requires Valid() && pool.free != []
      modifies this`list, pool, pool.free[0], pool.free[0].data
      ensures Shaped() && list == [old(pool.free[0])] + old(list) && pool.free == old(pool.free[1..])
      ensures list[0].length == 0 && list[0].Space() == pool.bufferSize && NoneEmpty(list[1..])
      ensures Flat(list) == old(Flat(list))
    {
      hide Apart, Clear, Sized, NoneEmpty, AllBlank, Flat;
      ghost var was := list;
      var buffer := GetSegment();
      AskForNone(buffer);
      list := [buffer] + list;
      assert list[1..] == was;
      Rebuilt(list, pool.bufferSize);
      BlankFirst(list);
    }

    /** Make sure that there is room in the first segment. */
    method EnsureHead()
      requires Valid() && (HeadRoom() == 0 ==> pool.free != [])
      modifies this`list, pool, Objects(multiset(pool.free + list))
      ensures Shaped() && list != [] && NoneEmpty(list[1..]) && Flat(list) == old(Flat(list)) &&
              totalLength == old(totalLength)
      ensures list[0].Space() == (if old(HeadRoom()) > 0 then old(HeadRoom()) else pool.bufferSize) > 0
      ensures pool.count == old(pool.count) - if old(HeadRoom()) > 0 then 0 else 1
      ensures multiset(pool.free + list) == old(multiset(pool.free + list))
    {
      hide Apart, Clear, Sized, NoneEmpty, AllBlank, Flat, Objects;
      EndObjects(pool.free, list);
      if list == [] || list[0].Space() == 0 {
        MoveFront(pool.free, list);
        NewHead();
      } else {
        NoneEmptyRest(list);
      }
    }

    /** One turn of the loop that pushes at the head: the next piece, into the first segment or a new one. */
    method HeadStep(rest: seq<byte>, packed: bool, reverse: bool) returns (n: nat)
      requires Valid() && rest != [] && (HeadRoom() == 0 ==> pool.free != [])
      modifies this, pool, Objects(multiset(pool.free + list))
      ensures Valid() && 0 < n <= |rest|
      ensures Contents() == Ordered(packed, NextBytes(rest, n, reverse)) + old(Contents())
      ensures var room := if old(HeadRoom()) > 0 then old(HeadRoom()) else pool.bufferSize;
              n == Min(room, |rest|) && HeadRoom() == room - n
      ensures pool.count == old(pool.count) - if old(HeadRoom()) > 0 then 0 else 1
      ensures multiset(pool.free + list) == old(multiset(pool.free + list))
    {
      hide Ordered, Apart, Clear, Sized, NoneEmpty, AllBlank, Flat, Rev, Objects, NextBytes;
      EnsureHead();
      EndObjects(pool.free, list);
      n := Min(list[0].Space(), |rest|);
      FillHead(NextBytes(rest, n, reverse), packed);
    }

    /** So many segments can be had, leaving the threshold if the caller wants it left. */
    ghost predicate Granted(n: nat, th: bool)
      reads this, pool
    {
      n == 0 || pool.count >= (if th then pool.threshold else 0) + n
    }

    /** What is granted leaves the threshold to a caller that asks for it, and it is all that can: so many bytes find
        room, or would after as many new segments as there are beyond the threshold. */
    lemma GrantedIf(size: nat, room: nat, th: bool)
      requires pool.bufferSize > 0
      ensures Granted(Need(size, room, pool.bufferSize), th) <==>
                size <= room || size <= room + (pool.count - if th then pool.threshold else 0) * pool.bufferSize
      ensures Granted(Need(size, room, pool.bufferSize), th) && size > room ==>
                pool.count - Need(size, room, pool.bufferSize) >= if th then pool.threshold else 0
    {
      NeedIsLeast(size, room, pool.bufferSize, pool.count - if th then pool.threshold else 0);
    }

    /** The room of a segment is what its bytes leave of it, at the tail without its head room. */
    lemma RoomsAre()
      requires Valid()
      ensures list == [] ==> HeadRoom() == TailRoom() == 0
      ensures list != [] ==>
                && HeadRoom() == pool.bufferSize - |list[0].Bytes()|
                && TailRoom() == pool.bufferSize - |list[|list| - 1].Bytes()| - list[|list| - 1].head
    {
    }

    /** The pool refuses a push that needs n segments; the source compares once, before it takes the first. */
    method Refuses(n: nat, th: bool) returns (no: bool)
      ensures no == !Granted(n, th)
      ensures n > 0 ==> (no <==> pool.count - n < if th then pool.threshold else 0)
    {
      no := n > 0 && pool.count < (if th then pool.threshold else 0) + n;
    }

    /** fs_buffer_list_push_offset at the head: all of the data, or none of it. */
    method PushHead(data: seq<byte>, packed: bool, th: bool) returns (ok: bool)
      requires Valid()
      modifies this, pool, Objects(multiset(pool.free + list))
      ensures Valid() && multiset(pool.free + list) == old(multiset(pool.free + list))
      ensures ok == old(Granted(Need(|data|, HeadRoom(), pool.bufferSize), th))
      ensures ok <==>
                || |data| <= old(HeadRoom())
                || |data| <= old(HeadRoom() + (pool.count - if th then pool.threshold else 0) * pool.bufferSize)
      ensures pool.count == old(pool.count) || pool.count >= if th then pool.threshold else 0
      ensures ok ==> Contents() == Ordered(packed, data) + old(Contents())
      ensures ok ==> pool.count == old(pool.count) - old(Need(|data|, HeadRoom(), pool.bufferSize))
      ensures !ok ==> list == old(list) && pool.free == old(pool.free) && Contents() == old(Contents())
    {
      hide Ordered, Apart, Clear, Sized, NoneEmpty, AllBlank, Flat, Rev, Objects;
      var thisSize := if list != [] && list[0].Space() > 0 then Min(list[0].Space(), |data|) else 0;
      var numBuffers: nat := 0;
      if |data| - thisSize > 0 {
        numBuffers := CeilDiv(|data| - thisSize, pool.bufferSize);
      }
      ghost var need := Need(|data|, HeadRoom(), pool.bufferSize);
      assert numBuffers == need;
      GrantedIf(|data|, HeadRoom(), th);
      var no := Refuses(numBuffers, th);
      if no {
        return false;
      }
      PushAllHead(data, packed);
      ok := true;
    }

    /** The loop of a push at the head, when there are enough segments. */
    method PushAllHead(data: seq<byte>, packed: bool)
      requires Valid() && pool.count >= Need(|data|, HeadRoom(), pool.bufferSize)
      modifies this, pool, Objects(multiset(pool.free + list))
      ensures Valid() && multiset(pool.free + list) == old(multiset(pool.free + list))
      ensures Contents() == Ordered(packed, data) + old(Contents())
      ensures pool.count == old(pool.count) - old(Need(|data|, HeadRoom(), pool.bufferSize))
    {
      hide Ordered, Apart, Clear, Sized, NoneEmpty, AllBlank, Flat, Rev, Need, Objects, NextBytes, LeftBytes;
      ghost var goal := Ordered(packed, data) + Contents();
      ghost var left := pool.count - Need(|data|, HeadRoom(), pool.bufferSize);
      var rest := data;
      while rest != []
        invariant Valid() && multiset(pool.free + list) == old(multiset(pool.free + list))
        invariant Ordered(packed, rest) + Contents() == goal
        invariant pool.count == left + Need(|rest|, HeadRoom(), pool.bufferSize)
        decreases |rest|
      {
        rest := HeadTurn(rest, packed);
      }
      NothingLeft(packed, Contents(), HeadRoom(), pool.bufferSize);
    }

    /** One turn of that loop: what is left to push needs what is left of the segments counted. */
    method HeadTurn(data: seq<byte>, packed: bool) returns (rest: seq<byte>)
      requires Valid() && data != [] && pool.count >= Need(|data|, HeadRoom(), pool.bufferSize)
      modifies this, pool, Objects(multiset(pool.free + list))
      ensures Valid() && |rest| < |data| && multiset(pool.free + list) == old(multiset(pool.free + list))
      ensures Ordered(packed, rest) + Contents() == Ordered(packed, data) + old(Contents())
      ensures pool.count - Need(|rest|, HeadRoom(), pool.bufferSize)
           == old(pool.count - Need(|data|, HeadRoom(), pool.bufferSize))
    {
      hide Ordered, Apart, Clear, Sized, NoneEmpty, AllBlank, Flat, Rev, Need, Objects, NextBytes, LeftBytes;
      NeedsOne(|data|, HeadRoom(), pool.bufferSize);
      ghost var before, room := Contents(), HeadRoom();
      var reverse := !packed;
      var n := HeadStep(data, packed, reverse);
      NeedAfter(|data|, room, pool.bufferSize, n, HeadRoom());
      NextPiece(packed, data, n, true);
      Regroup(Ordered(packed, LeftBytes(data, n, reverse)), Ordered(packed, NextBytes(data, n, reverse)), before);
      rest := LeftBytes(data, n, reverse);
    }

    /** Put bytes into the room of the last segment. */
    method FillTail(from: seq<byte>, packed: bool)
      requires Shaped() && list != [] && from != [] && |from| <= list[|list| - 1].TailRoom()
      requires NoneEmpty(list[..|list| - 1]) && totalLength == |Flat(list)|
      modifies this`totalLength, list[|list| - 1], list[|list| - 1].data
      ensures Valid() && list[|list| - 1].TailRoom() == old(list[|list| - 1].TailRoom()) - |from|
      ensures Contents() == old(Contents()) + Ordered(packed, from)
    {
      hide Ordered, Patch, Apart, Clear, Sized, NoneEmpty, AllBlank, Flat, Rev;
      LastOf(list, pool.bufferSize);
      ApartParts(pool.free, list);
      ghost var b, rest := list[|list| - 1].Bytes(), Flat(list[..|list| - 1]);
      PushLast(from, packed);
      totalLength := totalLength + |from|;
      Regroup(rest, b, Ordered(packed, from));
    }

    method PushLast(from: seq<byte>, packed: bool)
      requires Shaped() && list != [] && from != [] && |from| <= list[|list| - 1].TailRoom() &&
               NoneEmpty(list[..|list| - 1])
      requires Clear(list[|list| - 1], pool.free) && Clear(list[|list| - 1], list[..|list| - 1]) &&
               Sized(list[..|list| - 1], pool.bufferSize)
      modifies list[|list| - 1], list[|list| - 1].data
      ensures Shaped() && NoneEmpty(list) && list[|list| - 1].TailRoom() == old(list[|list| - 1].TailRoom()) - |from|
      ensures list[|list| - 1].Bytes() == old(list[|list| - 1].Bytes()) + Ordered(packed, from)
      ensures Flat(list) == old(Flat(list[..|list| - 1])) + list[|list| - 1].Bytes()
    {
      hide Ordered, Patch, Apart, Clear, Sized, NoneEmpty, AllBlank, Flat, Rev, Segment.Bytes;
      LastOf(list, pool.bufferSize);
      var buffer := list[|list| - 1];
      ghost var rest := list[..|list| - 1];
      var _ := buffer.Push(from, 0, packed, false, false);
      Kept(buffer, rest, pool.bufferSize);
      Kept(buffer, pool.free, pool.bufferSize);
      RebuiltLast(list, pool.bufferSize);
    }

    /** Put a segment from the pool behind the list. */
    method NewTail()
      requires Valid() && pool.free != []
      modifies this`list, pool
      ensures Shaped() && list == old(list) + [old(pool.free[0])] && pool.free == old(pool.free[1..])
      ensures list[|list| - 1].TailRoom() == pool.bufferSize && NoneEmpty(list[..|list| - 1])
      ensures Flat(list) == old(Flat(list))
    {
      hide Apart, Clear, Sized, NoneEmpty, AllBlank, Flat;
      ghost var was := list;
      var buffer := GetSegment();
      list := list + [buffer];
      assert list[..|list| - 1] == was;
      RebuiltLast(list, pool.bufferSize);
      NoBytes(buffer, Flat(was));
    }

    /** Make sure that there is room in the last segment. */
    method EnsureTail()
      requires Valid() && (TailRoom() == 0 ==> pool.free != [])
      modifies this`list, pool
      ensures Shaped() && list != [] && NoneEmpty(list[..|list| - 1]) && Flat(list) == old(Flat(list))
      ensures list[|list| - 1].TailRoom() == (if old(TailRoom()) > 0 then old(TailRoom()) else pool.bufferSize) > 0
      ensures pool.count == old(pool.count) - if old(TailRoom()) > 0 then 0 else 1
      ensures multiset(pool.free + list) == old(multiset(pool.free + list))
    {
      hide Apart, Clear, Sized, NoneEmpty, AllBlank, Flat, Objects;
      if list == [] || list[|list| - 1].TailRoom() == 0 {
        MoveFront(pool.free, list);
        NewTail();
      } else {
        NoneEmptyRest(list);
      }
    }

    /** One turn of the loop that pushes at the tail: the next piece, into the last segment or a new one. */
    method TailStep(rest: seq<byte>, packed: bool, reverse: bool) returns (n: nat)
      requires Valid() && rest != [] && (TailRoom() == 0 ==> pool.free != [])
      modifies this, pool, Objects(multiset(pool.free + list))
      ensures Valid() && 0 < n <= |rest|
      ensures Contents() == old(Contents()) + Ordered(packed, NextBytes(rest, n, reverse))
      ensures var room := if old(TailRoom()) > 0 then old(TailRoom()) else pool.bufferSize;
              n == Min(room, |rest|) && TailRoom() == room - n
      ensures pool.count == old(pool.count) - if old(TailRoom()) > 0 then 0 else 1
      ensures multiset(pool.free + list) == old(multiset(pool.free + list))
    {
      hide Ordered, Apart, Clear, Sized, NoneEmpty, AllBlank, Flat, Rev, Objects, NextBytes;
      EnsureTail();
      EndObjects(pool.free, list);
      n := Min(list[|list| - 1].TailRoom(), |rest|);
      FillTail(NextBytes(rest, n, reverse), packed);
    }

    /** fs_buffer_list_push_offset at the tail: all of the data, or none of it. */
    method PushTail(data: seq<byte>, packed: bool, th: bool) returns (ok: bool)
      requires Valid()
      modifies this, pool, Objects(multiset(pool.free + list))
      ensures Valid() && multiset(pool.free + list) == old(multiset(pool.free + list))
      ensures ok == old(Granted(Need(|data|, TailRoom(), pool.bufferSize), th))
      ensures ok <==>
                || |data| <= old(TailRoom())
                || |data| <= old(TailRoom() + (pool.count - if th then pool.threshold else 0) * pool.bufferSize)
      ensures pool.count == old(pool.count) || pool.count >= if th then pool.threshold else 0
      ensures ok ==> Contents() == old(Contents()) + Ordered(packed, data)
      ensures ok ==> pool.count == old(pool.count) - old(Need(|data|, TailRoom(), pool.bufferSize))
      ensures !ok ==> list == old(list) && pool.free == old(pool.free) && Contents() == old(Contents())
    {
      hide Ordered, Apart, Clear, Sized, NoneEmpty, AllBlank, Flat, Rev, Objects;
      var thisSize :=
        if list != [] && list[|list| - 1].TailRoom() > 0 then Min(list[|list| - 1].TailRoom(), |data|) else 0;
      var numBuffers: nat := 0;
      if |data| - thisSize > 0 {
        numBuffers := CeilDiv(|data| - thisSize, pool.bufferSize);
      }
      ghost var need := Need(|data|, TailRoom(), pool.bufferSize);
      assert numBuffers == need;
      GrantedIf(|data|, TailRoom(), th);
      var no := Refuses(numBuffers, th);
      if no {
        return false;
      }
      PushAllTail(data, packed);
      ok := true;
    }

    /** The loop of a push at the tail, when there are enough segments. */
    method PushAllTail(data: seq<byte>, packed: bool)
      requires Valid() && pool.count >= Need(|data|, TailRoom(), pool.bufferSize)
      modifies this, pool, Objects(multiset(pool.free + list))
      ensures Valid() && multiset(pool.free + list) == old(multiset(pool.free + list))
      ensures Contents() == old(Contents()) + Ordered(packed, data)
      ensures pool.count == old(pool.count) - old(Need(|data|, TailRoom(), pool.bufferSize))
    {
      hide Ordered, Apart, Clear, Sized, NoneEmpty, AllBlank, Flat, Rev, Need, Objects, NextBytes, LeftBytes;
      ghost var goal := Contents() + Ordered(packed, data);
      ghost var left := pool.count - Need(|data|, TailRoom(), pool.bufferSize);
      var rest := data;
      while rest != []
        invariant Valid() && multiset(pool.free + list) == old(multiset(pool.free + list))
        invariant Contents() + Ordered(packed, rest) == goal
        invariant pool.count == left + Need(|rest|, TailRoom(), pool.bufferSize)
        decreases |rest|
      {
        rest := TailTurn(rest, packed);
      }
      NothingLeft(packed, Contents(), TailRoom(), pool.bufferSize);
    }

    /** One turn of that loop: what is left to push needs what is left of the segments counted. */
    method TailTurn(data: seq<byte>, packed: bool) returns (rest: seq<byte>)
      requires Valid() && data != [] && pool.count >= Need(|data|, TailRoom(), pool.bufferSize)
      modifies this, pool, Objects(multiset(pool.free + list))
      ensures Valid() && |rest| < |data| && multiset(pool.free + list) == old(multiset(pool.free + list))
      ensures Contents() + Ordered(packed, rest) == old(Contents()) + Ordered(packed, data)
      ensures pool.count - Need(|rest|, TailRoom(), pool.bufferSize)
           == old(pool.count - Need(|data|, TailRoom(), pool.bufferSize))
    {
      hide Ordered, Apart, Clear, Sized, NoneEmpty, AllBlank, Flat, Rev, Need, Objects, NextBytes, LeftBytes;
      NeedsOne(|data|, TailRoom(), pool.bufferSize);
      ghost var before, room := Contents(), TailRoom();
      var reverse := packed;
      var n := TailStep(data, packed, reverse);
      NeedAfter(|data|, room, pool.bufferSize, n, TailRoom());
      NextPiece(packed, data, n, false);
      Regroup(before, Ordered(packed, NextBytes(data, n, reverse)), Ordered(packed, LeftBytes(data, n, reverse)));
      rest := LeftBytes(data, n, reverse);
    }

    /** Overwrite bytes inside segment i. */
    method UpdateAt(i: nat, offset: nat, piece: seq<byte>, packed: bool)
      requires Valid() && i < |list| && offset + |piece| <= list[i].length
      modifies list[i], list[i].data
      ensures Valid() && Before(i) == old(Before(i)) && list[i].length == old(list[i].length)
      ensures Before(i) + list[i].length <= |Contents()| == old(|Contents()|)
      ensures Contents() == Patch(old(Contents()), Before(i) + offset, Ordered(packed, piece))
    {
      hide Ordered, Apart, Clear, Sized, NoneEmpty, AllBlank, Flat, Rev, Patch;
      MiddleOf(list, i, pool.bufferSize);
      ClearInside(pool.free, list, i);
      ghost var a, b, c := Flat(list[..i]), list[i].Bytes(), Flat(list[i + 1..]);
      ghost var n := pool.bufferSize;
      NoneEmptyMiddle(list, i);
      var _ := list[i].Push(piece, offset, packed, true, true);
      Kept(list[i], list[..i], n);
      Kept(list[i], list[i + 1..], n);
      Kept(list[i], pool.free, n);
      RebuiltMiddle(list, i, n);
      PatchMiddle(a, b, c, offset, Ordered(packed, piece));
    }

    /** Find the segment that holds position offset. With pastEnds set, a position at the end of a segment
        counts as the start of the next one (as in push); otherwise it stays at the end (as in pull). */
    method Walk(offset: nat, pastEnds: bool) returns (i: nat, rest: nat)
      requires Valid() && offset <= totalLength
      ensures i <= |list| && Before(i) + rest == offset
      ensures i < |list| ==> if pastEnds then rest < list[i].length else rest <= list[i].length
      ensures i == |list| ==> if pastEnds then offset == totalLength else list == []
    {
      hide Apart, Clear, Sized, NoneEmpty, AllBlank, Flat;
      i, rest := 0, offset;
      NothingBefore(list);
      while rest > 0 && i < |list| && (if pastEnds then rest >= list[i].length else rest > list[i].length)
        invariant i <= |list| && Before(i) + rest == offset
        invariant i == |list| ==> if pastEnds then rest == 0 else list == []
      {
        OneFurther(list, i, pool.bufferSize);
        rest := rest - list[i].length;
        i := i + 1;
      }
      assert list[..|list|] == list;
      if i < |list| {
        NoneEmptyMiddle(list, i);
      }
    }

    /** fs_buffer_list_push_offset with FS_BUFFER_UPDATE: overwrite bytes offset bytes from either end.
        The source asserts that they are there; it reports an error when there is nothing to overwrite at that
        position. */
    method Update(data: seq<byte>, offset: nat, packed: bool, onHead: bool) returns (ok: bool)
      requires Valid() && |data| + offset <= totalLength
      modifies Objects(multiset(list))
      ensures Valid() && list == old(list) && totalLength == old(totalLength) && pool.free == old(pool.free)
      ensures pool.count == old(pool.count)
      ensures var start := if onHead then offset else totalLength - (|data| + offset);
              && ok == (start < totalLength)
              && Contents() == Patch(old(Contents()), start, Ordered(packed, data))
    {
      hide Apart, Clear, Sized, NoneEmpty, AllBlank, Flat, Ordered, Patch, Rev, Objects;
      var start := if onHead then offset else totalLength - (|data| + offset);
      var i, thisOffset := Walk(start, true);
      ok := i < |list|;
      if ok {
        StartInside(list, i, pool.bufferSize);
        UpdateFrom(i, thisOffset, data, packed);
      } else {
        PatchNothing(Contents(), start, packed, data);
      }
    }

    /** One turn of the loop of an update: overwrite what segment i has room for. */
    method UpdateNext(i: nat, offset: nat, rest: seq<byte>, packed: bool, ghost pos: nat) returns (n: nat)
      requires Valid() && i < |list| && offset < list[i].length && rest != []
      requires pos == Before(i) + offset && pos + |rest| <= totalLength
      modifies list[i], list[i].data
      ensures Valid() && 0 < n <= |rest| && |old(Contents())| == totalLength
      ensures |rest| > n ==> i + 1 < |list| && Before(i + 1) == pos + n && list[i + 1].length > 0
      ensures Contents() == Patch(old(Contents()), pos, Ordered(packed, NextBytes(rest, n, packed)))
    {
      hide Apart, Clear, Sized, NoneEmpty, AllBlank, Flat, Ordered, Patch, Rev;
      n := |rest|;
      if n + offset > list[i].length {
        n := list[i].length - offset;
      }
      UpdateAt(i, offset, NextBytes(rest, n, packed), packed);
      OneFurther(list, i, pool.bufferSize);
    }

    /** The loop of an update, from segment i on. */
    method UpdateFrom(first: nat, offset: nat, data: seq<byte>, packed: bool)
      requires Valid() && first < |list| && offset < list[first].length
      requires Before(first) + offset + |data| <= totalLength
      modifies Objects(multiset(list))
      ensures Valid() && list == old(list) && totalLength == old(totalLength) && pool.free == old(pool.free)
      ensures |old(Contents())| == totalLength
      ensures Contents() == Patch(old(Contents()), old(Before(first)) + offset, Ordered(packed, data))
    {
      hide Apart, Clear, Sized, NoneEmpty, AllBlank, Flat, Ordered, Patch, Rev, Objects, NextBytes, LeftBytes;
      ghost var c, start, done := Contents(), Before(first) + offset, [];
      var i: nat, thisOffset: nat := first, offset;
      var reverse := packed;
      var rest := data;
      PatchEmpty(c, start, Ordered(packed, data));
      while rest != []
        invariant list == old(list) && totalLength == old(totalLength) && pool.free == old(pool.free)
        invariant Valid() && i <= |list| && |rest| <= |data|
        invariant rest != [] ==> i < |list| && thisOffset < list[i].length && Before(i) + thisOffset == start + |done|
        invariant |done| + |rest| == |data| && Contents() == Patch(c, start, done) &&
                  Ordered(packed, data) == done + Ordered(packed, rest)
        decreases |rest|
      {
        ListObjects(list, i);
        var n := UpdateNext(i, thisOffset, rest, packed, start + |done|);
        ghost var piece, more := NextBytes(rest, n, reverse), LeftBytes(rest, n, reverse);
        NextPiece(packed, rest, n, false);
        PatchOn(c, start, done, Ordered(packed, piece));
        Regroup(done, Ordered(packed, piece), Ordered(packed, more));
        done := done + Ordered(packed, piece);
        rest := LeftBytes(rest, n, reverse);
        thisOffset := 0;
        i := i + 1;
      }
      NothingLeft(packed, done, 0, pool.bufferSize);
    }

    /** to is a buffer of the caller with room for size bytes at position at. */
    ghost predicate Foreign(to: array?<byte>, at: nat, size: nat)
      reads this, pool
    {
      to != null ==> at + size <= to.Length && Elsewhere(to, multiset(pool.free + list))
    }

    /** fs_buffer_list_pull_offset with FS_BUFFER_INPLACE: copy bytes that lie offset bytes from either end.
        The source asserts that the list has a segment. */
    method Peek(to: array?<byte>, at: nat, size: nat, offset: nat, packed: bool, fromTail: bool) returns (ok: bool)
      requires Valid() && Foreign(to, at, size) && (size + offset <= totalLength ==> list != [])
      modifies to
      ensures Valid() && Contents() == old(Contents()) && |Contents()| == totalLength
      ensures ok == (totalLength >= size + offset)
      ensures to != null ==>
                to[..] ==
                  if ok then Patch(old(to[..]), at, Ordered(packed, Piece(Contents(), size, offset, fromTail)))
                  else old(to[..])
    {
      hide Apart, Clear, Sized, NoneEmpty, AllBlank, Flat, Ordered, Patch, Rev, Received, Piece, Foreign, Elsewhere;
      ok := totalLength >= size + offset;
      if ok {
        var start := if fromTail then totalLength - (offset + size) else offset;
        PieceIs(Contents(), size, offset, fromTail);
        var i, thisOffset := Walk(start, false);
        CopyFrom(to, at, size, i, thisOffset, packed);
      }
    }

    /** Copy n bytes of segment i, which are those at position pos of the contents c, to the caller's buffer. */
    method CopyPiece(to: array?<byte>, p: nat, n: nat, i: nat, offset: nat, packed: bool, ghost pos: nat,
                     ghost c: seq<byte>)
      requires Valid() && Foreign(to, p, n) && i < |list| && offset + n <= list[i].length
      requires c == Contents() && pos == Before(i) + offset
      modifies to
      ensures Valid() && Contents() == c && Before(i) == pos - offset && pos + n <= |c|
      ensures to != null ==> to[..] == Patch(old(to[..]), p, Ordered(packed, c[pos..pos + n]))
    {
      hide Apart, Clear, Sized, NoneEmpty, AllBlank, Flat, Ordered, Patch, Rev, Elsewhere, Away;
      PieceAt(list, i, pool.bufferSize, offset, n);
      ghost var m := pool.bufferSize;
      if to != null {
        AwayFrom(to, pool.free, list, i);
      }
      var _ := list[i].Pull(to, p, n, offset, packed, true, false);
      if to != null {
        KeptByCopy(list, to, m);
        KeptByCopy(pool.free, to, m);
        KeptByCopy(list[..i], to, m);
      }
    }

    /** One turn of the loop of a peek: copy what segment i has of the bytes left. */
    method CopyNext(to: array?<byte>, at: nat, size: nat, left: nat, i: nat, offset: nat, packed: bool,
                    ghost pos: nat, ghost c: seq<byte>) returns (n: nat)
      requires Valid() && Foreign(to, at, size) && 0 < left <= size && i < |list| && offset <= list[i].length
      requires c == Contents() && pos == Before(i) + offset && pos + left <= totalLength
      modifies to
      ensures Valid() && Contents() == c && n <= left && pos + n <= |c|
      ensures left > n ==> i + 1 < |list| && Before(i + 1) == pos + n
      ensures to != null ==>
                to[..] ==
                  Patch(old(to[..]), if packed then at + (left - n) else at + (size - left),
                        Ordered(packed, c[pos..pos + n]))
    {
      hide Apart, Clear, Sized, NoneEmpty, AllBlank, Flat, Ordered, Patch, Rev, Foreign;
      n := left;
      if n + offset >= list[i].length {
        n := list[i].length - offset;
      }
      var p := if packed then at + (left - n) else at + (size - left);
      ForeignPart(to, at, size, p - at, n);
      CopyPiece(to, p, n, i, offset, packed, pos, c);
      OneFurther(list, i, pool.bufferSize);
    }

    /** The loop of a peek, from segment first on. */
    method CopyFrom(to: array?<byte>, at: nat, size: nat, first: nat, offset: nat, packed: bool)
      requires Valid() && Foreign(to, at, size) && first < |list| && offset <= list[first].length
      requires Before(first) + offset + size <= totalLength
      modifies to
      ensures Valid() && Contents() == old(Contents()) && |old(Contents())| == totalLength
      ensures to != null ==>
                to[..] ==
                  Patch(old(to[..]), at,
                        Ordered(packed, old(Contents()[Before(first) + offset..Before(first) + offset + size])))
    {
      hide Apart, Clear, Sized, NoneEmpty, AllBlank, Flat, Ordered, Patch, Rev, Received, Foreign;
      hide SegmentList.Shaped, Pool.Valid;
      ghost var start, c := Before(first) + offset, Contents();
      ghost var f, t := c[start..start + size], if to != null then to[..] else [];
      ForeignPart(to, at, size, 0, size);
      if to != null {
        ReceivedNone(t, at, f, packed);
      }
      var i: nat, thisOffset: nat, left: nat := first, offset, size;
      while left > 0
        invariant Valid() && Contents() == c
        invariant i <= |list| && left <= size
        invariant left > 0 ==>
                    i < |list| && thisOffset <= list[i].length && Before(i) + thisOffset == start + (size - left)
        invariant to != null ==> to[..] == Received(t, at, f, size - left, packed)
        decreases |list| - i
      {
        var n := CopyNext(to, at, size, left, i, thisOffset, packed, start + (size - left), c);
        if to != null {
          ReceivedMore(t, at, f, size - left, n, packed);
          SliceOfSlice(c, start, size, size - left, size - left + n);
        }
        left := left - n;
        thisOffset := 0;
        i := i + 1;
      }
      if to != null {
        ReceivedAll(t, at, f, packed);
      }
    }

    lemma ForeignPart(to: array?<byte>, at: nat, size: nat, p: nat, n: nat)
      requires Foreign(to, at, size) && p + n <= size
      ensures Foreign(to, at + p, n) && (to != null ==> at + size <= to.Length)
    {
    }

    /** Take n bytes off the first segment. */
    method ShrinkFirst(to: array?<byte>, p: nat, n: nat, packed: bool)
      requires Valid() && Foreign(to, p, n) && list != [] && n <= list[0].length
      modifies this`totalLength, list[0], to
      ensures Shaped() && NoneEmpty(list[1..]) && totalLength == |Flat(list)|
      ensures n <= |old(Contents())| && Contents() == old(Contents())[n..]
      ensures to != null ==> to[..] == Patch(old(to[..]), p, Ordered(packed, old(Contents())[..n]))
    {
      hide Apart, Clear, Sized, NoneEmpty, AllBlank, Flat, Ordered, Patch, Rev, Elsewhere, Away, Piece, Segment.Bytes;
      FirstOf(list, pool.bufferSize);
      ApartParts(pool.free, list);
      NoneEmptyRest(list);
      if to != null {
        AwayFrom(to, pool.free, list, 0);
        AwayFromRest(to, list);
      }
      ghost var m := pool.bufferSize;
      CutFront(list[0].Bytes(), Flat(list[1..]), n);
      var _ := list[0].Pull(to, p, n, 0, packed, false, false);
      KeptByPull(list[0], to, list[1..], m);
      KeptByPull(list[0], to, pool.free, m);
      Rebuilt(list, m);
      totalLength := totalLength - n;
    }

    /** Give the first segment back to the pool. */
    method GiveBackFirst()
      requires Shaped() && list != []
      modifies this`list, pool, list[0]
      ensures Shaped() && list == old(list)[1..] && pool.free == old(pool.free) + [old(list)[0]]
      ensures Flat(list) == old(Flat(list[1..])) && (old(NoneEmpty(list[1..])) ==> NoneEmpty(list))
    {
      hide Apart, Clear, Sized, NoneEmpty, AllBlank, Flat;
      FirstOf(list, pool.bufferSize);
      ApartParts(pool.free, list);
      assert list == [list[0]] + list[1..];
      BackToPool(pool.free, list[0], list[1..]);
      var buffer := list[0];
      list := list[1..];
      GiveBack(buffer);
    }

    /** Give the first segment back to the pool when it is empty. */
    method ReleaseFirst()
      requires Shaped() && list != [] && NoneEmpty(list[1..]) && totalLength == |Flat(list)|
      modifies this`list, pool, list[0]
      ensures Valid() && Contents() == old(Contents()) && totalLength == old(totalLength)
      ensures list == old(list) || list == old(list)[1..]
      ensures multiset(pool.free + list) == old(multiset(pool.free + list))
      ensures pool.count >= old(pool.count)
    {
      hide Apart, Clear, Sized, NoneEmpty, AllBlank, Flat;
      FirstOf(list, pool.bufferSize);
      if list[0].length == 0 {
        BlankFirst(list);
        SameWhole(pool.free, list);
        GiveBackFirst();
      } else {
        Rebuilt(list, pool.bufferSize);
      }
    }

    /** fs_buffer_list_pull_offset from the head: remove the first size bytes, and copy them if a buffer is given. */
    method PullHead(to: array?<byte>, at: nat, size: nat, packed: bool) returns (ok: bool)
      requires Valid() && Foreign(to, at, size)
      modifies this, pool, Objects(multiset(list)), to
      ensures Valid() && multiset(pool.free + list) == old(multiset(pool.free + list))
      ensures |old(Contents())| == old(totalLength) && ok == (old(totalLength) >= size)
      ensures Contents() == if ok then old(Contents())[size..] else old(Contents())
      ensures to != null ==>
                to[..] == if ok then Patch(old(to[..]), at, Ordered(packed, old(Contents())[..size])) else old(to[..])
      ensures pool.count >= old(pool.count)
    {
      hide Apart, Clear, Sized, NoneEmpty, AllBlank, Flat, Ordered, Patch, Rev, Received, Foreign, Objects;
      ok := totalLength >= size;
      if ok {
        PullAllHead(to, at, size, packed);
      }
    }

    /** The loop of a pull from the head. */
    method PullAllHead(to: array?<byte>, at: nat, size: nat, packed: bool)
      requires Valid() && Foreign(to, at, size) && size <= totalLength
      modifies this, pool, Objects(multiset(list)), to
      ensures Valid() && multiset(pool.free + list) == old(multiset(pool.free + list))
      ensures size <= |old(Contents())| && Contents() == old(Contents())[size..]
      ensures to != null ==> to[..] == Patch(old(to[..]), at, Ordered(packed, old(Contents())[..size]))
      ensures pool.count >= old(pool.count)
    {
      hide Apart, Clear, Sized, NoneEmpty, AllBlank, Flat, Ordered, Patch, Rev, Received, Foreign, Objects;
      ghost var c, m := Contents(), multiset(pool.free + list);
      ghost var f, t := c[..size], if to != null then to[..] else [];
      ForeignPart(to, at, size, 0, size);
      if to != null {
        ReceivedNone(t, at, f, packed);
      }
      var left: nat := size;
      while left > 0
        invariant Valid() && multiset(pool.free + list) == m && left <= size &&
                  Objects(multiset(list)) <= old(Objects(multiset(list)))
        invariant pool.count >= old(pool.count)
        invariant Contents() == c[size - left..] && Foreign(to, at, size)
        invariant to != null ==> to[..] == Received(t, at, f, size - left, packed)
        decreases left
      {
        var n := TakeFirst(to, at, size, left, packed);
        if to != null {
          ReceivedMore(t, at, f, size - left, n, packed);
        }
        PulledOn(c, size, size - left, n);
        left := left - n;
      }
      if to != null {
        ReceivedAll(t, at, f, packed);
      }
    }

    /** The bytes taken next, and those behind them. */
    static lemma PulledOn(c: seq<byte>, size: nat, done: nat, n: nat)
      requires done + n <= size <= |c|
      ensures c[..size][done..done + n] == c[done..][..n] && c[done..][n..] == c[done + n..]
    {
    }

    /** One turn of the loop that pulls from the head. */
    method TakeFirst(to: array?<byte>, at: nat, size: nat, left: nat, packed: bool) returns (n: nat)
      requires Valid() && Foreign(to, at, size) && 0 < left <= size && left <= totalLength
      modifies this, pool, Objects(multiset(list)), to
      ensures Valid() && Foreign(to, at, size) && 0 < n <= left &&
              multiset(pool.free + list) == old(multiset(pool.free + list))
      ensures Objects(multiset(list)) <= old(Objects(multiset(list)))
      ensures n <= |old(Contents())| && Contents() == old(Contents())[n..]
      ensures to != null ==>
                to[..] ==
                  Patch(old(to[..]), if packed then at + (left - n) else at + (size - left),
                        Ordered(packed, old(Contents())[..n]))
      ensures pool.count >= old(pool.count)
    {
      hide Apart, Clear, Sized, NoneEmpty, AllBlank, Flat, Ordered, Patch, Rev, Objects, Elsewhere;
      HasBytes(list, pool.bufferSize);
      ListObjects(list, 0);
      RestObjects(list);
      n := if left >= list[0].length then list[0].length else left;
      var p := if packed then at + (left - n) else at + (size - left);
      ForeignPart(to, at, size, p - at, n);
      ShrinkFirst(to, p, n, packed);
      ReleaseFirst();
    }

    /** fs_buffer_list_append_list: give all segments back to the pool. */
    method ReturnAll()
      requires Valid()
      modifies this, pool, Objects(multiset(list))
      ensures Valid() && list == [] && totalLength == 0 && multiset(pool.free) == old(multiset(pool.free + list))
      ensures pool.count >= old(pool.count)
    {
      hide Apart, Clear, Sized, NoneEmpty, AllBlank, Flat, Objects;
      while list != []
        invariant Shaped() && NoneEmpty(list) && multiset(pool.free + list) == old(multiset(pool.free + list))
        invariant pool.count >= old(pool.count)
        invariant Objects(multiset(list)) <= old(Objects(multiset(list)))
        decreases |list|
      {
        ListObjects(list, 0);
        RestObjects(list);
        NoneEmptyRest(list);
        SameWhole(pool.free, list);
        GiveBackFirst();
      }
      totalLength := 0;
      NothingAtAll(list);
      assert pool.free + list == pool.free;
    }

    /** What is pushed at the head comes back when as many bytes are pulled in the same order, and the list has the
        bytes it had: a packed push, reversed over however many segments, is undone by a packed pull. */
    method PushAndPull(data: seq<byte>, to: array<byte>, at: nat, packed: bool, th: bool) returns (ok: bool)
      requires Valid() && Foreign(to, at, |data|)
      modifies this, pool, Objects(multiset(pool.free + list)), to
      ensures Valid() && multiset(pool.free + list) == old(multiset(pool.free + list))
      ensures Contents() == old(Contents()) && totalLength == old(totalLength)
      ensures ok == old(Granted(Need(|data|, HeadRoom(), pool.bufferSize), th))
      ensures to[..] == if ok then Patch(old(to[..]), at, data) else old(to[..])
    {
      hide Apart, Clear, Sized, NoneEmpty, AllBlank, Flat, Ordered, Patch, Rev, Objects, Need;
      ghost var m, c, t := multiset(pool.free + list), Contents(), to[..];
      NotTheirs(to, m);
      ok := PushHead(data, packed, th);
      assert to[..] == t;
      if ok {
        PartObjects(pool.free, list);
        PulledBack(packed, data, c);
        var pulled := PullHead(to, at, |data|, packed);
        assert pulled;
      }
    }

    /** Take n bytes off the last segment. */
    method ShrinkLast(n: nat)
      requires Valid() && list != [] && n <= list[|list| - 1].length
      modifies this`totalLength, list[|list| - 1]
      ensures Shaped() && NoneEmpty(list[..|list| - 1]) && totalLength == |Flat(list)|
      ensures n <= |old(Contents())| && Contents() == old(Contents())[..|old(Contents())| - n]
    {
      hide Apart, Clear, Sized, NoneEmpty, AllBlank, Flat, Ordered, Patch, Rev, Piece, Segment.Bytes;
      LastOf(list, pool.bufferSize);
      ApartParts(pool.free, list);
      NoneEmptyRest(list);
      ghost var m, rest := pool.bufferSize, list[..|list| - 1];
      var buffer := list[|list| - 1];
      CutBack(Flat(rest), buffer.Bytes(), n);
      CutLast(buffer, n);
      Kept(buffer, rest, m);
      Kept(buffer, pool.free, m);
      RebuiltLast(list, m);
      totalLength := totalLength - n;
    }

    static method CutLast(buffer: Segment, n: nat)
      requires buffer.Ok() && n <= buffer.length
      modifies buffer
      ensures buffer.Ok() && buffer.Bytes() == old(buffer.Bytes())[..old(buffer.length) - n]
    {
      var _ := buffer.Pull(null, 0, n, 0, false, false, true);
    }

    /** Give the last segment back to the pool when it is empty. */
    method ReleaseLast()
      requires Shaped() && list != [] && NoneEmpty(list[..|list| - 1]) && totalLength == |Flat(list)|
      modifies this`list, pool, list[|list| - 1]
      ensures Valid() && Contents() == old(Contents()) && totalLength == old(totalLength)
      ensures list == old(list) || list == old(list)[..old(|list|) - 1]
      ensures multiset(pool.free + list) == old(multiset(pool.free + list))
      ensures pool.count >= old(pool.count)
    {
      hide Apart, Clear, Sized, NoneEmpty, AllBlank, Flat;
      LastOf(list, pool.bufferSize);
      if list[|list| - 1].length == 0 {
        NoBytes(list[|list| - 1], Flat(list[..|list| - 1]));
        SameWhole(pool.free, list);
        GiveBackLast();
      } else {
        RebuiltLast(list, pool.bufferSize);
      }
    }

    method GiveBackLast()
      requires Shaped() && list != []
      modifies this`list, pool, list[|list| - 1]
      ensures Shaped() && list == old(list)[..old(|list|) - 1] && pool.free == old(pool.free) + [old(list[|list| - 1])]
      ensures Flat(list) == old(Flat(list[..|list| - 1])) && (old(NoneEmpty(list[..|list| - 1])) ==> NoneEmpty(list))
    {
      hide Apart, Clear, Sized, NoneEmpty, AllBlank, Flat;
      LastOf(list, pool.bufferSize);
      ApartParts(pool.free, list);
      var buffer := list[|list| - 1];
      LastBackToPool(pool.free, list);
      list := list[..|list| - 1];
      GiveBack(buffer);
    }

    /** fs_buffer_add of a segment just unlinked from the list. */
    method GiveBack(buffer: Segment)
      requires pool.Valid() && Sized(list, pool.bufferSize) && Clear(buffer, list) &&
               buffer.data.Length == pool.bufferSize
      requires Apart(multiset(pool.free + [buffer])) && Apart(multiset((pool.free + [buffer]) + list))
      modifies pool, buffer
      ensures Shaped() && pool.free == old(pool.free) + [buffer] && Flat(list) == old(Flat(list))
      ensures old(NoneEmpty(list)) ==> NoneEmpty(list)
    {
      hide Apart, Clear, Sized, NoneEmpty, AllBlank, Flat;
      pool.Add(buffer);
      Kept(buffer, list, pool.bufferSize);
    }

    /** fs_buffer_list_pull_offset from the tail: discard the last size bytes. */
    method DropTail(size: nat) returns (ok: bool)
      requires Valid()
      modifies this, pool, Objects(multiset(list))
      ensures Valid() && multiset(pool.free + list) == old(multiset(pool.free + list))
      ensures |old(Contents())| == old(totalLength) && ok == (old(totalLength) >= size)
      ensures Contents() == if ok then old(Contents())[..old(totalLength) - size] else old(Contents())
      ensures pool.count >= old(pool.count)
    {
      hide Apart, Clear, Sized, NoneEmpty, AllBlank, Flat, Objects;
      ok := totalLength >= size;
      if !ok {
        return;
      }
      ghost var c, m := Contents(), multiset(pool.free + list);
      assert c[..|c|] == c;
      var left: nat := size;
      while left > 0
        invariant Valid() && multiset(pool.free + list) == m && left <= size &&
                  Objects(multiset(list)) <= old(Objects(multiset(list)))
        invariant pool.count >= old(pool.count)
        invariant Contents() == c[..|c| - (size - left)]
        decreases left
      {
        var n := TakeLast(left);
        assert c[..|c| - (size - left)][..|c| - (size - left) - n] == c[..|c| - (size - left) - n];
        left := left - n;
      }
    }

    /** One turn of the loop that discards from the tail. */
    method TakeLast(left: nat) returns (n: nat)
      requires Valid() && 0 < left <= totalLength
      modifies this, pool, Objects(multiset(list))
      ensures Valid() && 0 < n <= left && multiset(pool.free + list) == old(multiset(pool.free + list))
      ensures Objects(multiset(list)) <= old(Objects(multiset(list)))
      ensures n <= |old(Contents())| && Contents() == old(Contents())[..|old(Contents())| - n]
      ensures pool.count >= old(pool.count)
    {
      hide Apart, Clear, Sized, NoneEmpty, AllBlank, Flat, Objects, Pool.Valid;
      HasBytes(list, pool.bufferSize);
      NoneEmptyMiddle(list, |list| - 1);
      ListObjects(list, |list| - 1);
      RestObjects(list);
      n := if left >= list[|list| - 1].length then list[|list| - 1].length else left;
      ShrinkLast(n);
      ReleaseLast();
    }
  }

  lemma NothingAtAll(segs: seq<Segment>)
    requires segs == []
    ensures Flat(segs) == []
  {
  }

  lemma CutBack(a: seq<byte>, b: seq<byte>, n: nat)
    requires n <= |b|
    ensures (a + b)[..|a + b| - n] == a + b[..|b| - n]
  {
  }

  /** Where the bytes offset bytes from either end are. */
  lemma PieceIs(b: seq<byte>, size: nat, offset: nat, fromTail: bool)
    requires size + offset <= |b|
    ensures var start := if fromTail then |b| - (offset + size) else offset;
            Piece(b, size, offset, fromTail) == b[start..start + size]
  {
  }

  /** An array of the caller is not among the objects of the segments. */
  lemma NotTheirs(to: array<byte>, m: multiset<Segment>)
    requires Elsewhere(to, m)
    ensures to as object !in Objects(m)
  {
  }

  lemma PartObjects(a: seq<Segment>, b: seq<Segment>)
    ensures Objects(multiset(b)) <= Objects(multiset(a + b))
  {
    MoreObjects(multiset(b), multiset(a + b));
  }

  /** A packed push at the head is undone by a packed pull of the same length, and a plain one by a plain one. */
  lemma PulledBack(packed: bool, data: seq<byte>, c: seq<byte>)
    ensures var pushed := Ordered(packed, data) + c;
            Ordered(packed, pushed[..|data|]) == data && pushed[|data|..] == c
  {
    RevTwice(data);
    assert (Ordered(packed, data) + c)[..|data|] == Ordered(packed, data);
  }

  /** Segments clear of the one that was drained, and of the caller's buffer, are as they were. */
  twostate lemma KeptByPull(new b: Segment, new to: array?<byte>, segs: seq<Segment>, new n: nat)
    requires Clear(b, segs) && old(Sized(segs, n)) && (to != null ==> Away(to, segs))
    requires forall i ::
               0 <= i < |segs| ==>
                 (segs[i] != b ==> unchanged(segs[i])) && (segs[i].data != to ==> unchanged(segs[i].data))
    ensures Sized(segs, n) && Flat(segs) == old(Flat(segs))
    ensures old(NoneEmpty(segs)) ==> NoneEmpty(segs)
    ensures old(AllBlank(segs)) ==> AllBlank(segs)
  {
    KeptFlat(segs);
  }

  lemma AwayFromRest(to: array<byte>, segs: seq<Segment>)
    requires Away(to, segs) && segs != []
    ensures Away(to, segs[1..])
  {
  }

  lemma CutFront(a: seq<byte>, b: seq<byte>, n: nat)
    requires n <= |a|
    ensures (a + b)[n..] == a[n..] + b && (a + b)[..n] == a[..n] == Piece(a, n, 0, false)
  {
  }

  /** A segment back in the pool. */
  lemma BackToPool(a: seq<Segment>, x: Segment, b: seq<Segment>)
    requires Apart(multiset(a + ([x] + b)))
    ensures multiset((a + [x]) + b) == multiset(a + ([x] + b)) == multiset((a + [x]) + b)
    ensures Apart(multiset(a + [x])) && Apart(multiset((a + [x]) + b))
  {
    assert (a + [x]) + b == a + ([x] + b);
    ApartSub(multiset(a + [x]), multiset((a + [x]) + b));
  }

  lemma LastBackToPool(a: seq<Segment>, b: seq<Segment>)
    requires b != [] && Apart(multiset(a + b))
    ensures Apart(multiset(a + [b[|b| - 1]])) && Apart(multiset((a + [b[|b| - 1]]) + b[..|b| - 1]))
  {
    SameWhole(a, b);
    ApartSub(multiset(a + [b[|b| - 1]]), multiset((a + [b[|b| - 1]]) + b[..|b| - 1]));
  }

  lemma SameWhole(a: seq<Segment>, b: seq<Segment>)
    requires b != []
    ensures multiset((a + [b[0]]) + b[1..]) == multiset(a + b) == multiset((a + [b[|b| - 1]]) + b[..|b| - 1])
  {
    EndsOf(b);
  }

  lemma HasBytes(segs: seq<Segment>, n: nat)
    requires Sized(segs, n) && NoneEmpty(segs) && |Flat(segs)| > 0
    ensures segs != [] && segs[0].length > 0
  {
  }

  lemma RestObjects(b: seq<Segment>)
    ensures b != [] ==>
              Objects(multiset(b[1..])) <= Objects(multiset(b)) &&
              Objects(multiset(b[..|b| - 1])) <= Objects(multiset(b))
  {
    if b != [] {
      EndsOf(b);
      MoreObjects(multiset(b[1..]), multiset(b));
      MoreObjects(multiset(b[..|b| - 1]), multiset(b));
    }
  }

  lemma MoreObjects(m: multiset<Segment>, n: multiset<Segment>)
    requires m <= n
    ensures Objects(m) <= Objects(n)
  {
    assert forall s :: s in m ==> m[s] <= n[s] && s in n;
  }

  /** The array belongs to none of the segments. */
  ghost predicate Elsewhere(to: array<byte>, m: multiset<Segment>) {
    forall s :: s in m ==> s.data != to
  }

  ghost predicate Away(to: array<byte>, segs: seq<Segment>) {
    forall i :: 0 <= i < |segs| ==> segs[i].data != to
  }

  lemma AwayFrom(to: array<byte>, a: seq<Segment>, b: seq<Segment>, i: nat)
    requires Elsewhere(to, multiset(a + b)) && i < |b|
    ensures Away(to, a) && Away(to, b) && Away(to, b[..i]) && b[i].data != to
  {
    assert multiset(a + b) == multiset(a) + multiset(b);
    assert forall j :: 0 <= j < |a| ==> a[j] in multiset(a);
    assert forall j :: 0 <= j < |b| ==> b[j] in multiset(b);
  }

  /** Writing to somebody else's array leaves the segments alone. */
  twostate lemma KeptByCopy(segs: seq<Segment>, new to: array<byte>, new n: nat)
    requires old(Sized(segs, n)) &&
             forall i :: 0 <= i < |segs| ==> unchanged(segs[i]) && (segs[i].data != to ==> unchanged(segs[i].data))
    requires Away(to, segs)
    ensures Sized(segs, n) && Flat(segs) == old(Flat(segs))
    ensures old(NoneEmpty(segs)) ==> NoneEmpty(segs)
    ensures old(AllBlank(segs)) ==> AllBlank(segs)
  {
    KeptFlat(segs);
  }

  /** What the caller's buffer holds after k of the bytes f have been copied, in either order. */
  ghost function Received(t: seq<byte>, at: nat, f: seq<byte>, k: nat, packed: bool): seq<byte>
    requires k <= |f| && at + |f| <= |t|
  {
    Patch(t, if packed then at + |f| - k else at, Ordered(packed, f[..k]))
  }

  lemma ReceivedNone(t: seq<byte>, at: nat, f: seq<byte>, packed: bool)
    requires at + |f| <= |t|
    ensures Received(t, at, f, 0, packed) == t
  {
  }

  lemma ReceivedAll(t: seq<byte>, at: nat, f: seq<byte>, packed: bool)
    requires at + |f| <= |t|
    ensures Received(t, at, f, |f|, packed) == Patch(t, at, Ordered(packed, f))
  {
    assert f[..|f|] == f;
  }

  /** The next piece of a packed transfer goes before those already copied, that of any other behind them. */
  lemma ReceivedMore(t: seq<byte>, at: nat, f: seq<byte>, k: nat, n: nat, packed: bool)
    requires k + n <= |f| && at + |f| <= |t|
    ensures Patch(Received(t, at, f, k, packed), if packed then at + (|f| - k - n) else at + k,
                  Ordered(packed, f[k..k + n]))
         == Received(t, at, f, k + n, packed)
  {
    hide Rev;
    assert f[..k + n] == f[..k] + f[k..k + n];
    RevOfSum(f[..k], f[k..k + n]);
    if packed {
      PatchBefore(t, at + |f| - k, Rev(f[..k]), Rev(f[k..k + n]));
    } else {
      PatchOn(t, at, f[..k], f[k..k + n]);
    }
  }

  lemma PatchBefore(t: seq<byte>, p: nat, x: seq<byte>, y: seq<byte>)
    requires |y| <= p && p + |x| <= |t|
    ensures Patch(Patch(t, p, x), p - |y|, y) == Patch(t, p - |y|, y + x)
  {
  }

  /** Bytes inside segment i, seen in the whole. */
  lemma PieceAt(segs: seq<Segment>, i: nat, n: nat, o: nat, k: nat)
    requires i < |segs| && Sized(segs, n) && segs[i].Ok() && o + k <= segs[i].length
    ensures Sized(segs[..i], n) && |Flat(segs[..i])| + o + k <= |Flat(segs)|
    ensures Piece(segs[i].Bytes(), k, o, false) == Flat(segs)[|Flat(segs[..i])| + o..|Flat(segs[..i])| + o + k]
  {
    MiddleOf(segs, i, n);
    SliceOfMiddle(Flat(segs[..i]), segs[i].Bytes(), Flat(segs[i + 1..]), o, k);
  }

  lemma SliceOfMiddle(a: seq<byte>, b: seq<byte>, c: seq<byte>, o: nat, k: nat)
    requires o + k <= |b|
    ensures (a + b + c)[|a| + o..|a| + o + k] == b[o..o + k]
  {
  }

  lemma NothingBefore(segs: seq<Segment>)
    requires forall j :: 0 <= j < |segs| ==> segs[j].Ok()
    ensures |Flat(segs[..0])| == 0
  {
  }

  lemma OneFurther(segs: seq<Segment>, i: nat, n: nat)
    requires i < |segs| && Sized(segs, n) && NoneEmpty(segs)
    ensures segs[i].Ok() && Sized(segs[..i], n) && Sized(segs[..i + 1], n)
    ensures |Flat(segs[..i + 1])| == |Flat(segs[..i])| + segs[i].length <= |Flat(segs)|
    ensures i + 1 == |segs| <==> |Flat(segs[..i + 1])| == |Flat(segs)|
    ensures i + 1 < |segs| ==> segs[i + 1].length > 0
  {
    assert segs[..i + 1][..i] == segs[..i];
    LastOf(segs[..i + 1], n);
    FlatOfParts(segs, i + 1);
    if i + 1 < |segs| {
      assert segs[i + 1..][0] == segs[i + 1];
    } else {
      assert segs[..i + 1] == segs;
    }
  }

  lemma StartInside(segs: seq<Segment>, i: nat, n: nat)
    requires i < |segs| && Sized(segs, n) && NoneEmpty(segs)
    ensures |Flat(segs[..i])| + segs[i].length <= |Flat(segs)|
  {
    hide Flat;
    OneFurther(segs, i, n);
    NoneEmptyMiddle(segs, i);
  }

  lemma ListObjects(b: seq<Segment>, i: nat)
    requires i < |b|
    ensures b[i] as object in Objects(multiset(b)) && b[i].data as object in Objects(multiset(b))
  {
    assert b[i] in multiset(b);
  }

  lemma PatchEmpty(c: seq<byte>, p: nat, x: seq<byte>)
    requires p <= |c|
    ensures Patch(c, p, []) == c && [] + x == x
  {
  }

  lemma PatchNothing(c: seq<byte>, p: nat, packed: bool, x: seq<byte>)
    requires p + |x| <= |c| && x == []
    ensures Patch(c, p, Ordered(packed, x)) == c
  {
  }

  lemma PatchOn(c: seq<byte>, p: nat, x: seq<byte>, y: seq<byte>)
    requires p + |x| + |y| <= |c|
    ensures Patch(Patch(c, p, x), p + |x|, y) == Patch(c, p, x + y)
  {
  }

  /** A list is the part before segment i, the segment, and the part behind it. */
  lemma MiddleOf(segs: seq<Segment>, i: nat, n: nat)
    requires i < |segs| && Sized(segs, n)
    ensures segs[i].Ok() && segs[i].data.Length == n && Sized(segs[..i], n) && Sized(segs[i + 1..], n)
    ensures Flat(segs) == Flat(segs[..i]) + segs[i].Bytes() + Flat(segs[i + 1..])
  {
    RebuiltMiddle(segs, i, n);
  }

  lemma RebuiltMiddle(segs: seq<Segment>, i: nat, n: nat)
    requires i < |segs| && segs[i].Ok() && segs[i].data.Length == n && Sized(segs[..i], n) && Sized(segs[i + 1..], n)
    ensures Sized(segs, n) && Flat(segs) == Flat(segs[..i]) + segs[i].Bytes() + Flat(segs[i + 1..])
    ensures NoneEmpty(segs[..i]) && NoneEmpty(segs[i + 1..]) && segs[i].length > 0 ==> NoneEmpty(segs)
  {
    SizedMiddle(segs, i, n);
    hide NoneEmpty;
    assert segs[i..][0] == segs[i] && segs[i..][1..] == segs[i + 1..];
    FlatOfParts(segs, i);
    RegroupFlat(segs, i);
  }

  lemma RegroupFlat(segs: seq<Segment>, i: nat)
    requires i < |segs| && forall j :: 0 <= j < |segs| ==> segs[j].Ok()
    ensures Flat(segs[i..]) == segs[i].Bytes() + Flat(segs[i + 1..])
    ensures Flat(segs[..i]) + (segs[i].Bytes() + Flat(segs[i + 1..])) ==
              Flat(segs[..i]) + segs[i].Bytes() + Flat(segs[i + 1..])
  {
    assert segs[i..][0] == segs[i] && segs[i..][1..] == segs[i + 1..];
  }

  lemma SizedMiddle(segs: seq<Segment>, i: nat, n: nat)
    requires i < |segs| && segs[i].Ok() && segs[i].data.Length == n && Sized(segs[..i], n) && Sized(segs[i + 1..], n)
    ensures Sized(segs, n)
    ensures NoneEmpty(segs[..i]) && NoneEmpty(segs[i + 1..]) && segs[i].length > 0 ==> NoneEmpty(segs)
  {
    assert forall j :: 0 <= j < i ==> segs[j] == segs[..i][j];
    assert forall j :: i < j < |segs| ==> segs[j] == segs[i + 1..][j - i - 1];
  }

  lemma NoneEmptyMiddle(segs: seq<Segment>, i: nat)
    requires i < |segs| && NoneEmpty(segs)
    ensures NoneEmpty(segs[..i]) && NoneEmpty(segs[i + 1..]) && segs[i].length > 0
  {
  }

  lemma ClearInside(a: seq<Segment>, b: seq<Segment>, i: nat)
    requires Apart(multiset(a + b)) && i < |b|
    ensures Clear(b[i], a) && Clear(b[i], b[..i]) && Clear(b[i], b[i + 1..])
  {
    hide Apart, Clear;
    var m := multiset(a + b);
    assert b == b[..i] + [b[i]] + b[i + 1..];
    assert m == multiset(a) + (multiset(b[..i]) + multiset{b[i]} + multiset(b[i + 1..]));
    ClearOf(b[i], a, m);
    ClearOf(b[i], b[..i], m);
    ClearOf(b[i], b[i + 1..], m);
  }

  lemma PatchMiddle(a: seq<byte>, b: seq<byte>, c: seq<byte>, o: nat, x: seq<byte>)
    requires o + |x| <= |b|
    ensures Patch(a + b + c, |a| + o, x) == a + Patch(b, o, x) + c
  {
  }

  lemma NoBytes(b: Segment, s: seq<byte>)
    requires b.Ok() && b.length == 0
    ensures s + b.Bytes() == s
  {
  }

  lemma LastOf(segs: seq<Segment>, n: nat)
    requires segs != [] && Sized(segs, n)
    ensures var k := |segs| - 1;
            && segs[k].Ok() && segs[k].data.Length == n && Sized(segs[..k], n)
            && Flat(segs) == Flat(segs[..k]) + segs[k].Bytes()
  {
    RebuiltLast(segs, n);
  }

  lemma RebuiltLast(segs: seq<Segment>, n: nat)
    requires segs != [] && segs[|segs| - 1].Ok() && segs[|segs| - 1].data.Length == n && Sized(segs[..|segs| - 1], n)
    ensures Sized(segs, n) && Flat(segs) == Flat(segs[..|segs| - 1]) + segs[|segs| - 1].Bytes()
    ensures NoneEmpty(segs[..|segs| - 1]) && segs[|segs| - 1].length > 0 ==> NoneEmpty(segs)
  {
    SizedWithLast(segs, n);
    hide Flat, NoneEmpty, Segment.Bytes, Segment.Ok;
    FlatOfParts(segs, |segs| - 1);
    FlatOfOne(segs[|segs| - 1]);
    LastAlone(segs);
  }

  lemma LastAlone<T>(s: seq<T>)
    requires s != []
    ensures s[|s| - 1..] == [s[|s| - 1]]
  {
  }

  lemma SizedWithLast(segs: seq<Segment>, n: nat)
    requires segs != [] && segs[|segs| - 1].Ok() && segs[|segs| - 1].data.Length == n && Sized(segs[..|segs| - 1], n)
    ensures Sized(segs, n)
    ensures NoneEmpty(segs[..|segs| - 1]) && segs[|segs| - 1].length > 0 ==> NoneEmpty(segs)
  {
    assert forall i :: 0 <= i < |segs| - 1 ==> segs[i] == segs[..|segs| - 1][i];
  }

  lemma FlatOfParts(segs: seq<Segment>, k: nat)
    requires k <= |segs| && forall i :: 0 <= i < |segs| ==> segs[i].Ok()
    ensures Flat(segs) == Flat(segs[..k]) + Flat(segs[k..])
  {
    hide Flat;
    assert segs == segs[..k] + segs[k..];
    FlatOfSum(segs[..k], segs[k..]);
  }

  lemma FlatOfOne(b: Segment)
    requires b.Ok()
    ensures Flat([b]) == b.Bytes()
  {
    assert Flat(([b])[1..]) == [];
  }

  /** Taking a piece off the data: off its end when the order of transfer and the end pushed at ask for it. */
  lemma NextPiece(packed: bool, rest: seq<byte>, n: nat, onHead: bool)
    requires n <= |rest|
    ensures onHead ==>
              Ordered(packed, rest) ==
                Ordered(packed, LeftBytes(rest, n, !packed)) + Ordered(packed, NextBytes(rest, n, !packed))
    ensures !onHead ==>
              Ordered(packed, rest) ==
                Ordered(packed, NextBytes(rest, n, packed)) + Ordered(packed, LeftBytes(rest, n, packed))
  {
    hide Rev;
    assert rest[..n] + rest[n..] == rest == rest[..|rest| - n] + rest[|rest| - n..];
    RevOfSum(rest[..n], rest[n..]);
    RevOfSum(rest[..|rest| - n], rest[|rest| - n..]);
  }

  /** What is needed after n bytes have gone into the room there was, or into that of a new segment. */
  lemma NeedAfter(size: nat, room: nat, bufferSize: nat, n: nat, room': nat)
    requires bufferSize > 0 && size > 0
    requires var r := if room > 0 then room else bufferSize; n == Min(r, size) && room' == r - n
    ensures Need(size - n, room', bufferSize) + (if room > 0 then 0 else 1) == Need(size, room, bufferSize)
  {
    NeedStep(size, room, bufferSize);
  }

  lemma NeedsOne(size: nat, room: nat, bufferSize: nat)
    requires bufferSize > 0 && size > 0
    ensures room == 0 ==> Need(size, room, bufferSize) > 0
  {
    NeedStep(size, room, bufferSize);
  }

  lemma NothingLeft(packed: bool, c: seq<byte>, room: nat, bufferSize: nat)
    requires bufferSize > 0
    ensures Ordered(packed, []) + c == c == c + Ordered(packed, []) && Need(0, room, bufferSize) == 0
  {
  }

  lemma FirstBlank(segs: seq<Segment>)
    requires segs != [] && AllBlank(segs)
    ensures segs[0].head == 0 && segs[0].length == 0
  {
  }

  lemma BlankFirst(segs: seq<Segment>)
    requires segs != [] && forall i :: 0 <= i < |segs| ==> segs[i].Ok()
    requires segs[0].length == 0
    ensures Flat(segs) == Flat(segs[1..])
  {
  }

  lemma NoneEmptyRest(segs: seq<Segment>)
    requires segs != [] && NoneEmpty(segs)
    ensures NoneEmpty(segs[1..]) && NoneEmpty(segs[..|segs| - 1])
  {
  }

  /** Moving the first element of one list to the other changes nothing as a whole. */
  lemma MoveFront(a: seq<Segment>, b: seq<Segment>)
    requires a != []
    ensures multiset(a[1..] + ([a[0]] + b)) == multiset(a + b) == multiset(a[1..] + (b + [a[0]]))
  {
    assert a == [a[0]] + a[1..];
  }

  lemma EndObjects(a: seq<Segment>, b: seq<Segment>)
    ensures a != [] ==> a[0] as object in Objects(multiset(a + b)) && a[0].data as object in Objects(multiset(a + b))
    ensures b != [] ==> b[0] as object in Objects(multiset(a + b)) && b[0].data as object in Objects(multiset(a + b))
    ensures b != [] ==>
              b[|b| - 1] as object in Objects(multiset(a + b)) &&
              b[|b| - 1].data as object in Objects(multiset(a + b))
  {
    assert a != [] ==> a[0] in multiset(a + b);
    assert b != [] ==> b[0] in multiset(a + b) && b[|b| - 1] in multiset(a + b);
  }

  lemma Regroup(a: seq<byte>, b: seq<byte>, c: seq<byte>)
    ensures (a + b) + c == a + (b + c)
  {
  }

  lemma FirstOf(segs: seq<Segment>, n: nat)
    requires segs != [] && Sized(segs, n)
    ensures segs[0].Ok() && segs[0].data.Length == n && Sized(segs[1..], n) &&
            Flat(segs) == segs[0].Bytes() + Flat(segs[1..])
  {
  }

  lemma Rebuilt(segs: seq<Segment>, n: nat)
    requires segs != [] && segs[0].Ok() && segs[0].data.Length == n && Sized(segs[1..], n)
    ensures Sized(segs, n) && Flat(segs) == segs[0].Bytes() + Flat(segs[1..])
    ensures NoneEmpty(segs[1..]) && segs[0].length > 0 ==> NoneEmpty(segs)
  {
    assert forall i :: 1 <= i < |segs| ==> segs[i] == segs[1..][i - 1];
  }
}
