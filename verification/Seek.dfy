/** f_lseek and f_truncate. */
module Seek {
  import opened Words
  import opened Geometry
  import opened Window
  import opened FatEntry
  import opened Chains
  import opened Alloc
  import opened FileData
  import opened Cursor
  import opened File

  datatype Growth = Growth(fat: seq<nat>, chain: seq<nat>, last: nat, status: Stretched)

  /** A chain stretched cluster by cluster until it has n clusters, the disk is full, or the FAT proves damaged. */
  function Grown(fat: seq<nat>, ch: seq<nat>, n: nat, last: nat, eoc: nat): (g: Growth)
    requires |fat| >= 3
    ensures ch <= g.chain && |g.fat| == |fat| && |g.chain| <= Max(|ch|, n)
    ensures g.status == Ok ==> |g.chain| == Max(|ch|, n)
    ensures g.status != Ok ==> |g.chain| < n
    decreases n - |ch|
  {
    if |ch| >= n then Growth(fat, ch, last, Ok)
    else
      var clst := if ch == [] then 0 else ch[|ch| - 1];
      var r := CreateResult(fat, clst, last);
      if r == 0 then Growth(fat, ch, last, Full)
      else if r == 1 then Growth(fat, ch, last, Broken)
      else Grown(CreateFat(fat, clst, last, eoc), ch + [r], n, r, eoc)
  }

  /** Where f_lseek ends: at the offset asked for, or at the end of the last cluster that could be had. */
  function Landing(l: Layout, g: Growth, ofs: nat): nat
    requires l.csize > 0
  {
    if g.status == Ok then ofs else |g.chain| * l.ClusterBytes()
  }

  /** Unless the FAT proves damaged that is the offset asked for or the end of the chain, whichever comes first. */
  lemma LandsAt(l: Layout, fat: seq<nat>, ch: seq<nat>, last: nat, eoc: nat, ofs: nat)
    requires l.csize > 0 && |fat| >= 3
    ensures var g := Grown(fat, ch, ClustersFor(l, ofs), last, eoc);
            g.status != Broken ==> Landing(l, g, ofs) == Min(ofs, |g.chain| * (512 * l.csize))
  {
    var g := Grown(fat, ch, ClustersFor(l, ofs), last, eoc);
    hide Grown;
    FitsClusters(l, ofs, |g.chain|);
  }

  lemma PowerTimesSector(n: nat)
    requires PowerOfTwo(n)
    ensures PowerOfTwo(n * SS)
  {
    hide PowerOfTwo;
    Doubled(n); Doubled(n * 2); Doubled(n * 4); Doubled(n * 8); Doubled(n * 16);
    Doubled(n * 32); Doubled(n * 64); Doubled(n * 128); Doubled(n * 256);
  }

  lemma Doubled(n: nat)
    requires PowerOfTwo(n)
    ensures PowerOfTwo(n * 2)
  {
  }

  /** (x) & ~(b - 1): x rounded down to a multiple of b. */
  function RoundDown(x: nat, b: nat): int
    requires b > 0
  {
    x - BitAnd(x, b - 1)
  }

  lemma RoundDownValue(l: Layout, x: nat)
    requires l.csize > 0 && PowerOfTwo(l.csize)
    ensures l.ClusterBytes() > 0 && RoundDown(x, l.ClusterBytes()) == ClusterIx(l, x) * l.ClusterBytes() <= x
  {
    hide BitAnd, PowerOfTwo, ClusterIx;
    var b := l.ClusterBytes();
    PowerTimesSector(l.csize);
    MaskIsRemainder(x, b);
    ByClusterBytes(l, x);
    assert x == b * (x / b) + x % b;
  }

  /** The file object while f_lseek walks: it stands at the beginning of cluster number j. */
  ghost predicate Walking(fp: Fil, j: nat)
    reads fp, fp.fs, fp.fs.win
    ensures Walking(fp, j) ==> fp.Linked() && j < |fp.chain|
  {
    fp.Linked() && j < |fp.chain| && fp.clust == fp.chain[j] && fp.fptr == j * fp.fs.layout.ClusterBytes()
  }

  /** The state growth leads to from here. */
  ghost function Goal(fp: Fil, n: nat): Growth
    requires fp.Linked()
    reads fp, fp.fs, fp.fs.win
  {
    Grown(FatOf(fp.fs), fp.chain, n, fp.fs.lastClst, fp.fs.layout.Eoc())
  }

  /** create_chain asked for cluster number k of the file, on the way to n clusters. */
  method StepWrite(fp: Fil, prev: nat, ghost k: nat, ghost n: nat) returns (clst: nat)
    requires fp.Linked() && k <= |fp.chain| && k < n
    requires if k == 0 then fp.chain == [] && prev == 0 else prev == fp.chain[k - 1]
    modifies fp`chain, fp`sclust, fp`clust, fp.fs, fp.fs.win
    ensures fp.Linked() && Goal(fp, n) == old(Goal(fp, n)) && fp.Bytes() == old(fp.Bytes())
    ensures Untouched(fp.fs.layout, old(fp.fs.View()), old(FatOf(fp.fs)), old(fp.chain), fp.fs.View(), FatOf(fp.fs),
                      fp.chain)
    ensures old(fp.chain) <= fp.chain
    ensures clst >= 2 ==> k < |fp.chain| && clst == fp.chain[k] && fp.clust == clst
    ensures clst < 2 ==> |fp.chain| == k && fp.chain == old(fp.chain) && fp.clust == old(fp.clust)
    ensures clst < 2 ==>
              Goal(fp, n) == Growth(FatOf(fp.fs), fp.chain, fp.fs.lastClst, if clst == 0 then Full else Broken)
    ensures clst == 0 ==> NoFreeCluster(FatOf(fp.fs))
    ensures clst == 1 ==> Damaged(FatOf(fp.fs))
  {
    hide FatFs.Valid, FatFs.View, FatFs.Shaped, Mirrored, Fits, Layout.Sound, Volume, Fat, Content, Holds, At,
         OnSector, OnCluster, Allocated, Untouched, SameBut, SameSectors, IsChain, BitAnd, ClusterIx, ClustersFor,
         CreateResult, CreateFat, NoFreeCluster, Damaged, FreeSet;
    ghost var l, v, f, ch := fp.fs.layout, fp.fs.View(), FatOf(fp.fs), fp.chain;
    ghost var last := fp.fs.lastClst;
    AllocatedChain(l, f, ch, fp.sclust, fp.objsize);
    SoundFacts(l);
    clst := ExtendChain(fp.fs, prev, fp.chain, k);
    GrownOneStep(f, ch, n, k, last, l.Eoc(), prev);
    if clst < 2 {
      UntouchedRefl(l, v, f, ch);
      Unhidden(FatOf(fp.fs));
      return;
    }
    fp.chain := Stretch(fp.chain, k, clst);
    fp.clust := clst;
    if fp.sclust == 0 {
      fp.sclust := clst;
    }
    ChainClustersValid(l, FatOf(fp.fs), fp.chain);
    StretchPrefix(ch, k, clst);
    GrownContent(l, v, fp.fs.View(), ch, fp.chain, fp.objsize);
    StretchedIsAllocated(l, f, ch, k, clst, old(fp.sclust), fp.objsize, FatOf(fp.fs));
  }

  lemma Unhidden(fat: seq<nat>)
    ensures NoFreeCluster(fat) <==> FreeSet(fat) == {}
    ensures Damaged(fat) <==> exists c :: 2 <= c < |fat| && fat[c] == 1
  {
  }

  /** How create_chain's answer for cluster k moves growth on. */
  lemma GrownOneStep(fat: seq<nat>, ch: seq<nat>, n: nat, k: nat, last: nat, eoc: nat, prev: nat)
    requires |fat| >= 3 && k <= |ch| && k < n && eoc >= |fat| && (ch == [] || IsChain(fat, ch))
    requires if k == 0 then ch == [] && prev == 0 else prev == ch[k - 1]
    ensures var r := CreateResult(fat, prev, last);
            && (k < |ch| ==> CreateFat(fat, prev, last, eoc) == fat)
            && (k == |ch| && r < 2 ==>
                  Grown(fat, ch, n, last, eoc) == Growth(fat, ch, last, if r == 0 then Full else Broken))
            && (k == |ch| && r >= 2 ==>
                  Grown(fat, ch, n, last, eoc) == Grown(CreateFat(fat, prev, last, eoc), ch + [r], n, r, eoc))
  {
    if k < |ch| {
      CreateFollows(fat, ch, k - 1, last, eoc);
    }
  }

  /** The loop of f_lseek in write mode; rest bytes lie between here and the target. */
  method WalkWrite(fp: Fil, rest: nat, ghost j: nat, ghost target: nat)
    returns (res: Stretched, left: nat, ghost j': nat)
    requires Walking(fp, j) && 0 < rest && target == fp.fptr + rest
    modifies fp`chain, fp`sclust, fp`clust, fp`fptr, fp.fs, fp.fs.win
    ensures fp.Linked() &&
            Goal(fp, ClustersFor(fp.fs.layout, target)) == old(Goal(fp, ClustersFor(fp.fs.layout, target)))
    ensures fp.Bytes() == old(fp.Bytes()) && old(fp.chain) <= fp.chain
    ensures Untouched(fp.fs.layout, old(fp.fs.View()), old(FatOf(fp.fs)), old(fp.chain), fp.fs.View(), FatOf(fp.fs),
                      fp.chain)
    ensures res == Ok ==> Walking(fp, j') && fp.fptr + left == target && 0 < left <= fp.fs.layout.ClusterBytes()
    ensures res != Ok ==>
              left == 0 && j' == |fp.chain| - 1 && fp.clust == fp.chain[j'] &&
              fp.fptr == |fp.chain| * fp.fs.layout.ClusterBytes() < target
    ensures res != Ok ==>
              Goal(fp, ClustersFor(fp.fs.layout, target)) == Growth(FatOf(fp.fs), fp.chain, fp.fs.lastClst, res)
    ensures res == Full ==> NoFreeCluster(FatOf(fp.fs))
    ensures res == Broken ==> Damaged(FatOf(fp.fs))
  {
    hide FatFs.Valid, FatFs.View, FatFs.Shaped, Mirrored, Fits, Layout.Sound, Volume, Fat, Content, Holds, At,
         OnSector, OnCluster, Allocated, Untouched, SameBut, SameSectors, IsChain, BitAnd, ClusterIx, ClustersFor,
         NoFreeCluster, Damaged, FreeSet, Grown;
    ghost var l, v, f, ch := fp.fs.layout, fp.fs.View(), FatOf(fp.fs), fp.chain;
    ghost var n := ClustersFor(l, target);
    ghost var goal := Goal(fp, n);
    ghost var bytes := fp.Bytes();
    UntouchedRefl(l, v, f, ch);
    res, left, j' := Ok, rest, j;
    var bcs := fp.fs.layout.ClusterBytes();
    while left > bcs
      invariant Walking(fp, j') && fp.fptr + left == target && 0 < left
      invariant Goal(fp, n) == goal && fp.Bytes() == bytes && ch <= fp.chain
      invariant Untouched(l, v, f, ch, fp.fs.View(), FatOf(fp.fs), fp.chain)
      decreases left
    {
      BeyondCluster(l, j', left);
      ClustersForIs(l, target);
      left := left - bcs;
      fp.fptr := fp.fptr + bcs;
      assert (j' + 1) * bcs == j' * bcs + bcs;
      ghost var w, g, c := fp.fs.View(), FatOf(fp.fs), fp.chain;
      var clst := StepWrite(fp, fp.clust, j' + 1, n);
      UntouchedTrans(l, v, f, ch, w, g, c, fp.fs.View(), FatOf(fp.fs), fp.chain);
      if clst == 0 {
        return Full, 0, j';
      }
      if clst == 1 {
        return Broken, 0, j';
      }
      j' := j' + 1;
    }
  }

  lemma ClustersForIs(l: Layout, p: nat)
    requires l.csize > 0 && p > 0
    ensures ClustersFor(l, p) == ClusterIx(l, p - 1) + 1
  {
  }

  /** The loop of f_lseek in read mode: the target lies inside the chain. */
  method WalkRead(fp: Fil, rest: nat, ghost j: nat, ghost target: nat) returns (left: nat, ghost j': nat)
    requires Walking(fp, j) && 0 < rest && target == fp.fptr + rest && target <= fp.objsize
    modifies fp`clust, fp`fptr, fp.fs, fp.fs.win
    ensures Walking(fp, j') && fp.fptr + left == target && 0 < left <= fp.fs.layout.ClusterBytes()
    ensures fp.fs.View() == old(fp.fs.View()) && fp.fs.CountersUnchanged() && fp.Bytes() == old(fp.Bytes())
  {
    hide FatFs.Valid, FatFs.View, FatFs.Shaped, Mirrored, Fits, Layout.Sound, Volume, Fat, Content, Holds, At,
         OnSector, OnCluster, Allocated, Untouched, SameBut, SameSectors, IsChain, BitAnd, ClusterIx, ClustersFor;
    left, j' := rest, j;
    ghost var l, v, bytes := fp.fs.layout, fp.fs.View(), fp.Bytes();
    var bcs := fp.fs.layout.ClusterBytes();
    while left > bcs
      invariant Walking(fp, j') && fp.fptr + left == target && 0 < left
      invariant fp.fs.View() == v && fp.fs.CountersUnchanged() && fp.Bytes() == bytes
      decreases left
    {
      BeyondCluster(l, j', left);
      InsideChain(l, FatOf(fp.fs), fp.chain, fp.sclust, fp.objsize, target - 1, j');
      left := left - bcs;
      fp.fptr := fp.fptr + bcs;
      assert (j' + 1) * bcs == j' * bcs + bcs;
      fp.clust := GetFat(fp.fs, fp.clust);
      j' := j' + 1;
    }
  }

  lemma InsideChain(l: Layout, fat: seq<nat>, ch: seq<nat>, sclust: nat, size: nat, p: nat, j: nat)
    requires l.csize > 0 && l.nFatent >= 2 && Allocated(l, fat, ch, sclust, size) && p < size && ClusterIx(l, p) > j
    ensures j + 1 < |ch| && 2 <= ch[j] < l.nFatent && fat[ch[j]] == ch[j + 1]
  {
    HoldsUpTo(l, ch, size, p);
  }

  /** Where the walk of f_lseek begins: at the current cluster when the target lies there or further on,
      else at the first cluster, which is made if there is none. */
  method StartWalk(fp: Fil, ofs: nat, ghost n: nat) returns (clst: nat, rest: nat, ghost j: nat)
    requires fp.Valid() && 0 < ofs && n == ClustersFor(fp.fs.layout, ofs) && (fp.chain == [] ==> fp.canWrite)
    modifies fp`chain, fp`sclust, fp`clust, fp`fptr, fp.fs, fp.fs.win
    ensures fp.Linked() && Goal(fp, n) == old(Goal(fp, n)) && fp.Bytes() == old(fp.Bytes()) && old(fp.chain) <= fp.chain
    ensures Untouched(fp.fs.layout, old(fp.fs.View()), old(FatOf(fp.fs)), old(fp.chain), fp.fs.View(), FatOf(fp.fs),
                      fp.chain)
    ensures clst >= 2 ==> Walking(fp, j) && fp.fptr + rest == ofs && 0 < rest
    ensures old(fp.chain) != [] ==> clst >= 2 && fp.fs.View() == old(fp.fs.View()) && fp.fs.CountersUnchanged()
    ensures clst < 2 ==>
              fp.chain == [] && fp.fptr == 0 &&
              Goal(fp, n) == Growth(FatOf(fp.fs), [], fp.fs.lastClst, if clst == 0 then Full else Broken)
    ensures clst == 0 ==> NoFreeCluster(FatOf(fp.fs))
    ensures clst == 1 ==> Damaged(FatOf(fp.fs))
  {
    hide FatFs.Valid, FatFs.View, FatFs.Shaped, Mirrored, Fits, Layout.Sound, Volume, Fat, Content, Holds, At,
         OnSector, OnCluster, Allocated, Untouched, SameBut, SameSectors, IsChain, BitAnd, ClusterIx, ClustersFor,
         NoFreeCluster, Damaged, FreeSet, Grown, RoundDown;
    ghost var l := fp.fs.layout;
    UntouchedRefl(l, fp.fs.View(), FatOf(fp.fs), fp.chain);
    SoundFacts(l);
    var bcs := fp.fs.layout.ClusterBytes();
    var ifptr := fp.fptr;
    fp.fptr := 0;
    ClustersForIs(l, ofs);
    j := 0;
    ByClusterBytes(l, ofs - 1);
    if ifptr > 0 {
      ByClusterBytes(l, ifptr - 1);
      if (ofs - 1) / bcs >= (ifptr - 1) / bcs {
        RoundDownValue(l, ifptr - 1);
        WalkFromHere(l, fp.chain, ifptr, fp.clust, fp.sect, ofs);
        fp.fptr := RoundDown(ifptr - 1, bcs);
        j := ClusterIx(l, ifptr - 1);
        return fp.clust, ofs - fp.fptr, j;
      }
    }
    clst := fp.sclust;
    rest := ofs;
    if clst == 0 {
      NoCluster(l, FatOf(fp.fs), fp.chain, fp.sclust, fp.objsize);
      clst := StepWrite(fp, 0, 0, n);
      if clst == 1 {
        return;
      }
      fp.sclust := clst;
    }
    fp.clust := clst;
  }

  lemma WalkFromHere(l: Layout, ch: seq<nat>, p: nat, clust: nat, sect: nat, ofs: nat)
    requires l.csize > 0 && l.nFatent >= 2 && p > 0 && At(l, ch, p, clust, sect) && 0 < ofs
    requires ClusterIx(l, ofs - 1) >= ClusterIx(l, p - 1)
    ensures ClusterIx(l, p - 1) < |ch| && clust == ch[ClusterIx(l, p - 1)]
    ensures ClusterIx(l, p - 1) * l.ClusterBytes() < ofs
  {
    var b := l.ClusterBytes();
    ByClusterBytes(l, ofs - 1);
    MulMonotone(b, ClusterIx(l, p - 1), ClusterIx(l, ofs - 1));
    assert ofs - 1 == b * ((ofs - 1) / b) + (ofs - 1) % b;
  }

  /** The file and the offset asked for: past the end only in write mode. */
  function Clip(ofs: nat, size: nat, write: bool): nat {
    if ofs > size && !write then size else ofs
  }

  /** The position is determined and inside the chain; the size has not been raised yet. */
  ghost predicate Landed(fp: Fil, nsect: nat)
    requires fp.Linked()
    reads fp, fp.fs, fp.fs.win
  {
    && Holds(fp.fs.layout, fp.chain, fp.fptr) && fp.fptr < U32
    && At(fp.fs.layout, fp.chain, fp.fptr, fp.clust, nsect)
  }

  /** From the start of the walk to the position. */
  method SeekTo(fp: Fil, target: nat) returns (nsect: nat)
    requires fp.Valid() && fp.err == FrOk && 0 < target < U32 && (target <= fp.objsize || fp.canWrite)
    modifies fp`chain, fp`sclust, fp`clust, fp`fptr, fp`err, fp.fs, fp.fs.win
    ensures fp.Linked() && fp.Bytes() == old(fp.Bytes())
    ensures Untouched(fp.fs.layout, old(fp.fs.View()), old(FatOf(fp.fs)), old(fp.chain), fp.fs.View(), FatOf(fp.fs),
                      fp.chain)
    ensures var g := old(Goal(fp, ClustersFor(fp.fs.layout, target)));
            && FatOf(fp.fs) == g.fat && fp.chain == g.chain && fp.fs.lastClst == g.last
            && fp.err == (if g.status == Broken then FrIntErr else FrOk)
            && (g.status != Broken ==> Landed(fp, nsect) && fp.fptr == Landing(fp.fs.layout, g, target))
            && (g.status == Full ==> NoFreeCluster(FatOf(fp.fs)))
            && (g.status == Broken ==> Damaged(FatOf(fp.fs)))
    ensures !fp.canWrite ==>
              fp.fs.View() == old(fp.fs.View()) && fp.fs.CountersUnchanged() && fp.err == FrOk && fp.fptr == target
  {
    hide FatFs.Valid, FatFs.View, FatFs.Shaped, Mirrored, Fits, Layout.Sound, Volume, Fat, Content, Holds, At,
         OnSector, OnCluster, Allocated, Untouched, SameBut, SameSectors, IsChain, BitAnd, ClusterIx, ClustersFor,
         NoFreeCluster, Damaged, FreeSet, Grown;
    ghost var l, v, f, ch := fp.fs.layout, fp.fs.View(), FatOf(fp.fs), fp.chain;
    ghost var n := ClustersFor(l, target);
    if target <= fp.objsize {
      RoomForByte(l, fp.chain, fp.objsize, target);
    }
    nsect := 0;
    ghost var j;
    var clst, rest;
    clst, rest, j := StartWalk(fp, target, n);
    if clst == 1 {
      fp.err := FrIntErr;
      return;
    }
    if clst == 0 {
      AtTop(l, fp.chain, fp.clust, nsect);
      return;
    }
    ghost var w, g, c := fp.fs.View(), FatOf(fp.fs), fp.chain;
    nsect := WalkOn(fp, rest, j, target);
    UntouchedTrans(l, v, f, ch, w, g, c, fp.fs.View(), FatOf(fp.fs), fp.chain);
  }

  /** The walk itself and the sector it ends in. */
  method WalkOn(fp: Fil, rest: nat, ghost j: nat, ghost target: nat) returns (nsect: nat)
    requires Walking(fp, j) && fp.err == FrOk && 0 < rest && target == fp.fptr + rest < U32 &&
             (target <= fp.objsize || fp.canWrite)
    modifies fp`chain, fp`sclust, fp`clust, fp`fptr, fp`err, fp.fs, fp.fs.win
    ensures fp.Linked() && fp.Bytes() == old(fp.Bytes())
    ensures Untouched(fp.fs.layout, old(fp.fs.View()), old(FatOf(fp.fs)), old(fp.chain), fp.fs.View(), FatOf(fp.fs),
                      fp.chain)
    ensures var g := old(Goal(fp, ClustersFor(fp.fs.layout, target)));
            && FatOf(fp.fs) == g.fat && fp.chain == g.chain && fp.fs.lastClst == g.last
            && fp.err == (if g.status == Broken then FrIntErr else FrOk)
            && (g.status != Broken ==> Landed(fp, nsect) && fp.fptr == Landing(fp.fs.layout, g, target))
            && (g.status == Full ==> NoFreeCluster(FatOf(fp.fs)))
            && (g.status == Broken ==> Damaged(FatOf(fp.fs)))
    ensures !fp.canWrite ==>
              fp.fs.View() == old(fp.fs.View()) && fp.fs.CountersUnchanged() && fp.err == FrOk && fp.fptr == target
  {
    hide FatFs.Valid, FatFs.View, FatFs.Shaped, Mirrored, Fits, Layout.Sound, Volume, Fat, Content, Holds, At,
         OnSector, OnCluster, Allocated, Untouched, SameBut, SameSectors, IsChain, BitAnd, ClusterIx, ClustersFor,
         NoFreeCluster, Damaged, FreeSet, Grown;
    UntouchedRefl(fp.fs.layout, fp.fs.View(), FatOf(fp.fs), fp.chain);
    ghost var n := ClustersFor(fp.fs.layout, target);
    nsect := 0;
    var left;
    ghost var k;
    if fp.canWrite {
      var r;
      r, left, k := WalkWrite(fp, rest, j, target);
      if r == Broken {
        fp.err := FrIntErr;
        return;
      }
      if r == Full {
        AtEndOfChain(fp.fs.layout, fp.chain, fp.clust, nsect);
        return;
      }
    } else {
      left, k := WalkRead(fp, rest, j, target);
    }
    nsect := Arrive(fp, left, k, n);
  }

  /** The rest of the way lies inside the current cluster. */
  method Arrive(fp: Fil, left: nat, ghost j: nat, ghost n: nat) returns (nsect: nat)
    requires Walking(fp, j) && 0 < left <= fp.fs.layout.ClusterBytes() && fp.fptr + left < U32
    requires n == ClustersFor(fp.fs.layout, fp.fptr + left)
    modifies fp`fptr
    ensures fp.Linked() && fp.Bytes() == old(fp.Bytes()) && fp.fptr == old(fp.fptr) + left && Landed(fp, nsect)
    ensures Goal(fp, n) == old(Goal(fp, n)) == Growth(FatOf(fp.fs), fp.chain, fp.fs.lastClst, Ok)
  {
    hide FatFs.Valid, FatFs.View, FatFs.Shaped, Mirrored, Fits, Layout.Sound, Volume, Fat, Content, Holds, At,
         OnSector, OnCluster, Allocated, Untouched, SameBut, SameSectors, IsChain, BitAnd, ClusterIx, ClustersFor,
         Grown;
    SoundFacts(fp.fs.layout);
    nsect := 0;
    AtAfterWalk(fp.fs.layout, fp.chain, j, left, fp.clust,
                if left % SS != 0 then Clust2Sect(fp.fs.layout, fp.clust) + left / SS else 0);
    GrownEnough(FatOf(fp.fs), fp.chain, n, fp.fs.lastClst, fp.fs.layout.Eoc());
    fp.fptr := fp.fptr + left;
    if left % SS != 0 {
      nsect := Clust2Sect(fp.fs.layout, fp.clust) + left / SS;
    }
  }

  lemma AtTop(l: Layout, ch: seq<nat>, clust: nat, sect: nat)
    requires l.csize > 0 && l.nFatent >= 2
    ensures At(l, ch, 0, clust, sect) && ClustersFor(l, 0) == 0 && Holds(l, ch, 0)
  {
  }

  lemma RoomForByte(l: Layout, ch: seq<nat>, size: nat, p: nat)
    requires l.csize > 0 && Holds(l, ch, size) && 0 < p <= size
    ensures ch != []
  {
  }

  lemma AtEndOfChain(l: Layout, ch: seq<nat>, clust: nat, sect: nat)
    requires l.csize > 0 && l.nFatent >= 2 && ch != [] && clust == ch[|ch| - 1]
    ensures var p := |ch| * l.ClusterBytes(); At(l, ch, p, clust, sect) && Holds(l, ch, p)
  {
    var b := l.ClusterBytes();
    assert |ch| * b == (|ch| - 1) * b + b;
    InCluster(l, |ch| - 1, b);
  }

  lemma AtAfterWalk(l: Layout, ch: seq<nat>, j: nat, left: nat, clust: nat, nsect: nat)
    requires l.csize > 0 && l.nFatent >= 2 && j < |ch| && clust == ch[j] && 0 < left <= l.ClusterBytes()
    requires left % SS != 0 ==> nsect == Clust2Sect(l, clust) + left / SS
    ensures var p := j * l.ClusterBytes() + left;
            At(l, ch, p, clust, nsect) && Holds(l, ch, p) && ClustersFor(l, p) <= |ch|
  {
    InCluster(l, j, left);
  }

  lemma GrownEnough(fat: seq<nat>, ch: seq<nat>, n: nat, last: nat, eoc: nat)
    requires |fat| >= 3 && n <= |ch|
    ensures Grown(fat, ch, n, last, eoc) == Growth(fat, ch, last, Ok)
  {
  }

  /** The end of f_lseek: raise the size if the position lies past it, and note the sector. */
  method Settle(fp: Fil, nsect: nat)
    requires fp.Linked() && Landed(fp, nsect)
    modifies fp`objsize, fp`modified, fp`sect
    ensures fp.Valid() && fp.objsize == Max(old(fp.objsize), fp.fptr) &&
            fp.Bytes()[..old(fp.objsize)] == old(fp.Bytes())
    ensures fp.modified == (old(fp.modified) || fp.fptr > old(fp.objsize))
  {
    hide FatFs.Valid, FatFs.View, FatFs.Shaped, Mirrored, Fits, Layout.Sound, Volume, Fat, Content, Holds, At,
         OnSector, OnCluster, Allocated, Untouched, SameBut, SameSectors, IsChain, BitAnd, ClusterIx, ClustersFor;
    ghost var l := fp.fs.layout;
    ghost var size := fp.objsize;
    HoldsMax(l, fp.chain, size, fp.fptr);
    ContentTake(l, fp.fs.View(), fp.chain, size, Max(size, fp.fptr));
    AllocatedSize(l, FatOf(fp.fs), fp.chain, fp.sclust, size, Max(size, fp.fptr));
    if fp.fptr % SS == 0 {
      AtSect(l, fp.chain, fp.fptr, fp.clust, nsect, fp.sect);
    }
    if fp.fptr > fp.objsize {
      fp.objsize := fp.fptr;
      fp.modified := true;
    }
    if fp.fptr % SS != 0 && nsect != fp.sect {
      fp.sect := nsect;
    }
  }

  lemma AtSect(l: Layout, ch: seq<nat>, p: nat, clust: nat, nsect: nat, sect: nat)
    requires l.csize > 0 && l.nFatent >= 2 && At(l, ch, p, clust, nsect) && p % SS == 0
    ensures At(l, ch, p, clust, sect)
  {
  }

  /** What f_lseek brings about: position, chain and FAT are those of growing the chain from where it ended,
      and none of them depends on the position before. */
  ghost predicate SoughtTo(fp: Fil, g: Growth, target: nat, size: nat, bytes: seq<byte>)
    requires fp.Linked()
    reads fp, fp.fs, fp.fs.win
  {
    && FatOf(fp.fs) == g.fat && fp.chain == g.chain && fp.fs.lastClst == g.last
    && fp.err == (if g.status == Broken then FrIntErr else FrOk)
    && (g.status == Broken ==> Damaged(FatOf(fp.fs)))
    && (g.status == Full ==> NoFreeCluster(FatOf(fp.fs)))
    && (g.status != Broken ==>
          && fp.Valid() && fp.fptr == Landing(fp.fs.layout, g, target)
          && fp.objsize == Max(size, fp.fptr) && |bytes| == size && fp.Bytes()[..size] == bytes)
  }

  /** f_lseek */
  method Lseek(fp: Fil, ofs: nat) returns (res: FResult)
    requires fp.Valid() && ofs < U32
    modifies fp`chain, fp`sclust, fp`clust, fp`fptr, fp`sect, fp`objsize, fp`modified, fp`err, fp.fs, fp.fs.win
    ensures fp.Linked() && res == fp.err
    ensures old(fp.err) != FrOk ==>
              fp.Valid() && fp.fptr == old(fp.fptr) && fp.Bytes() == old(fp.Bytes()) && fp.err == old(fp.err)
    ensures old(fp.err) == FrOk ==>
              SoughtTo(fp, old(Goal(fp, ClustersFor(fp.fs.layout, Clip(ofs, fp.objsize, fp.canWrite)))),
                       Clip(ofs, old(fp.objsize), fp.canWrite), old(fp.objsize), old(fp.Bytes()))
    ensures old(fp.err) == FrOk && res == FrOk ==>
              fp.fptr == Min(if fp.canWrite then ofs else Min(ofs, old(fp.objsize)),
                             |fp.chain| * (512 * fp.fs.layout.csize))
    ensures old(fp.err) == FrOk && res == FrOk && fp.canWrite ==>
              && fp.objsize == Max(old(fp.objsize), fp.fptr)
              && fp.fptr == Min(ofs, (|old(fp.chain)| + |FreeSet(old(FatOf(fp.fs)))|) * (512 * fp.fs.layout.csize))
    ensures old(fp.err) == FrOk && !fp.canWrite ==>
              res == FrOk && fp.Valid() && fp.fptr == Min(ofs, old(fp.objsize)) &&
              fp.fs.View() == old(fp.fs.View()) && fp.Bytes() == old(fp.Bytes())
    ensures fp.modified == (old(fp.modified) || fp.objsize > old(fp.objsize))
    ensures Untouched(fp.fs.layout, old(fp.fs.View()), old(FatOf(fp.fs)), old(fp.chain), fp.fs.View(), FatOf(fp.fs),
                      fp.chain)
  {
    hide FatFs.Valid, FatFs.View, FatFs.Shaped, Mirrored, Fits, Layout.Sound, Volume, Fat, Content, Holds, At,
         OnSector, OnCluster, Allocated, Untouched, SameBut, SameSectors, IsChain, BitAnd, ClusterIx, ClustersFor,
         NoFreeCluster, Damaged, FreeSet, Grown;
    UntouchedRefl(fp.fs.layout, fp.fs.View(), FatOf(fp.fs), fp.chain);
    if fp.err != FrOk {
      return fp.err;
    }
    var target := ofs;
    if target > fp.objsize && !fp.canWrite {
      target := fp.objsize;
    }
    LandsAt(fp.fs.layout, FatOf(fp.fs), fp.chain, fp.fs.lastClst, fp.fs.layout.Eoc(), target);
    var nsect := 0;
    if target == 0 {
      AtTop(fp.fs.layout, fp.chain, fp.clust, nsect);
      GrownEnough(FatOf(fp.fs), fp.chain, 0, fp.fs.lastClst, fp.fs.layout.Eoc());
      fp.fptr := 0;
    } else {
      nsect := SeekTo(fp, target);
      if fp.err != FrOk {
        return fp.err;
      }
    }
    Settle(fp, nsect);
    res := FrOk;
    if fp.canWrite {
      ghost var g := old(Goal(fp, ClustersFor(fp.fs.layout, Clip(ofs, fp.objsize, fp.canWrite))));
      SoughtSoFar(fp, old(fp.fs.View()), old(FatOf(fp.fs)), old(fp.chain), g, ofs);
    }
  }

  /** How far that is, counted in the free clusters there were. */
  lemma SoughtSoFar(fp: Fil, v: Drive, f: seq<nat>, ch: seq<nat>, g: Growth, ofs: nat)
    requires fp.Valid() && |f| >= 2 && (ch == [] || IsChain(f, ch))
    requires Untouched(fp.fs.layout, v, f, ch, fp.fs.View(), FatOf(fp.fs), fp.chain)
    requires fp.chain == g.chain && fp.fptr == Min(ofs, |fp.chain| * (512 * fp.fs.layout.csize))
    requires if g.status == Full then NoFreeCluster(FatOf(fp.fs)) else fp.fptr == ofs
    ensures fp.fptr == Min(ofs, (|ch| + |FreeSet(f)|) * (512 * fp.fs.layout.csize))
  {
    hide Volume, Layout.Sound, Untouched, FatFs.Valid, FatFs.View, IsChain, NoFreeCluster;
    AllocatedChain(fp.fs.layout, FatOf(fp.fs), fp.chain, fp.sclust, fp.objsize);
    RoomOnVolume(fp.fs.layout, v, f, ch, fp.fs.View(), FatOf(fp.fs), fp.chain);
    hide Holds, At;
    FullOrThere(512 * fp.fs.layout.csize, fp.fptr, ofs, |fp.chain|, |ch| + |FreeSet(f)|);
  }

  lemma StillUndamaged(fat: seq<nat>, clst: nat, last: nat, eoc: nat)
    requires |fat| >= 3 && eoc >= |fat| && !Damaged(fat)
    ensures !Damaged(CreateFat(fat, clst, last, eoc))
  {
    var f := CreateFat(fat, clst, last, eoc);
    hide Search;
    if Allocates(fat, clst, last) {
      SearchRange(fat, if clst == 0 then Hint(|fat|, last) else clst, 0);
    }
    forall c | 2 <= c < |f| && fat[c] != 1
      ensures f[c] != 1
    {
    }
  }

  /** With enough free clusters growth reaches its goal; with too few it takes every free cluster. */
  lemma {:induction false} GrownLength(fat: seq<nat>, ch: seq<nat>, n: nat, last: nat, eoc: nat)
    requires |fat| >= 3 && eoc >= |fat| && (ch == [] || IsChain(fat, ch)) && !Damaged(fat)
    ensures var g := Grown(fat, ch, n, last, eoc);
            && g.status == (if n <= |ch| + |FreeSet(fat)| then Ok else Full)
            && |g.chain| == Max(|ch|, Min(n, |ch| + |FreeSet(fat)|))
            && (g.chain == [] || IsChain(g.fat, g.chain)) && !Damaged(g.fat)
    decreases n - |ch|
  {
    if |ch| < n {
      var clst := if ch == [] then 0 else ch[|ch| - 1];
      var r := CreateResult(fat, clst, last);
      ExtendChainValue(fat, ch, |ch|, clst, last, eoc);
      if r >= 2 {
        CreateCounts(fat, clst, last, eoc);
        var f := CreateFat(fat, clst, last, eoc);
        if ch == [] {
          CreateStarts(fat, last, eoc);
          assert ch + [r] == [r];
        } else {
          CreateExtends(fat, ch, last, eoc);
        }
        StillUndamaged(fat, clst, last, eoc);
        GrownLength(f, ch + [r], n, r, eoc);
      }
    }
  }

  /** The FAT after the clusters of a chain behind the first k have been freed: what remove_chain makes of it. */
  ghost function CutFat(fat: seq<nat>, ch: seq<nat>, k: nat, eoc: nat): (f: seq<nat>)
    requires k <= |ch|
    ensures |f| == |fat|
  {
    if k == |ch| then fat else RemoveResult(fat, ch[k], if k == 0 then 0 else ch[k - 1], eoc).fat
  }

  /** Every cluster behind the first k is free afterwards. */
  lemma CutFrees(fat: seq<nat>, ch: seq<nat>, k: nat, eoc: nat)
    requires IsChain(fat, ch) && k <= |ch| && eoc >= |fat|
    ensures forall i :: k <= i < |ch| ==> ch[i] < |fat| && CutFat(fat, ch, k, eoc)[ch[i]] == 0
  {
    if k < |ch| {
      RemoveCuts(fat, ch, k, eoc);
      forall i | k <= i < |ch|
        ensures CutFat(fat, ch, k, eoc)[ch[i]] == 0
      {
        assert ch[k..][i - k] == ch[i];
      }
    }
  }

  /** f_truncate: cut the file at the position; exactly the clusters behind it are freed. */
  method Truncate(fp: Fil) returns (res: FResult)
    requires fp.Valid()
    modifies fp`chain, fp`sclust, fp`objsize, fp`modified, fp.fs, fp.fs.win
    ensures fp.Valid() && fp.fptr == old(fp.fptr)
    ensures res == if fp.err != FrOk then fp.err else if fp.canWrite then FrOk else FrDenied
    ensures if res == FrOk then fp.objsize == fp.fptr && fp.Bytes() == old(fp.Bytes())[..fp.fptr]
            else fp.Bytes() == old(fp.Bytes())
    ensures var k := ClustersFor(fp.fs.layout, fp.fptr);
            if res == FrOk && fp.fptr < old(fp.objsize)
            then k <= |old(fp.chain)| && fp.chain == old(fp.chain)[..k] &&
                 FatOf(fp.fs) == CutFat(old(FatOf(fp.fs)), old(fp.chain), k, fp.fs.layout.Eoc())
            else fp.chain == old(fp.chain) && FatOf(fp.fs) == old(FatOf(fp.fs))
    ensures fp.modified == (old(fp.modified) || (res == FrOk && fp.fptr < old(fp.objsize)))
    ensures Untouched(fp.fs.layout, old(fp.fs.View()), old(FatOf(fp.fs)), old(fp.chain), fp.fs.View(), FatOf(fp.fs),
                      fp.chain)
  {
    hide FatFs.Valid, FatFs.View, FatFs.Shaped, Mirrored, Fits, Layout.Sound, Volume, Fat, Content, Holds, At,
         OnSector, OnCluster, Allocated, Untouched, SameBut, SameSectors, IsChain, BitAnd, ClusterIx, ClustersFor;
    ghost var l, v, f, ch := fp.fs.layout, fp.fs.View(), FatOf(fp.fs), fp.chain;
    UntouchedRefl(l, v, f, ch);
    res := FrOk;
    if fp.err != FrOk {
      return fp.err;
    }
    if !fp.canWrite {
      return FrDenied;
    }
    if fp.objsize > fp.fptr {
      CutFile(fp);
      fp.modified := true;
    }
  }

  method CutFile(fp: Fil)
    requires fp.Valid() && fp.fptr < fp.objsize
    modifies fp`chain, fp`sclust, fp`objsize, fp.fs, fp.fs.win
    ensures fp.Valid() && fp.objsize == fp.fptr && fp.Bytes() == old(fp.Bytes())[..fp.fptr]
    ensures var k := ClustersFor(fp.fs.layout, fp.fptr);
            && k <= |old(fp.chain)| && fp.chain == old(fp.chain)[..k]
            && FatOf(fp.fs) == CutFat(old(FatOf(fp.fs)), old(fp.chain), k, fp.fs.layout.Eoc())
    ensures Untouched(fp.fs.layout, old(fp.fs.View()), old(FatOf(fp.fs)), old(fp.chain), fp.fs.View(), FatOf(fp.fs),
                      fp.chain)
  {
    hide FatFs.Valid, FatFs.View, FatFs.Shaped, Mirrored, Fits, Layout.Sound, Volume, Fat, Content, Holds, At,
         OnSector, OnCluster, Allocated, Untouched, SameBut, SameSectors, IsChain, BitAnd, ClusterIx, ClustersFor,
         CutFat, PowerOfTwo, Layout.EntryRange, Layout.Eoc, Layout.End, Layout.Areas, AllClustersValid,
         SameOutsideFat;
    ghost var l, v, f, ch := fp.fs.layout, fp.fs.View(), FatOf(fp.fs), fp.chain;
    ghost var size, start := fp.objsize, fp.sclust;
    ghost var k := ClustersFor(l, fp.fptr);
    SoundFacts(l);
    RoomForByte(l, ch, size, size);
    AllocatedChain(l, f, ch, start, size);
    LastClusterKept(l, f, ch, fp.fptr, fp.clust, fp.sect);
    FreeBehind(fp, k);
    ghost var f' := FatOf(fp.fs);
    ChainClustersValid(l, f, ch);
    SameOutsideFatSameSectors(l, v, fp.fs.View(), f, ch);
    CutKeeps(l, v, fp.fs.View(), f, f', ch, k, start, size, fp.fptr, fp.clust, fp.sect);
    if fp.fptr == 0 {
      fp.sclust := 0;
    }
    fp.chain := fp.chain[..k];
    fp.objsize := fp.fptr;
    assert FatOf(fp.fs) == f';
  }

  /** The remove_chain calls of f_truncate. */
  method FreeBehind(fp: Fil, ghost k: nat)
    requires fp.Valid() && fp.chain != [] && IsChain(FatOf(fp.fs), fp.chain) &&
             k == ClustersFor(fp.fs.layout, fp.fptr) <= |fp.chain|
    modifies fp.fs, fp.fs.win
    ensures fp.fs.Valid() && Volume(fp.fs.layout, fp.fs.View()) &&
            SameOutsideFat(fp.fs.layout, old(fp.fs.View()), fp.fs.View())
    ensures FatOf(fp.fs) == CutFat(old(FatOf(fp.fs)), fp.chain, k, fp.fs.layout.Eoc())
    ensures k > 0 ==> IsChain(FatOf(fp.fs), fp.chain[..k])
    ensures Untouched(fp.fs.layout, old(fp.fs.View()), old(FatOf(fp.fs)), fp.chain, fp.fs.View(), FatOf(fp.fs),
                      fp.chain[..k])
  {
    hide FatFs.Valid, FatFs.View, FatFs.Shaped, Mirrored, Fits, Layout.Sound, Volume, Fat, Content, Holds, At,
         OnSector, OnCluster, Allocated, Untouched, SameBut, SameSectors, IsChain, BitAnd, ClusterIx, ClustersFor,
         RemoveResult, SameOutsideFat;
    ghost var l, v, f, ch := fp.fs.layout, fp.fs.View(), FatOf(fp.fs), fp.chain;
    SoundFacts(l);
    SameOutsideFatRefl(l, v);
    UntouchedRefl(l, v, f, ch);
    LastClusterKept(l, f, ch, fp.fptr, fp.clust, fp.sect);
    AllocatedChain(l, f, ch, fp.sclust, fp.objsize);
    assert k == |ch| ==> ch[..k] == ch;
    if fp.fptr == 0 {
      RemoveTail(fp.fs, fp.sclust, 0, ch, k);
    } else {
      var ncl := GetFat(fp.fs, fp.clust);
      if ncl < fp.fs.layout.nFatent {
        RemoveTail(fp.fs, ncl, fp.clust, ch, k);
      }
    }
  }

  /** remove_chain applied to the clusters of ch from number k on. */
  method RemoveTail(fs: FatFs, clst: nat, pclst: nat, ghost ch: seq<nat>, ghost k: nat)
    requires fs.Valid() && Volume(fs.layout, fs.View()) && IsChain(FatOf(fs), ch) && k < |ch|
    requires clst == ch[k] && pclst == if k == 0 then 0 else ch[k - 1]
    modifies fs, fs.win
    ensures fs.Valid() && Volume(fs.layout, fs.View()) && SameOutsideFat(fs.layout, old(fs.View()), fs.View())
    ensures FatOf(fs) == RemoveResult(old(FatOf(fs)), clst, pclst, fs.layout.Eoc()).fat
    ensures k > 0 ==> IsChain(FatOf(fs), ch[..k])
    ensures Untouched(fs.layout, old(fs.View()), old(FatOf(fs)), ch, fs.View(), FatOf(fs), ch[..k])
  {
    hide FatFs.Valid, FatFs.View, FatFs.Shaped, Mirrored, Fits, Layout.Sound, Volume, Fat, Content, Holds, At,
         OnSector, OnCluster, Allocated, Untouched, SameBut, SameSectors, IsChain, BitAnd, ClusterIx, ClustersFor,
         RemoveResult, SameOutsideFat;
    ghost var l, v, f := fs.layout, fs.View(), FatOf(fs);
    SoundFacts(l);
    RemoveCuts(f, ch, k, l.Eoc());
    var r := RemoveChain(fs, clst, pclst);
    VolumeSameSize(l, v, fs.View());
    UntouchedByRemove(l, v, fs.View(), f, ch, k, l.Eoc());
  }

  /** The part of the file before the cut is as it was. */
  lemma CutKeeps(l: Layout, v: Drive, w: Drive, fat: seq<nat>, fat': seq<nat>, ch: seq<nat>, k: nat,
                 sclust: nat, size: nat, p: nat, clust: nat, sect: nat)
    requires Volume(l, v) && Volume(l, w) && Allocated(l, fat, ch, sclust, size) && ch != [] && p <= size
    requires |fat'| == |fat| && SameSectors(l, v, w, ch) && k == ClustersFor(l, p) <= |ch|
    requires k > 0 ==> IsChain(fat', ch[..k])
    requires At(l, ch, p, clust, sect)
    ensures Allocated(l, fat', ch[..k], if p == 0 then 0 else sclust, p) && At(l, ch[..k], p, clust, sect)
    ensures Content(l, w, ch[..k], p) == Content(l, v, ch, size)[..p]
  {
    hide Content, Volume, SameSectors, IsChain, At, ClustersFor, Allocated, Holds;
    CutPosition(l, fat, fat', ch, k, sclust, size, p, clust, sect);
    assert ch == ch[..k] + ch[k..];
    ContentOfPrefix(l, w, ch[..k], ch[k..], p);
    SameSectorsSameContent(l, v, w, ch, size);
    HoldsUpTo(l, ch, size, p);
    ContentTake(l, w, ch, p, size);
  }

  lemma CutPosition(l: Layout, fat: seq<nat>, fat': seq<nat>, ch: seq<nat>, k: nat,
                    sclust: nat, size: nat, p: nat, clust: nat, sect: nat)
    requires l.csize > 0 && l.nFatent >= 2 && Allocated(l, fat, ch, sclust, size) && ch != [] && p <= size
    requires |fat'| == |fat| && k == ClustersFor(l, p) <= |ch| && (k > 0 ==> IsChain(fat', ch[..k]))
    requires At(l, ch, p, clust, sect)
    ensures Allocated(l, fat', ch[..k], if p == 0 then 0 else sclust, p) && At(l, ch[..k], p, clust, sect)
  {
    hide IsChain;
    if p % SS != 0 {
      assert (p - 1) / SS == p / SS;
    }
  }

  /** The cluster behind the position, if there is one. */
  lemma LastClusterKept(l: Layout, fat: seq<nat>, ch: seq<nat>, p: nat, clust: nat, sect: nat)
    requires l.csize > 0 && l.nFatent >= 2 && |fat| == l.nFatent && IsChain(fat, ch) && At(l, ch, p, clust, sect)
    ensures var k := ClustersFor(l, p);
            && k <= |ch|
            && (p == 0 ==> k == 0)
            && (p > 0 ==> k > 0 && clust == ch[k - 1] && 2 <= clust < |fat|
                          && (if k < |ch| then fat[clust] == ch[k] < |fat| else fat[clust] >= |fat|))
  {
  }
}
