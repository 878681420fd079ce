/** create_chain and remove_chain through the window, and the free-cluster count they keep. */
module Alloc {
  import opened Words
  import opened Geometry
  import opened Window
  import opened FatEntry
  import opened Chains

  /** clust2sect: 0 for an invalid cluster number. */
  function Clust2Sect(l: Layout, clst: nat): nat
    requires l.nFatent >= 2
  {
    if clst < 2 || clst - 2 >= l.nFatent - 2 then 0
    else
      MulMonotone(l.csize, 0, clst - 2);
      l.csize * (clst - 2) + l.database
  }

  /** Cluster 2 begins where the data area does, and each cluster csize sectors behind the one before. Other numbers are
      no cluster. */
  lemma ClusterPlace(l: Layout, c: nat)
    requires l.nFatent >= 2
    ensures 2 < l.nFatent ==> Clust2Sect(l, 2) == l.database
    ensures 2 <= c && c + 1 < l.nFatent ==> Clust2Sect(l, c + 1) == Clust2Sect(l, c) + l.csize
    ensures c < 2 || c >= l.nFatent ==> Clust2Sect(l, c) == 0
  {
    assert l.csize * (c - 1) == l.csize * (c - 2) + l.csize;
  }

  /** So cluster c begins c - 2 clusters behind the data area. */
  lemma {:induction false} ClusterStart(l: Layout, c: nat)
    requires 2 <= c < l.nFatent
    ensures Clust2Sect(l, c) == l.database + (c - 2) * l.csize
  {
    hide Clust2Sect;
    if c == 2 {
      ClusterPlace(l, 2);
    } else {
      ClusterStart(l, c - 1);
      ClusterPlace(l, c - 1);
      assert (c - 2) * l.csize == (c - 3) * l.csize + l.csize;
    }
  }

  /** The sectors of a cluster lie in the data area. */
  lemma ClusterInside(l: Layout, c: nat, j: nat)
    requires l.Sound() && 2 <= c < l.nFatent && j < l.csize
    ensures l.database <= Clust2Sect(l, c) && Clust2Sect(l, c) + j < l.End()
  {
    hide Layout.Sound;
    InBlocks(l.csize, c - 2, l.nFatent - 2, j);
  }

  /** No sector belongs to two clusters. */
  lemma ClustersApart(l: Layout, c: nat, d: nat, j: nat, k: nat)
    requires 2 <= c < l.nFatent && 2 <= d < l.nFatent && j < l.csize && k < l.csize
    requires Clust2Sect(l, c) + j == Clust2Sect(l, d) + k
    ensures c == d && j == k
  {
    SplitUnique(l.csize, c - 2, j, d - 2, k);
  }

  /** The FAT as the window presents it. */
  ghost function FatOf(fs: FatFs): (f: seq<nat>)
    requires fs.Valid() && fs.layout.Sound()
    reads fs, fs.win
    ensures |f| == fs.layout.nFatent
  {
    Fat(fs.layout, fs.View())
  }

  /** What one allocation does to the free-cluster count: nothing at all when the count says
      "all free" or is unknown, else one less (a DWORD subtraction). */
  function CountDown(free: nat, n: nat): nat
    requires n >= 2
  {
    if free < n - 2 then Sub32(free, 1) else free
  }

  /** What freeing k clusters does to the count. */
  function CountUp(free: nat, n: nat, k: nat): nat
    requires n >= 2
  {
    if free < n - 2 then Min(free + k, n - 2) else free
  }

  /** A count that is unknown stays so. Otherwise it is one less after an allocation, as a DWORD, and so many more after
      a removal, up to all clusters; but a count of all clusters is not touched. */
  lemma CountsFrom(free: nat, n: nat, k: nat)
    requires 2 <= n < U32
    ensures free == 0xFFFF_FFFF ==> CountDown(free, n) == free && CountUp(free, n, k) == free
    ensures 0 < free < n - 2 ==> CountDown(free, n) + 1 == free
    ensures free == 0 && n > 2 ==> CountDown(free, n) == 0xFFFF_FFFF
    ensures free < n - 2 ==> CountUp(free, n, k) == Min(free + k, n - 2)
    ensures free == n - 2 ==> CountDown(free, n) == free && CountUp(free, n, k) == free
  {
    if free < n - 2 {
      Sub32Value(free, 1);
    }
  }

  /** create_chain */
  method CreateChain(fs: FatFs, clst: nat) returns (r: nat)
    requires fs.Valid() && fs.layout.Sound()
    modifies fs, fs.win
    ensures fs.Valid() && SameOutsideFat(fs.layout, old(fs.View()), fs.View())
    ensures r == CreateResult(old(FatOf(fs)), clst, old(fs.lastClst))
    ensures FatOf(fs) == CreateFat(old(FatOf(fs)), clst, old(fs.lastClst), fs.layout.Eoc())
    ensures if Allocates(old(FatOf(fs)), clst, old(fs.lastClst))
            then fs.lastClst == r && fs.freeClst == CountDown(old(fs.freeClst), fs.layout.nFatent) && fs.fsiDirty
            else fs.CountersUnchanged() && fs.View() == old(fs.View())
  {
    hide Fat, FatFs.Valid, FatFs.View, FatFs.Shaped, Fits, Layout.Sound;
    SoundFacts(fs.layout);
    var n := fs.layout.nFatent;
    var scl;
    if clst == 0 {
      scl := fs.lastClst;
      if scl == 0 || scl >= n {
        scl := 1;
      }
    } else {
      var cs := GetFat(fs, clst);
      if cs < 2 {
        return 1;
      }
      if cs < n {
        return cs;
      }
      scl := clst;
    }
    r := FindFree(fs, scl);
    if r >= 2 {
      SearchRange(FatOf(fs), scl, 0);
      TakeCluster(fs, r, clst);
    }
  }

  /** The rest of create_chain: mark the new cluster as the end, link it behind clst, update the counters. */
  method TakeCluster(fs: FatFs, ncl: nat, clst: nat)
    requires fs.Valid() && fs.layout.Sound()
    requires 2 <= ncl < fs.layout.nFatent && (clst == 0 || 2 <= clst < fs.layout.nFatent)
    modifies fs, fs.win
    ensures fs.Valid() && SameOutsideFat(fs.layout, old(fs.View()), fs.View())
    ensures FatOf(fs) == var f := old(FatOf(fs))[ncl := fs.layout.Eoc()]; if clst == 0 then f else f[clst := ncl]
    ensures fs.lastClst == ncl && fs.freeClst == CountDown(old(fs.freeClst), fs.layout.nFatent) && fs.fsiDirty
  {
    hide Fat, FatFs.Valid, FatFs.View, FatFs.Shaped, Fits, Layout.Sound;
    SoundFacts(fs.layout);
    EocStored(fs.layout, ncl);
    var ok := PutFat(fs, ncl, 0xFFFF_FFFF);
    if ok && clst != 0 {
      ok := PutFat(fs, clst, ncl);
    }
    SetCounters(fs, ncl);
  }

  method SetCounters(fs: FatFs, ncl: nat)
    requires fs.Valid() && fs.layout.nFatent >= 2 && ncl < U32
    modifies fs`lastClst, fs`freeClst, fs`fsiDirty
    ensures fs.Valid() && fs.View() == old(fs.View())
    ensures fs.lastClst == ncl && fs.freeClst == CountDown(old(fs.freeClst), fs.layout.nFatent) && fs.fsiDirty
  {
    fs.lastClst := ncl;
    if fs.freeClst < fs.layout.nFatent - 2 {
      fs.freeClst := Sub32(fs.freeClst, 1);
    }
    fs.fsiDirty := true;
  }

  lemma EocStored(l: Layout, c: nat)
    requires l.Sound() && c < l.nFatent
    ensures 0xFFFF_FFFF % l.EntryRange() == l.Eoc() && c % l.EntryRange() == c
  {
  }

  /** The search loop of create_chain, from the cluster behind scl around to scl. */
  method FindFree(fs: FatFs, scl: nat) returns (ncl: nat)
    requires fs.Valid() && fs.layout.Sound() && 1 <= scl < fs.layout.nFatent
    modifies fs, fs.win
    ensures fs.Valid() && fs.View() == old(fs.View()) && fs.CountersUnchanged()
    ensures ncl == Search(FatOf(fs), scl, 0)
  {
    hide Fat, FatFs.Valid, FatFs.View, FatFs.Shaped, Fits, Layout.Sound, Search, Kth, Passed;
    AtLeastThree(fs.layout);
    FirstStep(fs.layout.nFatent, scl);
    var n := fs.layout.nFatent;
    ghost var f := FatOf(fs);
    ghost var k := 0;
    ncl := scl;
    while true
      invariant fs.Valid() && fs.View() == old(fs.View()) && fs.CountersUnchanged()
      invariant k <= n - 2 && Search(f, scl, 0) == Search(f, scl, k)
      invariant Passed(n, scl, k, ncl)
      decreases n - k
    {
      SearchStep(f, scl, k, ncl);
      ncl := ncl + 1;
      if ncl >= n {
        ncl := 2;
        if ncl > scl {
          return 0;
        }
      }
      var cs := GetFat(fs, ncl);
      if cs == 0 {
        return;
      }
      if cs == 1 || cs == 0xFFFF_FFFF {
        NoErrorMark(fs.layout, fs.View(), ncl);
        return cs;
      }
      if ncl == scl {
        return 0;
      }
      k := k + 1;
    }
  }

  /** ncl is the cluster looked at last, after k steps of the search. */
  ghost predicate Passed(n: nat, scl: nat, k: nat, ncl: nat)
    requires 1 <= scl < n && k <= n - 2
  {
    if k == 0 then ncl == scl else ncl == Kth(n, scl, k - 1) && ncl != scl
  }

  lemma FirstStep(n: nat, scl: nat)
    requires 1 <= scl < n && n >= 2
    ensures Passed(n, scl, 0, scl)
  {
  }

  lemma AtLeastThree(l: Layout)
    requires l.Sound()
    ensures l.nFatent >= 3
  {
  }

  /** No entry looks like the disk-error mark. */
  lemma NoErrorMark(l: Layout, v: Drive, c: nat)
    requires Fits(l, v) && l.Sound() && c < l.nFatent
    ensures Fat(l, v)[c] != 0xFFFF_FFFF
  {
    EntryWidth(l, v, c);
  }

  /** One step: the next cluster, around the end of the FAT, and what the rest of the search says. */
  lemma SearchStep(f: seq<nat>, scl: nat, k: nat, ncl: nat)
    requires |f| >= 3 && 1 <= scl < |f| && k <= |f| - 2 && Passed(|f|, scl, k, ncl)
    ensures var next := if ncl + 1 >= |f| then 2 else ncl + 1;
            && (ncl + 1 >= |f| && 2 > scl ==> Search(f, scl, k) == 0)
            && (!(ncl + 1 >= |f| && 2 > scl) ==>
                  && k < |f| - 2 && next < |f|
                  && Search(f, scl, k) ==
                       (if f[next] == 0 then next else if f[next] == 1 then 1 else Search(f, scl, k + 1))
                  && (next == scl ==> Search(f, scl, k + 1) == 0)
                  && (next != scl ==> Passed(|f|, scl, k + 1, next)))
  {
  }

  datatype FResult = FrOk | FrIntErr | FrNoFile | FrDenied | FrDiskErr | FrNotEnoughCore

  /** remove_chain; pclst == 0 removes an entire chain. */
  method RemoveChain(fs: FatFs, clst: nat, pclst: nat) returns (res: FResult)
    requires fs.Valid() && fs.layout.Sound()
    modifies fs, fs.win
    ensures fs.Valid() && SameOutsideFat(fs.layout, old(fs.View()), fs.View()) && fs.lastClst == old(fs.lastClst)
    ensures var r := RemoveResult(old(FatOf(fs)), clst, pclst, fs.layout.Eoc());
            && FatOf(fs) == r.fat
            && res == (if r.ok then FrOk else FrIntErr)
            && fs.freeClst == CountUp(old(fs.freeClst), fs.layout.nFatent, r.steps)
            && fs.fsiDirty == (old(fs.fsiDirty) || (r.steps > 0 && old(fs.freeClst) < fs.layout.nFatent - 2))
  {
    hide Fat, FatFs.Valid, FatFs.View, FatFs.Shaped, Fits, Layout.Sound;
    SoundFacts(fs.layout);
    if clst < 2 || clst >= fs.layout.nFatent {
      return FrIntErr;
    }
    if pclst != 0 {
      EocStored(fs.layout, clst);
      var ok := PutFat(fs, pclst, 0xFFFF_FFFF);
      if !ok {
        return FrIntErr;
      }
    }
    res := FreeChain(fs, clst);
  }

  /** The loop of remove_chain. */
  method FreeChain(fs: FatFs, clst: nat) returns (res: FResult)
    requires fs.Valid() && fs.layout.Sound() && 2 <= clst < fs.layout.nFatent
    modifies fs, fs.win
    ensures fs.Valid() && SameOutsideFat(fs.layout, old(fs.View()), fs.View()) && fs.lastClst == old(fs.lastClst)
    ensures var r := FreeWalk(old(FatOf(fs)), clst);
            && FatOf(fs) == r.fat
            && res == (if r.ok then FrOk else FrIntErr)
            && fs.freeClst == CountUp(old(fs.freeClst), fs.layout.nFatent, r.steps)
            && fs.fsiDirty == (old(fs.fsiDirty) || (r.steps > 0 && old(fs.freeClst) < fs.layout.nFatent - 2))
  {
    hide Fat, FatFs.Valid, FatFs.View, FatFs.Shaped, Fits, Layout.Sound, SameOutsideFat;
    SoundFacts(fs.layout);
    ghost var v0 := fs.View();
    ghost var goal := FreeWalk(FatOf(fs), clst);
    ghost var steps := 0;
    var c := clst;
    res := FrOk;
    SameOutsideFatRefl(fs.layout, fs.View());
    while true
      invariant fs.Valid() && SameOutsideFat(fs.layout, v0, fs.View()) && fs.lastClst == old(fs.lastClst)
      invariant 2 <= c < fs.layout.nFatent
      invariant var r := FreeWalk(FatOf(fs), c); goal == Freed(r.fat, steps + r.steps, r.ok)
      invariant fs.freeClst == CountUp(old(fs.freeClst), fs.layout.nFatent, steps)
      invariant fs.fsiDirty == (old(fs.fsiDirty) || (steps > 0 && old(fs.freeClst) < fs.layout.nFatent - 2))
      decreases UsedSet(FatOf(fs))
    {
      var nxt := GetFat(fs, c);
      if nxt == 0 {
        break;
      }
      if nxt == 1 {
        return FrIntErr;
      }
      UsedShrinks(FatOf(fs), c);
      ghost var v := fs.View();
      FreeOne(fs, c);
      SameOutsideFatTrans(fs.layout, v0, v, fs.View());
      steps := steps + 1;
      if nxt >= fs.layout.nFatent {
        break;
      }
      c := nxt;
    }
  }

  /** One step of that loop: mark a cluster free and count it. */
  method FreeOne(fs: FatFs, c: nat)
    requires fs.Valid() && fs.layout.Sound() && 2 <= c < fs.layout.nFatent
    modifies fs, fs.win
    ensures fs.Valid() && fs.lastClst == old(fs.lastClst)
    ensures SameOutsideFat(fs.layout, old(fs.View()), fs.View())
    ensures FatOf(fs) == old(FatOf(fs))[c := 0]
    ensures fs.freeClst == CountUp(old(fs.freeClst), fs.layout.nFatent, 1)
    ensures fs.fsiDirty == (old(fs.fsiDirty) || old(fs.freeClst) < fs.layout.nFatent - 2)
  {
    SoundFacts(fs.layout);
    var ok := PutFat(fs, c, 0);
    if fs.freeClst < fs.layout.nFatent - 2 {
      fs.freeClst := fs.freeClst + 1;
      fs.fsiDirty := true;
    }
  }

  /** An accurate free-cluster count stays accurate through an allocation exactly when
      some cluster was already in use: the test "free_clst < n_fatent - 2" is strict. */
  lemma CountAfterCreate(fat: seq<nat>, clst: nat, last: nat, eoc: nat, free: nat)
    requires 3 <= |fat| < U32 && eoc > 0 && Allocates(fat, clst, last)
    requires free == |FreeSet(fat)|
    ensures CountDown(free, |fat|) == |FreeSet(CreateFat(fat, clst, last, eoc))| <==> UsedSet(fat) != {}
  {
    FreePlusUsed(fat);
    CreateCounts(fat, clst, last, eoc);
    if UsedSet(fat) == {} {
      assert |UsedSet(fat)| == 0;
    } else {
      var c :| c in UsedSet(fat);
      assert |UsedSet(fat)| > 0;
      Sub32Value(free, 1);
    }
  }

  /** The first allocation on an empty volume of two clusters: one is free afterwards, and the count still says two. */
  lemma CountGoesWrong()
    ensures var fat := [0, 0, 0, 0];
            && Allocates(fat, 0, 0) && |FreeSet(fat)| == 2 && UsedSet(fat) == {}
            && CreateFat(fat, 0, 0, 0xFFF) == [0, 0, 0xFFF, 0] && |FreeSet(CreateFat(fat, 0, 0, 0xFFF))| == 1
            && CountDown(2, |fat|) == 2
  {
    var fat := [0, 0, 0, 0];
    assert FreeSet(fat) == {2, 3};
    assert Search(fat, 1, 0) == 2;
    assert FreeSet([0, 0, 0xFFF, 0]) == {3};
  }

  /** remove_chain is told to end the chain at a free cluster: it takes that cluster into use without counting. */
  predicate EndsAtFree(fat: seq<nat>, clst: nat, pclst: nat) {
    2 <= clst < |fat| && 2 <= pclst < |fat| && fat[pclst] == 0
  }

  /** A removal keeps an accurate count accurate, unless it ends the chain at a free cluster and leaves some cluster in
      use. */
  lemma CountAfterRemove(fat: seq<nat>, clst: nat, pclst: nat, eoc: nat, free: nat)
    requires |fat| >= 3 && eoc > 0 && free == |FreeSet(fat)|
    ensures var r := RemoveResult(fat, clst, pclst, eoc);
            CountUp(free, |fat|, r.steps) == |FreeSet(r.fat)| <==>
              !EndsAtFree(fat, clst, pclst) || UsedSet(r.fat) == {}
  {
    var r := RemoveResult(fat, clst, pclst, eoc);
    FreePlusUsed(fat);
    FreePlusUsed(r.fat);
    if 2 <= clst < |fat| && (pclst == 0 || 2 <= pclst < |fat|) {
      var base := if pclst == 0 then fat else fat[pclst := eoc];
      WalkCounts(base, clst);
      if EndsAtFree(fat, clst, pclst) {
        assert FreeSet(base) == FreeSet(fat) - {pclst};
        assert UsedSet(r.fat) == {} <==> |UsedSet(r.fat)| == 0;
      } else {
        assert FreeSet(base) == FreeSet(fat);
      }
    }
  }

  /** A removal of cluster 2 behind the free cluster 3: one cluster is in use before and after; the count says none. */
  lemma RemoveGoesWrong()
    ensures var fat, r := [0, 0, 9, 0], RemoveResult([0, 0, 9, 0], 2, 3, 9);
            && |FreeSet(fat)| == 1 && r.fat == [0, 0, 0, 9] && |FreeSet(r.fat)| == 1
            && CountUp(1, |fat|, r.steps) == 2
  {
    assert FreeSet([0, 0, 9, 0]) == {3} && FreeSet([0, 0, 0, 9]) == {2};
  }
}
