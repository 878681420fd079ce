/** The fast-seek link map (_USE_FASTSEEK): a run-length code of a cluster chain, its construction and its use. */
module LinkMap {
  import opened Words
  import opened Geometry
  import opened Window
  import opened FatEntry
  import opened Chains
  import opened Alloc
  import opened FileData
  import opened Cursor
  import opened File

  /** Length of the longest run of consecutive numbers at the front of ch. */
  function RunLength(ch: seq<nat>): (n: nat)
    requires |ch| > 0
    ensures 1 <= n <= |ch|
  {
    if |ch| > 1 && ch[1] == ch[0] + 1 then RunLength(ch[1..]) + 1 else 1
  }

  lemma {:induction false} RunIsMaximal(ch: seq<nat>)
    requires |ch| > 0
    ensures forall i :: 0 <= i < RunLength(ch) ==> ch[i] == ch[0] + i
    ensures RunLength(ch) < |ch| ==> ch[RunLength(ch)] != ch[0] + RunLength(ch)
  {
    if |ch| > 1 && ch[1] == ch[0] + 1 {
      RunIsMaximal(ch[1..]);
      assert forall i :: 1 <= i < |ch| ==> ch[i] == ch[1..][i - 1];
    }
  }

  /** The chain as (length, first cluster) pairs, one for each fragment. */
  function Fragments(ch: seq<nat>): (m: seq<nat>)
    ensures |m| % 2 == 0
  {
    if ch == [] then [] else [RunLength(ch), ch[0]] + Fragments(ch[RunLength(ch)..])
  }

  /** The first pair is the length of a run and the cluster it begins with; the run is as long as can be, and the rest
      of the map is that of the rest of the chain. */
  lemma FirstFragment(ch: seq<nat>)
    requires ch != []
    ensures var m := Fragments(ch);
            && |m| >= 2 && 1 <= m[0] <= |ch| && m[1] == ch[0] && m[2..] == Fragments(ch[m[0]..])
            && (forall i :: 0 <= i < m[0] ==> ch[i] == m[1] + i)
            && (m[0] < |ch| ==> ch[m[0]] != m[1] + m[0])
  {
    RunIsMaximal(ch);
  }

  /** Number of places where the chain does not go on with the next cluster on the disk. */
  function Breaks(ch: seq<nat>): nat {
    if |ch| <= 1 then 0 else Breaks(ch[1..]) + if ch[1] == ch[0] + 1 then 0 else 1
  }

  /** The map has one pair per fragment: its size is what the chain needs, and no more. */
  lemma {:induction false} FragmentCount(ch: seq<nat>)
    ensures |Fragments(ch)| == if ch == [] then 0 else 2 * Breaks(ch) + 2
  {
    if ch != [] {
      RunIsMaximal(ch);
      BreaksOfRun(ch, RunLength(ch));
      FragmentCount(ch[RunLength(ch)..]);
    }
  }

  lemma {:induction false} BreaksOfRun(ch: seq<nat>, n: nat)
    requires 1 <= n <= |ch| && forall i :: 0 <= i < n ==> ch[i] == ch[0] + i
    requires n < |ch| ==> ch[n] != ch[0] + n
    ensures Breaks(ch) == if n == |ch| then 0 else Breaks(ch[n..]) + 1
  {
    if n > 1 {
      BreaksOfRun(ch[1..], n - 1);
      assert ch[1..][n - 1..] == ch[n..];
    }
  }

  /** What the pairs of m say about cluster number k: 0 past the end. */
  function Decoded(m: seq<nat>, k: nat): nat
    requires |m| % 2 == 0
  {
    if m == [] then 0 else if k < m[0] then m[1] + k else Decoded(m[2..], k - m[0])
  }

  /** The map is a faithful code of the chain. */
  lemma {:induction false} DecodesChain(ch: seq<nat>, k: nat)
    ensures Decoded(Fragments(ch), k) == if k < |ch| then ch[k] else 0
  {
    if ch != [] {
      var n := RunLength(ch);
      RunIsMaximal(ch);
      assert Fragments(ch)[2..] == Fragments(ch[n..]);
      if k >= n {
        DecodesChain(ch[n..], k - n);
      }
    }
  }

  /** No fragment is empty, so no pair looks like the end of the table. */
  lemma {:induction false} FragmentsNotEmpty(ch: seq<nat>, i: nat)
    requires 2 * i < |Fragments(ch)|
    ensures Fragments(ch)[2 * i] > 0
  {
    if i > 0 {
      FragmentsNotEmpty(ch[RunLength(ch)..], i - 1);
    }
  }

  /** The table holds its own size, the pairs of m, and a zero. */
  ghost predicate Coded(tbl: array<nat>, m: seq<nat>)
    reads tbl
  {
    2 + |m| <= tbl.Length && tbl[1..1 + |m|] == m && tbl[1 + |m|] == 0
  }

  /** The pair at the front of the map of a suffix. */
  lemma FrontPair(ch: seq<nat>, g: nat)
    requires g < |ch|
    ensures var n := RunLength(ch[g..]);
            g + n <= |ch| && Fragments(ch[g..]) == [n, ch[g]] + Fragments(ch[g + n..])
  {
    assert ch[g..][RunLength(ch[g..])..] == ch[g + RunLength(ch[g..])..];
  }

  /** clmt_clust */
  method ClmtClust(l: Layout, tbl: array<nat>, ofs: nat, ghost ch: seq<nat>) returns (c: nat)
    requires l.csize > 0 && Coded(tbl, Fragments(ch))
    ensures c == if ClusterIx(l, ofs) < |ch| then ch[ClusterIx(l, ofs)] else 0
  {
    hide RunLength, Fragments;
    ghost var m := Fragments(ch);
    var cl: nat := ofs / SS / l.csize;
    assert cl == ClusterIx(l, ofs);
    var p := 1;
    ghost var g := 0;
    assert ch[0..] == ch;
    while true
      invariant p <= 1 + |m| && g <= |ch| && m[p - 1..] == Fragments(ch[g..])
      invariant g + cl == ClusterIx(l, ofs)
      decreases |ch| - g
    {
      assert p <= |m| ==> tbl[p] == m[p - 1];
      var ncl := tbl[p];
      if g < |ch| {
        FrontPair(ch, g);
        assert m[p - 1] == m[p - 1..][0] && m[p] == m[p - 1..][1] && tbl[p + 1] == m[p];
        assert m[p + 1..] == m[p - 1..][2..];
      } else {
        NoFragments(ch[g..]);
      }
      if ncl == 0 {
        return 0;
      }
      if cl < ncl {
        RunGoesOn(ch, g, cl);
        return cl + tbl[p + 1];
      }
      cl := cl - ncl;
      p := p + 2;
      g := g + ncl;
    }
  }

  lemma NoFragments(ch: seq<nat>)
    requires ch == []
    ensures Fragments(ch) == []
  {
  }

  lemma RunGoesOn(ch: seq<nat>, g: nat, i: nat)
    requires g < |ch| && i < RunLength(ch[g..])
    ensures g + i < |ch| && ch[g + i] == ch[g] + i
  {
    RunIsMaximal(ch[g..]);
    assert ch[g..][i] == ch[g + i];
  }

  /** To the fragment loop the chain seems to go on behind its end: the end mark is one more than the last cluster. */
  predicate LooksUnended(fat: seq<nat>, ch: seq<nat>) {
    ch != [] && ch[|ch| - 1] < |fat| && fat[ch[|ch| - 1]] == ch[|ch| - 1] + 1
  }

  /** That takes the last cluster of the volume, and the smallest of all end marks. */
  lemma UnendedOnlyAtTheEnd(fat: seq<nat>, ch: seq<nat>)
    requires IsChain(fat, ch)
    ensures LooksUnended(fat, ch) <==> ch[|ch| - 1] == |fat| - 1 && fat[|fat| - 1] == |fat|
  {
  }

  /** A chain on which the fragment loop goes astray: two clusters, the last of the volume among them. */
  lemma AnUnendedChain()
    ensures IsChain([0, 0, 3, 4], [2, 3]) && LooksUnended([0, 0, 3, 4], [2, 3])
  {
  }

  /** It takes a volume with more clusters than its sub-type allows, or an end mark that the FAT specification does
      not: with up to MAX_FAT12, MAX_FAT16 or MAX_FAT32 clusters every end mark lies above the bad mark, and no chain
      that ends in one looks unended. */
  lemma ConformingIsEnded(l: Layout, nclst: nat, fat: seq<nat>, ch: seq<nat>)
    requires l.fsType == SubType(nclst) && l.nFatent == nclst + 2 == |fat| && nclst <= MAX_FAT32
    requires IsChain(fat, ch) && fat[ch[|ch| - 1]] > l.BadMark()
    ensures !LooksUnended(fat, ch)
  {
    EocAboveClusters(l, nclst);
  }

  /** n clusters of the chain from number g on follow each other on the disk. */
  ghost predicate Run(ch: seq<nat>, g: nat, n: nat) {
    g + n <= |ch| && forall i :: g <= i < g + n ==> ch[i] == ch[g] + (i - g)
  }

  /** One step of the fragment loop on a chain. */
  lemma RunStep(fat: seq<nat>, ch: seq<nat>, g: nat, n: nat, pcl: nat, cl: nat)
    requires IsChain(fat, ch) && Run(ch, g, n) && g + n < |ch| && pcl == ch[g + n] == ch[g] + n
    requires pcl < |fat| && cl == fat[pcl]
    ensures cl >= 2 && Run(ch, g, n + 1)
    ensures cl != pcl + 1 ==>
              RunLength(ch[g..]) == n + 1 && cl == if g + n + 1 < |ch| then ch[g + n + 1] else fat[ch[|ch| - 1]]
    ensures cl != pcl + 1 && g + n + 1 == |ch| ==> !LooksUnended(fat, ch)
    ensures cl == pcl + 1 ==>
              if g + n + 1 < |ch| then cl == ch[g + n + 1] == ch[g] + (n + 1)
              else LooksUnended(fat, ch) && cl >= |fat|
  {
    if cl != pcl + 1 {
      SameRun(ch, g, n + 1);
    }
  }

  lemma SameRun(ch: seq<nat>, g: nat, n: nat)
    requires 1 <= n && Run(ch, g, n) && (g + n < |ch| ==> ch[g + n] != ch[g] + n)
    ensures RunLength(ch[g..]) == n
  {
    RunIsMaximal(ch[g..]);
    assert forall i :: 0 <= i < |ch| - g ==> ch[g..][i] == ch[g + i];
  }

  /** The inner loop of CREATE_LINKMAP: the fragment that starts at number g of the chain. */
  method GetFragment(fs: FatFs, start: nat, ghost ch: seq<nat>, ghost g: nat) returns (ok: bool, ncl: nat, cl: nat)
    requires fs.Valid() && fs.layout.Sound() && IsChain(FatOf(fs), ch) && g < |ch| && start == ch[g]
    modifies fs, fs.win
    ensures fs.Valid() && fs.View() == old(fs.View()) && fs.CountersUnchanged()
    ensures ok ==> ncl == RunLength(ch[g..]) && g + ncl <= |ch| && cl == NextOf(FatOf(fs), ch, g + ncl)
    ensures ok && g + ncl == |ch| ==> !LooksUnended(FatOf(fs), ch)
    ensures !ok ==> LooksUnended(FatOf(fs), ch)
  {
    hide FatFs.Valid, FatFs.View, FatFs.Shaped, Mirrored, Fits, Layout.Sound, Fat, IsChain, RunLength, LooksUnended,
         Run;
    ghost var f := FatOf(fs);
    cl, ncl := start, 0;
    FirstRun(ch, g);
    while true
      invariant fs.Valid() && fs.View() == old(fs.View()) && fs.CountersUnchanged()
      invariant g + ncl <= |ch| && Run(ch, g, ncl)
      invariant if g + ncl < |ch| then cl == ch[g + ncl] == ch[g] + ncl else LooksUnended(f, ch) && cl >= |f|
      decreases |ch| - g - ncl
    {
      var pcl := cl;
      if g + ncl < |ch| {
        ChainStep(f, ch, g + ncl);
        RunStep(f, ch, g, ncl, pcl, f[pcl]);
      }
      ncl := ncl + 1;
      cl := GetFat(fs, cl);
      if cl <= 1 {
        return false, ncl, cl;
      }
      if cl != pcl + 1 {
        break;
      }
    }
    ok := true;
  }

  /** What the FAT holds for the cluster before number i of the chain. */
  ghost function NextOf(fat: seq<nat>, ch: seq<nat>, i: nat): nat {
    if i < |ch| then ch[i] else if ch != [] && ch[|ch| - 1] < |fat| then fat[ch[|ch| - 1]] else 0
  }

  lemma FirstRun(ch: seq<nat>, g: nat)
    requires g < |ch|
    ensures Run(ch, g, 0)
  {
  }

  /** The table after the items of m have been stored, as far as they fit into its size. */
  ghost predicate Filled(tbl: array<nat>, before: seq<nat>, m: seq<nat>)
    requires |before| > 0
    reads tbl
  {
    && |before| == tbl.Length && before[0] <= |before| && tbl[0] == before[0]
    && (forall i {:trigger tbl[i]} :: Max(1, before[0]) <= i < tbl.Length ==> tbl[i] == before[i])
    && (2 + |m| <= before[0] ==> tbl[1..1 + |m|] == m)
  }

  lemma FilledOnlyInside(tbl: array<nat>, before: seq<nat>, m: seq<nat>)
    requires |before| > 0 && Filled(tbl, before, m)
    ensures |before| == tbl.Length &&
            forall i {:trigger tbl[i]} :: Max(1, before[0]) <= i < tbl.Length ==> tbl[i] == before[i]
  {
  }

  /** One more fragment moves from what is left to what is done. */
  lemma DoneSoFar(ch: seq<nat>, g: nat, n: nat, m: seq<nat>, done: seq<nat>, rest: seq<nat>)
    requires g < |ch| && n == RunLength(ch[g..]) && m == done + rest && rest == Fragments(ch[g..])
    ensures g + n <= |ch| && m == (done + [n, ch[g]]) + Fragments(ch[g + n..])
    ensures g + n == |ch| ==> m == done + [n, ch[g]]
  {
    hide Fragments, RunLength;
    FrontPair(ch, g);
    if g + n == |ch| {
      NoFragments(ch[g + n..]);
    }
    Regroup(m, done, rest, [n, ch[g]], Fragments(ch[g + n..]));
  }

  lemma Regroup(x: seq<nat>, a: seq<nat>, y: seq<nat>, b: seq<nat>, c: seq<nat>)
    requires x == a + y && y == b + c
    ensures x == (a + b) + c && (c == [] ==> x == a + b)
  {
  }

  lemma NothingFilled(tbl: array<nat>)
    requires tbl.Length >= 1 && tbl[0] <= tbl.Length
    ensures Filled(tbl, tbl[..], [])
  {
  }

  /** Store a pair if the table has room for it; ulen already counts it. */
  method StorePair(tbl: array<nat>, p: nat, ncl: nat, tcl: nat, ulen: nat, tlen: nat, ghost before: seq<nat>,
                   ghost m: seq<nat>)
    returns (q: nat)
    requires |before| > 0 && Filled(tbl, before, m) && tlen == before[0] && ulen == 4 + |m|
    requires 2 + |m| <= tlen ==> p == 1 + |m|
    modifies tbl
    ensures Filled(tbl, before, m + [ncl, tcl])
    ensures ulen <= tlen ==> q == 3 + |m|
  {
    q := p;
    if ulen <= tlen {
      tbl[q], tbl[q + 1] := ncl, tcl;
      q := q + 2;
      assert tbl[1..1 + |m|] == m;
    }
  }

  /** The end of CREATE_LINKMAP: report the size needed, and terminate the table if it fits. */
  method Terminate(tbl: array<nat>, p: nat, ulen: nat, tlen: nat, ghost before: seq<nat>,
                   ghost m: seq<nat>)
    returns (res: FResult)
    requires |before| > 0 && Filled(tbl, before, m) && tlen == before[0] && ulen == 2 + |m|
    requires ulen <= tlen ==> p == 1 + |m|
    modifies tbl
    ensures tbl[0] == ulen && |before| == tbl.Length &&
            forall i {:trigger tbl[i]} :: Max(1, tlen) <= i < tbl.Length ==> tbl[i] == before[i]
    ensures res == if ulen <= tlen then FrOk else FrNotEnoughCore
    ensures res == FrOk ==> Coded(tbl, m)
  {
    tbl[0] := ulen;
    if ulen <= tlen {
      assert tbl[1..1 + |m|] == m;
      tbl[p] := 0;
      assert tbl[1..1 + |m|] == m;
      res := FrOk;
    } else {
      res := FrNotEnoughCore;
    }
  }

  /** The outer loop of CREATE_LINKMAP on a file that has clusters. */
  method MapChain(fs: FatFs, start: nat, tbl: array<nat>, tlen: nat, ghost ch: seq<nat>, ghost before: seq<nat>)
    returns (ok: bool, p: nat, ulen: nat)
    requires fs.Valid() && fs.layout.Sound() && tbl as object != fs.win as object
    requires IsChain(FatOf(fs), ch) && ch != [] && start == ch[0]
    requires |before| > 0 && Filled(tbl, before, []) && tlen == before[0]
    modifies fs, fs.win, tbl
    ensures fs.Valid() && fs.View() == old(fs.View()) && fs.CountersUnchanged()
    ensures ok <==> !LooksUnended(FatOf(fs), ch)
    ensures !ok ==>
              |before| == tbl.Length &&
              forall i {:trigger tbl[i]} :: Max(1, before[0]) <= i < tbl.Length ==> tbl[i] == before[i]
    ensures ok ==>
              ulen == 2 + |Fragments(ch)| && Filled(tbl, before, Fragments(ch)) &&
              (ulen <= tlen ==> p == 1 + |Fragments(ch)|)
  {
    hide FatFs.Valid, FatFs.View, FatFs.Shaped, Mirrored, Fits, Layout.Sound, Fat, IsChain, RunLength, Fragments,
         Filled, LooksUnended;
    ghost var f := FatOf(fs);
    var cl := start;
    ok, p, ulen := true, 1, 2;
    ghost var g, done: seq<nat> := 0, [];
    WholeChain(ch);
    while true
      invariant fs.Valid() && fs.View() == old(fs.View()) && fs.CountersUnchanged()
      invariant g < |ch| && cl == ch[g] && Fragments(ch) == done + Fragments(ch[g..])
      invariant ulen == 2 + |done| && Filled(tbl, before, done)
      invariant ulen <= tlen ==> p == 1 + |done|
      decreases |ch| - g
    {
      var tcl, ncl := cl, 0;
      ulen := ulen + 2;
      ok, ncl, cl := GetFragment(fs, cl, ch, g);
      if !ok {
        FilledOnlyInside(tbl, before, done);
        return;
      }
      DoneSoFar(ch, g, ncl, Fragments(ch), done, Fragments(ch[g..]));
      p := StorePair(tbl, p, ncl, tcl, ulen, tlen, before, done);
      done := done + [ncl, tcl];
      g := g + ncl;
      ChainStep(f, ch, g - 1);
      if cl >= fs.layout.nFatent {
        return;
      }
    }
  }

  lemma WholeChain(ch: seq<nat>)
    ensures ch[0..] == ch && Fragments(ch) == [] + Fragments(ch[0..])
  {
    assert ch[0..] == ch;
  }

  /** f_lseek with CREATE_LINKMAP. tbl[0] is the size of the table on entry, and the size needed on return. */
  method CreateLinkMap(fp: Fil, tbl: array<nat>) returns (res: FResult)
    requires fp.Valid() && tbl.Length >= 1 && tbl[0] <= tbl.Length && tbl as object != fp.fs.win as object
    modifies fp`err, fp.fs, fp.fs.win, tbl
    ensures fp.Valid() && fp.fs.View() == old(fp.fs.View()) && fp.fs.CountersUnchanged()
    ensures old(fp.err) != FrOk ==> res == old(fp.err) == fp.err && tbl[..] == old(tbl[..])
    ensures forall i {:trigger tbl[i]} :: Max(1, old(tbl[0])) <= i < tbl.Length ==> tbl[i] == old(tbl[i])
    ensures old(fp.err) == FrOk && LooksUnended(FatOf(fp.fs), fp.chain) ==> res == fp.err == FrIntErr
    ensures old(fp.err) == FrOk && !LooksUnended(FatOf(fp.fs), fp.chain) ==>
              && tbl[0] == 2 + |Fragments(fp.chain)| && fp.err == FrOk
              && res == if tbl[0] <= old(tbl[0]) then FrOk else FrNotEnoughCore
    ensures res == FrOk ==> Coded(tbl, Fragments(fp.chain))
  {
    hide FatFs.Valid, FatFs.View, FatFs.Shaped, Mirrored, Fits, Layout.Sound, Fat, IsChain, RunLength, Fragments, Coded;
    hide Filled, At, Holds, Volume;
    if fp.err != FrOk {
      return fp.err;
    }
    ghost var ch := fp.chain;
    if ch != [] {
      ChainStep(FatOf(fp.fs), ch, 0);
    }
    res := WriteMap(fp.fs, fp.sclust, tbl, ch);
    if res == FrIntErr {
      fp.err := FrIntErr;
    }
  }

  /** The table of a chain: the fragment loops, and the end of the table. */
  method WriteMap(fs: FatFs, sclust: nat, tbl: array<nat>, ghost ch: seq<nat>) returns (res: FResult)
    requires fs.Valid() && Volume(fs.layout, fs.View()) && (if ch == [] then sclust == 0 else IsChain(FatOf(fs), ch))
    requires ch != [] ==> sclust == ch[0] && sclust != 0
    requires tbl.Length >= 1 && tbl[0] <= tbl.Length && tbl as object != fs.win as object
    modifies fs, fs.win, tbl
    ensures fs.Valid() && fs.View() == old(fs.View()) && fs.CountersUnchanged()
    ensures forall i {:trigger tbl[i]} :: Max(1, old(tbl[0])) <= i < tbl.Length ==> tbl[i] == old(tbl[i])
    ensures if LooksUnended(FatOf(fs), ch) then res == FrIntErr
            else tbl[0] == 2 + |Fragments(ch)| && res == if tbl[0] <= old(tbl[0]) then FrOk else FrNotEnoughCore
    ensures res == FrOk ==> Coded(tbl, Fragments(ch))
  {
    hide FatFs.Valid, FatFs.View, FatFs.Shaped, Mirrored, Fits, Layout.Sound, Fat, IsChain, RunLength, Fragments, Coded;
    hide Filled, Volume;
    ghost var before := tbl[..];
    var tlen := tbl[0];
    var p, ulen := 1, 2;
    NothingFilled(tbl);
    if sclust != 0 {
      var ok;
      ok, p, ulen := MapChain(fs, sclust, tbl, tlen, ch, before);
      if !ok {
        return FrIntErr;
      }
    } else {
      NoFragments(ch);
    }
    res := Terminate(tbl, p, ulen, tlen, before, Fragments(ch));
  }

  /** f_lseek with a link map: the cursor lands where walking the FAT would put it, without reading the FAT. */
  method FastSeek(fp: Fil, tbl: array<nat>, ofs: nat) returns (res: FResult)
    requires fp.Valid() && Coded(tbl, Fragments(fp.chain))
    modifies fp`fptr, fp`clust, fp`sect
    ensures fp.Valid() && res == fp.err
    ensures fp.fptr == if res == FrOk then Min(ofs, fp.objsize) else old(fp.fptr)
  {
    hide FatFs.Valid, FatFs.View, FatFs.Shaped, Mirrored, Fits, Layout.Sound, Volume, Fat, Holds, At, OnSector,
         OnCluster, Allocated, IsChain, BitAnd, Coded, Fragments, ClusterIx, Clust2Sect;
    if fp.err != FrOk {
      return fp.err;
    }
    var target := Min(ofs, fp.objsize);
    fp.fptr := target;
    if target != 0 {
      HoldsByteAt(fp.fs.layout, fp.chain, fp.objsize, target - 1);
      fp.clust := ClmtClust(fp.fs.layout, tbl, target - 1, fp.chain);
      var dsc := Clust2Sect(fp.fs.layout, fp.clust);
      ValidCluster(fp.fs.layout, fp.clust);
      assert dsc != 0;  // the error exit of the source is not taken
      SectorOffset(fp.fs.layout, target - 1);
      dsc := dsc + BitAnd((target - 1) / SS, fp.fs.layout.csize - 1);
      SectorHere(fp.fs.layout, fp.chain, target - 1, fp.clust);
      SameSectorAfter(fp.fs.layout, fp.chain, target, dsc);
      if fp.fptr % SS != 0 && dsc != fp.sect {
        fp.sect := dsc;
      }
      ArrivedAt(fp.fs.layout, fp.chain, target, fp.clust, dsc, fp.sect);
    } else {
      AtStart(fp.fs.layout, fp.chain, fp.clust, fp.sect);
    }
    res := FrOk;
  }

  lemma ArrivedAt(l: Layout, ch: seq<nat>, p: nat, clust: nat, dsc: nat, sect: nat)
    requires l.csize > 0 && l.nFatent >= 2 && p > 0 && OnCluster(l, ch, p - 1, clust)
    requires p % SS != 0 ==> OnSector(l, ch, p, dsc) && sect == dsc
    ensures At(l, ch, p, clust, sect)
  {
  }

  lemma AtStart(l: Layout, ch: seq<nat>, clust: nat, sect: nat)
    requires l.csize > 0 && l.nFatent >= 2
    ensures At(l, ch, 0, clust, sect)
  {
  }

  lemma HoldsByteAt(l: Layout, ch: seq<nat>, size: nat, p: nat)
    requires l.Sound() && Holds(l, ch, size) && p < size && AllClustersValid(l, ch)
    ensures ClusterIx(l, p) < |ch| && OnCluster(l, ch, p, ch[ClusterIx(l, p)]) && 2 <= ch[ClusterIx(l, p)] < l.nFatent
    ensures PowerOfTwo(l.csize)
  {
    HoldsByte(l, ch, size, p);
  }

  lemma ValidCluster(l: Layout, c: nat)
    requires l.Sound() && 2 <= c < l.nFatent
    ensures Clust2Sect(l, c) > 0
  {
    ClusterInside(l, c, 0);
  }

  lemma SameSectorAfter(l: Layout, ch: seq<nat>, p: nat, s: nat)
    requires l.csize > 0 && l.nFatent >= 2 && p > 0 && OnSector(l, ch, p - 1, s)
    ensures p % SS != 0 ==> OnSector(l, ch, p, s)
  {
    assert p % SS != 0 ==> (p - 1) / SS == p / SS;
  }
}
