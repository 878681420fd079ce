/** Directory objects: dir_sdi, dir_next, dir_alloc, dir_find, dir_register and dir_remove on the volume. */
module Dir {
  import opened Words
  import opened Geometry
  import opened Window
  import opened FatEntry
  import opened Chains
  import opened Alloc
  import opened FileData
  import opened Cursor
  import opened DirTable

  const MAX_DIR := 0x20_0000
  const MAX_ENTRIES := 0x1_0000

  /** The table is the static root of FAT12/16 (no chain), or the clusters of ch. Sector j of it exists. */
  predicate HasTab(l: Layout, ch: seq<nat>, j: nat)
    requires l.csize > 0
  {
    if ch == [] then j < l.nRootdir / DIRENTS_PER_SECTOR else HasSector(l, ch, j)
  }

  function TabSect(l: Layout, ch: seq<nat>, j: nat): nat
    requires l.csize > 0 && l.nFatent >= 2 && HasTab(l, ch, j)
  {
    if ch == [] then l.dirbase + j else FileSect(l, ch, j)
  }

  /** sect is sector j of the table, and clust its cluster (0 for the static root). */
  ghost predicate OnTab(l: Layout, ch: seq<nat>, j: nat, sect: nat, clust: nat)
    requires l.csize > 0 && l.nFatent >= 2
  {
    HasTab(l, ch, j) && sect == TabSect(l, ch, j) && clust == if ch == [] then 0 else ch[j / l.csize]
  }

  /** Entry k exists: its sector does, and directories have at most MAX_ENTRIES entries. */
  predicate HasEntry(l: Layout, ch: seq<nat>, k: nat)
    requires l.csize > 0
  {
    k < MAX_ENTRIES && HasTab(l, ch, k / DIRENTS_PER_SECTOR)
  }

  function Count(l: Layout, ch: seq<nat>): nat
    requires l.csize > 0
  {
    Min(if ch == [] then l.nRootdir / DIRENTS_PER_SECTOR * DIRENTS_PER_SECTOR else |ch| * l.csize * DIRENTS_PER_SECTOR,
        MAX_ENTRIES)
  }

  lemma CountIsHas(l: Layout, ch: seq<nat>, k: nat)
    requires l.csize > 0
    ensures k < Count(l, ch) <==> HasEntry(l, ch, k)
  {
    if ch != [] {
      var j := k / DIRENTS_PER_SECTOR;
      var c := |ch| * l.csize;
      assert k < c * DIRENTS_PER_SECTOR <==> j < c;
      assert l.csize * |ch| == c;
      if j < c {
        if j / l.csize >= |ch| {
          MulMonotone(l.csize, |ch|, j / l.csize);
        }
      } else {
        DivMonotone(c, j, l.csize);
        DivModUnique(c, l.csize, |ch|, 0);
      }
    }
  }

  lemma TabSectInside(l: Layout, v: Drive, ch: seq<nat>, j: nat)
    requires Volume(l, v) && AllClustersValid(l, ch) && HasTab(l, ch, j) && (ch == [] ==> l.fsType != Fat32)
    ensures TabSect(l, ch, j) < |v| && !l.IsFatSector(TabSect(l, ch, j)) && !l.IsMirrorSector(TabSect(l, ch, j))
    ensures TabSect(l, ch, j) > 0
  {
    if ch != [] {
      hide Layout.Sound, Volume;
      SoundFacts(l);
      FileSectInside(l, v, ch, j);
    }
  }

  function EntryAt(l: Layout, v: Drive, ch: seq<nat>, k: nat): Dirent
    requires Volume(l, v) && AllClustersValid(l, ch) && HasEntry(l, ch, k) && (ch == [] ==> l.fsType != Fat32)
  {
    TabSectInside(l, v, ch, k / DIRENTS_PER_SECTOR);
    var o := k % DIRENTS_PER_SECTOR * SZDIRE;
    v[TabSect(l, ch, k / DIRENTS_PER_SECTOR)][o..o + SZDIRE]
  }

  /** The directory as a sequence of entries. */
  function Table(l: Layout, v: Drive, ch: seq<nat>): (t: seq<Dirent>)
    requires Volume(l, v) && AllClustersValid(l, ch) && (ch == [] ==> l.fsType != Fat32)
    ensures |t| == Count(l, ch)
  {
    assert forall k: nat | k < Count(l, ch) :: HasEntry(l, ch, k) by {
      forall k: nat | k < Count(l, ch)
        ensures HasEntry(l, ch, k)
      {
        CountIsHas(l, ch, k);
      }
    }
    seq(Count(l, ch), k requires 0 <= k < Count(l, ch) => EntryAt(l, v, ch, k))
  }

  lemma TableAt(l: Layout, v: Drive, ch: seq<nat>, k: nat)
    requires Volume(l, v) && AllClustersValid(l, ch) && (ch == [] ==> l.fsType != Fat32) && k < Count(l, ch)
    ensures HasEntry(l, ch, k) && Table(l, v, ch)[k] == EntryAt(l, v, ch, k)
  {
    CountIsHas(l, ch, k);
  }

  /** A table has the entries its sectors hold, 16 in each, but 65536 at most. */
  lemma EntriesThere(l: Layout, v: Drive, ch: seq<nat>)
    requires Volume(l, v) && AllClustersValid(l, ch) && (ch == [] ==> l.fsType != Fat32)
    ensures |Table(l, v, ch)| == Min(if ch == [] then l.nRootdir else 16 * l.csize * |ch|, 65536)
  {
    RootEntriesFillSectors(l);
    assert |ch| * l.csize * 16 == 16 * l.csize * |ch|;
  }

  /** Where entry k is: 32 bytes of a sector that holds 16 of them. The sectors of the static root follow each other
      from dirbase on; those of a chained table are sector q of cluster number c of the chain. */
  lemma EntryOnDisk(l: Layout, v: Drive, ch: seq<nat>, k: nat, c: nat, q: nat) returns (s: nat)
    requires Volume(l, v) && AllClustersValid(l, ch) && (ch == [] ==> l.fsType != Fat32) && k < |Table(l, v, ch)|
    requires k / 16 == c * l.csize + q && q < l.csize
    ensures ch != [] ==> c < |ch|
    ensures s == if ch == [] then l.dirbase + k / 16 else l.database + (ch[c] - 2) * l.csize + q
    ensures s < |v| && Table(l, v, ch)[k] == v[s][k % 16 * 32..k % 16 * 32 + 32]
  {
    hide Volume, Layout.Sound, Table;
    TableAt(l, v, ch, k);
    TabSectInside(l, v, ch, k / DIRENTS_PER_SECTOR);
    assert c * l.csize == l.csize * c;
    DivModUnique(k / 16, l.csize, c, q);
    s := TabSect(l, ch, k / DIRENTS_PER_SECTOR);
    if ch != [] {
      ClusterStart(l, ch[c]);
      hide Clust2Sect;
    }
  }

  /** clst is the cluster of byte ofs of the table, and rest the offset inside it. */
  ghost predicate Followed(l: Layout, ch: seq<nat>, ofs: nat, clst: nat, rest: nat)
    requires l.csize > 0
  {
    OnCluster(l, ch, ofs, clst) && rest % SS == ofs % SS && rest / SS == ofs / SS % l.csize
  }

  /** Sector boundaries: the entries of a sector, and of a cluster. */
  lemma EntrySteps(l: Layout, k: nat)
    requires l.csize > 0
    ensures (k + 1) * SZDIRE % SS == 0 <==> k % DIRENTS_PER_SECTOR == 15
    ensures k % DIRENTS_PER_SECTOR == 15 ==> (k + 1) / DIRENTS_PER_SECTOR == k / DIRENTS_PER_SECTOR + 1
    ensures k % DIRENTS_PER_SECTOR != 15 ==> (k + 1) / DIRENTS_PER_SECTOR == k / DIRENTS_PER_SECTOR
    ensures (k + 1) * SZDIRE / SS == (k + 1) / DIRENTS_PER_SECTOR
    ensures (k + 1) * SZDIRE % SS == (k + 1) % DIRENTS_PER_SECTOR * SZDIRE
  {
  }

  class Directory {
    const fs: FatFs
    const sclust: nat
    var dptr: nat
    var clust: nat
    var sect: nat
    var off: nat
    var attr: nat
    ghost var chain: seq<nat>

    constructor (fs: FatFs, start: nat, ghost ch: seq<nat>)
      requires fs.Valid() && Volume(fs.layout, fs.View())
      requires if ch == [] then start == 0 && fs.layout.fsType != Fat32
               else IsChain(FatOf(fs), ch) &&
                    ch[0] == if start == 0 && fs.layout.fsType == Fat32 then fs.layout.dirbase else start
      ensures Valid() && this.fs == fs && chain == ch
    {
      this.fs, sclust, chain := fs, start, ch;
      dptr, clust, sect, off, attr := 0, 0, 0, 0, 0;
    }

    /** The object refers to a table: the static root when there is no chain. */
    ghost predicate Valid()
      reads this, fs, fs.win
      ensures Valid() ==> fs.Valid() && Volume(fs.layout, fs.View()) && AllClustersValid(fs.layout, chain)
      ensures Valid() ==> (chain == [] ==> fs.layout.fsType != Fat32)
    {
      && fs.Valid() && Volume(fs.layout, fs.View())
      && if chain == [] then sclust == 0 && fs.layout.fsType != Fat32
         else IsChain(FatOf(fs), chain) &&
              chain[0] == if sclust == 0 && fs.layout.fsType == Fat32 then fs.layout.dirbase else sclust
    }

    ghost function Entries(): (t: seq<Dirent>)
      requires Valid()
      reads this, fs, fs.win
      ensures |t| == Count(fs.layout, chain)
    {
      Table(fs.layout, fs.View(), chain)
    }

    /** The object stands at entry k. */
    ghost predicate On(k: nat)
      requires fs.layout.csize > 0 && fs.layout.nFatent >= 2
      reads this
    {
      && k < MAX_ENTRIES && OnTab(fs.layout, chain, k / DIRENTS_PER_SECTOR, sect, clust)
      && dptr == k * SZDIRE && off == k % DIRENTS_PER_SECTOR * SZDIRE
    }

    /** dir_sdi: stand at byte offset ofs of the table. */
    method Sdi(ofs: nat) returns (res: FResult)
      requires Valid()
      modifies this`dptr, this`clust, this`sect, this`off, fs, fs.win
      ensures Valid() && fs.View() == old(fs.View()) && fs.CountersUnchanged() && Entries() == old(Entries())
      ensures res == if ofs % SZDIRE == 0 && ofs / SZDIRE < |Entries()| then FrOk else FrIntErr
      ensures res == FrOk ==> On(ofs / SZDIRE)
    {
      hide FatFs.Valid, FatFs.View, FatFs.Shaped, Mirrored, Fits, Layout.Sound, Volume, Fat, Untouched, SameBut,
           SameSectors, IsChain, BitAnd, ClusterIx, Table, Count, HasTab, TabSect, On;
      CountIsHas(fs.layout, chain, ofs / SZDIRE);
      if ofs >= MAX_DIR || ofs % SZDIRE != 0 {
        return FrIntErr;
      }
      dptr := ofs;
      var clst := sclust;
      if clst == 0 && fs.layout.fsType == Fat32 {
        clst := fs.layout.dirbase;
      }
      if clst == 0 {
        StaticTable(ofs);
        if ofs / SZDIRE >= fs.layout.nRootdir {
          return FrIntErr;
        }
        sect := fs.layout.dirbase + ofs / SS;
        clust := clst;
      } else {
        var rest;
        DynamicTable();
        res, clst, rest := FollowTable(clst, ofs);
        if res != FrOk {
          return;
        }
        sect := Clust2Sect(fs.layout, clst) + rest / SS;
        clust := clst;
        OnFollowed(ofs, rest);
      }
      off := ofs % SS;
      SdiArrives(ofs);
      res := FrOk;
    }

    lemma StaticTable(ofs: nat)
      requires Valid() && sclust == 0 && (fs.layout.fsType != Fat32 || fs.layout.dirbase == 0)
      ensures chain == []
      ensures HasTab(fs.layout, chain, ofs / SS) <==> ofs / SZDIRE < fs.layout.nRootdir
      ensures ofs / SZDIRE < fs.layout.nRootdir ==> TabSect(fs.layout, chain, ofs / SS) == fs.layout.dirbase + ofs / SS
    {
      assert chain == [];
      assert fs.layout.nRootdir % DIRENTS_PER_SECTOR == 0;
    }

    lemma DynamicTable()
      requires Valid() && (sclust != 0 || (fs.layout.fsType == Fat32 && fs.layout.dirbase != 0))
      ensures chain != [] && chain[0] == if sclust == 0 && fs.layout.fsType == Fat32 then fs.layout.dirbase else sclust
    {
    }

    lemma OnFollowed(ofs: nat, rest: nat)
      requires fs.layout.csize > 0 && fs.layout.nFatent >= 2 && chain != []
      requires Followed(fs.layout, chain, ofs, clust, rest) && sect == Clust2Sect(fs.layout, clust) + rest / SS
      ensures HasTab(fs.layout, chain, ofs / SS) && sect == TabSect(fs.layout, chain, ofs / SS)
      ensures clust == chain[ofs / SS / fs.layout.csize]
    {
    }

    lemma SdiArrives(ofs: nat)
      requires fs.layout.csize > 0 && fs.layout.nFatent >= 2 && ofs % SZDIRE == 0 && ofs < MAX_DIR
      requires HasTab(fs.layout, chain, ofs / SS) && sect == TabSect(fs.layout, chain, ofs / SS)
      requires dptr == ofs && off == ofs % SS
      requires chain != [] ==> ofs / SS / fs.layout.csize < |chain|
      requires clust == if chain == [] then 0 else chain[ofs / SS / fs.layout.csize]
      ensures On(ofs / SZDIRE)
    {
      hide HasTab, TabSect;
      assert ofs / SZDIRE / DIRENTS_PER_SECTOR == ofs / SS && ofs / SZDIRE % DIRENTS_PER_SECTOR * SZDIRE == ofs % SS;
    }

    /** The cluster loop of dir_sdi. */
    method FollowTable(start: nat, ofs: nat) returns (res: FResult, clst: nat, rest: nat)
      requires Valid() && chain != [] && start == chain[0]
      modifies fs, fs.win
      ensures Valid() && fs.View() == old(fs.View()) && fs.CountersUnchanged()
      ensures res == if HasTab(fs.layout, chain, ofs / SS) then FrOk else FrIntErr
      ensures res == FrOk ==> Followed(fs.layout, chain, ofs, clst, rest)
    {
      hide FatFs.Valid, FatFs.View, FatFs.Shaped, Mirrored, Fits, Layout.Sound, Volume, Fat, Untouched, SameBut,
           SameSectors, IsChain, BitAnd, ClusterIx, HasTab, Followed, Layout.ClusterBytes;
      SoundFacts(fs.layout);
      var csz := fs.layout.ClusterBytes();
      ByClusterBytes(fs.layout, 0);
      clst, rest := start, ofs;
      ghost var i := 0;
      while rest >= csz
        invariant Valid() && fs.View() == old(fs.View()) && fs.CountersUnchanged()
        invariant i < |chain| && clst == chain[i] && ofs == i * csz + rest
        decreases rest
      {
        clst := GetFat(fs, clst);
        ChainStep(FatOf(fs), chain, i);
        if clst < 2 || clst >= fs.layout.nFatent {
          PastChain(fs.layout, chain, i, rest);
          return FrIntErr, clst, rest;
        }
        rest := rest - csz;
        assert (i + 1) * csz == i * csz + csz;
        i := i + 1;
      }
      InTableCluster(fs.layout, chain, i, rest);
      res := FrOk;
    }

    /** dir_next: step to the next entry. At the end of a chained table a stretch adds a cluster of zero entries. */
    method Next(stretch: bool, ghost k: nat) returns (res: FResult)
      requires Valid() && On(k)
      modifies this`dptr, this`clust, this`sect, this`off, this`chain, fs, fs.win
      ensures Valid() && Stepped(res, stretch, k, |old(Entries())|, |old(chain)|)
      ensures Extends(old(Entries()), Entries()) && old(chain) <= chain
      ensures chain == old(chain) ==> fs.View() == old(fs.View()) && Entries() == old(Entries())
      ensures res != FrOk ==> chain == old(chain)
      ensures Untouched(fs.layout, old(fs.View()), old(FatOf(fs)), old(chain), fs.View(), FatOf(fs), chain)
    {
      hide FatFs.Valid, FatFs.View, FatFs.Shaped, Mirrored, Fits, Layout.Sound, Volume, Fat, Untouched, SameBut,
           SameSectors, IsChain, BitAnd, ClusterIx, Table, Count, HasTab, TabSect, OnTab;
      SoundFacts(fs.layout);
      UntouchedRefl(fs.layout, fs.View(), FatOf(fs), chain);
      CountIsHas(fs.layout, chain, k + 1);
      EntrySteps(fs.layout, k);
      OnTabIsReal(fs.layout, fs.View(), chain, k / DIRENTS_PER_SECTOR, sect, clust);
      var ofs := dptr + SZDIRE;
      if sect == 0 || ofs >= MAX_DIR {
        return FrNoFile;
      }
      if ofs % SS == 0 {
        if clust == 0 {
          RootEntriesFillSectors(fs.layout);
          StaticStep(fs.layout, chain, k, sect, clust);
          sect := sect + 1;
          if ofs / SZDIRE >= fs.layout.nRootdir {
            sect := 0;
            return FrNoFile;
          }
        } else {
          res := NextSector(stretch, k / DIRENTS_PER_SECTOR);
          if res != FrOk {
            return;
          }
        }
      }
      dptr := ofs;
      off := ofs % SS;
      res := FrOk;
    }

    /** The part of dir_next that leaves sector j of a chained table. */
    method NextSector(stretch: bool, ghost j: nat) returns (res: FResult)
      requires Valid() && OnTab(fs.layout, chain, j, sect, clust) && chain != [] && dptr + SZDIRE == (j + 1) * SS
      modifies this`clust, this`sect, this`chain, fs, fs.win
      ensures Valid() && (res != FrOk ==> chain == old(chain))
      ensures res == FrOk ==> OnTab(fs.layout, chain, j + 1, sect, clust)
      ensures if HasTab(fs.layout, old(chain), j + 1) then res == FrOk && chain == old(chain)
              else if stretch then Grew(res, |old(chain)|) else res == FrNoFile
      ensures Extends(old(Entries()), Entries()) && old(chain) <= chain
      ensures chain == old(chain) ==> fs.View() == old(fs.View()) && Entries() == old(Entries())
      ensures Untouched(fs.layout, old(fs.View()), old(FatOf(fs)), old(chain), fs.View(), FatOf(fs), chain)
    {
      hide FatFs.Valid, FatFs.View, FatFs.Shaped, Mirrored, Fits, Layout.Sound, Volume, Fat, Untouched, SameBut,
           SameSectors, IsChain, BitAnd, ClusterIx, Table, Count, HasTab, TabSect, FileSect, OnTab, Grew, Extends,
           PowerOfTwo;
      assert (dptr + SZDIRE) / SS == j + 1;
      ExtendsSelf(Entries());
      SoundFacts(fs.layout);
      UntouchedRefl(fs.layout, fs.View(), FatOf(fs), chain);
      SectorStep(fs.layout, FatOf(fs), chain, j, sect, clust);
      MaskIsRemainder(j + 1, fs.layout.csize);
      sect := sect + 1;
      res := FrOk;
      if BitAnd((dptr + SZDIRE) / SS, fs.layout.csize - 1) == 0 {
        res := NextTableCluster(stretch, j);
      }
    }

    /** The part of dir_next that leaves the last sector of a cluster. */
    method NextTableCluster(stretch: bool, ghost j: nat) returns (res: FResult)
      requires Valid() && chain != [] && (j + 1) % fs.layout.csize == 0 && 2 <= clust < fs.layout.nFatent
      requires HasTab(fs.layout, chain, j + 1) <==> FatOf(fs)[clust] < fs.layout.nFatent
      requires if HasTab(fs.layout, chain, j + 1)
               then OnTab(fs.layout, chain, j + 1, Clust2Sect(fs.layout, FatOf(fs)[clust]), FatOf(fs)[clust])
               else clust == chain[|chain| - 1] && (j + 1) / fs.layout.csize == |chain|
      modifies this`clust, this`sect, this`chain, fs, fs.win
      ensures Valid() && (res != FrOk ==> chain == old(chain))
      ensures res == FrOk ==> OnTab(fs.layout, chain, j + 1, sect, clust)
      ensures if HasTab(fs.layout, old(chain), j + 1) then res == FrOk && chain == old(chain)
              else if stretch then Grew(res, |old(chain)|) else res == FrNoFile
      ensures Extends(old(Entries()), Entries()) && old(chain) <= chain
      ensures chain == old(chain) ==> fs.View() == old(fs.View()) && Entries() == old(Entries())
      ensures Untouched(fs.layout, old(fs.View()), old(FatOf(fs)), old(chain), fs.View(), FatOf(fs), chain)
    {
      hide FatFs.Valid, FatFs.View, FatFs.Shaped, Mirrored, Fits, Layout.Sound, Volume, Fat, Untouched, SameBut,
           SameSectors, IsChain, BitAnd, ClusterIx, Table, Count, HasTab, TabSect, FileSect, OnTab, Extends,
           Clust2Sect;
      UntouchedRefl(fs.layout, fs.View(), FatOf(fs), chain);
      ExtendsSelf(Entries());
      var clst := GetFat(fs, clust);
      res := FrOk;
      if clst >= fs.layout.nFatent {
        if !stretch {
          sect := 0;
          return FrNoFile;
        }
        res, clst := AddCluster();
        if res != FrOk {
          return;
        }
        FirstOfNewCluster(fs.layout, old(chain), clst, j);
      }
      clust := clst;
      sect := Clust2Sect(fs.layout, clst);
    }

    /** How an attempt to stretch a table of so many clusters may end. */
    ghost predicate Grew(res: FResult, clusters: nat)
      requires Valid()
      reads this, fs, fs.win
    {
      || (res == FrOk && |chain| == clusters + 1)
      || (res == FrDenied && FreeSet(FatOf(fs)) == {})
      || (res == FrIntErr && exists c :: 2 <= c < fs.layout.nFatent && FatOf(fs)[c] == 1)
    }

    /** Stretch the table by a cluster and fill it with zeros. */
    method AddCluster() returns (res: FResult, clst: nat)
      requires Valid() && chain != [] && clust == chain[|chain| - 1]
      modifies this`chain, fs, fs.win
      ensures Valid() && Grew(res, |old(chain)|)
      ensures chain == if res == FrOk then old(chain) + [clst] else old(chain)
      ensures Extends(old(Entries()), Entries())
      ensures res != FrOk ==> fs.View() == old(fs.View()) && Entries() == old(Entries())
      ensures Untouched(fs.layout, old(fs.View()), old(FatOf(fs)), old(chain), fs.View(), FatOf(fs), chain)
    {
      hide FatFs.Valid, FatFs.View, FatFs.Shaped, Mirrored, Fits, Layout.Sound, Volume, Fat, Untouched, SameBut,
           SameSectors, IsChain, BitAnd, ClusterIx, Table, Count, Clust2Sect, FileSect, HasSector, CreateResult,
           CreateFat, FreeSet;
      ghost var l, v, f, ch := fs.layout, fs.View(), FatOf(fs), chain;
      SoundFacts(l);
      UntouchedRefl(l, v, f, ch);
      clst := ExtendChain(fs, clust, chain, |chain|);
      if clst == 0 {
        return FrDenied, clst;
      }
      if clst == 1 {
        return FrIntErr, clst;
      }
      ghost var w, g := fs.View(), FatOf(fs);
      chain := chain + [clst];
      CleanCluster(clst, ch);
      UntouchedTrans(l, v, f, ch, w, g, chain, fs.View(), FatOf(fs), chain);
      StretchedTable(l, v, w, fs.View(), g, ch, clst);
      res := FrOk;
    }

    /** The zero-filling loop of dir_next on the last cluster of the chain. */
    method CleanCluster(clst: nat, ghost ch: seq<nat>)
      requires fs.Valid() && Volume(fs.layout, fs.View()) && IsChain(FatOf(fs), chain) && chain == ch + [clst]
      modifies fs, fs.win
      ensures fs.Valid() && Volume(fs.layout, fs.View()) && FatOf(fs) == old(FatOf(fs))
      ensures SameBut(old(fs.View()), fs.View(), Clust2Sect(fs.layout, clst), fs.layout.csize)
      ensures forall i {:trigger fs.View()[i]} ::
                Clust2Sect(fs.layout, clst) <= i < Clust2Sect(fs.layout, clst) + fs.layout.csize && i < |fs.View()| ==>
                  fs.View()[i] == ZeroSector()
      ensures Untouched(fs.layout, old(fs.View()), old(FatOf(fs)), chain, fs.View(), FatOf(fs), chain)
    {
      hide FatFs.Valid, FatFs.View, FatFs.Shaped, Mirrored, Fits, Layout.Sound, Volume, Fat, Untouched, SameBut,
           SameSectors, IsChain, BitAnd, ClusterIx, Clust2Sect, FileSect, HasSector;
      ghost var l, w, g := fs.layout, fs.View(), FatOf(fs);
      MulMonotone(l.csize, 0, |chain| - 1);
      ghost var i: nat := l.csize * (|chain| - 1);
      NewClusterSectors(l, w, g, chain, i);
      fs.FillZero(Clust2Sect(fs.layout, clst), fs.layout.csize);
      VolumeSameSize(l, w, fs.View());
      UntouchedByWrite(l, w, fs.View(), g, chain, i, l.csize);
      FatFrame(l, w, fs.View());
    }

    /** What a step reports, by where the table ends. */
    ghost predicate Stepped(res: FResult, stretch: bool, k: nat, count: nat, clusters: nat)
      requires Valid()
      reads this, fs, fs.win
    {
      && (res == FrOk ==> On(k + 1))
      && (k + 1 < count ==> res == FrOk && |chain| == clusters)
      && (k + 1 >= count && (!stretch || chain == [] || k + 1 == MAX_ENTRIES) ==> res == FrNoFile)
      && (k + 1 >= count && stretch && chain != [] && k + 1 < MAX_ENTRIES ==>
            || (res == FrOk && |chain| == clusters + 1)
            || (res == FrDenied && FreeSet(FatOf(fs)) == {})
            || (res == FrIntErr && exists c :: 2 <= c < fs.layout.nFatent && FatOf(fs)[c] == 1))
    }

    /** Bring the sector of the current entry into the window. */
    method Load(ghost k: nat) returns (c: byte)
      requires Valid() && On(k)
      modifies fs, fs.win
      ensures Valid() && fs.View() == old(fs.View()) && fs.CountersUnchanged() && Entries() == old(Entries())
      ensures k < |Entries()| && c == Entries()[k][0] && fs.winsect == sect && off + SZDIRE <= SS == fs.win.Length
      ensures fs.win[off..off + SZDIRE] == Entries()[k] && On(k)
    {
      hide FatFs.Valid, FatFs.View, FatFs.Shaped, Mirrored, Fits, Layout.Sound, Volume, Fat, Untouched, SameBut,
           SameSectors, IsChain, BitAnd, ClusterIx, Table, Count, OnTab;
      OnTabIsReal(fs.layout, fs.View(), chain, k / DIRENTS_PER_SECTOR, sect, clust);
      EntryInSector(fs.layout, fs.View(), chain, k, sect, clust);
      fs.MoveWindow(sect);
      c := fs.win[off];
      assert fs.win[off..off + SZDIRE] == fs.View()[sect][off..off + SZDIRE];
    }

    /** dir_find: the first entry with this name before the end mark. */
    method Find(fn: Name) returns (res: FResult, ghost k: nat)
      requires Valid()
      modifies this`dptr, this`clust, this`sect, this`off, this`chain, this`attr, fs, fs.win
      ensures Valid() && fs.View() == old(fs.View()) && chain == old(chain) && Entries() == old(Entries())
      ensures k == DirTable.Find(Entries(), fn)
      ensures res == if k < |Entries()| then FrOk else FrNoFile
      ensures res == FrOk ==> On(k) && attr == Entries()[k][DIR_ATTR] % 0x40
    {
      hide FatFs.Valid, FatFs.View, FatFs.Shaped, Mirrored, Fits, Layout.Sound, Volume, Fat, Untouched, SameBut,
           SameSectors, IsChain, BitAnd, ClusterIx, Table, Count, OnTab, Untouched, Extends;
      TableNotEmpty(fs.layout, fs.View(), chain);
      k := 0;
      res := Sdi(0);
      ghost var t := Entries();
      FindFromHere(t, fn, 0);
      while true
        invariant Valid() && fs.View() == old(fs.View()) && chain == old(chain) && Entries() == t == old(Entries())
        invariant On(k) && k < |t| && DirTable.Find(t, fn) == FindFrom(t, fn, k)
        decreases |t| - k
      {
        var c := Load(k);
        if c == 0 {
          k := |t|;
          return FrNoFile, k;
        }
        var e := fs.win[off..off + SZDIRE];
        attr := e[DIR_ATTR] % 0x40;
        if e[DIR_ATTR] / AM_VOL % 2 == 0 && e[..11] == fn {
          return FrOk, k;
        }
        res := Next(false, k);
        SteppedOn(k, |t|, |chain|, res);
        k := k + 1;
        if res != FrOk {
          return;
        }
      }
    }

    lemma SteppedOn(k: nat, count: nat, clusters: nat, res: FResult)
      requires Valid() && Stepped(res, false, k, count, clusters) && k < count
      ensures k + 1 < count ==> res == FrOk && |chain| == clusters
      ensures k + 1 == count ==> res == FrNoFile
      ensures res == FrOk ==> On(k + 1)
    {
      hide On, Valid;
    }

    lemma OnInRange(k: nat)
      requires Valid() && On(k)
      ensures k < |Entries()|
    {
      hide Volume, Table, Count, Layout.Sound, FatFs.Valid;
      CountIsHas(fs.layout, chain, k);
    }

    /** dir_alloc for one entry: the first free entry, in a table stretched by a cluster if it has none. */
    method AllocEntry() returns (res: FResult, ghost k: nat)
      requires Valid()
      modifies this`dptr, this`clust, this`sect, this`off, this`chain, fs, fs.win
      ensures Valid() && Extends(old(Entries()), Entries()) && old(chain) <= chain
      ensures Untouched(fs.layout, old(fs.View()), old(FatOf(fs)), old(chain), fs.View(), FatOf(fs), chain)
      ensures chain == old(chain) ==> fs.View() == old(fs.View()) && Entries() == old(Entries())
      ensures res == FrOk ==> On(k) && k == FreeFrom(Entries(), 0) < |Entries()|
      ensures FreeFrom(old(Entries()), 0) < |old(Entries())| ==> res == FrOk && chain == old(chain)
      ensures res != FrOk ==> chain == old(chain) && AllocFailed(res)
    {
      hide FatFs.Valid, FatFs.View, FatFs.Shaped, Mirrored, Fits, Layout.Sound, Volume, Fat, Untouched, SameBut,
           SameSectors, IsChain, BitAnd, ClusterIx, Table, Count, OnTab, Extends, FreeFrom, IsFree, Stepped,
           AllocFailed;
      TableNotEmpty(fs.layout, fs.View(), chain);
      ghost var l, v, f, ch := fs.layout, fs.View(), FatOf(fs), chain;
      ghost var t := Entries();
      UntouchedRefl(l, v, f, ch);
      ExtendsSelf(t);
      k := 0;
      res := Sdi(0);
      while true
        invariant Valid() && On(k) && k < |Entries()| && res == FrOk
        invariant Extends(t, Entries()) && ch <= chain && Untouched(l, v, f, ch, fs.View(), FatOf(fs), chain)
        invariant chain == ch ==> fs.View() == v && Entries() == t
        invariant NoneFree(Entries(), k)
        invariant chain != ch ==> k == |t| && FreeFrom(t, 0) == |t|
        decreases |t| - k
      {
        var c := Load(k);
        IsFreeByte(Entries()[k]);
        if c == DDEM || c == 0 {
          FreeFromStops(Entries(), k);
          return FrOk, k;
        }
        if chain != ch {
          ExtendedIsFree(t, Entries());
        }
        res := Next(true, k);
        NoneFreeStep(t, k);
        AllocStep(t, ch, k, res);
        k := k + 1;
        if res != FrOk {
          break;
        }
      }
      if res == FrNoFile {
        res := FrDenied;
      }
    }

    lemma AllocStep(t: seq<Dirent>, ch: seq<nat>, k: nat, res: FResult)
      requires Valid() && Stepped(res, true, k, |t|, |ch|) && ch <= chain && Extends(t, Entries()) && k < |t|
      requires (chain == ch ==> Entries() == t) && (res != FrOk ==> chain == ch) && NoneFree(t, k + 1)
      ensures res == FrOk ==> On(k + 1) && k + 1 < |Entries()| && NoneFree(Entries(), k + 1)
      ensures chain != ch ==> k + 1 == |t| && FreeFrom(t, 0) == |t|
      ensures res != FrOk ==> AllocFailed(if res == FrNoFile then FrDenied else res) && FreeFrom(t, 0) == |t|
    {
      hide On, Valid, Table, FreeFrom, IsFree, FreeSet;
      if res == FrOk {
        OnInRange(k + 1);
      }
      if k + 1 >= |t| {
        FreeFromNone(t);
      }
    }

    /** Overwrite the first bytes of entry k, which is in the window. */
    method PatchEntry(ghost k: nat, x: seq<byte>)
      requires Valid() && On(k) && 0 < |x| <= SZDIRE
      modifies fs, fs.win
      ensures Valid() && k < |old(Entries())| && Entries() == old(Entries())[k := Patched(old(Entries()[k]), x)]
      ensures OthersKept(fs.layout, old(fs.View()), old(FatOf(fs)), chain, fs.View(), FatOf(fs), chain)
    {
      hide FatFs.Valid, FatFs.View, FatFs.Shaped, Mirrored, Fits, Layout.Sound, Volume, Fat, SameBut, IsChain, BitAnd,
           Table, Count, OnTab, HasTab, TabSect, OthersKept, Patched;
      ghost var l, v, f := fs.layout, fs.View(), FatOf(fs);
      var c := Load(k);
      OnTabIsReal(l, v, chain, k / DIRENTS_PER_SECTOR, sect, clust);
      fs.PokeBytes(off, x);
      VolumeSameSize(l, v, fs.View());
      EntryPatched(l, v, fs.View(), f, chain, k, sect, clust, x);
    }

    /** dir_register: put a zeroed entry with the name into the first free place of the table m,
        which is the old table, stretched if it was full. */
    method Register(fn: Name) returns (res: FResult, ghost m: seq<Dirent>)
      requires Valid()
      modifies this`dptr, this`clust, this`sect, this`off, this`chain, fs, fs.win
      ensures Valid() && old(chain) <= chain
      ensures OthersKept(fs.layout, old(fs.View()), old(FatOf(fs)), old(chain), fs.View(), FatOf(fs), chain)
      ensures Extends(old(Entries()), m) && (chain == old(chain) ==> m == old(Entries()))
      ensures res == FrOk ==>
                FreeFrom(m, 0) < |m| && Entries() == m[FreeFrom(m, 0) := NewEntry(fn)] && On(FreeFrom(m, 0))
      ensures res == FrOk ==>
                var k := dptr / 32;
                && dptr == 32 * k && k < |m| == |Entries()|
                && Entries()[k][..11] == fn && (forall i :: 11 <= i < 32 ==> Entries()[k][i] == 0)
                && (m[k][0] == 0 || m[k][0] == 0xE5) && (forall j :: 0 <= j < k ==> m[j][0] != 0 && m[j][0] != 0xE5)
                && forall j :: 0 <= j < |m| && j != k ==> Entries()[j] == m[j]
      ensures res == FrOk && Terminated(old(Entries())) && DirTable.Find(old(Entries()), fn) == |old(Entries())| ==>
                AddsName(old(Entries()), Entries(), fn)
      ensures FreeFrom(old(Entries()), 0) < |old(Entries())| ==> res == FrOk && chain == old(chain)
      ensures res != FrOk ==>
                chain == old(chain) && fs.View() == old(fs.View()) && Entries() == old(Entries()) && AllocFailed(res)
    {
      hide FatFs.Valid, FatFs.View, FatFs.Shaped, Mirrored, Fits, Layout.Sound, Volume, Fat, Untouched, SameBut,
           IsChain, BitAnd, Table, Count, OnTab, OthersKept, Patched, FreeFrom, NewEntry, Terminated, AddsName,
           AllocFailed, Extends;
      ghost var l, v, f, ch, t := fs.layout, fs.View(), FatOf(fs), chain, Entries();
      ghost var k;
      res, k := AllocEntry();
      m := Entries();
      KeptIfUntouched(l, v, f, ch, fs.View(), FatOf(fs), chain);
      if res == FrOk {
        ghost var w, g := fs.View(), FatOf(fs);
        PatchEntry(k, NewEntry(fn));
        KeptTrans(l, v, f, ch, w, g, chain, fs.View(), FatOf(fs));
        PatchedWhole(m[k], NewEntry(fn));
        NewInTable(m, fn);
        if Terminated(t) && DirTable.Find(t, fn) == |t| {
          Registered(t, m, fn);
        }
      }
    }

    /** dir_remove: mark the current entry deleted. */
    method Remove(ghost k: nat, ghost fn: Name)
      requires Valid() && On(k)
      modifies fs, fs.win
      ensures Valid() && k < |old(Entries())| && Entries() == old(Entries())[k := Deleted(old(Entries()[k]))]
      ensures Entries()[k][0] == 0xE5 && Entries()[k][1..] == old(Entries()[k])[1..]
      ensures OthersKept(fs.layout, old(fs.View()), old(FatOf(fs)), chain, fs.View(), FatOf(fs), chain)
      ensures k == DirTable.Find(old(Entries()), fn) && Terminated(old(Entries())) && Unique(old(Entries()), fn) ==>
                DropsName(old(Entries()), Entries(), fn)
    {
      hide FatFs.Valid, FatFs.View, FatFs.Shaped, Mirrored, Fits, Layout.Sound, Volume, Fat, SameBut, IsChain, BitAnd,
           Table, Count, OnTab, OthersKept, Patched, Deleted, Terminated, Unique, DropsName;
      ghost var t := Entries();
      PatchEntry(k, [DDEM]);
      PatchedFirst(t[k]);
      DeletedBytes(t[k]);
      if Terminated(t) && Unique(t, fn) && k == DirTable.Find(t, fn) {
        Removed(t, fn);
      }
    }

    /** dir_sdi(0), then n times dir_next: where this leads, and where it stops, is what dir_sdi(32 * n) says. */
    method StepTo(n: nat) returns (res: FResult)
      requires Valid()
      modifies this`dptr, this`clust, this`sect, this`off, this`chain, fs, fs.win
      ensures Valid() && fs.View() == old(fs.View()) && chain == old(chain) && Entries() == old(Entries())
      ensures res == FrOk <==> n < |Entries()|
      ensures res == FrOk ==> On(n)
    {
      hide FatFs.Valid, FatFs.View, FatFs.Shaped, Mirrored, Fits, Layout.Sound, Volume, Fat, Untouched, SameBut,
           IsChain, BitAnd, Table, Count, OnTab, Untouched, Extends;
      TableNotEmpty(fs.layout, fs.View(), chain);
      res := Sdi(0);
      ghost var t := Entries();
      var k := 0;
      while k < n
        invariant Valid() && fs.View() == old(fs.View()) && chain == old(chain) && Entries() == t == old(Entries())
        invariant k <= n && On(k) && k < |t| && res == FrOk
      {
        res := Next(false, k);
        SteppedOn(k, |t|, |chain|, res);
        if res != FrOk {
          return;
        }
        k := k + 1;
      }
    }

    /** Why no entry could be allocated: the table has none free and cannot grow, or the FAT is damaged. */
    ghost predicate AllocFailed(res: FResult)
      requires Valid()
      reads this, fs, fs.win
    {
      && FreeFrom(Entries(), 0) == |Entries()|
      && (res == FrDenied ==> chain == [] || |Entries()| == MAX_ENTRIES || FreeSet(FatOf(fs)) == {})
      && (res != FrDenied ==> res == FrIntErr && exists c :: 2 <= c < fs.layout.nFatent && FatOf(fs)[c] == 1)
    }
  }

  lemma RootEntriesFillSectors(l: Layout)
    requires l.Sound()
    ensures l.nRootdir % DIRENTS_PER_SECTOR == 0
  {
  }

  lemma OnTabIsReal(l: Layout, v: Drive, ch: seq<nat>, j: nat, sect: nat, clust: nat)
    requires Volume(l, v) && AllClustersValid(l, ch) && (ch == [] ==> l.fsType != Fat32) && OnTab(l, ch, j, sect, clust)
    ensures HasTab(l, ch, j) && 0 < sect < |v| && (clust == 0 <==> ch == []) && !l.IsFatSector(sect) &&
            !l.IsMirrorSector(sect)
  {
    hide Volume, Layout.Sound, TabSect;
    TabSectInside(l, v, ch, j);
  }

  /** The next sector of a chained table: in the same cluster, or the first of the next one. */
  lemma SectorStep(l: Layout, fat: seq<nat>, ch: seq<nat>, j: nat, sect: nat, clust: nat)
    requires l.csize > 0 && l.nFatent >= 2 && |fat| == l.nFatent && ch != [] && IsChain(fat, ch) &&
             OnTab(l, ch, j, sect, clust)
    ensures 2 <= clust < l.nFatent
    ensures (j + 1) % l.csize != 0 ==> OnTab(l, ch, j + 1, sect + 1, clust) && HasTab(l, ch, j + 1)
    ensures (j + 1) % l.csize == 0 && fat[clust] < l.nFatent ==>
              OnTab(l, ch, j + 1, Clust2Sect(l, fat[clust]), fat[clust]) && HasTab(l, ch, j + 1)
    ensures (j + 1) % l.csize == 0 && fat[clust] >= l.nFatent ==>
              !HasTab(l, ch, j + 1) && clust == ch[|ch| - 1] && (j + 1) / l.csize == |ch|
  {
    ChainStep(fat, ch, j / l.csize);
    hide IsChain;
    StepDiv(j + 1, l.csize);
    if (j + 1) % l.csize != 0 {
      NextInCluster(l, j);
    }
  }

  lemma NextInCluster(l: Layout, j: nat)
    requires l.csize > 0 && (j + 1) % l.csize != 0
    ensures (j + 1) / l.csize == j / l.csize && (j + 1) % l.csize == j % l.csize + 1
  {
    var c := l.csize;
    if j % c + 1 == c {
      assert c * (j / c + 1) == c * (j / c) + c;
      DivModUnique(j + 1, c, j / c + 1, 0);
    } else {
      DivModUnique(j + 1, c, j / c, j % c + 1);
    }
  }

  lemma FirstOfNewCluster(l: Layout, ch: seq<nat>, r: nat, j: nat)
    requires l.csize > 0 && l.nFatent >= 2 && (j + 1) % l.csize == 0 && (j + 1) / l.csize == |ch|
    ensures OnTab(l, ch + [r], j + 1, Clust2Sect(l, r), r)
  {
  }

  lemma StaticStep(l: Layout, ch: seq<nat>, k: nat, sect: nat, clust: nat)
    requires l.csize > 0 && l.nFatent >= 2 && ch == [] && k % DIRENTS_PER_SECTOR == 15
    requires l.nRootdir % DIRENTS_PER_SECTOR == 0 && OnTab(l, ch, k / DIRENTS_PER_SECTOR, sect, clust)
    ensures HasTab(l, ch, (k + 1) / DIRENTS_PER_SECTOR) <==> k + 1 < l.nRootdir
    ensures k + 1 < l.nRootdir ==> OnTab(l, ch, (k + 1) / DIRENTS_PER_SECTOR, sect + 1, clust)
  {
  }

  lemma NewClusterSectors(l: Layout, v: Drive, fat: seq<nat>, ch: seq<nat>, i: nat)
    requires Volume(l, v) && |fat| == l.nFatent && IsChain(fat, ch) && i == l.csize * (|ch| - 1)
    ensures && HasSector(l, ch, i) && i % l.csize == 0 && FileSect(l, ch, i) == Clust2Sect(l, ch[|ch| - 1])
            && l.database <= FileSect(l, ch, i) && FileSect(l, ch, i) + l.csize <= |v|
  {
    DivModUnique(i, l.csize, |ch| - 1, 0);
    hide IsChain, Layout.Sound;
    LastCluster(fat, ch);
    ClusterInside(l, ch[|ch| - 1], l.csize - 1);
  }

  lemma LastCluster(fat: seq<nat>, ch: seq<nat>)
    requires IsChain(fat, ch)
    ensures ch != [] && 2 <= ch[|ch| - 1] < |fat|
  {
  }

  /** The stretched table: the old entries, then zeros. */
  lemma StretchedTable(l: Layout, v: Drive, w: Drive, x: Drive, fat: seq<nat>, ch: seq<nat>, r: nat)
    requires Volume(l, v) && Volume(l, w) && Volume(l, x) && |fat| == l.nFatent && ch != [] && IsChain(fat, ch + [r])
    requires AllClustersValid(l, ch) && SameSectors(l, v, w, ch)
    requires SameBut(w, x, Clust2Sect(l, r), l.csize)
    requires forall i {:trigger x[i]} ::
               Clust2Sect(l, r) <= i < Clust2Sect(l, r) + l.csize && i < |x| ==> x[i] == ZeroSector()
    ensures AllClustersValid(l, ch + [r]) && Extends(Table(l, v, ch), Table(l, x, ch + [r]))
  {
    hide Volume, Table, IsChain, EntryAt, Count;
    ChainClustersValid(l, fat, ch + [r]);
    CountGrows(l, ch, r);
    forall k: nat | k < Count(l, ch + [r])
      ensures Table(l, x, ch + [r])[k] == if k < Count(l, ch) then Table(l, v, ch)[k] else ZeroEntry()
    {
      TableAt(l, x, ch + [r], k);
      if k < Count(l, ch) {
        TableAt(l, v, ch, k);
        OldEntry(l, v, w, x, fat, ch, r, k);
      } else {
        CountIsHas(l, ch, k);
        NewEntryIsZero(l, x, ch, r, k);
      }
    }
  }

  lemma CountGrows(l: Layout, ch: seq<nat>, r: nat)
    requires l.csize > 0 && ch != []
    ensures Count(l, ch) <= Count(l, ch + [r])
  {
    MulMonotone(l.csize, |ch|, |ch| + 1);
    assert (|ch| + 1) * l.csize == l.csize * (|ch| + 1) && |ch| * l.csize == l.csize * |ch|;
  }

  lemma OldEntry(l: Layout, v: Drive, w: Drive, x: Drive, fat: seq<nat>, ch: seq<nat>, r: nat, k: nat)
    requires Volume(l, v) && Volume(l, w) && Volume(l, x) && |fat| == l.nFatent && ch != [] && IsChain(fat, ch + [r])
    requires AllClustersValid(l, ch) && AllClustersValid(l, ch + [r]) && SameSectors(l, v, w, ch)
    requires SameBut(w, x, Clust2Sect(l, r), l.csize) && HasEntry(l, ch, k)
    ensures HasEntry(l, ch + [r], k) && EntryAt(l, x, ch + [r], k) == EntryAt(l, v, ch, k)
  {
    hide Volume, IsChain, Clust2Sect;
    var j := k / DIRENTS_PER_SECTOR;
    FileSectInside(l, v, ch, j);
    NotInNewCluster(l, fat, ch, r, j);
    var s := FileSect(l, ch, j);
    assert FileSect(l, ch + [r], j) == s;
    assert v[s] == w[s] == x[s];
  }

  lemma NotInNewCluster(l: Layout, fat: seq<nat>, ch: seq<nat>, r: nat, j: nat)
    requires l.csize > 0 && l.nFatent >= 2 && |fat| == l.nFatent && IsChain(fat, ch + [r])
    requires AllClustersValid(l, ch) && HasSector(l, ch, j)
    ensures !(Clust2Sect(l, r) <= FileSect(l, ch, j) < Clust2Sect(l, r) + l.csize)
  {
    assert (ch + [r])[|ch|] == r;
    LastIsNew(fat, ch, r, j / l.csize);
    ChainStep(fat, ch + [r], |ch|);
    hide IsChain, Clust2Sect;
    var s := FileSect(l, ch, j);
    if Clust2Sect(l, r) <= s < Clust2Sect(l, r) + l.csize {
      ClustersApart(l, ch[j / l.csize], r, j % l.csize, s - Clust2Sect(l, r));
    }
  }

  lemma LastIsNew(fat: seq<nat>, ch: seq<nat>, r: nat, i: nat)
    requires IsChain(fat, ch + [r]) && i < |ch|
    ensures ch[i] != r
  {
    assert (ch + [r])[i] != (ch + [r])[|ch|];
  }

  lemma NewEntryIsZero(l: Layout, x: Drive, ch: seq<nat>, r: nat, k: nat)
    requires Volume(l, x) && ch != [] && AllClustersValid(l, ch + [r]) && HasEntry(l, ch + [r], k) &&
             !HasEntry(l, ch, k)
    requires forall i {:trigger x[i]} ::
               Clust2Sect(l, r) <= i < Clust2Sect(l, r) + l.csize && i < |x| ==> x[i] == ZeroSector()
    ensures EntryAt(l, x, ch + [r], k) == ZeroEntry()
  {
    hide Volume;
    var j := k / DIRENTS_PER_SECTOR;
    assert j / l.csize == |ch|;
    TabSectInside(l, x, ch + [r], j);
    var s := TabSect(l, ch + [r], j);
    assert x[s] == ZeroSector();
  }

  lemma InTableCluster(l: Layout, ch: seq<nat>, i: nat, rest: nat)
    requires l.csize > 0 && rest < l.ClusterBytes() && i < |ch|
    ensures var ofs := i * l.ClusterBytes() + rest;
            HasTab(l, ch, ofs / SS) && Followed(l, ch, ofs, ch[i], rest)
  {
    var ofs := i * l.ClusterBytes() + rest;
    var q := l.csize * i;
    assert i * l.ClusterBytes() == SS * q;
    DivModUnique(ofs, SS, q + rest / SS, rest % SS);
    DivModUnique(ofs / SS, l.csize, i, rest / SS);
  }

  lemma PastChain(l: Layout, ch: seq<nat>, i: nat, rest: nat)
    requires l.csize > 0 && rest >= l.ClusterBytes() && i + 1 >= |ch| && ch != []
    ensures !HasTab(l, ch, (i * l.ClusterBytes() + rest) / SS)
  {
    BeyondCluster(l, i, rest + 1);
  }

  lemma TableNotEmpty(l: Layout, v: Drive, ch: seq<nat>)
    requires Volume(l, v) && AllClustersValid(l, ch) && (ch == [] ==> l.fsType != Fat32)
    ensures 0 < Count(l, ch)
  {
    CountIsHas(l, ch, 0);
  }

  lemma EntryInSector(l: Layout, v: Drive, ch: seq<nat>, k: nat, sect: nat, clust: nat)
    requires Volume(l, v) && AllClustersValid(l, ch) && (ch == [] ==> l.fsType != Fat32)
    requires k < MAX_ENTRIES && OnTab(l, ch, k / DIRENTS_PER_SECTOR, sect, clust) && sect < |v|
    ensures k < Count(l, ch)
    ensures var o := k % DIRENTS_PER_SECTOR * SZDIRE; o + SZDIRE <= SS && Table(l, v, ch)[k] == v[sect][o..o + SZDIRE]
  {
    hide Volume, Table, Layout.Sound;
    CountIsHas(l, ch, k);
    TableAt(l, v, ch, k);
  }

  lemma FindFromHere(t: seq<Dirent>, name: Name, k: nat)
    ensures DirTable.Find(t, name) == FindFrom(t, name, 0)
  {
  }

  /** What directory operations keep: all other chains, and everything that is neither FAT nor data, but for the
      table itself when it is the static root. */
  ghost predicate OthersKept(l: Layout, v: Drive, fat: seq<nat>, ch0: seq<nat>, w: Drive, fat': seq<nat>, ch: seq<nat>)
    requires l.csize > 0 && l.nFatent >= 2
  {
    && ChainsKept(l, v, fat, ch0, w, fat', ch)
    && SystemKept(l, v, w, l.dirbase, if ch == [] then l.nRootdir / DIRENTS_PER_SECTOR else 0)
  }

  lemma KeptIfUntouched(l: Layout, v: Drive, fat: seq<nat>, ch0: seq<nat>, w: Drive, fat': seq<nat>, ch: seq<nat>)
    requires l.csize > 0 && l.nFatent >= 2 && Untouched(l, v, fat, ch0, w, fat', ch)
    ensures OthersKept(l, v, fat, ch0, w, fat', ch)
  {
    hide ChainsKept;
  }

  lemma KeptTrans(l: Layout, v0: Drive, f0: seq<nat>, c0: seq<nat>, v1: Drive, f1: seq<nat>, ch: seq<nat>,
                  v2: Drive, f2: seq<nat>)
    requires l.csize > 0 && l.nFatent >= 2
    requires OthersKept(l, v0, f0, c0, v1, f1, ch) && OthersKept(l, v1, f1, ch, v2, f2, ch)
    ensures OthersKept(l, v0, f0, c0, v2, f2, ch)
  {
    hide ChainsKept;
    ChainsKeptTrans(l, v0, f0, c0, v1, f1, ch, v2, f2, ch);
  }

  /** Every other directory is as it was, entry by entry, after a file operation (n == 0) and after an operation on
      a directory; the static root, which is no chain, unless that is the directory. */
  lemma OtherTableKept(l: Layout, v: Drive, fat: seq<nat>, ch0: seq<nat>, w: Drive, fat': seq<nat>, ch: seq<nat>,
                       other: seq<nat>, first: nat, n: nat)
    requires Volume(l, v) && Volume(l, w) && |fat| == l.nFatent
    requires ChainsKept(l, v, fat, ch0, w, fat', ch) && SystemKept(l, v, w, first, n)
    requires if other == [] then l.fsType != Fat32 && n == 0 else IsChain(fat, other) && Disjoint(other, ch0)
    ensures AllClustersValid(l, other) && Table(l, w, other) == Table(l, v, other)
  {
    hide Volume, Table, IsChain, Disjoint, TabSect, FileSect, Count, HasTab, OnlyChain;
    if other != [] {
      ChainClustersValid(l, fat, other);
    }
    forall k: nat | k < Count(l, other)
      ensures Table(l, w, other)[k] == Table(l, v, other)[k]
    {
      TableAt(l, v, other, k);
      TableAt(l, w, other, k);
      TabSectInside(l, v, other, k / DIRENTS_PER_SECTOR);
      SameTabSect(l, v, w, other, k / DIRENTS_PER_SECTOR);
    }
  }

  lemma SameTabSect(l: Layout, v: Drive, w: Drive, ch: seq<nat>, j: nat)
    requires Volume(l, v) && AllClustersValid(l, ch) && HasTab(l, ch, j) && (ch == [] ==> l.fsType != Fat32)
    requires if ch == [] then SystemKept(l, v, w, 0, 0) else SameSectors(l, v, w, ch)
    ensures TabSect(l, ch, j) < |v| == |w| && v[TabSect(l, ch, j)] == w[TabSect(l, ch, j)]
  {
    hide Volume, FileSect;
    TabSectInside(l, v, ch, j);
    if ch == [] {
      RootInside(l, v, j);
    }
  }

  lemma RootInside(l: Layout, v: Drive, j: nat)
    requires Volume(l, v) && l.fsType != Fat32 && j < l.nRootdir / DIRENTS_PER_SECTOR
    ensures l.dirbase + j < l.database
  {
  }

  /** The entry e with its first bytes overwritten by x. */
  function Patched(e: Dirent, x: seq<byte>): Dirent
    requires |x| <= SZDIRE
  {
    x + e[|x|..]
  }

  lemma PatchedWhole(e: Dirent, x: Dirent)
    ensures Patched(e, x) == x
  {
  }

  lemma PatchedFirst(e: Dirent)
    ensures Patched(e, [DDEM]) == Deleted(e)
  {
  }

  /** Overwriting bytes of entry k in its sector changes entry k of the table, and nothing of any other chain. */
  lemma EntryPatched(l: Layout, v: Drive, w: Drive, fat: seq<nat>, ch: seq<nat>, k: nat, sect: nat, clust: nat,
                     x: seq<byte>)
    requires Volume(l, v) && Volume(l, w) && fat == Fat(l, v) &&
             (if ch == [] then l.fsType != Fat32 else IsChain(fat, ch))
    requires AllClustersValid(l, ch) && 0 < |x| <= SZDIRE
    requires k < MAX_ENTRIES && OnTab(l, ch, k / DIRENTS_PER_SECTOR, sect, clust) && SameBut(v, w, sect, 1) &&
             sect < |v|
    requires var o := k % DIRENTS_PER_SECTOR * SZDIRE; w[sect] == v[sect][..o] + x + v[sect][o + |x|..]
    ensures k < Count(l, ch) && Table(l, w, ch) == Table(l, v, ch)[k := Patched(Table(l, v, ch)[k], x)]
    ensures Fat(l, w) == fat && OthersKept(l, v, fat, ch, w, fat, ch)
  {
    hide Volume, Table, Count, IsChain, EntryAt, OthersKept, Patched, Layout.Sound, SameBut, Fat;
    CountIsHas(l, ch, k);
    var t := Table(l, v, ch)[k := Patched(Table(l, v, ch)[k], x)];
    forall i: nat | i < Count(l, ch)
      ensures Table(l, w, ch)[i] == t[i]
    {
      TableAt(l, v, ch, i);
      TableAt(l, w, ch, i);
      EntryPatchedAt(l, v, w, fat, ch, k, sect, clust, x, i);
    }
    TabPatchKeeps(l, v, w, fat, ch, k / DIRENTS_PER_SECTOR, sect, clust);
  }

  lemma EntryPatchedAt(l: Layout, v: Drive, w: Drive, fat: seq<nat>, ch: seq<nat>, k: nat, sect: nat, clust: nat,
                       x: seq<byte>, i: nat)
    requires Volume(l, v) && Volume(l, w) && |fat| == l.nFatent &&
             (if ch == [] then l.fsType != Fat32 else IsChain(fat, ch))
    requires AllClustersValid(l, ch) && 0 < |x| <= SZDIRE && HasEntry(l, ch, i)
    requires k < MAX_ENTRIES && OnTab(l, ch, k / DIRENTS_PER_SECTOR, sect, clust) && SameBut(v, w, sect, 1) &&
             sect < |v|
    requires var o := k % DIRENTS_PER_SECTOR * SZDIRE; w[sect] == v[sect][..o] + x + v[sect][o + |x|..]
    ensures HasEntry(l, ch, k)
    ensures EntryAt(l, w, ch, i) == if i == k then Patched(EntryAt(l, v, ch, k), x) else EntryAt(l, v, ch, i)
  {
    hide Volume, IsChain, TabSect;
    var j := i / DIRENTS_PER_SECTOR;
    TabSectInside(l, v, ch, j);
    if j == k / DIRENTS_PER_SECTOR {
      SectorPatchedAt(v[sect], w[sect], k % DIRENTS_PER_SECTOR, i % DIRENTS_PER_SECTOR, x);
    } else if TabSect(l, ch, j) == sect {
      TabSectInjective(l, fat, ch, j, k / DIRENTS_PER_SECTOR);
    }
  }

  lemma SectorPatchedAt(v: Sector, w: Sector, a: nat, b: nat, x: seq<byte>)
    requires a < DIRENTS_PER_SECTOR && b < DIRENTS_PER_SECTOR && |x| <= SZDIRE
    requires w == v[..a * SZDIRE] + x + v[a * SZDIRE + |x|..]
    ensures w[b * SZDIRE..b * SZDIRE + SZDIRE] ==
              if a == b then x + v[a * SZDIRE + |x|..a * SZDIRE + SZDIRE] else v[b * SZDIRE..b * SZDIRE + SZDIRE]
    ensures x + v[a * SZDIRE + |x|..a * SZDIRE + SZDIRE] == Patched(v[a * SZDIRE..a * SZDIRE + SZDIRE], x)
  {
    var o, p := a * SZDIRE, b * SZDIRE;
    if a == b {
      PatchedSlice(v, w, o, x);
    } else {
      forall i | p <= i < p + SZDIRE
        ensures w[i] == v[i]
      {
        PatchedByte(v, w, o, x, i);
      }
      SameSlice(v, w, p);
    }
    RestOfSlice(v, o, |x|);
  }

  lemma PatchedByte(v: Sector, w: Sector, o: nat, x: seq<byte>, i: nat)
    requires o + |x| <= SS && w == v[..o] + x + v[o + |x|..] && i < SS
    ensures w[i] == if o <= i < o + |x| then x[i - o] else v[i]
  {
  }

  lemma PatchedSlice(v: Sector, w: Sector, o: nat, x: seq<byte>)
    requires o + SZDIRE <= SS && |x| <= SZDIRE && w == v[..o] + x + v[o + |x|..]
    ensures w[o..o + SZDIRE] == x + v[o + |x|..o + SZDIRE]
  {
    var r := x + v[o + |x|..o + SZDIRE];
    forall k | 0 <= k < SZDIRE
      ensures w[o..o + SZDIRE][k] == r[k]
    {
      PatchedByte(v, w, o, x, o + k);
    }
  }

  lemma SameSlice(v: Sector, w: Sector, p: nat)
    requires p + SZDIRE <= SS && forall i :: p <= i < p + SZDIRE ==> w[i] == v[i]
    ensures w[p..p + SZDIRE] == v[p..p + SZDIRE]
  {
  }

  lemma RestOfSlice(v: Sector, o: nat, n: nat)
    requires o + SZDIRE <= SS && n <= SZDIRE
    ensures v[o..o + SZDIRE][n..] == v[o + n..o + SZDIRE]
  {
  }

  lemma TabSectInjective(l: Layout, fat: seq<nat>, ch: seq<nat>, i: nat, j: nat)
    requires l.csize > 0 && l.nFatent >= 2 && |fat| == l.nFatent && (ch == [] || IsChain(fat, ch))
    requires HasTab(l, ch, i) && HasTab(l, ch, j) && TabSect(l, ch, i) == TabSect(l, ch, j)
    ensures i == j
  {
    if ch != [] {
      FileSectInjective(l, fat, ch, i, j);
    }
  }

  lemma TabPatchKeeps(l: Layout, v: Drive, w: Drive, fat: seq<nat>, ch: seq<nat>, j: nat, sect: nat, clust: nat)
    requires Volume(l, v) && Volume(l, w) && fat == Fat(l, v) &&
             (if ch == [] then l.fsType != Fat32 else IsChain(fat, ch))
    requires AllClustersValid(l, ch) && OnTab(l, ch, j, sect, clust) && SameBut(v, w, sect, 1)
    ensures Fat(l, w) == fat && OthersKept(l, v, fat, ch, w, fat, ch)
  {
    hide Fat, IsChain, Disjoint;
    TabSectInside(l, v, ch, j);
    FatFrame(l, v, w);
    if ch == [] {
      forall other | IsChain(fat, other)
        ensures SameSectors(l, v, w, other) && Disjoint(other, ch)
      {
        ChainClustersValid(l, fat, other);
        RootApart(l, v, w, other, sect);
      }
    } else {
      UntouchedByWrite(l, v, w, fat, ch, j, 1);
      KeptIfUntouched(l, v, fat, ch, w, fat, ch);
    }
  }

  lemma RootApart(l: Layout, v: Drive, w: Drive, other: seq<nat>, sect: nat)
    requires Volume(l, v) && AllClustersValid(l, other) && sect < l.database && SameBut(v, w, sect, 1)
    ensures SameSectors(l, v, w, other) && Disjoint(other, [])
  {
    hide Volume, FileSect, HasSector, Layout.Sound;
    forall i: nat | HasSector(l, other, i)
      ensures FileSect(l, other, i) >= l.database
    {
      FileSectInside(l, v, other, i);
    }
  }

  ghost predicate NoneFree(t: seq<Dirent>, k: nat) {
    k <= |t| && forall j :: 0 <= j < k ==> !IsFree(t[j])
  }

  lemma NoneFreeStep(t: seq<Dirent>, k: nat)
    requires NoneFree(t, k) && k < |t| && !IsFree(t[k])
    ensures NoneFree(t, k + 1)
  {
  }

  lemma ExtendedIsFree(t: seq<Dirent>, u: seq<Dirent>)
    requires Extends(t, u) && |t| < |u|
    ensures IsFree(u[|t|])
  {
  }

  lemma IsFreeByte(e: Dirent)
    ensures IsFree(e) <==> e[0] == DDEM || e[0] == 0
  {
  }
}
