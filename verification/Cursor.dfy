/** The read/write position of an open file: which cluster and sector it sits in, and how it moves. */
module Cursor {
  import opened Words
  import opened Geometry
  import opened Window
  import opened FatEntry
  import opened Chains
  import opened Alloc
  import opened FileData

  /** The allocation of a file: start cluster, chain and size agree. */
  ghost predicate Allocated(l: Layout, fat: seq<nat>, ch: seq<nat>, sclust: nat, size: nat)
    requires l.csize > 0 && l.nFatent >= 2
    ensures Allocated(l, fat, ch, sclust, size) ==>
              |fat| == l.nFatent && Holds(l, ch, size) && AllClustersValid(l, ch) && size < U32
    ensures Allocated(l, fat, ch, sclust, size) ==>
              if ch == [] then sclust == 0 else IsChain(fat, ch) && ch[0] == sclust
  {
    && |fat| == l.nFatent
    && (if ch == [] then sclust == 0 else IsChain(fat, ch) && ch[0] == sclust)
    && Holds(l, ch, size) && size < U32
  }

  /** clust is the cluster that holds byte p. */
  ghost predicate OnCluster(l: Layout, ch: seq<nat>, p: nat, clust: nat)
    requires l.csize > 0
  {
    HasSector(l, ch, p / SS) && clust == ch[ClusterIx(l, p)]
  }

  /** sect is the sector that holds byte p. */
  ghost predicate OnSector(l: Layout, ch: seq<nat>, p: nat, sect: nat)
    requires l.csize > 0 && l.nFatent >= 2
  {
    HasSector(l, ch, p / SS) && sect == FileSect(l, ch, p / SS)
  }

  /** The position fields of a FIL agree with the chain ch of the file: clust is the cluster of byte fptr-1,
      and sect is the sector holding byte fptr whenever fptr is not sector aligned. */
  ghost predicate At(l: Layout, ch: seq<nat>, fptr: nat, clust: nat, sect: nat)
    requires l.csize > 0 && l.nFatent >= 2
  {
    && (fptr > 0 ==> OnCluster(l, ch, fptr - 1, clust))
    && (fptr % SS != 0 ==> OnSector(l, ch, fptr, sect))
  }

  lemma SectorOffset(l: Layout, p: nat)
    requires l.csize > 0 && PowerOfTwo(l.csize)
    ensures BitAnd(p / SS, l.csize - 1) == p / SS % l.csize
  {
    MaskIsRemainder(p / SS, l.csize);
  }

  lemma StepDiv(s: nat, c: nat)
    requires s > 0 && c > 0
    ensures s / c == (s - 1) / c + if s % c == 0 then 1 else 0
  {
    var q, r := (s - 1) / c, (s - 1) % c;
    assert s - 1 == c * q + r;
    if r + 1 < c {
      DivModUnique(s, c, q, r + 1);
    } else {
      assert c * (q + 1) == c * q + c;
      DivModUnique(s, c, q + 1, 0);
    }
  }

  /** Moving onto a sector boundary enters a new cluster exactly when the sector offset is 0. */
  lemma Boundary(l: Layout, p: nat)
    requires l.csize > 0 && p > 0 && p % SS == 0
    ensures ClusterIx(l, p) == ClusterIx(l, p - 1) + if p / SS % l.csize == 0 then 1 else 0
  {
    assert (p - 1) / SS == p / SS - 1;
    StepDiv(p / SS, l.csize);
  }

  lemma InsideSector(l: Layout, p: nat, w: nat)
    requires l.csize > 0 && w > 0 && p % SS + w <= SS
    ensures ClusterIx(l, p + w - 1) == ClusterIx(l, p)
    ensures (p + w) % SS != 0 ==> (p + w) / SS == p / SS
  {
    assert (p + w - 1) / SS == p / SS;
  }

  lemma InsideRun(l: Layout, p: nat, n: nat)
    requires l.csize > 0 && n > 0 && p % SS == 0 && p / SS % l.csize + n <= l.csize
    ensures ClusterIx(l, p + n * SS - 1) == ClusterIx(l, p) && (p + n * SS) % SS == 0
  {
    var s := p / SS;
    assert (p + n * SS - 1) / SS == s + n - 1;
    DivModUnique(s + n - 1, l.csize, s / l.csize, s % l.csize + n - 1);
  }

  lemma HoldsUpTo(l: Layout, ch: seq<nat>, size: nat, p: nat)
    requires l.csize > 0 && Holds(l, ch, size) && p <= size
    ensures Holds(l, ch, p) && (p < size ==> HasSector(l, ch, p / SS))
  {
    if p < size {
      HoldsByte(l, ch, size, p);
    }
    if p > 0 {
      HoldsByte(l, ch, size, p - 1);
    }
  }

  /** The position after n whole sectors of one cluster. */
  lemma AtAfterRun(l: Layout, ch: seq<nat>, p: nat, n: nat, clust: nat, sect: nat)
    requires l.csize > 0 && l.nFatent >= 2 && n > 0 && p % SS == 0 && p / SS % l.csize + n <= l.csize
    requires OnCluster(l, ch, p, clust)
    ensures At(l, ch, p + n * SS, clust, sect) && Holds(l, ch, p + n * SS)
  {
    InsideRun(l, p, n);
  }

  /** The position after w bytes of one sector. */
  lemma AtAfterPart(l: Layout, ch: seq<nat>, p: nat, w: nat, clust: nat, sect: nat)
    requires l.csize > 0 && l.nFatent >= 2 && w > 0 && p % SS + w <= SS
    requires OnCluster(l, ch, p, clust) && OnSector(l, ch, p, sect)
    ensures At(l, ch, p + w, clust, sect) && Holds(l, ch, p + w)
  {
    InsideSector(l, p, w);
  }

  /** In the middle of a sector, clust and sect of the previous byte are those of the next. */
  lemma AtInside(l: Layout, ch: seq<nat>, p: nat, clust: nat, sect: nat)
    requires l.csize > 0 && l.nFatent >= 2 && p % SS != 0 && At(l, ch, p, clust, sect)
    ensures OnCluster(l, ch, p, clust) && OnSector(l, ch, p, sect)
  {
    assert (p - 1) / SS == p / SS;
  }

  /** On a sector boundary inside a cluster, clust of the previous byte is that of the next. */
  lemma AtBoundary(l: Layout, ch: seq<nat>, p: nat, clust: nat, sect: nat)
    requires l.csize > 0 && l.nFatent >= 2 && p % SS == 0 && p / SS % l.csize != 0 && At(l, ch, p, clust, sect)
    ensures p > 0 && OnCluster(l, ch, p, clust)
  {
    Boundary(l, p);
  }

  /** On a cluster boundary clust is the cluster before. */
  lemma AtClusterBoundary(l: Layout, ch: seq<nat>, p: nat, clust: nat, sect: nat)
    requires l.csize > 0 && l.nFatent >= 2 && p > 0 && p % SS == 0 && p / SS % l.csize == 0 && At(l, ch, p, clust, sect)
    ensures 0 < ClusterIx(l, p) <= |ch| && clust == ch[ClusterIx(l, p) - 1]
  {
    Boundary(l, p);
  }

  lemma FirstCluster(l: Layout, ch: seq<nat>, sclust: nat)
    requires l.csize > 0 && ch != [] && ch[0] == sclust
    ensures OnCluster(l, ch, 0, sclust)
  {
    assert ClusterIx(l, 0) == 0;
  }

  /** Following the link of the cluster before leads to the cluster of byte p. */
  lemma NextCluster(l: Layout, fat: seq<nat>, ch: seq<nat>, p: nat, clust: nat)
    requires l.csize > 0 && IsChain(fat, ch) && 0 < ClusterIx(l, p) <= |ch| && clust == ch[ClusterIx(l, p) - 1]
    ensures 2 <= clust < |fat|
    ensures HasSector(l, ch, p / SS) ==> OnCluster(l, ch, p, fat[clust])
  {
  }

  lemma SectorHere(l: Layout, ch: seq<nat>, p: nat, clust: nat)
    requires l.csize > 0 && l.nFatent >= 2 && OnCluster(l, ch, p, clust)
    ensures OnSector(l, ch, p, Clust2Sect(l, clust) + p / SS % l.csize)
  {
  }

  lemma SectorInside(l: Layout, v: Drive, ch: seq<nat>, p: nat, s: nat, n: nat)
    requires Volume(l, v) && AllClustersValid(l, ch) && OnSector(l, ch, p, s) && p / SS % l.csize + n <= l.csize
    ensures l.database <= s && s + n <= |v| && s < |v|
  {
    hide Layout.Sound, Fits, Clust2Sect;
    var i := p / SS;
    FileSectInside(l, v, ch, i);
    if n > 0 {
      ClusterInside(l, ch[i / l.csize], i % l.csize + n - 1);
    }
  }

  /** Bytes of the file inside one sector. */
  lemma PartBytes(l: Layout, v: Drive, ch: seq<nat>, size: nat, p: nat, s: nat, i: nat)
    requires Volume(l, v) && AllClustersValid(l, ch) && Holds(l, ch, size) && OnSector(l, ch, p, s) && s < |v|
    requires p % SS + i < SS && p + i < size
    ensures Content(l, v, ch, size)[p + i] == v[s][p % SS + i]
  {
    hide Volume, Content, Holds;
    ContentAt(l, v, ch, size, p + i);
    assert (p + i) / SS == p / SS && (p + i) % SS == p % SS + i;
  }

  /** Bytes of the file in n whole sectors of one cluster. */
  lemma RunBytes(l: Layout, v: Drive, ch: seq<nat>, size: nat, p: nat, s: nat, n: nat, i: nat)
    requires Volume(l, v) && AllClustersValid(l, ch) && Holds(l, ch, size) && OnSector(l, ch, p, s)
    requires p % SS == 0 && p / SS % l.csize + n <= l.csize && p + n * SS <= size && i < n * SS
    ensures s + i / SS < |v| && Content(l, v, ch, size)[p + i] == v[s + i / SS][i % SS]
  {
    hide Volume, Content, Holds;
    ContentAt(l, v, ch, size, p + i);
    assert (p + i) / SS == p / SS + i / SS && (p + i) % SS == i % SS;
    SameCluster(l, ch, p / SS, i / SS);
    FileSectInside(l, v, ch, p / SS + i / SS);
  }

  /** The chain after its cluster number k has been asked for. */
  ghost function Stretch(ch: seq<nat>, k: nat, r: nat): seq<nat>
    requires k <= |ch|
  {
    if k < |ch| then ch else ch + [r]
  }

  lemma StretchPrefix(ch: seq<nat>, k: nat, r: nat)
    requires k <= |ch|
    ensures ch <= Stretch(ch, k, r)
  {
  }

  /** create_chain called on the cluster before number k of a chain: it follows the chain or stretches it by
      one cluster. */
  method ExtendChain(fs: FatFs, clst: nat, ghost ch: seq<nat>, ghost k: nat) returns (r: nat)
    requires fs.Valid() && Volume(fs.layout, fs.View())
    requires k <= |ch| && (ch == [] || IsChain(FatOf(fs), ch))
    requires if k == 0 then clst == 0 && ch == [] else clst == ch[k - 1]
    modifies fs, fs.win
    ensures fs.Valid() && Volume(fs.layout, fs.View()) && |fs.View()| == |old(fs.View())|
    ensures FatOf(fs) == CreateFat(old(FatOf(fs)), clst, old(fs.lastClst), fs.layout.Eoc())
    ensures r == CreateResult(old(FatOf(fs)), clst, old(fs.lastClst))
    ensures r >= 2 && k == |ch| ==> fs.lastClst == r
    ensures r < 2 ==> k == |ch| && fs.View() == old(fs.View()) && fs.CountersUnchanged()
    ensures r == 0 ==> FreeSet(FatOf(fs)) == {}
    ensures r == 1 ==> exists c :: 2 <= c < fs.layout.nFatent && FatOf(fs)[c] == 1
    ensures r >= 2 ==> IsChain(FatOf(fs), Stretch(ch, k, r)) && Stretch(ch, k, r)[k] == r
    ensures r >= 2 ==> Untouched(fs.layout, old(fs.View()), old(FatOf(fs)), ch, fs.View(), FatOf(fs), Stretch(ch, k, r))
    ensures AllClustersValid(fs.layout, ch) && SameSectors(fs.layout, old(fs.View()), fs.View(), ch)
    ensures k < |ch| ==> r >= 2 && fs.View() == old(fs.View()) && fs.CountersUnchanged()
  {
    hide FatFs.Valid, FatFs.View, FatFs.Shaped, Mirrored, Fits, Layout.Sound, Volume, Fat, Untouched, SameOutsideFat,
         SameSectors;
    SoundFacts(fs.layout);
    ghost var l, v, f, last := fs.layout, fs.View(), FatOf(fs), fs.lastClst;
    r := CreateChain(fs, clst);
    VolumeSameSize(l, v, fs.View());
    ExtendChainValue(f, ch, k, clst, last, l.Eoc());
    if ch != [] {
      ChainClustersValid(l, f, ch);
    }
    SameOutsideFatSameSectors(l, v, fs.View(), f, ch);
    if r >= 2 {
      if k < |ch| {
        UntouchedRefl(l, v, f, ch);
      } else {
        UntouchedByCreate(l, v, fs.View(), f, ch, last, l.Eoc());
      }
    }
  }

  lemma ExtendChainValue(fat: seq<nat>, ch: seq<nat>, k: nat, clst: nat, last: nat, eoc: nat)
    requires |fat| >= 3 && k <= |ch| && (ch == [] || IsChain(fat, ch)) && eoc >= |fat|
    requires if k == 0 then clst == 0 && ch == [] else clst == ch[k - 1]
    ensures var r := CreateResult(fat, clst, last);
            && (k < |ch| ==> r == ch[k] >= 2 && !Allocates(fat, clst, last))
            && (k == |ch| && r >= 2 ==> Allocates(fat, clst, last))
            && (r == 0 ==> FreeSet(fat) == {})
            && (r == 1 ==> exists c :: 2 <= c < |fat| && fat[c] == 1)
            && (r < 2 ==> CreateFat(fat, clst, last, eoc) == fat)
            && clst == if ch == [] then 0 else if k == |ch| then ch[|ch| - 1] else clst
  {
    if k < |ch| {
      CreateFollows(fat, ch, k - 1, last, eoc);
      assert fat[ch[k - 1]] == ch[k];
    } else {
      var scl := if clst == 0 then Hint(|fat|, last) else clst;
      assert CreateResult(fat, clst, last) == Search(fat, scl, 0);
      SearchExhaustive(fat, scl);
      SearchFirst(fat, scl, 0);
      if CreateResult(fat, clst, last) == 0 {
        forall c | c in FreeSet(fat)
          ensures false
        {
        }
      }
    }
  }

  lemma OnClusterFacts(l: Layout, ch: seq<nat>, p: nat, clust: nat)
    requires l.csize > 0 && OnCluster(l, ch, p, clust)
    ensures ClusterIx(l, p) < |ch| && HasSector(l, ch, p / SS)
  {
  }

  lemma OnSectorFacts(l: Layout, ch: seq<nat>, p: nat, s: nat)
    requires l.csize > 0 && l.nFatent >= 2 && OnSector(l, ch, p, s)
    ensures HasSector(l, ch, p / SS) && s == FileSect(l, ch, p / SS) && ch != []
  {
  }

  lemma SectorRoom(l: Layout, p: nat)
    requires l.csize > 0
    ensures p / SS % l.csize + 1 <= l.csize
  {
  }

  lemma AllocatedChain(l: Layout, fat: seq<nat>, ch: seq<nat>, sclust: nat, size: nat)
    requires l.csize > 0 && l.nFatent >= 2 && Allocated(l, fat, ch, sclust, size)
    ensures ch == [] || IsChain(fat, ch)
  {
  }

  lemma NoCluster(l: Layout, fat: seq<nat>, ch: seq<nat>, sclust: nat, size: nat)
    requires l.csize > 0 && l.nFatent >= 2 && Allocated(l, fat, ch, sclust, size) && sclust == 0
    ensures ch == [] && ClusterIx(l, 0) == 0
  {
  }

  lemma AllocatedSize(l: Layout, fat: seq<nat>, ch: seq<nat>, sclust: nat, size: nat, size': nat)
    requires l.csize > 0 && l.nFatent >= 2 && Allocated(l, fat, ch, sclust, size) && Holds(l, ch, size') && size' < U32
    ensures Allocated(l, fat, ch, sclust, size')
  {
  }

  lemma HoldsMax(l: Layout, ch: seq<nat>, a: nat, b: nat)
    requires l.csize > 0 && Holds(l, ch, a) && Holds(l, ch, b)
    ensures Holds(l, ch, Max(a, b))
  {
  }

  lemma StretchedIsAllocated(l: Layout, fat: seq<nat>, ch: seq<nat>, k: nat, r: nat, sclust: nat, size: nat,
                             fat': seq<nat>)
    requires l.csize > 0 && l.nFatent >= 2 && Allocated(l, fat, ch, sclust, size) && k <= |ch| && |fat'| == |fat|
    requires (k == 0 ==> ch == []) && IsChain(fat', Stretch(ch, k, r)) && Holds(l, Stretch(ch, k, r), size)
    ensures Allocated(l, fat', Stretch(ch, k, r), if sclust == 0 then r else sclust, size)
    ensures ch <= Stretch(ch, k, r)
  {
    if ch != [] {
      assert ch[0] >= 2;
    }
  }

  lemma StretchReaches(l: Layout, ch: seq<nat>, k: nat, r: nat, p: nat)
    requires l.csize > 0 && k <= |ch| && k == ClusterIx(l, p) && Stretch(ch, k, r)[k] == r
    ensures OnCluster(l, Stretch(ch, k, r), p, r) && |Stretch(ch, k, r)| == Max(|ch|, k + 1)
  {
  }

  /** Number of clusters the first size bytes of a file take. */
  function ClustersFor(l: Layout, size: nat): nat
    requires l.csize > 0
  {
    if size == 0 then 0 else ClusterIx(l, size - 1) + 1
  }

  lemma ClustersUpTo(l: Layout, ch: seq<nat>, p: nat, clust: nat, sect: nat)
    requires l.csize > 0 && l.nFatent >= 2 && At(l, ch, p, clust, sect)
    ensures ClustersFor(l, p) <= |ch|
  {
  }

  /** So many bytes fit into k clusters when k are as many as they take. */
  lemma FitsClusters(l: Layout, size: nat, k: nat)
    requires l.csize > 0
    ensures ClustersFor(l, size) <= k <==> size <= k * (512 * l.csize)
  {
    MulMonotone(512 * l.csize, 0, k);
    if size > 0 {
      ByClusterBytes(l, size - 1);
      InFirstBlocks(size - 1, 512 * l.csize, k);
    }
  }

  /** A place lies in the first k blocks when its block number is below k. */
  lemma InFirstBlocks(x: nat, b: nat, k: nat)
    requires b > 0
    ensures x / b < k <==> x < k * b
  {
    if x / b < k {
      MulMonotone(b, x / b + 1, k);
    } else {
      MulMonotone(b, k, x / b);
    }
    assert x == b * (x / b) + x % b;
  }

  /** A chain holds so many bytes as fit into its clusters. */
  lemma HoldsThose(l: Layout, ch: seq<nat>, size: nat)
    requires l.csize > 0
    ensures Holds(l, ch, size) <==> size <= |ch| * (512 * l.csize)
  {
    FitsClusters(l, size, |ch|);
  }

  /** The end of the last cluster. */
  lemma EndOfChain(l: Layout, n: nat, p: nat)
    requires l.csize > 0 && p % SS == 0 && p / SS % l.csize == 0 && ClusterIx(l, p) == n
    ensures p == n * l.ClusterBytes()
  {
    assert p / SS == l.csize * n;
    assert p == SS * (l.csize * n);
    assert n * (l.csize * SS) == SS * (l.csize * n);
  }

  lemma RunClusters(l: Layout, p: nat, n: nat)
    requires l.csize > 0 && n > 0 && p % SS == 0 && p / SS % l.csize + n <= l.csize
    ensures ClustersFor(l, p + n * SS) == ClusterIx(l, p) + 1
  {
    InsideRun(l, p, n);
  }

  lemma PartClusters(l: Layout, p: nat, w: nat)
    requires l.csize > 0 && w > 0 && p % SS + w <= SS
    ensures ClustersFor(l, p + w) == ClusterIx(l, p) + 1
  {
    InsideSector(l, p, w);
  }

  lemma ClustersGrow(l: Layout, p: nat, q: nat)
    requires l.csize > 0 && p <= q
    ensures ClustersFor(l, p) <= ClustersFor(l, q)
  {
    if p > 0 {
      DivMonotone((p - 1) / SS, (q - 1) / SS, l.csize);
    }
  }

  /** Another open file keeps its allocation and its bytes through anything that keeps all other chains. */
  lemma OtherFileKept(l: Layout, v: Drive, fat: seq<nat>, ch0: seq<nat>, w: Drive, fat': seq<nat>, ch: seq<nat>,
                      other: seq<nat>, sclust: nat, size: nat)
    requires Volume(l, v) && Volume(l, w) && |w| == |v| && |fat'| == |fat| && ChainsKept(l, v, fat, ch0, w, fat', ch)
    requires Allocated(l, fat, other, sclust, size) && Disjoint(other, ch0)
    ensures Allocated(l, fat', other, sclust, size) && Disjoint(other, ch)
    ensures Content(l, w, other, size) == Content(l, v, other, size)
  {
    hide Volume, Content, Holds, IsChain, ChainsKept, SameSectors, Disjoint;
    if other == [] {
      NoSectors(l, v, w, ch);
    } else {
      KeptChain(l, v, fat, ch0, w, fat', ch, other);
    }
    SameSectorsSameContent(l, v, w, other, size);
  }

  lemma KeptChain(l: Layout, v: Drive, fat: seq<nat>, ch0: seq<nat>, w: Drive, fat': seq<nat>, ch: seq<nat>,
                  other: seq<nat>)
    requires l.csize > 0 && l.nFatent >= 2 && ChainsKept(l, v, fat, ch0, w, fat', ch)
    requires IsChain(fat, other) && Disjoint(other, ch0)
    ensures IsChain(fat', other) && Disjoint(other, ch) && SameSectors(l, v, w, other)
  {
    hide IsChain, SameSectors, Disjoint;
  }

  lemma NoSectors(l: Layout, v: Drive, w: Drive, ch: seq<nat>)
    requires l.csize > 0 && l.nFatent >= 2 && |v| == |w|
    ensures SameSectors(l, v, w, []) && Disjoint([], ch)
  {
    hide FileSect;
    assert forall i: nat :: !HasSector(l, [], i);
  }

  lemma ByClusterBytes(l: Layout, x: nat)
    requires l.csize > 0
    ensures l.ClusterBytes() > 0 && x / l.ClusterBytes() == ClusterIx(l, x)
  {
    SplitMod(x, SS, l.csize);
  }

  /** The last byte before offset ofs of cluster number j. */
  lemma InCluster(l: Layout, j: nat, ofs: nat)
    requires l.csize > 0 && 0 < ofs <= l.ClusterBytes()
    ensures var p := j * l.ClusterBytes() + ofs;
            && ClusterIx(l, p - 1) == j && p % SS == ofs % SS
            && (ofs % SS != 0 ==> ClusterIx(l, p) == j && p / SS % l.csize == ofs / SS)
  {
    var b := l.ClusterBytes();
    var p := j * b + ofs;
    assert p - 1 == b * j + (ofs - 1);
    DivModUnique(p - 1, b, j, ofs - 1);
    ByClusterBytes(l, p - 1);
    var q := l.csize * j;
    assert j * b == SS * q;
    DivModUnique(p, SS, q + ofs / SS, ofs % SS);
    if ofs % SS != 0 {
      assert ofs / SS < l.csize;
      DivModUnique(p / SS, l.csize, j, ofs / SS);
    }
  }

  lemma BeyondCluster(l: Layout, j: nat, ofs: nat)
    requires l.csize > 0 && ofs > l.ClusterBytes()
    ensures ClusterIx(l, j * l.ClusterBytes() + ofs - 1) > j
  {
    var b := l.ClusterBytes();
    var p := (j + 1) * b + 1;
    InCluster(l, j + 1, 1);
    assert p == j * b + b + 1;
    DivMonotone((p - 1) / SS, (j * b + ofs - 1) / SS, l.csize);
  }
}
