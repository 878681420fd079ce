/** The bytes of a file: where its cluster chain puts them on the volume, and what writing a sector does to them. */
module FileData {
  import opened Words
  import opened Geometry
  import opened Window
  import opened FatEntry
  import opened Chains
  import opened Alloc

  /** A volume all of whose clusters exist on the drive. */
  predicate Volume(l: Layout, v: Drive)
    ensures Volume(l, v) ==> Fits(l, v) && l.Sound() && 1 <= l.csize <= 128 && 3 <= l.nFatent
  {
    Fits(l, v) && l.Sound() && l.End() <= |v|
  }

  /** An addressable volume that is mounted from a drive with all its sectors is one. */
  lemma MountedIsVolume(b: Bpb, bsect: nat, l: Layout, v: Drive)
    requires b.FieldWidths() && FindVolume(b, bsect) == Mounted(l) && b.secPerClus > 0 && b.Addressable(bsect)
    requires bsect + (if b.totSec16 == 0 then b.totSec32 else b.totSec16) <= |v| < U32
    ensures Volume(l, v)
  {
    hide FindVolume, Layout.Sound, Bpb.Addressable, Bpb.SystemSectors;
    MountedIsSound(b, bsect);
    SoundFacts(l);
    MulMonotone(l.csize, 0, l.nFatent - 2);
  }

  /** Position in the chain of the cluster that holds byte o. */
  function ClusterIx(l: Layout, o: nat): nat
    requires l.csize > 0
  {
    o / SS / l.csize
  }

  /** The chain has room for size bytes. */
  predicate Holds(l: Layout, ch: seq<nat>, size: nat)
    requires l.csize > 0
  {
    size == 0 || ClusterIx(l, size - 1) < |ch|
  }

  predicate AllClustersValid(l: Layout, ch: seq<nat>) {
    forall i :: 0 <= i < |ch| ==> 2 <= ch[i] < l.nFatent
  }

  predicate HasSector(l: Layout, ch: seq<nat>, i: nat)
    requires l.csize > 0
  {
    i / l.csize < |ch|
  }

  /** The sector of the volume that is sector i of the file. */
  function FileSect(l: Layout, ch: seq<nat>, i: nat): nat
    requires l.csize > 0 && l.nFatent >= 2 && HasSector(l, ch, i)
  {
    Clust2Sect(l, ch[i / l.csize]) + i % l.csize
  }

  lemma FileSectInside(l: Layout, v: Drive, ch: seq<nat>, i: nat)
    requires Volume(l, v) && AllClustersValid(l, ch) && HasSector(l, ch, i)
    ensures l.database <= FileSect(l, ch, i) < |v|
    ensures !l.IsFatSector(FileSect(l, ch, i)) && !l.IsMirrorSector(FileSect(l, ch, i))
  {
    hide Layout.Sound, Fits;
    ClusterInside(l, ch[i / l.csize], i % l.csize);
    DataSector(l, FileSect(l, ch, i));
  }

  /** Sectors of the data area are not part of any FAT. */
  lemma DataSector(l: Layout, s: nat)
    requires l.Sound() && l.database <= s
    ensures !l.IsFatSector(s) && !l.IsMirrorSector(s)
  {
  }

  /** Two file sectors coincide only if they are the same sector of the same cluster. */
  lemma FileSectsApart(l: Layout, a: seq<nat>, b: seq<nat>, i: nat, j: nat)
    requires l.csize > 0 && l.nFatent >= 2 && AllClustersValid(l, a) && AllClustersValid(l, b)
    requires HasSector(l, a, i) && HasSector(l, b, j)
    requires FileSect(l, a, i) == FileSect(l, b, j)
    ensures a[i / l.csize] == b[j / l.csize] && i % l.csize == j % l.csize
  {
    hide Clust2Sect;
    ClustersApart(l, a[i / l.csize], b[j / l.csize], i % l.csize, j % l.csize);
  }

  lemma FileSectInjective(l: Layout, fat: seq<nat>, ch: seq<nat>, i: nat, j: nat)
    requires l.csize > 0 && l.nFatent >= 2 && |fat| == l.nFatent && IsChain(fat, ch)
    requires HasSector(l, ch, i) && HasSector(l, ch, j)
    requires FileSect(l, ch, i) == FileSect(l, ch, j)
    ensures i == j
  {
    hide FileSect;
    FileSectsApart(l, ch, ch, i, j);
    SamePlace(ch, i / l.csize, j / l.csize);
    assert i == l.csize * (i / l.csize) + i % l.csize && j == l.csize * (j / l.csize) + j % l.csize;
  }

  lemma SamePlace(ch: seq<nat>, a: nat, b: nat)
    requires (forall i, j :: 0 <= i < j < |ch| ==> ch[i] != ch[j]) && a < |ch| && b < |ch| && ch[a] == ch[b]
    ensures a == b
  {
  }

  function ByteAt(l: Layout, v: Drive, ch: seq<nat>, o: nat): byte
    requires Volume(l, v) && AllClustersValid(l, ch) && HasSector(l, ch, o / SS)
  {
    FileSectInside(l, v, ch, o / SS);
    v[FileSect(l, ch, o / SS)][o % SS]
  }

  lemma HoldsByte(l: Layout, ch: seq<nat>, size: nat, o: nat)
    requires l.csize > 0 && Holds(l, ch, size) && o < size
    ensures HasSector(l, ch, o / SS)
  {
    DivMonotone(o / SS, (size - 1) / SS, l.csize);
  }

  /** The first size bytes of the file. */
  function Content(l: Layout, v: Drive, ch: seq<nat>, size: nat): (c: seq<byte>)
    requires Volume(l, v) && AllClustersValid(l, ch) && Holds(l, ch, size)
    ensures |c| == size
  {
    assert forall o: nat | o < size :: HasSector(l, ch, o / SS) by {
      forall o: nat | o < size
        ensures HasSector(l, ch, o / SS)
      {
        HoldsByte(l, ch, size, o);
      }
    }
    seq(size, o requires 0 <= o < size => ByteAt(l, v, ch, o))
  }

  lemma ContentAt(l: Layout, v: Drive, ch: seq<nat>, size: nat, o: nat)
    requires Volume(l, v) && AllClustersValid(l, ch) && Holds(l, ch, size) && o < size
    ensures HasSector(l, ch, o / SS) && Content(l, v, ch, size)[o] == ByteAt(l, v, ch, o)
  {
    HoldsByte(l, ch, size, o);
  }

  /** Byte r of cluster number k of a file lies in sector r / 512 of that cluster. */
  lemma PlaceOfByte(csize: nat, k: nat, r: nat)
    requires csize > 0 && r < 512 * csize
    ensures var o := k * (512 * csize) + r;
            o / SS / csize == k && o / SS % csize == r / 512 && o % SS == r % 512 && o / SS == k * csize + r / 512
  {
    var o := k * (512 * csize) + r;
    assert o == 512 * (k * csize + r / 512) + r % 512;
    DivModUnique(o, 512, k * csize + r / 512, r % 512);
    assert k * csize == csize * k;
    DivModUnique(k * csize + r / 512, csize, k, r / 512);
  }

  /** Where the bytes of a file are: byte r of its cluster number k is byte r % 512 of sector r / 512 of that cluster,
      and the clusters lie one after the other from the data area on, beginning with cluster 2. */
  lemma ByteOnDisk(l: Layout, v: Drive, ch: seq<nat>, size: nat, o: nat, k: nat, r: nat)
    returns (s: nat)
    requires Volume(l, v) && AllClustersValid(l, ch) && Holds(l, ch, size)
    requires r < 512 * l.csize && o == k * (512 * l.csize) + r && o < size
    ensures k < |ch| && s == l.database + (ch[k] - 2) * l.csize + r / 512
    ensures s < |v| && Content(l, v, ch, size)[o] == v[s][r % 512]
  {
    PlaceOfByte(l.csize, k, r);
    hide Volume, Layout.Sound, Content;
    ContentAt(l, v, ch, size, o);
    s := FileSect(l, ch, o / SS);
    FileSectInside(l, v, ch, o / SS);
    hide Holds, ByteAt;
    ClusterStart(l, ch[k]);
  }

  /** A file on clusters that follow each other is the sectors from the first of them on, in their order. */
  lemma ConsecutiveFile(l: Layout, v: Drive, ch: seq<nat>, size: nat, o: nat) returns (s: nat)
    requires Volume(l, v) && AllClustersValid(l, ch) && Holds(l, ch, size) && o < size
    requires forall i :: 0 <= i < |ch| ==> ch[i] == ch[0] + i
    ensures ch != [] && s == l.database + (ch[0] - 2) * l.csize + o / 512
    ensures s < |v| && Content(l, v, ch, size)[o] == v[s][o % 512]
  {
    hide Volume, Content, Holds;
    var k, r := InClusters(o, l.csize);
    s := ByteOnDisk(l, v, ch, size, o, k, r);
    SectorInRun(l.csize, ch[0], k, r, ch[k], o);
  }

  lemma InClusters(o: nat, csize: nat) returns (k: nat, r: nat)
    requires csize > 0
    ensures r < 512 * csize && o == k * (512 * csize) + r
  {
    k, r := o / (512 * csize), o % (512 * csize);
  }

  lemma SectorInRun(csize: nat, c: nat, k: nat, r: nat, d: nat, o: nat)
    requires csize > 0 && c >= 2 && d == c + k && r < 512 * csize && o == k * (512 * csize) + r
    ensures (d - 2) * csize + r / 512 == (c - 2) * csize + o / 512 && o % 512 == r % 512
  {
    PlaceOfByte(csize, k, r);
    assert (c + k - 2) * csize == (c - 2) * csize + k * csize;
  }

  /** No reserved sector changes, nor anything between the FATs and the data. */
  lemma ReservedKept(l: Layout, v: Drive, fat: seq<nat>, ch0: seq<nat>, w: Drive, fat': seq<nat>, ch: seq<nat>)
    requires l.csize > 0 && l.nFatent >= 2 && Untouched(l, v, fat, ch0, w, fat', ch)
    ensures |w| == |v|
    ensures forall s :: 0 <= s < |v| && s < l.fatbase && s < l.database ==> w[s] == v[s]
    ensures forall s :: 0 <= s < |v| && l.fatbase + l.nFats * l.fsize <= s < l.database && l.nFats in {1, 2} ==>
              w[s] == v[s]
  {
    hide ChainsKept;
  }

  /** Overwriting, and if need be extending, a byte string at position p. */
  function Splice(c: seq<byte>, p: nat, d: seq<byte>): (r: seq<byte>)
    requires p <= |c|
    ensures |r| == Max(|c|, p + |d|)
    ensures forall o {:trigger r[o]} :: 0 <= o < |r| ==> r[o] == if p <= o < p + |d| then d[o - p] else c[o]
  {
    c[..p] + d + if p + |d| < |c| then c[p + |d|..] else []
  }

  /** Two writes one after the other are one write of the joined data. */
  lemma SpliceTwice(c: seq<byte>, p: nat, d: seq<byte>, e: seq<byte>)
    requires p <= |c|
    ensures Splice(Splice(c, p, d), p + |d|, e) == Splice(c, p, d + e)
  {
  }

  lemma ContentTake(l: Layout, v: Drive, ch: seq<nat>, a: nat, b: nat)
    requires Volume(l, v) && AllClustersValid(l, ch) && Holds(l, ch, a) && Holds(l, ch, b) && a <= b
    ensures Content(l, v, ch, b)[..a] == Content(l, v, ch, a)
  {
    hide Volume, Content, Holds;
    forall o: nat | o < a
      ensures Content(l, v, ch, b)[o] == Content(l, v, ch, a)[o]
    {
      ContentAt(l, v, ch, a, o);
      ContentAt(l, v, ch, b, o);
    }
  }

  lemma SpliceNothing(c: seq<byte>, p: nat, d: seq<byte>)
    requires p <= |c| && |d| == 0
    ensures Splice(c, p, d) == c
  {
  }

  /** The volumes agree on all sectors of the chain. */
  ghost predicate SameSectors(l: Layout, v: Drive, w: Drive, ch: seq<nat>)
    requires l.csize > 0 && l.nFatent >= 2
  {
    |v| == |w| &&
    forall i: nat {:trigger FileSect(l, ch, i)} ::
      HasSector(l, ch, i) && FileSect(l, ch, i) < |v| ==> v[FileSect(l, ch, i)] == w[FileSect(l, ch, i)]
  }

  lemma SameSectorsSameContent(l: Layout, v: Drive, w: Drive, ch: seq<nat>, size: nat)
    requires Volume(l, v) && Volume(l, w) && AllClustersValid(l, ch) && Holds(l, ch, size)
    requires SameSectors(l, v, w, ch)
    ensures Content(l, v, ch, size) == Content(l, w, ch, size)
  {
    hide Volume, Content;
    forall o: nat | o < size
      ensures Content(l, v, ch, size)[o] == Content(l, w, ch, size)[o]
    {
      ContentAt(l, v, ch, size, o);
      ContentAt(l, w, ch, size, o);
      FileSectInside(l, v, ch, o / SS);
    }
  }

  /** A chain that grows at its end keeps the bytes it held. */
  lemma ContentOfPrefix(l: Layout, v: Drive, ch: seq<nat>, more: seq<nat>, size: nat)
    requires Volume(l, v) && AllClustersValid(l, ch) && AllClustersValid(l, more) && Holds(l, ch, size)
    ensures Holds(l, ch + more, size) && AllClustersValid(l, ch + more)
    ensures Content(l, v, ch + more, size) == Content(l, v, ch, size)
  {
    hide Volume, Content;
    forall o: nat | o < size
      ensures Content(l, v, ch + more, size)[o] == Content(l, v, ch, size)[o]
    {
      ContentAt(l, v, ch, size, o);
      ContentAt(l, v, ch + more, size, o);
    }
  }

  /** How the bytes of a file change decides its new content. */
  lemma ContentSpliced(l: Layout, v: Drive, w: Drive, ch: seq<nat>, size: nat, p: nat, d: seq<byte>)
    requires Volume(l, v) && Volume(l, w) && AllClustersValid(l, ch) && p <= size
    requires Holds(l, ch, size) && Holds(l, ch, Max(size, p + |d|))
    requires forall o: nat :: o < Max(size, p + |d|) && HasSector(l, ch, o / SS) ==>
               ByteAt(l, w, ch, o) == if p <= o < p + |d| then d[o - p] else ByteAt(l, v, ch, o)
    ensures Content(l, w, ch, Max(size, p + |d|)) == Splice(Content(l, v, ch, size), p, d)
  {
    hide Volume, Content, ByteAt, Holds;
    var size' := Max(size, p + |d|);
    forall o: nat | o < size'
      ensures Content(l, w, ch, size')[o] == Splice(Content(l, v, ch, size), p, d)[o]
    {
      ContentAt(l, w, ch, size', o);
      if o < size {
        ContentAt(l, v, ch, size, o);
      }
    }
  }

  /** What a write of d at p into one sector must look like. */
  ghost predicate SectorPatched(l: Layout, v: Drive, w: Drive, s: nat, size: nat, p: nat, d: seq<byte>) {
    && 0 < |d| && p % SS + |d| <= SS && s < |v| && SameBut(v, w, s, 1)
    && w[s][p % SS..p % SS + |d|] == d
    && forall k :: 0 <= k < SS && !(p % SS <= k < p % SS + |d|) && p - p % SS + k < size ==> w[s][k] == v[s][k]
  }

  /** One sector rewritten: the bytes of d land at p; around them the sector keeps what belongs to the file. */
  lemma SectorWritten(l: Layout, v: Drive, w: Drive, fat: seq<nat>, ch: seq<nat>, size: nat, p: nat, d: seq<byte>)
    requires Volume(l, v) && Volume(l, w) && |fat| == l.nFatent && IsChain(fat, ch) && p <= size
    requires Holds(l, ch, size) && Holds(l, ch, Max(size, p + |d|)) && HasSector(l, ch, p / SS)
    requires SectorPatched(l, v, w, FileSect(l, ch, p / SS), size, p, d)
    ensures Content(l, w, ch, Max(size, p + |d|)) == Splice(Content(l, v, ch, size), p, d)
  {
    hide Content, Volume, Holds, SectorPatched, FileSect, HasSector, ByteAt, IsChain;
    ChainClustersValid(l, fat, ch);
    forall o: nat | o < Max(size, p + |d|) && HasSector(l, ch, o / SS)
      ensures ByteAt(l, w, ch, o) == if p <= o < p + |d| then d[o - p] else ByteAt(l, v, ch, o)
    {
      SectorWrittenByte(l, v, w, fat, ch, size, p, d, o);
    }
    ContentSpliced(l, v, w, ch, size, p, d);
  }

  lemma ChainClustersValid(l: Layout, fat: seq<nat>, ch: seq<nat>)
    requires |fat| == l.nFatent && IsChain(fat, ch)
    ensures AllClustersValid(l, ch)
  {
  }

  lemma SectorWrittenByte(l: Layout, v: Drive, w: Drive, fat: seq<nat>, ch: seq<nat>, size: nat, p: nat, d: seq<byte>,
                          o: nat)
    requires Volume(l, v) && Volume(l, w) && |fat| == l.nFatent && IsChain(fat, ch) && AllClustersValid(l, ch)
    requires HasSector(l, ch, p / SS) && HasSector(l, ch, o / SS) && p <= size && o < Max(size, p + |d|)
    requires SectorPatched(l, v, w, FileSect(l, ch, p / SS), size, p, d)
    ensures ByteAt(l, w, ch, o) == if p <= o < p + |d| then d[o - p] else ByteAt(l, v, ch, o)
  {
    hide Volume, FileSect, HasSector, IsChain;
    var s := FileSect(l, ch, p / SS);
    FileSectInside(l, v, ch, o / SS);
    if o / SS == p / SS {
      assert o - o % SS == p - p % SS;
      if p <= o < p + |d| {
        assert w[s][o % SS] == w[s][p % SS..p % SS + |d|][o - p];
      } else {
        var k := o % SS;
        assert w[s][k] == v[s][k];
      }
    } else if FileSect(l, ch, o / SS) == s {
      FileSectInjective(l, fat, ch, o / SS, p / SS);
    }
  }

  lemma SameCluster(l: Layout, ch: seq<nat>, i: nat, k: nat)
    requires l.csize > 0 && l.nFatent >= 2 && HasSector(l, ch, i) && i % l.csize + k < l.csize
    ensures HasSector(l, ch, i + k) && FileSect(l, ch, i + k) == FileSect(l, ch, i) + k
  {
    DivModUnique(i + k, l.csize, i / l.csize, i % l.csize + k);
  }

  /** What a direct write of the n sectors of d from sector s on must look like. */
  ghost predicate SectorsPatched(v: Drive, w: Drive, s: nat, n: nat, d: seq<byte>) {
    && 0 < n && |d| == n * SS && s + n <= |v| && SameBut(v, w, s, n)
    && forall k: nat :: k < n ==> w[s + k] == d[k * SS..k * SS + SS]
  }

  /** n whole sectors of one cluster rewritten. */
  lemma SectorsWritten(l: Layout, v: Drive, w: Drive, fat: seq<nat>, ch: seq<nat>, size: nat, p: nat, n: nat,
                       d: seq<byte>)
    requires Volume(l, v) && Volume(l, w) && |fat| == l.nFatent && IsChain(fat, ch) && p <= size
    requires Holds(l, ch, size) && Holds(l, ch, Max(size, p + |d|)) && p % SS == 0
    requires HasSector(l, ch, p / SS) && p / SS % l.csize + n <= l.csize
    requires SectorsPatched(v, w, FileSect(l, ch, p / SS), n, d)
    ensures Content(l, w, ch, Max(size, p + |d|)) == Splice(Content(l, v, ch, size), p, d)
  {
    hide Content, Volume, Holds, SectorsPatched, FileSect, HasSector, ByteAt, IsChain;
    ChainClustersValid(l, fat, ch);
    forall o: nat | o < Max(size, p + |d|) && HasSector(l, ch, o / SS)
      ensures ByteAt(l, w, ch, o) == if p <= o < p + |d| then d[o - p] else ByteAt(l, v, ch, o)
    {
      SectorsWrittenByte(l, v, w, fat, ch, size, p, n, d, o);
    }
    ContentSpliced(l, v, w, ch, size, p, d);
  }

  lemma SectorsWrittenByte(l: Layout, v: Drive, w: Drive, fat: seq<nat>, ch: seq<nat>, size: nat, p: nat, n: nat,
                           d: seq<byte>, o: nat)
    requires Volume(l, v) && Volume(l, w) && |fat| == l.nFatent && IsChain(fat, ch) && AllClustersValid(l, ch)
    requires p % SS == 0 && HasSector(l, ch, p / SS) && HasSector(l, ch, o / SS) && o < Max(size, p + |d|)
    requires p / SS % l.csize + n <= l.csize
    requires SectorsPatched(v, w, FileSect(l, ch, p / SS), n, d)
    ensures ByteAt(l, w, ch, o) == if p <= o < p + |d| then d[o - p] else ByteAt(l, v, ch, o)
  {
    hide Volume, FileSect, HasSector, IsChain;
    var s, j := FileSect(l, ch, p / SS), FileSect(l, ch, o / SS);
    FileSectInside(l, v, ch, o / SS);
    if p <= o < p + |d| {
      var k := BlockOf(o, p, n);
      SameCluster(l, ch, p / SS, k);
      assert w[s + k] == d[k * SS..k * SS + SS];
      InSlice(d, k * SS, SS, o % SS);
    } else {
      SectorElsewhere(l, fat, ch, p, n, o);
      assert w[j] == v[j];
    }
  }

  /** A byte that is not among those of n sectors of one cluster lies in none of these sectors. */
  lemma SectorElsewhere(l: Layout, fat: seq<nat>, ch: seq<nat>, p: nat, n: nat, o: nat)
    requires l.csize > 0 && l.nFatent >= 2 && |fat| == l.nFatent && IsChain(fat, ch)
    requires p % SS == 0 && HasSector(l, ch, p / SS) && HasSector(l, ch, o / SS)
    requires p / SS % l.csize + n <= l.csize && !(p <= o < p + n * SS)
    ensures var s := FileSect(l, ch, p / SS); !(s <= FileSect(l, ch, o / SS) < s + n)
  {
    hide FileSect, HasSector, IsChain;
    var i := FileSect(l, ch, o / SS) - FileSect(l, ch, p / SS);
    if 0 <= i < n {
      NotInBlock(o, p, n, i);
      SameCluster(l, ch, p / SS, i);
      FileSectInjective(l, fat, ch, o / SS, p / SS + i);
    }
  }

  /** Which of n blocks from p on holds byte o. */
  lemma BlockOf(o: nat, p: nat, n: nat) returns (k: nat)
    requires p % SS == 0 && p <= o < p + n * SS
    ensures k < n && o / SS == p / SS + k && o - p == k * SS + o % SS
  {
    k := o / SS - p / SS;
  }

  lemma NotInBlock(o: nat, p: nat, n: nat, i: nat)
    requires p % SS == 0 && !(p <= o < p + n * SS) && i < n
    ensures o / SS != p / SS + i
  {
  }

  lemma InSlice(d: seq<byte>, a: nat, n: nat, i: nat)
    requires a + n <= |d| && i < n
    ensures d[a..a + n][i] == d[a + i]
  {
  }

  /** From (v, fat, ch0) to (w, fat', ch): every other chain and all its bytes, and every FAT entry that belongs to
      neither chain, are as they were. */
  ghost predicate ChainsKept(l: Layout, v: Drive, fat: seq<nat>, ch0: seq<nat>, w: Drive, fat': seq<nat>, ch: seq<nat>)
    requires l.csize > 0 && l.nFatent >= 2
  {
    && |v| == |w| && OnlyChain(fat, ch0, fat', ch)
    && forall other {:trigger IsChain(fat, other)} ::
         IsChain(fat, other) && Disjoint(other, ch0) ==>
           IsChain(fat', other) && Disjoint(other, ch) && SameSectors(l, v, w, other)
  }

  /** What lies before the data and is not FAT is as it was, but for n sectors from sector first on. */
  ghost predicate SystemKept(l: Layout, v: Drive, w: Drive, first: nat, n: nat) {
    |v| == |w| && forall s :: 0 <= s < |v| && IsSystemSector(l, s) && !(first <= s < first + n) ==> v[s] == w[s]
  }

  predicate IsSystemSector(l: Layout, s: nat) {
    s < l.database && !l.IsFatSector(s) && !l.IsMirrorSector(s)
  }

  /** What file operations keep: all other chains, and everything that is neither FAT nor data. */
  ghost predicate Untouched(l: Layout, v: Drive, fat: seq<nat>, ch0: seq<nat>, w: Drive, fat': seq<nat>, ch: seq<nat>)
    requires l.csize > 0 && l.nFatent >= 2
  {
    ChainsKept(l, v, fat, ch0, w, fat', ch) && SystemKept(l, v, w, 0, 0)
  }

  lemma UntouchedRefl(l: Layout, v: Drive, fat: seq<nat>, ch: seq<nat>)
    requires l.csize > 0 && l.nFatent >= 2
    ensures Untouched(l, v, fat, ch, v, fat, ch)
  {
  }

  lemma ChainsKeptTrans(l: Layout, v0: Drive, f0: seq<nat>, c0: seq<nat>, v1: Drive, f1: seq<nat>, c1: seq<nat>,
                        v2: Drive, f2: seq<nat>, c2: seq<nat>)
    requires l.csize > 0 && l.nFatent >= 2
    requires ChainsKept(l, v0, f0, c0, v1, f1, c1) && ChainsKept(l, v1, f1, c1, v2, f2, c2)
    ensures ChainsKept(l, v0, f0, c0, v2, f2, c2)
  {
    hide IsChain, Disjoint, OnlyChain;
    OnlyChainTrans(f0, c0, f1, c1, f2, c2);
    forall other | IsChain(f0, other) && Disjoint(other, c0)
      ensures SameSectors(l, v0, v2, other)
    {
      assert SameSectors(l, v0, v1, other) && SameSectors(l, v1, v2, other);
    }
  }

  lemma UntouchedTrans(l: Layout, v0: Drive, f0: seq<nat>, c0: seq<nat>, v1: Drive, f1: seq<nat>, c1: seq<nat>,
                       v2: Drive, f2: seq<nat>, c2: seq<nat>)
    requires l.csize > 0 && l.nFatent >= 2
    requires Untouched(l, v0, f0, c0, v1, f1, c1) && Untouched(l, v1, f1, c1, v2, f2, c2)
    ensures Untouched(l, v0, f0, c0, v2, f2, c2)
  {
    hide ChainsKept;
    ChainsKeptTrans(l, v0, f0, c0, v1, f1, c1, v2, f2, c2);
  }

  /** Writing sectors of one cluster of a chain touches no other chain. */
  lemma UntouchedByWrite(l: Layout, v: Drive, w: Drive, fat: seq<nat>, ch: seq<nat>, i: nat, n: nat)
    requires Volume(l, v) && |fat| == l.nFatent && IsChain(fat, ch)
    requires HasSector(l, ch, i) && i % l.csize + n <= l.csize
    requires SameBut(v, w, FileSect(l, ch, i), n)
    ensures Untouched(l, v, fat, ch, w, fat, ch)
    ensures forall s :: l.IsFatSector(s) ==> 0 <= s < |v| && v[s] == w[s]
  {
    ChainClustersValid(l, fat, ch);
    hide IsChain, FileSect, HasSector, Volume, Layout.Sound;
    FileSectInside(l, v, ch, i);
    forall other | IsChain(fat, other) && Disjoint(other, ch)
      ensures SameSectors(l, v, w, other)
    {
      OtherSectorsApart(l, v, w, fat, ch, i, n, other);
    }
  }

  lemma OtherSectorsApart(l: Layout, v: Drive, w: Drive, fat: seq<nat>, ch: seq<nat>, i: nat, n: nat, other: seq<nat>)
    requires l.csize > 0 && l.nFatent >= 2 && |fat| == l.nFatent
    requires IsChain(fat, ch) && IsChain(fat, other) && Disjoint(other, ch)
    requires HasSector(l, ch, i) && i % l.csize + n <= l.csize
    requires SameBut(v, w, FileSect(l, ch, i), n)
    ensures SameSectors(l, v, w, other)
  {
    hide FileSect, HasSector, IsChain;
    ChainClustersValid(l, fat, ch);
    ChainClustersValid(l, fat, other);
    var s := FileSect(l, ch, i);
    forall j: nat | HasSector(l, other, j) && s <= FileSect(l, other, j) < s + n
      ensures false
    {
      OtherSectorApart(l, ch, i, n, other, j);
    }
  }

  lemma OtherSectorApart(l: Layout, ch: seq<nat>, i: nat, n: nat, other: seq<nat>, j: nat)
    requires l.csize > 0 && l.nFatent >= 2 && AllClustersValid(l, ch) && AllClustersValid(l, other) &&
             Disjoint(other, ch)
    requires HasSector(l, ch, i) && i % l.csize + n <= l.csize && HasSector(l, other, j)
    ensures !(FileSect(l, ch, i) <= FileSect(l, other, j) < FileSect(l, ch, i) + n)
  {
    hide FileSect;
    var s := FileSect(l, ch, i);
    if s <= FileSect(l, other, j) < s + n {
      var k := FileSect(l, other, j) - s;
      SameCluster(l, ch, i, k);
      assert other[j / l.csize] in other;
      FileSectsApart(l, other, ch, j, i + k);
    }
  }

  /** Allocation touches no other chain. */
  lemma UntouchedByCreate(l: Layout, v: Drive, w: Drive, fat: seq<nat>, ch: seq<nat>, last: nat, eoc: nat)
    requires Volume(l, v) && |fat| == l.nFatent >= 3 && eoc >= |fat| && SameOutsideFat(l, v, w)
    requires ch == [] || IsChain(fat, ch)
    requires Allocates(fat, if ch == [] then 0 else ch[|ch| - 1], last)
    ensures var clst := if ch == [] then 0 else ch[|ch| - 1];
            var r := CreateResult(fat, clst, last);
            && IsChain(CreateFat(fat, clst, last, eoc), ch + [r])
            && Untouched(l, v, fat, ch, w, CreateFat(fat, clst, last, eoc), ch + [r])
  {
    var clst := if ch == [] then 0 else ch[|ch| - 1];
    var r := CreateResult(fat, clst, last);
    if ch == [] {
      CreateStarts(fat, last, eoc);
      assert ch + [r] == [r];
    } else {
      CreateExtends(fat, ch, last, eoc);
    }
    OnlyChainCreate(fat, ch, last, eoc);
    hide OnlyChain;
    forall other | IsChain(fat, other) && Disjoint(other, ch)
      ensures IsChain(CreateFat(fat, clst, last, eoc), other) && Disjoint(other, ch + [r]) &&
              SameSectors(l, v, w, other)
    {
      ChainClustersValid(l, fat, other);
      hide IsChain, CreateFat, Volume;
      assert ch != [] ==> clst in ch;
      assert clst !in other by {
        if ch == [] {
          assert AllClustersValid(l, other);
        }
      }
      CreateKeepsChain(fat, clst, last, eoc, other);
      SameOutsideFatSameSectors(l, v, w, fat, other);
    }
  }

  lemma SameOutsideFatSameSectors(l: Layout, v: Drive, w: Drive, fat: seq<nat>, ch: seq<nat>)
    requires Volume(l, v) && SameOutsideFat(l, v, w) && AllClustersValid(l, ch)
    ensures SameSectors(l, v, w, ch)
  {
    hide Volume;
    forall i: nat | HasSector(l, ch, i)
      ensures FileSect(l, ch, i) < |v| && v[FileSect(l, ch, i)] == w[FileSect(l, ch, i)]
    {
      FileSectInside(l, v, ch, i);
    }
  }

  /** A chain that grows, over a volume whose sectors of the old chain stay, keeps the content. */
  lemma GrownContent(l: Layout, v: Drive, w: Drive, ch: seq<nat>, ch': seq<nat>, size: nat)
    requires Volume(l, v) && Volume(l, w) && AllClustersValid(l, ch) && AllClustersValid(l, ch') && Holds(l, ch, size)
    requires SameSectors(l, v, w, ch) && ch <= ch'
    ensures Holds(l, ch', size) && Content(l, w, ch', size) == Content(l, v, ch, size)
  {
    hide Volume, Content;
    SameSectorsSameContent(l, v, w, ch, size);
    var more := ch'[|ch|..];
    assert ch' == ch + more;
    ContentOfPrefix(l, w, ch, more, size);
  }

  /** The sectors WriteDirect stores are the sectors of the data. */
  lemma DirectIsPatched(v: Drive, w: Drive, s: nat, n: nat, all: seq<byte>, o: nat)
    requires 0 < n && s + n <= |v| && SameBut(v, w, s, n) && o + n * SS <= |all|
    requires forall i {:trigger w[i]} :: s <= i < s + n ==> w[i] == all[o + (i - s) * SS..o + (i - s) * SS + SS]
    ensures SectorsPatched(v, w, s, n, all[o..o + n * SS])
  {
    var d := all[o..o + n * SS];
    forall k: nat | k < n
      ensures w[s + k] == d[k * SS..k * SS + SS]
    {
      var i := s + k;
      assert w[i] == all[o + (i - s) * SS..o + (i - s) * SS + SS];
      PartOfPart(all, o, n * SS, k * SS, SS);
    }
  }

  lemma PartOfPart(all: seq<byte>, o: nat, n: nat, i: nat, k: nat)
    requires o + n <= |all| && i + k <= n
    ensures all[o + i..o + i + k] == all[o..o + n][i..i + k]
  {
    var d := all[o..o + n];
    assert forall j :: 0 <= j < n ==> d[j] == all[o + j];
  }

  lemma VolumeSameSize(l: Layout, v: Drive, w: Drive)
    requires Volume(l, v) && |w| == |v|
    ensures Volume(l, w)
  {
  }

  /** Cutting a chain after k clusters touches no other chain. */
  lemma UntouchedByRemove(l: Layout, v: Drive, w: Drive, fat: seq<nat>, ch: seq<nat>, k: nat, eoc: nat)
    requires Volume(l, v) && |fat| == l.nFatent && eoc >= |fat| && SameOutsideFat(l, v, w)
    requires IsChain(fat, ch) && k < |ch|
    ensures var f := RemoveResult(fat, ch[k], if k == 0 then 0 else ch[k - 1], eoc).fat;
            Untouched(l, v, fat, ch, w, f, ch[..k])
  {
    var f := RemoveResult(fat, ch[k], if k == 0 then 0 else ch[k - 1], eoc).fat;
    hide Volume, IsChain, RemoveResult, OnlyChain;
    OnlyChainRemove(fat, ch, k, eoc);
    forall other | IsChain(fat, other) && Disjoint(other, ch)
      ensures IsChain(f, other) && Disjoint(other, ch[..k]) && SameSectors(l, v, w, other)
    {
      ChainClustersValid(l, fat, other);
      RemoveKeepsChain(fat, ch, k, eoc, other);
      SameOutsideFatSameSectors(l, v, w, fat, other);
    }
  }

  /** What keeps all other chains keeps the FAT a set of disjoint, ended chains, and loses no cluster. */
  lemma ChainsKeptWellFormed(l: Layout, v: Drive, fat: seq<nat>, ch0: seq<nat>, w: Drive, fat': seq<nat>, ch: seq<nat>,
                             chs: set<seq<nat>>)
    requires l.csize > 0 && l.nFatent >= 2 && |fat| >= 2 && ChainsKept(l, v, fat, ch0, w, fat', ch)
    requires WellFormed(fat, chs) && (ch0 == [] || ch0 in chs) && (ch == [] || IsChain(fat', ch))
    ensures WellFormed(fat', (chs - {ch0}) + if ch == [] then {} else {ch})
    ensures |FreeSet(fat')| + |ch| == |FreeSet(fat)| + |ch0|
  {
    assert ch0 != [] ==> IsChain(fat, ch0);
    hide IsChain, WellFormed, OnlyChain, FreeSet, SameSectors, Disjoint;
    OnlyChainWellFormed(fat, chs, ch0, fat', ch);
    FreeConserved(fat, ch0, fat', ch);
  }
}
