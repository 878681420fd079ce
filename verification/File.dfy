/** File objects: f_read, f_write, f_lseek and f_truncate. */
module File {
  import opened Words
  import opened Geometry
  import opened Window
  import opened FatEntry
  import opened Chains
  import opened Alloc
  import opened FileData
  import opened Cursor

  class Fil {
    const fs: FatFs
    const canRead: bool
    const canWrite: bool
    var sclust: nat
    var objsize: nat
    var fptr: nat
    var clust: nat
    var sect: nat
    var modified: bool
    var err: FResult
    ghost var chain: seq<nat>

    /** The file object f_open leaves for a directory entry with this start cluster and size. */
    constructor (fs: FatFs, start: nat, size: nat, read: bool, write: bool, ghost ch: seq<nat>)
      requires fs.Valid() && Volume(fs.layout, fs.View())
      requires if ch == [] then start == 0 else IsChain(FatOf(fs), ch) && ch[0] == start
      requires Holds(fs.layout, ch, size) && size < U32
      ensures Valid() && this.fs == fs && chain == ch && objsize == size && fptr == 0
      ensures canRead == read && canWrite == write && err == FrOk && !modified
    {
      this.fs := fs;
      sclust, objsize, chain := start, size, ch;
      canRead, canWrite, modified := read, write, false;
      err := FrOk;
      sect, fptr, clust := 0, 0, 0;
    }

    ghost predicate Valid()
      reads this, fs, fs.win
      ensures Valid() ==> Linked() && fptr <= objsize
    {
      Linked() && At(fs.layout, chain, fptr, clust, sect) && fptr <= objsize
    }

    /** Everything but the position. */
    ghost predicate Linked()
      reads this, fs, fs.win
      ensures Linked() ==> fs.Valid() && Volume(fs.layout, fs.View())
      ensures Linked() ==> Holds(fs.layout, chain, objsize) && AllClustersValid(fs.layout, chain) && objsize < U32
    {
      && fs.Valid() && Volume(fs.layout, fs.View())
      && Allocated(fs.layout, FatOf(fs), chain, sclust, objsize)
    }

    /** The abstract value of the file: its bytes. */
    ghost function Bytes(): (c: seq<byte>)
      requires Linked()
      reads this, fs, fs.win
      ensures |c| == objsize
    {
      Content(fs.layout, fs.View(), chain, objsize)
    }

    /** Byte o of the file, which is byte r of its cluster number k, on the volume. */
    lemma ByteOfFile(o: nat, k: nat, r: nat) returns (s: nat)
      requires Linked() && o < objsize && r < 512 * fs.layout.csize && o == k * (512 * fs.layout.csize) + r
      ensures k < |chain| && s == fs.layout.database + (chain[k] - 2) * fs.layout.csize + r / 512
      ensures s < |fs.View()| && Bytes()[o] == fs.View()[s][r % 512]
    {
      s := ByteOnDisk(fs.layout, fs.View(), chain, objsize, o, k, r);
    }

    /** Enter the cluster of byte fptr, following the chain on the FAT if need be (f_read). */
    method FollowChain() returns (csect: nat)
      requires Valid() && fptr % SS == 0 && fptr < objsize
      modifies this`clust, fs, fs.win
      ensures fs.Valid() && fs.View() == old(fs.View()) && fs.CountersUnchanged() && Linked()
      ensures csect == fptr / SS % fs.layout.csize && OnCluster(fs.layout, chain, fptr, clust)
    {
      hide FatFs.Valid, FatFs.View, FatFs.Shaped, Fits, Layout.Sound, Volume, Fat, Holds, At, OnSector, OnCluster,
           Allocated, IsChain, BitAnd;
      SoundFacts(fs.layout);
      SectorOffset(fs.layout, fptr);
      HoldsUpTo(fs.layout, chain, objsize, fptr);
      csect := BitAnd(fptr / SS, fs.layout.csize - 1);
      if csect == 0 {
        if fptr == 0 {
          FirstCluster(fs.layout, chain, sclust);
          clust := sclust;
        } else {
          AtClusterBoundary(fs.layout, chain, fptr, clust, sect);
          NextCluster(fs.layout, FatOf(fs), chain, fptr, clust);
          clust := GetFat(fs, clust);
        }
      } else {
        AtBoundary(fs.layout, chain, fptr, clust, sect);
      }
    }

    /** One round of the f_read loop: at most btr bytes go to buff from position o on. */
    method ReadChunk(buff: array<byte>, o: nat, btr: nat) returns (rcnt: nat)
      requires Valid() && buff != fs.win && o + btr <= buff.Length
      requires 0 < btr && fptr + btr <= objsize
      modifies this`fptr, this`clust, this`sect, fs, fs.win, buff
      ensures Valid() && fs.View() == old(fs.View()) && fs.CountersUnchanged()
      ensures 0 < rcnt <= btr && fptr == old(fptr) + rcnt
      ensures Bytes() == old(Bytes())
      ensures forall j :: o <= j < o + rcnt ==> buff[j] == Bytes()[old(fptr) + j - o]
      ensures forall i :: 0 <= i < buff.Length && !(o <= i < o + rcnt) ==> buff[i] == old(buff[i])
    {
      hide FatFs.Valid, FatFs.View, FatFs.Shaped, Fits, Layout.Sound, Volume, Fat, Content, Holds, At, OnSector,
           OnCluster, Allocated;
      if fptr % SS == 0 {
        var csect := FollowChain();
        SectorHere(fs.layout, chain, fptr, clust);
        var s := Clust2Sect(fs.layout, clust) + csect;
        var cc := btr / SS;
        if cc > 0 {
          if csect + cc > fs.layout.csize {
            cc := fs.layout.csize - csect;
          }
          rcnt := SS * cc;
          ReadRun(buff, o, s, cc);
          return;
        }
        sect := s;
      } else {
        AtInside(fs.layout, chain, fptr, clust, sect);
      }
      rcnt := SS - fptr % SS;
      if rcnt > btr {
        rcnt := btr;
      }
      ReadPart(buff, o, rcnt);
    }

    /** The whole sectors read directly from the drive. */
    method ReadRun(buff: array<byte>, o: nat, s: nat, cc: nat)
      requires Linked() && buff != fs.win && o + cc * SS <= buff.Length && 0 < cc && fptr + cc * SS <= objsize
      requires fptr % SS == 0 && fptr / SS % fs.layout.csize + cc <= fs.layout.csize
      requires OnCluster(fs.layout, chain, fptr, clust) && OnSector(fs.layout, chain, fptr, s)
      modifies this`fptr, buff
      ensures Valid() && fs.View() == old(fs.View()) && fptr == old(fptr) + cc * SS
      ensures Bytes() == old(Bytes())
      ensures forall j :: o <= j < o + cc * SS ==> buff[j] == Bytes()[old(fptr) + j - o]
      ensures forall i :: 0 <= i < buff.Length && !(o <= i < o + cc * SS) ==> buff[i] == old(buff[i])
    {
      hide FatFs.Valid, FatFs.View, FatFs.Shaped, Fits, Layout.Sound, Volume, Fat, Content, Holds, At, OnSector,
           OnCluster, Allocated;
      SectorInside(fs.layout, fs.View(), chain, fptr, s, cc);
      fs.ReadDirect(buff, o, s, cc);
      forall j | o <= j < o + cc * SS
        ensures buff[j] == Bytes()[fptr + j - o]
      {
        RunBytes(fs.layout, fs.View(), chain, objsize, fptr, s, cc, j - o);
      }
      AtAfterRun(fs.layout, chain, fptr, cc, clust, sect);
      fptr := fptr + cc * SS;
    }

    /** The part of a sector read through the window. */
    method ReadPart(buff: array<byte>, o: nat, rcnt: nat)
      requires Linked() && buff != fs.win && o + rcnt <= buff.Length && 0 < rcnt && fptr + rcnt <= objsize
      requires fptr % SS + rcnt <= SS
      requires OnCluster(fs.layout, chain, fptr, clust) && OnSector(fs.layout, chain, fptr, sect)
      modifies this`fptr, fs, fs.win, buff
      ensures Valid() && fs.View() == old(fs.View()) && fs.CountersUnchanged() && fptr == old(fptr) + rcnt
      ensures Bytes() == old(Bytes())
      ensures forall j :: o <= j < o + rcnt ==> buff[j] == Bytes()[old(fptr) + j - o]
      ensures forall i :: 0 <= i < buff.Length && !(o <= i < o + rcnt) ==> buff[i] == old(buff[i])
    {
      hide FatFs.Valid, FatFs.View, FatFs.Shaped, Fits, Layout.Sound, Volume, Fat, Content, Holds, At, OnSector,
           OnCluster, Allocated;
      SectorInside(fs.layout, fs.View(), chain, fptr, sect, 0);
      fs.MoveWindow(sect);
      var off := fptr % SS;
      forall i | 0 <= i < rcnt {
        buff[o + i] := fs.win[off + i];
      }
      forall j | o <= j < o + rcnt
        ensures buff[j] == Bytes()[fptr + j - o]
      {
        PartBytes(fs.layout, fs.View(), chain, objsize, fptr, sect, j - o);
      }
      AtAfterPart(fs.layout, chain, fptr, rcnt, clust, sect);
      fptr := fptr + rcnt;
    }

    /** f_read: exactly the bytes at fptr, up to the end of the file; the volume stays as it is. */
    method Read(buff: array<byte>, btr: nat) returns (res: FResult, br: nat)
      requires Valid() && buff != fs.win && btr <= buff.Length
      modifies this`fptr, this`clust, this`sect, fs, fs.win, buff
      ensures Valid() && fs.View() == old(fs.View()) && fs.CountersUnchanged()
      ensures br == if err == FrOk && canRead then Min(btr, objsize - old(fptr)) else 0
      ensures res == if err != FrOk then err else if canRead then FrOk else FrDenied
      ensures fptr == old(fptr) + br
      ensures buff[..br] == Bytes()[old(fptr)..old(fptr) + br] && buff[br..] == old(buff[br..])
    {
      hide Valid, Linked, Bytes, FatFs.Valid, FatFs.View, Volume, Layout.Sound, Fits, Holds;
      br := 0;
      if err != FrOk {
        return err, 0;
      }
      if !canRead {
        return FrDenied, 0;
      }
      var left := btr;
      var remain := objsize - fptr;
      if left > remain {
        left := remain;
      }
      ghost var n := left;
      ghost var p := fptr;
      ghost var bytes := Bytes();
      while left > 0
        invariant Valid() && fs.View() == old(fs.View()) && fs.CountersUnchanged()
        invariant 0 <= left && br + left == n && fptr == p + br && n <= buff.Length && p + n <= objsize == |bytes|
        invariant Bytes() == bytes && forall j :: 0 <= j < br ==> buff[j] == bytes[p + j]
        invariant forall i :: br <= i < buff.Length ==> buff[i] == old(buff[i])
      {
        var rcnt := ReadChunk(buff, br, left);
        br := br + rcnt;
        left := left - rcnt;
      }
      res := FrOk;
    }

    /** Enter the cluster of byte fptr, creating or stretching the chain if need be (f_write). */
    method StretchChain() returns (res: Stretched, csect: nat)
      requires Valid() && fptr % SS == 0
      modifies this`clust, this`sclust, this`chain, fs, fs.win
      ensures Linked() && Bytes() == old(Bytes()) && csect == fptr / SS % fs.layout.csize
      ensures Untouched(fs.layout, old(fs.View()), old(FatOf(fs)), old(chain), fs.View(), FatOf(fs), chain)
      ensures old(chain) <= chain &&
              |chain| == Max(|old(chain)|, if res == Ok then ClusterIx(fs.layout, fptr) + 1 else 0)
      ensures res == Ok ==> OnCluster(fs.layout, chain, fptr, clust)
      ensures res != Ok ==>
                Valid() && fs.View() == old(fs.View()) && chain == old(chain) &&
                ClusterIx(fs.layout, fptr) == |chain| && fptr / SS % fs.layout.csize == 0
      ensures res == Full ==> NoFreeCluster(FatOf(fs))
      ensures res == Broken ==> Damaged(FatOf(fs))
    {
      hide FatFs.Valid, FatFs.View, FatFs.Shaped, Mirrored, Fits, Layout.Sound, Volume, Fat, Content, Holds, At,
           OnSector, OnCluster, Allocated, Untouched, SameBut, SameSectors, IsChain, BitAnd;
      SoundFacts(fs.layout);
      SectorOffset(fs.layout, fptr);
      UntouchedRefl(fs.layout, fs.View(), FatOf(fs), chain);
      csect := BitAnd(fptr / SS, fs.layout.csize - 1);
      res := Ok;
      if csect != 0 {
        AtBoundary(fs.layout, chain, fptr, clust, sect);
        OnClusterFacts(fs.layout, chain, fptr, clust);
      } else if fptr == 0 && sclust != 0 {
        FirstCluster(fs.layout, chain, sclust);
        OnClusterFacts(fs.layout, chain, fptr, sclust);
        clust := sclust;
      } else {
        res := NextForWrite();
      }
    }

    /** The create_chain call of f_write and what it does with the answer. */
    method NextForWrite() returns (res: Stretched)
      requires Valid() && fptr % SS == 0 && fptr / SS % fs.layout.csize == 0
      requires fptr == 0 ==> sclust == 0
      modifies this`clust, this`sclust, this`chain, fs, fs.win
      ensures Linked() && Bytes() == old(Bytes())
      ensures Untouched(fs.layout, old(fs.View()), old(FatOf(fs)), old(chain), fs.View(), FatOf(fs), chain)
      ensures old(chain) <= chain &&
              |chain| == Max(|old(chain)|, if res == Ok then ClusterIx(fs.layout, fptr) + 1 else 0)
      ensures res == Ok ==> OnCluster(fs.layout, chain, fptr, clust)
      ensures res != Ok ==>
                Valid() && fs.View() == old(fs.View()) && chain == old(chain) && ClusterIx(fs.layout, fptr) == |chain|
      ensures res == Full ==> NoFreeCluster(FatOf(fs))
      ensures res == Broken ==> Damaged(FatOf(fs))
    {
      hide FatFs.Valid, FatFs.View, FatFs.Shaped, Mirrored, Fits, Layout.Sound, Volume, Fat, Content, Holds, At,
           OnSector, OnCluster, Allocated, Untouched, SameBut, SameSectors, IsChain, BitAnd, CreateFat, CreateResult,
           ClusterIx, Stretch, FreeSet;
      ghost var l, v, f, ch := fs.layout, fs.View(), FatOf(fs), chain;
      ghost var k := ClusterIx(l, fptr);
      var clst := 0;
      if fptr == 0 {
        NoCluster(l, f, chain, sclust, objsize);
      } else {
        AtClusterBoundary(l, chain, fptr, clust, sect);
        clst := clust;
      }
      AllocatedChain(l, f, chain, sclust, objsize);
      clst := ExtendChain(fs, clst, chain, k);
      if clst == 0 {
        UntouchedRefl(l, v, f, ch);
        return Full;
      }
      if clst == 1 {
        UntouchedRefl(l, v, f, ch);
        return Broken;
      }
      res := Ok;
      chain := Stretch(chain, k, clst);
      clust := clst;
      if sclust == 0 {
        sclust := clst;
      }
      StretchPrefix(ch, k, clst);
      ChainClustersValid(l, FatOf(fs), chain);
      GrownContent(l, v, fs.View(), ch, chain, objsize);
      StretchedIsAllocated(l, f, ch, k, clst, old(sclust), objsize, FatOf(fs));
      StretchReaches(l, ch, k, clst, fptr);
    }

    /** Whole sectors of data written directly (f_write). */
    method WriteRun(data: array<byte>, o: nat, s: nat, cc: nat)
      requires Linked() && data != fs.win && o + cc * SS <= data.Length && 0 < cc && fptr <= objsize &&
               fptr + cc * SS < U32
      requires fptr % SS == 0 && fptr / SS % fs.layout.csize + cc <= fs.layout.csize
      requires OnCluster(fs.layout, chain, fptr, clust) && OnSector(fs.layout, chain, fptr, s)
      modifies this`fptr, this`objsize, fs, fs.win
      ensures Valid() && fptr == old(fptr) + cc * SS && objsize == Max(old(objsize), fptr)
      ensures Bytes() == Splice(old(Bytes()), old(fptr), data[o..o + cc * SS])
      ensures Untouched(fs.layout, old(fs.View()), old(FatOf(fs)), chain, fs.View(), FatOf(fs), chain)
      ensures FatOf(fs) == old(FatOf(fs)) && fs.CountersUnchanged()
    {
      hide FatFs.Valid, FatFs.View, FatFs.Shaped, Mirrored, Fits, Layout.Sound, Volume, Fat, Content, Holds, At,
           OnSector, OnCluster, Allocated, Untouched, SameBut, SameSectors, IsChain, BitAnd;
      ghost var l, v, f := fs.layout, fs.View(), FatOf(fs);
      ghost var d := data[o..o + cc * SS];
      SectorInside(l, v, chain, fptr, s, cc);
      AllocatedChain(l, f, chain, sclust, objsize);
      OnSectorFacts(l, chain, fptr, s);
      fs.WriteDirect(data, o, s, cc);
      DirectIsPatched(v, fs.View(), s, cc, data[..], o);
      assert data[..][o..o + cc * SS] == d;
      VolumeSameSize(l, v, fs.View());
      UntouchedByWrite(l, v, fs.View(), f, chain, fptr / SS, cc);
      FatFrame(l, v, fs.View());
      AtAfterRun(l, chain, fptr, cc, clust, sect);
      HoldsMax(l, chain, objsize, fptr + cc * SS);
      SectorsWritten(l, v, fs.View(), f, chain, objsize, fptr, cc, d);
      AllocatedSize(l, f, chain, sclust, objsize, Max(objsize, fptr + cc * SS));
      fptr := fptr + cc * SS;
      objsize := if fptr > objsize then fptr else objsize;
    }

    /** Part of a sector written through the window (f_write). */
    method WritePart(data: array<byte>, o: nat, growing: bool, wcnt: nat)
      requires Linked() && data != fs.win && o + wcnt <= data.Length && 0 < wcnt && fptr <= objsize && fptr + wcnt < U32
      requires fptr % SS + wcnt <= SS && (growing ==> fptr % SS == 0 && fptr >= objsize)
      requires OnCluster(fs.layout, chain, fptr, clust) && OnSector(fs.layout, chain, fptr, sect)
      modifies this`fptr, this`objsize, fs, fs.win
      ensures Valid() && fptr == old(fptr) + wcnt && objsize == Max(old(objsize), fptr)
      ensures Bytes() == Splice(old(Bytes()), old(fptr), data[o..o + wcnt])
      ensures Untouched(fs.layout, old(fs.View()), old(FatOf(fs)), chain, fs.View(), FatOf(fs), chain)
      ensures FatOf(fs) == old(FatOf(fs)) && fs.CountersUnchanged()
    {
      hide FatFs.Valid, FatFs.View, FatFs.Shaped, Mirrored, Fits, Layout.Sound, Volume, Fat, Content, Holds, At,
           OnSector, OnCluster, Allocated, Untouched, SameBut, SameSectors, IsChain, BitAnd;
      ghost var l, v, f := fs.layout, fs.View(), FatOf(fs);
      ghost var d := data[o..o + wcnt];
      SectorInside(l, v, chain, fptr, sect, 0);
      AllocatedChain(l, f, chain, sclust, objsize);
      OnSectorFacts(l, chain, fptr, sect);
      fs.PatchSector(sect, growing, fptr % SS, data, o, wcnt);
      VolumeSameSize(l, v, fs.View());
      SectorRoom(l, fptr);
      UntouchedByWrite(l, v, fs.View(), f, chain, fptr / SS, 1);
      FatFrame(l, v, fs.View());
      AtAfterPart(l, chain, fptr, wcnt, clust, sect);
      HoldsMax(l, chain, objsize, fptr + wcnt);
      assert SectorPatched(l, v, fs.View(), sect, objsize, fptr, d);
      SectorWritten(l, v, fs.View(), f, chain, objsize, fptr, d);
      AllocatedSize(l, f, chain, sclust, objsize, Max(objsize, fptr + wcnt));
      fptr := fptr + wcnt;
      objsize := if fptr > objsize then fptr else objsize;
    }

    /** One round of the f_write loop: at most btw bytes of data, from position o on, go to the file at fptr.
        Nothing is written when a cluster is needed and cannot be had. */
    method WriteChunk(data: array<byte>, o: nat, btw: nat) returns (res: Stretched, wcnt: nat)
      requires Valid() && data != fs.win && o + btw <= data.Length && 0 < btw && fptr + btw < U32
      modifies this`fptr, this`clust, this`sect, this`objsize, this`sclust, this`chain, fs, fs.win
      ensures Valid() && wcnt <= btw && fptr == old(fptr) + wcnt && objsize == Max(old(objsize), fptr)
      ensures Bytes() == Splice(old(Bytes()), old(fptr), data[o..o + wcnt])
      ensures Untouched(fs.layout, old(fs.View()), old(FatOf(fs)), old(chain), fs.View(), FatOf(fs), chain)
      ensures old(chain) <= chain && |chain| == Max(|old(chain)|, ClustersFor(fs.layout, fptr))
      ensures res == Ok <==> wcnt > 0
      ensures res != Ok ==> fptr == |chain| * fs.layout.ClusterBytes()
      ensures res == Full ==> NoFreeCluster(FatOf(fs))
      ensures res == Broken ==> Damaged(FatOf(fs))
    {
      hide FatFs.Valid, FatFs.View, FatFs.Shaped, Mirrored, Fits, Layout.Sound, Volume, Fat, Content, Holds, At,
           OnSector, OnCluster, Allocated, Untouched, SameBut, SameSectors, IsChain, BitAnd;
      ghost var l, v, f, ch := fs.layout, fs.View(), FatOf(fs), chain;
      ghost var bytes := Bytes();
      if fptr % SS == 0 {
        var csect;
        res, csect := StretchChain();
        if res != Ok {
          ClustersUpTo(l, chain, fptr, clust, sect);
          EndOfChain(l, |chain|, fptr);
          SpliceNothing(bytes, fptr, data[o..o]);
          return res, 0;
        }
        ghost var w, g := fs.View(), FatOf(fs);
        wcnt := WriteFromBoundary(data, o, btw, csect);
        UntouchedTrans(l, v, f, ch, w, g, chain, fs.View(), FatOf(fs), chain);
      } else {
        AtInside(l, chain, fptr, clust, sect);
        OnClusterFacts(l, chain, fptr, clust);
        wcnt := SS - fptr % SS;
        if wcnt > btw {
          wcnt := btw;
        }
        PartClusters(l, fptr, wcnt);
        WritePart(data, o, false, wcnt);
        res := Ok;
      }
    }

    /** The rest of a round that starts on a sector boundary, once the cluster is known. */
    method WriteFromBoundary(data: array<byte>, o: nat, btw: nat, csect: nat) returns (wcnt: nat)
      requires Linked() && data != fs.win && o + btw <= data.Length && 0 < btw && fptr <= objsize && fptr + btw < U32
      requires fptr % SS == 0 && csect == fptr / SS % fs.layout.csize && OnCluster(fs.layout, chain, fptr, clust)
      modifies this`fptr, this`sect, this`objsize, fs, fs.win
      ensures Valid() && 0 < wcnt <= btw && fptr == old(fptr) + wcnt && objsize == Max(old(objsize), fptr)
      ensures Bytes() == Splice(old(Bytes()), old(fptr), data[o..o + wcnt])
      ensures Untouched(fs.layout, old(fs.View()), old(FatOf(fs)), chain, fs.View(), FatOf(fs), chain)
      ensures ClustersFor(fs.layout, fptr) == ClusterIx(fs.layout, old(fptr)) + 1
    {
      hide FatFs.Valid, FatFs.View, FatFs.Shaped, Mirrored, Fits, Layout.Sound, Volume, Fat, Content, Holds, At,
           OnSector, OnCluster, Allocated, Untouched, SameBut, SameSectors, IsChain, BitAnd, ClustersFor, ClusterIx,
           Splice, Clust2Sect;
      WriteBack();
      SectorHere(fs.layout, chain, fptr, clust);
      var s := Clust2Sect(fs.layout, clust) + csect;
      var cc := btw / SS;
      if cc > 0 {
        if csect + cc > fs.layout.csize {
          cc := fs.layout.csize - csect;
        }
        wcnt := SS * cc;
        RunClusters(fs.layout, fptr, cc);
        WriteRun(data, o, s, cc);
      } else {
        sect := s;
        wcnt := SS;
        if wcnt > btw {
          wcnt := btw;
        }
        PartClusters(fs.layout, fptr, wcnt);
        WritePart(data, o, fptr >= objsize, wcnt);
      }
    }

    /** Write-back of the sector the file was in. */
    method WriteBack()
      requires Linked()
      modifies fs
      ensures Linked() && fs.View() == old(fs.View()) && Bytes() == old(Bytes()) && fs.CountersUnchanged()
    {
      hide FatFs.Valid, FatFs.View, Fits, Layout.Sound, Volume, Fat, Content, Holds, Allocated;
      if fs.winsect == sect {
        fs.SyncWindow();
      }
    }

    /** What f_write reports: everything written, or the disk filled (or the FAT is damaged) at the end of the chain. */
    ghost predicate WriteOutcome(res: FResult, bw: nat, limit: nat)
      requires Linked()
      reads this, fs, fs.win
    {
      && bw <= limit && res == err
      && (bw == limit ==> res == FrOk)
      && (bw < limit ==> fptr == |chain| * fs.layout.ClusterBytes())
      && (bw < limit && res == FrOk ==> NoFreeCluster(FatOf(fs)))
      && (res != FrOk ==> res == FrIntErr && Damaged(FatOf(fs)))
    }

    /** f_write: the bytes of data replace or extend the file at fptr. All of them are written unless the disk
        fills, and then as many as there are clusters for; no other file changes. */
    method Write(data: array<byte>, btw: nat) returns (res: FResult, bw: nat)
      requires Valid() && data != fs.win && btw <= data.Length && btw < U32
      modifies this`fptr, this`clust, this`sect, this`objsize, this`sclust, this`chain, this`modified, this`err, fs,
               fs.win
      ensures Valid() && fptr == old(fptr) + bw && objsize == Max(old(objsize), fptr) && bw <= btw
      ensures Bytes() == Splice(old(Bytes()), old(fptr), data[..bw])
      ensures Untouched(fs.layout, old(fs.View()), old(FatOf(fs)), old(chain), fs.View(), FatOf(fs), chain)
      ensures old(chain) <= chain && |chain| == Max(|old(chain)|, ClustersFor(fs.layout, fptr))
      ensures if old(err) == FrOk && canWrite
              then WriteOutcome(res, bw, WriteLimit(old(fptr), btw)) && modified == (old(modified) || res == FrOk)
              else bw == 0 && res == (if old(err) != FrOk then old(err) else FrDenied) && err == old(err) &&
                   modified == old(modified)
      ensures old(err) == FrOk && canWrite && res == FrOk ==>
                fptr == Min(old(fptr) + Min(btw, 0xFFFF_FFFF - old(fptr)),
                            (|old(chain)| + |FreeSet(old(FatOf(fs)))|) * (512 * fs.layout.csize))
    {
      hide FatFs.Valid, FatFs.View, FatFs.Shaped, Mirrored, Fits, Layout.Sound, Volume, Fat, Content, Holds, At,
           OnSector, OnCluster, Allocated, Untouched, SameBut, SameSectors, IsChain, BitAnd, ClustersFor, ClusterIx,
           Splice, Add32, WriteOutcome;
      ghost var l, v, f, ch := fs.layout, fs.View(), FatOf(fs), chain;
      ghost var bytes, p := Bytes(), fptr;
      UntouchedRefl(l, v, f, ch);
      ClustersUpTo(l, chain, fptr, clust, sect);
      SpliceNothing(bytes, p, data[..0]);
      if err != FrOk {
        return err, 0;
      }
      if !canWrite {
        return FrDenied, 0;
      }
      var left := btw;
      if Add32(fptr, btw) < fptr {
        left := 0xFFFF_FFFF - fptr;
      }
      assert left == WriteLimit(p, btw);
      res, bw := WriteLoop(data, left);
      if res == FrOk {
        WentSoFar(l, v, f, ch, bw, left, p);
      }
    }

    lemma WentSoFar(l: Layout, v: Drive, f: seq<nat>, ch: seq<nat>, bw: nat, limit: nat, p: nat)
      requires Valid() && l == fs.layout && |f| >= 2 && (ch == [] || IsChain(f, ch)) && fptr == p + bw
      requires Untouched(l, v, f, ch, fs.View(), FatOf(fs), chain) && WriteOutcome(FrOk, bw, limit)
      ensures fptr == Min(p + limit, (|ch| + |FreeSet(f)|) * (512 * l.csize))
    {
      hide Volume, Layout.Sound, Untouched, FatFs.Valid, FatFs.View, IsChain, NoFreeCluster;
      AllocatedChain(l, FatOf(fs), chain, sclust, objsize);
      RoomOnVolume(l, v, f, ch, fs.View(), FatOf(fs), chain);
      HoldsThose(l, chain, objsize);
      hide Holds, At;
      FullOrThere(512 * l.csize, fptr, p + limit, |chain|, |ch| + |FreeSet(f)|);
    }

    method WriteLoop(data: array<byte>, btw: nat) returns (res: FResult, bw: nat)
      requires Valid() && data != fs.win && btw <= data.Length && fptr + btw < U32 && err == FrOk
      modifies this`fptr, this`clust, this`sect, this`objsize, this`sclust, this`chain, this`modified, this`err, fs,
               fs.win
      ensures Valid() && fptr == old(fptr) + bw && objsize == Max(old(objsize), fptr)
      ensures bw <= btw && Bytes() == Splice(old(Bytes()), old(fptr), data[..bw])
      ensures Untouched(fs.layout, old(fs.View()), old(FatOf(fs)), old(chain), fs.View(), FatOf(fs), chain)
      ensures old(chain) <= chain && |chain| == Max(|old(chain)|, ClustersFor(fs.layout, fptr))
      ensures WriteOutcome(res, bw, btw) && modified == (old(modified) || res == FrOk)
    {
      hide FatFs.Valid, FatFs.View, FatFs.Shaped, Mirrored, Fits, Layout.Sound, Volume, Fat, Content, Holds, At,
           OnSector, OnCluster, Allocated, Untouched, SameBut, SameSectors, IsChain, BitAnd, ClustersFor, ClusterIx,
           Splice, WriteLimit, Layout.ClusterBytes, NoFreeCluster, Damaged, Min, Add32;
      ghost var l, v, f, ch := fs.layout, fs.View(), FatOf(fs), chain;
      ghost var bytes, p, size := Bytes(), fptr, objsize;
      UntouchedRefl(l, v, f, ch);
      ClustersUpTo(l, chain, fptr, clust, sect);
      SpliceNothing(bytes, p, data[..0]);
      bw := 0;
      var left := btw;
      while left > 0
        invariant Valid() && err == FrOk && modified == old(modified)
        invariant 0 <= left && bw + left == btw && fptr == p + bw && objsize == Max(size, fptr)
        invariant Bytes() == Splice(bytes, p, data[..bw])
        invariant Untouched(l, v, f, ch, fs.View(), FatOf(fs), chain)
        invariant ch <= chain && |chain| == Max(|ch|, ClustersFor(l, fptr))
      {
        ghost var w, g, c := fs.View(), FatOf(fs), chain;
        var r, wcnt := WriteChunk(data, bw, left);
        SpliceTwice(bytes, p, data[..bw], data[bw..bw + wcnt]);
        assert data[..bw] + data[bw..bw + wcnt] == data[..bw + wcnt];
        UntouchedTrans(l, v, f, ch, w, g, c, fs.View(), FatOf(fs), chain);
        ClustersGrow(l, p + bw, fptr);
        if r == Full {
          break;
        }
        if r == Broken {
          err := FrIntErr;
          return FrIntErr, bw;
        }
        bw := bw + wcnt;
        left := left - wcnt;
      }
      modified := true;
      res := FrOk;
    }
  }

  /** The size of a FAT file cannot reach 4 GiB: how many of btw bytes f_write accepts at p. */
  function WriteLimit(p: nat, btw: nat): (n: nat)
    requires p < U32 && btw < U32
    ensures p + n < U32 && n == Min(btw, U32 - 1 - p)
  {
    if Add32(p, btw) < p then 0xFFFF_FFFF - p else btw
  }

  /** How long a chain can become: all free clusters may join it, and when none is left all have. */
  lemma RoomOnVolume(l: Layout, v: Drive, f: seq<nat>, ch: seq<nat>, w: Drive, f': seq<nat>, ch': seq<nat>)
    requires l.csize > 0 && l.nFatent >= 2 && |f| >= 2 && Untouched(l, v, f, ch, w, f', ch')
    requires (ch == [] || IsChain(f, ch)) && (ch' == [] || IsChain(f', ch'))
    ensures |ch'| <= |ch| + |FreeSet(f)|
    ensures NoFreeCluster(f') ==> |ch'| == |ch| + |FreeSet(f)|
  {
    FreeConserved(f, ch, f', ch');
  }

  /** Where a position ends up that may go up to goal, in a chain that may take all free clusters. */
  lemma FullOrThere(b: nat, p: nat, goal: nat, n: nat, most: nat)
    requires p <= goal && p <= n * b && n <= most && (p < goal ==> p == n * b && n == most)
    ensures p == Min(goal, most * b)
  {
    MulMonotone(b, n, most);
    assert b * n == n * b && b * most == most * b;
  }

  ghost predicate NoFreeCluster(fat: seq<nat>) {
    FreeSet(fat) == {}
  }

  /** An entry holds 1, a value no FAT driver stores. */
  ghost predicate Damaged(fat: seq<nat>) {
    exists c :: 2 <= c < |fat| && fat[c] == 1
  }

  datatype Stretched = Ok | Full | Broken
}
