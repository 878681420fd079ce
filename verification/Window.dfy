/** The FATFS object: one write-back sector window in front of a drive that holds one or two FATs. */
module Window {
  import opened Words
  import opened Geometry
  import FsInfo

  /** Sectors of the drive, indexed by sector number. */
  type Drive = seq<Sector>

  predicate Fits(l: Layout, d: Drive) {
    l.Areas() && l.database <= |d| < U32
  }

  /** Storing sector s: a sector of the first FAT is reflected to the second one. */
  function Store(l: Layout, d: Drive, s: nat, x: Sector): (r: Drive)
    requires Fits(l, d) && s < |d|
    ensures |r| == |d| && r[s] == x
    ensures forall i :: 0 <= i < |d| && i != s && !l.IsMirrorSector(i) ==> r[i] == d[i]
  {
    if l.nFats == 2 && l.IsFatSector(s) then d[s := x][s + l.fsize := x] else d[s := x]
  }

  /** The copies of the FAT agree. */
  ghost predicate Mirrored(l: Layout, d: Drive)
    requires Fits(l, d)
  {
    forall s {:trigger l.IsFatSector(s)} :: l.nFats == 2 && l.IsFatSector(s) ==> d[s] == d[s + l.fsize]
  }

  /** The unsigned comparison sync_window makes is the range test for the first FAT. */
  lemma FatAreaTest(l: Layout, s: nat)
    requires l.Areas() && s < U32
    ensures Sub32(s, l.fatbase) < l.fsize <==> l.IsFatSector(s)
  {
    Sub32Value(s, l.fatbase);
  }

  lemma StoreKeepsMirror(l: Layout, d: Drive, s: nat, x: Sector)
    requires Fits(l, d) && s < |d| && Mirrored(l, d) && !l.IsMirrorSector(s)
    ensures Mirrored(l, Store(l, d, s, x))
    ensures Store(l, Store(l, d, s, x), s, x) == Store(l, d, s, x)
  {
  }

  /** The volumes agree everywhere but on n sectors from s on. */
  ghost predicate SameBut(v: Drive, w: Drive, s: nat, n: nat) {
    |v| == |w| && forall i :: 0 <= i < |v| && !(s <= i < s + n) ==> v[i] == w[i]
  }

  /** The drive after n sectors of data, from position o of data on, are written from sector s on. */
  function Overwrite(d: Drive, data: seq<byte>, o: nat, s: nat, n: nat): (r: Drive)
    requires s + n <= |d| && o + n * SS <= |data|
    ensures |r| == |d|
  {
    seq(|d|, i requires 0 <= i < |d| => if s <= i < s + n then data[o + (i - s) * SS..o + (i - s) * SS + SS] else d[i])
  }

  lemma OverwriteView(l: Layout, d: Drive, d': Drive, w: nat, x: Sector, f: bool, x': Sector, f': bool, s: nat, n: nat)
    requires Fits(l, d) && SameBut(d, d', s, n) && l.database <= s && s + n <= |d|
    requires if s <= w < s + n then x' == d'[w] else x' == x && f' == f
    ensures Mirrored(l, d) ==> Mirrored(l, d')
    ensures SameBut(Layered(l, d, w, x, f), Layered(l, d', w, x', f'), s, n)
    ensures forall i :: s <= i < s + n ==> Layered(l, d', w, x', f')[i] == d'[i]
  {
  }

  lemma Overwritten(d: Drive, data: seq<byte>, o: nat, s: nat, n: nat)
    requires s + n <= |d| && o + n * SS <= |data|
    ensures forall i {:trigger Overwrite(d, data, o, s, n)[i]} :: 0 <= i < |d| ==>
              Overwrite(d, data, o, s, n)[i] ==
                if s <= i < s + n then data[o + (i - s) * SS..o + (i - s) * SS + SS] else d[i]
  {
  }

  /** The view after whole sectors have been stored behind the window's back and the window brought up to date. */
  lemma OverwrittenView(l: Layout, d: Drive, w: nat, x: Sector, f: bool, x': Sector, f': bool, data: seq<byte>, o: nat,
      s: nat, n: nat)
    requires Fits(l, d) && l.database <= s && s + n <= |d| && o + n * SS <= |data|
    requires var d' := Overwrite(d, data, o, s, n); if s <= w < s + n then x' == d'[w] else x' == x && f' == f
    ensures var d': Drive := Overwrite(d, data, o, s, n);
            && Fits(l, d') && (Mirrored(l, d) ==> Mirrored(l, d')) && SameBut(d, d', s, n) &&
               SameBut(Layered(l, d, w, x, f), Layered(l, d', w, x', f'), s, n)
            && forall i {:trigger Layered(l, d', w, x', f')[i]} :: s <= i < s + n ==>
                 Layered(l, d', w, x', f')[i] == data[o + (i - s) * SS..o + (i - s) * SS + SS]
  {
    var d': Drive := Overwrite(d, data, o, s, n);
    assert SameBut(d, d', s, n);
    OverwriteView(l, d, d', w, x, f, x', f', s, n);
  }

  /** The window x at sector w laid over the drive; the mirror of a FAT sector follows once the window is dirty. */
  function Layered(l: Layout, d: Drive, w: nat, x: Sector, dirty: bool): (v: Drive)
    requires Fits(l, d)
    ensures |v| == |d|
  {
    if w >= |d| then d else if dirty then Store(l, d, w, x) else d[w := x]
  }

  function ZeroSector(): Sector {
    seq(SS, _ => 0)
  }

  class FatFs {
    const layout: Layout
    const fsInfo: bool
    /** Whether the FAT copies agreed when the volume was mounted; if they did, they always will. */
    ghost const mirrored: bool
    const win: array<byte>
    var winsect: nat
    var wflag: bool
    var lastClst: nat
    var freeClst: nat
    var fsiDirty: bool
    var disk: Drive

    ghost predicate Valid()
      reads this, win
      ensures Valid() ==> Shaped()
    {
      && Shaped()
      && AsMirrored()
      && (!wflag && winsect < |disk| ==> disk[winsect] == win[..])
    }

    /** Valid(), except that a window marked clean may differ from the drive. */
    ghost predicate Shaped()
      reads this, win
    {
      && win.Length == SS
      && Fits(layout, disk)
      && lastClst < U32 && freeClst < U32 && winsect < U32
      && (wflag ==> winsect < |disk| && !layout.IsMirrorSector(winsect))
    }

    ghost predicate AsMirrored()
      requires Fits(layout, disk)
      reads this
    {
      mirrored ==> Mirrored(layout, disk)
    }

    /** The volume as callers see it: the window on top of the drive, a dirty FAT sector counted with its mirror. */
    ghost function View(): (v: Drive)
      requires Shaped()
      reads this, win
      ensures |v| == |disk| && Fits(layout, v)
    {
      Layered(layout, disk, winsect, win[..], wflag)
    }

    /** The end of find_volume, with the boot sector in the window: on a FAT32 volume whose boot record points to sector
        1, the counters are those of the FSInfo sector there. */
    constructor (l: Layout, d: Drive, bpbFsInfo: nat)
      requires Fits(l, d) && l.volbase < l.fatbase && 0 < l.fsize
      ensures Valid() && View() == d && layout == l && !wflag && fresh(win) && !fsiDirty
      ensures mirrored == Mirrored(l, d)
      ensures fsInfo == (l.fsType == Fat32 && bpbFsInfo == 1)
      ensures (freeClst, lastClst) == if fsInfo then FsInfo.Loaded(d[l.volbase + 1]) else (0xFFFF_FFFF, 0xFFFF_FFFF)
    {
      layout, disk := l, d;
      mirrored := Mirrored(l, d);
      fsInfo := l.fsType == Fat32 && bpbFsInfo == 1;
      win := new byte[SS](i requires 0 <= i < SS => d[l.volbase][i]);
      winsect := l.volbase;
      wflag := false;
      lastClst, freeClst, fsiDirty := 0xFFFF_FFFF, 0xFFFF_FFFF, false;
      new;
      assert win[..] == d[l.volbase];
      if fsInfo {
        MoveWindow(l.volbase + 1);
        if FsInfo.Signed(win[..]) {
          freeClst := FsInfo.DwordAt(win[..], FsInfo.FREE_AT);
          lastClst := FsInfo.DwordAt(win[..], FsInfo.NEXT_AT);
        }
      }
    }

    /** Everything but the drive, the window and its tag. */
    twostate predicate CountersUnchanged()
      reads this
    {
      lastClst == old(lastClst) && freeClst == old(freeClst) && fsiDirty == old(fsiDirty)
    }

    /** sync_window: write the dirty window back, then reflect it to the other FAT copy. */
    method SyncWindow()
      requires Valid()
      modifies this`disk, this`wflag
      ensures Valid() && View() == old(View())
      ensures disk == View() && !wflag
    {
      if wflag {
        ghost var x: Sector := win[..];
        ghost var d0: Drive := disk;
        ghost var d1: Drive := d0[winsect := x];
        var wsect := winsect;
        disk := disk[wsect := win[..]];
        wflag := false;
        FatAreaTest(layout, wsect);
        if Sub32(wsect, layout.fatbase) < layout.fsize {
          var nf := layout.nFats;
          while nf >= 2
            modifies this`disk
            invariant 1 <= nf <= layout.nFats
            invariant wsect == winsect + if nf == layout.nFats then 0 else layout.fsize
            invariant nf == layout.nFats ==> disk == d1
            invariant nf < layout.nFats ==> disk == d1[winsect + layout.fsize := x]
          {
            wsect := wsect + layout.fsize;
            disk := disk[wsect := win[..]];
            nf := nf - 1;
          }
        }
        assert disk == Store(layout, d0, winsect, x);
        if mirrored {
          StoreKeepsMirror(layout, d0, winsect, x);
        }
      }
    }

    /** sync_fs: the window reaches the drive, and on a volume with FSInfo so do the counters, when they have changed.
        The sector after the boot sector is overwritten, whatever it is. */
    method SyncFs()
      requires Valid() && layout.volbase < layout.fatbase && 0 < layout.fsize
      modifies this`disk, this`wflag, this`winsect, this`fsiDirty, win
      ensures !wflag && |disk| == |old(disk)| && lastClst == old(lastClst) && freeClst == old(freeClst)
      ensures if fsInfo && old(fsiDirty)
              then !fsiDirty && SameBut(old(View()), disk, layout.volbase + 1, 1) &&
                   FsInfo.Filled(disk[layout.volbase + 1], freeClst, lastClst)
              else fsiDirty == old(fsiDirty) && disk == old(View())
      ensures layout.volbase + 1 < layout.fatbase || !fsInfo || !old(fsiDirty) ==> Valid() && View() == disk
    {
      SyncWindow();
      if fsInfo && fsiDirty {
        FsInfo.Fill(win, freeClst, lastClst);
        winsect := layout.volbase + 1;
        disk := disk[winsect := win[..]];
        fsiDirty := false;
      }
    }

    /** move_window: bring a sector into the window. When the sector is already there nothing happens,
        even if the window is clean and differs from the drive. */
    method MoveWindow(sector: nat)
      requires Shaped() && sector < |disk| && (Valid() || (sector == winsect && AsMirrored()))
      modifies this`disk, this`wflag, this`winsect, win
      ensures Shaped() && AsMirrored() && (old(Valid()) ==> Valid())
      ensures View() == old(View())
      ensures winsect == sector && win[..] == View()[sector]
      ensures sector != old(winsect) ==> !wflag && disk == View()
      ensures sector == old(winsect) ==> wflag == old(wflag) && win[..] == old(win[..]) && disk == old(disk)
    {
      if sector != winsect {
        SyncWindow();
        forall i | 0 <= i < SS {
          win[i] := disk[sector][i];
        }
        assert win[..] == disk[sector];
        winsect := sector;
      }
    }

    /** Write back, then give the window another sector number without loading that sector. */
    method Relabel(sector: nat)
      requires Valid() && layout.database <= sector < |disk|
      modifies this`disk, this`wflag, this`winsect
      ensures Shaped() && AsMirrored() && winsect == sector
      ensures SameBut(old(View()), View(), sector, 1)
    {
      SyncWindow();
      winsect := sector;
    }

    /** The end of the f_write loop: n bytes of data from position o on go to position off of a data sector.
        On the growing edge of a file the sector is not loaded first. */
    method PatchSector(sector: nat, growing: bool, off: nat, data: array<byte>, o: nat, n: nat)
      requires Valid() && layout.database <= sector < |disk| && off + n <= SS
      requires data != win && o + n <= data.Length
      modifies this`disk, this`wflag, this`winsect, win
      ensures Valid() && wflag
      ensures SameBut(old(View()), View(), sector, 1)
      ensures View()[sector][off..off + n] == data[o..o + n]
      ensures !growing ==>
                forall k {:trigger View()[sector][k]} ::
                  0 <= k < SS && !(off <= k < off + n) ==> View()[sector][k] == old(View())[sector][k]
    {
      if growing {
        Relabel(sector);
      }
      MoveWindow(sector);
      CopyIn(off, data, o, n);
    }

    method CopyIn(off: nat, data: array<byte>, o: nat, n: nat)
      requires Shaped() && AsMirrored() && layout.database <= winsect < |disk| && off + n <= SS
      requires data != win && o + n <= data.Length
      modifies this`wflag, win
      ensures Valid() && wflag
      ensures SameBut(old(View()), View(), winsect, 1)
      ensures View()[winsect][off..off + n] == data[o..o + n]
      ensures forall k {:trigger View()[winsect][k]} ::
                0 <= k < SS && !(off <= k < off + n) ==> View()[winsect][k] == old(View())[winsect][k]
    {
      forall i | 0 <= i < n {
        win[off + i] := data[o + i];
      }
      wflag := true;
    }

    /** disk_write of n sectors of data straight to the drive; a window they overtake is refreshed and clean. */
    method WriteDirect(data: array<byte>, o: nat, sect: nat, n: nat)
      requires Valid() && data != win && o + n * SS <= data.Length
      requires layout.database <= sect && sect + n <= |disk|
      modifies this`disk, this`wflag, win
      ensures Valid() && winsect == old(winsect) && |View()| == |old(View())|
      ensures SameBut(old(View()), View(), sect, n)
      ensures forall i {:trigger View()[i]} ::
                sect <= i < sect + n ==> View()[i] == data[o + (i - sect) * SS..o + (i - sect) * SS + SS]
    {
      ghost var d, x, f := disk, win[..], wflag;
      disk := Overwrite(disk, data[..], o, sect, n);
      Refresh(data, o, sect, n);
      Overwritten(d, data[..], o, sect, n);
      hide Mirrored, Layered, SameBut, Overwrite;
      OverwrittenView(layout, d, winsect, x, f, win[..], wflag, data[..], o, sect, n);
    }

    /** If the window holds one of the sectors just written, it takes their data. */
    method Refresh(data: array<byte>, o: nat, sect: nat, n: nat)
      requires win.Length == SS && data != win && o + n * SS <= data.Length && winsect < U32 && sect < U32 &&
               n < U32 && sect + n < U32
      modifies this`wflag, win
      ensures if sect <= winsect < sect + n
              then !wflag && win[..] == data[o + (winsect - sect) * SS..o + (winsect - sect) * SS + SS]
              else wflag == old(wflag) && win[..] == old(win[..])
    {
      Sub32Value(winsect, sect);
      var k := Sub32(winsect, sect);
      if k < n {
        forall i | 0 <= i < SS {
          win[i] := data[o + k * SS + i];
        }
        wflag := false;
      }
    }

    /** The idiom fs->win[i] = b; fs->wflag = 1. */
    method Poke(i: nat, b: byte)
      requires Valid() && winsect < |disk| && !layout.IsMirrorSector(winsect) && i < SS
      modifies this`wflag, win
      ensures Valid() && wflag
      ensures win[..] == old(win[..])[i := b]
      ensures View() == Store(layout, old(View()), winsect, win[..])
    {
      win[i] := b;
      wflag := true;
    }

    /** Overwrite the bytes of x at position off of the sector in the window. */
    method PokeBytes(off: nat, x: seq<byte>)
      requires Valid() && winsect < |disk| && !layout.IsFatSector(winsect) && !layout.IsMirrorSector(winsect)
      requires off + |x| <= SS
      modifies this`wflag, win
      ensures Valid() && wflag && SameBut(old(View()), View(), winsect, 1)
      ensures View()[winsect] == old(View())[winsect][..off] + x + old(View())[winsect][off + |x|..]
    {
      ghost var w := win[..];
      forall i | 0 <= i < |x| {
        win[off + i] := x[i];
      }
      wflag := true;
      assert win[..] == w[..off] + x + w[off + |x|..];
    }

    /** A data sector takes the contents of the window, whatever it held. */
    method WriteWindow()
      requires Shaped() && AsMirrored() && layout.database <= winsect < |disk|
      modifies this`disk, this`wflag
      ensures Valid() && !wflag && disk == old(disk)[winsect := win[..]] && View() == disk
    {
      wflag := true;
      SyncWindow();
    }

    /** Fill n data sectors with zeros through the window, the way dir_next cleans a new cluster. */
    method FillZero(first: nat, n: nat)
      requires Valid() && layout.database <= first && first + n <= |disk| && 0 < n
      modifies this`disk, this`wflag, this`winsect, win
      ensures Valid() && SameBut(old(View()), View(), first, n)
      ensures forall i {:trigger View()[i]} :: first <= i < first + n ==> View()[i] == ZeroSector()
    {
      SyncWindow();
      ghost var v := View();
      forall i | 0 <= i < SS {
        win[i] := 0;
      }
      assert win[..] == ZeroSector();
      var k := 0;
      winsect := first;
      while k < n
        invariant 0 <= k <= n && winsect == first + k && !wflag
        invariant Shaped() && AsMirrored() && win[..] == ZeroSector()
        invariant SameBut(v, disk, first, k) &&
                  forall i {:trigger disk[i]} :: first <= i < first + k ==> disk[i] == ZeroSector()
      {
        WriteWindow();
        k := k + 1;
        winsect := winsect + 1;
      }
      winsect := winsect - k;
    }

    /** A data sector is seen as the drive has it, unless the dirty window holds it. */
    lemma SeenSector(s: nat)
      requires Valid() && layout.database <= s < |disk|
      ensures View()[s] == if wflag && winsect == s then win[..] else disk[s]
    {
    }

    /** disk_read of n sectors straight into the caller's buffer, with the dirty window laid over it. */
    method ReadDirect(buff: array<byte>, o: nat, sect: nat, n: nat)
      requires Valid() && buff != win && o + n * SS <= buff.Length
      requires layout.database <= sect && sect + n <= |disk|
      modifies buff
      ensures Valid() && View() == old(View())
      ensures forall j :: o <= j < o + n * SS ==> buff[j] == View()[sect + (j - o) / SS][(j - o) % SS]
      ensures forall i :: 0 <= i < buff.Length && !(o <= i < o + n * SS) ==> buff[i] == old(buff[i])
    {
      hide Mirrored, Layered;
      forall i | 0 <= i < n * SS {
        buff[o + i] := disk[sect + i / SS][i % SS];
      }
      Sub32Value(winsect, sect);
      var k := Sub32(winsect, sect);
      if wflag && k < n {
        forall i | 0 <= i < SS {
          buff[o + k * SS + i] := win[i];
        }
      }
      forall j | o <= j < o + n * SS
        ensures buff[j] == View()[sect + (j - o) / SS][(j - o) % SS]
      {
        OverlaidByte(k, j - o);
        SeenSector(sect + (j - o) / SS);
      }
    }
  }

  /** What sync_fs wrote, the next mount loads: the same volume with the same counters. */
  method Remount(fs: FatFs) returns (again: FatFs)
    requires fs.Valid() && fs.fsInfo && fs.fsiDirty && fs.layout.volbase + 1 < fs.layout.fatbase
    requires fs.layout.fsType == Fat32 && 0 < fs.layout.fsize
    modifies fs, fs.win
    ensures again.Valid() && fresh(again) && again.layout == fs.layout
    ensures SameBut(old(fs.View()), again.View(), fs.layout.volbase + 1, 1)
    ensures again.freeClst == old(fs.freeClst) && again.lastClst == old(fs.lastClst)
  {
    fs.SyncFs();
    again := new FatFs(fs.layout, fs.disk, 1);
  }

  /** Position i lies in block k exactly when its block number is k. */
  lemma OverlaidByte(k: nat, i: nat)
    ensures k * SS <= i < k * SS + SS <==> i / SS == k
    ensures i / SS == k ==> i == k * SS + i % SS
  {
  }
}
