/** Packed FAT entries: get_fat and put_fat through the sector window. */
module FatEntry {
  import opened Words
  import opened Geometry
  import opened Window
  import FsInfo

  /** The first FAT as one run of bytes. */
  function FatBytes(l: Layout, v: Drive): (m: seq<byte>)
    requires Fits(l, v)
    ensures |m| == SS * l.fsize
  {
    seq(SS * l.fsize, i requires 0 <= i < SS * l.fsize => v[l.fatbase + i / SS][i % SS])
  }

  /** Byte k after position i when both lie in one sector. */
  lemma FatByteIs(l: Layout, v: Drive, i: nat, k: nat)
    requires Fits(l, v) && i < SS * l.fsize && i % SS + k < SS
    ensures i + k < SS * l.fsize && l.fatbase + i / SS < |v|
    ensures FatBytes(l, v)[i + k] == v[l.fatbase + i / SS][i % SS + k]
  {
    SameSector(i, k);
  }

  lemma FatSectorExists(l: Layout, v: Drive, i: nat)
    requires Fits(l, v) && i < SS * l.fsize
    ensures l.fatbase + i / SS < |v|
  {
  }

  lemma SameSector(i: nat, k: nat)
    requires i % SS + k < SS
    ensures (i + k) / SS == i / SS && (i + k) % SS == i % SS + k
  {
  }

  /** The value of entry c: 12, 16 or 28 bits. */
  function Entry(t: FsType, m: seq<byte>, c: nat): nat
    requires EntryFits(t, m, c)
  {
    match t
    case Fat12 =>
      var wc := LdWord(m[c + c / 2], m[c + c / 2 + 1]);
      if c % 2 == 1 then wc / 0x10 else wc % 0x1000
    case Fat16 => LdWord(m[2 * c], m[2 * c + 1])
    case Fat32 => LdDword(m[4 * c], m[4 * c + 1], m[4 * c + 2], m[4 * c + 3]) % 0x1000_0000
  }

  predicate EntryFits(t: FsType, m: seq<byte>, c: nat) {
    match t
    case Fat12 => c + c / 2 + 1 < |m|
    case Fat16 => 2 * c + 1 < |m|
    case Fat32 => 4 * c + 3 < |m|
  }

  /** The first FAT is its sectors one after the other. */
  lemma FatOnDisk(l: Layout, v: Drive, s: nat)
    requires Fits(l, v) && s < l.fsize
    ensures 512 * s + 512 <= |FatBytes(l, v)| && l.fatbase + s < |v|
    ensures FatBytes(l, v)[512 * s..512 * s + 512] == v[l.fatbase + s]
  {
    forall i {:trigger v[l.fatbase + s][i]} | 0 <= i < 512
      ensures FatBytes(l, v)[512 * s + i] == v[l.fatbase + s][i]
    {
      DivModUnique(512 * s + i, 512, s, i);
    }
  }

  /** Two entries of a FAT12 are three bytes, the lower number in the lower 12 bits. An entry is at most 12 bits wide,
      so that the bytes determine both. */
  lemma PackedPair(m: seq<byte>, k: nat)
    requires 3 * k + 1 < |m|
    ensures var a: nat, b: nat := m[3 * k], m[3 * k + 1];
            && EntryFits(Fat12, m, 2 * k) && Entry(Fat12, m, 2 * k) == a + 0x100 * (b % 0x10)
            && (3 * k + 2 < |m| ==>
                  var c: nat := m[3 * k + 2];
                  && EntryFits(Fat12, m, 2 * k + 1) && Entry(Fat12, m, 2 * k + 1) < 0x1000
                  && Entry(Fat12, m, 2 * k) + 0x1000 * Entry(Fat12, m, 2 * k + 1) == a + 0x100 * b + 0x1_0000 * c)
  {
    var lo: nat, mid: nat := m[3 * k], m[3 * k + 1];
    DivModUnique(LdWord(lo, mid), 0x1000, mid / 0x10, lo + 0x100 * (mid % 0x10));
    if 3 * k + 2 < |m| {
      var hi: nat := m[3 * k + 2];
      DivModUnique(LdWord(mid, hi), 0x10, mid / 0x10 + 0x10 * hi, mid % 0x10);
    }
  }

  /** An entry of a FAT16 is two bytes, one of a FAT32 four, the lowest first; the upper four bits of those are not part
      of the value. */
  lemma EntryBytes(m: seq<byte>, c: nat)
    ensures 2 * c + 1 < |m| ==>
              var a: nat, b: nat := m[2 * c], m[2 * c + 1];
              EntryFits(Fat16, m, c) && Entry(Fat16, m, c) == a + 0x100 * b
    ensures 4 * c + 3 < |m| ==>
              var a: nat, b: nat, d: nat, e: nat := m[4 * c], m[4 * c + 1], m[4 * c + 2], m[4 * c + 3];
              && EntryFits(Fat32, m, c) && Entry(Fat32, m, c) < 0x1000_0000
              && Entry(Fat32, m, c) + 0x1000_0000 * Reserved(m, c) == a + 0x100 * b + 0x1_0000 * d + 0x100_0000 * e
  {
    if 4 * c + 3 < |m| {
      var a: nat, b: nat, d: nat, e: nat := m[4 * c], m[4 * c + 1], m[4 * c + 2], m[4 * c + 3];
      DivModUnique(LdDword(m[4 * c], m[4 * c + 1], m[4 * c + 2], m[4 * c + 3]), 0x1000_0000, e / 0x10,
                   a + 0x100 * b + 0x1_0000 * d + 0x100_0000 * (e % 0x10));
    }
  }

  /** The 4 bits of a FAT32 entry that are not part of its value. */
  function Reserved(m: seq<byte>, c: nat): nat
    requires EntryFits(Fat32, m, c)
  {
    m[4 * c + 3] / 0x10
  }

  function Fat(l: Layout, v: Drive): (f: seq<nat>)
    requires Fits(l, v) && l.Sound()
    ensures |f| == l.nFatent
    ensures forall c {:trigger f[c]} ::
              0 <= c < |f| ==> EntryFits(l.fsType, FatBytes(l, v), c) && f[c] == Entry(l.fsType, FatBytes(l, v), c)
  {
    var m := FatBytes(l, v);
    assert forall c: nat {:trigger EntryFits(l.fsType, m, c)} :: c < l.nFatent ==> EntryFits(l.fsType, m, c);
    seq(l.nFatent, c requires 0 <= c < l.nFatent => Entry(l.fsType, m, c))
  }

  /** sync_fs and the FAT: it stays when more than the boot sector is reserved; otherwise the sector written is its
      first one, and all the clusters whose entries lie between the two signatures become free. */
  lemma FatAfterSync(l: Layout, v: Drive, w: Drive, free: nat, last: nat)
    requires Fits(l, v) && Fits(l, w) && l.Sound() && l.fsType == Fat32 && l.volbase < l.fatbase
    requires SameBut(v, w, l.volbase + 1, 1) && FsInfo.Filled(w[l.volbase + 1], free, last)
    ensures l.volbase + 1 < l.fatbase ==> Fat(l, w) == Fat(l, v)
    ensures l.volbase + 1 == l.fatbase ==>
              forall c :: 2 <= c < FsInfo.STRUC_AT / 4 && c < l.nFatent ==> Fat(l, w)[c] == 0
  {
    hide Entry, LdDword, LdWord, FsInfo.Signed, FsInfo.Loaded, Layout.Sound;
    if l.volbase + 1 < l.fatbase {
      assert FatBytes(l, w) == FatBytes(l, v);
    } else {
      forall c | 2 <= c < FsInfo.STRUC_AT / 4 && c < l.nFatent
        ensures Fat(l, w)[c] == 0
      {
        assert Fat(l, w)[c] >= 0;
        ClearedEntry(FatBytes(l, w), c);
      }
    }
  }

  lemma ClearedEntry(m: seq<byte>, c: nat)
    requires EntryFits(Fat32, m, c) && m[4 * c] == m[4 * c + 1] == m[4 * c + 2] == m[4 * c + 3] == 0
    ensures Entry(Fat32, m, c) == 0
  {
  }

  /** No sector outside the FAT copies differs. */
  ghost predicate SameOutsideFat(l: Layout, v: Drive, w: Drive)
    ensures SameOutsideFat(l, v, w) ==> |v| == |w|
  {
    |v| == |w| && forall s :: 0 <= s < |v| && !l.IsFatSector(s) && !l.IsMirrorSector(s) ==> v[s] == w[s]
  }

  lemma SameOutsideFatRefl(l: Layout, v: Drive)
    ensures SameOutsideFat(l, v, v)
  {
  }

  lemma SameOutsideFatTrans(l: Layout, u: Drive, v: Drive, w: Drive)
    requires SameOutsideFat(l, u, v) && SameOutsideFat(l, v, w)
    ensures SameOutsideFat(l, u, w)
  {
  }

  /** Entries are as wide as the FAT sub-type says. */
  lemma EntryWidth(l: Layout, v: Drive, c: nat)
    requires Fits(l, v) && l.Sound() && c < l.nFatent
    ensures Fat(l, v)[c] < l.EntryRange()
  {
  }

  lemma FatFrame(l: Layout, v: Drive, w: Drive)
    requires Fits(l, v) && l.Sound() && |w| == |v|
    requires forall s :: l.IsFatSector(s) ==> v[s] == w[s]
    ensures FatBytes(l, v) == FatBytes(l, w) && Fat(l, v) == Fat(l, w)
  {
  }

  lemma StoreFatByte(l: Layout, v: Drive, i: nat, b: byte)
    requires Fits(l, v) && i < SS * l.fsize
    ensures var s := l.fatbase + i / SS;
            var w := Store(l, v, s, v[s][i % SS := b]);
            FatBytes(l, w) == FatBytes(l, v)[i := b] && SameOutsideFat(l, v, w)
  {
    var s := l.fatbase + i / SS;
    var w := Store(l, v, s, v[s][i % SS := b]);
    forall j | 0 <= j < SS * l.fsize
      ensures FatBytes(l, w)[j] == FatBytes(l, v)[i := b][j]
    {
      if j / SS == i / SS {
        assert j % SS == i % SS <==> j == i;
      }
    }
  }

  /** The low n bytes of x stored from position i on. */
  function SetBytes(m: seq<byte>, i: nat, n: nat, x: nat): (r: seq<byte>)
    requires n <= 4 && i + n <= |m|
    ensures |r| == |m|
    ensures forall j {:trigger r[j]} :: 0 <= j < |m| ==> r[j] == if i <= j < i + n then ByteOf(x, j - i) else m[j]
  {
    if n == 0 then m else SetBytes(m, i, n - 1, x)[i + n - 1 := ByteOf(x, n - 1)]
  }

  /** The bytes put_fat leaves behind. */
  function PutBytes(t: FsType, m: seq<byte>, c: nat, val: nat): seq<byte>
    requires EntryFits(t, m, c)
  {
    match t
    case Fat12 =>
      var bc := c + c / 2;
      if c % 2 == 1 then
        m[bc := Nibbles(m[bc], val)][bc + 1 := val / 0x10 % 0x100]
      else
        m[bc := val % 0x100][bc + 1 := Nibbles(val / 0x100, m[bc + 1] / 0x10)]
    case Fat16 => SetBytes(m, 2 * c, 2, val)
    case Fat32 => SetBytes(m, 4 * c, 4, val % 0x1000_0000 + 0x1000_0000 * Reserved(m, c))
  }

  /** The byte with the low 4 bits of one number below the low 4 bits of another. */
  function Nibbles(low: nat, high: nat): byte {
    low % 0x10 + (high % 0x10) * 0x10
  }

  lemma Split12(val: nat)
    ensures val % 0x10 + 0x10 * (val / 0x10 % 0x100) == val % 0x1000
    ensures val % 0x100 + 0x100 * (val / 0x100 % 0x10) == val % 0x1000
  {
    SplitMod(val, 0x10, 0x100);
    SplitMod(val, 0x100, 0x10);
  }
  lemma Odd(p: byte, h: byte, val: nat)
    ensures LdWord(Nibbles(p, val), h) / 0x10 == val % 0x10 + 0x10 * h
    ensures LdWord(Nibbles(p, val), h) % 0x10 == p % 0x10
  {
    var w := LdWord(Nibbles(p, val), h);
    assert w == p % 0x10 + 0x10 * (val % 0x10 + 0x10 * h);
  }
  lemma Even(lo: byte, a: nat, b: nat)
    ensures LdWord(lo, Nibbles(a, b)) % 0x1000 == lo + 0x100 * (a % 0x10)
    ensures Nibbles(a, b) / 0x10 == b % 0x10
  {
    var w := LdWord(lo, Nibbles(a, b));
    assert w == lo + 0x100 * (a % 0x10) + 0x1000 * (b % 0x10);
  }
  lemma LowNibble(lo: byte, p: byte, q: byte)
    requires p % 0x10 == q % 0x10
    ensures LdWord(lo, p) % 0x1000 == LdWord(lo, q) % 0x1000
  {
    DivModUnique(LdWord(lo, p), 0x1000, p / 0x10, lo + 0x100 * (p % 0x10));
    DivModUnique(LdWord(lo, q), 0x1000, q / 0x10, lo + 0x100 * (q % 0x10));
  }

  lemma Sixteen(val: nat)
    ensures LdWord(ByteOf(val, 0), ByteOf(val, 1)) == val % 0x1_0000
  {
  }

  lemma TwentyEight(val: nat, r: nat)
    requires r < 0x10
    ensures var x := val % 0x1000_0000 + 0x1000_0000 * r;
            x < U32 && x % 0x1000_0000 == val % 0x1000_0000 && ByteOf(x, 3) / 0x10 == r
  {
  }

  /** get_fat after put_fat: the entry written holds the value truncated to its width. */
  lemma GetAfterPut(l: Layout, m: seq<byte>, c: nat, val: nat)
    requires EntryFits(l.fsType, m, c)
    ensures Entry(l.fsType, PutBytes(l.fsType, m, c, val), c) == val % l.EntryRange()
  {
    match l.fsType
    case Fat12 =>
      Split12(val);
      if c % 2 == 1 {
        Odd(m[c + c / 2], val / 0x10 % 0x100, val);
      } else {
        Even(val % 0x100, val / 0x100, m[c + c / 2 + 1] / 0x10);
      }
    case Fat16 => Sixteen(val);
    case Fat32 =>
      TwentyEight(val, Reserved(m, c));
      LoadStoreDword(val % 0x1000_0000 + 0x1000_0000 * Reserved(m, c));
  }

  /** Every other entry reads as before, although FAT12 neighbours share a byte. */
  lemma OthersAfterPut(t: FsType, m: seq<byte>, c: nat, val: nat, j: nat)
    requires EntryFits(t, m, c) && EntryFits(t, m, j) && j != c
    ensures Entry(t, PutBytes(t, m, c, val), j) == Entry(t, m, j)
    ensures t == Fat32 ==> Reserved(PutBytes(t, m, c, val), j) == Reserved(m, j)
  {
    match t
    case Fat12 =>
      var bj := j + j / 2;
      if c % 2 == 0 && j == c + 1 {
        Even(0, val / 0x100, m[bj] / 0x10);
        HighNibble(m[bj], Nibbles(val / 0x100, m[bj] / 0x10), m[bj + 1]);
      } else if c % 2 == 1 && c == j + 1 {
        Odd(m[bj + 1], 0, val);
        LowNibble(m[bj], m[bj + 1], Nibbles(m[bj + 1], val));
      }
    case Fat16 =>
    case Fat32 =>
  }

  lemma HighNibble(p: byte, q: byte, h: byte)
    requires p / 0x10 == q / 0x10
    ensures LdWord(p, h) / 0x10 == LdWord(q, h) / 0x10
  {
  }

  /** FAT32 keeps its four reserved bits, in the written entry too. */
  lemma ReservedAfterPut(m: seq<byte>, c: nat, val: nat)
    requires EntryFits(Fat32, m, c)
    ensures Reserved(PutBytes(Fat32, m, c, val), c) == Reserved(m, c)
  {
    TwentyEight(val, Reserved(m, c));
  }

  lemma FatAfterPut(l: Layout, v: Drive, w: Drive, c: nat, val: nat)
    requires Fits(l, v) && l.Sound() && Fits(l, w) && c < l.nFatent
    requires EntryFits(l.fsType, FatBytes(l, v), c)
    requires FatBytes(l, w) == PutBytes(l.fsType, FatBytes(l, v), c, val)
    ensures Fat(l, w) == Fat(l, v)[c := val % l.EntryRange()]
  {
    forall j: nat | j < l.nFatent
      ensures Fat(l, w)[j] == Fat(l, v)[c := val % l.EntryRange()][j]
    {
      var f, g := Fat(l, v)[j], Fat(l, w)[j];
      if j == c {
        GetAfterPut(l, FatBytes(l, v), c, val);
      } else {
        OthersAfterPut(l.fsType, FatBytes(l, v), c, val, j);
      }
    }
  }

  /** One byte of the FAT, brought into the window. */
  method FatByteAt(fs: FatFs, i: nat) returns (b: byte)
    requires fs.Valid() && i < SS * fs.layout.fsize
    modifies fs, fs.win
    ensures fs.Valid() && fs.View() == old(fs.View()) && fs.CountersUnchanged()
    ensures b == FatBytes(fs.layout, fs.View())[i]
    ensures fs.winsect == fs.layout.fatbase + i / SS
  {
    fs.MoveWindow(fs.layout.fatbase + i / SS);
    b := fs.win[i % SS];
    hide FatBytes, FatFs.Valid, FatFs.View, Fits;
    FatByteIs(fs.layout, fs.View(), i, 0);
  }

  /** Overwrite one byte of the FAT sector that is in the window. */
  method SetFatByte(fs: FatFs, i: nat, b: byte)
    requires fs.Valid() && i < SS * fs.layout.fsize && fs.winsect == fs.layout.fatbase + i / SS
    modifies fs, fs.win
    ensures fs.Valid() && fs.CountersUnchanged() && fs.winsect == old(fs.winsect)
    ensures FatBytes(fs.layout, fs.View()) == FatBytes(fs.layout, old(fs.View()))[i := b]
    ensures SameOutsideFat(fs.layout, old(fs.View()), fs.View())
  {
    ghost var v := fs.View();
    assert v[fs.winsect] == fs.win[..];
    fs.Poke(i % SS, b);
    StoreFatByte(fs.layout, v, i, b);
  }

  /** get_fat */
  method GetFat(fs: FatFs, clst: nat) returns (val: nat)
    requires fs.Valid() && fs.layout.Sound()
    modifies fs, fs.win
    ensures fs.Valid() && fs.View() == old(fs.View()) && fs.CountersUnchanged()
    ensures val == if 2 <= clst < fs.layout.nFatent then Fat(fs.layout, fs.View())[clst] else 1
  {
    if clst < 2 || clst >= fs.layout.nFatent {
      return 1;
    }
    ghost var f := Fat(fs.layout, fs.View())[clst];
    match fs.layout.fsType {
      case Fat12 => val := GetFat12(fs, clst);
      case Fat16 => val := GetFat16(fs, clst);
      case Fat32 => val := GetFat32(fs, clst);
    }
  }

  method GetFat12(fs: FatFs, clst: nat) returns (val: nat)
    requires fs.Valid() && EntryFits(Fat12, FatBytes(fs.layout, fs.View()), clst)
    modifies fs, fs.win
    ensures fs.Valid() && fs.View() == old(fs.View()) && fs.CountersUnchanged()
    ensures val == Entry(Fat12, FatBytes(fs.layout, fs.View()), clst)
  {
    hide FatBytes, FatFs.Valid, FatFs.View, FatFs.Shaped, Fits;
    var bc := clst + clst / 2;
    var lo := FatByteAt(fs, bc);
    var hi := FatByteAt(fs, bc + 1);
    val := if clst % 2 == 1 then LdWord(lo, hi) / 0x10 else LdWord(lo, hi) % 0x1000;
  }

  method GetFat16(fs: FatFs, clst: nat) returns (val: nat)
    requires fs.Valid() && EntryFits(Fat16, FatBytes(fs.layout, fs.View()), clst)
    modifies fs, fs.win
    ensures fs.Valid() && fs.View() == old(fs.View()) && fs.CountersUnchanged()
    ensures val == Entry(Fat16, FatBytes(fs.layout, fs.View()), clst)
  {
    hide FatBytes, FatFs.Valid, FatFs.View, FatFs.Shaped, Fits;
    InOneSector(clst, 2, SS / 2);
    var i := clst * 2;
    FatSectorExists(fs.layout, fs.View(), clst * 2);
    fs.MoveWindow(fs.layout.fatbase + clst / (SS / 2));
    FatByteIs(fs.layout, fs.View(), i, 0);
    FatByteIs(fs.layout, fs.View(), i, 1);
    val := LdWord(fs.win[i % SS], fs.win[i % SS + 1]);
  }

  method GetFat32(fs: FatFs, clst: nat) returns (val: nat)
    requires fs.Valid() && EntryFits(Fat32, FatBytes(fs.layout, fs.View()), clst)
    modifies fs, fs.win
    ensures fs.Valid() && fs.View() == old(fs.View()) && fs.CountersUnchanged()
    ensures val == Entry(Fat32, FatBytes(fs.layout, fs.View()), clst)
  {
    hide FatBytes, FatFs.Valid, FatFs.View, FatFs.Shaped, Fits;
    InOneSector(clst, 4, SS / 4);
    var i := clst * 4;
    FatSectorExists(fs.layout, fs.View(), clst * 4);
    fs.MoveWindow(fs.layout.fatbase + clst / (SS / 4));
    FatByteIs(fs.layout, fs.View(), i, 0);
    FatByteIs(fs.layout, fs.View(), i, 1);
    FatByteIs(fs.layout, fs.View(), i, 2);
    FatByteIs(fs.layout, fs.View(), i, 3);
    var o := i % SS;
    val := LdDword(fs.win[o], fs.win[o + 1], fs.win[o + 2], fs.win[o + 3]) % 0x1000_0000;
  }

  /** Entries of 2 or 4 bytes never straddle two sectors. */
  lemma InOneSector(clst: nat, n: nat, perSector: nat)
    requires n > 0 && n * perSector == SS
    ensures clst * n / SS == clst / perSector && clst * n % SS + n <= SS
  {
    var q, r := clst / perSector, clst % perSector;
    assert clst * n == SS * q + r * n by {
      assert clst == perSector * q + r;
      assert (perSector * q) * n == (n * perSector) * q;
    }
    assert r * n + n <= SS by { MulMonotone(n, r + 1, perSector); }
    DivModUnique(clst * n, SS, q, r * n);
  }

  /** st_word and st_dword on the FAT sector that is in the window: the low n bytes of x from byte i on. */
  method SetFatBytes(fs: FatFs, i: nat, n: nat, x: nat)
    requires fs.Valid() && n <= 4 && i + n <= SS * fs.layout.fsize
    requires i % SS + n <= SS && fs.winsect == fs.layout.fatbase + i / SS
    modifies fs, fs.win
    ensures fs.Valid() && fs.CountersUnchanged()
    ensures FatBytes(fs.layout, fs.View()) == SetBytes(FatBytes(fs.layout, old(fs.View())), i, n, x)
    ensures SameOutsideFat(fs.layout, old(fs.View()), fs.View())
  {
    hide FatBytes, FatFs.Valid, FatFs.View, FatFs.Shaped, Fits;
    ghost var m := FatBytes(fs.layout, fs.View());
    var k := 0;
    while k < n
      invariant k <= n
      invariant fs.Valid() && fs.CountersUnchanged() && fs.winsect == old(fs.winsect)
      invariant |fs.View()| == |old(fs.View())| && SameOutsideFat(fs.layout, old(fs.View()), fs.View())
      invariant FatBytes(fs.layout, fs.View()) == SetBytes(m, i, k, x)
    {
      SameSector(i, k);
      SetFatByte(fs, i + k, ByteOf(x, k));
      k := k + 1;
    }
  }

  method PutFat12(fs: FatFs, clst: nat, val: nat)
    requires fs.Valid() && EntryFits(Fat12, FatBytes(fs.layout, fs.View()), clst)
    modifies fs, fs.win
    ensures fs.Valid() && fs.CountersUnchanged() && SameOutsideFat(fs.layout, old(fs.View()), fs.View())
    ensures FatBytes(fs.layout, fs.View()) == PutBytes(Fat12, FatBytes(fs.layout, old(fs.View())), clst, val)
  {
    hide FatBytes, FatFs.Valid, FatFs.View, FatFs.Shaped, Fits;
    var bc := clst + clst / 2;
    var p := FatByteAt(fs, bc);
    if clst % 2 == 1 {
      SetFatByte(fs, bc, Nibbles(p, val));
      p := FatByteAt(fs, bc + 1);
      SetFatByte(fs, bc + 1, val / 0x10 % 0x100);
    } else {
      SetFatByte(fs, bc, val % 0x100);
      p := FatByteAt(fs, bc + 1);
      SetFatByte(fs, bc + 1, Nibbles(val / 0x100, p / 0x10));
    }
  }

  method PutFat16(fs: FatFs, clst: nat, val: nat)
    requires fs.Valid() && EntryFits(Fat16, FatBytes(fs.layout, fs.View()), clst)
    modifies fs, fs.win
    ensures fs.Valid() && fs.CountersUnchanged() && SameOutsideFat(fs.layout, old(fs.View()), fs.View())
    ensures FatBytes(fs.layout, fs.View()) == PutBytes(Fat16, FatBytes(fs.layout, old(fs.View())), clst, val)
  {
    hide FatBytes, FatFs.Valid, FatFs.View, FatFs.Shaped, Fits;
    InOneSector(clst, 2, SS / 2);
    FatSectorExists(fs.layout, fs.View(), clst * 2);
    fs.MoveWindow(fs.layout.fatbase + clst / (SS / 2));
    SetFatBytes(fs, clst * 2, 2, val);
  }

  method PutFat32(fs: FatFs, clst: nat, val: nat)
    requires fs.Valid() && EntryFits(Fat32, FatBytes(fs.layout, fs.View()), clst)
    modifies fs, fs.win
    ensures fs.Valid() && fs.CountersUnchanged() && SameOutsideFat(fs.layout, old(fs.View()), fs.View())
    ensures FatBytes(fs.layout, fs.View()) == PutBytes(Fat32, FatBytes(fs.layout, old(fs.View())), clst, val)
  {
    hide FatBytes, FatFs.Valid, FatFs.View, FatFs.Shaped, Fits;
    InOneSector(clst, 4, SS / 4);
    FatSectorExists(fs.layout, fs.View(), clst * 4);
    fs.MoveWindow(fs.layout.fatbase + clst / (SS / 4));
    hide SetBytes;
    FatByteIs(fs.layout, fs.View(), clst * 4, 3);
    var top: nat := fs.win[clst * 4 % SS + 3] / 0x10;
    var x := val % 0x1000_0000 + 0x1000_0000 * top;
    assert x == val % 0x1000_0000 + 0x1000_0000 * Reserved(FatBytes(fs.layout, fs.View()), clst);
    SetFatBytes(fs, clst * 4, 4, x);
  }

  /** put_fat */
  method PutFat(fs: FatFs, clst: nat, val: nat) returns (ok: bool)
    requires fs.Valid() && fs.layout.Sound()
    modifies fs, fs.win
    ensures fs.Valid() && fs.CountersUnchanged()
    ensures ok <==> 2 <= clst < fs.layout.nFatent
    ensures !ok ==> fs.View() == old(fs.View())
    ensures ok ==> Fat(fs.layout, fs.View()) == Fat(fs.layout, old(fs.View()))[clst := val % fs.layout.EntryRange()]
    ensures ok ==>
              FatBytes(fs.layout, fs.View()) ==
                PutBytes(fs.layout.fsType, FatBytes(fs.layout, old(fs.View())), clst, val)
    ensures SameOutsideFat(fs.layout, old(fs.View()), fs.View())
  {
    if clst < 2 || clst >= fs.layout.nFatent {
      return false;
    }
    ghost var v := fs.View();
    ghost var f := Fat(fs.layout, v)[clst];
    match fs.layout.fsType {
      case Fat12 => PutFat12(fs, clst, val);
      case Fat16 => PutFat16(fs, clst, val);
      case Fat32 => PutFat32(fs, clst, val);
    }
    FatAfterPut(fs.layout, v, fs.View(), clst, val);
    ok := true;
  }
}
