/** The layout of a mounted FAT volume and the checks find_volume makes before it accepts one. */
module Geometry {
  import opened Words

  const MAX_FAT12 := 0xFF5
  const MAX_FAT16 := 0xFFF5
  const MAX_FAT32 := 0xFFF_FFF5
  const MOST_CLUSTERS := 0xFFF_FFFD
  const SZDIRE := 32
  const DIRENTS_PER_SECTOR := 16

  datatype FsType = Fat12 | Fat16 | Fat32

  /** The constant part of FATFS after a mount. dirbase is a sector on FAT12/16, a cluster on FAT32. */
  datatype Layout = Layout(
    fsType: FsType,
    nFats: nat,
    csize: nat,
    nRootdir: nat,
    nFatent: nat,
    fsize: nat,
    volbase: nat,
    fatbase: nat,
    dirbase: nat,
    database: nat)
  {
    /** Number of entry values put_fat can store: entries have 12, 16 or 28 bits. */
    function EntryRange(): nat {
      match fsType
      case Fat12 => 0x1000
      case Fat16 => 0x1_0000
      case Fat32 => 0x1000_0000
    }

    /** What put_fat leaves in an entry when it is told to store 0xFFFFFFFF. */
    function Eoc(): nat {
      EntryRange() - 1
    }

    /** The mark of a bad cluster; the values above it are the end marks the FAT specification allows. */
    function BadMark(): nat {
      EntryRange() - 9
    }

    /** Offset in the FAT of the last byte the entry of cluster c uses. */
    function LastByteOfEntry(c: nat): nat {
      match fsType
      case Fat12 => c + c / 2 + 1
      case Fat16 => 2 * c + 1
      case Fat32 => 4 * c + 3
    }

    predicate IsFatSector(s: int) {
      fatbase <= s < fatbase + fsize
    }

    predicate IsMirrorSector(s: int) {
      nFats == 2 && fatbase + fsize <= s < fatbase + 2 * fsize
    }

    /** One past the last data sector. */
    function End(): nat
      requires nFatent >= 2
    {
      database + csize * (nFatent - 2)
    }

    /** Sectors taken by all copies of the FAT. */
    function FatSectors(): nat {
      if nFats == 2 then 2 * fsize else fsize
    }

    /** Reserved sectors, FATs and data follow each other. */
    predicate Areas() {
      && (nFats == 1 || nFats == 2)
      && 0 < fatbase && fatbase + FatSectors() <= database < U32
    }

    /** Everything the rest of the code takes for granted about an accepted volume. */
    predicate Sound() {
      && Areas()
      && 1 <= csize <= 128 && PowerOfTwo(csize)
      && 3 <= nFatent <= Eoc()
      && LastByteOfEntry(nFatent - 1) < SS * fsize
      && nRootdir % DIRENTS_PER_SECTOR == 0
      && (fsType != Fat32 ==>
            dirbase == fatbase + FatSectors()
            && 0 < nRootdir && database == dirbase + nRootdir / DIRENTS_PER_SECTOR)
      && End() < U32
    }

    function ClusterBytes(): nat {
      csize * SS
    }
  }

  /** The linear part of Sound(). */
  lemma SoundFacts(l: Layout)
    requires l.Sound()
    ensures l.Areas() && 1 <= l.csize <= 128 && PowerOfTwo(l.csize)
    ensures 3 <= l.nFatent <= l.Eoc() && l.Eoc() == l.EntryRange() - 1 < U32
    ensures l.End() < U32 && 0 < l.fsize
  {
  }

  /** The fields of the BIOS parameter block find_volume looks at. */
  datatype Bpb = Bpb(
    bytsPerSec: nat,
    fatSz16: nat,
    fatSz32: nat,
    numFats: byte,
    secPerClus: byte,
    rootEntCnt: nat,
    totSec16: nat,
    totSec32: nat,
    rsvdSecCnt: nat,
    fsVer32: nat,
    rootClus32: nat)
  {
    predicate FieldWidths() {
      && bytsPerSec < 0x1_0000 && fatSz16 < 0x1_0000 && rootEntCnt < 0x1_0000
      && totSec16 < 0x1_0000 && rsvdSecCnt < 0x1_0000 && fsVer32 < 0x1_0000
      && fatSz32 < U32 && totSec32 < U32 && rootClus32 < U32
    }

    function FatSize(): nat {
      if fatSz16 == 0 then fatSz32 else fatSz16
    }

    function TotalSectors(): nat {
      if totSec16 == 0 then totSec32 else totSec16
    }

    /** Reserved, FAT and root directory sectors, as find_volume adds them up. */
    function SystemSectors(): nat {
      Add32(Add32(rsvdSecCnt, FatSize() * numFats), rootEntCnt / DIRENTS_PER_SECTOR)
    }

    function Clusters(): nat
      requires 0 < secPerClus
    {
      if TotalSectors() < SystemSectors() then 0 else (TotalSectors() - SystemSectors()) / secPerClus
    }

    /** The same sum without wrap-around. */
    function TrueSystemSectors(): nat {
      rsvdSecCnt + FatSize() * numFats + rootEntCnt / DIRENTS_PER_SECTOR
    }

    /** What makes an accepted volume sound: the system area is really inside it, the end mark lies above all its
        clusters, and its last sector has a 32-bit number. The mount code checks none of the three. */
    predicate Addressable(bsect: nat)
      requires 0 < secPerClus
    {
      && TrueSystemSectors() <= TotalSectors()
      && var n := (TotalSectors() - TrueSystemSectors()) / secPerClus;
         n <= MOST_CLUSTERS && bsect + TrueSystemSectors() + secPerClus * n < U32
    }
  }

  datatype Mount = NoFilesystem | Mounted(layout: Layout)

  function SubType(nclst: nat): FsType {
    if nclst <= MAX_FAT12 then Fat12 else if nclst <= MAX_FAT16 then Fat16 else Fat32
  }

  /** Bytes of FAT the mount code asks for. */
  function NeededFatBytes(t: FsType, nFatent: nat): nat {
    match t
    case Fat12 => nFatent * 3 / 2 + nFatent % 2
    case Fat16 => Add32(nFatent * 2, 0)
    case Fat32 => Add32(nFatent * 4, 0)
  }

  /** The FAT12/16/32 branch of find_volume; bsect is the first sector of the volume. */
  function FindVolume(b: Bpb, bsect: nat): Mount {
    if b.bytsPerSec != SS then NoFilesystem
    else if b.numFats != 1 && b.numFats != 2 then NoFilesystem
    else if b.secPerClus == 0 || BitAnd(b.secPerClus, b.secPerClus - 1) != 0 then NoFilesystem
    else if b.rootEntCnt % DIRENTS_PER_SECTOR != 0 then NoFilesystem
    else if b.rsvdSecCnt == 0 then NoFilesystem
    else if b.TotalSectors() < b.SystemSectors() then NoFilesystem
    else
      var nclst := b.Clusters();
      if nclst == 0 then NoFilesystem
      else
        var fmt := SubType(nclst);
        var n := Add32(nclst, 2);
        var fatbase := Add32(bsect, b.rsvdSecCnt);
        var database := Add32(bsect, b.SystemSectors());
        if fmt == Fat32 && (b.fsVer32 != 0 || b.rootEntCnt != 0) then NoFilesystem
        else if fmt != Fat32 && b.rootEntCnt == 0 then NoFilesystem
        else if b.FatSize() < Add32(NeededFatBytes(fmt, n), SS - 1) / SS then NoFilesystem
        else
          var dirbase := if fmt == Fat32 then b.rootClus32 else Add32(fatbase, Add32(b.FatSize() * b.numFats, 0));
          Mounted(Layout(fmt, b.numFats, b.secPerClus, b.rootEntCnt, n, b.FatSize(), bsect,
                         fatbase, dirbase, database))
  }

  lemma TwelveBits(n: nat)
    requires n >= 2
    ensures (n - 1) + (n - 1) / 2 + 2 == n * 3 / 2 + n % 2
  {
  }

  /** The size check at mount puts both ends of every FAT entry inside the FAT. */
  lemma EntriesFit(t: FsType, n: nat, fsize: nat, l: Layout)
    requires 2 <= n <= MOST_CLUSTERS + 2 && (t == Fat12 ==> n <= MAX_FAT12 + 2) && (t == Fat16 ==> n <= MAX_FAT16 + 2)
    requires l.fsType == t && l.nFatent == n
    ensures fsize >= Add32(NeededFatBytes(t, n), SS - 1) / SS <==> l.LastByteOfEntry(n - 1) < SS * fsize
  {
    var need := NeededFatBytes(t, n);
    match t {
      case Fat12 => TwelveBits(n);
      case Fat16 => Add32Value(n * 2, 0);
      case Fat32 => Add32Value(n * 4, 0);
    }
    assert l.LastByteOfEntry(n - 1) + 1 == need;
    hide Add32, NeededFatBytes, Layout.LastByteOfEntry;
    Add32Value(need, SS - 1);
  }

  /** A volume find_volume accepts is sound, with its FAT where the reserved sectors end, exactly when it is
      addressable. */
  lemma {:induction false} MountedIsSound(b: Bpb, bsect: nat)
    requires b.FieldWidths() && bsect < U32 && FindVolume(b, bsect).Mounted?
    ensures var l := FindVolume(b, bsect).layout;
            && (l.Sound() && l.fatbase == bsect + b.rsvdSecCnt <==> b.Addressable(bsect))
            && (b.Addressable(bsect) ==> l.End() <= bsect + b.TotalSectors())
  {
    var l := FindVolume(b, bsect).layout;
    PowerOfTwoTest(b.secPerClus);
    PowersBelow(b.secPerClus, 128);
    if b.Addressable(bsect) {
      AddressableIsSound(b, bsect);
    }
    if l.Sound() && l.fatbase == bsect + b.rsvdSecCnt {
      SoundIsAddressable(b, bsect);
    }
  }

  /** What the mount code computes for a volume it accepts. */
  lemma MountedFields(b: Bpb, bsect: nat)
    requires FindVolume(b, bsect).Mounted?
    ensures (b.numFats == 1 || b.numFats == 2) && b.secPerClus > 0 && b.rsvdSecCnt > 0
    ensures b.rootEntCnt % DIRENTS_PER_SECTOR == 0 && b.Clusters() > 0
    ensures var l := FindVolume(b, bsect).layout;
            && l.nFats == b.numFats && l.csize == b.secPerClus && l.nRootdir == b.rootEntCnt
            && l.nFatent == Add32(b.Clusters(), 2) && l.fsize == b.FatSize() && l.fsType == SubType(b.Clusters())
            && l.fatbase == Add32(bsect, b.rsvdSecCnt) && l.database == Add32(bsect, b.SystemSectors())
            && l.fsize >= Add32(NeededFatBytes(l.fsType, l.nFatent), SS - 1) / SS && l.volbase == bsect
            && (l.fsType == Fat32 ==> b.rootEntCnt == 0 && l.dirbase == b.rootClus32)
            && (l.fsType != Fat32 ==>
                  b.rootEntCnt > 0 && l.dirbase == Add32(l.fatbase, Add32(b.FatSize() * b.numFats, 0)))
  {
    hide Add32, NeededFatBytes, BitAnd, Bpb.SystemSectors;
  }

  /** On an addressable volume the sums of the mount code are the true ones. */
  lemma TrueFields(b: Bpb, bsect: nat)
    requires FindVolume(b, bsect).Mounted? && b.secPerClus > 0 && b.Addressable(bsect)
    ensures var l := FindVolume(b, bsect).layout;
            && l.fatbase == bsect + b.rsvdSecCnt && l.database == bsect + b.TrueSystemSectors()
            && l.nFatent == b.Clusters() + 2
            && l.nFatent - 2 == (b.TotalSectors() - b.TrueSystemSectors()) / b.secPerClus <= MOST_CLUSTERS
            && b.secPerClus * (l.nFatent - 2) <= b.TotalSectors() - b.TrueSystemSectors()
            && (l.fsType != Fat32 ==> l.dirbase == l.fatbase + b.FatSize() * b.numFats)
  {
    hide FindVolume, Add32, PowerOfTwo, NeededFatBytes, Bpb.SystemSectors, Bpb.FatSize, Bpb.TotalSectors,
         Bpb.TrueSystemSectors;
    RoomAbove(b, bsect);
    SumsDoNotWrap(b, bsect);
    ClustersFit(b.TotalSectors() - b.TrueSystemSectors(), b.secPerClus);
    MountedFields(b, bsect);
    Add32Value(b.Clusters(), 2);
  }

  /** A sum taken modulo 2^32 step by step. */
  lemma ThreeSums(a: nat, b: nat, c: nat)
    ensures Add32(Add32(a, b), c) == (a + b + c) % U32
  {
    var q, x := (a + b) / U32, (a + b) % U32 + c;
    assert a + b + c == U32 * (q + x / U32) + x % U32;
    DivModUnique(a + b + c, U32, q + x / U32, x % U32);
  }

  /** The byte count of the FAT in bits: 12, 16 or 32 for each cluster, and for two more. Only on FAT32 can it wrap. */
  lemma NeededBits(n: nat)
    requires 0 < n < U32
    ensures var need := NeededFatBytes(SubType(n), Add32(n, 2));
            if n <= 65525 then need < U32 - 512 && 8 * need - 8 < (if n <= 4085 then 12 else 16) * (n + 2) <= 8 * need
            else need == 4 * (n + 2) % U32
  {
    Add32Value(n, 2);
    if n > 65525 {
      FourTimes(n + 2, Add32(n, 2));
    } else if n > 4085 {
      Add32Value((n + 2) * 2, 0);
    }
  }

  /** The size check at mount, in bits. A FAT32 whose byte count comes close to 2^32 passes whatever its size. */
  lemma FatBits(n: nat, fsize: nat)
    requires 0 < n < U32
    ensures fsize >= Add32(NeededFatBytes(SubType(n), Add32(n, 2)), SS - 1) / SS <==>
              if n <= 4085 then 12 * (n + 2) <= 8 * 512 * fsize
              else if n <= 65525 then 16 * (n + 2) <= 8 * 512 * fsize
              else 4 * (n + 2) % U32 <= 512 * fsize || 4 * (n + 2) % U32 > U32 - 512
  {
    NeededBits(n);
    hide NeededFatBytes, SubType, Add32;
    Add32Value(NeededFatBytes(SubType(n), Add32(n, 2)), SS - 1);
  }

  lemma FourTimes(x: nat, m: nat)
    requires x < 2 * U32 && m == x % U32
    ensures Add32(m * 4, 0) == 4 * x % U32
  {
    assert 4 * x == 4 * m + U32 * (if x < U32 then 0 else 4);
    DivModUnique(4 * x, U32, 4 * m / U32 + (if x < U32 then 0 else 4), 4 * m % U32);
  }

  lemma QuotientBelow(x: nat, d: nat)
    requires d > 0
    ensures x / d <= x
  {
    MulMonotone(x / d, 1, d);
    assert x == d * (x / d) + x % d;
  }

  /** The number of FAT entries is taken modulo 2^32: 0 or 1 for the two largest cluster counts there could be. */
  lemma EntryCount(b: Bpb)
    requires b.FieldWidths() && b.secPerClus > 0
    ensures b.Clusters() < U32
    ensures Add32(b.Clusters(), 2) == if b.Clusters() < U32 - 2 then b.Clusters() + 2 else b.Clusters() + 2 - U32
  {
    hide Bpb.SystemSectors;
    var room := b.TotalSectors() - b.SystemSectors();
    if room >= 0 {
      QuotientBelow(room, b.secPerClus);
    }
    Add32Value(b.Clusters(), 2);
  }

  /** The sums of the mount code, in the fields of the boot record. */
  lemma Sums(b: Bpb)
    ensures b.FatSize() == if b.fatSz16 == 0 then b.fatSz32 else b.fatSz16
    ensures b.TotalSectors() == if b.totSec16 == 0 then b.totSec32 else b.totSec16
    ensures b.TrueSystemSectors() == b.rsvdSecCnt + b.FatSize() * b.numFats + b.rootEntCnt / 16
    ensures b.SystemSectors() == b.TrueSystemSectors() % U32
  {
    assert b.FatSize() * b.numFats >= 0;
    hide Add32;
    ThreeSums(b.rsvdSecCnt, b.FatSize() * b.numFats, b.rootEntCnt / DIRENTS_PER_SECTOR);
  }

  /** There is a cluster when the sectors left are enough for one. */
  lemma SomeClusters(room: int, csize: nat)
    requires csize > 0 && room >= 0
    ensures room / csize > 0 <==> room >= csize
  {
    assert room == csize * (room / csize) + room % csize;
    if room / csize > 0 {
      MulAtLeast(csize, room / csize);
    }
  }

  /** Exactly these boot records are accepted: those with sectors of 512 bytes, one FAT or two, a power of two sectors
      to the cluster, whole sectors of root entries, reserved sectors, room for a cluster, the root directory their
      number of clusters calls for, and a FAT long enough for it. The sector sum is taken modulo 2^32. */
  lemma Accepts(b: Bpb, bsect: nat)
    requires b.FieldWidths()
    ensures var fat := if b.fatSz16 == 0 then b.fatSz32 else b.fatSz16;
            var total := if b.totSec16 == 0 then b.totSec32 else b.totSec16;
            var first := (b.rsvdSecCnt + fat * b.numFats + b.rootEntCnt / 16) % 0x1_0000_0000;
            FindVolume(b, bsect).Mounted? <==>
              && b.bytsPerSec == 512 && (b.numFats == 1 || b.numFats == 2)
              && b.secPerClus in {1, 2, 4, 8, 16, 32, 64, 128}
              && b.rootEntCnt % 16 == 0 && b.rsvdSecCnt > 0 && first + b.secPerClus <= total
              && var n := (total - first) / b.secPerClus;
                 if n <= 4085 then b.rootEntCnt > 0 && 12 * (n + 2) <= 8 * 512 * fat
                 else if n <= 65525 then b.rootEntCnt > 0 && 16 * (n + 2) <= 8 * 512 * fat
                 else
                   && b.rootEntCnt == 0 && b.fsVer32 == 0
                   && var bytes := 4 * (n + 2) % 0x1_0000_0000; bytes <= 512 * fat || bytes > 0x1_0000_0000 - 512
  {
    Sums(b);
    hide Bpb.SystemSectors, Bpb.FatSize, Bpb.TotalSectors, Bpb.TrueSystemSectors, Add32, NeededFatBytes, BitAnd,
         PowerOfTwo;
    if b.secPerClus > 0 {
      PowerOfTwoTest(b.secPerClus);
      SmallPowers(b.secPerClus);
      EntryCount(b);
      if b.TotalSectors() >= b.SystemSectors() {
        SomeClusters(b.TotalSectors() - b.SystemSectors(), b.secPerClus);
        if b.Clusters() > 0 {
          FatBits(b.Clusters(), b.FatSize());
        }
      }
    }
  }

  /** What is mounted: the sub-type is that of the number of clusters, the areas follow each other, and the root
      directory is the one before the data or, on FAT32, the cluster the boot record names. */
  lemma MountedAs(b: Bpb, bsect: nat, l: Layout)
    requires FindVolume(b, bsect) == Mounted(l) && b.secPerClus > 0 && b.Addressable(bsect)
    ensures var fat := if b.fatSz16 == 0 then b.fatSz32 else b.fatSz16;
            var total := if b.totSec16 == 0 then b.totSec32 else b.totSec16;
            var first := b.rsvdSecCnt + fat * b.numFats + b.rootEntCnt / 16;
            var n := l.nFatent - 2;
            && first <= total && n == (total - first) / b.secPerClus
            && l == Layout(if n <= 4085 then Fat12 else if n <= 65525 then Fat16 else Fat32,
                           b.numFats, b.secPerClus, b.rootEntCnt, l.nFatent, fat,
                           bsect, bsect + b.rsvdSecCnt,
                           if n <= 65525 then bsect + b.rsvdSecCnt + fat * b.numFats else b.rootClus32,
                           bsect + first)
  {
    hide FindVolume, Bpb.SystemSectors, Add32, NeededFatBytes;
    Sums(b);
    hide Bpb.FatSize, Bpb.TotalSectors, Bpb.TrueSystemSectors;
    MountedFields(b, bsect);
    TrueFields(b, bsect);
  }

  lemma RoomAbove(b: Bpb, bsect: nat)
    requires b.secPerClus > 0 && b.Addressable(bsect)
    ensures bsect + b.TrueSystemSectors() < U32
  {
    hide Bpb.TotalSectors, Bpb.TrueSystemSectors;
    MulMonotone(b.secPerClus, 0, (b.TotalSectors() - b.TrueSystemSectors()) / b.secPerClus);
  }

  lemma AddressableIsSound(b: Bpb, bsect: nat)
    requires b.FieldWidths() && bsect < U32 && FindVolume(b, bsect).Mounted?
    requires PowerOfTwo(b.secPerClus) && b.secPerClus <= 128 && b.Addressable(bsect)
    ensures var l := FindVolume(b, bsect).layout;
            l.Sound() && l.fatbase == bsect + b.rsvdSecCnt && l.End() <= bsect + b.TotalSectors()
  {
    hide FindVolume, Add32, PowerOfTwo, NeededFatBytes, Bpb.SystemSectors, Bpb.FatSize, Bpb.FieldWidths, Bpb.Clusters;
    hide Bpb.TotalSectors, Layout.LastByteOfEntry;
    MountedFields(b, bsect);
    TrueFields(b, bsect);
    var l := FindVolume(b, bsect).layout;
    EntriesFit(l.fsType, l.nFatent, l.fsize, l);
    assert b.FatSize() * b.numFats == l.FatSectors();
  }

  lemma SoundIsAddressable(b: Bpb, bsect: nat)
    requires b.FieldWidths() && bsect < U32 && FindVolume(b, bsect).Mounted?
    requires var l := FindVolume(b, bsect).layout; l.Sound() && l.fatbase == bsect + b.rsvdSecCnt
    ensures b.Addressable(bsect)
  {
    hide FindVolume, PowerOfTwo, NeededFatBytes, Layout.LastByteOfEntry, Add32, Bpb.SystemSectors, Bpb.TotalSectors,
         Bpb.FatSize;
    MountedFields(b, bsect);
    EntryCount(b);
    var l := FindVolume(b, bsect).layout;
    AreasFit(b, bsect, l);
    SumsDoNotWrap(b, bsect);
  }

  /** When the areas lie one after the other, the system area ends below 2^32. */
  lemma AreasFit(b: Bpb, bsect: nat, l: Layout)
    requires l.Areas() && l.fatbase == bsect + b.rsvdSecCnt && l.nFats == b.numFats && l.fsize == b.FatSize()
    requires l.database == Add32(bsect, b.SystemSectors()) && b.rootEntCnt < 0x1_0000
    requires if l.fsType == Fat32 then b.rootEntCnt == 0
             else l.database == l.dirbase + b.rootEntCnt / DIRENTS_PER_SECTOR && l.dirbase == l.fatbase + l.FatSectors()
    ensures bsect + b.TrueSystemSectors() < U32
  {
    hide Bpb.FatSize, Add32;
    assert b.FatSize() * b.numFats == l.FatSectors();
  }

  /** Sums that stay below 2^32 are what they seem. */
  lemma SumsDoNotWrap(b: Bpb, bsect: nat)
    requires bsect + b.TrueSystemSectors() < U32
    ensures b.SystemSectors() == b.TrueSystemSectors()
    ensures Add32(b.FatSize() * b.numFats, 0) == b.FatSize() * b.numFats
    ensures Add32(bsect, b.SystemSectors()) == bsect + b.SystemSectors()
    ensures Add32(bsect, b.rsvdSecCnt) == bsect + b.rsvdSecCnt
    ensures Add32(Add32(bsect, b.rsvdSecCnt), b.FatSize() * b.numFats) == bsect + b.rsvdSecCnt + b.FatSize() * b.numFats
  {
    var f := b.FatSize() * b.numFats;
    var root := b.rootEntCnt / DIRENTS_PER_SECTOR;
    assert f >= 0;
    hide Add32, Bpb.FatSize;
    Add32Value(b.rsvdSecCnt, f);
    Add32Value(b.rsvdSecCnt + f, root);
    Add32Value(f, 0);
    Add32Value(bsect, b.rsvdSecCnt);
    Add32Value(bsect, b.SystemSectors());
    Add32Value(bsect + b.rsvdSecCnt, f);
  }

  /** A volume with a FAT of 2^31 sectors, twice: their number wraps to 0, and the data area begins where the FAT
      does. */
  const WRAPPED_FAT := Bpb(SS, 0, 0x8000_0000, 2, 1, 0, 0, 100_032, 32, 0, 2)

  lemma WrappedFatIsMounted()
    ensures FindVolume(WRAPPED_FAT, 0).Mounted? && WRAPPED_FAT.FieldWidths() && !WRAPPED_FAT.Addressable(0)
    ensures var l := FindVolume(WRAPPED_FAT, 0).layout; l.database == l.fatbase && !l.Areas() && !l.Sound()
  {
    var b := WRAPPED_FAT;
    assert BitAnd(1, 0) == 0;
    assert b.SystemSectors() == 32 && b.Clusters() == 100_000;
  }

  /** A volume with 2^28 clusters: the end mark is the number of one of them. */
  const TOO_MANY_CLUSTERS := Bpb(SS, 0, 2_200_000, 1, 1, 0, 0, 0x1000_0000 + 2_200_032, 32, 0, 2)

  lemma TooManyClustersAreMounted()
    ensures FindVolume(TOO_MANY_CLUSTERS, 0).Mounted? && TOO_MANY_CLUSTERS.FieldWidths() &&
            !TOO_MANY_CLUSTERS.Addressable(0)
    ensures var l := FindVolume(TOO_MANY_CLUSTERS, 0).layout; l.Areas() && 2 <= l.Eoc() < l.nFatent && !l.Sound()
  {
    var b := TOO_MANY_CLUSTERS;
    assert BitAnd(1, 0) == 0;
    assert b.SystemSectors() == 2_200_032 && b.Clusters() == 0x1000_0000;
  }

  /** The sector after the boot sector belongs to the FAT exactly when no other sector is reserved. */
  lemma SectorOneInFat(b: Bpb, bsect: nat)
    requires b.FieldWidths() && bsect < U32 && FindVolume(b, bsect).Mounted? && b.Addressable(bsect)
    ensures FindVolume(b, bsect).layout.IsFatSector(bsect + 1) <==> b.rsvdSecCnt == 1
  {
    hide FindVolume, Layout.Sound, Layout.Areas, Layout.End, PowerOfTwo, Add32, NeededFatBytes;
    hide Bpb.Addressable, Bpb.FieldWidths, Bpb.SystemSectors, Bpb.FatSize, Bpb.TotalSectors, Bpb.Clusters;
    MountedIsSound(b, bsect);
    assert b.rsvdSecCnt > 0 by { MountedFields(b, bsect); }
    SoundFacts(FindVolume(b, bsect).layout);
  }

  /** A FAT32 volume whose FAT begins in sector 1, where its boot record may place the FSInfo sector too. */
  const ONE_RESERVED := Bpb(SS, 0, 600, 1, 1, 0, 0, 70_601, 1, 0, 2)

  lemma OneReservedIsMounted()
    ensures ONE_RESERVED.FieldWidths() && ONE_RESERVED.Addressable(0) && FindVolume(ONE_RESERVED, 0).Mounted?
    ensures var l := FindVolume(ONE_RESERVED, 0).layout; l.fsType == Fat32 && l.IsFatSector(1)
  {
    var b := ONE_RESERVED;
    assert BitAnd(1, 0) == 0;
    assert b.SystemSectors() == 601 && b.Clusters() == 70_000;
  }

  lemma ClustersFit(room: nat, csize: nat)
    requires csize > 0
    ensures csize * (room / csize) <= room
  {
    assert room == csize * (room / csize) + room % csize;
  }

  lemma {:induction false} PowersBelow(n: nat, m: nat)
    requires PowerOfTwo(n) && PowerOfTwo(m) && n < 2 * m
    ensures n <= m
  {
    if n > 1 {
      PowersBelow(n / 2, m / 2);
    }
  }

  /** On a volume whose sub-type was chosen by its cluster count, the end mark put_fat stores is the number of no
      cluster exactly when the count leaves room for it. Up to MAX_FAT32 clusters neither that mark nor the bad mark
      nor any other end mark is the number of a cluster, whatever the sub-type. */
  lemma EocAboveClusters(l: Layout, nclst: nat)
    requires l.fsType == SubType(nclst) && l.nFatent == nclst + 2
    ensures l.nFatent <= l.Eoc() <==> nclst <= MOST_CLUSTERS
    ensures nclst <= MAX_FAT32 ==> l.nFatent <= l.BadMark() < l.Eoc()
    ensures (l.BadMark(), l.Eoc()) ==
              if nclst <= 4085 then (0xFF7, 0xFFF) else if nclst <= 65525 then (0xFFF7, 0xFFFF)
              else (0xFFF_FFF7, 0xFFF_FFFF)
  {
  }
}
