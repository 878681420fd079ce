/** The FSInfo sector of a FAT32 volume: the number of free clusters and the last cluster allocated. */
module FsInfo {
  import opened Words

  const LEAD_SIG := 0x4161_5252
  const STRUC_SIG := 0x6141_7272
  const BOOT_SIG := 0xAA55
  const LEAD_AT := 0
  const STRUC_AT := 484
  const FREE_AT := 488
  const NEXT_AT := 492
  const BOOT_AT := 510

  /** The double word at an offset of a sector. */
  function DwordAt(s: seq<byte>, off: nat): nat
    requires off + 4 <= |s|
  {
    LdDword(s[off], s[off + 1], s[off + 2], s[off + 3])
  }

  /** The three signatures find_volume looks for. */
  predicate Signed(s: seq<byte>)
    requires |s| == SS
  {
    && LdWord(s[BOOT_AT], s[BOOT_AT + 1]) == BOOT_SIG
    && DwordAt(s, LEAD_AT) == LEAD_SIG
    && DwordAt(s, STRUC_AT) == STRUC_SIG
  }

  /** The counters a mount takes from the sector; 0xFFFFFFFF means unknown. */
  function Loaded(s: seq<byte>): (r: (nat, nat))
    requires |s| == SS
    ensures r.0 < U32 && r.1 < U32
  {
    if Signed(s) then (DwordAt(s, FREE_AT), DwordAt(s, NEXT_AT)) else (0xFFFF_FFFF, 0xFFFF_FFFF)
  }

  /** On the disk: the signatures are the letters RRaA and rrAa and the bytes 55 AA; the number of free clusters is the
      little-endian word at 488, and the last cluster allocated the one at 492. */
  lemma OnDisk(s: seq<byte>)
    requires |s| == 512
    ensures Signed(s) <==>
              s[0..4] == [0x52, 0x52, 0x61, 0x41] && s[484..488] == [0x72, 0x72, 0x41, 0x61] &&
              s[510..512] == [0x55, 0xAA]
    ensures Signed(s) ==>
              var a: nat, b: nat, c: nat, d: nat := s[488], s[489], s[490], s[491];
              var e: nat, f: nat, g: nat, h: nat := s[492], s[493], s[494], s[495];
              && Loaded(s).0 == a + 0x100 * b + 0x1_0000 * c + 0x100_0000 * d
              && Loaded(s).1 == e + 0x100 * f + 0x1_0000 * g + 0x100_0000 * h
    ensures !Signed(s) ==> Loaded(s) == (0xFFFF_FFFF, 0xFFFF_FFFF)
  {
    FourBytes(s[0], s[1], s[2], s[3], 0x52, 0x52, 0x61, 0x41);
    FourBytes(s[484], s[485], s[486], s[487], 0x72, 0x72, 0x41, 0x61);
    assert s[0..4] == [s[0], s[1], s[2], s[3]] && s[484..488] == [s[484], s[485], s[486], s[487]];
    assert s[510..512] == [s[510], s[511]];
    hide LdDword;
    LittleEndian(s[488], s[489], s[490], s[491]);
    LittleEndian(s[492], s[493], s[494], s[495]);
  }

  /** Four bytes are determined by the word they make up. */
  lemma FourBytes(a: byte, b: byte, c: byte, d: byte, a': byte, b': byte, c': byte, d': byte)
    ensures LdDword(a, b, c, d) == LdDword(a', b', c', d') <==> a == a' && b == b' && c == c' && d == d'
  {
    var p: nat, q: nat, r: nat := c + 0x100 * (d as nat), b + 0x100 * (c + 0x100 * (d as nat)), a;
    var p': nat, q': nat, r': nat := c' + 0x100 * (d' as nat), b' + 0x100 * (c' + 0x100 * (d' as nat)), a';
    assert LdDword(a, b, c, d) == 0x100 * q + r && LdDword(a', b', c', d') == 0x100 * q' + r';
    if LdDword(a, b, c, d) == LdDword(a', b', c', d') {
      SplitUnique(0x100, q, r, q', r');
      SplitUnique(0x100, p, b, p', b');
      SplitUnique(0x100, d, c, d', c');
    }
  }

  /** The sector sync_fs makes up: signed, with the counters, and zero between the signatures. */
  predicate Filled(s: seq<byte>, free: nat, last: nat)
    requires |s| == SS
  {
    && Signed(s) && Loaded(s) == (free, last)
    && (forall i :: LEAD_AT + 4 <= i < STRUC_AT ==> s[i] == 0) && forall i :: NEXT_AT + 4 <= i < BOOT_AT ==> s[i] == 0
  }

  /** st_dword on a buffer */
  method StDword(a: array<byte>, off: nat, x: nat)
    requires off + 4 <= a.Length
    modifies a
    ensures forall i {:trigger a[i]} :: 0 <= i < a.Length ==>
              a[i] == if off <= i < off + 4 then ByteOf(x, i - off) else old(a[i])
  {
    a[off] := ByteOf(x, 0);
    a[off + 1] := ByteOf(x, 1);
    a[off + 2] := ByteOf(x, 2);
    a[off + 3] := ByteOf(x, 3);
  }

  /** The part of sync_fs that makes up the sector: a mount finds the signatures and both counters in it. */
  method Fill(win: array<byte>, free: nat, last: nat)
    requires win.Length == SS && free < U32 && last < U32
    modifies win
    ensures Filled(win[..], free, last)
  {
    hide ByteOf, DwordAt, LdDword;
    forall i | 0 <= i < SS {
      win[i] := 0;
    }
    win[BOOT_AT] := 0x55;
    win[BOOT_AT + 1] := 0xAA;
    StDword(win, LEAD_AT, LEAD_SIG);
    StDword(win, STRUC_AT, STRUC_SIG);
    StDword(win, FREE_AT, free);
    StDword(win, NEXT_AT, last);
    Stored(win, LEAD_AT, LEAD_SIG);
    Stored(win, STRUC_AT, STRUC_SIG);
    Stored(win, FREE_AT, free);
    Stored(win, NEXT_AT, last);
  }

  /** ld_dword finds what st_dword left. */
  lemma Stored(a: array<byte>, off: nat, x: nat)
    requires off + 4 <= a.Length && x < U32
    requires a[off] == ByteOf(x, 0) && a[off + 1] == ByteOf(x, 1) && a[off + 2] == ByteOf(x, 2)
    requires a[off + 3] == ByteOf(x, 3)
    ensures DwordAt(a[..], off) == x
  {
    hide ByteOf, LdDword;
    LoadStoreDword(x);
  }
}
