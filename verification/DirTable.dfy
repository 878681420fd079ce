/** Directory tables as sequences of 32-byte entries: looking up, adding and removing 8.3 names. */
module DirTable {
  import opened Words

  const DDEM: byte := 0xE5
  const DIR_ATTR := 11
  const AM_VOL := 0x08

  type Dirent = e: seq<byte> | |e| == 32 witness seq(32, _ => 0)

  type Name = n: seq<byte> | |n| == 11 && n[0] != 0 && n[0] != DDEM witness seq(11, _ => 1)

  function ZeroEntry(): Dirent {
    seq(32, _ => 0)
  }

  predicate IsFree(e: Dirent) {
    e[0] == DDEM || e[0] == 0
  }

  /** The test dir_find makes: not a volume label, and the 11 name bytes agree. */
  predicate Matches(e: Dirent, name: Name) {
    e[DIR_ATTR] / AM_VOL % 2 == 0 && e[..11] == name
  }

  /** In terms of the entry's bytes: bit 3 of the attributes is clear, and each byte of the name agrees. */
  lemma MatchesBytes(e: Dirent, name: Name)
    ensures Matches(e, name) <==> e[11] % 16 < 8 && forall i :: 0 <= i < 11 ==> e[i] == name[i]
  {
    assert e[11] / 8 % 2 == 0 <==> e[11] % 16 < 8;
    if e[..11] == name {
      assert forall i :: 0 <= i < 11 ==> e[i] == e[..11][i];
    }
  }

  /** Index of the first matching entry before the end mark, from k on; |t| if there is none. */
  function FindFrom(t: seq<Dirent>, name: Name, k: nat): (i: nat)
    requires k <= |t|
    ensures k <= i <= |t|
    decreases |t| - k
  {
    if k == |t| || t[k][0] == 0 then |t| else if Matches(t[k], name) then k else FindFrom(t, name, k + 1)
  }

  function Find(t: seq<Dirent>, name: Name): (i: nat)
    ensures i <= |t|
  {
    FindFrom(t, name, 0)
  }

  /** The table as a map from names to entries. */
  function Lookup(t: seq<Dirent>, name: Name): Option<Dirent> {
    if Find(t, name) < |t| then Some(t[Find(t, name)]) else None
  }

  /** Index of the first free entry from k on; |t| if there is none. */
  function FreeFrom(t: seq<Dirent>, k: nat): (i: nat)
    requires k <= |t|
    ensures k <= i <= |t|
    ensures i < |t| ==> IsFree(t[i])
    ensures forall j :: k <= j < i ==> !IsFree(t[j])
    decreases |t| - k
  {
    if k == |t| || IsFree(t[k]) then k else FreeFrom(t, k + 1)
  }

  function NewEntry(name: Name): Dirent {
    name + seq(21, _ => 0)
  }

  /** The name and nothing else: no attribute, no first cluster, no size. */
  lemma NewEntryBytes(name: Name)
    ensures NewEntry(name)[..11] == name && forall i :: 11 <= i < 32 ==> NewEntry(name)[i] == 0
  {
  }

  /** All entries after the first end mark are zero. */
  ghost predicate Terminated(t: seq<Dirent>) {
    forall i, j :: 0 <= i < j < |t| && t[i][0] == 0 ==> t[j] == ZeroEntry()
  }

  lemma NewEntryMatches(name: Name, other: Name)
    ensures Matches(NewEntry(name), other) <==> name == other
    ensures NewEntry(name)[0] == name[0]
  {
    assert NewEntry(name)[..11] == name;
  }

  /** Two tables that agree on everything dir_find looks at give the same answer. */
  lemma {:induction false} FindAgrees(t: seq<Dirent>, u: seq<Dirent>, name: Name, k: nat)
    requires |t| == |u| && k <= |t|
    requires forall i ::
               k <= i < |t| ==> (t[i][0] == 0 <==> u[i][0] == 0) && (Matches(t[i], name) <==> Matches(u[i], name))
    ensures FindFrom(t, name, k) == FindFrom(u, name, k)
    decreases |t| - k
  {
    if k < |t| && t[k][0] != 0 && !Matches(t[k], name) {
      FindAgrees(t, u, name, k + 1);
    }
  }

  /** A search over entries that neither match nor end the table goes on behind them. */
  lemma {:induction false} FindSkips(t: seq<Dirent>, name: Name, k: nat, m: nat)
    requires k <= m <= |t|
    requires forall i :: k <= i < m ==> t[i][0] != 0 && !Matches(t[i], name)
    ensures FindFrom(t, name, k) == FindFrom(t, name, m)
    decreases m - k
  {
    if k < m {
      FindSkips(t, name, k + 1, m);
    }
  }

  /** The entries before the result of a search neither match nor end the table. */
  lemma {:induction false} FindPassed(t: seq<Dirent>, name: Name, k: nat, i: nat)
    requires k <= |t| && k <= i < FindFrom(t, name, k) < |t|
    ensures t[i][0] != 0 && !Matches(t[i], name)
    decreases i - k
  {
    if k < i {
      FindPassed(t, name, k + 1, i);
    }
  }

  /** The result of a successful search matches. */
  lemma {:induction false} FindMatches(t: seq<Dirent>, name: Name, k: nat)
    requires k <= |t| && FindFrom(t, name, k) < |t|
    ensures Matches(t[FindFrom(t, name, k)], name) && t[FindFrom(t, name, k)][0] != 0
    decreases |t| - k
  {
    if !Matches(t[k], name) {
      FindMatches(t, name, k + 1);
    }
  }

  /** A look-up finds entry k exactly when it matches, no entry up to it ends the table, and none before it matches. */
  lemma FindExactly(t: seq<Dirent>, name: Name, k: nat)
    requires k < |t|
    ensures Find(t, name) == k <==>
              Matches(t[k], name) && (forall i :: 0 <= i <= k ==> t[i][0] != 0) &&
              forall i :: 0 <= i < k ==> !Matches(t[i], name)
  {
    if Find(t, name) == k {
      FindMatches(t, name, 0);
      forall i | 0 <= i < k
        ensures t[i][0] != 0 && !Matches(t[i], name)
      {
        FindPassed(t, name, 0, i);
      }
    } else if Matches(t[k], name) && forall i :: 0 <= i <= k ==> t[i][0] != 0 {
      FindReaches(t, name, 0, k);
      FindMatches(t, name, 0);
    }
  }

  /** A new table, all zero, is in order and has no names. */
  lemma NothingInNewTable(t: seq<Dirent>, name: Name)
    requires forall k, i :: 0 <= k < |t| && 0 <= i < 32 ==> t[k][i] == 0
    ensures Terminated(t) && Lookup(t, name) == None && FreeFrom(t, 0) == 0
  {
    forall k | 0 <= k < |t|
      ensures t[k] == ZeroEntry()
    {
    }
  }

  /** The first free entry is the first whose name begins with 0 or 0xE5. */
  lemma FreeFromFirst(t: seq<Dirent>)
    ensures var k := FreeFrom(t, 0);
            && (k < |t| ==> t[k][0] == 0 || t[k][0] == 0xE5)
            && forall i :: 0 <= i < k ==> t[i][0] != 0 && t[i][0] != 0xE5
  {
  }

  /** Adding a name that is not there at the first free entry makes it, and nothing else, findable. */
  lemma RegisterAdds(t: seq<Dirent>, name: Name, other: Name)
    requires Terminated(t) && FreeFrom(t, 0) < |t| && Find(t, name) == |t|
    ensures var k := FreeFrom(t, 0);
            var u := t[k := NewEntry(name)];
            && Find(u, name) == k && Lookup(u, name) == Some(NewEntry(name))
            && (other != name ==> Find(u, other) == Find(t, other) && Lookup(u, other) == Lookup(t, other))
            && Terminated(u)
  {
    var k := FreeFrom(t, 0);
    var u := t[k := NewEntry(name)];
    forall i | 0 <= i < k
      ensures !Matches(t[i], name) && t[i][0] != 0
    {
      if Matches(t[i], name) {
        FindReaches(t, name, 0, i);
      }
    }
    NewEntryMatches(name, name);
    FindSkips(u, name, 0, k);
    if other != name {
      OthersAfterRegister(t, name, other, k);
    }
  }

  /** A matching entry with no end mark before it is found, or an earlier one is. */
  lemma {:induction false} FindReaches(t: seq<Dirent>, name: Name, k: nat, i: nat)
    requires k <= i < |t| && Matches(t[i], name)
    requires forall j :: k <= j <= i ==> t[j][0] != 0
    ensures FindFrom(t, name, k) <= i
    decreases i - k
  {
    if k < i && !Matches(t[k], name) {
      FindReaches(t, name, k + 1, i);
    }
  }

  lemma {:induction false} OthersAfterRegister(t: seq<Dirent>, name: Name, other: Name, k: nat)
    requires Terminated(t) && k == FreeFrom(t, 0) < |t| && other != name
    ensures var u := t[k := NewEntry(name)];
            Find(u, other) == Find(t, other) && Lookup(u, other) == Lookup(t, other)
  {
    var u := t[k := NewEntry(name)];
    NewEntryMatches(name, other);
    assert t[k][0] == 0 || t[k][0] == DDEM;
    assert !Matches(t[k], other) by {
      assert t[k][..11][0] == t[k][0];
    }
    hide FindFrom, NewEntry, Matches;
    if m :| 0 <= m < k && Matches(t[m], other) {
      FindReaches(t, other, 0, m);
      FindReaches(u, other, 0, m);
      FindPrefix(t, u, other, 0, k);
    } else {
      FindSkips(t, other, 0, k);
      FindSkips(u, other, 0, k);
      PastFirstFree(t, u, other, k);
    }
  }

  /** A free entry that has been filled with another name is passed over like the free entry before;
      if that ended the table, the next entry does. */
  lemma {:induction false} PastFirstFree(t: seq<Dirent>, u: seq<Dirent>, name: Name, k: nat)
    requires |u| == |t| && k < |t| && (forall i :: 0 <= i < |t| && i != k ==> u[i] == t[i])
    requires Terminated(t) && IsFree(t[k]) && !Matches(t[k], name) && !Matches(u[k], name) && u[k][0] != 0
    ensures FindFrom(u, name, k) == FindFrom(t, name, k)
  {
    hide Matches;
    FindSkips(u, name, k, k + 1);
    if t[k][0] == 0 {
      if k + 1 < |t| {
        assert u[k + 1] == ZeroEntry();
      }
    } else {
      FindSkips(t, name, k, k + 1);
      FindAgrees(t, u, name, k + 1);
    }
  }

  /** A search decided before position k does not look at position k. */
  lemma {:induction false} FindPrefix(t: seq<Dirent>, u: seq<Dirent>, name: Name, j: nat, k: nat)
    requires |t| == |u| && j <= k <= |t| && forall i :: j <= i < k ==> t[i] == u[i]
    requires FindFrom(t, name, j) < k
    ensures FindFrom(u, name, j) == FindFrom(t, name, j)
    decreases k - j
  {
    if t[j][0] != 0 && !Matches(t[j], name) {
      FindPrefix(t, u, name, j + 1, k);
    }
  }

  /** The entry dir_remove leaves. */
  function Deleted(e: Dirent): Dirent {
    e[0 := DDEM]
  }

  /** Only the first byte changes. */
  lemma DeletedBytes(e: Dirent)
    ensures Deleted(e)[0] == 0xE5 && Deleted(e)[1..] == e[1..]
  {
  }

  /** A registration in the first free entry, on the bytes of the table. */
  lemma NewInTable(m: seq<Dirent>, name: Name)
    requires FreeFrom(m, 0) < |m|
    ensures var k := FreeFrom(m, 0);
            var u := m[k := NewEntry(name)];
            && u[k][..11] == name && (forall i :: 11 <= i < 32 ==> u[k][i] == 0)
            && (m[k][0] == 0 || m[k][0] == 0xE5) && (forall j :: 0 <= j < k ==> m[j][0] != 0 && m[j][0] != 0xE5)
            && forall j :: 0 <= j < |m| && j != k ==> u[j] == m[j]
  {
    FreeFromFirst(m);
    NewEntryBytes(name);
  }

  /** Removing the entry found leaves what a search behind it finds: nothing, if the name was unique.
      Every other lookup is as before. */
  lemma RemoveForgets(t: seq<Dirent>, name: Name, other: Name)
    requires Terminated(t) && Find(t, name) < |t|
    ensures var k := Find(t, name);
            var u := t[k := Deleted(t[k])];
            && Find(u, name) == FindFrom(t, name, k + 1)
            && (other != name ==> Find(u, other) == Find(t, other) && Lookup(u, other) == Lookup(t, other))
            && Terminated(u)
  {
    var k := Find(t, name);
    var u := t[k := Deleted(t[k])];
    FindMatches(t, name, 0);
    forall i | 0 <= i < k
      ensures t[i][0] != 0 && !Matches(t[i], name)
    {
      FindPassed(t, name, 0, i);
    }
    assert u[k][..11][0] == DDEM;
    assert !Matches(u[k], name) && !Matches(u[k], other);
    FindSkips(u, name, 0, k + 1);
    FindAgrees(t, u, name, k + 1);
    if other != name {
      FindAgrees(t, u, other, 0);
      if Find(t, other) == k {
        FindMatches(t, other, 0);
      }
    }
  }

  /** u is t with zero entries added. */
  ghost predicate Extends(t: seq<Dirent>, u: seq<Dirent>) {
    t <= u && forall j :: |t| <= j < |u| ==> u[j] == ZeroEntry()
  }

  lemma ExtendsSelf(t: seq<Dirent>)
    ensures Extends(t, t)
  {
  }

  /** A table stretched by zero entries answers as before, and stays terminated. */
  lemma StretchKeeps(t: seq<Dirent>, u: seq<Dirent>, name: Name)
    requires Terminated(t) && Extends(t, u)
    ensures && Terminated(u) && Lookup(u, name) == Lookup(t, name)
            && (Find(t, name) < |t| ==> Find(u, name) == Find(t, name)) &&
               (Find(t, name) == |t| ==> Find(u, name) == |u|)
  {
    FindInLonger(t, u, name, 0);
  }

  lemma {:induction false} FindInLonger(t: seq<Dirent>, u: seq<Dirent>, name: Name, k: nat)
    requires k <= |t| && Extends(t, u)
    ensures FindFrom(u, name, k) == if FindFrom(t, name, k) < |t| then FindFrom(t, name, k) else |u|
    decreases |t| - k
  {
    if k < |t| {
      assert u[k] == t[k];
      if t[k][0] != 0 && !Matches(t[k], name) {
        FindInLonger(t, u, name, k + 1);
      }
    } else if k < |u| {
      assert u[k] == ZeroEntry();
    }
  }

  /** Seen as maps, u is t with name added. */
  ghost predicate AddsName(t: seq<Dirent>, u: seq<Dirent>, name: Name) {
    && Terminated(u) && Lookup(u, name) == Some(NewEntry(name))
    && forall other: Name :: other != name ==> Lookup(u, other) == Lookup(t, other)
  }

  /** Seen as maps, u is t without name. */
  ghost predicate DropsName(t: seq<Dirent>, u: seq<Dirent>, name: Name) {
    && Terminated(u) && Lookup(u, name) == None
    && forall other: Name :: other != name ==> Lookup(u, other) == Lookup(t, other)
  }

  /** name occurs once before the end mark. */
  ghost predicate Unique(t: seq<Dirent>, name: Name) {
    Find(t, name) < |t| && FindFrom(t, name, Find(t, name) + 1) == |t|
  }

  lemma Registered(t: seq<Dirent>, m: seq<Dirent>, name: Name)
    requires Terminated(t) && Find(t, name) == |t| && Extends(t, m) && FreeFrom(m, 0) < |m|
    ensures AddsName(t, m[FreeFrom(m, 0) := NewEntry(name)], name)
  {
    var u := m[FreeFrom(m, 0) := NewEntry(name)];
    StretchKeeps(t, m, name);
    RegisterAdds(m, name, name);
    forall other: Name | other != name
      ensures Lookup(u, other) == Lookup(t, other)
    {
      StretchKeeps(t, m, other);
      RegisterAdds(m, name, other);
    }
  }

  lemma Removed(t: seq<Dirent>, name: Name)
    requires Terminated(t) && Unique(t, name)
    ensures DropsName(t, t[Find(t, name) := Deleted(t[Find(t, name)])], name)
  {
    var u := t[Find(t, name) := Deleted(t[Find(t, name)])];
    RemoveForgets(t, name, name);
    forall other: Name | other != name
      ensures Lookup(u, other) == Lookup(t, other)
    {
      RemoveForgets(t, name, other);
    }
  }

  lemma FreeFromStops(t: seq<Dirent>, k: nat)
    requires k < |t| && IsFree(t[k]) && forall j :: 0 <= j < k ==> !IsFree(t[j])
    ensures FreeFrom(t, 0) == k
  {
  }

  lemma FreeFromNone(t: seq<Dirent>)
    requires forall j :: 0 <= j < |t| ==> !IsFree(t[j])
    ensures FreeFrom(t, 0) == |t|
  {
  }
}
