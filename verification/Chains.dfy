/** Cluster chains on the values of the FAT: which cluster is allocated, what a removal frees,
    and that the FAT stays a set of disjoint chains. */
module Chains {

  /** ch follows the links of the FAT from its first cluster to an end mark. */
  ghost predicate IsChain(fat: seq<nat>, ch: seq<nat>) {
    && |ch| > 0
    && (forall i :: 0 <= i < |ch| ==> 2 <= ch[i] < |fat|)
    && (forall i, j :: 0 <= i < j < |ch| ==> ch[i] != ch[j])
    && (forall i {:trigger fat[ch[i]]} :: 0 <= i < |ch| - 1 ==> fat[ch[i]] == ch[i + 1])
    && fat[ch[|ch| - 1]] >= |fat|
  }

  lemma ChainStep(fat: seq<nat>, ch: seq<nat>, i: nat)
    requires IsChain(fat, ch) && i < |ch|
    ensures 2 <= ch[i] < |fat|
    ensures if i + 1 < |ch| then fat[ch[i]] == ch[i + 1] && 2 <= ch[i + 1] < |fat| else fat[ch[i]] >= |fat|
  {
  }

  ghost predicate Disjoint(a: seq<nat>, b: seq<nat>) {
    forall x :: x in a ==> x !in b
  }

  /** The FAT is exactly the chains in chs: disjoint, each ended by an end mark, and nothing else in use. */
  ghost predicate WellFormed(fat: seq<nat>, chs: set<seq<nat>>) {
    && (forall ch :: ch in chs ==> IsChain(fat, ch))
    && (forall a, b :: a in chs && b in chs && a != b ==> Disjoint(a, b))
    && (forall c :: 2 <= c < |fat| && fat[c] != 0 ==> InSome(c, chs))
  }

  ghost predicate InSome(c: nat, chs: set<seq<nat>>) {
    exists ch :: ch in chs && c in ch
  }

  function UsedSet(fat: seq<nat>): set<nat> {
    set c | 2 <= c < |fat| && fat[c] != 0
  }

  function FreeSet(fat: seq<nat>): set<nat> {
    set c | 2 <= c < |fat| && fat[c] == 0
  }

  // ---------------------------------------------------------------- allocation

  /** The (k+1)-th cluster create_chain looks at when it starts behind scl. */
  function Kth(n: nat, scl: nat, k: nat): nat
    requires 1 <= scl < n && k < n - 2
  {
    if scl + 1 + k < n then scl + 1 + k else scl + 1 + k - n + 2
  }

  /** The circular search of create_chain from its k-th step on: a free cluster, 0 when there is none,
      1 when an entry holding 1 comes first. */
  function Search(fat: seq<nat>, scl: nat, k: nat): nat
    requires 1 <= scl < |fat| && k <= |fat| - 2
    decreases |fat| - k
  {
    if k == |fat| - 2 then 0
    else
      var c := Kth(|fat|, scl, k);
      if fat[c] == 0 then c else if fat[c] == 1 then 1 else Search(fat, scl, k + 1)
  }

  /** Where the search starts when a new chain is made: the last cluster allocated, if it makes sense. */
  function Hint(n: nat, last: nat): nat {
    if last == 0 || last >= n then 1 else last
  }

  /** What create_chain returns: the next cluster of clst if it has one, else a new cluster. */
  function CreateResult(fat: seq<nat>, clst: nat, last: nat): nat
    requires |fat| >= 3
  {
    if clst == 0 then Search(fat, Hint(|fat|, last), 0)
    else if clst < 2 || clst >= |fat| then 1
    else if fat[clst] < 2 then 1
    else if fat[clst] < |fat| then fat[clst]
    else Search(fat, clst, 0)
  }

  /** create_chain takes a new cluster (rather than follow a link or fail). */
  predicate Allocates(fat: seq<nat>, clst: nat, last: nat)
    requires |fat| >= 3
  {
    && (clst == 0 || (2 <= clst < |fat| && fat[clst] >= |fat|))
    && CreateResult(fat, clst, last) >= 2
  }

  /** The FAT create_chain leaves: the new cluster ends the chain and clst points to it. */
  function CreateFat(fat: seq<nat>, clst: nat, last: nat, eoc: nat): (f: seq<nat>)
    requires |fat| >= 3
    ensures |f| == |fat|
  {
    if !Allocates(fat, clst, last) then fat
    else
      SearchRange(fat, if clst == 0 then Hint(|fat|, last) else clst, 0);
      var ncl := CreateResult(fat, clst, last);
      var f := fat[ncl := eoc];
      if clst == 0 then f else f[clst := ncl]
  }

  lemma {:induction false} SearchRange(fat: seq<nat>, scl: nat, k: nat)
    requires 1 <= scl < |fat| && k <= |fat| - 2
    ensures var r := Search(fat, scl, k); r < |fat| && (r >= 2 ==> fat[r] == 0)
    decreases |fat| - k
  {
    if k < |fat| - 2 {
      SearchRange(fat, scl, k + 1);
    }
  }

  /** Every cluster is looked at exactly once. */
  lemma KthCovers(n: nat, scl: nat, c: nat)
    requires 1 <= scl < n && 2 <= c < n
    ensures exists k: nat :: k < n - 2 && Kth(n, scl, k) == c
  {
    var k := if c > scl then c - scl - 1 else c - scl - 1 + n - 2;
    assert Kth(n, scl, k) == c;
  }

  /** The search stops at its step m: all clusters before hold values of at least 2, and this one does not. */
  ghost predicate StopsAt(fat: seq<nat>, scl: nat, k: nat, m: nat, r: nat)
    requires 1 <= scl < |fat|
  {
    && k <= m < |fat| - 2
    && AllInUse(fat, scl, k, m)
    && fat[Kth(|fat|, scl, m)] == (if r == 1 then 1 else 0)
    && (r != 1 ==> r == Kth(|fat|, scl, m))
  }

  ghost predicate AllInUse(fat: seq<nat>, scl: nat, k: nat, m: nat)
    requires 1 <= scl < |fat|
  {
    forall j {:trigger Kth(|fat|, scl, j)} :: k <= j < m && j < |fat| - 2 ==> fat[Kth(|fat|, scl, j)] >= 2
  }

  /** The clusters the search passes over hold values of at least 2, and it stops at the first that does not. */
  lemma {:induction false} SearchFirst(fat: seq<nat>, scl: nat, k: nat)
    requires 1 <= scl < |fat| && k <= |fat| - 2
    ensures var r := Search(fat, scl, k);
            if r == 0 then AllInUse(fat, scl, k, |fat| - 2) else exists m: nat :: StopsAt(fat, scl, k, m, r)
    decreases |fat| - k
  {
    if k < |fat| - 2 {
      var c := Kth(|fat|, scl, k);
      var r := Search(fat, scl, k);
      if fat[c] >= 2 {
        var next := k + 1;
        SearchFirst(fat, scl, next);
        if r == 0 {
          assert AllInUse(fat, scl, next, |fat| - 2);
        } else {
          var m: nat :| StopsAt(fat, scl, next, m, r);
          assert StopsAt(fat, scl, k, m, r);
        }
      } else {
        assert StopsAt(fat, scl, k, k, r);
      }
    }
  }

  /** "No free cluster" is reported exactly when every entry is in use (and none holds the impossible value 1). */
  lemma SearchExhaustive(fat: seq<nat>, scl: nat)
    requires 1 <= scl < |fat| && |fat| >= 3
    ensures Search(fat, scl, 0) == 0 <==> forall c :: 2 <= c < |fat| ==> fat[c] >= 2
    ensures (forall c :: 2 <= c < |fat| ==> fat[c] != 1) ==>
              (Search(fat, scl, 0) == 0 <==> FreeSet(fat) == {}) && Search(fat, scl, 0) != 1
  {
    SearchFirst(fat, scl, 0);
    if Search(fat, scl, 0) == 0 {
      forall c | 2 <= c < |fat|
        ensures fat[c] >= 2
      {
        KthCovers(|fat|, scl, c);
      }
    }
    assert FreeSet(fat) == {} <==> forall c :: 2 <= c < |fat| ==> fat[c] != 0 by {
      if FreeSet(fat) != {} {
        var c :| c in FreeSet(fat);
      }
      assert forall c :: 2 <= c < |fat| && fat[c] == 0 ==> c in FreeSet(fat);
    }
  }

  /** On the way up from s, and around from the last cluster to cluster 2, c comes before r; all the way around when r
      is s again. */
  predicate Before(s: nat, r: nat, c: nat) {
    if s < r then s < c < r else s < c || c < r
  }

  /** The search returns the first free cluster behind the one it starts from, around the end of the FAT, 1 if an entry
      that holds 1 comes before it, and 0 if there is neither. */
  lemma SearchNearest(fat: seq<nat>, s: nat)
    requires 1 <= s < |fat| && |fat| >= 3
    ensures var r := Search(fat, s, 0);
            && (r >= 2 ==> r < |fat| && fat[r] == 0 && forall c :: 2 <= c < |fat| && Before(s, r, c) ==> fat[c] >= 2)
            && (r == 1 ==> exists d :: 2 <= d < |fat| && fat[d] == 1 &&
                             forall c :: 2 <= c < |fat| && Before(s, d, c) ==> fat[c] >= 2)
            && (r == 0 ==> forall c :: 2 <= c < |fat| ==> fat[c] >= 2)
  {
    var r := Search(fat, s, 0);
    SearchFirst(fat, s, 0);
    SearchExhaustive(fat, s);
    if r != 0 {
      var m: nat :| StopsAt(fat, s, 0, m, r);
      var d := Kth(|fat|, s, m);
      forall c | 2 <= c < |fat| && Before(s, d, c)
        ensures fat[c] >= 2
      {
        var j := if c > s then c - s - 1 else c - s - 1 + |fat| - 2;
        assert Kth(|fat|, s, j) == c && 0 <= j < m;
      }
    }
  }

  /** Where create_chain looks for a new cluster: behind the cluster it stretches; for a new chain, behind the cluster
      allocated last, or from cluster 2 on if there is no such cluster. */
  lemma NewCluster(fat: seq<nat>, clst: nat, last: nat)
    requires |fat| >= 3 && Allocates(fat, clst, last)
    ensures var s := if clst != 0 then clst else if 1 <= last < |fat| then last else 1;
            var r := CreateResult(fat, clst, last);
            2 <= r < |fat| && fat[r] == 0 && forall c :: 2 <= c < |fat| && Before(s, r, c) ==> fat[c] >= 2
  {
    SearchNearest(fat, if clst == 0 then Hint(|fat|, last) else clst);
  }

  /** A number that is no cluster, or a cluster that is free or damaged, cannot be stretched. */
  lemma CreateRefuses(fat: seq<nat>, clst: nat, last: nat, eoc: nat)
    requires |fat| >= 3 && clst != 0 && (clst < 2 || clst >= |fat| || fat[clst] < 2)
    ensures CreateResult(fat, clst, last) == 1 && CreateFat(fat, clst, last, eoc) == fat
  {
  }

  /** A chain that does not contain clst survives create_chain. */
  lemma CreateKeepsChain(fat: seq<nat>, clst: nat, last: nat, eoc: nat, other: seq<nat>)
    requires |fat| >= 3 && IsChain(fat, other) && clst !in other
    ensures IsChain(CreateFat(fat, clst, last, eoc), other)
    ensures Allocates(fat, clst, last) ==> CreateResult(fat, clst, last) !in other
  {
    if Allocates(fat, clst, last) {
      SearchRange(fat, if clst == 0 then Hint(|fat|, last) else clst, 0);
      var ncl := CreateResult(fat, clst, last);
      forall i | 0 <= i < |other|
        ensures other[i] != ncl
      {
        assert fat[other[i]] != 0;
      }
    }
  }

  /** Stretching a chain at its last cluster appends exactly the new cluster. */
  lemma CreateExtends(fat: seq<nat>, ch: seq<nat>, last: nat, eoc: nat)
    requires |fat| >= 3 && IsChain(fat, ch) && eoc >= |fat|
    requires Allocates(fat, ch[|ch| - 1], last)
    ensures IsChain(CreateFat(fat, ch[|ch| - 1], last, eoc), ch + [CreateResult(fat, ch[|ch| - 1], last)])
  {
    var clst := ch[|ch| - 1];
    SearchRange(fat, clst, 0);
    var ncl := CreateResult(fat, clst, last);
    forall i | 0 <= i < |ch|
      ensures ch[i] != ncl
    {
      assert fat[ch[i]] != 0;
    }
  }

  lemma CreateStarts(fat: seq<nat>, last: nat, eoc: nat)
    requires |fat| >= 3 && eoc >= |fat| && Allocates(fat, 0, last)
    ensures IsChain(CreateFat(fat, 0, last, eoc), [CreateResult(fat, 0, last)])
  {
    SearchRange(fat, Hint(|fat|, last), 0);
  }

  /** Inside a chain create_chain follows the link and changes nothing. */
  lemma CreateFollows(fat: seq<nat>, ch: seq<nat>, i: nat, last: nat, eoc: nat)
    requires |fat| >= 3 && IsChain(fat, ch) && i < |ch| - 1
    ensures CreateResult(fat, ch[i], last) == ch[i + 1] && CreateFat(fat, ch[i], last, eoc) == fat
  {
    assert fat[ch[i]] == ch[i + 1];
  }

  /** The set of chains after create_chain: one chain grows by one cluster, or a new one is born. */
  ghost function CreatedChains(chs: set<seq<nat>>, ch: seq<nat>, ncl: nat): set<seq<nat>> {
    (chs - {ch}) + {ch + [ncl]}
  }

  lemma NoOnes(fat: seq<nat>, chs: set<seq<nat>>, c: nat)
    requires WellFormed(fat, chs) && 2 <= c < |fat|
    ensures fat[c] == 0 || fat[c] >= 2
  {
    if fat[c] != 0 {
      assert InSome(c, chs);
      var ch :| ch in chs && c in ch;
      var i :| 0 <= i < |ch| && ch[i] == c;
      assert fat[ch[i]] >= 2;
    }
  }

  /** create_chain keeps the FAT a set of disjoint, ended chains; ch == [] stands for a new chain. */
  lemma CreateWellFormed(fat: seq<nat>, chs: set<seq<nat>>, ch: seq<nat>, last: nat, eoc: nat)
    requires |fat| >= 3 && eoc >= |fat| && WellFormed(fat, chs) && [] !in chs
    requires ch == [] || ch in chs
    ensures var clst := if ch == [] then 0 else ch[|ch| - 1];
            var r := CreateResult(fat, clst, last);
            && (r == 0 <==> FreeSet(fat) == {})
            && (r == 0 ==> CreateFat(fat, clst, last, eoc) == fat)
            && (r != 0 ==> r in FreeSet(fat) && WellFormed(CreateFat(fat, clst, last, eoc), CreatedChains(chs, ch, r)))
  {
    var clst := if ch == [] then 0 else ch[|ch| - 1];
    var r := CreateResult(fat, clst, last);
    var scl := if ch == [] then Hint(|fat|, last) else clst;
    assert ch != [] ==> IsChain(fat, ch);
    forall c | 2 <= c < |fat|
      ensures fat[c] != 1
    {
      NoOnes(fat, chs, c);
    }
    SearchExhaustive(fat, scl);
    SearchRange(fat, scl, 0);
    if r != 0 {
      CreateWellFormedStep(fat, chs, ch, last, eoc, clst, r);
    }
  }

  lemma CreateWellFormedStep(fat: seq<nat>, chs: set<seq<nat>>, ch: seq<nat>, last: nat, eoc: nat, clst: nat, r: nat)
    requires |fat| >= 3 && eoc >= |fat| && WellFormed(fat, chs) && [] !in chs
    requires ch == [] || ch in chs
    requires clst == (if ch == [] then 0 else ch[|ch| - 1])
    requires Allocates(fat, clst, last) && r == CreateResult(fat, clst, last)
    ensures WellFormed(CreateFat(fat, clst, last, eoc), CreatedChains(chs, ch, r))
  {
    var f := CreateFat(fat, clst, last, eoc);
    assert IsChain(f, ch + [r]) by {
      if ch == [] {
        CreateStarts(fat, last, eoc);
        assert ch + [r] == [r];
      } else {
        CreateExtends(fat, ch, last, eoc);
      }
    }
    forall a | a in chs && a != ch
      ensures IsChain(f, a) && Disjoint(a, ch + [r]) && Disjoint(ch + [r], a)
    {
      CreateKeepsOther(fat, chs, ch, last, eoc, clst, a);
    }
    assert ch != [] ==> clst in ch;
    forall c | 2 <= c < |f| && f[c] != 0
      ensures c in ch + [r] || (c !in ch && InSome(c, chs))
    {
      if c != r && c !in ch {
        assert fat[c] != 0;
      }
    }
    ReplaceChain(f, chs, ch, {ch + [r]});
  }

  lemma CreateKeepsOther(fat: seq<nat>, chs: set<seq<nat>>, ch: seq<nat>, last: nat, eoc: nat, clst: nat, a: seq<nat>)
    requires |fat| >= 3 && eoc >= |fat| && WellFormed(fat, chs) && [] !in chs
    requires ch == [] || ch in chs
    requires clst == (if ch == [] then 0 else ch[|ch| - 1])
    requires Allocates(fat, clst, last) && a in chs && a != ch
    ensures var r := CreateResult(fat, clst, last);
            IsChain(CreateFat(fat, clst, last, eoc), a) && Disjoint(a, ch + [r]) && Disjoint(ch + [r], a)
  {
    assert IsChain(fat, a);
    if ch == [] {
      assert clst !in a;
    } else {
      assert Disjoint(a, ch) && clst in ch;
    }
    CreateKeepsChain(fat, clst, last, eoc, a);
  }

  /** Putting the chains of repl in the place of ch. */
  lemma ReplaceChain(f: seq<nat>, chs: set<seq<nat>>, ch: seq<nat>, repl: set<seq<nat>>)
    requires forall a, b :: a in chs && b in chs && a != b ==> Disjoint(a, b)
    requires forall a :: a in chs && a != ch ==> IsChain(f, a)
    requires forall a :: a in repl ==> IsChain(f, a)
    requires forall a, b :: a in repl && b in repl ==> a == b
    requires forall a, b :: a in repl && b in chs && b != ch ==> Disjoint(a, b) && Disjoint(b, a)
    requires forall c :: 2 <= c < |f| && f[c] != 0 ==> (exists a :: a in repl && c in a) || (c !in ch && InSome(c, chs))
    ensures WellFormed(f, (chs - {ch}) + repl)
  {
    hide IsChain, Disjoint, InSome;
    var chs' := (chs - {ch}) + repl;
    forall c | 2 <= c < |f| && f[c] != 0
      ensures InSome(c, chs')
    {
      if a :| a in repl && c in a {
        Covered(c, a, chs');
      } else {
        StillCovered(c, chs, ch, chs');
      }
    }
  }

  lemma Covered(c: nat, a: seq<nat>, chs: set<seq<nat>>)
    requires a in chs && c in a
    ensures InSome(c, chs)
  {
  }

  lemma StillCovered(c: nat, chs: set<seq<nat>>, ch: seq<nat>, chs': set<seq<nat>>)
    requires InSome(c, chs) && c !in ch && chs - {ch} <= chs'
    ensures InSome(c, chs')
  {
    var a :| a in chs && c in a;
    assert a in chs';
  }

  // ---------------------------------------------------------------- removal

  datatype Freed = Freed(fat: seq<nat>, steps: nat, ok: bool)

  /** remove_chain's walk from cluster c over any FAT contents: it frees clusters until it meets
      a free one, an end mark, or the impossible value 1. It ends because every step frees a used entry. */
  function FreeWalk(fat: seq<nat>, c: nat): (r: Freed)
    requires 2 <= c < |fat|
    ensures |r.fat| == |fat|
    decreases UsedSet(fat)
  {
    var nxt := fat[c];
    if nxt == 0 then Freed(fat, 0, true)
    else if nxt == 1 then Freed(fat, 0, false)
    else
      var f := fat[c := 0];
      UsedShrinks(fat, c);
      if nxt >= |fat| then Freed(f, 1, true)
      else
        var r := FreeWalk(f, nxt);
        Freed(r.fat, r.steps + 1, r.ok)
  }

  lemma UsedShrinks(fat: seq<nat>, c: nat)
    requires 2 <= c < |fat| && fat[c] != 0
    ensures UsedSet(fat[c := 0]) == UsedSet(fat) - {c} && c in UsedSet(fat)
  {
  }

  /** Every cluster of s marked free. */
  function Zeroed(fat: seq<nat>, s: seq<nat>): (f: seq<nat>)
    ensures |f| == |fat|
  {
    seq(|fat|, c requires 0 <= c < |fat| => if c in s then 0 else fat[c])
  }

  /** From any cluster of a chain the walk frees exactly the rest of the chain. */
  lemma {:induction false} WalkFreesSuffix(fat: seq<nat>, suf: seq<nat>)
    requires IsChain(fat, suf)
    ensures FreeWalk(fat, suf[0]) == Freed(Zeroed(fat, suf), |suf|, true)
    decreases |suf|
  {
    var f := fat[suf[0] := 0];
    assert fat[suf[0]] >= 2;
    if |suf| == 1 {
      assert f == Zeroed(fat, suf);
    } else {
      var rest := suf[1..];
      assert fat[suf[0]] == suf[1];
      assert IsChain(f, rest) by {
        forall i | 0 <= i < |rest|
          ensures f[rest[i]] == fat[suf[i + 1]]
        {
        }
      }
      WalkFreesSuffix(f, rest);
      assert Zeroed(f, rest) == Zeroed(fat, suf) by {
        assert suf == [suf[0]] + rest;
      }
    }
  }

  /** p is a way along the links from c, without circles and over clusters in use. */
  ghost predicate Path(fat: seq<nat>, c: nat, p: seq<nat>) {
    && (forall i, j :: 0 <= i < j < |p| ==> p[i] != p[j]) && (p != [] ==> p[0] == c)
    && (forall i :: 0 <= i < |p| ==> 2 <= p[i] < |fat| && fat[p[i]] >= 2)
    && forall i {:trigger fat[p[i]]} :: 0 <= i < |p| - 1 ==> fat[p[i]] == p[i + 1]
  }

  /** Where a way from c leads. */
  function PathEnd(fat: seq<nat>, c: nat, p: seq<nat>): nat
    requires p != [] ==> p[|p| - 1] < |fat|
  {
    if p == [] then c else fat[p[|p| - 1]]
  }

  /** On any FAT the walk frees the clusters it comes to, link by link. It stops at an end mark, at a cluster that is
      free (one of its own, if the links run in a circle), or at the value 1, which alone is an error. */
  lemma {:induction false} WalkPath(fat: seq<nat>, c: nat) returns (p: seq<nat>)
    requires 2 <= c < |fat|
    ensures Path(fat, c, p) && FreeWalk(fat, c).fat == Zeroed(fat, p) && FreeWalk(fat, c).steps == |p|
    ensures var d := PathEnd(fat, c, p);
            && (d >= |fat| || d in p || fat[d] == 0 || fat[d] == 1)
            && (FreeWalk(fat, c).ok <==> !(d < |fat| && d !in p && fat[d] == 1))
    decreases UsedSet(fat)
  {
    p := [];
    if fat[c] >= 2 {
      p := [c];
      if fat[c] < |fat| {
        UsedShrinks(fat, c);
        var q := WalkPath(fat[c := 0], fat[c]);
        PathOn(fat, c, q);
        PathEndOn(fat, c, q);
        hide Path, PathEnd;
        p := [c] + q;
      }
    }
  }

  /** One cluster more in front of a path. */
  lemma PathOn(fat: seq<nat>, c: nat, q: seq<nat>)
    requires 2 <= c < |fat| && 2 <= fat[c] < |fat| && Path(fat[c := 0], fat[c], q)
    ensures Path(fat, c, [c] + q) && Zeroed(fat[c := 0], q) == Zeroed(fat, [c] + q)
  {
    var p := [c] + q;
    assert c !in q;
    ZeroedInFront(fat, c, q);
    hide Zeroed;
    forall i | 0 < i < |p|
      ensures p[i] == q[i - 1] && p[i] != c && 2 <= p[i] < |fat| && fat[p[i]] >= 2
      ensures i < |p| - 1 ==> fat[p[i]] == p[i + 1]
    {
      assert q[i - 1] in q;
      if i < |p| - 1 {
        assert fat[c := 0][q[i - 1]] == q[i];
      }
    }
    assert |p| > 1 ==> p[1] == q[0] == fat[c];
  }

  lemma ZeroedInFront(fat: seq<nat>, c: nat, q: seq<nat>)
    requires c < |fat| && c !in q
    ensures Zeroed(fat[c := 0], q) == Zeroed(fat, [c] + q)
  {
  }

  lemma PathEndOn(fat: seq<nat>, c: nat, q: seq<nat>)
    requires 2 <= c < |fat| && 2 <= fat[c] < |fat| && Path(fat[c := 0], fat[c], q)
    ensures |fat[c := 0]| == |fat| && [c] + q != [] && ([c] + q)[|q|] < |fat|
    ensures PathEnd(fat, c, [c] + q) == PathEnd(fat[c := 0], fat[c], q)
    ensures var d := PathEnd(fat, c, [c] + q);
            (d in [c] + q <==> d == c || d in q) && (d < |fat| ==> fat[c := 0][d] == if d == c then 0 else fat[d])
  {
    var p := [c] + q;
    assert p[|p| - 1] == if q == [] then c else q[|q| - 1];
  }

  /** A number that is no cluster is refused, and so is a previous cluster that is none; nothing changes. */
  lemma RemoveRefuses(fat: seq<nat>, clst: nat, pclst: nat, eoc: nat)
    requires clst < 2 || clst >= |fat| || pclst == 1 || pclst >= |fat|
    ensures RemoveResult(fat, clst, pclst, eoc) == Freed(fat, 0, false)
  {
  }

  /** What remove_chain does: end the part kept at pclst, then free from clst on. */
  function RemoveResult(fat: seq<nat>, clst: nat, pclst: nat, eoc: nat): (r: Freed)
    ensures |r.fat| == |fat|
  {
    if clst < 2 || clst >= |fat| then Freed(fat, 0, false)
    else if pclst == 0 then FreeWalk(fat, clst)
    else if pclst < 2 || pclst >= |fat| then Freed(fat, 0, false)
    else FreeWalk(fat[pclst := eoc], clst)
  }

  lemma SuffixIsChain(fat: seq<nat>, ch: seq<nat>, k: nat)
    requires IsChain(fat, ch) && k < |ch|
    ensures IsChain(fat, ch[k..])
  {
    var s := ch[k..];
    forall i | 0 <= i < |s|
      ensures s[i] == ch[k + i] && fat[s[i]] == fat[ch[k + i]]
    {
    }
  }

  /** Cutting a chain after its first k clusters (k == 0: the whole chain): exactly the rest is freed,
      the part kept is ended, and disjoint chains stay. */
  lemma RemoveCuts(fat: seq<nat>, ch: seq<nat>, k: nat, eoc: nat)
    requires IsChain(fat, ch) && k < |ch| && eoc >= |fat|
    ensures var pclst := if k == 0 then 0 else ch[k - 1];
            var base := if k == 0 then fat else fat[pclst := eoc];
            && RemoveResult(fat, ch[k], pclst, eoc) == Freed(Zeroed(base, ch[k..]), |ch| - k, true)
            && (k > 0 ==> IsChain(Zeroed(base, ch[k..]), ch[..k]))
  {
    var pclst := if k == 0 then 0 else ch[k - 1];
    var base := if k == 0 then fat else fat[pclst := eoc];
    SuffixIsChain(fat, ch, k);
    if k > 0 {
      EndedSuffix(fat, ch, k, eoc);
      EndedPrefix(fat, ch, k, eoc);
    }
    hide IsChain;
    WalkFreesSuffix(base, ch[k..]);
    InChain(fat, ch, k);
  }

  lemma InChain(fat: seq<nat>, ch: seq<nat>, k: nat)
    requires IsChain(fat, ch) && k < |ch|
    ensures 2 <= ch[k] < |fat| && (k > 0 ==> 2 <= ch[k - 1] < |fat|)
  {
  }

  /** The rest is still a chain after the part before it has been ended. */
  lemma EndedSuffix(fat: seq<nat>, ch: seq<nat>, k: nat, eoc: nat)
    requires IsChain(fat, ch) && 0 < k < |ch|
    ensures IsChain(fat[ch[k - 1] := eoc], ch[k..])
  {
    var suf, base := ch[k..], fat[ch[k - 1] := eoc];
    assert forall i :: 0 <= i < |suf| ==> suf[i] == ch[k + i];
    assert forall i :: 0 <= i < |suf| ==> base[suf[i]] == fat[suf[i]];
  }

  lemma EndedPrefix(fat: seq<nat>, ch: seq<nat>, k: nat, eoc: nat)
    requires IsChain(fat, ch) && 0 < k < |ch| && eoc >= |fat|
    ensures IsChain(Zeroed(fat[ch[k - 1] := eoc], ch[k..]), ch[..k])
  {
    var pre, suf := ch[..k], ch[k..];
    var f := Zeroed(fat[ch[k - 1] := eoc], suf);
    forall i | 0 <= i < k
      ensures pre[i] == ch[i] && f[pre[i]] == if i == k - 1 then eoc else fat[ch[i]]
    {
      assert pre[i] !in suf;
    }
  }

  lemma RemoveKeepsChain(fat: seq<nat>, ch: seq<nat>, k: nat, eoc: nat, other: seq<nat>)
    requires IsChain(fat, ch) && k < |ch| && eoc >= |fat| && IsChain(fat, other) && Disjoint(other, ch)
    ensures IsChain(RemoveResult(fat, ch[k], if k == 0 then 0 else ch[k - 1], eoc).fat, other)
  {
    RemoveCuts(fat, ch, k, eoc);
    var f := RemoveResult(fat, ch[k], if k == 0 then 0 else ch[k - 1], eoc).fat;
    forall i | 0 <= i < |other|
      ensures f[other[i]] == fat[other[i]]
    {
      assert other[i] in other;
    }
  }

  ghost function CutChains(chs: set<seq<nat>>, ch: seq<nat>, k: nat): set<seq<nat>>
    requires k < |ch|
  {
    (chs - {ch}) + if k == 0 then {} else {ch[..k]}
  }

  /** remove_chain keeps the FAT a set of disjoint, ended chains. */
  lemma RemoveWellFormed(fat: seq<nat>, chs: set<seq<nat>>, ch: seq<nat>, k: nat, eoc: nat)
    requires WellFormed(fat, chs) && ch in chs && k < |ch| && eoc >= |fat|
    ensures WellFormed(RemoveResult(fat, ch[k], if k == 0 then 0 else ch[k - 1], eoc).fat, CutChains(chs, ch, k))
  {
    assert IsChain(fat, ch);
    var f := RemoveResult(fat, ch[k], if k == 0 then 0 else ch[k - 1], eoc).fat;
    RemoveCuts(fat, ch, k, eoc);
    var repl := if k == 0 then {} else {ch[..k]};
    hide IsChain, RemoveResult;
    forall a | a in chs && a != ch
      ensures IsChain(f, a) && Disjoint(a, ch[..k]) && Disjoint(ch[..k], a)
    {
      assert Disjoint(a, ch);
      RemoveKeepsChain(fat, ch, k, eoc, a);
    }
    forall c | 2 <= c < |f| && f[c] != 0
      ensures (exists a :: a in repl && c in a) || (c !in ch && InSome(c, chs))
    {
      RemoveCovers(fat, ch, k, eoc, c);
      assert c in ch ==> ch[..k] in repl;
    }
    ReplaceChain(f, chs, ch, repl);
  }

  lemma RemoveCovers(fat: seq<nat>, ch: seq<nat>, k: nat, eoc: nat, c: nat)
    requires IsChain(fat, ch) && k < |ch| && 2 <= c < |fat|
    requires Zeroed(if k == 0 then fat else fat[ch[k - 1] := eoc], ch[k..])[c] != 0
    ensures c in ch ==> c in ch[..k] && k > 0
    ensures c !in ch ==> fat[c] != 0
  {
    assert ch == ch[..k] + ch[k..];
  }

  // ---------------------------------------------------------------- what an operation on one chain leaves

  /** From fat with the chain ch0 to fat' with the chain ch: the clusters ch has given up are free, those it has
      gained were free, and every other entry is as it was. */
  ghost predicate OnlyChain(fat: seq<nat>, ch0: seq<nat>, fat': seq<nat>, ch: seq<nat>) {
    && |fat'| == |fat|
    && (forall c {:trigger fat'[c]} :: 0 <= c < |fat| && c !in ch ==> fat'[c] == if c in ch0 then 0 else fat[c])
    && (forall c :: c in ch && c !in ch0 ==> c < |fat| && fat[c] == 0)
  }

  lemma OnlyChainTrans(f0: seq<nat>, c0: seq<nat>, f1: seq<nat>, c1: seq<nat>, f2: seq<nat>, c2: seq<nat>)
    requires OnlyChain(f0, c0, f1, c1) && OnlyChain(f1, c1, f2, c2)
    ensures OnlyChain(f0, c0, f2, c2)
  {
    forall c | 0 <= c < |f0| && c !in c2
      ensures f2[c] == if c in c0 then 0 else f0[c]
    {
      assert c !in c1 ==> f1[c] == if c in c0 then 0 else f0[c];
    }
    forall c | c in c2 && c !in c0
      ensures c < |f0| && f0[c] == 0
    {
      assert c !in c1 ==> f1[c] == f0[c];
    }
  }

  lemma OnlyChainCreate(fat: seq<nat>, ch: seq<nat>, last: nat, eoc: nat)
    requires |fat| >= 3 && (ch == [] || IsChain(fat, ch))
    requires Allocates(fat, if ch == [] then 0 else ch[|ch| - 1], last)
    ensures var clst := if ch == [] then 0 else ch[|ch| - 1];
            OnlyChain(fat, ch, CreateFat(fat, clst, last, eoc), ch + [CreateResult(fat, clst, last)])
  {
    var clst := if ch == [] then 0 else ch[|ch| - 1];
    hide Search;
    SearchRange(fat, if clst == 0 then Hint(|fat|, last) else clst, 0);
  }

  lemma OnlyChainRemove(fat: seq<nat>, ch: seq<nat>, k: nat, eoc: nat)
    requires IsChain(fat, ch) && k < |ch| && eoc >= |fat|
    ensures OnlyChain(fat, ch, RemoveResult(fat, ch[k], if k == 0 then 0 else ch[k - 1], eoc).fat, ch[..k])
  {
    hide IsChain, RemoveResult;
    RemoveCuts(fat, ch, k, eoc);
    var f := RemoveResult(fat, ch[k], if k == 0 then 0 else ch[k - 1], eoc).fat;
    forall c | 0 <= c < |fat| && c !in ch[..k]
      ensures f[c] == if c in ch then 0 else fat[c]
    {
      assert c in ch <==> c in ch[k..] by {
        assert ch == ch[..k] + ch[k..];
      }
      assert k > 0 ==> ch[..k][k - 1] in ch[..k];
    }
  }

  /** Such an operation keeps the FAT a set of disjoint, ended chains with nothing lost between them. */
  lemma OnlyChainWellFormed(fat: seq<nat>, chs: set<seq<nat>>, ch0: seq<nat>, fat': seq<nat>, ch: seq<nat>)
    requires WellFormed(fat, chs) && (ch0 == [] || ch0 in chs) && OnlyChain(fat, ch0, fat', ch)
    requires ch == [] || IsChain(fat', ch)
    ensures WellFormed(fat', (chs - {ch0}) + if ch == [] then {} else {ch})
  {
    var repl := if ch == [] then {} else {ch};
    forall a | a in chs && a != ch0
      ensures IsChain(fat', a) && Disjoint(a, ch) && Disjoint(ch, a)
    {
      OtherChainStays(fat, ch0, fat', ch, a);
    }
    forall c | 2 <= c < |fat'| && fat'[c] != 0
      ensures (exists a :: a in repl && c in a) || (c !in ch0 && InSome(c, chs))
    {
      if c in ch {
        assert ch in repl;
      }
    }
    ReplaceChain(fat', chs, ch0, repl);
  }

  lemma OtherChainStays(fat: seq<nat>, ch0: seq<nat>, fat': seq<nat>, ch: seq<nat>, other: seq<nat>)
    requires IsChain(fat, other) && Disjoint(other, ch0) && OnlyChain(fat, ch0, fat', ch)
    ensures IsChain(fat', other) && Disjoint(other, ch) && Disjoint(ch, other)
  {
    forall i | 0 <= i < |other|
      ensures other[i] !in ch && fat'[other[i]] == fat[other[i]]
    {
      assert other[i] in other;
      assert fat[other[i]] >= 2;
    }
  }

  // ---------------------------------------------------------------- free cluster count

  function AllClusters(n: nat): (s: set<nat>)
    ensures forall c :: c in s <==> 2 <= c < n
    ensures |s| == if n < 2 then 0 else n - 2
  {
    if n <= 2 then {} else AllClusters(n - 1) + {n - 1}
  }

  lemma FreePlusUsed(fat: seq<nat>)
    requires |fat| >= 2
    ensures |FreeSet(fat)| + |UsedSet(fat)| == |fat| - 2
  {
    assert AllClusters(|fat|) == FreeSet(fat) + UsedSet(fat) && FreeSet(fat) !! UsedSet(fat);
  }

  /** Allocation uses up one free cluster. */
  lemma CreateCounts(fat: seq<nat>, clst: nat, last: nat, eoc: nat)
    requires |fat| >= 3 && eoc > 0 && Allocates(fat, clst, last)
    ensures FreeSet(CreateFat(fat, clst, last, eoc)) == FreeSet(fat) - {CreateResult(fat, clst, last)}
    ensures CreateResult(fat, clst, last) in FreeSet(fat)
  {
    SearchRange(fat, if clst == 0 then Hint(|fat|, last) else clst, 0);
  }

  /** The walk frees as many clusters as it takes steps. */
  lemma {:induction false} WalkCounts(fat: seq<nat>, c: nat)
    requires 2 <= c < |fat|
    ensures var r := FreeWalk(fat, c);
            |FreeSet(r.fat)| == |FreeSet(fat)| + r.steps
    decreases UsedSet(fat)
  {
    if fat[c] >= 2 {
      var f := fat[c := 0];
      UsedShrinks(fat, c);
      assert FreeSet(f) == FreeSet(fat) + {c};
      if fat[c] < |fat| {
        WalkCounts(f, fat[c]);
      }
    }
  }

  function Members(ch: seq<nat>): set<nat> {
    set c | c in ch
  }

  lemma {:induction false} MembersCount(ch: seq<nat>)
    requires forall i, j :: 0 <= i < j < |ch| ==> ch[i] != ch[j]
    ensures |Members(ch)| == |ch|
  {
    if ch != [] {
      MembersCount(ch[1..]);
      assert Members(ch) == {ch[0]} + Members(ch[1..]);
    } else {
      assert Members(ch) == {};
    }
  }

  /** Clusters are neither lost nor made up: what the chain gains the free clusters lose. */
  lemma FreeConserved(fat: seq<nat>, ch0: seq<nat>, fat': seq<nat>, ch: seq<nat>)
    requires |fat| >= 2 && (ch0 == [] || IsChain(fat, ch0)) && (ch == [] || IsChain(fat', ch)) &&
             OnlyChain(fat, ch0, fat', ch)
    ensures |FreeSet(fat')| + |ch| == |FreeSet(fat)| + |ch0|
  {
    hide IsChain, OnlyChain, FreeSet, UsedSet, Members;
    UsedIncludes(fat, ch0);
    UsedIncludes(fat', ch);
    UsedElsewhere(fat, ch0, fat', ch);
    FreePlusUsed(fat);
    FreePlusUsed(fat');
  }

  lemma UsedElsewhere(fat: seq<nat>, ch0: seq<nat>, fat': seq<nat>, ch: seq<nat>)
    requires OnlyChain(fat, ch0, fat', ch)
    ensures |fat'| == |fat| && UsedSet(fat') - Members(ch) == UsedSet(fat) - Members(ch0)
  {
    forall c: nat
      ensures c in UsedSet(fat') - Members(ch) <==> c in UsedSet(fat) - Members(ch0)
    {
      if c < |fat| && c !in ch {
        assert fat'[c] == if c in ch0 then 0 else fat[c];
      }
    }
  }

  lemma UsedIncludes(fat: seq<nat>, ch: seq<nat>)
    requires ch == [] || IsChain(fat, ch)
    ensures |UsedSet(fat) - Members(ch)| == |UsedSet(fat)| - |ch|
  {
    if ch != [] {
      InUse(fat, ch);
    }
    MembersCount(ch);
    assert Members(ch) <= UsedSet(fat);
  }

  lemma InUse(fat: seq<nat>, ch: seq<nat>)
    requires IsChain(fat, ch)
    ensures forall c :: c in ch ==> 2 <= c < |fat| && fat[c] >= 2
  {
    forall i | 0 <= i < |ch|
      ensures fat[ch[i]] >= 2
    {
      assert i < |ch| - 1 ==> ch[i + 1] >= 2;
    }
  }
}
