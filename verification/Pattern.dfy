/** pattern_matching (_USE_FIND): wildcard matching of file names, against a declarative '?' and '*' glob. */
module Pattern {
  import opened Words

  const ONE: byte := 0x3F   // '?'
  const MANY: byte := 0x2A  // '*'

  predicate IsWild(c: byte) {
    c == ONE || c == MANY
  }

  /** The ASCII case folding of get_achar; the code page has no double-byte characters. */
  function Upper(c: byte): (u: byte)
    ensures u == 0 <==> c == 0
  {
    if 0x61 <= c <= 0x7A then c - 0x20 else c
  }

  /** Two characters fold alike when they are equal, or the two cases of one letter. */
  lemma SameLetter(c: byte, d: byte)
    ensures Upper(c) == Upper(d) <==>
              c == d || (0x41 <= c <= 0x5A && d - c == 0x20) || (0x41 <= d <= 0x5A && c - d == 0x20)
  {
  }

  /** A C string: nothing but its last byte is zero. */
  ghost predicate CString(s: seq<byte>) {
    |s| > 0 && s[|s| - 1] == 0 && forall i :: 0 <= i < |s| - 1 ==> s[i] != 0
  }

  /** The characters from position i up to the terminator. */
  function Text(s: seq<byte>, i: nat): seq<byte>
    requires i < |s|
  {
    s[i..|s| - 1]
  }

  /** The pattern p describes the name n: '?' stands for any character, '*' for any run of characters,
      anything else for itself whatever its case. */
  ghost predicate Glob(p: seq<byte>, n: seq<byte>) {
    if p == [] then n == []
    else if p[0] == MANY then exists k: nat :: k <= |n| && Glob(p[1..], n[k..])
    else n != [] && (p[0] == ONE || Upper(p[0]) == Upper(n[0])) && Glob(p[1..], n[1..])
  }

  /** Patterns of one character: '?', '*', and any other. */
  lemma OneCharacter(c: byte, n: seq<byte>)
    ensures c == 0x3F ==> (Glob([c], n) <==> |n| == 1)
    ensures c == 0x2A ==> Glob([c], n)
    ensures c != 0x3F && c != 0x2A ==> (Glob([c], n) <==> |n| == 1 && Upper(n[0]) == Upper(c))
  {
    assert [c][1..] == [] && n[|n|..] == [];
    assert Glob([], []);
  }

  /** p describes what is left of n after skip characters, or after skip characters or more. */
  ghost predicate GlobAfter(p: seq<byte>, n: seq<byte>, skip: nat, orMore: bool) {
    skip <= |n| && if orMore then exists k: nat :: skip <= k <= |n| && Glob(p, n[k..]) else Glob(p, n[skip..])
  }

  /** Taking a '?' off the pattern is one more character to skip. */
  lemma TakeOne(p: seq<byte>, n: seq<byte>, skip: nat, orMore: bool)
    requires p != [] && p[0] == ONE
    ensures GlobAfter(p, n, skip, orMore) <==> GlobAfter(p[1..], n, skip + 1, orMore)
  {
    if orMore {
      if GlobAfter(p, n, skip, orMore) {
        var k: nat :| skip <= k <= |n| && Glob(p, n[k..]);
        assert n[k..][1..] == n[k + 1..];
      }
      if GlobAfter(p[1..], n, skip + 1, orMore) {
        var k: nat :| skip + 1 <= k <= |n| && Glob(p[1..], n[k..]);
        assert n[k - 1..][1..] == n[k..];
      }
    } else if skip < |n| {
      assert n[skip..][1..] == n[skip + 1..];
    }
  }

  /** Taking a '*' off the pattern allows any number of characters more. */
  lemma TakeMany(p: seq<byte>, n: seq<byte>, skip: nat, orMore: bool)
    requires p != [] && p[0] == MANY
    ensures GlobAfter(p, n, skip, orMore) <==> GlobAfter(p[1..], n, skip, true)
  {
    if GlobAfter(p, n, skip, orMore) {
      var k: nat := skip;
      if orMore {
        k :| skip <= k <= |n| && Glob(p, n[k..]);
      }
      var j: nat :| j <= |n[k..]| && Glob(p[1..], n[k..][j..]);
      assert n[k..][j..] == n[k + j..];
    }
    if GlobAfter(p[1..], n, skip, true) {
      var k: nat :| skip <= k <= |n| && Glob(p[1..], n[k..]);
      assert n[skip..][k - skip..] == n[k..];
      assert Glob(p, n[skip..]);
    }
  }

  /** A name must be at least as long as the part of the pattern before its first wildcard. */
  lemma {:induction false} TooShort(p: seq<byte>, d: nat, n: seq<byte>)
    requires d <= |p| && (forall i :: 0 <= i < d ==> !IsWild(p[i])) && |n| < d
    ensures !Glob(p, n)
  {
    if n != [] {
      TooShort(p[1..], d - 1, n[1..]);
    }
  }

  /** The search through the name: from here, or from one character further on. */
  lemma HereOrFurther(p: seq<byte>, n: seq<byte>)
    requires n != []
    ensures GlobAfter(p, n, 0, true) <==> Glob(p, n) || GlobAfter(p, n[1..], 0, true)
  {
    assert n[0..] == n;
    if GlobAfter(p, n, 0, true) && !Glob(p, n) {
      var k: nat :| 0 <= k <= |n| && Glob(p, n[k..]);
      assert n[1..][k - 1..] == n[k..];
    }
    if GlobAfter(p, n[1..], 0, true) {
      var k: nat :| 0 <= k <= |n[1..]| && Glob(p, n[1..][k..]);
      assert n[1..][k..] == n[k + 1..];
    }
  }

  /** A name too short here is too short everywhere further on. */
  lemma NoneFurther(p: seq<byte>, n: seq<byte>)
    requires !Glob(p, n) && forall m: seq<byte> :: |m| < |n| ==> !Glob(p, m)
    ensures !GlobAfter(p, n, 0, true)
  {
    assert n[0..] == n;
  }

  lemma OneSkipped(p: seq<byte>, n: seq<byte>, skip: nat, orMore: bool)
    requires skip > 0
    ensures GlobAfter(p, n, skip, orMore) <==> n != [] && GlobAfter(p, n[1..], skip - 1, orMore)
  {
    if n != [] {
      assert forall k: nat :: 1 <= k <= |n| ==> n[1..][k - 1..] == n[k..];
      if GlobAfter(p, n[1..], skip - 1, orMore) && orMore {
        var k: nat :| skip - 1 <= k <= |n[1..]| && Glob(p, n[1..][k..]);
        assert n[1..][k..] == n[k + 1..];
      }
    }
  }

  /** pattern_matching */
  method PatternMatching(pat: seq<byte>, pi: nat, nam: seq<byte>, start: nat, preskip: nat, inf: bool) returns (r: bool)
    requires CString(pat) && CString(nam) && pi < |pat| && start < |nam|
    ensures r == GlobAfter(Text(pat, pi), Text(nam, start), preskip, inf)
    decreases |pat| - pi, 1
  {
    hide Glob, GlobAfter, Upper;
    ghost var p := Text(pat, pi);
    var ni: nat, skip: nat := start, preskip;
    while skip > 0
      invariant ni < |nam|
      invariant GlobAfter(p, Text(nam, ni), skip, inf) == GlobAfter(p, Text(nam, start), preskip, inf)
    {
      OneSkipped(p, Text(nam, ni), skip, inf);
      var c := Upper(nam[ni]);
      ni := ni + 1;
      skip := skip - 1;
      if c == 0 {
        return false;
      }
      assert Text(nam, ni - 1)[1..] == Text(nam, ni);
    }
    if pat[pi] == 0 && inf {
      MatchesTheEnd(p, Text(nam, ni));
      return true;
    }
    while true
      invariant ni < |nam|
      invariant GlobAfter(p, Text(nam, ni), 0, inf) == GlobAfter(p, Text(nam, start), preskip, inf)
      decreases |nam| - ni
    {
      ghost var n := Text(nam, ni);
      var nc;
      r, nc := MatchHere(pat, pi, nam, ni);
      FromHere(p, n, inf);
      if r {
        return;
      }
      ni := ni + 1;
      if !inf {
        return;
      }
      if nc == 0 {
        NoneFurther(p, n);
        return;
      }
      HereOrFurther(p, n);
      assert n[1..] == Text(nam, ni);
    }
  }

  lemma MatchesTheEnd(p: seq<byte>, n: seq<byte>)
    requires p == []
    ensures GlobAfter(p, n, 0, true)
  {
    assert Glob(p, n[|n|..]);
  }

  lemma FromHere(p: seq<byte>, n: seq<byte>, orMore: bool)
    ensures Glob(p, n) ==> GlobAfter(p, n, 0, orMore)
    ensures !orMore ==> (GlobAfter(p, n, 0, orMore) <==> Glob(p, n))
  {
    assert n[0..] == n;
  }

  /** The inner loop: does the pattern describe the name from position ni on? nc is the last name character
      looked at, and 0 tells that no shorter name would do. */
  method MatchHere(pat: seq<byte>, pi: nat, nam: seq<byte>, ni: nat) returns (r: bool, nc: byte)
    requires CString(pat) && CString(nam) && pi < |pat| && ni < |nam|
    ensures r == Glob(Text(pat, pi), Text(nam, ni))
    ensures !r && nc == 0 ==> forall m: seq<byte> :: |m| < |Text(nam, ni)| ==> !Glob(Text(pat, pi), m)
    ensures !r && Text(nam, ni) == [] ==> nc == 0
    decreases |pat| - pi, 0
  {
    hide Glob, GlobAfter;
    ghost var p, n := Text(pat, pi), Text(nam, ni);
    var pp, np := pi, ni;
    while true
      invariant pi <= pp < |pat| && ni <= np < |nam| && pp - pi == np - ni
      invariant forall i :: 0 <= i < pp - pi ==> !IsWild(p[i])
      invariant Glob(p, n) == Glob(Text(pat, pp), Text(nam, np))
      decreases |pat| - pp
    {
      ghost var d := pp - pi;
      if IsWild(pat[pp]) {
        var nm, nx;
        pp, nm, nx := SkipWild(pat, pp, Text(nam, np));
        r := PatternMatching(pat, pp, nam, np, nm, nx);
        nc := nam[np];
        if nc == 0 {
          NoShorter(p, d, n);
        }
        return;
      }
      var pc := Upper(pat[pp]);
      nc := Upper(nam[np]);
      OneStep(pat, pp, nam, np);
      pp, np := pp + 1, np + 1;
      if pc != nc {
        r := false;
        if nc == 0 {
          NoShorter(p, d + 1, n);
        }
        return;
      }
      if pc == 0 {
        r := true;
        return;
      }
    }
  }

  lemma NoShorter(p: seq<byte>, d: nat, n: seq<byte>)
    requires d <= |p| && (forall i :: 0 <= i < d ==> !IsWild(p[i])) && |n| <= d
    ensures forall m: seq<byte> :: |m| < |n| ==> !Glob(p, m)
  {
    forall m: seq<byte> | |m| < |n|
      ensures !Glob(p, m)
    {
      TooShort(p, d, m);
    }
  }

  /** One literal character of the pattern. */
  lemma OneStep(pat: seq<byte>, pp: nat, nam: seq<byte>, np: nat)
    requires CString(pat) && CString(nam) && pp < |pat| && np < |nam| && !IsWild(pat[pp])
    ensures Upper(pat[pp]) != Upper(nam[np]) ==> !Glob(Text(pat, pp), Text(nam, np))
    ensures Upper(pat[pp]) == Upper(nam[np]) == 0 ==> Glob(Text(pat, pp), Text(nam, np))
    ensures Upper(pat[pp]) == Upper(nam[np]) != 0 ==>
              pp + 1 < |pat| && np + 1 < |nam| &&
              Glob(Text(pat, pp), Text(nam, np)) == Glob(Text(pat, pp + 1), Text(nam, np + 1))
  {
    if Text(pat, pp) != [] && Text(nam, np) != [] {
      assert Text(pat, pp)[1..] == Text(pat, pp + 1) && Text(nam, np)[1..] == Text(nam, np + 1);
    }
  }

  /** The loop over a block of wildcards: how many characters it takes at least, and whether it may take more. */
  method SkipWild(pat: seq<byte>, start: nat, ghost n: seq<byte>) returns (pp: nat, nm: nat, nx: bool)
    requires CString(pat) && start < |pat| && IsWild(pat[start])
    ensures start < pp < |pat|
    ensures Glob(Text(pat, start), n) == GlobAfter(Text(pat, pp), n, nm, nx)
  {
    hide Glob, GlobAfter;
    pp, nm, nx := start, 0, false;
    FromHere(Text(pat, start), n, false);
    while true
      invariant start <= pp < |pat| - 1 && IsWild(pat[pp])
      invariant Glob(Text(pat, start), n) == GlobAfter(Text(pat, pp), n, nm, nx)
      decreases |pat| - pp
    {
      ghost var p := Text(pat, pp);
      assert p[1..] == Text(pat, pp + 1);
      if pat[pp] == ONE {
        TakeOne(p, n, nm, nx);
        nm := nm + 1;
      } else {
        TakeMany(p, n, nm, nx);
        nx := true;
      }
      pp := pp + 1;
      if !IsWild(pat[pp]) {
        break;
      }
    }
  }

  /** What the caller asks: does the pattern describe the whole name? */
  method Matches(pat: seq<byte>, nam: seq<byte>) returns (r: bool)
    requires CString(pat) && CString(nam)
    ensures r == Glob(pat[..|pat| - 1], nam[..|nam| - 1])
  {
    r := PatternMatching(pat, 0, nam, 0, 0, false);
    FromHere(Text(pat, 0), Text(nam, 0), false);
  }
}
