/** What `regexec` reports for each of the five patterns. */
module BootMatches {
  import opened CString
  import opened Bre
  import opened BootPatterns

  // ---------------------------------------------------------------- finding a head and a core

  predicate HeadAt(line: string, heads: seq<string>, i: nat, limit: nat) {
    exists j :: 0 <= j < |heads| && At(line, heads[j], i) && i + |heads[j]| <= limit
  }

  predicate CoreAt(line: string, core: seq<Item>, k: nat) {
    k + |core| <= |line| && ItemsMatch(core, line[k..k + |core|])
  }

  /** The leftmost head, from `from` on, that ends by `limit`. */
  function FirstHead(line: string, heads: seq<string>, limit: nat, from: nat): Option<nat>
    decreases |line| - from
  {
    if HeadAt(line, heads, from, limit) then Some(from)
    else if from >= |line| then None
    else FirstHead(line, heads, limit, from + 1)
  }

  /** The last core at or before `k`. */
  function LastCore(line: string, core: seq<Item>, k: nat): Option<nat> {
    if CoreAt(line, core, k) then Some(k) else if k == 0 then None else LastCore(line, core, k - 1)
  }

  lemma {:induction false} FirstHeadIsFirst(line: string, heads: seq<string>, limit: nat, from: nat)
    ensures var r := FirstHead(line, heads, limit, from);
            && (r.Some? ==> from <= r.value && HeadAt(line, heads, r.value, limit)
                            && forall i: nat :: from <= i < r.value ==> !HeadAt(line, heads, i, limit))
            && (r.None? ==> forall i: nat :: from <= i ==> !HeadAt(line, heads, i, limit))
    decreases |line| - from
  {
    if !HeadAt(line, heads, from, limit) && from < |line| {
      FirstHeadIsFirst(line, heads, limit, from + 1);
    }
  }

  lemma {:induction false} LastCoreIsLast(line: string, core: seq<Item>, k: nat)
    ensures var r := LastCore(line, core, k);
            && (r.Some? ==> r.value <= k && CoreAt(line, core, r.value)
                            && forall j: nat :: r.value < j <= k ==> !CoreAt(line, core, j))
            && (r.None? ==> forall j: nat :: j <= k ==> !CoreAt(line, core, j))
    decreases k
  {
    if !CoreAt(line, core, k) && k > 0 {
      LastCoreIsLast(line, core, k - 1);
    }
  }

  /** The leftmost head that has a core behind it, and the last core. */
  function Locate(line: string, heads: seq<string>, core: seq<Item>): Option<(nat, nat)> {
    match LastCore(line, core, |line|)
    case None => None
    case Some(k) => match FirstHead(line, heads, k, 0)
      case None => None
      case Some(i) => Some((i, k))
  }

  lemma LocateIsBest(line: string, heads: seq<string>, core: seq<Item>)
    ensures var r := Locate(line, heads, core);
            && (r.Some? ==> HeadAt(line, heads, r.value.0, r.value.1) && CoreAt(line, core, r.value.1))
            && forall i: nat, k: nat :: HeadAt(line, heads, i, k) && CoreAt(line, core, k)
                 ==> r.Some? && r.value.0 <= i && k <= r.value.1
  {
    LastCoreIsLast(line, core, |line|);
    var last := LastCore(line, core, |line|);
    if last.Some? {
      FirstHeadIsFirst(line, heads, last.value, 0);
      forall i: nat, k: nat | HeadAt(line, heads, i, k) && CoreAt(line, core, k)
        ensures k <= last.value && HeadAt(line, heads, i, last.value)
      {
        assert k <= |line|;
      }
    }
  }

  /** What `Locate` is asked for is what it finds, if nothing beats it. */
  lemma LocateFinds(line: string, heads: seq<string>, core: seq<Item>, i: nat, k: nat)
    requires HeadAt(line, heads, i, k) && CoreAt(line, core, k)
    requires forall j: nat :: j < i ==> !HeadAt(line, heads, j, |line|)
    requires forall j: nat :: k < j ==> !CoreAt(line, core, j)
    ensures Locate(line, heads, core) == Some((i, k))
  {
    LocateIsBest(line, heads, core);
    var r := Locate(line, heads, core).value;
    assert r.1 == k;
    assert HeadAt(line, heads, r.0, |line|);
  }

  // ---------------------------------------------------------------- cuts of the line

  lemma Laid2(line: string, s: nat, gs: seq<string>)
    requires |gs| == 2 && s <= |line|
    ensures Total(gs) == |gs[0]| + |gs[1]|
    ensures Laid(line, s, gs) <==>
              var m, e := s + |gs[0]|, s + |gs[0]| + |gs[1]|; e <= |line| && gs[0] == line[s..m] && gs[1] == line[m..e]
  {
    var m := s + |gs[0]|;
    var e := m + |gs[1]|;
    assert gs[1..][1..] == [];
    assert Total(gs[1..]) == |gs[1]|;
    assert Laid(line, m, gs[1..]) <==> e <= |line| && line[m..e] == gs[1];
    assert Laid(line, s, gs) <==> m <= |line| && line[s..m] == gs[0] && Laid(line, m, gs[1..]);
  }

  lemma Laid3(line: string, s: nat, gs: seq<string>)
    requires |gs| == 3 && s <= |line|
    ensures Total(gs) == |gs[0]| + |gs[1]| + |gs[2]|
    ensures Laid(line, s, gs) <==>
              var m, n := s + |gs[0]|, s + |gs[0]| + |gs[1]|;
              n + |gs[2]| <= |line| && gs[0] == line[s..m] && gs[1] == line[m..n] && gs[2] == line[n..n + |gs[2]|]
  {
    if s + |gs[0]| <= |line| {
      Laid2(line, s + |gs[0]|, gs[1..]);
    } else {
      Laid2(line, 0, gs[1..]);
    }
  }

  lemma Laid5(line: string, s: nat, gs: seq<string>)
    requires |gs| == 5 && s <= |line|
    ensures Total(gs) == |gs[0]| + |gs[1]| + |gs[2]| + |gs[3]| + |gs[4]|
    ensures Laid(line, s, gs) <==>
              var m, n := s + |gs[0]|, s + |gs[0]| + |gs[1]|;
              var o, q := n + |gs[2]|, n + |gs[2]| + |gs[3]|;
              && q + |gs[4]| <= |line| && gs[0] == line[s..m] && gs[1] == line[m..n]
              && gs[2] == line[n..o] && gs[3] == line[o..q] && gs[4] == line[q..q + |gs[4]|]
  {
    var m := s + |gs[0]|;
    var n := m + |gs[1]|;
    assert gs[1..][1..] == gs[2..];
    Laid3(line, if n <= |line| then n else 0, gs[2..]);
    assert Laid(line, s, gs) <==> m <= |line| && line[s..m] == gs[0] && Laid(line, m, gs[1..]);
    assert Laid(line, m, gs[1..]) <==> n <= |line| && line[m..n] == gs[1] && Laid(line, n, gs[2..]);
  }

  /** Group texts that are laid out and match their groups, here by alternative `j` of the first. */
  lemma AdmitsIntro(p: Pattern, line: string, m: RMatch, j: nat)
    requires |m.gs| == |p.groups| && m.gs != [] && m.start <= |line| && Laid(line, m.start, m.gs)
    requires (p.atStart ==> m.start == 0) && (p.atEnd ==> m.start + Total(m.gs) == |line|)
    requires j < |p.groups[0]| && ItemsMatch(p.groups[0][j], m.gs[0])
    requires forall i :: 1 <= i < |p.groups| ==> p.groups[i] != [] && ItemsMatch(p.groups[i][0], m.gs[i])
    ensures Admits(p, line, m)
  {
  }

  // ---------------------------------------------------------------- title and options lines

  /** The three groups, given where the head and `pre` with the core stand. */
  function HeadCut(line: string, pre: string, core: seq<Item>, i: nat, k: nat): RMatch
    requires i <= k && CoreAt(line, Lits(pre) + core, k)
  {
    var m := k + |pre|;
    RMatch(i, [line[i..m], line[m..m + |core|], line[m + |core|..]])
  }

  function HeadMatch(line: string, head: string, pre: string, core: seq<Item>): Option<RMatch> {
    match Locate(line, [head], Lits(pre) + core)
    case None => None
    case Some((i, k)) =>
      LocateIsBest(line, [head], Lits(pre) + core);
      Some(HeadCut(line, pre, core, i, k))
  }

  /** The first group of a title or options pattern: it starts with the head and ends with `pre`. */
  lemma HeadGroup(line: string, head: string, pre: string, i: nat, m: nat)
    requires i <= m <= |line|
    ensures ItemsMatch(Lits(head) + ([Star(Any)] + Lits(pre)), line[i..m])
            <==> i + |head| <= m - |pre| && At(line, head, i) && At(line, pre, m - |pre|)
  {
    var s := line[i..m];
    LitsThen(head, [Star(Any)] + Lits(pre), s);
    if i + |head| <= m {
      assert s[..|head|] == line[i..i + |head|];
      var t := s[|head|..];
      AnyStarThenLits(pre, t);
      if |pre| <= |t| { assert t[|t| - |pre|..] == line[m - |pre|..m]; }
    }
  }

  lemma CoreSplit(line: string, pre: string, core: seq<Item>, k: nat)
    requires AllOnes(core)
    ensures CoreAt(line, Lits(pre) + core, k) <==> At(line, pre, k) && CoreAt(line, core, k + |pre|)
  {
    if k + |pre| + |core| <= |line| {
      var s := line[k..k + (|pre| + |core|)];
      LitsThen(pre, core, s);
      assert s[..|pre|] == line[k..k + |pre|];
      assert s[|pre|..] == line[k + |pre|..k + |pre| + |core|];
    }
  }

  /** A match of the pattern is a head and a core at the matching places. */
  lemma HeadAdmits(line: string, head: string, pre: string, core: seq<Item>, m: RMatch)
    requires AllOnes(core) && Admits(HeadPattern(head, pre, core), line, m)
    ensures |m.gs| == 3 && |m.gs[1]| == |core| && |pre| <= |m.gs[0]|
    ensures var k := m.start + |m.gs[0]| - |pre|;
            HeadAt(line, [head], m.start, k) && CoreAt(line, Lits(pre) + core, k)
  {
    var p := HeadPattern(head, pre, core);
    Laid3(line, m.start, m.gs);
    assert GroupMatches(p.groups[0], m.gs[0]) && GroupMatches(p.groups[1], m.gs[1]);
    HeadGroup(line, head, pre, m.start, m.start + |m.gs[0]|);
    OnesMatch(core, m.gs[1]);
    var k := m.start + |m.gs[0]| - |pre|;
    CoreSplit(line, pre, core, k);
    assert At(line, [head][0], m.start);
  }

  lemma HeadFound(line: string, head: string, pre: string, core: seq<Item>, i: nat, k: nat)
    requires AllOnes(core) && HeadAt(line, [head], i, k) && CoreAt(line, Lits(pre) + core, k)
    ensures Admits(HeadPattern(head, pre, core), line, HeadCut(line, pre, core, i, k))
  {
    var m := HeadCut(line, pre, core, i, k);
    CoreSplit(line, pre, core, k);
    Laid3(line, i, m.gs);
    HeadGroup(line, head, pre, i, k + |pre|);
    AnyStarMatches(m.gs[2]);
    AdmitsIntro(HeadPattern(head, pre, core), line, m, 0);
  }

  /** `regexec` on a title or an options pattern reports the leftmost head with the last core. */
  lemma HeadReported(line: string, head: string, pre: string, core: seq<Item>)
    requires AllOnes(core)
    ensures Reported(HeadPattern(head, pre, core), line, HeadMatch(line, head, pre, core))
  {
    var p, r := HeadPattern(head, pre, core), HeadMatch(line, head, pre, core);
    LocateIsBest(line, [head], Lits(pre) + core);
    forall n | Admits(p, line, n) ensures r.Some? && Preferred(r.value, n) {
      HeadAdmits(line, head, pre, core, n);
      Laid3(line, n.start, n.gs);
      Laid3(line, r.value.start, r.value.gs);
      if n.start == r.value.start {
        var a, b := r.value.gs, n.gs;
        FirstDifferenceDecides(a, b, if |a[0]| > |b[0]| then 0 else if |a[2]| > |b[2]| then 2 else 3);
      }
    }
    if r.Some? {
      var (i, k) := Locate(line, [head], Lits(pre) + core).value;
      HeadFound(line, head, pre, core, i, k);
    }
  }

  // ---------------------------------------------------------------- linux and initrd lines

  const LINUX_HEADS := ["linux", "initrd"]

  function LinuxCore(be: string): seq<Item> { Lits(NAMESPACE + "-" + be + "/") }

  function LinuxHead(line: string, i: nat): string { if At(line, "linux", i) then "linux" else "initrd" }

  /** The five groups, given where the head and the core stand. */
  function LinuxCut(line: string, be: string, i: nat, k: nat): RMatch
    requires HeadAt(line, LINUX_HEADS, i, k) && CoreAt(line, LinuxCore(be), k)
  {
    var h, n, q := i + |LinuxHead(line, i)|, k + 10, k + 10 + |be|;
    RMatch(i, [line[i..h], line[h..k], line[k..n], line[n..q], line[q..]])
  }

  function LinuxMatch(line: string, be: string): Option<RMatch> {
    match Locate(line, LINUX_HEADS, LinuxCore(be))
    case None => None
    case Some((i, k)) =>
      LocateIsBest(line, LINUX_HEADS, LinuxCore(be));
      Some(LinuxCut(line, be, i, k))
  }

  lemma LinuxHeadIs(line: string, i: nat, j: nat)
    requires j < 2 && At(line, LINUX_HEADS[j], i)
    ensures LinuxHead(line, i) == LINUX_HEADS[j]
  {
    assert line[i] == line[i..i + |LINUX_HEADS[j]|][0];
    if At(line, "linux", i) { assert line[i] == line[i..i + 5][0]; }
  }

  /** The literal core of a linux pattern, group by group. */
  lemma LinuxCoreSplit(line: string, be: string, k: nat)
    ensures CoreAt(line, LinuxCore(be), k)
            <==> At(line, NAMESPACE + "-", k) && At(line, be, k + 10) && At(line, "/", k + 10 + |be|)
  {
    var core := NAMESPACE + "-" + be + "/";
    if k + |core| <= |line| {
      LitsMatch(core, line[k..k + |core|]);
      assert line[k..k + |core|] == line[k..k + 10] + line[k + 10..k + 10 + |be|] + line[k + 10 + |be|..k + |core|];
      assert core[..10] == NAMESPACE + "-" && core[10..10 + |be|] == be && core[10 + |be|..] == "/";
      assert core == core[..10] + core[10..10 + |be|] + core[10 + |be|..];
    }
  }

  lemma SlashThenAny(line: string, q: nat, e: nat)
    requires q <= e <= |line|
    ensures ItemsMatch(Lits("/") + [Star(Any)], line[q..e]) <==> q < e && At(line, "/", q)
  {
    var s := line[q..e];
    LitsThen("/", [Star(Any)], s);
    if q < e {
      assert s[..1] == line[q..q + 1];
      AnyStarMatches(s[1..]);
    }
  }

  lemma LinuxAdmits(line: string, be: string, m: RMatch)
    requires Admits(LinuxCompiled(be), line, m)
    ensures |m.gs| == 5 && m.gs[2] == NAMESPACE + "-" && m.gs[3] == be && m.gs[0] == LinuxHead(line, m.start)
    ensures var k := m.start + |m.gs[0]| + |m.gs[1]|;
            HeadAt(line, LINUX_HEADS, m.start, k) && CoreAt(line, LinuxCore(be), k)
  {
    var p, gs := LinuxCompiled(be), m.gs;
    Laid5(line, m.start, gs);
    assert GroupMatches(p.groups[0], gs[0]);
    var j :| 0 <= j < 2 && ItemsMatch(p.groups[0][j], gs[0]);
    LitsMatch(LINUX_HEADS[j], gs[0]);
    assert At(line, LINUX_HEADS[j], m.start);
    LinuxHeadIs(line, m.start, j);
    LinuxTail(line, be, m);
  }

  lemma LinuxTail(line: string, be: string, m: RMatch)
    requires Admits(LinuxCompiled(be), line, m)
    ensures |m.gs| == 5 && m.gs[2] == NAMESPACE + "-" && m.gs[3] == be
    ensures CoreAt(line, LinuxCore(be), m.start + |m.gs[0]| + |m.gs[1]|)
  {
    var p, gs := LinuxCompiled(be), m.gs;
    Laid5(line, m.start, gs);
    assert GroupMatches(p.groups[2], gs[2]) && GroupMatches(p.groups[3], gs[3]) && GroupMatches(p.groups[4], gs[4]);
    LitsMatch(NAMESPACE + "-", gs[2]);
    LitsMatch(be, gs[3]);
    var k := m.start + |gs[0]| + |gs[1]|;
    var q := k + 10 + |be|;
    SlashThenAny(line, q, q + |gs[4]|);
    LinuxCoreSplit(line, be, k);
  }

  /** The last three groups, cut out at a core. */
  lemma LinuxTailFound(line: string, be: string, k: nat)
    requires CoreAt(line, LinuxCore(be), k)
    ensures var n, q := k + 10, k + 10 + |be|;
            && q < |line| && line[k..n] == NAMESPACE + "-" && line[n..q] == be && "/" <= line[q..]
            && ItemsMatch(Lits(NAMESPACE + "-"), line[k..n]) && ItemsMatch(Lits(be), line[n..q])
            && ItemsMatch(Lits("/") + [Star(Any)], line[q..])
  {
    LinuxCoreSplit(line, be, k);
    var n, q := k + 10, k + 10 + |be|;
    LitsMatch(NAMESPACE + "-", line[k..n]);
    LitsMatch(be, line[n..q]);
    SlashThenAny(line, q, |line|);
    assert line[q..|line|] == line[q..];
    assert line[q..][..1] == line[q..q + 1];
  }

  lemma LinuxHeadFound(line: string, i: nat, limit: nat) returns (j: nat)
    requires HeadAt(line, LINUX_HEADS, i, limit)
    ensures j < 2 && At(line, LinuxHead(line, i), i) && i + |LinuxHead(line, i)| <= limit
    ensures ItemsMatch([Lits("linux"), Lits("initrd")][j], LinuxHead(line, i))
  {
    j :| 0 <= j < 2 && At(line, LINUX_HEADS[j], i) && i + |LINUX_HEADS[j]| <= limit;
    LinuxHeadIs(line, i, j);
    LitsMatch(LINUX_HEADS[j], LINUX_HEADS[j]);
  }

  lemma LinuxIntro(be: string, line: string, m: RMatch, j: nat)
    requires |m.gs| == 5 && m.start <= |line| && Laid(line, m.start, m.gs)
    requires j < 2 && ItemsMatch([Lits("linux"), Lits("initrd")][j], m.gs[0]) && ItemsMatch([Star(Any)], m.gs[1])
    requires ItemsMatch(Lits(NAMESPACE + "-"), m.gs[2]) && ItemsMatch(Lits(be), m.gs[3])
    requires ItemsMatch(Lits("/") + [Star(Any)], m.gs[4])
    ensures Admits(LinuxCompiled(be), line, m)
  {
    var p := LinuxCompiled(be);
    forall i | 1 <= i < 5 ensures ItemsMatch(p.groups[i][0], m.gs[i]) {
      if i == 1 {} else if i == 2 {} else if i == 3 {} else {}
    }
    AdmitsIntro(p, line, m, j);
  }

  lemma LinuxCutLaid(line: string, be: string, i: nat, k: nat)
    requires HeadAt(line, LINUX_HEADS, i, k) && CoreAt(line, LinuxCore(be), k)
    ensures var gs := LinuxCut(line, be, i, k).gs;
            |gs| == 5 && i <= |line| && Laid(line, i, gs) && i + Total(gs) == |line| && gs[0] == LinuxHead(line, i)
  {
    LinuxCoreSplit(line, be, k);
    var j := LinuxHeadFound(line, i, k);
    Laid5(line, i, LinuxCut(line, be, i, k).gs);
  }

  lemma LinuxFound(line: string, be: string, i: nat, k: nat)
    requires HeadAt(line, LINUX_HEADS, i, k) && CoreAt(line, LinuxCore(be), k)
    ensures var m := LinuxCut(line, be, i, k);
            && Admits(LinuxCompiled(be), line, m)
            && m.gs[0] == LinuxHead(line, i) && m.gs[2] == NAMESPACE + "-" && m.gs[3] == be && "/" <= m.gs[4]
  {
    var m := LinuxCut(line, be, i, k);
    LinuxCutLaid(line, be, i, k);
    var j := LinuxHeadFound(line, i, k);
    LinuxTailFound(line, be, k);
    AnyStarMatches(m.gs[1]);
    LinuxIntro(be, line, m, j);
  }

  lemma LongerOf5(a: seq<string>, b: seq<string>)
    requires |a| == |b| == 5 && |a[0]| == |b[0]| && |a[1]| >= |b[1]| && |a[2]| == |b[2]| && |a[3]| == |b[3]|
    requires |a[1]| == |b[1]| ==> |a[4]| >= |b[4]|
    ensures EarlierLonger(a, b)
  {
    FirstDifferenceDecides(a, b, if |a[1]| > |b[1]| then 1 else if |a[4]| > |b[4]| then 4 else 5);
  }

  lemma LinuxReported(line: string, be: string)
    ensures Reported(LinuxCompiled(be), line, LinuxMatch(line, be))
  {
    var p, r := LinuxCompiled(be), LinuxMatch(line, be);
    LocateIsBest(line, LINUX_HEADS, LinuxCore(be));
    if r.Some? {
      var (i, k) := Locate(line, LINUX_HEADS, LinuxCore(be)).value;
      LinuxFound(line, be, i, k);
      Laid5(line, i, r.value.gs);
    }
    forall n | Admits(p, line, n) ensures r.Some? && Preferred(r.value, n) {
      LinuxAdmits(line, be, n);
      Laid5(line, n.start, n.gs);
      if n.start == r.value.start {
        LongerOf5(r.value.gs, n.gs);
      }
    }
  }

  // ---------------------------------------------------------------- fstab lines

  /** The number of leading characters the atom accepts. */
  function Lead(s: string, a: Atom): (n: nat)
    ensures n <= |s|
  {
    if s == "" || !Accepts(a, s[0]) then 0 else 1 + Lead(s[1..], a)
  }

  /** `n` is where the leading characters the atom accepts end. */
  predicate LeadsTo(s: string, a: Atom, n: nat) {
    n <= |s| && (forall i :: 0 <= i < n ==> Accepts(a, s[i])) && (n < |s| ==> !Accepts(a, s[n]))
  }

  lemma {:induction false} LeadIs(s: string, a: Atom, n: nat)
    ensures Lead(s, a) == n <==> LeadsTo(s, a, n)
    decreases |s|
  {
    if s != "" && Accepts(a, s[0]) {
      if n > 0 {
        LeadIs(s[1..], a, n - 1);
        LeadsOneLess(s, a, n);
      }
    }
  }

  lemma LeadsOneLess(s: string, a: Atom, n: nat)
    requires s != "" && n > 0 && Accepts(a, s[0])
    ensures LeadsTo(s, a, n) <==> LeadsTo(s[1..], a, n - 1)
  {
    if LeadsTo(s[1..], a, n - 1) {
      forall i | 0 <= i < n ensures Accepts(a, s[i]) {
        if i > 0 { assert s[i] == s[1..][i - 1]; }
      }
    }
  }

  lemma AcceptedAt(a: Atom, s: string, k: nat, i: nat)
    requires i < k <= |s| && AllAccepted(a, s[..k])
    ensures Accepts(a, s[i])
  {
    assert s[..k][i] == s[i];
  }

  lemma LeadAccepts(s: string, a: Atom, k: nat, n: nat)
    requires k <= Lead(s, a) && k <= n <= |s|
    ensures AllAccepted(a, s[..n][..k])
  {
    LeadIs(s, a, Lead(s, a));
    forall i | 0 <= i < k ensures Accepts(a, s[..n][..k][i]) {
      assert s[..n][..k][i] == s[i];
    }
  }

  /** Where the blanks before the head end; negative when there is no room. */
  function HeadStart(line: string, head: string): int { Lead(line, BLANK) - Lead(head, BLANK) }

  function FstabMatch(line: string, efi: string, boot: string): Option<RMatch> {
    var head := FstabHead(efi);
    var w := HeadStart(line, head);
    if !At(line, head, w) then None
    else
      var n := w + |head|;
      match LastCore(line, Lits(boot), |line|)
      case None => None
      case Some(k) =>
        LastCoreIsLast(line, Lits(boot), |line|);
        if k < n then None
        else Some(RMatch(0, [line[..n], line[n..k], line[k..]]))
  }

  lemma HeadHasNonBlank(efi: string)
    ensures Lead(FstabHead(efi), BLANK) < |FstabHead(efi)|
  {
    var head := FstabHead(efi);
    assert head[|efi|] == '/';
    LeadIs(head, BLANK, Lead(head, BLANK));
    assert !Accepts(BLANK, head[|efi|]);
  }

  lemma LeadsOver(line: string, head: string, w: nat, l: nat)
    requires At(line, head, w) && l < |head| && LeadsTo(head, BLANK, l)
    requires forall i :: 0 <= i < w ==> Accepts(BLANK, line[i])
    ensures LeadsTo(line, BLANK, w + l)
  {
    AtIndex(line, head, w, l);
    forall i | 0 <= i < w + l ensures Accepts(BLANK, line[i]) {
      if i >= w { AtIndex(line, head, w, i - w); }
    }
  }

  /** The blanks before the head are all leading blanks the head does not claim itself. */
  lemma BlanksFixed(line: string, head: string, w: nat)
    requires At(line, head, w) && Lead(head, BLANK) < |head|
    requires forall i :: 0 <= i < w ==> Accepts(BLANK, line[i])
    ensures HeadStart(line, head) == w
  {
    var l := Lead(head, BLANK);
    LeadIs(head, BLANK, l);
    LeadsOver(line, head, w, l);
    LeadIs(line, BLANK, w + l);
  }

  lemma FstabHeadGroup(line: string, efi: string, n: nat)
    requires n <= |line|
    ensures ItemsMatch([Star(BLANK)] + Lits(FstabHead(efi)), line[0..n])
            <==> At(line, FstabHead(efi), HeadStart(line, FstabHead(efi)))
                 && n == HeadStart(line, FstabHead(efi)) + |FstabHead(efi)|
  {
    var s, head := line[..n], FstabHead(efi);
    assert line[0..n] == s;
    if ItemsMatch([Star(BLANK)] + Lits(head), s) {
      FstabHeadFixed(line, efi, n);
    }
    var w := HeadStart(line, head);
    if At(line, head, w) && n == w + |head| {
      assert s[w..] == line[w..w + |head|];
      LitsMatch(head, s[w..]);
      LeadAccepts(line, BLANK, w, n);
      StarThenIntro(BLANK, Lits(head), s, w);
    }
  }

  lemma FstabHeadFixed(line: string, efi: string, n: nat)
    requires n <= |line| && ItemsMatch([Star(BLANK)] + Lits(FstabHead(efi)), line[..n])
    ensures At(line, FstabHead(efi), HeadStart(line, FstabHead(efi))) && n == HeadStart(line, FstabHead(efi)) + |FstabHead(efi)|
  {
    var s, head := line[..n], FstabHead(efi);
    HeadHasNonBlank(efi);
    var w := StarThenElim(BLANK, Lits(head), s);
    LitsMatch(head, s[w..]);
    assert line[w..w + |head|] == s[w..];
    forall i | 0 <= i < w ensures Accepts(BLANK, line[i]) {
      AcceptedAt(BLANK, s, w, i);
    }
    BlanksFixed(line, head, w);
  }

  /** The last group of an fstab pattern has the boot mountpoint behind its blanks. */
  lemma BootGroup(line: string, boot: string, q: nat) returns (k: nat)
    requires q <= |line| && ItemsMatch([Star(BLANK)] + (Lits(boot) + [Star(Any)]), line[q..])
    ensures q <= k && CoreAt(line, Lits(boot), k)
  {
    var s := line[q..];
    var w := StarThenElim(BLANK, Lits(boot) + [Star(Any)], s);
    LitsThen(boot, [Star(Any)], s[w..]);
    k := q + w;
    assert line[k..k + |boot|] == s[w..][..|boot|];
    LitsMatch(boot, line[k..k + |boot|]);
  }

  lemma FstabAdmits(line: string, efi: string, boot: string, m: RMatch)
    requires Admits(FstabCompiled(efi, boot), line, m)
    ensures |m.gs| == 3 && m.start == 0
    ensures var r := FstabMatch(line, efi, boot);
            r.Some? && |m.gs[0]| == |r.value.gs[0]| && |m.gs[1]| <= |r.value.gs[1]|
  {
    var p, gs := FstabCompiled(efi, boot), m.gs;
    Laid3(line, 0, gs);
    assert GroupMatches(p.groups[0], gs[0]) && GroupMatches(p.groups[2], gs[2]);
    FstabHeadGroup(line, efi, |gs[0]|);
    var q := |gs[0]| + |gs[1]|;
    assert line[q..q + |gs[2]|] == line[q..];
    var k := BootGroup(line, boot, q);
    LastCoreIsLast(line, Lits(boot), |line|);
  }

  lemma FstabFound(line: string, efi: string, boot: string)
    requires FstabMatch(line, efi, boot).Some?
    ensures Admits(FstabCompiled(efi, boot), line, FstabMatch(line, efi, boot).value)
  {
    var p, m := FstabCompiled(efi, boot), FstabMatch(line, efi, boot).value;
    LastCoreIsLast(line, Lits(boot), |line|);
    Laid3(line, 0, m.gs);
    FstabHeadGroup(line, efi, |m.gs[0]|);
    AnyStarMatches(m.gs[1]);
    BootGroupFound(line, boot, |m.gs[0]| + |m.gs[1]|);
    assert line[0..|m.gs[0]|] == m.gs[0];
    AdmitsIntro(p, line, m, 0);
  }

  lemma BootGroupFound(line: string, boot: string, k: nat)
    requires CoreAt(line, Lits(boot), k)
    ensures ItemsMatch([Star(BLANK)] + (Lits(boot) + [Star(Any)]), line[k..])
  {
    var s := line[k..];
    assert s[..|boot|] == line[k..k + |boot|];
    LitsMatch(boot, line[k..k + |boot|]);
    LitsThen(boot, [Star(Any)], s);
    AnyStarMatches(s[|boot|..]);
    assert s[0..] == s;
    StarThenIntro(BLANK, Lits(boot) + [Star(Any)], s, 0);
  }

  lemma FstabReported(line: string, efi: string, boot: string)
    ensures Reported(FstabCompiled(efi, boot), line, FstabMatch(line, efi, boot))
  {
    var p, r := FstabCompiled(efi, boot), FstabMatch(line, efi, boot);
    if r.Some? {
      FstabFound(line, efi, boot);
      Laid3(line, 0, r.value.gs);
    }
    forall n | Admits(p, line, n) ensures r.Some? && Preferred(r.value, n) {
      FstabAdmits(line, efi, boot, n);
      Laid3(line, 0, n.gs);
      var a, b := r.value.gs, n.gs;
      FirstDifferenceDecides(a, b, if |a[1]| > |b[1]| then 1 else 3);
    }
  }

  // ---------------------------------------------------------------- loader.conf lines

  function LoaderMatch(line: string): Option<RMatch> {
    var w := Lead(line, BLANK);
    if !At(line, "default", w) then None
    else
      var n := w + 7 + Lead(line[w + 7..], LOADER_FILL);
      Some(RMatch(0, [line[..n], line[n..]]))
  }

  /** The first group of the loader pattern: blanks, `default`, and filling. */
  lemma LoaderHeadGroup(line: string, n: nat)
    requires n <= |line|
    ensures var w := Lead(line, BLANK);
            ItemsMatch([Star(BLANK)] + (Lits("default") + [Star(LOADER_FILL)]), line[0..n])
            <==> w <= n && ItemsMatch(Lits("default") + [Star(LOADER_FILL)], line[w..n])
  {
    var s, w, rest := line[..n], Lead(line, BLANK), Lits("default") + [Star(LOADER_FILL)];
    assert line[0..n] == s;
    if ItemsMatch([Star(BLANK)] + rest, s) {
      LoaderBlanksFixed(line, n);
    }
    if w <= n && ItemsMatch(rest, line[w..n]) {
      assert s[w..] == line[w..n];
      LeadAccepts(line, BLANK, w, n);
      StarThenIntro(BLANK, rest, s, w);
    }
  }

  lemma LoaderBlanksFixed(line: string, n: nat)
    requires n <= |line| && ItemsMatch([Star(BLANK)] + (Lits("default") + [Star(LOADER_FILL)]), line[..n])
    ensures var w := Lead(line, BLANK); w <= n && ItemsMatch(Lits("default") + [Star(LOADER_FILL)], line[w..n])
  {
    var s := line[..n];
    var k := StarThenElim(BLANK, Lits("default") + [Star(LOADER_FILL)], s);
    assert s[k..] == line[k..n];
    DefaultThenFill(line, k, n);
    AtIndex(line, "default", k, 0);
    forall i | 0 <= i < k ensures Accepts(BLANK, line[i]) {
      AcceptedAt(BLANK, s, k, i);
    }
    LeadIs(line, BLANK, k);
  }

  lemma DefaultThenFill(line: string, k: nat, n: nat)
    requires k <= n <= |line|
    ensures ItemsMatch(Lits("default") + [Star(LOADER_FILL)], line[k..n])
            <==> At(line, "default", k) && k + 7 <= n <= k + 7 + Lead(line[k + 7..], LOADER_FILL)
  {
    var s := line[k..n];
    LitsThen("default", [Star(LOADER_FILL)], s);
    if k + 7 <= n {
      assert s[..7] == line[k..k + 7] && s[7..] == line[k + 7..n];
      assert line[k + 7..n] == line[k + 7..][..n - (k + 7)];
      FillGroup(line[k + 7..], n - (k + 7));
    }
  }

  lemma FillGroup(s: string, n: nat)
    requires n <= |s|
    ensures ItemsMatch([Star(LOADER_FILL)], s[..n]) <==> n <= Lead(s, LOADER_FILL)
  {
    var t := s[..n];
    assert [Star(LOADER_FILL)] == [Star(LOADER_FILL)] + [];
    if ItemsMatch([Star(LOADER_FILL)], t) {
      var j := StarThenElim(LOADER_FILL, [], t);
      assert j == n;
      LeadCovers(s, LOADER_FILL, n);
    }
    if n <= Lead(s, LOADER_FILL) {
      LeadAccepts(s, LOADER_FILL, n, n);
      StarThenIntro(LOADER_FILL, [], t, n);
    }
  }

  lemma LeadCovers(s: string, a: Atom, n: nat)
    requires n <= |s| && AllAccepted(a, s[..n][..n])
    ensures n <= Lead(s, a)
  {
    LeadIs(s, a, Lead(s, a));
    if Lead(s, a) < n {
      AcceptedAt(a, s[..n], n, Lead(s, a));
    }
  }

  lemma LongerOf2(a: seq<string>, b: seq<string>)
    requires |a| == |b| == 2 && |a[0]| >= |b[0]| && (|a[0]| == |b[0]| ==> |a[1]| >= |b[1]|)
    ensures EarlierLonger(a, b)
  {
    FirstDifferenceDecides(a, b, if |a[0]| > |b[0]| then 0 else if |a[1]| > |b[1]| then 1 else 2);
  }

  lemma LoaderFound(line: string)
    requires LoaderMatch(line).Some?
    ensures var m := LoaderMatch(line).value;
            |m.gs| == 2 && Admits(LoaderCompiled(), line, m) && |m.gs[0]| + |m.gs[1]| == |line|
  {
    var m := LoaderMatch(line).value;
    Laid2(line, 0, m.gs);
    LoaderHeadGroup(line, |m.gs[0]|);
    DefaultThenFill(line, Lead(line, BLANK), |m.gs[0]|);
    AnyStarMatches(m.gs[1]);
    assert line[0..|m.gs[0]|] == m.gs[0];
    AdmitsIntro(LoaderCompiled(), line, m, 0);
  }

  lemma LoaderAdmits(line: string, n: RMatch)
    requires Admits(LoaderCompiled(), line, n)
    ensures |n.gs| == 2 && n.start == 0 && |n.gs[0]| + |n.gs[1]| <= |line|
    ensures LoaderMatch(line).Some? && |LoaderMatch(line).value.gs[0]| >= |n.gs[0]|
  {
    Laid2(line, 0, n.gs);
    assert GroupMatches(LoaderCompiled().groups[0], n.gs[0]);
    LoaderHeadGroup(line, |n.gs[0]|);
    DefaultThenFill(line, Lead(line, BLANK), |n.gs[0]|);
  }

  lemma LoaderReported(line: string)
    ensures Reported(LoaderCompiled(), line, LoaderMatch(line))
  {
    var p, r := LoaderCompiled(), LoaderMatch(line);
    if r.Some? {
      LoaderFound(line);
      Laid2(line, 0, r.value.gs);
    }
    forall n | Admits(p, line, n) ensures r.Some? && Preferred(r.value, n) {
      LoaderAdmits(line, n);
      Laid2(line, 0, n.gs);
      LongerOf2(r.value.gs, n.gs);
    }
  }

  // ---------------------------------------------------------------- regexec for the five patterns

  function DatasetPre(root: string): string { "zfs=" + root + "/" }

  function TitleMatch(line: string, be: string): Option<RMatch> { HeadMatch(line, "title", "", NameItems(be)) }

  function OptionsMatch(line: string, root: string, be: string): Option<RMatch> {
    HeadMatch(line, "options", DatasetPre(root), Lits(be))
  }

  lemma RegexecTitle(line: string, be: string)
    requires PlainOrDot(be)
    ensures TitlePattern(be).Some? && Reported(TitlePattern(be).value, line, TitleMatch(line, be))
  {
    TitleCompiles(be);
    HeadReported(line, "title", "", NameItems(be));
  }

  lemma RegexecLinux(line: string, be: string)
    requires PlainOrDot(be)
    ensures LinuxPattern(be).Some? && Reported(LinuxPattern(be).value, line, LinuxMatch(line, be))
  {
    LinuxCompiles(be);
    LinuxReported(line, be);
  }

  lemma RegexecOptions(line: string, root: string, be: string)
    requires PlainOrDot(root) && PlainOrDot(be)
    ensures OptionsPattern(root, be).Some? && Reported(OptionsPattern(root, be).value, line, OptionsMatch(line, root, be))
  {
    OptionsCompiles(root, be);
    HeadReported(line, "options", DatasetPre(root), Lits(be));
  }

  lemma RegexecFstab(line: string, efi: string, boot: string)
    requires PlainOrDot(efi) && PlainOrDot(boot)
    ensures FstabPattern(efi, boot).Some? && Reported(FstabPattern(efi, boot).value, line, FstabMatch(line, efi, boot))
  {
    FstabCompiles(efi, boot);
    FstabReported(line, efi, boot);
  }

  lemma RegexecLoader(line: string)
    ensures LoaderPattern().Some? && Reported(LoaderPattern().value, line, LoaderMatch(line))
  {
    LoaderCompiles();
    LoaderReported(line);
  }
}
