/** `zectl snapshot` stores `%ZECTLBE%` for the name; `zectl create -e be@snap` puts a name back. */
module TemplateRoundTrip {
  import opened CString
  import opened GroupExpansion
  import opened Bre
  import opened BootPatterns
  import opened BootMatches
  import opened LineRewrite

  const MARK := "%ZECTLBE%"

  predicate NoPercent(s: string) { forall i :: 0 <= i < |s| ==> s[i] != '%' }

  lemma MarkIsPlain()
    ensures PlainOrDot(MARK) && NoBackslash(MARK) && NameItems(MARK) == Lits(MARK)
  {
  }

  // ---------------------------------------------------------------- the mark in a rewritten line

  /** Where the text behind a mark has no `%`, no later mark starts; where the text before it has none
      either, there is no other. */
  lemma MarkIsLast(a: string, b: string, j: nat)
    requires NoPercent(b) && At(a + MARK + b, MARK, j)
    ensures j <= |a| && (NoPercent(a) ==> j == |a|)
  {
    var s := a + MARK + b;
    AtIndex(s, MARK, j, 0);
    AtIndex(s, MARK, j, 1);
    AtIndex(s, MARK, j, 8);
  }

  lemma LitsAt(s: string, t: string, k: nat)
    ensures CoreAt(s, Lits(t), k) <==> At(s, t, k)
  {
    if k + |t| <= |s| {
      LitsMatch(t, s[k..k + |t|]);
    }
  }

  lemma Thirds(x: string, y: string, z: string)
    ensures var t := x + y + z; t[0..|x|] == x && t[|x|..|x| + |y|] == y && t[|x| + |y|..|t|] == z
    ensures var t := x + y + z; t[..|x|] == x && t[|x| + |y|..] == z
  {
  }

  lemma CoreHoldsMark(s: string, pre: string, post: string, k: nat)
    requires CoreAt(s, Lits(pre + MARK + post), k)
    ensures At(s, pre, k) && At(s, MARK, k + |pre|) && At(s, post, k + |pre| + |MARK|)
  {
    var t := pre + MARK + post;
    LitsAt(s, t, k);
    AtSlice(s, t, k, 0, |pre|);
    AtSlice(s, t, k, |pre|, |pre| + |MARK|);
    AtSlice(s, t, k, |pre| + |MARK|, |t|);
    Thirds(pre, MARK, post);
  }

  lemma CoreHasPercent(s: string, pre: string, post: string, k: nat)
    requires CoreAt(s, Lits(pre + MARK + post), k)
    ensures k + |pre| < |s| && s[k + |pre|] == '%'
  {
    CoreHoldsMark(s, pre, post, k);
    AtIndex(s, MARK, k + |pre|, 0);
  }

  lemma CoreHasDash(s: string, k: nat)
    requires CoreAt(s, LinuxCore(MARK), k)
    ensures At(s, MARK, k + 10) && s[k + 9] == '-'
  {
    CoreHoldsMark(s, NAMESPACE + "-", "/", k);
    AtIndex(s, NAMESPACE + "-", k, 9);
  }

  lemma PreCore(pre: string)
    ensures Lits(pre) + Lits(MARK) == Lits(pre + MARK + "")
  {
    assert pre + MARK + "" == pre + MARK;
  }

  /** `a` begins with the head and, behind it, ends with `pre`. */
  predicate Between(head: string, pre: string, a: string) {
    |head| + |pre| <= |a| && head <= a && a[|a| - |pre|..] == pre
  }

  lemma HeadAndMark(head: string, pre: string, a: string, b: string)
    requires Between(head, pre, a)
    ensures At(a + MARK + b, head, 0) && At(a + MARK + b, pre + MARK, |a| - |pre|)
  {
    var s, k := a + MARK + b, |a| - |pre|;
    assert s[0..|head|] == a[..|head|] == head;
    assert s == a[..k] + (pre + MARK) + b;
    Thirds(a[..k], pre + MARK, b);
  }

  lemma NoLaterMark(pre: string, a: string, b: string, j: nat)
    requires NoPercent(b) && CoreAt(a + MARK + b, Lits(pre + MARK + ""), j)
    ensures j + |pre| <= |a|
  {
    CoreHoldsMark(a + MARK + b, pre, "", j);
    MarkIsLast(a, b, j + |pre|);
  }

  /** The mark is found again: after a first group that starts with the head and ends with `pre`. */
  lemma HeadRematches(head: string, pre: string, a: string, b: string)
    requires NoPercent(b) && Between(head, pre, a)
    ensures HeadMatch(a + MARK + b, head, pre, Lits(MARK)) == Some(RMatch(0, [a, MARK, b]))
  {
    var s, k := a + MARK + b, |a| - |pre|;
    HeadAndMark(head, pre, a, b);
    PreCore(pre);
    assert pre + MARK + "" == pre + MARK;
    LitsAt(s, pre + MARK, k);
    assert At(s, [head][0], 0);
    forall j: nat | k < j ensures !CoreAt(s, Lits(pre + MARK + ""), j) {
      if CoreAt(s, Lits(pre + MARK + ""), j) {
        NoLaterMark(pre, a, b, j);
      }
    }
    LocateFinds(s, [head], Lits(pre) + Lits(MARK), 0, k);
    Thirds(a, MARK, b);
  }

  lemma LinuxRematches(h: string, x: string, ns: string, b: string)
    requires NoPercent(x) && NoPercent(b) && "/" <= b && (h == "linux" || h == "initrd") && ns == NAMESPACE + "-"
    ensures LinuxMatch(h + x + ns + MARK + b, MARK) == Some(RMatch(0, [h, x, ns, MARK, b]))
  {
    var s, k := h + x + ns + MARK + b, |h| + |x|;
    LinuxHeadInFront(h, x, ns + MARK + b, s);
    LinuxCoreInside(h + x, b, s, k);
    forall j: nat | k < j ensures !CoreAt(s, LinuxCore(MARK), j) {
      if CoreAt(s, LinuxCore(MARK), j) { LinuxCoreIsUnique(h + x + ns, b, j); }
    }
    LocateFinds(s, LINUX_HEADS, LinuxCore(MARK), 0, k);
    CutsOf(h, x, ns, b, s);
  }

  lemma CutsOf(h: string, x: string, ns: string, b: string, s: string)
    requires s == h + x + ns + MARK + b && |ns| == 10
    ensures var k := |h| + |x|;
            s[0..|h|] == h && s[|h|..k] == x && s[k..k + 10] == ns && s[k + 10..k + 19] == MARK && s[k + 19..] == b
  {
  }

  lemma LinuxCoreIsUnique(a: string, b: string, j: nat)
    requires NoPercent(a) && NoPercent(b) && CoreAt(a + MARK + b, LinuxCore(MARK), j)
    ensures j + 10 == |a|
  {
    CoreHasDash(a + MARK + b, j);
    MarkIsLast(a, b, j + 10);
  }

  lemma LinuxHeadInFront(h: string, x: string, tail: string, s: string)
    requires (h == "linux" || h == "initrd") && s == h + x + tail
    ensures HeadAt(s, LINUX_HEADS, 0, |h| + |x|) && LinuxHead(s, 0) == h
  {
    var j := if h == "linux" then 0 else 1;
    assert s[0..|h|] == h;
    assert At(s, LINUX_HEADS[j], 0);
    LinuxHeadIs(s, 0, j);
  }

  lemma LinuxCoreInside(a: string, b: string, s: string, k: nat)
    requires s == a + (NAMESPACE + "-") + MARK + b && k == |a| && "/" <= b
    ensures CoreAt(s, LinuxCore(MARK), k)
  {
    var core := NAMESPACE + "-" + MARK + "/";
    assert b[..1] == "/" && s == a + core + b[1..];
    assert s[k..k + |core|] == core;
    LitsMatch(core, s[k..k + |core|]);
  }

  lemma TitleAndName(line: string, was: string, i: nat, n: nat)
    requires At(line, "title", i) && i + 5 <= n && At(line, was, n)
    ensures TitleMatch(line, was).Some?
  {
    assert At(line, ["title"][0], i);
    assert HeadAt(line, ["title"], i, n);
    OnesMatch(NameItems(was), line[n..n + |was|]);
    assert Lits("") + NameItems(was) == NameItems(was);
    LocateIsBest(line, ["title"], Lits("") + NameItems(was));
  }

  /** A title that was not there for the name is not there for the mark in its place. */
  lemma NoTitleAfter(line: string, was: string, start: nat, n: nat, b: string)
    requires TitleMatch(line, was).None? && start <= n && At(line, was, n)
    requires NoPercent(line) && NoPercent(b)
    ensures TitleMatch(line[start..n] + MARK + b, MARK).None?
  {
    var a := line[start..n];
    var s := a + MARK + b;
    if TitleMatch(s, MARK).Some? {
      var i := MarkedTitle(a, b);
      AtSlice(line, a, start, i, i + 5);
      TitleAndName(line, was, start + i, n);
    }
  }

  /** A title found with a mark that has no `%` around stands before that mark. */
  lemma MarkedTitle(a: string, b: string) returns (i: nat)
    requires NoPercent(a) && NoPercent(b) && TitleMatch(a + MARK + b, MARK).Some?
    ensures i + 5 <= |a| && a[i..i + 5] == "title"
  {
    var s := a + MARK + b;
    MarkIsPlain();
    PreCore("");
    LocateIsBest(s, ["title"], Lits("") + NameItems(MARK));
    var (j, k) := Locate(s, ["title"], Lits("") + NameItems(MARK)).value;
    i := j;
    CoreHoldsMark(s, "", "", k);
    MarkIsLast(a, b, k);
    assert At(s, ["title"][0], i);
    Thirds(a, MARK, b);
    AtSlice(s, a, 0, i, i + 5);
  }

  // ---------------------------------------------------------------- the second pass picks what the first picked

  /** The match the second pass must find. */
  function Marked(pick: Pick): Pick
    requires Shaped(pick)
  {
    match pick
    case TitleLine(m) => TitleLine(RMatch(0, [m.gs[0], MARK, m.gs[2]]))
    case LinuxLine(m) => LinuxLine(RMatch(0, [m.gs[0], m.gs[1], m.gs[2], MARK, m.gs[4]]))
    case OptionsLine(m) => OptionsLine(RMatch(0, [m.gs[0], MARK, m.gs[2]]))
    case OtherLine => OtherLine
  }

  lemma SamePickTitle(root: string, was: string, line: string)
    requires PlainOrDot(root) && PlainOrDot(was) && NoPercent(line) && CfgPick(root, was, line).TitleLine?
    ensures |CfgPick(root, was, line).m.gs| == 3
    ensures CfgPick(root, MARK, CfgRewrite(root, was, MARK, line)) == Marked(CfgPick(root, was, line))
  {
    MarkIsPlain();
    PickShape(root, was, line);
    var m := CfgPick(root, was, line).m;
    HeadShape(line, "title", "", NameItems(was));
    Laid3(line, m.start, m.gs);
    HeadRematches("title", "", m.gs[0], m.gs[2]);
  }

  lemma Joined(line: string, i: nat, h: nat, k: nat, n: nat)
    requires i <= h <= k <= n <= |line|
    ensures line[i..h] + line[h..k] + line[k..n] == line[i..n]
  {
  }

  /** The parts of a matched linux line. */
  lemma LinuxParts(line: string, was: string, i: nat, k: nat)
    requires HeadAt(line, LINUX_HEADS, i, k) && CoreAt(line, LinuxCore(was), k)
    ensures var m := LinuxCut(line, was, i, k);
            && (m.gs[0] == "linux" || m.gs[0] == "initrd") && m.gs[2] == NAMESPACE + "-" && "/" <= m.gs[4]
            && i <= k && k + 10 <= |line| && At(line, was, k + 10)
            && line[i..k + 10] == m.gs[0] + m.gs[1] + m.gs[2]
  {
    var j := LinuxHeadFound(line, i, k);
    LinuxTailFound(line, was, k);
    LinuxCoreSplit(line, was, k);
    Joined(line, i, i + |LinuxHead(line, i)|, k, k + 10);
  }

  /** What the first pass stores for a linux line. */
  lemma LinuxStored(root: string, was: string, line: string) returns (n: nat)
    requires PlainOrDot(root) && PlainOrDot(was) && NoPercent(line) && CfgPick(root, was, line).LinuxLine?
    ensures TitleMatch(line, was).None?
    ensures var m := CfgPick(root, was, line).m;
            && |m.gs| == 5 && (m.gs[0] == "linux" || m.gs[0] == "initrd") && m.gs[2] == NAMESPACE + "-" && "/" <= m.gs[4]
            && NoPercent(m.gs[1]) && NoPercent(m.gs[4])
            && m.start <= n && At(line, was, n) && m.gs[0] + m.gs[1] + m.gs[2] == line[m.start..n]
            && CfgRewrite(root, was, MARK, line) == m.gs[0] + m.gs[1] + m.gs[2] + MARK + m.gs[4]
  {
    LocateIsBest(line, LINUX_HEADS, LinuxCore(was));
    var (i, k) := Locate(line, LINUX_HEADS, LinuxCore(was)).value;
    LinuxParts(line, was, i, k);
    n := k + 10;
  }

  lemma PickOfLinux(root: string, was: string, line: string, m: RMatch)
    requires PlainOrDot(root) && PlainOrDot(was) && TitleMatch(line, was).None? && LinuxMatch(line, was) == Some(m)
    ensures CfgPick(root, was, line) == LinuxLine(m)
  {
  }

  lemma PickOfOptions(root: string, was: string, line: string, m: RMatch)
    requires PlainOrDot(root) && PlainOrDot(was) && TitleMatch(line, was).None? && LinuxMatch(line, was).None?
    requires OptionsMatch(line, root, was) == Some(m)
    ensures CfgPick(root, was, line) == OptionsLine(m)
  {
  }

  lemma SamePickLinux(root: string, was: string, line: string)
    requires PlainOrDot(root) && PlainOrDot(was) && NoPercent(line) && CfgPick(root, was, line).LinuxLine?
    ensures |CfgPick(root, was, line).m.gs| == 5
    ensures CfgPick(root, MARK, CfgRewrite(root, was, MARK, line)) == Marked(CfgPick(root, was, line))
  {
    MarkIsPlain();
    var n := LinuxStored(root, was, line);
    var m := CfgPick(root, was, line).m;
    var stored := m.gs[0] + m.gs[1] + m.gs[2] + MARK + m.gs[4];
    NoTitleAfter(line, was, m.start, n, m.gs[4]);
    LinuxRematches(m.gs[0], m.gs[1], m.gs[2], m.gs[4]);
    PickOfLinux(root, MARK, stored, RMatch(0, [m.gs[0], m.gs[1], m.gs[2], MARK, m.gs[4]]));
  }

  /** Behind a slash there is no place for the core of a linux line. */
  lemma NoLinuxBehindSlash(a: string, b: string)
    requires NoPercent(a) && NoPercent(b) && a != "" && a[|a| - 1] == '/'
    ensures LinuxMatch(a + MARK + b, MARK).None?
  {
    var s := a + MARK + b;
    LocateIsBest(s, LINUX_HEADS, LinuxCore(MARK));
    if LinuxMatch(s, MARK).Some? {
      var k := Locate(s, LINUX_HEADS, LinuxCore(MARK)).value.1;
      CoreHasDash(s, k);
      MarkIsLast(a, b, k + 10);
    }
  }

  /** The parts of a matched options line. */
  lemma OptionsParts(root: string, was: string, line: string)
    requires PlainOrDot(root) && OptionsMatch(line, root, was).Some? && NoPercent(line)
    ensures var m := OptionsMatch(line, root, was).value;
            && |m.gs| == 3
            && var n := m.start + |m.gs[0]|;
               && n <= |line| && m.gs[0] == line[m.start..n] && At(line, was, n)
               && NoPercent(m.gs[0]) && NoPercent(m.gs[2]) && m.gs[0] != "" && m.gs[0][|m.gs[0]| - 1] == '/'
               && Between("options", DatasetPre(root), m.gs[0])
  {
    var m, pre := OptionsMatch(line, root, was).value, DatasetPre(root);
    HeadShape(line, "options", pre, Lits(was));
    HeadSplices(line, "options", pre, Lits(was));
    var n := m.start + |m.gs[0]|;
    CoreSplit(line, pre, Lits(was), n - |pre|);
    LitsAt(line, was, n);
    assert m.gs[0][|m.gs[0]| - 1] == m.gs[0][|m.gs[0]| - |pre|..][|pre| - 1] == '/';
  }

  lemma SamePickOptions(root: string, was: string, line: string)
    requires PlainOrDot(root) && PlainOrDot(was) && NoPercent(line) && CfgPick(root, was, line).OptionsLine?
    ensures |CfgPick(root, was, line).m.gs| == 3
    ensures CfgPick(root, MARK, CfgRewrite(root, was, MARK, line)) == Marked(CfgPick(root, was, line))
  {
    MarkIsPlain();
    OptionsParts(root, was, line);
    var m := OptionsMatch(line, root, was).value;
    NoTitleAfter(line, was, m.start, m.start + |m.gs[0]|, m.gs[2]);
    NoLinuxBehindSlash(m.gs[0], m.gs[2]);
    HeadRematches("options", DatasetPre(root), m.gs[0], m.gs[2]);
    PickOfOptions(root, MARK, m.gs[0] + MARK + m.gs[2], RMatch(0, [m.gs[0], MARK, m.gs[2]]));
  }

  lemma NothingToPick(root: string, line: string)
    requires PlainOrDot(root) && NoPercent(line)
    ensures PlainOrDot(MARK) && CfgPick(root, MARK, line) == OtherLine
  {
    MarkIsPlain();
    var pre := DatasetPre(root);
    PreCore("");
    PreCore(pre);
    LocateIsBest(line, ["title"], Lits("") + NameItems(MARK));
    LocateIsBest(line, LINUX_HEADS, LinuxCore(MARK));
    LocateIsBest(line, ["options"], Lits(pre) + Lits(MARK));
    forall k: nat
      ensures !CoreAt(line, Lits("" + MARK + ""), k)
      ensures !CoreAt(line, LinuxCore(MARK), k)
      ensures !CoreAt(line, Lits(pre + MARK + ""), k)
    {
      if CoreAt(line, Lits("" + MARK + ""), k) { CoreHasPercent(line, "", "", k); }
      if CoreAt(line, LinuxCore(MARK), k) { CoreHasPercent(line, NAMESPACE + "-", "/", k); }
      if CoreAt(line, Lits(pre + MARK + ""), k) { CoreHasPercent(line, pre, "", k); }
    }
  }

  /** On lines without `%` the second pass picks the kind of line and the place that the first picked. */
  lemma SamePick(root: string, was: string, line: string)
    requires PlainOrDot(root) && PlainOrDot(was) && NoPercent(line)
    ensures PlainOrDot(MARK)
    ensures Shaped(CfgPick(root, was, line))
    ensures CfgPick(root, MARK, CfgRewrite(root, was, MARK, line)) == Marked(CfgPick(root, was, line))
  {
    MarkIsPlain();
    match CfgPick(root, was, line)
    case TitleLine(_) => SamePickTitle(root, was, line);
    case LinuxLine(_) => SamePickLinux(root, was, line);
    case OptionsLine(_) => SamePickOptions(root, was, line);
    case OtherLine => NothingToPick(root, line);
  }

  /** The round trip of the pure rewriting. */
  lemma RewriteRoundTrip(root: string, was: string, be: string, line: string)
    requires PlainOrDot(root) && PlainOrDot(was) && NoPercent(line)
    ensures PlainOrDot(MARK)
    ensures CfgRewrite(root, MARK, be, CfgRewrite(root, was, MARK, line)) == CfgRewrite(root, was, be, line)
  {
    SamePick(root, was, line);
    PickShape(root, was, line);
  }

  /** The expressions for the mark fit where those for the name did. */
  lemma SameForms(root: string, was: string, be: string)
    requires CfgForms(root, was, MARK)
    ensures CfgExpressions(root, MARK) && CfgExpressions(root, was)
    ensures CfgForms(root, MARK, be) <==> CfgForms(root, was, be)
  {
    EscapeLength(MARK);
  }

  /** The second pass fits where the direct rewriting does. */
  lemma SameFits(root: string, was: string, be: string, line: string)
    requires PlainOrDot(root) && PlainOrDot(was) && PlainOrDot(MARK) && NoPercent(line)
    ensures CfgFits(root, MARK, be, CfgRewrite(root, was, MARK, line)) <==> CfgFits(root, was, be, line)
  {
    SamePick(root, was, line);
    var pick, stored := CfgPick(root, was, line), CfgRewrite(root, was, MARK, line);
    assert pick.OtherLine? ==> stored == line;
    MarkedFits(pick, be, |line|, |stored|);
  }

  lemma MarkedFits(pick: Pick, be: string, n: nat, n': nat)
    requires Shaped(pick) && (pick.OtherLine? ==> n == n')
    ensures Shaped(Marked(pick)) && (PickFits(Marked(pick), be, n') <==> PickFits(pick, be, n))
  {
  }

  /** The mark does not begin with a digit. */
  lemma NoSeamForMark(root: string, was: string, line: string)
    requires PlainOrDot(root) && PlainOrDot(was)
    ensures !TitleSeam(root, was, MARK, line)
  {
    PickShape(root, was, line);
  }

  /** The backslashes at the end of `done` come to swallow a `2`, which stands for the name. */
  predicate SwallowsName(done: string, be: string, gs: seq<Option<string>>)
    requires |gs| == MAX_GROUPS
    decreases |be|
  {
    Swallows(done, be)
    && (be[0] == '2'
        || match gs[GroupIndex(be[0])]
           case None => false
           case Some(text) => SwallowsName(done[..|done| - 1] + text, be[1..], gs))
  }

  predicate SeamTakesName(root: string, was: string, be: string, line: string)
    requires PlainOrDot(root) && PlainOrDot(was)
  {
    PickShape(root, was, line);
    match CfgPick(root, was, line)
    case TitleLine(m) => TextsAt(m, line); SwallowsName(m.gs[0], be, GroupTexts(m, line))
    case _ => false
  }

  /** Groups that agree but for the name: the text in the line, and the mark. */
  predicate MarkForName(gs: seq<Option<string>>, gs': seq<Option<string>>) {
    && |gs| == |gs'| == MAX_GROUPS && gs[3].Some? && gs'[2] == Some(MARK)
    && forall i :: 0 < i < MAX_GROUPS && i != 2 ==> gs[i] == gs'[i]
  }

  lemma {:induction false} FillInsAgree(done: string, be: string, gs: seq<Option<string>>, gs': seq<Option<string>>, size: nat)
    requires MarkForName(gs, gs') && !SwallowsName(done, be, gs)
    ensures FillIn(done, be, gs', size) == FillIn(done, be, gs, size)
    decreases |be|
  {
    if Swallows(done, be) && gs[GroupIndex(be[0])].Some? {
      FillInsAgree(done[..|done| - 1] + gs[GroupIndex(be[0])].value, be[1..], gs, gs', size);
    }
  }

  lemma {:induction false} FillInsDiffer(done: string, be: string, gs: seq<Option<string>>, gs': seq<Option<string>>, size: nat)
    requires MarkForName(gs, gs') && SwallowsName(done, be, gs)
    requires gs[2].Some? && gs[2].value != "" && gs[2].value[0] != '\\' && gs[2].value[0] != '%'
    ensures var r, r' := FillIn(done, be, gs, size), FillIn(done, be, gs', size); r.Ok? || r'.Ok? ==> r != r'
    decreases |be|
  {
    var x, r := done[..|done| - 1], be[1..];
    if be[0] == '2' {
      FillInKeeps(x + gs[2].value, r, gs, size, |x|);
      FillInKeeps(x + MARK, r, gs', size, |x|);
    } else {
      FillInsDiffer(x + gs[GroupIndex(be[0])].value, r, gs, gs', size);
    }
  }

  /** The groups of the two passes over a title line. */
  lemma TitleGroups(root: string, was: string, line: string) returns (m: RMatch, m': RMatch)
    requires PlainOrDot(root) && PlainOrDot(was) && PlainOrDot(MARK) && NoPercent(line)
    requires CfgPick(root, was, line).TitleLine?
    ensures var stored := CfgRewrite(root, was, MARK, line);
            && CfgPick(root, was, line) == TitleLine(m) && CfgPick(root, MARK, stored) == TitleLine(m')
            && Solid(m, line) && Solid(m', stored) && |m.gs| == |m'.gs| == 3 && m'.gs[0] == m.gs[0]
            && m.start + Total(m.gs) <= |line| && m'.start + Total(m'.gs) <= |stored|
            && MarkForName(GroupTexts(m, line), GroupTexts(m', stored))
  {
    SamePick(root, was, line);
    PickShape(root, was, line);
    var stored := CfgRewrite(root, was, MARK, line);
    PickShape(root, MARK, stored);
    m, m' := CfgPick(root, was, line).m, CfgPick(root, MARK, stored).m;
    TextsAt(m, line);
    TextsAt(m', stored);
  }

  /** What the callback makes of a title line, seam or not. */
  lemma TitleLineText(root: string, was: string, be: string, line: string)
    requires PlainOrDot(root) && PlainOrDot(was) && NoBackslash(be) && CfgPick(root, was, line).TitleLine?
    ensures var m := CfgPick(root, was, line).m;
            && Solid(m, line) && |m.gs| == 3 && m.start + Total(m.gs) <= |line| && GroupTexts(m, line)[3].Some?
            && CfgLine(root, was, be, line)
               == if CfgForms(root, was, be) then FillIn(m.gs[0], be, GroupTexts(m, line), MAX_PATH_LEN)
                  else if CfgExpressions(root, was) then Fail(ConcatFailed)
                  else Fail(MaxPathLen)
  {
    PickShape(root, was, line);
    SubstituteOneThree(CfgPick(root, was, line).m, line, be);
  }

  lemma StoredIsRewrite(root: string, was: string, line: string)
    requires PlainOrDot(root) && PlainOrDot(was) && CfgLine(root, was, MARK, line).Ok?
    ensures PlainOrDot(MARK) && CfgForms(root, was, MARK)
    ensures CfgLine(root, was, MARK, line) == Ok(CfgRewrite(root, was, MARK, line))
  {
    MarkIsPlain();
    NoSeamForMark(root, was, line);
    CfgLineIsRewrite(root, was, MARK, line);
  }

  lemma TitleRoundTrip(root: string, was: string, be: string, line: string)
    requires PlainOrDot(root) && PlainOrDot(was) && PlainOrDot(MARK) && NoBackslash(be) && NoPercent(line)
    requires CfgPick(root, was, line).TitleLine? && !SeamTakesName(root, was, be, line) && CfgForms(root, was, MARK)
    ensures CfgLine(root, MARK, be, CfgRewrite(root, was, MARK, line)) == CfgLine(root, was, be, line)
  {
    var stored := CfgRewrite(root, was, MARK, line);
    var m, m' := TitleGroups(root, was, line);
    SameForms(root, was, be);
    TitleLineText(root, was, be, line);
    TitleLineText(root, MARK, be, stored);
    FillInsAgree(m.gs[0], be, GroupTexts(m, line), GroupTexts(m', stored), MAX_PATH_LEN);
  }

  lemma OtherRoundTrip(root: string, was: string, be: string, line: string)
    requires PlainOrDot(root) && PlainOrDot(was) && PlainOrDot(MARK) && NoBackslash(be) && NoPercent(line)
    requires !CfgPick(root, was, line).TitleLine? && CfgForms(root, was, MARK)
    ensures CfgLine(root, MARK, be, CfgRewrite(root, was, MARK, line)) == CfgLine(root, was, be, line)
  {
    SamePick(root, was, line);
    CfgLineIsRewrite(root, was, be, line);
    CfgLineIsRewrite(root, MARK, be, CfgRewrite(root, was, MARK, line));
    RewriteRoundTrip(root, was, be, line);
    SameFits(root, was, be, line);
    SameForms(root, was, be);
  }

  /** The round trip of the callback itself, buffers, seams and all: once the first pass is stored, the
      second gives what a direct rewriting gives, error for error, unless a seam takes in the name. */
  lemma CallbackRoundTrip(root: string, was: string, be: string, line: string)
    requires PlainOrDot(root) && PlainOrDot(was) && NoBackslash(be) && NoPercent(line)
    requires !SeamTakesName(root, was, be, line)
    ensures PlainOrDot(MARK)
    ensures var stored := CfgLine(root, was, MARK, line);
            stored.Ok? ==> CfgLine(root, MARK, be, stored.text) == CfgLine(root, was, be, line)
  {
    MarkIsPlain();
    if CfgLine(root, was, MARK, line).Ok? {
      StoredIsRewrite(root, was, line);
      if CfgPick(root, was, line).TitleLine? {
        TitleRoundTrip(root, was, be, line);
      } else {
        OtherRoundTrip(root, was, be, line);
      }
    }
  }

  // ---------------------------------------------------------------- lines that may hold a mark of their own

  /** A match of one of the entry patterns. */
  predicate HasCut(pick: Pick) { !pick.OtherLine? && |pick.m.gs| > 2 }

  /** The place of the name in the line the match was found in. */
  function NamePlace(pick: Pick): nat
    requires HasCut(pick)
  {
    var m := pick.m;
    if pick.LinuxLine? then m.start + |m.gs[0]| + |m.gs[1]| + |m.gs[2]| else m.start + |m.gs[0]|
  }

  lemma HeadSplices(line: string, head: string, pre: string, core: seq<Item>)
    requires HeadMatch(line, head, pre, core).Some?
    ensures var m := HeadMatch(line, head, pre, core).value;
            && |m.gs| == 3
            && var n := m.start + |m.gs[0]|;
               && |pre| <= n && n + |core| <= |line| && CoreAt(line, Lits(pre) + core, n - |pre|)
               && m.gs[0] == line[m.start..n] && m.gs[2] == line[n + |core|..]
  {
    LocateIsBest(line, [head], Lits(pre) + core);
  }

  lemma LinuxSplices(line: string, was: string, i: nat, k: nat)
    requires HeadAt(line, LINUX_HEADS, i, k) && CoreAt(line, LinuxCore(was), k)
    ensures var m, n := LinuxCut(line, was, i, k), k + 10;
            && m.start == i && |m.gs| == 5 && i + |m.gs[0]| + |m.gs[1]| + |m.gs[2]| == n
            && i <= n && n + |was| <= |line|
            && m.gs[0] + m.gs[1] + m.gs[2] == line[i..n] && m.gs[4] == line[n + |was|..]
  {
    LinuxParts(line, was, i, k);
  }

  /** A line without a backslash has no seam, whatever the new name is. */
  lemma NoSeamWithoutBackslash(root: string, was: string, be: string, line: string)
    requires PlainOrDot(root) && PlainOrDot(was) && NoBackslash(line)
    ensures !TitleSeam(root, was, be, line) && !SeamTakesName(root, was, be, line)
  {
    PickShape(root, was, line);
    if CfgPick(root, was, line).TitleLine? {
      HeadSplices(line, "title", "", NameItems(was));
      var m := CfgPick(root, was, line).m;
      var n := m.start + |m.gs[0]|;
      assert m.gs[0][|m.gs[0]| - 1] == line[m.start..n][n - 1 - m.start] == line[n - 1];
    }
  }

  /** `line` rewritten by a match: what stands before it is dropped, the name is exchanged. */
  predicate Spliced(pick: Pick, was: string, be: string, line: string, result: string) {
    && HasCut(pick)
    && var n := NamePlace(pick);
       pick.m.start <= n && n + |was| <= |line| && result == line[pick.m.start..n] + be + line[n + |was|..]
  }

  /** Where a linux line is cut its core stands. */
  lemma LinuxPlace(root: string, was: string, line: string)
    requires PlainOrDot(root) && PlainOrDot(was) && CfgPick(root, was, line).LinuxLine?
    ensures HasCut(CfgPick(root, was, line))
    ensures var n := NamePlace(CfgPick(root, was, line)); 10 <= n && CoreAt(line, LinuxCore(was), n - 10)
  {
    LocateIsBest(line, LINUX_HEADS, LinuxCore(was));
    var (i, k) := Locate(line, LINUX_HEADS, LinuxCore(was)).value;
    LinuxSplices(line, was, i, k);
    assert CfgPick(root, was, line) == LinuxLine(LinuxCut(line, was, i, k));
  }

  lemma LinuxIsSplice(root: string, was: string, be: string, line: string)
    requires PlainOrDot(root) && PlainOrDot(was) && CfgPick(root, was, line).LinuxLine?
    ensures Spliced(CfgPick(root, was, line), was, be, line, CfgRewrite(root, was, be, line))
  {
    LocateIsBest(line, LINUX_HEADS, LinuxCore(was));
    var (i, k) := Locate(line, LINUX_HEADS, LinuxCore(was)).value;
    LinuxSplices(line, was, i, k);
    var m := LinuxCut(line, was, i, k);
    assert CfgPick(root, was, line) == LinuxLine(m);
    assert CfgRewrite(root, was, be, line) == (m.gs[0] + m.gs[1] + m.gs[2]) + be + m.gs[4];
  }

  lemma HeadIsSplice(m: RMatch, was: string, be: string, line: string)
    requires |m.gs| == 3
    requires var n := m.start + |m.gs[0]|;
             n + |was| <= |line| && m.gs[0] == line[m.start..n] && m.gs[2] == line[n + |was|..]
    ensures Spliced(TitleLine(m), was, be, line, m.gs[0] + be + m.gs[2])
    ensures Spliced(OptionsLine(m), was, be, line, m.gs[0] + be + m.gs[2])
  {
  }

  lemma RewriteIsSplice(root: string, was: string, be: string, line: string)
    requires PlainOrDot(root) && PlainOrDot(was) && !CfgPick(root, was, line).OtherLine?
    ensures Spliced(CfgPick(root, was, line), was, be, line, CfgRewrite(root, was, be, line))
  {
    match CfgPick(root, was, line) {
      case TitleLine(m) =>
        HeadSplices(line, "title", "", NameItems(was));
        HeadIsSplice(m, was, be, line);
      case LinuxLine(m) => LinuxIsSplice(root, was, be, line);
      case OptionsLine(m) =>
        HeadSplices(line, "options", DatasetPre(root), Lits(was));
        HeadIsSplice(m, was, be, line);
    }
  }

  lemma MarkAtHeadCut(line: string, head: string, pre: string)
    requires HeadMatch(line, head, pre, Lits(MARK)).Some?
    ensures var m := HeadMatch(line, head, pre, Lits(MARK)).value; |m.gs| == 3 && At(line, MARK, m.start + |m.gs[0]|)
  {
    PreCore(pre);
    HeadSplices(line, head, pre, Lits(MARK));
    var m := HeadMatch(line, head, pre, Lits(MARK)).value;
    CoreHoldsMark(line, pre, "", m.start + |m.gs[0]| - |pre|);
  }

  /** The mark stands where a second pass cuts. */
  lemma MarkAtCut(root: string, line: string)
    requires PlainOrDot(root) && PlainOrDot(MARK) && !CfgPick(root, MARK, line).OtherLine?
    ensures HasCut(CfgPick(root, MARK, line)) && At(line, MARK, NamePlace(CfgPick(root, MARK, line)))
  {
    MarkIsPlain();
    match CfgPick(root, MARK, line) {
      case TitleLine(m) => MarkAtHeadCut(line, "title", "");
      case LinuxLine(m) =>
        LinuxPlace(root, MARK, line);
        CoreHasDash(line, NamePlace(CfgPick(root, MARK, line)) - 10);
      case OptionsLine(m) => MarkAtHeadCut(line, "options", DatasetPre(root));
    }
  }

  /** Two ways to put a name for a mark agree only if they cut at the same places. */
  lemma SpliceDecides(s: string, a: nat, i: nat, n: nat, be: string)
    requires be != "" && NoPercent(be) && At(s, MARK, a) && At(s, MARK, n) && i <= n
    ensures s[i..n] + be + s[n + 9..] == s[..a] + be + s[a + 9..] <==> i == 0 && n == a
    ensures s != s[..a] + be + s[a + 9..]
  {
    var x, y := s[i..n] + be + s[n + 9..], s[..a] + be + s[a + 9..];
    AtIndex(s, MARK, a, 0);
    AtIndex(s, MARK, n, 0);
    assert y[a] == be[0] && |x| == |y| - i;
    if i == 0 && a < n {
      assert x[a] == s[a] != y[a];
    } else if i == 0 && n < a {
      assert x[n] == be[0] != s[n] == y[n];
    } else if i == 0 {
      assert s[0..n] == s[..a];
    }
  }

  /** A mark exchanged for a name never gives back the line. */
  lemma SpliceChanges(s: string, i: nat, n: nat, be: string)
    requires be != "" && NoPercent(be) && At(s, MARK, n) && i <= n
    ensures s[i..n] + be + s[n + 9..] != s
  {
    var x, e := s[i..n] + be + s[n + 9..], n - i + |be|;
    AtIndex(s, MARK, n, 8);
    if |x| == |s| {
      assert x[e - 1] == be[|be| - 1] != s[e - 1];
    }
  }

  /** A first cut of the line `x | y`, and a second cut of the stored text at `j` and `m`. */
  lemma SecondCut(x: string, y: string, be: string, j: nat, m: nat)
    requires be != "" && NoPercent(be) && j <= m && At(x + MARK + y, MARK, m)
    ensures var stored := x + MARK + y;
            stored[j..m] + be + stored[m + 9..] == x + be + y <==> j == 0 && m == |x|
    ensures x + MARK + y != x + be + y
  {
    var stored := x + MARK + y;
    Thirds(x, MARK, y);
    SpliceDecides(stored, |x|, j, m, be);
  }

  /** For every line, with `%` or without: the round trip restores the line exactly if the second pass
      cuts where the first pass left the mark, and finds nothing where the first found nothing. */
  lemma RoundTripExactly(root: string, was: string, be: string, line: string)
    requires PlainOrDot(root) && PlainOrDot(was) && be != "" && NoPercent(be)
    ensures PlainOrDot(MARK)
    ensures var stored := CfgRewrite(root, was, MARK, line);
            var first, second := CfgPick(root, was, line), CfgPick(root, MARK, stored);
            && (first.OtherLine? || HasCut(first)) && (second.OtherLine? || HasCut(second))
            && (CfgRewrite(root, MARK, be, stored) == CfgRewrite(root, was, be, line)
                <==> if first.OtherLine? then second.OtherLine?
                     else !second.OtherLine? && second.m.start == 0 && NamePlace(second) == NamePlace(first) - first.m.start)
  {
    MarkIsPlain();
    var stored := CfgRewrite(root, was, MARK, line);
    var second := CfgPick(root, MARK, stored);
    if !second.OtherLine? {
      RewriteIsSplice(root, MARK, be, stored);
      MarkAtCut(root, stored);
    }
    if CfgPick(root, was, line).OtherLine? {
      if !second.OtherLine? { SpliceChanges(stored, second.m.start, NamePlace(second), be); }
    } else {
      RoundTripOfCut(root, was, be, line, second);
    }
  }

  lemma RoundTripOfCut(root: string, was: string, be: string, line: string, second: Pick)
    requires PlainOrDot(root) && PlainOrDot(was) && PlainOrDot(MARK) && be != "" && NoPercent(be)
    requires !CfgPick(root, was, line).OtherLine?
    requires var stored := CfgRewrite(root, was, MARK, line);
             && second == CfgPick(root, MARK, stored)
             && (!second.OtherLine? ==> && HasCut(second) && At(stored, MARK, NamePlace(second))
                                        && Spliced(second, MARK, be, stored, CfgRewrite(root, MARK, be, stored)))
    ensures HasCut(CfgPick(root, was, line))
    ensures var first := CfgPick(root, was, line);
            CfgRewrite(root, MARK, be, CfgRewrite(root, was, MARK, line)) == CfgRewrite(root, was, be, line)
            <==> !second.OtherLine? && second.m.start == 0 && NamePlace(second) == NamePlace(first) - first.m.start
  {
    RewriteIsSplice(root, was, MARK, line);
    RewriteIsSplice(root, was, be, line);
    var first, stored := CfgPick(root, was, line), CfgRewrite(root, was, MARK, line);
    var n := NamePlace(first);
    var x, y := line[first.m.start..n], line[n + |was|..];
    assert stored == x + MARK + y && CfgRewrite(root, was, be, line) == x + be + y;
    SecondRewrite(root, be, x, y, second);
  }

  /** The same for a stored text `x`, the mark, `y`. */
  lemma SecondRewrite(root: string, be: string, x: string, y: string, second: Pick)
    requires PlainOrDot(root) && PlainOrDot(MARK) && be != "" && NoPercent(be)
    requires var stored := x + MARK + y;
             && second == CfgPick(root, MARK, stored)
             && (!second.OtherLine? ==> && HasCut(second) && At(stored, MARK, NamePlace(second))
                                        && Spliced(second, MARK, be, stored, CfgRewrite(root, MARK, be, stored)))
    ensures CfgRewrite(root, MARK, be, x + MARK + y) == x + be + y
            <==> !second.OtherLine? && second.m.start == 0 && NamePlace(second) == |x|
  {
    if second.OtherLine? {
      Thirds(x, MARK, y);
      SecondCut(x, y, be, 0, |x|);
    } else {
      SecondCut(x, y, be, second.m.start, NamePlace(second));
    }
  }

  lemma OnlyAt(a: string, c: char, b: string, k: nat)
    requires c !in a && c !in b && k < |a| + 1 + |b| && (a + [c] + b)[k] == c
    ensures k == |a|
  {
  }

  lemma FirstStands(line: string, name: string, k: nat)
    requires name != "" && name[0] != '.' && CoreAt(line, NameItems(name), k)
    ensures k < |line| && line[k] == name[0]
  {
    var s := line[k..k + |name|];
    OnesMatch(NameItems(name), s);
    assert Accepts(NameItems(name)[0].atom, s[0]);
  }

  /** A title line in which the first character of the name stands once. */
  lemma OneTitle(a: string, name: string, b: string, line: string)
    requires name != "" && name[0] != '.' && "title" <= a && name[0] !in a && name[0] !in b
    requires line == a + [name[0]] + b && CoreAt(line, NameItems(name), |a|)
    ensures TitleMatch(line, name) == Some(RMatch(0, [line[..|a|], line[|a|..|a| + |name|], line[|a| + |name|..]]))
  {
    var core := Lits("") + NameItems(name);
    assert core == NameItems(name);
    assert line[0..5] == a[..5] == "title";
    assert At(line, ["title"][0], 0);
    forall k: nat | |a| < k ensures !CoreAt(line, core, k) {
      if CoreAt(line, core, k) {
        FirstStands(line, name, k);
        OnlyAt(a, name[0], b, k);
      }
    }
    LocateFinds(line, ["title"], core, 0, |a|);
  }

  /** What a seam of this digit names begins with something else than a backslash, or took no part: the
      title itself, a name that does not begin with a dot, or a tail that is there and begins otherwise. */
  predicate SeamNamesText(root: string, was: string, be: string, line: string)
    requires PlainOrDot(root) && PlainOrDot(was)
  {
    PickShape(root, was, line);
    TitleSeam(root, was, be, line) ==>
      && (be[0] == '2' ==> was != "" && was[0] != '.')
      && (be[0] == '3' ==> var tail := CfgPick(root, was, line).m.gs[2]; tail != "" && tail[0] != '\\')
  }

  lemma TitleBeginsWithName(line: string, was: string)
    requires PlainOrDot(was) && was != "" && was[0] != '.' && TitleMatch(line, was).Some?
    ensures var m := TitleMatch(line, was).value; |m.gs| == 3 && m.gs[1] != "" && m.gs[1][0] == was[0] && was[0] in line
  {
    var core := NameItems(was);
    LocateIsBest(line, ["title"], Lits("") + core);
    var (i, k) := Locate(line, ["title"], Lits("") + core).value;
    CoreSplit(line, "", core, k);
    FirstStands(line, was, k);
    assert TitleMatch(line, was).value.gs[1] == line[k..k + |was|];
  }

  /** A seam that takes in the name breaks the round trip: the mark is put in for the name, so the second
      pass gives a line of its own, or one of the two passes fails. */
  lemma CallbackRoundTripExactly(root: string, was: string, be: string, line: string)
    requires PlainOrDot(root) && PlainOrDot(was) && NoBackslash(be) && NoPercent(line)
    requires was != "" && was[0] != '.'
    ensures PlainOrDot(MARK)
    ensures var stored := CfgLine(root, was, MARK, line);
            stored.Ok? ==>
              var restored, direct := CfgLine(root, MARK, be, stored.text), CfgLine(root, was, be, line);
              restored.Ok? || direct.Ok? ==> (restored == direct <==> !SeamTakesName(root, was, be, line))
  {
    MarkIsPlain();
    if !SeamTakesName(root, was, be, line) {
      CallbackRoundTrip(root, was, be, line);
    } else if CfgLine(root, was, MARK, line).Ok? {
      StoredIsRewrite(root, was, line);
      SeamBreaksRoundTrip(root, was, be, line);
    }
  }

  lemma SeamBreaksRoundTrip(root: string, was: string, be: string, line: string)
    requires PlainOrDot(root) && PlainOrDot(was) && PlainOrDot(MARK) && NoBackslash(be) && NoPercent(line)
    requires was != "" && was[0] != '.' && SeamTakesName(root, was, be, line) && CfgForms(root, was, MARK)
    ensures var restored, direct := CfgLine(root, MARK, be, CfgRewrite(root, was, MARK, line)), CfgLine(root, was, be, line);
            restored.Ok? || direct.Ok? ==> restored != direct
  {
    var stored := CfgRewrite(root, was, MARK, line);
    var m, m' := TitleGroups(root, was, line);
    SameForms(root, was, be);
    TitleLineText(root, was, be, line);
    TitleLineText(root, MARK, be, stored);
    TitleBeginsWithName(line, was);
    TextsAt(m, line);
    FillInsDiffer(m.gs[0], be, GroupTexts(m, line), GroupTexts(m', stored), MAX_PATH_LEN);
  }

  /** Then every seam does harm: the callback computes the rewriting exactly if everything fits and there
      is no seam. */
  lemma SeamDamages(root: string, was: string, be: string, line: string)
    requires PlainOrDot(root) && PlainOrDot(was) && NoBackslash(be) && SeamNamesText(root, was, be, line)
    ensures CfgLine(root, was, be, line) == Ok(CfgRewrite(root, was, be, line))
            <==> CfgForms(root, was, be) && CfgFits(root, was, be, line) && !TitleSeam(root, was, be, line)
  {
    if TitleSeam(root, was, be, line) {
      PickShape(root, was, line);
      var m := CfgPick(root, was, line).m;
      TextsAt(m, line);
      HeadShape(line, "title", "", NameItems(was));
      if be[0] == '2' { TitleBeginsWithName(line, was); }
      assert PlainSeam(m, line, be);
    }
    CfgLineExactly(root, was, be, line);
  }

  lemma SeamTitle(line: string)
    requires line == "title \\old"
    ensures TitleMatch(line, "old") == Some(RMatch(0, ["title \\", "old", ""]))
  {
    OnesMatch(NameItems("old"), line[7..10]);
    assert line == "title \\" + ['o'] + "ld";
    OneTitle("title \\", "old", "ld", line);
    assert line[..7] == "title \\" && line[7..10] == "old" && line[10..] == "";
  }

  lemma SeamTexts(m: RMatch, line: string)
    requires line == "title \\old" && m == RMatch(0, ["title \\", "old", ""])
    ensures m.start + Total(m.gs) == |line| && GroupTexts(m, line) == SEAM_GROUPS
  {
    assert Total(m.gs) == |m.gs[0]| + (|m.gs[1]| + (|m.gs[2]| + 0)) by {
      assert m.gs[1..][1..][1..] == [];
    }
    assert line[0..10] == line;
  }

  /** A line that a seam damages: `title \old` in the entry of BE `old`, filled in for a BE named `2x`. */
  lemma SeamBreaksLine(root: string, line: string)
    requires PlainOrDot(root) && CfgForms(root, "old", "2x") && line == "title \\old"
    ensures PlainOrDot("old") && TitleSeam(root, "old", "2x", line)
    ensures CfgLine(root, "old", "2x", line) == Ok("title oldx") && CfgRewrite(root, "old", "2x", line) == "title \\2x"
  {
    SeamTitle(line);
    PickShape(root, "old", line);
    var m := CfgPick(root, "old", line).m;
    SeamTexts(m, line);
    assert TemplateTwo("2x") == "\\12x\\3";
    SeamBreaksExpansion();
    assert "title \\" + "2x" + "" == "title \\2x";
  }

  /** The first pass on a title that holds the mark behind the name. */
  lemma StrayTitle(line: string)
    requires line == "title x %ZECTLBE%"
    ensures TitleMatch(line, "x") == Some(RMatch(0, [line[..6], line[6..7], line[7..]]))
  {
    OnesMatch(NameItems("x"), line[6..7]);
    assert line == "title " + ['x'] + " %ZECTLBE%";
    OneTitle("title ", "x", " %ZECTLBE%", line);
  }

  /** A line that holds the mark already is not restored: `title x %ZECTLBE%`, taken from BE `x`. */
  lemma StrayMarkBreaksRoundTrip(root: string, line: string)
    requires PlainOrDot(root) && line == "title x %ZECTLBE%"
    ensures PlainOrDot(MARK) && PlainOrDot("x")
    ensures CfgRewrite(root, MARK, "new", CfgRewrite(root, "x", MARK, line)) != CfgRewrite(root, "x", "new", line)
  {
    MarkIsPlain();
    StrayTitle(line);
    var x := line[..6];
    var stored, a := CfgRewrite(root, "x", MARK, line), x + MARK + " ";
    assert line[7..] == " " + MARK;
    assert stored == x + MARK + line[7..];
    assert x + MARK + (" " + MARK) == a + MARK + "";
    TitleInFront(x, MARK + " ");
    HeadRematches("title", "", a, "");
    RoundTripExactly(root, "x", "new", line);
  }

  lemma TitleInFront(x: string, y: string)
    requires |x| >= 5 && x[..5] == "title"
    ensures "title" <= x + y && (x + y)[|x + y|..] == ""
  {
    assert (x + y)[..5] == x[..5];
  }
}
