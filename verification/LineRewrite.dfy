/** The three line callbacks of the plugin: boot entries, fstab and loader.conf. */
module LineRewrite {
  import opened CString
  import opened ReplaceString
  import opened GroupExpansion
  import opened Bre
  import opened BootPatterns
  import opened BootMatches

  const REGEX_BUFLEN: nat := 512

  // ---------------------------------------------------------------- the offsets regexec hands out

  function Offsets(start: nat, gs: seq<string>): (r: seq<Span>)
    ensures |r| == |gs|
    decreases |gs|
  {
    if gs == [] then [] else [Span(start, start + |gs[0]|)] + Offsets(start + |gs[0]|, gs[1..])
  }

  /** The ten slots: the whole match, the groups, and (-1, -1) for the groups the pattern does not have. */
  function PMatch(m: RMatch): (r: seq<Span>)
    requires |m.gs| < MAX_GROUPS
    ensures |r| == MAX_GROUPS
  {
    var offsets := Offsets(m.start, m.gs);
    seq(MAX_GROUPS, i requires 0 <= i < MAX_GROUPS =>
      if i == 0 then Span(m.start, m.start + Total(m.gs))
      else if i <= |m.gs| then offsets[i - 1]
      else Span(-1, -1))
  }

  /** The texts behind the offsets. */
  function GroupTexts(m: RMatch, line: string): (r: seq<Option<string>>)
    requires |m.gs| < MAX_GROUPS && m.start + Total(m.gs) <= |line|
    ensures |r| == MAX_GROUPS
  {
    seq(MAX_GROUPS, i requires 0 <= i < MAX_GROUPS =>
      if i == 0 then Some(line[m.start..m.start + Total(m.gs)])
      else if i <= |m.gs| then Some(m.gs[i - 1])
      else None)
  }

  lemma {:induction false} LaidFits(line: string, start: nat, gs: seq<string>)
    requires start <= |line| && Laid(line, start, gs)
    ensures start + Total(gs) <= |line|
    decreases |gs|
  {
    if gs != [] {
      LaidFits(line, start + |gs[0]|, gs[1..]);
    }
  }

  lemma {:induction false} OffsetsCut(line: string, start: nat, gs: seq<string>, i: nat)
    requires start <= |line| && Laid(line, start, gs) && i < |gs|
    ensures var s := Offsets(start, gs)[i]; 0 <= s.so <= s.eo <= |line| && line[s.so..s.eo] == gs[i]
    decreases |gs|
  {
    if i > 0 {
      OffsetsCut(line, start + |gs[0]|, gs[1..], i - 1);
    }
  }

  lemma SlotText(m: RMatch, line: string, i: nat)
    requires |m.gs| < MAX_GROUPS && m.start <= |line| && Laid(line, m.start, m.gs) && i < MAX_GROUPS
    ensures m.start + Total(m.gs) <= |line|
    ensures var p := PMatch(m)[i];
            && (p == Span(-1, -1) || 0 <= p.so <= p.eo <= |line|)
            && GroupTexts(m, line)[i] == if p.so < 0 then None else Some(line[p.so..p.eo])
  {
    LaidFits(line, m.start, m.gs);
    var p := PMatch(m)[i];
    if i == 0 {
      assert p == Span(m.start, m.start + Total(m.gs));
    } else if i <= |m.gs| {
      OffsetsCut(line, m.start, m.gs, i - 1);
      assert p == Offsets(m.start, m.gs)[i - 1];
    } else {
      assert p == Span(-1, -1);
    }
  }

  lemma PMatchTexts(m: RMatch, line: string)
    requires |m.gs| < MAX_GROUPS && m.start <= |line| && Laid(line, m.start, m.gs)
    ensures m.start + Total(m.gs) <= |line|
    ensures ValidMatch(PMatch(m), line) && Groups(PMatch(m), line) == GroupTexts(m, line)
  {
    LaidFits(line, m.start, m.gs);
    var p, texts := PMatch(m), GroupTexts(m, line);
    forall i | 0 <= i < MAX_GROUPS
      ensures p[i] == Span(-1, -1) || 0 <= p[i].so <= p[i].eo <= |line|
      ensures texts[i] == if p[i].so < 0 then None else Some(line[p[i].so..p[i].eo])
    {
      SlotText(m, line, i);
    }
    assert ValidMatch(p, line);
  }

  // ---------------------------------------------------------------- templates

  function TemplateTwo(be: string): string { "\\1" + (be + "\\3") }
  function TemplateFour(be: string): string { "\\1" + ("\\2" + ("\\3" + (be + "\\5"))) }
  function TemplateFstab(be: string): string { "\\1" + (be + "    " + "\\3") }
  function TemplateLoader(be: string): string { "\\1" + (NAMESPACE + "-" + be + ".conf\n" + "") }

  predicate NoBackslash(s: string) { forall i :: 0 <= i < |s| ==> s[i] != '\\' }

  /** Literal text in a template is copied. */
  lemma {:induction false} LiteralInTemplate(done: string, n: nat, lit: string, rest: string, gs: seq<Option<string>>, size: nat)
    requires |gs| == MAX_GROUPS && NoBackslash(lit)
    ensures Expand(lit + rest, gs) == lit + Expand(rest, gs)
    ensures AllTookPart(lit + rest, gs) == AllTookPart(rest, gs)
    ensures AllFit(n, lit + rest, gs, size) == AllFit(n + |lit|, rest, gs, size)
    ensures Seamless(done, lit + rest, gs) == Seamless(done + lit, rest, gs)
    decreases |lit|
  {
    if lit == "" {
      assert lit + rest == rest && done + lit == done;
    } else {
      var t := lit + rest;
      assert t[..1] == lit[..1] && t[1..] == lit[1..] + rest;
      LiteralInTemplate(done + lit[..1], n + 1, lit[1..], rest, gs, size);
      assert done + lit[..1] + lit[1..] == done + lit;
      assert lit[..1] + (lit[1..] + Expand(rest, gs)) == lit + Expand(rest, gs);
    }
  }

  /** A reference at the front of a template. */
  lemma RefInTemplate(done: string, n: nat, digit: char, rest: string, gs: seq<Option<string>>, size: nat)
    requires |gs| == MAX_GROUPS && IsGroupDigit(digit) && gs[GroupIndex(digit)].Some?
    ensures var t, text := ['\\', digit] + rest, gs[GroupIndex(digit)].value;
            && Expand(t, gs) == text + Expand(rest, gs)
            && AllTookPart(t, gs) == AllTookPart(rest, gs)
            && AllFit(n, t, gs, size) == (n + |text| + |rest| < size && AllFit(n + |text|, rest, gs, size))
            && Seamless(done, t, gs) == (&& done + text != ""
                                         && !(var now := done + text;
                                              now[|now| - 1] == '\\' && rest != "" && IsGroupDigit(rest[0]))
                                         && Seamless(done + text, rest, gs))
  {
    var t := ['\\', digit] + rest;
    assert t[2..] == rest && IsRefAt(t, 0);
  }

  /** `\1 LIT`: the loader template. */
  lemma TemplateOne(lit: string, gs: seq<Option<string>>, size: nat)
    requires |gs| == MAX_GROUPS && NoBackslash(lit) && gs[1].Some? && gs[1].value != ""
    ensures var t, a := "\\1" + (lit + ""), gs[1].value;
            && Expand(t, gs) == a + lit
            && AllTookPart(t, gs)
            && (AllFit(0, t, gs, size) <==> |a| + |lit| < size)
            && (Seamless("", t, gs) <==> !(a[|a| - 1] == '\\' && lit != "" && IsGroupDigit(lit[0])))
  {
    var a := gs[1].value;
    RefInTemplate("", 0, '1', lit + "", gs, size);
    LiteralInTemplate("" + a, |a|, lit, "", gs, size);
    assert ['\\', '1'] + (lit + "") == "\\1" + (lit + "");
    assert "" + a == a && lit + "" == lit;
  }

  lemma TemplateLinux(be: string, gs: seq<Option<string>>, size: nat)
    requires |gs| == MAX_GROUPS && NoBackslash(be) && gs[1].Some? && gs[2].Some? && gs[3].Some? && gs[5].Some?
    requires gs[1].value != "" && gs[3].value != "" && gs[3].value[|gs[3].value| - 1] != '\\'
    ensures var t, a, b, c, e := TemplateFour(be), gs[1].value, gs[2].value, gs[3].value, gs[5].value;
            && Expand(t, gs) == a + b + c + be + e
            && AllTookPart(t, gs)
            && Seamless("", t, gs)
            && (AllFit(0, t, gs, size) <==>
                  && |a| + |be| + 6 < size && |a| + |b| + |be| + 4 < size
                  && |a| + |b| + |c| + |be| + 2 < size && |a| + |b| + |c| + |be| + |e| < size)
  {
    var a, b, c, e := gs[1].value, gs[2].value, gs[3].value, gs[5].value;
    var t3 := be + "\\5";
    var t2 := "\\3" + t3;
    var t1 := "\\2" + t2;
    RefInTemplate("", 0, '1', t1, gs, size);
    RefInTemplate("" + a, |a|, '2', t2, gs, size);
    RefInTemplate("" + a + b, |a| + |b|, '3', t3, gs, size);
    LiteralInTemplate("" + a + b + c, |a| + |b| + |c|, be, "\\5", gs, size);
    RefInTemplate("" + a + b + c + be, |a| + |b| + |c| + |be|, '5', "", gs, size);
    assert ['\\', '1'] + t1 == TemplateFour(be) && ['\\', '2'] + t2 == t1 && ['\\', '3'] + t3 == t2 && ['\\', '5'] + "" == "\\5";
    assert a + (b + (c + (be + (e + "")))) == a + b + c + be + e;
  }

  // ---------------------------------------------------------------- substitution into a matched line

  datatype LineResult = Ok(text: string) | Fail(status: Status)

  /** The scan can only run off the front of the buffer past a backslash. */
  lemma {:induction false} FrontHolds(text: string, pos: nat, gs: seq<Option<string>>, size: nat)
    requires pos <= |text| && |gs| == MAX_GROUPS && text != "" && text[0] != '\\'
    ensures !Scan(text, pos, gs, size).Underflow?
    decreases |text| - pos
  {
    if pos < |text| {
      if !IsRefAt(text, pos) {
        FrontHolds(text, pos + 1, gs, size);
      } else if gs[GroupIndex(text[pos + 1])].Some? {
        var group := gs[GroupIndex(text[pos + 1])].value;
        FrontHolds(SplicedAt(text, pos, group), pos + |group| - 1, gs, size);
      }
    }
  }

  /** What makes the matches of the five patterns safe to substitute into. */
  predicate Solid(m: RMatch, line: string) {
    && 0 < |m.gs| < MAX_GROUPS
    && m.start <= |line| && Laid(line, m.start, m.gs)
    && m.gs[0] != "" && m.gs[0][0] != '\\'
  }

  lemma TextsAt(m: RMatch, line: string)
    requires Solid(m, line)
    ensures m.start + Total(m.gs) <= |line|
    ensures forall i :: 1 <= i <= |m.gs| ==> GroupTexts(m, line)[i] == Some(m.gs[i - 1])
    ensures forall i :: |m.gs| < i < MAX_GROUPS ==> GroupTexts(m, line)[i] == None
  {
    LaidFits(line, m.start, m.gs);
  }

  lemma NoUnderflow(template: string, m: RMatch, line: string)
    requires Solid(m, line) && IsRefAt(template, 0) && template[1] == '1'
    ensures m.start + Total(m.gs) <= |line|
    ensures !Scan(template, 0, GroupTexts(m, line), MAX_PATH_LEN).Underflow?
  {
    TextsAt(m, line);
    var a := m.gs[0];
    FrontHolds(SplicedAt(template, 0, a), |a| - 1, GroupTexts(m, line), MAX_PATH_LEN);
  }

  function ResultOf(outcome: Outcome): LineResult
    requires !outcome.Underflow?
  {
    match outcome
    case Done(text) => Ok(text)
    case NoGroup(_) => Fail(Unknown)
    case TooLong(_) => Fail(MaxPathLen)
  }

  /** `libze_util_regex_subexpr_replace` on a line that matched. */
  function Substitute(template: string, m: RMatch, line: string): LineResult
    requires Solid(m, line) && IsRefAt(template, 0) && template[1] == '1'
  {
    NoUnderflow(template, m, line);
    ResultOf(Scan(template, 0, GroupTexts(m, line), MAX_PATH_LEN))
  }

  function Copied255(line: string): LineResult {
    if |line| >= MAX_PATH_LEN then Fail(MaxPathLen) else Ok(line)
  }

  // ---------------------------------------------------------------- boot entry lines

  datatype Pick = TitleLine(m: RMatch) | LinuxLine(m: RMatch) | OptionsLine(m: RMatch) | OtherLine

  /** The patterns are tried in this order; the first that matches decides. */
  function CfgPick(root: string, was: string, line: string): Pick
    requires PlainOrDot(root) && PlainOrDot(was)
  {
    match TitleMatch(line, was)
    case Some(m) => TitleLine(m)
    case None => match LinuxMatch(line, was)
      case Some(m) => LinuxLine(m)
      case None => match OptionsMatch(line, root, was)
        case Some(m) => OptionsLine(m)
        case None => OtherLine
  }

  /** The shape of the match behind each kind of line. */
  lemma PickShape(root: string, was: string, line: string)
    requires PlainOrDot(root) && PlainOrDot(was)
    ensures match CfgPick(root, was, line)
      case TitleLine(m) => |m.gs| == 3 && Solid(m, line)
      case LinuxLine(m) => |m.gs| == 5 && Solid(m, line) && m.gs[2] == NAMESPACE + "-"
      case OptionsLine(m) => |m.gs| == 3 && Solid(m, line) && m.gs[0][|m.gs[0]| - 1] == '/'
      case OtherLine => true
  {
    match CfgPick(root, was, line) {
      case TitleLine(m) =>
        HeadShape(line, "title", "", NameItems(was));
      case LinuxLine(m) =>
        LinuxShape(line, was);
      case OptionsLine(m) =>
        HeadShape(line, "options", DatasetPre(root), Lits(was));
      case OtherLine =>
    }
  }

  lemma HeadShape(line: string, head: string, pre: string, core: seq<Item>)
    requires AllOnes(core) && head != "" && head[0] != '\\'
    ensures var r := HeadMatch(line, head, pre, core);
            r.Some? ==> |r.value.gs| == 3 && Solid(r.value, line) && |head| + |pre| <= |r.value.gs[0]|
                        && head <= r.value.gs[0] && r.value.gs[0][|r.value.gs[0]| - |pre|..] == pre
  {
    var r := HeadMatch(line, head, pre, core);
    if r.Some? {
      HeadReported(line, head, pre, core);
      LocateIsBest(line, [head], Lits(pre) + core);
      var (i, k) := Locate(line, [head], Lits(pre) + core).value;
      CoreSplit(line, pre, core, k);
      var g := r.value.gs[0];
      assert g[..|head|] == line[i..i + |head|] == head;
      assert g[|g| - |pre|..] == line[k..k + |pre|];
    }
  }

  lemma LinuxShape(line: string, be: string)
    ensures var r := LinuxMatch(line, be);
            r.Some? ==> |r.value.gs| == 5 && Solid(r.value, line) && r.value.gs[2] == NAMESPACE + "-"
                        && r.value.gs[3] == be && r.value.gs[4] != ""
  {
    if LinuxMatch(line, be).Some? {
      LocateIsBest(line, LINUX_HEADS, LinuxCore(be));
      var (i, k) := Locate(line, LINUX_HEADS, LinuxCore(be)).value;
      LinuxFound(line, be, i, k);
    }
  }

  /** The pick in terms of the patterns alone: the first of them, in their order, for which `regexec` reports a
      match, with that match. */
  lemma PickIsReported(root: string, was: string, line: string)
    requires PlainOrDot(root) && PlainOrDot(was)
    ensures TitlePattern(was).Some? && LinuxPattern(was).Some? && OptionsPattern(root, was).Some?
    ensures var t, l, o := TitlePattern(was).value, LinuxPattern(was).value, OptionsPattern(root, was).value;
      match CfgPick(root, was, line)
      case TitleLine(m) => Reported(t, line, Some(m))
      case LinuxLine(m) => Reported(t, line, None) && Reported(l, line, Some(m))
      case OptionsLine(m) => Reported(t, line, None) && Reported(l, line, None) && Reported(o, line, Some(m))
      case OtherLine => Reported(t, line, None) && Reported(l, line, None) && Reported(o, line, None)
  {
    RegexecTitle(line, was);
    RegexecLinux(line, was);
    RegexecOptions(line, root, was);
  }

  /** The name is exchanged; what stands before the match is lost. */
  function CfgRewrite(root: string, was: string, be: string, line: string): string
    requires PlainOrDot(root) && PlainOrDot(was)
  {
    PickShape(root, was, line);
    match CfgPick(root, was, line)
    case TitleLine(m) => m.gs[0] + be + m.gs[2]
    case LinuxLine(m) => m.gs[0] + m.gs[1] + m.gs[2] + be + m.gs[4]
    case OptionsLine(m) => m.gs[0] + be + m.gs[2]
    case OtherLine => line
  }

  /** The rewriting in terms of the patterns alone: groups put together around the new name. */
  lemma RewriteByPatterns(root: string, was: string, be: string, line: string, m: RMatch)
    requires PlainOrDot(root) && PlainOrDot(was)
    ensures TitlePattern(was).Some? && LinuxPattern(was).Some? && OptionsPattern(root, was).Some?
    ensures var t, l, o := TitlePattern(was).value, LinuxPattern(was).value, OptionsPattern(root, was).value;
      var text := CfgRewrite(root, was, be, line);
      && (Reported(t, line, Some(m)) ==> |m.gs| == 3 && text == m.gs[0] + be + m.gs[2])
      && (Reported(t, line, None) && Reported(l, line, Some(m)) ==>
            |m.gs| == 5 && text == m.gs[0] + m.gs[1] + m.gs[2] + be + m.gs[4])
      && (Reported(t, line, None) && Reported(l, line, None) && Reported(o, line, Some(m)) ==>
            |m.gs| == 3 && text == m.gs[0] + be + m.gs[2])
      && (Reported(t, line, None) && Reported(l, line, None) && Reported(o, line, None) ==> text == line)
  {
    RegexecTitle(line, was);
    RegexecLinux(line, was);
    RegexecOptions(line, root, was);
    PickShape(root, was, line);
    var t, l, o := TitlePattern(was).value, LinuxPattern(was).value, OptionsPattern(root, was).value;
    OneReport(t, line, TitleMatch(line, was), m);
    OneReport(l, line, LinuxMatch(line, was), m);
    OneReport(o, line, OptionsMatch(line, root, was), m);
  }

  lemma OneReport(p: Pattern, line: string, r: Option<RMatch>, m: RMatch)
    requires Reported(p, line, r)
    ensures Reported(p, line, Some(m)) <==> r == Some(m)
    ensures Reported(p, line, None) <==> r == None
  {
    if Reported(p, line, Some(m)) { ReportedIsUnique(p, line, r, Some(m)); }
    if Reported(p, line, None) { ReportedIsUnique(p, line, r, None); }
  }

  /** The text so far ends in a backslash, which takes the digit at the front of `be` for its own. */
  predicate Swallows(done: string, be: string) {
    done != "" && done[|done| - 1] == '\\' && be != "" && IsGroupDigit(be[0])
  }

  /** The only line that can be damaged: text before a title's name ends in a backslash and the new
      name starts with a digit from 1 to 9. */
  predicate TitleSeam(root: string, was: string, be: string, line: string)
    requires PlainOrDot(root) && PlainOrDot(was)
  {
    PickShape(root, was, line);
    match CfgPick(root, was, line)
    case TitleLine(m) => Swallows(m.gs[0], be)
    case _ => false
  }

  /** The expressions fit their buffers. */
  predicate CfgExpressions(root: string, was: string) {
    && |Escape(was)| < MAX_DATASET_LEN
    && |Escape(root)| < MAX_DATASET_LEN
    && 28 + |Escape(root)| + |Escape(was)| < REGEX_BUFLEN
  }

  /** The expressions and templates fit their buffers. */
  predicate CfgForms(root: string, was: string, be: string) {
    CfgExpressions(root, was) && |be| + 8 < MAX_PATH_LEN
  }

  predicate Shaped(pick: Pick) {
    match pick
    case TitleLine(m) => |m.gs| == 3
    case LinuxLine(m) => |m.gs| == 5
    case OptionsLine(m) => |m.gs| == 3
    case OtherLine => true
  }

  /** Every intermediate line fits the line buffer, the name put into a line of `n` characters. */
  predicate PickFits(pick: Pick, be: string, n: nat)
    requires Shaped(pick)
  {
    var room := MAX_PATH_LEN - |be|;
    match pick
    case TitleLine(m) => |m.gs[0]| + 2 < room && |m.gs[0]| + |m.gs[2]| < room
    case LinuxLine(m) =>
      && |m.gs[0]| + 6 < room && |m.gs[0]| + |m.gs[1]| + 4 < room
      && |m.gs[0]| + |m.gs[1]| + 12 < room && |m.gs[0]| + |m.gs[1]| + 10 + |m.gs[4]| < room
    case OptionsLine(m) => |m.gs[0]| + 2 < room && |m.gs[0]| + |m.gs[2]| < room
    case OtherLine => n < MAX_PATH_LEN
  }

  predicate CfgFits(root: string, was: string, be: string, line: string)
    requires PlainOrDot(root) && PlainOrDot(was)
  {
    PickShape(root, was, line);
    PickFits(CfgPick(root, was, line), be, |line|)
  }

  /** `get_cfg_line_from_regex`, with its error results in order. */
  function CfgLine(root: string, was: string, be: string, line: string): LineResult
    requires PlainOrDot(root) && PlainOrDot(was)
  {
    PickShape(root, was, line);
    if |Escape(was)| >= MAX_DATASET_LEN then Fail(MaxPathLen)
    else if |Escape(root)| >= MAX_DATASET_LEN then Fail(MaxPathLen)
    else if 28 + |Escape(root)| + |Escape(was)| >= REGEX_BUFLEN then Fail(MaxPathLen)
    else if |be| + 8 >= MAX_PATH_LEN then Fail(ConcatFailed)
    else match CfgPick(root, was, line)
      case TitleLine(m) => Substitute(TemplateTwo(be), m, line)
      case LinuxLine(m) => Substitute(TemplateFour(be), m, line)
      case OptionsLine(m) => Substitute(TemplateTwo(be), m, line)
      case OtherLine => Copied255(line)
  }

  /** What `\1 NAME \3` becomes, seam or not: `done` is put in, `be` and the third group are to come. A
      backslash at the end of `done` and a digit at the front of `be` make a reference. */
  function FillIn(done: string, be: string, gs: seq<Option<string>>, size: nat): LineResult
    requires |gs| == MAX_GROUPS && gs[3].Some?
    decreases |be|
  {
    if |done| + |be| + 2 >= size then Fail(MaxPathLen)
    else if Swallows(done, be) then
      match gs[GroupIndex(be[0])]
      case None => Fail(Unknown)
      case Some(text) => FillIn(done[..|done| - 1] + text, be[1..], gs, size)
    else if |done| + |be| + |gs[3].value| >= size then Fail(MaxPathLen)
    else Ok(done + be + gs[3].value)
  }

  /** No seam any more: the rest is a single pass. */
  lemma ScanRest(done: string, be: string, gs: seq<Option<string>>, size: nat)
    requires |gs| == MAX_GROUPS && gs[3].Some? && NoBackslash(be)
    requires done != "" && |done| + |be| + 2 < size && !Swallows(done, be)
    ensures var r := Scan(done + (be + "\\3"), |done| - 1, gs, size);
            !r.Underflow? && ResultOf(r) == FillIn(done, be, gs, size)
  {
    var t, text, c := be + "\\3", done + (be + "\\3"), gs[3].value;
    assert text[|done| - 1] == done[|done| - 1] && text[|done|] == t[0];
    assert !IsRefAt(text, |done| - 1);
    LiteralInTemplate(done, |done|, be, "\\3", gs, size);
    RefInTemplate(done + be, |done| + |be|, '3', "", gs, size);
    assert ['\\', '3'] + "" == "\\3" && c + "" == c;
    InPlaceIsSinglePass(done, t, gs, size);
    assert done + (be + c) == done + be + c;
  }

  /** The scan, from the last character put in. */
  lemma {:induction false} ScanFillIn(done: string, be: string, gs: seq<Option<string>>, size: nat)
    requires |gs| == MAX_GROUPS && gs[3].Some? && NoBackslash(be)
    requires done != "" && done[0] != '\\' && |done| + |be| + 2 < size
    ensures var r := Scan(done + (be + "\\3"), |done| - 1, gs, size);
            !r.Underflow? && ResultOf(r) == FillIn(done, be, gs, size)
    decreases |be|
  {
    if Swallows(done, be) {
      var text, pos := done + (be + "\\3"), |done| - 1;
      assert IsRefAt(text, pos) && text[pos + 1] == be[0];
      var group := gs[GroupIndex(be[0])];
      if group.Some? {
        var next, rest := done[..pos] + group.value, be[1..];
        assert text[..pos] == done[..pos] && text[pos + 2..] == rest + "\\3";
        assert SplicedAt(text, pos, group.value) == next + (rest + "\\3");
        if |next| + |rest| + 2 < size {
          assert next[0] == done[0];
          ScanFillIn(next, rest, gs, size);
        }
      }
    } else {
      ScanRest(done, be, gs, size);
    }
  }

  /** The result of this substitution, for every name without a backslash. */
  lemma SubstituteOneThree(m: RMatch, line: string, be: string)
    requires Solid(m, line) && |m.gs| == 3 && NoBackslash(be)
    ensures m.start + Total(m.gs) <= |line| && GroupTexts(m, line)[3].Some?
    ensures Substitute(TemplateTwo(be), m, line) == FillIn(m.gs[0], be, GroupTexts(m, line), MAX_PATH_LEN)
  {
    TextsAt(m, line);
    var gs, a, t := GroupTexts(m, line), m.gs[0], TemplateTwo(be);
    assert IsRefAt(t, 0) && gs[GroupIndex(t[1])] == Some(a);
    assert SplicedAt(t, 0, a) == a + (be + "\\3");
    if |a| + |be| + 2 < MAX_PATH_LEN {
      ScanFillIn(a, be, gs, MAX_PATH_LEN);
    }
  }

  lemma SubstituteTwo(m: RMatch, line: string, be: string)
    requires Solid(m, line) && |m.gs| == 3 && NoBackslash(be) && !Swallows(m.gs[0], be)
    ensures Substitute(TemplateTwo(be), m, line)
            == if |m.gs[0]| + |be| + 2 < MAX_PATH_LEN && |m.gs[0]| + |be| + |m.gs[2]| < MAX_PATH_LEN
               then Ok(m.gs[0] + be + m.gs[2]) else Fail(MaxPathLen)
  {
    TextsAt(m, line);
    SubstituteOneThree(m, line, be);
  }

  lemma SubstituteFour(m: RMatch, line: string, be: string)
    requires Solid(m, line) && |m.gs| == 5 && m.gs[2] == NAMESPACE + "-" && NoBackslash(be)
    ensures Substitute(TemplateFour(be), m, line)
            == var (n, a, b, e) := (MAX_PATH_LEN - |be|, |m.gs[0]|, |m.gs[1]|, |m.gs[4]|);
               if a + 6 < n && a + b + 4 < n && a + b + 12 < n && a + b + 10 + e < n
               then Ok(m.gs[0] + m.gs[1] + m.gs[2] + be + m.gs[4]) else Fail(MaxPathLen)
  {
    TextsAt(m, line);
    var gs, t := GroupTexts(m, line), TemplateFour(be);
    TemplateLinux(be, gs, MAX_PATH_LEN);
    InPlaceIsSinglePass("", t, gs, MAX_PATH_LEN);
    assert "" + t == t && "" + Expand(t, gs) == Expand(t, gs);
  }

  /** Away from a seam the callback computes the rewriting when everything fits, and fails otherwise. */
  lemma CfgLineIsRewrite(root: string, was: string, be: string, line: string)
    requires PlainOrDot(root) && PlainOrDot(was) && NoBackslash(be)
    requires !TitleSeam(root, was, be, line)
    ensures CfgLine(root, was, be, line)
            == if CfgForms(root, was, be) && CfgFits(root, was, be, line) then Ok(CfgRewrite(root, was, be, line))
               else if CfgExpressions(root, was) && !CfgForms(root, was, be) then Fail(ConcatFailed)
               else Fail(MaxPathLen)
  {
    PickShape(root, was, line);
    match CfgPick(root, was, line) {
      case TitleLine(m) => SubstituteTwo(m, line, be);
      case LinuxLine(m) => SubstituteFour(m, line, be);
      case OptionsLine(m) => SubstituteTwo(m, line, be);
      case OtherLine =>
    }
  }

  // ---------------------------------------------------------------- title lines with a seam

  /** Anything but a backslash stays once it is put in. */
  lemma {:induction false} FillInKeeps(done: string, be: string, gs: seq<Option<string>>, size: nat, k: nat)
    requires |gs| == MAX_GROUPS && gs[3].Some? && k < |done| && done[k] != '\\'
    ensures var r := FillIn(done, be, gs, size); r.Ok? ==> k < |r.text| && r.text[k] == done[k]
    decreases |be|
  {
    if |done| + |be| + 2 < size && Swallows(done, be) && gs[GroupIndex(be[0])].Some? {
      FillInKeeps(done[..|done| - 1] + gs[GroupIndex(be[0])].value, be[1..], gs, size, k);
    }
  }

  /** The text of the group that a seam names. */
  function SeamGroup(m: RMatch, line: string, be: string): Option<string>
    requires Solid(m, line) && be != "" && IsGroupDigit(be[0])
  {
    TextsAt(m, line);
    GroupTexts(m, line)[GroupIndex(be[0])]
  }

  /** It is plain to see what a seam does: its group has no text, or a text that does not begin with a
      backslash, or one that does not end in a backslash that swallows once more. */
  predicate PlainSeam(m: RMatch, line: string, be: string)
    requires Solid(m, line) && Swallows(m.gs[0], be)
  {
    match SeamGroup(m, line, be)
    case None => true
    case Some(g) => (g != "" && g[0] != '\\') || !Swallows(m.gs[0][..|m.gs[0]| - 1] + g, be[1..])
  }

  /** One digit swallowed: the line is the rewriting exactly if nothing changed. */
  lemma SwallowedOnce(a: string, be: string, gs: seq<Option<string>>, size: nat, g: string)
    requires |gs| == MAX_GROUPS && gs[3].Some? && Swallows(a, be) && gs[GroupIndex(be[0])] == Some(g)
    requires (g != "" && g[0] != '\\') || !Swallows(a[..|a| - 1] + g, be[1..])
    ensures var c := gs[3].value;
            FillIn(a, be, gs, size) == Ok(a + be + c)
            <==> g == ['\\', be[0]] && |a| + |be| + 2 < size && |a| + |be| + |c| < size
  {
    var x, r, c := a[..|a| - 1], be[1..], gs[3].value;
    assert a == x + ['\\'] && be == [be[0]] + r;
    var text := a + be + c;
    assert text[|x|] == '\\';
    if g != "" && g[0] != '\\' {
      FillInKeeps(x + g, r, gs, size, |x|);
    } else {
      assert text == x + ['\\', be[0]] + r + c;
      SameMiddle(x, g, ['\\', be[0]], r + c);
      assert x + g + r + c == x + g + (r + c) && x + ['\\', be[0]] + r + c == x + ['\\', be[0]] + (r + c);
    }
  }

  lemma SameMiddle(x: string, g: string, h: string, y: string)
    ensures x + g + y == x + h + y <==> g == h
  {
    var s, t := x + g + y, x + h + y;
    if s == t {
      assert g == s[|x|..|x| + |g|] && h == t[|x|..|x| + |h|];
    }
  }

  predicate SeamIsPlain(root: string, was: string, be: string, line: string)
    requires PlainOrDot(root) && PlainOrDot(was)
  {
    PickShape(root, was, line);
    TitleSeam(root, was, be, line) ==> PlainSeam(CfgPick(root, was, line).m, line, be)
  }

  /** There is no seam, or its group reads as the very backslash and digit it stands for. */
  predicate SeamIsHarmless(root: string, was: string, be: string, line: string)
    requires PlainOrDot(root) && PlainOrDot(was)
  {
    PickShape(root, was, line);
    TitleSeam(root, was, be, line) ==> SeamGroup(CfgPick(root, was, line).m, line, be) == Some(['\\', be[0]])
  }

  /** The callback computes the rewriting exactly if everything fits and no seam does harm. */
  lemma CfgLineExactly(root: string, was: string, be: string, line: string)
    requires PlainOrDot(root) && PlainOrDot(was) && NoBackslash(be) && SeamIsPlain(root, was, be, line)
    ensures CfgLine(root, was, be, line) == Ok(CfgRewrite(root, was, be, line))
            <==> CfgForms(root, was, be) && CfgFits(root, was, be, line) && SeamIsHarmless(root, was, be, line)
  {
    PickShape(root, was, line);
    if TitleSeam(root, was, be, line) {
      var m := CfgPick(root, was, line).m;
      SubstituteOneThree(m, line, be);
      var group := SeamGroup(m, line, be);
      if group.Some? {
        SwallowedOnce(m.gs[0], be, GroupTexts(m, line), MAX_PATH_LEN, group.value);
      }
    } else {
      CfgLineIsRewrite(root, was, be, line);
    }
  }

  // ---------------------------------------------------------------- fstab lines

  function FstabRewrite(efi: string, boot: string, be: string, line: string): string
    requires PlainOrDot(efi) && PlainOrDot(boot)
  {
    match FstabMatch(line, efi, boot)
    case None => line
    case Some(m) => m.gs[0] + be + "    " + m.gs[2]
  }

  predicate FstabForms(efi: string, boot: string, be: string) {
    && |Escape(efi)| < MAX_DATASET_LEN
    && |Escape(boot)| < MAX_DATASET_LEN
    && 44 + |Escape(efi)| + |Escape(boot)| < REGEX_BUFLEN
    && |be| + 8 < MAX_PATH_LEN
  }

  lemma FstabHeadEnds(efi: string)
    requires PlainOrDot(efi)
    ensures var head := FstabHead(efi); head != "" && head[0] != '\\' && head[|head| - 1] == '-'
  {
  }

  lemma FstabShape(efi: string, boot: string, line: string)
    requires PlainOrDot(efi)
    ensures var r := FstabMatch(line, efi, boot);
            r.Some? ==> |r.value.gs| == 3 && Solid(r.value, line) && r.value.gs[0][|r.value.gs[0]| - 1] == '-'
  {
    var r := FstabMatch(line, efi, boot);
    if r.Some? {
      FstabHeadEnds(efi);
      FstabHeadInLine(line, efi);
      LastCoreIsLast(line, Lits(boot), |line|);
      Laid3(line, 0, r.value.gs);
    }
  }

  lemma FstabHeadInLine(line: string, efi: string)
    requires At(line, FstabHead(efi), HeadStart(line, FstabHead(efi))) && PlainOrDot(efi)
    ensures var n := HeadStart(line, FstabHead(efi)) + |FstabHead(efi)|; line[0] != '\\' && line[n - 1] == '-'
  {
    var w, head := HeadStart(line, FstabHead(efi)), FstabHead(efi);
    FstabHeadEnds(efi);
    var n := w + |head|;
    AtIndex(line, head, w, |head| - 1);
    AtIndex(line, head, w, 0);
  }

  lemma FstabByPattern(efi: string, boot: string, be: string, line: string, m: RMatch)
    requires PlainOrDot(efi) && PlainOrDot(boot)
    ensures FstabPattern(efi, boot).Some?
    ensures var p, text := FstabPattern(efi, boot).value, FstabRewrite(efi, boot, be, line);
            && (Reported(p, line, Some(m)) ==> |m.gs| == 3 && text == m.gs[0] + be + "    " + m.gs[2])
            && (Reported(p, line, None) ==> text == line)
  {
    RegexecFstab(line, efi, boot);
    FstabShape(efi, boot, line);
    OneReport(FstabPattern(efi, boot).value, line, FstabMatch(line, efi, boot), m);
  }

  /** `get_fstab_line_from_regex` */
  function FstabLine(efi: string, boot: string, be: string, line: string): LineResult
    requires PlainOrDot(efi) && PlainOrDot(boot)
  {
    FstabShape(efi, boot, line);
    if !FstabForms(efi, boot, be) then Fail(MaxPathLen)
    else match FstabMatch(line, efi, boot)
      case Some(m) => Substitute(TemplateFstab(be), m, line)
      case None => Copied255(line)
  }

  lemma FstabLineIsRewrite(efi: string, boot: string, be: string, line: string)
    requires PlainOrDot(efi) && PlainOrDot(boot) && NoBackslash(be)
    ensures var r := FstabMatch(line, efi, boot);
            FstabLine(efi, boot, be, line)
            == if FstabForms(efi, boot, be)
                  && (if r.Some? then |r.value.gs[0]| + |be| + 6 < MAX_PATH_LEN
                                      && |r.value.gs[0]| + |be| + 4 + |r.value.gs[2]| < MAX_PATH_LEN
                      else |line| < MAX_PATH_LEN)
               then Ok(FstabRewrite(efi, boot, be, line)) else Fail(MaxPathLen)
  {
    FstabShape(efi, boot, line);
    var r := FstabMatch(line, efi, boot);
    if r.Some? {
      var be4, a, c := be + "    ", r.value.gs[0], r.value.gs[2];
      assert TemplateFstab(be) == TemplateTwo(be4) && a + be4 + c == a + be + "    " + c;
      SubstituteTwo(r.value, line, be4);
    }
  }

  // ---------------------------------------------------------------- loader.conf lines

  function LoaderEntry(be: string): string { NAMESPACE + "-" + be + ".conf\n" }

  function LoaderRewrite(be: string, line: string): string {
    match LoaderMatch(line)
    case None => line
    case Some(m) => m.gs[0] + LoaderEntry(be)
  }

  lemma LoaderShape(line: string)
    ensures var r := LoaderMatch(line); r.Some? ==> |r.value.gs| == 2 && Solid(r.value, line)
  {
    var r := LoaderMatch(line);
    if r.Some? {
      LoaderReported(line);
      var w := Lead(line, BLANK);
      AtIndex(line, "default", w, 0);
    }
  }

  lemma LoaderByPattern(be: string, line: string, m: RMatch)
    ensures LoaderPattern().Some?
    ensures var p, text := LoaderPattern().value, LoaderRewrite(be, line);
            && (Reported(p, line, Some(m)) ==> |m.gs| == 2 && text == m.gs[0] + "org.zectl-" + be + ".conf\n")
            && (Reported(p, line, None) ==> text == line)
  {
    RegexecLoader(line);
    LoaderShape(line);
    OneReport(LoaderPattern().value, line, LoaderMatch(line), m);
    var r := LoaderMatch(line);
    if r.Some? {
      var g := r.value.gs[0];
      assert g + (NAMESPACE + "-" + be + ".conf\n") == g + "org.zectl-" + be + ".conf\n";
    }
  }

  /** `get_loader_line_from_regex`. A name too long for the template leaves the buffer as it was, and
      reports success. */
  function LoaderLine(be: string, line: string, stale: string): LineResult {
    LoaderShape(line);
    if 18 + |be| >= MAX_PATH_LEN then Ok(stale)
    else match LoaderMatch(line)
      case Some(m) => Substitute(TemplateLoader(be), m, line)
      case None => Copied255(line)
  }

  lemma LoaderLineIsRewrite(be: string, line: string, stale: string)
    requires NoBackslash(be) && 18 + |be| < MAX_PATH_LEN
    ensures var r := LoaderMatch(line);
            LoaderLine(be, line, stale)
            == if (if r.Some? then |r.value.gs[0]| + 16 + |be| < MAX_PATH_LEN else |line| < MAX_PATH_LEN)
               then Ok(LoaderRewrite(be, line)) else Fail(MaxPathLen)
  {
    LoaderShape(line);
    var r := LoaderMatch(line);
    if r.Some? {
      var m, t := r.value, TemplateLoader(be);
      TextsAt(m, line);
      var gs := GroupTexts(m, line);
      TemplateOne(LoaderEntry(be), gs, MAX_PATH_LEN);
      InPlaceIsSinglePass("", t, gs, MAX_PATH_LEN);
      assert "" + t == t && "" + Expand(t, gs) == Expand(t, gs);
    }
  }
}
