/** The five patterns of the systemd-boot plugin, and what `regexec` reports for each of them. */
module BootPatterns {
  import opened CString
  import opened ReplaceString
  import opened Bre

  // ---------------------------------------------------------------- the patterns, as the source writes them

  /** `regcomp` for three adjacent groups. */
  function Regcomp3(atStart: bool, g1: string, g2: string, g3: string, atEnd: bool): Option<Pattern> {
    match (Parse(g1), Parse(g2), Parse(g3))
    case (Some(i1), Some(i2), Some(i3)) => Some(Pattern(atStart, [[i1], [i2], [i3]], atEnd))
    case _ => None
  }

  /** `\(title.*\)\(NAME\)\(.*\)`, the name not escaped. */
  function TitlePattern(be: string): Option<Pattern> {
    Regcomp3(false, "title.*", be, ".*", false)
  }

  /** `\(linux\|initrd\)\(.*\)\(org\.zectl-\)\(NAME\)\(/.*\)` */
  function LinuxPattern(be: string): Option<Pattern> {
    Regcomp5("linux", "initrd", ".*", Escape(NAMESPACE) + "-", Escape(be), "/.*")
  }

  /** `regcomp` for five adjacent groups, the first with two alternatives. */
  function Regcomp5(g1: string, g1': string, g2: string, g3: string, g4: string, g5: string): Option<Pattern> {
    match (Parse(g1), Parse(g1'), Parse(g2))
    case (Some(i1), Some(i1'), Some(i2)) =>
      (match (Parse(g3), Parse(g4), Parse(g5))
       case (Some(i3), Some(i4), Some(i5)) => Some(Pattern(false, [[i1, i1'], [i2], [i3], [i4], [i5]], false))
       case _ => None)
    case _ => None
  }

  /** `\(options.*zfs=ROOT/\)\(NAME\)\(.*\)` */
  function OptionsPattern(root: string, be: string): Option<Pattern> {
    Regcomp3(false, "options.*zfs=" + (Escape(root) + "/"), Escape(be), ".*", false)
  }

  /** `\(^[<tab> ]*EFI/env/org\.zectl-\)\(.*\)\([<tab> ]*BOOT.*$\)` */
  function FstabPattern(efi: string, boot: string): Option<Pattern> {
    Regcomp3(true, "[\t ]*" + (Escape(efi) + ("/env/" + (Escape(NAMESPACE) + "-"))), ".*", "[\t ]*" + (Escape(boot) + ".*"), true)
  }

  /** `\(^[<tab> ]*default[\t ]*\)\(.*\)`: the second bracket holds a backslash, a `t` and a space. */
  function LoaderPattern(): Option<Pattern> {
    match (Parse("[\t ]*" + ("default" + "[\\t ]*")), Parse(".*"))
    case (Some(i1), Some(i2)) => Some(Pattern(true, [[i1], [i2]], false))
    case _ => None
  }

  const BLANK := Class("\t ")
  const LOADER_FILL := Class("\\t ")

  // ---------------------------------------------------------------- what regcomp makes of them

  lemma ParseAnyStar()
    ensures Parse(".*") == Some([Star(Any)])
  {
    ParseStarred(".*", Any, "");
  }

  lemma ParsePlainThen(t: string, re: string)
    requires Plain(t) && Parse(re).Some? && (re != "" ==> re[0] != '*')
    ensures Parse(t + re) == Some(Lits(t) + Parse(re).value)
  {
    ParsePlain(t);
    ParseConcat(t, re);
  }

  lemma ParseEscapedThen(name: string, re: string)
    requires PlainOrDot(name) && Parse(re).Some? && (re != "" ==> re[0] != '*')
    ensures Parse(Escape(name) + re) == Some(Lits(name) + Parse(re).value)
  {
    ParseEscaped(name);
    ParseConcat(Escape(name), re);
  }

  lemma ParseBlanks()
    ensures Parse("[\t ]*") == Some([Star(BLANK)])
  {
    var re := "[\t ]*";
    assert IndexOf(re, ']') == 3;
    assert re[1..3] == "\t " && AtomLen(re) == 4;
    ParseStarred(re, BLANK, "");
  }

  lemma ParseLoaderFill()
    ensures Parse("[\\t ]*") == Some([Star(LOADER_FILL)])
  {
    var re := "[\\t ]*";
    assert IndexOf(re, ']') == 4;
    assert re[1..4] == "\\t " && AtomLen(re) == 5;
    ParseStarred(re, LOADER_FILL, "");
  }

  lemma NamespaceParses()
    ensures PlainOrDot(NAMESPACE)
    ensures Parse(Escape(NAMESPACE) + "-") == Some(Lits(NAMESPACE + "-"))
  {
    ParsePlain("-");
    ParseEscapedThen(NAMESPACE, "-");
    assert Lits(NAMESPACE) + Lits("-") == Lits(NAMESPACE + "-");
  }

  /** Three groups: a head, anything and a literal `pre`; the core; the rest of the line. */
  function HeadPattern(head: string, pre: string, core: seq<Item>): Pattern {
    Pattern(false, [[Lits(head) + ([Star(Any)] + Lits(pre))], [core], [[Star(Any)]]], false)
  }

  lemma TitleCompiles(be: string)
    requires PlainOrDot(be)
    ensures TitlePattern(be) == Some(HeadPattern("title", "", NameItems(be)))
  {
    ParseAnyStar();
    ParseUnescaped(be);
    ParsePlainThen("title", ".*");
    assert "title" + ".*" == "title.*";
    assert [Star(Any)] + Lits("") == [Star(Any)];
  }

  lemma OptionsGroup(root: string)
    requires PlainOrDot(root)
    ensures Parse("options.*zfs=" + (Escape(root) + "/")) == Some(Lits("options") + ([Star(Any)] + Lits("zfs=" + root + "/")))
  {
    ParsePlain("/");
    ParseEscapedThen(root, "/");
    DatasetGroup(Escape(root) + "/");
    LitsConcat(root, "/");
    LitsConcat("zfs=", root + "/");
    assert "zfs=" + (root + "/") == "zfs=" + root + "/";
  }

  lemma DatasetGroup(tail: string)
    requires Parse(tail).Some? && (tail != "" ==> tail[0] != '*')
    ensures Parse("options.*zfs=" + tail) == Some(Lits("options") + ([Star(Any)] + (Lits("zfs=") + Parse(tail).value)))
  {
    OptionsText(tail);
    PlainAnyPlain("options", ".*", "zfs=", tail);
  }

  lemma OptionsText(tail: string)
    ensures "options" + (".*" + ("zfs=" + tail)) == "options.*zfs=" + tail
  {
  }

  lemma PlainAnyPlain(a: string, any: string, b: string, tail: string)
    requires Plain(a) && Plain(b) && b != "" && any == ".*" && Parse(tail).Some? && (tail != "" ==> tail[0] != '*')
    ensures Parse(a + (any + (b + tail))) == Some(Lits(a) + ([Star(Any)] + (Lits(b) + Parse(tail).value)))
  {
    ParseAnyStar();
    ParsePlainThen(b, tail);
    ParseConcat(any, b + tail);
    ParsePlainThen(a, any + (b + tail));
  }

  lemma OptionsCompiles(root: string, be: string)
    requires PlainOrDot(root) && PlainOrDot(be)
    ensures OptionsPattern(root, be) == Some(HeadPattern("options", "zfs=" + root + "/", Lits(be)))
  {
    ParseAnyStar();
    ParseEscaped(be);
    OptionsGroup(root);
  }

  function LinuxCompiled(be: string): Pattern {
    Pattern(false,
            [[Lits("linux"), Lits("initrd")], [[Star(Any)]], [Lits(NAMESPACE + "-")], [Lits(be)], [Lits("/") + [Star(Any)]]],
            false)
  }

  lemma SlashGroup()
    ensures Parse("/.*") == Some(Lits("/") + [Star(Any)])
  {
    ParseAnyStar();
    ParsePlainThen("/", ".*");
    assert "/" + ".*" == "/.*";
  }

  lemma LinuxWord()
    ensures Parse("linux") == Some(Lits("linux"))
  {
    ParsePlain("linux");
  }

  lemma InitrdWord()
    ensures Parse("initrd") == Some(Lits("initrd"))
  {
    ParsePlain("initrd");
  }

  lemma LinuxCompiles(be: string)
    requires PlainOrDot(be)
    ensures LinuxPattern(be) == Some(LinuxCompiled(be))
  {
    ParseAnyStar();
    LinuxWord();
    InitrdWord();
    NamespaceParses();
    ParseEscaped(be);
    SlashGroup();
  }

  /** The literal part of the first fstab group. */
  function FstabHead(efi: string): string { efi + "/env/" + NAMESPACE + "-" }

  function FstabCompiled(efi: string, boot: string): Pattern {
    Pattern(true,
            [[[Star(BLANK)] + Lits(FstabHead(efi))], [[Star(Any)]], [[Star(BLANK)] + (Lits(boot) + [Star(Any)])]],
            true)
  }

  lemma EnvGroup()
    ensures Parse("/env/" + (Escape(NAMESPACE) + "-")) == Some(Lits("/env/") + Lits(NAMESPACE + "-"))
  {
    NamespaceParses();
    EscapedStart(NAMESPACE, "-");
    ParsePlainThen("/env/", Escape(NAMESPACE) + "-");
  }

  lemma FstabHeadParses(efi: string)
    requires PlainOrDot(efi)
    ensures Parse("[\t ]*" + (Escape(efi) + ("/env/" + (Escape(NAMESPACE) + "-")))) == Some([Star(BLANK)] + Lits(FstabHead(efi)))
  {
    EnvGroup();
    BlanksThenName(efi, "/env/" + (Escape(NAMESPACE) + "-"));
    FstabHeadLits(efi, "/env/", NAMESPACE + "-");
  }

  lemma FstabHeadLits(efi: string, env: string, ns: string)
    requires env == "/env/" && ns == NAMESPACE + "-"
    ensures Lits(efi) + (Lits(env) + Lits(ns)) == Lits(FstabHead(efi))
  {
    LitsConcat(env, ns);
    LitsConcat(efi, env + ns);
    assert efi + (env + ns) == FstabHead(efi);
  }

  lemma BlanksThenName(name: string, re: string)
    requires PlainOrDot(name) && Parse(re).Some? && re != "" && re[0] != '*'
    ensures Parse("[\t ]*" + (Escape(name) + re)) == Some([Star(BLANK)] + (Lits(name) + Parse(re).value))
  {
    ParseBlanks();
    ParseEscapedThen(name, re);
    EscapedStart(name, re);
    ParseConcat("[\t ]*", Escape(name) + re);
  }

  lemma FstabCompiles(efi: string, boot: string)
    requires PlainOrDot(efi) && PlainOrDot(boot)
    ensures FstabPattern(efi, boot) == Some(FstabCompiled(efi, boot))
  {
    ParseAnyStar();
    FstabHeadParses(efi);
    BlanksThenName(boot, ".*");
  }

  /** An escaped name is not read as a repetition of what stands before it. */
  lemma EscapedStart(name: string, re: string)
    requires PlainOrDot(name) && re != "" && re[0] != '*'
    ensures (Escape(name) + re)[0] != '*'
  {
    EscapeCharwise(name);
  }

  function LoaderCompiled(): Pattern {
    Pattern(true, [[[Star(BLANK)] + (Lits("default") + [Star(LOADER_FILL)])], [[Star(Any)]]], false)
  }

  lemma LoaderGroup()
    ensures Parse("default" + "[\\t ]*") == Some(Lits("default") + [Star(LOADER_FILL)])
  {
    ParseLoaderFill();
    ParsePlainThen("default", "[\\t ]*");
  }

  lemma LoaderCompiles()
    ensures LoaderPattern() == Some(LoaderCompiled())
  {
    ParseAnyStar();
    ParseBlanks();
    LoaderGroup();
    ParseConcat("[\t ]*", "default" + "[\\t ]*");
  }
}
