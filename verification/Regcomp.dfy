/** `regcomp`: a whole expression is taken apart into its groups, their alternatives and its anchors. */
module Regcomp {
  import opened CString
  import opened ReplaceString
  import opened Bre
  import opened BootPatterns

  // ---------------------------------------------------------------- taking an expression apart

  /** The text of an open group up to `\)`, and what follows; a backslash goes with the next character. */
  function TakeGroup(s: string): Option<(string, string)> {
    if |s| < 2 then None
    else if s[..2] == "\\)" then Some(("", s[2..]))
    else
      var n := if s[0] == '\\' then 2 else 1;
      match TakeGroup(s[n..])
      case None => None
      case Some((group, rest)) => Some((s[..n] + group, rest))
  }

  /** The groups, of which the expression is nothing but a sequence. */
  function GroupsOf(re: string): Option<seq<string>>
    decreases |re|
  {
    if re == "" then Some([])
    else if |re| < 2 || re[..2] != "\\(" then None
    else match TakeGroup(re[2..])
      case None => None
      case Some((group, rest)) =>
        TakeShortens(re[2..]);
        match GroupsOf(rest)
        case None => None
        case Some(groups) => Some([group] + groups)
  }

  lemma {:induction false} TakeShortens(s: string)
    ensures TakeGroup(s).Some? ==> |TakeGroup(s).value.1| < |s|
  {
    if |s| >= 2 && s[..2] != "\\)" { TakeShortens(s[if s[0] == '\\' then 2 else 1..]); }
  }

  function InFront(a: string, alternatives: seq<string>): (r: seq<string>)
    requires alternatives != []
    ensures r != []
  {
    alternatives[0 := a + alternatives[0]]
  }

  /** The alternatives of a group, with `\|` between them. */
  function Alternatives(g: string): (r: seq<string>)
    ensures r != []
  {
    if g == "" then [""]
    else if |g| >= 2 && g[..2] == "\\|" then [""] + Alternatives(g[2..])
    else
      var n := if |g| >= 2 && g[0] == '\\' then 2 else 1;
      InFront(g[..n], Alternatives(g[n..]))
  }

  function ParseAll(alternatives: seq<string>): Option<Group> {
    if alternatives == [] then Some([])
    else match (Parse(alternatives[0]), ParseAll(alternatives[1..]))
      case (Some(items), Some(rest)) => Some([items] + rest)
      case _ => None
  }

  function ParseGroups(groups: seq<string>): Option<seq<Group>> {
    if groups == [] then Some([])
    else match (ParseAll(Alternatives(groups[0])), ParseGroups(groups[1..]))
      case (Some(group), Some(rest)) => Some([group] + rest)
      case _ => None
  }

  /** The first group may begin with `^`, the last may end in `$`. */
  predicate Starts(g: string) { g != "" && g[0] == '^' }

  predicate Ends(g: string) { g != "" && g[|g| - 1] == '$' }

  /** The anchors are taken off the first and the last group. */
  function Bare(gs: seq<string>): seq<string>
    requires gs != []
  {
    var inner := if Starts(gs[0]) then gs[0 := gs[0][1..]] else gs;
    var n := |inner| - 1;
    if Ends(inner[n]) then inner[n := inner[n][..|inner[n]| - 1]] else inner
  }

  function Compile(re: string): Option<Pattern> {
    match GroupsOf(re)
    case None => None
    case Some(gs) =>
      if gs == [] then None
      else
        match ParseGroups(Bare(gs))
        case None => None
        case Some(groups) => Some(Pattern(Starts(gs[0]), groups, Ends(gs[|gs| - 1])))
  }

  // ---------------------------------------------------------------- texts without structure of their own

  /** Neither a group, nor an alternative, nor a single backslash at the end. */
  predicate Whole(g: string) {
    g != "" ==>
      if g[0] == '\\' then |g| >= 2 && g[1] != '(' && g[1] != ')' && g[1] != '|' && Whole(g[2..]) else Whole(g[1..])
  }

  lemma {:induction false} WholePlain(g: string)
    requires '\\' !in g
    ensures Whole(g)
    decreases |g|
  {
    if g != "" { WholePlain(g[1..]); }
  }

  lemma {:induction false} WholeConcat(a: string, b: string)
    requires Whole(a) && Whole(b)
    ensures Whole(a + b)
    decreases |a|
  {
    if a == "" {
      assert a + b == b;
    } else {
      var n := if a[0] == '\\' then 2 else 1;
      assert (a + b)[n..] == a[n..] + b;
      WholeConcat(a[n..], b);
    }
  }

  lemma {:induction false} WholeEscape(name: string)
    requires PlainOrDot(name)
    ensures Whole(Escape(name))
    decreases |name|
  {
    EscapeCharwise(name);
    if name != "" {
      WholeEscape(name[1..]);
      WholeConcat(if name[0] == '.' then "\\." else name[..1], Escape(name[1..]));
    }
  }

  lemma NoBackslashInName(name: string)
    requires PlainOrDot(name)
    ensures '\\' !in name
  {
  }

  lemma FrontToken(a: string, s: string) returns (n: nat)
    requires Whole(a) && a != ""
    ensures 1 <= n <= |a| && n == (if a[0] == '\\' then 2 else 1) && (a + s)[0] == a[0] && (n == 2 ==> (a + s)[1] == a[1])
    ensures (a + s)[..n] == a[..n] && (a + s)[n..] == a[n..] + s && a[..n] + a[n..] == a && Whole(a[n..])
    ensures a + s != "" && (|a + s| >= 2 ==> (a + s)[..2] != "\\)" && (a + s)[..2] != "\\|")
  {
    n := if a[0] == '\\' then 2 else 1;
  }

  /** What is whole goes in front of the group that is open. */
  lemma {:induction false} TakeConcat(a: string, s: string)
    requires Whole(a) && TakeGroup(s).Some?
    ensures TakeGroup(a + s) == Some((a + TakeGroup(s).value.0, TakeGroup(s).value.1))
    decreases |a|
  {
    if a == "" {
      assert a + s == s && a + TakeGroup(s).value.0 == TakeGroup(s).value.0;
    } else {
      var n := FrontToken(a, s);
      TakeConcat(a[n..], s);
      assert |s| >= 2;
      assert a[..n] + (a[n..] + TakeGroup(s).value.0) == a + TakeGroup(s).value.0;
    }
  }

  lemma TakeWhole(g: string, rest: string)
    requires Whole(g)
    ensures TakeGroup(g + ("\\)" + rest)) == Some((g, rest))
  {
    var s := "\\)" + rest;
    assert s[..2] == "\\)" && s[2..] == rest && g + "" == g;
    TakeConcat(g, s);
  }

  lemma Regrouped(a: string, bar: string, b: string, t: string)
    ensures a + (bar + (b + t)) == a + (bar + b) + t
  {
  }

  /** A group with two alternatives. */
  lemma TakeTwo(a: string, b: string, rest: string)
    requires Whole(a) && Whole(b)
    ensures TakeGroup(a + ("\\|" + b) + ("\\)" + rest)) == Some((a + ("\\|" + b), rest))
  {
    var s, t := b + ("\\)" + rest), "\\|" + (b + ("\\)" + rest));
    TakeWhole(b, rest);
    assert t[..2] == "\\|" && t[2..] == s;
    TakeConcat(a, t);
    Regrouped(a, "\\|", b, "\\)" + rest);
  }

  lemma {:induction false} AlternativesConcat(a: string, s: string)
    requires Whole(a)
    ensures Alternatives(a + s) == InFront(a, Alternatives(s))
    decreases |a|
  {
    if a == "" {
      assert a + s == s && a + Alternatives(s)[0] == Alternatives(s)[0];
    } else {
      var n := FrontToken(a, s);
      AlternativesConcat(a[n..], s);
      var first := Alternatives(s)[0];
      assert a[..n] + (a[n..] + first) == a + first;
    }
  }

  lemma OneAlternative(g: string)
    requires Whole(g)
    ensures Alternatives(g) == [g]
  {
    AlternativesConcat(g, "");
    assert g + "" == g;
  }

  lemma TwoAlternatives(a: string, b: string)
    requires Whole(a) && Whole(b)
    ensures Alternatives(a + ("\\|" + b)) == [a, b]
  {
    var s := "\\|" + b;
    assert s[..2] == "\\|" && s[2..] == b && a + "" == a;
    OneAlternative(b);
    AlternativesConcat(a, s);
  }

  lemma ParseOne(g: string)
    requires Whole(g)
    ensures ParseAll(Alternatives(g)) == if Parse(g).Some? then Some([Parse(g).value]) else None
  {
    OneAlternative(g);
    assert [g][1..] == [];
    assert ParseAll([]) == Some([]);
    assert Parse(g).Some? ==> [Parse(g).value] + [] == [Parse(g).value];
  }

  lemma ParseTwo(a: string, b: string)
    requires Whole(a) && Whole(b)
    ensures ParseAll(Alternatives(a + ("\\|" + b)))
            == if Parse(a).Some? && Parse(b).Some? then Some([Parse(a).value, Parse(b).value]) else None
  {
    TwoAlternatives(a, b);
    OneAlternative(b);
    ParseOne(b);
    assert [a, b][1..] == [b];
    assert Parse(a).Some? && Parse(b).Some? ==>
             [Parse(a).value] + [Parse(b).value] == [Parse(a).value, Parse(b).value];
  }

  /** A group written out, in front of the rest. */
  function Grouped(g: string, rest: string): string { "\\(" + (g + ("\\)" + rest)) }

  lemma GroupInFront(g: string, rest: string)
    requires TakeGroup(g + ("\\)" + rest)) == Some((g, rest)) && GroupsOf(rest).Some?
    ensures GroupsOf(Grouped(g, rest)) == Some([g] + GroupsOf(rest).value)
  {
    var re := Grouped(g, rest);
    assert re[..2] == "\\(" && re[2..] == g + ("\\)" + rest);
  }

  function GroupedAll(gs: seq<string>): string {
    if gs == [] then "" else Grouped(gs[0], GroupedAll(gs[1..]))
  }

  lemma {:induction false} GroupsOfAll(gs: seq<string>)
    requires forall g :: g in gs ==> Whole(g)
    ensures GroupsOf(GroupedAll(gs)) == Some(gs)
    decreases |gs|
  {
    if gs != [] {
      GroupsOfAll(gs[1..]);
      TakeWhole(gs[0], GroupedAll(gs[1..]));
      GroupInFront(gs[0], GroupedAll(gs[1..]));
      assert [gs[0]] + gs[1..] == gs;
    }
  }

  /** Groups without alternatives are read one by one. */
  function ParseEach(gs: seq<string>): Option<seq<Group>> {
    if gs == [] then Some([])
    else match (Parse(gs[0]), ParseEach(gs[1..]))
      case (Some(items), Some(rest)) => Some([[items]] + rest)
      case _ => None
  }

  lemma {:induction false} ParseWholes(gs: seq<string>)
    requires forall g :: g in gs ==> Whole(g)
    ensures ParseGroups(gs) == ParseEach(gs)
    decreases |gs|
  {
    if gs != [] {
      ParseOne(gs[0]);
      ParseWholes(gs[1..]);
    }
  }

  lemma CompileAll(gs: seq<string>)
    requires gs != [] && (forall g :: g in gs ==> Whole(g)) && (forall g :: g in Bare(gs) ==> Whole(g))
    ensures Compile(GroupedAll(gs))
            == match ParseEach(Bare(gs))
               case None => None
               case Some(groups) => Some(Pattern(Starts(gs[0]), groups, Ends(gs[|gs| - 1])))
  {
    GroupsOfAll(gs);
    ParseWholes(Bare(gs));
  }

  lemma ParseInFront(g: string, rest: seq<string>)
    ensures ParseEach([g] + rest)
            == match (Parse(g), ParseEach(rest)) case (Some(items), Some(more)) => Some([[items]] + more) case _ => None
  {
    assert ([g] + rest)[1..] == rest;
  }

  lemma ParseTail(g2: string, g3: string)
    ensures ParseEach([g2, g3]) == match (Parse(g2), Parse(g3)) case (Some(i2), Some(i3)) => Some([[i2], [i3]]) case _ => None
  {
    ParseInFront(g3, []);
    ParseInFront(g2, [g3]);
    assert [g3] + [] == [g3] && [g2] + [g3] == [g2, g3];
    assert ParseEach([]) == Some([]);
    if Parse(g2).Some? && Parse(g3).Some? {
      var i2, i3 := Parse(g2).value, Parse(g3).value;
      assert [[i3]] + [] == [[i3]] && [[i2]] + [[i3]] == [[i2], [i3]];
    }
  }

  lemma ParseThree(g1: string, g2: string, g3: string)
    ensures ParseEach([g1, g2, g3]) ==
              match (Parse(g1), Parse(g2), Parse(g3))
              case (Some(i1), Some(i2), Some(i3)) => Some([[i1], [i2], [i3]])
              case _ => None
  {
    ParseTail(g2, g3);
    ParseInFront(g1, [g2, g3]);
    assert [g1] + [g2, g3] == [g1, g2, g3];
    if Parse(g1).Some? && ParseEach([g2, g3]).Some? {
      var i1, i2, i3 := Parse(g1).value, Parse(g2).value, Parse(g3).value;
      assert [[i1]] + [[i2], [i3]] == [[i1], [i2], [i3]];
    }
  }

  lemma GroupedThree(g1: string, g2: string, g3: string)
    ensures GroupedAll([g1, g2, g3]) == "\\(" + g1 + "\\)\\(" + g2 + "\\)\\(" + g3 + "\\)"
  {
    var gs := [g1, g2, g3];
    assert gs[1..] == [g2, g3] && gs[1..][1..] == [g3] && gs[1..][1..][1..] == [];
    assert GroupedAll([]) == "";
    var c := "\\(" + (g3 + ("\\)" + ""));
    var b := "\\(" + (g2 + ("\\)" + c));
    assert GroupedAll([g3]) == c && GroupedAll([g2, g3]) == b;
    assert c == "\\(" + g3 + "\\)";
    assert b == "\\(" + g2 + "\\)\\(" + g3 + "\\)";
  }

  /** Three groups without anchors. */
  lemma CompileThree(g1: string, g2: string, g3: string)
    requires Whole(g1) && Whole(g2) && Whole(g3) && !Starts(g1) && !Ends(g3)
    ensures Compile("\\(" + g1 + "\\)\\(" + g2 + "\\)\\(" + g3 + "\\)") == Regcomp3(false, g1, g2, g3, false)
  {
    GroupedThree(g1, g2, g3);
    CompileAll([g1, g2, g3]);
    ParseThree(g1, g2, g3);
  }

  lemma WithinAnchors(g1: string, g3: string)
    requires Whole(g1) && Whole(g3)
    ensures Whole("^" + g1) && Whole(g3 + "$") && Starts("^" + g1) && Ends(g3 + "$")
    ensures ("^" + g1)[1..] == g1 && (g3 + "$")[..|g3|] == g3 && |g3 + "$"| == |g3| + 1
  {
    WholePlain("^");
    WholePlain("$");
    WholeConcat("^", g1);
    WholeConcat(g3, "$");
  }

  lemma BareThree(a: string, g1: string, g2: string, c: string, g3: string)
    requires Starts(a) && Ends(c) && a[1..] == g1 && c[..|c| - 1] == g3
    ensures Bare([a, g2, c]) == [g1, g2, g3]
  {
    assert [a, g2, c][0 := g1] == [g1, g2, c];
    assert [g1, g2, c][2 := g3] == [g1, g2, g3];
  }

  lemma Anchored(g1: string, g2: string, g3: string)
    requires Whole(g1) && Whole(g2) && Whole(g3)
    ensures var gs := ["^" + g1, g2, g3 + "$"];
            (forall g :: g in gs ==> Whole(g)) && Bare(gs) == [g1, g2, g3] && Starts(gs[0]) && Ends(gs[2])
  {
    WithinAnchors(g1, g3);
    BareThree("^" + g1, g1, g2, g3 + "$", g3);
  }

  /** Three groups between anchors. */
  lemma CompileAnchored(g1: string, g2: string, g3: string)
    requires Whole(g1) && Whole(g2) && Whole(g3)
    ensures Compile("\\(" + ("^" + g1) + "\\)\\(" + g2 + "\\)\\(" + (g3 + "$") + "\\)") == Regcomp3(true, g1, g2, g3, true)
  {
    Anchored(g1, g2, g3);
    GroupedThree("^" + g1, g2, g3 + "$");
    CompileAll(["^" + g1, g2, g3 + "$"]);
    ParseThree(g1, g2, g3);
  }

  // ---------------------------------------------------------------- the five expressions

  lemma FrontCharacter(a: string, s: string)
    requires a != ""
    ensures (a + s)[0] == a[0] && (a + s)[1..] == a[1..] + s && (a + s)[..1] == a[..1]
    ensures forall t: string :: a[..1] + (a[1..] + t) == a + t
  {
  }

  lemma {:induction false} EscapeBehind(a: string, s: string)
    requires '.' !in a
    ensures Escape(a + s) == a + Escape(s)
    decreases |a|
  {
    if a == "" {
      assert a + s == s && a + Escape(s) == Escape(s);
    } else {
      FrontCharacter(a, s);
      EscapeCharwise(a + s);
      EscapeBehind(a[1..], s);
    }
  }

  lemma EscapeOneDot(a: string, b: string)
    requires '.' !in a && '.' !in b
    ensures Escape(a + ("." + b)) == a + ("\\." + b)
  {
    EscapeBehind(a, "." + b);
    EscapeCharwise("." + b);
    assert ("." + b)[1..] == b;
    EscapeBehind(b, "");
    EscapeCharwise("");
    assert b + "" == b;
  }

  /** The expressions hold the namespace with its dot escaped. */
  lemma NamespaceEscaped(org: string, zectl: string)
    requires org == "org" && zectl == "zectl"
    ensures Escape(NAMESPACE) == "org\\.zectl"
  {
    EscapeOneDot(org, zectl);
    assert org + ("." + zectl) == NAMESPACE && org + ("\\." + zectl) == "org\\.zectl";
  }

  function TitleRe(be: string): string { "\\(title.*\\)\\(" + be + "\\)\\(.*\\)" }

  lemma TitleText(head: string, be: string, tail: string)
    requires head == "title.*" && tail == ".*"
    ensures "\\(" + head + "\\)\\(" + be + "\\)\\(" + tail + "\\)" == TitleRe(be)
  {
  }

  lemma PlainGroup(g: string)
    requires '\\' !in g && g != "" && g[0] != '^' && g[|g| - 1] != '$'
    ensures Whole(g) && !Starts(g) && !Ends(g)
  {
    WholePlain(g);
  }

  lemma CompileTitleOf(head: string, be: string, tail: string)
    requires head == "title.*" && tail == ".*" && PlainOrDot(be)
    ensures Compile(TitleRe(be)) == Regcomp3(false, head, be, tail, false)
  {
    PlainGroup(head);
    PlainGroup(tail);
    WholePlain(be);
    CompileThree(head, be, tail);
    TitleText(head, be, tail);
  }

  lemma CompileTitle(be: string)
    requires PlainOrDot(be)
    ensures Compile(TitleRe(be)) == TitlePattern(be)
  {
    CompileTitleOf("title.*", be, ".*");
  }

  function OptionsRe(root: string, be: string): string {
    "\\(options.*zfs=" + Escape(root) + "/\\)\\(" + Escape(be) + "\\)\\(.*\\)"
  }

  lemma OptionsReText(head: string, r: string, e: string, tail: string)
    requires head == "options.*zfs=" && tail == ".*"
    ensures "\\(" + (head + (r + "/")) + "\\)\\(" + e + "\\)\\(" + tail + "\\)"
            == "\\(options.*zfs=" + r + "/\\)\\(" + e + "\\)\\(.*\\)"
  {
  }

  lemma OptionsHead(head: string, root: string)
    requires head == "options.*zfs=" && PlainOrDot(root)
    ensures Whole(head + (Escape(root) + "/")) && !Starts(head + (Escape(root) + "/"))
  {
    PlainGroup(head);
    PlainGroup("/");
    WholeEscape(root);
    WholeConcat(Escape(root), "/");
    WholeConcat(head, Escape(root) + "/");
  }

  lemma CompileOptionsOf(head: string, root: string, be: string, tail: string)
    requires head == "options.*zfs=" && tail == ".*" && PlainOrDot(root) && PlainOrDot(be)
    ensures Compile(OptionsRe(root, be)) == Regcomp3(false, head + (Escape(root) + "/"), Escape(be), tail, false)
  {
    OptionsHead(head, root);
    PlainGroup(tail);
    WholeEscape(be);
    CompileThree(head + (Escape(root) + "/"), Escape(be), tail);
    OptionsReText(head, Escape(root), Escape(be), tail);
  }

  lemma CompileOptions(root: string, be: string)
    requires PlainOrDot(root) && PlainOrDot(be)
    ensures Compile(OptionsRe(root, be)) == OptionsPattern(root, be)
  {
    CompileOptionsOf("options.*zfs=", root, be, ".*");
  }

  function FstabRe(efi: string, boot: string): string {
    "\\(^[\t ]*" + Escape(efi) + "/env/org\\.zectl-\\)\\(.*\\)\\([\t ]*" + Escape(boot) + ".*$\\)"
  }

  lemma FstabText(e: string, ns: string, b: string)
    requires ns == "org\\.zectl"
    ensures "\\(" + ("^" + ("[\t ]*" + (e + ("/env/" + (ns + "-"))))) + "\\)\\(" + ".*" + "\\)\\(" + ("[\t ]*" + (b + ".*") + "$") + "\\)"
            == "\\(^[\t ]*" + e + "/env/org\\.zectl-\\)\\(.*\\)\\([\t ]*" + b + ".*$\\)"
  {
  }

  lemma CompileFstab(efi: string, boot: string)
    requires PlainOrDot(efi) && PlainOrDot(boot)
    ensures Compile(FstabRe(efi, boot)) == FstabPattern(efi, boot)
  {
    var e, b, ns := Escape(efi), Escape(boot), Escape(NAMESPACE);
    NamespaceEscaped("org", "zectl");
    NamespaceParses();
    WholePlain("[\t ]*");
    WholePlain("/env/");
    WholePlain("-");
    WholePlain(".*");
    WholeEscape(efi);
    WholeEscape(boot);
    WholeEscape(NAMESPACE);
    WholeConcat(ns, "-");
    WholeConcat("/env/", ns + "-");
    WholeConcat(e, "/env/" + (ns + "-"));
    WholeConcat("[\t ]*", e + ("/env/" + (ns + "-")));
    WholeConcat(b, ".*");
    WholeConcat("[\t ]*", b + ".*");
    CompileAnchored("[\t ]*" + (e + ("/env/" + (ns + "-"))), ".*", "[\t ]*" + (b + ".*"));
    FstabText(e, ns, b);
  }

  const LOADER_RE := "\\(^[\t ]*default[\\t ]*\\)\\(.*\\)"

  /** The second bracket: a backslash goes with the `t`. */
  lemma WholeFill(fill: string, front: string, token: string, tail: string)
    requires fill == "[\\t ]*" && front == "[" && token == "\\t" && tail == " ]*"
    ensures Whole(fill)
  {
    WholePlain(front);
    WholePlain(tail);
    assert token[2..] == "" && Whole(token);
    WholeConcat(token, tail);
    WholeConcat(front, token + tail);
    assert front + (token + tail) == fill;
  }

  lemma LoaderHead(blanks: string, word: string, fill: string)
    requires blanks == "[\t ]*" && word == "default" && fill == "[\\t ]*"
    ensures Whole(blanks + (word + fill)) && Whole("^" + (blanks + (word + fill)))
  {
    WholePlain("^");
    WholePlain(blanks);
    WholePlain(word);
    WholeFill(fill, "[", "\\t", " ]*");
    WholeConcat(word, fill);
    WholeConcat(blanks, word + fill);
    WholeConcat("^", blanks + (word + fill));
  }

  lemma GroupedTwo(a: string, b: string)
    ensures GroupedAll([a, b]) == "\\(" + a + "\\)\\(" + b + "\\)"
  {
    assert [a, b][1..] == [b] && [b][1..] == [];
    assert GroupedAll([b]) == "\\(" + b + "\\)";
  }

  lemma LoaderText(blanks: string, word: string, fill: string, tail: string)
    requires blanks == "[\t ]*" && word == "default" && fill == "[\\t ]*" && tail == ".*"
    ensures "\\(" + ("^" + (blanks + (word + fill))) + "\\)\\(" + tail + "\\)" == LOADER_RE
  {
  }

  lemma CompileTwo(g: string, tail: string)
    requires Whole(g) && Whole("^" + g) && Whole(tail) && !Ends(tail)
    ensures Compile(GroupedAll(["^" + g, tail]))
            == match (Parse(g), Parse(tail)) case (Some(i1), Some(i2)) => Some(Pattern(true, [[i1], [i2]], false)) case _ => None
  {
    var gs := ["^" + g, tail];
    assert gs[0][1..] == g && gs[0 := g] == [g, tail];
    CompileAll(gs);
    ParseTail(g, tail);
  }

  lemma CompileLoaderOf(blanks: string, word: string, fill: string, tail: string)
    requires blanks == "[\t ]*" && word == "default" && fill == "[\\t ]*" && tail == ".*"
    ensures Compile(LOADER_RE) == match (Parse(blanks + (word + fill)), Parse(tail))
                                  case (Some(i1), Some(i2)) => Some(Pattern(true, [[i1], [i2]], false)) case _ => None
  {
    LoaderHead(blanks, word, fill);
    PlainGroup(tail);
    GroupedTwo("^" + (blanks + (word + fill)), tail);
    CompileTwo(blanks + (word + fill), tail);
    LoaderText(blanks, word, fill, tail);
  }

  lemma CompileLoader()
    ensures Compile(LOADER_RE) == LoaderPattern()
  {
    CompileLoaderOf("[\t ]*", "default", "[\\t ]*", ".*");
  }

  function LinuxRe(be: string): string {
    "\\(linux\\|initrd\\)\\(.*\\)\\(org\\.zectl-\\)\\(" + Escape(be) + "\\)\\(/.*\\)"
  }

  lemma GroupedTail(g: string, rest: seq<string>)
    ensures GroupedAll([g] + rest) == "\\(" + g + "\\)" + GroupedAll(rest)
  {
    assert ([g] + rest)[1..] == rest;
  }

  lemma GroupedFour(a: string, b: string, c: string, d: string)
    ensures GroupedAll([a, b, c, d]) == "\\(" + a + "\\)\\(" + b + "\\)\\(" + c + "\\)\\(" + d + "\\)"
  {
    GroupedThree(b, c, d);
    GroupedTail(a, [b, c, d]);
    assert [a] + [b, c, d] == [a, b, c, d];
  }

  lemma LinuxReText(linux: string, initrd: string, any: string, ns: string, e: string, tail: string)
    requires linux == "linux" && initrd == "initrd" && any == ".*" && ns == "org\\.zectl-" && tail == "/.*"
    ensures "\\(" + ((linux + ("\\|" + initrd)) + ("\\)" + ("\\(" + any + "\\)\\(" + ns + "\\)\\(" + e + "\\)\\(" + tail + "\\)")))
            == "\\(linux\\|initrd\\)\\(.*\\)\\(org\\.zectl-\\)\\(" + e + "\\)\\(/.*\\)"
  {
  }

  lemma InARow<T>(a: T, b: T, c: T, d: T, e: T)
    ensures [a] + ([b] + [c, d, e]) == [a, b, c, d, e]
  {
  }

  lemma ParseFive(a: string, b: string, g2: string, g3: string, g4: string, g5: string)
    requires Whole(a) && Whole(b) && Whole(g2) && Whole(g3) && Whole(g4) && Whole(g5)
    ensures var r := Regcomp5(a, b, g2, g3, g4, g5);
            ParseGroups([a + ("\\|" + b)] + [g2, g3, g4, g5]) == if r.Some? then Some(r.value.groups) else None
  {
    var gs, two := [g2, g3, g4, g5], a + ("\\|" + b);
    assert ([two] + gs)[1..] == gs && [g2] + [g3, g4, g5] == gs;
    ParseTwo(a, b);
    ParseWholes(gs);
    ParseInFront(g2, [g3, g4, g5]);
    ParseThree(g3, g4, g5);
    if Regcomp5(a, b, g2, g3, g4, g5).Some? {
      var i2, i3, i4, i5 := Parse(g2).value, Parse(g3).value, Parse(g4).value, Parse(g5).value;
      InARow([Parse(a).value, Parse(b).value], [i2], [i3], [i4], [i5]);
    }
  }

  lemma BareFive(two: string, gs: seq<string>)
    requires gs != [] && !Starts(two) && !Ends(gs[|gs| - 1])
    ensures Bare([two] + gs) == [two] + gs && !Starts(([two] + gs)[0]) && !Ends(([two] + gs)[|gs|])
  {
  }

  /** Five groups, the first with two alternatives. */
  lemma CompileFive(a: string, b: string, g2: string, g3: string, g4: string, g5: string)
    requires Whole(a) && Whole(b) && Whole(g2) && Whole(g3) && Whole(g4) && Whole(g5)
    requires a != "" && !Starts(a) && !Ends(g5)
    ensures Compile(Grouped(a + ("\\|" + b), GroupedAll([g2, g3, g4, g5]))) == Regcomp5(a, b, g2, g3, g4, g5)
  {
    var gs, two := [g2, g3, g4, g5], a + ("\\|" + b);
    GroupsOfAll(gs);
    TakeTwo(a, b, GroupedAll(gs));
    GroupInFront(two, GroupedAll(gs));
    BareFive(two, gs);
    ParseFive(a, b, g2, g3, g4, g5);
  }

  lemma CompileLinuxOf(linux: string, initrd: string, any: string, be: string, tail: string)
    requires linux == "linux" && initrd == "initrd" && any == ".*" && tail == "/.*" && PlainOrDot(be)
    ensures Compile(LinuxRe(be)) == Regcomp5(linux, initrd, any, Escape(NAMESPACE) + "-", Escape(be), tail)
  {
    var ns := Escape(NAMESPACE) + "-";
    NamespaceEscaped("org", "zectl");
    assert ns == "org\\.zectl-";
    NamespaceParses();
    PlainGroup(linux);
    PlainGroup(initrd);
    PlainGroup(any);
    PlainGroup(tail);
    PlainGroup("-");
    WholeEscape(NAMESPACE);
    WholeConcat(Escape(NAMESPACE), "-");
    WholeEscape(be);
    CompileFive(linux, initrd, any, ns, Escape(be), tail);
    GroupedFour(any, ns, Escape(be), tail);
    LinuxReText(linux, initrd, any, ns, Escape(be), tail);
  }

  lemma CompileLinux(be: string)
    requires PlainOrDot(be)
    ensures Compile(LinuxRe(be)) == LinuxPattern(be)
  {
    CompileLinuxOf("linux", "initrd", ".*", be, "/.*");
  }
}
