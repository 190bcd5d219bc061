/** The callbacks that fill `replace_line_buf`, with their regex and template buffers. */
module LineCallbacks {
  import opened CString
  import opened ReplaceString
  import opened GroupExpansion
  import opened Bre
  import opened BootPatterns
  import opened BootMatches
  import opened Regcomp
  import opened LineRewrite

  /** One `libze_util_replace_string(".", "\\.", ...)` into a name buffer. */
  method EscapeDots(name: string, noDots: array<char>) returns (ret: Status)
    requires IsCStr(name) && |name| <= INT_MAX && noDots.Length == MAX_DATASET_LEN
    modifies noDots
    ensures ret == if |Escape(name)| < MAX_DATASET_LEN then Success else MaxPathLen
    ensures ret == Success ==> Holds(noDots[..], Escape(name))
  {
    EscapeLength(name);
    ret := Replace(".", Some("\\."), MAX_DATASET_LEN, name, noDots, true);
  }

  /** The match and the expansion: what every callback does once a pattern has matched. */
  method ExpandInto(template: string, m: RMatch, line: string, buf: array<char>) returns (ret: Status)
    requires IsCStr(template) && |template| < MAX_PATH_LEN && IsCStr(line) && buf.Length == MAX_PATH_LEN
    requires Solid(m, line) && IsRefAt(template, 0) && template[1] == '1'
    modifies buf
    ensures match Substitute(template, m, line)
      case Ok(text) => ret == Success && Holds(buf[..], text)
      case Fail(s) => ret == s && s != Success
  {
    PMatchTexts(m, line);
    NoUnderflow(template, m, line);
    assert Template(template, MAX_PATH_LEN) == template;
    ret := SubexprReplace(Some(PMatch(m)), MAX_PATH_LEN, template, line, buf);
  }

  /** No pattern matched: the line is copied. */
  method CopyLine(line: string, buf: array<char>) returns (ret: Status)
    requires IsCStr(line) && buf.Length == MAX_PATH_LEN
    modifies buf
    ensures match Copied255(line)
      case Ok(text) => ret == Success && Holds(buf[..], text)
      case Fail(s) => ret == s
  {
    var n := StrLCpyInto(buf, line);
    ret := if n >= MAX_PATH_LEN then MaxPathLen else Success;
  }

  /** The three expressions of `get_cfg_line_from_regex`, formed in this order and read back from their buffers. */
  method FormCfgRegexes(root: string, was: string) returns (ret: Status, title: string, linux: string, dataset: string)
    requires IsCStr(root) && IsCStr(was) && |root| <= INT_MAX && |was| <= INT_MAX
    ensures ret == (if |Escape(was)| < MAX_DATASET_LEN && |Escape(root)| < MAX_DATASET_LEN
                       && 28 + |Escape(root)| + |Escape(was)| < REGEX_BUFLEN then Success else MaxPathLen)
    ensures ret == Success ==> title == TitleRe(was) && linux == LinuxRe(was) && dataset == OptionsRe(root, was)
  {
    title, linux, dataset := "", "", "";
    EscapeLength(was);
    EscapeLength(root);
    var beNoDots := new char[MAX_DATASET_LEN];
    ret := EscapeDots(was, beNoDots);
    if ret != Success {
      return;
    }
    HoldsCStrOf(beNoDots[..], Escape(was));
    linux := "\\(linux\\|initrd\\)\\(.*\\)\\(org\\.zectl-\\)\\(" + CStrOf(beNoDots[..]) + "\\)\\(/.*\\)";
    if |linux| >= REGEX_BUFLEN {
      assert false;      // 49 characters and an escaped name always fit
    }
    var regBuf := new char[REGEX_BUFLEN];
    var ok := Concat("\\(title.*\\)\\(", was, "\\)\\(.*\\)", regBuf);
    if !ok {
      assert false;      // 21 characters and a name always fit
    }
    assert "\\(title.*\\)\\(" + was + "\\)\\(.*\\)" == TitleRe(was);
    HoldsCStrOf(regBuf[..], TitleRe(was));
    title := CStrOf(regBuf[..]);
    var rootNoDots := new char[MAX_DATASET_LEN];
    ret := EscapeDots(root, rootNoDots);
    if ret != Success {
      return;
    }
    HoldsCStrOf(rootNoDots[..], Escape(root));
    dataset := "\\(options.*zfs=" + CStrOf(rootNoDots[..]) + "/\\)\\(" + CStrOf(beNoDots[..]) + "\\)\\(.*\\)";
    if |dataset| >= REGEX_BUFLEN {
      ret := MaxPathLen;
    }
  }

  lemma CfgTemplateTexts(be: string)
    ensures "\\1" + be + "\\3" == TemplateTwo(be)
    ensures "\\1\\2\\3" + be + "\\5" == TemplateFour(be)
  {
  }

  /** The two templates, read back from their buffers. */
  method FormCfgTemplates(be: string) returns (ok: bool, two: string, four: string)
    requires IsCStr(be)
    ensures ok <==> |be| + 8 < MAX_PATH_LEN
    ensures ok ==> two == TemplateTwo(be) && four == TemplateFour(be)
  {
    two, four := "", "";
    var replaceTwo, replaceFour := new char[MAX_PATH_LEN], new char[MAX_PATH_LEN];
    ok := Concat("\\1", be, "\\3", replaceTwo);
    if ok {
      ok := Concat("\\1\\2\\3", be, "\\5", replaceFour);
    }
    if ok {
      CfgTemplateTexts(be);
      HoldsCStrOf(replaceTwo[..], TemplateTwo(be));
      HoldsCStrOf(replaceFour[..], TemplateFour(be));
      two, four := CStrOf(replaceTwo[..]), CStrOf(replaceFour[..]);
    }
  }

  /** `get_cfg_line_from_regex` */
  method GetCfgLine(root: string, was: string, be: string, line: string, buf: array<char>) returns (ret: Status)
    requires IsCStr(root) && IsCStr(was) && IsCStr(be) && IsCStr(line) && buf.Length == MAX_PATH_LEN
    requires PlainOrDot(root) && PlainOrDot(was) && |root| <= INT_MAX && |was| <= INT_MAX
    modifies buf
    ensures match CfgLine(root, was, be, line)
      case Ok(text) => ret == Success && Holds(buf[..], text)
      case Fail(s) => ret == s && s != Success
  {
    var titleRe, linuxRe, datasetRe;
    ret, titleRe, linuxRe, datasetRe := FormCfgRegexes(root, was);
    if ret != Success {
      return;
    }
    var ok, two, four := FormCfgTemplates(be);
    if !ok {
      return ConcatFailed;
    }
    PickShape(root, was, line);

    var title := TitleMatch(line, was);
    if title.Some? {
      ret := ExpandInto(two, title.value, line, buf);
      return;
    }
    var linux := LinuxMatch(line, was);
    if linux.Some? {
      ret := ExpandInto(four, linux.value, line, buf);
      return;
    }
    var dataset := OptionsMatch(line, root, was);
    if dataset.Some? {
      ret := ExpandInto(two, dataset.value, line, buf);
      return;
    }
    ret := CopyLine(line, buf);
  }

  /** `form_fstab_regex` */
  method FormFstabRegex(efi: string, boot: string) returns (ret: Status, re: string)
    requires IsCStr(efi) && IsCStr(boot) && |efi| <= INT_MAX && |boot| <= INT_MAX
    ensures ret == (if |Escape(efi)| < MAX_DATASET_LEN && |Escape(boot)| < MAX_DATASET_LEN
                       && 44 + |Escape(efi)| + |Escape(boot)| < REGEX_BUFLEN then Success else MaxPathLen)
    ensures ret == Success ==> re == FstabRe(efi, boot)
  {
    re := "";
    EscapeLength(efi);
    EscapeLength(boot);
    var efiNoDots, bootNoDots := new char[MAX_DATASET_LEN], new char[MAX_DATASET_LEN];
    ret := EscapeDots(efi, efiNoDots);
    if ret != Success {
      return;
    }
    ret := EscapeDots(boot, bootNoDots);
    if ret != Success {
      return;
    }
    HoldsCStrOf(efiNoDots[..], Escape(efi));
    HoldsCStrOf(bootNoDots[..], Escape(boot));
    re := "\\(^[\t ]*" + CStrOf(efiNoDots[..]) + "/env/org\\.zectl-\\)\\(.*\\)\\([\t ]*" + CStrOf(bootNoDots[..]) + ".*$\\)";
    if |re| >= REGEX_BUFLEN {
      ret := MaxPathLen;
    }
  }

  /** `get_fstab_line_from_regex` */
  method GetFstabLine(efi: string, boot: string, be: string, line: string, buf: array<char>) returns (ret: Status)
    requires IsCStr(efi) && IsCStr(boot) && IsCStr(be) && IsCStr(line) && buf.Length == MAX_PATH_LEN
    requires PlainOrDot(efi) && PlainOrDot(boot) && |efi| <= INT_MAX && |boot| <= INT_MAX
    modifies buf
    ensures match FstabLine(efi, boot, be, line)
      case Ok(text) => ret == Success && Holds(buf[..], text)
      case Fail(s) => ret == s && s != Success
  {
    var re;
    ret, re := FormFstabRegex(efi, boot);
    if ret != Success {
      return;
    }
    var replaceTwo := new char[MAX_PATH_LEN];
    var ok := Concat("\\1", be, "    \\3", replaceTwo);
    if !ok {
      return MaxPathLen;
    }
    assert "\\1" + be + "    \\3" == TemplateFstab(be);
    HoldsCStrOf(replaceTwo[..], TemplateFstab(be));
    FstabShape(efi, boot, line);
    var boots := FstabMatch(line, efi, boot);
    if boots.Some? {
      ret := ExpandInto(CStrOf(replaceTwo[..]), boots.value, line, buf);
      return;
    }
    ret := CopyLine(line, buf);
  }

  /** `get_loader_line_from_regex`; `snprintf` reports the length it would have needed. */
  method GetLoaderLine(be: string, line: string, buf: array<char>, ghost stale: string) returns (ret: Status)
    requires IsCStr(be) && IsCStr(line) && buf.Length == MAX_PATH_LEN && Holds(buf[..], stale)
    modifies buf
    ensures match LoaderLine(be, line, stale)
      case Ok(text) => ret == Success && Holds(buf[..], text)
      case Fail(s) => ret == s && s != Success
  {
    var template := "\\1" + (NAMESPACE + "-" + be + ".conf\n" + "");
    if |template| >= MAX_PATH_LEN {
      return Success;
    }
    LoaderShape(line);
    var default := LoaderMatch(line);
    if default.Some? {
      ret := ExpandInto(template, default.value, line, buf);
      return;
    }
    ret := CopyLine(line, buf);
  }
}
