/** `replace_matched`: a configuration file is rewritten chunk by chunk, as `fgets` delivers it. */
module FileRewrite {
  import opened CString
  import opened ReplaceString
  import opened GroupExpansion
  import opened Bre
  import opened BootPatterns
  import opened BootMatches
  import opened LineRewrite
  import opened LineCallbacks
  import opened TemplateRoundTrip
  import opened LastWriter

  // ---------------------------------------------------------------- the callback and its data

  datatype Rewriter =
    | Cfg(root: string, was: string, be: string)
    | Fstab(efi: string, boot: string, be: string)
    | Loader(be: string)

  predicate Name(s: string) { IsCStr(s) && PlainOrDot(s) && |s| <= INT_MAX }

  predicate Ready(rw: Rewriter) {
    match rw
    case Cfg(root, was, be) => Name(root) && Name(was) && Name(be)
    case Fstab(efi, boot, be) => Name(efi) && Name(boot) && Name(be)
    case Loader(be) => Name(be)
  }

  /** One call of the callback; `stale` is what the line buffer held before. */
  function LineOf(rw: Rewriter, line: string, stale: string): LineResult
    requires Ready(rw)
  {
    match rw
    case Cfg(root, was, be) => CfgLine(root, was, be, line)
    case Fstab(efi, boot, be) => FstabLine(efi, boot, be, line)
    case Loader(be) => LoaderLine(be, line, stale)
  }

  method Call(rw: Rewriter, line: string, buf: array<char>, ghost stale: string) returns (ret: Status)
    requires Ready(rw) && IsCStr(line) && buf.Length == MAX_PATH_LEN && Holds(buf[..], stale)
    modifies buf
    ensures match LineOf(rw, line, stale)
      case Ok(text) => ret == Success && Holds(buf[..], text)
      case Fail(s) => ret == s && s != Success
  {
    match rw
    case Cfg(root, was, be) => ret := GetCfgLine(root, was, be, line, buf);
    case Fstab(efi, boot, be) => ret := GetFstabLine(efi, boot, be, line, buf);
    case Loader(be) => ret := GetLoaderLine(be, line, buf, stale);
  }

  // ---------------------------------------------------------------- fgets

  /** How much `fgets(buf, 255, file)` takes: up to 254 characters, and no further than a newline. */
  function ChunkLen(file: string): (n: nat)
    requires file != ""
    ensures 0 < n <= |file| && n < MAX_PATH_LEN
  {
    var line := IndexOf(file, '\n') + 1;
    if line <= |file| && line < MAX_PATH_LEN then line
    else if |file| < MAX_PATH_LEN then |file|
    else MAX_PATH_LEN - 1
  }

  function Chunks(file: string): seq<string> {
    if file == "" then [] else [file[..ChunkLen(file)]] + Chunks(file[ChunkLen(file)..])
  }

  function Concatenated(ps: seq<string>): string {
    if ps == [] then "" else ps[0] + Concatenated(ps[1..])
  }

  predicate FitsBuffer(s: string) { 0 < |s| < MAX_PATH_LEN }

  predicate AllFitBuffer(ps: seq<string>) { ps != [] ==> FitsBuffer(ps[0]) && AllFitBuffer(ps[1..]) }

  lemma {:induction false} ChunksAreLossless(file: string)
    ensures Concatenated(Chunks(file)) == file && AllFitBuffer(Chunks(file))
    decreases |file|
  {
    if file != "" {
      var n := ChunkLen(file);
      ChunksAreLossless(file[n..]);
      FirstChunk(file[..n], Chunks(file[n..]));
      assert file[..n] + file[n..] == file;
    }
  }

  lemma FirstChunk(c: string, ps: seq<string>)
    ensures Concatenated([c] + ps) == c + Concatenated(ps)
    ensures AllFitBuffer([c] + ps) <==> FitsBuffer(c) && AllFitBuffer(ps)
  {
    assert ([c] + ps)[1..] == ps;
  }

  // ---------------------------------------------------------------- the loop

  /** What is written: the rewritten chunks up to the first failure. */
  function Written(rw: Rewriter, chunks: seq<string>, stale: string): string
    requires Ready(rw)
  {
    if chunks == [] then ""
    else match LineOf(rw, chunks[0], stale)
      case Fail(_) => ""
      case Ok(text) => text + Written(rw, chunks[1..], text)
  }

  /** One turn of the loop. */
  lemma WriteStep(rw: Rewriter, rest: string, stale: string)
    requires Ready(rw) && rest != ""
    ensures var n := ChunkLen(rest);
            Written(rw, Chunks(rest), stale)
            == match LineOf(rw, rest[..n], stale)
               case Fail(_) => ""
               case Ok(text) => text + Written(rw, Chunks(rest[n..]), text)
  {
    assert Chunks(rest)[1..] == Chunks(rest[ChunkLen(rest)..]);
  }

  lemma Regroup(a: string, b: string, c: string)
    ensures a + (b + c) == (a + b) + c && a + "" == a
  {
  }

  /** `file` is None when it cannot be opened; `written` is None when the new file was not opened.
      A failing callback ends the loop, and the result is success all the same. */
  method ReplaceMatched(file: Option<string>, newFileOpens: bool, rw: Rewriter)
    returns (ret: Status, written: Option<string>)
    requires Ready(rw) && (file.Some? ==> IsCStr(file.value))
    ensures if !newFileOpens then ret == Unknown && written == None
            else if file.None? then ret == Unknown && written == Some("")
            else ret == Success && written == Some(Written(rw, Chunks(file.value), ""))
  {
    if !newFileOpens {
      return Unknown, None;
    }
    if file.None? {
      return Unknown, Some("");
    }
    var out := CopyChunks(file.value, rw);
    return Success, Some(out);
  }

  /** The loop over the chunks. */
  method CopyChunks(file: string, rw: Rewriter) returns (out: string)
    requires Ready(rw) && IsCStr(file)
    ensures out == Written(rw, Chunks(file), "")
  {
    var buf := new char[MAX_PATH_LEN];
    buf[0] := '\0';
    var rest := file;
    out := "";
    ghost var stale, todo := "", Written(rw, Chunks(file), "");
    while rest != ""
      invariant IsCStr(rest) && Holds(buf[..], stale)
      invariant todo == Written(rw, Chunks(rest), stale) && out + todo == Written(rw, Chunks(file), "")
      decreases |rest|
    {
      var n := ChunkLen(rest);
      WriteStep(rw, rest, stale);
      var ret := Call(rw, rest[..n], buf, stale);
      if ret != Success {
        Regroup(out, "", "");
        return;
      }
      stale := LineOf(rw, rest[..n], stale).text;
      todo := Written(rw, Chunks(rest[n..]), stale);
      Regroup(out, stale, todo);
      HoldsCStrOf(buf[..], stale);
      out := out + CStrOf(buf[..]);
      rest := rest[n..];
    }
  }

  // ---------------------------------------------------------------- when every callback succeeds

  /** The results of all calls, when they all succeed. */
  predicate AllOk(rw: Rewriter, chunks: seq<string>, stale: string)
    requires Ready(rw)
  {
    chunks != [] ==> LineOf(rw, chunks[0], stale).Ok? && AllOk(rw, chunks[1..], LineOf(rw, chunks[0], stale).text)
  }

  function Texts(rw: Rewriter, chunks: seq<string>, stale: string): (r: seq<string>)
    requires Ready(rw) && AllOk(rw, chunks, stale)
    ensures |r| == |chunks|
  {
    if chunks == [] then []
    else var text := LineOf(rw, chunks[0], stale).text; [text] + Texts(rw, chunks[1..], text)
  }

  /** Nothing is lost: the output is the rewritten chunks, one behind the other. */
  lemma {:induction false} WrittenIsAllTexts(rw: Rewriter, chunks: seq<string>, stale: string)
    requires Ready(rw) && AllOk(rw, chunks, stale)
    ensures Written(rw, chunks, stale) == Concatenated(Texts(rw, chunks, stale))
    decreases |chunks|
  {
    if chunks != [] {
      var text := LineOf(rw, chunks[0], stale).text;
      WrittenIsAllTexts(rw, chunks[1..], text);
      assert Texts(rw, chunks, stale)[1..] == Texts(rw, chunks[1..], text);
    }
  }

  predicate Untouched(rw: Rewriter, line: string)
    requires Ready(rw)
  {
    match rw
    case Cfg(root, was, be) => CfgForms(root, was, be) && CfgPick(root, was, line).OtherLine?
    case Fstab(efi, boot, be) => FstabForms(efi, boot, be) && FstabMatch(line, efi, boot).None?
    case Loader(be) => 18 + |be| < MAX_PATH_LEN && LoaderMatch(line).None?
  }

  predicate AllUntouched(rw: Rewriter, ps: seq<string>)
    requires Ready(rw)
  {
    ps != [] ==> Untouched(rw, ps[0]) && AllUntouched(rw, ps[1..])
  }

  lemma {:induction false} UntouchedChunksAreCopied(rw: Rewriter, ps: seq<string>, stale: string)
    requires Ready(rw) && AllUntouched(rw, ps) && AllFitBuffer(ps)
    ensures Written(rw, ps, stale) == Concatenated(ps)
    decreases |ps|
  {
    if ps != [] {
      assert LineOf(rw, ps[0], stale) == Ok(ps[0]);
      UntouchedChunksAreCopied(rw, ps[1..], ps[0]);
    }
  }

  /** A file in which nothing matches is copied byte for byte. */
  lemma {:induction false} UntouchedFileIsCopied(rw: Rewriter, file: string)
    requires Ready(rw) && AllUntouched(rw, Chunks(file))
    ensures Written(rw, Chunks(file), "") == file
  {
    ChunksAreLossless(file);
    UntouchedChunksAreCopied(rw, Chunks(file), "");
  }

  // ---------------------------------------------------------------- lines stay lines

  predicate NoNewline(s: string) { forall i :: 0 <= i < |s| ==> s[i] != '\n' }

  /** Ends in a newline, its only one. */
  predicate IsLine(s: string) { s != "" && s[|s| - 1] == '\n' && NoNewline(s[..|s| - 1]) }

  /** Chunks that are whole lines; the last one may lack its newline. */
  predicate Lines(ps: seq<string>) {
    ps != [] ==>
      && 0 < |ps[0]| < MAX_PATH_LEN
      && (IsLine(ps[0]) || (|ps| == 1 && NoNewline(ps[0])))
      && Lines(ps[1..])
  }

  lemma IndexOfIs(s: string, c: char, n: nat)
    requires n <= |s| && (forall j :: 0 <= j < n ==> s[j] != c) && (n < |s| ==> s[n] == c)
    ensures IndexOf(s, c) == n
  {
  }

  /** Lines are read back as they were written. */
  lemma {:induction false} LinesRechunk(ps: seq<string>)
    requires Lines(ps)
    ensures Chunks(Concatenated(ps)) == ps
    decreases |ps|
  {
    if ps != [] {
      var file, tail := Concatenated(ps), Concatenated(ps[1..]);
      LinesRechunk(ps[1..]);
      var n := |ps[0]|;
      assert file[..n] == ps[0] && file[n..] == tail;
      if IsLine(ps[0]) {
        assert forall j :: 0 <= j < n - 1 ==> file[j] == ps[0][..n - 1][j];
        IndexOfIs(file, '\n', n - 1);
      } else {
        assert ps[1..] == [] && file == ps[0];
        IndexOfIs(file, '\n', n);
      }
      assert ChunkLen(file) == n;
      assert [ps[0]] + ps[1..] == ps;
    }
  }

  // ---------------------------------------------------------------- fstab files

  /** Exchanging an inner part of a line for text without a newline leaves a line. */
  lemma InnerExchange(line: string, a: nat, k: nat, mid: string)
    requires a <= k < |line| && NoNewline(mid)
    ensures var text := line[..a] + mid + line[k..];
            text != "" && (IsLine(line) ==> IsLine(text)) && (NoNewline(line) ==> NoNewline(text))
  {
    var text, e, b := line[..a] + mid + line[k..], |line| - 1, a + |mid|;
    forall i | 0 <= i < |text| - 1 && (IsLine(line) || NoNewline(line)) ensures text[i] != '\n' {
      if i < a { LineIndex(line, i); } else if i >= b { LineIndex(line, k + (i - b)); }
    }
    assert text[|text| - 1] == line[e];
  }

  lemma LineIndex(line: string, i: nat)
    requires i < |line| - 1 && (IsLine(line) || NoNewline(line))
    ensures line[i] != '\n'
  {
    if IsLine(line) {
      assert line[..|line| - 1][i] == line[i];
    }
  }

  /** A rewritten fstab line is a line, if the mountpoint is not empty. */
  lemma FstabKeepsLine(efi: string, boot: string, be: string, line: string)
    requires Name(efi) && Name(boot) && Name(be) && boot != "" && NoNewline(be)
    requires FstabLine(efi, boot, be, line).Ok? && line != ""
    ensures var text := FstabLine(efi, boot, be, line).text;
            && 0 < |text| < MAX_PATH_LEN && (IsLine(line) ==> IsLine(text)) && (NoNewline(line) ==> NoNewline(text))
  {
    FstabLineIsRewrite(efi, boot, be, line);
    if FstabMatch(line, efi, boot).Some? {
      var a, k := FstabCut(efi, boot, be, line);
      InnerExchange(line, a, k, be + "    ");
    }
  }

  lemma FstabCut(efi: string, boot: string, be: string, line: string) returns (a: nat, k: nat)
    requires PlainOrDot(efi) && PlainOrDot(boot) && boot != "" && FstabMatch(line, efi, boot).Some?
    ensures a <= k < |line| && FstabRewrite(efi, boot, be, line) == line[..a] + (be + "    ") + line[k..]
  {
    LastCoreIsLast(line, Lits(boot), |line|);
    var gs := FstabMatch(line, efi, boot).value.gs;
    a := |gs[0]|;
    k := LastCore(line, Lits(boot), |line|).value;
    assert gs[0] + be + "    " + gs[2] == gs[0] + (be + "    ") + gs[2];
  }

  lemma {:induction false} FstabTexts(efi: string, boot: string, a: string, b: string, chunks: seq<string>,
                                      stale: string, stale': string)
    requires Name(efi) && Name(boot) && Name(a) && Name(b) && boot != "" && NoNewline(a)
    requires Lines(chunks) && AllOk(Fstab(efi, boot, a), chunks, stale)
    ensures Lines(Texts(Fstab(efi, boot, a), chunks, stale))
    ensures Written(Fstab(efi, boot, b), Texts(Fstab(efi, boot, a), chunks, stale), stale')
            == Written(Fstab(efi, boot, b), chunks, stale')
    decreases |chunks|
  {
    if chunks != [] {
      var line, text := chunks[0], FstabLine(efi, boot, a, chunks[0]).text;
      FstabKeepsLine(efi, boot, a, line);
      FstabLastWriterWins(efi, boot, a, b, line);
      var rest := FstabLine(efi, boot, b, line);
      FstabTexts(efi, boot, a, b, chunks[1..], text, if rest.Ok? then rest.text else "");
      assert Texts(Fstab(efi, boot, a), chunks, stale)[1..] == Texts(Fstab(efi, boot, a), chunks[1..], text);
    }
  }

  /** Rewriting a whole fstab for BE `a`, and the result for `b`, gives the file that rewriting it for `b`
      gives, truncations included: the template a snapshot stores leads to the fstab of a direct create. */
  lemma FstabFileLastWriterWins(efi: string, boot: string, a: string, b: string, file: string)
    requires Name(efi) && Name(boot) && Name(a) && Name(b) && boot != "" && NoNewline(a)
    requires Lines(Chunks(file)) && AllOk(Fstab(efi, boot, a), Chunks(file), "")
    ensures var stored := Written(Fstab(efi, boot, a), Chunks(file), "");
            Written(Fstab(efi, boot, b), Chunks(stored), "") == Written(Fstab(efi, boot, b), Chunks(file), "")
  {
    var rw := Fstab(efi, boot, a);
    WrittenIsAllTexts(rw, Chunks(file), "");
    FstabTexts(efi, boot, a, b, Chunks(file), "", "");
    LinesRechunk(Texts(rw, Chunks(file), ""));
  }

  // ---------------------------------------------------------------- loader.conf files

  /** The run behind `default` holds no newline. */
  lemma LoaderGroup(line: string)
    requires LoaderMatch(line).Some? && (IsLine(line) || NoNewline(line))
    ensures |LoaderMatch(line).value.gs| == 2 && NoNewline(LoaderMatch(line).value.gs[0])
  {
    var w, g := Lead(line, BLANK), LoaderMatch(line).value.gs[0];
    var f := Lead(line[w + 7..], LOADER_FILL);
    LeadIs(line[w + 7..], LOADER_FILL, f);
    AtIndex(line, "default", w, 6);
    forall i | 0 <= i < |g| ensures g[i] != '\n' {
      if i >= w + 7 {
        assert g[i] == line[w + 7..][i - (w + 7)];
      } else if i < w + 6 {
        LineIndex(line, i);
      }
    }
  }

  lemma EntryIsLine(g: string, a: string)
    requires NoNewline(g) && NoNewline(a)
    ensures IsLine(g + LoaderEntry(a))
  {
    var text := g + (NAMESPACE + "-" + a + ".conf");
    assert g + LoaderEntry(a) == text + "\n";
    NewlineEnds(text);
  }

  /** A rewritten loader.conf line is a line. */
  lemma LoaderKeepsLine(a: string, line: string, stale: string)
    requires Name(a) && NoNewline(a) && 18 + |a| < MAX_PATH_LEN && line != ""
    requires LoaderLine(a, line, stale).Ok? && (IsLine(line) || NoNewline(line))
    ensures var text := LoaderLine(a, line, stale).text;
            0 < |text| < MAX_PATH_LEN && (IsLine(text) || (NoNewline(line) && NoNewline(text)))
  {
    LoaderLineIsRewrite(a, line, stale);
    if LoaderMatch(line).Some? {
      LoaderGroup(line);
      EntryIsLine(LoaderMatch(line).value.gs[0], a);
    }
  }

  /** A name that fits the template leaves nothing of what the buffer held. */
  lemma LoaderIsFresh(a: string, line: string, stale: string, stale': string)
    requires NoBackslash(a) && 18 + |a| < MAX_PATH_LEN
    ensures LoaderLine(a, line, stale) == LoaderLine(a, line, stale')
  {
    LoaderLineIsRewrite(a, line, stale);
    LoaderLineIsRewrite(a, line, stale');
  }

  lemma {:induction false} LoaderTexts(a: string, b: string, chunks: seq<string>, stale: string, stale': string)
    requires Name(a) && Name(b) && NoNewline(a) && 18 + |a| < MAX_PATH_LEN && 18 + |b| < MAX_PATH_LEN
    requires Lines(chunks) && AllOk(Loader(a), chunks, stale)
    ensures Lines(Texts(Loader(a), chunks, stale))
    ensures Written(Loader(b), Texts(Loader(a), chunks, stale), stale') == Written(Loader(b), chunks, stale')
    decreases |chunks|
  {
    if chunks != [] {
      var line, text := chunks[0], LoaderLine(a, chunks[0], stale).text;
      NextText(Loader(a), chunks, stale);
      LoaderKeepsLine(a, line, stale);
      LoaderLastWriterWins(a, b, line, stale);
      LoaderIsFresh(b, text, stale, stale');
      LoaderIsFresh(b, line, stale, stale');
      var rest := LoaderLine(b, line, stale');
      LoaderTexts(a, b, chunks[1..], text, if rest.Ok? then rest.text else "");
    }
  }

  /** Activating BE `a` and then `b` leaves the loader.conf that activating `b` alone leaves. */
  lemma LoaderFileLastWriterWins(a: string, b: string, file: string)
    requires Name(a) && Name(b) && NoNewline(a) && 18 + |a| < MAX_PATH_LEN && 18 + |b| < MAX_PATH_LEN
    requires Lines(Chunks(file)) && AllOk(Loader(a), Chunks(file), "")
    ensures var once := Written(Loader(a), Chunks(file), "");
            Written(Loader(b), Chunks(once), "") == Written(Loader(b), Chunks(file), "")
  {
    WrittenIsAllTexts(Loader(a), Chunks(file), "");
    LoaderTexts(a, b, Chunks(file), "", "");
    LinesRechunk(Texts(Loader(a), Chunks(file), ""));
  }

  // ---------------------------------------------------------------- boot entries

  lemma OptionsPlace(root: string, was: string, line: string)
    requires OptionsMatch(line, root, was).Some?
    ensures var m := OptionsMatch(line, root, was).value; |m.gs| == 3 && At(line, was, m.start + |m.gs[0]|)
  {
    var pre := DatasetPre(root);
    HeadSplices(line, "options", pre, Lits(was));
    var m := OptionsMatch(line, root, was).value;
    var n := m.start + |m.gs[0]|;
    CoreSplit(line, pre, Lits(was), n - |pre|);
    LitsAt(line, was, n);
  }

  ghost predicate TitleBefore(line: string, limit: nat) { exists i: nat :: HeadAt(line, ["title"], i, limit) }

  /** A title whose name can be the last characters of the line, a dot standing for the newline. */
  ghost predicate NameTakesEnd(was: string, line: string) {
    |was| <= |line| && CoreAt(line, NameItems(was), |line| - |was|) && TitleBefore(line, |line| - |was|)
  }

  /** Only a dot can stand for it. */
  lemma EndIsDot(was: string, line: string)
    requires was != "" && NoNewline(was) && IsLine(line) && NameTakesEnd(was, line)
    ensures was[|was| - 1] == '.'
  {
    var s, k := line[|line| - |was|..|line| - |was| + |was|], |was| - 1;
    OnesMatch(NameItems(was), s);
    assert Accepts(NameItems(was)[k].atom, s[k]);
  }

  /** Then, and only then, a title's name is found there. */
  lemma TitlePlace(root: string, was: string, line: string)
    requires PlainOrDot(root) && PlainOrDot(was)
    ensures CfgPick(root, was, line).TitleLine? ==>
              && HasCut(CfgPick(root, was, line))
              && (NameTakesEnd(was, line) <==> NamePlace(CfgPick(root, was, line)) + |was| == |line|)
    ensures NameTakesEnd(was, line) ==> CfgPick(root, was, line).TitleLine?
  {
    var core := NameItems(was);
    assert Lits("") + core == core;
    LocateIsBest(line, ["title"], core);
    if TitleMatch(line, was).Some? {
      HeadSplices(line, "title", "", core);
      var (i, k) := Locate(line, ["title"], core).value;
      assert NamePlace(CfgPick(root, was, line)) == k;
    }
  }

  /** The parts of a rewritten entry line around the name. */
  lemma CfgParts(root: string, was: string, be: string, line: string)
    requires PlainOrDot(root) && PlainOrDot(was) && !CfgPick(root, was, line).OtherLine?
    ensures HasCut(CfgPick(root, was, line))
    ensures var i, n := CfgPick(root, was, line).m.start, NamePlace(CfgPick(root, was, line));
            && i < n <= n + |was| <= |line|
            && CfgRewrite(root, was, be, line) == line[i..n] + be + line[n + |was|..]
  {
    RewriteIsSplice(root, was, be, line);
    PickShape(root, was, line);
  }

  /** On linux and options lines the name stands as it is. */
  lemma NameIsLiteral(root: string, was: string, line: string)
    requires PlainOrDot(root) && PlainOrDot(was) && was != "" && NoNewline(was)
    requires !CfgPick(root, was, line).OtherLine? && !CfgPick(root, was, line).TitleLine?
    ensures HasCut(CfgPick(root, was, line))
    ensures var n := NamePlace(CfgPick(root, was, line)); n + |was| <= |line| && line[n + |was| - 1] != '\n'
  {
    if CfgPick(root, was, line).LinuxLine? {
      LinuxPlace(root, was, line);
      LinuxCoreSplit(line, was, NamePlace(CfgPick(root, was, line)) - 10);
    } else {
      OptionsPlace(root, was, line);
    }
    AtIndex(line, was, NamePlace(CfgPick(root, was, line)), |was| - 1);
  }

  lemma TitleKeepsLine(root: string, was: string, be: string, line: string)
    requires PlainOrDot(root) && PlainOrDot(was) && was != "" && NoNewline(was) && NoNewline(be) && IsLine(line)
    requires CfgPick(root, was, line).TitleLine?
    ensures var text := CfgRewrite(root, was, be, line);
            text != "" && (if NameTakesEnd(was, line) then NoNewline(text) && !IsLine(text) else IsLine(text))
  {
    TitlePlace(root, was, line);
    CfgParts(root, was, be, line);
    var pick := CfgPick(root, was, line);
    var n := NamePlace(pick);
    if n + |was| < |line| { LineIndex(line, n + |was| - 1); }
    SpliceKeepsLine(line, pick.m.start, n, was, be);
  }

  lemma LiteralKeepsLine(root: string, was: string, be: string, line: string)
    requires PlainOrDot(root) && PlainOrDot(was) && was != "" && NoNewline(was) && NoNewline(be) && IsLine(line)
    requires !CfgPick(root, was, line).OtherLine? && !CfgPick(root, was, line).TitleLine?
    ensures CfgRewrite(root, was, be, line) != "" && IsLine(CfgRewrite(root, was, be, line))
  {
    CfgParts(root, was, be, line);
    NameIsLiteral(root, was, line);
    var pick := CfgPick(root, was, line);
    SpliceKeepsLine(line, pick.m.start, NamePlace(pick), was, be);
  }

  lemma RewriteIsText(root: string, was: string, be: string, line: string)
    requires PlainOrDot(root) && PlainOrDot(was) && was != "" && NoNewline(be) && line != ""
    ensures var text := CfgRewrite(root, was, be, line); text != "" && (NoNewline(line) ==> NoNewline(text))
  {
    var pick := CfgPick(root, was, line);
    if !pick.OtherLine? {
      CfgParts(root, was, be, line);
      SpliceKeepsLine(line, pick.m.start, NamePlace(pick), was, be);
    }
  }

  /** A rewritten entry line is a line exactly if it is no title whose name takes in the newline. */
  lemma CfgKeepsLine(root: string, was: string, be: string, line: string)
    requires PlainOrDot(root) && PlainOrDot(was) && was != "" && NoNewline(was) && NoNewline(be) && line != ""
    ensures var text := CfgRewrite(root, was, be, line);
            && text != "" && (NoNewline(line) ==> NoNewline(text))
            && (IsLine(line) ==> (IsLine(text) <==> !NameTakesEnd(was, line)))
            && (IsLine(line) && NameTakesEnd(was, line) ==> NoNewline(text))
  {
    RewriteIsText(root, was, be, line);
    if IsLine(line) {
      if CfgPick(root, was, line).TitleLine? {
        TitleKeepsLine(root, was, be, line);
      } else {
        TitlePlace(root, was, line);
        if !CfgPick(root, was, line).OtherLine? { LiteralKeepsLine(root, was, be, line); }
      }
    }
  }

  lemma SpliceKeepsLine(line: string, i: nat, n: nat, was: string, be: string)
    requires i < n <= n + |was| <= |line| && was != "" && NoNewline(be)
    ensures var text := line[i..n] + be + line[n + |was|..];
            && text != "" && (NoNewline(line) ==> NoNewline(text))
            && (IsLine(line) && line[n + |was| - 1] != '\n' ==> IsLine(text))
            && (IsLine(line) && n + |was| == |line| ==> NoNewline(text) && !IsLine(text))
  {
    var text, m, k := line[i..n] + be + line[n + |was|..], n - i + |be|, n + |was|;
    if IsLine(line) {
      assert k < |line| ==> text[|text| - 1] == line[|line| - 1];
      forall j | 0 <= j < |text| && (j < |text| - 1 || k == |line|) ensures text[j] != '\n' {
        if j < n - i { LineIndex(line, i + j); } else if j >= m { LineIndex(line, k + (j - m)); }
      }
    }
  }

  lemma TitleOfDot(line: string)
    requires line == "title b\n"
    ensures TitleMatch(line, "b.") == Some(RMatch(0, [line[..6], line[6..8], line[8..]]))
  {
    OnesMatch(NameItems("b."), line[6..8]);
    assert line == "title " + ['b'] + "\n";
    OneTitle("title ", "b.", "\n", line);
  }

  lemma NewlineEnds(line: string)
    requires NoNewline(line)
    ensures IsLine(line + "\n") && !IsLine(line)
  {
    assert (line + "\n")[..|line|] == line;
    assert line != "" ==> line[|line| - 1] != '\n';
  }

  /** Such a line: in `title b` of the environment `b.` the dot is taken for the newline, which is lost. */
  lemma DotTakesNewline(root: string, line: string)
    requires PlainOrDot(root) && line == "title b\n"
    ensures PlainOrDot("b.") && IsLine(line)
    ensures CfgRewrite(root, "b.", "c", line) == "title c" && !IsLine("title c")
  {
    TitleOfDot(line);
    assert line == "title b" + "\n";
    NewlineEnds("title b");
    NewlineEnds("title c");
    assert line[..6] + "c" + line[8..] == "title c";
  }

  lemma NextText(rw: Rewriter, chunks: seq<string>, stale: string)
    requires Ready(rw) && chunks != [] && AllOk(rw, chunks, stale)
    ensures var text := LineOf(rw, chunks[0], stale).text;
            AllOk(rw, chunks[1..], text)
            && Texts(rw, chunks, stale)[0] == text && Texts(rw, chunks, stale)[1..] == Texts(rw, chunks[1..], text)
  {
  }

  /** The stored line is a line, but for one whose name takes in its newline. */
  lemma CfgStored(root: string, was: string, line: string)
    requires Name(root) && Name(was) && was != "" && NoNewline(was) && line != ""
    requires CfgLine(root, was, MARK, line).Ok?
    ensures var text := CfgLine(root, was, MARK, line).text;
            && 0 < |text| < MAX_PATH_LEN && (NoNewline(line) ==> NoNewline(text))
            && (IsLine(line) ==> if NameTakesEnd(was, line) then NoNewline(text) else IsLine(text))
  {
    StoredIsRewrite(root, was, line);
    CfgKeepsLine(root, was, MARK, line);
    CfgOkFits(root, was, MARK, line);
  }

  /** The second pass reads back the lines of the first and restores each of them, up to the first that
      fails. */
  lemma {:induction false} CfgTexts(root: string, was: string, be: string, chunks: seq<string>,
                                    stale: string, stale': string)
    requires Name(root) && Name(was) && Name(be) && was != "" && NoNewline(was)
    requires Lines(chunks) && forall i :: 0 <= i < |chunks| ==> NoPercent(chunks[i]) && !SeamTakesName(root, was, be, chunks[i])
    requires forall i :: 0 <= i < |chunks| - 1 ==> !NameTakesEnd(was, chunks[i])
    requires Ready(Cfg(root, was, MARK)) && Ready(Cfg(root, MARK, be))
    requires AllOk(Cfg(root, was, MARK), chunks, stale)
    ensures Lines(Texts(Cfg(root, was, MARK), chunks, stale))
    ensures Written(Cfg(root, MARK, be), Texts(Cfg(root, was, MARK), chunks, stale), stale')
            == Written(Cfg(root, was, be), chunks, stale')
    decreases |chunks|
  {
    if chunks != [] {
      var line, rw := chunks[0], Cfg(root, was, MARK);
      var text := CfgLine(root, was, MARK, line).text;
      NextText(rw, chunks, stale);
      CfgStored(root, was, line);
      CallbackRoundTrip(root, was, be, line);
      var direct := CfgLine(root, was, be, line);
      CfgTexts(root, was, be, chunks[1..], text, if direct.Ok? then direct.text else "");
    }
  }

  lemma CfgOkFits(root: string, was: string, be: string, line: string)
    requires PlainOrDot(root) && PlainOrDot(was) && NoBackslash(be) && !TitleSeam(root, was, be, line)
    requires CfgLine(root, was, be, line).Ok?
    ensures |CfgLine(root, was, be, line).text| < MAX_PATH_LEN
  {
    CfgLineIsRewrite(root, was, be, line);
    PickShape(root, was, line);
  }

  /** Snapshot and create: once an entry file without `%` is stored, filling in the template gives, byte for
      byte and truncations included, the entry that a direct create from the same BE gives, if no seam takes
      in the name and none but the last line lets the name take its newline. */
  lemma EntryFileRoundTrip(root: string, was: string, be: string, file: string)
    requires Name(root) && Name(was) && Name(be) && was != "" && NoNewline(was)
    requires Lines(Chunks(file))
    requires forall i :: 0 <= i < |Chunks(file)| ==> NoPercent(Chunks(file)[i]) && !SeamTakesName(root, was, be, Chunks(file)[i])
    requires forall i :: 0 <= i < |Chunks(file)| - 1 ==> !NameTakesEnd(was, Chunks(file)[i])
    requires Ready(Cfg(root, was, MARK)) && Ready(Cfg(root, MARK, be))
    requires AllOk(Cfg(root, was, MARK), Chunks(file), "")
    ensures var stored := Written(Cfg(root, was, MARK), Chunks(file), "");
            Written(Cfg(root, MARK, be), Chunks(stored), "") == Written(Cfg(root, was, be), Chunks(file), "")
  {
    var rw := Cfg(root, was, MARK);
    WrittenIsAllTexts(rw, Chunks(file), "");
    CfgTexts(root, was, be, Chunks(file), "", "");
    LinesRechunk(Texts(rw, Chunks(file), ""));
  }
}
