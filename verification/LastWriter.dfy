/** fstab and loader.conf: rewriting for one BE and then for another is rewriting for the other. */
module LastWriter {
  import opened CString
  import opened Bre
  import opened BootPatterns
  import opened BootMatches
  import opened LineRewrite

  // ---------------------------------------------------------------- fstab

  /** A core behind the first `n` characters is a core behind any text put in their place. */
  lemma CoreMoves(x: string, y: string, core: seq<Item>, tail: string, j: nat)
    ensures CoreAt(x + tail, core, |x| + j) <==> CoreAt(y + tail, core, |y| + j)
  {
    if j + |core| <= |tail| {
      assert (x + tail)[|x| + j..|x| + j + |core|] == tail[j..j + |core|] == (y + tail)[|y| + j..|y| + j + |core|];
    }
  }

  lemma LastCoreMoves(x: string, y: string, core: seq<Item>, tail: string)
    requires LastCore(x + tail, core, |x + tail|) == Some(|x|)
    ensures LastCore(y + tail, core, |y + tail|) == Some(|y|)
  {
    LastCoreIsLast(x + tail, core, |x + tail|);
    LastCoreIsLast(y + tail, core, |y + tail|);
    CoreMoves(x, y, core, tail, 0);
    var r := LastCore(y + tail, core, |y + tail|);
    if r.Some? && r.value > |y| {
      CoreMoves(x, y, core, tail, r.value - |y|);
    }
  }

  /** The rewritten line is cut behind the same head and before the same mountpoint. */
  lemma FstabRematches(efi: string, boot: string, a: string, line: string)
    requires FstabMatch(line, efi, boot).Some?
    ensures |FstabMatch(line, efi, boot).value.gs| == 3
    ensures var gs := FstabMatch(line, efi, boot).value.gs;
            FstabMatch(gs[0] + a + "    " + gs[2], efi, boot) == Some(RMatch(0, [gs[0], a + "    ", gs[2]]))
  {
    var gs := FstabMatch(line, efi, boot).value.gs;
    LastCoreIsLast(line, Lits(boot), |line|);
    var k := LastCore(line, Lits(boot), |line|).value;
    assert line == line[..k] + gs[2];
    var mid := gs[0] + a + "    ";
    LastCoreMoves(line[..k], mid, Lits(boot), gs[2]);
    FstabRecut(efi, boot, line, gs[0], a + "    ", gs[2], mid + gs[2]);
    assert gs[0] + (a + "    ") + gs[2] == mid + gs[2];
  }

  lemma Cuts(x: string, y: string, z: string)
    ensures var s := x + y + z; s[..|x|] == x && s[|x|..|x| + |y|] == y && s[|x| + |y|..] == z && |x + y| == |x| + |y|
  {
  }

  lemma FstabRecut(efi: string, boot: string, line: string, g: string, x: string, tail: string, s: string)
    requires var w := HeadStart(line, FstabHead(efi));
             At(line, FstabHead(efi), w) && g == line[..w + |FstabHead(efi)|]
    requires s == g + x + tail && LastCore(s, Lits(boot), |s|) == Some(|g + x|)
    ensures FstabMatch(s, efi, boot) == Some(RMatch(0, [g, x, tail]))
  {
    Cuts(g, x, tail);
    FstabHeadKept(line, s, efi, |g|);
  }

  lemma SamePrefix(a: string, b: string, n: nat, i: nat)
    requires i < n <= |a| && n <= |b| && a[..n] == b[..n]
    ensures a[i] == b[i]
  {
    assert a[..n][i] == b[..n][i];
  }

  lemma FstabHeadKept(line: string, s: string, efi: string, n: nat)
    requires var w := HeadStart(line, FstabHead(efi)); At(line, FstabHead(efi), w) && n == w + |FstabHead(efi)|
    requires n <= |s| && s[..n] == line[..n]
    ensures HeadStart(s, FstabHead(efi)) == HeadStart(line, FstabHead(efi)) && At(s, FstabHead(efi), HeadStart(s, FstabHead(efi)))
  {
    var head, w := FstabHead(efi), HeadStart(line, FstabHead(efi));
    HeadHasNonBlank(efi);
    assert s[w..n] == s[..n][w..n] == line[..n][w..n] == line[w..n];
    LeadIs(line, BLANK, Lead(line, BLANK));
    forall i | 0 <= i < w ensures Accepts(BLANK, s[i]) {
      SamePrefix(s, line, n, i);
    }
    BlanksFixed(s, head, w);
  }

  /** Last writer wins, error results included: whatever BE the line was written for before, and
      whatever the line, the boot mountpoint and the name contain. */
  lemma FstabLastWriterWins(efi: string, boot: string, a: string, b: string, line: string)
    requires PlainOrDot(efi) && PlainOrDot(boot) && NoBackslash(a) && NoBackslash(b)
    requires FstabLine(efi, boot, a, line).Ok?
    ensures FstabLine(efi, boot, b, FstabLine(efi, boot, a, line).text) == FstabLine(efi, boot, b, line)
  {
    FstabLineIsRewrite(efi, boot, a, line);
    FstabLineIsRewrite(efi, boot, b, line);
    var stored := FstabRewrite(efi, boot, a, line);
    FstabLineIsRewrite(efi, boot, b, stored);
    if FstabMatch(line, efi, boot).Some? {
      FstabRematches(efi, boot, a, line);
    }
  }

  // ---------------------------------------------------------------- loader.conf

  /** Blanks and `default` in front stay found whatever replaces what is behind them. */
  lemma DefaultKept(line: string, s: string, n: nat)
    requires At(line, "default", Lead(line, BLANK)) && Lead(line, BLANK) + 7 <= n <= |line|
    requires n <= |s| && s[..n] == line[..n]
    ensures Lead(s, BLANK) == Lead(line, BLANK) && At(s, "default", Lead(s, BLANK))
  {
    var w := Lead(line, BLANK);
    assert s[w..w + 7] == s[..n][w..w + 7] == line[..n][w..w + 7] == line[w..w + 7];
    AtIndex(s, "default", w, 0);
    LeadIs(line, BLANK, w);
    forall i | 0 <= i < w ensures Accepts(BLANK, s[i]) {
      SamePrefix(s, line, n, i);
    }
    LeadIs(s, BLANK, w);
  }

  /** The filling ends where the entry begins. */
  lemma FillKept(t: string, entry: string)
    requires entry != "" && entry[0] == 'o'
    ensures var f := Lead(t, LOADER_FILL); Lead(t[..f] + entry, LOADER_FILL) == f
  {
    var f := Lead(t, LOADER_FILL);
    LeadIs(t, LOADER_FILL, f);
    var u := t[..f] + entry;
    assert u[f] == 'o';
    forall i | 0 <= i < f ensures Accepts(LOADER_FILL, u[i]) {
      assert u[i] == t[i];
    }
    LeadIs(u, LOADER_FILL, f);
  }

  lemma LoaderRematches(a: string, line: string)
    requires LoaderMatch(line).Some?
    ensures |LoaderMatch(line).value.gs| == 2
    ensures var g := LoaderMatch(line).value.gs[0];
            LoaderMatch(g + LoaderEntry(a)) == Some(RMatch(0, [g, LoaderEntry(a)]))
  {
    var g, e, w := LoaderMatch(line).value.gs[0], LoaderEntry(a), Lead(line, BLANK);
    var s, t := g + e, line[w + 7..];
    var f := Lead(t, LOADER_FILL);
    assert s[..|g|] == g && s[|g|..] == e;
    DefaultKept(line, s, |g|);
    assert s[w + 7..] == t[..f] + e;
    FillKept(t, e);
  }

  /** Last writer wins for loader.conf, as long as both names fit the template. */
  lemma LoaderLastWriterWins(a: string, b: string, line: string, stale: string)
    requires NoBackslash(a) && NoBackslash(b) && 18 + |a| < MAX_PATH_LEN && 18 + |b| < MAX_PATH_LEN
    requires LoaderLine(a, line, stale).Ok?
    ensures LoaderLine(b, LoaderLine(a, line, stale).text, stale) == LoaderLine(b, line, stale)
  {
    LoaderLineIsRewrite(a, line, stale);
    LoaderLineIsRewrite(b, line, stale);
    var stored := LoaderRewrite(a, line);
    LoaderLineIsRewrite(b, stored, stale);
    if LoaderMatch(line).Some? {
      LoaderRematches(a, line);
    }
  }

  /** With a name of 237 characters and more, and only then, nothing of the line matters any more: the
      buffer keeps what it held, and the callback reports success. */
  lemma LongNameKeepsStaleLine(be: string)
    ensures 18 + |be| >= MAX_PATH_LEN <==> forall line: string, stale: string :: LoaderLine(be, line, stale) == Ok(stale)
  {
    if 18 + |be| < MAX_PATH_LEN {
      assert !At("", "default", Lead("", BLANK));
      assert LoaderLine(be, "", "x") == Ok("");
    }
  }

  lemma BlankOfFill(c: char)
    ensures Accepts(LOADER_FILL, c) ==> (Accepts(BLANK, c) <==> c == ' ')
    ensures !Accepts(BLANK, 't')
  {
  }

  /** The character before the entry is a blank exactly if the run is not empty and ends in a space. */
  lemma LastOfRun(line: string, key: nat, run: nat)
    requires key >= 7 && At(line, "default", key - 7) && key <= |line| && run == Lead(line[key..], LOADER_FILL)
    ensures Accepts(BLANK, line[key + run - 1]) <==> run > 0 && line[key + run - 1] == ' '
  {
    BlankOfFill(line[key + run - 1]);
    if run > 0 {
      LeadIs(line[key..], LOADER_FILL, run);
      assert line[key + run - 1] == line[key..][run - 1];
    } else {
      AtIndex(line, "default", key - 7, 6);
    }
  }

  lemma LastBefore(a: string, b: string, n: nat)
    requires 0 < n <= |a|
    ensures (a[..n] + b)[n - 1] == a[n - 1]
  {
  }

  lemma LoaderCut(be: string, line: string, n: nat)
    requires At(line, "default", Lead(line, BLANK))
    requires n == Lead(line, BLANK) + 7 + Lead(line[Lead(line, BLANK) + 7..], LOADER_FILL)
    ensures LoaderRewrite(be, line) == line[..n] + LoaderEntry(be)
  {
  }

  /** The separator between `default` and the entry survives exactly if the run of backslashes, `t`s and
      spaces behind `default` ends in a space: a tab is not part of the run and is lost with the value. */
  lemma LoaderSeparator(be: string, line: string, key: nat, run: nat)
    requires At(line, "default", Lead(line, BLANK)) && key == Lead(line, BLANK) + 7
    requires run == Lead(line[key..], LOADER_FILL)
    ensures LoaderRewrite(be, line) == line[..key + run] + LoaderEntry(be)
    ensures Accepts(BLANK, LoaderRewrite(be, line)[key + run - 1]) <==> run > 0 && line[key + run - 1] == ' '
  {
    LoaderCut(be, line, key + run);
    LastOfRun(line, key, run);
    LastBefore(line, LoaderEntry(be), key + run);
  }
}
