/** `libze_util_regex_subexpr_replace`: expansion of `\1`..`\9` in place, inside one fixed buffer. */
module GroupExpansion {
  import opened CString

  const MAX_GROUPS: nat := 10      // LIBZE_UTIL_MAX_REGEX_GROUPS

  /** `regmatch_t`: the offsets of a group, or (-1, -1) when the group took no part in the match. */
  datatype Span = Span(so: int, eo: int)

  predicate ValidMatch(pmatch: seq<Span>, input: string) {
    && |pmatch| == MAX_GROUPS
    && forall i :: 0 <= i < MAX_GROUPS ==> pmatch[i] == Span(-1, -1) || 0 <= pmatch[i].so <= pmatch[i].eo <= |input|
  }

  /** The text of each group. */
  function Groups(pmatch: seq<Span>, input: string): (gs: seq<Option<string>>)
    requires ValidMatch(pmatch, input)
    ensures |gs| == MAX_GROUPS
  {
    seq(MAX_GROUPS, i requires 0 <= i < MAX_GROUPS =>
      if pmatch[i].so < 0 then None else Some(input[pmatch[i].so..pmatch[i].eo]))
  }

  predicate IsGroupDigit(c: char) { '0' < c <= '9' }

  function GroupIndex(c: char): (i: nat)
    requires IsGroupDigit(c)
    ensures 0 < i < MAX_GROUPS
  {
    c as int - 48
  }

  // ---------------------------------------------------------------- what the loop does, for every input

  datatype Outcome =
    | Done(text: string)         // LIBZE_ERROR_SUCCESS
    | NoGroup(text: string)      // LIBZE_ERROR_UNKNOWN: the group took no part in the match
    | TooLong(text: string)      // LIBZE_ERROR_MAXPATHLEN
    | Underflow                  // the cursor leaves the front of the buffer

  predicate IsRefAt(text: string, pos: nat) {
    pos + 1 < |text| && text[pos] == '\\' && IsGroupDigit(text[pos + 1])
  }

  /** The text with the reference at `pos` replaced. */
  function SplicedAt(text: string, pos: nat, group: string): string
    requires pos + 2 <= |text|
  {
    text[..pos] + group + text[pos + 2..]
  }

  /** The scan: the buffer holds `text` and the cursor stands at `pos`. After an expansion it stands on
      the last character put in, or, when the group was empty, on the character before the gap. */
  function Scan(text: string, pos: nat, gs: seq<Option<string>>, size: nat): Outcome
    requires pos <= |text| && |gs| == MAX_GROUPS
    decreases |text| - pos
  {
    if pos == |text| then Done(text)
    else if !IsRefAt(text, pos) then Scan(text, pos + 1, gs, size)
    else match gs[GroupIndex(text[pos + 1])]
      case None => NoGroup(text)
      case Some(group) =>
        if |text| + |group| - 1 > size then TooLong(text)
        else if pos + |group| == 0 then Underflow
        else Scan(SplicedAt(text, pos, group), pos + |group| - 1, gs, size)
  }

  // ---------------------------------------------------------------- single-pass expansion

  /** The pure expansion: left to right, once; a group without a text counts as empty. */
  function Expand(template: string, gs: seq<Option<string>>): string
    requires |gs| == MAX_GROUPS
  {
    if template == "" then ""
    else if IsRefAt(template, 0) then TextOf(gs, template[1]) + Expand(template[2..], gs)
    else template[..1] + Expand(template[1..], gs)
  }

  function TextOf(gs: seq<Option<string>>, digit: char): string
    requires |gs| == MAX_GROUPS && IsGroupDigit(digit)
  {
    match gs[GroupIndex(digit)] case None => "" case Some(text) => text
  }

  /** Every group the template refers to took part in the match. */
  predicate AllTookPart(template: string, gs: seq<Option<string>>)
    requires |gs| == MAX_GROUPS
  {
    template != "" ==>
      if IsRefAt(template, 0) then gs[GroupIndex(template[1])].Some? && AllTookPart(template[2..], gs)
      else AllTookPart(template[1..], gs)
  }

  /** Every intermediate string, with its NUL, fits: `n` characters are done, `template` is to come. */
  predicate AllFit(n: nat, template: string, gs: seq<Option<string>>, size: nat)
    requires |gs| == MAX_GROUPS
    decreases |template|
  {
    template != "" ==>
      if IsRefAt(template, 0) then
        var m := n + |TextOf(gs, template[1])|;
        m + |template[2..]| < size && AllFit(m, template[2..], gs, size)
      else AllFit(n + 1, template[1..], gs, size)
  }

  /** No expansion leaves the cursor before the buffer, or on a backslash that a template digit follows. */
  predicate Seamless(done: string, template: string, gs: seq<Option<string>>)
    requires |gs| == MAX_GROUPS
    decreases |template|
  {
    template != "" ==>
      if IsRefAt(template, 0) then
        var now, rest := done + TextOf(gs, template[1]), template[2..];
        && now != ""
        && !(now[|now| - 1] == '\\' && rest != "" && IsGroupDigit(rest[0]))
        && Seamless(now, rest, gs)
      else Seamless(done + template[..1], template[1..], gs)
  }

  /** One reference expanded, and the cursor on from the last character put in. */
  lemma ScanRef(done: string, template: string, gs: seq<Option<string>>, size: nat)
    requires |gs| == MAX_GROUPS && IsRefAt(template, 0)
    requires var now, rest := done + TextOf(gs, template[1]), template[2..];
             now != "" && !(now[|now| - 1] == '\\' && rest != "" && IsGroupDigit(rest[0]))
    ensures var group, now, rest := gs[GroupIndex(template[1])], done + TextOf(gs, template[1]), template[2..];
            Scan(done + template, |done|, gs, size) ==
              if group.None? then NoGroup(done + template)
              else if |now| + |rest| >= size then TooLong(done + template)
              else Scan(now + rest, |now|, gs, size)
  {
    var text, pos, group := done + template, |done|, TextOf(gs, template[1]);
    var now, rest := done + group, template[2..];
    assert IsRefAt(text, pos) && text[pos + 1] == template[1];
    assert text[..pos] == done && text[pos + 2..] == rest;
    assert SplicedAt(text, pos, group) == now + rest;
    assert !IsRefAt(now + rest, |now| - 1);
  }

  lemma ScanPlain(done: string, template: string, gs: seq<Option<string>>, size: nat)
    requires |gs| == MAX_GROUPS && template != "" && !IsRefAt(template, 0)
    ensures Scan(done + template, |done|, gs, size) == Scan((done + template[..1]) + template[1..], |done| + 1, gs, size)
  {
    var text := done + template;
    assert |template| > 1 ==> text[|done| + 1] == template[1];
    assert !IsRefAt(text, |done|);
    assert (done + template[..1]) + template[1..] == text;
  }

  /** In place equals single-pass, error for error, as long as there is no seam. */
  lemma {:induction false} InPlaceIsSinglePass(done: string, template: string, gs: seq<Option<string>>, size: nat)
    requires |gs| == MAX_GROUPS && Seamless(done, template, gs)
    ensures AllTookPart(template, gs) && AllFit(|done|, template, gs, size)
            ==> Scan(done + template, |done|, gs, size) == Done(done + Expand(template, gs))
    ensures Scan(done + template, |done|, gs, size).Done? <==> AllTookPart(template, gs) && AllFit(|done|, template, gs, size)
    ensures AllTookPart(template, gs) && !AllFit(|done|, template, gs, size)
            ==> Scan(done + template, |done|, gs, size).TooLong?
    ensures !Scan(done + template, |done|, gs, size).Underflow?
    decreases |template|
  {
    if template == "" {
    } else if IsRefAt(template, 0) {
      var group := TextOf(gs, template[1]);
      var now, rest := done + group, template[2..];
      ScanRef(done, template, gs, size);
      InPlaceIsSinglePass(now, rest, gs, size);
      assert now + Expand(rest, gs) == done + (group + Expand(rest, gs));
    } else {
      ScanPlain(done, template, gs, size);
      InPlaceIsSinglePass(done + template[..1], template[1..], gs, size);
      assert done + template[..1] + Expand(template[1..], gs) == done + (template[..1] + Expand(template[1..], gs));
    }
  }

  lemma ScanExpands(text: string, pos: nat, gs: seq<Option<string>>, size: nat, group: string, next: string)
    requires |gs| == MAX_GROUPS && IsRefAt(text, pos) && gs[GroupIndex(text[pos + 1])] == Some(group)
    requires |text| + |group| - 1 <= size && pos + |group| > 0 && next == SplicedAt(text, pos, group)
    ensures Scan(text, pos, gs, size) == Scan(next, pos + |group| - 1, gs, size)
  {
  }

  const SEAM_GROUPS: seq<Option<string>> :=
    [Some("title \\old"), Some("title \\"), Some("old"), Some(""), None, None, None, None, None, None]

  lemma SeamExpanded()
    ensures Expand("\\12x\\3", SEAM_GROUPS) == "title \\2x"
  {
    var gs := SEAM_GROUPS;
    assert Expand("\\12x\\3", gs) == "title \\" + Expand("2x\\3", gs);
    assert Expand("2x\\3", gs) == "2" + Expand("x\\3", gs);
    assert Expand("x\\3", gs) == "x" + Expand("\\3", gs);
  }

  lemma SeamScanned()
    ensures Scan("\\12x\\3", 0, SEAM_GROUPS, MAX_PATH_LEN) == Done("title oldx")
  {
    var gs, n := SEAM_GROUPS, MAX_PATH_LEN;
    assert SplicedAt("\\12x\\3", 0, "title \\") == "title \\2x\\3";
    ScanExpands("\\12x\\3", 0, gs, n, "title \\", "title \\2x\\3");
    assert SplicedAt("title \\2x\\3", 6, "old") == "title oldx\\3";
    ScanExpands("title \\2x\\3", 6, gs, n, "old", "title oldx\\3");
    assert Scan("title oldx\\3", 8, gs, n) == Scan("title oldx\\3", 10, gs, n);
    assert SplicedAt("title oldx\\3", 10, "") == "title oldx";
    ScanExpands("title oldx\\3", 10, gs, n, "", "title oldx");
  }

  /** A seam does damage: the title line of a BE entry, `title \old`, filled in for a BE named `2x`. */
  lemma SeamBreaksExpansion()
    ensures Expand("\\12x\\3", SEAM_GROUPS) == "title \\2x"
    ensures Scan("\\12x\\3", 0, SEAM_GROUPS, MAX_PATH_LEN) == Done("title oldx")
  {
    SeamExpanded();
    SeamScanned();
  }

  // ---------------------------------------------------------------- the imperative routine

  /** What `strlcpy(output, replace, replaceBuflen)` makes of the template. */
  function Template(replace: string, replaceBuflen: nat): string
    requires replaceBuflen > 0
  {
    replace[..CopyLen(replace, replaceBuflen)]
  }

  /** The two `memmove`s: the tail with its NUL moves first, then the group's text goes into the gap. */
  method Splice(output: array<char>, pos: nat, group: string, ghost text: string)
    requires Holds(output[..], text) && IsCStr(group)
    requires pos + 2 <= |text| && |text| + |group| - 1 <= output.Length
    modifies output
    ensures Holds(output[..], SplicedAt(text, pos, group))
  {
    var n := StrLen(output, pos, text);
    ghost var before := output[..];
    MemMove(output, pos + |group|, pos + 2, n - 1);
    ghost var moved := output[..];
    CopyTo(output, pos, group);
    SpliceHolds(before, moved, output[..], text, pos, group);
  }

  /** The buffer before the moves, after the first and after the second. */
  lemma SpliceHolds(before: seq<char>, moved: seq<char>, after: seq<char>, text: string, pos: nat, group: string)
    requires Holds(before, text) && IsCStr(group) && |before| == |moved| == |after|
    requires pos + 2 <= |text| && |text| + |group| - 1 <= |after|
    requires var m, n := pos + |group|, |text| - pos - 1;
             && moved[m..m + n] == before[pos + 2..pos + 2 + n]
             && (forall i :: 0 <= i < m ==> moved[i] == before[i])
             && after[pos..m] == group
             && (forall i :: 0 <= i < pos || m <= i < |after| ==> after[i] == moved[i])
    ensures Holds(after, SplicedAt(text, pos, group))
  {
    var m, n := pos + |group|, |text| - pos - 1;
    forall i | m <= i < m + n ensures after[i] == before[i - |group| + 2] {
      assert moved[i] == moved[m..m + n][i - m] == before[pos + 2..pos + 2 + n][i - m];
    }
    var s := SplicedAt(text, pos, group);
    forall i | 0 <= i < |s| ensures after[i] == s[i] != '\0' {
      if pos <= i < m {
        assert after[i] == after[pos..m][i - pos];
      }
    }
  }

  /** `pmatch` is what `regexec` reports; `None` is REG_NOMATCH. */
  method SubexprReplace(pmatch: Option<seq<Span>>, replaceBuflen: nat, replace: string, input: string, output: array<char>)
    returns (ret: Status)
    requires IsCStr(replace) && IsCStr(input)
    requires 0 < replaceBuflen <= output.Length
    requires pmatch.Some? ==>
               && ValidMatch(pmatch.value, input)
               && !Scan(Template(replace, replaceBuflen), 0, Groups(pmatch.value, input), output.Length).Underflow?
    modifies output
    ensures var template := Template(replace, replaceBuflen);
            if |replace| >= output.Length then ret == MaxPathLen && Holds(output[..], template)
            else if pmatch.None? then ret == Success && Holds(output[..], template)
            else match Scan(template, 0, Groups(pmatch.value, input), output.Length)
              case Done(text) => ret == Success && Holds(output[..], text)
              case NoGroup(text) => ret == Unknown && Holds(output[..], text)
              case TooLong(text) => ret == MaxPathLen && Holds(output[..], text)
              case Underflow => false
  {
    var n := StrLCpyAt(output, 0, replace, replaceBuflen);
    ghost var text := Template(replace, replaceBuflen);
    assert output[0..0 + |text|] == text;
    assert Holds(output[..], text);
    if n >= output.Length {
      return MaxPathLen;
    }
    if pmatch.None? {
      return Success;
    }
    ghost var gs := Groups(pmatch.value, input);
    ghost var outcome := Scan(text, 0, gs, output.Length);
    var pos := 0;
    while output[pos] != '\0'
      invariant 0 <= pos <= |text| && Holds(output[..], text)
      invariant Scan(text, pos, gs, output.Length) == outcome
      decreases |text| - pos
    {
      if output[pos] != '\\' || !IsGroupDigit(output[pos + 1]) {
        pos := pos + 1;
        continue;
      }
      var index := output[pos + 1] as int - 48;
      var startOffset := pmatch.value[index].so;
      var len := pmatch.value[index].eo - startOffset;
      if startOffset < 0 {
        return Unknown;
      }
      n := StrLen(output, 0, text);
      if n + len - 1 > output.Length {
        return MaxPathLen;
      }
      Splice(output, pos, input[startOffset..startOffset + len], text);
      text := SplicedAt(text, pos, input[startOffset..startOffset + len]);
      pos := pos + len - 2;
      pos := pos + 1;
    }
    return Success;
  }
}
