/** The fragment of POSIX basic regular expressions (POSIX.1-2017, Base Definitions, section 9.3) that
    the plugin writes, and the rule by which `regexec` chooses a match (section 9.1). */
module Bre {
  import opened CString
  import opened ReplaceString

  // ---------------------------------------------------------------- expressions

  datatype Atom = Lit(c: char) | Any | Class(chars: string)
  datatype Item = One(atom: Atom) | Star(atom: Atom)

  predicate Accepts(a: Atom, c: char) {
    match a
    case Lit(d) => c == d
    case Any => true
    case Class(chars) => c in chars
  }

  /** The strings a sequence of items matches, as a whole. */
  predicate ItemsMatch(items: seq<Item>, s: string)
    decreases |items|, |s|
  {
    if items == [] then s == ""
    else match items[0]
      case One(a) => s != "" && Accepts(a, s[0]) && ItemsMatch(items[1..], s[1..])
      case Star(a) =>
        || ItemsMatch(items[1..], s)
        || (s != "" && Accepts(a, s[0]) && ItemsMatch(items, s[1..]))
  }

  // ---------------------------------------------------------------- reading an expression

  predicate IsSpecial(c: char) { c == '.' || c == '[' || c == '\\' || c == '*' || c == '^' || c == '$' }

  predicate Plain(s: string) { forall i :: 0 <= i < |s| ==> !IsSpecial(s[i]) }

  /** Names whose only special character is the dot: every legal ZFS name is of this kind. */
  predicate PlainOrDot(s: string) { forall i :: 0 <= i < |s| && s[i] != '.' ==> !IsSpecial(s[i]) }

  function IndexOf(s: string, c: char): (i: nat)
    ensures i <= |s| && (i < |s| ==> s[i] == c) && forall j :: 0 <= j < i ==> s[j] != c
  {
    if s == "" || s[0] == c then 0 else 1 + IndexOf(s[1..], c)
  }

  /** The length of the atom an expression starts with; 0 outside the fragment. */
  function AtomLen(re: string): (n: nat)
    requires re != ""
    ensures n <= |re|
  {
    if re[0] == '.' then 1
    else if re[0] == '\\' then if |re| > 1 && IsSpecial(re[1]) then 2 else 0
    else if re[0] == '[' then
      var close := IndexOf(re, ']');
      if 1 < close < |re| && re[1] != '^' && '-' !in re[1..close] then close + 1 else 0
    else if IsSpecial(re[0]) then 0
    else 1
  }

  function AtomOf(re: string): Atom
    requires re != "" && AtomLen(re) > 0
  {
    if re[0] == '.' then Any
    else if re[0] == '\\' then Lit(re[1])
    else if re[0] == '[' then Class(re[1..AtomLen(re) - 1])
    else Lit(re[0])
  }

  /** An atom and the `*` behind it, if any. */
  function ItemLen(re: string): (n: nat)
    requires re != "" && AtomLen(re) > 0
    ensures 0 < n <= |re|
  {
    AtomLen(re) + (if AtomLen(re) < |re| && re[AtomLen(re)] == '*' then 1 else 0)
  }

  function ItemOf(re: string): Item
    requires re != "" && AtomLen(re) > 0
  {
    if ItemLen(re) > AtomLen(re) then Star(AtomOf(re)) else One(AtomOf(re))
  }

  function Prepend(item: Item, items: Option<seq<Item>>): Option<seq<Item>> {
    match items case None => None case Some(rest) => Some([item] + rest)
  }

  function Parse(re: string): Option<seq<Item>> {
    if re == "" then Some([])
    else if AtomLen(re) == 0 then None
    else Prepend(ItemOf(re), Parse(re[ItemLen(re)..]))
  }

  lemma ParseStarred(re: string, atom: Atom, rest: string)
    requires re != "" && AtomLen(re) > 0 && atom == AtomOf(re)
    requires AtomLen(re) < |re| && re[AtomLen(re)] == '*' && rest == re[AtomLen(re) + 1..]
    ensures rest == "" ==> Parse(re) == Some([Star(atom)])
  {
    assert [Star(atom)] + [] == [Star(atom)];
  }

  function Lits(t: string): (r: seq<Item>)
    ensures |r| == |t| && forall i :: 0 <= i < |t| ==> r[i] == One(Lit(t[i]))
  {
    seq(|t|, i requires 0 <= i < |t| => One(Lit(t[i])))
  }

  lemma LitsConcat(a: string, b: string)
    ensures Lits(a + b) == Lits(a) + Lits(b)
  {
  }

  lemma AtomInFront(a: string, b: string)
    requires a != "" && AtomLen(a) > 0
    ensures AtomLen(a + b) == AtomLen(a) && AtomOf(a + b) == AtomOf(a)
  {
    assert (a + b)[0] == a[0] && (|a| > 1 ==> (a + b)[1] == a[1]);
    if a[0] == '[' {
      assert (a + b)[IndexOf(a, ']')] == ']';
      assert IndexOf(a + b, ']') == IndexOf(a, ']');
      assert (a + b)[1..IndexOf(a, ']')] == a[1..IndexOf(a, ']')];
    }
  }

  lemma ItemInFront(a: string, b: string)
    requires a != "" && AtomLen(a) > 0 && (b != "" ==> b[0] != '*')
    ensures AtomLen(a + b) > 0 && ItemLen(a + b) == ItemLen(a) && ItemOf(a + b) == ItemOf(a)
    ensures (a + b)[ItemLen(a)..] == a[ItemLen(a)..] + b
  {
    AtomInFront(a, b);
  }

  lemma ParseBehind(a: string, b: string)
    requires a != "" && AtomLen(a) > 0 && (b != "" ==> b[0] != '*')
    ensures Parse(a + b) == Prepend(ItemOf(a), Parse(a[ItemLen(a)..] + b))
  {
    ItemInFront(a, b);
  }

  lemma PrependConcat(item: Item, a: seq<Item>, b: seq<Item>)
    ensures Prepend(item, Some(a + b)) == Some(([item] + a) + b)
  {
    assert [item] + (a + b) == ([item] + a) + b;
  }

  lemma {:induction false} ParseConcat(a: string, b: string)
    requires Parse(a).Some? && Parse(b).Some? && (b != "" ==> b[0] != '*')
    ensures Parse(a + b) == Some(Parse(a).value + Parse(b).value)
    decreases |a|
  {
    if a == "" {
      assert a + b == b && Parse(a).value + Parse(b).value == Parse(b).value;
    } else {
      ParseBehind(a, b);
      var rest := a[ItemLen(a)..];
      ParseConcat(rest, b);
      PrependConcat(ItemOf(a), Parse(rest).value, Parse(b).value);
    }
  }

  lemma {:induction false} ParsePlain(t: string)
    requires Plain(t)
    ensures Parse(t) == Some(Lits(t))
    decreases |t|
  {
    if t != "" {
      ParsePlain(t[1..]);
      LitsFirst(t);
    }
  }

  // ---------------------------------------------------------------- escaping dots

  /** The real routine's result for `.` and `\.`. */
  function Escape(name: string): string { ReplaceAll(name, ".", "\\.") }

  /** Escaping at most doubles a name. */
  lemma EscapeLength(name: string)
    ensures |name| <= |Escape(name)| <= 2 * |name|
    ensures IsCStr(name) ==> IsCStr(Escape(name))
  {
    ReplacementLength(name, ".", "\\.");
    if IsCStr(name) { ReplacementIsCStr(name, ".", "\\."); }
  }

  lemma {:induction false} StrStrShift(s: string, t: string, from: nat)
    requires s != ""
    ensures var r, q := StrStr(s, t, from + 1), StrStr(s[1..], t, from);
            if q.Some? then r == Some(q.value + 1) else r.None?
    decreases |s| - from
  {
    if from + 1 + |t| <= |s| {
      assert s[from + 1..from + 1 + |t|] == s[1..][from..from + |t|];
      StrStrShift(s, t, from + 1);
    }
  }

  lemma DotAt(s: string, i: nat)
    ensures At(s, ".", i) <==> i < |s| && s[i] == '.'
  {
    if i < |s| {
      assert s[i..i + 1] == [s[i]];
    }
  }

  lemma {:induction false} EscapeCharwise(name: string)
    ensures Escape(name) == if name == "" then "" else (if name[0] == '.' then "\\." else name[..1]) + Escape(name[1..])
  {
    if name != "" {
      DotAt(name, 0);
      if name[0] == '.' {
        assert StrStr(name, ".", 0) == Some(0);
      } else {
        StrStrShift(name, ".", 0);
        var r := StrStr(name, ".", 0);
        if r.Some? {
          var i := r.value;
          assert name[1..][i..] == name[i + 1..];
          assert name[..i] == name[..1] + name[1..][..i - 1];
        } else {
          assert name == name[..1] + name[1..];
        }
      }
    }
  }

  /** An escaped dot or a plain character is read as itself, whatever follows that is no star. */
  lemma ParseFirst(first: string, rest: string, c: char)
    requires if c == '.' then first == "\\." else first == [c] && Plain(first)
    requires rest != "" ==> rest[0] != '*'
    ensures Parse(first + rest) == Prepend(One(Lit(c)), Parse(rest))
  {
    var re := first + rest;
    assert re[0] == first[0] && (c == '.' ==> re[1] == '.');
    assert re[|first|..] == rest;
  }

  lemma EscapeHasNoStarInFront(name: string)
    requires PlainOrDot(name)
    ensures Escape(name) != "" ==> Escape(name)[0] != '*'
  {
    EscapeCharwise(name);
  }

  lemma LitsFirst(t: string)
    requires t != ""
    ensures Lits(t) == [One(Lit(t[0]))] + Lits(t[1..])
  {
  }

  /** Escaping is sound: the escaped name is read as the literal characters of the name. */
  lemma {:induction false} ParseEscaped(name: string)
    requires PlainOrDot(name)
    ensures Parse(Escape(name)) == Some(Lits(name))
    decreases |name|
  {
    EscapeCharwise(name);
    if name != "" {
      ParseEscaped(name[1..]);
      EscapeHasNoStarInFront(name[1..]);
      LitsFirst(name);
      ParseFirst(if name[0] == '.' then "\\." else name[..1], Escape(name[1..]), name[0]);
    }
  }

  /** A name that is not escaped: every dot stands for any character. */
  function NameItems(name: string): (r: seq<Item>)
    ensures |r| == |name| && AllOnes(r)
  {
    seq(|name|, i requires 0 <= i < |name| => One(if name[i] == '.' then Any else Lit(name[i])))
  }

  lemma {:induction false} ParseUnescaped(name: string)
    requires PlainOrDot(name)
    ensures Parse(name) == Some(NameItems(name))
    decreases |name|
  {
    if name != "" {
      ParseUnescaped(name[1..]);
      assert NameItems(name) == [NameItems(name)[0]] + NameItems(name[1..]);
    }
  }

  // ---------------------------------------------------------------- the languages of the fragment

  predicate AllOnes(items: seq<Item>) { forall i :: 0 <= i < |items| ==> items[i].One? }

  lemma {:induction false} OnesThen(ones: seq<Item>, rest: seq<Item>, s: string)
    requires AllOnes(ones)
    ensures ItemsMatch(ones + rest, s)
            <==> |ones| <= |s| && ItemsMatch(ones, s[..|ones|]) && ItemsMatch(rest, s[|ones|..])
    decreases |ones|
  {
    if ones == [] {
      assert ones + rest == rest;
    } else if s != "" {
      assert (ones + rest)[1..] == ones[1..] + rest;
      OnesThen(ones[1..], rest, s[1..]);
      if |ones| <= |s| {
        assert s[..|ones|][1..] == s[1..][..|ones| - 1];
        assert s[1..][|ones| - 1..] == s[|ones|..];
      }
    }
  }

  lemma {:induction false} OnesMatch(ones: seq<Item>, s: string)
    requires AllOnes(ones)
    ensures ItemsMatch(ones, s) <==> |s| == |ones| && forall i :: 0 <= i < |s| ==> Accepts(ones[i].atom, s[i])
    decreases |ones|
  {
    if ones != [] && s != "" {
      OnesMatch(ones[1..], s[1..]);
      assert (forall i :: 0 <= i < |s[1..]| && i < |ones[1..]| ==> Accepts(ones[1..][i].atom, s[1..][i]))
          <==> (forall i :: 1 <= i < |s| && i < |ones| ==> Accepts(ones[i].atom, s[i])) by {
        assert forall i :: 1 <= i < |s| && i < |ones| ==> ones[i] == ones[1..][i - 1] && s[i] == s[1..][i - 1];
      }
    }
  }

  /** Literal characters match exactly their own string. */
  lemma LitsMatch(t: string, s: string)
    ensures ItemsMatch(Lits(t), s) <==> s == t
  {
    OnesMatch(Lits(t), s);
  }

  lemma LitsThen(t: string, rest: seq<Item>, s: string)
    ensures ItemsMatch(Lits(t) + rest, s) <==> t <= s && ItemsMatch(rest, s[|t|..])
  {
    OnesThen(Lits(t), rest, s);
    if |t| <= |s| { LitsMatch(t, s[..|t|]); }
  }

  predicate AllAccepted(a: Atom, s: string) { forall i :: 0 <= i < |s| ==> Accepts(a, s[i]) }

  lemma {:induction false} StarThenIntro(a: Atom, rest: seq<Item>, s: string, k: nat)
    requires k <= |s| && AllAccepted(a, s[..k]) && ItemsMatch(rest, s[k..])
    ensures ItemsMatch([Star(a)] + rest, s)
    decreases k
  {
    assert ([Star(a)] + rest)[1..] == rest;
    if k == 0 {
      assert s[0..] == s;
    } else {
      assert Accepts(a, s[..k][0]);
      assert s[1..][..k - 1] == s[..k][1..] && s[1..][k - 1..] == s[k..];
      StarThenIntro(a, rest, s[1..], k - 1);
    }
  }

  lemma {:induction false} StarThenElim(a: Atom, rest: seq<Item>, s: string) returns (k: nat)
    requires ItemsMatch([Star(a)] + rest, s)
    ensures k <= |s| && AllAccepted(a, s[..k]) && ItemsMatch(rest, s[k..])
    decreases |s|
  {
    assert ([Star(a)] + rest)[1..] == rest;
    if ItemsMatch(rest, s) {
      k := 0;
      assert s[0..] == s;
    } else {
      var j := StarThenElim(a, rest, s[1..]);
      k := j + 1;
      assert s[1..][j..] == s[k..];
      assert forall i :: 1 <= i < k ==> s[..k][i] == s[1..][..j][i - 1];
    }
  }

  lemma AnyStarMatches(s: string)
    ensures ItemsMatch([Star(Any)], s)
  {
    assert [Star(Any)] == [Star(Any)] + [];
    StarThenIntro(Any, [], s, |s|);
  }

  lemma AnyStarThenTail(t: string, s: string)
    requires |t| <= |s| && s[|s| - |t|..] == t
    ensures ItemsMatch([Star(Any)] + Lits(t), s)
  {
    LitsMatch(t, s[|s| - |t|..]);
    StarThenIntro(Any, Lits(t), s, |s| - |t|);
  }

  /** Text that ends in a literal. */
  lemma AnyStarThenLits(t: string, s: string)
    ensures ItemsMatch([Star(Any)] + Lits(t), s) <==> |t| <= |s| && s[|s| - |t|..] == t
  {
    if ItemsMatch([Star(Any)] + Lits(t), s) {
      var k := StarThenElim(Any, Lits(t), s);
      LitsMatch(t, s[k..]);
    } else if |t| <= |s| && s[|s| - |t|..] == t {
      AnyStarThenTail(t, s);
    }
  }

  // ---------------------------------------------------------------- patterns and the choice of a match

  /** The alternatives of one parenthesised group. */
  type Group = seq<seq<Item>>

  /** Adjacent groups, with `^` before the first or `$` behind the last one where the source has them. */
  datatype Pattern = Pattern(atStart: bool, groups: seq<Group>, atEnd: bool)

  datatype RMatch = RMatch(start: nat, gs: seq<string>)

  /** The texts stand one behind the other in the line, from `start` on. */
  predicate Laid(line: string, start: nat, gs: seq<string>)
    decreases |gs|
  {
    gs != [] ==>
      var next := start + |gs[0]|;
      next <= |line| && line[start..next] == gs[0] && Laid(line, next, gs[1..])
  }

  function Total(gs: seq<string>): nat {
    if gs == [] then 0 else |gs[0]| + Total(gs[1..])
  }

  predicate GroupMatches(g: Group, s: string) {
    exists k :: 0 <= k < |g| && ItemsMatch(g[k], s)
  }

  /** `m` is one way to match the pattern somewhere in the line. */
  predicate Admits(p: Pattern, line: string, m: RMatch) {
    && |m.gs| == |p.groups|
    && m.start <= |line|
    && Laid(line, m.start, m.gs)
    && (p.atStart ==> m.start == 0)
    && (p.atEnd ==> m.start + Total(m.gs) == |line|)
    && forall i :: 0 <= i < |p.groups| ==> GroupMatches(p.groups[i], m.gs[i])
  }

  /** Leftmost, then longest, then the earlier groups longest. */
  predicate Preferred(a: RMatch, b: RMatch) {
    || a.start < b.start
    || (a.start == b.start &&
        (Total(a.gs) > Total(b.gs) || (Total(a.gs) == Total(b.gs) && EarlierLonger(a.gs, b.gs))))
  }

  predicate EarlierLonger(a: seq<string>, b: seq<string>) {
    a == [] || b == [] || |a[0]| > |b[0]| || (|a[0]| == |b[0]| && EarlierLonger(a[1..], b[1..]))
  }

  /** `r` is what `regexec` reports. */
  ghost predicate Reported(p: Pattern, line: string, r: Option<RMatch>) {
    match r
    case None => forall m :: !Admits(p, line, m)
    case Some(m) => Admits(p, line, m) && forall n :: Admits(p, line, n) ==> Preferred(m, n)
  }

  /** The first group whose length differs decides. */
  lemma {:induction false} FirstDifferenceDecides(a: seq<string>, b: seq<string>, i: nat)
    requires |a| == |b| && i <= |a|
    requires forall j :: 0 <= j < i ==> |a[j]| == |b[j]|
    requires i < |a| ==> |a[i]| > |b[i]|
    ensures EarlierLonger(a, b)
  {
    if i > 0 {
      FirstDifferenceDecides(a[1..], b[1..], i - 1);
    }
  }

  lemma {:induction false} SameCuts(line: string, start: nat, a: seq<string>, b: seq<string>)
    requires |a| == |b| && Laid(line, start, a) && Laid(line, start, b)
    requires EarlierLonger(a, b) && EarlierLonger(b, a)
    ensures a == b
    decreases |a|
  {
    if a != [] {
      SameCuts(line, start + |a[0]|, a[1..], b[1..]);
      assert a == [a[0]] + a[1..] && b == [b[0]] + b[1..];
    }
  }

  /** The rule leaves no choice. */
  lemma ReportedIsUnique(p: Pattern, line: string, r: Option<RMatch>, r': Option<RMatch>)
    requires Reported(p, line, r) && Reported(p, line, r')
    ensures r == r'
  {
    if r.Some? && r'.Some? {
      SameCuts(line, r.value.start, r.value.gs, r'.value.gs);
    }
  }
}
