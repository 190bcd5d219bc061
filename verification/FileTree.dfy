/** Recursive copy and removal of directories. A path is the list of its components from the root; it is
    as long as its text, with a slash in front of every component. System calls may fail at any time. */
module FileTree {
  import opened CString
  import opened Names

  type Path = seq<string>

  datatype Node = Dir | File(content: string)

  type Nodes = map<Path, Node>

  function Parent(p: Path): Path
    requires p != []
  {
    p[..|p| - 1]
  }

  function PathLen(p: Path): nat {
    if p == [] then 0 else PathLen(p[..|p| - 1]) + 1 + |p[|p| - 1]|
  }

  function Get(nodes: Nodes, p: Path): Option<Node> {
    if p in nodes then Some(nodes[p]) else None
  }

  predicate IsDir(nodes: Nodes, p: Path) { p in nodes && nodes[p].Dir? }

  /** Every entry stands in a directory. */
  ghost predicate Tree(nodes: Nodes) {
    forall p {:trigger Parent(p)} :: p in nodes && p != [] ==> IsDir(nodes, Parent(p))
  }

  /** The entries `readdir` delivers. */
  datatype Entry = Dot | DotDot | Child(name: string)

  function EntryName(e: Entry): string {
    match e case Dot => "." case DotDot => ".." case Child(name) => name
  }

  /** The name an entry adds, if it is not "." or "..". */
  function Named(e: Entry): set<string> {
    match e case Child(name) => {name} case _ => {}
  }

  function ChildNames(nodes: Nodes, dir: Path): set<string> {
    set p | p in nodes && |p| == |dir| + 1 && dir <= p :: p[|dir|]
  }

  function Entries(names: set<string>): (r: set<Entry>)
    ensures Pending(names, {}, r) && Dot in r && DotDot in r
  {
    {Dot, DotDot} + set n | n in names :: Child(n)
  }

  /** What is still to be delivered, besides "." and "..", is every name that is not done. */
  ghost predicate Pending(names: set<string>, done: set<string>, todo: set<Entry>) {
    && done <= names
    && (forall n {:trigger Child(n)} :: n in names ==> n in done || Child(n) in todo)
    && (forall e {:trigger Named(e)} :: e in todo ==> Named(e) <= names - done)
  }

  lemma PendingStep(names: set<string>, done: set<string>, todo: set<Entry>, e: Entry)
    requires Pending(names, done, todo) && e in todo
    ensures Pending(names, done + Named(e), todo - {e})
  {
    forall n | n in names ensures n in done + Named(e) || Child(n) in todo - {e} {
      assert n in done || Child(n) in todo;
    }
    forall d | d in todo - {e} ensures Named(d) <= names - (done + Named(e)) {
    }
  }

  lemma PendingEnd(names: set<string>, done: set<string>, todo: set<Entry>)
    requires Pending(names, done, todo) && todo == {}
    ensures done == names
  {
    forall n | n in names ensures n in done {
      assert n in done || Child(n) in todo;
    }
  }

  lemma {:induction false} PrefixExists(nodes: Nodes, p: Path, n: nat)
    requires Tree(nodes) && p in nodes && n <= |p|
    ensures p[..n] in nodes && (n < |p| ==> IsDir(nodes, p[..n]))
    decreases |p|
  {
    if n < |p| {
      var parent := Parent(p);
      PrefixExists(nodes, parent, n);
      assert parent[..n] == p[..n];
    } else {
      assert p[..n] == p;
    }
  }

  /** Below a directory, the first component is one of its names. */
  lemma FirstName(nodes: Nodes, dir: Path, p: Path)
    requires Tree(nodes) && p in nodes && dir <= p && |p| > |dir|
    ensures p[|dir|] in ChildNames(nodes, dir)
  {
    PrefixExists(nodes, p, |dir| + 1);
    assert p[..|dir| + 1][|dir|] == p[|dir|];
  }

  // ---------------------------------------------------------------- what a copy means

  /** The path below `to` that stands where `p` stands below `from`. */
  function Moved(to: Path, from: Path, p: Path): Path
    requires from <= p
  {
    to + p[|from|..]
  }

  /** `p` is overlaid: `dst` itself when `made`, and what lies below the names in `done`. */
  predicate Overlaid(nodes: Nodes, src: Path, dst: Path, names: set<string>, made: bool, p: Path) {
    && dst <= p
    && (if |p| == |dst| then made else p[|dst|] in names)
    && Moved(src, dst, p) in nodes
  }

  /** What stands at `p` came from the source: the same, or, for a file in `torn`, a part of its content. */
  predicate LaidOver(before: Nodes, after: Nodes, src: Path, dst: Path, torn: set<Path>, p: Path)
    requires dst <= p
  {
    var q := Moved(src, dst, p);
    || Get(after, p) == Get(before, q)
    || (&& p in torn && p in after && after[p].File? && q in before && before[q].File?
        && after[p].content <= before[q].content)
  }

  /** `after` is `before` with the source laid over the destination as far as `names` and `made` say. */
  ghost predicate PartCopy(before: Nodes, after: Nodes, src: Path, dst: Path, torn: set<Path>, names: set<string>, made: bool) {
    forall p {:trigger Get(after, p)} ::
      if Overlaid(before, src, dst, names, made, p) then LaidOver(before, after, src, dst, torn, p)
      else Get(after, p) == Get(before, p)
  }

  /** `after` is `before` with the whole source tree laid over the destination, the files in `torn` cut short. */
  ghost predicate Copied(before: Nodes, after: Nodes, src: Path, dst: Path, torn: set<Path>) {
    forall p {:trigger Get(after, p)} ::
      if dst <= p && Moved(src, dst, p) in before then LaidOver(before, after, src, dst, torn, p)
      else Get(after, p) == Get(before, p)
  }

  /** The path `q` for an entry of the kind of `p` is within the limit, for a directory with "/.." added. */
  predicate FitsAs(nodes: Nodes, p: Path, q: Path) {
    PathLen(q) + (if IsDir(nodes, p) then 3 else 0) < MAX_PATH_LEN
  }

  /** Every path of the source is within the limit, and so is its copy. */
  ghost predicate AllFit(nodes: Nodes, src: Path, dst: Path) {
    forall p {:trigger p in nodes} :: p in nodes && src <= p ==> FitsAs(nodes, p, p) && FitsAs(nodes, p, Moved(dst, src, p))
  }

  /** Where the source and the destination meet they agree on what is a directory. */
  ghost predicate SameKinds(nodes: Nodes, src: Path, dst: Path) {
    forall p {:trigger Moved(dst, src, p)} ::
      p in nodes && src <= p && Moved(dst, src, p) in nodes ==> nodes[p].Dir? == nodes[Moved(dst, src, p)].Dir?
  }

  predicate CanHold(nodes: Nodes, p: Path) { p in nodes || (p != [] && IsDir(nodes, Parent(p))) }

  /** What a copy asks of the tree. */
  ghost predicate Copyable(nodes: Nodes, src: Path, dst: Path) {
    src in nodes && AllFit(nodes, src, dst) && SameKinds(nodes, src, dst) && CanHold(nodes, dst)
  }

  ghost predicate UnchangedOutside(before: Nodes, after: Nodes, dir: Path) {
    forall p {:trigger Get(after, p)} :: !(dir <= p) ==> Get(after, p) == Get(before, p)
  }

  /** Nothing goes away and nothing changes its kind. */
  ghost predicate OnlyGrows(before: Nodes, after: Nodes) {
    forall p {:trigger p in before} :: p in before ==> p in after && before[p].Dir? == after[p].Dir?
  }

  /** What a copy that failed leaves: each path is as it was or has been overlaid. */
  ghost predicate PartlyCopied(before: Nodes, after: Nodes, src: Path, dst: Path, torn: set<Path>) {
    forall p {:trigger Get(after, p)} ::
      Get(after, p) == Get(before, p)
      || (dst <= p && Moved(src, dst, p) in before && LaidOver(before, after, src, dst, torn, p))
  }

  predicate Apart(a: Path, b: Path) { !(a <= b) && !(b <= a) }

  lemma PrefixDrop(a: Path, b: Path, n: string)
    requires a + [n] <= b + [n]
    ensures a <= b
  {
    assert (b + [n])[..|a|] == (a + [n])[..|a|] == a;
  }

  lemma ApartBelow(a: Path, b: Path, n: string)
    requires Apart(a, b)
    ensures Apart(a + [n], b + [n])
  {
    if a + [n] <= b + [n] { PrefixDrop(a, b, n); }
    if b + [n] <= a + [n] { PrefixDrop(b, a, n); }
  }

  /** A child copied after the children in `names` extends the copy by its name. */
  lemma CopyStep(before: Nodes, mid: Nodes, after: Nodes, src: Path, dst: Path, lost: set<Path>, more: set<Path>,
                 names: set<string>, n: string)
    requires Apart(src, dst)
    requires PartCopy(before, mid, src, dst, lost, names, true)
    requires Copied(mid, after, src + [n], dst + [n], more)
    ensures PartCopy(before, after, src, dst, lost + more, names + {n}, true)
  {
    forall p
      ensures if Overlaid(before, src, dst, names + {n}, true, p) then LaidOver(before, after, src, dst, lost + more, p)
              else Get(after, p) == Get(before, p)
    {
      assert Get(after, p) == Get(after, p) && Get(mid, p) == Get(mid, p);
      if dst + [n] <= p {
        assert dst <= p && p[|dst|] == (dst + [n])[|dst|];
        var q := Moved(src + [n], dst + [n], p);
        assert p[|dst|..] == [n] + p[|dst| + 1..];
        assert q == Moved(src, dst, p);
        assert !(dst <= q) by { if dst <= q { ApartMeet(src, dst, q); } }
        assert Get(mid, q) == Get(before, q);
      } else {
        PathUnder(dst, n, p);
      }
    }
  }

  lemma PathUnder(dir: Path, n: string, p: Path)
    ensures dir + [n] <= p <==> dir <= p && |p| > |dir| && p[|dir|] == n
  {
    if dir <= p && |p| > |dir| && p[|dir|] == n {
      assert p[..|dir| + 1] == dir + [n];
    }
  }

  lemma ApartMeet(a: Path, b: Path, p: Path)
    requires a <= p && b <= p
    ensures !Apart(a, b)
  {
    if |a| <= |b| { assert b[..|a|] == p[..|a|] == a; } else { assert a[..|b|] == p[..|b|] == b; }
  }

  /** How far a copy has come. */
  ghost predicate CopyState(before: Nodes, now: Nodes, src: Path, dst: Path, torn: set<Path>, names: set<string>, made: bool) {
    && Tree(now) && OnlyGrows(before, now) && UnchangedOutside(before, now, dst)
    && PartCopy(before, now, src, dst, torn, names, made)
    && (made ==> CanHold(before, dst))
    && (forall n {:trigger n in names} :: n in names ==> AllFit(before, src + [n], dst + [n]))
  }

  lemma CopyBegins(nodes: Nodes, src: Path, dst: Path)
    requires Tree(nodes)
    ensures CopyState(nodes, nodes, src, dst, {}, {}, false)
  {
  }

  lemma MovedChild(to: Path, from: Path, p: Path, n: string)
    requires from + [n] <= p
    ensures from <= p && Moved(to, from, p) == Moved(to + [n], from + [n], p)
  {
    PathUnder(from, n, p);
    assert p[|from|..] == [n] + p[|from| + 1..];
  }

  lemma AllFitParts(nodes: Nodes, src: Path, dst: Path)
    requires Tree(nodes) && IsDir(nodes, src)
    ensures AllFit(nodes, src, dst)
       <==> && PathLen(src) + 3 < MAX_PATH_LEN && PathLen(dst) + 3 < MAX_PATH_LEN
            && forall n :: n in ChildNames(nodes, src) ==> AllFit(nodes, src + [n], dst + [n])
  {
    assert Moved(dst, src, src) == dst;
    if AllFit(nodes, src, dst) {
      assert FitsAs(nodes, src, src) && FitsAs(nodes, src, dst);
      forall n, p | n in ChildNames(nodes, src) && p in nodes && src + [n] <= p
        ensures FitsAs(nodes, p, p) && FitsAs(nodes, p, Moved(dst + [n], src + [n], p))
      {
        MovedChild(dst, src, p, n);
      }
    }
    if && PathLen(src) + 3 < MAX_PATH_LEN && PathLen(dst) + 3 < MAX_PATH_LEN
       && forall n :: n in ChildNames(nodes, src) ==> AllFit(nodes, src + [n], dst + [n]) {
      forall p | p in nodes && src <= p ensures FitsAs(nodes, p, p) && FitsAs(nodes, p, Moved(dst, src, p)) {
        if |p| > |src| {
          FirstName(nodes, src, p);
          PathUnder(src, p[|src|], p);
          MovedChild(dst, src, p, p[|src|]);
        } else {
          assert p == src;
        }
      }
    }
  }

  /** A copy that changed no kind found the kinds agreeing. */
  lemma CopiedKinds(before: Nodes, after: Nodes, src: Path, dst: Path, torn: set<Path>)
    requires Copied(before, after, src, dst, torn) && OnlyGrows(before, after)
    ensures SameKinds(before, src, dst)
  {
    forall p | p in before && src <= p && Moved(dst, src, p) in before
      ensures before[p].Dir? == before[Moved(dst, src, p)].Dir?
    {
      var q := Moved(dst, src, p);
      assert Moved(src, dst, q) == p;
      assert Get(after, q) == Get(after, q);
    }
  }

  /** All names copied: the whole tree is. */
  lemma CopyComplete(before: Nodes, after: Nodes, src: Path, dst: Path, torn: set<Path>)
    requires Tree(before) && IsDir(before, src) && CopyState(before, after, src, dst, torn, ChildNames(before, src), true)
    requires PathLen(src) + 3 < MAX_PATH_LEN && PathLen(dst) + 3 < MAX_PATH_LEN
    ensures Copied(before, after, src, dst, torn) && Copyable(before, src, dst)
  {
    AllFitParts(before, src, dst);
    WholeIsCopied(before, after, src, dst, torn);
    CopiedKinds(before, after, src, dst, torn);
  }

  lemma AllOverlaid(before: Nodes, src: Path, dst: Path, p: Path)
    requires Tree(before) && dst <= p && Moved(src, dst, p) in before
    ensures Overlaid(before, src, dst, ChildNames(before, src), true, p)
  {
    var q := Moved(src, dst, p);
    if |p| > |dst| {
      FirstName(before, src, q);
      assert q[|src|] == p[|dst|];
    }
  }

  lemma WholeIsCopied(before: Nodes, after: Nodes, src: Path, dst: Path, torn: set<Path>)
    requires Tree(before) && PartCopy(before, after, src, dst, torn, ChildNames(before, src), true)
    ensures Copied(before, after, src, dst, torn)
  {
    forall p ensures if dst <= p && Moved(src, dst, p) in before then LaidOver(before, after, src, dst, torn, p)
                     else Get(after, p) == Get(before, p)
    {
      assert Get(after, p) == Get(after, p);
      if dst <= p && Moved(src, dst, p) in before { AllOverlaid(before, src, dst, p); }
    }
  }

  lemma TreeWithFile(nodes: Nodes, p: Path, content: string)
    requires Tree(nodes) && CanHold(nodes, p) && !IsDir(nodes, p)
    ensures Tree(nodes[p := File(content)]) && OnlyGrows(nodes, nodes[p := File(content)])
  {
    var after := nodes[p := File(content)];
    forall q | q in after && q != [] ensures IsDir(after, Parent(q)) {
      assert q == p || q in nodes;
    }
  }

  lemma TreeWithDir(nodes: Nodes, p: Path)
    requires Tree(nodes) && p != [] && IsDir(nodes, Parent(p)) && p !in nodes
    ensures Tree(nodes[p := Dir]) && OnlyGrows(nodes, nodes[p := Dir])
  {
    var after := nodes[p := Dir];
    forall q | q in after && q != [] ensures IsDir(after, Parent(q)) {
      assert q == p || q in nodes;
    }
  }

  lemma ChildPath(dir: Path, n: string)
    ensures Parent(dir + [n]) == dir && PathLen(dir + [n]) == PathLen(dir) + 1 + |n|
  {
    assert (dir + [n])[..|dir|] == dir;
  }

  lemma HoldsBelow(nodes: Nodes, dir: Path, p: Path)
    requires Tree(nodes) && p in nodes && dir <= p && p != dir
    ensures IsDir(nodes, dir)
  {
    PrefixExists(nodes, p, |dir|);
    assert p[..|dir|] == dir;
  }

  lemma NothingBelowFile(nodes: Nodes, file: Path, p: Path)
    requires Tree(nodes) && file in nodes && nodes[file].File? && p in nodes && file <= p
    ensures p == file
  {
    if p != file {
      HoldsBelow(nodes, file, p);
    }
  }

  /** The tree below a file is the file alone. */
  lemma FileAlone(nodes: Nodes, src: Path, dst: Path, p: Path)
    requires Tree(nodes) && src in nodes && nodes[src].File?
    ensures src <= p && p in nodes ==> p == src
    ensures dst <= p && Moved(src, dst, p) in nodes ==> p == dst
    ensures Moved(src, dst, dst) == src && Moved(dst, src, src) == dst
  {
    if src <= p && p in nodes { NothingBelowFile(nodes, src, p); }
    if dst <= p && Moved(src, dst, p) in nodes {
      NothingBelowFile(nodes, src, Moved(src, dst, p));
      assert |p| == |dst|;
    }
  }

  lemma FileIsCopyable(nodes: Nodes, src: Path, dst: Path)
    requires Tree(nodes) && src in nodes && nodes[src].File? && CanHold(nodes, dst) && !IsDir(nodes, dst)
    requires PathLen(src) < MAX_PATH_LEN && PathLen(dst) < MAX_PATH_LEN
    ensures Copyable(nodes, src, dst)
  {
    forall p | p in nodes && src <= p ensures p == src && Moved(dst, src, p) == dst {
      FileAlone(nodes, src, dst, p);
    }
  }

  lemma FileIsCopied(nodes: Nodes, src: Path, dst: Path, content: string, torn: set<Path>)
    requires Tree(nodes) && src in nodes && nodes[src].File?
    requires content == nodes[src].content || (dst in torn && content <= nodes[src].content)
    ensures Copied(nodes, nodes[dst := File(content)], src, dst, torn)
  {
    var after := nodes[dst := File(content)];
    forall p ensures if dst <= p && Moved(src, dst, p) in nodes then LaidOver(nodes, after, src, dst, torn, p)
                     else Get(after, p) == Get(nodes, p)
    {
      FileAlone(nodes, src, dst, p);
    }
  }

  lemma NameExists(nodes: Nodes, dir: Path, n: string)
    requires n in ChildNames(nodes, dir)
    ensures dir + [n] in nodes
  {
    var p :| p in nodes && |p| == |dir| + 1 && dir <= p && p[|dir|] == n;
    assert p == dir + [n];
  }

  lemma BelowIsInside(before: Nodes, mid: Nodes, after: Nodes, dst: Path, n: string)
    requires mid == before[dst := Dir] && OnlyGrows(before, mid)
    requires OnlyGrows(mid, after) && UnchangedOutside(mid, after, dst + [n])
    ensures OnlyGrows(before, after) && UnchangedOutside(before, after, dst)
  {
    forall p | !(dst <= p) ensures Get(after, p) == Get(before, p) {
      PathUnder(dst, n, p);
    }
  }

  /** What one callback adds: the destination directory, and the overlay of one child. */
  ghost predicate EntryCopied(before: Nodes, after: Nodes, src: Path, dst: Path, torn: set<Path>, e: Entry) {
    var mid := before[dst := Dir];
    && (dst in before ==> IsDir(before, dst)) && CanHold(before, dst)
    && (e.Child? ==> AllFit(mid, src + [e.name], dst + [e.name]))
    && (if e.Child? then Copied(mid, after, src + [e.name], dst + [e.name], torn) else after == mid)
  }

  /** The destination directory is there now, if it was not. */
  lemma DirMade(before: Nodes, mid: Nodes, src: Path, dst: Path, torn: set<Path>, names: set<string>, made: bool)
    requires Apart(src, dst) && IsDir(before, src) && CopyState(before, mid, src, dst, torn, names, made)
    ensures PartCopy(before, mid[dst := Dir], src, dst, torn, names, true)
  {
    var m := mid[dst := Dir];
    forall p
      ensures if Overlaid(before, src, dst, names, true, p) then LaidOver(before, m, src, dst, torn, p)
              else Get(m, p) == Get(before, p)
    {
      if p == dst {
        assert Moved(src, dst, p) == src;
      } else {
        assert Get(m, p) == Get(mid, p);
        assert dst <= p ==> |p| != |dst|;
      }
    }
  }

  lemma CopyEntryStep(before: Nodes, mid: Nodes, after: Nodes, src: Path, dst: Path, lost: set<Path>, more: set<Path>,
                      names: set<string>, made: bool, e: Entry)
    requires Apart(src, dst) && IsDir(before, src) && CopyState(before, mid, src, dst, lost, names, made)
    requires Tree(after) && OnlyGrows(before, after) && UnchangedOutside(before, after, dst)
    requires EntryCopied(mid, after, src, dst, more, e)
    ensures CopyState(before, after, src, dst, lost + more, names + Named(e), true)
  {
    var m := mid[dst := Dir];
    DirMade(before, mid, src, dst, lost, names, made);
    HeldBefore(before, mid, src, dst, lost, names, made);
    if e.Child? {
      CopyStep(before, m, after, src, dst, lost, more, names, e.name);
      SameSource(before, m, src, dst, e.name);
    } else {
      assert names + {} == names;
      MoreTorn(before, after, src, dst, lost, more, names, true);
    }
  }

  lemma MoreTorn(before: Nodes, after: Nodes, src: Path, dst: Path, lost: set<Path>, more: set<Path>, names: set<string>, made: bool)
    requires PartCopy(before, after, src, dst, lost, names, made)
    ensures PartCopy(before, after, src, dst, lost + more, names, made)
  {
    forall p ensures if Overlaid(before, src, dst, names, made, p) then LaidOver(before, after, src, dst, lost + more, p)
                     else Get(after, p) == Get(before, p)
    {
      assert Get(after, p) == Get(after, p);
      assert dst <= p && LaidOver(before, after, src, dst, lost, p) ==> LaidOver(before, after, src, dst, lost + more, p);
    }
  }

  lemma HeldBefore(before: Nodes, mid: Nodes, src: Path, dst: Path, torn: set<Path>, names: set<string>, made: bool)
    requires CopyState(before, mid, src, dst, torn, names, made) && CanHold(mid, dst)
    ensures CanHold(before, dst)
  {
    if !made {
      assert !Overlaid(before, src, dst, names, made, dst);
      assert Get(mid, dst) == Get(before, dst);
    }
    if dst != [] {
      assert Get(mid, Parent(dst)) == Get(before, Parent(dst));
    }
  }

  /** Copying changes nothing about a child of the source. */
  lemma SameSource(before: Nodes, mid: Nodes, src: Path, dst: Path, n: string)
    requires Apart(src, dst) && UnchangedOutside(before, mid, dst)
    ensures AllFit(before, src + [n], dst + [n]) <==> AllFit(mid, src + [n], dst + [n])
  {
    forall p | src + [n] <= p ensures Get(mid, p) == Get(before, p) {
      PathUnder(src, n, p);
      if dst <= p {
        ApartMeet(src, dst, p);
      }
    }
    assert AllFit(before, src + [n], dst + [n]) ==> AllFit(mid, src + [n], dst + [n]) by {
      forall p | p in mid && src + [n] <= p ensures Get(before, p) == Get(mid, p) {}
    }
    assert AllFit(mid, src + [n], dst + [n]) ==> AllFit(before, src + [n], dst + [n]) by {
      forall p | p in before && src + [n] <= p ensures Get(mid, p) == Get(before, p) {}
    }
  }

  /** What a copy asks of the tree passes on to a child not yet copied. */
  lemma CopyableChild(before: Nodes, now: Nodes, src: Path, dst: Path, torn: set<Path>, done: set<string>, made: bool, n: string)
    requires Tree(before) && Apart(src, dst) && IsDir(before, src) && n in ChildNames(before, src) && n !in done
    requires CopyState(before, now, src, dst, torn, done, made) && Copyable(before, src, dst)
    ensures Copyable(now[dst := Dir], src + [n], dst + [n])
  {
    var m := now[dst := Dir];
    assert UnchangedOutside(before, m, dst) by {
      forall p | !(dst <= p) ensures Get(m, p) == Get(before, p) {
        assert Get(now, p) == Get(before, p);
      }
    }
    NameStays(before, m, src, dst, n);
    AllFitParts(before, src, dst);
    SameSource(before, m, src, dst, n);
    ChildPath(dst, n);
    forall p | p in m && src + [n] <= p && Moved(dst + [n], src + [n], p) in m
      ensures m[p].Dir? == m[Moved(dst + [n], src + [n], p)].Dir?
    {
      MovedChild(dst, src, p, n);
      var q := Moved(dst, src, p);
      PathUnder(src, n, p);
      if dst <= p {
        ApartMeet(src, dst, p);
      }
      assert Get(m, p) == Get(before, p);
      assert q[|dst|] == n;
      assert Get(m, q) == Get(now, q) == Get(before, q);
    }
  }

  /** What one callback asks of the tree. */
  ghost predicate EntryCopyable(nodes: Nodes, src: Path, dst: Path, e: Entry) {
    && CanHold(nodes, dst) && (dst in nodes ==> IsDir(nodes, dst)) && PathLen(dst) + 1 + |EntryName(e)| < MAX_PATH_LEN
    && (e.Child? ==> Copyable(nodes[dst := Dir], src + [e.name], dst + [e.name]))
  }

  lemma EntryFits(before: Nodes, now: Nodes, src: Path, dst: Path, torn: set<Path>, done: set<string>, made: bool, e: Entry)
    requires Tree(before) && Apart(src, dst) && IsDir(before, src) && Named(e) <= ChildNames(before, src) - done
    requires CopyState(before, now, src, dst, torn, done, made) && Copyable(before, src, dst)
    ensures PathLen(src) + 1 + |EntryName(e)| < MAX_PATH_LEN && EntryCopyable(now, src, dst, e)
  {
    AllFitParts(before, src, dst);
    assert Moved(dst, src, src) == dst && Moved(src, dst, dst) == src;
    assert Get(now, dst) == if Overlaid(before, src, dst, done, made, dst) then Get(before, src) else Get(before, dst);
    if dst != [] {
      assert Get(now, Parent(dst)) == Get(before, Parent(dst));
    }
    if e.Child? {
      var n := e.name;
      CopyableChild(before, now, src, dst, torn, done, made, n);
      var m := now[dst := Dir];
      assert Moved(dst + [n], src + [n], src + [n]) == dst + [n];
      assert FitsAs(m, src + [n], src + [n]) && FitsAs(m, src + [n], dst + [n]);
      ChildPath(src, n);
      ChildPath(dst, n);
    }
  }

  lemma CopyableFile(nodes: Nodes, src: Path, dst: Path)
    requires src in nodes && nodes[src].File?
    ensures Copyable(nodes, src, dst) ==> !IsDir(nodes, dst)
  {
    assert Moved(dst, src, src) == dst;
  }

  lemma NameStays(before: Nodes, now: Nodes, src: Path, dst: Path, n: string)
    requires Apart(src, dst) && n in ChildNames(before, src) && UnchangedOutside(before, now, dst)
    ensures src + [n] in now
  {
    NameExists(before, src, n);
    if dst <= src + [n] {
      ApartMeet(src, dst, src + [n]);
    }
    assert Get(now, src + [n]) == Get(before, src + [n]);
  }

  lemma StillDir(before: Nodes, now: Nodes, src: Path, dst: Path)
    requires Apart(src, dst) && IsDir(before, src) && UnchangedOutside(before, now, dst)
    ensures IsDir(now, src)
  {
    assert Get(now, src) == Get(before, src);
  }

  lemma Onwards(before: Nodes, mid: Nodes, after: Nodes, dst: Path)
    requires OnlyGrows(before, mid) && UnchangedOutside(before, mid, dst)
    requires OnlyGrows(mid, after) && UnchangedOutside(mid, after, dst)
    ensures OnlyGrows(before, after) && UnchangedOutside(before, after, dst)
  {
    forall p | !(dst <= p) ensures Get(after, p) == Get(before, p) {
      assert Get(mid, p) == Get(before, p);
    }
  }

  // ---------------------------------------------------------------- what a removal means

  /** `after` is `before` without what lies below the names in `done`. */
  ghost predicate PartGone(before: Nodes, after: Nodes, dir: Path, done: set<string>) {
    forall p {:trigger Get(after, p)} ::
      Get(after, p) == if dir <= p && |p| > |dir| && p[|dir|] in done then None else Get(before, p)
  }

  /** `after` is `before` without `top` and all below it. */
  ghost predicate Gone(before: Nodes, after: Nodes, top: Path) {
    forall p {:trigger Get(after, p)} :: Get(after, p) == if top <= p then None else Get(before, p)
  }

  /** Outside `dir` nothing changed, and inside it things can only have gone. */
  ghost predicate OnlyShrinks(before: Nodes, after: Nodes, dir: Path) {
    forall p {:trigger Get(after, p)} :: Get(after, p) == Get(before, p) || (dir <= p && Get(after, p) == None)
  }

  /** Every path at or below `top` is within the limit, for a directory with "/.." added. */
  ghost predicate Reachable(nodes: Nodes, top: Path) {
    forall p {:trigger Reach(nodes, p)} :: p in nodes && top <= p ==> Reach(nodes, p)
  }

  predicate Reach(nodes: Nodes, p: Path) { FitsAs(nodes, p, p) }

  lemma GoneStep(before: Nodes, mid: Nodes, after: Nodes, dir: Path, done: set<string>, n: string)
    requires PartGone(before, mid, dir, done) && Gone(mid, after, dir + [n])
    ensures PartGone(before, after, dir, done + {n})
  {
    forall p
      ensures Get(after, p) == if dir <= p && |p| > |dir| && p[|dir|] in done + {n} then None else Get(before, p)
    {
      PathUnder(dir, n, p);
      assert Get(mid, p) == Get(mid, p);
    }
  }

  lemma GoneKeepsTree(before: Nodes, after: Nodes, top: Path)
    requires Tree(before) && Gone(before, after, top)
    ensures Tree(after)
  {
    forall p | p in after && p != [] ensures IsDir(after, Parent(p)) {
      assert top <= Parent(p) ==> top <= p;
      assert Get(after, p) == Get(before, p);
      assert IsDir(before, Parent(p));
      assert Get(after, Parent(p)) == Get(before, Parent(p));
    }
  }

  lemma PartGoneKeepsShape(before: Nodes, after: Nodes, dir: Path, done: set<string>)
    requires PartGone(before, after, dir, done)
    ensures OnlyShrinks(before, after, dir) && Get(after, dir) == Get(before, dir)
  {
  }

  lemma NothingStays(before: Nodes, after: Nodes, dir: Path, p: Path)
    requires Tree(before) && PartGone(before, after, dir, ChildNames(before, dir)) && dir <= p && p in after
    ensures |p| == |dir|
  {
    assert Get(after, p) == Get(before, p);
    if |p| > |dir| {
      FirstName(before, dir, p);
    }
  }

  /** When all names are gone the directory is empty, and can be taken away itself. */
  lemma EmptiedDir(before: Nodes, after: Nodes, dir: Path)
    requires Tree(before) && IsDir(before, dir) && PartGone(before, after, dir, ChildNames(before, dir))
    ensures IsDir(after, dir) && ChildNames(after, dir) == {}
    ensures Gone(before, after - {dir}, dir)
  {
    forall p | p in after && dir <= p ensures |p| == |dir| {
      NothingStays(before, after, dir, p);
    }
    assert Get(after, dir) == Get(before, dir);
    assert ChildNames(after, dir) == {};
    forall p | p in after && dir <= p ensures p == dir {
      assert |p| == |dir|;
    }
    var last := after - {dir};
    forall p ensures Get(last, p) == if dir <= p then None else Get(before, p) {
      assert Get(after, p) == Get(after, p);
    }
  }

  /** A directory can be walked exactly when its own path leaves room for "/.." and each child can be reached. */
  lemma ReachableParts(nodes: Nodes, dir: Path)
    requires Tree(nodes) && IsDir(nodes, dir)
    ensures Reachable(nodes, dir)
       <==> PathLen(dir) + 3 < MAX_PATH_LEN && forall n :: n in ChildNames(nodes, dir) ==> Reachable(nodes, dir + [n])
  {
    if Reachable(nodes, dir) {
      assert Reach(nodes, dir);
      forall n, p | n in ChildNames(nodes, dir) && p in nodes && dir + [n] <= p ensures Reach(nodes, p) {
        PathUnder(dir, n, p);
      }
    }
    if PathLen(dir) + 3 < MAX_PATH_LEN && forall n :: n in ChildNames(nodes, dir) ==> Reachable(nodes, dir + [n]) {
      forall p | p in nodes && dir <= p ensures Reach(nodes, p) {
        if |p| > |dir| {
          FirstName(nodes, dir, p);
          PathUnder(dir, p[|dir|], p);
        } else {
          assert p == dir;
        }
      }
    }
  }

  /** What is gone elsewhere does not matter to a child still there. */
  lemma ReachableStays(before: Nodes, now: Nodes, dir: Path, done: set<string>, n: string)
    requires PartGone(before, now, dir, done) && n !in done
    ensures Reachable(now, dir + [n]) <==> Reachable(before, dir + [n])
  {
    forall p | dir + [n] <= p ensures Get(now, p) == Get(before, p) && (Reach(now, p) <==> Reach(before, p)) {
      PathUnder(dir, n, p);
      assert Get(now, p) == Get(before, p);
    }
  }

  lemma ReachesItself(nodes: Nodes, p: Path)
    requires p in nodes
    ensures Reachable(nodes, p) ==> PathLen(p) < MAX_PATH_LEN
  {
    assert Reachable(nodes, p) ==> Reach(nodes, p);
  }

  lemma FileIsReachable(nodes: Nodes, p: Path)
    requires Tree(nodes) && p in nodes && nodes[p].File? && PathLen(p) < MAX_PATH_LEN
    ensures Reachable(nodes, p)
  {
    forall q | q in nodes && p <= q ensures q == p {
      NothingBelowFile(nodes, p, q);
    }
  }

  lemma FileIsGone(nodes: Nodes, p: Path)
    requires Tree(nodes) && p in nodes && nodes[p].File?
    ensures Gone(nodes, nodes - {p}, p) && Tree(nodes - {p})
  {
    forall q | q in nodes && p <= q ensures q == p {
      NothingBelowFile(nodes, p, q);
    }
    GoneKeepsTree(nodes, nodes - {p}, p);
  }

  lemma EmptyDirIsGone(nodes: Nodes, p: Path)
    requires Tree(nodes) && ChildNames(nodes, p) == {}
    ensures Gone(nodes, nodes - {p}, p) && Tree(nodes - {p})
  {
    forall q | q in nodes && p <= q ensures q == p {
      if |q| > |p| {
        FirstName(nodes, p, q);
      }
    }
    GoneKeepsTree(nodes, nodes - {p}, p);
  }

  lemma ShrinksWithin(before: Nodes, mid: Nodes, after: Nodes, dir: Path, done: set<string>, n: string)
    requires PartGone(before, mid, dir, done) && OnlyShrinks(mid, after, dir + [n])
    ensures OnlyShrinks(before, after, dir) && Get(after, dir) == Get(before, dir)
  {
    forall p ensures Get(after, p) == Get(before, p) || (dir <= p && Get(after, p) == None) {
      PathUnder(dir, n, p);
      assert Get(mid, p) == Get(mid, p);
    }
    assert Get(after, dir) == Get(mid, dir);
  }

  // ---------------------------------------------------------------- paths as text

  /** The path a text stands for: its components, none of them empty. */
  function Resolve(text: string): Path {
    var i := LastAt(text, '/');
    if i.None? then (if text == "" then [] else [text])
    else Resolve(text[..i.value]) + (if i.value + 1 == |text| then [] else [text[i.value + 1..]])
  }

  /** What of a path fits the buffer. */
  function FittingPath(path: string): string { path[..CopyLen(path, MAX_PATH_LEN)] }

  /** `text[..i]` ends before a slash that is not the first character, or is all of it. */
  predicate SlashPrefix(text: string, i: nat) {
    1 <= i <= |text| && (i == |text| || text[i] == '/')
  }

  ghost predicate IsPrefixPath(text: string, p: Path) {
    exists i: nat :: SlashPrefix(text, i) && Resolve(text[..i]) == p
  }

  /** Directories were added, each a prefix of the text cut at a slash, and nothing else changed. */
  ghost predicate OnlyPrefixesAdded(before: Nodes, after: Nodes, text: string) {
    && (forall p :: p in before ==> p in after && after[p] == before[p])
    && (forall p :: p in after && p !in before ==> after[p] == Dir && IsPrefixPath(text, p))
  }

  /** Every prefix shorter than `n` is a directory. */
  ghost predicate PrefixesMade(nodes: Nodes, text: string, n: nat) {
    forall i: nat :: i < n && SlashPrefix(text, i) ==> IsDir(nodes, Resolve(text[..i]))
  }

  /** No file stands where a prefix needs a directory. */
  ghost predicate NoFileAt(nodes: Nodes, text: string) {
    IsDir(nodes, []) && forall i: nat :: SlashPrefix(text, i) && Resolve(text[..i]) in nodes ==> IsDir(nodes, Resolve(text[..i]))
  }

  lemma PrefixBefore(text: string, i: nat, j: nat)
    requires SlashPrefix(text, i) && LastAt(text[..i], '/') == Some(j)
    ensures text[..i][..j] == text[..j] && j < i && (j > 0 ==> SlashPrefix(text, j))
  {
  }

  lemma ParentOfText(t: string, j: nat)
    requires LastAt(t, '/') == Some(j)
    ensures if j + 1 == |t| then Resolve(t) == Resolve(t[..j])
            else Resolve(t) != [] && Parent(Resolve(t)) == Resolve(t[..j])
  {
    if j + 1 == |t| {
      assert Resolve(t[..j]) + [] == Resolve(t[..j]);
    } else {
      var c := t[j + 1..];
      assert Parent(Resolve(t[..j]) + [c]) == Resolve(t[..j]);
    }
  }

  lemma PrefixIsNoFile(before: Nodes, now: Nodes, text: string, i: nat)
    requires NoFileAt(before, text) && OnlyPrefixesAdded(before, now, text) && SlashPrefix(text, i)
    ensures Resolve(text[..i]) in now ==> IsDir(now, Resolve(text[..i]))
  {
    var p := Resolve(text[..i]);
    assert p in before ==> now[p] == before[p];
  }

  /** The parent of a prefix is an earlier prefix or the root, so there is room for it. */
  lemma RoomForPrefix(before: Nodes, now: Nodes, text: string, i: nat)
    requires NoFileAt(before, text) && OnlyPrefixesAdded(before, now, text) && PrefixesMade(now, text, i)
    requires SlashPrefix(text, i)
    ensures CanHold(now, Resolve(text[..i]))
  {
    var t := text[..i];
    var last := LastAt(t, '/');
    assert IsDir(now, []) && Resolve("") == [];
    if last.Some? {
      var j := last.value;
      PrefixBefore(text, i, j);
      assert j == 0 ==> t[..j] == "";
      ParentOfText(t, j);
    } else {
      assert Parent([t]) == [];
    }
  }

  lemma PrefixAdded(before: Nodes, mid: Nodes, text: string, i: nat)
    requires SlashPrefix(text, i) && OnlyPrefixesAdded(before, mid, text) && PrefixesMade(mid, text, i)
    requires Resolve(text[..i]) in mid ==> IsDir(mid, Resolve(text[..i]))
    ensures var after := mid[Resolve(text[..i]) := Dir];
            OnlyPrefixesAdded(before, after, text) && PrefixesMade(after, text, i + 1)
  {
  }

  // ---------------------------------------------------------------- copies that fail

  lemma SourceApart(src: Path, dst: Path, p: Path)
    requires Apart(src, dst) && dst <= p
    ensures !(dst <= Moved(src, dst, p))
  {
    var q := Moved(src, dst, p);
    if dst <= q {
      ApartMeet(src, dst, q);
    }
  }

  lemma CopiedIsPartly(before: Nodes, after: Nodes, src: Path, dst: Path, torn: set<Path>)
    requires Copied(before, after, src, dst, torn)
    ensures PartlyCopied(before, after, src, dst, torn)
  {
  }

  lemma StateIsPartly(before: Nodes, now: Nodes, src: Path, dst: Path, torn: set<Path>, names: set<string>, made: bool)
    requires CopyState(before, now, src, dst, torn, names, made)
    ensures PartlyCopied(before, now, src, dst, torn)
  {
  }

  /** A failure in one turn, after others that succeeded. */
  lemma PartlyAfter(before: Nodes, mid: Nodes, after: Nodes, src: Path, dst: Path, lost: set<Path>, more: set<Path>)
    requires Apart(src, dst) && UnchangedOutside(before, mid, dst)
    requires PartlyCopied(before, mid, src, dst, lost) && PartlyCopied(mid, after, src, dst, more)
    ensures PartlyCopied(before, after, src, dst, lost + more)
  {
    forall p ensures Get(after, p) == Get(before, p)
                  || (dst <= p && Moved(src, dst, p) in before && LaidOver(before, after, src, dst, lost + more, p))
    {
      assert Get(after, p) == Get(after, p) && Get(mid, p) == Get(mid, p);
      if dst <= p {
        SourceApart(src, dst, p);
        assert Get(mid, Moved(src, dst, p)) == Get(before, Moved(src, dst, p));
      }
    }
  }

  /** A failure in the copy of a child. */
  lemma PartlyBelow(before: Nodes, after: Nodes, src: Path, dst: Path, n: string, torn: set<Path>)
    requires PartlyCopied(before, after, src + [n], dst + [n], torn)
    ensures PartlyCopied(before, after, src, dst, torn)
  {
    forall p ensures Get(after, p) == Get(before, p)
                  || (dst <= p && Moved(src, dst, p) in before && LaidOver(before, after, src, dst, torn, p))
    {
      assert Get(after, p) == Get(after, p);
      if dst + [n] <= p {
        MovedChild(src, dst, p, n);
      }
    }
  }

  /** A failure after the destination directory was made. */
  lemma PartlyMade(before: Nodes, after: Nodes, src: Path, dst: Path, torn: set<Path>)
    requires Apart(src, dst) && IsDir(before, src) && (dst in before ==> IsDir(before, dst))
    requires PartlyCopied(before[dst := Dir], after, src, dst, torn)
    ensures PartlyCopied(before, after, src, dst, torn)
  {
    forall p ensures Get(after, p) == Get(before, p)
                  || (dst <= p && Moved(src, dst, p) in before && LaidOver(before, after, src, dst, torn, p))
    {
      assert Get(after, p) == Get(after, p);
      if dst <= p {
        SourceApart(src, dst, p);
        assert Moved(src, dst, p) in before[dst := Dir] ==> Moved(src, dst, p) in before;
        if p == dst {
          assert Moved(src, dst, p) == src;
        }
      }
    }
  }

  // ---------------------------------------------------------------- one file

  /** How the copy of a file can end: refused before anything was written; an error that was seen with `n`
      characters written; a flush or close that failed, which nobody asks about; all written. */
  datatype Ending = Refused | Broken(n: nat) | Unflushed(n: nat) | Complete

  function Start(content: string, n: nat): string { if n <= |content| then content[..n] else content }

  /** `libze_util_copy_file`: the new file is created or emptied, and then filled. */
  function FileCopy(nodes: Nodes, src: Path, dst: Path, ending: Ending): (bool, Nodes)
    requires src in nodes && nodes[src].File?
  {
    match ending
    case Refused => (false, nodes)
    case Broken(n) => (false, nodes[dst := File(Start(nodes[src].content, n))])
    case Unflushed(n) => (true, nodes[dst := File(Start(nodes[src].content, n))])
    case Complete => (true, nodes[dst := nodes[src]])
  }

  /** The files the copy left cut short. */
  function Torn(dst: Path, ending: Ending): set<Path> {
    if ending.Broken? || ending.Unflushed? then {dst} else {}
  }

  /** What a copied file means, however it ended. */
  lemma FileCopyMeans(nodes: Nodes, src: Path, dst: Path, ending: Ending)
    requires Tree(nodes) && src in nodes && nodes[src].File?
    requires PathLen(src) < MAX_PATH_LEN && PathLen(dst) < MAX_PATH_LEN
    requires ending.Refused? || (CanHold(nodes, dst) && !IsDir(nodes, dst))
    ensures var (ok, after) := FileCopy(nodes, src, dst, ending);
            && Tree(after) && OnlyGrows(nodes, after) && UnchangedOutside(nodes, after, dst)
            && (ok ==> Copied(nodes, after, src, dst, Torn(dst, ending)) && Copyable(nodes, src, dst))
            && PartlyCopied(nodes, after, src, dst, Torn(dst, ending))
  {
    var (ok, after) := FileCopy(nodes, src, dst, ending);
    if !ending.Refused? {
      var content := if ending.Complete? then nodes[src].content else Start(nodes[src].content, ending.n);
      assert after == nodes[dst := File(content)];
      TreeWithFile(nodes, dst, content);
      FileIsCopyable(nodes, src, dst);
      FileIsCopied(nodes, src, dst, content, Torn(dst, ending));
      CopiedIsPartly(nodes, after, src, dst, Torn(dst, ending));
    }
  }

  /** A file that is not copied, with success: "/b" copied to "/c" when the disk is full and only the last flush
      finds out. */
  lemma LostFlush(nodes: Nodes)
    requires nodes == map[[] := Dir, ["b"] := File("text")]
    ensures Tree(nodes)
    ensures FileCopy(nodes, ["b"], ["c"], Unflushed(0)) == (true, nodes[["c"] := File("")])
    ensures !Copied(nodes, nodes[["c"] := File("")], ["b"], ["c"], {})
  {
    var after := nodes[["c"] := File("")];
    assert Moved(["b"], ["c"], ["c"]) == ["b"];
    assert Get(after, ["c"]) != Get(nodes, ["b"]);
    assert forall p {:trigger Parent(p)} :: p in nodes && p != [] ==> Parent(p) == [];
  }
}
