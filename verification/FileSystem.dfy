/** The file system as an object, with the recursive walks of `libze_util.c` as its methods. */
module FileSystems {
  import opened CString
  import opened FileTree

  class FileSystem {
    var nodes: Nodes
    /** When set, a system call fails only for a reason found in the tree. */
    const reliable: bool
    /** When set, what was written without an error reaches the file. */
    const flushes: bool

    constructor (nodes: Nodes, reliable: bool, flushes: bool)
      ensures this.nodes == nodes && this.reliable == reliable && this.flushes == flushes
    {
      this.nodes, this.reliable, this.flushes := nodes, reliable, flushes;
    }

    /** Whether a system call goes through. */
    method Allowed() returns (ok: bool)
      ensures reliable ==> ok
    {
      ok := *;
      ok := ok || reliable;
    }

    /** `mkdir` */
    method Mkdir(p: Path) returns (ok: bool)
      requires Tree(nodes)
      modifies this
      ensures Tree(nodes) && OnlyGrows(old(nodes), nodes)
      ensures ok ==> p !in old(nodes) && CanHold(old(nodes), p) && nodes == old(nodes)[p := Dir]
      ensures !ok ==> nodes == old(nodes)
      ensures reliable && p !in old(nodes) && CanHold(old(nodes), p) ==> ok
    {
      ok := Allowed();
      ok := ok && p !in nodes && CanHold(nodes, p);
      if ok {
        TreeWithDir(nodes, p);
        nodes := nodes[p := Dir];
      }
    }

    /** `mkdir`, where a directory that is already there will do. */
    method EnsureDir(p: Path) returns (ok: bool)
      requires Tree(nodes)
      modifies this
      ensures Tree(nodes) && OnlyGrows(old(nodes), nodes)
      ensures ok ==> CanHold(old(nodes), p) && (p in old(nodes) ==> IsDir(old(nodes), p)) && nodes == old(nodes)[p := Dir]
      ensures !ok ==> nodes == old(nodes)
      ensures reliable && CanHold(old(nodes), p) && (p in old(nodes) ==> IsDir(old(nodes), p)) ==> ok
    {
      ok := Mkdir(p);
      if !ok {
        ok := Allowed();
        ok := ok && IsDir(nodes, p);     // stat failed, or ENOTDIR
      }
    }

    /** `libze_util_copy_file` */
    method CopyFile(src: Path, dst: Path) returns (ok: bool, ghost ending: Ending)
      requires Tree(nodes) && src in nodes && nodes[src].File?
      requires PathLen(src) < MAX_PATH_LEN && PathLen(dst) < MAX_PATH_LEN
      modifies this
      ensures (ok, nodes) == FileCopy(old(nodes), src, dst, ending)
      ensures ending.Refused? || (CanHold(old(nodes), dst) && !IsDir(old(nodes), dst))
      ensures flushes || reliable ==> !ending.Unflushed?
      ensures reliable ==> if CanHold(old(nodes), dst) && !IsDir(old(nodes), dst) then ending.Complete? else ending.Refused?
    {
      ending := Refused;
      ok := Allowed();
      if !ok || !CanHold(nodes, dst) || IsDir(nodes, dst) {
        return false, ending;
      }
      var written: Ending := *;
      if written.Refused? || reliable || (flushes && written.Unflushed?) {
        written := Complete;
      }
      ending := written;
      var r := FileCopy(nodes, src, dst, written);
      ok, nodes := r.0, r.1;
    }

    /** `libze_util_copydir`, and `recursive_traverse` with `copy_cb`. */
    method CopyDir(src: Path, dst: Path) returns (ok: bool, ghost torn: set<Path>)
      requires Tree(nodes) && Apart(src, dst)
      modifies this
      ensures Tree(nodes) && OnlyGrows(old(nodes), nodes) && UnchangedOutside(old(nodes), nodes, dst)
      ensures ok ==> IsDir(old(nodes), src) && Copied(old(nodes), nodes, src, dst, torn) && Copyable(old(nodes), src, dst)
      ensures !ok ==> PartlyCopied(old(nodes), nodes, src, dst, torn)
      ensures TornAllows(ok, torn)
      ensures reliable && IsDir(old(nodes), src) && Copyable(old(nodes), src, dst) ==> ok
      decreases MAX_PATH_LEN - PathLen(src)
    {
      ghost var before := nodes;
      torn := {};
      if IsDir(nodes, src) {
        AllFitParts(nodes, src, dst);
      }
      ok := Allowed();
      if !ok || PathLen(src) >= MAX_PATH_LEN || !IsDir(nodes, src) {
        return false, {};      // ENAMETOOLONG, or opendir failed
      }
      var names := ChildNames(nodes, src);
      var todo := Entries(names);
      ghost var done: set<string> := {};
      ghost var made := false;
      CopyBegins(before, src, dst);
      while todo != {}
        invariant CopyState(before, nodes, src, dst, torn, done, made)
        invariant TornAllows(true, torn)
        invariant Pending(names, done, todo)
        invariant Dot !in todo ==> made
        invariant DotDot !in todo ==> PathLen(src) + 3 < MAX_PATH_LEN && PathLen(dst) + 3 < MAX_PATH_LEN
        decreases |todo|
      {
        var e :| e in todo;
        PendingStep(names, done, todo, e);
        todo := todo - {e};
        ok, torn := CopyNext(before, src, dst, torn, done, made, e);
        if !ok {
          return;
        }
        made := true;
        done := done + Named(e);
      }
      PendingEnd(names, done, todo);
      CopyComplete(before, nodes, src, dst, torn);
      CopiedIsPartly(before, nodes, src, dst, torn);
      ok := Allowed();     // closedir
    }

    /** Nothing is cut short with success when flushes work, and one file at most otherwise; nothing at all when calls
        fail only for a reason in the tree. */
    ghost predicate TornAllows(ok: bool, torn: set<Path>) {
      && (flushes ==> |torn| <= 1)
      && (flushes && ok ==> torn == {})
      && (reliable ==> torn == {})
    }

    /** One turn of the loop in `recursive_traverse`. */
    method CopyNext(ghost before: Nodes, src: Path, dst: Path, ghost lost: set<Path>, ghost done: set<string>,
                    ghost made: bool, e: Entry)
      returns (ok: bool, ghost torn: set<Path>)
      requires Tree(before) && Apart(src, dst) && IsDir(before, src) && Named(e) <= ChildNames(before, src) - done
      requires CopyState(before, nodes, src, dst, lost, done, made) && TornAllows(true, lost)
      modifies this
      ensures Tree(nodes) && OnlyGrows(before, nodes) && UnchangedOutside(before, nodes, dst)
      ensures ok ==> CopyState(before, nodes, src, dst, torn, done + Named(e), true)
      ensures !ok ==> PartlyCopied(before, nodes, src, dst, torn)
      ensures TornAllows(ok, torn)
      ensures ok ==> PathLen(src) + 1 + |EntryName(e)| < MAX_PATH_LEN && PathLen(dst) + 1 + |EntryName(e)| < MAX_PATH_LEN
      ensures reliable && Copyable(before, src, dst) ==> ok
      decreases MAX_PATH_LEN - PathLen(src), 1
    {
      ok := Allowed();
      if Copyable(before, src, dst) {
        EntryFits(before, nodes, src, dst, lost, done, made, e);
      }
      StateIsPartly(before, nodes, src, dst, lost, done, made);
      if !ok || PathLen(src) + 1 + |EntryName(e)| >= MAX_PATH_LEN {
        return false, lost;    // ENAMETOOLONG, or stat failed
      }
      if e.Child? {
        NameStays(before, nodes, src, dst, e.name);
      }
      ghost var mid, more := nodes, lost;
      StillDir(before, nodes, src, dst);
      ok, more := CopyEntry(src, dst, e);
      Onwards(before, mid, nodes, dst);
      torn := lost + more;
      if ok {
        CopyEntryStep(before, mid, nodes, src, dst, lost, more, done, made, e);
      } else {
        PartlyAfter(before, mid, nodes, src, dst, lost, more);
      }
      assert lost == {} ==> torn == more;
    }

    /** `copy_cb` for one entry of `src`. */
    method CopyEntry(src: Path, dst: Path, e: Entry) returns (ok: bool, ghost torn: set<Path>)
      requires Tree(nodes) && Apart(src, dst) && PathLen(src) + 1 + |EntryName(e)| < MAX_PATH_LEN
      requires IsDir(nodes, src) && (e.Child? ==> src + [e.name] in nodes)
      modifies this
      ensures Tree(nodes) && OnlyGrows(old(nodes), nodes) && UnchangedOutside(old(nodes), nodes, dst)
      ensures ok ==> EntryCopied(old(nodes), nodes, src, dst, torn, e) && PathLen(dst) + 1 + |EntryName(e)| < MAX_PATH_LEN
      ensures !ok ==> PartlyCopied(old(nodes), nodes, src, dst, torn)
      ensures TornAllows(ok, torn)
      ensures reliable && EntryCopyable(old(nodes), src, dst, e) ==> ok
      decreases MAX_PATH_LEN - PathLen(src), 0
    {
      torn := {};
      ok := EnsureDir(dst);
      if ok {
        PartlyMade(old(nodes), nodes, src, dst, {});
      }
      if !ok || PathLen(dst) + 1 + |EntryName(e)| >= MAX_PATH_LEN {
        return false, {};      // ENAMETOOLONG
      }
      if e.Child? {
        ghost var before, mid := old(nodes), nodes;
        var from, to := src + [e.name], dst + [e.name];
        ChildPath(src, e.name);
        ChildPath(dst, e.name);
        ApartBelow(src, dst, e.name);
        if nodes[from].Dir? {
          ok, torn := CopyDir(from, to);
        } else {
          CopyableFile(nodes, from, to);
          ghost var ending := Refused;
          ok, ending := CopyFile(from, to);
          FileCopyMeans(mid, from, to, ending);
          torn := Torn(to, ending);
        }
        BelowIsInside(before, mid, nodes, dst, e.name);
        if !ok {
          PartlyBelow(mid, nodes, src, dst, e.name, torn);
          PartlyMade(before, nodes, src, dst, torn);
        }
      }
    }

    /** `rmdir`: the directory must be empty. */
    method Rmdir(p: Path) returns (ok: bool)
      requires Tree(nodes)
      modifies this
      ensures Tree(nodes)
      ensures ok ==> p != [] && IsDir(old(nodes), p) && ChildNames(old(nodes), p) == {} && nodes == old(nodes) - {p}
      ensures !ok ==> nodes == old(nodes)
      ensures reliable && p != [] && IsDir(old(nodes), p) && ChildNames(old(nodes), p) == {} ==> ok
    {
      ok := Allowed();
      ok := ok && p != [] && IsDir(nodes, p) && ChildNames(nodes, p) == {};
      if ok {
        EmptyDirIsGone(nodes, p);
        nodes := nodes - {p};
      }
    }

    /** `remove` of a regular file */
    method RemoveFile(p: Path) returns (ok: bool)
      requires Tree(nodes) && p in nodes && nodes[p].File?
      modifies this
      ensures Tree(nodes)
      ensures ok ==> Gone(old(nodes), nodes, p)
      ensures !ok ==> nodes == old(nodes)
      ensures reliable ==> ok
    {
      ok := Allowed();
      if ok {
        FileIsGone(nodes, p);
        nodes := nodes - {p};
      }
    }

    /** `recursive_traverse` with `rmdir_cb`: empties a directory. */
    method EmptyDir(dir: Path) returns (ok: bool)
      requires Tree(nodes) && IsDir(nodes, dir)
      modifies this
      ensures Tree(nodes) && OnlyShrinks(old(nodes), nodes, dir) && IsDir(nodes, dir)
      ensures ok ==> PartGone(old(nodes), nodes, dir, ChildNames(old(nodes), dir))
      ensures ok ==> Reachable(old(nodes), dir)
      ensures reliable && Reachable(old(nodes), dir) ==> ok
      decreases MAX_PATH_LEN - PathLen(dir), 2
    {
      ReachableParts(nodes, dir);
      ok := Allowed();
      if !ok || PathLen(dir) >= MAX_PATH_LEN {
        return false;      // ENAMETOOLONG, or opendir failed
      }
      ghost var before := nodes;
      var names := ChildNames(nodes, dir);
      var todo := Entries(names);
      ghost var done: set<string> := {};
      while todo != {}
        invariant Pending(names, done, todo)
        invariant Tree(nodes) && PartGone(before, nodes, dir, done)
        invariant forall n :: n in done ==> Reachable(before, dir + [n])
        invariant DotDot !in todo ==> PathLen(dir) + 3 < MAX_PATH_LEN
        decreases |todo|
      {
        var e :| e in todo;
        PendingStep(names, done, todo, e);
        todo := todo - {e};
        ok := RemoveNext(before, dir, done, e);
        if !ok {
          return false;
        }
        done := done + Named(e);
      }
      PendingEnd(names, done, todo);
      PartGoneKeepsShape(before, nodes, dir, done);
      ok := Allowed();     // closedir
    }

    /** One turn of the loop in `recursive_traverse`. */
    method RemoveNext(ghost before: Nodes, dir: Path, ghost done: set<string>, e: Entry) returns (ok: bool)
      requires Tree(before) && IsDir(before, dir) && Named(e) <= ChildNames(before, dir) - done
      requires Tree(nodes) && PartGone(before, nodes, dir, done)
      modifies this
      ensures Tree(nodes) && OnlyShrinks(before, nodes, dir) && IsDir(nodes, dir)
      ensures ok ==> PartGone(before, nodes, dir, done + Named(e))
      ensures ok ==> PathLen(dir) + 1 + |EntryName(e)| < MAX_PATH_LEN
      ensures ok ==> forall n :: n in Named(e) ==> Reachable(before, dir + [n])
      ensures reliable && Reachable(before, dir) ==> ok
      decreases MAX_PATH_LEN - PathLen(dir), 1
    {
      PartGoneKeepsShape(before, nodes, dir, done);
      ReachableParts(before, dir);
      ok := Allowed();
      if e.Child? {
        NameExists(before, dir, e.name);
        ChildPath(dir, e.name);
        ReachableStays(before, nodes, dir, done, e.name);
        ReachesItself(before, dir + [e.name]);
        assert Get(nodes, dir + [e.name]) == Get(before, dir + [e.name]);
      }
      if !ok || PathLen(dir) + 1 + |EntryName(e)| >= MAX_PATH_LEN {
        return false;      // ENAMETOOLONG, or stat failed
      }
      if e.Child? {
        ghost var mid := nodes;
        ok := RemoveChild(dir + [e.name]);
        ShrinksWithin(before, mid, nodes, dir, done, e.name);
        if ok {
          GoneStep(before, mid, nodes, dir, done, e.name);
        }
      }
    }

    /** `rmdir_cb` for an entry other than "." and "..". */
    method RemoveChild(p: Path) returns (ok: bool)
      requires Tree(nodes) && p in nodes && p != [] && PathLen(p) < MAX_PATH_LEN
      modifies this
      ensures Tree(nodes) && OnlyShrinks(old(nodes), nodes, p)
      ensures ok ==> Gone(old(nodes), nodes, p) && Reachable(old(nodes), p)
      ensures reliable && Reachable(old(nodes), p) ==> ok
      decreases MAX_PATH_LEN - PathLen(p), 4
    {
      if IsDir(nodes, p) {
        ok := RemoveTree(p);
      } else {
        FileIsReachable(nodes, p);
        ok := RemoveFile(p);
      }
    }

    /** `recursive_traverse` and then `rmdir`, in `rmdir_cb` and in `libze_util_rmdir`. */
    method RemoveTree(dir: Path) returns (ok: bool)
      requires Tree(nodes) && IsDir(nodes, dir)
      modifies this
      ensures Tree(nodes) && OnlyShrinks(old(nodes), nodes, dir)
      ensures ok ==> dir != [] && Gone(old(nodes), nodes, dir) && Reachable(old(nodes), dir)
      ensures reliable && dir != [] && Reachable(old(nodes), dir) ==> ok
      decreases MAX_PATH_LEN - PathLen(dir), 3
    {
      ghost var before := nodes;
      ok := EmptyDir(dir);
      if ok {
        EmptiedDir(before, nodes, dir);
        ok := Rmdir(dir);
      }
    }

    /** `libze_util_rmdir` */
    method RemoveDir(dir: Path) returns (ok: bool)
      requires Tree(nodes)
      modifies this
      ensures Tree(nodes) && OnlyShrinks(old(nodes), nodes, dir)
      ensures ok ==> dir != [] && IsDir(old(nodes), dir) && Reachable(old(nodes), dir) && Gone(old(nodes), nodes, dir)
      ensures reliable && dir != [] && IsDir(old(nodes), dir) && Reachable(old(nodes), dir) ==> ok
    {
      if !IsDir(nodes, dir) {
        return false;      // ENOENT, or opendir failed
      }
      ok := RemoveTree(dir);
    }

    /** `libze_util_mkdir`, on the path as far as it fits: the buffer is cut at each slash for one call, and made
        whole again. */
    method MakeDirs(path: string) returns (ok: bool)
      requires Tree(nodes) && path != "" && IsCStr(path)
      modifies this
      ensures Tree(nodes) && OnlyPrefixesAdded(old(nodes), nodes, FittingPath(path))
      ensures ok ==> PrefixesMade(nodes, FittingPath(path), |FittingPath(path)| + 1)
      ensures reliable && NoFileAt(old(nodes), FittingPath(path)) ==> ok
    {
      var text := FittingPath(path);
      var buf := new char[MAX_PATH_LEN];
      var n := StrLCpyInto(buf, path);
      var i := 1;
      while i < |text|
        invariant 1 <= i <= |text| && Holds(buf[..], text) && Tree(nodes)
        invariant OnlyPrefixesAdded(old(nodes), nodes, text) && PrefixesMade(nodes, text, i)
      {
        ok := EnsureNext(old(nodes), buf, text, i);
        if !ok {
          return false;
        }
        i := i + 1;
      }
      ok := EnsurePrefix(old(nodes), buf, text, |text|);
    }

    /** One character of the path: at a slash the buffer is cut for the call. */
    method EnsureNext(ghost before: Nodes, buf: array<char>, ghost text: string, i: nat) returns (ok: bool)
      requires Tree(nodes) && 1 <= i < |text| && Holds(buf[..], text)
      requires OnlyPrefixesAdded(before, nodes, text) && PrefixesMade(nodes, text, i)
      modifies this, buf
      ensures Tree(nodes) && OnlyPrefixesAdded(before, nodes, text)
      ensures ok ==> Holds(buf[..], text) && PrefixesMade(nodes, text, i + 1)
      ensures reliable && NoFileAt(before, text) ==> ok
    {
      if buf[i] != '/' {
        return true;
      }
      buf[i] := '\0';
      ok := EnsurePrefix(before, buf, text, i);
      if ok {
        buf[i] := '/';
      }
    }

    /** `mkdir` for the path the buffer is cut to. */
    method EnsurePrefix(ghost before: Nodes, buf: array<char>, ghost text: string, i: nat) returns (ok: bool)
      requires Tree(nodes) && SlashPrefix(text, i) && Holds(buf[..], text[..i])
      requires OnlyPrefixesAdded(before, nodes, text) && PrefixesMade(nodes, text, i)
      modifies this
      ensures Tree(nodes) && OnlyPrefixesAdded(before, nodes, text)
      ensures ok ==> PrefixesMade(nodes, text, i + 1)
      ensures reliable && NoFileAt(before, text) ==> ok
    {
      HoldsCStrOf(buf[..], text[..i]);
      if NoFileAt(before, text) {
        RoomForPrefix(before, nodes, text, i);
        PrefixIsNoFile(before, nodes, text, i);
      }
      ghost var mid := nodes;
      ok := EnsureDir(Resolve(CStrOf(buf[..])));
      if ok {
        PrefixAdded(before, mid, text, i);
      }
    }
  }
}
