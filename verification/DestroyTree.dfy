/** The recursive destroy: snapshots, then children, then the dataset itself, then the origin it was cloned from. */
module DestroyTree {
  import opened CString
  import opened Names
  import opened Pools

  datatype Options = Options(force: bool, destroyOrigin: bool)

  /** `s` is the origin of a filesystem that went. */
  ghost predicate OriginGone(before: Pool, after: Pool, s: Snap) {
    exists x :: x in before.fs && x !in after.fs && before.fs[x].origin == Some(s)
  }

  /** `after` is `before` with nothing taken but filesystems within `d`, none of them mounted unless by force,
      their snapshots and, when asked for, the origins of those that went. */
  ghost predicate Pruned(before: Pool, after: Pool, d: string, o: Options) {
    && after.fs.Keys <= before.fs.Keys
    && (forall x :: x in after.fs ==> after.fs[x] == before.fs[x])
    && (forall x :: x in before.fs && x !in after.fs ==> Within(d, x) && (o.force || x !in before.mounted))
    && after.snaps <= before.snaps
    && (forall s :: s in before.snaps && s !in after.snaps ==>
          Within(d, s.ds) || (o.destroyOrigin && OriginGone(before, after, s)))
    && after.mounted <= before.mounted
    && (forall x :: x in before.mounted && x !in after.mounted ==> Within(d, x) && o.force)
  }

  /** The origins of the filesystems that went are gone too, when that was asked for. */
  ghost predicate OriginsTaken(before: Pool, after: Pool, o: Options) {
    o.destroyOrigin ==>
      forall x :: x in before.fs && x !in after.fs && before.fs[x].origin.Some? ==> before.fs[x].origin.value !in after.snaps
  }

  lemma OriginsTakenTwice(before: Pool, mid: Pool, after: Pool, d: string, o: Options)
    requires Pruned(before, mid, d, o) && Pruned(mid, after, d, o)
    requires OriginsTaken(before, mid, o) && OriginsTaken(mid, after, o)
    ensures OriginsTaken(before, after, o)
  {
    if o.destroyOrigin {
      forall x | x in before.fs && x !in after.fs && before.fs[x].origin.Some?
        ensures before.fs[x].origin.value !in after.snaps
      {
        assert x in mid.fs ==> mid.fs[x] == before.fs[x];
      }
    }
  }

  lemma PrunedTwice(before: Pool, mid: Pool, after: Pool, d: string, o: Options)
    requires Pruned(before, mid, d, o) && Pruned(mid, after, d, o)
    ensures Pruned(before, after, d, o)
  {
    forall x | x in after.fs ensures after.fs[x] == before.fs[x] {
      assert x in mid.fs;
    }
    forall s | s in before.snaps && s !in after.snaps
      ensures Within(d, s.ds) || (o.destroyOrigin && OriginGone(before, after, s))
    {
      if s in mid.snaps && OriginGone(mid, after, s) {
        var x :| x in mid.fs && x !in after.fs && mid.fs[x].origin == Some(s);
        assert before.fs[x].origin == Some(s);
      } else if s !in mid.snaps && OriginGone(before, mid, s) {
        var x :| x in before.fs && x !in mid.fs && before.fs[x].origin == Some(s);
        assert x !in after.fs;
      }
    }
  }

  /** One subtree and then another were pruned. */
  ghost predicate PrunedBoth(before: Pool, after: Pool, d: string, e: string, o: Options) {
    && after.fs.Keys <= before.fs.Keys
    && (forall x :: x in after.fs ==> after.fs[x] == before.fs[x])
    && (forall x :: x in before.fs && x !in after.fs ==> (Within(d, x) || Within(e, x)) && (o.force || x !in before.mounted))
    && after.snaps <= before.snaps
    && (forall s :: s in before.snaps && s !in after.snaps ==>
          Within(d, s.ds) || Within(e, s.ds) || (o.destroyOrigin && OriginGone(before, after, s)))
    && after.mounted <= before.mounted
    && (forall x :: x in before.mounted && x !in after.mounted ==> (Within(d, x) || Within(e, x)) && o.force)
  }

  lemma PrunedThen(before: Pool, mid: Pool, after: Pool, d: string, e: string, o: Options)
    requires Pruned(before, mid, d, o) && Pruned(mid, after, e, o)
    ensures PrunedBoth(before, after, d, e, o)
    ensures OriginsTaken(before, mid, o) && OriginsTaken(mid, after, o) ==> OriginsTaken(before, after, o)
  {
    forall x | x in after.fs ensures after.fs[x] == before.fs[x] {
      assert x in mid.fs;
    }
    forall s | s in before.snaps && s !in after.snaps
      ensures Within(d, s.ds) || Within(e, s.ds) || (o.destroyOrigin && OriginGone(before, after, s))
    {
      if s in mid.snaps && OriginGone(mid, after, s) {
        var x :| x in mid.fs && x !in after.fs && mid.fs[x].origin == Some(s);
        assert before.fs[x].origin == Some(s);
      } else if s !in mid.snaps && OriginGone(before, mid, s) {
        var x :| x in before.fs && x !in mid.fs && before.fs[x].origin == Some(s);
        assert x !in after.fs;
      }
    }
    if OriginsTaken(before, mid, o) && OriginsTaken(mid, after, o) && o.destroyOrigin {
      forall x | x in before.fs && x !in after.fs && before.fs[x].origin.Some?
        ensures before.fs[x].origin.value !in after.snaps
      {
        assert x in mid.fs ==> mid.fs[x] == before.fs[x];
      }
    }
  }

  lemma PrunedBelow(before: Pool, after: Pool, c: string, d: string, o: Options)
    requires Pruned(before, after, c, o) && Within(d, c)
    ensures Pruned(before, after, d, o)
  {
    forall x | Within(c, x) ensures Within(d, x) {
      UnderTransitive(d, c, x);
    }
  }

  /** The child of `d` that `x` stands within. */
  function BranchOf(d: string, x: string): (c: string)
    requires Under(d, x)
    ensures ChildOf(d, c) && Within(c, x)
  {
    var j := SlashFrom(x, |d| + 1);
    assert x[..j][..|d|] == x[..|d|];
    assert x[..j][|d| + 1..] == x[|d| + 1..j];
    assert j == |x| ==> x[..j] == x;
    x[..j]
  }

  function SlashFrom(s: string, i: nat): (j: nat)
    requires i <= |s|
    ensures i <= j <= |s| && '/' !in s[i..j] && (j < |s| ==> s[j] == '/')
    decreases |s| - i
  {
    if i == |s| || s[i] == '/' then i
    else
      var j := SlashFrom(s, i + 1);
      assert s[i..j] == [s[i]] + s[i + 1..j];
      j
  }

  lemma BranchIsUnique(d: string, c: string, x: string)
    requires ChildOf(d, c) && Within(c, x)
    ensures Under(d, x) && BranchOf(d, x) == c
  {
    UnderTransitive(d, c, x);
    var b := BranchOf(d, x);
    if |b| <= |c| {
      HoldersAreNested(b, c, x);
      ChildWithinSelfOnly(d, b, c);
    } else {
      HoldersAreNested(c, b, x);
      ChildWithinSelfOnly(d, c, b);
    }
  }

  /** No other filesystem was cloned from the same snapshot. */
  ghost predicate SoleClone(p: Pool, x: string)
    requires x in p.fs
  {
    forall y :: y in p.fs && y != x ==> p.fs[y].origin != p.fs[x].origin
  }

  /** Nothing that is mounted within `d` has something mounted below it. */
  ghost predicate Flat(p: Pool, d: string) {
    forall x, y {:trigger Under(x, y)} :: x in p.mounted && y in p.mounted && Within(d, x) ==> !Under(x, y)
  }

  /** What the walk asks of the mounts: none without force; with it each must be free when it is reached, and a
      dataset is reached before its children are unmounted. */
  ghost predicate MountsAllow(p: Pool, d: string, o: Options) {
    if o.force then Flat(p, d) else forall x :: x in p.mounted ==> !Within(d, x)
  }

  /** Nothing in the pool stands in the way: no snapshot of the subtree has a clone, no clone in it shares its
      origin, and the mounts allow it. */
  ghost predicate Unhindered(p: Pool, d: string, o: Options) {
    && MountsAllow(p, d, o)
    && (forall x :: x in p.fs && p.fs[x].origin.Some? ==> !Within(d, p.fs[x].origin.value.ds))
    && (o.destroyOrigin ==> forall x :: x in p.fs && Within(d, x) && p.fs[x].origin.Some? ==> SoleClone(p, x))
  }

  lemma StillUnhindered(before: Pool, after: Pool, e: string, d: string, o: Options)
    requires Unhindered(before, d, o) && Pruned(before, after, e, o)
    ensures Unhindered(after, d, o)
  {
  }

  lemma UnhinderedBelow(p: Pool, d: string, c: string, o: Options)
    requires Unhindered(p, d, o) && Within(d, c)
    ensures Unhindered(p, c, o)
  {
    forall x | Within(c, x) ensures Within(d, x) {
      UnderTransitive(d, c, x);
    }
  }

  lemma NothingTaken(p: Pool, d: string, o: Options)
    ensures Pruned(p, p, d, o)
  {
  }

  lemma UnmountTaken(p: Pool, d: string, o: Options)
    requires o.force
    ensures Pruned(p, p.(mounted := p.mounted - {d}), d, o)
  {
  }

  lemma SnapTaken(before: Pool, mid: Pool, d: string, s: Snap, o: Options)
    requires Pruned(before, mid, d, o)
    requires s.ds == d || (o.destroyOrigin && OriginGone(before, mid, s))
    ensures Pruned(before, mid.WithoutSnap(s), d, o)
  {
    var after := mid.WithoutSnap(s);
    forall t | t in before.snaps && t !in after.snaps
      ensures Within(d, t.ds) || (o.destroyOrigin && OriginGone(before, after, t))
    {
      assert t == s || t !in mid.snaps;
      if o.destroyOrigin && OriginGone(before, mid, t) {
        var x :| x in before.fs && x !in mid.fs && before.fs[x].origin == Some(t);
        assert x !in after.fs;
      }
    }
  }

  lemma SelfTaken(before: Pool, mid: Pool, d: string, o: Options)
    requires Pruned(before, mid, d, o) && (o.force || d !in before.mounted)
    ensures Pruned(before, mid.Without(d), d, o)
  {
    var after := mid.Without(d);
    forall s | s in before.snaps && s !in after.snaps
      ensures Within(d, s.ds) || (o.destroyOrigin && OriginGone(before, after, s))
    {
      assert s !in mid.snaps;
      if o.destroyOrigin && OriginGone(before, mid, s) {
        var x :| x in before.fs && x !in mid.fs && before.fs[x].origin == Some(s);
        assert x !in after.fs;
      }
    }
  }

  /** A snapshot of an unhindered dataset can be destroyed. */
  lemma SnapIsFree(p: Pool, d: string, s: Snap, o: Options)
    requires Unhindered(p, d, o) && Within(d, s.ds)
    ensures !p.HasClones(s)
  {
  }

  /** Once its only clone is gone, so can an origin. */
  lemma OriginIsFree(before: Pool, mid: Pool, d: string, o: Options)
    requires mid.Valid() && Unhindered(before, d, o) && Pruned(before, mid, d, o) && o.destroyOrigin
    requires d in mid.fs && mid.fs[d].origin.Some?
    ensures var s := mid.fs[d].origin.value; s in mid.Without(d).snaps && !mid.Without(d).HasClones(s)
  {
    assert SoleClone(before, d);
    var s := mid.fs[d].origin.value;
    forall y | y in mid.Without(d).fs ensures mid.Without(d).fs[y].origin != Some(s) {
      assert y in mid.fs && y != d && mid.fs[y] == before.fs[y] && before.fs[d] == mid.fs[d];
    }
  }

  /** The mounts below `d` as the walk over its children finds them: untouched within the children in `todo`, and
      without one above another within the others. */
  ghost predicate MountsLeft(start: Pool, p: Pool, d: string, todo: set<string>) {
    && (d in p.mounted <==> d in start.mounted)
    && (forall x :: x in start.mounted && Under(d, x) && BranchOf(d, x) in todo ==> x in p.mounted)
    && (forall x, y {:trigger Under(x, y)} ::
          x in start.mounted && y in start.mounted && Under(d, x) && Under(x, y) ==> BranchOf(d, x) in todo)
  }

  lemma MountsAtFirst(p: Pool, d: string)
    requires p.Valid()
    ensures MountsLeft(p, p, d, Children(p, d))
  {
    ChildrenHold(p, d);
  }

  lemma MountsStep(start: Pool, mid: Pool, after: Pool, d: string, c: string, todo: set<string>, o: Options)
    requires MountsLeft(start, mid, d, todo) && c in todo && ChildOf(d, c) && Pruned(mid, after, c, o) && Flat(mid, c)
    ensures MountsLeft(start, after, d, todo - {c})
  {
    forall x | x in start.mounted && Under(d, x) && BranchOf(d, x) in todo - {c} ensures x in after.mounted {
      if Within(c, x) {
        BranchIsUnique(d, c, x);
      }
    }
    forall x, y | x in start.mounted && y in start.mounted && Under(d, x) && Under(x, y)
      ensures BranchOf(d, x) in todo - {c}
    {
      if BranchOf(d, x) == c {
        UnderTransitive(c, x, y);
        BranchIsUnique(d, c, y);
      }
    }
  }

  lemma MountsAtLast(start: Pool, p: Pool, d: string)
    requires MountsLeft(start, p, d, {}) && d !in start.mounted
    ensures Flat(start, d)
  {
  }

  /** A dataset that something mounted keeps from being unmounted is not flat. */
  lemma FlatBefore(before: Pool, start: Pool, d: string)
    requires start.mounted == before.mounted - {d} && Flat(start, d)
    requires d in before.mounted ==> forall x :: x in before.mounted ==> !Under(d, x)
    ensures Flat(before, d)
  {
    forall x, y | x in before.mounted && y in before.mounted && Within(d, x) ensures !Under(x, y) {
      if x != d {
        UnderIsLonger(d, x, y);
      }
    }
  }

  lemma UnderIsLonger(d: string, x: string, y: string)
    requires Under(d, x)
    ensures Under(x, y) ==> x != d && y != d
  {
  }

  /** `libze_destroy_cb` on a filesystem: it is unmounted before its children, and the result is not looked at. */
  method Destroy(z: Zfs, d: string, o: Options) returns (ok: bool)
    requires z.pool.Valid() && d in z.pool.fs
    modifies z`pool
    ensures z.pool.Valid() && Pruned(old(z.pool), z.pool, d, o)
    ensures ok ==> (forall x :: x in z.pool.fs ==> !Within(d, x)) && OriginsTaken(old(z.pool), z.pool, o)
    ensures ok ==> MountsAllow(old(z.pool), d, o)
    ensures d in old(z.pool.mounted) && (exists x :: x in old(z.pool.mounted) && Under(d, x)) ==> !ok && d in z.pool.fs
    ensures z.reliable && Unhindered(old(z.pool), d, o) ==> ok
    decreases MAX_DATASET_LEN - |d|
  {
    ghost var before := z.pool;
    NothingTaken(before, d, o);
    if d in z.pool.mounted {
      if !o.force {
        return false;
      }
      UnmountTaken(before, d, o);
      var unmounted := z.Unmount(d);
    }
    ghost var start := z.pool;
    StartFrom(before, start, d, o);
    ok := DestroyOpened(z, d, o);
    PrunedTwice(before, start, z.pool, d, o);
    if ok {
      OriginsTakenTwice(before, start, z.pool, d, o);
      AllowedBefore(before, start, z.pool, d, o);
    }
  }

  lemma StartFrom(before: Pool, start: Pool, d: string, o: Options)
    requires start == before || start == before.(mounted := before.mounted - {d})
    requires Pruned(before, start, d, o)
    ensures OriginsTaken(before, start, o)
    ensures Unhindered(before, d, o) ==> Unhindered(start, d, o)
  {
    if Unhindered(before, d, o) {
      StillUnhindered(before, start, d, d, o);
    }
  }

  lemma AllowedBefore(before: Pool, start: Pool, after: Pool, d: string, o: Options)
    requires start == before || start == before.(mounted := before.mounted - {d})
    requires d in before.mounted ==> forall x :: x in before.mounted ==> !Under(d, x)
    requires before.Valid() && Pruned(before, after, d, o) && forall x :: x in after.fs ==> !Within(d, x)
    requires Flat(start, d) && d !in start.mounted
    ensures MountsAllow(before, d, o)
  {
    if o.force {
      assert start.mounted == before.mounted - {d};
      FlatBefore(before, start, d);
    } else {
      forall x | x in before.mounted ensures !Within(d, x) {
        assert x in before.fs;
      }
    }
  }

  /** The rest of the callback, after the unmount. */
  method DestroyOpened(z: Zfs, d: string, o: Options) returns (ok: bool)
    requires z.pool.Valid() && d in z.pool.fs && (o.force || d !in z.pool.mounted)
    modifies z`pool
    ensures z.pool.Valid() && Pruned(old(z.pool), z.pool, d, o)
    ensures ok ==> (forall x :: x in z.pool.fs ==> !Within(d, x)) && OriginsTaken(old(z.pool), z.pool, o)
    ensures ok ==> d !in old(z.pool.mounted) && Flat(old(z.pool), d)
    ensures d in old(z.pool.mounted) ==> !ok && d in z.pool.fs
    ensures z.reliable && d !in old(z.pool.mounted) && Unhindered(old(z.pool), d, o) ==> ok
    decreases MAX_DATASET_LEN - |d|, 4
  {
    ghost var start := z.pool;
    NothingTaken(start, d, o);
    var origin: Option<Snap> := None;
    if o.destroyOrigin && z.pool.fs[d].origin.Some? {
      origin := z.pool.fs[d].origin;
      ok := z.Allowed();                 // zfs_open
      if !ok {
        return false;
      }
    }
    ghost var free := d !in start.mounted && Unhindered(start, d, o);
    ok := DestroyChildren(z, start, free, d, o);
    if ok {
      ok := DestroySelf(z, start, free, d, origin, o);
    }
  }

  /** The dataset itself, and then the snapshot it was cloned from. */
  method DestroySelf(z: Zfs, ghost start: Pool, ghost free: bool, d: string, origin: Option<Snap>, o: Options)
    returns (ok: bool)
    requires z.pool.Valid() && d in z.pool.fs && z.pool.Bare(d)
    requires Pruned(start, z.pool, d, o) && (o.force || d !in start.mounted)
    requires origin == if o.destroyOrigin then z.pool.fs[d].origin else None
    requires OriginsTaken(start, z.pool, o) && MountsLeft(start, z.pool, d, {})
    requires free ==> d !in start.mounted && Unhindered(start, d, o)
    modifies z`pool
    ensures z.pool.Valid() && Pruned(start, z.pool, d, o)
    ensures ok ==> (forall x :: x in z.pool.fs ==> !Within(d, x)) && OriginsTaken(start, z.pool, o)
    ensures ok ==> d !in start.mounted && Flat(start, d)
    ensures d in start.mounted ==> !ok && d in z.pool.fs
    ensures z.reliable && free ==> ok
  {
    ghost var mid := z.pool;
    ok := z.Destroy(d);
    if ok {
      MountsAtLast(start, mid, d);
      SelfTaken(start, mid, d, o);
      if origin.Some? {
        if free {
          OriginIsFree(start, mid, d, o);
        }
        assert OriginGone(start, z.pool, origin.value) by {
          assert d in start.fs && d !in z.pool.fs && start.fs[d] == mid.fs[d];
        }
        SnapTaken(start, z.pool, d, origin.value, o);
        ok := z.DestroySnap(origin.value);
      }
    }
  }

  /** `zfs_iter_children`: snapshots first, then the child filesystems. */
  method DestroyChildren(z: Zfs, ghost start: Pool, ghost free: bool, d: string, o: Options) returns (ok: bool)
    requires z.pool == start && start.Valid() && d in start.fs
    requires free ==> Unhindered(start, d, o)
    modifies z`pool
    ensures z.pool.Valid() && Pruned(start, z.pool, d, o) && d in z.pool.fs
    ensures ok ==> z.pool.Bare(d) && OriginsTaken(start, z.pool, o) && MountsLeft(start, z.pool, d, {})
    ensures z.reliable && free ==> ok
    decreases MAX_DATASET_LEN - |d|, 2
  {
    NothingTaken(start, d, o);
    ok := DestroySnaps(z, start, free, d, o);
    if !ok {
      return false;
    }
    var kids := Children(z.pool, d);
    ChildrenHold(z.pool, d);
    MountsAtFirst(start, d);
    ok := DestroyEach(z, start, free, d, kids, o);
  }

  function Children(p: Pool, d: string): set<string> { set x | x in p.fs && ChildOf(d, x) }

  /** After the last child: the dataset can be destroyed. */
  ghost predicate ChildrenGone(start: Pool, p: Pool, d: string, o: Options) {
    p.Bare(d) && OriginsTaken(start, p, o) && MountsLeft(start, p, d, {})
  }

  lemma LastChildGone(start: Pool, p: Pool, d: string, o: Options)
    requires EachState(start, p, d, {}, o)
    ensures ChildrenGone(start, p, d, o)
  {
    AllBranchesGone(p, d);
  }

  lemma StillGoing(start: Pool, p: Pool, d: string, todo: set<string>, o: Options)
    requires EachState(start, p, d, todo, o)
    ensures Going(start, p, d, o) && d in p.fs
  {
  }

  /** The callback for each child that is left. */
  method DestroyEach(z: Zfs, ghost start: Pool, ghost free: bool, d: string, todo: set<string>, o: Options)
    returns (ok: bool)
    requires EachState(start, z.pool, d, todo, o)
    requires free ==> Unhindered(start, d, o)
    modifies z`pool
    ensures Going(start, z.pool, d, o) && d in z.pool.fs
    ensures ok ==> ChildrenGone(start, z.pool, d, o)
    ensures z.reliable && free ==> ok
    decreases MAX_DATASET_LEN - |d|, 1, todo
  {
    if todo == {} {
      StillGoing(start, z.pool, d, todo, o);
      LastChildGone(start, z.pool, d, o);
      return true;
    }
    var c :| c in todo;
    ok := DestroyFrom(z, start, free, d, c, todo, o);
  }

  /** One of the children, and then the rest. */
  method DestroyFrom(z: Zfs, ghost start: Pool, ghost free: bool, d: string, c: string, todo: set<string>, o: Options)
    returns (ok: bool)
    requires EachState(start, z.pool, d, todo, o) && c in todo
    requires free ==> Unhindered(start, d, o)
    modifies z`pool
    ensures Going(start, z.pool, d, o) && d in z.pool.fs
    ensures ok ==> ChildrenGone(start, z.pool, d, o)
    ensures z.reliable && free ==> ok
    decreases MAX_DATASET_LEN - |d|, 1, todo, 0
  {
    ok := DestroyChild(z, start, free, d, c, todo, o);
    if ok {
      ok := DestroyEach(z, start, free, d, todo - {c}, o);
    }
  }

  method DestroyChild(z: Zfs, ghost start: Pool, ghost free: bool, d: string, c: string, ghost todo: set<string>, o: Options)
    returns (ok: bool)
    requires EachState(start, z.pool, d, todo, o) && c in todo
    requires free ==> Unhindered(start, d, o)
    modifies z`pool
    ensures Going(start, z.pool, d, o) && d in z.pool.fs
    ensures ok ==> EachState(start, z.pool, d, todo - {c}, o)
    ensures z.reliable && free ==> ok
    decreases MAX_DATASET_LEN - |d|, 0
  {
    ghost var mid := z.pool;
    if free {
      StillUnhindered(start, mid, d, d, o);
      UnhinderedBelow(mid, d, c, o);
    }
    ok := Destroy(z, c, o);
    PrunedBelow(mid, z.pool, c, d, o);
    PrunedTwice(start, mid, z.pool, d, o);
    ParentStays(mid, z.pool, d, c, o);
    if ok {
      OriginsTakenTwice(start, mid, z.pool, d, o);
      BranchGone(mid, z.pool, d, c, todo, o);
      AllowedIsFlat(mid, c, o);
      MountsStep(start, mid, z.pool, d, c, todo, o);
    }
  }

  ghost predicate SnapFree(p: Pool, d: string) { forall s :: s in p.snaps ==> s.ds != d }

  /** `todo` are children of `d` that are still there, and whatever lies below `d` lies within one of them. */
  ghost predicate Branches(p: Pool, d: string, todo: set<string>) {
    && (forall c :: c in todo ==> c in p.fs && ChildOf(d, c))
    && (forall x :: x in p.fs && Under(d, x) ==> BranchOf(d, x) in todo)
  }

  /** Between two children: the snapshots are gone, and the children in `todo` remain. */
  ghost predicate EachState(start: Pool, p: Pool, d: string, todo: set<string>, o: Options) {
    && Going(start, p, d, o) && d in p.fs && SnapFree(p, d) && Branches(p, d, todo) && OriginsTaken(start, p, o)
    && MountsLeft(start, p, d, todo)
  }

  ghost predicate Going(before: Pool, p: Pool, d: string, o: Options) { p.Valid() && Pruned(before, p, d, o) }

  lemma ChildrenHold(p: Pool, d: string)
    requires p.Valid()
    ensures Branches(p, d, Children(p, d))
  {
    forall x | x in p.fs && Under(d, x) ensures BranchOf(d, x) in Children(p, d) {
      var c := BranchOf(d, x);
      assert c == x || Under(c, x);
    }
  }

  lemma AllowedIsFlat(p: Pool, d: string, o: Options)
    requires MountsAllow(p, d, o)
    ensures Flat(p, d)
  {
  }

  lemma SiblingStays(mid: Pool, after: Pool, d: string, c: string, e: string, o: Options)
    requires Pruned(mid, after, c, o) && ChildOf(d, c) && ChildOf(d, e) && e in mid.fs && e != c
    ensures e in after.fs
  {
    if Within(c, e) {
      ChildWithinSelfOnly(d, c, e);
    }
  }

  lemma BranchGone(mid: Pool, after: Pool, d: string, c: string, todo: set<string>, o: Options)
    requires Branches(mid, d, todo) && c in todo && Pruned(mid, after, c, o)
    requires forall x :: x in after.fs ==> !Within(c, x)
    ensures Branches(after, d, todo - {c})
  {
    forall e | e in todo - {c} ensures e in after.fs && ChildOf(d, e) {
      SiblingStays(mid, after, d, c, e, o);
    }
    forall x | x in after.fs && Under(d, x) ensures BranchOf(d, x) in todo - {c} {
      BranchLeft(mid, d, c, x, todo);
    }
  }

  lemma BranchLeft(mid: Pool, d: string, c: string, x: string, todo: set<string>)
    requires Branches(mid, d, todo) && x in mid.fs && Under(d, x) && !Within(c, x)
    ensures BranchOf(d, x) in todo - {c}
  {
  }

  lemma ParentStays(mid: Pool, after: Pool, d: string, c: string, o: Options)
    requires Pruned(mid, after, c, o) && ChildOf(d, c) && d in mid.fs && SnapFree(mid, d)
    ensures d in after.fs && SnapFree(after, d)
  {
  }

  lemma AllBranchesGone(p: Pool, d: string)
    requires Branches(p, d, {}) && SnapFree(p, d)
    ensures p.Bare(d)
  {
  }

  /** What a destroy that succeeded found about a clone outside of what it took: it was no clone of a snapshot in
      there, and of none that a clone in there was made from, if the origins were to go. Clones within the subtree
      are another matter: whether their snapshots are free in time depends on the order of the children. */
  lemma ClonesOutside(before: Pool, after: Pool, d: string, o: Options, x: string, y: string)
    requires Pruned(before, after, d, o) && after.Valid() && (forall z :: z in after.fs ==> !Within(d, z))
    requires OriginsTaken(before, after, o)
    requires x in before.fs && !Within(d, x) && before.fs[x].origin.Some? && y in before.fs && Within(d, y)
    ensures !Within(d, before.fs[x].origin.value.ds)
    ensures o.destroyOrigin ==> before.fs[y].origin != before.fs[x].origin
  {
    assert x in after.fs && after.fs[x] == before.fs[x];
    assert y !in after.fs;
  }

  method DestroySnaps(z: Zfs, ghost start: Pool, ghost free: bool, d: string, o: Options) returns (ok: bool)
    requires z.pool.Valid() && d in z.pool.fs && Pruned(start, z.pool, d, o) && OriginsTaken(start, z.pool, o)
    requires free ==> Unhindered(start, d, o)
    modifies z`pool
    ensures z.pool.Valid() && Pruned(start, z.pool, d, o)
    ensures z.pool.fs == old(z.pool.fs) && z.pool.mounted == old(z.pool.mounted)
    ensures ok ==> SnapFree(z.pool, d) && OriginsTaken(start, z.pool, o)
    ensures z.reliable && free ==> ok
  {
    var todo := set s | s in z.pool.snaps && s.ds == d;
    while todo != {}
      invariant z.pool.Valid() && Pruned(start, z.pool, d, o)
      invariant z.pool.fs == old(z.pool.fs) && z.pool.mounted == old(z.pool.mounted)
      invariant OriginsTaken(start, z.pool, o)
      invariant forall s :: s in todo <==> s in z.pool.snaps && s.ds == d
      decreases todo
    {
      var s :| s in todo;
      SnapTaken(start, z.pool, d, s, o);
      if free {
        StillUnhindered(start, z.pool, d, d, o);
        SnapIsFree(z.pool, d, s, o);
      }
      ok := z.DestroySnap(s);
      if !ok {
        return false;
      }
      todo := todo - {s};
    }
    ok := true;
  }
}
