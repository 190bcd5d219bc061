/** Mounting and unmounting a boot environment with all that lies below it. */
module MountTree {
  import opened CString
  import opened Names
  import opened Pools
  import opened DestroyTree

  // ---------------------------------------------------------------- unmounting

  /** Only what stands within `d` was unmounted. */
  ghost predicate OnlyUnmounted(before: Pool, after: Pool, d: string) {
    && after.fs == before.fs && after.snaps == before.snaps && after.mounted <= before.mounted
    && forall x :: x in before.mounted && x !in after.mounted ==> Within(d, x)
  }

  /** All that stands within `d` was unmounted, and nothing else. */
  ghost predicate AllUnmounted(before: Pool, after: Pool, d: string) {
    && after.fs == before.fs && after.snaps == before.snaps
    && forall x :: x in after.mounted <==> x in before.mounted && !Within(d, x)
  }

  /** What is still mounted below `d` lies within a child in `todo`. */
  ghost predicate LeftMounted(p: Pool, d: string, todo: set<string>) {
    && (forall c :: c in todo ==> c in p.fs && ChildOf(d, c))
    && (forall x :: x in p.mounted && Under(d, x) ==> BranchOf(d, x) in todo)
  }

  lemma UnmountedStep(before: Pool, mid: Pool, after: Pool, d: string, c: string)
    requires OnlyUnmounted(before, mid, d) && OnlyUnmounted(mid, after, c) && ChildOf(d, c)
    ensures OnlyUnmounted(before, after, d)
  {
    forall x | x in before.mounted && x !in after.mounted ensures Within(d, x) {
      if x in mid.mounted {
        UnderTransitive(d, c, x);
      }
    }
  }

  lemma LeftStep(mid: Pool, after: Pool, d: string, c: string, todo: set<string>)
    requires LeftMounted(mid, d, todo) && AllUnmounted(mid, after, c)
    ensures LeftMounted(after, d, todo - {c})
  {
    forall x | x in after.mounted && Under(d, x) ensures BranchOf(d, x) in todo - {c} {
      assert x in mid.mounted && !Within(c, x);
    }
  }

  lemma LeftAtFirst(p: Pool, d: string)
    requires p.Valid()
    ensures LeftMounted(p, d, Children(p, d))
  {
    ChildrenHold(p, d);
  }

  /** `unmount_callback`: the children first. */
  method UnmountTree(z: Zfs, d: string) returns (ok: bool)
    requires z.pool.Valid() && d in z.pool.fs
    modifies z`pool
    ensures z.pool.Valid() && OnlyUnmounted(old(z.pool), z.pool, d)
    ensures ok ==> AllUnmounted(old(z.pool), z.pool, d)
    ensures z.reliable ==> ok
    decreases MAX_DATASET_LEN - |d|
  {
    ghost var before := z.pool;
    LeftAtFirst(z.pool, d);
    ok := UnmountEach(z, before, d, Children(z.pool, d));
    if ok && d in z.pool.mounted {
      ok := z.Unmount(d);
    }
  }

  method UnmountEach(z: Zfs, ghost before: Pool, d: string, todo: set<string>) returns (ok: bool)
    requires z.pool.Valid() && d in z.pool.fs && OnlyUnmounted(before, z.pool, d) && LeftMounted(z.pool, d, todo)
    requires d in before.mounted ==> d in z.pool.mounted
    modifies z`pool
    ensures z.pool.Valid() && OnlyUnmounted(before, z.pool, d)
    ensures d in before.mounted ==> d in z.pool.mounted
    ensures ok ==> forall x :: x in z.pool.mounted ==> !Under(d, x)
    ensures z.reliable ==> ok
    decreases MAX_DATASET_LEN - |d|, 0, todo
  {
    if todo == {} {
      return true;
    }
    var c :| c in todo;
    ghost var mid := z.pool;
    ok := UnmountTree(z, c);
    UnmountedStep(before, mid, z.pool, d, c);
    if ok {
      LeftStep(mid, z.pool, d, c, todo);
      ok := UnmountEach(z, before, d, todo - {c});
    }
  }

  // ---------------------------------------------------------------- mounting

  /** To be mounted: the boot environment `be` itself, and whatever is neither there just for the hierarchy nor
      left to fstab. */
  predicate Due(p: Pool, be: string, x: string) {
    x in p.fs && (x == be || (p.fs[x].mountpoint != "none" && p.fs[x].mountpoint != "legacy"))
  }

  /** `x` was mounted in between. */
  predicate Fresh(before: Pool, after: Pool, x: string) { x in after.mounted && x !in before.mounted }

  /** Only what is due within `d` was mounted, and each only after all due that it stands within. */
  ghost predicate OnlyMounted(before: Pool, after: Pool, be: string, d: string) {
    && after.fs == before.fs && after.snaps == before.snaps && before.mounted <= after.mounted
    && (forall x :: Fresh(before, after, x) ==> Within(d, x) && Due(before, be, x))
    && (forall a, x {:trigger Under(a, x)} ::
          Fresh(before, after, x) && Due(before, be, a) && Within(d, a) && Under(a, x) ==> Fresh(before, after, a))
  }

  /** The mountpoint of `x` under `at` is within the limit. */
  predicate Short(p: Pool, be: string, at: string, x: string)
    requires x in p.fs
  {
    x == be || |at| + |p.fs[x].mountpoint| < MAX_PATH_LEN
  }

  /** All that is due within `d` was mounted, having been unmounted before. */
  ghost predicate AllMounted(before: Pool, after: Pool, be: string, at: string, d: string) {
    forall x :: x in before.fs && Within(d, x) && Due(before, be, x) ==> Fresh(before, after, x) && Short(before, be, at, x)
  }

  /** `d` itself and what lies within the children not in `todo` has been mounted. */
  ghost predicate MountedSoFar(before: Pool, p: Pool, be: string, at: string, d: string, todo: set<string>) {
    && OnlyMounted(before, p, be, d)
    && (Due(before, be, d) ==> Fresh(before, p, d) && Short(before, be, at, d))
    && (forall c :: c in todo ==> c in p.fs && ChildOf(d, c))
    && (forall x :: x in before.fs && Under(d, x) ==>
          if BranchOf(d, x) in todo then !Fresh(before, p, x)
          else (Due(before, be, x) ==> Fresh(before, p, x) && Short(before, be, at, x)))
  }

  lemma MountedBelow(before: Pool, mid: Pool, after: Pool, be: string, at: string, d: string, c: string, todo: set<string>)
    requires MountedSoFar(before, mid, be, at, d, todo) && c in todo && OnlyMounted(mid, after, be, c)
    requires mid.Valid() && after.Valid()
    ensures OnlyMounted(before, after, be, d)
  {
    forall x | Fresh(mid, after, x) ensures Under(d, x) && BranchOf(d, x) == c && Fresh(before, after, x) {
      BranchIsUnique(d, c, x);
    }
    forall a, x | Fresh(before, after, x) && Due(before, be, a) && Within(d, a) && Under(a, x) ensures Fresh(before, after, a) {
      if Fresh(mid, after, x) && a != d {
        AncestorInBranch(d, c, a, x);
        assert Fresh(mid, after, a);
      } else {
        assert Fresh(before, mid, a);
      }
    }
  }

  lemma MountStep(before: Pool, mid: Pool, after: Pool, be: string, at: string, d: string, c: string, todo: set<string>)
    requires MountedSoFar(before, mid, be, at, d, todo) && c in todo
    requires mid.Valid() && OnlyMounted(mid, after, be, c) && AllMounted(mid, after, be, at, c)
    requires OnlyMounted(before, after, be, d)
    ensures MountedSoFar(before, after, be, at, d, todo - {c})
  {
    forall x | x in before.fs && Under(d, x)
      ensures if BranchOf(d, x) in todo - {c} then !Fresh(before, after, x)
              else (Due(before, be, x) ==> Fresh(before, after, x) && Short(before, be, at, x))
    {
      if Within(c, x) {
        BranchIsUnique(d, c, x);
        assert Due(before, be, x) ==> Fresh(mid, after, x);
      } else {
        assert !Fresh(mid, after, x);
      }
    }
  }

  lemma FirstMounted(before: Pool, p: Pool, be: string, d: string)
    requires p == before.(mounted := p.mounted)
    requires Due(before, be, d) ==> d !in before.mounted && p.mounted == before.mounted + {d}
    requires !Due(before, be, d) ==> p == before
    ensures OnlyMounted(before, p, be, d) && (Due(before, be, d) ==> Fresh(before, p, d))
    ensures forall x :: Fresh(before, p, x) ==> x == d
  {
    forall x | Fresh(before, p, x) ensures x == d && Due(before, be, d) {
    }
  }

  lemma MountBegins(before: Pool, p: Pool, be: string, at: string, d: string)
    requires p.Valid() && before.fs == p.fs && OnlyMounted(before, p, be, d)
    requires Due(before, be, d) ==> Fresh(before, p, d) && Short(before, be, at, d)
    requires forall x :: Fresh(before, p, x) ==> x == d
    ensures MountedSoFar(before, p, be, at, d, Children(p, d))
  {
    ChildrenHold(p, d);
  }

  /** All that is due below `be` within `d` is unmounted, and its path under `at` is short enough. */
  ghost predicate Clear(p: Pool, be: string, at: string, d: string) {
    forall x :: x in p.fs && Within(d, x) && Due(p, be, x) ==> Short(p, be, at, x) && (x != be ==> x !in p.mounted)
  }

  lemma ClearBelow(before: Pool, mid: Pool, be: string, at: string, d: string, c: string, todo: set<string>)
    requires MountedSoFar(before, mid, be, at, d, todo) && c in todo && Clear(before, be, at, d)
    ensures Clear(mid, be, at, c)
  {
    forall x | x in mid.fs && Within(c, x) && Due(mid, be, x)
      ensures Short(mid, be, at, x) && (x != be ==> x !in mid.mounted)
    {
      BranchIsUnique(d, c, x);
      assert !Fresh(before, mid, x);
    }
  }

  /** How a walk over the filesystems of an environment ends: at its end, with an error that was set, or with an
      iteration that broke off and set none. */
  datatype WalkEnd = Walked | Reported | Silent

  /** `mount_callback`, for what lies below the boot environment `be` that is mounted at `at`. */
  method MountTree(z: Zfs, be: string, at: string, d: string) returns (r: WalkEnd)
    requires z.pool.Valid() && d in z.pool.fs && Under(be, d)
    modifies z`pool
    ensures z.pool.Valid() && OnlyMounted(old(z.pool), z.pool, be, d)
    ensures r.Walked? ==> AllMounted(old(z.pool), z.pool, be, at, d)
    ensures r.Walked? ==> forall x :: x in z.pool.fs && Within(d, x) ==>
              x in z.pool.mounted || z.pool.fs[x].mountpoint == "none" || z.pool.fs[x].mountpoint == "legacy"
    ensures z.reliable ==> !r.Silent? && (Clear(old(z.pool), be, at, d) ==> r.Walked?)
    decreases MAX_DATASET_LEN - |d|
  {
    ghost var before := z.pool;
    var ok := z.Allowed();           // zfs_prop_get
    if !ok {
      return Reported;
    }
    if Due(z.pool, be, d) {
      ok := z.Allowed();             // directory_create_if_nonexistent
      if !ok || !Short(z.pool, be, at, d) || d in z.pool.mounted {
        return Reported;
      }
      ok := z.Mount(d);
      if !ok {
        return Reported;
      }
    }
    FirstMounted(before, z.pool, be, d);
    MountBegins(before, z.pool, be, at, d);
    r := MountEach(z, before, be, at, d, Children(z.pool, d));
  }

  /** `zfs_iter_filesystems`, which can break off before any child and behind the last. */
  method MountEach(z: Zfs, ghost before: Pool, be: string, at: string, d: string, todo: set<string>) returns (r: WalkEnd)
    requires z.pool.Valid() && d in z.pool.fs && MountedSoFar(before, z.pool, be, at, d, todo) && Within(be, d)
    modifies z`pool
    ensures z.pool.Valid() && OnlyMounted(before, z.pool, be, d) && old(z.pool.mounted) <= z.pool.mounted
    ensures r.Walked? ==> AllMounted(before, z.pool, be, at, d)
    ensures z.reliable ==> !r.Silent? && (Clear(before, be, at, d) ==> r.Walked?)
    decreases MAX_DATASET_LEN - |d|, 0, todo
  {
    var ok := z.Allowed();
    if !ok {
      return Silent;
    }
    if todo == {} {
      return Walked;
    }
    var c :| c in todo;
    ghost var mid := z.pool;
    UnderTransitive(be, d, c);
    if Clear(before, be, at, d) {
      ClearBelow(before, mid, be, at, d, c, todo);
    }
    r := MountTree(z, be, at, c);
    MountedBelow(before, mid, z.pool, be, at, d, c, todo);
    if r.Walked? {
      MountStep(before, mid, z.pool, be, at, d, c, todo);
      r := MountEach(z, before, be, at, d, todo - {c});
    }
  }
}
