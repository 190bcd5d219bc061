/** The commands on boot environments, each run on a handle opened for it. */
module Commands {
  import opened CString
  import opened Names
  import opened Pools
  import opened DestroyTree
  import opened MountTree
  import opened CloneTree
  import opened Handles

  // ---------------------------------------------------------------- temporary mounts

  /** Nothing changed but where and whether `d` is mounted, and that it may have been set to canmount=noauto. */
  ghost predicate OnlyRemounted(before: Pool, after: Pool, d: string) {
    && d in before.fs && d in after.fs && after.snaps == before.snaps
    && after.fs == before.fs[d := before.fs[d].(mountpoint := after.fs[d].mountpoint, props := after.fs[d].props)]
    && (after.fs[d].props == before.fs[d].props || after.fs[d].props == Noauto(before.fs[d]).props)
    && forall x :: x != d ==> (x in after.mounted <==> x in before.mounted)
  }

  predicate IsNoauto(p: Pool, d: string) {
    d in p.fs && "canmount" in p.fs[d].props && p.fs[d].props["canmount"] == Prop("noauto", Local)
  }

  /** `d` is not mounted, or nothing mounted below it keeps it busy. */
  ghost predicate CanUnmount(p: Pool, d: string) {
    d in p.mounted ==> forall x :: x in p.mounted ==> !Under(d, x)
  }

  /** It was unmounted from where it was: the mountpoint is set back, and canmount too. */
  ghost predicate PutBack(p: Pool, d: string) {
    d !in p.mounted && IsNoauto(p, d) && p.fs[d].mountpoint == "/"
  }

  /** `temp_unmount_be` */
  method TempUnmount(z: Zfs, d: string) returns (ok: bool)
    requires z.pool.Valid() && d in z.pool.fs
    modifies z`pool
    ensures z.pool.Valid() && OnlyRemounted(old(z.pool), z.pool, d)
    ensures ok ==> if d in old(z.pool.mounted) then PutBack(z.pool, d) else z.pool == old(z.pool)
    ensures z.reliable ==> (ok <==> CanUnmount(old(z.pool), d)) && (!ok ==> z.pool == old(z.pool))
  {
    if d !in z.pool.mounted {
      return true;
    }
    ok := z.Unmount(d);
    if ok {
      ok := z.SetMountpoint(d, "/");
      if ok {
        ok := z.SetNoauto(d);
      }
    }
  }

  /** `mkdtemp` on a name with six characters to be filled in. */
  predicate IsTempDir(dir: string, be: string) { |dir| == |be| + 15 && "/tmp/ze." + be + "." <= dir }

  method MakeTempDir(z: Zfs, be: string) returns (ok: bool, dir: string)
    ensures IsTempDir(dir, be)
    ensures z.reliable ==> ok
  {
    ok := z.Allowed();
    var fill: string := *;
    dir := "/tmp/ze." + be + "." + (if |fill| == 6 then fill else "000000");
  }

  /** `temp_mount_be` */
  method TempMount(z: Zfs, be: string, d: string) returns (ok: bool, dir: string)
    requires z.pool.Valid() && d in z.pool.fs
    modifies z`pool
    ensures z.pool.Valid() && OnlyRemounted(old(z.pool), z.pool, d)
    ensures ok ==> && IsTempDir(dir, be) && z.pool == old(z.pool).(
                        fs := old(z.pool.fs)[d := old(z.pool.fs[d]).(mountpoint := dir)],
                        mounted := old(z.pool.mounted) + {d})
    ensures z.reliable ==> (ok <==> |be| + 15 < MAX_DATASET_LEN) && (!ok ==> z.pool == old(z.pool))
  {
    dir := "";
    if |be| + 15 >= MAX_DATASET_LEN {
      return false, dir;                   // "/tmp/ze.", the name and ".XXXXXX"
    }
    ok, dir := MakeTempDir(z, be);
    if !ok {
      return;
    }
    ok := z.SetMountpoint(d, dir);
    if ok {
      ok := z.Mount(d);
    }
    if !ok {
      var unmounted := TempUnmount(z, d);
    }
  }

  // ---------------------------------------------------------------- activate

  /** What the step in the middle of an activate asks of the pool: the running environment asks nothing; another must
      be free to be unmounted, after it was mounted for the plugin. */
  ghost predicate CanPrepare(p: Pool, h: Handle, cfg: Config, be: string) {
    var d := Join(h.root, be);
    IsRoot(h, d) || (if cfg.plugin then |be| + 15 < MAX_DATASET_LEN && NothingBelow(p, d) else CanUnmount(p, d))
  }

  ghost predicate NothingBelow(p: Pool, d: string) { forall x :: x in p.mounted ==> !Under(d, x) }

  /** The boot environment's own dataset is unmounted at the end, unless it is the one running. */
  method MidActivate(z: Zfs, h: Handle, cfg: Config, be: string, d: string) returns (ok: bool)
    requires z.pool.Valid() && d in z.pool.fs && d == Join(h.root, be)
    modifies z`pool
    ensures z.pool.Valid() && OnlyRemounted(old(z.pool), z.pool, d)
    ensures ok ==> if !IsRoot(h, d) && (cfg.plugin || d in old(z.pool.mounted)) then PutBack(z.pool, d)
                   else z.pool == old(z.pool)
    ensures Sure(z, cfg) ==> (ok <==> CanPrepare(old(z.pool), h, cfg, be))
    ensures Sure(z, cfg) && !cfg.plugin && !ok ==> z.pool == old(z.pool)
  {
    ok := true;
    if cfg.plugin {
      if !IsRoot(h, d) {
        var dir;
        ok, dir := TempMount(z, be, d);
      }
      if ok {
        ok := z.Hook();                    // mid-activate hook
      }
    }
    if !IsRoot(h, d) && ok {
      ok := TempUnmount(z, d);
    }
  }

  /** The same filesystems as before, mounted as before. */
  ghost predicate SameFilesystems(before: Pool, after: Pool) {
    && after.fs.Keys == before.fs.Keys && after.mounted == before.mounted
    && forall x :: x in after.fs ==> after.fs[x].mountpoint == before.fs[x].mountpoint
  }

  /** What was set to canmount=noauto stays so. */
  ghost predicate NoautoStays(before: Pool, after: Pool) {
    forall x :: IsNoauto(before, x) ==> IsNoauto(after, x)
  }

  lemma NoautoSet(before: Pool, after: Pool, d: string)
    requires d in before.fs && (after == before || after == before.(fs := before.fs[d := Noauto(before.fs[d])]))
    ensures SameFilesystems(before, after) && NoautoStays(before, after)
    ensures after != before ==> IsNoauto(after, d)
  {
  }

  lemma PromoteKeeps(before: Pool, after: Pool)
    requires SameButOrigins(before, after)
    ensures SameFilesystems(before, after) && NoautoStays(before, after)
  {
    forall x | IsNoauto(before, x) ensures IsNoauto(after, x) {
      assert x in after.fs.Keys;
    }
  }

  /** What was a clone is one still, outside of `d`. */
  ghost predicate ClonesStay(before: Pool, after: Pool, d: string) {
    forall x :: x in before.fs && x in after.fs && !Within(d, x) && before.fs[x].origin.Some? ==> after.fs[x].origin.Some?
  }

  /** What activating within `d` leaves as it is. */
  ghost predicate Activating(before: Pool, after: Pool, d: string) {
    SameFilesystems(before, after) && NoautoStays(before, after) && ClonesStay(before, after, d)
  }

  lemma ActivatingTwice(before: Pool, mid: Pool, after: Pool, d: string)
    requires Activating(before, mid, d) && Activating(mid, after, d)
    ensures Activating(before, after, d)
  {
  }

  lemma ActivatingBelow(before: Pool, mid: Pool, after: Pool, d: string, c: string)
    requires ChildOf(d, c) && Activating(before, mid, c) && Activating(mid, after, d)
    ensures Activating(before, after, d)
  {
    ClonesStayBelow(before, mid, after, d, c);
  }

  /** The first steps: canmount, and the promotion. */
  lemma PromotedStep(before: Pool, mid: Pool, after: Pool, d: string, s: Snap, moved: set<Snap>)
    requires d in before.fs && mid == before.(fs := before.fs[d := Noauto(before.fs[d])]) && NoautoStays(before, mid)
    requires s.ds in mid.fs && after == Promotion(mid, d, s, moved)
    ensures Activating(before, after, d) && IsNoauto(after, d)
    ensures forall x :: x in before.fs && x != d && before.fs[x].origin.Some? ==> after.fs[x].origin.Some?
  {
    PromotionStays(mid, after, d, s, moved);
    forall x | IsNoauto(before, x) ensures IsNoauto(after, x) {
      assert IsNoauto(mid, x);
    }
  }

  /** From `d` down to `x` all that `x` stands within are clones, so that an activate comes to `x`. */
  ghost predicate Reached(p: Pool, d: string, x: string) {
    && x in p.fs && Within(d, x)
    && forall y {:trigger Under(y, x)} :: Within(d, y) && Under(y, x) ==> y in p.fs && p.fs[y].origin.Some?
  }

  /** All that is reached within `d` has canmount=noauto, and is promoted if it was a clone. */
  ghost predicate TreeActive(before: Pool, after: Pool, promoted: set<string>, d: string) {
    forall x :: Reached(before, d, x) ==> IsNoauto(after, x) && (before.fs[x].origin.Some? ==> x in promoted)
  }

  /** What activating asks of the pool: `d` is no clone, or can be promoted and has no clones below. */
  ghost predicate Promotable(p: Pool, d: string) {
    && d in p.fs
    && (p.fs[d].origin.Some? ==>
          && CanPromote(p, d) && !Under(d, p.fs[d].origin.value.ds)
          && forall x :: x in p.fs && Under(d, x) ==> p.fs[x].origin.None?)
  }

  lemma PromotionStays(before: Pool, after: Pool, d: string, s: Snap, moved: set<Snap>)
    requires s.ds in before.fs && after == Promotion(before, d, s, moved)
    ensures forall x :: x in before.fs && x != d && before.fs[x].origin.Some? ==> x in after.fs && after.fs[x].origin.Some?
    ensures forall x :: x in before.fs && x != d && x != s.ds && before.fs[x].origin.None? ==>
              x in after.fs && after.fs[x].origin.None?
  {
  }

  lemma NoautoReached(before: Pool, after: Pool, d: string, x: string)
    requires d in before.fs && after == before.(fs := before.fs[d := Noauto(before.fs[d])]) && Reached(before, d, x)
    ensures Reached(after, d, x) && after.fs[x].origin == before.fs[x].origin
  {
  }

  /** `libze_activate_cb`: the children of a dataset that is no clone are left alone. */
  method ActivateTree(z: Zfs, d: string) returns (ok: bool)
    requires z.pool.Valid() && d in z.pool.fs
    modifies z`pool, z`promoted
    ensures z.pool.Valid() && Activating(old(z.pool), z.pool, d) && old(z.promoted) <= z.promoted
    ensures forall x :: x in z.promoted && x !in old(z.promoted) ==> Within(d, x)
    ensures ok ==> IsNoauto(z.pool, d) && TreeActive(old(z.pool), z.pool, z.promoted, d)
    ensures old(z.pool.fs[d].origin.None?) ==>
              z.pool == old(z.pool) || z.pool == old(z.pool).(fs := old(z.pool.fs)[d := Noauto(old(z.pool.fs[d]))])
    ensures z.reliable && Promotable(old(z.pool), d) ==> ok
    decreases MAX_DATASET_LEN - |d|
  {
    ghost var before := z.pool;
    ok := z.SetNoauto(d);
    NoautoSet(before, z.pool, d);
    if !ok {
      return;
    }
    if z.pool.fs[d].origin.None? {
      OnlyItselfReached(before, d);
    } else {
      ok := ActivateClone(z, d, before);
    }
  }

  /** The rest of the callback, for a clone. */
  method ActivateClone(z: Zfs, d: string, ghost before: Pool) returns (ok: bool)
    requires z.pool.Valid() && d in before.fs && before.fs[d].origin.Some? && IsNoauto(z.pool, d)
    requires z.pool == before.(fs := before.fs[d := Noauto(before.fs[d])]) && Activating(before, z.pool, d)
    modifies z`pool, z`promoted
    ensures z.pool.Valid() && Activating(before, z.pool, d) && old(z.promoted) <= z.promoted
    ensures forall x :: x in z.promoted && x !in old(z.promoted) ==> Within(d, x)
    ensures ok ==> IsNoauto(z.pool, d) && TreeActive(before, z.pool, z.promoted, d)
    ensures z.reliable && Promotable(before, d) ==> ok
    decreases MAX_DATASET_LEN - |d|, 1
  {
    ok := PromoteClone(z, d, before);
    if ok {
      ghost var start := z.pool;
      ok := ActivateEach(z, d, Children(z.pool, d));
      ActivatingTwice(before, start, z.pool, d);
      if ok {
        TreeIsActive(before, start, z.pool, z.promoted, d);
      }
    }
  }

  method PromoteClone(z: Zfs, d: string, ghost before: Pool) returns (ok: bool)
    requires z.pool.Valid() && d in before.fs && before.fs[d].origin.Some? && IsNoauto(z.pool, d)
    requires z.pool == before.(fs := before.fs[d := Noauto(before.fs[d])]) && Activating(before, z.pool, d)
    modifies z`pool, z`promoted
    ensures z.pool.Valid() && Activating(before, z.pool, d) && IsNoauto(z.pool, d)
    ensures z.promoted == old(z.promoted) + if ok then {d} else {}
    ensures forall x :: x in before.fs && x != d && before.fs[x].origin.Some? ==> z.pool.fs[x].origin.Some?
    ensures z.reliable && Promotable(before, d) ==> ok && forall c :: c in Children(z.pool, d) ==> z.pool.fs[c].origin.None?
  {
    ghost var mid := z.pool;
    ok := z.Promote(d);
    if ok {
      ghost var s := mid.fs[d].origin.value;
      ghost var moved :| MayMoveTo(mid, d, s, moved) && z.pool == Promotion(mid, d, s, moved);
      PromotedStep(before, mid, z.pool, d, s, moved);
      if Promotable(before, d) { NoClonesBelow(before, mid, z.pool, d, s, moved); }
    }
  }

  lemma NoClonesBelow(before: Pool, mid: Pool, after: Pool, d: string, s: Snap, moved: set<Snap>)
    requires Promotable(before, d) && before.fs[d].origin == Some(s) && s.ds in before.fs
    requires mid == before.(fs := before.fs[d := Noauto(before.fs[d])]) && after == Promotion(mid, d, s, moved)
    ensures forall c :: c in Children(after, d) ==> after.fs[c].origin.None?
  {
    PromotionStays(mid, after, d, s, moved);
  }

  lemma OnlyItselfReached(p: Pool, d: string)
    requires d in p.fs && p.fs[d].origin.None?
    ensures forall x :: Reached(p, d, x) ==> x == d
  {
    forall x | Under(d, x) ensures !Reached(p, d, x) {
      assert Within(d, d);
    }
  }

  lemma TreeIsActive(before: Pool, start: Pool, after: Pool, promoted: set<string>, d: string)
    requires start.Valid() && start.fs.Keys == before.fs.Keys && d in promoted && IsNoauto(after, d)
    requires forall x :: x in before.fs && x != d && before.fs[x].origin.Some? ==> start.fs[x].origin.Some?
    requires forall c :: c in Children(start, d) ==> TreeActive(start, after, promoted, c)
    ensures TreeActive(before, after, promoted, d)
  {
    forall x | Reached(before, d, x) ensures IsNoauto(after, x) && (before.fs[x].origin.Some? ==> x in promoted) {
      if x != d {
        var c := BranchOf(d, x);
        ChildrenHold(start, d);
        ReachedBelow(before, start, d, c, x);
        assert TreeActive(start, after, promoted, c);
      }
    }
  }

  lemma ReachedBelow(before: Pool, start: Pool, d: string, c: string, x: string)
    requires Reached(before, d, x) && ChildOf(d, c) && Within(c, x) && start.fs.Keys == before.fs.Keys
    requires forall y :: y in before.fs && y != d && before.fs[y].origin.Some? ==> start.fs[y].origin.Some?
    ensures Reached(start, c, x)
  {
    forall y | Within(c, y) && Under(y, x) ensures y in start.fs && start.fs[y].origin.Some? {
      UnderTransitive(d, c, y);
    }
  }

  /** Activating one child leaves what another reaches. */
  lemma SiblingReached(before: Pool, after: Pool, d: string, c: string, e: string)
    requires ChildOf(d, c) && ChildOf(d, e) && c != e && after.fs.Keys == before.fs.Keys && ClonesStay(before, after, c)
    ensures forall x :: Reached(before, e, x) ==> Reached(after, e, x)
    ensures forall x :: x in before.fs && Within(e, x) && before.fs[x].origin.Some? ==> after.fs[x].origin.Some?
  {
    forall y | Within(e, y) ensures !Within(c, y) {
      if Within(c, y) {
        BranchIsUnique(d, c, y);
        BranchIsUnique(d, e, y);
      }
    }
  }

  lemma StillActive(before: Pool, mid: Pool, after: Pool, promoted: set<string>, promoted': set<string>, c: string)
    requires TreeActive(before, mid, promoted, c) && NoautoStays(mid, after) && promoted <= promoted'
    ensures TreeActive(before, after, promoted', c)
  {
  }

  lemma ActiveFrom(before: Pool, mid: Pool, after: Pool, promoted: set<string>, d: string, c: string, e: string)
    requires ChildOf(d, c) && ChildOf(d, e) && c != e && mid.fs.Keys == before.fs.Keys && ClonesStay(before, mid, c)
    requires TreeActive(mid, after, promoted, e)
    ensures TreeActive(before, after, promoted, e)
  {
    SiblingReached(before, mid, d, c, e);
  }

  lemma ClonesStayBelow(before: Pool, mid: Pool, after: Pool, d: string, c: string)
    requires ChildOf(d, c) && before.fs.Keys == mid.fs.Keys == after.fs.Keys
    requires ClonesStay(before, mid, c) && ClonesStay(mid, after, d)
    ensures ClonesStay(before, after, d)
  {
    forall x | x in before.fs && !Within(d, x) && before.fs[x].origin.Some? ensures after.fs[x].origin.Some? {
      if Within(c, x) { UnderTransitive(d, c, x); }
    }
  }

  method ActivateEach(z: Zfs, d: string, todo: set<string>) returns (ok: bool)
    requires z.pool.Valid() && d in z.pool.fs && todo <= Children(z.pool, d)
    modifies z`pool, z`promoted
    ensures z.pool.Valid() && Activating(old(z.pool), z.pool, d) && old(z.promoted) <= z.promoted
    ensures forall x :: x in z.promoted && x !in old(z.promoted) ==> Under(d, x)
    ensures ok ==> forall c :: c in todo ==> TreeActive(old(z.pool), z.pool, z.promoted, c)
    ensures z.reliable && (forall c :: c in todo ==> old(z.pool.fs[c].origin.None?)) ==> ok
    decreases MAX_DATASET_LEN - |d|, 0, todo
  {
    if todo == {} {
      return true;
    }
    var c :| c in todo;
    ok := ActivateFrom(z, d, c, todo);
  }

  /** One of the children, and then the rest. */
  method ActivateFrom(z: Zfs, d: string, c: string, todo: set<string>) returns (ok: bool)
    requires z.pool.Valid() && d in z.pool.fs && todo <= Children(z.pool, d) && c in todo
    modifies z`pool, z`promoted
    ensures z.pool.Valid() && Activating(old(z.pool), z.pool, d) && old(z.promoted) <= z.promoted
    ensures forall x :: x in z.promoted && x !in old(z.promoted) ==> Under(d, x)
    ensures ok ==> forall c :: c in todo ==> TreeActive(old(z.pool), z.pool, z.promoted, c)
    ensures z.reliable && (forall c :: c in todo ==> old(z.pool.fs[c].origin.None?)) ==> ok
    decreases MAX_DATASET_LEN - |d|, 0, todo, 0
  {
    ghost var before := z.pool;
    ok := ActivateTree(z, c);
    ghost var mid, had := z.pool, z.promoted;
    forall x | Within(c, x) ensures Under(d, x) {
      UnderTransitive(d, c, x);
    }
    if !ok {
      ActivatingBelow(before, mid, mid, d, c);
      return;
    }
    ok := ActivateEach(z, d, todo - {c});
    ActivatingBelow(before, mid, z.pool, d, c);
    if ok {
      EachActive(before, mid, z.pool, had, z.promoted, d, c, todo);
    }
  }

  lemma EachActive(before: Pool, mid: Pool, after: Pool, had: set<string>, promoted: set<string>, d: string, c: string,
                   todo: set<string>)
    requires todo <= Children(before, d) && c in todo && Activating(before, mid, c) && Activating(mid, after, d)
    requires TreeActive(before, mid, had, c) && had <= promoted
    requires forall e :: e in todo - {c} ==> TreeActive(mid, after, promoted, e)
    ensures forall e :: e in todo ==> TreeActive(before, after, promoted, e)
  {
    StillActive(before, mid, after, had, promoted, c);
    forall e | e in todo && e != c ensures TreeActive(before, after, promoted, e) {
      assert e in todo - {c};
      ActiveFrom(before, mid, after, promoted, d, c, e);
    }
  }

  /** What an activate that took effect has done. */
  ghost predicate Activated(before: Pool, after: Pool, promoted: set<string>, h: Handle, be: string) {
    && Present(before, h, be) && TreeActive(before, after, promoted, Join(h.root, be))
    && IsNoauto(after, Join(h.root, be))
    && (h.bootPool.Some? ==> IsNoauto(after, BootDs(h, be)))
  }

  /** `libze_activate`: it reports success when the mid-activate step fails, having activated nothing (`took` is
      false); without a plugin that is when an environment other than the running one is mounted, with something mounted
      below it. */
  method Activate(z: Zfs, h: Handle, cfg: Config, be: string) returns (ok: bool, ghost took: bool)
    requires z.pool.Valid()
    modifies z`pool, z`bootfs, z`promoted
    ensures z.pool.Valid() && z.pool.fs.Keys == old(z.pool.fs.Keys)
    ensures forall x :: x != Join(h.root, be) ==> (x in z.pool.mounted <==> x in old(z.pool.mounted))
    ensures took ==> z.bootfs == Join(h.root, be) && Present(old(z.pool), h, be)
    ensures !took ==> z.bootfs == old(z.bootfs) && z.promoted == old(z.promoted)
    ensures ok && took ==> Activated(old(z.pool), z.pool, z.promoted, h, be)
    ensures (took && !IsRoot(h, Join(h.root, be)) && (cfg.plugin || Join(h.root, be) in old(z.pool.mounted))) ==>
              z.pool.fs[Join(h.root, be)].mountpoint == "/" && Join(h.root, be) !in z.pool.mounted
    ensures Sure(z, cfg) && Present(old(z.pool), h, be) ==>
              && (took <==> CanPrepare(old(z.pool), h, cfg, be))
              && (!took ==> ok && (cfg.plugin || z.pool == old(z.pool)))
    ensures (&& Sure(z, cfg) && h.bootPool.None? && Present(old(z.pool), h, be) && CanPrepare(old(z.pool), h, cfg, be)
             && Promotable(old(z.pool), Join(h.root, be))) ==> ok && took
  {
    var d := Join(h.root, be);
    took := false;
    ok := ValidateExisting(z, h, be);
    if !ok {
      return;
    }
    if cfg.plugin {
      ok := z.Hook();                      // pre-activate hook
      if !ok {
        return;
      }
    }
    ghost var before := z.pool;
    ok := MidActivate(z, h, cfg, be, d);
    if !ok {
      return true, false;
    }
    ghost var mid := z.pool;
    RemountedTree(before, mid, d);
    ok := z.SetBootfs(d);
    if !ok {
      return;
    }
    took := true;
    ok := ActivateTree(z, d);
    if !ok {
      return;
    }
    ghost var had, active := z.promoted, z.pool;
    ActiveBefore(before, mid, active, had, d);
    if h.bootPool.Some? {
      ok := ActivateTree(z, BootDs(h, be));
      StillActive(before, active, z.pool, had, z.promoted, d);
    }
    if cfg.plugin {
      var hook := z.Hook();                // post-activate hook; its result is not reported
    }
  }

  /** A remount changes nothing that an activate reads of origins. */
  lemma RemountedTree(before: Pool, after: Pool, d: string)
    requires OnlyRemounted(before, after, d)
    ensures after.fs.Keys == before.fs.Keys && forall x :: x in before.fs ==> after.fs[x].origin == before.fs[x].origin
    ensures Promotable(before, d) ==> Promotable(after, d)
  {
  }

  lemma ActiveBefore(before: Pool, mid: Pool, after: Pool, promoted: set<string>, d: string)
    requires mid.fs.Keys == before.fs.Keys && forall x :: x in before.fs ==> mid.fs[x].origin == before.fs[x].origin
    requires TreeActive(mid, after, promoted, d)
    ensures TreeActive(before, after, promoted, d)
  {
    forall x | Reached(before, d, x) ensures Reached(mid, d, x) {
    }
  }

  // ---------------------------------------------------------------- destroy

  /** What a destroy of the boot environment `be` may take: what stands within its dataset, unless that is the
      bootfs or running, and within its boot pool dataset. */
  ghost predicate MayGo(h: Handle, be: string, x: string) {
    || (Within(Join(h.root, be), x) && Join(h.root, be) != h.activatedPath && Join(h.root, be) != h.runningPath)
    || (h.bootPool.Some? && Within(BootDs(h, be), x))
  }

  /** The dataset on the boot pool, or, when there is none, the same one. */
  function SecondDs(h: Handle, be: string): string { if h.bootPool.Some? then BootDs(h, be) else Join(h.root, be) }

  /** What a destroy of an environment asks of the pool. */
  ghost predicate Destroyable(p: Pool, h: Handle, be: string, o: Options) {
    && Present(p, h, be) && Unhindered(p, Join(h.root, be), o)
    && Join(h.root, be) != h.activatedPath && Join(h.root, be) != h.runningPath
    && (h.bootPool.Some? ==> Unhindered(p, BootDs(h, be), o) && !Within(Join(h.root, be), BootDs(h, be)))
  }

  /** What a destroy that succeeded has done. */
  ghost predicate Destroyed(p: Pool, q: Pool, h: Handle, be: string, o: Options) {
    && Present(p, h, be) && MountsAllow(p, Join(h.root, be), o)
    && Join(h.root, be) != h.activatedPath && Join(h.root, be) != h.runningPath
    && PrunedBoth(p, q, Join(h.root, be), SecondDs(h, be), o) && OriginsTaken(p, q, o)
    && (forall x :: x in q.fs ==> !Within(Join(h.root, be), x))
    && (h.bootPool.Some? ==> forall x :: x in q.fs ==> !Within(BootDs(h, be), x))
  }

  /** `libze_destroy` of a boot environment */
  method DestroyBe(z: Zfs, h: Handle, cfg: Config, be: string, o: Options) returns (ok: bool)
    requires z.pool.Valid() && '@' !in be
    modifies z`pool
    ensures z.pool.Valid() && PrunedBoth(old(z.pool), z.pool, Join(h.root, be), SecondDs(h, be), o)
    ensures forall x :: x in old(z.pool.fs) && x !in z.pool.fs ==> MayGo(h, be, x) && (o.force || x !in old(z.pool.mounted))
    ensures ok ==> Destroyed(old(z.pool), z.pool, h, be, o)
    ensures (&& Join(h.root, be) in old(z.pool.mounted)
             && exists x :: x in old(z.pool.mounted) && Under(Join(h.root, be), x)) ==> !ok && Join(h.root, be) in z.pool.fs
    ensures Sure(z, cfg) && Destroyable(old(z.pool), h, be, o) ==> ok
  {
    var d := Join(h.root, be);
    NothingTaken(z.pool, d, o);
    PrunedThen(z.pool, z.pool, z.pool, d, d, o);
    ok := ValidateExisting(z, h, be);
    if !ok {
      return false;
    }
    assert d[|h.root|] == '/';
    if IsActive(h, d) || IsRoot(h, d) {
      return false;
    }
    ghost var before := z.pool;
    ok := Destroy(z, d, o);
    ghost var mid := z.pool;
    NothingTaken(mid, SecondDs(h, be), o);
    PrunedThen(before, mid, mid, d, SecondDs(h, be), o);
    if Destroyable(before, h, be, o) && h.bootPool.Some? {
      StillUnhindered(before, mid, d, BootDs(h, be), o);
    }
    if ok && h.bootPool.Some? {
      var b := BootDs(h, be);
      if b in z.pool.fs {
        ok := Destroy(z, b, o);
        PrunedThen(before, mid, z.pool, d, b, o);
      } else {
        ok := false;                       // an open handle whose dataset went with the first
      }
    } else if ok && cfg.plugin {
      ok := z.Hook();                      // post-destroy hook
    }
  }

  /** The snapshot a full name stands for. */
  function SnapOf(path: string): Option<Snap> {
    var i := LastAt(path, '@');
    if i.Some? then Some(Snap(path[..i.value], path[i.value + 1..])) else None
  }

  /** The named snapshot is there and no clone holds it. */
  ghost predicate NamedCanGo(p: Pool, s: Option<Snap>) { s.Some? && s.value in p.snaps && !p.HasClones(s.value) }

  /** What destroying a snapshot of an environment asks of the pool. */
  ghost predicate SnapCanGo(p: Pool, h: Handle, be: string)
    requires '@' in be
  {
    && |Join(h.root, be)| < MAX_DATASET_LEN && Present(p, h, be[..LastAt(be, '@').value])
    && NamedCanGo(p, SnapOf(Join(h.root, be)))
    && (h.bootPool.Some? ==> |BootDs(h, be)| < MAX_DATASET_LEN)
  }

  /** `libze_destroy` of a snapshot: without a boot pool it fails after having destroyed it, since the name of the
      snapshot there is empty but never absent. */
  method DestroyBeSnap(z: Zfs, h: Handle, cfg: Config, be: string) returns (ok: bool)
    requires z.pool.Valid() && '@' in be
    modifies z`pool
    ensures z.pool.Valid() && z.pool.fs == old(z.pool.fs) && z.pool.mounted == old(z.pool.mounted)
    ensures z.pool.snaps <= old(z.pool.snaps)
    ensures forall s :: s in old(z.pool.snaps) && s !in z.pool.snaps ==>
              Some(s) == SnapOf(Join(h.root, be)) || (h.bootPool.Some? && Some(s) == SnapOf(BootDs(h, be)))
    ensures ok ==> && h.bootPool.Some?
                   && SnapOf(Join(h.root, be)).Some? && SnapOf(Join(h.root, be)).value in old(z.pool.snaps)
                   && SnapOf(Join(h.root, be)).value !in z.pool.snaps
                   && SnapOf(BootDs(h, be)).Some? && SnapOf(BootDs(h, be)).value !in z.pool.snaps
    ensures z.reliable && h.bootPool.None? && SnapCanGo(old(z.pool), h, be) ==>
              !ok && z.pool == old(z.pool).WithoutSnap(SnapOf(Join(h.root, be)).value)
    ensures (&& Sure(z, cfg) && h.bootPool.Some? && SnapCanGo(old(z.pool), h, be)
             && NamedCanGo(old(z.pool).WithoutSnap(SnapOf(Join(h.root, be)).value), SnapOf(BootDs(h, be)))) ==> ok
  {
    var d := Join(h.root, be);
    if |d| >= MAX_DATASET_LEN || (h.bootPool.Some? && |BootDs(h, be)| >= MAX_DATASET_LEN) {
      return false;
    }
    ok := DestroySnapshot(z, h, SnapOf(d), be[..LastAt(be, '@').value]);
    if ok {
      ok := h.bootPool.Some?;
      if ok {
        ok := DestroyNamed(z, SnapOf(BootDs(h, be)));
      }
    }
    if ok && cfg.plugin {
      ok := z.Hook();                      // post-destroy hook
    }
  }

  method DestroySnapshot(z: Zfs, h: Handle, s: Option<Snap>, be: string) returns (ok: bool)
    requires z.pool.Valid()
    modifies z`pool
    ensures z.pool.Valid()
    ensures if ok then NamedCanGo(old(z.pool), s) && z.pool == old(z.pool).WithoutSnap(s.value) else z.pool == old(z.pool)
    ensures z.reliable && NamedCanGo(old(z.pool), s) && Present(old(z.pool), h, be) ==> ok
  {
    if s.None? || s.value !in z.pool.snaps {
      return false;
    }
    ok := ValidateExisting(z, h, be);
    if ok {
      ok := z.DestroySnap(s.value);
    }
  }

  method DestroyNamed(z: Zfs, s: Option<Snap>) returns (ok: bool)
    requires z.pool.Valid()
    modifies z`pool
    ensures z.pool.Valid()
    ensures if ok then NamedCanGo(old(z.pool), s) && z.pool == old(z.pool).WithoutSnap(s.value) else z.pool == old(z.pool)
    ensures z.reliable && NamedCanGo(old(z.pool), s) ==> ok
  {
    ok := s.Some? && s.value in z.pool.snaps;
    if ok {
      ok := z.DestroySnap(s.value);
    }
  }

  // ---------------------------------------------------------------- rename

  /** The pool after so many of the renames: on the pool of the root, and on the boot pool. */
  function RenamedSoFar(p: Pool, h: Handle, be: string, target: string, stage: nat): Pool {
    if stage == 0 then p
    else if stage == 1 then Renamed(p, Join(h.root, be), Join(h.root, target))
    else if h.bootPool.None? then p
    else Renamed(RenamedSoFar(p, h, be, target, 1), BootDs(h, be), BootDs(h, target))
  }

  ghost predicate CanRename(p: Pool, b: string) { p.Valid() && b !in p.fs }

  /** What a rename of an environment asks of the pool. */
  ghost predicate Renameable(p: Pool, h: Handle, be: string, target: string) {
    && MayRename(p, h, be, target) && CanMove(p, Join(h.root, be), Join(h.root, target))
    && (h.bootPool.Some? ==> CanMove(RenamedSoFar(p, h, be, target, 1), BootDs(h, be), BootDs(h, target)))
  }

  function AllStages(h: Handle): nat { if h.bootPool.Some? then 2 else 1 }

  /** What `libze_rename` looks at first: the tests for the running and the active environment are by name. */
  ghost predicate MayRename(p: Pool, h: Handle, be: string, target: string) {
    && Present(p, h, be) && Free(p, h, target) && !IsRoot(h, be) && !IsActive(h, be) && Join(h.root, be) !in p.mounted
    && (h.bootPool.Some? ==> BootDs(h, be) !in p.mounted)
  }

  method CheckRename(z: Zfs, h: Handle, be: string, target: string) returns (ok: bool)
    ensures ok ==> MayRename(z.pool, h, be, target)
    ensures z.reliable && MayRename(z.pool, h, be, target) ==> ok
  {
    ok := ValidateNew(z, h, target);
    if ok {
      ok := ValidateExisting(z, h, be);
    }
    if ok {
      ok := !IsRoot(h, be) && !IsActive(h, be) && Join(h.root, be) !in z.pool.mounted;
    }
    if ok && h.bootPool.Some? {
      ok := BootDs(h, be) !in z.pool.mounted;
    }
  }

  /** The renames, on the pool of the root and on the boot pool. */
  method RenameStages(z: Zfs, h: Handle, be: string, target: string) returns (ok: bool, stage: nat)
    requires z.pool.Valid()
    modifies z`pool
    ensures z.pool.Valid() && z.pool == RenamedSoFar(old(z.pool), h, be, target, stage) && stage <= AllStages(h)
    ensures stage == 2 ==> CanRename(RenamedSoFar(old(z.pool), h, be, target, 1), BootDs(h, target))
    ensures stage > 0 ==> LegalName(target)
    ensures ok <==> stage == AllStages(h)
    ensures z.reliable && CanMove(old(z.pool), Join(h.root, be), Join(h.root, target)) ==> stage > 0
    ensures (&& z.reliable && CanMove(old(z.pool), Join(h.root, be), Join(h.root, target)) && h.bootPool.Some?
             && CanMove(RenamedSoFar(old(z.pool), h, be, target, 1), BootDs(h, be), BootDs(h, target))) ==> ok
  {
    LegalJoin(h.root, target);
    stage := 0;
    ok := z.Rename(Join(h.root, be), Join(h.root, target));
    if ok {
      stage := 1;
      if h.bootPool.Some? {
        ok := z.Rename(BootDs(h, be), BootDs(h, target));
        if ok {
          stage := 2;
        }
      }
    }
  }

  /** `libze_rename` */
  method RenameBe(z: Zfs, h: Handle, cfg: Config, be: string, target: string) returns (ok: bool, ghost stage: nat)
    requires z.pool.Valid()
    modifies z`pool
    ensures z.pool.Valid() && z.pool == RenamedSoFar(old(z.pool), h, be, target, stage)
    ensures stage <= AllStages(h)
    ensures stage == 2 ==> CanRename(RenamedSoFar(old(z.pool), h, be, target, 1), BootDs(h, target))
    ensures stage > 0 ==> LegalName(target) && MayRename(old(z.pool), h, be, target)
    ensures ok ==> stage > 0 && (cfg.plugin || stage == AllStages(h))
    ensures Sure(z, cfg) && Renameable(old(z.pool), h, be, target) ==> ok && stage == AllStages(h)
  {
    stage := 0;
    ok := CheckRename(z, h, be, target);
    if !ok {
      return;
    }
    var done;
    ok, done := RenameStages(z, h, be, target);
    stage := done;
    if done > 0 && cfg.plugin {
      ok := z.Hook();                      // post-rename hook; its result is the one reported
    }
  }

  // ---------------------------------------------------------------- mount and unmount

  /** What mounting an environment at `at` asks of the pool. */
  ghost predicate Mountable(p: Pool, h: Handle, be: string, at: string) {
    var d := Join(h.root, be);
    && |at| < MAX_PATH_LEN && |be| + 15 < MAX_DATASET_LEN
    && Present(p, h, be) && !IsRoot(h, d) && d !in p.mounted && Clear(p, d, at, d)
    && (h.bootPool.Some? ==> p.fs[BootDs(h, be)].mountpoint == "legacy" && |at| + 5 < MAX_PATH_LEN)
  }

  /** The directory that was given, or a temporary one. */
  predicate AskedFor(target: Option<string>, be: string, at: string) {
    if target.Some? then at == target.value else IsTempDir(at, be)
  }

  /** Every filesystem of the environment that has a mountpoint of its own is mounted, and so is the environment. */
  ghost predicate TreeMounted(p: Pool, d: string) {
    && d in p.mounted
    && forall x :: x in p.fs && Under(d, x) && p.fs[x].mountpoint != "none" && p.fs[x].mountpoint != "legacy" ==> x in p.mounted
  }

  /** What unmounting an environment asks of the pool. */
  ghost predicate Unmountable(p: Pool, h: Handle, be: string) {
    && !IsRoot(h, be) && Present(p, h, be) && Join(h.root, be) in p.mounted
    && (h.bootPool.Some? ==> BootDs(h, be) in p.mounted)
  }

  /** The environment's own dataset, and the walk over what lies below it. */
  method MountWalk(z: Zfs, d: string, at: string) returns (r: WalkEnd)
    requires z.pool.Valid() && d in z.pool.fs && d !in z.pool.mounted
    modifies z`pool
    ensures z.pool.Valid() && OnlyMounted(old(z.pool), z.pool, d, d)
    ensures !r.Reported? ==> d in z.pool.mounted
    ensures r.Walked? ==> AllMounted(old(z.pool), z.pool, d, at, d) && TreeMounted(z.pool, d)
    ensures z.reliable ==> !r.Silent? && (Clear(old(z.pool), d, at, d) ==> r.Walked?)
  {
    ghost var before := z.pool;
    var ok := z.Mount(d);
    if !ok {
      NothingMounted(before, d);
      return Reported;
    }
    FirstMounted(before, z.pool, d, d);
    MountBegins(before, z.pool, d, at, d);
    r := MountEach(z, before, d, at, d, Children(z.pool, d));
  }

  lemma NothingMounted(p: Pool, d: string)
    ensures OnlyMounted(p, p, d, d)
  {
  }

  /** `libze_mount` at a given directory or a temporary one. It returns the error that was set on the way, so that
      an iteration that broke off is reported as success. */
  method MountBe(z: Zfs, h: Handle, be: string, target: Option<string>) returns (ok: bool, at: string, ghost broken: bool)
    requires z.pool.Valid()
    modifies z`pool
    ensures z.pool.Valid() && z.pool == old(z.pool).(mounted := z.pool.mounted) && old(z.pool.mounted) <= z.pool.mounted
    ensures forall x :: Fresh(old(z.pool), z.pool, x) ==>
              || (h.bootPool.Some? && x == BootDs(h, be))
              || (Within(Join(h.root, be), x)
                  && (x == Join(h.root, be) || (z.pool.fs[x].mountpoint != "none" && z.pool.fs[x].mountpoint != "legacy")))
    ensures ok ==> && Present(old(z.pool), h, be) && !IsRoot(h, Join(h.root, be))
                   && Join(h.root, be) !in old(z.pool.mounted) && Join(h.root, be) in z.pool.mounted
                   && AskedFor(target, be, at) && |at| < MAX_PATH_LEN
    ensures ok && !broken ==> && TreeMounted(z.pool, Join(h.root, be))
                              && AllMounted(old(z.pool), z.pool, Join(h.root, be), at, Join(h.root, be))
    ensures ok && !broken && h.bootPool.Some? ==>
              BootDs(h, be) in z.pool.mounted && z.pool.fs[BootDs(h, be)].mountpoint == "legacy"
    ensures broken ==> ok && !z.reliable
    ensures z.reliable && (forall a :: AskedFor(target, be, a) ==> Mountable(old(z.pool), h, be, a)) ==> ok
  {
    var d := Join(h.root, be);
    at, broken := "", false;
    ok := ValidateExisting(z, h, be);
    if !ok || IsRoot(h, d) || d in z.pool.mounted || |be| + 15 >= MAX_DATASET_LEN {
      if target.None? { at := "/tmp/ze." + be + ".000000"; } else { at := target.value; }
      assert AskedFor(target, be, at);
      return false, at, false;
    }
    if target.Some? {
      at := target.value;
    } else {
      ok, at := MakeTempDir(z, be);
      if !ok {
        return false, at, false;
      }
    }
    assert AskedFor(target, be, at);
    if |at| >= MAX_PATH_LEN {
      return false, at, false;
    }
    var walk := MountWalk(z, d, at);
    broken := walk.Silent?;
    ok := walk.Silent?;
    if walk.Walked? {
      ok := true;
      if h.bootPool.Some? {
        ok := MountBoot(z, BootDs(h, be), at);
      }
    }
  }

  /** The boot pool's dataset goes to `boot` below the directory. */
  method MountBoot(z: Zfs, b: string, at: string) returns (ok: bool)
    requires z.pool.Valid() && b in z.pool.fs
    modifies z`pool
    ensures z.pool.Valid()
    ensures if ok then z.pool == old(z.pool).(mounted := old(z.pool.mounted) + {b}) && z.pool.fs[b].mountpoint == "legacy"
            else z.pool == old(z.pool)
    ensures z.reliable && old(z.pool.fs[b]).mountpoint == "legacy" && |at| + 5 < MAX_PATH_LEN ==> ok
  {
    ok := z.Allowed();                     // zfs_prop_get, and the directory
    ok := ok && z.pool.fs[b].mountpoint == "legacy" && |at| + 5 < MAX_PATH_LEN;
    if ok {
      ok := z.Mount(b);
    }
  }

  /** `libze_unmount` */
  method UnmountBe(z: Zfs, h: Handle, be: string) returns (ok: bool)
    requires z.pool.Valid()
    modifies z`pool
    ensures z.pool.Valid() && z.pool == old(z.pool).(mounted := z.pool.mounted) && z.pool.mounted <= old(z.pool.mounted)
    ensures forall x :: x in old(z.pool.mounted) && x !in z.pool.mounted ==>
              Within(Join(h.root, be), x) || (h.bootPool.Some? && Within(BootDs(h, be), x))
    ensures ok ==> forall x :: x in z.pool.mounted ==>
              !Within(Join(h.root, be), x) && (h.bootPool.Some? ==> !Within(BootDs(h, be), x))
    ensures ok ==> Unmountable(old(z.pool), h, be)
    ensures z.reliable && Unmountable(old(z.pool), h, be) ==> ok
  {
    if IsRoot(h, be) {
      return false;
    }
    ok := ValidateExisting(z, h, be);
    if !ok || Join(h.root, be) !in z.pool.mounted {
      return false;
    }
    if h.bootPool.Some? {
      if BootDs(h, be) !in z.pool.mounted {
        return false;
      }
      ok := UnmountTree(z, BootDs(h, be));
      if !ok {
        return false;
      }
    }
    ok := UnmountTree(z, Join(h.root, be));
  }

  // ---------------------------------------------------------------- snapshot

  function SnapBe(name: string): string { if '@' in name then name[..LastAt(name, '@').value] else name }

  function SnapTag(name: string, now: string): string { if '@' in name then name[LastAt(name, '@').value + 1..] else now }

  /** The snapshot that `zectl snapshot` takes is the one that `zectl destroy` names: by the name given, or by the
      environment's name, an at sign and the time. */
  lemma SnapshotIsNamed(h: Handle, name: string, now: string)
    requires '@' !in now
    ensures var full := if '@' in name then name else name + "@" + now;
            SnapOf(Join(h.root, full)) == Some(Snap(Join(h.root, SnapBe(name)), SnapTag(name, now)))
  {
    if '@' in name {
      var i := LastAt(name, '@').value;
      assert name == name[..i] + "@" + name[i + 1..];
      CutAtLast(Join(h.root, name[..i]), name[i + 1..], Join(h.root, name));
    } else {
      CutAtLast(Join(h.root, name), now, Join(h.root, name + "@" + now));
    }
  }

  lemma CutAtLast(ds: string, tag: string, path: string)
    requires path == ds + "@" + tag && '@' !in tag
    ensures SnapOf(path) == Some(Snap(ds, tag))
  {
    assert path[|ds| + 1..] == tag && path[..|ds|] == ds;
    LastAtIs(path, '@', |ds|);
  }

  /** What a snapshot of an environment asks of the pool; with a plugin, that it is running or can be mounted. */
  ghost predicate Snappable(p: Pool, h: Handle, cfg: Config, be: string, tag: string) {
    && Present(p, h, be) && CanTake(p, Join(h.root, be), tag, true)
    && (h.bootPool.Some? ==>
          CanTake(WithTaken(p, Join(h.root, be), tag, true), BootDs(h, be), tag, true))
    && (cfg.plugin ==> Storable(p, h, be))
  }

  /** What the pre-snapshot hook asks of the pool. */
  ghost predicate Storable(p: Pool, h: Handle, be: string) {
    IsRoot(h, Join(h.root, be))
    || (!IsRoot(h, be) && forall at :: IsTempDir(at, be) ==> Mountable(p, h, be, at))
  }

  lemma LessToTake(p: Pool, d: string, tag: string, recursive: bool)
    requires CanTake(p, d, tag, true) || CanTake(p, d, tag, recursive)
    ensures CanTake(p, d, tag, recursive) && |d| + 1 + |tag| < MAX_DATASET_LEN
  {
    assert Snap(d, tag) in Taken(p, d, tag, recursive);
  }

  /** The pre-snapshot hook of the systemd-boot plugin: an environment that is not running is mounted while its boot
      files are stored, and what went wrong in between is forgotten when it is unmounted. */
  method PreSnapshot(z: Zfs, h: Handle, be: string) returns (ok: bool)
    requires z.pool.Valid()
    modifies z`pool
    ensures z.pool.Valid() && z.pool == old(z.pool).(mounted := z.pool.mounted)
    ensures OnlyWithin(old(z.pool), z.pool, h, be)
    ensures z.reliable && z.hooks && Storable(old(z.pool), h, be) ==> ok
  {
    var d, at := Join(h.root, be), "";
    ghost var broken := false;
    if IsRoot(h, d) {
      ok := z.Hook();                      // properties, and the copies
      return;
    }
    ok := z.Hook();                        // properties
    if ok {
      ok, at, broken := MountBe(z, h, be, None);
    }
    if ok {
      var stored := z.Hook();              // the copies; the result is overwritten
      ok := UnmountBe(z, h, be);
    }
  }

  /** Only what stands within the environment was mounted or unmounted. */
  ghost predicate OnlyWithin(before: Pool, after: Pool, h: Handle, be: string) {
    forall x :: (x in before.mounted) != (x in after.mounted) ==>
      Within(Join(h.root, be), x) || (h.bootPool.Some? && Within(BootDs(h, be), x))
  }

  /** `libze_snapshot`: an environment's name and a tag, or its name and the time as the tag. */
  method SnapshotBe(z: Zfs, h: Handle, cfg: Config, name: string, now: string)
    returns (ok: bool, ghost be: string, ghost tag: string)
    requires z.pool.Valid()
    modifies z`pool
    ensures z.pool.Valid() && z.pool.fs == old(z.pool.fs) && old(z.pool.snaps) <= z.pool.snaps
    ensures OnlyWithin(old(z.pool), z.pool, h, be) && (!cfg.plugin ==> z.pool.mounted == old(z.pool.mounted))
    ensures be == SnapBe(name) && tag == SnapTag(name, now)
    ensures ok ==> Present(old(z.pool), h, be)
    ensures ok ==> z.pool.snaps == old(z.pool.snaps) + Taken(old(z.pool), Join(h.root, be), tag, true)
                                   + (if h.bootPool.Some? then Taken(old(z.pool), BootDs(h, be), tag, true) else {})
    ensures Sure(z, cfg) && Snappable(old(z.pool), h, cfg, be, tag) ==> ok
  {
    var env, suffix := name, "";
    if '@' in name {
      var i := LastAt(name, '@').value;
      env, suffix := name[..i], name[i + 1..];
    } else {
      suffix := now;
    }
    be, tag := env, suffix;
    if Snappable(z.pool, h, cfg, be, tag) {
      LessToTake(z.pool, Join(h.root, be), tag, true);
      if h.bootPool.Some? {
        LessToTake(WithTaken(z.pool, Join(h.root, be), tag, true), BootDs(h, be), tag, true);
      }
    }
    ok := ValidateExisting(z, h, env);
    if !ok || |Join(h.root, env)| + 1 + |suffix| >= MAX_DATASET_LEN {
      return false, be, tag;
    }
    if h.bootPool.Some? && |BootDs(h, env)| + 1 + |suffix| >= MAX_DATASET_LEN {
      return false, be, tag;
    }
    if cfg.plugin {
      ok := PreSnapshot(z, h, env);
      if !ok {
        return false, be, tag;
      }
    }
    ok := z.Snapshot(Join(h.root, env), suffix, true);
    if ok && h.bootPool.Some? {
      ok := z.Snapshot(BootDs(h, env), suffix, true);
    }
  }

  // ---------------------------------------------------------------- create

  /** Filesystems were added, and the others are what they were. */
  ghost predicate OnlyAdds(before: Pool, after: Pool) {
    && (forall x :: x in before.fs ==> x in after.fs && after.fs[x] == before.fs[x])
    && before.snaps <= after.snaps && before.mounted <= after.mounted
  }

  lemma ClonedOneAdds(before: Pool, after: Pool, known: seq<Native>, source: string, tag: string, be: string)
    requires ClonedOne(before, after, known, source, tag, be)
    ensures OnlyAdds(before, after) && forall x :: x in after.fs <==> x in before.fs || x == be
  {
  }

  lemma RemountedAdds(before: Pool, mid: Pool, after: Pool, d: string)
    requires OnlyAdds(before, mid) && d !in before.fs && before.Valid() && OnlyRemounted(mid, after, d)
    ensures OnlyAdds(before, after)
  {
    forall x | x in before.fs ensures x in after.fs && after.fs[x] == before.fs[x] {
      assert x != d;
    }
  }

  /** The source of a create: a snapshot that is there, or a filesystem that it can be taken of. */
  ghost predicate SourceReady(p: Pool, source: string, now: string) {
    if '@' in source then |source| < MAX_DATASET_LEN && SnapOf(source).Some? && SnapOf(source).value in p.snaps
    else CanTake(p, source, now, true)
  }

  /** `prepare_create_from_existing`: the dataset to clone and the tag of its snapshot. Whether that snapshot is
      recursive is read from a field that nothing has set. */
  method Prepare(z: Zfs, source: string, now: string) returns (ok: bool, ds: string, tag: string)
    requires z.pool.Valid()
    modifies z`pool
    ensures z.pool.Valid() && z.pool == old(z.pool).(snaps := z.pool.snaps) && old(z.pool.snaps) <= z.pool.snaps
    ensures ok ==> Snap(ds, tag) in z.pool.snaps
    ensures ok ==> if '@' in source then SnapOf(source) == Some(Snap(ds, tag)) else ds == source && tag == now
    ensures z.reliable && SourceReady(old(z.pool), source, now) ==> ok
  {
    ds, tag := "", "";
    if '@' in source {
      ok := |source| < MAX_DATASET_LEN && SnapOf(source).value in z.pool.snaps;
      return ok, SnapOf(source).value.ds, SnapOf(source).value.tag;
    }
    tag := now;
    ghost var ready := SourceReady(z.pool, source, now);
    if ready { LessToTake(z.pool, source, now, true); }
    if |source| + 1 + |tag| >= MAX_DATASET_LEN {
      return false, ds, tag;
    }
    var recursive: bool := *;
    if ready { LessToTake(z.pool, source, now, recursive); }
    ok := z.Snapshot(source, tag, recursive);
    return ok, source, tag;
  }

  /** The boot pool's part of a create from an existing source: it asks for the environment that is yet to be
      created, so it fails. */
  method PrepareBootPool(z: Zfs, h: Handle, source: string, be: string) returns (ok: bool)
    requires h.bootPool.Some?
    ensures Free(z.pool, h, be) ==> !ok
  {
    if '@' !in source {
      return false;
    }
    ok := ValidateExisting(z, h, be);
  }

  /** The snapshots a create from the bootfs takes; on the boot pool, of the running environment. */
  method PrepareActive(z: Zfs, h: Handle, now: string, recursive: bool) returns (ok: bool)
    requires z.pool.Valid()
    modifies z`pool
    ensures z.pool.Valid() && z.pool == old(z.pool).(snaps := z.pool.snaps) && old(z.pool.snaps) <= z.pool.snaps
    ensures ok ==> Snap(h.activatedPath, now) in z.pool.snaps
    ensures ok && h.bootPool.Some? ==> Snap(BootDs(h, h.running), now) in z.pool.snaps
    ensures (&& z.reliable && CanTake(old(z.pool), h.activatedPath, now, recursive)
             && (h.bootPool.Some? ==> CanTake(WithTaken(old(z.pool), h.activatedPath, now, recursive), BootDs(h, h.running), now, recursive)))
            ==> ok
  {
    ghost var before := z.pool;
    if CanTake(before, h.activatedPath, now, recursive) {
      LessToTake(before, h.activatedPath, now, recursive);
      ghost var mid := WithTaken(before, h.activatedPath, now, recursive);
      if h.bootPool.Some? && CanTake(mid, BootDs(h, h.running), now, recursive) {
        LessToTake(mid, BootDs(h, h.running), now, recursive);
      }
    }
    if |h.activatedPath| + 1 + |now| >= MAX_DATASET_LEN {
      return false;
    }
    ok := z.Snapshot(h.activatedPath, now, recursive);
    if ok && h.bootPool.Some? {
      if |BootDs(h, h.running)| + 1 + |now| >= MAX_DATASET_LEN {
        return false;
      }
      ok := z.Snapshot(BootDs(h, h.running), now, recursive);
    }
  }

  /** What a create asks of the pool. With a boot pool it must be one from the bootfs. */
  ghost predicate Creatable(p: Pool, h: Handle, be: string, source: Option<string>, now: string, recursive: bool) {
    && Free(p, h, be) && Addable(p, Join(h.root, be))
    && (if source.Some? then SourceReady(p, source.value, now) else CanTake(p, h.activatedPath, now, recursive))
    && (recursive ==> forall x :: x in p.fs ==> !Under(SourceDs(h, source), x))
    && (h.bootPool.Some? ==> source.None? && BootCreatable(p, h, be, now, recursive))
  }

  /** The same for the boot pool's part. */
  ghost predicate BootCreatable(p: Pool, h: Handle, be: string, now: string, recursive: bool)
    requires h.bootPool.Some?
  {
    var from := BootDs(h, h.running);
    && CanTake(WithTaken(p, h.activatedPath, now, recursive), from, now, recursive)
    && Addable(p, BootDs(h, be)) && BootDs(h, be) != Join(h.root, be)
    && (recursive ==> !Under(from, Join(h.root, be)) && forall x :: x in p.fs ==> !Under(from, x))
  }

  /** The dataset a create clones, and its snapshot. */
  function SourceDs(h: Handle, source: Option<string>): string {
    if source.None? then h.activatedPath
    else if SnapOf(source.value).Some? then SnapOf(source.value).value.ds
    else source.value
  }

  function SourceSnap(h: Handle, source: Option<string>, now: string): Snap {
    if source.Some? && SnapOf(source.value).Some? then SnapOf(source.value).value else Snap(SourceDs(h, source), now)
  }

  /** `d` is a clone of the snapshot `s`, to be mounted by hand only, with the properties that its source sets itself. */
  ghost predicate ClonedFrom(known: seq<Native>, before: Pool, after: Pool, d: string, s: Snap) {
    && s.ds in before.fs && d in after.fs && after.fs[d].origin == Some(s)
    && (Native("canmount", false) in known ==> IsNoauto(after, d))
    && forall n :: n != "canmount" && Native(n, false) in known && OwnSetting(before.fs[s.ds], n) ==>
         n in after.fs[d].props && after.fs[d].props[n] == Prop(before.fs[s.ds].props[n].value, Local)
  }

  lemma ClonedOneFrom(before: Pool, after: Pool, known: seq<Native>, source: string, tag: string, d: string)
    requires ClonedOne(before, after, known, source, tag, d)
    ensures ClonedFrom(known, before, after, d, Snap(source, tag))
  {
    var ds := before.fs[source];
    assert Native("canmount", false) in known ==> Given(known, ds, "canmount");
    forall n | n != "canmount" && Native(n, false) in known && OwnSetting(ds, n)
      ensures n in after.fs[d].props && after.fs[d].props[n] == Prop(ds.props[n].value, Local)
    {
      assert Given(known, ds, n);
    }
  }

  /** A clone stays what it is while others are added, and before anything but its canmount changes. */
  lemma StillCloned(known: seq<Native>, before: Pool, start: Pool, mid: Pool, after: Pool, d: string, s: Snap)
    requires ClonedFrom(known, start, mid, d, s) && s.ds in before.fs && before.fs[s.ds] == start.fs[s.ds]
    requires d in after.fs && after.fs[d].origin == mid.fs[d].origin
    requires after.fs[d].props == mid.fs[d].props || after.fs[d].props == Noauto(mid.fs[d]).props
    ensures ClonedFrom(known, before, after, d, s)
  {
  }

  /** Once the snapshot is there, nothing more stands in the way. */
  lemma ReadyToClone(p: Pool, q: Pool, h: Handle, be: string, source: Option<string>, now: string, recursive: bool,
                     ds: string, tag: string)
    requires p.Valid() && q.Valid() && Creatable(p, h, be, source, now, recursive) && q == p.(snaps := q.snaps)
    requires Snap(ds, tag) in q.snaps && ds == SourceDs(h, source)
    requires if source.Some? && '@' in source.value then SnapOf(source.value) == Some(Snap(ds, tag)) else tag == now
    ensures Free(q, h, be) && Cloneable(q, ds, tag, Join(h.root, be), recursive)
  {
    if source.None? {
      LessToTake(p, ds, tag, recursive);
    } else if '@' !in source.value {
      LessToTake(p, ds, tag, true);
    }
  }

  /** What the second clone asks, on the pool before the first. */
  ghost predicate BootCloneable(p: Pool, h: Handle, be: string, tag: string, recursive: bool)
    requires h.bootPool.Some?
  {
    var from := BootDs(h, h.running);
    && Cloneable(p, from, tag, BootDs(h, be), recursive) && BootDs(h, be) != Join(h.root, be)
    && (recursive ==> !Under(from, Join(h.root, be)))
  }

  lemma BootReadyToClone(p: Pool, q: Pool, h: Handle, be: string, now: string, recursive: bool)
    requires p.Valid() && q.Valid() && h.bootPool.Some? && BootCreatable(p, h, be, now, recursive) && q == p.(snaps := q.snaps)
    requires Snap(BootDs(h, h.running), now) in q.snaps
    ensures BootCloneable(q, h, be, now, recursive)
  {
    var from := BootDs(h, h.running);
    LessToTake(WithTaken(p, h.activatedPath, now, recursive), from, now, recursive);
  }

  lemma StillCloneable(before: Pool, mid: Pool, h: Handle, be: string, tag: string, recursive: bool)
    requires h.bootPool.Some? && BootCloneable(before, h, be, tag, recursive)
    requires OnlyAdds(before, mid) && forall x :: x in mid.fs <==> x in before.fs || x == Join(h.root, be)
    ensures Cloneable(mid, BootDs(h, h.running), tag, BootDs(h, be), recursive)
  {
    forall d | Under(d, BootDs(h, be)) ensures d in mid.fs {
      assert d in before.fs;
    }
  }

  method CloneBoth(z: Zfs, h: Handle, known: seq<Native>, be: string, ds: string, tag: string, recursive: bool)
    returns (ok: bool)
    requires z.pool.Valid()
    modifies z`pool
    ensures z.pool.Valid() && OnlyAdds(old(z.pool), z.pool)
    ensures forall x :: x in z.pool.fs && x !in old(z.pool.fs) ==>
              x == Join(h.root, be) || (h.bootPool.Some? && x == BootDs(h, be))
    ensures ok ==> LegalName(Join(h.root, be)) && ClonedFrom(known, old(z.pool), z.pool, Join(h.root, be), Snap(ds, tag))
    ensures ok && h.bootPool.Some? && BootDs(h, h.running) in old(z.pool.fs) ==>
              ClonedFrom(known, old(z.pool), z.pool, BootDs(h, be), Snap(BootDs(h, h.running), tag))
    ensures ok && recursive ==> forall x :: x in old(z.pool.fs) ==> !Under(ds, x)
    ensures (&& z.reliable && Free(old(z.pool), h, be) && Cloneable(old(z.pool), ds, tag, Join(h.root, be), recursive)
             && (h.bootPool.Some? ==> BootCloneable(old(z.pool), h, be, tag, recursive))) ==> ok
  {
    ok := ValidateNew(z, h, be);
    if !ok {
      return false;
    }
    ghost var before := z.pool;
    ok := CloneAll(z, known, ds, tag, Join(h.root, be), recursive);
    if z.pool != before {
      ClonedOneAdds(before, z.pool, known, ds, tag, Join(h.root, be));
    }
    if ok {
      ClonedOneFrom(before, z.pool, known, ds, tag, Join(h.root, be));
    }
    if ok && h.bootPool.Some? {
      var from := BootDs(h, h.running);
      ghost var mid := z.pool;
      if BootCloneable(before, h, be, tag, recursive) {
        StillCloneable(before, mid, h, be, tag, recursive);
      }
      ok := CloneAll(z, known, from, tag, BootDs(h, be), recursive);
      if z.pool != mid {
        ClonedOneAdds(mid, z.pool, known, from, tag, BootDs(h, be));
      }
      if ok {
        ClonedOneFrom(mid, z.pool, known, from, tag, BootDs(h, be));
        StillCloned(known, before, before, mid, z.pool, Join(h.root, be), Snap(ds, tag));
        if from in before.fs {
          StillCloned(known, before, mid, z.pool, z.pool, BootDs(h, be), Snap(from, tag));
        }
      }
    }
  }

  lemma RemountedTwice(before: Pool, mid: Pool, after: Pool, d: string)
    requires OnlyRemounted(before, mid, d) && OnlyRemounted(mid, after, d)
    ensures OnlyRemounted(before, after, d)
  {
  }

  /** The hook after a create, with the environment mounted for it. */
  method PostCreateHook(z: Zfs, h: Handle, be: string, d: string) returns (ok: bool)
    requires z.pool.Valid() && d in z.pool.fs
    modifies z`pool
    ensures z.pool.Valid() && OnlyRemounted(old(z.pool), z.pool, d)
    ensures ok && !IsRoot(h, d) ==> PutBack(z.pool, d)
  {
    if IsRoot(h, d) {
      ok := z.Hook();
      return;
    }
    var dir;
    ok, dir := TempMount(z, be, d);
    if ok {
      ok := z.Hook();
    }
    if ok {
      ghost var before, mid := old(z.pool), z.pool;
      ok := TempUnmount(z, d);
      RemountedTwice(before, mid, z.pool, d);
    }
  }

  /** `post_create` */
  method PostCreate(z: Zfs, h: Handle, be: string, ghost before: Pool) returns (ok: bool)
    requires z.pool.Valid() && before.Valid() && OnlyAdds(before, z.pool) && Join(h.root, be) !in before.fs
    modifies z`pool
    ensures z.pool.Valid() && OnlyAdds(before, z.pool) && z.pool.fs.Keys == old(z.pool.fs.Keys)
    ensures forall x :: x in z.pool.fs ==>
              && z.pool.fs[x].origin == old(z.pool.fs[x].origin)
              && (z.pool.fs[x].props == old(z.pool.fs[x].props) || z.pool.fs[x].props == Noauto(old(z.pool.fs[x])).props)
    ensures ok && !IsRoot(h, Join(h.root, be)) ==> PutBack(z.pool, Join(h.root, be))
  {
    var d := Join(h.root, be);
    ok := ValidateExisting(z, h, be);
    if ok {
      ghost var start := z.pool;
      ok := PostCreateHook(z, h, be, d);
      RemountedAdds(before, start, z.pool, d);
    }
  }

  /** `libze_create`, from the bootfs or from an existing dataset or snapshot */
  method Create(z: Zfs, h: Handle, cfg: Config, known: seq<Native>, be: string, source: Option<string>, now: string,
                recursive: bool)
    returns (ok: bool)
    requires z.pool.Valid()
    modifies z`pool
    ensures z.pool.Valid() && OnlyAdds(old(z.pool), z.pool)
    ensures forall x :: x in z.pool.fs && x !in old(z.pool.fs) ==>
              x == Join(h.root, be) || (h.bootPool.Some? && x == BootDs(h, be))
    ensures ok ==> && LegalName(be) && Free(old(z.pool), h, be)
                   && ClonedFrom(known, old(z.pool), z.pool, Join(h.root, be), SourceSnap(h, source, now))
    ensures ok && h.bootPool.Some? ==>
              && source.None?
              && ClonedFrom(known, old(z.pool), z.pool, BootDs(h, be), Snap(BootDs(h, h.running), now))
    ensures ok && recursive ==> forall x :: x in old(z.pool.fs) ==> !Under(SourceDs(h, source), x)
    ensures ok && cfg.plugin && !IsRoot(h, Join(h.root, be)) ==> PutBack(z.pool, Join(h.root, be))
    ensures z.reliable && !cfg.plugin && Creatable(old(z.pool), h, be, source, now, recursive) ==> ok
  {
    ok := ValidateNew(z, h, be);
    if !ok {
      return false;
    }
    ghost var before := z.pool;
    var ds, tag := h.activatedPath, now;
    if source.Some? {
      ok, ds, tag := Prepare(z, source.value, now);
      if ok && h.bootPool.Some? {
        ok := PrepareBootPool(z, h, source.value, be);
        assert !ok;
      }
    } else {
      ok := PrepareActive(z, h, now, recursive);
    }
    if ok {
      if Creatable(before, h, be, source, now, recursive) {
        ReadyToClone(before, z.pool, h, be, source, now, recursive, ds, tag);
        if h.bootPool.Some? { BootReadyToClone(before, z.pool, h, be, now, recursive); }
      }
      ok := CloneAndFinish(z, h, cfg, known, be, ds, tag, recursive, before);
    }
  }

  /** The clones, and the plugin's part after them. */
  method CloneAndFinish(z: Zfs, h: Handle, cfg: Config, known: seq<Native>, be: string, ds: string, tag: string,
                        recursive: bool, ghost before: Pool)
    returns (ok: bool)
    requires z.pool.Valid() && before.Valid() && z.pool == before.(snaps := z.pool.snaps) && before.snaps <= z.pool.snaps
    requires Snap(ds, tag) in z.pool.snaps && Free(before, h, be)
    requires h.bootPool.Some? ==> Snap(BootDs(h, h.running), tag) in z.pool.snaps
    modifies z`pool
    ensures z.pool.Valid() && OnlyAdds(before, z.pool)
    ensures forall x :: x in z.pool.fs && x !in before.fs ==>
              x == Join(h.root, be) || (h.bootPool.Some? && x == BootDs(h, be))
    ensures ok ==> LegalName(be) && ClonedFrom(known, before, z.pool, Join(h.root, be), Snap(ds, tag))
    ensures ok && h.bootPool.Some? ==> ClonedFrom(known, before, z.pool, BootDs(h, be), Snap(BootDs(h, h.running), tag))
    ensures ok && recursive ==> forall x :: x in before.fs ==> !Under(ds, x)
    ensures ok && cfg.plugin && !IsRoot(h, Join(h.root, be)) ==> PutBack(z.pool, Join(h.root, be))
    ensures (&& z.reliable && !cfg.plugin && Cloneable(old(z.pool), ds, tag, Join(h.root, be), recursive)
             && Free(old(z.pool), h, be)
             && (h.bootPool.Some? ==> BootCloneable(old(z.pool), h, be, tag, recursive))) ==> ok
  {
    LegalJoin(h.root, be);
    ghost var start := z.pool;
    ok := CloneBoth(z, h, known, be, ds, tag, recursive);
    if ok && cfg.plugin {
      ghost var mid := z.pool;
      ok := PostCreate(z, h, be, before);
      if ok {
        StillCloned(known, before, start, mid, z.pool, Join(h.root, be), Snap(ds, tag));
        if h.bootPool.Some? {
          StillCloned(known, before, start, mid, z.pool, BootDs(h, be), Snap(BootDs(h, h.running), tag));
        }
      }
    }
  }
}
