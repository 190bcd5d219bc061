/** Runs of commands and reboots, each command on a fresh handle and each possibly failing midway. */
module Lifecycle {
  import opened CString
  import opened Names
  import opened Pools
  import opened DestroyTree
  import opened CloneTree
  import opened Handles
  import opened Commands

  datatype State = State(fs: set<string>, bootfs: string, running: string)

  datatype Command =
    | Create(be: string, source: Option<string>, recursive: bool)
    | Destroy(be: string, o: Options)
    | Rename(be: string, target: string)
    | Activate(be: string)
    | Snapshot(be: string)
    | Mount(be: string, at: Option<string>)
    | Unmount(be: string)
    | Reboot

  /** The bootfs and the running dataset exist, and stand right below the boot environment root. */
  ghost predicate Safe(root: string, s: State) {
    && s.bootfs in s.fs && ChildOf(root, s.bootfs)
    && s.running in s.fs && ChildOf(root, s.running)
  }

  /** The boot pool's root is neither the boot environment root nor above it. */
  predicate ApartRoots(cfg: Config, root: string) { cfg.bootRoot == "" || !Within(cfg.bootRoot, root) }

  /** What a command can do to the filesystems, the bootfs and the running dataset, in every outcome. */
  ghost predicate Step(cfg: Config, s: State, c: Command, t: State) {
    if c.Reboot? then t == s.(running := s.bootfs)
    else
      && t.running == s.running
      && (t == s || exists h :: IsHandle(h, cfg, s.running, s.bootfs) && CommandStep(h, s, c, t))
  }

  ghost predicate CommandStep(h: Handle, s: State, c: Command, t: State) {
    match c
    case Activate(be) => t.fs == s.fs && (t.bootfs == s.bootfs || (t.bootfs == Join(h.root, be) && t.bootfs in s.fs))
    case Destroy(be, _) => t.bootfs == s.bootfs && forall x :: x in s.fs && x !in t.fs ==> MayGo(h, be, x)
    case Rename(be, _) => t.bootfs == s.bootfs && forall x :: x in s.fs && x !in t.fs ==> MayMove(h, be, x)
    case _ => t.bootfs == s.bootfs && s.fs <= t.fs
  }

  /** What a rename of the boot environment `be` may move. */
  ghost predicate MayMove(h: Handle, be: string, x: string) {
    || (Within(Join(h.root, be), x) && !IsRoot(h, be) && !IsActive(h, be))
    || (h.bootPool.Some? && Within(BootDs(h, be), x))
  }

  /** Nothing that may stand on the boot pool is a direct child of the root. */
  lemma BootPoolIsApart(cfg: Config, root: string, be: string, x: string)
    requires BootPool(cfg).Some? && ApartRoots(cfg, root) && ChildOf(root, x)
    ensures !Within(BootPool(cfg).value + be, x)
  {
    var b := BootPool(cfg).value + be;
    assert b == cfg.bootRoot + "/" + (cfg.bootPrefix + (if cfg.bootPrefix == "" then "" else "-") + be);
    if Within(b, x) {
      assert Under(cfg.bootRoot, b);
      UnderTransitive(cfg.bootRoot, b, x);
      NotUnderApart(cfg.bootRoot, root, x);
    }
  }

  lemma NotUnderApart(a: string, root: string, x: string)
    requires !Within(a, root) && ChildOf(root, x)
    ensures !Under(a, x)
  {
    if Under(a, x) {
      if |a| <= |root| {
        HoldersAreNested(a, root, x);
      } else {
        HoldersAreNested(root, a, x);
        ChildWithinSelfOnly(root, a, x);
      }
    }
  }

  /** The roots being apart is needed: a boot environment stands within a boot pool dataset of some name exactly
      when its path starts as those do. */
  lemma BootPoolReaches(full: string, x: string)
    ensures (exists be :: Within(full + be, x)) <==> full <= x
  {
    if full <= x {
      assert full + x[|full|..] == x;
      assert Within(full + x[|full|..], x);
    }
    if be :| Within(full + be, x) {
      assert (full + be)[..|full|] == full;
    }
  }

  lemma HandleRoot(h: Handle, cfg: Config, root: string, s: State)
    requires IsHandle(h, cfg, s.running, s.bootfs) && Safe(root, s)
    ensures h.root == root
  {
    ChildIsJoin(root, s.running);
  }

  /** A direct child of the root is safe from a destroy and from a rename when it is the bootfs or running. */
  lemma KeptStays(h: Handle, cfg: Config, root: string, s: State, be: string, x: string)
    requires IsHandle(h, cfg, s.running, s.bootfs) && Safe(root, s) && ApartRoots(cfg, root)
    requires x == s.bootfs || x == s.running
    ensures !MayGo(h, be, x) && !MayMove(h, be, x)
  {
    HandleRoot(h, cfg, root, s);
    if h.bootPool.Some? {
      BootPoolIsApart(cfg, root, be, x);
    }
    JoinIsChild(root, be);
    if Within(Join(root, be), x) {
      ChildWithinSelfOnly(root, Join(root, be), x);
      ByNameIsByPath(root, x, be);
    }
  }

  /** Every step keeps the state safe: an activate when its environment's name has no slash, the others always. */
  lemma StepKeepsSafe(cfg: Config, root: string, s: State, c: Command, t: State)
    requires Safe(root, s) && ApartRoots(cfg, root) && Step(cfg, s, c, t)
    requires c.Activate? ==> '/' !in c.be
    ensures Safe(root, t)
  {
    if !c.Reboot? && t != s {
      var h :| IsHandle(h, cfg, s.running, s.bootfs) && CommandStep(h, s, c, t);
      HandleRoot(h, cfg, root, s);
      if c.Activate? {
        JoinIsChild(root, c.be);
      } else {
        if c.Destroy? || c.Rename? {
          KeptStays(h, cfg, root, s, c.be, s.bootfs);
          KeptStays(h, cfg, root, s, c.be, s.running);
        }
      }
    }
  }

  /** For an activate that takes effect the condition on the name is the exact one. */
  lemma ActivateIsSafeIff(cfg: Config, root: string, s: State, be: string, t: State)
    requires Safe(root, s) && Step(cfg, s, Activate(be), t) && t.bootfs != s.bootfs
    ensures Safe(root, t) <==> '/' !in be
  {
    var h :| IsHandle(h, cfg, s.running, s.bootfs) && CommandStep(h, s, Activate(be), t);
    HandleRoot(h, cfg, root, s);
    JoinIsChild(root, be);
  }

  /** A run: each state follows from the one before it by the command in between. */
  ghost predicate IsRun(cfg: Config, states: seq<State>, commands: seq<Command>) {
    && |states| == |commands| + 1
    && forall i :: 0 <= i < |commands| ==> Step(cfg, states[i], commands[i], states[i + 1])
  }

  lemma {:induction false} RunSafeAt(cfg: Config, root: string, states: seq<State>, commands: seq<Command>, n: nat)
    requires IsRun(cfg, states, commands) && Safe(root, states[0]) && ApartRoots(cfg, root) && n < |states|
    requires forall i :: 0 <= i < |commands| && commands[i].Activate? ==> '/' !in commands[i].be
    ensures Safe(root, states[n])
  {
    if n > 0 {
      RunSafeAt(cfg, root, states, commands, n - 1);
      StepKeepsSafe(cfg, root, states[n - 1], commands[n - 1], states[n]);
    }
  }

  /** Safety over every run. */
  lemma RunKeepsSafe(cfg: Config, root: string, states: seq<State>, commands: seq<Command>)
    requires IsRun(cfg, states, commands) && Safe(root, states[0]) && ApartRoots(cfg, root)
    requires forall i :: 0 <= i < |commands| && commands[i].Activate? ==> '/' !in commands[i].be
    ensures forall n :: 0 <= n < |states| ==> Safe(root, states[n])
  {
    forall n | 0 <= n < |states| ensures Safe(root, states[n]) {
      RunSafeAt(cfg, root, states, commands, n);
    }
  }

  // ---------------------------------------------------------------- the program

  ghost function StateOf(z: Zfs): State
    reads z
  {
    State(z.pool.fs.Keys, z.bootfs, z.running)
  }

  /** When calls fail only for a reason in the pool and hooks succeed, the command must succeed on this handle. */
  ghost predicate MustWork(p: Pool, h: Handle, cfg: Config, c: Command, now: string) {
    match c
    case Create(be, source, recursive) => !cfg.plugin && Creatable(p, h, be, source, now, recursive)
    case Destroy(be, o) =>
      if '@' in be then
        && h.bootPool.Some? && SnapCanGo(p, h, be)
        && NamedCanGo(p.WithoutSnap(SnapOf(Join(h.root, be)).value), SnapOf(BootDs(h, be)))
      else Destroyable(p, h, be, o)
    case Rename(be, target) => '/' !in target && Renameable(p, h, be, target)
    case Activate(be) =>
      && h.bootPool.None? && MustActivate(p, h, cfg, c) && Promotable(p, Join(h.root, be))
      && Join(h.root, be) != h.activatedPath
    case Snapshot(name) => Snappable(p, h, cfg, SnapBe(name), SnapTag(name, now))
    case Mount(be, at) => forall a :: AskedFor(at, be, a) ==> Mountable(p, h, be, a)
    case Unmount(be) => Unmountable(p, h, be)
    case Reboot => true
  }

  /** An activate must take effect. */
  ghost predicate MustActivate(p: Pool, h: Handle, cfg: Config, c: Command) {
    c.Activate? && Present(p, h, c.be) && CanPrepare(p, h, cfg, c.be)
  }

  /** What a command that reports success has done to the pool. */
  ghost predicate Done(p: Pool, q: Pool, known: seq<Native>, h: Handle, cfg: Config, c: Command, now: string) {
    match c
    case Create(be, source, recursive) =>
      && Free(p, h, be) && ClonedFrom(known, p, q, Join(h.root, be), SourceSnap(h, source, now))
      && (recursive ==> forall x :: x in p.fs ==> !Under(SourceDs(h, source), x))
      && (h.bootPool.Some? ==> ClonedFrom(known, p, q, BootDs(h, be), Snap(BootDs(h, h.running), now)))
    case Destroy(be, o) =>
      if '@' in be then
        && SnapOf(Join(h.root, be)).Some? && SnapOf(Join(h.root, be)).value in p.snaps
        && SnapOf(Join(h.root, be)).value !in q.snaps
      else Destroyed(p, q, h, be, o)
    case Rename(be, target) =>
      && Present(p, h, be) && Free(p, h, target)
      && (q == RenamedSoFar(p, h, be, target, AllStages(h))
          || (cfg.plugin && q == RenamedSoFar(p, h, be, target, 1)))
    case Snapshot(name) =>
      q.snaps == p.snaps + Taken(p, Join(h.root, SnapBe(name)), SnapTag(name, now), true)
                 + (if h.bootPool.Some? then Taken(p, BootDs(h, SnapBe(name)), SnapTag(name, now), true) else {})
    case Mount(be, _) => Join(h.root, be) !in p.mounted && Join(h.root, be) in q.mounted
    case Unmount(be) =>
      && Join(h.root, be) in p.mounted
      && forall x :: x in q.mounted ==> !Within(Join(h.root, be), x) && (h.bootPool.Some? ==> !Within(BootDs(h, be), x))
    case _ => true
  }

  /** What a command leaves alone in every outcome. */
  ghost predicate Bounded(p: Pool, q: Pool, h: Handle, c: Command) {
    match c
    case Create(_, _, _) => OnlyAdds(p, q)
    case Destroy(be, o) =>
      if '@' in be then q.fs == p.fs && q.mounted == p.mounted && q.snaps <= p.snaps
      else PrunedBoth(p, q, Join(h.root, be), SecondDs(h, be), o)
    case Rename(be, target) =>
      || q == p || q == RenamedSoFar(p, h, be, target, 1)
      || (h.bootPool.Some? && q == RenamedSoFar(p, h, be, target, 2))
    case Activate(be) =>
      && q.fs.Keys == p.fs.Keys
      && forall x :: x != Join(h.root, be) ==> (x in q.mounted <==> x in p.mounted)
    case Snapshot(name) => q.fs == p.fs && p.snaps <= q.snaps && OnlyWithin(p, q, h, SnapBe(name))
    case Mount(_, _) => q == p.(mounted := q.mounted) && p.mounted <= q.mounted
    case Unmount(_) => q == p.(mounted := q.mounted) && q.mounted <= p.mounted
    case Reboot => q.fs == p.fs && q.snaps == p.snaps
  }

  lemma NothingBounded(p: Pool, h: Handle, c: Command)
    ensures Bounded(p, p, h, c)
  {
    if c.Destroy? && '@' !in c.be {
      var d, e := Join(h.root, c.be), SecondDs(h, c.be);
      NothingTaken(p, d, c.o);
      NothingTaken(p, e, c.o);
      PrunedThen(p, p, p, d, e, c.o);
    }
  }

  /** What an activate that reports success has done: all of it, or nothing to the bootfs and to any origin. */
  ghost predicate ActivateDone(before: Pool, after: Pool, bootfs: string, bootfs': string, promoted: set<string>,
                               promoted': set<string>, h: Handle, be: string) {
    || (bootfs' == Join(h.root, be) && Activated(before, after, promoted', h, be))
    || (bootfs' == bootfs && promoted' == promoted)
  }

  /** A running dataset and a bootfs have one handle. */
  lemma OneHandle(h: Handle, g: Handle, cfg: Config, running: string, bootfs: string)
    requires IsHandle(h, cfg, running, bootfs) && IsHandle(g, cfg, running, bootfs)
    ensures h == g
  {
  }

  /** `main`: one command on a fresh handle. */
  method RunCommand(z: Zfs, cfg: Config, known: seq<Native>, c: Command, now: string) returns (ok: bool)
    requires z.pool.Valid()
    modifies z
    ensures z.pool.Valid() && Step(cfg, old(StateOf(z)), c, StateOf(z))
    ensures forall h :: IsHandle(h, cfg, old(z.running), old(z.bootfs)) ==> Bounded(old(z.pool), z.pool, h, c)
    ensures ok && !c.Reboot? ==> exists h :: IsHandle(h, cfg, old(z.running), old(z.bootfs)) && Usable(old(z.pool), cfg, h)
    ensures forall h :: ok && !c.Reboot? && IsHandle(h, cfg, old(z.running), old(z.bootfs)) ==>
              && Done(old(z.pool), z.pool, known, h, cfg, c, now)
              && (c.Mount? && z.reliable ==> TreeMounted(z.pool, Join(h.root, c.be)))
              && (c.Activate? ==> ActivateDone(old(z.pool), z.pool, old(z.bootfs), z.bootfs, old(z.promoted), z.promoted, h, c.be))
    ensures forall h :: IsHandle(h, cfg, old(z.running), old(z.bootfs)) && Usable(old(z.pool), cfg, h) && Sure(z, cfg) ==>
              && (MustWork(old(z.pool), h, cfg, c, now) ==> ok)
              && (MustActivate(old(z.pool), h, cfg, c) ==> z.bootfs == Join(h.root, c.be))
  {
    if c.Reboot? {
      Restart(z);
      return true;
    }
    ghost var running, bootfs := z.running, z.bootfs;
    var handle := OpenHandle(z, cfg);
    if handle.None? {
      forall h ensures Bounded(z.pool, z.pool, h, c) {
        NothingBounded(z.pool, h, c);
      }
      return false;
    }
    forall h | IsHandle(h, cfg, running, bootfs) ensures h == handle.value {
      OneHandle(h, handle.value, cfg, running, bootfs);
    }
    ok := Dispatch(z, cfg, known, handle.value, c, now);
  }

  /** The firmware boots what the pool names, and mounts start anew. */
  method Restart(z: Zfs)
    requires z.pool.Valid()
    modifies z
    ensures z.pool.Valid() && StateOf(z) == old(StateOf(z)).(running := old(z.bootfs))
    ensures z.pool.fs == old(z.pool.fs) && z.pool.snaps == old(z.pool.snaps)
  {
    var mounted: set<string> := *;
    z.pool := z.pool.(mounted := mounted * z.pool.fs.Keys);
    z.running := z.bootfs;
  }

  /** `ze_activate`: an environment that is active already is refused. */
  method DispatchActivate(z: Zfs, cfg: Config, known: seq<Native>, h: Handle, c: Command, now: string) returns (ok: bool)
    requires z.pool.Valid() && c.Activate? && IsHandle(h, cfg, z.running, z.bootfs)
    modifies z`pool, z`bootfs, z`promoted
    ensures z.pool.Valid() && CommandStep(h, old(StateOf(z)), c, StateOf(z)) && Bounded(old(z.pool), z.pool, h, c)
    ensures ok ==> Done(old(z.pool), z.pool, known, h, cfg, c, now)
    ensures ok ==> ActivateDone(old(z.pool), z.pool, old(z.bootfs), z.bootfs, old(z.promoted), z.promoted, h, c.be)
    ensures Sure(z, cfg) && MustActivate(old(z.pool), h, cfg, c) ==> z.bootfs == Join(h.root, c.be)
    ensures Sure(z, cfg) && MustWork(old(z.pool), h, cfg, c, now) ==> ok
  {
    var d := Join(h.root, c.be);
    assert d[|h.root|] == '/';
    ok := |d| < MAX_DATASET_LEN && !IsActive(h, d);
    if ok {
      ghost var took := false;
      ok, took := Commands.Activate(z, h, cfg, c.be);
    }
  }

  /** `ze_rename`: a target with a slash is refused. */
  method DispatchRename(z: Zfs, cfg: Config, known: seq<Native>, h: Handle, c: Command, now: string) returns (ok: bool)
    requires z.pool.Valid() && c.Rename?
    modifies z`pool
    ensures z.pool.Valid() && CommandStep(h, old(StateOf(z)), c, StateOf(z)) && Bounded(old(z.pool), z.pool, h, c)
    ensures ok ==> Done(old(z.pool), z.pool, known, h, cfg, c, now)
    ensures Sure(z, cfg) && MustWork(old(z.pool), h, cfg, c, now) ==> ok
  {
    ok := '/' !in c.target;
    if ok {
      ghost var before, stage := z.pool, 0;
      ok, stage := RenameBe(z, h, cfg, c.be, c.target);
      RenameTakes(before, h, c.be, c.target, stage);
    }
  }

  /** `ze_destroy`, of an environment or a snapshot. */
  method DispatchDestroy(z: Zfs, cfg: Config, known: seq<Native>, h: Handle, c: Command, now: string) returns (ok: bool)
    requires z.pool.Valid() && c.Destroy?
    modifies z`pool
    ensures z.pool.Valid() && CommandStep(h, old(StateOf(z)), c, StateOf(z)) && Bounded(old(z.pool), z.pool, h, c)
    ensures ok ==> Done(old(z.pool), z.pool, known, h, cfg, c, now)
    ensures Sure(z, cfg) && MustWork(old(z.pool), h, cfg, c, now) ==> ok
  {
    if '@' in c.be {
      ok := DestroyBeSnap(z, h, cfg, c.be);
    } else {
      ok := DestroyBe(z, h, cfg, c.be, c.o);
    }
  }

  /** `ze_create` */
  method DispatchCreate(z: Zfs, cfg: Config, known: seq<Native>, h: Handle, c: Command, now: string) returns (ok: bool)
    requires z.pool.Valid() && c.Create?
    modifies z`pool
    ensures z.pool.Valid() && CommandStep(h, old(StateOf(z)), c, StateOf(z)) && Bounded(old(z.pool), z.pool, h, c)
    ensures ok ==> Done(old(z.pool), z.pool, known, h, cfg, c, now)
    ensures Sure(z, cfg) && MustWork(old(z.pool), h, cfg, c, now) ==> ok
  {
    ok := Commands.Create(z, h, cfg, known, c.be, c.source, now, c.recursive);
  }

  /** `ze_snapshot`, `ze_mount` and `ze_unmount` */
  method DispatchMounts(z: Zfs, cfg: Config, known: seq<Native>, h: Handle, c: Command, now: string) returns (ok: bool)
    requires z.pool.Valid() && (c.Snapshot? || c.Mount? || c.Unmount?)
    modifies z`pool
    ensures z.pool.Valid() && CommandStep(h, old(StateOf(z)), c, StateOf(z)) && Bounded(old(z.pool), z.pool, h, c)
    ensures ok ==> Done(old(z.pool), z.pool, known, h, cfg, c, now)
    ensures ok && c.Mount? && z.reliable ==> TreeMounted(z.pool, Join(h.root, c.be))
    ensures Sure(z, cfg) && MustWork(old(z.pool), h, cfg, c, now) ==> ok
  {
    match c {
      case Snapshot(name) =>
        ghost var env, tag := "", "";
        ok, env, tag := SnapshotBe(z, h, cfg, name, now);
      case Mount(be, target) =>
        var at := "";
        ghost var broken := false;
        ok, at, broken := MountBe(z, h, be, target);
      case Unmount(be) => ok := UnmountBe(z, h, be);
    }
  }

  /** The function behind the command. */
  method Dispatch(z: Zfs, cfg: Config, known: seq<Native>, h: Handle, c: Command, now: string) returns (ok: bool)
    requires z.pool.Valid() && !c.Reboot? && IsHandle(h, cfg, z.running, z.bootfs)
    modifies z`pool, z`bootfs, z`promoted
    ensures z.pool.Valid() && CommandStep(h, old(StateOf(z)), c, StateOf(z)) && Bounded(old(z.pool), z.pool, h, c)
    ensures ok ==> Done(old(z.pool), z.pool, known, h, cfg, c, now)
    ensures ok && c.Mount? && z.reliable ==> TreeMounted(z.pool, Join(h.root, c.be))
    ensures ok && c.Activate? ==>
              ActivateDone(old(z.pool), z.pool, old(z.bootfs), z.bootfs, old(z.promoted), z.promoted, h, c.be)
    ensures Sure(z, cfg) && MustWork(old(z.pool), h, cfg, c, now) ==> ok
    ensures Sure(z, cfg) && MustActivate(old(z.pool), h, cfg, c) ==> z.bootfs == Join(h.root, c.be)
  {
    if c.Activate? {
      ok := DispatchActivate(z, cfg, known, h, c, now);
    } else if c.Destroy? {
      ok := DispatchDestroy(z, cfg, known, h, c, now);
    } else if c.Rename? {
      ok := DispatchRename(z, cfg, known, h, c, now);
    } else if c.Create? {
      ok := DispatchCreate(z, cfg, known, h, c, now);
    } else {
      ok := DispatchMounts(z, cfg, known, h, c, now);
    }
  }

  lemma RenameTakesOne(p: Pool, a: string, b: string, x: string)
    requires CanRename(p, b) && x in p.fs && x !in Renamed(p, a, b).fs
    ensures Within(a, x)
  {
    RenameMovesEach(p, a, b, x);
  }

  lemma RenameTakes(p: Pool, h: Handle, be: string, target: string, stage: nat)
    requires stage > 0 ==> CanRename(p, Join(h.root, target)) && !IsRoot(h, be) && !IsActive(h, be)
    requires stage <= if h.bootPool.Some? then 2 else 1
    requires stage == 2 ==> CanRename(RenamedSoFar(p, h, be, target, 1), BootDs(h, target))
    ensures forall x :: x in p.fs && x !in RenamedSoFar(p, h, be, target, stage).fs ==> MayMove(h, be, x)
  {
    var mid := RenamedSoFar(p, h, be, target, 1);
    forall x | x in p.fs && x !in RenamedSoFar(p, h, be, target, stage).fs ensures MayMove(h, be, x) {
      if x in mid.fs {
        RenameTakesOne(mid, BootDs(h, be), BootDs(h, target), x);
      } else {
        RenameTakesOne(p, Join(h.root, be), Join(h.root, target), x);
      }
    }
  }

  /** Any commands, with any failures: what is booted and what is to boot stays there. */
  method RunAll(z: Zfs, cfg: Config, known: seq<Native>, commands: seq<Command>, ghost root: string)
    requires z.pool.Valid() && Safe(root, StateOf(z)) && ApartRoots(cfg, root)
    requires forall c :: c in commands && c.Activate? ==> '/' !in c.be
    modifies z
    ensures z.pool.Valid() && Safe(root, StateOf(z))
  {
    for i := 0 to |commands|
      invariant z.pool.Valid() && Safe(root, StateOf(z))
    {
      ghost var s := StateOf(z);
      var now: string := *;
      var ok := RunCommand(z, cfg, known, commands[i], now);
      StepKeepsSafe(cfg, root, s, commands[i], StateOf(z));
    }
  }
}
