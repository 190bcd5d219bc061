/** The handle every command starts from, and the checks on a boot environment's name. */
module Handles {
  import opened CString
  import opened Names
  import opened Pools

  /** What the properties of the boot environment root say: the root on the boot pool ("" for none), the prefix
      of the datasets there, and whether a bootloader plugin is set. */
  datatype Config = Config(bootRoot: string, bootPrefix: string, plugin: bool)

  datatype Handle = Handle(root: string, running: string, runningPath: string,
                           activated: string, activatedPath: string, bootPool: Option<string>)

  /** What boot pool datasets start with: a boot environment's name is put right behind it. */
  function BootPool(cfg: Config): Option<string> {
    if cfg.bootRoot == "" then None
    else Some(cfg.bootRoot + "/" + cfg.bootPrefix + (if cfg.bootPrefix == "" then "" else "-"))
  }

  /** The handle for a running dataset and a bootfs. */
  predicate IsHandle(h: Handle, cfg: Config, running: string, bootfs: string) {
    && Cut(running) == Some(h.root) && BeName(running) == Some(h.running) && h.runningPath == running
    && BeName(bootfs) == Some(h.activated) && h.activatedPath == bootfs
    && h.bootPool == BootPool(cfg)
  }

  predicate IsRoot(h: Handle, be: string) { SameBe(h.running, h.runningPath, be) }

  predicate IsActive(h: Handle, be: string) { SameBe(h.activated, h.activatedPath, be) }

  function BootDs(h: Handle, be: string): string
    requires h.bootPool.Some?
  {
    h.bootPool.value + be
  }

  /** The boot pool's dataset of an environment stands below the root there, its name put behind the prefix and a dash. */
  lemma BootDsIs(h: Handle, cfg: Config, be: string)
    requires h.bootPool == BootPool(cfg) && cfg.bootRoot != ""
    ensures h.bootPool.Some?
    ensures BootDs(h, be) == Join(cfg.bootRoot, if cfg.bootPrefix == "" then be else cfg.bootPrefix + "-" + be)
  {
  }

  predicate Present(p: Pool, h: Handle, be: string) {
    var d := Join(h.root, be);
    && |d| < MAX_DATASET_LEN && d in p.fs && p.fs[d].mountpoint != "none"
    && (h.bootPool.Some? ==> |BootDs(h, be)| < MAX_DATASET_LEN && BootDs(h, be) in p.fs)
  }

  predicate Free(p: Pool, h: Handle, be: string) {
    && |Join(h.root, be)| < MAX_DATASET_LEN && Join(h.root, be) !in p.fs
    && (h.bootPool.Some? ==> |BootDs(h, be)| < MAX_DATASET_LEN && BootDs(h, be) !in p.fs)
  }

  /** `validate_existing_be` and `open_boot_environment` */
  method ValidateExisting(z: Zfs, h: Handle, be: string) returns (ok: bool)
    ensures ok ==> Present(z.pool, h, be)
    ensures ok ==> Join(h.root, be) in z.pool.fs && z.pool.fs[Join(h.root, be)].mountpoint != "none"
    ensures ok && h.bootPool.Some? ==> BootDs(h, be) in z.pool.fs
    ensures z.reliable && Present(z.pool, h, be) ==> ok
  {
    var d := Join(h.root, be);
    if |d| >= MAX_DATASET_LEN || d !in z.pool.fs {
      return false;
    }
    ok := z.Allowed();              // zfs_open, zfs_prop_get
    if !ok || z.pool.fs[d].mountpoint == "none" {
      return false;
    }
    if h.bootPool.Some? {
      var b := BootDs(h, be);
      if |b| >= MAX_DATASET_LEN || b !in z.pool.fs {
        return false;
      }
      ok := z.Allowed();            // zfs_open
    }
  }

  /** `validate_new_be` */
  method ValidateNew(z: Zfs, h: Handle, be: string) returns (ok: bool)
    ensures ok <==> Free(z.pool, h, be)
    ensures ok ==> Join(h.root, be) !in z.pool.fs && (h.bootPool.Some? ==> BootDs(h, be) !in z.pool.fs)
  {
    var d := Join(h.root, be);
    if |d| >= MAX_DATASET_LEN || d in z.pool.fs {
      return false;
    }
    if h.bootPool.Some? && (|BootDs(h, be)| >= MAX_DATASET_LEN || BootDs(h, be) in z.pool.fs) {
      return false;
    }
    ok := true;
  }

  /** `libze_get_zpool_name_from_dataset` finds a pool's name: there is something before the first slash. */
  predicate InPool(d: string) { '/' in d && d[0] != '/' }

  /** What `main` asks for before it runs a command: a root that is a pool itself is refused, on either pool. */
  predicate Usable(p: Pool, cfg: Config, h: Handle) {
    && (h.bootPool.Some? ==> cfg.bootRoot in p.fs && InPool(cfg.bootRoot) && |h.bootPool.value| < MAX_DATASET_LEN)
    && |h.runningPath| < MAX_DATASET_LEN && 3 <= |h.activatedPath| < MAX_DATASET_LEN && '/' in h.root
    && Present(p, h, h.activated) && (h.activated != h.running ==> Present(p, h, h.running))
  }

  /** Calls fail only for a reason in the pool, and a plugin's hooks succeed. */
  predicate Sure(z: Zfs, cfg: Config) { z.reliable && (cfg.plugin ==> z.hooks) }

  /** `libze_init`, `libze_bootloader_set`, `libze_boot_pool_set` and `libze_validate_system` */
  method OpenHandle(z: Zfs, cfg: Config) returns (r: Option<Handle>)
    ensures r.Some? ==> IsHandle(r.value, cfg, z.running, z.bootfs) && Usable(z.pool, cfg, r.value)
    ensures forall h :: Sure(z, cfg) && IsHandle(h, cfg, z.running, z.bootfs) && Usable(z.pool, cfg, h) ==> r == Some(h)
  {
    var root, running, activated := Cut(z.running), BeName(z.running), BeName(z.bootfs);
    var ok := z.Allowed();
    if !ok || root.None? || '/' !in root.value || activated.None? {
      return None;
    }
    if |z.running| >= MAX_DATASET_LEN || |z.bootfs| >= MAX_DATASET_LEN || |z.bootfs| < 3 {
      return None;
    }
    if cfg.plugin {
      ok := z.Hook();               // opening and initialising the plugin
      if !ok {
        return None;
      }
    }
    var bootPool := BootPool(cfg);
    if bootPool.Some? && (cfg.bootRoot !in z.pool.fs || !InPool(cfg.bootRoot) || |bootPool.value| >= MAX_DATASET_LEN) {
      return None;
    }
    var h := Handle(root.value, running.value, z.running, activated.value, z.bootfs, bootPool);
    ok := ValidateExisting(z, h, h.activated);
    if ok && !IsRoot(h, h.activated) {
      ok := ValidateExisting(z, h, h.running);
    }
    if !ok {
      return None;
    }
    assert '/' !in h.activated;
    return Some(h);
  }
}
