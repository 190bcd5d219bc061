/** A pool: filesystems keyed by name, snapshots, clones by their origins, and what is mounted. The primitives
    of libzfs act on it and may fail at any time. */
module Pools {
  import opened CString
  import opened Names

  datatype Snap = Snap(ds: string, tag: string) {
    /** The full name, "DATASET@TAG", is one that ZFS takes. */
    predicate Legal() { |ds| + 1 + |tag| < MAX_DATASET_LEN && LegalPart(tag) }
  }

  datatype Source = Local | Received | Other

  datatype Prop = Prop(value: string, source: Source)

  datatype Dataset = Dataset(origin: Option<Snap>, mountpoint: string, props: map<string, Prop>)

  datatype Pool = Pool(fs: map<string, Dataset>, snaps: set<Snap>, mounted: set<string>) {

    ghost predicate Valid() {
      && (forall x :: x in fs ==> |x| < MAX_DATASET_LEN)
      && (forall d, x {:trigger Under(d, x)} :: x in fs && Under(d, x) ==> d in fs)
      && (forall s :: s in snaps ==> s.ds in fs)
      && OriginsStand()
      && mounted <= fs.Keys
    }

    /** Every clone's origin is there. */
    predicate OriginsStand() {
      forall x :: x in fs && fs[x].origin.Some? ==> fs[x].origin.value in snaps
    }

    predicate HasClones(s: Snap) { exists x :: x in fs && fs[x].origin == Some(s) }

    /** Neither descendants nor snapshots: what destroying a filesystem asks for. */
    predicate Bare(d: string) {
      && (forall x :: x in fs ==> !Under(d, x))
      && (forall s :: s in snaps ==> s.ds != d)
    }

    function Without(d: string): Pool { Pool(fs - {d}, snaps, mounted - {d}) }

    function WithoutSnap(s: Snap): Pool { this.(snaps := snaps - {s}) }
  }

  /** A filesystem may be added under the name `b`: it is legal and free, and what it lies under exists. */
  ghost predicate Addable(p: Pool, b: string) {
    && b !in p.fs && |b| < MAX_DATASET_LEN && LegalName(b)
    && forall d {:trigger Under(d, b)} :: Under(d, b) ==> d in p.fs
  }

  lemma AncestorsByIndex(p: Pool, b: string)
    ensures (forall d {:trigger Under(d, b)} :: Under(d, b) ==> d in p.fs)
       <==> (forall i :: 0 <= i < |b| && b[i] == '/' ==> b[..i] in p.fs)
  {
    forall d | Under(d, b) ensures d == b[..|d|] && b[|d|] == '/' {
    }
    forall i | 0 <= i < |b| && b[i] == '/' ensures Under(b[..i], b) {
    }
  }

  lemma AddedIsValid(p: Pool, b: string, ds: Dataset)
    requires p.Valid() && Addable(p, b) && (ds.origin.Some? ==> ds.origin.value in p.snaps)
    ensures p.(fs := p.fs[b := ds]).Valid()
  {
    var q := p.(fs := p.fs[b := ds]);
    forall d, x | x in q.fs && Under(d, x) ensures d in q.fs {
      assert x == b || x in p.fs;
    }
  }

  /** What a rename asks of the pool. */
  ghost predicate CanMove(p: Pool, a: string, b: string) {
    a in p.fs && Addable(p, b) && !Within(a, b) && MoveFits(p, a, b)
  }

  /** Filesystems and snapshots still have room for their names. */
  predicate MoveFits(p: Pool, a: string, b: string) {
    && (forall x :: x in p.fs ==> |NewName(a, b, x)| < MAX_DATASET_LEN)
    && (forall s :: s in p.snaps ==> |NewName(a, b, s.ds)| + 1 + |s.tag| < MAX_DATASET_LEN)
  }

  /** What a clone asks of the pool. */
  ghost predicate CanClone(p: Pool, s: Snap, b: string) { s in p.snaps && Addable(p, b) }

  /** What taking snapshots asks of the pool: every one is legal and new. */
  predicate CanTake(p: Pool, d: string, tag: string, recursive: bool) {
    && d in p.fs
    && forall s :: s in Taken(p, d, tag, recursive) ==> s.Legal() && s !in p.snaps
  }

  // ---------------------------------------------------------------- what a rename means

  /** The name `x` has after `a` was renamed to `b`. */
  function NewName(a: string, b: string, x: string): string {
    if Within(a, x) then b + x[|a|..] else x
  }

  function OldName(a: string, b: string, y: string): string { NewName(b, a, y) }

  function NewSnap(a: string, b: string, s: Snap): Snap { s.(ds := NewName(a, b, s.ds)) }

  function NewDataset(a: string, b: string, ds: Dataset): Dataset {
    if ds.origin.Some? then ds.(origin := Some(NewSnap(a, b, ds.origin.value))) else ds
  }

  /** The pool with the subtree of `a` standing under the name `b`. */
  function Renamed(p: Pool, a: string, b: string): Pool {
    Pool(map y | y in (set x | x in p.fs :: NewName(a, b, x)) && OldName(a, b, y) in p.fs
             :: NewDataset(a, b, p.fs[OldName(a, b, y)]),
         set s | s in p.snaps :: NewSnap(a, b, s),
         set x | x in p.mounted :: NewName(a, b, x))
  }

  lemma UnderDropPrefix(a: string, e: string, f: string)
    ensures Under(a + e, a + f) <==> Under(e, f)
  {
    if |e| < |f| {
      assert (a + f)[..|a + e|] == a + f[..|e|];
      if a + f[..|e|] == a + e {
        assert f[..|e|] == (a + f[..|e|])[|a|..] == (a + e)[|a|..] == e;
      }
      assert (a + f)[|a + e|] == f[|e|];
    }
  }

  lemma NewNameIsWithin(a: string, b: string, x: string)
    requires Within(a, x)
    ensures Within(b, NewName(a, b, x)) && OldName(a, b, NewName(a, b, x)) == x
  {
    var f := x[|a|..];
    assert x == a + f && a == a + "" && b == b + "";
    UnderDropPrefix(a, "", f);
    UnderDropPrefix(b, "", f);
    assert (b + f)[|b|..] == f;
  }

  lemma NewNameKeepsUnder(a: string, b: string, d: string, x: string)
    requires Within(a, d) && Within(a, x)
    ensures Under(d, x) <==> Under(NewName(a, b, d), NewName(a, b, x))
  {
    assert d == a + d[|a|..] && x == a + x[|a|..];
    UnderDropPrefix(a, d[|a|..], x[|a|..]);
    UnderDropPrefix(b, d[|a|..], x[|a|..]);
  }

  /** Nothing stands at or below a free name. */
  lemma FreeName(p: Pool, b: string, x: string)
    requires p.Valid() && b !in p.fs && x in p.fs
    ensures !Within(b, x)
  {
  }

  lemma RenamedAt(p: Pool, a: string, b: string, x: string)
    requires x in p.fs && OldName(a, b, NewName(a, b, x)) == x
    ensures var r, y := Renamed(p, a, b), NewName(a, b, x); y in r.fs && r.fs[y] == NewDataset(a, b, p.fs[x])
  {
  }

  /** A rename to a free name outside the subtree moves every filesystem and loses none. */
  lemma RenameMovesEach(p: Pool, a: string, b: string, x: string)
    requires p.Valid() && b !in p.fs && x in p.fs
    ensures NewName(a, b, x) in Renamed(p, a, b).fs
         && Renamed(p, a, b).fs[NewName(a, b, x)] == NewDataset(a, b, p.fs[x])
         && OldName(a, b, NewName(a, b, x)) == x
  {
    if Within(a, x) {
      NewNameIsWithin(a, b, x);
    } else {
      FreeName(p, b, x);
    }
    RenamedAt(p, a, b, x);
  }

  lemma RenameKeepsAncestors(p: Pool, a: string, b: string, x: string, d: string)
    requires p.Valid() && Addable(p, b) && !Within(a, b) && x in p.fs && Under(d, NewName(a, b, x))
    ensures d in Renamed(p, a, b).fs
  {
    var y := NewName(a, b, x);
    if Within(a, x) && |b| <= |d| {
      NewNameIsWithin(a, b, x);
      HoldersAreNested(b, d, y);
      NewNameIsWithin(b, a, d);
      NewNameKeepsUnder(b, a, d, y);
      RenameMovesEach(p, a, b, NewName(b, a, d));
    } else {
      if Within(a, x) {
        NewNameIsWithin(a, b, x);
        HoldersAreNested(d, b, y);
      }
      assert d in p.fs;
      if Within(a, d) {
        UnderTransitive(a, d, if Within(a, x) then b else x);
      }
      RenameMovesEach(p, a, b, d);
    }
  }

  lemma RenameKeepsValid(p: Pool, a: string, b: string)
    requires p.Valid() && Addable(p, b) && !Within(a, b) && MoveFits(p, a, b)
    ensures Renamed(p, a, b).Valid()
  {
    var q := Renamed(p, a, b);
    forall y | y in q.fs
      ensures |y| < MAX_DATASET_LEN
      ensures forall d {:trigger Under(d, y)} :: Under(d, y) ==> d in q.fs
      ensures q.fs[y].origin.Some? ==> q.fs[y].origin.value in q.snaps
    {
      var x :| x in p.fs && NewName(a, b, x) == y;
      RenameMovesEach(p, a, b, x);
      forall d | Under(d, y) ensures d in q.fs {
        RenameKeepsAncestors(p, a, b, x, d);
      }
    }
    forall s | s in p.snaps ensures NewSnap(a, b, s).ds in q.fs {
      RenameMovesEach(p, a, b, s.ds);
    }
    forall x | x in p.mounted ensures NewName(a, b, x) in q.fs {
      RenameMovesEach(p, a, b, x);
    }
  }

  lemma NameReturns(p: Pool, a: string, b: string, x: string)
    requires p.Valid() && b !in p.fs && x in p.fs
    ensures NewName(b, a, NewName(a, b, x)) == x
  {
    if Within(a, x) {
      NewNameIsWithin(a, b, x);
    } else {
      FreeName(p, b, x);
    }
  }

  lemma SnapReturns(p: Pool, a: string, b: string, s: Snap)
    requires p.Valid() && b !in p.fs && s in p.snaps
    ensures NewSnap(b, a, NewSnap(a, b, s)) == s
  {
    NameReturns(p, a, b, s.ds);
  }

  lemma OriginReturns(p: Pool, a: string, b: string, x: string)
    requires p.Valid() && b !in p.fs && x in p.fs
    ensures NewDataset(b, a, NewDataset(a, b, p.fs[x])) == p.fs[x]
  {
    if p.fs[x].origin.Some? {
      SnapReturns(p, a, b, p.fs[x].origin.value);
    }
  }

  lemma DatasetReturns(p: Pool, a: string, b: string, x: string)
    requires p.Valid() && b !in p.fs && x in p.fs
    ensures var r := Renamed(Renamed(p, a, b), b, a); x in r.fs && r.fs[x] == p.fs[x]
  {
    RenameMovesEach(p, a, b, x);
    NameReturns(p, a, b, x);
    OriginReturns(p, a, b, x);
    RenamedAt(Renamed(p, a, b), b, a, NewName(a, b, x));
  }

  lemma OnlyOldReturn(p: Pool, a: string, b: string, x: string)
    requires p.Valid() && b !in p.fs && x in Renamed(Renamed(p, a, b), b, a).fs
    ensures x in p.fs
  {
    var q := Renamed(p, a, b);
    var y :| y in q.fs && NewName(b, a, y) == x;
    var w :| w in p.fs && NewName(a, b, w) == y;
    NameReturns(p, a, b, w);
  }

  lemma SnapsReturn(p: Pool, a: string, b: string)
    requires p.Valid() && b !in p.fs
    ensures Renamed(Renamed(p, a, b), b, a).snaps == p.snaps
  {
    forall s | s in p.snaps ensures NewSnap(b, a, NewSnap(a, b, s)) == s {
      SnapReturns(p, a, b, s);
    }
    var snaps := set s | s in p.snaps :: NewSnap(a, b, s);
    assert p.snaps == set t | t in snaps :: NewSnap(b, a, t);
  }

  lemma MountsReturn(p: Pool, a: string, b: string)
    requires p.Valid() && b !in p.fs
    ensures Renamed(Renamed(p, a, b), b, a).mounted == p.mounted
  {
    forall x | x in p.mounted ensures NewName(b, a, NewName(a, b, x)) == x {
      NameReturns(p, a, b, x);
    }
    var mounted := set x | x in p.mounted :: NewName(a, b, x);
    assert p.mounted == set y | y in mounted :: NewName(b, a, y);
  }

  /** Renaming back restores the pool, filesystem by filesystem. */
  lemma RenameUndoes(p: Pool, a: string, b: string, x: string)
    requires p.Valid() && b !in p.fs
    ensures var r := Renamed(Renamed(p, a, b), b, a);
            && (x in r.fs <==> x in p.fs) && (x in p.fs ==> r.fs[x] == p.fs[x])
            && r.snaps == p.snaps && r.mounted == p.mounted
  {
    if x in p.fs {
      DatasetReturns(p, a, b, x);
    } else if x in Renamed(Renamed(p, a, b), b, a).fs {
      OnlyOldReturn(p, a, b, x);
    }
    SnapsReturn(p, a, b);
    MountsReturn(p, a, b);
  }

  // ---------------------------------------------------------------- what a destroy asks and leaves

  lemma WithoutIsValid(p: Pool, d: string)
    requires p.Valid() && p.Bare(d)
    ensures p.Without(d).Valid()
  {
  }

  lemma WithoutSnapIsValid(p: Pool, s: Snap)
    requires p.Valid() && !p.HasClones(s)
    ensures p.WithoutSnap(s).Valid()
  {
    var q := p.WithoutSnap(s);
    forall x | x in q.fs && q.fs[x].origin.Some? ensures q.fs[x].origin.value in q.snaps {
      assert p.fs[x].origin == Some(p.fs[x].origin.value);
    }
  }

  /** The snapshots `zfs_snapshot` takes. */
  function Taken(p: Pool, d: string, tag: string, recursive: bool): set<Snap> {
    set x | x in p.fs && (x == d || (recursive && Under(d, x))) :: Snap(x, tag)
  }

  function WithTaken(p: Pool, d: string, tag: string, recursive: bool): Pool {
    p.(snaps := p.snaps + Taken(p, d, tag, recursive))
  }

  /** The same filesystems, mounted as before, apart from what they were cloned from. */
  ghost predicate SameButOrigins(before: Pool, after: Pool) {
    && after.mounted == before.mounted && after.fs.Keys == before.fs.Keys
    && forall x :: x in after.fs ==> after.fs[x] == before.fs[x].(origin := after.fs[x].origin)
  }

  /** Where an origin stands after snapshots have moved to `d`. */
  function MovedTo(d: string, moved: set<Snap>, origin: Option<Snap>): Option<Snap> {
    if origin.Some? && origin.value in moved then Some(Snap(d, origin.value.tag)) else origin
  }

  /** The origin of `x` after `d`, a clone of `s`, was promoted: `d` takes over the origin of the filesystem it was
      cloned from, which becomes a clone of `d` in turn. */
  function PromotedOrigin(p: Pool, d: string, s: Snap, moved: set<Snap>, x: string): Option<Snap>
    requires x in p.fs && s.ds in p.fs
  {
    if x == d then MovedTo(d, moved, p.fs[s.ds].origin)
    else if x == s.ds then Some(Snap(d, s.tag))
    else MovedTo(d, moved, p.fs[x].origin)
  }

  function Promotion(p: Pool, d: string, s: Snap, moved: set<Snap>): Pool
    requires s.ds in p.fs
  {
    Pool(map x | x in p.fs :: p.fs[x].(origin := PromotedOrigin(p, d, s, moved, x)),
         p.snaps - moved + set t | t in moved :: Snap(d, t.tag), p.mounted)
  }

  /** What moves in a promotion: the origin, and with it older snapshots of the same filesystem. */
  predicate MayMoveTo(p: Pool, d: string, s: Snap, moved: set<Snap>) {
    && s in moved && moved <= p.snaps && s.ds != d
    && forall t :: t in moved ==> t.ds == s.ds && Snap(d, t.tag) !in p.snaps
  }

  /** What a promotion asks of the pool: `d` is a clone, and has no snapshot with the tag of one that may move. */
  predicate CanPromote(p: Pool, d: string) {
    && d in p.fs && p.fs[d].origin.Some? && p.fs[d].origin.value.ds != d
    && forall t :: t in p.snaps && t.ds == p.fs[d].origin.value.ds ==> Snap(d, t.tag) !in p.snaps
  }

  lemma PromotionIsValid(p: Pool, d: string, s: Snap, moved: set<Snap>)
    requires p.Valid() && d in p.fs && p.fs[d].origin == Some(s) && MayMoveTo(p, d, s, moved)
    ensures Promotion(p, d, s, moved).Valid() && SameButOrigins(p, Promotion(p, d, s, moved))
  {
    var q := Promotion(p, d, s, moved);
    forall x | x in q.fs && q.fs[x].origin.Some? ensures q.fs[x].origin.value in q.snaps {
      assert p.fs[x].origin.Some? ==> p.fs[x].origin.value in p.snaps;
      assert p.fs[s.ds].origin.Some? ==> p.fs[s.ds].origin.value in p.snaps;
    }
  }

  // ---------------------------------------------------------------- the pool as an object

  class Zfs {
    var pool: Pool
    /** The pool property `bootfs`, and the dataset mounted at "/". */
    var bootfs: string
    var running: string
    /** When set, a primitive fails only for a reason found in the pool. */
    const reliable: bool
    /** When set, the hooks of a plugin succeed. */
    const hooks: bool
    /** The datasets that `zfs_promote` has succeeded on. */
    ghost var promoted: set<string>

    constructor (pool: Pool, bootfs: string, running: string, reliable: bool, hooks: bool)
      ensures this.pool == pool && this.bootfs == bootfs && this.running == running
      ensures this.reliable == reliable && this.hooks == hooks && promoted == {}
    {
      this.pool, this.bootfs, this.running, this.reliable, this.hooks := pool, bootfs, running, reliable, hooks;
      promoted := {};
    }

    /** A hook of the plugin, or its opening. */
    method Hook() returns (ok: bool)
      ensures hooks ==> ok
    {
      ok := *;
      ok := ok || hooks;
    }

    /** Whether a call goes through. */
    method Allowed() returns (ok: bool)
      ensures reliable ==> ok
    {
      ok := *;
      ok := ok || reliable;
    }

    /** `zfs_destroy` of a filesystem: one that is mounted is busy. */
    method Destroy(d: string) returns (ok: bool)
      requires pool.Valid()
      modifies this`pool
      ensures pool.Valid()
      ensures ok ==> d in old(pool.fs) && d !in old(pool.mounted) && old(pool).Bare(d) && pool == old(pool).Without(d)
      ensures !ok ==> pool == old(pool)
      ensures reliable && d in old(pool.fs) && d !in old(pool.mounted) && old(pool).Bare(d) ==> ok
    {
      ok := Allowed();
      ok := ok && d in pool.fs && d !in pool.mounted && pool.Bare(d);
      if ok {
        WithoutIsValid(pool, d);
        pool := pool.Without(d);
      }
    }

    /** `zfs_destroy` of a snapshot */
    method DestroySnap(s: Snap) returns (ok: bool)
      requires pool.Valid()
      modifies this`pool
      ensures pool.Valid()
      ensures ok ==> s in old(pool.snaps) && !old(pool).HasClones(s) && pool == old(pool).WithoutSnap(s)
      ensures !ok ==> pool == old(pool)
      ensures reliable && s in old(pool.snaps) && !old(pool).HasClones(s) ==> ok
    {
      ok := Allowed();
      ok := ok && s in pool.snaps && !pool.HasClones(s);
      if ok {
        WithoutSnapIsValid(pool, s);
        pool := pool.WithoutSnap(s);
      }
    }

    /** `zfs_rename`, without unmounting and without creating parents */
    method Rename(a: string, b: string) returns (ok: bool)
      requires pool.Valid()
      modifies this`pool
      ensures pool.Valid()
      ensures ok ==> CanMove(old(pool), a, b) && pool == Renamed(old(pool), a, b)
      ensures !ok ==> pool == old(pool)
      ensures reliable && CanMove(old(pool), a, b) ==> ok
    {
      ok := Allowed();
      if ok && a in pool.fs && !Within(a, b) && AddableNow(b) && MoveFits(pool, a, b) {
        RenameKeepsValid(pool, a, b);
        pool := Renamed(pool, a, b);
      } else {
        ok := false;
      }
    }

    predicate AddableNow(b: string)
      requires pool.Valid()
      reads this
      ensures AddableNow(b) <==> Addable(pool, b)
    {
      AncestorsByIndex(pool, b);
      && b !in pool.fs && |b| < MAX_DATASET_LEN && LegalName(b)
      && forall i :: 0 <= i < |b| && b[i] == '/' ==> b[..i] in pool.fs
    }

    /** `zfs_clone`: the clone takes on the properties it is given. */
    method Clone(s: Snap, b: string, props: map<string, string>) returns (ok: bool)
      requires pool.Valid()
      modifies this`pool
      ensures pool.Valid()
      ensures ok ==> && CanClone(old(pool), s, b) && b in pool.fs
                     && pool.fs[b].origin == Some(s)
                     && (forall n :: n in props ==> n in pool.fs[b].props && pool.fs[b].props[n] == Prop(props[n], Local))
                     && pool == old(pool).(fs := old(pool.fs)[b := pool.fs[b]])
      ensures !ok ==> pool == old(pool)
      ensures reliable && CanClone(old(pool), s, b) ==> ok
    {
      ok := Allowed();
      if ok && s in pool.snaps && AddableNow(b) {
        var mountpoint: string := *;
        var ds := Dataset(Some(s), mountpoint, map n | n in props :: Prop(props[n], Local));
        AddedIsValid(pool, b, ds);
        pool := pool.(fs := pool.fs[b := ds]);
      } else {
        ok := false;
      }
    }

    /** `zfs_snapshot` */
    method Snapshot(d: string, tag: string, recursive: bool) returns (ok: bool)
      requires pool.Valid()
      modifies this`pool
      ensures pool.Valid()
      ensures ok ==> && CanTake(old(pool), d, tag, recursive)
                     && pool == old(pool).(snaps := old(pool.snaps) + Taken(old(pool), d, tag, recursive))
      ensures !ok ==> pool == old(pool)
      ensures reliable && CanTake(old(pool), d, tag, recursive) ==> ok
    {
      ok := Allowed();
      ok := ok && CanTake(pool, d, tag, recursive);
      if ok {
        pool := pool.(snaps := pool.snaps + Taken(pool, d, tag, recursive));
      }
    }

    /** `zfs_promote`; which older snapshots move with the origin is left open. */
    method Promote(d: string) returns (ok: bool)
      requires pool.Valid()
      modifies this`pool, this`promoted
      ensures pool.Valid() && SameButOrigins(old(pool), pool)
      ensures ok ==> && d in old(pool.fs) && old(pool.fs[d].origin.Some?)
                     && exists moved :: MayMoveTo(old(pool), d, old(pool.fs[d].origin.value), moved)
                                        && pool == Promotion(old(pool), d, old(pool.fs[d].origin.value), moved)
      ensures promoted == old(promoted) + if ok then {d} else {}
      ensures !ok ==> pool == old(pool)
      ensures reliable && CanPromote(old(pool), d) ==> ok
    {
      ok := *;
      var more: set<Snap> := *;
      if d !in pool.fs || pool.fs[d].origin.None? || pool.fs[d].origin.value.ds == d {
        return false;
      }
      var s := pool.fs[d].origin.value;
      var moved := set t | t in pool.snaps && t.ds == s.ds && (t == s || t in more);
      ok := (ok || reliable) && forall t :: t in moved ==> Snap(d, t.tag) !in pool.snaps;
      if ok {
        PromotionIsValid(pool, d, s, moved);
        pool := Promotion(pool, d, s, moved);
        promoted := promoted + {d};
      }
    }

    /** `zfs_mount`, and the temporary mount of `libze_util_temporary_mount` */
    method Mount(d: string) returns (ok: bool)
      requires pool.Valid()
      modifies this`pool
      ensures pool.Valid()
      ensures ok ==> d in old(pool.fs) && pool == old(pool).(mounted := old(pool.mounted) + {d})
      ensures !ok ==> pool == old(pool)
      ensures reliable && d in old(pool.fs) ==> ok
    {
      ok := Allowed();
      ok := ok && d in pool.fs;
      if ok {
        pool := pool.(mounted := pool.mounted + {d});
      }
    }

    /** `zfs_unmount`: what is mounted below keeps a filesystem busy. */
    method Unmount(d: string) returns (ok: bool)
      requires pool.Valid()
      modifies this`pool
      ensures pool.Valid()
      ensures ok ==> pool == old(pool).(mounted := old(pool.mounted) - {d})
      ensures ok ==> forall x :: x in old(pool.mounted) ==> !Under(d, x)
      ensures !ok ==> pool == old(pool)
      ensures reliable && (forall x :: x in old(pool.mounted) ==> !Under(d, x)) ==> ok
    {
      ok := Allowed();
      ok := ok && forall x :: x in pool.mounted ==> !Under(d, x);
      if ok {
        pool := pool.(mounted := pool.mounted - {d});
      }
    }

    /** `zfs_prop_set` of the mountpoint */
    method SetMountpoint(d: string, mountpoint: string) returns (ok: bool)
      requires pool.Valid() && d in pool.fs
      modifies this`pool
      ensures pool.Valid()
      ensures pool == if ok then old(pool).(fs := old(pool.fs)[d := old(pool.fs[d]).(mountpoint := mountpoint)])
                      else old(pool)
      ensures reliable ==> ok
    {
      ok := Allowed();
      if ok {
        pool := pool.(fs := pool.fs[d := pool.fs[d].(mountpoint := mountpoint)]);
      }
    }

    /** `zfs_prop_set` of `canmount` to "noauto" */
    method SetNoauto(d: string) returns (ok: bool)
      requires pool.Valid() && d in pool.fs
      modifies this`pool
      ensures pool.Valid()
      ensures pool == if ok then old(pool).(fs := old(pool.fs)[d := Noauto(old(pool.fs[d]))]) else old(pool)
      ensures reliable ==> ok
    {
      ok := Allowed();
      if ok {
        pool := pool.(fs := pool.fs[d := Noauto(pool.fs[d])]);
      }
    }

    /** `zpool_set_prop` of `bootfs` */
    method SetBootfs(d: string) returns (ok: bool)
      modifies this`bootfs
      ensures bootfs == if ok then d else old(bootfs)
      ensures reliable ==> ok
    {
      ok := Allowed();
      if ok {
        bootfs := d;
      }
    }
  }

  function Noauto(ds: Dataset): Dataset { ds.(props := ds.props["canmount" := Prop("noauto", Local)]) }
}
