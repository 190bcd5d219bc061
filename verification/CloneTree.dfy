/** Cloning a boot environment: what the recursive walk records, and the clones made from it. */
module CloneTree {
  import opened CString
  import opened Names
  import opened Pools
  import opened DestroyTree

  /** A native property as `zprop_iter` shows it. */
  datatype Native = Native(name: string, readonly: bool)

  type Settings = map<string, string>

  datatype Recorded = Recorded(name: string, settings: Settings)

  /** Set on the dataset itself, and not inherited or a default. */
  predicate OwnSetting(ds: Dataset, n: string) {
    n in ds.props && ds.props[n].source != Other
  }

  /** Whether a clone is given the property `n`, and its value. */
  predicate Given(known: seq<Native>, ds: Dataset, n: string) {
    Native(n, false) in known && (n == "canmount" || OwnSetting(ds, n))
  }

  function GivenValue(ds: Dataset, n: string): string
    requires n == "canmount" || OwnSetting(ds, n)
  {
    if n == "canmount" then "noauto" else ds.props[n].value
  }

  ghost predicate IsSettings(known: seq<Native>, ds: Dataset, s: Settings) {
    forall n :: (n in s <==> Given(known, ds, n)) && (n in s ==> s[n] == GivenValue(ds, n))
  }

  /** `clone_prop_cb` over all native properties */
  method SettingsFor(known: seq<Native>, ds: Dataset) returns (s: Settings)
    ensures IsSettings(known, ds, s)
  {
    s := map[];
    for i := 0 to |known|
      invariant IsSettings(known[..i], ds, s)
    {
      var p := known[i];
      assert known[..i + 1] == known[..i] + [p];
      if !p.readonly && (p.name == "canmount" || OwnSetting(ds, p.name)) {
        s := s[p.name := GivenValue(ds, p.name)];
      }
    }
    assert known[..|known|] == known;
  }

  function NamesOf(list: seq<Recorded>): (r: seq<string>)
    ensures |r| == |list| && forall i :: 0 <= i < |r| ==> r[i] == list[i].name
  {
    seq(|list|, i requires 0 <= i < |list| => list[i].name)
  }

  ghost predicate Distinct(s: seq<string>) { forall i, j :: 0 <= i < j < |s| ==> s[i] != s[j] }

  predicate Precedes(a: string, s: seq<string>, j: nat)
    requires j <= |s|
  {
    a in s[..j]
  }

  /** Whatever a name of the walk from `d` stands within comes before it. */
  ghost predicate ParentsFirst(d: string, s: seq<string>) {
    forall a, j {:trigger Under(a, s[j])} :: 0 <= j < |s| && Within(d, a) && Under(a, s[j]) ==> Precedes(a, s, j)
  }

  /** The subtree of `d`, each filesystem once, parents first. */
  ghost predicate Walk(p: Pool, d: string, s: seq<string>) {
    (forall x :: x in s <==> x in p.fs && Within(d, x)) && Distinct(s) && ParentsFirst(d, s)
  }

  /** `x` is walked once the children in `todo` are all that is left. */
  predicate Walked(p: Pool, d: string, todo: set<string>, x: string) {
    x in p.fs && (x == d || (Under(d, x) && BranchOf(d, x) !in todo))
  }

  /** The walk without what lies within the children in `todo`. */
  ghost predicate WalkSoFar(p: Pool, d: string, s: seq<string>, todo: set<string>) {
    && (forall c :: c in todo ==> c in p.fs && ChildOf(d, c))
    && (forall x :: x in s <==> Walked(p, d, todo, x))
    && Distinct(s) && ParentsFirst(d, s) && d in s
  }

  ghost predicate AllSettings(known: seq<Native>, p: Pool, list: seq<Recorded>) {
    forall i :: 0 <= i < |list| ==> list[i].name in p.fs && IsSettings(known, p.fs[list[i].name], list[i].settings)
  }

  lemma WalkStep(p: Pool, d: string, s: seq<string>, todo: set<string>, c: string, t: seq<string>)
    requires WalkSoFar(p, d, s, todo) && c in todo && Walk(p, c, t)
    ensures WalkSoFar(p, d, s + t, todo - {c})
  {
    forall x | x in t ensures Under(d, x) && BranchOf(d, x) == c {
      BranchIsUnique(d, c, x);
    }
    forall x ensures x in s + t <==> Walked(p, d, todo - {c}, x) {
      WalkedStep(p, d, todo, c, x);
    }
    DistinctAppend(s, t);
    ParentsAppend(d, c, s, t);
  }

  lemma WalkedStep(p: Pool, d: string, todo: set<string>, c: string, x: string)
    requires c in todo && ChildOf(d, c)
    ensures Walked(p, d, todo - {c}, x) <==> Walked(p, d, todo, x) || (x in p.fs && Within(c, x))
  {
    if Within(c, x) {
      BranchIsUnique(d, c, x);
    }
  }

  lemma DistinctAppend(s: seq<string>, t: seq<string>)
    requires Distinct(s) && Distinct(t) && forall x :: x in t ==> x !in s
    ensures Distinct(s + t)
  {
    forall i, j | 0 <= i < j < |s + t| ensures (s + t)[i] != (s + t)[j] {
      if i < |s| <= j {
        assert t[j - |s|] in t;
      }
    }
  }

  lemma ParentsAppend(d: string, c: string, s: seq<string>, t: seq<string>)
    requires ParentsFirst(d, s) && ParentsFirst(c, t) && d in s && ChildOf(d, c)
    requires forall x :: x in t ==> Within(c, x)
    ensures ParentsFirst(d, s + t)
  {
    forall a, j | 0 <= j < |s + t| && Within(d, a) && Under(a, (s + t)[j]) ensures Precedes(a, s + t, j) {
      if j < |s| {
        assert (s + t)[..j] == s[..j];
        assert Precedes(a, s, j);
      } else {
        var x := t[j - |s|];
        assert x in t && (s + t)[..j] == s + t[..j - |s|];
        if a != d {
          AncestorInBranch(d, c, a, x);
          assert Precedes(a, t, j - |s|);
        }
      }
    }
  }

  lemma WalkBegins(p: Pool, d: string)
    requires p.Valid() && d in p.fs
    ensures WalkSoFar(p, d, [d], Children(p, d))
  {
    ChildrenHold(p, d);
    forall x ensures x in [d] <==> Walked(p, d, Children(p, d), x) {
      assert x in p.fs && Under(d, x) ==> BranchOf(d, x) in Children(p, d);
    }
    NothingBefore(d);
  }

  lemma NothingBefore(d: string)
    ensures ParentsFirst(d, [d])
  {
    assert forall a {:trigger Under(a, d)} :: Within(d, a) ==> !Under(a, d);
  }

  lemma Appended(known: seq<Native>, p: Pool, a: seq<Recorded>, b: seq<Recorded>)
    requires AllSettings(known, p, a) && AllSettings(known, p, b)
    ensures AllSettings(known, p, a + b) && NamesOf(a + b) == NamesOf(a) + NamesOf(b)
  {
  }

  /** `libze_clone_cb`; `sure` says that iterating over properties and children does not fail. */
  method Collect(p: Pool, known: seq<Native>, d: string, recursive: bool, sure: bool)
    returns (ok: bool, list: seq<Recorded>)
    requires p.Valid() && d in p.fs
    ensures sure ==> ok
    ensures |list| > 0 && list[0].name == d && AllSettings(known, p, list)
    ensures ok ==> if recursive then Walk(p, d, NamesOf(list)) else |list| == 1
    decreases MAX_DATASET_LEN - |d|
  {
    var settings := SettingsFor(known, p.fs[d]);
    list := [Recorded(d, settings)];
    ok := *;
    ok := ok || sure;
    if ok && recursive {
      WalkBegins(p, d);
      assert NamesOf(list) == [d];
      ok, list := CollectEach(p, known, d, list, Children(p, d), sure);
    }
  }

  method CollectEach(p: Pool, known: seq<Native>, d: string, sofar: seq<Recorded>, todo: set<string>,
                     sure: bool)
    returns (ok: bool, list: seq<Recorded>)
    requires p.Valid() && d in p.fs && WalkSoFar(p, d, NamesOf(sofar), todo) && AllSettings(known, p, sofar)
    requires |sofar| > 0 && sofar[0].name == d
    ensures sure ==> ok
    ensures |list| > 0 && list[0].name == d && AllSettings(known, p, list)
    ensures ok ==> Walk(p, d, NamesOf(list))
    decreases MAX_DATASET_LEN - |d|, 0, todo
  {
    list := sofar;
    if todo == {} {
      return true, list;
    }
    var c :| c in todo;
    var more;
    ok, more := Collect(p, known, c, true, sure);
    Appended(known, p, sofar, more);
    list := sofar + more;
    if ok {
      WalkStep(p, d, NamesOf(sofar), todo, c, NamesOf(more));
      ok, list := CollectEach(p, known, d, list, todo - {c}, sure);
    }
  }

  // ---------------------------------------------------------------- the clones

  /** What `libze_util_suffix_after_string` makes of a name of the walk. */
  function Suffix(source: string, name: string): string {
    if |source| + 1 <= |name| then name[|source| + 1..] else ""
  }

  /** The name `libze_clone` asks for: prefix, separator and suffix are handed over out of order. */
  function CloneName(be: string, suffix: string): string {
    if suffix == "" then be else be + suffix + "/"
  }

  /** Only `be` was added, as a clone of the snapshot of `source`. */
  ghost predicate ClonedOne(before: Pool, after: Pool, known: seq<Native>, source: string, tag: string, be: string) {
    && source in before.fs && Snap(source, tag) in before.snaps && be !in before.fs && be in after.fs && LegalName(be)
    && after == before.(fs := before.fs[be := after.fs[be]])
    && after.fs[be].origin == Some(Snap(source, tag))
    && forall n :: Given(known, before.fs[source], n) ==>
         n in after.fs[be].props && after.fs[be].props[n] == Prop(GivenValue(before.fs[source], n), Local)
  }

  /** `libze_clone`: with children to clone, it can only fail. */
  method CloneAll(z: Zfs, known: seq<Native>, source: string, tag: string, be: string, recursive: bool) returns (ok: bool)
    requires z.pool.Valid()
    modifies z`pool
    ensures z.pool.Valid()
    ensures z.pool == old(z.pool) || ClonedOne(old(z.pool), z.pool, known, source, tag, be)
    ensures ok ==> ClonedOne(old(z.pool), z.pool, known, source, tag, be)
    ensures ok && recursive ==> forall x :: x in old(z.pool.fs) ==> !Under(source, x)
    ensures z.reliable && Cloneable(old(z.pool), source, tag, be, recursive) ==> ok
  {
    ghost var before := z.pool;
    ok := z.Allowed();
    if !ok || source !in z.pool.fs {
      return false;                    // zfs_open
    }
    var list;
    ok, list := Collect(z.pool, known, source, recursive, z.reliable);
    if !ok {
      return false;
    }
    if recursive && forall x :: x in before.fs ==> !Under(source, x) {
      NoneBelow(before, source, NamesOf(list));
    }
    var i := 0;
    while i < |list|
      invariant i <= |list| && z.pool.Valid()
      invariant i == 0 ==> z.pool == before
      invariant i > 0 ==> i == 1 && ClonedOne(before, z.pool, known, source, tag, be)
      invariant recursive && (forall x :: x in before.fs ==> !Under(source, x)) ==> |list| == 1
    {
      if i > 0 {
        LaterIsBelow(before, source, NamesOf(list), i);
      }
      ok := CloneOne(z, known, source, tag, be, list[i]);
      if !ok {
        return false;
      }
      i := i + 1;
    }
    if recursive {
      OnlyItself(before, source, NamesOf(list));
    }
    ok := true;
  }

  /** What a clone of an environment asks of the pool. */
  ghost predicate Cloneable(p: Pool, source: string, tag: string, be: string, recursive: bool) {
    && source in p.fs && |source| + 1 + |tag| < MAX_DATASET_LEN && CanClone(p, Snap(source, tag), be)
    && (recursive ==> forall x :: x in p.fs ==> !Under(source, x))
  }

  lemma NoneBelow(p: Pool, d: string, s: seq<string>)
    requires Walk(p, d, s) && s != [] && s[0] == d && forall x :: x in p.fs ==> !Under(d, x)
    ensures |s| == 1
  {
    if |s| > 1 {
      BothAre(d, s, 0, 1);
    }
  }

  lemma BothAre(d: string, s: seq<string>, i: int, j: int)
    requires 0 <= i < j < |s| && forall x :: x in s ==> x == d
    ensures s[i] == s[j]
  {
    assert s[i] in s && s[j] in s;
  }

  /** One turn of the loop in `libze_clone`. */
  method CloneOne(z: Zfs, ghost known: seq<Native>, source: string, tag: string, be: string, r: Recorded) returns (ok: bool)
    requires z.pool.Valid() && (r.name == source || (|source| < |r.name| && be in z.pool.fs))
    requires r.name in z.pool.fs && IsSettings(known, z.pool.fs[r.name], r.settings)
    modifies z`pool
    ensures z.pool.Valid()
    ensures !ok ==> z.pool == old(z.pool)
    ensures ok ==> r.name == source && ClonedOne(old(z.pool), z.pool, known, source, tag, be)
    ensures z.reliable && r.name == source && Cloneable(old(z.pool), source, tag, be, false) ==> ok
  {
    var target := CloneName(be, Suffix(source, r.name));
    if |target| >= MAX_DATASET_LEN || |r.name| + 1 + |tag| >= MAX_DATASET_LEN {
      return false;
    }
    assert r.name != source ==> target == be || target[|target| - 1] == '/';
    ok := z.Allowed();                 // zfs_open of the snapshot
    if ok {
      ok := z.Clone(Snap(r.name, tag), target, r.settings);
    }
  }

  lemma LaterIsBelow(p: Pool, d: string, s: seq<string>, i: nat)
    requires Walk(p, d, s) && 0 < i < |s| && s[0] == d
    ensures s[i] in p.fs && |d| + 1 <= |s[i]|
  {
    assert s[i] in s && s[i] != d;
  }

  lemma OnlyItself(p: Pool, d: string, s: seq<string>)
    requires Walk(p, d, s) && s == [d]
    ensures forall x :: x in p.fs ==> !Under(d, x)
  {
  }
}
