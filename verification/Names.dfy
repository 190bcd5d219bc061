/** Dataset names: a descendant is its ancestor's name, a slash and more. The string helpers that take names apart. */
module Names {
  import opened CString

  /** `strrchr`: the index of the last `c`. */
  function LastAt(s: string, c: char): (r: Option<nat>)
    ensures r.Some? ==> r.value < |s| && s[r.value] == c && c !in s[r.value + 1..]
    ensures r.None? ==> c !in s
  {
    if s == "" then None
    else
      var rest := LastAt(s[1..], c);
      if rest.Some? then (assert s[1..][rest.value + 1..] == s[rest.value + 2..]; Some(rest.value + 1))
      else if s[0] == c then Some(0)
      else None
  }

  lemma NotAfter(s: string, c: char, from: int, k: int)
    requires 0 <= from <= k < |s| && c !in s[from..]
    ensures s[k] != c
  {
    assert s[from..][k - from] == s[k];
  }

  lemma LastAtIs(s: string, c: char, i: nat)
    requires i < |s| && s[i] == c && c !in s[i + 1..]
    ensures LastAt(s, c) == Some(i)
  {
    var r := LastAt(s, c).value;
    if i < r {
      NotAfter(s, c, i + 1, r);
    } else if r < i {
      NotAfter(s, c, r + 1, i);
    }
  }

  /** What `libze_util_cut` and `libze_boot_env_name` leave of a path that fits. */
  function Cut(path: string): Option<string> {
    var i := LastAt(path, '/');
    if i.Some? then Some(path[..i.value]) else None
  }

  function BeName(path: string): Option<string> {
    var i := LastAt(path, '/');
    if i.Some? then Some(path[i.value + 1..]) else None
  }

  function Join(root: string, be: string): string { root + "/" + be }

  // ---------------------------------------------------------------- names that ZFS takes

  predicate LegalChar(c: char) { 'a' <= c <= 'z' || 'A' <= c <= 'Z' || '0' <= c <= '9' || c in "-_.: " }

  /** A component of a dataset's name, or the tag of a snapshot. */
  predicate LegalPart(s: string) {
    s != "" && s != "." && s != ".." && forall i :: 0 <= i < |s| ==> LegalChar(s[i])
  }

  predicate LegalName(s: string)
    decreases |s|
  {
    match LastAt(s, '/')
    case None => LegalPart(s)
    case Some(i) => LegalName(s[..i]) && LegalPart(s[i + 1..])
  }

  /** `x` is strictly below `d`. */
  predicate Under(d: string, x: string) { |d| < |x| && x[..|d|] == d && x[|d|] == '/' }

  predicate Within(d: string, x: string) { x == d || Under(d, x) }

  predicate ChildOf(d: string, x: string) { Under(d, x) && '/' !in x[|d| + 1..] }

  /** Cutting a path and taking its name loses nothing but the slash, and no other pair has a slash-free name. */
  lemma CutAndNameRejoin(path: string, root: string, be: string)
    ensures Cut(path) == Some(root) && BeName(path) == Some(be) <==> path == Join(root, be) && '/' !in be
  {
    if path == Join(root, be) && '/' !in be {
      assert path[|root| + 1..] == be;
      LastAtIs(path, '/', |root|);
      assert path[..|root|] == root;
    }
    if Cut(path) == Some(root) && BeName(path) == Some(be) {
      var i := LastAt(path, '/').value;
      assert path == path[..i] + [path[i]] + path[i + 1..];
    }
  }

  lemma LegalCut(root: string, be: string)
    requires '/' !in be
    ensures LegalName(Join(root, be)) <==> LegalName(root) && LegalPart(be)
  {
    CutAndNameRejoin(Join(root, be), root, be);
  }

  /** A joined name is legal exactly if both halves are. */
  lemma {:induction false} LegalJoin(root: string, be: string)
    ensures LegalName(Join(root, be)) <==> LegalName(root) && LegalName(be)
    decreases |be|
  {
    var r := LastAt(be, '/');
    if r.Some? {
      var x, y := be[..r.value], be[r.value + 1..];
      assert be == Join(x, y) && Join(root, be) == Join(Join(root, x), y);
      LegalCut(x, y);
      LegalCut(Join(root, x), y);
      LegalJoin(root, x);
    } else {
      LegalCut(root, be);
    }
  }

  /** A name given under the root is a direct child exactly when it has no slash. */
  lemma JoinIsChild(root: string, be: string)
    ensures Under(root, Join(root, be)) && (ChildOf(root, Join(root, be)) <==> '/' !in be)
  {
    assert Join(root, be)[|root| + 1..] == be;
  }

  lemma ChildIsJoin(root: string, x: string)
    requires ChildOf(root, x)
    ensures x == Join(root, x[|root| + 1..]) && Cut(x) == Some(root) && BeName(x) == Some(x[|root| + 1..])
  {
    assert x == Join(root, x[|root| + 1..]);
    CutAndNameRejoin(x, root, x[|root| + 1..]);
  }

  lemma UnderTransitive(a: string, b: string, c: string)
    requires Within(a, b) && Within(b, c)
    ensures Within(a, c) && (Under(a, b) || Under(b, c) ==> Under(a, c))
  {
    if Under(a, b) && Under(b, c) {
      assert c[..|a|] == b[..|a|];
      assert c[|a|] == c[..|b|][|a|] == b[|a|];
    }
  }

  /** Two names that hold a third are themselves one within the other. */
  lemma HoldersAreNested(a: string, b: string, x: string)
    requires Within(a, x) && Within(b, x) && |a| <= |b|
    ensures Within(a, b)
  {
    assert b == x[..|b|] && a == x[..|a|];
    assert b[..|a|] == a;
    if |a| < |b| {
      assert b[|a|] == x[|a|];
    }
  }

  /** A direct child of the root stands within nothing that lies under the root, but itself. */
  lemma ChildWithinSelfOnly(root: string, d: string, x: string)
    requires ChildOf(root, x) && Under(root, d) && Within(d, x)
    ensures d == x
  {
    if Under(d, x) {
      NotAfter(x, '/', |root| + 1, |d|);
    }
  }

  /** Between `d` and something within its child `c` stands nothing but what is within `c`. */
  lemma AncestorInBranch(d: string, c: string, a: string, x: string)
    requires ChildOf(d, c) && Within(c, x) && Under(d, a) && Under(a, x)
    ensures Within(c, a)
  {
    if |a| < |c| {
      HoldersAreNested(a, c, x);
      ChildWithinSelfOnly(d, a, c);
    } else {
      HoldersAreNested(c, a, x);
    }
  }

  /** `libze_is_active_be` and `libze_is_root_be`: a name is compared with the name, a path with the path. */
  predicate SameBe(name: string, path: string, be: string) { if '/' !in be then be == name else be == path }

  /** For a slash-free name the test by name in `libze_rename` and the test by path in `libze_destroy` agree. */
  lemma ByNameIsByPath(root: string, path: string, be: string)
    requires ChildOf(root, path) && '/' !in be
    ensures SameBe(BeName(path).value, path, be) <==> SameBe(BeName(path).value, path, Join(root, be))
    ensures SameBe(BeName(path).value, path, be) <==> path == Join(root, be)
  {
    ChildIsJoin(root, path);
    assert Join(root, be)[|root|] == '/';
    CutAndNameRejoin(Join(root, be), root, be);
  }

  // ---------------------------------------------------------------- on buffers

  /** `strrchr` on a buffer */
  method StrRChr(buf: array<char>, ghost s: string, c: char) returns (r: Option<nat>)
    requires Holds(buf[..], s) && c != '\0'
    ensures r == LastAt(s, c)
  {
    assert forall k :: 0 <= k < |s| ==> buf[k] == s[k] != '\0';
    var i := 0;
    r := None;
    while buf[i] != '\0'
      invariant i <= |s|
      invariant r.Some? ==> r.value < i && s[r.value] == c && c !in s[r.value + 1..i]
      invariant r.None? ==> c !in s[..i]
      decreases |s| - i
    {
      if buf[i] == c {
        r := Some(i);
      }
      i := i + 1;
    }
    assert s[..i] == s;
    if r.Some? {
      assert s[r.value + 1..i] == s[r.value + 1..];
      LastAtIs(s, c, r.value);
    }
  }

  /** `libze_util_cut` */
  method CutInto(path: string, buf: array<char>, c: char) returns (ok: bool)
    requires IsCStr(path) && c != '\0'
    modifies buf
    ensures ok <==> |path| < buf.Length && c in path
    ensures ok ==> Holds(buf[..], path[..LastAt(path, c).value])
  {
    var n := StrLCpyInto(buf, path);
    if n >= buf.Length {
      return false;
    }
    var i := StrRChr(buf, path, c);
    ok := i.Some?;
    if ok {
      buf[i.value] := '\0';
    }
  }

  /** `libze_util_split` */
  method SplitInto(path: string, pre: array<char>, post: array<char>, c: char) returns (ok: bool)
    requires IsCStr(path) && c != '\0' && pre != post && pre.Length == post.Length
    modifies pre, post
    ensures ok <==> |path| < pre.Length && c in path
    ensures ok ==> var i := LastAt(path, c).value; Holds(pre[..], path[..i]) && Holds(post[..], path[i + 1..])
  {
    ok := CutInto(path, pre, c);
    if ok {
      var n := StrLCpyInto(post, path[LastAt(path, c).value + 1..]);
    }
  }

  /** `libze_boot_env_name` */
  method NameInto(path: string, buf: array<char>) returns (ok: bool)
    requires IsCStr(path)
    modifies buf
    ensures ok <==> |path| < buf.Length && BeName(path).Some?
    ensures ok ==> Holds(buf[..], BeName(path).value)
  {
    var n := StrLCpyInto(buf, path);
    if n >= buf.Length {
      return false;
    }
    var i := StrRChr(buf, path, '/');
    ok := i.Some?;
    if ok {
      var rest := buf[i.value + 1..|path|];
      assert rest == path[i.value + 1..];
      n := StrLCpyInto(buf, rest);
    }
  }

  /** `libze_util_suffix_after_string`: when the dataset is the root itself, what follows its NUL is read. */
  method SuffixInto(root: string, path: string, buf: array<char>) returns (ok: bool)
    requires IsCStr(root) && IsCStr(path)
    modifies buf
    ensures ok <==> |path| < buf.Length && |root| + 1 < buf.Length
    ensures ok && |root| < |path| ==> Holds(buf[..], path[|root| + 1..])
    ensures ok && |path| <= |root| ==> Holds(buf[..], CStrOf(old(buf[|root| + 1..])))
  {
    ghost var was := buf[..];
    var n := StrLCpyInto(buf, path);
    var loc := |root| + 1;
    if n >= buf.Length || loc >= buf.Length {
      return false;
    }
    var rest := CStrOf(buf[loc..]);
    if |root| < |path| {
      assert Holds(buf[loc..], path[loc..]);
      HoldsCStrOf(buf[loc..], path[loc..]);
    } else {
      assert buf[loc..] == was[loc..];
    }
    RestFits(buf[loc..]);
    n := StrLCpyInto(buf, rest);
    ok := true;
  }

  lemma {:induction false} RestFits(a: seq<char>)
    ensures |CStrOf(a)| <= |a| && IsCStr(CStrOf(a))
  {
    if a != [] && a[0] != '\0' {
      RestFits(a[1..]);
    }
  }
}
