/** NUL-terminated strings in fixed buffers, and the libc primitives the text engine uses on them. */
module CString {

  datatype Option<+T> = None | Some(value: T)

  /** The status values of `libze_error` that the text engine returns. */
  datatype Status =
    | Success
    | Unknown
    | NoMem
    | MaxPathLen
    | ConcatFailed     // the -1 of libze_util_concat, passed on as it is

  const MAX_PATH_LEN: nat := 255          // LIBZE_MAX_PATH_LEN
  const MAX_DATASET_LEN: nat := 256       // ZFS_MAX_DATASET_NAME_LEN
  const NAMESPACE := "org.zectl"          // ZE_PROP_NAMESPACE and SYSTEMDBOOT_ENTRY_PREFIX

  /** A C string: no NUL inside. */
  predicate IsCStr(s: string) { '\0' !in s }

  /** The buffer contents `a` hold the C string `s`: its characters, none of them NUL, and then a NUL. */
  predicate Holds(a: seq<char>, s: string) {
    && |s| < |a|
    && (forall i :: 0 <= i < |s| ==> a[i] == s[i] != '\0')
    && a[|s|] == '\0'
  }

  /** The C string a buffer starts with; the whole buffer when it has no NUL. */
  function CStrOf(a: seq<char>): string {
    if a == [] || a[0] == '\0' then "" else a[..1] + CStrOf(a[1..])
  }

  lemma {:induction false} HoldsCStrOf(a: seq<char>, s: string)
    requires Holds(a, s)
    ensures CStrOf(a) == s
    decreases |s|
  {
    if s != "" {
      assert Holds(a[1..], s[1..]);
      HoldsCStrOf(a[1..], s[1..]);
      assert a[..1] + s[1..] == s;
    }
  }

  /** The occurrence of `t` in `s` at index `i`. */
  predicate At(s: string, t: string, i: int) {
    0 <= i <= |s| - |t| && s[i..i + |t|] == t
  }

  lemma AtIndex(s: string, t: string, i: int, k: int)
    requires At(s, t, i) && 0 <= k < |t|
    ensures s[i + k] == t[k]
  {
    assert s[i..i + |t|][k] == s[i + k];
  }

  /** A part of a text found at `i`. */
  lemma AtSlice(s: string, t: string, i: int, a: int, b: int)
    requires At(s, t, i) && 0 <= a <= b <= |t|
    ensures s[i + a..i + b] == t[a..b]
  {
    var u := s[i + a..i + b];
    forall k | 0 <= k < b - a ensures u[k] == t[a..b][k] {
      AtIndex(s, t, i, a + k);
    }
  }

  /** `strstr` from index `from` on: the leftmost occurrence. */
  function StrStr(s: string, t: string, from: nat): (r: Option<nat>)
    ensures r.Some? ==> from <= r.value <= |s| - |t|
    decreases |s| - from
  {
    if from + |t| > |s| then None
    else if At(s, t, from) then Some(from)
    else StrStr(s, t, from + 1)
  }

  lemma {:induction false} StrStrIsLeftmost(s: string, t: string, from: nat)
    ensures var r := StrStr(s, t, from);
            && (r.Some? ==> At(s, t, r.value) && forall j :: from <= j < r.value ==> !At(s, t, j))
            && (r.None? ==> forall j :: from <= j ==> !At(s, t, j))
    decreases |s| - from
  {
    if from + |t| <= |s| && !At(s, t, from) {
      StrStrIsLeftmost(s, t, from + 1);
    }
  }

  /** What `strlcpy(buf, src, |buf|)` leaves in a buffer. */
  function StrLCpy(buf: seq<char>, src: string): (r: seq<char>)
    ensures |r| == |buf|
    ensures IsCStr(src) && |src| < |buf| ==> Holds(r, src)
  {
    if |buf| == 0 then buf
    else src[..CopyLen(src, |buf|)] + ['\0'] + buf[CopyLen(src, |buf|) + 1..]
  }

  /** `memcpy`/`strncpy` of `src` to offset `at`; every other byte stays. */
  method CopyTo(buf: array<char>, at: nat, src: string)
    requires at + |src| <= buf.Length
    modifies buf
    ensures buf[at..at + |src|] == src
    ensures forall i :: 0 <= i < at || at + |src| <= i < buf.Length ==> buf[i] == old(buf[i])
  {
    var i := 0;
    while i < |src|
      invariant 0 <= i <= |src|
      invariant forall k :: 0 <= k < i ==> buf[at + k] == src[k]
      invariant forall k :: 0 <= k < at || at + i <= k < buf.Length ==> buf[k] == old(buf[k])
    {
      buf[at + i] := src[i];
      i := i + 1;
    }
  }

  /** The number of bytes before the NUL that `strlcpy` copies into `size > 0` bytes. */
  function CopyLen(src: string, size: nat): nat
    requires size > 0
  {
    if |src| < size then |src| else size - 1
  }

  /** `strlcpy(buf + at, src, size)`: returns `|src|`, copies what fits in `size` bytes with its NUL. */
  method StrLCpyAt(buf: array<char>, at: nat, src: string, size: nat) returns (n: nat)
    requires at + size <= buf.Length
    modifies buf
    ensures n == |src|
    ensures size > 0 ==> buf[at..at + CopyLen(src, size)] == src[..CopyLen(src, size)] && buf[at + CopyLen(src, size)] == '\0'
    ensures forall i :: 0 <= i < at || at + (if size > 0 then CopyLen(src, size) + 1 else 0) <= i < buf.Length
                        ==> buf[i] == old(buf[i])
  {
    n := |src|;
    if size > 0 {
      CopyTo(buf, at, src[..CopyLen(src, size)]);
      buf[at + CopyLen(src, size)] := '\0';
    }
  }

  /** `strlcpy` into a whole buffer. */
  method StrLCpyInto(buf: array<char>, src: string) returns (n: nat)
    modifies buf
    ensures n == |src| && buf[..] == StrLCpy(old(buf[..]), src)
  {
    n := StrLCpyAt(buf, 0, src, buf.Length);
    assert buf.Length > 0 ==> buf[..CopyLen(src, buf.Length)] == buf[0..CopyLen(src, buf.Length)];
  }

  /** `memmove(buf + dst, buf + src, n)` for possibly overlapping ranges. */
  method MemMove(buf: array<char>, dst: nat, src: nat, n: nat)
    requires src + n <= buf.Length && dst + n <= buf.Length
    modifies buf
    ensures buf[dst..dst + n] == old(buf[src..src + n])
    ensures forall i :: 0 <= i < dst || dst + n <= i < buf.Length ==> buf[i] == old(buf[i])
  {
    var moved := buf[src..src + n];
    CopyTo(buf, dst, moved);
  }

  /** `strlen` of the string a buffer holds from index `from` on. */
  method StrLen(buf: array<char>, from: nat, ghost s: string) returns (n: nat)
    requires from <= |s| && Holds(buf[..], s)
    ensures n == |s| - from
  {
    assert forall i :: 0 <= i < |s| ==> buf[i] == s[i] != '\0';
    n := 0;
    while buf[from + n] != '\0'
      invariant from + n <= |s|
      decreases |s| - n
    {
      n := n + 1;
    }
  }

  /** `strlcat(buf, src, |buf|)` onto the string `s`: returns the length it tried to make. */
  method StrLCat(buf: array<char>, src: string, ghost s: string) returns (n: nat)
    requires Holds(buf[..], s) && IsCStr(src)
    modifies buf
    ensures n == |s| + |src|
    ensures Holds(buf[..], if n < buf.Length then s + src else (s + src)[..buf.Length - 1])
  {
    var end := StrLen(buf, 0, s);
    n := StrLCpyAt(buf, end, src, buf.Length - end);
    n := end + n;
    ghost var k := CopyLen(src, buf.Length - end);
    assert forall i :: 0 <= i < k ==> buf[end..end + k][i] == src[i];
    forall i | end <= i < end + k ensures buf[i] == src[i - end] != '\0' {
      assert buf[i] == buf[end..end + k][i - end];
    }
  }

  /** `libze_util_concat`: false is its result -1; then the buffer holds as much as fits. */
  method Concat(prefix: string, separator: string, suffix: string, buf: array<char>) returns (ok: bool)
    requires IsCStr(prefix) && IsCStr(separator) && IsCStr(suffix) && buf.Length > 0
    modifies buf
    ensures ok <==> |prefix| + |separator| + |suffix| < buf.Length
    ensures var whole := prefix + separator + suffix;
            Holds(buf[..], if ok then whole else whole[..buf.Length - 1])
  {
    ghost var whole := prefix + separator + suffix;
    var n := StrLCpyInto(buf, "");
    n := StrLCat(buf, prefix, "");
    if n >= buf.Length {
      assert whole[..buf.Length - 1] == ("" + prefix)[..buf.Length - 1];
      return false;
    }
    assert "" + prefix == prefix;
    n := StrLCat(buf, separator, prefix);
    if n >= buf.Length {
      assert whole[..buf.Length - 1] == (prefix + separator)[..buf.Length - 1];
      return false;
    }
    n := StrLCat(buf, suffix, prefix + separator);
    ok := n < buf.Length;
  }
}
