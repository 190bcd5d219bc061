/** Properties: the text given on the command line, the ZFS user property it becomes, and the lookup. */
module Props {
  import opened CString
  import opened Names

  const MAX_PROP_LEN: nat := 4096         // ZFS_MAXPROPLEN

  /** `strchr`: the index of the first `c`. */
  function FirstAt(s: string, c: char): (r: Option<nat>)
    ensures r.Some? ==> r.value < |s| && s[r.value] == c && c !in s[..r.value]
    ensures r.None? ==> c !in s
  {
    if s == "" then None
    else if s[0] == c then Some(0)
    else
      var rest := FirstAt(s[1..], c);
      if rest.None? then None
      else (assert s[..rest.value + 1] == [s[0]] + s[1..][..rest.value]; Some(rest.value + 1))
  }

  lemma NotBefore(s: string, c: char, to: int, k: int)
    requires 0 <= k < to <= |s| && c !in s[..to]
    ensures s[k] != c
  {
    assert s[..to][k] == s[k];
  }

  lemma FirstAtIs(s: string, c: char, i: nat)
    requires i < |s| && s[i] == c && c !in s[..i]
    ensures FirstAt(s, c) == Some(i)
  {
    var r := FirstAt(s, c).value;
    if r < i {
      NotBefore(s, c, i, r);
    } else if i < r {
      NotBefore(s, c, r, i);
    }
  }

  /** `libze_plugin_form_namespace`, or the namespace itself for no plugin. */
  function NamespaceOf(plugin: Option<string>): string {
    if plugin.None? then NAMESPACE else NAMESPACE + "." + plugin.value
  }

  /** The user property that `libze_nvlist_prop_get` looks up. */
  function Key(plugin: Option<string>, name: string): string { NamespaceOf(plugin) + ":" + name }

  datatype Split = Split(plugin: Option<string>, rest: string)

  /** What `parse_property` takes a text apart into. */
  function AtColon(text: string): Split {
    var i := FirstAt(text, ':');
    if i.Some? then Split(Some(text[..i.value]), text[i.value + 1..]) else Split(None, text)
  }

  /** `strchr` on a buffer */
  method StrChr(buf: array<char>, ghost s: string, c: char) returns (r: Option<nat>)
    requires Holds(buf[..], s) && c != '\0'
    ensures r == FirstAt(s, c)
  {
    assert forall k :: 0 <= k < |s| ==> buf[k] == s[k] != '\0';
    var i := 0;
    while buf[i] != '\0' && buf[i] != c
      invariant i <= |s| && c !in s[..i]
      decreases |s| - i
    {
      i := i + 1;
    }
    if buf[i] == c {
      FirstAtIs(s, c, i);
      return Some(i);
    }
    assert s[..i] == s;
    return None;
  }

  /** A string cut at its first `c`, and what comes after. */
  method CutFirst(buf: array<char>, ghost s: string, c: char) returns (r: Option<string>)
    requires Holds(buf[..], s) && c != '\0'
    modifies buf
    ensures r.Some? <==> FirstAt(s, c).Some?
    ensures r.Some? ==> var i := FirstAt(s, c).value; r.value == s[i + 1..] && Holds(buf[..], s[..i])
    ensures r.None? ==> buf[..] == old(buf[..])
  {
    var i := StrChr(buf, s, c);
    if i.None? {
      return None;
    }
    ghost var was := buf[..];
    r := Some(CStrOf(buf[i.value + 1..]));
    assert buf[i.value + 1..] == was[i.value + 1..];
    HoldsCStrOf(was[i.value + 1..], s[i.value + 1..]);
    buf[i.value] := '\0';
  }

  /** The string a buffer holds. */
  method Read(buf: array<char>, ghost s: string) returns (r: string)
    requires Holds(buf[..], s)
    ensures r == s && IsCStr(s)
  {
    HoldsCStrOf(buf[..], s);
    r := CStrOf(buf[..]);
  }

  /** `parse_property` */
  method ParseInto(text: string, prefix: array<char>, suffix: array<char>) returns (ok: bool)
    requires IsCStr(text) && prefix != suffix && prefix.Length == suffix.Length == MAX_PROP_LEN
    modifies prefix, suffix
    ensures ok <==> |text| < MAX_PROP_LEN && |NamespaceOf(AtColon(text).plugin)| < MAX_PROP_LEN
    ensures ok ==> Holds(prefix[..], NamespaceOf(AtColon(text).plugin)) && Holds(suffix[..], AtColon(text).rest)
  {
    var temp := new char[MAX_PROP_LEN];
    var n := StrLCpyInto(temp, text);
    if n >= MAX_PROP_LEN {
      return false;
    }
    n := StrLCpyInto(suffix, text);
    var rest := CutFirst(temp, text, ':');
    if rest.None? {
      n := StrLCpyInto(prefix, NAMESPACE);
      return true;
    }
    var plugin := Read(temp, text[..FirstAt(text, ':').value]);
    ok := Concat(NAMESPACE, ".", plugin, prefix);
    if ok {
      n := StrLCpyInto(suffix, rest.value);
    }
  }

  /** What setting a text stores: the key and the value. */
  function Stored(text: string): Option<(string, string)> {
    var s := AtColon(text);
    var e := FirstAt(s.rest, '=');
    if e.None? then None else Some((Key(s.plugin, s.rest[..e.value]), s.rest[e.value + 1..]))
  }

  datatype SetResult = Set(props: map<string, string>) | TooLong | NoValue | Twice

  /** `libze_add_set_property` */
  method AddSetProperty(props: map<string, string>, text: string) returns (r: SetResult)
    requires IsCStr(text)
    ensures r.Set? ==> && Stored(text).Some? && Stored(text).value.0 !in props
                       && r.props == props[Stored(text).value.0 := Stored(text).value.1]
    ensures r.NoValue? ==> Stored(text).None?
    ensures r.Twice? ==> Stored(text).Some? && Stored(text).value.0 in props
    ensures r.TooLong? <==> || |text| >= MAX_PROP_LEN || |NamespaceOf(AtColon(text).plugin)| >= MAX_PROP_LEN
                            || (Stored(text).Some? && |Stored(text).value.0| >= MAX_PROP_LEN)
  {
    var prefix, after, full := new char[MAX_PROP_LEN], new char[MAX_PROP_LEN], new char[MAX_PROP_LEN];
    var ok := ParseInto(text, prefix, after);
    if !ok {
      return TooLong;
    }
    ghost var split := AtColon(text);
    var value := CutFirst(after, split.rest, '=');
    if value.None? {
      return NoValue;
    }
    var p := Read(prefix, NamespaceOf(split.plugin));
    var name := Read(after, split.rest[..FirstAt(split.rest, '=').value]);
    ok := Concat(p, ":", name, full);
    if !ok {
      return TooLong;
    }
    var key := Read(full, Stored(text).value.0);
    if key in props {
      return Twice;
    }
    return Set(props[key := value.value]);
  }

  /** The text for a name of a plugin, or of none. */
  function Text(plugin: Option<string>, name: string, value: string): string {
    (if plugin.Some? then plugin.value + ":" else "") + name + "=" + value
  }

  lemma SettingCut(name: string, value: string)
    requires '=' !in name
    ensures var setting := name + "=" + value;
            FirstAt(setting, '=') == Some(|name|) && setting[..|name|] == name && setting[|name| + 1..] == value
  {
    var setting := name + "=" + value;
    assert setting[..|name|] == name;
    FirstAtIs(setting, '=', |name|);
  }

  lemma PluginCut(plugin: string, setting: string)
    requires ':' !in plugin
    ensures AtColon(plugin + ":" + setting) == Split(Some(plugin), setting)
  {
    var text := plugin + ":" + setting;
    assert text[..|plugin|] == plugin && text[|plugin| + 1..] == setting;
    FirstAtIs(text, ':', |plugin|);
  }

  lemma PluginSet(plugin: string, name: string, value: string)
    requires '=' !in name && ':' !in plugin
    ensures Stored(plugin + ":" + (name + "=" + value)) == Some((Key(Some(plugin), name), value))
  {
    PluginCut(plugin, name + "=" + value);
    SettingCut(name, value);
  }

  lemma PlainSet(name: string, value: string)
    requires '=' !in name
    ensures Stored(name + "=" + value) == Some((Key(None, name), value)) <==> ':' !in name && ':' !in value
  {
    var setting := name + "=" + value;
    if ':' in name || ':' in value {
      ColonInside(name, value);
      var s := AtColon(setting);
      PluginKeyDiffers(s.plugin.value, name, s.rest);
    } else {
      SettingCut(name, value);
    }
  }

  /** A setting is found again under its plugin and name with its value, unless it belongs to no plugin and its
      name or value has a colon. */
  lemma SetThenGet(plugin: Option<string>, name: string, value: string)
    requires '=' !in name && (plugin.Some? ==> ':' !in plugin.value)
    ensures Stored(Text(plugin, name, value)) == Some((Key(plugin, name), value))
       <==> plugin.Some? || (':' !in name && ':' !in value)
  {
    if plugin.Some? {
      assert Text(plugin, name, value) == plugin.value + ":" + (name + "=" + value);
      PluginSet(plugin.value, name, value);
    } else {
      assert Text(plugin, name, value) == name + "=" + value;
      PlainSet(name, value);
    }
  }

  lemma ColonInside(name: string, value: string)
    requires ':' in name || ':' in value
    ensures ':' in name + "=" + value
  {
    if ':' in name {
      var i :| 0 <= i < |name| && name[i] == ':';
      assert (name + "=" + value)[i] == ':';
    } else {
      var i :| 0 <= i < |value| && value[i] == ':';
      assert (name + "=" + value)[|name| + 1 + i] == ':';
    }
  }

  lemma PluginKeyDiffers(plugin: string, name: string, rest: string)
    ensures forall e :: 0 <= e <= |rest| ==> Key(Some(plugin), rest[..e]) != Key(None, name)
  {
    assert forall e :: 0 <= e <= |rest| ==> Key(Some(plugin), rest[..e])[|NAMESPACE|] == '.';
    assert Key(None, name)[|NAMESPACE|] == ':';
  }

  /** Different plugins and names have different keys. */
  lemma KeysDiffer(plugin: Option<string>, name: string, plugin': Option<string>, name': string)
    requires plugin.Some? ==> ':' !in plugin.value
    requires plugin'.Some? ==> ':' !in plugin'.value
    requires Key(plugin, name) == Key(plugin', name')
    ensures plugin == plugin' && name == name'
  {
    KeySplits(plugin, name);
    KeySplits(plugin', name');
    var n, n' := NamespaceOf(plugin), NamespaceOf(plugin');
    assert n == n';
    if plugin.Some? && plugin'.Some? {
      assert plugin.value == n[|NAMESPACE| + 1..] == plugin'.value;
    }
  }

  lemma KeySplits(plugin: Option<string>, name: string)
    requires plugin.Some? ==> ':' !in plugin.value
    ensures var n := |NamespaceOf(plugin)|;
            FirstAt(Key(plugin, name), ':') == Some(n) && Key(plugin, name)[..n] == NamespaceOf(plugin)
            && Key(plugin, name)[n + 1..] == name
  {
    var key, n := Key(plugin, name), NamespaceOf(plugin);
    assert key[..|n|] == n;
    FirstAtIs(key, ':', |n|);
  }

  /** What `libze_filter_be_props` keeps: the part before the last colon begins with the namespace. The check that
      the namespace ends there is never made for a name long enough to pass. */
  predicate Kept(key: string) {
    var i := LastAt(key, ':');
    i.Some? && NAMESPACE <= key[..i.value]
  }

  /** `front`, a colon and a name without one. */
  predicate Named(key: string, front: string, name: string) { key == front + ":" + name && ':' !in name }

  /** It keeps exactly the namespace, anything, a colon and a name without one: `org.zectlx:name` passes too. */
  lemma KeptIs(key: string)
    ensures Kept(key) <==> exists more: string, name: string :: Named(key, NAMESPACE + more, name)
  {
    if Kept(key) {
      var i := LastAt(key, ':').value;
      var more, name := key[..i][|NAMESPACE|..], key[i + 1..];
      assert key[..i] == NAMESPACE + more;
      assert Named(key, NAMESPACE + more, name);
    }
    if more: string, name: string :| Named(key, NAMESPACE + more, name) {
      LastColon(NAMESPACE + more, name, key);
      assert (NAMESPACE + more)[..|NAMESPACE|] == NAMESPACE;
    }
  }

  lemma LastColon(front: string, name: string, key: string)
    requires Named(key, front, name)
    ensures LastAt(key, ':') == Some(|front|) && key[..|front|] == front
  {
    assert key[|front| + 1..] == name;
    LastAtIs(key, ':', |front|);
  }

  /** Every key a setting can be stored under is kept. */
  lemma KeysAreKept(plugin: Option<string>, name: string)
    ensures Kept(Key(plugin, name))
  {
    var key := Key(plugin, name);
    var n := |NamespaceOf(plugin)|;
    assert key[n] == ':';
    var i := LastAt(key, ':').value;
    if i < n {
      NotAfter(key, ':', i + 1, n);
    }
    assert key[..i][..|NAMESPACE|] == key[..|NAMESPACE|] == NAMESPACE;
  }

  // ---------------------------------------------------------------- defaults

  datatype Pair = Pair(name: string, value: string)

  function Find(list: seq<Pair>, name: string): Option<string> {
    if list == [] then None
    else if list[0].name == name then Some(list[0].value)
    else Find(list[1..], name)
  }

  /** Every default of the namespace that is not set is added. */
  function Filled(props: seq<Pair>, defaults: seq<Pair>, namespace: string): seq<Pair>
    decreases |defaults|
  {
    if defaults == [] then props
    else
      var d, before := defaults[|defaults| - 1], Filled(props, defaults[..|defaults| - 1], namespace);
      if InNamespace(d.name, namespace) && Find(before, d.name).None? then before + [d] else before
  }

  predicate InNamespace(name: string, namespace: string) {
    var i := LastAt(name, ':');
    i.Some? && name[..i.value] == namespace
  }

  /** A name is of a namespace exactly if it is that, a colon and a name without one. */
  lemma InNamespaceIs(name: string, namespace: string)
    ensures InNamespace(name, namespace) <==> exists rest: string :: Named(name, namespace, rest)
  {
    if InNamespace(name, namespace) {
      var i := LastAt(name, ':').value;
      assert Named(name, namespace, name[i + 1..]);
    }
    if rest: string :| Named(name, namespace, rest) {
      LastColon(namespace, rest, name);
    }
  }

  lemma {:induction false} FindAppend(list: seq<Pair>, p: Pair, name: string)
    ensures Find(list + [p], name) == if Find(list, name).None? && p.name == name then Some(p.value) else Find(list, name)
  {
    if list == [] {
      assert list + [p] == [p];
    } else {
      assert (list + [p])[1..] == list[1..] + [p];
      FindAppend(list[1..], p, name);
    }
  }

  /** What is set stays as it is, and what is not takes its first default of the namespace. */
  lemma {:induction false} DefaultsNeverOverride(props: seq<Pair>, defaults: seq<Pair>, namespace: string, name: string)
    ensures Find(Filled(props, defaults, namespace), name)
         == if Find(props, name).Some? then Find(props, name)
            else if InNamespace(name, namespace) then Find(defaults, name) else None
    decreases |defaults|
  {
    if defaults != [] {
      var rest, d := defaults[..|defaults| - 1], defaults[|defaults| - 1];
      DefaultsNeverOverride(props, rest, namespace, name);
      FindAppend(rest, d, name);
      assert defaults == rest + [d];
      FindAppend(Filled(props, rest, namespace), d, name);
    }
  }

  /** Filling in again changes nothing. */
  lemma {:induction false} FillingTwice(props: seq<Pair>, defaults: seq<Pair>, namespace: string, n: nat)
    requires n <= |defaults|
    ensures Filled(Filled(props, defaults, namespace), defaults[..n], namespace) == Filled(props, defaults, namespace)
    decreases n
  {
    if n > 0 {
      FillingTwice(props, defaults, namespace, n - 1);
      var d := defaults[n - 1];
      assert defaults[..n][..n - 1] == defaults[..n - 1];
      DefaultsNeverOverride(props, defaults, namespace, d.name);
      FoundAt(defaults, n - 1);
    }
  }

  lemma {:induction false} FoundAt(list: seq<Pair>, i: nat)
    requires i < |list|
    ensures Find(list, list[i].name).Some?
  {
    if i > 0 {
      FoundAt(list[1..], i - 1);
    }
  }

  /** `libze_default_props_set`: a default without a colon ends it. */
  method FillDefaults(props: seq<Pair>, defaults: seq<Pair>, namespace: string) returns (ok: bool, filled: seq<Pair>)
    ensures ok <==> forall d :: d in defaults ==> |d.name| < MAX_PROP_LEN && ':' in d.name
    ensures ok ==> filled == Filled(props, defaults, namespace)
    ensures !ok ==> exists n :: 0 <= n < |defaults| && filled == Filled(props, defaults[..n], namespace)
  {
    filled := props;
    for i := 0 to |defaults|
      invariant filled == Filled(props, defaults[..i], namespace)
      invariant forall k :: 0 <= k < i ==> |defaults[k].name| < MAX_PROP_LEN && ':' in defaults[k].name
    {
      var d := defaults[i];
      var colon := LastAt(d.name, ':');
      if |d.name| >= MAX_PROP_LEN || colon.None? {
        assert d in defaults;
        return false, filled;
      }
      assert defaults[..i + 1][..i] == defaults[..i];
      if d.name[..colon.value] == namespace {
        var unset := true;
        var k := 0;
        while k < |filled|
          invariant k <= |filled| && Find(filled, d.name) == Find(filled[k..], d.name)
        {
          if filled[k].name == d.name {
            unset := false;
            break;
          }
          k := k + 1;
        }
        if unset {
          filled := filled + [d];
        }
      }
    }
    assert defaults[..|defaults|] == defaults;
    ok := true;
  }

  /** `add_default_properties` of the plugin, whose defaults are all of one namespace. */
  method AddDefaults(props: seq<Pair>, defaults: seq<Pair>, namespace: string) returns (filled: seq<Pair>)
    requires forall d :: d in defaults ==> InNamespace(d.name, namespace)
    ensures filled == Filled(props, defaults, namespace)
  {
    filled := props;
    for i := 0 to |defaults|
      invariant filled == Filled(props, defaults[..i], namespace)
    {
      assert defaults[..i + 1][..i] == defaults[..i] && defaults[i] in defaults;
      if Find(filled, defaults[i].name).None? {
        filled := filled + [defaults[i]];
      }
    }
    assert defaults[..|defaults|] == defaults;
  }
}
