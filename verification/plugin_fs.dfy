/** Filesystem policy of the WASM plugin sandbox
    (crates/opencrust-plugins/src/runtime.rs): turning manifest path entries
    into canonical host directories inside the plugin root, and planning the
    preopened mounts. */
module PluginFs {
  import opened Common
  import opened Errors
  import opened PluginPermissions

  /** A host path as the text a `PathBuf` holds. */
  type Path = string

  /** `Path::is_absolute` on Unix. */
  predicate IsAbsolute(p: Path) {
    |p| > 0 && p[0] == '/'
  }

  /** `PathBuf::join` with a relative path: one separator between the two,
      none after an empty base or one already ending in a separator. */
  function Join(base: Path, rel: Path): (r: Path)
    ensures |r| >= |base| + |rel| && r[..|base|] == base && r[|r| - |rel|..] == rel
  {
    if base != [] && base[|base| - 1] != '/' then base + "/" + rel else base + rel
  }

  /** A canonical path: the components of an absolute path with no `.`,
      `..` or links left, as `canonicalize` returns it. */
  type Canonical = seq<string>

  function JoinParts(parts: seq<string>): string {
    if parts == [] then []
    else if |parts| == 1 then parts[0]
    else parts[0] + "/" + JoinParts(parts[1..])
  }

  function Show(c: Canonical): string {
    "/" + JoinParts(c)
  }

  /** `Path::starts_with`: whole components, not characters. */
  predicate StartsWith(c: Canonical, root: Canonical) {
    |root| <= |c| && c[..|root|] == root
  }

  datatype IoResult<T> = IoOk(value: T) | IoErr(reason: string)

  /** The host file system as seen by the runtime.  `present` (`Path::exists`) reports the
      state after any directory creation the same call asked for. */
  datatype FileSystem = FileSystem(
    createDirAll: Path -> IoResult<()>,
    present: Path -> bool,
    canonicalize: Path -> IoResult<Canonical>,
    preopen: Canonical -> IoResult<()>)

  /** The steps of `normalize_scoped_path` that can fail once the entry is
      known to be a relative, non-blank path. */
  function ScopeJoined(root: Path, path: Path, create: bool, fs: FileSystem): Result<Canonical> {
    if create && fs.createDirAll(path).IoErr? then
      Err(Plugin("failed to create writable filesystem path " + path + ": " + fs.createDirAll(path).reason))
    else if !fs.present(path) then
      Err(Plugin("filesystem path does not exist: " + path))
    else
      match fs.canonicalize(path)
      case IoErr(e) => Err(Plugin("failed to canonicalize path " + path + ": " + e))
      case IoOk(canonical) =>
        match fs.canonicalize(root)
        case IoErr(e) => Err(Plugin("failed to canonicalize plugin root " + root + ": " + e))
        case IoOk(canonicalRoot) =>
          if !StartsWith(canonical, canonicalRoot) then
            Err(Plugin("path escapes plugin root: " + Show(canonical) + " is outside " + Show(canonicalRoot)))
          else Ok(canonical)
  }

  /** `normalize_scoped_path`. */
  function NormalizeScopedPath(root: Path, raw: string, create: bool, fs: FileSystem): (r: Result<Canonical>)
    ensures Trim(raw) == [] ==> r == Err(Plugin("filesystem path entries cannot be empty"))
    ensures Trim(raw) != [] && IsAbsolute(Trim(raw)) ==>
              r == Err(Plugin("absolute filesystem paths are not allowed in plugin permissions: " + Trim(raw)))
    ensures r.Ok? ==> fs.canonicalize(root).IoOk? && StartsWith(r.value, fs.canonicalize(root).value)
    ensures r.Ok? ==> fs.canonicalize(Join(root, Trim(raw))) == IoOk(r.value)
  {
    var t := Trim(raw);
    if t == [] then Err(Plugin("filesystem path entries cannot be empty"))
    else if IsAbsolute(t) then
      Err(Plugin("absolute filesystem paths are not allowed in plugin permissions: " + t))
    else ScopeJoined(root, Join(root, t), create, fs)
  }

  /** Exactly when an entry is accepted. */
  lemma NormalizeScopedPathOk(root: Path, raw: string, create: bool, fs: FileSystem)
    ensures NormalizeScopedPath(root, raw, create, fs).Ok? <==>
      var p := Join(root, Trim(raw));
      Trim(raw) != [] && !IsAbsolute(Trim(raw))
      && (create ==> fs.createDirAll(p).IoOk?)
      && fs.present(p) && fs.canonicalize(p).IoOk? && fs.canonicalize(root).IoOk?
      && StartsWith(fs.canonicalize(p).value, fs.canonicalize(root).value)
  {
  }

  lemma TrimEtcPasswd()
    ensures Trim("/etc/passwd") == "/etc/passwd"
  {
    assert TrimStart("/etc/passwd") == "/etc/passwd";
    assert TrimEnd("/etc/passwd") == "/etc/passwd";
  }

  /** The absolute path of the test suite is refused before the file system
      is consulted. */
  lemma AbsolutePathBlocked(root: Path, create: bool, fs: FileSystem)
    ensures NormalizeScopedPath(root, "/etc/passwd", create, fs)
         == Err(Plugin("absolute filesystem paths are not allowed in plugin permissions: " + "/etc/passwd"))
  {
    TrimEtcPasswd();
  }

  // ----- the mount table: a `BTreeMap<PathBuf, bool>` ---------------------

  /** Lexicographic order of strings by character (the byte order of their
      UTF-8 encodings). */
  predicate StrLess(a: string, b: string) {
    if a == [] then b != []
    else b != [] && (a[0] < b[0] || (a[0] == b[0] && StrLess(a[1..], b[1..])))
  }

  lemma {:induction false} StrLessIrreflexive(a: string)
    ensures !StrLess(a, a)
  {
    if a != [] {
      StrLessIrreflexive(a[1..]);
    }
  }

  lemma {:induction false} StrLessTotal(a: string, b: string)
    ensures StrLess(a, b) || a == b || StrLess(b, a)
  {
    if a != [] && b != [] && a[0] == b[0] {
      StrLessTotal(a[1..], b[1..]);
      if a[1..] == b[1..] {
        assert a == [a[0]] + a[1..] && b == [b[0]] + b[1..];
      }
    }
  }

  lemma {:induction false} StrLessTransitive(a: string, b: string, c: string)
    requires StrLess(a, b) && StrLess(b, c)
    ensures StrLess(a, c)
  {
    if a != [] && a[0] == b[0] && b[0] == c[0] {
      StrLessTransitive(a[1..], b[1..], c[1..]);
    }
  }

  /** The order of `Path`s: lexicographic by component. */
  predicate PathLess(a: Canonical, b: Canonical) {
    if a == [] then b != []
    else b != [] && (StrLess(a[0], b[0]) || (a[0] == b[0] && PathLess(a[1..], b[1..])))
  }

  lemma {:induction false} PathLessIrreflexive(a: Canonical)
    ensures !PathLess(a, a)
  {
    if a != [] {
      StrLessIrreflexive(a[0]);
      PathLessIrreflexive(a[1..]);
    }
  }

  lemma {:induction false} PathLessTotal(a: Canonical, b: Canonical)
    ensures PathLess(a, b) || a == b || PathLess(b, a)
  {
    if a != [] && b != [] {
      StrLessTotal(a[0], b[0]);
      if a[0] == b[0] {
        PathLessTotal(a[1..], b[1..]);
        if a[1..] == b[1..] {
          assert a == [a[0]] + a[1..] && b == [b[0]] + b[1..];
        }
      }
    }
  }

  lemma {:induction false} PathLessTransitive(a: Canonical, b: Canonical, c: Canonical)
    requires PathLess(a, b) && PathLess(b, c)
    ensures PathLess(a, c)
  {
    if a != [] {
      if StrLess(a[0], b[0]) && StrLess(b[0], c[0]) {
        StrLessTransitive(a[0], b[0], c[0]);
      } else if a[0] == b[0] && b[0] == c[0] {
        PathLessTransitive(a[1..], b[1..], c[1..]);
      }
    }
  }

  lemma PathLessAsymmetric(a: Canonical, b: Canonical)
    requires PathLess(a, b)
    ensures !PathLess(b, a) && a != b
  {
    PathLessIrreflexive(a);
    if PathLess(b, a) {
      PathLessTransitive(a, b, a);
    }
  }

  type MountMap = seq<(Canonical, bool)>

  /** Keys strictly increasing: the iteration order of the map. */
  predicate Sorted(m: MountMap) {
    forall i, j :: 0 <= i < j < |m| ==> PathLess(m[i].0, m[j].0)
  }

  function Keys(m: MountMap): set<Canonical> {
    set i | 0 <= i < |m| :: m[i].0
  }

  function Lookup(m: MountMap, k: Canonical): Option<bool> {
    if m == [] then None else if m[0].0 == k then Some(m[0].1) else Lookup(m[1..], k)
  }

  lemma KeysCons(x: (Canonical, bool), m: MountMap)
    ensures Keys([x] + m) == {x.0} + Keys(m)
  {
    var r := [x] + m;
    forall key | key in Keys(r) ensures key in {x.0} + Keys(m) {
      var i :| 0 <= i < |r| && r[i].0 == key;
      if i > 0 { assert r[i] == m[i - 1]; }
    }
    forall key | key in Keys(m) ensures key in Keys(r) {
      var i :| 0 <= i < |m| && m[i].0 == key;
      assert r[i + 1] == m[i];
    }
    assert r[0] == x;
  }

  /** `mounts.entry(k).or_insert(false)`. */
  function InsertReadOnly(m: MountMap, k: Canonical): (r: MountMap)
    ensures Keys(r) == Keys(m) + {k}
  {
    if m == [] then KeysCons((k, false), []); [(k, false)]
    else if m[0].0 == k then m
    else if PathLess(k, m[0].0) then KeysCons((k, false), m); [(k, false)] + m
    else
      var rest := InsertReadOnly(m[1..], k);
      KeysCons(m[0], m[1..]);
      KeysCons(m[0], rest);
      assert [m[0]] + m[1..] == m;
      [m[0]] + rest
  }

  /** `mounts.insert(k, true)`. */
  function InsertWritable(m: MountMap, k: Canonical): (r: MountMap)
    ensures Keys(r) == Keys(m) + {k}
  {
    if m == [] then KeysCons((k, true), []); [(k, true)]
    else if m[0].0 == k then
      KeysCons(m[0], m[1..]);
      KeysCons((k, true), m[1..]);
      assert [m[0]] + m[1..] == m;
      [(k, true)] + m[1..]
    else if PathLess(k, m[0].0) then KeysCons((k, true), m); [(k, true)] + m
    else
      var rest := InsertWritable(m[1..], k);
      KeysCons(m[0], m[1..]);
      KeysCons(m[0], rest);
      assert [m[0]] + m[1..] == m;
      [m[0]] + rest
  }

  lemma SortedTail(m: MountMap)
    requires Sorted(m) && m != []
    ensures Sorted(m[1..]) && forall k :: k in Keys(m[1..]) ==> PathLess(m[0].0, k)
  {
  }

  lemma SortedCons(x: (Canonical, bool), m: MountMap)
    requires Sorted(m) && forall k :: k in Keys(m) ==> PathLess(x.0, k)
    ensures Sorted([x] + m)
  {
    var r := [x] + m;
    forall i, j | 0 <= i < j < |r| ensures PathLess(r[i].0, r[j].0) {
      if i > 0 {
        assert r[i] == m[i - 1] && r[j] == m[j - 1];
      } else {
        assert r[j].0 in Keys(m) by { assert r[j] == m[j - 1]; }
      }
    }
  }

  /** Below the smallest key, a sorted map holds nothing. */
  lemma {:induction false} LookupBelow(m: MountMap, k: Canonical)
    requires Sorted(m) && (m == [] || PathLess(k, m[0].0))
    ensures Lookup(m, k).None?
  {
    if m != [] {
      PathLessAsymmetric(k, m[0].0);
      if m[1..] != [] {
        assert PathLess(m[0].0, m[1..][0].0);
        PathLessTransitive(k, m[0].0, m[1..][0].0);
      }
      SortedTail(m);
      LookupBelow(m[1..], k);
    }
  }

  lemma {:induction false} InsertReadOnlyMeaning(m: MountMap, k: Canonical)
    requires Sorted(m)
    ensures Sorted(InsertReadOnly(m, k))
    ensures forall j :: Lookup(InsertReadOnly(m, k), j)
                        == if j == k && Lookup(m, k).None? then Some(false) else Lookup(m, j)
  {
    if m != [] && m[0].0 != k {
      if PathLess(k, m[0].0) {
        LookupBelow(m, k);
        forall key | key in Keys(m) ensures PathLess(k, key) {
          var i :| 0 <= i < |m| && m[i].0 == key;
          if i > 0 { PathLessTransitive(k, m[0].0, key); }
        }
        SortedCons((k, false), m);
      } else {
        PathLessTotal(k, m[0].0);
        SortedTail(m);
        InsertReadOnlyMeaning(m[1..], k);
        SortedCons(m[0], InsertReadOnly(m[1..], k));
      }
    }
  }

  lemma {:induction false} InsertWritableMeaning(m: MountMap, k: Canonical)
    requires Sorted(m)
    ensures Sorted(InsertWritable(m, k))
    ensures forall j :: Lookup(InsertWritable(m, k), j) == if j == k then Some(true) else Lookup(m, j)
  {
    if m == [] {
    } else if m[0].0 == k {
      SortedTail(m);
      SortedCons((k, true), m[1..]);
    } else if PathLess(k, m[0].0) {
      forall key | key in Keys(m) ensures PathLess(k, key) {
        var i :| 0 <= i < |m| && m[i].0 == key;
        if i > 0 { PathLessTransitive(k, m[0].0, key); }
      }
      SortedCons((k, true), m);
    } else {
      PathLessTotal(k, m[0].0);
      SortedTail(m);
      InsertWritableMeaning(m[1..], k);
      SortedCons(m[0], InsertWritable(m[1..], k));
    }
  }

  lemma {:induction false} LookupPresent(m: MountMap, i: nat)
    requires Sorted(m) && i < |m|
    ensures Lookup(m, m[i].0) == Some(m[i].1)
  {
    if i > 0 {
      PathLessAsymmetric(m[0].0, m[i].0);
      SortedTail(m);
      assert m[1..][i - 1] == m[i];
      LookupPresent(m[1..], i - 1);
    }
  }

  lemma {:induction false} LookupKeys(m: MountMap, k: Canonical)
    ensures Lookup(m, k).Some? <==> k in Keys(m)
  {
    if m != [] {
      KeysCons(m[0], m[1..]);
      assert [m[0]] + m[1..] == m;
      LookupKeys(m[1..], k);
    }
  }

  /** The read loop: `entry(..).or_insert(false)` for each host in turn. */
  function InsertAllReadOnly(m: MountMap, ks: seq<Canonical>): MountMap
    decreases |ks|
  {
    if ks == [] then m else InsertAllReadOnly(InsertReadOnly(m, ks[0]), ks[1..])
  }

  /** The write loop: `insert(.., true)` for each host in turn. */
  function InsertAllWritable(m: MountMap, ks: seq<Canonical>): MountMap
    decreases |ks|
  {
    if ks == [] then m else InsertAllWritable(InsertWritable(m, ks[0]), ks[1..])
  }

  lemma {:induction false} InsertAllReadOnlyMeaning(m: MountMap, ks: seq<Canonical>)
    requires Sorted(m)
    ensures Sorted(InsertAllReadOnly(m, ks))
    ensures forall j :: Lookup(InsertAllReadOnly(m, ks), j)
                        == if Lookup(m, j).None? && j in ks then Some(false) else Lookup(m, j)
    decreases |ks|
  {
    if ks != [] {
      InsertReadOnlyMeaning(m, ks[0]);
      InsertAllReadOnlyMeaning(InsertReadOnly(m, ks[0]), ks[1..]);
      assert forall j :: j in ks <==> j == ks[0] || j in ks[1..];
    }
  }

  lemma {:induction false} InsertAllWritableMeaning(m: MountMap, ks: seq<Canonical>)
    requires Sorted(m)
    ensures Sorted(InsertAllWritable(m, ks))
    ensures forall j :: Lookup(InsertAllWritable(m, ks), j) == if j in ks then Some(true) else Lookup(m, j)
    decreases |ks|
  {
    if ks != [] {
      InsertWritableMeaning(m, ks[0]);
      InsertAllWritableMeaning(InsertWritable(m, ks[0]), ks[1..]);
      assert forall j :: j in ks <==> j == ks[0] || j in ks[1..];
    }
  }

  /** The map after both loops of `configure_filesystem`. */
  function MergeMounts(rs: seq<Canonical>, ws: seq<Canonical>): MountMap {
    InsertAllWritable(InsertAllReadOnly([], rs), ws)
  }

  /** Writable wins: a host listed for writing is writable whatever the read
      list says, a host listed only for reading is read-only, and nothing
      else is mounted. */
  lemma MergeMountsMeaning(rs: seq<Canonical>, ws: seq<Canonical>)
    ensures Sorted(MergeMounts(rs, ws))
    ensures forall j :: Lookup(MergeMounts(rs, ws), j)
                        == if j in ws then Some(true) else if j in rs then Some(false) else None
  {
    InsertAllReadOnlyMeaning([], rs);
    InsertAllWritableMeaning(InsertAllReadOnly([], rs), ws);
  }

  /** One preopened directory: host path, guest name and access. */
  datatype Mount = Mount(host: Canonical, guest: string, writable: bool)

  /** The enumeration of the map: guest names `mnt0`, `mnt1`, ... in key
      order. */
  function Mounts(m: MountMap): (r: seq<Mount>)
    ensures |r| == |m|
    ensures forall i :: 0 <= i < |m| ==> r[i] == Mount(m[i].0, "mnt" + Decimal(i), m[i].1)
  {
    seq(|m|, i requires 0 <= i < |m| => Mount(m[i].0, "mnt" + Decimal(i), m[i].1))
  }

  /** `builder.preopened_dir` for each mount, stopping at the first failure. */
  function PreopenAll(mounts: seq<Mount>, fs: FileSystem): (r: Result<()>)
    ensures r.Ok? <==> forall i :: 0 <= i < |mounts| ==> fs.preopen(mounts[i].host).IoOk?
  {
    if mounts == [] then Ok(())
    else match fs.preopen(mounts[0].host)
      case IoErr(e) => Err(Plugin("failed to preopen filesystem path " + Show(mounts[0].host) + ": " + e))
      case IoOk(_) =>
        assert forall i :: 1 <= i < |mounts| ==> mounts[i] == mounts[1..][i - 1];
        PreopenAll(mounts[1..], fs)
  }

  /** Apply a fallible step to each entry in turn, stopping at the first
      failure (the `?` inside a `for` loop). */
  function TryAll<T>(xs: seq<string>, f: string -> Result<T>): Result<seq<T>>
    decreases |xs|
  {
    if xs == [] then Ok([])
    else
      match f(xs[0])
      case Err(e) => Err(e)
      case Ok(y) =>
        match TryAll(xs[1..], f)
        case Err(e) => Err(e)
        case Ok(rest) => Ok([y] + rest)
  }

  /** The loop succeeds iff every step does, and then yields each step's
      value, position by position. */
  lemma {:induction false} TryAllMeaning<T>(xs: seq<string>, f: string -> Result<T>)
    ensures TryAll(xs, f).Ok? <==> forall i :: 0 <= i < |xs| ==> f(xs[i]).Ok?
    ensures TryAll(xs, f).Ok? ==>
              (|TryAll(xs, f).value| == |xs| && forall i :: 0 <= i < |xs| ==> f(xs[i]) == Ok(TryAll(xs, f).value[i]))
    decreases |xs|
  {
    if xs != [] {
      TryAllMeaning(xs[1..], f);
      assert forall i :: 1 <= i < |xs| ==> xs[i] == xs[1..][i - 1];
    }
  }

  /** Every entry normalised in turn, stopping at the first failure. */
  function NormalizeAll(root: Path, raws: seq<string>, create: bool, fs: FileSystem): Result<seq<Canonical>> {
    TryAll(raws, raw => NormalizeScopedPath(root, raw, create, fs))
  }

  lemma NormalizeAllMeaning(root: Path, raws: seq<string>, create: bool, fs: FileSystem)
    ensures var r := NormalizeAll(root, raws, create, fs);
            r.Ok? <==> forall i :: 0 <= i < |raws| ==> NormalizeScopedPath(root, raws[i], create, fs).Ok?
    ensures var r := NormalizeAll(root, raws, create, fs);
            r.Ok? ==> |r.value| == |raws|
                      && forall i :: 0 <= i < |raws| ==> NormalizeScopedPath(root, raws[i], create, fs) == Ok(r.value[i])
  {
    TryAllMeaning(raws, raw => NormalizeScopedPath(root, raw, create, fs));
  }

  /** From the read hosts on: normalise the write entries, merge, enumerate,
      preopen. */
  function Plan(readHosts: seq<Canonical>, root: Path, writes: seq<string>, fs: FileSystem): Result<seq<Mount>> {
    match NormalizeAll(root, writes, true, fs)
    case Err(e) => Err(e)
    case Ok(writeHosts) =>
      var mounts := Mounts(MergeMounts(readHosts, writeHosts));
      match PreopenAll(mounts, fs)
      case Err(e) => Err(e)
      case Ok(_) => Ok(mounts)
  }

  const DisabledButPaths := "filesystem paths were provided but filesystem=false in plugin permissions"

  /** `configure_filesystem` as written: with no paths configured, the
      default read entry is the plugin root's own display text, which is then
      treated like a manifest entry relative to that same root. */
  function ConfigureFilesystemAsWritten(p: Permissions, root: Path, fs: FileSystem): Result<seq<Mount>> {
    if !p.filesystem then
      if p.readPaths != [] || p.writePaths != [] then Err(Plugin(DisabledButPaths)) else Ok([])
    else
      var effective := if p.readPaths == [] && p.writePaths == [] then [root] else p.readPaths;
      match NormalizeAll(root, effective, false, fs)
      case Err(e) => Err(e)
      case Ok(readHosts) => Plan(readHosts, root, p.writePaths, fs)
  }

  /** `configure_filesystem` as its comment intends: with no paths
      configured, the canonical plugin root itself is mounted read-only. */
  function ConfigureFilesystem(p: Permissions, root: Path, fs: FileSystem): Result<seq<Mount>> {
    if !p.filesystem then
      if p.readPaths != [] || p.writePaths != [] then Err(Plugin(DisabledButPaths)) else Ok([])
    else if p.readPaths == [] && p.writePaths == [] then
      match fs.canonicalize(root)
      case IoErr(e) => Err(Plugin("failed to canonicalize plugin root " + root + ": " + e))
      case IoOk(c) => Plan([c], root, [], fs)
    else
      match NormalizeAll(root, p.readPaths, false, fs)
      case Err(e) => Err(e)
      case Ok(readHosts) => Plan(readHosts, root, p.writePaths, fs)
  }

  /** The corrected configuration differs from the code as written only in
      the default case (access on, no paths listed); everywhere else the
      lemmas about `ConfigureFilesystem` hold for the code as written. */
  lemma AsWrittenAgrees(p: Permissions, root: Path, fs: FileSystem)
    requires !p.filesystem || p.readPaths != [] || p.writePaths != []
    ensures ConfigureFilesystemAsWritten(p, root, fs) == ConfigureFilesystem(p, root, fs)
  {
  }

  /** With the filesystem disabled, any path entry is an error and otherwise
      nothing is mounted. */
  lemma ConfigureFilesystemDisabled(p: Permissions, root: Path, fs: FileSystem)
    requires !p.filesystem
    ensures ConfigureFilesystem(p, root, fs).Ok? <==> p.readPaths == [] && p.writePaths == []
    ensures ConfigureFilesystem(p, root, fs).Ok? ==> ConfigureFilesystem(p, root, fs).value == []
    ensures ConfigureFilesystem(p, root, fs).Err? ==> ConfigureFilesystem(p, root, fs).error == Plugin(DisabledButPaths)
  {
  }

  /** With the filesystem enabled and no paths, exactly one mount: the
      canonical plugin root, read-only, as `mnt0`. */
  lemma ConfigureFilesystemDefault(p: Permissions, root: Path, fs: FileSystem, c: Canonical)
    requires p.filesystem && p.readPaths == [] && p.writePaths == []
    requires fs.canonicalize(root) == IoOk(c) && fs.preopen(c).IoOk?
    ensures ConfigureFilesystem(p, root, fs) == Ok([Mount(c, "mnt0", false)])
  {
    assert InsertReadOnly([], c) == [(c, false)];
    assert InsertAllReadOnly([], [c]) == InsertAllReadOnly([(c, false)], []);
    assert MergeMounts([c], []) == [(c, false)];
    assert Decimal(0) == "0";
    assert "mnt" + "0" == "mnt0";
    assert Mounts([(c, false)]) == [Mount(c, "mnt0", false)];
  }

  /** Properties of every successful mount plan. */
  lemma {:induction false} PlanMeaning(readHosts: seq<Canonical>, root: Path, writes: seq<string>, fs: FileSystem)
    requires Plan(readHosts, root, writes, fs).Ok?
    ensures NormalizeAll(root, writes, true, fs).Ok?
    ensures var mounts := Plan(readHosts, root, writes, fs).value;
            var writeHosts := NormalizeAll(root, writes, true, fs).value;
            (forall i, j :: 0 <= i < j < |mounts| ==> PathLess(mounts[i].host, mounts[j].host))
            && (forall i :: 0 <= i < |mounts| ==> mounts[i].guest == "mnt" + Decimal(i))
            && (forall i :: 0 <= i < |mounts| ==> (mounts[i].writable <==> mounts[i].host in writeHosts))
            && (forall i :: 0 <= i < |mounts| ==> mounts[i].host in readHosts || mounts[i].host in writeHosts)
            && (forall h :: h in readHosts || h in writeHosts ==> exists i :: 0 <= i < |mounts| && mounts[i].host == h)
  {
    NormalizeAllMeaning(root, writes, true, fs);
    var writeHosts := NormalizeAll(root, writes, true, fs).value;
    var m := MergeMounts(readHosts, writeHosts);
    MergeMountsMeaning(readHosts, writeHosts);
    var mounts := Mounts(m);
    forall i | 0 <= i < |mounts|
      ensures (mounts[i].writable <==> mounts[i].host in writeHosts)
      ensures mounts[i].host in readHosts || mounts[i].host in writeHosts
    {
      LookupPresent(m, i);
    }
    forall h | h in readHosts || h in writeHosts
      ensures exists i :: 0 <= i < |mounts| && mounts[i].host == h
    {
      LookupKeys(m, h);
      var i :| 0 <= i < |m| && m[i].0 == h;
      assert mounts[i].host == h;
    }
  }

  /** A host that came out of the entries lies inside the canonical root,
      and it is a write host iff some write entry names it. */
  lemma HostFromEntries(p: Permissions, root: Path, fs: FileSystem,
                        readHosts: seq<Canonical>, writeHosts: seq<Canonical>, h: Canonical)
    requires NormalizeAll(root, p.readPaths, false, fs) == Ok(readHosts)
    requires NormalizeAll(root, p.writePaths, true, fs) == Ok(writeHosts)
    requires h in readHosts || h in writeHosts
    ensures fs.canonicalize(root).IoOk? && StartsWith(h, fs.canonicalize(root).value)
    ensures h in writeHosts <==>
            exists k :: 0 <= k < |p.writePaths| && NormalizeScopedPath(root, p.writePaths[k], true, fs) == Ok(h)
  {
    NormalizeAllMeaning(root, p.readPaths, false, fs);
    NormalizeAllMeaning(root, p.writePaths, true, fs);
    if h in writeHosts {
      var k :| 0 <= k < |writeHosts| && writeHosts[k] == h;
      assert NormalizeScopedPath(root, p.writePaths[k], true, fs) == Ok(h);
    } else {
      var k :| 0 <= k < |readHosts| && readHosts[k] == h;
      assert NormalizeScopedPath(root, p.readPaths[k], false, fs) == Ok(h);
    }
  }

  /** The sandbox boundary for a mount plan built from the entries of `p`:
      every host lies inside the canonical root `c`, writable exactly when
      some write entry names it; hosts come in path order as `mnt0`,
      `mnt1`, ... */
  ghost predicate SoundMounts(p: Permissions, root: Path, fs: FileSystem, c: Canonical, mounts: seq<Mount>) {
    (forall i :: 0 <= i < |mounts| ==> StartsWith(mounts[i].host, c))
    && (forall i, j :: 0 <= i < j < |mounts| ==> PathLess(mounts[i].host, mounts[j].host))
    && (forall i :: 0 <= i < |mounts| ==> mounts[i].guest == "mnt" + Decimal(i))
    && (forall i :: 0 <= i < |mounts| ==>
          (mounts[i].writable <==>
           exists k :: 0 <= k < |p.writePaths| && NormalizeScopedPath(root, p.writePaths[k], true, fs) == Ok(mounts[i].host)))
  }

  lemma PlanSound(p: Permissions, root: Path, fs: FileSystem, readHosts: seq<Canonical>)
    requires p.readPaths != [] || p.writePaths != []
    ensures NormalizeAll(root, p.readPaths, false, fs) == Ok(readHosts) && Plan(readHosts, root, p.writePaths, fs).Ok? ==>
              fs.canonicalize(root).IoOk?
              && SoundMounts(p, root, fs, fs.canonicalize(root).value, Plan(readHosts, root, p.writePaths, fs).value)
  {
    if NormalizeAll(root, p.readPaths, false, fs) == Ok(readHosts) && Plan(readHosts, root, p.writePaths, fs).Ok? {
      var mounts := Plan(readHosts, root, p.writePaths, fs).value;
      PlanMeaning(readHosts, root, p.writePaths, fs);
      var writeHosts := NormalizeAll(root, p.writePaths, true, fs).value;
      NormalizeAllMeaning(root, p.readPaths, false, fs);
      NormalizeAllMeaning(root, p.writePaths, true, fs);
      if p.readPaths != [] {
        HostFromEntries(p, root, fs, readHosts, writeHosts, readHosts[0]);
      } else {
        HostFromEntries(p, root, fs, readHosts, writeHosts, writeHosts[0]);
      }
      forall i | 0 <= i < |mounts|
        ensures StartsWith(mounts[i].host, fs.canonicalize(root).value)
        ensures mounts[i].writable <==>
                exists k :: 0 <= k < |p.writePaths| && NormalizeScopedPath(root, p.writePaths[k], true, fs) == Ok(mounts[i].host)
      {
        HostFromEntries(p, root, fs, readHosts, writeHosts, mounts[i].host);
      }
    }
  }

  /** Every successful configuration with explicit paths keeps the sandbox
      boundary of `SoundMounts`. */
  lemma ConfigureFilesystemMounts(p: Permissions, root: Path, fs: FileSystem)
    requires p.filesystem && (p.readPaths != [] || p.writePaths != [])
    ensures ConfigureFilesystem(p, root, fs).Ok? ==>
              fs.canonicalize(root).IoOk?
              && SoundMounts(p, root, fs, fs.canonicalize(root).value, ConfigureFilesystem(p, root, fs).value)
  {
    if ConfigureFilesystem(p, root, fs).Ok? {
      var readHosts := NormalizeAll(root, p.readPaths, false, fs).value;
      assert ConfigureFilesystem(p, root, fs) == Plan(readHosts, root, p.writePaths, fs);
      PlanSound(p, root, fs, readHosts);
    }
  }

  /** The default mount as written never works for an absolute plugin root:
      the root's own text is refused as an absolute manifest entry. */
  lemma DefaultMountAsWrittenRejected(p: Permissions, root: Path, fs: FileSystem)
    requires p.filesystem && p.readPaths == [] && p.writePaths == []
    requires IsAbsolute(root)
    ensures ConfigureFilesystemAsWritten(p, root, fs)
         == Err(Plugin("absolute filesystem paths are not allowed in plugin permissions: " + Trim(root)))
  {
    TrimKeepsFirst(root);
  }

  /** An instance: a plugin loaded from `/opt/echo/echo.wasm` that enables
      the filesystem without listing paths cannot start, although the root
      exists and can be opened. */
  lemma DefaultMountAsWrittenExample(fs: FileSystem)
    requires fs.canonicalize("/opt/echo") == IoOk(["opt", "echo"]) && fs.preopen(["opt", "echo"]).IoOk?
    ensures ConfigureFilesystemAsWritten(Permissions(true, [], [], [], []), "/opt/echo", fs).Err?
    ensures ConfigureFilesystem(Permissions(true, [], [], [], []), "/opt/echo", fs)
         == Ok([Mount(["opt", "echo"], "mnt0", false)])
  {
    DefaultMountAsWrittenRejected(Permissions(true, [], [], [], []), "/opt/echo", fs);
    ConfigureFilesystemDefault(Permissions(true, [], [], [], []), "/opt/echo", fs, ["opt", "echo"]);
  }
}
