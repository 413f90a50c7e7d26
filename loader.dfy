/**
 * Discovery of the available migrations: every entry of the directory listing whose name
 * matches the pattern becomes a loaded migration, in listing order; other entries are skipped.
 */
module Loader {
  import opened Wrappers
  import opened Model
  import opened FileNames

  /** The migration directory as read at call time: its listing, and the text of each readable file. */
  datatype Directory = Directory(listing: seq<string>, files: map<string, string>)

  /**
   * `loadAvailableMigration`: `Ok(None)` for a name that does not match, the loaded migration
   * otherwise. Building the display name comes first, then loading the file; the checksum is
   * that of the loaded text.
   */
  function LoadOne(dir: Directory, f: string, digest: string -> string): Result<Option<Migration>, Error> {
    match Parse(f)
    case None => Ok(None)
    case Some(p) =>
      match PrettyName(p.stem)
      case None => Err(EmptyName(f))
      case Some(name) =>
        if f !in dir.files then Err(Unreadable(f))
        else
          var text := dir.files[f];
          Ok(Some(Migration(DecimalValue(p.digits), name, p.kind, digest(text), text)))
  }

  /** The migrations found in the first entries `names` of the listing; the first failing load fails the whole discovery. */
  function Discover(dir: Directory, names: seq<string>, digest: string -> string): Result<seq<Migration>, Error>
    decreases |names|
  {
    if |names| == 0 then Ok([])
    else
      match Discover(dir, names[..|names| - 1], digest)
      case Err(e) => Err(e)
      case Ok(ms) =>
        match LoadOne(dir, names[|names| - 1], digest)
        case Err(e) => Err(e)
        case Ok(None) => Ok(ms)
        case Ok(Some(m)) => Ok(ms + [m])
  }

  /** The entries of a listing that match the pattern, in listing order. */
  function Accepted(names: seq<string>): seq<string>
    decreases |names|
  {
    if |names| == 0 then []
    else Accepted(names[..|names| - 1]) + (if Parse(names[|names| - 1]).Some? then [names[|names| - 1]] else [])
  }

  /** `m` is what loading the matching file `f` yields. */
  predicate LoadedFrom(m: Migration, f: string, dir: Directory, digest: string -> string) {
    Parse(f).Some? &&
    var p := Parse(f).value;
    m.version == DecimalValue(p.digits) &&
    m.kind == p.kind &&
    PrettyName(p.stem) == Some(m.name) &&
    f in dir.files && m.source == dir.files[f] && m.checksum == digest(m.source)
  }

  /** A matching file that cannot be loaded: its name part is empty, or it cannot be read. */
  predicate Unloadable(f: string, dir: Directory) {
    Parse(f).Some? && (|Parse(f).value.stem| == 0 || f !in dir.files)
  }

  /** The error loading an unloadable file throws. */
  function LoadError(f: string, dir: Directory): Error
    requires Unloadable(f, dir)
  {
    if |Parse(f).value.stem| == 0 then EmptyName(f) else Unreadable(f)
  }

  /** Loading one entry: skipped when it does not match, the load error when it cannot be loaded, the loaded migration otherwise. */
  lemma LoadOneCases(dir: Directory, f: string, digest: string -> string)
    ensures Parse(f).None? ==> LoadOne(dir, f, digest) == Ok(None)
    ensures Unloadable(f, dir) ==> LoadOne(dir, f, digest) == Err(LoadError(f, dir))
    ensures Parse(f).Some? && !Unloadable(f, dir) ==>
      LoadOne(dir, f, digest).Ok? && LoadOne(dir, f, digest).value.Some? &&
      LoadedFrom(LoadOne(dir, f, digest).value.value, f, dir, digest)
  {
  }

  /**
   * Discovery yields one migration per matching entry, in listing order (no sorting by
   * version), each with the version, format, display name and checksum of its file; it
   * fails exactly when some matching entry cannot be loaded.
   */
  lemma {:induction false} DiscoverSpec(dir: Directory, names: seq<string>, digest: string -> string)
    ensures Discover(dir, names, digest).Ok? <==> forall f :: f in Accepted(names) ==> !Unloadable(f, dir)
    ensures Discover(dir, names, digest).Ok? ==>
      var ms := Discover(dir, names, digest).value;
      var acc := Accepted(names);
      |ms| == |acc| && forall k :: 0 <= k < |ms| ==> LoadedFrom(ms[k], acc[k], dir, digest)
    decreases |names|
  {
    if |names| > 0 {
      var init, f := names[..|names| - 1], names[|names| - 1];
      DiscoverSpec(dir, init, digest);
      LoadOneCases(dir, f, digest);
      assert Accepted(names) == Accepted(init) + (if Parse(f).Some? then [f] else []);
    }
  }

  /** `k` is the first entry of `acc` that cannot be loaded. */
  predicate FirstUnloadable(acc: seq<string>, k: int, dir: Directory) {
    0 <= k < |acc| && Unloadable(acc[k], dir) && forall j :: 0 <= j < k ==> !Unloadable(acc[j], dir)
  }

  /** The failure reported is that of the first unloadable matching entry. */
  lemma {:induction false} DiscoverReportsFirstFailure(dir: Directory, names: seq<string>, digest: string -> string)
    requires Discover(dir, names, digest).Err?
    ensures exists k ::
              FirstUnloadable(Accepted(names), k, dir) &&
              Discover(dir, names, digest).error == LoadError(Accepted(names)[k], dir)
    decreases |names|
  {
    var init, f := names[..|names| - 1], names[|names| - 1];
    var acc, accInit := Accepted(names), Accepted(init);
    assert acc == accInit + (if Parse(f).Some? then [f] else []);
    LoadOneCases(dir, f, digest);
    if Discover(dir, init, digest).Err? {
      DiscoverReportsFirstFailure(dir, init, digest);
      var k :| FirstUnloadable(accInit, k, dir) && Discover(dir, init, digest).error == LoadError(accInit[k], dir);
      assert acc[k] == accInit[k];
      assert FirstUnloadable(acc, k, dir);
    } else {
      DiscoverSpec(dir, init, digest);
      var k := |accInit|;
      assert acc[k] == f;
      assert FirstUnloadable(acc, k, dir);
    }
  }

  /** `loadAvailableMigrations`: walk the listing, keep what loads, stop at the first load that fails. */
  method LoadAvailableMigrations(dir: Directory, digest: string -> string) returns (r: Result<seq<Migration>, Error>)
    ensures r == Discover(dir, dir.listing, digest)
  {
    var migrations: seq<Migration> := [];
    var i := 0;
    while i < |dir.listing|
      invariant 0 <= i <= |dir.listing|
      invariant Discover(dir, dir.listing[..i], digest) == Ok(migrations)
    {
      var file := dir.listing[i];
      assert dir.listing[..i + 1][..i] == dir.listing[..i];
      var m := LoadOne(dir, file, digest);
      if m.Err? {
        assert Discover(dir, dir.listing[..i + 1], digest) == Err(m.error);
        DiscoverStopsAtError(dir, dir.listing, i + 1, digest);
        return Err(m.error);
      }
      if m.value.Some? {
        migrations := migrations + [m.value.value];
      }
      i := i + 1;
    }
    assert dir.listing[..i] == dir.listing;
    return Ok(migrations);
  }

  /** Once discovery of a prefix fails, discovery of the whole listing fails the same way. */
  lemma {:induction false} DiscoverStopsAtError(dir: Directory, names: seq<string>, n: nat, digest: string -> string)
    requires n <= |names| && Discover(dir, names[..n], digest).Err?
    ensures Discover(dir, names, digest) == Discover(dir, names[..n], digest)
    decreases |names| - n
  {
    if n < |names| {
      assert names[..n + 1][..n] == names[..n];
      DiscoverStopsAtError(dir, names, n + 1, digest);
    } else {
      assert names[..n] == names;
    }
  }
}
