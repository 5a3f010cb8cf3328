/** `RouteLoader` (src/handler/RouteLoader.js): mounts every `.js` file of the routes directory on
    the main router, at a path derived from its file name. The directory listing and `require` are
    parameters: `load(file)` is the router module the file exports, or the error its loading
    throws. */
module RouteLoader {
  import opened Wrappers
  import opened Text

  /** `mainRouter.use(path, route)`; `route` identifies the loaded router module. */
  datatype Mount = Mount(path: string, route: nat)

  /** `files.filter(file => file.endsWith('.js'))`. */
  function JsFiles(listing: seq<string>): (r: seq<string>)
    ensures forall f :: f in r <==> f in listing && EndsWith(f, ".js")
    ensures forall k :: 0 <= k < |r| ==> EndsWith(r[k], ".js")
    ensures |r| <= |listing|
    decreases |listing|
  {
    if |listing| == 0 then []
    else (if EndsWith(listing[0], ".js") then [listing[0]] else []) + JsFiles(listing[1..])
  }

  /** The filter keeps the listing's order: filtering a listing in two parts is filtering each part. */
  lemma {:induction false} JsFilesAppend(a: seq<string>, b: seq<string>)
    ensures JsFiles(a + b) == JsFiles(a) + JsFiles(b)
    decreases |a|
  {
    if |a| > 0 {
      JsFilesAppend(a[1..], b);
      assert (a + b)[1..] == a[1..] + b;
    } else {
      assert a + b == b;
    }
  }

  /** `path.basename(file, '.js')` for a bare directory entry ending in `.js`. */
  function RouteBase(file: string): (base: string)
    ensures EndsWith(file, ".js") ==> base + ".js" == file
  {
    if |file| >= 3 then file[..|file| - 3] else file
  }

  /** The mount path of a route file: `index.js` mounts at `/`, `name.js` at `/name`. */
  function RoutePath(file: string): (p: string)
    ensures file == "index.js" ==> p == "/"
    ensures EndsWith(file, ".js") && file != "index.js" ==> p == "/" + RouteBase(file)
    ensures |p| >= 1 && p[0] == '/'
  {
    var base := RouteBase(file);
    if base == "index" then "/" else "/" + base
  }

  /** Two route files with a name before `.js` never share a mount path. */
  lemma RoutePathInjective(f: string, g: string)
    requires EndsWith(f, ".js") && EndsWith(g, ".js") && f != ".js" && g != ".js"
    requires RoutePath(f) == RoutePath(g)
    ensures f == g
  {
    var bf, bg := RouteBase(f), RouteBase(g);
    assert |bf| > 0 && |bg| > 0;
    if bf != "index" && bg != "index" {
      assert bf == RoutePath(f)[1..] && bg == RoutePath(g)[1..];
    }
  }

  /** The bare file `.js` has the empty base name and so mounts at `/`, like `index.js`: this is the
      one collision among route files. */
  lemma BareJsSharesRoot()
    ensures RouteBase(".js") == "" && RoutePath(".js") == "/" && RoutePath(".js") == RoutePath("index.js")
  {
    assert RouteBase(".js") == ".js"[..0];
  }

  /** The mount one file contributes: none when loading it throws. */
  function MountOf(file: string, load: string -> Result<nat>): (r: seq<Mount>)
    ensures |r| == if load(file).Ok? then 1 else 0
    ensures load(file).Ok? ==> r[0] == Mount(RoutePath(file), load(file).value)
  {
    match load(file)
    case Ok(route) => [Mount(RoutePath(file), route)]
    case Err(_) => []
  }

  /** The mounts of a run over `files`, in listing order. */
  function Mounted(files: seq<string>, load: string -> Result<nat>): (r: seq<Mount>)
    decreases |files|
  {
    if |files| == 0 then []
    else Mounted(files[..|files| - 1], load) + MountOf(files[|files| - 1], load)
  }

  /** The mounts of two stretches of the listing are those of the first followed by those of the
      second. */
  lemma {:induction false} MountedAppend(a: seq<string>, b: seq<string>, load: string -> Result<nat>)
    ensures Mounted(a + b, load) == Mounted(a, load) + Mounted(b, load)
    decreases |b|
  {
    if |b| == 0 {
      assert a + b == a;
    } else {
      var b0 := b[..|b| - 1];
      MountedAppend(a, b0, load);
      assert (a + b)[..|a + b| - 1] == a + b0;
      assert (a + b)[|a + b| - 1] == b[|b| - 1];
      MountsAssoc(Mounted(a, load), Mounted(b0, load), MountOf(b[|b| - 1], load));
    }
  }

  lemma FailedAlone(f: string, load: string -> Result<nat>)
    requires load(f).Err?
    ensures Mounted([f], load) == []
  {
    assert [f][..|[f]| - 1] == [] && [f][|[f]| - 1] == f;
  }

  /** A file whose loading throws contributes nothing, and the files after it are still mounted. */
  lemma FailedLoadSkipped(a: seq<string>, f: string, b: seq<string>, load: string -> Result<nat>)
    requires load(f).Err?
    ensures Mounted(a + [f] + b, load) == Mounted(a, load) + Mounted(b, load)
  {
    FailedAlone(f, load);
    MountedAppend(a, [f], load);
    var af := a + [f];
    var ma := Mounted(a, load);
    assert Mounted(af, load) == ma + [];
    assert ma + [] == ma;
    MountedAppend(af, b, load);
  }

  /** Every mount comes from a file of the listing that loaded. */
  lemma {:induction false} MountsFromFiles(files: seq<string>, load: string -> Result<nat>, k: nat)
    requires k < |Mounted(files, load)|
    ensures exists j :: (0 <= j < |files| && load(files[j]).Ok?
      && Mounted(files, load)[k] == Mount(RoutePath(files[j]), load(files[j]).value))
    decreases |files|
  {
    var init := files[..|files| - 1];
    var last := files[|files| - 1];
    if k < |Mounted(init, load)| {
      MountsFromFiles(init, load, k);
      var j :| 0 <= j < |init| && load(init[j]).Ok? && Mounted(init, load)[k] == Mount(RoutePath(init[j]), load(init[j]).value);
      assert files[j] == init[j];
    } else {
      assert Mounted(files, load)[k] == MountOf(last, load)[0];
    }
  }

  lemma MountsAssoc(a: seq<Mount>, b: seq<Mount>, c: seq<Mount>)
    ensures (a + b) + c == a + (b + c)
  {
  }

  /** One more file of the listing adds its own mount, if any, at the end. */
  lemma MountedSnoc(files: seq<string>, i: nat, load: string -> Result<nat>)
    requires i < |files|
    ensures Mounted(files[..i + 1], load) == Mounted(files[..i], load) + MountOf(files[i], load)
  {
    assert files[..i + 1][..i] == files[..i];
    assert files[..i + 1][i] == files[i];
  }

  /** The main router and what `_loadRoutes` reported: `count` is `Some(n)` after the closing log
      line "n Route(n) erfolgreich geladen.", `None` when a missing directory or an empty listing
      returned early. */
  class Loader {
    var mounts: seq<Mount>
    var count: Option<nat>

    /** `new RouteLoader(routesPath)`: an empty router, then `_loadRoutes`. */
    constructor (dirExists: bool, listing: seq<string>, load: string -> Result<nat>)
      ensures !dirExists || JsFiles(listing) == [] ==> mounts == [] && count == None
      ensures dirExists && JsFiles(listing) != [] ==>
        mounts == Mounted(JsFiles(listing), load) && count == Some(|JsFiles(listing)|)
    {
      mounts, count := [], None;
      new;
      LoadRoutes(dirExists, listing, load);
    }

    /** `_loadRoutes()`: mounts every `.js` file that loads, in listing order; the count it reports
        includes the files that failed. */
    method LoadRoutes(dirExists: bool, listing: seq<string>, load: string -> Result<nat>)
      modifies this
      ensures !dirExists || JsFiles(listing) == [] ==> mounts == old(mounts) && count == old(count)
      ensures dirExists && JsFiles(listing) != [] ==>
        mounts == old(mounts) + Mounted(JsFiles(listing), load) && count == Some(|JsFiles(listing)|)
    {
      if !dirExists {
        return;
      }
      var files := JsFiles(listing);
      if |files| == 0 {
        return;
      }
      MountAll(files, load);
      count := Some(|files|);
    }

    /** The `for … of` loop of `_loadRoutes`: each file is loaded and mounted in turn; a file whose
        loading throws is skipped. */
    method MountAll(files: seq<string>, load: string -> Result<nat>)
      modifies this`mounts
      ensures mounts == old(mounts) + Mounted(files, load)
    {
      ghost var m0 := mounts;
      var i := 0;
      while i < |files|
        invariant 0 <= i <= |files|
        invariant mounts == m0 + Mounted(files[..i], load)
      {
        var file := files[i];
        MountedSnoc(files, i, load);
        ghost var done := Mounted(files[..i], load);
        var loaded := load(file);
        ghost var added := MountOf(file, load);
        if loaded.Ok? {
          mounts := mounts + [Mount(RoutePath(file), loaded.value)];
          assert added == [Mount(RoutePath(file), loaded.value)];
        } else {
          assert added == [];
        }
        MountsAssoc(m0, done, added);
        i := i + 1;
      }
      assert files[..i] == files;
    }
  }
}
