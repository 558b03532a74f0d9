/**
 * The application's path helpers (src/Ignite/Foundation/Application.php):
 * a base path without trailing separators, the `app` directory (or a
 * directory chosen with useAppPath), and the `bootstrap` directory, each
 * optionally followed by a relative path. setBasePath and useAppPath also
 * bind these paths in the container under `path`, `path.base` and
 * `path.bootstrap`. The bindings are a map of strings here.
 *
 * The properties `basePath` and `appPath` are typed strings without a
 * default: reading one before it is assigned throws PHP's Error, modelled
 * as Uninitialized. DIRECTORY_SEPARATOR is `/`.
 */
module Foundation {
  import opened Wrappers
  import opened Strings

  const Version := "0.0.1"

  const Separator := "/"

  /** The characters setBasePath trims from the end: `/` and `\`. */
  const TrailingSeparators: set<char> := {'/', '\\'}

  datatype AppError = Uninitialized(property: string)

  /** A separator and the path, or nothing for the empty path. */
  function Suffix(path: string): string {
    if path != "" then Separator + path else ""
  }

  /** basePath(path) */
  function BasePath(basePath: Option<string>, path: string): (r: Result<string, AppError>)
    ensures basePath.None? <==> r == Err(Uninitialized("basePath"))
    ensures basePath.Some? && path == "" ==> r == Ok(basePath.value)
    ensures basePath.Some? && path != "" ==> r == Ok(basePath.value + "/" + path)
  {
    match basePath
    case None => Err(Uninitialized("basePath"))
    case Some(b) =>
      assert b + "" == b && (path != "" ==> b + Suffix(path) == b + "/" + path);
      Ok(b + Suffix(path))
  }

  /** bootstrapPath(path) */
  function BootstrapPath(basePath: Option<string>, path: string): (r: Result<string, AppError>)
    ensures basePath.Some? ==> BasePath(basePath, "bootstrap").Ok?
    ensures basePath.Some? ==> r == Ok(BasePath(basePath, "bootstrap").value + Suffix(path))
    ensures basePath.None? ==> r == Err(Uninitialized("basePath"))
  {
    match basePath
    case None => Err(Uninitialized("basePath"))
    case Some(b) => Ok(b + Separator + "bootstrap" + Suffix(path))
  }

  /**
   * path(path) as written: `$this->appPath ?: …` reads `appPath` first, so
   * before useAppPath it throws instead of falling back to `app`.
   */
  function AppPathAsWritten(basePath: Option<string>, appPath: Option<string>, path: string): Result<string, AppError> {
    match appPath
    case None => Err(Uninitialized("appPath"))
    case Some(a) =>
      if Truthy(a) then Ok(a + Suffix(path))
      else match basePath
        case None => Err(Uninitialized("basePath"))
        case Some(b) => Ok(b + Separator + "app" + Suffix(path))
  }

  /** path(path) as intended: the chosen directory when one is set and not empty or "0", else base/app. */
  function AppPath(basePath: Option<string>, appPath: Option<string>, path: string): (r: Result<string, AppError>)
    ensures appPath.Some? && Truthy(appPath.value) ==> r == Ok(appPath.value + Suffix(path))
    ensures !(appPath.Some? && Truthy(appPath.value)) ==>
      r == (match BasePath(basePath, "app")
            case Ok(p) => Ok(p + Suffix(path))
            case Err(e) => Err(e))
  {
    if appPath.Some? && Truthy(appPath.value) then Ok(appPath.value + Suffix(path))
    else match basePath
      case None => Err(Uninitialized("basePath"))
      case Some(b) => Ok(b + Separator + "app" + Suffix(path))
  }

  /** The bindings setBasePath makes, for a base path and an app directory. */
  function PathBindings(base: string, appPath: Option<string>): map<string, string> {
    map[
      "path" := AppPath(Some(base), appPath, "").value,
      "path.base" := base,
      "path.bootstrap" := BootstrapPath(Some(base), "").value]
  }

  class Application {
    var basePath: Option<string>
    var appPath: Option<string>
    var bindings: map<string, string>

    /** A base path that PHP reads as true is set; registerBaseBindings' object bindings are not part of this model. */
    constructor(basePath: Option<string>)
      ensures basePath.Some? && Truthy(basePath.value) ==>
        this.basePath == Some(RTrim(basePath.value, TrailingSeparators))
        && bindings == PathBindings(RTrim(basePath.value, TrailingSeparators), None)
      ensures !(basePath.Some? && Truthy(basePath.value)) ==> this.basePath == None && bindings == map[]
      ensures appPath == None
    {
      this.basePath := None;
      appPath := None;
      bindings := map[];
      new;
      if basePath.Some? && Truthy(basePath.value) {
        SetBasePath(basePath.value);
      }
    }

    method GetVersion() returns (v: string)
      ensures v == "0.0.1"
    {
      v := Version;
    }

    /** setBasePath: trailing `/` and `\` removed, then path, path.base and path.bootstrap bound. */
    method SetBasePath(path: string)
      modifies this`basePath, this`bindings
      ensures basePath == Some(RTrim(path, TrailingSeparators))
      ensures bindings == old(bindings) + PathBindings(RTrim(path, TrailingSeparators), appPath)
    {
      basePath := Some(RTrim(path, TrailingSeparators));
      var app := Path("");
      var base := GetBasePath("");
      var bootstrap := GetBootstrapPath("");
      bindings := bindings["path" := app.value]["path.base" := base.value]["path.bootstrap" := bootstrap.value];
    }

    method Path(path: string) returns (r: Result<string, AppError>)
      ensures r == AppPath(basePath, appPath, path)
    {
      if appPath.Some? && Truthy(appPath.value) {
        return Ok(appPath.value + Suffix(path));
      }
      if basePath.None? {
        return Err(Uninitialized("basePath"));
      }
      return Ok(basePath.value + Separator + "app" + Suffix(path));
    }

    /** useAppPath: the directory is kept and bound as `path`. */
    method UseAppPath(path: string)
      modifies this`appPath, this`bindings
      ensures appPath == Some(path) && bindings == old(bindings)["path" := path]
    {
      appPath := Some(path);
      bindings := bindings["path" := path];
    }

    method GetBasePath(path: string) returns (r: Result<string, AppError>)
      ensures r == BasePath(basePath, path)
    {
      if basePath.None? {
        return Err(Uninitialized("basePath"));
      }
      return Ok(basePath.value + Suffix(path));
    }

    method GetBootstrapPath(path: string) returns (r: Result<string, AppError>)
      ensures r == BootstrapPath(basePath, path)
    {
      if basePath.None? {
        return Err(Uninitialized("basePath"));
      }
      return Ok(basePath.value + Separator + "bootstrap" + Suffix(path));
    }
  }

  /** A stored base path never ends with a separator, and storing it again changes nothing. */
  lemma BasePathTrimmed(path: string)
    ensures var b := RTrim(path, TrailingSeparators);
      (|b| == 0 || b[|b| - 1] !in TrailingSeparators) && RTrim(b, TrailingSeparators) == b
  {
  }

  /** Every trailing separator goes, however many there are and in whatever mix. */
  lemma {:induction false} TrailingSeparatorsRemoved(path: string, tail: string)
    requires forall i :: 0 <= i < |tail| ==> tail[i] in TrailingSeparators
    ensures RTrim(path + tail, TrailingSeparators) == RTrim(path, TrailingSeparators)
    decreases |tail|
  {
    if |tail| > 0 {
      assert (path + tail)[..|path + tail| - 1] == path + tail[..|tail| - 1];
      TrailingSeparatorsRemoved(path, tail[..|tail| - 1]);
    } else {
      assert path + tail == path;
    }
  }

  /** Without a chosen directory, the app path is the base path's `app` entry, and a relative path is added with one separator. */
  lemma AppPathUnderBase(base: string, path: string)
    ensures AppPath(Some(base), None, path) == Ok(base + "/app" + Suffix(path))
    ensures AppPath(Some(base), None, path) == Ok(BasePath(Some(base), "app").value + Suffix(path))
  {
    assert base + Separator + "app" == base + "/app";
  }

  /** An empty or "0" directory from useAppPath is ignored in favour of base/app. */
  lemma FalsyAppPathIgnored(base: string, appPath: string, path: string)
    requires appPath == "" || appPath == "0"
    ensures AppPath(Some(base), Some(appPath), path) == AppPath(Some(base), None, path)
  {
  }

  /** The code and the intent agree once useAppPath has run. */
  lemma AppPathAgreesOnceChosen(basePath: Option<string>, appPath: string, path: string)
    ensures AppPathAsWritten(basePath, Some(appPath), path) == AppPath(basePath, Some(appPath), path)
  {
  }

  /** As written, path() before useAppPath throws, so setBasePath, and the constructor given a base path, fail. */
  lemma AppPathUnsetAsWritten(basePath: Option<string>, path: string)
    ensures AppPathAsWritten(basePath, None, path) == Err(Uninitialized("appPath"))
    ensures basePath.Some? ==> AppPath(basePath, None, path).Ok?
  {
  }

  /** After setBasePath, the three bindings agree with the path helpers. */
  lemma BindingsMatchHelpers(base: string, appPath: Option<string>)
    ensures var b := PathBindings(base, appPath);
      && b["path.base"] == BasePath(Some(base), "").value
      && b["path.bootstrap"] == base + "/bootstrap"
      && b["path"] == (if appPath.Some? && Truthy(appPath.value) then appPath.value else base + "/app")
  {
    assert base + "" == base;
    assert base + Separator + "bootstrap" + "" == base + "/bootstrap";
    assert base + Separator + "app" + "" == base + "/app";
    if appPath.Some? {
      assert appPath.value + "" == appPath.value;
    }
  }
}
