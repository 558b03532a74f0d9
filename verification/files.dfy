/**
 * File helpers (src/Ignite/Http/File/File.php): the locale-independent
 * base name of a client file name, and the extension a mime type maps to.
 */
module Files {
  import opened Wrappers
  import opened Strings

  /** getName: `\` read as `/`, then the text after the last `/`. */
  function GetName(name: string): (r: string)
    ensures '/' !in r && '\\' !in r
    ensures var n := ReplaceChar(name, '\\', '/'); |r| <= |n| && r == n[|n| - |r|..]
    ensures '/' !in name && '\\' !in name ==> r == name
  {
    var n := ReplaceChar(name, '\\', '/');
    match LastIndexOf(n, '/')
    case None =>
      assert n == name by {
        assert forall i :: 0 <= i < |name| ==> name[i] != '\\';
      }
      n
    case Some(p) => n[p + 1..]
  }

  /** The name keeps everything after the last separator of either kind. */
  lemma GetNameAfterSeparator(prefix: string, sep: char, base: string)
    requires sep == '/' || sep == '\\'
    requires '/' !in base && '\\' !in base
    ensures GetName(prefix + [sep] + base) == base
  {
    var s := prefix + [sep] + base;
    var n := ReplaceChar(s, '\\', '/');
    assert n[|prefix|] == '/';
    assert n[|prefix| + 1..] == base;
    assert n[|prefix|] in n[|prefix|..];
    var p := LastIndexOf(n, '/');
    assert forall j :: |prefix| < j < |n| ==> n[j] != '/';
  }

  /** A name is its own name: getName is idempotent. */
  lemma GetNameIdempotent(name: string)
    ensures GetName(GetName(name)) == GetName(name)
  {
  }

  /** The default extensions of File::$defaultExtensions. */
  const DefaultExtensions: map<string, string> := map[
    "application/andrew-inset" := "ez",
    "application/appledouble" := "base64",
    "application/applefile" := "base64",
    "application/commonground" := "dp"]

  /** guessExtension, given the mime type the guesser returned. */
  function GuessExtension(mimeType: string): (r: Option<string>)
    ensures r.Some? <==> mimeType in DefaultExtensions
    ensures r.Some? ==> r.value == DefaultExtensions[mimeType]
  {
    if mimeType in DefaultExtensions then Some(DefaultExtensions[mimeType]) else None
  }

  lemma GuessExtensionExamples()
    ensures GuessExtension("application/andrew-inset") == Some("ez")
    ensures GuessExtension("application/applefile") == Some("base64")
    ensures GuessExtension("text/plain") == None
  {
  }
}
