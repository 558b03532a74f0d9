/**
 * Uploaded files (src/Ignite/Http/File/UploadedFile.php): the client's
 * file name, mime type, size and upload error, and the `upload_max_filesize`
 * setting read as a byte count.
 *
 * The php.ini values and the file-system tests are parameters.
 */
module UploadedFiles {
  import opened Wrappers
  import opened Strings
  import Files

  const UploadErrOk: int := 0
  const OctetStream := "application/octet-stream"

  predicate IsDigit(c: char) {
    '0' <= c <= '9'
  }

  /** Length of the run of digits `s` starts with. */
  function DigitRun(s: string): (r: nat)
    ensures r <= |s|
  {
    if |s| == 0 || !IsDigit(s[0]) then 0 else 1 + DigitRun(s[1..])
  }

  function DigitValue(c: char): int {
    c as int - '0' as int
  }

  /** The value of a string of decimal digits. */
  function DecimalValue(ds: string): int {
    if |ds| == 0 then 0
    else DecimalValue(ds[..|ds| - 1]) * 10 + DigitValue(ds[|ds| - 1])
  }

  /** The integer a leading-numeric string starts with (sign, then digits), or None for a non-numeric one. */
  function LeadingNumber(t: string): (r: Option<int>)
    ensures r.Some? <==> DigitRun(if |t| > 0 && (t[0] == '-' || t[0] == '+') then t[1..] else t) > 0
  {
    var signed := |t| > 0 && (t[0] == '-' || t[0] == '+');
    var body := if signed then t[1..] else t;
    var k := DigitRun(body);
    if k == 0 then None
    else
      var v: int := DecimalValue(body[..k]);
      Some(if signed && t[0] == '-' then -v else v)
  }

  /** `n` in the unit the suffix names: gibi-, mebi- or kibibytes, else bytes. */
  function Scale(n: int, unit: char): int {
    if unit == 'g' then n * 1073741824
    else if unit == 'm' then n * 1048576
    else if unit == 'k' then n * 1024
    else n
  }

  /** `$max *= 1024` on a non-numeric string is a TypeError. */
  datatype SizeError = NonNumericSize(setting: string)

  /** getMaxFileSize, given the `upload_max_filesize` setting. */
  function MaxFileSize(setting: string): Result<int, SizeError> {
    var t := Trim(setting);
    if t == "" then Ok(PhpIntMax) else SizeOf(t)
  }

  /** The byte count of a trimmed, non-empty setting. */
  function SizeOf(t: string): Result<int, SizeError>
    requires t != ""
  {
    var unit := LowerChar(t[|t| - 1]);
    if unit == 'g' || unit == 'm' || unit == 'k' then
      match LeadingNumber(t)
      case None => Err(NonNumericSize(t))
      case Some(n) => Ok(Scale(n, unit))
    else Ok(LeadingNumber(t).GetOr(0))
  }

  /** getMaxFileSize: the switch on the lower-cased last character falls through from g to m to k. */
  method GetMaxFileSize(setting: string) returns (r: Result<int, SizeError>)
    ensures r == MaxFileSize(setting)
  {
    var max := Trim(setting);
    if max == "" {
      return Ok(PhpIntMax);
    }
    var unit := LowerChar(max[|max| - 1]);
    if unit != 'g' && unit != 'm' && unit != 'k' {
      return Ok(LeadingNumber(max).GetOr(0));
    }
    var number := LeadingNumber(max);
    if number.None? {
      return Err(NonNumericSize(max));
    }
    var n := number.value;
    if unit == 'g' {
      n := n * 1024;
    }
    if unit == 'g' || unit == 'm' {
      n := n * 1024;
    }
    n := n * 1024;
    assert n == Scale(number.value, unit);
    return Ok(n);
  }

  lemma DigitNotWhitespace(c: char)
    requires IsDigit(c)
    ensures c !in Whitespace
  {
  }

  lemma {:induction false} DigitRunWhole(ds: string)
    requires forall i :: 0 <= i < |ds| ==> IsDigit(ds[i])
    decreases |ds|
    ensures DigitRun(ds) == |ds|
  {
    if |ds| > 0 {
      DigitRunWhole(ds[1..]);
    }
  }

  lemma {:induction false} DigitRunAll(ds: string, rest: string)
    requires forall i :: 0 <= i < |ds| ==> IsDigit(ds[i])
    requires |rest| == 0 || !IsDigit(rest[0])
    decreases |ds|
    ensures DigitRun(ds + rest) == |ds|
  {
    if |ds| > 0 {
      assert (ds + rest)[1..] == ds[1..] + rest;
      DigitRunAll(ds[1..], rest);
    } else {
      assert ds + rest == rest;
    }
  }

  /** A number of digits followed by a unit letter, either case, is scaled by that unit. */
  lemma UnitScaling(ds: string, unit: char)
    requires |ds| > 0 && forall i :: 0 <= i < |ds| ==> IsDigit(ds[i])
    requires unit in "gGmMkK"
    ensures MaxFileSize(ds + [unit]) == Ok(Scale(DecimalValue(ds), LowerChar(unit)))
  {
    var t := ds + [unit];
    DigitNotWhitespace(ds[0]);
    TrimNothing(t);
    DigitRunAll(ds, [unit]);
    assert t[..|ds|] == ds;
    assert LeadingNumber(t) == Some(DecimalValue(ds));
    assert SizeOf(t) == Ok(Scale(DecimalValue(ds), LowerChar(unit)));
  }

  lemma TrimDigits(ds: string)
    requires |ds| > 0 && forall i :: 0 <= i < |ds| ==> IsDigit(ds[i])
    ensures Trim(ds) == ds
  {
    DigitNotWhitespace(ds[0]);
    DigitNotWhitespace(ds[|ds| - 1]);
    TrimNothing(ds);
  }

  lemma LeadingDigits(ds: string)
    requires |ds| > 0 && forall i :: 0 <= i < |ds| ==> IsDigit(ds[i])
    ensures LeadingNumber(ds) == Some(DecimalValue(ds))
  {
    DigitRunWhole(ds);
    assert ds[..|ds|] == ds;
  }

  /** A plain number is read as it is. */
  lemma NoUnit(ds: string)
    requires |ds| > 0 && forall i :: 0 <= i < |ds| ==> IsDigit(ds[i])
    ensures MaxFileSize(ds) == Ok(DecimalValue(ds))
  {
    TrimDigits(ds);
    LeadingDigits(ds);
    NoUnitSize(ds);
  }

  lemma NoUnitSize(ds: string)
    requires |ds| > 0 && IsDigit(ds[|ds| - 1])
    requires LeadingNumber(ds) == Some(DecimalValue(ds))
    ensures SizeOf(ds) == Ok(DecimalValue(ds))
  {
  }

  /** An empty setting means no limit. */
  lemma EmptySettingUnlimited(setting: string)
    requires forall i :: 0 <= i < |setting| ==> setting[i] == ' '
    ensures MaxFileSize(setting) == Ok(PhpIntMax)
  {
    LTrimBlank(setting);
    assert RTrim("", Whitespace) == "";
  }

  lemma {:induction false} LTrimBlank(s: string)
    requires forall i :: 0 <= i < |s| ==> s[i] == ' '
    decreases |s|
    ensures LTrim(s, Whitespace) == ""
  {
    if |s| > 0 {
      LTrimBlank(s[1..]);
    }
  }

  lemma MegabytesExample()
    ensures MaxFileSize("2M") == Ok(2097152)
  {
    UnitScaling("2", 'M');
    assert DecimalValue("2") == 2 by {
      assert "2"[..0] == "";
    }
    assert "2" + ['M'] == "2M";
    assert Scale(2, LowerChar('M')) == 2097152;
  }

  lemma GigabytesExample()
    ensures MaxFileSize("1g") == Ok(1073741824)
  {
    UnitScaling("1", 'g');
    assert DecimalValue("1") == 1 by {
      assert "1"[..0] == "";
    }
    assert "1" + ['g'] == "1g";
    assert Scale(1, LowerChar('g')) == 1073741824;
  }

  /** A unit with no number in front is a TypeError. */
  lemma BareUnitFails()
    ensures MaxFileSize("K") == Err(NonNumericSize("K"))
  {
    TrimNothing("K");
    assert DigitRun("K") == 0;
  }

  /** Why constructing an uploaded file fails. */
  datatype FileError =
    | UploadsDisabled
      /** `$size` is assigned to a property typed string: null is a TypeError. */
    | SizeNotString
    | FileNotFound(path: string)
    | NotUploaded(path: string)

  /** SplFileInfo::getBasename on a `/`-separated path. */
  function BaseName(path: string): (r: string)
    ensures '/' !in r
  {
    match LastIndexOf(path, '/')
    case None => path
    case Some(p) => path[p + 1..]
  }

  /** The path getTargetFile builds. */
  function TargetPath(directory: string, name: Option<string>, path: string): string {
    directory + "/" + (if name.None? then BaseName(path) else Files.GetName(name.value))
  }

  class UploadedFile {
    const path: string
    const originalName: string
    const mimeType: string
    const size: string
    const error: int
    const test: bool

    predicate IsValid()
    {
      error == UploadErrOk
    }

    constructor(path: string, originalName: string, mimeType: string, size: string, error: int, test: bool)
      ensures this.path == path && this.originalName == originalName && this.mimeType == mimeType
      ensures this.size == size && this.error == error && this.test == test
    {
      this.path := path;
      this.originalName := originalName;
      this.mimeType := mimeType;
      this.size := size;
      this.error := error;
      this.test := test;
    }

    /** The PHP constructor: fails when uploads are off, when no size is given, or, for a valid upload, when the path is no file. */
    static method Create(path: string, originalName: string, mimeType: Option<string>, size: Option<string>,
                         error: Option<int>, test: bool, fileUploads: bool, isFile: bool)
      returns (r: Result<UploadedFile, FileError>)
      ensures !fileUploads ==> r == Err(UploadsDisabled)
      ensures fileUploads && size.None? ==> r == Err(SizeNotString)
      ensures fileUploads && size.Some? && error.GetOr(UploadErrOk) == UploadErrOk && !isFile ==> r == Err(FileNotFound(path))
      ensures r.Ok? <==> fileUploads && size.Some? && (error.GetOr(UploadErrOk) != UploadErrOk || isFile)
      ensures r.Ok? ==>
        && r.value.path == path
        && r.value.originalName == Files.GetName(originalName)
        && r.value.mimeType == mimeType.GetOr(OctetStream)
        && r.value.size == size.value
        && r.value.error == error.GetOr(UploadErrOk)
        && r.value.test == test
    {
      if !fileUploads {
        return Err(UploadsDisabled);
      }
      if size.None? {
        return Err(SizeNotString);
      }
      var e := error.GetOr(UploadErrOk);
      if e == UploadErrOk && !isFile {
        return Err(FileNotFound(path));
      }
      var f := new UploadedFile(path, Files.GetName(originalName), mimeType.GetOr(OctetStream), size.value, e, test);
      return Ok(f);
    }

    /** move: only a valid upload moves, in test mode or when PHP saw it uploaded over HTTP. */
    method Move(directory: string, name: Option<string>, uploaded: bool) returns (r: Result<string, FileError>)
      ensures r.Ok? <==> IsValid() && (test || uploaded)
      ensures r.Ok? ==> r.value == TargetPath(directory, name, path)
      ensures r.Err? ==> r.error == NotUploaded(path)
    {
      if IsValid() {
        if test {
          return Ok(TargetPath(directory, name, path));
        } else if uploaded {
          return Ok(TargetPath(directory, name, path));
        }
      }
      return Err(NotUploaded(path));
    }
  }

  /** The client name keeps only its base name: no separator survives. */
  lemma OriginalNameIsBaseName(f: UploadedFile, given: string)
    requires f.originalName == Files.GetName(given)
    ensures '/' !in f.originalName && '\\' !in f.originalName
  {
  }
}
