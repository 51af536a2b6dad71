/**
  The upload checks: `validate_file` accepts a filename whose extension is
  on the allow-list, and `validate_dataset_content` accepts a loaded table
  with enough rows and columns and the target column.
 */
module Validators {
  import opened Wrappers
  import opened Text

  /** `APIError(message)`; its status code is always the default 400 here. */
  datatype APIError = APIError(message: string)

  const AllowedExtensions: set<string> := {"csv", "json", "xlsx", "xls"}

  const NoFileMessage: string := "No file provided"
  const InvalidTypeMessage: string := "Invalid file type. Allowed: CSV, JSON, Excel"

  /** `filename.rsplit('.', 1)[1].lower() if '.' in filename else ''` */
  function Extension(filename: string): (r: string)
    ensures '.' !in filename ==> r == ""
    ensures '.' in filename ==> LastIndexOf(filename, '.').Some? && r == Lower(filename[LastIndexOf(filename, '.').value + 1..])
  {
    match LastIndexOf(filename, '.')
    case None => ""
    case Some(i) => Lower(filename[i + 1..])
  }

  /** The extension never holds a dot and is already lower case. */
  lemma ExtensionIsLowerSuffix(filename: string)
    ensures '.' !in Extension(filename)
    ensures Lower(Extension(filename)) == Extension(filename)
  {
    var r := Extension(filename);
    if '.' in filename {
      var tail := filename[LastIndexOf(filename, '.').value + 1..];
      assert forall j :: 0 <= j < |r| ==> r[j] == LowerChar(tail[j]) && tail[j] != '.';
      LowerIdempotent(tail);
    }
  }

  /** The last dot of `base + "." + ext` is the one before `ext` when `ext` has none. */
  lemma {:induction false} LastDotBeforeSuffix(base: string, ext: string)
    requires '.' !in ext
    ensures LastIndexOf(base + "." + ext, '.') == Some(|base|)
    decreases |ext|
  {
    var s := base + "." + ext;
    if ext == [] {
      assert s[|s| - 1] == '.';
    } else {
      var init := ext[..|ext| - 1];
      assert s[..|s| - 1] == base + "." + init;
      assert s[|s| - 1] == ext[|ext| - 1];
      assert ext == init + [ext[|ext| - 1]];
      LastDotBeforeSuffix(base, init);
    }
  }

  /** `validate_file`; `file` is the upload's filename, None when there is no upload. */
  function ValidateFile(file: Option<string>): (r: Result<string, APIError>)
    ensures file.None? || file.value == "" ==> r == Failure(APIError(NoFileMessage))
    ensures r.Success? <==> file.Some? && file.value != "" && Extension(file.value) in AllowedExtensions
    ensures r.Success? ==> r.value in AllowedExtensions && r.value == Extension(file.value)
    ensures r.Failure? && file.Some? && file.value != "" ==> r.error == APIError(InvalidTypeMessage)
  {
    if file.None? || file.value == "" then Failure(APIError(NoFileMessage))
    else
      var extension := Extension(file.value);
      if extension !in AllowedExtensions then Failure(APIError(InvalidTypeMessage))
      else Success(extension)
  }

  /**
    An upload named `base.ext` is accepted exactly when `ext`, lower-cased,
    is on the allow-list, and then that is the extension returned; the base
    name may hold dots of its own.
   */
  lemma UploadNamedByExtension(base: string, ext: string)
    requires '.' !in ext
    ensures ValidateFile(Some(base + "." + ext)).Success? <==> Lower(ext) in AllowedExtensions
    ensures Lower(ext) in AllowedExtensions ==> ValidateFile(Some(base + "." + ext)) == Success(Lower(ext))
  {
    var name := base + "." + ext;
    assert name[|base|] == '.';
    LastDotBeforeSuffix(base, ext);
    assert name[|base| + 1..] == ext;
  }

  /** A name without a dot has the empty extension, which is never allowed. */
  lemma NoDotIsRejected(name: string)
    requires name != "" && '.' !in name
    ensures ValidateFile(Some(name)) == Failure(APIError(InvalidTypeMessage))
  {
  }

  // ------------------------------------------------------------ dataset content

  /** The shape of a loaded DataFrame. */
  datatype Frame = Frame(rows: nat, columns: seq<string>)

  datatype Reader = ReadCsv | ReadJson | ReadExcel

  /** 'csv' and 'json' have their own readers; every other extension is read as Excel. */
  function ReaderFor(extension: string): (r: Reader)
    ensures r == ReadCsv <==> extension == "csv"
    ensures r == ReadJson <==> extension == "json"
  {
    if extension == "csv" then ReadCsv
    else if extension == "json" then ReadJson
    else ReadExcel
  }

  /** The checks of `validate_dataset_content`, in the order they run. */
  datatype ContentError = Empty | TooFewColumns | TooFewRows | MissingTarget(target: string, available: seq<string>)

  /** `df.empty`: an axis of length zero. */
  predicate IsEmpty(df: Frame) {
    df.rows == 0 || |df.columns| == 0
  }

  /** The first check the table fails, if any. */
  function ContentCheck(df: Frame, target: string): (r: Option<ContentError>)
    ensures r.None? <==> df.rows >= 10 && |df.columns| >= 2 && target in df.columns
    ensures r == Some(Empty) <==> IsEmpty(df)
    ensures r == Some(TooFewColumns) ==> !IsEmpty(df) && |df.columns| < 2
    ensures r == Some(TooFewRows) ==> |df.columns| >= 2 && df.rows < 10
    ensures r.Some? && r.value.MissingTarget? ==>
      df.rows >= 10 && |df.columns| >= 2 && r.value == MissingTarget(target, df.columns) && target !in df.columns
  {
    if IsEmpty(df) then Some(Empty)
    else if |df.columns| < 2 then Some(TooFewColumns)
    else if df.rows < 10 then Some(TooFewRows)
    else if target !in df.columns then Some(MissingTarget(target, df.columns))
    else None
  }

  /** Python's `repr` of a list of plain strings: `['a', 'b']`. */
  /** `str(list)` of column names: the quoted names between brackets. */
  function ListRepr(items: seq<string>): (r: string)
    ensures |r| >= 2 && r[0] == '[' && r[|r| - 1] == ']'
    ensures r == "[]" <==> items == []
    ensures items != [] ==> StartsWith(r, "['" + items[0] + "'")
  {
    "[" + JoinQuoted(items) + "]"
  }

  /** `', '.join` of the quoted names. */
  function JoinQuoted(items: seq<string>): (r: string)
    ensures r == "" <==> items == []
    ensures items != [] ==> StartsWith(r, "'" + items[0] + "'") && r[|r| - 1] == '\''
    ensures |items| > 1 ==> StartsWith(r, "'" + items[0] + "', '")
  {
    if items == [] then ""
    else if |items| == 1 then "'" + items[0] + "'"
    else "'" + items[0] + "', " + JoinQuoted(items[1..])
  }

  /** The message each check raises its `APIError` with. */
  function ContentMessage(e: ContentError): (r: string)
    ensures r != ""
    ensures e.MissingTarget? ==> StartsWith(r, "Target column '" + e.target + "' not found")
  {
    match e
    case Empty => "Dataset is empty"
    case TooFewColumns => "Dataset must have at least 2 columns"
    case TooFewRows => "Dataset must have at least 10 rows"
    case MissingTarget(target, available) =>
      "Target column '" + target + "' not found. Available columns: " + ListRepr(available)
  }

  const InvalidDatasetPrefix: string := "Invalid dataset file: "

  /**
    `str(e)` of an `APIError`: its constructor calls `Exception.__init__`
    with no arguments, so the text is empty whatever the message.
   */
  function ApiErrorText(e: APIError): (r: string)
    ensures |r| == 0
  {
    ""
  }

  /**
    `validate_dataset_content` as written. `read` stands for the pandas
    reader: the table, or the text of the exception it raised. Every
    exception is re-raised with the prefix; for the checks' own `APIError`s
    that prefix is followed by `str(e)`, which is empty.
   */
  function ValidateDatasetContentAsWritten(read: Reader -> Result<Frame, string>, extension: string, target: string)
    : (r: Result<Frame, APIError>)
    ensures r.Success? <==> read(ReaderFor(extension)).Success? && ContentCheck(read(ReaderFor(extension)).value, target).None?
    ensures r.Failure? ==> StartsWith(r.error.message, InvalidDatasetPrefix)
  {
    match read(ReaderFor(extension))
    case Failure(text) => Failure(APIError(InvalidDatasetPrefix + text))
    case Success(df) =>
      match ContentCheck(df, target)
      case Some(e) => Failure(APIError(InvalidDatasetPrefix + ApiErrorText(APIError(ContentMessage(e)))))
      case None => Success(df)
  }

  /**
    A table with too few rows is rejected as written, but the reason is
    dropped: the message is the bare prefix.
   */
  lemma ReasonIsLost()
    ensures var read := (_: Reader) => Success(Frame(5, ["x", "target"]));
      && ValidateDatasetContentAsWritten(read, "csv", "target") == Failure(APIError(InvalidDatasetPrefix))
      && ValidateDatasetContent(read, "csv", "target") == Failure(APIError(InvalidDatasetPrefix + "Dataset must have at least 10 rows"))
  {
    assert InvalidDatasetPrefix + "" == InvalidDatasetPrefix;
  }

  /**
    `validate_dataset_content` with the reason kept: a check's `APIError`
    is re-raised with its message after the prefix.
   */
  function ValidateDatasetContent(read: Reader -> Result<Frame, string>, extension: string, target: string)
    : (r: Result<Frame, APIError>)
    ensures r.Success? ==> read(ReaderFor(extension)) == Success(r.value)
    ensures r.Success? ==> r.value.rows >= 10 && |r.value.columns| >= 2 && target in r.value.columns
    ensures r.Failure? ==> StartsWith(r.error.message, InvalidDatasetPrefix)
    ensures read(ReaderFor(extension)).Failure? ==>
      r == Failure(APIError(InvalidDatasetPrefix + read(ReaderFor(extension)).error))
    ensures read(ReaderFor(extension)).Success? && ContentCheck(read(ReaderFor(extension)).value, target).Some? ==>
      r == Failure(APIError(InvalidDatasetPrefix + ContentMessage(ContentCheck(read(ReaderFor(extension)).value, target).value)))
  {
    match read(ReaderFor(extension))
    case Failure(text) => Failure(APIError(InvalidDatasetPrefix + text))
    case Success(df) =>
      match ContentCheck(df, target)
      case Some(e) => Failure(APIError(InvalidDatasetPrefix + ContentMessage(e)))
      case None => Success(df)
  }

  /** The corrected check accepts and rejects exactly the tables the code as written does. */
  lemma SameVerdicts(read: Reader -> Result<Frame, string>, extension: string, target: string)
    ensures ValidateDatasetContent(read, extension, target).Success? <==> ValidateDatasetContentAsWritten(read, extension, target).Success?
    ensures ValidateDatasetContent(read, extension, target).Success? ==>
      ValidateDatasetContent(read, extension, target) == ValidateDatasetContentAsWritten(read, extension, target)
  {
  }

  /** The check messages differ, so the corrected messages tell the checks apart. */
  lemma MessagesNameTheCheck(a: ContentError, b: ContentError)
    requires ContentMessage(a) == ContentMessage(b)
    ensures a.MissingTarget? <==> b.MissingTarget?
    ensures !a.MissingTarget? ==> a == b
  {
  }

}
