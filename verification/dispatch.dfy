/** `DocumentConverter.convert_file`: the existence check, the case-insensitive
    lookup of the file's suffix in the fixed format table, the naming of the
    output file and the result record of one conversion. */
module Dispatch {
  import opened Wrappers
  import opened Strings
  import opened Paths

  /** The conversion routines registered in the format table. */
  datatype Handler =
    | ConvertDocx | ConvertExcel | ConvertPdf | ConvertText
    | CopyMarkdown | ConvertHtml | ConvertRtf | ConvertCsv

  /** The keys of the format table. `.htm` is not among them. */
  const SupportedExtensions: set<string> :=
    {".docx", ".doc", ".xlsx", ".xls", ".pdf", ".txt", ".md", ".html", ".rtf", ".csv"}

  /** The extensions under which each handler is registered. */
  function ExtensionsOf(h: Handler): set<string> {
    match h
    case ConvertDocx => {".docx", ".doc"}
    case ConvertExcel => {".xlsx", ".xls"}
    case ConvertPdf => {".pdf"}
    case ConvertText => {".txt"}
    case CopyMarkdown => {".md"}
    case ConvertHtml => {".html"}
    case ConvertRtf => {".rtf"}
    case ConvertCsv => {".csv"}
  }

  /** Looks an (already lower-cased) extension up in the format table. An
      extension is found exactly when it is one of the ten keys, and then the
      handler found is the one registered under it. */
  function HandlerFor(ext: string): (r: Option<Handler>)
    ensures r.Some? <==> ext in SupportedExtensions
    ensures r.Some? ==> ext in ExtensionsOf(r.value)
  {
    if ext == ".docx" || ext == ".doc" then Some(ConvertDocx)
    else if ext == ".xlsx" || ext == ".xls" then Some(ConvertExcel)
    else if ext == ".pdf" then Some(ConvertPdf)
    else if ext == ".txt" then Some(ConvertText)
    else if ext == ".md" then Some(CopyMarkdown)
    else if ext == ".html" then Some(ConvertHtml)
    else if ext == ".rtf" then Some(ConvertRtf)
    else if ext == ".csv" then Some(ConvertCsv)
    else None
  }

  /** Every supported extension has exactly one handler: the registrations of
      two different handlers never share an extension, and together they
      cover exactly the supported set. */
  lemma HandlerUnique(ext: string, h: Handler, g: Handler)
    requires ext in ExtensionsOf(h) && ext in ExtensionsOf(g)
    ensures h == g
    ensures ext in SupportedExtensions && HandlerFor(ext) == Some(h)
  {
  }

  /** The errors `convert_file` raises, in the order it checks for them. */
  datatype ConvertError =
    | FileNotFound(path: FilePath)
    | UnsupportedFormat(ext: string)
    | HandlerFailed(message: string)

  /** The text of the raised exception, `str(e)`. */
  function Message(e: ConvertError): string {
    match e
    case FileNotFound(p) => "File not found: " + PathString(p)
    case UnsupportedFormat(ext) => "Unsupported file format: " + ext
    case HandlerFailed(m) => m
  }

  /** The lower-cased suffix of the input file, the key looked up. */
  function Extension(input: FilePath): string {
    Lower(Suffix(input.name))
  }

  /** Where the Markdown goes: `<output_name>.md` in the output directory when
      a non-empty name is given (an empty name is falsy in Python), otherwise
      `<stem>.md`. */
  function OutputFile(input: FilePath, outputDir: string, outputName: Option<string>): FilePath {
    var base := if outputName.Some? && outputName.value != "" then outputName.value else Stem(input.name);
    FilePath(outputDir, base + ".md")
  }

  /** The output file lies in the output directory, has suffix `.md`, and its
      stem is the requested name or, failing that, the input's stem. */
  lemma OutputNaming(input: FilePath, outputDir: string, outputName: Option<string>)
    ensures OutputFile(input, outputDir, outputName).dir == outputDir
    ensures outputName.Some? && outputName.value != "" ==>
      && Stem(OutputFile(input, outputDir, outputName).name) == outputName.value
      && Suffix(OutputFile(input, outputDir, outputName).name) == ".md"
    ensures (outputName.None? || outputName.value == "") && Stem(input.name) != "" ==>
      && Stem(OutputFile(input, outputDir, outputName).name) == Stem(input.name)
      && Suffix(OutputFile(input, outputDir, outputName).name) == ".md"
  {
    var out := OutputFile(input, outputDir, outputName);
    var base := if outputName.Some? && outputName.value != "" then outputName.value else Stem(input.name);
    if base != "" {
      assert base + ".md" == base + ['.'] + "md";
      AppendedExtension(base, "md");
    }
  }

  /** A conversion about to run: the chosen handler and the two paths. */
  datatype Job = Job(handler: Handler, input: FilePath, output: FilePath)

  /** The checks of `convert_file` before any handler runs: the file must
      exist (checked first), then its lower-cased suffix must be supported. */
  function Plan(input: FilePath, present: bool, outputDir: string, outputName: Option<string>): (r: Result<Job, ConvertError>)
    ensures !present ==> r == Failure(FileNotFound(input))
    ensures present ==> (r.Success? <==> Extension(input) in SupportedExtensions)
    ensures present && r.Failure? ==> r.error == UnsupportedFormat(Extension(input))
    ensures r.Success? ==>
      && Extension(input) in ExtensionsOf(r.value.handler)
      && r.value.input == input
      && r.value.output == OutputFile(input, outputDir, outputName)
  {
    if !present then Failure(FileNotFound(input))
    else
      match HandlerFor(Extension(input))
      case None => Failure(UnsupportedFormat(Extension(input)))
      case Some(h) => Success(Job(h, input, OutputFile(input, outputDir, outputName)))
  }

  /** What a handler reports about a conversion it completed. */
  datatype Summary = Summary(contentType: string)

  /** One entry of a conversion report: the handler's summary extended with
      the two paths, the conversion time and the input's size, or the failure
      record a batch run keeps for a file whose conversion raised. */
  datatype Record =
    | Converted(summary: Summary, inputFile: string, outputFile: string, conversionTime: string, fileSize: nat)
    | Failed(inputFile: string, error: string)

  /** The `status` key of a record: every handler reports `success`. */
  function Status(r: Record): string {
    if r.Converted? then "success" else "failed"
  }

  /** `convert_file`. `run` is what the selected handler does with this file
      (its summary, or the text of the exception it raised); `conversionTime`
      and `fileSize` are the clock reading and the size of the input. The
      handler's outcome matters only once both checks have passed. */
  function ConvertFile(input: FilePath, present: bool, outputDir: string, outputName: Option<string>,
                       run: Result<Summary, string>, conversionTime: string, fileSize: nat): (r: Result<Record, ConvertError>)
    ensures r.Success? <==> present && Extension(input) in SupportedExtensions && run.Success?
    ensures !present ==> r == Failure(FileNotFound(input))
    ensures present && Extension(input) !in SupportedExtensions ==> r == Failure(UnsupportedFormat(Extension(input)))
    ensures present && Extension(input) in SupportedExtensions && run.Failure? ==> r == Failure(HandlerFailed(run.error))
    ensures r.Success? ==>
      && r.value == Converted(run.value, PathString(input), PathString(OutputFile(input, outputDir, outputName)), conversionTime, fileSize)
      && Status(r.value) == "success"
  {
    var job :- Plan(input, present, outputDir, outputName);
    match run
    case Failure(msg) => Failure(HandlerFailed(msg))
    case Success(summary) =>
      Success(Converted(summary, PathString(job.input), PathString(job.output), conversionTime, fileSize))
  }
}
