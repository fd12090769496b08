/** The format dispatch of main (main.py lines 104-134): a missing input
    stops the run; otherwise the output directory is created and the file is
    tried as ZIP, then as OLE, then by its first four bytes.
 */
module Dispatch {
  import opened SafeNames
  import opened Extraction
  import opened ExtractionFacts

  /** The ZIP local file header signature "PK\x03\x04" (section 4.3.7 of
      PKWARE's APPNOTE.TXT). */
  const ZipMagic: seq<byte> := [0x50, 0x4B, 0x03, 0x04]

  /** What a run can observe of the file it is given. The library tests and
      parsers are not modelled: their answers are part of the input. */
  datatype InputFile = InputFile(
    pathExists: bool,   // pathlib.Path(filepath).exists()
    zipTest: bool,      // zipfile.is_zipfile(filepath)
    oleTest: bool,      // olefile.isOleFile(filepath)
    readable: bool,     // open(filepath, 'rb') and read(4) do not raise
    content: seq<byte>, // the bytes of the file
    zip: ZipOpen,       // what zipfile.ZipFile(filepath) gives
    ole: OleOpen)       // what olefile.OleFileIO(filepath) gives

  /** f.read(4): the first four bytes, or all of a shorter file. It equals
      the signature exactly when the file is at least four bytes long and
      starts with it. */
  function Header(content: seq<byte>): (h: seq<byte>)
    ensures h <= content && |h| == Min(4, |content|)
    ensures h == ZipMagic <==> |content| >= 4 && content[..4] == ZipMagic
  {
    content[..Min(4, |content|)]
  }

  /** The branch of main a file takes. */
  datatype Route = NoSuchFile | ZipByTest | OleByTest | ZipByHeader | Unknown | ProbeFailed

  /** The decision of main.py lines 109-132. The ZIP test comes first, then
      the OLE test, then the four-byte probe, which picks ZIP only for a file
      of at least four bytes that starts with the signature. */
  function Detect(input: InputFile): (r: Route)
    ensures r == NoSuchFile <==> !input.pathExists
    ensures r == ZipByTest <==> input.pathExists && input.zipTest
    ensures r == OleByTest <==> input.pathExists && !input.zipTest && input.oleTest
    ensures r == ProbeFailed <==> input.pathExists && !input.zipTest && !input.oleTest && !input.readable
    ensures r == ZipByHeader <==>
      input.pathExists && !input.zipTest && !input.oleTest && input.readable &&
      |input.content| >= 4 && input.content[..4] == ZipMagic
  {
    if !input.pathExists then NoSuchFile
    else if input.zipTest then ZipByTest
    else if input.oleTest then OleByTest
    else if !input.readable then ProbeFailed
    else if Header(input.content) == ZipMagic then ZipByHeader
    else Unknown
  }

  /** A readable file shorter than four bytes that neither library accepts is
      reported as of unsupported format and unidentified, and nothing is written. */
  lemma ShortFileUnidentified(files: map<string, seq<byte>>, input: InputFile, listOnly: bool)
    requires input.pathExists && !input.zipTest && !input.oleTest && input.readable
    requires |input.content| < 4
    ensures Detect(input) == Unknown
    ensures RunEvents(input, listOnly) == [UnsupportedFormat, TypeUnidentified]
    ensures RunFiles(files, input, listOnly) == files
  {
  }

  /** The output directory after a run. Only the two extractors write, and
      in list-only mode nothing is written at all. */
  function RunFiles(files: map<string, seq<byte>>, input: InputFile, listOnly: bool): (r: map<string, seq<byte>>)
    ensures listOnly ==> r == files
    ensures Detect(input) in {NoSuchFile, Unknown, ProbeFailed} ==> r == files
    ensures Detect(input) in {ZipByTest, ZipByHeader} ==> r == ZipFiles(files, input.zip, listOnly)
    ensures Detect(input) == OleByTest ==> r == OleFiles(files, true, input.ole, listOnly)
  {
    match Detect(input)
    case ZipByTest => ZipFiles(files, input.zip, listOnly)
    case ZipByHeader => ZipFiles(files, input.zip, listOnly)
    case OleByTest => OleFiles(files, input.oleTest, input.ole, listOnly)
    case _ => files
  }

  /** What a run logs. Its first record tells a missing file, an unsupported
      format and a container the libraries recognised apart. */
  function RunEvents(input: InputFile, listOnly: bool): (r: seq<Event>)
    ensures |r| >= 1
    ensures r[0] == FileNotFound <==> !input.pathExists
    ensures r[0] == UnsupportedFormat <==> input.pathExists && !input.zipTest && !input.oleTest
    ensures !input.pathExists ==> r == [FileNotFound]
    ensures Detect(input) == ZipByTest ==> r == ZipLog(input.zip, listOnly)
    ensures Detect(input) == OleByTest ==> r == OleLog(true, input.ole, listOnly)
    ensures Detect(input) == ZipByHeader ==> r == [UnsupportedFormat, ZipHeaderDetected] + ZipLog(input.zip, listOnly)
    ensures Detect(input) == Unknown ==> r == [UnsupportedFormat, TypeUnidentified]
    ensures Detect(input) == ProbeFailed ==> r == [UnsupportedFormat, ProbeError]
  {
    match Detect(input)
    case NoSuchFile => [FileNotFound]
    case ZipByTest => ZipLog(input.zip, listOnly)
    case OleByTest => OleLog(input.oleTest, input.ole, listOnly)
    case ZipByHeader => [UnsupportedFormat, ZipHeaderDetected] + ZipLog(input.zip, listOnly)
    case Unknown => [UnsupportedFormat, TypeUnidentified]
    case ProbeFailed => [UnsupportedFormat, ProbeError]
  }

  /** main, from the validation of the input path on (main.py lines 108-134).
      The extractors' results are ignored, as in the source. */
  method Analyze(out: OutputDir, input: InputFile, listOnly: bool)
    modifies out
    ensures out.present == (old(out.present) || input.pathExists)
    ensures out.files == RunFiles(old(out.files), input, listOnly)
    ensures out.log == old(out.log) + RunEvents(input, listOnly)
  {
    if !input.pathExists {
      out.Report(FileNotFound);
      return;
    }
    out.Create();
    if input.zipTest {
      ZipTestRoute(out.files, input, listOnly);
      var _ := out.ExtractZip(input.zip, listOnly);
    } else if input.oleTest {
      OleTestRoute(out.files, input, listOnly);
      var _ := out.ExtractOle(input.oleTest, input.ole, listOnly);
    } else {
      ProbeRoutes(out.files, input, listOnly);
      ghost var before := out.log;
      Probe(out, input, listOnly);
      LogRegroup(before, [UnsupportedFormat],
        if !input.readable then [ProbeError]
        else if Header(input.content) == ZipMagic then [ZipHeaderDetected] + ZipLog(input.zip, listOnly)
        else [TypeUnidentified]);
    }
  }

  /** When the ZIP test accepts the file, a run leaves and logs what
      extract_zip does. */
  lemma ZipTestRoute(files: map<string, seq<byte>>, input: InputFile, listOnly: bool)
    requires input.pathExists && input.zipTest
    ensures RunFiles(files, input, listOnly) == ZipFiles(files, input.zip, listOnly)
    ensures RunEvents(input, listOnly) == ZipLog(input.zip, listOnly)
  {
  }

  /** When only the OLE test accepts the file, a run leaves and logs what
      extract_ole does. */
  lemma OleTestRoute(files: map<string, seq<byte>>, input: InputFile, listOnly: bool)
    requires input.pathExists && !input.zipTest && input.oleTest
    ensures RunFiles(files, input, listOnly) == OleFiles(files, true, input.ole, listOnly)
    ensures RunEvents(input, listOnly) == OleLog(true, input.ole, listOnly)
  {
  }

  /** For a file neither library accepts, a run logs UnsupportedFormat and
      then the outcome of the four-byte probe; only a ZIP header leads to
      writes, those of extract_zip. */
  lemma ProbeRoutes(files: map<string, seq<byte>>, input: InputFile, listOnly: bool)
    requires input.pathExists && !input.zipTest && !input.oleTest
    ensures RunFiles(files, input, listOnly) ==
      if input.readable && Header(input.content) == ZipMagic then ZipFiles(files, input.zip, listOnly)
      else files
    ensures RunEvents(input, listOnly) == [UnsupportedFormat] +
      if !input.readable then [ProbeError]
      else if Header(input.content) == ZipMagic then [ZipHeaderDetected] + ZipLog(input.zip, listOnly)
      else [TypeUnidentified]
  {
  }

  /** The fallback of main for a file neither library accepts (main.py lines
      121-134): the first four bytes decide whether extract_zip is tried. */
  method Probe(out: OutputDir, input: InputFile, listOnly: bool)
    modifies out
    ensures out.present == old(out.present)
    ensures out.files ==
      if input.readable && Header(input.content) == ZipMagic then ZipFiles(old(out.files), input.zip, listOnly)
      else old(out.files)
    ensures out.log == old(out.log) + [UnsupportedFormat] +
      if !input.readable then [ProbeError]
      else if Header(input.content) == ZipMagic then [ZipHeaderDetected] + ZipLog(input.zip, listOnly)
      else [TypeUnidentified]
  {
    out.Report(UnsupportedFormat);
    if !input.readable {
      out.Report(ProbeError);
    } else if Header(input.content) == ZipMagic {
      out.Report(ZipHeaderDetected);
      var _ := out.ExtractZip(input.zip, listOnly);
      LogRegroup(old(out.log) + [UnsupportedFormat], [ZipHeaderDetected], ZipLog(input.zip, listOnly));
    } else {
      out.Report(TypeUnidentified);
    }
  }

  /** Records appended in two steps, or as one block. */
  lemma LogRegroup(log: seq<Event>, first: seq<Event>, rest: seq<Event>)
    ensures log + first + rest == log + (first + rest)
  {
  }

  /** A second run on the same file into the same directory changes nothing,
      when every entry meets the same fate both times. */
  lemma RunIdempotent(files: map<string, seq<byte>>, input: InputFile, listOnly: bool)
    ensures RunFiles(RunFiles(files, input, listOnly), input, listOnly) == RunFiles(files, input, listOnly)
  {
    match Detect(input)
    case ZipByTest => ZipExtractionIdempotent(files, input.zip, listOnly);
    case ZipByHeader => ZipExtractionIdempotent(files, input.zip, listOnly);
    case OleByTest => OleExtractionIdempotent(files, input.oleTest, input.ole, listOnly);
    case _ =>
  }

  /** Whatever the input, every file a run creates or changes lies directly
      in the output directory: its name has no '/' and is not '', '.' or '..'. */
  lemma RunStaysInside(files: map<string, seq<byte>>, input: InputFile, listOnly: bool, k: string)
    requires !SameAt(RunFiles(files, input, listOnly), files, k)
    ensures Writable(k) && Sep !in k
  {
    match Detect(input)
    case ZipByTest => ZipWritesStayInside(files, input.zip.entries, k);
    case ZipByHeader => ZipWritesStayInside(files, input.zip.entries, k);
    case OleByTest => OleWritesStayInside(files, input.ole.streams, k);
  }
}
