/** The two extractors, extract_zip and extract_ole (main.py lines 22-93).

    The container parsers are not modelled: an opened container is the
    sequence of its entries in directory order, each with its name, its bytes
    and the fate the environment gives to reading it and writing it out. The
    output directory is an object holding a map from file name to bytes and
    the log of what was reported.
 */
module Extraction {
  import opened SafeNames

  newtype byte = x: int | 0 <= x < 256

  datatype Option<T> = None | Some(value: T)

  /** What happens, outside the program's control, when one entry is read and
      written out. Opening the output file in 'wb' mode empties it, so a
      failure after that point leaves the file holding what was written so
      far (nothing, when it was the read that failed). */
  datatype Fate =
    | Completes                 // the entry is read and written in full
    | Unreadable                // reading the entry fails before the output file is opened
    | TargetFails               // the output file cannot be opened; nothing is written
    | FailsAfterOpen(kept: nat) // the output file was opened, then a read or write failed after `kept` bytes

  /** A fate that gets as far as opening (and so emptying) the output file. */
  predicate OpensTarget(f: Fate)
  {
    f.Completes? || f.FailsAfterOpen?
  }

  /** One record of zip_ref.infolist(): its name, the size the directory
      declares, and the bytes zip_ref.open(...).read() gives. */
  datatype ZipEntry = ZipEntry(filename: string, fileSize: nat, data: seq<byte>, fate: Fate)

  /** What zipfile.ZipFile(filepath) gives: the archive, or one of the two
      exceptions extract_zip tells apart (main.py lines 48-53). */
  datatype ZipOpen =
    | ZipParsed(entries: seq<ZipEntry>)
    | BadZipFile
    | ZipOpenFails

  /** One entry of ole.listdir(): the stream's name components and the bytes
      ole.openstream(...).read() gives. */
  datatype OleStream = OleStream(path: seq<string>, data: seq<byte>, fate: Fate)

  /** What olefile.OleFileIO(filepath) and listdir() give. */
  datatype OleOpen =
    | OleParsed(streams: seq<OleStream>)
    | OleOpenFails

  /** The records the program logs, in order. */
  datatype Event =
    | FileNotFound                          // main.py:110
    | UnsupportedFormat                     // main.py:122
    | ZipHeaderDetected                     // main.py:129
    | TypeUnidentified                      // main.py:132
    | ProbeError                            // main.py:134
    | ProcessingZip                         // main.py:26
    | NotValidZip                           // main.py:49
    | ProcessingOle                         // main.py:65
    | NotValidOle                           // main.py:61
    | ContainerError                        // main.py:52, main.py:91
    | Found(name: string, size: nat)        // main.py:32, main.py:74
    | Extracted(name: string, target: string) // main.py:44, main.py:85
    | EntryError(name: string)              // main.py:46, main.py:88

  /** Whether open(output_dir/name, 'wb') can name a regular file at all:
      '', '.' and '..' name the output directory or its parent. */
  predicate Writable(name: string)
  {
    name != "" && name != "." && name != ".."
  }

  /** One attempted write of `data` to the output file `target`. */
  datatype Write = Write(target: string, data: seq<byte>, fate: Fate)

  function Min(a: nat, b: nat): nat
  {
    if a < b then a else b
  }

  /** The bytes the target file holds after w, or None when w leaves it alone. */
  function Leaves(w: Write): (r: Option<seq<byte>>)
    ensures r.Some? <==> Writable(w.target) && OpensTarget(w.fate)
    ensures w.fate == Completes && Writable(w.target) ==> r == Some(w.data)
    ensures r.Some? ==> r.value <= w.data
  {
    if !Writable(w.target) then None
    else
      match w.fate
      case Completes => Some(w.data)
      case FailsAfterOpen(kept) => Some(w.data[..Min(kept, |w.data|)])
      case _ => None
  }

  /** The write is reported as an extraction (rather than as an error). */
  predicate Succeeds(w: Write)
  {
    Writable(w.target) && w.fate == Completes
  }

  /** The output directory after one write: the target holds what the write
      left, if it left anything, and every other name is as it was. */
  function Store(files: map<string, seq<byte>>, w: Write): (r: map<string, seq<byte>>)
    ensures Leaves(w).None? ==> r == files
    ensures Leaves(w).Some? ==> w.target in r && r[w.target] == Leaves(w).value
    ensures forall k :: k != w.target ==> (k in r <==> k in files) && (k in r ==> r[k] == files[k])
  {
    match Leaves(w)
    case None => files
    case Some(bytes) => files[w.target := bytes]
  }

  /** The output directory after a sequence of writes, done in order. */
  function ApplyAll(files: map<string, seq<byte>>, ws: seq<Write>): map<string, seq<byte>>
    decreases |ws|
  {
    if ws == [] then files
    else Store(ApplyAll(files, ws[..|ws| - 1]), ws[|ws| - 1])
  }

  /** Writes done one after another: the first batch, then at most one more. */
  lemma ApplyAllSnoc(files: map<string, seq<byte>>, ws: seq<Write>, more: seq<Write>)
    requires |more| <= 1
    ensures ApplyAll(files, ws + more) == if more == [] then ApplyAll(files, ws) else Store(ApplyAll(files, ws), more[0])
  {
    if more != [] {
      assert (ws + more)[..|ws|] == ws;
    } else {
      assert ws + more == ws;
    }
  }

  /** The report for one attempted write. */
  function WriteEvent(name: string, w: Write): Event
  {
    if Succeeds(w) then Extracted(name, w.target) else EntryError(name)
  }

  /** A write is reported as an extraction exactly when it completed under a
      writable name, and then the file holds all the bytes; it is reported as
      an error otherwise. */
  lemma WriteEventReports(name: string, w: Write)
    ensures WriteEvent(name, w) == Extracted(name, w.target) || WriteEvent(name, w) == EntryError(name)
    ensures WriteEvent(name, w).Extracted? <==> Succeeds(w)
    ensures WriteEvent(name, w).Extracted? ==> Leaves(w) == Some(w.data)
  {
  }

  /** f applied to every element in order, the results concatenated. */
  function Flatten<T, U>(xs: seq<T>, f: T -> seq<U>): seq<U>
    decreases |xs|
  {
    if xs == [] then [] else Flatten(xs[..|xs| - 1], f) + f(xs[|xs| - 1])
  }

  /** Flatten taken one element further, alone and after a prefix. */
  lemma FlattenStep<T, U>(prefix: seq<U>, xs: seq<T>, i: nat, f: T -> seq<U>)
    requires i < |xs|
    ensures Flatten(xs[..i + 1], f) == Flatten(xs[..i], f) + f(xs[i])
    ensures prefix + Flatten(xs[..i + 1], f) == prefix + Flatten(xs[..i], f) + f(xs[i])
  {
    assert xs[..i + 1][..i] == xs[..i];
  }

  // ---------------------------------------------------------------- ZIP

  function ZipWrite(e: ZipEntry): Write
  {
    Write(ZipSafeName(e.filename), e.data, e.fate)
  }

  /** The writes of an archive's entries, in directory order. */
  function ZipWrites(es: seq<ZipEntry>): (ws: seq<Write>)
    ensures |ws| == |es|
  {
    seq(|es|, i requires 0 <= i < |es| => ZipWrite(es[i]))
  }

  /** What one ZIP entry logs: it is always reported as found (main.py:32),
      and outside list-only mode its extraction or failure follows. */
  function ZipEntryEvents(e: ZipEntry, listOnly: bool): seq<Event>
  {
    [Found(e.filename, e.fileSize)] + (if listOnly then [] else [WriteEvent(e.filename, ZipWrite(e))])
  }

  /** One ZIP entry logs Found with its name and declared size; outside
      list-only mode one more record follows, an extraction under its safe
      name exactly when its write succeeds, an error otherwise. */
  lemma ZipEntryEventsShape(e: ZipEntry, listOnly: bool)
    ensures |ZipEntryEvents(e, listOnly)| == if listOnly then 1 else 2
    ensures ZipEntryEvents(e, listOnly)[0] == Found(e.filename, e.fileSize)
    ensures !listOnly ==>
      ZipEntryEvents(e, listOnly)[1] in {Extracted(e.filename, ZipSafeName(e.filename)), EntryError(e.filename)} &&
      (ZipEntryEvents(e, listOnly)[1].Extracted? <==> Succeeds(ZipWrite(e)))
  {
  }

  function ZipEntryEventsOf(listOnly: bool): ZipEntry -> seq<Event>
  {
    e => ZipEntryEvents(e, listOnly)
  }

  /** What the entries of an archive log, in directory order. */
  function ZipEvents(es: seq<ZipEntry>, listOnly: bool): seq<Event>
  {
    Flatten(es, ZipEntryEventsOf(listOnly))
  }

  /** The ZIP log taken one entry further. */
  lemma ZipLogStep(log: seq<Event>, es: seq<ZipEntry>, i: nat, listOnly: bool)
    requires i < |es|
    ensures log + ZipEvents(es[..i + 1], listOnly) == log + ZipEvents(es[..i], listOnly) + ZipEntryEvents(es[i], listOnly)
  {
    FlattenStep(log, es, i, ZipEntryEventsOf(listOnly));
  }

  /** The writes of two runs of entries, one after the other. */
  lemma ZipWritesAppend(a: seq<ZipEntry>, b: seq<ZipEntry>)
    ensures ZipWrites(a + b) == ZipWrites(a) + ZipWrites(b)
  {
    var whole, parts := ZipWrites(a + b), ZipWrites(a) + ZipWrites(b);
    forall i | 0 <= i < |whole|
      ensures whole[i] == parts[i]
    {
      if i < |a| {
        assert (a + b)[i] == a[i];
      } else {
        assert (a + b)[i] == b[i - |a|];
      }
    }
  }

  /** The ZIP writes taken one entry further. */
  lemma ZipFilesStep(files: map<string, seq<byte>>, es: seq<ZipEntry>, i: nat)
    requires i < |es|
    ensures ApplyAll(files, ZipWrites(es[..i + 1])) == Store(ApplyAll(files, ZipWrites(es[..i])), ZipWrite(es[i]))
  {
    var prefix := es[..i];
    assert es[..i + 1] == prefix + [es[i]];
    ZipWritesAppend(prefix, [es[i]]);
    assert ZipWrites([es[i]])[0] == ZipWrite(es[i]);
    ApplyAllSnoc(files, ZipWrites(prefix), ZipWrites([es[i]]));
  }

  /** Writes to names without '/' remove no file, and every name they add is
      writable and has no '/'. */
  lemma {:induction false} ApplyAllNewNames(files: map<string, seq<byte>>, ws: seq<Write>)
    requires forall i :: 0 <= i < |ws| ==> Sep !in ws[i].target
    ensures forall k :: k in files ==> k in ApplyAll(files, ws)
    ensures forall k :: k in ApplyAll(files, ws) && k !in files ==> Writable(k) && Sep !in k
    decreases |ws|
  {
    if ws != [] {
      ApplyAllNewNames(files, ws[..|ws| - 1]);
    }
  }

  /** The output directory after extract_zip. */
  function ZipFiles(files: map<string, seq<byte>>, opening: ZipOpen, listOnly: bool): map<string, seq<byte>>
  {
    if opening.ZipParsed? && !listOnly then ApplyAll(files, ZipWrites(opening.entries)) else files
  }

  /** extract_zip leaves the directory as it was when the archive does not
      open or in list-only mode; otherwise it removes no file, and every file
      it adds is writable and lies directly in the directory. */
  lemma ZipFilesShape(files: map<string, seq<byte>>, opening: ZipOpen, listOnly: bool)
    ensures !opening.ZipParsed? || listOnly ==> ZipFiles(files, opening, listOnly) == files
    ensures forall k :: k in files ==> k in ZipFiles(files, opening, listOnly)
    ensures forall k :: k in ZipFiles(files, opening, listOnly) && k !in files ==> Writable(k) && Sep !in k
  {
    if opening.ZipParsed? && !listOnly {
      ApplyAllNewNames(files, ZipWrites(opening.entries));
    }
  }

  /** What extract_zip logs: first whether the archive opened, then, only
      when it did, the records of its entries. */
  function ZipLog(opening: ZipOpen, listOnly: bool): (r: seq<Event>)
    ensures |r| >= 1 && r[0] in {ProcessingZip, NotValidZip, ContainerError}
    ensures r[0] == ProcessingZip <==> opening.ZipParsed?
    ensures r[1..] == if opening.ZipParsed? then ZipEvents(opening.entries, listOnly) else []
  {
    match opening
    case ZipParsed(entries) => [ProcessingZip] + ZipEvents(entries, listOnly)
    case BadZipFile => [NotValidZip]
    case ZipOpenFails => [ContainerError]
  }

  // ---------------------------------------------------------------- OLE

  function OleWrite(s: OleStream): Write
  {
    Write(OleSafeName(s.path), s.data, s.fate)
  }

  /** The stream itself when the extractor looks at it (`if stream_name:`). */
  function ListedOne(s: OleStream): seq<OleStream>
  {
    if s.path == [] then [] else [s]
  }

  /** The streams the extractor looks at (main.py lines 67-68): exactly the
      streams of the directory with a non-empty name list. */
  function Listed(ss: seq<OleStream>): (r: seq<OleStream>)
    ensures |r| <= |ss|
    ensures forall i :: 0 <= i < |r| ==> r[i].path != [] && r[i] in ss
    ensures forall j :: 0 <= j < |ss| && ss[j].path != [] ==> ss[j] in r
  {
    KeptStreamsNamed(ss);
    Flatten(ss, ListedOne)
  }

  /** What Listed promises, stated of the fold it is defined by. */
  lemma {:induction false} KeptStreamsNamed(ss: seq<OleStream>)
    ensures |Flatten(ss, ListedOne)| <= |ss|
    ensures forall i :: 0 <= i < |Flatten(ss, ListedOne)| ==>
      Flatten(ss, ListedOne)[i].path != [] && Flatten(ss, ListedOne)[i] in ss
    ensures forall j :: 0 <= j < |ss| && ss[j].path != [] ==> ss[j] in Flatten(ss, ListedOne)
    decreases |ss|
  {
    if ss != [] {
      var init, last := ss[..|ss| - 1], ss[|ss| - 1];
      KeptStreamsNamed(init);
      assert ss == init + [last];
      assert Flatten(ss, ListedOne) == Flatten(init, ListedOne) + ListedOne(last);
      forall j | 0 <= j < |ss| && ss[j].path != []
        ensures ss[j] in Flatten(ss, ListedOne)
      {
        if j < |init| {
          assert ss[j] == init[j];
        }
      }
    }
  }

  /** The write of one stream; a stream without a name has none. */
  function OleStreamWrites(s: OleStream): seq<Write>
  {
    if s.path == [] then [] else [OleWrite(s)]
  }

  /** The writes of a compound file's streams, in directory order. */
  function OleWrites(ss: seq<OleStream>): seq<Write>
  {
    Flatten(ss, OleStreamWrites)
  }

  /** What one OLE stream logs. A stream with no name is skipped silently; a
      stream is read before it is reported, so one that cannot be read is
      reported only as an error, in list-only mode too. */
  function OleStreamEvents(s: OleStream, listOnly: bool): seq<Event>
  {
    var full := OleStreamPath(s.path);
    if s.path == [] then []
    else if s.fate == Unreadable then [EntryError(full)]
    else [Found(full, |s.data|)] + (if listOnly then [] else [WriteEvent(full, OleWrite(s))])
  }

  /** What a named stream that can be read logs, spelled out. */
  lemma ReadStreamEvents(s: OleStream, listOnly: bool)
    requires s.path != [] && s.fate != Unreadable
    ensures OleStreamEvents(s, listOnly) ==
      [Found(OleStreamPath(s.path), |s.data|)] + (if listOnly then [] else [WriteEvent(OleStreamPath(s.path), OleWrite(s))])
  {
  }

  /** Two records appended one at a time, or together. */
  lemma AppendTwo(log: seq<Event>, x: Event, y: Event)
    ensures log + [x] + [y] == log + ([x] + [y])
  {
  }

  /** One record appended, followed by none. */
  lemma AppendNone(log: seq<Event>, x: Event)
    ensures log + [x] == log + ([x] + [])
  {
  }

  /** A nameless stream logs nothing. An unreadable one logs only an error,
      since a stream is read before it is reported. Otherwise the stream logs
      Found with its path and size, then, outside list-only mode, an
      extraction under its safe name exactly when its write succeeds, or an
      error. */
  lemma OleStreamEventsShape(s: OleStream, listOnly: bool)
    ensures s.path == [] ==> OleStreamEvents(s, listOnly) == []
    ensures s.path != [] && s.fate == Unreadable ==>
      OleStreamEvents(s, listOnly) == [EntryError(OleStreamPath(s.path))]
    ensures s.path != [] && s.fate != Unreadable ==>
      |OleStreamEvents(s, listOnly)| == (if listOnly then 1 else 2) &&
      OleStreamEvents(s, listOnly)[0] == Found(OleStreamPath(s.path), |s.data|)
    ensures s.path != [] && s.fate != Unreadable && !listOnly ==>
      OleStreamEvents(s, listOnly)[1] in
        {Extracted(OleStreamPath(s.path), OleSafeName(s.path)), EntryError(OleStreamPath(s.path))} &&
      (OleStreamEvents(s, listOnly)[1].Extracted? <==> Succeeds(OleWrite(s)))
  {
  }

  function OleStreamEventsOf(listOnly: bool): OleStream -> seq<Event>
  {
    s => OleStreamEvents(s, listOnly)
  }

  /** What the streams of a compound file log, in directory order. */
  function OleEvents(ss: seq<OleStream>, listOnly: bool): seq<Event>
  {
    Flatten(ss, OleStreamEventsOf(listOnly))
  }

  /** Every write of a compound file targets a name without '/'. */
  lemma {:induction false} OleWritesPlain(ss: seq<OleStream>)
    ensures forall i :: 0 <= i < |OleWrites(ss)| ==> Sep !in OleWrites(ss)[i].target
    decreases |ss|
  {
    if ss != [] {
      var init, last := ss[..|ss| - 1], ss[|ss| - 1];
      OleWritesPlain(init);
      assert OleWrites(ss) == OleWrites(init) + OleStreamWrites(last);
    }
  }

  /** The output directory after extract_ole; isOle is olefile.isOleFile's answer. */
  function OleFiles(files: map<string, seq<byte>>, isOle: bool, opening: OleOpen, listOnly: bool): map<string, seq<byte>>
  {
    if isOle && opening.OleParsed? && !listOnly then ApplyAll(files, OleWrites(opening.streams)) else files
  }

  /** extract_ole leaves the directory as it was when the file is rejected,
      does not open, or in list-only mode; otherwise it removes no file, and
      every file it adds is writable and lies directly in the directory. */
  lemma OleFilesShape(files: map<string, seq<byte>>, isOle: bool, opening: OleOpen, listOnly: bool)
    ensures !isOle || !opening.OleParsed? || listOnly ==> OleFiles(files, isOle, opening, listOnly) == files
    ensures forall k :: k in files ==> k in OleFiles(files, isOle, opening, listOnly)
    ensures forall k :: k in OleFiles(files, isOle, opening, listOnly) && k !in files ==> Writable(k) && Sep !in k
  {
    if isOle && opening.OleParsed? && !listOnly {
      OleWritesPlain(opening.streams);
      ApplyAllNewNames(files, OleWrites(opening.streams));
    }
  }

  /** The output directory after one stream: a stream without a name is skipped. */
  function StoreStream(files: map<string, seq<byte>>, s: OleStream): map<string, seq<byte>>
  {
    if s.path == [] then files else Store(files, OleWrite(s))
  }

  /** The OLE log taken one stream further. */
  lemma OleLogStep(log: seq<Event>, ss: seq<OleStream>, i: nat, listOnly: bool)
    requires i < |ss|
    ensures log + OleEvents(ss[..i + 1], listOnly) == log + OleEvents(ss[..i], listOnly) + OleStreamEvents(ss[i], listOnly)
  {
    FlattenStep(log, ss, i, OleStreamEventsOf(listOnly));
  }

  /** The OLE writes taken one stream further. */
  lemma OleFilesStep(files: map<string, seq<byte>>, ss: seq<OleStream>, i: nat)
    requires i < |ss|
    ensures ApplyAll(files, OleWrites(ss[..i + 1])) == StoreStream(ApplyAll(files, OleWrites(ss[..i])), ss[i])
  {
    FlattenStep([], ss, i, OleStreamWrites);
    ApplyAllSnoc(files, OleWrites(ss[..i]), OleStreamWrites(ss[i]));
  }

  /** What extract_ole logs: first whether the compound file was accepted and
      opened, then, only when it was, the records of its streams. */
  function OleLog(isOle: bool, opening: OleOpen, listOnly: bool): (r: seq<Event>)
    ensures |r| >= 1 && r[0] in {ProcessingOle, NotValidOle, ContainerError}
    ensures r[0] == ProcessingOle <==> isOle && opening.OleParsed?
    ensures r[0] == NotValidOle <==> !isOle
    ensures r[1..] == if isOle && opening.OleParsed? then OleEvents(opening.streams, listOnly) else []
  {
    if !isOle then [NotValidOle]
    else
      match opening
      case OleParsed(streams) => [ProcessingOle] + OleEvents(streams, listOnly)
      case OleOpenFails => [ContainerError]
  }

  // ---------------------------------------------------------------- state

  /** The output directory: whether it exists, the files in it, and the log. */
  class OutputDir {
    var present: bool
    var files: map<string, seq<byte>>
    var log: seq<Event>

    constructor (present: bool, files: map<string, seq<byte>>)
      ensures this.present == present && this.files == files && log == []
    {
      this.present := present;
      this.files := files;
      log := [];
    }

    /** Adds one record to the log. */
    method Report(e: Event)
      modifies this
      ensures log == old(log) + [e]
      ensures files == old(files) && present == old(present)
    {
      log := log + [e];
    }

    /** pathlib.Path(output_dir).mkdir(parents=True, exist_ok=True). */
    method Create()
      modifies this
      ensures present && files == old(files) && log == old(log)
    {
      present := true;
    }

    /** Writes one entry out under its safe name (main.py lines 39-46 and
        81-88): 'wb' mode replaces whatever file had that name. */
    method WriteOut(name: string, w: Write)
      modifies this
      ensures files == Store(old(files), w)
      ensures log == old(log) + [WriteEvent(name, w)]
      ensures present == old(present)
    {
      if !Writable(w.target) {
        log := log + [EntryError(name)];
        return;
      }
      match w.fate {
        case Completes =>
          files := files[w.target := w.data];
          log := log + [Extracted(name, w.target)];
        case FailsAfterOpen(kept) =>
          files := files[w.target := w.data[..Min(kept, |w.data|)]];
          log := log + [EntryError(name)];
        case Unreadable =>
          log := log + [EntryError(name)];
        case TargetFails =>
          log := log + [EntryError(name)];
      }
    }

    /** One turn of extract_zip's loop (main.py lines 28-46): the entry is
        reported and, outside list-only mode, written out. */
    method VisitEntry(e: ZipEntry, listOnly: bool)
      modifies this
      ensures files == if listOnly then old(files) else Store(old(files), ZipWrite(e))
      ensures log == old(log) + ZipEntryEvents(e, listOnly)
      ensures present == old(present)
    {
      log := log + [Found(e.filename, e.fileSize)];
      if !listOnly {
        WriteOut(e.filename, ZipWrite(e));
      }
    }

    /** The loop of extract_zip over zip_ref.infolist() (main.py lines 27-46). */
    method ExtractEntries(entries: seq<ZipEntry>, listOnly: bool)
      modifies this
      ensures files == if listOnly then old(files) else ApplyAll(old(files), ZipWrites(entries))
      ensures log == old(log) + ZipEvents(entries, listOnly)
      ensures present == old(present)
    {
      for i := 0 to |entries|
        invariant listOnly ==> files == old(files)
        invariant !listOnly ==> files == ApplyAll(old(files), ZipWrites(entries[..i]))
        invariant log == old(log) + ZipEvents(entries[..i], listOnly)
        invariant present == old(present)
      {
        VisitEntry(entries[i], listOnly);
        ZipLogStep(old(log), entries, i, listOnly);
        ZipFilesStep(old(files), entries, i);
      }
      assert entries[..|entries|] == entries;
    }

    /** extract_zip (main.py lines 22-54). */
    method ExtractZip(opening: ZipOpen, listOnly: bool) returns (ok: bool)
      modifies this
      ensures ok <==> opening.ZipParsed?
      ensures files == ZipFiles(old(files), opening, listOnly)
      ensures log == old(log) + ZipLog(opening, listOnly)
      ensures present == old(present)
    {
      match opening {
        case BadZipFile =>
          log := log + [NotValidZip];
          return false;
        case ZipOpenFails =>
          log := log + [ContainerError];
          return false;
        case ZipParsed(entries) =>
          log := log + [ProcessingZip];
          ExtractEntries(entries, listOnly);
          return true;
      }
    }

    /** One turn of extract_ole's loop (main.py lines 68-88): a stream with a
        name is read, reported and, outside list-only mode, written out. */
    method VisitStream(s: OleStream, listOnly: bool)
      modifies this
      ensures files == if listOnly then old(files) else StoreStream(old(files), s)
      ensures log == old(log) + OleStreamEvents(s, listOnly)
      ensures present == old(present)
    {
      if s.path != [] {
        if s.fate == Unreadable {
          log := log + [EntryError(OleStreamPath(s.path))];
        } else {
          ReadStream(s, listOnly);
        }
      }
    }

    /** A named stream that could be read: it is reported, then written
        unless in list-only mode. */
    method ReadStream(s: OleStream, listOnly: bool)
      requires s.path != [] && s.fate != Unreadable
      modifies this
      ensures files == if listOnly then old(files) else Store(old(files), OleWrite(s))
      ensures log == old(log) + OleStreamEvents(s, listOnly)
      ensures present == old(present)
    {
      var full := OleStreamPath(s.path);
      ReadStreamEvents(s, listOnly);
      ghost var before := log;
      log := log + [Found(full, |s.data|)];
      if !listOnly {
        WriteOut(full, OleWrite(s));
        AppendTwo(before, Found(full, |s.data|), WriteEvent(full, OleWrite(s)));
      } else {
        AppendNone(before, Found(full, |s.data|));
      }
    }

    /** The loop of extract_ole over ole.listdir() (main.py lines 67-88). */
    method ExtractStreams(streams: seq<OleStream>, listOnly: bool)
      modifies this
      ensures files == if listOnly then old(files) else ApplyAll(old(files), OleWrites(streams))
      ensures log == old(log) + OleEvents(streams, listOnly)
      ensures present == old(present)
    {
      for i := 0 to |streams|
        invariant listOnly ==> files == old(files)
        invariant !listOnly ==> files == ApplyAll(old(files), OleWrites(streams[..i]))
        invariant log == old(log) + OleEvents(streams[..i], listOnly)
        invariant present == old(present)
      {
        VisitStream(streams[i], listOnly);
        OleLogStep(old(log), streams, i, listOnly);
        OleFilesStep(old(files), streams, i);
      }
      assert streams[..|streams|] == streams;
    }

    /** extract_ole (main.py lines 57-93); isOle is olefile.isOleFile's answer. */
    method ExtractOle(isOle: bool, opening: OleOpen, listOnly: bool) returns (ok: bool)
      modifies this
      ensures ok <==> isOle && opening.OleParsed?
      ensures files == OleFiles(old(files), isOle, opening, listOnly)
      ensures log == old(log) + OleLog(isOle, opening, listOnly)
      ensures present == old(present)
    {
      if !isOle {
        log := log + [NotValidOle];
        return false;
      }
      match opening {
        case OleOpenFails =>
          log := log + [ContainerError];
          return false;
        case OleParsed(streams) =>
          log := log + [ProcessingOle];
          ExtractStreams(streams, listOnly);
          return true;
      }
    }
  }
}
