/** What the extractors promise about the output directory and the log:
    last writer wins, untouched names stay untouched, a second run changes
    nothing, every file written lies directly in the output directory, every
    entry is visited, and OLE streams without a name are skipped entirely.
 */
module ExtractionFacts {
  import opened SafeNames
  import opened Extraction

  /** w changes the output file named k. */
  predicate Touches(w: Write, k: string)
  {
    w.target == k && Leaves(w).Some?
  }

  /** k holds the same thing (or nothing) in both directories. */
  predicate SameAt(a: map<string, seq<byte>>, b: map<string, seq<byte>>, k: string)
  {
    (k in a <==> k in b) && (k in a ==> a[k] == b[k])
  }

  // ------------------------------------------------------------ any writes

  /** Writes done in two batches: the second batch starts from what the first left. */
  lemma {:induction false} ApplyAllAppend(files: map<string, seq<byte>>, x: seq<Write>, y: seq<Write>)
    ensures ApplyAll(files, x + y) == ApplyAll(ApplyAll(files, x), y)
    decreases |y|
  {
    if y == [] {
      assert x + y == x;
    } else {
      var n := |y|;
      assert (x + y)[..|x + y| - 1] == x + y[..n - 1];
      assert (x + y)[|x + y| - 1] == y[n - 1];
      ApplyAllAppend(files, x, y[..n - 1]);
    }
  }

  /** A write that never opens its output file can be dropped. */
  lemma InertWriteIgnored(files: map<string, seq<byte>>, a: seq<Write>, w: Write, b: seq<Write>)
    requires Leaves(w).None?
    ensures ApplyAll(files, a + [w] + b) == ApplyAll(files, a + b)
  {
    ApplyAllAppend(files, a + [w], b);
    ApplyAllSnoc(files, a, [w]);
    ApplyAllAppend(files, a, b);
  }

  /** Two writes, one after the other. */
  lemma ApplyAllTwo(files: map<string, seq<byte>>, w1: Write, w2: Write)
    ensures ApplyAll(files, [w1, w2]) == Store(Store(files, w1), w2)
  {
    assert [w1, w2][..1] == [w1];
    assert [w1][..0] == [];
    assert ApplyAll(files, [w1]) == Store(files, w1);
  }

  /** A run lays the files it writes over the directory it found. */
  lemma {:induction false} ApplyAllOverlay(files: map<string, seq<byte>>, ws: seq<Write>)
    ensures ApplyAll(files, ws) == files + ApplyAll(map[], ws)
    decreases |ws|
  {
    if ws != [] {
      ApplyAllOverlay(files, ws[..|ws| - 1]);
    }
  }

  /** Running the same extraction a second time leaves the same directory. */
  lemma ApplyAllIdempotent(files: map<string, seq<byte>>, ws: seq<Write>)
    ensures ApplyAll(ApplyAll(files, ws), ws) == ApplyAll(files, ws)
  {
    var d := ApplyAll(map[], ws);
    ApplyAllOverlay(files, ws);
    ApplyAllOverlay(files + d, ws);
    assert (files + d) + d == files + d;
  }

  /** A name no write reaches keeps what it had, or stays absent. */
  lemma {:induction false} UntouchedKept(files: map<string, seq<byte>>, ws: seq<Write>, k: string)
    requires forall j :: 0 <= j < |ws| ==> !Touches(ws[j], k)
    ensures SameAt(ApplyAll(files, ws), files, k)
    decreases |ws|
  {
    if ws != [] {
      UntouchedKept(files, ws[..|ws| - 1], k);
    }
  }

  /** A name whose content changed was reached by some write. */
  lemma ChangedOnlyByWrites(files: map<string, seq<byte>>, ws: seq<Write>, k: string)
    requires !SameAt(ApplyAll(files, ws), files, k)
    ensures exists j :: 0 <= j < |ws| && Touches(ws[j], k)
  {
    if forall j :: 0 <= j < |ws| ==> !Touches(ws[j], k) {
      UntouchedKept(files, ws, k);
    }
  }

  /** The last write that reaches a name decides what that file holds. */
  lemma {:induction false} LastWriterWins(files: map<string, seq<byte>>, ws: seq<Write>, i: nat)
    requires i < |ws| && Leaves(ws[i]).Some?
    requires forall j :: i < j < |ws| ==> !Touches(ws[j], ws[i].target)
    ensures ws[i].target in ApplyAll(files, ws)
    ensures ApplyAll(files, ws)[ws[i].target] == Leaves(ws[i]).value
    decreases |ws|
  {
    if i < |ws| - 1 {
      LastWriterWins(files, ws[..|ws| - 1], i);
    }
  }

  /** Whatever happens to one write, no file other than its own target
      changes: a failure is confined to its entry. */
  lemma {:induction false} FailureIsLocal(files: map<string, seq<byte>>, ws: seq<Write>, i: nat, f: Fate, k: string)
    requires i < |ws| && k != ws[i].target
    ensures SameAt(ApplyAll(files, ws), ApplyAll(files, ws[i := ws[i].(fate := f)]), k)
    decreases |ws|
  {
    var ws' := ws[i := ws[i].(fate := f)];
    var n := |ws|;
    assert ws'[..n - 1] == if i == n - 1 then ws[..n - 1] else ws[..n - 1][i := ws[i].(fate := f)];
    if i < n - 1 {
      FailureIsLocal(files, ws[..n - 1], i, f, k);
    }
  }

  // ------------------------------------------------------------------ ZIP

  /** In list-only mode every entry is reported, in directory order, and
      nothing else is. */
  lemma {:induction false} ZipListingReportsEveryEntry(es: seq<ZipEntry>)
    ensures |ZipEvents(es, true)| == |es|
    ensures forall i :: 0 <= i < |es| ==> ZipEvents(es, true)[i] == Found(es[i].filename, es[i].fileSize)
    decreases |es|
  {
    if es != [] {
      ZipListingReportsEveryEntry(es[..|es| - 1]);
    }
  }

  /** When extracting, every entry is reported and then either extracted or
      logged as an error; a failure never ends the loop early. */
  lemma {:induction false} ZipExtractionVisitsEveryEntry(es: seq<ZipEntry>)
    ensures |ZipEvents(es, false)| == 2 * |es|
    ensures forall i :: 0 <= i < |es| ==>
      ZipEvents(es, false)[2 * i] == Found(es[i].filename, es[i].fileSize) &&
      ZipEvents(es, false)[2 * i + 1] == WriteEvent(es[i].filename, ZipWrite(es[i]))
    decreases |es|
  {
    if es != [] {
      var n := |es|;
      var init, e := es[..n - 1], es[n - 1];
      ZipExtractionVisitsEveryEntry(init);
      var before, all := ZipEvents(init, false), ZipEvents(es, false);
      var last := [Found(e.filename, e.fileSize), WriteEvent(e.filename, ZipWrite(e))];
      assert ZipEntryEvents(e, false) == last;
      assert all == before + last;
      forall i | 0 <= i < n
        ensures all[2 * i] == Found(es[i].filename, es[i].fileSize)
        ensures all[2 * i + 1] == WriteEvent(es[i].filename, ZipWrite(es[i]))
      {
        if i < n - 1 {
          assert init[i] == es[i];
          assert all[2 * i] == before[2 * i] && all[2 * i + 1] == before[2 * i + 1];
        } else {
          assert all[2 * i] == last[0] && all[2 * i + 1] == last[1];
        }
      }
    }
  }

  /** An entry is reported as extracted exactly when its bytes were written
      in full under a writable safe name. */
  lemma ZipExtractedMeansWritten(e: ZipEntry)
    ensures WriteEvent(e.filename, ZipWrite(e)) == Extracted(e.filename, ZipSafeName(e.filename))
      <==> e.fate == Completes && Writable(ZipSafeName(e.filename))
    ensures WriteEvent(e.filename, ZipWrite(e)).Extracted? ==>
      Leaves(ZipWrite(e)) == Some(e.data)
  {
  }

  /** The output file of a ZIP entry holds that entry's bytes, unchanged,
      when it is the last entry with that safe name to open the file. */
  lemma ZipLastEntryWins(files: map<string, seq<byte>>, es: seq<ZipEntry>, i: nat)
    requires i < |es|
    requires es[i].fate == Completes && Writable(ZipSafeName(es[i].filename))
    requires forall j :: i < j < |es| && ZipSafeName(es[j].filename) == ZipSafeName(es[i].filename) ==>
      !OpensTarget(es[j].fate)
    ensures ZipSafeName(es[i].filename) in ZipFiles(files, ZipParsed(es), false)
    ensures ZipFiles(files, ZipParsed(es), false)[ZipSafeName(es[i].filename)] == es[i].data
  {
    LastWriterWins(files, ZipWrites(es), i);
  }

  /** Every file extract_zip creates or changes lies directly in the output
      directory: its name is the part of some entry's name after the last
      '/', has no '/', and is not '', '.' or '..'. */
  lemma ZipWritesStayInside(files: map<string, seq<byte>>, es: seq<ZipEntry>, k: string)
    requires !SameAt(ZipFiles(files, ZipParsed(es), false), files, k)
    ensures Writable(k) && Sep !in k
    ensures exists j :: 0 <= j < |es| && k == Basename(es[j].filename) && IsSuffix(k, es[j].filename)
  {
    ChangedOnlyByWrites(files, ZipWrites(es), k);
    var j :| 0 <= j < |es| && Touches(ZipWrites(es)[j], k);
    assert ZipWrites(es)[j] == ZipWrite(es[j]);
    assert k == Basename(es[j].filename);
  }

  /** An entry whose output file is never opened (its read fails first, the
      open fails, or its safe name is '', '.' or '..') is reported as found
      and then as an error, leaves the directory as if it were not in the
      archive, and the entries after it are still processed. */
  lemma ZipFailureContinues(files: map<string, seq<byte>>, a: seq<ZipEntry>, e: ZipEntry, b: seq<ZipEntry>)
    requires Leaves(ZipWrite(e)).None?
    ensures ZipEvents(a + [e] + b, false) ==
      ZipEvents(a, false) + [Found(e.filename, e.fileSize), EntryError(e.filename)] + ZipEvents(b, false)
    ensures ZipFiles(files, ZipParsed(a + [e] + b), false) == ZipFiles(files, ZipParsed(a + b), false)
  {
    var f := ZipEntryEventsOf(false);
    FlattenAppend(a + [e], b, f);
    FlattenAppend(a, [e], f);
    assert [e][..0] == [];
    assert Flatten([e], f) == [Found(e.filename, e.fileSize), EntryError(e.filename)];
    ZipWritesAppend(a + [e], b);
    ZipWritesAppend(a, [e]);
    ZipWritesAppend(a, b);
    assert ZipWrites([e]) == [ZipWrite(e)];
    assert ZipWrites(a + [e] + b) == ZipWrites(a) + [ZipWrite(e)] + ZipWrites(b);
    InertWriteIgnored(files, ZipWrites(a), ZipWrite(e), ZipWrites(b));
  }

  /** The archive of the two-entry scenario below: 'readme.txt' (11 bytes)
      and 'data/info.json' (20 bytes). */
  function TwoEntries(d1: seq<byte>, d2: seq<byte>): seq<ZipEntry>
  {
    [ZipEntry("readme.txt", 11, d1, Completes), ZipEntry("data/info.json", 20, d2, Completes)]
  }

  /** 'readme.txt' keeps its name. */
  lemma ReadmeName()
    ensures ZipSafeName("readme.txt") == "readme.txt"
  {
    BasenameOfPlain("readme.txt");
  }

  /** 'data/info.json' is written as 'info.json'. */
  lemma InfoJsonName()
    ensures ZipSafeName("data/info.json") == "info.json"
  {
    assert "data/info.json" == "data" + [Sep] + "info.json";
    BasenameOfPlainAfterSeparator("data", "info.json");
  }

  /** Listing the archive reports both entries with their names and sizes. */
  lemma ZipTwoEntryListing(d1: seq<byte>, d2: seq<byte>)
    requires |d1| == 11 && |d2| == 20
    ensures ZipLog(ZipParsed(TwoEntries(d1, d2)), true) ==
      [ProcessingZip, Found("readme.txt", 11), Found("data/info.json", 20)]
  {
    ZipListingReportsEveryEntry(TwoEntries(d1, d2));
  }

  /** Extracting it into an empty directory yields 'readme.txt' and
      'info.json' holding the entries' bytes. */
  lemma ZipTwoEntryExtraction(d1: seq<byte>, d2: seq<byte>)
    requires |d1| == 11 && |d2| == 20
    ensures ZipFiles(map[], ZipParsed(TwoEntries(d1, d2)), false) == map["readme.txt" := d1, "info.json" := d2]
  {
    var es := TwoEntries(d1, d2);
    assert es[..0] == [] && es[..2] == es;
    ZipFilesStep(map[], es, 0);
    ZipFilesStep(map[], es, 1);
    ReadmeName();
    InfoJsonName();
    TwoCompletedWrites(ZipWrite(es[0]), ZipWrite(es[1]));
  }

  /** Two completed writes to writable names store both files. */
  lemma TwoCompletedWrites(w1: Write, w2: Write)
    requires Writable(w1.target) && Writable(w2.target)
    requires w1.fate == Completes && w2.fate == Completes
    ensures Store(Store(map[], w1), w2) == map[w1.target := w1.data, w2.target := w2.data]
  {
  }

  /** A write to '', '.' or '..' names the output directory or its parent,
      so opening it for writing always fails: nothing is left and the entry
      is reported as an error, whatever the entry's own fate. */
  lemma SpecialNamesNeverWritten(files: map<string, seq<byte>>, name: string, w: Write)
    requires w.target in {"", ".", ".."}
    ensures Leaves(w).None? && Store(files, w) == files
    ensures WriteEvent(name, w) == EntryError(name)
  {
  }

  /** A directory entry of an archive ('docs/') has the empty safe name: it is
      reported as found and then as an error, and writes nothing. */
  lemma ZipDirectoryEntryFails(files: map<string, seq<byte>>, e: ZipEntry)
    requires |e.filename| > 0 && e.filename[|e.filename| - 1] == Sep
    ensures ZipSafeName(e.filename) == ""
    ensures ZipEntryEvents(e, false) == [Found(e.filename, e.fileSize), EntryError(e.filename)]
    ensures Store(files, ZipWrite(e)) == files
  {
    SpecialNamesNeverWritten(files, e.filename, ZipWrite(e));
  }

  /** Extracting the same archive twice into the same directory leaves what
      extracting it once left, when every entry meets the same fate both times. */
  lemma ZipExtractionIdempotent(files: map<string, seq<byte>>, opening: ZipOpen, listOnly: bool)
    ensures ZipFiles(ZipFiles(files, opening, listOnly), opening, listOnly) == ZipFiles(files, opening, listOnly)
  {
    if opening.ZipParsed? && !listOnly {
      ApplyAllIdempotent(files, ZipWrites(opening.entries));
    }
  }

  // ------------------------------------------------------------------ OLE

  /** Flatten distributes over a split of its input. */
  lemma {:induction false} FlattenAppend<T, U>(a: seq<T>, b: seq<T>, f: T -> seq<U>)
    ensures Flatten(a + b, f) == Flatten(a, f) + Flatten(b, f)
    decreases |b|
  {
    if b == [] {
      assert a + b == a;
    } else {
      var n := |b|;
      assert (a + b)[..|a + b| - 1] == a + b[..n - 1];
      assert (a + b)[|a + b| - 1] == b[n - 1];
      FlattenAppend(a, b[..n - 1], f);
    }
  }

  /** The streams looked at in two runs of the directory, one after the
      other: the filter keeps the directory's order. */
  lemma ListedAppend(a: seq<OleStream>, b: seq<OleStream>)
    ensures Listed(a + b) == Listed(a) + Listed(b)
  {
    FlattenAppend(a, b, ListedOne);
  }

  /** One stream is looked at exactly when its name list is not empty. */
  lemma ListedSingle(s: OleStream)
    ensures Listed([s]) == if s.path == [] then [] else [s]
  {
    assert [s][..0] == [];
    assert Flatten([s], ListedOne) == Flatten([], ListedOne) + ListedOne(s);
  }

  /** A filter and a map over the same elements line up one to one: where
      keep keeps x, g gives h(x), and where keep drops x, g gives nothing. */
  lemma {:induction false} FlattenKeptMap<T, U>(xs: seq<T>, keep: T -> seq<T>, g: T -> seq<U>, h: T -> U)
    requires forall x :: (keep(x) == [] && g(x) == []) || (keep(x) == [x] && g(x) == [h(x)])
    ensures |Flatten(xs, g)| == |Flatten(xs, keep)|
    ensures forall i :: 0 <= i < |Flatten(xs, keep)| ==> Flatten(xs, g)[i] == h(Flatten(xs, keep)[i])
    decreases |xs|
  {
    if xs != [] {
      var x := xs[|xs| - 1];
      FlattenKeptMap(xs[..|xs| - 1], keep, g, h);
      assert (keep(x) == [] && g(x) == []) || (keep(x) == [x] && g(x) == [h(x)]);
    }
  }

  /** An element that contributes nothing can be dropped. */
  lemma FlattenSkips<T, U>(a: seq<T>, x: T, b: seq<T>, f: T -> seq<U>)
    requires f(x) == []
    ensures Flatten(a + [x] + b, f) == Flatten(a + b, f)
  {
    assert [x][..0] == [];
    assert Flatten([x], f) == [];
    FlattenAppend(a + [x], b, f);
    FlattenAppend(a, [x], f);
    FlattenAppend(a, b, f);
  }

  /** A stream whose name list is empty is skipped entirely: inserting one
      anywhere in the directory changes neither what is written nor what is
      logged. */
  lemma OleNamelessStreamIgnored(a: seq<OleStream>, s: OleStream, b: seq<OleStream>, listOnly: bool)
    requires s.path == []
    ensures Listed(a + [s] + b) == Listed(a + b)
    ensures OleWrites(a + [s] + b) == OleWrites(a + b)
    ensures OleEvents(a + [s] + b, listOnly) == OleEvents(a + b, listOnly)
  {
    FlattenSkips(a, s, b, ListedOne);
    FlattenSkips(a, s, b, OleStreamWrites);
    FlattenSkips(a, s, b, OleStreamEventsOf(listOnly));
  }

  /** A named stream that cannot be read is reported as an error, in
      list-only mode too, leaves the directory as if it were not there, and
      the streams after it are still processed. */
  lemma OleFailureContinues(files: map<string, seq<byte>>, a: seq<OleStream>, s: OleStream, b: seq<OleStream>, listOnly: bool)
    requires s.path != [] && s.fate == Unreadable
    ensures OleEvents(a + [s] + b, listOnly) ==
      OleEvents(a, listOnly) + [EntryError(OleStreamPath(s.path))] + OleEvents(b, listOnly)
    ensures OleFiles(files, true, OleParsed(a + [s] + b), listOnly) == OleFiles(files, true, OleParsed(a + b), listOnly)
  {
    FlattenSplice(a, s, b, OleStreamEventsOf(listOnly));
    UnreadableStreamWritesNothing(files, a, s, b);
  }

  /** The writes around an unreadable stream leave what they leave without it. */
  lemma UnreadableStreamWritesNothing(files: map<string, seq<byte>>, a: seq<OleStream>, s: OleStream, b: seq<OleStream>)
    requires s.path != [] && s.fate == Unreadable
    ensures ApplyAll(files, OleWrites(a + [s] + b)) == ApplyAll(files, OleWrites(a + b))
  {
    FlattenSplice(a, s, b, OleStreamWrites);
    FlattenAppend(a, b, OleStreamWrites);
    InertWriteIgnored(files, OleWrites(a), OleWrite(s), OleWrites(b));
  }

  /** Flattening around one element: what comes before it, its own part, what
      comes after. */
  lemma FlattenSplice<T, U>(a: seq<T>, x: T, b: seq<T>, f: T -> seq<U>)
    ensures Flatten(a + [x] + b, f) == Flatten(a, f) + f(x) + Flatten(b, f)
  {
    FlattenAppend(a + [x], b, f);
    FlattenAppend(a, [x], f);
    assert [x][..0] == [];
  }

  /** The writes are those of the named streams, one each, in order. */
  lemma {:induction false} OleWritesOfListed(ss: seq<OleStream>)
    ensures |OleWrites(ss)| == |Listed(ss)|
    ensures forall i :: 0 <= i < |Listed(ss)| ==>
      Listed(ss)[i].path != [] && OleWrites(ss)[i] == OleWrite(Listed(ss)[i])
  {
    FlattenKeptMap(ss, ListedOne, OleStreamWrites, OleWrite);
  }

  /** In list-only mode every named stream is reported, in directory order:
      by name and size, or as an error when it cannot be read. */
  lemma {:induction false} OleListingReportsEveryStream(ss: seq<OleStream>)
    ensures |OleEvents(ss, true)| == |Listed(ss)|
    ensures forall i :: 0 <= i < |Listed(ss)| ==>
      OleEvents(ss, true)[i] ==
        (if Listed(ss)[i].fate == Unreadable then EntryError(OleStreamPath(Listed(ss)[i].path))
         else Found(OleStreamPath(Listed(ss)[i].path), |Listed(ss)[i].data|))
    decreases |ss|
  {
    if ss != [] {
      var init, last := ss[..|ss| - 1], ss[|ss| - 1];
      OleListingReportsEveryStream(init);
      assert OleEvents(ss, true) == OleEvents(init, true) + OleStreamEvents(last, true);
      assert Listed(ss) == Listed(init) + ListedOne(last);
      OleStreamEventsShape(last, true);
    }
  }

  /** The output file of a stream holds its bytes, unchanged, when it is the
      last named stream with that safe name to open the file. */
  lemma OleLastStreamWins(files: map<string, seq<byte>>, ss: seq<OleStream>, i: nat)
    requires i < |Listed(ss)|
    requires Listed(ss)[i].fate == Completes && Writable(OleSafeName(Listed(ss)[i].path))
    requires forall j :: i < j < |Listed(ss)| && OleSafeName(Listed(ss)[j].path) == OleSafeName(Listed(ss)[i].path) ==>
      !OpensTarget(Listed(ss)[j].fate)
    ensures OleSafeName(Listed(ss)[i].path) in OleFiles(files, true, OleParsed(ss), false)
    ensures OleFiles(files, true, OleParsed(ss), false)[OleSafeName(Listed(ss)[i].path)] == Listed(ss)[i].data
  {
    OleWritesOfListed(ss);
    LastWriterWins(files, OleWrites(ss), i);
  }

  /** Every file extract_ole creates or changes lies directly in the output
      directory and is named after a named stream: its components joined
      with '_', with no '/' left. */
  lemma OleWritesStayInside(files: map<string, seq<byte>>, ss: seq<OleStream>, k: string)
    requires !SameAt(OleFiles(files, true, OleParsed(ss), false), files, k)
    ensures Writable(k) && Sep !in k
    ensures exists j :: (0 <= j < |Listed(ss)| && Listed(ss)[j].path != [] &&
                         k == Join(ReplaceEach(Listed(ss)[j].path), Underscore))
  {
    var ws, named := OleWrites(ss), Listed(ss);
    assert !SameAt(ApplyAll(files, ws), files, k);
    ChangedOnlyByWrites(files, ws, k);
    var j :| 0 <= j < |ws| && Touches(ws[j], k);
    OleWritesOfListed(ss);
    assert ws[j] == OleWrite(named[j]);
    OleSafeNameIsUnderscoreJoin(named[j].path);
    assert named[j].path != [] && k == Join(ReplaceEach(named[j].path), Underscore);
  }

  /** Extracting the same compound file twice leaves what extracting it once
      left, when every stream meets the same fate both times. */
  lemma OleExtractionIdempotent(files: map<string, seq<byte>>, isOle: bool, opening: OleOpen, listOnly: bool)
    ensures OleFiles(OleFiles(files, isOle, opening, listOnly), isOle, opening, listOnly) == OleFiles(files, isOle, opening, listOnly)
  {
    if isOle && opening.OleParsed? && !listOnly {
      ApplyAllIdempotent(files, OleWrites(opening.streams));
    }
  }

  // ------------------------------------------------------------ no container

  /** An archive that cannot be opened leaves the directory as it was and is
      reported once, as not a ZIP archive or as an error. */
  lemma ZipUnopenedWritesNothing(files: map<string, seq<byte>>, opening: ZipOpen, listOnly: bool)
    requires !opening.ZipParsed?
    ensures ZipFiles(files, opening, listOnly) == files
    ensures ZipLog(opening, listOnly) == [if opening.BadZipFile? then NotValidZip else ContainerError]
  {
  }

  /** A file olefile rejects, or a compound file that cannot be opened,
      leaves the directory as it was and is reported once. */
  lemma OleUnopenedWritesNothing(files: map<string, seq<byte>>, isOle: bool, opening: OleOpen, listOnly: bool)
    requires !isOle || !opening.OleParsed?
    ensures OleFiles(files, isOle, opening, listOnly) == files
    ensures OleLog(isOle, opening, listOnly) == [if !isOle then NotValidOle else ContainerError]
  {
  }
}
