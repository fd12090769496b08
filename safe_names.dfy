/** Output file names derived from the names of container entries.

    A ZIP entry keeps only the part of its name after the last '/'
    (main.py line 38); an OLE stream's name components are joined with '/'
    (line 69), every '/' becomes '_' and the last segment is taken (line 80).
    Only the POSIX separator '/' is modelled.
 */
module SafeNames {

  /** The path separator of os.path on POSIX. */
  const Sep: char := '/'

  /** The character OLE stream paths use in place of Sep. */
  const Underscore: char := '_'

  /** r is a (not necessarily proper) suffix of s. */
  predicate IsSuffix(r: string, s: string)
  {
    |r| <= |s| && s[|s| - |r|..] == r
  }

  /** os.path.basename on POSIX: everything after the last '/'. The result is
      the longest suffix of s without a separator; see BasenameUnique. */
  function Basename(s: string): (r: string)
    ensures Sep !in r
    ensures IsSuffix(r, s)
    ensures |r| < |s| ==> s[|s| - |r| - 1] == Sep
    decreases |s|
  {
    if s == [] || s[|s| - 1] == Sep then []
    else
      var init := s[..|s| - 1];
      var b := Basename(init);
      assert s[|s| - |b| - 1..] == init[|init| - |b|..] + [s[|s| - 1]];
      b + [s[|s| - 1]]
  }

  /** The three postconditions of Basename determine its result. */
  lemma BasenameUnique(s: string, r: string)
    requires Sep !in r
    requires IsSuffix(r, s)
    requires |r| < |s| ==> s[|s| - |r| - 1] == Sep
    ensures r == Basename(s)
  {
  }

  /** A name without a separator is its own basename. */
  lemma BasenameOfPlain(s: string)
    requires Sep !in s
    ensures Basename(s) == s
  {
    BasenameUnique(s, s);
  }

  /** Taking the basename twice changes nothing. */
  lemma BasenameIdempotent(s: string)
    ensures Basename(Basename(s)) == Basename(s)
  {
    BasenameOfPlain(Basename(s));
  }

  /** Directory components, '..' among them, never survive: the basename of
      a name with a separator in it is the basename of what follows it. */
  lemma BasenameAfterSeparator(dir: string, rest: string)
    ensures Basename(dir + [Sep] + rest) == Basename(rest)
  {
    var s := dir + [Sep] + rest;
    var b := Basename(rest);
    assert s[|s| - |b|..] == rest[|rest| - |b|..];
    if |b| == |rest| {
      assert s[|s| - |b| - 1] == Sep;
    } else {
      assert s[|s| - |b| - 1] == rest[|rest| - |b| - 1];
    }
    BasenameUnique(s, b);
  }

  /** A plain name after a separator is the basename. */
  lemma BasenameOfPlainAfterSeparator(dir: string, name: string)
    requires Sep !in name
    ensures Basename(dir + [Sep] + name) == name
  {
    BasenameAfterSeparator(dir, name);
    BasenameOfPlain(name);
  }

  /** '../../etc/passwd' lands on 'passwd'. */
  lemma TraversalToPasswd()
    ensures Basename("../../etc/passwd") == "passwd"
  {
    var dir, name := "../../etc", "passwd";
    assert "../../etc/passwd" == dir + [Sep] + name;
    BasenameOfPlainAfterSeparator(dir, name);
  }

  /** 'a/b/../../c' lands on 'c'. */
  lemma TraversalToC()
    ensures Basename("a/b/../../c") == "c"
  {
    var dir, name := "a/b/../..", "c";
    assert "a/b/../../c" == dir + [Sep] + name;
    BasenameOfPlainAfterSeparator(dir, name);
  }

  /** The safe output name of a ZIP entry (main.py line 38): the part of the
      entry name after its last '/'. */
  function ZipSafeName(filename: string): (r: string)
    ensures Sep !in r
    ensures IsSuffix(r, filename)
    ensures |r| < |filename| ==> filename[|filename| - |r| - 1] == Sep
  {
    Basename(filename)
  }

  /** str.join with a one-character separator: no parts give the empty
      string, one part is itself, and otherwise the result starts with the
      first part and ends with the last. */
  function Join(parts: seq<string>, sep: char): (r: string)
    ensures |parts| == 0 ==> r == ""
    ensures |parts| == 1 ==> r == parts[0]
    ensures |parts| > 0 ==> parts[0] <= r && IsSuffix(parts[|parts| - 1], r)
  {
    if |parts| == 0 then ""
    else if |parts| == 1 then parts[0]
    else
      var init := parts[..|parts| - 1];
      assert init[0] == parts[0];
      Join(init, sep) + [sep] + parts[|parts| - 1]
  }

  /** One more part after a non-empty list is one more separator and that part. */
  lemma JoinSnoc(parts: seq<string>, p: string, sep: char)
    requires |parts| > 0
    ensures Join(parts + [p], sep) == Join(parts, sep) + [sep] + p
  {
    var all := parts + [p];
    assert all[..|all| - 1] == parts;
  }

  /** JoinSnoc with the list split in two. */
  lemma JoinSnocSplit(a: seq<string>, init: seq<string>, p: string, sep: char)
    requires |a| > 0
    ensures Join(a + (init + [p]), sep) == Join(a + init, sep) + [sep] + p
  {
    assert a + (init + [p]) == (a + init) + [p];
    JoinSnoc(a + init, p, sep);
  }

  /** Concatenation regrouped around two separators. */
  lemma Regroup(x: string, y: string, z: string, sep: char)
    ensures (x + [sep] + y) + [sep] + z == x + [sep] + (y + [sep] + z)
  {
  }

  /** Joining two non-empty lists of parts is joining each and putting one
      separator between them. With Join([], sep) == "" and Join([p], sep) == p
      this fixes Join: every part appears, in order, one separator apart. */
  lemma {:induction false} JoinConcat(a: seq<string>, b: seq<string>, sep: char)
    requires |a| > 0 && |b| > 0
    ensures Join(a + b, sep) == Join(a, sep) + [sep] + Join(b, sep)
    decreases |b|
  {
    var init, last := b[..|b| - 1], b[|b| - 1];
    assert b == init + [last];
    if init == [] {
      JoinSnoc(a, last, sep);
    } else {
      JoinConcat(a, init, sep);
      JoinSnocSplit(a, init, last, sep);
      JoinSnoc(init, last, sep);
      Regroup(Join(a, sep), Join(init, sep), last, sep);
    }
  }

  /** str.replace('/', '_'): every '/' becomes '_', and nothing else changes. */
  function ReplaceSeparators(s: string): (r: string)
    ensures |r| == |s|
    ensures forall i :: 0 <= i < |s| ==> r[i] == if s[i] == Sep then Underscore else s[i]
    decreases |s|
  {
    if s == [] then []
    else ReplaceSeparators(s[..|s| - 1]) + [if s[|s| - 1] == Sep then Underscore else s[|s| - 1]]
  }

  /** The path of an OLE stream as the extractor prints and opens it
      (main.py line 69): the components joined with '/'. */
  function OleStreamPath(components: seq<string>): (r: string)
    ensures |components| == 0 ==> r == ""
    ensures |components| == 1 ==> r == components[0]
    ensures |components| > 0 ==> components[0] <= r && IsSuffix(components[|components| - 1], r)
  {
    Join(components, Sep)
  }

  /** The safe output name of an OLE stream (main.py line 80). Once every '/'
      is replaced none is left, so the basename keeps the whole replaced path. */
  function OleSafeName(components: seq<string>): (r: string)
    ensures Sep !in r
    ensures r == ReplaceSeparators(OleStreamPath(components))
  {
    var replaced := ReplaceSeparators(OleStreamPath(components));
    BasenameOfPlain(replaced);
    Basename(replaced)
  }

  /** Every component with its own separators replaced. */
  function ReplaceEach(components: seq<string>): (r: seq<string>)
    ensures |r| == |components|
  {
    seq(|components|, i requires 0 <= i < |components| => ReplaceSeparators(components[i]))
  }

  /** The replacement works character by character. */
  lemma {:induction false} ReplaceSeparatorsConcat(a: string, b: string)
    ensures ReplaceSeparators(a + b) == ReplaceSeparators(a) + ReplaceSeparators(b)
    decreases |b|
  {
    if b == [] {
      assert a + b == a;
    } else {
      var n := |b|;
      assert (a + b)[..|a + b| - 1] == a + b[..n - 1];
      ReplaceSeparatorsConcat(a, b[..n - 1]);
    }
  }

  /** A name without a separator is left as it is. */
  lemma {:induction false} ReplaceSeparatorsOfPlain(s: string)
    requires Sep !in s
    ensures ReplaceSeparators(s) == s
    decreases |s|
  {
    if s != [] {
      assert s == s[..|s| - 1] + [s[|s| - 1]];
      ReplaceSeparatorsOfPlain(s[..|s| - 1]);
    }
  }

  /** Replacing after joining with '/' is joining with '_' after replacing. */
  lemma {:induction false} ReplaceJoin(components: seq<string>)
    ensures ReplaceSeparators(Join(components, Sep)) == Join(ReplaceEach(components), Underscore)
    decreases |components|
  {
    var n := |components|;
    if n >= 2 {
      var init, last := components[..n - 1], components[n - 1];
      calc {
        ReplaceSeparators(Join(components, Sep));
      ==
        ReplaceSeparators(Join(init, Sep) + [Sep] + last);
      == { ReplaceSeparatorsConcat(Join(init, Sep) + [Sep], last);
           ReplaceSeparatorsConcat(Join(init, Sep), [Sep]); }
        ReplaceSeparators(Join(init, Sep)) + [Underscore] + ReplaceSeparators(last);
      == { ReplaceJoin(init); }
        Join(ReplaceEach(init), Underscore) + [Underscore] + ReplaceSeparators(last);
      == { assert ReplaceEach(components)[..n - 1] == ReplaceEach(init); }
        Join(ReplaceEach(components), Underscore);
      }
    }
  }

  /** The OLE safe name is the stream's components, each with '/' replaced,
      joined with '_'. */
  lemma OleSafeNameIsUnderscoreJoin(components: seq<string>)
    ensures OleSafeName(components) == Join(ReplaceEach(components), Underscore)
  {
    ReplaceJoin(components);
  }

  /** Sanitising an OLE safe name a second time leaves it unchanged. */
  lemma OleSafeNameStable(components: seq<string>)
    ensures Basename(ReplaceSeparators(OleSafeName(components))) == OleSafeName(components)
  {
    var n := OleSafeName(components);
    OleSafeNameIsUnderscoreJoin(components);
    ReplaceSeparatorsOfPlain(n);
    BasenameOfPlain(n);
  }

  /** A stream with two components, neither holding a '/', is written as
      the two joined with '_'. */
  lemma OleTwoPlainComponents(a: string, b: string)
    requires Sep !in a && Sep !in b
    ensures OleSafeName([a, b]) == a + [Underscore] + b
  {
    assert Join([a, b], Sep) == a + [Sep] + b by {
      assert [a, b][..1] == [a];
    }
    assert ReplaceSeparators(a + [Sep] + b) == a + [Underscore] + b by {
      ReplaceSeparatorsConcat(a + [Sep], b);
      ReplaceSeparatorsConcat(a, [Sep]);
      ReplaceSeparatorsOfPlain(a);
      ReplaceSeparatorsOfPlain(b);
      assert [Sep][..0] == [];
    }
    BasenameOfPlain(a + [Underscore] + b);
  }

  /** A stream with one component without '/' is written under that name. */
  lemma OleOnePlainComponent(a: string)
    requires Sep !in a
    ensures OleSafeName([a]) == a
  {
    ReplaceSeparatorsOfPlain(a);
    BasenameOfPlain(a);
  }

  /** The stream ["Root Entry", "Data"] is written as 'Root Entry_Data'. */
  lemma OleExampleName()
    ensures OleSafeName(["Root Entry", "Data"]) == "Root Entry_Data"
  {
    OleTwoPlainComponents("Root Entry", "Data");
  }

  /** Different streams can share a safe name: for any two components
      without '/', the stream [a, b] and the one-component stream [a + "_" + b]
      are both written as a + "_" + b, so the later one overwrites the other. */
  lemma OleNamesCollide(a: string, b: string)
    requires Sep !in a && Sep !in b
    ensures [a, b] != [a + [Underscore] + b]
    ensures OleSafeName([a, b]) == OleSafeName([a + [Underscore] + b]) == a + [Underscore] + b
  {
    OleTwoPlainComponents(a, b);
    OleOnePlainComponent(a + [Underscore] + b);
  }
}
