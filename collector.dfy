/** scan_and_read_python_files with the file system abstracted: the directory
    walk is given as the ordered list of what os.walk yields, each file with
    the text that reading it produces. */
module Collector {
  import opened Strings

  datatype WalkFile = WalkFile(name: string, content: string)

  /** One (root, dirs, files) step of os.walk; the subdirectory names play no part. */
  datatype WalkDir = WalkDir(root: string, files: seq<WalkFile>)

  /** A file of the walk under its joined path. */
  datatype Entry = Entry(path: string, name: string, content: string)

  /** os.path.join(root, name) on POSIX: an absolute name replaces the root,
      otherwise a '/' is put between them unless the root is empty or already
      ends with one. */
  function JoinPath(root: string, name: string): (path: string)
    ensures EndsWith(path, name)
  {
    if |name| > 0 && name[0] == '/' then name
    else if root == [] || EndsWith(root, "/") then root + name
    else root + "/" + name
  }

  predicate IsPythonFile(name: string)
  {
    EndsWith(name, ".py")
  }

  /** The header line written before each file's text. */
  function Header(path: string): string
  {
    "\n\n# File: " + path + "\n"
  }

  /** What one file of a walk step adds to the collected text. */
  function FileText(root: string, f: WalkFile): string
  {
    if IsPythonFile(f.name) then Header(JoinPath(root, f.name)) + f.content else ""
  }

  /** The text the inner loop adds for one walk step. */
  function DirText(root: string, files: seq<WalkFile>): string
  {
    if files == [] then "" else FileText(root, files[0]) + DirText(root, files[1..])
  }

  /** The text the outer loop accumulates over the whole walk. */
  function WalkText(walk: seq<WalkDir>): string
  {
    if walk == [] then "" else DirText(walk[0].root, walk[0].files) + WalkText(walk[1..])
  }

  lemma {:induction false} DirTextAppend(root: string, files: seq<WalkFile>, f: WalkFile)
    ensures DirText(root, files + [f]) == DirText(root, files) + FileText(root, f)
  {
    if files == [] {
      assert files + [f] == [f];
    } else {
      assert (files + [f])[1..] == files[1..] + [f];
      DirTextAppend(root, files[1..], f);
    }
  }

  lemma {:induction false} WalkTextAppend(walk: seq<WalkDir>, d: WalkDir)
    ensures WalkText(walk + [d]) == WalkText(walk) + DirText(d.root, d.files)
  {
    if walk == [] {
      assert walk + [d] == [d];
    } else {
      assert (walk + [d])[1..] == walk[1..] + [d];
      WalkTextAppend(walk[1..], d);
    }
  }

  /** The nested loops of scan_and_read_python_files: for each step of the
      walk, for each file in it, a name ending in ".py" appends the header and
      then the file's text to the accumulator. */
  method ScanAndReadPythonFiles(walk: seq<WalkDir>) returns (allFilesContent: string)
    ensures allFilesContent == WalkText(walk)
  {
    allFilesContent := "";
    for d := 0 to |walk|
      invariant allFilesContent == WalkText(walk[..d])
    {
      var root, files := walk[d].root, walk[d].files;
      ghost var before := allFilesContent;
      for k := 0 to |files|
        invariant allFilesContent == before + DirText(root, files[..k])
      {
        var file := files[k];
        ghost var accumulated := allFilesContent;
        if IsPythonFile(file.name) {
          var filePath := JoinPath(root, file.name);
          allFilesContent := allFilesContent + Header(filePath);
          allFilesContent := allFilesContent + file.content;
        }
        assert allFilesContent == accumulated + FileText(root, file);
        DirTextStep(before, root, files, k);
      }
      assert files[..|files|] == files;
      WalkTextStep(walk, d);
    }
    assert walk[..|walk|] == walk;
  }

  lemma DirTextStep(before: string, root: string, files: seq<WalkFile>, k: nat)
    requires k < |files|
    ensures before + DirText(root, files[..k + 1])
         == (before + DirText(root, files[..k])) + FileText(root, files[k])
  {
    assert files[..k + 1] == files[..k] + [files[k]];
    DirTextAppend(root, files[..k], files[k]);
  }

  lemma WalkTextStep(walk: seq<WalkDir>, d: nat)
    requires d < |walk|
    ensures WalkText(walk[..d + 1]) == WalkText(walk[..d]) + DirText(walk[d].root, walk[d].files)
  {
    assert walk[..d + 1] == walk[..d] + [walk[d]];
    WalkTextAppend(walk[..d], walk[d]);
  }

  /** Every file of the walk, in walk order, under its joined path. */
  function Entries(walk: seq<WalkDir>): seq<Entry>
  {
    if walk == [] then [] else DirEntries(walk[0].root, walk[0].files) + Entries(walk[1..])
  }

  function DirEntries(root: string, files: seq<WalkFile>): seq<Entry>
  {
    if files == [] then []
    else [Entry(JoinPath(root, files[0].name), files[0].name, files[0].content)]
         + DirEntries(root, files[1..])
  }

  /** The entries whose name ends in ".py", in their original order. */
  function PythonEntries(es: seq<Entry>): (py: seq<Entry>)
    ensures forall e :: e in py <==> e in es && IsPythonFile(e.name)
    ensures |py| <= |es|
  {
    if es == [] then []
    else if IsPythonFile(es[0].name) then [es[0]] + PythonEntries(es[1..])
    else PythonEntries(es[1..])
  }

  /** Each entry rendered as its header followed by its text, joined in order. */
  function Render(es: seq<Entry>): string
  {
    if es == [] then "" else Header(es[0].path) + es[0].content + Render(es[1..])
  }

  lemma {:induction false} PythonEntriesSplit(a: seq<Entry>, b: seq<Entry>)
    ensures PythonEntries(a + b) == PythonEntries(a) + PythonEntries(b)
  {
    if a == [] {
      assert a + b == b;
    } else {
      assert (a + b)[1..] == a[1..] + b;
      PythonEntriesSplit(a[1..], b);
    }
  }

  lemma {:induction false} RenderSplit(a: seq<Entry>, b: seq<Entry>)
    ensures Render(a + b) == Render(a) + Render(b)
  {
    if a == [] {
      assert a + b == b;
    } else {
      assert (a + b)[1..] == a[1..] + b;
      RenderSplit(a[1..], b);
    }
  }

  lemma {:induction false} DirTextIsRender(root: string, files: seq<WalkFile>)
    ensures DirText(root, files) == Render(PythonEntries(DirEntries(root, files)))
  {
    if files != [] {
      var e := Entry(JoinPath(root, files[0].name), files[0].name, files[0].content);
      DirTextIsRender(root, files[1..]);
      PythonEntriesSplit([e], DirEntries(root, files[1..]));
      RenderSplit(PythonEntries([e]), PythonEntries(DirEntries(root, files[1..])));
      assert [e][1..] == [];
    }
  }

  /** The collected text is, in walk order, one header-and-text segment per
      file whose name ends in ".py", and nothing for any other file. */
  lemma {:induction false} CollectedIsPythonFilesInWalkOrder(walk: seq<WalkDir>)
    ensures WalkText(walk) == Render(PythonEntries(Entries(walk)))
  {
    if walk != [] {
      CollectedIsPythonFilesInWalkOrder(walk[1..]);
      DirTextIsRender(walk[0].root, walk[0].files);
      PythonEntriesSplit(DirEntries(walk[0].root, walk[0].files), Entries(walk[1..]));
      RenderSplit(PythonEntries(DirEntries(walk[0].root, walk[0].files)),
                  PythonEntries(Entries(walk[1..])));
    }
  }

  /** Every file of the walk is an entry, and every entry a file of the walk
      under its joined path. */
  lemma {:induction false} EntriesAreWalkFiles(walk: seq<WalkDir>, e: Entry)
    ensures e in Entries(walk) <==>
            exists d, f :: d in walk && f in d.files &&
                           e == Entry(JoinPath(d.root, f.name), f.name, f.content)
  {
    if walk != [] {
      EntriesAreWalkFiles(walk[1..], e);
      DirEntriesAreFiles(walk[0].root, walk[0].files, e);
      if e in Entries(walk) && e !in Entries(walk[1..]) {
        var f :| f in walk[0].files && e == Entry(JoinPath(walk[0].root, f.name), f.name, f.content);
        assert walk[0] in walk;
      }
      if exists d, f :: d in walk && f in d.files &&
                        e == Entry(JoinPath(d.root, f.name), f.name, f.content) {
        var d, f :| d in walk && f in d.files &&
                    e == Entry(JoinPath(d.root, f.name), f.name, f.content);
        if d != walk[0] {
          assert d in walk[1..];
        }
      }
    }
  }

  lemma {:induction false} DirEntriesAreFiles(root: string, files: seq<WalkFile>, e: Entry)
    ensures e in DirEntries(root, files) <==>
            exists f :: f in files && e == Entry(JoinPath(root, f.name), f.name, f.content)
  {
    if files != [] {
      DirEntriesAreFiles(root, files[1..], e);
      if exists f :: f in files && e == Entry(JoinPath(root, f.name), f.name, f.content) {
        var f :| f in files && e == Entry(JoinPath(root, f.name), f.name, f.content);
        if f != files[0] {
          assert f in files[1..];
        }
      }
    }
  }

  /** The collected text is empty exactly when no file of the walk has a name
      ending in ".py". */
  lemma CollectedEmptyIffNoPythonFiles(walk: seq<WalkDir>)
    ensures WalkText(walk) == "" <==>
            forall d, f :: d in walk && f in d.files ==> !IsPythonFile(f.name)
  {
    CollectedIsPythonFilesInWalkOrder(walk);
    var py := PythonEntries(Entries(walk));
    if py != [] {
      assert |Render(py)| > 0 by { assert |Header(py[0].path)| > 0; }
      EntriesAreWalkFiles(walk, py[0]);
    }
    if exists d, f :: d in walk && f in d.files && IsPythonFile(f.name) {
      var d, f :| d in walk && f in d.files && IsPythonFile(f.name);
      EntriesAreWalkFiles(walk, Entry(JoinPath(d.root, f.name), f.name, f.content));
      assert Entry(JoinPath(d.root, f.name), f.name, f.content) in py;
    }
  }

  /** Every path that gets a header ends in ".py". */
  lemma HeaderPathsArePython(walk: seq<WalkDir>)
    ensures forall e :: e in PythonEntries(Entries(walk)) ==> EndsWith(e.path, ".py")
  {
    forall e | e in PythonEntries(Entries(walk))
      ensures EndsWith(e.path, ".py")
    {
      EntriesAreWalkFiles(walk, e);
      var d, f :| d in walk && f in d.files &&
                  e == Entry(JoinPath(d.root, f.name), f.name, f.content);
      EndsWithTransitive(e.path, e.name, ".py");
    }
  }

  /** A walk step holding a.py with text "x" and b.txt with text "y" collects
      a.py's segment alone. */
  lemma OnlyPythonFileCollected()
    ensures WalkText([WalkDir("proj", [WalkFile("a.py", "x"), WalkFile("b.txt", "y")])])
            == "\n\n# File: proj/a.py\nx"
  {
    var files := [WalkFile("a.py", "x"), WalkFile("b.txt", "y")];
    assert files[1..][1..] == [];
    assert !EndsWith("b.txt", ".py") by { assert "b.txt"[2..] != ".py"; }
    assert EndsWith("a.py", ".py") by { assert "a.py"[1..] == ".py"; }
    assert !EndsWith("proj", "/") by { assert "proj"[3..] != "/"; }
  }
}
