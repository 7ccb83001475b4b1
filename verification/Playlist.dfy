/** Resolution of the playback list (`pcd_playlist.cpp`): explicit list, else
    directory and glob, else single file. */
module Playlist {
  import opened Prelude
  import Glob
  import TextOrder

  datatype Kind = Absent | Directory | File

  datatype DirEntry = DirEntry(name: string, regular: bool)

  /** One state of the file system: what each path is, and the order in which an
      iteration over each directory happens to yield its entries, if the
      directory can be opened at all. */
  datatype FileSystem = FileSystem(kind: string -> Kind, scan: string -> Option<seq<DirEntry>>) {
    /** What `directory_iterator(dir, ec)` yields: nothing when it fails. */
    function Listing(directory: string): seq<DirEntry> {
      match scan(directory) case None => [] case Some(entries) => entries
    }
  }

  datatype Inputs = Inputs(pcdFile: string, pcdFiles: seq<string>, pcdDirectory: string, pcdGlob: string)

  datatype Source = PcdFiles | PcdDirectory | PcdFile

  datatype Reason =
    | EmptyEntry(index: nat)
    | EntryMissing(path: string)
    | EntryIsDirectory(path: string)
    | GlobEmpty
    | DirectoryMissing(path: string)
    | NotADirectory(path: string)
    | NothingMatched
    | ScanFailed(path: string)
    | NoSource

  datatype Resolution = Fail(reason: Reason) | Ok(source: Source, entries: seq<string>)

  /** `directory / name`. */
  function PathOf(directory: string, name: string): string {
    if directory != "" && directory[|directory| - 1] == '/' then directory + name
    else directory + "/" + name
  }

  /** The path leads from the directory to the name: behind its last slash stands the
      name, in front of it the directory, with or without its own slash. */
  lemma PathLeads(directory: string, name: string)
    requires '/' !in name
    ensures var path := PathOf(directory, name); var slash := FindLast(path, '/');
            && slash.Some? && path[slash.value + 1..] == name
            && (path[..slash.value] == directory || path[..slash.value + 1] == directory)
  {
    var path := PathOf(directory, name);
    var i := |path| - |name| - 1;
    assert path[i + 1..] == name;
    LastAt(path, '/', i);
    assert path[..i] == directory || path[..i + 1] == directory;
  }

  /** Why a single path cannot be an entry, if it cannot. */
  function EntryFault(fs: FileSystem, path: string): Option<Reason> {
    match fs.kind(path)
    case Absent => Some(EntryMissing(path))
    case Directory => Some(EntryIsDirectory(path))
    case File => None
  }

  function ListedFault(fs: FileSystem, files: seq<string>, i: nat): Option<Reason>
    requires i < |files|
  {
    if files[i] == "" then Some(EmptyEntry(i)) else EntryFault(fs, files[i])
  }

  predicate Chosen(glob: string, e: DirEntry) {
    e.regular && Glob.Outcome(glob, e.name)
  }

  /** Paths of the chosen entries, in iteration order. */
  function Scanned(directory: string, glob: string, listing: seq<DirEntry>): seq<string> {
    if listing == [] then []
    else
      var n := |listing| - 1;
      Scanned(directory, glob, listing[..n]) +
      if Chosen(glob, listing[n]) then [PathOf(directory, listing[n].name)] else []
  }

  /** A path can be an entry exactly when it exists and is no directory. */
  lemma EntryIff(fs: FileSystem, path: string)
    ensures EntryFault(fs, path) == None <==> fs.kind(path) != Absent && fs.kind(path) != Directory
    ensures EntryFault(fs, path) == Some(EntryIsDirectory(path)) <==> fs.kind(path) == Directory
    ensures EntryFault(fs, path).Some? ==>
              EntryFault(fs, path).value == EntryIsDirectory(path) || EntryFault(fs, path).value == EntryMissing(path)
  {
  }

  /** An explicit list is faulted at the position of an empty entry, else as the path. */
  lemma ListedIff(fs: FileSystem, files: seq<string>, i: nat)
    requires i < |files|
    ensures ListedFault(fs, files, i) == Some(EmptyEntry(i)) <==> files[i] == ""
    ensures files[i] != "" ==> ListedFault(fs, files, i) == EntryFault(fs, files[i])
  {
  }

  method EnsureRegularFile(fs: FileSystem, path: string) returns (fault: Option<Reason>)
    ensures fault == EntryFault(fs, path)
  {
    if fs.kind(path) == Absent {
      return Some(EntryMissing(path));
    }
    if fs.kind(path) == Directory {
      return Some(EntryIsDirectory(path));
    }
    return None;
  }

  method ResolvePcdPlaylist(inputs: Inputs, fs: FileSystem) returns (r: Resolution)
    // 1. an explicit list is used as it is, or refused for its first fault
    ensures inputs.pcdFiles != [] && r.Ok? ==>
              && r == Ok(PcdFiles, inputs.pcdFiles)
              && forall i :: 0 <= i < |inputs.pcdFiles| ==> ListedFault(fs, inputs.pcdFiles, i).None?
    ensures inputs.pcdFiles != [] && r.Fail? ==>
              exists i :: 0 <= i < |inputs.pcdFiles| && ListedFault(fs, inputs.pcdFiles, i) == Some(r.reason)
                          && forall k :: 0 <= k < i ==> ListedFault(fs, inputs.pcdFiles, k).None?
    // 2. a directory is scanned only without a list
    ensures inputs.pcdFiles == [] && inputs.pcdDirectory != "" ==> r == FromDirectory(inputs, fs)
    // 3. the single file is used only without either
    ensures inputs.pcdFiles == [] && inputs.pcdDirectory == "" ==>
              r == if inputs.pcdFile == "" then Fail(NoSource)
                   else match EntryFault(fs, inputs.pcdFile)
                        case Some(reason) => Fail(reason)
                        case None => Ok(PcdFile, [inputs.pcdFile])
    ensures r.Ok? ==> r.entries != []
  {
    if inputs.pcdFiles != [] {
      var entries: seq<string> := [];
      var i := 0;
      while i < |inputs.pcdFiles|
        invariant 0 <= i <= |inputs.pcdFiles|
        invariant entries == inputs.pcdFiles[..i]
        invariant forall k :: 0 <= k < i ==> ListedFault(fs, inputs.pcdFiles, k).None?
      {
        var p := inputs.pcdFiles[i];
        if p == "" {
          assert ListedFault(fs, inputs.pcdFiles, i) == Some(EmptyEntry(i));
          return Fail(EmptyEntry(i));
        }
        var fault := EnsureRegularFile(fs, p);
        if fault.Some? {
          assert ListedFault(fs, inputs.pcdFiles, i) == Some(fault.value);
          return Fail(fault.value);
        }
        entries := entries + [p];
        i := i + 1;
      }
      return Ok(PcdFiles, entries);
    }
    if inputs.pcdDirectory != "" {
      if inputs.pcdGlob == "" {
        return Fail(GlobEmpty);
      }
      if fs.kind(inputs.pcdDirectory) == Absent {
        return Fail(DirectoryMissing(inputs.pcdDirectory));
      }
      if fs.kind(inputs.pcdDirectory) != Directory {
        return Fail(NotADirectory(inputs.pcdDirectory));
      }
      var entries: seq<string> := [];
      var listing := fs.Listing(inputs.pcdDirectory);
      var i := 0;
      while i < |listing|
        invariant 0 <= i <= |listing|
        invariant entries == Scanned(inputs.pcdDirectory, inputs.pcdGlob, listing[..i])
      {
        assert listing[..i + 1][..i] == listing[..i];
        var e := listing[i];
        i := i + 1;
        if !e.regular {
          continue;
        }
        var matched, _ := Glob.WildcardMatch(inputs.pcdGlob, e.name);
        if !matched {
          continue;
        }
        entries := entries + [PathOf(inputs.pcdDirectory, e.name)];
      }
      assert listing[..i] == listing;
      if entries == [] {
        return Fail(NothingMatched);
      }
      SortKeepsNonEmpty(entries);
      return Ok(PcdDirectory, TextOrder.Sort(entries));
    }
    if inputs.pcdFile != "" {
      var fault := EnsureRegularFile(fs, inputs.pcdFile);
      if fault.Some? {
        return Fail(fault.value);
      }
      return Ok(PcdFile, [inputs.pcdFile]);
    }
    return Fail(NoSource);
  }

  lemma SortKeepsNonEmpty(s: seq<string>)
    requires s != []
    ensures TextOrder.Sort(s) != []
  {
    TextOrder.SortSorts(s);
    assert |multiset(s)| == |s|;
  }

  function FromDirectory(inputs: Inputs, fs: FileSystem): Resolution {
    if inputs.pcdGlob == "" then Fail(GlobEmpty)
    else if fs.kind(inputs.pcdDirectory) == Absent then Fail(DirectoryMissing(inputs.pcdDirectory))
    else if fs.kind(inputs.pcdDirectory) != Directory then Fail(NotADirectory(inputs.pcdDirectory))
    else
      var entries := Scanned(inputs.pcdDirectory, inputs.pcdGlob, fs.Listing(inputs.pcdDirectory));
      if entries == [] then Fail(NothingMatched) else Ok(PcdDirectory, TextOrder.Sort(entries))
  }

  // ------------------------------------------------ failures of the scan

  /** What the error messages announce: a scan that fails is reported as such. */
  function Announced(inputs: Inputs, fs: FileSystem): Resolution {
    if inputs.pcdGlob != "" && fs.kind(inputs.pcdDirectory) == Directory && fs.scan(inputs.pcdDirectory).None?
    then Fail(ScanFailed(inputs.pcdDirectory))
    else FromDirectory(inputs, fs)
  }

  /** A directory that cannot be opened counts as one without matches: its error
      code is tested only inside the loop, which then never runs. */
  lemma AnnouncedIff(inputs: Inputs, fs: FileSystem)
    ensures FromDirectory(inputs, fs) == Announced(inputs, fs) <==>
            !(inputs.pcdGlob != "" && fs.kind(inputs.pcdDirectory) == Directory && fs.scan(inputs.pcdDirectory).None?)
    ensures !FromDirectory(inputs, fs).Ok? ==> !FromDirectory(inputs, fs).reason.ScanFailed?
  {
  }

  /** A scan yields a playlist exactly when there is a glob, the path is a directory,
      and some regular file in it is accepted; each fault has its own report. */
  lemma FromDirectoryIff(inputs: Inputs, fs: FileSystem)
    ensures FromDirectory(inputs, fs).Ok? <==>
            && inputs.pcdGlob != "" && fs.kind(inputs.pcdDirectory) == Directory
            && fs.scan(inputs.pcdDirectory).Some?
            && exists e :: e in fs.scan(inputs.pcdDirectory).value && Chosen(inputs.pcdGlob, e)
    ensures FromDirectory(inputs, fs) == Fail(GlobEmpty) <==> inputs.pcdGlob == ""
    ensures FromDirectory(inputs, fs) == Fail(DirectoryMissing(inputs.pcdDirectory)) <==>
            inputs.pcdGlob != "" && fs.kind(inputs.pcdDirectory) == Absent
    ensures FromDirectory(inputs, fs) == Fail(NotADirectory(inputs.pcdDirectory)) <==>
            inputs.pcdGlob != "" && fs.kind(inputs.pcdDirectory) == File
    ensures FromDirectory(inputs, fs).Ok? ==> FromDirectory(inputs, fs).source == PcdDirectory
  {
    hide Chosen;
    NothingScanned(inputs.pcdDirectory, inputs.pcdGlob, fs.Listing(inputs.pcdDirectory));
  }

  /** "No files matched" is reported exactly for a directory that cannot be opened
      or holds no regular file whose name the matcher accepts. */
  lemma NothingMatchedIff(inputs: Inputs, fs: FileSystem)
    ensures FromDirectory(inputs, fs) == Fail(NothingMatched) <==>
            && inputs.pcdGlob != "" && fs.kind(inputs.pcdDirectory) == Directory
            && (fs.scan(inputs.pcdDirectory).None?
                || forall e :: e in fs.scan(inputs.pcdDirectory).value ==> !Chosen(inputs.pcdGlob, e))
  {
    hide Glob.Outcome;
    var listing := fs.Listing(inputs.pcdDirectory);
    NothingScanned(inputs.pcdDirectory, inputs.pcdGlob, listing);
  }

  lemma {:induction false} NothingScanned(directory: string, glob: string, listing: seq<DirEntry>)
    ensures Scanned(directory, glob, listing) == [] <==> forall e :: e in listing ==> !Chosen(glob, e)
  {
    if listing != [] {
      var n := |listing| - 1;
      NothingScanned(directory, glob, listing[..n]);
      assert listing == listing[..n] + [listing[n]];
    }
  }

  // ------------------------------------------------ independence of iteration

  lemma {:induction false} ScannedSplits(directory: string, glob: string, a: seq<DirEntry>, b: seq<DirEntry>)
    ensures Scanned(directory, glob, a + b) == Scanned(directory, glob, a) + Scanned(directory, glob, b)
  {
    if b == [] {
      assert a + b == a;
    } else {
      var n := |b| - 1;
      assert (a + b)[..|a + b| - 1] == a + b[..n];
      ScannedSplits(directory, glob, a, b[..n]);
    }
  }

  function Without<T>(s: seq<T>, j: nat): seq<T>
    requires j < |s|
  {
    s[..j] + s[j + 1..]
  }

  lemma WithoutRemovesOne<T>(s: seq<T>, j: nat)
    requires j < |s|
    ensures multiset(Without(s, j)) == multiset(s) - multiset{s[j]}
  {
    assert s == s[..j] + ([s[j]] + s[j + 1..]);
  }

  lemma ScannedWithout(directory: string, glob: string, s: seq<DirEntry>, j: nat)
    requires j < |s|
    ensures multiset(Scanned(directory, glob, s)) ==
            multiset(Scanned(directory, glob, Without(s, j))) + multiset(Scanned(directory, glob, [s[j]]))
  {
    assert s == s[..j] + ([s[j]] + s[j + 1..]);
    ScannedSplits(directory, glob, s[..j], [s[j]] + s[j + 1..]);
    ScannedSplits(directory, glob, [s[j]], s[j + 1..]);
    ScannedSplits(directory, glob, s[..j], s[j + 1..]);
  }

  /** Permuting the directory listing permutes what the scan collects. */
  lemma {:induction false} ScannedPermutes(directory: string, glob: string, a: seq<DirEntry>, b: seq<DirEntry>)
    requires multiset(a) == multiset(b)
    ensures multiset(Scanned(directory, glob, a)) == multiset(Scanned(directory, glob, b))
    decreases |a|
  {
    if a == [] {
      assert |multiset(b)| == |b|;
    } else {
      assert a[0] in multiset(b);
      var j :| 0 <= j < |b| && b[j] == a[0];
      WithoutRemovesOne(a, 0);
      WithoutRemovesOne(b, j);
      ScannedPermutes(directory, glob, Without(a, 0), Without(b, j));
      ScannedWithout(directory, glob, a, 0);
      ScannedWithout(directory, glob, b, j);
    }
  }

  /** The same directory content gives the same playlist, in the same order,
      whatever order the file system iterates in. */
  lemma PlaylistIgnoresIterationOrder(inputs: Inputs, fs: FileSystem, fs': FileSystem)
    requires fs.kind == fs'.kind
    requires multiset(fs.Listing(inputs.pcdDirectory)) == multiset(fs'.Listing(inputs.pcdDirectory))
    ensures FromDirectory(inputs, fs) == FromDirectory(inputs, fs')
  {
    var a := Scanned(inputs.pcdDirectory, inputs.pcdGlob, fs.Listing(inputs.pcdDirectory));
    var b := Scanned(inputs.pcdDirectory, inputs.pcdGlob, fs'.Listing(inputs.pcdDirectory));
    ScannedPermutes(inputs.pcdDirectory, inputs.pcdGlob,
                    fs.Listing(inputs.pcdDirectory), fs'.Listing(inputs.pcdDirectory));
    TextOrder.SortSorts(a);
    TextOrder.SortSorts(b);
    TextOrder.SortedPermutationIsUnique(TextOrder.Sort(a), TextOrder.Sort(b));
    assert |multiset(a)| == |multiset(b)|;
  }

  lemma {:induction false} ScannedHolds(directory: string, glob: string, listing: seq<DirEntry>, path: string)
    ensures path in Scanned(directory, glob, listing) <==>
            exists e :: e in listing && Chosen(glob, e) && path == PathOf(directory, e.name)
  {
    if listing != [] {
      var n := |listing| - 1;
      ScannedHolds(directory, glob, listing[..n], path);
      assert listing == listing[..n] + [listing[n]];
    }
  }

  /** When no file name holds a `*`, a path is played exactly when it names a
      regular file that the glob matches as documented. */
  lemma PlaylistMeansGlob(inputs: Inputs, fs: FileSystem, path: string)
    requires FromDirectory(inputs, fs).Ok?
    requires forall e :: e in fs.Listing(inputs.pcdDirectory) ==> '*' !in e.name
    ensures TextOrder.Sorted(FromDirectory(inputs, fs).entries)
    ensures path in FromDirectory(inputs, fs).entries <==>
            exists e :: e in fs.Listing(inputs.pcdDirectory) && e.regular && Glob.Matches(inputs.pcdGlob, e.name)
                        && path == PathOf(inputs.pcdDirectory, e.name)
  {
    var listing := fs.Listing(inputs.pcdDirectory);
    var found := Scanned(inputs.pcdDirectory, inputs.pcdGlob, listing);
    TextOrder.SortSorts(found);
    assert path in multiset(TextOrder.Sort(found)) <==> path in multiset(found);
    ScannedHolds(inputs.pcdDirectory, inputs.pcdGlob, listing, path);
    forall e | e in listing ensures Chosen(inputs.pcdGlob, e) <==> e.regular && Glob.Matches(inputs.pcdGlob, e.name) {
      Glob.AgreesOnTextIff(e.name);
    }
  }
}
