/** The maintenance script fix_null_bytes.py: rewrite every Python file
    under a directory without its 0x00 bytes, and count the files that
    were rewritten.

    The file system is a `FileSystem` object: the byte content of every
    readable path, and the paths that cannot be opened for writing. The
    output of os.walk is a sequence of (file name, joined path) entries. */
module NullBytes {
  import opened PyStrings

  type Bytes = seq<bv8>

  /** How many times byte `b` occurs in `s`. */
  function Occurrences(s: Bytes, b: bv8): (n: nat)
    ensures n <= |s|
    ensures n == 0 <==> b !in s
  {
    if s == [] then 0 else (if s[0] == b then 1 else 0) + Occurrences(s[1..], b)
  }

  /** `content.replace(b'\x00', b'')`: every 0x00 byte goes, every other
      byte stays as often as it occurred. */
  function RemoveNulls(content: Bytes): (r: Bytes)
    ensures 0 !in r
    ensures |r| == |content| - Occurrences(content, 0)
    ensures forall b :: b != 0 ==> Occurrences(r, b) == Occurrences(content, b)
    ensures 0 !in content ==> r == content
  {
    if content == [] then []
    else
      var head: Bytes := if content[0] == 0 then [] else [content[0]];
      var rest := RemoveNulls(content[1..]);
      assert forall b :: Occurrences(head + rest, b) == Occurrences(head, b) + Occurrences(rest, b) by {
        forall b ensures Occurrences(head + rest, b) == Occurrences(head, b) + Occurrences(rest, b) {
          if head != [] {
            assert (head + rest)[1..] == rest;
          } else {
            assert head + rest == rest;
          }
        }
      }
      head + rest
  }

  /** Removing null bytes works piece by piece: with RemoveNulls([b]) being
      [] for b == 0 and [b] otherwise, this pins down that every other
      byte is kept, in its original order. */
  lemma {:induction false} RemoveNullsAppend(a: Bytes, b: Bytes)
    ensures RemoveNulls(a + b) == RemoveNulls(a) + RemoveNulls(b)
    decreases |a|
  {
    if a == [] {
      assert a + b == b;
    } else {
      assert (a + b)[0] == a[0] && (a + b)[1..] == a[1..] + b;
      RemoveNullsAppend(a[1..], b);
    }
  }

  /** A second pass finds nothing left to remove. */
  lemma RemoveNullsIdempotent(content: Bytes)
    ensures RemoveNulls(RemoveNulls(content)) == RemoveNulls(content)
  {
  }

  /** One file as os.walk reports it: its name and its joined path. */
  datatype WalkEntry = WalkEntry(name: string, path: string)

  predicate IsPython(e: WalkEntry) {
    EndsWith(e.name, ".py")
  }

  /** fix_file rewrites `path` exactly when it can be read, holds a 0x00
      byte, and can be opened for writing; any other case returns False
      (a read or write error is caught) and leaves the file alone. */
  predicate Fixes(files: map<string, Bytes>, readOnly: set<string>, path: string) {
    path in files && 0 in files[path] && path !in readOnly
  }

  /** The files after fix_file(path). */
  function AfterFix(files: map<string, Bytes>, readOnly: set<string>, path: string): (r: map<string, Bytes>)
    ensures r.Keys == files.Keys
    ensures forall p :: p in files && p != path ==> r[p] == files[p]
  {
    if Fixes(files, readOnly, path) then files[path := RemoveNulls(files[path])] else files
  }

  /** fix_file on a file it has already fixed returns False and writes
      nothing. */
  lemma FixIdempotent(files: map<string, Bytes>, readOnly: set<string>, path: string)
    ensures !Fixes(AfterFix(files, readOnly, path), readOnly, path)
    ensures AfterFix(AfterFix(files, readOnly, path), readOnly, path) == AfterFix(files, readOnly, path)
  {
  }

  /** The count and the files after scan_directory has handled a walk. */
  datatype ScanState = ScanState(count: nat, files: map<string, Bytes>)

  function ScanAll(walk: seq<WalkEntry>, files: map<string, Bytes>, readOnly: set<string>): ScanState {
    if walk == [] then ScanState(0, files)
    else
      var st := ScanAll(walk[..|walk| - 1], files, readOnly);
      var e := walk[|walk| - 1];
      if !IsPython(e) then st
      else ScanState(st.count + (if Fixes(st.files, readOnly, e.path) then 1 else 0),
                     AfterFix(st.files, readOnly, e.path))
  }

  /** The number of Python entries of a walk. */
  function PythonCount(walk: seq<WalkEntry>): nat {
    if walk == [] then 0
    else PythonCount(walk[..|walk| - 1]) + (if IsPython(walk[|walk| - 1]) then 1 else 0)
  }

  /** scan_directory never counts more files than the walk has Python
      files, and it never creates or deletes a file. */
  lemma {:induction false} ScanCountBound(walk: seq<WalkEntry>, files: map<string, Bytes>, readOnly: set<string>)
    ensures ScanAll(walk, files, readOnly).count <= PythonCount(walk)
    ensures ScanAll(walk, files, readOnly).files.Keys == files.Keys
    decreases |walk|
  {
    if walk != [] {
      ScanCountBound(walk[..|walk| - 1], files, readOnly);
    }
  }

  /** After the scan, every walked Python file that exists and is writable
      is free of 0x00 bytes, and every file the walk did not list as a
      Python file is untouched. */
  lemma {:induction false} ScanCleans(walk: seq<WalkEntry>, files: map<string, Bytes>, readOnly: set<string>)
    ensures var after := ScanAll(walk, files, readOnly).files;
      && (forall i :: 0 <= i < |walk| && IsPython(walk[i]) && walk[i].path in files && walk[i].path !in readOnly ==>
            walk[i].path in after && 0 !in after[walk[i].path])
      && (forall p :: p in files && (forall i :: 0 <= i < |walk| && IsPython(walk[i]) ==> walk[i].path != p) ==>
            p in after && after[p] == files[p])
    decreases |walk|
  {
    if walk != [] {
      var n := |walk| - 1;
      ScanCleans(walk[..n], files, readOnly);
      ScanCountBound(walk[..n], files, readOnly);
      var st := ScanAll(walk[..n], files, readOnly);
      forall i | 0 <= i < |walk| && IsPython(walk[i]) && walk[i].path in files && walk[i].path !in readOnly
        ensures walk[i].path in ScanAll(walk, files, readOnly).files && 0 !in ScanAll(walk, files, readOnly).files[walk[i].path]
      {
        if i < n {
          assert walk[..n][i] == walk[i];
        }
      }
      forall p | p in files && (forall i :: 0 <= i < |walk| && IsPython(walk[i]) ==> walk[i].path != p)
        ensures p in ScanAll(walk, files, readOnly).files && ScanAll(walk, files, readOnly).files[p] == files[p]
      {
        forall i | 0 <= i < n && IsPython(walk[..n][i]) ensures walk[..n][i].path != p {
          assert walk[..n][i] == walk[i];
        }
      }
    }
  }

  /** The Python entries of a walk whose file would be fixed on its own. */
  function FixableCount(walk: seq<WalkEntry>, files: map<string, Bytes>, readOnly: set<string>): nat {
    if walk == [] then 0
    else
      var e := walk[|walk| - 1];
      FixableCount(walk[..|walk| - 1], files, readOnly) + (if IsPython(e) && Fixes(files, readOnly, e.path) then 1 else 0)
  }

  predicate DistinctPaths(walk: seq<WalkEntry>) {
    forall i, j :: 0 <= i < j < |walk| ==> walk[i].path != walk[j].path
  }

  /** os.walk lists every file once; then scan_directory returns the
      number of Python files that held a 0x00 byte and could be written. */
  lemma {:induction false} ScanCountExact(walk: seq<WalkEntry>, files: map<string, Bytes>, readOnly: set<string>)
    requires DistinctPaths(walk)
    ensures ScanAll(walk, files, readOnly).count == FixableCount(walk, files, readOnly)
    decreases |walk|
  {
    if walk != [] {
      var n := |walk| - 1;
      var e := walk[n];
      assert DistinctPaths(walk[..n]);
      ScanCountExact(walk[..n], files, readOnly);
      if IsPython(e) && e.path in files {
        ScanCleans(walk[..n], files, readOnly);
        assert forall i :: 0 <= i < n && IsPython(walk[..n][i]) ==> walk[..n][i].path != e.path;
      }
      ScanCountBound(walk[..n], files, readOnly);
    }
  }

  /** The file system the script sees. */
  class FileSystem {
    /** The content of every path that can be opened for reading. */
    var files: map<string, Bytes>
    /** Paths whose opening for writing raises. */
    var readOnly: set<string>

    constructor (files: map<string, Bytes>, readOnly: set<string>)
      ensures this.files == files && this.readOnly == readOnly
    {
      this.files := files;
      this.readOnly := readOnly;
    }

    /** fix_file: read the file, and when it holds a 0x00 byte write it
        back without them and return True. */
    method FixFile(path: string) returns (fixed: bool)
      modifies this
      ensures readOnly == old(readOnly)
      ensures fixed == Fixes(old(files), readOnly, path)
      ensures files == AfterFix(old(files), readOnly, path)
    {
      if path !in files {
        return false;
      }
      var content := files[path];
      if 0 in content {
        var fixedContent := RemoveNulls(content);
        if path in readOnly {
          return false;
        }
        files := files[path := fixedContent];
        return true;
      }
      return false;
    }

    /** scan_directory: fix every walked file whose name ends in ".py" and
        count the ones fix_file reports as fixed. */
    method ScanDirectory(walk: seq<WalkEntry>) returns (fixedCount: nat)
      modifies this
      ensures readOnly == old(readOnly)
      ensures ScanState(fixedCount, files) == ScanAll(walk, old(files), readOnly)
    {
      fixedCount := 0;
      var i := 0;
      while i < |walk|
        invariant 0 <= i <= |walk| && readOnly == old(readOnly)
        invariant ScanState(fixedCount, files) == ScanAll(walk[..i], old(files), readOnly)
      {
        if EndsWith(walk[i].name, ".py") {
          var fixed := FixFile(walk[i].path);
          if fixed {
            fixedCount := fixedCount + 1;
          }
        }
        assert walk[..i + 1][..i] == walk[..i];
        i := i + 1;
      }
      assert walk[..i] == walk;
    }
  }
}
