/** Replacing the running binary (internal/selfupdate/apply.go) on a file system that records every state it
    passes through, each of which is a point the process may crash at. */
module SelfUpdate {
  import opened Bytes
  import opened Wrappers
  import Checksum

  datatype File = File(content: seq<Byte>, executable: bool)

  type Files = map<string, File>

  class FileSystem {
    var files: Files
    ghost var seen: seq<Files>

    constructor (files: Files)
      ensures this.files == files && seen == [files]
    {
      this.files := files;
      seen := [files];
    }

    method Set(path: string, file: File)
      modifies this
      ensures files == old(files)[path := file] && seen == old(seen) + [files]
    {
      files := files[path := file];
      seen := seen + [files];
    }

    /** Removal of a path that is not there is an error nobody looks at. */
    method Remove(path: string, removable: bool)
      modifies this
      ensures files == (if removable then old(files) - {path} else old(files)) && seen == old(seen) + [files]
    {
      if removable {
        files := files - {path};
      }
      seen := seen + [files];
    }

    method Rename(from: string, to: string)
      requires from in files && from != to
      modifies this
      ensures files == old(files)[to := old(files)[from]] - {from} && seen == old(seen) + [files]
    {
      files := files[to := files[from]] - {from};
      seen := seen + [files];
    }
  }

  /** Which step fails, if any; a failing write has written some beginning of the data, `written` bytes at most. */
  datatype Outcome = CreateFails | WriteFails(written: nat) | CloseFails | ChmodFails | RenameFails | AllSucceed

  /** The state has the whole old file at `dest`, or the whole new one, executable, and every path but `dest`
      and `tmp` as before. */
  ghost predicate IsWhole(now: Files, before: Files, dest: string, tmp: string, data: seq<Byte>) {
    && (forall p :: p != dest && p != tmp ==> (p in now <==> p in before) && (p in now ==> now[p] == before[p]))
    && (SameAt(now, before, dest) || (dest in now && now[dest] == File(data, true)))
  }

  predicate SameAt(now: Files, before: Files, path: string) {
    (path in now <==> path in before) && (path in now ==> now[path] == before[path])
  }

  /** So does every state recorded from position `mark` on. */
  ghost predicate AllWhole(seen: seq<Files>, mark: nat, before: Files, dest: string, tmp: string, data: seq<Byte>) {
    forall i :: mark <= i < |seen| ==> IsWhole(seen[i], before, dest, tmp, data)
  }

  /** While only `tmp` has changed the destination is whole. */
  lemma TempIsWhole(before: Files, dest: string, tmp: string, f: File, data: seq<Byte>)
    requires tmp != dest
    ensures IsWhole(before[tmp := f], before, dest, tmp, data)
  {
  }

  /** So it is when `tmp` is gone again, renamed or removed. */
  lemma EndsAreWhole(before: Files, dest: string, tmp: string, data: seq<Byte>)
    requires tmp !in before && tmp != dest
    ensures IsWhole(before, before, dest, tmp, data)
    ensures forall f {:trigger before[tmp := f]} :: before[tmp := f] - {tmp} == before
    ensures IsWhole(before[tmp := File(data, true)][dest := File(data, true)] - {tmp}, before, dest, tmp, data)
  {
  }

  /** Create the temporary file and write the first `end` bytes of the data to it, one at a time. */
  method WriteTemp(fs: FileSystem, dest: string, tmp: string, data: seq<Byte>, end: nat)
    requires tmp != dest && end <= |data|
    modifies fs
    ensures fs.files == old(fs.files)[tmp := File(data[..end], false)]
    ensures old(fs.seen) <= fs.seen
    ensures AllWhole(fs.seen, |old(fs.seen)|, old(fs.files), dest, tmp, data)
  {
    ghost var before, mark := fs.files, |fs.seen|;
    TempIsWhole(before, dest, tmp, File([], false), data);
    hide IsWhole;
    fs.Set(tmp, File([], false));
    for n := 0 to end
      invariant fs.files == before[tmp := File(data[..n], false)]
      invariant old(fs.seen) <= fs.seen
      invariant AllWhole(fs.seen, mark, before, dest, tmp, data)
    {
      TempIsWhole(before, dest, tmp, File(data[..n + 1], false), data);
      fs.Set(tmp, File(data[..n + 1], false));
    }
  }

  /** Write a temporary file next to the destination, make it executable, rename it over. `tmp` is the fresh
      name the system picks. */
  method ReplaceBinary(fs: FileSystem, dest: string, tmp: string, data: seq<Byte>, outcome: Outcome, removable: bool)
    returns (ok: bool)
    requires tmp !in fs.files && tmp != dest
    modifies fs
    ensures ok <==> outcome.AllSucceed?
    ensures ok ==> dest in fs.files && fs.files[dest] == File(data, true)
    ensures !ok ==> SameAt(fs.files, old(fs.files), dest)
    ensures removable || ok ==> tmp !in fs.files
    ensures old(fs.seen) <= fs.seen
    ensures AllWhole(fs.seen, |old(fs.seen)|, old(fs.files), dest, tmp, data)
    ensures IsWhole(fs.files, old(fs.files), dest, tmp, data)
  {
    ghost var before, mark := fs.files, |fs.seen|;
    EndsAreWhole(before, dest, tmp, data);
    TempIsWhole(before, dest, tmp, File(data, true), data);
    hide IsWhole;
    if outcome.CreateFails? {
      return false;
    }
    var end := if outcome.WriteFails? && outcome.written < |data| then outcome.written else |data|;
    WriteTemp(fs, dest, tmp, data, end);
    ghost var written := before[tmp := File(data[..end], false)];
    TempIsWhole(before, dest, tmp, File(data[..end], false), data);
    if outcome.WriteFails? || outcome.CloseFails? || outcome.ChmodFails? {
      fs.Remove(tmp, removable);
      assert fs.files == if removable then before else written;
      return false;
    }
    assert data[..end] == data;
    fs.Set(tmp, File(data, true));
    ghost var ready := before[tmp := File(data, true)];
    assert fs.files == ready;
    if outcome.RenameFails? {
      fs.Remove(tmp, removable);
      assert fs.files == if removable then before else ready;
      return false;
    }
    fs.Rename(tmp, dest);
    ghost var renamed := ready[dest := File(data, true)] - {tmp};
    assert fs.files == renamed && renamed - {tmp} == renamed;
    fs.Remove(tmp, removable);
    assert fs.files == renamed;
    return true;
  }

  // ----- the archive -----

  /** An entry of the archive: `regular` is a plain file, `intact` one whose content can be read to its end. */
  datatype TarEntry = TarEntry(name: string, regular: bool, content: seq<Byte>, intact: bool)

  const MaxAssetBytes: nat := 104_857_600

  /** What follows the last slash; trailing slashes do not count. */
  function Base(path: string): string
    decreases |path|
  {
    if path == "" then "."
    else if path[|path| - 1] == '/' then (if |path| == 1 then "/" else Base(path[..|path| - 1]))
    else AfterSlash(path)
  }

  function AfterSlash(path: string): string {
    if path == "" || path[|path| - 1] == '/' then "" else AfterSlash(path[..|path| - 1]) + [path[|path| - 1]]
  }

  predicate NoSlash(s: string) {
    forall i :: 0 <= i < |s| ==> s[i] != '/'
  }

  predicate AllSlashes(s: string) {
    forall i :: 0 <= i < |s| ==> s[i] == '/'
  }

  /** `path` is a directory part, a name, and any number of slashes after it. */
  ghost predicate NamedBy(path: string, dir: string, name: string, slashes: string) {
    && path == dir + name + slashes && NoSlash(name) && AllSlashes(slashes)
    && (dir == "" || dir[|dir| - 1] == '/')
  }

  lemma {:induction false} AfterSlashIs(dir: string, name: string)
    requires NoSlash(name) && (dir == "" || dir[|dir| - 1] == '/')
    ensures AfterSlash(dir + name) == name
    decreases |name|
  {
    var path := dir + name;
    if name == "" {
      assert path == dir;
    } else {
      var front := name[..|name| - 1];
      assert path[..|path| - 1] == dir + front && path[|path| - 1] == name[|name| - 1];
      AfterSlashIs(dir, front);
      assert front + [name[|name| - 1]] == name;
    }
  }

  /** The base of a path is its last name, whatever directories stand before it and slashes after it. */
  lemma {:induction false} BaseIs(path: string, dir: string, name: string, slashes: string)
    requires NamedBy(path, dir, name, slashes) && name != ""
    ensures Base(path) == name
    decreases |slashes|
  {
    if slashes == "" {
      assert path == dir + name;
      assert path[|path| - 1] == name[|name| - 1];
      AfterSlashIs(dir, name);
    } else {
      var fewer := slashes[..|slashes| - 1];
      assert path[|path| - 1] == slashes[|slashes| - 1];
      assert path[..|path| - 1] == dir + name + fewer;
      BaseIs(path[..|path| - 1], dir, name, fewer);
    }
  }

  /** Every path but the empty one and those of slashes alone has such a last name. */
  lemma {:induction false} BaseExists(path: string)
    ensures path == "" ==> Base(path) == "."
    ensures path != "" && AllSlashes(path) ==> Base(path) == "/"
    ensures !AllSlashes(path) ==>
              Base(path) != "" && exists dir, slashes :: NamedBy(path, dir, Base(path), slashes)
    decreases |path|
  {
    if path != "" {
      var front, last := path[..|path| - 1], path[|path| - 1];
      assert path == front + [last];
      if last == '/' {
        if |path| > 1 {
          BaseExists(front);
          assert AllSlashes(path) <==> AllSlashes(front);
          if !AllSlashes(front) {
            var dir, slashes :| NamedBy(front, dir, Base(front), slashes);
            assert path == dir + Base(front) + (slashes + "/");
            assert NamedBy(path, dir, Base(path), slashes + "/");
          }
        }
      } else {
        var dir := SplitAtSlash(path);
        assert NamedBy(path, dir, Base(path), "");
      }
    }
  }

  lemma {:induction false} SplitAtSlash(path: string) returns (dir: string)
    ensures path == dir + AfterSlash(path) && NoSlash(AfterSlash(path)) && (dir == "" || dir[|dir| - 1] == '/')
    decreases |path|
  {
    if path == "" || path[|path| - 1] == '/' {
      dir := path;
    } else {
      dir := SplitAtSlash(path[..|path| - 1]);
      assert path == dir + (AfterSlash(path[..|path| - 1]) + [path[|path| - 1]]);
    }
  }

  predicate IsWanted(e: TarEntry, name: string) {
    e.regular && Base(e.name) == name
  }

  ghost predicate IsFirstWanted(entries: seq<TarEntry>, name: string, i: int) {
    0 <= i < |entries| && IsWanted(entries[i], name) && forall j :: 0 <= j < i ==> !IsWanted(entries[j], name)
  }

  /** What the first entry wanted gives, in whatever directory of the archive it is; refused if too large. */
  ghost predicate IsExtracted(entries: seq<TarEntry>, name: string, data: seq<Byte>) {
    exists i :: IsFirstWanted(entries, name, i) && entries[i].intact && |entries[i].content| <= MaxAssetBytes
                && entries[i].content == data
  }

  lemma FirstWantedIsOne(entries: seq<TarEntry>, name: string, i: int, j: int)
    requires IsFirstWanted(entries, name, i) && IsFirstWanted(entries, name, j)
    ensures i == j
  {
  }

  /** `untar` gives the entries up to the first that cannot be read at all, or `None` for data that is no archive. */
  method ExtractBinary(archive: seq<Byte>, untar: seq<Byte> -> Option<seq<TarEntry>>, name: string)
    returns (data: Option<seq<Byte>>)
    ensures data.Some? <==> untar(archive).Some? && exists d :: IsExtracted(untar(archive).value, name, d)
    ensures data.Some? ==> IsExtracted(untar(archive).value, name, data.value)
  {
    if untar(archive).None? {
      return None;
    }
    var entries := untar(archive).value;
    for i := 0 to |entries|
      invariant forall j :: 0 <= j < i ==> !IsWanted(entries[j], name)
    {
      if IsWanted(entries[i], name) {
        assert IsFirstWanted(entries, name, i);
        if |entries[i].content| > MaxAssetBytes || !entries[i].intact {
          return None;
        }
        assert IsExtracted(entries, name, entries[i].content);
        return Some(entries[i].content);
      }
    }
    return None;
  }

  /** An archive yields at most one binary. */
  lemma ExtractedIsOne(entries: seq<TarEntry>, name: string, data: seq<Byte>, other: seq<Byte>)
    requires IsExtracted(entries, name, data) && IsExtracted(entries, name, other)
    ensures data == other
  {
    var i :| IsFirstWanted(entries, name, i) && entries[i].content == data;
    var j :| IsFirstWanted(entries, name, j) && entries[j].content == other;
    FirstWantedIsOne(entries, name, i, j);
  }

  // ----- the whole update -----

  datatype UpdateResult = Rejected(verdict: Checksum.Verdict) | NotExtracted | NotReplaced | NotRestarted | Restarted

  /** The library's hash, as lower-case hex, and its archive reader. */
  datatype Library = Library(digestOf: seq<Byte> -> string, untar: seq<Byte> -> Option<seq<TarEntry>>)

  /** The checksum file accepts this archive, and this is the binary in it. */
  ghost predicate IsVerifiedBinary(lib: Library, archive: seq<Byte>, checksums: string, assetName: string, name: string,
                                   data: seq<Byte>)
  {
    && Checksum.Verify(lib.digestOf(archive), checksums, assetName).Match?
    && lib.untar(archive).Some? && IsExtracted(lib.untar(archive).value, name, data)
  }

  /** The one download is verified, unpacked and installed; nothing else ever gets to the destination. */
  method ApplyUpdate(fs: FileSystem, dest: string, tmp: string, lib: Library, archive: seq<Byte>, name: string,
                     checksums: string, assetName: string, outcome: Outcome, removable: bool, execOk: bool)
    returns (result: UpdateResult)
    requires tmp !in fs.files && tmp != dest
    modifies fs
    ensures result.Rejected? <==> !Checksum.Verify(lib.digestOf(archive), checksums, assetName).Match?
    ensures result.NotExtracted? ==> forall data :: !IsVerifiedBinary(lib, archive, checksums, assetName, name, data)
    ensures result.Rejected? || result.NotExtracted? ==> fs.files == old(fs.files) && fs.seen == old(fs.seen)
    ensures result.NotReplaced? ==> SameAt(fs.files, old(fs.files), dest) && !outcome.AllSucceed?
    ensures result.NotRestarted? || result.Restarted? ==>
              && dest in fs.files && fs.files[dest].executable
              && IsVerifiedBinary(lib, archive, checksums, assetName, name, fs.files[dest].content)
    ensures (result.Restarted? ==> execOk) && (result.NotRestarted? ==> !execOk)
    ensures old(fs.seen) <= fs.seen
    ensures forall i :: |old(fs.seen)| <= i < |fs.seen| && !SameAt(fs.seen[i], old(fs.files), dest) ==>
              && dest in fs.seen[i] && fs.seen[i][dest].executable
              && IsVerifiedBinary(lib, archive, checksums, assetName, name, fs.seen[i][dest].content)
    ensures removable ==> tmp !in fs.files
  {
    var verdict := Checksum.Verify(lib.digestOf(archive), checksums, assetName);
    if !verdict.Match? {
      return Rejected(verdict);
    }
    var data := ExtractBinary(archive, lib.untar, name);
    if data.None? {
      return NotExtracted;
    }
    assert IsVerifiedBinary(lib, archive, checksums, assetName, name, data.value);
    hide IsVerifiedBinary;
    var ok := ReplaceBinary(fs, dest, tmp, data.value, outcome, removable);
    if !ok {
      return NotReplaced;
    }
    return if execOk then Restarted else NotRestarted;
  }
}
