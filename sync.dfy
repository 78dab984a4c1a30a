/**
 * The sync service's change detection: which files of the watched tree are
 * hashed and archived, the order they are hashed in, the chunked feeding of
 * the hasher, and the `last_hash` gate in front of the upload.
 */
module Sync {
  import opened Basics

  type Byte = b: int | 0 <= b < 256

  /** One path component (a file or directory name), as its UTF-8 bytes. */
  type Name = seq<Byte>

  /** A path relative to the watched directory, one name per component. */
  type RelPath = seq<Name>

  /** One thing `rglob('*')` yields: its relative path, whether it is a regular file, its bytes. */
  datatype FsEntry = FsEntry(path: RelPath, isFile: bool, content: seq<Byte>)

  /** Everything `rglob('*')` yields, in the order it yields it. */
  type Directory = seq<FsEntry>

  const DOT: Byte := 46
  const SLASH: Byte := 47
  const CHUNK_SIZE: nat := 8192

  /** `f.name`, the last component. */
  function FileName(e: FsEntry): (n: Name) {
    if e.path == [] then [] else e.path[|e.path| - 1]
  }

  /**
   * `f.is_file() and not f.name.startswith('.')`: regular files whose own
   * name is not hidden. A file inside a hidden directory is kept.
   */
  predicate IsSynced(e: FsEntry) {
    e.isFile && e.path != [] && !(FileName(e) != [] && FileName(e)[0] == DOT)
  }

  /** The synced entries of an enumeration, in enumeration order. */
  function SelectFiles(dir: Directory): (r: Directory)
    decreases |dir|
  {
    if dir == [] then []
    else SelectFiles(dir[..|dir| - 1]) + (if IsSynced(dir[|dir| - 1]) then [dir[|dir| - 1]] else [])
  }

  lemma {:induction false} SelectFilesMultiset(dir: Directory)
    ensures forall e :: multiset(SelectFiles(dir))[e] == if IsSynced(e) then multiset(dir)[e] else 0
    decreases |dir|
  {
    if dir != [] {
      var pre := dir[..|dir| - 1];
      SelectFilesMultiset(pre);
      assert dir == pre + [dir[|dir| - 1]];
    }
  }

  lemma SelectFilesPermutation(d1: Directory, d2: Directory)
    requires multiset(d1) == multiset(d2)
    ensures multiset(SelectFiles(d1)) == multiset(SelectFiles(d2))
  {
    SelectFilesMultiset(d1);
    SelectFilesMultiset(d2);
    assert forall e :: multiset(SelectFiles(d1))[e] == multiset(SelectFiles(d2))[e];
  }

  lemma {:induction false} SelectFilesSubset(dir: Directory)
    ensures forall e :: e in SelectFiles(dir) ==> e in dir && IsSynced(e)
    decreases |dir|
  {
    if dir != [] {
      SelectFilesSubset(dir[..|dir| - 1]);
    }
  }

  // ---------------------------------------------------------------------
  // The order of `sorted(...)` on paths: lexicographic over components,
  // each component compared by code point (bytewise on UTF-8).

  predicate NameLess(a: Name, b: Name)
    decreases |a|
  {
    if a == [] then b != []
    else b != [] && (a[0] < b[0] || (a[0] == b[0] && NameLess(a[1..], b[1..])))
  }

  predicate PathLess(p: RelPath, q: RelPath)
    decreases |p|
  {
    if p == [] then q != []
    else q != [] && (NameLess(p[0], q[0]) || (p[0] == q[0] && PathLess(p[1..], q[1..])))
  }

  lemma {:induction false} NameLessIrreflexive(a: Name)
    ensures !NameLess(a, a)
    decreases |a|
  {
    if a != [] {
      NameLessIrreflexive(a[1..]);
    }
  }

  lemma {:induction false} NameLessTransitive(a: Name, b: Name, c: Name)
    requires NameLess(a, b) && NameLess(b, c)
    ensures NameLess(a, c)
    decreases |a|
  {
    if a != [] && a[0] == b[0] && b[0] == c[0] {
      NameLessTransitive(a[1..], b[1..], c[1..]);
    }
  }

  lemma {:induction false} NameLessTotal(a: Name, b: Name)
    ensures a == b || NameLess(a, b) || NameLess(b, a)
    decreases |a|
  {
    if a != [] && b != [] && a[0] == b[0] {
      NameLessTotal(a[1..], b[1..]);
      if a[1..] == b[1..] {
        assert a == [a[0]] + a[1..] && b == [b[0]] + b[1..];
      }
    }
  }

  lemma {:induction false} PathLessIrreflexive(p: RelPath)
    ensures !PathLess(p, p)
    decreases |p|
  {
    if p != [] {
      NameLessIrreflexive(p[0]);
      PathLessIrreflexive(p[1..]);
    }
  }

  lemma {:induction false} PathLessTransitive(p: RelPath, q: RelPath, r: RelPath)
    requires PathLess(p, q) && PathLess(q, r)
    ensures PathLess(p, r)
    decreases |p|
  {
    if p != [] {
      if NameLess(p[0], q[0]) && NameLess(q[0], r[0]) {
        NameLessTransitive(p[0], q[0], r[0]);
      } else if p[0] == q[0] && q[0] == r[0] {
        PathLessTransitive(p[1..], q[1..], r[1..]);
      }
    }
  }

  lemma {:induction false} PathLessTotal(p: RelPath, q: RelPath)
    ensures p == q || PathLess(p, q) || PathLess(q, p)
    decreases |p|
  {
    if p != [] && q != [] {
      NameLessTotal(p[0], q[0]);
      if p[0] == q[0] {
        PathLessTotal(p[1..], q[1..]);
        if p[1..] == q[1..] {
          assert p == [p[0]] + p[1..] && q == [q[0]] + q[1..];
        }
      }
    }
  }

  /** Python's stable `sorted` on paths, as insertion of each entry in turn. */
  function InsertByPath(e: FsEntry, s: Directory): (r: Directory)
    decreases |s|
  {
    if s == [] || !PathLess(s[0].path, e.path) then [e] + s
    else [s[0]] + InsertByPath(e, s[1..])
  }

  function SortByPath(s: Directory): (r: Directory)
    decreases |s|
  {
    if s == [] then [] else InsertByPath(s[0], SortByPath(s[1..]))
  }

  predicate SortedByPath(s: Directory) {
    forall i, j :: 0 <= i < j < |s| ==> !PathLess(s[j].path, s[i].path)
  }

  /** Not-less is transitive: p <= q <= r gives p <= r. */
  lemma PathNotLessTransitive(p: RelPath, q: RelPath, r: RelPath)
    requires !PathLess(q, p) && !PathLess(r, q)
    ensures !PathLess(r, p)
  {
    if PathLess(r, p) {
      PathLessTotal(p, q);
      if PathLess(p, q) {
        PathLessTransitive(r, p, q);
      }
    }
  }

  lemma {:induction false} InsertByPathSorted(e: FsEntry, s: Directory)
    requires SortedByPath(s)
    ensures SortedByPath(InsertByPath(e, s))
    ensures multiset(InsertByPath(e, s)) == multiset(s) + multiset{e}
    decreases |s|
  {
    if s == [] || !PathLess(s[0].path, e.path) {
      var r := [e] + s;
      forall j | 1 <= j < |r|
        ensures !PathLess(r[j].path, e.path)
      {
        if j > 1 {
          assert !PathLess(s[j - 1].path, s[0].path);
        } else {
          PathLessIrreflexive(s[0].path);
        }
        PathNotLessTransitive(e.path, s[0].path, s[j - 1].path);
      }
    } else {
      InsertByPathSorted(e, s[1..]);
      var t := InsertByPath(e, s[1..]);
      assert s == [s[0]] + s[1..];
      forall j | 0 <= j < |t|
        ensures !PathLess(t[j].path, s[0].path)
      {
        assert t[j] in multiset(s[1..]) + multiset{e};
        if t[j] == e {
          if PathLess(e.path, s[0].path) {
            PathLessTransitive(e.path, s[0].path, e.path);
            PathLessIrreflexive(e.path);
          }
        } else {
          assert t[j] in s[1..];
        }
      }
    }
  }

  lemma {:induction false} SortByPathSorted(s: Directory)
    ensures SortedByPath(SortByPath(s))
    ensures multiset(SortByPath(s)) == multiset(s)
    decreases |s|
  {
    if s != [] {
      SortByPathSorted(s[1..]);
      InsertByPathSorted(s[0], SortByPath(s[1..]));
      assert s == [s[0]] + s[1..];
    }
  }

  /** On a filesystem, two entries with the same path are the same entry. */
  predicate PathsIdentify(dir: Directory) {
    forall x, y :: x in dir && y in dir && x.path == y.path ==> x == y
  }

  /** The head of a path-sorted sequence is not after any of its elements. */
  lemma SortedHeadIsLeast(s: Directory, x: FsEntry)
    requires SortedByPath(s) && x in s
    ensures !PathLess(x.path, s[0].path)
  {
    var i :| 0 <= i < |s| && s[i] == x;
    if i == 0 {
      PathLessIrreflexive(x.path);
    }
  }

  lemma MultisetTail(s1: Directory, s2: Directory)
    requires s1 != [] && s2 != [] && s1[0] == s2[0] && multiset(s1) == multiset(s2)
    ensures multiset(s1[1..]) == multiset(s2[1..])
  {
    assert s1 == [s1[0]] + s1[1..] && s2 == [s2[0]] + s2[1..];
    assert multiset(s1) == multiset{s1[0]} + multiset(s1[1..]);
    assert multiset(s2) == multiset{s1[0]} + multiset(s2[1..]);
    assert multiset(s1[1..]) == multiset(s1) - multiset{s1[0]};
    assert multiset(s2[1..]) == multiset(s2) - multiset{s1[0]};
  }

  lemma SortedTail(s: Directory)
    requires s != [] && SortedByPath(s) && PathsIdentify(s)
    ensures SortedByPath(s[1..]) && PathsIdentify(s[1..])
  {
    assert forall a :: a in s[1..] ==> a in s;
  }

  /** A path-sorted sequence is determined by its elements when paths identify entries. */
  lemma {:induction false} SortedByPathUnique(s1: Directory, s2: Directory)
    requires SortedByPath(s1) && SortedByPath(s2)
    requires multiset(s1) == multiset(s2)
    requires PathsIdentify(s1)
    ensures s1 == s2
    decreases |s1|
  {
    if s1 == [] {
      assert |multiset(s2)| == 0;
    } else {
      assert |s2| == |multiset(s2)|;
      var x, y := s1[0], s2[0];
      assert y in s1 by {
        assert y in multiset(s1);
      }
      assert x in s2 by {
        assert x in multiset(s2);
      }
      SortedHeadIsLeast(s1, y);
      SortedHeadIsLeast(s2, x);
      PathLessTotal(x.path, y.path);
      assert x == y;
      var t1, t2 := s1[1..], s2[1..];
      MultisetTail(s1, s2);
      SortedTail(s1);
      assert SortedByPath(t2);
      SortedByPathUnique(t1, t2);
      assert s1 == [x] + t1 && s2 == [x] + t2;
    }
  }

  // ---------------------------------------------------------------------
  // calculate_directory_hash

  /** `str(file_path.relative_to(root)).encode()`: components joined by '/'. */
  function RelPathBytes(p: RelPath): (b: seq<Byte>)
    decreases |p|
  {
    if p == [] then []
    else if |p| == 1 then p[0]
    else p[0] + [SLASH] + RelPathBytes(p[1..])
  }

  /** The files hashed, in the order they are hashed. */
  function HashedFiles(dir: Directory): (r: Directory) {
    SortByPath(SelectFiles(dir))
  }

  /** For each file in turn: its relative path, then its contents, with nothing in between. */
  function Feed(files: Directory): (b: seq<Byte>)
    decreases |files|
  {
    if files == [] then []
    else
      var f := files[|files| - 1];
      Feed(files[..|files| - 1]) + RelPathBytes(f.path) + f.content
  }

  /** Everything `hasher.update` receives, as one byte string. */
  function HashInput(dir: Directory): (b: seq<Byte>) {
    Feed(HashedFiles(dir))
  }

  /**
   * `while chunk := f.read(8192): hasher.update(chunk)`: the hasher has
   * received `fed` so far and is given `content` in chunks of at most 8192
   * bytes; afterwards it has received `fed + content`.
   */
  method FeedInChunks(fed: seq<Byte>, content: seq<Byte>) returns (r: seq<Byte>)
    ensures r == fed + content
  {
    r := fed;
    var pos := 0;
    while pos < |content|
      invariant 0 <= pos <= |content|
      invariant r == fed + content[..pos]
    {
      var end := if |content| - pos < CHUNK_SIZE then |content| else pos + CHUNK_SIZE;
      var chunk := content[pos..end];
      assert content[..end] == content[..pos] + chunk;
      r := r + chunk;
      pos := end;
    }
    assert content[..|content|] == content;
  }

  /**
   * `calculate_directory_hash()` with `sha256` standing for
   * `hashlib.sha256`: incremental `update` calls on a SHA-256 object digest
   * the concatenation of what they were given. The file contents are fed in
   * chunks of at most 8192 bytes.
   */
  method CalculateDirectoryHash(dir: Directory, sha256: seq<Byte> -> string) returns (digest: string)
    ensures digest == sha256(HashInput(dir))
  {
    var files := SortByPath(SelectFiles(dir));
    var fed: seq<Byte> := [];
    for k := 0 to |files|
      invariant fed == Feed(files[..k])
    {
      var f := files[k];
      fed := fed + RelPathBytes(f.path);
      fed := FeedInChunks(fed, f.content);
      assert files[..k + 1][..k] == files[..k];
    }
    assert files[..|files|] == files;
    digest := sha256(fed);
  }

  /**
   * The hash does not depend on the order in which the directory is
   * enumerated: two enumerations of the same entries feed the hasher the
   * same bytes.
   */
  lemma HashInputIgnoresEnumerationOrder(d1: Directory, d2: Directory)
    requires multiset(d1) == multiset(d2)
    requires PathsIdentify(d1)
    ensures HashInput(d1) == HashInput(d2)
  {
    var s1, s2 := SelectFiles(d1), SelectFiles(d2);
    SelectFilesPermutation(d1, d2);
    SortByPathSorted(s1);
    SortByPathSorted(s2);
    var h1, h2 := SortByPath(s1), SortByPath(s2);
    assert PathsIdentify(h1) by {
      SelectFilesSubset(d1);
      forall x, y | x in h1 && y in h1 && x.path == y.path
        ensures x == y
      {
        assert x in multiset(h1) && y in multiset(h1);
        assert x in s1 && y in s1;
      }
    }
    SortedByPathUnique(h1, h2);
  }

  // ---------------------------------------------------------------------
  // create_zip_archive

  datatype ArchiveMember = ArchiveMember(arcname: seq<Byte>, content: seq<Byte>)

  /** `zipf.write(file_path, file_path.relative_to(root))` */
  function MemberOf(e: FsEntry): (m: ArchiveMember) {
    ArchiveMember(RelPathBytes(e.path), e.content)
  }

  /** The members of the archive, in the order `create_zip_archive` adds them. */
  function Archive(dir: Directory): (r: seq<ArchiveMember>)
    ensures |r| == |SelectFiles(dir)|
    ensures forall i :: 0 <= i < |r| ==> r[i] == MemberOf(SelectFiles(dir)[i])
    decreases |dir|
  {
    if dir == [] then []
    else Archive(dir[..|dir| - 1]) + (if IsSynced(dir[|dir| - 1]) then [MemberOf(dir[|dir| - 1])] else [])
  }

  /** `create_zip_archive()`: one member per synced file, in enumeration order. */
  method CreateZipArchive(dir: Directory) returns (members: seq<ArchiveMember>)
    ensures members == Archive(dir)
  {
    members := [];
    for i := 0 to |dir|
      invariant members == Archive(dir[..i])
    {
      assert dir[..i + 1][..i] == dir[..i];
      var f := dir[i];
      if IsSynced(f) {
        members := members + [MemberOf(f)];
      }
    }
    assert dir[..|dir|] == dir;
  }

  /**
   * Hashing and archiving see the same files: the archive holds the synced
   * files in enumeration order, and the hash reads a permutation of exactly
   * those files.
   */
  lemma HashAndArchiveSelectSameFiles(dir: Directory)
    ensures multiset(HashedFiles(dir)) == multiset(SelectFiles(dir))
    ensures forall e :: e in HashedFiles(dir) <==> e in dir && IsSynced(e)
    ensures |Archive(dir)| == |HashedFiles(dir)|
  {
    SortByPathSorted(SelectFiles(dir));
    SelectFilesMultiset(dir);
    forall e
      ensures e in HashedFiles(dir) <==> e in dir && IsSynced(e)
    {
      assert e in HashedFiles(dir) <==> e in multiset(SelectFiles(dir));
    }
    assert |HashedFiles(dir)| == |multiset(HashedFiles(dir))|;
  }

  // ---------------------------------------------------------------------
  // sync_to_server

  /** What the `POST {server}/update` produced: a status, or an exception. */
  datatype Response = Status(code: int) | Raised

  /** Whether a sync built and sent an archive, and `last_hash` afterwards. */
  datatype SyncResult = SyncResult(uploaded: bool, lastHash: Option<string>)

  /** One `sync_to_server()` from `last_hash` when the directory digests to `digest`. */
  function SyncStep(lastHash: Option<string>, digest: string, response: Response): (r: SyncResult) {
    if Some(digest) == lastHash then SyncResult(false, lastHash)
    else if response == Status(200) then SyncResult(true, Some(digest))
    else SyncResult(true, lastHash)
  }

  /** An unchanged digest builds no archive and sends nothing. */
  lemma UnchangedDigestSkipsUpload(lastHash: Option<string>, digest: string, response: Response)
    ensures lastHash == Some(digest) ==> SyncStep(lastHash, digest, response) == SyncResult(false, lastHash)
    ensures lastHash != Some(digest) ==> SyncStep(lastHash, digest, response).uploaded
  {
  }

  /** `last_hash` moves only to the digest just uploaded, and only on status 200. */
  lemma LastHashRecordedOnlyOn200(lastHash: Option<string>, digest: string, response: Response)
    ensures var r := SyncStep(lastHash, digest, response);
      r.lastHash != lastHash ==> r.uploaded && response == Status(200) && r.lastHash == Some(digest)
    ensures var r := SyncStep(lastHash, digest, response);
      r.uploaded && response == Status(200) ==> r.lastHash == Some(digest)
  {
  }

  /** `last_hash` starts as None, so the first sync always uploads. */
  lemma FirstSyncUploads(digest: string, response: Response)
    ensures SyncStep(None, digest, response).uploaded
  {
  }

  /**
   * After an accepted upload, syncing the same tree again sends nothing;
   * after a rejected or failed one, it uploads again.
   */
  lemma RepeatedSync(lastHash: Option<string>, digest: string, first: Response, second: Response)
    requires lastHash != Some(digest)
    ensures var r := SyncStep(lastHash, digest, first);
      !SyncStep(r.lastHash, digest, second).uploaded <==> first == Status(200)
  {
  }

  /** The service object with its one piece of state between syncs. */
  class SyncService {
    var lastHash: Option<string>

    constructor ()
      ensures lastHash == None
    {
      lastHash := None;
    }

    /**
     * `sync_to_server()`: hash the tree; if the digest differs from
     * `last_hash`, build the archive (returned as `upload`) and send it, and
     * record the digest only when the server answered 200.
     */
    method SyncToServer(dir: Directory, sha256: seq<Byte> -> string, response: Response)
      returns (upload: Option<seq<ArchiveMember>>)
      modifies this
      ensures var r := SyncStep(old(lastHash), sha256(HashInput(dir)), response);
        && lastHash == r.lastHash
        && (upload.Some? <==> r.uploaded)
        && (upload.Some? ==> upload.value == Archive(dir))
    {
      var currentHash := CalculateDirectoryHash(dir, sha256);
      upload := None;
      if Some(currentHash) != lastHash {
        var members := CreateZipArchive(dir);
        upload := Some(members);
        if response == Status(200) {
          lastHash := Some(currentHash);
        }
      }
    }
  }

  // ---------------------------------------------------------------------
  // StarProgramsHandler.on_any_event

  /**
   * A watchdog event: whether it is about a directory, and `src_path` as
   * UTF-8 bytes. UTF-8 is self-synchronising, so `src_path.endswith('.tmp')`
   * on the string and a byte suffix test agree.
   */
  datatype FsEvent = FsEvent(isDirectory: bool, srcPath: seq<Byte>)

  /** `.tmp` */
  const TMP_SUFFIX: seq<Byte> := [DOT, 116, 109, 112]

  /**
   * Whether an event passes the filter at the head of `on_any_event`: it is
   * not about a directory and its path does not end in `.tmp`. What the
   * handler does with an event that passes (`asyncio.create_task` called
   * from the observer's thread) is not part of this model.
   */
  predicate PassesEventFilter(e: FsEvent) {
    !e.isDirectory && !EndsWith(e.srcPath, TMP_SUFFIX)
  }

  /** The event watchdog reports for a change to file `f` under the watched directory `root`. */
  function FileEvent(root: seq<Byte>, f: FsEntry): (ev: FsEvent)
    ensures !ev.isDirectory
  {
    FsEvent(false, root + [SLASH] + RelPathBytes(f.path))
  }

  lemma {:induction false} RelPathBytesEndsWithName(p: RelPath)
    requires p != []
    ensures EndsWith(RelPathBytes(p), p[|p| - 1])
    decreases |p|
  {
    if |p| > 1 {
      RelPathBytesEndsWithName(p[1..]);
      assert p[1..][|p| - 2] == p[|p| - 1];
      var r := RelPathBytes(p[1..]);
      assert RelPathBytes(p) == (p[0] + [SLASH]) + r;
      assert RelPathBytes(p)[|RelPathBytes(p)| - |p[|p| - 1]|..] == r[|r| - |p[|p| - 1]|..];
    }
  }

  lemma EndsWithTrans(s: seq<Byte>, t: seq<Byte>, u: seq<Byte>)
    requires EndsWith(s, t) && EndsWith(t, u)
    ensures EndsWith(s, u)
  {
    assert s[|s| - |u|..] == t[|t| - |u|..];
  }

  /**
   * A regular file named `*.tmp` that is not hidden is hashed and archived,
   * but an event for a change to it never passes the filter of
   * `on_any_event`: only the periodic check of `start` picks it up.
   */
  lemma TmpFileHashedButIgnored(dir: Directory, root: seq<Byte>, f: FsEntry)
    requires f in dir && f.isFile && f.path != []
    requires EndsWith(FileName(f), TMP_SUFFIX) && FileName(f)[0] != DOT
    ensures IsSynced(f)
    ensures f in HashedFiles(dir) && MemberOf(f) in Archive(dir)
    ensures !PassesEventFilter(FileEvent(root, f))
  {
    HashAndArchiveSelectSameFiles(dir);
    SelectFilesMultiset(dir);
    assert multiset(SelectFiles(dir))[f] == multiset(dir)[f];
    assert f in multiset(SelectFiles(dir));
    var i :| 0 <= i < |SelectFiles(dir)| && SelectFiles(dir)[i] == f;
    assert Archive(dir)[i] == MemberOf(f);
    RelPathBytesEndsWithName(f.path);
    var src := root + [SLASH] + RelPathBytes(f.path);
    assert EndsWith(src, RelPathBytes(f.path)) by {
      assert src[|src| - |RelPathBytes(f.path)|..] == RelPathBytes(f.path);
    }
    EndsWithTrans(src, RelPathBytes(f.path), FileName(f));
    EndsWithTrans(src, FileName(f), TMP_SUFFIX);
  }

  lemma {:induction false} SelectFilesSkipsUnsynced(dir: Directory, f: FsEntry)
    requires !IsSynced(f)
    ensures SelectFiles(dir + [f]) == SelectFiles(dir)
  {
    assert (dir + [f])[..|dir|] == dir;
  }

  /**
   * A hidden file (or anything else the selection skips) does not enter
   * the hash: after a sync of `dir` was accepted, the next sync digests
   * the same bytes and uploads nothing.
   */
  lemma UnsyncedChangeSendsNothing(dir: Directory, f: FsEntry, sha256: seq<Byte> -> string,
                                   response: Response)
    requires !IsSynced(f)
    ensures HashInput(dir + [f]) == HashInput(dir)
    ensures var accepted := SyncStep(None, sha256(HashInput(dir)), Status(200));
      !SyncStep(accepted.lastHash, sha256(HashInput(dir + [f])), response).uploaded
  {
    SelectFilesSkipsUnsynced(dir, f);
  }

  /** In `<root>/<relative path>` the file's own name follows a '/'. */
  lemma {:induction false} SlashNameEnds(p: RelPath)
    requires p != []
    ensures EndsWith([SLASH] + RelPathBytes(p), [SLASH] + p[|p| - 1])
    decreases |p|
  {
    if |p| > 1 {
      SlashNameEnds(p[1..]);
      assert p[1..][|p| - 2] == p[|p| - 1];
      var r := [SLASH] + RelPathBytes(p[1..]);
      var s := [SLASH] + RelPathBytes(p);
      var n := [SLASH] + p[|p| - 1];
      assert s == ([SLASH] + p[0]) + r;
      assert s[|s| - |n|..] == r[|r| - |n|..];
    }
  }

  /**
   * The event whose path is a regular file passes the filter exactly when the file's own
   * name does not end in `.tmp`: the '/' before the name is never part of
   * the suffix.
   */
  lemma FileEventPassesFilter(root: seq<Byte>, f: FsEntry)
    requires f.path != []
    ensures PassesEventFilter(FileEvent(root, f)) <==> !EndsWith(FileName(f), TMP_SUFFIX)
  {
    var src := FileEvent(root, f).srcPath;
    SlashNameEnds(f.path);
    assert src == root + ([SLASH] + RelPathBytes(f.path));
    EndsWithTrans(src, [SLASH] + RelPathBytes(f.path), [SLASH] + FileName(f));
    TmpThroughSlash(src, FileName(f));
  }

  /** A path ending in `/<name>` ends in `.tmp` exactly when the name does. */
  lemma TmpThroughSlash(src: seq<Byte>, n: seq<Byte>)
    requires EndsWith(src, [SLASH] + n)
    ensures EndsWith(src, TMP_SUFFIX) <==> EndsWith(n, TMP_SUFFIX)
  {
    var m := |src| - |n|;
    assert src[m - 1] == SLASH && src[m..] == n by {
      assert src[m - 1..] == [SLASH] + n;
    }
    if |n| >= 4 {
      assert src[|src| - 4..] == n[|n| - 4..];
    } else if |src| >= 4 {
      assert src[|src| - 4..][3 - |n|] == SLASH;
      assert TMP_SUFFIX[3 - |n|] != SLASH;
    }
  }

  /**
   * Only events whose `src_path` is the changed file are covered above. For
   * a move, watchdog reports the old name as `src_path`, so an editor's
   * atomic save (write `<name>.tmp`, then rename it to `<name>`) is filtered
   * out, although it changes a file the hash covers.
   */
  lemma AtomicSaveFiltered(root: seq<Byte>, f: FsEntry)
    requires IsSynced(f)
    ensures var temp := FsEntry(f.path[..|f.path| - 1] + [FileName(f) + TMP_SUFFIX], true, f.content);
      !PassesEventFilter(FileEvent(root, temp))
  {
    var temp := FsEntry(f.path[..|f.path| - 1] + [FileName(f) + TMP_SUFFIX], true, f.content);
    FileEventPassesFilter(root, temp);
    assert FileName(temp) == FileName(f) + TMP_SUFFIX;
  }

  /**
   * A change to any hidden regular file whose name does not end in `.tmp`
   * (`.env`, say) passes the filter, though the file is never hashed.
   */
  lemma HiddenFilePassesFilter(root: seq<Byte>, f: FsEntry)
    requires f.isFile && f.path != [] && FileName(f) != [] && FileName(f)[0] == DOT
    requires !EndsWith(FileName(f), TMP_SUFFIX)
    ensures !IsSynced(f) && PassesEventFilter(FileEvent(root, f))
  {
    FileEventPassesFilter(root, f);
  }

  /** Directory events never pass the filter. */
  lemma DirectoryEventsIgnored(path: seq<Byte>)
    ensures !PassesEventFilter(FsEvent(true, path))
  {
  }
}
