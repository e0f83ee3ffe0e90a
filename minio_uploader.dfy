/** The upload side of the bucket synchronisation (`MinioWriter`): creating the bucket when it
    is missing, uploading one file or a whole local folder with ignored subfolders pruned from
    the walk, and the retry-once combinator the script wraps the folder uploads in. The MinIO
    server is the object `Client`, whose call log records every request in order; whether an
    upload raises is the parameter `fails`. */
module MinioUploader {
  import opened Wrappers
  import opened PyStr
  import opened Seqs
  import PyPath

  // ----- the server -----

  /** The requests the scripts send to the server. */
  datatype Call =
    | BucketExists(bucket: string)
    | MakeBucket(bucket: string)
    | FPutObject(bucket: string, objectName: string, filePath: string)
    | GetBucketVersioning(bucket: string)

  /** The server as the uploads see it: its buckets, the objects stored in them, and the log of
      requests received. */
  datatype Store = Store(buckets: set<string>, stored: set<(string, string)>, calls: seq<Call>)

  /** `bucket_exists`, then `make_bucket` when it answered no. */
  function EnsureBucket(st: Store, bucket: string): (r: Store)
    ensures bucket in r.buckets && r.stored == st.stored
    ensures r.buckets == st.buckets + {bucket}
    ensures |st.calls| < |r.calls| && r.calls[..|st.calls|] == st.calls
    ensures MakeBucket(bucket) in r.calls[|st.calls|..] <==> bucket !in st.buckets
  {
    var created := if bucket in st.buckets then [] else [MakeBucket(bucket)];
    var r := Store(st.buckets + {bucket}, st.stored, st.calls + [BucketExists(bucket)] + created);
    assert r.calls[|st.calls|..] == [BucketExists(bucket)] + created;
    r
  }

  /** `fput_object(bucket, objectName, filePath)`: stored unless it raises. */
  function Upload(st: Store, bucket: string, objectName: string, filePath: string,
                  fails: string -> Option<Exc>): (Store, Outcome)
  {
    var calls := st.calls + [FPutObject(bucket, objectName, filePath)];
    match fails(objectName)
    case Some(e) => (Store(st.buckets, st.stored, calls), Fail(e))
    case None => (Store(st.buckets, st.stored + {(bucket, objectName)}, calls), Pass)
  }

  /** The server object the methods below send their requests to. */
  class Client {
    var buckets: set<string>
    var stored: set<(string, string)>
    var calls: seq<Call>

    function State(): Store
      reads this
    {
      Store(buckets, stored, calls)
    }

    constructor (st: Store)
      ensures State() == st
    {
      buckets := st.buckets;
      stored := st.stored;
      calls := st.calls;
    }

    /** The bucket check both uploads start with. */
    method EnsureBucketExists(bucket: string)
      modifies this
      ensures State() == EnsureBucket(old(State()), bucket)
    {
      calls := calls + [BucketExists(bucket)];
      var found := bucket in buckets;
      if !found {
        calls := calls + [MakeBucket(bucket)];
        buckets := buckets + {bucket};
      }
    }

    /** One `fput_object` request. */
    method FPut(bucket: string, objectName: string, filePath: string, fails: string -> Option<Exc>)
      returns (o: Outcome)
      modifies this
      ensures (State(), o) == Upload(old(State()), bucket, objectName, filePath, fails)
    {
      calls := calls + [FPutObject(bucket, objectName, filePath)];
      var e := fails(objectName);
      if e.Some? {
        return Fail(e.value);
      }
      stored := stored + {(bucket, objectName)};
      o := Pass;
    }

    /** `put_file(input_dir, bucket_name, output_dir)`: the file `inputDir` stored as
        `outputDir`; an exception of the upload propagates. */
    method PutFile(inputDir: string, bucket: string, outputDir: string, fails: string -> Option<Exc>)
      returns (o: Outcome)
      modifies this
      ensures (State(), o) == PutFileResult(old(State()), inputDir, bucket, outputDir, fails)
    {
      EnsureBucketExists(bucket);
      o := FPut(bucket, outputDir, inputDir, fails);
      if o.Fail? {
        return;
      }
      calls := calls + [GetBucketVersioning(bucket)];
    }

    /** `put_dir(bucket_name, input_dir, ignore_folders)`: `isDir` is `os.path.isdir(input_dir)`
        and `tree` the folder's contents. */
    method PutDir(bucket: string, inputDir: string, ignoreFolders: Ignore, isDir: bool, tree: Tree,
                  fails: string -> Option<Exc>)
      returns (o: Outcome)
      modifies this
      ensures (State(), o) == PutDirResult(old(State()), bucket, inputDir, ignoreFolders, isDir, tree, fails)
    {
      if !isDir {
        return Pass;
      }
      EnsureBucketExists(bucket);
      var walk := Walk(inputDir, tree, ignoreFolders);
      o := UploadWalk(bucket, walk, fails);
    }

    /** The loop over the walk: the files of each directory in turn, until an exception other
        than S3Error. */
    method UploadWalk(bucket: string, walk: seq<PyPath.WalkEntry>, fails: string -> Option<Exc>)
      returns (o: Outcome)
      modifies this
      ensures (State(), o) == UploadAll(old(State()), bucket, FlatMap(walk, EntryPaths), fails)
    {
      for i := 0 to |walk|
        invariant (State(), Pass) == UploadAll(old(State()), bucket, FlatMap(walk[..i], EntryPaths), fails)
      {
        FlatMapStep(walk, i, EntryPaths);
        o := UploadFolder(bucket, walk[i].root, walk[i].files, fails);
        UploadAllAppend(old(State()), bucket, FlatMap(walk[..i], EntryPaths), EntryPaths(walk[i]), fails);
        if o.Fail? {
          UploadWalkStops(old(State()), bucket, walk, i, EntryPaths, fails);
          return;
        }
      }
      assert walk[..|walk|] == walk;
      o := Pass;
    }

    /** The files of one directory of the walk; an S3Error is reported and the next file
        follows, any other exception propagates. */
    method UploadFolder(bucket: string, root: string, files: seq<string>, fails: string -> Option<Exc>)
      returns (o: Outcome)
      modifies this
      ensures (State(), o) == UploadAll(old(State()), bucket, EntryPaths(PyPath.WalkEntry(root, files)), fails)
    {
      ghost var paths := EntryPaths(PyPath.WalkEntry(root, files));
      for n := 0 to |files|
        invariant (State(), Pass) == UploadAll(old(State()), bucket, paths[..n], fails)
      {
        var locPath := PyPath.Join(root, files[n]);
        assert paths[..n + 1][..n] == paths[..n] && paths[n] == locPath;
        var r := FPut(bucket, locPath, locPath, fails);
        if r.Fail? && r.exc != S3Error {
          UploadAllStops(old(State()), bucket, paths[..n + 1], paths[n + 1..], fails);
          assert paths[..n + 1] + paths[n + 1..] == paths;
          return r;
        }
      }
      assert paths[..|files|] == paths;
      o := Pass;
    }
  }

  /** `put_file`: the bucket check, the upload, then the versioning query. */
  function PutFileResult(st: Store, inputDir: string, bucket: string, outputDir: string,
                         fails: string -> Option<Exc>): (Store, Outcome)
  {
    var (s1, o) := Upload(EnsureBucket(st, bucket), bucket, outputDir, inputDir, fails);
    if o.Fail? then (s1, o)
    else (Store(s1.buckets, s1.stored, s1.calls + [GetBucketVersioning(bucket)]), Pass)
  }

  /** `put_file` creates the bucket only when it is missing, and stores the file under the
      destination name unless the upload raises, in which case the exception propagates. */
  lemma {:induction false} PutFileCreatesBucket(st: Store, inputDir: string, bucket: string, outputDir: string,
                                                fails: string -> Option<Exc>)
    ensures var (r, o) := PutFileResult(st, inputDir, bucket, outputDir, fails);
      && (MakeBucket(bucket) in r.calls[|st.calls|..] <==> bucket !in st.buckets)
      && r.buckets == st.buckets + {bucket}
      && (o.Pass? <==> fails(outputDir).None?)
      && (o.Pass? ==> r.stored == st.stored + {(bucket, outputDir)})
      && (o.Fail? ==> r.stored == st.stored && o.exc == fails(outputDir).value)
  {
    var s0 := EnsureBucket(st, bucket);
    var (s1, o) := Upload(s0, bucket, outputDir, inputDir, fails);
    var (r, _) := PutFileResult(st, inputDir, bucket, outputDir, fails);
    assert r.calls[|st.calls|..] == s0.calls[|st.calls|..] + r.calls[|s0.calls|..];
    assert MakeBucket(bucket) !in r.calls[|s0.calls|..];
  }

  // ----- the walk of put_dir -----

  /** A local folder: the files directly in it and its subfolders, in listing order. */
  datatype Tree = Tree(files: seq<string>, subdirs: seq<Sub>)
  datatype Sub = Sub(name: string, tree: Tree)

  /** `ignore_folders`: a list of names, or, as the script's main block passes it, a string. */
  datatype Ignore = Names(names: seq<string>) | Text(text: string)

  /** `d in ignore_folders`: membership in a list, but a substring test on a string. */
  predicate Ignored(d: string, ignoreFolders: Ignore) {
    match ignoreFolders
    case Names(ns) => d in ns
    case Text(t) => Contains(t, d)
  }

  /** `os.walk(root)` top-down while `dirs[:]` is rewritten to drop the ignored subfolders:
      the folder itself, then the walks of the subfolders kept, in order. */
  function Walk(root: string, t: Tree, ignoreFolders: Ignore): seq<PyPath.WalkEntry>
    decreases t
  {
    [PyPath.WalkEntry(root, t.files)] + WalkSubs(root, t.subdirs, ignoreFolders)
  }

  function WalkSubs(root: string, subs: seq<Sub>, ignoreFolders: Ignore): seq<PyPath.WalkEntry>
    decreases subs
  {
    if subs == [] then []
    else
      (if Ignored(subs[0].name, ignoreFolders) then []
       else Walk(PyPath.Join(root, subs[0].name), subs[0].tree, ignoreFolders))
      + WalkSubs(root, subs[1..], ignoreFolders)
  }

  /** The folder itself always comes first, whatever its name. */
  lemma {:induction false} WalkStartsAtRoot(root: string, t: Tree, ignoreFolders: Ignore)
    ensures Walk(root, t, ignoreFolders)[0] == PyPath.WalkEntry(root, t.files)
  {
  }

  /** An ignored subfolder contributes nothing: the walk is as if it were not there. */
  lemma {:induction false} IgnoredSubfolderSkipped(root: string, t: Tree, ignoreFolders: Ignore, k: nat)
    requires k < |t.subdirs| && Ignored(t.subdirs[k].name, ignoreFolders)
    ensures Walk(root, t, ignoreFolders)
              == Walk(root, Tree(t.files, t.subdirs[..k] + t.subdirs[k + 1..]), ignoreFolders)
  {
    WalkSubsWithout(root, t.subdirs, ignoreFolders, k);
  }

  lemma {:induction false} WalkSubsWithout(root: string, subs: seq<Sub>, ignoreFolders: Ignore, k: nat)
    requires k < |subs| && Ignored(subs[k].name, ignoreFolders)
    ensures WalkSubs(root, subs, ignoreFolders) == WalkSubs(root, subs[..k] + subs[k + 1..], ignoreFolders)
    decreases k
  {
    var rest := subs[..k] + subs[k + 1..];
    if k == 0 {
      assert rest == subs[1..];
    } else {
      assert rest[0] == subs[0];
      assert rest[1..] == subs[1..][..k - 1] + subs[1..][k..];
      WalkSubsWithout(root, subs[1..], ignoreFolders, k - 1);
    }
  }

  /** The number of files in a folder and all its subfolders. */
  function FileCount(t: Tree): nat
    decreases t
  {
    |t.files| + SubsFileCount(t.subdirs)
  }

  function SubsFileCount(subs: seq<Sub>): nat
    decreases subs
  {
    if subs == [] then 0 else FileCount(subs[0].tree) + SubsFileCount(subs[1..])
  }

  /** The number of files the walk lists. */
  function WalkFileCount(walk: seq<PyPath.WalkEntry>): nat
    decreases |walk|
  {
    if walk == [] then 0 else |walk[0].files| + WalkFileCount(walk[1..])
  }

  lemma {:induction false} WalkFileCountAppend(a: seq<PyPath.WalkEntry>, b: seq<PyPath.WalkEntry>)
    ensures WalkFileCount(a + b) == WalkFileCount(a) + WalkFileCount(b)
    decreases |a|
  {
    if a == [] {
      assert a + b == b;
    } else {
      assert (a + b)[0] == a[0] && (a + b)[1..] == a[1..] + b;
      WalkFileCountAppend(a[1..], b);
    }
  }

  /** With nothing ignored, the walk lists every file of the folder. */
  lemma {:induction false} WalkListsEveryFile(root: string, t: Tree)
    ensures WalkFileCount(Walk(root, t, Names([]))) == FileCount(t)
    decreases t
  {
    WalkFileCountAppend([PyPath.WalkEntry(root, t.files)], WalkSubs(root, t.subdirs, Names([])));
    assert [PyPath.WalkEntry(root, t.files)][1..] == [];
    WalkSubsListEveryFile(root, t.subdirs);
  }

  lemma {:induction false} WalkSubsListEveryFile(root: string, subs: seq<Sub>)
    ensures WalkFileCount(WalkSubs(root, subs, Names([]))) == SubsFileCount(subs)
    decreases subs
  {
    if subs != [] {
      assert !Ignored(subs[0].name, Names([]));
      WalkListsEveryFile(PyPath.Join(root, subs[0].name), subs[0].tree);
      WalkSubsListEveryFile(root, subs[1..]);
      WalkFileCountAppend(Walk(PyPath.Join(root, subs[0].name), subs[0].tree, Names([])),
                          WalkSubs(root, subs[1..], Names([])));
    }
  }

  // ----- the uploads of put_dir -----

  /** `loc_path` of each file of one walk entry: the object name and the local file alike. */
  function EntryPaths(e: PyPath.WalkEntry): (ps: seq<string>)
    ensures |ps| == |e.files|
  {
    seq(|e.files|, k requires 0 <= k < |e.files| => PyPath.Join(e.root, e.files[k]))
  }

  /** The uploads of `paths` in order: an S3Error is reported and passed over, any other
      exception ends the upload and propagates. */
  function UploadAll(st: Store, bucket: string, paths: seq<string>, fails: string -> Option<Exc>): (Store, Outcome)
    decreases |paths|
  {
    if paths == [] then (st, Pass)
    else
      var (s1, o1) := UploadAll(st, bucket, paths[..|paths| - 1], fails);
      if o1.Fail? then (s1, o1)
      else
        var p := paths[|paths| - 1];
        var (s2, o2) := Upload(s1, bucket, p, p, fails);
        (s2, if o2 == Fail(S3Error) then Pass else o2)
  }

  /** Once an upload has ended with an exception, the later paths are not tried. */
  lemma {:induction false} UploadAllStops(st: Store, bucket: string, paths: seq<string>, more: seq<string>,
                                          fails: string -> Option<Exc>)
    requires UploadAll(st, bucket, paths, fails).1.Fail?
    ensures UploadAll(st, bucket, paths + more, fails) == UploadAll(st, bucket, paths, fails)
    decreases |more|
  {
    if more != [] {
      var m := |more| - 1;
      assert (paths + more)[..|paths + more| - 1] == paths + more[..m];
      UploadAllStops(st, bucket, paths, more[..m], fails);
    } else {
      assert paths + more == paths;
    }
  }

  /** Uploading two lists one after the other is uploading their concatenation. */
  /** A directory of the walk that raises ends the walk's uploads. */
  lemma UploadWalkStops<T>(st: Store, bucket: string, walk: seq<T>, i: nat, paths: T -> seq<string>,
                           fails: string -> Option<Exc>)
    requires i < |walk| && UploadAll(st, bucket, FlatMap(walk[..i + 1], paths), fails).1.Fail?
    ensures UploadAll(st, bucket, FlatMap(walk, paths), fails)
            == UploadAll(st, bucket, FlatMap(walk[..i + 1], paths), fails)
  {
    var done, rest := walk[..i + 1], walk[i + 1..];
    assert done + rest == walk;
    FlatMapAppend(done, rest, paths);
    UploadAllStops(st, bucket, FlatMap(done, paths), FlatMap(rest, paths), fails);
  }

  lemma {:induction false} UploadAllAppend(st: Store, bucket: string, a: seq<string>, b: seq<string>,
                                           fails: string -> Option<Exc>)
    requires UploadAll(st, bucket, a, fails).1.Pass?
    ensures UploadAll(st, bucket, a + b, fails) == UploadAll(UploadAll(st, bucket, a, fails).0, bucket, b, fails)
    decreases |b|
  {
    if b == [] {
      assert a + b == a;
    } else {
      var m := |b| - 1;
      assert (a + b)[..|a + b| - 1] == a + b[..m];
      UploadAllAppend(st, bucket, a, b[..m], fails);
    }
  }

  /** The requests of an upload that meets no exception other than S3Error: one `fput_object`
      per path, in order, each under its own local path; the objects stored are those whose
      upload did not raise. */
  lemma {:induction false} UploadAllTriesEveryFile(st: Store, bucket: string, paths: seq<string>,
                                                   fails: string -> Option<Exc>)
    requires forall k :: 0 <= k < |paths| ==> fails(paths[k]).None? || fails(paths[k]) == Some(S3Error)
    ensures var (r, o) := UploadAll(st, bucket, paths, fails);
      && o == Pass && r.buckets == st.buckets
      && r.calls == st.calls + seq(|paths|, k requires 0 <= k < |paths| => FPutObject(bucket, paths[k], paths[k]))
      && (forall x :: x in r.stored <==> x in st.stored || exists k :: 0 <= k < |paths| && x == (bucket, paths[k]) && fails(paths[k]).None?)
    decreases |paths|
  {
    if paths != [] {
      var n := |paths| - 1;
      var front := paths[..n];
      assert forall k :: 0 <= k < n ==> front[k] == paths[k];
      UploadAllTriesEveryFile(st, bucket, front, fails);
      var (s1, _) := UploadAll(st, bucket, front, fails);
      var (r, o) := UploadAll(st, bucket, paths, fails);
      assert r.calls == s1.calls + [FPutObject(bucket, paths[n], paths[n])];
      forall x ensures x in r.stored <==> x in st.stored || exists k :: 0 <= k < |paths| && x == (bucket, paths[k]) && fails(paths[k]).None? {
        if exists k :: 0 <= k < |paths| && x == (bucket, paths[k]) && fails(paths[k]).None? {
          var k :| 0 <= k < |paths| && x == (bucket, paths[k]) && fails(paths[k]).None?;
          if k < n {
            assert x == (bucket, front[k]) && fails(front[k]).None?;
          }
        }
        if x in s1.stored && x !in st.stored {
          var k :| 0 <= k < n && x == (bucket, front[k]) && fails(front[k]).None?;
          assert x == (bucket, paths[k]);
        }
      }
    }
  }

  /** `put_dir`: nothing at all when `input_dir` is not a folder; otherwise the bucket check,
      then the uploads of the files the walk lists. */
  function PutDirResult(st: Store, bucket: string, inputDir: string, ignoreFolders: Ignore, isDir: bool, tree: Tree,
                        fails: string -> Option<Exc>): (Store, Outcome)
  {
    if !isDir then (st, Pass)
    else UploadAll(EnsureBucket(st, bucket), bucket, FlatMap(Walk(inputDir, tree, ignoreFolders), EntryPaths), fails)
  }

  /** A path that is not a folder sends no request at all; otherwise the bucket is created
      exactly when it is missing. */
  lemma {:induction false} PutDirBucketCalls(st: Store, bucket: string, inputDir: string, ignoreFolders: Ignore,
                                             isDir: bool, tree: Tree, fails: string -> Option<Exc>)
    ensures var (r, o) := PutDirResult(st, bucket, inputDir, ignoreFolders, isDir, tree, fails);
      && (!isDir ==> r == st && o == Pass)
      && (isDir ==> r.buckets == st.buckets + {bucket} && |st.calls| <= |r.calls|
                    && (MakeBucket(bucket) in r.calls[|st.calls|..] <==> bucket !in st.buckets))
  {
    if isDir {
      var s0 := EnsureBucket(st, bucket);
      var paths := FlatMap(Walk(inputDir, tree, ignoreFolders), EntryPaths);
      UploadAllOnlyPuts(s0, bucket, paths, fails);
      var r := PutDirResult(st, bucket, inputDir, ignoreFolders, isDir, tree, fails).0;
      assert r.calls[|st.calls|..] == s0.calls[|st.calls|..] + r.calls[|s0.calls|..];
    }
  }

  /** The uploads send nothing but `fput_object` requests and leave the buckets alone. */
  lemma {:induction false} UploadAllOnlyPuts(st: Store, bucket: string, paths: seq<string>, fails: string -> Option<Exc>)
    ensures var r := UploadAll(st, bucket, paths, fails).0;
      && r.buckets == st.buckets && |st.calls| <= |r.calls| && r.calls[..|st.calls|] == st.calls
      && forall i :: |st.calls| <= i < |r.calls| ==> r.calls[i].FPutObject?
    decreases |paths|
  {
    if paths != [] {
      UploadAllOnlyPuts(st, bucket, paths[..|paths| - 1], fails);
    }
  }

  // ----- retry -----

  /** What `retry` does, in order. */
  datatype Event = Attempt(n: nat) | Sleep(seconds: int)

  /** `MinioWriter.retry(func, retry_wait)`: `call(n)` is what the `n`-th call of `func`
      returns (a value, or Python's None as `None`) or raises. The first success is returned;
      after a failure it sleeps `retry_wait` seconds and calls once more; a second failure
      gives None. */
  method Retry<T>(call: nat -> Result<Option<T>>, retryWait: int) returns (r: Option<T>, events: seq<Event>)
    ensures r == RetryValue(call)
    ensures |events| >= 1 && events[0] == Attempt(0) && Attempts(events) <= 2
    ensures call(0).Ok? ==> r == call(0).value && events == [Attempt(0)]
    ensures call(0).Err? ==> events == [Attempt(0), Sleep(retryWait), Attempt(1)]
    ensures call(0).Err? && call(1).Ok? ==> r == call(1).value
    ensures call(0).Err? && call(1).Err? ==> r == None
  {
    events := [Attempt(0)];
    assert events[1..] == [];
    var first := call(0);
    if first.Ok? {
      return first.value, events;
    }
    events := events + [Sleep(retryWait)];
    events := events + [Attempt(1)];
    assert events[1..][1..][1..] == [];
    assert Attempts(events[1..][1..]) == 1;
    assert Attempts(events[1..]) == 1;
    var second := call(1);
    if second.Ok? {
      return second.value, events;
    }
    r := None;
  }

  /** The value `retry` returns. */
  function RetryValue<T>(call: nat -> Result<Option<T>>): Option<T> {
    if call(0).Ok? then call(0).value
    else if call(1).Ok? then call(1).value
    else None
  }

  /** The number of calls of `func` in a run. */
  function Attempts(events: seq<Event>): nat
    decreases |events|
  {
    if events == [] then 0 else (if events[0].Attempt? then 1 else 0) + Attempts(events[1..])
  }

  /** `put_dir` as `retry` sees it: None when it returns, its exception when it raises. */
  function AsCall(o: Outcome): Result<Option<()>> {
    match o
    case Pass => Ok(None)
    case Fail(e) => Err(e)
  }

  /** `put_dir` returns None whether or not it raises, so `retry(put_dir, ...)` is None in
      every case and the main block's completion message is never printed. */
  lemma {:induction false} RetryOfPutDirIsNone(first: Outcome, second: Outcome)
    ensures RetryValue((n: nat) => AsCall(if n == 0 then first else second)) == None
  {
    var call := (n: nat) => AsCall(if n == 0 then first else second);
    assert call(0) == AsCall(first) && call(1) == AsCall(second);
  }

  // ----- the folders the main block ignores -----

  /** What the main block passes: the string `bucket_ext`. */
  const MainIgnore: Ignore := Text("bucket_ext")

  /** What the parameter's type says is meant: the list holding the name `bucket_ext`. */
  const IntendedIgnore: Ignore := Names(["bucket_ext"])

  /** As written, every folder whose name is a piece of `bucket_ext`, such as `ext`, is pruned,
      and so are its files, which the intended list would upload. */
  lemma {:induction false} ExtFolderPrunedAsWritten()
    ensures Ignored("ext", MainIgnore) && !Ignored("ext", IntendedIgnore)
    ensures var t := Tree([], [Sub("ext", Tree(["lulc.tif"], []))]);
      WalkFileCount(Walk("data", t, MainIgnore)) == 0 && WalkFileCount(Walk("data", t, IntendedIgnore)) == 1
  {
    var ext := "bucket_ext"[7..];
    assert ext == "ext";
    assert OccursAt("bucket_ext", "ext", 7);
    ContainsIff("bucket_ext", "ext");
    var t := Tree([], [Sub("ext", Tree(["lulc.tif"], []))]);
    var sub := Tree(["lulc.tif"], []);
    assert [Sub("ext", sub)][1..] == [];
    assert Walk(PyPath.Join("data", "ext"), sub, IntendedIgnore) == [PyPath.WalkEntry(PyPath.Join("data", "ext"), ["lulc.tif"])];
    assert Walk("data", t, IntendedIgnore) == [PyPath.WalkEntry("data", []), PyPath.WalkEntry(PyPath.Join("data", "ext"), ["lulc.tif"])];
  }

  /** The intended list prunes the folder `bucket_ext` and no other; the string prunes it too. */
  lemma {:induction false} IntendedIgnorePrunesOnlyBucketExt(d: string)
    ensures Ignored(d, IntendedIgnore) <==> d == "bucket_ext"
    ensures Ignored(d, IntendedIgnore) ==> Ignored(d, MainIgnore)
  {
    if d == "bucket_ext" {
      assert OccursAt("bucket_ext", d, 0);
      ContainsIff("bucket_ext", d);
    }
  }
}
