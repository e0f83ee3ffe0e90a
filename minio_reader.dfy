/** The download side of the bucket synchronisation (`MinioReader`): which folders of the
    external bucket hold ICT data, which objects a folder selection picks, where an object is
    saved on the local disk, and the lists of failed objects the two download loops return.
    The bucket listing is the sequence of object names `list_objects` yields, in bucket
    order; whether the download of an object succeeds is the parameter `fetches`. */
module MinioReader {
  import opened Wrappers
  import opened PyStr
  import PyPath

  // ----- get_ICT_folders_from_bucket -----

  /** `object_name.rsplit('/', 1)[0]`: the text before the last `/`. */
  function FolderPath(objectName: string): (f: string)
    requires Contains(objectName, "/")
    ensures StartsWith(objectName, f + "/")
  {
    var parts := RSplitOnce(objectName, "/");
    assert Join(parts, "/") == parts[0] + "/" + parts[1];
    parts[0]
  }

  /** An object whose folder part names ICT data. */
  predicate InIctFolder(objectName: string) {
    Contains(objectName, "/") && Contains(Lower(FolderPath(objectName)), "ict")
  }

  /** The entry an object adds to `folders`: its folder part with a trailing `/`, when that
      part names ICT data. */
  function IctFolderOf(objectName: string): Option<string> {
    if InIctFolder(objectName) then Some(FolderPath(objectName) + "/") else None
  }

  /** The set the loop builds from the entries `entry` gives each object. */
  function Collect(objects: seq<string>, entry: string -> Option<string>): set<string>
    decreases |objects|
  {
    if objects == [] then {}
    else
      var e := entry(objects[|objects| - 1]);
      Collect(objects[..|objects| - 1], entry) + (if e.Some? then {e.value} else {})
  }

  /** The set `folders` after the loop over the bucket's objects. */
  function IctFolders(objects: seq<string>): set<string> {
    Collect(objects, IctFolderOf)
  }

  /** An element is collected exactly when some object gives it. */
  lemma {:induction false} CollectIff(objects: seq<string>, entry: string -> Option<string>, f: string)
    ensures f in Collect(objects, entry) <==> exists k :: 0 <= k < |objects| && entry(objects[k]) == Some(f)
    decreases |objects|
  {
    if objects != [] {
      var n := |objects| - 1;
      var front := objects[..n];
      CollectIff(front, entry, f);
      if f in Collect(front, entry) {
        var k :| 0 <= k < n && entry(front[k]) == Some(f);
        assert objects[k] == front[k];
      }
      if exists k :: 0 <= k < |objects| && entry(objects[k]) == Some(f) {
        var k :| 0 <= k < |objects| && entry(objects[k]) == Some(f);
        if k < n {
          assert front[k] == objects[k];
        }
      }
    }
  }

  /** A folder is found exactly when some object lies in it and its name contains `ict` in any
      case; names without a `/` contribute nothing. */
  lemma {:induction false} IctFoldersIff(objects: seq<string>, f: string)
    ensures f in IctFolders(objects) <==>
              exists k :: 0 <= k < |objects| && InIctFolder(objects[k]) && f == FolderPath(objects[k]) + "/"
  {
    CollectIff(objects, IctFolderOf, f);
    if exists k :: 0 <= k < |objects| && InIctFolder(objects[k]) && f == FolderPath(objects[k]) + "/" {
      var k :| 0 <= k < |objects| && InIctFolder(objects[k]) && f == FolderPath(objects[k]) + "/";
      assert IctFolderOf(objects[k]) == Some(f);
    }
  }

  /** Every folder found ends with `/`. */
  lemma {:induction false} IctFoldersEndInSlash(objects: seq<string>, f: string)
    requires f in IctFolders(objects)
    ensures f != [] && f[|f| - 1] == '/'
  {
    CollectIff(objects, IctFolderOf, f);
    var k :| 0 <= k < |objects| && IctFolderOf(objects[k]) == Some(f);
  }

  /** `get_ICT_folders_from_bucket`: the ICT folders, each once, in the arbitrary order
      `list(set)` gives them. */
  method GetIctFolders(objects: seq<string>) returns (folders: seq<string>)
    ensures forall i, j :: 0 <= i < j < |folders| ==> folders[i] != folders[j]
    ensures forall f :: f in folders <==> f in IctFolders(objects)
  {
    var found: set<string> := {};
    for k := 0 to |objects|
      invariant found == Collect(objects[..k], IctFolderOf)
    {
      assert objects[..k + 1][..k] == objects[..k];
      var objectName := objects[k];
      if Contains(objectName, "/") {
        var folderPath := RSplitOnce(objectName, "/")[0];
        if Contains(Lower(folderPath), "ict") {
          found := found + {folderPath + "/"};
        }
      }
    }
    assert objects[..|objects|] == objects;
    folders := ListOfSet(found);
  }

  /** `list(s)`: the elements of a set, each once, in some order. */
  method ListOfSet(s: set<string>) returns (xs: seq<string>)
    ensures forall i, j :: 0 <= i < j < |xs| ==> xs[i] != xs[j]
    ensures forall x :: x in xs <==> x in s
  {
    xs := [];
    var rest := s;
    while rest != {}
      invariant forall i, j :: 0 <= i < j < |xs| ==> xs[i] != xs[j]
      invariant forall x :: x in xs ==> x in s && x !in rest
      invariant forall x :: x in s ==> x in xs || x in rest
      invariant rest <= s
      decreases |rest|
    {
      var x :| x in rest;
      xs := xs + [x];
      rest := rest - {x};
    }
  }

  // ----- the selection in save_selected_folders_from_bucket -----

  /** `object_name.startswith(folder.rstrip('/') + '/')`. */
  predicate SelectedBy(objectName: string, folder: string) {
    StartsWith(objectName, RStripChar(folder, '/') + "/")
  }

  /** `any(... for folder in folders)`. */
  function AnySelects(objectName: string, folders: seq<string>): (b: bool)
    ensures b <==> exists i :: 0 <= i < |folders| && SelectedBy(objectName, folders[i])
    decreases |folders|
  {
    if folders == [] then false
    else
      var b := SelectedBy(objectName, folders[0]) || AnySelects(objectName, folders[1..]);
      assert forall i :: 0 < i < |folders| ==> folders[1..][i - 1] == folders[i];
      b
  }

  /** The objects `save_selected_folders_from_bucket` downloads, in bucket order. */
  function Selection(objects: seq<string>, folders: seq<string>): seq<string>
    decreases |objects|
  {
    if objects == [] then []
    else
      var o := objects[|objects| - 1];
      Selection(objects[..|objects| - 1], folders) + (if AnySelects(o, folders) then [o] else [])
  }

  /** The selection keeps the bucket's objects that some folder selects, and only those. */
  lemma {:induction false} SelectionMembers(objects: seq<string>, folders: seq<string>)
    ensures forall k :: 0 <= k < |Selection(objects, folders)| ==>
              Selection(objects, folders)[k] in objects && AnySelects(Selection(objects, folders)[k], folders)
    ensures forall k :: 0 <= k < |objects| && AnySelects(objects[k], folders) ==> objects[k] in Selection(objects, folders)
    decreases |objects|
  {
    if objects != [] {
      var n := |objects| - 1;
      SelectionMembers(objects[..n], folders);
      var sel := Selection(objects, folders);
      var front := Selection(objects[..n], folders);
      forall k | 0 <= k < |sel| ensures sel[k] in objects && AnySelects(sel[k], folders) {
        if k < |front| {
          assert sel[k] == front[k];
          assert front[k] in objects[..n];
          assert objects[..n] <= objects;
        }
      }
      forall k | 0 <= k < |objects| && AnySelects(objects[k], folders) ensures objects[k] in sel {
        if k < n {
          assert objects[k] == objects[..n][k];
          assert objects[k] in front;
        }
      }
    }
  }

  /** The folder found for an object selects that object, however many slashes end the folder
      part. */
  lemma {:induction false} OwnFolderSelects(objectName: string)
    requires Contains(objectName, "/")
    ensures SelectedBy(objectName, FolderPath(objectName) + "/")
  {
    var f := FolderPath(objectName) + "/";
    var r := RStripChar(f, '/');
    assert |r| < |f|;
    assert r + "/" == f[..|r| + 1] by {
      assert f[|r|] == '/';
      assert f[..|r|] == r;
    }
  }

  /** The two steps of the external download together: every object in an ICT folder is
      selected by the folders `get_ICT_folders_from_bucket` returned for the same listing. */
  lemma {:induction false} IctObjectsSelected(objects: seq<string>, folders: seq<string>, k: nat)
    requires forall f :: f in folders <==> f in IctFolders(objects)
    requires k < |objects| && InIctFolder(objects[k])
    ensures objects[k] in Selection(objects, folders)
  {
    var o := objects[k];
    var f := FolderPath(o) + "/";
    IctFoldersIff(objects, f);
    var i :| 0 <= i < |folders| && folders[i] == f;
    OwnFolderSelects(o);
    SelectionMembers(objects, folders);
  }

  // ----- save_object_locally -----

  /** The local disk as the download loops see it: the paths of the files and of the folders
      on it. */
  datatype Disk = Disk(files: set<string>, dirs: set<string>)

  /** `os.path.exists(p)`. */
  predicate Exists(d: Disk, p: string) {
    p in d.files || p in d.dirs
  }

  /** The three paths `save_object_locally` works with for one object. */
  datatype Paths = Paths(internalPath: string, checked: string, target: string)

  /** `internal_path` is the object's whole name joined to the data folder, and the file name
      (`object_name.split("/")[-1]`) is the text after its last `/`; the skip test looks at
      `os.path.join(internal_path, file_name)`, the download writes
      `internal_path + "/" + file_name`. */
  function PathsOf(dataDir: string, objectName: string): Paths {
    var internalPath := PyPath.Join(dataDir, objectName);
    var fileName := PyPath.Basename(objectName);
    Paths(internalPath, PyPath.Join(internalPath, fileName), internalPath + "/" + fileName)
  }

  /** The paths under `data`, where `save_all_objects_from_bucket` saves. */
  function DataPaths(objectName: string): Paths {
    PathsOf("data", objectName)
  }

  /** The paths under `bucket_ext`, where `save_selected_folders_from_bucket` saves. */
  function ExternalPaths(objectName: string): Paths {
    PathsOf("bucket_ext", objectName)
  }

  /** What one call returns and the disk after it. */
  datatype Saved = Saved(failed: Option<string>, disk: Disk)

  /** `save_object_locally`, on values, for an object whose paths are `p` and whose download
      succeeds when `fetched`: an object already on disk is skipped when asked; a file where the
      folder should be makes `os.makedirs` raise; a failed download leaves the new folder
      behind. */
  function Save(d: Disk, objectName: string, p: Paths, skipExisting: bool, fetched: bool): Saved {
    if skipExisting && Exists(d, p.checked) then Saved(None, d)
    else if p.internalPath in d.files then Saved(Some(objectName), d)
    else
      var d1 := Disk(d.files, d.dirs + {p.internalPath});
      if !fetched then Saved(Some(objectName), d1)
      else Saved(None, Disk(d1.files + {p.target}, d1.dirs))
  }

  /** The result is the object's name exactly when the call raised, and None otherwise;
      skipping an existing target changes nothing on disk. */
  lemma {:induction false} SaveResult(d: Disk, objectName: string, p: Paths, skipExisting: bool, fetched: bool)
    ensures var s := Save(d, objectName, p, skipExisting, fetched);
      var skipped := skipExisting && Exists(d, p.checked);
      && (s.failed == None || s.failed == Some(objectName))
      && (s.failed.Some? <==> !skipped && (p.internalPath in d.files || !fetched))
      && (skipped ==> s.disk == d)
  {
  }

  /** Saving only adds: the object's folder, and its file when the download succeeds. */
  lemma {:induction false} SaveAdds(d: Disk, objectName: string, p: Paths, skipExisting: bool, fetched: bool)
    ensures var s := Save(d, objectName, p, skipExisting, fetched);
      && d.files <= s.disk.files <= d.files + {p.target}
      && d.dirs <= s.disk.dirs <= d.dirs + {p.internalPath}
      && (s.failed == None && !(skipExisting && Exists(d, p.checked)) ==> p.target in s.disk.files)
  {
  }

  /** For an object name that does not end in `/`, the skip test looks at the very file the
      download writes. */
  lemma {:induction false} TargetsAgree(dataDir: string, objectName: string)
    requires objectName != [] && objectName[|objectName| - 1] != '/'
    ensures PathsOf(dataDir, objectName).checked == PathsOf(dataDir, objectName).target
  {
    var internalPath := PyPath.Join(dataDir, objectName);
    var name := PyPath.Basename(objectName);
    assert internalPath != [] && internalPath[|internalPath| - 1] == objectName[|objectName| - 1] by {
      if StartsWith(objectName, "/") {
        assert internalPath == objectName;
      } else {
        assert EndsWith(internalPath, objectName);
        assert internalPath[|internalPath| - |objectName|..][|objectName| - 1] == objectName[|objectName| - 1];
      }
    }
    assert name != [] && name[0] != '/' by {
      BasenameNonEmpty(objectName);
      assert name[0] in name;
    }
    PyPath.JoinRelative(internalPath, name);
  }

  lemma {:induction false} BasenameNonEmpty(p: string)
    requires p != [] && p[|p| - 1] != '/'
    ensures PyPath.Basename(p) != []
  {
    var b := PyPath.Basename(p);
    match LastIndexOf(p, "/")
    case None =>
    case Some(i) =>
      assert p[i..i + 1][0] == p[i];
      assert i < |p| - 1;
      assert b == p[i + 1..];
  }

  /** The local files the download loops work on. */
  class LocalFiles {
    var files: set<string>
    var dirs: set<string>

    function State(): Disk
      reads this
    {
      Disk(files, dirs)
    }

    constructor (d: Disk)
      ensures State() == d
    {
      files := d.files;
      dirs := d.dirs;
    }
  }

  /** `save_object_locally(bucket_name, object_name, data_dir, skip_existing)`. */
  method SaveObjectLocally(disk: LocalFiles, objectName: string, dataDir: string, skipExisting: bool,
                           fetches: string -> bool)
    returns (failed: Option<string>)
    modifies disk
    ensures Saved(failed, disk.State())
              == Save(old(disk.State()), objectName, PathsOf(dataDir, objectName), skipExisting, fetches(objectName))
  {
    var internalPath := PyPath.Join(dataDir, objectName);
    var fileName := PyPath.Basename(objectName);
    if skipExisting {
      var target := PyPath.Join(internalPath, fileName);
      if target in disk.files || target in disk.dirs {
        return None;
      }
    }
    if internalPath in disk.files {
      return Some(objectName);
    }
    disk.dirs := disk.dirs + {internalPath};
    if !fetches(objectName) {
      return Some(objectName);
    }
    disk.files := disk.files + {internalPath + "/" + fileName};
    failed := None;
  }

  // ----- save_all_objects_from_bucket and save_selected_folders_from_bucket -----

  /** The list of failed objects a download loop returns, and the disk after it. */
  datatype Batch = Batch(failed: seq<Option<string>>, disk: Disk)

  /** The objects saved one after the other, each at the paths `plan` gives it. */
  function SaveEach(d: Disk, objects: seq<string>, plan: string -> Paths, skipExisting: bool,
                    fetches: string -> bool): Batch
    decreases |objects|
  {
    if objects == [] then Batch([], d)
    else
      var o := objects[|objects| - 1];
      var b := SaveEach(d, objects[..|objects| - 1], plan, skipExisting, fetches);
      var s := Save(b.disk, o, plan(o), skipExisting, fetches(o));
      Batch(b.failed + [s.failed], s.disk)
  }

  /** One entry per object, in order: None, or the object's own name when it failed; and the
      disk only grows. */
  lemma {:induction false} SaveEachShape(d: Disk, objects: seq<string>, plan: string -> Paths, skipExisting: bool,
                                         fetches: string -> bool)
    ensures var b := SaveEach(d, objects, plan, skipExisting, fetches);
      && |b.failed| == |objects|
      && (forall k :: 0 <= k < |objects| ==> b.failed[k] == None || b.failed[k] == Some(objects[k]))
      && d.files <= b.disk.files && d.dirs <= b.disk.dirs
    decreases |objects|
  {
    if objects != [] {
      var n := |objects| - 1;
      var o := objects[n];
      SaveEachShape(d, objects[..n], plan, skipExisting, fetches);
      var b := SaveEach(d, objects[..n], plan, skipExisting, fetches);
      SaveResult(b.disk, o, plan(o), skipExisting, fetches(o));
      SaveAdds(b.disk, o, plan(o), skipExisting, fetches(o));
      var r := SaveEach(d, objects, plan, skipExisting, fetches);
      forall k | 0 <= k < |objects| ensures r.failed[k] == None || r.failed[k] == Some(objects[k]) {
        if k < n {
          assert r.failed[k] == b.failed[k] && objects[..n][k] == objects[k];
        }
      }
    }
  }

  /** The `k`-th entry is the result of saving the `k`-th object on the disk the earlier
      objects left. */
  lemma {:induction false} SaveEachPrefix(d: Disk, objects: seq<string>, plan: string -> Paths, skipExisting: bool,
                                          fetches: string -> bool, k: nat)
    requires k < |objects|
    ensures |SaveEach(d, objects, plan, skipExisting, fetches).failed| == |objects|
    ensures var b := SaveEach(d, objects[..k], plan, skipExisting, fetches);
      SaveEach(d, objects, plan, skipExisting, fetches).failed[k]
        == Save(b.disk, objects[k], plan(objects[k]), skipExisting, fetches(objects[k])).failed
    decreases |objects|
  {
    var n := |objects| - 1;
    SaveEachShape(d, objects, plan, skipExisting, fetches);
    SaveEachShape(d, objects[..n], plan, skipExisting, fetches);
    if k < n {
      assert objects[..n][..k] == objects[..k];
      assert objects[..n][k] == objects[k];
      SaveEachPrefix(d, objects[..n], plan, skipExisting, fetches, k);
    } else {
      assert objects[..n] == objects[..k];
    }
  }

  /** With `skip_existing_files`, an object whose target was on disk before the loop started is
      not downloaded and is not reported as failed. */
  lemma {:induction false} SaveEachSkipsExisting(d: Disk, objects: seq<string>, plan: string -> Paths,
                                                 fetches: string -> bool, k: nat)
    requires k < |objects| && Exists(d, plan(objects[k]).checked)
    ensures |SaveEach(d, objects, plan, true, fetches).failed| == |objects|
    ensures SaveEach(d, objects, plan, true, fetches).failed[k] == None
  {
    SaveEachPrefix(d, objects, plan, true, fetches, k);
    SaveEachShape(d, objects[..k], plan, true, fetches);
    var b := SaveEach(d, objects[..k], plan, true, fetches);
    assert Exists(b.disk, plan(objects[k]).checked);
  }

  /** One more object of a listing is one more save. */
  lemma SaveEachTake(d: Disk, objects: seq<string>, k: nat, plan: string -> Paths, skipExisting: bool,
                     fetches: string -> bool)
    requires k < |objects|
    ensures SaveEach(d, objects[..k + 1], plan, skipExisting, fetches)
            == Batch(SaveEach(d, objects[..k], plan, skipExisting, fetches).failed
                       + [Save(SaveEach(d, objects[..k], plan, skipExisting, fetches).disk, objects[k],
                               plan(objects[k]), skipExisting, fetches(objects[k])).failed],
                     Save(SaveEach(d, objects[..k], plan, skipExisting, fetches).disk, objects[k],
                          plan(objects[k]), skipExisting, fetches(objects[k])).disk)
  {
    assert objects[..k + 1][..k] == objects[..k];
  }

  /** One more selected object is one more save. */
  lemma SaveEachSnoc(d: Disk, front: seq<string>, o: string, plan: string -> Paths, skipExisting: bool,
                     fetches: string -> bool)
    ensures SaveEach(d, front + [o], plan, skipExisting, fetches)
            == Batch(SaveEach(d, front, plan, skipExisting, fetches).failed
                       + [Save(SaveEach(d, front, plan, skipExisting, fetches).disk, o, plan(o), skipExisting, fetches(o)).failed],
                     Save(SaveEach(d, front, plan, skipExisting, fetches).disk, o, plan(o), skipExisting, fetches(o)).disk)
  {
    assert (front + [o])[..|front|] == front;
  }

  /** The selection of one more object of the bucket. */
  lemma SelectionTake(objects: seq<string>, folders: seq<string>, k: nat)
    requires k < |objects|
    ensures Selection(objects[..k + 1], folders)
            == Selection(objects[..k], folders) + (if AnySelects(objects[k], folders) then [objects[k]] else [])
  {
    assert objects[..k + 1][..k] == objects[..k];
  }

  /** `save_all_objects_from_bucket(bucket_name, skip_existing_files)`: every object of the
      bucket is saved under `data`. */
  method SaveAllObjects(disk: LocalFiles, objects: seq<string>, skipExistingFiles: bool, fetches: string -> bool)
    returns (failedFiles: seq<Option<string>>)
    modifies disk
    ensures Batch(failedFiles, disk.State()) == SaveEach(old(disk.State()), objects, DataPaths, skipExistingFiles, fetches)
  {
    failedFiles := [];
    for k := 0 to |objects|
      invariant Batch(failedFiles, disk.State()) == SaveEach(old(disk.State()), objects[..k], DataPaths, skipExistingFiles, fetches)
    {
      SaveEachTake(old(disk.State()), objects, k, DataPaths, skipExistingFiles, fetches);
      var failed := SaveObjectLocally(disk, objects[k], "data", skipExistingFiles, fetches);
      failedFiles := failedFiles + [failed];
    }
    assert objects[..|objects|] == objects;
  }

  /** `save_selected_folders_from_bucket(bucket_name, folders, skip_existing_files)`: the
      selected objects are saved under `bucket_ext`. */
  method SaveSelectedFolders(disk: LocalFiles, objects: seq<string>, folders: seq<string>, skipExistingFiles: bool,
                             fetches: string -> bool)
    returns (failedFiles: seq<Option<string>>)
    modifies disk
    ensures Batch(failedFiles, disk.State())
              == SaveEach(old(disk.State()), Selection(objects, folders), ExternalPaths, skipExistingFiles, fetches)
  {
    failedFiles := [];
    ghost var selected: seq<string> := [];
    for k := 0 to |objects|
      invariant selected == Selection(objects[..k], folders)
      invariant Batch(failedFiles, disk.State()) == SaveEach(old(disk.State()), selected, ExternalPaths, skipExistingFiles, fetches)
    {
      SelectionTake(objects, folders, k);
      var objectName := objects[k];
      if AnySelects(objectName, folders) {
        SaveEachSnoc(old(disk.State()), selected, objectName, ExternalPaths, skipExistingFiles, fetches);
        var failed := SaveObjectLocally(disk, objectName, "bucket_ext", skipExistingFiles, fetches);
        failedFiles := failedFiles + [failed];
        selected := selected + [objectName];
      }
    }
    assert objects[..|objects|] == objects;
  }

  /** The external download reports one entry per selected object, in bucket order: None, or the
      name of the object that failed. */
  lemma {:induction false} SelectedFailures(d: Disk, objects: seq<string>, folders: seq<string>, skipExisting: bool,
                                            fetches: string -> bool)
    ensures var sel := Selection(objects, folders);
      var b := SaveEach(d, sel, ExternalPaths, skipExisting, fetches);
      && |b.failed| == |sel|
      && (forall k :: 0 <= k < |sel| ==> b.failed[k] == None || b.failed[k] == Some(sel[k]))
      && (forall k :: 0 <= k < |sel| ==> sel[k] in objects && AnySelects(sel[k], folders))
  {
    SaveEachShape(d, Selection(objects, folders), ExternalPaths, skipExisting, fetches);
    SelectionMembers(objects, folders);
  }

  // ----- the report of the script's main block -----

  /** The names printed as `Failed to download` for a list of results. */
  function Reported(failed: seq<Option<string>>): (names: seq<string>)
    ensures forall x :: x in names <==> Some(x) in failed
    decreases |failed|
  {
    if failed == [] then []
    else
      var rest := Reported(failed[..|failed| - 1]);
      assert failed == failed[..|failed| - 1] + [failed[|failed| - 1]];
      match failed[|failed| - 1]
      case None => rest
      case Some(x) => rest + [x]
  }

  /** The report as written: the second loop prints the failures of the first download again. */
  function MainReportAsWritten(failedFiles: seq<Option<string>>, failedFilesExt: seq<Option<string>>): seq<string> {
    Reported(failedFiles) + Reported(failedFiles)
  }

  /** The evident intent: the second loop prints the failures of the external download. */
  function MainReport(failedFiles: seq<Option<string>>, failedFilesExt: seq<Option<string>>): seq<string> {
    Reported(failedFiles) + Reported(failedFilesExt)
  }

  /** A failed external object never appears in the report as written. */
  lemma {:induction false} MainReportMissesExternal()
    ensures MainReportAsWritten([], [Some("ict/lulc.tif")]) == []
    ensures "ict/lulc.tif" in MainReport([], [Some("ict/lulc.tif")])
  {
    assert Reported([Some("ict/lulc.tif")]) == ["ict/lulc.tif"] by {
      assert [Some("ict/lulc.tif")][..0] == [];
    }
  }

  /** The intended report names exactly the objects that failed in either download. */
  lemma {:induction false} MainReportComplete(failedFiles: seq<Option<string>>, failedFilesExt: seq<Option<string>>, x: string)
    ensures x in MainReport(failedFiles, failedFilesExt) <==> Some(x) in failedFiles || Some(x) in failedFilesExt
  {
  }
}
