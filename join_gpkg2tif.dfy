/** The rasterisation step: which GeoPackage fields become rasters, the timestamp read off the
    name of the accompanying XML file, the per-field output path and description written into
    each raster, and the grouping of a directory walk into patch pairs and corridor lists. */
module JoinGpkg2Tif {
  import opened Wrappers
  import opened PyStr
  import PyPath
  import opened OrderedDict
  import opened Seqs

  /** The attribute fields `main` never rasterises. */
  const ExcludeFields: seq<string> := ["Id", "area", "perim", "capacity", "idhab"]

  // ----- fields -----

  /** `get_relevant_fields`: the schema's field names not listed in `exclude`. */
  function RelevantFields(schema: seq<string>, exclude: seq<string>): seq<string> {
    Filter(schema, f => f !in exclude)
  }

  /** A field is kept exactly when the schema has it and `exclude` does not. */
  lemma {:induction false} RelevantFieldsIff(schema: seq<string>, exclude: seq<string>, f: string)
    ensures f in RelevantFields(schema, exclude) <==> f in schema && f !in exclude
  {
    var r := RelevantFields(schema, exclude);
    FilterMembers(schema, f => f !in exclude);
    if f in r {
      var k :| 0 <= k < |r| && r[k] == f;
    }
    if f in schema && f !in exclude {
      var k :| 0 <= k < |schema| && schema[k] == f;
    }
  }

  /** The fields keep the schema's order: the fields of two runs of the schema are those of the
      first followed by those of the second, and nothing excluded means the whole schema. */
  lemma {:induction false} RelevantFieldsOrder(a: seq<string>, b: seq<string>, exclude: seq<string>)
    ensures RelevantFields(a + b, exclude) == RelevantFields(a, exclude) + RelevantFields(b, exclude)
    ensures exclude == [] ==> RelevantFields(a, exclude) == a
  {
    FilterAppend(a, b, f => f !in exclude);
    if exclude == [] {
      FilterAll(a, f => f !in exclude);
    }
  }

  // ----- the timestamp of the XML file -----

  predicate IsXmlCandidate(f: string) { EndsWith(f, ".xml") && !EndsWith(f, "aux.xml") }

  /** The XML files of a directory listing, auxiliary `aux.xml` files excepted. */
  function XmlCandidates(listing: seq<string>): seq<string> {
    Filter(listing, IsXmlCandidate)
  }

  const YearEnd: string := "-12-31 23:59:59"

  /** `re.search(r'(\d{4})\.xml$', name)`: the four digits right before the final `.xml`. */
  function XmlYear(name: string): (r: Option<string>)
    ensures r.Some? <==> exists y :: |y| == 4 && AllDigits(y) && EndsWith(name, y + ".xml")
    ensures r.Some? ==> |r.value| == 4 && AllDigits(r.value) && EndsWith(name, r.value + ".xml")
  {
    var n := |name|;
    if n >= 8 && EndsWith(name, ".xml") && AllDigits(name[n - 8..n - 4]) then
      assert name[n - 8..] == name[n - 8..n - 4] + ".xml";
      Some(name[n - 8..n - 4])
    else None
  }

  /** `extract_timestamp_xml` with the listings of the file's directory and of its parent: the
      first XML candidate of the directory, or of the parent when the directory has none, gives
      the year of a timestamp at the last second of that year. */
  function ExtractTimestampXml(current: seq<string>, parent: seq<string>): (r: Option<string>)
    ensures r.Some? ==> exists y :: |y| == 4 && AllDigits(y) && r.value == y + YearEnd
  {
    var files := if XmlCandidates(current) != [] then XmlCandidates(current) else XmlCandidates(parent);
    if files == [] then None
    else
      match XmlYear(files[0])
      case None => None
      case Some(y) => Some(y + YearEnd)
  }

  /** The parent directory is consulted only when the file's own directory has no candidate. */
  lemma {:induction false} ParentOnlyWithoutCandidate(current: seq<string>, parent1: seq<string>, parent2: seq<string>)
    requires exists f :: f in current && IsXmlCandidate(f)
    ensures ExtractTimestampXml(current, parent1) == ExtractTimestampXml(current, parent2)
  {
    var f :| f in current && IsXmlCandidate(f);
    var k :| 0 <= k < |current| && current[k] == f;
    FilterMembers(current, IsXmlCandidate);
    assert f in XmlCandidates(current);
  }

  /** The timestamp comes from the first name of the listing used that is an XML candidate:
      it ends in four digits and `.xml`, and `None` means no candidate or no such digits. */
  lemma {:induction false} TimestampOfFirstCandidate(listing: seq<string>)
    requires XmlCandidates(listing) != []
    ensures exists k :: 0 <= k < |listing| && IsXmlCandidate(listing[k])
                     && (forall j :: 0 <= j < k ==> !IsXmlCandidate(listing[j]))
                     && ExtractTimestampXml(listing, []) ==
                          (match XmlYear(listing[k]) case None => None case Some(y) => Some(y + YearEnd))
  {
    FilterFirst(listing, IsXmlCandidate);
  }

  /** No candidate in either directory: no timestamp. */
  lemma {:induction false} NoCandidateNoTimestamp(current: seq<string>, parent: seq<string>)
    requires forall f :: f in current + parent ==> !IsXmlCandidate(f)
    ensures ExtractTimestampXml(current, parent) == None
  {
    FilterMembers(current, IsXmlCandidate);
    FilterMembers(parent, IsXmlCandidate);
  }

  // ----- output names and descriptions -----

  /** `output_tif_path.replace(".tif", f"_{field}.tif")`. */
  function FieldOutputPath(outputTif: string, field: string): string {
    Replace(outputTif, ".tif", "_" + field + ".tif")
  }

  /** For the `output.tif` of a folder without a `.` in its path, the field's raster is
      `output_<field>.tif` in the same folder. */
  lemma {:induction false} FieldOutputPathInFolder(folder: string, field: string)
    requires '.' !in folder
    ensures FieldOutputPath(PyPath.Join(folder, "output.tif"), field) == PyPath.Join(folder, "output_" + field + ".tif")
  {
    var rep := "_" + field + ".tif";
    var p := if folder == [] || folder[|folder| - 1] == '/' then folder else folder + "/";
    PyPath.JoinRelative(folder, "output.tif");
    PyPath.JoinRelative(folder, "output_" + field + ".tif");
    assert "output.tif" == "output" + ".tif";
    assert "output_" == "output" + "_";
    CatAssoc("output", "_", field);
    CatAssoc("output", "_" + field, ".tif");
    CatAssoc(p, "output", ".tif");
    CatAssoc(p, "output", rep);
    assert '.' !in p + "output";
    ReplaceSuffix(p + "output", ".tif", rep);
  }


  /** `field.split('_')[0]`: the field name up to its first `_`. */
  function IndexName(field: string): (r: string)
    ensures '_' !in r
    ensures r == field || StartsWith(field, r + "_")
  {
    HeadPieceChar(field, '_');
    Split(field, "_")[0]
  }

  /** The timestamp as an f-string prints it. */
  function TimestampText(ts: Option<string>): string {
    match ts case None => "None" case Some(t) => t
  }

  /** The description written into every raster. */
  function Description(index: string, ts: Option<string>): string {
    "INDEX:" + index + "; TIMESTAMP:" + TimestampText(ts)
  }

  // ----- rasterize_geopackage -----

  /** A raster written: its path and its description tag. */
  datatype Output = Output(path: string, description: string)

  function FieldOutput(outputTif: string, field: string, ts: Option<string>): Output {
    Output(FieldOutputPath(outputTif, field), Description(IndexName(field), ts))
  }

  function Outputs(fields: seq<string>, outputTif: string, ts: Option<string>): seq<Output> {
    FlatMap(fields, f => [FieldOutput(outputTif, f, ts)])
  }

  /** The fields rasterised, layer after layer. */
  function LayerFields(layers: seq<seq<string>>, exclude: seq<string>): seq<string> {
    FlatMap(layers, fs => RelevantFields(fs, exclude))
  }

  /** Whether the raster of `field` can be created next to `outputTif`. */
  function FieldCreatable(outputTif: string, canCreate: string -> bool): string -> bool {
    f => canCreate(FieldOutputPath(outputTif, f))
  }

  /** Index of the first field whose output raster cannot be created, or the number of fields. */
  function FirstUncreatable(fields: seq<string>, canCreate: string -> bool): (k: nat)
    ensures k <= |fields|
    ensures forall j :: 0 <= j < k ==> canCreate(fields[j])
    ensures k < |fields| ==> !canCreate(fields[k])
    decreases |fields|
  {
    if fields == [] || !canCreate(fields[0]) then 0 else 1 + FirstUncreatable(fields[1..], canCreate)
  }

  predicate IsPrefix(p: seq<string>, s: seq<string>) { |p| <= |s| && s[..|p|] == p }

  /** The inner loop of `rasterize_geopackage` as written, over the fields of one layer: it stops
      at the first field whose raster cannot be created. */
  method RasterizeFieldsAsWritten(fields: seq<string>, outputTif: string, ts: Option<string>,
                                  canCreate: string -> bool)
    returns (written: seq<Output>, failed: bool)
    ensures var k := FirstUncreatable(fields, FieldCreatable(outputTif, canCreate));
      written == Outputs(fields[..k], outputTif, ts) && failed == (k < |fields|)
  {
    ghost var keep := FieldCreatable(outputTif, canCreate);
    written, failed := [], false;
    var n := 0;
    while n < |fields|
      invariant 0 <= n <= |fields|
      invariant FirstUncreatable(fields[..n], keep) == n
      invariant written == Outputs(fields[..n], outputTif, ts)
    {
      var field := fields[n];
      var path := FieldOutputPath(outputTif, field);
      FirstUncreatableStep(fields, n, keep);
      if !canCreate(path) {
        failed := true;
        return;
      }
      written := written + [FieldOutput(outputTif, field, ts)];
      OutputsStep(fields, n, outputTif, ts);
      n := n + 1;
    }
    assert fields[..n] == fields;
  }

  lemma {:induction false} OutputsStep(fields: seq<string>, n: nat, outputTif: string, ts: Option<string>)
    requires n < |fields|
    ensures Outputs(fields[..n + 1], outputTif, ts) == Outputs(fields[..n], outputTif, ts) + [FieldOutput(outputTif, fields[n], ts)]
  {
    FlatMapStep(fields, n, f => [FieldOutput(outputTif, f, ts)]);
  }

  /** One more field in the as-written loop: it is written, or it is where the loop stops. */
  lemma {:induction false} FirstUncreatableStep(fields: seq<string>, n: nat, keep: string -> bool)
    requires n < |fields| && FirstUncreatable(fields[..n], keep) == n
    ensures keep(fields[n]) ==> FirstUncreatable(fields[..n + 1], keep) == n + 1
    ensures !keep(fields[n]) ==> FirstUncreatable(fields, keep) == n && fields[..FirstUncreatable(fields, keep)] == fields[..n]
  {
    var p, q := fields[..n], fields[..n + 1];
    assert q == p + [fields[n]];
    FirstUncreatableSnoc(p, fields[n], keep);
    if !keep(fields[n]) {
      assert FirstUncreatable(q, keep) == n;
      FirstUncreatableOfPrefix(fields, q, keep);
      assert q[..n] == p;
    }
  }

  /** `rasterize_geopackage` as written: the layers' field schemas, the listings of the
      GeoPackage's directory and of its parent, and which output paths `driver.Create` can
      create. When a create fails, `create_output_tiff` returns a bare `None`, and unpacking it
      into two names raises a TypeError before the `None` test. The rasters written up to that
      point stay written. */
  method RasterizeGeopackageAsWritten(gpkgOpens: bool, layers: seq<seq<string>>, exclude: seq<string>,
                                      outputTif: string, current: seq<string>, parent: seq<string>,
                                      canCreate: string -> bool)
    returns (written: seq<Output>, r: Outcome)
    ensures !gpkgOpens ==> written == [] && r == Pass
    ensures gpkgOpens ==>
      var fields := LayerFields(layers, exclude);
      var k := FirstUncreatable(fields, FieldCreatable(outputTif, canCreate));
      written == Outputs(fields[..k], outputTif, ExtractTimestampXml(current, parent))
      && r == (if k < |fields| then Fail(TypeError) else Pass)
  {
    written, r := [], Pass;
    if !gpkgOpens {
      return;
    }
    var ts := ExtractTimestampXml(current, parent);
    ghost var keep := FieldCreatable(outputTif, canCreate);
    ghost var all := LayerFields(layers, exclude);
    var l := 0;
    while l < |layers|
      invariant 0 <= l <= |layers|
      invariant FirstUncreatable(LayerFields(layers[..l], exclude), keep) == |LayerFields(layers[..l], exclude)|
      invariant written == Outputs(LayerFields(layers[..l], exclude), outputTif, ts)
    {
      var fields := RelevantFields(layers[l], exclude);
      var more, failed := RasterizeFieldsAsWritten(fields, outputTif, ts, canCreate);
      AsWrittenLayerStep(layers, l, exclude, keep, outputTif, ts);
      written := written + more;
      if failed {
        r := Fail(TypeError);
        return;
      }
      l := l + 1;
    }
    assert layers[..|layers|] == layers;
    assert all[..|all|] == all;
  }

  /** One layer of the as-written loop: after the layers before `l` were written in full, the
      fields of layer `l` up to its first failure extend what was written, and a failure in it
      is the first failure overall. */
  lemma {:induction false} AsWrittenLayerStep(layers: seq<seq<string>>, l: nat, exclude: seq<string>, keep: string -> bool,
                           outputTif: string, ts: Option<string>)
    requires l < |layers|
    requires FirstUncreatable(LayerFields(layers[..l], exclude), keep) == |LayerFields(layers[..l], exclude)|
    ensures var seen, fields := LayerFields(layers[..l], exclude), RelevantFields(layers[l], exclude);
      var k := FirstUncreatable(fields, keep);
      var done := Outputs(seen, outputTif, ts) + Outputs(fields[..k], outputTif, ts);
      (k == |fields| ==>
         FirstUncreatable(LayerFields(layers[..l + 1], exclude), keep) == |LayerFields(layers[..l + 1], exclude)|
         && done == Outputs(LayerFields(layers[..l + 1], exclude), outputTif, ts))
      && (k < |fields| ==>
         var all := LayerFields(layers, exclude);
         FirstUncreatable(all, keep) < |all| && done == Outputs(all[..FirstUncreatable(all, keep)], outputTif, ts))
  {
    var seen, fields := LayerFields(layers[..l], exclude), RelevantFields(layers[l], exclude);
    var k := FirstUncreatable(fields, keep);
    OutputsAppend(seen, fields[..k], outputTif, ts);
    FirstUncreatableAppend(seen, fields, keep);
    LayerFieldsSnoc(layers, l, exclude);
    if k < |fields| {
      StopsInLayer(layers, l, exclude, keep);
    } else {
      assert fields[..k] == fields;
    }
  }

  /** A field of layer `l` that cannot be created, after every earlier field could, is the
      first such field of all the layers. */
  lemma {:induction false} StopsInLayer(layers: seq<seq<string>>, l: nat, exclude: seq<string>, keep: string -> bool)
    requires l < |layers|
    requires FirstUncreatable(LayerFields(layers[..l], exclude), keep) == |LayerFields(layers[..l], exclude)|
    requires FirstUncreatable(RelevantFields(layers[l], exclude), keep) < |RelevantFields(layers[l], exclude)|
    ensures var all := LayerFields(layers, exclude);
      var k := FirstUncreatable(RelevantFields(layers[l], exclude), keep);
      FirstUncreatable(all, keep) < |all|
      && all[..FirstUncreatable(all, keep)] == LayerFields(layers[..l], exclude) + RelevantFields(layers[l], exclude)[..k]
  {
    var seen, fields := LayerFields(layers[..l], exclude), RelevantFields(layers[l], exclude);
    LayerFieldsSnoc(layers, l, exclude);
    LayerFieldsPrefix(layers, l + 1, exclude);
    FirstUncreatableAppend(seen, fields, keep);
    FirstUncreatableOfPrefix(LayerFields(layers, exclude), seen + fields, keep);
    PrefixTake(seen, fields, FirstUncreatable(fields, keep));
  }

  lemma {:induction false} OutputsAppend(a: seq<string>, b: seq<string>, outputTif: string, ts: Option<string>)
    ensures Outputs(a + b, outputTif, ts) == Outputs(a, outputTif, ts) + Outputs(b, outputTif, ts)
  {
    FlatMapAppend(a, b, f => [FieldOutput(outputTif, f, ts)]);
  }

  lemma {:induction false} LayerFieldsSnoc(layers: seq<seq<string>>, l: nat, exclude: seq<string>)
    requires l < |layers|
    ensures LayerFields(layers[..l + 1], exclude) == LayerFields(layers[..l], exclude) + RelevantFields(layers[l], exclude)
  {
    FlatMapStep(layers, l, fs => RelevantFields(fs, exclude));
  }

  lemma {:induction false} FirstUncreatableSnoc(fields: seq<string>, f: string, keep: string -> bool)
    requires FirstUncreatable(fields, keep) == |fields|
    ensures FirstUncreatable(fields + [f], keep) == if keep(f) then |fields| + 1 else |fields|
  {
    FirstUncreatableAppend(fields, [f], keep);
  }

  lemma {:induction false} FirstUncreatableAppend(a: seq<string>, b: seq<string>, keep: string -> bool)
    requires FirstUncreatable(a, keep) == |a|
    ensures FirstUncreatable(a + b, keep) == |a| + FirstUncreatable(b, keep)
    decreases |a|
  {
    if a == [] {
      assert a + b == b;
    } else {
      assert (a + b)[1..] == a[1..] + b;
      assert (a + b)[0] == a[0];
      FirstUncreatableAppend(a[1..], b, keep);
    }
  }

  /** A failure within a prefix is the first failure of the whole list. */
  lemma {:induction false} FirstUncreatableOfPrefix(all: seq<string>, p: seq<string>, keep: string -> bool)
    requires IsPrefix(p, all) && FirstUncreatable(p, keep) < |p|
    ensures FirstUncreatable(all, keep) == FirstUncreatable(p, keep)
    ensures all[..FirstUncreatable(all, keep)] == p[..FirstUncreatable(p, keep)]
    decreases |p|
  {
    assert all[0] == p[0];
    if keep(p[0]) {
      assert all[1..][..|p| - 1] == p[1..];
      FirstUncreatableOfPrefix(all[1..], p[1..], keep);
      assert all[..FirstUncreatable(all, keep)] == [all[0]] + all[1..][..FirstUncreatable(all[1..], keep)];
      assert p[..FirstUncreatable(p, keep)] == [p[0]] + p[1..][..FirstUncreatable(p[1..], keep)];
    }
  }

  lemma {:induction false} LayerFieldsPrefix(layers: seq<seq<string>>, l: nat, exclude: seq<string>)
    requires l <= |layers|
    ensures IsPrefix(LayerFields(layers[..l], exclude), LayerFields(layers, exclude))
  {
    assert layers[..l] + layers[l..] == layers;
    FlatMapAppend(layers[..l], layers[l..], fs => RelevantFields(fs, exclude));
    var a := LayerFields(layers[..l], exclude);
    assert (a + LayerFields(layers[l..], exclude))[..|a|] == a;
  }

  /** The inner loop of the intended `rasterize_geopackage`: a field whose raster cannot be
      created is skipped. */
  method RasterizeFields(fields: seq<string>, outputTif: string, ts: Option<string>, canCreate: string -> bool)
    returns (written: seq<Output>)
    ensures written == Outputs(Filter(fields, FieldCreatable(outputTif, canCreate)), outputTif, ts)
  {
    ghost var keep := FieldCreatable(outputTif, canCreate);
    written := [];
    var n := 0;
    while n < |fields|
      invariant 0 <= n <= |fields|
      invariant written == Outputs(Filter(fields[..n], keep), outputTif, ts)
    {
      var field := fields[n];
      var path := FieldOutputPath(outputTif, field);
      FilterOutputsStep(fields, n, keep, outputTif, ts);
      if canCreate(path) {
        written := written + [FieldOutput(outputTif, field, ts)];
      }
      n := n + 1;
    }
    assert fields[..n] == fields;
  }

  lemma {:induction false} FilterOutputsStep(fields: seq<string>, n: nat, keep: string -> bool, outputTif: string, ts: Option<string>)
    requires n < |fields|
    ensures Outputs(Filter(fields[..n + 1], keep), outputTif, ts) ==
      Outputs(Filter(fields[..n], keep), outputTif, ts) + (if keep(fields[n]) then [FieldOutput(outputTif, fields[n], ts)] else [])
  {
    PrefixSnoc([], fields, n);
    assert [] + fields[..n] == fields[..n];
    assert [] + fields[..n + 1] == fields[..n + 1];
    FilterSnocOutputs(fields[..n], fields[n], keep, outputTif, ts);
  }

  /** The intended `rasterize_geopackage`: a field whose raster cannot be created is skipped,
      as the `None` test after the call means to do, and the other fields are still written. */
  method RasterizeGeopackage(gpkgOpens: bool, layers: seq<seq<string>>, exclude: seq<string>,
                             outputTif: string, current: seq<string>, parent: seq<string>,
                             canCreate: string -> bool)
    returns (written: seq<Output>)
    ensures written == if !gpkgOpens then [] else
      Outputs(Filter(LayerFields(layers, exclude), FieldCreatable(outputTif, canCreate)),
              outputTif, ExtractTimestampXml(current, parent))
  {
    written := [];
    if !gpkgOpens {
      return;
    }
    var ts := ExtractTimestampXml(current, parent);
    ghost var keep := FieldCreatable(outputTif, canCreate);
    var l := 0;
    while l < |layers|
      invariant 0 <= l <= |layers|
      invariant written == Outputs(Filter(LayerFields(layers[..l], exclude), keep), outputTif, ts)
    {
      var fields := RelevantFields(layers[l], exclude);
      var more := RasterizeFields(fields, outputTif, ts, canCreate);
      FilterAppend(LayerFields(layers[..l], exclude), fields, keep);
      OutputsAppend(Filter(LayerFields(layers[..l], exclude), keep), Filter(fields, keep), outputTif, ts);
      written := written + more;
      LayerFieldsSnoc(layers, l, exclude);
      l := l + 1;
    }
    assert layers[..|layers|] == layers;
  }

  lemma {:induction false} FilterSnocOutputs(seen: seq<string>, field: string, keep: string -> bool, outputTif: string, ts: Option<string>)
    ensures Outputs(Filter(seen + [field], keep), outputTif, ts) ==
      Outputs(Filter(seen, keep), outputTif, ts) + (if keep(field) then [FieldOutput(outputTif, field, ts)] else [])
  {
    FilterAppend(seen, [field], keep);
    assert Filter([field], keep) == if keep(field) then [field] else [];
    var a := Filter(seen, keep);
    if keep(field) {
      assert (a + [field])[..|a|] == a;
    } else {
      assert a + [] == a;
    }
  }

  /** A single field whose raster cannot be created: the code as written stops with a
      TypeError, where the intended version writes nothing for it and carries on. */
  lemma {:induction false} UncreatableFieldRaises()
    ensures FirstUncreatable(["PC_30"], f => false) == 0
    ensures Filter(["PC_30"], (f: string) => false) == []
  {
  }

  // ----- find_patch_files -----

  function PatchPair(root: string): (string, string) {
    (PyPath.Join(root, "patches.tif"), PyPath.Join(root, "patches.gpkg"))
  }

  predicate HasPatches(e: PyPath.WalkEntry) { "patches.tif" in e.files && "patches.gpkg" in e.files }

  /** The patch map after walking `walk`. */
  function PatchFiles(walk: seq<PyPath.WalkEntry>): Dict<string, (string, string)>
    decreases |walk|
  {
    if walk == [] then []
    else
      var d := PatchFiles(walk[..|walk| - 1]);
      var e := walk[|walk| - 1];
      if HasPatches(e) then Put(d, e.root, PatchPair(e.root)) else d
  }

  /** `find_patch_files`. */
  method FindPatchFiles(walk: seq<PyPath.WalkEntry>) returns (patchFiles: Dict<string, (string, string)>)
    ensures patchFiles == PatchFiles(walk)
  {
    patchFiles := [];
    var w := 0;
    while w < |walk|
      invariant 0 <= w <= |walk|
      invariant patchFiles == PatchFiles(walk[..w])
    {
      var root, files := walk[w].root, walk[w].files;
      var tifPath: Option<string> := if "patches.tif" in files then Some(PyPath.Join(root, "patches.tif")) else None;
      var gpkgPath: Option<string> := if "patches.gpkg" in files then Some(PyPath.Join(root, "patches.gpkg")) else None;
      assert walk[..w + 1][..w] == walk[..w];
      if tifPath.Some? && gpkgPath.Some? {
        patchFiles := Put(patchFiles, root, (tifPath.value, gpkgPath.value));
      }
      w := w + 1;
    }
    assert walk[..|walk|] == walk;
  }

  /** A directory is mapped exactly when some walked directory of that name holds both
      `patches.tif` and `patches.gpkg`, and it is mapped to those two paths. */
  lemma {:induction false} PatchFilesGet(walk: seq<PyPath.WalkEntry>, root: string)
    ensures Get(PatchFiles(walk), root).Some? <==> exists e :: e in walk && e.root == root && HasPatches(e)
    ensures Get(PatchFiles(walk), root).Some? ==> Get(PatchFiles(walk), root).value == PatchPair(root)
    decreases |walk|
  {
    if walk != [] {
      var pre, e := walk[..|walk| - 1], walk[|walk| - 1];
      PatchFilesGet(pre, root);
      if HasPatches(e) {
        PutGet(PatchFiles(pre), e.root, PatchPair(e.root), root);
      }
      assert walk == pre + [e];
      assert forall x :: x in walk <==> x in pre || x == e;
    }
  }

  // ----- find_corridor_files -----

  predicate IsCorridorTif(f: string) { EndsWith(f, ".tif") && Contains(Lower(f), "corridor") }

  function ListOrEmpty(v: Option<seq<string>>): seq<string> {
    match v case None => [] case Some(l) => l
  }

  /** The corridor map after the files of one directory. */
  function AddCorridors(d: Dict<string, seq<string>>, root: string, files: seq<string>): Dict<string, seq<string>>
    decreases |files|
  {
    if files == [] then d
    else
      var d1 := AddCorridors(d, root, files[..|files| - 1]);
      var f := files[|files| - 1];
      if IsCorridorTif(f) then Put(d1, root, ListOrEmpty(Get(d1, root)) + [PyPath.Join(root, f)]) else d1
  }

  /** The corridor map after walking `walk`. */
  function CorridorFiles(walk: seq<PyPath.WalkEntry>): Dict<string, seq<string>>
    decreases |walk|
  {
    if walk == [] then []
    else
      var e := walk[|walk| - 1];
      AddCorridors(CorridorFiles(walk[..|walk| - 1]), e.root, e.files)
  }

  /** The inner loop of `find_corridor_files`: the files of one directory. */
  method AddFolderCorridors(d: Dict<string, seq<string>>, root: string, files: seq<string>)
    returns (corridorFiles: Dict<string, seq<string>>)
    ensures corridorFiles == AddCorridors(d, root, files)
  {
    corridorFiles := d;
    var n := 0;
    while n < |files|
      invariant 0 <= n <= |files|
      invariant corridorFiles == AddCorridors(d, root, files[..n])
    {
      var file := files[n];
      AddCorridorsStep(d, root, files, n);
      if IsCorridorTif(file) {
        var filePath := PyPath.Join(root, file);
        AppendToEntry(corridorFiles, root, filePath);
        if root !in Keys(corridorFiles) {
          corridorFiles := Put(corridorFiles, root, []);
        }
        corridorFiles := Put(corridorFiles, root, Get(corridorFiles, root).value + [filePath]);
      }
      n := n + 1;
    }
    assert files[..|files|] == files;
  }

  /** `find_corridor_files`. */
  method FindCorridorFiles(walk: seq<PyPath.WalkEntry>) returns (corridorFiles: Dict<string, seq<string>>)
    ensures corridorFiles == CorridorFiles(walk)
  {
    corridorFiles := [];
    var w := 0;
    while w < |walk|
      invariant 0 <= w <= |walk|
      invariant corridorFiles == CorridorFiles(walk[..w])
    {
      corridorFiles := AddFolderCorridors(corridorFiles, walk[w].root, walk[w].files);
      assert walk[..w + 1][..w] == walk[..w];
      w := w + 1;
    }
    assert walk[..|walk|] == walk;
  }

  lemma {:induction false} AddCorridorsStep(d: Dict<string, seq<string>>, root: string, files: seq<string>, n: nat)
    requires n < |files|
    ensures var d1 := AddCorridors(d, root, files[..n]);
      AddCorridors(d, root, files[..n + 1]) ==
        if IsCorridorTif(files[n]) then Put(d1, root, ListOrEmpty(Get(d1, root)) + [PyPath.Join(root, files[n])]) else d1
  {
    assert files[..n + 1][..n] == files[..n];
  }

  /** `corridor_files[root] = []` when the key is new, then `corridor_files[root].append(path)`. */
  lemma {:induction false} AppendToEntry(d: Dict<string, seq<string>>, root: string, path: string)
    ensures var d2 := if root !in Keys(d) then Put(d, root, []) else d;
      Get(d2, root).Some? && Put(d2, root, Get(d2, root).value + [path]) == Put(d, root, ListOrEmpty(Get(d, root)) + [path])
  {
    PutGet(d, root, [], root);
    PutPut(d, root, [], [] + [path]);
  }

  /** The corridor rasters of one directory, in listing order. */
  function CorridorPaths(root: string, files: seq<string>): seq<string>
    decreases |files|
  {
    if files == [] then []
    else
      var f := files[|files| - 1];
      CorridorPaths(root, files[..|files| - 1]) + (if IsCorridorTif(f) then [PyPath.Join(root, f)] else [])
  }

  /** One item per walked directory that has corridor rasters, in walk order. */
  function Grouped(walk: seq<PyPath.WalkEntry>): Dict<string, seq<string>>
    decreases |walk|
  {
    if walk == [] then []
    else
      var e := walk[|walk| - 1];
      var paths := CorridorPaths(e.root, e.files);
      Grouped(walk[..|walk| - 1]) + (if paths == [] then [] else [(e.root, paths)])
  }

  function Roots(walk: seq<PyPath.WalkEntry>): (rs: seq<string>)
    ensures |rs| == |walk| && forall k :: 0 <= k < |walk| ==> rs[k] == walk[k].root
  {
    seq(|walk|, k requires 0 <= k < |walk| => walk[k].root)
  }

  /** The files of a directory not yet in the map add one item at the end. */
  lemma {:induction false} AddCorridorsNew(d: Dict<string, seq<string>>, root: string, files: seq<string>)
    requires root !in Keys(d)
    ensures AddCorridors(d, root, files) ==
      d + (if CorridorPaths(root, files) == [] then [] else [(root, CorridorPaths(root, files))])
    decreases |files|
  {
    if files != [] {
      var pre, f := files[..|files| - 1], files[|files| - 1];
      AddCorridorsNew(d, root, pre);
      var p := CorridorPaths(root, pre);
      var d1 := AddCorridors(d, root, pre);
      if IsCorridorTif(f) {
        var path := PyPath.Join(root, f);
        assert AddCorridors(d, root, files) == Put(d1, root, ListOrEmpty(Get(d1, root)) + [path]);
        assert CorridorPaths(root, files) == p + [path];
        if p == [] {
          assert d1 == d;
          assert Get(d, root) == None;
          PutNew(d, root, [] + [path]);
        } else {
          assert d1 == d + [(root, p)];
          GetLast(d, root, p);
          PutLast(d, root, p, p + [path]);
        }
      } else {
        assert AddCorridors(d, root, files) == d1;
        assert CorridorPaths(root, files) == p;
      }
    }
  }

  lemma {:induction false} GroupedKeys(walk: seq<PyPath.WalkEntry>)
    ensures forall k :: k in Keys(Grouped(walk)) ==> k in Roots(walk)
    decreases |walk|
  {
    if walk != [] {
      var pre, e := walk[..|walk| - 1], walk[|walk| - 1];
      GroupedKeys(pre);
      var paths := CorridorPaths(e.root, e.files);
      var g := Grouped(pre) + (if paths == [] then [] else [(e.root, paths)]);
      forall k | k in Keys(g) ensures k in Roots(walk) {
        var i :| 0 <= i < |g| && Keys(g)[i] == k;
        if i < |Grouped(pre)| {
          assert g[i] == Grouped(pre)[i];
          assert Keys(Grouped(pre))[i] == k;
          assert k in Keys(Grouped(pre));
          var j :| 0 <= j < |pre| && Roots(pre)[j] == k;
          assert Roots(walk)[j] == k;
        } else {
          assert k == e.root == Roots(walk)[|walk| - 1];
        }
      }
    }
  }

  /** Over a walk whose directories are all different, as `os.walk` yields them, the corridor
      map has one item per directory with corridor rasters, in walk order, holding that
      directory's corridor rasters in listing order; other directories are absent. */
  lemma {:induction false} CorridorFilesGrouped(walk: seq<PyPath.WalkEntry>)
    requires Distinct(Roots(walk))
    ensures CorridorFiles(walk) == Grouped(walk)
    decreases |walk|
  {
    if walk != [] {
      var pre, e := walk[..|walk| - 1], walk[|walk| - 1];
      assert Roots(pre) == Roots(walk)[..|walk| - 1];
      CorridorFilesGrouped(pre);
      GroupedKeys(pre);
      assert e.root !in Roots(pre);
      AddCorridorsNew(Grouped(pre), e.root, e.files);
    }
  }

  // ----- assign_metadata_corridors -----

  /** The index of a corridor raster: the last `_` component of its base name without the
      extension, when that name has at least three components. */
  function CorridorIndex(tifPath: string): (r: Option<string>)
    ensures r.Some? ==> '_' !in r.value && EndsWith(Stem(tifPath), "_" + r.value)
  {
    IndexOfStem(Stem(tifPath))
  }

  /** The last `_` component of a stem made of at least three components. */
  function IndexOfStem(stem: string): (r: Option<string>)
    ensures r.Some? ==> '_' !in r.value && EndsWith(stem, "_" + r.value)
    ensures r.Some? <==> |Split(stem, "_")| >= 3
  {
    var parts := Split(stem, "_");
    if |parts| >= 3 then
      LastPieceChar(stem, '_');
      Some(parts[|parts| - 1])
    else None
  }

  /** The base name of a path without its extension. */
  function Stem(p: string): string {
    PyPath.SplitExt(PyPath.Basename(p)).0
  }


  /** `tif_path.replace(".tif", "_tmp.tif")`: where the updated copy is written first. */
  function TmpPath(tifPath: string): string {
    Replace(tifPath, ".tif", "_tmp.tif")
  }

  /** For a path whose only `.` starts its final `.tif`, the copy is written next to it. */
  lemma {:induction false} TmpPathNextToFile(stem: string)
    requires '.' !in stem
    ensures TmpPath(stem + ".tif") == stem + "_tmp.tif"
  {
    ReplaceSuffix(stem, ".tif", "_tmp.tif");
  }


  /** A corridor raster rewritten: its path, the temporary copy and the description. */
  datatype Rewrite = Rewrite(path: string, tmp: string, description: string)

  function AllPaths(corridorFiles: Dict<string, seq<string>>): seq<string>
    decreases |corridorFiles|
  {
    if corridorFiles == [] then []
    else AllPaths(corridorFiles[..|corridorFiles| - 1]) + corridorFiles[|corridorFiles| - 1].1
  }

  /** What `assign_metadata_corridors` does with one corridor raster: nothing when its name has
      no index or GDAL cannot open it, otherwise a rewrite through the temporary file. */
  function RewriteOf(p: string, timestampOf: string -> Option<string>, opens: string -> bool): seq<Rewrite> {
    match CorridorIndex(p)
    case None => []
    case Some(idx) => if opens(p) then [Rewrite(p, TmpPath(p), Description(idx, timestampOf(p)))] else []
  }

  function Rewrites(paths: seq<string>, timestampOf: string -> Option<string>, opens: string -> bool): seq<Rewrite> {
    FlatMap(paths, p => RewriteOf(p, timestampOf, opens))
  }

  lemma {:induction false} RewritesAppend(a: seq<string>, b: seq<string>, timestampOf: string -> Option<string>, opens: string -> bool)
    ensures Rewrites(a + b, timestampOf, opens) == Rewrites(a, timestampOf, opens) + Rewrites(b, timestampOf, opens)
  {
    FlatMapAppend(a, b, p => RewriteOf(p, timestampOf, opens));
  }

  lemma {:induction false} AllPathsStep(corridorFiles: Dict<string, seq<string>>, i: nat)
    requires i < |corridorFiles|
    ensures AllPaths(corridorFiles[..i + 1]) == AllPaths(corridorFiles[..i]) + corridorFiles[i].1
  {
    assert corridorFiles[..i + 1][..i] == corridorFiles[..i];
  }

  /** `extract_timestamp_xml(tif_path)`, where `listingOf` gives what `os.listdir` lists for a
      directory: the raster's own directory first, then its parent. */
  function TimestampOfPath(tifPath: string, listingOf: string -> seq<string>): Option<string> {
    var dir := PyPath.Dirname(tifPath);
    ExtractTimestampXml(listingOf(dir), listingOf(PyPath.Dirname(dir)))
  }

  function TimestampsOf(listingOf: string -> seq<string>): string -> Option<string> {
    p => TimestampOfPath(p, listingOf)
  }

  /** The description a corridor raster is rewritten with carries the year of the first XML
      candidate next to it, or of its parent directory when there is none. */
  lemma {:induction false} RewriteTimestamp(p: string, listingOf: string -> seq<string>, opens: string -> bool)
    requires CorridorIndex(p).Some? && opens(p)
    ensures RewriteOf(p, TimestampsOf(listingOf), opens)
      == [Rewrite(p, TmpPath(p), Description(CorridorIndex(p).value,
                  ExtractTimestampXml(listingOf(PyPath.Dirname(p)), listingOf(PyPath.Dirname(PyPath.Dirname(p))))))]
  {
    RewriteOfCases(p, TimestampsOf(listingOf), opens);
  }

  /** The inner loop of `assign_metadata_corridors`: the rasters of one folder, in order. */
  method RewriteFolder(tifPaths: seq<string>, listingOf: string -> seq<string>, opens: string -> bool)
    returns (rewritten: seq<Rewrite>)
    ensures rewritten == Rewrites(tifPaths, TimestampsOf(listingOf), opens)
  {
    ghost var timestampOf := TimestampsOf(listingOf);
    rewritten := [];
    var n := 0;
    while n < |tifPaths|
      invariant 0 <= n <= |tifPaths|
      invariant rewritten == Rewrites(tifPaths[..n], timestampOf, opens)
    {
      var tifPath := tifPaths[n];
      RewritesStep(tifPaths, n, timestampOf, opens);
      RewriteOfCases(tifPath, timestampOf, opens);
      var timestamp := ExtractTimestampXml(listingOf(PyPath.Dirname(tifPath)),
                                           listingOf(PyPath.Dirname(PyPath.Dirname(tifPath))));
      var indexName := CorridorIndex(tifPath);
      if indexName.None? {
        n := n + 1;
        continue;
      }
      var description := Description(indexName.value, timestamp);
      if !opens(tifPath) {
        n := n + 1;
        continue;
      }
      rewritten := rewritten + [Rewrite(tifPath, TmpPath(tifPath), description)];
      n := n + 1;
    }
    assert tifPaths[..|tifPaths|] == tifPaths;
  }

  lemma {:induction false} RewriteOfCases(p: string, timestampOf: string -> Option<string>, opens: string -> bool)
    ensures var r := RewriteOf(p, timestampOf, opens); var idx := CorridorIndex(p);
      if idx.None? || !opens(p) then r == [] else r == [Rewrite(p, TmpPath(p), Description(idx.value, timestampOf(p)))]
  {
  }

  /** Steps of the inner loop of `assign_metadata_corridors`, one raster at a time. */
  lemma {:induction false} RewritesStep(paths: seq<string>, n: nat, timestampOf: string -> Option<string>, opens: string -> bool)
    requires n < |paths|
    ensures Rewrites(paths[..n + 1], timestampOf, opens) == Rewrites(paths[..n], timestampOf, opens) + RewriteOf(paths[n], timestampOf, opens)
  {
    FlatMapStep(paths, n, p => RewriteOf(p, timestampOf, opens));
  }

  /** `assign_metadata_corridors` over the corridor map, with the directory
      listings `extract_timestamp_xml` reads for each path and whether GDAL opens it. */
  method AssignMetadataCorridors(corridorFiles: Dict<string, seq<string>>,
                                 listingOf: string -> seq<string>, opens: string -> bool)
    returns (rewritten: seq<Rewrite>)
    ensures rewritten == Rewrites(AllPaths(corridorFiles), TimestampsOf(listingOf), opens)
  {
    rewritten := [];
    if corridorFiles == [] {
      return;
    }
    var i := 0;
    while i < |corridorFiles|
      invariant 0 <= i <= |corridorFiles|
      invariant rewritten == Rewrites(AllPaths(corridorFiles[..i]), TimestampsOf(listingOf), opens)
    {
      var more := RewriteFolder(corridorFiles[i].1, listingOf, opens);
      AllPathsStep(corridorFiles, i);
      RewritesAppend(AllPaths(corridorFiles[..i]), corridorFiles[i].1, TimestampsOf(listingOf), opens);
      rewritten := rewritten + more;
      i := i + 1;
    }
    assert corridorFiles[..|corridorFiles|] == corridorFiles;
  }
}
