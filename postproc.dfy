/** The metadata side of the post-processing step: the case study, habitat, year and metric read
    off a file name, the `INDEX:...; TIMESTAMP:...` description parser used when computing
    statistics, and the choice of the files the post-processing walk works on. */
module PostProc {
  import opened Wrappers
  import opened PyStr
  import PyPath
  import opened PyDatetime
  import opened Seqs

  // ----- metadata from the file name -----

  /** External case-study names and the internal case study each one stands for, in the
      order they are tried. Keys and values are written lowercased, as the source compares
      `key.lower()` and records `value.lower()`. */
  const CaseStudyMap: seq<(string, string)> :=
    [("_30_", "cat_aggr_buf_30m"), ("_390_", "cat_aggr_buf_390m_test"),
     ("high", "cat_aggr_buf_30m"), ("low", "cat_aggr_buf_390m_test")]

  /** Keys whose visit marks the file as an output of the machine-learning model. */
  const MlOutputKeys: seq<string> := ["high", "low", "output"]

  /** External habitat names (`Aquatics`, `Boscos`, `Herbacis`, `Llenyosos`, `PratsMatollars`,
      lowercased) and the internal habitat each one stands for. */
  const HabitatMap: seq<(string, string)> :=
    [("aquatics", "aquatic"), ("boscos", "forest"), ("herbacis", "herbaceous"),
     ("llenyosos", "woody"), ("pratsmatollars", "shrubland")]

  const Metric: string := "ICT"

  /** The name the metadata is read from: the base name, lowercased and stripped. */
  function NormalisedName(inputFile: string): string {
    Strip(Lower(PyPath.Basename(inputFile)))
  }

  /** Index of the first table entry whose lowercased key occurs in `name`. */
  function FirstMatch(name: string, table: seq<(string, string)>): (r: Option<nat>)
    ensures r.Some? ==> r.value < |table| && Contains(name, table[r.value].0)
    ensures forall j :: 0 <= j < |table| && (r.None? || j < r.value) ==> !Contains(name, table[j].0)
    decreases |table|
  {
    if table == [] then None
    else if Contains(name, table[0].0) then Some(0)
    else
      match FirstMatch(name, table[1..])
      case None => None
      case Some(k) => Some(k + 1)
  }

  /** The case study: the value of the first key found in the name. */
  function CaseStudyOf(name: string): Option<string> {
    match FirstMatch(name, CaseStudyMap)
    case None => None
    case Some(i) => Some(CaseStudyMap[i].1)
  }

  /** The case-study loop visits an entry whose key is one of `MlOutputKeys`. */
  predicate ReachesMlKey(name: string) {
    var stop := FirstMatch(name, CaseStudyMap);
    exists j :: 0 <= j < |CaseStudyMap| && (stop.None? || j <= stop.value)
      && CaseStudyMap[j].0 in MlOutputKeys
  }

  /** The habitat after the case-study loop. */
  function MlStart(name: string): Option<string> {
    if ReachesMlKey(name) then Some("ml_output") else None
  }

  /** The habitat loop from a habitat `start`: the value of the first habitat key found in
      the name, appended to `start` when there is one. */
  function HabitatFrom(name: string, start: Option<string>): Option<string> {
    match FirstMatch(name, HabitatMap)
    case None => start
    case Some(i) =>
      var v := HabitatMap[i].1;
      if start.Some? then Some(start.value + "_" + v) else Some(v)
  }

  /** The habitat: `ml_output` when the case-study loop got as far as an ML key, then
      completed by the value of the first habitat key found in the name. */
  function HabitatOf(name: string): Option<string> {
    HabitatFrom(name, MlStart(name))
  }

  /** `re.fullmatch(r'\d{4}', part)` and `1800 <= int(part) <= 2050`. */
  predicate IsYearPart(part: string) {
    |part| == 4 && AllDigits(part) && 1800 <= DigitsValue(part) <= 2050
  }

  /** The first part that is a plausible year. */
  function FirstYear(parts: seq<string>): (r: Option<nat>)
    ensures r.Some? ==> r.value < |parts| && IsYearPart(parts[r.value])
    ensures forall j :: 0 <= j < |parts| && (r.None? || j < r.value) ==> !IsYearPart(parts[j])
    decreases |parts|
  {
    if parts == [] then None
    else if IsYearPart(parts[0]) then Some(0)
    else
      match FirstYear(parts[1..])
      case None => None
      case Some(k) => Some(k + 1)
  }

  function YearOf(name: string): Option<string> {
    var parts := Split(name, "_");
    match FirstYear(parts)
    case None => None
    case Some(k) => Some(parts[k])
  }

  /** `extract_metadata_filename`: case study, habitat, year and metric of a file path. */
  method ExtractMetadataFilename(inputFile: string)
    returns (caseStudy: Option<string>, habitat: Option<string>, year: Option<string>, metric: string)
    ensures caseStudy == CaseStudyOf(NormalisedName(inputFile))
    ensures habitat == HabitatOf(NormalisedName(inputFile))
    ensures year == YearOf(NormalisedName(inputFile))
    ensures metric == Metric
  {
    var filename := Strip(Lower(PyPath.Basename(inputFile)));
    caseStudy, habitat := CaseStudyLoop(filename);
    habitat := HabitatLoop(filename, habitat);
    year := YearLoop(filename);
    metric := Metric;
  }

  /** The case-study loop: stops at the first key found; on the way, a visited ML key sets
      the habitat to `ml_output`. */
  method CaseStudyLoop(filename: string) returns (caseStudy: Option<string>, habitat: Option<string>)
    ensures caseStudy == CaseStudyOf(filename)
    ensures habitat == MlStart(filename)
  {
    caseStudy, habitat := None, None;
    var i := 0;
    while i < |CaseStudyMap|
      invariant 0 <= i <= |CaseStudyMap|
      invariant caseStudy == None
      invariant forall j :: 0 <= j < i ==> !Contains(filename, CaseStudyMap[j].0)
      invariant habitat == if exists j :: 0 <= j < i && CaseStudyMap[j].0 in MlOutputKeys
                           then Some("ml_output") else None
    {
      var (key, value) := CaseStudyMap[i];
      if key in MlOutputKeys {
        habitat := Some("ml_output");
      }
      if Contains(filename, key) {
        caseStudy := Some(value);
        break;
      }
      i := i + 1;
    }
  }

  /** The habitat loop: the first habitat key found sets or extends the habitat. */
  method HabitatLoop(filename: string, start: Option<string>) returns (habitat: Option<string>)
    ensures habitat == HabitatFrom(filename, start)
  {
    habitat := start;
    var h := 0;
    while h < |HabitatMap|
      invariant 0 <= h <= |HabitatMap|
      invariant forall j :: 0 <= j < h ==> !Contains(filename, HabitatMap[j].0)
      invariant habitat == start
    {
      var (key, value) := HabitatMap[h];
      if Contains(filename, key) {
        if habitat.Some? {
          habitat := Some(habitat.value + "_" + value);
        } else {
          habitat := Some(value);
        }
        break;
      }
      h := h + 1;
    }
  }

  /** The year loop: the first `_`-separated part that is a plausible year. */
  method YearLoop(filename: string) returns (year: Option<string>)
    ensures year == YearOf(filename)
  {
    year := None;
    var parts := Split(filename, "_");
    var k := 0;
    while k < |parts|
      invariant 0 <= k <= |parts|
      invariant year == None
      invariant forall j :: 0 <= j < k ==> !IsYearPart(parts[j])
    {
      if |parts[k]| == 4 && AllDigits(parts[k]) {
        if 1800 <= DigitsValue(parts[k]) <= 2050 {
          year := Some(parts[k]);
          break;
        }
      }
      k := k + 1;
    }
  }

  /** The case study as a cascade of tests in key order. */
  lemma {:induction false} CaseStudyCascade(name: string)
    ensures CaseStudyOf(name) ==
      if Contains(name, "_30_") then Some("cat_aggr_buf_30m")
      else if Contains(name, "_390_") then Some("cat_aggr_buf_390m_test")
      else if Contains(name, "high") then Some("cat_aggr_buf_30m")
      else if Contains(name, "low") then Some("cat_aggr_buf_390m_test")
      else None
  {
    var r := FirstMatch(name, CaseStudyMap);
    assert CaseStudyMap[0].0 == "_30_" && CaseStudyMap[1].0 == "_390_";
    assert CaseStudyMap[2].0 == "high" && CaseStudyMap[3].0 == "low";
  }

  /** The habitat starts as `ml_output` exactly when neither `_30_` nor `_390_` is in the name. */
  lemma {:induction false} MlOutputIff(name: string)
    ensures ReachesMlKey(name) <==> !Contains(name, "_30_") && !Contains(name, "_390_")
  {
    var stop := FirstMatch(name, CaseStudyMap);
    assert CaseStudyMap[0].0 == "_30_" && CaseStudyMap[1].0 == "_390_" && CaseStudyMap[2].0 == "high";
    assert "_30_" !in MlOutputKeys && "_390_" !in MlOutputKeys && "high" in MlOutputKeys;
    if !Contains(name, "_30_") && !Contains(name, "_390_") {
      assert stop.None? || 2 <= stop.value;
      assert CaseStudyMap[2].0 in MlOutputKeys;
    } else {
      assert stop.Some? && stop.value <= 1;
      forall j | 0 <= j <= stop.value ensures CaseStudyMap[j].0 !in MlOutputKeys {
      }
    }
  }

  /** Exactly one habitat key contributes, the first one found, and nothing else is added. */
  lemma {:induction false} HabitatCascade(name: string)
    ensures HabitatOf(name) ==
      var start := if !Contains(name, "_30_") && !Contains(name, "_390_") then "ml_output_" else "";
      if Contains(name, "aquatics") then Some(start + "aquatic")
      else if Contains(name, "boscos") then Some(start + "forest")
      else if Contains(name, "herbacis") then Some(start + "herbaceous")
      else if Contains(name, "llenyosos") then Some(start + "woody")
      else if Contains(name, "pratsmatollars") then Some(start + "shrubland")
      else if start != "" then Some("ml_output") else None
  {
    MlOutputIff(name);
    var start := if !Contains(name, "_30_") && !Contains(name, "_390_") then "ml_output_" else "";
    HabitatKeyCascade(name);
    match FirstMatch(name, HabitatMap)
    case None =>
    case Some(i) =>
      var v := HabitatMap[i].1;
      PrefixedValue(start, v);
  }

  lemma {:induction false} PrefixedValue(start: string, v: string)
    requires start == "ml_output_" || start == ""
    ensures start + v == if start == "" then v else "ml_output" + "_" + v
  {
    if start != "" {
      assert "ml_output" + "_" == "ml_output_";
    }
  }

  /** The first habitat key found, as a cascade of tests in key order. */
  lemma {:induction false} HabitatKeyCascade(name: string)
    ensures var m := FirstMatch(name, HabitatMap);
      if Contains(name, "aquatics") then m == Some(0)
      else if Contains(name, "boscos") then m == Some(1)
      else if Contains(name, "herbacis") then m == Some(2)
      else if Contains(name, "llenyosos") then m == Some(3)
      else if Contains(name, "pratsmatollars") then m == Some(4)
      else m == None
  {
    assert HabitatMap[0].0 == "aquatics" && HabitatMap[1].0 == "boscos";
    assert HabitatMap[2].0 == "herbacis" && HabitatMap[3].0 == "llenyosos";
    assert HabitatMap[4].0 == "pratsmatollars";
  }

  /** A year found in the name is one of its `_`-separated parts, four digits between 1800
      and 2050, and no earlier part is such a year. */
  lemma {:induction false} YearIsFirstPlausiblePart(name: string)
    ensures YearOf(name).Some? ==>
      exists k :: 0 <= k < |Split(name, "_")| && YearOf(name).value == Split(name, "_")[k]
        && IsYearPart(Split(name, "_")[k])
        && forall j :: 0 <= j < k ==> !IsYearPart(Split(name, "_")[j])
    ensures YearOf(name).None? ==> forall j :: 0 <= j < |Split(name, "_")| ==> !IsYearPart(Split(name, "_")[j])
  {
    var parts := Split(name, "_");
    match FirstYear(parts)
    case None =>
    case Some(k) =>
      assert YearOf(name).value == parts[k];
  }

  // ----- the statistics metadata -----

  /** The year column of the statistics: the timestamp's year, the text taken from the file
      name, or nothing. */
  datatype Year = YearNumber(n: nat) | YearText(s: string) | NoYear

  datatype StatsKeys = StatsKeys(caseStudy: Option<string>, habitat: Option<string>, metric: string, year: Year)

  /** The description parser of `create_stats`: the metric is the text between the first and
      the second `:` of the part before the first `"; "`, the year that of the timestamp after
      the first `:` of the second part. */
  function ParseDescription(d: string): (r: Result<(string, nat)>)
    ensures r.Ok? ==> Contains(d, "; ") && !Contains(r.value.0, ":") && 1 <= r.value.1 <= 9999
    ensures r.Err? ==> r.exc == IndexError || r.exc.ValueError?
  {
    var parts := Split(d, "; ");
    var p0 := Split(parts[0], ":");
    if |p0| < 2 then Err(IndexError)
    else if |parts| < 2 then Err(IndexError)
    else
      var q := SplitOnce(parts[1], ":");
      if |q| < 2 then Err(IndexError)
      else
        match Strptime(Strip(q[1]))
        case Err(e) => Err(e)
        case Ok(t) =>
          SplitPiecesLackSep(parts[0], ":");
          assert Contains(d, "; ") by {
            if !Contains(d, "; ") { SplitNoSep(d, "; "); }
          }
          Ok((p0[1], t.year))
  }

  /** The tag as `str` prints it: a missing tag reads `"None"`. */
  function TagText(tag: Option<string>): string {
    match tag case None => "None" case Some(t) => t
  }

  /** A missing tag takes the filename fallback. */
  lemma {:induction false} NoneTagIsNone()
    ensures Lower(Strip(TagText(None))) == "none"
  {
    var t := TagText(None);
    assert t == "None";
    StripUnchanged(t);
    assert Lower(t) == "none" by {
      assert |Lower(t)| == 4;
      assert Lower(t)[0] == LowerChar('N') == 'n';
    }
  }

  /** The metadata `create_stats` records, from the raster's description tag (`None` when the
      raster has none), its path, the case study it was called with and the habitat read from
      the accompanying XML file. */
  function StatsMetadata(tag: Option<string>, inputTif: string, caseStudy: string, xmlHabitat: Option<string>)
    : (r: Result<StatsKeys>)
    ensures r.Err? ==> r.exc == IndexError || r.exc.ValueError?
    ensures tag.None? ==> r == Ok(FilenameStatsKeys(inputTif))
    ensures r.Ok? && r.value.year.YearNumber? ==>
      r.value.caseStudy == Some(caseStudy) && r.value.habitat == xmlHabitat && 1 <= r.value.year.n <= 9999
  {
    var description := Strip(TagText(tag));
    NoneTagIsNone();
    if Lower(description) != "none" then
      var parsed := ParseDescription(description);
      if parsed.Err? then Err(parsed.exc)
      else Ok(StatsKeys(Some(caseStudy), xmlHabitat, parsed.value.0, YearNumber(parsed.value.1)))
    else
      Ok(FilenameStatsKeys(inputTif))
  }

  /** The keys `extract_metadata_filename` gives when the raster has no description. */
  function FilenameStatsKeys(inputTif: string): (k: StatsKeys)
    ensures k.metric == Metric && !k.year.YearNumber?
  {
    var name := NormalisedName(inputTif);
    var year := match YearOf(name) case None => NoYear case Some(y) => YearText(y);
    StatsKeys(CaseStudyOf(name), HabitatOf(name), Metric, year)
  }

  // ----- choosing the files -----

  const ExcludedDirs: seq<string> := ["ml", "output"]

  /** A walked directory whose base name mentions an excluded folder; its own files are
      skipped, but the walk still descends into its subdirectories. */
  predicate ExcludedRoot(root: string) {
    exists e :: e in ExcludedDirs && Contains(Lower(PyPath.Basename(root)), e)
  }

  /** A file name the post-processing considers: it mentions a corridor, an output or ICT, is
      a `.tif` and is not a compressed copy. */
  predicate Candidate(file: string) {
    var l := Lower(file);
    (Contains(l, "corridor") || Contains(l, "output") || Contains(l, "ict"))
    && EndsWith(file, ".tif") && !StartsWith(file, "compressed_")
  }

  /** An already cloud-optimised file is skipped unless it is an ICT file. */
  predicate SkippedCog(file: string, cog: bool) {
    cog && !Contains(Lower(file), "ict")
  }

  predicate Processed(root: string, file: string, isCog: string -> bool) {
    !ExcludedRoot(root) && Candidate(file) && !SkippedCog(file, isCog(PyPath.Join(root, file)))
  }

  /** The path of a file that `keep` accepts, or nothing. */
  function KeptPath(root: string, file: string, keep: string -> bool): seq<string> {
    if keep(file) then [PyPath.Join(root, file)] else []
  }

  /** The paths of the files of one directory that `keep` accepts, in listing order. */
  function KeptPaths(root: string, files: seq<string>, keep: string -> bool): seq<string> {
    FlatMap(files, f => KeptPath(root, f, keep))
  }

  /** The paths processed in one directory of the walk. */
  function DirPaths(e: PyPath.WalkEntry, isCog: string -> bool): seq<string> {
    KeptPaths(e.root, e.files, f => Processed(e.root, f, isCog))
  }

  /** The paths the walk processes, in walk order. */
  function ProcessedPaths(walk: seq<PyPath.WalkEntry>, isCog: string -> bool): seq<string> {
    FlatMap(walk, e => DirPaths(e, isCog))
  }

  /** The reference raster: the first `.tif` of the land-use directory listing. */
  function LulcTif(lulcDir: string, listing: seq<string>): (r: Option<string>)
    ensures r.Some? <==> exists f :: f in listing && EndsWith(f, ".tif")
    decreases |listing|
  {
    if listing == [] then None
    else if EndsWith(listing[0], ".tif") then Some(PyPath.Join(lulcDir, listing[0]))
    else LulcTif(lulcDir, listing[1..])
  }

  // ----- the file loop -----

  /** How far the file loop gets over a list of paths: the paths it worked on, in order, and
      the exception that ended it, if one did. */
  datatype Progress = Progress(done: seq<string>, raised: Option<Exc>)

  /** The file loop over `paths` when the work on each path has the given outcome. Nothing in
      the loop catches an exception, so the first failing path is the last one worked on and
      its exception ends the walk. */
  function UntilFailure(paths: seq<string>, outcome: string -> Outcome): (r: Progress)
    ensures r.raised.None? ==> r.done == paths && forall p :: p in paths ==> outcome(p).Pass?
    ensures r.raised.Some? ==>
      0 < |r.done| <= |paths| && r.done == paths[..|r.done|]
      && outcome(r.done[|r.done| - 1]) == Fail(r.raised.value)
      && forall k :: 0 <= k < |r.done| - 1 ==> outcome(r.done[k]).Pass?
    decreases |paths|
  {
    if paths == [] then Progress([], None)
    else if outcome(paths[0]).Fail? then Progress([paths[0]], Some(outcome(paths[0]).exc))
    else
      var rest := UntilFailure(paths[1..], outcome);
      Progress([paths[0]] + rest.done, rest.raised)
  }

  /** Working on `a + b` is working on `a` and then, unless `a` raised, on `b`. */
  lemma {:induction false} UntilFailureAppend(a: seq<string>, b: seq<string>, outcome: string -> Outcome)
    ensures UntilFailure(a + b, outcome) ==
      var ra := UntilFailure(a, outcome);
      if ra.raised.Some? then ra
      else Progress(a + UntilFailure(b, outcome).done, UntilFailure(b, outcome).raised)
    decreases |a|
  {
    if a == [] {
      assert a + b == b;
    } else {
      var ab := a + b;
      assert ab[0] == a[0];
      assert ab[1..] == a[1..] + b;
      if outcome(a[0]).Pass? {
        var rest := UntilFailure(a[1..] + b, outcome);
        assert UntilFailure(ab, outcome) == Progress([a[0]] + rest.done, rest.raised);
        var ra := UntilFailure(a[1..], outcome);
        assert UntilFailure(a, outcome) == Progress([a[0]] + ra.done, ra.raised);
        UntilFailureAppend(a[1..], b, outcome);
        if ra.raised.None? {
          var rb := UntilFailure(b, outcome);
          assert rest.done == a[1..] + rb.done;
          assert [a[0]] + (a[1..] + rb.done) == a + rb.done;
        }
      }
    }
  }

  /** The walk ends at the first path whose work fails, with that path's exception. */
  lemma {:induction false} FailureStopsWalk(paths: seq<string>, outcome: string -> Outcome, k: nat)
    requires k < |paths| && outcome(paths[k]).Fail?
    requires forall j :: 0 <= j < k ==> outcome(paths[j]).Pass?
    ensures UntilFailure(paths, outcome) == Progress(paths[..k + 1], Some(outcome(paths[k]).exc))
    decreases k
  {
    if k > 0 {
      FailureStopsWalk(paths[1..], outcome, k - 1);
      assert [paths[0]] + paths[1..][..k] == paths[..k + 1];
    }
  }

  /** The work `wrapper` does on a selected path once `check_and_clip` (which catches its own
      errors) has run: the nodata mask when the data is internal, then `create_stats`, the plot
      and `translate_tif`, each stopping the file at its exception. */
  function FileWork(intData: bool, mask: Outcome, stats: Result<StatsKeys>, vis: Outcome, translate: Outcome)
    : (r: Outcome)
    ensures r.Pass? <==> (!intData || mask.Pass?) && stats.Ok? && vis.Pass? && translate.Pass?
    ensures intData && mask.Fail? ==> r == mask
    ensures (!intData || mask.Pass?) && stats.Err? ==> r == Fail(stats.exc)
  {
    if intData && mask.Fail? then mask
    else if stats.Err? then Fail(stats.exc)
    else if vis.Fail? then vis
    else translate
  }

  /** A file whose description `create_stats` cannot parse ends the walk: no later path is
      clipped, masked, measured or compressed. */
  lemma {:induction false} StatsErrorEndsWalk(paths: seq<string>, outcome: string -> Outcome, k: nat,
                                              intData: bool, mask: Outcome, tag: Option<string>,
                                              caseStudy: string, xmlHabitat: Option<string>,
                                              vis: Outcome, translate: Outcome)
    requires k < |paths| && forall j :: 0 <= j < k ==> outcome(paths[j]).Pass?
    requires !intData || mask.Pass?
    requires StatsMetadata(tag, paths[k], caseStudy, xmlHabitat).Err?
    requires outcome(paths[k]) == FileWork(intData, mask, StatsMetadata(tag, paths[k], caseStudy, xmlHabitat), vis, translate)
    ensures UntilFailure(paths, outcome)
      == Progress(paths[..k + 1], Some(StatsMetadata(tag, paths[k], caseStudy, xmlHabitat).exc))
  {
    FailureStopsWalk(paths, outcome, k);
  }

  /** The file loop of `wrapper`: the paths that are clipped, masked, measured and compressed,
      in walk order, as far as the loop gets. A COG test is the `is_cog` answer for a path and
      `outcome` the result of the work on it (`FileWork`). Without a reference raster every
      file is skipped; otherwise the walk goes over the selected paths until the work on one
      raises. */
  method SelectFiles(walk: seq<PyPath.WalkEntry>, isCog: string -> bool, lulcTif: Option<string>,
                     outcome: string -> Outcome)
    returns (processed: seq<string>, raised: Option<Exc>)
    ensures Progress(processed, raised)
      == if lulcTif.None? then Progress([], None) else UntilFailure(ProcessedPaths(walk, isCog), outcome)
  {
    ghost var dirs := e => DirPaths(e, isCog);
    processed, raised := [], None;
    var w := 0;
    while w < |walk| && raised.None?
      invariant 0 <= w <= |walk|
      invariant lulcTif.None? ==> processed == [] && raised.None?
      invariant lulcTif.Some? ==> Progress(processed, raised) == UntilFailure(FlatMap(walk[..w], dirs), outcome)
    {
      var root, files := walk[w].root, walk[w].files;
      if lulcTif.Some? {
        WorkStep(walk, w, dirs, outcome);
      }
      if ExcludedRoot(root) {
        NoneKept(root, files, f => Processed(root, f, isCog));
        UntilFailureSingle("", outcome);
        w := w + 1;
        continue;
      }
      var inDir, err := SelectInDir(root, files, isCog, lulcTif.Some?, outcome);
      processed, raised := processed + inDir, err;
      w := w + 1;
    }
    if lulcTif.Some? {
      WorkRest(walk, w, dirs, outcome);
    }
  }

  /** The loop over the files of a directory that is not excluded. */
  method SelectInDir(root: string, files: seq<string>, isCog: string -> bool, haveLulc: bool,
                     outcome: string -> Outcome)
    returns (inDir: seq<string>, raised: Option<Exc>)
    requires !ExcludedRoot(root)
    ensures Progress(inDir, raised)
      == if !haveLulc then Progress([], None)
         else UntilFailure(KeptPaths(root, files, f => Processed(root, f, isCog)), outcome)
  {
    ghost var keep := f => Processed(root, f, isCog);
    ghost var kept := f => KeptPath(root, f, keep);
    inDir, raised := [], None;
    var n := 0;
    while n < |files| && raised.None?
      invariant 0 <= n <= |files|
      invariant !haveLulc ==> inDir == [] && raised.None?
      invariant haveLulc ==> Progress(inDir, raised) == UntilFailure(FlatMap(files[..n], kept), outcome)
    {
      var file := files[n];
      if haveLulc {
        WorkStep(files, n, kept, outcome);
      }
      var fileLower := Lower(file);
      var inputTif := PyPath.Join(root, file);
      UntilFailureSingle(inputTif, outcome);
      assert kept(file) == if Processed(root, file, isCog) then [inputTif] else [];
      if (Contains(fileLower, "corridor") || Contains(fileLower, "output") || Contains(fileLower, "ict"))
        && EndsWith(file, ".tif") && !StartsWith(file, "compressed_")
      {
        if isCog(inputTif) && !Contains(fileLower, "ict") {
          n := n + 1;
          continue;
        }
        if haveLulc {
          inDir := inDir + [inputTif];
          match outcome(inputTif)
          case Fail(e) => raised := Some(e);
          case Pass =>
        }
      }
      n := n + 1;
    }
    if haveLulc {
      WorkRest(files, n, kept, outcome);
    }
  }

  /** Working on no path raises nothing; working on one path raises what its work raises. */
  lemma {:induction false} UntilFailureSingle(p: string, outcome: string -> Outcome)
    ensures UntilFailure([], outcome) == Progress([], None)
    ensures UntilFailure([p], outcome) == Progress([p], if outcome(p).Fail? then Some(outcome(p).exc) else None)
  {
    assert [p][1..] == [];
  }

  /** One more element of a walk, when the walk so far raised nothing. */
  lemma {:induction false} WorkStep<T>(s: seq<T>, n: nat, paths: T -> seq<string>, outcome: string -> Outcome)
    requires n < |s|
    requires UntilFailure(FlatMap(s[..n], paths), outcome).raised.None?
    ensures var d := UntilFailure(paths(s[n]), outcome);
      UntilFailure(FlatMap(s[..n + 1], paths), outcome) == Progress(FlatMap(s[..n], paths) + d.done, d.raised)
  {
    FlatMapStep(s, n, paths);
    UntilFailureAppend(FlatMap(s[..n], paths), paths(s[n]), outcome);
  }

  /** Once the walk has raised, the elements left do not change its outcome. */
  lemma {:induction false} WorkRest<T>(s: seq<T>, n: nat, paths: T -> seq<string>, outcome: string -> Outcome)
    requires n <= |s|
    requires n < |s| ==> UntilFailure(FlatMap(s[..n], paths), outcome).raised.Some?
    ensures UntilFailure(FlatMap(s, paths), outcome) == UntilFailure(FlatMap(s[..n], paths), outcome)
  {
    assert s == s[..n] + s[n..];
    FlatMapAppend(s[..n], s[n..], paths);
    UntilFailureAppend(FlatMap(s[..n], paths), FlatMap(s[n..], paths), outcome);
  }

  lemma {:induction false} NoneKept(root: string, files: seq<string>, keep: string -> bool)
    requires forall f :: !keep(f)
    ensures KeptPaths(root, files, keep) == []
  {
    FlatMapNone(files, f => KeptPath(root, f, keep));
  }

  lemma {:induction false} KeptIff(root: string, files: seq<string>, keep: string -> bool, p: string)
    ensures p in KeptPaths(root, files, keep) <==> exists f :: f in files && keep(f) && p == PyPath.Join(root, f)
  {
    FlatMapIff(files, f => KeptPath(root, f, keep), p);
  }

  /** A path is processed exactly when it is a file of a walked directory that is not
      excluded, the file is a candidate, and it is not a skipped COG. */
  lemma {:induction false} ProcessedIff(walk: seq<PyPath.WalkEntry>, isCog: string -> bool, p: string)
    ensures p in ProcessedPaths(walk, isCog)
      <==> exists e, f :: e in walk && f in e.files && Processed(e.root, f, isCog) && p == PyPath.Join(e.root, f)
  {
    FlatMapIff(walk, e => DirPaths(e, isCog), p);
    forall e | e in walk {
      KeptIff(e.root, e.files, f => Processed(e.root, f, isCog), p);
    }
  }


  /** The per-case-study base directory `data/<case study>/output` is itself excluded, so the
      files lying directly in it are never processed. */
  lemma {:induction false} BaseOutputDirExcluded(caseStudy: string)
    ensures ExcludedRoot("data/" + caseStudy + "/output")
  {
    PyPath.BasenameAfterSlash("data/" + caseStudy, "output");
    assert "data/" + caseStudy + "/output" == ("data/" + caseStudy) + "/" + "output";
    assert Lower("output") == "output";
    assert OccursAt("output", "output", 0);
    ContainsIff("output", "output");
    assert "output" in ExcludedDirs;
  }
}
