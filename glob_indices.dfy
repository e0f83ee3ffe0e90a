/** `glob_indices.py`: the global connectivity indices Graphab writes as `glob_*.txt` tables,
    stamped with their year, merged by key per case study, and combined per habitat. */
module GlobIndices {
  import opened Wrappers
  import opened PyStr
  import opened OrderedDict
  import opened Seqs
  import PyPath

  // ----- tables -----

  /** A table as pandas reads it from a TSV or CSV file: the column names and the rows of
      cells. */
  datatype Frame = Frame(columns: seq<string>, rows: seq<seq<string>>)

  predicate Rectangular(f: Frame) { forall r :: 0 <= r < |f.rows| ==> |f.rows[r]| == |f.columns| }

  /** Every row has one cell per column. */
  type Table = f: Frame | Rectangular(f) witness Frame([], [])

  /** The position of the first column called `name`. */
  function ColumnIndex(cols: seq<string>, name: string): (r: Option<nat>)
    ensures r.None? <==> name !in cols
    ensures r.Some? ==> r.value < |cols| && cols[r.value] == name && forall j :: 0 <= j < r.value ==> cols[j] != name
    decreases |cols|
  {
    if cols == [] then None
    else if cols[0] == name then Some(0)
    else
      assert cols == [cols[0]] + cols[1..];
      match ColumnIndex(cols[1..], name) case None => None case Some(i) => Some(i + 1)
  }

  /** `row[name]`. */
  function Cell(t: Table, r: nat, name: string): string
    requires r < |t.rows| && name in t.columns
  {
    t.rows[r][ColumnIndex(t.columns, name).value]
  }

  /** `df[name] = v`: an existing column is overwritten in place, a new one goes last. */
  function SetColumn(t: Table, name: string, v: string): (u: Table)
    ensures u.columns == if name in t.columns then t.columns else t.columns + [name]
    ensures |u.rows| == |t.rows|
  {
    match ColumnIndex(t.columns, name)
    case Some(i) => Frame(t.columns, seq(|t.rows|, r requires 0 <= r < |t.rows| => t.rows[r][i := v]))
    case None => Frame(t.columns + [name], seq(|t.rows|, r requires 0 <= r < |t.rows| => t.rows[r] + [v]))
  }

  /** After `df[name] = v` every row holds `v` under `name`, and every other column keeps its
      cells. */
  lemma {:induction false} SetColumnCells(t: Table, name: string, v: string)
    ensures name in SetColumn(t, name, v).columns
    ensures forall r :: 0 <= r < |t.rows| ==> Cell(SetColumn(t, name, v), r, name) == v
    ensures forall r, c :: 0 <= r < |t.rows| && c in t.columns && c != name ==>
              c in SetColumn(t, name, v).columns && Cell(SetColumn(t, name, v), r, c) == Cell(t, r, c)
  {
    if name in t.columns {
      SetExistingColumn(t, name, v);
    } else {
      SetNewColumn(t, name, v);
    }
  }

  lemma {:induction false} SetExistingColumn(t: Table, name: string, v: string)
    requires name in t.columns
    ensures forall r :: 0 <= r < |t.rows| ==> Cell(SetColumn(t, name, v), r, name) == v
    ensures forall r, c :: 0 <= r < |t.rows| && c in t.columns && c != name ==> Cell(SetColumn(t, name, v), r, c) == Cell(t, r, c)
  {
    var u := SetColumn(t, name, v);
    var i := ColumnIndex(t.columns, name).value;
    assert forall r :: 0 <= r < |t.rows| ==> u.rows[r] == t.rows[r][i := v];
    forall r, c | 0 <= r < |t.rows| && c in t.columns && c != name ensures Cell(u, r, c) == Cell(t, r, c) {
      assert ColumnIndex(t.columns, c).value != i;
    }
  }

  lemma {:induction false} SetNewColumn(t: Table, name: string, v: string)
    requires name !in t.columns
    ensures forall r :: 0 <= r < |t.rows| ==> Cell(SetColumn(t, name, v), r, name) == v
    ensures forall r, c :: 0 <= r < |t.rows| && c in t.columns && c != name ==> Cell(SetColumn(t, name, v), r, c) == Cell(t, r, c)
  {
    var u := SetColumn(t, name, v);
    var n := |t.columns|;
    assert forall r :: 0 <= r < |t.rows| ==> u.rows[r] == t.rows[r] + [v];
    assert u.columns[n] == name;
    assert ColumnIndex(u.columns, name) == Some(n);
    forall c | c in t.columns ensures ColumnIndex(u.columns, c) == ColumnIndex(t.columns, c) {
      ColumnIndexPrefix(t.columns, [name], c);
    }
  }

  /** Columns added after the last do not move the first column of a name already present. */
  lemma {:induction false} ColumnIndexPrefix(cols: seq<string>, more: seq<string>, c: string)
    requires c in cols
    ensures ColumnIndex(cols + more, c) == ColumnIndex(cols, c)
  {
    var i := ColumnIndex(cols, c).value;
    assert (cols + more)[i] == c;
    forall j | 0 <= j < i ensures (cols + more)[j] != c {
      assert (cols + more)[j] == cols[j];
    }
  }

  // ----- append_year2txt -----

  /** The files the script touches: `glob*.txt`. */
  predicate IsGlobTxt(file: string) { StartsWith(file, "glob") && EndsWith(file, ".txt") }

  /** The `_` components of the name without `.txt`. */
  function GlobParts(file: string): seq<string> { Split(Replace(file, ".txt", ""), "_") }

  /** The year of a global-index file: its third component, when it has one. */
  function GlobYear(file: string): (r: Option<string>)
    ensures r.Some? <==> |GlobParts(file)| >= 3
    ensures r.Some? ==> r.value == GlobParts(file)[2]
  {
    var parts := GlobParts(file);
    if |parts| < 3 then None else Some(parts[2])
  }

  /** A file rewritten with its new contents. */
  datatype Write = Write(path: string, table: Table)

  /** The rewrite of one listed file, if the script makes one. */
  function YearWrite(root: string, file: string, read: string -> Table): seq<Write> {
    if IsGlobTxt(file) && GlobYear(file).Some? then
      var path := PyPath.Join(root, file);
      [Write(path, SetColumn(read(path), "year", GlobYear(file).value))]
    else []
  }

  function FolderYearWrites(e: PyPath.WalkEntry, read: string -> Table): seq<Write> {
    FlatMap(e.files, f => YearWrite(e.root, f, read))
  }

  /** The rewrites of the whole walk, in walk and listing order. */
  function YearWrites(walk: seq<PyPath.WalkEntry>, read: string -> Table): seq<Write> {
    FlatMap(walk, e => FolderYearWrites(e, read))
  }

  /** `append_year2txt`: `read` stands for `pd.read_csv(path, sep='\t')`, and the files written
      back are returned in the order they are written. */
  method AppendYear2Txt(walk: seq<PyPath.WalkEntry>, read: string -> Table) returns (writes: seq<Write>)
    ensures writes == YearWrites(walk, read)
  {
    writes := [];
    var w := 0;
    while w < |walk|
      invariant 0 <= w <= |walk|
      invariant writes == YearWrites(walk[..w], read)
    {
      var folder := AppendYearInFolder(walk[w].root, walk[w].files, read);
      FlatMapStep(walk, w, e => FolderYearWrites(e, read));
      writes := writes + folder;
      w := w + 1;
    }
    assert walk[..w] == walk;
  }

  /** The inner loop of `append_year2txt`: the files of one directory. */
  method AppendYearInFolder(root: string, files: seq<string>, read: string -> Table) returns (writes: seq<Write>)
    ensures writes == FolderYearWrites(PyPath.WalkEntry(root, files), read)
  {
    writes := [];
    var n := 0;
    while n < |files|
      invariant 0 <= n <= |files|
      invariant writes == FlatMap(files[..n], f => YearWrite(root, f, read))
    {
      var file := files[n];
      FlatMapStep(files, n, f => YearWrite(root, f, read));
      if StartsWith(file, "glob") && EndsWith(file, ".txt") {
        var filePath := PyPath.Join(root, file);
        var parts := Split(Replace(file, ".txt", ""), "_");
        if |parts| >= 3 {
          var year := parts[2];
          var df := read(filePath);
          df := SetColumn(df, "year", year);
          writes := writes + [Write(filePath, df)];
        }
      }
      n := n + 1;
    }
    assert files[..n] == files;
  }

  /** A file is rewritten exactly when it is a `glob*.txt` file with at least three
      components, and then every row of it carries its year. */
  lemma {:induction false} YearWritesIff(walk: seq<PyPath.WalkEntry>, read: string -> Table, x: Write)
    ensures x in YearWrites(walk, read) <==>
      exists e, f :: e in walk && f in e.files && IsGlobTxt(f) && |GlobParts(f)| >= 3 && x == YearWrite(e.root, f, read)[0]
    ensures x in YearWrites(walk, read) ==> exists f :: GlobYear(f).Some? && x.table == SetColumn(read(x.path), "year", GlobYear(f).value)
  {
    FlatMapIff(walk, e => FolderYearWrites(e, read), x);
    forall e | e in walk ensures x in FolderYearWrites(e, read) <==> exists f :: f in e.files && x in YearWrite(e.root, f, read) {
      FlatMapIff(e.files, f => YearWrite(e.root, f, read), x);
    }
  }

  /** The name `glob_<metric>_<year>.txt` yields that year, and that metric. */
  lemma {:induction false} GlobNameParts(m: string, y: string)
    requires '_' !in m && '_' !in y && '.' !in m && '.' !in y
    ensures GlobYear("glob_" + m + "_" + y + ".txt") == Some(y)
    ensures FileMetric("glob_" + m + "_" + y + ".txt") == m
  {
    var stem := "glob_" + m + "_" + y;
    assert stem == "glob" + "_" + m + "_" + y;
    assert '.' !in stem;
    ReplaceSuffix(stem, ".txt", "");
    assert stem + "" == stem;
    SplitThree("glob", m, y);
    var name := stem + ".txt";
    assert name == "glob" + "_" + m + "_" + (y + ".txt") by {
      CatAssoc("glob" + "_" + m + "_", y, ".txt");
    }
    assert '_' !in y + ".txt";
    SplitThree("glob", m, y + ".txt");
    assert '_' in name by { assert name[4] == '_'; }
  }

  /** Three `_`-free pieces joined by `_` split back into those pieces. */
  lemma {:induction false} SplitThree(a: string, b: string, c: string)
    requires '_' !in a && '_' !in b && '_' !in c
    ensures Split(a + "_" + b + "_" + c, "_") == [a, b, c]
  {
    var bc := b + ['_'] + c;
    assert a + "_" + b + "_" + c == a + ['_'] + bc by {
      CatAssoc(a + "_", b, "_");
      CatAssoc(a + "_", b + "_", c);
      CatAssoc(a, "_", bc);
    }
    SplitCharCat(a, '_', bc);
    SplitCharCat(b, '_', c);
    SplitCharAbsent(a, '_');
    SplitCharAbsent(b, '_');
    SplitCharAbsent(c, '_');
  }

  // ----- concat_files -----

  /** The metric of a file: its second `_` component, or `Unknown`. */
  function FileMetric(file: string): string {
    if '_' in file then
      CharContained(file, '_');
      SplitFirst(file, "_", IndexOf(file, "_").value);
      Split(file, "_")[1]
    else "Unknown"
  }

  /** A table read by `concat_files`, with the metric its file name gives. */
  datatype MetricFrame = MetricFrame(metric: string, table: Table)

  /** The table `concat_files` collects from one listed file, if any: its `metric` column set
      to the file's metric. */
  function MetricFrameOf(root: string, file: string, read: string -> Table): seq<MetricFrame> {
    if IsGlobTxt(file) then
      var m := FileMetric(file);
      [MetricFrame(m, SetColumn(read(PyPath.Join(root, file)), "metric", m))]
    else []
  }

  function FolderFrames(e: PyPath.WalkEntry, read: string -> Table): seq<MetricFrame> {
    FlatMap(e.files, f => MetricFrameOf(e.root, f, read))
  }

  /** `data_frames` after the walk. */
  function DataFrames(walk: seq<PyPath.WalkEntry>, read: string -> Table): seq<MetricFrame> {
    FlatMap(walk, e => FolderFrames(e, read))
  }

  /** Every row of the table carries the frame's metric in its `metric` column. */
  predicate Tagged(f: MetricFrame) {
    "metric" in f.table.columns && forall r :: 0 <= r < |f.table.rows| ==> Cell(f.table, r, "metric") == f.metric
  }

  /** Every collected table carries its file's metric on every row. */
  lemma {:induction false} DataFramesTagged(walk: seq<PyPath.WalkEntry>, read: string -> Table)
    ensures forall k :: 0 <= k < |DataFrames(walk, read)| ==> Tagged(DataFrames(walk, read)[k])
  {
    var frames := DataFrames(walk, read);
    forall k | 0 <= k < |frames| ensures Tagged(frames[k]) {
      var x := frames[k];
      FlatMapIff(walk, e => FolderFrames(e, read), x);
      var e :| e in walk && x in FolderFrames(e, read);
      FlatMapIff(e.files, f => MetricFrameOf(e.root, f, read), x);
      var f :| f in e.files && x in MetricFrameOf(e.root, f, read);
      SetColumnCells(read(PyPath.Join(e.root, f)), "metric", FileMetric(f));
    }
  }

  /** The collecting loop of `concat_files`. */
  method CollectFrames(walk: seq<PyPath.WalkEntry>, read: string -> Table) returns (dataFrames: seq<MetricFrame>)
    ensures dataFrames == DataFrames(walk, read)
  {
    dataFrames := [];
    var w := 0;
    while w < |walk|
      invariant 0 <= w <= |walk|
      invariant dataFrames == DataFrames(walk[..w], read)
    {
      var folder := CollectFolderFrames(walk[w].root, walk[w].files, read);
      FlatMapStep(walk, w, e => FolderFrames(e, read));
      dataFrames := dataFrames + folder;
      w := w + 1;
    }
    assert walk[..w] == walk;
  }

  method CollectFolderFrames(root: string, files: seq<string>, read: string -> Table)
    returns (frames: seq<MetricFrame>)
    ensures frames == FolderFrames(PyPath.WalkEntry(root, files), read)
  {
    frames := [];
    var n := 0;
    while n < |files|
      invariant 0 <= n <= |files|
      invariant frames == FlatMap(files[..n], f => MetricFrameOf(root, f, read))
    {
      var file := files[n];
      FlatMapStep(files, n, f => MetricFrameOf(root, f, read));
      if StartsWith(file, "glob") && EndsWith(file, ".txt") {
        var filePath := PyPath.Join(root, file);
        var df := read(filePath);
        var metric := FileMetric(file);
        df := SetColumn(df, "metric", metric);
        frames := frames + [MetricFrame(metric, df)];
      }
      n := n + 1;
    }
    assert files[..n] == files;
  }

  /** A merge key: six cells, or `None` for a metric without a key rule. */
  type Key = Option<seq<string>>

  /** The metrics with a key rule. */
  const KeyedMetrics: seq<string> := ["EC", "PC", "IIC", "NC"]

  /** The key of a row: its first six cells for EC and PC, its first cell, three empty
      cells and its second and third cells for IIC and NC, `None` for any other metric; a row
      too short for its rule raises an IndexError. */
  function RowKey(metric: string, row: seq<string>): (r: Result<Key>)
    ensures r.Err? ==> r.exc == IndexError && metric in KeyedMetrics
    ensures r == Ok(None) <==> metric !in KeyedMetrics
    ensures r.Ok? && r.value.Some? ==> |r.value.value| == 6 && |row| >= 3 && r.value.value[0] == row[0]
  {
    if metric == "EC" || metric == "PC" then
      if |row| < 6 then Err(IndexError) else Ok(Some(row[..6]))
    else if metric == "IIC" || metric == "NC" then
      if |row| < 3 then Err(IndexError) else Ok(Some([row[0], "", "", "", row[1], row[2]]))
    else Ok(None)
  }

  /** The assignment `merged_data[key] = {'metric': metric_val}` one row makes, if its key
      does not raise. */
  function RowItem(metric: string, row: seq<string>): seq<(Key, string)> {
    match RowKey(metric, row) case Ok(k) => [(k, metric)] case Err(_) => []
  }

  function FrameItems(f: MetricFrame): seq<(Key, string)> {
    FlatMap(f.table.rows, row => RowItem(f.metric, row))
  }

  /** All assignments of the merge, in frame and row order. */
  function MergeItems(frames: seq<MetricFrame>): seq<(Key, string)> {
    FlatMap(frames, FrameItems)
  }

  /** `merged_data` after the merge: one entry per distinct key, in first-insertion order,
      holding the metric of the last row with that key. */
  function Merged(frames: seq<MetricFrame>): Dict<Key, string> {
    PutAll(MergeItems(frames))
  }

  lemma {:induction false} PutAllSnoc<K, V>(items: seq<(K, V)>, x: (K, V))
    ensures PutAll(items + [x]) == Put(PutAll(items), x.0, x.1)
  {
    assert (items + [x])[..|items|] == items;
  }

  /** The merging loop of `concat_files`, over tables whose rows carry their metric. */
  method MergeFrames(frames: seq<MetricFrame>) returns (merged: Dict<Key, string>)
    requires forall k :: 0 <= k < |frames| ==> Tagged(frames[k])
    ensures merged == Merged(frames)
  {
    merged := [];
    var k := 0;
    while k < |frames|
      invariant 0 <= k <= |frames|
      invariant merged == PutAll(MergeItems(frames[..k]))
    {
      FlatMapStep(frames, k, FrameItems);
      merged := MergeRows(merged, frames[k], MergeItems(frames[..k]));
      k := k + 1;
    }
    assert frames[..k] == frames;
  }

  /** The loop over the rows of one table. */
  method MergeRows(merged0: Dict<Key, string>, f: MetricFrame, ghost items: seq<(Key, string)>)
    returns (merged: Dict<Key, string>)
    requires Tagged(f) && merged0 == PutAll(items)
    ensures merged == PutAll(items + FrameItems(f))
  {
    merged := merged0;
    var rows := f.table.rows;
    var n := 0;
    assert items + FlatMap(rows[..0], row => RowItem(f.metric, row)) == items;
    while n < |rows|
      invariant 0 <= n <= |rows|
      invariant merged == PutAll(items + FlatMap(rows[..n], row => RowItem(f.metric, row)))
    {
      ghost var done := items + FlatMap(rows[..n], row => RowItem(f.metric, row));
      FlatMapStep(rows, n, row => RowItem(f.metric, row));
      assert done + RowItem(f.metric, rows[n]) == items + FlatMap(rows[..n + 1], row => RowItem(f.metric, row));
      var metricVal := Cell(f.table, n, "metric");
      var key := RowKey(metricVal, rows[n]);
      if key.Ok? {
        PutAllSnoc(done, (key.value, metricVal));
        merged := Put(merged, key.value, metricVal);
      } else {
        assert done + [] == done;
      }
      n := n + 1;
    }
    assert rows[..n] == rows;
  }

  /** `final_data`: each entry's key cells followed by its metric and the case study; a
      `None` key makes `list(key)` raise a TypeError. */
  function FinalRows(merged: Dict<Key, string>, caseStudy: string): (r: Result<seq<seq<string>>>)
    ensures r.Err? <==> None in Keys(merged)
    ensures r.Err? ==> r.exc == TypeError
    ensures r.Ok? ==> |r.value| == |merged|
    ensures r.Ok? ==> forall i :: 0 <= i < |merged| ==>
              merged[i].0.Some? && r.value[i] == merged[i].0.value + [merged[i].1, caseStudy]
    decreases |merged|
  {
    if merged == [] then Ok([])
    else
      var n := |merged| - 1;
      assert Keys(merged) == Keys(merged[..n]) + [merged[n].0];
      match FinalRows(merged[..n], caseStudy)
      case Err(e) => Err(e)
      case Ok(rows) =>
        match merged[n].0
        case None => Err(TypeError)
        case Some(key) => Ok(rows + [key + [merged[n].1, caseStudy]])
  }

  /** `list(df.columns[[0, 1, 2, 3, 4, 5]]) + ['metric', 'case_study']` with the fifth renamed
      `metric_val`; fewer than six columns raise an IndexError. */
  function OutputColumns(last: Table): (r: Result<seq<string>>)
    ensures r.Err? <==> |last.columns| < 6
    ensures r.Err? ==> r.exc == IndexError
    ensures r.Ok? ==> |r.value| == 8 && r.value[..4] == last.columns[..4] && r.value[4] == "metric_val"
                      && r.value[5] == last.columns[5] && r.value[6] == "metric" && r.value[7] == "case_study"
  {
    if |last.columns| < 6 then Err(IndexError)
    else Ok((last.columns[..6] + ["metric", "case_study"])[4 := "metric_val"])
  }

  /** What `concat_files` writes: the table and the paths of its TSV and CSV copies. */
  datatype ConcatOutput = ConcatOutput(table: Table, txtPath: string, csvPath: string)

  predicate RowsFit(rows: seq<seq<string>>, columns: seq<string>) {
    forall i :: 0 <= i < |rows| ==> |rows[i]| == |columns|
  }

  /** `concat_files` after the tables are collected. The columns come from `df`, the last
      table of the merge loop, which is unbound when there is none; `pd.DataFrame` raises a
      ValueError when a row does not fit the columns. */
  function ConcatResult(frames: seq<MetricFrame>, outputDir: string, caseStudy: string): Result<ConcatOutput> {
    match FinalRows(Merged(frames), caseStudy)
    case Err(e) => Err(e)
    case Ok(rows) => OutputOf(frames, rows, outputDir, caseStudy)
  }

  /** The output built from `final_data` and the columns of the last table. */
  function OutputOf(frames: seq<MetricFrame>, rows: seq<seq<string>>, outputDir: string, caseStudy: string)
    : Result<ConcatOutput>
  {
    if frames == [] then Err(UnboundLocalError("df"))
    else
      match OutputColumns(frames[|frames| - 1].table)
      case Err(e) => Err(e)
      case Ok(columns) =>
        if !RowsFit(rows, columns) then Err(ValueError("columns passed do not match the data"))
        else
          var finalDf: Table := Frame(columns, rows);
          Ok(ConcatOutput(SetColumn(finalDf, "case_study", caseStudy),
                          PyPath.Join(outputDir, "concat_glob.txt"), PyPath.Join(outputDir, "concat_glob.csv")))
  }

  /** `concat_files` without the file I/O: `walk` stands for `os.walk(output_dir)` and `read`
      for `pd.read_csv(path, sep='\t')`. */
  method ConcatFiles(walk: seq<PyPath.WalkEntry>, read: string -> Table, outputDir: string, caseStudy: string)
    returns (r: Result<ConcatOutput>)
    ensures r == ConcatResult(DataFrames(walk, read), outputDir, caseStudy)
  {
    var dataFrames := CollectFrames(walk, read);
    DataFramesTagged(walk, read);
    var merged := MergeFrames(dataFrames);
    var finalData := FinalData(merged, caseStudy);
    match finalData
    case Err(e) =>
      r := Err(e);
    case Ok(rows) =>
      r := FinalTable(dataFrames, rows, outputDir, caseStudy);
  }

  /** The loop building `final_data`. */
  method FinalData(merged: Dict<Key, string>, caseStudy: string) returns (r: Result<seq<seq<string>>>)
    ensures r == FinalRows(merged, caseStudy)
  {
    var finalData: seq<seq<string>> := [];
    var i := 0;
    while i < |merged|
      invariant 0 <= i <= |merged|
      invariant FinalRows(merged[..i], caseStudy) == Ok(finalData)
    {
      assert merged[..i + 1][..i] == merged[..i];
      if merged[i].0.None? {
        assert Keys(merged)[i] == None;
        return Err(TypeError);
      }
      finalData := finalData + [merged[i].0.value + [merged[i].1, caseStudy]];
      i := i + 1;
    }
    assert merged[..i] == merged;
    r := Ok(finalData);
  }

  /** The output table built from `final_data` and the columns of the last table. */
  method FinalTable(dataFrames: seq<MetricFrame>, finalData: seq<seq<string>>, outputDir: string, caseStudy: string)
    returns (r: Result<ConcatOutput>)
    ensures r == OutputOf(dataFrames, finalData, outputDir, caseStudy)
  {
    if |dataFrames| == 0 {
      return Err(UnboundLocalError("df"));
    }
    var df := dataFrames[|dataFrames| - 1].table;
    if |df.columns| < 6 {
      return Err(IndexError);
    }
    var columns := df.columns[..6] + ["metric", "case_study"];
    columns := columns[4 := "metric_val"];
    if !RowsFit(finalData, columns) {
      return Err(ValueError("columns passed do not match the data"));
    }
    var finalDf: Table := Frame(columns, finalData);
    finalDf := SetColumn(finalDf, "case_study", caseStudy);
    var globTxt := PyPath.Join(outputDir, "concat_glob.txt");
    var globCsv := PyPath.Join(outputDir, "concat_glob.csv");
    r := Ok(ConcatOutput(finalDf, globTxt, globCsv));
  }

  /** An assignment the merge makes comes from some row of some table. */
  lemma {:induction false} MergeItemOrigin(frames: seq<MetricFrame>, x: (Key, string))
    requires x in MergeItems(frames)
    ensures exists k, r :: 0 <= k < |frames| && 0 <= r < |frames[k].table.rows| && x in RowItem(frames[k].metric, frames[k].table.rows[r])
  {
    FlatMapIff(frames, FrameItems, x);
    var f :| f in frames && x in FrameItems(f);
    FlatMapIff(f.table.rows, row => RowItem(f.metric, row), x);
    var row :| row in f.table.rows && x in RowItem(f.metric, row);
    var k :| 0 <= k < |frames| && frames[k] == f;
    var r :| 0 <= r < |f.table.rows| && f.table.rows[r] == row;
  }

  /** Every key of the merged table is the key of some row. */
  lemma {:induction false} MergedKeyOrigin(frames: seq<MetricFrame>, key: Key)
    requires key in Keys(Merged(frames))
    ensures exists x :: x in MergeItems(frames) && x.0 == key
  {
    var items := MergeItems(frames);
    PutAllKeys(items);
    FirstOccurrencesSpec(Keys(items));
    var i :| 0 <= i < |items| && Keys(items)[i] == key;
    assert items[i] in items;
  }

  /** Every key of the merged table has six cells. */
  lemma {:induction false} MergedKeyLength(frames: seq<MetricFrame>, i: nat)
    requires i < |Merged(frames)|
    ensures Merged(frames)[i].0.Some? ==> |Merged(frames)[i].0.value| == 6
  {
    var merged := Merged(frames);
    assert merged[i].0 == Keys(merged)[i];
    MergedKeyOrigin(frames, merged[i].0);
    var x :| x in MergeItems(frames) && x.0 == merged[i].0;
    MergeItemOrigin(frames, x);
  }

  /** A row of a metric without a key rule makes `concat_files` raise a TypeError, whatever
      the other rows hold. */
  lemma {:induction false} UnkeyedMetricRaises(frames: seq<MetricFrame>, k: nat, r: nat, outputDir: string, caseStudy: string)
    requires k < |frames| && r < |frames[k].table.rows| && frames[k].metric !in KeyedMetrics
    ensures ConcatResult(frames, outputDir, caseStudy) == Err(TypeError)
  {
    var f := frames[k];
    var x := (None, f.metric);
    assert x in RowItem(f.metric, f.table.rows[r]);
    assert f in frames && f.table.rows[r] in f.table.rows;
    FlatMapIff(f.table.rows, row => RowItem(f.metric, row), x);
    FlatMapIff(frames, FrameItems, x);
    var items := MergeItems(frames);
    var i :| 0 <= i < |items| && items[i] == x;
    assert Keys(items)[i] == None;
    PutAllKeys(items);
    FirstOccurrencesSpec(Keys(items));
  }

  /** Every row of `final_data` fits the eight output columns, so `pd.DataFrame` never
      raises: `concat_files` fails only with a TypeError, an unbound `df` or an IndexError. */
  lemma {:induction false} ConcatErrors(frames: seq<MetricFrame>, outputDir: string, caseStudy: string)
    ensures var r := ConcatResult(frames, outputDir, caseStudy);
      r.Err? ==> r.exc == TypeError || r.exc == UnboundLocalError("df") || r.exc == IndexError
  {
    var merged := Merged(frames);
    var fr := FinalRows(merged, caseStudy);
    if fr.Ok? && frames != [] && OutputColumns(frames[|frames| - 1].table).Ok? {
      var columns := OutputColumns(frames[|frames| - 1].table).value;
      forall i | 0 <= i < |fr.value| ensures |fr.value[i]| == |columns| {
        MergedKeyLength(frames, i);
      }
    }
  }

  /** The output of `concat_files`: the eight output columns, one row per distinct key in
      first-insertion order, each holding its key's cells, the metric of the last row with
      that key, and the case study. */
  lemma {:induction false} ConcatOutputRows(frames: seq<MetricFrame>, outputDir: string, caseStudy: string)
    requires ConcatResult(frames, outputDir, caseStudy).Ok?
    ensures var out := ConcatResult(frames, outputDir, caseStudy).value;
      var merged := Merged(frames);
      && OutputColumns(frames[|frames| - 1].table) == Ok(out.table.columns)
      && |out.table.rows| == |merged|
      && (forall i :: 0 <= i < |merged| ==>
            merged[i].0.Some? && out.table.rows[i][6] == merged[i].1 && Cell(out.table, i, "case_study") == caseStudy
            && forall j :: 0 <= j < 6 && out.table.columns[j] != "case_study" ==> out.table.rows[i][j] == merged[i].0.value[j])
      && out.csvPath == PyPath.Join(outputDir, "concat_glob.csv")
  {
    var merged := Merged(frames);
    forall i | 0 <= i < |merged| ensures merged[i].0.Some? ==> |merged[i].0.value| == 6 {
      MergedKeyLength(frames, i);
    }
    var rows := FinalRows(merged, caseStudy).value;
    OutputRows(frames, merged, rows, outputDir, caseStudy);
  }

  lemma {:induction false} OutputRows(frames: seq<MetricFrame>, merged: Dict<Key, string>, rows: seq<seq<string>>,
                                      outputDir: string, caseStudy: string)
    requires FinalRows(merged, caseStudy) == Ok(rows) && OutputOf(frames, rows, outputDir, caseStudy).Ok?
    requires forall i :: 0 <= i < |merged| ==> merged[i].0.Some? ==> |merged[i].0.value| == 6
    ensures var out := OutputOf(frames, rows, outputDir, caseStudy).value;
      && OutputColumns(frames[|frames| - 1].table) == Ok(out.table.columns)
      && |out.table.rows| == |merged|
      && (forall i :: 0 <= i < |merged| ==>
            merged[i].0.Some? && out.table.rows[i][6] == merged[i].1 && Cell(out.table, i, "case_study") == caseStudy
            && forall j :: 0 <= j < 6 && out.table.columns[j] != "case_study" ==> out.table.rows[i][j] == merged[i].0.value[j])
      && out.csvPath == PyPath.Join(outputDir, "concat_glob.csv")
  {
    var columns := OutputColumns(frames[|frames| - 1].table).value;
    var t: Table := Frame(columns, rows);
    var out := OutputOf(frames, rows, outputDir, caseStudy).value;
    assert out.table == SetColumn(t, "case_study", caseStudy);
    SetColumnCells(t, "case_study", caseStudy);
    var ci := ColumnIndex(columns, "case_study").value;
    assert ci != 6;
    assert columns[ci] == "case_study";
    forall i | 0 <= i < |merged|
      ensures out.table.rows[i][6] == merged[i].1
      ensures forall j :: 0 <= j < 6 && columns[j] != "case_study" ==> out.table.rows[i][j] == merged[i].0.value[j]
    {
      assert out.table.rows[i] == rows[i][ci := caseStudy];
      KeptCells(rows[i], merged[i].0.value, merged[i].1, caseStudy, ci);
    }
  }

  lemma {:induction false} KeptCells(row: seq<string>, key: seq<string>, metric: string, caseStudy: string, ci: nat)
    requires |key| == 6 && row == key + [metric, caseStudy] && ci < 8 && ci != 6
    ensures row[ci := caseStudy][6] == metric
    ensures forall j :: 0 <= j < 6 && j != ci ==> row[ci := caseStudy][j] == key[j]
  {
  }

  // ----- combine_glob_csv -----

  /** `os.path.basename(os.path.dirname(path))`: the folder a CSV file sits in, taken as its
      habitat. */
  function HabitatOf(path: string): string {
    PyPath.Basename(PyPath.Dirname(path))
  }

  /** The tables `pd.read_csv` reads from the files. */
  function Reads(paths: seq<string>, read: string -> Table): (ts: seq<Table>)
    ensures |ts| == |paths|
  {
    seq(|paths|, k requires 0 <= k < |paths| => read(paths[k]))
  }

  /** The habitat of each file. */
  function Habitats(paths: seq<string>): (hs: seq<string>)
    ensures |hs| == |paths|
  {
    seq(|paths|, k requires 0 <= k < |paths| => HabitatOf(paths[k]))
  }

  /** Each table with `df['habitat'] = habitat` applied. */
  function Labelled(tables: seq<Table>, habitats: seq<string>): (ts: seq<Table>)
    requires |tables| == |habitats|
    ensures |ts| == |tables|
    decreases |tables|
  {
    if tables == [] then []
    else
      var n := |tables| - 1;
      Labelled(tables[..n], habitats[..n]) + [SetColumn(tables[n], "habitat", habitats[n])]
  }

  /** The list `combined_data`. */
  function HabitatFrames(paths: seq<string>, read: string -> Table): (ts: seq<Table>)
    ensures |ts| == |paths|
  {
    Labelled(Reads(paths, read), Habitats(paths))
  }

  lemma {:induction false} LabelledAt(tables: seq<Table>, habitats: seq<string>, k: nat)
    requires |tables| == |habitats| && k < |tables|
    ensures Labelled(tables, habitats)[k] == SetColumn(tables[k], "habitat", habitats[k])
    decreases |tables|
  {
    var n := |tables| - 1;
    if k < n {
      assert tables[..n][k] == tables[k] && habitats[..n][k] == habitats[k];
      LabelledAt(tables[..n], habitats[..n], k);
    }
  }

  /** Every column of every table, in order. */
  function AllColumns(ts: seq<Table>): seq<string>
    decreases |ts|
  {
    if ts == [] then [] else AllColumns(ts[..|ts| - 1]) + ts[|ts| - 1].columns
  }

  /** The columns `pd.concat` gives: the distinct column names in order of first appearance. */
  function ConcatColumns(ts: seq<Table>): seq<string> {
    FirstOccurrences(AllColumns(ts))
  }

  function RowCount(ts: seq<Table>): nat
    decreases |ts|
  {
    if ts == [] then 0 else RowCount(ts[..|ts| - 1]) + |ts[|ts| - 1].rows|
  }

  /** A table's rows laid out on `columns`: the cell under a column it has, and an empty cell
      (what `to_csv` writes for a missing value) under one it lacks. */
  function Realign(t: Table, columns: seq<string>): (rows: seq<seq<string>>)
    ensures |rows| == |t.rows| && RowsFit(rows, columns)
  {
    seq(|t.rows|, r requires 0 <= r < |t.rows| =>
      seq(|columns|, j requires 0 <= j < |columns| => if columns[j] in t.columns then Cell(t, r, columns[j]) else ""))
  }

  /** The rows of all tables, one after the other, laid out on `columns`. */
  function Stacked(ts: seq<Table>, columns: seq<string>): (rows: seq<seq<string>>)
    ensures |rows| == RowCount(ts) && RowsFit(rows, columns)
    decreases |ts|
  {
    if ts == [] then [] else Stacked(ts[..|ts| - 1], columns) + Realign(ts[|ts| - 1], columns)
  }

  /** `pd.concat(ts, ignore_index=True)`, which raises a ValueError on an empty list. */
  function Concat(ts: seq<Table>): (r: Result<Table>)
    ensures r.Err? <==> ts == []
    ensures r.Err? ==> r.exc.ValueError?
  {
    if ts == [] then Err(ValueError("No objects to concatenate"))
    else
      var columns := ConcatColumns(ts);
      var t: Table := Frame(columns, Stacked(ts, columns));
      Ok(t)
  }

  /** `combine_glob_csv` without the file I/O: `read` stands for `pd.read_csv(path, sep=',')`.
      The result is the combined table and the path it is written to. */
  function CombineResult(paths: seq<string>, read: string -> Table, outputDir: string): Result<(Table, string)> {
    match Concat(HabitatFrames(paths, read))
    case Err(e) => Err(e)
    case Ok(t) => Ok((t, PyPath.Join(outputDir, "stats_glob.csv")))
  }

  method CombineGlobCsv(paths: seq<string>, read: string -> Table, outputDir: string) returns (r: Result<(Table, string)>)
    ensures r == CombineResult(paths, read, outputDir)
  {
    var combinedData: seq<Table> := [];
    for k := 0 to |paths|
      invariant combinedData == HabitatFrames(paths[..k], read)
    {
      HabitatFramesSnoc(paths, read, k);
      var habitat := PyPath.Basename(PyPath.Dirname(paths[k]));
      var df := read(paths[k]);
      df := SetColumn(df, "habitat", habitat);
      combinedData := combinedData + [df];
    }
    assert paths[..|paths|] == paths;
    var combinedDf := Concat(combinedData);
    match combinedDf
    case Err(e) =>
      r := Err(e);
    case Ok(t) =>
      var outputCsv := PyPath.Join(outputDir, "stats_glob.csv");
      r := Ok((t, outputCsv));
  }

  lemma {:induction false} HabitatFramesSnoc(paths: seq<string>, read: string -> Table, k: nat)
    requires k < |paths|
    ensures HabitatFrames(paths[..k + 1], read)
              == HabitatFrames(paths[..k], read) + [SetColumn(read(paths[k]), "habitat", HabitatOf(paths[k]))]
  {
    var p1, p0 := paths[..k + 1], paths[..k];
    var ts, hs := Reads(p1, read), Habitats(p1);
    assert p1[..k] == p0;
    assert ts[..k] == Reads(p0, read);
    assert hs[..k] == Habitats(p0);
    assert ts[k] == read(paths[k]) && hs[k] == HabitatOf(paths[k]);
  }

  /** A column of any table is a column of the concatenation. */
  lemma {:induction false} AllColumnsHas(ts: seq<Table>, k: nat, c: string)
    requires k < |ts| && c in ts[k].columns
    ensures c in AllColumns(ts)
    decreases |ts|
  {
    var n := |ts| - 1;
    if k < n {
      assert ts[..n][k] == ts[k];
      AllColumnsHas(ts[..n], k, c);
    }
  }

  /** Row `r` of table `k` sits after the rows of the tables before it. */
  lemma {:induction false} StackedAt(ts: seq<Table>, columns: seq<string>, k: nat, r: nat)
    requires k < |ts| && r < |ts[k].rows|
    ensures RowCount(ts[..k]) + r < |Stacked(ts, columns)|
    ensures Stacked(ts, columns)[RowCount(ts[..k]) + r] == Realign(ts[k], columns)[r]
    decreases |ts|
  {
    var n := |ts| - 1;
    if k == n {
      assert ts[..k] == ts[..n];
    } else {
      assert ts[..n][..k] == ts[..k] && ts[..n][k] == ts[k];
      StackedAt(ts[..n], columns, k, r);
    }
  }

  /** `pd.concat` keeps every cell of every table at its row, and fills the columns a table
      lacks with empty cells. */
  lemma {:induction false} ConcatCells(ts: seq<Table>, k: nat, r: nat, c: string)
    requires k < |ts| && r < |ts[k].rows|
    ensures Concat(ts).Ok? && RowCount(ts[..k]) + r < |Concat(ts).value.rows|
    ensures c in ts[k].columns ==> c in Concat(ts).value.columns
    ensures c in ts[k].columns ==> Cell(Concat(ts).value, RowCount(ts[..k]) + r, c) == Cell(ts[k], r, c)
    ensures c in Concat(ts).value.columns && c !in ts[k].columns ==> Cell(Concat(ts).value, RowCount(ts[..k]) + r, c) == ""
  {
    var columns := ConcatColumns(ts);
    var t := Concat(ts).value;
    StackedAt(ts, columns, k, r);
    FirstOccurrencesSpec(AllColumns(ts));
    if c in ts[k].columns {
      AllColumnsHas(ts, k, c);
    }
    if c in columns {
      var j := ColumnIndex(columns, c).value;
      assert t.rows[RowCount(ts[..k]) + r][j] == Realign(ts[k], columns)[r][j];
    }
  }

  /** Every row of the combined table carries the habitat of the file it came from, and keeps
      the cells that file has under its other columns; the rows of file `k` come after those of
      the files before it. */
  lemma {:induction false} CombinedRows(tables: seq<Table>, habitats: seq<string>, ts: seq<Table>, k: nat, r: nat,
                                        c: string)
    requires |tables| == |habitats| && ts == Labelled(tables, habitats) && k < |tables| && r < |tables[k].rows|
    ensures Concat(ts).Ok? && RowCount(ts[..k]) + r < |Concat(ts).value.rows|
    ensures "habitat" in Concat(ts).value.columns
    ensures Cell(Concat(ts).value, RowCount(ts[..k]) + r, "habitat") == habitats[k]
    ensures c in tables[k].columns && c != "habitat" ==>
              c in Concat(ts).value.columns && Cell(Concat(ts).value, RowCount(ts[..k]) + r, c) == Cell(tables[k], r, c)
  {
    LabelledAt(tables, habitats, k);
    ConcatLabelled(ts, k, r, tables[k], habitats[k], c);
  }

  lemma {:induction false} ConcatLabelled(ts: seq<Table>, k: nat, r: nat, t0: Table, h: string, c: string)
    requires k < |ts| && ts[k] == SetColumn(t0, "habitat", h) && r < |t0.rows|
    ensures Concat(ts).Ok? && RowCount(ts[..k]) + r < |Concat(ts).value.rows|
    ensures "habitat" in Concat(ts).value.columns
    ensures Cell(Concat(ts).value, RowCount(ts[..k]) + r, "habitat") == h
    ensures c in t0.columns && c != "habitat" ==>
              c in Concat(ts).value.columns && Cell(Concat(ts).value, RowCount(ts[..k]) + r, c) == Cell(t0, r, c)
  {
    SetColumnCells(t0, "habitat", h);
    ConcatCells(ts, k, r, "habitat");
    ConcatCells(ts, k, r, c);
  }

  /** `combine_glob_csv` fails exactly when it is given no path, with pandas' ValueError; the
      combined table has the rows of all files and is written to `stats_glob.csv`. */
  lemma {:induction false} CombineOutcome(paths: seq<string>, read: string -> Table, outputDir: string)
    ensures var res := CombineResult(paths, read, outputDir);
      && (res.Err? <==> paths == [])
      && (res.Err? ==> res.exc.ValueError?)
      && (res.Ok? ==> |res.value.0.rows| == RowCount(HabitatFrames(paths, read))
                      && res.value.1 == PyPath.Join(outputDir, "stats_glob.csv"))
  {
  }

  // ----- glob_wrapper -----

  /** A case study's configuration of one habitat: a `.yaml` file whose name does not
      contain `multi`. */
  predicate IsHabitatConfig(name: string) {
    EndsWith(name, ".yaml") && !Contains(name, "multi")
  }

  /** The configuration files of a case study, from the listing of `config/<case_study>`. */
  function ConfigFiles(caseStudy: string, listing: seq<string>): (files: seq<string>)
    ensures |files| == |Filter(listing, IsHabitatConfig)|
  {
    var names := Filter(listing, IsHabitatConfig);
    seq(|names|, k requires 0 <= k < |names| => PyPath.Join(PyPath.Join("config", caseStudy), names[k]))
  }

  /** The files are the habitat configurations of the listing, each in the case study's
      configuration folder. */
  lemma {:induction false} ConfigFilesSelected(caseStudy: string, listing: seq<string>)
    ensures forall f :: f in ConfigFiles(caseStudy, listing) ==>
              exists name :: name in listing && IsHabitatConfig(name) && f == PyPath.Join(PyPath.Join("config", caseStudy), name)
    ensures forall name :: name in listing && IsHabitatConfig(name) ==>
              PyPath.Join(PyPath.Join("config", caseStudy), name) in ConfigFiles(caseStudy, listing)
  {
    var names := Filter(listing, IsHabitatConfig);
    var files := ConfigFiles(caseStudy, listing);
    FilterMembers(listing, IsHabitatConfig);
    forall f | f in files
      ensures exists name :: name in listing && IsHabitatConfig(name) && f == PyPath.Join(PyPath.Join("config", caseStudy), name)
    {
      var k :| 0 <= k < |files| && files[k] == f;
      assert names[k] in listing && IsHabitatConfig(names[k]);
    }
    forall name | name in listing && IsHabitatConfig(name)
      ensures PyPath.Join(PyPath.Join("config", caseStudy), name) in files
    {
      var i :| 0 <= i < |listing| && listing[i] == name;
      var k :| 0 <= k < |names| && names[k] == name;
      assert files[k] == PyPath.Join(PyPath.Join("config", caseStudy), name);
    }
  }

  /** The first key of the configuration whose value is `v`. */
  function FirstKeyWithValue(config: Dict<string, string>, v: string): (r: Option<string>)
    ensures r.None? <==> forall i :: 0 <= i < |config| ==> config[i].1 != v
    ensures r.Some? ==> exists i :: 0 <= i < |config| && config[i] == (r.value, v)
                                    && forall j :: 0 <= j < i ==> config[j].1 != v
    decreases |config|
  {
    if config == [] then None
    else if config[0].1 == v then Some(config[0].0)
    else
      var r := FirstKeyWithValue(config[1..], v);
      assert forall i :: 0 < i < |config| ==> config[i] == config[1..][i - 1];
      r
  }

  /** The habitat alias of a loaded configuration: the first key whose value equals
      `config['habitat']`, without `habitat_`. An empty configuration has no alias; one with
      entries but no `habitat` key raises a KeyError. */
  function HabitatAlias(config: Dict<string, string>): (r: Result<Option<string>>)
    ensures r.Err? <==> config != [] && "habitat" !in Keys(config)
    ensures r.Err? ==> r.exc == KeyError("habitat")
  {
    if config == [] then Ok(None)
    else
      match Get(config, "habitat")
      case None => Err(KeyError("habitat"))
      case Some(h) =>
        match FirstKeyWithValue(config, h)
        case None => Ok(None)
        case Some(key) => Ok(Some(Replace(key, "habitat_", "")))
  }

  /** The search for the alias: `config['habitat']` is looked up on every entry, so the
      KeyError comes at the first one. */
  method FindHabitatAlias(config: Dict<string, string>) returns (r: Result<Option<string>>)
    ensures r == HabitatAlias(config)
  {
    var i := 0;
    while i < |config|
      invariant 0 <= i <= |config|
      invariant i > 0 ==> Get(config, "habitat").Some?
      invariant i > 0 ==> FirstKeyWithValue(config, Get(config, "habitat").value) == FirstKeyWithValue(config[i..], Get(config, "habitat").value)
    {
      var (key, value) := config[i];
      var h := Get(config, "habitat");
      if h.None? {
        return Err(KeyError("habitat"));
      }
      assert config[i..][0] == config[i] && config[i..][1..] == config[i + 1..];
      if value == h.value {
        return Ok(Some(Replace(key, "habitat_", "")));
      }
      i := i + 1;
    }
    if i > 0 {
      assert config[i..] == [];
    }
    r := Ok(None);
  }

  /** A configuration with a `habitat` entry always has an alias: the first key sharing that
      entry's value, which may be `habitat` itself. */
  lemma {:induction false} HabitatAliasFound(config: Dict<string, string>, i: nat)
    requires "habitat" in Keys(config)
    requires i < |config| && config[i].1 == Get(config, "habitat").value
    requires forall j :: 0 <= j < i ==> config[j].1 != config[i].1
    ensures HabitatAlias(config) == Ok(Some(Replace(config[i].0, "habitat_", "")))
  {
    var h := Get(config, "habitat").value;
    var key := FirstKeyWithValue(config, h).value;
    var i' :| 0 <= i' < |config| && config[i'] == (key, h) && forall j :: 0 <= j < i' ==> config[j].1 != h;
    assert i' == i;
  }

  /** A key `habitat_<name>` gives the alias `<name>`. */
  lemma {:induction false} AliasOfHabitatKey(name: string)
    requires !Contains(name, "habitat_")
    ensures Replace("habitat_" + name, "habitat_", "") == name
  {
    ReplaceWhole(name, "habitat_", "");
    ReplaceAbsent(name, "habitat_", "");
  }

  /** `os.path.join("data", case_study, "output", habitat)`. */
  function HabitatOutputDir(caseStudy: string, habitat: string): string {
    PyPath.JoinAll("data", [caseStudy, "output", habitat])
  }

  /** What the configuration loop of `glob_wrapper` carries from one file to the next: the
      variable `habitat` (unbound at first, kept when a file gives no alias), the output
      folders and the CSV paths `concat_files` returned. */
  datatype WrapperState = WrapperState(habitat: Option<string>, outputDirs: seq<string>, csvPaths: seq<string>)

  /** The file system `glob_wrapper` sees: `load` stands for `yaml.safe_load` of a file (None
      for an empty document), `walkOf` for `os.walk` of a folder and `read` for reading a
      tab-separated file as it was before the wrapper ran. */
  datatype World = World(load: string -> Option<Dict<string, string>>, walkOf: string -> seq<PyPath.WalkEntry>,
                         read: string -> Table)

  /** The table at `path` once `writes` have been made: the last one written there, or the
      table read before. */
  function TableAfter(writes: seq<Write>, read: string -> Table, path: string): Table
    decreases |writes|
  {
    if writes == [] then read(path)
    else if writes[|writes| - 1].path == path then writes[|writes| - 1].table
    else TableAfter(writes[..|writes| - 1], read, path)
  }

  function ReadAfter(writes: seq<Write>, read: string -> Table): string -> Table {
    path => TableAfter(writes, read, path)
  }

  /** What `concat_files(output_dir, ...)` reads: the tables after `append_year2txt(output_dir)`
      has written the year column. */
  function ReadAfterYears(dir: string, w: World): string -> Table {
    ReadAfter(YearWrites(w.walkOf(dir), w.read), w.read)
  }

  /** `append_year2txt(dir)` then `concat_files(dir, case_study)`, for each folder. */
  function ConcatIn(caseStudy: string, w: World): string -> Result<ConcatOutput> {
    dir => ConcatResult(DataFrames(w.walkOf(dir), ReadAfterYears(dir, w)), dir, caseStudy)
  }

  /** A path written is read back as its last write. */
  lemma {:induction false} TableAfterWritten(writes: seq<Write>, read: string -> Table, path: string)
    requires exists x :: x in writes && x.path == path
    ensures exists x :: x in writes && x.path == path && TableAfter(writes, read, path) == x.table
    decreases |writes|
  {
    var last := writes[|writes| - 1];
    if last.path != path {
      var x :| x in writes && x.path == path;
      assert writes == writes[..|writes| - 1] + [last];
      assert x in writes[..|writes| - 1];
      TableAfterWritten(writes[..|writes| - 1], read, path);
    }
  }

  /** Every `glob*.txt` file with a year in its name that `concat_files` reads carries the
      `year` column that `append_year2txt` wrote, holding the year of a global-index file name
      on every row. */
  lemma {:induction false} ConcatReadsYear(dir: string, w: World, e: PyPath.WalkEntry, f: string)
    requires e in w.walkOf(dir) && f in e.files && IsGlobTxt(f) && |GlobParts(f)| >= 3
    ensures var t := ReadAfterYears(dir, w)(PyPath.Join(e.root, f));
      "year" in t.columns
      && exists g :: GlobYear(g).Some? && forall r :: 0 <= r < |t.rows| ==> Cell(t, r, "year") == GlobYear(g).value
  {
    var writes := YearWrites(w.walkOf(dir), w.read);
    var path := PyPath.Join(e.root, f);
    var x0 := YearWrite(e.root, f, w.read)[0];
    YearWritesIff(w.walkOf(dir), w.read, x0);
    assert x0 in writes && x0.path == path;
    TableAfterWritten(writes, w.read, path);
    var x :| x in writes && x.path == path && TableAfter(writes, w.read, path) == x.table;
    YearWritesIff(w.walkOf(dir), w.read, x);
    var g :| GlobYear(g).Some? && x.table == SetColumn(w.read(x.path), "year", GlobYear(g).value);
    SetColumnCells(w.read(x.path), "year", GlobYear(g).value);
  }

  /** A concatenation that writes `concat_glob.csv` in the folder it is given. */
  ghost predicate WritesConcatCsv(concat: string -> Result<ConcatOutput>) {
    forall dir :: concat(dir).Ok? ==> concat(dir).value.csvPath == PyPath.Join(dir, "concat_glob.csv")
  }

  lemma {:induction false} ConcatInWritesCsv(caseStudy: string, w: World)
    ensures WritesConcatCsv(ConcatIn(caseStudy, w))
  {
    forall dir | ConcatIn(caseStudy, w)(dir).Ok?
      ensures ConcatIn(caseStudy, w)(dir).value.csvPath == PyPath.Join(dir, "concat_glob.csv")
    {
      ConcatCsvPath(DataFrames(w.walkOf(dir), ReadAfterYears(dir, w)), dir, caseStudy);
    }
  }

  /** The CSV path `concat_files` returns. */
  lemma {:induction false} ConcatCsvPath(frames: seq<MetricFrame>, outputDir: string, caseStudy: string)
    requires ConcatResult(frames, outputDir, caseStudy).Ok?
    ensures ConcatResult(frames, outputDir, caseStudy).value.csvPath == PyPath.Join(outputDir, "concat_glob.csv")
  {
  }

  /** One configuration file of the loop, given what `yaml.safe_load` made of it. */
  function WrapperStep(st: WrapperState, caseStudy: string, config: Option<Dict<string, string>>,
                       concat: string -> Result<ConcatOutput>): Result<WrapperState>
  {
    match config
    case None => Err(AttributeError)
    case Some(cfg) =>
      match HabitatAlias(cfg)
      case Err(e) => Err(e)
      case Ok(alias) =>
        var habitat := if alias.Some? then alias else st.habitat;
        if habitat.None? then Err(UnboundLocalError("habitat"))
        else
          var outputDir := HabitatOutputDir(caseStudy, habitat.value);
          match concat(outputDir)
          case Err(e) => Err(e)
          case Ok(out) => Ok(WrapperState(habitat, st.outputDirs + [outputDir], st.csvPaths + [out.csvPath]))
  }

  /** The loop over the configuration files. */
  function WrapperLoop(caseStudy: string, configs: seq<string>, load: string -> Option<Dict<string, string>>,
                       concat: string -> Result<ConcatOutput>): Result<WrapperState>
    decreases |configs|
  {
    if configs == [] then Ok(WrapperState(None, [], []))
    else
      match WrapperLoop(caseStudy, configs[..|configs| - 1], load, concat)
      case Err(e) => Err(e)
      case Ok(st) => WrapperStep(st, caseStudy, load(configs[|configs| - 1]), concat)
  }

  /** `glob_wrapper(case_study)` without the plot and without the deletion of temporary files:
      the combined table and its path. `readCsv` stands for reading the comma-separated files
      the concatenation wrote. With no configuration file, `output_dir_case_study` is
      unbound. */
  function WrapperResult(caseStudy: string, listing: seq<string>, w: World, readCsv: string -> Table)
    : Result<(Table, string)>
  {
    match WrapperLoop(caseStudy, ConfigFiles(caseStudy, listing), w.load, ConcatIn(caseStudy, w))
    case Err(e) => Err(e)
    case Ok(st) =>
      if st.outputDirs == [] then Err(UnboundLocalError("output_dir_case_study"))
      else CombineResult(st.csvPaths, readCsv, CombineDir(st))
  }

  /** `output_dir_case_study`: the parent of the last habitat's output folder. */
  function CombineDir(st: WrapperState): string
    requires st.outputDirs != []
  {
    PyPath.Dirname(st.outputDirs[|st.outputDirs| - 1])
  }

  method GlobWrapper(caseStudy: string, listing: seq<string>, w: World, readCsv: string -> Table)
    returns (r: Result<(Table, string)>)
    ensures r == WrapperResult(caseStudy, listing, w, readCsv)
  {
    var configFiles := ConfigFiles(caseStudy, listing);
    var loop := ConfigLoop(caseStudy, configFiles, w);
    if loop.Err? {
      return Err(loop.exc);
    }
    var st := loop.value;
    if st.outputDirs == [] {
      return Err(UnboundLocalError("output_dir_case_study"));
    }
    r := CombineGlobCsv(st.csvPaths, readCsv, PyPath.Dirname(st.outputDirs[|st.outputDirs| - 1]));
  }

  /** The loop of `glob_wrapper` over the habitat configuration files. */
  method ConfigLoop(caseStudy: string, configFiles: seq<string>, w: World) returns (r: Result<WrapperState>)
    ensures r == WrapperLoop(caseStudy, configFiles, w.load, ConcatIn(caseStudy, w))
  {
    ghost var concat := ConcatIn(caseStudy, w);
    var st := WrapperState(None, [], []);
    for k := 0 to |configFiles|
      invariant WrapperLoop(caseStudy, configFiles[..k], w.load, concat) == Ok(st)
    {
      assert configFiles[..k + 1][..k] == configFiles[..k];
      var step := ConfigStep(st, caseStudy, configFiles[k], w);
      if step.Err? {
        WrapperLoopErr(caseStudy, configFiles, w.load, concat, k + 1);
        return Err(step.exc);
      }
      st := step.value;
    }
    assert configFiles[..|configFiles|] == configFiles;
    r := Ok(st);
  }

  /** The body of the configuration loop for one file. */
  method ConfigStep(st: WrapperState, caseStudy: string, config: string, w: World) returns (r: Result<WrapperState>)
    ensures r == WrapperStep(st, caseStudy, w.load(config), ConcatIn(caseStudy, w))
  {
    var cfg := w.load(config);
    if cfg.None? {
      return Err(AttributeError);
    }
    var alias := FindHabitatAlias(cfg.value);
    if alias.Err? {
      return Err(alias.exc);
    }
    var habitat := st.habitat;
    if alias.value.Some? {
      habitat := alias.value;
    }
    if habitat.None? {
      return Err(UnboundLocalError("habitat"));
    }
    var outputDir := PyPath.JoinAll("data", [caseStudy, "output", habitat.value]);
    var writes := AppendYear2Txt(w.walkOf(outputDir), w.read);
    var concat := ConcatFiles(w.walkOf(outputDir), ReadAfter(writes, w.read), outputDir, caseStudy);
    assert concat == ConcatIn(caseStudy, w)(outputDir);
    if concat.Err? {
      return Err(concat.exc);
    }
    r := Ok(WrapperState(habitat, st.outputDirs + [outputDir], st.csvPaths + [concat.value.csvPath]));
  }

  /** `data/<case_study>/output`. */
  function CaseStudyOutputDir(caseStudy: string): string {
    PyPath.Join(PyPath.Join("data", caseStudy), "output")
  }

  /** `os.path.join("data", cs, "output", h)` is `h` joined to `data/<cs>/output`. */
  lemma {:induction false} HabitatOutputDirShape(caseStudy: string, habitat: string)
    ensures HabitatOutputDir(caseStudy, habitat) == PyPath.Join(CaseStudyOutputDir(caseStudy), habitat)
  {
    var ps := [caseStudy, "output", habitat];
    assert ps[1..] == ["output", habitat] && ps[1..][1..] == [habitat] && ps[1..][1..][1..] == [];
    var d1 := PyPath.Join("data", caseStudy);
    var d2 := PyPath.Join(d1, "output");
    assert PyPath.JoinAll("data", ps) == PyPath.JoinAll(d1, ps[1..]);
    assert PyPath.JoinAll(d1, ps[1..]) == PyPath.JoinAll(d2, ps[1..][1..]);
  }

  /** For a plain case study name, its output folder is `data/<case_study>/output`. */
  lemma {:induction false} CaseStudyOutputDirShape(caseStudy: string)
    requires caseStudy != [] && '/' !in caseStudy
    ensures CaseStudyOutputDir(caseStudy) == "data/" + caseStudy + "/output"
  {
    var d1 := PyPath.Join("data", caseStudy);
    PyPath.JoinRelative("data", caseStudy);
    assert d1 == "data/" + caseStudy;
    assert d1[|d1| - 1] == caseStudy[|caseStudy| - 1];
    PyPath.JoinRelative(d1, "output");
  }

  /** The round trip of the habitat name: the combination step reads back, from the folder of
      the CSV the concatenation wrote for a habitat, that habitat's name, and writes the
      combined table to the case study's output folder. */
  lemma {:induction false} HabitatRoundTrip(caseStudy: string, habitat: string)
    requires habitat != [] && '/' !in habitat
    ensures HabitatOf(PyPath.Join(HabitatOutputDir(caseStudy, habitat), "concat_glob.csv")) == habitat
    ensures PyPath.Dirname(HabitatOutputDir(caseStudy, habitat)) == CaseStudyOutputDir(caseStudy)
  {
    HabitatOutputDirShape(caseStudy, habitat);
    CaseStudyOutputDirEnd(caseStudy);
    assert '/' !in "concat_glob.csv";
    PyPath.JoinTwiceParts(CaseStudyOutputDir(caseStudy), habitat, "concat_glob.csv");
  }

  /** The case study's output folder ends in `output`, not in a slash. */
  lemma {:induction false} CaseStudyOutputDirEnd(caseStudy: string)
    ensures CaseStudyOutputDir(caseStudy) != [] && CaseStudyOutputDir(caseStudy)[|CaseStudyOutputDir(caseStudy)| - 1] == 't'
  {
    var output := "output";
    assert output[0] != '/' && output[|output| - 1] == 't';
    PyPath.JoinLastChar(PyPath.Join("data", caseStudy), output);
  }

  /** One configuration file that goes through: it names or inherits a habitat, and adds that
      habitat's output folder and the CSV path the concatenation returned for it. */
  lemma {:induction false} StepFacts(st: WrapperState, caseStudy: string, config: Option<Dict<string, string>>,
                                     concat: string -> Result<ConcatOutput>)
    requires WrapperStep(st, caseStudy, config, concat).Ok?
    ensures var st' := WrapperStep(st, caseStudy, config, concat).value;
      && config.Some? && HabitatAlias(config.value).Ok?
      && st'.habitat == (if HabitatAlias(config.value).value.Some? then HabitatAlias(config.value).value else st.habitat)
      && st'.habitat.Some?
      && st'.outputDirs == st.outputDirs + [HabitatOutputDir(caseStudy, st'.habitat.value)]
      && concat(HabitatOutputDir(caseStudy, st'.habitat.value)).Ok?
      && st'.csvPaths == st.csvPaths + [concat(HabitatOutputDir(caseStudy, st'.habitat.value)).value.csvPath]
  {
  }

  /** The loop keeps one output folder and one CSV path per configuration file, the path being
      `concat_glob.csv` in that folder. */
  lemma {:induction false} WrapperLoopPaths(caseStudy: string, configs: seq<string>, load: string -> Option<Dict<string, string>>,
                                            concat: string -> Result<ConcatOutput>)
    requires WritesConcatCsv(concat) && WrapperLoop(caseStudy, configs, load, concat).Ok?
    ensures var st := WrapperLoop(caseStudy, configs, load, concat).value;
      |st.outputDirs| == |st.csvPaths| == |configs|
      && forall k :: 0 <= k < |configs| ==> st.csvPaths[k] == PyPath.Join(st.outputDirs[k], "concat_glob.csv")
    decreases |configs|
  {
    if configs != [] {
      var n := |configs| - 1;
      WrapperLoopPaths(caseStudy, configs[..n], load, concat);
      var st := WrapperLoop(caseStudy, configs[..n], load, concat).value;
      StepFacts(st, caseStudy, load(configs[n]), concat);
    }
  }

  /** A configuration that names its habitat sends that configuration's tables to the
      habitat's own output folder. */
  lemma {:induction false} WrapperLoopHabitat(caseStudy: string, configs: seq<string>, load: string -> Option<Dict<string, string>>,
                                              concat: string -> Result<ConcatOutput>, k: nat)
    requires WrapperLoop(caseStudy, configs, load, concat).Ok? && k < |configs|
    requires load(configs[k]).Some? && HabitatAlias(load(configs[k]).value).Ok?
    requires HabitatAlias(load(configs[k]).value).value.Some?
    ensures |WrapperLoop(caseStudy, configs, load, concat).value.outputDirs| == |configs|
    ensures WrapperLoop(caseStudy, configs, load, concat).value.outputDirs[k]
              == HabitatOutputDir(caseStudy, HabitatAlias(load(configs[k]).value).value.value)
    decreases |configs|
  {
    var n := |configs| - 1;
    var st := WrapperLoop(caseStudy, configs[..n], load, concat).value;
    StepFacts(st, caseStudy, load(configs[n]), concat);
    WrapperLoopCount(caseStudy, configs[..n], load, concat);
    if k < n {
      assert configs[..n][k] == configs[k];
      WrapperLoopHabitat(caseStudy, configs[..n], load, concat, k);
    }
  }

  lemma {:induction false} WrapperLoopCount(caseStudy: string, configs: seq<string>, load: string -> Option<Dict<string, string>>,
                                            concat: string -> Result<ConcatOutput>)
    requires WrapperLoop(caseStudy, configs, load, concat).Ok?
    ensures |WrapperLoop(caseStudy, configs, load, concat).value.outputDirs| == |configs|
    decreases |configs|
  {
    if configs != [] {
      var n := |configs| - 1;
      WrapperLoopCount(caseStudy, configs[..n], load, concat);
      var st := WrapperLoop(caseStudy, configs[..n], load, concat).value;
      StepFacts(st, caseStudy, load(configs[n]), concat);
    }
  }

  /** The first configuration that raises ends the loop with its exception. */
  lemma {:induction false} WrapperLoopErr(caseStudy: string, configs: seq<string>, load: string -> Option<Dict<string, string>>,
                                          concat: string -> Result<ConcatOutput>, n: nat)
    requires n <= |configs| && WrapperLoop(caseStudy, configs[..n], load, concat).Err?
    ensures WrapperLoop(caseStudy, configs, load, concat) == WrapperLoop(caseStudy, configs[..n], load, concat)
    decreases |configs| - n
  {
    if n < |configs| {
      var m := |configs| - 1;
      assert configs[..m][..n] == configs[..n];
      WrapperLoopErr(caseStudy, configs[..m], load, concat, n);
    } else {
      assert configs[..n] == configs;
    }
  }

  /** The last output folder of the loop is that of the habitat last in force. */
  lemma {:induction false} WrapperLastDir(caseStudy: string, configs: seq<string>, load: string -> Option<Dict<string, string>>,
                                          concat: string -> Result<ConcatOutput>)
    requires WrapperLoop(caseStudy, configs, load, concat).Ok? && configs != []
    ensures var st := WrapperLoop(caseStudy, configs, load, concat).value;
      st.habitat.Some? && st.outputDirs != [] && st.outputDirs[|st.outputDirs| - 1] == HabitatOutputDir(caseStudy, st.habitat.value)
  {
    var n := |configs| - 1;
    var st := WrapperLoop(caseStudy, configs[..n], load, concat).value;
    StepFacts(st, caseStudy, load(configs[n]), concat);
  }

  /** A first configuration without an alias leaves `habitat` unbound. */
  lemma {:induction false} FirstConfigWithoutAlias(caseStudy: string, configs: seq<string>,
                                                   load: string -> Option<Dict<string, string>>,
                                                   concat: string -> Result<ConcatOutput>)
    requires configs != [] && load(configs[0]) == Some([])
    ensures WrapperLoop(caseStudy, configs, load, concat) == Err(UnboundLocalError("habitat"))
    decreases |configs|
  {
    if |configs| > 1 {
      var n := |configs| - 1;
      assert configs[..n][0] == configs[0];
      FirstConfigWithoutAlias(caseStudy, configs[..n], load, concat);
    }
  }

  /** The combination step of `glob_wrapper` works on the CSV paths of the loop and writes to
      the parent of the last output folder, `data/<case_study>/output` when the last habitat
      is a plain name. */
  lemma {:induction false} WrapperCombines(caseStudy: string, configs: seq<string>, w: World)
    requires configs != [] && WrapperLoop(caseStudy, configs, w.load, ConcatIn(caseStudy, w)).Ok?
    ensures var st := WrapperLoop(caseStudy, configs, w.load, ConcatIn(caseStudy, w)).value;
      && st.habitat.Some? && st.outputDirs != []
      && CombineDir(st) == PyPath.Dirname(HabitatOutputDir(caseStudy, st.habitat.value))
      && (st.habitat.value != [] && '/' !in st.habitat.value ==> CombineDir(st) == CaseStudyOutputDir(caseStudy))
  {
    var st := WrapperLoop(caseStudy, configs, w.load, ConcatIn(caseStudy, w)).value;
    WrapperLastDir(caseStudy, configs, w.load, ConcatIn(caseStudy, w));
    if st.habitat.value != [] && '/' !in st.habitat.value {
      HabitatRoundTrip(caseStudy, st.habitat.value);
    }
  }

  /** The combination step labels the rows of the CSV written for the `k`-th configuration
      with that configuration's habitat, when it names one with a plain name. */
  lemma {:induction false} WrapperHabitats(caseStudy: string, configs: seq<string>, w: World, k: nat)
    requires WrapperLoop(caseStudy, configs, w.load, ConcatIn(caseStudy, w)).Ok? && k < |configs|
    requires w.load(configs[k]).Some? && HabitatAlias(w.load(configs[k]).value).Ok?
    requires HabitatAlias(w.load(configs[k]).value).value.Some?
    ensures var habitat := HabitatAlias(w.load(configs[k]).value).value.value;
      var st := WrapperLoop(caseStudy, configs, w.load, ConcatIn(caseStudy, w)).value;
      habitat != [] && '/' !in habitat ==> k < |st.csvPaths| && Habitats(st.csvPaths)[k] == habitat
  {
    var concat := ConcatIn(caseStudy, w);
    var habitat := HabitatAlias(w.load(configs[k]).value).value.value;
    ConcatInWritesCsv(caseStudy, w);
    WrapperLoopPaths(caseStudy, configs, w.load, concat);
    WrapperLoopHabitat(caseStudy, configs, w.load, concat, k);
    if habitat != [] && '/' !in habitat {
      HabitatRoundTrip(caseStudy, habitat);
    }
  }
}
