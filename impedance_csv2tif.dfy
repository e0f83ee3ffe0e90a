/** `impedance_csv2tif.py`: a land-use raster reclassified into an impedance raster through a
    CSV table of `lulc` codes, and the file names of the impedance and affinity rasters. */
module ImpedanceCsv2Tif {
  import opened Wrappers
  import opened PyStr
  import opened PyNum
  import opened OrderedDict
  import opened Seqs
  import PyPath

  // ----- the reclassification table -----

  /** A row of the reclassification CSV: its `lulc`, `type` and `impedance` cells. */
  datatype Row = Row(lulc: string, kind: string, impedance: string)

  /** An impedance: a Python `int` in integer mode, a `float` in decimal mode. */
  datatype Impedance = IntImp(i: int) | FloatImp(r: real)

  /** The impedance of a row whose impedance cell is empty, in integer mode. */
  const DefaultImpedance: int := 666

  /** The codes mapped to nodata whatever the table says, in the order they are assigned. */
  const ForcedNodataCodes: seq<int> := [-2147483647, -32768, 0]

  /** Decimal mode: some impedance cell contains a `.`. */
  predicate HasDecimalValues(rows: seq<Row>) {
    exists k :: 0 <= k < |rows| && '.' in rows[k].impedance
  }

  function DataType(dec: bool): string {
    if dec then "Float32" else "Int32"
  }

  /** A `type` cell that makes the row add nothing: empty, or `null` or `none` once stripped
      and lowercased. */
  predicate SkippedType(kind: string) {
    kind == "" || Lower(Strip(kind)) == "null" || Lower(Strip(kind)) == "none"
  }

  /** What one row does to the table: nothing, an entry, or a ValueError that is logged. */
  datatype RowOutcome = Skip | Entry(code: int, value: Impedance) | Invalid

  /** The impedance cell read in the table's mode: `float` in decimal mode, otherwise `int`,
      or the default when the stripped cell is empty. */
  function ImpedanceValue(cell: string, dec: bool): (r: Result<Impedance>)
    ensures r.Ok? ==> r.value.FloatImp? == dec
    ensures Strip(cell) == [] ==> if dec then r.Err? else r == Ok(IntImp(DefaultImpedance))
  {
    var s := Strip(cell);
    if dec then
      match ParseFloat(s) case Ok(r) => Ok(FloatImp(r)) case Err(e) => Err(e)
    else if s != "" then
      match ParseInt(s) case Ok(n) => Ok(IntImp(n)) case Err(e) => Err(e)
    else Ok(IntImp(DefaultImpedance))
  }

  /** The body of the loop over the rows, with its `try`: the row is skipped, adds the entry
      `int(lulc) -> impedance`, or raises a ValueError that is caught. */
  function RowOutcomeOf(row: Row, dec: bool): (o: RowOutcome)
    ensures SkippedType(row.kind) <==> o.Skip?
    ensures o.Entry? ==> ParseInt(row.lulc) == Ok(o.code) && ImpedanceValue(row.impedance, dec) == Ok(o.value)
    ensures o.Invalid? <==> !SkippedType(row.kind) && (ImpedanceValue(row.impedance, dec).Err? || ParseInt(row.lulc).Err?)
  {
    if SkippedType(row.kind) then Skip
    else
      match ImpedanceValue(row.impedance, dec)
      case Err(_) => Invalid
      case Ok(v) =>
        match ParseInt(row.lulc)
        case Err(_) => Invalid
        case Ok(c) => Entry(c, v)
  }

  function Apply(t: Dict<int, Impedance>, o: RowOutcome): Dict<int, Impedance> {
    match o
    case Entry(c, v) => Put(t, c, v)
    case _ => t
  }

  /** The dictionary the row outcomes `os` build, one `reclass_dict[code] = value` after the
      other. */
  function Build(os: seq<RowOutcome>): Dict<int, Impedance>
    decreases |os|
  {
    if os == [] then [] else Apply(Build(os[..|os| - 1]), os[|os| - 1])
  }

  function Outcomes(rows: seq<Row>, dec: bool): (os: seq<RowOutcome>)
    ensures |os| == |rows| && forall k :: 0 <= k < |rows| ==> os[k] == RowOutcomeOf(rows[k], dec)
  {
    seq(|rows|, k requires 0 <= k < |rows| => RowOutcomeOf(rows[k], dec))
  }

  /** The table the loop builds from `rows`, before the nodata codes are forced. */
  function TableOf(rows: seq<Row>, dec: bool): Dict<int, Impedance> {
    Build(Outcomes(rows, dec))
  }

  function InvalidRow(row: Row, dec: bool): seq<Row> {
    if RowOutcomeOf(row, dec).Invalid? then [row] else []
  }

  /** The rows whose errors are logged, in table order. */
  function InvalidRows(rows: seq<Row>, dec: bool): seq<Row> {
    FlatMap(rows, InvalidOf(dec))
  }

  /** `InvalidRow` in one mode, as a function of the row. */
  function InvalidOf(dec: bool): Row -> seq<Row> {
    r => InvalidRow(r, dec)
  }

  /** One more row logs that row exactly when it is invalid. */
  lemma InvalidRowsSnoc(rows: seq<Row>, row: Row, dec: bool)
    ensures InvalidRows(rows + [row], dec) == InvalidRows(rows, dec) + InvalidRow(row, dec)
  {
    FlatMapStep(rows + [row], |rows|, InvalidOf(dec));
    assert (rows + [row])[..|rows|] == rows;
    assert (rows + [row])[..|rows| + 1] == rows + [row];
  }

  /** The nodata value in the table's mode. */
  function NodataValue(outNodata: int, dec: bool): Impedance {
    if dec then FloatImp(outNodata as real) else IntImp(outNodata)
  }

  /** `reclass_dict.update({-2147483647: nd, -32768: nd, 0: nd})`. */
  function WithForcedNodata(t: Dict<int, Impedance>, nd: Impedance): Dict<int, Impedance> {
    Put(Put(Put(t, ForcedNodataCodes[0], nd), ForcedNodataCodes[1], nd), ForcedNodataCodes[2], nd)
  }

  /** The table construction of `reclassify_lulc2impedance`: the mode, the data type, the
      dictionary and the rows whose errors are logged. */
  method ReclassTable(rows: seq<Row>, outNodata: int)
    returns (table: Dict<int, Impedance>, dataType: string, dec: bool, invalid: seq<Row>)
    ensures dec == HasDecimalValues(rows)
    ensures dataType == DataType(dec)
    ensures table == WithForcedNodata(TableOf(rows, dec), NodataValue(outNodata, dec))
    ensures invalid == InvalidRows(rows, dec)
  {
    dec := HasDecimalValues(rows);
    dataType := if dec then "Float32" else "Int32";
    table, invalid := [], [];
    var i := 0;
    while i < |rows|
      invariant 0 <= i <= |rows|
      invariant table == TableOf(rows[..i], dec)
      invariant invalid == InvalidRows(rows[..i], dec)
    {
      TableStep(rows, i, dec);
      FlatMapStep(rows, i, InvalidOf(dec));
      var o := RowOutcomeOf(rows[i], dec);
      if o.Entry? {
        table := Put(table, o.code, o.value);
      } else if o.Invalid? {
        invalid := invalid + [rows[i]];
      }
      i := i + 1;
    }
    assert rows[..i] == rows;
    var nd := NodataValue(outNodata, dec);
    table := Put(table, -2147483647, nd);
    table := Put(table, -32768, nd);
    table := Put(table, 0, nd);
  }

  lemma {:induction false} TableStep(rows: seq<Row>, n: nat, dec: bool)
    requires n < |rows|
    ensures TableOf(rows[..n + 1], dec) == Apply(TableOf(rows[..n], dec), RowOutcomeOf(rows[n], dec))
  {
    var os := Outcomes(rows[..n + 1], dec);
    assert os[..n] == Outcomes(rows[..n], dec);
  }

  lemma {:induction false} TableSnoc(rows: seq<Row>, row: Row, dec: bool)
    ensures TableOf(rows + [row], dec) == Apply(TableOf(rows, dec), RowOutcomeOf(row, dec))
  {
    var all := rows + [row];
    TableStep(all, |rows|, dec);
    assert all[..|rows|] == rows && all[..|rows| + 1] == all;
  }

  /** The outcome assigns code `c`. */
  predicate Assigns(o: RowOutcome, c: int) {
    o.Entry? && o.code == c
  }

  /** The row assigns code `c`. */
  predicate EntryFor(row: Row, dec: bool, c: int) {
    Assigns(RowOutcomeOf(row, dec), c)
  }

  /** Last write wins: a code is in the table exactly when some row assigns it, and its value
      is that of the last row that does. */
  lemma {:induction false} TableLastWins(rows: seq<Row>, dec: bool, c: int)
    ensures Get(TableOf(rows, dec), c).None? <==> forall k :: 0 <= k < |rows| ==> !EntryFor(rows[k], dec, c)
    ensures forall k :: 0 <= k < |rows| && EntryFor(rows[k], dec, c) && (forall j :: k < j < |rows| ==> !EntryFor(rows[j], dec, c))
                        ==> Get(TableOf(rows, dec), c) == Some(RowOutcomeOf(rows[k], dec).value)
  {
    var os := Outcomes(rows, dec);
    BuildLastWins(os, c);
    assert forall k :: 0 <= k < |rows| ==> (EntryFor(rows[k], dec, c) <==> Assigns(os[k], c));
  }

  /** Last write wins on the outcomes. */
  lemma {:induction false} BuildLastWins(os: seq<RowOutcome>, c: int)
    ensures Get(Build(os), c).None? <==> forall k :: 0 <= k < |os| ==> !Assigns(os[k], c)
    ensures forall k :: 0 <= k < |os| && Assigns(os[k], c) && (forall j :: k < j < |os| ==> !Assigns(os[j], c))
                        ==> Get(Build(os), c) == Some(os[k].value)
    decreases |os|
  {
    if os != [] {
      var n := |os| - 1;
      var init, o := os[..n], os[n];
      BuildLastWins(init, c);
      forall k | 0 <= k < n ensures os[k] == init[k] { }
      if Assigns(o, c) {
        PutGet(Build(init), c, o.value, c);
        forall k | 0 <= k < |os| && Assigns(os[k], c) && (forall j :: k < j < |os| ==> !Assigns(os[j], c))
          ensures k == n
        {
        }
      } else {
        if o.Entry? {
          PutGet(Build(init), o.code, o.value, c);
        }
        assert Get(Build(os), c) == Get(Build(init), c);
        forall k | 0 <= k < |os| && Assigns(os[k], c) && (forall j :: k < j < |os| ==> !Assigns(os[j], c))
          ensures Get(Build(os), c) == Some(os[k].value)
        {
          assert k < n && init[k] == os[k];
          forall j | k < j < |init| ensures !Assigns(init[j], c) {
            assert init[j] == os[j];
          }
        }
      }
    }
  }

  /** A skipped row adds no entry and logs nothing. */
  lemma {:induction false} SkippedRowAddsNothing(rows: seq<Row>, row: Row, dec: bool)
    requires SkippedType(row.kind)
    ensures TableOf(rows + [row], dec) == TableOf(rows, dec)
    ensures InvalidRows(rows + [row], dec) == InvalidRows(rows, dec)
  {
    TableSnoc(rows, row, dec);
    InvalidRowsSnoc(rows, row, dec);
  }

  /** An empty impedance cell: 666 in integer mode; in decimal mode `float('')` raises, so
      the row is logged and adds nothing. */
  lemma {:induction false} EmptyImpedance(rows: seq<Row>, row: Row, c: int)
    requires !SkippedType(row.kind) && Strip(row.impedance) == [] && ParseInt(row.lulc) == Ok(c)
    ensures Get(TableOf(rows + [row], false), c) == Some(IntImp(DefaultImpedance))
    ensures TableOf(rows + [row], true) == TableOf(rows, true)
    ensures InvalidRows(rows + [row], true) == InvalidRows(rows, true) + [row]
  {
    EmptyImpedanceOutcomes(row, c);
    TableSnoc(rows, row, false);
    TableSnoc(rows, row, true);
    PutGet(TableOf(rows, false), c, IntImp(DefaultImpedance), c);
    InvalidRowsSnoc(rows, row, true);
  }

  /** The outcomes of a row with an empty impedance cell in the two modes. */
  lemma EmptyImpedanceOutcomes(row: Row, c: int)
    requires !SkippedType(row.kind) && Strip(row.impedance) == [] && ParseInt(row.lulc) == Ok(c)
    ensures RowOutcomeOf(row, false) == Entry(c, IntImp(DefaultImpedance))
    ensures RowOutcomeOf(row, true) == Invalid
  {
    assert Strip(Strip(row.impedance)) == [];
  }

  /** The forced codes map to nodata, every other code keeps its entry. */
  lemma {:induction false} ForcedNodataWins(t: Dict<int, Impedance>, nd: Impedance, c: int)
    ensures Get(WithForcedNodata(t, nd), c) == if c in ForcedNodataCodes then Some(nd) else Get(t, c)
  {
    var t1 := Put(t, ForcedNodataCodes[0], nd);
    var t2 := Put(t1, ForcedNodataCodes[1], nd);
    PutGet(t, ForcedNodataCodes[0], nd, c);
    PutGet(t1, ForcedNodataCodes[1], nd, c);
    PutGet(t2, ForcedNodataCodes[2], nd, c);
  }

  /** Every value of the table has the mode's type: all `float`s in decimal mode, all `int`s
      otherwise, which is the raster data type chosen. */
  lemma {:induction false} TableValuesInMode(rows: seq<Row>, dec: bool, e: (int, Impedance))
    requires e in TableOf(rows, dec)
    ensures e.1.FloatImp? == dec
  {
    var os := Outcomes(rows, dec);
    forall k | 0 <= k < |os| && os[k].Entry? ensures os[k].value.FloatImp? == dec {
      assert os[k] == RowOutcomeOf(rows[k], dec);
    }
    BuildValuesInMode(os, dec, e);
  }

  lemma {:induction false} BuildValuesInMode(os: seq<RowOutcome>, dec: bool, e: (int, Impedance))
    requires forall k :: 0 <= k < |os| && os[k].Entry? ==> os[k].value.FloatImp? == dec
    requires e in Build(os)
    ensures e.1.FloatImp? == dec
    decreases |os|
  {
    var n := |os| - 1;
    var t := Build(os[..n]);
    assert forall k :: 0 <= k < n ==> os[..n][k] == os[k];
    if os[n].Entry? {
      PutItems(t, os[n].code, os[n].value, e);
      if e in t {
        BuildValuesInMode(os[..n], dec, e);
      }
    } else {
      BuildValuesInMode(os[..n], dec, e);
    }
  }

  lemma {:induction false} ForcedValuesInMode(t: Dict<int, Impedance>, rows: seq<Row>, outNodata: int, dec: bool,
                                              e: (int, Impedance))
    requires t == TableOf(rows, dec) && e in WithForcedNodata(t, NodataValue(outNodata, dec))
    ensures e.1.FloatImp? == dec
  {
    var nd := NodataValue(outNodata, dec);
    var t1 := Put(t, ForcedNodataCodes[0], nd);
    var t2 := Put(t1, ForcedNodataCodes[1], nd);
    PutItems(t2, ForcedNodataCodes[2], nd, e);
    if e in t2 {
      PutItems(t1, ForcedNodataCodes[1], nd, e);
      if e in t1 {
        PutItems(t, ForcedNodataCodes[0], nd, e);
        if e in t {
          TableValuesInMode(rows, dec, e);
        }
      }
    }
  }

  // ----- the pixel mapping -----

  /** `reclass_dict.get(code)` where `code` is a key, `out_nodata` elsewhere. */
  function Lookup(table: Dict<int, Impedance>, nodata: Impedance, code: int): Impedance {
    match Get(table, code) case Some(v) => v case None => nodata
  }

  /** The `np.where(np.isin(...), vectorize(get)(...), out_nodata)` of the band: same shape,
      the table value where the code is a key, nodata elsewhere. */
  function Reclassify(band: seq<seq<int>>, table: Dict<int, Impedance>, nodata: Impedance)
    : (out: seq<seq<Impedance>>)
    ensures |out| == |band|
    ensures forall i :: 0 <= i < |band| ==> |out[i]| == |band[i]|
    ensures forall i, j :: 0 <= i < |band| && 0 <= j < |band[i]| ==>
              (band[i][j] in Keys(table) ==> (band[i][j], out[i][j]) in table)
              && (band[i][j] !in Keys(table) ==> out[i][j] == nodata)
  {
    seq(|band|, i requires 0 <= i < |band| =>
      seq(|band[i]|, j requires 0 <= j < |band[i]| => Lookup(table, nodata, band[i][j])))
  }

  /** A band code the table does not have. */
  predicate HasMissingCode(band: seq<seq<int>>, table: Dict<int, Impedance>) {
    exists i, j :: 0 <= i < |band| && 0 <= j < |band[i]| && band[i][j] !in Keys(table)
  }

  /** The mapping as written: `np.vectorize(reclass_dict.get, otypes=[int])` evaluates `get`
      on every pixel, and the `None` it returns for a missing code cannot be stored in an
      integer array, so `np.where` is never reached. In decimal mode `None` becomes NaN and is
      then replaced by nodata. */
  function ReclassifyAsWritten(band: seq<seq<int>>, table: Dict<int, Impedance>, nodata: Impedance, dec: bool)
    : (r: Result<seq<seq<Impedance>>>)
    ensures r.Err? <==> !dec && HasMissingCode(band, table)
    ensures r.Ok? ==> r.value == Reclassify(band, table, nodata)
  {
    if !dec && HasMissingCode(band, table) then Err(TypeError) else Ok(Reclassify(band, table, nodata))
  }

  /** A land-use code absent from an integer table crashes the script instead of becoming
      nodata. */
  lemma {:induction false} IntegerModeMissingCodeRaises()
    ensures ReclassifyAsWritten([[7]], [(1, IntImp(5))], IntImp(9999), false) == Err(TypeError)
    ensures Reclassify([[7]], [(1, IntImp(5))], IntImp(9999)) == [[IntImp(9999)]]
  {
    var band: seq<seq<int>>, table := [[7]], [(1, IntImp(5))];
    assert band[0][0] !in Keys(table);
    assert HasMissingCode(band, table);
    var out := Reclassify(band, table, IntImp(9999));
    assert out[0] == [IntImp(9999)];
  }

  /** `reclassify_lulc2impedance` without the raster I/O: the band reclassified through the
      table built from the rows. A forced code becomes nodata, any other code the value of the
      last row assigning it, or nodata when no row does; the output has the band's shape. */
  method ReclassifyLulc2Impedance(rows: seq<Row>, band: seq<seq<int>>, outNodata: int)
    returns (output: seq<seq<Impedance>>, dataType: string, dec: bool)
    ensures dec == HasDecimalValues(rows) && dataType == DataType(dec)
    ensures |output| == |band| && forall i :: 0 <= i < |band| ==> |output[i]| == |band[i]|
    ensures forall i, j :: 0 <= i < |band| && 0 <= j < |band[i]| ==>
              output[i][j] == if band[i][j] in ForcedNodataCodes then NodataValue(outNodata, dec)
                              else Lookup(TableOf(rows, dec), NodataValue(outNodata, dec), band[i][j])
  {
    var table, invalid;
    table, dataType, dec, invalid := ReclassTable(rows, outNodata);
    var nd := NodataValue(outNodata, dec);
    output := Reclassify(band, table, nd);
    forall i, j | 0 <= i < |band| && 0 <= j < |band[i]|
      ensures output[i][j] == if band[i][j] in ForcedNodataCodes then nd else Lookup(TableOf(rows, dec), nd, band[i][j])
    {
      ForcedNodataWins(TableOf(rows, dec), nd, band[i][j]);
      assert output[i][j] == Lookup(table, nd, band[i][j]);
    }
  }

  // ----- the affinity values -----

  /** `np.where((data != out_nodata) & (data != 0), 1 / data, out_nodata)` on one pixel, over
      exact numbers. */
  function AffinityValue(v: real, outNodata: real): (r: real)
    ensures (v == outNodata || v == 0.0) ==> r == outNodata
    ensures (v != outNodata && v != 0.0) ==> r * v == 1.0
  {
    if v != outNodata && v != 0.0 then 1.0 / v else outNodata
  }

  // ----- file names -----

  function ImpedanceFolder(caseStudy: string, habitat: string): string {
    "data/" + caseStudy + "/input/" + habitat + "_impedance"
  }

  /** `os.path.join(impedance_folder, f"impedance_{tiff_file}")`. */
  function ImpedancePath(caseStudy: string, habitat: string, tiff: string): string {
    PyPath.Join(ImpedanceFolder(caseStudy, habitat), "impedance_" + tiff)
  }

  /** `os.path.splitext(path)[0] + '_compr.tif'`. */
  function CompressedPath(p: string): string {
    PyPath.SplitExt(p).0 + "_compr.tif"
  }

  /** `impedance_raster.replace('impedance', 'affinity')`. */
  function AffinityPath(p: string): string {
    Replace(p, "impedance", "affinity")
  }

  /** The impedance raster lies in the habitat's impedance folder and is named after the
      land-use file. */
  lemma {:induction false} ImpedancePathShape(caseStudy: string, habitat: string, tiff: string)
    requires '/' !in tiff
    ensures ImpedancePath(caseStudy, habitat, tiff) == ImpedanceFolder(caseStudy, habitat) + "/" + ("impedance_" + tiff)
    ensures PyPath.Basename(ImpedancePath(caseStudy, habitat, tiff)) == "impedance_" + tiff
    ensures PyPath.Dirname(ImpedancePath(caseStudy, habitat, tiff)) == ImpedanceFolder(caseStudy, habitat)
  {
    var folder, name := ImpedanceFolder(caseStudy, habitat), "impedance_" + tiff;
    assert folder[|folder| - 1] == 'e';
    assert name[0] == 'i';
    PyPath.JoinRelative(folder, name);
    PyPath.BasenameOfJoin(folder, name);
    PyPath.DirnameOfJoin(folder, name);
  }

  /** The compressed copy of `impedance_<stem>.tif` is `impedance_<stem>_compr.tif` beside it. */
  lemma {:induction false} CompressedPathShape(caseStudy: string, habitat: string, stem: string)
    requires '/' !in stem
    ensures CompressedPath(ImpedancePath(caseStudy, habitat, stem + ".tif"))
              == ImpedanceFolder(caseStudy, habitat) + "/" + ("impedance_" + stem) + "_compr.tif"
  {
    var folder := ImpedanceFolder(caseStudy, habitat);
    assert folder[|folder| - 1] == 'e';
    assert "impedance_"[0] == 'i' && '/' !in "impedance_";
    CompressedOfPrefixed(folder, "impedance_", stem);
  }

  /** Joining `<prefix><stem>.tif` to a folder and taking its compressed copy gives
      `<folder>/<prefix><stem>_compr.tif`. */
  lemma {:induction false} CompressedOfPrefixed(folder: string, prefix: string, stem: string)
    requires folder != [] && folder[|folder| - 1] != '/'
    requires prefix != [] && prefix[0] != '.' && '/' !in prefix && '/' !in stem
    ensures CompressedPath(PyPath.Join(folder, prefix + (stem + ".tif")))
              == folder + "/" + (prefix + stem) + "_compr.tif"
  {
    var name, tiff := prefix + stem, stem + ".tif";
    assert name[0] == prefix[0];
    assert forall i :: 0 <= i < |name| ==> name[i] == (if i < |prefix| then prefix[i] else stem[i - |prefix|]);
    assert prefix + tiff == name + ".tif";
    assert (prefix + tiff)[0] == prefix[0];
    PyPath.JoinRelative(folder, prefix + tiff);
    assert folder + "/" + (prefix + tiff) == folder + "/" + name + ".tif";
    CompressedOfTif(folder, name);
  }

  /** The compressed copy of `<folder>/<name>.tif` is `<folder>/<name>_compr.tif`. */
  lemma {:induction false} CompressedOfTif(folder: string, name: string)
    requires name != [] && name[0] != '.' && '/' !in name
    ensures CompressedPath(folder + "/" + name + ".tif") == folder + "/" + name + "_compr.tif"
  {
    var q := folder + "/" + name;
    var j := |folder| + 1;
    assert q[j] == name[0];
    assert q[j..] == name;
    assert folder + "/" + name + ".tif" == q + ".tif";
    PyPath.SplitExtOfSuffix(q, ".tif", j);
  }

  /** With case study, habitat and file name free of `impedance`, the affinity raster is
      `affinity_<file>` in the habitat's `_affinity` folder: both the folder's and the file's
      `impedance` are replaced. */
  lemma {:induction false} AffinityPathShape(caseStudy: string, habitat: string, tiff: string)
    requires '/' !in tiff
    requires !Contains(caseStudy, "impedance") && !Contains(habitat, "impedance") && !Contains(tiff, "impedance")
    ensures AffinityPath(ImpedancePath(caseStudy, habitat, tiff))
              == "data/" + caseStudy + "/input/" + habitat + "_affinity/affinity_" + tiff
  {
    ImpedancePathShape(caseStudy, habitat, tiff);
    var x := FolderStemReplaced(caseStudy, habitat);
    ReplaceAbsent(tiff, "impedance", "affinity");
    AffinityOfParts(x, tiff);
  }

  /** The two `impedance`s around the separator are replaced, the rest is kept. */
  lemma {:induction false} AffinityOfParts(x: string, tiff: string)
    requires Replace(x, "impedance", "affinity") == x && Replace(tiff, "impedance", "affinity") == tiff
    ensures Replace(x + "_impedance" + "/" + ("impedance_" + tiff), "impedance", "affinity")
              == x + "_affinity/affinity_" + tiff
  {
    var folder, name := x + "_impedance", "impedance_" + tiff;
    NameReplaced(tiff);
    FolderReplaced(x);
    ReplaceAroundChar(folder, '/', name, "impedance", "affinity");
    var u, v := "_affinity", "affinity_";
    Regroup(x, u, v, tiff);
    assert u + ['/'] + v == "_affinity/affinity_";
  }

  lemma {:induction false} Regroup(x: string, u: string, v: string, t: string)
    ensures (x + u) + ['/'] + (v + t) == x + (u + ['/'] + v) + t
  {
    CatAssoc(x, u, ['/']);
    CatAssoc(x + (u + ['/']), v, t);
    CatAssoc(x, u + ['/'], v);
  }

  lemma {:induction false} NameReplaced(tiff: string)
    requires Replace(tiff, "impedance", "affinity") == tiff
    ensures Replace("impedance_" + tiff, "impedance", "affinity") == "affinity_" + tiff
  {
    var pat, rep := "impedance", "affinity";
    ReplaceWhole("", pat, rep);
    assert pat + "" == pat && rep + "" == rep;
    assert "impedance_" == pat + ['_'];
    ReplaceAroundChar(pat, '_', tiff, pat, rep);
    assert rep + ['_'] == "affinity_";
  }

  lemma {:induction false} FolderReplaced(x: string)
    requires Replace(x, "impedance", "affinity") == x
    ensures Replace(x + "_impedance", "impedance", "affinity") == x + "_affinity"
  {
    var pat, rep := "impedance", "affinity";
    ReplaceWhole("", pat, rep);
    assert pat + "" == pat && rep + "" == rep;
    assert "_impedance" == ['_'] + pat;
    CatAssoc(x, ['_'], pat);
    ReplaceAroundChar(x, '_', pat, pat, rep);
    CatAssoc(x, ['_'], rep);
    assert ['_'] + rep == "_affinity";
  }

  /** The folder's text before `_impedance` comes out of the replacement unchanged. */
  lemma {:induction false} FolderStemReplaced(caseStudy: string, habitat: string) returns (x: string)
    requires !Contains(caseStudy, "impedance") && !Contains(habitat, "impedance")
    ensures x == "data/" + caseStudy + "/input/" + habitat
    ensures Replace(x, "impedance", "affinity") == x
  {
    var pat, rep := "impedance", "affinity";
    var z := "data/" + caseStudy;
    var y := z + "/input";
    x := y + "/" + habitat;
    assert Replace(z, pat, rep) == z by {
      assert z == "data" + ['/'] + caseStudy;
      ReplaceAroundChar("data", '/', caseStudy, pat, rep);
      ReplaceAbsent(caseStudy, pat, rep);
    }
    assert Replace(y, pat, rep) == y by {
      assert y == z + ['/'] + "input";
      ReplaceAroundChar(z, '/', "input", pat, rep);
    }
    assert Replace(x, pat, rep) == x by {
      assert x == y + ['/'] + habitat;
      ReplaceAroundChar(y, '/', habitat, pat, rep);
      ReplaceAbsent(habitat, pat, rep);
    }
    assert x == "data/" + caseStudy + "/input/" + habitat;
  }
}
