/** The merge of land-use rasters with protected-area rasters (`LulcPaRasterSum`): the three
    working folders made at construction, the temporary copies `assign_no_data_values` asks
    `gdal_translate` for, and the planning loop of `combine_pa_lulc`, which derives a year
    from each temporary file name, picks the protected-area raster for it and asks
    `gdal_calc.py` for the sum. The machine is the object `Host`: the paths that exist on it
    and the shell commands it was given, in order. */
module LulcPaRasterSum {
  import opened Wrappers
  import opened PyStr
  import PyPath

  /** The shell commands the class runs. */
  datatype Command =
    | Translate(source: string, target: string)
    | Calc(a: string, b: string, outfile: string)
    | RemoveTree(path: string)

  /** The machine: existing files and folders, and the commands run so far. */
  class Host {
    var files: set<string>
    var dirs: set<string>
    var commands: seq<Command>

    constructor (files0: set<string>, dirs0: set<string>)
      ensures files == files0 && dirs == dirs0 && commands == []
    {
      files := files0;
      dirs := dirs0;
      commands := [];
    }

    /** `os.path.exists(p)`. */
    predicate Exists(p: string)
      reads this
    {
      p in Present()
    }

    /** Every path that exists. */
    function Present(): set<string>
      reads this
    {
      files + dirs
    }
  }

  /** `make_directory_if_not_exists(path)`: the path comes back unchanged, and a folder is made
      only when nothing exists there. */
  method MakeDirectoryIfNotExists(host: Host, path: string) returns (r: string)
    modifies host
    ensures r == path
    ensures host.files == old(host.files) && host.commands == old(host.commands)
    ensures host.dirs == MadeDirs(old(host.files), old(host.dirs), path)
  {
    if !host.Exists(path) {
      host.dirs := host.dirs + {path};
    }
    r := path;
  }

  /** The folders after `make_directory_if_not_exists(path)`. */
  function MadeDirs(files: set<string>, dirs: set<string>, path: string): set<string> {
    if path in files || path in dirs then dirs else dirs + {path}
  }

  /** After `make_directory_if_not_exists` the path exists, nothing else was made, and a second
      call changes nothing. */
  lemma MadeDirsExists(files: set<string>, dirs: set<string>, path: string)
    ensures path in files + MadeDirs(files, dirs, path)
    ensures MadeDirs(files, dirs, path) - dirs <= {path}
    ensures path in files ==> MadeDirs(files, dirs, path) == dirs
    ensures MadeDirs(files, MadeDirs(files, dirs, path), path) == MadeDirs(files, dirs, path)
  {
  }

  /** A working folder of the class: `<root>/protected_areas/<name>`. */
  function WorkDir(root: string, name: string): string {
    PyPath.JoinAll(root, ["protected_areas", name])
  }

  /** The name of the temporary copy of a land-use raster: every `.tif` becomes `_temp.tif`. */
  function TempName(file: string): string {
    Replace(file, ".tif", "_temp.tif")
  }

  /** `name.split("_")[-2].split(".")[0]`: the year of a temporary file name; a name without
      `_` has no second-to-last piece, and indexing it raises an IndexError. */
  function YearOf(name: string): (r: Result<string>)
    ensures r.Err? <==> '_' !in name
    ensures r.Err? ==> r.exc == IndexError
    ensures r.Ok? ==> '_' !in r.value && '.' !in r.value
  {
    var parts := Split(name, "_");
    SplitLength(name);
    if |parts| < 2 then Err(IndexError)
    else
      var piece := parts[|parts| - 2];
      SplitPiecesLackSep(name, "_");
      HeadPieceChar(piece, '.');
      assert !Contains(piece, "_");
      NotContainedCharAbsent(piece, '_');
      assert "." == ['.'];
      var y := Split(piece, ".")[0];
      assert '_' !in y by {
        if y != piece {
          assert StartsWith(piece, y + ".");
          assert forall i :: 0 <= i < |y| ==> y[i] == piece[i];
        }
      }
      Ok(y)
  }

  /** `s.split("_")` has two pieces or more exactly when `s` contains `_`. */
  lemma {:induction false} SplitLength(s: string)
    ensures |Split(s, "_")| >= 2 <==> '_' in s
  {
    if '_' in s {
      CharContained(s, '_');
      assert IndexOf(s, "_").Some?;
    } else {
      SplitCharAbsent(s, '_');
    }
  }

  /** The temporary copy of `<stem>.tif`, for a stem without a dot, is `<stem>_temp.tif`. */
  lemma {:induction false} TempNameOfStem(stem: string)
    requires '.' !in stem
    ensures TempName(stem + ".tif") == stem + "_temp.tif"
  {
    ReplaceSuffix(stem, ".tif", "_temp.tif");
  }

  /** The year of `<prefix>_<year>_temp.tif` is `<year>`, whatever `_` the prefix holds. */
  lemma {:induction false} YearOfTemp(prefix: string, year: string)
    requires '.' !in year && '_' !in year
    ensures YearOf(prefix + "_" + year + "_temp.tif") == Ok(year)
  {
    SplitTempName(prefix, year);
    SplitCharAbsent(year, '.');
  }

  /** Split at `_`, `<prefix>_<year>_temp.tif` has `<year>` as its second-to-last piece. */
  lemma {:induction false} SplitTempName(prefix: string, year: string)
    requires '_' !in year
    ensures |Split(prefix + "_" + year + "_temp.tif", "_")| >= 2
    ensures var parts := Split(prefix + "_" + year + "_temp.tif", "_"); parts[|parts| - 2] == year
  {
    TempTailPlain();
    var tail := "temp.tif";
    SplitLastTwo(prefix, year, tail);
    assert prefix + "_" + year + "_" + tail == prefix + "_" + year + "_temp.tif";
  }

  /** Split at `_`, `<prefix>_<year>_<tail>` ends in the pieces `<year>` and `<tail>`. */
  lemma {:induction false} SplitLastTwo(prefix: string, year: string, tail: string)
    requires '_' !in year && '_' !in tail
    ensures Split(prefix + "_" + year + "_" + tail, "_") == Split(prefix, "_") + [year, tail]
  {
    var name := prefix + "_" + year + "_" + tail;
    assert name == prefix + ['_'] + (year + ['_'] + tail);
    SplitCharCat(prefix, '_', year + ['_'] + tail);
    SplitCharCat(year, '_', tail);
    SplitCharAbsent(year, '_');
    SplitCharAbsent(tail, '_');
    assert "_" == ['_'];
  }

  /** The tail `temp.tif` holds no `_`. */
  lemma TempTailPlain()
    ensures '_' !in "temp.tif"
  {
    var t := "temp.tif";
    assert t == ['t', 'e', 'm', 'p', '.', 't', 'i', 'f'];
  }

  /** The round trip of the naming: the temporary copy of `<prefix>_<year>.tif` gives back
      `<year>`, whatever `_` the prefix holds. */
  lemma {:induction false} YearOfTempName(prefix: string, year: string)
    requires '.' !in prefix && '.' !in year && '_' !in year
    ensures TempName(prefix + "_" + year + ".tif") == prefix + "_" + year + "_temp.tif"
    ensures YearOf(TempName(prefix + "_" + year + ".tif")) == Ok(year)
  {
    var stem := prefix + "_" + year;
    assert forall i :: 0 <= i < |stem| ==> stem[i] == '_' || stem[i] in prefix || stem[i] in year;
    TempNameOfStem(stem);
    assert stem + "_temp.tif" == prefix + "_" + year + "_temp.tif";
    YearOfTemp(prefix, year);
  }

  /** `pa_file`: `pa_<year>.tif` in yearly mode, else the single `pa_multi_year.tif`. */
  function PaFile(paPath: string, useYearly: bool, year: string): string {
    if useYearly then PyPath.Join(paPath, "pa_" + year + ".tif") else PyPath.Join(paPath, "pa_multi_year.tif")
  }

  /** `lulc_pa_sum_file`: `lulc_<year>_pa.tif`. */
  function SumFile(lulcUpdComprPath: string, year: string): string {
    PyPath.Join(lulcUpdComprPath, "lulc_" + year + "_pa.tif")
  }

  /** The file names are built under their folders: the last component is the name itself. */
  lemma {:induction false} PlannedNames(paPath: string, lulcUpdComprPath: string, useYearly: bool, year: string)
    requires '/' !in year
    ensures PyPath.Basename(PaFile(paPath, useYearly, year)) == (if useYearly then "pa_" + year + ".tif" else "pa_multi_year.tif")
    ensures PyPath.Basename(SumFile(lulcUpdComprPath, year)) == "lulc_" + year + "_pa.tif"
  {
    assert '/' !in "pa_" + year + ".tif";
    assert '/' !in "pa_multi_year.tif";
    assert '/' !in "lulc_" + year + "_pa.tif";
    PyPath.BasenameOfJoin(paPath, "pa_" + year + ".tif");
    PyPath.BasenameOfJoin(paPath, "pa_multi_year.tif");
    PyPath.BasenameOfJoin(lulcUpdComprPath, "lulc_" + year + "_pa.tif");
  }

  /** The folders the class works with. */
  datatype Folders = Folders(lulcDir: string, useYearlyPaRasters: bool, lulcWithNullPath: string,
                             lulcUpdComprPath: string, paPath: string)

  /** The `gdal_translate` command for one land-use raster: the file under `lulc_dir` is copied
      to its temporary name under the temporary folder. */
  function TranslateOf(f: Folders, file: string): Command {
    Translate(PyPath.Join(f.lulcDir, file), PyPath.Join(f.lulcWithNullPath, TempName(file)))
  }

  /** The `gdal_translate` command for each listed land-use raster, in listing order. */
  function TranslateCommands(f: Folders, listing: seq<string>): (cs: seq<Command>)
    ensures |cs| == |listing|
    ensures forall k :: 0 <= k < |listing| ==> cs[k] == TranslateOf(f, listing[k])
  {
    seq(|listing|, k requires 0 <= k < |listing| => TranslateOf(f, listing[k]))
  }

  /** One more listed file is one more command. */
  lemma TranslateCommandsTake(f: Folders, listing: seq<string>, k: nat)
    requires k < |listing|
    ensures TranslateCommands(f, listing[..k + 1]) == TranslateCommands(f, listing[..k]) + [TranslateOf(f, listing[k])]
  {
    assert listing[..k + 1][k] == listing[k];
    assert forall j :: 0 <= j < k ==> listing[..k + 1][j] == listing[..k][j];
  }

  /** What the loop of `combine_pa_lulc` derives from one temporary file name: either the
      exception raised while reading its year, or the year with the three paths of its sum
      (the temporary raster, the protected-area raster and the output). */
  datatype Step =
    | Unreadable(e: Exc)
    | Sum(year: string, source: string, paFile: string, sumFile: string)

  /** The step of one temporary file under the folders `f`. */
  function StepOf(f: Folders, file: string): (s: Step)
    ensures s.Unreadable? <==> YearOf(file).Err?
    ensures s.Sum? ==> s.year == YearOf(file).value && s.paFile == PaFile(f.paPath, f.useYearlyPaRasters, s.year)
  {
    match YearOf(file)
    case Err(e) => Unreadable(e)
    case Ok(year) =>
      Sum(year, PyPath.Join(f.lulcWithNullPath, file), PaFile(f.paPath, f.useYearlyPaRasters, year),
          SumFile(f.lulcUpdComprPath, year))
  }

  /** The steps of a listing of temporary files, in listing order. */
  function Steps(f: Folders, nullFiles: seq<string>): (steps: seq<Step>)
    ensures |steps| == |nullFiles|
    ensures forall k :: 0 <= k < |nullFiles| ==> steps[k] == StepOf(f, nullFiles[k])
  {
    seq(|nullFiles|, k requires 0 <= k < |nullFiles| => StepOf(f, nullFiles[k]))
  }

  /** The message of the FileNotFoundError for a missing protected-area raster. */
  function MissingPa(year: string): string {
    "PA file for year " + year + " does not exist"
  }

  /** The sums asked for the temporary files, in listing order, until the first file whose year
      cannot be read or whose protected-area raster does not exist; that one raises. */
  function SumCommands(steps: seq<Step>, present: set<string>): (seq<Command>, Outcome)
    decreases |steps|
  {
    if steps == [] then ([], Pass)
    else
      var (cs, o) := SumCommands(steps[..|steps| - 1], present);
      if o.Fail? then (cs, o)
      else SumStep(steps[|steps| - 1], present, cs)
  }

  /** One temporary file of `combine_pa_lulc`. */
  function SumStep(s: Step, present: set<string>, cs: seq<Command>): (seq<Command>, Outcome) {
    match s
    case Unreadable(e) => (cs, Fail(e))
    case Sum(year, source, paFile, sumFile) =>
      if paFile in present then (cs + [Calc(source, paFile, sumFile)], Pass)
      else (cs, Fail(FileNotFoundError(MissingPa(year))))
  }

  /** `combine_pa_lulc(keep_temp_files)`: the sums, then the removal of the temporary folder
      unless the temporary files are kept; an exception skips the removal. */
  function CombineResult(f: Folders, nullFiles: seq<string>, present: set<string>, keepTempFiles: bool)
    : (seq<Command>, Outcome)
  {
    var (cs, o) := SumCommands(Steps(f, nullFiles), present);
    if o.Fail? || keepTempFiles then (cs, o) else (cs + [RemoveTree(f.lulcWithNullPath)], Pass)
  }

  /** The sums so far are kept whatever follows: once a file has raised nothing is added. */
  lemma {:induction false} SumCommandsStop(steps: seq<Step>, present: set<string>, n: nat)
    requires n <= |steps| && SumCommands(steps[..n], present).1.Fail?
    ensures SumCommands(steps, present) == SumCommands(steps[..n], present)
    decreases |steps| - n
  {
    if n < |steps| {
      var m := |steps| - 1;
      assert steps[..m][..n] == steps[..n];
      SumCommandsStop(steps[..m], present, n);
    } else {
      assert steps[..n] == steps;
    }
  }

  /** One more temporary file after files that all summed is one more step. */
  lemma SumCommandsSnoc(front: seq<Step>, step: Step, present: set<string>)
    requires SumCommands(front, present).1 == Pass
    ensures SumCommands(front + [step], present) == SumStep(step, present, SumCommands(front, present).0)
  {
    assert (front + [step])[..|front|] == front;
  }

  /** The same step, on a prefix of a listing. */
  lemma SumCommandsTake(steps: seq<Step>, k: nat, present: set<string>)
    requires k < |steps| && SumCommands(steps[..k], present).1 == Pass
    ensures SumCommands(steps[..k + 1], present)
            == SumStep(steps[k], present, SumCommands(steps[..k], present).0)
  {
    assert steps[..k + 1][..k] == steps[..k];
  }

  /** A step only appends to the commands so far. */
  lemma SumStepFrom(s: Step, present: set<string>, cs: seq<Command>)
    ensures SumStep(s, present, cs) == (cs + SumStep(s, present, []).0, SumStep(s, present, []).1)
  {
    match s
    case Unreadable(_) =>
      assert cs + [] == cs;
    case Sum(_, source, paFile, sumFile) =>
      assert cs + [] == cs;
      assert [] + [Calc(source, paFile, sumFile)] == [Calc(source, paFile, sumFile)];
  }

  /** When every year reads and every protected-area raster exists, there is one sum per
      temporary file, in order, of that file's three paths. */
  lemma {:induction false} SumCommandsAll(steps: seq<Step>, present: set<string>)
    requires forall k :: 0 <= k < |steps| ==> steps[k].Sum? && steps[k].paFile in present
    ensures SumCommands(steps, present).1 == Pass
    ensures |SumCommands(steps, present).0| == |steps|
    ensures forall k :: 0 <= k < |steps| ==>
              SumCommands(steps, present).0[k]
              == Calc(steps[k].source, steps[k].paFile, steps[k].sumFile)
    decreases |steps|
  {
    if steps != [] {
      var n := |steps| - 1;
      var front := steps[..n];
      assert forall k :: 0 <= k < n ==> front[k] == steps[k];
      SumCommandsAll(front, present);
      assert steps == front + [steps[n]];
      SumCommandsSnoc(front, steps[n], present);
    }
  }

  /** The first temporary file whose year cannot be read or whose protected-area raster is
      missing raises, after the sums of the files before it and with no sum for the files
      after it: an IndexError for the year, a FileNotFoundError naming the year for the
      raster. */
  lemma {:induction false} FirstFailureRaises(steps: seq<Step>, present: set<string>, i: nat)
    requires i < |steps|
    requires forall k :: 0 <= k < i ==> steps[k].Sum? && steps[k].paFile in present
    requires steps[i].Unreadable? || steps[i].paFile !in present
    ensures SumCommands(steps, present).1
            == if steps[i].Unreadable? then Fail(steps[i].e)
               else Fail(FileNotFoundError(MissingPa(steps[i].year)))
    ensures SumCommands(steps, present).0 == SumCommands(steps[..i], present).0
    ensures |SumCommands(steps, present).0| == i
  {
    var front := steps[..i];
    assert forall k :: 0 <= k < i ==> front[k] == steps[k];
    SumCommandsAll(front, present);
    assert steps[..i + 1] == front + [steps[i]];
    SumCommandsSnoc(front, steps[i], present);
    SumCommandsStop(steps, present, i + 1);
  }

  /** A temporary file name without `_` raises an IndexError. */
  lemma {:induction false} UnreadableYearRaises(f: Folders, file: string)
    requires '_' !in file
    ensures StepOf(f, file) == Unreadable(IndexError)
  {
  }

  /** The sums never remove anything. */
  lemma {:induction false} SumCommandsOnlyCalc(steps: seq<Step>, present: set<string>)
    ensures forall c :: c in SumCommands(steps, present).0 ==> c.Calc?
    decreases |steps|
  {
    if steps != [] {
      SumCommandsOnlyCalc(steps[..|steps| - 1], present);
    }
  }

  /** The temporary folder is removed exactly when the temporary files are not kept and no
      file raised. */
  lemma {:induction false} TempRemovedIff(f: Folders, nullFiles: seq<string>, present: set<string>, keepTempFiles: bool)
    ensures var (cs, o) := CombineResult(f, nullFiles, present, keepTempFiles);
      RemoveTree(f.lulcWithNullPath) in cs <==> !keepTempFiles && o.Pass?
  {
    SumCommandsOnlyCalc(Steps(f, nullFiles), present);
  }

  /** Without yearly rasters every temporary file is summed with the same `pa_multi_year.tif`. */
  lemma {:induction false} MultiYearRasterForAll(f: Folders, file: string)
    requires !f.useYearlyPaRasters && YearOf(file).Ok?
    ensures StepOf(f, file).paFile == PyPath.Join(f.paPath, "pa_multi_year.tif")
  {
  }

  /** `LulcPaRasterSum(...)`: the three working folders are made under `protected_areas` of the
      input and output paths, when missing. */
  class LulcPaRasterSum {
    const lulcDir: string
    const useYearlyPaRasters: bool
    const lulcWithNullPath: string
    const lulcUpdComprPath: string
    const paPath: string

    function Config(): Folders {
      Folders(lulcDir, useYearlyPaRasters, lulcWithNullPath, lulcUpdComprPath, paPath)
    }

    constructor (host: Host, inputPath: string, outputPath: string, lulcDir: string, useYearlyPaRasters: bool,
                 lulcWithNull: string, pa: string, lulcUpdCompr: string)
      modifies host
      ensures Config() == Folders(lulcDir, useYearlyPaRasters, WorkDir(inputPath, lulcWithNull),
                                  WorkDir(outputPath, lulcUpdCompr), WorkDir(outputPath, pa))
      ensures host.files == old(host.files) && host.commands == old(host.commands)
      ensures host.dirs == MadeDirs(host.files, MadeDirs(host.files, MadeDirs(host.files, old(host.dirs),
                             WorkDir(inputPath, lulcWithNull)), WorkDir(outputPath, lulcUpdCompr)), WorkDir(outputPath, pa))
    {
      this.lulcDir := lulcDir;
      this.useYearlyPaRasters := useYearlyPaRasters;
      var p1 := MakeDirectoryIfNotExists(host, WorkDir(inputPath, lulcWithNull));
      var p2 := MakeDirectoryIfNotExists(host, WorkDir(outputPath, lulcUpdCompr));
      var p3 := MakeDirectoryIfNotExists(host, WorkDir(outputPath, pa));
      this.lulcWithNullPath := p1;
      this.lulcUpdComprPath := p2;
      this.paPath := p3;
    }

    /** `assign_no_data_values()`: one `gdal_translate` per file listed in `lulc_dir`. */
    method AssignNoDataValues(host: Host, listing: seq<string>)
      modifies host
      ensures host.files == old(host.files) && host.dirs == old(host.dirs)
      ensures host.commands == old(host.commands) + TranslateCommands(Config(), listing)
    {
      for k := 0 to |listing|
        invariant host.files == old(host.files) && host.dirs == old(host.dirs)
        invariant host.commands == old(host.commands) + TranslateCommands(Config(), listing[..k])
      {
        TranslateCommandsTake(Config(), listing, k);
        var file := listing[k];
        var filePath := PyPath.Join(lulcDir, file);
        var outputPath := PyPath.Join(lulcWithNullPath, TempName(file));
        host.commands := host.commands + [Translate(filePath, outputPath)];
      }
      assert listing[..|listing|] == listing;
    }

    /** `combine_pa_lulc(keep_temp_files)`: `nullFiles` is the listing of the temporary folder. */
    method CombinePaLulc(host: Host, nullFiles: seq<string>, keepTempFiles: bool) returns (o: Outcome)
      modifies host
      ensures host.files == old(host.files) && host.dirs == old(host.dirs)
      ensures host.commands == old(host.commands) + CombineResult(Config(), nullFiles, old(host.Present()), keepTempFiles).0
      ensures o == CombineResult(Config(), nullFiles, old(host.Present()), keepTempFiles).1
    {
      o := PlanSums(host, nullFiles);
      if o.Pass? && !keepTempFiles {
        host.commands := host.commands + [RemoveTree(lulcWithNullPath)];
      }
    }

    /** The loop of `combine_pa_lulc`. */
    method PlanSums(host: Host, nullFiles: seq<string>) returns (o: Outcome)
      modifies host
      ensures host.files == old(host.files) && host.dirs == old(host.dirs)
      ensures host.commands == old(host.commands) + SumCommands(Steps(Config(), nullFiles), old(host.Present())).0
      ensures o == SumCommands(Steps(Config(), nullFiles), old(host.Present())).1
    {
      ghost var present := host.Present();
      ghost var steps := Steps(Config(), nullFiles);
      for k := 0 to |nullFiles|
        invariant host.files == old(host.files) && host.dirs == old(host.dirs)
        invariant host.commands == old(host.commands) + SumCommands(steps[..k], present).0
        invariant SumCommands(steps[..k], present).1 == Pass
      {
        SumCommandsTake(steps, k, present);
        SumStepFrom(steps[k], present, SumCommands(steps[..k], present).0);
        o := SumOneFile(host, nullFiles[k]);
        if o.Fail? {
          SumCommandsStop(steps, present, k + 1);
          return;
        }
      }
      assert steps[..|steps|] == steps;
      o := Pass;
    }
  
    /** The body of the loop of `combine_pa_lulc`, for one temporary file. */
    method SumOneFile(host: Host, file: string) returns (o: Outcome)
      modifies host
      ensures host.files == old(host.files) && host.dirs == old(host.dirs)
      ensures host.commands == old(host.commands) + SumStep(StepOf(Config(), file), old(host.Present()), []).0
      ensures o == SumStep(StepOf(Config(), file), old(host.Present()), []).1
    {
      var year := YearOf(file);
      if year.Err? {
        return Fail(year.exc);
      }
      var paFile := PaFile(paPath, useYearlyPaRasters, year.value);
      if host.Exists(paFile) {
        var sumFile := SumFile(lulcUpdComprPath, year.value);
        host.commands := host.commands + [Calc(PyPath.Join(lulcWithNullPath, file), paFile, sumFile)];
        o := Pass;
      } else {
        o := Fail(FileNotFoundError(MissingPa(year.value)));
      }
    }
  }
}
