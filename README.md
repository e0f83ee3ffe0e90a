# Pilot 2 biodiversity pipeline: the verified logic beneath the glue

The pilot-2 biodiversity repository prepares land-use and protected-area rasters, runs Graphab
connectivity analyses per case study and habitat, and post-processes the results: it
rasterises the GeoPackage attributes Graphab writes, tags each raster with an
`INDEX:<name>; TIMESTAMP:<time>` description, masks and clips the rasters against the land-use
reference, merges the global-index text files into one table per case study, and moves the
inputs and outputs to and from MinIO buckets. This project models the sequential logic of that
pipeline in Dafny and proves what the code promises about it:

- `PostProc`: `graphab/postproc.py`. It covers the filename metadata extraction, the
  description parser of `create_stats` and the file selection of `wrapper`.
- `PostProcRaster`: `graphab/postproc.py` again, on 2-D integer arrays. It covers the nodata
  mask of `apply_nodata_mask`, and `clip_output` / `check_and_clip`.
- `JoinGpkg2Tif`: `graphab/join_gpkg2tif.py`. It covers field filtering, the XML-year timestamp,
  per-field naming and descriptions, and the patch and corridor maps of the directory walk.
- `DescriptionRoundTrip`: the description written by the rasterisation step, read back by the
  statistics step.
- `ImpedanceCsv2Tif`: `graphab/impedance_csv2tif.py`. It covers the reclassification dictionary
  built from the CSV rows, the pixel mapping, and the impedance, compressed and affinity paths.
- `GlobIndices`: `graphab/glob_indices.py`. It covers `append_year2txt`, `concat_files`,
  `combine_glob_csv` and the configuration loop of `glob_wrapper`.
- `MinioReader`, `MinioUploader`: `graphab/minio_reader.py` and `graphab/minio_uploader.py`.
  They cover the ICT folder search, the object filter, the local save, the bucket uploads with
  their directory pruning, and `retry`.
- `LulcPaRasterSum`: `preprocessing/src/protected_areas/lulc_pa_raster_sum.py`. It covers the
  working folders, the `gdal_translate` plan and the year and protected-area planning loop of
  `combine_pa_lulc`.

Shared definitions of the Python operations the scripts use:

- `PyStr`: `split`, `rsplit`, `replace`, `strip`, `rstrip`, `lower`, `find`, `in`,
  `startswith`, `endswith`.
- `PyPath`: `os.path.basename`, `dirname`, `join`, `splitext`, and `os.walk` entries.
- `PyNum`: `int()` and `float()` of text.
- `PyDatetime`: `datetime.strptime` with `%Y-%m-%d %H:%M:%S`.
- `OrderedDict`: an insertion-ordered Python `dict`.
- `Seqs`: filter and flat-map.
- `Wrappers`: `Option`, `Result` and the Python exceptions.

How the I/O is represented:

- A directory walk is a sequence of `(root, files)` entries.
- A table read by pandas is a list of columns and rows of cells.
- A raster band is an `array2<int>`.
- A bucket, the local disk or the host is a value (or a class holding it) that records what
  exists and the requests or shell commands sent.
- Whatever the code learns from outside is a parameter: a listing, whether a create or a
  download succeeds, what `is_cog` answers, the pixels `random.sample` picks.

Where the code and its documentation disagree, the model follows the code.

- The wrapper masks with `cog=True`, which opens the raster read-only. The docstring promises
  that the input is rewritten.
- The `put_dir` caller passes a string where a list of folder names is documented.
- `create_stats` takes the text between the first and the second `:` of the index half. Its
  comment says "after INDEX:", and the two agree only for index names without `:`.

## Model

| member | source | states |
|---|---|---|
| PostProc.FirstMatch | graphab/postproc.py:395-400 | the index found is of a table key that occurs in the name, and no earlier key occurs; None means no key occurs |
| PostProc.ExtractMetadataFilename | graphab/postproc.py:373-447 | case study, habitat and year are those of the lowercased, stripped base name, and the metric is always `ICT` |
| PostProc.CaseStudyLoop | graphab/postproc.py:385-400 | the loop stops at the first key found and gives its case study; it marks `ml_output` when it visited an ML key on the way |
| PostProc.HabitatLoop | graphab/postproc.py:402-416 | the first habitat key found sets the habitat, or appends `_<value>` to the one already set |
| PostProc.YearLoop | graphab/postproc.py:430-444 | the year is the first `_` part that is a plausible year |
| PostProc.FirstYear | graphab/postproc.py:431-437 | the part found is four digits between 1800 and 2050, and no earlier part is |
| PostProc.CaseStudyCascade | graphab/postproc.py:385-400 | the case study is the value of the first of `_30_`, `_390_`, `high`, `low` in the name, else None |
| PostProc.MlOutputIff | graphab/postproc.py:395-397 | the habitat starts as `ml_output` exactly when neither `_30_` nor `_390_` is in the name |
| PostProc.HabitatCascade | graphab/postproc.py:395-416 | exactly one habitat key contributes, the first in table order, prefixed by `ml_output_` when the habitat started as `ml_output` |
| PostProc.HabitatKeyCascade | graphab/postproc.py:403-416 | the habitat key chosen is the first of the five keys in table order that occurs |
| PostProc.YearIsFirstPlausiblePart | graphab/postproc.py:431-437 | a year found is a `_` part of the name that is a plausible year, with no such part before it; None means no part is |
| PostProc.ParseDescription | graphab/postproc.py:464-471 | a parsed description had a `"; "`, its metric has no `:`, and its year is 1 to 9999; failures are IndexError or ValueError |
| PostProc.NoneTagIsNone | graphab/postproc.py:459-461 | a raster without a description tag reads as `none` and takes the filename fallback |
| PostProc.StatsMetadata | graphab/postproc.py:459-478 | without a tag the keys come from the file name; a timestamp year comes with the given case study and the XML habitat; errors are IndexError or ValueError |
| PostProc.FilenameStatsKeys | graphab/postproc.py:476-478 | the filename fallback has metric `ICT` and no timestamp year |
| PostProc.LulcTif | graphab/postproc.py:634 | a reference raster exists exactly when the land-use listing has a `.tif` |
| PostProc.UntilFailure | graphab/postproc.py:643-666 | the paths worked on are a prefix of the selected ones; without an exception they are all of them and every file passed; with one, the last path worked on is the one that raised it and every earlier one passed |
| PostProc.UntilFailureAppend | graphab/postproc.py:643-666 | working through two lists of paths is working through the first and then, unless it raised, through the second |
| PostProc.FailureStopsWalk | graphab/postproc.py:643-666 | the walk ends at the first path whose work fails, with that exception, and no later path is worked on |
| PostProc.FileWork | graphab/postproc.py:658-666 | the work on a path succeeds exactly when the mask (if the data is internal), `create_stats`, the plot and `translate_tif` all succeed; a failing mask or `create_stats` is the exception raised |
| PostProc.StatsErrorEndsWalk | graphab/postproc.py:664 | a description `create_stats` cannot parse ends the walk at that file, with its IndexError or ValueError |
| PostProc.SelectFiles | graphab/postproc.py:637-667 | the paths worked on, in walk order, are the selected ones up to and including the first whose work raises, and that exception is returned; without a reference raster none is |
| PostProc.SelectInDir | graphab/postproc.py:643-667 | the same for one directory, in listing order |
| PostProc.NoneKept | graphab/postproc.py:660-667 | when no file is accepted, nothing is processed |
| PostProc.KeptIff | graphab/postproc.py:643-647 | a path is kept exactly when it joins the directory to a listed file that is accepted |
| PostProc.ProcessedIff | graphab/postproc.py:637-653 | a path is processed exactly when its directory is not excluded (`ml`, `output` in its base name), its file is a candidate `.tif` that is not `compressed_`, and it is not a non-ICT COG |
| PostProc.BaseOutputDirExcluded | graphab/postproc.py:632-641 | the files lying directly in `data/<case study>/output` are never processed, since that folder's name contains `output` |
| PostProcRaster.MaskOutcome | graphab/postproc.py:72-87 | the mask completes only for at least ten pixels, fitting land-use dimensions and probes inside the land-use array; otherwise ValueError or IndexError |
| PostProcRaster.MaskGrid | graphab/postproc.py:72-87 | on success every pixel is nodata exactly where it or its broadcast land-use pixel holds its nodata, and keeps its value elsewhere; on failure nothing changes |
| PostProcRaster.MaskRow | graphab/postproc.py:86-87 | one row is masked and the other rows keep their pixels |
| PostProcRaster.Window | graphab/postproc.py:244-248 | a fresh array holding the requested window of the band |
| PostProcRaster.ApplyNodataMask | graphab/postproc.py:43-99 | with `cog` set the band keeps its pixels; without it the band holds the masked pixels; the outcome is `MaskOutcome` either way |
| PostProcRaster.ApplyNodataMaskForUpdate | graphab/postproc.py:43-91 | with the dataset opened for update, the band holds the masked pixels whenever the mask completes |
| PostProcRaster.ReadOnlyMaskKeepsPixel | graphab/postproc.py:47-50 | a concrete input-nodata pixel that the read-only open leaves unmasked and the update open masks |
| PostProcRaster.MaskedValueIff | graphab/postproc.py:72-87 | a pixel becomes nodata exactly when it was masked or already nodata; an unmasked pixel is unchanged |
| PostProcRaster.MaskIdempotent | graphab/postproc.py:87-90 | masking again with the new nodata value changes nothing |
| PostProcRaster.SameShapeMaskOutcome | graphab/postproc.py:72-87 | a land-use raster of the input's size never makes the mask fail unless the band has fewer than ten pixels |
| PostProcRaster.SingleRowProbeFails | graphab/postproc.py:82-86 | a single-row land-use raster under a taller band fails in the probe loop before broadcasting |
| PostProcRaster.ClipOutput | graphab/postproc.py:206-286 | the clip succeeds exactly when the clipped size is positive, a first band exists and `size` is not negative; pixel (r, c) of each clipped band is pixel (r+size, c+size) of the input; a clipped size of zero or less is a ValueError and any other failure an AttributeError |
| PostProcRaster.CheckAndClip | graphab/postproc.py:288-337 | True exactly when the input is the reference plus `size` on every side and the clip completes; the clipped bands then have the reference's size and the input's inner pixels; otherwise the bands come back as given |
| PostProcRaster.ClipWithBuffer | graphab/postproc.py:323-333 | with the buffer present, the clip completes exactly when the reference is non-empty, a band exists and `size` is not negative |
| JoinGpkg2Tif.RelevantFieldsIff | graphab/join_gpkg2tif.py:44-46 | a field is kept exactly when the schema has it and the exclude list does not |
| JoinGpkg2Tif.RelevantFieldsOrder | graphab/join_gpkg2tif.py:44-46 | the kept fields follow schema order; with nothing excluded the schema is kept whole |
| JoinGpkg2Tif.XmlYear | graphab/join_gpkg2tif.py:61-64 | a year is found exactly when four digits stand right before the final `.xml`, and those are the digits |
| JoinGpkg2Tif.ExtractTimestampXml | graphab/join_gpkg2tif.py:48-72 | a timestamp is four digits followed by `-12-31 23:59:59` |
| JoinGpkg2Tif.ParentOnlyWithoutCandidate | graphab/join_gpkg2tif.py:51-55 | the parent directory is consulted only when the file's own directory has no XML candidate |
| JoinGpkg2Tif.TimestampOfFirstCandidate | graphab/join_gpkg2tif.py:57-69 | the timestamp comes from the first candidate of the listing used, or is None when its name has no year |
| JoinGpkg2Tif.NoCandidateNoTimestamp | graphab/join_gpkg2tif.py:53-72 | with no candidate in either directory there is no timestamp |
| JoinGpkg2Tif.FieldOutputPathInFolder | graphab/join_gpkg2tif.py:94 | for a folder path without `.`, the raster of a field is `output_<field>.tif` beside `output.tif` |
| JoinGpkg2Tif.IndexName | graphab/join_gpkg2tif.py:103 | the index name has no `_` and is the field itself or the field's text before its first `_` |
| JoinGpkg2Tif.FirstUncreatable | graphab/join_gpkg2tif.py:95-97 | every field before the index found can be created, and the one at it cannot |
| JoinGpkg2Tif.RasterizeFieldsAsWritten | graphab/join_gpkg2tif.py:90-97 | the fields before the first uncreatable one are written, in order, and the loop stops there |
| JoinGpkg2Tif.RasterizeGeopackageAsWritten | graphab/join_gpkg2tif.py:74-115 | an unopenable GeoPackage writes nothing; otherwise the fields before the first uncreatable one are written with the XML timestamp, and that field raises a TypeError |
| JoinGpkg2Tif.RasterizeFields | graphab/join_gpkg2tif.py:90-113 | every creatable field of one layer is written, in order, and the others are skipped |
| JoinGpkg2Tif.RasterizeGeopackage | graphab/join_gpkg2tif.py:74-115 | every creatable field of every layer is written in order, with its name-derived path and the description of its index name and the XML timestamp |
| JoinGpkg2Tif.UncreatableFieldRaises | graphab/join_gpkg2tif.py:95-97 | a single uncreatable field stops the code as written at once, while the intended version skips it |
| JoinGpkg2Tif.FindPatchFiles | graphab/join_gpkg2tif.py:117-128 | the patch map of the walk, whose entries `PatchFilesGet` characterises |
| JoinGpkg2Tif.PatchFilesGet | graphab/join_gpkg2tif.py:121-126 | a directory is mapped exactly when it holds both `patches.tif` and `patches.gpkg`, and to those two paths |
| JoinGpkg2Tif.AddFolderCorridors | graphab/join_gpkg2tif.py:135-140 | the files of one directory add its corridor rasters to its entry |
| JoinGpkg2Tif.FindCorridorFiles | graphab/join_gpkg2tif.py:130-142 | the corridor map of the walk, which `CorridorFilesGrouped` characterises |
| JoinGpkg2Tif.AppendToEntry | graphab/join_gpkg2tif.py:138-140 | creating an empty entry then appending is appending to the entry or to an empty one |
| JoinGpkg2Tif.AddCorridorsNew | graphab/join_gpkg2tif.py:134-140 | a new directory with corridor rasters adds one item at the end, and one without adds nothing |
| JoinGpkg2Tif.CorridorFilesGrouped | graphab/join_gpkg2tif.py:130-142 | over distinct directories the map has one item per directory with corridor `.tif`s, in walk order, each listing them in listing order; other directories are absent |
| JoinGpkg2Tif.CorridorIndex | graphab/join_gpkg2tif.py:161-168 | the index of a corridor raster has no `_` and ends its stem after a `_` |
| JoinGpkg2Tif.IndexOfStem | graphab/join_gpkg2tif.py:163-168 | an index is found exactly when the stem has at least three `_` components, and it is the last one |
| JoinGpkg2Tif.TmpPathNextToFile | graphab/join_gpkg2tif.py:183 | the temporary copy of `<stem>.tif` is `<stem>_tmp.tif` |
| JoinGpkg2Tif.RewriteTimestamp | graphab/join_gpkg2tif.py:158-170 | an openable indexed raster's description carries the timestamp `extract_timestamp_xml` gives from its own directory's listing, or its parent's |
| JoinGpkg2Tif.RewriteFolder | graphab/join_gpkg2tif.py:154-191 | the rasters of one folder are rewritten in order, each with the timestamp of the XML file next to it |
| JoinGpkg2Tif.RewriteOfCases | graphab/join_gpkg2tif.py:161-180 | a raster is skipped when its name has no index or it does not open, and otherwise rewritten through its temporary copy with the index description |
| JoinGpkg2Tif.AssignMetadataCorridors | graphab/join_gpkg2tif.py:144-194 | every corridor raster of the map is handled in map order |
| DescriptionRoundTrip.YearEndTimestamp | graphab/join_gpkg2tif.py:65 | the timestamp built from four year digits has their value as its year |
| DescriptionRoundTrip.ParseOfDescription | graphab/postproc.py:464-471 | parsing a written description yields the index whole and the year `strptime` reads from the timestamp text, or the error `strptime` raises |
| DescriptionRoundTrip.SplitDescription | graphab/postproc.py:464 | the description splits at `"; "` into its two halves |
| DescriptionRoundTrip.IndexHalf | graphab/postproc.py:467 | the index half splits at `:` into `INDEX` and the index |
| DescriptionRoundTrip.TimestampHalf | graphab/postproc.py:468 | the timestamp half splits once at `:` into `TIMESTAMP` and the text |
| DescriptionRoundTrip.DescriptionStripped | graphab/postproc.py:459-461 | a written description is already stripped and is not `none` |
| DescriptionRoundTrip.StrptimeOfYearEnd | graphab/postproc.py:469 | the written timestamp parses to the last second of its year, except that year `0000` is a ValueError |
| DescriptionRoundTrip.ValidYearEnd | graphab/postproc.py:469 | the last second of a year is a valid `datetime` exactly for years 1 to 9999 |
| DescriptionRoundTrip.StatsOfWrittenDescription | graphab/postproc.py:459-478 | the statistics step reads back the index name and the year of the XML digits, with the given case study and habitat; the year `0000` is an error instead |
| DescriptionRoundTrip.StatsOfUntimedDescription | graphab/postproc.py:464-469 | a description written without a timestamp is rejected with an error |
| DescriptionRoundTrip.RasterDescriptionRoundTrip | graphab/join_gpkg2tif.py:84-104 | whatever timestamp was found, the description reads back with the field's index name and a year from 1 to 9999 whenever it reads back, and never without a timestamp |
| ImpedanceCsv2Tif.ImpedanceValue | graphab/impedance_csv2tif.py:45-49 | the value has the mode's type; an empty cell is 666 in integer mode and an error in decimal mode |
| ImpedanceCsv2Tif.RowOutcomeOf | graphab/impedance_csv2tif.py:41-52 | a row is skipped exactly for an empty, `null` or `none` type, and invalid exactly when its code or its impedance does not parse; an entry maps the parsed code to the parsed impedance |
| ImpedanceCsv2Tif.Outcomes | graphab/impedance_csv2tif.py:41 | one outcome per row, in order |
| ImpedanceCsv2Tif.InvalidRowsSnoc | graphab/impedance_csv2tif.py:51-52 | one more row is logged exactly when it is invalid |
| ImpedanceCsv2Tif.ReclassTable | graphab/impedance_csv2tif.py:33-56 | decimal mode exactly when some impedance has a `.`; data type `Float32` or `Int32`; the table is the rows' table with the forced nodata codes; the invalid rows are logged |
| ImpedanceCsv2Tif.TableLastWins | graphab/impedance_csv2tif.py:50 | a code is in the table exactly when some row assigns it, with the value of the last such row |
| ImpedanceCsv2Tif.BuildLastWins | graphab/impedance_csv2tif.py:50 | the same on row outcomes |
| ImpedanceCsv2Tif.SkippedRowAddsNothing | graphab/impedance_csv2tif.py:43-44 | a skipped row adds no entry and logs nothing |
| ImpedanceCsv2Tif.EmptyImpedance | graphab/impedance_csv2tif.py:45-52 | an empty impedance maps to 666 in integer mode; in decimal mode the row is logged and adds nothing |
| ImpedanceCsv2Tif.EmptyImpedanceOutcomes | graphab/impedance_csv2tif.py:45-52 | the outcomes of such a row in the two modes |
| ImpedanceCsv2Tif.ForcedNodataWins | graphab/impedance_csv2tif.py:54-55 | codes -2147483647, -32768 and 0 map to nodata and every other code keeps its entry |
| ImpedanceCsv2Tif.TableValuesInMode | graphab/impedance_csv2tif.py:46-50 | every table value has the mode's type |
| ImpedanceCsv2Tif.ForcedValuesInMode | graphab/impedance_csv2tif.py:54-55 | the forced nodata value has the mode's type too |
| ImpedanceCsv2Tif.Reclassify | graphab/impedance_csv2tif.py:72-76 | the output has the band's shape; a pixel whose code is a key gets its table value, and any other pixel gets nodata |
| ImpedanceCsv2Tif.ReclassifyAsWritten | graphab/impedance_csv2tif.py:72-76 | the mapping fails exactly in integer mode with a code missing from the table, and otherwise is the intended mapping |
| ImpedanceCsv2Tif.IntegerModeMissingCodeRaises | graphab/impedance_csv2tif.py:72-76 | a concrete missing code raises a TypeError where nodata is intended |
| ImpedanceCsv2Tif.ReclassifyLulc2Impedance | graphab/impedance_csv2tif.py:32-82 | the mode and data type as above; the output has the band's shape; forced codes are nodata, and other codes get the last row's value, or nodata when no row assigns them |
| ImpedanceCsv2Tif.AffinityValue | graphab/impedance_csv2tif.py:93 | nodata and 0 stay nodata, and any other value becomes its reciprocal |
| ImpedanceCsv2Tif.ImpedancePathShape | graphab/impedance_csv2tif.py:123-134 | the impedance raster is `impedance_<file>` in the habitat's `_impedance` folder |
| ImpedanceCsv2Tif.CompressedPathShape | graphab/impedance_csv2tif.py:139 | the compressed copy of `impedance_<stem>.tif` is `impedance_<stem>_compr.tif` beside it |
| ImpedanceCsv2Tif.CompressedOfPrefixed | graphab/impedance_csv2tif.py:139 | the same for any prefix and folder |
| ImpedanceCsv2Tif.CompressedOfTif | graphab/impedance_csv2tif.py:139 | the compressed copy of `<folder>/<name>.tif` is `<folder>/<name>_compr.tif` |
| ImpedanceCsv2Tif.AffinityPathShape | graphab/impedance_csv2tif.py:85 | the affinity raster is `affinity_<file>` in the habitat's `_affinity` folder, both `impedance`s being replaced |
| ImpedanceCsv2Tif.NameReplaced | graphab/impedance_csv2tif.py:85 | `impedance_<file>` becomes `affinity_<file>` |
| ImpedanceCsv2Tif.FolderReplaced | graphab/impedance_csv2tif.py:85 | `<x>_impedance` becomes `<x>_affinity` |
| GlobIndices.ColumnIndex | graphab/glob_indices.py:33 | a column is found exactly when it is present, at its first position |
| GlobIndices.SetColumn | graphab/glob_indices.py:33 | an existing column keeps its place and a new one goes last; the row count is kept |
| GlobIndices.SetColumnCells | graphab/glob_indices.py:157 | after the assignment every row holds the value under the column and keeps its other cells |
| GlobIndices.GlobYear | graphab/glob_indices.py:27-30 | a year exists exactly when the name without `.txt` has three `_` components, and it is the third |
| GlobIndices.AppendYear2Txt | graphab/glob_indices.py:23-35 | the files rewritten, in walk order, are those of the year rewrite |
| GlobIndices.AppendYearInFolder | graphab/glob_indices.py:24-35 | the same for the files of one directory |
| GlobIndices.YearWritesIff | graphab/glob_indices.py:23-34 | a file is rewritten exactly when it is a `glob*.txt` with at least three components, and then with its year as a column |
| GlobIndices.GlobNameParts | graphab/glob_indices.py:27-58 | `glob_<metric>_<year>.txt` gives that year and that metric |
| GlobIndices.DataFramesTagged | graphab/glob_indices.py:58-60 | every collected table carries its file's metric on every row |
| GlobIndices.CollectFrames | graphab/glob_indices.py:50-70 | the tables of the `glob*.txt` files in walk order, each tagged with its metric (`DataFramesTagged`) |
| GlobIndices.CollectFolderFrames | graphab/glob_indices.py:51-70 | the same for one directory |
| GlobIndices.RowKey | graphab/glob_indices.py:100-107 | a key has six cells and starts with the row's first cell; the key is None exactly for a metric without a key rule (EC, PC, IIC, NC have one); the only error is an IndexError, for a keyed metric |
| GlobIndices.MergeFrames | graphab/glob_indices.py:84-115 | the merged table is the insertion-ordered last-write-wins map of all rows' keys to their metric |
| GlobIndices.MergeRows | graphab/glob_indices.py:99-115 | one table's rows extend the merge in row order |
| OrderedDict.PutAllLastWins | graphab/glob_indices.py:110 | a key is present exactly when some row assigned it, with the value of the last such row |
| OrderedDict.PutAllKeys | graphab/glob_indices.py:110-118 | the keys are in order of first insertion, each once |
| GlobIndices.FinalRows | graphab/glob_indices.py:117-119 | a None key is a TypeError; otherwise one row per entry, in order, of its key cells, its metric and the case study |
| GlobIndices.OutputColumns | graphab/glob_indices.py:122-123 | the last table's first six column names, the fifth renamed `metric_val`, then `metric` and `case_study`; fewer than six is an IndexError |
| GlobIndices.FinalData | graphab/glob_indices.py:117-119 | the loop builds those rows |
| GlobIndices.FinalTable | graphab/glob_indices.py:122-137 | the output table and its paths from those rows |
| GlobIndices.ConcatFiles | graphab/glob_indices.py:37-137 | the concatenation of the collected tables, with the output rows stated in `ConcatOutputRows` |
| GlobIndices.MergeItemOrigin | graphab/glob_indices.py:99-110 | every assignment of the merge comes from a row of a collected table |
| GlobIndices.MergedKeyOrigin | graphab/glob_indices.py:99-110 | every merged key is the key of some row |
| GlobIndices.MergedKeyLength | graphab/glob_indices.py:102-110 | every merged key has six cells |
| GlobIndices.UnkeyedMetricRaises | graphab/glob_indices.py:106-119 | one row of a metric without a key rule makes the concatenation raise a TypeError |
| GlobIndices.ConcatErrors | graphab/glob_indices.py:117-124 | the concatenation fails only with a TypeError, an unbound `df` or an IndexError; the table constructor never raises |
| GlobIndices.ConcatOutputRows | graphab/glob_indices.py:117-137 | the output has the output columns and one row per distinct key in insertion order, with its key cells, its last metric and the case study; it is written to `concat_glob.csv` |
| GlobIndices.Reads | graphab/glob_indices.py:156 | one table per path |
| GlobIndices.Habitats | graphab/glob_indices.py:153 | one habitat per path |
| GlobIndices.Labelled | graphab/glob_indices.py:157 | one labelled table per table |
| GlobIndices.HabitatFrames | graphab/glob_indices.py:151-158 | one table per path in `combined_data` |
| GlobIndices.Realign | graphab/glob_indices.py:160 | a table's rows laid out on the concatenated columns |
| GlobIndices.Stacked | graphab/glob_indices.py:160 | all rows, each fitting the columns, as many as the tables have |
| GlobIndices.Concat | graphab/glob_indices.py:160 | `pd.concat` fails exactly on an empty list, with a ValueError |
| GlobIndices.CombineGlobCsv | graphab/glob_indices.py:139-166 | the combination of the CSV files, whose rows `CombinedRows` and outcome `CombineOutcome` describe |
| GlobIndices.ConcatCells | graphab/glob_indices.py:160 | every cell keeps its row after the rows of the earlier tables, and a column a table lacks is empty |
| GlobIndices.CombinedRows | graphab/glob_indices.py:151-160 | every combined row carries the habitat of its file and keeps that file's other cells, the files' rows in input order |
| GlobIndices.CombineOutcome | graphab/glob_indices.py:149-166 | the combination fails exactly for no path (ValueError), and otherwise has all rows and writes `stats_glob.csv` |
| GlobIndices.ConfigFiles | graphab/glob_indices.py:243-249 | one path per habitat configuration of the listing |
| GlobIndices.ConfigFilesSelected | graphab/glob_indices.py:243-249 | the files are exactly the `.yaml` files of the listing without `multi`, each in `config/<case study>` |
| GlobIndices.FirstKeyWithValue | graphab/glob_indices.py:261-264 | the first key holding the value, or None when no key does |
| GlobIndices.HabitatAlias | graphab/glob_indices.py:261-264 | the alias lookup raises `KeyError('habitat')` exactly when the configuration has entries but no `habitat` key |
| GlobIndices.FindHabitatAlias | graphab/glob_indices.py:261-264 | the search loop finds that alias |
| GlobIndices.HabitatAliasFound | graphab/glob_indices.py:261-264 | with a `habitat` entry the alias is the first key sharing its value, without `habitat_` |
| GlobIndices.AliasOfHabitatKey | graphab/glob_indices.py:263 | `habitat_<name>` gives `<name>` |
| GlobIndices.GlobWrapper | graphab/glob_indices.py:231-300 | the combined table of the case study and its path, from the configuration loop and the combination step |
| GlobIndices.TableAfterWritten | graphab/glob_indices.py:34 | a path that was written is read back as one of the tables written to it |
| GlobIndices.ConcatReadsYear | graphab/glob_indices.py:270-271 | every `glob*.txt` table with a year in its name that `concat_files` reads carries the `year` column `append_year2txt` wrote, with one year on every row |
| GlobIndices.ConfigLoop | graphab/glob_indices.py:256-273 | the loop over the configuration files gives the state of the configuration fold: habitat, output folders and CSV paths, or the first error |
| GlobIndices.ConfigStep | graphab/glob_indices.py:257-273 | one configuration file: its alias (or the habitat in force), its output folder, the year columns written there and then the concatenation |
| GlobIndices.WrapperLoopPaths | graphab/glob_indices.py:256-273 | one output folder and one `concat_glob.csv` in it per configuration file |
| GlobIndices.WrapperLoopHabitat | graphab/glob_indices.py:261-271 | a configuration naming its habitat sends its tables to that habitat's folder |
| GlobIndices.WrapperLoopCount | graphab/glob_indices.py:256-273 | one output folder per configuration file |
| GlobIndices.WrapperLoopErr | graphab/glob_indices.py:256-273 | the first configuration that raises ends the loop with its error |
| GlobIndices.WrapperLastDir | graphab/glob_indices.py:265-266 | the last output folder is that of the habitat last in force |
| GlobIndices.FirstConfigWithoutAlias | graphab/glob_indices.py:261-265 | a first configuration without an alias leaves `habitat` unbound |
| GlobIndices.WrapperCombines | graphab/glob_indices.py:266-276 | the combination writes to the parent of the last output folder, `data/<case study>/output` for a plain habitat name |
| GlobIndices.WrapperHabitats | graphab/glob_indices.py:265-271 | the habitat the combination reads from the k-th CSV path is the habitat the k-th configuration names, when that is a plain name |
| GlobIndices.HabitatRoundTrip | graphab/glob_indices.py:265 | the folder of a habitat's `concat_glob.csv` reads back as that habitat, and its parent is the case study's output folder |
| GlobIndices.HabitatOutputDirShape | graphab/glob_indices.py:265 | the habitat folder is the habitat joined to `data/<case study>/output` |
| GlobIndices.CaseStudyOutputDirShape | graphab/glob_indices.py:265-266 | the case study's output folder is `data/<case study>/output` |
| GlobIndices.ConcatCsvPath | graphab/glob_indices.py:131-137 | the concatenation returns `concat_glob.csv` in its folder |
| GlobIndices.ConcatInWritesCsv | graphab/glob_indices.py:131 | the same for every folder |
| MinioReader.FolderPath | graphab/minio_reader.py:98 | the folder part is followed in the name by a `/` |
| MinioReader.CollectIff | graphab/minio_reader.py:94-100 | an element is collected exactly when some object gives it |
| MinioReader.IctFoldersIff | graphab/minio_reader.py:94-100 | a folder is found exactly when some object with a `/` lies in it and its lowercased name contains `ict`, plus a trailing `/` |
| MinioReader.IctFoldersEndInSlash | graphab/minio_reader.py:100 | every folder found ends with `/` |
| MinioReader.GetIctFolders | graphab/minio_reader.py:83-103 | the ICT folders, each once |
| MinioReader.ListOfSet | graphab/minio_reader.py:103 | the elements of the set, each once |
| MinioReader.AnySelects | graphab/minio_reader.py:147 | an object is selected exactly when it starts with some folder, right-stripped of `/`, plus `/` |
| MinioReader.SelectionMembers | graphab/minio_reader.py:145-151 | the selection keeps exactly the objects some folder selects |
| MinioReader.OwnFolderSelects | graphab/minio_reader.py:98-147 | the folder found for an object selects it |
| MinioReader.IctObjectsSelected | graphab/minio_reader.py:94-147 | every object in an ICT folder is selected |
| MinioReader.SaveResult | graphab/minio_reader.py:63-81 | the result is None on success or skip and the object's name when it raised; a skip changes nothing |
| MinioReader.SaveAdds | graphab/minio_reader.py:67-76 | a save only adds the object's folder and its file |
| MinioReader.TargetsAgree | graphab/minio_reader.py:67-76 | the skip test and the download use the same path `data_dir/<object>/<last component>` |
| MinioReader.SaveObjectLocally | graphab/minio_reader.py:63-81 | the returned failure and the new disk are those of one save at the object's paths (`SaveResult`, `SaveAdds`) |
| MinioReader.SaveEachShape | graphab/minio_reader.py:118-125 | one entry per object, in order, None or the object's own name; the disk only grows |
| MinioReader.SaveEachPrefix | graphab/minio_reader.py:121-123 | entry `k` is the save of object `k` on the disk the earlier ones left |
| MinioReader.SaveEachSkipsExisting | graphab/minio_reader.py:70-72 | with skipping, an object already there is not reported |
| MinioReader.SaveAllObjects | graphab/minio_reader.py:105-125 | every object of the bucket is saved under `data` in bucket order, one entry each in the failure list |
| MinioReader.SaveSelectedFolders | graphab/minio_reader.py:127-158 | the selected objects are saved under `bucket_ext` in bucket order, one entry each in the failure list |
| MinioReader.SelectedFailures | graphab/minio_reader.py:145-158 | one entry per selected object in bucket order, None or its name |
| MinioReader.Reported | graphab/minio_reader.py:180-182 | exactly the names that failed are printed |
| MinioReader.MainReportMissesExternal | graphab/minio_reader.py:186-190 | for a single failed external object `ict/lulc.tif`, the report as written is empty while the intended report names it |
| MinioReader.MainReportComplete | graphab/minio_reader.py:178-190 | the intended report names exactly the objects that failed in either download |
| MinioUploader.EnsureBucket | graphab/minio_uploader.py:30-36 | the bucket exists afterwards, `make_bucket` was sent exactly when it was missing, and the objects are unchanged |
| MinioUploader.Client.EnsureBucketExists | graphab/minio_uploader.py:85-90 | the client's new state is that of `EnsureBucket`: the bucket exists, `make_bucket` was sent only when it was missing, the objects are unchanged |
| MinioUploader.Client.FPut | graphab/minio_uploader.py:39-41 | the client's new state and outcome are those of one `fput_object`: the object is stored unless the upload raises |
| MinioUploader.Client.PutFile | graphab/minio_uploader.py:30-44 | the client's new state and outcome are those of `put_file`: bucket check, upload, versioning query, as proved in `PutFileCreatesBucket` |
| MinioUploader.Client.PutDir | graphab/minio_uploader.py:67-107 | the client's new state and outcome are those of `put_dir`: nothing when the path is not a folder, else the bucket check and the uploads of the pruned walk |
| MinioUploader.Client.UploadWalk | graphab/minio_uploader.py:94-107 | the client sends the uploads of every file of every walk entry in order, stopping at an exception other than S3Error |
| MinioUploader.Client.UploadFolder | graphab/minio_uploader.py:97-107 | the client sends the uploads of one directory's files in order; an S3Error is passed over and any other exception stops the loop |
| MinioUploader.PutFileCreatesBucket | graphab/minio_uploader.py:30-41 | the bucket is created exactly when missing, and the file is stored under the destination name unless the upload raises, which propagates |
| MinioUploader.WalkStartsAtRoot | graphab/minio_uploader.py:94 | the walk starts with the folder itself |
| MinioUploader.IgnoredSubfolderSkipped | graphab/minio_uploader.py:95 | an ignored subfolder contributes nothing to the walk |
| MinioUploader.WalkListsEveryFile | graphab/minio_uploader.py:94-97 | with nothing ignored the walk lists every file |
| MinioUploader.EntryPaths | graphab/minio_uploader.py:98 | one path per file |
| MinioUploader.UploadAllStops | graphab/minio_uploader.py:101-106 | after an exception other than S3Error, no later path is tried |
| MinioUploader.UploadWalkStops | graphab/minio_uploader.py:94-106 | a directory that raises ends the walk's uploads |
| MinioUploader.UploadAllAppend | graphab/minio_uploader.py:94-106 | uploading two runs of paths one after the other is uploading them together, while the first run passes |
| MinioUploader.UploadAllTriesEveryFile | graphab/minio_uploader.py:97-106 | without other exceptions every path is sent once, in order, under its local path, and the stored objects are those that did not fail |
| MinioUploader.PutDirBucketCalls | graphab/minio_uploader.py:80-90 | a path that is not a folder sends no request; otherwise the bucket is created exactly when missing |
| MinioUploader.UploadAllOnlyPuts | graphab/minio_uploader.py:97-106 | the uploads send only `fput_object` and leave the buckets alone |
| MinioUploader.Retry | graphab/minio_uploader.py:110-122 | the first success is returned; after a failure it sleeps `retry_wait` once and tries again; two failures give None; at most two calls |
| MinioUploader.RetryOfPutDirIsNone | graphab/minio_uploader.py:143-145 | `retry(put_dir, ...)` is None in every case, because `put_dir` returns None when it succeeds, so the completion message is never printed |
| MinioUploader.ExtFolderPrunedAsWritten | graphab/minio_uploader.py:95-143 | with the string `bucket_ext`, a folder named `ext` is pruned with its files, which the intended list uploads |
| MinioUploader.IntendedIgnorePrunesOnlyBucketExt | graphab/minio_uploader.py:95 | the intended list prunes exactly `bucket_ext` |
| LulcPaRasterSum.LulcPaRasterSum.constructor | preprocessing/src/protected_areas/lulc_pa_raster_sum.py:7-35 | the three working folders are `protected_areas/<name>` under the input or output path, made when missing |
| LulcPaRasterSum.MakeDirectoryIfNotExists | preprocessing/src/protected_areas/lulc_pa_raster_sum.py:37-49 | the path comes back unchanged and a folder is made only where nothing exists |
| LulcPaRasterSum.MadeDirsExists | preprocessing/src/protected_areas/lulc_pa_raster_sum.py:47-49 | afterwards the path exists, nothing else is made, and a second call changes nothing |
| LulcPaRasterSum.LulcPaRasterSum.AssignNoDataValues | preprocessing/src/protected_areas/lulc_pa_raster_sum.py:51-64 | one `gdal_translate` per listed file, in order, from `lulc_dir` to its temporary name; files and folders unchanged |
| LulcPaRasterSum.TranslateCommands | preprocessing/src/protected_areas/lulc_pa_raster_sum.py:56-63 | each listed file is copied to its temporary name in the temporary folder |
| LulcPaRasterSum.YearOf | preprocessing/src/protected_areas/lulc_pa_raster_sum.py:78 | the year fails exactly for a name without `_`, with an IndexError, and has no `_` or `.` |
| LulcPaRasterSum.YearOfTempName | preprocessing/src/protected_areas/lulc_pa_raster_sum.py:59-78 | the temporary copy of `<prefix>_<year>.tif` gives back `<year>` |
| LulcPaRasterSum.YearOfTemp | preprocessing/src/protected_areas/lulc_pa_raster_sum.py:78 | the year of `<prefix>_<year>_temp.tif` is `<year>` |
| LulcPaRasterSum.TempNameOfStem | preprocessing/src/protected_areas/lulc_pa_raster_sum.py:59 | the temporary name of `<stem>.tif` is `<stem>_temp.tif` |
| LulcPaRasterSum.SplitLength | preprocessing/src/protected_areas/lulc_pa_raster_sum.py:78 | `split('_')` gives two or more pieces exactly when the name has a `_` |
| LulcPaRasterSum.UnreadableYearRaises | preprocessing/src/protected_areas/lulc_pa_raster_sum.py:78 | a name without `_` raises an IndexError |
| LulcPaRasterSum.PlannedNames | preprocessing/src/protected_areas/lulc_pa_raster_sum.py:79-85 | the protected-area file is `pa_<year>.tif` or `pa_multi_year.tif`, and the sum is `lulc_<year>_pa.tif` |
| LulcPaRasterSum.MultiYearRasterForAll | preprocessing/src/protected_areas/lulc_pa_raster_sum.py:82-83 | without yearly rasters every file uses `pa_multi_year.tif` |
| LulcPaRasterSum.StepOf | preprocessing/src/protected_areas/lulc_pa_raster_sum.py:78-85 | a file is unreadable exactly when its year is, and otherwise has its year and protected-area file |
| LulcPaRasterSum.Steps | preprocessing/src/protected_areas/lulc_pa_raster_sum.py:77 | one step per file, in order |
| LulcPaRasterSum.LulcPaRasterSum.PlanSums | preprocessing/src/protected_areas/lulc_pa_raster_sum.py:77-97 | the commands added are the sums of the steps up to the first failing file, and the outcome is that failure or Pass; files and folders unchanged |
| LulcPaRasterSum.LulcPaRasterSum.SumOneFile | preprocessing/src/protected_areas/lulc_pa_raster_sum.py:78-97 | one file adds its `gdal_calc` sum when its year reads and its protected-area raster exists, and raises otherwise |
| LulcPaRasterSum.SumCommandsAll | preprocessing/src/protected_areas/lulc_pa_raster_sum.py:77-95 | when every year reads and every raster exists, one sum per file, in order |
| LulcPaRasterSum.FirstFailureRaises | preprocessing/src/protected_areas/lulc_pa_raster_sum.py:78-97 | the first failing file raises, an IndexError or a FileNotFoundError naming the year, after the sums before it and with none after |
| LulcPaRasterSum.SumCommandsStop | preprocessing/src/protected_areas/lulc_pa_raster_sum.py:77-97 | once a file raised nothing more is added |
| LulcPaRasterSum.SumCommandsOnlyCalc | preprocessing/src/protected_areas/lulc_pa_raster_sum.py:86-94 | the sums never remove anything |
| LulcPaRasterSum.TempRemovedIff | preprocessing/src/protected_areas/lulc_pa_raster_sum.py:99-101 | the temporary folder is removed exactly when the files are not kept and no file raised |
| LulcPaRasterSum.LulcPaRasterSum.CombinePaLulc | preprocessing/src/protected_areas/lulc_pa_raster_sum.py:66-101 | the commands are the sums followed by the removal of the temporary folder unless kept or a file raised; files and folders unchanged |
| PyStr.SplitJoin | graphab/glob_indices.py:27 | joining the pieces of `split` gives back the text |
| PyStr.ReplaceIsSplitJoin | graphab/impedance_csv2tif.py:85 | `replace` is `rep.join(s.split(pat))` |
| PyStr.RStripChar | graphab/minio_reader.py:147 | `rstrip` keeps a prefix that does not end with the character, and removes only that character |
| PyStr.Strip | graphab/postproc.py:459 | `strip` leaves a piece of the text that neither starts nor ends with whitespace |
| PyPath.Basename | graphab/postproc.py:638 | the base name has no `/` and ends the path |
| PyPath.JoinRelative | graphab/postproc.py:646 | joining a relative name puts one `/` between the parts |
| PyDatetime.Strptime | graphab/postproc.py:469 | a parsed timestamp is a valid `datetime`; failure is a ValueError |
| PyDatetime.StrptimeFormat | graphab/postproc.py:469 | parsing the formatted timestamp gives it back |
| PyNum.ParseInt | graphab/impedance_csv2tif.py:47-50 | `int()` of blank text is a ValueError |
| PyNum.ParseIntOfText | graphab/impedance_csv2tif.py:50 | `int(str(n)) == n` |
| PyNum.ParseFloatOfDecimal | graphab/impedance_csv2tif.py:47 | `float` of `<digits>.<digits>` is the number written |

## Left out

- Raster, vector and file I/O: GDAL. That means opening, reading, writing, metadata and
  `FlushCache`, and the statistics of `create_stats` (`ComputeStatistics`, NaN and inf checks,
  the CSV append).
- Raster, vector and file I/O: pandas files as files (reading and writing a table is a
  parameter or a result), YAML parsing, and `os.remove` / `os.rename`.
- The shell tools: the `subprocess` calls to `gdal_translate`, `gdalwarp`, `gdal_calc.py`,
  `gdalinfo` and `rm -rf`. Only the commands planned, with their paths and order, are modelled.
  `translate_tif` and `is_cog` are left out, and `is_cog`'s answer is a parameter.
- Printing, logging and the redirection of standard output: they change no modelled state.
- `create_vis` in both scripts: matplotlib plotting.
- `glob_wrapper`'s `del_temp` branch: it only prints the names.
- `graphab/main.py` is not part of this model: orchestration through `os.system`.
- `graphab/minio_client.py` is not part of this model: SDK client construction.
- `graphab/utils.py` is not part of this model: a wall-clock timer.
- The MinIO SDK: each request is a named call on a recorded store. Whether a download or an
  upload fails is a parameter. Listing errors that surface while a bucket is iterated are not
  modelled. `bucket_exists`, `make_bucket` and `get_bucket_versioning` are modelled as always
  succeeding (`Client.EnsureBucketExists`, `Client.PutFile`); their network and permission
  errors are not modelled.
- `random.sample` in `apply_nodata_mask`: the sampled offsets are a parameter, required to be
  ten offsets inside the band.
- The geotransform origin shift of `clip_output` (floating point).
- The `1/data` of `reclassify_impedance2affinity` on rasters: `AffinityValue` states it for one
  pixel over exact reals. Float32 rounding is not modelled.
- pandas dtype inference: cells stay text. `pd.concat` is modelled as the union of the columns
  in first-appearance order, with an empty cell for a missing value.
- `extract_habitat_xml`'s ElementTree parsing: the habitat it returns is a parameter.
- `reclassify_lulc2impedance` when the input raster cannot be opened (lines 58-61): a GDAL
  failure.
- `os.makedirs` creating missing ancestor folders: folders are a flat set of paths, and a
  makedirs fails only when the exact path is a file.
- PyDatetime.Strptime: only the fixed format `%Y-%m-%d %H:%M:%S` is modelled. Its year is
  exactly four digits, as `%Y` requires.
- PyNum.ParseFloat: it covers decimal notation only, not `inf`, `nan`, underscores or
  hexadecimal. Its value is the exact rational, not its binary64 rounding.
- PyStr.Lower: it lowercases ASCII letters only.
- PyStr.IsDigit: it accepts the ASCII digits only. Python's `\d` in a text pattern,
  `strptime` and `int()` also accept other Unicode decimal digits, and `int()` accepts `_`
  between digits (`1_000`). The members built on it inherit this: `PyStr.AllDigits`,
  `PostProc.YearIsFirstPlausiblePart`, `JoinGpkg2Tif.XmlYear`, `PyDatetime.Strptime` and
  `PyNum.ParseInt`.
- PostProcRaster.CheckAndClip: a negative `size` with the buffer present is not modelled
  fully. `clip_output` then overwrites the input with an empty raster before it fails, and
  `check_and_clip` returns False over the overwritten file; the model returns the bands
  unchanged. The only caller passes `size=1`.
- GlobIndices.ConcatIn: each folder's concatenation reads the tables after that folder's own
  `append_year2txt`. When two configuration files name the same habitat, the year columns
  written on the first pass are written again, and that earlier pass is not threaded through.
- GlobIndices.SetColumn: only the first column of a repeated name is assigned; pandas with
  duplicate labels is not modelled.
- MinioReader.GetIctFolders: the order `list(set)` gives is arbitrary. The output is specified
  as duplicate-free, with the right elements, in some order.

## Findings

| source | as written | input that shows it | evidently intended | confidence | as-written member | corrected member |
|---|---|---|---|---|---|---|
| graphab/postproc.py:47-50 | the file loop always passes `cog=True`, which opens the raster read-only, so the masked array is never written back | a 2 by 5 band whose first pixel holds the input nodata `-7` keeps `-7` | the docstring's "rewriting input tif": open for update and store the masked pixels | medium, not executed (depends on GDAL refusing writes to a read-only dataset) | PostProcRaster.ApplyNodataMask, PostProcRaster.ReadOnlyMaskKeepsPixel | PostProcRaster.ApplyNodataMaskForUpdate |
| graphab/join_gpkg2tif.py:95-97 | `create_output_tiff` returns a bare `None` on failure; unpacking it into two names raises a TypeError before the `None` test | one field `PC_30` whose raster cannot be created | skip that field and go on with the others | high, not executed | JoinGpkg2Tif.RasterizeGeopackageAsWritten, JoinGpkg2Tif.UncreatableFieldRaises | JoinGpkg2Tif.RasterizeGeopackage |
| graphab/impedance_csv2tif.py:72-76 | `np.vectorize(reclass_dict.get, otypes=[int])` evaluates `get` on every pixel; the `None` for a missing code cannot become an `int`, so integer mode raises before `np.where` applies nodata | a band `[[7]]` with the table `{1: 5}` in integer mode | a code missing from the table becomes `out_nodata` | medium, not executed (numpy casting behaviour) | ImpedanceCsv2Tif.ReclassifyAsWritten, ImpedanceCsv2Tif.IntegerModeMissingCodeRaises | ImpedanceCsv2Tif.Reclassify, ImpedanceCsv2Tif.ReclassifyLulc2Impedance |
| graphab/minio_reader.py:188-190 | the second report loop iterates `failed_files` again, not `failed_files_ext` | no internal failure and the external object `ict/lulc.tif` failing | report the failures of the external download | high, not executed | MinioReader.MainReportAsWritten, MinioReader.MainReportMissesExternal | MinioReader.MainReport, MinioReader.MainReportComplete |
| graphab/minio_uploader.py:143 | `ignore_folders='bucket_ext'` is a string, so `d not in ignore_folders` is a substring test | a subfolder `ext` holding `lulc.tif` is pruned | the list `['bucket_ext']`, pruning that folder only | high, not executed | MinioUploader.ExtFolderPrunedAsWritten | MinioUploader.IntendedIgnorePrunesOnlyBucketExt |
