/**
 The tag and command bookkeeping of the DICOM <-> NIfTI conversions:

 - the argument list handed to the external `dcm2niix` converter;
 - the naming of the NIfTI files written for the series of a DICOM directory;
 - the NIfTI -> DICOM direction: dispatch on the kind of input, choice of the
   reference series, projection of the allow-listed study tags, the
   series-level tags synthesised once per call and the per-slice tags, and
   the best-effort loop that writes one `<i>.dcm` per slice.

 Pixel data, the file system, the clock and the imaging library are not
 modelled: what the code reads from them arrives as parameters (the series
 found in a directory, the metadata of a reference, the capture date and
 time strings, the printed direction cosines and physical points, and an
 oracle saying which slice writes fail).
 */
module Conversion {
  import opened Text

  datatype Option<T> = None | Some(value: T)

  /** The errors the conversions raise. */
  datatype Error =
    | InvalidDirectory      // the input path is not an existing directory
    | NoDicomSeries         // the input directory holds no DICOM series
    | NoReferenceSeries     // the reference directory holds no DICOM series
    | InvalidReference      // the reference is neither a file nor a directory
    | UnsupportedInputType  // the input is not a path, an image or an array (a TypeError)
    | DirectionIndexError   // the direction has too few entries for the orientation (an IndexError)

  datatype Result<T> = Ok(value: T) | Err(error: Error)

  /** Python truthiness of an optional string: `None` and `""` are false. */
  predicate Given(name: Option<string>)
  {
    name.Some? && name.value != []
  }

  predicate Distinct<T(==)>(s: seq<T>)
  {
    forall i, j :: 0 <= i < j < |s| ==> s[i] != s[j]
  }

  /** `xs` is made of elements of `ys`, taken in the order of `ys`. */
  predicate IsSubsequence<T(==)>(xs: seq<T>, ys: seq<T>)
    decreases |ys|
  {
    if ys == [] then xs == []
    else (xs != [] && xs[0] == ys[0] && IsSubsequence(xs[1..], ys[1..])) || IsSubsequence(xs, ys[1..])
  }

  // ---------------------------------------------------------------------------
  // dcm2niix
  // ---------------------------------------------------------------------------

  /** The argument list of the `dcm2niix` call: the program name, the name
      pattern (`-f`, only when one is given), the output directory (`-o`),
      the compression switch (`-z y` or `-z n`) and, always last, the input
      directory. */
  function Dcm2niixCommand(inputDir: string, outputDir: string, fileName: Option<string>, compress: bool): (cmd: seq<string>)
    ensures |cmd| == if Given(fileName) then 8 else 6
    ensures cmd[0] == "dcm2niix" && cmd[|cmd| - 1] == inputDir
    ensures Given(fileName) ==> cmd[1] == "-f" && cmd[2] == fileName.value
    ensures !Given(fileName) ==> cmd[1] == "-o"
    ensures cmd[|cmd| - 5] == "-o" && cmd[|cmd| - 4] == outputDir
    ensures cmd[|cmd| - 3] == "-z" && (cmd[|cmd| - 2] == "y" <==> compress) && (cmd[|cmd| - 2] == "n" <==> !compress)
  {
    ["dcm2niix"]
    + (if Given(fileName) then ["-f", fileName.value] else [])
    + ["-o", outputDir, "-z", if compress then "y" else "n", inputDir]
  }

  /** What the converter is told to do. */
  datatype Dcm2niixOptions = Dcm2niixOptions(inputDir: string, outputDir: string, namePattern: Option<string>, compress: bool)

  /** Reads an argument list of the shape built above back into options. */
  function ParseDcm2niixCommand(cmd: seq<string>): Option<Dcm2niixOptions>
  {
    if |cmd| == 8 && cmd[0] == "dcm2niix" && cmd[1] == "-f" && cmd[3] == "-o" && cmd[5] == "-z" && (cmd[6] == "y" || cmd[6] == "n") then
      Some(Dcm2niixOptions(cmd[7], cmd[4], Some(cmd[2]), cmd[6] == "y"))
    else if |cmd| == 6 && cmd[0] == "dcm2niix" && cmd[1] == "-o" && cmd[3] == "-z" && (cmd[4] == "y" || cmd[4] == "n") then
      Some(Dcm2niixOptions(cmd[5], cmd[2], None, cmd[4] == "y"))
    else
      None
  }

  /** The argument list is unambiguous: it reads back as the options it was
      built from (an empty name pattern counts as none). */
  lemma Dcm2niixCommandReadsBack(inputDir: string, outputDir: string, fileName: Option<string>, compress: bool)
    ensures ParseDcm2niixCommand(Dcm2niixCommand(inputDir, outputDir, fileName, compress))
         == Some(Dcm2niixOptions(inputDir, outputDir, if Given(fileName) then fileName else None, compress))
  {
  }

  /** `dcm2niix` up to the process call: the input directory is checked, then
      the argument list is grown piece by piece. */
  method BuildDcm2niixCommand(inputIsDirectory: bool, inputDir: string, outputDir: string, fileName: Option<string>, compress: bool)
    returns (r: Result<seq<string>>)
    ensures !inputIsDirectory ==> r == Err(InvalidDirectory)
    ensures inputIsDirectory ==> r == Ok(Dcm2niixCommand(inputDir, outputDir, fileName, compress))
  {
    if !inputIsDirectory {
      return Err(InvalidDirectory);
    }
    var cmd := ["dcm2niix"];
    if Given(fileName) {
      cmd := cmd + ["-f", fileName.value];
    }
    assert cmd == ["dcm2niix"] + (if Given(fileName) then ["-f", fileName.value] else []);
    cmd := cmd + ["-o", outputDir, "-z", if compress then "y" else "n", inputDir];
    r := Ok(cmd);
  }

  // ---------------------------------------------------------------------------
  // DICOM -> NIfTI: one output file per series
  // ---------------------------------------------------------------------------

  /** The series `seriesId` of the input directory is written to `fileName`
      inside the output directory. */
  datatype NiftiOutput = NiftiOutput(seriesId: string, fileName: string)

  datatype Warning =
    | MultipleSeries                   // more than one series was found
    | FileNameIgnored(seriesId: string) // the custom name was dropped for this series

  /** The name of the `i`-th output: `<series id>.nii.gz`, or the custom name
      when one is given and the directory holds exactly one series. Outside
      that case the series id is read back by dropping the extension. */
  function OutputFileName(seriesIds: seq<string>, fileName: Option<string>, i: nat): (name: string)
    requires i < |seriesIds|
    ensures Given(fileName) && |seriesIds| == 1 ==> name == fileName.value && name != []
    ensures !(Given(fileName) && |seriesIds| == 1) ==>
      && |name| == |seriesIds[i]| + 7
      && name[..|seriesIds[i]|] == seriesIds[i]
      && name[|seriesIds[i]|..] == ".nii.gz"
  {
    if Given(fileName) && |seriesIds| == 1 then fileName.value else seriesIds[i] + ".nii.gz"
  }

  /** With several series the custom name makes no difference: every output
      is named as if no name had been given. */
  lemma OutputFileNameIgnoresCustomName(seriesIds: seq<string>, fileName: Option<string>, i: nat)
    requires 1 < |seriesIds| && i < |seriesIds|
    ensures OutputFileName(seriesIds, fileName, i) == OutputFileName(seriesIds, None, i)
  {
  }

  /** Distinct series are written to distinct files: no output overwrites
      another. */
  lemma OutputFileNamesDistinct(seriesIds: seq<string>, fileName: Option<string>, i: nat, j: nat)
    requires Distinct(seriesIds)
    requires i < j < |seriesIds|
    ensures OutputFileName(seriesIds, fileName, i) != OutputFileName(seriesIds, fileName, j)
  {
  }

  /** `dicom_to_nifti_itk` without the reading and writing of images: the
      checks on the input, then one output per series in the order the
      series are listed, with the warnings the code logs. */
  method DicomToNiftiOutputs(inputIsDirectory: bool, seriesIds: seq<string>, fileName: Option<string>)
    returns (r: Result<seq<NiftiOutput>>, warnings: seq<Warning>)
    ensures !inputIsDirectory ==> r == Err(InvalidDirectory)
    ensures inputIsDirectory && |seriesIds| == 0 ==> r == Err(NoDicomSeries)
    ensures r.Ok? <==> inputIsDirectory && |seriesIds| > 0
    ensures r.Ok? ==> |r.value| == |seriesIds|
    ensures r.Ok? ==> forall i :: 0 <= i < |seriesIds| ==>
      r.value[i] == NiftiOutput(seriesIds[i], OutputFileName(seriesIds, fileName, i))
    ensures |seriesIds| <= 1 || r.Err? ==> warnings == []
    ensures r.Ok? && |seriesIds| > 1 ==>
      && |warnings| == (if Given(fileName) then 1 + |seriesIds| else 1)
      && warnings[0] == MultipleSeries
      && forall i :: 1 <= i < |warnings| ==> warnings[i] == FileNameIgnored(seriesIds[i - 1])
  {
    warnings := [];
    if !inputIsDirectory {
      return Err(InvalidDirectory), warnings;
    }
    if |seriesIds| == 0 {
      return Err(NoDicomSeries), warnings;
    }
    if |seriesIds| > 1 {
      warnings := warnings + [MultipleSeries];
    }
    var outputs: seq<NiftiOutput> := [];
    var k := 0;
    while k < |seriesIds|
      invariant 0 <= k <= |seriesIds|
      invariant |outputs| == k
      invariant forall i :: 0 <= i < k ==> outputs[i] == NiftiOutput(seriesIds[i], OutputFileName(seriesIds, fileName, i))
      invariant |seriesIds| <= 1 ==> warnings == []
      invariant |seriesIds| > 1 ==>
        && |warnings| == (if Given(fileName) then 1 + k else 1)
        && warnings[0] == MultipleSeries
        && forall i :: 1 <= i < |warnings| ==> warnings[i] == FileNameIgnored(seriesIds[i - 1])
    {
      var seriesId := seriesIds[k];
      var outputPath := seriesId + ".nii.gz";
      if Given(fileName) {
        if |seriesIds| > 1 {
          warnings := warnings + [FileNameIgnored(seriesId)];
        } else {
          outputPath := fileName.value;
        }
      }
      outputs := outputs + [NiftiOutput(seriesId, outputPath)];
      k := k + 1;
    }
    r := Ok(outputs);
  }

  // ---------------------------------------------------------------------------
  // NIfTI -> DICOM: tags
  // ---------------------------------------------------------------------------

  /** A tag list: ordered (tag, value) pairs, tags written `group|element`. */
  type TagList = seq<(string, string)>

  function TagKeys(tags: TagList): seq<string>
  {
    seq(|tags|, i requires 0 <= i < |tags| => tags[i].0)
  }

  const PatientName := "0010|0010"

  /** The study-level tags copied from a reference. Patient Name is left out
      on purpose. */
  const AllowList: seq<string> := [
    "0010|0020",  // Patient ID
    "0010|0030",  // Patient Birth Date
    "0020|000D",  // Study Instance UID
    "0020|0010",  // Study ID
    "0008|0020",  // Study Date
    "0008|0030",  // Study Time
    "0008|0050",  // Accession Number
    "0008|0060"   // Modality
  ]

  // Series-level tags synthesised for every call.
  const SeriesTime := "0008|0031"
  const SeriesDate := "0008|0021"
  const ImageType := "0008|0008"
  const SeriesInstanceUid := "0020|000e"
  const ImageOrientationPatient := "0020|0037"
  const DerivedSecondary := "DERIVED\\SECONDARY"

  // Per-slice tags.
  const InstanceCreationDate := "0008|0012"
  const InstanceCreationTime := "0008|0013"
  const ImagePositionPatient := "0020|0032"
  const InstanceNumber := "0020|0013"

  const SynthesizedTags: seq<string> := [SeriesTime, SeriesDate, ImageType, SeriesInstanceUid, ImageOrientationPatient]
  const SliceTags: seq<string> := [InstanceCreationDate, InstanceCreationTime, ImagePositionPatient, InstanceNumber]

  lemma TagTablesDisjoint()
    ensures Distinct(AllowList) && Distinct(SynthesizedTags) && Distinct(SliceTags)
    ensures PatientName !in AllowList
    ensures forall k :: k in AllowList ==> k !in SynthesizedTags && k !in SliceTags
    ensures forall k :: k in SynthesizedTags ==> k !in SliceTags
  {
  }

  /** The allow-listed tags the reference defines, looked up by their
      lower-cased form, in allow-list order and under their original spelling. */
  function Project(keys: seq<string>, metadata: map<string, string>): (r: TagList)
    ensures |r| <= |keys|
    ensures forall p :: p in r ==> p.0 in keys && Lower(p.0) in metadata && p.1 == metadata[Lower(p.0)]
    ensures forall k :: k in keys && Lower(k) in metadata ==> (k, metadata[Lower(k)]) in r
    ensures IsSubsequence(TagKeys(r), keys)
    ensures Distinct(keys) ==> Distinct(TagKeys(r))
    decreases |keys|
  {
    if keys == [] then []
    else
      var rest := Project(keys[1..], metadata);
      if Lower(keys[0]) in metadata then
        var r := [(keys[0], metadata[Lower(keys[0])])] + rest;
        assert TagKeys(r) == [keys[0]] + TagKeys(rest);
        assert TagKeys(r)[1..] == TagKeys(rest);
        ProjectHeadIsFresh(keys, rest);
        r
      else
        rest
  }

  /** With distinct keys, the head key is not among the keys projected from
      the tail. */
  lemma ProjectHeadIsFresh(keys: seq<string>, rest: TagList)
    requires |keys| > 0
    requires forall p :: p in rest ==> p.0 in keys[1..]
    ensures Distinct(keys) ==> keys[0] !in TagKeys(rest)
  {
    if Distinct(keys) {
      forall j | 0 <= j < |keys| - 1 ensures keys[1..][j] != keys[0] {
        assert keys[1..][j] == keys[j + 1];
      }
      forall i | 0 <= i < |rest| ensures TagKeys(rest)[i] != keys[0] {
        assert rest[i] in rest;
      }
    }
  }

  /** A reference for the tags to copy: none, a directory with the series
      found in it (each with the metadata of its first frame, keyed by
      lower-cased tag), a single file with its metadata, or a path that is
      neither. */
  datatype Series = Series(id: string, frameZero: map<string, string>)
  datatype Reference =
    | NoReference
    | ReferenceDirectory(series: seq<Series>)
    | ReferenceFile(metadata: map<string, string>)
    | ReferenceNotFound

  /** The tags copied from the reference. From a directory, the first series
      is used; a directory without series and a path that is neither file nor
      directory are errors; no reference copies nothing. */
  function ReferenceTags(reference: Reference): (r: Result<TagList>)
    ensures r.Err? <==> reference.ReferenceNotFound? || (reference.ReferenceDirectory? && |reference.series| == 0)
    ensures reference.ReferenceNotFound? ==> r == Err(InvalidReference)
    ensures reference.ReferenceDirectory? && |reference.series| == 0 ==> r == Err(NoReferenceSeries)
    ensures reference.NoReference? ==> r == Ok([])
    ensures reference.ReferenceFile? ==> r == Ok(Project(AllowList, reference.metadata))
    ensures reference.ReferenceDirectory? && |reference.series| > 0 ==> r == Ok(Project(AllowList, reference.series[0].frameZero))
    ensures r.Ok? ==> Distinct(TagKeys(r.value))
    ensures r.Ok? ==> forall p :: p in r.value ==> p.0 in AllowList && p.0 != PatientName
  {
    TagTablesDisjoint();
    match reference
    case NoReference => Ok([])
    case ReferenceDirectory(series) =>
      if |series| == 0 then Err(NoReferenceSeries) else Ok(Project(AllowList, series[0].frameZero))
    case ReferenceFile(metadata) => Ok(Project(AllowList, metadata))
    case ReferenceNotFound => Err(InvalidReference)
  }

  /** Series after the first do not matter: two directories whose first
      series agree give the same tags. */
  lemma ReferenceTagsUseFirstSeries(s: seq<Series>, t: seq<Series>)
    requires |s| > 0 && |t| > 0 && s[0] == t[0]
    ensures ReferenceTags(ReferenceDirectory(s)) == ReferenceTags(ReferenceDirectory(t))
    ensures ReferenceTags(ReferenceDirectory(s)) == ReferenceTags(ReferenceFile(s[0].frameZero))
  {
  }

  /** A reference that defines only some allow-listed tags yields exactly
      those, in allow-list order, with the reference's values and nothing
      made up for the others. */
  lemma ProjectKeepsPresentTags(metadata: map<string, string>, k: string)
    ensures var r := Project(AllowList, metadata);
      && IsSubsequence(TagKeys(r), AllowList)
      && (k in TagKeys(r) <==> k in AllowList && Lower(k) in metadata)
  {
    var r := Project(AllowList, metadata);
    if k in TagKeys(r) {
      var i :| 0 <= i < |r| && TagKeys(r)[i] == k;
      assert r[i] in r;
    }
    if k in AllowList && Lower(k) in metadata {
      var p := (k, metadata[Lower(k)]);
      assert p in r;
      var i :| 0 <= i < |r| && r[i] == p;
      assert TagKeys(r)[i] == k;
    }
  }

  // --- Series Instance UID ---------------------------------------------------

  const UidRoot := "1.2.826.0.1.3680043.2.1125."

  /** The synthetic Series Instance UID: the root, then the capture date,
      then ".1", then the capture time. For a `%Y%m%d` date and a `%H%M%S`
      time it is 43 characters long, within the 64 that section 9.1 of
      DICOM PS3.5 allows. */
  function SeriesUid(date: string, time: string): (uid: string)
    ensures var n := |UidRoot|;
      && |uid| == n + |date| + 2 + |time|
      && uid[..n] == UidRoot && uid[n..n + |date|] == date
      && uid[n + |date|..n + |date| + 2] == ".1" && uid[n + |date| + 2..] == time
    ensures |date| == 8 && |time| == 6 ==> |uid| == 43
  {
    UidRoot + date + ".1" + time
  }

  /** Distinct capture instants give distinct UIDs; the same instant gives the
      same UID, so two calls within one second collide. */
  lemma SeriesUidDistinct(date1: string, time1: string, date2: string, time2: string)
    requires |date1| == 8 && |date2| == 8
    ensures SeriesUid(date1, time1) == SeriesUid(date2, time2) <==> date1 == date2 && time1 == time2
  {
  }

  // --- Image Orientation (Patient) -------------------------------------------

  /** The row and column direction cosines: the first and then the second
      column of the row-major 3x3 direction matrix (entries 0, 3, 6, 1, 4, 7). */
  function OrientationValues(direction: seq<string>): (values: seq<string>)
    requires |direction| >= 8
    ensures |values| == 6
    ensures forall k :: 0 <= k < 6 ==> values[k] == direction[3 * (k % 3) + k / 3]
  {
    [direction[0], direction[3], direction[6], direction[1], direction[4], direction[7]]
  }

  /** Image Orientation (Patient): the six cosines joined with '\'. A direction
      with fewer than 8 entries (a 2-D image) makes the indexing fail. */
  function Orientation(direction: seq<string>): (r: Result<string>)
    ensures r.Err? <==> |direction| < 8
    ensures r.Err? ==> r.error == DirectionIndexError
  {
    if |direction| < 8 then Err(DirectionIndexError) else Ok(Join('\\', OrientationValues(direction)))
  }

  /** The orientation is a six-valued backslash-delimited value (section 6.4
      of DICOM PS3.5) whose values are the cosines of the first two columns of
      the direction matrix. */
  lemma OrientationReadsBack(direction: seq<string>)
    requires |direction| >= 8
    requires forall i :: 0 <= i < |direction| ==> '\\' !in direction[i]
    ensures Orientation(direction).Ok?
    ensures var values := Split(Orientation(direction).value, '\\');
      |values| == 6 && values == [direction[0], direction[3], direction[6], direction[1], direction[4], direction[7]]
  {
    SplitJoin(OrientationValues(direction), '\\');
  }

  // --- Series and slice tags -------------------------------------------------

  /** The tags every slice carries: the projected reference tags followed by
      Series Time, Series Date, Image Type, Series Instance UID and Image
      Orientation (Patient). */
  function SeriesTags(projected: TagList, time: string, date: string, orientation: string): (tags: TagList)
    ensures |tags| == |projected| + 5
    ensures tags[..|projected|] == projected
    ensures TagKeys(tags)[|projected|..] == SynthesizedTags
  {
    projected + [
      (SeriesTime, time),
      (SeriesDate, date),
      (ImageType, DerivedSecondary),
      (SeriesInstanceUid, SeriesUid(date, time)),
      (ImageOrientationPatient, orientation)
    ]
  }

  /** When the projection comes from the allow-list, all tags of the series
      are distinct and none of them is a per-slice tag. */
  lemma SeriesTagsWellFormed(projected: TagList, time: string, date: string, orientation: string)
    requires Distinct(TagKeys(projected))
    requires forall p :: p in projected ==> p.0 in AllowList
    ensures var tags := SeriesTags(projected, time, date, orientation);
      && Distinct(TagKeys(tags))
      && forall k :: k in SliceTags ==> k !in TagKeys(tags)
  {
    TagTablesDisjoint();
    var tags := SeriesTags(projected, time, date, orientation);
    var keys := TagKeys(tags);
    var n := |projected|;
    assert forall i :: 0 <= i < n ==> keys[i] == TagKeys(projected)[i];
    assert forall i :: 0 <= i < n ==> keys[i] in AllowList by {
      forall i | 0 <= i < n ensures keys[i] in AllowList {
        assert projected[i] in projected;
      }
    }
    assert keys[n..] == SynthesizedTags;
    forall i, j | 0 <= i < j < |keys| ensures keys[i] != keys[j] {
      if j < n {
        assert TagKeys(projected)[i] != TagKeys(projected)[j];
      } else if i < n {
        assert keys[j] == SynthesizedTags[j - n];
      } else {
        assert keys[i] == SynthesizedTags[i - n] && keys[j] == SynthesizedTags[j - n];
      }
    }
    forall k | k in SliceTags ensures k !in keys {
      forall i | 0 <= i < |keys| ensures keys[i] != k {
        if i >= n {
          assert keys[i] == SynthesizedTags[i - n];
        }
      }
    }
  }

  /** `SetMetaData(tag, value)` for each pair in turn, starting from `m`:
      later pairs overwrite earlier ones. */
  function ApplyTags(m: map<string, string>, tags: TagList): (r: map<string, string>)
    ensures r.Keys == m.Keys + (set p | p in tags :: p.0)
    decreases |tags|
  {
    if tags == [] then m
    else
      var init := tags[..|tags| - 1];
      var last := tags[|tags| - 1];
      assert (set p | p in tags :: p.0) == (set p | p in init :: p.0) + {last.0} by {
        assert tags == init + [last];
      }
      ApplyTags(m, init)[last.0 := last.1]
  }

  /** With distinct tags, every pair of the list is found in the result. */
  lemma {:induction false} ApplyTagsLookup(m: map<string, string>, tags: TagList, j: nat)
    requires Distinct(TagKeys(tags))
    requires j < |tags|
    ensures tags[j].0 in ApplyTags(m, tags) && ApplyTags(m, tags)[tags[j].0] == tags[j].1
    decreases |tags|
  {
    if j < |tags| - 1 {
      var init := tags[..|tags| - 1];
      assert TagKeys(tags)[j] != TagKeys(tags)[|tags| - 1];
      assert TagKeys(init) == TagKeys(tags)[..|tags| - 1];
      ApplyTagsLookup(m, init, j);
    }
  }

  /** The metadata of slice `i`: all series tags, then Instance Creation Date,
      Instance Creation Time, Image Position (Patient) (the printed physical
      point of index (0, 0, i), joined with '\') and Instance Number; it holds
      those tags and nothing else.
      As in the code, the creation-date tag receives the time string and the
      creation-time tag the date string. */
  function SliceMetadata(seriesTags: TagList, time: string, date: string, point: seq<string>, i: nat): (m: map<string, string>)
    ensures m.Keys == (set p | p in seriesTags :: p.0) + {InstanceCreationDate, InstanceCreationTime, ImagePositionPatient, InstanceNumber}
  {
    ApplyTags(map[], seriesTags)
      [InstanceCreationDate := time]
      [InstanceCreationTime := date]
      [ImagePositionPatient := Join('\\', point)]
      [InstanceNumber := NatToString(i)]
  }

  /** Every slice carries every series tag with its series value. */
  lemma SliceCarriesSeriesTags(seriesTags: TagList, time: string, date: string, point: seq<string>, i: nat, j: nat)
    requires Distinct(TagKeys(seriesTags))
    requires forall k :: k in SliceTags ==> k !in TagKeys(seriesTags)
    requires j < |seriesTags|
    ensures var m := SliceMetadata(seriesTags, time, date, point, i);
      seriesTags[j].0 in m && m[seriesTags[j].0] == seriesTags[j].1
  {
    ApplyTagsLookup(map[], seriesTags, j);
    assert TagKeys(seriesTags)[j] == seriesTags[j].0;
    assert seriesTags[j].0 !in SliceTags;
  }

  /** The per-slice values: Image Position (Patient) reads back as the point's
      coordinates, Instance Number as `i`, and the creation tags hold the
      capture strings, with date and time swapped as in the code. */
  lemma SliceTagValues(seriesTags: TagList, time: string, date: string, point: seq<string>, i: nat)
    requires |point| >= 1 && forall c :: 0 <= c < |point| ==> '\\' !in point[c]
    ensures var m := SliceMetadata(seriesTags, time, date, point, i);
      && Split(m[ImagePositionPatient], '\\') == point
      && m[InstanceNumber] == NatToString(i) && DecimalValue(m[InstanceNumber]) == i
      && m[InstanceCreationDate] == time && m[InstanceCreationTime] == date
  {
    SplitJoin(point, '\\');
    DecimalValueOfNatToString(i);
  }

  /** Two slices of one call differ only in Image Position (Patient) and
      Instance Number: the creation timestamps are captured once and shared. */
  lemma SlicesShareAllButPosition(seriesTags: TagList, time: string, date: string, p: seq<string>, q: seq<string>, i: nat, j: nat, k: string)
    requires k != ImagePositionPatient && k != InstanceNumber
    ensures var a, b := SliceMetadata(seriesTags, time, date, p, i), SliceMetadata(seriesTags, time, date, q, j);
      (k in a <==> k in b) && (k in a ==> a[k] == b[k])
  {
  }

  /** Distinct slices have distinct Instance Numbers. */
  lemma InstanceNumbersDistinct(seriesTags: TagList, time: string, date: string, p: seq<string>, q: seq<string>, i: nat, j: nat)
    requires i != j
    ensures SliceMetadata(seriesTags, time, date, p, i)[InstanceNumber]
         != SliceMetadata(seriesTags, time, date, q, j)[InstanceNumber]
  {
    NatToStringInjective(i, j);
  }

  // ---------------------------------------------------------------------------
  // NIfTI -> DICOM: input and slice writing
  // ---------------------------------------------------------------------------

  /** What the writer needs of an image: its depth and the printed entries of
      its direction matrix (row-major, `str()` of each float). */
  datatype Volume = Volume(depth: nat, direction: seq<string>)

  /** The accepted kinds of input, and everything else. */
  datatype ImageInput =
    | ImagePath(path: string)
    | ImageObject(image: Volume)
    | ImageArray(depth: nat, height: nat, width: nat)   // a (z, y, x) array
    | OtherInput

  /** The direction of an image made from an array: the 3x3 identity. */
  const IdentityDirection: seq<string> := ["1.0", "0.0", "0.0", "0.0", "1.0", "0.0", "0.0", "0.0", "1.0"]

  /** The image to convert: read from a path, taken as it is, or wrapped from
      an array with the identity direction; any other input is a TypeError. */
  function LoadInput(input: ImageInput, readImage: string -> Volume): (r: Result<Volume>)
    ensures r.Err? <==> input.OtherInput?
    ensures r.Err? ==> r.error == UnsupportedInputType
    ensures input.ImagePath? ==> r == Ok(readImage(input.path))
    ensures input.ImageObject? ==> r == Ok(input.image)
    ensures input.ImageArray? ==> r == Ok(Volume(input.depth, IdentityDirection))
  {
    match input
    case ImagePath(path) => Ok(readImage(path))
    case ImageObject(image) => Ok(image)
    case ImageArray(depth, _, _) => Ok(Volume(depth, IdentityDirection))
    case OtherInput => Err(UnsupportedInputType)
  }

  /** An array of shape (z, y, x) gives z slices whose orientation reads as
      that of the identity: rows along x, columns along y. */
  lemma ArrayInputOrientation(depth: nat, height: nat, width: nat, readImage: string -> Volume)
    ensures var r := LoadInput(ImageArray(depth, height, width), readImage);
      && r.Ok? && r.value.depth == depth
      && Orientation(r.value.direction).Ok?
      && Split(Orientation(r.value.direction).value, '\\') == ["1.0", "0.0", "0.0", "0.0", "1.0", "0.0"]
  {
    assert forall i :: 0 <= i < |IdentityDirection| ==> IdentityDirection[i] == "1.0" || IdentityDirection[i] == "0.0";
    OrientationReadsBack(IdentityDirection);
  }

  /** A written slice: its file name in the output directory and its metadata. */
  datatype DicomFile = DicomFile(name: string, metadata: map<string, string>)

  /** `<i>.dcm`: the slice index is read back from the name by dropping the
      extension. */
  function SliceFileName(i: nat): (name: string)
    ensures |name| >= 5 && name[|name| - 4..] == ".dcm"
    ensures AllDigits(name[..|name| - 4]) && DecimalValue(name[..|name| - 4]) == i
  {
    DecimalValueOfNatToString(i);
    var name := NatToString(i) + ".dcm";
    assert name[..|name| - 4] == NatToString(i);
    name
  }

  /** Distinct slices are written to distinct files. */
  lemma SliceFileNamesDistinct(i: nat, j: nat)
    requires i != j
    ensures SliceFileName(i) != SliceFileName(j)
  {
  }

  /** The outcome of the best-effort write loop: the slices 0, 1, ..., k-1
      were written, in order, each with its metadata; the loop stopped at the
      first failing write (logged, not raised) or ran to the depth. */
  ghost predicate BestEffortWrite(
    depth: nat, seriesTags: TagList, time: string, date: string,
    point: nat -> seq<string>, writeFails: nat -> bool,
    files: seq<DicomFile>, logged: bool)
  {
    && |files| <= depth
    && (forall i :: 0 <= i < |files| ==>
          !writeFails(i) && files[i] == DicomFile(SliceFileName(i), SliceMetadata(seriesTags, time, date, point(i), i)))
    && (logged <==> |files| < depth)
    && (logged ==> writeFails(|files|))
  }

  /** The index of the first failing write at or after `from`, or `depth`. */
  function FirstFailure(depth: nat, writeFails: nat -> bool, from: nat): nat
    decreases depth - from
  {
    if from >= depth then depth
    else if writeFails(from) then from
    else FirstFailure(depth, writeFails, from + 1)
  }

  lemma {:induction false} FirstFailureIs(depth: nat, writeFails: nat -> bool, from: nat, k: nat)
    requires from <= k <= depth
    requires forall i :: from <= i < k ==> !writeFails(i)
    requires k == depth || writeFails(k)
    ensures FirstFailure(depth, writeFails, from) == k
    decreases depth - from
  {
    if from < k {
      FirstFailureIs(depth, writeFails, from + 1, k);
    }
  }

  /** The number of slices written is the index of the first failing write:
      one failure loses that slice and every later one. */
  lemma WrittenCountIsFirstFailure(
    depth: nat, seriesTags: TagList, time: string, date: string,
    point: nat -> seq<string>, writeFails: nat -> bool,
    files: seq<DicomFile>, logged: bool)
    requires BestEffortWrite(depth, seriesTags, time, date, point, writeFails, files, logged)
    ensures |files| == FirstFailure(depth, writeFails, 0)
  {
    FirstFailureIs(depth, writeFails, 0, |files|);
  }

  /** Without failures every slice is written: `0.dcm` ... `<depth-1>.dcm`. */
  lemma NoFailureWritesAll(
    depth: nat, seriesTags: TagList, time: string, date: string,
    point: nat -> seq<string>, writeFails: nat -> bool,
    files: seq<DicomFile>, logged: bool)
    requires BestEffortWrite(depth, seriesTags, time, date, point, writeFails, files, logged)
    requires forall i :: 0 <= i < depth ==> !writeFails(i)
    ensures |files| == depth && !logged
    ensures forall i :: 0 <= i < depth ==> files[i].name == NatToString(i) + ".dcm"
  {
  }

  /** One slice's metadata store: it starts empty (the slice is a new image),
      receives the series tags one `SetMetaData` at a time, then the four
      per-slice tags. */
  method BuildSliceMetadata(seriesTags: TagList, time: string, date: string, point: seq<string>, i: nat)
    returns (metadata: map<string, string>)
    ensures metadata == SliceMetadata(seriesTags, time, date, point, i)
  {
    metadata := map[];
    var t := 0;
    while t < |seriesTags|
      invariant 0 <= t <= |seriesTags|
      invariant metadata == ApplyTags(map[], seriesTags[..t])
    {
      assert seriesTags[..t + 1][..t] == seriesTags[..t];
      metadata := metadata[seriesTags[t].0 := seriesTags[t].1];
      t := t + 1;
    }
    assert seriesTags[..|seriesTags|] == seriesTags;
    metadata := metadata[InstanceCreationDate := time];
    metadata := metadata[InstanceCreationTime := date];
    metadata := metadata[ImagePositionPatient := Join('\\', point)];
    metadata := metadata[InstanceNumber := NatToString(i)];
  }

  /** The slice-write loop. Each slice gets its metadata and is written as
      `<i>.dcm`. The one `try` around the
      loop means the first failing write ends the loop; the error is only
      logged. */
  method WriteSlices(depth: nat, seriesTags: TagList, time: string, date: string,
                     point: nat -> seq<string>, writeFails: nat -> bool)
    returns (files: seq<DicomFile>, logged: bool)
    ensures BestEffortWrite(depth, seriesTags, time, date, point, writeFails, files, logged)
  {
    files := [];
    logged := false;
    var i := 0;
    while i < depth
      invariant 0 <= i <= depth
      invariant |files| == i
      invariant forall j :: 0 <= j < i ==>
        !writeFails(j) && files[j] == DicomFile(SliceFileName(j), SliceMetadata(seriesTags, time, date, point(j), j))
    {
      var metadata := BuildSliceMetadata(seriesTags, time, date, point(i), i);
      if writeFails(i) {
        logged := true;
        return;
      }
      files := files + [DicomFile(SliceFileName(i), metadata)];
      i := i + 1;
    }
  }

  /** What a conversion to DICOM leaves behind. */
  datatype WrittenSeries = WrittenSeries(files: seq<DicomFile>, writeErrorLogged: bool)

  /** `nifti_to_dicom_itk`: load the input, capture the date and time once,
      project the reference tags, synthesise the series tags and write the
      slices. `point(v, i)` are the printed coordinates of the physical point
      of index (0, 0, i) of `v`. A failing write does not make the conversion
      fail. `referenceWarning` is the warning about a reference directory with
      several series; it is logged before the orientation is computed, so it
      is given on the direction error path too. */
  method NiftiToDicom(input: ImageInput, readImage: string -> Volume, reference: Reference,
                      time: string, date: string,
                      point: (Volume, nat) -> seq<string>, writeFails: nat -> bool)
    returns (r: Result<WrittenSeries>, referenceWarning: bool)
    ensures input.OtherInput? ==> r == Err(UnsupportedInputType)
    ensures !input.OtherInput? && ReferenceTags(reference).Err? ==> r == Err(ReferenceTags(reference).error)
    ensures !input.OtherInput? && ReferenceTags(reference).Ok? && Orientation(LoadInput(input, readImage).value.direction).Err?
            ==> r == Err(DirectionIndexError)
    ensures r.Ok? <==> !input.OtherInput? && ReferenceTags(reference).Ok? && Orientation(LoadInput(input, readImage).value.direction).Ok?
    ensures r.Ok? ==>
      && LoadInput(input, readImage).Ok? && ReferenceTags(reference).Ok?
      && var image := LoadInput(input, readImage).value;
         && Orientation(image.direction).Ok?
         && BestEffortWrite(image.depth,
                            SeriesTags(ReferenceTags(reference).value, time, date, Orientation(image.direction).value),
                            time, date, (i: nat) => point(image, i), writeFails,
                            r.value.files, r.value.writeErrorLogged)
    ensures referenceWarning <==> !input.OtherInput? && reference.ReferenceDirectory? && |reference.series| > 1
  {
    referenceWarning := false;
    var loaded := LoadInput(input, readImage);
    if loaded.Err? {
      return Err(loaded.error), referenceWarning;
    }
    var image := loaded.value;
    var projected := ReferenceTags(reference);
    if projected.Err? {
      return Err(projected.error), referenceWarning;
    }
    referenceWarning := reference.ReferenceDirectory? && |reference.series| > 1;
    var orientation := Orientation(image.direction);
    if orientation.Err? {
      return Err(orientation.error), referenceWarning;
    }
    var seriesTags := SeriesTags(projected.value, time, date, orientation.value);
    var files, logged := WriteSlices(image.depth, seriesTags, time, date, (i: nat) => point(image, i), writeFails);
    r := Ok(WrittenSeries(files, logged));
  }

  /** Every slice written by one conversion carries the reference tags, the
      five series tags and its own position and number; the tags of the
      series never clash with the per-slice ones. */
  lemma WrittenSlicesCarrySeriesTags(reference: Reference, time: string, date: string, orientation: string,
                                     point: seq<string>, i: nat, j: nat)
    requires ReferenceTags(reference).Ok?
    requires j < |ReferenceTags(reference).value| + 5
    ensures var tags := SeriesTags(ReferenceTags(reference).value, time, date, orientation);
      var m := SliceMetadata(tags, time, date, point, i);
      tags[j].0 in m && m[tags[j].0] == tags[j].1
  {
    var tags := SeriesTags(ReferenceTags(reference).value, time, date, orientation);
    SeriesTagsWellFormed(ReferenceTags(reference).value, time, date, orientation);
    SliceCarriesSeriesTags(tags, time, date, point, i, j);
  }

  /** Every slice carries the five synthesised series tags with the values
      the code gives them: the capture time and date, `DERIVED\SECONDARY`,
      the synthetic UID and the orientation. */
  lemma SlicesCarrySynthesizedValues(projected: TagList, time: string, date: string, orientation: string,
                                     point: seq<string>, i: nat)
    requires Distinct(TagKeys(projected))
    requires forall p :: p in projected ==> p.0 in AllowList
    ensures var m := SliceMetadata(SeriesTags(projected, time, date, orientation), time, date, point, i);
      && m[SeriesTime] == time && m[SeriesDate] == date && m[ImageType] == DerivedSecondary
      && m[SeriesInstanceUid] == SeriesUid(date, time) && m[ImageOrientationPatient] == orientation
  {
    var tags := SeriesTags(projected, time, date, orientation);
    var n := |projected|;
    SeriesTagsWellFormed(projected, time, date, orientation);
    SliceCarriesSeriesTags(tags, time, date, point, i, n);
    SliceCarriesSeriesTags(tags, time, date, point, i, n + 1);
    SliceCarriesSeriesTags(tags, time, date, point, i, n + 2);
    SliceCarriesSeriesTags(tags, time, date, point, i, n + 3);
    SliceCarriesSeriesTags(tags, time, date, point, i, n + 4);
  }

  /** A tag of the allow-list that a reference file defines reaches every
      slice with the reference's value. */
  lemma ReferenceFileTagsReachSlices(metadata: map<string, string>, time: string, date: string, orientation: string,
                                     point: seq<string>, i: nat, k: string)
    requires k in AllowList && Lower(k) in metadata
    ensures var tags := SeriesTags(ReferenceTags(ReferenceFile(metadata)).value, time, date, orientation);
      var m := SliceMetadata(tags, time, date, point, i);
      k in m && m[k] == metadata[Lower(k)]
  {
    var r := ReferenceTags(ReferenceFile(metadata)).value;
    assert (k, metadata[Lower(k)]) in r;
    var j :| 0 <= j < |r| && r[j] == (k, metadata[Lower(k)]);
    var tags := SeriesTags(r, time, date, orientation);
    assert tags[j] == tags[..|r|][j] == r[j];
    WrittenSlicesCarrySeriesTags(ReferenceFile(metadata), time, date, orientation, point, i, j);
  }
}
