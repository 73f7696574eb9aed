# auxiliary: DICOM/NIfTI conversion bookkeeping and file stems, in Dafny

This project models the parts of the `auxiliary` package that decide *what*
gets written when medical images are converted between DICOM and NIfTI. It
also models how a file's stem is taken from its name.

- `text.dfy` (module `Text`): the string operations the code relies on,
  written out and proved. They are Python's `str.split` and `str.join` for a
  one-character separator, ASCII lower-casing and `str()` of a natural number.
  The lemmas show that split and join are inverse to each other, and that
  `str(n)` reads back as `n`.
- `paths.dfy` (module `Paths`): `name_extractor`. The stem is the first field
  of the base name split at `'.'`.
- `conversion.dfy` (module `Conversion`):
  - `dcm2niix`: the argument list handed to the external converter.
  - `dicom_to_nifti_itk`: the input checks, the name of each series' NIfTI
    output and the warnings that are logged.
  - `nifti_to_dicom_itk`:
    - the dispatch on the kind of input;
    - the choice of the reference and the projection of its allow-listed
      study tags;
    - the synthetic series tags: Series Time/Date, Image Type, Series
      Instance UID, and Image Orientation (Patient) taken from the direction
      matrix;
    - the per-slice tags;
    - the best-effort loop that writes `0.dcm`, `1.dcm`, ….

  The image library, the file system, the clock and the process call do not
  appear. Whatever the code obtains from them is passed in as a parameter:
  - whether the input is a directory;
  - the series ids found in it;
  - the reference's first-frame metadata (keyed by lower-cased tag);
  - the capture date and time strings;
  - the printed direction cosines and physical points;
  - an oracle `writeFails(i)` that says whether writing slice `i` raises.

Where the code behaves differently from what its documentation suggests, the
model follows the code:

- Instance Creation Date (tag `0008|0012`) receives the `%H%M%S` time string,
  and Instance Creation Time (`0008|0013`) receives the `%Y%m%d` date string
  (`auxiliary/conversion.py:256-259`). `SliceMetadata` does the same, and
  `SliceTagValues` states the swap.
- The slice loop sits inside a single `try`. The first failing write ends the
  loop, and all later slices are lost too. The number of files written is the
  index of the first failure (`WrittenCountIsFirstFailure`), not the depth
  minus the number of failures.
- The date and time are captured once per call (`auxiliary/conversion.py:173-174`).
  They are not captured again for each slice, so every slice carries the same
  creation timestamps (`SlicesShareAllButPosition`).

## Model

| member | source | states |
|---|---|---|
| Text.Split | auxiliary/path.py:30 | `split` on one separator gives at least one field; no field contains the separator; the first field is a prefix of the string and is followed by the separator when shorter |
| Text.Join | auxiliary/conversion.py:232 | `sep.join` of no fields is empty and of one field is that field; with more fields the first field opens the result and a separator follows it |
| Text.Lower | auxiliary/conversion.py:199-208 | `k.lower()` keeps the length, leaves no upper-case ASCII letter, changes only upper-case letters and moves each one to its lower-case letter |
| Text.JoinSplit | auxiliary/path.py:30 | joining the fields of a split with the same separator gives back the original string |
| Text.SplitJoin | auxiliary/conversion.py:261-264 | splitting a backslash-join of separator-free values gives back exactly those values (a multi-value reads back) |
| Text.NatToString | auxiliary/conversion.py:266 | `str(i)` is a non-empty string of decimal digits with no leading zero unless `i` is 0 |
| Text.DecimalValueOfNatToString | auxiliary/conversion.py:266 | the decimal value of `str(i)` is `i` |
| Text.NatToStringInjective | auxiliary/conversion.py:266 | distinct numbers have distinct decimal strings |
| Paths.NameExtractor | auxiliary/turbopath/turbopath.py:36-39 | the stem contains no `'.'` and is a prefix of the base name |
| Paths.NameExtractorCutsAtFirstDot | auxiliary/path.py:30-31 | the name is cut at its first `'.'`: the character after a shorter stem is `'.'` |
| Paths.NameExtractorKeepsDotlessName | auxiliary/turbopath/turbopath.py:37-39 | the name comes back unchanged if and only if it has no `'.'` |
| Paths.NameExtractorOfHiddenFile | auxiliary/turbopath/turbopath.py:38-39 | a name starting with `'.'` has the empty stem |
| Paths.NameExtractorIdempotent | auxiliary/path.py:30-31 | taking the stem of a stem changes nothing |
| Paths.NameExtractorRestores | auxiliary/path.py:30-31 | the stem is the first split field, and joining the fields with `'.'` restores the name |
| Conversion.Dcm2niixCommand | auxiliary/conversion.py:40-53 | the argument list is `dcm2niix`, then `-f <name>` only for a non-empty name, then `-o <out>`, then `-z y` or `-z n` according to `compress`, and the input directory always last |
| Conversion.Dcm2niixCommandReadsBack | auxiliary/conversion.py:40-53 | the argument list reads back as the options it was built from, with an empty name read as none; so two option sets share a command only when they differ just by an empty name versus no name |
| Conversion.BuildDcm2niixCommand | auxiliary/conversion.py:36-53 | an input that is not a directory is an error; otherwise the list built piece by piece equals the command above |
| Conversion.OutputFileName | auxiliary/conversion.py:107-115 | a non-empty custom name is used for a single series; otherwise the name is the series id followed by the `.nii.gz` extension, so the id reads back by dropping the extension |
| Conversion.OutputFileNameIgnoresCustomName | auxiliary/conversion.py:109-113 | with several series, each output is named as it would be with no custom name |
| Conversion.OutputFileNamesDistinct | auxiliary/conversion.py:107-115 | distinct series ids give distinct output names, so no output overwrites another |
| Conversion.DicomToNiftiOutputs | auxiliary/conversion.py:84-120 | an input that is not a directory, or one with no series, is an error; otherwise there is one output per series, in order, named by the policy, with one "multiple series" warning and one "name ignored" warning per series when a name is given for several series |
| Conversion.TagTablesDisjoint | auxiliary/conversion.py:158-266 | the allow-list, the series tags and the slice tags each have distinct entries and do not overlap, and Patient Name is not in the allow-list |
| Conversion.Project | auxiliary/conversion.py:198-209 | the projection keeps exactly the allow-listed tags whose lower-cased form the reference defines, with values the reference holds, in allow-list order, with no duplicates |
| Conversion.ReferenceTags | auxiliary/conversion.py:177-215 | no reference copies nothing; a reference file gives the allow-list projection of its metadata, and a directory gives that of its first series' first frame; a directory without series and a path that is neither a file nor a directory are the two errors; any result has distinct allow-listed keys and never Patient Name |
| Conversion.ReferenceTagsUseFirstSeries | auxiliary/conversion.py:181-202 | only the first series of a reference directory matters, and it is projected like a single reference file |
| Conversion.ProjectKeepsPresentTags | auxiliary/conversion.py:198-209 | a tag is copied if and only if it is allow-listed and present in the reference |
| Conversion.SeriesUid | auxiliary/conversion.py:222-228 | the Series Instance UID is the root, the date, `.1` and the time, in that order; with an 8-digit date and a 6-digit time it is 43 characters long |
| Conversion.SeriesUidDistinct | auxiliary/conversion.py:222-228 | for 8-character dates the UIDs are equal if and only if date and time are equal |
| Conversion.OrientationValues | auxiliary/conversion.py:236-241 | the six cosines are the first column and then the second column of the row-major 3x3 direction matrix: value `k` is entry (row `k mod 3`, column `k div 3`) |
| Conversion.Orientation | auxiliary/conversion.py:230-245 | the orientation is an index error if and only if the direction has fewer than 8 entries |
| Conversion.OrientationReadsBack | auxiliary/conversion.py:230-245 | the orientation reads back as the six cosines `d0 d3 d6 d1 d4 d7` |
| Conversion.SeriesTags | auxiliary/conversion.py:217-247 | the series tags are the projected tags, unchanged and first, followed by exactly five pairs whose tags are Series Time, Series Date, Image Type, Series Instance UID and Image Orientation (Patient), in that order |
| Conversion.SeriesTagsWellFormed | auxiliary/conversion.py:217-247 | when the projected tags are distinct and allow-listed, all series tags are distinct and none is a per-slice tag |
| Conversion.ApplyTags | auxiliary/conversion.py:253-254 | setting the tags one by one defines exactly the old keys plus the listed tags |
| Conversion.ApplyTagsLookup | auxiliary/conversion.py:253-254 | with distinct tags, every listed pair is found with its value after the updates |
| Conversion.SlicesCarrySynthesizedValues | auxiliary/conversion.py:217-254 | every slice has Series Time = the time, Series Date = the date, Image Type = `DERIVED\SECONDARY`, Series Instance UID = the synthetic UID and Image Orientation (Patient) = the orientation |
| Conversion.ReferenceFileTagsReachSlices | auxiliary/conversion.py:203-254 | every allow-listed tag a reference file defines reaches every slice with the reference's value |
| Conversion.SliceMetadata | auxiliary/conversion.py:251-266 | a slice holds the series tags and the four per-slice tags and nothing else |
| Conversion.SliceCarriesSeriesTags | auxiliary/conversion.py:253-266 | every slice carries every series tag with its series value, because the per-slice tags do not overwrite any of them |
| Conversion.SliceTagValues | auxiliary/conversion.py:256-266 | Image Position reads back as the point's coordinates; Instance Number is `str(i)` and reads back as `i`; the creation tags hold the time and date strings, swapped |
| Conversion.SlicesShareAllButPosition | auxiliary/conversion.py:249-266 | two slices of one call agree on every tag except Image Position and Instance Number |
| Conversion.InstanceNumbersDistinct | auxiliary/conversion.py:265-266 | distinct slices have distinct Instance Numbers |
| Conversion.LoadInput | auxiliary/conversion.py:145-154 | a path is read and an image is taken as it is; an array becomes an image with the identity direction; any other input is a TypeError, and this is the only error |
| Conversion.ArrayInputOrientation | auxiliary/conversion.py:149-150 | an array of shape (z, y, x) gives z slices whose orientation reads back as `1.0 0.0 0.0 0.0 1.0 0.0` |
| Conversion.SliceFileName | auxiliary/conversion.py:269 | the file name is a string of decimal digits followed by `.dcm`, and the digits read back as the slice index |
| Conversion.SliceFileNamesDistinct | auxiliary/conversion.py:269 | distinct slices are written to distinct `<i>.dcm` files |
| Conversion.WrittenCountIsFirstFailure | auxiliary/conversion.py:249-272 | the number of slices written is the index of the first failing write |
| Conversion.NoFailureWritesAll | auxiliary/conversion.py:249-270 | with no failing write, all slices `0.dcm` … `<depth-1>.dcm` are written and nothing is logged |
| Conversion.BuildSliceMetadata | auxiliary/conversion.py:251-266 | the metadata built tag by tag equals the slice metadata (the series tags, then the four per-slice tags) |
| Conversion.WriteSlices | auxiliary/conversion.py:249-272 | slices `0..k-1` are written in order with their metadata, none of them failed; the loop stops at the first failure, which is logged and not raised; a log entry is made if and only if fewer than depth slices were written |
| Conversion.NiftiToDicom | auxiliary/conversion.py:145-272 | errors come in the code's order (input type, then reference, then direction index); the conversion succeeds exactly when none of them occurs, so a failing write never fails it; on success the slices are written best-effort with the projected and synthesised series tags of the loaded image; the reference warning is given, on the direction error path too, exactly when the input is accepted and the reference directory holds more than one series |
| Conversion.WrittenSlicesCarrySeriesTags | auxiliary/conversion.py:217-266 | every slice of a conversion carries each reference tag and each synthesised series tag with its value |

## Left out

- Reading and writing images (`sitk.ReadImage`, `ImageSeriesReader`,
  `WriteImage`, `ImageFileWriter`) and pixel data are not modelled. What they
  provide (series ids, first-frame metadata, depth, direction) is a parameter.
  A failing series read is not modelled.
- The `subprocess.run` call of `dcm2niix` and the `RuntimeError` wrapping its
  failure are not modelled, because the model stops at the argument list.
- Dcm2niixCommand: `inputDir` and `outputDir` stand for `str(Path(...))` of
  the given paths. pathlib's rewriting of them is not modelled, for example
  dropping a trailing `/`, collapsing `//` and turning `""` into `"."`.
- Creating output directories (`mkdir`) and the existence checks are not
  modelled. They are booleans passed in.
- `time.strftime`, `str()` of a float and `TransformIndexToPhysicalPoint` are
  parameters: the date and time strings and the printed direction and
  coordinates.
- Logging goes to a logger in the code. The model returns the warnings as
  values (`DicomToNiftiOutputs`, `NiftiToDicom`) and the write error as a flag.
- WriteSlices: only the `Execute` write is assumed to raise inside the `try`.
  A failure of the slicing or of the metadata updates is not modelled. The model
  assumes a file is either written whole or not written, so it does not capture
  partial files.
- The slice image is assumed to start with an empty metadata store, so slice
  metadata holds only the tags the loop sets.
- Arrays are modelled as three-dimensional. Two- and four-dimensional arrays
  are not modelled, apart from the direction-index error of a 2-D image.
- The normalisation of the path (`absolute`, `normpath` and `abspath`) is not
  modelled. `NameExtractor` starts from the base name.
- `str.lower` is ASCII only, which covers the `group|element` hexadecimal
  tags it is applied to.
- `auxiliary/io.py`, `auxiliary/nifti/io.py`, `auxiliary/tiff/io.py` and
  `auxiliary/normalization/functional.py` are not part of this model.
