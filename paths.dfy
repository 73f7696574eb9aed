/**
 The file-stem rule of `name_extractor`: the base name of the normalised
 path, cut at its first '.' (`file_name.split(".")[0]`). The rule is the
 same in both places the repository defines it; the normalisation of the
 path itself (`turbopath`) is not part of this model, so the rule is
 stated on the base name.
 */
module Paths {
  import opened Text

  /** The name of a file without its extension(s): the first field of
      `fileName.split(".")`. It holds no '.' and is a prefix of the name. */
  function NameExtractor(fileName: string): (stem: string)
    ensures '.' !in stem
    ensures stem <= fileName
  {
    Split(fileName, '.')[0]
  }

  /** The cut is made at the FIRST '.': whatever follows the stem starts with
      a '.', and the stem itself holds none. */
  lemma NameExtractorCutsAtFirstDot(fileName: string)
    ensures var stem := NameExtractor(fileName);
      |stem| < |fileName| ==> fileName[|stem|] == '.' && '.' !in fileName[..|stem|]
  {
    var stem := NameExtractor(fileName);
    assert fileName[..|stem|] == stem;
  }

  /** A name is returned unchanged exactly when it has no '.'. */
  lemma NameExtractorKeepsDotlessName(fileName: string)
    ensures NameExtractor(fileName) == fileName <==> '.' !in fileName
  {
  }

  /** A hidden file (a name starting with '.') has the empty stem. */
  lemma NameExtractorOfHiddenFile(fileName: string)
    requires |fileName| > 0 && fileName[0] == '.'
    ensures NameExtractor(fileName) == []
  {
  }

  /** Extracting twice gives the same stem as extracting once. */
  lemma NameExtractorIdempotent(fileName: string)
    ensures NameExtractor(NameExtractor(fileName)) == NameExtractor(fileName)
  {
    NameExtractorKeepsDotlessName(NameExtractor(fileName));
  }

  /** The stem is the first field of the split, and joining the fields back
      with '.' restores the whole name: nothing is lost but the suffix. */
  lemma NameExtractorRestores(fileName: string)
    ensures var parts := Split(fileName, '.');
      parts[0] == NameExtractor(fileName) && Join('.', parts) == fileName
  {
    JoinSplit(fileName, '.');
  }
}
