/** What the indexer extracts from one archive line (allthethings/cli/views.py,
    `build_insert_data` inside `mysql_build_aac_tables_internal`).

    The regular expressions are not modelled: a line is the record of what
    they find in it. */
module AacLines {
  import opened Wrappers
  import opened Text

  /** Iterating over a file never yields an empty line. */
  type LineLength = n: nat | n > 0 witness 1

  /** One line of an archive file, as the indexer's patterns see it. */
  datatype AacLine = AacLine(
    canonical: bool,               // the canonical-AAC prefix pattern matches at the start
    aacid: string,                 // its first group
    metadataFirstValue: string,    // its fourth group: the first metadata value, quotes included
    md5Field: Option<string>,      // its sixth group: an "md5" right after that value
    hasOriginalMd5Key: bool,       // the line contains `"original_md5"`
    originalMd5: Option<string>,   // the first `"original_md5":"…"` value, if that pattern matches
    hasMd5ReportedKey: bool,       // the line contains `"md5_reported"`
    md5Reported: Option<string>,   // the first `"md5_reported":"…"` value, if that pattern matches
    hasNotFoundTitleJson: bool,    // the line contains `not_found_title_json`
    hasRedirectTitleJson: bool,    // the line contains `redirect_title_json`
    hasTypeWiki: bool,             // the line contains `"type":["wiki"]`
    isKnownBadNexusLine: bool,     // the line starts with the one nexusstc record known to be bad
    ebscohostPlinkId: Option<string>, // the `AN=` number of the EBSCOhost `plink` URL, if it matches
    md5Matches: seq<string>,       // every `"md5":"…"` value, in order
    hasFilenameDecodedKey: bool,   // the line contains `"filename_decoded"`
    filenameDecoded: Option<string>, // `metadata.record.filename_decoded` of the parsed JSON, if a string
    passesSpotCheck: bool,         // the per-line byte spot check accepts the line
    length: LineLength             // `len(line)`: its length in bytes, newline included
  )

  /** The exceptions `build_insert_data` raises. */
  datatype AacError =
    | NotCanonical
    | BadEbscohostLine
    | BadOriginalMd5
    | BadMd5Reported
    | BadFilenameDecoded

  /** A row of `annas_archive_meta__aacid__{collection}`. */
  datatype AacRow = AacRow(
    aacid: string,
    primaryId: string,
    md5: Option<string>,
    byteOffset: nat,
    byteLength: nat,
    filenameDecodedBasename: Option<string>)

  /** What `build_insert_data` yields when it does not raise. */
  datatype Extracted = Skipped | Entry(row: AacRow, multipleMd5s: set<string>)

  const CollectionsWithMultipleMd5: seq<string> := ["magzdb_records", "nexusstc_records"]

  predicate IsLowerHexDigit(c: char) {
    '0' <= c <= '9' || 'a' <= c <= 'f'
  }

  /** `^[a-f\d]{32}$` over a value that holds no newline. */
  predicate IsMd5Hex(s: string) {
    |s| == 32 && forall i :: 0 <= i < |s| ==> IsLowerHexDigit(s[i])
  }

  /** The per-collection skip and raise rules; on success, the primary id. */
  function CollectionRule(collection: string, line: AacLine): (r: Result<Option<string>, AacError>)
    ensures r.Err? <==> collection == "ebscohost_records" && line.ebscohostPlinkId.None?
    ensures r == Ok(None) <==>
      (collection == "worldcat" && (line.hasNotFoundTitleJson || line.hasRedirectTitleJson)) ||
      (collection == "nexusstc_records" && (line.hasTypeWiki || line.isKnownBadNexusLine))
  {
    var primaryId := ReplaceAll(line.metadataFirstValue, "\"", "");
    if collection == "worldcat" then
      if line.hasNotFoundTitleJson || line.hasRedirectTitleJson then Ok(None) else Ok(Some(primaryId))
    else if collection == "nexusstc_records" then
      if line.hasTypeWiki || line.isKnownBadNexusLine then Ok(None) else Ok(Some(primaryId))
    else if collection == "ebscohost_records" then
      match line.ebscohostPlinkId
      case None => Err(BadEbscohostLine)
      case Some(id) => Ok(Some(id))
    else Ok(Some(primaryId))
  }

  /** The candidate md5 before validation: `original_md5` for `duxiu_files`
      collections, else the `md5` field, else `md5_reported`. */
  function CandidateMd5(collection: string, line: AacLine): Result<Option<string>, AacError> {
    if Contains(collection, "duxiu_files") && line.hasOriginalMd5Key then
      match line.originalMd5
      case None => Err(BadOriginalMd5)
      case Some(m) => Ok(Some(m))
    else if line.md5Field.None? && line.hasMd5ReportedKey then
      match line.md5Reported
      case None => Err(BadMd5Reported)
      case Some(m) => Ok(Some(m))
    else Ok(line.md5Field)
  }

  lemma LowerOfHexIsIdentity(m: string)
    requires IsMd5Hex(m)
    ensures AsciiLower(m) == m
  {
  }

  /** The stored md5: the candidate if it is 32 lower-case hex digits, lowercased;
      otherwise null. The hex test runs before lowercasing, so lowercasing never
      changes a stored value and an upper-case candidate is stored as null. */
  function StoredMd5(candidate: Option<string>): (r: Option<string>)
    ensures r.Some? <==> candidate.Some? && IsMd5Hex(candidate.value)
    ensures r.Some? ==> r == candidate && IsMd5Hex(r.value)
  {
    match candidate
    case Some(m) =>
      if IsMd5Hex(m) then LowerOfHexIsIdentity(m); Some(AsciiLower(m)) else None
    case None => None
  }

  /** The values written to the `__multiple_md5` side table: every `md5`
      value of the line, lowercased, that the canonical-md5 validator accepts. */
  function MultipleMd5s(collection: string, line: AacLine, isCanonicalMd5: string -> bool): set<string> {
    if collection in CollectionsWithMultipleMd5 then
      set m | m in line.md5Matches && isCanonicalMd5(AsciiLower(m)) :: AsciiLower(m)
    else {}
  }

  /** `filename_decoded` without its last extension, for `duxiu_records` lines that have one. */
  function FilenameDecodedBasename(collection: string, line: AacLine): Result<Option<string>, AacError> {
    if collection != "duxiu_records" || !line.hasFilenameDecodedKey then Ok(None)
    else
      match line.filenameDecoded
      case None => Err(BadFilenameDecoded)
      case Some(f) => Ok(Some(BeforeLast(f, '.')))
  }

  /** `build_insert_data(line, byte_offset)`: a row, nothing, or an error. */
  function BuildInsertData(collection: string, line: AacLine, byteOffset: nat, isCanonicalMd5: string -> bool)
    : (r: Result<Extracted, AacError>)
    ensures !line.canonical ==> r == Err(NotCanonical)
    ensures r.Ok? && r.value.Entry? ==>
      r.value.row.aacid == line.aacid &&
      r.value.row.byteOffset == byteOffset && r.value.row.byteLength == line.length
    ensures r.Ok? && r.value.Entry? && r.value.row.md5.Some? ==> IsMd5Hex(r.value.row.md5.value)
    ensures r.Ok? && r.value.Entry? ==> forall m :: m in r.value.multipleMd5s ==> isCanonicalMd5(m)
  {
    if !line.canonical then Err(NotCanonical)
    else
      match CollectionRule(collection, line)
      case Err(e) => Err(e)
      case Ok(None) => Ok(Skipped)
      case Ok(Some(primaryId)) =>
        match CandidateMd5(collection, line)
        case Err(e) => Err(e)
        case Ok(candidate) =>
          match FilenameDecodedBasename(collection, line)
          case Err(e) => Err(e)
          case Ok(basename) =>
            Ok(Entry(
              AacRow(line.aacid, primaryId, StoredMd5(candidate), byteOffset, line.length, basename),
              MultipleMd5s(collection, line, isCanonicalMd5)))
  }

  /** A line is skipped exactly by the worldcat and nexusstc marker rules, and
      only if it is in canonical shape. */
  lemma SkipIff(collection: string, line: AacLine, byteOffset: nat, isCanonicalMd5: string -> bool)
    ensures BuildInsertData(collection, line, byteOffset, isCanonicalMd5) == Ok(Skipped) <==>
      line.canonical &&
      ((collection == "worldcat" && (line.hasNotFoundTitleJson || line.hasRedirectTitleJson)) ||
       (collection == "nexusstc_records" && (line.hasTypeWiki || line.isKnownBadNexusLine)))
  {
  }

  /** The raise rules: a line not in canonical shape, an EBSCOhost line
      without its `plink`, or an `original_md5`/`md5_reported` key whose value
      pattern does not match, or a `filename_decoded` that is not a string. */
  lemma RaiseIff(collection: string, line: AacLine, byteOffset: nat, isCanonicalMd5: string -> bool)
    ensures BuildInsertData(collection, line, byteOffset, isCanonicalMd5).Err? <==>
      !line.canonical ||
      (collection == "ebscohost_records" && line.ebscohostPlinkId.None?) ||
      (CollectionRule(collection, line).Ok? && CollectionRule(collection, line).value.Some? &&
       (CandidateMd5(collection, line).Err? || FilenameDecodedBasename(collection, line).Err?))
  {
  }

  /** For `duxiu_files` collections, `original_md5` overrides every other md5 field. */
  lemma OriginalMd5Overrides(collection: string, line: AacLine, byteOffset: nat, isCanonicalMd5: string -> bool, m: string)
    requires Contains(collection, "duxiu_files") && line.hasOriginalMd5Key && line.originalMd5 == Some(m)
    requires BuildInsertData(collection, line, byteOffset, isCanonicalMd5).Ok?
    requires BuildInsertData(collection, line, byteOffset, isCanonicalMd5).value.Entry?
    ensures BuildInsertData(collection, line, byteOffset, isCanonicalMd5).value.row.md5 ==
      if IsMd5Hex(m) then Some(m) else None
  {
  }

  /** Elsewhere the `md5` field wins over `md5_reported`, which is only the fallback. */
  lemma Md5FieldBeforeReported(collection: string, line: AacLine, byteOffset: nat, isCanonicalMd5: string -> bool)
    requires !(Contains(collection, "duxiu_files") && line.hasOriginalMd5Key)
    requires BuildInsertData(collection, line, byteOffset, isCanonicalMd5).Ok?
    requires BuildInsertData(collection, line, byteOffset, isCanonicalMd5).value.Entry?
    ensures var stored := BuildInsertData(collection, line, byteOffset, isCanonicalMd5).value.row.md5;
      match line.md5Field
      case Some(m) => stored == (if IsMd5Hex(m) then Some(m) else None)
      case None =>
        if line.hasMd5ReportedKey
        then line.md5Reported.Some? && stored == (if IsMd5Hex(line.md5Reported.value) then line.md5Reported else None)
        else stored == None
  {
  }

  /** An upper-case hex digit anywhere in the chosen value makes the stored md5 null. */
  lemma UppercaseMd5IsDropped(collection: string, line: AacLine, byteOffset: nat, isCanonicalMd5: string -> bool, k: nat)
    requires CandidateMd5(collection, line).Ok? && CandidateMd5(collection, line).value.Some?
    requires k < |CandidateMd5(collection, line).value.value|
    requires 'A' <= CandidateMd5(collection, line).value.value[k] <= 'F'
    requires BuildInsertData(collection, line, byteOffset, isCanonicalMd5).Ok?
    requires BuildInsertData(collection, line, byteOffset, isCanonicalMd5).value.Entry?
    ensures BuildInsertData(collection, line, byteOffset, isCanonicalMd5).value.row.md5.None?
  {
  }
}
