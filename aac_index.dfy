/** Indexing one archive file into its `annas_archive_meta__aacid__{collection}`
    tables, and the outer loop over the collections that need it
    (allthethings/cli/views.py, `mysql_build_aac_tables_internal`). */
module AacIndex {
  import opened Wrappers
  import opened Text
  import opened AacLines
  import opened AacFiles

  /** The contents of the rebuilt tables: the main table keyed by `aacid`,
      and the `(md5, aacid)` pairs of the `__multiple_md5` side table. */
  datatype AacTables = AacTables(main: map<string, AacRow>, multiple: set<(string, string)>)

  const EmptyTables := AacTables(map[], {})

  /** Why indexing a file stops: the spot check rejects a line, extraction
      raises, or an `INSERT` meets a key already present. The build also
      stops, before indexing anything, when the summary line of a
      collection cannot be printed (`SummaryRaises`). */
  datatype IndexError =
    | SpotCheckFailed
    | BadLine(cause: AacError)
    | DuplicateAacid(aacid: string)
    | DuplicateMultipleMd5(aacid: string)
    | SummaryUnprintable

  /** `duxiu_records` is written with `REPLACE`, every other collection with `INSERT`. */
  predicate UsesReplace(collection: string) {
    collection == "duxiu_records"
  }

  /** The byte offset of line `n`: the lengths of all lines before it, kept
      or skipped. */
  function Offset(lines: seq<AacLine>, n: nat): nat
    requires n <= |lines|
  {
    if n == 0 then 0 else Offset(lines, n - 1) + lines[n - 1].length
  }

  function PairsOf(ms: set<string>, aacid: string): set<(string, string)> {
    set m | m in ms :: (m, aacid)
  }

  /** Writing one extracted row and its side-table pairs: `REPLACE` overwrites a
      row with the same key, `INSERT` raises on one. */
  function Write(replace: bool, t: AacTables, row: AacRow, ms: set<string>): Result<AacTables, IndexError> {
    var pairs := PairsOf(ms, row.aacid);
    if replace then Ok(AacTables(t.main[row.aacid := row], t.multiple + pairs))
    else if row.aacid in t.main then Err(DuplicateAacid(row.aacid))
    else if pairs * t.multiple != {} then Err(DuplicateMultipleMd5(row.aacid))
    else Ok(AacTables(t.main[row.aacid := row], t.multiple + pairs))
  }

  /** What a line yields when extracted at a byte offset: `build_insert_data`
      with its collection and md5 validator fixed. */
  type Extractor = (AacLine, nat) -> Result<Extracted, AacError>

  function ExtractorFor(collection: string, isCanonicalMd5: string -> bool): Extractor {
    (line: AacLine, offset: nat) => BuildInsertData(collection, line, offset, isCanonicalMd5)
  }

  /** An extractor whose rows carry the line's `aacid`, offset and length. */
  ghost predicate KeepsPosition(x: Extractor) {
    forall line, offset :: x(line, offset).Ok? && x(line, offset).value.Entry? ==>
      x(line, offset).value.row.aacid == line.aacid &&
      x(line, offset).value.row.byteOffset == offset &&
      x(line, offset).value.row.byteLength == line.length
  }

  lemma ExtractorKeepsPosition(collection: string, isCanonicalMd5: string -> bool)
    ensures KeepsPosition(ExtractorFor(collection, isCanonicalMd5))
  {
  }

  /** One line: spot check, extraction, write. */
  function Step(replace: bool, t: AacTables, line: AacLine, offset: nat, x: Extractor): Result<AacTables, IndexError> {
    if !line.passesSpotCheck then Err(SpotCheckFailed)
    else
      match x(line, offset)
      case Err(e) => Err(BadLine(e))
      case Ok(Skipped) => Ok(t)
      case Ok(Entry(row, ms)) => Write(replace, t, row, ms)
  }

  /** The tables after the first `n` lines, or the first error they raise. */
  function IndexUpTo(replace: bool, lines: seq<AacLine>, n: nat, x: Extractor): Result<AacTables, IndexError>
    requires n <= |lines|
  {
    if n == 0 then Ok(EmptyTables)
    else
      match IndexUpTo(replace, lines, n - 1, x)
      case Err(e) => Err(e)
      case Ok(t) => Step(replace, t, lines[n - 1], Offset(lines, n - 1), x)
  }

  /** The row line `i` yields at its byte offset, if any. */
  function RowAt(lines: seq<AacLine>, i: nat, x: Extractor): Option<AacRow>
    requires i < |lines|
  {
    match x(lines[i], Offset(lines, i))
    case Ok(Entry(row, _)) => Some(row)
    case _ => None
  }

  predicate YieldsKey(lines: seq<AacLine>, j: nat, x: Extractor, a: string)
    requires j < |lines|
  {
    RowAt(lines, j, x).Some? && RowAt(lines, j, x).value.aacid == a
  }

  /** `row` is yielded by one of the first `n` lines, and no later one of
      them yields a row with key `a`. */
  ghost predicate LastYield(lines: seq<AacLine>, n: nat, x: Extractor, a: string, row: AacRow)
    requires n <= |lines|
  {
    exists k :: 0 <= k < n && RowAt(lines, k, x) == Some(row) &&
      forall j :: k < j < n ==> !YieldsKey(lines, j, x, a)
  }

  lemma LastYieldExtends(lines: seq<AacLine>, n: nat, x: Extractor, a: string, row: AacRow)
    requires n < |lines|
    requires LastYield(lines, n, x, a, row) && !YieldsKey(lines, n, x, a)
    ensures LastYield(lines, n + 1, x, a, row)
  {
    var k :| 0 <= k < n && RowAt(lines, k, x) == Some(row) &&
      forall j :: k < j < n ==> !YieldsKey(lines, j, x, a);
    assert forall j :: k < j < n + 1 ==> !YieldsKey(lines, j, x, a);
  }

  lemma LastYieldAt(lines: seq<AacLine>, n: nat, x: Extractor, row: AacRow)
    requires n < |lines| && RowAt(lines, n, x) == Some(row)
    ensures LastYield(lines, n + 1, x, row.aacid, row)
  {
  }

  /** What the tables hold after the first `n` lines: rows keyed by their own
      `aacid`, each yielded by one of those lines and by no later one with the
      same `aacid`; side-table pairs refer to stored rows. */
  ghost predicate Provenance(lines: seq<AacLine>, n: nat, t: AacTables, x: Extractor)
    requires n <= |lines|
  {
    (forall a :: a in t.main ==> t.main[a].aacid == a && LastYield(lines, n, x, a, t.main[a])) &&
    (forall p :: p in t.multiple ==> p.1 in t.main)
  }

  /** Every line before `n` that yields a row has its key stored, and under
      `INSERT` the stored row is that very row. */
  ghost predicate Complete(replace: bool, lines: seq<AacLine>, n: nat, t: AacTables, x: Extractor)
    requires n <= |lines|
  {
    forall i :: 0 <= i < n && RowAt(lines, i, x).Some? ==>
      RowAt(lines, i, x).value.aacid in t.main &&
      (!replace ==> t.main[RowAt(lines, i, x).value.aacid] == RowAt(lines, i, x).value)
  }

  lemma ProvenanceSkip(lines: seq<AacLine>, n: nat, t: AacTables, x: Extractor)
    requires n < |lines| && RowAt(lines, n, x).None?
    requires Provenance(lines, n, t, x)
    ensures Provenance(lines, n + 1, t, x)
  {
    forall a | a in t.main ensures LastYield(lines, n + 1, x, a, t.main[a]) {
      LastYieldExtends(lines, n, x, a, t.main[a]);
    }
  }

  lemma ProvenanceAdd(lines: seq<AacLine>, n: nat, t: AacTables, x: Extractor, row: AacRow, ms: set<string>)
    requires n < |lines| && RowAt(lines, n, x) == Some(row)
    requires Provenance(lines, n, t, x)
    ensures Provenance(lines, n + 1, AacTables(t.main[row.aacid := row], t.multiple + PairsOf(ms, row.aacid)), x)
  {
    var t' := AacTables(t.main[row.aacid := row], t.multiple + PairsOf(ms, row.aacid));
    forall a | a in t'.main ensures LastYield(lines, n + 1, x, a, t'.main[a]) {
      if a == row.aacid {
        LastYieldAt(lines, n, x, row);
      } else {
        LastYieldExtends(lines, n, x, a, t.main[a]);
      }
    }
    forall p | p in t'.multiple ensures p.1 in t'.main {
      if p !in t.multiple {
        assert p in PairsOf(ms, row.aacid);
      }
    }
  }

  lemma CompleteAdd(replace: bool, lines: seq<AacLine>, n: nat, t: AacTables, x: Extractor, row: AacRow, pairs: set<(string, string)>)
    requires n < |lines| && RowAt(lines, n, x) == Some(row)
    requires Complete(replace, lines, n, t, x)
    requires !replace ==> row.aacid !in t.main
    ensures Complete(replace, lines, n + 1, AacTables(t.main[row.aacid := row], pairs), x)
  {
  }

  lemma StepKeepsSkip(replace: bool, lines: seq<AacLine>, n: nat, t: AacTables, x: Extractor)
    requires n < |lines| && lines[n].passesSpotCheck
    requires x(lines[n], Offset(lines, n)) == Ok(Skipped)
    requires Provenance(lines, n, t, x) && Complete(replace, lines, n, t, x)
    ensures Step(replace, t, lines[n], Offset(lines, n), x) == Ok(t)
    ensures Provenance(lines, n + 1, t, x) && Complete(replace, lines, n + 1, t, x)
  {
    ProvenanceSkip(lines, n, t, x);
  }

  lemma StepKeepsEntry(replace: bool, lines: seq<AacLine>, n: nat, t: AacTables, x: Extractor, row: AacRow, ms: set<string>)
    requires n < |lines| && lines[n].passesSpotCheck
    requires x(lines[n], Offset(lines, n)) == Ok(Entry(row, ms))
    requires Provenance(lines, n, t, x) && Complete(replace, lines, n, t, x)
    requires Write(replace, t, row, ms).Ok?
    ensures Step(replace, t, lines[n], Offset(lines, n), x) == Write(replace, t, row, ms)
    ensures Provenance(lines, n + 1, Write(replace, t, row, ms).value, x)
    ensures Complete(replace, lines, n + 1, Write(replace, t, row, ms).value, x)
  {
    ProvenanceAdd(lines, n, t, x, row, ms);
    CompleteAdd(replace, lines, n, t, x, row, t.multiple + PairsOf(ms, row.aacid));
  }

  /** The tables any prefix of the file builds are described by `Provenance`
      and `Complete`. */
  lemma {:induction false} IndexUpToInvariant(replace: bool, lines: seq<AacLine>, n: nat, x: Extractor)
    requires n <= |lines|
    requires IndexUpTo(replace, lines, n, x).Ok?
    ensures Provenance(lines, n, IndexUpTo(replace, lines, n, x).value, x)
    ensures Complete(replace, lines, n, IndexUpTo(replace, lines, n, x).value, x)
  {
    if n > 0 {
      IndexUpToInvariant(replace, lines, n - 1, x);
      var t := IndexUpTo(replace, lines, n - 1, x).value;
      match x(lines[n - 1], Offset(lines, n - 1))
      case Ok(Skipped) => StepKeepsSkip(replace, lines, n - 1, t, x);
      case Ok(Entry(row, ms)) => StepKeepsEntry(replace, lines, n - 1, t, x, row, ms);
    }
  }

  /** The offset of a later line is at least the end of an earlier one. */
  lemma {:induction false} OffsetsIncrease(lines: seq<AacLine>, i: nat, j: nat)
    requires i < j <= |lines|
    ensures Offset(lines, i) + lines[i].length <= Offset(lines, j)
  {
    if j > i + 1 {
      OffsetsIncrease(lines, i, j - 1);
    }
  }

  /** With a position-keeping extractor, a yielded row carries its line's
      key, offset and length. */
  lemma RowPosition(lines: seq<AacLine>, k: nat, x: Extractor)
    requires KeepsPosition(x)
    requires k < |lines| && RowAt(lines, k, x).Some?
    ensures RowAt(lines, k, x).value.aacid == lines[k].aacid
    ensures RowAt(lines, k, x).value.byteOffset == Offset(lines, k)
    ensures RowAt(lines, k, x).value.byteLength == lines[k].length
  {
    assert x(lines[k], Offset(lines, k)).Ok?;
  }

  /** The line a stored row was yielded by. */
  lemma StoredRowLine(replace: bool, lines: seq<AacLine>, x: Extractor, a: string) returns (k: nat)
    requires IndexUpTo(replace, lines, |lines|, x).Ok?
    requires a in IndexUpTo(replace, lines, |lines|, x).value.main
    ensures k < |lines| && RowAt(lines, k, x) == Some(IndexUpTo(replace, lines, |lines|, x).value.main[a])
    ensures IndexUpTo(replace, lines, |lines|, x).value.main[a].aacid == a
  {
    IndexUpToInvariant(replace, lines, |lines|, x);
    var t := IndexUpTo(replace, lines, |lines|, x).value;
    assert LastYield(lines, |lines|, x, a, t.main[a]);
    k :| 0 <= k < |lines| && RowAt(lines, k, x) == Some(t.main[a]) &&
      forall j :: k < j < |lines| ==> !YieldsKey(lines, j, x, a);
  }

  /** Each stored row points at the bytes of a line with its `aacid`. */
  lemma RowPointsAtItsLine(replace: bool, lines: seq<AacLine>, x: Extractor, a: string)
    requires KeepsPosition(x)
    requires IndexUpTo(replace, lines, |lines|, x).Ok?
    requires a in IndexUpTo(replace, lines, |lines|, x).value.main
    ensures var row := IndexUpTo(replace, lines, |lines|, x).value.main[a];
      row.aacid == a &&
      exists k :: 0 <= k < |lines| && lines[k].aacid == a &&
        row.byteOffset == Offset(lines, k) && row.byteLength == lines[k].length
  {
    var k := StoredRowLine(replace, lines, x, a);
    RowPosition(lines, k, x);
  }

  /** Stored rows with different keys point at disjoint byte ranges. */
  lemma RowsDisjoint(replace: bool, lines: seq<AacLine>, x: Extractor, a: string, b: string)
    requires KeepsPosition(x)
    requires IndexUpTo(replace, lines, |lines|, x).Ok?
    requires a in IndexUpTo(replace, lines, |lines|, x).value.main
    requires b in IndexUpTo(replace, lines, |lines|, x).value.main
    requires a != b
    ensures var t := IndexUpTo(replace, lines, |lines|, x).value;
      t.main[a].byteOffset + t.main[a].byteLength <= t.main[b].byteOffset ||
      t.main[b].byteOffset + t.main[b].byteLength <= t.main[a].byteOffset
  {
    var i := StoredRowLine(replace, lines, x, a);
    var j := StoredRowLine(replace, lines, x, b);
    RowPosition(lines, i, x);
    RowPosition(lines, j, x);
    if i < j {
      OffsetsIncrease(lines, i, j);
    } else if j < i {
      OffsetsIncrease(lines, j, i);
    }
  }

  /** Under `REPLACE` the row kept for a key is the one from the last line
      that yields that key. */
  lemma LastDuplicateWins(replace: bool, lines: seq<AacLine>, x: Extractor, a: string)
    requires IndexUpTo(replace, lines, |lines|, x).Ok?
    requires a in IndexUpTo(replace, lines, |lines|, x).value.main
    ensures LastYield(lines, |lines|, x, a, IndexUpTo(replace, lines, |lines|, x).value.main[a])
  {
    IndexUpToInvariant(replace, lines, |lines|, x);
  }

  /** Every line that yields a row has its key stored; under `INSERT` a
      successful run means no two lines yield the same `aacid`. */
  lemma EveryRowStored(replace: bool, lines: seq<AacLine>, x: Extractor, i: nat, j: nat)
    requires KeepsPosition(x)
    requires IndexUpTo(replace, lines, |lines|, x).Ok?
    requires i < j < |lines|
    requires RowAt(lines, i, x).Some? && RowAt(lines, j, x).Some?
    ensures lines[i].aacid in IndexUpTo(replace, lines, |lines|, x).value.main
    ensures !replace ==> lines[i].aacid != lines[j].aacid
  {
    IndexUpToInvariant(replace, lines, |lines|, x);
    RowPosition(lines, i, x);
    RowPosition(lines, j, x);
    if !replace && lines[i].aacid == lines[j].aacid {
      OffsetsIncrease(lines, i, j);
    }
  }

  /** An `INSERT` whose key the main table lacks cannot collide in the side
      table while every side-table pair refers to a stored row. */
  lemma WriteNoSideCollision(t: AacTables, row: AacRow, ms: set<string>)
    requires forall p :: p in t.multiple ==> p.1 in t.main
    ensures !Write(false, t, row, ms).Err? || !Write(false, t, row, ms).error.DuplicateMultipleMd5?
  {
    if row.aacid !in t.main {
      forall p | p in PairsOf(ms, row.aacid) ensures p !in t.multiple {
      }
      assert PairsOf(ms, row.aacid) * t.multiple == {};
    }
  }

  /** The `__multiple_md5` insert never hits a duplicate key: its pairs carry
      the `aacid` of a row the main table has just accepted. */
  lemma {:induction false} NoDuplicateMultipleMd5(replace: bool, lines: seq<AacLine>, n: nat, x: Extractor)
    requires n <= |lines|
    ensures !IndexUpTo(replace, lines, n, x).Err? || !IndexUpTo(replace, lines, n, x).error.DuplicateMultipleMd5?
  {
    if n > 0 {
      NoDuplicateMultipleMd5(replace, lines, n - 1, x);
      if IndexUpTo(replace, lines, n - 1, x).Ok? {
        IndexUpToInvariant(replace, lines, n - 1, x);
        var t := IndexUpTo(replace, lines, n - 1, x).value;
        assert IndexUpTo(replace, lines, n, x) == Step(replace, t, lines[n - 1], Offset(lines, n - 1), x);
        match x(lines[n - 1], Offset(lines, n - 1))
        case Ok(Entry(row, ms)) =>
          if !replace {
            WriteNoSideCollision(t, row, ms);
          }
        case _ =>
      }
    }
  }

  /** Once a prefix of the file raises, the whole file raises the same error. */
  lemma {:induction false} PrefixErrorStays(replace: bool, lines: seq<AacLine>, n: nat, x: Extractor)
    requires n <= |lines|
    requires IndexUpTo(replace, lines, n, x).Err?
    ensures IndexUpTo(replace, lines, |lines|, x) == IndexUpTo(replace, lines, n, x)
    decreases |lines| - n
  {
    if n < |lines| {
      PrefixErrorStays(replace, lines, n + 1, x);
    }
  }

  /** Reads the file line by line, keeping the running byte offset, and
      writes each extracted row as it goes. */
  method IndexCollection(replace: bool, lines: seq<AacLine>, buildInsertData: Extractor)
    returns (res: Result<AacTables, IndexError>)
    ensures res == IndexUpTo(replace, lines, |lines|, buildInsertData)
  {
    ghost var x := buildInsertData;
    var main: map<string, AacRow> := map[];
    var multiple: set<(string, string)> := {};
    var byteOffset := 0;
    var i := 0;
    while i < |lines|
      invariant 0 <= i <= |lines|
      invariant byteOffset == Offset(lines, i)
      invariant IndexUpTo(replace, lines, i, x) == Ok(AacTables(main, multiple))
    {
      var line := lines[i];
      if !line.passesSpotCheck {
        res := Err(SpotCheckFailed);
        PrefixErrorStays(replace, lines, i + 1, x);
        return;
      }
      var extracted := buildInsertData(line, byteOffset);
      if extracted.Err? {
        res := Err(BadLine(extracted.error));
        PrefixErrorStays(replace, lines, i + 1, x);
        return;
      }
      if extracted.value.Entry? {
        var row := extracted.value.row;
        var pairs := PairsOf(extracted.value.multipleMd5s, row.aacid);
        if !replace {
          if row.aacid in main {
            res := Err(DuplicateAacid(row.aacid));
            PrefixErrorStays(replace, lines, i + 1, x);
            return;
          }
          if pairs * multiple != {} {
            res := Err(DuplicateMultipleMd5(row.aacid));
            PrefixErrorStays(replace, lines, i + 1, x);
            return;
          }
        }
        main := main[row.aacid := row];
        multiple := multiple + pairs;
      }
      byteOffset := byteOffset + line.length;
      i := i + 1;
    }
    res := Ok(AacTables(main, multiple));
  }

  /** Indexing a whole file of collection `collection`. */
  function IndexOf(collection: string, lines: seq<AacLine>, isCanonicalMd5: string -> bool): Result<AacTables, IndexError> {
    IndexUpTo(UsesReplace(collection), lines, |lines|, ExtractorFor(collection, isCanonicalMd5))
  }

  /** What indexing one collection from one file gives. */
  type Indexer = (string, string) -> Result<AacTables, IndexError>

  /** The indexer the builder uses: `contents` reads a file. */
  function IndexerFor(contents: string -> seq<AacLine>, isCanonicalMd5: string -> bool): Indexer {
    (c: string, file: string) => IndexOf(c, contents(file), isCanonicalMd5)
  }

  /** The part of the database the rebuild loop changes: each collection's
      rebuilt tables (an error when the rebuild raised part-way), the file
      recorded per collection in `annas_archive_meta_aac_filenames`, the
      collection that raised, if any, and the collections rebuilt so far. */
  datatype RebuildState = RebuildState(
    tables: map<string, Result<AacTables, IndexError>>,
    recorded: map<string, string>,
    failed: Option<(string, IndexError)>,
    rebuilt: set<string>)

  /** The loop over `collections_need_indexing`, run over the collections
      `order` from the tables `t0` and the recorded files `r0`: each
      collection with a new file has its tables rebuilt, and its file is
      recorded once the whole pass succeeded; the first one that raises
      stops the loop. */
  function Rebuild(order: seq<string>, need: map<string, string>,
                   t0: map<string, Result<AacTables, IndexError>>, r0: map<string, string>,
                   index: Indexer): RebuildState
  {
    if order == [] then RebuildState(t0, r0, None, {})
    else
      var st := Rebuild(order[..|order| - 1], need, t0, r0, index);
      var c := order[|order| - 1];
      if st.failed.Some? || c !in need then st
      else
        var res := index(c, need[c]);
        RebuildState(st.tables[c := res],
                     if res.Ok? then st.recorded[c := need[c]] else st.recorded,
                     if res.Ok? then None else Some((c, res.error)),
                     st.rebuilt + {c})
  }

  /** The tables once the collections `rebuilt` have been re-indexed from
      their files in `need`: each of those holds what indexing its file
      gives, every other collection's tables are as they were. */
  ghost predicate TablesRebuilt(before: map<string, Result<AacTables, IndexError>>,
                                after: map<string, Result<AacTables, IndexError>>,
                                need: map<string, string>, rebuilt: set<string>, index: Indexer) {
    rebuilt <= need.Keys &&
    after.Keys == before.Keys + rebuilt &&
    (forall c :: c in rebuilt ==> after[c] == index(c, need[c])) &&
    (forall c :: c in before && c !in rebuilt ==> after[c] == before[c])
  }

  /** The recorded files once the collections `done` have had their files in
      `need` recorded; nothing else changes. */
  ghost predicate FilesRecorded(before: map<string, string>, after: map<string, string>,
                                need: map<string, string>, done: set<string>) {
    done <= need.Keys &&
    (forall c :: c in after <==> c in before || c in done) &&
    (forall c :: c in after ==> after[c] == if c in done then need[c] else before[c])
  }

  /** The collections that have their file recorded: those rebuilt, but the
      one that raised. */
  function Recorded(st: RebuildState): set<string> {
    st.rebuilt - if st.failed.Some? then {st.failed.value.0} else {}
  }

  /** No collection appears twice in `order`, as no key of a dictionary does. */
  predicate Distinct(order: seq<string>) {
    forall i, j :: 0 <= i < j < |order| ==> order[i] != order[j]
  }

  /** Exactly the collections the loop rebuilt hold fresh tables. */
  lemma {:induction false} RebuildTables(order: seq<string>, need: map<string, string>,
                                         t0: map<string, Result<AacTables, IndexError>>, r0: map<string, string>,
                                         index: Indexer)
    ensures TablesRebuilt(t0, Rebuild(order, need, t0, r0, index).tables, need,
                          Rebuild(order, need, t0, r0, index).rebuilt, index)
  {
    if order != [] {
      var init := order[..|order| - 1];
      RebuildTables(init, need, t0, r0, index);
      var st := Rebuild(init, need, t0, r0, index);
      var c := order[|order| - 1];
      if st.failed.None? && c in need {
        var after := st.tables[c := index(c, need[c])];
        assert Rebuild(order, need, t0, r0, index).tables == after;
        assert Rebuild(order, need, t0, r0, index).rebuilt == st.rebuilt + {c};
        forall d | d in st.rebuilt + {c} ensures after[d] == index(d, need[d]) {
          if d != c {
            assert after[d] == st.tables[d];
          }
        }
        forall d | d in t0 && d !in st.rebuilt + {c} ensures after[d] == t0[d] {
          assert after[d] == st.tables[d];
        }
      }
    }
  }

  /** Every collection the loop rebuilt but the one that raised has its file
      recorded, and no other file changes. */
  lemma {:induction false} RebuildRecords(order: seq<string>, need: map<string, string>,
                                          t0: map<string, Result<AacTables, IndexError>>, r0: map<string, string>,
                                          index: Indexer)
    requires Distinct(order)
    ensures FilesRecorded(r0, Rebuild(order, need, t0, r0, index).recorded, need,
                          Recorded(Rebuild(order, need, t0, r0, index)))
    ensures Rebuild(order, need, t0, r0, index).rebuilt <= set c | c in order
  {
    if order != [] {
      var init := order[..|order| - 1];
      RebuildRecords(init, need, t0, r0, index);
      var st := Rebuild(init, need, t0, r0, index);
      var c := order[|order| - 1];
      assert forall d :: d in init ==> d in order;
      if st.failed.None? && c in need {
        assert c !in st.rebuilt;
        var st' := Rebuild(order, need, t0, r0, index);
        if index(c, need[c]).Ok? {
          assert st'.recorded == st.recorded[c := need[c]];
          assert Recorded(st') == Recorded(st) + {c};
        } else {
          assert st'.recorded == st.recorded;
          assert Recorded(st') == Recorded(st);
        }
      }
    }
  }

  /** Without a failure every collection of `order` with a new file was
      rebuilt, and successfully; with one, the collection that raised is
      rebuilt and holds the error. */
  lemma {:induction false} RebuildOutcome(order: seq<string>, need: map<string, string>,
                                          t0: map<string, Result<AacTables, IndexError>>, r0: map<string, string>,
                                          index: Indexer)
    ensures Rebuild(order, need, t0, r0, index).failed.None? ==>
      forall c :: c in Rebuild(order, need, t0, r0, index).rebuilt <==> c in need && c in order
    ensures Rebuild(order, need, t0, r0, index).failed.None? ==>
      forall c :: c in Rebuild(order, need, t0, r0, index).rebuilt ==>
        c in Rebuild(order, need, t0, r0, index).tables && Rebuild(order, need, t0, r0, index).tables[c].Ok?
    ensures Rebuild(order, need, t0, r0, index).failed.Some? ==>
      Rebuild(order, need, t0, r0, index).failed.value.0 in Rebuild(order, need, t0, r0, index).rebuilt &&
      Rebuild(order, need, t0, r0, index).failed.value.0 in Rebuild(order, need, t0, r0, index).tables &&
      Rebuild(order, need, t0, r0, index).tables[Rebuild(order, need, t0, r0, index).failed.value.0] ==
        Err(Rebuild(order, need, t0, r0, index).failed.value.1)
  {
    if order != [] {
      var init := order[..|order| - 1];
      RebuildOutcome(init, need, t0, r0, index);
      var c := order[|order| - 1];
      assert forall d :: d in order <==> d in init || d == c;
    }
  }

  /** A run without a failure over a listing holding every collection of
      `need` records exactly the files of `need`. */
  lemma RecordsAll(order: seq<string>, need: map<string, string>,
                   t0: map<string, Result<AacTables, IndexError>>, r0: map<string, string>, index: Indexer)
    requires Distinct(order) && forall c :: c in need ==> c in order
    requires Rebuild(order, need, t0, r0, index).failed.None?
    ensures Rebuild(order, need, t0, r0, index).recorded == r0 + need
  {
    var st := Rebuild(order, need, t0, r0, index);
    RebuildRecords(order, need, t0, r0, index);
    RebuildOutcome(order, need, t0, r0, index);
    assert Recorded(st) == need.Keys;
  }

  /** Over the collections in listing order and the files chosen for them,
      once every rebuild succeeded the same listing re-indexes nothing. */
  lemma RebuildThenNothingToDo(fs: seq<string>, t0: map<string, Result<AacTables, IndexError>>,
                               r0: map<string, string>, index: Indexer)
    requires Rebuild(CollectionOrder(fs), NeedsIndexing(fs, r0), t0, r0, index).failed.None?
    ensures NeedsIndexing(fs, Rebuild(CollectionOrder(fs), NeedsIndexing(fs, r0), t0, r0, index).recorded) == map[]
  {
    var need := NeedsIndexing(fs, r0);
    var order := CollectionOrder(fs);
    CollectionOrderIsCollections(fs);
    assert forall c :: c in need ==> c in order;
    RecordsAll(order, need, t0, r0, index);
    SecondRunIndexesNothing(fs, r0);
  }

  /** Once a collection has raised, the rest of the listing changes nothing. */
  lemma {:induction false} RebuildStops(order: seq<string>, k: nat, need: map<string, string>,
                                        t0: map<string, Result<AacTables, IndexError>>, r0: map<string, string>,
                                        index: Indexer)
    requires k <= |order| && Rebuild(order[..k], need, t0, r0, index).failed.Some?
    ensures Rebuild(order, need, t0, r0, index) == Rebuild(order[..k], need, t0, r0, index)
    decreases |order| - k
  {
    if k < |order| {
      assert order[..k + 1][..k] == order[..k];
      RebuildStops(order, k + 1, need, t0, r0, index);
    } else {
      assert order[..k] == order;
    }
  }

  /** The database state this builder touches: the file recorded per
      collection in `annas_archive_meta_aac_filenames`, and each collection's
      rebuilt tables. */
  class AacDatabase {
    var recorded: map<string, string>
    var tables: map<string, Result<AacTables, IndexError>>

    constructor (recorded: map<string, string>)
      ensures this.recorded == recorded && tables == map[]
    {
      this.recorded := recorded;
      tables := map[];
    }

    /** `mysql_build_aac_tables_internal`: re-indexes every collection whose
        newest file changed, in listing order. `contents` reads a file. When
        a collection's summary line raises, nothing is re-indexed and that
        collection is reported. */
    method BuildAacTables(fs: seq<string>, contents: string -> seq<AacLine>, isCanonicalMd5: string -> bool)
      returns (failed: Option<(string, IndexError)>, ghost rebuilt: set<string>)
      modifies this
      ensures (forall c :: !SummaryRaises(fs, c)) ==>
        Rebuild(CollectionOrder(fs), NeedsIndexing(fs, old(recorded)), old(tables), old(recorded),
                IndexerFor(contents, isCanonicalMd5)) == RebuildState(tables, recorded, failed, rebuilt)
      ensures (exists c :: SummaryRaises(fs, c)) ==>
        tables == old(tables) && recorded == old(recorded) && rebuilt == {} &&
        failed.Some? && failed.value.1 == SummaryUnprintable && SummaryRaises(fs, failed.value.0)
    {
      var order, need, unprintable := SelectCollectionsToIndex(fs, recorded);
      if unprintable.Some? {
        return Some((unprintable.value, SummaryUnprintable)), {};
      }
      failed, rebuilt := RebuildCollections(order, need, contents, isCanonicalMd5);
    }

    /** One pass of that loop: the collection's tables are rebuilt from
        `file`, and the file is recorded only when the rebuild did not
        raise. */
    method RebuildOne(c: string, file: string, contents: string -> seq<AacLine>, isCanonicalMd5: string -> bool)
      returns (res: Result<AacTables, IndexError>)
      modifies this
      ensures res == IndexerFor(contents, isCanonicalMd5)(c, file)
      ensures tables == old(tables)[c := res]
      ensures recorded == if res.Ok? then old(recorded)[c := file] else old(recorded)
    {
      res := IndexCollection(UsesReplace(c), contents(file), ExtractorFor(c, isCanonicalMd5));
      tables := tables[c := res];
      if res.Ok? {
        recorded := recorded[c := file];
      }
    }

    /** The loop over `collections_need_indexing`: drops, recreates and
        refills each collection's tables, then records its file; the first
        collection that raises ends the run. */
    method RebuildCollections(order: seq<string>, need: map<string, string>,
                              contents: string -> seq<AacLine>, isCanonicalMd5: string -> bool)
      returns (failed: Option<(string, IndexError)>, ghost rebuilt: set<string>)
      modifies this
      ensures Rebuild(order, need, old(tables), old(recorded), IndexerFor(contents, isCanonicalMd5)) ==
              RebuildState(tables, recorded, failed, rebuilt)
    {
      ghost var index := IndexerFor(contents, isCanonicalMd5);
      rebuilt := {};
      failed := None;
      var k := 0;
      while k < |order|
        invariant 0 <= k <= |order|
        invariant Rebuild(order[..k], need, old(tables), old(recorded), index) ==
                  RebuildState(tables, recorded, None, rebuilt)
      {
        var c := order[k];
        assert order[..k + 1][..k] == order[..k];
        if c in need {
          var res := RebuildOne(c, need[c], contents, isCanonicalMd5);
          rebuilt := rebuilt + {c};
          if res.Err? {
            failed := Some((c, res.error));
            assert Rebuild(order[..k + 1], need, old(tables), old(recorded), index) ==
                   RebuildState(tables, recorded, failed, rebuilt);
            RebuildStops(order, k + 1, need, old(tables), old(recorded), index);
            return;
          }
        }
        k := k + 1;
      }
      assert order[..k] == order;
    }
  }
}
