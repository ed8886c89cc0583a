/** One run of `elastic_build_aarecords_job` over a chunk of aarecord ids
    (allthethings/cli/views.py): filter the ids, resolve them to records,
    collect the index operations and cross-reference rows, send the index
    operations with up to three attempts, then write the rows. Any exception
    makes the job report failure (`True`). The database, Elasticsearch and the
    record resolver are the parameters in `Env`. */
module Job {
  import opened Wrappers
  import opened Text
  import opened IdRewrite
  import opened AacLines

  /** `AARECORD_ID_PREFIX_TO_CODES_TABLE_NAME`. */
  const CodesTableOf: map<string, string> := map[
    "edsebk" := "aarecords_codes_edsebk",
    "ia" := "aarecords_codes_ia",
    "isbn" := "aarecords_codes_isbndb",
    "ol" := "aarecords_codes_ol",
    "duxiu_ssid" := "aarecords_codes_duxiu",
    "cadal_ssno" := "aarecords_codes_duxiu",
    "oclc" := "aarecords_codes_oclc",
    "magzdb" := "aarecords_codes_magzdb",
    "nexusstc" := "aarecords_codes_nexusstc",
    "md5" := "aarecords_codes_main",
    "doi" := "aarecords_codes_main",
    "nexusstc_download" := "aarecords_codes_main"]

  /** The nine per-source codes tables the rank-number build reads. */
  const CodesTables: set<string> := {
    "aarecords_codes_ia", "aarecords_codes_isbndb", "aarecords_codes_ol", "aarecords_codes_duxiu",
    "aarecords_codes_oclc", "aarecords_codes_magzdb", "aarecords_codes_edsebk",
    "aarecords_codes_nexusstc", "aarecords_codes_main"}

  /** Every id prefix a driver produces has a codes table, and the tables are
      exactly the nine the rank-number build unions. */
  lemma CodesTableOfCoversDrivers()
    ensures CodesTableOf.Keys == {"edsebk", "ia", "isbn", "ol", "duxiu_ssid", "cadal_ssno", "oclc",
                                  "magzdb", "nexusstc", "md5", "doi", "nexusstc_download"}
    ensures CodesTableOf.Values == CodesTables
  {
    assert CodesTableOf["ia"] == "aarecords_codes_ia";
    assert CodesTableOf["isbn"] == "aarecords_codes_isbndb";
    assert CodesTableOf["ol"] == "aarecords_codes_ol";
    assert CodesTableOf["duxiu_ssid"] == "aarecords_codes_duxiu";
    assert CodesTableOf["oclc"] == "aarecords_codes_oclc";
    assert CodesTableOf["magzdb"] == "aarecords_codes_magzdb";
    assert CodesTableOf["edsebk"] == "aarecords_codes_edsebk";
    assert CodesTableOf["nexusstc"] == "aarecords_codes_nexusstc";
    assert CodesTableOf["md5"] == "aarecords_codes_main";
  }

  /** The fields of a resolved record the job reads. The unified identifier and
      classification dictionaries are lists of (name, values) in key order.
      `searchOnlyCompressed` is the `json_compressed` column: the compressed
      JSON of the record's three `search_only_fields`, taken as given. */
  datatype Aarecord = Aarecord(
    id: string,
    indexes: seq<string>,
    identifiers: seq<(string, seq<string>)>,
    classifications: seq<(string, seq<string>)>,
    cidOnlyLinks: nat,
    nexusstcId: string,
    searchOnlyCompressed: seq<bv8>)

  /** What `get_isbndb_dicts` reports for one isbn13: its ean13 and how many
      isbndb records it has. */
  datatype IsbndbDict = IsbndbDict(ean13: string, isbndbCount: nat)

  /** The job's surroundings. A function returning `None` raised. */
  datatype Env = Env(
    denylist: set<string>,                                 // SEARCH_FILTERED_BAD_AARECORD_IDS
    isbndbDicts: seq<string> -> Option<seq<IsbndbDict>>,   // get_isbndb_dicts
    doiSeen: set<string>,                                  // temp_md5_with_doi_seen
    aarecords: seq<string> -> Option<seq<Aarecord>>,       // get_aarecords_mysql
    virtshard: string -> nat,                              // virtshard of the id's md5 digest
    esHandleOf: map<string, string>,                       // SEARCH_INDEX_TO_ES_MAPPING
    bulkOk: (nat, string) -> bool,                         // attempt, handle: the bulk call succeeds
    codeLengthLimit: nat,                                  // AARECORDS_CODES_CODE_LENGTH
    idLengthLimit: nat)                                    // AARECORDS_CODES_AARECORD_ID_LENGTH

  datatype Row =
    | AllMd5Row(md5: Option<seq<bv8>>, jsonCompressed: seq<bv8>)
    | IsbnRow(isbn13: string, sourceId: int)
    | NexusstcRow(nexusstcId: string)
    | DoiRow(doi: string)

  /** A row of a per-source codes table. */
  datatype CodeEntry = CodeEntry(code: string, aarecordId: string)

  /** An index operation: `_index` and `_id` (the body is the record). */
  datatype EsOp = EsOp(index: string, id: string)

  /** One `INSERT DELAYED` into a side table or into a codes table. */
  datatype Write =
    | Insert(table: string, rows: seq<Row>)
    | InsertCodes(table: string, entries: seq<CodeEntry>)

  datatype JobError = BadMd5Hex | MissingSourceId | BadSourceId | UnknownIndex | UnknownPrefix

  /** What the job did to the outside world, up to where it stopped. */
  datatype Effects = Effects(
    isbndbLookup: seq<string>,
    doiQuery: Option<seq<string>>,
    resolved: Option<seq<string>>,
    bulkCalls: seq<BulkCall>,
    writes: seq<Write>)

  datatype JobOutcome = JobOutcome(failed: bool, effects: Effects)

  // ---------------------------------------------------------------------------
  // The three filters

  /** `[id[len(tag) + 1:] for id in ids if id.startswith(tag + ':')]`. */
  function Stripped(ids: seq<string>, tag: string): seq<string> {
    if |ids| == 0 then []
    else
      var init := Stripped(ids[..|ids| - 1], tag);
      var id := ids[|ids| - 1];
      if StartsWith(id, tag + ":") then init + [id[|tag| + 1..]] else init
  }

  /** A value is stripped from the ids exactly when `tag:value` is one of them. */
  lemma {:induction false} StrippedMembers(ids: seq<string>, tag: string)
    ensures forall x :: x in Stripped(ids, tag) <==> AarecordId(tag, x) in ids
  {
    if |ids| > 0 {
      var init := ids[..|ids| - 1];
      var id := ids[|ids| - 1];
      StrippedMembers(init, tag);
      assert ids == init + [id];
      if StartsWith(id, tag + ":") {
        assert id == AarecordId(tag, id[|tag| + 1..]);
      }
      forall x ensures AarecordId(tag, x) == id ==> StartsWith(id, tag + ":") && id[|tag| + 1..] == x {
        if AarecordId(tag, x) == id {
          assert id[..|tag| + 1] == tag + ":";
        }
      }
    }
  }

  /** `bad_isbn13_aarecord_ids`: the isbn ids with no isbndb record. */
  function BadIsbn13Ids(dicts: seq<IsbndbDict>): set<string> {
    set d | d in dicts && d.isbndbCount == 0 :: AarecordId("isbn", d.ean13)
  }

  /** `doi_codes_with_md5`: the doi ids already seen with a file. */
  function DoiCodesWithMd5(dois: seq<string>, seen: set<string>): set<string> {
    set d | d in dois && d in seen :: AarecordId("doi", d)
  }

  predicate Filtered(id: string, bad: set<string>, seen: set<string>, denylist: set<string>) {
    id in bad || id in seen || id in denylist
  }

  /** The ids that survive the three filters, in chunk order. */
  function Kept(ids: seq<string>, bad: set<string>, seen: set<string>, denylist: set<string>): seq<string> {
    if |ids| == 0 then []
    else
      var init := Kept(ids[..|ids| - 1], bad, seen, denylist);
      if Filtered(ids[|ids| - 1], bad, seen, denylist) then init else init + [ids[|ids| - 1]]
  }

  lemma {:induction false} KeptMembers(ids: seq<string>, bad: set<string>, seen: set<string>, denylist: set<string>)
    ensures forall x :: x in Kept(ids, bad, seen, denylist) <==> x in ids && !Filtered(x, bad, seen, denylist)
  {
    if |ids| > 0 {
      var init := ids[..|ids| - 1];
      KeptMembers(init, bad, seen, denylist);
      assert ids == init + [ids[|ids| - 1]];
    }
  }

  // ---------------------------------------------------------------------------
  // One record's contributions

  /** The id prefix: `aarecord['id'].split(':', 1)[0]`. */
  function Prefix(id: string): string {
    SplitOnce(id, ":").0
  }

  /** `d.get(name) or []`. */
  function Lookup(kvs: seq<(string, seq<string>)>, name: string): seq<string> {
    if |kvs| == 0 then [] else if kvs[0].0 == name then kvs[0].1 else Lookup(kvs[1..], name)
  }

  function Isbn13s(r: Aarecord): seq<string> {
    Lookup(r.identifiers, "isbn13")
  }

  /** `name:value` for every value of every name, in order. */
  function CodesOf(kvs: seq<(string, seq<string>)>): seq<string> {
    if |kvs| == 0 then [] else PrefixedIds(kvs[0].0, kvs[0].1) + CodesOf(kvs[1..])
  }

  function Codes(r: Aarecord): seq<string> {
    CodesOf(r.identifiers) + CodesOf(r.classifications)
  }

  predicate IsLowerHex(s: string) {
    |s| % 2 == 0 && forall i :: 0 <= i < |s| ==> IsLowerHexDigit(s[i])
  }

  /** The md5 column: `bytes.fromhex` of the id's value for an `md5:` id. */
  function Md5Column(id: string): Result<Option<seq<bv8>>, JobError> {
    if !StartsWith(id, "md5:") then Ok(None)
    else if IsLowerHex(id[4..]) then Ok(Some(FromHex(id[4..])))
    else Err(BadMd5Hex)
  }

  /** The isbn13 cross-reference rows of an `oclc`/`edsebk` record: none for
      ten or more isbn13s; `int(split[1])` is only evaluated per isbn13. */
  function IsbnRows(isbn13s: seq<string>, sourceId: Option<string>): Result<seq<Row>, JobError> {
    if |isbn13s| == 0 || |isbn13s| >= 10 then Ok([])
    else if sourceId.None? then Err(MissingSourceId)
    else match ParseInt(sourceId.value)
      case None => Err(BadSourceId)
      case Some(n) => Ok(seq(|isbn13s|, k requires 0 <= k < |isbn13s| => IsbnRow(isbn13s[k], n)))
  }

  /** The cross-reference rows of the five side tables. */
  datatype CrossRefs = CrossRefs(
    allMd5: seq<Row>,
    isbn13Oclc: seq<Row>,
    isbn13Edsebk: seq<Row>,
    nexusstcCidOnly: seq<Row>,
    md5WithDoiSeen: seq<Row>)

  const NoCrossRefs := CrossRefs([], [], [], [], [])

  function Concat(a: CrossRefs, b: CrossRefs): CrossRefs {
    CrossRefs(a.allMd5 + b.allMd5, a.isbn13Oclc + b.isbn13Oclc, a.isbn13Edsebk + b.isbn13Edsebk,
              a.nexusstcCidOnly + b.nexusstcCidOnly, a.md5WithDoiSeen + b.md5WithDoiSeen)
  }

  function DoiRows(dois: seq<string>): seq<Row> {
    seq(|dois|, k requires 0 <= k < |dois| => DoiRow(dois[k]))
  }

  /** The branch on the id prefix. */
  function RecordCrossRefs(r: Aarecord): Result<CrossRefs, JobError> {
    var split := SplitOnce(r.id, ":");
    if split.0 == "md5" then
      match Md5Column(r.id)
      case Err(e) => Err(e)
      case Ok(md5) => Ok(NoCrossRefs.(allMd5 := [AllMd5Row(md5, r.searchOnlyCompressed)],
                                      md5WithDoiSeen := DoiRows(Lookup(r.identifiers, "doi"))))
    else if split.0 == "oclc" then
      match IsbnRows(Isbn13s(r), split.1)
      case Err(e) => Err(e)
      case Ok(rows) => Ok(NoCrossRefs.(isbn13Oclc := rows))
    else if split.0 == "edsebk" then
      match IsbnRows(Isbn13s(r), split.1)
      case Err(e) => Err(e)
      case Ok(rows) => Ok(NoCrossRefs.(isbn13Edsebk := rows))
    else if split.0 == "nexusstc" && r.cidOnlyLinks > 0 then
      Ok(NoCrossRefs.(nexusstcCidOnly := [NexusstcRow(r.nexusstcId)]))
    else Ok(NoCrossRefs)
  }

  /** `f'{index}__{virtshard}'`. */
  function ShardIndex(index: string, shard: nat): string {
    index + "__" + NatToDecimal(shard)
  }

  /** One index operation per target index, with the handle it goes to. */
  function IndexOps(r: Aarecord, env: Env): Result<seq<(string, EsOp)>, JobError> {
    if forall k :: 0 <= k < |r.indexes| ==> r.indexes[k] in env.esHandleOf then
      Ok(seq(|r.indexes|, k requires 0 <= k < |r.indexes| && r.indexes[k] in env.esHandleOf =>
        (env.esHandleOf[r.indexes[k]], EsOp(ShardIndex(r.indexes[k], env.virtshard(r.id)), r.id))))
    else Err(UnknownIndex)
  }

  /** The code rows with the table each goes to; the prefix is only looked up
      when there is a code. */
  function CodeRows(r: Aarecord): Result<seq<(string, CodeEntry)>, JobError> {
    var codes := Codes(r);
    if |codes| == 0 then Ok([])
    else if Prefix(r.id) in CodesTableOf then
      Ok(seq(|codes|, k requires 0 <= k < |codes| => (CodesTableOf[Prefix(r.id)], CodeEntry(codes[k], r.id))))
    else Err(UnknownPrefix)
  }

  // ---------------------------------------------------------------------------
  // Grouping by key, as a `defaultdict(list)` keeps it: keys in first-seen order

  function AddToGroup<K(==), V>(groups: seq<(K, seq<V>)>, k: K, v: V): seq<(K, seq<V>)> {
    if |groups| == 0 then [(k, [v])]
    else if groups[0].0 == k then [(k, groups[0].1 + [v])] + groups[1..]
    else [groups[0]] + AddToGroup(groups[1..], k, v)
  }

  function AddAll<K(==), V>(groups: seq<(K, seq<V>)>, kvs: seq<(K, V)>): seq<(K, seq<V>)>
    decreases |kvs|
  {
    if |kvs| == 0 then groups else AddAll(AddToGroup(groups, kvs[0].0, kvs[0].1), kvs[1..])
  }

  ghost function Keys<K, V>(groups: seq<(K, seq<V>)>): set<K> {
    set i | 0 <= i < |groups| :: groups[i].0
  }

  predicate DistinctKeys<K(==), V>(groups: seq<(K, seq<V>)>) {
    forall i, j :: 0 <= i < j < |groups| ==> groups[i].0 != groups[j].0
  }

  /** The (key, value) pairs the groups hold. */
  ghost function Pairs<K, V>(groups: seq<(K, seq<V>)>): set<(K, V)> {
    if |groups| == 0 then {} else (set v | v in groups[0].1 :: (groups[0].0, v)) + Pairs(groups[1..])
  }

  function GroupSizes<K, V>(groups: seq<(K, seq<V>)>): nat {
    if |groups| == 0 then 0 else |groups[0].1| + GroupSizes(groups[1..])
  }

  /** Adding keeps every key where it was, and appends a group for a new key. */
  lemma {:induction false} AddToGroupShape<K, V>(groups: seq<(K, seq<V>)>, k: K, v: V)
    ensures |AddToGroup(groups, k, v)| == |groups| || |AddToGroup(groups, k, v)| == |groups| + 1
    ensures forall i :: 0 <= i < |groups| ==> AddToGroup(groups, k, v)[i].0 == groups[i].0
    ensures |AddToGroup(groups, k, v)| == |groups| + 1 ==>
      AddToGroup(groups, k, v)[|groups|].0 == k && forall i :: 0 <= i < |groups| ==> groups[i].0 != k
  {
    if |groups| > 0 && groups[0].0 != k {
      AddToGroupShape(groups[1..], k, v);
      var t := AddToGroup(groups[1..], k, v);
      assert AddToGroup(groups, k, v) == [groups[0]] + t;
      assert forall i :: 1 <= i < |groups| ==> groups[i] == groups[1..][i - 1];
    }
  }

  lemma AddToGroupDistinct<K, V>(groups: seq<(K, seq<V>)>, k: K, v: V)
    requires DistinctKeys(groups)
    ensures DistinctKeys(AddToGroup(groups, k, v))
  {
    AddToGroupShape(groups, k, v);
  }

  lemma {:induction false} AddToGroupPairs<K, V>(groups: seq<(K, seq<V>)>, k: K, v: V)
    ensures Pairs(AddToGroup(groups, k, v)) == Pairs(groups) + {(k, v)}
  {
    if |groups| > 0 {
      if groups[0].0 == k {
        assert AddToGroup(groups, k, v)[1..] == groups[1..];
      } else {
        AddToGroupPairs(groups[1..], k, v);
        assert AddToGroup(groups, k, v)[1..] == AddToGroup(groups[1..], k, v);
      }
    }
  }

  lemma {:induction false} AddToGroupSize<K, V>(groups: seq<(K, seq<V>)>, k: K, v: V)
    ensures GroupSizes(AddToGroup(groups, k, v)) == GroupSizes(groups) + 1
  {
    if |groups| > 0 {
      if groups[0].0 == k {
        assert AddToGroup(groups, k, v)[1..] == groups[1..];
      } else {
        AddToGroupSize(groups[1..], k, v);
        assert AddToGroup(groups, k, v)[1..] == AddToGroup(groups[1..], k, v);
      }
    }
  }

  /** Grouping keeps the keys distinct, ... */
  lemma {:induction false} AddAllDistinct<K, V>(groups: seq<(K, seq<V>)>, kvs: seq<(K, V)>)
    requires DistinctKeys(groups)
    ensures DistinctKeys(AddAll(groups, kvs))
    decreases |kvs|
  {
    if |kvs| > 0 {
      AddToGroupDistinct(groups, kvs[0].0, kvs[0].1);
      AddAllDistinct(AddToGroup(groups, kvs[0].0, kvs[0].1), kvs[1..]);
    }
  }

  /** ... holds exactly the pairs added, ... */
  lemma {:induction false} AddAllPairs<K, V>(groups: seq<(K, seq<V>)>, kvs: seq<(K, V)>)
    ensures Pairs(AddAll(groups, kvs)) == Pairs(groups) + (set p | p in kvs)
    decreases |kvs|
  {
    if |kvs| > 0 {
      AddToGroupPairs(groups, kvs[0].0, kvs[0].1);
      AddAllPairs(AddToGroup(groups, kvs[0].0, kvs[0].1), kvs[1..]);
      assert kvs == [kvs[0]] + kvs[1..];
      assert (set p | p in kvs) == {kvs[0]} + (set p | p in kvs[1..]);
    }
  }

  /** ... and neither loses nor duplicates a value. */
  lemma {:induction false} AddAllSizes<K, V>(groups: seq<(K, seq<V>)>, kvs: seq<(K, V)>)
    ensures GroupSizes(AddAll(groups, kvs)) == GroupSizes(groups) + |kvs|
    decreases |kvs|
  {
    if |kvs| > 0 {
      AddToGroupSize(groups, kvs[0].0, kvs[0].1);
      AddAllSizes(AddToGroup(groups, kvs[0].0, kvs[0].1), kvs[1..]);
    }
  }

  // ---------------------------------------------------------------------------
  // The loop over the resolved records

  datatype InsertData = InsertData(
    refs: CrossRefs,
    esOps: seq<(string, seq<EsOp>)>,
    codes: seq<(string, seq<CodeEntry>)>)

  const NoInsertData := InsertData(NoCrossRefs, [], [])

  /** One iteration of the loop over the records: the first exception is the
      cross-reference branch's, then an unknown index, then an unknown prefix. */
  function RecordStep(acc: InsertData, r: Aarecord, env: Env): Result<InsertData, JobError> {
    match RecordCrossRefs(r)
    case Err(e) => Err(e)
    case Ok(refs) =>
      match IndexOps(r, env)
      case Err(e) => Err(e)
      case Ok(ops) =>
        match CodeRows(r)
        case Err(e) => Err(e)
        case Ok(rows) => Ok(InsertData(Concat(acc.refs, refs), AddAll(acc.esOps, ops), AddAll(acc.codes, rows)))
  }

  /** The insert data of all records, or the first exception. */
  function Collect(recs: seq<Aarecord>, env: Env): Result<InsertData, JobError> {
    if |recs| == 0 then Ok(NoInsertData)
    else
      match Collect(recs[..|recs| - 1], env)
      case Err(e) => Err(e)
      case Ok(acc) => RecordStep(acc, recs[|recs| - 1], env)
  }

  lemma {:induction false} CollectErrorStays(recs: seq<Aarecord>, env: Env, i: nat)
    requires i <= |recs| && Collect(recs[..i], env).Err?
    ensures Collect(recs, env) == Collect(recs[..i], env)
    decreases |recs| - i
  {
    if i < |recs| {
      assert recs[..i + 1][..i] == recs[..i];
      CollectErrorStays(recs, env, i + 1);
    } else {
      assert recs[..i] == recs;
    }
  }

  /** The index operations and the code rows every record asks for. */
  ghost function OpsOf(recs: seq<Aarecord>, env: Env): set<(string, EsOp)> {
    if |recs| == 0 then {}
    else
      var last := match IndexOps(recs[|recs| - 1], env) case Ok(ops) => (set p | p in ops) case Err(_) => {};
      OpsOf(recs[..|recs| - 1], env) + last
  }

  ghost function CodeRowsOf(recs: seq<Aarecord>): set<(string, CodeEntry)> {
    if |recs| == 0 then {}
    else
      var last := match CodeRows(recs[|recs| - 1]) case Ok(rows) => (set p | p in rows) case Err(_) => {};
      CodeRowsOf(recs[..|recs| - 1]) + last
  }

  function IndexCount(recs: seq<Aarecord>): nat {
    if |recs| == 0 then 0 else IndexCount(recs[..|recs| - 1]) + |recs[|recs| - 1].indexes|
  }

  function CodeCount(recs: seq<Aarecord>): nat {
    if |recs| == 0 then 0 else CodeCount(recs[..|recs| - 1]) + |Codes(recs[|recs| - 1])|
  }

  /** A list of records collected without raising is its start collected
      without raising, followed by the last record's rows and operations. */
  lemma CollectLast(recs: seq<Aarecord>, env: Env)
    requires |recs| > 0 && Collect(recs, env).Ok?
    ensures Collect(recs[..|recs| - 1], env).Ok?
    ensures var r := recs[|recs| - 1];
      RecordCrossRefs(r).Ok? && IndexOps(r, env).Ok? && CodeRows(r).Ok?
    ensures var acc := Collect(recs[..|recs| - 1], env).value; var r := recs[|recs| - 1];
      Collect(recs, env).value.esOps == AddAll(acc.esOps, IndexOps(r, env).value) &&
      Collect(recs, env).value.codes == AddAll(acc.codes, CodeRows(r).value) &&
      Collect(recs, env).value.refs == Concat(acc.refs, RecordCrossRefs(r).value)
  {
  }

  /** The collected operations keep each handle once, are exactly the ones the
      records ask for, and number one per (record, target index). */
  lemma {:induction false} CollectEsOps(recs: seq<Aarecord>, env: Env)
    requires Collect(recs, env).Ok?
    ensures DistinctKeys(Collect(recs, env).value.esOps)
    ensures Pairs(Collect(recs, env).value.esOps) == OpsOf(recs, env)
    ensures GroupSizes(Collect(recs, env).value.esOps) == IndexCount(recs)
  {
    if |recs| > 0 {
      var init := recs[..|recs| - 1];
      var r := recs[|recs| - 1];
      CollectEsOps(init, env);
      CollectLast(recs, env);
      var acc := Collect(init, env).value;
      var ops := IndexOps(r, env).value;
      AddAllDistinct(acc.esOps, ops);
      AddAllPairs(acc.esOps, ops);
      AddAllSizes(acc.esOps, ops);
    }
  }

  /** The collected code rows keep each codes table once, are exactly the ones
      the records ask for, and number one per (record, code). */
  lemma {:induction false} CollectCodes(recs: seq<Aarecord>, env: Env)
    requires Collect(recs, env).Ok?
    ensures DistinctKeys(Collect(recs, env).value.codes)
    ensures Pairs(Collect(recs, env).value.codes) == CodeRowsOf(recs)
    ensures GroupSizes(Collect(recs, env).value.codes) == CodeCount(recs)
  {
    if |recs| > 0 {
      var init := recs[..|recs| - 1];
      var r := recs[|recs| - 1];
      CollectCodes(init, env);
      CollectLast(recs, env);
      var acc := Collect(init, env).value;
      var rows := CodeRows(r).value;
      assert |rows| == |Codes(r)|;
      AddAllDistinct(acc.codes, rows);
      AddAllPairs(acc.codes, rows);
      AddAllSizes(acc.codes, rows);
    }
  }

  /** Every index operation is `{index}__{virtshard}` for one of a record's
      target indexes, sent to that index's handle, with the record's id. */
  lemma {:induction false} OpsOfMeaning(recs: seq<Aarecord>, env: Env, h: string, op: EsOp)
    requires (h, op) in OpsOf(recs, env)
    ensures exists i, k :: (0 <= i < |recs| && 0 <= k < |recs[i].indexes| &&
      recs[i].indexes[k] in env.esHandleOf && h == env.esHandleOf[recs[i].indexes[k]] &&
      op == EsOp(ShardIndex(recs[i].indexes[k], env.virtshard(recs[i].id)), recs[i].id))
  {
    var init := recs[..|recs| - 1];
    var r := recs[|recs| - 1];
    if (h, op) in OpsOf(init, env) {
      OpsOfMeaning(init, env, h, op);
      var i, k :| 0 <= i < |init| && 0 <= k < |init[i].indexes| &&
        init[i].indexes[k] in env.esHandleOf && h == env.esHandleOf[init[i].indexes[k]] &&
        op == EsOp(ShardIndex(init[i].indexes[k], env.virtshard(init[i].id)), init[i].id);
      assert recs[i] == init[i];
    } else {
      var ops := IndexOps(r, env).value;
      var k :| 0 <= k < |ops| && ops[k] == (h, op);
      assert recs[|recs| - 1] == r;
    }
  }

  /** `row` goes to `t`, the codes table of its id's prefix. */
  predicate RoutedTo(row: CodeEntry, t: string) {
    Prefix(row.aarecordId) in CodesTableOf && t == CodesTableOf[Prefix(row.aarecordId)]
  }

  /** Every code row is `name:value` of its record, bound for the codes table
      of the record's id prefix. */
  lemma {:induction false} CodeRowsOfMeaning(recs: seq<Aarecord>, t: string, row: CodeEntry)
    requires (t, row) in CodeRowsOf(recs)
    ensures RoutedTo(row, t)
    ensures exists i :: 0 <= i < |recs| && row.aarecordId == recs[i].id && row.code in Codes(recs[i])
  {
    var init := recs[..|recs| - 1];
    var r := recs[|recs| - 1];
    if (t, row) in CodeRowsOf(init) {
      CodeRowsOfMeaning(init, t, row);
      var i :| 0 <= i < |init| && row.aarecordId == init[i].id && row.code in Codes(init[i]);
      assert recs[i] == init[i];
    } else {
      var rows := CodeRows(r).value;
      var k :| 0 <= k < |rows| && rows[k] == (t, row);
      assert row.code == Codes(r)[k];
    }
  }

  // ---------------------------------------------------------------------------
  // Cross-reference rows

  /** A record raises in the cross-reference branch exactly when it is an `md5:`
      record whose hash is not hex, or an `oclc`/`edsebk` record with one to nine
      isbn13s whose id has no value or a value Python's `int()` rejects. */
  lemma RecordCrossRefsFails(r: Aarecord)
    ensures RecordCrossRefs(r).Err? <==>
      (Prefix(r.id) == "md5" && StartsWith(r.id, "md5:") && !IsLowerHex(r.id[4..])) ||
      ((Prefix(r.id) == "oclc" || Prefix(r.id) == "edsebk") && 0 < |Isbn13s(r)| < 10 &&
       (SplitOnce(r.id, ":").1.None? || ParseInt(SplitOnce(r.id, ":").1.value).None?))
  {
    var split := SplitOnce(r.id, ":");
    if split.0 == "md5" {
      assert RecordCrossRefs(r).Err? <==> Md5Column(r.id).Err?;
    } else if split.0 == "oclc" || split.0 == "edsebk" {
      assert RecordCrossRefs(r).Err? <==> IsbnRows(Isbn13s(r), split.1).Err?;
    } else {
      assert RecordCrossRefs(r).Ok?;
    }
  }

  /** The `aarecords_all_md5` row of the record a driver builds for a hash
      holds that hash, decoded back from the id, and the record's compressed
      search-only fields. */
  lemma Md5RecordAllMd5Row(r: Aarecord, md5: seq<bv8>)
    requires |md5| == 16 && r.id == Md5Id(md5)
    ensures RecordCrossRefs(r).Ok?
    ensures RecordCrossRefs(r).value.allMd5 == [AllMd5Row(Some(md5), r.searchOnlyCompressed)]
  {
    Md5IdCanonical(md5, md5);
    assert StartsWith(r.id, "md5:") && r.id[4..] == HexOf(md5);
    FromHexOfHex(md5);
  }

  /** `int()` strips whitespace: an `oclc`/`edsebk` id ` 7` listing one
      isbn13 gives the row of that isbn13 with id 7. */
  lemma SpacedSourceIdIsRead(isbn13: string)
    ensures IsbnRows([isbn13], Some(" 7")) == Ok([IsbnRow(isbn13, 7)])
  {
    ParseIntStripsSpace();
    var rows := IsbnRows([isbn13], Some(" 7"));
    assert rows.Ok? && |rows.value| == 1 && rows.value[0] == IsbnRow(isbn13, 7);
    assert rows.value == [IsbnRow(isbn13, 7)];
  }

  /** So the record `oclc: 7` listing one isbn13 writes `(isbn13, 7)` to
      `isbn13_oclc`. */
  lemma SpacedOclcIdIsRead(r: Aarecord, isbn13: string)
    requires r.id == "oclc: 7" && r.identifiers == [("isbn13", [isbn13])]
    ensures RecordCrossRefs(r) == Ok(NoCrossRefs.(isbn13Oclc := [IsbnRow(isbn13, 7)]))
  {
    assert FirstIndexOf(r.id, ":") == Some(4) by {
      assert StartsWith(r.id[4..], ":");
      assert r.id[0] != ':' && r.id[1] != ':' && r.id[2] != ':' && r.id[3] != ':';
      assert forall j :: 0 <= j < 4 ==> !StartsWith(r.id[j..], ":");
    }
    assert r.id[..4] == "oclc" && r.id[5..] == " 7";
    assert SplitOnce(r.id, ":") == ("oclc", Some(" 7"));
    assert Isbn13s(r) == [isbn13];
    SpacedSourceIdIsRead(isbn13);
  }

  /** A record listing ten or more isbn13s adds no isbn13 rows, and only an
      `md5` record can then raise. */
  lemma ExcessiveIsbnListsDropped(r: Aarecord)
    requires |Isbn13s(r)| >= 10
    ensures RecordCrossRefs(r).Ok? || Prefix(r.id) == "md5"
    ensures RecordCrossRefs(r).Ok? ==> RecordCrossRefs(r).value.isbn13Oclc == [] && RecordCrossRefs(r).value.isbn13Edsebk == []
  {
  }

  function IsbnTable(c: CrossRefs, tag: string): seq<Row> {
    if tag == "oclc" then c.isbn13Oclc else c.isbn13Edsebk
  }

  /** Every `isbn13_oclc` (`isbn13_edsebk`) row is an isbn13 of an `oclc`
      (`edsebk`) record that lists fewer than ten, with that record's numeric id. */
  lemma {:induction false} CollectIsbnRows(recs: seq<Aarecord>, env: Env, tag: string)
    requires tag == "oclc" || tag == "edsebk"
    requires Collect(recs, env).Ok?
    ensures forall k :: 0 <= k < |IsbnTable(Collect(recs, env).value.refs, tag)| ==>
      IsbnFromShortList(recs, tag, IsbnTable(Collect(recs, env).value.refs, tag)[k])
  {
    if |recs| > 0 {
      var init := recs[..|recs| - 1];
      var r := recs[|recs| - 1];
      CollectIsbnRows(init, env, tag);
      CollectLast(recs, env);
      var acc := Collect(init, env).value;
      var refs := RecordCrossRefs(r).value;
      assert IsbnTable(Collect(recs, env).value.refs, tag) == IsbnTable(acc.refs, tag) + IsbnTable(refs, tag);
      IsbnRowsAppend(init, recs, tag, IsbnTable(acc.refs, tag), IsbnTable(refs, tag));
    }
  }

  /** The rows drawn from the earlier records, then those of the last record,
      are all drawn from short lists of the records. */
  lemma IsbnRowsAppend(init: seq<Aarecord>, recs: seq<Aarecord>, tag: string, a: seq<Row>, b: seq<Row>)
    requires (tag == "oclc" || tag == "edsebk") && |recs| > 0 && init == recs[..|recs| - 1]
    requires forall k :: 0 <= k < |a| ==> IsbnFromShortList(init, tag, a[k])
    requires RecordCrossRefs(recs[|recs| - 1]).Ok? && b == IsbnTable(RecordCrossRefs(recs[|recs| - 1]).value, tag)
    ensures forall k :: 0 <= k < |a + b| ==> IsbnFromShortList(recs, tag, (a + b)[k])
  {
    EarlierIsbnRowsStay(init, recs, tag, a);
    IsbnRowOfRecord(recs, |recs| - 1, tag);
    assert forall k :: 0 <= k < |a + b| ==> (a + b)[k] == if k < |a| then a[k] else b[k - |a|];
  }

  lemma EarlierIsbnRowsStay(init: seq<Aarecord>, recs: seq<Aarecord>, tag: string, a: seq<Row>)
    requires |init| <= |recs| && init == recs[..|init|]
    requires forall k :: 0 <= k < |a| ==> IsbnFromShortList(init, tag, a[k])
    ensures forall k :: 0 <= k < |a| ==> IsbnFromShortList(recs, tag, a[k])
  {
    forall k | 0 <= k < |a| ensures IsbnFromShortList(recs, tag, a[k]) {
      IsbnFromShortListGrows(init, recs, tag, a[k]);
    }
  }

  ghost predicate IsbnFromShortList(recs: seq<Aarecord>, tag: string, row: Row) {
    exists i :: 0 <= i < |recs| && IsbnRowFrom(recs[i], tag, row)
  }

  /** `row` pairs one of the isbn13s `r` lists, fewer than ten, with the
      integer value of `r`'s `tag:` id. */
  ghost predicate IsbnRowFrom(r: Aarecord, tag: string, row: Row) {
    Prefix(r.id) == tag && |Isbn13s(r)| < 10 && row.IsbnRow? && row.isbn13 in Isbn13s(r) &&
    SplitOnce(r.id, ":").1.Some? && ParseInt(SplitOnce(r.id, ":").1.value) == Some(row.sourceId)
  }

  lemma IsbnFromShortListGrows(init: seq<Aarecord>, recs: seq<Aarecord>, tag: string, row: Row)
    requires |init| <= |recs| && init == recs[..|init|] && IsbnFromShortList(init, tag, row)
    ensures IsbnFromShortList(recs, tag, row)
  {
    var i :| 0 <= i < |init| && IsbnRowFrom(init[i], tag, row);
    assert recs[i] == init[i];
  }

  /** A record's isbn13 rows for `tag`, when there are any: the record has
      that prefix, lists one to nine isbn13s and has an integer id, and the
      rows pair each isbn13 with that id. */
  lemma IsbnTableOfRecord(r: Aarecord, tag: string)
    requires (tag == "oclc" || tag == "edsebk") && RecordCrossRefs(r).Ok?
    ensures var b := IsbnTable(RecordCrossRefs(r).value, tag); var split := SplitOnce(r.id, ":");
      |b| > 0 ==>
        Prefix(r.id) == tag && 0 < |Isbn13s(r)| < 10 && split.1.Some? && ParseInt(split.1.value).Some? &&
        |b| == |Isbn13s(r)| &&
        forall k :: 0 <= k < |b| ==> b[k] == IsbnRow(Isbn13s(r)[k], ParseInt(split.1.value).value)
  {
    var split := SplitOnce(r.id, ":");
    if split.0 == "md5" {
      assert IsbnTable(RecordCrossRefs(r).value, tag) == [];
    } else if split.0 == "oclc" || split.0 == "edsebk" {
      var b := IsbnTable(RecordCrossRefs(r).value, tag);
      if |b| > 0 {
        assert split.0 == tag;
        assert b == IsbnRows(Isbn13s(r), split.1).value;
      }
    } else {
      assert IsbnTable(RecordCrossRefs(r).value, tag) == [];
    }
  }

  lemma IsbnRowOfRecord(recs: seq<Aarecord>, i: nat, tag: string)
    requires i < |recs| && (tag == "oclc" || tag == "edsebk") && RecordCrossRefs(recs[i]).Ok?
    ensures var b := IsbnTable(RecordCrossRefs(recs[i]).value, tag);
      forall k :: 0 <= k < |b| ==> IsbnFromShortList(recs, tag, b[k])
  {
    var r := recs[i];
    var b := IsbnTable(RecordCrossRefs(r).value, tag);
    IsbnTableOfRecord(r, tag);
    forall k | 0 <= k < |b| ensures IsbnFromShortList(recs, tag, b[k]) {
      assert b[k].isbn13 == Isbn13s(r)[k];
      assert IsbnRowFrom(recs[i], tag, b[k]);
    }
  }

  // ---------------------------------------------------------------------------
  // The bulk write with retries

  /** One `elasticsearch.helpers.bulk` call. */
  datatype BulkCall = BulkCall(attempt: nat, handle: string, ops: seq<EsOp>)

  predicate AttemptSucceeds(groups: seq<(string, seq<EsOp>)>, bulkOk: (nat, string) -> bool, attempt: nat) {
    forall i :: 0 <= i < |groups| ==> bulkOk(attempt, groups[i].0)
  }

  /** One attempt: a bulk call per handle in order, stopping at the first that
      raises. */
  function BulkAttempt(groups: seq<(string, seq<EsOp>)>, bulkOk: (nat, string) -> bool, attempt: nat): (r: (seq<BulkCall>, bool)) {
    if |groups| == 0 then ([], true)
    else
      var prev := BulkAttempt(groups[..|groups| - 1], bulkOk, attempt);
      var last := groups[|groups| - 1];
      if !prev.1 then prev
      else (prev.0 + [BulkCall(attempt, last.0, last.1)], bulkOk(attempt, last.0))
  }

  /** An attempt succeeds exactly when every handle's call does; it calls the
      handles in order, every one on success, and up to the first failing one
      otherwise. */
  lemma {:induction false} BulkAttemptFacts(groups: seq<(string, seq<EsOp>)>, bulkOk: (nat, string) -> bool, attempt: nat)
    ensures BulkAttempt(groups, bulkOk, attempt).1 <==> AttemptSucceeds(groups, bulkOk, attempt)
    ensures |BulkAttempt(groups, bulkOk, attempt).0| <= |groups|
    ensures forall i :: 0 <= i < |BulkAttempt(groups, bulkOk, attempt).0| ==>
      BulkAttempt(groups, bulkOk, attempt).0[i] == BulkCall(attempt, groups[i].0, groups[i].1)
    ensures BulkAttempt(groups, bulkOk, attempt).1 ==> |BulkAttempt(groups, bulkOk, attempt).0| == |groups|
    ensures !BulkAttempt(groups, bulkOk, attempt).1 ==>
      var n := |BulkAttempt(groups, bulkOk, attempt).0|;
      0 < n && !bulkOk(attempt, groups[n - 1].0) && forall i :: 0 <= i < n - 1 ==> bulkOk(attempt, groups[i].0)
  {
    if |groups| > 0 {
      var init := groups[..|groups| - 1];
      BulkAttemptFacts(init, bulkOk, attempt);
      assert forall i :: 0 <= i < |init| ==> init[i] == groups[i];
    }
  }

  /** The first attempt, then a retry, then one more. */
  function BulkRun(groups: seq<(string, seq<EsOp>)>, bulkOk: (nat, string) -> bool): (seq<BulkCall>, bool) {
    var first := BulkAttempt(groups, bulkOk, 1);
    if first.1 then first
    else
      var second := BulkAttempt(groups, bulkOk, 2);
      if second.1 then (first.0 + second.0, true)
      else
        var third := BulkAttempt(groups, bulkOk, 3);
        (first.0 + second.0 + third.0, third.1)
  }

  /** The whole succeeds exactly when one of the three attempts does. */
  lemma BulkRunSucceeds(groups: seq<(string, seq<EsOp>)>, bulkOk: (nat, string) -> bool)
    ensures BulkRun(groups, bulkOk).1 <==> exists a :: 1 <= a <= 3 && AttemptSucceeds(groups, bulkOk, a)
  {
    BulkAttemptFacts(groups, bulkOk, 1);
    BulkAttemptFacts(groups, bulkOk, 2);
    BulkAttemptFacts(groups, bulkOk, 3);
  }

  /** Every call is of attempts 1 to 3, and of a later attempt only when every
      earlier attempt failed. */
  ghost predicate RetriedOnlyAfterFailure(calls: seq<BulkCall>, groups: seq<(string, seq<EsOp>)>, bulkOk: (nat, string) -> bool) {
    forall i :: 0 <= i < |calls| ==> (1 <= calls[i].attempt <= 3 &&
      (calls[i].attempt >= 2 ==> !AttemptSucceeds(groups, bulkOk, 1)) &&
      (calls[i].attempt >= 3 ==> !AttemptSucceeds(groups, bulkOk, 2)))
  }

  lemma RetriedConcat(c: seq<BulkCall>, groups: seq<(string, seq<EsOp>)>, bulkOk: (nat, string) -> bool, b: nat)
    requires RetriedOnlyAfterFailure(c, groups, bulkOk) && 1 <= b <= 3
    requires b >= 2 ==> !AttemptSucceeds(groups, bulkOk, 1)
    requires b >= 3 ==> !AttemptSucceeds(groups, bulkOk, 2)
    ensures RetriedOnlyAfterFailure(c + BulkAttempt(groups, bulkOk, b).0, groups, bulkOk)
  {
    BulkAttemptFacts(groups, bulkOk, b);
    var d := BulkAttempt(groups, bulkOk, b).0;
    forall i | |c| <= i < |c + d| ensures (c + d)[i].attempt == b {
      assert (c + d)[i] == d[i - |c|];
    }
  }

  /** At most three attempts, and a later one only after every earlier one failed. */
  lemma BulkRunAttempts(groups: seq<(string, seq<EsOp>)>, bulkOk: (nat, string) -> bool)
    ensures RetriedOnlyAfterFailure(BulkRun(groups, bulkOk).0, groups, bulkOk)
  {
    var first := BulkAttempt(groups, bulkOk, 1);
    var second := BulkAttempt(groups, bulkOk, 2);
    RetriedConcat([], groups, bulkOk, 1);
    assert [] + first.0 == first.0;
    if !first.1 {
      BulkAttemptFacts(groups, bulkOk, 1);
      RetriedConcat(first.0, groups, bulkOk, 2);
      if !second.1 {
        BulkAttemptFacts(groups, bulkOk, 2);
        RetriedConcat(first.0 + second.0, groups, bulkOk, 3);
      }
    }
  }

  /** On success the successful attempt's calls come last and send every group. */
  lemma BulkRunSendsAll(groups: seq<(string, seq<EsOp>)>, bulkOk: (nat, string) -> bool)
    requires BulkRun(groups, bulkOk).1
    ensures var calls := BulkRun(groups, bulkOk).0;
      |groups| <= |calls| && forall i :: 0 <= i < |groups| ==>
        calls[|calls| - |groups| + i].handle == groups[i].0 && calls[|calls| - |groups| + i].ops == groups[i].1
  {
    var first := BulkAttempt(groups, bulkOk, 1);
    var second := BulkAttempt(groups, bulkOk, 2);
    if first.1 {
      SuccessfulAttemptLast([], groups, bulkOk, 1);
      assert [] + first.0 == first.0;
    } else if second.1 {
      SuccessfulAttemptLast(first.0, groups, bulkOk, 2);
    } else {
      SuccessfulAttemptLast(first.0 + second.0, groups, bulkOk, 3);
    }
  }

  lemma SuccessfulAttemptLast(before: seq<BulkCall>, groups: seq<(string, seq<EsOp>)>,
                              bulkOk: (nat, string) -> bool, attempt: nat)
    requires BulkAttempt(groups, bulkOk, attempt).1
    ensures |before + BulkAttempt(groups, bulkOk, attempt).0| == |before| + |groups|
    ensures forall i :: 0 <= i < |groups| ==>
      (before + BulkAttempt(groups, bulkOk, attempt).0)[|before| + i].handle == groups[i].0 &&
      (before + BulkAttempt(groups, bulkOk, attempt).0)[|before| + i].ops == groups[i].1
  {
    BulkAttemptFacts(groups, bulkOk, attempt);
  }

  // ---------------------------------------------------------------------------
  // The inserts

  function NonEmptyInsert(table: string, rows: seq<Row>): seq<Write> {
    if |rows| > 0 then [Insert(table, rows)] else []
  }

  /** The five side-table inserts, each only when it has rows, in order. */
  function CrossRefWrites(c: CrossRefs): seq<Write> {
    NonEmptyInsert("aarecords_all_md5", c.allMd5) + NonEmptyInsert("isbn13_oclc", c.isbn13Oclc) +
    NonEmptyInsert("isbn13_edsebk", c.isbn13Edsebk) + NonEmptyInsert("nexusstc_cid_only", c.nexusstcCidOnly) +
    NonEmptyInsert("temp_md5_with_doi_seen", c.md5WithDoiSeen)
  }

  /** The UTF-8 code and id fit the codes table's columns. */
  predicate Fits(e: CodeEntry, env: Env) {
    Utf8Length(e.code) <= env.codeLengthLimit && Utf8Length(e.aarecordId) <= env.idLengthLimit
  }

  predicate AllFit(entries: seq<CodeEntry>, env: Env) {
    forall k :: 0 <= k < |entries| ==> Fits(entries[k], env)
  }

  /** Per codes table in order: check every row's lengths, raising at the first
      too long, else insert. Returns whether it raised and what it inserted. */
  function CodesWrites(groups: seq<(string, seq<CodeEntry>)>, env: Env): (bool, seq<Write>) {
    if |groups| == 0 then (false, [])
    else
      var prev := CodesWrites(groups[..|groups| - 1], env);
      var last := groups[|groups| - 1];
      if prev.0 || |last.1| == 0 then prev
      else if AllFit(last.1, env) then (false, prev.1 + [InsertCodes(last.0, last.1)])
      else (true, prev.1)
  }

  /** The codes inserts are the non-empty groups in order, each with every row
      fitting, up to the first group with a row too long; the job raises exactly
      when there is one. */
  lemma {:induction false} CodesWritesFacts(groups: seq<(string, seq<CodeEntry>)>, env: Env)
    ensures CodesWrites(groups, env).0 <==> exists i, k :: 0 <= i < |groups| && 0 <= k < |groups[i].1| && !Fits(groups[i].1[k], env)
    ensures forall w :: w in CodesWrites(groups, env).1 ==>
      w.InsertCodes? && AllFit(w.entries, env) && (w.table, w.entries) in groups
  {
    if |groups| > 0 {
      var init := groups[..|groups| - 1];
      CodesWritesFacts(init, env);
      assert forall i :: 0 <= i < |init| ==> init[i] == groups[i];
      if CodesWrites(init, env).0 {
        var i, k :| 0 <= i < |init| && 0 <= k < |init[i].1| && !Fits(init[i].1[k], env);
        assert groups[i] == init[i];
      }
    }
  }

  // ---------------------------------------------------------------------------
  // The job

  /** `elastic_build_aarecords_job`: `failed` is its return value. */
  function RunJob(ids: seq<string>, env: Env): JobOutcome {
    var isbns := Stripped(ids, "isbn");
    var dois := Stripped(ids, "doi");
    var doiQuery := if |dois| > 0 then Some(dois) else None;
    match env.isbndbDicts(isbns)
    case None => JobOutcome(true, Effects(isbns, None, None, [], []))
    case Some(dicts) =>
      var kept := Kept(ids, BadIsbn13Ids(dicts), DoiCodesWithMd5(dois, env.doiSeen), env.denylist);
      if |kept| == 0 then JobOutcome(false, Effects(isbns, doiQuery, None, [], []))
      else Resolve(Effects(isbns, doiQuery, Some(kept), [], []), env)
  }

  /** The job from the resolver call on, `base` holding the effects so far. */
  function Resolve(base: Effects, env: Env): JobOutcome
    requires base.resolved.Some?
  {
    match env.aarecords(base.resolved.value)
    case None => JobOutcome(true, base)
    case Some(recs) =>
      match Collect(recs, env)
      case Err(_) => JobOutcome(true, base)
      case Ok(data) => Finish(base, data, env)
  }

  /** The job from the bulk sends on. */
  function Finish(base: Effects, data: InsertData, env: Env): JobOutcome {
    var bulk := BulkRun(data.esOps, env.bulkOk);
    if !bulk.1 then JobOutcome(true, base.(bulkCalls := bulk.0, writes := []))
    else
      var codes := CodesWrites(data.codes, env);
      JobOutcome(codes.0, base.(bulkCalls := bulk.0, writes := CrossRefWrites(data.refs) + codes.1))
  }

  /** Once the resolver is called, the rest of the job is `Resolve`. */
  lemma RunJobResolves(ids: seq<string>, env: Env)
    requires RunJob(ids, env).effects.resolved.Some?
    ensures RunJob(ids, env) == Resolve(RunJob(ids, env).effects.(bulkCalls := [], writes := []), env)
  {
  }

  /** Once the records are collected, the rest of the job is `Finish`. */
  lemma ResolveFinishes(base: Effects, env: Env, recs: seq<Aarecord>)
    requires base.resolved.Some? && env.aarecords(base.resolved.value) == Some(recs) && Collect(recs, env).Ok?
    ensures Resolve(base, env) == Finish(base, Collect(recs, env).value, env)
  {
  }

  /** The filters run before anything else: the resolver, if called, sees only
      ids of the chunk that none of the three filters holds back. */
  lemma JobFiltersBeforeResolving(ids: seq<string>, env: Env)
    ensures var e := RunJob(ids, env).effects;
      e.resolved.Some? ==>
        env.isbndbDicts(Stripped(ids, "isbn")).Some? &&
        forall x :: x in e.resolved.value ==>
          x in ids && x !in env.denylist &&
          x !in BadIsbn13Ids(env.isbndbDicts(Stripped(ids, "isbn")).value) &&
          x !in DoiCodesWithMd5(Stripped(ids, "doi"), env.doiSeen)
  {
    match env.isbndbDicts(Stripped(ids, "isbn"))
    case None =>
    case Some(dicts) =>
      KeptMembers(ids, BadIsbn13Ids(dicts), DoiCodesWithMd5(Stripped(ids, "doi"), env.doiSeen), env.denylist);
  }

  /** A `doi:` id already seen with a file is one of the ids held back. */
  lemma SeenDoiIsHeldBack(ids: seq<string>, d: string, seen: set<string>)
    requires AarecordId("doi", d) in ids && d in seen
    ensures AarecordId("doi", d) in DoiCodesWithMd5(Stripped(ids, "doi"), seen)
  {
    StrippedMembers(ids, "doi");
  }

  /** No id of a chunk made only of held-back ids survives the filters. */
  lemma {:induction false} KeptNone(ids: seq<string>, bad: set<string>, seen: set<string>, denylist: set<string>)
    requires forall i :: 0 <= i < |ids| ==> Filtered(ids[i], bad, seen, denylist)
    ensures Kept(ids, bad, seen, denylist) == []
  {
    if |ids| > 0 {
      KeptNone(ids[..|ids| - 1], bad, seen, denylist);
    }
  }

  /** A chunk of which no id survives the filters succeeds without resolving,
      sending or writing anything. */
  lemma JobOfHeldBackChunk(ids: seq<string>, env: Env, dicts: seq<IsbndbDict>)
    requires env.isbndbDicts(Stripped(ids, "isbn")) == Some(dicts)
    requires Kept(ids, BadIsbn13Ids(dicts), DoiCodesWithMd5(Stripped(ids, "doi"), env.doiSeen), env.denylist) == []
    ensures !RunJob(ids, env).failed
    ensures RunJob(ids, env).effects.resolved.None?
    ensures RunJob(ids, env).effects.bulkCalls == [] && RunJob(ids, env).effects.writes == []
  {
  }

  /** The bulk helper is retried only after a failed attempt, at most three
      attempts, and failure of the third leaves the job failed with nothing
      written. */
  lemma FinishBulkRetries(base: Effects, data: InsertData, env: Env)
    ensures RetriedOnlyAfterFailure(Finish(base, data, env).effects.bulkCalls, data.esOps, env.bulkOk)
    ensures (forall a :: 1 <= a <= 3 ==> !AttemptSucceeds(data.esOps, env.bulkOk, a)) ==>
      Finish(base, data, env).failed && Finish(base, data, env).effects.writes == []
  {
    BulkRunAttempts(data.esOps, env.bulkOk);
    BulkRunSucceeds(data.esOps, env.bulkOk);
  }

  /** The same for the whole job, once it has collected the resolved records. */
  lemma JobBulkRetries(ids: seq<string>, env: Env, recs: seq<Aarecord>)
    requires RunJob(ids, env).effects.resolved.Some?
    requires env.aarecords(RunJob(ids, env).effects.resolved.value) == Some(recs) && Collect(recs, env).Ok?
    ensures var esOps := Collect(recs, env).value.esOps;
      RetriedOnlyAfterFailure(RunJob(ids, env).effects.bulkCalls, esOps, env.bulkOk) &&
      ((forall a :: 1 <= a <= 3 ==> !AttemptSucceeds(esOps, env.bulkOk, a)) ==>
        RunJob(ids, env).failed && RunJob(ids, env).effects.writes == [])
  {
    var base := RunJob(ids, env).effects.(bulkCalls := [], writes := []);
    RunJobResolves(ids, env);
    ResolveFinishes(base, env, recs);
    FinishBulkRetries(base, Collect(recs, env).value, env);
  }

  function CallGroups(calls: seq<BulkCall>): (r: seq<(string, seq<EsOp>)>)
    ensures |r| == |calls| && forall i :: 0 <= i < |calls| ==> r[i] == (calls[i].handle, calls[i].ops)
  {
    if |calls| == 0 then [] else [(calls[0].handle, calls[0].ops)] + CallGroups(calls[1..])
  }

  /** A job that gets past the bulk sends made, in its last attempt, one call
      per group of `data`, in order. */
  lemma FinishSendsAll(base: Effects, data: InsertData, env: Env)
    requires !Finish(base, data, env).failed
    ensures |data.esOps| <= |Finish(base, data, env).effects.bulkCalls|
    ensures LastCalls(Finish(base, data, env).effects.bulkCalls, |data.esOps|) == data.esOps
  {
    BulkRunSendsAll(data.esOps, env.bulkOk);
    var calls := Finish(base, data, env).effects.bulkCalls;
    assert LastCalls(calls, |data.esOps|) == data.esOps;
  }

  /** The last `n` calls, as (handle, operations) groups. */
  function LastCalls(calls: seq<BulkCall>, n: nat): seq<(string, seq<EsOp>)>
    requires n <= |calls|
  {
    CallGroups(calls[|calls| - n..])
  }

  /** When the job succeeds after resolving, its last bulk attempt sent, in
      order, one call per group the collection step built. */
  lemma JobLastAttempt(ids: seq<string>, env: Env, recs: seq<Aarecord>)
    requires !RunJob(ids, env).failed && RunJob(ids, env).effects.resolved.Some?
    requires env.aarecords(RunJob(ids, env).effects.resolved.value) == Some(recs)
    ensures Collect(recs, env).Ok?
    ensures |Collect(recs, env).value.esOps| <= |RunJob(ids, env).effects.bulkCalls|
    ensures LastCalls(RunJob(ids, env).effects.bulkCalls, |Collect(recs, env).value.esOps|) == Collect(recs, env).value.esOps
  {
    var base := RunJob(ids, env).effects.(bulkCalls := [], writes := []);
    RunJobResolves(ids, env);
    assert Collect(recs, env).Ok?;
    ResolveFinishes(base, env, recs);
    var data := Collect(recs, env).value;
    assert RunJob(ids, env) == Finish(base, data, env);
    FinishSendsAll(base, data, env);
  }

  /** When the job succeeds after resolving, its last bulk attempt sent exactly
      the index operations the resolved records ask for: one per (record, target
      index), named `{index}__{virtshard}` (`OpsOfMeaning`) and sent to that
      index's handle. */
  lemma JobSendsEveryOperation(ids: seq<string>, env: Env, recs: seq<Aarecord>)
    requires !RunJob(ids, env).failed && RunJob(ids, env).effects.resolved.Some?
    requires env.aarecords(RunJob(ids, env).effects.resolved.value) == Some(recs)
    ensures Collect(recs, env).Ok?
    ensures |Collect(recs, env).value.esOps| <= |RunJob(ids, env).effects.bulkCalls|
    ensures Pairs(LastCalls(RunJob(ids, env).effects.bulkCalls, |Collect(recs, env).value.esOps|)) == OpsOf(recs, env)
    ensures GroupSizes(LastCalls(RunJob(ids, env).effects.bulkCalls, |Collect(recs, env).value.esOps|)) == IndexCount(recs)
  {
    JobLastAttempt(ids, env, recs);
    CollectEsOps(recs, env);
  }

  /** Every code row a job inserts sits in a group of `data.codes` for the
      same table, and fits the table's columns. */
  lemma FinishCodesChecked(base: Effects, data: InsertData, env: Env)
    ensures forall w :: w in Finish(base, data, env).effects.writes && w.InsertCodes? ==>
      (w.table, w.entries) in data.codes && AllFit(w.entries, env)
  {
    CodesWritesFacts(data.codes, env);
    if BulkRun(data.esOps, env.bulkOk).1 {
      forall w | w in CrossRefWrites(data.refs) + CodesWrites(data.codes, env).1 && w.InsertCodes?
        ensures w in CodesWrites(data.codes, env).1
      {
      }
    }
  }

  /** Every code row the job inserts goes to the codes table of its record's
      id prefix, and fits the table's columns. */
  lemma JobCodesRoutedAndChecked(ids: seq<string>, env: Env, recs: seq<Aarecord>)
    requires RunJob(ids, env).effects.resolved.Some?
    requires env.aarecords(RunJob(ids, env).effects.resolved.value) == Some(recs)
    ensures forall w, k :: w in RunJob(ids, env).effects.writes && w.InsertCodes? && 0 <= k < |w.entries| ==>
      RoutedTo(w.entries[k], w.table) && Fits(w.entries[k], env)
  {
    RunJobResolves(ids, env);
    if Collect(recs, env).Ok? {
      var base := RunJob(ids, env).effects.(bulkCalls := [], writes := []);
      var data := Collect(recs, env).value;
      ResolveFinishes(base, env, recs);
      FinishCodesChecked(base, data, env);
      CollectCodes(recs, env);
      forall w, k | w in Finish(base, data, env).effects.writes && w.InsertCodes? && 0 <= k < |w.entries|
        ensures RoutedTo(w.entries[k], w.table) && Fits(w.entries[k], env)
      {
        var i :| 0 <= i < |data.codes| && data.codes[i] == (w.table, w.entries);
        PairsHas(data.codes, i, k);
        CodeRowsOfMeaning(recs, w.table, w.entries[k]);
      }
    }
  }

  lemma {:induction false} PairsHas<K, V>(groups: seq<(K, seq<V>)>, i: nat, k: nat)
    requires i < |groups| && k < |groups[i].1|
    ensures (groups[i].0, groups[i].1[k]) in Pairs(groups)
  {
    if i > 0 {
      PairsHas(groups[1..], i - 1, k);
    }
  }

  // ---------------------------------------------------------------------------
  // The job as the program runs it

  /** The loop over the resolved records, stopping at the first exception. */
  method CollectInsertData(recs: seq<Aarecord>, env: Env) returns (r: Result<InsertData, JobError>)
    ensures r == Collect(recs, env)
  {
    var acc := NoInsertData;
    for i := 0 to |recs|
      invariant Collect(recs[..i], env) == Ok(acc)
    {
      assert recs[..i + 1][..i] == recs[..i];
      var step := RecordStep(acc, recs[i], env);
      if step.Err? {
        CollectErrorStays(recs, env, i + 1);
        return step;
      }
      acc := step.value;
    }
    assert recs[..|recs|] == recs;
    r := Ok(acc);
  }

  lemma {:induction false} BulkAttemptFailureStays(groups: seq<(string, seq<EsOp>)>, bulkOk: (nat, string) -> bool, attempt: nat, i: nat)
    requires i <= |groups| && !BulkAttempt(groups[..i], bulkOk, attempt).1
    ensures BulkAttempt(groups, bulkOk, attempt) == BulkAttempt(groups[..i], bulkOk, attempt)
    decreases |groups| - i
  {
    if i < |groups| {
      assert groups[..i + 1][..i] == groups[..i];
      BulkAttemptFailureStays(groups, bulkOk, attempt, i + 1);
    } else {
      assert groups[..i] == groups;
    }
  }

  /** One attempt: `for es_handle, operations in …: bulk(…)`. */
  method BulkAttemptCalls(groups: seq<(string, seq<EsOp>)>, bulkOk: (nat, string) -> bool, attempt: nat)
    returns (calls: seq<BulkCall>, ok: bool)
    ensures (calls, ok) == BulkAttempt(groups, bulkOk, attempt)
  {
    calls := [];
    for i := 0 to |groups|
      invariant BulkAttempt(groups[..i], bulkOk, attempt) == (calls, true)
    {
      assert groups[..i + 1][..i] == groups[..i];
      calls := calls + [BulkCall(attempt, groups[i].0, groups[i].1)];
      if !bulkOk(attempt, groups[i].0) {
        BulkAttemptFailureStays(groups, bulkOk, attempt, i + 1);
        return calls, false;
      }
    }
    assert groups[..|groups|] == groups;
    ok := true;
  }

  lemma {:induction false} CodesWritesFailureStays(groups: seq<(string, seq<CodeEntry>)>, env: Env, i: nat)
    requires i <= |groups| && CodesWrites(groups[..i], env).0
    ensures CodesWrites(groups, env) == CodesWrites(groups[..i], env)
    decreases |groups| - i
  {
    if i < |groups| {
      assert groups[..i + 1][..i] == groups[..i];
      CodesWritesFailureStays(groups, env, i + 1);
    } else {
      assert groups[..i] == groups;
    }
  }

  /** The per-codes-table length checks and inserts. */
  method WriteCodesTables(groups: seq<(string, seq<CodeEntry>)>, env: Env) returns (failed: bool, writes: seq<Write>)
    ensures (failed, writes) == CodesWrites(groups, env)
  {
    writes := [];
    for i := 0 to |groups|
      invariant CodesWrites(groups[..i], env) == (false, writes)
    {
      assert groups[..i + 1][..i] == groups[..i];
      var entries := groups[i].1;
      if |entries| > 0 {
        for k := 0 to |entries|
          invariant forall j :: 0 <= j < k ==> Fits(entries[j], env)
        {
          if Utf8Length(entries[k].code) > env.codeLengthLimit || Utf8Length(entries[k].aarecordId) > env.idLengthLimit {
            CodesWritesFailureStays(groups, env, i + 1);
            return true, writes;
          }
        }
        writes := writes + [InsertCodes(groups[i].0, entries)];
      }
    }
    assert groups[..|groups|] == groups;
    failed := false;
  }

  /** `elastic_build_aarecords_job`. */
  method ElasticBuildAarecordsJob(ids: seq<string>, env: Env) returns (failed: bool, effects: Effects)
    ensures JobOutcome(failed, effects) == RunJob(ids, env)
  {
    var isbns := Stripped(ids, "isbn");
    var dicts := env.isbndbDicts(isbns);
    if dicts.None? {
      return true, Effects(isbns, None, None, [], []);
    }
    var bad := BadIsbn13Ids(dicts.value);
    var dois := Stripped(ids, "doi");
    var doiCodesWithMd5: set<string> := {};
    var doiQuery: Option<seq<string>> := None;
    if |dois| > 0 {
      doiQuery := Some(dois);
      doiCodesWithMd5 := DoiCodesWithMd5(dois, env.doiSeen);
    }
    assert doiCodesWithMd5 == DoiCodesWithMd5(dois, env.doiSeen);
    var kept := Kept(ids, bad, doiCodesWithMd5, env.denylist);
    if |kept| == 0 {
      return false, Effects(isbns, doiQuery, None, [], []);
    }
    var recs := env.aarecords(kept);
    if recs.None? {
      return true, Effects(isbns, doiQuery, Some(kept), [], []);
    }
    var data := CollectInsertData(recs.value, env);
    if data.Err? {
      return true, Effects(isbns, doiQuery, Some(kept), [], []);
    }
    var esOps := data.value.esOps;
    var calls, ok := BulkAttemptCalls(esOps, env.bulkOk, 1);
    if !ok {
      var retry, ok2 := BulkAttemptCalls(esOps, env.bulkOk, 2);
      calls := calls + retry;
      if !ok2 {
        var last, ok3 := BulkAttemptCalls(esOps, env.bulkOk, 3);
        calls := calls + last;
        if !ok3 {
          return true, Effects(isbns, doiQuery, Some(kept), calls, []);
        }
      }
    }
    var writes := CrossRefWrites(data.value.refs);
    var codesFailed, codeWrites := WriteCodesTables(data.value.codes, env);
    return codesFailed, Effects(isbns, doiQuery, Some(kept), calls, writes + codeWrites);
  }
}
