/** Keyset pagination over a table read in key order, and the driver loop
    that hands each page to the job pool (allthethings/cli/views.py,
    `query_yield_batches` and the `while True` loops of the
    `elastic_build_aarecords_*_internal` commands).

    A table is the sequence of its rows in `ORDER BY key` order; the query
    `WHERE key > cursor ORDER BY key LIMIT n` is `Fetch`. */
module Paging {
  import opened Wrappers
  import opened Lex

  /** Whether a row passes `WHERE key > cursor`; no cursor means no `WHERE`. */
  predicate Beyond<R>(key: R -> string, cursor: Option<string>, r: R) {
    cursor.None? || LexLess(cursor.value, key(r))
  }

  /** The rows that pass the `WHERE`, in table order. */
  function Above<R>(rows: seq<R>, key: R -> string, cursor: Option<string>): seq<R> {
    if |rows| == 0 then []
    else (if Beyond(key, cursor, rows[0]) then [rows[0]] else []) + Above(rows[1..], key, cursor)
  }

  /** The number of leading rows that fail the `WHERE`. */
  function Skip<R>(rows: seq<R>, key: R -> string, cursor: Option<string>): (n: nat)
    ensures n <= |rows|
  {
    if |rows| == 0 || Beyond(key, cursor, rows[0]) then 0 else 1 + Skip(rows[1..], key, cursor)
  }

  /** `… WHERE key > cursor ORDER BY key LIMIT limit`. */
  function Fetch<R>(rows: seq<R>, key: R -> string, cursor: Option<string>, limit: nat): seq<R> {
    var a := Above(rows, key, cursor);
    a[..if limit < |a| then limit else |a|]
  }

  lemma {:induction false} AboveMembers<R>(rows: seq<R>, key: R -> string, cursor: Option<string>)
    ensures forall x :: x in Above(rows, key, cursor) ==> x in rows && Beyond(key, cursor, x)
  {
    if |rows| > 0 {
      AboveMembers(rows[1..], key, cursor);
    }
  }

  lemma {:induction false} SkipFacts<R>(rows: seq<R>, key: R -> string, cursor: Option<string>)
    ensures forall k :: 0 <= k < Skip(rows, key, cursor) ==> !Beyond(key, cursor, rows[k])
    ensures Skip(rows, key, cursor) < |rows| ==> Beyond(key, cursor, rows[Skip(rows, key, cursor)])
  {
    if |rows| > 0 && !Beyond(key, cursor, rows[0]) {
      SkipFacts(rows[1..], key, cursor);
      forall k | 1 <= k < Skip(rows, key, cursor) ensures !Beyond(key, cursor, rows[k]) {
        assert rows[k] == rows[1..][k - 1];
      }
    }
  }

  /** In a sorted table, once a row passes `key > cursor` every later row does. */
  lemma BeyondPersists<R>(rows: seq<R>, key: R -> string, cursor: Option<string>, i: nat, j: nat)
    requires SortedBy(rows, key)
    requires i <= j < |rows| && Beyond(key, cursor, rows[i])
    ensures Beyond(key, cursor, rows[j])
  {
    if cursor.Some? && i < j && key(rows[i]) != key(rows[j]) {
      LexTransitive(cursor.value, key(rows[i]), key(rows[j]));
    }
  }

  lemma {:induction false} AboveAll<R>(rows: seq<R>, key: R -> string, cursor: Option<string>)
    requires forall k :: 0 <= k < |rows| ==> Beyond(key, cursor, rows[k])
    ensures Above(rows, key, cursor) == rows
  {
    if |rows| > 0 {
      assert Beyond(key, cursor, rows[0]);
      forall k | 0 <= k < |rows[1..]| ensures Beyond(key, cursor, rows[1..][k]) {
        assert rows[1..][k] == rows[k + 1];
      }
      AboveAll(rows[1..], key, cursor);
      assert rows == [rows[0]] + rows[1..];
    }
  }

  /** In a sorted table the rows past the cursor are a suffix: the table
      from its first row past the cursor on. */
  lemma {:induction false} AboveIsSuffix<R>(rows: seq<R>, key: R -> string, cursor: Option<string>)
    requires SortedBy(rows, key)
    ensures Above(rows, key, cursor) == rows[Skip(rows, key, cursor)..]
  {
    if |rows| > 0 {
      if Beyond(key, cursor, rows[0]) {
        forall k | 0 <= k < |rows| ensures Beyond(key, cursor, rows[k]) {
          BeyondPersists(rows, key, cursor, 0, k);
        }
        AboveAll(rows, key, cursor);
      } else {
        assert SortedBy(rows[1..], key) by {
          forall i, j | 0 <= i < j < |rows[1..]|
            ensures LexLe(key(rows[1..][i]), key(rows[1..][j]))
          {
            assert rows[1..][i] == rows[i + 1] && rows[1..][j] == rows[j + 1];
          }
        }
        AboveIsSuffix(rows[1..], key, cursor);
        assert rows[1..][Skip(rows[1..], key, cursor)..] == rows[Skip(rows, key, cursor)..];
      }
    }
  }

  /** A row that fails the `WHERE` in a sorted table lies before the first row
      that passes it. */
  lemma SkipPastFailing<R>(rows: seq<R>, key: R -> string, cursor: Option<string>, j: nat)
    requires SortedBy(rows, key)
    requires j < |rows| && !Beyond(key, cursor, rows[j])
    ensures j < Skip(rows, key, cursor)
  {
    SkipFacts(rows, key, cursor);
    if Skip(rows, key, cursor) <= j {
      BeyondPersists(rows, key, cursor, Skip(rows, key, cursor), j);
    }
  }

  /** A page, as a slice of the table. */
  lemma FetchSlice<R>(rows: seq<R>, key: R -> string, cursor: Option<string>, limit: nat)
    requires SortedBy(rows, key)
    ensures var s := Skip(rows, key, cursor);
      s + |Fetch(rows, key, cursor, limit)| <= |rows| &&
      Fetch(rows, key, cursor, limit) == rows[s..s + |Fetch(rows, key, cursor, limit)|]
  {
    AboveIsSuffix(rows, key, cursor);
  }

  /** Moving the cursor to the last key of a non-empty page skips at least that page. */
  lemma NextCursorAdvances<R>(rows: seq<R>, key: R -> string, cursor: Option<string>, limit: nat)
    requires SortedBy(rows, key)
    requires |Fetch(rows, key, cursor, limit)| > 0
    ensures var b := Fetch(rows, key, cursor, limit);
      Skip(rows, key, cursor) + |b| <= Skip(rows, key, Some(key(b[|b| - 1])))
  {
    var b := Fetch(rows, key, cursor, limit);
    var s := Skip(rows, key, cursor);
    FetchSlice(rows, key, cursor, limit);
    assert b[|b| - 1] == rows[s + |b| - 1];
    LexIrreflexive(key(b[|b| - 1]));
    SkipPastFailing(rows, key, Some(key(b[|b| - 1])), s + |b| - 1);
  }

  /** The pages `query_yield_batches` yields from `cursor` on: each next page
      starts after the last key of the page before, and paging stops at the
      first empty page. */
  function Batches<R>(rows: seq<R>, key: R -> string, cursor: Option<string>, limit: nat): seq<seq<R>>
    requires SortedBy(rows, key)
    decreases |rows| - Skip(rows, key, cursor)
  {
    var b := Fetch(rows, key, cursor, limit);
    if |b| == 0 then []
    else
      NextCursorAdvances(rows, key, cursor, limit);
      [b] + Batches(rows, key, Some(key(b[|b| - 1])), limit)
  }

  /** `query_yield_batches(conn, qry, pk_attr, maxrq)`: starts with no cursor,
      yields each non-empty page and moves the cursor to its last key. */
  method QueryYieldBatches<R>(rows: seq<R>, key: R -> string, maxrq: nat) returns (batches: seq<seq<R>>)
    requires SortedBy(rows, key)
    ensures batches == Batches(rows, key, None, maxrq)
  {
    batches := [];
    var firstid: Option<string> := None;
    while true
      invariant batches + Batches(rows, key, firstid, maxrq) == Batches(rows, key, None, maxrq)
      decreases |rows| - Skip(rows, key, firstid)
    {
      var batch := Fetch(rows, key, firstid, maxrq);
      if |batch| == 0 {
        break;
      }
      NextCursorAdvances(rows, key, firstid, maxrq);
      var next := Some(key(batch[|batch| - 1]));
      assert Batches(rows, key, firstid, maxrq) == [batch] + Batches(rows, key, next, maxrq);
      assert batches + [batch] + Batches(rows, key, next, maxrq) == batches + Batches(rows, key, firstid, maxrq);
      batches := batches + [batch];
      firstid := next;
    }
    assert batches + [] == batches;
  }

  /** One step of the paging: an empty page ends it, a non-empty one is
      followed by the pages after its last key. */
  lemma BatchesUnfold<R>(rows: seq<R>, key: R -> string, cursor: Option<string>, limit: nat)
    requires SortedBy(rows, key)
    ensures |Fetch(rows, key, cursor, limit)| == 0 ==> Batches(rows, key, cursor, limit) == []
    ensures |Fetch(rows, key, cursor, limit)| > 0 ==>
      var b := Fetch(rows, key, cursor, limit);
      Skip(rows, key, cursor) < Skip(rows, key, Some(key(b[|b| - 1]))) &&
      Batches(rows, key, cursor, limit) == [b] + Batches(rows, key, Some(key(b[|b| - 1])), limit)
  {
    if |Fetch(rows, key, cursor, limit)| > 0 {
      NextCursorAdvances(rows, key, cursor, limit);
    }
  }

  /** Every page is non-empty and at most `limit` rows long. */
  lemma {:induction false} BatchesSizes<R>(rows: seq<R>, key: R -> string, cursor: Option<string>, limit: nat)
    requires SortedBy(rows, key)
    ensures forall i :: 0 <= i < |Batches(rows, key, cursor, limit)| ==>
      0 < |Batches(rows, key, cursor, limit)[i]| <= limit
    decreases |rows| - Skip(rows, key, cursor)
  {
    BatchesUnfold(rows, key, cursor, limit);
    var b := Fetch(rows, key, cursor, limit);
    if |b| > 0 {
      var next := Some(key(b[|b| - 1]));
      BatchesSizes(rows, key, next, limit);
      var bs := Batches(rows, key, cursor, limit);
      var rest := Batches(rows, key, next, limit);
      assert forall i :: 0 < i < |bs| ==> bs[i] == rest[i - 1];
    }
  }

  /** A row past the last key of a row past the cursor is itself past the cursor. */
  lemma BeyondChain<R>(key: R -> string, cursor: Option<string>, last: R, x: R)
    requires Beyond(key, cursor, last) && Beyond(key, Some(key(last)), x)
    ensures Beyond(key, cursor, x)
  {
    if cursor.Some? {
      LexTransitive(cursor.value, key(last), key(x));
    }
  }

  /** Every row of every page is a row of the table past the starting cursor. */
  lemma {:induction false} BatchesBeyond<R>(rows: seq<R>, key: R -> string, cursor: Option<string>, limit: nat)
    requires SortedBy(rows, key)
    ensures forall i, k :: 0 <= i < |Batches(rows, key, cursor, limit)| && 0 <= k < |Batches(rows, key, cursor, limit)[i]| ==>
      Batches(rows, key, cursor, limit)[i][k] in rows && Beyond(key, cursor, Batches(rows, key, cursor, limit)[i][k])
    decreases |rows| - Skip(rows, key, cursor)
  {
    BatchesUnfold(rows, key, cursor, limit);
    var b := Fetch(rows, key, cursor, limit);
    if |b| > 0 {
      var next := Some(key(b[|b| - 1]));
      BatchesBeyond(rows, key, next, limit);
      AboveMembers(rows, key, cursor);
      ConsBeyond(rows, key, cursor, b, Batches(rows, key, next, limit));
    }
  }

  lemma ConsBeyond<R>(rows: seq<R>, key: R -> string, cursor: Option<string>, b: seq<R>, rest: seq<seq<R>>)
    requires |b| > 0
    requires forall x :: x in b ==> x in rows && Beyond(key, cursor, x)
    requires forall i, k :: 0 <= i < |rest| && 0 <= k < |rest[i]| ==>
      rest[i][k] in rows && Beyond(key, Some(key(b[|b| - 1])), rest[i][k])
    ensures forall i, k :: 0 <= i < |[b] + rest| && 0 <= k < |([b] + rest)[i]| ==>
      ([b] + rest)[i][k] in rows && Beyond(key, cursor, ([b] + rest)[i][k])
  {
    var bs := [b] + rest;
    var last := b[|b| - 1];
    assert last in b;
    forall i, k | 0 <= i < |bs| && 0 <= k < |bs[i]| ensures bs[i][k] in rows && Beyond(key, cursor, bs[i][k]) {
      if i == 0 {
        assert bs[i][k] in b;
      } else {
        assert bs[i] == rest[i - 1];
        BeyondChain(key, cursor, last, bs[i][k]);
      }
    }
  }

  /** The last key of a page. */
  function LastKey<R>(b: seq<R>, key: R -> string): string
    requires |b| > 0
  {
    key(b[|b| - 1])
  }

  /** Every key of a page is strictly greater than the last key of the page before. */
  lemma {:induction false} BatchesKeyset<R>(rows: seq<R>, key: R -> string, cursor: Option<string>, limit: nat)
    requires SortedBy(rows, key)
    ensures forall i :: 0 <= i < |Batches(rows, key, cursor, limit)| ==>
      0 < |Batches(rows, key, cursor, limit)[i]| <= limit
    ensures forall i, k :: 0 < i < |Batches(rows, key, cursor, limit)| && 0 <= k < |Batches(rows, key, cursor, limit)[i]| ==>
      LexLess(LastKey(Batches(rows, key, cursor, limit)[i - 1], key), key(Batches(rows, key, cursor, limit)[i][k]))
    decreases |rows| - Skip(rows, key, cursor)
  {
    BatchesSizes(rows, key, cursor, limit);
    BatchesUnfold(rows, key, cursor, limit);
    var b := Fetch(rows, key, cursor, limit);
    if |b| > 0 {
      var next := Some(key(b[|b| - 1]));
      BatchesKeyset(rows, key, next, limit);
      BatchesBeyond(rows, key, next, limit);
      ConsKeyset(key, b, Batches(rows, key, next, limit));
    }
  }

  lemma ConsKeyset<R>(key: R -> string, b: seq<R>, rest: seq<seq<R>>)
    requires |b| > 0
    requires forall i :: 0 <= i < |rest| ==> |rest[i]| > 0
    requires forall i, k :: 0 <= i < |rest| && 0 <= k < |rest[i]| ==> Beyond(key, Some(LastKey(b, key)), rest[i][k])
    requires forall i, k :: 0 < i < |rest| && 0 <= k < |rest[i]| ==> LexLess(LastKey(rest[i - 1], key), key(rest[i][k]))
    ensures forall i, k :: 0 < i < |[b] + rest| && 0 <= k < |([b] + rest)[i]| ==>
      LexLess(LastKey(([b] + rest)[i - 1], key), key(([b] + rest)[i][k]))
  {
    var bs := [b] + rest;
    forall i, k | 0 < i < |bs| && 0 <= k < |bs[i]| ensures LexLess(LastKey(bs[i - 1], key), key(bs[i][k])) {
      assert bs[i] == rest[i - 1];
      if i > 1 {
        assert bs[i - 1] == rest[i - 2];
      }
    }
  }

  /** Paging stops at the first empty page: the query after the last page
      (or the first query, when there is no page) comes back empty. */
  lemma {:induction false} BatchesStop<R>(rows: seq<R>, key: R -> string, cursor: Option<string>, limit: nat)
    requires SortedBy(rows, key)
    ensures |Batches(rows, key, cursor, limit)| == 0 ==> Fetch(rows, key, cursor, limit) == []
    ensures forall i :: 0 <= i < |Batches(rows, key, cursor, limit)| ==> |Batches(rows, key, cursor, limit)[i]| > 0
    ensures |Batches(rows, key, cursor, limit)| > 0 ==>
      var bs := Batches(rows, key, cursor, limit);
      Fetch(rows, key, Some(LastKey(bs[|bs| - 1], key)), limit) == []
    decreases |rows| - Skip(rows, key, cursor)
  {
    BatchesSizes(rows, key, cursor, limit);
    BatchesUnfold(rows, key, cursor, limit);
    var b := Fetch(rows, key, cursor, limit);
    if |b| > 0 {
      var next := Some(key(b[|b| - 1]));
      BatchesStop(rows, key, next, limit);
      var bs := Batches(rows, key, cursor, limit);
      var rest := Batches(rows, key, next, limit);
      if |rest| > 0 {
        assert bs[|bs| - 1] == rest[|rest| - 1];
      }
    }
  }

  /** A page size of zero fetches nothing, so paging yields nothing. */
  lemma NoPagesWithoutLimit<R>(rows: seq<R>, key: R -> string, cursor: Option<string>)
    requires SortedBy(rows, key)
    ensures Batches(rows, key, cursor, 0) == []
  {
  }

  function Flatten<T>(ss: seq<seq<T>>): seq<T> {
    if |ss| == 0 then [] else ss[0] + Flatten(ss[1..])
  }

  lemma StrictlySortedIsSorted<R>(rows: seq<R>, key: R -> string)
    requires StrictlySortedBy(rows, key)
    ensures SortedBy(rows, key)
  {
  }

  /** On a unique key, the cursor after a page is exactly where the page ends. */
  lemma NextCursorExact<R>(rows: seq<R>, key: R -> string, cursor: Option<string>, limit: nat)
    requires StrictlySortedBy(rows, key)
    requires |Fetch(rows, key, cursor, limit)| > 0
    ensures var b := Fetch(rows, key, cursor, limit);
      Skip(rows, key, Some(key(b[|b| - 1]))) == Skip(rows, key, cursor) + |b|
  {
    var b := Fetch(rows, key, cursor, limit);
    var s := Skip(rows, key, cursor);
    var next := Some(key(b[|b| - 1]));
    NextCursorAdvances(rows, key, cursor, limit);
    FetchSlice(rows, key, cursor, limit);
    assert b[|b| - 1] == rows[s + |b| - 1];
    SkipFacts(rows, key, next);
    if s + |b| < |rows| {
      assert Beyond(key, next, rows[s + |b|]);
    }
  }

  /** On a unique key, the rows past the cursor are the page followed by the
      rows past the page's last key. */
  lemma PageSplit<R>(rows: seq<R>, key: R -> string, cursor: Option<string>, limit: nat)
    requires StrictlySortedBy(rows, key)
    requires |Fetch(rows, key, cursor, limit)| > 0
    ensures var b := Fetch(rows, key, cursor, limit);
      Above(rows, key, cursor) == b + Above(rows, key, Some(key(b[|b| - 1])))
  {
    var b := Fetch(rows, key, cursor, limit);
    var next := Some(key(b[|b| - 1]));
    var s := Skip(rows, key, cursor);
    StrictlySortedIsSorted(rows, key);
    NextCursorExact(rows, key, cursor, limit);
    assert Skip(rows, key, next) == s + |b|;
    AboveIsSuffix(rows, key, cursor);
    assert Above(rows, key, cursor) == rows[s..];
    AboveIsSuffix(rows, key, next);
    assert Above(rows, key, next) == rows[s + |b|..];
    FetchSlice(rows, key, cursor, limit);
    assert b == rows[s..s + |b|];
    SuffixSplit(rows, s, |b|);
  }

  lemma SuffixSplit<R>(rows: seq<R>, s: nat, m: nat)
    requires s + m <= |rows|
    ensures rows[s..] == rows[s..s + m] + rows[s + m..]
  {
  }

  lemma FetchEmpty<R>(rows: seq<R>, key: R -> string, cursor: Option<string>, limit: nat)
    requires limit > 0 && |Fetch(rows, key, cursor, limit)| == 0
    ensures Above(rows, key, cursor) == []
  {
  }

  lemma FlattenCons<T>(b: seq<T>, rest: seq<seq<T>>)
    ensures Flatten([b] + rest) == b + Flatten(rest)
  {
    assert ([b] + rest)[1..] == rest;
  }

  /** On a unique key with a positive page size, the pages concatenate to
      every row past the starting cursor, in key order: paging loses and
      repeats nothing. */
  lemma {:induction false} BatchesCoverAll<R>(rows: seq<R>, key: R -> string, cursor: Option<string>, limit: nat)
    requires StrictlySortedBy(rows, key) && limit > 0
    ensures Flatten(Batches(rows, key, cursor, limit)) == Above(rows, key, cursor)
    decreases |rows| - Skip(rows, key, cursor)
  {
    StrictlySortedIsSorted(rows, key);
    BatchesUnfold(rows, key, cursor, limit);
    var b := Fetch(rows, key, cursor, limit);
    if |b| == 0 {
      FetchEmpty(rows, key, cursor, limit);
    } else {
      var next := Some(key(b[|b| - 1]));
      BatchesCoverAll(rows, key, next, limit);
      PageSplit(rows, key, cursor, limit);
      FlattenCons(b, Batches(rows, key, next, limit));
    }
  }

  /** Paging the whole table (no starting cursor) on a unique key reads every row once, in order. */
  lemma QueryYieldBatchesReadsTable<R>(rows: seq<R>, key: R -> string, maxrq: nat)
    requires StrictlySortedBy(rows, key) && maxrq > 0
    ensures Flatten(Batches(rows, key, None, maxrq)) == rows
  {
    BatchesCoverAll(rows, key, None, maxrq);
    AboveAll(rows, key, None);
  }

  /** On a non-unique key the cursor skips the rest of a run of equal keys
      that a page boundary splits: two rows with one key and pages of one row
      yield only the first row. */
  lemma TiesAtPageBoundaryAreSkipped()
    ensures Batches(["a", "a"], (x: string) => x, None, 1) == [["a"]]
  {
    var key := (x: string) => x;
    var rows := ["a", "a"];
    assert SortedBy(rows, key);
    assert Fetch(rows, key, None, 1) == ["a"];
    LexIrreflexive("a");
    assert Above(rows, key, Some("a")) == [];
  }

  /** `ichunked(ids, n)`: consecutive runs of `n` ids, the last one shorter. */
  function Chunks<T>(s: seq<T>, n: nat): (r: seq<seq<T>>)
    requires n > 0
    ensures forall i :: 0 <= i < |r| ==> 0 < |r[i]| <= n
    ensures Flatten(r) == s
    decreases |s|
  {
    if |s| == 0 then []
    else if |s| <= n then
      assert Flatten([s]) == s + [];
      [s]
    else
      var rest := Chunks(s[n..], n);
      assert ([s[..n]] + rest)[1..] == rest;
      assert s == s[..n] + s[n..];
      [s[..n]] + rest
  }

  /** `any(last_map.get())`: some job of the map reported an error. */
  predicate AnyFailed(chunks: seq<seq<string>>, job: seq<string> -> bool) {
    exists i :: 0 <= i < |chunks| && job(chunks[i])
  }

  /** What a driver run leaves behind: whether it quit on an error, and the
      chunks it handed to the pool, in order. */
  datatype DriverOutcome = DriverOutcome(aborted: bool, submitted: seq<seq<string>>)

  /** The ids of each page, as the driver builds them for the jobs. */
  function IdBatches<R>(bs: seq<seq<R>>, toIds: seq<R> -> seq<string>): (r: seq<seq<string>>)
    ensures |r| == |bs|
    ensures forall i :: 0 <= i < |bs| ==> r[i] == toIds(bs[i])
  {
    if |bs| == 0 then [] else [toIds(bs[0])] + IdBatches(bs[1..], toIds)
  }

  /** The driver run over pages of ids: each page is split into chunks and
      mapped; a page one of whose chunks fails stops the run before any later
      page is handed over. */
  function Drive(pages: seq<seq<string>>, chunkSize: nat, job: seq<string> -> bool): DriverOutcome
    requires chunkSize > 0
  {
    if |pages| == 0 then DriverOutcome(false, [])
    else
      var cs := Chunks(pages[0], chunkSize);
      if AnyFailed(cs, job) then DriverOutcome(true, cs)
      else
        var rest := Drive(pages[1..], chunkSize, job);
        DriverOutcome(rest.aborted, cs + rest.submitted)
  }

  /** The chunks of the first `n` pages. */
  function ChunksUpTo(pages: seq<seq<string>>, n: nat, chunkSize: nat): seq<seq<string>>
    requires n <= |pages| && chunkSize > 0
  {
    if n == 0 then [] else ChunksUpTo(pages, n - 1, chunkSize) + Chunks(pages[n - 1], chunkSize)
  }

  /** The first page one of whose chunks fails. */
  function FirstFailingPage(pages: seq<seq<string>>, chunkSize: nat, job: seq<string> -> bool): (r: Option<nat>)
    requires chunkSize > 0
    ensures r.Some? ==> r.value < |pages| && AnyFailed(Chunks(pages[r.value], chunkSize), job)
    ensures forall i :: 0 <= i < |pages| && (r.None? || i < r.value) ==> !AnyFailed(Chunks(pages[i], chunkSize), job)
  {
    if |pages| == 0 then None
    else if AnyFailed(Chunks(pages[0], chunkSize), job) then Some(0)
    else
      match FirstFailingPage(pages[1..], chunkSize, job)
      case None =>
        assert forall i :: 1 <= i < |pages| ==> pages[i] == pages[1..][i - 1];
        None
      case Some(k) =>
        assert forall i :: 1 <= i < |pages| ==> pages[i] == pages[1..][i - 1];
        Some(k + 1)
  }

  lemma {:induction false} ChunksUpToShift(pages: seq<seq<string>>, n: nat, chunkSize: nat)
    requires 0 < n <= |pages| && chunkSize > 0
    ensures ChunksUpTo(pages, n, chunkSize) ==
      Chunks(pages[0], chunkSize) + ChunksUpTo(pages[1..], n - 1, chunkSize)
  {
    if n > 1 {
      ChunksUpToShift(pages, n - 1, chunkSize);
      assert pages[1..][n - 2] == pages[n - 1];
    }
  }

  /** A run ends on an error exactly when some chunk fails; it then has
      handed over the chunks of every page up to and including the first
      failing one and no more; otherwise it has handed over every page. */
  lemma DriveOutcome(pages: seq<seq<string>>, chunkSize: nat, job: seq<string> -> bool)
    requires chunkSize > 0
    ensures FirstFailingPage(pages, chunkSize, job).None? ==>
      Drive(pages, chunkSize, job) == DriverOutcome(false, ChunksUpTo(pages, |pages|, chunkSize))
    ensures FirstFailingPage(pages, chunkSize, job).Some? ==>
      Drive(pages, chunkSize, job) ==
      DriverOutcome(true, ChunksUpTo(pages, FirstFailingPage(pages, chunkSize, job).value + 1, chunkSize))
  {
    if FirstFailingPage(pages, chunkSize, job).None? {
      DriveWithoutFailure(pages, chunkSize, job);
    } else {
      DriveUpToFailure(pages, chunkSize, job);
    }
  }

  lemma {:induction false} DriveWithoutFailure(pages: seq<seq<string>>, chunkSize: nat, job: seq<string> -> bool)
    requires chunkSize > 0 && FirstFailingPage(pages, chunkSize, job).None?
    ensures Drive(pages, chunkSize, job) == DriverOutcome(false, ChunksUpTo(pages, |pages|, chunkSize))
  {
    if |pages| > 0 {
      var cs := Chunks(pages[0], chunkSize);
      assert !AnyFailed(cs, job);
      assert FirstFailingPage(pages[1..], chunkSize, job).None?;
      DriveWithoutFailure(pages[1..], chunkSize, job);
      ChunksUpToShift(pages, |pages|, chunkSize);
    }
  }

  lemma {:induction false} DriveUpToFailure(pages: seq<seq<string>>, chunkSize: nat, job: seq<string> -> bool)
    requires chunkSize > 0 && FirstFailingPage(pages, chunkSize, job).Some?
    ensures Drive(pages, chunkSize, job) ==
      DriverOutcome(true, ChunksUpTo(pages, FirstFailingPage(pages, chunkSize, job).value + 1, chunkSize))
  {
    var cs := Chunks(pages[0], chunkSize);
    if AnyFailed(cs, job) {
      assert ChunksUpTo(pages, 1, chunkSize) == [] + cs;
    } else {
      var k := FirstFailingPage(pages[1..], chunkSize, job).value;
      assert FirstFailingPage(pages, chunkSize, job) == Some(k + 1);
      DriveUpToFailure(pages[1..], chunkSize, job);
      ChunksUpToShift(pages, k + 2, chunkSize);
    }
  }

  /** A run ends on an error exactly when a job of some page reports one. */
  lemma DriveAbortsIff(pages: seq<seq<string>>, chunkSize: nat, job: seq<string> -> bool)
    requires chunkSize > 0
    ensures Drive(pages, chunkSize, job).aborted <==>
      exists i :: 0 <= i < |pages| && AnyFailed(Chunks(pages[i], chunkSize), job)
  {
    DriveOutcome(pages, chunkSize, job);
  }

  /** A run that ends without error hands every id of every page to the
      pool exactly once, in page order, in chunks of at most `chunkSize`. */
  lemma {:induction false} DriveSubmitsEverything(pages: seq<seq<string>>, chunkSize: nat, job: seq<string> -> bool)
    requires chunkSize > 0
    requires !Drive(pages, chunkSize, job).aborted
    ensures Flatten(Drive(pages, chunkSize, job).submitted) == Flatten(pages)
    ensures forall c :: c in Drive(pages, chunkSize, job).submitted ==> 0 < |c| <= chunkSize && !job(c)
  {
    if |pages| > 0 {
      var cs := Chunks(pages[0], chunkSize);
      var rest := Drive(pages[1..], chunkSize, job);
      DriveSubmitsEverything(pages[1..], chunkSize, job);
      FlattenAppend(cs, rest.submitted);
      forall c | c in cs ensures 0 < |c| <= chunkSize && !job(c) {
        var i :| 0 <= i < |cs| && cs[i] == c;
      }
    }
  }

  lemma {:induction false} FlattenAppend<T>(a: seq<seq<T>>, b: seq<seq<T>>)
    ensures Flatten(a + b) == Flatten(a) + Flatten(b)
  {
    if |a| == 0 {
      assert a + b == b;
    } else {
      assert a + b == [a[0]] + (a[1..] + b);
      assert a == [a[0]] + a[1..];
      FlattenCons(a[0], a[1..] + b);
      FlattenCons(a[0], a[1..]);
      FlattenAppend(a[1..], b);
    }
  }

  lemma AppendAssoc<T>(a: seq<T>, b: seq<T>, c: seq<T>)
    ensures a + (b + c) == (a + b) + c
  {
  }

  /** The driver run from `cursor` on. */
  function DriveFrom<R>(rows: seq<R>, key: R -> string, cursor: string, batchSize: nat,
                        toIds: seq<R> -> seq<string>, chunkSize: nat, job: seq<string> -> bool): DriverOutcome
    requires SortedBy(rows, key) && chunkSize > 0
  {
    Drive(IdBatches(Batches(rows, key, Some(cursor), batchSize), toIds), chunkSize, job)
  }

  /** One iteration of the driver loop, on the run it leaves to do. */
  lemma DriveFromStep<R>(rows: seq<R>, key: R -> string, cursor: string, batchSize: nat,
                         toIds: seq<R> -> seq<string>, chunkSize: nat, job: seq<string> -> bool)
    requires SortedBy(rows, key) && chunkSize > 0
    ensures |Fetch(rows, key, Some(cursor), batchSize)| == 0 ==>
      DriveFrom(rows, key, cursor, batchSize, toIds, chunkSize, job) == DriverOutcome(false, [])
    ensures |Fetch(rows, key, Some(cursor), batchSize)| > 0 ==>
      var b := Fetch(rows, key, Some(cursor), batchSize);
      var cs := Chunks(toIds(b), chunkSize);
      var rest := DriveFrom(rows, key, LastKey(b, key), batchSize, toIds, chunkSize, job);
      Skip(rows, key, Some(cursor)) < Skip(rows, key, Some(LastKey(b, key))) &&
      DriveFrom(rows, key, cursor, batchSize, toIds, chunkSize, job) ==
        if AnyFailed(cs, job) then DriverOutcome(true, cs) else DriverOutcome(rest.aborted, cs + rest.submitted)
  {
    BatchesUnfold(rows, key, Some(cursor), batchSize);
    var b := Fetch(rows, key, Some(cursor), batchSize);
    if |b| > 0 {
      var pages := IdBatches(Batches(rows, key, Some(cursor), batchSize), toIds);
      assert pages[1..] == IdBatches(Batches(rows, key, Some(LastKey(b, key)), batchSize), toIds);
    }
  }

  /** The loop invariant of `RunDriver` survives one iteration that fetches a non-empty page. */
  lemma DriverStepKeeps<R>(rows: seq<R>, key: R -> string, start: string, current: string, batchSize: nat,
                           toIds: seq<R> -> seq<string>, chunkSize: nat, job: seq<string> -> bool,
                           submitted: seq<seq<string>>)
    requires SortedBy(rows, key) && chunkSize > 0
    requires |Fetch(rows, key, Some(current), batchSize)| > 0
    requires var d := DriveFrom(rows, key, current, batchSize, toIds, chunkSize, job);
      DriveFrom(rows, key, start, batchSize, toIds, chunkSize, job) == DriverOutcome(d.aborted, submitted + d.submitted)
    ensures var b := Fetch(rows, key, Some(current), batchSize);
      var cs := Chunks(toIds(b), chunkSize);
      var d := DriveFrom(rows, key, LastKey(b, key), batchSize, toIds, chunkSize, job);
      Skip(rows, key, Some(current)) < Skip(rows, key, Some(LastKey(b, key))) &&
      (AnyFailed(cs, job) ==>
        DriveFrom(rows, key, start, batchSize, toIds, chunkSize, job) == DriverOutcome(true, submitted + cs)) &&
      (!AnyFailed(cs, job) ==>
        DriveFrom(rows, key, start, batchSize, toIds, chunkSize, job) == DriverOutcome(d.aborted, (submitted + cs) + d.submitted))
  {
    DriveFromStep(rows, key, current, batchSize, toIds, chunkSize, job);
    var b := Fetch(rows, key, Some(current), batchSize);
    var cs := Chunks(toIds(b), chunkSize);
    var d := DriveFrom(rows, key, LastKey(b, key), batchSize, toIds, chunkSize, job);
    AppendAssoc(submitted, cs, d.submitted);
  }

  /** One of the `elastic_build_aarecords_*_internal` paging loops: fetch the
      next page after `current`, quit if the previous page's jobs reported an
      error, stop on an empty page, otherwise map the job over the page's
      chunks and move `current` to the page's last key. */
  method RunDriver<R>(rows: seq<R>, key: R -> string, start: string, batchSize: nat,
                      toIds: seq<R> -> seq<string>, chunkSize: nat, job: seq<string> -> bool)
    returns (aborted: bool, submitted: seq<seq<string>>)
    requires SortedBy(rows, key)
    requires chunkSize > 0
    ensures DriverOutcome(aborted, submitted) == DriveFrom(rows, key, start, batchSize, toIds, chunkSize, job)
  {
    var current := start;
    var lastFailed := false;  // `last_map` is `None` before the first page, and `any([])` is false
    submitted := [];
    while true
      invariant !lastFailed ==>
        DriveFrom(rows, key, start, batchSize, toIds, chunkSize, job) ==
        DriverOutcome(DriveFrom(rows, key, current, batchSize, toIds, chunkSize, job).aborted,
                      submitted + DriveFrom(rows, key, current, batchSize, toIds, chunkSize, job).submitted)
      invariant lastFailed ==> DriveFrom(rows, key, start, batchSize, toIds, chunkSize, job) == DriverOutcome(true, submitted)
      decreases |rows| - Skip(rows, key, Some(current))
    {
      var batch := Fetch(rows, key, Some(current), batchSize);
      if lastFailed {
        return true, submitted;
      }
      if |batch| == 0 {
        DriveFromStep(rows, key, current, batchSize, toIds, chunkSize, job);
        assert submitted + [] == submitted;
        return false, submitted;
      }
      DriverStepKeeps(rows, key, start, current, batchSize, toIds, chunkSize, job, submitted);
      var chunks := Chunks(toIds(batch), chunkSize);
      submitted := submitted + chunks;
      lastFailed := AnyFailed(chunks, job);
      current := LastKey(batch, key);
    }
  }

  /** The drivers start from the cursor `''`, so a row whose key is the empty
      string is never fetched. */
  lemma EmptyKeyNeverFetched<R>(rows: seq<R>, key: R -> string, batchSize: nat, i: nat, k: nat)
    requires SortedBy(rows, key)
    requires i < |Batches(rows, key, Some(""), batchSize)| && k < |Batches(rows, key, Some(""), batchSize)[i]|
    ensures key(Batches(rows, key, Some(""), batchSize)[i][k]) != ""
  {
    BatchesBeyond(rows, key, Some(""), batchSize);
    EmptyIsLeast(key(Batches(rows, key, Some(""), batchSize)[i][k]));
  }
}
