/** `mysql_build_aarecords_codes_numbers_internal` (allthethings/cli/views.py):
    the union of the per-source codes tables, numbered by the window functions
    `ROW_NUMBER` and `DENSE_RANK` over `code`, both over the whole table and
    within the partition of each id prefix; the slow-import sanity check; and
    the drop-then-rename swap into `aarecords_codes`. */
module CodesNumbers {
  import opened Wrappers
  import opened Lex
  import opened Text
  import Job

  type CodeEntry = Job.CodeEntry

  /** `SUBSTRING_INDEX(aarecord_id, ":", 1)`: the partition key. */
  function IdPrefix(e: CodeEntry): string {
    FirstField(e.aarecordId, ":")
  }

  /** Rows in ascending `code` order (the binary collation), ties allowed. */
  predicate SortedByCode(s: seq<CodeEntry>) {
    forall i, j :: 0 <= i < j < |s| ==> LexLe(s[i].code, s[j].code)
  }

  // ---------------------------------------------------------------------------
  // ORDER BY code

  /** Puts `x` in front of the first row whose code is not smaller. */
  function InsertByCode(x: CodeEntry, s: seq<CodeEntry>): seq<CodeEntry> {
    if s == [] then [x]
    else if LexLe(x.code, s[0].code) then [x] + s
    else [s[0]] + InsertByCode(x, s[1..])
  }

  /** The engine's `ORDER BY code`. Among equal codes the model keeps the
      input order. */
  function SortByCode(s: seq<CodeEntry>): seq<CodeEntry> {
    if s == [] then [] else InsertByCode(s[0], SortByCode(s[1..]))
  }

  lemma {:induction false} InsertByCodePermutes(x: CodeEntry, s: seq<CodeEntry>)
    ensures multiset(InsertByCode(x, s)) == multiset(s) + multiset{x}
  {
    if s != [] && !LexLe(x.code, s[0].code) {
      InsertByCodePermutes(x, s[1..]);
      assert s == [s[0]] + s[1..];
    }
  }

  /** A row in front of sorted rows whose codes are all at least its own. */
  lemma SortedCons(h: CodeEntry, t: seq<CodeEntry>)
    requires SortedByCode(t)
    requires forall k :: 0 <= k < |t| ==> LexLe(h.code, t[k].code)
    ensures SortedByCode([h] + t)
  {
    var r := [h] + t;
    forall i, j | 0 <= i < j < |r| ensures LexLe(r[i].code, r[j].code) {
      if i == 0 {
        assert r[j] == t[j - 1];
      } else {
        assert r[i] == t[i - 1] && r[j] == t[j - 1];
      }
    }
  }

  lemma {:induction false} InsertByCodeSorted(x: CodeEntry, s: seq<CodeEntry>)
    requires SortedByCode(s)
    ensures SortedByCode(InsertByCode(x, s))
  {
    if s == [] {
    } else if LexLe(x.code, s[0].code) {
      forall k | 0 <= k < |s| ensures LexLe(x.code, s[k].code) {
        if k > 0 {
          LexLeTransitive(x.code, s[0].code, s[k].code);
        }
      }
      SortedCons(x, s);
    } else {
      var t := InsertByCode(x, s[1..]);
      assert InsertByCode(x, s) == [s[0]] + t;
      InsertByCodeSorted(x, s[1..]);
      InsertByCodePermutes(x, s[1..]);
      LexTotal(x.code, s[0].code);
      forall k | 0 <= k < |t| ensures LexLe(s[0].code, t[k].code) {
        assert t[k] in multiset(t);
        if t[k] != x {
          assert t[k] in multiset(s[1..]);
          var m :| 0 <= m < |s[1..]| && s[1..][m] == t[k];
          assert s[m + 1] == t[k];
        }
      }
      SortedCons(s[0], t);
    }
  }

  /** The sorted rows are the input rows, in `code` order. */
  lemma {:induction false} SortByCodeSortsAndPermutes(s: seq<CodeEntry>)
    ensures SortedByCode(SortByCode(s))
    ensures multiset(SortByCode(s)) == multiset(s)
  {
    if s != [] {
      SortByCodeSortsAndPermutes(s[1..]);
      InsertByCodeSorted(s[0], SortByCode(s[1..]));
      InsertByCodePermutes(s[0], SortByCode(s[1..]));
      assert s == [s[0]] + s[1..];
    }
  }

  /** Sorting rows already in `code` order leaves them where they are. */
  lemma {:induction false} SortByCodeOfSorted(s: seq<CodeEntry>)
    requires SortedByCode(s)
    ensures SortByCode(s) == s
  {
    if s != [] {
      assert SortedByCode(s[1..]);
      SortByCodeOfSorted(s[1..]);
      if |s| > 1 {
        assert LexLe(s[0].code, s[1..][0].code);
      }
      assert s == [s[0]] + s[1..];
    }
  }

  // ---------------------------------------------------------------------------
  // The window functions

  /** The distinct codes of some rows. */
  function CodeSet(s: seq<CodeEntry>): (r: set<string>)
    ensures forall c :: c in r <==> exists i :: 0 <= i < |s| && s[i].code == c
  {
    if s == [] then {}
    else
      var r0 := CodeSet(s[..|s| - 1]);
      assert forall i :: 0 <= i < |s| - 1 ==> s[..|s| - 1][i] == s[i];
      r0 + {s[|s| - 1].code}
  }

  /** The codes of `codes` that sort strictly before `c`. */
  function Below(codes: set<string>, c: string): set<string> {
    set d | d in codes && LexLess(d, c)
  }

  /** `DENSE_RANK() OVER (ORDER BY code)` of a row with code `c` among the
      rows `s`: one more than the number of distinct codes that sort before
      it. It does not depend on how ties are ordered. */
  function DenseRank(s: seq<CodeEntry>, c: string): nat {
    1 + |Below(CodeSet(s), c)|
  }

  /** The rows of one partition `PARTITION BY key`, in order. The lemmas
      about partitions hold for any partition key; the table uses
      `IdPrefix`. */
  function Part(s: seq<CodeEntry>, key: CodeEntry -> string, p: string): seq<CodeEntry> {
    if s == [] then []
    else Part(s[..|s| - 1], key, p) + (if key(s[|s| - 1]) == p then [s[|s| - 1]] else [])
  }

  /** A row of `aarecords_codes_new`. */
  datatype NumberedRow = NumberedRow(
    code: string,
    aarecordId: string,
    aarecordIdPrefix: string,
    rowNumber: nat,
    denseRank: nat,
    partRowNumber: nat,
    partDenseRank: nat)

  /** The numbered row for position `k` of the rows in `code` order: its
      `ROW_NUMBER` is its 1-based position, overall and among the rows of
      its partition before it; its `DENSE_RANK` is taken overall and within
      its partition. */
  function NumberAt(s: seq<CodeEntry>, k: nat): NumberedRow
    requires k < |s|
  {
    var p := IdPrefix(s[k]);
    NumberedRow(s[k].code, s[k].aarecordId, p,
                k + 1, DenseRank(s, s[k].code),
                |Part(s[..k + 1], IdPrefix, p)|, DenseRank(Part(s, IdPrefix, p), s[k].code))
  }

  /** The `SELECT … FROM (…) x` that fills `aarecords_codes_new`, over the rows
      already in `code` order. */
  function Number(s: seq<CodeEntry>): (r: seq<NumberedRow>)
    ensures |r| == |s|
    ensures forall k :: 0 <= k < |s| ==> r[k] == NumberAt(s, k)
  {
    seq(|s|, k requires 0 <= k < |s| => NumberAt(s, k))
  }

  /** The codes and ids of a numbered table, in its order. */
  function Entries(t: seq<NumberedRow>): (r: seq<CodeEntry>)
    ensures |r| == |t|
    ensures forall k :: 0 <= k < |t| ==> r[k] == Job.CodeEntry(t[k].code, t[k].aarecordId)
  {
    seq(|t|, k requires 0 <= k < |t| => Job.CodeEntry(t[k].code, t[k].aarecordId))
  }

  lemma EntriesOfNumber(s: seq<CodeEntry>)
    ensures Entries(Number(s)) == s
  {
  }

  // ---------------------------------------------------------------------------
  // What the numbers mean

  lemma {:induction false} CodeSetAtMostLength(s: seq<CodeEntry>)
    ensures |CodeSet(s)| <= |s|
  {
    if s != [] {
      CodeSetAtMostLength(s[..|s| - 1]);
      assert CodeSet(s) == CodeSet(s[..|s| - 1]) + {s[|s| - 1].code};
    }
  }

  /** In `code` order, a row's dense rank counts the distinct codes at or
      before its position. */
  lemma DenseRankCountsDistinct(s: seq<CodeEntry>, k: nat)
    requires SortedByCode(s) && k < |s|
    ensures DenseRank(s, s[k].code) == |CodeSet(s[..k + 1])|
  {
    var c := s[k].code;
    var upTo := CodeSet(s[..k + 1]);
    var below := Below(CodeSet(s), c);
    forall d | d in upTo ensures d in below || d == c {
      var i :| 0 <= i < k + 1 && s[..k + 1][i].code == d;
      assert s[i].code == d;
    }
    forall d | d in below ensures d in upTo {
      var i :| 0 <= i < |s| && s[i].code == d;
      LexIrreflexive(c);
      if i > k {
        assert LexLe(c, d);
        LexAsymmetric(d, c);
        assert false;
      }
      assert s[..k + 1][i] == s[i];
    }
    assert s[..k + 1][k] == s[k];
    LexIrreflexive(c);
    assert upTo == below + {c};
  }

  /** A dense rank never exceeds the row number. */
  lemma DenseRankAtMostRowNumber(s: seq<CodeEntry>, k: nat)
    requires SortedByCode(s) && k < |s|
    ensures Number(s)[k].denseRank <= Number(s)[k].rowNumber
  {
    DenseRankCountsDistinct(s, k);
    CodeSetAtMostLength(s[..k + 1]);
  }

  /** Dense ranks follow the codes: two rows share a rank exactly when they
      share a code, and a smaller code has a smaller rank. */
  lemma DenseRankFollowsCodes(s: seq<CodeEntry>, i: nat, j: nat)
    requires i < |s| && j < |s|
    ensures s[i].code == s[j].code <==> Number(s)[i].denseRank == Number(s)[j].denseRank
    ensures LexLess(s[i].code, s[j].code) <==> Number(s)[i].denseRank < Number(s)[j].denseRank
  {
    var a, b := s[i].code, s[j].code;
    var codes := CodeSet(s);
    assert a in codes && b in codes;
    LexTotal(a, b);
    if LexLess(a, b) {
      BelowGrows(codes, a, b);
    } else if LexLess(b, a) {
      BelowGrows(codes, b, a);
      LexAsymmetric(b, a);
    } else {
      LexIrreflexive(a);
    }
  }

  /** Strictly more codes sort before a larger code. */
  lemma BelowGrows(codes: set<string>, a: string, b: string)
    requires a in codes && LexLess(a, b)
    ensures |Below(codes, a)| < |Below(codes, b)|
  {
    forall d | d in Below(codes, a) ensures d in Below(codes, b) {
      LexTransitive(d, a, b);
    }
    LexIrreflexive(a);
    var extra := Below(codes, b) - Below(codes, a);
    assert a in extra;
    assert Below(codes, b) == Below(codes, a) + extra;
  }

  /** The first row in code order has dense rank 1. */
  lemma FirstDenseRankIsOne(s: seq<CodeEntry>)
    requires SortedByCode(s) && 0 < |s|
    ensures Number(s)[0].denseRank == 1
  {
    DenseRankCountsDistinct(s, 0);
    assert s[..1] == [s[0]];
    assert CodeSet(s[..1]) == {s[0].code};
  }

  /** One more row adds its code to the distinct codes. */
  lemma CodeSetSnoc(s: seq<CodeEntry>, n: nat)
    requires n < |s|
    ensures CodeSet(s[..n + 1]) == CodeSet(s[..n]) + {s[n].code}
  {
    assert s[..n + 1][..n] == s[..n];
  }

  /** In code order, a code that differs from the previous row's is new. */
  lemma ChangedCodeIsNew(s: seq<CodeEntry>, k: nat)
    requires SortedByCode(s) && k + 1 < |s| && s[k + 1].code != s[k].code
    ensures s[k + 1].code !in CodeSet(s[..k + 1])
  {
    var c := s[k + 1].code;
    if c in CodeSet(s[..k + 1]) {
      var i :| 0 <= i < k + 1 && s[..k + 1][i].code == c;
      assert s[i] == s[..k + 1][i];
      assert LexLe(c, s[k].code) && LexLe(s[k].code, c);
      LexAsymmetric(c, s[k].code);
      assert false;
    }
  }

  /** The ranks are dense: each next row's rank is the same as the one
      before when the code repeats, and one more when it changes. */
  lemma NextDenseRank(s: seq<CodeEntry>, k: nat)
    requires SortedByCode(s) && k + 1 < |s|
    ensures Number(s)[k + 1].denseRank == Number(s)[k].denseRank + (if s[k + 1].code == s[k].code then 0 else 1)
  {
    DenseRankCountsDistinct(s, k);
    DenseRankCountsDistinct(s, k + 1);
    CodeSetSnoc(s, k + 1);
    if s[k + 1].code != s[k].code {
      ChangedCodeIsNew(s, k);
    } else {
      CodeSetSnoc(s, k);
    }
  }

  // ---------------------------------------------------------------------------
  // Partitions

  lemma {:induction false} PartAppend(a: seq<CodeEntry>, b: seq<CodeEntry>, key: CodeEntry -> string, p: string)
    ensures Part(a + b, key, p) == Part(a, key, p) + Part(b, key, p)
  {
    if b == [] {
      assert a + b == a;
    } else {
      var init, last := b[..|b| - 1], b[|b| - 1];
      PartAppend(a, init, key, p);
      assert (a + b)[..|a + b| - 1] == a + init;
    }
  }

  lemma {:induction false} PartIsSubsequence(s: seq<CodeEntry>, key: CodeEntry -> string, p: string)
    ensures forall m :: 0 <= m < |Part(s, key, p)| ==>
      key(Part(s, key, p)[m]) == p &&
      exists i :: 0 <= i < |s| && s[i] == Part(s, key, p)[m]
  {
    if s != [] {
      var init := s[..|s| - 1];
      var q := Part(init, key, p);
      var tail := if key(s[|s| - 1]) == p then [s[|s| - 1]] else [];
      assert Part(s, key, p) == q + tail;
      PartIsSubsequence(init, key, p);
      forall m | 0 <= m < |q + tail|
        ensures key((q + tail)[m]) == p && exists i :: 0 <= i < |s| && s[i] == (q + tail)[m]
      {
        if m < |q| {
          assert (q + tail)[m] == q[m];
          var i :| 0 <= i < |init| && init[i] == q[m];
          assert s[i] == init[i];
        } else {
          assert (q + tail)[m] == s[|s| - 1];
        }
      }
    }
  }

  /** A partition of rows in code order is itself in code order. */
  lemma {:induction false} PartSorted(s: seq<CodeEntry>, key: CodeEntry -> string, p: string)
    requires SortedByCode(s)
    ensures SortedByCode(Part(s, key, p))
  {
    if s != [] {
      var init := s[..|s| - 1];
      assert SortedByCode(init);
      PartSorted(init, key, p);
      if key(s[|s| - 1]) == p {
        var q := Part(init, key, p);
        PartIsSubsequence(init, key, p);
        forall m | 0 <= m < |q| ensures LexLe(q[m].code, s[|s| - 1].code) {
          var i :| 0 <= i < |init| && init[i] == q[m];
          assert s[i] == init[i];
        }
        SortedSnoc(q, s[|s| - 1]);
      }
    }
  }

  /** A row after sorted rows whose codes are all at most its own. */
  lemma SortedSnoc(t: seq<CodeEntry>, x: CodeEntry)
    requires SortedByCode(t)
    requires forall k :: 0 <= k < |t| ==> LexLe(t[k].code, x.code)
    ensures SortedByCode(t + [x])
  {
    var r := t + [x];
    forall i, j | 0 <= i < j < |r| ensures LexLe(r[i].code, r[j].code) {
      assert r[i] == t[i];
      if j < |t| {
        assert r[j] == t[j];
      }
    }
  }

  lemma PartSnoc(s: seq<CodeEntry>, key: CodeEntry -> string, k: nat)
    requires k < |s|
    ensures Part(s[..k + 1], key, key(s[k])) == Part(s[..k], key, key(s[k])) + [s[k]]
  {
    assert s[..k + 1][..k] == s[..k];
  }

  lemma PartSplit(s: seq<CodeEntry>, n: nat, key: CodeEntry -> string, p: string)
    requires n <= |s|
    ensures Part(s, key, p) == Part(s[..n], key, p) + Part(s[n..], key, p)
  {
    PartAppend(s[..n], s[n..], key, p);
    assert s[..n] + s[n..] == s;
  }

  /** The partition of row `k`. */
  function PartOf(s: seq<CodeEntry>, k: nat): seq<CodeEntry>
    requires k < |s|
  {
    Part(s, IdPrefix, IdPrefix(s[k]))
  }

  /** The partition of row `k` up to and including row `k`. */
  function PartUpTo(s: seq<CodeEntry>, k: nat): seq<CodeEntry>
    requires k < |s|
  {
    Part(s[..k + 1], IdPrefix, IdPrefix(s[k]))
  }

  /** Row k's partition numbers are the numbers of the same row within its
      partition taken alone: the rows of its partition up to it are a prefix
      of that partition and end with it, and the partition's window functions
      restart at 1. */
  lemma PartitionNumberedAlone(s: seq<CodeEntry>, k: nat)
    requires k < |s|
    ensures 0 < |PartUpTo(s, k)| <= |PartOf(s, k)|
    ensures PartOf(s, k)[..|PartUpTo(s, k)|] == PartUpTo(s, k)
    ensures PartOf(s, k)[|PartUpTo(s, k)| - 1] == s[k]
    ensures Number(PartOf(s, k))[|PartUpTo(s, k)| - 1].rowNumber == Number(s)[k].partRowNumber
    ensures Number(PartOf(s, k))[|PartUpTo(s, k)| - 1].denseRank == Number(s)[k].partDenseRank
  {
    PartSnoc(s, IdPrefix, k);
    PartSplit(s, k + 1, IdPrefix, IdPrefix(s[k]));
  }

  /** The same facts inside each partition: the partition dense rank counts
      the distinct codes of the partition up to the row, and never exceeds
      the partition row number. */
  lemma PartitionNumbers(s: seq<CodeEntry>, k: nat)
    requires SortedByCode(s) && k < |s|
    ensures Number(s)[k].partRowNumber == |PartUpTo(s, k)|
    ensures Number(s)[k].partDenseRank == |CodeSet(PartUpTo(s, k))|
    ensures Number(s)[k].partDenseRank <= Number(s)[k].partRowNumber
  {
    var q := PartOf(s, k);
    var m := |PartUpTo(s, k)| - 1;
    PartitionNumberedAlone(s, k);
    PartSorted(s, IdPrefix, IdPrefix(s[k]));
    DenseRankCountsDistinct(q, m);
    DenseRankAtMostRowNumber(q, m);
  }

  // ---------------------------------------------------------------------------
  // The new tables and the sanity check

  /** The rows of `aarecords_codes_new`: the union of the codes tables, in
      code order, numbered. */
  function NumberedTable(union: seq<CodeEntry>): seq<NumberedRow> {
    Number(SortByCode(union))
  }

  /** No two rows with the same `(code, aarecord_id)`, the new table's
      primary key. */
  predicate NoDuplicateRows(s: seq<CodeEntry>) {
    forall i, j :: 0 <= i < j < |s| ==> s[i] != s[j]
  }

  /** `aarecords_codes_prefixes_new`: the distinct parts of the codes before
      their first `:`. */
  function CodePrefixes(t: seq<NumberedRow>): (r: set<string>)
    ensures forall p :: p in r <==> exists k :: 0 <= k < |t| && FirstField(t[k].code, ":") == p
  {
    if t == [] then {}
    else
      var init := CodePrefixes(t[..|t| - 1]);
      var r := init + {FirstField(t[|t| - 1].code, ":")};
      ImageSnoc(t, t[..|t| - 1], init, r, (row: NumberedRow) => FirstField(row.code, ":"));
      r
  }

  /** The values `f` takes on `t`, from those it takes on `front`, all rows
      but the last. */
  lemma ImageSnoc(t: seq<NumberedRow>, front: seq<NumberedRow>, init: set<string>, r: set<string>,
                  f: NumberedRow -> string)
    requires |t| > 0 && front == t[..|t| - 1] && r == init + {f(t[|t| - 1])}
    requires forall p :: p in init <==> exists k :: 0 <= k < |front| && f(front[k]) == p
    ensures forall p :: p in r <==> exists k :: 0 <= k < |t| && f(t[k]) == p
  {
    assert forall k :: 0 <= k < |front| ==> front[k] == t[k];
  }

  /** The slow-import sanity check: the window functions recomputed over the
      new table must agree with the stored numbers on the (up to) ten rows
      with the greatest codes. `MIN` over no rows is `NULL`, which is not
      `'1'`, so an empty table fails it. */
  predicate SanityCheckPasses(t: seq<NumberedRow>) {
    var recomputed := Number(SortByCode(Entries(t)));
    |recomputed| > 0 &&
    forall k :: 0 <= k < |recomputed| && |recomputed| <= k + 10 ==> recomputed[k] in t
  }

  /** On the table just built the sanity check fails exactly when there are no
      codes at all. */
  lemma SanityCheckOnFreshTable(union: seq<CodeEntry>)
    ensures SanityCheckPasses(NumberedTable(union)) <==> |union| > 0
  {
    var sorted := SortByCode(union);
    SortByCodeSortsAndPermutes(union);
    assert |sorted| == |multiset(sorted)| == |multiset(union)| == |union|;
    EntriesOfNumber(sorted);
    SortByCodeOfSorted(sorted);
    var t := NumberedTable(union);
    assert Number(SortByCode(Entries(t))) == t;
    forall k | 0 <= k < |t| ensures t[k] in t {
    }
  }

  /** The sanity check looks at the ten rows with the largest codes only: a table numbered right
      except in its first row still passes when it has more than ten rows. */
  lemma SanityCheckMissesEarlyRows(union: seq<CodeEntry>, wrong: NumberedRow)
    requires |union| > 10
    requires wrong.code == NumberedTable(union)[0].code
    requires wrong.aarecordId == NumberedTable(union)[0].aarecordId
    ensures SanityCheckPasses(NumberedTable(union)[0 := wrong])
  {
    var sorted := SortByCode(union);
    SortByCodeSortsAndPermutes(union);
    assert |sorted| == |multiset(sorted)| == |multiset(union)| == |union|;
    var t := NumberedTable(union);
    var bad := t[0 := wrong];
    assert Entries(bad) == Entries(t);
    EntriesOfNumber(sorted);
    SortByCodeOfSorted(sorted);
    assert Number(SortByCode(Entries(bad))) == t;
    forall k | 0 <= k < |t| && |t| <= k + 10 ensures t[k] in bad {
      assert bad[k] == t[k];
    }
  }

  // ---------------------------------------------------------------------------
  // The catalog and the swap

  /** A table of the catalog, by what it holds. */
  datatype Table =
    | CodesTable(entries: seq<CodeEntry>)
    | NumbersTable(rows: seq<NumberedRow>)
    | PrefixesTable(prefixes: set<string>)

  /** A table's name: one of the four the build creates and swaps
      (`aarecords_codes_new`, `aarecords_codes_prefixes_new`,
      `aarecords_codes`, `aarecords_codes_prefixes`), or any other table by
      its name. */
  datatype TableName = NewTable | NewPrefixes | LiveTable | LivePrefixes | Source(name: string)

  /** The tables by name. */
  type Catalog = map<TableName, Table>

  /** The codes tables in the order of the `UNION ALL`. */
  const UnionOrder: seq<TableName> := [
    Source("aarecords_codes_ia"), Source("aarecords_codes_isbndb"), Source("aarecords_codes_ol"),
    Source("aarecords_codes_duxiu"), Source("aarecords_codes_oclc"), Source("aarecords_codes_magzdb"),
    Source("aarecords_codes_edsebk"), Source("aarecords_codes_nexusstc"), Source("aarecords_codes_main")]

  /** Names of tables other than the four the build creates and swaps. */
  predicate SourceNames(names: seq<TableName>) {
    forall i :: 0 <= i < |names| ==> names[i].Source?
  }

  /** The union reads exactly the codes tables the jobs write, and none of
      the four tables the build creates and swaps. */
  lemma UnionReadsEveryCodesTable()
    ensures SourceNames(UnionOrder)
    ensures forall t :: t in UnionOrder <==> t.Source? && t.name in Job.CodesTables
  {
  }

  /** The union reads no table twice. */
  lemma UnionReadsEachOnce()
    ensures forall i, j :: 0 <= i < j < |UnionOrder| ==> UnionOrder[i] != UnionOrder[j]
  {
    forall i, j | 0 <= i < j < |UnionOrder| ensures UnionOrder[i] != UnionOrder[j] {
      assert UnionOrder[i].name[16..] != UnionOrder[j].name[16..];
    }
  }

  datatype BuildError =
    | MissingCodesTable(name: TableName)
    | TableExists(name: TableName)
    | DuplicateRow
    | SanityCheckFailed

  /** A table of codes rows under `name`. */
  predicate HasCodes(db: Catalog, name: TableName) {
    name in db && db[name].CodesTable?
  }

  /** `SELECT code, aarecord_id FROM a UNION ALL SELECT … FROM b …`: the rows
      of every named table, table after table; the first missing table is an
      error. */
  function UnionAll(db: Catalog, names: seq<TableName>): Result<seq<CodeEntry>, BuildError> {
    if names == [] then Ok([])
    else if !HasCodes(db, names[0]) then Err(MissingCodesTable(names[0]))
    else match UnionAll(db, names[1..])
      case Err(e) => Err(e)
      case Ok(rest) => Ok(db[names[0]].entries + rest)
  }

  /** The union fails exactly when a named table is missing, and names the
      first one. */
  lemma {:induction false} UnionAllOutcome(db: Catalog, names: seq<TableName>)
    ensures UnionAll(db, names).Ok? <==> forall i :: 0 <= i < |names| ==> HasCodes(db, names[i])
    ensures UnionAll(db, names).Err? ==>
      exists i :: 0 <= i < |names| && UnionAll(db, names).error == MissingCodesTable(names[i]) &&
                  !HasCodes(db, names[i]) && forall j :: 0 <= j < i ==> HasCodes(db, names[j])
  {
    if names != [] {
      UnionAllOutcome(db, names[1..]);
      forall i | 0 <= i < |names| - 1 ensures names[1..][i] == names[i + 1] {
      }
      if HasCodes(db, names[0]) && UnionAll(db, names).Err? {
        var i :| 0 <= i < |names[1..]| && UnionAll(db, names[1..]).error == MissingCodesTable(names[1..][i]) &&
                 !HasCodes(db, names[1..][i]) && forall j :: 0 <= j < i ==> HasCodes(db, names[1..][j]);
        assert UnionAll(db, names).error == MissingCodesTable(names[i + 1]);
        forall j | 0 <= j < i + 1 ensures HasCodes(db, names[j]) {
          if j > 0 {
            assert names[j] == names[1..][j - 1];
          }
        }
      }
    }
  }

  /** Every row of every unioned table is in the union, and nothing else. */
  lemma {:induction false} UnionAllRows(db: Catalog, names: seq<TableName>, e: CodeEntry)
    requires UnionAll(db, names).Ok?
    ensures e in UnionAll(db, names).value <==>
            exists i :: 0 <= i < |names| && HasCodes(db, names[i]) && e in db[names[i]].entries
  {
    UnionAllOutcome(db, names);
    if names != [] {
      UnionAllOutcome(db, names[1..]);
      UnionAllRows(db, names[1..], e);
      if e in db[names[0]].entries {
        assert 0 < |names|;
      }
      if exists i :: 0 < i < |names| && HasCodes(db, names[i]) && e in db[names[i]].entries {
        var i :| 0 < i < |names| && HasCodes(db, names[i]) && e in db[names[i]].entries;
        assert names[1..][i - 1] == names[i];
      }
      forall i | 0 <= i < |names| - 1 ensures names[1..][i] == names[i + 1] {
      }
    }
  }

  /** `DROP TABLE IF EXISTS`. */
  function Drop(db: Catalog, name: TableName): Catalog {
    db - {name}
  }

  /** `ALTER TABLE from RENAME to`, to a name not in use. */
  function Rename(db: Catalog, from: TableName, to: TableName): Catalog
    requires from in db
  {
    Drop(db, from)[to := db[from]]
  }

  /** What a run leaves: the catalog after each statement, first to last,
      and the error that stopped it. */
  datatype Run = Run(states: seq<Catalog>, error: Option<BuildError>)

  /** The four committed statements of the swap: drop the live codes table,
      rename the new one in, then the same for the prefixes table. */
  function Swap(db: Catalog): (r: seq<Catalog>)
    requires NewTable in db && NewPrefixes in db
    ensures |r| == 4
  {
    var s3 := Drop(db, LiveTable);
    var s4 := Rename(s3, NewTable, LiveTable);
    var s5 := Drop(s4, LivePrefixes);
    [s3, s4, s5, Rename(s5, NewPrefixes, LivePrefixes)]
  }

  /** From the `CREATE TABLE aarecords_codes_new` on, over a catalog `db`
      that has no `aarecords_codes_new`. */
  function CreateAndSwap(db: Catalog, names: seq<TableName>, slow: bool): (r: Run)
    requires NewTable !in db
  {
    match UnionAll(db, names)
    case Err(e) => Run([], Some(e))
    case Ok(union) => FromUnion(db, union, slow)
  }

  /** Once the union has been read: the primary key refuses a repeated row,
      then the two new tables are created, the sanity check runs under slow
      imports, and the swap follows. */
  function FromUnion(db: Catalog, union: seq<CodeEntry>, slow: bool): (r: Run)
    requires NewTable !in db
  {
    if !NoDuplicateRows(union) then Run([], Some(DuplicateRow))
    else
      var rows := NumberedTable(union);
      var s1 := db[NewTable := NumbersTable(rows)];
      if NewPrefixes in s1 then Run([s1], Some(TableExists(NewPrefixes)))
      else
        var s2 := s1[NewPrefixes := PrefixesTable(CodePrefixes(rows))];
        if slow && !SanityCheckPasses(rows) then Run([s1, s2], Some(SanityCheckFailed))
        else Run([s1, s2] + Swap(s2), None)
  }

  /** The catalog with both new tables created from `union`. */
  function WithNewTables(db: Catalog, union: seq<CodeEntry>): Catalog {
    db[NewTable := NumbersTable(NumberedTable(union))]
      [NewPrefixes := PrefixesTable(CodePrefixes(NumberedTable(union)))]
  }

  /** `mysql_build_aarecords_codes_numbers_internal`. Under slow imports it
      starts by dropping leftover new tables; otherwise a leftover makes the
      `CREATE TABLE` fail. The rows are built from the union; the prefixes
      table from the rows; under slow imports the sanity check runs; then the
      live tables are dropped and the new ones renamed in, one committed
      statement at a time. */
  function BuildCodesNumbers(db: Catalog, names: seq<TableName>, slow: bool): (r: Run)
    ensures |r.states| > 0 && r.states[0] == db
  {
    var s0 := if slow then Drop(Drop(db, NewTable), NewPrefixes) else db;
    if NewTable in s0 then Run([db, s0], Some(TableExists(NewTable)))
    else
      var rest := CreateAndSwap(s0, names, slow);
      Run([db, s0] + rest.states, rest.error)
  }

  /** The swap is not atomic: right after the first statement there is no
      `aarecords_codes` at all. The live codes table is then the new one,
      the live prefixes table is the old one until it is dropped, then
      absent, then the new one; the new names are gone at the end and every
      other table is as it was. */
  lemma SwapSteps(db: Catalog)
    requires NewTable in db && NewPrefixes in db
    ensures LiveTable !in Swap(db)[0]
    ensures forall i :: 1 <= i < 4 ==> LiveTable in Swap(db)[i] && Swap(db)[i][LiveTable] == db[NewTable]
    ensures forall i :: 0 <= i < 2 ==> (LivePrefixes in Swap(db)[i] <==> LivePrefixes in db)
    ensures forall i :: 0 <= i < 2 && LivePrefixes in db ==> Swap(db)[i][LivePrefixes] == db[LivePrefixes]
    ensures LivePrefixes !in Swap(db)[2]
    ensures LivePrefixes in Swap(db)[3] && Swap(db)[3][LivePrefixes] == db[NewPrefixes]
    ensures NewTable !in Swap(db)[3] && NewPrefixes !in Swap(db)[3]
    ensures forall n :: n !in {NewTable, NewPrefixes, LiveTable, LivePrefixes} ==>
      (n in Swap(db)[3] <==> n in db) && (n in db ==> Swap(db)[3][n] == db[n])
  {
  }

  /** Dropping or setting a table the union does not read changes nothing
      about the union. */
  lemma {:induction false} UnionAllIgnoresOthers(db: Catalog, n: TableName, t: Table, names: seq<TableName>)
    requires !n.Source? && SourceNames(names)
    ensures UnionAll(Drop(db, n), names) == UnionAll(db, names)
    ensures UnionAll(db[n := t], names) == UnionAll(db, names)
  {
    if names != [] {
      UnionAllIgnoresOthers(db, n, t, names[1..]);
    }
  }

  /** The catalog a run ends with. */
  function Final(r: Run): Catalog
    requires |r.states| > 0
  {
    r.states[|r.states| - 1]
  }

  lemma FromUnionOutcome(db: Catalog, union: seq<CodeEntry>, slow: bool)
    requires NewTable !in db
    ensures FromUnion(db, union, slow).error.None? <==>
      NoDuplicateRows(union) && NewPrefixes !in db && (slow ==> |union| > 0)
  {
    if NoDuplicateRows(union) && NewPrefixes !in db {
      SanityCheckOnFreshTable(union);
    }
  }

  lemma FromUnionResult(db: Catalog, union: seq<CodeEntry>, slow: bool)
    requires NewTable !in db && FromUnion(db, union, slow).error.None?
    ensures FromUnion(db, union, slow).states == [db[NewTable := NumbersTable(NumberedTable(union))],
                                                  WithNewTables(db, union)] + Swap(WithNewTables(db, union))
  {
  }

  /** When the build succeeds: exactly when a leftover new table does not
      block it, every codes table is there, no `(code, aarecord_id)` row
      repeats, and under slow imports the union is not empty. */
  lemma BuildOutcome(db: Catalog, names: seq<TableName>, slow: bool)
    requires SourceNames(names)
    ensures BuildCodesNumbers(db, names, slow).error.None? <==>
      (slow || (NewTable !in db && NewPrefixes !in db)) &&
      UnionAll(db, names).Ok? &&
      NoDuplicateRows(UnionAll(db, names).value) &&
      (slow ==> |UnionAll(db, names).value| > 0)
  {
    var s0 := if slow then Drop(Drop(db, NewTable), NewPrefixes) else db;
    UnionAllIgnoresOthers(db, NewTable, CodesTable([]), names);
    UnionAllIgnoresOthers(Drop(db, NewTable), NewPrefixes, CodesTable([]), names);
    if NewTable !in s0 && UnionAll(s0, names).Ok? {
      FromUnionOutcome(s0, UnionAll(s0, names).value, slow);
    }
  }

  /** The catalog the build starts its `CREATE TABLE` from. */
  function Cleaned(db: Catalog, slow: bool): Catalog {
    if slow then Drop(Drop(db, NewTable), NewPrefixes) else db
  }

  /** A successful build is the cleaning followed by the run from the
      union on. */
  lemma BuildStates(db: Catalog, names: seq<TableName>, slow: bool)
    requires SourceNames(names)
    requires BuildCodesNumbers(db, names, slow).error.None?
    ensures UnionAll(db, names).Ok? && NewTable !in Cleaned(db, slow)
    ensures FromUnion(Cleaned(db, slow), UnionAll(db, names).value, slow).error.None?
    ensures BuildCodesNumbers(db, names, slow).states ==
      [db, Cleaned(db, slow)] + FromUnion(Cleaned(db, slow), UnionAll(db, names).value, slow).states
  {
    BuildOutcome(db, names, slow);
    var s0 := Cleaned(db, slow);
    UnionAllIgnoresOthers(db, NewTable, CodesTable([]), names);
    UnionAllIgnoresOthers(Drop(db, NewTable), NewPrefixes, CodesTable([]), names);
    assert UnionAll(s0, names) == UnionAll(db, names);
  }

  /** After a successful build the live codes table holds the union in code
      order with its window-function numbers, the live prefixes table the
      prefixes of its codes, the new names are gone, every other table is
      as it was, and on the way there was a committed state without
      `aarecords_codes`. */
  lemma BuildResult(db: Catalog, names: seq<TableName>, slow: bool)
    requires SourceNames(names)
    requires BuildCodesNumbers(db, names, slow).error.None?
    ensures UnionAll(db, names).Ok?
    ensures LiveTable in Final(BuildCodesNumbers(db, names, slow)) &&
            Final(BuildCodesNumbers(db, names, slow))[LiveTable] ==
            NumbersTable(NumberedTable(UnionAll(db, names).value))
    ensures LivePrefixes in Final(BuildCodesNumbers(db, names, slow)) &&
            Final(BuildCodesNumbers(db, names, slow))[LivePrefixes] ==
            PrefixesTable(CodePrefixes(NumberedTable(UnionAll(db, names).value)))
    ensures NewTable !in Final(BuildCodesNumbers(db, names, slow))
    ensures NewPrefixes !in Final(BuildCodesNumbers(db, names, slow))
    ensures forall n :: n !in {NewTable, NewPrefixes, LiveTable, LivePrefixes} ==>
      (n in Final(BuildCodesNumbers(db, names, slow)) <==> n in db) &&
      (n in db ==> Final(BuildCodesNumbers(db, names, slow))[n] == db[n])
    ensures |BuildCodesNumbers(db, names, slow).states| == 8 && LiveTable !in BuildCodesNumbers(db, names, slow).states[4]
  {
    BuildStates(db, names, slow);
    var r := BuildCodesNumbers(db, names, slow);
    var s0, u := Cleaned(db, slow), UnionAll(db, names).value;
    FromUnionResult(s0, u, slow);
    var s1, s2 := s0[NewTable := NumbersTable(NumberedTable(u))], WithNewTables(s0, u);
    var sw := Swap(s2);
    SwapSteps(s2);
    assert r.states == [db, s0] + ([s1, s2] + sw);
    assert r.states[4] == sw[0];
    assert Final(r) == sw[3];
    forall n | n !in {NewTable, NewPrefixes, LiveTable, LivePrefixes}
      ensures (n in sw[3] <==> n in db) && (n in db ==> sw[3][n] == db[n])
    {
      assert n in s2 <==> n in s0;
      assert n in s0 <==> n in db;
    }
  }
}
