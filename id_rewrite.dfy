/** The aarecord ids each paging driver builds from one page of rows
    (allthethings/cli/views.py, the `elastic_build_aarecords_*_internal`
    commands). An aarecord id is a source prefix, a `:` and the source's own
    id; `elastic_build_aarecords_job` splits it back at the first `:`. */
module IdRewrite {
  import opened Wrappers
  import opened Text
  import opened AacLines

  /** `f"{prefix}:{id}"`. */
  function AarecordId(prefix: string, id: string): string {
    prefix + ":" + id
  }

  predicate NoColon(s: string) {
    forall i :: 0 <= i < |s| ==> s[i] != ':'
  }

  /** Splitting an id at its first `:` gives back the prefix and the source
      id, whatever the source id holds. */
  lemma AarecordIdSplits(prefix: string, id: string)
    requires NoColon(prefix)
    ensures SplitOnce(AarecordId(prefix, id), ":") == (prefix, Some(id))
  {
    var s := AarecordId(prefix, id);
    assert StartsWith(s[|prefix|..], ":");
    match FirstIndexOf(s, ":")
    case None =>
      assert false;
    case Some(k) =>
      if k < |prefix| {
        assert s[k] == prefix[k];
      }
      assert s[|prefix| + 1..] == id;
  }

  /** The ids of a page whose rows each give one id under one prefix
      (`ia`, `oclc`, `edsebk`, `nexusstc`, `doi`, `nexusstc_download`). */
  function PrefixedIds(prefix: string, ids: seq<string>): (r: seq<string>)
    ensures |r| == |ids|
    ensures forall i :: 0 <= i < |ids| ==> r[i] == AarecordId(prefix, ids[i])
  {
    if |ids| == 0 then [] else [AarecordId(prefix, ids[0])] + PrefixedIds(prefix, ids[1..])
  }

  /** A job given these ids recovers every row's own id, in order. */
  lemma PrefixedIdsRoundTrip(prefix: string, ids: seq<string>, i: nat)
    requires NoColon(prefix) && i < |ids|
    ensures SplitOnce(PrefixedIds(prefix, ids)[i], ":") == (prefix, Some(ids[i]))
  {
    AarecordIdSplits(prefix, ids[i]);
  }

  // ---------------------------------------------------------------------------
  // magzdb: `f"magzdb:{row['primary_id'][len('record_'):]}"`

  const RecordPrefix := "record_"

  /** Python's `p[7:]`, which is empty for a shorter `p`. */
  function MagzdbId(primaryId: string): string {
    AarecordId("magzdb", if |primaryId| >= |RecordPrefix| then primaryId[|RecordPrefix|..] else "")
  }

  function MagzdbIds(primaryIds: seq<string>): (r: seq<string>)
    ensures |r| == |primaryIds|
    ensures forall i :: 0 <= i < |primaryIds| ==> r[i] == MagzdbId(primaryIds[i])
  {
    if |primaryIds| == 0 then [] else [MagzdbId(primaryIds[0])] + MagzdbIds(primaryIds[1..])
  }

  /** A `record_<n>` primary id becomes `magzdb:<n>`. */
  lemma MagzdbStripsRecordPrefix(n: string)
    ensures MagzdbId(RecordPrefix + n) == AarecordId("magzdb", n)
  {
    assert (RecordPrefix + n)[|RecordPrefix|..] == n;
  }

  /** The query only asks for `LIKE "record%"`, which does not demand the
      underscore: the slice always drops seven characters, and a seven-character
      or shorter id gives the empty magzdb id. */
  lemma MagzdbShortIdIsEmpty(primaryId: string)
    requires |primaryId| <= |RecordPrefix|
    ensures MagzdbId(primaryId) == "magzdb:"
  {
  }

  // ---------------------------------------------------------------------------
  // ol: `"ol:" + ol_key.replace('/books/','')`, kept when the edition validates

  const BooksPrefix := "/books/"

  function OlEdition(olKey: string): string {
    ReplaceAll(olKey, BooksPrefix, "")
  }

  /** The ids of a page of `ol_base` keys; `validate` stands for
      `validate_ol_editions` applied to the one-element list. */
  function OlIds(olKeys: seq<string>, validate: seq<string> -> bool): seq<string> {
    if |olKeys| == 0 then []
    else
      var init := OlIds(olKeys[..|olKeys| - 1], validate);
      var e := OlEdition(olKeys[|olKeys| - 1]);
      if validate([e]) then init + [AarecordId("ol", e)] else init
  }

  /** An id is emitted exactly for the keys whose edition validates. */
  lemma {:induction false} OlIdsMembers(olKeys: seq<string>, validate: seq<string> -> bool)
    ensures forall x :: x in OlIds(olKeys, validate) <==>
      exists i :: 0 <= i < |olKeys| && validate([OlEdition(olKeys[i])]) && x == AarecordId("ol", OlEdition(olKeys[i]))
  {
    if |olKeys| > 0 {
      var init := olKeys[..|olKeys| - 1];
      OlIdsMembers(init, validate);
      assert forall i :: 0 <= i < |init| ==> init[i] == olKeys[i];
    }
  }

  /** A key `/books/<e>` with no `/` in `<e>` gives the edition `<e>`. */
  lemma OlEditionOfKey(e: string)
    requires forall i :: 0 <= i < |e| ==> e[i] != '/'
    ensures OlEdition(BooksPrefix + e) == e
  {
    ReplaceAllLeading(BooksPrefix + e, BooksPrefix, "");
    assert (BooksPrefix + e)[|BooksPrefix|..] == e + "";
    ReplaceAllSkipsPrefix(e, "", BooksPrefix, "");
  }

  // ---------------------------------------------------------------------------
  // isbndb: two ids per row whose isbn10 is not all zeros, deduplicated

  datatype IsbndbRow = IsbndbRow(isbn13: string, isbn10: string)

  const NoIsbn10 := "0000000000"

  /** The set a page of `isbndb_isbns` rows fills; `ean13` stands for
      `isbnlib.ean13`. */
  function IsbndbIdSet(rows: seq<IsbndbRow>, ean13: string -> string): set<string> {
    if |rows| == 0 then {}
    else
      var r := rows[|rows| - 1];
      IsbndbIdSet(rows[..|rows| - 1], ean13) +
        if r.isbn10 != NoIsbn10 then {AarecordId("isbn", r.isbn13), AarecordId("isbn", ean13(r.isbn10))} else {}
  }

  /** An id is in the set exactly when some row with a real isbn10 gives it,
      either from its isbn13 or as the EAN-13 of its isbn10. */
  lemma {:induction false} IsbndbIdSetMembers(rows: seq<IsbndbRow>, ean13: string -> string)
    ensures forall x :: x in IsbndbIdSet(rows, ean13) <==>
      exists i :: 0 <= i < |rows| && rows[i].isbn10 != NoIsbn10 &&
        (x == AarecordId("isbn", rows[i].isbn13) || x == AarecordId("isbn", ean13(rows[i].isbn10)))
  {
    if |rows| > 0 {
      var init := rows[..|rows| - 1];
      IsbndbIdSetMembers(init, ean13);
      assert forall i :: 0 <= i < |init| ==> init[i] == rows[i];
    }
  }

  /** A page whose every isbn10 is all zeros gives no ids, so no job runs for it. */
  lemma {:induction false} IsbndbAllZeroPageIsEmpty(rows: seq<IsbndbRow>, ean13: string -> string)
    requires forall i :: 0 <= i < |rows| ==> rows[i].isbn10 == NoIsbn10
    ensures IsbndbIdSet(rows, ean13) == {}
  {
    if |rows| > 0 {
      IsbndbAllZeroPageIsEmpty(rows[..|rows| - 1], ean13);
    }
  }

  /** `r` lists every element of `s` once, in some order: `list(s)`. */
  ghost predicate Enumerates(r: seq<string>, s: set<string>) {
    (forall x :: x in r <==> x in s) && forall i, j :: 0 <= i < j < |r| ==> r[i] != r[j]
  }

  /** `list(s)`: the iteration order of a Python set is unspecified. */
  method ListOfSet(s: set<string>) returns (r: seq<string>)
    ensures Enumerates(r, s)
  {
    r := [];
    var remaining := s;
    while remaining != {}
      invariant remaining <= s
      invariant forall x :: x in r <==> x in s - remaining
      invariant forall i, j :: 0 <= i < j < |r| ==> r[i] != r[j]
      decreases remaining
    {
      var x :| x in remaining;
      assert x !in r;
      forall i | 0 <= i < |r| ensures (r + [x])[i] != x {
        assert (r + [x])[i] == r[i];
      }
      r := r + [x];
      remaining := remaining - {x};
    }
  }

  /** The isbndb driver's loop over a page, then `list(isbn13s)`. */
  method IsbndbPageIds(rows: seq<IsbndbRow>, ean13: string -> string) returns (ids: seq<string>)
    ensures Enumerates(ids, IsbndbIdSet(rows, ean13))
  {
    var isbn13s: set<string> := {};
    for i := 0 to |rows|
      invariant isbn13s == IsbndbIdSet(rows[..i], ean13)
    {
      assert rows[..i + 1][..i] == rows[..i];
      if rows[i].isbn10 != NoIsbn10 {
        isbn13s := isbn13s + {AarecordId("isbn", rows[i].isbn13)};
        isbn13s := isbn13s + {AarecordId("isbn", ean13(rows[i].isbn10))};
      }
    }
    assert rows[..|rows|] == rows;
    ids := ListOfSet(isbn13s);
  }

  // ---------------------------------------------------------------------------
  // duxiu: skip rules, the prefix rewrite, then deduplication

  /** A `duxiu_records` row with what its archive line contains. */
  datatype DuxiuRow = DuxiuRow(
    primaryId: string,
    hasBooksMarker: bool,        // the line contains `dx_20240122__books`
    hasTocDbMarker: bool,        // the line contains `dx_toc_db__dx_toc`
    hasNullTocXml: bool,         // the line contains `"toc_xml":null`
    hasRemoteFilesMarker: bool)  // the line contains `dx_20240122__remote_files`

  /** The rows the duxiu driver passes over. */
  predicate DuxiuSkipped(r: DuxiuRow) {
    r.primaryId == "duxiu_ssid_-1" ||
    StartsWith(r.primaryId, "cadal_ssno_hj") ||
    r.hasBooksMarker ||
    (r.hasTocDbMarker && r.hasNullTocXml) ||
    r.hasRemoteFilesMarker
  }

  /** `.replace('duxiu_ssid_','duxiu_ssid:').replace('cadal_ssno_','cadal_ssno:')`. */
  function DuxiuAarecordId(primaryId: string): string {
    ReplaceAll(ReplaceAll(primaryId, "duxiu_ssid_", "duxiu_ssid:"), "cadal_ssno_", "cadal_ssno:")
  }

  /** The ids of the rows not skipped, in page order, before deduplication. */
  function DuxiuKept(rows: seq<DuxiuRow>): seq<string> {
    if |rows| == 0 then []
    else
      var init := DuxiuKept(rows[..|rows| - 1]);
      var r := rows[|rows| - 1];
      if DuxiuSkipped(r) then init else init + [DuxiuAarecordId(r.primaryId)]
  }

  /** An id is kept exactly when some row that no skip rule matches gives it. */
  lemma {:induction false} DuxiuKeptMembers(rows: seq<DuxiuRow>)
    ensures forall x :: x in DuxiuKept(rows) <==>
      exists i :: 0 <= i < |rows| && !DuxiuSkipped(rows[i]) && x == DuxiuAarecordId(rows[i].primaryId)
  {
    if |rows| > 0 {
      var init := rows[..|rows| - 1];
      DuxiuKeptMembers(init);
      assert forall i :: 0 <= i < |init| ==> init[i] == rows[i];
    }
  }

  /** The duxiu driver's loop over a page, then `list(set(ids))`. */
  method DuxiuPageIds(rows: seq<DuxiuRow>) returns (ids: seq<string>)
    ensures Enumerates(ids, set x | x in DuxiuKept(rows))
  {
    var kept: seq<string> := [];
    for i := 0 to |rows|
      invariant kept == DuxiuKept(rows[..i])
    {
      assert rows[..i + 1][..i] == rows[..i];
      if !DuxiuSkipped(rows[i]) {
        kept := kept + [DuxiuAarecordId(rows[i].primaryId)];
      }
    }
    assert rows[..|rows|] == rows;
    ids := ListOfSet(set x | x in kept);
  }

  /** Characters that cannot start either rewritten prefix. */
  predicate PlainSuffix(n: string) {
    forall i :: 0 <= i < |n| ==> n[i] != 'd' && n[i] != 'c'
  }

  lemma ReplaceAllOfPlain(n: string, pat: string, rep: string)
    requires |pat| > 0 && (pat[0] == 'd' || pat[0] == 'c') && PlainSuffix(n)
    ensures ReplaceAll(n, pat, rep) == n
  {
    ReplaceAllSkipsPrefix(n, "", pat, rep);
    assert n + "" == n;
  }

  /** A leading `pat1` followed by a plain suffix is replaced once, and a
      second replacement whose pattern cannot start inside `rep1` or the
      suffix changes nothing more. */
  lemma LeadingThenUntouched(pat1: string, rep1: string, pat2: string, rep2: string, n: string)
    requires |pat1| > 0 && (pat1[0] == 'd' || pat1[0] == 'c')
    requires |pat2| > 0 && (pat2[0] == 'd' || pat2[0] == 'c')
    requires forall i :: 0 <= i < |rep1| ==> rep1[i] != pat2[0]
    requires PlainSuffix(n)
    ensures ReplaceAll(ReplaceAll(pat1 + n, pat1, rep1), pat2, rep2) == rep1 + n
  {
    var p := pat1 + n;
    assert StartsWith(p, pat1) by {
      assert p[..|pat1|] == pat1;
    }
    ReplaceAllLeading(p, pat1, rep1);
    assert p[|pat1|..] == n;
    ReplaceAllOfPlain(n, pat1, rep1);
    assert ReplaceAll(p, pat1, rep1) == rep1 + n;
    ReplaceAllSkipsPrefix(rep1, n, pat2, rep2);
    ReplaceAllOfPlain(n, pat2, rep2);
  }

  /** `duxiu_ssid_<n>` becomes `duxiu_ssid:<n>`. */
  lemma DuxiuSsidRewrite(n: string)
    requires PlainSuffix(n)
    ensures DuxiuAarecordId("duxiu_ssid_" + n) == AarecordId("duxiu_ssid", n)
  {
    assert forall i :: 0 <= i < |"duxiu_ssid:"| ==> "duxiu_ssid:"[i] != 'c';
    LeadingThenUntouched("duxiu_ssid_", "duxiu_ssid:", "cadal_ssno_", "cadal_ssno:", n);
    assert "duxiu_ssid" + ":" == "duxiu_ssid:";
  }

  /** The first replacement finds nothing in a cadal id: its only `d` is
      followed by `a`, not `u`. */
  lemma CadalUntouchedBySsid(n: string)
    requires PlainSuffix(n)
    ensures ReplaceAll("cadal_ssno_" + n, "duxiu_ssid_", "duxiu_ssid:") == "cadal_ssno_" + n
  {
    var t := "dal_ssno_" + n;
    assert "cadal_ssno_" + n == "ca" + t;
    ReplaceAllSkipsPrefix("ca", t, "duxiu_ssid_", "duxiu_ssid:");
    DalUntouchedBySsid(n);
  }

  lemma DalUntouchedBySsid(n: string)
    requires PlainSuffix(n)
    ensures ReplaceAll("dal_ssno_" + n, "duxiu_ssid_", "duxiu_ssid:") == "dal_ssno_" + n
  {
    var t := "dal_ssno_" + n;
    assert t[1] == 'a';
    assert !StartsWith(t, "duxiu_ssid_");
    assert t[1..] == "al_ssno_" + n;
    ReplaceAllSkipsPrefix("al_ssno_", n, "duxiu_ssid_", "duxiu_ssid:");
    ReplaceAllOfPlain(n, "duxiu_ssid_", "duxiu_ssid:");
  }

  /** `cadal_ssno_<n>` becomes `cadal_ssno:<n>`. */
  lemma CadalSsnoRewrite(n: string)
    requires PlainSuffix(n)
    ensures DuxiuAarecordId("cadal_ssno_" + n) == AarecordId("cadal_ssno", n)
  {
    var p := "cadal_ssno_" + n;
    CadalUntouchedBySsid(n);
    ReplaceAllLeading(p, "cadal_ssno_", "cadal_ssno:");
    assert p[|"cadal_ssno_"|..] == n;
    ReplaceAllOfPlain(n, "cadal_ssno_", "cadal_ssno:");
  }

  // ---------------------------------------------------------------------------
  // main: `f"md5:{item['md5'].hex()}"`

  function HexDigit(d: nat): (c: char)
    requires d < 16
    ensures IsLowerHexDigit(c)
  {
    if d < 10 then ('0' as int + d) as char else ('a' as int + d - 10) as char
  }

  /** `bytes.hex()`: two lower-case hex digits a byte. */
  function HexOf(b: seq<bv8>): (r: string)
    ensures |r| == 2 * |b|
    ensures forall i :: 0 <= i < |r| ==> IsLowerHexDigit(r[i])
  {
    if |b| == 0 then ""
    else
      var v := b[0] as nat;
      [HexDigit(v / 16), HexDigit(v % 16)] + HexOf(b[1..])
  }

  function HexValue(c: char): nat
    requires IsLowerHexDigit(c)
  {
    if '0' <= c <= '9' then c as nat - '0' as nat else c as nat - 'a' as nat + 10
  }

  /** The byte two hex digits spell. */
  function HexPair(hi: char, lo: char): bv8
    requires IsLowerHexDigit(hi) && IsLowerHexDigit(lo)
  {
    var v := HexValue(hi) * 16 + HexValue(lo);
    assert v < 256;
    v as bv8
  }

  /** `bytes.fromhex(s)` / `UNHEX(s)` on lower-case hex text. */
  function FromHex(s: string): seq<bv8>
    requires |s| % 2 == 0 && forall i :: 0 <= i < |s| ==> IsLowerHexDigit(s[i])
  {
    if |s| == 0 then [] else [HexPair(s[0], s[1])] + FromHex(s[2..])
  }

  lemma HexDigitValue(d: nat)
    requires d < 16
    ensures IsLowerHexDigit(HexDigit(d)) && HexValue(HexDigit(d)) == d
  {
  }

  /** One byte's two digits decode back to the byte. */
  lemma ByteHexRoundTrip(x: bv8)
    ensures HexPair(HexDigit(x as nat / 16), HexDigit(x as nat % 16)) == x
  {
    var v := x as nat;
    DigitsOfByte(v);
    ByteOfNat(x);
  }

  lemma DigitsOfByte(v: nat)
    requires v < 256
    ensures HexValue(HexDigit(v / 16)) * 16 + HexValue(HexDigit(v % 16)) == v
  {
    HexDigitValue(v / 16);
    HexDigitValue(v % 16);
  }

  lemma ByteOfNat(x: bv8)
    ensures (x as nat) as bv8 == x
  {
  }

  /** Hex text decodes back to the bytes it came from. */
  lemma {:induction false} FromHexOfHex(b: seq<bv8>)
    ensures FromHex(HexOf(b)) == b
  {
    if |b| > 0 {
      var s := HexOf(b);
      var v := b[0] as nat;
      assert s == [HexDigit(v / 16), HexDigit(v % 16)] + HexOf(b[1..]);
      assert s[2..] == HexOf(b[1..]);
      ByteHexRoundTrip(b[0]);
      FromHexOfHex(b[1..]);
    }
  }

  /** The id the main driver gives a file hash. */
  function Md5Id(md5: seq<bv8>): string {
    AarecordId("md5", HexOf(md5))
  }

  /** A 16-byte hash gives `md5:` and a canonical md5, and distinct hashes give distinct ids. */
  lemma Md5IdCanonical(md5: seq<bv8>, other: seq<bv8>)
    requires |md5| == 16
    ensures IsMd5Hex(HexOf(md5))
    ensures SplitOnce(Md5Id(md5), ":") == ("md5", Some(HexOf(md5)))
    ensures Md5Id(md5) == Md5Id(other) ==> md5 == other
  {
    AarecordIdSplits("md5", HexOf(md5));
    if Md5Id(md5) == Md5Id(other) {
      assert HexOf(md5) == Md5Id(md5)[4..] == HexOf(other);
      FromHexOfHex(md5);
      FromHexOfHex(other);
    }
  }
}
