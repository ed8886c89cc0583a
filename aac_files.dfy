/** Which archive files the indexer looks at, and which collections it decides
    to re-index (allthethings/cli/views.py, `mysql_build_aac_tables_internal`). */
module AacFiles {
  import opened Text
  import opened Lex
  import opened Wrappers

  const FilePrefix := "annas_archive_meta__aacid__"
  const FileSuffix := ".jsonl.seekable.zst"

  /** A directory entry the indexer keeps. */
  predicate IsAacFile(f: string) {
    StartsWith(f, FilePrefix) && EndsWith(f, FileSuffix)
  }

  /** The third `__`-separated field of a kept file name: the field that
      follows the two fields of `FilePrefix`. */
  function CollectionOf(f: string): string
    requires IsAacFile(f)
  {
    FirstField(f[|FilePrefix|..], "__")
  }

  /** The kept files of collection `c`, in directory-listing order. */
  function FilesOf(fs: seq<string>, c: string): seq<string> {
    if |fs| == 0 then []
    else
      var init := FilesOf(fs[..|fs| - 1], c);
      var f := fs[|fs| - 1];
      if IsAacFile(f) && CollectionOf(f) == c then init + [f] else init
  }

  lemma {:induction false} FilesOfMembers(fs: seq<string>, c: string)
    ensures forall x :: x in FilesOf(fs, c) <==> x in fs && IsAacFile(x) && CollectionOf(x) == c
  {
    if |fs| > 0 {
      FilesOfMembers(fs[..|fs| - 1], c);
      assert fs == fs[..|fs| - 1] + [fs[|fs| - 1]];
    }
  }

  /** The collections that have at least one kept file. */
  function Collections(fs: seq<string>): set<string> {
    if |fs| == 0 then {}
    else
      var f := fs[|fs| - 1];
      Collections(fs[..|fs| - 1]) + if IsAacFile(f) then {CollectionOf(f)} else {}
  }

  lemma {:induction false} CollectionsMembers(fs: seq<string>)
    ensures forall c :: c in Collections(fs) <==> exists f :: f in fs && IsAacFile(f) && CollectionOf(f) == c
  {
    if |fs| > 0 {
      CollectionsMembers(fs[..|fs| - 1]);
      assert fs == fs[..|fs| - 1] + [fs[|fs| - 1]];
      assert forall f :: f in fs <==> f in fs[..|fs| - 1] || f == fs[|fs| - 1];
    }
  }

  /** The collections in the order their first file is listed: the insertion
      order of the `defaultdict` the indexer fills. */
  function CollectionOrder(fs: seq<string>): seq<string> {
    if |fs| == 0 then []
    else
      var init := CollectionOrder(fs[..|fs| - 1]);
      var f := fs[|fs| - 1];
      if IsAacFile(f) && CollectionOf(f) !in init then init + [CollectionOf(f)] else init
  }

  /** The listing order names every collection once and nothing else. */
  lemma {:induction false} CollectionOrderIsCollections(fs: seq<string>)
    ensures forall c :: c in CollectionOrder(fs) <==> c in Collections(fs)
    ensures forall i, j :: 0 <= i < j < |CollectionOrder(fs)| ==> CollectionOrder(fs)[i] != CollectionOrder(fs)[j]
  {
    if |fs| > 0 {
      var init := fs[..|fs| - 1];
      CollectionOrderIsCollections(init);
    }
  }

  /** A collection has a file exactly when it is a collection. */
  lemma FilesOfNonEmpty(fs: seq<string>, c: string)
    ensures |FilesOf(fs, c)| > 0 <==> c in Collections(fs)
  {
    FilesOfMembers(fs, c);
    CollectionsMembers(fs);
    if c in Collections(fs) {
      var f :| f in fs && IsAacFile(f) && CollectionOf(f) == c;
      assert f in FilesOf(fs, c);
    }
  }

  /** The newest file of a collection: the last one after `filenames.sort()`. */
  function Latest(fs: seq<string>, c: string): string
    requires c in Collections(fs)
  {
    FilesOfNonEmpty(fs, c);
    Greatest(FilesOf(fs, c))
  }

  /** `existing_filenames_by_collection.get(collection) or ''`. */
  function RecordedOrEmpty(recorded: map<string, string>, c: string): string {
    if c in recorded then recorded[c] else ""
  }

  /** The collections to re-index, each with the file to index it from. */
  function NeedsIndexing(fs: seq<string>, recorded: map<string, string>): map<string, string> {
    map c | c in Collections(fs) && Latest(fs, c) != RecordedOrEmpty(recorded, c) :: Latest(fs, c)
  }

  /** The file chosen for a collection is one of its kept files and no kept
      file of that collection sorts after it. */
  lemma LatestIsNewest(fs: seq<string>, c: string)
    requires c in Collections(fs)
    ensures Latest(fs, c) in fs && IsAacFile(Latest(fs, c)) && CollectionOf(Latest(fs, c)) == c
    ensures forall f :: f in fs && IsAacFile(f) && CollectionOf(f) == c ==> LexLe(f, Latest(fs, c))
  {
    FilesOfMembers(fs, c);
  }

  /** A collection is re-indexed if and only if it has a kept file and its
      newest file differs from the recorded one (`''` when none is recorded). */
  lemma NeedsIndexingIff(fs: seq<string>, recorded: map<string, string>, c: string)
    ensures c in NeedsIndexing(fs, recorded) <==>
      |FilesOf(fs, c)| > 0 && Greatest(FilesOf(fs, c)) != RecordedOrEmpty(recorded, c)
    ensures c in NeedsIndexing(fs, recorded) ==> NeedsIndexing(fs, recorded)[c] == Greatest(FilesOf(fs, c))
  {
    FilesOfNonEmpty(fs, c);
  }

  /** Once the newest file of every re-indexed collection is recorded, the
      same listing re-indexes nothing. */
  lemma {:induction false} SecondRunIndexesNothing(fs: seq<string>, recorded: map<string, string>)
    ensures NeedsIndexing(fs, recorded + NeedsIndexing(fs, recorded)) == map[]
  {
    var need := NeedsIndexing(fs, recorded);
    var after := recorded + need;
    forall c | c in Collections(fs)
      ensures Latest(fs, c) == RecordedOrEmpty(after, c)
    {
      LatestIsNewest(fs, c);
      assert |Latest(fs, c)| > 0;
      if c !in need {
        assert c in recorded;
        assert after[c] == recorded[c];
      }
    }
    assert NeedsIndexing(fs, after).Keys == {};
  }

  /** The `defaultdict` of file lists the indexer fills from the listing,
      with the order in which its keys were inserted. */
  method GroupByCollection(fs: seq<string>)
    returns (order: seq<string>, byCollection: map<string, seq<string>>)
    ensures order == CollectionOrder(fs)
    ensures forall c :: c in byCollection <==> c in Collections(fs)
    ensures forall c :: c in byCollection ==> byCollection[c] == FilesOf(fs, c)
  {
    byCollection := map[];
    order := [];
    var i := 0;
    while i < |fs|
      invariant 0 <= i <= |fs|
      invariant order == CollectionOrder(fs[..i])
      invariant forall c :: c in byCollection <==> c in order
      invariant forall c :: c in byCollection ==> byCollection[c] == FilesOf(fs[..i], c)
    {
      var f := fs[i];
      assert fs[..i + 1][..i] == fs[..i];
      if IsAacFile(f) {
        var c := CollectionOf(f);
        if c in byCollection {
          byCollection := byCollection[c := byCollection[c] + [f]];
        } else {
          CollectionOrderIsCollections(fs[..i]);
          FilesOfNonEmpty(fs[..i], c);
          byCollection := byCollection[c := [f]];
          order := order + [c];
        }
      }
      i := i + 1;
    }
    assert fs[..i] == fs;
    CollectionOrderIsCollections(fs);
  }

  /** The summary line printed for each collection shows the fourth
      `__`-separated field of its newest file name (the field after the
      collection); the name has one exactly when the text after the prefix
      holds a second `__`. */
  predicate HasFourthField(f: string) {
    |FilePrefix| <= |f| && SplitOnce(f[|FilePrefix|..], "__").1.Some?
  }

  /** Printing collection `c`'s summary line raises `IndexError`: its newest
      file name has no fourth field. */
  predicate SummaryRaises(fs: seq<string>, c: string) {
    c in Collections(fs) && !HasFourthField(Latest(fs, c))
  }

  /** A listing of one kept file raises exactly when that file's name has no
      fourth field. */
  lemma SingleFileSummary(f: string)
    requires IsAacFile(f)
    ensures Collections([f]) == {CollectionOf(f)}
    ensures SummaryRaises([f], CollectionOf(f)) <==> !HasFourthField(f)
  {
    var fs := [f];
    assert fs[..0] == [];
    assert FilesOf(fs, CollectionOf(f)) == [f];
    LatestIsNewest(fs, CollectionOf(f));
  }

  /** A kept file name with three fields only. */
  lemma ShortNameIsKept()
    ensures var f := "annas_archive_meta__aacid__x.jsonl.seekable.zst";
      IsAacFile(f) && !HasFourthField(f)
  {
    var f := "annas_archive_meta__aacid__x.jsonl.seekable.zst";
    assert f[..|FilePrefix|] == FilePrefix;
    assert f[|f| - |FileSuffix|..] == FileSuffix;
    var rest := f[|FilePrefix|..];
    assert rest == "x.jsonl.seekable.zst";
    assert forall j :: 0 <= j < |rest| ==> rest[j] != '_';
    FirstIndexOfMissingStart(rest, "__");
  }

  /** So the listing holding just that file raises while printing the
      summary of its collection. */
  lemma ShortNameRaises()
    ensures var f := "annas_archive_meta__aacid__x.jsonl.seekable.zst";
      IsAacFile(f) && SummaryRaises([f], CollectionOf(f))
  {
    ShortNameIsKept();
    SingleFileSummary("annas_archive_meta__aacid__x.jsonl.seekable.zst");
  }

  lemma NeedsIndexingByMembers(fs: seq<string>, recorded: map<string, string>, need: map<string, string>)
    requires forall c :: c in need <==> c in Collections(fs) && Latest(fs, c) != RecordedOrEmpty(recorded, c)
    requires forall c :: c in need ==> need[c] == Latest(fs, c)
    ensures need == NeedsIndexing(fs, recorded)
  {
  }

  /** The state of the selection loop after the first `j` collections of
      `order`: none of their summary lines raised, and `need` holds those of
      them whose newest file changed, with that file. */
  ghost predicate SelectedUpTo(fs: seq<string>, recorded: map<string, string>, order: seq<string>, j: nat,
                               need: map<string, string>) {
    j <= |order| && NoneRaised(fs, order[..j]) && SelectedMembers(fs, recorded, order[..j], need) &&
    SelectedValues(fs, need)
  }

  /** No collection of `seen` has a summary line that raises. */
  ghost predicate NoneRaised(fs: seq<string>, seen: seq<string>) {
    forall k :: 0 <= k < |seen| ==> !SummaryRaises(fs, seen[k])
  }

  /** Every collection in `need` maps to its newest file. */
  ghost predicate SelectedValues(fs: seq<string>, need: map<string, string>) {
    forall c :: c in need ==> c in Collections(fs) && need[c] == Latest(fs, c)
  }

  /** `need` holds exactly the collections of `seen` whose newest file changed. */
  ghost predicate SelectedMembers(fs: seq<string>, recorded: map<string, string>, seen: seq<string>,
                                  need: map<string, string>) {
    forall c :: c in need <==> c in seen && c in Collections(fs) && Latest(fs, c) != RecordedOrEmpty(recorded, c)
  }

  lemma SelectedMembersStep(fs: seq<string>, recorded: map<string, string>, seen: seq<string>,
                            need: map<string, string>, c: string, latest: string)
    requires SelectedMembers(fs, recorded, seen, need) && c in Collections(fs) && latest == Latest(fs, c)
    ensures SelectedMembers(fs, recorded, seen + [c],
                            if latest != RecordedOrEmpty(recorded, c) then need[c := latest] else need)
  {
    var need' := if latest != RecordedOrEmpty(recorded, c) then need[c := latest] else need;
    forall d ensures d in need' <==> d in seen + [c] && d in Collections(fs) && Latest(fs, d) != RecordedOrEmpty(recorded, d) {
      if d != c {
        assert d in need' <==> d in need;
      }
    }
  }

  /** One pass of the loop whose summary line prints. */
  lemma SelectedStep(fs: seq<string>, recorded: map<string, string>, order: seq<string>, j: nat,
                     need: map<string, string>, latest: string)
    requires SelectedUpTo(fs, recorded, order, j, need) && j < |order| && order[j] in Collections(fs)
    requires latest == Latest(fs, order[j]) && HasFourthField(latest)
    ensures SelectedUpTo(fs, recorded, order, j + 1,
                         if latest != RecordedOrEmpty(recorded, order[j]) then need[order[j] := latest] else need)
  {
    var c := order[j];
    assert order[..j + 1] == order[..j] + [c];
    assert !SummaryRaises(fs, c);
    assert NoneRaised(fs, order[..j] + [c]) by {
      NoneRaisedStep(fs, order[..j], c);
    }
    SelectedMembersStep(fs, recorded, order[..j], need, c, latest);
    SelectedValuesStep(fs, recorded, need, c, latest);
  }

  lemma NoneRaisedStep(fs: seq<string>, seen: seq<string>, c: string)
    requires NoneRaised(fs, seen) && !SummaryRaises(fs, c)
    ensures NoneRaised(fs, seen + [c])
  {
    assert forall k :: 0 <= k < |seen| ==> (seen + [c])[k] == seen[k];
  }

  lemma SelectedValuesStep(fs: seq<string>, recorded: map<string, string>, need: map<string, string>,
                           c: string, latest: string)
    requires SelectedValues(fs, need) && c in Collections(fs) && latest == Latest(fs, c)
    ensures SelectedValues(fs, if latest != RecordedOrEmpty(recorded, c) then need[c := latest] else need)
  {
  }

  /** The loop that went through every collection without raising has
      selected exactly `NeedsIndexing`. */
  lemma SelectedAll(fs: seq<string>, recorded: map<string, string>, need: map<string, string>)
    requires SelectedUpTo(fs, recorded, CollectionOrder(fs), |CollectionOrder(fs)|, need)
    ensures need == NeedsIndexing(fs, recorded)
    ensures forall c :: !SummaryRaises(fs, c)
  {
    var order := CollectionOrder(fs);
    CollectionOrderIsCollections(fs);
    assert order[..|order|] == order;
    forall c ensures !SummaryRaises(fs, c) {
      if c in Collections(fs) {
        var k :| 0 <= k < |order| && order[k] == c;
      }
    }
    NeedsIndexingByMembers(fs, recorded, need);
  }

  /** Keeps the collections whose newest file changed, as the indexer's loop
      over the grouped listing does (sorting each list and taking its last
      element is taking its greatest element). The loop also prints each
      collection's summary line, which raises at the first collection, in
      listing order, whose newest file name has no fourth field:
      `unprintable` names it. */
  method SelectCollectionsToIndex(fs: seq<string>, recorded: map<string, string>)
    returns (order: seq<string>, need: map<string, string>, unprintable: Option<string>)
    ensures order == CollectionOrder(fs)
    ensures unprintable.None? <==> forall c :: !SummaryRaises(fs, c)
    ensures unprintable.None? ==> need == NeedsIndexing(fs, recorded)
    ensures unprintable.Some? ==>
      exists j :: 0 <= j < |order| && order[j] == unprintable.value && SummaryRaises(fs, order[j]) &&
                  (forall k :: 0 <= k < j ==> !SummaryRaises(fs, order[k]))
  {
    var byCollection;
    order, byCollection := GroupByCollection(fs);
    CollectionOrderIsCollections(fs);
    need := map[];
    var j := 0;
    while j < |order|
      invariant SelectedUpTo(fs, recorded, order, j, need)
    {
      var c := order[j];
      FilesOfNonEmpty(fs, c);
      var latest := Greatest(byCollection[c]);
      assert latest == Latest(fs, c);
      var previous := if c in recorded then recorded[c] else "";
      if !HasFourthField(latest) {
        assert SummaryRaises(fs, order[j]);
        return order, need, Some(c);
      }
      SelectedStep(fs, recorded, order, j, need, latest);
      if latest != previous {
        need := need[c := latest];
      }
      j := j + 1;
    }
    SelectedAll(fs, recorded, need);
    unprintable := None;
  }
}
