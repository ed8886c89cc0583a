/** The `computed_all_md5s` table: every known file md5 with the priority of
    the first source that listed it (allthethings/cli/views.py,
    `mysql_build_computed_all_md5s_internal`). */
module Md5Union {

  /** A file hash as stored: the 16 bytes `UNHEX(md5)` yields. */
  type Md5 = seq<bv8>

  /** The table after seeding it from `seed` with `first_source = 1`. */
  function Seeded(seed: set<Md5>): map<Md5, nat> {
    map h | h in seed :: 1
  }

  /** `INSERT IGNORE` of `hashes` with `first_source = priority`: a hash
      already present keeps its row. */
  function InsertIgnored(t: map<Md5, nat>, hashes: set<Md5>, priority: nat): (r: map<Md5, nat>)
    ensures r.Keys == t.Keys + hashes
    ensures forall h :: h in t ==> r[h] == t[h]
    ensures forall h :: h in hashes && h !in t ==> r[h] == priority
  {
    map h | h in t.Keys + hashes :: if h in t then t[h] else priority
  }

  /** The insert steps in the order they run, each with its priority. */
  function ApplyAll(t: map<Md5, nat>, steps: seq<(nat, set<Md5>)>): map<Md5, nat> {
    if |steps| == 0 then t
    else
      var last := steps[|steps| - 1];
      InsertIgnored(ApplyAll(t, steps[..|steps| - 1]), last.1, last.0)
  }

  predicate StrictlyAscending(steps: seq<(nat, set<Md5>)>) {
    forall i, j :: 0 <= i < j < |steps| ==> steps[i].0 < steps[j].0
  }

  /** Every hash of some step (or of the seed) is in the table, and nothing else. */
  lemma {:induction false} ApplyAllKeys(seed: set<Md5>, steps: seq<(nat, set<Md5>)>)
    ensures forall h :: h in ApplyAll(Seeded(seed), steps) <==>
      h in seed || exists i :: 0 <= i < |steps| && h in steps[i].1
  {
    if |steps| > 0 {
      var init := steps[..|steps| - 1];
      ApplyAllKeys(seed, init);
      forall h | exists i :: 0 <= i < |steps| && h in steps[i].1
        ensures h in ApplyAll(Seeded(seed), steps)
      {
        var i :| 0 <= i < |steps| && h in steps[i].1;
        if i < |steps| - 1 {
          assert init[i] == steps[i];
        }
      }
      forall h | h in ApplyAll(Seeded(seed), steps) && h !in seed
        ensures exists i :: 0 <= i < |steps| && h in steps[i].1
      {
        if h in ApplyAll(Seeded(seed), init) {
          var i :| 0 <= i < |init| && h in init[i].1;
          assert steps[i] == init[i];
        } else {
          assert h in steps[|steps| - 1].1;
        }
      }
    }
  }

  lemma AscendingPrefix(steps: seq<(nat, set<Md5>)>)
    requires |steps| > 0 && StrictlyAscending(steps)
    ensures StrictlyAscending(steps[..|steps| - 1])
  {
  }

  /** `p` is 1 for a seeded hash, otherwise the priority of a step holding
      `h` that no step holding `h` undercuts. */
  ghost predicate IsFirstSource(seed: set<Md5>, steps: seq<(nat, set<Md5>)>, h: Md5, p: nat) {
    if h in seed then p == 1
    else exists i :: (0 <= i < |steps| && h in steps[i].1 && p == steps[i].0 &&
      forall j :: 0 <= j < |steps| && h in steps[j].1 ==> steps[i].0 <= steps[j].0)
  }

  lemma FirstSourceKept(seed: set<Md5>, steps: seq<(nat, set<Md5>)>, h: Md5, p: nat)
    requires |steps| > 0 && StrictlyAscending(steps)
    requires IsFirstSource(seed, steps[..|steps| - 1], h, p)
    ensures IsFirstSource(seed, steps, h, p)
  {
    var init := steps[..|steps| - 1];
    if h !in seed {
      var i :| 0 <= i < |init| && h in init[i].1 && p == init[i].0 &&
        forall j :: 0 <= j < |init| && h in init[j].1 ==> init[i].0 <= init[j].0;
      assert steps[i] == init[i];
      forall j | 0 <= j < |steps| && h in steps[j].1 ensures steps[i].0 <= steps[j].0 {
        if j < |init| {
          assert steps[j] == init[j];
        }
      }
    }
  }

  lemma FirstSourceNew(seed: set<Md5>, steps: seq<(nat, set<Md5>)>, h: Md5)
    requires |steps| > 0
    requires h !in seed && h in steps[|steps| - 1].1
    requires forall i :: 0 <= i < |steps| - 1 ==> h !in steps[i].1
    ensures IsFirstSource(seed, steps, h, steps[|steps| - 1].0)
  {
    assert forall j :: 0 <= j < |steps| && h in steps[j].1 ==> j == |steps| - 1;
  }

  /** With the steps in strictly ascending priority, a seeded hash keeps
      `first_source = 1` and any other hash gets the smallest priority among
      the steps that contain it. */
  lemma {:induction false} FirstSourceIsMinimum(seed: set<Md5>, steps: seq<(nat, set<Md5>)>, h: Md5)
    requires StrictlyAscending(steps)
    requires h in ApplyAll(Seeded(seed), steps)
    ensures IsFirstSource(seed, steps, h, ApplyAll(Seeded(seed), steps)[h])
  {
    if |steps| > 0 {
      var init := steps[..|steps| - 1];
      AscendingPrefix(steps);
      if h in ApplyAll(Seeded(seed), init) {
        FirstSourceIsMinimum(seed, init, h);
        FirstSourceKept(seed, steps, h, ApplyAll(Seeded(seed), init)[h]);
      } else {
        ApplyAllKeys(seed, init);
        FirstSourceNew(seed, steps, h);
      }
    }
  }

  /** The rows each source query of the builder selects, after its `WHERE`
      filters and joins. */
  datatype Md5Sources = Md5Sources(
    libgenliFiles: set<Md5>,
    zlibBookMd5Reported: set<Md5>,
    zlibBookMd5: set<Md5>,
    libgenrsFiction: set<Md5>,
    libgenrsUpdated: set<Md5>,
    iaFilesWithoutLibgenMd5: set<Md5>,
    ia2AcsmpdfWithoutLibgenMd5: set<Md5>,
    ia2AcsmpdfWithRecords: set<Md5>,
    zlib3Records: set<Md5>,
    zlib3Files: set<Md5>,          // its step (priority 10) is disabled
    duxiuFiles: set<Md5>,
    uploadFilesWithRecords: set<Md5>,
    magzdbMultipleMd5: set<Md5>,
    nexusstcMultipleMd5: set<Md5>)

  /** The enabled insert steps, in the order the builder runs them. */
  function Steps(s: Md5Sources): seq<(nat, set<Md5>)> {
    [(2, s.zlibBookMd5Reported), (3, s.zlibBookMd5), (4, s.libgenrsFiction), (5, s.libgenrsUpdated),
     (6, s.iaFilesWithoutLibgenMd5), (7, s.ia2AcsmpdfWithoutLibgenMd5), (8, s.ia2AcsmpdfWithRecords),
     (9, s.zlib3Records), (11, s.duxiuFiles), (12, s.uploadFilesWithRecords),
     (13, s.magzdbMultipleMd5), (14, s.nexusstcMultipleMd5)]
  }

  lemma StepsAscending(s: Md5Sources)
    ensures StrictlyAscending(Steps(s))
    ensures forall i :: 0 <= i < |Steps(s)| ==> 1 < Steps(s)[i].0 <= 14 && Steps(s)[i].0 != 10
  {
  }

  /** The table `mysql_build_computed_all_md5s_internal` builds. */
  function ComputedAllMd5s(s: Md5Sources): map<Md5, nat> {
    ApplyAll(Seeded(s.libgenliFiles), Steps(s))
  }

  /** The built table holds exactly the hashes of the seed and of the enabled
      sources, with the priority of the first of them that lists each;
      `zlib3_files` contributes only through the other sources. */
  lemma ComputedAllMd5sMeaning(s: Md5Sources, h: Md5)
    ensures h in ComputedAllMd5s(s) <==>
      h in s.libgenliFiles || exists i :: 0 <= i < |Steps(s)| && h in Steps(s)[i].1
    ensures h in ComputedAllMd5s(s) ==>
      1 <= ComputedAllMd5s(s)[h] <= 14 && ComputedAllMd5s(s)[h] != 10 &&
      (h in s.libgenliFiles <==> ComputedAllMd5s(s)[h] == 1) &&
      forall i :: 0 <= i < |Steps(s)| && h in Steps(s)[i].1 ==> ComputedAllMd5s(s)[h] <= Steps(s)[i].0
  {
    ApplyAllKeys(s.libgenliFiles, Steps(s));
    StepsAscending(s);
    if h in ComputedAllMd5s(s) {
      FirstSourceIsMinimum(s.libgenliFiles, Steps(s), h);
      if h !in s.libgenliFiles {
        var i :| 0 <= i < |Steps(s)| && h in Steps(s)[i].1 && ComputedAllMd5s(s)[h] == Steps(s)[i].0 &&
          forall j :: 0 <= j < |Steps(s)| && h in Steps(s)[j].1 ==> Steps(s)[i].0 <= Steps(s)[j].0;
      }
    }
  }

  /** The table being built, which each step changes in place. */
  class Md5Table {
    var firstSource: map<Md5, nat>

    /** `CREATE TABLE … SELECT UNHEX(md5) AS md5, 1 AS first_source`. */
    constructor (seed: set<Md5>)
      ensures firstSource == Seeded(seed)
    {
      firstSource := Seeded(seed);
    }

    /** One `INSERT IGNORE … SELECT`, row by row. */
    method InsertIgnore(hashes: set<Md5>, priority: nat)
      modifies this
      ensures firstSource == InsertIgnored(old(firstSource), hashes, priority)
    {
      var remaining := hashes;
      while remaining != {}
        invariant remaining <= hashes
        invariant firstSource.Keys == old(firstSource).Keys + (hashes - remaining)
        invariant forall h :: h in old(firstSource) ==> firstSource[h] == old(firstSource)[h]
        invariant forall h :: h in hashes - remaining && h !in old(firstSource) ==> firstSource[h] == priority
        decreases remaining
      {
        var h :| h in remaining;
        if h !in firstSource {
          firstSource := firstSource[h := priority];
        }
        remaining := remaining - {h};
      }
    }
  }

  /** Drops and rebuilds the table, seeding it and then running each enabled
      step in turn. */
  method BuildComputedAllMd5s(s: Md5Sources) returns (t: Md5Table)
    ensures fresh(t)
    ensures t.firstSource == ComputedAllMd5s(s)
  {
    var steps := Steps(s);
    t := new Md5Table(s.libgenliFiles);
    var k := 0;
    while k < |steps|
      invariant 0 <= k <= |steps|
      invariant t.firstSource == ApplyAll(Seeded(s.libgenliFiles), steps[..k])
    {
      assert steps[..k + 1][..k] == steps[..k];
      t.InsertIgnore(steps[k].1, steps[k].0);
      k := k + 1;
    }
    assert steps[..k] == steps;
  }
}
