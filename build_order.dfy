/** `elastic_build_aarecords_all_internal` (allthethings/cli/views.py): the
    order in which the per-source build steps run, and the tables each step
    creates afresh, reads, and fills. */
module BuildOrder {
  import opened Job

  /** One `elastic_build_aarecords_*_internal` step. */
  datatype Step = Oclc | Edsebk | Magzdb | Nexusstc | Ia | Isbndb | Ol | Duxiu | Main | Forcemerge

  /** The steps in the order `elastic_build_aarecords_all_internal` runs them. */
  const AllOrder: seq<Step> := [Oclc, Edsebk, Magzdb, Nexusstc, Ia, Isbndb, Ol, Duxiu, Main, Forcemerge]

  /** The tables a step drops and re-creates before it submits any job: its
      codes table (`new_tables_internal`) and the cross-reference tables it is
      the one to fill. The main step drops `temp_md5_with_doi_seen` again once
      its jobs are done (allthethings/cli/views.py:1335); that drop is not modelled.
      Scratch tables that a step creates and drops again itself, such as the ia
      step's `temp_ia_ids` (allthethings/cli/views.py:813-814, 839), are neither
      codes nor cross-reference tables and are not listed. */
  function Creates(s: Step): set<string> {
    match s
    case Oclc => {"aarecords_codes_oclc", "isbn13_oclc"}
    case Edsebk => {"aarecords_codes_edsebk", "isbn13_edsebk"}
    case Magzdb => {"aarecords_codes_magzdb"}
    case Nexusstc => {"aarecords_codes_nexusstc", "nexusstc_cid_only"}
    case Ia => {"aarecords_codes_ia"}
    case Isbndb => {"aarecords_codes_isbndb"}
    case Ol => {"aarecords_codes_ol"}
    case Duxiu => {"aarecords_codes_duxiu"}
    case Main => {"aarecords_codes_main", "aarecords_all_md5", "temp_md5_with_doi_seen"}
    case Forcemerge => {}
  }

  /** The id prefixes of the chunks a step submits. */
  function Prefixes(s: Step): set<string> {
    match s
    case Oclc => {"oclc"}
    case Edsebk => {"edsebk"}
    case Magzdb => {"magzdb"}
    case Nexusstc => {"nexusstc"}
    case Ia => {"ia"}
    case Isbndb => {"isbn"}
    case Ol => {"ol"}
    case Duxiu => {"duxiu_ssid", "cadal_ssno"}
    case Main => {"md5", "doi", "nexusstc_download"}
    case Forcemerge => {}
  }

  /** The cross-reference tables a step reads. The record resolver is not part
      of this model. The build order says that the steps after `Oclc` use
      `isbn13_oclc`, and that the steps after `Edsebk` use `isbn13_edsebk`, so
      every such step is taken to read them. The main step also pages through
      `nexusstc_cid_only` and filters dois through `temp_md5_with_doi_seen`. */
  function Reads(s: Step): set<string> {
    match s
    case Oclc => {}
    case Edsebk => {"isbn13_oclc"}
    case Main => {"isbn13_oclc", "isbn13_edsebk", "nexusstc_cid_only", "temp_md5_with_doi_seen"}
    case Forcemerge => {}
    case _ => {"isbn13_oclc", "isbn13_edsebk"}
  }

  /** Every table a step reads has been created by that step or an earlier
      one. */
  lemma ReadsAfterCreation(i: nat, t: string)
    requires i < |AllOrder| && t in Reads(AllOrder[i])
    ensures exists j :: 0 <= j <= i && t in Creates(AllOrder[j])
  {
    if t == "isbn13_oclc" {
      assert t in Creates(AllOrder[0]);
    } else if t == "isbn13_edsebk" {
      assert t in Creates(AllOrder[1]);
    } else if t == "nexusstc_cid_only" {
      assert t in Creates(AllOrder[3]);
    } else {
      assert t in Creates(AllOrder[8]);
    }
  }

  /** No two steps create the same table, so no step drops what an earlier
      one filled. */
  lemma CreatesDisjoint(i: nat, j: nat)
    requires i < j < |AllOrder|
    ensures Creates(AllOrder[i]) !! Creates(AllOrder[j])
  {
  }

  /** Every code row a step's jobs write goes to the codes table that step has
      just created. */
  lemma CodesGoToOwnTable(s: Step, p: string)
    requires p in Prefixes(s)
    ensures p in CodesTableOf && CodesTableOf[p] in Creates(s)
  {
    match s
    case Oclc => assert CodesTableOf[p] == "aarecords_codes_oclc";
    case Edsebk => assert CodesTableOf[p] == "aarecords_codes_edsebk";
    case Magzdb => assert CodesTableOf[p] == "aarecords_codes_magzdb";
    case Nexusstc => assert CodesTableOf[p] == "aarecords_codes_nexusstc";
    case Ia => assert CodesTableOf[p] == "aarecords_codes_ia";
    case Isbndb => assert CodesTableOf[p] == "aarecords_codes_isbndb";
    case Ol => assert CodesTableOf[p] == "aarecords_codes_ol";
    case Duxiu => assert CodesTableOf[p] == "aarecords_codes_duxiu";
    case Main => assert CodesTableOf[p] == "aarecords_codes_main";
  }

  /** The steps between them submit ids of every prefix that has a codes
      table. */
  lemma EveryPrefixHasAStep(p: string)
    requires p in CodesTableOf
    ensures exists i :: 0 <= i < |AllOrder| && p in Prefixes(AllOrder[i])
  {
    if p == "oclc" { assert p in Prefixes(AllOrder[0]); }
    else if p == "edsebk" { assert p in Prefixes(AllOrder[1]); }
    else if p == "magzdb" { assert p in Prefixes(AllOrder[2]); }
    else if p == "nexusstc" { assert p in Prefixes(AllOrder[3]); }
    else if p == "ia" { assert p in Prefixes(AllOrder[4]); }
    else if p == "isbn" { assert p in Prefixes(AllOrder[5]); }
    else if p == "ol" { assert p in Prefixes(AllOrder[6]); }
    else if p == "duxiu_ssid" || p == "cadal_ssno" { assert p in Prefixes(AllOrder[7]); }
    else { assert p in Prefixes(AllOrder[8]); }
  }
}
