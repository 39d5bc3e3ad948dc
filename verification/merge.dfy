/** The quarterly statement merge of concat.py (`merge_quarterly_data`): the
    quarterly reports of the income statement, the balance sheet and the cash
    flow statement of one ticker are folded into one record per fiscal date.
    Values are kept opaque (`V`); the value stored under `fiscalDateEnding`
    becomes the date key, exactly as the source uses it. */
module StatementMerge {
  import opened Results

  const FiscalDateKey: string := "fiscalDateEnding"

  /** The sections read, in the order they are merged. */
  const SectionNames: seq<string> := ["income_statement", "balance_sheet", "cash_flow"]

  /** One period report: field name to value, the fiscal date included. */
  type Report<V> = map<string, V>

  /** What a bundle holds under a section name: JSON `null`, or an object
      that may or may not have a `quarterlyReports` list. */
  datatype Section<V> = NullSection | SectionObject(quarterlyReports: Option<seq<Report<V>>>)

  /** One ticker's raw file: top-level key to section. */
  type Bundle<V> = map<string, Section<V>>

  /** The merged file: fiscal date to (field to value). */
  type Merged<V> = map<V, map<string, V>>

  /** The exceptions that abort the merge of one file. */
  datatype MergeError =
    | NullSectionError(section: string)  // `.get` called on `None`
    | MissingFiscalDate(section: string) // `report["fiscalDateEnding"]` raises

  ghost predicate Dated<V(!new)>(reports: seq<Report<V>>) {
    forall i :: 0 <= i < |reports| ==> FiscalDateKey in reports[i]
  }

  /** Report `report` writes `k` under date `d`. */
  ghost predicate Carries<V(!new)>(report: Report<V>, d: V, k: string) {
    && FiscalDateKey in report
    && report[FiscalDateKey] == d
    && k != FiscalDateKey
    && k in report
  }

  /** Report `i` is the last of `reports` that writes `k` under date `d`. */
  ghost predicate LastCarrier<V(!new)>(reports: seq<Report<V>>, i: int, d: V, k: string) {
    && 0 <= i < |reports|
    && Carries(reports[i], d, k)
    && forall j :: i < j < |reports| ==> !Carries(reports[j], d, k)
  }

  /** The reports one section contributes, or the error reading it raises. */
  function SectionReports<V(!new)>(bundle: Bundle<V>, name: string): (r: Result<seq<Report<V>>, MergeError>)
    ensures name !in bundle ==> r == Ok([])
    ensures name in bundle && bundle[name].NullSection? ==> r == Err(NullSectionError(name))
    ensures name in bundle && bundle[name].SectionObject? && bundle[name].quarterlyReports.None? ==> r == Ok([])
    ensures name in bundle && bundle[name].SectionObject? && bundle[name].quarterlyReports.Some? ==>
              var reports := bundle[name].quarterlyReports.value;
              (r.Ok? <==> Dated(reports)) && (r.Ok? ==> r.value == reports) && (r.Err? ==> r.error == MissingFiscalDate(name))
    ensures r.Ok? ==> Dated(r.value)
  {
    if name !in bundle then Ok([])
    else match bundle[name]
      case NullSection => Err(NullSectionError(name))
      case SectionObject(quarterly) =>
        var reports := if quarterly.Some? then quarterly.value else [];
        if forall i :: 0 <= i < |reports| ==> FiscalDateKey in reports[i] then Ok(reports)
        else Err(MissingFiscalDate(name))
  }

  /** The reports of the named sections, concatenated in the order of `names`;
      the first failing section (in that order) decides the error. */
  function CollectReports<V(!new)>(bundle: Bundle<V>, names: seq<string>): (r: Result<seq<Report<V>>, MergeError>)
    ensures r.Ok? <==> forall j :: 0 <= j < |names| ==> SectionReports(bundle, names[j]).Ok?
    ensures r.Ok? ==> Dated(r.value)
    ensures r.Err? ==> exists j :: 0 <= j < |names| && SectionReports(bundle, names[j]) == Err(r.error) &&
                                 forall i :: 0 <= i < j ==> SectionReports(bundle, names[i]).Ok?
    decreases |names|
  {
    if |names| == 0 then Ok([])
    else
      var first :- SectionReports(bundle, names[0]);
      var rest :- CollectReports(bundle, names[1..]);
      Ok(first + rest)
  }

  /** The reports of the whole bundle come income first, balance second and
      cash flow last, each in list order. */
  lemma CollectedInSectionOrder<V(!new)>(bundle: Bundle<V>)
    requires CollectReports(bundle, SectionNames).Ok?
    ensures SectionReports(bundle, SectionNames[0]).Ok?
    ensures SectionReports(bundle, SectionNames[1]).Ok?
    ensures SectionReports(bundle, SectionNames[2]).Ok?
    ensures CollectReports(bundle, SectionNames).value ==
              SectionReports(bundle, SectionNames[0]).value
              + SectionReports(bundle, SectionNames[1]).value
              + SectionReports(bundle, SectionNames[2]).value
  {
    var names := SectionNames;
    assert names[1..][1..][1..] == [];
    var s0 := SectionReports(bundle, names[0]).value;
    var s1 := SectionReports(bundle, names[1]).value;
    var s2 := SectionReports(bundle, names[2]).value;
    assert CollectReports(bundle, names[1..][1..]).value == s2 + [];
    assert CollectReports(bundle, names[1..]).value == s1 + (s2 + []);
    assert s0 + (s1 + (s2 + [])) == s0 + s1 + s2;
  }

  /** The inner loop over one report: every field but the fiscal date is
      written under the report's date, overwriting what was there. A report
      with no other field leaves the dates untouched, because the source only
      creates a date's entry on its first write. */
  function Absorb<V(!new)>(acc: Merged<V>, report: Report<V>): (r: Merged<V>)
    requires FiscalDateKey in report
    ensures forall d :: d in r <==> d in acc || exists k :: Carries(report, d, k)
    ensures forall d, k :: (d in r && k in r[d]) <==> ((d in acc && k in acc[d]) || Carries(report, d, k))
    ensures forall d, k :: d in r && k in r[d] && Carries(report, d, k) ==> r[d][k] == report[k]
    ensures forall d, k :: d in r && k in r[d] && !Carries(report, d, k) ==> r[d][k] == acc[d][k]
  {
    var d := report[FiscalDateKey];
    var fields := report - {FiscalDateKey};
    if fields == map[] then
      assert forall e, k :: Carries(report, e, k) ==> k in fields;
      acc
    else
      var k0 :| k0 in fields;
      assert Carries(report, d, k0);
      acc[d := (if d in acc then acc[d] else map[]) + fields]
  }

  /** The loop over all collected reports, in order. */
  function Fold<V(!new)>(reports: seq<Report<V>>): Merged<V>
    requires Dated(reports)
    decreases |reports|
  {
    if |reports| == 0 then map[]
    else Absorb(Fold(reports[..|reports| - 1]), reports[|reports| - 1])
  }

  /** Coverage: a (date, field) pair is in the fold iff some report carries
      it, and a date is there iff some report writes a field under it. */
  lemma {:induction false} FoldCoverage<V(!new)>(reports: seq<Report<V>>)
    requires Dated(reports)
    ensures forall d, k :: (d in Fold(reports) && k in Fold(reports)[d]) <==>
              exists i :: 0 <= i < |reports| && Carries(reports[i], d, k)
    ensures forall d :: d in Fold(reports) <==>
              exists i, k :: 0 <= i < |reports| && Carries(reports[i], d, k)
    decreases |reports|
  {
    if |reports| > 0 {
      var n := |reports| - 1;
      var init := reports[..n];
      assert forall i :: 0 <= i < n ==> init[i] == reports[i];
      FoldCoverage(init);
      forall d, k
        ensures (d in Fold(reports) && k in Fold(reports)[d]) <==>
                exists i :: 0 <= i < |reports| && Carries(reports[i], d, k)
      {
        if exists i :: 0 <= i < |reports| && Carries(reports[i], d, k) {
          var i :| 0 <= i < |reports| && Carries(reports[i], d, k);
          if i < n {
            assert Carries(init[i], d, k);
          }
        }
      }
      forall d
        ensures d in Fold(reports) <==> exists i, k :: 0 <= i < |reports| && Carries(reports[i], d, k)
      {
        if d in Fold(reports) {
          if d in Fold(init) {
            var i, k :| 0 <= i < n && Carries(init[i], d, k);
            assert Carries(reports[i], d, k);
          } else {
            var k :| Carries(reports[n], d, k);
          }
        }
        if exists i, k :: 0 <= i < |reports| && Carries(reports[i], d, k) {
          var i, k :| 0 <= i < |reports| && Carries(reports[i], d, k);
          if i < n {
            assert Carries(init[i], d, k);
          }
        }
      }
    }
  }

  /** Collision rule: the value under (date, field) is the one written by the
      last report that carries that pair. */
  lemma {:induction false} FoldLastWins<V(!new)>(reports: seq<Report<V>>, i: int, d: V, k: string)
    requires Dated(reports)
    requires LastCarrier(reports, i, d, k)
    ensures d in Fold(reports) && k in Fold(reports)[d]
    ensures Fold(reports)[d][k] == reports[i][k]
    decreases |reports|
  {
    var n := |reports| - 1;
    var init := reports[..n];
    assert forall j :: 0 <= j < n ==> init[j] == reports[j];
    if i < n {
      FoldLastWins(init, i, d, k);
      assert !Carries(reports[n], d, k);
    }
  }

  lemma LastWinsEverywhere<V(!new)>(reports: seq<Report<V>>)
    requires Dated(reports)
    ensures forall i, d, k :: LastCarrier(reports, i, d, k) ==>
              d in Fold(reports) && k in Fold(reports)[d] && Fold(reports)[d][k] == reports[i][k]
  {
    forall i, d, k | LastCarrier(reports, i, d, k)
      ensures d in Fold(reports) && k in Fold(reports)[d] && Fold(reports)[d][k] == reports[i][k]
    {
      FoldLastWins(reports, i, d, k);
    }
  }

  /** `merge_quarterly_data` for one file. With `rs` the reports in merge
      order (income, balance, cash flow; list order within each): the merged
      dates are exactly the dates some report writes a field under, each
      merged record holds exactly the fields written under its date, never
      the fiscal date itself, and a value is the one of the last report that
      writes it. */
  function MergeQuarterly<V(!new)>(bundle: Bundle<V>): (r: Result<Merged<V>, MergeError>)
    ensures r.Ok? <==> CollectReports(bundle, SectionNames).Ok?
    ensures r.Err? ==> r.error == CollectReports(bundle, SectionNames).error
    ensures r.Ok? ==> forall d :: d in r.value ==> FiscalDateKey !in r.value[d]
    ensures r.Ok? ==>
              var rs := CollectReports(bundle, SectionNames).value;
              && (forall d :: d in r.value <==> exists i, k :: 0 <= i < |rs| && Carries(rs[i], d, k))
              && (forall d, k :: (d in r.value && k in r.value[d]) <==>
                    exists i :: 0 <= i < |rs| && Carries(rs[i], d, k))
              && (forall i, d, k :: LastCarrier(rs, i, d, k) ==>
                    d in r.value && k in r.value[d] && r.value[d][k] == rs[i][k])
  {
    var rs :- CollectReports(bundle, SectionNames);
    FoldCoverage(rs);
    LastWinsEverywhere(rs);
    Ok(Fold(rs))
  }
}
