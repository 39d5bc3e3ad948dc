/** The as-of (fill-forward) date filter of concat.py
    (`filter_stock_data_by_dates`): each target date receives the payload of
    the latest source date on or before it, and target dates earlier than
    every source date are left out. */
module AsOfFilter {
  import opened Results
  import opened Types

  /** `d` is the greatest date of `dates` that is not after `t`. */
  ghost predicate IsLatestOnOrBefore(dates: set<Date>, t: Date, d: Date) {
    && d in dates
    && d <= t
    && forall e :: e in dates && e <= t ==> e <= d
  }

  /** `max(date for date in data_dates if date <= target_date)`, with
      `None` for an empty candidate list. */
  method LatestOnOrBefore(dates: set<Date>, t: Date) returns (r: Option<Date>)
    ensures r.None? <==> forall e :: e in dates ==> t < e
    ensures r.Some? ==> IsLatestOnOrBefore(dates, t, r.value)
  {
    r := None;
    var rest := dates;
    while true
      invariant rest <= dates
      invariant r.None? ==> forall e :: e in dates && e !in rest ==> t < e
      invariant r.Some? ==> r.value in dates && r.value !in rest && r.value <= t
      invariant r.Some? ==> forall e :: e in dates && e !in rest && e <= t ==> e <= r.value
      decreases rest
    {
      if x :| x in rest {
        if x <= t && (r.None? || r.value < x) {
          r := Some(x);
        }
        rest := rest - {x};
      } else {
        break;
      }
    }
  }

  /** The filtered file for the targets `targets` and source file `data`:
      its dates are the targets that have a source date on or before them,
      and each maps to the payload of the latest such source date. */
  ghost predicate IsAsOfView<P>(targets: seq<Date>, data: map<Date, P>, out: map<Date, P>) {
    && (forall t :: t in out <==> t in targets && exists d :: d in data && d <= t)
    && (forall t :: t in out ==> exists d :: IsLatestOnOrBefore(data.Keys, t, d) && out[t] == data[d])
  }

  /** The filtering loop for one file. The source sorts the targets first;
      that only orders the keys of the written JSON object, which a map does
      not have, and `AsOfViewIsUnique` shows the order cannot matter. */
  method FilterByDates<P>(targets: seq<Date>, data: map<Date, P>) returns (out: map<Date, P>)
    ensures IsAsOfView(targets, data, out)
  {
    out := map[];
    for i := 0 to |targets|
      invariant forall t :: t in out <==> t in targets[..i] && exists d :: d in data && d <= t
      invariant forall t :: t in out ==> exists d :: IsLatestOnOrBefore(data.Keys, t, d) && out[t] == data[d]
    {
      var t := targets[i];
      var latest := LatestOnOrBefore(data.Keys, t);
      if latest.Some? {
        out := out[t := data[latest.value]];
      }
    }
    assert targets[..|targets|] == targets;
  }

  /** The edge cases of the as-of view: an exact match gets its own payload,
      a target before every source date is absent, and a target after every
      source date gets the payload of the last one. */
  lemma AsOfViewEdges<P>(targets: seq<Date>, data: map<Date, P>, out: map<Date, P>)
    requires IsAsOfView(targets, data, out)
    ensures forall t :: t in targets && t in data ==> t in out && out[t] == data[t]
    ensures forall t :: t in targets && (forall d :: d in data ==> t < d) ==> t !in out
    ensures forall t, last :: t in targets && last in data && last <= t && (forall d :: d in data ==> d <= last) ==>
              t in out && out[t] == data[last]
  {
    forall t | t in out
      ensures forall d :: IsLatestOnOrBefore(data.Keys, t, d) ==> out[t] == data[d]
    {
      var d0 :| IsLatestOnOrBefore(data.Keys, t, d0) && out[t] == data[d0];
      LatestIsUnique(data.Keys, t, d0);
    }
  }

  lemma LatestIsUnique(dates: set<Date>, t: Date, d: Date)
    requires IsLatestOnOrBefore(dates, t, d)
    ensures forall e :: IsLatestOnOrBefore(dates, t, e) ==> e == d
  {
  }

  /** The filtered file depends on the targets only as a set: reordering or
      repeating target dates gives the same result. */
  lemma AsOfViewIsUnique<P>(targets1: seq<Date>, targets2: seq<Date>, data: map<Date, P>,
                            out1: map<Date, P>, out2: map<Date, P>)
    requires forall t :: t in targets1 <==> t in targets2
    requires IsAsOfView(targets1, data, out1)
    requires IsAsOfView(targets2, data, out2)
    ensures out1 == out2
  {
    forall t
      ensures t in out1 <==> t in out2
    {
      if t in out1 {
        var d :| d in data && d <= t;
        assert t in targets2;
      }
      if t in out2 {
        var d :| d in data && d <= t;
        assert t in targets1;
      }
    }
    assert out1.Keys == out2.Keys;
    forall t | t in out1
      ensures out1[t] == out2[t]
    {
      var d1 :| IsLatestOnOrBefore(data.Keys, t, d1) && out1[t] == data[d1];
      var d2 :| IsLatestOnOrBefore(data.Keys, t, d2) && out2[t] == data[d2];
      LatestIsUnique(data.Keys, t, d1);
    }
  }
}
