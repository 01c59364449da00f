/** Range reads return exactly the stored days of the range, oldest first. */
module StoreReads {
  import opened Calendar
  import opened LedgerSpec
  import opened StoreSpec
  import opened StoreTheorems

  predicate Ascending(days: seq<DayRecord>) {
    forall a, b :: 0 <= a < b < |days| ==> days[a].date < days[b].date
  }

  predicate Between(days: seq<DayRecord>, lo: nat, hi: nat) {
    forall a :: 0 <= a < |days| ==> lo <= days[a].date < hi
  }

  lemma JoinAscending(xs: seq<DayRecord>, ys: seq<DayRecord>, lo: nat, mid: nat, hi: nat)
    requires Ascending(xs) && Ascending(ys) && Between(xs, lo, mid) && Between(ys, mid, hi) && lo <= mid <= hi
    ensures Ascending(xs + ys) && Between(xs + ys, lo, hi)
  {
  }

  predicate SlotsOk(ym: nat, days: seq<DayRecord>) {
    forall i :: 0 <= i < |days| ==> days[i].date == 0 || days[i].date == ym * 100 + i + 1
  }

  /** One month: its occupied slots in range, in slot order. */
  lemma {:induction false} SlotsRead(ym: nat, days: seq<DayRecord>, from: nat, to: nat)
    requires SlotsOk(ym, days)
    ensures Ascending(SlotsInRange(days, from, to))
    ensures Between(SlotsInRange(days, from, to), ym * 100 + 1, ym * 100 + 1 + |days|)
    ensures forall r :: r in SlotsInRange(days, from, to) <==> r in days && InRange(r, from, to)
  {
    if days != [] {
      var init, last := days[..|days| - 1], days[|days| - 1];
      SlotsRead(ym, init, from, to);
      assert days == init + [last];
      if InRange(last, from, to) {
        JoinAscending(SlotsInRange(init, from, to), [last], ym * 100 + 1, ym * 100 + |days|, ym * 100 + |days| + 1);
      }
    }
  }

  /** A stored record of the range whose month is `ym` or later. */
  predicate StoredFrom(months: Months, ym: nat, from: nat, to: nat, r: DayRecord) {
    InRange(r, from, to) && exists k :: k in months && ym <= k && r in months[k].days
  }

  lemma MonthRead(months: Months, ym: nat, from: nat, to: nat)
    requires ValidStore(months)
    ensures Ascending(MonthDays(months, ym, from, to))
    ensures Between(MonthDays(months, ym, from, to), ym * 100 + 1, ym * 100 + 32)
    ensures forall r :: r in MonthDays(months, ym, from, to) <==>
        ym in months && r in months[ym].days && InRange(r, from, to)
  {
    if ym in months {
      assert BlobOk(ym, months[ym]);
      SlotsRead(ym, months[ym].days, from, to);
    }
  }

  /** The month after `ym` is the next that can hold a blob. */
  lemma NoMonthBetween(ym: nat, k: nat)
    requires ym <= UINT32 / 100 && ValidMonth(k) && ym < k
    ensures NextMonth(ym) <= k
  {
    var y, m := ym / 100, ym % 100;
    assert ym == y * 100 + m;
    assert k == k / 100 * 100 + k % 100;
  }

  lemma SlotMonth(months: Months, k: nat, r: DayRecord)
    requires ValidStore(months) && k in months && r in months[k].days && r.date != 0
    ensures MonthOf(r.date) == k
  {
    assert BlobOk(k, months[k]);
  }

  lemma {:induction false} DaysFromRead(months: Months, ym: nat, from: nat, to: nat)
    requires ValidStore(months) && to < UINT32
    ensures Ascending(DaysFrom(months, ym, from, to))
    ensures Between(DaysFrom(months, ym, from, to), ym * 100, UINT32 * 100)
    ensures forall r :: r in DaysFrom(months, ym, from, to) <==> StoredFrom(months, ym, from, to, r)
    decreases 1 + to / 100 - ym
  {
    hide ValidStore, MonthDays, NextMonth;
    if ym > to / 100 {
      forall r | StoredFrom(months, ym, from, to, r) ensures false {
        var k :| k in months && ym <= k && r in months[k].days;
        SlotMonth(months, k, r);
      }
    } else {
      NextMonthGrows(ym);
      var next := NextMonth(ym);
      DaysFromRead(months, next, from, to);
      MonthRead(months, ym, from, to);
      var here, rest := MonthDays(months, ym, from, to), DaysFrom(months, next, from, to);
      JoinMonths(here, rest, ym, next);
      forall r ensures r in here + rest <==> StoredFrom(months, ym, from, to, r) {
        SplitStored(months, ym, from, to, r);
      }
    }
  }

  lemma JoinMonths(here: seq<DayRecord>, rest: seq<DayRecord>, ym: nat, next: nat)
    requires ym < next && Ascending(here) && Ascending(rest)
    requires Between(here, ym * 100 + 1, ym * 100 + 32) && Between(rest, next * 100, UINT32 * 100)
    requires ym <= UINT32 / 100
    ensures Ascending(here + rest) && Between(here + rest, ym * 100, UINT32 * 100)
  {
  }

  lemma SplitStored(months: Months, ym: nat, from: nat, to: nat, r: DayRecord)
    requires ValidStore(months) && ym <= UINT32 / 100
    ensures StoredFrom(months, ym, from, to, r) <==>
            (ym in months && r in months[ym].days && InRange(r, from, to)) ||
                StoredFrom(months, NextMonth(ym), from, to, r)
  {
    NextMonthGrows(ym);
    if StoredFrom(months, ym, from, to, r) {
      var k :| k in months && ym <= k && r in months[k].days;
      if k != ym { NoMonthBetween(ym, k); }
    }
  }

  /** For any bounds and any valid store: strictly ascending dates, and exactly the stored days of
      the range. The read returns the first `capacity` of these. */
  lemma RangeReadExact(months: Months, from: nat, to: nat)
    requires ValidStore(months) && to < UINT32
    ensures Ascending(StoredDays(months, from, to))
    ensures forall r :: r in StoredDays(months, from, to) <==>
                        InRange(r, from, to) && exists k :: k in months && r in months[k].days
  {
    hide ValidStore, DaysFrom;
    if from <= to {
      DaysFromRead(months, from / 100, from, to);
      forall r ensures StoredFrom(months, from / 100, from, to, r) <==>
                       InRange(r, from, to) && exists k :: k in months && r in months[k].days
      {
        if InRange(r, from, to) && exists k :: k in months && r in months[k].days {
          var k :| k in months && r in months[k].days;
          SlotMonth(months, k, r);
          assert from / 100 <= k;
        }
      }
    }
  }
}
