/** The store as the firmware runs it: loops over months and slots, blobs changed in place and
    written back. Each method is proved against its value-level counterpart in `StoreSpec`. */
module EnergyStore {
  import opened Basics
  import opened Calendar
  import opened LedgerSpec
  import opened StoreSpec

  class EnergyStore {
    var months: Months
    var today: Option<DayAccum>

    constructor ()
      ensures months == map[] && today == None
    {
      months, today := map[], None;
    }

    method LoadMonth(ym: nat) returns (found: bool, m: MonthBlob)
      ensures found == (ym in months)
      ensures found ==> m == months[ym]
    {
      found := ym in months;
      m := if found then months[ym] else MonthBlob(FreshLife(0), EmptySlots());
    }

    /** Newest month blob at or before `start`, looking back as far as one could still be kept. */
    method FindMonthAtOrBefore(start: nat) returns (found: bool, m: MonthBlob)
      ensures found <==> FindMonth(months, start, LOOK_BACK).Some?
      ensures found ==> m == months[FindMonth(months, start, LOOK_BACK).value]
    {
      var ym, i := start, 0;
      while i <= MONTHS_KEPT + 1
        invariant 0 <= i <= LOOK_BACK
        invariant FindMonth(months, start, LOOK_BACK) == FindMonth(months, ym, LOOK_BACK - i)
      {
        found, m := LoadMonth(ym);
        if found { return; }
        i, ym := i + 1, PrevMonth(ym);
      }
      found, m := false, MonthBlob(FreshLife(0), EmptySlots());
    }

    /** The month's blob, or a new one that carries the totals on. */
    method OpenBlob(ym: nat, rnd: nat) returns (b: MonthBlob)
      ensures b == BaseBlob(months, ym, rnd)
    {
      var found, m := LoadMonth(ym);
      if found { return m; }
      var life := FreshLife(rnd);
      found, m := FindMonthAtOrBefore(PrevMonth(ym));
      if found { life := m.life; }
      b := MonthBlob(life, EmptySlots());
    }

    /** Erase the months that have aged out; `stuck` erasures fail. */
    method Sweep(ym: nat, stuck: set<nat>)
      modifies this`months
      ensures months == old(months) - (AgedOut(ym) - stuck)
    {
      var gone := ym;
      var i := 0;
      while i < MONTHS_KEPT
        invariant 0 <= i <= MONTHS_KEPT && gone == Back(ym, i) && months == old(months)
      {
        i, gone := i + 1, PrevMonth(gone);
      }
      i := 0;
      ghost var swept: set<nat> := {};
      while i < SWEPT
        invariant 0 <= i <= SWEPT && gone == Back(ym, MONTHS_KEPT + i)
        invariant swept == BackSet(ym, i)
        invariant months == old(months) - (swept - stuck)
      {
        if gone !in stuck { months := months - {gone}; }
        swept := swept + {gone};
        i, gone := i + 1, PrevMonth(gone);
      }
    }

    /** Store a closed day and fold it into the totals, unless it is already counted. */
    method CommitDay(day: DayRecord, rnd: nat, io: CommitIo) returns (ok: bool, life: Option<Lifetime>)
      modifies this`months
      ensures months == Commit(old(months), day, rnd, io)
      ensures ok == CommitOk(old(months), day, rnd, io)
      ensures life == if ok then Some(CommitLife(old(months), day, rnd)) else None
    {
      hide Fold, BaseBlob, AgedOut;
      var ym, dom := day.date / 100, day.date % 100;
      if dom < 1 || dom > 31 { return false, None; }
      if io.Refused? { return false, None; }
      var m := OpenBlob(ym, rnd);
      if day.date <= m.life.throughDate { return true, Some(m.life); }
      m := m.(days := m.days[dom - 1 := day]);
      m := m.(life := Fold(m.life, day));
      if io.WriteFails? { return false, None; }
      months := months[ym := m];
      Sweep(ym, io.stuck);
      return true, Some(m.life);
    }

    method LoadLifetime(date: nat) returns (life: Option<Lifetime>)
      ensures life == StoreSpec.LoadLifetime(months, date)
    {
      var found, m := FindMonthAtOrBefore(date / 100);
      life := if found then Some(m.life) else None;
    }

    /** Closed days in [from, to], oldest first, at most `capacity` of them. */
    method ReadDays(from: nat, to: nat, capacity: nat) returns (out: seq<DayRecord>)
      requires to < UINT32
      ensures out == FirstOf(StoredDays(months, from, to), capacity)
    {
      hide SlotsInRange, NextMonth;
      out := [];
      if from > to || capacity == 0 { return; }
      var ym := from / 100;
      ghost var seen: seq<DayRecord> := [];
      while ym <= to / 100 && |out| < capacity
        invariant StoredDays(months, from, to) == seen + DaysFrom(months, ym, from, to)
        invariant out == FirstOf(seen, capacity)
        decreases 1 + to / 100 - ym
      {
        NextMonthGrows(ym);
        assert out == seen;
        var found, m := LoadMonth(ym);
        if found { out := AppendMonth(m.days, from, to, capacity, out); }
        seen := seen + MonthDays(months, ym, from, to);
        ym := NextMonth(ym);
      }
    }

    static method AppendMonth(days: Slots, from: nat, to: nat, capacity: nat,
        init: seq<DayRecord>) returns (out: seq<DayRecord>)
      requires |init| < capacity
      ensures out == FirstOf(init + SlotsInRange(days, from, to), capacity)
    {
      out := init;
      var d := 0;
      while d < 31 && |out| < capacity
        invariant 0 <= d <= 31
        invariant out == FirstOf(init + SlotsInRange(days[..d], from, to), capacity)
      {
        assert days[..d + 1][..d] == days[..d];
        if days[d].date != 0 && days[d].date >= from && days[d].date <= to { out := out + [days[d]]; }
        d := d + 1;
      }
      SlotsPrefix(days, d, from, to);
      assert d == 31 ==> days[..d] == days;
    }

    method SaveToday(a: DayAccum, written: bool) returns (ok: bool)
      modifies this`today
      ensures today == if written then Some(a) else old(today)
      ensures ok == written
    {
      if written { today := Some(a); }
      ok := written;
    }

    method LoadToday() returns (a: Option<DayAccum>)
      ensures a == today
    {
      a := today;
    }
  }

  lemma {:induction false} SlotsPrefix(days: seq<DayRecord>, d: nat, from: nat, to: nat)
    requires d <= |days|
    ensures SlotsInRange(days[..d], from, to) <= SlotsInRange(days, from, to)
  {
    if d < |days| {
      var init := days[..|days| - 1];
      SlotsPrefix(init, d, from, to);
      assert init[..d] == days[..d];
    } else {
      assert days[..d] == days;
    }
  }
}
