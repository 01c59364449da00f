/** The ledger as the firmware keeps it: an object whose fields each reading updates in place.
    Every method is proved against the transition function of the same name in `LedgerSpec`. */
module EnergyLedger {
  import opened LedgerSpec
  import Calendar

  class EnergyLedger {
    var cur: DayAccum
    var open: bool
    var startS: int
    var endS: int
    var spanExact: bool
    var prev: Input
    var prevS: int
    var hasPrev: bool
    var defrostEndS: int
    var finished: DayRecord
    var hasFinished: bool
    var saved: DayAccum
    var hasSaved: bool
    var lastSaveS: int

    ghost function State(): Ledger
      reads this
    {
      Ledger(cur, open, startS, endS, spanExact, prev, prevS, hasPrev, defrostEndS,
             finished, hasFinished, SaveState(saved, hasSaved, lastSaveS))
    }

    constructor ()
      ensures State() == FRESH
    {
      cur, open, startS, endS, spanExact := EMPTY, false, 0, 0, false;
      prev, prevS, hasPrev, defrostEndS := NO_INPUT, 0, false, NEVER;
      finished, hasFinished := NO_RECORD, false;
      saved, hasSaved, lastSaveS := EMPTY, false, 0;
    }

    method SetSpan(day: Day)
      modifies this
      ensures State() == LedgerSpec.SetSpan(old(State()), day)
    {
      startS := day.startS;
      endS := DayEnd(day);
      spanExact := true;
    }

    method OpenDay(day: Day)
      modifies this
      ensures State() == LedgerSpec.OpenDay(old(State()), day)
    {
      cur := EMPTY.(date := day.date, utcOffsetMin := day.utcOffsetMin);
      open := true;
      SetSpan(day);
    }

    method CloseAndOpen(day: Day)
      modifies this
      ensures State() == LedgerSpec.CloseAndOpen(old(State()), day)
    {
      finished := ToRecord(cur);
      hasFinished := true;
      OpenDay(day);
    }

    method SetReference(now: int, i: Input)
      modifies this
      ensures State() == LedgerSpec.SetReference(old(State()), now, i)
    {
      prev := i;
      prevS := now;
      hasPrev := true;
    }

    method NoteSettings(p: Input)
      modifies this`cur
      ensures cur == old(cur).(settings := LedgerSpec.NoteSettings(old(cur).settings, p))
    {
      var s := cur.settings;
      if !s.known {
        s := s.(flowLpmX10 := p.flowLpmX10, glycolPct := p.glycolPct, known := true);
      } else if s.flowLpmX10 != p.flowLpmX10 || s.glycolPct != p.glycolPct {
        s := s.(mixed := true);
      }
      cur := cur.(settings := s);
    }

    method BookThermal(dt: nat, p: Input)
      modifies this`cur
      ensures cur == old(cur).(energy := LedgerSpec.BookThermal(old(cur).energy, dt, p),
                               settings := if Covered(p) then LedgerSpec.NoteSettings(old(cur).settings, p)
                                   else old(cur).settings)
    {
      if p.thermalValid && p.powerValid && IsMode(p) {
        var e := cur.energy;
        var q := if p.bucket == COOLING then -p.thermalW else p.thermalW;
        if q > 0 { e := e.(thermal := e.thermal[p.bucket := e.thermal[p.bucket] + q * dt]); }
        e := e.(covered := e.covered[p.bucket := e.covered[p.bucket] + p.powerW * dt]);
        e := e.(thermalS := e.thermalS + dt);
        cur := cur.(energy := e);
        NoteSettings(p);
      }
    }

    method BookOutdoor(a: int, b: int, p: Input)
      modifies this`cur
      ensures cur == old(cur).(outdoor := LedgerSpec.BookOutdoor(old(cur).outdoor, defrostEndS, a, b, p))
    {
      var outFrom := if a > defrostEndS + POST_DEFROST_SECONDS then a else defrostEndS + POST_DEFROST_SECONDS;
      if p.outdoorValid && !p.defrost && b > outFrom {
        var o := cur.outdoor;
        var deci := Wrap16(p.outdoorC * 10);
        var outDt := b - outFrom;
        if !o.known { o := o.(min := deci, max := deci, known := true); }
        if deci < o.min { o := o.(min := deci); }
        if deci > o.max { o := o.(max := deci); }
        o := o.(sum := o.sum + deci * outDt, seconds := o.seconds + outDt);
        if p.running && IsMode(p) {
          o := o.(runSum := Wrap32(o.runSum + deci * outDt), runSeconds := o.runSeconds + outDt);
        }
        cur := cur.(outdoor := o);
      }
    }

    method BookActivity(dt: nat, p: Input)
      modifies this`cur
      ensures cur == old(cur).(activity := LedgerSpec.BookActivity(old(cur).activity, dt, p))
    {
      var v := cur.activity;
      if p.running && IsMode(p) { v := v.(runS := v.runS[p.bucket := v.runS[p.bucket] + dt]); }
      if p.running && !p.defrost { v := v.(sourceS := v.sourceS[p.source := v.sourceS[p.source] + dt]); }
      if p.defrost {
        v := v.(defrostS := v.defrostS + dt);
        if p.defrostThermalValid { v := v.(defrostThermal := v.defrostThermal + p.defrostThermalW * dt); }
      }
      cur := cur.(activity := v);
    }

    method Book(a: int, b: int, p: Input)
      modifies this`cur
      ensures cur == LedgerSpec.Book(old(cur), defrostEndS, a, b, p)
    {
      if b <= a || !p.connected { return; }
      var dt := b - a;
      if p.powerValid {
        var e := cur.energy;
        e := e.(elec := e.elec[p.bucket := e.elec[p.bucket] + p.powerW * dt]);
        e := e.(powerS := e.powerS + dt);
        cur := cur.(energy := e);
      }
      BookActivity(dt, p);
      BookThermal(dt, p);
      BookOutdoor(a, b, p);
    }

    /** Close the day that is over: book up to its end, open the next, book the rest. */
    method CloseDay(now: int, day: Day, inStep: bool)
      requires inStep == (now - prevS <= MAX_STEP_SECONDS) && now >= endS
      modifies this
      ensures State() == LedgerSpec.Advance(old(State()), now, day)
    {
      var boundary := endS;
      if inStep && prevS < boundary { Book(prevS, boundary, prev); }
      CloseAndOpen(day);
      if inStep { Book(if prevS > boundary then prevS else boundary, now, prev); }
    }

    /** A reading at or after the open day's midnight. */
    method Accept(now: int, day: Day, i: Input)
      modifies this
      ensures State() == LedgerSpec.Accept(old(State()), now, day, i)
    {
      var dayOver := now >= endS;
      if !hasPrev || now < prevS {
        SetReference(now, i);
        if dayOver { CloseAndOpen(day); }
        return;
      }
      var dt := now - prevS;
      var inStep := dt <= MAX_STEP_SECONDS;
      if dayOver {
        CloseDay(now, day, inStep);
      } else if inStep {
        Book(prevS, now, prev);
      }
      NoteEdges(inStep, now, i);
      SetReference(now, i);
    }

    method NoteEdges(inStep: bool, now: int, i: Input)
      modifies this`cur, this`defrostEndS
      ensures State() == LedgerSpec.Edges(old(State()), inStep, now, i)
    {
      if inStep && i.connected && prev.connected {
        var v := cur.activity;
        if i.running && !prev.running && v.starts < UINT16_MAX { v := v.(starts := v.starts + 1); }
        if i.defrost && !prev.defrost && v.defrosts < UINT16_MAX { v := v.(defrosts := v.defrosts + 1); }
        cur := cur.(activity := v);
      }
      if prev.defrost && !i.defrost { defrostEndS := now; }
    }

    /** Feed one reading; the result says whether it closed the previous day. */
    method Add(now: int, day: Day, i: Input) returns (closed: bool)
      modifies this
      ensures State() == LedgerSpec.Add(old(State()), now, day, i)
      ensures closed == hasFinished
    {
      hasFinished := false;
      if !open {
        OpenDay(day);
        SetReference(now, i);
        return false;
      }
      if !spanExact && day.date == cur.date { SetSpan(day); }
      if now < startS {
        hasPrev := false;
        return false;
      }
      if now >= endS && day.date <= cur.date { endS := DayEnd(day); }
      Accept(now, day, i);
      return hasFinished;
    }

    method Pause()
      modifies this
      ensures State() == LedgerSpec.Pause(old(State()))
    {
      hasPrev := false;
    }

    method Restore(a: DayAccum)
      modifies this
      ensures State() == LedgerSpec.Restore(old(State()), a)
    {
      hide Calendar.DaysFromDate;
      if open { return; }
      cur := a;
      open := true;
      hasPrev := false;
      saved := a;
      hasSaved := true;
      startS := Calendar.DaysFromDate(a.date) * 86400 - a.utcOffsetMin * 60;
      endS := startS + 86400;
      spanExact := false;
    }

    /** The closed day, offered until the next reading. */
    method TakeFinished() returns (ok: bool, r: DayRecord)
      ensures ok == hasFinished && r == finished
    {
      ok, r := hasFinished, finished;
    }

    method SaveDue(now: int, force: bool) returns (due: bool)
      ensures due == LedgerSpec.SaveDue(State(), now, force)
    {
      if !open || (hasSaved && saved == cur) { return false; }
      return force || !hasSaved || saved.date != cur.date || now - lastSaveS >= SAVE_INTERVAL_SECONDS;
    }

    method MarkSaved(now: int, what: DayAccum)
      modifies this
      ensures State() == LedgerSpec.MarkSaved(old(State()), now, what)
    {
      saved := what;
      hasSaved := true;
      lastSaveS := now;
    }
  }
}
