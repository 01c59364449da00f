/** The bounded output of a span query: spans that overlap the window are counted, and when there is
    no more room the newest by start are kept. */
module FaultBuilder {
  datatype Interval = Interval(start: nat, end: nat, site: nat)

  datatype Window = Window(start: nat, end: nat)

  /** An end of zero means still active. */
  predicate Overlaps(w: Window, iv: Interval) {
    iv.start <= w.end && (iv.end == 0 || w.start <= iv.end)
  }

  /** The span was on at the instant. */
  predicate Covers(iv: Interval, t: nat) {
    iv.start <= t && (iv.end == 0 || t <= iv.end)
  }

  /** A span is counted and neither it nor the window ends before it starts, exactly if some instant
      of the window lies in the span. */
  lemma CountedIffOnInWindow(w: Window, iv: Interval)
    ensures Overlaps(w, iv) && w.start <= w.end && (iv.end == 0 || iv.start <= iv.end) <==>
            exists t: nat :: w.start <= t <= w.end && Covers(iv, t)
  {
    if Overlaps(w, iv) && w.start <= w.end && (iv.end == 0 || iv.start <= iv.end) {
      assert Covers(iv, if iv.start < w.start then w.start else iv.start);
    }
  }

  datatype Kept = Kept(items: seq<Interval>, total: nat)

  /** The first of the items with the least start. */
  function Oldest(items: seq<Interval>): (m: nat)
    requires |items| > 0
    ensures m < |items|
    ensures forall i :: 0 <= i < |items| ==> items[m].start <= items[i].start
    ensures forall i :: 0 <= i < m ==> items[m].start < items[i].start
  {
    var n := |items| - 1;
    if n == 0 then 0
    else
      var m := Oldest(items[..n]);
      if items[n].start < items[m].start then n else m
  }

  function Emitted(k: Kept, w: Window, cap: nat, iv: Interval): Kept
    requires cap > 0
  {
    if !Overlaps(w, iv) then k
    else if |k.items| < cap then Kept(k.items + [iv], k.total + 1)
    else
      var m := Oldest(k.items);
      Kept(if k.items[m].start < iv.start then k.items[m := iv] else k.items, k.total + 1)
  }

  function EmitAll(k: Kept, w: Window, cap: nat, ivs: seq<Interval>): Kept
    requires cap > 0
  {
    if ivs == [] then k else Emitted(EmitAll(k, w, cap, ivs[..|ivs| - 1]), w, cap, ivs[|ivs| - 1])
  }

  lemma {:induction false} EmitAllTwice(k: Kept, w: Window, cap: nat, a: seq<Interval>, b: seq<Interval>)
    requires cap > 0
    ensures EmitAll(k, w, cap, a + b) == EmitAll(EmitAll(k, w, cap, a), w, cap, b)
    decreases |b|
  {
    if b == [] {
      assert a + b == a;
    } else {
      assert (a + b)[..|a + b| - 1] == a + b[..|b| - 1];
      EmitAllTwice(k, w, cap, a, b[..|b| - 1]);
    }
  }

  // ------------------------------------------------ what is kept

  function Overlapping(w: Window, ivs: seq<Interval>): (r: seq<Interval>)
    ensures forall iv :: iv in r <==> iv in ivs && Overlaps(w, iv)
  {
    if ivs == [] then []
    else
      var r := Overlapping(w, ivs[..|ivs| - 1]);
      assert ivs == ivs[..|ivs| - 1] + [ivs[|ivs| - 1]];
      if Overlaps(w, ivs[|ivs| - 1]) then r + [ivs[|ivs| - 1]] else r
  }

  /** As many of the items as fit, and none left out starts later than one kept. */
  ghost predicate NewestOf(kept: seq<Interval>, all: seq<Interval>, cap: nat) {
    && |kept| == (if |all| < cap then |all| else cap)
    && multiset(kept) <= multiset(all)
    && forall d, k :: d in multiset(all) - multiset(kept) && k in kept ==> d.start <= k.start
  }

  lemma AppendNewest(kept: seq<Interval>, all: seq<Interval>, cap: nat, iv: Interval)
    requires NewestOf(kept, all, cap) && |kept| < cap
    ensures NewestOf(kept + [iv], all + [iv], cap)
  {
    SameSize(multiset(kept), multiset(all));
    assert multiset(kept + [iv]) == multiset(all + [iv]);
  }

  lemma SameSize(a: multiset<Interval>, b: multiset<Interval>)
    requires a <= b && |a| == |b|
    ensures a == b
  {
    assert b == a + (b - a);
  }

  lemma ReplaceNewest(kept: seq<Interval>, all: seq<Interval>, cap: nat, iv: Interval)
    requires NewestOf(kept, all, cap) && |kept| == cap > 0 && kept[Oldest(kept)].start < iv.start
    ensures NewestOf(kept[Oldest(kept) := iv], all + [iv], cap)
  {
    hide Oldest;
    var m := Oldest(kept);
    var now, gone := kept[m := iv], kept[m];
    assert multiset(now) == multiset(kept) - multiset{gone} + multiset{iv};
    Swapped(multiset(kept), multiset(all), gone, iv);
    assert multiset(all + [iv]) == multiset(all) + multiset{iv};
    forall d, k | d in multiset(all + [iv]) - multiset(now) && k in now
      ensures d.start <= k.start
    {
      assert d == gone || d in multiset(all) - multiset(kept);
      assert kept[m] in kept;
      assert k == iv || k in kept;
    }
  }

  lemma Swapped(kept: multiset<Interval>, all: multiset<Interval>, gone: Interval, iv: Interval)
    requires kept <= all && gone in kept
    ensures kept - multiset{gone} + multiset{iv} <= all + multiset{iv}
    ensures all + multiset{iv} - (kept - multiset{gone} + multiset{iv}) == all - kept + multiset{gone}
  {
  }

  lemma IgnoreNewest(kept: seq<Interval>, all: seq<Interval>, cap: nat, iv: Interval)
    requires NewestOf(kept, all, cap) && |kept| == cap > 0 && kept[Oldest(kept)].start >= iv.start
    ensures NewestOf(kept, all + [iv], cap)
  {
    hide Oldest;
    assert multiset(all + [iv]) - multiset(kept) == multiset(all) - multiset(kept) + multiset{iv};
  }

  lemma NewestSize(kept: seq<Interval>, all: seq<Interval>, cap: nat)
    requires NewestOf(kept, all, cap)
    ensures |kept| <= cap
  {
  }

  /** All emitted spans that overlap the window are counted, and the newest of them kept. */
  lemma {:induction false} EmitAllNewest(w: Window, cap: nat, ivs: seq<Interval>)
    requires cap > 0
    ensures EmitAll(Kept([], 0), w, cap, ivs).total == |Overlapping(w, ivs)|
    ensures NewestOf(EmitAll(Kept([], 0), w, cap, ivs).items, Overlapping(w, ivs), cap)
  {
    if ivs != [] {
      var before, last := ivs[..|ivs| - 1], ivs[|ivs| - 1];
      hide NewestOf, Oldest, Overlaps;
      EmitAllNewest(w, cap, before);
      EmittedNewest(EmitAll(Kept([], 0), w, cap, before), Overlapping(w, before), w, cap, last);
    }
  }

  lemma EmittedNewest(k: Kept, all: seq<Interval>, w: Window, cap: nat, iv: Interval)
    requires cap > 0 && NewestOf(k.items, all, cap)
    ensures NewestOf(Emitted(k, w, cap, iv).items, if Overlaps(w, iv) then all + [iv] else all, cap)
  {
    hide NewestOf, Oldest, Overlaps;
    if |k.items| < cap {
      AppendNewest(k.items, all, cap, iv);
    } else {
      NewestSize(k.items, all, cap);
      if k.items[Oldest(k.items)].start < iv.start {
        ReplaceNewest(k.items, all, cap, iv);
      } else {
        IgnoreNewest(k.items, all, cap, iv);
      }
    }
  }

  /** The collector of one query; it writes into the caller's array. */
  class Builder {
    const window: Window
    const out: array<Interval>
    const cap: nat
    var count: nat
    var total: nat

    ghost predicate Valid()
      reads this
    {
      0 < cap <= out.Length && count <= cap
    }

    ghost function Contents(): Kept
      requires Valid()
      reads this, out
    {
      Kept(out[..count], total)
    }

    constructor (window: Window, out: array<Interval>, cap: nat)
      requires 0 < cap <= out.Length
      ensures Valid() && Contents() == Kept([], 0)
      ensures this.window == window && this.out == out && this.cap == cap
    {
      this.window, this.out, this.cap := window, out, cap;
      count, total := 0, 0;
    }

    method Emit(iv: Interval)
      requires Valid()
      modifies this, out
      ensures Valid() && Contents() == Emitted(old(Contents()), window, cap, iv)
      ensures old(count) <= count && forall i :: count <= i < out.Length ==> out[i] == old(out[i])
    {
      if iv.start > window.end { return; }
      if iv.end != 0 && iv.end < window.start { return; }
      total := total + 1;
      if count < cap {
        out[count] := iv;
        count := count + 1;
        return;
      }
      var oldest := FindOldest();
      if iv.start > out[oldest].start { out[oldest] := iv; }
    }

    method FindOldest() returns (oldest: nat)
      requires Valid() && count > 0
      ensures oldest == Oldest(out[..count])
    {
      oldest := 0;
      for i := 1 to count
        invariant oldest < i
        invariant forall k :: 0 <= k < i ==> out[oldest].start <= out[k].start
        invariant forall k :: 0 <= k < oldest ==> out[oldest].start < out[k].start
      {
        if out[i].start < out[oldest].start { oldest := i; }
      }
      hide Oldest;
      assert Oldest(out[..count]) == oldest;
    }
  }

  // ------------------------------------------------ ordering the result

  ghost predicate Ascending(s: seq<Interval>) {
    forall i, j :: 0 <= i < j < |s| ==> s[i].start <= s[j].start
  }

  lemma Inserted(p: seq<Interval>, v: Interval, j: nat)
    requires Ascending(p) && j <= |p|
    requires forall i :: 0 <= i < j ==> p[i].start <= v.start
    requires forall i :: j <= i < |p| ==> v.start < p[i].start
    ensures Ascending(p[..j] + [v] + p[j..])
    ensures multiset(p[..j] + [v] + p[j..]) == multiset(p + [v])
  {
    assert p == p[..j] + p[j..];
  }

  lemma Below(p: seq<Interval>, v: Interval, j: nat)
    requires Ascending(p) && j <= |p| && (j > 0 ==> p[j - 1].start <= v.start)
    ensures forall i :: 0 <= i < j ==> p[i].start <= v.start
  {
  }

  lemma Shifted(now: seq<Interval>, p: seq<Interval>, v: Interval, j: nat)
    requires |now| == |p| + 1 && j <= |p| && now[j] == v
    requires forall k :: 0 <= k < j ==> now[k] == p[k]
    requires forall k :: j < k <= |p| ==> now[k] == p[k - 1]
    ensures now == p[..j] + [v] + p[j..]
  {
  }

  /** Shift the items that start later than `v` one place up, from the hole at `i`. */
  method ShiftUp(out: array<Interval>, i: nat, v: Interval, ghost p: seq<Interval>) returns (j: nat)
    requires i < out.Length && p == out[..i]
    modifies out
    ensures j <= i && (j > 0 ==> p[j - 1].start <= v.start)
    ensures forall k :: j <= k < i ==> v.start < p[k].start
    ensures forall k :: 0 <= k < j ==> out[k] == p[k]
    ensures forall k :: j < k <= i ==> out[k] == p[k - 1]
    ensures forall k :: i < k < out.Length ==> out[k] == old(out[k])
  {
    j := i;
    while j > 0 && out[j - 1].start > v.start
      invariant j <= i
      invariant forall k :: 0 <= k < j ==> out[k] == p[k]
      invariant forall k :: j < k <= i ==> out[k] == p[k - 1]
      invariant forall k :: j <= k < i ==> v.start < p[k].start
      invariant forall k :: i < k < out.Length ==> out[k] == old(out[k])
    {
      out[j] := out[j - 1];
      j := j - 1;
    }
  }

  /** Move item `i` down to its place among the ones before it. */
  method InsertDown(out: array<Interval>, i: nat)
    requires i < out.Length && Ascending(out[..i])
    modifies out
    ensures Ascending(out[..i + 1]) && multiset(out[..i + 1]) == multiset(old(out[..i + 1]))
    ensures forall k :: i < k < out.Length ==> out[k] == old(out[k])
  {
    hide Ascending;
    ghost var p := out[..i];
    var v := out[i];
    assert out[..i + 1] == p + [v];
    var j := ShiftUp(out, i, v, p);
    out[j] := v;
    Shifted(out[..i + 1], p, v, j);
    Below(p, v, j);
    Inserted(p, v, j);
  }

  method SortByStart(out: array<Interval>, count: nat)
    requires count <= out.Length
    modifies out
    ensures Ascending(out[..count]) && multiset(out[..count]) == multiset(old(out[..count]))
    ensures forall k :: count <= k < out.Length ==> out[k] == old(out[k])
  {
    var i := 1;
    while i < count
      invariant 1 <= i && (count > 0 ==> i <= count) && (count == 0 ==> i == 1)
      invariant count > 0 ==> Ascending(out[..i])
      invariant multiset(out[..count]) == multiset(old(out[..count]))
      invariant forall k :: count <= k < out.Length ==> out[k] == old(out[k])
    {
      ghost var rest, first := out[i + 1..count], out[..i + 1];
      assert out[..count] == first + rest;
      InsertDown(out, i);
      assert out[..count] == out[..i + 1] + rest;
      i := i + 1;
    }
  }
}
