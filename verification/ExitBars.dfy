/**
 * Feeding completed minute bars to a rule exit. Times are whole microseconds since the epoch; the program's
 * comparisons carry a tolerance below one microsecond.
 */
module ExitBars {
  import opened Basics

  const BAR: int := 60_000_000

  /** A bar by its opening time. */
  datatype Bar = Bar(stamp: int, close: real)
  {
    function End(): int { stamp + BAR }
  }

  /** What selects the bars of one pass. */
  datatype Window = Window(entry: Option<int>, last: Option<int>, deadline: Option<int>, now: int)
  {
    /** Complete by now and by the deadline, opened at or after the entry, not consumed before. */
    predicate Admits(bar: Bar) {
      && bar.End() <= now
      && (deadline.Some? ==> bar.End() <= deadline.value)
      && (entry.Some? ==> bar.stamp >= entry.value)
      && (last.Some? ==> bar.End() > last.value)
    }

    /** The minute the next bar must open in, when there is one. */
    function Next(): Option<int> {
      if last.Some? then last else if entry.Some? then Some(FirstMinute(entry.value)) else None
    }
  }

  /** The first whole minute at or after a time. */
  function FirstMinute(t: int): (r: int)
    ensures r % BAR == 0 && t <= r < t + BAR
  {
    if t % BAR == 0 then t else t + (BAR - t % BAR)
  }

  // ---- Selecting bars

  function Eligible(raw: seq<Option<Bar>>, w: Window): seq<Bar> {
    if raw == [] then []
    else
      var b := raw[|raw| - 1];
      Eligible(raw[..|raw| - 1], w) + if b.Some? && w.Admits(b.value) then [b.value] else []
  }

  predicate Ascending(bars: seq<Bar>) { forall i, j :: 0 <= i < j < |bars| ==> bars[i].stamp <= bars[j].stamp }

  predicate Contiguous(bars: seq<Bar>) { forall i :: 0 <= i < |bars| ==> bars[i].stamp == bars[0].stamp + BAR * i }

  method Place(bars: seq<Bar>, bar: Bar) returns (placed: seq<Bar>)
    requires Ascending(bars)
    ensures Ascending(placed) && multiset(placed) == multiset(bars + [bar])
  {
    hide Inserted;
    var k := |bars|;
    while k > 0 && bars[k - 1].stamp > bar.stamp
      invariant 0 <= k <= |bars|
      invariant forall i :: k <= i < |bars| ==> bars[i].stamp > bar.stamp
    {
      k := k - 1;
    }
    placed := Inserted(bars, bar, k);
    assert forall i :: 0 <= i < k ==> bars[i].stamp <= bars[k - 1].stamp;
  }

  lemma NoneYet(raw: seq<Option<Bar>>, w: Window)
    ensures Eligible(raw[..0], w) == [] && Ascending([])
  {
  }

  lemma OneMore(raw: seq<Option<Bar>>, w: Window, k: nat)
    requires k < |raw|
    ensures Eligible(raw[..k + 1], w) ==
            if raw[k].Some? && w.Admits(raw[k].value) then Eligible(raw[..k], w) + [raw[k].value]
            else Eligible(raw[..k], w)
  {
    assert raw[..k + 1][..k] == raw[..k];
  }

  method Prepare(raw: seq<Option<Bar>>, w: Window) returns (prepared: seq<Bar>)
    ensures Ascending(prepared) && multiset(prepared) == multiset(Eligible(raw, w))
  {
    hide Eligible, Ascending;
    prepared := [];
    NoneYet(raw, w);
    var k := 0;
    while k < |raw|
      invariant 0 <= k <= |raw|
      invariant Ascending(prepared) && multiset(prepared) == multiset(Eligible(raw[..k], w))
    {
      OneMore(raw, w, k);
      var b := raw[k];
      k := k + 1;
      if b.None? || b.value.End() > w.now
         || (w.deadline.Some? && b.value.End() > w.deadline.value)
         || (w.entry.Some? && b.value.stamp < w.entry.value) {
        continue;
      }
      if w.last.Some? && b.value.End() <= w.last.value {
        continue;
      }
      prepared := Place(prepared, b.value);
    }
    assert raw[..k] == raw;
  }

  /** `bars` is the whole of `prepared`, or the part before the first step that is not one minute. */
  predicate LongestRun(bars: seq<Bar>, prepared: seq<Bar>) {
    && bars <= prepared
    && Contiguous(bars)
    && (prepared != [] ==> bars != [])
    && (|bars| < |prepared| ==> prepared[|bars|].stamp != prepared[0].stamp + BAR * |bars|)
  }

  /** A sorted list of exactly the eligible bars. */
  predicate Prepared(prepared: seq<Bar>, raw: seq<Option<Bar>>, w: Window) {
    Ascending(prepared) && multiset(prepared) == multiset(Eligible(raw, w))
  }

  /** The answer for a prepared list: nothing when it opens late, else its longest run, with a gap if bars are left. */
  predicate Answers(prepared: seq<Bar>, w: Window, bars: seq<Bar>, gap: bool) {
    if prepared != [] && w.Next().Some? && prepared[0].stamp > w.Next().value
    then bars == [] && gap
    else LongestRun(bars, prepared) && (gap <==> bars != prepared)
  }

  ghost predicate Returned(raw: seq<Option<Bar>>, w: Window, bars: seq<Bar>, gap: bool) {
    exists prepared: seq<Bar> :: Prepared(prepared, raw, w) && Answers(prepared, w, bars, gap)
  }

  /** The contiguous unseen bars, and whether a gap follows (or precedes) them. */
  method CompletedBars(raw: seq<Option<Bar>>, w: Window) returns (bars: seq<Bar>, gap: bool)
    ensures Returned(raw, w, bars, gap)
  {
    var sorted := Prepare(raw, w);
    bars, gap := Run(sorted, w);
    assert Prepared(sorted, raw, w);
  }

  method Run(sorted: seq<Bar>, w: Window) returns (bars: seq<Bar>, gap: bool)
    ensures Answers(sorted, w, bars, gap)
  {
    if sorted != [] && w.last.None? && w.entry.Some? {
      var remainder := w.entry.value % BAR;
      var expected := if remainder == 0 then w.entry.value else w.entry.value + (BAR - remainder);
      if sorted[0].stamp > expected {
        return [], true;
      }
    }
    if sorted != [] && w.last.Some? && sorted[0].stamp > w.last.value {
      return [], true;
    }
    var k := 1;
    while k < |sorted|
      invariant sorted != [] ==> 1 <= k <= |sorted| && Contiguous(sorted[..k])
    {
      if sorted[k].stamp - sorted[k - 1].stamp != BAR {
        assert sorted[..k][k - 1].stamp == sorted[..k][0].stamp + BAR * (k - 1);
        return sorted[..k], true;
      }
      assert sorted[..k][k - 1].stamp == sorted[..k][0].stamp + BAR * (k - 1);
      assert sorted[..k + 1] == sorted[..k] + [sorted[k]];
      k := k + 1;
    }
    if sorted != [] {
      assert sorted[..k] == sorted;
    }
    return sorted, false;
  }

  // ---- What a pass returns, for minute-aligned feeds

  predicate Aligned(raw: seq<Option<Bar>>) {
    forall i :: 0 <= i < |raw| && raw[i].Some? ==> raw[i].value.stamp % BAR == 0
  }

  lemma {:induction false} EligibleIsAdmitted(raw: seq<Option<Bar>>, w: Window, b: Bar)
    ensures b in Eligible(raw, w) <==> Some(b) in raw && w.Admits(b)
  {
    if raw != [] {
      var n := |raw| - 1;
      EligibleIsAdmitted(raw[..n], w, b);
      assert raw == raw[..n] + [raw[n]];
    }
  }

  /** The eligible bars of an aligned feed open no earlier than the next minute due. */
  lemma NoneBeforeNext(raw: seq<Option<Bar>>, w: Window, b: Bar)
    requires Aligned(raw) && b in Eligible(raw, w) && w.Next().Some? && w.Next().value % BAR == 0
    ensures b.stamp >= w.Next().value && b.stamp % BAR == 0
  {
  }

  /** The bar opens no earlier than the minute due next and is over, by now and by the deadline. */
  predicate IsDue(bar: Bar, next: int, deadline: Option<int>, now: int) {
    bar.stamp >= next && bar.stamp + 60_000_000 <= now && (deadline.Some? ==> bar.stamp + 60_000_000 <= deadline.value)
  }

  /** For a whole minute, that is all that is asked of it. */
  lemma AdmittedIffDue(w: Window, bar: Bar)
    requires w.Next().Some? && w.Next().value % BAR == 0 && bar.stamp % BAR == 0
    requires w.last.Some? && w.entry.Some? ==> w.last.value >= w.entry.value
    ensures w.Admits(bar) <==> IsDue(bar, w.Next().value, w.deadline, w.now)
  {
  }

  /** Every returned bar is due, in its minute, and complete. */
  predicate Due(bars: seq<Bar>, w: Window, start: int) {
    forall i :: 0 <= i < |bars| ==> bars[i].stamp == start + BAR * i && w.Admits(bars[i])
  }

  /**
   * With aligned bars the pass returns exactly the minutes from the next one due up to the first that is missing
   * or repeated, and flags a gap exactly when an eligible bar lies beyond.
   */
  lemma PassIsExact(raw: seq<Option<Bar>>, w: Window, bars: seq<Bar>, gap: bool)
    requires Aligned(raw) && w.Next().Some? && w.Next().value % BAR == 0
    requires Returned(raw, w, bars, gap)
    requires w.last.Some? && w.entry.Some? ==> w.last.value >= w.entry.value
    ensures Due(bars, w, w.Next().value)
    ensures forall b :: b in Eligible(raw, w) <==> Some(b) in raw && IsDue(b, w.Next().value, w.deadline, w.now)
    ensures gap <==> |bars| < |Eligible(raw, w)|
    ensures !gap ==> multiset(bars) == multiset(Eligible(raw, w))
    ensures gap ==>
              (|| (forall b :: b in Eligible(raw, w) ==> b.stamp != w.Next().value + BAR * |bars|)
               || RepeatsAt(raw, w, |bars|))
  {
    hide Eligible, Prepared, Answers, Due;
    var next := w.Next().value;
    var prepared: seq<Bar> :| Prepared(prepared, raw, w) && Answers(prepared, w, bars, gap);
    PreparedBarsAreDue(prepared, raw, w, next);
    AnswerIsDue(prepared, w, bars, gap, next);
    forall b
      ensures b in Eligible(raw, w) <==> Some(b) in raw && IsDue(b, next, w.deadline, w.now)
    {
      EligibleIsAdmitted(raw, w, b);
      if Some(b) in raw {
        AdmittedIffDue(w, b);
      }
    }
    if gap {
      DueStamps(bars, prepared, w, next);
      FirstMissing(prepared, w, next, |bars|);
      if forall b :: b in prepared ==> b.stamp != next + BAR * |bars| {
        assert forall b :: b in Eligible(raw, w) ==> b in prepared;
      }
    }
  }

  lemma DueStamps(bars: seq<Bar>, prepared: seq<Bar>, w: Window, next: int)
    requires Due(bars, w, next) && bars <= prepared
    ensures forall i :: 0 <= i < |bars| ==> prepared[i].stamp == next + BAR * i
  {
    assert forall i :: 0 <= i < |bars| ==> prepared[i] == bars[i];
  }

  /** Sorting changes neither which bars are eligible nor how many. */
  lemma PreparedBarsAreDue(prepared: seq<Bar>, raw: seq<Option<Bar>>, w: Window, next: int)
    requires Prepared(prepared, raw, w) && Aligned(raw) && w.Next() == Some(next) && next % BAR == 0
    ensures DueFrom(prepared, w, next) && Ascending(prepared)
    ensures |prepared| == |Eligible(raw, w)| && multiset(prepared) == multiset(Eligible(raw, w))
    ensures forall b :: b in prepared <==> b in Eligible(raw, w)
  {
    hide Eligible, Window.Admits, Aligned, Ascending;
    assert |multiset(prepared)| == |multiset(Eligible(raw, w))|;
    forall b
      ensures b in prepared <==> b in Eligible(raw, w)
    {
      assert b in multiset(prepared) <==> b in multiset(Eligible(raw, w));
    }
    forall i | 0 <= i < |prepared|
      ensures prepared[i].stamp >= next && prepared[i].stamp % BAR == 0 && w.Admits(prepared[i])
    {
      assert prepared[i] in prepared;
      NoneBeforeNext(raw, w, prepared[i]);
      EligibleIsAdmitted(raw, w, prepared[i]);
    }
  }

  /** Whole minutes, none before the next one due, all admissible. */
  predicate DueFrom(prepared: seq<Bar>, w: Window, next: int) {
    forall i :: 0 <= i < |prepared| ==>
      prepared[i].stamp >= next && prepared[i].stamp % BAR == 0 && w.Admits(prepared[i])
  }

  lemma AnswerIsDue(prepared: seq<Bar>, w: Window, bars: seq<Bar>, gap: bool, next: int)
    requires Answers(prepared, w, bars, gap) && DueFrom(prepared, w, next) && w.Next() == Some(next)
    ensures Due(bars, w, next) && bars <= prepared
    ensures gap <==> |bars| < |prepared|
    ensures !gap ==> bars == prepared
    ensures gap ==> prepared[|bars|].stamp != next + BAR * |bars|
  {
    hide Window.Admits;
  }

  /** Among the eligible bars in order, the one at position `k` repeats the minute before it. */
  ghost predicate RepeatsAt(raw: seq<Option<Bar>>, w: Window, k: nat) {
    exists p: seq<Bar> :: Prepared(p, raw, w) && 0 < k < |p| && p[k].stamp == p[k - 1].stamp
  }

  /** Past the run, either the next minute is nowhere in a sorted list or the last one repeats. */
  lemma FirstMissing(prepared: seq<Bar>, w: Window, next: int, k: nat)
    requires Ascending(prepared) && DueFrom(prepared, w, next) && k < |prepared| && next % BAR == 0
    requires forall i :: 0 <= i < k ==> prepared[i].stamp == next + BAR * i
    requires prepared[k].stamp != next + BAR * k
    ensures (forall b :: b in prepared ==> b.stamp != next + BAR * k) ||
            (k > 0 && prepared[k].stamp == prepared[k - 1].stamp)
  {
  }

  // ---- Consuming bars over the life of a trade

  datatype Transition = OutOfOrder | Duplicate | Advanced(last: int)

  /** The exit transition's use of its clock. */
  function Advance(last: Option<int>, bar: Bar): Transition {
    if last.Some? && bar.End() < last.value then OutOfOrder
    else if last.Some? && bar.End() == last.value then Duplicate
    else Advanced(bar.End())
  }

  /** The bars consumed are the minutes from the first whole one after the entry, each once and in order. */
  predicate Sequence(entry: int, fed: seq<Bar>, last: Option<int>) {
    && (forall i :: 0 <= i < |fed| ==> fed[i].stamp == FirstMinute(entry) + BAR * i)
    && last == if fed == [] then None else Some(fed[|fed| - 1].End())
  }

  lemma SequenceGrows(entry: int, fed: seq<Bar>, w: Window, bars: seq<Bar>, taken: seq<Bar>, clock: Option<int>)
    requires Sequence(entry, fed, w.last) && w.entry == Some(entry)
    requires Due(bars, w, w.Next().value) && taken <= bars
    requires clock == if taken == [] then w.last else Some(taken[|taken| - 1].End())
    ensures Sequence(entry, fed + taken, clock)
  {
  }

  /** A bar consumed before is never consumed again: the last one is a duplicate, an earlier one out of order. */
  lemma ConsumedBarsAreRefused(entry: int, fed: seq<Bar>, last: Option<int>, k: nat)
    requires Sequence(entry, fed, last) && k < |fed|
    ensures Advance(last, fed[k]) == if k == |fed| - 1 then Duplicate else OutOfOrder
  {
  }

  /** The next minute is taken, whatever was consumed before it. */
  lemma NextBarIsTaken(entry: int, fed: seq<Bar>, last: Option<int>, bar: Bar)
    requires Sequence(entry, fed, last) && bar.stamp == FirstMinute(entry) + BAR * |fed|
    ensures Advance(last, bar) == Advanced(bar.End()) && Sequence(entry, fed + [bar], Some(bar.End()))
  {
  }

  /** The next minute due is a whole one. */
  lemma NextIsWhole(entry: int, fed: seq<Bar>, w: Window)
    requires Sequence(entry, fed, w.last) && w.entry == Some(entry)
    ensures w.Next() == Some(w.last.GetOr(FirstMinute(entry))) && w.Next().value % BAR == 0
    ensures w.last.Some? ==> w.last.value >= entry
  {
  }

  function Upto(bars: seq<Bar>, n: nat): seq<Bar> { if n <= |bars| then bars[..n] else bars }

  class Consumer {
    var entry: int                 // when the entry filled
    var last: Option<int>          // end of the last consumed bar
    var fed: seq<Bar>              // every bar consumed so far

    constructor (entry: int)
      ensures InSequence() && this.entry == entry && fed == []
    {
      this.entry, last, fed := entry, None, [];
    }

    predicate InSequence()
      reads this
    {
      Sequence(entry, fed, last)
    }

    /**
     * One monitor pass. The exit may fire on any bar, which ends the pass there, and an invalid bar discards the
     * whole pass; `upTo` is how many bars the transition accepts before either.
     */
    method Pass(raw: seq<Option<Bar>>, deadline: Option<int>, now: int, upTo: nat, invalid: bool)
      returns (gap: bool)
      requires InSequence() && Aligned(raw)
      modifies this`last, this`fed
      ensures InSequence()
      ensures old(fed) <= fed
      ensures forall i :: |old(fed)| <= i < |fed| ==>
                fed[i].End() <= now && (deadline.Some? ==> fed[i].End() <= deadline.value)
      ensures var w := Window(Some(entry), old(last), deadline, now);
              exists bars: seq<Bar> ::
                Returned(raw, w, bars, gap) && fed == old(fed) + if invalid then [] else Upto(bars, upTo)
      ensures !invalid && !gap && upTo >= |raw| ==>
                forall b :: Some(b) in raw && IsDue(b, old(last).GetOr(FirstMinute(entry)), deadline, now) ==> b in fed
    {
      hide FirstMinute, Sequence, Returned, Eligible, IsDue, Contiguous, Aligned, Upto;
      var w := Window(Some(entry), last, deadline, now);
      var bars, flagged := CompletedBars(raw, w);
      gap := flagged;
      PassIsARun(entry, fed, raw, w, bars, flagged);
      var clock, taken := Consume(last, bars, upTo);
      if !invalid {
        PassIsConsumed(entry, fed, raw, w, bars, flagged, upTo, clock);
        last, fed := clock, fed + taken;
      }
    }
  }

  /** What a pass returns can be fed to the transition. */
  lemma PassIsARun(entry: int, fed: seq<Bar>, raw: seq<Option<Bar>>, w: Window, bars: seq<Bar>, gap: bool)
    requires Sequence(entry, fed, w.last) && w.entry == Some(entry) && Aligned(raw) && Returned(raw, w, bars, gap)
    ensures Contiguous(bars) && (bars != [] && w.last.Some? ==> bars[0].stamp >= w.last.value)
  {
    hide Returned, Sequence;
    NextIsWhole(entry, fed, w);
    PassIsExact(raw, w, bars, gap);
    DueIsARun(bars, w, w.Next().value);
  }

  /** What feeding it adds to the sequence, and that it leaves out nothing due. */
  lemma PassIsConsumed(entry: int, fed: seq<Bar>, raw: seq<Option<Bar>>, w: Window, bars: seq<Bar>, gap: bool,
                       upTo: nat, clock: Option<int>)
    requires Sequence(entry, fed, w.last) && w.entry == Some(entry) && Aligned(raw) && Returned(raw, w, bars, gap)
    requires var taken := Upto(bars, upTo); clock == if taken == [] then w.last else Some(taken[|taken| - 1].End())
    ensures var all := fed + Upto(bars, upTo);
            && Sequence(entry, all, clock)
            && (forall i :: |fed| <= i < |all| ==>
                  all[i].End() <= w.now && (w.deadline.Some? ==> all[i].End() <= w.deadline.value))
            && (!gap && upTo >= |raw| ==>
                  forall b :: Some(b) in raw && IsDue(b, w.last.GetOr(FirstMinute(entry)), w.deadline, w.now) ==>
                    b in all)
  {
    hide Returned, Sequence, Eligible, IsDue, FirstMinute;
    NextIsWhole(entry, fed, w);
    PassIsExact(raw, w, bars, gap);
    SequenceGrows(entry, fed, w, bars, Upto(bars, upTo), clock);
    if !gap && upTo >= |raw| {
      NothingLeft(raw, w, bars);
    }
  }

  lemma DueIsARun(bars: seq<Bar>, w: Window, start: int)
    requires Due(bars, w, start)
    ensures Contiguous(bars) && (bars != [] ==> bars[0].stamp == start)
  {
  }

  /** Feeds bars to the transition until the exit fires; a contiguous run never looks repeated or out of order. */
  method Consume(last: Option<int>, bars: seq<Bar>, upTo: nat) returns (clock: Option<int>, taken: seq<Bar>)
    requires Contiguous(bars) && (bars != [] && last.Some? ==> bars[0].stamp >= last.value)
    ensures taken == Upto(bars, upTo)
    ensures clock == if taken == [] then last else Some(taken[|taken| - 1].End())
  {
    clock, taken := last, [];
    var k := 0;
    while k < |bars| && k < upTo
      invariant 0 <= k <= |bars| && k <= upTo
      invariant taken == bars[..k]
      invariant clock == if k == 0 then last else Some(bars[k - 1].End())
    {
      assert k > 0 ==> bars[k].stamp == bars[k - 1].End();
      var step := Advance(clock, bars[k]);
      clock := Some(step.last);
      taken := taken + [bars[k]];
      k := k + 1;
    }
  }

  /** Without a gap the pass returned every eligible bar. */
  lemma NothingLeft(raw: seq<Option<Bar>>, w: Window, bars: seq<Bar>)
    requires multiset(bars) == multiset(Eligible(raw, w))
    ensures |bars| <= |raw|
    ensures forall b :: b in Eligible(raw, w) ==> b in bars
  {
    EligibleIsShorter(raw, w);
    assert |multiset(bars)| == |multiset(Eligible(raw, w))|;
    forall b | b in Eligible(raw, w)
      ensures b in bars
    {
      assert b in multiset(Eligible(raw, w));
      assert b in multiset(bars);
    }
  }

  lemma {:induction false} EligibleIsShorter(raw: seq<Option<Bar>>, w: Window)
    ensures |Eligible(raw, w)| <= |raw|
  {
    if raw != [] {
      EligibleIsShorter(raw[..|raw| - 1], w);
    }
  }
}
