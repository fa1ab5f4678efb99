/** What a scan leaves behind when a handler moves its own ticket and opens none (src/zloop.c). */
module TicketStrays {
  import opened Tickets
  import opened TicketScan

  /** From here on the list holds nothing live and due. */
  ghost predicate Spent(ts: seq<Ticket>, from: nat, now: int) {
    forall j :: from <= j < |ts| ==> ts[j].deleted || !Due(ts[j], now)
  }

  lemma DoSpent(l: List, delay: nat, op: Op, own: nat, now: int)
    requires Running(l, own, now) && l.cursor > 0 && !op.Open?
    ensures
      var l' := Do(l, delay, op);
      && l'.cursor > 0
      && (SelfMove(op, own) || Spent(l.tickets, l.cursor - 1, now) ==> Spent(l'.tickets, l'.cursor - 1, now))
  {
    var i := Place(l.tickets, op.id);
    if SelfMove(op, own) {
      PlaceIs(l.tickets, own, l.cursor - 1);
    }
    if i < |l.tickets| {
      var t := if op.Renew? then Renewed(l.tickets[i], l.clock + op.elapsed) else l.tickets[i].(deleted := true);
      assert t.deleted || !Due(t, now);
      MovedSpent(l, i, t, Do(l, delay, op).clock, now);
    }
  }

  lemma MovedSpent(l: List, i: nat, t: Ticket, at: int, now: int)
    requires i < |l.tickets| && 0 < l.cursor <= |l.tickets| && (t.deleted || !Due(t, now))
    ensures Moved(l, i, t, at).cursor > 0
    ensures i == l.cursor - 1 || Spent(l.tickets, l.cursor - 1, now) ==>
      Spent(Moved(l, i, t, at).tickets, Moved(l, i, t, at).cursor - 1, now)
  {
    var l' := Moved(l, i, t, at);
    if i == l.cursor - 1 || Spent(l.tickets, l.cursor - 1, now) {
      forall j | l'.cursor - 1 <= j < |l'.tickets|
        ensures l'.tickets[j].deleted || !Due(l'.tickets[j], now)
      {
        if j < |l.tickets| - 1 {
          assert l'.tickets[j] == l.tickets[if j < i then j else j + 1];
        }
      }
    }
  }

  /** A handler that moves its own ticket and opens none leaves nothing live and due from there on. */
  lemma {:induction false} DoAllSpent(l: List, delay: nat, ops: seq<Op>, own: nat, now: int)
    requires Running(l, own, now) && l.cursor > 0 && !Opens(ops)
    ensures
      var l' := DoAll(l, delay, ops);
      l'.cursor > 0 && (MovesSelf(ops, own) ==> Spent(l'.tickets, l'.cursor - 1, now))
  {
    if ops != [] {
      var most := ops[..|ops| - 1];
      LastOp(ops, own);
      DoAllSpent(l, delay, most, own, now);
      DoAllKept(l, delay, most, own, now);
      DoSpent(DoAll(l, delay, most), delay, ops[|ops| - 1], own, now);
    }
  }

  lemma {:induction false} DueWithout(ts: seq<Ticket>, i: nat, now: int)
    requires i < |ts| && (ts[i].deleted || !Due(ts[i], now))
    ensures DueAndLive(Without(ts, i), now) == DueAndLive(ts, now)
    decreases i
  {
    if i == 0 {
      assert Without(ts, 0) == ts[1..];
    } else {
      DueWithout(ts[1..], i - 1, now);
      assert Without(ts, i)[0] == ts[0] && Without(ts, i)[1..] == Without(ts[1..], i - 1);
    }
  }

  /** The scan can take deleted tickets off, and nothing else. */
  ghost predicate Stranded(p: Progress, now: int) {
    !p.stopped && Good(p.list) && now <= p.list.clock
      && (p.list.cursor == 0 || Spent(p.list.tickets, p.list.cursor - 1, now))
  }

  /** Taking the ticket at the cursor off, where nothing from it on is live and due. */
  lemma TakenOffSpent(l: List, own: nat, now: int)
    requires Running(l, own, now) && l.cursor > 0 && Spent(l.tickets, l.cursor - 1, now)
    ensures
      var l' := TakenOff(l, own);
      && (l'.cursor == 0 || Spent(l'.tickets, l'.cursor - 1, now))
      && DueAndLive(l'.tickets, now) == DueAndLive(l.tickets, now)
  {
    PlaceIs(l.tickets, own, l.cursor - 1);
    DueWithout(l.tickets, l.cursor - 1, now);
    var l' := TakenOff(l, own);
    if l'.cursor != 0 {
      forall j | l'.cursor - 1 <= j < |l'.tickets|
        ensures l'.tickets[j].deleted || !Due(l'.tickets[j], now)
      {
        assert l'.tickets[j] == l.tickets[j + 1];
      }
    }
  }

  /** The handler called next moves its own ticket and opens none. */
  ghost predicate StraysAt(p: Progress, now: int, calls: nat -> Call) {
    && HasTurn(p, now) && !p.list.tickets[p.list.cursor - 1].deleted && !calls(|p.fired|).stop
    && Strays(calls(|p.fired|).ops, p.list.tickets[p.list.cursor - 1].id)
  }

  /** The live tickets due when the handler called next returns. */
  function DueAfter(p: Progress, delay: nat, now: int, calls: nat -> Call): seq<Ticket> {
    DueAndLive(DoAll(p.list, delay, calls(|p.fired|).ops).tickets, now)
  }

  lemma StrayStrands(p: Progress, delay: nat, now: int, calls: nat -> Call)
    requires Good(p.list) && now <= p.list.clock && StraysAt(p, now, calls)
    ensures
      var q := NextTurn(p, delay, now, calls);
      Stranded(q, now) && DueAndLive(q.list.tickets, now) == DueAfter(p, delay, now, calls)
  {
    var t, ops := p.list.tickets[p.list.cursor - 1], calls(|p.fired|).ops;
    assert t in p.list.tickets;
    DoAllKept(p.list, delay, ops, t.id, now);
    DoAllSpent(p.list, delay, ops, t.id, now);
    TakenOffSpent(DoAll(p.list, delay, ops), t.id, now);
    TakenOffTurned(DoAll(p.list, delay, ops), t.id, now);
  }

  /** A stranded scan fires nothing more and leaves what is live and due alone. */
  lemma StrandedTurn(p: Progress, delay: nat, now: int, calls: nat -> Call)
    requires Stranded(p, now)
    ensures
      var q := NextTurn(p, delay, now, calls);
      && Stranded(q, now) && q.fired == p.fired && !StraysAt(p, now, calls)
      && DueAndLive(q.list.tickets, now) == DueAndLive(p.list.tickets, now)
  {
    if HasTurn(p, now) {
      var t := p.list.tickets[p.list.cursor - 1];
      assert t in p.list.tickets && t.deleted;
      TakenOffSpent(p.list, t.id, now);
      TakenOffTurned(p.list, t.id, now);
    }
  }

  // ----- Whole scans -----

  ghost predicate Strayed(trace: seq<Progress>, m: nat, now: int, calls: nat -> Call) {
    m < |trace| - 1 && StraysAt(trace[m], now, calls)
  }

  /** The scan is under way from a steady list, and no handler has strayed. */
  ghost predicate OnCourse(p: Progress, was: seq<Ticket>, delay: nat, now: int, calls: nat -> Call) {
    NoneStrayed(calls, p.fired) && exists n: nat :: Scanning(p, was, n, delay, now, calls, true)
  }

  /** Where a scan from a steady list is: on course, or stranded with what was live and due when the handler
      that strayed returned. */
  ghost predicate Phase(trace: seq<Progress>, p: Progress, was: seq<Ticket>, delay: nat, now: int, calls: nat -> Call) {
    && ((forall m: nat :: !Strayed(trace, m, now, calls)) ==> OnCourse(p, was, delay, now, calls))
    && (forall m: nat :: Strayed(trace, m, now, calls) ==> StrandedBy(trace[m], p, delay, now, calls))
  }

  ghost predicate StrandedBy(o: Progress, p: Progress, delay: nat, now: int, calls: nat -> Call) {
    && Stranded(p, now) && |p.fired| == |o.fired| + 1
    && DueAndLive(p.list.tickets, now) == DueAfter(o, delay, now, calls)
  }

  lemma OnCourseTurn(p: Progress, was: seq<Ticket>, delay: nat, now: int, calls: nat -> Call)
    requires OnCourse(p, was, delay, now, calls) && !NextTurn(p, delay, now, calls).stopped
    ensures !StraysAt(p, now, calls) ==> OnCourse(NextTurn(p, delay, now, calls), was, delay, now, calls)
    ensures StraysAt(p, now, calls) ==> StrandedBy(p, NextTurn(p, delay, now, calls), delay, now, calls)
  {
    var n: nat :| Scanning(p, was, n, delay, now, calls, true);
    if StraysAt(p, now, calls) {
      StrayStrands(p, delay, now, calls);
    } else if HasTurn(p, now) {
      TurnScans(p, was, n, delay, now, calls, true);
      StrayedMore(calls, p.fired, p.list.tickets[p.list.cursor - 1]);
    }
  }

  lemma {:induction false} PhaseOf(trace: seq<Progress>, start: Progress, p: Progress, was: seq<Ticket>, delay: nat,
      now: int, calls: nat -> Call)
    requires IsTrace(trace, start, p, delay, now, calls) && !p.stopped
    requires Scanning(start, was, 0, delay, now, calls, true) && start.fired == []
    ensures Phase(trace, p, was, delay, now, calls)
    decreases |trace|
  {
    if |trace| > 1 {
      var before, most := trace[|trace| - 2], trace[..|trace| - 1];
      PhaseOf(most, start, before, was, delay, now, calls);
      PhaseTurn(trace, before, p, was, delay, now, calls);
    }
  }

  lemma StrayedPrefix(trace: seq<Progress>, m: nat, now: int, calls: nat -> Call)
    requires |trace| > 1
    ensures
      Strayed(trace, m, now, calls) <==>
        Strayed(trace[..|trace| - 1], m, now, calls) || (m == |trace| - 2 && StraysAt(trace[m], now, calls))
  {
  }

  lemma PhaseTurn(trace: seq<Progress>, before: Progress, p: Progress, was: seq<Ticket>, delay: nat, now: int,
      calls: nat -> Call)
    requires |trace| > 1 && before == trace[|trace| - 2] && p == NextTurn(before, delay, now, calls) && !p.stopped
    requires Phase(trace[..|trace| - 1], before, was, delay, now, calls)
    ensures Phase(trace, p, was, delay, now, calls)
  {
    var most := trace[..|trace| - 1];
    if m: nat :| Strayed(most, m, now, calls) {
      StrandedTurn(before, delay, now, calls);
      StillStranded(trace, before, p, was, delay, now, calls, m);
    } else {
      assert OnCourse(before, was, delay, now, calls);
      OnCourseTurn(before, was, delay, now, calls);
      FirstPhase(trace, most, before, p, was, delay, now, calls);
    }
  }

  /** No handler has strayed before the one called last. */
  lemma FirstPhase(trace: seq<Progress>, most: seq<Progress>, before: Progress, p: Progress, was: seq<Ticket>,
      delay: nat, now: int, calls: nat -> Call)
    requires |trace| > 1 && before == trace[|trace| - 2] && most == trace[..|trace| - 1]
    requires forall m: nat :: !Strayed(most, m, now, calls)
    requires !StraysAt(before, now, calls) ==> OnCourse(p, was, delay, now, calls)
    requires StraysAt(before, now, calls) ==> StrandedBy(before, p, delay, now, calls)
    ensures Phase(trace, p, was, delay, now, calls)
  {
    forall m: nat
      ensures Strayed(trace, m, now, calls) <==> m == |trace| - 2 && StraysAt(before, now, calls)
    {
      StrayedPrefix(trace, m, now, calls);
    }
    if StraysAt(before, now, calls) {
      assert Strayed(trace, |trace| - 2, now, calls);
    }
  }

  lemma StrandedLater(o: Progress, before: Progress, p: Progress, delay: nat, now: int, calls: nat -> Call)
    requires StrandedBy(o, before, delay, now, calls)
    requires Stranded(p, now) && p.fired == before.fired
    requires DueAndLive(p.list.tickets, now) == DueAndLive(before.list.tickets, now)
    ensures StrandedBy(o, p, delay, now, calls)
  {
  }

  /** After a stray, every stray accounts for where the scan is. */
  lemma PhaseStrands(trace: seq<Progress>, m: nat, p: Progress, was: seq<Ticket>, delay: nat, now: int,
      calls: nat -> Call)
    requires Phase(trace, p, was, delay, now, calls) && Strayed(trace, m, now, calls)
    ensures StrandedBy(trace[m], p, delay, now, calls)
  {
  }

  lemma StillStranded(trace: seq<Progress>, before: Progress, p: Progress, was: seq<Ticket>, delay: nat, now: int,
      calls: nat -> Call, m0: nat)
    requires |trace| > 1 && before == trace[|trace| - 2]
    requires Phase(trace[..|trace| - 1], before, was, delay, now, calls)
      && Strayed(trace[..|trace| - 1], m0, now, calls)
    requires Stranded(p, now) && p.fired == before.fired && !StraysAt(before, now, calls)
    requires DueAndLive(p.list.tickets, now) == DueAndLive(before.list.tickets, now)
    ensures Phase(trace, p, was, delay, now, calls)
  {
    StrayedPrefix(trace, m0, now, calls);
    forall m: nat | Strayed(trace, m, now, calls)
      ensures StrandedBy(trace[m], p, delay, now, calls)
    {
      StillStrandedBy(trace, m, before, p, was, delay, now, calls);
    }
  }

  lemma StillStrandedBy(trace: seq<Progress>, m: nat, before: Progress, p: Progress, was: seq<Ticket>, delay: nat,
      now: int, calls: nat -> Call)
    requires |trace| > 1 && before == trace[|trace| - 2] && Strayed(trace, m, now, calls)
    requires Phase(trace[..|trace| - 1], before, was, delay, now, calls) && !StraysAt(before, now, calls)
    requires Stranded(p, now) && p.fired == before.fired
    requires DueAndLive(p.list.tickets, now) == DueAndLive(before.list.tickets, now)
    ensures StrandedBy(trace[m], p, delay, now, calls)
  {
    StrayedPrefix(trace, m, now, calls);
    PhaseStrands(trace[..|trace| - 1], m, before, was, delay, now, calls);
    StrandedLater(trace[m], before, p, delay, now, calls);
  }

  /** Whenever a handler has strayed, no other live ticket was due when it returned. */
  ghost predicate NothingLeftBehind(trace: seq<Progress>, delay: nat, now: int, calls: nat -> Call) {
    forall m: nat :: Strayed(trace, m, now, calls) ==> DueAfter(trace[m], delay, now, calls) == []
  }

  /** A scan of a list whose tickets share one delay leaves nothing live due if and only if, when a handler
      moved its own ticket and opened none, no other live ticket was due as it returned.  Such a handler is
      the last that is called. */
  lemma LeavesNothingIff(trace: seq<Progress>, start: Progress, end: Progress, was: seq<Ticket>, delay: nat, now: int,
      calls: nat -> Call)
    requires IsTrace(trace, start, end, delay, now, calls) && !end.stopped && !HasTurn(end, now)
    requires Scanning(start, was, 0, delay, now, calls, true) && start.fired == []
    ensures NothingDue(end.list.tickets, now) <==> NothingLeftBehind(trace, delay, now, calls)
    ensures forall m: nat :: Strayed(trace, m, now, calls) ==> |end.fired| == |trace[m].fired| + 1
  {
    PhaseOf(trace, start, end, was, delay, now, calls);
    NoneDueAndLive(end.list.tickets, now);
    if forall m: nat :: !Strayed(trace, m, now, calls) {
      var n: nat :| Scanning(end, was, n, delay, now, calls, true);
      ScanEnds(end, was, n, delay, now, calls, true);
    } else {
      var m: nat :| Strayed(trace, m, now, calls);
      assert StrandedBy(trace[m], end, delay, now, calls);
    }
  }

  /** Two tickets are due, and the handler of the first resets it: that ticket is gone all the same, and
      the scan ends with the second still due. */
  lemma StrayLeavesDue(calls: nat -> Call)
    requires calls(0) == Call([Renew(0, 0)], false)
    ensures
      var a, b := Ticket(0, 10, 10, false), Ticket(1, 10, 12, false);
      var l := List([a, b], 1, 20, 2);
      && Good(l) && Steady(l, 10)
      && NextTurn(Progress(l, [], false), 10, 20, calls) == Progress(List([b], 0, 20, 2), [a], false)
      && !NothingDue([b], 20)
  {
    var a, b := Ticket(0, 10, 10, false), Ticket(1, 10, 12, false);
    var l := List([a, b], 1, 20, 2);
    var op := Renew(0, 0);
    var later := Renewed(a, 20);
    assert Without([a, b], 0) == [b];
    assert [op][..0] == [] && DoAll(l, 10, [op]) == Do(l, 10, op);
    assert Do(l, 10, op) == List([b, later], 2, 20, 2);
    PlaceIs([b, later], 0, 1);
    assert Without([b, later], 1) == [b];
  }
}
