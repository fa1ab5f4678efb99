/** The ticket timers of zloop as its code has them (src/zloop.c): a list that is changed in place. */
module Reactor {
  import opened Tickets
  import opened TicketScan
  import opened TicketStrays

  /** Deleted tickets at the end of a list were taken off. */
  ghost predicate Swept(was: List, l: List, delay: nat) {
    && Good(l) && l.tickets <= was.tickets && Live(l.tickets) == Live(was.tickets)
    && (Steady(was, delay) ==> Steady(l, delay))
  }

  lemma SweepsOne(was: List, l: List, delay: nat)
    requires Swept(was, l, delay) && l.tickets != [] && l.tickets[|l.tickets| - 1].deleted
    ensures
      var n := |l.tickets| - 1;
      Swept(was, l.(tickets := l.tickets[..n], cursor := n), delay)
  {
    DropLast(l.tickets);
    PrefixKept(l, delay, |l.tickets| - 1);
  }

  class Reactor {
    var tickets: seq<Ticket>
    var cursor: nat           // the place in the list, 0 before the first ticket
    var delay: nat
    var clock: int            // the last reading of zclock_mono
    var handles: nat          // how many handles were given out

    ghost function AsList(): List
      reads this
    {
      List(tickets, cursor, clock, handles)
    }

    ghost predicate Valid()
      reads this
    {
      Good(AsList())
    }

    constructor ()
      ensures Valid() && Steady(AsList(), delay) && tickets == []
    {
      tickets, cursor, delay, clock, handles := [], 0, 0, 0, 0;
    }

    /** zloop_set_ticket_delay */
    method SetDelay(ticketDelay: nat)
      requires Valid()
      modifies this`delay
      ensures Valid() && delay == ticketDelay && (tickets == [] ==> Steady(AsList(), delay))
      ensures old(Sound(tickets, clock, delay)) && old(delay) <= delay ==> Sound(tickets, clock, delay)
    {
      delay := ticketDelay;
    }

    /** zloop_ticket */
    method Create(elapsed: nat) returns (id: nat)
      requires Valid() && delay > 0
      modifies this`tickets, this`cursor, this`clock, this`handles
      ensures Valid() && AsList() == Do(old(AsList()), delay, Open(elapsed)) && id == old(handles)
      ensures old(Sound(tickets, clock, delay)) ==> Sound(tickets, clock, delay)
    {
      id := handles;
      if Sound(tickets, clock, delay) {
        CreateStaysSound(tickets, clock, delay, clock + elapsed, id);
      }
      clock := clock + elapsed;
      tickets, cursor, handles := tickets + [Ticket(id, delay, clock + delay, false)], 0, handles + 1;
    }

    /** zlistx_move_end on the ticket at index i, with what the caller changed in it. */
    method MoveEnd(i: nat, t: Ticket)
      requires Valid() && i < |tickets| && t.id == tickets[i].id && t.delay == tickets[i].delay
      modifies this`tickets, this`cursor
      ensures Valid() && AsList() == Moved(old(AsList()), i, t, clock)
    {
      MoveKeepsGood(AsList(), i, t, clock);
      cursor := CursorAfterMove(cursor, i, |tickets|);
      tickets := Without(tickets, i) + [t];
    }

    /** zloop_ticket_reset */
    method Reset(i: nat, elapsed: nat)
      requires Valid() && i < |tickets|
      modifies this`tickets, this`cursor, this`clock
      ensures Valid() && AsList() == Moved(old(AsList()), i, Renewed(old(tickets)[i], clock), old(clock) + elapsed)
      ensures old(Sound(tickets, clock, delay)) && old(tickets)[i].delay == delay ==> Sound(tickets, clock, delay)
    {
      if Sound(tickets, clock, delay) && tickets[i].delay == delay {
        ResetStaysSound(tickets, clock, delay, clock + elapsed, i);
      }
      clock := clock + elapsed;
      MoveEnd(i, Renewed(tickets[i], clock));
    }

    /** zloop_ticket_delete */
    method Delete(i: nat)
      requires Valid() && i < |tickets|
      modifies this`tickets, this`cursor
      ensures Valid() && AsList() == Moved(old(AsList()), i, old(tickets)[i].(deleted := true), clock)
      ensures old(Sound(tickets, clock, delay)) ==> Sound(tickets, clock, delay)
    {
      if Sound(tickets, clock, delay) {
        DeleteStaysSound(tickets, clock, delay, i);
      }
      MoveEnd(i, tickets[i].(deleted := true));
    }

    /** s_tickless: when to wake up, given the times of the ordinary timers. */
    method Tickless(limit: int, timers: seq<int>) returns (wake: int)
      requires Valid()
      ensures wake <= limit && forall k :: 0 <= k < |timers| ==> wake <= timers[k]
      ensures Ordered(tickets) ==> forall k :: 0 <= k < |tickets| && !tickets[k].deleted ==> wake <= tickets[k].when
      ensures wake == limit || wake in timers || (tickets != [] && wake == tickets[0].when)
    {
      wake := limit;
      for i := 0 to |timers|
        invariant wake <= limit && forall k :: 0 <= k < i ==> wake <= timers[k]
        invariant wake == limit || wake in timers
      {
        if wake > timers[i] {
          wake := timers[i];
        }
      }
      if tickets != [] && wake > tickets[0].when {
        wake := tickets[0].when;
      }
    }

    // ----- Firing -----

    /** One call a handler makes. */
    method Apply(op: Op)
      requires Valid()
      modifies this`tickets, this`cursor, this`clock, this`handles
      ensures Valid() && AsList() == Do(old(AsList()), delay, op)
    {
      match op
      case Open(elapsed) =>
        if delay > 0 {
          var id := Create(elapsed);
        }
      case Renew(id, elapsed) =>
        var i := Place(tickets, id);
        if i < |tickets| {
          Reset(i, elapsed);
        }
      case Drop(id) =>
        var i := Place(tickets, id);
        if i < |tickets| {
          Delete(i);
        }
    }

    /** What a handler does to the list. */
    method Perform(ops: seq<Op>)
      requires Valid()
      modifies this`tickets, this`cursor, this`clock, this`handles
      ensures Valid() && AsList() == DoAll(old(AsList()), delay, ops)
    {
      for k := 0 to |ops|
        invariant Valid() && AsList() == DoAll(old(AsList()), delay, ops[..k])
      {
        assert ops[..k + 1][..k] == ops[..k];
        Apply(ops[k]);
      }
      assert ops[..|ops|] == ops;
    }

    /** zlistx_delete on the ticket, then zlistx_next. */
    method RemoveAndNext(own: nat)
      requires Valid() && own in Ids(tickets)
      modifies this`tickets, this`cursor
      ensures AsList() == TakenOff(old(AsList()), own)
    {
      HasPlace(tickets, own);
      var i := Place(tickets, own);
      cursor := if cursor > i then cursor - 1 else cursor;
      tickets := Without(tickets, i);
      cursor := if cursor == |tickets| then 0 else cursor + 1;
    }

    /** The body of the scan's loop. */
    method Turn(now: int, calls: nat -> Call, fired: seq<Ticket>) returns (more: seq<Ticket>, rc: int)
      requires Valid() && now <= clock && HasTurn(Progress(AsList(), fired, false), now)
      modifies this`tickets, this`cursor, this`clock, this`handles
      ensures rc == 0 || rc == -1
      ensures Progress(AsList(), more, rc == -1) == NextTurn(Progress(old(AsList()), fired, false), delay, now, calls)
    {
      var ticket := tickets[cursor - 1];
      assert ticket in tickets;
      more, rc := fired, 0;
      if !ticket.deleted {
        var call := calls(|fired|);
        more := fired + [ticket];
        DoAllKept(AsList(), delay, call.ops, ticket.id, now);
        Perform(call.ops);
        if call.stop {
          return more, -1;
        }
      }
      RemoveAndNext(ticket.id);
    }

    /** The same, in the course of a scan that began with the tickets `was`. */
    method ScanTurn(now: int, calls: nat -> Call, fired: seq<Ticket>, ghost was: seq<Ticket>, ghost n: nat,
        ghost steady: bool) returns (more: seq<Ticket>, rc: int)
      requires Scanning(Progress(AsList(), fired, false), was, n, delay, now, calls, steady)
        && HasTurn(Progress(AsList(), fired, false), now)
      modifies this`tickets, this`cursor, this`clock, this`handles
      ensures rc == 0 || rc == -1
      ensures Progress(AsList(), more, rc == -1) == NextTurn(Progress(old(AsList()), fired, false), delay, now, calls)
      ensures rc == -1 ==> Outcome(Progress(AsList(), more, true), was, delay, now, calls, steady)
      ensures rc == 0 ==> Scanning(Progress(AsList(), more, false), was, n + 1, delay, now, calls, steady)
      ensures rc == 0 ==> DueIds(tickets, now) < old(DueIds(tickets, now))
    {
      TurnScans(Progress(AsList(), fired, false), was, n, delay, now, calls, steady);
      more, rc := Turn(now, calls, fired);
    }

    /** The loop of the scan. */
    method Scan(now: int, calls: nat -> Call, ghost steady: bool)
        returns (fired: seq<Ticket>, rc: int, ghost trace: seq<Progress>)
      requires Scanning(Progress(AsList(), [], false), tickets, 0, delay, now, calls, steady)
      modifies this`tickets, this`cursor, this`clock, this`handles
      ensures rc == 0 || rc == -1
      ensures IsTrace(trace, Progress(old(AsList()), [], false), Progress(AsList(), fired, rc == -1), delay, now, calls)
      ensures !HasTurn(Progress(AsList(), fired, rc == -1), now)
      ensures Outcome(Progress(AsList(), fired, rc == -1), old(tickets), delay, now, calls, steady)
    {
      fired, rc := [], 0;
      trace := [Progress(AsList(), [], false)];
      ghost var n := 0;
      while cursor > 0 && Due(tickets[cursor - 1], now)
        invariant rc == 0 && Scanning(Progress(AsList(), fired, false), old(tickets), n, delay, now, calls, steady)
        invariant IsTrace(trace, Progress(old(AsList()), [], false), Progress(AsList(), fired, false), delay, now,
          calls)
        decreases DueIds(tickets, now)
      {
        TraceGoesOn(trace, Progress(old(AsList()), [], false), Progress(AsList(), fired, false), delay, now, calls);
        fired, rc := ScanTurn(now, calls, fired, old(tickets), n, steady);
        trace, n := trace + [Progress(AsList(), fired, rc == -1)], n + 1;
        if rc == -1 {
          return;
        }
      }
      ScanEnds(Progress(AsList(), fired, false), old(tickets), n, delay, now, calls, steady);
    }

    /** The scan of zloop_start over the tickets, at the time `now`.  The k-th handler called does
        calls(k).  The scan goes through the states of the trace and ends with the outcome described at
        Outcome. */
    method Fire(now: int, calls: nat -> Call) returns (fired: seq<Ticket>, rc: int, ghost trace: seq<Progress>)
      requires Valid() && now <= clock
      modifies this`tickets, this`cursor, this`clock, this`handles
      ensures rc == 0 || rc == -1
      ensures
        var start := old(AsList()).(cursor := if old(tickets) == [] then 0 else 1);
        var end := Progress(AsList(), fired, rc == -1);
        && IsTrace(trace, Progress(start, [], false), end, delay, now, calls) && !HasTurn(end, now)
        && Outcome(end, old(tickets), delay, now, calls, old(Steady(AsList(), delay)))
      ensures rc == 0 && old(Steady(AsList(), delay)) ==>
        (NothingDue(tickets, now) <==> NothingLeftBehind(trace, delay, now, calls))
      ensures rc == -1 ==>
        exists m: nat :: StopsAt(trace, m, Progress(AsList(), fired, true), delay, now, calls)
    {
      cursor := if tickets == [] then 0 else 1;
      ghost var start, was, steady := Progress(AsList(), [], false), tickets, Steady(AsList(), delay);
      ScanStarts(AsList(), delay, now, calls);
      fired, rc, trace := Scan(now, calls, steady);
      if rc == 0 && steady {
        LeavesNothingIff(trace, start, Progress(AsList(), fired, false), was, delay, now, calls);
      }
      if rc == -1 {
        ghost var m := StoppedWhere(trace, start, Progress(AsList(), fired, true), delay, now, calls);
      }
    }

    /** The second loop of the turn: take the deleted tickets off the end.  No live ticket goes, and the
        list does not end in a deleted one. */
    method Sweep()
      requires Valid()
      modifies this`tickets, this`cursor
      ensures Valid() && tickets <= old(tickets) && Live(tickets) == Live(old(tickets))
      ensures tickets != [] ==> !tickets[|tickets| - 1].deleted
      ensures old(Steady(AsList(), delay)) ==> Steady(AsList(), delay)
    {
      ghost var was := AsList();
      cursor := |tickets|;
      while cursor > 0 && tickets[cursor - 1].deleted
        invariant cursor == |tickets| && Swept(was, AsList(), delay)
        decreases |tickets|
      {
        SweepsOne(was, AsList(), delay);
        tickets := tickets[..|tickets| - 1];
        cursor := |tickets|;
      }
    }
  }
}
