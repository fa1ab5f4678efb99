/** The ticket list of the reactor and what the code does to it (src/zloop.c), as functions; and what
    that keeps. */
module TicketScan {
  import opened Tickets

  /** What a handler may do to the tickets.  `elapsed` is how long after the last reading the clock is
      read; a handle that is no longer in the list, and a new ticket without a delay, stand for no call. */
  datatype Op = Open(elapsed: nat) | Renew(id: nat, elapsed: nat) | Drop(id: nat)

  /** One call of a handler: what it does, and whether it returns -1. */
  datatype Call = Call(ops: seq<Op>, stop: bool)

  /** Where a cursor at place c is after the ticket at index i was moved to the end. */
  function CursorAfterMove(c: nat, i: nat, n: nat): nat {
    if c == i + 1 then n else if c > i + 1 then c - 1 else c
  }

  /** The list with its cursor, the clock, and how many handles were given out. */
  datatype List = List(tickets: seq<Ticket>, cursor: nat, clock: int, handles: nat)

  /** The index of the ticket with this handle, or the length of the list. */
  function Place(ts: seq<Ticket>, id: nat): (i: nat)
    ensures i <= |ts| && (i < |ts| ==> ts[i].id == id)
  {
    if ts == [] || ts[0].id == id then 0 else 1 + Place(ts[1..], id)
  }

  lemma {:induction false} PlaceIs(ts: seq<Ticket>, id: nat, i: nat)
    requires Distinct(ts) && i < |ts| && ts[i].id == id
    ensures Place(ts, id) == i
  {
    if i > 0 {
      PlaceIs(ts[1..], id, i - 1);
    }
  }

  lemma {:induction false} PlaceOfNone(ts: seq<Ticket>, id: nat)
    requires forall i :: 0 <= i < |ts| ==> ts[i].id != id
    ensures Place(ts, id) == |ts|
  {
    if ts != [] {
      PlaceOfNone(ts[1..], id);
    }
  }

  function Moved(l: List, i: nat, t: Ticket, now: int): List
    requires i < |l.tickets|
  {
    List(Without(l.tickets, i) + [t], CursorAfterMove(l.cursor, i, |l.tickets|), now, l.handles)
  }

  function Do(l: List, delay: nat, op: Op): List {
    match op
    case Open(e) =>
      if delay == 0 then l
      else List(l.tickets + [Ticket(l.handles, delay, l.clock + e + delay, false)], 0, l.clock + e, l.handles + 1)
    case Renew(id, e) =>
      var i := Place(l.tickets, id);
      if i < |l.tickets| then Moved(l, i, Renewed(l.tickets[i], l.clock + e), l.clock + e) else l
    case Drop(id) =>
      var i := Place(l.tickets, id);
      if i < |l.tickets| then Moved(l, i, l.tickets[i].(deleted := true), l.clock) else l
  }

  function DoAll(l: List, delay: nat, ops: seq<Op>): List {
    if ops == [] then l else Do(DoAll(l, delay, ops[..|ops| - 1]), delay, ops[|ops| - 1])
  }

  /** zlistx_delete on the ticket with this handle, then zlistx_next. */
  function TakenOff(l: List, id: nat): List {
    var i := Place(l.tickets, id);
    if i == |l.tickets| then l
    else
      var rest := Without(l.tickets, i);
      var c := if l.cursor > i then l.cursor - 1 else l.cursor;
      List(rest, if c == |rest| then 0 else c + 1, l.clock, l.handles)
  }

  /** A scan under way: the list, what was fired, and whether a handler has returned -1. */
  datatype Progress = Progress(list: List, fired: seq<Ticket>, stopped: bool)

  /** One turn of the scan; it changes nothing once the scan is over. */
  function NextTurn(p: Progress, delay: nat, now: int, calls: nat -> Call): Progress {
    var l := p.list;
    if p.stopped || l.cursor == 0 || l.cursor > |l.tickets| || !Due(l.tickets[l.cursor - 1], now) then p
    else
      var t := l.tickets[l.cursor - 1];
      if t.deleted then Progress(TakenOff(l, t.id), p.fired, false)
      else
        var call := calls(|p.fired|);
        var after := DoAll(l, delay, call.ops);
        Progress(if call.stop then after else TakenOff(after, t.id), p.fired + [t], call.stop)
  }

  /** The states a scan goes through from `start` to `end`. */
  ghost predicate IsTrace(trace: seq<Progress>, start: Progress, end: Progress, delay: nat, now: int,
      calls: nat -> Call)
  {
    && trace != [] && trace[|trace| - 1] == end
    && if |trace| == 1 then end == start
       else
         var before := trace[|trace| - 2];
         IsTrace(trace[..|trace| - 1], start, before, delay, now, calls) && end == NextTurn(before, delay, now, calls)
  }

  lemma TraceGoesOn(trace: seq<Progress>, start: Progress, p: Progress, delay: nat, now: int, calls: nat -> Call)
    requires IsTrace(trace, start, p, delay, now, calls)
    ensures IsTrace(trace + [NextTurn(p, delay, now, calls)], start, NextTurn(p, delay, now, calls), delay, now, calls)
  {
    var q := NextTurn(p, delay, now, calls);
    assert (trace + [q])[..|trace|] == trace;
  }

  /** The scan was in the m-th state when the handler was called that returned -1, and ended with the list as
      that handler left it. */
  ghost predicate StopsAt(trace: seq<Progress>, m: nat, end: Progress, delay: nat, now: int, calls: nat -> Call) {
    && m + 1 < |trace| && HasTurn(trace[m], now)
    && var l, fired := trace[m].list, trace[m].fired;
       && calls(|fired|).stop
       && end == Progress(DoAll(l, delay, calls(|fired|).ops), fired + [l.tickets[l.cursor - 1]], true)
  }

  lemma {:induction false} StoppedWhere(trace: seq<Progress>, start: Progress, end: Progress, delay: nat, now: int,
      calls: nat -> Call) returns (m: nat)
    requires IsTrace(trace, start, end, delay, now, calls) && !start.stopped && end.stopped
    ensures StopsAt(trace, m, end, delay, now, calls)
    decreases |trace|
  {
    var most, before := trace[..|trace| - 1], trace[|trace| - 2];
    if before.stopped {
      m := StoppedWhere(most, start, before, delay, now, calls);
      assert most[m] == trace[m];
    } else {
      m := |trace| - 2;
    }
  }

  // ----- Handles -----

  ghost function Ids(ts: seq<Ticket>): set<nat> {
    set t | t in ts :: t.id
  }

  ghost function DueIds(ts: seq<Ticket>, now: int): set<nat> {
    set t | t in ts && Due(t, now) :: t.id
  }

  lemma MoveKeepsIds(ts: seq<Ticket>, i: nat, t: Ticket)
    requires i < |ts| && t.id == ts[i].id
    ensures Ids(Without(ts, i) + [t]) == Ids(ts)
  {
    var us := Without(ts, i) + [t];
    forall u | u in us
      ensures u.id in Ids(ts)
    {
      var k :| 0 <= k < |us| && us[k] == u;
      assert ts[if k == |ts| - 1 then i else if k < i then k else k + 1] in ts;
    }
    forall u | u in ts
      ensures u.id in Ids(us)
    {
      var k :| 0 <= k < |ts| && ts[k] == u;
      assert us[if k < i then k else if k == i then |ts| - 1 else k - 1] in us;
    }
  }

  lemma MoveMakesNothingDue(ts: seq<Ticket>, i: nat, t: Ticket, now: int)
    requires i < |ts| && t.id == ts[i].id && (Due(t, now) ==> Due(ts[i], now))
    ensures DueIds(Without(ts, i) + [t], now) <= DueIds(ts, now)
  {
    var us := Without(ts, i) + [t];
    forall u | u in us && Due(u, now)
      ensures u.id in DueIds(ts, now)
    {
      var k :| 0 <= k < |us| && us[k] == u;
      assert ts[if k == |ts| - 1 then i else if k < i then k else k + 1] in ts;
    }
  }

  lemma AppendIds(ts: seq<Ticket>, t: Ticket, now: int)
    requires !Due(t, now)
    ensures Ids(ts + [t]) == Ids(ts) + {t.id} && DueIds(ts + [t], now) == DueIds(ts, now)
  {
    var us := ts + [t];
    assert us[|ts|] == t;
    assert forall u :: u in us <==> u in ts || u == t;
  }

  lemma WithoutIds(ts: seq<Ticket>, i: nat, now: int)
    requires i < |ts| && Distinct(ts)
    ensures Ids(Without(ts, i)) == Ids(ts) - {ts[i].id}
    ensures DueIds(Without(ts, i), now) == DueIds(ts, now) - {ts[i].id}
  {
    var us := Without(ts, i);
    WithoutKeepsOrder(ts, i);
    forall u | u in us
      ensures u in ts && u.id != ts[i].id
    {
      var k :| 0 <= k < |us| && us[k] == u;
      assert ts[if k < i then k else k + 1] in ts;
    }
    forall u | u in ts && u != ts[i]
      ensures u in us
    {
      var k :| 0 <= k < |ts| && ts[k] == u;
      assert us[if k < i then k else k - 1] in us;
    }
  }

  // ----- What every operation keeps -----

  ghost predicate Good(l: List) {
    && Distinct(l.tickets) && l.cursor <= |l.tickets|
    && forall i :: 0 <= i < |l.tickets| ==> l.tickets[i].id < l.handles && l.tickets[i].delay > 0
  }

  /** All tickets have the delay that is set, and the list is in order. */
  ghost predicate Steady(l: List, delay: nat) {
    Sound(l.tickets, l.clock, delay) && forall i :: 0 <= i < |l.tickets| ==> l.tickets[i].delay == delay
  }

  lemma PrefixKept(l: List, delay: nat, n: nat)
    requires Good(l) && n <= |l.tickets|
    ensures
      var l' := l.(tickets := l.tickets[..n], cursor := n);
      Good(l') && (Steady(l, delay) ==> Steady(l', delay))
  {
  }

  lemma MoveKeepsGood(l: List, i: nat, t: Ticket, at: int)
    requires Good(l) && i < |l.tickets| && t.id == l.tickets[i].id && t.delay == l.tickets[i].delay
    ensures Good(Moved(l, i, t, at))
  {
    WithoutKeepsOrder(l.tickets, i);
  }

  /** The cursor is before the list or at the ticket with this handle. */
  ghost predicate CursorAt(l: List, own: nat) {
    l.cursor == 0 || (l.cursor <= |l.tickets| && l.tickets[l.cursor - 1].id == own)
  }

  /** The handler of the ticket `own` is running, in a scan at the time `now`. */
  ghost predicate Running(l: List, own: nat, now: int) {
    Good(l) && CursorAt(l, own) && own in Ids(l.tickets) && now <= l.clock
  }

  /** What a handler called for the ticket `own` keeps, whatever it does: the ticket stays in the list,
      the cursor with it, and nothing becomes due. */
  ghost predicate Kept(l: List, l': List, own: nat, now: int) {
    && Running(l', own, now) && l.clock <= l'.clock && l.handles <= l'.handles
    && (forall id :: id in Ids(l'.tickets) ==> id in Ids(l.tickets) || l.handles <= id)
    && DueIds(l'.tickets, now) <= DueIds(l.tickets, now)
  }

  lemma OpenKept(l: List, delay: nat, e: nat, own: nat, now: int)
    requires Running(l, own, now) && delay > 0
    ensures Kept(l, Do(l, delay, Open(e)), own, now)
  {
    AppendIds(l.tickets, Ticket(l.handles, delay, l.clock + e + delay, false), now);
  }

  lemma MoveKept(l: List, i: nat, t: Ticket, at: int, own: nat, now: int)
    requires Running(l, own, now) && i < |l.tickets| && l.clock <= at
    requires t.id == l.tickets[i].id && t.delay == l.tickets[i].delay && (Due(t, now) ==> Due(l.tickets[i], now))
    ensures Kept(l, Moved(l, i, t, at), own, now)
  {
    MoveKeepsGood(l, i, t, at);
    MoveKeepsIds(l.tickets, i, t);
    MoveMakesNothingDue(l.tickets, i, t, now);
  }

  lemma KeptSelf(l: List, own: nat, now: int)
    requires Running(l, own, now)
    ensures Kept(l, l, own, now)
  {
  }

  /** A reset moves the ticket to the end, where it is not due. */
  lemma RenewMoves(l: List, delay: nat, id: nat, e: nat, now: int)
    requires Good(l) && now <= l.clock && Place(l.tickets, id) < |l.tickets|
    ensures
      var i := Place(l.tickets, id);
      var t := Renewed(l.tickets[i], l.clock + e);
      Do(l, delay, Renew(id, e)) == Moved(l, i, t, l.clock + e) && !Due(t, now)
  {
    assert l.tickets[Place(l.tickets, id)].delay > 0;
  }

  lemma RenewKept(l: List, delay: nat, id: nat, e: nat, own: nat, now: int)
    requires Running(l, own, now)
    ensures Kept(l, Do(l, delay, Renew(id, e)), own, now)
  {
    var i := Place(l.tickets, id);
    if i < |l.tickets| {
      var t := Renewed(l.tickets[i], l.clock + e);
      RenewMoves(l, delay, id, e, now);
      MoveKept(l, i, t, l.clock + e, own, now);
    } else {
      KeptSelf(l, own, now);
    }
  }

  lemma DropKept(l: List, delay: nat, id: nat, own: nat, now: int)
    requires Running(l, own, now)
    ensures Kept(l, Do(l, delay, Drop(id)), own, now)
  {
    var i := Place(l.tickets, id);
    if i < |l.tickets| {
      MoveKept(l, i, l.tickets[i].(deleted := true), l.clock, own, now);
    } else {
      KeptSelf(l, own, now);
    }
  }

  lemma DoKept(l: List, delay: nat, op: Op, own: nat, now: int)
    requires Running(l, own, now)
    ensures Kept(l, Do(l, delay, op), own, now)
  {
    match op
    case Open(e) =>
      if delay > 0 {
        OpenKept(l, delay, e, own, now);
      } else {
        KeptSelf(l, own, now);
      }
    case Renew(id, e) => RenewKept(l, delay, id, e, own, now);
    case Drop(id) => DropKept(l, delay, id, own, now);
  }

  lemma KeptTwice(a: List, b: List, c: List, own: nat, now: int)
    requires Kept(a, b, own, now) && Kept(b, c, own, now)
    ensures Kept(a, c, own, now)
  {
  }

  /** Whatever a handler does, its own ticket stays in the list, the cursor with it, and nothing becomes
      due. */
  lemma {:induction false} DoAllKept(l: List, delay: nat, ops: seq<Op>, own: nat, now: int)
    requires Running(l, own, now)
    ensures Kept(l, DoAll(l, delay, ops), own, now)
  {
    if ops == [] {
      KeptSelf(l, own, now);
    } else {
      var mid := DoAll(l, delay, ops[..|ops| - 1]);
      DoAllKept(l, delay, ops[..|ops| - 1], own, now);
      DoKept(mid, delay, ops[|ops| - 1], own, now);
      KeptTwice(l, mid, DoAll(l, delay, ops), own, now);
    }
  }

  // ----- The order -----

  lemma OpenSteady(l: List, delay: nat, e: nat)
    requires Steady(l, delay)
    ensures Steady(Do(l, delay, Open(e)), delay)
  {
    CreateStaysSound(l.tickets, l.clock, delay, l.clock + e, l.handles);
  }

  lemma MoveSteady(l: List, delay: nat, i: nat, t: Ticket, at: int)
    requires Steady(l, delay) && i < |l.tickets| && t.delay == delay && Sound(Without(l.tickets, i) + [t], at, delay)
    ensures Steady(Moved(l, i, t, at), delay)
  {
  }

  lemma RenewSteady(l: List, delay: nat, id: nat, e: nat)
    requires Steady(l, delay)
    ensures Steady(Do(l, delay, Renew(id, e)), delay)
  {
    var i := Place(l.tickets, id);
    if i < |l.tickets| {
      ResetStaysSound(l.tickets, l.clock, delay, l.clock + e, i);
      MoveSteady(l, delay, i, Renewed(l.tickets[i], l.clock + e), l.clock + e);
    }
  }

  lemma DropSteady(l: List, delay: nat, id: nat)
    requires Steady(l, delay)
    ensures Steady(Do(l, delay, Drop(id)), delay)
  {
    var i := Place(l.tickets, id);
    if i < |l.tickets| {
      DeleteStaysSound(l.tickets, l.clock, delay, i);
      MoveSteady(l, delay, i, l.tickets[i].(deleted := true), l.clock);
    }
  }

  lemma DoSteady(l: List, delay: nat, op: Op)
    requires Steady(l, delay)
    ensures Steady(Do(l, delay, op), delay)
  {
    match op
    case Open(e) => OpenSteady(l, delay, e);
    case Renew(id, e) => RenewSteady(l, delay, id, e);
    case Drop(id) => DropSteady(l, delay, id);
  }

  /** In a list whose tickets have the delay that is set, no handler disturbs the order. */
  lemma {:induction false} DoAllSteady(l: List, delay: nat, ops: seq<Op>)
    requires Steady(l, delay)
    ensures Steady(DoAll(l, delay, ops), delay)
  {
    if ops != [] {
      DoAllSteady(l, delay, ops[..|ops| - 1]);
      DoSteady(DoAll(l, delay, ops[..|ops| - 1]), delay, ops[|ops| - 1]);
    }
  }

  lemma TakenOffSteady(l: List, delay: nat, id: nat)
    requires Steady(l, delay)
    ensures Steady(TakenOff(l, id), delay)
  {
    var i := Place(l.tickets, id);
    if i < |l.tickets| {
      WithoutStaysSound(l.tickets, l.clock, delay, i);
    }
  }

  // ----- The cursor -----

  predicate SelfMove(op: Op, own: nat) {
    !op.Open? && op.id == own
  }

  lemma DoMovesCursor(l: List, delay: nat, op: Op, own: nat)
    requires Good(l) && CursorAt(l, own)
    ensures l.cursor == 0 || (op.Open? && delay > 0) ==> Do(l, delay, op).cursor == 0
    ensures !SelfMove(op, own) && l.cursor <= 1 ==> Do(l, delay, op).cursor <= 1
  {
  }

  predicate Opens(ops: seq<Op>) {
    exists k :: 0 <= k < |ops| && ops[k].Open?
  }

  predicate MovesSelf(ops: seq<Op>, own: nat) {
    exists k :: 0 <= k < |ops| && SelfMove(ops[k], own)
  }

  /** The handler moves its own ticket and opens none. */
  predicate Strays(ops: seq<Op>, own: nat) {
    MovesSelf(ops, own) && !Opens(ops)
  }

  lemma LastOp(ops: seq<Op>, own: nat)
    requires ops != []
    ensures Opens(ops) <==> Opens(ops[..|ops| - 1]) || ops[|ops| - 1].Open?
    ensures MovesSelf(ops, own) <==> MovesSelf(ops[..|ops| - 1], own) || SelfMove(ops[|ops| - 1], own)
  {
    var most := ops[..|ops| - 1];
    assert forall k :: 0 <= k < |most| ==> most[k] == ops[k];
  }

  /** Unless a handler moves its own ticket and opens none, the cursor stays at the head of the list. */
  lemma {:induction false} DoAllMovesCursor(l: List, delay: nat, ops: seq<Op>, own: nat, now: int)
    requires Running(l, own, now)
    ensures delay > 0 && Opens(ops) ==> DoAll(l, delay, ops).cursor == 0
    ensures l.cursor <= 1 && !MovesSelf(ops, own) ==> DoAll(l, delay, ops).cursor <= 1
  {
    if ops != [] {
      var most := ops[..|ops| - 1];
      DoAllMovesCursor(l, delay, most, own, now);
      DoAllKept(l, delay, most, own, now);
      DoMovesCursor(DoAll(l, delay, most), delay, ops[|ops| - 1], own);
      LastOp(ops, own);
    }
  }

  // ----- One turn -----

  /** The turn of one due ticket is over: it is gone, and nothing became due by it. */
  ghost predicate Turned(l: List, l': List, own: nat, now: int) {
    && Good(l') && l.clock <= l'.clock && l.handles <= l'.handles
    && (forall id :: id in Ids(l'.tickets) ==> id != own && (id in Ids(l.tickets) || l.handles <= id))
    && DueIds(l'.tickets, now) <= DueIds(l.tickets, now) - {own}
  }

  lemma HasPlace(ts: seq<Ticket>, id: nat)
    requires id in Ids(ts) && Distinct(ts)
    ensures Place(ts, id) < |ts|
  {
    var i :| 0 <= i < |ts| && ts[i].id == id;
    PlaceIs(ts, id, i);
  }

  /** The cursor is at the first ticket, if there is one. */
  predicate AtHead(l: List) {
    l.cursor == if l.tickets == [] then 0 else 1
  }

  lemma TakenOffGood(l: List, own: nat)
    requires Good(l) && own in Ids(l.tickets)
    ensures Good(TakenOff(l, own))
  {
    HasPlace(l.tickets, own);
    WithoutKeepsOrder(l.tickets, Place(l.tickets, own));
  }

  lemma TakenOffHead(l: List, own: nat, now: int)
    requires Running(l, own, now)
    ensures l.cursor <= 1 ==> AtHead(TakenOff(l, own))
    ensures l.cursor == 1 ==> TakenOff(l, own).tickets == l.tickets[1..]
  {
    HasPlace(l.tickets, own);
    if l.cursor > 0 {
      PlaceIs(l.tickets, own, l.cursor - 1);
      assert l.cursor == 1 ==> Without(l.tickets, 0) == l.tickets[1..];
    }
  }

  lemma TakenOffTurned(l: List, own: nat, now: int)
    requires Running(l, own, now)
    ensures Turned(l, TakenOff(l, own), own, now)
    ensures l.cursor <= 1 ==> AtHead(TakenOff(l, own))
    ensures l.cursor == 1 ==> TakenOff(l, own).tickets == l.tickets[1..]
  {
    HasPlace(l.tickets, own);
    WithoutIds(l.tickets, Place(l.tickets, own), now);
    TakenOffGood(l, own);
    TakenOffHead(l, own, now);
  }

  /** A ticket whose handler was called is gone afterwards, even if the handler reset it. */
  lemma HandledTurned(l: List, delay: nat, ops: seq<Op>, own: nat, now: int)
    requires Running(l, own, now)
    ensures Turned(l, TakenOff(DoAll(l, delay, ops), own), own, now)
    ensures delay > 0 && l.cursor <= 1 && !Strays(ops, own) ==> AtHead(TakenOff(DoAll(l, delay, ops), own))
  {
    DoAllKept(l, delay, ops, own, now);
    DoAllMovesCursor(l, delay, ops, own, now);
    TakenOffTurned(DoAll(l, delay, ops), own, now);
  }

  // ----- The scan -----

  /** No handler so far moved its own ticket without opening another. */
  ghost predicate NoneStrayed(calls: nat -> Call, fired: seq<Ticket>) {
    forall k :: 0 <= k < |fired| ==> !Strays(calls(k).ops, fired[k].id)
  }

  lemma StrayedMore(calls: nat -> Call, fired: seq<Ticket>, t: Ticket)
    ensures NoneStrayed(calls, fired + [t]) <==> NoneStrayed(calls, fired) && !Strays(calls(|fired|).ops, t.id)
  {
    var more := fired + [t];
    assert more[|fired|] == t && forall k :: 0 <= k < |fired| ==> more[k] == fired[k];
  }

  /** No handler does anything but return. */
  ghost predicate AllQuiet(calls: nat -> Call) {
    forall k :: calls(k).ops == []
  }

  /** None of the first n handlers returned -1. */
  ghost predicate NoneStopped(calls: nat -> Call, n: nat) {
    forall k :: 0 <= k < n ==> !calls(k).stop
  }

  /** What is fired is due and live, and once each. */
  ghost predicate FiredOnce(fired: seq<Ticket>, now: int) {
    Distinct(fired) && forall k :: 0 <= k < |fired| ==> fired[k].when <= now && !fired[k].deleted
  }

  ghost predicate AllGone(fired: seq<Ticket>, l: List) {
    forall k :: 0 <= k < |fired| ==> fired[k].id < l.handles && fired[k].id !in Ids(l.tickets)
  }

  lemma FiredMore(fired: seq<Ticket>, t: Ticket, l: List, l': List, now: int)
    requires FiredOnce(fired, now) && AllGone(fired, l) && Good(l) && t in l.tickets && Due(t, now)
      && Turned(l, l', t.id, now)
    ensures AllGone(fired, l') && (!t.deleted ==> AllGone(fired + [t], l'))
  {
    var more := fired + [t];
    assert forall k :: 0 <= k < |fired| ==> more[k] == fired[k];
    var i :| 0 <= i < |l.tickets| && l.tickets[i] == t;
  }

  lemma FiredOnceMore(fired: seq<Ticket>, t: Ticket, l: List, now: int)
    requires FiredOnce(fired, now) && AllGone(fired, l) && t in l.tickets && Due(t, now) && !t.deleted
    ensures FiredOnce(fired + [t], now)
  {
    assert forall k :: 0 <= k < |fired| ==> fired[k].id != t.id;
  }

  /** With quiet handlers: the first n tickets of `was` are dealt with, and the cursor is at the next. */
  ghost predicate QuietlyAt(p: Progress, was: seq<Ticket>, n: nat, now: int) {
    n <= DuePrefix(was, now) && p.list.tickets == was[n..] && p.fired == Live(was[..n]) && AtHead(p.list)
  }

  /** Where the scan is: n turns after it began with the tickets `was`. */
  ghost predicate Scanning(p: Progress, was: seq<Ticket>, n: nat, delay: nat, now: int, calls: nat -> Call,
      steady: bool)
  {
    && !p.stopped && Good(p.list) && now <= p.list.clock && (steady ==> Steady(p.list, delay))
    && FiredOnce(p.fired, now) && AllGone(p.fired, p.list) && NoneStopped(calls, |p.fired|)
    && (steady && NoneStrayed(calls, p.fired) ==> AtHead(p.list))
    && (AllQuiet(calls) ==> QuietlyAt(p, was, n, now))
  }

  ghost predicate HasTurn(p: Progress, now: int) {
    !p.stopped && 0 < p.list.cursor <= |p.list.tickets| && Due(p.list.tickets[p.list.cursor - 1], now)
  }

  lemma QuietTurn(p: Progress, was: seq<Ticket>, n: nat, delay: nat, now: int, calls: nat -> Call)
    requires QuietlyAt(p, was, n, now) && HasTurn(p, now) && AllQuiet(calls) && Good(p.list) && now <= p.list.clock
    requires p.list.tickets[p.list.cursor - 1].deleted || !calls(|p.fired|).stop
    ensures QuietlyAt(NextTurn(p, delay, now, calls), was, n + 1, now)
  {
    LiveAppend(was, n);
    var t := p.list.tickets[0];
    assert t in p.list.tickets;
    assert DoAll(p.list, delay, []) == p.list;
    TakenOffTurned(p.list, t.id, now);
    assert was[n..][1..] == was[n + 1..];
  }

  /** The turn of ticket t left the list l' behind. */
  lemma ScansOn(p: Progress, t: Ticket, l': List, was: seq<Ticket>, n: nat, delay: nat, now: int, calls: nat -> Call,
      steady: bool)
    requires Scanning(p, was, n, delay, now, calls, steady) && t in p.list.tickets && Due(t, now)
    requires Turned(p.list, l', t.id, now) && (steady ==> Steady(l', delay)) && (t.deleted || !calls(|p.fired|).stop)
    requires
      var q := Progress(l', if t.deleted then p.fired else p.fired + [t], false);
      && (steady && NoneStrayed(calls, q.fired) ==> AtHead(l'))
      && (AllQuiet(calls) ==> QuietlyAt(q, was, n + 1, now))
    ensures
      var q := Progress(l', if t.deleted then p.fired else p.fired + [t], false);
      Scanning(q, was, n + 1, delay, now, calls, steady) && DueIds(l'.tickets, now) < DueIds(p.list.tickets, now)
  {
    assert t.id in DueIds(p.list.tickets, now);
    FiredMore(p.fired, t, p.list, l', now);
    if !t.deleted {
      FiredOnceMore(p.fired, t, p.list, now);
    }
  }

  /** The turn of a deleted ticket takes it off and does no more. */
  lemma SkipTurn(p: Progress, delay: nat, now: int, calls: nat -> Call)
    requires Good(p.list) && now <= p.list.clock && HasTurn(p, now) && p.list.tickets[p.list.cursor - 1].deleted
    ensures
      var t := p.list.tickets[p.list.cursor - 1];
      && t in p.list.tickets && Running(p.list, t.id, now)
      && NextTurn(p, delay, now, calls) == Progress(TakenOff(p.list, t.id), p.fired, false)
      && Turned(p.list, TakenOff(p.list, t.id), t.id, now)
  {
    var t := p.list.tickets[p.list.cursor - 1];
    assert t in p.list.tickets;
    TakenOffTurned(p.list, t.id, now);
  }

  lemma SkipSteady(l: List, delay: nat, id: nat, now: int)
    requires Steady(l, delay) && Running(l, id, now)
    ensures Steady(TakenOff(l, id), delay) && (AtHead(l) ==> AtHead(TakenOff(l, id)))
  {
    TakenOffSteady(l, delay, id);
    TakenOffHead(l, id, now);
  }

  lemma SkipScans(p: Progress, was: seq<Ticket>, n: nat, delay: nat, now: int, calls: nat -> Call, steady: bool)
    requires Scanning(p, was, n, delay, now, calls, steady) && HasTurn(p, now)
      && p.list.tickets[p.list.cursor - 1].deleted
    ensures
      var q := NextTurn(p, delay, now, calls);
      Scanning(q, was, n + 1, delay, now, calls, steady) && DueIds(q.list.tickets, now) < DueIds(p.list.tickets, now)
  {
    var t := p.list.tickets[p.list.cursor - 1];
    SkipTurn(p, delay, now, calls);
    if AllQuiet(calls) {
      QuietTurn(p, was, n, delay, now, calls);
    }
    if steady {
      SkipSteady(p.list, delay, t.id, now);
    }
    ScansOn(p, t, TakenOff(p.list, t.id), was, n, delay, now, calls, steady);
  }

  lemma FireScans(p: Progress, was: seq<Ticket>, n: nat, delay: nat, now: int, calls: nat -> Call, steady: bool)
    requires Scanning(p, was, n, delay, now, calls, steady) && HasTurn(p, now)
      && !p.list.tickets[p.list.cursor - 1].deleted
    requires !calls(|p.fired|).stop
    ensures
      var q := NextTurn(p, delay, now, calls);
      Scanning(q, was, n + 1, delay, now, calls, steady) && DueIds(q.list.tickets, now) < DueIds(p.list.tickets, now)
  {
    var t, call := p.list.tickets[p.list.cursor - 1], calls(|p.fired|);
    var l' := TakenOff(DoAll(p.list, delay, call.ops), t.id);
    assert t in p.list.tickets;
    assert NextTurn(p, delay, now, calls) == Progress(l', p.fired + [t], false);
    HandledTurned(p.list, delay, call.ops, t.id, now);
    StrayedMore(calls, p.fired, t);
    if steady {
      assert delay > 0;
      assert NoneStrayed(calls, p.fired + [t]) ==> AtHead(l');
      DoAllSteady(p.list, delay, call.ops);
      TakenOffSteady(DoAll(p.list, delay, call.ops), delay, t.id);
    }
    if AllQuiet(calls) {
      QuietTurn(p, was, n, delay, now, calls);
    }
    ScansOn(p, t, l', was, n, delay, now, calls, steady);
  }

  lemma FireStops(p: Progress, was: seq<Ticket>, n: nat, delay: nat, now: int, calls: nat -> Call, steady: bool)
    requires Scanning(p, was, n, delay, now, calls, steady) && HasTurn(p, now)
      && !p.list.tickets[p.list.cursor - 1].deleted
    requires calls(|p.fired|).stop
    ensures Outcome(NextTurn(p, delay, now, calls), was, delay, now, calls, steady)
  {
    var t, call := p.list.tickets[p.list.cursor - 1], calls(|p.fired|);
    assert t in p.list.tickets;
    FiredOnceMore(p.fired, t, p.list, now);
    DoAllKept(p.list, delay, call.ops, t.id, now);
    LastStays(p, t, DoAll(p.list, delay, call.ops), now, calls);
    if steady {
      DoAllSteady(p.list, delay, call.ops);
    }
    if AllQuiet(calls) {
      QuietStop(p, was, n, t, now);
      assert DoAll(p.list, delay, []) == p.list;
      assert QuietlyStopped(NextTurn(p, delay, now, calls), was, n, now);
    }
  }

  /** The handler of the ticket t, which left the list l', returned -1. */
  lemma LastStays(p: Progress, t: Ticket, l': List, now: int, calls: nat -> Call)
    requires AllGone(p.fired, p.list) && NoneStopped(calls, |p.fired|) && calls(|p.fired|).stop
    requires Kept(p.list, l', t.id, now)
    ensures StoppedByLast(Progress(l', p.fired + [t], true), calls)
  {
    var fired := p.fired + [t];
    assert fired[|p.fired|] == t && forall k :: 0 <= k < |p.fired| ==> fired[k] == p.fired[k];
  }

  lemma QuietStop(p: Progress, was: seq<Ticket>, n: nat, t: Ticket, now: int)
    requires QuietlyAt(p, was, n, now) && HasTurn(p, now) && t == p.list.tickets[p.list.cursor - 1] && !t.deleted
    ensures n < DuePrefix(was, now) && was[n] == t
    ensures p.fired + [t] == Live(was[..n]) + [was[n]] && p.list.tickets == was[n..]
  {
  }

  /** The last handler called returned -1, and no other.  Its ticket is still in the list, and those fired
      before it are not. */
  ghost predicate StoppedByLast(p: Progress, calls: nat -> Call) {
    && p.fired != []
    && NoneStopped(calls, |p.fired| - 1) && calls(|p.fired| - 1).stop
    && p.fired[|p.fired| - 1].id in Ids(p.list.tickets)
    && forall k :: 0 <= k < |p.fired| - 1 ==> p.fired[k].id !in Ids(p.list.tickets)
  }

  /** Nothing but the first n tickets was dealt with, and the next one's handler returned -1. */
  ghost predicate QuietlyStopped(p: Progress, was: seq<Ticket>, n: nat, now: int) {
    && n < DuePrefix(was, now) && !was[n].deleted
    && p.fired == Live(was[..n]) + [was[n]] && p.list.tickets == was[n..]
  }

  /** What a scan has come to.  Every ticket fired was due and live and fired once.  If no handler returned -1
      all are gone; then, if the tickets share one delay and no handler moved its own ticket without opening
      another, nothing live is left due.  If a handler returned -1 it was the last one called, and its ticket
      stays.  If the handlers left the tickets alone, it fired the live ones among the first tickets due, up
      to the one that returned -1. */
  ghost predicate Outcome(p: Progress, was: seq<Ticket>, delay: nat, now: int, calls: nat -> Call, steady: bool) {
    && Good(p.list) && (steady ==> Steady(p.list, delay)) && FiredOnce(p.fired, now)
    && (p.stopped ==> StoppedByLast(p, calls))
    && (!p.stopped ==> AllGone(p.fired, p.list) && NoneStopped(calls, |p.fired|))
    && (!p.stopped && steady && NoneStrayed(calls, p.fired) ==> NothingDue(p.list.tickets, now))
    && (AllQuiet(calls) ==>
          if p.stopped then exists n: nat :: QuietlyStopped(p, was, n, now)
          else
            var n := DuePrefix(was, now);
            p.fired == Live(was[..n]) && p.list.tickets == was[n..])
  }

  lemma ScanStarts(l: List, delay: nat, now: int, calls: nat -> Call)
    requires Good(l) && AtHead(l) && now <= l.clock
    ensures Scanning(Progress(l, [], false), l.tickets, 0, delay, now, calls, Steady(l, delay))
  {
    assert l.tickets[0..] == l.tickets && l.tickets[..0] == [];
  }

  lemma ScanEnds(p: Progress, was: seq<Ticket>, n: nat, delay: nat, now: int, calls: nat -> Call, steady: bool)
    requires Scanning(p, was, n, delay, now, calls, steady) && !HasTurn(p, now)
    ensures Outcome(p, was, delay, now, calls, steady)
  {
    if steady && NoneStrayed(calls, p.fired) {
      HeadScanIsFullScan(p.list.tickets, now);
      NoneDueAndLive(p.list.tickets, now);
    }
  }

  lemma TurnScans(p: Progress, was: seq<Ticket>, n: nat, delay: nat, now: int, calls: nat -> Call, steady: bool)
    requires Scanning(p, was, n, delay, now, calls, steady) && HasTurn(p, now)
    ensures
      var q := NextTurn(p, delay, now, calls);
      if q.stopped then Outcome(q, was, delay, now, calls, steady)
      else
        && Scanning(q, was, n + 1, delay, now, calls, steady)
        && DueIds(q.list.tickets, now) < DueIds(p.list.tickets, now)
  {
    if p.list.tickets[p.list.cursor - 1].deleted {
      SkipScans(p, was, n, delay, now, calls, steady);
    } else if calls(|p.fired|).stop {
      FireStops(p, was, n, delay, now, calls, steady);
    } else {
      FireScans(p, was, n, delay, now, calls, steady);
    }
  }
}
