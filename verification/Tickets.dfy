/** The ticket timers of the reactor (src/zloop.c): a list of tickets in which only the first is ever
    looked at.  The list and its cursor behave as ListX proves of zlistx. */
module Tickets {

  /** `id` stands for the handle, an address that is not used again. */
  datatype Ticket = Ticket(id: nat, delay: nat, when: int, deleted: bool)

  /** Every live ticket is due no sooner than the tickets before it.  Deleted tickets need not be in
      order: they are moved to the end with the time they had. */
  ghost predicate Ordered(ts: seq<Ticket>) {
    forall i, j :: 0 <= i < j < |ts| && !ts[j].deleted ==> ts[i].when <= ts[j].when
  }

  ghost predicate Distinct(ts: seq<Ticket>) {
    forall i, j :: 0 <= i < j < |ts| ==> ts[i].id != ts[j].id
  }

  ghost predicate AllBy(ts: seq<Ticket>, limit: int) {
    forall i :: 0 <= i < |ts| ==> ts[i].when <= limit
  }

  function Without(ts: seq<Ticket>, i: nat): seq<Ticket>
    requires i < |ts|
  {
    seq(|ts| - 1, k requires 0 <= k < |ts| - 1 => if k < i then ts[k] else ts[k + 1])
  }

  function Renewed(t: Ticket, now: int): Ticket {
    t.(when := now + t.delay)
  }

  lemma WithoutKeepsOrder(ts: seq<Ticket>, i: nat)
    requires i < |ts|
    ensures Ordered(ts) ==> Ordered(Without(ts, i))
    ensures Distinct(ts) ==> Distinct(Without(ts, i)) && forall k :: 0 <= k < |ts| - 1 ==>
      Without(ts, i)[k].id != ts[i].id
  {
  }

  /** A new ticket at the end keeps the order if and only if nothing in the list is due later. */
  lemma AppendKeepsOrderIff(ts: seq<Ticket>, t: Ticket)
    requires Ordered(ts) && !t.deleted
    ensures Ordered(ts + [t]) <==> AllBy(ts, t.when)
  {
    var us := ts + [t];
    if Ordered(us) {
      forall i | 0 <= i < |ts|
        ensures ts[i].when <= t.when
      {
        assert us[i] == ts[i] && us[|ts|] == t;
      }
    }
  }

  /** Resetting a live ticket keeps the order if and only if none of the others is due later than the
      time it is reset to. */
  lemma ResetKeepsOrderIff(ts: seq<Ticket>, i: nat, now: int)
    requires Ordered(ts) && i < |ts| && !ts[i].deleted
    ensures Ordered(Without(ts, i) + [Renewed(ts[i], now)]) <==> AllBy(Without(ts, i), now + ts[i].delay)
  {
    WithoutKeepsOrder(ts, i);
    AppendKeepsOrderIff(Without(ts, i), Renewed(ts[i], now));
  }

  lemma DeleteKeepsOrder(ts: seq<Ticket>, i: nat)
    requires Ordered(ts) && i < |ts|
    ensures Ordered(Without(ts, i) + [ts[i].(deleted := true)])
  {
    WithoutKeepsOrder(ts, i);
  }

  /** The order, with nothing due later than a ticket made now would be. */
  ghost predicate Sound(ts: seq<Ticket>, clock: int, delay: nat) {
    Ordered(ts) && AllBy(ts, clock + delay)
  }

  lemma CreateStaysSound(ts: seq<Ticket>, clock: int, delay: nat, now: int, id: nat)
    requires Sound(ts, clock, delay) && clock <= now
    ensures Sound(ts + [Ticket(id, delay, now + delay, false)], now, delay)
  {
    AppendKeepsOrderIff(ts, Ticket(id, delay, now + delay, false));
  }

  lemma ResetStaysSound(ts: seq<Ticket>, clock: int, delay: nat, now: int, i: nat)
    requires Sound(ts, clock, delay) && clock <= now && i < |ts| && ts[i].delay == delay
    ensures Sound(Without(ts, i) + [Renewed(ts[i], now)], now, delay)
  {
    WithoutKeepsOrder(ts, i);
    if !ts[i].deleted {
      ResetKeepsOrderIff(ts, i, now);
    }
  }

  lemma DeleteStaysSound(ts: seq<Ticket>, clock: int, delay: nat, i: nat)
    requires Sound(ts, clock, delay) && i < |ts|
    ensures Sound(Without(ts, i) + [ts[i].(deleted := true)], clock, delay)
  {
    DeleteKeepsOrder(ts, i);
  }

  lemma WithoutStaysSound(ts: seq<Ticket>, clock: int, delay: nat, i: nat)
    requires Sound(ts, clock, delay) && i < |ts|
    ensures Sound(Without(ts, i), clock, delay)
  {
    WithoutKeepsOrder(ts, i);
  }

  /** zloop_set_ticket_delay promises trouble only for a delay that is lowered.  Raising it is enough:
      a ticket made under the old delay keeps it, and a reset puts it behind one made under the new. */
  lemma RaisedDelayBreaksOrder()
    ensures
      var older, newer := Ticket(0, 10, 10, false), Ticket(1, 1000, 1000, false);
      Ordered([older, newer]) && !Ordered(Without([older, newer], 0) + [Renewed(older, 20)])
  {
    var older, newer := Ticket(0, 10, 10, false), Ticket(1, 1000, 1000, false);
    var us := Without([older, newer], 0) + [Renewed(older, 20)];
    assert us[0] == newer && us[1] == Renewed(older, 20);
  }

  // ----- Looking only at the head -----

  predicate Due(t: Ticket, now: int) {
    t.when <= now
  }

  /** A look at every ticket. */
  function DueAndLive(ts: seq<Ticket>, now: int): seq<Ticket> {
    if ts == [] then []
    else (if Due(ts[0], now) && !ts[0].deleted then [ts[0]] else []) + DueAndLive(ts[1..], now)
  }

  /** The time of every live ticket is still to come. */
  ghost predicate NothingDue(ts: seq<Ticket>, now: int) {
    forall i :: 0 <= i < |ts| ==> ts[i].deleted || now < ts[i].when
  }

  lemma {:induction false} NoneDueAndLive(ts: seq<Ticket>, now: int)
    ensures DueAndLive(ts, now) == [] <==> NothingDue(ts, now)
  {
    if ts != [] {
      NoneDueAndLive(ts[1..], now);
      assert forall i :: 0 < i < |ts| ==> ts[i] == ts[1..][i - 1];
    }
  }

  function Live(ts: seq<Ticket>): seq<Ticket> {
    if ts == [] then []
    else (if ts[0].deleted then [] else [ts[0]]) + Live(ts[1..])
  }

  lemma {:induction false} LiveAppend(ts: seq<Ticket>, n: nat)
    requires n < |ts|
    ensures Live(ts[..n + 1]) == Live(ts[..n]) + if ts[n].deleted then [] else [ts[n]]
  {
    if n > 0 {
      LiveAppend(ts[1..], n - 1);
      assert ts[..n + 1][1..] == ts[1..][..n] && ts[..n][1..] == ts[1..][..n - 1];
    }
  }

  lemma DropLast(ts: seq<Ticket>)
    requires ts != [] && ts[|ts| - 1].deleted
    ensures Live(ts[..|ts| - 1]) == Live(ts)
  {
    LiveAppend(ts, |ts| - 1);
    assert ts[..|ts|] == ts;
  }

  /** How far a scan that stops at the first ticket not due gets. */
  function DuePrefix(ts: seq<Ticket>, now: int): (n: nat)
    ensures n <= |ts|
    ensures n < |ts| ==> !Due(ts[n], now)
    ensures forall i :: 0 <= i < n ==> Due(ts[i], now)
  {
    if ts == [] || !Due(ts[0], now) then 0 else 1 + DuePrefix(ts[1..], now)
  }

  lemma OrderedTail(ts: seq<Ticket>)
    requires Ordered(ts) && ts != []
    ensures Ordered(ts[1..])
  {
  }

  lemma {:induction false} NoneDue(ts: seq<Ticket>, now: int)
    requires forall i :: 0 <= i < |ts| ==> ts[i].deleted || !Due(ts[i], now)
    ensures DueAndLive(ts, now) == []
  {
    if ts != [] {
      NoneDue(ts[1..], now);
    }
  }

  /** On a list in order, a scan that stops at the first ticket not due finds what a scan of the whole
      list finds, in the same order. */
  lemma {:induction false} HeadScanIsFullScan(ts: seq<Ticket>, now: int)
    requires Ordered(ts)
    ensures Live(ts[..DuePrefix(ts, now)]) == DueAndLive(ts, now)
    ensures DueAndLive(ts[DuePrefix(ts, now)..], now) == []
  {
    var n := DuePrefix(ts, now);
    if n == 0 {
      NoneDue(ts, now);
    } else {
      OrderedTail(ts);
      HeadScanIsFullScan(ts[1..], now);
      assert ts[..n][1..] == ts[1..][..n - 1];
      assert ts[n..] == ts[1..][n - 1..];
    }
  }

  /** The scan from the head misses nothing at this time. */
  ghost predicate MissesNothing(ts: seq<Ticket>, now: int) {
    DueAndLive(ts[DuePrefix(ts, now)..], now) == []
  }

  lemma {:induction false} FindsDue(ts: seq<Ticket>, now: int, j: nat)
    requires j < |ts| && Due(ts[j], now) && !ts[j].deleted
    ensures DueAndLive(ts, now) != []
  {
    if j > 0 {
      FindsDue(ts[1..], now, j - 1);
    }
  }

  /** The order is exactly what the scan from the head needs. */
  lemma MissesNothingIff(ts: seq<Ticket>)
    ensures Ordered(ts) <==> forall now :: MissesNothing(ts, now)
  {
    if Ordered(ts) {
      forall now
        ensures MissesNothing(ts, now)
      {
        HeadScanIsFullScan(ts, now);
      }
    } else {
      var i, j :| 0 <= i < j < |ts| && !ts[j].deleted && ts[i].when > ts[j].when;
      var now := ts[j].when;
      var n := DuePrefix(ts, now);
      assert !Due(ts[i], now);
      FindsDue(ts[n..], now, j - n);
      assert !MissesNothing(ts, now);
    }
  }
}
