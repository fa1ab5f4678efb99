/** What calls on tickets come to (src/zloop.c): whatever is called in whatever order, when each ticket is due,
    which are deleted, and how the list is ordered, from the calls alone. */
module TicketTimes {
  import opened Tickets
  import opened TicketScan

  // ----- What the calls say of one ticket -----

  /** The call opens, resets or deletes the ticket with this handle. */
  ghost predicate Touches(l: List, delay: nat, op: Op, id: nat) {
    match op
    case Open(_) => delay > 0 && id == l.handles
    case Renew(i, _) => i == id && id in Ids(l.tickets)
    case Drop(i) => i == id && id in Ids(l.tickets)
  }

  /** Which call was the last to touch it, counted from one, or zero. */
  ghost function Touched(l: List, delay: nat, ops: seq<Op>, id: nat): nat {
    if ops == [] then 0
    else
      var most := ops[..|ops| - 1];
      if Touches(DoAll(l, delay, most), delay, ops[|ops| - 1], id) then |ops| else Touched(l, delay, most, id)
  }

  /** When it was last opened or reset, if it was. */
  ghost function SetAt(l: List, delay: nat, ops: seq<Op>, id: nat): (at: seq<int>)
    ensures |at| <= 1
  {
    if ops == [] then []
    else
      var most, op := ops[..|ops| - 1], ops[|ops| - 1];
      if !op.Drop? && Touches(DoAll(l, delay, most), delay, op, id) then [l.clock + Elapsed(l, delay, ops)]
      else SetAt(l, delay, most, id)
  }

  /** It was deleted. */
  ghost predicate Dropped(l: List, delay: nat, ops: seq<Op>, id: nat) {
    if ops == [] then false
    else
      var most, op := ops[..|ops| - 1], ops[|ops| - 1];
      (op.Drop? && Touches(DoAll(l, delay, most), delay, op, id)) || Dropped(l, delay, most, id)
  }

  /** How long the calls took that read the clock. */
  ghost function Elapsed(l: List, delay: nat, ops: seq<Op>): nat {
    if ops == [] then 0
    else
      var most, op := ops[..|ops| - 1], ops[|ops| - 1];
      Elapsed(l, delay, most) +
        match op
        case Open(e) => if delay > 0 then e else 0
        case Renew(id, e) => if id in Ids(DoAll(l, delay, most).tickets) then e else 0
        case Drop(_) => 0
  }

  /** The ticket t, which was u before the calls. */
  ghost predicate GrewFrom(t: Ticket, u: Ticket, l: List, delay: nat, ops: seq<Op>) {
    && t.id == u.id && t.delay == u.delay && (t.deleted <==> u.deleted || Dropped(l, delay, ops, t.id))
    && var at := SetAt(l, delay, ops, t.id);
       t.when == if at == [] then u.when else at[0] + u.delay
  }

  /** The ticket t, which the calls opened. */
  ghost predicate Opened(t: Ticket, l: List, delay: nat, ops: seq<Op>) {
    && t.id >= l.handles && t.delay == delay && (t.deleted <==> Dropped(l, delay, ops, t.id))
    && var at := SetAt(l, delay, ops, t.id);
       at != [] && t.when == at[0] + delay
  }

  ghost predicate Explained(t: Ticket, l: List, delay: nat, ops: seq<Op>) {
    Opened(t, l, delay, ops) || exists u :: u in l.tickets && GrewFrom(t, u, l, delay, ops)
  }

  ghost predicate AllExplained(ts: seq<Ticket>, l: List, delay: nat, ops: seq<Op>) {
    forall i :: 0 <= i < |ts| ==> Explained(ts[i], l, delay, ops)
  }

  /** Tickets that were not touched keep their order and come first; the others come in the order in which they
      were last touched. */
  ghost predicate InOrder(ts: seq<Ticket>, l: List, delay: nat, ops: seq<Op>) {
    forall i, j :: 0 <= i < j < |ts| ==> Precedes(l, delay, ops, ts[i].id, ts[j].id)
  }

  ghost predicate Precedes(l: List, delay: nat, ops: seq<Op>, id: nat, other: nat) {
    var a, b := Touched(l, delay, ops, id), Touched(l, delay, ops, other);
    a < b || (a == b == 0 && Place(l.tickets, id) < Place(l.tickets, other) < |l.tickets|)
  }

  // ----- One more call -----

  lemma OneMore(ops: seq<Op>, op: Op)
    ensures (ops + [op])[..|ops|] == ops && (ops + [op])[|ops|] == op
  {
  }

  /** A call that does not touch the ticket. */
  lemma Untouched(l: List, delay: nat, ops: seq<Op>, op: Op, id: nat)
    requires !Touches(DoAll(l, delay, ops), delay, op, id)
    ensures Touched(l, delay, ops + [op], id) == Touched(l, delay, ops, id)
    ensures SetAt(l, delay, ops + [op], id) == SetAt(l, delay, ops, id)
    ensures Dropped(l, delay, ops + [op], id) <==> Dropped(l, delay, ops, id)
  {
    OneMore(ops, op);
  }

  lemma JustTouched(l: List, delay: nat, ops: seq<Op>, op: Op, id: nat)
    requires Touches(DoAll(l, delay, ops), delay, op, id)
    ensures Touched(l, delay, ops + [op], id) == |ops| + 1
    ensures op.Drop? ==> Dropped(l, delay, ops + [op], id)
    ensures op.Drop? ==> SetAt(l, delay, ops + [op], id) == SetAt(l, delay, ops, id)
    ensures !op.Drop? ==> (Dropped(l, delay, ops + [op], id) <==> Dropped(l, delay, ops, id))
    ensures !op.Drop? ==> SetAt(l, delay, ops + [op], id) == [l.clock + Elapsed(l, delay, ops + [op])]
  {
    OneMore(ops, op);
  }

  lemma StillExplained(t: Ticket, l: List, delay: nat, ops: seq<Op>, op: Op)
    requires Explained(t, l, delay, ops) && !Touches(DoAll(l, delay, ops), delay, op, t.id)
    ensures Explained(t, l, delay, ops + [op])
  {
    Untouched(l, delay, ops, op, t.id);
    if !Opened(t, l, delay, ops) {
      var u :| u in l.tickets && GrewFrom(t, u, l, delay, ops);
      assert GrewFrom(t, u, l, delay, ops + [op]);
    }
  }

  lemma DropExplained(t: Ticket, l: List, delay: nat, ops: seq<Op>, id: nat)
    requires Explained(t, l, delay, ops) && Touches(DoAll(l, delay, ops), delay, Drop(id), t.id)
    ensures Explained(t.(deleted := true), l, delay, ops + [Drop(id)])
  {
    JustTouched(l, delay, ops, Drop(id), t.id);
    if !Opened(t, l, delay, ops) {
      var u :| u in l.tickets && GrewFrom(t, u, l, delay, ops);
      assert GrewFrom(t.(deleted := true), u, l, delay, ops + [Drop(id)]);
    }
  }

  lemma RenewExplained(t: Ticket, l: List, delay: nat, ops: seq<Op>, id: nat, e: nat, at: int)
    requires Explained(t, l, delay, ops) && Touches(DoAll(l, delay, ops), delay, Renew(id, e), t.id)
    requires at == l.clock + Elapsed(l, delay, ops + [Renew(id, e)])
    ensures Explained(Renewed(t, at), l, delay, ops + [Renew(id, e)])
  {
    JustTouched(l, delay, ops, Renew(id, e), t.id);
    if !Opened(t, l, delay, ops) {
      var u :| u in l.tickets && GrewFrom(t, u, l, delay, ops);
      assert GrewFrom(Renewed(t, at), u, l, delay, ops + [Renew(id, e)]);
    }
  }

  lemma StillPrecedes(l: List, delay: nat, ops: seq<Op>, op: Op, id: nat, other: nat)
    requires Precedes(l, delay, ops, id, other)
    requires !Touches(DoAll(l, delay, ops), delay, op, id) && !Touches(DoAll(l, delay, ops), delay, op, other)
    ensures Precedes(l, delay, ops + [op], id, other)
  {
    Untouched(l, delay, ops, op, id);
    Untouched(l, delay, ops, op, other);
  }

  lemma NowPrecedes(l: List, delay: nat, ops: seq<Op>, op: Op, id: nat, other: nat)
    requires !Touches(DoAll(l, delay, ops), delay, op, id) && Touches(DoAll(l, delay, ops), delay, op, other)
    ensures Precedes(l, delay, ops + [op], id, other)
  {
    Untouched(l, delay, ops, op, id);
    TouchedSoFar(l, delay, ops, id);
    JustTouched(l, delay, ops, op, other);
  }

  lemma WithoutInOrder(l: List, delay: nat, ops: seq<Op>, ts: seq<Ticket>, i: nat)
    requires i < |ts| && InOrder(ts, l, delay, ops)
    ensures InOrder(Without(ts, i), l, delay, ops)
  {
    var us := Without(ts, i);
    forall a, b | 0 <= a < b < |us|
      ensures Precedes(l, delay, ops, us[a].id, us[b].id)
    {
      var a', b' := if a < i then a else a + 1, if b < i then b else b + 1;
      assert us[a] == ts[a'] && us[b] == ts[b'];
    }
  }

  /** The ticket just touched goes behind the others. */
  lemma MovedInOrder(l: List, delay: nat, ops: seq<Op>, op: Op, ts: seq<Ticket>, i: nat, t: Ticket)
    requires i < |ts| && t.id == ts[i].id && InOrder(ts, l, delay, ops)
    requires forall k :: 0 <= k < |ts| ==> (Touches(DoAll(l, delay, ops), delay, op, ts[k].id) <==> k == i)
    ensures InOrder(Without(ts, i) + [t], l, delay, ops + [op])
  {
    var us := Without(ts, i);
    WithoutInOrder(l, delay, ops, ts, i);
    forall k | 0 <= k < |us|
      ensures !Touches(DoAll(l, delay, ops), delay, op, us[k].id)
    {
      assert us[k] == ts[if k < i then k else k + 1];
    }
    OpenedInOrder(l, delay, ops, op, us, t);
  }

  lemma {:induction false} TouchedSoFar(l: List, delay: nat, ops: seq<Op>, id: nat)
    ensures Touched(l, delay, ops, id) <= |ops|
  {
    if ops != [] {
      TouchedSoFar(l, delay, ops[..|ops| - 1], id);
    }
  }

  lemma OpenedInOrder(l: List, delay: nat, ops: seq<Op>, op: Op, ts: seq<Ticket>, t: Ticket)
    requires InOrder(ts, l, delay, ops) && Touches(DoAll(l, delay, ops), delay, op, t.id)
    requires forall k :: 0 <= k < |ts| ==> !Touches(DoAll(l, delay, ops), delay, op, ts[k].id)
    ensures InOrder(ts + [t], l, delay, ops + [op])
  {
    var us := ts + [t];
    forall a, b | 0 <= a < b < |us|
      ensures Precedes(l, delay, ops + [op], us[a].id, us[b].id)
    {
      if b < |ts| {
        StillPrecedes(l, delay, ops, op, ts[a].id, ts[b].id);
      } else {
        NowPrecedes(l, delay, ops, op, ts[a].id, t.id);
      }
    }
  }

  /** A call that does nothing. */
  lemma IdleCall(l: List, delay: nat, ops: seq<Op>, op: Op, ts: seq<Ticket>)
    requires AllExplained(ts, l, delay, ops) && InOrder(ts, l, delay, ops)
    requires forall k :: 0 <= k < |ts| ==> !Touches(DoAll(l, delay, ops), delay, op, ts[k].id)
    ensures AllExplained(ts, l, delay, ops + [op]) && InOrder(ts, l, delay, ops + [op])
  {
    forall k | 0 <= k < |ts|
      ensures Explained(ts[k], l, delay, ops + [op])
    {
      StillExplained(ts[k], l, delay, ops, op);
    }
    forall a, b | 0 <= a < b < |ts|
      ensures Precedes(l, delay, ops + [op], ts[a].id, ts[b].id)
    {
      StillPrecedes(l, delay, ops, op, ts[a].id, ts[b].id);
    }
  }

  // ----- Any calls -----

  /** How many tickets the calls opened. */
  function Openings(delay: nat, ops: seq<Op>): nat {
    if ops == [] then 0
    else Openings(delay, ops[..|ops| - 1]) + if ops[|ops| - 1].Open? && delay > 0 then 1 else 0
  }

  /** The tickets that were there and those opened since. */
  ghost predicate HasHandles(l: List, l': List) {
    forall id :: id in Ids(l'.tickets) <==> id in Ids(l.tickets) || l.handles <= id < l'.handles
  }

  lemma OneMoreHandle(l: List, mid: List, l': List, t: Ticket)
    requires HasHandles(l, mid) && l.handles <= mid.handles == t.id && l'.handles == mid.handles + 1
    requires l'.tickets == mid.tickets + [t]
    ensures HasHandles(l, l')
  {
    AppendIds(mid.tickets, t, t.when - 1);
  }

  /** Where the calls have come: the clock, the handles and the tickets. */
  ghost predicate Come(l: List, l': List, delay: nat, ops: seq<Op>) {
    && Good(l') && l'.clock == l.clock + Elapsed(l, delay, ops) && l'.handles == l.handles + Openings(delay, ops)
    && HasHandles(l, l') && AllExplained(l'.tickets, l, delay, ops) && InOrder(l'.tickets, l, delay, ops)
  }

  lemma IdsAt(ts: seq<Ticket>, k: nat)
    requires k < |ts|
    ensures ts[k].id in Ids(ts)
  {
    assert ts[k] in ts;
  }

  lemma NotInIds(ts: seq<Ticket>, id: nat)
    requires Distinct(ts) && id !in Ids(ts)
    ensures Place(ts, id) == |ts|
  {
    forall k | 0 <= k < |ts|
      ensures ts[k].id != id
    {
      IdsAt(ts, k);
    }
    PlaceOfNone(ts, id);
  }

  /** The ticket with the handle the call names, and no other, is touched. */
  lemma TouchesOne(l: List, delay: nat, op: Op, k: nat)
    requires Good(l) && !op.Open? && op.id in Ids(l.tickets) && k < |l.tickets|
    ensures Place(l.tickets, op.id) < |l.tickets|
    ensures Touches(l, delay, op, l.tickets[k].id) <==> k == Place(l.tickets, op.id)
  {
    HasPlace(l.tickets, op.id);
    IdsAt(l.tickets, k);
    if l.tickets[k].id == op.id {
      PlaceIs(l.tickets, op.id, k);
    }
  }

  lemma NewExplained(l: List, mid: List, delay: nat, ops: seq<Op>, e: nat)
    requires Good(l) && mid == DoAll(l, delay, ops) && mid.clock == l.clock + Elapsed(l, delay, ops)
    requires delay > 0 && l.handles <= mid.handles
    ensures Opened(Ticket(mid.handles, delay, mid.clock + e + delay, false), l, delay, ops + [Open(e)])
  {
    OneMore(ops, Open(e));
    JustTouched(l, delay, ops, Open(e), mid.handles);
    NeverDropped(l, delay, ops, mid.handles);
  }

  /** A handle not given out yet is not touched by what opens it as another. */
  lemma OthersUntouched(l: List, mid: List, delay: nat, ops: seq<Op>, e: nat)
    requires mid == DoAll(l, delay, ops) && Good(mid) && AllExplained(mid.tickets, l, delay, ops)
    ensures forall k :: 0 <= k < |mid.tickets| ==> !Touches(mid, delay, Open(e), mid.tickets[k].id)
    ensures AllExplained(mid.tickets, l, delay, ops + [Open(e)])
  {
    forall k | 0 <= k < |mid.tickets|
      ensures Explained(mid.tickets[k], l, delay, ops + [Open(e)])
    {
      StillExplained(mid.tickets[k], l, delay, ops, Open(e));
    }
  }

  lemma OpenComes(l: List, mid: List, delay: nat, ops: seq<Op>, e: nat)
    requires Good(l) && mid == DoAll(l, delay, ops) && Come(l, mid, delay, ops) && delay > 0
    ensures Come(l, Do(mid, delay, Open(e)), delay, ops + [Open(e)])
  {
    var op, at := Open(e), mid.clock + e;
    var t := Ticket(mid.handles, delay, at + delay, false);
    OneMore(ops, op);
    NewExplained(l, mid, delay, ops, e);
    OthersUntouched(l, mid, delay, ops, e);
    OpenedInOrder(l, delay, ops, op, mid.tickets, t);
    DoGood(mid, delay, op);
    OneMoreHandle(l, mid, Do(mid, delay, op), t);
  }

  lemma HandlesAreGiven(l: List, id: nat)
    requires Good(l) && id >= l.handles
    ensures id !in Ids(l.tickets)
  {
    assert forall t :: t in l.tickets ==> t.id < l.handles;
  }

  /** A handle not given out yet was not deleted. */
  lemma {:induction false} NeverDropped(l: List, delay: nat, ops: seq<Op>, id: nat)
    requires Good(l) && id >= DoAll(l, delay, ops).handles
    ensures !Dropped(l, delay, ops, id)
  {
    if ops != [] {
      var most := ops[..|ops| - 1];
      DoAllGood(l, delay, most);
      DoGood(DoAll(l, delay, most), delay, ops[|ops| - 1]);
      NeverDropped(l, delay, most, id);
      HandlesAreGiven(DoAll(l, delay, most), id);
    }
  }

  lemma DoGood(l: List, delay: nat, op: Op)
    requires Good(l)
    ensures Good(Do(l, delay, op)) && l.handles <= Do(l, delay, op).handles
  {
    if !op.Open? {
      var i := Place(l.tickets, op.id);
      if i < |l.tickets| {
        var at := Do(l, delay, op).clock;
        MoveKeepsGood(l, i, if op.Renew? then Renewed(l.tickets[i], at) else l.tickets[i].(deleted := true), at);
      }
    }
  }

  lemma {:induction false} DoAllGood(l: List, delay: nat, ops: seq<Op>)
    requires Good(l)
    ensures Good(DoAll(l, delay, ops))
  {
    if ops != [] {
      DoAllGood(l, delay, ops[..|ops| - 1]);
      DoGood(DoAll(l, delay, ops[..|ops| - 1]), delay, ops[|ops| - 1]);
    }
  }

  /** A ticket is changed and moved to the end. */
  lemma MoveComes(l: List, mid: List, delay: nat, ops: seq<Op>, op: Op, i: nat, t: Ticket, at: int)
    requires mid == DoAll(l, delay, ops) && Come(l, mid, delay, ops) && !op.Open? && op.id in Ids(mid.tickets)
    requires i == Place(mid.tickets, op.id) < |mid.tickets| && Do(mid, delay, op) == Moved(mid, i, t, at)
    requires t.id == mid.tickets[i].id && t.delay == mid.tickets[i].delay && Explained(t, l, delay, ops + [op])
    requires at == l.clock + Elapsed(l, delay, ops + [op])
    ensures Come(l, Do(mid, delay, op), delay, ops + [op])
  {
    OneMore(ops, op);
    var us := Without(mid.tickets, i) + [t];
    MoveKeepsGood(mid, i, t, at);
    MoveKeepsIds(mid.tickets, i, t);
    forall k | 0 <= k < |mid.tickets|
      ensures Touches(mid, delay, op, mid.tickets[k].id) <==> k == i
    {
      TouchesOne(mid, delay, op, k);
    }
    MovedInOrder(l, delay, ops, op, mid.tickets, i, t);
    forall k | 0 <= k < |us|
      ensures Explained(us[k], l, delay, ops + [op])
    {
      if k < |us| - 1 {
        StillExplained(us[k], l, delay, ops, op);
      }
    }
  }

  lemma NoCallComes(l: List, mid: List, delay: nat, ops: seq<Op>, op: Op)
    requires mid == DoAll(l, delay, ops) && Come(l, mid, delay, ops)
    requires if op.Open? then delay == 0 else op.id !in Ids(mid.tickets)
    ensures Come(l, Do(mid, delay, op), delay, ops + [op])
  {
    OneMore(ops, op);
    if !op.Open? {
      NotInIds(mid.tickets, op.id);
    }
    IdleCall(l, delay, ops, op, mid.tickets);
  }

  lemma ElapsedInReset(l: List, delay: nat, ops: seq<Op>, id: nat, e: nat)
    requires id in Ids(DoAll(l, delay, ops).tickets)
    ensures Elapsed(l, delay, ops + [Renew(id, e)]) == Elapsed(l, delay, ops) + e
  {
    OneMore(ops, Renew(id, e));
  }

  lemma ElapsedInDrop(l: List, delay: nat, ops: seq<Op>, id: nat)
    ensures Elapsed(l, delay, ops + [Drop(id)]) == Elapsed(l, delay, ops)
  {
    OneMore(ops, Drop(id));
  }

  lemma RenewComes(l: List, mid: List, delay: nat, ops: seq<Op>, id: nat, e: nat)
    requires mid == DoAll(l, delay, ops) && Come(l, mid, delay, ops) && id in Ids(mid.tickets)
    ensures Come(l, Do(mid, delay, Renew(id, e)), delay, ops + [Renew(id, e)])
  {
    var op, i, at := Renew(id, e), Place(mid.tickets, id), mid.clock + e;
    ElapsedInReset(l, delay, ops, id, e);
    HasPlace(mid.tickets, id);
    TouchesOne(mid, delay, op, i);
    RenewExplained(mid.tickets[i], l, delay, ops, id, e, at);
    MoveComes(l, mid, delay, ops, op, i, Renewed(mid.tickets[i], at), at);
  }

  lemma DropComes(l: List, mid: List, delay: nat, ops: seq<Op>, id: nat)
    requires mid == DoAll(l, delay, ops) && Come(l, mid, delay, ops) && id in Ids(mid.tickets)
    ensures Come(l, Do(mid, delay, Drop(id)), delay, ops + [Drop(id)])
  {
    var op, i := Drop(id), Place(mid.tickets, id);
    ElapsedInDrop(l, delay, ops, id);
    HasPlace(mid.tickets, id);
    TouchesOne(mid, delay, op, i);
    DropExplained(mid.tickets[i], l, delay, ops, id);
    MoveComes(l, mid, delay, ops, op, i, mid.tickets[i].(deleted := true), mid.clock);
  }

  lemma OneComes(l: List, mid: List, delay: nat, ops: seq<Op>, op: Op)
    requires Good(l) && mid == DoAll(l, delay, ops) && Come(l, mid, delay, ops)
    ensures Come(l, Do(mid, delay, op), delay, ops + [op])
  {
    if op.Open? {
      if delay > 0 {
        OpenComes(l, mid, delay, ops, op.elapsed);
      } else {
        NoCallComes(l, mid, delay, ops, op);
      }
    } else if op.id !in Ids(mid.tickets) {
      NoCallComes(l, mid, delay, ops, op);
    } else {
      if op.Renew? {
        RenewComes(l, mid, delay, ops, op.id, op.elapsed);
      } else {
        DropComes(l, mid, delay, ops, op.id);
      }
    }
  }

  /** Whatever is called in whatever order.  A ticket is due its delay after it was last opened or reset, and
      no call but these changes that; it is deleted if it was or a call has deleted it; calls add the tickets
      they open and take none off; and the list has the untouched tickets first, as they were, and then the
      others in the order in which they were last touched. */
  lemma {:induction false} CallsComeTo(l: List, delay: nat, ops: seq<Op>)
    requires Good(l)
    ensures Come(l, DoAll(l, delay, ops), delay, ops)
  {
    if ops == [] {
      StartsExplained(l, delay);
    } else {
      var most, op := ops[..|ops| - 1], ops[|ops| - 1];
      assert ops == most + [op];
      CallsComeTo(l, delay, most);
      OneComes(l, DoAll(l, delay, most), delay, most, op);
    }
  }

  lemma StartsExplained(l: List, delay: nat)
    requires Good(l)
    ensures Come(l, l, delay, [])
  {
    forall k | 0 <= k < |l.tickets|
      ensures Explained(l.tickets[k], l, delay, []) && Place(l.tickets, l.tickets[k].id) == k
    {
      assert l.tickets[k] in l.tickets && GrewFrom(l.tickets[k], l.tickets[k], l, delay, []);
      PlaceIs(l.tickets, l.tickets[k].id, k);
    }
  }
}
