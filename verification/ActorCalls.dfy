/** What the calling thread gets from the calls it makes on an actor (src/zactor.c, src/zsock.c).  In every
    run its commands are those it sent, and what it has received is accounted for by its calls, in order: one
    message for a receive, and for a wait everything up to and including the next signal. */
module ActorCalls {
  import opened Messages
  import opened Actor
  import opened ActorInvariant
  import opened Wrappers

  // ----- What a calling program says -----

  /** The commands an application sends; a message without frames is not sent. */
  function Sends(ls: seq<Label>): seq<Msg> {
    if ls == [] then []
    else
      var l := ls[|ls| - 1];
      Sends(ls[..|ls| - 1]) + if l.Send? && l.m != [] then [l.m] else []
  }

  /** What the destructor set last sends. */
  function Destructor(ls: seq<Label>): Msg {
    if ls == [] then TERM
    else if ls[|ls| - 1].SetDestructor? then ls[|ls| - 1].t
    else Destructor(ls[..|ls| - 1])
  }

  datatype Reading = OneMessage | UpToSignal

  /** How the application reads from the pipe, after zactor_new. */
  function Readings(ls: seq<Label>): seq<Reading> {
    if ls == [] then []
    else
      var l := ls[|ls| - 1];
      Readings(ls[..|ls| - 1]) + (if l.Recv? then [OneMessage] else if l.Wait? then [UpToSignal] else [])
  }

  /** Where the first signal is, or the length. */
  function FirstSignal(ms: seq<Msg>): (n: nat)
    ensures n <= |ms| && (n < |ms| ==> IsSignal(ms[n])) && !HasSignal(ms[..n])
  {
    if ms == [] || IsSignal(ms[0]) then 0
    else
      var n := FirstSignal(ms[1..]);
      assert forall i :: 0 < i < n + 1 ==> ms[i] == ms[1..][i - 1] == ms[1..][..n][i - 1];
      n + 1
  }

  /** What a reading leaves of a stream, if the stream is long enough for it. */
  function Left(r: Reading, ms: seq<Msg>): Option<seq<Msg>> {
    match r
    case OneMessage => if ms == [] then None else Some(ms[1..])
    case UpToSignal => var n := FirstSignal(ms); if n == |ms| then None else Some(ms[n + 1..])
  }

  /** What the readings leave of a stream, one after the other. */
  function Rest(rs: seq<Reading>, ms: seq<Msg>): Option<seq<Msg>>
    decreases |rs|
  {
    if rs == [] then Some(ms)
    else
      match Rest(rs[..|rs| - 1], ms)
      case None => None
      case Some(rest) => Left(rs[|rs| - 1], rest)
  }

  // ----- Streams that grow -----

  lemma FirstSignalIs(ms: seq<Msg>, n: nat)
    requires n < |ms| && IsSignal(ms[n]) && !HasSignal(ms[..n])
    ensures FirstSignal(ms) == n
  {
  }

  lemma LeftGrows(r: Reading, ms: seq<Msg>, more: seq<Msg>)
    requires Left(r, ms).Some?
    ensures Left(r, ms + more) == Some(Left(r, ms).value + more)
  {
    match r
    case OneMessage => assert (ms + more)[1..] == ms[1..] + more;
    case UpToSignal =>
      var n := FirstSignal(ms);
      assert (ms + more)[..n] == ms[..n];
      FirstSignalIs(ms + more, n);
      assert (ms + more)[n + 1..] == ms[n + 1..] + more;
  }

  lemma {:induction false} RestGrows(rs: seq<Reading>, ms: seq<Msg>, more: seq<Msg>)
    requires Rest(rs, ms).Some?
    ensures Rest(rs, ms + more) == Some(Rest(rs, ms).value + more)
    decreases |rs|
  {
    if rs != [] {
      RestGrows(rs[..|rs| - 1], ms, more);
      LeftGrows(rs[|rs| - 1], Rest(rs[..|rs| - 1], ms).value, more);
    }
  }

  lemma RestThen(rs: seq<Reading>, r: Reading, ms: seq<Msg>)
    ensures Rest(rs + [r], ms) == match Rest(rs, ms) case None => None case Some(rest) => Left(r, rest)
  {
    assert (rs + [r])[..|rs|] == rs;
  }

  /** A stream that was read to its end, without a signal since, ends a wait with the next signal. */
  lemma WaitEndsWith(ms: seq<Msg>, m: Msg)
    requires !HasSignal(ms)
    ensures IsSignal(m) ==> Left(UpToSignal, ms + [m]) == Some([])
    ensures !IsSignal(m) ==> !HasSignal(ms + [m])
  {
    var all := ms + [m];
    if IsSignal(m) {
      assert all[..|ms|] == ms && all[|ms|] == m && all[|ms| + 1..] == [];
      FirstSignalIs(all, |ms|);
    } else {
      assert forall i :: 0 <= i < |ms| ==> all[i] == ms[i];
    }
  }

  // ----- What every step keeps -----

  /** A reading is under way: the calls before it have read what they read, and no signal has come since. */
  predicate Pending(rs: seq<Reading>, ms: seq<Msg>) {
    Rest(rs, ms).Some? && !HasSignal(Rest(rs, ms).value)
  }

  /** The readings have read everything. */
  predicate Settled(rs: seq<Reading>, ms: seq<Msg>) {
    Rest(rs, ms) == Some([])
  }

  /** The reading of zactor_destroy, if the terminator was sent. */
  function LastReading(sent: bool): seq<Reading> {
    if sent then [UpToSignal] else []
  }

  /** What the caller has received, against the readings of zactor_new, the application and zactor_destroy. */
  predicate Accounted(pc: ParentPc, rs: seq<Reading>, received: seq<Msg>, sent: bool) {
    match pc
    case MakeSelf => received == [] && rs == []
    case MakeShim => received == [] && rs == []
    case MakePipe => received == [] && rs == []
    case MakeThread => received == [] && rs == []
    case NewWait => !HasSignal(received) && rs == []
    case Ready => Settled([UpToSignal] + rs, received)
    case AppWait => rs != [] && rs[|rs| - 1].UpToSignal? && Pending([UpToSignal] + rs[..|rs| - 1], received)
    case Terminate => Settled([UpToSignal] + rs, received)
    case ExitWait => sent && Pending([UpToSignal] + rs, received)
    case _ => Settled([UpToSignal] + rs + LastReading(sent), received)
  }

  lemma NewReads(received: seq<Msg>, m: Msg)
    requires !HasSignal(received)
    ensures IsSignal(m) ==> Settled([UpToSignal], received + [m])
    ensures !IsSignal(m) ==> !HasSignal(received + [m])
  {
    WaitEndsWith(received, m);
    assert [UpToSignal][..0] == [];
    assert Rest([UpToSignal][..0], received + [m]) == Some(received + [m]);
  }

  /** A wait receives one more message. */
  lemma WaitReads(rs: seq<Reading>, received: seq<Msg>, m: Msg)
    requires Pending(rs, received)
    ensures IsSignal(m) ==> Settled(rs + [UpToSignal], received + [m])
    ensures !IsSignal(m) ==> Pending(rs, received + [m])
  {
    RestGrows(rs, received, [m]);
    RestThen(rs, UpToSignal, received + [m]);
    WaitEndsWith(Rest(rs, received).value, m);
  }

  lemma ReceiveReads(rs: seq<Reading>, received: seq<Msg>, m: Msg)
    requires Settled(rs, received)
    ensures Settled(rs + [OneMessage], received + [m])
  {
    RestGrows(rs, received, [m]);
    RestThen(rs, OneMessage, received + [m]);
    assert [] + [m] == [m] && [m][1..] == [];
  }

  lemma Regroup(rs: seq<Reading>, r: Reading)
    ensures [UpToSignal] + (rs + [r]) == [UpToSignal] + rs + [r]
    ensures (rs + [r])[..|rs|] == rs && (rs + [r])[|rs|] == r
  {
  }

  /** One turn of a wait. */
  lemma AccountedWait<S>(st: State<S>, after: ParentPc, rs: seq<Reading>, sent: bool)
    requires Accounted(st.parent, rs, st.log.received, sent) && Waiting(st) && WaitStep(st, after).Some?
    requires after == if st.parent.ExitWait? then ClosePipe else Ready
    ensures var st' := WaitStep(st, after).value; Accounted(st'.parent, rs, st'.log.received, sent)
  {
    var received, m := st.log.received, st.pipe.toParent[0];
    match st.parent
    case NewWait =>
      NewReads(received, m);
      assert [UpToSignal] + [] == [UpToSignal];
    case AppWait =>
      var most := rs[..|rs| - 1];
      WaitReads([UpToSignal] + most, received, m);
      Regroup(most, UpToSignal);
      assert rs == most + [UpToSignal];
    case ExitWait => WaitReads([UpToSignal] + rs, received, m);
  }

  /** The terminator was sent. */
  predicate TermSent<S>(st: State<S>, ls: seq<Label>) {
    |st.log.commands| > |Sends(ls)|
  }

  predicate Commanded<S>(st: State<S>, ls: seq<Label>) {
    && st.terminator == Destructor(ls)
    && st.log.commands == Sends(ls) + (if TermSent(st, ls) then [Destructor(ls)] else [])
    && (TermSent(st, ls) ==> st.parent.ExitWait? || st.parent.ClosePipe? || st.parent.FreeSelf? || st.parent.Destroyed?)
    && Accounted(st.parent, Readings(ls), st.log.received, TermSent(st, ls))
  }

  lemma ReadingsThen(ls: seq<Label>, l: Label)
    ensures Readings(ls + [l]) == Readings(ls) +
      (if l.Recv? then [OneMessage] else if l.Wait? then [UpToSignal] else [])
  {
    assert (ls + [l])[..|ls|] == ls;
  }

  /** What a label adds to the commands and the destructor. */
  lemma SendsThen(ls: seq<Label>, l: Label)
    ensures Sends(ls + [l]) == Sends(ls) + (if l.Send? && l.m != [] then [l.m] else [])
    ensures Destructor(ls + [l]) == if l.SetDestructor? then l.t else Destructor(ls)
  {
    assert (ls + [l])[..|ls|] == ls;
  }

  /** A label that neither sends, reads nor sets anything. */
  lemma IdleLabel(ls: seq<Label>, l: Label)
    requires l.Child? || l.Parent? || l.Destroy?
    ensures Sends(ls + [l]) == Sends(ls) && Destructor(ls + [l]) == Destructor(ls) && Readings(ls + [l]) == Readings(ls)
  {
    ReadingsThen(ls, l);
    SendsThen(ls, l);
  }

  lemma CommandedChild<S>(c: Config<S>, st: State<S>, ls: seq<Label>)
    requires Commanded(st, ls) && ChildStep(c, st).Some?
    ensures Commanded(ChildStep(c, st).value, ls + [Child])
  {
    IdleLabel(ls, Child);
    ChildKeepsCaller(c, st);
  }

  lemma ChildKeepsCaller<S>(c: Config<S>, st: State<S>)
    requires ChildStep(c, st).Some?
    ensures
      var st' := ChildStep(c, st).value;
      && st'.parent == st.parent && st'.terminator == st.terminator
      && st'.log.commands == st.log.commands && st'.log.received == st.log.received
  {
  }

  lemma CommandedParent<S>(c: Config<S>, st: State<S>, ls: seq<Label>)
    requires Commanded(st, ls) && ParentStep(c, st).Some?
    ensures Commanded(ParentStep(c, st).value, ls + [Parent])
  {
    IdleLabel(ls, Parent);
    var rs := [UpToSignal] + Readings(ls);
    assert rs + [] == rs && Sends(ls) + [] == Sends(ls);
    if Waiting(st) {
      AccountedWait(st, if st.parent.ExitWait? then ClosePipe else Ready, Readings(ls), TermSent(st, ls));
    } else if st.parent.Terminate? {
      assert rs + LastReading(false) == rs;
      NoSignalYet();
    }
  }

  lemma NoSignalYet()
    ensures !HasSignal([])
  {
  }

  /** A call the application makes. */
  lemma CommandedCall<S>(c: Config<S>, st: State<S>, ls: seq<Label>, l: Label)
    requires Commanded(st, ls) && st.parent.Ready? && !l.Child? && !l.Parent? && Step(c, st, l).Some?
    ensures Commanded(Step(c, st, l).value, ls + [l])
  {
    if l.Recv? || l.Wait? {
      CommandedReading(c, st, ls, l);
    } else {
      CommandedSaying(c, st, ls, l);
    }
  }

  lemma CommandedReading<S>(c: Config<S>, st: State<S>, ls: seq<Label>, l: Label)
    requires Commanded(st, ls) && st.parent.Ready? && (l.Recv? || l.Wait?) && Step(c, st, l).Some?
    ensures Commanded(Step(c, st, l).value, ls + [l])
  {
    ReadingsThen(ls, l);
    SendsThen(ls, l);
    var rs := Readings(ls);
    assert Sends(ls) + [] == Sends(ls);
    if l.Recv? {
      ReceiveReads([UpToSignal] + rs, st.log.received, st.pipe.toParent[0]);
      Regroup(rs, OneMessage);
    } else {
      Regroup(rs, UpToSignal);
      NoSignalYet();
    }
  }

  lemma CommandedSaying<S>(c: Config<S>, st: State<S>, ls: seq<Label>, l: Label)
    requires Commanded(st, ls) && st.parent.Ready? && (l.Send? || l.SetDestructor? || l.Destroy?)
    requires Step(c, st, l).Some?
    ensures Commanded(Step(c, st, l).value, ls + [l])
  {
    ReadingsThen(ls, l);
    SendsThen(ls, l);
    assert Readings(ls) + [] == Readings(ls) && Sends(ls) + [] == Sends(ls);
  }

  lemma CommandedStep<S>(c: Config<S>, st: State<S>, ls: seq<Label>, l: Label)
    requires Commanded(st, ls) && Step(c, st, l).Some?
    ensures Commanded(Step(c, st, l).value, ls + [l])
  {
    if l.Child? {
      CommandedChild(c, st, ls);
    } else if l.Parent? {
      CommandedParent(c, st, ls);
    } else if st.parent.Ready? {
      CommandedCall(c, st, ls, l);
    } else {
      IdleLabel(ls, l);
    }
  }

  lemma {:induction false} CommandedRun<S>(c: Config<S>, ls: seq<Label>)
    requires Run(c, ls).Some?
    ensures Commanded(Run(c, ls).value, ls)
  {
    if ls == [] {
      assert Sends(ls) == [];
    } else {
      var most, l := ls[..|ls| - 1], ls[|ls| - 1];
      CommandedRun(c, most);
      assert ls == most + [l];
      CommandedStep(c, Run(c, most).value, most, l);
    }
  }

  // ----- The results -----

  /** Whenever the application is between two calls: the commands are exactly those it sent, in order; the
      destructor is the one it set last; and zactor_new and its receives and waits, read one after the other
      against what was received, account for all of it. */
  lemma CallsAccountForAll<S>(c: Config<S>, ls: seq<Label>)
    requires Run(c, ls).Some? && Run(c, ls).value.parent.Ready?
    ensures
      var st := Run(c, ls).value;
      && st.log.commands == Sends(ls) && st.terminator == Destructor(ls)
      && Rest([UpToSignal] + Readings(ls), st.log.received) == Some([])
  {
    CommandedRun(c, ls);
    assert Sends(ls) + [] == Sends(ls);
  }

  /** When destroy has returned: either the terminator the destructor sends is the last command, and destroy
      has read up to a signal, or it was not sent, and destroy has read nothing. */
  lemma DestroyAccountsForRest<S>(c: Config<S>, ls: seq<Label>)
    requires Run(c, ls).Some? && Run(c, ls).value.parent.Destroyed?
    ensures
      var st := Run(c, ls).value;
      || (&& st.log.commands == Sends(ls) + [Destructor(ls)]
          && Rest([UpToSignal] + Readings(ls) + [UpToSignal], st.log.received) == Some([]))
      || (&& st.log.commands == Sends(ls)
          && Rest([UpToSignal] + Readings(ls), st.log.received) == Some([]))
  {
    CommandedRun(c, ls);
    var rs := [UpToSignal] + Readings(ls);
    assert Sends(ls) + [] == Sends(ls) && rs + [] == rs;
  }

  lemma {:induction false} RunPrefix<S>(c: Config<S>, a: seq<Label>, b: seq<Label>)
    requires Run(c, a + b).Some?
    ensures Run(c, a).Some? && Run(c, a).value.log.received <= Run(c, a + b).value.log.received
    decreases |b|
  {
    if b == [] {
      assert a + b == a;
    } else {
      var most, l := b[..|b| - 1], b[|b| - 1];
      assert (a + b)[..|a + b| - 1] == a + most && (a + b)[|a + b| - 1] == l;
      RunPrefix(c, a, most);
      ReceivedGrows(c, Run(c, a + most).value, l);
    }
  }

  lemma ReceivedGrows<S>(c: Config<S>, st: State<S>, l: Label)
    requires Step(c, st, l).Some?
    ensures st.log.received <= Step(c, st, l).value.log.received
  {
  }

  lemma {:induction false} NoMoreReadings(ls: seq<Label>, b: seq<Label>)
    requires forall i :: 0 <= i < |b| ==> b[i].Child? || b[i].Parent?
    ensures Readings(ls + b) == Readings(ls)
    decreases |b|
  {
    if b == [] {
      assert ls + b == ls;
    } else {
      var most, l := b[..|b| - 1], b[|b| - 1];
      assert ls + b == ls + most + [l];
      NoMoreReadings(ls, most);
      ReadingsThen(ls + most, l);
    }
  }

  /** A call on a stream that was read to its end, once the stream has grown. */
  lemma ReadOn(rs: seq<Reading>, r: Reading, was: seq<Msg>, ms: seq<Msg>)
    requires Settled(rs, was) && was <= ms && Settled(rs + [r], ms)
    ensures Left(r, ms[|was|..]) == Some([])
  {
    var more := ms[|was|..];
    assert ms == was + more;
    RestGrows(rs, was, more);
    assert [] + more == more;
    RestThen(rs, r, ms);
  }

  lemma LeftNothing(ms: seq<Msg>)
    requires Left(UpToSignal, ms) == Some([])
    ensures ms != [] && !HasSignal(ms[..|ms| - 1]) && IsSignal(ms[|ms| - 1])
  {
    var n := FirstSignal(ms);
    assert |ms[n + 1..]| == 0;
  }

  lemma GrownBySignal(rs: seq<Reading>, was: seq<Msg>, received: seq<Msg>)
    requires Settled(rs, was) && Settled(rs + [UpToSignal], received) && was <= received
    ensures |was| < |received| && was == received[..|was|]
    ensures !HasSignal(received[|was|..|received| - 1]) && IsSignal(received[|received| - 1])
  {
    var more := received[|was|..];
    ReadOn(rs, UpToSignal, was, received);
    LeftNothing(more);
    assert more[..|more| - 1] == received[|was|..|received| - 1];
  }

  lemma ReadingsOfWait(ls: seq<Label>, b: seq<Label>)
    requires forall i :: 0 <= i < |b| ==> b[i].Child? || b[i].Parent?
    ensures [UpToSignal] + Readings(ls + [Wait] + b) == [UpToSignal] + Readings(ls) + [UpToSignal]
  {
    NoMoreReadings(ls + [Wait], b);
    ReadingsThen(ls, Wait);
    Regroup(Readings(ls), UpToSignal);
  }

  /** zsock_wait: whatever the two threads do meanwhile, when it has returned it has received some messages
      that are not signals, as many as there were, and then one signal. */
  lemma WaitReceivesUpToSignal<S>(c: Config<S>, ls: seq<Label>, b: seq<Label>)
    requires Run(c, ls).Some? && Run(c, ls).value.parent.Ready?
    requires forall i :: 0 <= i < |b| ==> b[i].Child? || b[i].Parent?
    requires Run(c, ls + [Wait] + b).Some? && Run(c, ls + [Wait] + b).value.parent.Ready?
    ensures
      var was, received := Run(c, ls).value.log.received, Run(c, ls + [Wait] + b).value.log.received;
      && |was| < |received| && was == received[..|was|]
      && !HasSignal(received[|was|..|received| - 1]) && IsSignal(received[|received| - 1])
  {
    CallsAccountForAll(c, ls);
    CallsAccountForAll(c, ls + [Wait] + b);
    ReadingsOfWait(ls, b);
    assert ls + [Wait] + b == ls + ([Wait] + b);
    RunPrefix(c, ls, [Wait] + b);
    GrownBySignal([UpToSignal] + Readings(ls), Run(c, ls).value.log.received,
      Run(c, ls + [Wait] + b).value.log.received);
  }

  /** A receive receives one message. */
  lemma RecvReceivesOne<S>(c: Config<S>, ls: seq<Label>)
    requires Run(c, ls + [Recv]).Some?
    ensures Run(c, ls).Some? && Run(c, ls).value.parent.Ready? && Run(c, ls + [Recv]).value.parent.Ready?
    ensures
      var was, received := Run(c, ls).value.log.received, Run(c, ls + [Recv]).value.log.received;
      |received| == |was| + 1 && was == received[..|was|]
  {
    assert (ls + [Recv])[..|ls|] == ls;
    CallsAccountForAll(c, ls);
    CallsAccountForAll(c, ls + [Recv]);
    ReadingsThen(ls, Recv);
    Regroup(Readings(ls), OneMessage);
    RunPrefix(c, ls, [Recv]);
    var was, received := Run(c, ls).value.log.received, Run(c, ls + [Recv]).value.log.received;
    ReadOn([UpToSignal] + Readings(ls), OneMessage, was, received);
    var more := received[|was|..];
    assert |more| == 1 + |more[1..]|;
  }

  // ----- When a call goes through at once -----

  lemma RunThen<S>(c: Config<S>, ls: seq<Label>, l: Label)
    requires Run(c, ls).Some?
    ensures Run(c, ls + [l]) == Step(c, Run(c, ls).value, l)
  {
    assert (ls + [l])[..|ls|] == ls;
  }

  lemma LengthsOf<S(!new)>(st: State<S>)
    requires Fifo(st)
    ensures |st.pipe.toParent| == |st.log.emitted| + |ExitPart(st)| - |st.log.received|
    ensures |st.pipe.toChild| == |st.log.commands| - |st.log.taken|
  {
    assert |st.log.received + st.pipe.toParent| == |st.log.emitted + ExitPart(st)|;
  }

  lemma StepsAreServed<S(!new)>(c: Config<S>, st: State<S>, m: Msg)
    requires st.parent.Ready? && Fifo(st)
    requires Back in st.log.released <==> st.pipe.back.Gone?
    requires st.pipe.back.Live? || st.pipe.back.Gone?
    ensures Step(c, st, Wait).Some? && Step(c, st, Destroy).Some? && (m != [] ==> Step(c, st, SetDestructor(m)).Some?)
    ensures Step(c, st, Recv).Some? <==> |st.log.received| < |st.log.emitted| + |ExitPart(st)|
    ensures Step(c, st, Send(m)).Some? <==>
      || m == []
      || (Back !in st.log.released && (c.commandLimit == 0 || |st.log.commands| - |st.log.taken| < c.commandLimit))
  {
    LengthsOf(st);
  }

  /** Between two calls an application can always begin to wait or to destroy and set a destructor; it can
      receive if and only if something sent has not been received, and send if and only if the actor's end is
      open and fewer commands than the limit have not been taken.  A message without frames needs no room. */
  lemma CallsAreServed<S(!new)>(c: Config<S>, ls: seq<Label>, m: Msg)
    requires Lively(c.handler) && Run(c, ls).Some? && Run(c, ls).value.parent.Ready?
    ensures
      var st := Run(c, ls).value;
      && Run(c, ls + [Wait]).Some? && Run(c, ls + [Destroy]).Some?
      && (m != [] ==> Run(c, ls + [SetDestructor(m)]).Some?)
      && (Run(c, ls + [Recv]).Some? <==> |st.log.received| < |st.log.emitted| + |ExitPart(st)|)
      && (Run(c, ls + [Send(m)]).Some? <==>
            || m == []
            || (Back !in st.log.released
                && (c.commandLimit == 0 || |st.log.commands| - |st.log.taken| < c.commandLimit)))
  {
    var st := Run(c, ls).value;
    InvRun(c, ls);
    ReleasesOkRun(c, ls);
    assert ReleaseOk(st, Back);
    StepsAreServed(c, st, m);
    RunThen(c, ls, Wait);
    RunThen(c, ls, Destroy);
    RunThen(c, ls, SetDestructor(m));
    RunThen(c, ls, Recv);
    RunThen(c, ls, Send(m));
  }
}
