/** Exactly when a zsock_wait on an actor's pipe ends, and exactly when its end means that the
    actor function is over: over every interleaving, for every handler and every high-water mark. */
module ActorWait {
  import opened Messages
  import opened Actor
  import opened ActorInvariant
  import opened Wrappers

  // ----- All interleavings from a state -----

  function ParentRank(pc: ParentPc): nat {
    match pc
    case MakeSelf => 10 case MakeShim => 9 case MakePipe => 8 case MakeThread => 7
    case NewWait => 6 case AppWait => 6 case Ready => 5
    case Terminate => 4 case ExitWait => 3 case ClosePipe => 2 case FreeSelf => 1 case Destroyed => 0
  }

  function ChildWork<S>(c: Config<S>, st: State<S>): nat {
    match st.child
    case Running(s) => c.handler.work(s) + 4
    case Returned => 3
    case Signalled => 2
    case Closed => 1
    case _ => 0
  }

  /** A step of the parent brings it further, or takes a message off the queue. */
  lemma ParentDescends<S(!new)>(c: Config<S>, st: State<S>)
    requires ParentStep(c, st).Some?
    ensures
      var st' := ParentStep(c, st).value;
      || ParentRank(st'.parent) < ParentRank(st.parent)
      || (&& st'.parent == st.parent && st'.pipe.toChild == st.pipe.toChild && st'.child == st.child
          && |st'.pipe.toParent| < |st.pipe.toParent|)
  {
  }

  /** A step of the child takes a command off the queue, or brings the child further. */
  lemma ChildDescends<S(!new)>(c: Config<S>, st: State<S>)
    requires Lively(c.handler) && ChildStep(c, st).Some?
    ensures
      var st' := ChildStep(c, st).value;
      && st'.parent == st.parent
      && (|| |st'.pipe.toChild| < |st.pipe.toChild|
          || (st'.pipe.toChild == st.pipe.toChild && ChildWork(c, st') < ChildWork(c, st)))
  {
  }

  /** Every maximal interleaving of the two threads from st is finite and takes the parent into done.
      That the recursion is well founded is the termination measure: the parent's place, then the
      commands ahead, then the child's place and work, then the messages ahead. */
  ghost predicate Completes<S(!new)>(c: Config<S>, st: State<S>, done: set<ParentPc>)
    requires Lively(c.handler)
    decreases ParentRank(st.parent), |st.pipe.toChild|, ChildWork(c, st), |st.pipe.toParent|
  {
    || st.parent in done
    || (&& (ParentStep(c, st).Some? || ChildStep(c, st).Some?)
        && (ParentStep(c, st).Some? ==> (ParentDescends(c, st); Completes(c, ParentStep(c, st).value, done)))
        && (ChildStep(c, st).Some? ==> (ChildDescends(c, st); Completes(c, ChildStep(c, st).value, done))))
  }

  /** In every interleaving from st, whenever the parent enters done the handler is over. */
  ghost predicate Synchronized<S(!new)>(c: Config<S>, st: State<S>, done: set<ParentPc>)
    requires Lively(c.handler)
    decreases ParentRank(st.parent), |st.pipe.toChild|, ChildWork(c, st), |st.pipe.toParent|
  {
    if st.parent in done then HandlerOver(st)
    else
      && (ParentStep(c, st).Some? ==> (ParentDescends(c, st); Synchronized(c, ParentStep(c, st).value, done)))
      && (ChildStep(c, st).Some? ==> (ChildDescends(c, st); Synchronized(c, ChildStep(c, st).value, done)))
  }

  // ----- What is still to come -----

  /** What the handler will send if no more commands come. */
  ghost function Future<S(!new)>(c: Config<S>, st: State<S>): seq<Msg>
    requires Lively(c.handler)
  {
    if st.child.Running? then Emits(c.handler, st.child.s, st.pipe.toChild) else []
  }

  /** The exit signal is still to be attempted, and will be if no more commands come. */
  ghost predicate WillReturn<S(!new)>(c: Config<S>, st: State<S>)
    requires Lively(c.handler)
  {
    if st.child.Running? then Returns(c.handler, st.child.s, st.pipe.toChild) else st.child.Returned?
  }

  /** A signal is on its way, or the exit signal is and the pipe cannot be full when it comes. */
  ghost predicate WaitEnds<S(!new)>(c: Config<S>, st: State<S>)
    requires Lively(c.handler)
  {
    || HasSignal(st.pipe.toParent + Future(c, st))
    || (WillReturn(c, st) && (c.replyLimit == 0 || |st.pipe.toParent| + |Future(c, st)| < c.replyLimit))
  }

  predicate WaitsFor<S>(st: State<S>, done: set<ParentPc>) {
    && st.pipe.front.Live?
    && Waiting(st)
    && st.parent !in done
    && (if st.parent.ExitWait? then ClosePipe else Ready) in done
  }

  // ----- Steps -----

  lemma ChildRunsOn<S(!new)>(c: Config<S>, st: State<S>)
    requires Lively(c.handler) && st.child.Running? && ChildStep(c, st).Some?
    ensures
      var st' := ChildStep(c, st).value;
      && st'.pipe.toParent + Future(c, st') == st.pipe.toParent + Future(c, st)
      && (WillReturn(c, st') <==> WillReturn(c, st))
      && st'.parent == st.parent && st'.pipe.front == st.pipe.front
  {
  }

  lemma ChildSignals<S(!new)>(c: Config<S>, st: State<S>)
    requires Lively(c.handler) && st.pipe.front.Live? && !st.child.Running? && ChildStep(c, st).Some?
    ensures
      var st' := ChildStep(c, st).value;
      && (WaitEnds(c, st') <==> WaitEnds(c, st))
      && st'.parent == st.parent && st'.pipe.front == st.pipe.front && HandlerOver(st')
  {
    var st' := ChildStep(c, st).value;
    SignalsAreExactlyTheSignalMessages(EXIT);
    assert st.pipe.toParent + [] == st.pipe.toParent;
    if st'.pipe.toParent == st.pipe.toParent {
      assert st'.pipe.toParent + Future(c, st') == st.pipe.toParent + Future(c, st);
    } else {
      assert IsSignal((st'.pipe.toParent + Future(c, st'))[|st.pipe.toParent|]);
    }
  }

  lemma ChildKeepsWaitEnds<S(!new)>(c: Config<S>, st: State<S>)
    requires Lively(c.handler) && st.pipe.front.Live? && ChildStep(c, st).Some?
    ensures
      var st' := ChildStep(c, st).value;
      && (WaitEnds(c, st') <==> WaitEnds(c, st))
      && st'.parent == st.parent && st'.pipe.front == st.pipe.front
  {
    if st.child.Running? {
      var st' := ChildStep(c, st).value;
      ChildRunsOn(c, st);
      assert |st'.pipe.toParent| + |Future(c, st')| == |st'.pipe.toParent + Future(c, st')|;
    } else {
      ChildSignals(c, st);
    }
  }

  lemma DropHead(a: seq<Msg>, b: seq<Msg>)
    requires a != []
    ensures HasSignal(a + b) <==> IsSignal(a[0]) || HasSignal(a[1..] + b)
  {
    assert (a + b)[0] == a[0];
    forall i | 0 < i < |a + b|
      ensures (a + b)[i] == (a[1..] + b)[i - 1]
    {
    }
    if HasSignal(a[1..] + b) {
      var i :| 0 <= i < |a[1..] + b| && IsSignal((a[1..] + b)[i]);
      assert IsSignal((a + b)[i + 1]);
    }
  }

  /** One turn of a waiting parent: it either stops, or the child and the wait stay as they were. */
  lemma ParentDrops<S(!new)>(c: Config<S>, st: State<S>, done: set<ParentPc>)
    requires Lively(c.handler) && WaitsFor(st, done) && st.pipe.toParent != []
    ensures ParentStep(c, st).Some?
    ensures
      var st' := ParentStep(c, st).value;
      if IsSignal(st.pipe.toParent[0]) then st'.parent in done && st'.child == st.child
      else
        && WaitsFor(st', done)
        && st'.pipe.toParent == st.pipe.toParent[1..]
        && st'.child == st.child
        && Future(c, st') == Future(c, st)
        && (WillReturn(c, st') <==> WillReturn(c, st))
        && (HasSignal(st'.pipe.toParent + Future(c, st')) <==> HasSignal(st.pipe.toParent + Future(c, st)))
  {
    DropHead(st.pipe.toParent, Future(c, st));
  }

  /** With nothing queued for the parent, a child that has something to come is not blocked. */
  lemma ChildNotBlocked<S(!new)>(c: Config<S>, st: State<S>)
    requires Lively(c.handler) && st.pipe.front.Live? && st.pipe.toParent == []
    requires Future(c, st) != [] || WillReturn(c, st)
    ensures ChildStep(c, st).Some?
  {
  }

  /** A blocked child that will return is blocked by a full pipe. */
  lemma BlockedByFullPipe<S(!new)>(c: Config<S>, st: State<S>)
    requires Lively(c.handler) && st.pipe.front.Live? && ChildStep(c, st).None? && WillReturn(c, st)
    ensures 0 < c.replyLimit <= |st.pipe.toParent| && Future(c, st) != []
  {
  }

  // ----- When a wait ends -----

  /** A turn of a wait that is to end and meets no signal leaves it to end. */
  lemma DropKeepsWaitEnds<S(!new)>(c: Config<S>, st: State<S>, done: set<ParentPc>)
    requires Lively(c.handler) && WaitsFor(st, done) && WaitEnds(c, st)
    requires st.pipe.toParent != [] && !IsSignal(st.pipe.toParent[0])
    ensures ParentStep(c, st).Some?
    ensures var st' := ParentStep(c, st).value; WaitsFor(st', done) && WaitEnds(c, st')
  {
    ParentDrops(c, st, done);
  }

  /** While a wait is to end, one of the threads can go on. */
  lemma NotStuck<S(!new)>(c: Config<S>, st: State<S>)
    requires Lively(c.handler) && st.pipe.front.Live? && WaitEnds(c, st) && st.pipe.toParent == []
    ensures ChildStep(c, st).Some?
  {
    assert st.pipe.toParent + Future(c, st) == Future(c, st);
    ChildNotBlocked(c, st);
  }

  lemma StepsComplete<S(!new)>(c: Config<S>, st: State<S>, done: set<ParentPc>)
    requires Lively(c.handler) && (ParentStep(c, st).Some? || ChildStep(c, st).Some?)
    requires ParentStep(c, st).Some? ==> Completes(c, ParentStep(c, st).value, done)
    requires ChildStep(c, st).Some? ==> Completes(c, ChildStep(c, st).value, done)
    ensures Completes(c, st, done)
  {
  }

  lemma {:induction false} WaitEndsSuffices<S(!new)>(c: Config<S>, st: State<S>, done: set<ParentPc>)
    requires Lively(c.handler) && WaitsFor(st, done) && WaitEnds(c, st)
    ensures Completes(c, st, done)
    decreases ParentRank(st.parent), |st.pipe.toChild|, ChildWork(c, st), |st.pipe.toParent|
  {
    if st.pipe.toParent == [] {
      NotStuck(c, st);
    } else if IsSignal(st.pipe.toParent[0]) {
      ParentDrops(c, st, done);
    } else {
      DropKeepsWaitEnds(c, st, done);
      ParentDescends(c, st);
      WaitEndsSuffices(c, ParentStep(c, st).value, done);
    }
    if ChildStep(c, st).Some? {
      ChildKeepsWaitEnds(c, st);
      ChildDescends(c, st);
      WaitEndsSuffices(c, ChildStep(c, st).value, done);
    }
    StepsComplete(c, st, done);
  }

  lemma {:induction false} WaitEndsNeeded<S(!new)>(c: Config<S>, st: State<S>, done: set<ParentPc>)
    requires Lively(c.handler) && WaitsFor(st, done) && !WaitEnds(c, st)
    ensures !Completes(c, st, done)
    decreases ParentRank(st.parent), |st.pipe.toChild|, ChildWork(c, st), |st.pipe.toParent|
  {
    if ChildStep(c, st).Some? {
      ChildKeepsWaitEnds(c, st);
      WaitEndsNeeded(c, ChildStep(c, st).value, done);
    } else if st.pipe.toParent != [] {
      DropHead(st.pipe.toParent, Future(c, st));
      ParentDrops(c, st, done);
      if WillReturn(c, st) {
        BlockedByFullPipe(c, st);
      }
      WaitEndsNeeded(c, ParentStep(c, st).value, done);
    }
  }

  /** A wait ends in every interleaving if and only if a signal is queued or will be sent in reply to
      the commands already sent, or the handler will return on them and its exit signal cannot find
      the pipe full.  In the other cases some interleaving blocks for ever. */
  lemma WaitCompletesIff<S(!new)>(c: Config<S>, st: State<S>, done: set<ParentPc>)
    requires Lively(c.handler) && WaitsFor(st, done)
    ensures Completes(c, st, done) <==> WaitEnds(c, st)
  {
    if WaitEnds(c, st) {
      WaitEndsSuffices(c, st, done);
    } else {
      WaitEndsNeeded(c, st, done);
    }
  }

  // ----- When the end of a wait means that the handler is over -----

  lemma {:induction false} OverStaysOver<S(!new)>(c: Config<S>, st: State<S>, done: set<ParentPc>)
    requires Lively(c.handler) && HandlerOver(st) && !InNew(st.parent)
    ensures Synchronized(c, st, done)
    decreases ParentRank(st.parent), |st.pipe.toChild|, ChildWork(c, st), |st.pipe.toParent|
  {
    if st.parent !in done {
      if ParentStep(c, st).Some? {
        ParentDescends(c, st);
        OverStaysOver(c, ParentStep(c, st).value, done);
      }
      if ChildStep(c, st).Some? {
        ChildDescends(c, st);
        OverStaysOver(c, ChildStep(c, st).value, done);
      }
    }
  }

  lemma {:induction false} QuietWaitIsSynchronized<S(!new)>(c: Config<S>, st: State<S>, done: set<ParentPc>)
    requires Lively(c.handler) && WaitsFor(st, done) && !HasSignal(st.pipe.toParent + Future(c, st))
    requires st.child.Running?
    ensures Synchronized(c, st, done)
    decreases ParentRank(st.parent), |st.pipe.toChild|, ChildWork(c, st), |st.pipe.toParent|
  {
    if st.pipe.toParent != [] {
      DropHead(st.pipe.toParent, Future(c, st));
      ParentDrops(c, st, done);
      QuietWaitIsSynchronized(c, ParentStep(c, st).value, done);
    }
    if ChildStep(c, st).Some? {
      ChildRunsOn(c, st);
      var st' := ChildStep(c, st).value;
      if st'.child.Running? {
        QuietWaitIsSynchronized(c, st', done);
      } else {
        OverStaysOver(c, st', done);
      }
    }
  }

  /** One interleaving that is not synchronized is enough. */
  lemma StepBreaks<S(!new)>(c: Config<S>, st: State<S>, st': State<S>, done: set<ParentPc>)
    requires Lively(c.handler) && st.parent !in done && !Synchronized(c, st', done)
    requires ParentStep(c, st) == Some(st') || ChildStep(c, st) == Some(st')
    ensures !Synchronized(c, st, done)
  {
  }

  /** The handler's next step leaves a signal that is on its way on its way. */
  lemma StaleSignalStays<S(!new)>(c: Config<S>, st: State<S>, done: set<ParentPc>)
    requires Lively(c.handler) && WaitsFor(st, done) && HasSignal(st.pipe.toParent + Future(c, st))
    requires st.child.Running? && st.pipe.toParent == []
    ensures ChildStep(c, st).Some?
    ensures
      var st' := ChildStep(c, st).value;
      WaitsFor(st', done) && HasSignal(st'.pipe.toParent + Future(c, st')) && st'.child.Running?
  {
    assert st.pipe.toParent + Future(c, st) == Future(c, st);
    ChildNotBlocked(c, st);
    ChildRunsOn(c, st);
  }

  lemma {:induction false} StaleSignalBreaksSynchronization<S(!new)>(c: Config<S>, st: State<S>, done: set<ParentPc>)
    requires Lively(c.handler) && WaitsFor(st, done) && HasSignal(st.pipe.toParent + Future(c, st))
    requires st.child.Running?
    ensures !Synchronized(c, st, done)
    decreases ParentRank(st.parent), |st.pipe.toChild|, ChildWork(c, st), |st.pipe.toParent|
  {
    if st.pipe.toParent != [] {
      var st' := ParentStep(c, st).value;
      ParentDrops(c, st, done);
      if !IsSignal(st.pipe.toParent[0]) {
        StaleSignalBreaksSynchronization(c, st', done);
      }
      StepBreaks(c, st, st', done);
    } else {
      StaleSignalStays(c, st, done);
      ChildDescends(c, st);
      var st' := ChildStep(c, st).value;
      StaleSignalBreaksSynchronization(c, st', done);
      StepBreaks(c, st, st', done);
    }
  }

  /** The end of a wait means that the handler is over, in every interleaving, if and only if the
      handler is over already or none of its own signals is queued or still to come. */
  lemma WaitSynchronizedIff<S(!new)>(c: Config<S>, st: State<S>, done: set<ParentPc>)
    requires Lively(c.handler) && WaitsFor(st, done) && !st.child.NotStarted?
    ensures Synchronized(c, st, done) <==> HandlerOver(st) || !HasSignal(st.pipe.toParent + Future(c, st))
  {
    if HandlerOver(st) {
      OverStaysOver(c, st, done);
    } else if HasSignal(st.pipe.toParent + Future(c, st)) {
      StaleSignalBreaksSynchronization(c, st, done);
    } else {
      QuietWaitIsSynchronized(c, st, done);
    }
  }

  // ----- zactor_new -----

  /** zactor_new returns in every interleaving if and only if the handler signals before its first
      receive, or returns before it with room left for the exit signal. */
  lemma ConstructorCompletesIff<S(!new)>(c: Config<S>)
    requires Lively(c.handler)
    ensures
      var sends := Emits(c.handler, c.handler.start, []);
      Completes(c, Init(), {Ready}) <==>
        || HasSignal(sends)
        || (Returns(c.handler, c.handler.start, []) && (c.replyLimit == 0 || |sends| < c.replyLimit))
  {
    var s1 := ParentStep(c, Init<S>()).value;
    var s2 := ParentStep(c, s1).value;
    var s3 := ParentStep(c, s2).value;
    var s4 := ParentStep(c, s3).value;
    WaitCompletesIff(c, s4, {Ready});
    assert s4.pipe.toParent + Future(c, s4) == Emits(c.handler, c.handler.start, []);
    assert Completes(c, s3, {Ready}) <==> Completes(c, s4, {Ready});
    assert Completes(c, s2, {Ready}) <==> Completes(c, s3, {Ready});
    assert Completes(c, s1, {Ready}) <==> Completes(c, s2, {Ready});
  }
}
