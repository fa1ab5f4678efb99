/** zactor_destroy (src/zactor.c): exactly when it returns and exactly when it is synchronized, for
    any destructor that sends a terminator and, if that succeeds, waits. */
module ActorDestroy {
  import opened Messages
  import opened Actor
  import opened ActorInvariant
  import opened ActorWait
  import opened Wrappers

  // ----- After the destructor -----

  lemma {:induction false} ClosingCompletes<S(!new)>(c: Config<S>, st: State<S>)
    requires Lively(c.handler) && (st.parent.ClosePipe? || st.parent.FreeSelf? || st.parent.Destroyed?)
    ensures Completes(c, st, {Destroyed})
    decreases ParentRank(st.parent), |st.pipe.toChild|, ChildWork(c, st), |st.pipe.toParent|
  {
    if !st.parent.Destroyed? {
      ParentDescends(c, st);
      ClosingCompletes(c, ParentStep(c, st).value);
      if ChildStep(c, st).Some? {
        ChildDescends(c, st);
        ClosingCompletes(c, ChildStep(c, st).value);
      }
    }
  }

  lemma ClosingSynchronized<S(!new)>(c: Config<S>, st: State<S>)
    requires Lively(c.handler) && st.parent.ClosePipe?
    ensures Synchronized(c, st, {Destroyed}) <==> HandlerOver(st)
  {
    if HandlerOver(st) {
      OverStaysOver(c, st, {Destroyed});
    } else {
      var st1 := ParentStep(c, st).value;
      var st2 := ParentStep(c, st1).value;
      assert !Synchronized(c, st2, {Destroyed});
      assert !Synchronized(c, st1, {Destroyed});
    }
  }

  /** What the two last steps of zactor_destroy add changes neither question. */
  lemma {:induction false} WaitDecides<S(!new)>(c: Config<S>, st: State<S>)
    requires Lively(c.handler) && st.parent.ExitWait?
    ensures Completes(c, st, {Destroyed}) <==> Completes(c, st, {ClosePipe})
    ensures Synchronized(c, st, {Destroyed}) <==> Synchronized(c, st, {ClosePipe})
    decreases ParentRank(st.parent), |st.pipe.toChild|, ChildWork(c, st), |st.pipe.toParent|
  {
    var p, k := ParentStep(c, st), ChildStep(c, st);
    if p.Some? {
      if p.value.parent.ClosePipe? {
        ClosingCompletes(c, p.value);
        ClosingSynchronized(c, p.value);
      } else {
        WaitDecides(c, p.value);
      }
    }
    if k.Some? {
      WaitDecides(c, k.value);
    }
  }

  lemma {:induction false} DestructorDecides<S(!new)>(c: Config<S>, st: State<S>)
    requires Lively(c.handler) && st.parent.Terminate?
    ensures Completes(c, st, {Destroyed}) <==> Completes(c, st, {ClosePipe})
    ensures Synchronized(c, st, {Destroyed}) <==> Synchronized(c, st, {ClosePipe})
    decreases |st.pipe.toChild|, ChildWork(c, st), |st.pipe.toParent|
  {
    var p, k := ParentStep(c, st).value, ChildStep(c, st);
    if p.parent.ClosePipe? {
      ClosingCompletes(c, p);
      ClosingSynchronized(c, p);
    } else {
      WaitDecides(c, p);
    }
    if k.Some? {
      DestructorDecides(c, k.value);
    }
  }

  // ----- The state once the terminator is sent -----

  function Terminated<S>(st: State<S>): State<S> {
    Command(st, st.terminator, ExitWait)
  }

  /** What the parent has not received, counting what the handler would send up to the terminator. */
  ghost function Unread<S(!new)>(c: Config<S>, st: State<S>): seq<Msg>
    requires Lively(c.handler)
  {
    st.pipe.toParent + Future(c, Terminated(st))
  }

  lemma ChildBeforeTerminator<S(!new)>(c: Config<S>, st: State<S>)
    requires Lively(c.handler) && st.child.Running? && ChildStep(c, st).Some?
    ensures
      var st' := ChildStep(c, st).value;
      && Unread(c, st') == Unread(c, st)
      && (WillReturn(c, Terminated(st')) <==> WillReturn(c, Terminated(st)))
      && st'.parent == st.parent && st'.pipe.front == st.pipe.front && st'.pipe.back == st.pipe.back
      && |st'.pipe.toChild| <= |st.pipe.toChild|
  {
    var st' := ChildStep(c, st).value;
    if c.handler.action(st.child.s).Await? {
      assert (st.pipe.toChild + [st.terminator])[1..] == st'.pipe.toChild + [st'.terminator];
    }
  }

  // ----- Synchronization -----

  lemma {:induction false} QuietDestroyIsSynchronized<S(!new)>(c: Config<S>, st: State<S>)
    requires Lively(c.handler) && Lifecycle(st) && st.parent.Terminate? && st.child.Running?
    requires Room(c.commandLimit, st.pipe.toChild) && !HasSignal(Unread(c, st))
    ensures Synchronized(c, st, {ClosePipe})
    decreases ParentRank(st.parent), |st.pipe.toChild|, ChildWork(c, st), |st.pipe.toParent|
  {
    WaitSynchronizedIff(c, Terminated(st), {ClosePipe});
    if ChildStep(c, st).Some? {
      ChildBeforeTerminator(c, st);
      LifecycleStep(c, st, Child);
      var st' := ChildStep(c, st).value;
      if st'.child.Running? {
        QuietDestroyIsSynchronized(c, st');
      } else {
        OverStaysOver(c, st', {ClosePipe});
      }
    }
  }

  lemma SynchronizedInState<S(!new)>(c: Config<S>, st: State<S>)
    requires Lively(c.handler) && Lifecycle(st) && st.parent.Terminate?
    ensures Synchronized(c, st, {Destroyed}) <==>
      HandlerOver(st) || (Room(c.commandLimit, st.pipe.toChild) && !HasSignal(Unread(c, st)))
  {
    DestructorDecides(c, st);
    if HandlerOver(st) {
      OverStaysOver(c, st, {Destroyed});
    } else if !Room(c.commandLimit, st.pipe.toChild) {
      assert !Synchronized(c, ParentStep(c, st).value, {ClosePipe});
    } else if HasSignal(Unread(c, st)) {
      StaleSignalBreaksSynchronization(c, Terminated(st), {ClosePipe});
    } else {
      QuietDestroyIsSynchronized(c, st);
    }
  }

  lemma UnreadIsTheRest<S(!new)>(c: Config<S>, st: State<S>)
    requires Lively(c.handler) && Inv(c, st) && st.child.Running?
    ensures Emits(c.handler, c.handler.start, st.log.commands + [st.terminator]) == st.log.received + Unread(c, st)
    ensures WillReturn(c, Terminated(st)) <==> Returns(c.handler, c.handler.start, st.log.commands + [st.terminator])
  {
    var rest := Emits(c.handler, st.child.s, st.pipe.toChild + [st.terminator]);
    assert st.log.emitted + rest == (st.log.received + st.pipe.toParent) + rest;
    assert (st.log.received + st.pipe.toParent) + rest == st.log.received + (st.pipe.toParent + rest);
  }

  /** "The destructor is always synchronized": destroy returns only after the handler has returned,
      in every interleaving, if and only if the handler is over when destroy is called, or the pipe
      has room for the terminator and the caller has received as many signals as the handler sends
      in all, alone with the commands it was sent and the terminator. */
  lemma DestroySynchronizedIff<S(!new)>(c: Config<S>, st: State<S>)
    requires Lively(c.handler) && Reachable(c, st) && st.parent.Terminate?
    ensures Synchronized(c, st, {Destroyed}) <==>
      || HandlerOver(st)
      || (&& Room(c.commandLimit, st.pipe.toChild)
          && CountSignals(st.log.received) ==
            CountSignals(Emits(c.handler, c.handler.start, st.log.commands + [st.terminator])))
  {
    InvReachable(c, st);
    SynchronizedInState(c, st);
    if st.child.Running? {
      UnreadIsTheRest(c, st);
      CountSignalsAppend(st.log.received, Unread(c, st));
      CountSignalsZero(Unread(c, st));
    }
  }

  // ----- Completion -----

  lemma {:induction false} DestroyEnds<S(!new)>(c: Config<S>, st: State<S>)
    requires Lively(c.handler) && Lifecycle(st) && st.parent.Terminate?
    requires st.pipe.back.Gone? || WaitEnds(c, Terminated(st))
    ensures Completes(c, st, {ClosePipe})
    decreases ParentRank(st.parent), |st.pipe.toChild|, ChildWork(c, st), |st.pipe.toParent|
  {
    if st.pipe.back.Live? && Room(c.commandLimit, st.pipe.toChild) {
      WaitEndsSuffices(c, Terminated(st), {ClosePipe});
    }
    if ChildStep(c, st).Some? {
      LifecycleChild(c, st);
      EndingStays(c, st);
      ChildDescends(c, st);
      DestroyEnds(c, ChildStep(c, st).value);
    }
    StepsComplete(c, st, {ClosePipe});
  }

  /** The child's steps do not change whether the wait after the terminator would end. */
  lemma EndingStays<S(!new)>(c: Config<S>, st: State<S>)
    requires Lively(c.handler) && Lifecycle(st) && st.parent.Terminate? && ChildStep(c, st).Some?
    requires st.pipe.back.Gone? || WaitEnds(c, Terminated(st))
    ensures var st' := ChildStep(c, st).value; st'.pipe.back.Gone? || WaitEnds(c, Terminated(st'))
  {
    var st' := ChildStep(c, st).value;
    if st.child.Running? {
      ChildBeforeTerminator(c, st);
      assert |st.pipe.toParent| + |Future(c, Terminated(st))| == |Unread(c, st)|;
      assert |st'.pipe.toParent| + |Future(c, Terminated(st'))| == |Unread(c, st')|;
    } else {
      ChildSignals(c, Terminated(st));
      assert st'.pipe.back.Live? ==> Terminated(st') == ChildStep(c, Terminated(st)).value;
    }
  }

  /** The handler takes a command off the pipe though the parent reads nothing. */
  ghost predicate WillTake<S(!new)>(c: Config<S>, st: State<S>)
    requires Lively(c.handler)
    decreases ChildWork(c, st)
  {
    && st.child.Running?
    && match c.handler.action(st.child.s)
       case Await(_) => st.pipe.toChild != []
       case Emit(_, _) => ChildStep(c, st).Some? && WillTake(c, ChildStep(c, st).value)
       case Return => false
       case Abort => false
  }

  lemma {:induction false} FullPipeEnds<S(!new)>(c: Config<S>, st: State<S>)
    requires Lively(c.handler) && Lifecycle(st) && st.parent.Terminate?
    requires !Room(c.commandLimit, st.pipe.toChild) && !WillTake(c, st)
    ensures Completes(c, st, {ClosePipe})
    decreases |st.pipe.toChild|, ChildWork(c, st), |st.pipe.toParent|
  {
    if ChildStep(c, st).Some? {
      LifecycleStep(c, st, Child);
      FullPipeEnds(c, ChildStep(c, st).value);
    }
  }

  /** The pipe never holds more commands than its limit. */
  predicate CommandsFit<S>(c: Config<S>, st: State<S>) {
    c.commandLimit == 0 || |st.pipe.toChild| <= c.commandLimit
  }

  lemma CommandsFitStep<S(!new)>(c: Config<S>, st: State<S>, l: Label)
    requires CommandsFit(c, st) && Step(c, st, l).Some?
    ensures CommandsFit(c, Step(c, st, l).value)
  {
  }

  lemma {:induction false} CommandsFitRun<S(!new)>(c: Config<S>, ls: seq<Label>)
    requires Run(c, ls).Some?
    ensures CommandsFit(c, Run(c, ls).value)
  {
    if ls != [] {
      CommandsFitRun(c, ls[..|ls| - 1]);
      CommandsFitStep(c, Run(c, ls[..|ls| - 1]).value, ls[|ls| - 1]);
    }
  }

  lemma {:induction false} DestroyHangs<S(!new)>(c: Config<S>, st: State<S>)
    requires Lively(c.handler) && Lifecycle(st) && st.parent.Terminate? && st.pipe.back.Live?
    requires Room(c.commandLimit, st.pipe.toChild) || WillTake(c, st)
    requires CommandsFit(c, st) && !WaitEnds(c, Terminated(st))
    ensures !Completes(c, st, {ClosePipe})
    decreases |st.pipe.toChild|, ChildWork(c, st), |st.pipe.toParent|
  {
    if Room(c.commandLimit, st.pipe.toChild) {
      WaitEndsNeeded(c, Terminated(st), {ClosePipe});
      assert ParentStep(c, st).value == Terminated(st);
    } else {
      var st' := ChildStep(c, st).value;
      ChildBeforeTerminator(c, st);
      LifecycleStep(c, st, Child);
      assert |st.pipe.toParent| + |Future(c, Terminated(st))| == |Unread(c, st)|;
      assert |st'.pipe.toParent| + |Future(c, Terminated(st'))| == |Unread(c, st')|;
      DestroyHangs(c, st');
    }
  }

  /** Destroy returns in every interleaving if and only if the child's pipe end is closed, or an unread
      signal is there or will come, or the handler returns on the terminator and its exit signal cannot
      find the pipe full, or the terminator cannot be sent at all, because the pipe is full and stays
      so.  In particular it can block for ever in the window between the exit signal and the close if
      that signal was received before. */
  lemma DestroyCompletesIff<S(!new)>(c: Config<S>, st: State<S>)
    requires Lively(c.handler) && Reachable(c, st) && st.parent.Terminate?
    ensures Completes(c, st, {Destroyed}) <==>
      || st.pipe.back.Gone?
      || WaitEnds(c, Terminated(st))
      || !(Room(c.commandLimit, st.pipe.toChild) || WillTake(c, st))
  {
    InvReachable(c, st);
    DestructorDecides(c, st);
    if st.pipe.back.Gone? || WaitEnds(c, Terminated(st)) {
      DestroyEnds(c, st);
    } else if Room(c.commandLimit, st.pipe.toChild) || WillTake(c, st) {
      var ls :| Run(c, ls) == Some(st);
      CommandsFitRun(c, ls);
      DestroyHangs(c, st);
    } else {
      FullPipeEnds(c, st);
    }
  }

  // ----- The contract of an actor -----

  /** The exit signal is refused only by a full pipe or after the parent's end is closed. */
  ghost predicate ExitKept<S(!new)>(c: Config<S>, st: State<S>) {
    HandlerOver(st) && !st.child.Returned? && !st.log.exitSent ==>
      !st.pipe.front.Live? || 0 < c.replyLimit <= |st.log.emitted|
  }

  lemma ExitKeptStep<S(!new)>(c: Config<S>, st: State<S>, l: Label)
    requires Fifo(st) && Lifecycle(st) && ExitKept(c, st) && Step(c, st, l).Some?
    ensures ExitKept(c, Step(c, st, l).value)
  {
    assert |st.log.received| + |st.pipe.toParent| == |st.log.emitted| + |ExitPart(st)|;
  }

  lemma {:induction false} ExitKeptRun<S(!new)>(c: Config<S>, ls: seq<Label>)
    requires Lively(c.handler) && Run(c, ls).Some?
    ensures ExitKept(c, Run(c, ls).value)
  {
    if ls != [] {
      ExitKeptRun(c, ls[..|ls| - 1]);
      InvRun(c, ls[..|ls| - 1]);
      ExitKeptStep(c, Run(c, ls[..|ls| - 1]).value, ls[|ls| - 1]);
    }
  }

  /** The caller's side of the contract at destroy: the handler, alone with the commands sent and the
      terminator, returns; the caller has received every signal it sends; the pipe has room for the
      terminator and for all the handler sends. */
  ghost predicate Balanced<S(!new)>(c: Config<S>, st: State<S>)
    requires Lively(c.handler)
  {
    var all := Emits(c.handler, c.handler.start, st.log.commands + [st.terminator]);
    && Returns(c.handler, c.handler.start, st.log.commands + [st.terminator])
    && CountSignals(st.log.received) == CountSignals(all)
    && Room(c.commandLimit, st.pipe.toChild)
    && (c.replyLimit == 0 || |all| < c.replyLimit)
  }

  /** A balanced destroy always returns and is always synchronized, whether the child is still
      running, has just sent its exit signal, or is gone. */
  lemma BalancedDestroy<S(!new)>(c: Config<S>, st: State<S>)
    requires Lively(c.handler) && Reachable(c, st) && st.parent.Terminate? && Balanced(c, st)
    ensures Completes(c, st, {Destroyed}) && Synchronized(c, st, {Destroyed})
  {
    InvReachable(c, st);
    DestroySynchronizedIff(c, st);
    DestroyCompletesIff(c, st);
    var ls :| Run(c, ls) == Some(st);
    ExitKeptRun(c, ls);
    if st.child.Running? {
      UnreadIsTheRest(c, st);
    } else if st.child.Returned? {
      assert |st.log.received| + |st.pipe.toParent| == |st.log.emitted|;
    } else if st.child.Signalled? {
      SignalConservation(c, st);
      CountSignalsZero(st.pipe.toParent);
      assert st.pipe.toParent + Future(c, Terminated(st)) == st.pipe.toParent;
    }
  }

  /** The turn of the wait that receives the one message left. */
  lemma LastTurn<S(!new)>(st: State<S>)
    requires st.pipe.toParent == [EXIT] && IsSignal(st.pipe.toParent[0])
    ensures
      var st' := Receive(st, ClosePipe);
      WaitStep(st, ClosePipe) == Some(st') && st'.log.received == st.log.received + [EXIT] && st'.pipe.toParent == []
  {
  }

  /** When a balanced destroy's wait meets a signal, that is the exit signal: the wait has dropped
      exactly the messages the caller had not read, and nothing is left in the pipe. */
  lemma BalancedDestroyDrains<S(!new)>(c: Config<S>, st: State<S>)
    requires Lively(c.handler) && Reachable(c, st) && st.parent.ExitWait?
    requires CountSignals(st.log.received) == CountSignals(Emits(c.handler, c.handler.start, st.log.commands))
    requires st.pipe.toParent != [] && IsSignal(st.pipe.toParent[0])
    ensures
      var st' := ParentStep(c, st).value;
      && st'.parent.ClosePipe?
      && st'.log.received == Emits(c.handler, c.handler.start, st.log.commands) + [NewSignal(0)]
      && st'.pipe.toParent == []
      && HandlerOver(st')
  {
    InvReachable(c, st);
    HandlerIsDeterminate(c, st);
    var all := Emits(c.handler, c.handler.start, st.log.commands);
    assert st.log.emitted + all[|st.log.emitted|..] == all;
    CountSignalsAppend(st.log.emitted, all[|st.log.emitted|..]);
    AllWasRead(st);
    LastTurn(st);
  }

  /** If the caller has received as many signals as were sent and the next message is a signal, everything
      the handler sent was received. */
  lemma AllWasRead<S(!new)>(st: State<S>)
    requires Fifo(st) && CountSignals(st.log.received) >= CountSignals(st.log.emitted)
    requires st.pipe.toParent != [] && IsSignal(st.pipe.toParent[0])
    ensures st.log.received == st.log.emitted && st.pipe.toParent == [EXIT] && st.log.exitSent
  {
    var n := |st.log.received|;
    assert |st.log.received| + |st.pipe.toParent| == |st.log.emitted| + |ExitPart(st)|;
    if n < |st.log.emitted| {
      assert st.log.emitted[..n] == (st.log.received + st.pipe.toParent)[..n] == st.log.received;
      assert st.log.emitted[n] == (st.log.received + st.pipe.toParent)[n] == st.pipe.toParent[0];
      CountSignalsBefore(st.log.emitted, n);
      assert false;
    }
    assert (st.log.received + st.pipe.toParent)[..n] == st.log.received;
    assert (st.log.emitted + [EXIT])[..n] == st.log.emitted;
    assert (st.log.received + st.pipe.toParent)[n..] == st.pipe.toParent;
    assert (st.log.emitted + [EXIT])[n..] == [EXIT];
  }
}
