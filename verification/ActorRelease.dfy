/** What is left of an actor when zactor_destroy returns (src/zactor.c): exactly when the shim and the
    actor's end of the pipe are sure to be gone, over every interleaving, for every handler, destructor and
    high-water mark. */
module ActorRelease {
  import opened Messages
  import opened Actor
  import opened ActorInvariant
  import opened ActorWait
  import opened ActorDestroy

  /** In every interleaving from st, whenever destroy has returned all four resources are released.  It
      releases the actor and its own pipe end itself. */
  ghost predicate AllReleased<S(!new)>(c: Config<S>, st: State<S>)
    requires Lively(c.handler)
    decreases ParentRank(st.parent), |st.pipe.toChild|, ChildWork(c, st), |st.pipe.toParent|
  {
    if st.parent.Destroyed? then st.self.Gone? && st.shim.Gone? && st.pipe.front.Gone? && st.pipe.back.Gone?
    else
      && (ParentStep(c, st).Some? ==> (ParentDescends(c, st); AllReleased(c, ParentStep(c, st).value)))
      && (ChildStep(c, st).Some? ==> (ChildDescends(c, st); AllReleased(c, ChildStep(c, st).value)))
  }

  // ----- Where it is sure -----

  lemma {:induction false} EndedIsReleased<S(!new)>(c: Config<S>, st: State<S>)
    requires Lively(c.handler) && Lifecycle(st) && st.child.Ended?
    ensures AllReleased(c, st)
    decreases ParentRank(st.parent), |st.pipe.toParent|
  {
    if ParentStep(c, st).Some? {
      ParentDescends(c, st);
      LifecycleParent(c, st);
      EndedIsReleased(c, ParentStep(c, st).value);
    }
  }

  /** A handler that neither returns on the commands sent nor signals keeps the wait from ending. */
  lemma {:induction false} SilentWaitNeverReturns<S(!new)>(c: Config<S>, st: State<S>)
    requires Lively(c.handler) && WaitsFor(st, {ClosePipe}) && st.parent.ExitWait? && st.child.Running?
    requires !HasSignal(st.pipe.toParent + Future(c, st)) && !WillReturn(c, st)
    ensures AllReleased(c, st)
    decreases |st.pipe.toChild|, ChildWork(c, st), |st.pipe.toParent|
  {
    if st.pipe.toParent != [] {
      DropHead(st.pipe.toParent, Future(c, st));
      ParentDrops(c, st, {ClosePipe});
      SilentWaitNeverReturns(c, ParentStep(c, st).value);
    }
    if ChildStep(c, st).Some? {
      ChildRunsOn(c, st);
      ChildDescends(c, st);
      SilentWaitNeverReturns(c, ChildStep(c, st).value);
    }
  }

  lemma {:induction false} SilentDestroyNeverReturns<S(!new)>(c: Config<S>, st: State<S>)
    requires Lively(c.handler) && Lifecycle(st) && st.parent.Terminate? && st.child.Running?
    requires Room(c.commandLimit, st.pipe.toChild)
    requires !HasSignal(Unread(c, st)) && !WillReturn(c, Terminated(st))
    ensures AllReleased(c, st)
    decreases |st.pipe.toChild|, ChildWork(c, st)
  {
    assert ParentStep(c, st).value == Terminated(st);
    SilentWaitNeverReturns(c, Terminated(st));
    if ChildStep(c, st).Some? {
      ChildBeforeTerminator(c, st);
      ChildDescends(c, st);
      LifecycleChild(c, st);
      SilentDestroyNeverReturns(c, ChildStep(c, st).value);
    }
  }

  // ----- Where it is not -----

  lemma ClosingLeavesShim<S(!new)>(c: Config<S>, st: State<S>)
    requires Lively(c.handler) && st.parent.ClosePipe? && st.shim.Live?
    ensures !AllReleased(c, st)
  {
    var st1 := ParentStep(c, st).value;
    assert !AllReleased(c, ParentStep(c, st1).value);
    assert !AllReleased(c, st1);
  }

  /** The wait can end before the actor thread has freed the shim. */
  lemma {:induction false} WaitLeavesShim<S(!new)>(c: Config<S>, st: State<S>)
    requires Lively(c.handler) && WaitsFor(st, {ClosePipe}) && st.parent.ExitWait? && st.shim.Live?
    requires st.child.Running? || st.child.Returned? || st.child.Signalled?
    requires HasSignal(st.pipe.toParent + Future(c, st)) || WillReturn(c, st)
    ensures !AllReleased(c, st)
    decreases |st.pipe.toChild|, ChildWork(c, st), |st.pipe.toParent|
  {
    if st.pipe.toParent != [] {
      ParentDrops(c, st, {ClosePipe});
      if IsSignal(st.pipe.toParent[0]) {
        ClosingLeavesShim(c, ParentStep(c, st).value);
      } else {
        WaitLeavesShim(c, ParentStep(c, st).value);
      }
    } else {
      ChildComesCloser(c, st);
      ChildDescends(c, st);
      WaitLeavesShim(c, ChildStep(c, st).value);
    }
  }

  /** With nothing queued for the parent, the child's next step brings the end of the wait closer. */
  lemma ChildComesCloser<S(!new)>(c: Config<S>, st: State<S>)
    requires Lively(c.handler) && WaitsFor(st, {ClosePipe}) && st.shim.Live? && st.pipe.toParent == []
    requires st.child.Running? || st.child.Returned? || st.child.Signalled?
    requires HasSignal(st.pipe.toParent + Future(c, st)) || WillReturn(c, st)
    ensures ChildStep(c, st).Some?
    ensures
      var st' := ChildStep(c, st).value;
      && WaitsFor(st', {ClosePipe}) && st'.parent == st.parent && st'.shim.Live?
      && (st'.child.Running? || st'.child.Returned? || st'.child.Signalled?)
      && (HasSignal(st'.pipe.toParent + Future(c, st')) || WillReturn(c, st'))
  {
    assert st.pipe.toParent + Future(c, st) == Future(c, st);
    ChildNotBlocked(c, st);
    if st.child.Running? {
      ChildRunsOn(c, st);
    } else {
      ChildSignals(c, st);
    }
  }

  /** Once the handler is over, destroy can come between the close and the free of the actor thread. */
  lemma {:induction false} LateDestroyLeavesShim<S(!new)>(c: Config<S>, st: State<S>)
    requires Lively(c.handler) && Lifecycle(st) && st.parent.Terminate? && HandlerOver(st) && !st.child.Ended?
    ensures !AllReleased(c, st)
    decreases ChildWork(c, st)
  {
    if st.child.Closed? {
      ClosingLeavesShim(c, ParentStep(c, st).value);
    } else {
      LifecycleChild(c, st);
      LateDestroyLeavesShim(c, ChildStep(c, st).value);
    }
  }

  lemma ReleasedInState<S(!new)>(c: Config<S>, st: State<S>)
    requires Lively(c.handler) && Lifecycle(st) && st.parent.Terminate?
    ensures AllReleased(c, st) <==>
      || st.child.Ended?
      || (&& st.child.Running? && Room(c.commandLimit, st.pipe.toChild)
          && !HasSignal(Unread(c, st)) && !WillReturn(c, Terminated(st)))
  {
    if st.child.Ended? {
      EndedIsReleased(c, st);
    } else if HandlerOver(st) {
      LateDestroyLeavesShim(c, st);
    } else if !Room(c.commandLimit, st.pipe.toChild) {
      ClosingLeavesShim(c, ParentStep(c, st).value);
    } else if HasSignal(Unread(c, st)) || WillReturn(c, Terminated(st)) {
      assert ParentStep(c, st).value == Terminated(st);
      WaitLeavesShim(c, Terminated(st));
    } else {
      SilentDestroyNeverReturns(c, st);
    }
  }

  /** "All resources are destroyed when the call completes": in every interleaving of a destroy, if and only
      if the actor thread had already ended when destroy was called, or destroy never returns, because the
      terminator goes into the pipe, the handler does not return on it, and the caller has received every
      signal the handler sends. */
  lemma AllReleasedIff<S(!new)>(c: Config<S>, st: State<S>)
    requires Lively(c.handler) && Reachable(c, st) && st.parent.Terminate?
    ensures
      var commands := st.log.commands + [st.terminator];
      AllReleased(c, st) <==>
        || st.child.Ended?
        || (&& st.child.Running?
            && Room(c.commandLimit, st.pipe.toChild)
            && CountSignals(st.log.received) == CountSignals(Emits(c.handler, c.handler.start, commands))
            && !Returns(c.handler, c.handler.start, commands))
  {
    InvReachable(c, st);
    ReleasedInState(c, st);
    if st.child.Running? {
      UnreadIsTheRest(c, st);
      CountSignalsAppend(st.log.received, Unread(c, st));
      CountSignalsZero(Unread(c, st));
    }
  }

  /** So the promise as it stands, a destroy that returns and leaves nothing, is kept in every interleaving
      if and only if the actor thread had ended before the call. */
  lemma ReturnsAndReleasesIff<S(!new)>(c: Config<S>, st: State<S>)
    requires Lively(c.handler) && Reachable(c, st) && st.parent.Terminate?
    ensures Completes(c, st, {Destroyed}) && AllReleased(c, st) <==> st.child.Ended?
  {
    InvReachable(c, st);
    ReleasedInState(c, st);
    DestroyCompletesIff(c, st);
  }
}
