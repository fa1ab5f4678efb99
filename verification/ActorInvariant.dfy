/** What every step of an actor's two threads keeps, over every interleaving. */
module ActorInvariant {
  import opened Messages
  import opened Actor
  import opened Wrappers

  // ----- Queues -----

  /** Nothing is lost, duplicated or reordered, and the exit signal is the last thing the child sends. */
  ghost predicate Fifo<S(!new)>(st: State<S>) {
    && st.log.commands == st.log.taken + st.pipe.toChild
    && st.log.received + st.pipe.toParent == st.log.emitted + ExitPart(st)
  }

  // ----- Program counters against resources -----

  predicate InNew(pc: ParentPc) {
    pc.MakeSelf? || pc.MakeShim? || pc.MakePipe? || pc.MakeThread?
  }

  ghost predicate Lifecycle<S(!new)>(st: State<S>) {
    && (st.child.NotStarted? <==> InNew(st.parent))
    && st.self == (if st.parent.MakeSelf? then Unborn else if st.parent.Destroyed? then Gone else Live)
    && st.shim ==
      (if st.parent.MakeSelf? || st.parent.MakeShim? then Unborn else if st.child.Ended? then Gone else Live)
    && st.pipe.front == (if InNew(st.parent) && !st.parent.MakeThread? then Unborn
                    else if st.parent.FreeSelf? || st.parent.Destroyed? then Gone else Live)
    && st.pipe.back == (if InNew(st.parent) && !st.parent.MakeThread? then Unborn
                   else if st.child.Closed? || st.child.Ended? then Gone else Live)
    && (st.log.exitSent ==> HandlerOver(st) && !st.child.Returned?)
    && (st.child.NotStarted? ==> st.log.commands == [] && st.log.emitted == [] && st.log.received == [])
    && st.terminator != []
  }

  // ----- What the handler does is a function of the commands alone -----

  /** Whatever commands are still to come, what the handler has sent and will send is what it would
      send if it were alone with the whole command sequence. */
  ghost predicate Determined<S(!new)>(c: Config<S>, st: State<S>)
    requires Lively(c.handler)
  {
    forall more: seq<Msg> ::
      match st.child
      case NotStarted => true
      case Running(s) =>
        && Emits(c.handler, c.handler.start, st.log.commands + more) ==
          st.log.emitted + Emits(c.handler, s, st.pipe.toChild + more)
        && Returns(c.handler, c.handler.start, st.log.commands + more) == Returns(c.handler, s, st.pipe.toChild + more)
      case _ =>
        && Emits(c.handler, c.handler.start, st.log.commands + more) == st.log.emitted
        && Returns(c.handler, c.handler.start, st.log.commands + more)
  }

  ghost predicate Inv<S(!new)>(c: Config<S>, st: State<S>)
    requires Lively(c.handler)
  {
    && Fifo(st)
    && Lifecycle(st)
    && Determined(c, st)
    && (!InNew(st.parent) && !st.parent.NewWait? ==> HasSignal(st.log.received))
  }

  /** Taking the head of a queue and appending it to the history leaves the whole unchanged. */
  lemma MoveHead(done: seq<Msg>, queue: seq<Msg>)
    requires queue != []
    ensures (done + [queue[0]]) + queue[1..] == done + queue
  {
  }

  lemma FifoWait<S(!new)>(st: State<S>, after: ParentPc)
    requires Fifo(st) && WaitStep(st, after).Some?
    ensures Fifo(WaitStep(st, after).value)
  {
    MoveHead(st.log.received, st.pipe.toParent);
  }

  lemma FifoChild<S(!new)>(c: Config<S>, st: State<S>)
    requires Fifo(st) && (st.log.exitSent ==> HandlerOver(st) && !st.child.Returned?)
    requires ChildStep(c, st).Some?
    ensures Fifo(ChildStep(c, st).value)
  {
    if st.child.Running? && c.handler.action(st.child.s).Await? {
      MoveHead(st.log.taken, st.pipe.toChild);
    } else if st.child.Running? || st.child.Returned? {
      var st' := ChildStep(c, st).value;
      if |st'.pipe.toParent| > |st.pipe.toParent| {
        assert st'.log.received + st'.pipe.toParent ==
          (st.log.received + st.pipe.toParent) + [st'.pipe.toParent[|st.pipe.toParent|]];
        assert ExitPart(st) == [];
      }
    }
  }

  lemma FifoStep<S(!new)>(c: Config<S>, st: State<S>, l: Label)
    requires Fifo(st) && (st.log.exitSent ==> HandlerOver(st) && !st.child.Returned?)
    requires Step(c, st, l).Some?
    ensures Fifo(Step(c, st, l).value)
  {
    if l.Child? {
      FifoChild(c, st);
    } else if l.Parent? && Waiting(st) {
      FifoWait(st, if st.parent.ExitWait? then ClosePipe else Ready);
    } else if l.Recv? {
      MoveHead(st.log.received, st.pipe.toParent);
    }
  }

  lemma LifecycleChild<S(!new)>(c: Config<S>, st: State<S>)
    requires Lifecycle(st) && ChildStep(c, st).Some?
    ensures Lifecycle(ChildStep(c, st).value)
  {
  }

  lemma LifecycleWait<S(!new)>(st: State<S>, after: ParentPc)
    requires Lifecycle(st) && Waiting(st) && WaitStep(st, after).Some?
    requires after == if st.parent.ExitWait? then ClosePipe else Ready
    ensures Lifecycle(WaitStep(st, after).value)
  {
  }

  lemma LifecycleParent<S(!new)>(c: Config<S>, st: State<S>)
    requires Lifecycle(st) && ParentStep(c, st).Some?
    ensures Lifecycle(ParentStep(c, st).value)
  {
    if Waiting(st) {
      LifecycleWait(st, if st.parent.ExitWait? then ClosePipe else Ready);
    }
  }

  lemma LifecycleStep<S(!new)>(c: Config<S>, st: State<S>, l: Label)
    requires Lifecycle(st) && Step(c, st, l).Some?
    ensures Lifecycle(Step(c, st, l).value)
  {
    if l.Child? {
      LifecycleChild(c, st);
    } else if l.Parent? {
      LifecycleParent(c, st);
    }
  }

  lemma DeterminedRunning<S(!new)>(c: Config<S>, st: State<S>, more: seq<Msg>)
    requires Lively(c.handler) && st.child.Running? && ChildStep(c, st).Some?
    ensures
      var st' := ChildStep(c, st).value;
      if st'.child.Running? then
        && st.log.emitted + Emits(c.handler, st.child.s, st.pipe.toChild + more) ==
          st'.log.emitted + Emits(c.handler, st'.child.s, st'.pipe.toChild + more)
        && Returns(c.handler, st.child.s, st.pipe.toChild + more) ==
          Returns(c.handler, st'.child.s, st'.pipe.toChild + more)
      else
        && Emits(c.handler, st.child.s, st.pipe.toChild + more) == []
        && Returns(c.handler, st.child.s, st.pipe.toChild + more)
        && st'.log.emitted == st.log.emitted
  {
    var st' := ChildStep(c, st).value;
    if c.handler.action(st.child.s).Await? {
      assert (st.pipe.toChild + more)[1..] == st'.pipe.toChild + more;
    }
  }

  lemma DeterminedChildStep<S(!new)>(c: Config<S>, st: State<S>)
    requires Lively(c.handler) && Determined(c, st) && ChildStep(c, st).Some?
    ensures Determined(c, ChildStep(c, st).value)
  {
    var st' := ChildStep(c, st).value;
    if st.child.Running? {
      forall more: seq<Msg> {
        DeterminedRunning(c, st, more);
      }
    } else {
      assert st'.log.commands == st.log.commands && st'.log.emitted == st.log.emitted && HandlerOver(st');
    }
  }

  lemma DeterminedCommand<S(!new)>(c: Config<S>, st: State<S>, st': State<S>, m: Msg)
    requires Lively(c.handler) && Determined(c, st)
    requires st'.child == st.child && st'.log.emitted == st.log.emitted
    requires st'.log.commands == st.log.commands + [m] && st'.pipe.toChild == st.pipe.toChild + [m]
    ensures Determined(c, st')
  {
    forall more: seq<Msg>
      ensures st'.log.commands + more == st.log.commands + ([m] + more)
        && st'.pipe.toChild + more == st.pipe.toChild + ([m] + more)
    {
    }
  }

  lemma InvInit<S(!new)>(c: Config<S>)
    requires Lively(c.handler)
    ensures Inv(c, Init())
  {
  }

  /** What a step of the calling thread can change about the child and the commands. */
  lemma ParentFrame<S(!new)>(c: Config<S>, st: State<S>, l: Label) returns (m: Msg)
    requires !l.Child? && Step(c, st, l).Some?
    ensures
      var st' := Step(c, st, l).value;
      && st'.log.emitted == st.log.emitted
      && (st'.child == st.child || (l.Parent? && st.parent.MakeThread? && st'.child == Running(c.handler.start)))
      && (|| (st'.log.commands == st.log.commands && st'.pipe.toChild == st.pipe.toChild)
          || (st'.child == st.child && st'.log.commands == st.log.commands + [m]
            && st'.pipe.toChild == st.pipe.toChild + [m]))
  {
    m := if l.Send? then l.m else st.terminator;
  }

  lemma DeterminedStep<S(!new)>(c: Config<S>, st: State<S>, l: Label)
    requires Lively(c.handler) && Determined(c, st) && Step(c, st, l).Some?
    requires st.child.NotStarted? ==> st.log.commands == st.pipe.toChild == [] && st.log.emitted == []
    requires st.parent.MakeThread? ==> st.child.NotStarted?
    ensures Determined(c, Step(c, st, l).value)
  {
    if l.Child? {
      DeterminedChildStep(c, st);
    } else {
      var st' := Step(c, st, l).value;
      var m := ParentFrame(c, st, l);
      if st'.log.commands != st.log.commands {
        DeterminedCommand(c, st, st', m);
      }
    }
  }

  lemma InvStep<S(!new)>(c: Config<S>, st: State<S>, l: Label)
    requires Lively(c.handler) && Inv(c, st) && Step(c, st, l).Some?
    ensures Inv(c, Step(c, st, l).value)
  {
    FifoStep(c, st, l);
    LifecycleStep(c, st, l);
    DeterminedStep(c, st, l);
    SignalsStayReceived(c, st, l);
  }

  lemma SignalsStayReceived<S(!new)>(c: Config<S>, st: State<S>, l: Label)
    requires Step(c, st, l).Some?
    requires !InNew(st.parent) && !st.parent.NewWait? ==> HasSignal(st.log.received)
    ensures
      var st' := Step(c, st, l).value;
      !InNew(st'.parent) && !st'.parent.NewWait? ==> HasSignal(st'.log.received)
  {
    var st' := Step(c, st, l).value;
    if HasSignal(st.log.received) {
      var i :| 0 <= i < |st.log.received| && IsSignal(st.log.received[i]);
      assert IsSignal(st'.log.received[i]);
    } else if !InNew(st'.parent) && !st'.parent.NewWait? {
      assert IsSignal(st'.log.received[|st.log.received|]);
    }
  }

  lemma {:induction false} InvRun<S(!new)>(c: Config<S>, ls: seq<Label>)
    requires Lively(c.handler) && Run(c, ls).Some?
    ensures Inv(c, Run(c, ls).value)
  {
    if ls == [] {
      InvInit(c);
    } else {
      InvRun(c, ls[..|ls| - 1]);
      InvStep(c, Run(c, ls[..|ls| - 1]).value, ls[|ls| - 1]);
    }
  }

  lemma InvReachable<S(!new)>(c: Config<S>, st: State<S>)
    requires Lively(c.handler) && Reachable(c, st)
    ensures Inv(c, st)
  {
    var ls :| Run(c, ls) == Some(st);
    InvRun(c, ls);
  }

  // ----- Main statements about every reachable state -----

  /** Signals are conserved, and the exit signal, if it was sent and not yet received, is the last
      message in the queue and preceded by everything the handler sent and the parent has not read. */
  lemma SignalConservation<S(!new)>(c: Config<S>, st: State<S>)
    requires Lively(c.handler) && Reachable(c, st)
    ensures CountSignals(st.log.received) + CountSignals(st.pipe.toParent) ==
      CountSignals(st.log.emitted) + (if st.log.exitSent then 1 else 0)
    ensures st.log.exitSent && |st.log.received| <= |st.log.emitted| ==>
      st.pipe.toParent == st.log.emitted[|st.log.received|..] + [EXIT]
  {
    InvReachable(c, st);
    CountSignalsAppend(st.log.received, st.pipe.toParent);
    CountSignalsAppend(st.log.emitted, ExitPart(st));
    SignalsAreExactlyTheSignalMessages(EXIT);
    assert CountSignals([EXIT]) == 1 + CountSignals([]);
    if st.log.exitSent && |st.log.received| <= |st.log.emitted| {
      assert st.pipe.toParent == (st.log.received + st.pipe.toParent)[|st.log.received|..];
    }
  }

  /** Scheduling cannot change what an actor does: in every interleaving what the handler has sent
      is a prefix of what it sends alone with the same commands, and once it is over they agree. */
  lemma HandlerIsDeterminate<S(!new)>(c: Config<S>, st: State<S>)
    requires Lively(c.handler) && Reachable(c, st) && !st.child.NotStarted?
    ensures st.log.emitted <= Emits(c.handler, c.handler.start, st.log.commands)
    ensures HandlerOver(st) ==>
      && st.log.emitted == Emits(c.handler, c.handler.start, st.log.commands)
      && Returns(c.handler, c.handler.start, st.log.commands)
  {
    InvReachable(c, st);
    assert st.log.commands + [] == st.log.commands;
  }

  /** A handler that does not return on the commands it was sent is still running. */
  lemma NotOverUnlessItReturns<S(!new)>(c: Config<S>, st: State<S>)
    requires Lively(c.handler) && Reachable(c, st) && !InNew(st.parent)
    requires !Returns(c.handler, c.handler.start, st.log.commands)
    ensures st.child.Running?
  {
    InvReachable(c, st);
    HandlerIsDeterminate(c, st);
  }

  /** Once zactor_new has returned, its handler has signalled or has already returned. */
  lemma ConstructorHandshake<S(!new)>(c: Config<S>, st: State<S>)
    requires Lively(c.handler) && Reachable(c, st) && !InNew(st.parent) && !st.parent.NewWait?
    ensures HasSignal(st.log.emitted) || HandlerOver(st)
  {
    InvReachable(c, st);
    var i :| 0 <= i < |st.log.received| && IsSignal(st.log.received[i]);
    assert (st.log.received + st.pipe.toParent)[i] == st.log.received[i];
    if i < |st.log.emitted| {
      assert IsSignal(st.log.emitted[i]);
    }
  }

  // ----- Ownership -----

  datatype Thread = ParentThread | ChildThread

  function LifeOf<S>(st: State<S>, r: Resource): Life {
    match r
    case Self => st.self
    case Shim => st.shim
    case Front => st.pipe.front
    case Back => st.pipe.back
  }

  /** The parent owns its actor and its pipe end throughout; the shim and the other pipe end are the
      parent's until the thread exists and the child's from then on. */
  function Owner<S>(st: State<S>, r: Resource): Thread {
    if (r.Shim? || r.Back?) && !st.child.NotStarted? then ChildThread else ParentThread
  }

  /** The blocks and sockets the next call under this label uses. */
  function Uses<S>(st: State<S>, l: Label): set<Resource> {
    match l
    case Child => if st.child.Closed? then {Shim} else {Shim, Back}
    case Parent =>
      if st.parent.MakeSelf? || st.parent.MakeShim? then {}
      else if st.parent.MakePipe? then {Self, Shim}
      else if st.parent.MakeThread? then {Shim, Back}
      else if st.parent.FreeSelf? then {Self}
      else {Self, Front}
    case Send(_) => {Self, Front}
    case Recv => {Self, Front}
    case Wait => {Self, Front}
    case SetDestructor(_) => {Self}
    case Destroy => if st.parent.Destroyed? then {} else {Self, Front}
  }

  /** The blocks and sockets the next call makes. */
  function Makes<S>(st: State<S>, l: Label): set<Resource> {
    if !l.Parent? then {}
    else
      match st.parent
      case MakeSelf => {Self}
      case MakeShim => {Shim}
      case MakePipe => {Front, Back}
      case _ => {}
  }

  function ActingThread(l: Label): Thread {
    if l.Child? then ChildThread else ParentThread
  }

  /** No interleaving uses a block or socket that is not live or belongs to the other thread. */
  lemma OnlyTheOwnerUses<S(!new)>(c: Config<S>, st: State<S>, l: Label, r: Resource)
    requires Lively(c.handler) && Reachable(c, st) && Step(c, st, l).Some? && r in Uses(st, l)
    ensures LifeOf(st, r) == Live && Owner(st, r) == ActingThread(l)
  {
    InvReachable(c, st);
  }

  function Count(rs: seq<Resource>, r: Resource): nat {
    multiset(rs)[r]
  }

  /** What the next call frees or closes. */
  function Frees<S>(st: State<S>, l: Label): seq<Resource> {
    if l.Child? && st.child.Signalled? then [Back]
    else if l.Child? && st.child.Closed? then [Shim]
    else if l.Parent? && st.parent.ClosePipe? then [Front]
    else if l.Parent? && st.parent.FreeSelf? then [Self]
    else []
  }

  lemma StepFrees<S>(c: Config<S>, st: State<S>, l: Label)
    requires Step(c, st, l).Some?
    ensures Step(c, st, l).value.log.released == st.log.released + Frees(st, l)
  {
  }

  /** What a block or a socket holds: its life, what was written to it, and what went through it. */
  datatype View = View(life: Life, terminator: Msg, read: seq<Msg>, written: seq<Msg>, signalled: bool)

  function ViewOf<S>(st: State<S>, r: Resource): View {
    match r
    case Self => View(st.self, st.terminator, [], [], false)
    case Shim => View(st.shim, [], [], [], false)
    case Front => View(st.pipe.front, [], st.log.received, st.log.commands, false)
    case Back => View(st.pipe.back, [], st.log.taken, st.log.emitted, st.log.exitSent)
  }

  lemma ChildChangesOnlyWhatItUses<S>(c: Config<S>, st: State<S>, r: Resource)
    requires ChildStep(c, st).Some? && r !in Uses(st, Child)
    ensures ViewOf(ChildStep(c, st).value, r) == ViewOf(st, r)
  {
  }

  lemma ParentChangesOnlyWhatItUses<S>(c: Config<S>, st: State<S>, r: Resource)
    requires ParentStep(c, st).Some? && r !in Uses(st, Parent) && r !in Makes(st, Parent)
    ensures ViewOf(ParentStep(c, st).value, r) == ViewOf(st, r)
  {
  }

  /** A step changes, releases, reads from or writes to nothing but what it uses or makes. */
  lemma StepChangesOnlyWhatItUses<S>(c: Config<S>, st: State<S>, l: Label, r: Resource)
    requires Step(c, st, l).Some? && r !in Uses(st, l) && r !in Makes(st, l)
    ensures ViewOf(Step(c, st, l).value, r) == ViewOf(st, r)
    ensures Count(Step(c, st, l).value.log.released, r) == Count(st.log.released, r)
  {
    StepFrees(c, st, l);
    if l.Child? {
      ChildChangesOnlyWhatItUses(c, st, r);
    } else if l.Parent? {
      ParentChangesOnlyWhatItUses(c, st, r);
    }
  }

  /** A resource was released as often as it is gone. */
  ghost predicate ReleasesOk<S(!new)>(st: State<S>) {
    forall r :: ReleaseOk(st, r)
  }

  predicate ReleaseOk<S>(st: State<S>, r: Resource) {
    Count(st.log.released, r) == if LifeOf(st, r) == Gone then 1 else 0
  }

  lemma FreesTheLive<S(!new)>(c: Config<S>, st: State<S>, l: Label, r: Resource)
    requires Lifecycle(st) && Step(c, st, l).Some? && Lifecycle(Step(c, st, l).value)
    ensures r in Frees(st, l) ==> LifeOf(st, r) == Live && LifeOf(Step(c, st, l).value, r) == Gone
    ensures r !in Frees(st, l) ==> (LifeOf(Step(c, st, l).value, r) == Gone <==> LifeOf(st, r) == Gone)
  {
  }

  lemma ReleasesOkStep<S(!new)>(c: Config<S>, st: State<S>, l: Label)
    requires Lifecycle(st) && ReleasesOk(st) && Step(c, st, l).Some? && Lifecycle(Step(c, st, l).value)
    ensures ReleasesOk(Step(c, st, l).value)
  {
    var st' := Step(c, st, l).value;
    StepFrees(c, st, l);
    forall r
      ensures ReleaseOk(st', r)
    {
      assert ReleaseOk(st, r);
      FreesTheLive(c, st, l, r);
    }
  }

  lemma {:induction false} ReleasesOkRun<S(!new)>(c: Config<S>, ls: seq<Label>)
    requires Lively(c.handler) && Run(c, ls).Some?
    ensures ReleasesOk(Run(c, ls).value)
  {
    if ls != [] {
      ReleasesOkRun(c, ls[..|ls| - 1]);
      InvRun(c, ls[..|ls| - 1]);
      InvRun(c, ls);
      ReleasesOkStep(c, Run(c, ls[..|ls| - 1]).value, ls[|ls| - 1]);
    }
  }

  /** Over every run no block is freed and no socket closed twice; each is when its thread is through
      with it, so when both threads are done all four are released, once each. */
  lemma ReleasedExactlyOnce<S(!new)>(c: Config<S>, ls: seq<Label>, r: Resource)
    requires Lively(c.handler) && Run(c, ls).Some?
    ensures
      var st := Run(c, ls).value;
      && Count(st.log.released, r) <= 1
      && (st.parent.Destroyed? && st.child.Ended? ==> Count(st.log.released, r) == 1)
  {
    ReleasesOkRun(c, ls);
    InvRun(c, ls);
    assert ReleaseOk(Run(c, ls).value, r);
  }

  /** Nothing that was released is used again. */
  lemma NoUseAfterRelease<S(!new)>(c: Config<S>, ls: seq<Label>, l: Label, r: Resource)
    requires Lively(c.handler) && Run(c, ls + [l]).Some? && Run(c, ls).Some?
    requires r in Run(c, ls).value.log.released
    ensures r !in Uses(Run(c, ls).value, l)
  {
    var st := Run(c, ls).value;
    ReleasesOkRun(c, ls);
    assert ReleaseOk(st, r) && Count(st.log.released, r) > 0;
    assert (ls + [l])[..|ls|] == ls;
    if r in Uses(st, l) {
      OnlyTheOwnerUses(c, st, l, r);
      assert false;
    }
  }

  // ----- After destroy -----

  lemma StepAfterDestroy<S>(c: Config<S>, st: State<S>, l: Label)
    requires st.parent.Destroyed? && Step(c, st, l).Some?
    ensures Step(c, st, l).value.parent.Destroyed? && (l.Child? || l.Destroy?)
  {
  }

  /** Where destroying is over, nothing but the actor thread's own steps and further destroys follows. */
  lemma {:induction false} AfterDestroy<S>(c: Config<S>, a: seq<Label>, b: seq<Label>)
    requires Run(c, a + b).Some? && Run(c, a).Some? && Run(c, a).value.parent.Destroyed?
    ensures Run(c, a + b).value.parent.Destroyed?
    ensures forall i :: 0 <= i < |b| ==> b[i].Child? || b[i].Destroy?
    decreases |b|
  {
    if b == [] {
      assert a + b == a;
    } else {
      var most, l := b[..|b| - 1], b[|b| - 1];
      assert b == most + [l] && a + b == a + most + [l];
      RunSnoc(c, a + most, l);
      AfterDestroy(c, a, most);
      StepAfterDestroy(c, Run(c, a + most).value, l);
    }
  }

  lemma RunSnoc<S>(c: Config<S>, ls: seq<Label>, l: Label)
    ensures Run(c, ls + [l]) == if Run(c, ls).Some? then Step(c, Run(c, ls).value, l) else None
  {
    assert (ls + [l])[..|ls|] == ls;
  }

  /** A second destroy, wherever it comes after the first, makes no difference to the run. */
  lemma {:induction false} SecondDestroyIsNoOp<S>(c: Config<S>, a: seq<Label>, b: seq<Label>)
    requires Run(c, a).Some? && Run(c, a).value.parent.Destroyed?
    ensures Run(c, a + [Destroy] + b) == Run(c, a + b)
    decreases |b|
  {
    if b == [] {
      RunSnoc(c, a, Destroy);
      assert a + [Destroy] + b == a + [Destroy] && a + b == a;
    } else {
      var most, l := b[..|b| - 1], b[|b| - 1];
      SecondDestroyIsNoOp(c, a, most);
      RunSnoc(c, a + [Destroy] + most, l);
      RunSnoc(c, a + most, l);
      assert a + [Destroy] + b == a + [Destroy] + most + [l] && a + b == a + most + [l];
    }
  }

  /** When destroy has returned, the actor and its pipe end are released; the shim and the child's pipe
      end are if and only if the child thread has come that far.  Once the handler is over nothing can
      keep it from going on. */
  lemma ReleasedWhenDestroyed<S(!new)>(c: Config<S>, st: State<S>)
    requires Lively(c.handler) && Reachable(c, st) && st.parent.Destroyed?
    ensures Self in st.log.released && Front in st.log.released
    ensures Back in st.log.released <==> st.child.Closed? || st.child.Ended?
    ensures Shim in st.log.released <==> st.child.Ended?
    ensures HandlerOver(st) && !st.child.Ended? ==> ChildStep(c, st).Some?
  {
    InvReachable(c, st);
    var ls :| Run(c, ls) == Some(st);
    ReleasesOkRun(c, ls);
    forall r: Resource
      ensures r in st.log.released <==> LifeOf(st, r) == Gone
    {
      assert ReleaseOk(st, r);
    }
  }
}
