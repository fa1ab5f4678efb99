/** Runs that show where the promises of zactor fail (src/zactor.c): the conditions of ActorDestroy are
    not idle. */
module ActorWitness {
  import opened Messages
  import opened Actor
  import opened ActorWait
  import opened ActorDestroy
  import opened Listeners
  import opened Actors
  import opened Wrappers

  lemma Then<S>(c: Config<S>, ls: seq<Label>, st: State<S>, l: Label)
    requires Run(c, ls) == Some(st)
    ensures Run(c, ls + [l]) == Step(c, st, l)
  {
    assert (ls + [l])[..|ls|] == ls;
  }

  /** The thread is started and zactor_new waits. */
  lemma Started<S>(c: Config<S>) returns (ls: seq<Label>, st: State<S>)
    ensures Run(c, ls) == Some(st) && Recv !in ls
    ensures st == State(NewWait, Running(c.handler.start), Pipe([], [], Live, Live), Live, Live, TERM,
      History([], [], [], false, [], []))
  {
    ls, st := [], Init();
    for k := 0 to 4
      invariant Run(c, ls) == Some(st) && Recv !in ls
      invariant st == State(
        (match k case 0 => MakeSelf case 1 => MakeShim case 2 => MakePipe case 3 => MakeThread case _ => NewWait),
        if k == 4 then Running(c.handler.start) else NotStarted,
        if k <= 2 then Pipe([], [], Unborn, Unborn) else Pipe([], [], Live, Live),
        if k == 0 then Unborn else Live, if k <= 1 then Unborn else Live, TERM, History([], [], [], false, [], []))
    {
      Then(c, ls, st, Parent);
      ls, st := ls + [Parent], ParentStep(c, st).value;
    }
  }

  /** zactor_new has returned on the signal of a listener. */
  lemma Created(c: Config<Mode>, react: Msg -> Reaction) returns (ls: seq<Label>, st: State<Mode>)
    requires c.handler == Listener(react)
    ensures Run(c, ls) == Some(st) && Recv !in ls
    ensures st == State(Ready, Running(Listening), Pipe([], [], Live, Live), Live, Live, TERM,
      History([], [], [NewSignal(0)], false, [NewSignal(0)], []))
  {
    ls, st := Started(c);
    SignalsAreExactlyTheSignalMessages(NewSignal(0));
    Then(c, ls, st, Child);
    ls, st := ls + [Child], ChildStep(c, st).value;
    Then(c, ls, st, Parent);
    ls, st := ls + [Parent], ParentStep(c, st).value;
  }

  lemma Sent(c: Config<Mode>, react: Msg -> Reaction, m: Msg) returns (ls: seq<Label>, st: State<Mode>)
    requires c.handler == Listener(react) && m != []
    ensures Run(c, ls) == Some(st) && Recv !in ls
    ensures st == State(Ready, Running(Listening), Pipe([m], [], Live, Live), Live, Live, TERM,
      History([m], [], [NewSignal(0)], false, [NewSignal(0)], []))
  {
    ls, st := Created(c, react);
    Then(c, ls, st, Send(m));
    ls, st := ls + [Send(m)], Step(c, st, Send(m)).value;
  }

  /** A listener is sent one command, and then destroyed before it takes it. */
  lemma SentAndDestroyed(c: Config<Mode>, react: Msg -> Reaction, m: Msg) returns (st: State<Mode>)
    requires c.handler == Listener(react) && m != []
    ensures Reachable(c, st)
    ensures st == State(Terminate, Running(Listening), Pipe([m], [], Live, Live), Live, Live, TERM,
      History([m], [], [NewSignal(0)], false, [NewSignal(0)], []))
  {
    var ls;
    ls, st := Sent(c, react, m);
    Then(c, ls, st, Destroy);
    ls, st := ls + [Destroy], Step(c, st, Destroy).value;
  }

  /** The template actor is sent one WAIT that nobody waits for: destroy can return before it does. */
  lemma ForgottenWait() returns (c: Config<Mode>, st: State<Mode>)
    ensures Lively(c.handler) && Reachable(c, st) && st.parent.Terminate? && st.log.commands == [[Text("WAIT")]]
    ensures c == Config(Listener(Template), 0, 0) && !Synchronized(c, st, {Destroyed})
  {
    c := Config(Listener(Template), 0, 0);
    var m := [Text("WAIT")];
    OneWait(m);
    st := SentAndDestroyed(c, Template, m);
    TemplateDestroy(c, st);
  }

  lemma OneWait(m: Msg)
    requires m == [Text("WAIT")]
    ensures IsWait(m) && Template(m) == Reply(NewSignal(0)) && Waits([m]) == 1
    ensures CountSignals([NewSignal(0)]) == 1 && CountSignals([NewSignal(0), NewSignal(0)]) == 2
  {
    TemplateWords();
    CStringOfClean(Text("WAIT"));
    assert Says(m[0], "WAIT");
    assert Waits([m]) == 1 + Waits([]);
    ListenerSignals([]);
    ListenerSignals([NewSignal(0)]);
    assert [NewSignal(0)] + [] == [NewSignal(0)] && [NewSignal(0)] + [NewSignal(0)] == [NewSignal(0), NewSignal(0)];
  }

  /** The pipe is full of commands: the terminator is dropped, and destroy does not wait. */
  lemma FullCommandPipe(react: Msg -> Reaction, m: Msg) returns (c: Config<Mode>, st: State<Mode>)
    requires m != []
    ensures c.handler == Listener(react) && Lively(c.handler) && Reachable(c, st) && st.parent.Terminate?
      && st.log.commands == [m]
    ensures !Synchronized(c, st, {Destroyed})
  {
    c := Config(Listener(react), 1, 0);
    st := SentAndDestroyed(c, react, m);
    ListenerIsLively(react);
    DestroySynchronizedIff(c, st);
  }

  lemma EchoOfEmptyFrame(m: Msg)
    requires m == [Text("ECHO"), []]
    ensures Replies(Echo, [m, TERM]) == [[[]]] && !IsSignal([[]])
  {
    EchoIsNotTerm();
    CStringOfClean(Text("ECHO"));
    assert Says(m[0], "ECHO") && m[1..] == [[]];
    TermSaysTerm();
    assert [m, TERM][1..] == [TERM];
    assert Replies(Echo, [TERM]) == [];
    assert ContentSize([[]]) == 0;
  }

  /** The pipe is full of replies when the echo actor returns: its exit signal is dropped, and destroy
      waits for ever. */
  lemma FullReplyPipe() returns (c: Config<Mode>, st: State<Mode>)
    ensures c == Config(Listener(Echo), 0, 1) && Lively(c.handler) && Reachable(c, st) && st.parent.Terminate?
    ensures !Completes(c, st, {Destroyed})
  {
    c := Config(Listener(Echo), 0, 1);
    var m: Msg := [Text("ECHO"), []];
    st := SentAndDestroyed(c, Echo, m);
    ListenerIsLively(Echo);
    EchoOfEmptyFrame(m);
    ListeningEmits(Echo, [m, TERM]);
    assert ActorDestroy.Terminated(st).pipe.toChild == [m, TERM];
    assert [] + Replies(Echo, [m, TERM]) == [[[]]];
    DestroyCompletesIff(c, st);
  }

  /** An actor function that returns at once, without a signal of its own. */
  function Hasty(): Handler<()> {
    Handler((), (s: ()) => Return, (s: ()) => 0)
  }

  lemma HastyIsOver() returns (c: Config<()>, ls: seq<Label>, st: State<()>)
    ensures c == Config(Hasty(), 0, 0) && Run(c, ls) == Some(st)
    ensures st.parent.NewWait? && st.child == Signalled && st.pipe == Pipe([], [EXIT], Live, Live)
  {
    c := Config(Hasty(), 0, 0);
    ls, st := Started(c);
    Then(c, ls, st, Child);
    ls, st := ls + [Child], ChildStep(c, st).value;
    Then(c, ls, st, Child);
    ls, st := ls + [Child], ChildStep(c, st).value;
  }

  lemma HastyTerminates() returns (c: Config<()>, st: State<()>)
    ensures c == Config(Hasty(), 0, 0) && Lively(c.handler) && Reachable(c, st) && st.parent.Terminate?
    ensures st.child == Signalled && st.pipe == Pipe([], [], Live, Live)
  {
    var ls;
    c, ls, st := HastyIsOver();
    SignalsAreExactlyTheSignalMessages(EXIT);
    Then(c, ls, st, Parent);
    ls, st := ls + [Parent], ParentStep(c, st).value;
    Then(c, ls, st, Destroy);
    ls, st := ls + [Destroy], Step(c, st, Destroy).value;
  }

  /** zactor_new takes its exit signal for the init signal; a destroy that comes before the pipe is
      closed then waits for ever. */
  lemma HastyNeverDestroyed() returns (c: Config<()>, st: State<()>)
    ensures c == Config(Hasty(), 0, 0) && Lively(c.handler) && Reachable(c, st) && st.parent.Terminate?
    ensures !Completes(c, st, {Destroyed})
  {
    c, st := HastyTerminates();
    assert Future(c, ActorDestroy.Terminated(st)) == [] && !HasSignal([] + []);
    DestroyCompletesIff(c, st);
  }

  /** Destroy can return while the child's pipe end is still open and the shim not freed, even if the caller
      has kept to its side of the contract. */
  lemma StillThereAfterDestroy() returns (c: Config<Mode>, before: State<Mode>, after: State<Mode>)
    ensures c == Config(Listener(Echo), 0, 0) && Lively(c.handler)
    ensures Reachable(c, before) && before.parent.Terminate? && Balanced(c, before)
    ensures Reachable(c, after) && after.parent.Destroyed? && after.pipe.back.Live? && after.shim.Live?
  {
    c := Config(Listener(Echo), 0, 0);
    var ls;
    ls, before := Created(c, Echo);
    Then(c, ls, before, Destroy);
    ls, before := ls + [Destroy], Step(c, before, Destroy).value;
    EmptyIsBalanced(c, before);
    after := DestroyedEarly(c, ls, before);
  }

  lemma EmptyIsBalanced(c: Config<Mode>, st: State<Mode>)
    requires c == Config(Listener(Echo), 0, 0)
    requires st.log.commands == [] && st.terminator == TERM && st.log.received == [NewSignal(0)]
    ensures Lively(c.handler) && Balanced(c, st)
  {
    TermSaysTerm();
    ListenerEmits(Echo, [TERM]);
    assert [] + [TERM] == [TERM] && Replies(Echo, [TERM]) == [];
  }

  /** The terminator is sent and taken, the exit signal sent and received, and destroy goes through. */
  lemma DestroyedEarly(c: Config<Mode>, ls: seq<Label>, st: State<Mode>) returns (end: State<Mode>)
    requires c == Config(Listener(Echo), 0, 0) && Run(c, ls) == Some(st)
    requires st.parent.Terminate? && st.child == Running(Listening) && st.terminator == TERM
    requires st.pipe == Pipe([], [], Live, Live) && st.shim.Live?
    ensures Reachable(c, end) && end.parent.Destroyed? && end.pipe.back.Live? && end.shim.Live?
  {
    Then(c, ls, st, Parent);
    var ls1, st1 := ls + [Parent], ParentStep(c, st).value;
    TermSaysTerm();
    var ls2, st2 := ChildTakes(c, Echo, ls1, st1, st.terminator);
    var ls3, st3 := ChildExits(c, ls2, st2);
    var ls4;
    ls4, end := ParentCloses(c, ls3, st3);
  }

  lemma ChildTakes(c: Config<Mode>, react: Msg -> Reaction, ls: seq<Label>, st: State<Mode>, m: Msg)
    returns (ls': seq<Label>, st': State<Mode>)
    requires c.handler == Listener(react) && Run(c, ls) == Some(st) && st.parent.ExitWait?
    requires st.child == Running(Listening) && st.pipe == Pipe([m], [], Live, Live) && react(m).Stop?
    ensures Run(c, ls') == Some(st') && st'.parent.ExitWait? && st'.shim == st.shim
    ensures st'.child == Running(Stopping) && st'.pipe == Pipe([], [], Live, Live)
  {
    Then(c, ls, st, Child);
    ls', st' := ls + [Child], ChildStep(c, st).value;
    assert [m][1..] == [];
  }

  lemma ChildExits(c: Config<Mode>, ls: seq<Label>, st: State<Mode>) returns (ls': seq<Label>, st': State<Mode>)
    requires c == Config(Listener(Echo), 0, 0) && Run(c, ls) == Some(st) && st.parent.ExitWait?
    requires st.child == Running(Stopping) && st.pipe == Pipe([], [], Live, Live)
    ensures Run(c, ls') == Some(st') && st'.parent.ExitWait? && st'.shim == st.shim
    ensures st'.child == Signalled && st'.pipe == Pipe([], [EXIT], Live, Live)
  {
    Then(c, ls, st, Child);
    var mid := ChildStep(c, st).value;
    Then(c, ls + [Child], mid, Child);
    ls', st' := ls + [Child] + [Child], ChildStep(c, mid).value;
  }

  lemma ParentCloses<S>(c: Config<S>, ls: seq<Label>, st: State<S>) returns (ls': seq<Label>, st': State<S>)
    requires Run(c, ls) == Some(st) && st.parent.ExitWait? && st.pipe == Pipe([], [EXIT], Live, Live)
    ensures Run(c, ls') == Some(st') && st'.parent.Destroyed? && st'.shim == st.shim && st'.pipe.back.Live?
  {
    SignalsAreExactlyTheSignalMessages(EXIT);
    Then(c, ls, st, Parent);
    ls', st' := ClosesAndFrees(c, ls + [Parent], ParentStep(c, st).value);
  }

  lemma ClosesAndFrees<S>(c: Config<S>, ls: seq<Label>, st: State<S>) returns (ls': seq<Label>, st': State<S>)
    requires Run(c, ls) == Some(st) && st.parent.ClosePipe?
    ensures Run(c, ls') == Some(st') && st'.parent.Destroyed? && st'.shim == st.shim && st'.pipe.back == st.pipe.back
  {
    Then(c, ls, st, Parent);
    var mid := ParentStep(c, st).value;
    Then(c, ls + [Parent], mid, Parent);
    ls', st' := ls + [Parent] + [Parent], ParentStep(c, mid).value;
  }

  // ----- Where the promise is kept -----

  /** A template actor is sent one WAIT, and the caller waits for it: the reply is received by that wait, and a
      destroy that follows is synchronized. */
  lemma WaitedFor() returns (c: Config<Mode>, ls: seq<Label>, st: State<Mode>)
    ensures c == Config(Listener(Template), 0, 0) && Lively(c.handler)
    ensures Run(c, ls) == Some(st) && Wait in ls && Recv !in ls
    ensures st.parent.Terminate? && st.log.commands == [[Text("WAIT")]]
    ensures CountSignals(st.log.received) == 1 + Waits(st.log.commands) && Synchronized(c, st, {Destroyed})
  {
    c := Config(Listener(Template), 0, 0);
    var m: Msg := [Text("WAIT")];
    OneWait(m);
    ls, st := Sent(c, Template, m);
    ls, st := AnsweredWait(c, ls, st, m);
    Then(c, ls, st, Destroy);
    ls, st := ls + [Destroy], Step(c, st, Destroy).value;
    TemplateDestroy(c, st);
  }

  lemma ListenerTakes(c: Config<Mode>, react: Msg -> Reaction, st: State<Mode>, m: Msg)
    requires c.handler == Listener(react) && st.child == Running(Listening) && st.pipe.toChild == [m]
    ensures ChildStep(c, st) == Some(st.(child := Running(AfterCommand(react(m))),
      pipe := st.pipe.(toChild := []), log := st.log.(taken := st.log.taken + [m])))
  {
    assert [m][1..] == [];
  }

  lemma ListenerReplies(c: Config<Mode>, react: Msg -> Reaction, st: State<Mode>, m: Msg)
    requires c.handler == Listener(react) && st.child == Running(Replying(m)) && m != [] && CanReply(c, st.pipe)
    ensures ChildStep(c, st) == Some(st.(child := Running(Listening),
      pipe := st.pipe.(toParent := st.pipe.toParent + [m]), log := st.log.(emitted := st.log.emitted + [m])))
  {
  }

  lemma SignalReceived<S>(c: Config<S>, st: State<S>, m: Msg)
    requires st.parent.AppWait? && st.pipe.toParent == [m] && IsSignal(m)
    ensures ParentStep(c, st) == Some(st.(parent := Ready,
      pipe := st.pipe.(toParent := []), log := st.log.(received := st.log.received + [m])))
  {
    assert [m][1..] == [];
  }

  /** The caller waits, the actor takes the command and replies, and the wait receives the reply. */
  lemma AnsweredWait(c: Config<Mode>, ls0: seq<Label>, st0: State<Mode>, m: Msg)
    returns (ls: seq<Label>, st: State<Mode>)
    requires c == Config(Listener(Template), 0, 0) && Template(m) == Reply(NewSignal(0))
    requires Run(c, ls0) == Some(st0) && Recv !in ls0
    requires st0 == State(Ready, Running(Listening), Pipe([m], [], Live, Live), Live, Live, TERM,
      History([m], [], [NewSignal(0)], false, [NewSignal(0)], []))
    ensures Run(c, ls) == Some(st) && Wait in ls && Recv !in ls
    ensures st.parent.Ready? && st.log.commands == [m] && st.log.received == [NewSignal(0), NewSignal(0)]
    ensures st.pipe == Pipe([], [], Live, Live) && st.terminator == TERM
  {
    Then(c, ls0, st0, Wait);
    var ls1, st1 := ls0 + [Wait], Step(c, st0, Wait).value;
    Then(c, ls1, st1, Child);
    ListenerTakes(c, Template, st1, m);
    var ls2, st2 := ls1 + [Child], ChildStep(c, st1).value;
    ls, st := ReplyReceived(c, ls2, st2);
  }

  lemma ReplyReceived(c: Config<Mode>, ls0: seq<Label>, st0: State<Mode>) returns (ls: seq<Label>, st: State<Mode>)
    requires c == Config(Listener(Template), 0, 0) && Run(c, ls0) == Some(st0) && Wait in ls0 && Recv !in ls0
    requires st0.parent.AppWait? && st0.child == Running(Replying(NewSignal(0)))
    requires st0.pipe == Pipe([], [], Live, Live) && st0.log.received == [NewSignal(0)]
    ensures Run(c, ls) == Some(st) && Wait in ls && Recv !in ls
    ensures st.parent.Ready? && st.log.commands == st0.log.commands && st.terminator == st0.terminator
    ensures st.log.received == [NewSignal(0), NewSignal(0)] && st.pipe == Pipe([], [], Live, Live)
  {
    Then(c, ls0, st0, Child);
    ListenerReplies(c, Template, st0, NewSignal(0));
    var ls1, st1 := ls0 + [Child], ChildStep(c, st0).value;
    assert [] + [NewSignal(0)] == [NewSignal(0)];
    ls, st := SignalEndsWait(c, ls1, st1, NewSignal(0));
    assert [NewSignal(0)] + [NewSignal(0)] == [NewSignal(0), NewSignal(0)];
  }

  lemma SignalEndsWait<S>(c: Config<S>, ls0: seq<Label>, st0: State<S>, m: Msg) returns (ls: seq<Label>, st: State<S>)
    requires Run(c, ls0) == Some(st0) && Wait in ls0 && Recv !in ls0 && st0.parent.AppWait?
    requires st0.pipe == Pipe([], [m], Live, Live) && m == NewSignal(0)
    ensures Run(c, ls) == Some(st) && Wait in ls && Recv !in ls
    ensures st.parent.Ready? && st.log.commands == st0.log.commands && st.terminator == st0.terminator
    ensures st.log.received == st0.log.received + [m] && st.pipe == Pipe([], [], Live, Live)
  {
    SignalsAreExactlyTheSignalMessages(m);
    Then(c, ls0, st0, Parent);
    SignalReceived(c, st0, m);
    ls, st := ls0 + [Parent], ParentStep(c, st0).value;
  }
}
