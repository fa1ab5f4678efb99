/** Actor functions of the one shape CZMQ uses: signal, then receive commands until one says stop.
    The four actors printed in src/zactor.c and README.md are instances. */
module Listeners {
  import opened Messages
  import opened Actor
  import opened ActorInvariant
  import opened ActorWait
  import opened ActorDestroy

  /** What a listener does about a command.  Crash is a failed assertion. */
  datatype Reaction = Ignore | Reply(m: Msg) | Stop | Crash

  datatype Mode = Starting | Listening | Replying(m: Msg) | Stopping | Crashing

  function AfterCommand(r: Reaction): Mode {
    match r
    case Ignore => Listening
    case Reply(m) => Replying(m)
    case Stop => Stopping
    case Crash => Crashing
  }

  function Listener(react: Msg -> Reaction): Handler<Mode> {
    Handler(
      Starting,
      (s: Mode) =>
        match s
        case Starting => Emit(NewSignal(0), Listening)
        case Listening => Await(m => AfterCommand(react(m)))
        case Replying(m) => Emit(m, Listening)
        case Stopping => Return
        case Crashing => Abort,
      (s: Mode) => if s.Starting? || s.Replying? then 1 else 0)
  }

  lemma ListenerIsLively(react: Msg -> Reaction)
    ensures Lively(Listener(react))
  {
  }

  // ----- The reference: replies up to the first stop -----

  function Replies(react: Msg -> Reaction, cmds: seq<Msg>): seq<Msg> {
    if cmds == [] then []
    else
      match react(cmds[0])
      case Ignore => Replies(react, cmds[1..])
      case Reply(m) => (if m == [] then [] else [m]) + Replies(react, cmds[1..])
      case Stop => []
      case Crash => []
  }

  predicate Stops(react: Msg -> Reaction, cmds: seq<Msg>) {
    cmds != [] && (react(cmds[0]).Stop? || (!react(cmds[0]).Crash? && Stops(react, cmds[1..])))
  }

  lemma {:induction false} ListeningEmits(react: Msg -> Reaction, cmds: seq<Msg>)
    requires Lively(Listener(react))
    ensures Emits(Listener(react), Listening, cmds) == Replies(react, cmds)
    ensures Returns(Listener(react), Listening, cmds) <==> Stops(react, cmds)
  {
    if cmds != [] {
      ListeningEmits(react, cmds[1..]);
    }
  }

  /** A listener sends its init signal and then its replies, and returns on the first stop command. */
  lemma ListenerEmits(react: Msg -> Reaction, cmds: seq<Msg>)
    ensures Lively(Listener(react))
    ensures Emits(Listener(react), Starting, cmds) == [NewSignal(0)] + Replies(react, cmds)
    ensures Returns(Listener(react), Starting, cmds) <==> Stops(react, cmds)
  {
    ListenerIsLively(react);
    ListeningEmits(react, cmds);
    SignalsAreExactlyTheSignalMessages(NewSignal(0));
  }

  /** A listener that has sent `sent` and not yet received `rest` is on its way through `inbox`. */
  predicate OnTheWay(react: Msg -> Reaction, inbox: seq<Msg>, sent: seq<Msg>, rest: seq<Msg>) {
    && sent + Replies(react, rest) == [NewSignal(0)] + Replies(react, inbox)
    && (Stops(react, rest) <==> Stops(react, inbox))
  }

  /** It has sent all it will, and whether it was told to stop. */
  predicate Through(react: Msg -> Reaction, inbox: seq<Msg>, sent: seq<Msg>, stopped: bool) {
    sent == [NewSignal(0)] + Replies(react, inbox) && (Stops(react, inbox) <==> stopped)
  }

  lemma NothingLeft(react: Msg -> Reaction, inbox: seq<Msg>, sent: seq<Msg>)
    requires OnTheWay(react, inbox, sent, [])
    ensures Through(react, inbox, sent, false)
  {
    assert sent + [] == sent;
  }

  lemma OneTurn(react: Msg -> Reaction, inbox: seq<Msg>, sent: seq<Msg>, rest: seq<Msg>)
    requires OnTheWay(react, inbox, sent, rest) && rest != []
    ensures
      match react(rest[0])
      case Ignore => OnTheWay(react, inbox, sent, rest[1..])
      case Reply(m) => OnTheWay(react, inbox, sent + (if m == [] then [] else [m]), rest[1..])
      case Stop => Through(react, inbox, sent, true)
      case Crash => Through(react, inbox, sent, false)
  {
    match react(rest[0])
    case Ignore =>
    case Reply(m) =>
      var out := if m == [] then [] else [m];
      assert sent + (out + Replies(react, rest[1..])) == (sent + out) + Replies(react, rest[1..]);
    case Stop => assert sent + [] == sent;
    case Crash => assert sent + [] == sent;
  }

  /** Commands a listener survives, followed by one it stops on. */
  lemma {:induction false} RepliesAppend(react: Msg -> Reaction, cmds: seq<Msg>, t: Msg)
    requires forall i :: 0 <= i < |cmds| ==> !react(cmds[i]).Stop? && !react(cmds[i]).Crash?
    requires react(t).Stop?
    ensures Replies(react, cmds + [t]) == Replies(react, cmds)
    ensures Stops(react, cmds + [t])
  {
    if cmds != [] {
      RepliesAppend(react, cmds[1..], t);
      assert (cmds + [t])[1..] == cmds[1..] + [t];
    } else {
      assert cmds + [t] == [t];
    }
  }

  /** Commands after which a listener is still listening. */
  ghost predicate Survives(react: Msg -> Reaction, cmds: seq<Msg>) {
    forall i :: 0 <= i < |cmds| ==> !react(cmds[i]).Stop? && !react(cmds[i]).Crash?
  }

  /** What the caller has received and has not, of what a listener sends in all. */
  lemma ListenerUnread(react: Msg -> Reaction, c: Config<Mode>, st: State<Mode>)
    requires c.handler == Listener(react) && Reachable(c, st) && st.parent.Terminate?
    requires react(st.terminator).Stop? && Survives(react, st.log.commands)
    ensures Lively(c.handler) && st.child.Running? && st.pipe.back.Live? && st.log.received != []
    ensures st.log.received + Unread(c, st) == [NewSignal(0)] + Replies(react, st.log.commands)
    ensures WillReturn(c, ActorDestroy.Terminated(st))
  {
    var cmds := st.log.commands;
    ListenerEmits(react, cmds + [st.terminator]);
    RepliesAppend(react, cmds, st.terminator);
    NotOverBeforeStop(react, c, st);
    InvReachable(c, st);
    UnreadIsTheRest(c, st);
  }

  /** The generic destructor theorem: for every listener, every terminator it stops on, every sequence
      of other commands and any limits of the pipe.  Destroy is synchronized in every interleaving if
      and only if the pipe has room for the terminator and the caller has received one signal, for the
      initialization, plus one for each signal replied.  It returns in every interleaving if and only if
      a signal is unread, or the unread replies leave room for the exit signal, or the terminator cannot
      be sent. */
  lemma ListenerDestroy(react: Msg -> Reaction, c: Config<Mode>, st: State<Mode>)
    requires c.handler == Listener(react) && Reachable(c, st) && st.parent.Terminate?
    requires react(st.terminator).Stop? && Survives(react, st.log.commands)
    ensures Lively(c.handler)
    ensures
      var replies := Replies(react, st.log.commands);
      && (Synchronized(c, st, {Destroyed}) <==>
            && Room(c.commandLimit, st.pipe.toChild)
            && CountSignals(st.log.received) == 1 + CountSignals(replies))
      && (Completes(c, st, {Destroyed}) <==>
            || CountSignals(st.log.received) < 1 + CountSignals(replies)
            || c.replyLimit == 0
            || 1 + |replies| - |st.log.received| < c.replyLimit
            || !(Room(c.commandLimit, st.pipe.toChild) || WillTake(c, st)))
  {
    var cmds := st.log.commands;
    ListenerUnread(react, c, st);
    ListenerEmits(react, cmds + [st.terminator]);
    RepliesAppend(react, cmds, st.terminator);
    ListenerSignals(Replies(react, cmds));
    CountSignalsAppend(st.log.received, Unread(c, st));
    CountSignalsZero(Unread(c, st));
    assert |st.pipe.toParent| + |Future(c, ActorDestroy.Terminated(st))| == |Unread(c, st)|;
    DestroySynchronizedIff(c, st);
    DestroyCompletesIff(c, st);
  }

  lemma ListenerSignals(replies: seq<Msg>)
    ensures CountSignals([NewSignal(0)] + replies) == 1 + CountSignals(replies)
  {
    SignalsAreExactlyTheSignalMessages(NewSignal(0));
    CountSignalsAppend([NewSignal(0)], replies);
    assert CountSignals([NewSignal(0)]) == 1 + CountSignals([]);
  }

  lemma NotOverBeforeStop(react: Msg -> Reaction, c: Config<Mode>, st: State<Mode>)
    requires c.handler == Listener(react)
    requires Reachable(c, st) && st.parent.Terminate?
    requires forall i :: 0 <= i < |st.log.commands| ==> !react(st.log.commands[i]).Stop?
    ensures st.child.Running?
  {
    NeverStops(react, st.log.commands);
    ListenerEmits(react, st.log.commands);
    NotOverUnlessItReturns(c, st);
  }

  lemma {:induction false} NeverStops(react: Msg -> Reaction, cmds: seq<Msg>)
    requires forall i :: 0 <= i < |cmds| ==> !react(cmds[i]).Stop?
    ensures !Stops(react, cmds)
  {
    if cmds != [] {
      NeverStops(react, cmds[1..]);
    }
  }
}
