/** The concrete actor functions of src/zactor.c and of the actor template in README.md. */
module Actors {
  import opened Messages
  import opened Actor
  import opened ActorInvariant
  import opened ActorWait
  import opened ActorDestroy
  import opened Listeners

  predicate Says(f: Frame, s: string) {
    CString(f) == Text(s)
  }

  /** How many of the messages come before the first that is not of some kind. */
  function Leading(kind: Msg -> bool, ms: seq<Msg>): (n: nat)
    ensures n <= |ms| && (n < |ms| ==> !kind(ms[n])) && forall i :: 0 <= i < n ==> kind(ms[i])
  {
    if ms == [] || !kind(ms[0]) then 0
    else
      var n := Leading(kind, ms[1..]);
      assert forall i :: 0 < i < n + 1 ==> ms[i] == ms[1..][i - 1];
      n + 1
  }

  lemma LeadingIs(kind: Msg -> bool, ms: seq<Msg>, n: nat)
    requires n <= |ms| && (n < |ms| ==> !kind(ms[n])) && forall i :: 0 <= i < n ==> kind(ms[i])
    ensures Leading(kind, ms) == n
  {
  }

  predicate IsTerm(m: Msg) {
    m != [] && Says(m[0], "$TERM")
  }

  /** What the terminator looks like on the wire: $, T, E, R, M in one frame. */
  lemma TermBytes()
    ensures TERM == [[36, 84, 69, 82, 77]]
  {
    assert Text("$TERM") == [36, 84, 69, 82, 77];
  }

  // ----- echo_actor -----

  function Echo(m: Msg): Reaction {
    if m == [] then Crash
    else if Says(m[0], "$TERM") then Stop
    else if Says(m[0], "ECHO") then Reply(m[1..])
    else Crash
  }

  predicate IsEcho(m: Msg) {
    m != [] && Says(m[0], "ECHO")
  }

  /** The payloads of ECHO commands, in order; a command without payload has none. */
  function Payloads(cmds: seq<Msg>): seq<Msg> {
    if cmds == [] then []
    else (if |cmds[0]| <= 1 then [] else [cmds[0][1..]]) + Payloads(cmds[1..])
  }

  lemma TermSaysTerm()
    ensures Says(TERM[0], "$TERM")
  {
    CStringOfClean(Text("$TERM"));
  }

  lemma {:induction false} EchoReplies(cmds: seq<Msg>)
    requires forall i :: 0 <= i < |cmds| ==> IsEcho(cmds[i])
    ensures Replies(Echo, cmds) == Payloads(cmds)
    ensures forall i :: 0 <= i < |cmds| ==> Echo(cmds[i]).Reply?
  {
    EchoIsNotTerm();
    if cmds != [] {
      EchoReplies(cmds[1..]);
      assert cmds[0] == [cmds[0][0]] + cmds[0][1..];
    }
  }

  lemma EchoIsNotTerm()
    ensures Text("ECHO") != Text("$TERM")
  {
    assert |Text("ECHO")| == 4 && |Text("$TERM")| == 5;
  }

  /** Echo refinement: whatever the interleaving and whatever the pipe's limits, an echo actor sent
      ECHO commands and then $TERM sends the init signal and then the payloads in order, and once it
      is over it has sent exactly these; a command without payload is answered by nothing. */
  lemma EchoStream(c: Config<Mode>, st: State<Mode>, cmds: seq<Msg>)
    requires c.handler == Listener(Echo) && Reachable(c, st) && !st.child.NotStarted?
    requires st.log.commands == cmds + [TERM] && forall i :: 0 <= i < |cmds| ==> IsEcho(cmds[i])
    ensures st.log.emitted <= [NewSignal(0)] + Payloads(cmds)
    ensures HandlerOver(st) ==> st.log.received + st.pipe.toParent == [NewSignal(0)] + Payloads(cmds) + ExitPart(st)
  {
    TermSaysTerm();
    EchoReplies(cmds);
    RepliesAppend(Echo, cmds, TERM);
    ListenerEmits(Echo, cmds + [TERM]);
    HandlerIsDeterminate(c, st);
    InvReachable(c, st);
  }

  /** Destroying an echo actor, of whose echoes the caller has read some: it is synchronized if and only
      if the pipe has room for $TERM and no unread echo is itself a signal.  It returns if and only if
      an unread echo is a signal, or the unread echoes leave room for the exit signal, or $TERM cannot be
      sent. */
  lemma EchoDestroy(c: Config<Mode>, st: State<Mode>, read: nat)
    requires c.handler == Listener(Echo) && Reachable(c, st) && st.parent.Terminate? && st.terminator == TERM
    requires forall i :: 0 <= i < |st.log.commands| ==> IsEcho(st.log.commands[i])
    requires read <= |Payloads(st.log.commands)|
    requires st.log.received == [NewSignal(0)] + Payloads(st.log.commands)[..read]
    ensures Lively(c.handler)
    ensures
      var unread := Payloads(st.log.commands)[read..];
      && (Synchronized(c, st, {Destroyed}) <==> Room(c.commandLimit, st.pipe.toChild) && !HasSignal(unread))
      && (Completes(c, st, {Destroyed}) <==>
            || HasSignal(unread)
            || c.replyLimit == 0
            || |unread| < c.replyLimit
            || !(Room(c.commandLimit, st.pipe.toChild) || WillTake(c, st)))
  {
    TermSaysTerm();
    EchoReplies(st.log.commands);
    ListenerDestroy(Echo, c, st);
    SignalsAfterInit(Payloads(st.log.commands), read);
  }

  lemma SignalsAfterInit(ms: seq<Msg>, read: nat)
    requires read <= |ms|
    ensures CountSignals([NewSignal(0)] + ms[..read]) == 1 + CountSignals(ms) <==> !HasSignal(ms[read..])
    ensures CountSignals([NewSignal(0)] + ms[..read]) <= 1 + CountSignals(ms)
  {
    SignalsAreExactlyTheSignalMessages(NewSignal(0));
    CountSignalsAppend([NewSignal(0)], ms[..read]);
    assert CountSignals([NewSignal(0)]) == 1 + CountSignals([]);
    CountSignalsAppend(ms[..read], ms[read..]);
    assert ms == ms[..read] + ms[read..];
    CountSignalsZero(ms[read..]);
  }

  /** Up to the first command that is not an ECHO; if that says $TERM, the actor stops on it. */
  lemma {:induction false} EchoesFirst(cmds: seq<Msg>)
    ensures
      var n := Leading(IsEcho, cmds);
      && Replies(Echo, cmds) == Payloads(cmds[..n])
      && (Stops(Echo, cmds) <==> n < |cmds| && IsTerm(cmds[n]))
    decreases |cmds|
  {
    EchoIsNotTerm();
    var n := Leading(IsEcho, cmds);
    if n > 0 {
      EchoesFirst(cmds[1..]);
      LeadingIs(IsEcho, cmds[1..], n - 1);
      assert cmds[..n][1..] == cmds[1..][..n - 1] && cmds[..n][0] == cmds[0];
      assert cmds[0] == [cmds[0][0]] + cmds[0][1..];
    } else {
      assert cmds[..0] == [];
    }
  }

  datatype Outcome = Terminated | Blocked | Asserted

  /** An echo actor has taken `read` commands, all ECHO, and answered them. */
  ghost predicate EchoesSoFar(inbox: seq<Msg>, outbox: seq<Msg>, read: nat) {
    && read <= |inbox| && (forall i :: 0 <= i < read ==> IsEcho(inbox[i]))
    && outbox == [NewSignal(0)] + Payloads(inbox[..read])
  }

  lemma {:induction false} PayloadsAppend(cmds: seq<Msg>, m: Msg)
    ensures Payloads(cmds + [m]) == Payloads(cmds) + if |m| <= 1 then [] else [m[1..]]
  {
    if cmds == [] {
      assert cmds + [m] == [m] && [m][1..] == [];
    } else {
      PayloadsAppend(cmds[1..], m);
      assert (cmds + [m])[1..] == cmds[1..] + [m];
    }
  }

  lemma OneMoreEcho(inbox: seq<Msg>, outbox: seq<Msg>, read: nat)
    requires EchoesSoFar(inbox, outbox, read) && read < |inbox| && IsEcho(inbox[read])
    ensures
      var rest := inbox[read][1..];
      EchoesSoFar(inbox, outbox + if rest == [] then [] else [rest], read + 1)
  {
    assert inbox[..read + 1] == inbox[..read] + [inbox[read]];
    PayloadsAppend(inbox[..read], inbox[read]);
  }

  lemma NoMoreEchoes(inbox: seq<Msg>, outbox: seq<Msg>, read: nat)
    requires EchoesSoFar(inbox, outbox, read) && (read < |inbox| ==> !IsEcho(inbox[read]))
    ensures Leading(IsEcho, inbox) == read && outbox == [NewSignal(0)] + Replies(Echo, inbox)
    ensures Stops(Echo, inbox) <==> read < |inbox| && IsTerm(inbox[read])
  {
    LeadingIs(IsEcho, inbox, read);
    EchoesFirst(inbox);
  }

  /** echo_actor as it is written.  `inbox` is everything the parent ever sends.  `live` counts the
      received messages that are neither sent on nor destroyed.  It answers the ECHO commands up to the first
      other one, terminates on that if it says $TERM, and fails the assertion if not. */
  method EchoActor(inbox: seq<Msg>) returns (outbox: seq<Msg>, read: nat, live: nat, outcome: Outcome)
    ensures outbox == [NewSignal(0)] + Replies(Echo, inbox)
    ensures outcome.Terminated? <==> Stops(Echo, inbox)
    ensures live == if outcome.Asserted? then 1 else 0
    ensures
      var n := Leading(IsEcho, inbox);
      && outbox == [NewSignal(0)] + Payloads(inbox[..n])
      && outcome == (if n == |inbox| then Blocked else if IsTerm(inbox[n]) then Terminated else Asserted)
      && read == if n == |inbox| then n else n + 1
  {
    EchoIsNotTerm();
    outbox, read, live := [NewSignal(0)], 0, 0;
    var terminated := false;
    while !terminated
      invariant live == 0
      invariant !terminated ==> EchoesSoFar(inbox, outbox, read)
      invariant terminated ==> 0 < read && EchoesSoFar(inbox, outbox, read - 1) && read <= |inbox|
      invariant terminated ==> IsTerm(inbox[read - 1])
      decreases |inbox| - read, !terminated
    {
      if read == |inbox| {
        NoMoreEchoes(inbox, outbox, read);
        return outbox, read, live, Blocked;
      }
      var msg := inbox[read];
      read, live := read + 1, live + 1;
      if msg == [] {
        NoMoreEchoes(inbox, outbox, read - 1);
        return outbox, read, live, Asserted;
      }
      var command, rest := msg[0], msg[1..];
      if Says(command, "$TERM") {
        terminated, live := true, live - 1;
      } else if Says(command, "ECHO") {
        OneMoreEcho(inbox, outbox, read - 1);
        // zmsg_send disposes of the message also when it holds no frame to send
        if rest != [] {
          outbox := outbox + [rest];
        }
        live := live - 1;
      } else {
        NoMoreEchoes(inbox, outbox, read - 1);
        return outbox, read, live, Asserted;
      }
    }
    NoMoreEchoes(inbox, outbox, read - 1);
    outcome := Terminated;
  }

  // ----- The actor template -----

  function Template(m: Msg): Reaction {
    if m == [] then Crash
    else if Says(m[0], "VERBOSE") then Ignore
    else if Says(m[0], "WAIT") then Reply(NewSignal(0))
    else if Says(m[0], "$TERM") then Stop
    else Crash
  }

  predicate IsWait(m: Msg) {
    m != [] && Says(m[0], "WAIT")
  }

  predicate IsVerbose(m: Msg) {
    m != [] && Says(m[0], "VERBOSE")
  }

  predicate IsOrdinary(m: Msg) {
    IsVerbose(m) || IsWait(m)
  }

  function Signals(n: nat): seq<Msg> {
    seq(n, _ => NewSignal(0))
  }

  /** How many of the commands are WAIT. */
  function Waits(cmds: seq<Msg>): nat {
    if cmds == [] then 0 else (if IsWait(cmds[0]) then 1 else 0) + Waits(cmds[1..])
  }

  /** self_t of the template. */
  class TemplateSelf {
    var pipe: seq<Msg>        // commands still to be received
    var outbox: seq<Msg>      // everything sent back
    var terminated: bool
    var verbose: bool

    constructor (inbox: seq<Msg>)
      ensures pipe == inbox && outbox == [] && !terminated && !verbose
    {
      pipe, outbox, terminated, verbose := inbox, [], false, false;
    }

    /** s_self_handle_pipe; false is a failed assertion. */
    method HandlePipe() returns (ok: bool)
      requires pipe != []
      modifies this
      ensures pipe == old(pipe)[1..]
      ensures
        match Template(old(pipe)[0])
        case Ignore => ok && verbose && terminated == old(terminated) && outbox == old(outbox)
        case Reply(m) => ok && verbose == old(verbose) && terminated == old(terminated) && m != []
          && outbox == old(outbox) + [m]
        case Stop => ok && verbose == old(verbose) && terminated && outbox == old(outbox)
        case Crash => !ok && verbose == old(verbose) && terminated == old(terminated) && outbox == old(outbox)
    {
      var request := pipe[0];
      pipe, ok := pipe[1..], true;
      if request == [] {
        ok := false;
        return;
      }
      var command := request[0];
      if Says(command, "VERBOSE") {
        verbose := true;
      } else if Says(command, "WAIT") {
        outbox := outbox + [NewSignal(0)];
      } else if Says(command, "$TERM") {
        terminated := true;
      } else {
        ok := false;
      }
    }

    /** Where the actor is with the commands it is sent in all. */
    ghost predicate Underway(inbox: seq<Msg>)
      reads this
    {
      if terminated then Through(Template, inbox, outbox, true) else OnTheWay(Template, inbox, outbox, pipe)
    }

    /** It has taken n commands that are VERBOSE or WAIT, and perhaps $TERM after them. */
    ghost predicate Taken(inbox: seq<Msg>, n: nat)
      reads this
    {
      && Underway(inbox) && n <= |inbox| && (forall i :: 0 <= i < n ==> IsOrdinary(inbox[i]))
      && if terminated then n < |inbox| && IsTerm(inbox[n]) else pipe == inbox[n..]
    }

    /** zsock_signal before the main loop. */
    method SignalStart(ghost inbox: seq<Msg>)
      requires pipe == inbox && outbox == [] && !terminated
      modifies this
      ensures !terminated && Taken(inbox, 0)
    {
      outbox := outbox + [NewSignal(0)];
      assert inbox[0..] == inbox;
    }

    /** One turn of the main loop. */
    method Poll(ghost inbox: seq<Msg>, ghost n: nat) returns (ok: bool, ghost m: nat)
      requires !terminated && pipe != [] && Taken(inbox, n)
      modifies this
      ensures pipe == old(pipe)[1..]
      ensures if ok then Taken(inbox, m)
        else Through(Template, inbox, outbox, false) && n < |inbox| && !IsOrdinary(inbox[n]) && !IsTerm(inbox[n])
    {
      OneTurn(Template, inbox, outbox, pipe);
      TemplateWords();
      assert pipe[0] == inbox[n] && pipe[1..] == inbox[n + 1..];
      ok := HandlePipe();
      m := if terminated then n else n + 1;
    }

    /** The main loop. */
    method Serve(ghost inbox: seq<Msg>) returns (outcome: Outcome, ghost n: nat)
      requires !terminated && Taken(inbox, 0)
      modifies this
      ensures Through(Template, inbox, outbox, outcome.Terminated?)
      ensures n <= |inbox| && forall i :: 0 <= i < n ==> IsOrdinary(inbox[i])
      ensures n < |inbox| ==> !IsOrdinary(inbox[n])
      ensures outcome == if n == |inbox| then Blocked else if IsTerm(inbox[n]) then Terminated else Asserted
    {
      TemplateWords();
      n := 0;
      while !terminated
        invariant Taken(inbox, n)
        decreases |pipe|, !terminated
      {
        if pipe == [] {
          NothingLeft(Template, inbox, outbox);
          return Blocked, n;
        }
        var ok;
        ghost var m;
        ok, m := Poll(inbox, n);
        if !ok {
          return Asserted, n;
        }
        n := m;
      }
      outcome := Terminated;
    }
  }

  lemma TemplateWords()
    ensures Text("VERBOSE") != Text("WAIT") && Text("VERBOSE") != Text("$TERM") && Text("WAIT") != Text("$TERM")
  {
    assert |Text("WAIT")| == 4 && |Text("$TERM")| == 5 && |Text("VERBOSE")| == 7;
  }

  /** Up to the first command that is neither VERBOSE nor WAIT; if that says $TERM, the actor stops on it. */
  lemma {:induction false} OrdinaryFirst(cmds: seq<Msg>)
    ensures
      var n := Leading(IsOrdinary, cmds);
      && Replies(Template, cmds) == Signals(Waits(cmds[..n]))
      && (Stops(Template, cmds) <==> n < |cmds| && IsTerm(cmds[n]))
    decreases |cmds|
  {
    TemplateWords();
    var n := Leading(IsOrdinary, cmds);
    if n > 0 {
      var w := Waits(cmds[1..][..n - 1]);
      OrdinaryFirst(cmds[1..]);
      LeadingIs(IsOrdinary, cmds[1..], n - 1);
      assert cmds[..n][1..] == cmds[1..][..n - 1] && cmds[..n][0] == cmds[0];
      OneMoreSignal(w);
    } else {
      assert cmds[..0] == [];
    }
  }

  lemma OneMoreSignal(n: nat)
    ensures [NewSignal(0)] + Signals(n) == Signals(n + 1)
  {
  }

  /** What the template has sent once it has taken n VERBOSE or WAIT commands and no other of these follows. */
  lemma NoMoreOrdinary(inbox: seq<Msg>, outbox: seq<Msg>, n: nat, stopped: bool)
    requires n <= |inbox| && (n < |inbox| ==> !IsOrdinary(inbox[n])) && forall i :: 0 <= i < n ==> IsOrdinary(inbox[i])
    requires Through(Template, inbox, outbox, stopped)
    ensures Leading(IsOrdinary, inbox) == n && outbox == Signals(1 + Waits(inbox[..n]))
  {
    LeadingIs(IsOrdinary, inbox, n);
    OrdinaryFirst(inbox);
    OneMoreSignal(Waits(inbox[..n]));
  }

  /** zxxx, the template's main loop, agrees with the listener it is an instance of.  It signals its start and
      each WAIT up to the first command that is neither VERBOSE nor WAIT, terminates on that if it says $TERM,
      and fails the assertion if not. */
  method TemplateActor(inbox: seq<Msg>) returns (outbox: seq<Msg>, outcome: Outcome)
    ensures outbox == [NewSignal(0)] + Replies(Template, inbox)
    ensures outcome.Terminated? <==> Stops(Template, inbox)
    ensures
      var n := Leading(IsOrdinary, inbox);
      && outbox == Signals(1 + Waits(inbox[..n]))
      && outcome == if n == |inbox| then Blocked else if IsTerm(inbox[n]) then Terminated else Asserted
  {
    var self := new TemplateSelf(inbox);
    self.SignalStart(inbox);
    ghost var n;
    outcome, n := self.Serve(inbox);
    outbox := self.outbox;
    NoMoreOrdinary(inbox, outbox, n, outcome.Terminated?);
  }

  /** The template answers each WAIT with one signal, and nothing else with anything. */
  lemma {:induction false} TemplateReplies(cmds: seq<Msg>)
    requires forall i :: 0 <= i < |cmds| ==> IsVerbose(cmds[i]) || IsWait(cmds[i])
    ensures |Replies(Template, cmds)| == CountSignals(Replies(Template, cmds)) == Waits(cmds)
    ensures Survives(Template, cmds)
  {
    TemplateWords();
    if cmds != [] {
      TemplateReplies(cmds[1..]);
      if IsWait(cmds[0]) {
        ListenerSignals(Replies(Template, cmds[1..]));
      }
    }
  }

  /** A template actor sent VERBOSE and WAIT commands: whatever the limits of the pipe, destroy always
      returns, and it is synchronized if and only if the pipe has room for $TERM and the caller waited
      once per WAIT besides the wait in zactor_new. */
  lemma TemplateDestroy(c: Config<Mode>, st: State<Mode>)
    requires c.handler == Listener(Template) && Reachable(c, st) && st.parent.Terminate? && st.terminator == TERM
    requires forall i :: 0 <= i < |st.log.commands| ==> IsVerbose(st.log.commands[i]) || IsWait(st.log.commands[i])
    ensures Lively(c.handler) && Completes(c, st, {Destroyed})
    ensures Synchronized(c, st, {Destroyed}) <==>
      Room(c.commandLimit, st.pipe.toChild) && CountSignals(st.log.received) == 1 + Waits(st.log.commands)
  {
    TermSaysTerm();
    TemplateWords();
    TemplateReplies(st.log.commands);
    ListenerDestroy(Template, c, st);
    ListenerUnread(Template, c, st);
    CountSignalsAppend(st.log.received, Unread(c, st));
    ListenerSignals(Replies(Template, st.log.commands));
    AtMostAllSignals(st.log.received);
    AtMostAllSignals(Unread(c, st));
  }

  lemma {:induction false} AtMostAllSignals(ms: seq<Msg>)
    ensures CountSignals(ms) <= |ms|
  {
    if ms != [] {
      AtMostAllSignals(ms[1..]);
    }
  }

  // ----- Custom destructors -----

  /** KTHXBAI_actor receives frame by frame, so it stops on a message any of whose frames says so. */
  function Kthxbai(m: Msg): Reaction {
    if exists i :: 0 <= i < |m| && Says(m[i], "$KTHXBAI") then Stop else Ignore
  }

  const KTHXBAI: Msg := [Text("$KTHXBAI")]

  /** The string zsock_bsend packs under the picture "s", as one frame. */
  function Packed(s: string): Frame {
    [|s| % 256] + Text(s)
  }

  /** What zsock_brecv reads back under the picture "s"; false if the frame is malformed. */
  function Unpacked(f: Frame): (bool, Frame) {
    if f == [] || 1 + f[0] > |f| then (false, []) else (true, CString(f[1..1 + f[0]]))
  }

  /** BSEND_actor stops on a malformed frame as well as on its terminator. */
  function Bsend(m: Msg): Reaction {
    if exists i :: 0 <= i < |m| && (!Unpacked(m[i]).0 || Unpacked(m[i]).1 == Text("$TERM")) then Stop else Ignore
  }

  const BSEND_TERM: Msg := [Packed("$TERM")]

  /** KTHXBAI_actor signals its start and returns on the first message of which some frame says so. */
  lemma KthxbaiReturnsIff(cmds: seq<Msg>)
    ensures Lively(Listener(Kthxbai))
    ensures Emits(Listener(Kthxbai), Starting, cmds) == [NewSignal(0)]
    ensures Returns(Listener(Kthxbai), Starting, cmds) <==>
      exists i, j :: 0 <= i < |cmds| && 0 <= j < |cmds[i]| && Says(cmds[i][j], "$KTHXBAI")
  {
    ListenerEmits(Kthxbai, cmds);
    StopsOrIgnores(Kthxbai, cmds);
    if i :| 0 <= i < |cmds| && Kthxbai(cmds[i]).Stop? {
      var j :| 0 <= j < |cmds[i]| && Says(cmds[i][j], "$KTHXBAI");
    }
  }

  /** A frame that holds no string under the picture "s", because it is empty or shorter than it says. */
  predicate Malformed(f: Frame) {
    f == [] || |f| <= f[0]
  }

  /** BSEND_actor signals its start and returns on the first message of which some frame is malformed or holds
      $TERM behind its length. */
  lemma BsendReturnsIff(cmds: seq<Msg>)
    ensures Lively(Listener(Bsend))
    ensures Emits(Listener(Bsend), Starting, cmds) == [NewSignal(0)]
    ensures Returns(Listener(Bsend), Starting, cmds) <==>
      exists i, j :: 0 <= i < |cmds| && 0 <= j < |cmds[i]|
        && (Malformed(cmds[i][j]) || Says(cmds[i][j][1..1 + cmds[i][j][0]], "$TERM"))
  {
    ListenerEmits(Bsend, cmds);
    StopsOrIgnores(Bsend, cmds);
    if i :| 0 <= i < |cmds| && Bsend(cmds[i]).Stop? {
      var j :| 0 <= j < |cmds[i]| && (!Unpacked(cmds[i][j]).0 || Unpacked(cmds[i][j]).1 == Text("$TERM"));
    }
  }

  /** A listener that never replies or fails returns if it is told to stop anywhere. */
  lemma {:induction false} StopsOrIgnores(react: Msg -> Reaction, cmds: seq<Msg>)
    requires forall m :: react(m).Stop? || react(m).Ignore?
    ensures Replies(react, cmds) == [] && (Stops(react, cmds) <==> exists i :: 0 <= i < |cmds| && react(cmds[i]).Stop?)
  {
    if cmds != [] {
      StopsOrIgnores(react, cmds[1..]);
      assert forall i :: 0 < i < |cmds| ==> cmds[i] == cmds[1..][i - 1];
      if react(cmds[0]).Ignore? && exists i :: 0 <= i < |cmds| && react(cmds[i]).Stop? {
        var i :| 0 <= i < |cmds| && react(cmds[i]).Stop?;
        assert react(cmds[1..][i - 1]).Stop?;
      }
    }
  }

  lemma {:induction false} SilentReplies(react: Msg -> Reaction, cmds: seq<Msg>)
    requires forall i :: 0 <= i < |cmds| ==> react(cmds[i]).Ignore?
    ensures Replies(react, cmds) == []
  {
    if cmds != [] {
      SilentReplies(react, cmds[1..]);
    }
  }

  /** A listener that only ever signals its start: whatever the limits of the pipe, destroy always
      returns, and it is synchronized if and only if the pipe has room for the terminator. */
  lemma SilentDestroy(react: Msg -> Reaction, c: Config<Mode>, st: State<Mode>)
    requires c.handler == Listener(react) && Reachable(c, st) && st.parent.Terminate? && react(st.terminator).Stop?
    requires forall i :: 0 <= i < |st.log.commands| ==> react(st.log.commands[i]).Ignore?
    ensures Lively(c.handler) && Completes(c, st, {Destroyed})
    ensures Synchronized(c, st, {Destroyed}) <==> Room(c.commandLimit, st.pipe.toChild)
  {
    SilentReplies(react, st.log.commands);
    ListenerDestroy(react, c, st);
    ListenerUnread(react, c, st);
    ListenerSignals([]);
    assert st.log.received == [NewSignal(0)];
    assert [NewSignal(0)] + [] == [NewSignal(0)];
  }

  /** KTHXBAI_destructor suits KTHXBAI_actor: whatever commands the actor ignored before and whatever the
      limits of the pipe, destroy always returns, and it is synchronized if and only if the pipe has room
      for $KTHXBAI. */
  lemma KthxbaiDestroy(c: Config<Mode>, st: State<Mode>)
    requires c.handler == Listener(Kthxbai) && Reachable(c, st) && st.parent.Terminate? && st.terminator == KTHXBAI
    requires forall i :: 0 <= i < |st.log.commands| ==> Kthxbai(st.log.commands[i]).Ignore?
    ensures Lively(c.handler) && Completes(c, st, {Destroyed})
    ensures Synchronized(c, st, {Destroyed}) <==> Room(c.commandLimit, st.pipe.toChild)
  {
    KthxbaiStops();
    SilentDestroy(Kthxbai, c, st);
  }

  lemma KthxbaiStops()
    ensures Kthxbai(KTHXBAI).Stop?
  {
    CStringOfClean(Text("$KTHXBAI"));
    assert Says(KTHXBAI[0], "$KTHXBAI");
  }

  /** BSEND_destructor suits BSEND_actor in the same way. */
  lemma BsendDestroy(c: Config<Mode>, st: State<Mode>)
    requires c.handler == Listener(Bsend) && Reachable(c, st) && st.parent.Terminate? && st.terminator == BSEND_TERM
    requires forall i :: 0 <= i < |st.log.commands| ==> Bsend(st.log.commands[i]).Ignore?
    ensures Lively(c.handler) && Completes(c, st, {Destroyed})
    ensures Synchronized(c, st, {Destroyed}) <==> Room(c.commandLimit, st.pipe.toChild)
  {
    BsendStops();
    SilentDestroy(Bsend, c, st);
  }

  /** What the two other destructors send: $KTHXBAI in one frame, and $TERM behind its length. */
  lemma DestructorBytes()
    ensures KTHXBAI == [[36, 75, 84, 72, 88, 66, 65, 73]] && BSEND_TERM == [[5, 36, 84, 69, 82, 77]]
  {
    assert Text("$KTHXBAI") == [36, 75, 84, 72, 88, 66, 65, 73];
    assert Text("$TERM") == [36, 84, 69, 82, 77];
    assert Packed("$TERM") == [5] + Text("$TERM") == [5, 36, 84, 69, 82, 77];
  }

  lemma BsendStops()
    ensures Bsend(BSEND_TERM).Stop?
  {
    CStringOfClean(Text("$TERM"));
    assert Packed("$TERM")[1..6] == Text("$TERM");
    assert Unpacked(BSEND_TERM[0]) == (true, Text("$TERM"));
  }
}
