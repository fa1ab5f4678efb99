/** The two threads of a zactor and the pipe between them (src/zactor.c), as an interleaving state
    machine.  A step is one library call of one thread. */
module Actor {
  import opened Messages
  import opened Wrappers

  /** What an actor function does next.  Emit is a blocking send on its pipe end (zsock_signal and
      zmsg_send alike), Await a blocking receive, Abort a failed assertion. */
  datatype Action<!S> =
    | Emit(m: Msg, next: S)
    | Await(resume: Msg -> S)
    | Return
    | Abort

  /** An actor function: any sequential program over its pipe end.  `work` bounds the sends it can
      still make before it next receives or returns. */
  datatype Handler<!S> = Handler(start: S, action: S -> Action<S>, work: S -> nat)

  ghost predicate Lively<S(!new)>(h: Handler<S>) {
    forall s :: h.action(s).Emit? ==> h.work(h.action(s).next) < h.work(s)
  }

  /** Everything the handler sends from state s when fed these commands and no more.  Sending a
      message without frames sends nothing. */
  ghost function Emits<S(!new)>(h: Handler<S>, s: S, cmds: seq<Msg>): seq<Msg>
    requires Lively(h)
    decreases |cmds|, h.work(s)
  {
    match h.action(s)
    case Emit(m, k) => (if m == [] then [] else [m]) + Emits(h, k, cmds)
    case Await(k) => if cmds == [] then [] else Emits(h, k(cmds[0]), cmds[1..])
    case Return => []
    case Abort => []
  }

  /** Whether the handler returns, fed these commands and no more. */
  ghost predicate Returns<S(!new)>(h: Handler<S>, s: S, cmds: seq<Msg>)
    requires Lively(h)
    decreases |cmds|, h.work(s)
  {
    match h.action(s)
    case Emit(m, k) => Returns(h, k, cmds)
    case Await(k) => cmds != [] && Returns(h, k(cmds[0]), cmds[1..])
    case Return => true
    case Abort => false
  }

  /** A handler and the high-water marks of the pipe's two directions; zero means no limit. */
  datatype Config<!S> = Config(handler: Handler<S>, commandLimit: nat, replyLimit: nat)

  datatype Life = Unborn | Live | Gone

  /** Where the calling thread is: in zactor_new up to NewWait, in application code at Ready, in an
      application's own zsock_wait at AppWait, in zactor_destroy from Terminate on. */
  datatype ParentPc =
    | MakeSelf | MakeShim | MakePipe | MakeThread | NewWait
    | Ready | AppWait
    | Terminate | ExitWait | ClosePipe | FreeSelf | Destroyed

  /** Where s_thread_shim is. */
  datatype ChildPc<!S> =
    | NotStarted
    | Running(s: S)
    | Returned      // about to send the exit signal with a zero timeout
    | Signalled     // about to close its pipe end
    | Closed        // about to free the shim
    | Ended

  datatype Pipe = Pipe(
    toChild: seq<Msg>,        // queued commands
    toParent: seq<Msg>,       // queued replies and signals
    front: Life,              // self->pipe
    back: Life)               // shim->pipe

  /** What a step may use and release: the zactor_t, the shim_t, and the two pipe ends. */
  datatype Resource = Self | Shim | Front | Back

  /** What happened so far; no step depends on it. */
  datatype History = History(
    commands: seq<Msg>,       // every command the parent sent
    taken: seq<Msg>,          // every command the handler received
    emitted: seq<Msg>,        // every message the handler sent
    exitSent: bool,           // the pipe accepted the exit signal
    received: seq<Msg>,       // every message the parent received
    released: seq<Resource>)  // every block freed and socket closed

  datatype State<!S> = State(
    parent: ParentPc,
    child: ChildPc<S>,
    pipe: Pipe,
    self: Life,               // the zactor_t
    shim: Life,               // the shim_t
    terminator: Msg,          // what self->destructor sends
    log: History)

  datatype Label =
    | Child                   // the actor thread's next call
    | Parent                  // the calling thread's next call inside zactor_new, destroy or a wait
    | Send(m: Msg) | Recv | Wait | SetDestructor(t: Msg) | Destroy   // calls the application makes

  predicate Room(limit: nat, queue: seq<Msg>) {
    limit == 0 || |queue| < limit
  }

  const TERM: Msg := [Text("$TERM")]

  const EXIT: Msg := NewSignal(0)

  function Init<S>(): State<S> {
    State(MakeSelf, NotStarted, Pipe([], [], Unborn, Unborn), Unborn, Unborn, TERM, History([], [], [], false, [], []))
  }

  /** Free a block or close a socket. */
  function Released<S>(st: State<S>, r: Resource): State<S> {
    var g := st.log.(released := st.log.released + [r]);
    match r
    case Self => st.(self := Gone, log := g)
    case Shim => st.(shim := Gone, log := g)
    case Front => st.(pipe := st.pipe.(front := Gone), log := g)
    case Back => st.(pipe := st.pipe.(back := Gone), log := g)
  }

  predicate CanReply<S>(c: Config<S>, p: Pipe) {
    p.front.Live? && Room(c.replyLimit, p.toParent)
  }

  predicate CanCommand<S>(c: Config<S>, p: Pipe) {
    p.back.Live? && Room(c.commandLimit, p.toChild)
  }

  /** The actor thread's next step, or None while it is blocked, dead or finished. */
  function ChildStep<S>(c: Config<S>, st: State<S>): Option<State<S>> {
    var p, g := st.pipe, st.log;
    match st.child
    case NotStarted => None
    case Running(s) => (
      match c.handler.action(s)
      case Emit(m, k) =>
        if m == [] then Some(st.(child := Running(k)))
        else if CanReply(c, p) then
          Some(st.(child := Running(k), pipe := p.(toParent := p.toParent + [m]),
            log := g.(emitted := g.emitted + [m])))
        else None
      case Await(k) =>
        if p.toChild == [] then None
        else
          var m := p.toChild[0];
          Some(st.(child := Running(k(m)), pipe := p.(toChild := p.toChild[1..]), log := g.(taken := g.taken + [m])))
      case Return => Some(st.(child := Returned))
      case Abort => None
    )
    case Returned =>
      if CanReply(c, p) then
        Some(st.(child := Signalled, pipe := p.(toParent := p.toParent + [EXIT]), log := g.(exitSent := true)))
      else
        Some(st.(child := Signalled))
    case Signalled => Some(Released(st, Back).(child := Closed))
    case Closed => Some(Released(st, Shim).(child := Ended))
    case Ended => None
  }

  /** Receive a message and go on to `next`. */
  function Receive<S>(st: State<S>, next: ParentPc): State<S>
    requires st.pipe.toParent != []
  {
    st.(parent := next,
        pipe := st.pipe.(toParent := st.pipe.toParent[1..]),
        log := st.log.(received := st.log.received + [st.pipe.toParent[0]]))
  }

  /** Queue a command and go on to `next`. */
  function Command<S>(st: State<S>, m: Msg, next: ParentPc): State<S> {
    st.(parent := next,
        pipe := st.pipe.(toChild := st.pipe.toChild + [m]),
        log := st.log.(commands := st.log.commands + [m]))
  }

  /** One turn of the loop in zsock_wait: drop a message, and go on to `after` if it was a signal. */
  function WaitStep<S>(st: State<S>, after: ParentPc): Option<State<S>> {
    if st.pipe.toParent == [] then None
    else Some(Receive(st, if IsSignal(st.pipe.toParent[0]) then after else st.parent))
  }

  /** The calling thread's next step inside the library, or None while it is blocked or outside it. */
  function ParentStep<S>(c: Config<S>, st: State<S>): Option<State<S>> {
    match st.parent
    case MakeSelf => Some(st.(parent := MakeShim, self := Live))
    case MakeShim => Some(st.(parent := MakePipe, shim := Live))
    case MakePipe => Some(st.(parent := MakeThread, pipe := st.pipe.(front := Live, back := Live)))
    case MakeThread => Some(st.(parent := NewWait, child := Running(c.handler.start)))
    case NewWait => WaitStep(st, Ready)
    case Ready => None
    case AppWait => WaitStep(st, Ready)
    case Terminate =>
      if CanCommand(c, st.pipe) then Some(Command(st, st.terminator, ExitWait))
      else Some(st.(parent := ClosePipe))
    case ExitWait => WaitStep(st, ClosePipe)
    case ClosePipe => Some(Released(st, Front).(parent := FreeSelf))
    case FreeSelf => Some(Released(st, Self).(parent := Destroyed))
    case Destroyed => None
  }

  function Step<S>(c: Config<S>, st: State<S>, l: Label): Option<State<S>> {
    match l
    case Child => ChildStep(c, st)
    case Parent => ParentStep(c, st)
    case Send(m) =>
      if !st.parent.Ready? then None
      else if m == [] then Some(st)
      else if CanCommand(c, st.pipe) then Some(Command(st, m, Ready))
      else None
    case Recv => if st.parent.Ready? && st.pipe.toParent != [] then Some(Receive(st, Ready)) else None
    case Wait => if st.parent.Ready? then Some(st.(parent := AppWait)) else None
    case SetDestructor(t) => if st.parent.Ready? && t != [] then Some(st.(terminator := t)) else None
    case Destroy =>
      if st.parent.Ready? then Some(st.(parent := Terminate))
      else if st.parent.Destroyed? then Some(st)
      else None
  }

  /** The state a run ends in, or None if some step of it was not possible. */
  function Run<S>(c: Config<S>, ls: seq<Label>): Option<State<S>> {
    if ls == [] then Some(Init())
    else
      match Run(c, ls[..|ls| - 1])
      case None => None
      case Some(st) => Step(c, st, ls[|ls| - 1])
  }

  ghost predicate Reachable<S(!new)>(c: Config<S>, st: State<S>) {
    exists ls :: Run(c, ls) == Some(st)
  }

  predicate HandlerOver<S>(st: State<S>) {
    !st.child.NotStarted? && !st.child.Running?
  }

  predicate Waiting<S>(st: State<S>) {
    st.parent.NewWait? || st.parent.AppWait? || st.parent.ExitWait?
  }

  function ExitPart<S>(st: State<S>): seq<Msg> {
    if st.log.exitSent then [EXIT] else []
  }
}
