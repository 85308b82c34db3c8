/**
 The connection state machine of an LPP session: connect, SUPL START, RESPONSE, POSINIT, then
 messages. User calls and scheduler wake-ups may come at any time and in any order.
 */
module LppConnection {
  import opened Basics
  import S = SuplSession
  import I = SuplIdentity

  datatype Phase =
    | Initial | Connect | Connecting | Connected | ConnectionFailed | Disconnected
    | HandshakeSend | HandshakeRecv | Posinit | Established | Message | Error | Exit

  /** What a state function asks for: another state at once, a wait, or it trips an assertion. */
  datatype Next = Goto(phase: Phase) | Wait(read: Phase, write: Phase, error: Phase) | Crash

  /** The milestones of a connection; the number is that of the SUPL session object. */
  datatype Event = StartSent(connection: nat) | ResponseAccepted(connection: nat) | PosinitSent(connection: nat) | PayloadHanded(connection: nat, payload: seq<Byte>)

  /** How the outside answers during one `process` call. Ranks fall strictly, so every state is
      visited at most once in a call and one answer of each kind is enough. */
  datatype Env = Env(
    established: bool, network: S.Progress, startSent: bool, posinitSent: bool,
    incoming: seq<Byte>, script: seq<S.Receive>, validFd: bool)

  datatype Machine = Machine(
    identity: I.Identity, phase: Phase, nextRead: Phase, nextWrite: Phase, nextError: Phase,
    supl: Option<S.Supl>, scheduled: bool, connection: nat, log: seq<Event>, crashed: bool)

  function NewMachine(identity: I.Identity): Machine {
    Machine(identity, Initial, Initial, Initial, Initial, None, false, 0, [], false)
  }

  /** Falls strictly with every immediate transition. */
  function Rank(p: Phase): nat {
    match p
    case Exit => 0
    case Disconnected => 1
    case HandshakeRecv => 4
    case Connecting => 4
    case Connected => 3
    case Posinit => 3
    case _ => 2
  }

  /** A session holds at most a full receive buffer. */
  predicate Fits(m: Machine) { m.supl.Some? ==> |m.supl.value.buffer| <= S.CAPACITY }

  // -------------------------------------------------------- the state functions

  datatype Drained = Drained(supl: S.Supl, payloads: seq<seq<Byte>>, next: Next)

  /** The receive loop of `state_message`, with the LPP payloads it hands over; it ends
      because every PDU taken shrinks the buffer. */
  function DrainMessages(decode: S.Decoder, s: S.Supl): (d: Drained)
    requires S.Measured(decode)
    ensures |d.supl.buffer| <= |s.buffer| && d.supl.tcp == s.tcp && d.supl.state == s.state
    ensures d.next == Goto(Disconnected) || (s.tcp.TcpConnected? && d.next == Wait(Message, Initial, Disconnected))
    ensures d.payloads != [] ==> s.tcp.TcpConnected?
    decreases |s.buffer|
  {
    var (s', received, pdu) := S.TryReceive(decode, s, S.Wants(false, true, true));
    S.ParseTakes(decode, s.buffer);
    match received
    case NoData => Drained(s', [], Wait(Message, Initial, Disconnected))
    case GotEnd => Drained(s', [], Goto(Disconnected))
    case GotPos => var d := DrainMessages(decode, s'); d.(payloads := pdu.value.lpp + d.payloads)
    case SessionTerminated => Drained(s', [], Goto(Disconnected))
    case InvalidSession => Drained(s', [], Goto(Disconnected))
    case _ => DrainMessages(decode, s')
  }

  function Handed(connection: nat, payloads: seq<seq<Byte>>): seq<Event> {
    if payloads == [] then [] else Handed(connection, payloads[..|payloads| - 1]) + [PayloadHanded(connection, payloads[|payloads| - 1])]
  }

  /** What every state function keeps: it touches only the SUPL session, the connection number and the log,
      and an immediate transition lowers the rank. */
  predicate Steps(m: Machine, r: (Machine, Next)) {
    && Fits(r.0) && r.0 == m.(supl := r.0.supl, connection := r.0.connection, log := r.0.log)
    && (r.1.Goto? ==> Rank(r.1.phase) < Rank(m.phase))
  }

  function StateConnect(m: Machine, env: Env): (r: (Machine, Next))
    requires Fits(m) && m.phase == Connect
    ensures Steps(m, r)
  {
    if m.supl.Some? then (m, Goto(Disconnected))
    else
      var (s, ok) := S.Connect(S.NewSession(m.identity), env.established);
      var m' := m.(supl := Some(s), connection := m.connection + 1);
      (m', if ok then Wait(Connecting, Connecting, Error) else Goto(Disconnected))
  }

  function StateConnecting(m: Machine, env: Env): (r: (Machine, Next))
    requires Fits(m) && m.phase == Connecting
    ensures Steps(m, r)
  {
    if m.supl.None? then (m, Crash)
    else
      var (s, progress) := S.HandleConnection(m.supl.value, env.network);
      (m.(supl := Some(s)),
       match progress
       case Done => Goto(Connected)
       case WantRead => Wait(Connecting, Initial, Error)
       case WantWrite => Wait(Initial, Connecting, Error)
       case Failed => Goto(ConnectionFailed))
  }

  function StateHandshakeSend(m: Machine, env: Env): (r: (Machine, Next))
    requires Fits(m) && m.phase == HandshakeSend
    ensures Steps(m, r)
  {
    if m.supl.None? then (m, Crash)
    else
      var (s, ok) := S.Handshake(m.supl.value, env.startSent);
      if ok then (m.(supl := Some(s), log := m.log + [StartSent(m.connection)]), Wait(HandshakeRecv, Initial, Disconnected))
      else (m.(supl := Some(s)), Goto(Disconnected))
  }

  function StateHandshakeRecv(decode: S.Decoder, m: Machine, env: Env): (r: (Machine, Next))
    requires Fits(m) && m.phase == HandshakeRecv
    ensures Steps(m, r)
  {
    if m.supl.None? then (m, Crash)
    else
      var (s, result) := S.HandleHandshake(decode, m.supl.value, env.incoming, env.script);
      AfterHandshake(m.(supl := Some(s)), result)
  }

  function AfterHandshake(m: Machine, result: S.HandshakeResult): (r: (Machine, Next))
    requires Fits(m) && m.phase == HandshakeRecv
    ensures Steps(m, r)
  {
    match result
    case HandshakeNoData => (m, Wait(HandshakeRecv, Initial, Disconnected))
    case HandshakeError => (m, Wait(Initial, Initial, Disconnected))
    case HandshakeOk => (m.(log := m.log + [ResponseAccepted(m.connection)]), Goto(Posinit))
  }

  function StatePosinit(m: Machine, env: Env): (r: (Machine, Next))
    requires Fits(m) && m.phase == Posinit
    ensures Steps(m, r)
  {
    if m.supl.None? then (m, Crash)
    else if m.supl.value.tcp.TcpConnected? && env.posinitSent then
      (m.(log := m.log + [PosinitSent(m.connection)]), Goto(Established))
    else (m, Goto(Disconnected))
  }

  function StateMessage(decode: S.Decoder, m: Machine, env: Env): (r: (Machine, Next))
    requires S.Measured(decode) && Fits(m) && m.phase == Message
    ensures Steps(m, r)
  {
    if m.supl.None? || m.supl.value.tcp.NoClient? then (m, Crash)
    else
      var s := m.supl.value;
      var f := S.Fill(s.tcp.TcpConnected?, s.buffer, env.incoming, env.script);
      var s' := s.(buffer := f.buffer);
      if !f.ok then (m.(supl := Some(s')), Goto(Disconnected))
      else
        var d := DrainMessages(decode, s');
        (m.(supl := Some(d.supl), log := m.log + Handed(m.connection, d.payloads)), d.next)
  }

  /** The state function of the phase. */
  function Visit(decode: S.Decoder, m: Machine, env: Env): (r: (Machine, Next))
    requires S.Measured(decode) && Fits(m) && m.phase != Exit
    ensures Steps(m, r)
  {
    match m.phase
    case Initial => (m, Crash)
    case Connect => StateConnect(m, env)
    case Connecting => StateConnecting(m, env)
    case ConnectionFailed => (m, Goto(Disconnected))
    case Connected => (m, Goto(HandshakeSend))
    case Disconnected => (m, Goto(Exit))
    case Error => (m, Goto(Disconnected))
    case HandshakeSend => StateHandshakeSend(m, env)
    case HandshakeRecv => StateHandshakeRecv(decode, m, env)
    case Posinit => StatePosinit(m, env)
    case Established => (m, Wait(Message, Initial, Disconnected))
    case Message => StateMessage(decode, m, env)
  }

  /** One turn of the `process` loop, and whether the call returns. */
  function Turn(decode: S.Decoder, m: Machine, env: Env): (r: (Machine, bool))
    requires S.Measured(decode) && Fits(m) && m.phase != Exit
    ensures Fits(r.0) && (!r.1 ==> Rank(r.0.phase) < Rank(m.phase))
  {
    var (m1, next) := Visit(decode, m, env);
    match next
    case Goto(phase) => (m1.(phase := phase), false)
    case Crash => (m1.(crashed := true), true)
    case Wait(_, _, _) => (AfterWait(m1, next, env.validFd), true)
  }

  /** `process`: visit states until one waits or the session ends. */
  function Process(decode: S.Decoder, m: Machine, env: Env): (m': Machine)
    requires S.Measured(decode) && Fits(m)
    ensures Fits(m')
    decreases Rank(m.phase)
  {
    if m.phase == Exit then (if m.scheduled then m else m.(crashed := true))
    else
      var (m1, done) := Turn(decode, m, env);
      if done then m1 else Process(decode, m1, env)
  }

  /** The end of a call that waits: the wake-ups are armed if there is a session to wait for. */
  function AfterWait(m: Machine, next: Next, validFd: bool): Machine
    requires next.Wait?
  {
    if m.supl.None? || !m.scheduled || !validFd || m.supl.value.state.Disconnected?
    then m.(phase := Disconnected)
    else m.(nextRead := next.read, nextWrite := next.write, nextError := next.error)
  }

  // ------------------------------------------------------------------- runs

  datatype Step =
    | DoConnect
    | DoSchedule(env: Env)
    | DoRead(env: Env)
    | DoWrite(env: Env)
    | DoError(env: Env)
    | DoSend(sent: bool)
    | DoCancel

  /** A wake-up may come at any time, also a stray one; nothing happens after a crash. */
  function Apply(decode: S.Decoder, m: Machine, s: Step): (m': Machine)
    requires S.Measured(decode) && Fits(m)
    ensures Fits(m')
  {
    if m.crashed then m
    else
      match s
      case DoConnect => if m.phase == Initial || m.phase == Exit then m.(phase := Connect) else m
      case DoSchedule(env) => Process(decode, m.(scheduled := true), env)
      case DoRead(env) => Process(decode, m.(phase := m.nextRead), env)
      case DoWrite(env) => Process(decode, m.(phase := m.nextWrite), env)
      case DoError(env) => Process(decode, m.(phase := m.nextError), env)
      case DoSend(sent) =>
        if m.supl.Some? && !(m.supl.value.tcp.TcpConnected? && sent)
        then m.(supl := Some(S.Disconnect(m.supl.value))) else m
      case DoCancel =>
        if !m.scheduled then m.(crashed := true)
        else m.(phase := Exit, supl := None, scheduled := false)
  }

  function Run(decode: S.Decoder, m: Machine, steps: seq<Step>): (m': Machine)
    requires S.Measured(decode) && Fits(m)
    ensures Fits(m')
    decreases |steps|
  {
    if steps == [] then m else Run(decode, Apply(decode, m, steps[0]), steps[1..])
  }

  // -------------------------------------------------------------- invariant

  /** How far event e takes connection c: 1 START sent, 2 then RESPONSE accepted, 3 then POSINIT sent. */
  function Advance(stage: nat, e: Event, c: nat): (r: nat)
    requires stage <= 3
    ensures stage <= r <= 3
  {
    if stage == 0 && e == StartSent(c) then 1
    else if stage == 1 && e == ResponseAccepted(c) then 2
    else if stage == 2 && e == PosinitSent(c) then 3
    else stage
  }

  function Stage(log: seq<Event>, c: nat): (r: nat)
    ensures r <= 3
  {
    if log == [] then 0 else Advance(Stage(log[..|log| - 1], c), log[|log| - 1], c)
  }

  /** Every payload came when its own connection was at stage 3. */
  predicate Sound(log: seq<Event>) {
    log != [] ==>
      var before, e := log[..|log| - 1], log[|log| - 1];
      Sound(before) && (e.PayloadHanded? ==> Stage(before, e.connection) == 3)
  }

  lemma Append(log: seq<Event>, e: Event, c: nat)
    ensures Stage(log + [e], c) == Advance(Stage(log, c), e, c)
    ensures Sound(log + [e]) <==> Sound(log) && (e.PayloadHanded? ==> Stage(log, e.connection) == 3)
  {
    assert (log + [e])[..|log|] == log;
  }

  lemma {:induction false} AppendHanded(log: seq<Event>, c: nat, payloads: seq<seq<Byte>>)
    requires Sound(log) && (payloads != [] ==> Stage(log, c) == 3)
    ensures Sound(log + Handed(c, payloads)) && Stage(log + Handed(c, payloads), c) == Stage(log, c)
    decreases |payloads|
  {
    if payloads == [] {
      assert log + Handed(c, []) == log;
    } else {
      var front, last := payloads[..|payloads| - 1], payloads[|payloads| - 1];
      AppendHanded(log, c, front);
      Append(log + Handed(c, front), PayloadHanded(c, last), c);
      assert log + Handed(c, payloads) == (log + Handed(c, front)) + [PayloadHanded(c, last)];
    }
  }

  /** The current session can receive: it exists and its transport is up. */
  predicate Online(m: Machine) { m.supl.Some? && m.supl.value.tcp.TcpConnected? }

  /** What the three wake-ups may be armed for; a connecting session never reads messages next. */
  predicate Armed(phase: Phase, read: Phase, write: Phase, error: Phase) {
    && (read.Initial? || read.Connecting? || read.HandshakeRecv? || read.Message?)
    && (write.Initial? || write.Connecting?)
    && (error.Initial? || error.Error? || error.Disconnected?)
    && (write.Connecting? || phase.Connecting? ==> !read.Message?)
  }

  /** A phase and armed wake-ups fit how far the connection has come. */
  predicate InStep(phase: Phase, read: Phase, write: Phase, error: Phase, waiting: bool, online: bool, stage: nat) {
    Armed(phase, read, write, error) && stage >= Needs(phase, read, waiting, online)
  }

  /** How far the current connection must be, for what it is doing or about to do. */
  function Needs(phase: Phase, read: Phase, waiting: bool, online: bool): nat {
    if phase.Established? || ((phase.Message? || read.Message?) && online) then 3
    else if phase.Posinit? then 2
    else if waiting then 1
    else 0
  }

  predicate Waiting(m: Machine) { m.supl.Some? && m.supl.value.state.WaitForHandshake? }

  ghost predicate Invariant(m: Machine) {
    && Fits(m)
    && Sound(m.log)
    && InStep(m.phase, m.nextRead, m.nextWrite, m.nextError, Waiting(m), Online(m), Stage(m.log, m.connection))
  }

  /** Where a visited state leads keeps the invariant: at once, or armed for the next wake-up. */
  ghost predicate Follows(m: Machine, next: Next) {
    match next
    case Goto(phase) => Invariant(m.(phase := phase))
    case Crash => Sound(m.log)
    case Wait(read, write, error) =>
      && Invariant(m.(nextRead := read, nextWrite := write, nextError := error))
      && Invariant(m.(phase := Disconnected))
  }

  /** A connection rests in MESSAGE only after the whole handshake. */
  predicate Rests(m: Machine) { m.phase.Message? ==> Stage(m.log, m.connection) == 3 }

  /** A visit leaves no wait behind in MESSAGE before that, and never jumps there. */
  predicate Settles(m: Machine, next: Next) {
    match next
    case Goto(phase) => !phase.Message?
    case Crash => true
    case Wait(_, _, _) => Rests(m)
  }

  /** A visit that only appends to the log and never brings the transport up. */
  ghost predicate Extends(m: Machine, m1: Machine) {
    && m1.connection == m.connection && m1.phase == m.phase
    && m1.nextRead == m.nextRead && m1.nextWrite == m.nextWrite && m1.nextError == m.nextError
    && Fits(m1) && (Online(m1) ==> Online(m))
    && Sound(m1.log) && Stage(m1.log, m1.connection) >= Stage(m.log, m.connection)
    && (Waiting(m1) ==> Stage(m1.log, m1.connection) >= 1)
  }

  /** Such a visit keeps the invariant if it leads on only as far as the connection has come. */
  lemma ExtendsFollows(m: Machine, m1: Machine, next: Next)
    requires Invariant(m) && Extends(m, m1)
    requires var stage := Stage(m1.log, m1.connection);
             match next
             case Goto(phase) =>
               && (phase.Disconnected? || (phase.Posinit? && stage >= 2) || (phase.Established? && stage == 3))
             case Crash => true
             case Wait(read, write, error) =>
               && write.Initial? && error.Disconnected? && !m1.phase.Connecting? && (m1.phase.Message? ==> stage == 3)
               && (read.Initial? || read.HandshakeRecv? || (read.Message? && stage == 3))
    ensures Follows(m1, next) && Settles(m1, next)
  {
  }

  lemma MessageKeeps(decode: S.Decoder, m: Machine, env: Env)
    requires S.Measured(decode) && Invariant(m) && m.phase == Message
    ensures var r := StateMessage(decode, m, env); Follows(r.0, r.1) && Settles(r.0, r.1)
  {
    var r := StateMessage(decode, m, env);
    assert Extends(m, r.0) && (r.1.Wait? ==> Stage(r.0.log, r.0.connection) == 3) by {
      if m.supl.Some? && !m.supl.value.tcp.NoClient? {
        var s := m.supl.value;
        var f := S.Fill(s.tcp.TcpConnected?, s.buffer, env.incoming, env.script);
        if f.ok {
          AppendHanded(m.log, m.connection, DrainMessages(decode, s.(buffer := f.buffer)).payloads);
        }
      }
    }
    ExtendsFollows(m, r.0, r.1);
  }

  lemma AfterHandshakeKeeps(m: Machine, s: S.Supl, result: S.HandshakeResult)
    requires Invariant(m) && m.phase == HandshakeRecv && m.supl.Some?
    requires |s.buffer| <= S.CAPACITY && s.tcp == m.supl.value.tcp
    requires s.state == if result.HandshakeOk? then S.Connected else m.supl.value.state
    requires result.HandshakeOk? ==> Waiting(m)
    ensures var r := AfterHandshake(m.(supl := Some(s)), result); Follows(r.0, r.1) && Settles(r.0, r.1)
  {
    var r := AfterHandshake(m.(supl := Some(s)), result);
    assert Extends(m, r.0) && (r.1.Goto? ==> Stage(r.0.log, r.0.connection) >= 2) by {
      Append(m.log, ResponseAccepted(m.connection), m.connection);
    }
    ExtendsFollows(m, r.0, r.1);
  }

  lemma HandshakeRecvKeeps(decode: S.Decoder, m: Machine, env: Env)
    requires Invariant(m) && m.phase == HandshakeRecv
    ensures var r := StateHandshakeRecv(decode, m, env); Follows(r.0, r.1) && Settles(r.0, r.1)
  {
    if m.supl.Some? {
      var (s, result) := S.HandleHandshake(decode, m.supl.value, env.incoming, env.script);
      AfterHandshakeKeeps(m, s, result);
    }
  }

  lemma PosinitKeeps(m: Machine, env: Env)
    requires Invariant(m) && m.phase == Posinit
    ensures var r := StatePosinit(m, env); Follows(r.0, r.1) && Settles(r.0, r.1)
  {
    var r := StatePosinit(m, env);
    assert Extends(m, r.0) && (r.1 == Goto(Established) ==> Stage(r.0.log, r.0.connection) == 3) by {
      Append(m.log, PosinitSent(m.connection), m.connection);
    }
    ExtendsFollows(m, r.0, r.1);
  }

  lemma HandshakeSendKeeps(m: Machine, env: Env)
    requires Invariant(m) && m.phase == HandshakeSend
    ensures var r := StateHandshakeSend(m, env); Follows(r.0, r.1) && Settles(r.0, r.1)
  {
    if m.supl.Some? {
      var (s, ok) := S.Handshake(m.supl.value, env.startSent);
      if ok {
        StartSentKeeps(m, s);
      } else {
        GotoKeeps(m, Disconnected);
      }
    }
  }

  lemma StartSentKeeps(m: Machine, s: S.Supl)
    requires Invariant(m) && m.phase == HandshakeSend && m.supl.Some?
    requires |s.buffer| <= S.CAPACITY && s.tcp == m.supl.value.tcp
    ensures var m1 := m.(supl := Some(s), log := m.log + [StartSent(m.connection)]);
            var next := Wait(HandshakeRecv, Initial, Disconnected);
            Follows(m1, next) && Settles(m1, next)
  {
    Append(m.log, StartSent(m.connection), m.connection);
    ExtendsFollows(m, m.(supl := Some(s), log := m.log + [StartSent(m.connection)]), Wait(HandshakeRecv, Initial, Disconnected));
  }

  /** Any phase may be left for one that needs nothing. */
  lemma GotoKeeps(m: Machine, phase: Phase)
    requires Invariant(m) && (phase.Disconnected? || phase.HandshakeSend? || phase.Exit?)
    ensures Invariant(m.(phase := phase))
  {
  }

  /** Where a session that is neither waiting for the handshake nor in MESSAGE may go. */
  lemma FreshFollows(m1: Machine, next: Next)
    requires Fits(m1) && Sound(m1.log) && !Waiting(m1) && !m1.phase.Message?
    requires InStep(Disconnected, m1.nextRead, m1.nextWrite, m1.nextError, false, Online(m1), Stage(m1.log, m1.connection))
    requires match next
             case Goto(phase) => phase.Connected? || phase.ConnectionFailed? || phase.Disconnected?
             case Crash => true
             case Wait(read, write, error) =>
               && !Online(m1) && error.Error? && !m1.phase.Posinit? && !m1.phase.Established?
               && (read.Initial? || read.Connecting?) && (write.Initial? || write.Connecting?)
    ensures Follows(m1, next) && Settles(m1, next)
  {
  }

  /** A transport comes up only while the next read is not a message: readiness is never inherited
      from an earlier connection. */
  lemma ConnectingKeeps(m: Machine, env: Env)
    requires Invariant(m) && m.phase == Connecting
    ensures var r := StateConnecting(m, env); Follows(r.0, r.1) && Settles(r.0, r.1)
  {
    var r := StateConnecting(m, env);
    if m.supl.Some? && m.supl.value.state.Connecting? {
      FreshFollows(r.0, r.1);
    }
  }

  lemma ConnectKeeps(m: Machine, env: Env)
    requires Invariant(m) && m.phase == Connect
    ensures var r := StateConnect(m, env); Follows(r.0, r.1) && Settles(r.0, r.1)
  {
    var r := StateConnect(m, env);
    if m.supl.None? {
      FreshFollows(r.0, r.1);
    }
  }

  lemma VisitKeeps(decode: S.Decoder, m: Machine, env: Env)
    requires S.Measured(decode) && Invariant(m) && m.phase != Exit
    ensures var r := Visit(decode, m, env); Follows(r.0, r.1) && Settles(r.0, r.1)
  {
    match m.phase
    case Message => MessageKeeps(decode, m, env);
    case HandshakeRecv => HandshakeRecvKeeps(decode, m, env);
    case HandshakeSend => HandshakeSendKeeps(m, env);
    case Posinit => PosinitKeeps(m, env);
    case Connecting => ConnectingKeeps(m, env);
    case Connect => ConnectKeeps(m, env);
    case _ => PassingKeeps(decode, m, env);
  }

  /** The states that only lead on. */
  lemma PassingKeeps(decode: S.Decoder, m: Machine, env: Env)
    requires S.Measured(decode) && Invariant(m)
    requires m.phase in {Initial, ConnectionFailed, Connected, Disconnected, Error, Established}
    ensures var r := Visit(decode, m, env); Follows(r.0, r.1) && Settles(r.0, r.1)
  {
    GotoKeeps(m, Disconnected);
    GotoKeeps(m, HandshakeSend);
    GotoKeeps(m, Exit);
    if m.phase.Established? {
      ExtendsFollows(m, m, Wait(Message, Initial, Disconnected));
    }
  }

  /** What holds between calls. */
  ghost predicate Kept(m: Machine) {
    Fits(m) && Sound(m.log) && (!m.crashed ==> Invariant(m) && Rests(m))
  }

  /** The end of a call that waits. */
  lemma WaitKeeps(m1: Machine, next: Next, validFd: bool)
    requires next.Wait? && Follows(m1, next) && Settles(m1, next) && !m1.crashed
    ensures Kept(AfterWait(m1, next, validFd))
  {
  }

  lemma TurnKeeps(decode: S.Decoder, m: Machine, env: Env)
    requires S.Measured(decode) && Invariant(m) && m.phase != Exit && !m.crashed
    ensures var (m', done) := Turn(decode, m, env); if done then Kept(m') else Invariant(m') && !m'.crashed
  {
    VisitKeeps(decode, m, env);
    var (m1, next) := Visit(decode, m, env);
    if next.Wait? {
      WaitKeeps(m1, next, env.validFd);
    }
  }

  lemma {:induction false} ProcessKeeps(decode: S.Decoder, m: Machine, env: Env)
    requires S.Measured(decode) && Invariant(m) && !m.crashed
    ensures Kept(Process(decode, m, env))
    decreases Rank(m.phase)
  {
    if m.phase != Exit {
      TurnKeeps(decode, m, env);
      var (m1, done) := Turn(decode, m, env);
      if !done {
        ProcessKeeps(decode, m1, env);
      }
    }
  }

  /** Steps that run no state function. */
  lemma QuietKeeps(decode: S.Decoder, m: Machine, s: Step)
    requires S.Measured(decode) && Kept(m) && !m.crashed && (s.DoConnect? || s.DoSend? || s.DoCancel?)
    ensures Kept(Apply(decode, m, s))
  {
  }

  lemma ApplyKeeps(decode: S.Decoder, m: Machine, s: Step)
    requires S.Measured(decode) && Kept(m)
    ensures Kept(Apply(decode, m, s))
  {
    if !m.crashed {
      match s
      case DoSchedule(env) => ProcessKeeps(decode, m.(scheduled := true), env);
      case DoRead(env) => ProcessKeeps(decode, m.(phase := m.nextRead), env);
      case DoWrite(env) => ProcessKeeps(decode, m.(phase := m.nextWrite), env);
      case DoError(env) => ProcessKeeps(decode, m.(phase := m.nextError), env);
      case _ => QuietKeeps(decode, m, s);
    }
  }

  lemma {:induction false} RunKeeps(decode: S.Decoder, m: Machine, steps: seq<Step>)
    requires S.Measured(decode) && Kept(m)
    ensures Kept(Run(decode, m, steps))
    decreases |steps|
  {
    if steps != [] {
      ApplyKeeps(decode, m, steps[0]);
      RunKeeps(decode, Apply(decode, m, steps[0]), steps[1..]);
    }
  }

  // -------------------------------------------------------------- the result

  /** START sent, RESPONSE accepted and POSINIT sent, in this order, on connection c. */
  ghost predicate Ready(log: seq<Event>, c: nat) {
    exists i, j, k :: 0 <= i < j < k < |log|
      && log[i] == StartSent(c) && log[j] == ResponseAccepted(c) && log[k] == PosinitSent(c)
  }

  lemma {:induction false} StageEvents(log: seq<Event>, c: nat) returns (i: nat, j: nat, k: nat)
    ensures Stage(log, c) >= 1 ==> i < |log| && log[i] == StartSent(c)
    ensures Stage(log, c) >= 2 ==> i < j < |log| && log[j] == ResponseAccepted(c)
    ensures Stage(log, c) >= 3 ==> j < k < |log| && log[k] == PosinitSent(c)
  {
    i, j, k := 0, 0, 0;
    if log != [] {
      var n := |log| - 1;
      i, j, k := StageEvents(log[..n], c);
      var before, stage := Stage(log[..n], c), Stage(log, c);
      if before == 0 && stage == 1 { i := n; }
      if before == 1 && stage == 2 { j := n; }
      if before == 2 && stage == 3 { k := n; }
    }
  }

  lemma {:induction false} SoundPayloads(log: seq<Event>, p: nat)
    requires Sound(log) && p < |log| && log[p].PayloadHanded?
    ensures Ready(log[..p], log[p].connection)
  {
    var n := |log| - 1;
    if p == n {
      var i, j, k := StageEvents(log[..n], log[p].connection);
    } else {
      SoundPayloads(log[..n], p);
      assert log[..n][..p] == log[..p];
    }
  }

  /**
   Over every run of user calls and wake-ups: each LPP payload is handed over only after START was
   sent, RESPONSE accepted and POSINIT sent, in this order, on the same connection; and a session
   that rests in MESSAGE between calls has passed all three on its current connection, even if its
   transport has failed since.
   */
  lemma PayloadAfterHandshake(decode: S.Decoder, identity: I.Identity, steps: seq<Step>)
    requires S.Measured(decode)
    ensures var m := Run(decode, NewMachine(identity), steps);
            && (forall p :: 0 <= p < |m.log| && m.log[p].PayloadHanded? ==> Ready(m.log[..p], m.log[p].connection))
            && (!m.crashed && m.phase == Message ==> Ready(m.log, m.connection))
  {
    RunKeeps(decode, NewMachine(identity), steps);
    var m := Run(decode, NewMachine(identity), steps);
    forall p | 0 <= p < |m.log| && m.log[p].PayloadHanded? ensures Ready(m.log[..p], m.log[p].connection) {
      SoundPayloads(m.log, p);
    }
    var i, j, k := StageEvents(m.log, m.connection);
  }

  /**
   Inside one call a stray wake-up may also visit MESSAGE before the handshake: the read wake-up armed for an
   earlier connection. Then the transport is down, nothing is handed over, and the visit leads to DISCONNECTED or
   trips an assertion; with the transport up the handshake is complete.
   */
  lemma StrayVisit(decode: S.Decoder, m: Machine, env: Env)
    requires S.Measured(decode) && Invariant(m) && m.phase == Message
    ensures Online(m) ==> Stage(m.log, m.connection) == 3
    ensures var (m1, next) := Visit(decode, m, env);
            !Online(m) ==> m1.log == m.log && (next == Goto(Disconnected) || next == Crash)
  {
    if m.supl.Some? && !m.supl.value.tcp.NoClient? && !Online(m) {
      var s := m.supl.value;
      var f := S.Fill(false, s.buffer, env.incoming, env.script);
      var d := DrainMessages(decode, s.(buffer := f.buffer));
      assert m.log + Handed(m.connection, []) == m.log;
    }
  }

  // ---------------------------------------------------- what one call achieves

  /** The call ends without a crash in a phase, armed for these wake-ups. */
  predicate Waits(m: Machine, phase: Phase, read: Phase, write: Phase, error: Phase) {
    !m.crashed && m.phase == phase && m.nextRead == read && m.nextWrite == write && m.nextError == error
  }

  /** A session that is over. */
  predicate Over(m: Machine) { m.phase == Exit || m.phase == Disconnected }

  lemma Goes(decode: S.Decoder, m: Machine, env: Env, m1: Machine, phase: Phase)
    requires S.Measured(decode) && Fits(m) && m.phase != Exit && Visit(decode, m, env) == (m1, Goto(phase))
    ensures Fits(m1) && Process(decode, m, env) == Process(decode, m1.(phase := phase), env)
  {
  }

  lemma Stays(decode: S.Decoder, m: Machine, env: Env, m1: Machine, next: Next)
    requires S.Measured(decode) && Fits(m) && m.phase != Exit && Visit(decode, m, env) == (m1, next) && next.Wait?
    ensures Process(decode, m, env) == AfterWait(m1, next, env.validFd)
  {
  }

  /** From DISCONNECTED, and from what only leads there, a scheduled session exits. */
  lemma Leaves(decode: S.Decoder, m: Machine, env: Env)
    requires S.Measured(decode) && Fits(m)
    requires m.phase == Disconnected || m.phase == ConnectionFailed || m.phase == Error
    ensures Process(decode, m, env) == m.(phase := Exit, crashed := m.crashed || !m.scheduled)
  {
    if m.phase != Disconnected {
      Goes(decode, m, env, m, Disconnected);
    }
    Goes(decode, m.(phase := Disconnected), env, m.(phase := Disconnected), Exit);
  }

  /** Connecting: the session then waits for its transport exactly if the connection was started and there are a
      scheduler and a descriptor; otherwise it is over. */
  lemma ConnectLeg(decode: S.Decoder, m: Machine, env: Env)
    requires S.Measured(decode) && m.phase == Connect && m.supl.None? && !m.crashed
    ensures var m' := Process(decode, m, env);
            && (Waits(m', Connect, Connecting, Connecting, Error) <==> env.established && m.scheduled && env.validFd)
            && (!(env.established && m.scheduled && env.validFd) ==> Over(m'))
            && m'.log == m.log && m'.connection == m.connection + 1 && m'.scheduled == m.scheduled && m'.identity == m.identity
            && (env.established ==>
                  m'.supl == Some(S.Supl(S.Connecting, S.TcpConnecting, S.SetSession(true, 1024, m.identity), S.NO_SLP, [])))
  {
    var (m1, next) := Visit(decode, m, env);
    if env.established {
      Stays(decode, m, env, m1, next);
    } else {
      Goes(decode, m, env, m1, Disconnected);
      Leaves(decode, m1.(phase := Disconnected), env);
    }
  }

  /** A session connected again without a cancel still has its old SUPL session, and exits at once. */
  lemma ConnectAgain(decode: S.Decoder, m: Machine, env: Env)
    requires S.Measured(decode) && Fits(m) && m.phase == Connect && m.supl.Some?
    ensures Process(decode, m, env) == m.(phase := Exit, crashed := m.crashed || !m.scheduled)
  {
    Goes(decode, m, env, m, Disconnected);
    Leaves(decode, m.(phase := Disconnected), env);
  }

  /** The SUPL session that m waits on while its transport comes up. */
  predicate ComingUp(m: Machine) {
    !m.crashed && Fits(m) && m.phase == Connecting && m.supl.Some? && m.supl.value.state.Connecting? && m.supl.value.tcp.TcpConnecting?
  }

  /** START is sent and RESPONSE awaited exactly if the transport is up, START goes out and there are a scheduler and a
      descriptor; a transport that wants to read or write is waited for; otherwise the session is over. */
  lemma ConnectingLeg(decode: S.Decoder, m: Machine, env: Env)
    requires S.Measured(decode) && ComingUp(m)
    ensures var m' := Process(decode, m, env);
            var there := m.scheduled && env.validFd;
            && (Waits(m', HandshakeSend, HandshakeRecv, Initial, Disconnected) && m'.log == m.log + [StartSent(m.connection)]
                <==> env.network.Done? && env.startSent && there)
            && (Waits(m', Connecting, Connecting, Initial, Error) <==> env.network.WantRead? && there)
            && (Waits(m', Connecting, Initial, Connecting, Error) <==> env.network.WantWrite? && there)
            && (!there || env.network.Failed? || (env.network.Done? && !env.startSent) ==> Over(m'))
            && m'.connection == m.connection && m'.scheduled == m.scheduled
            && (env.network.Done? && env.startSent ==>
                  m'.supl == Some(S.Supl(S.WaitForHandshake, S.TcpConnected, m.supl.value.own.(isActive := true),
                                         m.supl.value.slp.(isActive := false), m.supl.value.buffer)))
  {
    var (m1, next) := Visit(decode, m, env);
    if next.Wait? {
      Stays(decode, m, env, m1, next);
    } else if env.network.Failed? {
      Goes(decode, m, env, m1, ConnectionFailed);
      Leaves(decode, m1.(phase := ConnectionFailed), env);
    } else {
      Goes(decode, m, env, m1, Connected);
      Goes(decode, m1.(phase := Connected), env, m1.(phase := Connected), HandshakeSend);
      StartLeg(decode, m1.(phase := HandshakeSend), env);
    }
  }

  lemma StartLeg(decode: S.Decoder, m: Machine, env: Env)
    requires S.Measured(decode) && Fits(m) && !m.crashed && m.phase == HandshakeSend && Online(m) && m.supl.value.state.Connected?
    ensures var m' := Process(decode, m, env);
            && m'.connection == m.connection && m'.scheduled == m.scheduled
            && (if env.startSent then
                  && m'.log == m.log + [StartSent(m.connection)] && m'.supl == Some(m.supl.value.(state := S.WaitForHandshake))
                  && (if m.scheduled && env.validFd then Waits(m', HandshakeSend, HandshakeRecv, Initial, Disconnected)
                      else m'.phase == Disconnected)
                else m'.log == m.log && m'.phase == Exit)
  {
    var (m1, next) := Visit(decode, m, env);
    if env.startSent {
      Stays(decode, m, env, m1, next);
    } else {
      Goes(decode, m, env, m1, Disconnected);
      Leaves(decode, m1.(phase := Disconnected), env);
    }
  }

  /** The receive buffer after the reads of a call. */
  function Read(m: Machine, env: Env): S.Filled
    requires Fits(m) && m.supl.Some?
  {
    S.Fill(m.supl.value.tcp.TcpConnected?, m.supl.value.buffer, env.incoming, env.script)
  }

  /** The first PDU behind the reads is a RESPONSE of this session, which waits for one with its transport up. */
  predicate Replied(decode: S.Decoder, m: Machine, env: Env)
    requires Fits(m) && m.supl.Some?
  {
    var f := Read(m, env);
    && m.supl.value.state.WaitForHandshake? && m.supl.value.tcp.TcpConnected? && f.ok
    && |f.buffer| >= 4 && decode(f.buffer).Ok? && decode(f.buffer).pdu.kind.Response? && S.Ours(m.supl.value, decode(f.buffer).pdu)
  }

  /**
   The reply: RESPONSE is accepted, POSINIT sent, and the session armed to read messages exactly if the reply is a
   RESPONSE of this session, POSINIT goes out, and there are a scheduler and a descriptor; without these three the
   session is over.
   */
  lemma HandshakeLeg(decode: S.Decoder, m: Machine, env: Env)
    requires S.Measured(decode) && Fits(m) && !m.crashed && m.phase == HandshakeRecv && m.supl.Some?
    ensures var m' := Process(decode, m, env);
            var there := m.scheduled && env.validFd;
            && (Waits(m', Established, Message, Initial, Disconnected)
                  && m'.log == m.log + [ResponseAccepted(m.connection), PosinitSent(m.connection)]
                <==> Replied(decode, m, env) && env.posinitSent && there)
            && (Replied(decode, m, env) && !(env.posinitSent && there) ==> Over(m'))
            && m'.connection == m.connection && m'.scheduled == m.scheduled
            && (Replied(decode, m, env) ==>
                  var pdu := decode(Read(m, env).buffer);
                  m'.supl == Some(S.ParseMessage(m.supl.value, pdu.pdu, S.Wants(true, true, false)).0
                                  .(state := S.Connected, buffer := S.Consume(Read(m, env).buffer, pdu.consumed))))
  {
    var s := m.supl.value;
    S.HandshakeIff(decode, s, env.incoming, env.script);
    var (m1, next) := Visit(decode, m, env);
    if Replied(decode, m, env) {
      S.HandshakeBinds(decode, s, env.incoming, env.script);
      Goes(decode, m, env, m1, Posinit);
      PosinitLeg(decode, m1.(phase := Posinit), env);
      TwoEvents(m.log, ResponseAccepted(m.connection), PosinitSent(m.connection));
    } else {
      Stays(decode, m, env, m1, next);
    }
  }

  /** No reply yet: while nothing complete has come from the transport the session keeps waiting to read; on anything
      else it no longer reads, and only an error moves it on. */
  lemma NoReplyLeg(decode: S.Decoder, m: Machine, env: Env)
    requires S.Measured(decode) && Fits(m) && !m.crashed && m.phase == HandshakeRecv && m.supl.Some? && !Replied(decode, m, env)
    ensures var s, f, m' := m.supl.value, Read(m, env), Process(decode, m, env);
            var nothingYet := s.state.WaitForHandshake? && s.tcp.TcpConnected? && f.ok && !(|f.buffer| >= 4 && decode(f.buffer).Ok?);
            && m'.log == m.log && m'.connection == m.connection && m'.supl.Some? && m'.supl.value.state == s.state
            && (m.scheduled && env.validFd && !s.state.Disconnected? ==>
                  Waits(m', HandshakeRecv, if nothingYet then HandshakeRecv else Initial, Initial, Disconnected))
            && (!m.scheduled || !env.validFd || s.state.Disconnected? ==> Over(m'))
  {
    var (m1, next) := Visit(decode, m, env);
    S.HandshakeIff(decode, m.supl.value, env.incoming, env.script);
    Stays(decode, m, env, m1, next);
  }

  lemma TwoEvents(log: seq<Event>, a: Event, b: Event)
    ensures log + [a] + [b] == log + [a, b]
  {
  }

  lemma PosinitLeg(decode: S.Decoder, m: Machine, env: Env)
    requires S.Measured(decode) && Fits(m) && !m.crashed && m.phase == Posinit && Online(m) && m.supl.value.state.Connected?
    ensures var m' := Process(decode, m, env);
            && m'.supl == m.supl && m'.connection == m.connection && m'.scheduled == m.scheduled
            && (if env.posinitSent then
                  && m'.log == m.log + [PosinitSent(m.connection)]
                  && (if m.scheduled && env.validFd then Waits(m', Established, Message, Initial, Disconnected)
                      else m'.phase == Disconnected)
                else m'.log == m.log && m'.phase == Exit)
  {
    var (m1, next) := Visit(decode, m, env);
    if env.posinitSent {
      Goes(decode, m, env, m1, Established);
      Stays(decode, m1.(phase := Established), env, m1.(phase := Established), Wait(Message, Initial, Disconnected));
    } else {
      Goes(decode, m, env, m1, Disconnected);
      Leaves(decode, m1.(phase := Disconnected), env);
    }
  }

  /** The PDUs at the front of a buffer, up to the first rejection or standstill. */
  ghost function Chunk(decode: S.Decoder, buffer: seq<Byte>): seq<S.Pdu>
    requires S.Measured(decode)
    decreases |buffer|
  {
    assert S.MeasuredAt(decode, buffer);
    if |buffer| >= 4 && decode(buffer).Ok? then [decode(buffer).pdu] + Chunk(decode, buffer[decode(buffer).consumed..]) else []
  }

  /** With a decoder that skips nothing those are all the PDUs of the greedy parse. */
  lemma {:induction false} ChunkIsGreedy(decode: S.Decoder, buffer: seq<Byte>)
    requires S.Measured(decode) && S.SkipsNothing(decode)
    ensures Chunk(decode, buffer) == S.Greedy(decode, buffer).pdus
    decreases |buffer|
  {
    assert S.MeasuredAt(decode, buffer) && S.NoSkipAt(decode, buffer);
    if |buffer| >= 4 && decode(buffer).Ok? {
      ChunkIsGreedy(decode, buffer[decode(buffer).consumed..]);
    }
  }

  /** What a session owes to a sequence of PDUs: the payloads of every POS of its own up to the first END of its own or
      message of another session, and whether there was none of these. Others are passed over. */
  function Owed(s: S.Supl, pdus: seq<S.Pdu>): (seq<seq<Byte>>, bool)
    decreases |pdus|
  {
    if pdus == [] then ([], true)
    else
      var p := pdus[0];
      if !((p.kind.End? || p.kind.Pos?) && p.setRef.Some? && p.slpRef.Some?) then Owed(s, pdus[1..])
      else if !S.Ours(s, p) || p.kind.End? then ([], false)
      else
        var bound := if s.slp.isActive then s else s.(slp := S.SlpSession(true, p.slpRef.value.id, p.slpRef.value.identity));
        var (payloads, goesOn) := Owed(bound, pdus[1..]);
        (p.lpp + payloads, goesOn)
  }

  lemma {:induction false} OwedIgnoresBuffer(s: S.Supl, buffer: seq<Byte>, pdus: seq<S.Pdu>)
    ensures Owed(s.(buffer := buffer), pdus) == Owed(s, pdus)
    decreases |pdus|
  {
    if pdus != [] {
      var p := pdus[0];
      OwedIgnoresBuffer(s, buffer, pdus[1..]);
      if p.setRef.Some? && p.slpRef.Some? {
        OwedIgnoresBuffer(s.(slp := S.SlpSession(true, p.slpRef.value.id, p.slpRef.value.identity)), buffer, pdus[1..]);
      }
    }
  }

  /** The receive loop hands over exactly what is owed to the PDUs in the buffer, and waits exactly if none ends it. */
  lemma {:induction false} DrainsOwed(decode: S.Decoder, s: S.Supl)
    requires S.Measured(decode) && s.tcp.TcpConnected?
    ensures var d := DrainMessages(decode, s);
            (d.payloads, d.next == Wait(Message, Initial, Disconnected)) == Owed(s, Chunk(decode, s.buffer))
    decreases |s.buffer|
  {
    assert S.MeasuredAt(decode, s.buffer);
    S.ReceiveAnswer(decode, s, S.Wants(false, true, true));
    S.ParseTakes(decode, s.buffer);
    if |s.buffer| >= 4 && decode(s.buffer).Ok? {
      var v := decode(s.buffer);
      var s1 := s.(buffer := s.buffer[v.consumed..]);
      S.MessageAnswer(s1, v.pdu, S.Wants(false, true, true));
      var (s', r) := S.ParseMessage(s1, v.pdu, S.Wants(false, true, true));
      OwedFirst(s, s1.buffer, v.pdu, Chunk(decode, s1.buffer));
      assert Chunk(decode, s.buffer) == [v.pdu] + Chunk(decode, s1.buffer);
      if r.GotPos? || r.Unsupported? {
        DrainsOwed(decode, s');
      }
    }
  }

  lemma OwedFirst(s: S.Supl, buffer: seq<Byte>, p: S.Pdu, rest: seq<S.Pdu>)
    ensures var (after, r) := S.ParseMessage(s.(buffer := buffer), p, S.Wants(false, true, true));
            Owed(s, [p] + rest) ==
              if r.Unsupported? then Owed(after, rest)
              else if r.GotPos? then (p.lpp + Owed(after, rest).0, Owed(after, rest).1)
              else ([], false)
  {
    assert ([p] + rest)[1..] == rest;
    S.MessageAnswer(s.(buffer := buffer), p, S.Wants(false, true, true));
    OwedIgnoresBuffer(s, buffer, rest);
    if p.setRef.Some? && p.slpRef.Some? {
      OwedIgnoresBuffer(s.(slp := S.SlpSession(true, p.slpRef.value.id, p.slpRef.value.identity)), buffer, rest);
    }
  }

  /** Each payload is logged once, in order, on the connection. */
  lemma {:induction false} HandedAt(c: nat, payloads: seq<seq<Byte>>)
    ensures |Handed(c, payloads)| == |payloads|
    ensures forall i :: 0 <= i < |payloads| ==> Handed(c, payloads)[i] == PayloadHanded(c, payloads[i])
    decreases |payloads|
  {
    if payloads != [] {
      HandedAt(c, payloads[..|payloads| - 1]);
    }
  }

  /**
   Messages: with its transport up, a call hands over the payloads owed to the PDUs behind its reads, each once and in
   order, and goes on waiting for messages exactly if the transport does not fail, none of them ends the session, and
   there are a scheduler and a descriptor; otherwise it is over.
   */
  lemma MessageLeg(decode: S.Decoder, m: Machine, env: Env)
    requires S.Measured(decode) && Fits(m) && !m.crashed && m.phase == Message && Online(m) && !m.supl.value.state.Disconnected?
    ensures var m', f := Process(decode, m, env), Read(m, env);
            var (payloads, goesOn) := Owed(m.supl.value, Chunk(decode, f.buffer));
            && m'.log == m.log + (if f.ok then Handed(m.connection, payloads) else [])
            && (Waits(m', Message, Message, Initial, Disconnected) <==> f.ok && goesOn && m.scheduled && env.validFd)
            && (!(f.ok && goesOn && m.scheduled && env.validFd) ==> Over(m'))
            && m'.connection == m.connection
  {
    var s, f := m.supl.value, Read(m, env);
    var (m1, next) := Visit(decode, m, env);
    OwedIgnoresBuffer(s, f.buffer, Chunk(decode, f.buffer));
    if f.ok {
      DrainsOwed(decode, s.(buffer := f.buffer));
    }
    if next.Wait? {
      Stays(decode, m, env, m1, next);
    } else {
      Goes(decode, m, env, m1, Disconnected);
      Leaves(decode, m1.(phase := Disconnected), env);
    }
  }

  /** An error wake-up ends a scheduled session that is armed for it. */
  lemma ErrorLeg(decode: S.Decoder, m: Machine, env: Env)
    requires S.Measured(decode) && Fits(m) && !m.crashed && m.scheduled && (m.nextError.Error? || m.nextError.Disconnected?)
    ensures Apply(decode, m, DoError(env)) == m.(phase := Exit)
  {
    Leaves(decode, m.(phase := m.nextError), env);
  }

  // ------------------------------------------------------- a session that succeeds

  /** Bytes that decode to a RESPONSE to the client's session, and bytes that decode to a POS of the same one. */
  ghost predicate Answers(decode: S.Decoder, identity: I.Identity, reply: seq<Byte>, pos: seq<Byte>) {
    && Whole(decode, reply) && Whole(decode, pos)
    && var r, p := decode(reply).pdu, decode(pos).pdu;
       && r.kind.Response? && p.kind.Pos? && Names(r, identity) && Names(p, identity)
       && p.slpRef.value.id == r.slpRef.value.id && I.SameIdentity(p.slpRef.value.identity, r.slpRef.value.identity)
  }

  predicate Whole(decode: S.Decoder, bytes: seq<Byte>) {
    4 <= |bytes| <= S.CAPACITY && decode(bytes).Ok? && decode(bytes).consumed == |bytes|
  }

  predicate Names(pdu: S.Pdu, identity: I.Identity) {
    && pdu.setRef.Some? && pdu.slpRef.Some? && pdu.setRef.value.id == 1024
    && I.SameIdentity(I.DecodedIdentity(pdu.setRef.value.setId), identity)
  }

  /** An outside that does its part, and sends these bytes. */
  function Kind(bytes: seq<Byte>): Env { Env(true, S.Done, true, true, bytes, [S.Got(|bytes|, false)], true) }

  lemma First(decode: S.Decoder, m: Machine, s: Step, rest: seq<Step>)
    requires S.Measured(decode) && Fits(m)
    ensures Run(decode, m, [s] + rest) == Run(decode, Apply(decode, m, s), rest)
  {
    assert ([s] + rest)[1..] == rest;
  }

  lemma KindReads(m: Machine, bytes: seq<Byte>)
    requires Fits(m) && m.supl.Some? && m.supl.value.tcp.TcpConnected? && m.supl.value.buffer == [] && |bytes| <= S.CAPACITY
    ensures Read(m, Kind(bytes)) == S.Filled(bytes, [], true)
  {
    assert bytes[..|bytes|] == bytes && bytes[|bytes|..] == [] && [] + bytes == bytes;
    assert [] + bytes[..|bytes|] == bytes;
  }

  /** A session that waits for its reply, with nothing received. */
  predicate Asking(m: Machine, identity: I.Identity) {
    && Waits(m, HandshakeSend, HandshakeRecv, Initial, Disconnected) && m.scheduled && m.connection == 1 && m.log == [StartSent(1)]
    && m.supl == Some(S.Supl(S.WaitForHandshake, S.TcpConnected, S.SetSession(true, 1024, identity), S.NO_SLP, []))
  }

  lemma ReachesConnecting(decode: S.Decoder, identity: I.Identity)
    requires S.Measured(decode)
    ensures var m := Apply(decode, Apply(decode, NewMachine(identity), DoConnect), DoSchedule(Kind([])));
            && Waits(m, Connect, Connecting, Connecting, Error) && m.scheduled && m.connection == 1 && m.log == []
            && m.supl == Some(S.Supl(S.Connecting, S.TcpConnecting, S.SetSession(true, 1024, identity), S.NO_SLP, []))
  {
    ConnectLeg(decode, Apply(decode, NewMachine(identity), DoConnect).(scheduled := true), Kind([]));
  }

  /** The descriptor's becoming writable, as it does when TCP connects, has the same effect as its becoming readable. */
  lemma EitherWakes(decode: S.Decoder, m: Machine, env: Env)
    requires S.Measured(decode) && Fits(m) && Waits(m, Connect, Connecting, Connecting, Error)
    ensures Apply(decode, m, DoRead(env)) == Process(decode, m.(phase := Connecting), env)
    ensures Apply(decode, m, DoWrite(env)) == Process(decode, m.(phase := Connecting), env)
  {
  }

  lemma ConnectingToAsking(decode: S.Decoder, m: Machine, identity: I.Identity)
    requires S.Measured(decode) && Waits(m, Connect, Connecting, Connecting, Error) && m.scheduled && m.connection == 1 && m.log == []
    requires m.supl == Some(S.Supl(S.Connecting, S.TcpConnecting, S.SetSession(true, 1024, identity), S.NO_SLP, []))
    ensures Asking(Process(decode, m.(phase := Connecting), Kind([])), identity)
  {
    ConnectingLeg(decode, m.(phase := Connecting), Kind([]));
  }

  lemma ReachesAsking(decode: S.Decoder, identity: I.Identity)
    requires S.Measured(decode)
    ensures var m1 := Apply(decode, NewMachine(identity), DoConnect);
            var m2 := Apply(decode, m1, DoSchedule(Kind([])));
            Asking(Apply(decode, m2, DoRead(Kind([]))), identity)
  {
    ReachesConnecting(decode, identity);
    var m := Apply(decode, Apply(decode, NewMachine(identity), DoConnect), DoSchedule(Kind([])));
    ConnectingToAsking(decode, m, identity);
    EitherWakes(decode, m, Kind([]));
  }

  /** A session bound by its reply that waits for messages, with an empty buffer. */
  predicate Listening(m: Machine, identity: I.Identity, slp: S.SlpRef) {
    && Waits(m, Established, Message, Initial, Disconnected) && m.scheduled && m.connection == 1
    && m.log == [StartSent(1), ResponseAccepted(1), PosinitSent(1)]
    && m.supl == Some(S.Supl(S.Connected, S.TcpConnected, S.SetSession(true, 1024, identity),
                             S.SlpSession(true, slp.id, slp.identity), []))
  }

  lemma ReachesListening(decode: S.Decoder, m: Machine, identity: I.Identity, reply: seq<Byte>)
    requires S.Measured(decode) && Asking(m, identity)
    requires Whole(decode, reply) && decode(reply).pdu.kind.Response? && Names(decode(reply).pdu, identity)
    ensures Listening(Apply(decode, m, DoRead(Kind(reply))), identity, decode(reply).pdu.slpRef.value)
  {
    var at, pdu := m.(phase := HandshakeRecv), decode(reply).pdu;
    KindReads(at, reply);
    HandshakeLeg(decode, at, Kind(reply));
    Bound(at.supl.value, pdu, identity, S.Consume(reply, decode(reply).consumed));
  }

  lemma Bound(s: S.Supl, pdu: S.Pdu, identity: I.Identity, rest: seq<Byte>)
    requires s == S.Supl(S.WaitForHandshake, S.TcpConnected, S.SetSession(true, 1024, identity), S.NO_SLP, [])
    requires pdu.kind.Response? && Names(pdu, identity)
    ensures S.ParseMessage(s, pdu, S.Wants(true, true, false)).0.(state := S.Connected, buffer := rest)
         == S.Supl(S.Connected, S.TcpConnected, S.SetSession(true, 1024, identity),
                   S.SlpSession(true, pdu.slpRef.value.id, pdu.slpRef.value.identity), rest)
  {
    S.MessageAnswer(s, pdu, S.Wants(true, true, false));
  }

  lemma HandsOver(decode: S.Decoder, m: Machine, identity: I.Identity, slp: S.SlpRef, pos: seq<Byte>)
    requires S.Measured(decode) && Listening(m, identity, slp)
    requires Whole(decode, pos) && decode(pos).pdu.kind.Pos? && Names(decode(pos).pdu, identity)
    requires decode(pos).pdu.slpRef.value.id == slp.id && I.SameIdentity(decode(pos).pdu.slpRef.value.identity, slp.identity)
    ensures var m' := Apply(decode, m, DoRead(Kind(pos)));
            && Waits(m', Message, Message, Initial, Disconnected)
            && m'.log == m.log + Handed(1, decode(pos).pdu.lpp)
  {
    var at, p := m.(phase := Message), decode(pos).pdu;
    KindReads(at, pos);
    assert pos[|pos|..] == [];
    assert Chunk(decode, pos) == [p] + Chunk(decode, []) == [p];
    assert [p][1..] == [];
    assert Owed(at.supl.value, [p]) == (p.lpp + [], true);
    assert p.lpp + [] == p.lpp;
    MessageLeg(decode, at, Kind(pos));
  }

  /** The calls of a session that succeeds. */
  function Calls(reply: seq<Byte>, pos: seq<Byte>): seq<Step> {
    [DoConnect] + ([DoSchedule(Kind([]))] + ([DoRead(Kind([]))] + ([DoRead(Kind(reply))] + ([DoRead(Kind(pos))] + []))))
  }

  /**
   With an outside that does its part a session succeeds: whatever the decoder and identity, once the server replies to
   the session and sends a POS of it, the run has START sent, RESPONSE accepted, POSINIT sent, and every payload of that
   POS handed over in order, and the session waits for more.
   */
  lemma SessionSucceeds(decode: S.Decoder, identity: I.Identity, reply: seq<Byte>, pos: seq<Byte>)
    requires S.Measured(decode) && Answers(decode, identity, reply, pos)
    ensures var m, payloads := Run(decode, NewMachine(identity), Calls(reply, pos)), decode(pos).pdu.lpp;
            && Waits(m, Message, Message, Initial, Disconnected)
            && |m.log| == 3 + |payloads| && m.log[..3] == [StartSent(1), ResponseAccepted(1), PosinitSent(1)]
            && forall i :: 0 <= i < |payloads| ==> m.log[3 + i] == PayloadHanded(1, payloads[i])
  {
    var m0 := NewMachine(identity);
    var m1 := Apply(decode, m0, DoConnect);
    var m2 := Apply(decode, m1, DoSchedule(Kind([])));
    var m3 := Apply(decode, m2, DoRead(Kind([])));
    var m4 := Apply(decode, m3, DoRead(Kind(reply)));
    var m5 := Apply(decode, m4, DoRead(Kind(pos)));
    ReachesAsking(decode, identity);
    ReachesListening(decode, m3, identity, reply);
    HandsOver(decode, m4, identity, decode(reply).pdu.slpRef.value, pos);
    HandedAt(1, decode(pos).pdu.lpp);
    var s1, s2, s3, s4, s5 := DoConnect, DoSchedule(Kind([])), DoRead(Kind([])), DoRead(Kind(reply)), DoRead(Kind(pos));
    First(decode, m0, s1, [s2] + ([s3] + ([s4] + ([s5] + []))));
    First(decode, m1, s2, [s3] + ([s4] + ([s5] + [])));
    First(decode, m2, s3, [s4] + ([s5] + []));
    First(decode, m3, s4, [s5] + []);
    First(decode, m4, s5, []);
    assert Run(decode, m5, []) == m5;
  }

  const RESPONSE_PDU: S.Pdu := S.Pdu(S.Response, POS_PDU.setRef, POS_PDU.slpRef, [])

  /** A decoder of four-byte PDUs: a leading one is a RESPONSE, anything else a POS. */
  function Simple(b: seq<Byte>): S.Verdict {
    if |b| < 4 then S.More else if b[0] == 1 then S.Ok(RESPONSE_PDU, 4) else S.Ok(POS_PDU, 4)
  }

  /** Such an outside exists. */
  lemma SomeServerAnswers()
    ensures S.Measured(Simple) && Answers(Simple, I.Ipv4([10, 0, 0, 1]), [1, 0, 0, 0], [2, 0, 0, 0])
  {
    forall b ensures S.MeasuredAt(Simple, b) {
    }
  }

  /** The calls of the user: connecting starts over only from the start or after an exit; a message that cannot be sent
      takes the session down; a cancel drops session and scheduler. */
  lemma CallAnswer(decode: S.Decoder, m: Machine, sent: bool)
    requires S.Measured(decode) && Fits(m) && !m.crashed
    ensures Apply(decode, m, DoConnect) == if m.phase == Initial || m.phase == Exit then m.(phase := Connect) else m
    ensures var after := Apply(decode, m, DoSend(sent));
            && (Online(m) && sent ==> after == m)
            && (!(Online(m) && sent) ==> !Online(after) && after == m.(supl := after.supl))
            && (!(Online(m) && sent) && m.supl.Some? && !m.supl.value.tcp.NoClient? ==> after.supl.Some? && !after.supl.value.own.isActive)
    ensures m.scheduled ==> Apply(decode, m, DoCancel) == m.(phase := Exit, supl := None, scheduled := false)
    ensures Apply(decode, m, DoCancel).crashed <==> !m.scheduled
  {
    if m.supl.Some? {
      S.DisconnectAnswer(m.supl.value);
    }
  }

  // ----------------------------------------------------- what a wait leaves

  /** The buffer that the receive loop parsed last. */
  ghost function LastTried(decode: S.Decoder, s: S.Supl): seq<Byte>
    requires S.Measured(decode)
    decreases |s.buffer|
  {
    var (s', received, pdu) := S.TryReceive(decode, s, S.Wants(false, true, true));
    S.ParseTakes(decode, s.buffer);
    if received.GotPos? || received.Unsupported? || received.GotResponse? then LastTried(decode, s') else s.buffer
  }

  /** When the receive loop waits, its last parse was at a standstill, and the buffer is drained, or it was a
      rejection, and what stands behind the bytes skipped is left unparsed. */
  lemma {:induction false} WaitLeaves(decode: S.Decoder, s: S.Supl)
    requires S.Measured(decode) && DrainMessages(decode, s).next.Wait?
    ensures var b, left := LastTried(decode, s), DrainMessages(decode, s).supl.buffer;
            && (S.Standstill(decode, b) || S.Rejected(decode, b))
            && (S.Standstill(decode, b) ==> left == b && S.Standstill(decode, left))
            && (S.Rejected(decode, b) ==> decode(b).consumed <= |b| && left == b[decode(b).consumed..])
    decreases |s.buffer|
  {
    var (s', received, pdu) := S.TryReceive(decode, s, S.Wants(false, true, true));
    S.ParseTakes(decode, s.buffer);
    S.ParseYieldsNothing(decode, s.buffer);
    if !received.NoData? {
      WaitLeaves(decode, s');
    }
  }

  /** When the receive loop waits, it leaves the remainder of the greedy parse exactly if what it leaves is at a
      standstill or stuck; so it is whenever the last verdict skipped no byte, and always with a decoder that skips
      none. */
  lemma WaitDrains(decode: S.Decoder, s: S.Supl)
    requires S.Measured(decode) && DrainMessages(decode, s).next.Wait?
    ensures var b, left := LastTried(decode, s), DrainMessages(decode, s).supl.buffer;
            && (left == S.Greedy(decode, s.buffer).rest <==> S.Standstill(decode, left) || S.StuckAt(decode, left))
            && (S.Standstill(decode, b) || S.StuckAt(decode, b) ==> left == S.Greedy(decode, s.buffer).rest)
            && (S.SkipsNothing(decode) ==> left == S.Greedy(decode, s.buffer).rest)
  {
    var b, left := LastTried(decode, s), DrainMessages(decode, s).supl.buffer;
    WaitLeaves(decode, s);
    LoopParsesGreedily(decode, s);
    S.GreedyFixed(decode, left);
    S.TakesNothing(decode, left);
    S.TakesNothing(decode, b);
    if S.StuckAt(decode, b) {
      assert b[0..] == b;
    }
  }

  /** The loop takes PDUs off the front of the greedy parse. */
  lemma {:induction false} LoopParsesGreedily(decode: S.Decoder, s: S.Supl)
    requires S.Measured(decode) && DrainMessages(decode, s).next.Wait?
    ensures S.Greedy(decode, DrainMessages(decode, s).supl.buffer).rest == S.Greedy(decode, s.buffer).rest
    decreases |s.buffer|
  {
    var (s', received, pdu) := S.TryReceive(decode, s, S.Wants(false, true, true));
    S.ParseTakes(decode, s.buffer);
    S.ParseIsGreedyStep(decode, s.buffer);
    if !received.NoData? {
      LoopParsesGreedily(decode, s');
    }
  }

  const POS_PDU: S.Pdu := S.Pdu(S.Pos, Some(S.SetRef(1024, I.Ipv4Id([10, 0, 0, 1]))), Some(S.SlpRef([0, 0, 0, 1], I.Fqdn("slp"))), [[7]])

  /** A decoder that rejects a leading zero byte, as uPER without skipping it, and otherwise takes four bytes. */
  function Picky(b: seq<Byte>): S.Verdict {
    if b != [] && b[0] == 0 then S.Fail(0) else if |b| < 4 then S.More else S.Ok(POS_PDU, 4)
  }

  /** A rejection blocks a connected session for good: the complete message behind it is not handed over while the
      session waits, and whatever arrives, nothing is consumed any more. Without the rejected byte it is handed over. */
  lemma RejectionStalls(w: S.World, steps: seq<S.Step>)
    requires w.supl.tcp.TcpConnected? && !w.supl.slp.isActive && w.supl.own == S.SetSession(true, 1024, I.Ipv4([10, 0, 0, 1]))
    requires w.supl.buffer == [0, 1, 1, 1, 1]
    ensures S.PrefixStable(Picky) && S.SkipsNothing(Picky) && S.StuckAt(Picky, w.supl.buffer)
    ensures var d := DrainMessages(Picky, w.supl);
            d.next == Wait(Message, Initial, Disconnected) && d.payloads == [] && d.supl.buffer == w.supl.buffer
    ensures S.Run(Picky, w, steps).consumed == w.consumed && S.Run(Picky, w, steps).pdus == w.pdus
    ensures DrainMessages(Picky, w.supl.(buffer := [1, 1, 1, 1])).payloads == [[7]]
  {
    PickyIsStable();
    var b := w.supl.buffer;
    S.FinalCases(Picky, b);
    assert b[..|b|] == b;
    S.StuckForever(Picky, w, b, steps);
    PosHanded(w.supl.(buffer := [1, 1, 1, 1]));
  }

  lemma PickyIsStable()
    ensures S.PrefixStable(Picky) && S.SkipsNothing(Picky)
  {
    forall b ensures S.MeasuredAt(Picky, b) && S.NoSkipAt(Picky, b) {
    }
    forall b, x ensures S.StableAt(Picky, b, x) {
    }
  }

  lemma PosHanded(s: S.Supl)
    requires S.Measured(Picky) && s.tcp.TcpConnected? && !s.slp.isActive
    requires s.own == S.SetSession(true, 1024, I.Ipv4([10, 0, 0, 1])) && s.buffer == [1, 1, 1, 1]
    ensures DrainMessages(Picky, s).payloads == [[7]]
  {
    var (s', received, pdu) := S.TryReceive(Picky, s, S.Wants(false, true, true));
    assert s'.buffer == [] && received.GotPos? && pdu == Some(POS_PDU);
    assert DrainMessages(Picky, s').payloads == [];
  }

  // -------------------------------------------------------------- the class

  lemma Regroup(a: seq<seq<Byte>>, b: seq<seq<Byte>>, c: seq<seq<Byte>>)
    ensures (a + b) + c == a + (b + c)
  {
  }

  /** The receive loop of `state_message` as it runs. */
  method ReceiveMessages(decode: S.Decoder, supl: S.Supl) returns (d: Drained)
    requires S.Measured(decode)
    ensures d == DrainMessages(decode, supl)
  {
    var s := supl;
    var payloads: seq<seq<Byte>> := [];
    while true
      invariant DrainMessages(decode, supl) ==
        DrainMessages(decode, s).(payloads := payloads + DrainMessages(decode, s).payloads)
      decreases |s.buffer|
    {
      var (s', received, pdu) := S.TryReceive(decode, s, S.Wants(false, true, true));
      S.ParseTakes(decode, s.buffer);
      if received.NoData? {
        return Drained(s', payloads, Wait(Message, Initial, Disconnected));
      } else if received.GotEnd? || received.SessionTerminated? || received.InvalidSession? {
        return Drained(s', payloads, Goto(Disconnected));
      } else if received.GotPos? {
        Regroup(payloads, pdu.value.lpp, DrainMessages(decode, s').payloads);
        payloads := payloads + pdu.value.lpp;
      }
      s := s';
    }
  }

  class Session {
    const identity: I.Identity
    var phase: Phase
    var nextRead: Phase
    var nextWrite: Phase
    var nextError: Phase
    var supl: Option<S.Supl>
    var scheduled: bool
    var connection: nat
    var log: seq<Event>
    var crashed: bool

    function Value(): Machine
      reads this
    {
      Machine(identity, phase, nextRead, nextWrite, nextError, supl, scheduled, connection, log, crashed)
    }

    constructor (identity: I.Identity)
      ensures Value() == NewMachine(identity)
    {
      this.identity := identity;
      phase, nextRead, nextWrite, nextError := Initial, Initial, Initial, Initial;
      supl, scheduled, connection, log, crashed := None, false, 0, [], false;
    }

    /** One turn of the `process` loop; `done` when it returns. */
    method TakeTurn(decode: S.Decoder, env: Env) returns (done: bool)
      requires S.Measured(decode) && Fits(Value()) && phase != Exit
      modifies this
      ensures (Value(), done) == Turn(decode, old(Value()), env)
    {
      var (m, next) := Visit(decode, Value(), env);
      supl, connection, log := m.supl, m.connection, m.log;
      done := !next.Goto?;
      match next {
        case Goto(p) => phase := p;
        case Crash => crashed := true;
        case Wait(_, _, _) => Arm(next, env.validFd);
      }
    }

    method Arm(next: Next, validFd: bool)
      requires next.Wait?
      modifies this
      ensures Value() == AfterWait(old(Value()), next, validFd)
    {
      if supl.None? || !scheduled || !validFd || supl.value.state.Disconnected? {
        phase := Disconnected;
      } else {
        nextRead, nextWrite, nextError := next.read, next.write, next.error;
      }
    }

    /** `process`: the loop ends because the rank of the state falls on every turn. */
    method ProcessStates(decode: S.Decoder, env: Env)
      requires S.Measured(decode) && Fits(Value())
      modifies this
      ensures Value() == Process(decode, old(Value()), env)
    {
      while phase != Exit
        invariant Fits(Value()) && Process(decode, Value(), env) == Process(decode, old(Value()), env)
        decreases Rank(phase)
      {
        var done := TakeTurn(decode, env);
        if done {
          return;
        }
      }
      if !scheduled {
        crashed := true;
      }
    }

    method ProcessRead(decode: S.Decoder, env: Env)
      requires S.Measured(decode) && Fits(Value()) && !crashed
      modifies this
      ensures Value() == Apply(decode, old(Value()), DoRead(env))
    {
      phase := nextRead;
      ProcessStates(decode, env);
    }

    method ProcessWrite(decode: S.Decoder, env: Env)
      requires S.Measured(decode) && Fits(Value()) && !crashed
      modifies this
      ensures Value() == Apply(decode, old(Value()), DoWrite(env))
    {
      phase := nextWrite;
      ProcessStates(decode, env);
    }

    method ProcessError(decode: S.Decoder, env: Env)
      requires S.Measured(decode) && Fits(Value()) && !crashed
      modifies this
      ensures Value() == Apply(decode, old(Value()), DoError(env))
    {
      phase := nextError;
      ProcessStates(decode, env);
    }

    method Cancel(decode: S.Decoder)
      requires S.Measured(decode) && Fits(Value()) && !crashed
      modifies this
      ensures Value() == Apply(decode, old(Value()), DoCancel)
    {
      if !scheduled {
        crashed := true;
        return;
      }
      phase, supl, scheduled := Exit, None, false;
    }
  }
}
