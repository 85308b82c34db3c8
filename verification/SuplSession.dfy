/**
 A SUPL session: it reassembles a byte stream into PDUs through a bounded buffer, binds to one
 SET/SLP session pair, and sends with partial writes. The transport and the ASN.1 decoder are
 outside; what they answer is a parameter.
 */
module SuplSession {
  import opened Basics
  import opened SuplIdentity

  /** UPER_DECODE_BUFFER_SIZE */
  const CAPACITY := 65536

  // --------------------------------------------------------------- messages

  datatype Kind = Response | End | Pos | OtherMessage

  datatype SetRef = SetRef(id: int, setId: SetId)
  datatype SlpRef = SlpRef(id: seq<Byte>, identity: Identity)

  /** A decoded ULP-PDU: its kind, the two optional session ids, the LPP payloads of a POS. */
  datatype Pdu = Pdu(kind: Kind, setRef: Option<SetRef>, slpRef: Option<SlpRef>, lpp: seq<seq<Byte>>)

  /** What the uPER decoder says about the bytes buffered so far. */
  datatype Verdict = Ok(pdu: Pdu, consumed: nat) | More | Fail(consumed: nat)

  type Decoder = seq<Byte> -> Verdict

  ghost predicate MeasuredAt(decode: Decoder, b: seq<Byte>) {
    match decode(b)
    case Ok(_, n) => 1 <= n <= |b|
    case More => true
    case Fail(n) => n <= |b|
  }

  /** A decoder takes at least a byte for a PDU and no more than it was given. */
  ghost predicate Measured(decode: Decoder) {
    forall b :: MeasuredAt(decode, b)
  }

  ghost predicate StableAt(decode: Decoder, b: seq<Byte>, x: seq<Byte>) {
    !decode(b).More? ==> decode(b + x) == decode(b)
  }

  /** More bytes never change a verdict that did not ask for more. */
  ghost predicate PrefixStable(decode: Decoder) {
    Measured(decode) && forall b, x :: StableAt(decode, b, x)
  }

  // ---------------------------------------------------------------- the state

  datatype State = Fresh | Connecting | Connected | WaitForHandshake | Disconnected

  datatype Tcp = NoClient | TcpDisconnected | TcpConnecting | TcpConnected

  datatype SetSession = SetSession(isActive: bool, id: int, identity: Identity)
  datatype SlpSession = SlpSession(isActive: bool, id: seq<Byte>, identity: Identity)

  datatype Supl = Supl(state: State, tcp: Tcp, own: SetSession, slp: SlpSession, buffer: seq<Byte>)

  const NO_SLP := SlpSession(false, [0, 0, 0, 0], Unknown)

  function NewSession(identity: Identity): Supl {
    Supl(Fresh, NoClient, SetSession(true, 1024, identity), NO_SLP, [])
  }

  datatype Progress = Done | WantRead | WantWrite | Failed

  datatype Received = Unsupported | InvalidSession | SessionTerminated | NoData | GotResponse | GotEnd | GotPos

  datatype Wants = Wants(response: bool, end: bool, pos: bool)

  /** One receive call of the transport: up to n bytes and whether decrypted data is left, or a status. */
  datatype Receive = Got(n: nat, pending: bool) | WouldBlock | Closed | ReceiveError

  // ------------------------------------------------------------- operations

  function Connect(s: Supl, established: bool): (Supl, bool) {
    if s.state != Fresh then (s, false)
    else if established then (s.(tcp := TcpConnecting, state := Connecting), true)
    else (s.(tcp := NoClient), false)
  }

  /** `TcpClient::handle_connection`: only a connecting client asks the network. */
  function TcpProgress(tcp: Tcp, network: Progress): Progress {
    if tcp.TcpConnected? then Done else if !tcp.TcpConnecting? then Failed else network
  }

  function HandleConnection(s: Supl, network: Progress): (Supl, Progress) {
    if s.state != Connecting || s.tcp.NoClient? then (s, Failed)
    else
      var progress := TcpProgress(s.tcp, network);
      match progress
      case Done =>
        (s.(tcp := TcpConnected, state := Connected, own := s.own.(isActive := true), slp := s.slp.(isActive := false)), Done)
      case Failed =>
        (s.(tcp := TcpDisconnected, state := Disconnected, own := s.own.(isActive := false), slp := s.slp.(isActive := false)), Failed)
      case _ => (s, progress)
  }

  function Disconnect(s: Supl): Supl {
    if s.tcp.NoClient? then s
    else s.(tcp := TcpDisconnected, own := s.own.(isActive := false), slp := s.slp.(isActive := false))
  }

  /** `handshake`; `sent` says that START could be encoded and handed over completely. */
  function Handshake(s: Supl, sent: bool): (Supl, bool) {
    if s.state == Connected && s.tcp.TcpConnected? && sent then (s.(state := WaitForHandshake), true) else (s, false)
  }

  function Consume(buffer: seq<Byte>, n: nat): seq<Byte> {
    if n >= |buffer| then [] else buffer[n..]
  }

  /** `parse_receive_buffer` */
  function Parse(decode: Decoder, buffer: seq<Byte>): (seq<Byte>, Option<Pdu>) {
    if |buffer| < 4 then (buffer, None)
    else
      match decode(buffer)
      case Ok(pdu, n) => (Consume(buffer, n), Some(pdu))
      case More => (buffer, None)
      case Fail(n) => (Consume(buffer, n), None)
  }

  datatype Filled = Filled(buffer: seq<Byte>, incoming: seq<Byte>, ok: bool)

  function Min(a: nat, b: nat): nat { if a < b then a else b }

  /** `fill_receive_buffer`: `incoming` is what the peer has sent and is not read yet, `script` how the
      transport answers; an exhausted script would block. */
  function Fill(connected: bool, buffer: seq<Byte>, incoming: seq<Byte>, script: seq<Receive>): (f: Filled)
    requires |buffer| <= CAPACITY
    ensures |f.buffer| <= CAPACITY
    decreases |script|
  {
    if |buffer| == CAPACITY then Filled(buffer, incoming, true)
    else if !connected then Filled(buffer, incoming, false)
    else if script == [] then Filled(buffer, incoming, true)
    else
      match script[0]
      case Got(n, pending) =>
        var k := Min(n, Min(CAPACITY - |buffer|, |incoming|));
        if pending then Fill(connected, buffer + incoming[..k], incoming[k..], script[1..])
        else Filled(buffer + incoming[..k], incoming[k..], true)
      case WouldBlock => Filled(buffer, incoming, true)
      case _ => Filled(buffer, incoming, false)
  }

  /** The sessions a PDU names; a PDU without both is not decodable as any message. */
  predicate HasSessions(pdu: Pdu) { pdu.setRef.Some? && pdu.slpRef.Some? }

  function Classify(pdu: Pdu, wants: Wants): Received {
    if !HasSessions(pdu) then Unsupported
    else if wants.response && pdu.kind.Response? then GotResponse
    else if wants.end && pdu.kind.End? then GotEnd
    else if wants.pos && pdu.kind.Pos? then GotPos
    else Unsupported
  }

  predicate SameSet(a: SetSession, b: SetSession) {
    a.id == b.id && a.isActive == b.isActive && SameIdentity(a.identity, b.identity)
  }

  predicate SameSlp(a: SlpSession, b: SlpSession) {
    a.id == b.id && a.isActive == b.isActive && SameIdentity(a.identity, b.identity)
  }

  /** `parse_message` */
  function ParseMessage(s: Supl, pdu: Pdu, wants: Wants): (Supl, Received) {
    var received := Classify(pdu, wants);
    if received.Unsupported? then (s, Unsupported)
    else
      var named := SetSession(true, pdu.setRef.value.id, DecodedIdentity(pdu.setRef.value.setId));
      var slp := SlpSession(true, pdu.slpRef.value.id, pdu.slpRef.value.identity);
      if !SameSet(named, s.own) then (s, InvalidSession)
      else if !s.slp.isActive then (s.(slp := slp), received)
      else if !SameSlp(slp, s.slp) then (s, InvalidSession)
      else (s, received)
  }

  predicate Accepts(r: Received) { r.GotResponse? || r.GotEnd? || r.GotPos? }

  /** `try_receive`, with the PDU it took from the buffer. */
  function TryReceive(decode: Decoder, s: Supl, wants: Wants): (Supl, Received, Option<Pdu>) {
    if !s.tcp.TcpConnected? then (s, SessionTerminated, None)
    else
      var (buffer, pdu) := Parse(decode, s.buffer);
      var s1 := s.(buffer := buffer);
      if pdu.None? then (s1, NoData, None)
      else
        var (s2, received) := ParseMessage(s1, pdu.value, wants);
        (s2, received, pdu)
  }

  datatype HandshakeResult = HandshakeOk | HandshakeError | HandshakeNoData

  /** `handle_handshake` */
  function HandleHandshake(decode: Decoder, s: Supl, incoming: seq<Byte>, script: seq<Receive>): (r: (Supl, HandshakeResult))
    requires |s.buffer| <= CAPACITY
    ensures |r.0.buffer| <= CAPACITY && r.0.tcp == s.tcp
    ensures r.0.state == if r.1.HandshakeOk? then Connected else s.state
    ensures r.1.HandshakeOk? ==> s.state.WaitForHandshake? && exists pdu :: AcceptedResponse(pdu, r.0)
  {
    if s.state != WaitForHandshake then (s, HandshakeError)
    else
      var f := Fill(s.tcp.TcpConnected?, s.buffer, incoming, script);
      var s1 := s.(buffer := f.buffer);
      if !f.ok then (s1, HandshakeError)
      else
        var (s2, received, pdu) := TryReceive(decode, s1, Wants(true, true, false));
        if received.NoData? then (s2, HandshakeNoData)
        else if !received.GotResponse? then (s2, HandshakeError)
        else
          assert AcceptedResponse(pdu.value, s2.(state := Connected));
          (s2.(state := Connected), HandshakeOk)
  }

  /** A RESPONSE of the session's own SET session and of the SLP session it is bound to. */
  ghost predicate AcceptedResponse(pdu: Pdu, s: Supl) {
    pdu.kind.Response? && s.slp.isActive && Belongs(pdu, s.own, s.slp.id)
  }

  /** One send call of the transport: bytes taken, would block (with the outcome of the poll), or failed. */
  datatype SendAnswer = SendOk(n: int) | SendWait(ready: bool) | SendFailed

  /** How many of the remaining bytes the transport is handed. */
  function HandedOver(script: seq<SendAnswer>, remaining: nat): (r: nat)
    ensures r <= remaining
    decreases |script|
  {
    if remaining == 0 || script == [] then 0
    else
      match script[0]
      case SendOk(n) =>
        if n <= 0 then 0
        else var k := Min(n, remaining); k + HandedOver(script[1..], remaining - k)
      case SendWait(ready) => if ready then HandedOver(script[1..], remaining) else 0
      case SendFailed => 0
  }

  /** An answer after which the sender tries again: some bytes taken, or a wait that ends in readiness. */
  predicate GoesOn(a: SendAnswer) { (a.SendOk? && a.n > 0) || (a.SendWait? && a.ready) }

  predicate AllGoOn(script: seq<SendAnswer>, k: nat) { k <= |script| && forall i :: 0 <= i < k ==> GoesOn(script[i]) }

  /** The bytes the first k answers report taken. */
  function Reported(script: seq<SendAnswer>, k: nat): int
    requires k <= |script|
  {
    if k == 0 then 0 else (if script[0].SendOk? then script[0].n else 0) + Reported(script[1..], k - 1)
  }

  /** The data is handed over completely exactly if answers that go on report as many bytes; otherwise, what the
      answers before the first that stops report. */
  lemma {:induction false} HandsOver(script: seq<SendAnswer>, remaining: nat)
    ensures HandedOver(script, remaining) == remaining
       <==> exists k: nat :: AllGoOn(script, k) && Reported(script, k) >= remaining
    ensures forall k: nat :: AllGoOn(script, k) && (k == |script| || !GoesOn(script[k])) && Reported(script, k) < remaining ==>
      HandedOver(script, remaining) == Reported(script, k)
    decreases |script|
  {
    if remaining == 0 {
      assert AllGoOn(script, 0) && Reported(script, 0) >= 0;
      forall k: nat | AllGoOn(script, k) ensures Reported(script, k) >= 0 {
        ReportedIsNat(script, k);
      }
    } else if script == [] || !GoesOn(script[0]) {
      assert forall k: nat :: AllGoOn(script, k) ==> k == 0;
    } else {
      var taken := if script[0].SendOk? then script[0].n else 0;
      var rest := remaining - Min(taken, remaining);
      HandsOver(script[1..], rest);
      assert HandedOver(script, remaining) == Min(taken, remaining) + HandedOver(script[1..], rest);
      forall k: nat | k > 0
        ensures AllGoOn(script, k) <==> AllGoOn(script[1..], k - 1)
        ensures AllGoOn(script, k) ==> Reported(script, k) == taken + Reported(script[1..], k - 1)
        ensures AllGoOn(script, k) ==> (Reported(script, k) >= remaining <==> taken >= remaining || Reported(script[1..], k - 1) >= rest)
        ensures k < |script| ==> script[k] == script[1..][k - 1]
      {
        TailGoesOn(script, k);
        if AllGoOn(script, k) {
          ReportedIsNat(script[1..], k - 1);
        }
      }
      Witness(script, taken, remaining, rest);
    }
  }

  lemma {:induction false} ReportedIsNat(script: seq<SendAnswer>, k: nat)
    requires AllGoOn(script, k)
    ensures Reported(script, k) >= 0
    decreases k
  {
    if k > 0 {
      TailGoesOn(script, k);
      ReportedIsNat(script[1..], k - 1);
    }
  }

  lemma TailGoesOn(script: seq<SendAnswer>, k: nat)
    requires script != [] && GoesOn(script[0]) && k > 0
    ensures AllGoOn(script, k) <==> AllGoOn(script[1..], k - 1)
  {
    if AllGoOn(script[1..], k - 1) {
      forall i | 0 <= i < k ensures GoesOn(script[i]) {
        assert i > 0 ==> script[i] == script[1..][i - 1];
      }
    }
  }

  /** Both sides of the claim in step: whether some answers suffice for all is whether they do for the rest. */
  lemma Witness(script: seq<SendAnswer>, taken: int, remaining: nat, rest: nat)
    requires script != [] && GoesOn(script[0]) && taken == (if script[0].SendOk? then script[0].n else 0)
    requires remaining > 0 && rest == remaining - Min(taken, remaining)
    ensures (exists k: nat :: AllGoOn(script, k) && Reported(script, k) >= remaining)
       <==> (exists k: nat :: AllGoOn(script[1..], k) && Reported(script[1..], k) >= rest)
  {
    if k: nat :| AllGoOn(script, k) && Reported(script, k) >= remaining {
      TailGoesOn(script, k);
      ReportedIsNat(script[1..], k - 1);
      assert AllGoOn(script[1..], k - 1) && Reported(script[1..], k - 1) >= rest;
    }
    if k: nat :| AllGoOn(script[1..], k) && Reported(script[1..], k) >= rest {
      TailGoesOn(script, k + 1);
      ReportedIsNat(script[1..], k);
      assert AllGoOn(script, k + 1) && Reported(script, k + 1) >= remaining;
    }
  }

  // ------------------------------------------------------------- reassembly

  datatype Parsed = Parsed(pdus: seq<Pdu>, rest: seq<Byte>)

  /** The reference: parse the whole stream greedily, skipping what the decoder rejects. */
  ghost function Greedy(decode: Decoder, s: seq<Byte>): Parsed
    requires Measured(decode)
    decreases |s|
  {
    assert MeasuredAt(decode, s);
    if |s| < 4 then Parsed([], s)
    else
      match decode(s)
      case Ok(pdu, n) => Before([pdu], Greedy(decode, s[n..]))
      case More => Parsed([], s)
      case Fail(n) => if n == 0 then Parsed([], s) else Greedy(decode, s[n..])
  }

  function Before(pdus: seq<Pdu>, p: Parsed): Parsed { Parsed(pdus + p.pdus, p.rest) }

  lemma BeforeAssociates(a: seq<Pdu>, b: seq<Pdu>, p: Parsed)
    ensures Before(a, Before(b, p)) == Before(a + b, p)
  {
    assert a + (b + p.pdus) == a + b + p.pdus;
  }

  /** Parsing may stop anywhere and go on when more bytes are there. */
  lemma {:induction false} GreedyExtend(decode: Decoder, s: seq<Byte>, x: seq<Byte>)
    requires PrefixStable(decode)
    ensures var g := Greedy(decode, s);
            Greedy(decode, s + x) == Before(g.pdus, Greedy(decode, g.rest + x))
    decreases |s|
  {
    assert MeasuredAt(decode, s) && StableAt(decode, s, x);
    if |s| >= 4 && !decode(s).More? && decode(s).consumed > 0 {
      var n := decode(s).consumed;
      assert (s + x)[n..] == s[n..] + x;
      GreedyExtend(decode, s[n..], x);
      if decode(s).Ok? {
        var g := Greedy(decode, s[n..]);
        BeforeAssociates([decode(s).pdu], g.pdus, Greedy(decode, g.rest + x));
      }
    }
  }

  /** How many bytes one parse takes off the front of the buffer. */
  function Taken(decode: Decoder, buffer: seq<Byte>): nat {
    if |buffer| < 4 || decode(buffer).More? then 0 else decode(buffer).consumed
  }

  lemma ParseTakes(decode: Decoder, buffer: seq<Byte>)
    requires Measured(decode)
    ensures var n := Taken(decode, buffer);
            n <= |buffer| && Parse(decode, buffer).0 == buffer[n..] && (Parse(decode, buffer).1.Some? ==> n > 0)
  {
    assert MeasuredAt(decode, buffer);
  }

  /** One parse of the buffer moves at most one PDU from the greedy parse to the output. */
  lemma ParseIsGreedyStep(decode: Decoder, buffer: seq<Byte>)
    requires Measured(decode)
    ensures var (after, pdu) := Parse(decode, buffer);
            Greedy(decode, buffer) == Before(if pdu.Some? then [pdu.value] else [], Greedy(decode, after))
  {
    ParseTakes(decode, buffer);
    var g := Greedy(decode, buffer);
    assert [] + g.pdus == g.pdus;
    if Taken(decode, buffer) == 0 {
      assert buffer[0..] == buffer;
    }
  }

  // ------------------------------------------------------------------- runs

  /** The session with its history: the bytes received, consumed and the PDUs taken, and those of
      them that were accepted as messages of this session. */
  datatype World = World(supl: Supl, received: seq<Byte>, consumed: seq<Byte>, pdus: seq<Pdu>, accepted: seq<Pdu>)

  datatype Step =
    | DoConnect(established: bool)
    | DoHandleConnection(network: Progress)
    | DoDisconnect
    | DoHandshake(sent: bool)
    | DoFill(incoming: seq<Byte>, script: seq<Receive>)
    | DoTryReceive(wants: Wants)
    | DoHandshakeDone

  function Start(identity: Identity): World { World(NewSession(identity), [], [], [], []) }

  function Apply(decode: Decoder, w: World, s: Step): (w': World)
    requires |w.supl.buffer| <= CAPACITY
    ensures |w'.supl.buffer| <= CAPACITY
  {
    match s
    case DoConnect(established) => w.(supl := Connect(w.supl, established).0)
    case DoHandleConnection(network) => w.(supl := HandleConnection(w.supl, network).0)
    case DoDisconnect => w.(supl := Disconnect(w.supl))
    case DoHandshake(sent) => w.(supl := Handshake(w.supl, sent).0)
    case DoFill(incoming, script) =>
      var f := Fill(w.supl.tcp.TcpConnected?, w.supl.buffer, incoming, script);
      w.(supl := w.supl.(buffer := f.buffer), received := w.received + Suffix(f.buffer, |w.supl.buffer|))
    case DoTryReceive(wants) =>
      var (s', r, pdu) := TryReceive(decode, w.supl, wants);
      World(s', w.received, w.consumed + Prefix(w.supl.buffer, |w.supl.buffer| - |s'.buffer|),
            if pdu.Some? then w.pdus + [pdu.value] else w.pdus,
            if pdu.Some? && Accepts(r) then w.accepted + [pdu.value] else w.accepted)
    case DoHandshakeDone =>
      if w.supl.state.WaitForHandshake? then w.(supl := w.supl.(state := Connected)) else w
  }

  function Suffix(s: seq<Byte>, n: nat): seq<Byte> { if n <= |s| then s[n..] else [] }
  function Prefix(s: seq<Byte>, n: int): seq<Byte> { if 0 <= n <= |s| then s[..n] else [] }

  lemma {:induction false} FillAppends(connected: bool, buffer: seq<Byte>, incoming: seq<Byte>, script: seq<Receive>)
    requires |buffer| <= CAPACITY
    ensures var f := Fill(connected, buffer, incoming, script);
            && |buffer| <= |f.buffer| <= CAPACITY && f.buffer[..|buffer|] == buffer
            && f.buffer + f.incoming == buffer + incoming
            && (!connected ==> f.buffer == buffer)
    decreases |script|
  {
    if |buffer| < CAPACITY && connected && script != [] && script[0].Got? {
      var k := Min(script[0].n, Min(CAPACITY - |buffer|, |incoming|));
      assert (buffer + incoming[..k]) + incoming[k..] == buffer + incoming;
      if script[0].pending {
        FillAppends(connected, buffer + incoming[..k], incoming[k..], script[1..]);
        var f := Fill(connected, buffer, incoming, script);
        assert f.buffer[..|buffer|] == f.buffer[..|buffer| + k][..|buffer|];
      }
    }
  }

  /** Nothing is lost or invented: consumed bytes plus buffer are the bytes received, and the PDUs
      taken plus a greedy parse of the buffer are the greedy parse of everything received. */
  ghost predicate Reassembled(decode: Decoder, w: World)
    requires Measured(decode)
  {
    && |w.supl.buffer| <= CAPACITY
    && w.consumed + w.supl.buffer == w.received
    && Greedy(decode, w.received) == Before(w.pdus, Greedy(decode, w.supl.buffer))
  }

  lemma ParseReassembles(decode: Decoder, w: World, wants: Wants)
    requires PrefixStable(decode) && Reassembled(decode, w)
    ensures Reassembled(decode, Apply(decode, w, DoTryReceive(wants)))
  {
    var b := w.supl.buffer;
    var w' := Apply(decode, w, DoTryReceive(wants));
    if w.supl.tcp.TcpConnected? {
      ParseTakes(decode, b);
      ParseIsGreedyStep(decode, b);
      var (after, pdu) := Parse(decode, b);
      var n := Taken(decode, b);
      assert w'.supl.buffer == after && w'.consumed == w.consumed + b[..n];
      assert (w.consumed + b[..n]) + b[n..] == w.consumed + b;
      BeforeAssociates(w.pdus, if pdu.Some? then [pdu.value] else [], Greedy(decode, after));
    } else {
      assert w'.consumed == w.consumed;
    }
  }

  lemma FillReassembles(decode: Decoder, w: World, incoming: seq<Byte>, script: seq<Receive>)
    requires PrefixStable(decode) && Reassembled(decode, w)
    ensures Reassembled(decode, Apply(decode, w, DoFill(incoming, script)))
  {
    var b := w.supl.buffer;
    FillAppends(w.supl.tcp.TcpConnected?, b, incoming, script);
    var w' := Apply(decode, w, DoFill(incoming, script));
    var x := w'.supl.buffer[|b|..];
    assert w'.supl.buffer == b + x && w'.received == w.received + x;
    assert w'.consumed + (b + x) == (w.consumed + b) + x;
    GreedyExtend(decode, w.received, x);
    GreedyExtend(decode, b, x);
    var g := Greedy(decode, b);
    BeforeAssociates(w.pdus, g.pdus, Greedy(decode, g.rest + x));
  }

  lemma ApplyReassembles(decode: Decoder, w: World, s: Step)
    requires PrefixStable(decode) && Reassembled(decode, w)
    ensures Reassembled(decode, Apply(decode, w, s))
  {
    if s.DoFill? {
      FillReassembles(decode, w, s.incoming, s.script);
    } else if s.DoTryReceive? {
      ParseReassembles(decode, w, s.wants);
    } else {
      OthersMoveNothing(decode, w, s);
      assert w.supl.buffer == Apply(decode, w, s).supl.buffer;
    }
  }

  lemma OthersMoveNothing(decode: Decoder, w: World, s: Step)
    requires |w.supl.buffer| <= CAPACITY && !s.DoFill? && !s.DoTryReceive?
    ensures var w' := Apply(decode, w, s);
            w'.supl.buffer == w.supl.buffer && w'.received == w.received && w'.consumed == w.consumed && w'.pdus == w.pdus
  {
  }

  function Run(decode: Decoder, w: World, steps: seq<Step>): (w': World)
    requires |w.supl.buffer| <= CAPACITY
    ensures |w'.supl.buffer| <= CAPACITY
    decreases |steps|
  {
    if steps == [] then w else Run(decode, Apply(decode, w, steps[0]), steps[1..])
  }

  lemma {:induction false} RunReassembles(decode: Decoder, w: World, steps: seq<Step>)
    requires PrefixStable(decode) && Reassembled(decode, w)
    ensures Reassembled(decode, Run(decode, w, steps))
    decreases |steps|
  {
    if steps != [] {
      ApplyReassembles(decode, w, steps[0]);
      RunReassembles(decode, Apply(decode, w, steps[0]), steps[1..]);
    }
  }

  /** The buffer holds no further PDU: it is too short, or the decoder asks for more. */
  predicate Standstill(decode: Decoder, buffer: seq<Byte>) { |buffer| < 4 || decode(buffer).More? }

  /** The decoder refuses what the buffer begins with. */
  predicate Rejected(decode: Decoder, buffer: seq<Byte>) { |buffer| >= 4 && decode(buffer).Fail? }

  ghost predicate Drained(decode: Decoder, w: World) { Standstill(decode, w.supl.buffer) }

  lemma StandstillIsGreedy(decode: Decoder, pdus: seq<Pdu>, buffer: seq<Byte>)
    requires Measured(decode) && Standstill(decode, buffer)
    ensures Before(pdus, Greedy(decode, buffer)) == Parsed(pdus, buffer)
  {
    assert MeasuredAt(decode, buffer);
  }

  lemma RunIsGreedy(decode: Decoder, identity: Identity, steps: seq<Step>)
    requires PrefixStable(decode)
    ensures var w := Run(decode, Start(identity), steps);
            && Greedy(decode, w.received) == Before(w.pdus, Greedy(decode, w.supl.buffer))
            && (Drained(decode, w) ==> Greedy(decode, w.received) == Parsed(w.pdus, w.supl.buffer))
  {
    RunReassembles(decode, Start(identity), steps);
    var w := Run(decode, Start(identity), steps);
    if Drained(decode, w) {
      StandstillIsGreedy(decode, w.pdus, w.supl.buffer);
    }
  }

  /**
   Reassembly does not depend on chunking. Two runs that received the same bytes, however these arrived and
   whenever the buffer was parsed, agree on the PDUs they took together with those still in the buffer, and on the
   remainder; both are the greedy parse of those bytes. When both are drained the PDUs taken and the buffers are
   the same.
   */
  lemma ChunkingIndependent(decode: Decoder, identity: Identity, steps: seq<Step>, steps': seq<Step>)
    requires PrefixStable(decode)
    requires Run(decode, Start(identity), steps).received == Run(decode, Start(identity), steps').received
    ensures var w, w' := Run(decode, Start(identity), steps), Run(decode, Start(identity), steps');
            && Greedy(decode, w.received) == Before(w.pdus, Greedy(decode, w.supl.buffer))
            && Before(w.pdus, Greedy(decode, w.supl.buffer)) == Before(w'.pdus, Greedy(decode, w'.supl.buffer))
            && (Drained(decode, w) ==> Greedy(decode, w.received) == Parsed(w.pdus, w.supl.buffer))
            && (Drained(decode, w) && Drained(decode, w') ==> w.pdus == w'.pdus && w.supl.buffer == w'.supl.buffer)
  {
    RunIsGreedy(decode, identity, steps);
    RunIsGreedy(decode, identity, steps');
  }

  /** One parse yields nothing exactly at a standstill, which it leaves alone, or on a rejection, which it skips. */
  lemma ParseYieldsNothing(decode: Decoder, buffer: seq<Byte>)
    requires Measured(decode)
    ensures Parse(decode, buffer).1.None? <==> Standstill(decode, buffer) || Rejected(decode, buffer)
    ensures Standstill(decode, buffer) ==> Parse(decode, buffer).0 == buffer
    ensures Rejected(decode, buffer) ==>
      decode(buffer).consumed <= |buffer| && Parse(decode, buffer).0 == buffer[decode(buffer).consumed..]
  {
    assert MeasuredAt(decode, buffer);
  }

  /** A rejection that skips no byte. */
  ghost predicate StuckAt(decode: Decoder, buffer: seq<Byte>) { |buffer| >= 4 && decode(buffer) == Fail(0) }

  /** The uPER decoder reports no byte consumed with a failure. */
  ghost predicate SkipsNothing(decode: Decoder) {
    forall b :: NoSkipAt(decode, b)
  }

  predicate NoSkipAt(decode: Decoder, b: seq<Byte>) { decode(b).Fail? ==> decode(b).consumed == 0 }

  /** A parse takes nothing off a buffer exactly at a standstill or when stuck. */
  lemma TakesNothing(decode: Decoder, buffer: seq<Byte>)
    requires Measured(decode)
    ensures Taken(decode, buffer) == 0 <==> Standstill(decode, buffer) || StuckAt(decode, buffer)
    ensures SkipsNothing(decode) ==> (Rejected(decode, buffer) <==> StuckAt(decode, buffer))
  {
    assert MeasuredAt(decode, buffer) && (SkipsNothing(decode) ==> NoSkipAt(decode, buffer));
  }

  /** A greedy parse leaves a buffer as it is exactly then. */
  lemma GreedyFixed(decode: Decoder, buffer: seq<Byte>)
    requires Measured(decode)
    ensures Greedy(decode, buffer).rest == buffer <==> Taken(decode, buffer) == 0
    ensures |Greedy(decode, buffer).rest| <= |buffer| - Taken(decode, buffer)
    decreases |buffer|
  {
    assert MeasuredAt(decode, buffer);
    if Taken(decode, buffer) > 0 {
      GreedyFixed(decode, buffer[Taken(decode, buffer)..]);
    }
  }

  // -------------------------------------------------------------- when it ends

  /** Nothing that still fits behind the buffer lets a parse take a byte. */
  ghost predicate Final(decode: Decoder, buffer: seq<Byte>) {
    forall x :: |buffer| + |x| <= CAPACITY ==> Taken(decode, buffer + x) == 0
  }

  /** The session goes on with the same bytes in front. */
  ghost predicate Waits(decode: Decoder, w: World, front: seq<Byte>) {
    && |w.supl.buffer| <= CAPACITY && |front| <= |w.supl.buffer| && w.supl.buffer[..|front|] == front
    && Final(decode, front)
  }

  lemma FillWaits(decode: Decoder, w: World, front: seq<Byte>, incoming: seq<Byte>, script: seq<Receive>)
    requires Waits(decode, w, front)
    ensures Waits(decode, Apply(decode, w, DoFill(incoming, script)), front)
  {
    var b := w.supl.buffer;
    FillAppends(w.supl.tcp.TcpConnected?, b, incoming, script);
    var after := Apply(decode, w, DoFill(incoming, script)).supl.buffer;
    assert after[..|front|] == after[..|b|][..|front|];
  }

  lemma ParseWaits(decode: Decoder, w: World, front: seq<Byte>, wants: Wants)
    requires Measured(decode) && Waits(decode, w, front)
    ensures var w' := Apply(decode, w, DoTryReceive(wants));
            w'.supl.buffer == w.supl.buffer && w'.pdus == w.pdus && w'.consumed == w.consumed
  {
    var b := w.supl.buffer;
    assert b == front + b[|front|..];
    assert Taken(decode, b) == 0;
    ParseTakes(decode, b);
    assert b[0..] == b && b[..0] == [];
  }

  /** From a final buffer nothing more is consumed or taken, whatever arrives and runs. */
  lemma {:induction false} StuckForever(decode: Decoder, w: World, front: seq<Byte>, steps: seq<Step>)
    requires Measured(decode) && Waits(decode, w, front)
    ensures var w' := Run(decode, w, steps);
            Waits(decode, w', front) && w'.pdus == w.pdus && w'.consumed == w.consumed
    decreases |steps|
  {
    if steps != [] {
      if steps[0].DoFill? {
        FillWaits(decode, w, front, steps[0].incoming, steps[0].script);
      } else if steps[0].DoTryReceive? {
        ParseWaits(decode, w, front, steps[0].wants);
      }
      StuckForever(decode, Apply(decode, w, steps[0]), front, steps[1..]);
    }
  }

  /** A connected session receives x, if it fits, in one call. */
  lemma ReceivesAll(decode: Decoder, w: World, x: seq<Byte>)
    requires w.supl.tcp.TcpConnected? && |w.supl.buffer| + |x| <= CAPACITY
    ensures var w1 := Apply(decode, w, DoFill(x, [Got(|x|, false)]));
            w1 == w.(supl := w.supl.(buffer := w.supl.buffer + x), received := w.received + x)
  {
    var b := w.supl.buffer;
    assert x[..|x|] == x && (b + x)[|b|..] == x;
    if |b| == CAPACITY {
      assert x == [] && b + x == b;
    }
  }

  lemma ParseConsumes(decode: Decoder, w: World, wants: Wants)
    requires Measured(decode) && w.supl.tcp.TcpConnected? && |w.supl.buffer| <= CAPACITY
    ensures |Apply(decode, w, DoTryReceive(wants)).consumed| == |w.consumed| + Taken(decode, w.supl.buffer)
  {
    ParseTakes(decode, w.supl.buffer);
  }

  lemma TwoSteps(decode: Decoder, w: World, a: Step, b: Step)
    requires |w.supl.buffer| <= CAPACITY
    ensures Run(decode, w, [a, b]) == Apply(decode, Apply(decode, w, a), b)
  {
    assert [a, b][1..] == [b] && [b][1..] == [];
    var w1 := Apply(decode, w, a);
    assert Run(decode, w1, [b]) == Run(decode, Apply(decode, w1, b), []);
  }

  /** Some bytes and a parse take a connected session further, unless its buffer is final. */
  lemma NextTwo(decode: Decoder, w: World) returns (steps: seq<Step>)
    requires Measured(decode) && w.supl.tcp.TcpConnected? && |w.supl.buffer| <= CAPACITY
    requires !Final(decode, w.supl.buffer)
    ensures Run(decode, w, steps).consumed != w.consumed
  {
    var x :| |w.supl.buffer| + |x| <= CAPACITY && Taken(decode, w.supl.buffer + x) != 0;
    var fill, take := DoFill(x, [Got(|x|, false)]), DoTryReceive(Wants(true, true, true));
    ReceivesAll(decode, w, x);
    ParseConsumes(decode, Apply(decode, w, fill), Wants(true, true, true));
    TwoSteps(decode, w, fill, take);
    steps := [fill, take];
  }

  /** A connected session goes on taking what arrives, on some continuation, if and only if its buffer is not final. */
  lemma EndsIff(decode: Decoder, w: World)
    requires Measured(decode) && w.supl.tcp.TcpConnected? && |w.supl.buffer| <= CAPACITY
    ensures (forall steps :: Run(decode, w, steps).consumed == w.consumed) <==> Final(decode, w.supl.buffer)
  {
    var b := w.supl.buffer;
    if Final(decode, b) {
      assert b[..|b|] == b;
      forall steps ensures Run(decode, w, steps).consumed == w.consumed {
        StuckForever(decode, w, b, steps);
      }
    } else {
      var steps := NextTwo(decode, w);
    }
  }

  /** Which buffers are final: a stuck one; a full one for which the decoder asks for more, since no byte is read any
      more; and otherwise one at a standstill that everything which still fits leaves at a standstill or stuck. */
  lemma FinalCases(decode: Decoder, buffer: seq<Byte>)
    requires PrefixStable(decode) && |buffer| <= CAPACITY
    ensures StuckAt(decode, buffer) ==> Final(decode, buffer)
    ensures |buffer| == CAPACITY && decode(buffer).More? ==> Final(decode, buffer) && !StuckAt(decode, buffer)
    ensures |buffer| == CAPACITY ==> (Final(decode, buffer) <==> Standstill(decode, buffer) || StuckAt(decode, buffer))
    ensures Final(decode, buffer) <==>
      || StuckAt(decode, buffer)
      || (Standstill(decode, buffer) &&
          forall x :: |buffer| + |x| <= CAPACITY ==> Standstill(decode, buffer + x) || StuckAt(decode, buffer + x))
  {
    assert buffer + [] == buffer;
    TakesNothing(decode, buffer);
    forall x | |buffer| + |x| <= CAPACITY
      ensures Taken(decode, buffer + x) == 0 <==> Standstill(decode, buffer + x) || StuckAt(decode, buffer + x)
      ensures StuckAt(decode, buffer) ==> StuckAt(decode, buffer + x)
      ensures |buffer| == CAPACITY ==> buffer + x == buffer
    {
      TakesNothing(decode, buffer + x);
      assert StableAt(decode, buffer, x);
    }
  }

  /** Whatever asks for more can be completed to a PDU that fits the buffer. */
  ghost predicate Completable(decode: Decoder) {
    forall b :: |b| < CAPACITY && Standstill(decode, b) ==> Completes(decode, b)
  }

  ghost predicate Completes(decode: Decoder, b: seq<Byte>) {
    exists x :: |b| + |x| <= CAPACITY && Taken(decode, b + x) > 0
  }

  /** With such a decoder a session ends exactly at a rejection that skips nothing or with a full buffer for which the
      decoder asks for more. */
  lemma FinalBuffers(decode: Decoder, buffer: seq<Byte>)
    requires PrefixStable(decode) && Completable(decode) && |buffer| <= CAPACITY
    ensures Final(decode, buffer) <==> StuckAt(decode, buffer) || (|buffer| == CAPACITY && decode(buffer).More?)
  {
    FinalCases(decode, buffer);
    if |buffer| < CAPACITY && Standstill(decode, buffer) {
      assert Completes(decode, buffer);
    }
  }

  function AlwaysMore(b: seq<Byte>): Verdict { More }

  /** The second way to end, with its input: a full buffer of zeros for which a decoder asks for more. */
  lemma FullBufferEnds(buffer: seq<Byte>)
    requires buffer == seq(CAPACITY, _ => 0)
    ensures PrefixStable(AlwaysMore) && Final(AlwaysMore, buffer) && !StuckAt(AlwaysMore, buffer)
  {
    forall b ensures MeasuredAt(AlwaysMore, b) {
    }
    forall b, x ensures StableAt(AlwaysMore, b, x) {
    }
    FinalCases(AlwaysMore, buffer);
  }

  /** A drained buffer has room for more bytes or is final; it has room if no PDU exceeds the buffer. */
  lemma DrainedHasRoom(decode: Decoder, w: World)
    requires PrefixStable(decode) && |w.supl.buffer| <= CAPACITY && Drained(decode, w)
    ensures |w.supl.buffer| < CAPACITY || Final(decode, w.supl.buffer)
    ensures (forall b :: |b| == CAPACITY ==> !decode(b).More?) ==> |w.supl.buffer| < CAPACITY
  {
    FinalCases(decode, w.supl.buffer);
  }

  // -------------------------------------------------------- session binding

  /** A message of this session: our own SET session and the given SLP session. */
  ghost predicate Belongs(pdu: Pdu, own: SetSession, slpId: seq<Byte>) {
    && HasSessions(pdu)
    && pdu.setRef.value.id == own.id
    && SameIdentity(DecodedIdentity(pdu.setRef.value.setId), own.identity)
    && pdu.slpRef.value.id == slpId
  }

  /** What every step keeps: being connected means the SET session is active; nothing is accepted
      before connecting; everything accepted belongs to one SET/SLP pair, the one now bound. */
  ghost predicate Bound(w: World, identity: Identity) {
    var s := w.supl;
    && s.own.id == 1024 && s.own.identity == identity
    && (s.tcp.TcpConnected? ==> s.own.isActive && !s.state.Fresh? && !s.state.Connecting?)
    && (s.state.Fresh? || s.state.Connecting? ==> w.accepted == [])
    && (w.accepted != [] ==> HasSessions(w.accepted[0]))
    && (w.accepted != [] && s.tcp.TcpConnected? ==> s.slp.isActive && s.slp.id == w.accepted[0].slpRef.value.id)
    && forall i :: 0 <= i < |w.accepted| ==> Belongs(w.accepted[i], s.own, w.accepted[0].slpRef.value.id)
  }

  lemma ApplyBinds(decode: Decoder, w: World, s: Step, identity: Identity)
    requires |w.supl.buffer| <= CAPACITY && Bound(w, identity)
    ensures Bound(Apply(decode, w, s), identity)
  {
  }

  /** Over every run: all accepted messages carry the client's own SET session and the SLP session id
      of the first one, and a connected session has its SET session active. */
  lemma {:induction false} RunBinds(decode: Decoder, w: World, steps: seq<Step>, identity: Identity)
    requires |w.supl.buffer| <= CAPACITY && Bound(w, identity)
    ensures Bound(Run(decode, w, steps), identity)
    decreases |steps|
  {
    if steps != [] {
      ApplyBinds(decode, w, steps[0], identity);
      RunBinds(decode, Apply(decode, w, steps[0]), steps[1..], identity);
    }
  }

  /** So for a session from its start. */
  lemma FreshRunBinds(decode: Decoder, identity: Identity, steps: seq<Step>)
    ensures Bound(Run(decode, Start(identity), steps), identity)
  {
    RunBinds(decode, Start(identity), steps, identity);
  }

  /** The message that binds a connected session is accepted when repeated exactly when its SLP
      identity is known: an unknown one never equals itself. */
  lemma RepeatAccepted(s: Supl, pdu: Pdu, wants: Wants)
    requires !s.slp.isActive && Accepts(ParseMessage(s, pdu, wants).1)
    ensures var s' := ParseMessage(s, pdu, wants).0;
            Accepts(ParseMessage(s', pdu, wants).1) <==> !pdu.slpRef.value.identity.Unknown?
  {
    SameIdentityIsEquality(pdu.slpRef.value.identity, pdu.slpRef.value.identity);
  }

  /** The first message of a server that echoes our SET session is accepted exactly when a numeric
      identity is below 10^16. */
  lemma EchoAccepted(s: Supl, pdu: Pdu, wants: Wants)
    requires s.own.isActive && !s.slp.isActive && !Classify(pdu, wants).Unsupported?
    requires s.own.identity.Msisdn? ==> s.own.identity.msisdn < UINT64
    requires s.own.identity.Imsi? ==> s.own.identity.imsi < UINT64
    requires pdu.setRef.value.id == s.own.id && EncodesIdentity(pdu.setRef.value.setId, s.own.identity)
    ensures Accepts(ParseMessage(s, pdu, wants).1) <==>
      && (s.own.identity.Msisdn? ==> s.own.identity.msisdn < Pow10(16))
      && (s.own.identity.Imsi? ==> s.own.identity.imsi < Pow10(16))
  {
    EchoPasses(s.own.identity, pdu.setRef.value.setId);
  }

  // -------------------------------------------------- what each call answers

  /** The bytes the first k receive calls offer. */
  function Offered(script: seq<Receive>, k: nat): nat
    requires k <= |script|
  {
    if k == 0 then 0 else (if script[0].Got? then script[0].n else 0) + Offered(script[1..], k - 1)
  }

  /** The first k receive calls leave data pending, and none of them finds the buffer full. */
  ghost predicate Draining(script: seq<Receive>, k: nat, room: nat, limit: nat) {
    k <= |script| && forall i :: 0 <= i < k ==> script[i].Got? && script[i].pending && Min(Offered(script, i), limit) < room
  }

  lemma DrainingRest(script: seq<Receive>, k: nat, room: nat, limit: nat)
    requires k > 0 && Draining(script, k, room, limit) && limit <= room
    ensures var m := Min(script[0].n, limit); Draining(script[1..], k - 1, room - m, limit - m)
  {
    var m := Min(script[0].n, limit);
    forall i | 0 <= i < k - 1
      ensures script[1..][i].Got? && script[1..][i].pending && Min(Offered(script[1..], i), limit - m) < room - m
    {
      assert Offered(script, i + 1) == script[0].n + Offered(script[1..], i);
    }
  }

  /** Call k is the last: the buffer is full, the script ends, or the call leaves nothing pending. */
  predicate LastRead(script: seq<Receive>, k: nat, room: nat, limit: nat)
    requires k <= |script|
  {
    Min(Offered(script, k), limit) == room || k == |script| || !(script[k].Got? && script[k].pending)
  }

  /** How many bytes are read by then, and whether the transport is still good. */
  function ReadSoFar(script: seq<Receive>, k: nat, room: nat, limit: nat): (nat, bool)
    requires k <= |script|
  {
    var moved := Min(Offered(script, k), limit);
    if moved == room || k == |script| then (moved, true)
    else
      match script[k]
      case Got(n, _) => (Min(Offered(script, k) + n, limit), true)
      case WouldBlock => (moved, true)
      case _ => (moved, false)
  }

  function FillTo(buffer: seq<Byte>, incoming: seq<Byte>, moved: nat, ok: bool): Filled
    requires moved <= |incoming|
  {
    Filled(buffer + incoming[..moved], incoming[moved..], ok)
  }

  /** A fill over a good transport moves that many bytes and answers so. */
  predicate Reads(buffer: seq<Byte>, incoming: seq<Byte>, script: seq<Receive>, moved: nat, ok: bool) {
    |buffer| <= CAPACITY && moved <= |incoming| && Fill(true, buffer, incoming, script) == FillTo(buffer, incoming, moved, ok)
  }

  lemma FillToComposes(buffer: seq<Byte>, incoming: seq<Byte>, m: nat, x: nat, ok: bool)
    requires m + x <= |incoming|
    ensures FillTo(buffer + incoming[..m], incoming[m..], x, ok) == FillTo(buffer, incoming, m + x, ok)
  {
    assert (buffer + incoming[..m]) + incoming[m..][..x] == buffer + incoming[..m + x];
    assert incoming[m..][x..] == incoming[m + x..];
  }

  lemma ReadShift(script: seq<Receive>, k: nat, room: nat, limit: nat)
    requires 0 < k <= |script| && script[0].Got? && limit <= room
    ensures var m := Min(script[0].n, limit);
            var (a, b) := (ReadSoFar(script, k, room, limit), ReadSoFar(script[1..], k - 1, room - m, limit - m));
            && a == (m + b.0, b.1)
            && (LastRead(script, k, room, limit) <==> LastRead(script[1..], k - 1, room - m, limit - m))
  {
    assert Offered(script, k) == script[0].n + Offered(script[1..], k - 1);
    assert k < |script| ==> script[k] == script[1..][k - 1];
  }

  lemma FillFirst(buffer: seq<Byte>, incoming: seq<Byte>, script: seq<Receive>)
    requires |buffer| < CAPACITY && script != [] && script[0].Got? && script[0].pending
    ensures var m := Min(script[0].n, Min(CAPACITY - |buffer|, |incoming|));
            Fill(true, buffer, incoming, script) == Fill(true, buffer + incoming[..m], incoming[m..], script[1..])
  {
  }

  lemma FillStep(buffer: seq<Byte>, incoming: seq<Byte>, script: seq<Receive>, room: nat, limit: nat, m: nat, x: nat, ok: bool)
    requires |buffer| + room == CAPACITY && limit == Min(room, |incoming|) && room > 0
    requires script != [] && script[0].Got? && script[0].pending
    requires m == Min(script[0].n, limit)
    requires Reads(buffer + incoming[..m], incoming[m..], script[1..], x, ok)
    ensures Reads(buffer, incoming, script, m + x, ok)
  {
    FillFirst(buffer, incoming, script);
    FillToComposes(buffer, incoming, m, x, ok);
  }

  lemma FillLast(buffer: seq<Byte>, incoming: seq<Byte>, script: seq<Receive>)
    requires |buffer| <= CAPACITY && LastRead(script, 0, CAPACITY - |buffer|, Min(CAPACITY - |buffer|, |incoming|))
    ensures var r := ReadSoFar(script, 0, CAPACITY - |buffer|, Min(CAPACITY - |buffer|, |incoming|));
            Reads(buffer, incoming, script, r.0, r.1)
  {
    assert buffer + incoming[..0] == buffer && incoming[0..] == incoming;
  }

  /**
   What a fill reads, when k calls leave data pending and call k is the last: as much as was offered, is there and
   fits. It stops when the buffer is full, a call leaves nothing pending, or one would block; only a closed or failed
   transport makes it fail.
   */
  lemma {:induction false} FillAnswer(buffer: seq<Byte>, incoming: seq<Byte>, script: seq<Receive>, k: nat, room: nat, limit: nat)
    requires |buffer| + room == CAPACITY && limit == Min(room, |incoming|)
    requires Draining(script, k, room, limit) && LastRead(script, k, room, limit)
    ensures var r := ReadSoFar(script, k, room, limit); Reads(buffer, incoming, script, r.0, r.1)
    decreases k, 1
  {
    if k == 0 {
      FillLast(buffer, incoming, script);
    } else {
      var m, x, ok := ReadsAfterFirst(script, k, room, limit);
      FillTail(buffer, incoming, script, k, room, limit, m, x, ok);
    }
  }

  /** What is left to read after the first of some pending reads. */
  lemma ReadsAfterFirst(script: seq<Receive>, k: nat, room: nat, limit: nat) returns (m: nat, x: nat, ok: bool)
    requires k > 0 && Draining(script, k, room, limit) && LastRead(script, k, room, limit) && limit <= room
    ensures script != [] && script[0].Got? && script[0].pending && 0 < room && m == Min(script[0].n, limit)
    ensures Draining(script[1..], k - 1, room - m, limit - m) && LastRead(script[1..], k - 1, room - m, limit - m)
    ensures (x, ok) == ReadSoFar(script[1..], k - 1, room - m, limit - m)
    ensures ReadSoFar(script, k, room, limit) == (m + x, ok)
  {
    m := FirstRead(script, k, room, limit);
    ReadShift(script, k, room, limit);
    DrainingRest(script, k, room, limit);
    var r := ReadSoFar(script[1..], k - 1, room - m, limit - m);
    x, ok := r.0, r.1;
  }

  /** The first of some pending reads. */
  lemma FirstRead(script: seq<Receive>, k: nat, room: nat, limit: nat) returns (m: nat)
    requires k > 0 && Draining(script, k, room, limit)
    ensures script != [] && script[0].Got? && script[0].pending && 0 < room && m == Min(script[0].n, limit)
  {
    assert Offered(script, 0) == 0;
    m := Min(script[0].n, limit);
  }

  lemma {:induction false} FillTail(
      buffer: seq<Byte>, incoming: seq<Byte>, script: seq<Receive>, k: nat, room: nat, limit: nat, m: nat, x: nat, ok: bool)
    requires |buffer| + room == CAPACITY && limit == Min(room, |incoming|) && room > 0
    requires 0 < k <= |script| && script[0].Got? && script[0].pending && m == Min(script[0].n, limit)
    requires Draining(script[1..], k - 1, room - m, limit - m)
    requires LastRead(script[1..], k - 1, room - m, limit - m) && (x, ok) == ReadSoFar(script[1..], k - 1, room - m, limit - m)
    ensures Reads(buffer, incoming, script, m + x, ok)
    decreases k, 0
  {
    FillAnswer(buffer + incoming[..m], incoming[m..], script[1..], k - 1, room - m, limit - m);
    FillStep(buffer, incoming, script, room, limit, m, x, ok);
  }

  lemma FillOffline(buffer: seq<Byte>, incoming: seq<Byte>, script: seq<Receive>)
    requires |buffer| <= CAPACITY
    ensures Fill(false, buffer, incoming, script) == Filled(buffer, incoming, |buffer| == CAPACITY)
  {
  }

  /** The message kinds the caller asks for. */
  predicate Wanted(pdu: Pdu, wants: Wants) {
    (wants.response && pdu.kind.Response?) || (wants.end && pdu.kind.End?) || (wants.pos && pdu.kind.Pos?)
  }

  /** A message of this session: our active SET session, and the SLP session bound, if any. */
  predicate Ours(s: Supl, pdu: Pdu) {
    && pdu.setRef.Some? && pdu.slpRef.Some?
    && s.own.isActive && pdu.setRef.value.id == s.own.id && SameIdentity(DecodedIdentity(pdu.setRef.value.setId), s.own.identity)
    && (s.slp.isActive ==> pdu.slpRef.value.id == s.slp.id && SameIdentity(pdu.slpRef.value.identity, s.slp.identity))
  }

  /** Every PDU is answered by exactly one of: unsupported, of another session, or its own kind; the first one of ours
      binds the SLP session. */
  lemma MessageAnswer(s: Supl, pdu: Pdu, wants: Wants)
    ensures var (after, r) := ParseMessage(s, pdu, wants);
            var readable := Wanted(pdu, wants) && pdu.setRef.Some? && pdu.slpRef.Some?;
            && (r.Unsupported? <==> !readable)
            && (r.InvalidSession? <==> readable && !Ours(s, pdu))
            && (r.GotResponse? <==> readable && Ours(s, pdu) && pdu.kind.Response?)
            && (r.GotEnd? <==> readable && Ours(s, pdu) && pdu.kind.End?)
            && (r.GotPos? <==> readable && Ours(s, pdu) && pdu.kind.Pos?)
            && after == if readable && Ours(s, pdu) && !s.slp.isActive
                        then s.(slp := SlpSession(true, pdu.slpRef.value.id, pdu.slpRef.value.identity)) else s
  {
  }

  /** One attempt to receive: terminated without a transport, else the first PDU in the buffer, else no data. */
  lemma ReceiveAnswer(decode: Decoder, s: Supl, wants: Wants)
    requires Measured(decode)
    ensures var (after, r, taken) := TryReceive(decode, s, wants);
            && (r.SessionTerminated? <==> !s.tcp.TcpConnected?)
            && (!s.tcp.TcpConnected? ==> after == s && taken == None)
            && (s.tcp.TcpConnected? && |s.buffer| >= 4 && decode(s.buffer).Ok? ==>
                  var v := decode(s.buffer);
                  v.consumed <= |s.buffer| && taken == Some(v.pdu)
                  && (after, r) == ParseMessage(s.(buffer := s.buffer[v.consumed..]), v.pdu, wants))
            && (s.tcp.TcpConnected? && !(|s.buffer| >= 4 && decode(s.buffer).Ok?) ==>
                  r.NoData? && taken == None && after == s.(buffer := after.buffer))
  {
    assert MeasuredAt(decode, s.buffer);
    ParseTakes(decode, s.buffer);
  }

  /** A handshake reply is accepted exactly if the session waits for it with its transport up, the transport does not
      fail, and the first PDU in the buffer is a RESPONSE of ours. */
  lemma HandshakeIff(decode: Decoder, s: Supl, incoming: seq<Byte>, script: seq<Receive>)
    requires Measured(decode) && |s.buffer| <= CAPACITY
    ensures var f := Fill(s.tcp.TcpConnected?, s.buffer, incoming, script);
            var (after, r) := HandleHandshake(decode, s, incoming, script);
            && (r.HandshakeOk? <==>
                  && s.state.WaitForHandshake? && s.tcp.TcpConnected? && f.ok
                  && |f.buffer| >= 4 && decode(f.buffer).Ok? && decode(f.buffer).pdu.kind.Response? && Ours(s, decode(f.buffer).pdu))
            && (r.HandshakeNoData? <==>
                  && s.state.WaitForHandshake? && s.tcp.TcpConnected? && f.ok && !(|f.buffer| >= 4 && decode(f.buffer).Ok?))
            && (r.HandshakeOk? ==> after.state.Connected? && after.slp.isActive)
            && (s.state.WaitForHandshake? && s.tcp.TcpConnected? && f.ok && |f.buffer| >= 4 && decode(f.buffer).Ok? ==>
                  after.buffer == Consume(f.buffer, decode(f.buffer).consumed))
  {
    var f := Fill(s.tcp.TcpConnected?, s.buffer, incoming, script);
    var s1 := s.(buffer := f.buffer);
    assert MeasuredAt(decode, f.buffer);
    ReceiveAnswer(decode, s1, Wants(true, true, false));
    if |f.buffer| >= 4 && decode(f.buffer).Ok? {
      MessageAnswer(s1.(buffer := f.buffer[decode(f.buffer).consumed..]), decode(f.buffer).pdu, Wants(true, true, false));
    }
  }

  /** The session after an accepted reply: bound by it, connected, with what stands behind it in the buffer. */
  lemma HandshakeBinds(decode: Decoder, s: Supl, incoming: seq<Byte>, script: seq<Receive>)
    requires Measured(decode) && |s.buffer| <= CAPACITY && HandleHandshake(decode, s, incoming, script).1.HandshakeOk?
    ensures var f := Fill(s.tcp.TcpConnected?, s.buffer, incoming, script);
            var v := decode(f.buffer);
            v.Ok? && HandleHandshake(decode, s, incoming, script).0 ==
              ParseMessage(s, v.pdu, Wants(true, true, false)).0.(state := Connected, buffer := Consume(f.buffer, v.consumed))
  {
    HandshakeIff(decode, s, incoming, script);
  }

  /**
   From a new session connecting, making progress and sending START leads to waiting for the handshake exactly if the
   connect call, the network and the send succeed; the session is then its own and bound to no SLP session, so that the
   reply binds it. When the network fails both sessions are inactive for good. Each call is refused in any other state.
   */
  lemma SetupAnswer(decode: Decoder, identity: Identity, established: bool, network: Progress, sent: bool)
    ensures var w := Run(decode, Start(identity), [DoConnect(established)] + ([DoHandleConnection(network)] + ([DoHandshake(sent)] + [])));
            && (w.supl.state.WaitForHandshake? <==> established && network.Done? && sent)
            && (w.supl.state.WaitForHandshake? ==>
                  w.supl == Supl(WaitForHandshake, TcpConnected, SetSession(true, 1024, identity), NO_SLP, []))
            && (established && network.Failed? ==>
                  w.supl == Supl(Disconnected, TcpDisconnected, SetSession(false, 1024, identity), NO_SLP, []))
            && (established && (network.WantRead? || network.WantWrite?) ==> w.supl.state.Connecting? && w.supl.tcp.TcpConnecting?)
    ensures Connect(NewSession(identity), established).1 == established
  {
    var s := Connect(NewSession(identity), established).0;
    var t := HandleConnection(s, network).0;
    assert Run(decode, Start(identity).(supl := Handshake(t, sent).0), []).supl == Handshake(t, sent).0;
    assert Run(decode, Start(identity).(supl := t), [DoHandshake(sent)] + []).supl == Handshake(t, sent).0;
  }

  /** Where a call of the setup is refused nothing changes, and the answer says so. Once connected, a session is its own
      and bound to no SLP session, whatever it was before. */
  lemma SetupRefused(s: Supl, established: bool, network: Progress, sent: bool)
    ensures !s.state.Fresh? ==> Connect(s, established) == (s, false)
    ensures !s.state.Connecting? || s.tcp.NoClient? ==> HandleConnection(s, network) == (s, Failed)
    ensures !s.state.Connected? || !s.tcp.TcpConnected? || !sent ==> Handshake(s, sent) == (s, false)
    ensures var (after, progress) := HandleConnection(s, network);
            progress.Done? ==> after.state.Connected? && after.tcp.TcpConnected? && after.own.isActive && !after.slp.isActive
  {
  }

  /** After a disconnect nothing is received, and neither session is active, if there was a transport. */
  lemma DisconnectAnswer(s: Supl)
    ensures var after := Disconnect(s);
            && !after.tcp.TcpConnected? && after.state == s.state && after.buffer == s.buffer
            && (!s.tcp.NoClient? ==> after.tcp.TcpDisconnected? && !after.own.isActive && !after.slp.isActive)
            && (s.tcp.NoClient? ==> after == s)
  {
  }

  // -------------------------------------------------------------- the class

  class Session {
    const decode: Decoder
    const buffer: array<Byte>
    var offset: nat
    var state: State
    var tcp: Tcp
    var own: SetSession
    var slp: SlpSession

    ghost predicate Valid()
      reads this
    {
      buffer.Length == CAPACITY && offset <= CAPACITY
    }

    ghost function Value(): Supl
      requires Valid()
      reads this, buffer
    {
      Supl(state, tcp, own, slp, buffer[..offset])
    }

    constructor (decode: Decoder, identity: Identity)
      ensures Valid() && fresh(buffer) && this.decode == decode
      ensures Value() == NewSession(identity)
    {
      this.decode := decode;
      buffer := new Byte[CAPACITY](_ => 0);
      offset, state, tcp := 0, Fresh, NoClient;
      own, slp := SetSession(true, 1024, identity), NO_SLP;
    }

    /** Shift the unread bytes to the front, as memmove does. */
    method RbConsume(bytes: nat)
      requires Valid()
      modifies `offset, buffer
      ensures Valid() && Value() == old(Value()).(buffer := Consume(old(buffer[..offset]), bytes))
    {
      if bytes >= offset {
        offset := 0;
        return;
      }
      var length := offset - bytes;
      var i := 0;
      while i < length
        invariant 0 <= i <= length
        invariant forall j :: 0 <= j < i ==> buffer[j] == old(buffer[j + bytes])
        invariant forall j :: i <= j < CAPACITY ==> buffer[j] == old(buffer[j])
      {
        buffer[i] := buffer[i + bytes];
        i := i + 1;
      }
      offset := length;
    }

    method ParseReceiveBuffer() returns (pdu: Option<Pdu>)
      requires Valid()
      modifies `offset, buffer
      ensures Valid()
      ensures var (after, p) := Parse(decode, old(buffer[..offset]));
              pdu == p && Value() == old(Value()).(buffer := after)
    {
      if offset < 4 {
        return None;
      }
      match decode(buffer[..offset]) {
        case Ok(p, n) =>
          RbConsume(n);
          pdu := Some(p);
        case More => pdu := None;
        case Fail(n) =>
          RbConsume(n);
          pdu := None;
      }
    }

    /** What a receive call writes behind the unread bytes. */
    method AppendBytes(data: seq<Byte>)
      requires Valid() && offset + |data| <= CAPACITY
      modifies `offset, buffer
      ensures Valid() && buffer[..offset] == old(buffer[..offset]) + data
    {
      forall i | 0 <= i < |data| { buffer[offset + i] := data[i]; }
      offset := offset + |data|;
    }

    method FillReceiveBuffer(incoming: seq<Byte>, script: seq<Receive>) returns (ok: bool, unread: seq<Byte>)
      requires Valid()
      modifies `offset, buffer
      ensures Valid()
      ensures var f := Fill(tcp.TcpConnected?, old(buffer[..offset]), incoming, script);
              ok == f.ok && unread == f.incoming && Value() == old(Value()).(buffer := f.buffer)
    {
      unread := incoming;
      var answers := script;
      while true
        invariant Valid()
        invariant Fill(tcp.TcpConnected?, buffer[..offset], unread, answers)
               == Fill(tcp.TcpConnected?, old(buffer[..offset]), incoming, script)
        decreases |answers|
      {
        var size := CAPACITY - offset;
        if size == 0 {
          return true, unread;
        }
        if !tcp.TcpConnected? {
          return false, unread;
        }
        if answers == [] {
          return true, unread;
        }
        match answers[0] {
          case Got(n, pending) =>
            var k := Min(n, Min(size, |unread|));
            AppendBytes(unread[..k]);
            unread := unread[k..];
            if !pending {
              return true, unread;
            }
          case WouldBlock => return true, unread;
          case Closed => return false, unread;
          case ReceiveError => return false, unread;
        }
        answers := answers[1..];
      }
    }

    method Interpret(pdu: Pdu, wants: Wants) returns (received: Received)
      requires Valid()
      modifies `slp
      ensures (Value(), received) == ParseMessage(old(Value()), pdu, wants)
    {
      received := Classify(pdu, wants);
      if received.Unsupported? {
        return;
      }
      var named := SetSession(true, pdu.setRef.value.id, DecodedIdentity(pdu.setRef.value.setId));
      var server := SlpSession(true, pdu.slpRef.value.id, pdu.slpRef.value.identity);
      if !SameSet(named, own) {
        return InvalidSession;
      }
      if !slp.isActive {
        slp := server;
      } else if !SameSlp(server, slp) {
        received := InvalidSession;
      }
    }

    method TryReceiveMessage(wants: Wants) returns (received: Received, pdu: Option<Pdu>)
      requires Valid()
      modifies `offset, `slp, buffer
      ensures Valid() && (Value(), received, pdu) == TryReceive(decode, old(Value()), wants)
    {
      if !tcp.TcpConnected? {
        return SessionTerminated, None;
      }
      pdu := ParseReceiveBuffer();
      if pdu.None? {
        return NoData, None;
      }
      received := Interpret(pdu.value, wants);
    }

    method HandleHandshakeReply(incoming: seq<Byte>, script: seq<Receive>) returns (result: HandshakeResult)
      requires Valid()
      modifies this, buffer
      ensures Valid() && (Value(), result) == HandleHandshake(decode, old(Value()), incoming, script)
    {
      if state != WaitForHandshake {
        return HandshakeError;
      }
      var ok, _ := FillReceiveBuffer(incoming, script);
      if !ok {
        return HandshakeError;
      }
      var received, _ := TryReceiveMessage(Wants(true, true, false));
      if received.NoData? {
        return HandshakeNoData;
      }
      if !received.GotResponse? {
        return HandshakeError;
      }
      state := Connected;
      result := HandshakeOk;
    }

    method StartConnection(established: bool) returns (ok: bool)
      requires Valid()
      modifies `state, `tcp
      ensures (Value(), ok) == Connect(old(Value()), established)
    {
      if state != Fresh {
        return false;
      }
      if !established {
        tcp := NoClient;
        return false;
      }
      tcp, state := TcpConnecting, Connecting;
      ok := true;
    }

    method StopConnection()
      requires Valid()
      modifies `tcp, `own, `slp
      ensures Value() == Disconnect(old(Value()))
    {
      if !tcp.NoClient? {
        own, slp := own.(isActive := false), slp.(isActive := false);
        tcp := TcpDisconnected;
      }
    }

    method SendStart(sent: bool) returns (ok: bool)
      requires Valid()
      modifies `state
      ensures (Value(), ok) == Handshake(old(Value()), sent)
    {
      if state != Connected || !tcp.TcpConnected? || !sent {
        return false;
      }
      state := WaitForHandshake;
      ok := true;
    }

    method SetConnectionProgress(network: Progress) returns (progress: Progress)
      requires Valid()
      modifies `state, `tcp, `own, `slp
      ensures (Value(), progress) == HandleConnection(old(Value()), network)
    {
      if state != Connecting || tcp.NoClient? {
        return Failed;
      }
      progress := TcpProgress(tcp, network);
      match progress {
        case Done =>
          tcp, state := TcpConnected, Connected;
          own, slp := own.(isActive := true), slp.(isActive := false);
        case Failed =>
          tcp, state := TcpDisconnected, Disconnected;
          own, slp := own.(isActive := false), slp.(isActive := false);
        case WantRead =>
        case WantWrite =>
      }
    }

    /** The transport is handed a prefix of the data, all of it exactly once when the result is true. */
    method SendAll(data: seq<Byte>, script: seq<SendAnswer>) returns (ok: bool, handed: seq<Byte>)
      ensures handed == data[..HandedOver(script, |data|)]
      ensures ok <==> handed == data
      ensures ok <==> exists k: nat :: AllGoOn(script, k) && Reported(script, k) >= |data|
      ensures forall k: nat :: AllGoOn(script, k) && (k == |script| || !GoesOn(script[k])) && Reported(script, k) < |data| ==>
        |handed| == Reported(script, k)
    {
      HandsOver(script, |data|);
      handed := [];
      var answers := script;
      while |handed| < |data|
        invariant handed <= data
        invariant |handed| + HandedOver(answers, |data| - |handed|) == HandedOver(script, |data|)
        decreases |answers|
      {
        var remaining := |data| - |handed|;
        if answers == [] {
          return false, handed;
        }
        match answers[0] {
          case SendOk(n) =>
            if n <= 0 {
              return false, handed;
            }
            var k := Min(n, remaining);
            handed := handed + data[|handed|..|handed| + k];
          case SendWait(ready) =>
            if !ready {
              return false, handed;
            }
          case SendFailed => return false, handed;
        }
        answers := answers[1..];
      }
      ok := true;
    }
  }
}
