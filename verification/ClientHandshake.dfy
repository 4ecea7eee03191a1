/** ssl_client_handshake for TLS 1.0 to 1.2 and DTLS, one function per do_* step, and what holds of
    every run against an arbitrary peer. */
module ClientHandshake {
  import opened Handshake

  datatype State =
    | StartConnect | EnterEarlyData | ReadHelloVerifyRequest | ReadServerHelloState | Tls13
    | ReadServerCertificate | ReadCertificateStatus | VerifyServerCertificate | ReadServerKeyExchange
    | ReadCertificateRequest | ReadServerHelloDone | SendClientCertificate | SendClientKeyExchange
    | SendClientCertificateVerify | SendClientFinished | FinishFlight | ReadSessionTicket
    | ProcessChangeCipherSpec | ReadServerFinished | FinishClientHandshake | Done

  /** The configuration the handshake consults. */
  datatype Config = Config(isDtls: bool, offersSession: bool, hasCertificate: bool, falseStart: bool)

  /** What the server's messages settle. */
  datatype Agreed = Agreed(kind: CipherKind, resumed: bool, statusExpected: bool, ticketExpected: bool,
                           npn: bool, channelId: bool, certRequest: bool)

  /** SSL_HANDSHAKE. */
  datatype Client = Client(state: State, io: Io, config: Config, agreed: Agreed)

  function New(config: Config): Client {
    Client(StartConnect, NEW_IO, config, Agreed(Rsa, false, false, false, false, false, false))
  }

  // ---------- What every step keeps ----------

  /** How far a client is from the end. The order of the Finished messages flips on resumption, so
      the rank of the closing states depends on it. */
  function Rank(state: State, resumed: bool): nat {
    match state
    case StartConnect => 22
    case EnterEarlyData => 21
    case ReadHelloVerifyRequest => 20
    case ReadServerHelloState => 19
    case Tls13 => 18
    case ReadServerCertificate => 17
    case ReadCertificateStatus => 16
    case VerifyServerCertificate => 15
    case ReadServerKeyExchange => 14
    case ReadCertificateRequest => 13
    case ReadServerHelloDone => 12
    case SendClientCertificate => 11
    case SendClientKeyExchange => 10
    case SendClientCertificateVerify => 9
    case SendClientFinished => 7
    case FinishFlight => 6
    case ReadSessionTicket => if resumed then 10 else 5
    case ProcessChangeCipherSpec => if resumed then 9 else 4
    case ReadServerFinished => if resumed then 8 else 3
    case FinishClientHandshake => 2
    case Done => 0
  }

  /** The tally, determined by how far the handshake is. */
  ghost predicate SafeTally(t: Tally, state: State, resumed: bool, certificates: bool, wait: Wait) {
    var r := Rank(state, resumed);
    var ccs := if resumed then 9 else 4;
    && (r >= 18 ==> !resumed)
    && (resumed ==> r <= 10 && state != SendClientKeyExchange && state != SendClientCertificateVerify)
    && t.finishedSent == t.ccsSent == t.writeEpoch == One(r < 7)
    && t.readEpoch == One(r < ccs)
    && t.ccsReceived <= 1
    && (wait != Error || r != ccs ==> t.ccsReceived == One(r < ccs || (r == ccs && wait != ReadChangeCipherSpec)))
    && t.finishedVerified == One(r < ccs - 1)
    && (!resumed && certificates && r < 15 ==> t.peerAccepted)
    && (wait == ReadChangeCipherSpec ==> state == ProcessChangeCipherSpec)
  }

  /** The machine and what it last waited for. */
  datatype Side = Side(c: Client, wait: Wait)

  ghost predicate Safe(s: Side) {
    SafeTally(s.c.io.tally, s.c.state, s.c.agreed.resumed, s.c.agreed.kind.UsesCertificate(), s.wait)
  }

  /** A step lowers the rank if the loop goes on after it or a flight is to be flushed, never raises
      it, and keeps the tally. */
  ghost predicate Sound(c: Client, r: (Wait, Client)) {
    && Rank(r.1.state, r.1.agreed.resumed) <= Rank(c.state, c.agreed.resumed)
    && (r.0 == Ok || r.0 == Flush ==> Rank(r.1.state, r.1.agreed.resumed) < Rank(c.state, c.agreed.resumed))
    && (Safe(Side(c, Ok)) ==> Safe(Side(r.1, r.0)))
  }

  /** A step that does not lower the rank changes nothing: it waits for a message with none in the
      buffer, or for a callback that is not ready. */
  ghost predicate Moves(c: Client, v: Verdict, r: (Wait, Client)) {
    || r.0 == Error || r.0 == Tls13Handshake
    || Rank(r.1.state, r.1.agreed.resumed) < Rank(c.state, c.agreed.resumed)
    || (r.1 == c && WaitsToRead(r.0) && c.io.hsBuf == [] && c.state != ProcessChangeCipherSpec)
    || (r.1 == c && ReturnsToCaller(r.0) && v == Retry)
  }

  // ---------- The steps ----------

  function DoStartConnect(c: Client, v: Verdict): (r: (Wait, Client))
    requires c.state == StartConnect
    ensures Sound(c, r) && Moves(c, v, r)
  {
    if v == Fail then (Error, c)
    else (Flush, c.(io := Send(c.io, ClientHello(false, c.config.offersSession)), state := EnterEarlyData))
  }

  function DoEnterEarlyData(c: Client): (r: (Wait, Client))
    requires c.state == EnterEarlyData
    ensures Sound(c, r) && Moves(c, Succeed, r)
  {
    (Ok, c.(state := if c.config.isDtls then ReadHelloVerifyRequest else ReadServerHelloState))
  }

  /** DTLS resets the transcript after a HelloVerifyRequest and sends a new ClientHello. */
  function DoReadHelloVerifyRequest(c: Client, v: Verdict): (r: (Wait, Client))
    requires c.state == ReadHelloVerifyRequest
    ensures Sound(c, r) && Moves(c, v, r)
  {
    if c.io.hsBuf == [] then (ReadMessage, c)
    else if c.io.hsBuf[0] != HelloVerifyRequest then (Ok, c.(state := ReadServerHelloState))
    else if v == Fail then (Error, c)
    else (Flush, c.(io := Send(Consume(c.io).(transcript := []), ClientHello(true, c.config.offersSession)), state := ReadServerHelloState))
  }

  function DoReadServerHello(c: Client, v: Verdict): (r: (Wait, Client))
    requires c.state == ReadServerHelloState
    ensures Sound(c, r) && Moves(c, v, r)
  {
    if c.io.hsBuf == [] then (ReadServerHello, c)
    else if !c.io.hsBuf[0].ServerHello? || v == Fail then (Error, c)
    else
      var h := c.io.hsBuf[0].hello;
      if h.tls13 then (Ok, c.(state := Tls13))
      else if h.status && !h.kind.UsesCertificate() then (Error, c)
      else
        var resumed := c.config.offersSession && h.resumes;
        (Ok, c.(io := Consume(c.io),
                agreed := Agreed(h.kind, resumed, h.status, h.ticket, h.npn, h.channelId, false),
                state := if resumed then ReadSessionTicket else ReadServerCertificate))
  }

  function DoReadServerCertificate(c: Client, v: Verdict): (r: (Wait, Client))
    requires c.state == ReadServerCertificate
    ensures Sound(c, r) && Moves(c, v, r)
  {
    if !c.agreed.kind.UsesCertificate() then (Ok, c.(state := ReadCertificateStatus))
    else if c.io.hsBuf == [] then (ReadMessage, c)
    else if c.io.hsBuf[0] != Certificate(true) || v == Fail then (Error, c)
    else (Ok, c.(io := Consume(c.io), state := ReadCertificateStatus))
  }

  /** A server may change its mind about sending CertificateStatus. */
  function DoReadCertificateStatus(c: Client, v: Verdict): (r: (Wait, Client))
    requires c.state == ReadCertificateStatus
    ensures Sound(c, r) && Moves(c, v, r)
  {
    if !c.agreed.statusExpected then (Ok, c.(state := VerifyServerCertificate))
    else if c.io.hsBuf == [] then (ReadMessage, c)
    else if c.io.hsBuf[0] != CertificateStatus then (Ok, c.(state := VerifyServerCertificate))
    else if v == Fail then (Error, c)
    else (Ok, c.(io := Consume(c.io), state := VerifyServerCertificate))
  }

  function DoVerifyServerCertificate(c: Client, v: Verdict): (r: (Wait, Client))
    requires c.state == VerifyServerCertificate
    ensures Sound(c, r) && Moves(c, v, r)
  {
    if !c.agreed.kind.UsesCertificate() then (Ok, c.(state := ReadServerKeyExchange))
    else
      match v
      case Fail => (Error, c)
      case Retry => (CertificateVerification, c)
      case Succeed => (Ok, c.(io := c.io.(tally := c.io.tally.(peerAccepted := true)), state := ReadServerKeyExchange))
  }

  /** The ServerKeyExchange is optional with plain PSK and refused with plain RSA. */
  function DoReadServerKeyExchange(c: Client, v: Verdict): (r: (Wait, Client))
    requires c.state == ReadServerKeyExchange
    ensures Sound(c, r) && Moves(c, v, r)
  {
    if c.io.hsBuf == [] then (ReadMessage, c)
    else if c.io.hsBuf[0] != ServerKeyExchange then
      if c.agreed.kind.RequiresServerKeyExchange() then (Error, c) else (Ok, c.(state := ReadCertificateRequest))
    else if c.agreed.kind == Rsa || v == Fail then (Error, c)
    else (Ok, c.(io := Consume(c.io), state := ReadCertificateRequest))
  }

  function DoReadCertificateRequest(c: Client, v: Verdict): (r: (Wait, Client))
    requires c.state == ReadCertificateRequest
    ensures Sound(c, r) && Moves(c, v, r)
  {
    if !c.agreed.kind.UsesCertificate() then (Ok, c.(state := ReadServerHelloDone))
    else if c.io.hsBuf == [] then (ReadMessage, c)
    else if c.io.hsBuf[0] == ServerHelloDone then (Ok, c.(state := ReadServerHelloDone))
    else if c.io.hsBuf[0] != CertificateRequest || v == Fail then (Error, c)
    else (Ok, c.(io := Consume(c.io), agreed := c.agreed.(certRequest := true), state := ReadServerHelloDone))
  }

  function DoReadServerHelloDone(c: Client, v: Verdict): (r: (Wait, Client))
    requires c.state == ReadServerHelloDone
    ensures Sound(c, r) && Moves(c, v, r)
  {
    if c.io.hsBuf == [] then (ReadMessage, c)
    else if c.io.hsBuf[0] != ServerHelloDone || v == Fail then (Error, c)
    else (Ok, c.(io := Consume(c.io), state := SendClientCertificate))
  }

  /** Without a certificate of its own the client sends an empty one. */
  function DoSendClientCertificate(c: Client, v: Verdict): (r: (Wait, Client))
    requires c.state == SendClientCertificate
    ensures Sound(c, r) && Moves(c, v, r)
  {
    if !c.agreed.certRequest then (Ok, c.(state := SendClientKeyExchange))
    else
      match v
      case Fail => (Error, c)
      case Retry => (X509Lookup, c)
      case Succeed => (Ok, c.(io := Send(c.io, Certificate(c.config.hasCertificate)), state := SendClientKeyExchange))
  }

  function DoSendClientKeyExchange(c: Client, v: Verdict): (r: (Wait, Client))
    requires c.state == SendClientKeyExchange
    ensures Sound(c, r) && Moves(c, v, r)
  {
    if v == Fail then (Error, c)
    else (Ok, c.(io := Send(c.io, ClientKeyExchange), state := SendClientCertificateVerify))
  }

  function DoSendClientCertificateVerify(c: Client, v: Verdict): (r: (Wait, Client))
    requires c.state == SendClientCertificateVerify
    ensures Sound(c, r) && Moves(c, v, r)
  {
    if !c.agreed.certRequest || !c.config.hasCertificate then (Ok, c.(state := SendClientFinished))
    else
      match v
      case Fail => (Error, c)
      case Retry => (PrivateKeyOperation, c)
      case Succeed => (Ok, c.(io := Send(c.io, CertificateVerify(c.io.transcript)), state := SendClientFinished))
  }

  function DoSendClientFinished(c: Client, v: Verdict): (r: (Wait, Client))
    requires c.state == SendClientFinished
    ensures Sound(c, r) && Moves(c, v, r)
  {
    if v == Fail then (Error, c)
    else if c.agreed.channelId && v == Retry then (ChannelIdLookup, c)
    else
      var io1 := ChangeWriteCipher(c.io);
      var io2 := if c.agreed.npn then Send(io1, NextProto) else io1;
      var io3 := if c.agreed.channelId then Send(io2, ChannelId) else io2;
      (Flush, c.(io := SendFinished(io3, false), state := FinishFlight))
  }

  function DoFinishFlight(c: Client, v: Verdict): (r: (Wait, Client))
    requires c.state == FinishFlight
    ensures Sound(c, r) && Moves(c, v, r)
  {
    if c.agreed.resumed then (Ok, c.(state := FinishClientHandshake))
    else if v == Fail then (Error, c)
    else (if c.config.falseStart then EarlyReturn else Ok, c.(state := ReadSessionTicket))
  }

  function DoReadSessionTicket(c: Client, v: Verdict): (r: (Wait, Client))
    requires c.state == ReadSessionTicket
    ensures Sound(c, r) && Moves(c, v, r)
  {
    if !c.agreed.ticketExpected then (ReadChangeCipherSpec, c.(state := ProcessChangeCipherSpec))
    else if c.io.hsBuf == [] then (ReadMessage, c)
    else if !c.io.hsBuf[0].NewSessionTicket? || v == Fail then (Error, c)
    else (ReadChangeCipherSpec,
          c.(io := Consume(c.io), agreed := c.agreed.(ticketExpected := !c.io.hsBuf[0].empty),
              state := ProcessChangeCipherSpec))
  }

  /** tls1_change_cipher_state(open); leftover data from the old epoch is an error. */
  function DoProcessChangeCipherSpec(c: Client, v: Verdict): (r: (Wait, Client))
    requires c.state == ProcessChangeCipherSpec
    ensures Sound(c, r) && Moves(c, v, r)
  {
    if v == Fail || c.io.hsBuf != [] then (Error, c)
    else (Ok, c.(io := c.io.(tally := c.io.tally.(readEpoch := c.io.tally.readEpoch + 1)), state := ReadServerFinished))
  }

  function DoReadServerFinished(c: Client, v: Verdict): (r: (Wait, Client))
    requires c.state == ReadServerFinished
    ensures Sound(c, r) && Moves(c, v, r)
  {
    var (wait, io) := GetFinished(c.io, true, v);
    if wait != Ok then (wait, c)
    else (Ok, c.(io := io, state := if c.agreed.resumed then SendClientFinished else FinishClientHandshake))
  }

  function DoFinishClientHandshake(c: Client, v: Verdict): (r: (Wait, Client))
    requires c.state == FinishClientHandshake
    ensures Sound(c, r) && Moves(c, v, r)
  {
    if v == Fail then (Error, c) else (Ok, c.(state := Done))
  }

  /** One turn of the loop in ssl_client_handshake. The TLS 1.3 handshake is one opaque state. */
  function Step(c: Client, v: Verdict): (Wait, Client) {
    match c.state
    case StartConnect => DoStartConnect(c, v)
    case EnterEarlyData => DoEnterEarlyData(c)
    case ReadHelloVerifyRequest => DoReadHelloVerifyRequest(c, v)
    case ReadServerHelloState => DoReadServerHello(c, v)
    case Tls13 => (Tls13Handshake, c)
    case ReadServerCertificate => DoReadServerCertificate(c, v)
    case ReadCertificateStatus => DoReadCertificateStatus(c, v)
    case VerifyServerCertificate => DoVerifyServerCertificate(c, v)
    case ReadServerKeyExchange => DoReadServerKeyExchange(c, v)
    case ReadCertificateRequest => DoReadCertificateRequest(c, v)
    case ReadServerHelloDone => DoReadServerHelloDone(c, v)
    case SendClientCertificate => DoSendClientCertificate(c, v)
    case SendClientKeyExchange => DoSendClientKeyExchange(c, v)
    case SendClientCertificateVerify => DoSendClientCertificateVerify(c, v)
    case SendClientFinished => DoSendClientFinished(c, v)
    case FinishFlight => DoFinishFlight(c, v)
    case ReadSessionTicket => DoReadSessionTicket(c, v)
    case ProcessChangeCipherSpec => DoProcessChangeCipherSpec(c, v)
    case ReadServerFinished => DoReadServerFinished(c, v)
    case FinishClientHandshake => DoFinishClientHandshake(c, v)
    case Done => (Ok, c)
  }

  /** Every step that lets the loop go on lowers the rank, none raises it, and all keep the tally. */
  lemma StepSound(c: Client, v: Verdict)
    requires c.state != Done
    ensures Sound(c, Step(c, v)) && Moves(c, v, Step(c, v))
  {
    hide DoStartConnect, DoEnterEarlyData, DoReadHelloVerifyRequest, DoReadServerHello, DoReadServerCertificate;
    hide DoReadCertificateStatus, DoVerifyServerCertificate, DoReadServerKeyExchange, DoReadCertificateRequest;
    hide DoReadServerHelloDone, DoSendClientCertificate, DoSendClientKeyExchange, DoSendClientCertificateVerify;
    hide DoSendClientFinished, DoFinishFlight, DoReadSessionTicket, DoProcessChangeCipherSpec, DoReadServerFinished;
    hide DoFinishClientHandshake, Sound;
    if c.state == Tls13 {
      SoundHandOver(c);
    }
  }

  lemma SoundHandOver(c: Client)
    requires c.state == Tls13
    ensures Sound(c, (Tls13Handshake, c))
  {}

  // ---------- Which messages a state takes and sends ----------

  predicate Takes(state: State, m: Msg) {
    match state
    case ReadHelloVerifyRequest => m == HelloVerifyRequest
    case ReadServerHelloState => m.ServerHello?
    case ReadServerCertificate => m == Certificate(true)
    case ReadCertificateStatus => m == CertificateStatus
    case ReadServerKeyExchange => m == ServerKeyExchange
    case ReadCertificateRequest => m == CertificateRequest
    case ReadServerHelloDone => m == ServerHelloDone
    case ReadSessionTicket => m.NewSessionTicket?
    case ReadServerFinished => m.Finished? && m.fromServer
    case _ => false
  }

  predicate Emits(state: State, m: Msg) {
    match state
    case StartConnect => m.ClientHello? && !m.cookie
    case ReadHelloVerifyRequest => m.ClientHello? && m.cookie
    case SendClientCertificate => m.Certificate?
    case SendClientKeyExchange => m == ClientKeyExchange
    case SendClientCertificateVerify => m.CertificateVerify?
    case SendClientFinished => m == NextProto || m == ChannelId || (m.Finished? && !m.fromServer)
    case _ => false
  }

  /** Where a state can lead, besides staying. */
  predicate Leads(state: State, next: State) {
    match state
    case StartConnect => next == EnterEarlyData
    case EnterEarlyData => next == ReadHelloVerifyRequest || next == ReadServerHelloState
    case ReadHelloVerifyRequest => next == ReadServerHelloState
    case ReadServerHelloState => next == Tls13 || next == ReadServerCertificate || next == ReadSessionTicket
    case ReadServerCertificate => next == ReadCertificateStatus
    case ReadCertificateStatus => next == VerifyServerCertificate
    case VerifyServerCertificate => next == ReadServerKeyExchange
    case ReadServerKeyExchange => next == ReadCertificateRequest
    case ReadCertificateRequest => next == ReadServerHelloDone
    case ReadServerHelloDone => next == SendClientCertificate
    case SendClientCertificate => next == SendClientKeyExchange
    case SendClientKeyExchange => next == SendClientCertificateVerify
    case SendClientCertificateVerify => next == SendClientFinished
    case SendClientFinished => next == FinishFlight
    case FinishFlight => next == ReadSessionTicket || next == FinishClientHandshake
    case ReadSessionTicket => next == ProcessChangeCipherSpec
    case ProcessChangeCipherSpec => next == ReadServerFinished
    case ReadServerFinished => next == SendClientFinished || next == FinishClientHandshake
    case FinishClientHandshake => next == Done
    case _ => false
  }

  predicate EmitsRecord(state: State, r: Record) {
    match r
    case Ccs => state == SendClientFinished
    case Hs(msgs, _) => |msgs| == 1 && Emits(state, msgs[0])
  }

  /** A step takes at most the first message, and only one that its state takes. */
  ghost predicate TakesInOrder(c: Client, r: (Wait, Client)) {
    r.1.io.hsBuf == c.io.hsBuf
    || (c.io.hsBuf != [] && Takes(c.state, c.io.hsBuf[0]) && r.1.io.hsBuf == c.io.hsBuf[1..])
  }

  /** It adds to the flight only what its state sends. */
  ghost predicate EmitsOnly(c: Client, r: (Wait, Client)) {
    && c.io.flight <= r.1.io.flight
    && forall i | |c.io.flight| <= i < |r.1.io.flight| :: EmitsRecord(c.state, r.1.io.flight[i])
  }

  lemma StepTakes(c: Client, v: Verdict)
    ensures TakesInOrder(c, Step(c, v))
  {
    hide Sound, Moves, EmitsOnly;
  }

  lemma SendClientFinishedEmits(c: Client, v: Verdict)
    requires c.state == SendClientFinished
    ensures EmitsOnly(c, DoSendClientFinished(c, v))
  {
    hide Sound, Moves;
  }

  lemma StepEmits(c: Client, v: Verdict)
    ensures EmitsOnly(c, Step(c, v))
  {
    hide Sound, Moves, DoSendClientFinished;
    match c.state
    case SendClientFinished => SendClientFinishedEmits(c, v);
    case _ =>
  }

  /** Whatever the peer has sent and whatever the oracles say, each state takes and sends nothing but its own
      messages, and goes only where it leads. */
  lemma StepOrderly(c: Client, v: Verdict)
    ensures TakesInOrder(c, Step(c, v)) && EmitsOnly(c, Step(c, v))
    ensures Step(c, v).1.state == c.state || Leads(c.state, Step(c, v).1.state)
  {
    hide Sound, Moves, TakesInOrder, EmitsOnly;
    StepTakes(c, v);
    StepEmits(c, v);
  }

  // ---------- Runs against an arbitrary peer ----------

  /** One turn of do_handshake, or ssl_run_handshake resolving what the machine waits for. */
  datatype Event = Advance(v: Verdict) | Resume | FlushDone | Receive(record: Record)

  function Apply(s: Side, e: Event): Side {
    match e
    case Advance(v) =>
      if s.wait != Ok || s.c.state == Done then s
      else
        var (wait, c) := Step(s.c, v);
        Side(c, wait)
    case Resume =>
      if ReturnsToCaller(s.wait) then Side(s.c, Ok) else s
    case FlushDone =>
      if s.wait == Flush then Side(s.c.(io := s.c.io.(flight := [])), Ok) else s
    case Receive(record) =>
      if !WaitsToRead(s.wait) then s
      else
        var (wait, io) := Deliver(s.c.io, s.wait, record);
        Side(s.c.(io := io), wait)
  }

  function Run(s: Side, events: seq<Event>): Side {
    if |events| == 0 then s else Apply(Run(s, events[..|events| - 1]), events[|events| - 1])
  }

  lemma ApplySafe(s: Side, e: Event)
    requires Safe(s)
    ensures Safe(Apply(s, e))
  {
    match e
    case Advance(v) =>
      if s.wait == Ok && s.c.state != Done {
        StepSound(s.c, v);
        assert Safe(Side(s.c, Ok));
      }
    case Resume =>
    case FlushDone =>
    case Receive(record) =>
  }

  lemma {:induction false} RunSafe(s: Side, events: seq<Event>)
    requires Safe(s)
    ensures Safe(Run(s, events))
  {
    if |events| > 0 {
      RunSafe(s, events[..|events| - 1]);
      ApplySafe(Run(s, events[..|events| - 1]), events[|events| - 1]);
    }
  }

  lemma RunSnoc(s: Side, events: seq<Event>, e: Event)
    ensures Run(s, events + [e]) == Apply(Run(s, events), e)
  {
    assert (events + [e])[..|events|] == events;
  }

  lemma RunNothing(s: Side)
    ensures Run(s, []) == s
  {}

  lemma RunOnce(s: Side, e: Event)
    ensures Run(s, [e]) == Apply(s, e)
  {
    assert [e][..0] == [];
  }

  lemma {:induction false} RunAppend(s: Side, a: seq<Event>, b: seq<Event>)
    ensures Run(s, a + b) == Run(Run(s, a), b)
  {
    if b == [] {
      assert a + b == a;
    } else {
      var init := b[..|b| - 1];
      assert a + b == (a + init) + [b[|b| - 1]];
      RunSnoc(s, a + init, b[|b| - 1]);
      RunAppend(s, a, init);
    }
  }

  // ---------- The numbering of the states ----------

  /** The value of enum ssl_client_hs_state_t. */
  function Ordinal(state: State): nat {
    match state
    case StartConnect => 0
    case EnterEarlyData => 1
    case ReadHelloVerifyRequest => 2
    case ReadServerHelloState => 3
    case Tls13 => 4
    case ReadServerCertificate => 5
    case ReadCertificateStatus => 6
    case VerifyServerCertificate => 7
    case ReadServerKeyExchange => 8
    case ReadCertificateRequest => 9
    case ReadServerHelloDone => 10
    case SendClientCertificate => 11
    case SendClientKeyExchange => 12
    case SendClientCertificateVerify => 13
    case SendClientFinished => 14
    case FinishFlight => 15
    case ReadSessionTicket => 16
    case ProcessChangeCipherSpec => 17
    case ReadServerFinished => 18
    case FinishClientHandshake => 19
    case Done => 20
  }

  /** The client goes back in the numbering exactly when it has verified the server's Finished of a resumed
      session and turns to its own, so the numbering is no measure for the loop. */
  lemma StepsBackExactly(c: Client, v: Verdict)
    ensures Ordinal(Step(c, v).1.state) < Ordinal(c.state)
            <==> c.state == ReadServerFinished && c.agreed.resumed && Step(c, v).0 == Ok
    ensures Ordinal(Step(c, v).1.state) < Ordinal(c.state) ==> Step(c, v).1.state == SendClientFinished
  {
    hide Sound, Moves, Send, SendFinished, Consume, ChangeWriteCipher;
  }

  lemma RunThree(s: Side, e: Event, f: Event, g: Event)
    ensures Run(s, [e, f, g]) == Apply(Apply(Apply(s, e), f), g)
  {
    hide Apply;
    RunOnce(s, e);
    RunSnoc(s, [e], f);
    RunSnoc(s, [e, f], g);
    assert [e] + [f] == [e, f] && [e, f] + [g] == [e, f, g];
  }

  /** A client that offers a session, in some state of its handshake with a server that resumes it. */
  function Resuming(state: State, transcript: seq<Msg>, tally: Tally, hsBuf: seq<Msg>): Side {
    Side(Client(state, Io(hsBuf, [], transcript, tally), Config(false, true, false, false),
                Agreed(Rsa, state != ReadServerHelloState, false, false, false, false, false)), Ok)
  }

  const CLIENT_HELLO := ClientHello(false, true)
  const SERVER_HELLO := ServerHello(Hello(false, true, Rsa, false, false, false, false))
  const BEFORE_KEYS := Tally(0, 0, 0, 0, 0, 0, false, false)
  const UNDER_KEYS := Tally(1, 0, 1, 0, 0, 0, false, false)

  lemma ReachesServerHello()
    ensures var start := Side(New(Config(false, true, false, false)), Ok);
            Apply(Apply(Apply(start, Advance(Succeed)), FlushDone), Advance(Succeed))
            == Resuming(ReadServerHelloState, [CLIENT_HELLO], BEFORE_KEYS, [])
  {
    hide Sound, Moves;
  }

  lemma ReachesSessionTicket()
    ensures var s := Resuming(ReadServerHelloState, [CLIENT_HELLO], BEFORE_KEYS, []);
            Apply(Apply(Apply(s, Advance(Succeed)), Receive(Hs([SERVER_HELLO], 0))), Advance(Succeed))
            == Resuming(ReadSessionTicket, [CLIENT_HELLO, SERVER_HELLO], BEFORE_KEYS, [])
  {
    hide Sound, Moves;
  }

  lemma ReachesServerFinished()
    ensures var s := Resuming(ReadSessionTicket, [CLIENT_HELLO, SERVER_HELLO], BEFORE_KEYS, []);
            Apply(Apply(Apply(s, Advance(Succeed)), Receive(Ccs)), Advance(Succeed))
            == Resuming(ReadServerFinished, [CLIENT_HELLO, SERVER_HELLO], UNDER_KEYS, [])
  {
    hide Sound, Moves;
  }

  lemma ReadsServerFinished()
    ensures var transcript := [CLIENT_HELLO, SERVER_HELLO];
            var s := Resuming(ReadServerFinished, transcript, UNDER_KEYS, []);
            var t := Resuming(ReadServerFinished, transcript, UNDER_KEYS, [Finished(true, transcript)]);
            && Apply(Apply(Apply(s, Advance(Succeed)), Receive(Hs([Finished(true, transcript)], 1))), Resume) == t
            && Apply(t, Advance(Succeed)).c.state == SendClientFinished
  {
    hide Sound, Moves;
  }

  /** And it does. */
  lemma ResumptionStepsBack() returns (events: seq<Event>)
    ensures var s := Run(Side(New(Config(false, true, false, false)), Ok), events);
            && s.wait == Ok && s.c.state == ReadServerFinished
            && Ordinal(Apply(s, Advance(Succeed)).c.state) < Ordinal(s.c.state)
  {
    hide Run, Apply, New;
    var next := Advance(Succeed);
    var start := Side(New(Config(false, true, false, false)), Ok);
    var a := [next, FlushDone, next];
    var b := [next, Receive(Hs([SERVER_HELLO], 0)), next];
    var c := [next, Receive(Ccs), next];
    var d := [next, Receive(Hs([Finished(true, [CLIENT_HELLO, SERVER_HELLO])], 1)), Resume];
    ReachesServerHello();
    RunThree(start, a[0], a[1], a[2]);
    ReachesSessionTicket();
    RunThree(Run(start, a), b[0], b[1], b[2]);
    RunAppend(start, a, b);
    ReachesServerFinished();
    RunThree(Run(start, a + b), c[0], c[1], c[2]);
    RunAppend(start, a + b, c);
    ReadsServerFinished();
    RunThree(Run(start, a + b + c), d[0], d[1], d[2]);
    RunAppend(start, a + b + c, d);
    events := a + b + c + d;
  }

  // ---------- What holds of every run ----------

  /** Whatever the peer sends and whatever the oracles say, a client that is done has verified exactly
      one server Finished, sent exactly one Finished, changed each cipher exactly once, the read
      cipher after a ChangeCipherSpec, and, unless it resumed a session or used no certificates,
      accepted the server's certificate. */
  lemma DoneMeansAuthenticated(config: Config, events: seq<Event>)
    ensures var c := Run(Side(New(config), Ok), events).c;
            c.state == Done ==>
              && c.io.tally.finishedVerified == 1 && c.io.tally.finishedSent == 1
              && c.io.tally.ccsSent == 1 && c.io.tally.readEpoch == 1
              && c.io.tally.ccsReceived == 1
              && (!c.agreed.resumed && c.agreed.kind.UsesCertificate() ==> c.io.tally.peerAccepted)
  {
    hide Run;
    RunSafe(Side(New(config), Ok), events);
  }

  /** At every moment of every run, keys for reading follow a ChangeCipherSpec, and no Finished is
      verified under the old keys. */
  lemma KeysFollowChangeCipherSpec(config: Config, events: seq<Event>)
    ensures var t := Run(Side(New(config), Ok), events).c.io.tally;
            t.finishedVerified <= t.readEpoch <= t.ccsReceived <= 1
  {
    hide Run;
    RunSafe(Side(New(config), Ok), events);
  }

  // ---------- The loops ----------

  /** The client's SSL_HANDSHAKE under its two loops. What the oracles and the transport say is left
      open at each turn; the ghost results record it, so that all lemmas about runs apply. */
  class Machine {
    var c: Client
    var wait: Wait

    constructor (config: Config)
      ensures c == New(config) && wait == Ok
    {
      c, wait := New(config), Ok;
    }

    /** ssl_client_handshake: step until done or blocked. Ends because every such step lowers the rank. */
    method Handshake() returns (ret: Wait, ghost events: seq<Event>)
      modifies this`c
      ensures Side(c, ret) == Run(Side(old(c), Ok), events)
      ensures ret == Ok ==> c.state == Done
      ensures Rank(c.state, c.agreed.resumed) <= old(Rank(c.state, c.agreed.resumed))
      ensures ret == Flush ==> Rank(c.state, c.agreed.resumed) < old(Rank(c.state, c.agreed.resumed))
    {
      hide Step, Safe, Rank;
      ret, events := Ok, [];
      while c.state != Done
        invariant Side(c, Ok) == Run(Side(old(c), Ok), events)
        invariant Rank(c.state, c.agreed.resumed) <= old(Rank(c.state, c.agreed.resumed))
        decreases Rank(c.state, c.agreed.resumed)
      {
        var v: Verdict := *;
        StepSound(c, v);
        RunSnoc(Side(old(c), Ok), events, Advance(v));
        events := events + [Advance(v)];
        var (w, next) := Step(c, v);
        c := next;
        if w != Ok {
          return w, events;
        }
      }
    }

    /** Resolves what the handshake was waiting for, if it can: the switch in ssl_run_handshake. `written` says
        whether the transport takes the flight. */
    method Resolve(input: seq<Record>, written: bool) returns (blocked: bool, early: bool, rest: seq<Record>, ghost events: seq<Event>)
      modifies this
      ensures Side(c, wait) == Run(old(Side(c, wait)), events)
      ensures !blocked ==> wait == Ok
      ensures !blocked <==>
                || old(wait) == Ok || (old(wait) == Flush && written)
                || (WaitsToRead(old(wait)) && input != [] && Deliver(old(c.io), old(wait), input[0]).0 == Ok)
      ensures early <==> old(wait) == EarlyReturn
      ensures rest == if WaitsToRead(old(wait)) && input != [] then input[1..] else input
      ensures ReturnsToCaller(old(wait)) ==> wait == Ok && events == [Resume]
      ensures blocked && !ReturnsToCaller(old(wait)) ==>
                wait == Error || (wait == old(wait) != Ok && (wait == Flush ==> !written) && (WaitsToRead(wait) ==> input == []))
      ensures !blocked && rest == input ==>
                (old(wait) == Ok || old(wait) == Flush) && c.state == old(c.state) && c.agreed == old(c.agreed)
    {
      hide Step, Safe, Deliver, Rank, Run;
      RunNothing(Side(c, wait));
      blocked, early, rest, events := true, false, input, [];
      if wait == Flush {
        if written {
          events := [FlushDone];
          RunOnce(Side(c, wait), FlushDone);
          c, wait, blocked := c.(io := c.io.(flight := [])), Ok, false;
        }
      } else if WaitsToRead(wait) {
        if input != [] {
          events := [Receive(input[0])];
          RunOnce(Side(c, wait), events[0]);
          var (w, io) := Deliver(c.io, wait, input[0]);
          c, wait, rest, blocked := c.(io := io), w, input[1..], w == Error;
        }
      } else if ReturnsToCaller(wait) {
        events := [Resume];
        RunOnce(Side(c, wait), Resume);
        early := wait == EarlyReturn;
        wait := Ok;
      } else {
        blocked := wait != Ok;
      }
    }

    /** The run has just returned to the caller, early or for a callback. */
    ghost predicate Returned(start: Side, events: seq<Event>, early: bool) {
      && events != [] && events[|events| - 1] == Resume
      && var w := Run(start, events[..|events| - 1]).wait;
         ReturnsToCaller(w) && early == (w == EarlyReturn)
    }

    /** ssl_run_handshake over the records that can be read now. A positive result that is not an early
        return means that the handshake is complete. It is not positive only after an error, for lack of
        input or of a callback, or because the transport does not take a flight; a `willing` one does. */
    method RunHandshake(input: seq<Record>, willing: bool) returns (ret: int, early: bool, rest: seq<Record>, ghost events: seq<Event>)
      modifies this
      ensures Side(c, wait) == Run(old(Side(c, wait)), events)
      ensures ret > 0 && !early ==> c.state == Done && wait == Ok
      ensures ret <= 0 ==>
                || wait == Error || wait == Tls13Handshake || (wait == Flush && !willing) || (WaitsToRead(wait) && rest == [])
                || Returned(old(Side(c, wait)), events, false)
      ensures early ==> ret > 0 && wait == Ok && Returned(old(Side(c, wait)), events, true)
      ensures Remains(rest, input)
    {
      hide Step, Safe, Run, Rank, Apply, Remains;
      rest, events := input, [];
      StartRemains(input);
      RunNothing(Side(c, wait));
      while true
        invariant Side(c, wait) == Run(old(Side(c, wait)), events)
        invariant Remains(rest, input)
        decreases |rest|, Rank(c.state, c.agreed.resumed), Phase(wait)
      {
        ghost var before := events;
        ghost var more: seq<Event>;
        var blocked: bool;
        ghost var had := rest;
        var written: bool := *;
        written := written || willing;
        blocked, early, rest, more := Resolve(rest, written);
        OneLessRemains(had, rest, input);
        RunAppend(old(Side(c, wait)), before, more);
        events := before + more;
        if blocked {
          assert more == [Resume] ==> events[..|events| - 1] == before;
          return if early then 1 else -1, early, rest, events;
        }
        wait, more := Handshake();
        RunAppend(old(Side(c, wait)), events, more);
        events := events + more;
        if wait == Error || wait == Ok {
          return if wait == Ok then 1 else -1, false, rest, events;
        }
      }
    }
  }
}
