/** ssl_server_handshake for TLS 1.0 to 1.2, one function per do_* step, and what holds of every run
    against an arbitrary peer. */
module ServerHandshake {
  import opened Handshake

  datatype State =
    | StartAccept | ReadClientHello | SelectCertificate | Tls13 | SelectParameters | SendServerHello
    | SendServerCertificate | SendServerKeyExchange | SendServerHelloDone | ReadClientCertificate
    | VerifyClientCertificate | ReadClientKeyExchange | ReadClientCertificateVerify | ReadChangeCipherSpecState
    | ProcessChangeCipherSpec | ReadNextProto | ReadChannelId | ReadClientFinished | SendServerFinished
    | FinishServerHandshake | Done

  /** The configuration, and what the callbacks and the ClientHello's extensions make the server pick. */
  datatype Config = Config(
    tls13: bool, kind: CipherKind, findsSession: bool, ticketsSupported: bool, renewsTicket: bool,
    stapling: bool, npn: bool, channelId: bool, savedHashes: bool, identityHint: bool,
    hasCertificate: bool, verifyPeer: bool, onlyWithoutChannelId: bool, requiresPeer: bool)

  /** What the hellos settle. The peer sent a certificate once peerCert is set. */
  datatype Agreed = Agreed(resumed: bool, statusExpected: bool, ticketExpected: bool, channelId: bool,
                           certRequest: bool, hasParams: bool, peerCert: bool)

  /** SSL_HANDSHAKE. */
  datatype Server = Server(state: State, io: Io, config: Config, agreed: Agreed)

  function New(config: Config): Server {
    Server(StartAccept, NEW_IO, config, Agreed(false, false, false, false, false, false, false))
  }

  // ---------- What every step keeps ----------

  /** How far a server is from the end; on resumption it sends its Finished first. */
  function Rank(state: State, resumed: bool): nat {
    match state
    case StartAccept => 22
    case ReadClientHello => 21
    case SelectCertificate => 20
    case Tls13 => 19
    case SelectParameters => 18
    case SendServerHello => 17
    case SendServerCertificate => 16
    case SendServerKeyExchange => 15
    case SendServerHelloDone => 14
    case ReadClientCertificate => 13
    case VerifyClientCertificate => 12
    case ReadClientKeyExchange => 11
    case ReadClientCertificateVerify => 10
    case ReadChangeCipherSpecState => 9
    case ProcessChangeCipherSpec => 8
    case ReadNextProto => 7
    case ReadChannelId => 6
    case ReadClientFinished => 5
    case SendServerFinished => if resumed then 10 else 4
    case FinishServerHandshake => 2
    case Done => 0
  }

  /** The tally, determined by how far the handshake is. */
  ghost predicate SafeTally(t: Tally, state: State, resumed: bool, peerCert: bool, wait: Wait) {
    var r := Rank(state, resumed);
    && (r >= 18 ==> !resumed)
    && (resumed ==> r == 17 || r <= 9 || state == SendServerFinished)
    && (peerCert ==> !resumed && r <= 12)
    && t.finishedSent == t.ccsSent == t.writeEpoch == One(r < (if resumed then 10 else 4))
    && t.readEpoch == One(r < 8)
    && t.ccsReceived <= 1
    && (wait != Error || r != 8 ==> t.ccsReceived == One(r < 8 || (r == 8 && wait != ReadChangeCipherSpec)))
    && t.finishedVerified == One(r < 5)
    && (peerCert && r < 12 ==> t.peerAccepted)
    && (peerCert && r < 10 ==> t.signatureChecked)
    && (wait == ReadChangeCipherSpec ==> state == ProcessChangeCipherSpec)
  }

  /** The machine and what it last waited for. */
  datatype Side = Side(s: Server, wait: Wait)

  ghost predicate Safe(d: Side) {
    && SafeTally(d.s.io.tally, d.s.state, d.s.agreed.resumed, d.s.agreed.peerCert, d.wait)
    && (d.s.agreed.certRequest ==> !d.s.agreed.resumed)
  }

  /** A step lowers the rank if the loop goes on after it or a flight is to be flushed, never raises
      it, and keeps the tally. */
  ghost predicate Sound(s: Server, r: (Wait, Server)) {
    && Rank(r.1.state, r.1.agreed.resumed) <= Rank(s.state, s.agreed.resumed)
    && (r.0 == Ok || r.0 == Flush ==> Rank(r.1.state, r.1.agreed.resumed) < Rank(s.state, s.agreed.resumed))
    && (Safe(Side(s, Ok)) ==> Safe(Side(r.1, r.0)))
  }

  /** A step that does not lower the rank changes nothing: it waits for a message with none in the
      buffer, or for a callback that is not ready. */
  ghost predicate Moves(s: Server, v: Verdict, r: (Wait, Server)) {
    || r.0 == Error || r.0 == Tls13Handshake
    || Rank(r.1.state, r.1.agreed.resumed) < Rank(s.state, s.agreed.resumed)
    || (r.1 == s && WaitsToRead(r.0) && s.io.hsBuf == [] && s.state != ProcessChangeCipherSpec)
    || (r.1 == s && ReturnsToCaller(r.0) && v == Retry)
  }

  // ---------- The steps ----------

  function DoStartAccept(s: Server): (r: (Wait, Server))
    requires s.state == StartAccept
    ensures Sound(s, r) && Moves(s, Succeed, r)
  {
    (Ok, s.(state := ReadClientHello))
  }

  /** The message stays in place: two later states look at it again. */
  function DoReadClientHello(s: Server, v: Verdict): (r: (Wait, Server))
    requires s.state == ReadClientHello
    ensures Sound(s, r) && Moves(s, v, r)
  {
    if s.io.hsBuf == [] then (ReadMessage, s)
    else if !s.io.hsBuf[0].ClientHello? || v == Fail then (Error, s)
    else if v == Retry then (CertificateSelectionPending, s)
    else (Ok, s.(state := SelectCertificate))
  }

  function DoSelectCertificate(s: Server, v: Verdict): (r: (Wait, Server))
    requires s.state == SelectCertificate
    ensures Sound(s, r) && Moves(s, v, r)
  {
    if s.io.hsBuf == [] then (ReadMessage, s)
    else
      match v
      case Fail => (Error, s)
      case Retry => (X509Lookup, s)
      case Succeed => (Ok, s.(state := if s.config.tls13 then Tls13 else SelectParameters))
  }

  /** A CertificateRequest needs a certificate cipher and a full handshake. */
  function DoSelectParameters(s: Server, v: Verdict): (r: (Wait, Server))
    requires s.state == SelectParameters
    ensures Sound(s, r) && Moves(s, v, r)
  {
    if s.io.hsBuf == [] then (ReadMessage, s)
    else if !s.io.hsBuf[0].ClientHello? || v == Fail then (Error, s)
    else if v == Retry then (PendingSession, s)
    else
      var g := s.config;
      var resumed := s.io.hsBuf[0].session && g.findsSession;
      (Ok, s.(io := Consume(s.io),
              agreed := Agreed(
                resumed, false, if resumed then g.renewsTicket else g.ticketsSupported, g.channelId,
                !resumed && g.verifyPeer && !(g.onlyWithoutChannelId && g.channelId) && g.kind.UsesCertificate(),
                false, false),
              state := SendServerHello))
  }

  /** Channel ID needs ECDHE, and saved hashes on resumption; a stapled response needs a certificate. */
  function DoSendServerHello(s: Server, v: Verdict): (r: (Wait, Server))
    requires s.state == SendServerHello
    ensures Sound(s, r) && Moves(s, v, r)
  {
    if v == Fail then (Error, s)
    else
      var g := s.config;
      var resumed := s.agreed.resumed;
      var channelId := s.agreed.channelId && (g.kind.Ecdhe? || g.kind.EcdhePsk?) && (resumed ==> g.savedHashes);
      var status := g.stapling && !resumed && g.kind.UsesCertificate();
      (Ok, s.(io := Send(s.io, ServerHello(Hello(false, resumed, g.kind, status, s.agreed.ticketExpected, g.npn, channelId))),
              agreed := s.agreed.(channelId := channelId, statusExpected := status),
              state := if resumed then SendServerFinished else SendServerCertificate))
  }

  function DoSendServerCertificate(s: Server, v: Verdict): (r: (Wait, Server))
    requires s.state == SendServerCertificate
    ensures Sound(s, r) && Moves(s, v, r)
  {
    if v == Fail || (s.config.kind.UsesCertificate() && !s.config.hasCertificate) then (Error, s)
    else
      var io1 := if s.config.kind.UsesCertificate() then Send(s.io, Certificate(true)) else s.io;
      var io2 := if s.config.kind.UsesCertificate() && s.agreed.statusExpected then Send(io1, CertificateStatus) else io1;
      (Ok, s.(io := io2, agreed := s.agreed.(hasParams := NeedsParams(s.config)), state := SendServerKeyExchange))
  }

  /** A ServerKeyExchange carries ECDHE parameters, a PSK identity hint, or both. */
  predicate NeedsParams(g: Config) {
    g.kind.RequiresServerKeyExchange() || (g.kind.Psk? && g.identityHint)
  }

  function DoSendServerKeyExchange(s: Server, v: Verdict): (r: (Wait, Server))
    requires s.state == SendServerKeyExchange
    ensures Sound(s, r) && Moves(s, v, r)
  {
    if !s.agreed.hasParams then (Ok, s.(state := SendServerHelloDone))
    else if v == Fail then (Error, s)
    else if v == Retry && s.config.kind.UsesCertificate() then (PrivateKeyOperation, s)
    else (Ok, s.(io := Send(s.io, ServerKeyExchange), agreed := s.agreed.(hasParams := false), state := SendServerHelloDone))
  }

  function DoSendServerHelloDone(s: Server, v: Verdict): (r: (Wait, Server))
    requires s.state == SendServerHelloDone
    ensures Sound(s, r) && Moves(s, v, r)
  {
    if v == Fail then (Error, s)
    else
      var io := if s.agreed.certRequest then Send(s.io, CertificateRequest) else s.io;
      (Flush, s.(io := Send(io, ServerHelloDone), state := ReadClientCertificate))
  }

  function DoReadClientCertificate(s: Server, v: Verdict): (r: (Wait, Server))
    requires s.state == ReadClientCertificate
    ensures Sound(s, r) && Moves(s, v, r)
  {
    if !s.agreed.certRequest then (Ok, s.(state := VerifyClientCertificate))
    else if s.io.hsBuf == [] then (ReadMessage, s)
    else if !s.io.hsBuf[0].Certificate? || v == Fail then (Error, s)
    else if !s.io.hsBuf[0].nonEmpty && s.config.requiresPeer then (Error, s)
    else (Ok, s.(io := Consume(s.io), agreed := s.agreed.(peerCert := s.io.hsBuf[0].nonEmpty),
                 state := VerifyClientCertificate))
  }

  function DoVerifyClientCertificate(s: Server, v: Verdict): (r: (Wait, Server))
    requires s.state == VerifyClientCertificate
    ensures Sound(s, r) && Moves(s, v, r)
  {
    if !s.agreed.peerCert then (Ok, s.(state := ReadClientKeyExchange))
    else
      match v
      case Fail => (Error, s)
      case Retry => (CertificateVerification, s)
      case Succeed => (Ok, s.(io := s.io.(tally := s.io.tally.(peerAccepted := true)), state := ReadClientKeyExchange))
  }

  /** Only RSA decryption can be asynchronous. */
  function DoReadClientKeyExchange(s: Server, v: Verdict): (r: (Wait, Server))
    requires s.state == ReadClientKeyExchange
    ensures Sound(s, r) && Moves(s, v, r)
  {
    if s.io.hsBuf == [] then (ReadMessage, s)
    else if s.io.hsBuf[0] != ClientKeyExchange || v == Fail then (Error, s)
    else if v == Retry && s.config.kind == Rsa then (PrivateKeyOperation, s)
    else (Ok, s.(io := Consume(s.io), state := ReadClientCertificateVerify))
  }

  /** Required if and only if there is a client certificate; the signature covers the transcript. */
  function DoReadClientCertificateVerify(s: Server, v: Verdict): (r: (Wait, Server))
    requires s.state == ReadClientCertificateVerify
    ensures Sound(s, r) && Moves(s, v, r)
  {
    if !s.agreed.peerCert then (Ok, s.(state := ReadChangeCipherSpecState))
    else if s.io.hsBuf == [] then (ReadMessage, s)
    else if s.io.hsBuf[0] != CertificateVerify(s.io.transcript) || v == Fail then (Error, s)
    else
      var io := Consume(s.io);
      (Ok, s.(io := io.(tally := io.tally.(signatureChecked := true)), state := ReadChangeCipherSpecState))
  }

  function DoReadChangeCipherSpec(s: Server): (r: (Wait, Server))
    requires s.state == ReadChangeCipherSpecState
    ensures Sound(s, r) && Moves(s, Succeed, r)
  {
    (ReadChangeCipherSpec, s.(state := ProcessChangeCipherSpec))
  }

  /** tls1_change_cipher_state(open); leftover data from the old epoch is an error. */
  function DoProcessChangeCipherSpec(s: Server, v: Verdict): (r: (Wait, Server))
    requires s.state == ProcessChangeCipherSpec
    ensures Sound(s, r) && Moves(s, v, r)
  {
    if v == Fail || s.io.hsBuf != [] then (Error, s)
    else (Ok, s.(io := s.io.(tally := s.io.tally.(readEpoch := s.io.tally.readEpoch + 1)), state := ReadNextProto))
  }

  function DoReadNextProto(s: Server, v: Verdict): (r: (Wait, Server))
    requires s.state == ReadNextProto
    ensures Sound(s, r) && Moves(s, v, r)
  {
    if !s.config.npn then (Ok, s.(state := ReadChannelId))
    else if s.io.hsBuf == [] then (ReadMessage, s)
    else if s.io.hsBuf[0] != NextProto || v == Fail then (Error, s)
    else (Ok, s.(io := Consume(s.io), state := ReadChannelId))
  }

  function DoReadChannelId(s: Server, v: Verdict): (r: (Wait, Server))
    requires s.state == ReadChannelId
    ensures Sound(s, r) && Moves(s, v, r)
  {
    if !s.agreed.channelId then (Ok, s.(state := ReadClientFinished))
    else if s.io.hsBuf == [] then (ReadMessage, s)
    else if s.io.hsBuf[0] != ChannelId || v == Fail then (Error, s)
    else (Ok, s.(io := Consume(s.io), state := ReadClientFinished))
  }

  function DoReadClientFinished(s: Server, v: Verdict): (r: (Wait, Server))
    requires s.state == ReadClientFinished
    ensures Sound(s, r) && Moves(s, v, r)
  {
    var (wait, io) := GetFinished(s.io, false, v);
    if wait != Ok then (wait, s)
    else (Ok, s.(io := io, state := if s.agreed.resumed then FinishServerHandshake else SendServerFinished))
  }

  /** A ticket, if one is due, comes under the old keys, before the ChangeCipherSpec. */
  function DoSendServerFinished(s: Server, v: Verdict): (r: (Wait, Server))
    requires s.state == SendServerFinished
    ensures Sound(s, r) && Moves(s, v, r)
  {
    if v == Fail then (Error, s)
    else
      var io := if s.agreed.ticketExpected then Send(s.io, NewSessionTicket(false)) else s.io;
      (Flush, s.(io := SendFinished(ChangeWriteCipher(io), true),
                 state := if s.agreed.resumed then ReadChangeCipherSpecState else FinishServerHandshake))
  }

  function DoFinishServerHandshake(s: Server): (r: (Wait, Server))
    requires s.state == FinishServerHandshake
    ensures Sound(s, r) && Moves(s, Succeed, r)
  {
    (Ok, s.(state := Done))
  }

  /** One turn of the loop in ssl_server_handshake. The TLS 1.3 handshake is one opaque state. */
  function Step(s: Server, v: Verdict): (Wait, Server) {
    match s.state
    case StartAccept => DoStartAccept(s)
    case ReadClientHello => DoReadClientHello(s, v)
    case SelectCertificate => DoSelectCertificate(s, v)
    case Tls13 => (Tls13Handshake, s)
    case SelectParameters => DoSelectParameters(s, v)
    case SendServerHello => DoSendServerHello(s, v)
    case SendServerCertificate => DoSendServerCertificate(s, v)
    case SendServerKeyExchange => DoSendServerKeyExchange(s, v)
    case SendServerHelloDone => DoSendServerHelloDone(s, v)
    case ReadClientCertificate => DoReadClientCertificate(s, v)
    case VerifyClientCertificate => DoVerifyClientCertificate(s, v)
    case ReadClientKeyExchange => DoReadClientKeyExchange(s, v)
    case ReadClientCertificateVerify => DoReadClientCertificateVerify(s, v)
    case ReadChangeCipherSpecState => DoReadChangeCipherSpec(s)
    case ProcessChangeCipherSpec => DoProcessChangeCipherSpec(s, v)
    case ReadNextProto => DoReadNextProto(s, v)
    case ReadChannelId => DoReadChannelId(s, v)
    case ReadClientFinished => DoReadClientFinished(s, v)
    case SendServerFinished => DoSendServerFinished(s, v)
    case FinishServerHandshake => DoFinishServerHandshake(s)
    case Done => (Ok, s)
  }

  /** Every step that lets the loop go on lowers the rank, none raises it, and all keep the tally. */
  lemma StepSound(s: Server, v: Verdict)
    requires s.state != Done
    ensures Sound(s, Step(s, v)) && Moves(s, v, Step(s, v))
  {
    hide DoStartAccept, DoReadClientHello, DoSelectCertificate, DoSelectParameters, DoSendServerHello;
    hide DoSendServerCertificate, DoSendServerKeyExchange, DoSendServerHelloDone, DoReadClientCertificate;
    hide DoVerifyClientCertificate, DoReadClientKeyExchange, DoReadClientCertificateVerify, DoReadChangeCipherSpec;
    hide DoProcessChangeCipherSpec, DoReadNextProto, DoReadChannelId, DoReadClientFinished, DoSendServerFinished;
    hide DoFinishServerHandshake, Sound;
    if s.state == Tls13 {
      SoundHandOver(s);
    }
  }

  lemma SoundHandOver(s: Server)
    requires s.state == Tls13
    ensures Sound(s, (Tls13Handshake, s))
  {}

  // ---------- Which messages a state takes and sends ----------

  predicate Takes(state: State, m: Msg) {
    match state
    case SelectParameters => m.ClientHello?
    case ReadClientCertificate => m.Certificate?
    case ReadClientKeyExchange => m == ClientKeyExchange
    case ReadClientCertificateVerify => m.CertificateVerify?
    case ReadNextProto => m == NextProto
    case ReadChannelId => m == ChannelId
    case ReadClientFinished => m.Finished? && !m.fromServer
    case _ => false
  }

  predicate Emits(state: State, m: Msg) {
    match state
    case SendServerHello => m.ServerHello?
    case SendServerCertificate => m == Certificate(true) || m == CertificateStatus
    case SendServerKeyExchange => m == ServerKeyExchange
    case SendServerHelloDone => m == CertificateRequest || m == ServerHelloDone
    case SendServerFinished => m.NewSessionTicket? || (m.Finished? && m.fromServer)
    case _ => false
  }

  /** Where a state can lead, besides staying. */
  predicate Leads(state: State, next: State) {
    match state
    case StartAccept => next == ReadClientHello
    case ReadClientHello => next == SelectCertificate
    case SelectCertificate => next == Tls13 || next == SelectParameters
    case SelectParameters => next == SendServerHello
    case SendServerHello => next == SendServerCertificate || next == SendServerFinished
    case SendServerCertificate => next == SendServerKeyExchange
    case SendServerKeyExchange => next == SendServerHelloDone
    case SendServerHelloDone => next == ReadClientCertificate
    case ReadClientCertificate => next == VerifyClientCertificate
    case VerifyClientCertificate => next == ReadClientKeyExchange
    case ReadClientKeyExchange => next == ReadClientCertificateVerify
    case ReadClientCertificateVerify => next == ReadChangeCipherSpecState
    case ReadChangeCipherSpecState => next == ProcessChangeCipherSpec
    case ProcessChangeCipherSpec => next == ReadNextProto
    case ReadNextProto => next == ReadChannelId
    case ReadChannelId => next == ReadClientFinished
    case ReadClientFinished => next == SendServerFinished || next == FinishServerHandshake
    case SendServerFinished => next == ReadChangeCipherSpecState || next == FinishServerHandshake
    case FinishServerHandshake => next == Done
    case _ => false
  }

  predicate EmitsRecord(state: State, r: Record) {
    match r
    case Ccs => state == SendServerFinished
    case Hs(msgs, _) => |msgs| == 1 && Emits(state, msgs[0])
  }

  /** A step takes at most the first message, and only one that its state takes. */
  ghost predicate TakesInOrder(s: Server, r: (Wait, Server)) {
    r.1.io.hsBuf == s.io.hsBuf
    || (s.io.hsBuf != [] && Takes(s.state, s.io.hsBuf[0]) && r.1.io.hsBuf == s.io.hsBuf[1..])
  }

  /** It adds to the flight only what its state sends. */
  ghost predicate EmitsOnly(s: Server, r: (Wait, Server)) {
    && s.io.flight <= r.1.io.flight
    && forall i | |s.io.flight| <= i < |r.1.io.flight| :: EmitsRecord(s.state, r.1.io.flight[i])
  }

  lemma StepTakes(s: Server, v: Verdict)
    ensures TakesInOrder(s, Step(s, v))
  {
    hide Sound, Moves, EmitsOnly;
  }

  lemma SendServerCertificateEmits(s: Server, v: Verdict)
    requires s.state == SendServerCertificate
    ensures EmitsOnly(s, DoSendServerCertificate(s, v))
  {
    hide Sound, Moves;
  }

  lemma SendServerHelloDoneEmits(s: Server, v: Verdict)
    requires s.state == SendServerHelloDone
    ensures EmitsOnly(s, DoSendServerHelloDone(s, v))
  {
    hide Sound, Moves;
  }

  lemma SendServerFinishedEmits(s: Server, v: Verdict)
    requires s.state == SendServerFinished
    ensures EmitsOnly(s, DoSendServerFinished(s, v))
  {
    hide Sound, Moves;
  }

  lemma StepEmits(s: Server, v: Verdict)
    ensures EmitsOnly(s, Step(s, v))
  {
    hide Sound, Moves, DoSendServerCertificate, DoSendServerHelloDone, DoSendServerFinished;
    match s.state
    case SendServerCertificate => SendServerCertificateEmits(s, v);
    case SendServerHelloDone => SendServerHelloDoneEmits(s, v);
    case SendServerFinished => SendServerFinishedEmits(s, v);
    case _ =>
  }

  /** Whatever the peer has sent and whatever the oracles say, each state takes and sends nothing but its own
      messages, and goes only where it leads. */
  lemma StepOrderly(s: Server, v: Verdict)
    ensures TakesInOrder(s, Step(s, v)) && EmitsOnly(s, Step(s, v))
    ensures Step(s, v).1.state == s.state || Leads(s.state, Step(s, v).1.state)
  {
    hide Sound, Moves, TakesInOrder, EmitsOnly;
    StepTakes(s, v);
    StepEmits(s, v);
  }

  // ---------- Runs against an arbitrary peer ----------

  /** One turn of do_handshake, or ssl_run_handshake resolving what the machine waits for. */
  datatype Event = Advance(v: Verdict) | Resume | FlushDone | Receive(record: Record)

  function Apply(d: Side, e: Event): Side {
    match e
    case Advance(v) =>
      if d.wait != Ok || d.s.state == Done then d
      else
        var (wait, s) := Step(d.s, v);
        Side(s, wait)
    case Resume =>
      if ReturnsToCaller(d.wait) then Side(d.s, Ok) else d
    case FlushDone =>
      if d.wait == Flush then Side(d.s.(io := d.s.io.(flight := [])), Ok) else d
    case Receive(record) =>
      if !WaitsToRead(d.wait) then d
      else
        var (wait, io) := Deliver(d.s.io, d.wait, record);
        Side(d.s.(io := io), wait)
  }

  function Run(d: Side, events: seq<Event>): Side {
    if |events| == 0 then d else Apply(Run(d, events[..|events| - 1]), events[|events| - 1])
  }

  lemma ApplySafe(d: Side, e: Event)
    requires Safe(d)
    ensures Safe(Apply(d, e))
  {
    match e
    case Advance(v) =>
      if d.wait == Ok && d.s.state != Done {
        StepSound(d.s, v);
        assert Safe(Side(d.s, Ok));
      }
    case Resume =>
    case FlushDone =>
    case Receive(record) =>
  }

  lemma {:induction false} RunSafe(d: Side, events: seq<Event>)
    requires Safe(d)
    ensures Safe(Run(d, events))
  {
    if |events| > 0 {
      RunSafe(d, events[..|events| - 1]);
      ApplySafe(Run(d, events[..|events| - 1]), events[|events| - 1]);
    }
  }

  lemma RunSnoc(d: Side, events: seq<Event>, e: Event)
    ensures Run(d, events + [e]) == Apply(Run(d, events), e)
  {
    assert (events + [e])[..|events|] == events;
  }

  lemma RunNothing(d: Side)
    ensures Run(d, []) == d
  {}

  lemma RunOnce(d: Side, e: Event)
    ensures Run(d, [e]) == Apply(d, e)
  {
    assert [e][..0] == [];
  }

  lemma {:induction false} RunAppend(d: Side, a: seq<Event>, b: seq<Event>)
    ensures Run(d, a + b) == Run(Run(d, a), b)
  {
    if b == [] {
      assert a + b == a;
    } else {
      var init := b[..|b| - 1];
      assert a + b == (a + init) + [b[|b| - 1]];
      RunSnoc(d, a + init, b[|b| - 1]);
      RunAppend(d, a, init);
    }
  }

  /** Whatever the peer sends and whatever the oracles say, a server that is done has verified exactly
      one client Finished, sent exactly one Finished, and changed each cipher exactly once, the read
      cipher after a ChangeCipherSpec. */
  lemma DoneMeansVerified(config: Config, events: seq<Event>)
    ensures var s := Run(Side(New(config), Ok), events).s;
            s.state == Done ==>
              && s.io.tally.finishedVerified == 1 && s.io.tally.finishedSent == 1
              && s.io.tally.ccsSent == 1 && s.io.tally.readEpoch == 1
              && s.io.tally.ccsReceived == 1
  {
    hide Run;
    RunSafe(Side(New(config), Ok), events);
  }

  /** A server takes no client certificate, at any point after the key exchange of any run, that was
      not accepted and whose key did not sign the transcript. */
  lemma ClientCertificateIsProven(config: Config, events: seq<Event>)
    ensures var d := Run(Side(New(config), Ok), events);
            d.s.agreed.peerCert && Rank(d.s.state, d.s.agreed.resumed) < Rank(ReadClientCertificateVerify, false) ==>
              d.s.io.tally.peerAccepted && d.s.io.tally.signatureChecked
  {
    hide Run;
    RunSafe(Side(New(config), Ok), events);
  }

  // ---------- The loops ----------

  /** The server's SSL_HANDSHAKE under its two loops. What the oracles and the transport say is left
      open at each turn; the ghost results record it, so that all lemmas about runs apply. */
  class Machine {
    var s: Server
    var wait: Wait

    constructor (config: Config)
      ensures s == New(config) && wait == Ok
    {
      s, wait := New(config), Ok;
    }

    /** ssl_server_handshake: step until done or blocked. Ends because every such step lowers the rank. */
    method Handshake() returns (ret: Wait, ghost events: seq<Event>)
      modifies this`s
      ensures Side(s, ret) == Run(Side(old(s), Ok), events)
      ensures ret == Ok ==> s.state == Done
      ensures Rank(s.state, s.agreed.resumed) <= old(Rank(s.state, s.agreed.resumed))
      ensures ret == Flush ==> Rank(s.state, s.agreed.resumed) < old(Rank(s.state, s.agreed.resumed))
    {
      hide Step, Safe, Rank;
      ret, events := Ok, [];
      while s.state != Done
        invariant Side(s, Ok) == Run(Side(old(s), Ok), events)
        invariant Rank(s.state, s.agreed.resumed) <= old(Rank(s.state, s.agreed.resumed))
        decreases Rank(s.state, s.agreed.resumed)
      {
        var v: Verdict := *;
        StepSound(s, v);
        RunSnoc(Side(old(s), Ok), events, Advance(v));
        events := events + [Advance(v)];
        var (w, next) := Step(s, v);
        s := next;
        if w != Ok {
          return w, events;
        }
      }
    }

    /** Resolves what the handshake was waiting for, if it can: the switch in ssl_run_handshake. `written` says
        whether the transport takes the flight. */
    method Resolve(input: seq<Record>, written: bool) returns (blocked: bool, early: bool, rest: seq<Record>, ghost events: seq<Event>)
      modifies this
      ensures Side(s, wait) == Run(old(Side(s, wait)), events)
      ensures !blocked ==> wait == Ok
      ensures !blocked <==>
                || old(wait) == Ok || (old(wait) == Flush && written)
                || (WaitsToRead(old(wait)) && input != [] && Deliver(old(s.io), old(wait), input[0]).0 == Ok)
      ensures early <==> old(wait) == EarlyReturn
      ensures rest == if WaitsToRead(old(wait)) && input != [] then input[1..] else input
      ensures ReturnsToCaller(old(wait)) ==> wait == Ok && events == [Resume]
      ensures blocked && !ReturnsToCaller(old(wait)) ==>
                wait == Error || (wait == old(wait) != Ok && (wait == Flush ==> !written) && (WaitsToRead(wait) ==> input == []))
      ensures !blocked && rest == input ==>
                (old(wait) == Ok || old(wait) == Flush) && s.state == old(s.state) && s.agreed == old(s.agreed)
    {
      hide Step, Safe, Deliver, Rank, Run;
      RunNothing(Side(s, wait));
      blocked, early, rest, events := true, false, input, [];
      if wait == Flush {
        if written {
          events := [FlushDone];
          RunOnce(Side(s, wait), FlushDone);
          s, wait, blocked := s.(io := s.io.(flight := [])), Ok, false;
        }
      } else if WaitsToRead(wait) {
        if input != [] {
          events := [Receive(input[0])];
          RunOnce(Side(s, wait), events[0]);
          var (w, io) := Deliver(s.io, wait, input[0]);
          s, wait, rest, blocked := s.(io := io), w, input[1..], w == Error;
        }
      } else if ReturnsToCaller(wait) {
        events := [Resume];
        RunOnce(Side(s, wait), Resume);
        early := wait == EarlyReturn;
        wait := Ok;
      } else {
        blocked := wait != Ok;
      }
    }

    /** The run has just returned to the caller, early or for a callback. */
    ghost predicate Returned(start: Side, events: seq<Event>, early: bool) {
      && events != [] && events[|events| - 1] == Resume
      && var w := Run(start, events[..|events| - 1]).wait;
         ReturnsToCaller(w) && early == (w == EarlyReturn)
    }

    /** ssl_run_handshake over the records that can be read now. A positive result that is not an early
        return means that the handshake is complete. It is not positive only after an error, for lack of
        input or of a callback, or because the transport does not take a flight; a `willing` one does. */
    method RunHandshake(input: seq<Record>, willing: bool) returns (ret: int, early: bool, rest: seq<Record>, ghost events: seq<Event>)
      modifies this
      ensures Side(s, wait) == Run(old(Side(s, wait)), events)
      ensures ret > 0 && !early ==> s.state == Done && wait == Ok
      ensures ret <= 0 ==>
                || wait == Error || wait == Tls13Handshake || (wait == Flush && !willing) || (WaitsToRead(wait) && rest == [])
                || Returned(old(Side(s, wait)), events, false)
      ensures early ==> ret > 0 && wait == Ok && Returned(old(Side(s, wait)), events, true)
      ensures Remains(rest, input)
    {
      hide Step, Safe, Run, Rank, Apply, Remains;
      rest, events := input, [];
      StartRemains(input);
      RunNothing(Side(s, wait));
      while true
        invariant Side(s, wait) == Run(old(Side(s, wait)), events)
        invariant Remains(rest, input)
        decreases |rest|, Rank(s.state, s.agreed.resumed), Phase(wait)
      {
        ghost var before := events;
        ghost var more: seq<Event>;
        var blocked: bool;
        ghost var had := rest;
        var written: bool := *;
        written := written || willing;
        blocked, early, rest, more := Resolve(rest, written);
        OneLessRemains(had, rest, input);
        RunAppend(old(Side(s, wait)), before, more);
        events := before + more;
        if blocked {
          assert more == [Resume] ==> events[..|events| - 1] == before;
          return if early then 1 else -1, early, rest, events;
        }
        wait, more := Handshake();
        RunAppend(old(Side(s, wait)), events, more);
        events := events + more;
        if wait == Error || wait == Ok {
          return if wait == Ok then 1 else -1, false, rest, events;
        }
      }
    }
  }
}
