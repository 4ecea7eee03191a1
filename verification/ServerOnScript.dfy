/** A server whose oracles do not fail keeps to the script, whatever it is fed from the script. */
module ServerOnScript {
  import opened Handshake
  import opened HandshakeScript
  import opened ServerHandshake

  /** The slots behind a server. A ChangeCipherSpec is behind it once it has been received. */
  function Position(p: Params, state: State, wait: Wait): nat {
    match state
    case StartAccept => 0
    case ReadClientHello => 0
    case SelectCertificate => 0
    case Tls13 => 0
    case SelectParameters => 0
    case SendServerHello => 1
    case SendServerCertificate => 5
    case SendServerKeyExchange => 7
    case SendServerHelloDone => 8
    case ReadClientCertificate => 10
    case VerifyClientCertificate => 11
    case ReadClientKeyExchange => 11
    case ReadClientCertificateVerify => 12
    case ReadChangeCipherSpecState => 13
    case ProcessChangeCipherSpec => if wait == ReadChangeCipherSpec then 13 else 14
    case ReadNextProto => 14
    case ReadChannelId => 15
    case ReadClientFinished => 16
    case SendServerFinished => if p.resumed then 2 else 17
    case FinishServerHandshake => 20
    case Done => 20
  }

  /** States in which a part of a flight is waiting for the rest. */
  predicate MidFlight(state: State) {
    state.SendServerCertificate? || state.SendServerKeyExchange? || state.SendServerHelloDone? || state.SendServerFinished?
  }

  /** The parameters are what this server makes of the client's offer, and it can serve them. */
  ghost predicate Fits(p: Params, g: Config) {
    && !g.tls13 && p.kind == g.kind
    && p.resumed == (p.offersSession && g.findsSession)
    && p.status == (g.stapling && !p.resumed && g.kind.UsesCertificate())
    && p.serverParams == NeedsParams(g)
    && p.certRequest == (!p.resumed && g.verifyPeer && !(g.onlyWithoutChannelId && g.channelId) && g.kind.UsesCertificate())
    && p.ticket == (if p.resumed then g.renewsTicket else g.ticketsSupported)
    && p.npn == g.npn
    && p.channelId == (g.channelId && (g.kind.Ecdhe? || g.kind.EcdhePsk?) && (p.resumed ==> g.savedHashes))
    && (g.kind.UsesCertificate() && !p.resumed ==> g.hasCertificate)
    && (g.requiresPeer && p.certRequest ==> p.clientCert)
  }

  /** What the server has settled of the parameters. */
  ghost predicate Knows(p: Params, s: Server) {
    var at := Position(p, s.state, Ok);
    var g := s.agreed;
    && Fits(p, s.config)
    && (if at == 0 then g == Agreed(false, false, false, false, false, false, false)
        else
          && g.resumed == p.resumed && g.ticketExpected == p.ticket && g.certRequest == p.certRequest
          && (if s.state.SendServerHello? then !g.statusExpected && g.channelId == s.config.channelId
              else g.statusExpected == p.status && g.channelId == p.channelId)
          && g.hasParams == (s.state.SendServerKeyExchange? && p.serverParams)
          && g.peerCert == (11 <= at && p.certRequest && p.clientCert))
  }

  ghost predicate OnScript(p: Params, d: Side) {
    var s := d.s;
    && Safe(d) && Knows(p, s) && |s.io.hsBuf| <= 1
    && !s.state.Tls13? && d.wait != Error && d.wait != Tls13Handshake
    && s.io.transcript == Transcript(p, Position(p, s.state, d.wait))
    && (d.wait != Flush && !MidFlight(s.state) ==> s.io.flight == [])
    && (s.state == Done ==> d.wait == Ok)
    && (WaitsToRead(d.wait) ==> Awaits(p, true, Position(p, s.state, d.wait), s.io, d.wait))
  }

  ghost predicate Ready(p: Params, s: Server, v: Verdict, k: nat) {
    OnScript(p, Side(s, Ok)) && Fed(p, true, Position(p, s.state, Ok), s.io, k) && v != Fail
  }

  ghost predicate Good(p: Params, s: Server, r: (Wait, Server)) {
    && OnScript(p, Side(r.1, r.0))
    && Follows(p, true, Position(p, s.state, Ok), Position(p, r.1.state, r.0), s.io, r.1.io)
  }

  /** What the tally says of the states in which the server sends or waits. */
  lemma Epochs(p: Params, s: Server)
    requires OnScript(p, Side(s, Ok))
    ensures Position(p, s.state, Ok) <= 12 || s.state.SendServerFinished? ==> s.io.tally.writeEpoch == 0
    ensures !s.state.SendServerFinished? && !s.state.ProcessChangeCipherSpec? ==>
              s.io.tally.readEpoch == One(Position(p, s.state, Ok) > CLIENT_CCS)
    ensures 5 <= Position(p, s.state, Ok) <= 12 ==> !p.resumed
    ensures s.state.ProcessChangeCipherSpec? ==> s.io.tally.readEpoch == 0
    ensures s.state.SendServerFinished? && p.resumed ==> s.io.tally.readEpoch == 0
  {}

  lemma StaysSafe(s: Server, r: (Wait, Server))
    requires Sound(s, r) && Safe(Side(s, Ok))
    ensures Safe(Side(r.1, r.0))
  {}

  lemma OnStartAccept(p: Params, s: Server, v: Verdict, k: nat)
    requires Ready(p, s, v, k) && s.state == StartAccept
    ensures Good(p, s, DoStartAccept(s))
  {
    hide Safe, Sound, Fed, Follows, Between, Transcript;
    Epochs(p, s);
    var r := DoStartAccept(s);
    StaysSafe(s, r);
    if s.io.hsBuf != [] {
      FedIs(p, true, 0, s.io, k, 0);
    }
    FollowsIdle(p, true, 0, Position(p, r.1.state, r.0), s.io, r.1.io);
  }

  lemma OnReadClientHello(p: Params, s: Server, v: Verdict, k: nat)
    requires Ready(p, s, v, k) && s.state == ReadClientHello
    ensures Good(p, s, DoReadClientHello(s, v))
  {
    hide Safe, Sound, Fed, Follows, Between, Transcript;
    Epochs(p, s);
    var r := DoReadClientHello(s, v);
    StaysSafe(s, r);
    if s.io.hsBuf != [] {
      FedIs(p, true, 0, s.io, k, 0);
    }
    FollowsIdle(p, true, 0, Position(p, r.1.state, r.0), s.io, r.1.io);
  }

  lemma OnSelectCertificate(p: Params, s: Server, v: Verdict, k: nat)
    requires Ready(p, s, v, k) && s.state == SelectCertificate
    ensures Good(p, s, DoSelectCertificate(s, v))
  {
    hide Safe, Sound, Fed, Follows, Between, Transcript;
    Epochs(p, s);
    var r := DoSelectCertificate(s, v);
    StaysSafe(s, r);
    if s.io.hsBuf != [] {
      FedIs(p, true, 0, s.io, k, 0);
    }
    FollowsIdle(p, true, 0, Position(p, r.1.state, r.0), s.io, r.1.io);
  }

  lemma OnSelectParameters(p: Params, s: Server, v: Verdict, k: nat)
    requires Ready(p, s, v, k) && s.state == SelectParameters
    ensures Good(p, s, DoSelectParameters(s, v))
  {
    hide Safe, Sound, Fed, Follows, Between, Transcript;
    Epochs(p, s);
    var r := DoSelectParameters(s, v);
    StaysSafe(s, r);
    if s.io.hsBuf == [] || v == Retry {
      if s.io.hsBuf != [] {
        FedIs(p, true, 0, s.io, k, 0);
      }
      FollowsIdle(p, true, 0, Position(p, r.1.state, r.0), s.io, r.1.io);
    } else {
      FedIs(p, true, 0, s.io, k, 0);
      FollowsRead(p, true, 0, 0, 1, s.io, r.1.io);
    }
  }

  lemma OnSendServerHello(p: Params, s: Server, v: Verdict, k: nat)
    requires Ready(p, s, v, k) && s.state == SendServerHello
    ensures Good(p, s, DoSendServerHello(s, v))
  {
    hide Safe, Sound, Fed, Follows, Between, Transcript;
    Epochs(p, s);
    var r := DoSendServerHello(s, v);
    StaysSafe(s, r);
    FollowsSend(p, true, 1, 1, if p.resumed then 2 else 5, s.io, r.1.io);
  }

  lemma OnSendServerCertificate(p: Params, s: Server, v: Verdict, k: nat)
    requires Ready(p, s, v, k) && s.state == SendServerCertificate
    ensures Good(p, s, DoSendServerCertificate(s, v))
  {
    hide Safe, Sound, Fed, Follows, Between, Transcript;
    Epochs(p, s);
    var r := DoSendServerCertificate(s, v);
    StaysSafe(s, r);
    SendsServerCertificate(p, s.io);
  }

  lemma SendsServerCertificate(p: Params, io: Io)
    requires io.transcript == Transcript(p, 5) && io.tally.writeEpoch == 0 && !p.resumed
    requires p.status ==> p.kind.UsesCertificate()
    ensures var io1 := if p.kind.UsesCertificate() then Send(io, Certificate(true)) else io;
            var io2 := if p.kind.UsesCertificate() && p.status then Send(io1, CertificateStatus) else io1;
            Follows(p, true, 5, 7, io, io2) && io2.transcript == Transcript(p, 7)
  {
    var io1 := if p.kind.UsesCertificate() then Send(io, Certificate(true)) else io;
    var io2 := if p.kind.UsesCertificate() && p.status then Send(io1, CertificateStatus) else io1;
    if p.kind.UsesCertificate() {
      FollowsSend(p, true, 5, 5, 6, io, io1);
    } else {
      FollowsIdle(p, true, 5, 6, io, io1);
    }
    if p.status {
      FollowsSend(p, true, 6, 6, 7, io1, io2);
    } else {
      FollowsIdle(p, true, 6, 7, io1, io2);
    }
    FollowsThen(p, true, 5, 6, 7, io, io1, io2);
  }

  lemma OnSendServerKeyExchange(p: Params, s: Server, v: Verdict, k: nat)
    requires Ready(p, s, v, k) && s.state == SendServerKeyExchange
    ensures Good(p, s, DoSendServerKeyExchange(s, v))
  {
    hide Safe, Sound, Fed, Follows, Between, Transcript;
    Epochs(p, s);
    var r := DoSendServerKeyExchange(s, v);
    StaysSafe(s, r);
    if !p.serverParams || (v == Retry && p.kind.UsesCertificate()) {
      FollowsIdle(p, true, 7, Position(p, r.1.state, r.0), s.io, r.1.io);
    } else {
      FollowsSend(p, true, 7, 7, 8, s.io, r.1.io);
    }
  }

  lemma OnSendServerHelloDone(p: Params, s: Server, v: Verdict, k: nat)
    requires Ready(p, s, v, k) && s.state == SendServerHelloDone
    ensures Good(p, s, DoSendServerHelloDone(s, v))
  {
    hide Safe, Sound, Fed, Follows, Between, Transcript;
    Epochs(p, s);
    var r := DoSendServerHelloDone(s, v);
    StaysSafe(s, r);
    SendsServerHelloDone(p, s.io);
  }

  lemma SendsServerHelloDone(p: Params, io: Io)
    requires io.transcript == Transcript(p, 8) && io.tally.writeEpoch == 0 && !p.resumed
    ensures var io1 := if p.certRequest then Send(io, CertificateRequest) else io;
            Follows(p, true, 8, 10, io, Send(io1, ServerHelloDone)) && Send(io1, ServerHelloDone).transcript == Transcript(p, 10)
  {
    var io1 := if p.certRequest then Send(io, CertificateRequest) else io;
    if p.certRequest {
      FollowsSend(p, true, 8, 8, 9, io, io1);
    } else {
      FollowsIdle(p, true, 8, 9, io, io1);
    }
    FollowsSend(p, true, 9, 9, 10, io1, Send(io1, ServerHelloDone));
    FollowsThen(p, true, 8, 9, 10, io, io1, Send(io1, ServerHelloDone));
  }

  lemma OnReadClientCertificate(p: Params, s: Server, v: Verdict, k: nat)
    requires Ready(p, s, v, k) && s.state == ReadClientCertificate
    ensures Good(p, s, DoReadClientCertificate(s, v))
  {
    hide Safe, Sound, Fed, Follows, Between, Transcript;
    Epochs(p, s);
    var r := DoReadClientCertificate(s, v);
    StaysSafe(s, r);
    if s.io.hsBuf == [] || !p.certRequest {
      FollowsIdle(p, true, 10, Position(p, r.1.state, r.0), s.io, r.1.io);
    } else {
      FedIs(p, true, 10, s.io, k, 10);
      FollowsRead(p, true, 10, 10, 11, s.io, r.1.io);
    }
  }

  lemma OnVerifyClientCertificate(p: Params, s: Server, v: Verdict, k: nat)
    requires Ready(p, s, v, k) && s.state == VerifyClientCertificate
    ensures Good(p, s, DoVerifyClientCertificate(s, v))
  {
    hide Safe, Sound, Fed, Follows, Between, Transcript;
    Epochs(p, s);
    var r := DoVerifyClientCertificate(s, v);
    StaysSafe(s, r);
    FollowsIdle(p, true, 11, Position(p, r.1.state, r.0), s.io, r.1.io);
  }

  lemma OnReadClientKeyExchange(p: Params, s: Server, v: Verdict, k: nat)
    requires Ready(p, s, v, k) && s.state == ReadClientKeyExchange
    ensures Good(p, s, DoReadClientKeyExchange(s, v))
  {
    hide Safe, Sound, Fed, Follows, Between, Transcript;
    Epochs(p, s);
    var r := DoReadClientKeyExchange(s, v);
    StaysSafe(s, r);
    if s.io.hsBuf == [] || (v == Retry && p.kind == Rsa) {
      if s.io.hsBuf != [] {
        FedIs(p, true, 11, s.io, k, 11);
      }
      FollowsIdle(p, true, 11, Position(p, r.1.state, r.0), s.io, r.1.io);
    } else {
      FedIs(p, true, 11, s.io, k, 11);
      FollowsRead(p, true, 11, 11, 12, s.io, r.1.io);
    }
  }

  lemma OnReadClientCertificateVerify(p: Params, s: Server, v: Verdict, k: nat)
    requires Ready(p, s, v, k) && s.state == ReadClientCertificateVerify
    ensures Good(p, s, DoReadClientCertificateVerify(s, v))
  {
    hide Safe, Sound, Fed, Follows, Between, Transcript;
    Epochs(p, s);
    var r := DoReadClientCertificateVerify(s, v);
    StaysSafe(s, r);
    if s.io.hsBuf == [] || !p.certRequest || !p.clientCert {
      FollowsIdle(p, true, 12, Position(p, r.1.state, r.0), s.io, r.1.io);
    } else {
      FedIs(p, true, 12, s.io, k, 12);
      FollowsRead(p, true, 12, 12, 13, s.io, r.1.io);
    }
  }

  lemma OnReadChangeCipherSpec(p: Params, s: Server, v: Verdict, k: nat)
    requires Ready(p, s, v, k) && s.state == ReadChangeCipherSpecState
    ensures Good(p, s, DoReadChangeCipherSpec(s))
  {
    hide Safe, Sound, Fed, Follows, Between, Transcript;
    Epochs(p, s);
    var r := DoReadChangeCipherSpec(s);
    StaysSafe(s, r);
    NothingBeforeChange(p, s, v, k);
    FollowsIdle(p, true, 13, Position(p, r.1.state, r.0), s.io, r.1.io);
  }

  lemma NothingBeforeChange(p: Params, s: Server, v: Verdict, k: nat)
    requires Ready(p, s, v, k) && s.state == ReadChangeCipherSpecState
    ensures s.io.hsBuf == []
  {
    assert Present(p, 13) && !FromServer(13) && IsCcs(13);
  }

  lemma NothingLeft(p: Params, s: Server, v: Verdict, k: nat)
    requires Ready(p, s, v, k) && s.state == ProcessChangeCipherSpec
    ensures s.io.hsBuf == []
  {
    hide Safe;
    Epochs(p, s);
  }

  lemma OnProcessChangeCipherSpec(p: Params, s: Server, v: Verdict, k: nat)
    requires Ready(p, s, v, k) && s.state == ProcessChangeCipherSpec
    ensures Good(p, s, DoProcessChangeCipherSpec(s, v))
  {
    hide Safe, Sound, Fed, Follows, Between, Transcript;
    Epochs(p, s);
    NothingLeft(p, s, v, k);
    var r := DoProcessChangeCipherSpec(s, v);
    StaysSafe(s, r);
    FollowsIdle(p, true, 14, Position(p, r.1.state, r.0), s.io, r.1.io);
  }

  lemma OnReadNextProto(p: Params, s: Server, v: Verdict, k: nat)
    requires Ready(p, s, v, k) && s.state == ReadNextProto
    ensures Good(p, s, DoReadNextProto(s, v))
  {
    hide Safe, Sound, Fed, Follows, Between, Transcript;
    Epochs(p, s);
    var r := DoReadNextProto(s, v);
    StaysSafe(s, r);
    if s.io.hsBuf == [] || !p.npn {
      FollowsIdle(p, true, 14, Position(p, r.1.state, r.0), s.io, r.1.io);
    } else {
      FedIs(p, true, 14, s.io, k, 14);
      FollowsRead(p, true, 14, 14, 15, s.io, r.1.io);
    }
  }

  lemma OnReadChannelId(p: Params, s: Server, v: Verdict, k: nat)
    requires Ready(p, s, v, k) && s.state == ReadChannelId
    ensures Good(p, s, DoReadChannelId(s, v))
  {
    hide Safe, Sound, Fed, Follows, Between, Transcript;
    Epochs(p, s);
    var r := DoReadChannelId(s, v);
    StaysSafe(s, r);
    if s.io.hsBuf == [] || !p.channelId {
      FollowsIdle(p, true, 15, Position(p, r.1.state, r.0), s.io, r.1.io);
    } else {
      FedIs(p, true, 15, s.io, k, 15);
      FollowsRead(p, true, 15, 15, 16, s.io, r.1.io);
    }
  }

  lemma OnReadClientFinished(p: Params, s: Server, v: Verdict, k: nat)
    requires Ready(p, s, v, k) && s.state == ReadClientFinished
    ensures Good(p, s, DoReadClientFinished(s, v))
  {
    hide Safe, Sound, Fed, Follows, Between, Transcript;
    Epochs(p, s);
    var r := DoReadClientFinished(s, v);
    StaysSafe(s, r);
    if s.io.hsBuf == [] {
      FollowsIdle(p, true, 16, Position(p, r.1.state, r.0), s.io, r.1.io);
    } else {
      FedIs(p, true, 16, s.io, k, 16);
      FollowsRead(p, true, 16, 16, if p.resumed then 20 else 17, s.io, r.1.io);
    }
  }

  lemma StillKnows(p: Params, s: Server, after: Server)
    requires Knows(p, s) && after == s.(state := after.state, io := after.io) && s.state.SendServerFinished?
    requires after.state == (if s.agreed.resumed then ReadChangeCipherSpecState else FinishServerHandshake)
    ensures Knows(p, after) && s.agreed.resumed == p.resumed && s.agreed.ticketExpected == p.ticket
  {}

  lemma OnSendServerFinished(p: Params, s: Server, v: Verdict, k: nat)
    requires Ready(p, s, v, k) && s.state == SendServerFinished
    ensures Good(p, s, DoSendServerFinished(s, v))
  {
    hide Safe, Sound, Fed, Follows, Between, Transcript, Knows;
    Epochs(p, s);
    var r := DoSendServerFinished(s, v);
    StaysSafe(s, r);
    StillKnows(p, s, r.1);
    SendsServerFinished(p, s.io, if p.resumed then 2 else 17);
  }

  lemma SendsServerFinished(p: Params, io: Io, at: nat)
    requires at == (if p.resumed then 2 else 17)
    requires io.transcript == Transcript(p, at) && io.tally.writeEpoch == 0
    ensures var io1 := if p.ticket then Send(io, NewSessionTicket(false)) else io;
            var io3 := SendFinished(ChangeWriteCipher(io1), true);
            var end := if p.resumed then 13 else 20;
            Follows(p, true, at, end, io, io3) && io3.transcript == Transcript(p, end)
  {
    var io1 := if p.ticket then Send(io, NewSessionTicket(false)) else io;
    var io2 := ChangeWriteCipher(io1);
    if p.ticket {
      FollowsSend(p, true, at, at, at + 1, io, io1);
    } else {
      FollowsIdle(p, true, at, at + 1, io, io1);
    }
    FollowsChange(p, true, at + 1, at + 1, at + 2, io1, io2);
    FollowsThen(p, true, at, at + 1, at + 2, io, io1, io2);
    var end := if p.resumed then 13 else 20;
    FollowsSend(p, true, at + 2, at + 2, end, io2, SendFinished(io2, true));
    FollowsThen(p, true, at, at + 2, end, io, io2, SendFinished(io2, true));
  }

  lemma OnFinishServerHandshake(p: Params, s: Server, v: Verdict, k: nat)
    requires Ready(p, s, v, k) && s.state == FinishServerHandshake
    ensures Good(p, s, DoFinishServerHandshake(s))
  {
    hide Safe, Sound, Fed, Follows, Between, Transcript;
    Epochs(p, s);
    var r := DoFinishServerHandshake(s);
    StaysSafe(s, r);
    FollowsIdle(p, true, 20, Position(p, r.1.state, r.0), s.io, r.1.io);
  }

  /** A server in good standing neither fails nor leaves the script. */
  lemma StepOnScript(p: Params, s: Server, v: Verdict, k: nat)
    requires Ready(p, s, v, k) && s.state != Done
    ensures Good(p, s, Step(s, v))
  {
    hide Good, Follows, Between, Transcript, MsgAt, Present, Safe, Sound, Position, Fed, Knows, Awaits;
    hide DoStartAccept, DoReadClientHello, DoSelectCertificate, DoSelectParameters, DoSendServerHello;
    hide DoSendServerCertificate, DoSendServerKeyExchange, DoSendServerHelloDone, DoReadClientCertificate;
    hide DoVerifyClientCertificate, DoReadClientKeyExchange, DoReadClientCertificateVerify, DoReadChangeCipherSpec;
    hide DoProcessChangeCipherSpec, DoReadNextProto, DoReadChannelId, DoReadClientFinished, DoSendServerFinished;
    hide DoFinishServerHandshake;
    match s.state
    case StartAccept => OnStartAccept(p, s, v, k);
    case ReadClientHello => OnReadClientHello(p, s, v, k);
    case SelectCertificate => OnSelectCertificate(p, s, v, k);
    case SelectParameters => OnSelectParameters(p, s, v, k);
    case SendServerHello => OnSendServerHello(p, s, v, k);
    case SendServerCertificate => OnSendServerCertificate(p, s, v, k);
    case SendServerKeyExchange => OnSendServerKeyExchange(p, s, v, k);
    case SendServerHelloDone => OnSendServerHelloDone(p, s, v, k);
    case ReadClientCertificate => OnReadClientCertificate(p, s, v, k);
    case VerifyClientCertificate => OnVerifyClientCertificate(p, s, v, k);
    case ReadClientKeyExchange => OnReadClientKeyExchange(p, s, v, k);
    case ReadClientCertificateVerify => OnReadClientCertificateVerify(p, s, v, k);
    case ReadChangeCipherSpecState => OnReadChangeCipherSpec(p, s, v, k);
    case ProcessChangeCipherSpec => OnProcessChangeCipherSpec(p, s, v, k);
    case ReadNextProto => OnReadNextProto(p, s, v, k);
    case ReadChannelId => OnReadChannelId(p, s, v, k);
    case ReadClientFinished => OnReadClientFinished(p, s, v, k);
    case SendServerFinished => OnSendServerFinished(p, s, v, k);
    case FinishServerHandshake => OnFinishServerHandshake(p, s, v, k);
    case _ =>
  }

  // ---------- Between the steps ----------

  lemma Flushed(p: Params, d: Side)
    requires OnScript(p, d) && d.wait == Flush
    ensures var r := Apply(d, FlushDone);
            OnScript(p, r) && Position(p, r.s.state, r.wait) == Position(p, d.s.state, d.wait)
  {
    ApplySafe(d, FlushDone);
    hide Safe, Transcript, Awaits;
  }

  lemma Resumed(p: Params, d: Side)
    requires OnScript(p, d) && ReturnsToCaller(d.wait)
    ensures var r := Apply(d, Resume);
            OnScript(p, r) && Position(p, r.s.state, r.wait) == Position(p, d.s.state, d.wait)
  {
    ApplySafe(d, Resume);
    hide Safe, Transcript, Awaits;
  }

  /** A handshake message that is awaited goes to the buffer. */
  lemma ReceivedMessage(p: Params, d: Side)
    requires OnScript(p, d) && WaitsToRead(d.wait) && d.wait != ReadChangeCipherSpec
    ensures var at := Position(p, d.s.state, d.wait);
            var k := Awaited(p, at);
            var r := Apply(d, Receive(RecordAt(p, k)));
            && OnScript(p, r) && RecordAt(p, k) == Hs([MsgAt(p, k)], d.s.io.tally.readEpoch)
            && r == Side(d.s.(io := d.s.io.(hsBuf := [MsgAt(p, k)])), Ok) && Position(p, d.s.state, Ok) == at
  {
    var k := Awaited(p, Position(p, d.s.state, d.wait));
    ApplySafe(d, Receive(RecordAt(p, k)));
    hide MsgAt, Awaited, Safe, Transcript, Knows;
    WaitsForMessage(p, d);
    var r := Apply(d, Receive(RecordAt(p, k)));
    assert r == Side(d.s.(io := d.s.io.(hsBuf := [MsgAt(p, k)])), Ok);
    hide Apply, Awaits;
    SameKnowledge(p, d.s, r.s);
  }

  lemma SameKnowledge(p: Params, before: Server, after: Server)
    requires Knows(p, before) && after == before.(io := after.io)
    ensures Knows(p, after)
  {}

  lemma WaitsForMessage(p: Params, d: Side)
    requires OnScript(p, d) && WaitsToRead(d.wait) && d.wait != ReadChangeCipherSpec
    ensures d.s.state != Done && Position(p, d.s.state, Ok) == Position(p, d.s.state, d.wait)
  {
    hide Knows, Transcript, MsgAt, Awaited, Apply;
  }

  /** A ChangeCipherSpec that is awaited moves the position at once. */
  lemma ReceivedChange(p: Params, d: Side)
    requires OnScript(p, d) && d.wait == ReadChangeCipherSpec
    ensures var at := Position(p, d.s.state, d.wait);
            var r := Apply(d, Receive(RecordAt(p, Awaited(p, at))));
            && OnScript(p, r) && r.wait == Ok && r.s.io.hsBuf == []
            && d.s.state.ProcessChangeCipherSpec? && Awaited(p, at) == at
            && Position(p, r.s.state, Ok) == at + 1
  {
    var at := Position(p, d.s.state, d.wait);
    ApplySafe(d, Receive(RecordAt(p, Awaited(p, at))));
    WaitsForChangeAt(p, d);
    hide MsgAt, Awaited, Safe, Transcript, Knows;
    TranscriptSkips(p, at, at + 1);
    var r := Apply(d, Receive(RecordAt(p, Awaited(p, at))));
    var t := d.s.io.tally;
    assert r == Side(d.s.(io := d.s.io.(tally := t.(ccsReceived := t.ccsReceived + 1))), Ok);
    hide Apply, Awaits;
    SameKnowledge(p, d.s, r.s);
  }

  lemma WaitsForChangeAt(p: Params, d: Side)
    requires OnScript(p, d) && d.wait == ReadChangeCipherSpec
    ensures d.s.state.ProcessChangeCipherSpec?
    ensures Awaited(p, Position(p, d.s.state, d.wait)) == Position(p, d.s.state, d.wait)
  {}
}
