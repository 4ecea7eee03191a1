/** A client whose oracles do not fail keeps to the script, whatever it is fed from the script. */
module ClientOnScript {
  import opened Handshake
  import opened HandshakeScript
  import opened ClientHandshake

  /** The slots behind a client. A ChangeCipherSpec is behind it once it has been received. */
  function Position(p: Params, state: State, wait: Wait): nat {
    match state
    case StartConnect => 0
    case EnterEarlyData => 1
    case ReadHelloVerifyRequest => 1
    case ReadServerHelloState => 1
    case Tls13 => 1
    case ReadServerCertificate => 5
    case ReadCertificateStatus => 6
    case VerifyServerCertificate => 7
    case ReadServerKeyExchange => 7
    case ReadCertificateRequest => 8
    case ReadServerHelloDone => 9
    case SendClientCertificate => 10
    case SendClientKeyExchange => 11
    case SendClientCertificateVerify => 12
    case SendClientFinished => 13
    case FinishFlight => 17
    case ReadSessionTicket => if p.resumed then 2 else 17
    case ProcessChangeCipherSpec => ServerCcs(p) + (if wait == ReadChangeCipherSpec then 0 else 1)
    case ReadServerFinished => ServerCcs(p) + 1
    case FinishClientHandshake => 20
    case Done => 20
  }

  /** States in which a part of a flight is waiting for the rest. */
  predicate MidFlight(state: State) {
    state.SendClientKeyExchange? || state.SendClientCertificateVerify? || state.SendClientFinished?
  }

  /** What the client has learned of the parameters. */
  ghost predicate Knows(p: Params, c: Client) {
    var at := Position(p, c.state, Ok);
    var g := c.agreed;
    && c.config.isDtls == false && c.config.offersSession == p.offersSession && c.config.hasCertificate == p.clientCert
    && (at >= 2 ==> g.kind == p.kind && g.resumed == p.resumed && g.statusExpected == p.status
                    && g.ticketExpected == p.ticket && g.npn == p.npn && g.channelId == p.channelId)
    && g.certRequest == (at >= 9 && p.certRequest)
  }

  ghost predicate OnScript(p: Params, d: Side) {
    var c := d.c;
    && Safe(d) && Knows(p, c) && WellFormed(p) && |c.io.hsBuf| <= 1
    && !c.state.ReadHelloVerifyRequest? && !c.state.Tls13? && d.wait != Error && d.wait != Tls13Handshake
    && c.io.transcript == Transcript(p, Position(p, c.state, d.wait))
    && (d.wait != Flush && !MidFlight(c.state) ==> c.io.flight == [])
    && (c.state == Done ==> d.wait == Ok)
    && (WaitsToRead(d.wait) ==> Awaits(p, false, Position(p, c.state, d.wait), c.io, d.wait))
  }

  ghost predicate Ready(p: Params, c: Client, v: Verdict, k: nat) {
    OnScript(p, Side(c, Ok)) && Fed(p, false, Position(p, c.state, Ok), c.io, k) && v != Fail
  }

  ghost predicate Good(p: Params, c: Client, r: (Wait, Client)) {
    && OnScript(p, Side(r.1, r.0))
    && Follows(p, false, Position(p, c.state, Ok), Position(p, r.1.state, r.0), c.io, r.1.io)
  }

  /** What the tally says of the states in which the client sends or waits. */
  lemma Epochs(p: Params, c: Client)
    requires OnScript(p, Side(c, Ok))
    ensures Position(p, c.state, Ok) <= 13 && !(p.resumed && c.state.FinishFlight?) ==> c.io.tally.writeEpoch == 0
    ensures !c.state.SendClientFinished? && !c.state.FinishFlight? && !c.state.ProcessChangeCipherSpec? ==>
              c.io.tally.readEpoch == One(Position(p, c.state, Ok) > ServerCcs(p))
    ensures 5 <= Position(p, c.state, Ok) <= 12 ==> !p.resumed
    ensures c.state.ProcessChangeCipherSpec? ==> c.io.tally.readEpoch == 0
  {}

  lemma StaysSafe(c: Client, r: (Wait, Client))
    requires Sound(c, r) && Safe(Side(c, Ok))
    ensures Safe(Side(r.1, r.0))
  {}

  lemma OnStartConnect(p: Params, c: Client, v: Verdict, k: nat)
    requires Ready(p, c, v, k) && c.state == StartConnect
    ensures Good(p, c, DoStartConnect(c, v))
  {
    hide Safe, Sound, Fed, Follows, Between, Transcript;
    Epochs(p, c);
    var r := DoStartConnect(c, v);
    StaysSafe(c, r);
    FollowsSend(p, false, 0, 0, 1, c.io, r.1.io);
  }

  lemma OnReadServerHello(p: Params, c: Client, v: Verdict, k: nat)
    requires Ready(p, c, v, k) && c.state == ReadServerHelloState
    ensures Good(p, c, DoReadServerHello(c, v))
  {
    hide Safe, Sound, Fed, Follows, Between, Transcript;
    Epochs(p, c);
    var r := DoReadServerHello(c, v);
    StaysSafe(c, r);
    if c.io.hsBuf == [] {
      assert r == (ReadServerHello, c);
      hide DoReadServerHello;
      FollowsIdle(p, false, 1, 1, c.io, r.1.io);
    } else {
      FedIs(p, false, 1, c.io, k, 1);
      assert r.0 == Ok && r.1 == Learned(p, c);
      hide DoReadServerHello, Knows, Awaits, OnScript;
      FollowsRead(p, false, 1, 1, if p.resumed then 2 else 5, c.io, r.1.io);
      LearnedOnScript(p, c);
    }
  }

  /** The client after the ServerHello. */
  function Learned(p: Params, c: Client): Client
    requires c.io.hsBuf != []
  {
    Client(if p.resumed then ReadSessionTicket else ReadServerCertificate, Consume(c.io), c.config,
           Agreed(p.kind, p.resumed, p.status, p.ticket, p.npn, p.channelId, false))
  }

  lemma LearnedOnScript(p: Params, c: Client)
    requires OnScript(p, Side(c, Ok)) && c.state == ReadServerHelloState && c.io.hsBuf != []
    requires Safe(Side(Learned(p, c), Ok))
    requires Consume(c.io).transcript == Transcript(p, if p.resumed then 2 else 5)
    ensures OnScript(p, Side(Learned(p, c), Ok))
  {
    hide Safe, Transcript, Awaits;
  }

  lemma OnReadServerCertificate(p: Params, c: Client, v: Verdict, k: nat)
    requires Ready(p, c, v, k) && c.state == ReadServerCertificate
    ensures Good(p, c, DoReadServerCertificate(c, v))
  {
    hide Safe, Sound, Fed, Follows, Between, Transcript;
    Epochs(p, c);
    var r := DoReadServerCertificate(c, v);
    StaysSafe(c, r);
    if c.io.hsBuf == [] || !p.kind.UsesCertificate() {
      FollowsIdle(p, false, 5, Position(p, r.1.state, r.0), c.io, r.1.io);
    } else {
      FedIs(p, false, 5, c.io, k, 5);
      FollowsRead(p, false, 5, 5, 6, c.io, r.1.io);
    }
  }

  lemma OnSendClientFinished(p: Params, c: Client, v: Verdict, k: nat)
    requires Ready(p, c, v, k) && c.state == SendClientFinished
    ensures Good(p, c, DoSendClientFinished(c, v))
  {
    hide Safe, Sound, Fed, Follows, Between, Transcript;
    Epochs(p, c);
    var r := DoSendClientFinished(c, v);
    StaysSafe(c, r);
    if p.channelId && v == Retry {
      assert r == (ChannelIdLookup, c);
      hide DoSendClientFinished;
      FollowsIdle(p, false, 13, 13, c.io, r.1.io);
    } else {
      assert r.0 == Flush && r.1.state == FinishFlight && r.1.config == c.config && r.1.agreed == c.agreed;
      SendsClientFinished(p, c.io);
      assert Follows(p, false, 13, 17, c.io, r.1.io) && r.1.io.transcript == Transcript(p, 17);
      hide DoSendClientFinished;
    }
  }

  lemma SendsClientFinished(p: Params, io: Io)
    requires io.transcript == Transcript(p, 13) && io.tally.writeEpoch == 0
    ensures var io1 := ChangeWriteCipher(io);
            var io2 := if p.npn then Send(io1, NextProto) else io1;
            var io3 := if p.channelId then Send(io2, ChannelId) else io2;
            Follows(p, false, 13, 17, io, SendFinished(io3, false)) && SendFinished(io3, false).transcript == Transcript(p, 17)
  {
    var io1 := ChangeWriteCipher(io);
    var io2 := if p.npn then Send(io1, NextProto) else io1;
    var io3 := if p.channelId then Send(io2, ChannelId) else io2;
    var io4 := SendFinished(io3, false);
    FollowsChange(p, false, 13, 13, 14, io, io1);
    if p.npn {
      FollowsSend(p, false, 14, 14, 15, io1, io2);
    } else {
      FollowsIdle(p, false, 14, 15, io1, io2);
    }
    FollowsThen(p, false, 13, 14, 15, io, io1, io2);
    if p.channelId {
      FollowsSend(p, false, 15, 15, 16, io2, io3);
    } else {
      FollowsIdle(p, false, 15, 16, io2, io3);
    }
    FollowsThen(p, false, 13, 15, 16, io, io2, io3);
    FollowsSend(p, false, 16, 16, 17, io3, io4);
    FollowsThen(p, false, 13, 16, 17, io, io3, io4);
  }

  lemma OnEnterEarlyData(p: Params, c: Client, v: Verdict, k: nat)
    requires Ready(p, c, v, k) && c.state == EnterEarlyData
    ensures Good(p, c, DoEnterEarlyData(c))
  {
    hide Safe, Sound, Fed, Follows, Between, Transcript;
    Epochs(p, c);
    var r := DoEnterEarlyData(c);
    StaysSafe(c, r);
    FollowsIdle(p, false, 1, Position(p, r.1.state, r.0), c.io, r.1.io);
  }

  lemma OnReadCertificateStatus(p: Params, c: Client, v: Verdict, k: nat)
    requires Ready(p, c, v, k) && c.state == ReadCertificateStatus
    ensures Good(p, c, DoReadCertificateStatus(c, v))
  {
    hide Safe, Sound, Fed, Follows, Between, Transcript;
    Epochs(p, c);
    var r := DoReadCertificateStatus(c, v);
    StaysSafe(c, r);
    if !p.status || c.io.hsBuf == [] {
      FollowsIdle(p, false, 6, Position(p, r.1.state, r.0), c.io, r.1.io);
    } else {
      FedIs(p, false, 6, c.io, k, 6);
      FollowsRead(p, false, 6, 6, 7, c.io, r.1.io);
    }
  }

  lemma OnVerifyServerCertificate(p: Params, c: Client, v: Verdict, k: nat)
    requires Ready(p, c, v, k) && c.state == VerifyServerCertificate
    ensures Good(p, c, DoVerifyServerCertificate(c, v))
  {
    hide Safe, Sound, Fed, Follows, Between, Transcript;
    Epochs(p, c);
    var r := DoVerifyServerCertificate(c, v);
    StaysSafe(c, r);
    FollowsIdle(p, false, 7, Position(p, r.1.state, r.0), c.io, r.1.io);
  }

  lemma OnReadServerKeyExchange(p: Params, c: Client, v: Verdict, k: nat)
    requires Ready(p, c, v, k) && c.state == ReadServerKeyExchange
    ensures Good(p, c, DoReadServerKeyExchange(c, v))
  {
    hide Safe, Sound, Fed, Follows, Between, Transcript;
    Epochs(p, c);
    var r := DoReadServerKeyExchange(c, v);
    StaysSafe(c, r);
    if c.io.hsBuf == [] || !p.serverParams {
      if c.io.hsBuf != [] {
        FedIs(p, false, 7, c.io, k, if p.certRequest then 8 else 9);
      }
      FollowsIdle(p, false, 7, Position(p, r.1.state, r.0), c.io, r.1.io);
    } else {
      FedIs(p, false, 7, c.io, k, 7);
      FollowsRead(p, false, 7, 7, 8, c.io, r.1.io);
    }
  }

  lemma OnReadCertificateRequest(p: Params, c: Client, v: Verdict, k: nat)
    requires Ready(p, c, v, k) && c.state == ReadCertificateRequest
    ensures Good(p, c, DoReadCertificateRequest(c, v))
  {
    hide Safe, Sound, Fed, Follows, Between, Transcript;
    Epochs(p, c);
    var r := DoReadCertificateRequest(c, v);
    StaysSafe(c, r);
    if c.io.hsBuf == [] || !p.certRequest {
      if c.io.hsBuf != [] {
        FedIs(p, false, 8, c.io, k, 9);
      }
      FollowsIdle(p, false, 8, Position(p, r.1.state, r.0), c.io, r.1.io);
    } else {
      FedIs(p, false, 8, c.io, k, 8);
      FollowsRead(p, false, 8, 8, 9, c.io, r.1.io);
    }
  }

  lemma OnReadServerHelloDone(p: Params, c: Client, v: Verdict, k: nat)
    requires Ready(p, c, v, k) && c.state == ReadServerHelloDone
    ensures Good(p, c, DoReadServerHelloDone(c, v))
  {
    hide Safe, Sound, Fed, Follows, Between, Transcript;
    Epochs(p, c);
    var r := DoReadServerHelloDone(c, v);
    StaysSafe(c, r);
    if c.io.hsBuf == [] {
      FollowsIdle(p, false, 9, Position(p, r.1.state, r.0), c.io, r.1.io);
    } else {
      FedIs(p, false, 9, c.io, k, 9);
      FollowsRead(p, false, 9, 9, 10, c.io, r.1.io);
    }
  }

  lemma OnSendClientCertificate(p: Params, c: Client, v: Verdict, k: nat)
    requires Ready(p, c, v, k) && c.state == SendClientCertificate
    ensures Good(p, c, DoSendClientCertificate(c, v))
  {
    hide Safe, Sound, Fed, Follows, Between, Transcript;
    Epochs(p, c);
    var r := DoSendClientCertificate(c, v);
    StaysSafe(c, r);
    if !p.certRequest || v == Retry {
      FollowsIdle(p, false, 10, Position(p, r.1.state, r.0), c.io, r.1.io);
    } else {
      FollowsSend(p, false, 10, 10, 11, c.io, r.1.io);
    }
  }

  lemma OnSendClientKeyExchange(p: Params, c: Client, v: Verdict, k: nat)
    requires Ready(p, c, v, k) && c.state == SendClientKeyExchange
    ensures Good(p, c, DoSendClientKeyExchange(c, v))
  {
    hide Safe, Sound, Fed, Follows, Between, Transcript;
    Epochs(p, c);
    var r := DoSendClientKeyExchange(c, v);
    StaysSafe(c, r);
    FollowsSend(p, false, 11, 11, 12, c.io, r.1.io);
  }

  lemma OnSendClientCertificateVerify(p: Params, c: Client, v: Verdict, k: nat)
    requires Ready(p, c, v, k) && c.state == SendClientCertificateVerify
    ensures Good(p, c, DoSendClientCertificateVerify(c, v))
  {
    hide Safe, Sound, Fed, Follows, Between, Transcript;
    Epochs(p, c);
    var r := DoSendClientCertificateVerify(c, v);
    StaysSafe(c, r);
    if !p.certRequest || !p.clientCert || v == Retry {
      FollowsIdle(p, false, 12, Position(p, r.1.state, r.0), c.io, r.1.io);
    } else {
      FollowsSend(p, false, 12, 12, 13, c.io, r.1.io);
    }
  }

  lemma OnFinishFlight(p: Params, c: Client, v: Verdict, k: nat)
    requires Ready(p, c, v, k) && c.state == FinishFlight
    ensures Good(p, c, DoFinishFlight(c, v))
  {
    hide Safe, Sound, Fed, Follows, Between, Transcript;
    Epochs(p, c);
    var r := DoFinishFlight(c, v);
    StaysSafe(c, r);
    FollowsIdle(p, false, 17, Position(p, r.1.state, r.0), c.io, r.1.io);
  }

  /** Nothing is learned in the closing states. */
  lemma StillKnows(p: Params, c: Client, after: Client)
    requires WellFormed(p) && Knows(p, c) && after == c.(state := after.state, io := after.io)
    requires c.state.ReadSessionTicket? || c.state.ReadServerFinished?
    requires after.state == c.state || after.state.ProcessChangeCipherSpec? || after.state.FinishClientHandshake?
             || after.state.SendClientFinished?
    ensures Knows(p, after)
    ensures c.agreed.resumed == p.resumed && c.agreed.ticketExpected == p.ticket
  {}

  lemma OnReadSessionTicket(p: Params, c: Client, v: Verdict, k: nat)
    requires Ready(p, c, v, k) && c.state == ReadSessionTicket
    ensures Good(p, c, DoReadSessionTicket(c, v))
  {
    hide Safe, Sound, Fed, Follows, Between, Transcript, Knows;
    Epochs(p, c);
    StillKnows(p, c, c);
    var at := if p.resumed then 2 else 17;
    var r := DoReadSessionTicket(c, v);
    StaysSafe(c, r);
    if !p.ticket {
      NothingBeforeChange(p, c, v, k);
      FollowsIdle(p, false, at, at + 1, c.io, r.1.io);
      WaitsForChange(p, c, r.1);
    } else if c.io.hsBuf == [] {
      assert r == (ReadMessage, c);
      hide DoReadSessionTicket;
      FollowsIdle(p, false, at, at, c.io, r.1.io);
    } else {
      hide OnScript;
      TakesTicket(p, c, v, k);
    }
  }

  lemma TakesTicket(p: Params, c: Client, v: Verdict, k: nat)
    requires Ready(p, c, v, k) && c.state == ReadSessionTicket && p.ticket && c.io.hsBuf != []
    ensures Good(p, c, DoReadSessionTicket(c, v))
  {
    hide Safe, Sound, Fed, Follows, Between, Transcript, Knows, Awaits;
    Epochs(p, c);
    StillKnows(p, c, c);
    var at := if p.resumed then 2 else 17;
    var r := DoReadSessionTicket(c, v);
    StaysSafe(c, r);
    FedIs(p, false, at, c.io, k, at);
    assert r == (ReadChangeCipherSpec, c.(state := ProcessChangeCipherSpec, io := Consume(c.io)));
    hide DoReadSessionTicket;
    FollowsRead(p, false, at, at, at + 1, c.io, r.1.io);
    WaitsForChange(p, c, r.1);
  }

  lemma NothingBeforeChange(p: Params, c: Client, v: Verdict, k: nat)
    requires Ready(p, c, v, k) && c.state == ReadSessionTicket && !p.ticket
    ensures c.io.hsBuf == []
  {
    var at := if p.resumed then 2 else 17;
    assert Present(p, at + 1) && FromServer(at + 1) && IsCcs(at + 1);
  }

  lemma WaitsForChange(p: Params, c: Client, after: Client)
    requires OnScript(p, Side(c, Ok)) && c.state == ReadSessionTicket
    requires after == c.(state := ProcessChangeCipherSpec, io := after.io) && Safe(Side(after, ReadChangeCipherSpec))
    requires after.io.transcript == Transcript(p, ServerCcs(p)) && after.io.hsBuf == [] && after.io.flight == c.io.flight
    ensures OnScript(p, Side(after, ReadChangeCipherSpec))
  {
    hide Safe, Transcript, Knows;
    StillKnows(p, c, after);
  }

  lemma NothingLeft(p: Params, c: Client, v: Verdict, k: nat)
    requires Ready(p, c, v, k) && c.state == ProcessChangeCipherSpec
    ensures c.io.hsBuf == []
  {
    hide Safe;
    Epochs(p, c);
  }

  lemma OnProcessChangeCipherSpec(p: Params, c: Client, v: Verdict, k: nat)
    requires Ready(p, c, v, k) && c.state == ProcessChangeCipherSpec
    ensures Good(p, c, DoProcessChangeCipherSpec(c, v))
  {
    hide Safe, Sound, Fed, Follows, Between, Transcript;
    Epochs(p, c);
    NothingLeft(p, c, v, k);
    var r := DoProcessChangeCipherSpec(c, v);
    StaysSafe(c, r);
    FollowsIdle(p, false, ServerCcs(p) + 1, Position(p, r.1.state, r.0), c.io, r.1.io);
  }

  lemma OnReadServerFinished(p: Params, c: Client, v: Verdict, k: nat)
    requires Ready(p, c, v, k) && c.state == ReadServerFinished
    ensures Good(p, c, DoReadServerFinished(c, v))
  {
    hide Safe, Sound, Fed, Follows, Between, Transcript, Knows;
    Epochs(p, c);
    StillKnows(p, c, c);
    var r := DoReadServerFinished(c, v);
    StaysSafe(c, r);
    var at := ServerCcs(p) + 1;
    if c.io.hsBuf == [] {
      assert r == (ReadMessage, c);
      hide DoReadServerFinished;
      FollowsIdle(p, false, at, at, c.io, r.1.io);
    } else {
      FedIs(p, false, at, c.io, k, at);
      assert r.1.io == Consume(c.io).(tally := r.1.io.tally);
      FollowsRead(p, false, at, at, if p.resumed then 13 else 20, c.io, r.1.io);
      StillKnows(p, c, r.1);
      hide Awaits;
    }
  }

  lemma OnFinishClientHandshake(p: Params, c: Client, v: Verdict, k: nat)
    requires Ready(p, c, v, k) && c.state == FinishClientHandshake
    ensures Good(p, c, DoFinishClientHandshake(c, v))
  {
    hide Safe, Sound, Fed, Follows, Between, Transcript;
    Epochs(p, c);
    var r := DoFinishClientHandshake(c, v);
    StaysSafe(c, r);
    FollowsIdle(p, false, 20, Position(p, r.1.state, r.0), c.io, r.1.io);
  }

  /** A client in good standing neither fails nor leaves the script. */
  lemma StepOnScript(p: Params, c: Client, v: Verdict, k: nat)
    requires Ready(p, c, v, k) && c.state != Done
    ensures Good(p, c, Step(c, v))
  {
    hide Good, Follows, Between, Transcript, MsgAt, Present, Safe, Sound, Position, Fed, Knows, Awaits;
    hide DoStartConnect, DoEnterEarlyData, DoReadHelloVerifyRequest, DoReadServerHello, DoReadServerCertificate;
    hide DoReadCertificateStatus, DoVerifyServerCertificate, DoReadServerKeyExchange, DoReadCertificateRequest;
    hide DoReadServerHelloDone, DoSendClientCertificate, DoSendClientKeyExchange, DoSendClientCertificateVerify;
    hide DoSendClientFinished, DoFinishFlight, DoReadSessionTicket, DoProcessChangeCipherSpec, DoReadServerFinished;
    hide DoFinishClientHandshake;
    match c.state
    case StartConnect => OnStartConnect(p, c, v, k);
    case EnterEarlyData => OnEnterEarlyData(p, c, v, k);
    case ReadServerHelloState => OnReadServerHello(p, c, v, k);
    case ReadServerCertificate => OnReadServerCertificate(p, c, v, k);
    case ReadCertificateStatus => OnReadCertificateStatus(p, c, v, k);
    case VerifyServerCertificate => OnVerifyServerCertificate(p, c, v, k);
    case ReadServerKeyExchange => OnReadServerKeyExchange(p, c, v, k);
    case ReadCertificateRequest => OnReadCertificateRequest(p, c, v, k);
    case ReadServerHelloDone => OnReadServerHelloDone(p, c, v, k);
    case SendClientCertificate => OnSendClientCertificate(p, c, v, k);
    case SendClientKeyExchange => OnSendClientKeyExchange(p, c, v, k);
    case SendClientCertificateVerify => OnSendClientCertificateVerify(p, c, v, k);
    case SendClientFinished => OnSendClientFinished(p, c, v, k);
    case FinishFlight => OnFinishFlight(p, c, v, k);
    case ReadSessionTicket => OnReadSessionTicket(p, c, v, k);
    case ProcessChangeCipherSpec => OnProcessChangeCipherSpec(p, c, v, k);
    case ReadServerFinished => OnReadServerFinished(p, c, v, k);
    case FinishClientHandshake => OnFinishClientHandshake(p, c, v, k);
    case _ =>
  }

  // ---------- Between the steps ----------

  lemma Flushed(p: Params, d: Side)
    requires OnScript(p, d) && d.wait == Flush
    ensures var r := Apply(d, FlushDone);
            OnScript(p, r) && Position(p, r.c.state, r.wait) == Position(p, d.c.state, d.wait)
  {
    ApplySafe(d, FlushDone);
    hide Safe, Transcript, Awaits;
  }

  lemma Resumed(p: Params, d: Side)
    requires OnScript(p, d) && ReturnsToCaller(d.wait)
    ensures var r := Apply(d, Resume);
            OnScript(p, r) && Position(p, r.c.state, r.wait) == Position(p, d.c.state, d.wait)
  {
    ApplySafe(d, Resume);
    hide Safe, Transcript, Awaits;
  }

  /** A handshake message that is awaited goes to the buffer. */
  lemma ReceivedMessage(p: Params, d: Side)
    requires OnScript(p, d) && WaitsToRead(d.wait) && d.wait != ReadChangeCipherSpec
    ensures var at := Position(p, d.c.state, d.wait);
            var k := Awaited(p, at);
            var r := Apply(d, Receive(RecordAt(p, k)));
            && OnScript(p, r) && RecordAt(p, k) == Hs([MsgAt(p, k)], d.c.io.tally.readEpoch)
            && r == Side(d.c.(io := d.c.io.(hsBuf := [MsgAt(p, k)])), Ok) && Position(p, d.c.state, Ok) == at
  {
    var k := Awaited(p, Position(p, d.c.state, d.wait));
    ApplySafe(d, Receive(RecordAt(p, k)));
    hide MsgAt, Awaited, Safe, Transcript, Knows;
    WaitsForMessage(p, d);
    var r := Apply(d, Receive(RecordAt(p, k)));
    assert r == Side(d.c.(io := d.c.io.(hsBuf := [MsgAt(p, k)])), Ok);
    hide Apply, Awaits;
    SameKnowledge(p, d.c, r.c);
  }

  lemma SameKnowledge(p: Params, before: Client, after: Client)
    requires Knows(p, before) && after == before.(io := after.io)
    ensures Knows(p, after)
  {}

  lemma WaitsForMessage(p: Params, d: Side)
    requires OnScript(p, d) && WaitsToRead(d.wait) && d.wait != ReadChangeCipherSpec
    ensures d.c.state != Done && Position(p, d.c.state, Ok) == Position(p, d.c.state, d.wait)
  {
    hide Knows, Transcript, MsgAt, Awaited, Apply;
  }

  /** A ChangeCipherSpec that is awaited moves the position at once. */
  lemma ReceivedChange(p: Params, d: Side)
    requires OnScript(p, d) && d.wait == ReadChangeCipherSpec
    ensures var at := Position(p, d.c.state, d.wait);
            var r := Apply(d, Receive(RecordAt(p, Awaited(p, at))));
            && OnScript(p, r) && r.wait == Ok && r.c.io.hsBuf == []
            && d.c.state.ProcessChangeCipherSpec? && Awaited(p, at) == at
            && Position(p, r.c.state, Ok) == at + 1
  {
    var at := Position(p, d.c.state, d.wait);
    ApplySafe(d, Receive(RecordAt(p, Awaited(p, at))));
    WaitsForChangeAt(p, d);
    hide MsgAt, Awaited, Safe, Transcript, Knows;
    TranscriptSkips(p, at, at + 1);
    var r := Apply(d, Receive(RecordAt(p, Awaited(p, at))));
    var t := d.c.io.tally;
    assert r == Side(d.c.(io := d.c.io.(tally := t.(ccsReceived := t.ccsReceived + 1))), Ok);
    hide Apply, Awaits;
    SameKnowledge(p, d.c, r.c);
  }

  lemma WaitsForChangeAt(p: Params, d: Side)
    requires OnScript(p, d) && d.wait == ReadChangeCipherSpec
    ensures d.c.state.ProcessChangeCipherSpec?
    ensures Awaited(p, Position(p, d.c.state, d.wait)) == Position(p, d.c.state, d.wait)
  {}
}
