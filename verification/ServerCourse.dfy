/** What a server's transcript is, whoever the peer is: in every run, at every moment, the beginning of a
    handshake that its configuration calls for, with each Finished and CertificateVerify over exactly the
    messages before it (section 7.3 of RFC 5246). */
module ServerCourse {
  import opened Handshake
  import opened ServerHandshake

  /** What a server cannot know beforehand: the ClientHello, and whether the client has a certificate. */
  datatype Course = Course(cookie: bool, session: bool, certificate: bool)

  // ---------- What the negotiation comes to ----------

  predicate Certified(g: Config) {
    g.kind.Rsa? || g.kind.Ecdhe?
  }

  predicate Resumes(g: Config, x: Course) {
    x.session && g.findsSession
  }

  predicate UsesChannelId(g: Config, x: Course) {
    g.channelId && (g.kind.Ecdhe? || g.kind.EcdhePsk?) && (Resumes(g, x) ==> g.savedHashes)
  }

  predicate Staples(g: Config, x: Course) {
    g.stapling && !Resumes(g, x) && Certified(g)
  }

  predicate SendsTicket(g: Config, x: Course) {
    if Resumes(g, x) then g.renewsTicket else g.ticketsSupported
  }

  predicate SendsParams(g: Config) {
    g.kind.Ecdhe? || g.kind.EcdhePsk? || (g.kind.Psk? && g.identityHint)
  }

  predicate Requests(g: Config, x: Course) {
    !Resumes(g, x) && g.verifyPeer && Certified(g) && !(g.onlyWithoutChannelId && g.channelId)
  }

  /** A certificate the server has, and one the client has if the server insists on it. */
  predicate Allowed(g: Config, x: Course) {
    && (!Resumes(g, x) && Certified(g) ==> g.hasCertificate)
    && (Requests(g, x) && g.requiresPeer ==> x.certificate)
  }

  // ---------- The transcript, piece by piece ----------

  function Hellos(g: Config, x: Course): seq<Msg> {
    [ClientHello(x.cookie, x.session),
     ServerHello(Hello(false, Resumes(g, x), g.kind, Staples(g, x), SendsTicket(g, x), g.npn, UsesChannelId(g, x)))]
  }

  function WithCertificate(g: Config, x: Course): seq<Msg> {
    Hellos(g, x) + When(Certified(g), Certificate(true)) + When(Staples(g, x), CertificateStatus)
  }

  function WithParams(g: Config, x: Course): seq<Msg> {
    WithCertificate(g, x) + When(SendsParams(g), ServerKeyExchange)
  }

  function WithHelloDone(g: Config, x: Course): seq<Msg> {
    WithParams(g, x) + When(Requests(g, x), CertificateRequest) + [ServerHelloDone]
  }

  function WithClientCertificate(g: Config, x: Course): seq<Msg> {
    WithHelloDone(g, x) + When(Requests(g, x), Certificate(x.certificate))
  }

  function WithKeyExchange(g: Config, x: Course): seq<Msg> {
    WithClientCertificate(g, x) + [ClientKeyExchange]
  }

  function WithProof(g: Config, x: Course): seq<Msg> {
    var t := WithKeyExchange(g, x);
    t + When(Requests(g, x) && x.certificate, CertificateVerify(t))
  }

  function WithNextProto(g: Config, t: seq<Msg>): seq<Msg> {
    t + When(g.npn, NextProto)
  }

  function WithChannelId(g: Config, x: Course, t: seq<Msg>): seq<Msg> {
    WithNextProto(g, t) + When(UsesChannelId(g, x), ChannelId)
  }

  /** The client's closing messages. */
  function ClientCloses(g: Config, x: Course, t: seq<Msg>): seq<Msg> {
    var u := WithChannelId(g, x, t);
    u + [Finished(false, u)]
  }

  /** The server's. */
  function ServerCloses(g: Config, x: Course, t: seq<Msg>): seq<Msg> {
    var u := t + When(SendsTicket(g, x), NewSessionTicket(false));
    u + [Finished(true, u)]
  }

  function BeforeClient(g: Config, x: Course): seq<Msg> {
    if Resumes(g, x) then ServerCloses(g, x, Hellos(g, x)) else WithProof(g, x)
  }

  function BothClosed(g: Config, x: Course): seq<Msg> {
    var t := ClientCloses(g, x, BeforeClient(g, x));
    if Resumes(g, x) then t else ServerCloses(g, x, t)
  }

  /** The transcript in each state. */
  function Upto(state: State, g: Config, x: Course): seq<Msg> {
    match state
    case StartAccept => []
    case ReadClientHello => []
    case SelectCertificate => []
    case Tls13 => []
    case SelectParameters => []
    case SendServerHello => [ClientHello(x.cookie, x.session)]
    case SendServerCertificate => Hellos(g, x)
    case SendServerKeyExchange => WithCertificate(g, x)
    case SendServerHelloDone => WithParams(g, x)
    case ReadClientCertificate => WithHelloDone(g, x)
    case VerifyClientCertificate => WithClientCertificate(g, x)
    case ReadClientKeyExchange => WithClientCertificate(g, x)
    case ReadClientCertificateVerify => WithKeyExchange(g, x)
    case ReadChangeCipherSpecState => BeforeClient(g, x)
    case ProcessChangeCipherSpec => BeforeClient(g, x)
    case ReadNextProto => BeforeClient(g, x)
    case ReadChannelId => WithNextProto(g, BeforeClient(g, x))
    case ReadClientFinished => WithChannelId(g, x, BeforeClient(g, x))
    case SendServerFinished => if Resumes(g, x) then Hellos(g, x) else ClientCloses(g, x, WithProof(g, x))
    case FinishServerHandshake => BothClosed(g, x)
    case Done => BothClosed(g, x)
  }

  /** The ClientHello has been taken. */
  predicate Settled(state: State) {
    !state.StartAccept? && !state.ReadClientHello? && !state.SelectCertificate? && !state.Tls13? && !state.SelectParameters?
  }

  predicate CertificateSent(state: State) {
    Settled(state) && !state.SendServerHello? && !state.SendServerCertificate?
  }

  /** The state belongs to a full handshake only. */
  predicate FullOnly(state: State) {
    state.SendServerCertificate? || state.SendServerKeyExchange? || state.SendServerHelloDone? || state.ReadClientCertificate?
    || state.VerifyClientCertificate? || state.ReadClientKeyExchange? || state.ReadClientCertificateVerify?
  }

  predicate BeforeCertificate(state: State) {
    state.SendServerHello? || state.SendServerCertificate? || state.SendServerKeyExchange? || state.SendServerHelloDone?
    || state.ReadClientCertificate?
  }

  /** The server knows what the course has settled. */
  ghost predicate Knows(s: Server, x: Course) {
    && s.agreed.resumed == Resumes(s.config, x) && s.agreed.ticketExpected == SendsTicket(s.config, x)
    && s.agreed.certRequest == Requests(s.config, x)
    && s.agreed.channelId == (if s.state.SendServerHello? then s.config.channelId else UsesChannelId(s.config, x))
    && (!s.state.SendServerHello? ==> s.agreed.statusExpected == Staples(s.config, x))
    && (s.state.SendServerKeyExchange? ==> s.agreed.hasParams == SendsParams(s.config))
    && s.agreed.peerCert == (!BeforeCertificate(s.state) && Requests(s.config, x) && x.certificate)
    && (FullOnly(s.state) ==> !Resumes(s.config, x))
    && (CertificateSent(s.state) && !Resumes(s.config, x) && Certified(s.config) ==> s.config.hasCertificate)
    && (!BeforeCertificate(s.state) && Requests(s.config, x) && s.config.requiresPeer ==> x.certificate)
  }

  ghost predicate On(s: Server, x: Course) {
    s.io.transcript == Upto(s.state, s.config, x) && (Settled(s.state) ==> Knows(s, x))
  }

  // ---------- Every step keeps to a course ----------

  lemma CertificateComesLater(g: Config, x: Course, certificate: bool)
    ensures WithHelloDone(g, x.(certificate := certificate)) == WithHelloDone(g, x)
  {}

  lemma OnStartAccept(s: Server, x: Course)
    requires On(s, x) && s.state.StartAccept?
    ensures On(DoStartAccept(s).1, x)
  {
    hide Sound, Moves, Hellos, WithCertificate, WithParams, WithHelloDone, WithClientCertificate, WithKeyExchange, WithProof;
    hide WithNextProto, WithChannelId, ClientCloses, ServerCloses, BeforeClient, BothClosed;
  }

  lemma OnReadClientHello(s: Server, v: Verdict, x: Course)
    requires On(s, x) && s.state.ReadClientHello?
    ensures On(DoReadClientHello(s, v).1, x)
  {
    hide Sound, Moves, Hellos, WithCertificate, WithParams, WithHelloDone, WithClientCertificate, WithKeyExchange, WithProof;
    hide WithNextProto, WithChannelId, ClientCloses, ServerCloses, BeforeClient, BothClosed;
  }

  lemma OnSelectCertificate(s: Server, v: Verdict, x: Course)
    requires On(s, x) && s.state.SelectCertificate?
    ensures On(DoSelectCertificate(s, v).1, x)
  {
    hide Sound, Moves, Hellos, WithCertificate, WithParams, WithHelloDone, WithClientCertificate, WithKeyExchange, WithProof;
    hide WithNextProto, WithChannelId, ClientCloses, ServerCloses, BeforeClient, BothClosed;
  }

  lemma OnSelectParameters(s: Server, v: Verdict, x: Course) returns (y: Course)
    requires On(s, x) && s.state.SelectParameters?
    ensures On(DoSelectParameters(s, v).1, y)
  {
    hide Sound, Moves, Hellos, WithCertificate, WithParams, WithHelloDone, WithClientCertificate, WithKeyExchange, WithProof;
    hide WithNextProto, WithChannelId, ClientCloses, ServerCloses, BeforeClient, BothClosed;
    y := x;
    if DoSelectParameters(s, v).0 == Ok {
      y := Course(s.io.hsBuf[0].cookie, s.io.hsBuf[0].session, false);
    }
  }

  lemma OnSendServerHello(s: Server, v: Verdict, x: Course)
    requires On(s, x) && s.state.SendServerHello?
    ensures On(DoSendServerHello(s, v).1, x)
  {
    hide Sound, Moves, WithCertificate, WithParams, WithHelloDone, WithClientCertificate, WithKeyExchange, WithProof, WithNextProto;
    hide WithChannelId, ClientCloses, ServerCloses, BeforeClient, BothClosed;
  }

  lemma OnSendServerCertificate(s: Server, v: Verdict, x: Course)
    requires On(s, x) && s.state.SendServerCertificate?
    ensures On(DoSendServerCertificate(s, v).1, x)
  {
    hide Sound, Moves, Hellos, WithParams, WithHelloDone, WithClientCertificate, WithKeyExchange, WithProof, WithNextProto;
    hide WithChannelId, ClientCloses, ServerCloses, BeforeClient, BothClosed;
    var t := s.io.transcript;
    assert t + [] == t && (t + [Certificate(true)]) + [] == t + [Certificate(true)];
  }

  lemma OnSendServerKeyExchange(s: Server, v: Verdict, x: Course)
    requires On(s, x) && s.state.SendServerKeyExchange?
    ensures On(DoSendServerKeyExchange(s, v).1, x)
  {
    hide Sound, Moves, Hellos, WithCertificate, WithHelloDone, WithClientCertificate, WithKeyExchange, WithProof, WithNextProto;
    hide WithChannelId, ClientCloses, ServerCloses, BeforeClient, BothClosed;
    assert s.io.transcript + [] == s.io.transcript;
  }

  lemma OnSendServerHelloDone(s: Server, v: Verdict, x: Course)
    requires On(s, x) && s.state.SendServerHelloDone?
    ensures On(DoSendServerHelloDone(s, v).1, x)
  {
    hide Sound, Moves, Hellos, WithCertificate, WithParams, WithClientCertificate, WithKeyExchange, WithProof, WithNextProto;
    hide WithChannelId, ClientCloses, ServerCloses, BeforeClient, BothClosed;
    assert s.io.transcript + [] == s.io.transcript;
  }

  lemma OnReadClientCertificate(s: Server, v: Verdict, x: Course) returns (y: Course)
    requires On(s, x) && s.state.ReadClientCertificate?
    ensures On(DoReadClientCertificate(s, v).1, y)
  {
    RequestIs(s, x);
    hide On, Sound, Moves, Requests;
    y := x;
    var r := DoReadClientCertificate(s, v);
    if r.0 == Ok {
      y := x.(certificate := s.agreed.certRequest && s.io.hsBuf[0].nonEmpty);
      assert s.io.transcript + [] == s.io.transcript;
      CertificateTaken(s, x, r.1, y);
    }
  }

  lemma RequestIs(s: Server, x: Course)
    requires On(s, x) && s.state.ReadClientCertificate?
    ensures s.agreed.certRequest == Requests(s.config, x) && !s.agreed.peerCert
  {
    hide Upto, Requests;
  }

  lemma CertificateTaken(s: Server, x: Course, t: Server, y: Course)
    requires On(s, x) && s.state.ReadClientCertificate? && y == x.(certificate := y.certificate)
    requires y.certificate ==> Requests(s.config, x)
    requires Requests(s.config, x) && s.config.requiresPeer ==> y.certificate
    requires t == s.(io := t.io, agreed := s.agreed.(peerCert := y.certificate), state := VerifyClientCertificate)
    requires t.io.transcript == s.io.transcript + When(Requests(s.config, x), Certificate(y.certificate))
    ensures On(t, y)
  {
    hide Upto, When, Requests;
    RequestsAnyway(s.config, x, y.certificate);
    UptoCertificate(s.config, x, y.certificate);
  }

  lemma RequestsAnyway(g: Config, x: Course, certificate: bool)
    ensures var y := x.(certificate := certificate);
            && Requests(g, y) == Requests(g, x) && Resumes(g, y) == Resumes(g, x) && SendsTicket(g, y) == SendsTicket(g, x)
            && UsesChannelId(g, y) == UsesChannelId(g, x) && Staples(g, y) == Staples(g, x)
  {}

  lemma UptoCertificate(g: Config, x: Course, certificate: bool)
    ensures Upto(VerifyClientCertificate, g, x.(certificate := certificate))
            == Upto(ReadClientCertificate, g, x) + When(Requests(g, x), Certificate(certificate))
  {
    RequestsAnyway(g, x, certificate);
    CertificateComesLater(g, x, certificate);
    hide WithHelloDone, When, Requests;
  }

  lemma OnVerifyClientCertificate(s: Server, v: Verdict, x: Course)
    requires On(s, x) && s.state.VerifyClientCertificate?
    ensures On(DoVerifyClientCertificate(s, v).1, x)
  {
    hide Sound, Moves, Hellos, WithCertificate, WithParams, WithHelloDone, WithClientCertificate, WithKeyExchange, WithProof;
    hide WithNextProto, WithChannelId, ClientCloses, ServerCloses, BeforeClient, BothClosed;
  }

  lemma OnReadClientKeyExchange(s: Server, v: Verdict, x: Course)
    requires On(s, x) && s.state.ReadClientKeyExchange?
    ensures On(DoReadClientKeyExchange(s, v).1, x)
  {
    hide Sound, Moves, Hellos, WithCertificate, WithParams, WithHelloDone, WithClientCertificate, WithProof, WithNextProto;
    hide WithChannelId, ClientCloses, ServerCloses, BeforeClient, BothClosed;
  }

  lemma OnReadClientCertificateVerify(s: Server, v: Verdict, x: Course)
    requires On(s, x) && s.state.ReadClientCertificateVerify?
    ensures On(DoReadClientCertificateVerify(s, v).1, x)
  {
    hide Sound, Moves, Hellos, WithCertificate, WithParams, WithHelloDone, WithClientCertificate, WithKeyExchange, WithNextProto;
    hide WithChannelId, ClientCloses, ServerCloses, BothClosed;
    assert s.io.transcript + [] == s.io.transcript;
  }

  lemma OnReadChangeCipherSpec(s: Server, x: Course)
    requires On(s, x) && s.state.ReadChangeCipherSpecState?
    ensures On(DoReadChangeCipherSpec(s).1, x)
  {
    hide Sound, Moves, Hellos, WithCertificate, WithParams, WithHelloDone, WithClientCertificate, WithKeyExchange, WithProof;
    hide WithNextProto, WithChannelId, ClientCloses, ServerCloses, BeforeClient, BothClosed;
  }

  lemma OnProcessChangeCipherSpec(s: Server, v: Verdict, x: Course)
    requires On(s, x) && s.state.ProcessChangeCipherSpec?
    ensures On(DoProcessChangeCipherSpec(s, v).1, x)
  {
    hide Sound, Moves, Hellos, WithCertificate, WithParams, WithHelloDone, WithClientCertificate, WithKeyExchange, WithProof;
    hide WithNextProto, WithChannelId, ClientCloses, ServerCloses, BeforeClient, BothClosed;
  }

  lemma OnReadNextProto(s: Server, v: Verdict, x: Course)
    requires On(s, x) && s.state.ReadNextProto?
    ensures On(DoReadNextProto(s, v).1, x)
  {
    hide Sound, Moves, Hellos, WithCertificate, WithParams, WithHelloDone, WithClientCertificate, WithKeyExchange, WithProof;
    hide WithChannelId, ClientCloses, ServerCloses, BeforeClient, BothClosed;
    assert s.io.transcript + [] == s.io.transcript;
  }

  lemma OnReadChannelId(s: Server, v: Verdict, x: Course)
    requires On(s, x) && s.state.ReadChannelId?
    ensures On(DoReadChannelId(s, v).1, x)
  {
    hide Sound, Moves, Hellos, WithCertificate, WithParams, WithHelloDone, WithClientCertificate, WithKeyExchange, WithProof;
    hide WithNextProto, ClientCloses, ServerCloses, BeforeClient, BothClosed;
    assert s.io.transcript + [] == s.io.transcript;
  }

  lemma OnReadClientFinished(s: Server, v: Verdict, x: Course)
    requires On(s, x) && s.state.ReadClientFinished?
    ensures On(DoReadClientFinished(s, v).1, x)
  {
    hide Sound, Moves, Hellos, WithCertificate, WithParams, WithHelloDone, WithClientCertificate, WithKeyExchange, WithProof;
    hide WithNextProto, WithChannelId, ServerCloses;
  }

  lemma OnSendServerFinished(s: Server, v: Verdict, x: Course)
    requires On(s, x) && s.state.SendServerFinished?
    ensures On(DoSendServerFinished(s, v).1, x)
  {
    hide Sound, Moves, Hellos, WithCertificate, WithParams, WithHelloDone, WithClientCertificate, WithKeyExchange, WithProof;
    hide WithNextProto, WithChannelId, ClientCloses;
    assert s.io.transcript + [] == s.io.transcript;
  }

  lemma OnFinishServerHandshake(s: Server, x: Course)
    requires On(s, x) && s.state.FinishServerHandshake?
    ensures On(DoFinishServerHandshake(s).1, x)
  {
    hide Sound, Moves, Hellos, WithCertificate, WithParams, WithHelloDone, WithClientCertificate, WithKeyExchange, WithProof;
    hide WithNextProto, WithChannelId, ClientCloses, ServerCloses, BeforeClient, BothClosed;
  }

  lemma StepOnCourse(s: Server, v: Verdict, x: Course) returns (y: Course)
    requires On(s, x)
    ensures On(Step(s, v).1, y)
  {
    hide On, Sound, Moves;
    y := x;
    match s.state
    case StartAccept => OnStartAccept(s, x);
    case ReadClientHello => OnReadClientHello(s, v, x);
    case SelectCertificate => OnSelectCertificate(s, v, x);
    case Tls13 =>
    case SelectParameters => y := OnSelectParameters(s, v, x);
    case SendServerHello => OnSendServerHello(s, v, x);
    case SendServerCertificate => OnSendServerCertificate(s, v, x);
    case SendServerKeyExchange => OnSendServerKeyExchange(s, v, x);
    case SendServerHelloDone => OnSendServerHelloDone(s, v, x);
    case ReadClientCertificate => y := OnReadClientCertificate(s, v, x);
    case VerifyClientCertificate => OnVerifyClientCertificate(s, v, x);
    case ReadClientKeyExchange => OnReadClientKeyExchange(s, v, x);
    case ReadClientCertificateVerify => OnReadClientCertificateVerify(s, v, x);
    case ReadChangeCipherSpecState => OnReadChangeCipherSpec(s, x);
    case ProcessChangeCipherSpec => OnProcessChangeCipherSpec(s, v, x);
    case ReadNextProto => OnReadNextProto(s, v, x);
    case ReadChannelId => OnReadChannelId(s, v, x);
    case ReadClientFinished => OnReadClientFinished(s, v, x);
    case SendServerFinished => OnSendServerFinished(s, v, x);
    case FinishServerHandshake => OnFinishServerHandshake(s, x);
    case Done =>
  }

  // ---------- Every run keeps to a course ----------

  lemma SameCourse(s: Server, t: Server, x: Course)
    requires On(s, x) && t == s.(io := t.io) && t.io.transcript == s.io.transcript
    ensures On(t, x)
  {
    hide Upto;
  }

  lemma StepKeepsConfig(s: Server, v: Verdict)
    ensures Step(s, v).1.config == s.config
  {
    hide Sound, Moves;
  }

  lemma ApplyOnCourse(d: Side, e: Event, x: Course) returns (y: Course)
    requires On(d.s, x)
    ensures On(Apply(d, e).s, y) && Apply(d, e).s.config == d.s.config
  {
    y := x;
    match e
    case Advance(v) =>
      if d.wait == Ok && d.s.state != Done {
        y := StepOnCourse(d.s, v, x);
        StepKeepsConfig(d.s, v);
        hide On, Step;
      }
    case _ =>
      hide On;
      SameCourse(d.s, Apply(d, e).s, x);
  }

  /** Whatever the peer sends and whatever the oracles say, the transcript is at every moment that of a course, as
      far as the state has got. */
  lemma {:induction false} RunOnCourse(config: Config, events: seq<Event>) returns (x: Course)
    ensures var s := Run(Side(New(config), Ok), events).s;
            On(s, x) && s.config == config
  {
    if events == [] {
      x := Course(false, false, false);
    } else {
      var init := events[..|events| - 1];
      var before := RunOnCourse(config, init);
      hide On, Apply;
      x := ApplyOnCourse(Run(Side(New(config), Ok), init), events[|events| - 1], before);
    }
  }

  /** A server that is done has a client's Finished over its very transcript, and sent its own over it; a client
      certificate was proved by a signature over it. */
  lemma DoneMeansCourse(config: Config, events: seq<Event>) returns (x: Course)
    requires Run(Side(New(config), Ok), events).s.state == Done
    ensures var s := Run(Side(New(config), Ok), events).s;
            var t := s.io.transcript;
            && Allowed(config, x) && t == BothClosed(config, x)
            && (exists k: nat :: ClosesAt(t, false, k)) && (exists k: nat :: ClosesAt(t, true, k))
            && (s.agreed.peerCert <==> Requests(config, x) && x.certificate)
            && (s.agreed.peerCert ==> exists k: nat :: ProvesAt(t, k))
  {
    hide Run;
    x := RunOnCourse(config, events);
    ClosedBoth(config, x);
  }

  lemma ClosedBoth(g: Config, x: Course)
    ensures var t := BothClosed(g, x);
            && (exists k: nat :: ClosesAt(t, false, k)) && (exists k: nat :: ClosesAt(t, true, k))
            && (Requests(g, x) && x.certificate ==> exists k: nat :: ProvesAt(t, k))
  {
    if Resumes(g, x) {
      ClosedResumed(g, x);
    } else {
      ClosedFull(g, x);
      if Requests(g, x) && x.certificate {
        ProvenFull(g, x);
      }
    }
  }

  lemma ClosedResumed(g: Config, x: Course)
    requires Resumes(g, x)
    ensures var t := BothClosed(g, x);
            (exists k: nat :: ClosesAt(t, false, k)) && (exists k: nat :: ClosesAt(t, true, k))
  {
    hide Hellos, ClosesAt, SendsTicket, UsesChannelId;
    var t, b := BothClosed(g, x), BeforeClient(g, x);
    var u := WithChannelId(g, x, b);
    assert t == (u + [Finished(false, u)]) + [];
    ClosesHere(false, u, []);
    var a := Hellos(g, x) + When(SendsTicket(g, x), NewSessionTicket(false));
    var rest := When(g.npn, NextProto) + When(UsesChannelId(g, x), ChannelId) + [Finished(false, u)];
    assert t == (a + [Finished(true, a)]) + rest;
    ClosesHere(true, a, rest);
  }

  lemma ClosedFull(g: Config, x: Course)
    requires !Resumes(g, x)
    ensures var t := BothClosed(g, x);
            (exists k: nat :: ClosesAt(t, false, k)) && (exists k: nat :: ClosesAt(t, true, k))
  {
    hide WithProof, ClosesAt, SendsTicket, WithChannelId;
    var t, u := BothClosed(g, x), WithChannelId(g, x, WithProof(g, x));
    var a := u + [Finished(false, u)] + When(SendsTicket(g, x), NewSessionTicket(false));
    assert t == (a + [Finished(true, a)]) + [];
    ClosesHere(true, a, []);
    var rest := When(SendsTicket(g, x), NewSessionTicket(false)) + [Finished(true, a)];
    assert t == (u + [Finished(false, u)]) + rest;
    ClosesHere(false, u, rest);
  }

  lemma ProvenFull(g: Config, x: Course)
    requires Requests(g, x) && x.certificate
    ensures exists k: nat :: ProvesAt(BothClosed(g, x), k)
  {
    GoesOn(g, x, WithProof(g, x));
    ProofStays(g, x, BothClosed(g, x));
  }

  /** Closing messages come behind what there is. */
  lemma GoesOn(g: Config, x: Course, t: seq<Msg>)
    ensures t <= ClientCloses(g, x, t) <= ServerCloses(g, x, ClientCloses(g, x, t))
  {
    hide UsesChannelId, SendsTicket;
  }

  /** A client certificate, once the state of its CertificateVerify is past, is proved by a signature over the
      transcript up to there. */
  lemma ClientCertificateIsProven(config: Config, events: seq<Event>)
    ensures var s := Run(Side(New(config), Ok), events).s;
            s.agreed.peerCert && Rank(s.state, s.agreed.resumed) < Rank(ReadClientCertificateVerify, false) ==>
              exists k: nat :: ProvesAt(s.io.transcript, k)
  {
    hide Run, ProvesAt;
    var x := RunOnCourse(config, events);
    var s := Run(Side(New(config), Ok), events).s;
    if s.agreed.peerCert && Rank(s.state, s.agreed.resumed) < Rank(ReadClientCertificateVerify, false) {
      PastProof(s, x);
      ProofStays(config, x, s.io.transcript);
    }
  }

  lemma PastProof(s: Server, x: Course)
    requires On(s, x) && s.agreed.peerCert && Rank(s.state, s.agreed.resumed) < Rank(ReadClientCertificateVerify, false)
    ensures Requests(s.config, x) && x.certificate && WithProof(s.config, x) <= s.io.transcript
  {
    hide Hellos, WithProof, WithHelloDone, WithCertificate, WithParams, SendsTicket, UsesChannelId;
  }

  lemma ProofStays(g: Config, x: Course, t: seq<Msg>)
    requires Requests(g, x) && x.certificate && WithProof(g, x) <= t
    ensures exists k: nat :: ProvesAt(t, k)
  {
    hide WithKeyExchange;
    var e := WithKeyExchange(g, x);
    assert t[..|e|] == e && t[|e|] == CertificateVerify(e);
    assert ProvesAt(t, |e|);
  }

  // ---------- The oracles ----------

  /** An oracle that says no stops the step it is asked in: nothing is accepted, sent or counted. */
  lemma FailureIsFinal(s: Server)
    ensures var r := Step(s, Fail);
            && r.1.io == s.io && r.1.agreed == s.agreed.(hasParams := r.1.agreed.hasParams)
            && r.0 != Flush
            && (Asks(s) ==> r == (Error, s))
            && (r.0 == Error <==> Asks(s) || Rejects(s))
  {
    hide Sound, Moves;
  }

  /** The steps that cannot go on without an oracle. */
  predicate Asks(s: Server) {
    match s.state
    case ReadClientHello => s.io.hsBuf != []
    case SelectCertificate => s.io.hsBuf != []
    case SelectParameters => s.io.hsBuf != []
    case SendServerHello => true
    case SendServerCertificate => true
    case SendServerKeyExchange => s.agreed.hasParams
    case SendServerHelloDone => true
    case ReadClientCertificate => s.agreed.certRequest && s.io.hsBuf != []
    case VerifyClientCertificate => s.agreed.peerCert
    case ReadClientKeyExchange => s.io.hsBuf != []
    case ReadClientCertificateVerify => s.agreed.peerCert && s.io.hsBuf != []
    case ProcessChangeCipherSpec => true
    case ReadNextProto => s.config.npn && s.io.hsBuf != []
    case ReadChannelId => s.agreed.channelId && s.io.hsBuf != []
    case ReadClientFinished => s.io.hsBuf != []
    case SendServerFinished => true
    case _ => false
  }

  /** What a server cannot accept: a message out of place, no certificate where it insists on one, or data left over
      when the read keys change; and it cannot do without a certificate of its own. */
  predicate Rejects(s: Server) {
    var here := s.io.hsBuf != [];
    match s.state
    case ReadClientHello => here && !s.io.hsBuf[0].ClientHello?
    case SelectParameters => here && !s.io.hsBuf[0].ClientHello?
    case SendServerCertificate => Certified(s.config) && !s.config.hasCertificate
    case ReadClientCertificate =>
      s.agreed.certRequest && here && (s.io.hsBuf[0].Certificate? ==> !s.io.hsBuf[0].nonEmpty && s.config.requiresPeer)
    case ReadClientKeyExchange => here && s.io.hsBuf[0] != ClientKeyExchange
    case ReadClientCertificateVerify => s.agreed.peerCert && here && s.io.hsBuf[0] != CertificateVerify(s.io.transcript)
    case ProcessChangeCipherSpec => here
    case ReadNextProto => s.config.npn && here && s.io.hsBuf[0] != NextProto
    case ReadChannelId => s.agreed.channelId && here && s.io.hsBuf[0] != ChannelId
    case ReadClientFinished => here && s.io.hsBuf[0] != Finished(false, s.io.transcript)
    case _ => false
  }

  /** With oracles that say yes, a step is an error exactly for such a reason. */
  lemma ErrorsExactly(s: Server)
    ensures Step(s, Succeed).0 == Error <==> Rejects(s)
  {
    hide Sound, Moves;
  }

  /** A client's certificate is accepted only by an oracle that says so, and its signature counts only when it is
      one over the transcript. */
  lemma AcceptedByOracle(s: Server, v: Verdict)
    ensures var t := Step(s, v).1.io.tally;
            && (t.peerAccepted && !s.io.tally.peerAccepted ==> s.state == VerifyClientCertificate && v == Succeed)
            && (t.signatureChecked && !s.io.tally.signatureChecked ==>
                  s.io.hsBuf != [] && s.io.hsBuf[0] == CertificateVerify(s.io.transcript) && v != Fail)
  {
    hide Sound, Moves, NeedsParams, CipherKind.UsesCertificate, CipherKind.RequiresServerKeyExchange, When;
    ServerHelloKeepsTally(s, v);
    hide DoSendServerHello, DoSelectParameters;
  }

  lemma ServerHelloKeepsTally(s: Server, v: Verdict)
    ensures s.state == SendServerHello ==> DoSendServerHello(s, v).1.io.tally == s.io.tally
    ensures s.state == SelectParameters ==> DoSelectParameters(s, v).1.io.tally == s.io.tally
  {
    hide Sound, Moves;
  }

  /** Which callback a step that is to be repeated waits for. */
  lemma Returns(s: Server, v: Verdict)
    ensures var w := Step(s, v).0;
            && (w == CertificateSelectionPending <==>
                  v == Retry && s.state == ReadClientHello && s.io.hsBuf != [] && s.io.hsBuf[0].ClientHello?)
            && (w == X509Lookup <==> v == Retry && s.state == SelectCertificate && s.io.hsBuf != [])
            && (w == PendingSession <==> v == Retry && s.state == SelectParameters && s.io.hsBuf != [] && s.io.hsBuf[0].ClientHello?)
            && (w == PrivateKeyOperation <==>
                  && v == Retry
                  && ((s.state == SendServerKeyExchange && s.agreed.hasParams && s.config.kind.UsesCertificate())
                      || (s.state == ReadClientKeyExchange && s.config.kind == Rsa && s.io.hsBuf != [] && s.io.hsBuf[0] == ClientKeyExchange)))
            && (w == CertificateVerification <==> v == Retry && s.state == VerifyClientCertificate && s.agreed.peerCert)
            && w != EarlyReturn && w != ChannelIdLookup
  {
    hide Sound, Moves;
  }

  /** A handshake becomes one of TLS 1.3 exactly by the choice of version, with the ClientHello still unread. */
  lemma HandsOver(s: Server, v: Verdict)
    requires s.state != Tls13
    ensures var r := Step(s, v);
            r.1.state == Tls13 <==> s.state == SelectCertificate && v == Succeed && s.io.hsBuf != [] && s.config.tls13
    ensures Step(s, v).1.state == Tls13 ==> Step(s, v).1.io == s.io
  {
    hide Sound, Moves;
  }
}
