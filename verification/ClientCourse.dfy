/** What a client's transcript is, whoever the peer is: in every run, at every moment, the beginning of a
    handshake that the protocol allows (section 7.3 of RFC 5246), with each Finished and CertificateVerify
    over exactly the messages before it. */
module ClientCourse {
  import opened Handshake
  import opened ClientHandshake

  /** What a client cannot know beforehand: whether a cookie is asked for, the ServerHello, which optional messages
      the server sends, and whether its ticket is empty. */
  datatype Course = Course(cookie: bool, hello: Hello, status: bool, params: bool, request: bool, emptyTicket: bool)

  /** The cipher suite authenticates the server by a certificate. */
  predicate Certified(x: Course) {
    x.hello.kind.Rsa? || x.hello.kind.Ecdhe?
  }

  predicate Resumes(g: Config, x: Course) {
    g.offersSession && x.hello.resumes
  }

  /** The server stays within the protocol. */
  predicate Allowed(g: Config, x: Course) {
    && (x.cookie ==> g.isDtls)
    && !x.hello.tls13
    && (x.hello.status ==> Certified(x)) && (x.status ==> x.hello.status)
    && (x.hello.kind.Ecdhe? || x.hello.kind.EcdhePsk? ==> x.params) && (x.hello.kind.Rsa? ==> !x.params)
    && (x.request ==> Certified(x))
  }

  // ---------- The transcript, piece by piece ----------

  function Hellos(g: Config, x: Course): seq<Msg> {
    [ClientHello(x.cookie, g.offersSession), ServerHello(x.hello)]
  }

  function WithCertificate(g: Config, x: Course): seq<Msg> {
    Hellos(g, x) + When(Certified(x), Certificate(true))
  }

  function WithStatus(g: Config, x: Course): seq<Msg> {
    WithCertificate(g, x) + When(x.status, CertificateStatus)
  }

  function WithParams(g: Config, x: Course): seq<Msg> {
    WithStatus(g, x) + When(x.params, ServerKeyExchange)
  }

  function WithRequest(g: Config, x: Course): seq<Msg> {
    WithParams(g, x) + When(x.request, CertificateRequest)
  }

  function WithHelloDone(g: Config, x: Course): seq<Msg> {
    WithRequest(g, x) + [ServerHelloDone]
  }

  function WithClientCertificate(g: Config, x: Course): seq<Msg> {
    WithHelloDone(g, x) + When(x.request, Certificate(g.hasCertificate))
  }

  function WithKeyExchange(g: Config, x: Course): seq<Msg> {
    WithClientCertificate(g, x) + [ClientKeyExchange]
  }

  function WithProof(g: Config, x: Course): seq<Msg> {
    var t := WithKeyExchange(g, x);
    t + When(x.request && g.hasCertificate, CertificateVerify(t))
  }

  /** The client's closing messages. */
  function ClientCloses(x: Course, t: seq<Msg>): seq<Msg> {
    var u := t + When(x.hello.npn, NextProto) + When(x.hello.channelId, ChannelId);
    u + [Finished(false, u)]
  }

  function WithTicket(x: Course, t: seq<Msg>): seq<Msg> {
    t + When(x.hello.ticket, NewSessionTicket(x.emptyTicket))
  }

  function ServerCloses(t: seq<Msg>): seq<Msg> {
    t + [Finished(true, t)]
  }

  function BeforeTicket(g: Config, x: Course): seq<Msg> {
    if Resumes(g, x) then Hellos(g, x) else ClientCloses(x, WithProof(g, x))
  }

  function BothClosed(g: Config, x: Course): seq<Msg> {
    var t := ServerCloses(WithTicket(x, BeforeTicket(g, x)));
    if Resumes(g, x) then ClientCloses(x, t) else t
  }

  /** The transcript in each state. */
  function Upto(state: State, g: Config, x: Course): seq<Msg> {
    match state
    case StartConnect => []
    case EnterEarlyData => [ClientHello(false, g.offersSession)]
    case ReadHelloVerifyRequest => [ClientHello(false, g.offersSession)]
    case ReadServerHelloState => [ClientHello(x.cookie, g.offersSession)]
    case Tls13 => [ClientHello(x.cookie, g.offersSession)]
    case ReadServerCertificate => Hellos(g, x)
    case ReadCertificateStatus => WithCertificate(g, x)
    case VerifyServerCertificate => WithStatus(g, x)
    case ReadServerKeyExchange => WithStatus(g, x)
    case ReadCertificateRequest => WithParams(g, x)
    case ReadServerHelloDone => WithRequest(g, x)
    case SendClientCertificate => WithHelloDone(g, x)
    case SendClientKeyExchange => WithClientCertificate(g, x)
    case SendClientCertificateVerify => WithKeyExchange(g, x)
    case SendClientFinished => if Resumes(g, x) then ServerCloses(WithTicket(x, Hellos(g, x))) else WithProof(g, x)
    case FinishFlight => if Resumes(g, x) then BothClosed(g, x) else BeforeTicket(g, x)
    case ReadSessionTicket => BeforeTicket(g, x)
    case ProcessChangeCipherSpec => WithTicket(x, BeforeTicket(g, x))
    case ReadServerFinished => WithTicket(x, BeforeTicket(g, x))
    case FinishClientHandshake => BothClosed(g, x)
    case Done => BothClosed(g, x)
  }

  /** The ServerHello has been read. */
  predicate Agrees(state: State) {
    !state.StartConnect? && !state.EnterEarlyData? && !state.ReadHelloVerifyRequest? && !state.ReadServerHelloState? && !state.Tls13?
  }

  /** The state belongs to a full handshake only. */
  predicate FullOnly(state: State) {
    state.ReadServerCertificate? || state.ReadCertificateStatus? || state.VerifyServerCertificate? || state.ReadServerKeyExchange?
    || state.ReadCertificateRequest? || state.ReadServerHelloDone? || state.SendClientCertificate? || state.SendClientKeyExchange?
    || state.SendClientCertificateVerify?
  }

  predicate TicketDecided(state: State) {
    state.ProcessChangeCipherSpec? || state.ReadServerFinished? || state.FinishClientHandshake? || state.Done?
  }

  predicate BeforeRequest(state: State) {
    state.ReadServerCertificate? || state.ReadCertificateStatus? || state.VerifyServerCertificate? || state.ReadServerKeyExchange?
    || state.ReadCertificateRequest?
  }

  /** The client knows what the course has settled. */
  ghost predicate Knows(c: Client, x: Course) {
    && c.agreed.kind == x.hello.kind && c.agreed.resumed == Resumes(c.config, x)
    && c.agreed.statusExpected == x.hello.status
    && c.agreed.npn == x.hello.npn && c.agreed.channelId == x.hello.channelId
    && (FullOnly(c.state) ==> !Resumes(c.config, x))
    && (c.state.ReadSessionTicket? || (!Resumes(c.config, x) && !TicketDecided(c.state)) ==> c.agreed.ticketExpected == x.hello.ticket)
    && (TicketDecided(c.state) || (Resumes(c.config, x) && !c.state.ReadSessionTicket?) ==>
          c.agreed.ticketExpected == (x.hello.ticket && !x.emptyTicket))
    && (!Resumes(c.config, x) ==> c.agreed.certRequest == (!BeforeRequest(c.state) && x.request))
  }

  ghost predicate On(c: Client, x: Course) {
    && c.io.transcript == Upto(c.state, c.config, x)
    && if Agrees(c.state) then Allowed(c.config, x) && Knows(c, x)
       else (x.cookie || c.state.ReadHelloVerifyRequest? ==> c.config.isDtls)
  }

  // ---------- Every step keeps to a course ----------

  // What is settled later does not show earlier.

  lemma StatusComesLater(g: Config, x: Course, status: bool)
    ensures WithCertificate(g, x.(status := status)) == WithCertificate(g, x)
  {}

  lemma ParamsComeLater(g: Config, x: Course, params: bool)
    ensures WithStatus(g, x.(params := params)) == WithStatus(g, x)
  {}

  lemma RequestComesLater(g: Config, x: Course, request: bool)
    ensures WithParams(g, x.(request := request)) == WithParams(g, x)
  {}

  lemma TicketComesLater(g: Config, x: Course, empty: bool)
    ensures BeforeTicket(g, x.(emptyTicket := empty)) == BeforeTicket(g, x)
  {}

  lemma OnStartConnect(c: Client, v: Verdict, x: Course)
    requires On(c, x) && c.state.StartConnect?
    ensures On(DoStartConnect(c, v).1, x)
  {
    hide Sound, Moves, Hellos, WithCertificate, WithStatus, WithParams, WithRequest, WithHelloDone, WithClientCertificate;
    hide WithKeyExchange, WithProof, ClientCloses, WithTicket, ServerCloses, BeforeTicket, BothClosed;
  }

  lemma OnEnterEarlyData(c: Client, x: Course) returns (y: Course)
    requires On(c, x) && c.state.EnterEarlyData?
    ensures On(DoEnterEarlyData(c).1, y)
  {
    hide Sound, Moves, Hellos, WithCertificate, WithStatus, WithParams, WithRequest, WithHelloDone, WithClientCertificate;
    hide WithKeyExchange, WithProof, ClientCloses, WithTicket, ServerCloses, BeforeTicket, BothClosed;
    y := x.(cookie := false);
  }

  lemma OnReadHelloVerifyRequest(c: Client, v: Verdict, x: Course) returns (y: Course)
    requires On(c, x) && c.state.ReadHelloVerifyRequest?
    ensures On(DoReadHelloVerifyRequest(c, v).1, y)
  {
    hide Sound, Moves, Hellos, WithCertificate, WithStatus, WithParams, WithRequest, WithHelloDone, WithClientCertificate;
    hide WithKeyExchange, WithProof, ClientCloses, WithTicket, ServerCloses, BeforeTicket, BothClosed;
    y := x.(cookie := DoReadHelloVerifyRequest(c, v).0 == Flush);
  }

  lemma OnReadServerHello(c: Client, v: Verdict, x: Course) returns (y: Course)
    requires On(c, x) && c.state.ReadServerHelloState?
    ensures On(DoReadServerHello(c, v).1, y)
  {
    hide Sound, Moves, WithCertificate, WithStatus, WithParams, WithRequest, WithHelloDone, WithClientCertificate, WithKeyExchange;
    hide WithProof, ClientCloses, WithTicket, ServerCloses, BothClosed;
    y := x;
    if DoReadServerHello(c, v).0 == Ok {
      var h := c.io.hsBuf[0].hello;
      y := Course(x.cookie, h, false, h.kind.Ecdhe? || h.kind.EcdhePsk?, false, false);
    }
  }

  lemma OnReadServerCertificate(c: Client, v: Verdict, x: Course)
    requires On(c, x) && c.state.ReadServerCertificate?
    ensures On(DoReadServerCertificate(c, v).1, x)
  {
    hide Sound, Moves, Hellos, WithStatus, WithParams, WithRequest, WithHelloDone, WithClientCertificate, WithKeyExchange;
    hide WithProof, ClientCloses, WithTicket, ServerCloses, BeforeTicket, BothClosed;
  }

  lemma OnReadCertificateStatus(c: Client, v: Verdict, x: Course) returns (y: Course)
    requires On(c, x) && c.state.ReadCertificateStatus?
    ensures On(DoReadCertificateStatus(c, v).1, y)
  {
    hide On, Sound, Moves;
    y := x;
    var r := DoReadCertificateStatus(c, v);
    if r.0 == Ok {
      y := x.(status := c.agreed.statusExpected && c.io.hsBuf[0] == CertificateStatus);
      assert c.io.transcript + [] == c.io.transcript;
      StatusTaken(c, x, r.1, y);
    }
  }

  lemma StatusTaken(c: Client, x: Course, d: Client, y: Course)
    requires On(c, x) && c.state.ReadCertificateStatus? && y == x.(status := y.status) && (y.status ==> c.agreed.statusExpected)
    requires d == c.(io := d.io, state := VerifyServerCertificate)
    requires d.io.transcript == c.io.transcript + When(y.status, CertificateStatus)
    ensures On(d, y)
  {
    hide Upto, When;
    UptoStatus(c.config, x, y.status);
  }

  lemma UptoStatus(g: Config, x: Course, status: bool)
    ensures Upto(VerifyServerCertificate, g, x.(status := status))
            == Upto(ReadCertificateStatus, g, x) + When(status, CertificateStatus)
  {
    StatusComesLater(g, x, status);
    hide WithCertificate, When;
  }

  lemma OnVerifyServerCertificate(c: Client, v: Verdict, x: Course)
    requires On(c, x) && c.state.VerifyServerCertificate?
    ensures On(DoVerifyServerCertificate(c, v).1, x)
  {
    hide Sound, Moves, Hellos, WithCertificate, WithStatus, WithParams, WithRequest, WithHelloDone, WithClientCertificate;
    hide WithKeyExchange, WithProof, ClientCloses, WithTicket, ServerCloses, BeforeTicket, BothClosed;
  }

  lemma OnReadServerKeyExchange(c: Client, v: Verdict, x: Course) returns (y: Course)
    requires On(c, x) && c.state.ReadServerKeyExchange?
    ensures On(DoReadServerKeyExchange(c, v).1, y)
  {
    hide Sound, Moves, Hellos, WithCertificate, WithStatus, WithRequest, WithHelloDone, WithClientCertificate, WithKeyExchange;
    hide WithProof, ClientCloses, WithTicket, ServerCloses, BeforeTicket, BothClosed;
    y := x;
    if DoReadServerKeyExchange(c, v).0 == Ok {
      y := x.(params := c.io.hsBuf[0] == ServerKeyExchange);
      ParamsComeLater(c.config, x, y.params);
    }
  }

  lemma OnReadCertificateRequest(c: Client, v: Verdict, x: Course) returns (y: Course)
    requires On(c, x) && c.state.ReadCertificateRequest?
    ensures On(DoReadCertificateRequest(c, v).1, y)
  {
    CertifiedIs(c, x);
    hide On, Sound, Moves;
    y := x;
    var r := DoReadCertificateRequest(c, v);
    if r.0 == Ok {
      y := x.(request := c.agreed.kind.UsesCertificate() && c.io.hsBuf[0] == CertificateRequest);
      assert c.io.transcript + [] == c.io.transcript;
      RequestTaken(c, x, r.1, y);
    }
  }

  lemma CertifiedIs(c: Client, x: Course)
    requires On(c, x) && c.state.ReadCertificateRequest?
    ensures (c.agreed.kind.UsesCertificate() <==> Certified(x)) && !c.agreed.certRequest
  {
    hide Upto;
  }

  lemma RequestTaken(c: Client, x: Course, d: Client, y: Course)
    requires On(c, x) && c.state.ReadCertificateRequest? && y == x.(request := y.request) && (y.request ==> Certified(x))
    requires d == c.(io := d.io, agreed := c.agreed.(certRequest := y.request), state := ReadServerHelloDone)
    requires d.io.transcript == c.io.transcript + When(y.request, CertificateRequest)
    ensures On(d, y)
  {
    hide Upto, When, Knows, Allowed;
    UptoRequest(c.config, x, y.request);
    KnowsRequest(c, x, d, y);
    AllowsRequest(c.config, x, y.request);
  }

  lemma KnowsRequest(c: Client, x: Course, d: Client, y: Course)
    requires Knows(c, x) && c.state.ReadCertificateRequest? && y == x.(request := y.request)
    requires d == c.(io := d.io, agreed := c.agreed.(certRequest := y.request), state := ReadServerHelloDone)
    ensures Knows(d, y)
  {}

  lemma AllowsRequest(g: Config, x: Course, request: bool)
    requires Allowed(g, x) && (request ==> Certified(x))
    ensures Allowed(g, x.(request := request))
  {}

  lemma UptoRequest(g: Config, x: Course, request: bool)
    ensures Upto(ReadServerHelloDone, g, x.(request := request))
            == Upto(ReadCertificateRequest, g, x) + When(request, CertificateRequest)
  {
    RequestComesLater(g, x, request);
    hide WithParams, When;
  }

  lemma OnReadServerHelloDone(c: Client, v: Verdict, x: Course)
    requires On(c, x) && c.state.ReadServerHelloDone?
    ensures On(DoReadServerHelloDone(c, v).1, x)
  {
    hide Sound, Moves, Hellos, WithCertificate, WithStatus, WithParams, WithRequest, WithClientCertificate, WithKeyExchange;
    hide WithProof, ClientCloses, WithTicket, ServerCloses, BeforeTicket, BothClosed;
  }

  lemma OnSendClientCertificate(c: Client, v: Verdict, x: Course)
    requires On(c, x) && c.state.SendClientCertificate?
    ensures On(DoSendClientCertificate(c, v).1, x)
  {
    hide Sound, Moves, Hellos, WithCertificate, WithStatus, WithParams, WithRequest, WithHelloDone, WithKeyExchange;
    hide WithProof, ClientCloses, WithTicket, ServerCloses, BeforeTicket, BothClosed;
  }

  lemma OnSendClientKeyExchange(c: Client, v: Verdict, x: Course)
    requires On(c, x) && c.state.SendClientKeyExchange?
    ensures On(DoSendClientKeyExchange(c, v).1, x)
  {
    hide Sound, Moves, Hellos, WithCertificate, WithStatus, WithParams, WithRequest, WithHelloDone, WithClientCertificate;
    hide WithProof, ClientCloses, WithTicket, ServerCloses, BeforeTicket, BothClosed;
  }

  lemma OnSendClientCertificateVerify(c: Client, v: Verdict, x: Course)
    requires On(c, x) && c.state.SendClientCertificateVerify?
    ensures On(DoSendClientCertificateVerify(c, v).1, x)
  {
    hide Sound, Moves, Hellos, WithCertificate, WithStatus, WithParams, WithRequest, WithHelloDone, WithClientCertificate;
    hide WithKeyExchange, ClientCloses, WithTicket, ServerCloses, BeforeTicket, BothClosed;
  }

  lemma OnSendClientFinished(c: Client, v: Verdict, x: Course)
    requires On(c, x) && c.state.SendClientFinished?
    ensures On(DoSendClientFinished(c, v).1, x)
  {
    hide Sound, Moves, Hellos, WithCertificate, WithStatus, WithParams, WithRequest, WithHelloDone, WithClientCertificate;
    hide WithKeyExchange, WithProof, WithTicket, ServerCloses;
    var t := c.io.transcript;
    assert t + [] == t && (t + [NextProto]) + [] == t + [NextProto];
  }

  lemma OnFinishFlight(c: Client, v: Verdict, x: Course)
    requires On(c, x) && c.state.FinishFlight?
    ensures On(DoFinishFlight(c, v).1, x)
  {
    hide Sound, Moves, Hellos, WithCertificate, WithStatus, WithParams, WithRequest, WithHelloDone, WithClientCertificate;
    hide WithKeyExchange, WithProof, ClientCloses, WithTicket, ServerCloses, BeforeTicket, BothClosed;
  }

  lemma OnReadSessionTicket(c: Client, v: Verdict, x: Course) returns (y: Course)
    requires On(c, x) && c.state.ReadSessionTicket?
    ensures On(DoReadSessionTicket(c, v).1, y)
  {
    hide Sound, Moves, Hellos, WithCertificate, WithStatus, WithParams, WithRequest, WithHelloDone, WithClientCertificate;
    hide WithKeyExchange, WithProof, ClientCloses, ServerCloses, BeforeTicket, BothClosed;
    y := x;
    if DoReadSessionTicket(c, v).0 == ReadChangeCipherSpec && c.agreed.ticketExpected {
      y := x.(emptyTicket := c.io.hsBuf[0].empty);
      TicketComesLater(c.config, x, y.emptyTicket);
    }
  }

  lemma OnProcessChangeCipherSpec(c: Client, v: Verdict, x: Course)
    requires On(c, x) && c.state.ProcessChangeCipherSpec?
    ensures On(DoProcessChangeCipherSpec(c, v).1, x)
  {
    hide Sound, Moves, Hellos, WithCertificate, WithStatus, WithParams, WithRequest, WithHelloDone, WithClientCertificate;
    hide WithKeyExchange, WithProof, ClientCloses, WithTicket, ServerCloses, BeforeTicket, BothClosed;
  }

  lemma OnReadServerFinished(c: Client, v: Verdict, x: Course)
    requires On(c, x) && c.state.ReadServerFinished?
    ensures On(DoReadServerFinished(c, v).1, x)
  {
    hide Sound, Moves, Hellos, WithCertificate, WithStatus, WithParams, WithRequest, WithHelloDone, WithClientCertificate;
    hide WithKeyExchange, WithProof, ClientCloses, WithTicket;
  }

  lemma OnFinishClientHandshake(c: Client, v: Verdict, x: Course)
    requires On(c, x) && c.state.FinishClientHandshake?
    ensures On(DoFinishClientHandshake(c, v).1, x)
  {
    hide Sound, Moves, Hellos, WithCertificate, WithStatus, WithParams, WithRequest, WithHelloDone, WithClientCertificate;
    hide WithKeyExchange, WithProof, ClientCloses, WithTicket, ServerCloses, BeforeTicket, BothClosed;
  }

  lemma StepOnCourse(c: Client, v: Verdict, x: Course) returns (y: Course)
    requires On(c, x)
    ensures On(Step(c, v).1, y)
  {
    hide On, Sound, Moves;
    y := x;
    match c.state
    case StartConnect => OnStartConnect(c, v, x);
    case EnterEarlyData => y := OnEnterEarlyData(c, x);
    case ReadHelloVerifyRequest => y := OnReadHelloVerifyRequest(c, v, x);
    case ReadServerHelloState => y := OnReadServerHello(c, v, x);
    case Tls13 =>
    case ReadServerCertificate => OnReadServerCertificate(c, v, x);
    case ReadCertificateStatus => y := OnReadCertificateStatus(c, v, x);
    case VerifyServerCertificate => OnVerifyServerCertificate(c, v, x);
    case ReadServerKeyExchange => y := OnReadServerKeyExchange(c, v, x);
    case ReadCertificateRequest => y := OnReadCertificateRequest(c, v, x);
    case ReadServerHelloDone => OnReadServerHelloDone(c, v, x);
    case SendClientCertificate => OnSendClientCertificate(c, v, x);
    case SendClientKeyExchange => OnSendClientKeyExchange(c, v, x);
    case SendClientCertificateVerify => OnSendClientCertificateVerify(c, v, x);
    case SendClientFinished => OnSendClientFinished(c, v, x);
    case FinishFlight => OnFinishFlight(c, v, x);
    case ReadSessionTicket => y := OnReadSessionTicket(c, v, x);
    case ProcessChangeCipherSpec => OnProcessChangeCipherSpec(c, v, x);
    case ReadServerFinished => OnReadServerFinished(c, v, x);
    case FinishClientHandshake => OnFinishClientHandshake(c, v, x);
    case Done =>
  }

  // ---------- Every run keeps to a course ----------

  lemma SameCourse(c: Client, d: Client, x: Course)
    requires On(c, x) && d == c.(io := d.io) && d.io.transcript == c.io.transcript
    ensures On(d, x)
  {
    hide Upto;
  }

  lemma StepKeepsConfig(c: Client, v: Verdict)
    ensures Step(c, v).1.config == c.config
  {
    hide Sound, Moves;
  }

  lemma ApplyOnCourse(s: Side, e: Event, x: Course) returns (y: Course)
    requires On(s.c, x)
    ensures On(Apply(s, e).c, y) && Apply(s, e).c.config == s.c.config
  {
    y := x;
    match e
    case Advance(v) =>
      if s.wait == Ok && s.c.state != Done {
        y := StepOnCourse(s.c, v, x);
        StepKeepsConfig(s.c, v);
        hide On, Step;
      }
    case _ =>
      hide On;
      SameCourse(s.c, Apply(s, e).c, x);
  }

  /** Whatever the peer sends and whatever the oracles say, the transcript is at every moment that of an allowed
      course, as far as the state has got. */
  lemma {:induction false} RunOnCourse(config: Config, events: seq<Event>) returns (x: Course)
    ensures var c := Run(Side(New(config), Ok), events).c;
            On(c, x) && c.config == config
  {
    if events == [] {
      x := Course(false, Hello(false, false, Rsa, false, false, false, false), false, false, false, false);
    } else {
      var init := events[..|events| - 1];
      var before := RunOnCourse(config, init);
      hide On, Apply;
      x := ApplyOnCourse(Run(Side(New(config), Ok), init), events[|events| - 1], before);
    }
  }

  /** A client that is done has a server's Finished over its very transcript, and sent its own over it. */
  lemma DoneMeansCourse(config: Config, events: seq<Event>) returns (x: Course)
    requires Run(Side(New(config), Ok), events).c.state == Done
    ensures var c := Run(Side(New(config), Ok), events).c;
            var t := c.io.transcript;
            && Allowed(config, x) && t == BothClosed(config, x)
            && c.agreed.resumed == Resumes(config, x) && c.agreed.ticketExpected == (x.hello.ticket && !x.emptyTicket)
            && (exists k: nat :: ClosesAt(t, true, k)) && (exists k: nat :: ClosesAt(t, false, k))
            && (!Resumes(config, x) && x.request && config.hasCertificate ==> exists k: nat :: ProvesAt(t, k))
  {
    hide Run, On;
    x := RunOnCourse(config, events);
    DoneIsClosed(Run(Side(New(config), Ok), events).c, x);
    ClosedBoth(config, x);
    hide *;
  }

  lemma DoneIsClosed(c: Client, x: Course)
    requires On(c, x) && c.state == Done
    ensures Allowed(c.config, x) && c.io.transcript == BothClosed(c.config, x)
    ensures c.agreed.resumed == Resumes(c.config, x) && c.agreed.ticketExpected == (x.hello.ticket && !x.emptyTicket)
  {
    hide Allowed, BothClosed, Resumes;
  }

  lemma ClosedBoth(g: Config, x: Course)
    ensures var t := BothClosed(g, x);
            && (exists k: nat :: ClosesAt(t, true, k)) && (exists k: nat :: ClosesAt(t, false, k))
            && (!Resumes(g, x) && x.request && g.hasCertificate ==> exists k: nat :: ProvesAt(t, k))
  {
    if Resumes(g, x) {
      ClosedResumed(g, x);
    } else {
      ClosedFull(g, x);
      if x.request && g.hasCertificate {
        ProvenFull(g, x);
      }
    }
  }

  lemma ClosedResumed(g: Config, x: Course)
    requires Resumes(g, x)
    ensures var t := BothClosed(g, x);
            (exists k: nat :: ClosesAt(t, true, k)) && (exists k: nat :: ClosesAt(t, false, k))
  {
    hide Hellos, WithTicket, ClosesAt;
    var t, a := BothClosed(g, x), WithTicket(x, Hellos(g, x));
    var u := ServerCloses(a) + When(x.hello.npn, NextProto) + When(x.hello.channelId, ChannelId);
    assert t == (u + [Finished(false, u)]) + [];
    ClosesHere(false, u, []);
    var rest := When(x.hello.npn, NextProto) + When(x.hello.channelId, ChannelId) + [Finished(false, u)];
    assert t == (a + [Finished(true, a)]) + rest;
    ClosesHere(true, a, rest);
  }

  lemma ClosedFull(g: Config, x: Course)
    requires !Resumes(g, x)
    ensures var t := BothClosed(g, x);
            (exists k: nat :: ClosesAt(t, true, k)) && (exists k: nat :: ClosesAt(t, false, k))
  {
    hide WithProof, ClosesAt;
    var t, p := BothClosed(g, x), WithProof(g, x);
    var u := p + When(x.hello.npn, NextProto) + When(x.hello.channelId, ChannelId);
    var a := WithTicket(x, ClientCloses(x, p));
    assert t == (a + [Finished(true, a)]) + [];
    ClosesHere(true, a, []);
    var rest := When(x.hello.ticket, NewSessionTicket(x.emptyTicket)) + [Finished(true, a)];
    assert t == (u + [Finished(false, u)]) + rest;
    ClosesHere(false, u, rest);
  }

  lemma ProvenFull(g: Config, x: Course)
    requires !Resumes(g, x) && x.request && g.hasCertificate
    ensures exists k: nat :: ProvesAt(BothClosed(g, x), k)
  {
    GoesOn(x, WithProof(g, x));
    ProofStays(g, x, BothClosed(g, x));
  }

  /** Closing messages come behind what there is. */
  lemma GoesOn(x: Course, t: seq<Msg>)
    ensures t <= ClientCloses(x, t) <= ServerCloses(WithTicket(x, ClientCloses(x, t)))
  {}

  lemma ProofStays(g: Config, x: Course, t: seq<Msg>)
    requires x.request && g.hasCertificate && WithProof(g, x) <= t
    ensures exists k: nat :: ProvesAt(t, k)
  {
    hide WithKeyExchange;
    var e := WithKeyExchange(g, x);
    assert t[..|e|] == e && t[|e|] == CertificateVerify(e);
    assert ProvesAt(t, |e|);
  }

  // ---------- The oracles ----------

  /** An oracle that says no stops the step it is asked in: nothing is accepted, sent or counted. */
  lemma FailureIsFinal(c: Client)
    ensures var r := Step(c, Fail);
            && r.1.io == c.io && r.1.agreed == c.agreed
            && r.0 != Flush && r.0 != EarlyReturn
            && (Asks(c) ==> r == (Error, c))
            && (r.0 == Error <==> Asks(c) || Rejects(c))
  {
    hide Sound, Moves;
  }

  /** The steps that cannot go on without an oracle: to build or check a message that is due or there, to verify a
      certificate, to derive keys. */
  predicate Asks(c: Client) {
    match c.state
    case StartConnect => true
    case ReadHelloVerifyRequest => c.io.hsBuf != [] && c.io.hsBuf[0] == HelloVerifyRequest
    case ReadServerHelloState => c.io.hsBuf != []
    case ReadServerCertificate => c.agreed.kind.UsesCertificate() && c.io.hsBuf != []
    case ReadCertificateStatus => c.agreed.statusExpected && c.io.hsBuf != [] && c.io.hsBuf[0] == CertificateStatus
    case VerifyServerCertificate => c.agreed.kind.UsesCertificate()
    case ReadServerKeyExchange => c.io.hsBuf != [] && c.io.hsBuf[0] == ServerKeyExchange
    case ReadCertificateRequest => c.agreed.kind.UsesCertificate() && c.io.hsBuf != [] && c.io.hsBuf[0] == CertificateRequest
    case ReadServerHelloDone => c.io.hsBuf != []
    case SendClientCertificate => c.agreed.certRequest
    case SendClientKeyExchange => true
    case SendClientCertificateVerify => c.agreed.certRequest && c.config.hasCertificate
    case SendClientFinished => true
    case FinishFlight => !c.agreed.resumed
    case ReadSessionTicket => c.agreed.ticketExpected && c.io.hsBuf != []
    case ProcessChangeCipherSpec => true
    case ReadServerFinished => c.io.hsBuf != []
    case FinishClientHandshake => true
    case _ => false
  }

  /** What a client cannot accept: a message out of place, or data left over when the read keys change. */
  predicate Rejects(c: Client) {
    var here := c.io.hsBuf != [];
    match c.state
    case ReadServerHelloState =>
      here && (c.io.hsBuf[0].ServerHello? ==>
                 var h := c.io.hsBuf[0].hello;
                 !h.tls13 && h.status && !h.kind.Rsa? && !h.kind.Ecdhe?)
    case ReadServerCertificate => (c.agreed.kind.Rsa? || c.agreed.kind.Ecdhe?) && here && c.io.hsBuf[0] != Certificate(true)
    case ReadServerKeyExchange =>
      here && if c.io.hsBuf[0] == ServerKeyExchange then c.agreed.kind.Rsa? else c.agreed.kind.Ecdhe? || c.agreed.kind.EcdhePsk?
    case ReadCertificateRequest =>
      (c.agreed.kind.Rsa? || c.agreed.kind.Ecdhe?) && here && c.io.hsBuf[0] != CertificateRequest && c.io.hsBuf[0] != ServerHelloDone
    case ReadServerHelloDone => here && c.io.hsBuf[0] != ServerHelloDone
    case ReadSessionTicket => c.agreed.ticketExpected && here && !c.io.hsBuf[0].NewSessionTicket?
    case ProcessChangeCipherSpec => here
    case ReadServerFinished => here && c.io.hsBuf[0] != Finished(true, c.io.transcript)
    case _ => false
  }

  /** With oracles that say yes, a step is an error exactly for such a reason: an optional message may be missing. */
  lemma ErrorsExactly(c: Client)
    ensures Step(c, Succeed).0 == Error <==> Rejects(c)
    ensures c.state == EnterEarlyData ==>
              Step(c, Succeed).1.state == if c.config.isDtls then ReadHelloVerifyRequest else ReadServerHelloState
  {
    hide Sound, Moves;
  }

  /** The server's certificate is accepted only by an oracle that says so. */
  lemma AcceptedByOracle(c: Client, v: Verdict)
    ensures Step(c, v).1.io.tally.peerAccepted && !c.io.tally.peerAccepted ==> c.state == VerifyServerCertificate && v == Succeed
  {
    hide Sound, Moves;
  }

  /** Which callback a step that is to be repeated waits for, and when a handshake returns early. */
  lemma Returns(c: Client, v: Verdict)
    ensures var w := Step(c, v).0;
            && (w == X509Lookup <==> v == Retry && c.state == SendClientCertificate && c.agreed.certRequest)
            && (w == PrivateKeyOperation <==>
                  v == Retry && c.state == SendClientCertificateVerify && c.agreed.certRequest && c.config.hasCertificate)
            && (w == ChannelIdLookup <==> v == Retry && c.state == SendClientFinished && c.agreed.channelId)
            && (w == CertificateVerification <==> v == Retry && c.state == VerifyServerCertificate && c.agreed.kind.UsesCertificate())
            && (w == EarlyReturn <==> v != Fail && c.state == FinishFlight && !c.agreed.resumed && c.config.falseStart)
            && w != CertificateSelectionPending && w != PendingSession
  {
    hide Sound, Moves;
  }

  /** A handshake becomes one of TLS 1.3 exactly by such a ServerHello, which is left for it to read. */
  lemma HandsOver(c: Client, v: Verdict)
    requires c.state != Tls13
    ensures var r := Step(c, v);
            r.1.state == Tls13
            <==> c.state == ReadServerHelloState && v != Fail && c.io.hsBuf != [] && c.io.hsBuf[0].ServerHello? && c.io.hsBuf[0].hello.tls13
    ensures Step(c, v).1.state == Tls13 ==> Step(c, v).1.io == c.io
  {
    hide Sound, Moves;
  }
}
