/** A client and a server with agreed TLS 1.0 to 1.2 parameters, joined by two ordered channels. In
    every interleaving neither fails, they never block each other, and every run ends with both done
    (section 7.3 of RFC 5246). */
module Lockstep {
  import opened Handshake
  import opened HandshakeScript
  import opened HandshakeLink
  import Client = ClientHandshake
  import Server = ServerHandshake
  import ClientOnScript
  import ServerOnScript

  datatype World = World(c: Client.Side, s: Server.Side, toServer: seq<Record>, toClient: seq<Record>)

  /** One side runs its machine, is called again, flushes its flight, or reads the next record. */
  datatype Move = Turn(v: Verdict) | Again | Flushes | Reads
  datatype Act = Act(client: bool, move: Move)

  function Start(cc: Client.Config, sc: Server.Config): World {
    World(Client.Side(Client.New(cc), Ok), Server.Side(Server.New(sc), Ok), [], [])
  }

  /** The move has an effect, and no oracle fails in it. */
  predicate Enabled(wait: Wait, done: bool, incoming: seq<Record>, move: Move) {
    match move
    case Turn(v) => wait == Ok && !done && v != Fail
    case Again => ReturnsToCaller(wait)
    case Flushes => wait == Flush
    case Reads => WaitsToRead(wait) && incoming != []
  }

  predicate CanAct(w: World, a: Act) {
    if a.client then Enabled(w.c.wait, w.c.c.state.Done?, w.toClient, a.move)
    else Enabled(w.s.wait, w.s.s.state.Done?, w.toServer, a.move)
  }

  function ApplyClient(w: World, move: Move): World
    requires CanAct(w, Act(true, move))
  {
    match move
    case Turn(v) => w.(c := Client.Apply(w.c, Client.Advance(v)))
    case Again => w.(c := Client.Apply(w.c, Client.Resume))
    case Flushes => w.(toServer := w.toServer + w.c.c.io.flight, c := Client.Apply(w.c, Client.FlushDone))
    case Reads => w.(toClient := w.toClient[1..], c := Client.Apply(w.c, Client.Receive(w.toClient[0])))
  }

  function ApplyServer(w: World, move: Move): World
    requires CanAct(w, Act(false, move))
  {
    match move
    case Turn(v) => w.(s := Server.Apply(w.s, Server.Advance(v)))
    case Again => w.(s := Server.Apply(w.s, Server.Resume))
    case Flushes => w.(toClient := w.toClient + w.s.s.io.flight, s := Server.Apply(w.s, Server.FlushDone))
    case Reads => w.(toServer := w.toServer[1..], s := Server.Apply(w.s, Server.Receive(w.toServer[0])))
  }

  function Apply(w: World, a: Act): World
    requires CanAct(w, a)
  {
    if a.client then ApplyClient(w, a.move) else ApplyServer(w, a.move)
  }

  /** Any interleaving: acts that are not enabled do nothing. */
  function Run(w: World, acts: seq<Act>): World
    decreases |acts|
  {
    if acts == [] then w
    else Run(if CanAct(w, acts[0]) then Apply(w, acts[0]) else w, acts[1..])
  }

  /** The acts, each of them enabled, lead from w to z. */
  ghost predicate Leads(w: World, acts: seq<Act>, z: World)
    decreases |acts|
  {
    if acts == [] then z == w
    else CanAct(w, acts[0]) && Leads(Apply(w, acts[0]), acts[1..], z)
  }

  // ---------- Agreement ----------

  /** What the two configurations lead to. */
  function Negotiated(cc: Client.Config, sc: Server.Config): Params {
    var resumed := cc.offersSession && sc.findsSession;
    Params(sc.kind, resumed, cc.offersSession, sc.stapling && !resumed && sc.kind.UsesCertificate(),
           Server.NeedsParams(sc),
           !resumed && sc.verifyPeer && !(sc.onlyWithoutChannelId && sc.channelId) && sc.kind.UsesCertificate(),
           cc.hasCertificate, if resumed then sc.renewsTicket else sc.ticketsSupported, sc.npn,
           sc.channelId && (sc.kind.Ecdhe? || sc.kind.EcdhePsk?) && (resumed ==> sc.savedHashes))
  }

  /** The two can serve each other: the same protocol, and certificates where they are demanded. */
  predicate Compatible(cc: Client.Config, sc: Server.Config) {
    var p := Negotiated(cc, sc);
    && !cc.isDtls && !sc.tls13
    && (sc.kind.UsesCertificate() && !p.resumed ==> sc.hasCertificate)
    && (sc.requiresPeer && p.certRequest ==> cc.hasCertificate)
  }

  // ---------- The invariant ----------

  function ClientAt(p: Params, w: World): nat {
    ClientOnScript.Position(p, w.c.c.state, w.c.wait)
  }

  function ServerAt(p: Params, w: World): nat {
    ServerOnScript.Position(p, w.s.s.state, w.s.wait)
  }

  ghost predicate Inv(p: Params, w: World) {
    && ClientOnScript.OnScript(p, w.c)
    && ServerOnScript.OnScript(p, w.s)
    && Link(p, true, ClientAt(p, w), ServerAt(p, w), w.c.c.io, w.toClient, w.s.s.io.flight)
    && Link(p, false, ServerAt(p, w), ClientAt(p, w), w.s.s.io, w.toServer, w.c.c.io.flight)
  }

  lemma StartInv(cc: Client.Config, sc: Server.Config)
    requires Compatible(cc, sc)
    ensures Inv(Negotiated(cc, sc), Start(cc, sc))
  {
    var p := Negotiated(cc, sc);
    NegotiatedFits(cc, sc);
    hide Negotiated, Compatible, WellFormed, ServerOnScript.Fits, ClientOnScript.OnScript, ServerOnScript.OnScript;
    hide Link;
    LinkStarts(p, true, NEW_IO);
    LinkStarts(p, false, NEW_IO);
    ClientStart(p, cc);
    ServerStart(p, sc);
  }

  lemma NegotiatedFits(cc: Client.Config, sc: Server.Config)
    requires Compatible(cc, sc)
    ensures var p := Negotiated(cc, sc);
            && WellFormed(p) && ServerOnScript.Fits(p, sc)
            && p.offersSession == cc.offersSession && p.clientCert == cc.hasCertificate
  {}

  lemma ClientStart(p: Params, cc: Client.Config)
    requires WellFormed(p) && !cc.isDtls && p.offersSession == cc.offersSession && p.clientCert == cc.hasCertificate
    ensures ClientOnScript.OnScript(p, Client.Side(Client.New(cc), Ok))
  {}

  lemma ServerStart(p: Params, sc: Server.Config)
    requires ServerOnScript.Fits(p, sc)
    ensures ServerOnScript.OnScript(p, Server.Side(Server.New(sc), Ok))
  {}

  lemma ClientTurn(p: Params, w: World, v: Verdict)
    requires Inv(p, w) && CanAct(w, Act(true, Turn(v)))
    ensures Inv(p, ApplyClient(w, Turn(v)))
  {
    hide Link, Fed, Client.Step, ClientOnScript.OnScript, ServerOnScript.OnScript, Follows;
    var k := LinkFeedsClient(p, w);
    ClientOnScript.StepOnScript(p, w.c.c, v, k);
    var z := ApplyClient(w, Turn(v));
    LinkReads(p, true, ClientAt(p, w), ClientAt(p, z), ServerAt(p, w), w.c.c.io, z.c.c.io, w.toClient, w.s.s.io.flight);
    LinkWrites(p, false, ServerAt(p, w), ClientAt(p, w), ClientAt(p, z), w.s.s.io, w.toServer, w.c.c.io, z.c.c.io);
  }

  lemma LinkFeedsClient(p: Params, w: World) returns (k: nat)
    requires Inv(p, w)
    ensures Fed(p, false, ClientAt(p, w), w.c.c.io, k)
  {
    hide Link, Fed;
    k := LinkFeeds(p, true, ClientAt(p, w), ServerAt(p, w), w.c.c.io, w.toClient, w.s.s.io.flight);
  }

  lemma ServerTurn(p: Params, w: World, v: Verdict)
    requires Inv(p, w) && CanAct(w, Act(false, Turn(v)))
    ensures Inv(p, ApplyServer(w, Turn(v)))
  {
    hide Link, Fed, Server.Step, ClientOnScript.OnScript, ServerOnScript.OnScript, Follows;
    var k := LinkFeedsServer(p, w);
    ServerOnScript.StepOnScript(p, w.s.s, v, k);
    var z := ApplyServer(w, Turn(v));
    LinkReads(p, false, ServerAt(p, w), ServerAt(p, z), ClientAt(p, w), w.s.s.io, z.s.s.io, w.toServer, w.c.c.io.flight);
    LinkWrites(p, true, ClientAt(p, w), ServerAt(p, w), ServerAt(p, z), w.c.c.io, w.toClient, w.s.s.io, z.s.s.io);
  }

  lemma LinkFeedsServer(p: Params, w: World) returns (k: nat)
    requires Inv(p, w)
    ensures Fed(p, true, ServerAt(p, w), w.s.s.io, k)
  {
    hide Link, Fed;
    k := LinkFeeds(p, false, ServerAt(p, w), ClientAt(p, w), w.s.s.io, w.toServer, w.c.c.io.flight);
  }

  lemma ClientFlushes(p: Params, w: World)
    requires Inv(p, w) && CanAct(w, Act(true, Flushes))
    ensures Inv(p, ApplyClient(w, Flushes))
  {
    hide Between, Wrap, ClientOnScript.OnScript, ClientOnScript.Position, ServerOnScript.OnScript;
    ClientOnScript.Flushed(p, w.c);
    var z := ApplyClient(w, Flushes);
    assert z.c.c.io == w.c.c.io.(flight := []) by {
      assert Client.Apply(w.c, Client.FlushDone) == Client.Side(w.c.c.(io := w.c.c.io.(flight := [])), Ok);
    }
  }

  lemma ClientAgain(p: Params, w: World)
    requires Inv(p, w) && CanAct(w, Act(true, Again))
    ensures Inv(p, ApplyClient(w, Again))
  {
    hide Link, ClientOnScript.OnScript, ClientOnScript.Position, ServerOnScript.OnScript;
    ClientOnScript.Resumed(p, w.c);
    assert Client.Apply(w.c, Client.Resume) == Client.Side(w.c.c, Ok);
  }

  /** What is read is what the client waits for, and does no harm. */
  lemma ClientReads(p: Params, w: World)
    requires Inv(p, w) && CanAct(w, Act(true, Reads))
    ensures Inv(p, ApplyClient(w, Reads))
    ensures ApplyClient(w, Reads).c.wait == Ok
    ensures ApplyClient(w, Reads).c.c.io.hsBuf != [] || w.c.c.state.ProcessChangeCipherSpec?
  {
    hide Link, RecordAt, Awaited, ServerOnScript.OnScript;
    ClientArrival(p, w);
    if w.c.wait == ReadChangeCipherSpec {
      ClientOnScript.ReceivedChange(p, w.c);
    } else {
      ClientOnScript.ReceivedMessage(p, w.c);
    }
    hide ClientOnScript.OnScript, ClientOnScript.Position;
    ClientKeeps(w);
    var z := ApplyClient(w, Reads);
    if w.c.wait == ReadChangeCipherSpec {
      LinkTakesChange(p, true, ClientAt(p, w), ServerAt(p, w), w.c.c.io, z.c.c.io, w.toClient, w.s.s.io.flight);
      LinkIgnoresChange(p, false, ServerAt(p, w), ClientAt(p, w), w.s.s.io, w.toServer, w.c.c.io.flight);
    } else {
      LinkBuffers(p, true, ClientAt(p, w), ServerAt(p, w), w.c.c.io, z.c.c.io, w.toClient, w.s.s.io.flight);
    }
  }

  lemma ClientArrival(p: Params, w: World)
    requires Inv(p, w) && CanAct(w, Act(true, Reads))
    ensures var k := Awaited(p, ClientAt(p, w));
            && w.toClient[0] == RecordAt(p, k) && k < ServerAt(p, w) && Present(p, k) && FromServer(k) == true
    ensures w.c.c.io.hsBuf == []
  {
    hide Link, Transcript, MsgAt, ServerOnScript.OnScript;
    LinkDelivers(p, true, ClientAt(p, w), ServerAt(p, w), w.c.c.io, w.c.wait, w.toClient, w.s.s.io.flight);
  }

  /** Reading a record does not touch the flight, nor the state. */
  lemma ClientKeeps(w: World)
    requires CanAct(w, Act(true, Reads))
    ensures var z := ApplyClient(w, Reads);
            && z.c.c.io.flight == w.c.c.io.flight && z.c.c.io.tally.readEpoch == w.c.c.io.tally.readEpoch
            && z.c.c.state == w.c.c.state
  {}

  lemma ServerFlushes(p: Params, w: World)
    requires Inv(p, w) && CanAct(w, Act(false, Flushes))
    ensures Inv(p, ApplyServer(w, Flushes))
  {
    hide Between, Wrap, ServerOnScript.OnScript, ServerOnScript.Position, ClientOnScript.OnScript;
    ServerOnScript.Flushed(p, w.s);
    var z := ApplyServer(w, Flushes);
    assert z.s.s.io == w.s.s.io.(flight := []) by {
      assert Server.Apply(w.s, Server.FlushDone) == Server.Side(w.s.s.(io := w.s.s.io.(flight := [])), Ok);
    }
  }

  lemma ServerAgain(p: Params, w: World)
    requires Inv(p, w) && CanAct(w, Act(false, Again))
    ensures Inv(p, ApplyServer(w, Again))
  {
    hide Link, ServerOnScript.OnScript, ServerOnScript.Position, ClientOnScript.OnScript;
    ServerOnScript.Resumed(p, w.s);
    assert Server.Apply(w.s, Server.Resume) == Server.Side(w.s.s, Ok);
  }

  /** What is read is what the server waits for, and does no harm. */
  lemma ServerReads(p: Params, w: World)
    requires Inv(p, w) && CanAct(w, Act(false, Reads))
    ensures Inv(p, ApplyServer(w, Reads))
    ensures ApplyServer(w, Reads).s.wait == Ok
    ensures ApplyServer(w, Reads).s.s.io.hsBuf != [] || w.s.s.state.ProcessChangeCipherSpec?
  {
    hide Link, RecordAt, Awaited, ClientOnScript.OnScript;
    ServerArrival(p, w);
    if w.s.wait == ReadChangeCipherSpec {
      ServerOnScript.ReceivedChange(p, w.s);
    } else {
      ServerOnScript.ReceivedMessage(p, w.s);
    }
    hide ServerOnScript.OnScript, ServerOnScript.Position;
    ServerKeeps(w);
    var z := ApplyServer(w, Reads);
    if w.s.wait == ReadChangeCipherSpec {
      LinkTakesChange(p, false, ServerAt(p, w), ClientAt(p, w), w.s.s.io, z.s.s.io, w.toServer, w.c.c.io.flight);
      LinkIgnoresChange(p, true, ClientAt(p, w), ServerAt(p, w), w.c.c.io, w.toClient, w.s.s.io.flight);
    } else {
      LinkBuffers(p, false, ServerAt(p, w), ClientAt(p, w), w.s.s.io, z.s.s.io, w.toServer, w.c.c.io.flight);
    }
  }

  lemma ServerArrival(p: Params, w: World)
    requires Inv(p, w) && CanAct(w, Act(false, Reads))
    ensures var k := Awaited(p, ServerAt(p, w));
            && w.toServer[0] == RecordAt(p, k) && k < ClientAt(p, w) && Present(p, k) && FromServer(k) == false
    ensures w.s.s.io.hsBuf == []
  {
    hide Link, Transcript, MsgAt, ClientOnScript.OnScript;
    LinkDelivers(p, false, ServerAt(p, w), ClientAt(p, w), w.s.s.io, w.s.wait, w.toServer, w.c.c.io.flight);
  }

  /** Reading a record does not touch the flight, nor the state. */
  lemma ServerKeeps(w: World)
    requires CanAct(w, Act(false, Reads))
    ensures var z := ApplyServer(w, Reads);
            && z.s.s.io.flight == w.s.s.io.flight && z.s.s.io.tally.readEpoch == w.s.s.io.tally.readEpoch
            && z.s.s.state == w.s.s.state
  {}

  /** No interleaving leaves the script. */
  lemma ActInv(p: Params, w: World, a: Act)
    requires Inv(p, w) && CanAct(w, a)
    ensures Inv(p, Apply(w, a))
  {
    hide Inv, ApplyClient, ApplyServer;
    match a.move
    case Turn(v) =>
      if a.client {
        ClientTurn(p, w, v);
      } else {
        ServerTurn(p, w, v);
      }
    case Again =>
      if a.client {
        ClientAgain(p, w);
      } else {
        ServerAgain(p, w);
      }
    case Flushes =>
      if a.client {
        ClientFlushes(p, w);
      } else {
        ServerFlushes(p, w);
      }
    case Reads =>
      if a.client {
        ClientReads(p, w);
      } else {
        ServerReads(p, w);
      }
  }

  lemma {:induction false} RunInv(p: Params, w: World, acts: seq<Act>)
    requires Inv(p, w)
    ensures Inv(p, Run(w, acts))
    decreases |acts|
  {
    hide Inv, Apply, CanAct;
    if acts != [] {
      if CanAct(w, acts[0]) {
        ActInv(p, w, acts[0]);
        RunInv(p, Apply(w, acts[0]), acts[1..]);
      } else {
        RunInv(p, w, acts[1..]);
      }
    }
  }

  lemma {:induction false} LeadsIsRun(w: World, acts: seq<Act>, z: World)
    requires Leads(w, acts, z)
    ensures z == Run(w, acts)
    decreases |acts|
  {
    hide Apply, CanAct;
    if acts != [] {
      LeadsIsRun(Apply(w, acts[0]), acts[1..], z);
    }
  }

  // ---------- The main results ----------

  /** In every interleaving, with any delays and retries, of a client and a server that can serve each
      other, neither handshake fails. */
  lemma {:induction false} NeverFails(cc: Client.Config, sc: Server.Config, acts: seq<Act>)
    requires Compatible(cc, sc)
    ensures var w := Run(Start(cc, sc), acts);
            w.c.wait != Error && w.s.wait != Error
  {
    var p, w := Negotiated(cc, sc), Run(Start(cc, sc), acts);
    hide *;
    StartInv(cc, sc);
    RunInv(p, Start(cc, sc), acts);
    ClientNotFailed(p, w);
    ServerNotFailed(p, w);
  }

  /** At every moment of it some side can act, until both are done. */
  lemma {:induction false} NeverStuck(cc: Client.Config, sc: Server.Config, acts: seq<Act>)
    requires Compatible(cc, sc)
    ensures var w := Run(Start(cc, sc), acts);
            (w.c.c.state.Done? && w.s.s.state.Done?) || exists a: Act :: a.move != Turn(Retry) && CanAct(w, a)
  {
    var p, w := Negotiated(cc, sc), Run(Start(cc, sc), acts);
    hide *;
    StartInv(cc, sc);
    RunInv(p, Start(cc, sc), acts);
    SomeoneCanAct(p, w);
  }

  /** What a side can do by itself. */
  function OwnMove(wait: Wait): Move {
    if wait == Ok then Turn(Succeed) else if wait == Flush then Flushes else if WaitsToRead(wait) then Reads else Again
  }

  lemma SomeoneCanAct(p: Params, w: World)
    requires Inv(p, w)
    ensures (w.c.c.state.Done? && w.s.s.state.Done?) || exists a: Act :: a.move != Turn(Retry) && CanAct(w, a)
  {
    var a, b := Act(true, OwnMove(w.c.wait)), Act(false, OwnMove(w.s.wait));
    if !CanAct(w, a) && !CanAct(w, b) {
      ClientBlocked(p, w);
      ServerBlocked(p, w);
      hide Link, Awaits, ClientOnScript.OnScript, ServerOnScript.OnScript;
      if w.c.c.state.Done? {
        if !w.s.s.state.Done? {
          LastFlightIsOnTheWay(p, false, ServerAt(p, w), w.s.s.io, w.s.wait, w.toServer);
        }
      } else if w.s.s.state.Done? {
        LastFlightIsOnTheWay(p, true, ClientAt(p, w), w.c.c.io, w.c.wait, w.toClient);
      } else {
        SomethingIsOnTheWay(p, ClientAt(p, w), ServerAt(p, w), w.c.c.io, w.c.wait, w.s.s.io, w.s.wait, w.toClient, w.toServer);
      }
    }
  }

  /** A client that cannot move is done, or waits for a record that has not been written. */
  lemma ClientBlocked(p: Params, w: World)
    requires Inv(p, w) && !CanAct(w, Act(true, OwnMove(w.c.wait)))
    ensures w.c.c.io.flight == []
    ensures if w.c.c.state.Done? then ClientAt(p, w) == SLOTS
            else WaitsToRead(w.c.wait) && w.toClient == [] && Awaits(p, false, ClientAt(p, w), w.c.c.io, w.c.wait)
  {
    hide Link, Client.Safe, Server.Safe, ServerOnScript.OnScript;
  }

  lemma ServerBlocked(p: Params, w: World)
    requires Inv(p, w) && !CanAct(w, Act(false, OwnMove(w.s.wait)))
    ensures w.s.s.io.flight == []
    ensures if w.s.s.state.Done? then ServerAt(p, w) == SLOTS
            else WaitsToRead(w.s.wait) && w.toServer == [] && Awaits(p, true, ServerAt(p, w), w.s.s.io, w.s.wait)
  {
    hide Link, Client.Safe, Server.Safe, ClientOnScript.OnScript;
  }

  /** Sides that are done have each verified the other's Finished, over the same transcript, and agree
      on what was negotiated. */
  lemma {:induction false} DoneMeansAgreed(cc: Client.Config, sc: Server.Config, acts: seq<Act>)
    requires Compatible(cc, sc)
    ensures var w := Run(Start(cc, sc), acts);
            w.c.c.state.Done? && w.s.s.state.Done? ==>
              && w.c.c.io.tally.finishedVerified == 1 && w.s.s.io.tally.finishedVerified == 1
              && w.c.c.io.transcript == w.s.s.io.transcript
              && w.c.c.agreed.kind == w.s.s.config.kind && w.c.c.agreed.resumed == w.s.s.agreed.resumed
              && w.c.c.agreed.certRequest == w.s.s.agreed.certRequest && w.c.c.agreed.channelId == w.s.s.agreed.channelId
              && (w.s.s.agreed.peerCert ==> w.s.s.io.tally.signatureChecked)
              && (w.c.c.agreed.kind.UsesCertificate() && !w.c.c.agreed.resumed ==> w.c.c.io.tally.peerAccepted)
  {
    var p, w := Negotiated(cc, sc), Run(Start(cc, sc), acts);
    hide *;
    StartInv(cc, sc);
    RunInv(p, Start(cc, sc), acts);
    if w.c.c.state.Done? && w.s.s.state.Done? {
      BothDone(p, w);
    }
  }

  lemma BothDone(p: Params, w: World)
    requires Inv(p, w) && w.c.c.state.Done? && w.s.s.state.Done?
    ensures w.c.c.io.tally.finishedVerified == 1 && w.s.s.io.tally.finishedVerified == 1
    ensures w.c.c.io.transcript == w.s.s.io.transcript
    ensures w.c.c.agreed.kind == w.s.s.config.kind && w.c.c.agreed.resumed == w.s.s.agreed.resumed
    ensures w.c.c.agreed.certRequest == w.s.s.agreed.certRequest && w.c.c.agreed.channelId == w.s.s.agreed.channelId
    ensures w.s.s.agreed.peerCert ==> w.s.s.io.tally.signatureChecked
    ensures w.c.c.agreed.kind.UsesCertificate() && !w.c.c.agreed.resumed ==> w.c.c.io.tally.peerAccepted
  {
    hide Link, ClientOnScript.OnScript, ServerOnScript.OnScript;
    ClientDone(p, w.c);
    ServerDone(p, w.s);
  }

  lemma ClientDone(p: Params, d: Client.Side)
    requires ClientOnScript.OnScript(p, d) && d.c.state.Done?
    ensures d.c.io.tally.finishedVerified == 1 && d.c.io.transcript == Transcript(p, SLOTS)
    ensures d.c.agreed.kind == p.kind && d.c.agreed.resumed == p.resumed
    ensures d.c.agreed.certRequest == p.certRequest && d.c.agreed.channelId == p.channelId
    ensures p.kind.UsesCertificate() && !p.resumed ==> d.c.io.tally.peerAccepted
  {
    hide Transcript;
  }

  lemma ServerDone(p: Params, d: Server.Side)
    requires ServerOnScript.OnScript(p, d) && d.s.state.Done?
    ensures d.s.io.tally.finishedVerified == 1 && d.s.io.transcript == Transcript(p, SLOTS)
    ensures d.s.config.kind == p.kind && d.s.agreed.resumed == p.resumed
    ensures d.s.agreed.certRequest == p.certRequest && d.s.agreed.channelId == p.channelId
    ensures d.s.agreed.peerCert ==> d.s.io.tally.signatureChecked
  {
    hide Transcript;
  }

  // ---------- Every run ends ----------

  function Within(wait: Wait, changing: bool, buffered: bool): nat {
    if wait == Ok then (if changing || buffered then 1 else 3)
    else if WaitsToRead(wait) then 2
    else 4
  }

  function ClientMeasure(d: Client.Side): nat {
    5 * Client.Rank(d.c.state, d.c.agreed.resumed)
    + Within(d.wait, d.c.state.ProcessChangeCipherSpec?, d.c.io.hsBuf != [])
  }

  lemma ClientStepLowers(c: Client.Client, r: (Wait, Client.Client))
    requires Client.Sound(c, r) && Client.Moves(c, Succeed, r) && r.0 != Error && r.0 != Tls13Handshake
    ensures ClientMeasure(Client.Side(r.1, r.0)) < ClientMeasure(Client.Side(c, Ok))
  {
    hide Client.Rank, Client.Safe;
  }

  lemma ClientTurnLowers(p: Params, w: World)
    requires Inv(p, w) && CanAct(w, Act(true, Turn(Succeed)))
    ensures ClientMeasure(ApplyClient(w, Turn(Succeed)).c) < ClientMeasure(w.c)
  {
    Client.StepSound(w.c.c, Succeed);
    ClientTurn(p, w, Succeed);
    ClientNotFailed(p, ApplyClient(w, Turn(Succeed)));
    hide Client.Step, Inv, Client.Sound, Client.Moves, ClientMeasure;
    ClientStepLowers(w.c.c, Client.Step(w.c.c, Succeed));
  }

  lemma ClientNotFailed(p: Params, w: World)
    requires Inv(p, w)
    ensures w.c.wait != Error && w.c.wait != Tls13Handshake
  {
    hide Link, Client.Safe, ServerOnScript.OnScript;
  }

  function ServerMeasure(d: Server.Side): nat {
    5 * Server.Rank(d.s.state, d.s.agreed.resumed)
    + Within(d.wait, d.s.state.ProcessChangeCipherSpec?, d.s.io.hsBuf != [])
  }

  lemma ServerStepLowers(s: Server.Server, r: (Wait, Server.Server))
    requires Server.Sound(s, r) && Server.Moves(s, Succeed, r) && r.0 != Error && r.0 != Tls13Handshake
    ensures ServerMeasure(Server.Side(r.1, r.0)) < ServerMeasure(Server.Side(s, Ok))
  {
    hide Server.Rank, Server.Safe;
  }

  lemma ServerTurnLowers(p: Params, w: World)
    requires Inv(p, w) && CanAct(w, Act(false, Turn(Succeed)))
    ensures ServerMeasure(ApplyServer(w, Turn(Succeed)).s) < ServerMeasure(w.s)
  {
    Server.StepSound(w.s.s, Succeed);
    ServerTurn(p, w, Succeed);
    ServerNotFailed(p, ApplyServer(w, Turn(Succeed)));
    hide Server.Step, Inv, Server.Sound, Server.Moves, ServerMeasure;
    ServerStepLowers(w.s.s, Server.Step(w.s.s, Succeed));
  }

  lemma ServerNotFailed(p: Params, w: World)
    requires Inv(p, w)
    ensures w.s.wait != Error && w.s.wait != Tls13Handshake
  {
    hide Link, Server.Safe, ClientOnScript.OnScript;
  }

  /** How much is left to do. */
  function Measure(w: World): nat {
    ClientMeasure(w.c) + ServerMeasure(w.s)
  }

  /** Every act but a callback that is not ready leaves less to do. */
  lemma ActLowers(p: Params, w: World, a: Act)
    requires Inv(p, w) && CanAct(w, a) && a.move != Turn(Retry)
    ensures Measure(Apply(w, a)) < Measure(w)
  {
    hide Client.Step, Server.Step, Client.Rank, Server.Rank, Inv;
    match a.move
    case Turn(v) =>
      if a.client {
        ClientTurnLowers(p, w);
      } else {
        ServerTurnLowers(p, w);
      }
    case Again =>
    case Flushes =>
    case Reads =>
      if a.client {
        ClientReads(p, w);
        ClientStays(w);
      } else {
        ServerReads(p, w);
        ServerStays(w);
      }
  }

  lemma ClientStays(w: World)
    requires CanAct(w, Act(true, Reads))
    ensures var c := ApplyClient(w, Reads).c.c;
            c.state == w.c.c.state && c.agreed == w.c.c.agreed && ApplyClient(w, Reads).s == w.s
  {}

  lemma ServerStays(w: World)
    requires CanAct(w, Act(false, Reads))
    ensures var s := ApplyServer(w, Reads).s.s;
            s.state == w.s.s.state && s.agreed == w.s.s.agreed && ApplyServer(w, Reads).c == w.c
  {}

  /** Every run ends, and it ends with both done: no run is longer than 226 acts plus the retries, and
      one in which nobody can act any more has two sides that are done. */
  lemma {:induction false} EveryRunEnds(p: Params, w: World, acts: seq<Act>, z: World)
    requires Inv(p, w) && Leads(w, acts, z) && forall i :: 0 <= i < |acts| ==> acts[i].move != Turn(Retry)
    ensures |acts| + Measure(z) <= Measure(w)
    decreases |acts|
  {
    hide Inv, Apply, Measure;
    if acts != [] {
      ActInv(p, w, acts[0]);
      ActLowers(p, w, acts[0]);
      EveryRunEnds(p, Apply(w, acts[0]), acts[1..], z);
    }
  }

  lemma {:induction false} BothGetDone(cc: Client.Config, sc: Server.Config, acts: seq<Act>, w: World)
    requires Compatible(cc, sc) && Leads(Start(cc, sc), acts, w)
    requires forall i :: 0 <= i < |acts| ==> acts[i].move != Turn(Retry)
    ensures |acts| <= 226
    ensures (forall a: Act :: a.move != Turn(Retry) ==> !CanAct(w, a)) ==> w.c.c.state.Done? && w.s.s.state.Done?
  {
    StartInv(cc, sc);
    assert Measure(Start(cc, sc)) == 226;
    hide Inv, Measure, Start, Compatible;
    EveryRunEnds(Negotiated(cc, sc), Start(cc, sc), acts, w);
    LeadsIsRun(Start(cc, sc), acts, w);
    NeverStuck(cc, sc, acts);
  }
}
