/** The one message order that a client and a server with agreed parameters follow, as a list of
    twenty slots. Each slot has a fixed author and is present or absent depending on the parameters;
    on resumption the server's closing messages come before the client's (section 7.3 of RFC 5246). */
module HandshakeScript {
  import opened Handshake

  /** The outcome of the negotiation. */
  datatype Params = Params(
    kind: CipherKind, resumed: bool, offersSession: bool, status: bool, serverParams: bool, certRequest: bool,
    clientCert: bool, ticket: bool, npn: bool, channelId: bool)

  const SLOTS := 20
  const CLIENT_CCS := 13

  function ServerCcs(p: Params): nat {
    if p.resumed then 3 else 18
  }

  predicate FromServer(k: nat) {
    1 <= k <= 9 || k >= 17
  }

  predicate IsCcs(k: nat) {
    k == 3 || k == 13 || k == 18
  }

  predicate Present(p: Params, k: nat) {
    if k >= SLOTS then false
    else if 2 <= k <= 4 then p.resumed && (k == 2 ==> p.ticket)
    else if 5 <= k <= 12 || k >= 17 then
      && !p.resumed
      && (k == 5 ==> p.kind.UsesCertificate())
      && (k == 6 ==> p.status)
      && (k == 7 ==> p.serverParams)
      && (k == 8 || k == 10 ==> p.certRequest)
      && (k == 12 ==> p.certRequest && p.clientCert)
      && (k == 17 ==> p.ticket)
    else (k == 14 ==> p.npn) && (k == 15 ==> p.channelId)
  }

  /** The handshake message in a slot. Finished and CertificateVerify depend on all that came before. */
  function MsgAt(p: Params, k: nat): Msg
    decreases k, 1
  {
    match k
    case 0 => ClientHello(false, p.offersSession)
    case 1 => ServerHello(Hello(false, p.resumed, p.kind, p.status, p.ticket, p.npn, p.channelId))
    case 2 => NewSessionTicket(false)
    case 4 => Finished(true, Transcript(p, k))
    case 5 => Certificate(true)
    case 6 => CertificateStatus
    case 7 => ServerKeyExchange
    case 8 => CertificateRequest
    case 9 => ServerHelloDone
    case 10 => Certificate(p.clientCert)
    case 11 => ClientKeyExchange
    case 12 => CertificateVerify(Transcript(p, k))
    case 14 => NextProto
    case 15 => ChannelId
    case 16 => Finished(false, Transcript(p, k))
    case 17 => NewSessionTicket(false)
    case 19 => Finished(true, Transcript(p, k))
    case _ => OtherMessage
  }

  /** The handshake messages of the slots before k. */
  function Transcript(p: Params, k: nat): seq<Msg>
    decreases k, 0
  {
    if k == 0 then []
    else if Present(p, k - 1) && !IsCcs(k - 1) then Transcript(p, k - 1) + [MsgAt(p, k - 1)]
    else Transcript(p, k - 1)
  }

  /** The write epoch of a slot's author. */
  function EpochAt(p: Params, k: nat): nat {
    One(k > (if FromServer(k) then ServerCcs(p) else CLIENT_CCS))
  }

  function RecordAt(p: Params, k: nat): Record {
    if IsCcs(k) then Ccs else Hs([MsgAt(p, k)], EpochAt(p, k))
  }

  /** The records one author sends in the slots from lo up to hi. */
  function Between(p: Params, server: bool, lo: nat, hi: nat): seq<Record>
    decreases hi
  {
    if lo >= hi then []
    else Between(p, server, lo, hi - 1)
         + (if Present(p, hi - 1) && FromServer(hi - 1) == server then [RecordAt(p, hi - 1)] else [])
  }

  lemma {:induction false} BetweenSplit(p: Params, server: bool, lo: nat, mid: nat, hi: nat)
    requires lo <= mid <= hi
    ensures Between(p, server, lo, hi) == Between(p, server, lo, mid) + Between(p, server, mid, hi)
    decreases hi
  {
    hide Present, FromServer, RecordAt;
    if mid < hi {
      BetweenSplit(p, server, lo, mid, hi - 1);
    }
  }

  /** Nothing is there exactly when no slot of the author's is present. */
  lemma {:induction false} BetweenEmpty(p: Params, server: bool, lo: nat, hi: nat)
    ensures Between(p, server, lo, hi) == [] <==>
            forall k: nat :: lo <= k < hi && FromServer(k) == server ==> !Present(p, k)
    decreases hi
  {
    if lo < hi {
      BetweenEmpty(p, server, lo, hi - 1);
      assert FromServer(hi - 1) == server && Present(p, hi - 1) ==> Between(p, server, lo, hi) != [];
    }
  }

  /** The author's only present slot there is k. */
  lemma BetweenOne(p: Params, server: bool, lo: nat, k: nat, hi: nat)
    requires lo <= k < hi && Present(p, k) && FromServer(k) == server
    requires forall j: nat :: lo <= j < hi && FromServer(j) == server && j != k ==> !Present(p, j)
    ensures Between(p, server, lo, hi) == [RecordAt(p, k)]
  {
    hide Present, FromServer, RecordAt;
    assert Between(p, server, k, k + 1) == [RecordAt(p, k)] by {
      assert Between(p, server, k, k) == [];
    }
    hide Between;
    BetweenSplit(p, server, lo, k, hi);
    BetweenSplit(p, server, k, k + 1, hi);
    BetweenEmpty(p, server, lo, k);
    BetweenEmpty(p, server, k + 1, hi);
  }

  /** No handshake message between lo and hi. */
  lemma {:induction false} TranscriptSkips(p: Params, lo: nat, hi: nat)
    requires lo <= hi
    requires forall k: nat :: lo <= k < hi && !IsCcs(k) ==> !Present(p, k)
    ensures Transcript(p, hi) == Transcript(p, lo)
    decreases hi
  {
    if lo < hi {
      TranscriptSkips(p, lo, hi - 1);
    }
  }

  /** The only handshake message between lo and hi is at k. */
  lemma TranscriptOne(p: Params, lo: nat, k: nat, hi: nat)
    requires lo <= k < hi && Present(p, k) && !IsCcs(k)
    requires forall j: nat :: lo <= j < hi && !IsCcs(j) && j != k ==> !Present(p, j)
    ensures Transcript(p, hi) == Transcript(p, lo) + [MsgAt(p, k)]
  {
    TranscriptSkips(p, lo, k);
    TranscriptSkips(p, k + 1, hi);
  }

  // ---------- What it is for a step to follow the script ----------

  /** What negotiation can produce. */
  ghost predicate WellFormed(p: Params) {
    && (p.resumed ==> p.offersSession && !p.certRequest && !p.status)
    && (p.status || p.certRequest ==> p.kind.UsesCertificate())
    && (p.kind.RequiresServerKeyExchange() ==> p.serverParams)
    && (p.kind == Rsa ==> !p.serverParams)
  }

  /** A side moves from position a to b: it adds its own slots there to its flight, and takes the
      peer's slot there, if there is one, from its buffer. */
  ghost predicate Follows(p: Params, server: bool, a: nat, b: nat, before: Io, after: Io) {
    && a <= b
    && after.flight == before.flight + Between(p, server, a, b)
    && after.transcript == Transcript(p, b)
    && if after.hsBuf == before.hsBuf then
         && Between(p, !server, a, b) == []
         && (after.tally.readEpoch == before.tally.readEpoch || before.hsBuf == [])
       else
         && before.hsBuf != [] && after.hsBuf == before.hsBuf[1..]
         && Between(p, !server, a, b) == [Hs([before.hsBuf[0]], before.tally.readEpoch)]
         && after.tally.readEpoch == before.tally.readEpoch
  }

  /** The next message in the buffer is the peer's next slot, k. */
  ghost predicate Fed(p: Params, server: bool, a: nat, io: Io, k: nat) {
    && io.transcript == Transcript(p, a)
    && (io.hsBuf != [] ==>
          && a <= k < SLOTS && Present(p, k) && FromServer(k) != server && !IsCcs(k)
          && io.hsBuf[0] == MsgAt(p, k) && EpochAt(p, k) == io.tally.readEpoch
          && forall j: nat :: a <= j < k && FromServer(j) != server ==> !Present(p, j))
  }

  /** That slot is the first present one from a on, if it is the peer's. */
  lemma FedIs(p: Params, server: bool, a: nat, io: Io, k: nat, at: nat)
    requires Fed(p, server, a, io, k) && io.hsBuf != []
    requires a <= at && Present(p, at) && FromServer(at) != server && forall j: nat :: a <= j < at ==> !Present(p, j)
    ensures k == at && !IsCcs(at) && io.hsBuf[0] == MsgAt(p, at) && EpochAt(p, at) == io.tally.readEpoch
  {
    hide Present, FromServer, MsgAt, EpochAt;
  }

  /** The first slot from a on that is present, for the positions where a side may wait. */
  function Awaited(p: Params, a: nat): nat {
    if Present(p, a) then a else if Present(p, a + 1) then a + 1 else a + 2
  }

  /** The next slot of all is the peer's, and of the sort the side waits for. */
  ghost predicate Awaits(p: Params, server: bool, a: nat, io: Io, wait: Wait) {
    var k := Awaited(p, a);
    && io.hsBuf == [] && io.flight == []
    && Present(p, k) && FromServer(k) != server
    && IsCcs(k) == (wait == ReadChangeCipherSpec)
    && (!IsCcs(k) ==> EpochAt(p, k) == io.tally.readEpoch)
  }

  /** A step over absent slots. */
  lemma FollowsIdle(p: Params, server: bool, a: nat, b: nat, before: Io, after: Io)
    requires a <= b && before.transcript == Transcript(p, a)
    requires forall k: nat :: a <= k < b ==> !Present(p, k)
    requires after == before.(tally := after.tally)
    requires after.tally.readEpoch == before.tally.readEpoch || before.hsBuf == []
    ensures Follows(p, server, a, b, before, after) && after.transcript == Transcript(p, b)
  {
    BetweenEmpty(p, server, a, b);
    BetweenEmpty(p, !server, a, b);
    TranscriptSkips(p, a, b);
  }

  /** A step that takes the message of slot k. */
  lemma FollowsRead(p: Params, server: bool, a: nat, k: nat, b: nat, before: Io, after: Io)
    requires Fed(p, server, a, before, k) && before.hsBuf != [] && k < b
    requires forall j: nat :: a <= j < b && j != k ==> !Present(p, j)
    requires after == Consume(before).(tally := after.tally) && after.tally.readEpoch == before.tally.readEpoch
    ensures Follows(p, server, a, b, before, after) && after.transcript == Transcript(p, b)
  {
    BetweenEmpty(p, server, a, b);
    BetweenOne(p, !server, a, k, b);
    TranscriptOne(p, a, k, b);
  }

  /** A step that sends the message of slot k. */
  lemma FollowsSend(p: Params, server: bool, a: nat, k: nat, b: nat, before: Io, after: Io)
    requires a <= k < b && before.transcript == Transcript(p, a)
    requires Present(p, k) && FromServer(k) == server && !IsCcs(k) && EpochAt(p, k) == before.tally.writeEpoch
    requires forall j: nat :: a <= j < b && j != k ==> !Present(p, j)
    requires after == Send(before, MsgAt(p, k)).(tally := after.tally) && after.tally.readEpoch == before.tally.readEpoch
    ensures Follows(p, server, a, b, before, after) && after.transcript == Transcript(p, b)
  {
    BetweenOne(p, server, a, k, b);
    BetweenEmpty(p, !server, a, b);
    TranscriptOne(p, a, k, b);
  }

  /** A step that sends a ChangeCipherSpec, slot k. */
  lemma FollowsChange(p: Params, server: bool, a: nat, k: nat, b: nat, before: Io, after: Io)
    requires a <= k < b && before.transcript == Transcript(p, a)
    requires Present(p, k) && FromServer(k) == server && IsCcs(k)
    requires forall j: nat :: a <= j < b && j != k ==> !Present(p, j)
    requires after == ChangeWriteCipher(before)
    ensures Follows(p, server, a, b, before, after) && after.transcript == Transcript(p, b)
  {
    BetweenOne(p, server, a, k, b);
    BetweenEmpty(p, !server, a, b);
    TranscriptSkips(p, a, b);
  }

  /** Writing steps compose. */
  lemma FollowsThen(p: Params, server: bool, a: nat, b: nat, c: nat, before: Io, mid: Io, after: Io)
    requires Follows(p, server, a, b, before, mid) && mid.hsBuf == before.hsBuf
    requires Follows(p, server, b, c, mid, after) && after.hsBuf == mid.hsBuf
    ensures Follows(p, server, a, c, before, after) && after.transcript == Transcript(p, c)
  {
    hide Between, Transcript;
    BetweenSplit(p, server, a, b, c);
    BetweenSplit(p, !server, a, b, c);
  }
}
