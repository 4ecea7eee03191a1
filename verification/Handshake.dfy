/** What the TLS 1.0 to 1.2 client and server handshakes share: messages as tokens, the handshake
    buffers, and the reasons a handshake pauses (section 7.3 of RFC 5246). */
module Handshake {

  /** Key exchange and authentication of a cipher suite. */
  datatype CipherKind = Rsa | Ecdhe | Psk | EcdhePsk
  {
    /** ssl_cipher_uses_certificate_auth. */
    predicate UsesCertificate() {
      Rsa? || Ecdhe?
    }

    /** ssl_cipher_requires_server_key_exchange. */
    predicate RequiresServerKeyExchange() {
      Ecdhe? || EcdhePsk?
    }
  }

  /** What a ServerHello settles. */
  datatype Hello = Hello(tls13: bool, resumes: bool, kind: CipherKind, status: bool, ticket: bool, npn: bool, channelId: bool)

  /** Handshake messages. Finished and CertificateVerify are computed from the sender's transcript. */
  datatype Msg =
    | HelloVerifyRequest
    | ClientHello(cookie: bool, session: bool)
    | ServerHello(hello: Hello)
    | Certificate(nonEmpty: bool)
    | CertificateStatus
    | ServerKeyExchange
    | CertificateRequest
    | ServerHelloDone
    | ClientKeyExchange
    | CertificateVerify(signed: seq<Msg>)
    | NextProto
    | ChannelId
    | NewSessionTicket(empty: bool)
    | Finished(fromServer: bool, mac: seq<Msg>)
    | OtherMessage

  /** A record on the wire: the messages that end in it, protected under its sender's write epoch. */
  datatype Record = Hs(msgs: seq<Msg>, epoch: nat) | Ccs

  /** enum ssl_hs_wait_t, as far as it concerns these versions. */
  datatype Wait =
    | Ok | Error | Flush | ReadMessage | ReadServerHello | ReadChangeCipherSpec | EarlyReturn
    | CertificateSelectionPending | X509Lookup | ChannelIdLookup | PrivateKeyOperation | PendingSession
    | CertificateVerification | Tls13Handshake

  /** What parsing, cryptography and callbacks say in one step. */
  datatype Verdict = Succeed | Retry | Fail

  /** Key epochs, and a count of what has happened. */
  datatype Tally = Tally(readEpoch: nat, writeEpoch: nat, ccsReceived: nat, ccsSent: nat,
                         finishedSent: nat, finishedVerified: nat, peerAccepted: bool, signatureChecked: bool)

  /** The messages received and not consumed, the flight not flushed, and the transcript. */
  datatype Io = Io(hsBuf: seq<Msg>, flight: seq<Record>, transcript: seq<Msg>, tally: Tally)

  const NEW_IO := Io([], [], [], Tally(0, 0, 0, 0, 0, 0, false, false))

  /** init_message ... add_message: the message joins the flight and the transcript. */
  function Send(io: Io, m: Msg): Io {
    io.(flight := io.flight + [Hs([m], io.tally.writeEpoch)], transcript := io.transcript + [m])
  }

  /** add_change_cipher_spec and tls1_change_cipher_state(seal). */
  function ChangeWriteCipher(io: Io): Io {
    io.(flight := io.flight + [Ccs],
        tally := io.tally.(writeEpoch := io.tally.writeEpoch + 1, ccsSent := io.tally.ccsSent + 1))
  }

  /** ssl_hash_message and next_message. */
  function Consume(io: Io): Io
    requires |io.hsBuf| > 0
  {
    io.(hsBuf := io.hsBuf[1..], transcript := io.transcript + [io.hsBuf[0]])
  }

  function SendFinished(io: Io, fromServer: bool): Io {
    Send(io, Finished(fromServer, io.transcript)).(tally := io.tally.(finishedSent := io.tally.finishedSent + 1))
  }

  /** ssl_get_finished: the peer's MAC must match this side's transcript. */
  function GetFinished(io: Io, fromServer: bool, v: Verdict): (Wait, Io) {
    if io.hsBuf == [] then (ReadMessage, io)
    else if !io.hsBuf[0].Finished? || v == Fail then (Error, io)
    else if io.hsBuf[0] != Finished(fromServer, io.transcript) then (Error, io)
    else (Ok, Consume(io).(tally := io.tally.(finishedVerified := io.tally.finishedVerified + 1)))
  }

  /** The read cases of ssl_run_handshake: what the next record means to a side that waits for one.
      A failed read is final, because it shuts the read half down. */
  function Deliver(io: Io, wait: Wait, record: Record): (r: (Wait, Io))
    ensures r.0 == Ok || r.0 == Error
    ensures r.0 == Ok <==> match record
                           case Ccs => wait == ReadChangeCipherSpec
                           case Hs(_, epoch) => wait != ReadChangeCipherSpec && epoch == io.tally.readEpoch
    ensures r.0 == Error ==> r.1 == io
    ensures r.1.hsBuf == io.hsBuf + if r.0 == Ok && record.Hs? then record.msgs else []
  {
    match record
    case Ccs =>
      if wait == ReadChangeCipherSpec then (Ok, io.(tally := io.tally.(ccsReceived := io.tally.ccsReceived + 1))) else (Error, io)
    case Hs(msgs, epoch) =>
      // A record under other keys does not authenticate.
      if wait == ReadChangeCipherSpec || epoch != io.tally.readEpoch then (Error, io)
      else (Ok, io.(hsBuf := io.hsBuf + msgs))
  }

  predicate WaitsToRead(w: Wait) {
    w == ReadMessage || w == ReadServerHello || w == ReadChangeCipherSpec
  }

  /** ssl_run_handshake returns to the caller with the wait cleared; the next call enters the machine. */
  predicate ReturnsToCaller(w: Wait) {
    w == EarlyReturn || w == CertificateSelectionPending || w == X509Lookup || w == ChannelIdLookup
    || w == PrivateKeyOperation || w == PendingSession || w == CertificateVerification
  }

  /** Orders the waits of one rank in the loop of ssl_run_handshake. */
  function Phase(w: Wait): nat {
    if w == Ok then 3 else if w == Flush then 2 else if WaitsToRead(w) then 0 else 1
  }

  function One(b: bool): nat {
    if b then 1 else 0
  }

  /** What is left of the input after some records have been read. */
  ghost predicate Remains(rest: seq<Record>, input: seq<Record>) {
    |rest| <= |input| && rest == input[|input| - |rest|..]
  }

  lemma StartRemains(input: seq<Record>)
    ensures Remains(input, input)
  {}

  lemma OneLessRemains(rest: seq<Record>, next: seq<Record>, input: seq<Record>)
    requires Remains(rest, input) && (next == rest || (rest != [] && next == rest[1..]))
    ensures Remains(next, input) && |next| <= |rest| && (|next| == |rest| ==> next == rest)
  {}

  // ---------- Transcripts ----------

  function When(b: bool, m: Msg): seq<Msg> {
    if b then [m] else []
  }

  /** Message k of a transcript is a Finished or CertificateVerify over exactly the messages before it. */
  ghost predicate ClosesAt(t: seq<Msg>, fromServer: bool, k: nat) {
    k < |t| && t[k] == Finished(fromServer, t[..k])
  }

  ghost predicate ProvesAt(t: seq<Msg>, k: nat) {
    k < |t| && t[k] == CertificateVerify(t[..k])
  }

  /** The end of a transcript that goes on. */
  lemma Closing(a: seq<Msg>, m: Msg, rest: seq<Msg>)
    ensures var t := (a + [m]) + rest;
            |a| < |t| && t[|a|] == m && t[..|a|] == a
  {}

  lemma ClosesHere(fromServer: bool, a: seq<Msg>, rest: seq<Msg>)
    ensures ClosesAt((a + [Finished(fromServer, a)]) + rest, fromServer, |a|)
  {
    Closing(a, Finished(fromServer, a), rest);
  }
}
