/** One direction of an ordered channel between two sides that follow the script: what the author has
    written and the reader has not consumed is exactly the author's slots between their positions. */
module HandshakeLink {
  import opened Handshake
  import opened HandshakeScript

  /** The buffered messages as the records they came in. */
  function Wrap(msgs: seq<Msg>, epoch: nat): seq<Record> {
    if msgs == [] then [] else [Hs([msgs[0]], epoch)] + Wrap(msgs[1..], epoch)
  }

  /** The reader is at position `from`, the author at `to`. The reader never passes a slot of the
      author's that the author has not written. */
  ghost predicate Link(p: Params, author: bool, from: nat, to: nat, reader: Io, channel: seq<Record>, flight: seq<Record>) {
    && Wrap(reader.hsBuf, reader.tally.readEpoch) + channel + flight == Between(p, author, from, to)
    && Between(p, author, to, from) == []
  }

  lemma LinkStarts(p: Params, author: bool, reader: Io)
    requires reader.hsBuf == []
    ensures Link(p, author, 0, 0, reader, [], [])
  {}

  lemma LinkWrites(p: Params, author: bool, from: nat, to: nat, next: nat, reader: Io, channel: seq<Record>, before: Io, after: Io)
    requires Link(p, author, from, to, reader, channel, before.flight)
    requires Follows(p, author, to, next, before, after)
    ensures Link(p, author, from, next, reader, channel, after.flight)
  {
    hide Between, Wrap, Transcript;
    var w := Wrap(reader.hsBuf, reader.tally.readEpoch);
    if from <= to {
      BetweenSplit(p, author, from, to, next);
      assert w + channel + after.flight == (w + channel + before.flight) + Between(p, author, to, next);
      Backwards(p, author, next, from);
    } else {
      Backwards(p, author, from, to);
      if from <= next {
        BetweenSplit(p, author, to, from, next);
        Backwards(p, author, next, from);
      } else {
        BetweenSplit(p, author, to, next, from);
        Backwards(p, author, from, next);
      }
    }
  }

  lemma Backwards(p: Params, author: bool, lo: nat, hi: nat)
    requires lo >= hi
    ensures Between(p, author, lo, hi) == []
  {}

  /** The reader moves on, over a message it takes or over absent slots. */
  lemma LinkReads(p: Params, author: bool, from: nat, next: nat, to: nat, before: Io, after: Io, channel: seq<Record>, flight: seq<Record>)
    requires Link(p, author, from, to, before, channel, flight)
    requires Follows(p, !author, from, next, before, after)
    ensures Link(p, author, next, to, after, channel, flight)
  {
    hide Between, Transcript;
    var taken := Between(p, author, from, next);
    var rest := Wrap(after.hsBuf, after.tally.readEpoch) + channel + flight;
    assert Wrap(before.hsBuf, before.tally.readEpoch) + channel + flight == taken + rest;
    LinkSkips(p, author, from, next, to, taken, rest);
  }

  lemma LinkSkips(p: Params, author: bool, from: nat, next: nat, to: nat, taken: seq<Record>, rest: seq<Record>)
    requires from <= next
    requires taken + rest == Between(p, author, from, to) && Between(p, author, to, from) == []
    requires taken == Between(p, author, from, next) && |taken| <= 1
    ensures rest == Between(p, author, next, to) && Between(p, author, to, next) == []
  {
    hide Between, Transcript;
    if next <= to {
      BetweenSplit(p, author, from, next, to);
      assert rest == (taken + rest)[|taken|..];
      assert Between(p, author, next, to) == (taken + Between(p, author, next, to))[|taken|..];
      Backwards(p, author, to, next);
    } else if from <= to {
      BetweenSplit(p, author, from, to, next);
      Backwards(p, author, next, to);
    } else {
      BetweenSplit(p, author, to, from, next);
      Backwards(p, author, from, to);
      Backwards(p, author, next, to);
    }
  }

  /** The first record between two positions is in the first present slot of the author's. */
  lemma {:induction false} FirstSlot(p: Params, author: bool, lo: nat, hi: nat) returns (k: nat)
    requires Between(p, author, lo, hi) != []
    ensures lo <= k < hi && Present(p, k) && FromServer(k) == author && Between(p, author, lo, hi)[0] == RecordAt(p, k)
    ensures forall j: nat :: lo <= j < k && FromServer(j) == author ==> !Present(p, j)
    decreases hi
  {
    hide RecordAt, Present, FromServer;
    if Between(p, author, lo, hi - 1) == [] {
      k := hi - 1;
      BetweenEmpty(p, author, lo, hi - 1);
    } else {
      k := FirstSlot(p, author, lo, hi - 1);
    }
  }

  /** What is in the reader's buffer is its next slot. */
  lemma LinkFeeds(p: Params, author: bool, from: nat, to: nat, reader: Io, channel: seq<Record>, flight: seq<Record>) returns (k: nat)
    requires Link(p, author, from, to, reader, channel, flight) && reader.transcript == Transcript(p, from)
    ensures Fed(p, !author, from, reader, k)
  {
    hide Between, Transcript, MsgAt;
    k := 0;
    if reader.hsBuf != [] {
      assert Between(p, author, from, to)[0] == Hs([reader.hsBuf[0]], reader.tally.readEpoch);
      k := FirstSlot(p, author, from, to);
    }
  }

  /** What arrives at a waiting reader is the slot it awaits. */
  lemma LinkDelivers(p: Params, author: bool, from: nat, to: nat, reader: Io, wait: Wait, channel: seq<Record>, flight: seq<Record>)
    requires Link(p, author, from, to, reader, channel, flight)
    requires Awaits(p, !author, from, reader, wait) && WaitsToRead(wait) && channel != []
    ensures channel[0] == RecordAt(p, Awaited(p, from)) && Awaited(p, from) < to
  {
    hide Between, Transcript, MsgAt, RecordAt, FromServer;
    assert Between(p, author, from, to)[0] == channel[0];
    var k := FirstSlot(p, author, from, to);
  }

  /** The record moves from the channel to the buffer. */
  lemma LinkBuffers(p: Params, author: bool, from: nat, to: nat, before: Io, after: Io, channel: seq<Record>, flight: seq<Record>)
    requires Link(p, author, from, to, before, channel, flight) && before.hsBuf == [] && channel != []
    requires after.tally.readEpoch == before.tally.readEpoch && |after.hsBuf| == 1
    requires channel[0] == Hs(after.hsBuf, after.tally.readEpoch)
    ensures Link(p, author, from, to, after, channel[1..], flight)
  {
    hide Between;
    assert Wrap(after.hsBuf, after.tally.readEpoch) == [Hs([after.hsBuf[0]], after.tally.readEpoch)] + Wrap(after.hsBuf[1..], after.tally.readEpoch);
    assert after.hsBuf == [after.hsBuf[0]];
    assert channel == [channel[0]] + channel[1..];
  }

  /** The reader moves over the ChangeCipherSpec that it takes from the channel. */
  lemma LinkTakesChange(p: Params, author: bool, from: nat, to: nat, before: Io, after: Io, channel: seq<Record>, flight: seq<Record>)
    requires Link(p, author, from, to, before, channel, flight) && before.hsBuf == after.hsBuf == [] && channel != []
    requires Present(p, from) && FromServer(from) == author && from < to
    ensures Link(p, author, from + 1, to, after, channel[1..], flight)
  {
    hide Between;
    BetweenOne(p, author, from, from, from + 1);
    BetweenSplit(p, author, from, from + 1, to);
    Backwards(p, author, to, from + 1);
    var all := Between(p, author, from, to);
    assert channel + flight == all;
    assert all[1..] == channel[1..] + flight;
    assert all[1..] == Between(p, author, from + 1, to);
  }

  /** The author moves over a ChangeCipherSpec of the peer's. */
  lemma LinkIgnoresChange(p: Params, author: bool, from: nat, to: nat, reader: Io, channel: seq<Record>, flight: seq<Record>)
    requires Link(p, author, from, to, reader, channel, flight) && FromServer(to) != author
    ensures Link(p, author, from, to + 1, reader, channel, flight)
  {
    hide Between;
    BetweenEmpty(p, author, to, to + 1);
    if from <= to {
      BetweenSplit(p, author, from, to, to + 1);
      Backwards(p, author, to + 1, from);
    } else {
      BetweenSplit(p, author, to, to + 1, from);
      Backwards(p, author, from, to);
      Backwards(p, author, from, to + 1);
    }
  }

  /** Between sides that have nothing on the way no slot is present. */
  lemma NothingBetween(p: Params, author: bool, from: nat, to: nat, reader: Io)
    requires Link(p, author, from, to, reader, [], []) && reader.hsBuf == []
    ensures forall k: nat :: (from <= k < to || to <= k < from) && FromServer(k) == author ==> !Present(p, k)
  {
    hide Between, Transcript, MsgAt, RecordAt, FromServer, Present;
    BetweenEmpty(p, author, from, to);
    BetweenEmpty(p, author, to, from);
  }

  lemma AwaitedAgree(p: Params, a: nat, b: nat)
    requires Present(p, Awaited(p, a)) && Present(p, Awaited(p, b))
    requires forall k: nat :: a <= k < b || b <= k < a ==> !Present(p, k)
    ensures Awaited(p, a) == Awaited(p, b)
  {
    hide Present;
    assert Awaited(p, a) >= b && Awaited(p, b) >= a;
  }

  /** Two sides never wait for each other with nothing on the way. */
  lemma SomethingIsOnTheWay(p: Params, a: nat, b: nat, client: Io, clientWait: Wait, server: Io, serverWait: Wait,
                            toClient: seq<Record>, toServer: seq<Record>)
    requires Awaits(p, false, a, client, clientWait) && Awaits(p, true, b, server, serverWait)
    requires Link(p, true, a, b, client, toClient, []) && Link(p, false, b, a, server, toServer, [])
    ensures toClient != [] || toServer != []
  {
    hide Link, Between, Transcript, MsgAt, RecordAt, FromServer, Present, Awaited;
    if toClient == [] && toServer == [] {
      NothingBetween(p, true, a, b, client);
      NothingBetween(p, false, b, a, server);
      AwaitedAgree(p, a, b);
      assert false;
    }
  }

  /** Nor does one wait with nothing on the way when the other is at the end. */
  lemma LastFlightIsOnTheWay(p: Params, author: bool, a: nat, reader: Io, wait: Wait, channel: seq<Record>)
    requires Awaits(p, !author, a, reader, wait) && Link(p, author, a, SLOTS, reader, channel, [])
    ensures channel != []
  {
    hide Link, Between, Transcript, MsgAt, RecordAt, FromServer;
    if channel == [] {
      NothingBetween(p, author, a, SLOTS, reader);
      assert false;
    }
  }
}
