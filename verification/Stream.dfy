/** One direction of a connection, end to end: frames given to `ChatSession.SendData`, partial writes, bytes in
    flight, arrivals cut anywhere, and the client's decoder.  The classes `ChatSession` and `TcpManager` are proved
    to move by `PumpSend`, `PumpDone` and `Receive`; here those steps are interleaved freely. */
module Streams {
  import opened Wire
  import opened Seqs
  import opened ChatSessions
  import opened TcpManagers

  datatype Link = Link(sent: seq<Frame>, pump: Pump, transit: seq<byte>, client: Client)

  datatype Event =
    | Send(f: Frame)          // SendData on the server
    | WriteDone(n: nat)       // the outstanding write completes after n bytes
    | Arrive(n: nat)          // the client reads n of the bytes in flight and decodes

  const NEW_LINK: Link := Link([], IDLE_PUMP, [], NEW_CLIENT)

  predicate Enabled(l: Link, e: Event)
  {
    match e
    case Send(_) => true
    case WriteDone(n) => l.pump.writes != [] && n <= |l.pump.writes[0]| && n <= |l.pump.queue|
    case Arrive(n) => n <= |l.transit|
  }

  function Next(l: Link, e: Event): (r: Link)
    requires Enabled(l, e)
  {
    match e
    case Send(f) => l.(sent := l.sent + [f], pump := PumpSend(l.pump, f))
    case WriteDone(n) => l.(pump := PumpDone(l.pump, n), transit := l.transit + l.pump.writes[0][..n])
    case Arrive(n) => l.(transit := l.transit[n..], client := Receive(l.client, l.transit[..n]))
  }

  predicate Run(l: Link, events: seq<Event>)
    decreases |events|
  {
    events == [] || (Enabled(l, events[0]) && Run(Next(l, events[0]), events[1..]))
  }

  function After(l: Link, events: seq<Event>): (r: Link)
    requires Run(l, events)
    decreases |events|
  {
    if events == [] then l else After(Next(l, events[0]), events[1..])
  }

  /** Bytes handed over so far and not yet handled, seen from the client back to the server. */
  function Backlog(l: Link): (s: seq<byte>)
  {
    l.client.pending + l.transit + l.pump.queue
  }

  /** Kept by every step, whatever the body sizes: no byte is lost, duplicated or reordered, the client has decoded
      all it could, and writes are issued one at a time. */
  ghost predicate Inv(l: Link)
  {
    && EncodeAll(l.sent) == EncodeAll(l.client.handled) + Backlog(l)
    && Parse(l.client.pending) == Parsed([], l.client.pending)
    && Fits(l.client.handled)
    && l.pump.Ok()
  }

  lemma NextKeepsInv(l: Link, e: Event)
    requires Inv(l) && Enabled(l, e)
    ensures Inv(Next(l, e))
  {
    match e
    case Send(f) => SendKeepsInv(l, f);
    case WriteDone(n) => WriteDoneKeepsInv(l, n);
    case Arrive(n) => ArriveKeepsInv(l, n);
  }

  lemma SendKeepsInv(l: Link, f: Frame)
    requires Inv(l)
    ensures Inv(Next(l, Send(f)))
  {
    PumpSendKeeps(l.pump, f);
    var behind := l.client.pending + l.transit;
    SentGrows(l.sent, f, EncodeAll(l.client.handled), Backlog(l));
    Assoc(behind, l.pump.queue, EncodeFrame(f));
  }

  lemma WriteDoneKeepsInv(l: Link, n: nat)
    requires Inv(l) && Enabled(l, WriteDone(n))
    ensures Inv(Next(l, WriteDone(n)))
  {
    PumpDoneKeeps(l.pump, n);
    var out := l.pump.writes[0][..n];
    SplitDelivery(l.client.pending + l.transit, l.pump.queue, l.pump.writes[0], n);
    Assoc(l.client.pending, l.transit, out);
  }

  lemma ArriveKeepsInv(l: Link, n: nat)
    requires Inv(l) && Enabled(l, Arrive(n))
    ensures Inv(Next(l, Arrive(n)))
  {
    var chunk, later := l.transit[..n], l.transit[n..];
    var got := l.client.pending + chunk;
    var p := Parse(got);
    ParseSound(got);
    EncodeAllConcat(l.client.handled, p.frames);
    Split(l.transit, n);
    Assoc(l.client.pending, chunk, later);
    Assoc(got, later, l.pump.queue);
    Assoc(EncodeAll(p.frames), p.rest, later + l.pump.queue);
    Assoc(p.rest, later, l.pump.queue);
    Assoc(EncodeAll(l.client.handled), EncodeAll(p.frames), p.rest + later + l.pump.queue);
    FitsConcat(l.client.handled, p.frames);
  }

  lemma FitsConcat(fs: seq<Frame>, gs: seq<Frame>)
    requires Fits(fs) && Fits(gs)
    ensures Fits(fs + gs)
  {
  }

  lemma {:induction false} RunKeepsInv(l: Link, events: seq<Event>)
    requires Inv(l) && Run(l, events)
    ensures Inv(After(l, events))
    decreases |events|
  {
    if events == [] {
    } else {
      NextKeepsInv(l, events[0]);
      RunKeepsInv(Next(l, events[0]), events[1..]);
    }
  }

  /** In every reachable state, whatever the body sizes, the bytes of all frames sent are those of the frames handled
      and then the backlog, and the pump has a write outstanding exactly while bytes are buffered. */
  lemma NoByteLost(events: seq<Event>)
    requires Run(NEW_LINK, events)
    ensures var l := After(NEW_LINK, events);
            && EncodeAll(l.sent) == EncodeAll(l.client.handled) + Backlog(l)
            && Parse(l.client.pending).frames == []
            && (l.pump.sending <==> l.pump.queue != []) && (l.pump.sending <==> |l.pump.writes| == 1)
  {
    RunKeepsInv(NEW_LINK, events);
  }

  /** In every reachable state the frames handled are a prefix of the frames sent, and the encoding of the others is
      exactly what the client holds undecoded, then what is in flight, then what is still buffered. */
  lemma EndToEnd(events: seq<Event>)
    requires Run(NEW_LINK, events) && Fits(After(NEW_LINK, events).sent)
    ensures var l := After(NEW_LINK, events);
            && l.client.handled <= l.sent
            && EncodeAll(l.sent[|l.client.handled|..]) == Backlog(l)
  {
    RunKeepsInv(NEW_LINK, events);
    var l := After(NEW_LINK, events);
    HandledIsPrefix(l.sent, l.client.handled, Backlog(l));
  }

  lemma HandledIsPrefix(sent: seq<Frame>, handled: seq<Frame>, rest: seq<byte>)
    requires Fits(sent) && Fits(handled) && EncodeAll(sent) == EncodeAll(handled) + rest
    ensures handled <= sent && EncodeAll(sent[|handled|..]) == rest
  {
    RoundTrip(sent);
    ParseEncoded(handled, rest);
    var todo := Parse(rest).frames;
    assert sent[|handled|..] == todo;
    EncodeAllConcat(handled, todo);
    DropCommonPrefix(EncodeAll(handled), EncodeAll(todo), rest);
  }

  /** Once nothing is buffered or in flight, the client has handled exactly what was sent, with nothing left over,
      if and only if every body fitted the 16-bit length field. */
  lemma QuiescentIff(events: seq<Event>)
    requires Run(NEW_LINK, events)
    requires var l := After(NEW_LINK, events); l.transit == [] && l.pump.queue == []
    ensures var l := After(NEW_LINK, events);
            l.client == Client([], l.sent) <==> Fits(l.sent)
  {
    RunKeepsInv(NEW_LINK, events);
    var l := After(NEW_LINK, events);
    if Fits(l.sent) {
      HandledIsPrefix(l.sent, l.client.handled, Backlog(l));
      var todo := l.sent[|l.client.handled|..];
      assert Backlog(l) == l.client.pending;
      assert Fits(todo) by {
        forall f | f in todo ensures f in l.sent { }
      }
      RoundTrip(todo);
      assert l.sent == l.client.handled + todo;
    }
  }

  // ----- the write pump on its own -----

  /** Completions of `done` bytes each, one after the other, with nothing new sent. */
  predicate Draining(p: Pump, done: seq<nat>)
    decreases |done|
  {
    done == [] || (p.writes != [] && 0 < done[0] <= |p.writes[0]| && done[0] <= |p.queue|
                   && Draining(PumpDone(p, done[0]), done[1..]))
  }

  function Drain(p: Pump, done: seq<nat>): (r: Pump)
    requires Draining(p, done)
    decreases |done|
  {
    if done == [] then p else Drain(PumpDone(p, done[0]), done[1..])
  }

  function Sum(ns: seq<nat>): (total: nat)
  {
    if ns == [] then 0 else ns[0] + Sum(ns[1..])
  }

  /** Without new sends every positive completion shortens the backlog by what it wrote; the pump can go on exactly
      while bytes remain, and stops, not sending, exactly when all are written, so after at most as many completions
      as there were bytes. */
  lemma {:induction false} PumpDrains(p: Pump, done: seq<nat>)
    requires p.Ok() && Draining(p, done)
    ensures var r := Drain(p, done);
            && r.Ok()
            && |done| <= Sum(done) <= |p.queue| && r.queue == p.queue[Sum(done)..]
            && (Sum(done) < |p.queue| <==> r.sending)
            && (r.sending <==> Draining(r, [1]))
    decreases |done|
  {
    if done == [] {
    } else {
      PumpDoneKeeps(p, done[0]);
      PumpDrains(PumpDone(p, done[0]), done[1..]);
    }
  }

  // ----- the two decoders against each other, and the client-to-server direction -----

  /** If no request is refused, the session hands on the frames the client would handle on the same stream,
      however each side's stream is cut. */
  lemma DecodersAgree(cut1: seq<seq<byte>>, cut2: seq<seq<byte>>, ok: Verdict)
    requires Flatten(cut1) == Flatten(cut2)
    ensures var server := ReadAll(NEW_READER, cut1, ok);
            var client := ReceiveAll(NEW_CLIENT, cut2);
            if AllAccepted(client.handled, 0, ok)
            then server.open && server.dispatched == client.handled && server.pending == client.pending
            else !server.open && server.dispatched == UpToRefusal(client.handled, 0, ok)
  {
    ChatSessions.ChunkingIndependence(cut1, ok);
    TcpManagers.ChunkingIndependence(cut2);
    AllAcceptedUncut(Parse(Flatten(cut1)).frames, 0, ok);
  }

  /** Requests written by the client reach the request handler in order and none twice: after any part of the stream
      has arrived in any cut, those dispatched are a prefix of those sent. */
  lemma RequestsReachServer(requests: seq<Frame>, cut: seq<seq<byte>>, later: seq<byte>, ok: Verdict)
    requires Fits(requests) && EncodeAll(requests) == Flatten(cut) + later
    ensures var server := ReadAll(NEW_READER, cut, ok);
            && server.dispatched <= requests
            && (later == [] ==> server.dispatched == UpToRefusal(requests, 0, ok))
  {
    ChatSessions.ChunkingIndependence(cut, ok);
    PrefixOfEncoding(requests, Flatten(cut), later);
    if later == [] {
      assert Flatten(cut) + [] == Flatten(cut);
      RoundTrip(requests);
    }
  }
}
