/** `ChatSession`: the server's end of one client connection.  It decodes requests incrementally, stops at the
    first request that fails, and sends replies through a buffer drained by at most one outstanding write. */
module ChatSessions {
  import opened Wire
  import opened Seqs
  import opened NetWorkBuffers

  /** The answer of the request handler to the n-th request of a session.  It stands for everything the handler
      consults, so it is arbitrary. */
  type Verdict = nat -> bool

  // ----- specification of the reading side -----

  /** What a session has seen: whether it still reads, the bytes it holds undecoded, the requests it handed on. */
  datatype Reader = Reader(open: bool, pending: seq<byte>, dispatched: seq<Frame>)

  /** `fs`, numbered from `n`, up to and including the first one that is refused. */
  function UpToRefusal(fs: seq<Frame>, n: nat, ok: Verdict): (r: seq<Frame>)
    ensures r <= fs
  {
    if fs == [] then []
    else if ok(n) then [fs[0]] + UpToRefusal(fs[1..], n + 1, ok)
    else [fs[0]]
  }

  predicate AllAccepted(fs: seq<Frame>, n: nat, ok: Verdict)
  {
    forall i :: n <= i < n + |fs| ==> ok(i)
  }

  /** One completed read, stated through the one-shot parser. */
  function ReadStep(r: Reader, chunk: seq<byte>, ok: Verdict): (r': Reader)
  {
    if !r.open then r
    else
      var p := Parse(r.pending + chunk);
      var all := AllAccepted(p.frames, |r.dispatched|, ok);
      Reader(all, if all then p.rest else [], r.dispatched + UpToRefusal(p.frames, |r.dispatched|, ok))
  }

  function ReadAll(r: Reader, chunks: seq<seq<byte>>, ok: Verdict): (r': Reader)
    decreases |chunks|
  {
    if chunks == [] then r else ReadAll(ReadStep(r, chunks[0], ok), chunks[1..], ok)
  }

  const NEW_READER: Reader := Reader(true, [], [])

  // ----- specification of the writing side -----

  /** The write buffer's readable bytes, the asynchronous writes issued and not yet completed, and `be_sending_`. */
  datatype Pump = Pump(queue: seq<byte>, writes: seq<seq<byte>>, sending: bool) {

    /** The single-writer discipline. */
    ghost predicate Ok() {
      && (sending <==> |writes| == 1)
      && (!sending <==> writes == [])
      && (queue != [] <==> sending)
      && (sending ==> writes[0] != [] && writes[0] <= queue)
    }
  }

  const IDLE_PUMP: Pump := Pump([], [], false)

  /** Queue a frame; start a write only if none is outstanding. */
  function PumpSend(p: Pump, f: Frame): (r: Pump)
  {
    var queue := p.queue + EncodeFrame(f);
    Pump(queue, if p.sending then p.writes else p.writes + [queue], true)
  }

  /** The outstanding write completes after `n` bytes; what is left is written next. */
  function PumpDone(p: Pump, n: nat): (r: Pump)
    requires p.writes != [] && n <= |p.queue|
  {
    var queue := p.queue[n..];
    Pump(queue, if queue == [] then p.writes[1..] else p.writes[1..] + [queue], queue != [])
  }

  class ChatSession {
    const ok: Verdict
    var tag: uint16
    var bodySize: uint16
    var headParsed: bool
    const buffer: NetWorkBuffer
    const writeBuffer: NetWorkBuffer
    var beSending: bool
    var isOpen: bool
    var dispatched: seq<Frame>        // requests given to the request handler, oldest first
    var writes: seq<seq<byte>>        // asynchronous writes issued and not completed
    ghost var sent: seq<Frame>        // every frame given to SendData
    ghost var delivered: seq<byte>    // every byte a completed write reported

    ghost predicate Valid()
      reads this`beSending, this`writes, this`sent, this`delivered
      reads buffer, buffer.data, writeBuffer, writeBuffer.data
    {
      && buffer != writeBuffer && buffer.data != writeBuffer.data
      && buffer.Valid()
      && WriterOk()
    }

    ghost predicate WriterOk()
      reads this`beSending, this`writes, this`sent, this`delivered, writeBuffer, writeBuffer.data
    {
      && writeBuffer.Valid()
      && PumpView().Ok()
      && EncodeAll(sent) == delivered + writeBuffer.Readable()
    }

    /** Header bytes already taken off the buffer, then the buffer. */
    ghost function Pending(): (s: seq<byte>)
      reads this`tag, this`bodySize, this`headParsed, buffer, buffer.data
      requires buffer.Valid()
    {
      Undecoded(headParsed, tag, bodySize, buffer.Readable())
    }

    ghost function ReaderView(): (r: Reader)
      reads this`tag, this`bodySize, this`headParsed, this`isOpen, this`dispatched, buffer, buffer.data
      requires buffer.Valid()
    {
      Reader(isOpen, if isOpen then Pending() else [], dispatched)
    }

    ghost function PumpView(): (p: Pump)
      reads this`beSending, this`writes, writeBuffer, writeBuffer.data
      requires writeBuffer.Valid()
    {
      Pump(writeBuffer.Readable(), writes, beSending)
    }

    constructor (ok: Verdict, tmpSize: nat)
      ensures Valid() && this.ok == ok
      ensures fresh(buffer) && fresh(buffer.data) && fresh(writeBuffer) && fresh(writeBuffer.data)
      ensures ReaderView() == NEW_READER && PumpView() == IDLE_PUMP && sent == []
    {
      this.ok := ok;
      tag, bodySize, headParsed := 0, 0, false;
      buffer := new NetWorkBuffer(tmpSize);
      writeBuffer := new NetWorkBuffer(tmpSize);
      beSending, isOpen, dispatched, writes := false, true, [], [];
      sent, delivered := [], [];
    }

    method SendData(id: uint16, data: seq<byte>)
      requires Valid()
      modifies this`beSending, this`writes, this`sent, writeBuffer, writeBuffer.data
      ensures Valid() && (writeBuffer.data == old(writeBuffer.data) || fresh(writeBuffer.data))
      ensures PumpView() == PumpSend(old(PumpView()), Frame(id, data))
      ensures sent == old(sent) + [Frame(id, data)]
      ensures ReaderView() == old(ReaderView())
    {
      PumpSendKeeps(PumpView(), Frame(id, data));
      QueueFrame(id, data);
      if beSending {
        return;
      }
      AsyncWriteSome();
      beSending := true;
    }

    method QueueFrame(id: uint16, data: seq<byte>)
      requires Valid()
      modifies this`sent, writeBuffer, writeBuffer.data
      ensures writeBuffer.Valid() && (writeBuffer.data == old(writeBuffer.data) || fresh(writeBuffer.data))
      ensures buffer.Valid() && buffer.data != writeBuffer.data && ReaderView() == old(ReaderView())
      ensures sent == old(sent) + [Frame(id, data)] && EncodeAll(sent) == delivered + writeBuffer.Readable()
      ensures writeBuffer.Readable() == old(writeBuffer.Readable()) + EncodeFrame(Frame(id, data))
    {
      SentGrows(sent, Frame(id, data), delivered, writeBuffer.Readable());
      sent := sent + [Frame(id, data)];
      PutFrame(writeBuffer, id, data);
    }

    static method PutFrame(b: NetWorkBuffer, id: uint16, data: seq<byte>)
      requires b.Valid()
      modifies b, b.data
      ensures b.Valid() && (b.data == old(b.data) || fresh(b.data))
      ensures b.Readable() == old(b.Readable()) + EncodeFrame(Frame(id, data))
    {
      ghost var queue := b.Readable();
      b.PrepareUInt16(id);
      b.PrepareUInt16(|data| % 0x1_0000);
      b.Write(data);
      Assoc(queue, BigEndian(id), BigEndian(|data| % 0x1_0000));
      Assoc(queue, BigEndian(id) + BigEndian(|data| % 0x1_0000), data);
    }

    /** `socket_.async_write_some` on the readable bytes: one more write outstanding. */
    method AsyncWriteSome()
      requires writeBuffer.Valid()
      modifies this`writes
      ensures writes == old(writes) + [writeBuffer.Readable()]
    {
      writes := writes + [writeBuffer.data[writeBuffer.readIndex..writeBuffer.writeIndex]];
    }

    /** Completion of the outstanding write: the environment chose how many bytes went out. */
    method HandlingWrite(bytesTransferred: nat)
      requires Valid() && writes != [] && bytesTransferred <= |writes[0]|
      modifies this`beSending, this`writes, this`delivered, writeBuffer
      ensures Valid() && writeBuffer.data == old(writeBuffer.data)
      ensures PumpView() == PumpDone(old(PumpView()), bytesTransferred)
      ensures delivered == old(delivered) + old(writes[0])[..bytesTransferred]
      ensures ReaderView() == old(ReaderView())
    {
      SplitDelivery(delivered, writeBuffer.Readable(), writes[0], bytesTransferred);
      delivered := delivered + writes[0][..bytesTransferred];
      writes := writes[1..];
      writeBuffer.RetrieveN(bytesTransferred);
      if writeBuffer.ReadAbleBytes() != 0 {
        AsyncWriteSome();
      } else {
        beSending := false;
      }
    }

    /** One completed read.  A read error closes the session; otherwise every complete request is handed on,
        until one fails. */
    method HandlingRead(ec: bool, bytes: seq<byte>)
      requires Valid() && isOpen
      modifies this`tag, this`bodySize, this`headParsed, this`isOpen, this`dispatched, buffer, buffer.data
      ensures Valid() && (buffer.data == old(buffer.data) || fresh(buffer.data))
      ensures ec ==> ReaderView() == Reader(false, [], old(dispatched))
      ensures !ec ==> ReaderView() == ReadStep(old(ReaderView()), bytes, ok)
      ensures PumpView() == old(PumpView())
    {
      if ec {
        Close();
        return;
      }
      Assoc(BigEndian(tag) + BigEndian(bodySize), buffer.Readable(), bytes);
      buffer.Write(bytes);
      DecodeLoop(old(ReaderView()), bytes);
    }

    /** The `while (true)` loop of a completed read, started with `chunk` just appended to the buffer. */
    method DecodeLoop(ghost before: Reader, ghost chunk: seq<byte>)
      requires buffer.Valid() && isOpen && before.open
      requires Pending() == before.pending + chunk && dispatched == before.dispatched
      modifies this`tag, this`bodySize, this`headParsed, this`isOpen, this`dispatched, buffer`readIndex
      ensures buffer.Valid() && ReaderView() == ReadStep(before, chunk, ok)
    {
      ghost var done: seq<Frame> := [];
      while true
        invariant buffer.Valid() && isOpen
        invariant dispatched == before.dispatched + done && AllAccepted(done, |before.dispatched|, ok)
        invariant LeftToDecode(before.pending + chunk, done, Pending())
        decreases |Pending()|
      {
        ghost var pending := Pending();
        var next := NextRequest();
        if next == None {
          StepComplete(before, chunk, done, pending, Pending(), ok);
          break;
        }
        StepOutcome(before, chunk, done, next.value, pending, Pending(), ok);
        var success := HandingRequest(next.value);
        done := done + [next.value];
        if !success {
          Close();
          return;
        }
      }
    }

    /** The request handler is called; its answer is the environment's. */
    method HandingRequest(f: Frame) returns (success: bool)
      modifies this`dispatched
      ensures dispatched == old(dispatched) + [f] && success == ok(|old(dispatched)|)
    {
      success := ok(|dispatched|);
      dispatched := dispatched + [f];
    }

    /** One round of the loop up to the call of the request handler. */
    method NextRequest() returns (next: Option<Frame>)
      requires buffer.Valid()
      modifies this`tag, this`bodySize, this`headParsed, buffer`readIndex
      ensures buffer.Valid()
      ensures next == None ==> Parse(old(Pending())) == Parsed([], Pending())
      ensures next.Some? ==> |Pending()| < |old(Pending())|
      ensures next.Some? ==>
                Parse(old(Pending())) == Parsed([next.value] + Parse(Pending()).frames, Parse(Pending()).rest)
    {
      if !headParsed && buffer.ReadAbleBytes() >= HEAD_SIZE {
        TakeHead();
      }
      if headParsed && buffer.ReadAbleBytes() >= bodySize {
        var f := TakeBody();
        return Some(f);
      }
      NoFrameYet(headParsed, tag, bodySize, buffer.Readable());
      return None;
    }

    /** The two header fields leave the buffer and are remembered. */
    method TakeHead()
      requires buffer.Valid() && !headParsed && |buffer.Readable()| >= HEAD_SIZE
      modifies this`tag, this`bodySize, this`headParsed, buffer`readIndex
      ensures buffer.Valid() && headParsed && Pending() == old(Pending())
    {
      tag := buffer.RetrieveUInt16();
      bodySize := buffer.RetrieveUInt16();
      headParsed := true;
      Assoc(BigEndian(tag), BigEndian(bodySize), buffer.Readable());
    }

    /** A complete body leaves the buffer: the first frame of what was pending. */
    method TakeBody() returns (f: Frame)
      requires buffer.Valid() && headParsed && |buffer.Readable()| >= bodySize
      modifies this`headParsed, buffer`readIndex
      ensures buffer.Valid() && !headParsed && |Pending()| < |old(Pending())|
      ensures Parse(old(Pending())) == Parsed([f] + Parse(Pending()).frames, Parse(Pending()).rest)
    {
      var body := buffer.RetrieveAsString(bodySize);
      BodyCompletes(tag, bodySize, body, buffer.Readable());
      headParsed := false;
      f := Frame(tag, body);
      ParseStep(f, buffer.Readable());
    }

    method Close()
      modifies this`isOpen
      ensures !isOpen
    {
      isOpen := false;
    }
  }

  /** Sending and completing keep the single-writer discipline. */
  lemma PumpSendKeeps(p: Pump, f: Frame)
    requires p.Ok()
    ensures PumpSend(p, f).Ok() && PumpSend(p, f).writes != []
  {
    assert EncodeFrame(f) != [];
  }

  lemma PumpDoneKeeps(p: Pump, n: nat)
    requires p.Ok() && p.writes != [] && n <= |p.writes[0]|
    ensures n <= |p.queue| && PumpDone(p, n).Ok()
  {
  }

  lemma SplitDelivery(delivered: seq<byte>, queue: seq<byte>, write: seq<byte>, n: nat)
    requires n <= |write| && write <= queue
    ensures delivered + queue == delivered + write[..n] + queue[n..]
  {
    assert write[..n] == queue[..n];
    Split(queue, n);
    Assoc(delivered, queue[..n], queue[n..]);
  }

  lemma SentGrows(sent: seq<Frame>, f: Frame, delivered: seq<byte>, queue: seq<byte>)
    requires EncodeAll(sent) == delivered + queue
    ensures EncodeAll(sent + [f]) == delivered + (queue + EncodeFrame(f))
  {
    EncodeAllConcat(sent, [f]);
    assert EncodeAll([f]) == EncodeFrame(f);
    Assoc(delivered, queue, EncodeFrame(f));
  }

  // ----- cutting at the first refusal -----

  lemma {:induction false} AllAcceptedUncut(fs: seq<Frame>, n: nat, ok: Verdict)
    ensures AllAccepted(fs, n, ok) ==> UpToRefusal(fs, n, ok) == fs
    ensures |UpToRefusal(fs, n, ok)| < |fs| ==> !AllAccepted(fs, n, ok)
  {
    if fs == [] {
    } else {
      AllAcceptedUncut(fs[1..], n + 1, ok);
      HeadTail(fs);
    }
  }

  lemma AllAcceptedConcat(fs: seq<Frame>, gs: seq<Frame>, n: nat, ok: Verdict)
    ensures AllAccepted(fs + gs, n, ok) <==> AllAccepted(fs, n, ok) && AllAccepted(gs, n + |fs|, ok)
  {
  }

  lemma {:induction false} CutAppend(fs: seq<Frame>, gs: seq<Frame>, n: nat, ok: Verdict)
    ensures UpToRefusal(fs + gs, n, ok)
         == if AllAccepted(fs, n, ok) then fs + UpToRefusal(gs, n + |fs|, ok) else UpToRefusal(fs, n, ok)
  {
    if fs == [] {
      assert fs + gs == gs;
    } else {
      assert (fs + gs)[1..] == fs[1..] + gs;
      CutAppend(fs[1..], gs, n + 1, ok);
      HeadTail(fs);
      AllAcceptedConcat([fs[0]], fs[1..], n, ok);
      Assoc([fs[0]], fs[1..], UpToRefusal(gs, n + |fs|, ok));
    }
  }

  /** `done` was decoded from `input` and `pending` is still to be decoded. */
  ghost predicate LeftToDecode(input: seq<byte>, done: seq<Frame>, pending: seq<byte>)
  {
    Parse(input) == Parsed(done + Parse(pending).frames, Parse(pending).rest)
  }

  /** What a read amounts to once `f`, the next frame after the accepted ones in `done`, is judged. */
  lemma StepOutcome(r: Reader, chunk: seq<byte>, done: seq<Frame>, f: Frame,
                    pending: seq<byte>, later: seq<byte>, ok: Verdict)
    requires r.open && AllAccepted(done, |r.dispatched|, ok)
    requires LeftToDecode(r.pending + chunk, done, pending)
    requires Parse(pending) == Parsed([f] + Parse(later).frames, Parse(later).rest)
    ensures r.dispatched + done + [f] == r.dispatched + (done + [f])
    ensures LeftToDecode(r.pending + chunk, done + [f], later)
    ensures if ok(|r.dispatched + done|) then AllAccepted(done + [f], |r.dispatched|, ok)
            else ReadStep(r, chunk, ok) == Reader(false, [], r.dispatched + (done + [f]))
  {
    Assoc(done, [f], Parse(later).frames);
    Assoc(r.dispatched, done, [f]);
    Judged(done, f, Parse(later).frames, |r.dispatched|, ok);
  }

  lemma Judged(done: seq<Frame>, f: Frame, more: seq<Frame>, n: nat, ok: Verdict)
    requires AllAccepted(done, n, ok)
    ensures if ok(n + |done|) then AllAccepted(done + [f], n, ok)
            else !AllAccepted(done + [f] + more, n, ok) && UpToRefusal(done + [f] + more, n, ok) == done + [f]
  {
    AllAcceptedConcat(done, [f], n, ok);
    AllAcceptedConcat(done + [f], more, n, ok);
    CutAppend(done + [f], more, n, ok);
    CutAppend(done, [f], n, ok);
  }

  /** What a read amounts to when every frame it completed was accepted. */
  lemma StepComplete(r: Reader, chunk: seq<byte>, done: seq<Frame>, pending: seq<byte>, rest: seq<byte>, ok: Verdict)
    requires r.open && AllAccepted(done, |r.dispatched|, ok)
    requires LeftToDecode(r.pending + chunk, done, pending) && Parse(pending) == Parsed([], rest)
    ensures ReadStep(r, chunk, ok) == Reader(true, rest, r.dispatched + done)
  {
    assert done + [] == done;
    AllAcceptedUncut(done, |r.dispatched|, ok);
  }

  lemma BodyCompletes(tag: uint16, size: uint16, body: seq<byte>, buffered: seq<byte>)
    requires |body| == size
    ensures Undecoded(true, tag, size, body + buffered) == EncodeFrame(Frame(tag, body)) + buffered
  {
    Assoc(BigEndian(tag) + BigEndian(size), body, buffered);
  }

  /** The loop stops only where the one-shot parser finds no further frame. */
  lemma NoFrameYet(headParsed: bool, tag: uint16, size: uint16, buffered: seq<byte>)
    requires if headParsed then |buffered| < size else |buffered| < HEAD_SIZE
    ensures var pending := Undecoded(headParsed, tag, size, buffered);
            Parse(pending) == Parsed([], pending)
  {
    if headParsed {
      assert WordAt(BigEndian(tag) + BigEndian(size) + buffered, 2) == size;
    }
  }

  // ----- chunking independence -----

  /** The reader is where reading `s` in one piece would have left it. */
  ghost predicate ReadOf(r: Reader, s: seq<byte>, ok: Verdict)
  {
    && r.dispatched == UpToRefusal(Parse(s).frames, 0, ok)
    && (r.open <==> AllAccepted(Parse(s).frames, 0, ok))
    && (r.open ==> r.pending == Parse(s).rest)
  }

  lemma ReadStepOf(r: Reader, s: seq<byte>, chunk: seq<byte>, ok: Verdict)
    requires ReadOf(r, s, ok)
    ensures ReadOf(ReadStep(r, chunk, ok), s + chunk, ok)
  {
    var p, q := Parse(s), Parse(Parse(s).rest + chunk);
    ParseAppend(s, chunk);
    CutAppend(p.frames, q.frames, 0, ok);
    AllAcceptedConcat(p.frames, q.frames, 0, ok);
    AllAcceptedUncut(p.frames, 0, ok);
  }

  /** However a byte stream is cut into reads, the session hands on exactly the requests of the one-shot parse,
      up to and including the first refused one, and stays open exactly when none is refused. */
  lemma {:induction false} ChunkingIndependence(chunks: seq<seq<byte>>, ok: Verdict)
    ensures var p := Parse(Flatten(chunks)); var r := ReadAll(NEW_READER, chunks, ok);
            && r.dispatched == UpToRefusal(p.frames, 0, ok)
            && (r.open <==> AllAccepted(p.frames, 0, ok))
            && (r.open ==> r.pending == p.rest)
    decreases |chunks|
  {
    if chunks == [] {
    } else {
      var front, last := chunks[..|chunks| - 1], chunks[|chunks| - 1];
      ChunkingIndependence(front, ok);
      assert chunks == front + [last];
      ReadAllSnoc(NEW_READER, front, last, ok);
      FlattenSnoc(front, last);
      ReadStepOf(ReadAll(NEW_READER, front, ok), Flatten(front), last, ok);
    }
  }

  lemma {:induction false} ReadAllSnoc(r: Reader, front: seq<seq<byte>>, last: seq<byte>, ok: Verdict)
    ensures ReadAll(r, front + [last], ok) == ReadStep(ReadAll(r, front, ok), last, ok)
    decreases |front|
  {
    if front == [] {
      assert front + [last] == [last];
    } else {
      assert (front + [last])[1..] == front[1..] + [last];
      ReadAllSnoc(ReadStep(r, front[0], ok), front[1..], last, ok);
    }
  }
}
