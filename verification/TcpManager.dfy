/** `TcpManager`: the client's end of the connection, with its own incremental decoder of the same frame format. */
module TcpManagers {
  import opened Wire
  import opened Seqs

  /** The bytes received and not yet part of a handled frame, and the frames handed to the handlers. */
  datatype Client = Client(pending: seq<byte>, handled: seq<Frame>)

  const NEW_CLIENT: Client := Client([], [])

  function Decoded(handled: seq<Frame>, bytes: seq<byte>): (c: Client)
  {
    var p := Parse(bytes);
    Client(p.rest, handled + p.frames)
  }

  /** One arrival, stated through the one-shot parser. */
  function Receive(c: Client, chunk: seq<byte>): (r: Client)
  {
    Decoded(c.handled, c.pending + chunk)
  }

  function ReceiveAll(c: Client, chunks: seq<seq<byte>>): (r: Client)
    decreases |chunks|
  {
    if chunks == [] then c else ReceiveAll(Receive(c, chunks[0]), chunks[1..])
  }

  class TcpManager {
    var data: seq<byte>
    var headReceived: bool
    var tag: uint16
    var bodyLen: uint16
    var handled: seq<Frame>    // what was passed to handing(), oldest first
    var outgoing: seq<byte>    // everything written to the socket

    ghost function View(): (c: Client)
      reads this
    {
      Client(Pending(), handled)
    }

    ghost function Pending(): (s: seq<byte>)
      reads this
    {
      Undecoded(headReceived, tag, bodyLen, data)
    }

    constructor ()
      ensures View() == NEW_CLIENT && outgoing == []
    {
      data, headReceived, tag, bodyLen := [], false, 0, 0;
      handled, outgoing := [], [];
    }

    method OnDataReady(available: seq<byte>)
      modifies this`data, this`headReceived, this`tag, this`bodyLen, this`handled
      ensures View() == Receive(old(View()), available)
    {
      ghost var before := View();
      Assoc(BigEndian(tag) + BigEndian(bodyLen), data, available);
      data := data + available;
      while true
        invariant Receive(before, available) == Decoded(handled, Pending())
        decreases |Pending()|
      {
        ghost var pending := Pending();
        if !headReceived {
          if |data| >= HEAD_SIZE {
            ReadHead();
          } else {
            NothingYet(handled, pending);
            return;
          }
        }
        if headReceived && |data| >= bodyLen {
          FrameReady(handled, tag, bodyLen, data);
          handled := handled + [Frame(tag, data[..bodyLen])];
          data := data[bodyLen..];
          headReceived := false;
        } else {
          NothingYet(handled, pending);
          return;
        }
      }
    }

    method ReadHead()
      requires !headReceived && |data| >= HEAD_SIZE
      modifies this`data, this`headReceived, this`tag, this`bodyLen
      ensures headReceived && Pending() == old(Pending())
    {
      BigEndianOfWord(data, 0);
      BigEndianOfWord(data, 2);
      tag, bodyLen := WordAt(data, 0), WordAt(data, 2);
      assert data == data[0..2] + data[2..4] + data[4..];
      data := data[HEAD_SIZE..];
      headReceived := true;
    }

    method SlotSendData(id: uint16, body: seq<byte>)
      modifies this`outgoing
      ensures outgoing == old(outgoing) + EncodeFrame(Frame(id, body))
    {
      var bytes := BigEndian(id) + BigEndian(|body| % 0x1_0000);
      bytes := bytes + body;
      outgoing := outgoing + bytes;
    }
  }

  lemma NothingYet(handled: seq<Frame>, pending: seq<byte>)
    requires |pending| < HEAD_SIZE || |pending| < HEAD_SIZE + WordAt(pending, 2)
    ensures Decoded(handled, pending) == Client(pending, handled)
  {
    assert handled + [] == handled;
  }

  lemma FrameReady(handled: seq<Frame>, tag: uint16, size: uint16, data: seq<byte>)
    requires size <= |data|
    ensures Decoded(handled, Undecoded(true, tag, size, data))
         == Decoded(handled + [Frame(tag, data[..size])], data[size..])
  {
    var f := Frame(tag, data[..size]);
    var tail := data[size..];
    FrameSplit(f, size, data);
    ParseStep(f, tail);
    Assoc(handled, [f], Parse(tail).frames);
  }

  lemma FrameSplit(f: Frame, size: uint16, data: seq<byte>)
    requires size <= |data| && f.body == data[..size]
    ensures BigEndian(f.id) + BigEndian(size) + data == EncodeFrame(f) + data[size..]
  {
    Split(data, size);
    Assoc(BigEndian(f.id) + BigEndian(size), f.body, data[size..]);
  }

  /** However the stream is cut into arrivals, the client handles the frames of the one-shot parse. */
  lemma {:induction false} ChunkingIndependence(chunks: seq<seq<byte>>)
    ensures ReceiveAll(NEW_CLIENT, chunks) == Client(Parse(Flatten(chunks)).rest, Parse(Flatten(chunks)).frames)
    decreases |chunks|
  {
    if chunks == [] {
    } else {
      var front, last := chunks[..|chunks| - 1], chunks[|chunks| - 1];
      ChunkingIndependence(front);
      assert chunks == front + [last];
      ReceiveAllSnoc(NEW_CLIENT, front, last);
      FlattenSnoc(front, last);
      ParseAppend(Flatten(front), last);
    }
  }

  lemma {:induction false} ReceiveAllSnoc(c: Client, front: seq<seq<byte>>, last: seq<byte>)
    ensures ReceiveAll(c, front + [last]) == Receive(ReceiveAll(c, front), last)
    decreases |front|
  {
    if front == [] {
      assert front + [last] == [last];
    } else {
      assert (front + [last])[1..] == front[1..] + [last];
      ReceiveAllSnoc(Receive(c, front[0]), front[1..], last);
    }
  }
}
