/** The frame format shared by client and servers: a 2-byte id and a 2-byte body length, both big-endian,
    then the body.  `Parse` is the one-shot reference parser against which both incremental decoders are proved. */
module Wire {
  import opened Seqs

  type byte = b: int | 0 <= b < 0x100
  type uint16 = n: int | 0 <= n < 0x1_0000

  const HEAD_SIZE: nat := 4
  const MAX_BODY: nat := 0xFFFF

  datatype Frame = Frame(id: uint16, body: seq<byte>)

  function BigEndian(n: uint16): (s: seq<byte>)
  {
    [n / 0x100, n % 0x100]
  }

  function WordAt(s: seq<byte>, i: nat): (n: uint16)
    requires i + 1 < |s|
  {
    (s[i] as int) * 0x100 + s[i + 1]
  }

  /** What a sender puts on the wire.  The length field is a 16-bit truncation of the body length,
      the body is written whole. */
  function EncodeFrame(f: Frame): (s: seq<byte>)
  {
    BigEndian(f.id) + BigEndian(|f.body| % 0x1_0000) + f.body
  }

  /** The bytes a decoder still holds, written out: a header it has parsed counts as undecoded. */
  function Undecoded(headParsed: bool, tag: uint16, size: uint16, buffered: seq<byte>): (s: seq<byte>)
  {
    if headParsed then BigEndian(tag) + BigEndian(size) + buffered else buffered
  }

  function EncodeAll(fs: seq<Frame>): (s: seq<byte>)
  {
    if fs == [] then [] else EncodeFrame(fs[0]) + EncodeAll(fs[1..])
  }

  predicate Fits(fs: seq<Frame>)
  {
    forall f <- fs :: |f.body| <= MAX_BODY
  }

  datatype Parsed = Parsed(frames: seq<Frame>, rest: seq<byte>)

  /** All complete frames at the front of `s`, and the bytes left over. */
  function Parse(s: seq<byte>): (p: Parsed)
    decreases |s|
  {
    if |s| < HEAD_SIZE || |s| < HEAD_SIZE + WordAt(s, 2) then
      Parsed([], s)
    else
      var end := HEAD_SIZE + WordAt(s, 2);
      var tail := Parse(s[end..]);
      Parsed([Frame(WordAt(s, 0), s[HEAD_SIZE..end])] + tail.frames, tail.rest)
  }

  function Flatten(chunks: seq<seq<byte>>): (s: seq<byte>)
  {
    if chunks == [] then [] else chunks[0] + Flatten(chunks[1..])
  }

  lemma EncodeFrameShape(f: Frame)
    ensures |EncodeFrame(f)| == HEAD_SIZE + |f.body|
    ensures WordAt(EncodeFrame(f), 0) == f.id && WordAt(EncodeFrame(f), 2) == |f.body| % 0x1_0000
    ensures EncodeFrame(f)[HEAD_SIZE..] == f.body
  {
  }

  lemma {:induction false} EncodeAllConcat(fs: seq<Frame>, gs: seq<Frame>)
    ensures EncodeAll(fs + gs) == EncodeAll(fs) + EncodeAll(gs)
  {
    if fs == [] {
      assert fs + gs == gs;
    } else {
      assert (fs + gs)[1..] == fs[1..] + gs;
      EncodeAllConcat(fs[1..], gs);
    }
  }

  lemma {:induction false} FlattenSnoc(cs: seq<seq<byte>>, last: seq<byte>)
    ensures Flatten(cs + [last]) == Flatten(cs) + last
  {
    if cs == [] {
      assert cs + [last] == [last];
      assert last + [] == last;
    } else {
      assert (cs + [last])[1..] == cs[1..] + [last];
      FlattenSnoc(cs[1..], last);
      Assoc(cs[0], Flatten(cs[1..]), last);
    }
  }

  lemma WordOfPrefix(a: seq<byte>, b: seq<byte>, i: nat)
    requires i + 1 < |a|
    ensures WordAt(a + b, i) == WordAt(a, i)
  {
    assert (a + b)[i] == a[i] && (a + b)[i + 1] == a[i + 1];
  }

  /** Bytes that are exactly one frame are parsed first, whatever follows. */
  lemma ParseFirst(e: seq<byte>, s: seq<byte>)
    requires |e| >= HEAD_SIZE && |e| == HEAD_SIZE + WordAt(e, 2)
    ensures Parse(e + s) == Parsed([Frame(WordAt(e, 0), e[HEAD_SIZE..])] + Parse(s).frames, Parse(s).rest)
  {
    WordOfPrefix(e, s, 0);
    WordOfPrefix(e, s, 2);
    SliceOfPrefix(e, s, HEAD_SIZE, |e|);
    DropOfPrefix(e, s, |e|);
    assert e[|e|..] + s == s;
  }

  /** A frame that fits, followed by anything, is parsed back first. */
  lemma ParseStep(f: Frame, s: seq<byte>)
    requires |f.body| <= MAX_BODY
    ensures Parse(EncodeFrame(f) + s) == Parsed([f] + Parse(s).frames, Parse(s).rest)
  {
    EncodeFrameShape(f);
    ParseFirst(EncodeFrame(f), s);
  }

  lemma CutFrame(f: Frame, size: nat, s: seq<byte>)
    requires size == |f.body| % 0x1_0000
    ensures EncodeFrame(f) + s == EncodeFrame(Frame(f.id, f.body[..size])) + (f.body[size..] + s)
  {
    Split(f.body, size);
    Regroup(BigEndian(f.id) + BigEndian(size), f.body[..size], f.body[size..], s);
  }

  /** What a receiver makes of any frame, oversized ones too: a first frame whose body is cut to the truncated length,
      and then whatever frames the remainder of the body happens to spell. */
  lemma ParseTruncated(f: Frame, s: seq<byte>)
    ensures var size := |f.body| % 0x1_0000; var tail := Parse(f.body[size..] + s);
            Parse(EncodeFrame(f) + s) == Parsed([Frame(f.id, f.body[..size])] + tail.frames, tail.rest)
  {
    var size := |f.body| % 0x1_0000;
    CutFrame(f, size, s);
    ParseStep(Frame(f.id, f.body[..size]), f.body[size..] + s);
  }

  lemma BigEndianOfWord(s: seq<byte>, i: nat)
    requires i + 1 < |s|
    ensures BigEndian(WordAt(s, i)) == s[i..i + 2]
  {
    assert WordAt(s, i) / 0x100 == s[i] && WordAt(s, i) % 0x100 == s[i + 1];
  }

  /** The more significant byte is first: smaller numbers have lexicographically smaller bytes. */
  lemma BytesInOrder(m: uint16, n: uint16)
    ensures var a, b := BigEndian(m), BigEndian(n);
            && |a| == 2 && |b| == 2
            && (m < n <==> a[0] < b[0] || (a[0] == b[0] && a[1] < b[1]))
  {
  }

  /** A frame byte by byte: id, then length, each with its more significant byte first, then the body. */
  lemma FrameLayout(f: Frame)
    ensures var s := EncodeFrame(f);
            && |s| == 4 + |f.body| && s[4..] == f.body
            && s[0] == f.id / 256 && s[1] == f.id % 256
            && s[2] == (|f.body| % 65536) / 256 && s[3] == |f.body| % 256
  {
  }

  lemma ReencodeHead(s: seq<byte>, end: nat)
    requires |s| >= HEAD_SIZE && end == HEAD_SIZE + WordAt(s, 2) <= |s|
    ensures EncodeFrame(Frame(WordAt(s, 0), s[HEAD_SIZE..end])) == s[..end]
  {
    BigEndianOfWord(s, 0);
    BigEndianOfWord(s, 2);
    var f := Frame(WordAt(s, 0), s[HEAD_SIZE..end]);
    assert |f.body| % 0x1_0000 == WordAt(s, 2);
    assert EncodeFrame(f) == s[0..2] + s[2..4] + s[4..end];
    assert s[..end] == s[0..2] + s[2..4] + s[4..end];
  }

  lemma EncodeAllCons(f: Frame, fs: seq<Frame>)
    ensures EncodeAll([f] + fs) == EncodeFrame(f) + EncodeAll(fs)
  {
    assert ([f] + fs)[1..] == fs;
  }

  /** Parsing loses nothing: the frames found and the rest spell the input again, every body fits
      its length field, and the rest holds no further frame. */
  lemma {:induction false} ParseSound(s: seq<byte>)
    ensures EncodeAll(Parse(s).frames) + Parse(s).rest == s
    ensures Fits(Parse(s).frames)
    ensures Parse(Parse(s).rest) == Parsed([], Parse(s).rest)
    decreases |s|
  {
    if |s| < HEAD_SIZE || |s| < HEAD_SIZE + WordAt(s, 2) {
    } else {
      var end := HEAD_SIZE + WordAt(s, 2);
      var f := Frame(WordAt(s, 0), s[HEAD_SIZE..end]);
      var tail := Parse(s[end..]);
      ParseSound(s[end..]);
      ReencodeHead(s, end);
      EncodeAllCons(f, tail.frames);
      Assoc(EncodeFrame(f), EncodeAll(tail.frames), tail.rest);
      Split(s, end);
    }
  }

  /** The chunking law: parsing a longer stream is parsing the first part, then its rest with what follows. */
  lemma {:induction false} ParseAppend(a: seq<byte>, b: seq<byte>)
    ensures Parse(a + b).frames == Parse(a).frames + Parse(Parse(a).rest + b).frames
    ensures Parse(a + b).rest == Parse(Parse(a).rest + b).rest
    decreases |a|
  {
    if |a| < HEAD_SIZE || |a| < HEAD_SIZE + WordAt(a, 2) {
    } else {
      var end := HEAD_SIZE + WordAt(a, 2);
      ParseAppend(a[end..], b);
      WordOfPrefix(a, b, 0);
      WordOfPrefix(a, b, 2);
      SliceOfPrefix(a, b, HEAD_SIZE, end);
      DropOfPrefix(a, b, end);
      var tail := Parse(a[end..]);
      Assoc([Frame(WordAt(a, 0), a[HEAD_SIZE..end])], tail.frames, Parse(tail.rest + b).frames);
    }
  }

  lemma {:induction false} ParseEncoded(fs: seq<Frame>, s: seq<byte>)
    requires Fits(fs)
    ensures Parse(EncodeAll(fs) + s) == Parsed(fs + Parse(s).frames, Parse(s).rest)
  {
    if fs == [] {
      assert EncodeAll(fs) + s == s;
    } else {
      ParseEncoded(fs[1..], s);
      ParseStep(fs[0], EncodeAll(fs[1..]) + s);
      Assoc(EncodeFrame(fs[0]), EncodeAll(fs[1..]), s);
      HeadTail(fs);
      Assoc([fs[0]], fs[1..], Parse(s).frames);
    }
  }

  /** Encoding then parsing gives the frames back exactly when every body fits the 16-bit length field. */
  lemma {:induction false} RoundTrip(fs: seq<Frame>)
    ensures Parse(EncodeAll(fs)) == Parsed(fs, []) <==> Fits(fs)
  {
    ParseSound(EncodeAll(fs));
    if Fits(fs) {
      ParseEncoded(fs, []);
      assert EncodeAll(fs) + [] == EncodeAll(fs);
    }
  }

  /** Whatever prefix of an encoding has arrived, the frames parsed so far are a prefix of those encoded. */
  lemma PrefixOfEncoding(fs: seq<Frame>, a: seq<byte>, b: seq<byte>)
    requires Fits(fs) && EncodeAll(fs) == a + b
    ensures Parse(a).frames <= fs
    ensures EncodeAll(fs[|Parse(a).frames|..]) == Parse(a).rest + b
  {
    RoundTrip(fs);
    ParseAppend(a, b);
    ParseSound(a);
    var done := Parse(a).frames;
    var todo := Parse(Parse(a).rest + b).frames;
    assert fs[|done|..] == todo;
    EncodeAllConcat(done, todo);
    Assoc(EncodeAll(done), Parse(a).rest, b);
    DropCommonPrefix(EncodeAll(done), EncodeAll(todo), Parse(a).rest + b);
  }
}
