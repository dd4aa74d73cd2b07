/** `NetWorkBuffer`: a growable byte queue in an array, with in-place compaction. */
module NetWorkBuffers {
  import opened Wire
  import opened Seqs

  /** The two indices and the capacity, without the bytes. */
  datatype Indices = Indices(read: nat, write: nat, size: nat) {
    predicate Ok() {
      read <= write <= size
    }
  }

  /** Where a write of `len` bytes leaves the indices: it fits behind the content, or it fits once the content
      is moved to the front, or the array grows by `len`. */
  function AfterWrite(ix: Indices, len: nat): (r: Indices)
    requires ix.Ok()
    ensures r.Ok() && r.write - r.read == ix.write - ix.read + len
  {
    if len <= ix.size - ix.write then Indices(ix.read, ix.write + len, ix.size)
    else if len <= ix.size - ix.write + ix.read then Indices(0, ix.write - ix.read + len, ix.size)
    else Indices(ix.read, ix.write + len, ix.size + len)
  }

  /** Bytes are taken only when that many are readable. */
  function AfterRetrieve(ix: Indices, n: nat): (r: Indices)
    requires ix.Ok()
    ensures r.Ok()
  {
    if n > ix.write - ix.read then ix else ix.(read := ix.read + n)
  }

  class NetWorkBuffer {
    var data: array<byte>
    var readIndex: nat
    var writeIndex: nat
    var size: nat

    ghost predicate Valid()
      reads this
    {
      readIndex <= writeIndex <= size == data.Length
    }

    ghost function Readable(): (s: seq<byte>)
      reads this, data
      requires Valid()
    {
      data[readIndex..writeIndex]
    }

    ghost function Shape(): (ix: Indices)
      reads this
      requires Valid()
    {
      Indices(readIndex, writeIndex, size)
    }

    constructor (size: nat := 1024)
      ensures Valid() && fresh(data) && Readable() == [] && Shape() == Indices(0, 0, size)
    {
      data := new byte[size];
      readIndex, writeIndex := 0, 0;
      this.size := size;
    }

    function ReadAbleBytes(): (n: nat)
      reads this, data
      requires Valid()
      ensures n == |Readable()|
    {
      writeIndex - readIndex
    }

    function WriteAbleBytes(): (n: nat)
      reads this
      requires Valid()
      ensures writeIndex + n == data.Length
    {
      size - writeIndex
    }

    method RetrieveN(n: nat)
      requires Valid()
      modifies this`readIndex
      ensures Valid() && Shape() == AfterRetrieve(old(Shape()), n)
      ensures Readable() == if n > |old(Readable())| then old(Readable()) else old(Readable())[n..]
    {
      if n > ReadAbleBytes() {
        return;
      }
      readIndex := readIndex + n;
    }

    method RetrieveAsString(n: nat) returns (str: seq<byte>)
      requires Valid()
      modifies this`readIndex
      ensures Valid() && Shape() == AfterRetrieve(old(Shape()), n)
      ensures n > |old(Readable())| ==> str == [] && Readable() == old(Readable())
      ensures n <= |old(Readable())| ==> |str| == n && str + Readable() == old(Readable())
    {
      if ReadAbleBytes() < n {
        return [];
      }
      str := data[readIndex..readIndex + n];
      RetrieveN(n);
    }

    method RetrieveAllString() returns (str: seq<byte>)
      requires Valid()
      modifies this`readIndex
      ensures Valid() && str == old(Readable()) && Readable() == []
      ensures Shape() == AfterRetrieve(old(Shape()), |old(Readable())|)
    {
      str := RetrieveAsString(ReadAbleBytes());
    }

    method RetrieveUInt16() returns (num: uint16)
      requires Valid()
      modifies this`readIndex
      ensures Valid() && Shape() == AfterRetrieve(old(Shape()), 2)
      ensures |old(Readable())| < 2 ==> num == 0 && Readable() == old(Readable())
      ensures |old(Readable())| >= 2 ==> BigEndian(num) + Readable() == old(Readable())
    {
      if ReadAbleBytes() < 2 {
        return 0;
      }
      num := WordAt(data[readIndex..readIndex + 2], 0);
      BigEndianOfWord(data[readIndex..readIndex + 2], 0);
      RetrieveN(2);
    }

    method WriteString(str: seq<byte>)
      requires Valid()
      modifies this, data
      ensures Valid() && (data == old(data) || fresh(data))
      ensures Readable() == old(Readable()) + str
      ensures Shape() == AfterWrite(old(Shape()), |str|)
    {
      Write(str);
    }

    method PrepareUInt16(n: uint16)
      requires Valid()
      modifies this, data
      ensures Valid() && (data == old(data) || fresh(data))
      ensures Readable() == old(Readable()) + BigEndian(n)
      ensures Shape() == AfterWrite(old(Shape()), 2)
    {
      Write(BigEndian(n));
    }

    method Write(bytes: seq<byte>)
      requires Valid()
      modifies this, data
      ensures Valid() && (data == old(data) || fresh(data))
      ensures Readable() == old(Readable()) + bytes
      ensures Shape() == AfterWrite(old(Shape()), |bytes|)
    {
      ghost var content := Readable();
      EnsureWriteSafe(|bytes|);
      Store(data, writeIndex, bytes);
      assert data[readIndex..writeIndex] == data[..writeIndex][readIndex..] == content;
      JoinSlices(data, readIndex, writeIndex, writeIndex + |bytes|);
      writeIndex := writeIndex + |bytes|;
    }

    /** Makes room for `len` more bytes without touching the readable content. */
    method EnsureWriteSafe(len: nat)
      requires Valid()
      modifies this, data
      ensures Valid() && (data == old(data) || fresh(data))
      ensures Readable() == old(Readable())
      ensures writeIndex + len <= size
      ensures Shape() == AfterWrite(old(Shape()), len).(write := writeIndex)
      ensures writeIndex == AfterWrite(old(Shape()), len).write - len
    {
      if len <= WriteAbleBytes() {
        return;
      }
      if readIndex + WriteAbleBytes() >= len {
        var n := ReadAbleBytes();
        MoveDown(data, readIndex, n);
        writeIndex := n;
        readIndex := 0;
        return;
      }
      var newBuffer := new byte[size + len];
      CopyAll(data, newBuffer);
      SliceOfTake(newBuffer[..], size, readIndex, writeIndex);
      assert newBuffer[..][..size] == newBuffer[..size];
      data := newBuffer;
      size := size + len;
    }

    static lemma JoinSlices(a: array<byte>, i: nat, j: nat, k: nat)
      requires i <= j <= k <= a.Length
      ensures a[i..k] == a[i..j] + a[j..k]
    {
    }

    /** The compaction copy, byte by byte upwards; source and destination may overlap. */
    static method MoveDown(a: array<byte>, from: nat, n: nat)
      requires from + n <= a.Length
      modifies a
      ensures a[..n] == old(a[from..from + n])
    {
      for i := 0 to n
        invariant a[..i] == old(a[from..from + i])
        invariant forall k :: i <= k < a.Length ==> a[k] == old(a[k])
      {
        a[i] := a[from + i];
      }
    }

    static method CopyAll(src: array<byte>, dst: array<byte>)
      requires src != dst && src.Length <= dst.Length
      modifies dst
      ensures dst[..src.Length] == src[..]
    {
      for i := 0 to src.Length
        invariant dst[..i] == src[..i]
      {
        dst[i] := src[i];
      }
      assert src[..src.Length] == src[..];
    }

    static method Store(a: array<byte>, at: nat, bytes: seq<byte>)
      requires at + |bytes| <= a.Length
      modifies a
      ensures a[..at] == old(a[..at]) && a[at..at + |bytes|] == bytes
    {
      for i := 0 to |bytes|
        invariant a[..at] == old(a[..at])
        invariant a[at..at + i] == bytes[..i]
      {
        a[at + i] := bytes[i];
      }
      assert bytes[..|bytes|] == bytes;
    }
  }

  // ----- capacity over whole runs -----

  datatype BufferOp = Put(len: nat) | Take(n: nat)

  function Apply(ix: Indices, op: BufferOp): (r: Indices)
    requires ix.Ok()
    ensures r.Ok()
  {
    match op
    case Put(len) => AfterWrite(ix, len)
    case Take(n) => AfterRetrieve(ix, n)
  }

  function ApplyAll(ix: Indices, ops: seq<BufferOp>): (r: Indices)
    requires ix.Ok()
    ensures r.Ok()
    decreases |ops|
  {
    if ops == [] then ix else ApplyAll(Apply(ix, ops[0]), ops[1..])
  }

  /** The most bytes readable right after a write of the run. */
  function Peak(ix: Indices, ops: seq<BufferOp>): (peak: nat)
    requires ix.Ok()
    decreases |ops|
  {
    if ops == [] then 0
    else
      var next := Apply(ix, ops[0]);
      var later := Peak(next, ops[1..]);
      if ops[0].Put? && next.write - next.read > later then next.write - next.read else later
  }

  /** The array is reallocated exactly when even compaction could not make room. */
  lemma GrowsOnlyWhenFull(ix: Indices, len: nat)
    requires ix.Ok()
    ensures AfterWrite(ix, len).size != ix.size <==> ix.write - ix.read + len > ix.size
    ensures var r := AfterWrite(ix, len);
            && r.size == ix.size + (if ix.write - ix.read + len > ix.size then len else 0)
            && r.read == if ix.write + len > ix.size >= ix.write - ix.read + len then 0 else ix.read
  {
  }

  /** Capacity never exceeds the larger of where it started and twice the peak content. */
  lemma {:induction false} CapacityBound(ix: Indices, ops: seq<BufferOp>)
    requires ix.Ok()
    ensures ApplyAll(ix, ops).size <= ix.size || ApplyAll(ix, ops).size <= 2 * Peak(ix, ops)
    decreases |ops|
  {
    if ops == [] {
    } else {
      CapacityBound(Apply(ix, ops[0]), ops[1..]);
    }
  }
}
