/** `CMockHandle`, the repository's executable device: a counter of bytes left, delivered as ones. */
module MockHandle {
  import opened Bytes
  import opened SaneApi
  import opened SaneDevice

  function Ones(n: nat): (ones: seq<byte>)
    ensures |ones| == n
  {
    seq(n, _ => 1)
  }

  /** The reads that `capacity` remaining bytes make: full buffers, then what is left. */
  function MockChunks(capacity: nat): (chunks: seq<Chunk>)
    ensures Flatten(chunks) == Ones(capacity)
    ensures AllFullButLast(chunks)
  {
    if capacity == 0 then []
    else if capacity <= READ_MAX then [Ones(capacity)]
    else
      assert Ones(capacity) == Ones(READ_MAX) + Ones(capacity - READ_MAX);
      [Ones(READ_MAX)] + MockChunks(capacity - READ_MAX)
  }

  /** The next read takes a buffer's worth, or what is left. */
  lemma NextChunk(capacity: nat, taken: nat)
    requires 0 < capacity && taken == if READ_MAX > capacity then capacity else READ_MAX
    ensures var chunks := MockChunks(capacity); chunks != [] && chunks[0] == Ones(taken)
    ensures MockChunks(capacity)[1..] == MockChunks(capacity - taken)
  {
  }

  /** What a started device with so many ones left answers. */
  lemma ReadOfOnes(b: Backend, capacity: nat, taken: nat)
    requires b.started && b.chunks == MockChunks(capacity) && b.ending == EndOfFrame([])
    requires taken == if READ_MAX > capacity then capacity else READ_MAX
    ensures SaneRead(b) ==
            ReadResult(b.(calls := b.calls + [CallRead(capacity == 0)], chunks := MockChunks(capacity - taken),
                          delivered := b.delivered + Ones(taken)),
                       if capacity == 0 then EOF else GOOD, Ones(taken))
  {
    if capacity > 0 {
      NextChunk(capacity, taken);
    } else {
      assert Ones(0) == [];
    }
  }

  predicate AllFullButLast(chunks: seq<Chunk>) {
    forall i :: 0 <= i < |chunks| - 1 ==> |chunks[i]| == READ_MAX
  }

  class CMockHandle {
    const parameters: Parameters
    var open: bool
    var started: bool
    var cancelled: bool
    var maxReadLength: nat
    var bytesRead: nat
    ghost var delivered: seq<byte>
    ghost var calls: seq<Call>

    constructor (parameters: Parameters, maxReadLength: nat)
      ensures View() == Backend(GOOD, GOOD, GOOD, parameters, false, false, false,
                                MockChunks(maxReadLength), EndOfFrame([]), [], [])
    {
      this.parameters := parameters;
      this.open, this.started, this.cancelled := false, false, false;
      this.maxReadLength, this.bytesRead := maxReadLength, 0;
      this.delivered, this.calls := [], [];
    }

    function ReadBytesCapacity(): nat
      reads this
    {
      if bytesRead > maxReadLength then 0 else maxReadLength - bytesRead
    }

    ghost function View(): Backend
      reads this
    {
      Backend(GOOD, GOOD, GOOD, parameters, open, started, cancelled,
              MockChunks(ReadBytesCapacity()), EndOfFrame([]), delivered, calls)
    }

    method Open() returns (status: Status)
      modifies this
      ensures View() == SaneOpen(old(View())) && status == GOOD
    {
      calls := calls + [CallOpen(true)];
      open := true;
      status := GOOD;
    }

    method Start() returns (status: Status)
      modifies this
      ensures View() == SaneStart(old(View())) && status == GOOD
    {
      calls := calls + [CallStart(true)];
      started, cancelled := true, false;
      status := GOOD;
    }

    /** The precondition is the mock's own assertion. */
    method Read(buffer: Buffer) returns (status: Status)
      requires started && buffer.data.Length == READ_MAX
      modifies this, buffer, buffer.data
      ensures var r := SaneRead(old(View()));
              View() == r.backend && status == r.status
              && buffer.readLen == |r.data| && buffer.data[..buffer.readLen] == r.data
    {
      var capacity := ReadBytesCapacity();
      var writeBytes := buffer.data.Length;
      if writeBytes > capacity {
        writeBytes := capacity;
      }
      ReadOfOnes(View(), capacity, writeBytes);
      buffer.readLen := writeBytes;
      calls, delivered := calls + [CallRead(capacity == 0)], delivered + Ones(writeBytes);
      if capacity == 0 {
        return EOF;
      }
      bytesRead := bytesRead + writeBytes;
      buffer.Fill(Ones(writeBytes));
      status := GOOD;
    }

    method Cancel()
      modifies this
      ensures View() == SaneCancel(old(View()))
    {
      calls := calls + [CallCancel];
      started, cancelled := false, true;
    }

    /** The precondition is the mock's own assertion. */
    method Close()
      requires cancelled
      modifies this
      ensures View() == SaneClose(old(View()))
    {
      calls := calls + [CallClose];
      open, cancelled := false, false;
    }
  }
}
