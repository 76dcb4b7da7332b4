/**
 * The growable byte buffer with a read head and a write head.
 *
 * Its meaning is a byte string with a read position; the growth policy is followed through a
 * ghost account of the bytes moved by all resizes.
 */
module ByteBuffer {
  import opened Bytes

  // ---- What the buffer means ----

  datatype View = View(bytes: seq<byte>, pos: nat) {
    predicate Ok() { pos <= |bytes| }
    function Unread(): seq<byte>
      requires Ok()
    {
      bytes[pos..]
    }
  }

  datatype Op = Write(bs: seq<byte>) | Read(n: nat) | Pack | Reset | Flip

  /** The bytes a read delivers: all that were asked for, or none. */
  function Delivered(v: View, n: nat): seq<byte>
    requires v.Ok()
  {
    if v.pos + n > |v.bytes| then [] else v.bytes[v.pos..v.pos + n]
  }

  function Apply(v: View, op: Op): (r: View)
    requires v.Ok()
    ensures r.Ok()
  {
    match op
    case Write(bs) => View(v.bytes + bs, v.pos)
    case Read(n) => View(v.bytes, v.pos + |Delivered(v, n)|)
    case Pack => View(v.bytes[v.pos..], 0)
    case Reset => View([], 0)
    case Flip => View(v.bytes, 0)
  }

  function Written(op: Op): seq<byte> {
    if op.Write? then op.bs else []
  }

  function Output(v: View, op: Op): seq<byte>
    requires v.Ok()
  {
    if op.Read? then Delivered(v, op.n) else []
  }

  // ---- Runs ----

  function Run(v: View, ops: seq<Op>): (r: View)
    requires v.Ok()
    ensures r.Ok()
    decreases |ops|
  {
    if |ops| == 0 then v else Run(Apply(v, ops[0]), ops[1..])
  }

  function AllWritten(ops: seq<Op>): seq<byte> {
    if |ops| == 0 then [] else Written(ops[0]) + AllWritten(ops[1..])
  }

  function AllRead(v: View, ops: seq<Op>): seq<byte>
    requires v.Ok()
    decreases |ops|
  {
    if |ops| == 0 then [] else Output(v, ops[0]) + AllRead(Apply(v, ops[0]), ops[1..])
  }

  lemma StepIsFifo(v: View, op: Op)
    requires v.Ok() && !op.Flip? && !op.Reset?
    ensures Output(v, op) + Apply(v, op).Unread() == v.Unread() + Written(op)
  {
  }

  lemma Chain(a: seq<byte>, b: seq<byte>, c: seq<byte>, d: seq<byte>, u: seq<byte>, w: seq<byte>, z: seq<byte>)
    requires a + u == d + w && b + c == u + z
    ensures (a + b) + c == d + (w + z)
  {
    assert (a + b) + c == a + (b + c) == (a + u) + z == d + (w + z);
  }

  /**
   * Without flip and reset the buffer is a FIFO, packing included: what was read, followed
   * by what is still unread, is what was unread before followed by what was written.
   */
  lemma {:induction false} BufferIsFifo(v: View, ops: seq<Op>)
    requires v.Ok() && forall i | 0 <= i < |ops| :: !ops[i].Flip? && !ops[i].Reset?
    ensures AllRead(v, ops) + Run(v, ops).Unread() == v.Unread() + AllWritten(ops)
    decreases |ops|
  {
    hide Apply;
    hide Output;
    hide Written;
    if |ops| > 0 {
      var op, r := ops[0], Apply(v, ops[0]);
      BufferIsFifo(r, ops[1..]);
      StepIsFifo(v, op);
      Chain(Output(v, op), AllRead(r, ops[1..]), Run(v, ops).Unread(), v.Unread(), r.Unread(), Written(op),
            AllWritten(ops[1..]));
    }
  }

  /** So what was read from a fresh buffer is a prefix of what was written to it. */
  lemma ReadIsPrefixOfWritten(ops: seq<Op>)
    requires forall i | 0 <= i < |ops| :: !ops[i].Flip? && !ops[i].Reset?
    ensures AllRead(View([], 0), ops) <= AllWritten(ops)
  {
    BufferIsFifo(View([], 0), ops);
    assert [] + AllWritten(ops) == AllWritten(ops);
  }

  /** A read takes the oldest unread bytes, as many as were asked for, or nothing at all. */
  lemma ReadIsAllOrNone(v: View, n: nat)
    requires v.Ok()
    ensures var r, u := Apply(v, Read(n)), v.Unread();
            if n <= |u| then Output(v, Read(n)) == u[..n] && r.bytes == v.bytes && r.Unread() == u[n..]
            else Output(v, Read(n)) == [] && r == v
  {
  }

  /** Nothing is taken from the bytes but by packing and by a reset. */
  lemma {:induction false} BytesStay(v: View, ops: seq<Op>)
    requires v.Ok() && forall i | 0 <= i < |ops| :: !ops[i].Pack? && !ops[i].Reset?
    ensures Run(v, ops).bytes == v.bytes + AllWritten(ops)
    decreases |ops|
  {
    if |ops| > 0 {
      hide AllWritten;
      BytesStay(Apply(v, ops[0]), ops[1..]);
      hide Run;
      WrittenFirst(ops);
      assert Apply(v, ops[0]).bytes == v.bytes + Written(ops[0]);
      assert v.bytes + Written(ops[0]) + AllWritten(ops[1..]) == v.bytes + (Written(ops[0]) + AllWritten(ops[1..]));
      RunFirst(v, ops);
    } else {
      assert AllWritten(ops) == [];
    }
  }

  lemma WrittenFirst(ops: seq<Op>)
    requires |ops| > 0
    ensures AllWritten(ops) == Written(ops[0]) + AllWritten(ops[1..])
  {
  }

  lemma RunFirst(v: View, ops: seq<Op>)
    requires v.Ok() && |ops| > 0
    ensures Run(v, ops) == Run(Apply(v, ops[0]), ops[1..])
  {
  }

  /**
   * A flip makes everything in the buffer unread again: after any writes, reads and flips of a
   * fresh buffer and one more flip, reading starts over with the first byte ever written.
   */
  lemma FlipStartsOver(earlier: seq<Op>, later: seq<Op>)
    requires forall i | 0 <= i < |earlier| :: !earlier[i].Pack? && !earlier[i].Reset?
    requires forall i | 0 <= i < |later| :: !later[i].Flip? && !later[i].Reset?
    ensures var v := Apply(Run(View([], 0), earlier), Flip);
            AllRead(v, later) + Run(v, later).Unread() == AllWritten(earlier) + AllWritten(later)
  {
    hide Run;
    hide AllRead;
    hide AllWritten;
    BytesStay(View([], 0), earlier);
    var v := Apply(Run(View([], 0), earlier), Flip);
    assert [] + AllWritten(earlier) == AllWritten(earlier);
    assert v.Unread() == AllWritten(earlier);
    BufferIsFifo(v, later);
  }

  /** After a reset nothing of what was there is ever read. */
  lemma ResetForgets(v: View, ops: seq<Op>)
    requires v.Ok() && forall i | 0 <= i < |ops| :: !ops[i].Flip? && !ops[i].Reset?
    ensures AllRead(Apply(v, Reset), ops) + Run(Apply(v, Reset), ops).Unread() == AllWritten(ops)
  {
    BufferIsFifo(Apply(v, Reset), ops);
    assert [] + AllWritten(ops) == AllWritten(ops);
  }

  // ---- The guard of the reads ----

  /** Heads and sizes are unsigned 64-bit numbers. */
  const SIZE_LIMIT: int := 0x1_0000_0000_0000_0000

  function WrapSize(x: int): nat {
    x % SIZE_LIMIT
  }

  /** The test before a read: the sum is a 64-bit one. */
  predicate GuardPasses(readHead: nat, size: nat, writeHead: nat) {
    WrapSize(readHead + size) <= writeHead
  }

  /** It tells whether the bytes are there if and only if the sum does not wrap. */
  lemma GuardIsRightIff(readHead: nat, size: nat, writeHead: nat)
    requires readHead <= writeHead < SIZE_LIMIT && size < SIZE_LIMIT
    ensures (GuardPasses(readHead, size, writeHead) <==> readHead + size <= writeHead)
            <==> readHead + size < SIZE_LIMIT
  {
    if readHead + size >= SIZE_LIMIT {
      WrapsOnce(readHead + size);
    }
  }

  lemma WrapsOnce(x: nat)
    requires SIZE_LIMIT <= x < 2 * SIZE_LIMIT
    ensures WrapSize(x) == x - SIZE_LIMIT
  {
  }

  /** One byte read of one written, and a request for the largest size: the guard lets it pass. */
  lemma GuardMisses()
    ensures GuardPasses(1, SIZE_LIMIT - 1, 1)
  {
    WrapsOnce(1 + (SIZE_LIMIT - 1));
  }

  // ---- Growth ----

  /** The capacity chosen for a write that needs `newHead` bytes. */
  function NewCapacity(capacity: nat, newHead: nat): nat {
    var grow15 := capacity + capacity / 2;
    if grow15 >= newHead then grow15
    else if capacity * 2 >= newHead then capacity * 2
    else newHead + newHead / 2
  }

  /** The new capacity is enough, not twice too much, and pays for moving the old bytes. */
  lemma GrowthIsGeometric(capacity: nat, newHead: nat)
    requires newHead > capacity
    ensures newHead <= NewCapacity(capacity, newHead) < 2 * newHead
    ensures capacity <= 3 * (NewCapacity(capacity, newHead) - capacity)
  {
  }

  /** Of one and a half times the capacity, twice it, and one and a half times the need: the least that will do. */
  lemma LeastThatWillDo(capacity: nat, newHead: nat, other: nat)
    requires newHead > capacity
    requires other == capacity + capacity / 2 || other == 2 * capacity || other == newHead + newHead / 2
    ensures var r := NewCapacity(capacity, newHead);
            r == capacity + capacity / 2 || r == 2 * capacity || r == newHead + newHead / 2
    ensures other >= newHead ==> NewCapacity(capacity, newHead) <= other
  {
  }

  /** What a run costs: capacity, bytes moved by all resizes, highest write head. */
  datatype Account = Account(capacity: nat, moved: nat, peak: nat)

  /** Making room up to a write head: a resize pays the old capacity. */
  function Roomy(a: Account, newHead: nat): Account {
    var peak := if newHead > a.peak then newHead else a.peak;
    if newHead > a.capacity then Account(NewCapacity(a.capacity, newHead), a.moved + a.capacity, peak)
    else Account(a.capacity, a.moved, peak)
  }

  /** Only a write is charged for. */
  function Charge(a: Account, v: View, op: Op): Account {
    if op.Write? then Roomy(a, |v.bytes| + |op.bs|) else a
  }

  function Bill(a: Account, v: View, ops: seq<Op>): Account
    requires v.Ok()
    decreases |ops|
  {
    if |ops| == 0 then a else Bill(Charge(a, v, ops[0]), Apply(v, ops[0]), ops[1..])
  }

  /** At most three bytes moved for each byte gained, and never twice too much gained. */
  ghost predicate Sound(a: Account, initial: nat) {
    && initial <= a.capacity
    && a.moved <= 3 * (a.capacity - initial)
    && (a.capacity == initial || a.capacity < 2 * a.peak)
  }

  ghost predicate Affordable(a: Account, v: View, initial: nat) {
    |v.bytes| <= a.capacity && |v.bytes| <= a.peak && Sound(a, initial)
  }

  lemma RoomyIsSound(a: Account, newHead: nat, initial: nat)
    requires Sound(a, initial)
    ensures var r := Roomy(a, newHead);
            Sound(r, initial) && newHead <= r.capacity && newHead <= r.peak && a.peak <= r.peak
  {
    if newHead > a.capacity {
      GrowthIsGeometric(a.capacity, newHead);
    }
  }

  /**
   * Over any run of operations the resizes together move at most three bytes for each byte
   * of capacity gained, and the capacity stays the initial one or below twice the peak.
   */
  lemma {:induction false} GrowthIsAmortised(a: Account, v: View, ops: seq<Op>, initial: nat)
    requires v.Ok() && Affordable(a, v, initial)
    ensures Affordable(Bill(a, v, ops), Run(v, ops), initial)
    decreases |ops|
  {
    if |ops| > 0 {
      if ops[0].Write? {
        RoomyIsSound(a, |v.bytes| + |ops[0].bs|, initial);
      }
      hide Roomy;
      hide Sound;
      GrowthIsAmortised(Charge(a, v, ops[0]), Apply(v, ops[0]), ops[1..], initial);
    }
  }

  /** So for a buffer created with `n` bytes of capacity, whatever is done with it. */
  lemma FreshBufferGrowth(n: nat, ops: seq<Op>)
    ensures var a := Bill(Account(n, 0, 0), View([], 0), ops);
            && a.moved <= 3 * (a.capacity - n)
            && (a.capacity == n || a.capacity < 2 * a.peak)
            && |Run(View([], 0), ops).bytes| <= a.capacity
  {
    GrowthIsAmortised(Account(n, 0, 0), View([], 0), ops, n);
  }

  /** The factor cannot be lowered: one more byte in a full buffer of three moves three bytes. */
  lemma GrowthBoundIsTight(v: View, b: byte)
    requires v.Ok() && |v.bytes| == 3
    ensures Affordable(Account(3, 0, 3), v, 3)
    ensures var a := Bill(Account(3, 0, 3), v, [Write([b])]);
            a.moved > 0 && a.moved == 3 * (a.capacity - 3)
  {
    var a := Charge(Account(3, 0, 3), v, Write([b]));
    assert |Apply(v, Write([b])).bytes| == 4;
    assert a == Account(4, 3, 4);
    assert [Write([b])][1..] == [];
    assert Bill(a, Apply(v, Write([b])), []) == a;
  }

  class Buffer {
    const originalCapacity: nat
    var capacity: nat
    var readHead: nat
    var writeHead: nat
    var data: array<byte>
    /** The sum of the old capacities over all resizes, and the highest write head so far. */
    ghost var moved: nat
    ghost var peak: nat

    ghost predicate Valid()
      reads this
    {
      && readHead <= writeHead <= capacity == data.Length
      && writeHead <= peak && Sound(Account(capacity, moved, peak), originalCapacity)
    }

    ghost function Meaning(): (v: View)
      requires Valid()
      reads this, data
      ensures v.Ok()
    {
      View(data[..writeHead], readHead)
    }

    /** Capacity, bytes moved so far and highest write head so far. */
    ghost function Books(): Account
      reads this
    {
      Account(capacity, moved, peak)
    }

    constructor (size: nat)
      ensures Valid() && Meaning() == View([], 0) && fresh(data)
      ensures originalCapacity == size && Books() == Account(size, 0, 0)
    {
      originalCapacity, capacity := size, size;
      readHead, writeHead, moved, peak := 0, 0, 0, 0;
      data := new byte[size];
    }

    /** Moves the bytes to a block of another size, as realloc does; the old block is paid for. */
    method Resize(newCapacity: nat)
      requires Valid()
      modifies this`capacity, this`data, this`moved
      ensures capacity == newCapacity == data.Length && fresh(data) && moved == old(moved) + old(capacity)
      ensures forall i | 0 <= i < newCapacity && i < old(data.Length) :: data[i] == old(data[i])
    {
      var newData := new byte[newCapacity];
      forall i | 0 <= i < newCapacity && i < data.Length {
        newData[i] := data[i];
      }
      data := newData;
      moved := moved + capacity;
      capacity := newCapacity;
    }

    /** Makes room for `size` more bytes. */
    method Adjust(size: nat)
      requires Valid()
      modifies this`capacity, this`data, this`moved, this`peak
      ensures Valid() && Meaning() == old(Meaning())
      ensures writeHead + size <= capacity && writeHead + size <= peak
      ensures data == old(data) || fresh(data)
      ensures Books() == Roomy(old(Books()), old(writeHead) + size)
    {
      hide Sound;
      var newHead := writeHead + size;
      ghost var was := data[..writeHead];
      RoomyIsSound(Books(), newHead, originalCapacity);
      if newHead > capacity {
        var newCapacity := capacity + capacity / 2;
        if newCapacity < newHead {
          newCapacity := capacity * 2;
        }
        if newCapacity < newHead {
          newCapacity := newHead + newHead / 2;
        }
        assert newCapacity == NewCapacity(capacity, newHead);
        hide NewCapacity;
        Resize(newCapacity);
      }
      assert data[..writeHead] == was;
      peak := if newHead > peak then newHead else peak;
    }

    method WriteBytes(bs: seq<byte>) returns (n: nat)
      requires Valid()
      modifies this, data
      ensures Valid() && n == |bs| && Meaning() == Apply(old(Meaning()), Write(bs))
      ensures Books() == Charge(old(Books()), old(Meaning()), Write(bs))
      ensures data == old(data) || fresh(data)
      ensures readHead == old(readHead) && writeHead == old(writeHead) + |bs|
      ensures data[..writeHead] == old(data[..writeHead]) + bs
    {
      Adjust(|bs|);
      CopyInto(data, writeHead, bs);
      writeHead := writeHead + |bs|;
      n := |bs|;
    }

    method WriteByte(b: byte) returns (n: nat)
      requires Valid()
      modifies this, data
      ensures Valid() && n == 1 && Meaning() == Apply(old(Meaning()), Write([b]))
      ensures Books() == Charge(old(Books()), old(Meaning()), Write([b]))
      ensures data == old(data) || fresh(data)
      ensures readHead == old(readHead) && writeHead == old(writeHead) + 1
      ensures data[..writeHead] == old(data[..writeHead]) + [b]
    {
      Adjust(1);
      data[writeHead] := b;
      writeHead := writeHead + 1;
      n := 1;
    }

    /**
     * Reads all the bytes asked for or none. Where the guard's sum wraps, the copy would run
     * past the buffer: that is reported as a fault, and the read head wraps as the sum does.
     */
    method ReadBytes(size: nat) returns (n: nat, out: seq<byte>, fault: bool)
      requires Valid() && size < SIZE_LIMIT && writeHead < SIZE_LIMIT
      modifies this`readHead
      ensures Valid()
      ensures fault <==> old(readHead) + size >= SIZE_LIMIT
      ensures !fault ==> Meaning() == Apply(old(Meaning()), Read(size))
      ensures Books() == Charge(old(Books()), old(Meaning()), Read(size))
      ensures !fault && size <= writeHead - old(readHead) ==>
                n == size && readHead == old(readHead) + size && out == data[old(readHead)..readHead]
      ensures !fault && size > writeHead - old(readHead) ==> n == 0 && out == [] && readHead == old(readHead)
      ensures !fault ==> out == Delivered(old(Meaning()), size) && n == |out|
      ensures fault ==> n == size && readHead == old(readHead) + size - SIZE_LIMIT
    {
      GuardIsRightIff(readHead, size, writeHead);
      if !GuardPasses(readHead, size, writeHead) {
        return 0, [], false;
      }
      ghost var all := data[..writeHead];
      hide GuardPasses;
      fault := readHead + size > writeHead;
      out := [];
      if fault {
        WrapsOnce(readHead + size);
      } else {
        out := data[readHead..readHead + size];
        assert forall k | 0 <= k < size :: out[k] == all[readHead + k];
        assert out == all[readHead..readHead + size];
      }
      readHead := WrapSize(readHead + size);
      n := size;
    }

    method ReadByte() returns (n: nat, b: byte)
      requires Valid()
      modifies this`readHead
      ensures Valid() && Meaning() == Apply(old(Meaning()), Read(1))
      ensures Books() == Charge(old(Books()), old(Meaning()), Read(1))
      ensures n == |Delivered(old(Meaning()), 1)| && (n == 1 ==> [b] == Delivered(old(Meaning()), 1))
      ensures if old(readHead) < writeHead then n == 1 && b == data[old(readHead)] && readHead == old(readHead) + 1
              else n == 0 && readHead == old(readHead)
    {
      b := 0;
      if readHead + 1 > writeHead {
        return 0, b;
      }
      b := data[readHead];
      assert [b] == data[..writeHead][readHead..readHead + 1];
      readHead := readHead + 1;
      n := 1;
    }

    /** Drops what has been read, moving the rest to the front. */
    method PackBytes()
      requires Valid()
      modifies this`readHead, this`writeHead, data
      ensures Valid() && Meaning() == Apply(old(Meaning()), Pack)
      ensures Books() == Charge(old(Books()), old(Meaning()), Pack)
      ensures readHead == 0 && data[..writeHead] == old(data[readHead..writeHead])
    {
      if readHead == writeHead {
        ResetHeads();
      } else if readHead > 0 {
        var remaining := writeHead - readHead;
        ghost var rest := data[readHead..writeHead];
        assert rest == data[..writeHead][readHead..];
        forall i | 0 <= i < remaining {
          data[i] := data[readHead + i];
        }
        writeHead, readHead := remaining, 0;
        assert data[..writeHead] == rest;
      }
    }

    method ResetHeads()
      requires Valid()
      modifies this`readHead, this`writeHead
      ensures Valid() && Meaning() == Apply(old(Meaning()), Reset)
      ensures Books() == Charge(old(Books()), old(Meaning()), Reset)
      ensures readHead == writeHead == 0
    {
      readHead := 0;
      writeHead := 0;
    }

    method FlipHeads()
      requires Valid()
      modifies this`readHead
      ensures Valid() && Meaning() == Apply(old(Meaning()), Flip)
      ensures Books() == Charge(old(Books()), old(Meaning()), Flip)
      ensures readHead == 0 && writeHead == old(writeHead)
    {
      readHead := 0;
    }
  }
}
