/** The ring's two calls as they run without interruption, in place on the sample array. */
module RingCode {
  import opened Ring

  /** `n` samples of the ring from position `t` on, across the end of the array. */
  ghost function Unwound<T>(buf: seq<T>, t: nat, n: nat): (c: seq<T>)
    requires |buf| > 0
    ensures |c| == n
  {
    seq(n, k requires 0 <= k < n => buf[Place(t + k, |buf|)])
  }

  /** The two runs of a write: up to the end of the array, and on from its start. */
  ghost predicate WrittenAt<T>(was: seq<T>, now: seq<T>, h: nat, src: seq<T>)
    requires h < |was|
  {
    && |now| == |was|
    && (forall i | 0 <= i < |src| ::
          0 <= Slot(h, i, |src|, |was|) < |was| && now[Slot(h, i, |src|, |was|)] == src[i])
    && (forall j | 0 <= j < |was| && (forall i | 0 <= i < |src| :: j != Slot(h, i, |src|, |was|)) :: now[j] == was[j])
  }

  lemma WriteExtends<T>(was: seq<T>, now: seq<T>, t: nat, u: nat, h: nat, src: seq<T>)
    requires |was| > 0 && h == Place(t + u, |was|) && u + |src| <= |was|
    requires WrittenAt(was, now, h, src)
    ensures Unwound(now, t, u + |src|) == Unwound(was, t, u) + src
  {
    var size := |was|;
    hide Slot;
    hide Place;
    forall k | 0 <= k < u + |src|
      ensures Unwound(now, t, u + |src|)[k] == (Unwound(was, t, u) + src)[k]
    {
      var j := Place(t + k, size);
      if k >= u {
        SlotIsPlace(t + u, h, k - u, |src|, size);
        assert j == Slot(h, k - u, |src|, size);
      } else {
        forall i | 0 <= i < |src|
          ensures j != Slot(h, i, |src|, size)
        {
          SlotIsPlace(t + u, h, i, |src|, size);
          PlacesDiffer(t + k, t + u + i, size);
        }
        assert now[j] == was[j];
      }
    }
  }

  lemma TwoRunsWrite<T>(was: seq<T>, now: seq<T>, h: nat, src: seq<T>, first: nat)
    requires h < |was| == |now| && |src| <= |was| && first == Min(|was| - h, |src|)
    requires forall j | 0 <= j < |was| ::
               now[j] == if h <= j < h + first then src[j - h] else if j < |src| - first then src[first + j] else was[j]
    ensures WrittenAt(was, now, h, src)
  {
  }

  /** The two runs of a read, from the end of the array and from its start. */
  lemma ReadTakes<T>(buf: seq<T>, t: nat, u: nat, n: nat, first: nat)
    requires t < |buf| && n <= u <= |buf| && first == Min(|buf| - t, n)
    ensures Unwound(buf, t, u) == buf[t..t + first] + buf[..n - first] + Unwound(buf, (t + n) % |buf|, u - n)
  {
    var size, data, rest := |buf|, buf[t..t + first] + buf[..n - first], Unwound(buf, (t + n) % |buf|, u - n);
    PlaceWraps(t, size, 0);
    ModUnique(t, size, 0, t);
    PlaceOfNext(t, t, n, size);
    forall k | 0 <= k < u
      ensures Unwound(buf, t, u)[k] == (data + rest)[k]
    {
      if k < n {
        SlotIsPlace(t, t, k, n, size);
      } else {
        PlaceWraps(t, size, k);
        SamePlace(t, n, k - n, size);
      }
    }
  }

  lemma SamePlace(t: nat, n: nat, k: nat, size: nat)
    requires t < size && n <= size && k <= size
    ensures Place((t + n) % size + k, size) == Place(t + n + k, size)
  {
    PlaceWraps(t + n, size, k);
    PlaceWraps((t + n) % size, size, k);
    ModUnique((t + n) % size, size, 0, (t + n) % size);
  }

  class SampleRing<T(0)> {
    const buffer: array<T>
    var head: nat
    var tail: nat
    var used: nat

    ghost predicate Valid()
      reads this
    {
      && 0 < buffer.Length && head < buffer.Length && tail < buffer.Length && used <= buffer.Length
      && head == Place(tail + used, buffer.Length)
    }

    /** The samples waiting to be read, oldest first. */
    ghost function Contents(): (c: seq<T>)
      requires Valid()
      reads this, buffer
    {
      Unwound(buffer[..], tail, used)
    }

    constructor (size: nat)
      requires size > 0
      ensures Valid() && buffer.Length == size && Contents() == []
    {
      buffer := new T[size];
      head, tail, used := 0, 0, 0;
    }

    /** Writes as much of `src` as there is room for. */
    method RingWrite(src: seq<T>) returns (n: nat)
      requires Valid()
      modifies this`head, this`used, buffer
      ensures Valid() && n == Min(|src|, buffer.Length - old(used))
      ensures Contents() == old(Contents()) + src[..n]
    {
      hide Unwound;
      hide Place;
      hide WrittenAt;
      var count, space := |src|, buffer.Length - used;
      if count > space {
        count := space;
      }
      ghost var t, u, size, was, put := tail, used, buffer.Length, buffer[..], src[..count];
      if count == 0 {
        assert Contents() == Contents() + src[..0];
        return 0;
      }
      var first := buffer.Length - head;
      if first > count {
        first := count;
      }
      forall i | 0 <= i < first {
        buffer[head + i] := src[i];
      }
      forall j | 0 <= j < count - first {
        buffer[j] := src[first + j];
      }
      TwoRunsWrite(was, buffer[..], head, put, first);
      WriteExtends(was, buffer[..], t, u, head, put);
      PlaceOfNext(t + u, head, count, size);
      head := (head + count) % buffer.Length;
      used := used + count;
      n := count;
    }

    /** Reads up to `want` of the oldest samples. */
    method RingRead(want: nat) returns (data: seq<T>)
      requires Valid()
      modifies this`tail, this`used
      ensures Valid() && |data| == Min(want, old(used))
      ensures old(Contents()) == data + Contents()
    {
      hide Unwound;
      hide Place;
      var count := want;
      if count > used {
        count := used;
      }
      if count == 0 {
        return [];
      }
      var first := buffer.Length - tail;
      if first > count {
        first := count;
      }
      data := buffer[tail..tail + first] + buffer[..count - first];
      ghost var t, u := tail, used;
      ghost var buf := buffer[..];
      assert data == buf[t..t + first] + buf[..count - first];
      ReadTakes(buf, t, u, count, first);
      SamePlace(t, count, u - count, buffer.Length);
      tail := (tail + count) % buffer.Length;
      used := used - count;
    }
  }
}
