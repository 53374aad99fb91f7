/** SensorEventQueue.cpp: a ring buffer whose free region is handed out to be written without the lock. */
module SensorRing {
  import opened Options

  /** The k-th position after `start`, for k at most the capacity: (start + k) % capacity. */
  function Wrap(start: nat, k: nat, capacity: nat): (p: nat)
    requires start < capacity && k <= capacity
    ensures p < capacity
  {
    if start + k < capacity then start + k else start + k - capacity
  }

  lemma WrapIsMod(start: nat, k: nat, capacity: nat)
    requires start < capacity && k <= capacity
    ensures (start + k) % capacity == Wrap(start, k, capacity)
  {
    var x := start + k;
    TimesAtLeast(capacity, x / capacity);
  }

  lemma TimesAtLeast(c: nat, q: int)
    ensures q <= 0 ==> c * q <= 0
    ensures q == 1 ==> c * q == c
    ensures q >= 2 ==> c * q >= 2 * c
  {
    if q >= 2 {
      assert c * q == c * 2 + c * (q - 2);
    }
  }

  /** The value of a ring: the data array and the readable region. The capacity is |data|. */
  datatype Ring<T> = Ring(data: seq<T>, start: nat, size: nat) {

    ghost predicate Valid() {
      size <= |data| && (if |data| == 0 then start == 0 else start < |data|)
    }

    /** Does position p hold a readable event? */
    ghost predicate Readable(p: nat)
      requires Valid()
    {
      exists k: nat :: k < size && p == Wrap(start, k, |data|)
    }

    /** The readable events, oldest first. */
    ghost function Contents(): (s: seq<T>)
      requires Valid()
      ensures |s| == size
      ensures forall k :: 0 <= k < size ==> s[k] == data[Wrap(start, k, |data|)]
    {
      seq(size, k requires 0 <= k < size => data[Wrap(start, k, |data|)])
    }

    /** Where the next event will be written. */
    function FirstWritable(): nat
      requires 0 < |data| && start < |data| && size <= |data|
    {
      Wrap(start, size, |data|)
    }

    /** getWritableRegion: first position and length of the region handed out. */
    function WritableRegion(requested: int): (r: (nat, nat))
      requires size <= |data| && (|data| == 0 || start < |data|)
    {
      if size == |data| || requested <= 0 then (0, 0)
      else
        var first := FirstWritable();
        var last := if first + requested - 1 > |data| - 1 then |data| - 1 else first + requested - 1;
        if first < start && last >= start then (first, start - first) else (first, last - first + 1)
    }

    function MarkAsWritten(count: nat): Ring<T> {
      this.(size := size + count)
    }

    function Dequeue(): Ring<T>
      requires size <= |data| && (|data| == 0 || start < |data|)
    {
      if size == 0 then this else Ring(data, Wrap(start, 1, |data|), size - 1)
    }
  }

  /**
   * A region is handed out exactly when there is room and a positive request; it is the largest contiguous free
   * stretch after the readable events, cut to the request, and it overlaps none of them.
   */
  lemma RegionIsFree<T>(r: Ring<T>, requested: int)
    requires r.Valid()
    ensures var (first, len) := r.WritableRegion(requested);
      && (len == 0 <==> r.size == |r.data| || requested <= 0)
      && (len > 0 ==>
            && first == r.FirstWritable()
            && first + len <= |r.data| && len + r.size <= |r.data| && len <= requested
            && (len == requested || first + len == |r.data| || len + r.size == |r.data|)
            && forall p :: first <= p < first + len ==> !r.Readable(p))
  {
  }

  /** Writes into the free region do not change what is readable. */
  lemma WriteKeepsContents<T>(r: Ring<T>, first: nat, len: nat, p: nat, x: T)
    requires r.Valid() && 0 < |r.data| && first == r.FirstWritable()
    requires first + len <= |r.data| && len + r.size <= |r.data| && first <= p < first + len
    ensures var w := r.(data := r.data[p := x]); w.Valid() && w.Contents() == r.Contents()
  {
  }

  /** Marking publishes exactly the first `count` events of the region, behind what was readable. */
  lemma MarkAppends<T>(r: Ring<T>, first: nat, count: nat)
    requires r.Valid() && 0 < |r.data| && first == r.FirstWritable()
    requires first + count <= |r.data| && count + r.size <= |r.data|
    ensures r.MarkAsWritten(count).Valid()
    ensures r.MarkAsWritten(count).Contents() == r.Contents() + r.data[first..first + count]
  {
  }

  /** A dequeue removes the oldest event, and leaves the place of the next write alone. */
  lemma DequeueDrops<T>(r: Ring<T>)
    requires r.Valid()
    ensures r.Dequeue().Valid()
    ensures r.Dequeue().Contents() == if r.size == 0 then [] else r.Contents()[1..]
    ensures 0 < |r.data| ==> r.Dequeue().FirstWritable() == r.FirstWritable()
  {
  }

  class SensorEventQueue<T(0)> {
    const mCapacity: nat
    const mData: array<T>
    var mStart: nat
    var mSize: nat

    ghost function Value(): Ring<T>
      reads this, mData
    {
      Ring(mData[..], mStart, mSize)
    }

    ghost predicate Valid()
      reads this, mData
    {
      mData.Length == mCapacity && Value().Valid()
    }

    constructor (capacity: nat)
      ensures Valid() && fresh(mData) && mCapacity == capacity && Value().Contents() == []
    {
      mCapacity, mData, mStart, mSize := capacity, new T[capacity], 0, 0;
    }

    /** The pointer the source returns is &mData[first]; it is NULL when the length is 0. */
    method GetWritableRegion(requestedLength: int) returns (first: nat, len: nat)
      requires Valid()
      ensures (first, len) == Value().WritableRegion(requestedLength)
      ensures len == 0 <==> mSize == mCapacity || requestedLength <= 0
      ensures len > 0 ==> first + len <= mCapacity && forall p :: first <= p < first + len ==> !Value().Readable(p)
    {
      RegionIsFree(Value(), requestedLength);
      if mSize == mCapacity || requestedLength <= 0 {
        return 0, 0;
      }
      WrapIsMod(mStart, mSize, mCapacity);
      var firstWritable := (mStart + mSize) % mCapacity;
      var lastWritable := firstWritable + requestedLength - 1;
      if lastWritable > mCapacity - 1 {
        lastWritable := mCapacity - 1;
      }
      if firstWritable < mStart && lastWritable >= mStart {
        lastWritable := mStart - 1;
      }
      return firstWritable, lastWritable - firstWritable + 1;
    }

    /** Nothing checks the count: a count beyond the room breaks the queue, one within the region appends its events. */
    method MarkAsWritten(count: nat)
      requires Valid()
      modifies `mSize
      ensures Value() == old(Value()).MarkAsWritten(count)
      ensures Valid() <==> old(mSize) + count <= mCapacity
      ensures 0 < mCapacity ==>
        var first := old(Value().FirstWritable());
        first + count <= mCapacity && Valid() ==>
          Value().Contents() == old(Value().Contents()) + mData[first..first + count]
    {
      if 0 < mCapacity && Value().FirstWritable() + count <= mCapacity && mSize + count <= mCapacity {
        MarkAppends(Value(), Value().FirstWritable(), count);
      }
      mSize := mSize + count;
    }

    method Peek() returns (event: Option<T>)
      requires Valid()
      ensures event == if Value().Contents() == [] then None else Some(Value().Contents()[0])
    {
      if mSize == 0 { return None; }
      return Some(mData[mStart]);
    }

    /** The broadcast on mSpaceAvailableCondition is the result. */
    method Dequeue() returns (broadcast: bool)
      requires Valid()
      modifies `mSize, `mStart
      ensures Valid()
      ensures Value() == old(Value()).Dequeue()
      ensures Value().Contents() == if old(mSize) == 0 then [] else old(Value().Contents())[1..]
      ensures broadcast <==> 0 < old(mSize) == mCapacity
    {
      DequeueDrops(Value());
      if mSize == 0 { return false; }
      broadcast := mSize == mCapacity;
      WrapIsMod(mStart, 1, mCapacity);
      mSize := mSize - 1;
      mStart := (mStart + 1) % mCapacity;
    }
  }
}
