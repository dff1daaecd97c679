/**
 * The overwriting ring buffer of 27_driver/ringbuf_driver.c, and the runs of reads and
 * writes a device sees between two resizes.
 */
module RingBuffer {
  import opened Wrappers

  const EINVAL: int := 22
  const ENOMEM: int := 12
  const ERESTARTSYS: int := 512

  /** How one copy from user memory ends; a failed one may leave anything in its destination. */
  datatype Copy = Copied | Faulted(left: Bytes)

  /** How one copy to user memory ends; a failed one may have delivered some bytes. */
  datatype Delivery = Delivered | Stopped(k: nat)

  /** What a failed copy leaves in a destination of n bytes. */
  function LeftBehind(copy: Copy, n: nat): (b: Bytes)
    requires copy.Faulted?
    ensures |b| == n && (|copy.left| == n ==> b == copy.left)
  {
    seq(n, i requires 0 <= i < n => if i < |copy.left| then copy.left[i] else 0)
  }

  /** What a copy of the bytes stores. */
  function StoredBy(copy: Copy, bytes: Bytes): (b: Bytes)
    ensures |b| == |bytes|
  {
    if copy.Copied? then bytes else LeftBehind(copy, |bytes|)
  }

  // ------------------------------------------------- what writes and reads do

  /** The last n bytes. */
  function Last(s: Bytes, n: nat): (r: Bytes)
    ensures |r| == Min(n, |s|)
  {
    s[|s| - Min(n, |s|)..]
  }

  /** How many of count old bytes have to go for n new ones, of which at most size are kept. */
  function Excess(count: nat, n: nat, size: nat): (k: nat)
    ensures count <= size ==> k <= count
  {
    if count + n <= size then 0 else if n < size then count + n - size else count
  }

  /** The contents after a write whose copies succeeded: the last size bytes of old and new. */
  function Written(c: Bytes, size: nat, input: Bytes): Bytes {
    Last(c + input, size)
  }

  /** The contents after a write whose copy failed: what room was made for has gone. */
  function Evicted(c: Bytes, size: nat, input: Bytes): (r: Bytes)
    requires |c| <= size
    ensures |r| + Min(|input|, size) <= size
  {
    Last(c, size - Min(|input|, size))
  }

  /** What a write keeps, in positions: the old bytes that need not go, and the last size new ones. */
  lemma WriteKeeps(c: Bytes, size: nat, input: Bytes)
    requires |c| <= size
    ensures Evicted(c, size, input) == c[Excess(|c|, |input|, size)..]
    ensures Written(c, size, input)
         == c[Excess(|c|, |input|, size)..] + if |input| <= size then input else input[|input| - size..]
  {
  }

  lemma Product(q: int, n: nat)
    ensures q >= 2 ==> q * n >= 2 * n
    ensures q <= 0 ==> q * n <= 0
  {
    if q >= 2 {
      assert (q - 2) * n >= 0;
    }
  }

  /** a modulo n, for a below 2n. */
  function Wrap(a: nat, n: nat): (r: nat)
    requires a < 2 * n
    ensures r == if a < n then a else a - n
  {
    var q := a / n;
    assert a == q * n + a % n;
    Product(q, n);
    a % n
  }

  /** Position i past the reading position, on the ring. */
  function At(start: nat, i: nat, size: nat): (k: nat)
    requires start < size && i <= size
    ensures k < size
  {
    if start + i < size then start + i else start + i - size
  }

  /** The count bytes that start at a position of the ring. */
  function OnRing(d: Bytes, start: nat, count: nat): (c: Bytes)
    requires start < |d| && count <= |d|
    ensures |c| == count
    ensures forall i | 0 <= i < count :: c[i] == d[At(start, i, |d|)]
  {
    seq(count, i requires 0 <= i < count => d[At(start, i, |d|)])
  }

  /** The bytes d with b written over them at a position. */
  function Store(d: Bytes, at: nat, b: Bytes): (r: Bytes)
    requires at + |b| <= |d|
    ensures |r| == |d|
    ensures forall k | 0 <= k < |d| :: r[k] == if at <= k < at + |b| then b[k - at] else d[k]
  {
    d[..at] + b + d[at + |b|..]
  }

  lemma AtPlus(start: nat, i: nat, k: nat, size: nat)
    requires start < size && i + k <= size
    ensures At(start, i + k, size) == if At(start, i, size) + k < size then At(start, i, size) + k
                                      else At(start, i, size) + k - size
  {
  }

  /** Moving the reading position on drops bytes from the front. */
  lemma Advance(d: Bytes, start: nat, count: nat, drop: nat)
    requires start < |d| && drop <= count <= |d|
    ensures OnRing(d, At(start, drop, |d|), count - drop) == OnRing(d, start, count)[drop..]
    ensures At(At(start, drop, |d|), count - drop, |d|) == At(start, count, |d|)
  {
  }

  lemma FirstOnRing(d: Bytes, start: nat, count: nat, k: nat)
    requires start < |d| && k <= count <= |d|
    ensures OnRing(d, start, count)[..k] == OnRing(d, start, k)
  {
  }

  /** Writing after the last byte, up to the end of the array, only appends. */
  lemma StoreAppends(d: Bytes, start: nat, count: nat, b: Bytes)
    requires start < |d| && count + |b| <= |d| && At(start, count, |d|) + |b| <= |d|
    ensures OnRing(Store(d, At(start, count, |d|), b), start, count) == OnRing(d, start, count)
    ensures OnRing(Store(d, At(start, count, |d|), b), start, count + |b|) == OnRing(d, start, count) + b
  {
  }

  /** Writing up to the end of the array and on from its start appends the two parts. */
  lemma TwoStoresAppend(d: Bytes, start: nat, count: nat, a: Bytes, b: Bytes)
    requires start < |d| && count + |a| + |b| <= |d| && At(start, count, |d|) + |a| == |d| && a != [] && b != []
    ensures var d' := Store(Store(d, At(start, count, |d|), a), 0, b);
            OnRing(d', start, count) == OnRing(d, start, count) &&
            OnRing(d', start, count + |a| + |b|) == OnRing(d, start, count) + a + b
  {
    hide OnRing, Store, At;
    var d1 := Store(d, At(start, count, |d|), a);
    StoreAppends(d, start, count, a);
    AtPlus(start, count, |a|, |d|);
    StoreAppends(d1, start, count + |a|, b);
    FirstOnRing(d1, start, count + |a|, count);
    FirstOnRing(Store(d1, 0, b), start, count + |a|, count);
  }

  /** The writing position, moved on by len, is again the one behind the contents. */
  lemma MovedOn(start: nat, count: nat, len: nat, size: nat)
    requires start < size && count + len <= size
    ensures Wrap(At(start, count, size) + len, size) == At(start, count + len, size)
  {
    hide Wrap;
    AtPlus(start, count, len, size);
  }

  /** The last size bytes of old and new are what is kept of the old, then what fits of the new. */
  lemma Evicts(c: Bytes, size: nat, input: Bytes)
    requires |c| <= size
    ensures Evicted(c, size, input) + Last(input, size) == Written(c, size, input)
  {
  }

  class RingBuffer {
    var data: array?<byte>
    var size: nat
    var count: nat
    var readPos: nat
    var writePos: nat

    ghost predicate Valid()
      reads this, data
    {
      data != null ==>
        && data.Length == size > 0
        && count <= size && readPos < size
        && writePos == At(readPos, count, size)
    }

    ghost function Contents(): (c: Bytes)
      requires Valid()
      reads this, data
      ensures data != null ==> |c| == count
    {
      if data == null then [] else OnRing(data[..], readPos, count)
    }

    constructor ()
      ensures Valid() && data == null && size == 16
    {
      data := null;
      size, count, readPos, writePos := 16, 0, 0, 0;
    }

    /** ringbuf_init and buf_size_set: a new empty buffer, or none when memory runs out. */
    method SetSize(newSize: int, gotMemory: bool) returns (ret: int)
      requires Valid()
      modifies this
      ensures Valid()
      ensures ret == if newSize < 16 || newSize > 65536 then -22 else if gotMemory then 0 else -12
      ensures ret == 0 ==> data != null && fresh(data) && size == newSize && Contents() == []
      ensures ret == -12 ==> data == null && Contents() == []
      ensures ret == -22 ==> size == old(size) && data == old(data) && Contents() == old(Contents())
    {
      if newSize < 16 || newSize > 65536 {
        return -EINVAL;
      }
      data := null;
      if !gotMemory {
        return -ENOMEM;
      }
      data := new byte[newSize];
      size := newSize;
      count := 0;
      readPos := 0;
      writePos := 0;
      return 0;
    }

    /** copy_from_user to a position. */
    method CopyIn(at: nat, bytes: Bytes, copy: Copy) returns (ok: bool)
      requires data != null && at + |bytes| <= data.Length
      modifies data
      ensures ok <==> copy.Copied?
      ensures data[..] == Store(old(data[..]), at, StoredBy(copy, bytes))
    {
      ok := copy.Copied?;
      var stored := StoredBy(copy, bytes);
      forall i | 0 <= i < |bytes| {
        data[at + i] := stored[i];
      }
    }

    /** The eviction step of ringbuf_write: old bytes go until len bytes fit. */
    method MakeRoom(len: nat)
      requires Valid() && data != null && len <= size
      modifies this`readPos, this`count
      ensures Valid() && count + len <= size
      ensures Contents() == Last(old(Contents()), size - len)
    {
      hide OnRing, At, Wrap;
      if len > size - count {
        var excess := len - (size - count);
        Advance(data[..], readPos, count, excess);
        AtIsWrap(readPos, excess, size);
        readPos := Wrap(readPos + excess, size);
        count := count - excess;
      }
    }

    /** The copying step of ringbuf_write, once there is room; a fault touches free slots only. */
    method Place(input: Bytes, copy1: Copy, copy2: Copy) returns (ok: bool)
      requires Valid() && data != null && 0 < |input| && count + |input| <= size
      modifies this`writePos, this`count, data
      ensures Valid()
      ensures ok <==> copy1.Copied? && (copy2.Copied? || old(FirstPart(|input|)) == |input|)
      ensures Contents() == if ok then old(Contents()) + input else old(Contents())
    {
      hide OnRing, Store, At, Wrap, StoredBy;
      var len := |input|;
      ghost var d := data[..];
      var toWrite := Min(len, size - writePos);
      ghost var first, second := StoredBy(copy1, input[..toWrite]), StoredBy(copy2, input[toWrite..]);
      StoreAppends(d, readPos, count, first);
      ok := CopyIn(writePos, input[..toWrite], copy1);
      if !ok {
        return;
      }
      if len - toWrite != 0 {
        TwoStoresAppend(d, readPos, count, first, second);
        ok := CopyIn(0, input[toWrite..], copy2);
        if !ok {
          return;
        }
      }
      Parts(OnRing(d, readPos, count), input, toWrite, copy1, copy2);
      MovedOn(readPos, count, len, size);
      writePos := Wrap(writePos + len, size);
      count := count + len;
    }

    /** ringbuf_write, given how its one or two copies end. */
    method Write(ubuf: Bytes, copy1: Copy, copy2: Copy) returns (ret: nat)
      requires Valid()
      modifies this, data
      ensures Valid() && data == old(data) && size == old(size)
      ensures data == null || ubuf == [] ==> ret == 0 && Contents() == old(Contents())
      ensures data != null && ubuf != [] ==>
                if copy1.Copied? && (copy2.Copied? || old(FirstPart(|ubuf|)) == Min(|ubuf|, size))
                then ret == Min(|ubuf|, size) && Contents() == Written(old(Contents()), size, ubuf)
                else ret == 0 && Contents() == Evicted(old(Contents()), size, ubuf)
    {
      hide OnRing, Store, At, Wrap, Last;
      if data == null || |ubuf| == 0 {
        return 0;
      }
      var from, len := 0, |ubuf|;
      if len > size {
        from := from + (len - size);
        len := size;
      }
      LastFrom(ubuf, size, from);
      Evicts(Contents(), size, ubuf);
      MakeRoom(len);
      var ok := Place(ubuf[from..], copy1, copy2);
      ret := if ok then len else 0;
    }

    /** ringbuf_peek: what reaches the user, given how its one or two copies end. */
    method Peek(len: nat, copy1: Delivery, copy2: Delivery) returns (ret: nat, out: Bytes)
      requires Valid()
      ensures ret == if PeekFails(len, copy1, copy2) then 0 else Min(len, |Contents()|)
      ensures out <= Contents() && (!PeekFails(len, copy1, copy2) ==> |out| == ret)
    {
      out := [];
      if data == null || count == 0 {
        return 0, out;
      }
      var avail := Min(len, count);
      if avail == 0 {
        return 0, out;
      }
      var part1 := Min(avail, size - readPos);
      if copy1.Stopped? {
        out := data[readPos..readPos + Min(copy1.k, part1)];
        return 0, out;
      }
      out := data[readPos..readPos + part1];
      var part2 := avail - part1;
      if part2 != 0 {
        if copy2.Stopped? {
          out := out + data[..Min(copy2.k, part2)];
          return 0, out;
        }
        out := out + data[..part2];
      }
      ret := avail;
    }

    /** A copy that is needed does not go through. */
    ghost predicate PeekFails(len: nat, copy1: Delivery, copy2: Delivery)
      requires Valid()
      reads this, data
    {
      Min(len, |Contents()|) > 0 && (copy1.Stopped? || (copy2.Stopped? && Min(len, count) > size - readPos))
    }

    /** ringbuf_discard. */
    method Discard(len: nat)
      requires Valid()
      modifies this`readPos, this`count
      ensures Valid()
      ensures Contents() == if len <= |old(Contents())| then old(Contents())[len..] else old(Contents())
    {
      hide OnRing, At, Wrap;
      if data == null || len > count {
        return;
      }
      Advance(data[..], readPos, count, len);
      AtIsWrap(readPos, len, size);
      readPos := Wrap(readPos + len, size);
      count := count - len;
    }

    /** dev_read; an interrupted wait for the mutex does nothing. */
    method DevRead(interrupted: bool, off: int, len: nat, copy1: Delivery, copy2: Delivery)
      returns (ret: int, off': int, out: Bytes, ghost e: Event)
      requires Valid()
      modifies this`readPos, this`count
      ensures Valid()
      ensures e == if interrupted || old(PeekFails(len, copy1, copy2)) then Nothing else Fetched(len)
      ensures ret == if interrupted then -512 else if e == Nothing then 0 else Min(len, |old(Contents())|)
      ensures off' == if ret > 0 then off + ret else off
      ensures out <= old(Contents()) && (e != Nothing ==> |out| == ret)
      ensures Step(size, Device(old(Contents()), [], []), e)
           == Device(Contents(), if e == Nothing then [] else out, [])
    {
      hide OnRing, At, Wrap, Step;
      ghost var c := Contents();
      FetchedStep(size, c, len, Min(len, |c|));
      off' := off;
      if interrupted {
        return -ERESTARTSYS, off', [], Nothing;
      }
      e := if PeekFails(len, copy1, copy2) then Nothing else Fetched(len);
      ret, out := Peek(len, copy1, copy2);
      if ret > 0 {
        Discard(ret);
        off' := off' + ret;
      }
    }

    /** dev_write. */
    method DevWrite(interrupted: bool, ubuf: Bytes, copy1: Copy, copy2: Copy) returns (ret: int, ghost e: Event)
      requires Valid()
      modifies this, data
      ensures Valid() && data == old(data) && size == old(size)
      ensures ret == if interrupted then -512 else if e.Stored? then Min(|ubuf|, size) else 0
      ensures interrupted ==> e == Nothing
      ensures e.Stored? && ret == 0 ==> ubuf == []
      ensures old(data) != null && !interrupted && copy1.Copied? && copy2.Copied? ==> e == Stored(ubuf)
      ensures !interrupted ==> e == if old(WriteGoesThrough(ubuf, copy1, copy2)) then Stored(ubuf) else Rejected(ubuf)
      ensures Step(size, Device(old(Contents()), [], []), e) == Device(Contents(), [], if e.Stored? then ubuf else [])
    {
      hide OnRing, At, FirstPart;
      if interrupted {
        return -ERESTARTSYS, Nothing;
      }
      e := if WriteGoesThrough(ubuf, copy1, copy2) then Stored(ubuf) else Rejected(ubuf);
      ret := Write(ubuf, copy1, copy2);
    }

    /** Every copy that is needed goes through, or none is. */
    ghost predicate WriteGoesThrough(ubuf: Bytes, copy1: Copy, copy2: Copy)
      requires Valid()
      reads this, data
    {
      ubuf == [] ||
      (data != null && copy1.Copied? && (copy2.Copied? || FirstPart(|ubuf|) == Min(|ubuf|, size)))
    }

    /** How much of a write fits between the writing position and the end of the array. */
    ghost function FirstPart(n: nat): nat
      requires Valid() && data != null
      reads this, data
    {
      Min(Min(n, size), size - writePos)
    }
  }

  lemma AtIsWrap(start: nat, i: nat, size: nat)
    requires start < size && i <= size
    ensures At(start, i, size) == Wrap(start + i, size)
  {
  }

  /** Two parts, one after the other, are the whole. */
  lemma Parts(c: Bytes, s: Bytes, k: nat, copy1: Copy, copy2: Copy)
    requires k <= |s| && copy1.Copied?
    ensures copy2.Copied? ==> c + StoredBy(copy1, s[..k]) + StoredBy(copy2, s[k..]) == c + s
    ensures k == |s| ==> c + StoredBy(copy1, s[..k]) == c + s
  {
  }

  lemma LastFrom(s: Bytes, n: nat, from: nat)
    requires from == |s| - Min(n, |s|)
    ensures Last(s, n) == s[from..]
  {
  }

  // ------------------------------------------------------------------ runs

  /** A call on the device and how it ended. */
  datatype Event = Stored(input: Bytes) | Rejected(lost: Bytes) | Fetched(n: nat) | Nothing

  /** What is resident, and everything read and successfully written so far. */
  datatype Device = Device(resident: Bytes, got: Bytes, sent: Bytes)

  function Step(size: nat, s: Device, e: Event): Device {
    match e
    case Stored(input) => Device(Written(s.resident, size, input), s.got, s.sent + input)
    case Rejected(lost) =>
      if |s.resident| <= size then s.(resident := Evicted(s.resident, size, lost)) else s
    case Fetched(n) =>
      var k := Min(n, |s.resident|);
      Device(s.resident[k..], s.got + s.resident[..k], s.sent)
    case Nothing => s
  }

  lemma FetchedStep(size: nat, c: Bytes, n: nat, k: nat)
    requires k == Min(n, |c|)
    ensures Step(size, Device(c, [], []), Fetched(n)) == Device(c[k..], c[..k], [])
    ensures Step(size, Device(c, [], []), Nothing) == Device(c, [], [])
    ensures k == 0 ==> c[k..] == c && c[..k] == []
  {
  }

  /** The event pushes bytes out before they have been read. */
  predicate Loses(size: nat, s: Device, e: Event) {
    match e
    case Stored(input) => |s.resident| + |input| > size
    case Rejected(lost) => |s.resident| + Min(|lost|, size) > size
    case _ => false
  }

  /** The device after the first k events on an empty buffer. */
  function After(size: nat, events: seq<Event>, k: nat): Device
    requires k <= |events|
  {
    if k == 0 then Device([], [], []) else Step(size, After(size, events, k - 1), events[k - 1])
  }

  predicate Suffix(a: Bytes, b: Bytes) {
    |a| <= |b| && a == b[|b| - |a|..]
  }

  /** a is b with some bytes left out. */
  predicate Subsequence(a: Bytes, b: Bytes) {
    if a == [] then true
    else
      b != [] &&
      ((a[|a| - 1] == b[|b| - 1] && Subsequence(a[..|a| - 1], b[..|b| - 1])) || Subsequence(a, b[..|b| - 1]))
  }

  /** Increasing positions in b at which the bytes of a stand. */
  ghost predicate Picks(a: Bytes, b: Bytes, at: seq<nat>) {
    && |at| == |a|
    && (forall i | 0 <= i < |a| :: at[i] < |b| && a[i] == b[at[i]])
    && forall i, k | 0 <= i < k < |a| :: at[i] < at[k]
  }

  /** A subsequence is picked out by increasing positions. */
  lemma {:induction false} SubsequencePicks(a: Bytes, b: Bytes) returns (at: seq<nat>)
    requires Subsequence(a, b)
    ensures Picks(a, b, at)
  {
    if a == [] {
      at := [];
    } else {
      var a', b' := a[..|a| - 1], b[..|b| - 1];
      if a[|a| - 1] == b[|b| - 1] && Subsequence(a', b') {
        at := SubsequencePicks(a', b');
        at := at + [|b| - 1];
      } else {
        at := SubsequencePicks(a, b');
      }
    }
  }

  lemma {:induction false} SubsequenceInit(a: Bytes, b: Bytes)
    requires a != [] && Subsequence(a, b)
    ensures Subsequence(a[..|a| - 1], b)
  {
    var a', b' := a[..|a| - 1], b[..|b| - 1];
    if Subsequence(a, b') {
      SubsequenceInit(a, b');
    }
    if a' != [] && Subsequence(a', b') {
      assert Subsequence(a', b);
    }
  }

  /** Leaving a stretch out of the middle keeps a subsequence. */
  lemma {:induction false} SubsequenceWithout(p: Bytes, m: Bytes, q: Bytes, b: Bytes)
    requires Subsequence(p + m + q, b)
    ensures Subsequence(p + q, b)
    decreases |m| + |q| + |b|
  {
    var a := p + m + q;
    if q != [] {
      var q', b' := q[..|q| - 1], b[..|b| - 1];
      assert a[..|a| - 1] == p + m + q' && (p + q)[..|p + q| - 1] == p + q';
      if a[|a| - 1] == b[|b| - 1] && Subsequence(a[..|a| - 1], b') {
        SubsequenceWithout(p, m, q', b');
      } else {
        SubsequenceWithout(p, m, q, b');
      }
    } else if m != [] {
      SubsequenceInit(a, b);
      assert a[..|a| - 1] == p + m[..|m| - 1] + q;
      SubsequenceWithout(p, m[..|m| - 1], q, b);
    } else {
      assert a == p + q;
    }
  }

  lemma {:induction false} SubsequenceAppend(a: Bytes, b: Bytes, x: Bytes)
    requires Subsequence(a, b)
    ensures Subsequence(a + x, b + x)
  {
    if x == [] {
      assert a + x == a && b + x == b;
    } else {
      var x' := x[..|x| - 1];
      SubsequenceAppend(a, b, x');
      assert (a + x)[..|a + x| - 1] == a + x' && (b + x)[..|b + x| - 1] == b + x';
    }
  }

  /** Bytes leave in order, the resident ones are the latest, and none is made up. */
  ghost predicate DeviceInv(size: nat, s: Device) {
    && |s.resident| <= size
    && Suffix(s.resident, s.sent)
    && Subsequence(s.got + s.resident, s.sent)
  }

  lemma WriteKeepsInv(size: nat, s: Device, input: Bytes)
    requires DeviceInv(size, s)
    ensures DeviceInv(size, Step(size, s, Stored(input)))
  {
    hide Subsequence;
    var c, s' := s.resident + input, Step(size, s, Stored(input));
    var m := c[..|c| - |s'.resident|];
    SubsequenceAppend(s.got + s.resident, s.sent, input);
    assert s.got + s.resident + input == s.got + m + s'.resident;
    SubsequenceWithout(s.got, m, s'.resident, s'.sent);
    SuffixAppend(s.resident, s.sent, input);
    SuffixTail(c, s'.sent, |c| - |s'.resident|);
  }

  lemma SuffixAppend(a: Bytes, b: Bytes, x: Bytes)
    requires Suffix(a, b)
    ensures Suffix(a + x, b + x)
  {
  }

  lemma SuffixTail(a: Bytes, b: Bytes, k: nat)
    requires Suffix(a, b) && k <= |a|
    ensures Suffix(a[k..], b)
  {
  }

  lemma FaultKeepsInv(size: nat, s: Device, lost: Bytes)
    requires DeviceInv(size, s)
    ensures DeviceInv(size, Step(size, s, Rejected(lost)))
  {
    var c, s' := s.resident, Step(size, s, Rejected(lost));
    var m := c[..|c| - |s'.resident|];
    assert s.got + c == s.got + m + s'.resident;
    SubsequenceWithout(s.got, m, s'.resident, s.sent);
  }

  /** Over any run, reads and residents are a subsequence of the writes, residents a suffix. */
  lemma {:induction false} RunKeepsInv(size: nat, events: seq<Event>, k: nat)
    requires k <= |events|
    ensures DeviceInv(size, After(size, events, k))
  {
    hide Subsequence, Written, Evicted, Suffix;
    if k == 0 {
      NothingYet(size);
    } else {
      var s := After(size, events, k - 1);
      RunKeepsInv(size, events, k - 1);
      match events[k - 1]
      case Stored(input) => WriteKeepsInv(size, s, input);
      case Rejected(lost) => FaultKeepsInv(size, s, lost);
      case Fetched(n) => ReadKeepsInv(size, s, n);
      case Nothing =>
    }
  }

  lemma NothingYet(size: nat)
    ensures DeviceInv(size, Device([], [], []))
  {
  }

  lemma ReadKeepsInv(size: nat, s: Device, n: nat)
    requires DeviceInv(size, s)
    ensures DeviceInv(size, Step(size, s, Fetched(n)))
  {
    var k := Min(n, |s.resident|);
    assert s.got + s.resident == (s.got + s.resident[..k]) + s.resident[k..];
  }

  /** Nothing written is lost exactly when no write ever had to push bytes out. */
  lemma {:induction false} LosslessIff(size: nat, events: seq<Event>, k: nat)
    requires k <= |events|
    ensures var s := After(size, events, k);
            && |s.got| + |s.resident| <= |s.sent| && |s.resident| <= size
            && (s.got + s.resident == s.sent <==>
                forall i: nat | i < k :: !Loses(size, After(size, events, i), events[i]))
            && (|s.got| + |s.resident| == |s.sent| ==> s.got + s.resident == s.sent)
  {
    hide Step, Loses;
    if k > 0 {
      var s, e := After(size, events, k - 1), events[k - 1];
      LosslessIff(size, events, k - 1);
      LosslessStep(size, s, e);
    }
  }

  lemma LosslessStep(size: nat, s: Device, e: Event)
    requires |s.got| + |s.resident| <= |s.sent| && |s.resident| <= size
    requires |s.got| + |s.resident| == |s.sent| ==> s.got + s.resident == s.sent
    ensures var s' := Step(size, s, e);
            && |s'.got| + |s'.resident| <= |s'.sent| && |s'.resident| <= size
            && (|s'.got| + |s'.resident| == |s'.sent| ==> s'.got + s'.resident == s'.sent)
            && (|s'.got| + |s'.resident| == |s'.sent| <==>
                |s.got| + |s.resident| == |s.sent| && !Loses(size, s, e))
  {
    var s' := Step(size, s, e);
    match e
    case Stored(input) =>
      if |s.got| + |s.resident| == |s.sent| && !Loses(size, s, e) {
        assert s'.got + s'.resident == s.got + s.resident + input;
      }
    case Rejected(lost) =>
      if !Loses(size, s, e) {
        assert s'.resident == s.resident;
      }
    case Fetched(n) =>
      assert s'.got + s'.resident == s.got + s.resident;
    case Nothing =>
  }

  // ----------------------------------------------------- runs of the device

  datatype Call =
    | Read(interrupted: bool, len: nat, out1: Delivery, out2: Delivery)
    | Write(interrupted: bool, ubuf: Bytes, in1: Copy, in2: Copy)

  /** An event that the call can lead to. */
  predicate Describes(e: Event, call: Call) {
    match call
    case Read(interrupted, len, out1, out2) =>
      if interrupted then e == Nothing
      else e == Fetched(len) || (e == Nothing && (out1.Stopped? || out2.Stopped?))
    case Write(interrupted, ubuf, _, _) =>
      if interrupted then e == Nothing else e == Stored(ubuf) || e == Rejected(ubuf)
  }

  /** No write is interrupted or meets a fault. */
  predicate Smooth(calls: seq<Call>) {
    forall call | call in calls && call.Write? :: !call.interrupted && call.in1.Copied? && call.in2.Copied?
  }

  /** All bytes that the calls write. */
  function Inputs(calls: seq<Call>): Bytes {
    if calls == [] then []
    else Inputs(calls[..|calls| - 1]) + if calls[|calls| - 1].Write? then calls[|calls| - 1].ubuf else []
  }

  lemma StepAdds(size: nat, s: Device, e: Event)
    ensures var r := Step(size, Device(s.resident, [], []), e);
            Step(size, s, e) == Device(r.resident, s.got + r.got, s.sent + r.sent)
  {
    assert s.got + [] == s.got && s.sent + [] == s.sent;
    assert forall b: Bytes :: [] + b == b;
  }

  lemma {:induction false} AfterLonger(size: nat, events: seq<Event>, e: Event, k: nat)
    requires k <= |events|
    ensures After(size, events + [e], k) == After(size, events, k)
  {
    hide Step;
    if k > 0 {
      AfterLonger(size, events, e, k - 1);
    }
  }

  /**
   * Calls on a buffer that starts empty, each with its outcome: the bytes reads have returned and
   * those that writes have stored are those of the run of events the calls amount to.
   */
  method Drive(rb: RingBuffer, calls: seq<Call>) returns (got: Bytes, sent: Bytes, ghost events: seq<Event>)
    requires rb.Valid() && rb.Contents() == []
    modifies rb, rb.data
    ensures rb.Valid() && rb.size == old(rb.size)
    ensures |events| == |calls| && forall i | 0 <= i < |calls| :: Describes(events[i], calls[i])
    ensures Device(rb.Contents(), got, sent) == After(rb.size, events, |events|)
    ensures DeviceInv(rb.size, Device(rb.Contents(), got, sent))
    ensures |rb.Contents()| <= |sent| && rb.Contents() == sent[|sent| - |rb.Contents()|..]
    ensures exists at :: Picks(got + rb.Contents(), sent, at)
    ensures old(rb.data) != null && Smooth(calls) ==> sent == Inputs(calls)
    ensures got + rb.Contents() == sent <==>
            forall i: nat | i < |events| :: !Loses(rb.size, After(rb.size, events, i), events[i])
  {
    hide RingBuffer.Valid, RingBuffer.Contents, Step, Loses, DeviceInv, Smooth, Inputs, Picks;
    NoInputs();
    got, sent, events := [], [], [];
    for i := 0 to |calls|
      invariant rb.Valid() && rb.size == old(rb.size) && rb.data == old(rb.data)
      invariant |events| == i && forall j | 0 <= j < i :: Describes(events[j], calls[j])
      invariant Device(rb.Contents(), got, sent) == After(rb.size, events, i)
      invariant rb.data != null && Smooth(calls) ==> sent == Inputs(calls[..i])
    {
      InputsNext(calls, i);
      ghost var s := Device(rb.Contents(), got, sent);
      ghost var e;
      match calls[i] {
        case Read(interrupted, len, out1, out2) =>
          var ret, off, out;
          ret, off, out, e := rb.DevRead(interrupted, 0, len, out1, out2);
          if ret > 0 {
            got := got + out;
          }
          assert e != Nothing ==> got == s.got + out;
        case Write(interrupted, ubuf, in1, in2) =>
          var ret;
          ret, e := rb.DevWrite(interrupted, ubuf, in1, in2);
          if ret > 0 {
            sent := sent + ubuf;
          }
          assert e.Stored? ==> sent == s.sent + ubuf;
      }
      StepAdds(rb.size, s, e);
      assert Device(rb.Contents(), got, sent) == Step(rb.size, s, e);
      AfterLonger(rb.size, events, e, i);
      events := events + [e];
      assert After(rb.size, events, i + 1) == Step(rb.size, s, e);
    }
    assert calls[..|calls|] == calls;
    RunKeepsInv(rb.size, events, |calls|);
    LosslessIff(rb.size, events, |calls|);
    KeptIs(rb.size, Device(rb.Contents(), got, sent));
  }

  lemma NoInputs()
    ensures Inputs([]) == []
  {
  }

  lemma InputsNext(calls: seq<Call>, i: nat)
    requires i < |calls|
    ensures Inputs(calls[..i + 1]) == Inputs(calls[..i]) + if calls[i].Write? then calls[i].ubuf else []
    ensures Smooth(calls) && calls[i].Write? ==>
              !calls[i].interrupted && calls[i].in1.Copied? && calls[i].in2.Copied?
  {
    assert calls[..i + 1][..i] == calls[..i] && calls[i] in calls;
  }

  lemma KeptIs(size: nat, s: Device)
    requires DeviceInv(size, s)
    ensures |s.resident| <= |s.sent| && s.resident == s.sent[|s.sent| - |s.resident|..]
    ensures exists at :: Picks(s.got + s.resident, s.sent, at)
  {
    hide Subsequence, Picks;
    var at := SubsequencePicks(s.got + s.resident, s.sent);
  }
}
