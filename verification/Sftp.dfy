/**
 * Reading a remote file through prefetching: requests that other threads send, replies that come in any order and
 * may be short, and a cache whose buffers are split as they are read.
 */
module Sftp {
  import opened Bytes

  const MAX_REQUEST_SIZE := 32768

  // ---- extents ----

  datatype Extent = Extent(offset: int, length: int)

  predicate Covers(e: Extent, b: int) {
    e.offset <= b < e.offset + e.length
  }

  ghost predicate CoveredAt(es: seq<Extent>, b: int) {
    exists e :: e in es && Covers(e, b)
  }

  /** Every byte of the range lies in some extent. */
  ghost predicate Covered(es: seq<Extent>, offset: int, size: int) {
    forall b :: offset <= b < offset + size ==> CoveredAt(es, b)
  }

  /** The extent with the greatest offset not beyond `offset`; of several the last, as a stable sort leaves it. */
  function LastBefore(es: seq<Extent>, offset: int): (k: int)
    ensures -1 <= k < |es|
    ensures k >= 0 ==> es[k].offset <= offset && forall e :: e in es && e.offset <= offset ==> e.offset <= es[k].offset
    ensures k == -1 ==> forall e :: e in es ==> e.offset > offset
  {
    if es == [] then -1
    else
      var n := |es| - 1;
      var k := LastBefore(es[..n], offset);
      if es[n].offset <= offset && (k == -1 || es[k].offset <= es[n].offset) then n else k
  }

  /** Whether outstanding requests cover a range, following one extent after another. */
  predicate DataInPrefetchRequests(es: seq<Extent>, offset: int, size: int)
    decreases if size > 0 then size else 0
  {
    var k := LastBefore(es, offset);
    if k == -1 then false
    else
      var end := es[k].offset + es[k].length;
      if end <= offset then false
      else if end >= offset + size then true
      else DataInPrefetchRequests(es, end, offset + size - end)
  }

  /** A positive answer is always right, whatever the extents are. */
  lemma {:induction false} FoundIsCovered(es: seq<Extent>, offset: int, size: int)
    requires DataInPrefetchRequests(es, offset, size)
    ensures Covered(es, offset, size)
    decreases if size > 0 then size else 0
  {
    var k := LastBefore(es, offset);
    var end := es[k].offset + es[k].length;
    assert es[k] in es;
    assert forall b :: offset <= b < end ==> Covers(es[k], b);
    if end >= offset + size {
    } else {
      FoundIsCovered(es, end, offset + size - end);
    }
  }

  ghost predicate Disjoint(es: seq<Extent>) {
    && (forall e :: e in es ==> e.length > 0)
    && (forall i, j :: 0 <= i < j < |es| ==>
          es[i].offset + es[i].length <= es[j].offset || es[j].offset + es[j].length <= es[i].offset)
  }

  lemma OnlyCoverIsLast(es: seq<Extent>, offset: int, i: nat)
    requires Disjoint(es) && i < |es| && Covers(es[i], offset)
    ensures LastBefore(es, offset) == i
  {
    var k := LastBefore(es, offset);
    assert es[i] in es;
    assert es[k] in es;
  }

  /** One step of the search, from an extent that covers its start. */
  lemma SearchStep(es: seq<Extent>, offset: int, size: int, i: nat)
    requires i < |es| && LastBefore(es, offset) == i && Covers(es[i], offset)
    ensures var end := es[i].offset + es[i].length;
            DataInPrefetchRequests(es, offset, size) <==>
            end >= offset + size || DataInPrefetchRequests(es, end, offset + size - end)
  {
  }

  lemma {:induction false} CoveredIsFound(es: seq<Extent>, offset: int, size: int)
    requires Disjoint(es) && size > 0 && Covered(es, offset, size)
    ensures DataInPrefetchRequests(es, offset, size)
    decreases size
  {
    hide DataInPrefetchRequests, LastBefore, Disjoint;
    assert CoveredAt(es, offset);
    var e :| e in es && Covers(e, offset);
    var i :| 0 <= i < |es| && es[i] == e;
    OnlyCoverIsLast(es, offset, i);
    SearchStep(es, offset, size, i);
    var end := e.offset + e.length;
    if end >= offset + size {
    } else {
      assert Covered(es, end, offset + size - end);
      CoveredIsFound(es, end, offset + size - end);
    }
  }

  /** For disjoint extents the answer is exact. */
  lemma PrefetchRequestsAreExact(es: seq<Extent>, offset: int, size: int)
    requires Disjoint(es) && size > 0
    ensures DataInPrefetchRequests(es, offset, size) <==> Covered(es, offset, size)
  {
    if Covered(es, offset, size) {
      CoveredIsFound(es, offset, size);
    }
    if DataInPrefetchRequests(es, offset, size) {
      FoundIsCovered(es, offset, size);
    }
  }

  // ---- buffers ----

  predicate SliceAt(file: bytes, offset: int, data: bytes) {
    0 <= offset && offset + |data| <= |file| && data == file[offset..offset + |data|]
  }

  lemma CutSlice(file: bytes, offset: int, data: bytes, k: nat)
    requires SliceAt(file, offset, data) && k <= |data|
    ensures SliceAt(file, offset, data[..k]) && SliceAt(file, offset + k, data[k..])
    ensures k == 0 ==> data[k..] == data
  {
  }

  datatype Found = NotFound | Found(index: int)

  lemma {:induction false} HasMax(s: set<int>)
    requires s != {}
    ensures exists m :: m in s && forall x :: x in s ==> x <= m
    decreases |s|
  {
    assert (forall x :: x !in s) ==> s == {};
    var x :| x in s;
    assert forall y :: y in s ==> y == x || y in s - {x};
    if s - {x} == {} {
      assert s == {x};
    } else {
      HasMax(s - {x});
      var m :| m in s - {x} && forall y :: y in s - {x} ==> y <= m;
      var best := if x > m then x else m;
      assert best in s && forall y :: y in s ==> y <= best;
    }
  }

  function MaxOf(s: set<int>): (m: int)
    requires s != {}
    ensures m in s && forall x :: x in s ==> x <= m
  {
    HasMax(s);
    var m :| m in s && forall x :: x in s ==> x <= m;
    m
  }

  /** The buffer at `k` is the one that starts last among those at or before `offset`. */
  ghost predicate Nearest(data: map<int, bytes>, offset: int, k: int) {
    k in data && k <= offset && forall j :: j in data && j <= offset ==> j <= k
  }

  /** That buffer holds the byte at `offset`. */
  ghost predicate CachedIn(data: map<int, bytes>, offset: int, k: int) {
    Nearest(data, offset, k) && offset < k + |data[k]|
  }

  ghost predicate Cached(data: map<int, bytes>, offset: int) {
    exists k :: CachedIn(data, offset, k)
  }

  /** The nearest buffer that starts at or before `offset`, if it reaches that far. */
  function DataInPrefetchBuffers(data: map<int, bytes>, offset: int): (r: Found)
    ensures r.Found? <==> Cached(data, offset)
    ensures r.Found? ==> CachedIn(data, offset, r.index)
  {
    var k := set i | i in data && i <= offset;
    assert forall i :: i in data && i <= offset ==> i in k;
    if k == {} then NotFound
    else
      var index := MaxOf(k);
      assert Nearest(data, offset, index);
      assert offset - index < |data[index]| ==> CachedIn(data, offset, index);
      if offset - index >= |data[index]| then NotFound else Found(index)
  }

  // ---- what a read is meant to return ----

  /** What is left of the buffers when `n` bytes at `p` are taken out of the one at `o`. */
  function Remaining(m: map<int, bytes>, o: int, p: int, n: nat): map<int, bytes>
    requires o in m && o <= p && p + n <= o + |m[o]|
  {
    var b := m[o];
    var before := if p > o then (m - {o})[o := b[..p - o]] else m - {o};
    if p + n < o + |b| then before[p + n := b[p - o + n..]] else before
  }

  /**
   * Nothing but the part taken out is lost: every other byte of the buffer stays cached, and so do the buffers that
   * start anywhere else than it or the part behind.
   */
  lemma RemainingLosesNothingElse(m: map<int, bytes>, o: int, p: int, n: nat, q: int, k: int)
    requires o in m && o <= p && p + n <= o + |m[o]| && n > 0
    requires o <= q < p || p + n <= q < o + |m[o]|
    ensures var r, at := Remaining(m, o, p, n), if q < p then o else p + n;
            at in r && at <= q < at + |r[at]| && r[at][q - at] == m[o][q - o]
    ensures k in m && k != o && k != p + n ==> k in Remaining(m, o, p, n) && Remaining(m, o, p, n)[k] == m[k]
  {
  }

  /** What was taken is gone, and what is left of the buffer stands in at most two places. */
  lemma TakenIsGone(m: map<int, bytes>, o: int, p: int, n: nat)
    requires o in m && o <= p && p + n <= o + |m[o]| && n > 0
    ensures var r, end := Remaining(m, o, p, n), o + |m[o]|;
            && (o in r <==> o < p) && (o < p ==> r[o] == m[o][..p - o])
            && (p + n < end ==> p + n in r && r[p + n] == m[o][p + n - o..])
            && forall k :: k in r && k != o && (k != p + n || p + n >= end) ==> k in m && r[k] == m[k]
  {
  }

  lemma RemainingIsTrue(file: bytes, m: map<int, bytes>, o: int, p: int, n: nat)
    requires o in m && o <= p && p + n <= o + |m[o]|
    requires forall k :: k in m ==> SliceAt(file, k, m[k])
    ensures forall k :: k in Remaining(m, o, p, n) ==> SliceAt(file, k, Remaining(m, o, p, n)[k])
  {
    var b := m[o];
    if o < p {
      CutSlice(file, o, b, p - o);
    }
    if p + n < o + |b| {
      CutSlice(file, o, b, p - o + n);
    }
  }

  lemma TakenIsTrue(file: bytes, o: int, b: bytes, p: int, n: nat)
    requires SliceAt(file, o, b) && o <= p && p + n <= o + |b| && n > 0
    ensures 0 <= p && p + n <= |file| && b[p - o..][..n] == file[p..p + n]
  {
    var taken, whole := b[p - o..][..n], file[p..p + n];
    assert forall i :: 0 <= i < n ==> taken[i] == whole[i];
  }

  function Clip(n: int, max: nat): (r: nat)
    ensures r <= max
  {
    if n < 0 then 0 else if n > max then max else n
  }

  /** At most `size` bytes of the file from `pos`; all of them for a negative size. */
  function FileSlice(file: bytes, pos: int, size: int): (r: bytes)
    ensures 0 <= pos <= |file| ==>
              |r| == (if 0 <= size < |file| - pos then size else |file| - pos) && r == file[pos..pos + |r|]
    ensures pos > |file| ==> r == []
  {
    var from := Clip(pos, |file|);
    var to := if size < 0 then |file| else Clip(pos + size, |file|);
    if from <= to then file[from..to] else []
  }

  // ---- the client ----

  datatype Owner = Sync | Prefetcher

  datatype Status = EndOfFile | Failure

  datatype Body = DataBody(data: bytes) | StatusBody(status: Status)

  /**
   * What happens while a thread waits for a packet: the server answers a request, with as much data as it likes or
   * with a failure; a reply to a number nobody waits for comes in; a prefetch thread moves on; or the line drops.
   */
  datatype Event = Answer(num: nat, k: nat) | Refuse(num: nat) | Stray(num: nat) | ThreadMoves(i: nat) | Dropped

  datatype Packet = Packet(num: nat, body: Body) | LineDropped | NothingMore

  datatype Request = Request(owner: Owner, extent: Extent)

  /** A request that has been sent but whose extent is not yet recorded. */
  datatype Pending = NotPending | Pending(num: nat, extent: Extent)

  /** A prefetch thread: what it has in hand and the chunks it still has to request. */
  datatype Thread = Thread(pending: Pending, chunks: seq<Extent>)

  datatype Response = NoResponse | Reply(body: Body) | Throws(e: Error) | Waits

  /** `None`: not in the prefetch buffers. */
  datatype ReadResult = Data(data: bytes) | None | Raised(e: Error) | Blocked

  datatype Error = EofError | IoError | SshError | StructError

  /** No reply to the request of that number comes. */
  predicate Unanswered(num: nat, script: seq<Event>) {
    forall e :: e in script ==> !(e.Answer? && e.num == num) && !(e.Refuse? && e.num == num)
  }

  /** The next thing to happen is an answer to the request of that number. */
  predicate NextAnswers(num: int, script: seq<Event>) {
    script != [] && script[0].Answer? && script[0].num == num
  }

  /** A server that answers the requests to come, each as it comes. */
  predicate Obliging(script: seq<Event>, from: nat) {
    forall i :: 0 <= i < |script| ==> script[i].Answer? && script[i].num == from + i
  }

  lemma ObligingNext(script: seq<Event>, from: nat)
    requires Obliging(script, from) && script != []
    ensures NextAnswers(from, script) && Obliging(script[1..], from + 1)
  {
  }

  lemma NoReplies()
    ensures forall num :: Unanswered(num, [])
  {
  }

  /** What the server sends back for an extent: nothing but true file data, at least a byte of it before the end. */
  function Served(file: bytes, e: Extent, k: nat): Body {
    if e.offset < 0 || e.offset >= |file| then StatusBody(EndOfFile)
    else
      var most := if e.length < |file| - e.offset then Clip(e.length, |file|) else |file| - e.offset;
      var n := if k == 0 && most > 0 then 1 else if k < most then k else most;
      DataBody(file[e.offset..e.offset + n])
  }

  /** What is waited for, what is to come, what was asked for, and what has become of it. */
  datatype Ledger = Ledger(
    expecting: map<nat, Request>, script: seq<Event>, asked: map<nat, Extent>, data: map<int, bytes>,
    saved: seq<Error>)

  predicate Stored(n: nat, l: Ledger) {
    n in l.asked && l.asked[n].offset in l.data
  }

  /**
   * A prefetch request of before is still waited for, and no reply to it has been taken off the line since, or its
   * data is in the cache, or an error is kept for the next operation.
   */
  ghost predicate Settled(n: nat, before: Ledger, l: Ledger) {
    || n !in before.expecting || before.expecting[n].owner == Sync || Stored(n, l) || l.saved != []
    || (n in l.expecting && l.expecting[n] == before.expecting[n]
        && (Unanswered(n, l.script) ==> Unanswered(n, before.script)))
  }

  /** No reply was lost, and no data. */
  ghost predicate Handed(before: Ledger, l: Ledger) {
    && (forall n: nat :: Settled(n, before, l))
    && before.data.Keys <= l.data.Keys
    && (forall n :: n in before.asked ==> n in l.asked && l.asked[n] == before.asked[n])
    && (before.saved != [] ==> l.saved != [])
  }

  lemma HandedOn(a: Ledger, b: Ledger, c: Ledger)
    requires (a == b || Handed(a, b)) && Handed(b, c)
    ensures Handed(a, c)
  {
    hide Unanswered;
    forall n: nat | a != b
      ensures Settled(n, a, c)
    {
      assert Settled(n, a, b) && Settled(n, b, c);
      assert Stored(n, b) ==> b.asked[n].offset in b.data.Keys && Stored(n, c);
    }
  }

  /** All that is needed besides a packet's own request. */
  ghost predicate HandedBut(num: nat, before: Ledger, l: Ledger) {
    && (forall n :: n in before.expecting && n != num ==>
          n in l.expecting && l.expecting[n] == before.expecting[n]
          && (Unanswered(n, l.script) ==> Unanswered(n, before.script)))
    && before.data.Keys <= l.data.Keys
    && (forall n :: n in before.asked ==> n in l.asked && l.asked[n] == before.asked[n])
    && (before.saved != [] ==> l.saved != [])
  }

  lemma StillAwaited(num: nat, waitfor: int, before: Ledger, l: Ledger)
    requires HandedBut(num, before, l)
    ensures waitfor >= 0 && waitfor != num && waitfor in before.expecting && Unanswered(waitfor, l.script) ==>
              Unanswered(waitfor, before.script)
  {
    hide Unanswered;
  }

  /** The packet itself goes to its request. */
  lemma HandedOver(num: nat, before: Ledger, between: Ledger, l: Ledger)
    requires HandedBut(num, before, between)
    requires l.expecting == between.expecting - {num} && l.script == between.script && l.asked == between.asked
    requires between.data.Keys <= l.data.Keys && (between.saved != [] ==> l.saved != [])
    requires num in between.expecting && between.expecting[num].owner == Prefetcher ==> Stored(num, l) || l.saved != []
    requires num in before.expecting ==> num in between.expecting && between.expecting[num] == before.expecting[num]
    ensures Handed(before, l)
  {
    hide Unanswered, Stored;
    assert HandedBut(num, before, l);
    assert Settled(num, before, l);
    HandedAll(num, before, l);
  }

  lemma HandedAll(num: nat, before: Ledger, l: Ledger)
    requires HandedBut(num, before, l) && Settled(num, before, l)
    ensures Handed(before, l)
  {
    hide Unanswered, Stored;
  }

  /** All replies there were have been heard: what was waited for is cached or no reply to it was to come. */
  ghost predicate Heard(before: Ledger, l: Ledger) {
    && l.script == []
    && forall n :: n in before.expecting && before.expecting[n].owner == Prefetcher ==>
         Stored(n, l) || Unanswered(n, before.script)
  }

  lemma HeardBefore(a: Ledger, b: Ledger, c: Ledger)
    requires a == b || (b.saved == [] && Handed(a, b))
    requires Handed(b, c) && c.script == [] && b.data == c.data
    requires forall n :: n in b.expecting ==> Unanswered(n, b.script)
    ensures Heard(a, c)
  {
    hide Unanswered;
    if a != b {
      forall n | n in a.expecting && a.expecting[n].owner == Prefetcher
        ensures Stored(n, c) || Unanswered(n, a.script)
      {
        assert Settled(n, a, b);
      }
    }
  }

  lemma HeardSince(a: Ledger, b: Ledger, c: Ledger)
    requires a == b || Handed(a, b)
    requires Handed(b, c) && c.script == []
    ensures Heard(a, c) || c.saved != []
  {
    hide Unanswered;
    HandedOn(a, b, c);
    NoReplies();
    forall n | n in a.expecting && a.expecting[n].owner == Prefetcher && c.saved == []
      ensures Stored(n, c) || Unanswered(n, a.script)
    {
      assert Settled(n, a, c);
    }
  }

  /** As much as the nearest buffer has is taken out of it, and nothing else. */
  ghost predicate TakenFrom(data0: map<int, bytes>, data: map<int, bytes>, at: int, size: nat, n: nat) {
    exists k :: CachedIn(data0, at, k) && TakenOut(data0, data, at, size, n, k)
  }

  lemma TakenFromBuffer(data0: map<int, bytes>, data: map<int, bytes>, at: int, size: nat, n: nat, k: int)
    requires CachedIn(data0, at, k) && TakenOut(data0, data, at, size, n, k)
    ensures TakenFrom(data0, data, at, size, n)
  {
  }

  predicate TakenOut(data0: map<int, bytes>, data: map<int, bytes>, at: int, size: nat, n: nat, k: int)
    requires k in data0
  {
    && k <= at && (n == size || at + n == k + |data0[k]|) && n <= size && at + n <= k + |data0[k]|
    && data == Remaining(data0, k, at, n)
  }

  class SftpFile {
    /** The remote file, which does not change. */
    const file: bytes
    const bufsize: nat
    const buffered: bool

    // the client
    var requestNumber: nat
    var expecting: map<nat, Request>
    var script: seq<Event>

    // the file object
    var prefetching: bool
    var prefetchDone: bool
    var prefetchData: map<int, bytes>
    var prefetchExtents: map<nat, Extent>
    var savedException: seq<Error>
    var threads: seq<Thread>
    var closed: bool
    var readable: bool
    var rbuffer: bytes
    var pos: int
    var realpos: int

    /** Every extent ever requested for prefetching, and whether one of them reached beyond the file. */
    ghost var asked: map<nat, Extent>
    ghost var overrun: bool

    ghost predicate InFile(e: Extent)
    {
      0 <= e.offset && 0 < e.length && e.offset + e.length <= |file|
    }

    /** Each cached buffer is a true slice of the file. */
    ghost predicate BuffersTrue()
      reads this`prefetchData
    {
      forall o :: o in prefetchData ==> SliceAt(file, o, prefetchData[o])
    }

    /** Requests, recorded extents and threads agree on what was asked under each number. */
    ghost predicate RequestsTrue()
      reads this`requestNumber, this`expecting, this`prefetchExtents, this`threads, this`asked, this`overrun
    {
      NumbersTrue() && AskedTrue() && ExtentsTrue() && ThreadsTrue() && AwaitedTrue()
    }

    ghost predicate NumbersTrue()
      reads this`requestNumber, this`expecting, this`asked
    {
      && (forall n :: n in expecting ==> n < requestNumber)
      && (forall n :: n in asked ==> n < requestNumber)
    }

    ghost predicate AskedTrue()
      reads this`expecting, this`asked, this`overrun
    {
      && (forall n :: n in asked && !overrun ==> InFile(asked[n]))
      && (forall n :: n in expecting && expecting[n].owner == Prefetcher ==>
         n in asked && asked[n] == expecting[n].extent)
    }

    ghost predicate ExtentsTrue()
      reads this`prefetchExtents, this`asked
    {
      forall n :: n in prefetchExtents ==> n in asked && prefetchExtents[n] == asked[n]
    }

    ghost predicate ThreadsTrue()
      reads this`threads, this`asked, this`overrun
    {
      forall i :: 0 <= i < |threads| ==> ThreadTrue(threads[i])
    }

    ghost predicate ThreadTrue(t: Thread)
      reads this`asked, this`overrun
    {
      && (t.pending.Pending? ==> t.pending.num in asked && asked[t.pending.num] == t.pending.extent)
      && (forall e :: e in t.chunks && !overrun ==> InFile(e))
    }

    /** Every prefetch request still unanswered is recorded or about to be. */
    ghost predicate AwaitedTrue()
      reads this`expecting, this`prefetchExtents, this`threads
    {
      forall n :: n in expecting && expecting[n].owner == Prefetcher ==> n in prefetchExtents || IsPending(n)
    }

    ghost predicate IsPending(n: nat)
      reads this`threads
    {
      exists i :: 0 <= i < |threads| && threads[i].pending.Pending? && threads[i].pending.num == n
    }

    /** The read buffer is the part of the file between the user's position and the real one. */
    ghost predicate PositionsTrue()
      reads this`pos, this`realpos, this`rbuffer
    {
      && realpos == pos + |rbuffer|
      && (rbuffer != [] ==> 0 <= pos && realpos <= |file| && rbuffer == file[pos..realpos])
    }

    ghost predicate ErrorsTrue()
      reads this`savedException, this`overrun
    {
      && |savedException| <= 1 && (forall e :: e in savedException ==> e == EofError || e == IoError)
      && (EofError in savedException ==> overrun)
    }

    ghost predicate Valid()
      reads this
    {
      BuffersTrue() && RequestsTrue() && PositionsTrue() && ErrorsTrue()
    }

    constructor (file: bytes, bufsize: nat, buffered: bool, script: seq<Event>)
      ensures Valid() && this.file == file && !overrun && pos == 0 && !closed && readable
    {
      this.file, this.bufsize, this.buffered, this.script := file, bufsize, buffered, script;
      requestNumber, expecting := 0, map[];
      prefetching, prefetchDone, prefetchData, prefetchExtents := false, false, map[], map[];
      savedException, threads, closed, readable := [], [], false, true;
      rbuffer, pos, realpos, asked, overrun := [], 0, 0, map[], false;
    }

    /** Numbers the request and notes who waits for it. */
    method AsyncRequest(owner: Owner, e: Extent) returns (num: nat)
      requires RequestsTrue()
      modifies this`requestNumber, this`expecting
      ensures num == old(requestNumber) && requestNumber == num + 1
      ensures expecting == old(expecting)[num := Request(owner, e)]
    {
      num := requestNumber;
      expecting := expecting[num := Request(owner, e)];
      requestNumber := requestNumber + 1;
    }

    /** What one step of thread `i` makes of the state before. */
    ghost predicate Stepped(i: nat, threads0: seq<Thread>, extents0: map<nat, Extent>, expecting0: map<nat, Request>,
                            asked0: map<nat, Extent>, number0: nat)
      reads this`requestNumber, this`expecting, this`prefetchExtents, this`threads, this`asked
    {
      if i >= |threads0| || (threads0[i].pending.NotPending? && threads0[i].chunks == []) then
        && threads == threads0 && prefetchExtents == extents0
        && expecting == expecting0 && asked == asked0 && requestNumber == number0
      else if threads0[i].pending.Pending? then
        var p := threads0[i].pending;
        && threads == threads0[i := threads0[i].(pending := NotPending)]
        && prefetchExtents == extents0[p.num := p.extent]
        && expecting == expecting0 && asked == asked0 && requestNumber == number0
      else if threads0[i].chunks[0].offset < 0 then
        && threads == threads0[i := Thread(NotPending, [])] && prefetchExtents == extents0
        && expecting == expecting0 && asked == asked0 && requestNumber == number0
      else
        var e := threads0[i].chunks[0];
        && threads == threads0[i := Thread(Pending(number0, e), threads0[i].chunks[1..])] && prefetchExtents == extents0
        && expecting == expecting0[number0 := Request(Prefetcher, e)] && asked == asked0[number0 := e]
        && requestNumber == number0 + 1
    }

    /** One step of a prefetch thread: it records the extent it has just requested, or requests the next chunk. */
    method ThreadStep(i: nat)
      requires RequestsTrue()
      modifies this`requestNumber, this`expecting, this`prefetchExtents, this`threads, this`asked
      ensures RequestsTrue() && Grows(old(expecting), expecting) && Known(old(asked))
      ensures Stepped(i, old(threads), old(prefetchExtents), old(expecting), old(asked), old(requestNumber))
    {
      if i >= |threads| {
        return;
      }
      var t := threads[i];
      if t.pending.Pending? {
        Register(i);
      } else if t.chunks != [] {
        var e := t.chunks[0];
        if e.offset < 0 {
          // a negative offset cannot be packed, which ends the thread
          threads := threads[i := Thread(NotPending, [])];
          forall n | n in expecting && expecting[n].owner == Prefetcher && n !in prefetchExtents
            ensures IsPending(n)
          {
            var j :| 0 <= j < |old(threads)| && old(threads)[j].pending.Pending? && old(threads)[j].pending.num == n;
            assert threads[j] == old(threads)[j];
          }
          return;
        }
        var num := AsyncRequest(Prefetcher, e);
        asked := asked[num := e];
        threads := threads[i := Thread(Pending(num, e), t.chunks[1..])];
        assert threads[i].pending.num == num && IsPending(num);
        forall n | n in expecting && n != num && expecting[n].owner == Prefetcher && n !in prefetchExtents
          ensures IsPending(n)
        {
          var j :| 0 <= j < |old(threads)| && old(threads)[j].pending.Pending? && old(threads)[j].pending.num == n;
          assert threads[j] == old(threads)[j];
        }
      }
    }

    method Register(i: nat)
      requires RequestsTrue() && i < |threads| && threads[i].pending.Pending?
      modifies this`prefetchExtents, this`threads
      ensures RequestsTrue()
      ensures var p := old(threads)[i].pending;
              && prefetchExtents == old(prefetchExtents)[p.num := p.extent]
              && threads == old(threads)[i := old(threads)[i].(pending := NotPending)]
    {
      var p := threads[i].pending;
      prefetchExtents := prefetchExtents[p.num := p.extent];
      threads := threads[i := threads[i].(pending := NotPending)];
      forall n | n in expecting && expecting[n].owner == Prefetcher && n !in prefetchExtents
        ensures IsPending(n)
      {
        var j :| 0 <= j < |old(threads)| && old(threads)[j].pending.Pending? && old(threads)[j].pending.num == n;
        assert threads[j] == old(threads)[j];
      }
    }

    /** Nothing is in store that was not before, and a saved I/O error was saved before or is a refusal since. */
    ghost predicate Since(saved0: seq<Error>, script0: seq<Event>)
      reads this`savedException, this`script
    {
      && (forall e :: e in script ==> e in script0)
      && (IoError in savedException ==> IoError in saved0 || Refused(script0))
    }

    /** Why a read at `at` may fail: the script ends, the line drops, a request is refused, or `at` is negative. */
    ghost predicate Excused(r: ReadResult, saved0: seq<Error>, script0: seq<Event>, at: int)
      reads this`script
    {
      match r
      case Blocked => script == []
      case Raised(SshError) => Dropped in script0
      case Raised(IoError) => IoError in saved0 || Refused(script0)
      case Raised(StructError) => at < 0
      case _ => true
    }

    /** What was asked for under a number stays what it was. */
    ghost predicate Known(asked0: map<nat, Extent>)
      reads this`asked
    {
      forall n :: n in asked0 ==> n in asked && asked[n] == asked0[n]
    }

    ghost function Now(): Ledger
      reads this`expecting, this`script, this`asked, this`prefetchData, this`savedException
    {
      Ledger(expecting, script, asked, prefetchData, savedException)
    }

    /** The next packet off the line; meanwhile prefetch threads may run. */
    method ReadPacket() returns (p: Packet)
      requires RequestsTrue()
      modifies this`script, this`requestNumber, this`expecting, this`prefetchExtents, this`threads, this`asked
      ensures RequestsTrue() && Grows(old(expecting), expecting) && Known(old(asked))
      ensures |script| <= |old(script)| && (!p.NothingMore? ==> |script| < |old(script)|)
      ensures p.Packet? && p.num in expecting ==> Truthful(p.body, expecting[p.num].extent)
      ensures p.Packet? && p.num in expecting && p.body == StatusBody(Failure) ==> Refused(old(script))
      ensures forall e :: e in script ==> e in old(script)
      ensures (p.NothingMore? ==> script == []) && (p.LineDropped? ==> Dropped in old(script))
      ensures if p.Packet? then HandedBut(p.num, old(Now()), Now()) else Handed(old(Now()), Now())
      ensures p.NothingMore? ==> forall n :: n in old(expecting) ==> Unanswered(n, old(script))
      ensures forall num :: num in old(expecting) && NextAnswers(num, old(script)) ==>
                && p.Packet? && p.num == num && p.body != StatusBody(Failure)
                && script == old(script)[1..] && requestNumber == old(requestNumber)
    {
      hide RequestsTrue, Unanswered, Truthful, Refused;
      NoReplies();
      while script != []
        invariant (exists num :: num in old(expecting) && NextAnswers(num, old(script))) ==>
                    script == old(script) && expecting == old(expecting) && requestNumber == old(requestNumber)
        invariant forall n :: n in old(expecting) && Unanswered(n, script) ==> Unanswered(n, old(script))
        invariant RequestsTrue() && Grows(old(expecting), expecting) && Known(old(asked)) && |script| <= |old(script)|
        invariant forall e :: e in script ==> e in old(script)
        decreases |script|
      {
        ghost var before := script;
        p := OneEvent();
        RefusedSince(before, old(script));
        if !p.NothingMore? {
          return;
        }
      }
      p := NothingMore;
    }

    lemma RefusedSince(a: seq<Event>, b: seq<Event>)
      requires forall e :: e in a ==> e in b
      ensures Refused(a) ==> Refused(b)
    {
    }

    /** The next thing that happens, which may bring no packet. */
    method OneEvent() returns (p: Packet)
      requires RequestsTrue() && script != []
      modifies this`script, this`requestNumber, this`expecting, this`prefetchExtents, this`threads, this`asked
      ensures RequestsTrue() && Grows(old(expecting), expecting) && Known(old(asked)) && script == old(script)[1..]
      ensures p.Packet? && p.num in expecting ==> Truthful(p.body, expecting[p.num].extent)
      ensures p.Packet? && p.num in expecting && p.body == StatusBody(Failure) ==> Refused(old(script))
      ensures p.LineDropped? ==> Dropped in old(script)
      ensures forall n :: n in old(expecting) && Unanswered(n, script) && (p.Packet? ==> n != p.num) ==>
                Unanswered(n, old(script))
      ensures forall num :: num in old(expecting) && NextAnswers(num, old(script)) ==>
                p.Packet? && p.num == num && p.body != StatusBody(Failure) && requestNumber == old(requestNumber)
    {
      p := NothingMore;
      var e := script[0];
      script := script[1..];
      match e {
        case Answer(num, k) =>
          if num in expecting {
            return Packet(num, Served(file, expecting[num].extent, k));
          }
        case Refuse(num) =>
          if num in expecting {
            return Packet(num, StatusBody(Failure));
          }
        case Stray(num) =>
          if num !in expecting {
            return Packet(num, StatusBody(Failure));
          }
        case ThreadMoves(i) =>
          ThreadStep(i);
        case Dropped =>
          return LineDropped;
      }
    }

    /** What a reply can say about an extent. */
    ghost predicate Truthful(body: Body, e: Extent)
    {
      match body
      case DataBody(data) => 0 <= e.offset && e.offset + |data| <= |file| && data == file[e.offset..e.offset + |data|]
                             && |data| <= Clip(e.length, |file|) && (e.length > 0 ==> data != [])
      case StatusBody(EndOfFile) => e.offset < 0 || e.offset >= |file|
      case StatusBody(Failure) => true
    }

    /** Stores the data of a reply under the offset that was asked for; a status is kept for the next operation. */
    method AsyncResponse(num: nat, body: Body)
      requires BuffersTrue() && RequestsTrue() && ErrorsTrue()
      requires num !in expecting && num in asked && Truthful(body, asked[num])
      requires num in prefetchExtents || IsPending(num)
      modifies this`savedException, this`prefetchData, this`prefetchExtents, this`prefetchDone, this`threads
      ensures BuffersTrue() && RequestsTrue() && ErrorsTrue()
      ensures match body
              case StatusBody(status) =>
                && savedException == [if status.EndOfFile? then EofError else IoError]
                && prefetchData == old(prefetchData) && prefetchExtents == old(prefetchExtents)
              case DataBody(data) =>
                && savedException == old(savedException)
                && prefetchData == old(prefetchData)[asked[num].offset := data]
                && prefetchExtents == old(prefetchExtents) - {num}
                && prefetchDone == (old(prefetchDone) || prefetchExtents == map[])
    {
      match body
      case StatusBody(status) =>
        savedException := [if status.EndOfFile? then EofError else IoError];
      case DataBody(data) =>
        // the thread that sent it registers its extent first
        if num !in prefetchExtents {
          var i := FindPending(num);
          Register(i);
        }
        Store(num, data);
    }

    method Store(num: nat, data: bytes)
      requires BuffersTrue() && RequestsTrue()
      requires num !in expecting && num in prefetchExtents && Truthful(DataBody(data), asked[num])
      modifies this`prefetchData, this`prefetchExtents, this`prefetchDone
      ensures BuffersTrue() && RequestsTrue()
      ensures prefetchData == old(prefetchData)[old(prefetchExtents)[num].offset := data]
      ensures prefetchExtents == old(prefetchExtents) - {num}
      ensures prefetchDone == (old(prefetchDone) || prefetchExtents == map[])
    {
      var e := prefetchExtents[num];
      prefetchData := prefetchData[e.offset := data];
      prefetchExtents := prefetchExtents - {num};
      assert |prefetchExtents| == 0 <==> prefetchExtents == map[];
      if |prefetchExtents| == 0 {
        prefetchDone := true;
      }
    }

    /** A request that has been answered is no longer expected. */
    method Retire(num: nat) returns (request: Request)
      requires RequestsTrue() && num in expecting
      modifies this`expecting
      ensures RequestsTrue() && request == old(expecting)[num] && expecting == old(expecting) - {num}
      ensures request.owner == Prefetcher ==>
                num in asked && asked[num] == request.extent && (num in prefetchExtents || IsPending(num))
    {
      request := expecting[num];
      expecting := expecting - {num};
    }

    method FindPending(num: nat) returns (i: nat)
      requires IsPending(num)
      ensures i < |threads| && threads[i].pending.Pending? && threads[i].pending.num == num
    {
      i := 0;
      while !(threads[i].pending.Pending? && threads[i].pending.num == num)
        invariant 0 <= i < |threads|
        invariant exists j :: i <= j < |threads| && threads[j].pending.Pending? && threads[j].pending.num == num
        decreases |threads| - i
      {
        i := i + 1;
      }
    }

    /** Takes one packet off the line and hands it to the request whose number it carries. */
    method OneReply(waitfor: int) returns (r: Response, again: bool)
      requires BuffersTrue() && RequestsTrue() && ErrorsTrue()
      requires waitfor >= 0 ==> waitfor in expecting && expecting[waitfor].owner == Sync
      modifies this`script, this`requestNumber, this`expecting, this`asked
      modifies this`savedException, this`prefetchData, this`prefetchExtents, this`prefetchDone, this`threads
      ensures BuffersTrue() && RequestsTrue() && ErrorsTrue()
      ensures |script| <= |old(script)| && (!r.Waits? ==> |script| < |old(script)|)
      ensures Since(old(savedException), old(script)) && Handed(old(Now()), Now())
      ensures again ==>
                waitfor >= 0 && r.NoResponse? && waitfor in expecting && expecting[waitfor] == old(expecting)[waitfor]
      ensures again && Unanswered(waitfor, script) ==> Unanswered(waitfor, old(script))
      ensures !again ==> Responded(r, waitfor, old(expecting), old(script))
      ensures waitfor < 0 ==> OneStored(old(prefetchData))
      ensures r.Waits? ==> prefetchData == old(prefetchData) && prefetchDone == old(prefetchDone)
      ensures waitfor >= 0 && NextAnswers(waitfor, old(script)) ==>
                !again && AnsweredAtOnce(r, old(script), old(requestNumber))
    {
      hide BuffersTrue, RequestsTrue, ErrorsTrue, Truthful, Unanswered, Handed, NextAnswers, Stored;
      again := false;
      ghost var start := Now();
      var p := ReadPacket();
      ghost var between := Now();
      if p.Packet? {
        StillAwaited(p.num, waitfor, start, between);
        hide HandedBut;
        r, again := HandOver(p.num, p.body, waitfor);
        HandedOver(p.num, start, between, Now());
      } else {
        r := if p.LineDropped? then Throws(SshError) else Waits;
      }
    }

    /** The first thing that happened was the answer, and nothing else did. */
    ghost predicate AnsweredAtOnce(r: Response, script0: seq<Event>, number0: nat)
      reads this`script, this`requestNumber
    {
      script0 != [] && script == script0[1..] && requestNumber == number0 && (r.Reply? || r == Throws(EofError))
    }

    method HandOver(num: nat, body: Body, waitfor: int) returns (r: Response, again: bool)
      requires BuffersTrue() && RequestsTrue() && ErrorsTrue()
      requires waitfor >= 0 ==> waitfor in expecting && expecting[waitfor].owner == Sync
      requires num in expecting ==> Truthful(body, expecting[num].extent)
      modifies this`expecting, this`savedException, this`prefetchData, this`prefetchExtents, this`prefetchDone
      modifies this`threads
      ensures BuffersTrue() && RequestsTrue() && ErrorsTrue()
      ensures expecting == old(expecting) - {num} && OneStored(old(prefetchData))
      ensures num in old(expecting) && old(expecting)[num].owner == Prefetcher ==>
                Stored(num, Now()) || savedException != []
      ensures old(prefetchData).Keys <= prefetchData.Keys && (old(savedException) != [] ==> savedException != [])
      ensures IoError in savedException ==>
                IoError in old(savedException) || (num in old(expecting) && body == StatusBody(Failure))
      ensures again <==> waitfor >= 0 && num != waitfor
      ensures r == if num != waitfor then NoResponse else if body.DataBody? then Reply(body)
                   else Throws(if body.status.EndOfFile? then EofError else IoError)
    {
      r, again := NoResponse, false;
      if num !in expecting {
        // nobody waits for it any more
        again := waitfor >= 0;
        return;
      }
      if num == waitfor {
        // synchronous
        var _ := Retire(num);
        if body.StatusBody? {
          return Throws(if body.status.EndOfFile? then EofError else IoError), false;
        }
        return Reply(body), false;
      }
      PassOn(num, body);
      again := waitfor >= 0;
    }

    /** A reply to a request nobody waits for: the data goes to the cache, if that is where it belongs. */
    method PassOn(num: nat, body: Body)
      requires BuffersTrue() && RequestsTrue() && ErrorsTrue()
      requires num in expecting && Truthful(body, expecting[num].extent)
      modifies this`expecting, this`savedException, this`prefetchData, this`prefetchExtents, this`prefetchDone
      modifies this`threads
      ensures BuffersTrue() && RequestsTrue() && ErrorsTrue()
      ensures expecting == old(expecting) - {num} && OneStored(old(prefetchData))
      ensures old(expecting)[num].owner == Prefetcher ==> Stored(num, Now()) || savedException != []
      ensures old(prefetchData).Keys <= prefetchData.Keys && (old(savedException) != [] ==> savedException != [])
      ensures IoError in savedException ==> IoError in old(savedException) || body == StatusBody(Failure)
    {
      var request := Retire(num);
      if request.owner == Prefetcher {
        AsyncResponse(num, body);
      }
    }

    /** What the caller gets for the request it waits for, if it waits for one. */
    ghost predicate Responded(r: Response, waitfor: int, expecting0: map<nat, Request>, script0: seq<Event>)
      requires waitfor >= 0 ==> waitfor in expecting0
      reads this`script
    {
      && (r.Waits? ==>
            script == [] && forall n :: n in expecting0 && (waitfor < 0 || n == waitfor) ==> Unanswered(n, script0))
      && (r == Throws(SshError) ==> Dropped in script0)
      && (r == Throws(IoError) ==> Refused(script0))
      && r != Throws(StructError)
      && (waitfor < 0 ==> r.NoResponse? || r.Waits? || r == Throws(SshError))
      && (waitfor >= 0 ==>
            match r
            case NoResponse => false
            case Reply(body) => body.DataBody? && Truthful(body, expecting0[waitfor].extent)
            case Throws(EofError) => Truthful(StatusBody(EndOfFile), expecting0[waitfor].extent)
            case _ => true)
    }

    /**
     * Reads replies until the one waited for arrives, or just one when none is waited for, and hands every other
     * reply to the request whose number it carries.
     */
    method ReadResponse(waitfor: int) returns (r: Response)
      requires BuffersTrue() && RequestsTrue() && ErrorsTrue()
      requires waitfor >= 0 ==> waitfor in expecting && expecting[waitfor].owner == Sync
      modifies this`script, this`requestNumber, this`expecting, this`asked
      modifies this`savedException, this`prefetchData, this`prefetchExtents, this`prefetchDone, this`threads
      ensures BuffersTrue() && RequestsTrue() && ErrorsTrue()
      ensures !r.Waits? ==> |script| < |old(script)|
      ensures waitfor < 0 ==> OneStored(old(prefetchData))
      ensures waitfor < 0 && r.Waits? ==> prefetchData == old(prefetchData) && prefetchDone == old(prefetchDone)
      ensures Since(old(savedException), old(script)) && Handed(old(Now()), Now())
      ensures Responded(r, waitfor, old(expecting), old(script))
      ensures waitfor >= 0 && NextAnswers(waitfor, old(script)) ==>
                AnsweredAtOnce(r, old(script), old(requestNumber))
    {
      hide BuffersTrue, RequestsTrue, ErrorsTrue, Truthful, Unanswered;
      var again := true;
      while true
        invariant BuffersTrue() && RequestsTrue() && ErrorsTrue() && |script| <= |old(script)|
        invariant Handed(old(Now()), Now())
        invariant Since(old(savedException), old(script))
        invariant waitfor >= 0 ==> waitfor in expecting && expecting[waitfor] == old(expecting)[waitfor]
        invariant waitfor >= 0 && Unanswered(waitfor, script) ==> Unanswered(waitfor, old(script))
        invariant waitfor < 0 ==> script == old(script) && expecting == old(expecting)
        invariant waitfor < 0 ==> prefetchData == old(prefetchData) && prefetchDone == old(prefetchDone)
        invariant waitfor >= 0 && NextAnswers(waitfor, old(script)) ==>
                    script == old(script) && requestNumber == old(requestNumber)
        decreases |script|
      {
        ghost var before := Now();
        r, again := OneReply(waitfor);
        HandedOn(old(Now()), before, Now());
        if !again {
          return;
        }
      }
    }

    /** At most one reply has been stored, and that under the offset its own request asked for. */
    ghost predicate OneStored(before: map<int, bytes>)
      reads this`prefetchData, this`asked
    {
      || prefetchData == before
      || exists num, data ::
           && num in asked && Truthful(DataBody(data), asked[num])
           && prefetchData == before[asked[num].offset := data]
    }

    /** Raises and clears the saved exception, if there is one. */
    method CheckException() returns (raised: seq<Error>)
      modifies this`savedException
      ensures raised == old(savedException) && savedException == []
    {
      raised := savedException;
      savedException := [];
    }

    /** True data of the file at the real position, or a reason why there is none. */
    ghost predicate ReadTruly(r: ReadResult, size: nat)
      reads this`realpos, this`overrun
    {
      match r
      case Data(data) => data != [] && |data| <= size && 0 <= realpos && realpos + |data| <= |file|
                         && data == file[realpos..realpos + |data|]
      case Raised(e) => e == EofError ==> overrun || realpos >= |file|
      case _ => true
    }

    /**
     * Reads from the prefetch buffers: at once if the byte at the real position is cached, and otherwise after waiting
     * for replies as long as some are due; `None` if the byte is not there and none will come.
     */
    method ReadPrefetch(size: nat) returns (r: ReadResult)
      requires BuffersTrue() && RequestsTrue() && ErrorsTrue() && size > 0
      modifies this`script, this`requestNumber, this`expecting, this`asked, this`prefetching
      modifies this`savedException, this`prefetchData, this`prefetchExtents, this`prefetchDone, this`threads
      ensures BuffersTrue() && RequestsTrue() && ErrorsTrue()
      ensures ReadTruly(r, size)
      ensures Since(old(savedException), old(script)) && Excused(r, old(savedException), old(script), old(realpos))
      ensures Cached(old(prefetchData), realpos) ==>
                && r.Data? && TakenFrom(old(prefetchData), prefetchData, realpos, size, |r.data|)
                && script == old(script) && requestNumber == old(requestNumber) && prefetching == old(prefetching)
      ensures r.None? ==> !Cached(prefetchData, realpos) && (prefetchDone || closed) && !prefetching
      ensures r.None? ==> Now() == old(Now()) || Handed(old(Now()), Now())
      ensures r.Blocked? ==> !Cached(prefetchData, realpos) && !prefetchDone && !closed && Heard(old(Now()), Now())
    {
      hide BuffersTrue, RequestsTrue, ErrorsTrue, Handed, Stored, Unanswered, TakenFrom, DataInPrefetchBuffers, Cached;
      var found := NotFound;
      while true
        invariant BuffersTrue() && RequestsTrue() && ErrorsTrue() && Since(old(savedException), old(script))
        invariant prefetching == old(prefetching)
        invariant Now() == old(Now()) || (savedException == [] && Handed(old(Now()), Now()))
        invariant Cached(old(prefetchData), realpos) ==> Now() == old(Now()) && requestNumber == old(requestNumber)
        decreases |script|
      {
        found := DataInPrefetchBuffers(prefetchData, realpos);
        if found.Found? || prefetchDone || closed {
          break;
        }
        ghost var before := Now();
        var x := AwaitReply();
        if !x.None? {
          if x.Blocked? {
            HeardBefore(old(Now()), before, Now());
          }
          return x;
        }
        HandedOn(old(Now()), before, Now());
      }
      if found.NotFound? {
        prefetching := false;
        return None;
      }
      ghost var data0 := prefetchData;
      var data := TakeBuffer(found.index, size);
      TakenFromBuffer(data0, prefetchData, realpos, size, |data|, found.index);
      r := Data(data);
    }

    /** One more reply, if nothing is the matter. */
    method AwaitReply() returns (r: ReadResult)
      requires BuffersTrue() && RequestsTrue() && ErrorsTrue()
      modifies this`script, this`requestNumber, this`expecting, this`asked
      modifies this`savedException, this`prefetchData, this`prefetchExtents, this`prefetchDone, this`threads
      ensures BuffersTrue() && RequestsTrue() && ErrorsTrue() && !r.Data? && ReadTruly(r, 0)
      ensures Since(old(savedException), old(script)) && Excused(r, old(savedException), old(script), realpos)
      ensures r.None? ==> |script| < |old(script)| && savedException == [] && Handed(old(Now()), Now())
      ensures r.Blocked? ==>
                && prefetchData == old(prefetchData) && prefetchDone == old(prefetchDone)
                && Handed(old(Now()), Now())
                && forall n :: n in old(expecting) ==> Unanswered(n, old(script))
    {
      hide BuffersTrue, RequestsTrue, Handed, Stored, Unanswered;
      var x := ReadResponse(-1);
      if x.Throws? {
        return Raised(x.e);
      }
      if x.Waits? {
        return Blocked;
      }
      var raised := CheckException();
      if raised != [] {
        assert raised[0] in raised;
        return Raised(raised[0]);
      }
      r := None;
    }

    /** Cuts the wanted part out of a buffer; what lies before and behind it stays cached. */
    method TakeBuffer(offset: int, size: nat) returns (data: bytes)
      requires BuffersTrue() && size > 0
      requires offset in prefetchData && offset <= realpos < offset + |prefetchData[offset]|
      modifies this`prefetchData
      ensures BuffersTrue()
      ensures ReadTruly(Data(data), size)
      ensures TakenOut(old(prefetchData), prefetchData, realpos, size, |data|, offset)
    {
      hide DataInPrefetchBuffers, SliceAt;
      ghost var whole := prefetchData[offset];
      data := prefetchData[offset];
      prefetchData := prefetchData - {offset};
      var bufOffset := realpos - offset;
      if bufOffset > 0 {
        prefetchData := prefetchData[offset := data[..bufOffset]];
        data := data[bufOffset..];
      }
      assert data == whole[bufOffset..];
      if size < |data| {
        prefetchData := prefetchData[realpos + size := data[size..]];
        data := data[..size];
      }
      assert data == whole[bufOffset..][..|data|];
      TakenIsTrue(file, offset, whole, realpos, |data|);
      assert whole[bufOffset..][|data|..] == whole[bufOffset + |data|..];
      assert prefetchData == Remaining(old(prefetchData), offset, realpos, |data|);
      RemainingIsTrue(file, old(prefetchData), offset, realpos, |data|);
    }

    /** The recorded extents as a list, in no particular order. */
    method Outstanding() returns (es: seq<Extent>)
      ensures forall e :: e in es ==> e in prefetchExtents.Values
      ensures forall n :: n in prefetchExtents ==> prefetchExtents[n] in es
      ensures RequestsDisjoint() ==> Disjoint(es)
    {
      hide RequestsDisjoint, Disjoint;
      es := [];
      var left := prefetchExtents;
      ghost var ns: seq<nat> := [];
      while left != map[]
        invariant left.Keys <= prefetchExtents.Keys && Listed(ns, es)
        invariant forall n :: n in prefetchExtents ==> (n in left <==> n !in ns)
        decreases |left|
      {
        assert (forall n :: n !in left.Keys) ==> left == map[];
        var n :| n in left.Keys;
        es, ns := es + [prefetchExtents[n]], ns + [n];
        left := left - {n};
      }
      forall n | n in prefetchExtents
        ensures prefetchExtents[n] in es
      {
        var i :| 0 <= i < |ns| && ns[i] == n;
        assert es[i] == prefetchExtents[n];
      }
      ListedDisjoint(ns, es);
    }

    lemma ListedDisjoint(ns: seq<nat>, es: seq<Extent>)
      requires Listed(ns, es)
      ensures RequestsDisjoint() ==> Disjoint(es)
    {
    }

    /** Distinct numbers and their extents. */
    ghost predicate Listed(ns: seq<nat>, es: seq<Extent>)
      reads this`prefetchExtents
    {
      && |ns| == |es|
      && (forall i :: 0 <= i < |ns| ==> ns[i] in prefetchExtents && es[i] == prefetchExtents[ns[i]])
      && (forall i, j :: 0 <= i < j < |ns| ==> ns[i] != ns[j])
    }

    /**
     * One read of the underlying file: from the prefetched data if possible, and then nothing is requested; by a
     * request of its own otherwise.
     */
    method ReadOnce(wanted: nat) returns (r: ReadResult)
      requires BuffersTrue() && RequestsTrue() && ErrorsTrue() && wanted > 0
      modifies this`script, this`requestNumber, this`expecting, this`asked, this`prefetching
      modifies this`savedException, this`prefetchData, this`prefetchExtents, this`prefetchDone, this`threads
      ensures BuffersTrue() && RequestsTrue() && ErrorsTrue()
      ensures ReadTruly(r, wanted) && !r.None?
      ensures Since(old(savedException), old(script)) && Excused(r, old(savedException), old(script), old(realpos))
      ensures r.Blocked? && !old(prefetching) ==> Unanswered(old(requestNumber), old(script))
      ensures r.Blocked? ==> Heard(old(Now()), Now()) || savedException != []
      ensures !old(prefetching) ==> !prefetching
      ensures !old(prefetching) && realpos >= 0 && Obliging(old(script), old(requestNumber)) && old(script) != [] ==>
                && (r.Data? || r == Raised(EofError))
                && Obliging(script, requestNumber) && |script| == |old(script)| - 1
      ensures old(prefetching) && Cached(old(prefetchData), realpos) ==>
                && r.Data? && prefetching && requestNumber == old(requestNumber) && script == old(script)
                && TakenFrom(old(prefetchData), prefetchData, realpos,
                             if wanted < MAX_REQUEST_SIZE then wanted else MAX_REQUEST_SIZE, |r.data|)
    {
      hide BuffersTrue, RequestsTrue, ErrorsTrue, TakenFrom, Cached, Unanswered, Handed, Heard, Truthful, Obliging;
      var size := if wanted < MAX_REQUEST_SIZE then wanted else MAX_REQUEST_SIZE;
      ghost var before := Now();
      if prefetching {
        r := ReadPrefetch(size);
        if !r.None? {
          return;
        }
      }
      ghost var between := Now();
      r := ReadOwn(size);
      if r.Blocked? {
        HeardSince(old(Now()), between, Now());
      }
    }

    /** A read by a request of its own. */
    method ReadOwn(size: nat) returns (r: ReadResult)
      requires BuffersTrue() && RequestsTrue() && ErrorsTrue() && size > 0
      modifies this`script, this`requestNumber, this`expecting, this`asked
      modifies this`savedException, this`prefetchData, this`prefetchExtents, this`prefetchDone, this`threads
      ensures BuffersTrue() && RequestsTrue() && ErrorsTrue()
      ensures ReadTruly(r, size) && !r.None?
      ensures Since(old(savedException), old(script)) && Excused(r, old(savedException), old(script), realpos)
      ensures r.Blocked? ==> Unanswered(old(requestNumber), old(script)) && Handed(old(Now()), Now())
      ensures realpos >= 0 && Obliging(old(script), old(requestNumber)) && old(script) != [] ==>
                && (r.Data? || r == Raised(EofError))
                && Obliging(script, requestNumber) && |script| == |old(script)| - 1
    {
      hide BuffersTrue, RequestsTrue, ErrorsTrue, Unanswered, Obliging, NextAnswers;
      if Obliging(script, requestNumber) && script != [] {
        ObligingNext(script, requestNumber);
      }
      if realpos < 0 {
        return Raised(StructError);
      }
      ghost var before := Now();
      var num := SyncRequest(Extent(realpos, size));
      ghost var asking := Now();
      var x := ReadResponse(num);
      HandedOn(before, asking, Now());
      match x
      case Reply(DataBody(data)) => r := Data(data);
      case Throws(e) => r := Raised(e);
      case _ => r := Blocked;
    }

    method SyncRequest(e: Extent) returns (num: nat)
      requires RequestsTrue()
      modifies this`requestNumber, this`expecting
      ensures RequestsTrue() && num in expecting && expecting[num] == Request(Sync, e) && num == old(requestNumber)
      ensures requestNumber == num + 1
      ensures Handed(old(Now()), Now())
    {
      num := AsyncRequest(Sync, e);
    }

    /** The result of a read is the file's data at the position the user had, as far as it goes. */
    ghost predicate IsFileData(data: bytes, at: int, size: int) {
      && (data != [] ==> 0 <= at && at + |data| <= |file| && data == file[at..at + |data|])
      && (size >= 0 ==> |data| <= size)
    }

    /**
     * Exactly the file's bytes at the user's position, whatever was prefetched, in whatever order and pieces the
     * replies came; at least a true beginning of them when a prefetch reached beyond the end of the file, whose
     * status reply then counts as an end of file.
     */
    method Read(size: int) returns (r: ReadResult)
      requires Valid()
      modifies this`script, this`requestNumber, this`expecting, this`asked, this`prefetching
      modifies this`savedException, this`prefetchData, this`prefetchExtents, this`prefetchDone, this`threads
      modifies this`rbuffer, this`pos, this`realpos
      ensures Valid() && !r.None?
      ensures closed || !readable ==> r == Raised(IoError)
      ensures !closed && readable ==>
                r != Raised(EofError) && Excused(r, old(savedException), old(script), old(realpos))
      ensures Since(old(savedException), old(script))
      ensures r.Data? ==> pos == old(pos) + |r.data|
      ensures r.Data? ==> r.data <= FileSlice(file, old(pos), size)
      ensures r.Data? && !overrun ==> r.data == FileSlice(file, old(pos), size)
      ensures !closed && readable && old(WellServed(if size < 0 then 1 + |file| else size - |rbuffer|)) ==> r.Data?
      ensures !closed && readable && 0 <= size <= |old(rbuffer)| ==>
                r.Data? && |r.data| == size && script == old(script) && requestNumber == old(requestNumber)
    {
      hide BuffersTrue, RequestsTrue, ErrorsTrue, Obliging;
      if closed || !readable {
        return Raised(IoError);
      }
      if size < 0 {
        r := ReadToEnd();
        return;
      }
      if size > |rbuffer| {
        r := Fill(size);
        if !r.Data? {
          return;
        }
      }
      ghost var at := pos;
      var data := FromBuffer(size);
      FileDataIsSlice(at, size, data);
      r := Data(data);
    }

    /** The beginning of the read buffer, which moves the user's position. */
    method FromBuffer(size: nat) returns (data: bytes)
      requires PositionsTrue()
      modifies this`rbuffer, this`pos
      ensures PositionsTrue() && pos == old(pos) + |data| && data + rbuffer == old(rbuffer)
      ensures IsFileData(data, old(pos), size) && (|data| < size ==> rbuffer == [])
    {
      var n := if size < |rbuffer| then size else |rbuffer|;
      data := rbuffer[..n];
      rbuffer := rbuffer[n..];
      pos := pos + n;
    }

    /** Nothing is prefetched, and the server answers as many requests as a read of `size` bytes can need. */
    predicate WellServed(size: int)
      reads this`prefetching, this`realpos, this`script, this`requestNumber
    {
      !prefetching && realpos >= 0 && Obliging(script, requestNumber) && |script| >= size
    }

    /** Reads on until `size` bytes are buffered or the file ends. */
    method Fill(size: nat) returns (r: ReadResult)
      requires Valid()
      modifies this`script, this`requestNumber, this`expecting, this`asked, this`prefetching
      modifies this`savedException, this`prefetchData, this`prefetchExtents, this`prefetchDone, this`threads
      modifies this`rbuffer, this`realpos
      ensures Valid() && !r.None?
      ensures r.Data? ==> |rbuffer| >= size || overrun || realpos >= |file|
      ensures old(WellServed(size - |rbuffer|)) ==> r.Data?
      ensures r != Raised(EofError) && Excused(r, old(savedException), old(script), old(realpos))
              && Since(old(savedException), old(script))
    {
      while |rbuffer| < size
        invariant Valid() && Since(old(savedException), old(script)) && (old(realpos) >= 0 ==> realpos >= 0)
        invariant old(WellServed(size - |rbuffer|)) ==> WellServed(size - |rbuffer|)
        decreases size - |rbuffer|
      {
        var readSize := size - |rbuffer|;
        if buffered && bufsize > readSize {
          readSize := bufsize;
        }
        var x := ReadOnce(readSize);
        if x == Raised(EofError) {
          return Data([]);
        }
        if !x.Data? {
          return x;
        }
        Extend(x.data);
      }
      r := Data([]);
    }

    /** New data goes behind the buffered data. */
    method Extend(data: bytes)
      requires PositionsTrue() && ReadTruly(Data(data), |data|)
      modifies this`rbuffer, this`realpos
      ensures PositionsTrue() && rbuffer == old(rbuffer) + data
    {
      assert rbuffer != [] ==> file[pos..realpos] + file[realpos..realpos + |data|] == file[pos..realpos + |data|];
      rbuffer := rbuffer + data;
      realpos := realpos + |data|;
    }

    method ReadToEnd() returns (r: ReadResult)
      requires Valid()
      modifies this`script, this`requestNumber, this`expecting, this`asked, this`prefetching
      modifies this`savedException, this`prefetchData, this`prefetchExtents, this`prefetchDone, this`threads
      modifies this`rbuffer, this`pos, this`realpos
      ensures Valid() && !r.None?
      ensures r.Data? ==> pos == old(pos) + |r.data|
      ensures r.Data? ==> r.data <= FileSlice(file, old(pos), -1)
      ensures r.Data? && !overrun ==> r.data == FileSlice(file, old(pos), -1)
      ensures old(WellServed(1 + |file|)) ==> r.Data?
      ensures r != Raised(EofError) && Excused(r, old(savedException), old(script), old(realpos))
              && Since(old(savedException), old(script))
    {
      hide BuffersTrue, RequestsTrue, ErrorsTrue, Obliging, FileSlice;
      var result := rbuffer;
      rbuffer := [];
      pos := pos + |result|;
      while true
        invariant Valid() && rbuffer == [] && pos == old(pos) + |result| && IsFileData(result, old(pos), -1)
        invariant Since(old(savedException), old(script)) && (old(realpos) >= 0 ==> realpos >= 0)
        invariant old(WellServed(1 + |file|)) ==> WellServed(1 + |file| - (pos - old(realpos)))
        decreases |file| - pos
      {
        var x := ReadOn();
        if x == Raised(EofError) {
          FileDataIsSlice(old(pos), -1, result);
          return Data(result);
        }
        if !x.Data? {
          return x;
        }
        FileDataGrows(old(pos), result, x.data);
        result := result + x.data;
      }
    }

    /** One read past the buffer, which moves both positions. */
    method ReadOn() returns (x: ReadResult)
      requires Valid() && rbuffer == []
      modifies this`script, this`requestNumber, this`expecting, this`asked, this`prefetching
      modifies this`savedException, this`prefetchData, this`prefetchExtents, this`prefetchDone, this`threads
      modifies this`pos, this`realpos
      ensures Valid() && !x.None?
      ensures if x.Data? then x.data != [] && 0 <= old(pos) && IsFileData(x.data, old(pos), -1)
              && pos == old(pos) + |x.data|
              else pos == old(pos)
      ensures pos <= |file| || pos == old(pos)
      ensures realpos >= old(realpos)
      ensures x == Raised(EofError) ==> overrun || pos >= |file|
      ensures old(WellServed(1)) ==>
                && (x.Data? || x == Raised(EofError)) && !prefetching
                && Obliging(script, requestNumber) && |script| == |old(script)| - 1
      ensures Since(old(savedException), old(script)) && Excused(x, old(savedException), old(script), old(realpos))
    {
      x := ReadOnce(DEFAULT_BUFSIZE);
      if x.Data? {
        realpos := realpos + |x.data|;
        pos := pos + |x.data|;
      }
    }

    lemma FileDataGrows(at: int, data: bytes, more: bytes)
      requires IsFileData(data, at, -1) && IsFileData(more, at + |data|, -1) && more != []
      requires data == [] ==> 0 <= at
      ensures IsFileData(data + more, at, -1)
    {
      assert data != [] ==>
          file[at..at + |data|] + file[at + |data|..at + |data| + |more|] == file[at..at + |data| + |more|];
    }

    lemma FileDataIsSlice(at: int, size: int, data: bytes)
      requires IsFileData(data, at, size)
      ensures data <= FileSlice(file, at, size)
      ensures (size >= 0 && |data| == size) || at + |data| >= |file| ==> data == FileSlice(file, at, size)
    {
    }

    /** Moves both positions and forgets the read buffer; `serverSize` is what the server says the file's size is. */
    method Seek(offset: int, whence: int, serverSize: nat)
      requires Valid()
      modifies this`pos, this`realpos, this`rbuffer
      ensures Valid() && rbuffer == [] && realpos == pos
      ensures pos == if whence == SEEK_SET then offset else if whence == SEEK_CUR then old(pos) + offset
              else serverSize + offset
    {
      if whence == SEEK_SET {
        pos := offset;
        realpos := offset;
      } else if whence == SEEK_CUR {
        pos := pos + offset;
        realpos := pos;
      } else {
        pos := serverSize + offset;
        realpos := pos;
      }
      rbuffer := [];
    }

    /** Hands the chunks to a new thread. */
    method StartPrefetch(chunks: seq<Extent>)
      requires Valid()
      modifies this`prefetching, this`prefetchDone, this`threads, this`overrun
      ensures Valid() && prefetching && !prefetchDone
      ensures threads == old(threads) + [Thread(NotPending, chunks)]
      ensures overrun == (old(overrun) || exists e :: e in chunks && !InFile(e))
    {
      hide BuffersTrue, PositionsTrue;
      prefetching := true;
      prefetchDone := false;
      overrun := overrun || exists e :: e in chunks && !InFile(e);
      threads := threads + [Thread(NotPending, chunks)];
      forall n | n in expecting && expecting[n].owner == Prefetcher && n !in prefetchExtents
        ensures IsPending(n)
      {
        var j :| 0 <= j < |old(threads)| && old(threads)[j].pending.Pending? && old(threads)[j].pending.num == n;
        assert threads[j] == old(threads)[j];
      }
    }

    /** Requests the rest of the file from the real position on, in chunks of at most the request size. */
    method Prefetch(fileSize: int)
      requires Valid()
      modifies this`prefetching, this`prefetchDone, this`threads, this`overrun
      ensures Valid()
      ensures 0 <= realpos && fileSize <= |file| ==> overrun == old(overrun)
      ensures realpos >= fileSize ==> threads == old(threads) && prefetching == old(prefetching)
      ensures realpos < fileSize ==>
                && |threads| == |old(threads)| + 1 && threads[..|old(threads)|] == old(threads)
                && Chunked(threads[|old(threads)|].chunks, realpos, fileSize)
                && FullSized(threads[|old(threads)|].chunks)
    {
      var chunks := [];
      var n := realpos;
      while n < fileSize
        invariant Chunked(chunks, realpos, n) && realpos <= n
                  && (if realpos < fileSize then n <= fileSize else n == realpos)
        invariant chunks == [] <==> n == realpos
        invariant FullSized(chunks) && (n < fileSize ==> forall e :: e in chunks ==> e.length == MAX_REQUEST_SIZE)
        invariant 0 <= realpos && fileSize <= |file| ==> forall e :: e in chunks ==> InFile(e)
        decreases fileSize - n
      {
        var chunk := if MAX_REQUEST_SIZE < fileSize - n then MAX_REQUEST_SIZE else fileSize - n;
        chunks := chunks + [Extent(n, chunk)];
        n := n + chunk;
      }
      if |chunks| > 0 {
        StartPrefetch(chunks);
      }
    }

    /** Only blocks inside the file are asked for. */
    ghost predicate BlocksInFile(chunks: seq<Extent>) {
      forall e :: e in chunks ==> e.length <= 0 || InFile(e)
    }

    /** Every byte of the block is in some outstanding extent. */
    ghost predicate Requested(e: Extent)
      reads this`prefetchExtents
    {
      forall q :: e.offset <= q < e.offset + e.length ==> RequestedAt(q)
    }

    ghost predicate RequestedAt(q: int)
      reads this`prefetchExtents
    {
      exists n :: n in prefetchExtents && Covers(prefetchExtents[n], q)
    }

    /** The block's first byte is cached; a buffer at offset 0 does not count, since its offset is taken for a "no". */
    predicate CountsAsCached(e: Extent)
      reads this`prefetchData
      ensures CountsAsCached(e) <==> exists k :: k != 0 && CachedIn(prefetchData, e.offset, k)
    {
      var found := DataInPrefetchBuffers(prefetchData, e.offset);
      found.Found? && found.index != 0
    }

    /** No byte is outstanding twice. */
    ghost predicate RequestsDisjoint()
      reads this`prefetchExtents
    {
      && (forall n :: n in prefetchExtents ==> prefetchExtents[n].length > 0)
      && (forall n, m :: n in prefetchExtents && m in prefetchExtents && n != m ==>
            prefetchExtents[n].offset + prefetchExtents[n].length <= prefetchExtents[m].offset
            || prefetchExtents[m].offset + prefetchExtents[m].length <= prefetchExtents[n].offset)
    }

    /**
     * `kept` says which blocks have to be requested: never one that counts as cached, all that nothing covers, and
     * none that the outstanding requests cover if these do not overlap.
     */
    ghost predicate KeptRightly(chunks: seq<Extent>, kept: seq<bool>)
      reads this`prefetchData, this`prefetchExtents
    {
      |kept| == |chunks| && forall k :: 0 <= k < |chunks| ==> BlockKeptRightly(chunks[k], kept[k])
    }

    ghost predicate BlockKeptRightly(e: Extent, kept: bool)
      reads this`prefetchData, this`prefetchExtents
    {
      && (kept ==> !CountsAsCached(e))
      && (kept && e.length > 0 && RequestsDisjoint() ==> !Requested(e))
      && (!kept ==> CountsAsCached(e) || Requested(e))
    }

    /** Whether a block has to be requested. */
    method Needed(e: Extent) returns (needed: bool)
      ensures BlockKeptRightly(e, needed)
    {
      hide DataInPrefetchBuffers, DataInPrefetchRequests, Requested, RequestsDisjoint, Disjoint;
      var es := Outstanding();
      needed := !(CountsAsCached(e) || DataInPrefetchRequests(es, e.offset, e.length));
      if needed {
        if RequestsDisjoint() && e.length > 0 {
          KeptWhenNotCovered(e, es);
        }
      } else {
        SkippedRightly(e, es);
      }
    }

    /** What still has to be requested for a list of blocks, in their order and cut to the request size. */
    method Missing(chunks: seq<Extent>) returns (readChunks: seq<Extent>, ghost kept: seq<bool>)
      ensures KeptRightly(chunks, kept) && readChunks == PiecesOfKept(chunks, kept)
      ensures BlocksInFile(chunks) ==> forall e :: e in readChunks ==> InFile(e)
    {
      hide PiecesOfKept, Pieces, BlockKeptRightly;
      readChunks, kept := [], [];
      assert PiecesOfKept(chunks[..0], []) == [] by {
        NoBlocks(chunks);
      }
      for k := 0 to |chunks|
        invariant KeptRightly(chunks[..k], kept) && readChunks == PiecesOfKept(chunks[..k], kept)
        invariant BlocksInFile(chunks) ==> forall e :: e in readChunks ==> InFile(e)
      {
        OneMoreBlock(chunks, kept, k, false);
        OneMoreBlock(chunks, kept, k, true);
        var needed := Needed(chunks[k]);
        if !needed {
          kept := kept + [false];
          continue;
        }
        var more := BreakUp(chunks[k]);
        assert chunks[k] in chunks;
        readChunks := readChunks + more;
        kept := kept + [true];
      }
      assert chunks[..|chunks|] == chunks;
    }

    lemma KeptWhenNotCovered(e: Extent, es: seq<Extent>)
      requires forall n :: n in prefetchExtents ==> prefetchExtents[n] in es
      requires Disjoint(es) && e.length > 0 && !DataInPrefetchRequests(es, e.offset, e.length)
      ensures !Requested(e)
    {
      if Requested(e) {
        forall b | e.offset <= b < e.offset + e.length
          ensures CoveredAt(es, b)
        {
          assert RequestedAt(b);
        }
        CoveredIsFound(es, e.offset, e.length);
        assert false;
      }
    }

    lemma SkippedRightly(e: Extent, es: seq<Extent>)
      requires forall x :: x in es ==> x in prefetchExtents.Values
      ensures DataInPrefetchRequests(es, e.offset, e.length) ==> Requested(e)
    {
      if DataInPrefetchRequests(es, e.offset, e.length) {
        FoundIsCovered(es, e.offset, e.length);
        forall q | e.offset <= q < e.offset + e.length
          ensures RequestedAt(q)
        {
          assert CoveredAt(es, q);
          var x :| x in es && Covers(x, q);
          assert x in prefetchExtents.Values;
          var n :| n in prefetchExtents && prefetchExtents[n] == x;
        }
      }
    }

    /** The block in pieces of the request size. */
    method BreakUp(e: Extent) returns (pieces: seq<Extent>)
      ensures pieces == Pieces(e)
      ensures forall p :: p in pieces ==> 0 < p.length <= MAX_REQUEST_SIZE && (InFile(e) ==> InFile(p))
    {
      hide Pieces, Chunked;
      pieces := [];
      var offset, size := e.offset, e.length;
      while size > 0
        invariant offset + size == e.offset + e.length && offset >= e.offset && (e.length > 0 ==> size >= 0)
        invariant pieces + Pieces(Extent(offset, size)) == Pieces(e)
        invariant forall p :: p in pieces ==> 0 < p.length <= MAX_REQUEST_SIZE && (InFile(e) ==> InFile(p))
      {
        var chunkSize := if size < MAX_REQUEST_SIZE then size else MAX_REQUEST_SIZE;
        FirstPiece(Extent(offset, size), pieces);
        pieces := pieces + [Extent(offset, chunkSize)];
        offset := offset + chunkSize;
        size := size - chunkSize;
      }
    }

    ghost predicate BlockRead(r: ReadResult, e: Extent)
      reads this`overrun
    {
      r.Data? ==>
        r.data <= FileSlice(file, e.offset, e.length) && (!overrun ==> r.data == FileSlice(file, e.offset, e.length))
    }

    /** Reads a list of blocks, each one exactly; the first one that fails ends the list. */
    method ReadV(chunks: seq<Extent>) returns (results: seq<ReadResult>)
      requires Valid()
      modifies this`script, this`requestNumber, this`expecting, this`asked, this`prefetching
      modifies this`savedException, this`prefetchData, this`prefetchExtents, this`prefetchDone, this`threads
      modifies this`rbuffer, this`pos, this`realpos, this`overrun
      ensures Valid() && |results| <= |chunks|
      ensures |results| < |chunks| ==> results != [] && !results[|results| - 1].Data?
      ensures forall i :: 0 <= i < |results| ==> BlockRead(results[i], chunks[i])
      ensures forall i :: 0 <= i < |results| - 1 ==> results[i].Data?
      ensures results != [] && !results[|results| - 1].Data? ==>
                if closed || !readable then results == [Raised(IoError)]
                else
                  && !results[|results| - 1].None?
                  && results[|results| - 1] != Raised(EofError)
                  && Excused(results[|results| - 1], old(savedException), old(script), chunks[|results| - 1].offset)
      ensures Since(old(savedException), old(script))
      ensures BlocksInFile(chunks) ==> overrun == old(overrun)
    {
      hide BuffersTrue, RequestsTrue, PositionsTrue, ErrorsTrue, FileSlice, PiecesOfKept, KeptRightly;
      var readChunks, _ := Missing(chunks);
      StartPrefetch(readChunks);
      results := [];
      ghost var over := overrun;
      for k := 0 to |chunks|
        invariant Valid() && |results| == k && overrun == over
        invariant forall i :: 0 <= i < |results| ==> BlockRead(results[i], chunks[i]) && results[i].Data?
        invariant Since(old(savedException), old(script)) && (k > 0 ==> !closed && readable)
      {
        Seek(chunks[k].offset, SEEK_SET, 0);
        var r := Read(chunks[k].length);
        results := results + [r];
        if !r.Data? {
          return;
        }
      }
    }
  }

  const SEEK_SET := 0
  const SEEK_CUR := 1
  const DEFAULT_BUFSIZE := 8192

  /** A block in pieces of at most the request size. */
  function Pieces(e: Extent): (pieces: seq<Extent>)
    ensures e.length > 0 ==> Chunked(pieces, e.offset, e.offset + e.length)
    ensures e.length <= 0 ==> pieces == []
    ensures FullSized(pieces)
    decreases e.length
  {
    if e.length <= 0 then []
    else if e.length <= MAX_REQUEST_SIZE then [e]
    else
      var rest := Pieces(Extent(e.offset + MAX_REQUEST_SIZE, e.length - MAX_REQUEST_SIZE));
      ChunkedInFront(Extent(e.offset, MAX_REQUEST_SIZE), rest, e.offset + e.length);
      [Extent(e.offset, MAX_REQUEST_SIZE)] + rest
  }

  lemma FirstPiece(e: Extent, before: seq<Extent>)
    requires e.length > 0
    ensures var n := if e.length < MAX_REQUEST_SIZE then e.length else MAX_REQUEST_SIZE;
            before + Pieces(e) == (before + [Extent(e.offset, n)]) + Pieces(Extent(e.offset + n, e.length - n))
  {
  }

  lemma {:induction false} ChunkedInFront(first: Extent, rest: seq<Extent>, to: int)
    requires 0 < first.length <= MAX_REQUEST_SIZE && Chunked(rest, first.offset + first.length, to)
    ensures Chunked([first] + rest, first.offset, to)
    decreases |rest|
  {
    var all, n := [first] + rest, |rest|;
    if rest == [] {
      assert all[..0] == [];
    } else {
      assert all[..n] == [first] + rest[..n - 1];
      ChunkedInFront(first, rest[..n - 1], rest[n - 1].offset);
    }
  }

  /** The pieces of the blocks that are kept. */
  function PiecesOfKept(chunks: seq<Extent>, kept: seq<bool>): seq<Extent>
    requires |chunks| == |kept|
  {
    if chunks == [] then []
    else
      var n := |chunks| - 1;
      PiecesOfKept(chunks[..n], kept[..n]) + if kept[n] then Pieces(chunks[n]) else []
  }

  lemma NoBlocks(chunks: seq<Extent>)
    ensures PiecesOfKept(chunks[..0], []) == []
  {
  }

  lemma OneMoreBlock(chunks: seq<Extent>, kept: seq<bool>, k: nat, b: bool)
    requires k < |chunks| && |kept| == k
    ensures PiecesOfKept(chunks[..k + 1], kept + [b]) == PiecesOfKept(chunks[..k], kept) + if b then Pieces(chunks[k])
            else []
  {
    hide Pieces;
    var c, q := chunks[..k + 1], kept + [b];
    assert c[..k] == chunks[..k] && q[..k] == kept && c[k] == chunks[k];
  }

  /** Consecutive pieces of at most the request size that make up the range exactly. */
  predicate Chunked(chunks: seq<Extent>, from: int, to: int) {
    if chunks == [] then from == to
    else
      var n := |chunks| - 1;
      && 0 < chunks[n].length <= MAX_REQUEST_SIZE
      && chunks[n].offset + chunks[n].length == to
      && Chunked(chunks[..n], from, chunks[n].offset)
  }

  /** Only the last piece may be shorter than the request size. */
  predicate FullSized(chunks: seq<Extent>) {
    forall i :: 0 <= i < |chunks| - 1 ==> chunks[i].length == MAX_REQUEST_SIZE
  }

  ghost predicate Refused(script: seq<Event>) {
    exists n :: Refuse(n) in script
  }

  /** Nobody's entry is changed or removed. */
  ghost predicate Grows(a: map<nat, Request>, b: map<nat, Request>) {
    forall n :: n in a ==> n in b && b[n] == a[n]
  }
}
