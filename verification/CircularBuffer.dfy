/**
 The blocking circular buffer of chiTCP: a ring of bytes with 32-bit sequence counters at both ends.
 A call looks at `closed` without the lock and then takes it.  A region under the lock is one atomic
 step, ending where the lock is released; close takes no lock, so it may fall before a region, after
 it, or between two bytes that the region copies.  A writer that fills the ring half way through
 keeps its local variables in `writer` while it waits.  The ring is proved to be the queue of module
 ByteQueue, whose runs carry the stream theorems.
 */
module ByteQueue {
  import opened Common
  import opened Runs

  const EWOULDBLOCK := -6

  /**
   What a call does by the end of its step: it has found the buffer open and goes for the lock, it
   returns a code, it goes to sleep on a condition, or it waits for a lock that nobody will release.
   */
  datatype Outcome = Inside | Done(code: int) | Waiting | Hanging

  /** A write before its region under the lock, or asleep with bytes still to be put, of `len` in all. */
  datatype Writer = NoWriter | Entered(data: seq<byte>, blocking: bool) | Blocked(rest: seq<byte>, len: nat)

  /** A read before its region under the lock; a blocking one that sleeps does the same when it wakes. */
  datatype Reader = NoReader | Reader(n: nat, blocking: bool)

  /** `full` is the flag a sleeping writer waits for.  `locked` means that a call returned and kept the lock. */
  datatype Queue = Queue(
    cap: nat, unread: seq<byte>, closed: bool, full: bool, writer: Writer, reader: Reader, locked: bool)

  function Empty(cap: nat): Queue {
    Queue(cap, [], false, false, NoWriter, NoReader, false)
  }

  // ---------- write ----------

  /** The look at `closed` without the lock. */
  function StartWrite(q: Queue, data: seq<byte>, blocking: bool): (Queue, Outcome) {
    if q.closed then (q, Done(0)) else (q.(writer := Entered(data, blocking)), Inside)
  }

  /** Puts what fits; what does not fit waits. */
  function Put(q: Queue, rest: seq<byte>, len: nat): (Queue, Outcome)
    requires |q.unread| <= q.cap
  {
    var n := Min(|rest|, q.cap - |q.unread|);
    var q' := q.(unread := q.unread + rest[..n]);
    if n == |rest| then (q'.(writer := NoWriter), Done(len))
    else (q'.(writer := Blocked(rest[n..], len), full := true), Waiting)
  }

  /** What a write call may put at most: the buffer never takes more than its capacity in one call. */
  function Accepted(q: Queue, data: seq<byte>): seq<byte> {
    data[..Min(|data|, q.cap)]
  }

  predicate Refuses(q: Queue, data: seq<byte>, blocking: bool) {
    !blocking && q.cap - |q.unread| < |data|
  }

  /** The bytes the writer's next region would put if there were room for all. */
  function ToPut(q: Queue): seq<byte> {
    if q.locked then []
    else
      match q.writer
      case NoWriter => []
      case Entered(data, blocking) => if Refuses(q, data, blocking) then [] else Accepted(q, data)
      case Blocked(rest, _) => rest
  }

  /** Another thread may close the buffer after `cut` of the bytes that a region puts have gone in. */
  predicate MayCutPut(q: Queue, rest: seq<byte>, cut: Option<nat>) {
    cut.Some? ==> !q.closed && |q.unread| <= q.cap && cut.value < Min(|rest|, q.cap - |q.unread|)
  }

  /** The loops of write.  `closed` is looked at before each byte, but not before going to sleep. */
  function PutUnlessClosed(q: Queue, rest: seq<byte>, len: nat, cut: Option<nat>): (Queue, Outcome)
    requires |q.unread| <= q.cap && MayCutPut(q, rest, cut)
  {
    if q.closed && |q.unread| < q.cap && rest != [] then (q.(writer := NoWriter), Done(len - |rest|))
    else if cut.None? then Put(q, rest, len)
    else
      (q.(unread := q.unread + rest[..cut.value], closed := true, writer := NoWriter), Done(len - |rest| + cut.value))
  }

  function WriteRegion(q: Queue, cut: Option<nat>): (Queue, Outcome)
    requires |q.unread| <= q.cap && q.writer.Entered? && MayCutPut(q, ToPut(q), cut)
  {
    var Entered(data, blocking) := q.writer;
    if q.locked then (q, Hanging)
    else if Refuses(q, data, blocking) then (q.(writer := NoWriter, locked := true), Done(EWOULDBLOCK))
    else PutUnlessClosed(q, Accepted(q, data), |Accepted(q, data)|, cut)
  }

  /**
   The sleeping writer is woken: it goes on once `full` is cleared.  If no byte has left the ring all
   the same, the ring counts as empty from then on.
   */
  function Wake(q: Queue, cut: Option<nat>): (Queue, Outcome)
    requires |q.unread| <= q.cap && q.writer.Blocked? && MayCutPut(q, ToPut(q), cut)
  {
    if q.locked then (q, Hanging)
    else if q.full then (q, Waiting)
    else
      var q' := if |q.unread| == q.cap then q.(unread := []) else q;
      PutUnlessClosed(q', q.writer.rest, q.writer.len, cut)
  }

  // ---------- read ----------

  function StartRead(q: Queue, n: nat, blocking: bool): (Queue, Outcome) {
    if q.closed then (q, Done(0)) else (q.(reader := Reader(n, blocking)), Inside)
  }

  /** Another thread may close the buffer after `cut` of the bytes that a read copies. */
  predicate MayCutTake(q: Queue, cut: Option<nat>) {
    cut.Some? ==> !q.closed && !q.locked && q.reader.Reader? && cut.value < Min(q.reader.n, |q.unread|)
  }

  /** The bytes that a region of the reader takes off the queue. */
  function Taken(q: Queue, cut: Option<nat>): seq<byte> {
    if q.closed || q.locked || q.reader.NoReader? || cut.Some? then [] else q.unread[..Min(q.reader.n, |q.unread|)]
  }

  /**
   The region of a read, from its start or from a wait.  A blocking one looks at `closed` when there is
   something to read, and then keeps the lock; any looks again before each byte, and then does not.
   */
  function ReadRegion(q: Queue, cut: Option<nat>): (Queue, Outcome)
    requires q.reader.Reader? && MayCutTake(q, cut)
  {
    var q' := q.(reader := NoReader);
    if q.locked then (q, Hanging)
    else if q.unread == [] then (if q.reader.blocking then (q, Waiting) else (q', Done(EWOULDBLOCK)))
    else if q.closed then (q'.(locked := q.reader.blocking), Done(0))
    else if cut.Some? then (q'.(closed := true, full := q.full && cut.value == 0), Done(0))
    else
      var n := |Taken(q, cut)|;
      (q'.(unread := q.unread[n..], full := q.full && n == 0), Done(n))
  }

  // ---------- one writer, one reader, any interleaving ----------

  datatype Event =
    | CallWrite(data: seq<byte>, blocking: bool)
    | Writing(cut: Option<nat>)
    | Waking(cut: Option<nat>)
    | CallRead(n: nat, blocking: bool)
    | Reading(cut: Option<nat>)
    | Closing

  /** The queue, with all bytes whose writing was undertaken and all bytes reads have returned. */
  datatype Stream = Stream(q: Queue, written: seq<byte>, got: seq<byte>)

  /** A write that finds the buffer closed when it has the lock undertakes nothing, unless it goes to sleep. */
  function Undertaken(q: Queue): seq<byte> {
    if q.closed && |q.unread| < q.cap then [] else ToPut(q)
  }

  ghost predicate Moves(s: Stream, e: Event, s': Stream) {
    |s.q.unread| <= s.q.cap &&
    match e
    case CallWrite(data, blocking) => s.q.writer.NoWriter? && s' == s.(q := StartWrite(s.q, data, blocking).0)
    case Writing(cut) =>
      && s.q.writer.Entered? && MayCutPut(s.q, ToPut(s.q), cut)
      && s' == Stream(WriteRegion(s.q, cut).0, s.written + Undertaken(s.q), s.got)
    case Waking(cut) =>
      && s.q.writer.Blocked? && MayCutPut(s.q, ToPut(s.q), cut)
      && s' == s.(q := Wake(s.q, cut).0)
    case CallRead(n, blocking) => s.q.reader.NoReader? && s' == s.(q := StartRead(s.q, n, blocking).0)
    case Reading(cut) =>
      && s.q.reader.Reader? && MayCutTake(s.q, cut)
      && s' == Stream(ReadRegion(s.q, cut).0, s.written, s.got + Taken(s.q, cut))
    case Closing => s' == s.(q := s.q.(closed := true))
  }

  function Rest(q: Queue): seq<byte> {
    if q.writer.Blocked? then q.writer.rest else []
  }

  ghost predicate Sleeps(q: Queue) {
    && (q.full ==> q.writer.Blocked? && |q.unread| == q.cap)
    && (q.writer.Blocked? ==> 0 < |q.writer.rest| <= q.writer.len <= q.cap)
    && (q.writer.Blocked? && !q.closed ==> (q.full <==> |q.unread| == q.cap))
  }

  ghost predicate Accounted(s: Stream) {
    && |s.q.unread| <= s.q.cap && Sleeps(s.q)
    && s.got + s.q.unread + Rest(s.q) <= s.written
    && (!s.q.closed || !s.q.writer.NoWriter? ==> s.got + s.q.unread + Rest(s.q) == s.written)
  }

  lemma PutKeeps(s: Stream, rest: seq<byte>, len: nat, written: seq<byte>)
    requires |s.q.unread| <= s.q.cap && |rest| <= len <= s.q.cap && !s.q.full
    requires s.got + s.q.unread + rest == written
    ensures Accounted(Stream(Put(s.q, rest, len).0, written, s.got))
  {
    var n := Min(|rest|, s.q.cap - |s.q.unread|);
    assert rest == rest[..n] + rest[n..];
  }

  lemma PutUnlessClosedKeeps(s: Stream, rest: seq<byte>, len: nat, cut: Option<nat>, written: seq<byte>)
    requires |s.q.unread| <= s.q.cap && |rest| <= len <= s.q.cap && !s.q.full && MayCutPut(s.q, rest, cut)
    requires if s.q.closed && |s.q.unread| < s.q.cap then s.got + s.q.unread <= written
             else s.got + s.q.unread + rest == written
    ensures Accounted(Stream(PutUnlessClosed(s.q, rest, len, cut).0, written, s.got))
  {
    if s.q.closed && |s.q.unread| < s.q.cap {
      assert rest == [] ==> s.q.unread + rest[..0] == s.q.unread;
    } else if cut.None? {
      PutKeeps(s, rest, len, written);
    } else {
      assert rest == rest[..cut.value] + rest[cut.value..];
    }
  }

  lemma WakeKeeps(s: Stream, cut: Option<nat>)
    requires Accounted(s) && s.q.writer.Blocked? && MayCutPut(s.q, ToPut(s.q), cut)
    ensures Accounted(s.(q := Wake(s.q, cut).0))
  {
    if !s.q.locked && !s.q.full {
      var s' := if |s.q.unread| == s.q.cap then s.(q := s.q.(unread := [])) else s;
      PutUnlessClosedKeeps(s', s.q.writer.rest, s.q.writer.len, cut, s.written);
    }
  }

  lemma ReadKeeps(s: Stream, cut: Option<nat>)
    requires s.q.reader.Reader? && MayCutTake(s.q, cut)
    ensures s.got + Taken(s.q, cut) + ReadRegion(s.q, cut).0.unread == s.got + s.q.unread
  {
  }

  lemma MoveKeeps(s: Stream, e: Event, s': Stream)
    requires Accounted(s) && Moves(s, e, s')
    ensures Accounted(s')
  {
    match e
    case CallWrite(data, blocking) =>
    case Writing(cut) =>
      if !s.q.locked && !Refuses(s.q, s.q.writer.data, s.q.writer.blocking) {
        PutUnlessClosedKeeps(s, ToPut(s.q), |ToPut(s.q)|, cut, s'.written);
      }
    case Waking(cut) => WakeKeeps(s, cut);
    case CallRead(n, blocking) =>
    case Reading(cut) => ReadKeeps(s, cut);
    case Closing =>
  }

  /**
   Along every run from an empty buffer, what the reads returned, then what is unread, then what the
   sleeping writer still holds, is a prefix of what was written, and all of it until the buffer is
   closed.  The unread part never outgrows the capacity.
   */
  lemma RunReadsWhatWasWritten(tr: seq<Stream>, es: seq<Event>, cap: nat, k: nat)
    requires IsRun(tr, es, Moves) && k < |tr|
    requires tr[0] == Stream(Empty(cap), [], [])
    ensures tr[k].got + tr[k].q.unread + Rest(tr[k].q) <= tr[k].written
    ensures !tr[k].q.closed ==> tr[k].got + tr[k].q.unread + Rest(tr[k].q) == tr[k].written
    ensures tr[k].got <= tr[k].written && |tr[k].q.unread| <= tr[k].q.cap
  {
    RunAccounted(tr, es, cap, k);
  }

  lemma RunAccounted(tr: seq<Stream>, es: seq<Event>, cap: nat, k: nat)
    requires IsRun(tr, es, Moves) && k < |tr|
    requires tr[0] == Stream(Empty(cap), [], [])
    ensures Accounted(tr[k])
  {
    forall s, e, s' | Accounted(s) && Moves(s, e, s') ensures Accounted(s') { MoveKeeps(s, e, s'); }
    InvariantHolds(tr, es, Moves, Accounted, k);
  }

  /**
   While the buffer is open and its lock is released by every call, a writer and a reader never both
   wait for ever: when both sleep, one of them goes on if it is woken.
   */
  lemma OneSideMoves(tr: seq<Stream>, es: seq<Event>, cap: nat, k: nat)
    requires IsRun(tr, es, Moves) && k < |tr|
    requires tr[0] == Stream(Empty(cap), [], [])
    requires tr[k].q.writer.Blocked? && tr[k].q.reader.Reader? && !tr[k].q.closed && !tr[k].q.locked
    ensures var q := tr[k].q;
      && |q.unread| <= q.cap
      && if |q.unread| < q.cap then q.unread < Wake(q, None).0.unread
         else ReadRegion(q, None).1.Done? && (q.reader.n > 0 ==> Taken(q, None) != [])
  {
    RunAccounted(tr, es, cap, k);
  }

  // ---------- how much a call does, and what it reports ----------

  /**
   A read of an open buffer with something in it takes as many bytes as it asked for, or all there are,
   off the front, and returns their number; no other region of a reader takes any.
   */
  lemma ReadTakes(q: Queue)
    requires q.reader.Reader? && !q.locked && !q.closed && q.unread != []
    ensures var (q', o) := ReadRegion(q, None);
      && q.unread == Taken(q, None) + q'.unread
      && |Taken(q, None)| <= q.reader.n && (|Taken(q, None)| < q.reader.n ==> q'.unread == [])
      && o == Done(|q.unread| - |q'.unread|) && q'.reader == NoReader && !q'.locked
  {
  }

  /** A read of an empty buffer waits if it may, and is refused with -6 if it may not. */
  lemma ReadOfNothing(q: Queue)
    requires q.reader.Reader? && !q.locked && q.unread == []
    ensures ReadRegion(q, None).1 == if q.reader.blocking then Waiting else Done(-6)
    ensures ReadRegion(q, None).0 == if q.reader.blocking then q else q.(reader := NoReader)
  {
  }

  /** A write that may not wait puts all its bytes if they fit, and none if they do not. */
  lemma WriteAllOrNothing(q: Queue, data: seq<byte>)
    requires |q.unread| <= q.cap && q.writer == Entered(data, false) && !q.locked && !q.closed
    ensures var (q', o) := WriteRegion(q, None);
      if |q.unread| + |data| <= q.cap then q'.unread == q.unread + data && o == Done(|data|)
      else q'.unread == q.unread && o == Done(-6)
  {
  }

  /** One that may wait fills the buffer and waits exactly if what it may put, at most a whole buffer, does not fit. */
  lemma WriteFillsOrWaits(q: Queue, data: seq<byte>)
    requires |q.unread| <= q.cap && q.writer == Entered(data, true) && !q.locked && !q.closed
    ensures var (q', o) := WriteRegion(q, None); var len := if |data| < q.cap then |data| else q.cap;
      if |q.unread| + len <= q.cap then q'.unread == q.unread + data[..len] && o == Done(len)
      else |q'.unread| == q.cap && q.unread + data[..len] == q'.unread + Rest(q') && o == Waiting
  {
  }

  /** A call that finds the buffer closed returns 0 before it goes for the lock; no other does. */
  lemma ClosedAtOnce(q: Queue, data: seq<byte>, n: nat, blocking: bool)
    ensures StartWrite(q, data, blocking).1 == if q.closed then Done(0) else Inside
    ensures StartRead(q, n, blocking).1 == if q.closed then Done(0) else Inside
    ensures q.closed ==> StartWrite(q, data, blocking).0 == q && StartRead(q, n, blocking).0 == q
  {
  }

  /** A write that gets the lock of a closed buffer puts nothing; but if the buffer is full it goes to sleep. */
  lemma WriteToClosed(q: Queue, data: seq<byte>)
    requires |q.unread| <= q.cap && q.writer == Entered(data, true) && !q.locked && q.closed
    ensures var (q', o) := WriteRegion(q, None);
      q'.unread == q.unread && o == if data != [] && |q.unread| == q.cap > 0 then Waiting else Done(0)
  {
  }

  /** Wherever a close falls, a write that returns from its first region reports the bytes that went in. */
  lemma WriteReports(q: Queue, cut: Option<nat>)
    requires |q.unread| <= q.cap && q.writer.Entered? && MayCutPut(q, ToPut(q), cut) && !q.locked
    requires !Refuses(q, q.writer.data, q.writer.blocking)
    ensures var (q', o) := WriteRegion(q, cut);
      && (o.Done? ==> o.code == |q'.unread| - |q.unread|)
      && (q'.writer.Blocked? ==> q'.writer.len - |q'.writer.rest| == |q'.unread| - |q.unread|)
  {
  }

  /** And one that returns or sleeps again after a wait: `len - |rest|` are the bytes that had gone in before it. */
  lemma WakeReports(q: Queue, cut: Option<nat>)
    requires |q.unread| <= q.cap && q.writer.Blocked? && MayCutPut(q, ToPut(q), cut) && !q.locked && !q.full
    requires |q.writer.rest| <= q.writer.len
    ensures var (q', o) := Wake(q, cut);
      var before := if |q.unread| == q.cap then 0 else |q.unread|;
      && (o.Done? ==> o.code == q.writer.len - |q.writer.rest| + |q'.unread| - before)
      && (q'.writer.Blocked? ==> q'.writer.len - |q'.writer.rest| == q.writer.len - |q.writer.rest| + |q'.unread| - before)
  {
  }

  /** What a call has returned by the end of a step, if it is one of the step's regions that ends. */
  function Returned(q: Queue, e: Event): Option<int>
    requires e.Reading? ==> q.reader.Reader? && MayCutTake(q, e.cut)
    requires e.Writing? ==> |q.unread| <= q.cap && q.writer.Entered? && MayCutPut(q, ToPut(q), e.cut)
    requires e.Waking? ==> |q.unread| <= q.cap && q.writer.Blocked? && MayCutPut(q, ToPut(q), e.cut)
  {
    var o := match e
             case Reading(cut) => ReadRegion(q, cut).1
             case Writing(cut) => WriteRegion(q, cut).1
             case Waking(cut) => Wake(q, cut).1
             case _ => Waiting;
    if o.Done? then Some(o.code) else None
  }

  /** On every run what a region of a reader adds to the bytes got is what it returns, and nothing if it does not. */
  lemma ReadsReportWhatTheyTook(tr: seq<Stream>, es: seq<Event>, i: nat)
    requires IsRun(tr, es, Moves) && i < |es| && es[i].Reading?
    ensures tr[i].q.reader.Reader? && MayCutTake(tr[i].q, es[i].cut)
    ensures var code := Returned(tr[i].q, es[i]);
      |tr[i + 1].got| - |tr[i].got| == if code.Some? && code.value > 0 then code.value else 0
    ensures tr[i].got <= tr[i + 1].got
  {
    assert Moves(tr[i], es[i], tr[i + 1]);
  }

  /** From the region with which a write began up to here it has slept, with these bytes of it in the queue. */
  ghost predicate AsleepSince(tr: seq<Stream>, es: seq<Event>, i: nat, k: nat)
    requires |tr| == |es| + 1
  {
    i < k <= |es| && es[i].Writing? && forall m :: i < m <= k ==> tr[m].q.writer.Blocked?
  }

  /** A step that leaves the writer asleep is the region its write began with, or leaves write and stream alone. */
  ghost predicate Owed(s: Stream, e: Event, s': Stream) {
    s'.q.writer.Blocked? ==>
      && (e.Writing? ==> s'.q.writer.len == |s'.written| - |s.written|)
      && (s.q.writer.Blocked? ==> s'.q.writer.len == s.q.writer.len && s'.written == s.written)
  }

  ghost predicate AllOwed(tr: seq<Stream>, es: seq<Event>) {
    |tr| == |es| + 1 && forall k :: 0 <= k < |es| ==> Owed(tr[k], es[k], tr[k + 1])
  }

  lemma StepOwed(s: Stream, e: Event, s': Stream)
    requires Moves(s, e, s')
    ensures Owed(s, e, s')
  {
  }

  lemma RunOwed(tr: seq<Stream>, es: seq<Event>)
    requires IsRun(tr, es, Moves)
    ensures AllOwed(tr, es)
  {
    forall k | 0 <= k < |es| ensures Owed(tr[k], es[k], tr[k + 1]) {
      assert Moves(tr[k], es[k], tr[k + 1]);
      StepOwed(tr[k], es[k], tr[k + 1]);
    }
  }

  lemma {:induction false} SleeperOwes(tr: seq<Stream>, es: seq<Event>, i: nat, k: nat)
    requires AllOwed(tr, es) && AsleepSince(tr, es, i, k)
    ensures tr[k].q.writer.Blocked? && tr[k].q.writer.len == |tr[k].written| - |tr[i].written|
    decreases k
  {
    assert Owed(tr[k - 1], es[k - 1], tr[k - 1 + 1]);
    if i < k - 1 {
      assert AsleepSince(tr, es, i, k - 1);
      SleeperOwes(tr, es, i, k - 1);
    }
  }

  /**
   On every run a write that returns while the buffer is open, at once or after any number of waits,
   reports exactly the bytes that were added to the stream for it.
   */
  lemma WritesReportWhatTheyPut(tr: seq<Stream>, es: seq<Event>, i: nat, k: nat)
    requires IsRun(tr, es, Moves) && i <= k < |es| && es[i].Writing? && !tr[k + 1].q.closed
    requires i == k || (AsleepSince(tr, es, i, k) && es[k].Waking?)
    ensures |tr[k].q.unread| <= tr[k].q.cap && MayCutPut(tr[k].q, ToPut(tr[k].q), es[k].cut)
    ensures if i == k then tr[k].q.writer.Entered? else tr[k].q.writer.Blocked?
    ensures var code := Returned(tr[k].q, es[k]);
      code.Some? ==> |tr[k + 1].written| - |tr[i].written| == if code.value > 0 then code.value else 0
  {
    assert Moves(tr[k], es[k], tr[k + 1]);
    if i < k {
      RunOwed(tr, es);
      SleeperOwes(tr, es, i, k);
    }
  }

  // ---------- closing ----------

  /** Some bytes had been copied out of the ring when the buffer was closed, and were given back. */
  predicate CutRead(e: Event) {
    e.Reading? && e.cut.Some? && e.cut.value > 0
  }

  /**
   The documentation has a blocked write return at once when the buffer is closed.  In the code it
   does so if and only if a byte had been read by then, or a read was caught at it; otherwise it
   sleeps for ever.
   */
  lemma CloseWakesWriterIff(tr: seq<Stream>, es: seq<Event>, k: nat)
    requires IsRun(tr, es, Moves) && 1 <= k < |tr|
    requires Accounted(tr[0]) && !tr[0].q.closed && tr[1].q.closed && !tr[0].q.locked
    requires tr[0].q.writer.Blocked? && tr[1].q.writer.Blocked?
    ensures |tr[1].q.unread| <= tr[1].q.cap
    ensures Wake(tr[1].q, None).1.Done? <==> |tr[0].q.unread| < tr[0].q.cap || CutRead(es[0])
    ensures !Wake(tr[1].q, None).1.Done? ==> tr[k].q.writer == tr[0].q.writer && Wake(tr[1].q, None).1 == Waiting
  {
    assert Moves(tr[0], es[0], tr[0 + 1]);
    MoveKeeps(tr[0], es[0], tr[1]);
    if tr[1].q.full {
      FullStays(tr, es, k);
    }
  }

  lemma {:induction false} FullStays(tr: seq<Stream>, es: seq<Event>, k: nat)
    requires IsRun(tr, es, Moves) && 1 <= k < |tr|
    requires tr[1].q.closed && tr[1].q.full && tr[1].q.writer.Blocked?
    ensures tr[k].q.closed && tr[k].q.full && tr[k].q.writer == tr[1].q.writer
  {
    if k > 1 {
      FullStays(tr, es, k - 1);
      assert Moves(tr[k - 1], es[k - 1], tr[k - 1 + 1]);
    }
  }

  lemma Grown(tr: seq<Stream>, es: seq<Event>, e: Event, s: Stream) returns (tr': seq<Stream>, es': seq<Event>)
    requires IsRun(tr, es, Moves) && Moves(tr[|es|], e, s)
    ensures tr' == tr + [s] && es' == es + [e] && IsRun(tr', es', Moves)
  {
    tr', es' := tr + [s], es + [e];
    forall i | 0 <= i < |es'| ensures Moves(tr'[i], es'[i], tr'[i + 1]) {
      if i < |es| {
        assert Moves(tr[i], es[i], tr[i + 1]);
      }
    }
  }

  /** A buffer is filled by one write. */
  lemma FillsUp(d: seq<byte>)
    requires d != []
    ensures var q, q' := Empty(|d|).(writer := Entered(d, true)), Empty(|d|).(unread := d);
      && Moves(Stream(Empty(|d|), [], []), CallWrite(d, true), Stream(q, [], []))
      && Moves(Stream(q, [], []), Writing(None), Stream(q', d, []))
  {
    assert d[..|d|] == d && [] + d == d;
  }

  /** The next byte waits. */
  lemma ThenWaits(d: seq<byte>, y: byte)
    requires d != []
    ensures var q := Empty(|d|).(unread := d);
      var q', q'' := q.(writer := Entered([y], true)), q.(writer := Blocked([y], 1), full := true);
      && Moves(Stream(q, d, []), CallWrite([y], true), Stream(q', d, []))
      && Moves(Stream(q', d, []), Writing(None), Stream(q'', d + [y], []))
  {
    assert [y][..1] == [y] && [y][..0] == [] && [y][0..] == [y] && d + [] == d;
  }

  /** A write fills the buffer and another one waits. */
  lemma FullAndWaiting(d: seq<byte>, y: byte) returns (tr: seq<Stream>, es: seq<Event>)
    requires d != []
    ensures IsRun(tr, es, Moves) && tr[0] == Stream(Empty(|d|), [], [])
    ensures es == [CallWrite(d, true), Writing(None), CallWrite([y], true), Writing(None)]
    ensures tr[4] == Stream(Queue(|d|, d, false, true, Blocked([y], 1), NoReader, false), d + [y], [])
  {
    var q := Empty(|d|).(unread := d);
    FillsUp(d);
    ThenWaits(d, y);
    tr, es := [Stream(Empty(|d|), [], [])], [];
    tr, es := Grown(tr, es, CallWrite(d, true), Stream(Empty(|d|).(writer := Entered(d, true)), [], []));
    tr, es := Grown(tr, es, Writing(None), Stream(q, d, []));
    tr, es := Grown(tr, es, CallWrite([y], true), Stream(q.(writer := Entered([y], true)), d, []));
    tr, es := Grown(tr, es, Writing(None), Stream(q.(writer := Blocked([y], 1), full := true), d + [y], []));
  }

  /** Then the buffer is closed: the second write sleeps for ever. */
  lemma CloseExample(d: seq<byte>, y: byte) returns (tr: seq<Stream>, es: seq<Event>)
    requires d != []
    ensures IsRun(tr, es, Moves) && tr[0] == Stream(Empty(|d|), [], [])
    ensures es == [CallWrite(d, true), Writing(None), CallWrite([y], true), Writing(None), Closing]
    ensures tr[5].q == Queue(|d|, d, true, true, Blocked([y], 1), NoReader, false)
    ensures Wake(tr[5].q, None).1 == Waiting
  {
    tr, es := FullAndWaiting(d, y);
    tr, es := Grown(tr, es, Closing, tr[4].(q := tr[4].q.(closed := true)));
  }

  /** Or a read is caught at its second byte by the close: nothing is read, and the second write returns. */
  lemma CutExample(d: seq<byte>, y: byte) returns (tr: seq<Stream>, es: seq<Event>)
    requires |d| >= 2
    ensures IsRun(tr, es, Moves) && tr[0] == Stream(Empty(|d|), [], [])
    ensures es == [CallWrite(d, true), Writing(None), CallWrite([y], true), Writing(None),
                   CallRead(2, true), Reading(Some(1))]
    ensures tr[6].q.closed && tr[6].q.unread == d && tr[6].got == [] && tr[6].q.writer == Blocked([y], 1)
    ensures |d| <= tr[6].q.cap && Wake(tr[6].q, None).1 == Done(0)
  {
    tr, es := FullAndWaiting(d, y);
    var s := tr[4];
    tr, es := Grown(tr, es, CallRead(2, true), s.(q := s.q.(reader := Reader(2, true))));
    tr, es := Grown(tr, es, Reading(Some(1)), s.(q := s.q.(closed := true, full := false)));
  }

  /**
   A blocked read is to return 0 at once when the buffer is closed.  In the code it returns if and
   only if there is a byte unread; otherwise it sleeps for ever.
   */
  lemma {:induction false} CloseWakesReaderIffNotEmpty(tr: seq<Stream>, es: seq<Event>, k: nat)
    requires IsRun(tr, es, Moves) && k < |tr|
    requires tr[0].q.closed && tr[0].q.reader.Reader? && tr[0].q.reader.blocking && !tr[0].q.locked
    ensures ReadRegion(tr[0].q, None).1 == Done(0) <==> tr[0].q.unread != []
    ensures tr[0].q.unread == [] ==> tr[k].q.reader == tr[0].q.reader && tr[k].q.unread == []
    ensures tr[k].q.closed && tr[k].q.cap == tr[0].q.cap
  {
    if k > 0 {
      CloseWakesReaderIffNotEmpty(tr, es, k - 1);
      assert Moves(tr[k - 1], es[k - 1], tr[k - 1 + 1]);
    }
  }

  /** A read of an empty buffer and a close: the read sleeps for ever. */
  lemma CloseReaderExample(cap: nat, n: nat)
    ensures var q := Empty(cap).(reader := Reader(n, true));
      var tr := [Stream(Empty(cap), [], []), Stream(q, [], []), Stream(q, [], []), Stream(q.(closed := true), [], [])];
      IsRun(tr, [CallRead(n, true), Reading(None), Closing], Moves) && ReadRegion(tr[3].q, None).1 == Waiting
  {
  }

  // ---------- the lock ----------

  /**
   The returns that do not release the lock: a write that is refused, and a blocking read that finds a
   byte and the buffer closed, whether it was asleep or had only just got the lock.
   */
  ghost predicate KeepsLock(s: Stream, e: Event) {
    match e
    case Writing(_) => !s.q.locked && s.q.writer.Entered? && Refuses(s.q, s.q.writer.data, s.q.writer.blocking)
    case Reading(_) => !s.q.locked && s.q.closed && s.q.unread != [] && s.q.reader.Reader? && s.q.reader.blocking
    case _ => false
  }

  lemma LockStep(s: Stream, e: Event, s': Stream)
    requires Moves(s, e, s')
    ensures s'.q.locked <==> s.q.locked || KeepsLock(s, e)
  {
  }

  ghost predicate KeptBefore(tr: seq<Stream>, es: seq<Event>, k: nat)
    requires k <= |es| < |tr|
  {
    exists i :: 0 <= i < k && KeepsLock(tr[i], es[i])
  }

  lemma KeptNext(tr: seq<Stream>, es: seq<Event>, k: nat)
    requires 0 < k <= |es| < |tr|
    ensures KeptBefore(tr, es, k) <==> KeptBefore(tr, es, k - 1) || KeepsLock(tr[k - 1], es[k - 1])
  {
  }

  /** The lock is lost if and only if one of these returns has been taken. */
  lemma {:induction false} LockLostIff(tr: seq<Stream>, es: seq<Event>, cap: nat, k: nat)
    requires IsRun(tr, es, Moves) && k < |tr|
    requires tr[0] == Stream(Empty(cap), [], [])
    ensures tr[k].q.locked <==> KeptBefore(tr, es, k)
  {
    if k > 0 {
      LockLostIff(tr, es, cap, k - 1);
      assert Moves(tr[k - 1], es[k - 1], tr[k - 1 + 1]);
      LockStep(tr[k - 1], es[k - 1], tr[k]);
      KeptNext(tr, es, k);
    }
  }

  /** A write that may not wait, of more bytes than fit: it is refused, and the next calls hang. */
  lemma LockLossExample(cap: nat, data: seq<byte>, n: nat)
    requires |data| > cap
    ensures var q, q' := Empty(cap).(writer := Entered(data, false)), Empty(cap).(locked := true);
      && IsRun([Stream(Empty(cap), [], []), Stream(q, [], []), Stream(q', [], [])],
               [CallWrite(data, false), Writing(None)], Moves)
      && WriteRegion(StartWrite(q', data, true).0, None).1 == Hanging
      && ReadRegion(StartRead(q', n, true).0, None).1 == Hanging
  {
  }

  /** A byte is written, a read finds the buffer open, the buffer is closed, the read gets the lock and keeps it. */
  lemma LockRaceExample(x: byte, n: nat) returns (tr: seq<Stream>, es: seq<Event>)
    ensures IsRun(tr, es, Moves) && tr[0] == Stream(Empty(1), [], [])
    ensures es == [CallWrite([x], true), Writing(None), CallRead(n, true), Closing, Reading(None)]
    ensures !tr[4].q.locked && tr[5].q.locked
  {
    var q := Empty(1).(unread := [x]);
    FillsUp([x]);
    tr, es := [Stream(Empty(1), [], [])], [];
    tr, es := Grown(tr, es, CallWrite([x], true), Stream(Empty(1).(writer := Entered([x], true)), [], []));
    tr, es := Grown(tr, es, Writing(None), Stream(q, [x], []));
    tr, es := Grown(tr, es, CallRead(n, true), Stream(q.(reader := Reader(n, true)), [x], []));
    tr, es := Grown(tr, es, Closing, Stream(q.(reader := Reader(n, true), closed := true), [x], []));
    tr, es := Grown(tr, es, Reading(None), Stream(q.(closed := true, locked := true), [x], []));
  }

  /** From then on no region gets the lock: nothing is written, read or released any more. */
  lemma {:induction false} LockLostForGood(tr: seq<Stream>, es: seq<Event>, j: nat, k: nat)
    requires IsRun(tr, es, Moves) && j <= k < |tr| && tr[j].q.locked
    ensures var q, q' := tr[j].q, tr[k].q;
      tr[k] == tr[j].(q := q.(closed := q'.closed, writer := q'.writer, reader := q'.reader))
    ensures tr[j].q.writer.Blocked? ==> tr[k].q.writer == tr[j].q.writer
    ensures tr[j].q.reader.Reader? ==> tr[k].q.reader == tr[j].q.reader
  {
    if j < k {
      LockLostForGood(tr, es, j, k - 1);
      assert Moves(tr[k - 1], es[k - 1], tr[k - 1 + 1]);
    }
  }
}

module CircularBuffer {
  import opened ByteQueue
  import opened Common

  function Wrap(x: nat, size: nat): nat {
    if x >= size then x - size else x
  }

  /** The cells from start on, round the ring, hold exactly the bytes u. */
  ghost predicate Spells(cells: seq<byte>, start: nat, u: seq<byte>)
    requires start < |cells| || start == 0
  {
    |u| <= |cells| && forall i :: 0 <= i < |u| ==> u[i] == cells[Wrap(start + i, |cells|)]
  }

  lemma SpellsOneMore(cells: seq<byte>, start: nat, u: seq<byte>, x: byte)
    requires start < |cells| && Spells(cells, start, u) && |u| < |cells|
    ensures Spells(cells[Wrap(start + |u|, |cells|) := x], start, u + [x])
  {
  }

  lemma SpellsOneLess(cells: seq<byte>, start: nat, u: seq<byte>)
    requires start < |cells| && Spells(cells, start, u) && u != []
    ensures u[0] == cells[start] && Spells(cells, Wrap(start + 1, |cells|), u[1..])
  {
    forall i | 0 <= i < |u| - 1 ensures u[1..][i] == cells[Wrap(Wrap(start + 1, |cells|) + i, |cells|)] {
      var i' := i + 1;
      assert u[i'] == cells[Wrap(start + i', |cells|)];
    }
  }

  lemma SpellsNext(cells: seq<byte>, k: nat, u: seq<byte>, j: nat)
    requires k < |cells| && j < |u| && Spells(cells, k, u[j..])
    ensures u[..j] + [cells[k]] == u[..j + 1] && Spells(cells, Wrap(k + 1, |cells|), u[j + 1..])
  {
    SpellsOneLess(cells, k, u[j..]);
    assert u[j..][1..] == u[j + 1..];
  }

  lemma CountGrows(x: int, y: int, n: nat)
    requires U32(x - y) + n < 0x1_0000_0000
    ensures U32(U32(x + n) - y) == U32(x - y) + n
  {
  }

  lemma CountFalls(x: int, y: int, n: nat)
    requires n <= U32(x - y)
    ensures U32(x - U32(y + n)) == U32(x - y) - n
  {
  }

  lemma LeftOver(size: nat, x: int)
    requires U32(x) <= size < 0x1_0000_0000
    ensures U32(size - x) == size - U32(x)
  {
  }

  /** What a region leaves does not depend on how the writer got there. */
  lemma WriterForgotten(q: Queue, rest: seq<byte>, len: nat, cut: Option<nat>)
    requires |q.unread| <= q.cap && MayCutPut(q, rest, cut)
    ensures PutUnlessClosed(q.(writer := NoWriter), rest, len, cut) == PutUnlessClosed(q, rest, len, cut)
  {
  }

  /** Put, when the bytes from j0 up to j went in and either none is left or the queue is full. */
  lemma PutUpTo(q: Queue, d: seq<byte>, j0: nat, j: nat)
    requires j0 <= j <= |d| && |q.unread| + j - j0 <= q.cap
    requires j < |d| ==> |q.unread| + j - j0 == q.cap
    ensures Put(q, d[j0..], |d|) ==
            var q' := q.(unread := q.unread + d[j0..j]);
            if j == |d| then (q'.(writer := NoWriter), Done(|d|))
            else (q'.(writer := Blocked(d[j..], |d|), full := true), Waiting)
  {
    assert d[j0..][..j - j0] == d[j0..j] && d[j0..][j - j0..] == d[j..];
  }

  lemma PiecesJoin(u: seq<byte>, d: seq<byte>, j0: nat, j1: nat, j2: nat)
    requires j0 <= j1 <= j2 <= |d|
    ensures u + d[j0..j1] + d[j1..j2] == u + d[j0..j2]
    ensures j2 == j1 + 1 ==> u + d[j0..j1] + [d[j1]] == u + d[j0..j2]
  {
  }

  /**
   A write that has yet to get the lock, and the locals of one that waits: j of data's bytes are in, the
   next goes to cell k, and offset counts those already in seqEnd.
   */
  datatype WriteCall =
    | Idle
    | Called(data: seq<byte>, blocking: bool)
    | Asleep(data: seq<byte>, j: nat, k: nat, offset: nat)

  class Buffer {
    const maxsize: nat
    var data: array<byte>
    var start: nat
    var end: nat
    var seqStart: nat
    var seqEnd: nat
    var empty: bool
    var full: bool
    var closed: bool
    var writer: WriteCall
    var reader: Reader
    var locked: bool
    ghost var unread: seq<byte>

    /** The ring spells the unread bytes, and the flags and indices agree with their number. */
    ghost predicate Ring()
      reads this, data
    {
      && maxsize < 0x8000_0000
      && data.Length == maxsize
      && (start < maxsize || start == 0)
      && Spells(data[..], start, unread)
      && (empty <==> unread == [])
    }

    /** The sequence counters are as far apart, modulo 2^32, as there are unread bytes. */
    ghost predicate Counted()
      reads this
    {
      U32(seqEnd - seqStart) == |unread|
    }

    /** The end index and the counters account for the unread bytes. */
    ghost predicate Settled()
      reads this
    {
      Counted() && end == Wrap(start + |unread|, maxsize)
    }

    /** A write that finds the buffer closed leaves end and counter as they were. */
    ghost predicate Valid()
      reads this, data
    {
      && Ring() && seqStart == U32(seqStart)
      && (!closed || !writer.Idle? ==> Settled())
      && (match writer
          case Idle => !full
          case Called(_, _) => !full
          case Asleep(d, j, k, offset) =>
            && j < |d| <= maxsize && offset == j
            && k == end
            && (full ==> |unread| == maxsize)
            && (!closed && |unread| == maxsize ==> full))
    }

    ghost function View(): Queue
      reads this
    {
      Queue(maxsize, unread, closed, full,
            match writer
            case Idle => NoWriter
            case Called(d, blocking) => Entered(d, blocking)
            case Asleep(d, j, _, _) => if j <= |d| then Blocked(d[j..], |d|) else NoWriter,
            reader, locked)
    }

    constructor (size: nat)
      requires size < 0x8000_0000
      ensures Valid() && fresh(data) && View() == Empty(size) && start == 0
    {
      maxsize := size;
      start, end, seqStart, seqEnd := 0, 0, 0, 0;
      empty, full, closed := true, false, false;
      data := new byte[size](i => if 0 <= i then ((7 * i) % 256) as byte else 0);
      writer, reader, locked := Idle, NoReader, false;
      unread := [];
    }

    method Count() returns (n: nat)
      ensures n == U32(seqEnd - seqStart) && (Counted() ==> n == |unread|)
    {
      n := U32(seqEnd - seqStart);
    }

    method Available() returns (n: nat)
      requires Ring()
      ensures n == U32(maxsize - (seqEnd - seqStart))
      ensures Counted() ==> n == maxsize - |unread|
    {
      if Counted() { LeftOver(maxsize, seqEnd - seqStart); }
      n := U32(maxsize - (seqEnd - seqStart));
    }

    /** k is the cell after the last unread one, or one past the array's end instead of cell 0. */
    ghost predicate AtCell(k: nat)
      reads this
    {
      k == Wrap(start + |unread|, maxsize) || k == start + |unread| == maxsize
    }

    /** A running write has put j bytes; offset of them are in seqEnd. */
    ghost predicate Behind(j: nat, offset: nat)
      reads this
    {
      && writer.Idle? && !full && seqStart == U32(seqStart)
      && offset <= j && U32(seqEnd - seqStart) + j - offset == |unread|
    }

    method PutByte(x: byte, k: nat)
      requires Ring() && k < maxsize && |unread| < maxsize && k == Wrap(start + |unread|, maxsize)
      modifies data, `empty, `unread
      ensures Ring() && !empty && unread == old(unread) + [x]
    {
      SpellsOneMore(data[..], start, unread, x);
      data[k] := x;
      empty := false;
      unread := unread + [x];
    }

    /**
     The inner loop of write: bytes in a row, up to the start, the end of the array, or the last byte.
     Another thread closes the buffer before byte `cut` goes in.
     */
    method PutRow(d: seq<byte>, j0: nat, k0: nat, cut: Option<nat>) returns (j: nat, k: nat, stopped: bool)
      requires Ring() && AtCell(k0) && j0 <= |d|
      modifies data, `empty, `unread, `closed
      ensures Ring() && AtCell(k) && j0 <= j <= |d|
      ensures unread == old(unread) + d[j0..j]
      ensures stopped || (k == start && !empty) || k >= maxsize || j == |d|
      ensures Stop(old(closed), cut, j0, j, stopped)
      ensures j == j0 ==> unread == old(unread) && k == k0 && empty == old(empty)
    {
      j, k, stopped := j0, k0, false;
      while (k != start || empty) && k < maxsize && j < |d|
        invariant Ring() && AtCell(k) && j0 <= j <= |d|
        invariant unread == old(unread) + d[j0..j]
        invariant Stop(old(closed), cut, j0, j, false)
        invariant j == j0 ==> unread == old(unread) && k == k0 && empty == old(empty)
      {
        if cut == Some(j) {
          closed := true;
        }
        if closed {
          stopped := true;
          return;
        }
        PutByte(d[j], k);
        PiecesJoin(old(unread), d, j0, j, j + 1);
        k, j := k + 1, j + 1;
      }
    }

    /** Putting stops at once if the buffer was closed, else where another thread closes it, and nowhere else. */
    ghost predicate Stop(was: bool, cut: Option<nat>, j0: nat, j: nat, stopped: bool)
      reads `closed
    {
      && closed == (was || stopped)
      && (was ==> j == j0)
      && (stopped ==> was || cut == Some(j))
      && (!stopped && cut.Some? && j0 <= cut.value ==> j <= cut.value)
    }

    /** A row of bytes, after which the array's end is taken for its beginning. */
    method PutLap(d: seq<byte>, j0: nat, k0: nat, cut: Option<nat>) returns (j: nat, k: nat, stopped: bool)
      requires Ring() && k0 == Wrap(start + |unread|, maxsize) && j0 < |d| && 0 < maxsize
      requires k0 != start || empty
      modifies data, `empty, `unread, `closed
      ensures Ring() && k == Wrap(start + |unread|, maxsize) && j0 <= j <= |d|
      ensures unread == old(unread) + d[j0..j]
      ensures Stop(old(closed), cut, j0, j, stopped)
      ensures stopped || j0 < j
    {
      j, k, stopped := PutRow(d, j0, k0, cut);
      if k == maxsize {
        k := 0;
      }
    }

    /** What is free is counted as taken: all bytes put so far are in seqEnd. */
    method CatchUp(ghost j: nat, offset: nat) returns (offset': nat)
      requires Ring() && offset <= j && U32(seqEnd - seqStart) + j - offset == |unread| == maxsize
      modifies `seqEnd
      ensures Counted() && offset' == j
    {
      var available := Available();
      LeftOver(maxsize, seqEnd - seqStart);
      CountGrows(seqEnd, seqStart, available);
      seqEnd, offset' := U32(seqEnd + available), offset + available;
    }

    /** The ring is full and bytes remain: the counters are brought up to date and the writer goes to sleep. */
    method Sleep(d: seq<byte>, j: nat, k: nat, offset: nat)
      requires Ring() && AtCell(k) && Behind(j, offset) && j < |d| <= maxsize && k == start && !empty
      modifies `full, `end, `seqEnd, `writer
      ensures Valid() && View() == old(View()).(writer := Blocked(d[j..], |d|), full := true)
      ensures |unread| == maxsize
    {
      full := true;
      end := start;
      var offset' := CatchUp(j, offset);
      writer := Asleep(d, j, k, offset');
    }

    /** All bytes are in: the end index and the counter take them over. */
    method Finish(len: nat, k: nat, offset: nat)
      requires Ring() && Behind(len, offset) && k == Wrap(start + |unread|, maxsize)
      modifies `end, `seqEnd
      ensures Valid() && View() == old(View())
    {
      CountGrows(seqEnd, seqStart, len - offset);
      end := k;
      seqEnd := U32(seqEnd + len - offset);
    }

    /** The outer loop of write, until all bytes are in, the ring is full, or the buffer turns out to be closed. */
    method PutLaps(d: seq<byte>, j0: nat, k0: nat, cut: Option<nat>) returns (j: nat, k: nat, stopped: bool)
      requires Ring() && k0 == Wrap(start + |unread|, maxsize) && j0 <= |d| <= maxsize
      modifies data, `empty, `unread, `closed
      ensures Ring() && k == Wrap(start + |unread|, maxsize) && j0 <= j <= |d|
      ensures unread == old(unread) + d[j0..j]
      ensures stopped || j == |d| || (k == start && !empty)
      ensures Stop(old(closed), cut, j0, j, stopped)
      ensures old(closed) ==> (stopped <==> j0 < |d| && |old(unread)| < maxsize)
    {
      j, k, stopped := j0, k0, false;
      while j < |d| && !stopped && (k != start || empty)
        invariant Ring() && k == Wrap(start + |unread|, maxsize) && j0 <= j <= |d|
        invariant unread == old(unread) + d[j0..j]
        invariant Stop(old(closed), cut, j0, j, stopped)
        invariant stopped ==> j0 < |d| && |old(unread)| < maxsize
        decreases |d| - j, !stopped
      {
        ghost var j' := j;
        j, k, stopped := PutLap(d, j, k, cut);
        PiecesJoin(old(unread), d, j0, j', j);
      }
    }

    /** The rest of write, from a first byte to put or from a wake-up; another thread may close after `cut` bytes. */
    method PutAll(d: seq<byte>, j0: nat, k0: nat, offset0: nat, cut: Option<nat>) returns (o: Outcome)
      requires Ring() && writer.Idle? && !full && seqStart == U32(seqStart)
      requires k0 == Wrap(start + |unread|, maxsize) && j0 <= |d| <= maxsize && MayCutPut(View(), d[j0..], cut)
      requires Behind(j0, offset0) || (closed && j0 < |d| && |unread| < maxsize)
      modifies data, `empty, `unread, `full, `end, `seqEnd, `writer, `closed
      ensures Valid() && (View(), o) == PutUnlessClosed(old(View()), d[j0..], |d|, cut)
    {
      var at := if cut.Some? then Some(j0 + cut.value) else None;
      var j, k, stopped := PutLaps(d, j0, k0, at);
      if stopped {
        assert d[j0..j] == d[j0..][..j - j0];
        assert old(closed) ==> old(unread) + d[j0..j] == old(unread);
        return Done(j);
      }
      if j < |d| {
        Sleep(d, j, k, offset0);
        o := Waiting;
      } else {
        Finish(|d|, k, offset0);
        o := Done(|d|);
      }
      PutUpTo(old(View()), d, j0, j);
    }

    /** write looks at `closed` before it takes the lock.  There is one writer: none is inside when a call begins. */
    method StartWriting(d: seq<byte>, blocking: bool) returns (o: Outcome)
      requires Valid() && writer.Idle?
      modifies `writer
      ensures Valid() && (View(), o) == StartWrite(old(View()), d, blocking)
    {
      if closed {
        return Done(0);
      }
      writer, o := Called(d, blocking), Inside;
    }

    /** write under the lock, up to its return or its first wait. */
    method WriteData(cut: Option<nat>) returns (o: Outcome)
      requires Valid() && writer.Called? && MayCutPut(View(), ToPut(View()), cut)
      modifies data, `empty, `unread, `full, `end, `seqEnd, `writer, `locked, `closed
      ensures Valid() && (View(), o) == WriteRegion(old(View()), cut)
    {
      if locked {
        return Hanging;
      }
      var spaceleft := Available();
      var Called(d, blocking) := writer;
      writer := Idle;
      if spaceleft >= |d| || blocking {
        var len := if |d| <= maxsize then |d| else maxsize;
        assert d[..len] == Accepted(View(), d);
        WriterForgotten(old(View()), d[..len], len, cut);
        o := PutAccepted(d[..len], spaceleft, cut);
      } else {
        locked, o := true, Done(EWOULDBLOCK);
      }
    }

    method PutAccepted(d: seq<byte>, spaceleft: nat, cut: Option<nat>) returns (o: Outcome)
      requires Ring() && Settled() && writer.Idle? && !full && seqStart == U32(seqStart)
      requires |d| <= maxsize && spaceleft == maxsize - |unread| && MayCutPut(View(), d, cut)
      modifies data, `empty, `unread, `full, `end, `seqEnd, `writer, `closed
      ensures Valid() && (View(), o) == PutUnlessClosed(old(View()), d, |d|, cut)
    {
      var k := end;
      if k == start && spaceleft != 0 {
        empty := true;
      }
      assert d[0..] == d;
      o := PutAll(d, 0, k, 0, cut);
    }

    /** The sleeping writer has the lock again. */
    method WakeUp(cut: Option<nat>) returns (o: Outcome)
      requires Valid() && writer.Asleep? && MayCutPut(View(), ToPut(View()), cut)
      modifies data, `empty, `unread, `full, `end, `seqEnd, `writer, `closed
      ensures Valid() && (View(), o) == Wake(old(View()), cut)
    {
      if locked {
        return Hanging;
      }
      if full {
        return Waiting;
      }
      var Asleep(d, j, k, offset) := writer;
      ghost var q := if |unread| == maxsize then View().(unread := []) else View();
      WriterForgotten(q, d[j..], |d|, cut);
      writer := Idle;
      if k == start {
        empty := true;
        unread := [];
      }
      o := PutAll(d, j, k, offset, cut);
    }

    /** Takes count bytes off the ring, from the start on, unless another thread closes the buffer after `cut` of them. */
    method TakeBytes(count: nat, cut: Option<nat>) returns (dst: seq<byte>, torn: bool)
      requires Ring() && (closed || count <= |unread|) && (cut.Some? ==> !closed && cut.value < count)
      modifies `start, `full, `unread, `closed
      ensures torn <==> (old(closed) && count > 0) || cut.Some?
      ensures torn ==> closed && start == old(start) && unread == old(unread)
      ensures torn ==> full == (old(full) && (cut == None || cut.value == 0))
      ensures !torn ==> closed == old(closed) && count <= |old(unread)|
      ensures !torn ==> dst == old(unread)[..count] && unread == old(unread)[count..]
      ensures !torn ==> full == (old(full) && count == 0) && start == Wrap(old(start) + count, maxsize)
      ensures (start < maxsize || start == 0) && Spells(data[..], start, unread)
    {
      dst, torn := [], false;
      var j: nat, k: nat := 0, start;
      while j < count
        invariant unread == old(unread) && start == old(start) && closed == old(closed)
        invariant closed ==> j == 0
        invariant cut.Some? ==> j <= cut.value
        invariant 0 <= j <= count && j <= |unread| && dst == unread[..j]
        invariant (k < maxsize || k == 0) && Spells(data[..], k, unread[j..])
        invariant k == Wrap(start + j, maxsize)
        invariant full == (old(full) && j == 0)
      {
        if cut == Some(j) {
          closed := true;
        }
        if closed {
          torn := true;
          return;
        }
        SpellsNext(data[..], k, unread, j);
        dst := dst + [data[k]];
        j, k := j + 1, k + 1;
        if k == maxsize {
          k := 0;
        }
        full := false;
      }
      start := k;
      unread := unread[count..];
    }

    /** The end of read: up to n of the bytes there are. */
    method TakeUpTo(n: nat, cut: Option<nat>) returns (o: Outcome, dst: seq<byte>)
      requires Valid() && !empty && (cut.Some? ==> !closed && cut.value < Min(n, |unread|))
      modifies `start, `full, `unread, `seqStart, `empty, `closed
      ensures Valid() && o == Done(|dst|)
      ensures closed == (old(closed) || cut.Some?)
      ensures dst == if closed then [] else old(unread)[..Min(n, |old(unread)|)]
      ensures start == Wrap(old(start) + |dst|, maxsize) && unread == old(unread)[|dst|..]
      ensures full == (old(full) && dst == [] && (cut == None || cut.value == 0))
    {
      var available := Count();
      var count := if n < available then n else available;
      var torn;
      dst, torn := TakeBytes(count, cut);
      if torn {
        return Done(0), [];
      }
      PassOver(count);
      o := Done(count);
    }

    /** read looks at `closed` before it takes the lock.  There is one reader. */
    method StartReading(n: nat, blocking: bool) returns (o: Outcome)
      requires Valid() && reader.NoReader?
      modifies `reader
      ensures Valid() && (View(), o) == StartRead(old(View()), n, blocking)
    {
      if closed {
        return Done(0);
      }
      reader, o := Reader(n, blocking), Inside;
    }

    /**
     read under the lock, into a destination that is not null, from its start or from a wait: a blocking
     one looks at `closed` only once there is something to read.
     */
    method ReadData(cut: Option<nat>) returns (o: Outcome, dst: seq<byte>)
      requires Valid() && reader.Reader? && MayCutTake(View(), cut)
      modifies `start, `full, `unread, `seqStart, `empty, `reader, `locked, `closed
      ensures Valid() && (View(), o) == ReadRegion(old(View()), cut)
      ensures dst == Taken(old(View()), cut) && start == Wrap(old(start) + |dst|, maxsize)
    {
      dst := [];
      if locked {
        return Hanging, [];
      }
      var Reader(n, blocking) := reader;
      if empty && blocking {
        return Waiting, [];
      }
      reader := NoReader;
      if empty {
        return Done(EWOULDBLOCK), [];
      }
      if blocking && closed {
        locked := true;
        return Done(0), [];
      }
      o, dst := TakeUpTo(n, cut);
    }

    /** After count bytes have been taken: the counter follows, and an emptied ring is marked. */
    method PassOver(count: nat)
      requires maxsize < 0x8000_0000 && data.Length == maxsize && (start < maxsize || start == 0)
      requires Spells(data[..], start, unread) && !empty && 0 < |unread| + count <= maxsize && seqStart == U32(seqStart)
      requires count > 0 ==> U32(seqEnd - seqStart) == |unread| + count && end == Wrap(start + |unread|, maxsize)
      modifies `seqStart, `empty
      ensures Ring() && seqStart == U32(seqStart)
      ensures if count > 0 then Counted() else seqStart == old(seqStart)
    {
      if count > 0 { CountFalls(seqEnd, seqStart, count); }
      seqStart := U32(seqStart + count);
      if start == end && count != 0 {
        empty := true;
      }
    }

    method Close()
      requires Valid()
      modifies `closed
      ensures Valid() && View() == old(View()).(closed := true)
    {
      closed := true;
    }

    /**
     set_seq_initial adds the end index to the new number, as if the unread bytes began at cell 0.
     The counters are right afterwards if and only if they do and do not fill the ring.
     */
    method SetSeqInitial(isn: nat)
      requires Valid() && isn < 0x1_0000_0000
      modifies `seqStart, `seqEnd
      ensures seqStart == isn && seqEnd == U32(isn + end) && Ring()
      ensures old(Settled()) ==> (Counted() <==> start == 0 && (|unread| < maxsize || maxsize == 0))
    {
      if Settled() { CountGrows(isn, isn, end); }
      seqStart := isn;
      seqEnd := U32(isn + end);
    }
  }

  /** Reads and writes of one byte that nobody else comes between. */
  method WriteByte(b: Buffer, x: byte)
    requires b.Valid() && b.View() == Empty(2).(reader := b.reader)
    modifies b, b.data
    ensures b.Valid() && b.View() == old(b.View()).(unread := [x]) && b.start == old(b.start) && b.data == old(b.data)
  {
    var o := b.StartWriting([x], true);
    assert [x][..1] == [x] && [] + [x] == [x];
    o := b.WriteData(None);
  }

  method ReadByte(b: Buffer)
    requires b.Valid() && b.start == 0 && |b.unread| == 1 && b.View() == Empty(2).(unread := b.unread)
    modifies b, b.data
    ensures b.Valid() && b.View() == Empty(2) && b.start == 1 && b.data == old(b.data)
  {
    var o := b.StartReading(1, true);
    var dst;
    o, dst := b.ReadData(None);
  }

  /** A byte written and read, a second one written round the end of the ring, and the count says 0. */
  method CountGoesWrong(x: byte, y: byte, isn: nat) returns (b: Buffer, n: nat)
    requires isn < 0x1_0000_0000
    ensures b.start == 1 && b.unread == [y] && n == 0
  {
    b := new Buffer(2);
    WriteByte(b, x);
    ReadByte(b);
    WriteByte(b, y);
    b.SetSeqInitial(isn);
    n := b.Count();
  }
}
