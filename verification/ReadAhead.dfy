// The read-ahead protocol: a caller and a worker that share a window of chunks,
// with two locks and two condition variables. Every interleaving of their steps
// keeps the invariant, every call returns the medium's own bytes exactly when
// they can all be read, and every call returns.
module ReadAhead {
  import opened Prelude
  import opened Media

  // The largest sector size, and the ceiling of a chunk.
  const CHUNK_ALIGNMENT: nat := 4096
  const MAX_CHUNK_BYTES: nat := 64 * 1024 * 1024

  function RoundUp(value: nat): (r: nat)
    ensures r >= value && (value > 0 ==> r > 0)
  {
    (value + CHUNK_ALIGNMENT - 1) / CHUNK_ALIGNMENT * CHUNK_ALIGNMENT
  }

  // The least multiple of the alignment that holds so many bytes.
  lemma RoundUpLeast(value: nat, q: nat)
    ensures RoundUp(value) % CHUNK_ALIGNMENT == 0
    ensures value <= q * CHUNK_ALIGNMENT ==> RoundUp(value) <= q * CHUNK_ALIGNMENT
  {
  }

  datatype Options = Options(chunkBytes: nat, windowChunks: nat)

  datatype ChunkState = Queued | Reading | Ready | Failed

  // One piece of the medium, read by the worker for the caller.
  datatype Chunk = Chunk(addr: int, size: nat, data: seq<bv8>, state: ChunkState, cancelled: bool) {
    function End(): int { addr + size }
    predicate Holds(x: int) { addr <= x < addr + size }
  }

  // A read the caller asked for.
  datatype Request = Request(start: int, size: nat) {
    // The window may serve it: it names at least one byte, and only addresses.
    predicate Streams() { size > 0 && 0 <= start && start + size <= I64_MAX }
  }

  // Where the caller stands. got are the bytes copied so far.
  datatype Caller =
    | Idle
    | Entering(req: Request)                                                            // wants the mutex
    | Serving(req: Request, got: seq<bv8>)                                              // holds it
    | Looking(req: Request, got: seq<bv8>, chunk: nat)                                  // holds it
    | Asleep(req: Request, got: seq<bv8>, chunk: nat)                                   // waits for the worker
    | Woken(req: Request, got: seq<bv8>, chunk: nat)                                    // wants the mutex
    | WantsReader(req: Request, got: seq<bv8>, forward: bool)                           // wants the wrapped reader
    | HasReader(req: Request, got: seq<bv8>, forward: bool)                             // holds it
    | Returning(req: Request, got: seq<bv8>, forward: bool, read: Option<seq<bv8>>)     // wants the mutex
    | Finishing(req: Request, got: seq<bv8>, forward: bool)                             // holds it
    | Failing(req: Request)                                                             // holds it
    | Forwarding(req: Request)                                                          // wants the wrapped reader
    | HasForward(req: Request)                                                          // holds it
    | Stopping | Joining | Gone

  datatype Worker =
    | Unborn
    | WantsWork                          // wants the mutex
    | Choosing                           // holds it
    | Parked                             // waits for work
    | WantsMedium(job: nat)              // wants the wrapped reader
    | HasMedium(job: nat)                // holds it
    | WantsStore(job: nat, ok: bool)     // wants the mutex
    | Storing(job: nat, ok: bool)        // holds it
    | Ended

  // What a call returned.
  datatype Outcome = Outcome(req: Request, bytes: Option<seq<bv8>>)

  // chunks are all the chunks ever queued; the window is those from first on.
  datatype State = State(
    chunks: seq<Chunk>, first: nat,
    hasLast: bool, lastEnd: int, lastSize: nat, floor: int, stop: bool,
    caller: Caller, worker: Worker, last: Option<Outcome>)
  {
    predicate CallerLocks() {
      caller.Serving? || caller.Looking? || caller.Finishing? || caller.Failing?
    }
    predicate WorkerLocks() { worker.Choosing? || worker.Storing? }
    predicate MutexFree() { !CallerLocks() && !WorkerLocks() }
    predicate CallerReads() { caller.HasReader? || caller.HasForward? }
    predicate WorkerReads() { worker.HasMedium? }
    predicate ReaderFree() { !CallerReads() && !WorkerReads() }
    function WindowSize(): int { |chunks| - first }
  }

  const START := State([], 0, false, 0, 0, 0, false, Idle, Unborn, None)

  // -------------------------------------------------------------------------
  // The window
  // -------------------------------------------------------------------------

  // Forgets every chunk: one that the worker has not begun is never read.
  function DropWindow(s: State): State
    requires s.first <= |s.chunks|
  {
    s.(chunks := CancelFrom(s.chunks, s.first, |s.chunks|), first := |s.chunks|)
  }

  function CancelFrom(chunks: seq<Chunk>, from: nat, end: nat): seq<Chunk> {
    seq(|chunks|, i requires 0 <= i < |chunks| => if from <= i < end then chunks[i].(cancelled := true) else chunks[i])
  }

  // How many leading chunks of the window end at lastEnd or before.
  function Passed(s: State, from: nat): (n: nat)
    requires from <= |s.chunks|
    ensures from <= n <= |s.chunks|
    ensures n < |s.chunks| ==> s.chunks[n].End() > s.lastEnd
    ensures forall i :: from <= i < n ==> s.chunks[i].End() <= s.lastEnd
    decreases |s.chunks| - from
  {
    if from < |s.chunks| && s.chunks[from].End() <= s.lastEnd then Passed(s, from + 1) else from
  }

  // Forgets the chunks the caller has read past.
  function TrimWindow(s: State): State
    requires s.first <= |s.chunks|
  {
    var n := Passed(s, s.first);
    s.(chunks := CancelFrom(s.chunks, s.first, n), first := n)
  }

  // The size of the next chunk.
  function ChunkSize(o: Options, s: State): (r: nat)
    requires o.chunkBytes > 0
    ensures r > 0
  {
    RoundUp(Min(Max(o.chunkBytes, s.lastSize), MAX_CHUNK_BYTES))
  }

  function NextAddr(s: State): int
    requires s.first <= |s.chunks|
  {
    if s.first == |s.chunks| then s.lastEnd else s.chunks[|s.chunks| - 1].End()
  }

  // Whether the window has room for one more chunk, at an address that may be
  // read ahead.
  predicate MayQueue(o: Options, s: State, size: nat)
    requires s.first <= |s.chunks|
  {
    s.WindowSize() < o.windowChunks && NextAddr(s) >= s.floor && size <= I64_MAX - NextAddr(s)
  }

  // Queues chunks until the window is full, while allocations succeed: room of
  // them do.
  function Queue(o: Options, s: State, size: nat, room: nat): State
    requires s.first <= |s.chunks|
    decreases room
  {
    if room == 0 || !MayQueue(o, s, size) then s
    else Queue(o, s.(chunks := s.chunks + [Chunk(NextAddr(s), size, [], Queued, false)]), size, room - 1)
  }

  // Queues chunks after the last byte the caller read, and wakes the worker when
  // there is one more. The worker starts on first use, unless no thread can be
  // had.
  function TopUp(o: Options, s: State, room: nat, thread: bool): State
    requires s.first <= |s.chunks| && o.chunkBytes > 0
  {
    var size := ChunkSize(o, s);
    if !MayQueue(o, s, size) || (s.worker.Unborn? && !thread) then s
    else
      var topped := Queue(o, s, size, room);
      topped.(worker :=
        if s.worker.Unborn? || (s.worker.Parked? && |topped.chunks| > |s.chunks|) then WantsWork else s.worker)
  }

  // The chunk of the window that holds an address.
  function Find(s: State, pos: int, from: nat): Option<nat>
    requires from <= |s.chunks|
    decreases |s.chunks| - from
  {
    if from == |s.chunks| then None
    else if s.chunks[from].Holds(pos) then Some(from)
    else Find(s, pos, from + 1)
  }

  // The first chunk the worker has yet to read.
  function NextQueued(s: State, from: nat): Option<nat>
    requires from <= |s.chunks|
    decreases |s.chunks| - from
  {
    if from == |s.chunks| then None
    else if s.chunks[from].state == Queued then Some(from)
    else NextQueued(s, from + 1)
  }

  // -------------------------------------------------------------------------
  // Steps
  // -------------------------------------------------------------------------

  datatype Step =
    // The caller's thread.
    | Call(req: Request) | Enter | FindChunk | Look | Relock
    | TakeReader | ReadDirect | Return | Finish(room: nat, thread: bool) | Fail
    | TakeForward | ReadForward
    | Open | Stop | NotifyStop | Join
    // The worker.
    | LockWork | Choose | TakeMedium | ReadMedium | LockStore | Store
    // A condition variable may wake without a reason.
    | CallerWakes | WorkerWakes
  {
    predicate Spurious() { CallerWakes? || WorkerWakes? }
  }

  predicate Enabled(s: State, step: Step) {
    match step
    case Call(_) => s.caller.Idle?
    case Enter => s.caller.Entering? && s.MutexFree()
    case FindChunk => s.caller.Serving?
    case Look => s.caller.Looking?
    case Relock => s.caller.Woken? && s.MutexFree()
    case TakeReader => s.caller.WantsReader? && s.ReaderFree()
    case ReadDirect => s.caller.HasReader?
    case Return => s.caller.Returning? && s.MutexFree()
    case Finish(_, _) => s.caller.Finishing?
    case Fail => s.caller.Failing?
    case TakeForward => s.caller.Forwarding? && s.ReaderFree()
    case ReadForward => s.caller.HasForward?
    case Open => s.caller.Idle? && s.MutexFree()
    case Stop => s.caller.Idle? && s.MutexFree()
    case NotifyStop => s.caller.Stopping?
    case Join => s.caller.Joining? && (s.worker.Ended? || s.worker.Unborn?)
    case LockWork => s.worker.WantsWork? && s.MutexFree()
    case Choose => s.worker.Choosing?
    case TakeMedium => s.worker.WantsMedium? && s.ReaderFree()
    case ReadMedium => s.worker.HasMedium?
    case LockStore => s.worker.WantsStore? && s.MutexFree()
    case Store => s.worker.Storing?
    case CallerWakes => s.caller.Asleep?
    case WorkerWakes => s.worker.Parked?
  }

  // What the wrapped reader answers.
  ghost function Answer(m: Medium, start: int, n: nat): Option<seq<bv8>> {
    if AllReadable(m, start, n) then Some(Bytes(m, start, n)) else None
  }

  // The loop over the window ends. A read the window cannot serve at all makes
  // the window useless; the rest of a read is read directly.
  function EndServing(s: State, req: Request, got: seq<bv8>): State
    requires s.first <= |s.chunks|
  {
    var forward := got != [] || (s.hasLast && req.start == s.lastEnd);
    if |got| < req.size then
      (if got == [] then DropWindow(s) else s).(caller := WantsReader(req, got, forward))
    else s.(caller := Finishing(req, got, forward))
  }

  // Copies what a ready chunk holds of the request.
  function CopyFrom(c: Chunk, req: Request, got: seq<bv8>): seq<bv8>
    requires c.Holds(req.start + |got|) && |c.data| == c.size && |got| <= req.size
  {
    var offset := req.start + |got| - c.addr;
    var count := Min(req.size - |got|, c.size - offset);
    got + c.data[offset..offset + count]
  }

  predicate MayCopy(c: Chunk, req: Request, got: seq<bv8>) {
    && (c.state == Ready ==> |c.data| == c.size)
    && |got| <= req.size && c.Holds(req.start + |got|)
  }

  // What a step needs of a state to be taken.
  predicate Sound(s: State) {
    && s.first <= |s.chunks|
    && (s.caller.Looking? ==> s.caller.chunk < |s.chunks| && MayCopy(s.chunks[s.caller.chunk], s.caller.req, s.caller.got))
    && (s.worker.HasMedium? ==> s.worker.job < |s.chunks|)
    && (s.worker.Storing? ==> s.worker.job < |s.chunks|)
  }

  ghost function Do(o: Options, m: Medium, s: State, step: Step): State
    requires o.chunkBytes > 0 && Sound(s) && Enabled(s, step)
  {
    match step
    // ReadInto: nothing to stream is left to the wrapped reader.
    case Call(req) => s.(caller := if req.Streams() then Entering(req) else Forwarding(req))
    case Enter => s.(caller := Serving(s.caller.req, []))
    // ServeFromWindow.
    case FindChunk =>
      var pos := s.caller.req.start + |s.caller.got|;
      if |s.caller.got| < s.caller.req.size && Find(s, pos, s.first).Some? then
        s.(caller := Looking(s.caller.req, s.caller.got, Find(s, pos, s.first).value))
      else EndServing(s, s.caller.req, s.caller.got)
    case Look =>
      var c := s.chunks[s.caller.chunk];
      (match c.state
       case Ready => s.(caller := Serving(s.caller.req, CopyFrom(c, s.caller.req, s.caller.got)))
       case Failed => EndServing(DropWindow(s.(floor := c.End())), s.caller.req, s.caller.got)
       case _ => s.(caller := Asleep(s.caller.req, s.caller.got, s.caller.chunk)))
    case Relock => s.(caller := Looking(s.caller.req, s.caller.got, s.caller.chunk))
    case TakeReader => s.(caller := HasReader(s.caller.req, s.caller.got, s.caller.forward))
    case ReadDirect =>
      var rest := Answer(m, s.caller.req.start + |s.caller.got|, Max(0, s.caller.req.size - |s.caller.got|));
      s.(caller := Returning(s.caller.req, s.caller.got, s.caller.forward, rest))
    case Return =>
      if s.caller.read.None? then s.(caller := Failing(s.caller.req))
      else s.(caller := Finishing(s.caller.req, s.caller.got + s.caller.read.value, s.caller.forward))
    case Finish(room, thread) =>
      var req := s.caller.req;
      var done := s.(hasLast := true, lastEnd := req.start + req.size, lastSize := req.size,
                     caller := Idle, last := Some(Outcome(req, Some(s.caller.got))));
      if s.caller.forward then TopUp(o, TrimWindow(done), room, thread) else done
    case Fail => DropWindow(s).(hasLast := false, caller := Idle, last := Some(Outcome(s.caller.req, None)))
    case TakeForward => s.(caller := HasForward(s.caller.req))
    case ReadForward =>
      s.(caller := Idle, last := Some(Outcome(s.caller.req, Answer(m, s.caller.req.start, s.caller.req.size))))
    case Open => DropWindow(s).(hasLast := false, floor := 0)
    case Stop => DropWindow(s).(stop := true, caller := Stopping)
    case NotifyStop => s.(caller := Joining, worker := if s.worker.Parked? then WantsWork else s.worker)
    case Join => s.(caller := Gone)
    // WorkerMain.
    case LockWork => s.(worker := Choosing)
    case Choose =>
      if s.stop then s.(worker := Ended)
      else if NextQueued(s, s.first).None? then s.(worker := Parked)
      else
        var job := NextQueued(s, s.first).value;
        s.(chunks := WithState(s.chunks, job, Reading), worker := WantsMedium(job))
    case TakeMedium => s.(worker := HasMedium(s.worker.job))
    case ReadMedium =>
      var job := s.worker.job;
      var read := if s.chunks[job].cancelled then None else Answer(m, s.chunks[job].addr, s.chunks[job].size);
      if read.None? then s.(worker := WantsStore(job, false))
      else s.(chunks := s.chunks[job := s.chunks[job].(data := read.value)], worker := WantsStore(job, true))
    case LockStore => s.(worker := Storing(s.worker.job, s.worker.ok))
    case Store =>
      s.(chunks := WithState(s.chunks, s.worker.job, if s.worker.ok then Ready else Failed), worker := Choosing,
         caller := if s.caller.Asleep? then Woken(s.caller.req, s.caller.got, s.caller.chunk) else s.caller)
    case CallerWakes => s.(caller := Woken(s.caller.req, s.caller.got, s.caller.chunk))
    case WorkerWakes => s.(worker := WantsWork)
  }

  function WithState(chunks: seq<Chunk>, job: nat, state: ChunkState): seq<Chunk> {
    seq(|chunks|, i requires 0 <= i < |chunks| => if i == job then chunks[i].(state := state) else chunks[i])
  }

  // -------------------------------------------------------------------------
  // The invariant
  // -------------------------------------------------------------------------

  // A chunk tells the truth about what was read into it.
  ghost predicate ChunkRight(m: Medium, c: Chunk) {
    && c.size > 0 && 0 <= c.addr && c.End() <= I64_MAX
    && (c.state == Ready ==> c.data == Bytes(m, c.addr, c.size) && AllReadable(m, c.addr, c.size))
    && (c.state == Failed ==> c.cancelled || !AllReadable(m, c.addr, c.size))
  }

  ghost predicate ChunksRight(m: Medium, chunks: seq<Chunk>) {
    forall i :: 0 <= i < |chunks| ==> ChunkRight(m, chunks[i])
  }

  // The window is at most as long as asked, contiguous, at addresses that may be
  // read ahead, and it alone is wanted.
  ghost predicate WindowRight(o: Options, chunks: seq<Chunk>, first: nat, floor: int) {
    && first <= |chunks| && |chunks| - first <= o.windowChunks
    && (forall i :: first <= i < |chunks| ==> !chunks[i].cancelled && chunks[i].addr >= floor)
    && (forall i :: 0 <= i < first && i < |chunks| ==> chunks[i].cancelled)
    && (forall i :: first < i < |chunks| ==> chunks[i].addr == chunks[i - 1].End())
  }

  predicate HasJob(w: Worker) {
    w.WantsMedium? || w.HasMedium? || w.WantsStore? || w.Storing?
  }

  // What the worker read is the medium's, and it failed for a reason.
  ghost predicate ReadRight(m: Medium, c: Chunk, ok: bool) {
    if ok then c.data == Bytes(m, c.addr, c.size) && AllReadable(m, c.addr, c.size)
    else c.cancelled || !AllReadable(m, c.addr, c.size)
  }

  // The worker has at most one chunk, which alone is being read; and nothing
  // waits to be read while the worker sleeps, or is not there.
  ghost predicate WorkerRight(m: Medium, chunks: seq<Chunk>, first: nat, w: Worker) {
    && (forall i :: 0 <= i < |chunks| && chunks[i].state == Reading ==> HasJob(w) && w.job == i)
    && (HasJob(w) ==> w.job < |chunks| && chunks[w.job].state == Reading)
    && ((w.WantsStore? || w.Storing?) ==> ReadRight(m, chunks[w.job], w.ok))
    && (w.Unborn? || w.Parked? || w.Ended? ==> NoneQueued(chunks, first))
  }

  predicate NoneQueued(chunks: seq<Chunk>, first: nat) {
    forall i :: first <= i < |chunks| ==> chunks[i].state != Queued
  }

  // The bytes copied are those of the medium.
  ghost predicate GotRight(m: Medium, req: Request, got: seq<bv8>) {
    && req.Streams() && |got| <= req.size
    && got == Bytes(m, req.start, |got|) && AllReadable(m, req.start, |got|)
  }

  // The chunk that the caller looks at, or waits for, is wanted and holds the
  // next byte.
  predicate LooksAt(chunks: seq<Chunk>, first: nat, req: Request, got: seq<bv8>, chunk: nat) {
    && |got| < req.size
    && first <= chunk < |chunks|
    && chunks[chunk].Holds(req.start + |got|)
  }

  ghost predicate CallerRight(m: Medium, chunks: seq<Chunk>, first: nat, caller: Caller) {
    match caller
    case Idle => true
    case Entering(req) => req.Streams()
    case Serving(req, got) => GotRight(m, req, got)
    case Looking(req, got, chunk) => GotRight(m, req, got) && LooksAt(chunks, first, req, got, chunk)
    // It sleeps only while the worker has the chunk yet to finish.
    case Asleep(req, got, chunk) =>
      GotRight(m, req, got) && LooksAt(chunks, first, req, got, chunk)
      && (chunks[chunk].state == Queued || chunks[chunk].state == Reading)
    case Woken(req, got, chunk) => GotRight(m, req, got) && LooksAt(chunks, first, req, got, chunk)
    case WantsReader(req, got, _) => GotRight(m, req, got)
    case HasReader(req, got, _) => GotRight(m, req, got)
    case Returning(req, got, _, read) => GotRight(m, req, got) && read == Answer(m, req.start + |got|, req.size - |got|)
    case Finishing(req, got, _) => GotRight(m, req, got) && |got| == req.size
    case Failing(req) => req.Streams() && !AllReadable(m, req.start, req.size)
    case Forwarding(req) => !req.Streams()
    case HasForward(req) => !req.Streams()
    case _ => first == |chunks|
  }

  // The locks exclude, and a stop is announced to a worker that sleeps.
  ghost predicate Orderly(s: State) {
    && !(s.CallerLocks() && s.WorkerLocks()) && !(s.CallerReads() && s.WorkerReads())
    && (s.worker.Parked? && s.stop ==> s.caller.Stopping?)
    && (s.worker.Ended? ==> s.stop)
    && (s.stop <==> s.caller.Stopping? || s.caller.Joining? || s.caller.Gone?)
    && 0 <= s.lastEnd <= I64_MAX
  }

  // A call returned the bytes asked for when every one of them can be read, and
  // nothing otherwise.
  ghost predicate OutcomeRight(m: Medium, r: Option<Outcome>) {
    r.Some? ==> r.value.bytes == Answer(m, r.value.req.start, r.value.req.size)
  }

  ghost predicate Inv(o: Options, m: Medium, s: State) {
    && o.chunkBytes > 0 && o.windowChunks > 0
    && ChunksRight(m, s.chunks) && WindowRight(o, s.chunks, s.first, s.floor)
    && WorkerRight(m, s.chunks, s.first, s.worker) && CallerRight(m, s.chunks, s.first, s.caller)
    && Orderly(s) && OutcomeRight(m, s.last)
  }

  lemma InvSound(o: Options, m: Medium, s: State)
    requires Inv(o, m, s)
    ensures Sound(s)
  {
    if s.caller.Looking? {
      assert ChunkRight(m, s.chunks[s.caller.chunk]);
    }
  }

  // What a step makes of a state of the invariant.
  ghost function Next(o: Options, m: Medium, s: State, step: Step): State
    requires Inv(o, m, s) && Enabled(s, step)
  {
    InvSound(o, m, s);
    Do(o, m, s, step)
  }

  lemma WindowStarts(o: Options, m: Medium, s: State)
    requires Inv(o, m, s)
    ensures s.first <= |s.chunks|
  {
  }

  lemma StartKeeps(o: Options, m: Medium)
    requires o.chunkBytes > 0 && o.windowChunks > 0
    ensures Inv(o, m, START)
  {
  }

  // -------------------------------------------------------------------------
  // Every step keeps the invariant
  // -------------------------------------------------------------------------

  // Dropping the window, whatever the caller then does.
  lemma DropKeeps(o: Options, m: Medium, s: State)
    requires WindowRight(o, s.chunks, s.first, s.floor) && WorkerRight(m, s.chunks, s.first, s.worker)
    requires ChunksRight(m, s.chunks)
    ensures var d := DropWindow(s);
      && d == s.(chunks := d.chunks, first := |d.chunks|)
      && WindowRight(o, d.chunks, d.first, d.floor) && WorkerRight(m, d.chunks, d.first, d.worker)
      && ChunksRight(m, d.chunks)
  {
    var d := DropWindow(s);
    forall i | 0 <= i < |d.chunks| ensures ChunkRight(m, d.chunks[i]) && d.chunks[i].cancelled {
      assert ChunkRight(m, s.chunks[i]);
    }
  }

  lemma {:induction false} FindRight(s: State, pos: int, from: nat)
    requires from <= |s.chunks|
    ensures Find(s, pos, from).Some? ==> from <= Find(s, pos, from).value < |s.chunks| && s.chunks[Find(s, pos, from).value].Holds(pos)
    ensures Find(s, pos, from).None? ==> forall i :: from <= i < |s.chunks| ==> !s.chunks[i].Holds(pos)
    decreases |s.chunks| - from
  {
    if from < |s.chunks| && !s.chunks[from].Holds(pos) {
      FindRight(s, pos, from + 1);
    }
  }

  lemma {:induction false} NextQueuedRight(s: State, from: nat)
    requires from <= |s.chunks|
    ensures NextQueued(s, from).Some? ==> from <= NextQueued(s, from).value < |s.chunks| && s.chunks[NextQueued(s, from).value].state == Queued
    ensures NextQueued(s, from).None? ==> forall i :: from <= i < |s.chunks| ==> s.chunks[i].state != Queued
    decreases |s.chunks| - from
  {
    if from < |s.chunks| && s.chunks[from].state != Queued {
      NextQueuedRight(s, from + 1);
    }
  }

  lemma CopyRight(m: Medium, c: Chunk, req: Request, got: seq<bv8>)
    requires GotRight(m, req, got) && ChunkRight(m, c) && c.state == Ready
    requires |got| < req.size && c.Holds(req.start + |got|)
    ensures |got| < |CopyFrom(c, req, got)| && GotRight(m, req, CopyFrom(c, req, got))
  {
    var offset := req.start + |got| - c.addr;
    var count := Min(req.size - |got|, c.size - offset);
    BytesAdded(m, req.start, |got|, count);
    var part := c.data[offset..offset + count];
    var right := Bytes(m, req.start + |got|, count);
    forall k | 0 <= k < count ensures part[k] == right[k] {
      assert c.addr + (offset + k) == req.start + |got| + k;
    }
    assert part == right;
  }

  // The trimmed window.
  lemma TrimKeeps(o: Options, m: Medium, s: State)
    requires WindowRight(o, s.chunks, s.first, s.floor) && WorkerRight(m, s.chunks, s.first, s.worker)
    requires ChunksRight(m, s.chunks)
    ensures var d := TrimWindow(s);
      && d == s.(chunks := d.chunks, first := d.first)
      && WindowRight(o, d.chunks, d.first, d.floor) && WorkerRight(m, d.chunks, d.first, d.worker)
      && ChunksRight(m, d.chunks)
  {
    var d := TrimWindow(s);
    var n := Passed(s, s.first);
    forall i | 0 <= i < |d.chunks| ensures ChunkRight(m, d.chunks[i]) {
      assert ChunkRight(m, s.chunks[i]);
    }
  }

  // One more chunk queued, the worker awake.
  lemma {:induction false} QueueKeeps(o: Options, m: Medium, s: State, size: nat, room: nat)
    requires WindowRight(o, s.chunks, s.first, s.floor) && WorkerRight(m, s.chunks, s.first, s.worker) && size > 0 && 0 <= s.lastEnd
    requires ChunksRight(m, s.chunks)
    requires !s.worker.Unborn? && !s.worker.Parked? && !s.worker.Ended?
    ensures var d := Queue(o, s, size, room);
      && WindowRight(o, d.chunks, d.first, d.floor) && WorkerRight(m, d.chunks, d.first, d.worker)
      && ChunksRight(m, d.chunks)
      && |d.chunks| >= |s.chunks| && d == s.(chunks := d.chunks)
    decreases room
  {
    hide WindowRight, WorkerRight, ChunksRight;
    WindowHolds(o, s.chunks, s.first, s.floor);
    if room > 0 && MayQueue(o, s, size) {
      QueueOneKeeps(o, m, s, size);
      QueueKeeps(o, m, s.(chunks := s.chunks + [Chunk(NextAddr(s), size, [], Queued, false)]), size, room - 1);
    }
  }

  lemma WindowHolds(o: Options, chunks: seq<Chunk>, first: nat, floor: int)
    requires WindowRight(o, chunks, first, floor)
    ensures first <= |chunks|
  {
  }

  lemma QueueOneKeeps(o: Options, m: Medium, s: State, size: nat)
    requires WindowRight(o, s.chunks, s.first, s.floor) && WorkerRight(m, s.chunks, s.first, s.worker) && size > 0 && 0 <= s.lastEnd
    requires ChunksRight(m, s.chunks) && MayQueue(o, s, size)
    requires !s.worker.Unborn? && !s.worker.Parked? && !s.worker.Ended?
    ensures var chunks := s.chunks + [Chunk(NextAddr(s), size, [], Queued, false)];
      WindowRight(o, chunks, s.first, s.floor) && WorkerRight(m, chunks, s.first, s.worker) && ChunksRight(m, chunks)
  {
    assert s.first < |s.chunks| ==> ChunkRight(m, s.chunks[|s.chunks| - 1]);
    hide AllReadable, Bytes;
  }

  // The queue does not look at the worker.
  lemma {:induction false} QueueAnyWorker(o: Options, s: State, size: nat, room: nat, w: Worker)
    requires s.first <= |s.chunks|
    ensures Queue(o, s.(worker := w), size, room) == Queue(o, s, size, room).(worker := w)
    ensures Queue(o, s, size, room).chunks == s.chunks ==> Queue(o, s, size, room) == s
    decreases room
  {
    if room > 0 && MayQueue(o, s, size) {
      var next := s.(chunks := s.chunks + [Chunk(NextAddr(s), size, [], Queued, false)]);
      QueueAnyWorker(o, next, size, room - 1, w);
      QueueGrows(o, next, size, room - 1);
    }
  }

  lemma {:induction false} QueueGrows(o: Options, s: State, size: nat, room: nat)
    requires s.first <= |s.chunks|
    ensures |Queue(o, s, size, room).chunks| >= |s.chunks|
    ensures Queue(o, s, size, room) == s.(chunks := Queue(o, s, size, room).chunks)
    ensures |Queue(o, s, size, room).chunks| == |s.chunks| ==> Queue(o, s, size, room) == s
    decreases room
  {
    if room > 0 && MayQueue(o, s, size) {
      QueueGrows(o, s.(chunks := s.chunks + [Chunk(NextAddr(s), size, [], Queued, false)]), size, room - 1);
    }
  }

  lemma TopUpKeeps(o: Options, m: Medium, s: State, room: nat, thread: bool)
    requires o.chunkBytes > 0 && WindowRight(o, s.chunks, s.first, s.floor) && WorkerRight(m, s.chunks, s.first, s.worker) && 0 <= s.lastEnd && !s.worker.Ended?
    requires ChunksRight(m, s.chunks)
    ensures var d := TopUp(o, s, room, thread);
      && WindowRight(o, d.chunks, d.first, d.floor) && WorkerRight(m, d.chunks, d.first, d.worker)
      && ChunksRight(m, d.chunks)
      && d == s.(chunks := d.chunks, worker := d.worker)
      && (d.worker == s.worker || (d.worker.WantsWork? && (s.worker.Parked? || s.worker.Unborn?)))
  {
    hide WindowRight, ChunksRight, Queue, MayQueue;
    WindowHolds(o, s.chunks, s.first, s.floor);
    var size := ChunkSize(o, s);
    if MayQueue(o, s, size) && (!s.worker.Unborn? || thread) {
      var w := if s.worker.Parked? || s.worker.Unborn? then WantsWork else s.worker;
      QueueAnyWorker(o, s, size, room, w);
      QueueGrows(o, s, size, room);
      QueueKeeps(o, m, s.(worker := w), size, room);
    }
  }

  // The steps that leave the window alone.
  predicate LeavesWindow(step: Step) {
    step.Call? || step.Enter? || step.Relock? || step.TakeReader? || step.ReadDirect? || step.TakeForward?
    || step.ReadForward? || step.Join? || step.CallerWakes? || step.LockWork? || step.TakeMedium? || step.LockStore?
  }

  lemma QuietStepKeeps(o: Options, m: Medium, s: State, step: Step)
    requires Inv(o, m, s) && Enabled(s, step) && LeavesWindow(step)
    ensures Inv(o, m, Next(o, m, s, step))
  {
    hide Inv;
    if step.LockWork? || step.TakeMedium? || step.LockStore? {
      WorkerQuiet(o, m, s, step);
    } else {
      CallerQuiet(o, m, s, step);
    }
  }

  lemma CallerQuiet(o: Options, m: Medium, s: State, step: Step)
    requires Inv(o, m, s) && Enabled(s, step) && LeavesWindow(step)
    requires !step.LockWork? && !step.TakeMedium? && !step.LockStore?
    ensures Inv(o, m, Next(o, m, s, step))
  {
    hide ChunksRight;
    hide WindowRight;
    hide WorkerRight;
    hide LooksAt;
    GotFits(m, s);
  }

  lemma WorkerQuiet(o: Options, m: Medium, s: State, step: Step)
    requires Inv(o, m, s) && Enabled(s, step) && (step.LockWork? || step.TakeMedium? || step.LockStore?)
    ensures Inv(o, m, Next(o, m, s, step))
  {
    hide ChunksRight;
    hide WindowRight;
    hide CallerRight;
    hide NoneQueued;
    hide ReadRight;
    hide AllReadable;
  }

  lemma GotFits(m: Medium, s: State)
    ensures (s.caller.HasReader? || s.caller.Returning?) && CallerRight(m, s.chunks, s.first, s.caller) ==> |s.caller.got| <= s.caller.req.size
  {
  }

  // The direct read gave the rest of the request, or nothing.
  lemma ReturnKeeps(o: Options, m: Medium, s: State)
    requires Inv(o, m, s) && Enabled(s, Return)
    ensures Inv(o, m, Next(o, m, s, Return))
  {
    hide ChunksRight;
    hide WindowRight;
    hide WorkerRight;
    GotFits(m, s);
    BytesAdded(m, s.caller.req.start, |s.caller.got|, s.caller.req.size - |s.caller.got|);
    hide AllReadable;
  }

  lemma FindKeeps(o: Options, m: Medium, s: State)
    requires Inv(o, m, s) && Enabled(s, FindChunk)
    ensures Inv(o, m, Next(o, m, s, FindChunk))
  {
    WindowStarts(o, m, s);
    hide AllReadable;
    hide ChunksRight;
    hide WindowRight;
    hide WorkerRight;
    hide DropWindow;
    hide Bytes;
    FindRight(s, s.caller.req.start + |s.caller.got|, s.first);
    DropKeeps(o, m, s);
  }

  lemma LookKeeps(o: Options, m: Medium, s: State)
    requires Inv(o, m, s) && Enabled(s, Look)
    ensures Inv(o, m, Next(o, m, s, Look))
  {
    hide AllReadable;
    hide ChunkRight;
    hide WindowRight;
    hide WorkerRight;
    hide DropWindow;
    hide CopyFrom;
    hide Bytes;
    var c := s.chunks[s.caller.chunk];
    assert ChunkRight(m, c);
    if c.state == Ready {
      CopyRight(m, c, s.caller.req, s.caller.got);
    } else if c.state == Failed {
      DropKeeps(o, m, s);
      DropFloor(o, m, s, c.End());
    }
  }

  // An empty window is above any floor.
  lemma DropFloor(o: Options, m: Medium, s: State, floor: int)
    requires s.first <= |s.chunks|
    requires var d := DropWindow(s); WindowRight(o, d.chunks, d.first, d.floor) && WorkerRight(m, d.chunks, d.first, d.worker)
    ensures var d := DropWindow(s.(floor := floor));
      && d == DropWindow(s).(floor := floor) && DropWindow(d) == d
      && WindowRight(o, d.chunks, d.first, d.floor) && WorkerRight(m, d.chunks, d.first, d.worker)
  {
    var d := DropWindow(s.(floor := floor));
    assert DropWindow(d).chunks == d.chunks;
  }

  // What the state is when a call has its bytes.
  function Finished(s: State): State
    requires s.caller.Finishing?
  {
    s.(hasLast := true, lastEnd := s.caller.req.start + s.caller.req.size, lastSize := s.caller.req.size,
       caller := Idle, last := Some(Outcome(s.caller.req, Some(s.caller.got))))
  }

  lemma FinishKeeps(o: Options, m: Medium, s: State, room: nat, thread: bool)
    requires Inv(o, m, s) && Enabled(s, Finish(room, thread))
    ensures Inv(o, m, Next(o, m, s, Finish(room, thread)))
  {
    hide Inv, TrimWindow, TopUp;
    WindowStarts(o, m, s);
    FinishedKeeps(o, m, s);
    if s.caller.forward { ToppedKeeps(o, m, Finished(s), room, thread); }
  }

  lemma FinishedKeeps(o: Options, m: Medium, s: State)
    requires Inv(o, m, s) && s.caller.Finishing?
    ensures Inv(o, m, Finished(s)) && !s.worker.Ended?
  {
    hide AllReadable, ChunksRight, WindowRight, WorkerRight, Bytes;
  }

  lemma ToppedKeeps(o: Options, m: Medium, s: State, room: nat, thread: bool)
    requires Inv(o, m, s) && s.first <= |s.chunks| && s.caller.Idle? && !s.worker.Ended?
    ensures TrimWindow(s).first <= |TrimWindow(s).chunks| && Inv(o, m, TopUp(o, TrimWindow(s), room, thread))
  {
    hide AllReadable, ChunksRight, WorkerRight, TrimWindow, TopUp, Bytes;
    TrimKeeps(o, m, s);
    TopUpKeeps(o, m, TrimWindow(s), room, thread);
  }

  // Failing, opening and stopping drop the window.
  lemma DropStepKeeps(o: Options, m: Medium, s: State, step: Step)
    requires Inv(o, m, s) && Enabled(s, step) && (step.Fail? || step.Open? || step.Stop?)
    ensures Inv(o, m, Next(o, m, s, step))
  {
    WindowStarts(o, m, s);
    hide AllReadable;
    hide ChunksRight;
    hide WindowRight;
    hide WorkerRight;
    hide DropWindow;
    DropKeeps(o, m, s);
    DropFloor(o, m, s, 0);
  }

  lemma WakeKeeps(o: Options, m: Medium, s: State, step: Step)
    requires Inv(o, m, s) && Enabled(s, step) && (step.NotifyStop? || step.WorkerWakes?)
    ensures Inv(o, m, Next(o, m, s, step))
  {
    hide AllReadable;
    hide ChunksRight;
    hide WindowRight;
  }

  // A chunk whose state alone changed, and the chunks with it.
  lemma StateKeeps(o: Options, m: Medium, s: State, job: nat, state: ChunkState)
    requires job < |s.chunks| && ChunksRight(m, s.chunks) && WindowRight(o, s.chunks, s.first, s.floor)
    requires state == Ready ==> ReadRight(m, s.chunks[job], true)
    requires state == Failed ==> ReadRight(m, s.chunks[job], false)
    ensures var chunks := WithState(s.chunks, job, state); ChunksRight(m, chunks) && WindowRight(o, chunks, s.first, s.floor)
  {
    hide AllReadable;
    hide Bytes;
    var chunks := WithState(s.chunks, job, state);
    forall i | 0 <= i < |chunks| ensures ChunkRight(m, chunks[i]) {
      assert ChunkRight(m, s.chunks[i]);
    }
  }

  // The caller's place holds while the states of chunks change.
  lemma CallerStays(m: Medium, chunks: seq<Chunk>, after: seq<Chunk>, first: nat, caller: Caller)
    requires CallerRight(m, chunks, first, caller) && |after| == |chunks|
    requires forall i :: 0 <= i < |chunks| ==> after[i].addr == chunks[i].addr && after[i].size == chunks[i].size
    requires caller.Asleep? && caller.chunk < |chunks| ==> after[caller.chunk].state == Queued || after[caller.chunk].state == Reading
    ensures CallerRight(m, after, first, caller)
  {
    hide AllReadable;
    hide Bytes;
  }

  lemma ChooseKeeps(o: Options, m: Medium, s: State)
    requires Inv(o, m, s) && Enabled(s, Choose)
    ensures Inv(o, m, Next(o, m, s, Choose))
  {
    hide Inv;
    WindowStarts(o, m, s);
    if s.stop || NextQueued(s, s.first).None? {
      NoJobTaken(o, m, s);
    } else {
      JobTaken(o, m, s, NextQueued(s, s.first).value);
    }
  }

  lemma NoJobTaken(o: Options, m: Medium, s: State)
    requires Inv(o, m, s) && s.worker.Choosing? && s.first <= |s.chunks| && (s.stop || NextQueued(s, s.first).None?)
    ensures Inv(o, m, s.(worker := if s.stop then Ended else Parked))
  {
    hide AllReadable;
    hide ChunksRight;
    hide WindowRight;
    hide CallerRight;
    hide ReadRight;
    if s.stop { Stopped(m, s); } else { NextQueuedRight(s, s.first); }
  }

  lemma JobTaken(o: Options, m: Medium, s: State, job: nat)
    requires Inv(o, m, s) && s.worker.Choosing? && !s.stop && s.first <= |s.chunks| && NextQueued(s, s.first) == Some(job)
    ensures Inv(o, m, s.(chunks := WithState(s.chunks, job, Reading), worker := WantsMedium(job)))
  {
    hide AllReadable;
    hide ChunksRight;
    hide WindowRight;
    hide CallerRight;
    hide ReadRight;
    NextQueuedRight(s, s.first);
    StateKeeps(o, m, s, job, Reading);
    CallerAwaits(m, s);
    CallerStays(m, s.chunks, WithState(s.chunks, job, Reading), s.first, s.caller);
  }

  lemma CallerAwaits(m: Medium, s: State)
    requires CallerRight(m, s.chunks, s.first, s.caller)
    ensures s.caller.Asleep? && s.caller.chunk < |s.chunks| ==> s.chunks[s.caller.chunk].state == Queued || s.chunks[s.caller.chunk].state == Reading
  {
  }

  lemma Stopped(m: Medium, s: State)
    requires CallerRight(m, s.chunks, s.first, s.caller) && (s.caller.Stopping? || s.caller.Joining? || s.caller.Gone?)
    ensures s.first == |s.chunks|
  {
  }

  lemma ReadKeeps(o: Options, m: Medium, s: State)
    requires Inv(o, m, s) && Enabled(s, ReadMedium)
    ensures Inv(o, m, Next(o, m, s, ReadMedium))
  {
    InvSound(o, m, s);
    hide AllReadable;
    hide ChunksRight;
    hide WindowRight;
    hide WorkerRight;
    hide CallerRight;
    hide Bytes;
    var job := s.worker.job;
    var read := if s.chunks[job].cancelled then None else Answer(m, s.chunks[job].addr, s.chunks[job].size);
    WorkerReads(m, s, read);
    if read.Some? {
      DataKeeps(o, m, s, job, read.value);
      CallerAwaits(m, s);
      CallerStays(m, s.chunks, s.chunks[job := s.chunks[job].(data := read.value)], s.first, s.caller);
    }
  }

  // What a read leaves the worker with.
  lemma WorkerReads(m: Medium, s: State, read: Option<seq<bv8>>)
    requires WorkerRight(m, s.chunks, s.first, s.worker) && s.worker.HasMedium?
    requires var c := s.chunks[s.worker.job]; read == if c.cancelled then None else Answer(m, c.addr, c.size)
    ensures s.chunks[s.worker.job].state == Reading
    ensures read.None? ==> WorkerRight(m, s.chunks, s.first, WantsStore(s.worker.job, false))
    ensures read.Some? ==>
      WorkerRight(m, s.chunks[s.worker.job := s.chunks[s.worker.job].(data := read.value)], s.first, WantsStore(s.worker.job, true))
  {
  }

  // Bytes put in a chunk that is being read.
  lemma DataKeeps(o: Options, m: Medium, s: State, job: nat, data: seq<bv8>)
    requires job < |s.chunks| && s.chunks[job].state == Reading
    requires ChunksRight(m, s.chunks) && WindowRight(o, s.chunks, s.first, s.floor)
    ensures var chunks := s.chunks[job := s.chunks[job].(data := data)];
      ChunksRight(m, chunks) && WindowRight(o, chunks, s.first, s.floor)
  {
    hide AllReadable;
    hide Bytes;
    assert ChunkRight(m, s.chunks[job]);
  }

  lemma StoreKeeps(o: Options, m: Medium, s: State)
    requires Inv(o, m, s) && Enabled(s, Store)
    ensures Inv(o, m, Next(o, m, s, Store))
  {
    hide AllReadable;
    hide ChunksRight;
    hide WindowRight;
    hide CallerRight;
    hide ReadRight;
    var d := Next(o, m, s, Store);
    StateKeeps(o, m, s, s.worker.job, if s.worker.ok then Ready else Failed);
    CallerAwake(m, s.chunks, s.first, s.caller);
    CallerStays(m, s.chunks, d.chunks, s.first, d.caller);
  }

  lemma CallerAwake(m: Medium, chunks: seq<Chunk>, first: nat, caller: Caller)
    requires CallerRight(m, chunks, first, caller)
    ensures CallerRight(m, chunks, first, if caller.Asleep? then Woken(caller.req, caller.got, caller.chunk) else caller)
  {
  }

  // Every step of either thread, in any order, keeps the invariant.
  lemma StepKeeps(o: Options, m: Medium, s: State, step: Step)
    requires Inv(o, m, s) && Enabled(s, step)
    ensures Inv(o, m, Next(o, m, s, step))
  {
    hide Inv;
    hide Next;
    match step
    case FindChunk => FindKeeps(o, m, s);
    case Look => LookKeeps(o, m, s);
    case Return => ReturnKeeps(o, m, s);
    case Finish(room, thread) => FinishKeeps(o, m, s, room, thread);
    case Fail | Open | Stop => DropStepKeeps(o, m, s, step);
    case NotifyStop | WorkerWakes => WakeKeeps(o, m, s, step);
    case Choose => ChooseKeeps(o, m, s);
    case ReadMedium => ReadKeeps(o, m, s);
    case Store => StoreKeeps(o, m, s);
    case _ => QuietStepKeeps(o, m, s, step);
  }

  // -------------------------------------------------------------------------
  // Runs
  // -------------------------------------------------------------------------

  // The steps lead from s to t, each of them enabled where it is taken.
  ghost predicate Leads(o: Options, m: Medium, s: State, steps: seq<Step>, t: State)
    requires Inv(o, m, s)
    decreases |steps|
  {
    if steps == [] then s == t
    else Enabled(s, steps[0]) && (StepKeeps(o, m, s, steps[0]); Leads(o, m, Next(o, m, s, steps[0]), steps[1..], t))
  }

  lemma {:induction false} LeadsKeeps(o: Options, m: Medium, s: State, steps: seq<Step>, t: State)
    requires Inv(o, m, s) && Leads(o, m, s, steps, t)
    ensures Inv(o, m, t)
    decreases |steps|
  {
    hide Inv;
    hide Next;
    hide Enabled;
    if steps != [] {
      StepKeeps(o, m, s, steps[0]);
      LeadsKeeps(o, m, Next(o, m, s, steps[0]), steps[1..], t);
    }
  }

  // The steps lead from the start to t.
  ghost predicate Runs(o: Options, m: Medium, steps: seq<Step>, t: State)
    requires o.chunkBytes > 0 && o.windowChunks > 0
  {
    StartKeeps(o, m);
    Leads(o, m, START, steps, t)
  }

  // Under every interleaving, what a call returns is right: the bytes asked for
  // exactly when every one of them can be read.
  lemma EveryCallIsRight(o: Options, m: Medium, steps: seq<Step>, t: State)
    requires o.chunkBytes > 0 && o.windowChunks > 0
    requires Runs(o, m, steps, t) && t.last.Some?
    ensures var r := t.last.value;
      && (r.bytes.Some? <==> AllReadable(m, r.req.start, r.req.size))
      && (r.bytes.Some? ==> r.bytes.value == Bytes(m, r.req.start, r.req.size))
  {
    StartKeeps(o, m);
    LeadsKeeps(o, m, START, steps, t);
  }

  // -------------------------------------------------------------------------
  // Every call returns
  // -------------------------------------------------------------------------

  // A call of the caller, or the end of the reader, is under way.
  predicate UnderWay(s: State) {
    !s.caller.Idle? && !s.caller.Gone?
  }

  // The chunks that the worker has yet to begin.
  function QueuedFrom(chunks: seq<Chunk>, first: nat): nat {
    if |chunks| <= first then 0
    else QueuedFrom(chunks[..|chunks| - 1], first) + if chunks[|chunks| - 1].state == Queued then 1 else 0
  }

  // What the worker has left to do: six steps for each chunk, and those to the
  // end of the present one.
  function Work(s: State): nat {
    6 * QueuedFrom(s.chunks, s.first) + WorkerRank(s.worker)
  }

  function WorkerRank(w: Worker): nat {
    match w
    case WantsMedium(_) => 5
    case HasMedium(_) => 4
    case WantsStore(_, _) => 3
    case Storing(_, _) => 2
    case WantsWork => 2
    case Choosing => 1
    case _ => 0
  }

  // What the caller has left to do, by the bytes it has yet to copy.
  function CallerRank(c: Caller): nat {
    match c
    case Entering(req) => 8 * req.size + 9
    case Serving(req, got) => 8 * Left(req, got) + 8
    case Looking(req, got, _) => 8 * Left(req, got) + 7
    case Asleep(req, got, _) => 8 * Left(req, got) + 5
    case Woken(req, got, _) => 8 * Left(req, got) + 8
    case WantsReader(_, _, _) => 4
    case HasReader(_, _, _) => 3
    case Returning(_, _, _, _) => 2
    case Finishing(_, _, _) => 1
    case Failing(_) => 1
    case Forwarding(_) => 2
    case HasForward(_) => 1
    case Stopping => 10
    case Joining => 1
    case _ => 0
  }

  function Left(req: Request, got: seq<bv8>): nat {
    Max(0, req.size - |got|)
  }

  function Measure(s: State): nat {
    4 * Work(s) + CallerRank(s.caller)
  }

  lemma {:induction false} QueuedSame(a: seq<Chunk>, b: seq<Chunk>, first: nat)
    requires |a| == |b| && forall i :: first <= i < |a| ==> a[i].state == b[i].state
    ensures QueuedFrom(a, first) == QueuedFrom(b, first)
    decreases |a|
  {
    if |a| > first {
      QueuedSame(a[..|a| - 1], b[..|b| - 1], first);
    }
  }

  lemma {:induction false} QueuedTaken(a: seq<Chunk>, first: nat, job: nat)
    requires first <= job < |a| && a[job].state == Queued
    ensures QueuedFrom(WithState(a, job, Reading), first) == QueuedFrom(a, first) - 1
    decreases |a|
  {
    var n := |a| - 1;
    var b := WithState(a, job, Reading);
    if job < n {
      QueuedTaken(a[..n], first, job);
      assert b[..n] == WithState(a[..n], job, Reading);
    } else {
      QueuedSame(a[..n], b[..n], first);
    }
  }

  lemma {:induction false} QueuedAtMost(a: seq<Chunk>, first: nat)
    ensures QueuedFrom(a, first) <= Max(0, |a| - first)
    decreases |a|
  {
    if |a| > first {
      QueuedAtMost(a[..|a| - 1], first);
    }
  }

  lemma {:induction false} NoneQueuedCount(a: seq<Chunk>, first: nat)
    requires |a| <= first
    ensures QueuedFrom(a, first) == 0
  {
  }

  lemma DropLeavesNothing(s: State)
    requires s.first <= |s.chunks|
    ensures Work(DropWindow(s)) == WorkerRank(s.worker) <= Work(s)
  {
    NoneQueuedCount(DropWindow(s).chunks, |s.chunks|);
  }

  lemma EndServingLess(s: State, req: Request, got: seq<bv8>)
    requires s.first <= |s.chunks|
    ensures Measure(EndServing(s, req, got)) <= 4 * Work(s) + 4
    ensures Work(EndServing(s, req, got)) <= Work(s)
  {
    hide DropWindow;
    DropLeavesNothing(s);
    DropWindowKeeps(s);
  }

  lemma DropWindowKeeps(s: State)
    requires s.first <= |s.chunks|
    ensures DropWindow(s) == s.(chunks := DropWindow(s).chunks, first := |s.chunks|) && |DropWindow(s).chunks| == |s.chunks|
  {
  }

  lemma FindDecreases(o: Options, m: Medium, s: State)
    requires Inv(o, m, s) && Enabled(s, FindChunk)
    ensures Measure(Next(o, m, s, FindChunk)) < Measure(s)
  {
    hide EndServing;
    hide QueuedFrom;
    EndServingLess(s, s.caller.req, s.caller.got);
  }

  lemma LookDecreases(o: Options, m: Medium, s: State)
    requires Inv(o, m, s) && Enabled(s, Look)
    ensures Measure(Next(o, m, s, Look)) < Measure(s)
  {
    InvSound(o, m, s);
    hide EndServing;
    hide QueuedFrom;
    hide CopyFrom;
    hide AllReadable;
    hide Bytes;
    hide DropWindow;
    var c := s.chunks[s.caller.chunk];
    assert ChunkRight(m, c);
    if c.state == Ready {
      CopyRight(m, c, s.caller.req, s.caller.got);
      CopyFits(m, s.caller.req, CopyFrom(c, s.caller.req, s.caller.got));
    } else if c.state == Failed {
      var d := DropWindow(s.(floor := c.End()));
      DropLeavesNothing(s.(floor := c.End()));
      DropWindowKeeps(s.(floor := c.End()));
      EndServingLess(d, s.caller.req, s.caller.got);
    }
  }

  lemma CopyFits(m: Medium, req: Request, got: seq<bv8>)
    requires GotRight(m, req, got)
    ensures |got| <= req.size
  {
  }

  lemma ChooseDecreases(o: Options, m: Medium, s: State)
    requires Inv(o, m, s) && Enabled(s, Choose)
    ensures Measure(Next(o, m, s, Choose)) < Measure(s)
  {
    hide Inv;
    WindowStarts(o, m, s);
    hide QueuedFrom;
    hide WithState;
    NextQueuedRight(s, s.first);
    if NextQueued(s, s.first).Some? {
      QueuedTaken(s.chunks, s.first, NextQueued(s, s.first).value);
    }
  }

  lemma StoreDecreases(o: Options, m: Medium, s: State)
    requires Inv(o, m, s) && Enabled(s, Store)
    ensures Measure(Next(o, m, s, Store)) < Measure(s)
  {
    hide QueuedFrom;
    QueuedFinished(m, s, if s.worker.ok then Ready else Failed);
    hide WithState;
  }

  lemma QueuedFinished(m: Medium, s: State, state: ChunkState)
    requires WorkerRight(m, s.chunks, s.first, s.worker) && s.worker.Storing? && state != Queued
    ensures QueuedFrom(WithState(s.chunks, s.worker.job, state), s.first) == QueuedFrom(s.chunks, s.first)
  {
    QueuedAlike(s.chunks, WithState(s.chunks, s.worker.job, state), s.first);
  }

  lemma {:induction false} QueuedAlike(a: seq<Chunk>, b: seq<Chunk>, first: nat)
    requires |a| == |b| && forall i :: first <= i < |a| ==> (a[i].state == Queued <==> b[i].state == Queued)
    ensures QueuedFrom(a, first) == QueuedFrom(b, first)
    decreases |a|
  {
    if |a| > first {
      QueuedAlike(a[..|a| - 1], b[..|b| - 1], first);
    }
  }

  lemma ReadDecreases(o: Options, m: Medium, s: State)
    requires Inv(o, m, s) && Enabled(s, ReadMedium)
    ensures Measure(Next(o, m, s, ReadMedium)) < Measure(s)
  {
    hide QueuedFrom;
    QueuedSame(s.chunks, Next(o, m, s, ReadMedium).chunks, s.first);
  }

  // The other steps.
  lemma OtherDecreases(o: Options, m: Medium, s: State, step: Step)
    requires Inv(o, m, s) && Enabled(s, step) && !step.Spurious()
    requires !step.Look? && !step.FindChunk? && !step.Choose? && !step.Store? && !step.ReadMedium? && !step.Finish? && !step.Fail?
    requires UnderWay(s) && UnderWay(Next(o, m, s, step))
    ensures Measure(Next(o, m, s, step)) < Measure(s)
  {
    hide ChunksRight;
    hide WindowRight;
    hide WorkerRight;
    hide AllReadable;
    hide Bytes;
    hide QueuedFrom;
    hide DropWindow;
  }

  // Every step taken during a call, by either thread, leaves less to do.
  lemma StepDecreases(o: Options, m: Medium, s: State, step: Step)
    requires Inv(o, m, s) && Enabled(s, step) && !step.Spurious()
    requires UnderWay(s) && UnderWay(Next(o, m, s, step))
    ensures Measure(Next(o, m, s, step)) < Measure(s)
  {
    hide Inv;
    hide Measure;
    match step
    case Look => LookDecreases(o, m, s);
    case FindChunk => FindDecreases(o, m, s);
    case Choose => ChooseDecreases(o, m, s);
    case Store => StoreDecreases(o, m, s);
    case ReadMedium => ReadDecreases(o, m, s);
    case Finish(room, thread) => Returned(o, m, s, step);
    case Fail => Returned(o, m, s, step);
    case _ => OtherDecreases(o, m, s, step);
  }

  lemma Returned(o: Options, m: Medium, s: State, step: Step)
    requires Inv(o, m, s) && Enabled(s, step) && (step.Finish? || step.Fail?)
    ensures !UnderWay(Next(o, m, s, step))
  {
    hide AllReadable;
    if step.Finish? && s.caller.forward {
      QueueGrowsAny(o, s, step.room);
    }
  }

  lemma QueueGrowsAny(o: Options, s: State, room: nat)
    ensures forall t: State, size: nat :: t.first <= |t.chunks| ==> Queue(o, t, size, room).caller == t.caller
  {
    forall t: State, size: nat | t.first <= |t.chunks| ensures Queue(o, t, size, room).caller == t.caller {
      QueueGrows(o, t, size, room);
    }
  }

  // The steps are taken by either thread during one call, none of them for a
  // wake without a reason.
  ghost predicate DuringCall(o: Options, m: Medium, s: State, steps: seq<Step>)
    requires Inv(o, m, s)
    decreases |steps|
  {
    UnderWay(s)
    && (steps != [] ==>
        Enabled(s, steps[0]) && !steps[0].Spurious()
        && (StepKeeps(o, m, s, steps[0]); DuringCall(o, m, Next(o, m, s, steps[0]), steps[1..])))
  }

  // A call returns: whatever the order of the steps, it lasts no more of them
  // than its measure.
  lemma {:induction false} CallReturns(o: Options, m: Medium, s: State, steps: seq<Step>)
    requires Inv(o, m, s) && DuringCall(o, m, s, steps)
    ensures |steps| <= Measure(s)
    decreases |steps|
  {
    hide Inv;
    hide Next;
    hide Measure;
    hide Enabled;
    if steps != [] {
      var t := Next(o, m, s, steps[0]);
      StepKeeps(o, m, s, steps[0]);
      CallReturns(o, m, t, steps[1..]);
      StepDecreases(o, m, s, steps[0]);
    }
  }

  // How many steps a call lasts at most, by the bytes it asks for and the chunks
  // the window may hold.
  lemma CallIsBounded(o: Options, m: Medium, s: State)
    requires Inv(o, m, s) && s.caller.Entering?
    ensures Measure(s) <= 24 * o.windowChunks + 8 * s.caller.req.size + 29
  {
    QueuedAtMost(s.chunks, s.first);
  }

  // The step that a worker with work takes next.
  function WorkerStep(w: Worker): Step {
    match w
    case Choosing => Choose
    case Storing(_, _) => Store
    case WantsWork => LockWork
    case WantsMedium(_) => TakeMedium
    case HasMedium(_) => ReadMedium
    case _ => LockStore
  }

  // A worker is there, and awake, for the chunk that the caller waits for.
  lemma AwaitedIsWanted(o: Options, m: Medium, s: State)
    requires Inv(o, m, s) && s.caller.Asleep?
    ensures s.first <= s.caller.chunk < |s.chunks| && !s.chunks[s.caller.chunk].cancelled
    ensures s.chunks[s.caller.chunk].state == Queued || s.chunks[s.caller.chunk].state == Reading
    ensures !s.worker.Unborn? && !s.worker.Parked? && !s.worker.Ended?
  {
    hide ChunksRight;
    hide AllReadable;
    hide Bytes;
    hide ReadRight;
  }

  // It never waits for ever: some step that is not a wake without a reason can
  // always be taken.
  lemma NeverStuck(o: Options, m: Medium, s: State) returns (step: Step)
    requires Inv(o, m, s) && UnderWay(s)
    ensures Enabled(s, step) && !step.Spurious()
  {
    hide ChunksRight;
    hide WindowRight;
    hide WorkerRight;
    hide CallerRight;
    hide AllReadable;
    if s.CallerLocks() {
      step := if s.caller.Serving? then FindChunk else if s.caller.Looking? then Look else if s.caller.Finishing? then Finish(0, false) else Fail;
    } else if s.CallerReads() {
      step := if s.caller.HasReader? then ReadDirect else ReadForward;
    } else if s.caller.Stopping? {
      step := NotifyStop;
    } else if s.worker.Unborn? || s.worker.Parked? || s.worker.Ended? {
      if s.caller.Asleep? {
        // The worker would have its chunk.
        AwaitedIsWanted(o, m, s);
      }
      step :=
        match s.caller
        case Entering(_) => Enter
        case Woken(_, _, _) => Relock
        case Returning(_, _, _, _) => Return
        case WantsReader(_, _, _) => TakeReader
        case Forwarding(_) => TakeForward
        case _ => Join;
    } else {
      step := WorkerStep(s.worker);
    }
  }

  // A caller that waits is served: the chunk is in the window, wanted and not
  // finished, and the worker itself has a step to take.
  lemma WaitIsServed(o: Options, m: Medium, s: State) returns (step: Step)
    requires Inv(o, m, s) && s.caller.Asleep?
    ensures s.first <= s.caller.chunk < |s.chunks| && !s.chunks[s.caller.chunk].cancelled
    ensures s.chunks[s.caller.chunk].state == Queued || s.chunks[s.caller.chunk].state == Reading
    ensures Enabled(s, step) && (step.LockWork? || step.Choose? || step.TakeMedium? || step.ReadMedium? || step.LockStore? || step.Store?)
  {
    hide ChunksRight;
    hide AllReadable;
    AwaitedIsWanted(o, m, s);
    hide WorkerRight;
    hide WindowRight;
    step := WorkerStep(s.worker);
  }
}
