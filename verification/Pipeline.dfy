// The five-thread pipeline (pipeline_delta_compression.cpp) as a state machine: one
// step is one worker's next critical section or computation, a wait is a guard,
// and a schedule is any sequence of workers. Hash, feature and index functions are
// arbitrary.
module Pipeline {
  import opened Bytes

  const MAX_QUEUE_LEN: nat := 128
  const WORKERS: nat := 5

  // Chunk types; a new context has none.
  const UNSET: nat := 0
  const BASE_CHUNK: nat := 1
  const DELTA_CHUNK: nat := 2
  const DUPLICATE_CHUNK: nat := 3

  datatype Chunk = Chunk(id: nat, buf: seq<byte>)

  datatype Context<F> = Context(chunk: Chunk, chunkType: nat, baseId: nat, feature: Option<F>)

  // The stateful duplicate table D, the feature function, and the stateful index I.
  datatype Ops<!D, !I, !F> = Ops(
    processChunk: (D, Chunk) -> (D, nat), feature: Chunk -> F,
    getBaseChunkId: (I, F) -> (I, Option<nat>), addFeature: (I, F, nat) -> I)

  // ---------- the work of the stages ----------

  function NewContext<F>(chunk: Chunk): Context<F> {
    Context(chunk, UNSET, 0, None)
  }

  function Dedup<D, I, F>(ops: Ops<D, I, F>, d: D, c: Context<F>): (D, Context<F>) {
    var (d', id) := ops.processChunk(d, c.chunk);
    (d', if id != c.chunk.id then c.(chunkType := DUPLICATE_CHUNK, baseId := id) else c)
  }

  function FeatureCalc<D, I, F>(ops: Ops<D, I, F>, c: Context<F>): Context<F> {
    if c.chunkType != DUPLICATE_CHUNK then c.(feature := Some(ops.feature(c.chunk))) else c
  }

  // A context that is no duplicate has its feature by now.
  function Match<D, I, F>(ops: Ops<D, I, F>, i: I, c: Context<F>): (I, Context<F>) {
    if c.chunkType == DUPLICATE_CHUNK || c.feature.None? then (i, c)
    else
      var (i', base) := ops.getBaseChunkId(i, c.feature.value);
      if base.None? then (ops.addFeature(i', c.feature.value, c.chunk.id), c.(chunkType := BASE_CHUNK))
      else (i', c.(chunkType := DELTA_CHUNK, baseId := base.value))
  }

  // ---------- the sequential run ----------

  datatype Outcome<D, I, F> = Outcome(d: D, i: I, out: seq<Context<F>>)

  // One chunk, all stages one after the other.
  function OneChunk<D, I, F>(ops: Ops<D, I, F>, r: Outcome<D, I, F>, chunk: Chunk): Outcome<D, I, F> {
    var (d, c1) := Dedup(ops, r.d, NewContext(chunk));
    var (i, c3) := Match(ops, r.i, FeatureCalc(ops, c1));
    Outcome(d, i, r.out + [c3])
  }

  function Sequential<D, I, F>(ops: Ops<D, I, F>, d: D, i: I, chunks: seq<Chunk>): (r: Outcome<D, I, F>)
    ensures |r.out| == |chunks|
  {
    if chunks == [] then Outcome(d, i, [])
    else OneChunk(ops, Sequential(ops, d, i, chunks[..|chunks| - 1]), chunks[|chunks| - 1])
  }

  // ---------- the concurrent run ----------

  // Where a worker is in its loop.
  datatype Pc<F> = Getting | Working(c: Context<F>) | Putting(c: Context<F>) | Finishing | Stopped

  // Worker k takes from queue k - 1 and puts into queue k. Workers: chunking, dedup,
  // feature calculation, match, write.
  datatype State<D, I, F> = State(
    input: seq<Chunk>, pcs: seq<Pc<F>>, queues: seq<seq<Context<F>>>, done: seq<bool>,
    d: D, i: I, written: seq<Context<F>>) {

    ghost predicate Shaped() {
      |pcs| == WORKERS && |queues| == WORKERS - 1 && |done| == WORKERS - 1
    }
  }

  // AddFile starts the workers with empty queues and cleared flags.
  function Start<D, I, F>(chunks: seq<Chunk>, d: D, i: I): (s: State<D, I, F>)
    ensures s.Shaped()
  {
    State(chunks, [Getting, Getting, Getting, Getting, Getting], [[], [], [], []],
          [false, false, false, false], d, i, [])
  }

  // A worker that is not waiting.
  predicate Enabled<D, I, F>(s: State<D, I, F>, k: nat)
    requires s.Shaped() && k < WORKERS
  {
    match s.pcs[k]
    case Getting => k == 0 || s.queues[k - 1] != [] || s.done[k - 1]
    case Working(_) => k > 0
    case Putting(_) => k < WORKERS - 1 && |s.queues[k]| < MAX_QUEUE_LEN
    case Finishing => k < WORKERS - 1
    case Stopped => false
  }

  // The worker's computation on the context it holds, between getting and putting.
  function Compute<D, I, F>(ops: Ops<D, I, F>, s: State<D, I, F>, k: nat, c: Context<F>): (s': State<D, I, F>)
    requires s.Shaped() && 0 < k < WORKERS
    ensures s'.Shaped()
  {
    if k == 1 then
      var (d, c') := Dedup(ops, s.d, c);
      s.(d := d, pcs := s.pcs[k := Putting(c')])
    else if k == 2 then s.(pcs := s.pcs[k := Putting(FeatureCalc(ops, c))])
    else if k == 3 then
      var (i, c') := Match(ops, s.i, c);
      s.(i := i, pcs := s.pcs[k := Putting(c')])
    else s.(written := s.written + [c], pcs := s.pcs[k := Getting])
  }

  // One step of worker k; a worker that must wait does nothing.
  function Step<D, I, F>(ops: Ops<D, I, F>, s: State<D, I, F>, k: nat): (s': State<D, I, F>)
    requires s.Shaped() && k < WORKERS
    ensures s'.Shaped()
  {
    if !Enabled(s, k) then s
    else
      match s.pcs[k]
      case Getting =>
        if k == 0 then
          if s.input == [] then s.(pcs := s.pcs[k := Finishing])
          else s.(input := s.input[1..], pcs := s.pcs[k := Putting(NewContext(s.input[0]))])
        else if s.queues[k - 1] != [] then
          s.(queues := s.queues[k - 1 := s.queues[k - 1][1..]], pcs := s.pcs[k := Working(s.queues[k - 1][0])])
        else s.(pcs := s.pcs[k := if k == WORKERS - 1 then Stopped else Finishing])
      case Working(c) => Compute(ops, s, k, c)
      case Putting(c) => s.(queues := s.queues[k := s.queues[k] + [c]], pcs := s.pcs[k := Getting])
      case Finishing => s.(done := s.done[k := true], pcs := s.pcs[k := Stopped])
      case Stopped => s
  }

  // Any interleaving.
  function Run<D, I, F>(ops: Ops<D, I, F>, s: State<D, I, F>, schedule: seq<nat>): (s': State<D, I, F>)
    requires s.Shaped() && forall j :: 0 <= j < |schedule| ==> schedule[j] < WORKERS
    ensures s'.Shaped()
  {
    if schedule == [] then s
    else Step(ops, Run(ops, s, schedule[..|schedule| - 1]), schedule[|schedule| - 1])
  }

  // ---------- the invariant ----------

  function Holds<F>(pc: Pc<F>): nat {
    if pc.Working? || pc.Putting? then 1 else 0
  }

  // How many contexts each worker has put on, counting back from the last.
  function Put4<D, I, F>(s: State<D, I, F>): nat {
    |s.written|
  }

  function Put3<D, I, F>(s: State<D, I, F>): nat
    requires s.Shaped()
  {
    Put4(s) + Holds(s.pcs[4]) + |s.queues[3]|
  }

  function Put2<D, I, F>(s: State<D, I, F>): nat
    requires s.Shaped()
  {
    Put3(s) + Holds(s.pcs[3]) + |s.queues[2]|
  }

  function Put1<D, I, F>(s: State<D, I, F>): nat
    requires s.Shaped()
  {
    Put2(s) + Holds(s.pcs[2]) + |s.queues[1]|
  }

  function Put0<D, I, F>(s: State<D, I, F>): nat
    requires s.Shaped()
  {
    Put1(s) + Holds(s.pcs[1]) + |s.queues[0]|
  }

  function Put<D, I, F>(s: State<D, I, F>, k: nat): nat
    requires s.Shaped() && k < WORKERS
  {
    if k == 0 then Put0(s) else if k == 1 then Put1(s) else if k == 2 then Put2(s) else if k == 3 then Put3(s) else Put4(s)
  }

  // How many it has taken.
  function Got<D, I, F>(s: State<D, I, F>, k: nat): nat
    requires s.Shaped() && k < WORKERS
  {
    Put(s, k) + Holds(s.pcs[k])
  }

  // How many it has computed.
  function Computed<D, I, F>(s: State<D, I, F>, k: nat): nat
    requires s.Shaped() && k < WORKERS
  {
    Put(s, k) + (if s.pcs[k].Putting? then 1 else 0)
  }

  // The context of chunk j after the first k stages of the sequential run.
  function Expected<D, I, F>(ops: Ops<D, I, F>, d: D, i: I, chunks: seq<Chunk>, k: nat, j: nat): Context<F>
    requires j < |chunks|
  {
    var r := Sequential(ops, d, i, chunks[..j]);
    var c0 := NewContext(chunks[j]);
    if k == 0 then c0
    else
      var c1 := Dedup(ops, r.d, c0).1;
      if k == 1 then c1
      else
        var c2 := FeatureCalc(ops, c1);
        if k == 2 then c2 else Match(ops, r.i, c2).1
  }

  // The initial conditions a run is compared with.
  datatype Job<!D, !I, !F> = Job(ops: Ops<D, I, F>, d: D, i: I, chunks: seq<Chunk>) {

    function Want(k: nat, j: nat): Context<F>
      requires j < |chunks|
    {
      Expected(ops, d, i, chunks, k, j)
    }

    function After(n: nat): Outcome<D, I, F>
      requires n <= |chunks|
    {
      Sequential(ops, d, i, chunks[..n])
    }
  }

  // Nothing more can come to worker k.
  ghost predicate Drained<D, I, F>(s: State<D, I, F>, k: nat)
    requires s.Shaped() && k < WORKERS
  {
    if k == 0 then s.input == [] else s.done[k - 1] && s.queues[k - 1] == []
  }

  // A worker holds the context it should, and ends only when its producer has and
  // its queue is empty.
  ghost predicate WorkerRight<D, I, F>(job: Job<D, I, F>, s: State<D, I, F>, k: nat)
    requires s.Shaped() && k < WORKERS
  {
    && (k < WORKERS - 1 ==> (s.done[k] <==> s.pcs[k].Stopped?))
    && match s.pcs[k]
       case Getting => true
       case Working(c) => k > 0 && Put(s, k) < |job.chunks| && c == job.Want(k - 1, Put(s, k))
       case Putting(c) => k < WORKERS - 1 && Put(s, k) < |job.chunks| && c == job.Want(k, Put(s, k))
       case Finishing => k < WORKERS - 1 && Drained(s, k)
       case Stopped => Drained(s, k)
  }

  // A queue holds the contexts between what its reader took and its writer put, in
  // order, and is never over-full.
  ghost predicate QueueRight<D, I, F>(job: Job<D, I, F>, s: State<D, I, F>, k: nat)
    requires s.Shaped() && k < WORKERS - 1
  {
    && |s.queues[k]| <= MAX_QUEUE_LEN && Put(s, k) <= |job.chunks|
    && forall j :: 0 <= j < |s.queues[k]| ==> s.queues[k][j] == job.Want(k, Got(s, k + 1) + j)
  }

  // The tables, the rest of the input and the output are those of the sequential
  // run at the place each worker has reached.
  ghost predicate EndsRight<D, I, F>(job: Job<D, I, F>, s: State<D, I, F>)
    requires s.Shaped()
  {
    && Got(s, 0) <= |job.chunks| && s.input == job.chunks[Got(s, 0)..]
    && Computed(s, 1) <= |job.chunks| && s.d == job.After(Computed(s, 1)).d
    && Computed(s, 3) <= |job.chunks| && s.i == job.After(Computed(s, 3)).i
    && |s.written| <= |job.chunks| && s.written == job.After(|s.written|).out
  }

  ghost predicate Inv<D, I, F>(job: Job<D, I, F>, s: State<D, I, F>) {
    && s.Shaped() && EndsRight(job, s)
    && (forall k :: 0 <= k < WORKERS ==> WorkerRight(job, s, k))
    && (forall k :: 0 <= k < WORKERS - 1 ==> QueueRight(job, s, k))
  }

  lemma StartInv<D, I, F>(job: Job<D, I, F>)
    ensures Inv(job, Start(job.chunks, job.d, job.i))
  {
    assert job.chunks[..0] == [];
    assert job.After(0) == Outcome(job.d, job.i, []);
    hide Sequential, Expected;
  }

  // The stages, one chunk of the sequential run at a time.
  lemma WantStages<D, I, F>(job: Job<D, I, F>, j: nat)
    requires j < |job.chunks|
    ensures job.Want(0, j) == NewContext(job.chunks[j])
    ensures Dedup(job.ops, job.After(j).d, job.Want(0, j)) == (job.After(j + 1).d, job.Want(1, j))
    ensures FeatureCalc(job.ops, job.Want(1, j)) == job.Want(2, j)
    ensures Match(job.ops, job.After(j).i, job.Want(2, j)) == (job.After(j + 1).i, job.Want(3, j))
    ensures job.After(j + 1).out == job.After(j).out + [job.Want(3, j)]
  {
    hide Dedup, FeatureCalc, Match;
    assert job.chunks[..j + 1][..j] == job.chunks[..j];
  }

  // A queue lies between its reader and its writer.
  lemma QueueBetween<D, I, F>(s: State<D, I, F>, k: nat)
    requires s.Shaped() && k < WORKERS - 1
    ensures Put(s, k) == Got(s, k + 1) + |s.queues[k]|
  {
  }

  // What a step does to the counts: one more taken, or one more put, if any.
  ghost predicate Counts<D, I, F>(s: State<D, I, F>, s': State<D, I, F>, got: int, put: int)
    requires s.Shaped() && s'.Shaped()
  {
    && (forall k :: 0 <= k < WORKERS ==> Got(s', k) == Got(s, k) + if k == got then 1 else 0)
    && (forall k :: 0 <= k < WORKERS ==> Put(s', k) == Put(s, k) + if k == put then 1 else 0)
  }

  // A step of worker k that takes from its queue, computes, puts, or changes only
  // its state.
  lemma CountsOfTake<D, I, F>(s: State<D, I, F>, s': State<D, I, F>, k: nat, c: Context<F>)
    requires s.Shaped() && s'.Shaped() && 0 < k < WORKERS && s.pcs[k].Getting? && s.queues[k - 1] != []
    requires s'.pcs == s.pcs[k := Working(c)] && s'.queues == s.queues[k - 1 := s.queues[k - 1][1..]]
    requires s'.written == s.written
    ensures Counts(s, s', k, -1)
  {
  }

  lemma CountsOfMove<D, I, F>(s: State<D, I, F>, s': State<D, I, F>, k: nat, pc: Pc<F>)
    requires s.Shaped() && s'.Shaped() && k < WORKERS && Holds(pc) == Holds(s.pcs[k])
    requires s'.pcs == s.pcs[k := pc] && s'.queues == s.queues && s'.written == s.written
    ensures Counts(s, s', -1, -1)
  {
  }

  lemma CountsOfPut<D, I, F>(s: State<D, I, F>, s': State<D, I, F>, k: nat)
    requires s.Shaped() && s'.Shaped() && k < WORKERS - 1 && s.pcs[k].Putting?
    requires s'.pcs == s.pcs[k := Getting] && s'.queues == s.queues[k := s.queues[k] + [s.pcs[k].c]]
    requires s'.written == s.written
    ensures Counts(s, s', -1, k)
  {
  }

  lemma CountsOfWrite<D, I, F>(s: State<D, I, F>, s': State<D, I, F>)
    requires s.Shaped() && s'.Shaped() && s.pcs[4].Working?
    requires s'.pcs == s.pcs[4 := Getting] && s'.queues == s.queues && s'.written == s.written + [s.pcs[4].c]
    ensures Counts(s, s', -1, 4)
  {
  }

  lemma CountsOfInput<D, I, F>(s: State<D, I, F>, s': State<D, I, F>, c: Context<F>)
    requires s.Shaped() && s'.Shaped() && s.pcs[0].Getting?
    requires s'.pcs == s.pcs[0 := Putting(c)] && s'.queues == s.queues && s'.written == s.written
    ensures Counts(s, s', 0, -1)
  {
  }

  // A worker that a step leaves alone stays right, if what it waits for stays so.
  lemma OtherWorker<D, I, F>(job: Job<D, I, F>, s: State<D, I, F>, s': State<D, I, F>, k: nat)
    requires s.Shaped() && s'.Shaped() && k < WORKERS && WorkerRight(job, s, k)
    requires s'.pcs[k] == s.pcs[k] && Put(s', k) == Put(s, k)
    requires k < WORKERS - 1 ==> s'.done[k] == s.done[k]
    requires Drained(s, k) ==> Drained(s', k)
    ensures WorkerRight(job, s', k)
  {
    hide Job.Want, Put, Drained;
  }

  // A queue that a step leaves alone stays right.
  lemma OtherQueue<D, I, F>(job: Job<D, I, F>, s: State<D, I, F>, s': State<D, I, F>, k: nat)
    requires s.Shaped() && s'.Shaped() && k < WORKERS - 1 && QueueRight(job, s, k)
    requires s'.queues[k] == s.queues[k] && Put(s', k) == Put(s, k) && Got(s', k + 1) == Got(s, k + 1)
    ensures QueueRight(job, s', k)
  {
    hide Job.Want, Put, Got;
    QueueBetween(s, k);
  }

  // Everything a step of worker k, which moves it to s', must show itself.
  lemma Assemble<D, I, F>(job: Job<D, I, F>, s: State<D, I, F>, s': State<D, I, F>, k: nat, got: int, put: int)
    requires Inv(job, s) && s'.Shaped() && k < WORKERS && EndsRight(job, s') && Counts(s, s', got, put)
    requires WorkerRight(job, s', k) && s'.pcs == s.pcs[k := s'.pcs[k]]
    requires forall j :: 0 <= j < WORKERS - 1 && j != k ==> s'.done[j] == s.done[j]
    requires forall j :: 0 <= j < WORKERS && j != k && Drained(s, j) ==> Drained(s', j)
    requires put == -1 || put == k
    requires forall j :: 0 <= j < WORKERS - 1 && (s'.queues[j] != s.queues[j] || j == put || j == got - 1) ==> QueueRight(job, s', j)
    ensures Inv(job, s')
  {
    hide Job.Want, Job.After, Put, Got, Drained, EndsRight;
    forall j | 0 <= j < WORKERS
      ensures WorkerRight(job, s', j)
    {
      if j != k {
        OtherWorker(job, s, s', j);
      }
    }
    forall j | 0 <= j < WORKERS - 1
      ensures QueueRight(job, s', j)
    {
      if s'.queues[j] == s.queues[j] && j != put && j != got - 1 {
        OtherQueue(job, s, s', j);
      }
    }
  }

  lemma TakeInput<D, I, F>(job: Job<D, I, F>, s: State<D, I, F>)
    requires Inv(job, s) && s.pcs[0].Getting? && s.input != []
    ensures Inv(job, Step(job.ops, s, 0))
  {
    hide Job.Want, Job.After, WorkerRight, QueueRight, EndsRight, Counts, Put, Got, Computed;
    var s' := Step(job.ops, s, 0);
    CountsOfInput(s, s', NewContext(s.input[0]));
    assert WorkerRight(job, s, 0);
    TakeInputEnds(job, s, s');
    TakeInputWorker(job, s, s');
    Assemble(job, s, s', 0, 0, -1);
  }

  lemma TakeInputEnds<D, I, F>(job: Job<D, I, F>, s: State<D, I, F>, s': State<D, I, F>)
    requires s.Shaped() && s'.Shaped() && EndsRight(job, s) && s.input != [] && Counts(s, s', 0, -1)
    requires s'.pcs[1] == s.pcs[1] && s'.pcs[3] == s.pcs[3]
    requires s'.input == s.input[1..] && s'.d == s.d && s'.i == s.i && s'.written == s.written
    ensures EndsRight(job, s')
  {
    hide Job.Want, Job.After, Put, Got;
  }

  lemma TakeInputWorker<D, I, F>(job: Job<D, I, F>, s: State<D, I, F>, s': State<D, I, F>)
    requires s.Shaped() && s'.Shaped() && EndsRight(job, s) && WorkerRight(job, s, 0) && s.input != []
    requires s.pcs[0].Getting? && s'.pcs[0] == Putting(NewContext(s.input[0])) && s'.done == s.done
    requires Counts(s, s', 0, -1)
    ensures WorkerRight(job, s', 0)
  {
    assert Got(s, 0) == Put(s, 0) == Put(s', 0);
    hide Put, Got, Counts;
    WantStages(job, Got(s, 0));
    hide *;
  }

  // A worker that finds its input at an end, or sets its flag.
  lemma Move<D, I, F>(job: Job<D, I, F>, s: State<D, I, F>, k: nat)
    requires Inv(job, s) && k < WORKERS && Enabled(s, k)
    requires s.pcs[k].Finishing? || (s.pcs[k].Getting? && (if k == 0 then s.input == [] else s.queues[k - 1] == []))
    ensures Inv(job, Step(job.ops, s, k))
  {
    hide Job.Want, Job.After, WorkerRight, QueueRight, EndsRight, Counts, Put, Got, Computed;
    var s' := Step(job.ops, s, k);
    CountsOfMove(s, s', k, s'.pcs[k]);
    assert WorkerRight(job, s, k);
    MoveEnds(job, s, s', k);
    Assemble(job, s, s', k, -1, -1);
  }

  lemma MoveEnds<D, I, F>(job: Job<D, I, F>, s: State<D, I, F>, s': State<D, I, F>, k: nat)
    requires s.Shaped() && s'.Shaped() && EndsRight(job, s) && k < WORKERS && WorkerRight(job, s, k)
    requires s.pcs[k].Finishing? || (s.pcs[k].Getting? && Drained(s, k))
    requires s'.pcs == s.pcs[k := if s.pcs[k].Getting? && k < WORKERS - 1 then Finishing else Stopped]
    requires s'.done == if s.pcs[k].Finishing? && k < WORKERS - 1 then s.done[k := true] else s.done
    requires s'.queues == s.queues && s'.input == s.input && s'.d == s.d && s'.i == s.i && s'.written == s.written
    requires Counts(s, s', -1, -1)
    ensures EndsRight(job, s') && WorkerRight(job, s', k)
  {
    hide Job.Want, Job.After, Put;
  }

  // A worker takes the next context of its queue.
  lemma Take<D, I, F>(job: Job<D, I, F>, s: State<D, I, F>, k: nat)
    requires Inv(job, s) && 0 < k < WORKERS && s.pcs[k].Getting? && s.queues[k - 1] != []
    ensures Inv(job, Step(job.ops, s, k))
  {
    hide Job.Want, Job.After, WorkerRight, QueueRight, EndsRight, Counts, Put, Got, Computed;
    var s' := Step(job.ops, s, k);
    CountsOfTake(s, s', k, s.queues[k - 1][0]);
    assert WorkerRight(job, s, k) && QueueRight(job, s, k - 1);
    TakeQueue(job, s, s', k);
    TakeEnds(job, s, s', k);
    Assemble(job, s, s', k, k, -1);
  }

  lemma TakeQueue<D, I, F>(job: Job<D, I, F>, s: State<D, I, F>, s': State<D, I, F>, k: nat)
    requires s.Shaped() && s'.Shaped() && 0 < k < WORKERS && QueueRight(job, s, k - 1) && WorkerRight(job, s, k)
    requires s.pcs[k].Getting? && s.queues[k - 1] != [] && s'.pcs[k] == Working(s.queues[k - 1][0]) && s'.done == s.done
    requires s'.queues[k - 1] == s.queues[k - 1][1..] && Counts(s, s', k, -1)
    ensures QueueRight(job, s', k - 1) && WorkerRight(job, s', k)
  {
    hide Job.Want, Put;
    QueueBetween(s, k - 1);
    QueueBetween(s', k - 1);
    assert Got(s, k) == Put(s, k);
    var q, q' := s.queues[k - 1], s'.queues[k - 1];
    forall j | 0 <= j < |q'|
      ensures q'[j] == job.Want(k - 1, Got(s', k) + j)
    {
      assert q'[j] == q[j + 1];
    }
  }

  lemma TakeEnds<D, I, F>(job: Job<D, I, F>, s: State<D, I, F>, s': State<D, I, F>, k: nat)
    requires s.Shaped() && s'.Shaped() && EndsRight(job, s) && 0 < k < WORKERS
    requires s.pcs[k].Getting? && s'.pcs[k].Working? && s'.pcs == s.pcs[k := s'.pcs[k]]
    requires s'.input == s.input && s'.d == s.d && s'.i == s.i && s'.written == s.written && Counts(s, s', k, -1)
    ensures EndsRight(job, s')
  {
    hide Job.Want, Job.After, Put;
  }

  // A worker puts on a context, where there is room.
  lemma PutOn<D, I, F>(job: Job<D, I, F>, s: State<D, I, F>, k: nat)
    requires Inv(job, s) && k < WORKERS - 1 && s.pcs[k].Putting? && |s.queues[k]| < MAX_QUEUE_LEN
    ensures Inv(job, Step(job.ops, s, k))
  {
    hide Job.Want, Job.After, WorkerRight, QueueRight, EndsRight, Counts, Put, Got, Computed;
    var s' := Step(job.ops, s, k);
    CountsOfPut(s, s', k);
    assert WorkerRight(job, s, k) && QueueRight(job, s, k);
    assert WorkerRight(job, s, k + 1);
    PutQueue(job, s, s', k);
    PutEnds(job, s, s', k);
    NotStopped(job, s, k);
    Assemble(job, s, s', k, -1, k);
  }

  // A reader does not stop before its producer.
  lemma NotStopped<D, I, F>(job: Job<D, I, F>, s: State<D, I, F>, k: nat)
    requires s.Shaped() && k < WORKERS - 1 && WorkerRight(job, s, k) && !s.pcs[k].Stopped?
    ensures !Drained(s, k + 1)
  {
  }

  lemma PutQueue<D, I, F>(job: Job<D, I, F>, s: State<D, I, F>, s': State<D, I, F>, k: nat)
    requires s.Shaped() && s'.Shaped() && k < WORKERS - 1 && QueueRight(job, s, k) && WorkerRight(job, s, k)
    requires s.pcs[k].Putting? && |s.queues[k]| < MAX_QUEUE_LEN && s'.pcs[k] == Getting && s'.done == s.done
    requires s'.queues[k] == s.queues[k] + [s.pcs[k].c] && Counts(s, s', -1, k)
    ensures QueueRight(job, s', k) && WorkerRight(job, s', k)
  {
    hide Job.Want, Put, Got;
    QueueBetween(s, k);
    QueueBetween(s', k);
    forall j | 0 <= j < |s'.queues[k]|
      ensures s'.queues[k][j] == job.Want(k, Got(s', k + 1) + j)
    {
      if j < |s.queues[k]| {
        assert s'.queues[k][j] == s.queues[k][j];
      }
    }
  }

  lemma PutEnds<D, I, F>(job: Job<D, I, F>, s: State<D, I, F>, s': State<D, I, F>, k: nat)
    requires s.Shaped() && s'.Shaped() && EndsRight(job, s) && k < WORKERS - 1
    requires s.pcs[k].Putting? && s'.pcs == s.pcs[k := Getting]
    requires s'.input == s.input && s'.d == s.d && s'.i == s.i && s'.written == s.written && Counts(s, s', -1, k)
    ensures EndsRight(job, s')
  {
    hide Job.Want, Job.After, Put;
  }

  // A stage computes what the sequential run does next.
  lemma ComputeStage<D, I, F>(job: Job<D, I, F>, s: State<D, I, F>, k: nat)
    requires Inv(job, s) && 0 < k < WORKERS - 1 && s.pcs[k].Working?
    ensures Inv(job, Step(job.ops, s, k))
  {
    hide Job.Want, Job.After, WorkerRight, QueueRight, EndsRight, Counts, Put, Got, Computed, Dedup, FeatureCalc, Match;
    var s' := Step(job.ops, s, k);
    CountsOfMove(s, s', k, s'.pcs[k]);
    assert WorkerRight(job, s, k);
    if k == 1 {
      DedupEnds(job, s, s');
    } else if k == 2 {
      FeatureEnds(job, s, s');
    } else {
      MatchEnds(job, s, s');
    }
    Assemble(job, s, s', k, -1, -1);
  }

  lemma DedupEnds<D, I, F>(job: Job<D, I, F>, s: State<D, I, F>, s': State<D, I, F>)
    requires s.Shaped() && s'.Shaped() && EndsRight(job, s) && WorkerRight(job, s, 1)
    requires s.pcs[1].Working? && s' == Compute(job.ops, s, 1, s.pcs[1].c) && Counts(s, s', -1, -1)
    ensures EndsRight(job, s') && WorkerRight(job, s', 1)
  {
    hide Job.After, Sequential;
    hide Dedup, FeatureCalc, Match;
    WantStages(job, Put(s, 1));
    hide Job.Want, Put, Got;
    CountsGot(s, s', 0);
  }

  lemma FeatureEnds<D, I, F>(job: Job<D, I, F>, s: State<D, I, F>, s': State<D, I, F>)
    requires s.Shaped() && s'.Shaped() && EndsRight(job, s) && WorkerRight(job, s, 2)
    requires s.pcs[2].Working? && s' == Compute(job.ops, s, 2, s.pcs[2].c) && Counts(s, s', -1, -1)
    ensures EndsRight(job, s') && WorkerRight(job, s', 2)
  {
    hide Got, Job.After, Job.Want, NewContext;
    hide Dedup, FeatureCalc, Match;
    WantStages(job, Put(s, 2));
    hide Put;
    CountsGot(s, s', 0);
  }

  lemma MatchEnds<D, I, F>(job: Job<D, I, F>, s: State<D, I, F>, s': State<D, I, F>)
    requires s.Shaped() && s'.Shaped() && EndsRight(job, s) && WorkerRight(job, s, 3)
    requires s.pcs[3].Working? && s' == Compute(job.ops, s, 3, s.pcs[3].c) && Counts(s, s', -1, -1)
    ensures EndsRight(job, s') && WorkerRight(job, s', 3)
  {
    hide Dedup, FeatureCalc, Match;
    WantStages(job, Put(s, 3));
    hide Job.Want, Job.After, Put, Got;
    CountsGot(s, s', 0);
  }

  lemma CountsGot<D, I, F>(s: State<D, I, F>, s': State<D, I, F>, k: nat)
    requires s.Shaped() && s'.Shaped() && Counts(s, s', -1, -1) && k < WORKERS
    ensures Got(s', k) == Got(s, k)
  {
  }

  // The writer writes what the sequential run does next.
  lemma WriteOut<D, I, F>(job: Job<D, I, F>, s: State<D, I, F>)
    requires Inv(job, s) && s.pcs[4].Working?
    ensures Inv(job, Step(job.ops, s, 4))
  {
    hide Job.Want, Job.After, WorkerRight, QueueRight, EndsRight, Counts, Put, Got, Computed;
    var s' := Step(job.ops, s, 4);
    CountsOfWrite(s, s');
    assert WorkerRight(job, s, 4);
    WriteEnds(job, s, s');
    WriterGets(job, s');
    Assemble(job, s, s', 4, -1, 4);
  }

  lemma WriteEnds<D, I, F>(job: Job<D, I, F>, s: State<D, I, F>, s': State<D, I, F>)
    requires s.Shaped() && s'.Shaped() && EndsRight(job, s) && WorkerRight(job, s, 4) && Counts(s, s', -1, 4)
    requires s.pcs[4].Working? && s' == s.(written := s.written + [s.pcs[4].c], pcs := s.pcs[4 := Getting])
    ensures EndsRight(job, s')
  {
    WriterHolds(job, s);
    hide Put, Got, Job.Want, Job.After, WorkerRight;
  }

  // What the writer holds is the next context of the sequential run.
  lemma WriterHolds<D, I, F>(job: Job<D, I, F>, s: State<D, I, F>)
    requires s.Shaped() && EndsRight(job, s) && WorkerRight(job, s, 4) && s.pcs[4].Working?
    ensures |s.written| < |job.chunks| && s.written + [s.pcs[4].c] == job.After(|s.written| + 1).out
  {
    hide Dedup, FeatureCalc, Match, Sequential;
    assert Put(s, 4) == |s.written|;
    WantStages(job, |s.written|);
  }

  lemma WriterGets<D, I, F>(job: Job<D, I, F>, s: State<D, I, F>)
    requires s.Shaped() && s.pcs[4].Getting?
    ensures WorkerRight(job, s, 4)
  {
  }

  // Every step of every worker keeps the invariant.
  lemma StepInv<D, I, F>(job: Job<D, I, F>, s: State<D, I, F>, k: nat)
    requires Inv(job, s) && k < WORKERS
    ensures Inv(job, Step(job.ops, s, k))
  {
    assert s.Shaped();
    hide Inv, Compute;
    if Enabled(s, k) {
      match s.pcs[k]
      case Getting =>
        if k == 0 {
          if s.input == [] {
            Move(job, s, k);
          } else {
            TakeInput(job, s);
          }
        } else if s.queues[k - 1] == [] {
          Move(job, s, k);
        } else {
          Take(job, s, k);
        }
      case Working(c) =>
        if k == WORKERS - 1 {
          WriteOut(job, s);
        } else {
          ComputeStage(job, s, k);
        }
      case Putting(c) => PutOn(job, s, k);
      case Finishing => Move(job, s, k);
      case Stopped =>
    }
  }

  // ---------- every run ----------

  // Everything reachable under any interleaving satisfies the invariant.
  lemma {:induction false} RunInv<D, I, F>(job: Job<D, I, F>, schedule: seq<nat>)
    requires forall j :: 0 <= j < |schedule| ==> schedule[j] < WORKERS
    ensures Inv(job, Run(job.ops, Start(job.chunks, job.d, job.i), schedule))
  {
    hide Inv, Step;
    StartInv(job);
    if schedule != [] {
      RunInv(job, schedule[..|schedule| - 1]);
      StepInv(job, Run(job.ops, Start(job.chunks, job.d, job.i), schedule[..|schedule| - 1]), schedule[|schedule| - 1]);
    }
  }

  ghost predicate AllStopped<D, I, F>(s: State<D, I, F>) {
    s.Shaped() && forall k :: 0 <= k < WORKERS ==> s.pcs[k].Stopped?
  }

  // What the writer has written is at any moment what the sequential run writes
  // first; queues never exceed their limit; a worker that has stopped has nothing
  // left to take, and its producer has stopped before it.
  lemma WriterSeesSequentialRun<D, I, F>(job: Job<D, I, F>, schedule: seq<nat>)
    requires forall j :: 0 <= j < |schedule| ==> schedule[j] < WORKERS
    ensures var s := Run(job.ops, Start(job.chunks, job.d, job.i), schedule);
            && |s.written| <= |job.chunks|
            && s.written == Sequential(job.ops, job.d, job.i, job.chunks[..|s.written|]).out
            && (forall k :: 0 <= k < WORKERS - 1 ==> |s.queues[k]| <= MAX_QUEUE_LEN)
            && (forall k :: 0 < k < WORKERS && s.pcs[k].Stopped? ==> s.pcs[k - 1].Stopped? && s.queues[k - 1] == [])
  {
    RunInv(job, schedule);
    var s := Run(job.ops, Start(job.chunks, job.d, job.i), schedule);
    hide Run, Sequential, Job.Want;
    forall k | 0 <= k < WORKERS - 1
      ensures |s.queues[k]| <= MAX_QUEUE_LEN
    {
      assert QueueRight(job, s, k);
    }
    forall k | 0 < k < WORKERS && s.pcs[k].Stopped?
      ensures s.pcs[k - 1].Stopped? && s.queues[k - 1] == []
    {
      assert WorkerRight(job, s, k);
      assert WorkerRight(job, s, k - 1);
    }
  }

  // When the workers have all stopped, every chunk has been written, in order, none
  // lost or repeated, with the type and base of the sequential run, and the tables
  // are those it leaves.
  lemma JoinedRun<D, I, F>(job: Job<D, I, F>, s: State<D, I, F>)
    requires Inv(job, s) && AllStopped(s)
    ensures Outcome(s.d, s.i, s.written) == Sequential(job.ops, job.d, job.i, job.chunks)
    ensures s.input == [] && forall k :: 0 <= k < WORKERS - 1 ==> s.queues[k] == []
  {
    AllDrained(job, s);
    assert job.chunks[..|job.chunks|] == job.chunks;
  }

  lemma AllDrained<D, I, F>(job: Job<D, I, F>, s: State<D, I, F>)
    requires Inv(job, s) && AllStopped(s)
    ensures s.input == [] && (forall k :: 0 <= k < WORKERS - 1 ==> s.queues[k] == [])
    ensures |s.written| == |job.chunks| == Computed(s, 1) == Computed(s, 3)
  {
    hide Job.Want, Job.After, EndsRight, QueueRight;
    assert WorkerRight(job, s, 0);
    forall k | 0 <= k < WORKERS - 1
      ensures s.queues[k] == []
    {
      assert WorkerRight(job, s, k + 1);
    }
    CountsDrained(s);
    InputTaken(job, s);
  }

  lemma InputTaken<D, I, F>(job: Job<D, I, F>, s: State<D, I, F>)
    requires s.Shaped() && EndsRight(job, s) && s.input == []
    ensures Got(s, 0) == |job.chunks|
  {
    hide Got;
  }

  lemma CountsDrained<D, I, F>(s: State<D, I, F>)
    requires AllStopped(s) && forall k :: 0 <= k < WORKERS - 1 ==> s.queues[k] == []
    ensures Got(s, 0) == |s.written| == Computed(s, 1) == Computed(s, 3)
  {
  }

  // ---------- no deadlock ----------

  // The writer stops last.
  lemma LastStops<D, I, F>(job: Job<D, I, F>, s: State<D, I, F>)
    requires Inv(job, s) && s.Shaped()
    ensures s.pcs[4].Stopped? ==> AllStopped(s)
  {
    hide Job.Want, Job.After, EndsRight, QueueRight, Put;
    assert WorkerRight(job, s, 4) && WorkerRight(job, s, 3) && WorkerRight(job, s, 2);
    assert WorkerRight(job, s, 1) && WorkerRight(job, s, 0);
  }

  // Unless all have stopped, some worker is not waiting.
  lemma NoDeadlock<D, I, F>(job: Job<D, I, F>, s: State<D, I, F>) returns (k: nat)
    requires Inv(job, s) && !AllStopped(s)
    ensures k < WORKERS && Enabled(s, k)
  {
    hide Job.Want, Job.After, EndsRight, QueueRight, Put;
    assert forall j :: 0 <= j < WORKERS ==> WorkerRight(job, s, j);
    LastStops(job, s);
    // Each waiting worker waits for the one before it.
    k := WORKERS - 1;
    while !Enabled(s, k)
      invariant k < WORKERS && !s.pcs[k].Stopped?
      invariant k < WORKERS - 1 ==> |s.queues[k]| == 0
      decreases k
    {
      assert WorkerRight(job, s, k);
      k := k - 1;
      assert WorkerRight(job, s, k);
    }
  }

  // A worker's steps to its end, with those of the context it holds on its way to
  // the writer.
  function Weight<F>(pc: Pc<F>, k: nat): nat
    requires k < WORKERS
  {
    match pc
    case Getting => 2
    case Working(_) => 15 - 3 * k
    case Putting(_) => 14 - 3 * k
    case Finishing => 1
    case Stopped => 0
  }

  // All the steps that are left.
  function Measure<D, I, F>(s: State<D, I, F>): nat
    requires s.Shaped()
  {
    13 * |s.input| + 11 * |s.queues[0]| + 8 * |s.queues[1]| + 5 * |s.queues[2]| + 2 * |s.queues[3]|
    + Weight(s.pcs[0], 0) + Weight(s.pcs[1], 1) + Weight(s.pcs[2], 2) + Weight(s.pcs[3], 3) + Weight(s.pcs[4], 4)
  }

  lemma StepMeasure<D, I, F>(ops: Ops<D, I, F>, s: State<D, I, F>, k: nat)
    requires s.Shaped() && k < WORKERS && Enabled(s, k)
    ensures Measure(Step(ops, s, k)) < Measure(s)
  {
    hide Dedup, FeatureCalc, Match;
  }

  lemma {:induction false} RunFirst<D, I, F>(ops: Ops<D, I, F>, s: State<D, I, F>, k: nat, schedule: seq<nat>)
    requires s.Shaped() && k < WORKERS && forall j :: 0 <= j < |schedule| ==> schedule[j] < WORKERS
    ensures Run(ops, s, [k] + schedule) == Run(ops, Step(ops, s, k), schedule)
  {
    hide Step;
    var n := |schedule| - 1;
    if schedule == [] {
      assert [k] + schedule == [k];
      assert Run(ops, s, []) == s;
    } else {
      RunFirst(ops, s, k, schedule[..n]);
      assert ([k] + schedule)[..n + 1] == [k] + schedule[..n];
    }
  }

  // From anywhere the workers can go on until all have stopped, and as every step
  // brings the end nearer they do so in whatever order they run.
  lemma {:induction false} Completes<D, I, F>(job: Job<D, I, F>, s: State<D, I, F>) returns (schedule: seq<nat>)
    requires Inv(job, s)
    ensures forall j :: 0 <= j < |schedule| ==> schedule[j] < WORKERS
    ensures AllStopped(Run(job.ops, s, schedule))
    decreases if s.Shaped() then Measure(s) else 0
  {
    hide AllStopped, Enabled, EndsRight, Measure, QueueRight, State.Shaped, Step, WorkerRight;
    schedule := [];
    if !AllStopped(s) {
      var k := NoDeadlock(job, s);
      StepMeasure(job.ops, s, k);
      StepInv(job, s, k);
      hide Inv;
      schedule := Completes(job, Step(job.ops, s, k));
      RunFirst(job.ops, s, k, schedule);
      schedule := [k] + schedule;
    }
  }

  // ---------- bases ----------

  // The chunks written with a type.
  function IdsOf<F>(out: seq<Context<F>>, chunkType: nat): set<nat> {
    set j | 0 <= j < |out| && out[j].chunkType == chunkType :: out[j].chunk.id
  }

  // An index that answers only with identifiers given to it.
  ghost predicate IndexSound<D, I(!new), F(!new)>(ops: Ops<D, I, F>, ids: I -> set<nat>) {
    && (forall i, f :: ids(ops.getBaseChunkId(i, f).0) <= ids(i))
    && (forall i, f :: ops.getBaseChunkId(i, f).1.Some? ==> ops.getBaseChunkId(i, f).1.value in ids(i))
    && (forall i, f, id :: ids(ops.addFeature(i, f, id)) <= ids(i) + {id})
  }

  // The base of every delta chunk is a base chunk written before it, in this file
  // or known from an earlier one.
  lemma {:induction false} DeltaNamesEarlierBase<D, I(!new), F(!new)>(
    job: Job<D, I, F>, ids: I -> set<nat>, known: set<nat>, n: nat)
    requires IndexSound(job.ops, ids) && ids(job.i) <= known && n <= |job.chunks|
    ensures ids(job.After(n).i) <= known + IdsOf(job.After(n).out, BASE_CHUNK)
    ensures forall j :: 0 <= j < n && job.After(n).out[j].chunkType == DELTA_CHUNK ==>
              job.After(n).out[j].baseId in known + IdsOf(job.After(n).out[..j], BASE_CHUNK)
  {
    if n == 0 {
      assert job.chunks[..0] == [];
    } else {
      DeltaNamesEarlierBase(job, ids, known, n - 1);
      assert job.chunks[..n][..n - 1] == job.chunks[..n - 1];
      OneMoreDelta(job.ops, ids, known, job.After(n - 1), job.chunks[n - 1]);
    }
  }

  lemma OneMoreDelta<D, I(!new), F(!new)>(ops: Ops<D, I, F>, ids: I -> set<nat>, known: set<nat>,
                                          r: Outcome<D, I, F>, chunk: Chunk)
    requires IndexSound(ops, ids) && ids(r.i) <= known + IdsOf(r.out, BASE_CHUNK)
    requires forall j :: 0 <= j < |r.out| && r.out[j].chunkType == DELTA_CHUNK ==>
               r.out[j].baseId in known + IdsOf(r.out[..j], BASE_CHUNK)
    ensures var r' := OneChunk(ops, r, chunk);
            && ids(r'.i) <= known + IdsOf(r'.out, BASE_CHUNK)
            && forall j :: 0 <= j < |r'.out| && r'.out[j].chunkType == DELTA_CHUNK ==>
                 r'.out[j].baseId in known + IdsOf(r'.out[..j], BASE_CHUNK)
  {
    var r' := OneChunk(ops, r, chunk);
    var c := r'.out[|r.out|];
    IdsGrow(r.out, c, BASE_CHUNK);
    forall j | 0 <= j < |r'.out| && r'.out[j].chunkType == DELTA_CHUNK
      ensures r'.out[j].baseId in known + IdsOf(r'.out[..j], BASE_CHUNK)
    {
      if j == |r.out| {
        assert r'.out[..j] == r.out;
      } else {
        assert r'.out[..j] == r.out[..j] && r'.out[j] == r.out[j];
      }
    }
  }

  lemma IdsGrow<F>(out: seq<Context<F>>, c: Context<F>, chunkType: nat)
    ensures IdsOf(out + [c], chunkType) == IdsOf(out, chunkType) + (if c.chunkType == chunkType then {c.chunk.id} else {})
  {
    var all := out + [c];
    forall id | id in IdsOf(out, chunkType)
      ensures id in IdsOf(all, chunkType)
    {
      var j :| 0 <= j < |out| && out[j].chunkType == chunkType && out[j].chunk.id == id;
      assert all[j] == out[j];
    }
    assert all[|out|] == c;
  }

  // ---------- file after file ----------

  // AddFile for one file after another is the sequential run over both.
  lemma {:induction false} FilesJoin<D, I, F>(ops: Ops<D, I, F>, d: D, i: I, a: seq<Chunk>, b: seq<Chunk>)
    ensures var ra := Sequential(ops, d, i, a);
            var rb := Sequential(ops, ra.d, ra.i, b);
            Sequential(ops, d, i, a + b) == Outcome(rb.d, rb.i, ra.out + rb.out)
  {
    hide Dedup, FeatureCalc, Match;
    if b == [] {
      assert a + b == a;
    } else {
      var n := |b| - 1;
      FilesJoin(ops, d, i, a, b[..n]);
      assert (a + b)[..|a| + n] == a + b[..n] && (a + b)[|a| + n] == b[n];
    }
  }
}
