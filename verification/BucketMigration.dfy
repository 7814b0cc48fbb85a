/** Moving legacy documents from the public to the private bucket while any number of API workers
    run the same start-up loop, interleaved step by step and crashing anywhere. */
module BucketMigration {
  import opened AsciiText
  import opened Options

  type Path = string
  type Bytes = seq<bv8>
  type Bucket = map<Path, Bytes>

  const DOCUMENT_NAMESPACES := {
    "documents", "employee-documents", "employee-resumes", "asset-documents", "asset-log-files",
    "project-files", "project-reports", "leave-letters", "stores", "items"
  }

  /** The text before the first slash. */
  function Namespace(path: Path): string {
    if path == "" || path[0] == '/' then "" else [path[0]] + Namespace(path[1..])
  }

  predicate DocumentPath(path: Path) {
    Namespace(path) in DOCUMENT_NAMESPACES
  }

  /** Only the first part of a path decides, however deep the path goes. */
  lemma DocumentPathByFirstPart(path: Path, head: string, rest: string)
    ensures Namespace(path) == SplitOn(path, '/')[0]
    ensures DocumentPath(path) <==> SplitOn(path, '/')[0] in DOCUMENT_NAMESPACES
    ensures '/' !in head ==>
      && (DocumentPath(head + "/" + rest) <==> head in DOCUMENT_NAMESPACES)
      && (DocumentPath(head) <==> head in DOCUMENT_NAMESPACES)
  {
    NamespaceIsFirstPiece(path);
    NamespaceIsFirstPiece(head);
    NamespaceIsFirstPiece(head + "/" + rest);
    if '/' !in head {
      SplitWhole(head, '/');
      SplitAround(head, '/', rest);
      assert head + ['/'] + rest == head + "/" + rest;
    }
    hide Namespace, SplitOn;
  }

  lemma {:induction false} NamespaceIsFirstPiece(path: Path)
    ensures Namespace(path) == SplitOn(path, '/')[0]
  {
    if path == "" || path[0] == '/' {
    } else {
      NamespaceIsFirstPiece(path[1..]);
    }
  }

  /** Where a worker stands with the path it is moving. */
  datatype Stage = Fetch | Send(data: Bytes) | Erase | Halted

  /** A worker has finished paths[..at] and is busy with paths[at]. */
  datatype Worker = Worker(paths: seq<Path>, at: nat, stage: Stage)

  datatype State = State(public: Bucket, private: Bucket, workers: map<nat, Worker>)

  /** One request or one failure. A failing request may or may not have reached the server. */
  datatype Step =
    | Boot(worker: nat, paths: seq<Path>)
    | Download(worker: nat)
    | Upload(worker: nat)
    | Remove(worker: nat)
    | Crash(worker: nat)
    | UploadThenCrash(worker: nat)
    | RemoveThenCrash(worker: nat)
    | Save(path: Path, data: Bytes)

  predicate Busy(st: State, w: nat) {
    w in st.workers && st.workers[w].at < |st.workers[w].paths|
  }

  function Current(st: State, w: nat): Path
    requires Busy(st, w)
  {
    st.workers[w].paths[st.workers[w].at]
  }

  predicate Sending(st: State, w: nat) {
    Busy(st, w) && st.workers[w].stage.Send?
  }

  predicate Erasing(st: State, w: nat) {
    Busy(st, w) && st.workers[w].stage.Erase?
  }

  function SetStage(st: State, w: nat, stage: Stage): map<nat, Worker>
    requires w in st.workers
  {
    st.workers[w := st.workers[w].(stage := stage)]
  }

  function MoveOn(st: State, w: nat): map<nat, Worker>
    requires w in st.workers
  {
    st.workers[w := Worker(st.workers[w].paths, st.workers[w].at + 1, Fetch)]
  }

  /** The private bucket after the worker's upload, overwriting what is there. */
  function Put(st: State, w: nat): Bucket
    requires Sending(st, w)
  {
    st.private[Current(st, w) := st.workers[w].stage.data]
  }

  /** The public bucket after the worker's removal; removing a missing object is no error. */
  function Drop(st: State, w: nat): Bucket
    requires Erasing(st, w)
  {
    st.public - {Current(st, w)}
  }

  /** The state after a step; a step that cannot happen leaves the state alone. */
  function Next(st: State, step: Step): State {
    match step
    case Boot(w, paths) =>
      if w in st.workers then st else st.(workers := st.workers[w := Worker(paths, 0, Fetch)])
    case Download(w) =>
      if !Busy(st, w) || !st.workers[w].stage.Fetch? then st
      else if !DocumentPath(Current(st, w)) || Current(st, w) !in st.public
      then st.(workers := MoveOn(st, w))
      else st.(workers := SetStage(st, w, Send(st.public[Current(st, w)])))
    case Upload(w) =>
      if !Sending(st, w) then st else State(st.public, Put(st, w), SetStage(st, w, Erase))
    case UploadThenCrash(w) =>
      if !Sending(st, w) then st else State(st.public, Put(st, w), SetStage(st, w, Halted))
    case Remove(w) =>
      if !Erasing(st, w) then st else State(Drop(st, w), st.private, MoveOn(st, w))
    case RemoveThenCrash(w) =>
      if !Erasing(st, w) then st else State(Drop(st, w), st.private, SetStage(st, w, Halted))
    case Crash(w) =>
      if w !in st.workers then st else st.(workers := SetStage(st, w, Halted))
    case Save(path, data) =>
      if path in st.public || path in st.private then st
      else if DocumentPath(path) then st.(private := st.private[path := data])
      else st.(public := st.public[path := data])
  }

  function Run(st: State, steps: seq<Step>): State
    decreases |steps|
  {
    if steps == [] then st else Next(Run(st, steps[..|steps| - 1]), steps[|steps| - 1])
  }

  // --- what every step keeps ----------------------------------------------------------------

  predicate Legacy(start: State, p: Path) {
    DocumentPath(p) && p in start.public
  }

  ghost predicate Safe(start: State, st: State, p: Path)
    requires Legacy(start, p)
  {
    && (p in st.public ==> st.public[p] == start.public[p])
    && (p !in st.public ==> Stored(start, st, p))
  }

  predicate Stored(start: State, st: State, p: Path)
    requires Legacy(start, p)
  {
    p in st.private && st.private[p] == start.public[p]
  }

  /** A worker in mid-move holds a document path, and the original bytes of it. */
  ghost predicate WorkerOk(start: State, st: State, w: nat)
    requires w in st.workers
  {
    var worker := st.workers[w];
    && worker.at <= |worker.paths|
    && (forall k :: 0 <= k < worker.at && DocumentPath(worker.paths[k]) ==> worker.paths[k] !in st.public)
    && (worker.stage.Send? || worker.stage.Erase? ==> Busy(st, w) && Legacy(start, Current(st, w)))
    && (worker.stage.Send? ==> worker.stage.data == start.public[Current(st, w)])
    && (worker.stage.Erase? ==> Stored(start, st, Current(st, w)))
  }

  ghost predicate Invariant(start: State, st: State) {
    && (forall p :: Legacy(start, p) ==> Safe(start, st, p))
    && (forall p :: p in st.public && DocumentPath(p) ==> Legacy(start, p))
    && (forall w :: w in st.workers ==> WorkerOk(start, st, w))
  }

  ghost predicate Initial(st: State) {
    st.workers == map[]
  }

  /** What a step may do to document objects: none appears in public, a stored one stays stored,
      and one leaves public only when it is stored. */
  ghost predicate Moves(start: State, st: State, after: State) {
    && (forall p :: p in after.public && DocumentPath(p) ==>
                      p in st.public && st.public[p] == after.public[p])
    && (forall p :: Legacy(start, p) && Stored(start, st, p) ==> Stored(start, after, p))
    && (forall p :: Legacy(start, p) && p in st.public && p !in after.public ==>
                      Stored(start, after, p))
  }

  function Actor(step: Step): set<nat> {
    if step.Save? then {} else {step.worker}
  }

  /** Requests move documents; boots, crashes and skips leave both buckets alone. */
  lemma StepMoves(start: State, st: State, step: Step)
    requires Invariant(start, st)
    ensures Moves(start, st, Next(st, step))
  {
    hide DocumentPath;
    if (step.Upload? || step.UploadThenCrash?) && Sending(st, step.worker) {
      PutMoves(start, st, step.worker);
    } else if (step.Remove? || step.RemoveThenCrash?) && Erasing(st, step.worker) {
      DropMoves(start, st, step.worker);
    } else if step.Save? {
    } else {
      assert Next(st, step).public == st.public && Next(st, step).private == st.private;
    }
  }

  lemma PutMoves(start: State, st: State, w: nat)
    requires Invariant(start, st) && Sending(st, w)
    ensures forall workers :: Moves(start, st, State(st.public, Put(st, w), workers))
  {
    hide DocumentPath;
    assert WorkerOk(start, st, w);
  }

  lemma DropMoves(start: State, st: State, w: nat)
    requires Invariant(start, st) && Erasing(st, w)
    ensures forall workers :: Moves(start, st, State(Drop(st, w), st.private, workers))
  {
    hide DocumentPath;
    assert WorkerOk(start, st, w);
  }

  lemma BystandersUnchanged(st: State, step: Step)
    ensures forall w :: w in st.workers && w !in Actor(step) ==>
              w in Next(st, step).workers && Next(st, step).workers[w] == st.workers[w]
    ensures Next(st, step).workers.Keys <= st.workers.Keys + Actor(step)
  {
    hide DocumentPath;
  }

  lemma BystanderStaysOk(start: State, st: State, after: State, w: nat)
    requires w in st.workers && w in after.workers && after.workers[w] == st.workers[w]
    requires WorkerOk(start, st, w) && Moves(start, st, after)
    ensures WorkerOk(start, after, w)
  {
  }

  lemma ActorStaysOk(start: State, st: State, step: Step)
    requires Invariant(start, st) && !step.Save? && step.worker in Next(st, step).workers
    ensures WorkerOk(start, Next(st, step), step.worker)
  {
    hide DocumentPath;
    StepMoves(start, st, step);
    var w, after := step.worker, Next(st, step);
    if w in st.workers {
      assert WorkerOk(start, st, w);
      if after.workers[w] == st.workers[w] {
        BystanderStaysOk(start, st, after, w);
      }
    }
  }

  lemma StepKeepsInvariant(start: State, st: State, step: Step)
    requires Invariant(start, st)
    ensures Invariant(start, Next(st, step))
  {
    var after := Next(st, step);
    StepMoves(start, st, step);
    BystandersUnchanged(st, step);
    forall p | Legacy(start, p) ensures Safe(start, after, p) {
      assert Safe(start, st, p);
    }
    forall w | w in after.workers ensures WorkerOk(start, after, w) {
      if w in Actor(step) {
        ActorStaysOk(start, st, step);
      } else {
        BystanderStaysOk(start, st, after, w);
      }
    }
  }

  lemma {:induction false} RunKeepsInvariant(start: State, steps: seq<Step>)
    requires Initial(start)
    ensures Invariant(start, Run(start, steps))
    decreases |steps|
  {
    if steps == [] {
    } else {
      RunKeepsInvariant(start, steps[..|steps| - 1]);
      StepKeepsInvariant(start, Run(start, steps[..|steps| - 1]), steps[|steps| - 1]);
    }
  }

  /** Under every interleaving with every pattern of crashes, the original bytes of every legacy
      document are in the public or in the private bucket. */
  lemma NoDocumentIsLost(start: State, steps: seq<Step>, p: Path)
    requires Initial(start) && Legacy(start, p)
    ensures var st := Run(start, steps);
      (p in st.public && st.public[p] == start.public[p]) || Stored(start, st, p)
  {
    RunKeepsInvariant(start, steps);
    assert Safe(start, Run(start, steps), p);
  }

  // --- finished means private, for ever -------------------------------------------------------

  lemma {:induction false} RunSplits(start: State, first: seq<Step>, rest: seq<Step>)
    ensures Run(start, first + rest) == Run(Run(start, first), rest)
    decreases |rest|
  {
    if rest == [] {
      assert first + rest == first;
    } else {
      RunSplits(start, first, rest[..|rest| - 1]);
      assert (first + rest)[..|first + rest| - 1] == first + rest[..|rest| - 1];
    }
  }

  lemma StepAdvances(st: State, step: Step, w: nat)
    requires w in st.workers
    ensures var after := Next(st, step);
      w in after.workers && after.workers[w].paths == st.workers[w].paths
      && after.workers[w].at >= st.workers[w].at
  {
    hide DocumentPath;
    if step.Save? || step.worker != w {
      BystandersUnchanged(st, step);
    }
  }

  /** A worker keeps its list and never goes back in it. */
  lemma {:induction false} WorkersAdvance(st: State, steps: seq<Step>, w: nat)
    requires w in st.workers
    ensures var after := Run(st, steps);
      w in after.workers && after.workers[w].paths == st.workers[w].paths
      && after.workers[w].at >= st.workers[w].at
    decreases |steps|
  {
    if steps == [] {
    } else {
      WorkersAdvance(st, steps[..|steps| - 1], w);
      StepAdvances(Run(st, steps[..|steps| - 1]), steps[|steps| - 1], w);
    }
  }

  /** Once ONE worker is past a legacy document, then whatever it and all others do afterwards,
      the document is gone from public and private holds its original bytes. */
  lemma PassedMeansPrivateForever(start: State, first: seq<Step>, rest: seq<Step>, w: nat, k: nat)
    requires Initial(start)
    requires var st := Run(start, first);
      w in st.workers && k < st.workers[w].at && k < |st.workers[w].paths|
      && Legacy(start, st.workers[w].paths[k])
    ensures var p := Run(start, first).workers[w].paths[k];
      var later := Run(start, first + rest);
      p !in later.public && Stored(start, later, p)
  {
    var st := Run(start, first);
    RunSplits(start, first, rest);
    WorkersAdvance(st, rest, w);
    RunKeepsInvariant(start, first + rest);
    var later := Run(start, first + rest);
    assert WorkerOk(start, later, w);
    assert Safe(start, later, st.workers[w].paths[k]);
  }

  /** Reading an object looks in the bucket of its namespace only. */
  function Resolve(st: State, p: Path): Option<Bytes> {
    var bucket := if DocumentPath(p) then st.private else st.public;
    if p in bucket then Some(bucket[p]) else None
  }

  lemma StepKeepsOthers(start: State, st: State, step: Step, p: Path)
    requires Invariant(start, st) && !Legacy(start, p) && Resolve(st, p).Some?
    ensures Resolve(Next(st, step), p) == Resolve(st, p)
  {
    hide DocumentPath;
    if !step.Save? && step.worker in st.workers {
      assert WorkerOk(start, st, step.worker);
    }
  }

  /** Media, new uploads and documents that were always private are read back unchanged at every
      later moment: the migration disturbs legacy documents only. */
  lemma {:induction false} OthersResolveForever(
      start: State, first: seq<Step>, rest: seq<Step>, p: Path)
    requires Initial(start) && !Legacy(start, p) && Resolve(Run(start, first), p).Some?
    ensures Resolve(Run(start, first + rest), p) == Resolve(Run(start, first), p)
    decreases |rest|
  {
    if rest == [] {
      assert first + rest == first;
    } else {
      var shorter := first + rest[..|rest| - 1];
      OthersResolveForever(start, first, rest[..|rest| - 1], p);
      RunKeepsInvariant(start, shorter);
      assert (first + rest)[..|first + rest| - 1] == shorter;
      StepKeepsOthers(start, Run(start, shorter), rest[|rest| - 1], p);
    }
  }

  /** A legacy document that a worker is past is readable, with its original bytes, for ever. */
  lemma PassedMeansReadableForever(start: State, first: seq<Step>, rest: seq<Step>, w: nat, k: nat)
    requires Initial(start)
    requires var st := Run(start, first);
      w in st.workers && k < st.workers[w].at && k < |st.workers[w].paths|
      && Legacy(start, st.workers[w].paths[k])
    ensures var p := Run(start, first).workers[w].paths[k];
      Resolve(Run(start, first + rest), p) == Some(start.public[p])
  {
    PassedMeansPrivateForever(start, first, rest, w, k);
  }

  // --- one undisturbed worker gets through its whole list -------------------------------------

  /** One pass of the loop body; the last two requests do nothing for a path that needs no move. */
  function OnePath(w: nat): seq<Step> {
    [Download(w), Upload(w), Remove(w)]
  }

  function Passes(w: nat, n: nat): seq<Step> {
    if n == 0 then [] else Passes(w, n - 1) + OnePath(w)
  }

  lemma RunThree(st: State, a: Step, b: Step, c: Step)
    ensures Run(st, [a, b, c]) == Next(Next(Next(st, a), b), c)
  {
    assert [a, b, c][..2] == [a, b] && [a, b][..1] == [a] && [a][..0] == [];
    assert Run(st, [a]) == Next(Run(st, []), a);
    assert Run(st, [a, b]) == Next(Run(st, [a]), b);
  }

  /** A pass moves the current document, or moves on when there is nothing to move. */
  lemma OnePathMoves(st: State, w: nat)
    requires Busy(st, w) && st.workers[w].stage.Fetch?
    ensures var p := Current(st, w);
      Run(st, OnePath(w)) ==
        if DocumentPath(p) && p in st.public
        then State(st.public - {p}, st.private[p := st.public[p]], MoveOn(st, w))
        else st.(workers := MoveOn(st, w))
  {
    hide DocumentPath;
    RunThree(st, Download(w), Upload(w), Remove(w));
    var fetched, p := Next(st, Download(w)), Current(st, w);
    if DocumentPath(p) && p in st.public {
      var sent := Next(fetched, Upload(w));
      assert sent.workers == SetStage(st, w, Erase);
      assert Next(sent, Remove(w)).workers == MoveOn(st, w);
    }
  }

  lemma {:induction false} UndisturbedWorkerFinishes(st: State, w: nat, paths: seq<Path>, n: nat)
    requires w in st.workers && st.workers[w] == Worker(paths, 0, Fetch) && n <= |paths|
    ensures var after := Run(st, Passes(w, n));
      w in after.workers && after.workers[w] == Worker(paths, n, Fetch)
  {
    if n == 0 {
    } else {
      UndisturbedWorkerFinishes(st, w, paths, n - 1);
      RunSplits(st, Passes(w, n - 1), OnePath(w));
      OnePathMoves(Run(st, Passes(w, n - 1)), w);
    }
  }

  /** A worker that boots at any moment and is then left alone makes all its documents private. */
  lemma EveryListedDocumentBecomesPrivate(
      start: State, first: seq<Step>, w: nat, paths: seq<Path>, p: Path)
    requires Initial(start) && w !in Run(start, first).workers
    requires p in paths && Legacy(start, p)
    ensures var after := Run(start, first + [Boot(w, paths)] + Passes(w, |paths|));
      p !in after.public && Stored(start, after, p)
  {
    var booted := first + [Boot(w, paths)];
    assert booted[..|booted| - 1] == first;
    UndisturbedWorkerFinishes(Run(start, booted), w, paths, |paths|);
    RunSplits(start, booted, Passes(w, |paths|));
    var k :| 0 <= k < |paths| && paths[k] == p;
    PassedMeansPrivateForever(start, booted + Passes(w, |paths|), [], w, k);
    assert booted + Passes(w, |paths|) + [] == booted + Passes(w, |paths|);
  }
}
