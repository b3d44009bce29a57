/** The task farm: a ring buffer of work, and the protocol by which a main thread and workers share it. */
module TaskFarm {

  type Task = nat

  // ---------- The ring buffer ----------

  /** The index k places on round the buffer. */
  function Around(k: int, size: int): int
    requires size > 0 && 0 <= k < 2 * size
  {
    if k >= size then k - size else k
  }

  /** The place of the oldest entry, as the source computes it. */
  function OutPos(queueIn: nat, queuedItems: nat, size: nat): (r: int)
    requires queueIn < size && queuedItems <= size
    ensures 0 <= r < size
  {
    if queuedItems > queueIn then queueIn + size - queuedItems else queueIn - queuedItems
  }

  /** The queued entries, oldest first. */
  function Queued(work: seq<Task>, queueIn: nat, queuedItems: nat): (q: seq<Task>)
    requires queueIn < |work| && queuedItems <= |work|
    ensures |q| == queuedItems
  {
    seq(queuedItems, k requires 0 <= k < queuedItems => work[Around(OutPos(queueIn, queuedItems, |work|) + k, |work|)])
  }

  class WorkQueue {
    const queueSize: nat
    const workQueue: array<Task>
    var queueIn: nat
    var queuedItems: nat

    constructor (qSize: nat)
      requires qSize > 0
      ensures Valid() && queueSize == qSize && Contents() == [] && fresh(workQueue)
    {
      queueSize := qSize;
      workQueue := new Task[qSize];
      queueIn, queuedItems := 0, 0;
    }

    ghost predicate Valid()
      reads this
    {
      0 < queueSize == workQueue.Length && queueIn < queueSize && queuedItems <= queueSize
    }

    ghost function Contents(): seq<Task>
      requires Valid()
      reads this, workQueue
    {
      Queued(workQueue[..], queueIn, queuedItems)
    }

    /** Add an entry unless the queue is full; ask for a signal if not every worker has work already. */
    method AddWork(work: Task, threadCount: nat) returns (ok: bool, wantSignal: bool)
      requires Valid()
      modifies this, workQueue
      ensures Valid() && ok == (|old(Contents())| < queueSize)
      ensures Contents() == if ok then old(Contents()) + [work] else old(Contents())
      ensures wantSignal == (ok && |Contents()| <= threadCount)
    {
      if queuedItems == queueSize {
        return false, false;
      }
      ghost var was := workQueue[..];
      Appended(was, queueIn, queuedItems, work);
      workQueue[queueIn] := work;
      assert workQueue[..] == was[queueIn := work];
      queueIn := queueIn + 1;
      if queueIn == queueSize {
        queueIn := 0;
      }
      queuedItems := queuedItems + 1;
      return true, queuedItems <= threadCount;
    }

    /** Take the oldest entry. */
    method TakeWork() returns (work: Task)
      requires Valid() && Contents() != []
      modifies this, workQueue
      ensures Valid() && [work] + Contents() == old(Contents())
    {
      var outPos := OutPos(queueIn, queuedItems, queueSize);
      ghost var was := workQueue[..];
      TakenFirst(was, queueIn, queuedItems);
      work := workQueue[outPos];
      workQueue[outPos] := 0;
      assert workQueue[..] == was[outPos := 0];
      queuedItems := queuedItems - 1;
    }
  }

  /** Entry k of the queue is k places round from the oldest. */
  lemma QueuedAt(work: seq<Task>, queueIn: nat, queuedItems: nat, k: int)
    requires queueIn < |work| && queuedItems <= |work| && 0 <= k < queuedItems
    ensures var p := queueIn - queuedItems + k;
      Queued(work, queueIn, queuedItems)[k] == work[if p < 0 then p + |work| else p]
  {
    assert Queued(work, queueIn, queuedItems)[k] == work[Around(OutPos(queueIn, queuedItems, |work|) + k, |work|)];
  }

  lemma Appended(work: seq<Task>, queueIn: nat, queuedItems: nat, task: Task)
    requires queueIn < |work| && queuedItems < |work|
    ensures var next := if queueIn + 1 == |work| then 0 else queueIn + 1;
      Queued(work[queueIn := task], next, queuedItems + 1) == Queued(work, queueIn, queuedItems) + [task]
  {
    var next := if queueIn + 1 == |work| then 0 else queueIn + 1;
    var q, q' := Queued(work, queueIn, queuedItems), Queued(work[queueIn := task], next, queuedItems + 1);
    forall k | 0 <= k <= queuedItems
      ensures q'[k] == if k < queuedItems then q[k] else task
    {
      QueuedAt(work[queueIn := task], next, queuedItems + 1, k);
      if k < queuedItems { QueuedAt(work, queueIn, queuedItems, k); }
    }
  }

  lemma TakenFirst(work: seq<Task>, queueIn: nat, queuedItems: nat)
    requires queueIn < |work| && 0 < queuedItems <= |work|
    ensures var out := OutPos(queueIn, queuedItems, |work|);
      out < |work| && [work[out]] + Queued(work[out := 0], queueIn, queuedItems - 1) == Queued(work, queueIn, queuedItems)
  {
    var out := OutPos(queueIn, queuedItems, |work|);
    var q, q' := Queued(work, queueIn, queuedItems), Queued(work[out := 0], queueIn, queuedItems - 1);
    QueuedAt(work, queueIn, queuedItems, 0);
    forall k | 0 <= k < queuedItems - 1
      ensures q'[k] == q[k + 1]
    {
      QueuedAt(work[out := 0], queueIn, queuedItems - 1, k);
      QueuedAt(work, queueIn, queuedItems, k + 1);
    }
    assert q == [work[out]] + q';
  }

  // ---------- The protocol ----------

  /** A worker that owes a post has added work and must signal the semaphore before anything else. */
  datatype Worker = Starting | Running(task: Task, owing: bool) | Blocked | Woken

  /** The main thread is at work, about to test for completion, or waiting to be signalled. */
  datatype Main = Working(owing: bool) | Checking | Waiting

  /** What has happened to the semaphore and to those waiting at it. Not part of the source's state. */
  datatype Tally = Tally(
    posts: nat, wakes: nat,
    refused: nat,                 // posts refused by a bounded semaphore
    unsignalled: nat,             // tasks added without a signal
    unwoken: nat,                 // tasks taken by workers that had not been woken for them
    vain: nat)                    // workers woken that found no work

  datatype State = State(
    queue: seq<Task>, size: nat,
    bounded: bool,                // the semaphore's count cannot go above the number of threads
    sem: nat,                     // the count of waitForWork
    active: int,                  // activeThreadCount
    workers: seq<Worker>, main: Main,
    added: seq<Task>,             // everything that was ever queued, in order
    taken: seq<Task>,             // everything that has left the queue, in order
    done: multiset<Task>,         // everything that has been run to its end
    tally: Tally)

  /** Adding work, with the signal still to come if it is wanted. */
  predicate Adds(s: State, s': State, task: Task, owing: bool) {
    && |s.queue| < s.size && owing == (|s.queue| + 1 <= |s.workers|)
    && s'.queue == s.queue + [task] && s'.added == s.added + [task]
    && s'.size == s.size && s'.sem == s.sem && s'.active == s.active && s'.taken == s.taken && s'.done == s.done
    && s'.bounded == s.bounded && s'.tally == if owing then s.tally else s.tally.(unsignalled := s.tally.unsignalled + 1)
  }

  predicate MainAdds(s: State, s': State, task: Task) {
    && s.main == Working(false) && s'.workers == s.workers
    && s'.main.Working? && Adds(s, s', task, s'.main.owing)
  }

  predicate WorkerAdds(s: State, s': State, w: nat, task: Task) {
    && w < |s.workers| && s.workers[w].Running? && !s.workers[w].owing && s'.main == s.main && |s'.workers| == |s.workers|
    && s'.workers[w].Running? && s'.workers == s.workers[w := Running(s.workers[w].task, s'.workers[w].owing)]
    && Adds(s, s', task, s'.workers[w].owing)
  }

  /** A semaphore with a largest value stays at that. */
  predicate Refuses(s: State) {
    s.bounded && s.sem >= |s.workers|
  }

  function Posted(s: State): State {
    if Refuses(s) then s.(tally := s.tally.(posts := s.tally.posts + 1, refused := s.tally.refused + 1))
    else s.(sem := s.sem + 1, tally := s.tally.(posts := s.tally.posts + 1))
  }

  predicate MainPosts(s: State, s': State) {
    s.main == Working(true) && s' == Posted(s).(main := Working(false))
  }

  predicate WorkerPosts(s: State, s': State, w: nat) {
    && w < |s.workers| && s.workers[w].Running? && s.workers[w].owing
    && s' == Posted(s).(workers := s.workers[w := Running(s.workers[w].task, false)])
  }

  /** A blocked worker gets past the semaphore. */
  predicate Wakes(s: State, s': State, w: nat) {
    && w < |s.workers| && s.workers[w] == Blocked && s.sem > 0
    && s' == s.(sem := s.sem - 1, workers := s.workers[w := Woken], tally := s.tally.(wakes := s.tally.wakes + 1))
  }

  /** A worker that is starting, has woken or has finished a task. */
  predicate CanLook(worker: Worker) {
    worker == Starting || worker == Woken || (worker.Running? && !worker.owing)
  }

  /** The count once a worker holds the lock: one that was not active before is now. */
  function Counted(s: State, w: nat): int
    requires w < |s.workers|
  {
    if s.workers[w].Running? then s.active else s.active + 1
  }

  function DoneWith(s: State, w: nat): multiset<Task>
    requires w < |s.workers|
  {
    if s.workers[w].Running? then s.done + multiset{s.workers[w].task} else s.done
  }

  /** Under the lock: take the oldest task. */
  predicate Takes(s: State, s': State, w: nat) {
    && w < |s.workers| && CanLook(s.workers[w]) && |s.queue| > 0
    && s' == s.(queue := s.queue[1..], active := Counted(s, w), taken := s.taken + [s.queue[0]], done := DoneWith(s, w),
                workers := s.workers[w := Running(s.queue[0], false)],
                tally := if s.workers[w] == Woken then s.tally else s.tally.(unwoken := s.tally.unwoken + 1))
  }

  /** Under the lock: with no work left, the last active worker signals the main thread, then blocks. */
  predicate Idles(s: State, s': State, w: nat) {
    && w < |s.workers| && CanLook(s.workers[w]) && |s.queue| == 0
    && s' == s.(active := Counted(s, w) - 1, done := DoneWith(s, w), workers := s.workers[w := Blocked],
                main := if Counted(s, w) - 1 == 0 && s.main == Waiting then Checking else s.main,
                tally := if s.workers[w] == Woken then s.tally.(vain := s.tally.vain + 1) else s.tally)
  }

  predicate StartsWaiting(s: State, s': State) {
    s.main == Working(false) && s' == s.(main := Checking)
  }

  /** Under the lock: wait while there is work queued or in progress. */
  predicate Waits(s: State, s': State) {
    s.main == Checking && (s.active > 0 || |s.queue| > 0) && s' == s.(main := Waiting)
  }

  predicate Completes(s: State, s': State) {
    s.main == Checking && !(s.active > 0 || |s.queue| > 0) && s' == s.(main := Working(false))
  }

  datatype Step =
    | SMainAdds(task: Task) | SWorkerAdds(w: nat, task: Task) | SMainPosts | SWorkerPosts(w: nat)
    | SWakes(w: nat) | STakes(w: nat) | SIdles(w: nat) | SStartsWaiting | SWaits | SCompletes

  predicate IsStep(s: State, s': State, step: Step) {
    match step
    case SMainAdds(task) => MainAdds(s, s', task)
    case SWorkerAdds(w, task) => WorkerAdds(s, s', w, task)
    case SMainPosts => MainPosts(s, s')
    case SWorkerPosts(w) => WorkerPosts(s, s', w)
    case SWakes(w) => Wakes(s, s', w)
    case STakes(w) => Takes(s, s', w)
    case SIdles(w) => Idles(s, s', w)
    case SStartsWaiting => StartsWaiting(s, s')
    case SWaits => Waits(s, s')
    case SCompletes => Completes(s, s')
  }

  predicate Initial(s: State, threads: nat) {
    && threads > 0 && s.size > 0 && s.queue == [] && s.sem == 0 && s.active == 0 && s.main == Working(false)
    && s.workers == seq(threads, i => Starting)
    && s.added == [] && s.taken == [] && s.done == multiset{} && s.tally == Tally(0, 0, 0, 0, 0, 0)
  }

  // ---------- The invariant ----------

  /** The tasks being run. */
  function InHand(workers: seq<Worker>): multiset<Task> {
    if workers == [] then multiset{}
    else InHand(workers[..|workers| - 1]) + Hand(workers[|workers| - 1])
  }

  function Hand(worker: Worker): multiset<Task> {
    if worker.Running? then multiset{worker.task} else multiset{}
  }

  lemma AddToBoth(x: multiset<Task>, h: multiset<Task>, y: multiset<Task>, k: multiset<Task>, z: multiset<Task>)
    requires x + h == y + k
    ensures x + z + h == y + z + k
  {
    assert x + z + h == (x + h) + z;
    assert y + z + k == (y + k) + z;
  }

  lemma TakeFromBoth(x: multiset<Task>, y: multiset<Task>, h: multiset<Task>)
    requires x + h == y + h
    ensures x == y
  {
    assert x == (x + h) - h && y == (y + h) - h;
  }

  lemma {:induction false} InHandUpdate(workers: seq<Worker>, w: nat, worker: Worker)
    requires w < |workers|
    ensures InHand(workers[w := worker]) + Hand(workers[w]) == InHand(workers) + Hand(worker)
  {
    hide Hand;
    var last := |workers| - 1;
    if w < last {
      InHandUpdate(workers[..last], w, worker);
      assert workers[w := worker][..last] == workers[..last][w := worker];
      AddToBoth(InHand(workers[w := worker][..last]), Hand(workers[w]), InHand(workers[..last]), Hand(worker), Hand(workers[last]));
    } else {
      assert workers[w := worker][..last] == workers[..last];
    }
  }

  /** Work that is queued is in somebody's care: a worker's, the semaphore's or that of one who owes it a post. */
  ghost predicate Cared(s: State) {
    |s.queue| > 0 ==>
      || s.sem > 0 || s.main == Working(true)
      || exists w :: 0 <= w < |s.workers| && (s.workers[w].Running? || s.workers[w] == Woken)
  }

  ghost predicate Inv(s: State) {
    && s.size > 0 && |s.workers| > 0 && |s.queue| <= s.size
    && s.added == s.taken + s.queue
    && multiset(s.taken) == InHand(s.workers) + s.done
    && s.active == |InHand(s.workers)|
    && Cared(s)
    && (s.main == Waiting ==> s.active > 0 || |s.queue| > 0)
  }

  lemma {:induction false} NothingInHand(workers: seq<Worker>)
    ensures (forall w :: 0 <= w < |workers| ==> !workers[w].Running?) <==> InHand(workers) == multiset{}
  {
    if workers != [] {
      var last := |workers| - 1;
      NothingInHand(workers[..last]);
      assert workers == workers[..last] + [workers[last]];
      assert forall w :: 0 <= w < last ==> workers[..last][w] == workers[w];
      if workers[last].Running? {
        assert workers[last].task in InHand(workers);
      }
    }
  }

  lemma InitialInv(s: State, threads: nat)
    requires Initial(s, threads)
    ensures Inv(s)
  {
    NothingInHand(s.workers);
  }

  lemma AddsKeeps(s: State, s': State, step: Step)
    requires Inv(s) && IsStep(s, s', step) && (step.SMainAdds? || step.SWorkerAdds?)
    ensures Inv(s')
  {
    hide InHand;
    assert s'.added == s'.taken + s'.queue;
    if step.SWorkerAdds? {
      InHandUpdate(s.workers, step.w, s'.workers[step.w]);
      TakeFromBoth(InHand(s'.workers), InHand(s.workers), Hand(s.workers[step.w]));
      assert s'.workers[step.w].Running?;
    } else if !s'.main.owing {
      Manned(s);
    }
  }

  /** With more queued than there are workers, the queue was not empty before. */
  lemma Manned(s: State)
    requires Inv(s) && s.main == Working(false) && |s.queue| + 1 > |s.workers|
    ensures |s.queue| > 0
  {
  }

  lemma PostsKeeps(s: State, s': State, step: Step)
    requires Inv(s) && IsStep(s, s', step) && (step.SMainPosts? || step.SWorkerPosts? || step.SWakes?)
    ensures Inv(s')
  {
    hide InHand, Cared;
    assert Cared(s') by { PostsCared(s, s', step); }
    if step.SWorkerPosts? || step.SWakes? {
      InHandUpdate(s.workers, step.w, s'.workers[step.w]);
      TakeFromBoth(InHand(s'.workers), InHand(s.workers), Hand(s.workers[step.w]));
    }
  }

  lemma PostsCared(s: State, s': State, step: Step)
    requires Inv(s) && IsStep(s, s', step) && (step.SMainPosts? || step.SWorkerPosts? || step.SWakes?)
    ensures Cared(s')
  {
    hide InHand;
    if !step.SMainPosts? {
      assert s'.workers[step.w].Running? || s'.workers[step.w] == Woken;
    }
  }

  lemma TakesKeeps(s: State, s': State, w: nat)
    requires Inv(s) && Takes(s, s', w)
    ensures Inv(s')
  {
    hide InHand, Cared;
    var first := s.queue[0];
    InHandUpdate(s.workers, w, s'.workers[w]);
    assert s.queue == [first] + s.queue[1..];
    assert s'.added == s'.taken + s'.queue;
    assert InHand(s'.workers) + Hand(s.workers[w]) == InHand(s.workers) + multiset{first};
    assert s'.done == s.done + Hand(s.workers[w]);
    TakenCounts(multiset(s.taken), first, InHand(s.workers), s.done, InHand(s'.workers), Hand(s.workers[w]));
    assert |Hand(s.workers[w])| == if s.workers[w].Running? then 1 else 0;
    assert first in InHand(s'.workers) by { HandIn(s'.workers, w); assert first in Hand(s'.workers[w]); }
    assert multiset(s'.taken) == multiset(s.taken) + multiset{first};
    CaredByRunner(s', w);
  }

  lemma CaredByRunner(s: State, w: nat)
    requires w < |s.workers| && s.workers[w].Running?
    ensures Cared(s)
  {
  }

  lemma TakenCounts(taken: multiset<Task>, first: Task, hand: multiset<Task>, done: multiset<Task>, hand': multiset<Task>, old_: multiset<Task>)
    requires taken == hand + done && hand' + old_ == hand + multiset{first}
    ensures taken + multiset{first} == hand' + (done + old_)
    ensures |hand'| + |old_| == |hand| + 1
  {
    assert taken + multiset{first} == (hand + multiset{first}) + done;
    assert hand' + (done + old_) == (hand' + old_) + done;
    assert |hand' + old_| == |hand + multiset{first}|;
  }

  lemma {:induction false} HandIn(workers: seq<Worker>, w: nat)
    requires w < |workers|
    ensures Hand(workers[w]) <= InHand(workers)
  {
    var last := |workers| - 1;
    if w < last {
      HandIn(workers[..last], w);
    }
  }

  lemma IdlesKeeps(s: State, s': State, w: nat)
    requires Inv(s) && Idles(s, s', w)
    ensures Inv(s')
  {
    hide InHand;
    InHandUpdate(s.workers, w, Blocked);
    HandIn(s.workers, w);
    assert InHand(s'.workers) + Hand(s.workers[w]) == InHand(s.workers);
  }

  /** Every step keeps the invariant. */
  lemma StepKeeps(s: State, s': State, step: Step)
    requires Inv(s) && IsStep(s, s', step)
    ensures Inv(s')
  {
    match step
    case SMainAdds(task) => AddsKeeps(s, s', step);
    case SWorkerAdds(w, task) => AddsKeeps(s, s', step);
    case STakes(w) => TakesKeeps(s, s', w);
    case SIdles(w) => IdlesKeeps(s, s', w);
    case SMainPosts => PostsKeeps(s, s', step);
    case SWorkerPosts(w) => PostsKeeps(s, s', step);
    case SWakes(w) => PostsKeeps(s, s', step);
    case _ =>
  }

  predicate IsRun(run: seq<State>, steps: seq<Step>) {
    |run| == |steps| + 1 && forall i :: 0 <= i < |steps| ==> IsStep(run[i], run[i + 1], steps[i])
  }

  lemma {:induction false} RunKeeps(run: seq<State>, steps: seq<Step>, threads: nat)
    requires IsRun(run, steps) && Initial(run[0], threads)
    ensures Inv(run[|steps|])
    decreases |steps|
  {
    hide Inv, IsStep, Initial;
    if |steps| == 0 {
      InitialInv(run[0], threads);
    } else {
      var last := |steps| - 1;
      RunKeeps(run[..|steps|], steps[..last], threads);
      StepKeeps(run[last], run[|steps|], steps[last]);
    }
  }

  // ---------- What holds in every run ----------

  /** Tasks leave the queue in the order they entered it, once each, and each is then being run or done. */
  lemma TasksConserved(run: seq<State>, steps: seq<Step>, threads: nat)
    requires IsRun(run, steps) && Initial(run[0], threads)
    ensures var s := run[|steps|];
      && s.taken <= s.added
      && multiset(s.added) == multiset(s.queue) + InHand(s.workers) + s.done
      && |s.added| == |s.queue| + s.active + |s.done|
  {
    RunKeeps(run, steps, threads);
    var s := run[|steps|];
    assert |multiset(s.taken)| == |s.taken|;
  }

  /** The wait for completion only ends when everything added has been done. */
  lemma CompletionMeansDone(run: seq<State>, steps: seq<Step>, threads: nat)
    requires IsRun(run, steps) && Initial(run[0], threads) && |steps| > 0 && steps[|steps| - 1] == SCompletes
    ensures multiset(run[|steps|].added) == run[|steps|].done
    ensures forall w :: 0 <= w < |run[|steps|].workers| ==> !run[|steps|].workers[w].Running?
  {
    RunKeeps(run, steps, threads);
    var s := run[|steps|];
    assert IsStep(run[|steps| - 1], s, SCompletes);
    assert InHand(s.workers) == multiset{};
    NothingInHand(s.workers);
  }

  /** Queued work is never forgotten: some worker is active or awake, the semaphore is up, or a post is owed. */
  lemma QueueIsCaredFor(run: seq<State>, steps: seq<Step>, threads: nat)
    requires IsRun(run, steps) && Initial(run[0], threads) && |run[|steps|].queue| > 0
    ensures Cared(run[|steps|])
  {
    RunKeeps(run, steps, threads);
  }

  // ---------- The semaphore ----------

  /** What is counted of the workers: who owes a post, who has been woken, who is not waiting, how much is left to do. */
  datatype Kind = Owing | Awake | Up | ToDo

  function Weight(worker: Worker, kind: Kind): nat {
    match kind
    case Owing => if worker.Running? && worker.owing then 1 else 0
    case Awake => if worker == Woken then 1 else 0
    case Up => if worker == Blocked then 0 else 1
    case ToDo => if worker == Blocked then 0 else if worker.Running? && worker.owing then 4 else 1
  }

  function Total(workers: seq<Worker>, kind: Kind): nat {
    if workers == [] then 0 else Total(workers[..|workers| - 1], kind) + Weight(workers[|workers| - 1], kind)
  }

  lemma {:induction false} TotalUpdate(workers: seq<Worker>, w: nat, worker: Worker, kind: Kind)
    requires w < |workers|
    ensures Total(workers[w := worker], kind) + Weight(workers[w], kind) == Total(workers, kind) + Weight(worker, kind)
  {
    hide Weight;
    var last := |workers| - 1;
    if w < last {
      TotalUpdate(workers[..last], w, worker, kind);
      assert workers[w := worker][..last] == workers[..last][w := worker];
    } else {
      assert workers[w := worker][..last] == workers[..last];
    }
  }

  lemma {:induction false} NoneStarted(workers: seq<Worker>, kind: Kind)
    requires forall w :: 0 <= w < |workers| ==> workers[w] == Starting
    ensures kind.Owing? || kind.Awake? ==> Total(workers, kind) == 0
  {
    if workers != [] { NoneStarted(workers[..|workers| - 1], kind); }
  }

  /** Posts still to be made. */
  function Owed(s: State): nat {
    (if s.main == Working(true) then 1 else 0) + Total(s.workers, Owing)
  }

  /** The semaphore's count; each task added has a post unless none is wanted; each wake is for a task, in vain or still to come to something. */
  predicate Tallied(s: State) {
    && s.sem == s.tally.posts - s.tally.wakes - s.tally.refused
    && |s.added| == s.tally.posts + Owed(s) + s.tally.unsignalled
    && s.tally.wakes + s.tally.unwoken == |s.taken| + s.tally.vain + Total(s.workers, Awake)
    && (s.bounded ==> s.sem <= |s.workers|) && (!s.bounded ==> s.tally.refused == 0)
  }

  lemma InitialTallies(s: State, threads: nat)
    requires Initial(s, threads)
    ensures Tallied(s)
  {
    hide Total;
    NoneStarted(s.workers, Owing);
    NoneStarted(s.workers, Awake);
  }

  lemma StepTallies(s: State, s': State, step: Step)
    requires Tallied(s) && IsStep(s, s', step)
    ensures Tallied(s')
  {
    hide Total;
    if step.SWorkerAdds? || step.SWorkerPosts? || step.SWakes? || step.STakes? || step.SIdles? {
      hide Tallied, Weight;
      WorkerTallies(s, s', step);
    }
  }

  lemma WorkerTallies(s: State, s': State, step: Step)
    requires Tallied(s) && IsStep(s, s', step)
    requires step.SWorkerAdds? || step.SWorkerPosts? || step.SWakes? || step.STakes? || step.SIdles?
    ensures Tallied(s')
  {
    hide Total;
    TotalUpdate(s.workers, step.w, s'.workers[step.w], Owing);
    TotalUpdate(s.workers, step.w, s'.workers[step.w], Awake);
  }

  lemma {:induction false} RunTallies(run: seq<State>, steps: seq<Step>, threads: nat)
    requires IsRun(run, steps) && Initial(run[0], threads)
    ensures Tallied(run[|steps|])
    decreases |steps|
  {
    hide Tallied, IsStep;
    if |steps| == 0 {
      InitialTallies(run[0], threads);
    } else {
      var last := |steps| - 1;
      RunTallies(run[..|steps|], steps[..last], threads);
      StepTallies(run[last], run[|steps|], steps[last]);
    }
  }

  /**
   What the count of the semaphore is at any time. It is one for each task queued and for each that a worker took
   without having been woken for it, less one for each added without a signal, refused, or woken for in vain, for
   each post still owed and for each worker woken that has yet to look.
   */
  lemma SemaphoreCount(run: seq<State>, steps: seq<Step>, threads: nat)
    requires IsRun(run, steps) && Initial(run[0], threads)
    ensures var s := run[|steps|]; var y := s.tally;
      s.sem == |s.queue| + y.unwoken - y.unsignalled - y.refused - y.vain - Owed(s) - Total(s.workers, Awake)
    ensures run[|steps|].bounded ==> run[|steps|].sem <= |run[|steps|].workers|
  {
    RunTallies(run, steps, threads);
    RunKeeps(run, steps, threads);
    hide InHand, Cared, Total;
  }

  /**
   With no work queued the semaphore is zero exactly when the tasks taken by workers not woken for them are as
   many as those added without a signal, the posts refused, owed or used in vain, and the workers yet to look.
   */
  lemma ZeroWithoutWork(run: seq<State>, steps: seq<Step>, threads: nat)
    requires IsRun(run, steps) && Initial(run[0], threads) && run[|steps|].queue == []
    ensures var s := run[|steps|]; var y := s.tally;
      s.sem == 0 <==> y.unwoken == y.unsignalled + y.refused + y.vain + Owed(s) + Total(s.workers, Awake)
  {
    SemaphoreCount(run, steps, threads);
    hide Total, IsStep, Initial;
  }

  /** The state in which one worker has taken n tasks, without ever waiting. */
  function Busy(n: nat): State
    requires n > 0
  {
    State([], 1, false, n, 1, [Running(7, false)], Working(false), seq(n, i => 7), seq(n, i => 7),
          multiset(seq(n - 1, i => 7)), Tally(n, 0, 0, 0, n, 0))
  }

  /**
   Unless the semaphore has a largest value its count has no bound in terms of the threads: for every n there is a run
   of one thread after which it is n, with no work queued. The worker takes each task before it can be woken.
   */
  lemma {:induction false} SemaphoreUnbounded(n: nat) returns (run: seq<State>, steps: seq<Step>)
    requires n > 0
    ensures IsRun(run, steps) && Initial(run[0], 1) && run[|steps|] == Busy(n)
    ensures run[|steps|].queue == [] && run[|steps|].sem == n
  {
    hide IsStep;
    var s0 := State([], 1, false, 0, 0, [Starting], Working(false), [], [], multiset{}, Tally(0, 0, 0, 0, 0, 0));
    if n == 1 {
      assert s0.workers == seq(1, i => Starting);
      run, steps := [s0], [];
      assert multiset(seq(0, i => 7)) == s0.done;
    } else {
      run, steps := SemaphoreUnbounded(n - 1);
    }
    var s := run[|steps|];
    var s1, s2 := TaskPosted(s);
    TakenNext(s, s1, s2, n);
    run := run + [s1, s2, Busy(n)];
    steps := steps + [SMainAdds(7), SMainPosts, STakes(0)];
  }

  lemma TaskPosted(s: State) returns (s1: State, s2: State)
    requires s.queue == [] && s.size == 1 && !s.bounded && s.main == Working(false) && |s.workers| == 1
    ensures IsStep(s, s1, SMainAdds(7)) && IsStep(s1, s2, SMainPosts)
    ensures s2 == s.(queue := [7], sem := s.sem + 1, added := s.added + [7], tally := s.tally.(posts := s.tally.posts + 1))
  {
    s1 := s.(queue := [7], added := s.added + [7], main := Working(true));
    s2 := Posted(s1).(main := Working(false));
  }

  lemma TakenNext(s: State, s1: State, s2: State, n: nat)
    requires n > 0 && (if n == 1 then s == State([], 1, false, 0, 0, [Starting], Working(false), [], [], multiset{}, Tally(0, 0, 0, 0, 0, 0))
                       else s == Busy(n - 1))
    requires s2 == s.(queue := [7], sem := s.sem + 1, added := s.added + [7], tally := s.tally.(posts := s.tally.posts + 1))
    ensures IsStep(s2, Busy(n), STakes(0))
  {
    assert s2.workers[0 := Running(7, false)] == [Running(7, false)] && s2.queue[1..] == [];
    assert s.taken + [7] == seq(n, i => 7);
    if n > 1 { assert seq(n - 2, i => 7) + [7] == seq(n - 1, i => 7); }
    assert DoneWith(s2, 0) == multiset(seq(n - 1, i => 7));
  }

  // ---------- Enough workers ----------

  function Min(a: nat, b: nat): nat {
    if a < b then a else b
  }

  /** For each task queued, as far as there are workers, one is up or a post for it has been or will be made. */
  predicate Attended(s: State) {
    s.sem + Owed(s) + Total(s.workers, Up) >= Min(|s.queue|, |s.workers|)
  }

  lemma StepAttends(s: State, s': State, step: Step)
    requires Attended(s) && IsStep(s, s', step)
    ensures Attended(s')
  {
    hide Total;
    if step.SWorkerAdds? || step.SWorkerPosts? || step.SWakes? || step.STakes? || step.SIdles? {
      hide Attended, Weight;
      WorkerAttends(s, s', step);
    }
  }

  lemma WorkerAttends(s: State, s': State, step: Step)
    requires Attended(s) && IsStep(s, s', step)
    requires step.SWorkerAdds? || step.SWorkerPosts? || step.SWakes? || step.STakes? || step.SIdles?
    ensures Attended(s')
  {
    hide Total;
    TotalUpdate(s.workers, step.w, s'.workers[step.w], Owing);
    TotalUpdate(s.workers, step.w, s'.workers[step.w], Up);
  }

  /** In every run as many workers are up, or will be woken, as there is queued work for. */
  lemma {:induction false} RunAttends(run: seq<State>, steps: seq<Step>, threads: nat)
    requires IsRun(run, steps) && Initial(run[0], threads)
    ensures var s := run[|steps|];
      s.sem + Owed(s) + Total(s.workers, Up) >= if |s.queue| < |s.workers| then |s.queue| else |s.workers|
    decreases |steps|
  {
    hide IsStep, Owed, Total;
    if |steps| > 0 {
      var last := |steps| - 1;
      RunAttends(run[..|steps|], steps[..last], threads);
      StepAttends(run[last], run[|steps|], steps[last]);
    }
  }

  // ---------- The queue and the protocol ----------

  /** What adding to the ring buffer does, and the signal it asks for, is a step of the main thread; a full queue refuses it. */
  method MainAddsWork(q: WorkQueue, task: Task, threadCount: nat, ghost s: State) returns (ok: bool, wantSignal: bool, ghost s': State)
    requires q.Valid() && q.Contents() == s.queue && q.queueSize == s.size && threadCount == |s.workers| && s.main == Working(false)
    modifies q, q.workQueue
    ensures q.Valid() && q.Contents() == s'.queue && ok == (|s.queue| < s.size)
    ensures if ok then IsStep(s, s', SMainAdds(task)) && s'.main == Working(wantSignal) else s' == s
  {
    ok, wantSignal := q.AddWork(task, threadCount);
    s' := s;
    if ok {
      s' := s.(queue := q.Contents(), added := s.added + [task], main := Working(wantSignal),
               tally := if wantSignal then s.tally else s.tally.(unsignalled := s.tally.unsignalled + 1));
    }
  }

  /** So it is for a worker that is running a task. */
  method WorkerAddsWork(q: WorkQueue, w: nat, task: Task, threadCount: nat, ghost s: State)
    returns (ok: bool, wantSignal: bool, ghost s': State)
    requires q.Valid() && q.Contents() == s.queue && q.queueSize == s.size && threadCount == |s.workers|
    requires w < |s.workers| && s.workers[w].Running? && !s.workers[w].owing
    modifies q, q.workQueue
    ensures q.Valid() && q.Contents() == s'.queue && ok == (|s.queue| < s.size)
    ensures if ok then IsStep(s, s', SWorkerAdds(w, task)) && s'.workers[w] == Running(s.workers[w].task, wantSignal) else s' == s
  {
    ok, wantSignal := q.AddWork(task, threadCount);
    s' := s;
    if ok {
      s' := s.(queue := q.Contents(), added := s.added + [task], workers := s.workers[w := Running(s.workers[w].task, wantSignal)],
               tally := if wantSignal then s.tally else s.tally.(unsignalled := s.tally.unsignalled + 1));
    }
  }

  /** What is taken from the ring buffer is what a worker runs next. */
  method WorkerTakesWork(q: WorkQueue, w: nat, ghost s: State) returns (task: Task, ghost s': State)
    requires q.Valid() && q.Contents() == s.queue && s.queue != [] && w < |s.workers| && CanLook(s.workers[w])
    modifies q, q.workQueue
    ensures q.Valid() && q.Contents() == s'.queue && IsStep(s, s', STakes(w)) && s'.workers[w] == Running(task, false)
  {
    task := q.TakeWork();
    assert s.queue == [task] + q.Contents();
    s' := s.(queue := s.queue[1..], active := Counted(s, w), taken := s.taken + [s.queue[0]], done := DoneWith(s, w),
             workers := s.workers[w := Running(s.queue[0], false)],
             tally := if s.workers[w] == Woken then s.tally else s.tally.(unwoken := s.tally.unwoken + 1));
  }

  // ---------- The wait ----------

  /** While the main thread waits there is always a step some worker can take: completion is never lost. */
  lemma WaitingIsNotForever(run: seq<State>, steps: seq<Step>, threads: nat) returns (s': State, step: Step)
    requires IsRun(run, steps) && Initial(run[0], threads) && run[|steps|].main == Waiting
    ensures IsStep(run[|steps|], s', step)
    ensures step.SWorkerPosts? || step.SWakes? || step.STakes? || step.SIdles?
  {
    RunKeeps(run, steps, threads);
    var s := run[|steps|];
    NothingInHand(s.workers);
    if w :| 0 <= w < |s.workers| && s.workers[w] != Blocked {
      s', step := WorkerStep(s, w);
    } else {
      assert forall w :: 0 <= w < |s.workers| ==> s.workers[w] == Blocked;
      s', step := WorkerStep(s, 0);
    }
  }

  /** When the main thread checks, it always goes on: it ends its wait if nothing is queued or being run, and waits otherwise. */
  lemma CheckSettles(run: seq<State>, steps: seq<Step>, threads: nat) returns (s': State, step: Step)
    requires IsRun(run, steps) && Initial(run[0], threads) && run[|steps|].main == Checking
    ensures IsStep(run[|steps|], s', step)
    ensures var s := run[|steps|];
      if s.queue == [] && forall w :: 0 <= w < |s.workers| ==> !s.workers[w].Running?
      then step == SCompletes && s'.main == Working(false)
      else step == SWaits && s'.main == Waiting
  {
    RunKeeps(run, steps, threads);
    var s := run[|steps|];
    NothingInHand(s.workers);
    s', step := MainStep(s);
  }

  /** The main thread can go on unless it is waiting. */
  lemma MainStep(s: State) returns (s': State, step: Step)
    requires s.main != Waiting
    ensures IsStep(s, s', step) && (step.SMainPosts? || step.SStartsWaiting? || step.SWaits? || step.SCompletes?)
  {
    match s.main
    case Working(owing) =>
      if owing {
        s', step := Posted(s).(main := Working(false)), SMainPosts;
      } else {
        s', step := s.(main := Checking), SStartsWaiting;
      }
    case Checking =>
      if s.active > 0 || |s.queue| > 0 {
        s', step := s.(main := Waiting), SWaits;
      } else {
        s', step := s.(main := Working(false)), SCompletes;
      }
  }

  /** A worker can go on as long as it is not blocked, or the semaphore is up. */
  lemma WorkerStep(s: State, w: nat) returns (s': State, step: Step)
    requires w < |s.workers| && (s.workers[w] == Blocked ==> s.sem > 0)
    ensures IsStep(s, s', step) && (step.SWorkerPosts? || step.SWakes? || step.STakes? || step.SIdles?) && step.w == w
  {
    if s.workers[w] == Blocked {
      step := SWakes(w);
      s' := s.(sem := s.sem - 1, workers := s.workers[w := Woken], tally := s.tally.(wakes := s.tally.wakes + 1));
    } else if s.workers[w].Running? && s.workers[w].owing {
      step := SWorkerPosts(w);
      s' := Posted(s).(workers := s.workers[w := Running(s.workers[w].task, false)]);
    } else if |s.queue| > 0 {
      step := STakes(w);
      s' := s.(queue := s.queue[1..], active := Counted(s, w), taken := s.taken + [s.queue[0]], done := DoneWith(s, w),
               workers := s.workers[w := Running(s.queue[0], false)],
               tally := if s.workers[w] == Woken then s.tally else s.tally.(unwoken := s.tally.unwoken + 1));
    } else {
      step := SIdles(w);
      s' := s.(active := Counted(s, w) - 1, done := DoneWith(s, w), workers := s.workers[w := Blocked],
               main := if Counted(s, w) - 1 == 0 && s.main == Waiting then Checking else s.main,
               tally := if s.workers[w] == Woken then s.tally.(vain := s.tally.vain + 1) else s.tally);
    }
  }

  /** A bound on the steps left while nothing is added. */
  function Pending(s: State): nat {
    |s.queue| + 2 * s.sem + Total(s.workers, ToDo)
  }

  function Additions(steps: seq<Step>): nat {
    if steps == [] then 0 else Additions(steps[..|steps| - 1]) + if steps[|steps| - 1].SWorkerAdds? then 1 else 0
  }

  /** While the main thread waits every step but an addition leaves less to do. */
  lemma StepApproaches(s: State, s': State, step: Step)
    requires IsStep(s, s', step) && s.main == Waiting
    ensures Pending(s') < Pending(s) + if step.SWorkerAdds? then 5 else 0
  {
    hide Total;
    TotalUpdate(s.workers, step.w, s'.workers[step.w], ToDo);
  }

  /** So the wait ends unless tasks go on adding work: with k additions it has at most so many steps. */
  lemma {:induction false} WaitIsBounded(run: seq<State>, steps: seq<Step>)
    requires IsRun(run, steps) && forall i :: 0 <= i < |steps| ==> run[i].main == Waiting
    ensures |steps| + Pending(run[|steps|]) <= Pending(run[0]) + 5 * Additions(steps)
    decreases |steps|
  {
    hide IsStep, Pending;
    if |steps| > 0 {
      var last := |steps| - 1;
      WaitIsBounded(run[..|steps|], steps[..last]);
      StepApproaches(run[last], run[|steps|], steps[last]);
    }
  }
}
