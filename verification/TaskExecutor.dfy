/**
 The fixed-size thread pool with nested `parallel_for`, as a state machine over the
 atomic steps of its threads.

 A step is one critical section or one atomic access. Evaluating a wait predicate and
 going to sleep are separate steps during which the thread holds the mutex, because the
 decrement of `remaining` is not protected by the queue mutex.
 */
module TaskExecutor {
  import opened Wrappers

  datatype Job = Job(group: nat, index: nat)

  /** `remaining` is the atomic counter; `error` the first recorded exception, named by the job that threw it. */
  datatype Group = Group(size: nat, remaining: int, error: Option<Job>)

  /** `worker_loop` with `execute_one(true)` inlined. */
  datatype LoopPc = LCheck | LCommit | LAsleep | LExited

  /** The closure around one task: running user code, about to decrement, about to notify. */
  datatype TaskPc = Running | Finishing(threw: bool) | TellComplete | TellReady

  /** `run`: R-points are the nested wait on `ready`, X-points the wait on `complete` by a thread outside the pool. */
  datatype RunPc = Publish | Head | Try | RCheck | RCommit | RAsleep | XCheck | XCommit | XAsleep | Collect

  datatype DestroyPc = Announce | Join

  datatype Frame =
    | Loop(lpc: LoopPc)
    | Task(job: Job, tpc: TaskPc)
    | Run(group: nat, rpc: RunPc)
    | Destroy(dpc: DestroyPc)
    | Outside

  /**
   Threads below `workers` are pool workers; the others are callers. A stack lists the
   active frames from the bottom up. Group numbers are creation order. The last four
   fields are history: jobs taken from the queue, jobs that decremented their counter,
   jobs whose body threw, and what each returned `run` rethrew.
   */
  datatype State = State(
    workers: nat,
    threads: seq<seq<Frame>>,
    queue: seq<Job>,
    groups: seq<Group>,
    stopping: bool,
    started: multiset<Job>,
    done: set<Job>,
    failed: set<Job>,
    returned: map<nat, Option<Job>>)

  datatype Step =
    | Call(thread: nat, count: nat)
    | BodyEnds(thread: nat, throws: bool)
    | Proceed(thread: nat)
    | SpuriousWake(thread: nat)
    | Shutdown(thread: nat)

  // ---------------------------------------------------------------- transitions

  function Top(st: seq<Frame>): Frame {
    if st == [] then Outside else st[|st| - 1]
  }

  function Put(st: seq<Frame>, f: Frame): seq<Frame>
    requires st != []
  {
    st[|st| - 1 := f]
  }

  function Pop(st: seq<Frame>): seq<Frame>
    requires st != []
  {
    st[..|st| - 1]
  }

  predicate HoldsQueue(f: Frame) {
    f == Loop(LCommit) || (f.Run? && f.rpc == RCommit)
  }

  predicate QueueFree(s: State) {
    forall t | 0 <= t < |s.threads| :: !HoldsQueue(Top(s.threads[t]))
  }

  predicate GroupFree(s: State, g: nat) {
    forall t | 0 <= t < |s.threads| :: Top(s.threads[t]) != Run(g, XCommit)
  }

  predicate Asleep(f: Frame) {
    f == Loop(LAsleep) || (f.Run? && f.rpc in {RAsleep, XAsleep})
  }

  /** What a notification of `ready` does to one frame. */
  function WokenReady(f: Frame): Frame {
    match f
    case Loop(LAsleep) => Loop(LCheck)
    case Run(g, RAsleep) => Run(g, RCheck)
    case _ => f
  }

  /** What a notification of group g's `complete` does to one frame. */
  function WokenComplete(f: Frame, g: nat): Frame {
    if f == Run(g, XAsleep) then Run(g, XCheck) else f
  }

  function WakeReady(threads: seq<seq<Frame>>): (r: seq<seq<Frame>>) {
    seq(|threads|, t requires 0 <= t < |threads| =>
      if threads[t] == [] then [] else Put(threads[t], WokenReady(Top(threads[t]))))
  }

  function WakeComplete(threads: seq<seq<Frame>>, g: nat): (r: seq<seq<Frame>>) {
    seq(|threads|, t requires 0 <= t < |threads| =>
      if threads[t] == [] then [] else Put(threads[t], WokenComplete(Top(threads[t]), g)))
  }

  /** The position `execute_one` takes: the first job of the preferred group, else the front. */
  function Preferred(queue: seq<Job>, g: nat): (k: nat)
    requires queue != []
    ensures k < |queue|
    ensures queue[k].group == g || (k == 0 && forall i | 0 <= i < |queue| :: queue[i].group != g)
    ensures forall i | 0 <= i < k :: queue[i].group != g
  {
    var k := FirstOf(queue, g);
    if k < |queue| then k else 0
  }

  function FirstOf(queue: seq<Job>, g: nat): (k: nat)
    ensures k <= |queue|
    ensures k < |queue| ==> queue[k].group == g
    ensures forall i | 0 <= i < k :: queue[i].group != g
  {
    if queue == [] || queue[0].group == g then 0 else 1 + FirstOf(queue[1..], g)
  }

  function JobsOf(g: nat, count: nat): seq<Job> {
    seq(count, i requires 0 <= i < count => Job(g, i))
  }

  function SetTop(s: State, t: nat, f: Frame): State
    requires t < |s.threads| && s.threads[t] != []
  {
    s.(threads := s.threads[t := Put(s.threads[t], f)])
  }

  /** True when thread t can execute its next instruction. */
  predicate CanProceed(s: State, t: nat) {
    t < |s.threads| &&
    match Top(s.threads[t])
    case Loop(LCheck) => QueueFree(s)
    case Loop(LCommit) => true
    case Loop(_) => false
    case Task(j, Running) => false
    case Task(j, Finishing(_)) => j.group < |s.groups| && GroupFree(s, j.group)
    case Task(j, TellComplete) => true
    case Task(j, TellReady) => QueueFree(s)
    case Run(g, Publish) => true
    case Run(g, Head) => g < |s.groups|
    case Run(g, Try) => QueueFree(s)
    case Run(g, RCheck) => g < |s.groups| && QueueFree(s)
    case Run(g, RCommit) => true
    case Run(g, RAsleep) => false
    case Run(g, XCheck) => g < |s.groups| && GroupFree(s, g)
    case Run(g, XCommit) => true
    case Run(g, XAsleep) => false
    case Run(g, Collect) => g < |s.groups| && GroupFree(s, g)
    case Destroy(Announce) => true
    case Destroy(Join) => forall w | 0 <= w < s.workers && w < |s.threads| :: Top(s.threads[w]) == Loop(LExited)
    case Outside => false
  }

  /** Control flow: the stack of thread t after its next instruction. */
  function Resumed(s: State, t: nat): seq<Frame>
    requires CanProceed(s, t)
  {
    var st := s.threads[t];
    match Top(st)
    case Loop(LCheck) =>
      if s.queue != [] then Put(st, Loop(LCheck)) + [Task(s.queue[0], Running)]
      else Put(st, Loop(if s.stopping then LExited else LCommit))
    case Loop(LCommit) => Put(st, Loop(LAsleep))
    case Task(j, Finishing(_)) =>
      if s.groups[j.group].remaining == 1 then Put(st, Task(j, TellComplete)) else Pop(st)
    case Task(j, TellComplete) => Put(st, Task(j, TellReady))
    case Task(j, TellReady) => Pop(st)
    case Run(g, Publish) => Put(st, Run(g, if t < s.workers then Head else XCheck))
    case Run(g, Head) => Put(st, Run(g, if s.groups[g].remaining == 0 then Collect else Try))
    case Run(g, Try) =>
      if s.queue != [] then Put(st, Run(g, Head)) + [Task(s.queue[Preferred(s.queue, g)], Running)]
      else Put(st, Run(g, RCheck))
    case Run(g, RCheck) =>
      Put(st, Run(g, if s.stopping || s.queue != [] || s.groups[g].remaining == 0 then Head else RCommit))
    case Run(g, RCommit) => Put(st, Run(g, RAsleep))
    case Run(g, XCheck) => Put(st, Run(g, if s.groups[g].remaining == 0 then Collect else XCommit))
    case Run(g, XCommit) => Put(st, Run(g, XAsleep))
    case Destroy(Announce) => Put(st, Destroy(Join))
    case _ => Pop(st)
  }

  /** The other stacks after the notification, if any, that thread t's next instruction performs. */
  function Notified(s: State, t: nat): (r: seq<seq<Frame>>)
    requires t < |s.threads|
    ensures |r| == |s.threads|
  {
    match Top(s.threads[t])
    case Task(j, TellComplete) => WakeComplete(s.threads, j.group)
    case Task(_, TellReady) => WakeReady(s.threads)
    case Run(_, Publish) => WakeReady(s.threads)
    case Destroy(Announce) => WakeReady(s.threads)
    case _ => s.threads
  }

  /** Removes the job at position k from the queue, to be started. */
  function Dequeue(s: State, k: nat): State
    requires k < |s.queue|
  {
    s.(queue := s.queue[..k] + s.queue[k + 1..], started := s.started + multiset{s.queue[k]})
  }

  /** The decrement section: record the exception if it is the group's first, then count down. */
  function CountDown(s: State, j: Job, threw: bool): State
    requires j.group < |s.groups|
  {
    var g := s.groups[j.group];
    s.(groups := s.groups[j.group := Group(g.size, g.remaining - 1, if threw && g.error.None? then Some(j) else g.error)],
       done := s.done + {j},
       failed := if threw then s.failed + {j} else s.failed)
  }

  /** One instruction of thread t: its control flow, its notification, and its effect on the shared state. */
  function Advance(s: State, t: nat): State
    requires CanProceed(s, t)
  {
    var s' := s.(threads := Notified(s, t)[t := Resumed(s, t)]);
    match Top(s.threads[t])
    case Loop(LCheck) => if s.queue != [] then Dequeue(s', 0) else s'
    case Run(g, Try) => if s.queue != [] then Dequeue(s', Preferred(s.queue, g)) else s'
    case Task(j, Finishing(threw)) => CountDown(s', j, threw)
    case Run(g, Collect) => s'.(returned := s.returned[g := s.groups[g].error])
    case _ => s'
  }

  predicate CanCall(s: State, t: nat) {
    t < |s.threads| && (Top(s.threads[t]).Outside? || (Top(s.threads[t]).Task? && Top(s.threads[t]).tpc == Running))
  }

  predicate Enabled(s: State, step: Step) {
    match step
    case Call(t, count) => CanCall(s, t) && (count == 0 || QueueFree(s))
    case BodyEnds(t, _) => t < |s.threads| && Top(s.threads[t]).Task? && Top(s.threads[t]).tpc == Running
    case Proceed(t) => CanProceed(s, t)
    case SpuriousWake(t) =>
      t < |s.threads| && Asleep(Top(s.threads[t]))
    case Shutdown(t) => t < |s.threads| && Top(s.threads[t]).Outside? && QueueFree(s) && !s.stopping
  }

  function Next(s: State, step: Step): State
    requires Enabled(s, step)
  {
    match step
    case Call(t, count) =>
      // An empty loop returns at once; a stopping pool throws before queueing anything.
      if count == 0 || s.stopping then s
      else
        var g := |s.groups|;
        s.(threads := s.threads[t := s.threads[t] + [Run(g, Publish)]],
           queue := s.queue + JobsOf(g, count),
           groups := s.groups + [Group(count, count, None)])
    case BodyEnds(t, throws) => SetTop(s, t, Task(Top(s.threads[t]).job, Finishing(throws)))
    case Proceed(t) => Advance(s, t)
    case SpuriousWake(t) =>
      var f := Top(s.threads[t]);
      SetTop(s, t, if f.Run? && f.rpc == XAsleep then Run(f.group, XCheck) else WokenReady(f))
    case Shutdown(t) =>
      s.(stopping := true, threads := s.threads[t := s.threads[t] + [Destroy(Announce)]])
  }

  /** A new pool with its workers at the top of their loop and any number of outside threads. */
  function Initial(workers: nat, callers: nat): State
  {
    State(workers, seq(workers, _ => [Loop(LCheck)]) + seq(callers, _ => []),
          [], [], false, multiset{}, {}, {}, map[])
  }

  // ---------------------------------------------------------------- the invariant

  ghost predicate WorkerSlot(f: Frame, p: nat, top: bool) {
    if p == 0 then f.Loop? && (!top ==> f.lpc == LCheck)
    else if p % 2 == 1 then f.Task? && (!top ==> f.tpc == Running)
    else f.Run? && f.rpc !in {XCheck, XCommit, XAsleep} && (!top ==> f.rpc == Head)
  }

  ghost predicate CallerFrame(f: Frame) {
    f.Destroy? || (f.Run? && f.rpc in {Publish, XCheck, XCommit, XAsleep, Collect})
  }

  ghost predicate WorkerStack(st: seq<Frame>) {
    |st| >= 1 && forall p | 0 <= p < |st| :: WorkerSlot(st[p], p, p + 1 == |st|)
  }

  ghost predicate CallerStack(st: seq<Frame>) {
    |st| <= 1 && (|st| == 1 ==> CallerFrame(st[0]))
  }

  ghost predicate Shape(s: State) {
    1 <= s.workers <= |s.threads| &&
    forall t | 0 <= t < |s.threads| :: if t < s.workers then WorkerStack(s.threads[t]) else CallerStack(s.threads[t])
  }

  predicate Known(s: State, j: Job) {
    j.group < |s.groups| && j.index < s.groups[j.group].size
  }

  predicate Unfinished(f: Frame) {
    f.Task? && (f.tpc.Running? || f.tpc.Finishing?)
  }

  ghost predicate FramesKnown(s: State) {
    forall t, p | 0 <= t < |s.threads| && 0 <= p < |s.threads[t]| ::
      var f := s.threads[t][p];
      && (f.Task? ==> Known(s, f.job))
      && (f.Run? ==> f.group < |s.groups|)
  }

  function Serves(f: Frame): int {
    match f
    case Task(j, _) => j.group
    case Run(g, _) => g
    case _ => -1
  }

  /** Every `run` on a stack created its group after all groups named below it. */
  ghost predicate NewestAbove(st: seq<Frame>) {
    forall p, q | 0 <= p < q < |st| :: st[q].Run? ==> Serves(st[p]) < st[q].group
  }

  ghost predicate Ordered(s: State) {
    forall t | 0 <= t < |s.threads| :: NewestAbove(s.threads[t])
  }

  ghost predicate Holds(s: State, t: nat, p: nat, j: Job) {
    t < |s.threads| && p < |s.threads[t]| && Unfinished(s.threads[t][p]) && s.threads[t][p].job == j
  }

  ghost predicate IsRunning(s: State, j: Job) {
    exists t: nat, p: nat :: Holds(s, t, p, j)
  }

  /** Each known job is in exactly one place: queued, running in one frame, or done. */
  ghost predicate Placed(s: State) {
    && (forall i | 0 <= i < |s.queue| :: Known(s, s.queue[i]) && s.queue[i] !in s.done && !IsRunning(s, s.queue[i]))
    && (forall i, k | 0 <= i < k < |s.queue| :: s.queue[i] != s.queue[k])
    && (forall j | j in s.done :: Known(s, j) && !IsRunning(s, j))
    && (forall t: nat, p: nat, t': nat, p': nat, j | Holds(s, t, p, j) && Holds(s, t', p', j) :: t == t' && p == p')
    && (forall j | Known(s, j) :: j in s.queue || j in s.done || IsRunning(s, j))
  }

  function AllJobs(g: nat, size: nat): set<Job> {
    set i | 0 <= i < size :: Job(g, i)
  }

  ghost function Undone(s: State, g: nat): set<Job>
    requires g < |s.groups|
  {
    AllJobs(g, s.groups[g].size) - s.done
  }

  ghost predicate Counted(s: State) {
    && (forall g | 0 <= g < |s.groups| :: s.groups[g].remaining == |Undone(s, g)|)
    && (forall j :: s.started[j] == if Known(s, j) && j !in s.queue then 1 else 0)
  }

  ghost predicate ErrorsRecorded(s: State) {
    && s.failed <= s.done
    && (forall j | j in s.failed :: Known(s, j) && s.groups[j.group].error.Some?)
    && (forall g | 0 <= g < |s.groups| && s.groups[g].error.Some? ::
          s.groups[g].error.value in s.failed && s.groups[g].error.value.group == g)
  }

  /** A thread about to notify `ready`. */
  ghost predicate TellsReady(f: Frame) {
    (f.Run? && f.rpc == Publish) || TellsLast(f) || f == Destroy(Announce)
  }

  /** The thread that ran the last job of a group and has not yet notified `ready`. */
  ghost predicate TellsLast(f: Frame) {
    f.Task? && f.tpc in {TellComplete, TellReady}
  }

  ghost predicate ReadyPending(s: State) {
    exists t :: 0 <= t < |s.threads| && TellsReady(Top(s.threads[t]))
  }

  ghost predicate LastPending(s: State) {
    exists t :: 0 <= t < |s.threads| && TellsLast(Top(s.threads[t]))
  }

  ghost predicate CompletePending(s: State, g: nat) {
    exists t :: 0 <= t < |s.threads| && Top(s.threads[t]).Task? && Top(s.threads[t]).tpc == TellComplete
                && Top(s.threads[t]).job.group == g
  }

  ghost predicate Left(s: State, g: nat) {
    g < |s.groups| && s.groups[g].remaining > 0
  }

  ghost predicate NotLost(s: State, f: Frame) {
    match f
    case Loop(LCommit) => s.queue == [] && !s.stopping
    case Loop(LAsleep) => (s.queue == [] && !s.stopping) || ReadyPending(s)
    case Loop(LExited) => s.queue == [] && s.stopping
    case Run(g, RCommit) => s.queue == [] && !s.stopping && (Left(s, g) || LastPending(s))
    case Run(g, RAsleep) => (s.queue == [] && !s.stopping && Left(s, g)) || ReadyPending(s)
    case Run(g, XCommit) => Left(s, g)
    case Run(g, XAsleep) => Left(s, g) || CompletePending(s, g)
    case Run(g, Collect) => g < |s.groups| && s.groups[g].remaining == 0
    case Destroy(_) => s.stopping
    case _ => true
  }

  /** No wakeup is lost: a sleeping or about-to-sleep thread's predicate is false, or a notification is still due. */
  ghost predicate NoLostWakeup(s: State) {
    forall t | 0 <= t < |s.threads| :: NotLost(s, Top(s.threads[t]))
  }

  ghost predicate Inv(s: State) {
    Shape(s) && FramesKnown(s) && Ordered(s) && Placed(s) && Counted(s) && ErrorsRecorded(s) && NoLostWakeup(s)
  }

  // ---------------------------------------------------------------- every step keeps the invariant

  function Awake(f: Frame): Frame {
    match f
    case Run(g, XAsleep) => Run(g, XCheck)
    case _ => WokenReady(f)
  }

  /** The stacks differ at most in that a sleeping top frame woke up. */
  ghost predicate Similar(a: seq<Frame>, b: seq<Frame>) {
    |a| == |b| && forall p | 0 <= p < |a| :: b[p] == a[p] || (p + 1 == |a| && Asleep(a[p]) && b[p] == Awake(a[p]))
  }

  ghost predicate OnlyWakes(threads: seq<seq<Frame>>, threads': seq<seq<Frame>>, except: nat) {
    |threads'| == |threads| && forall u | 0 <= u < |threads| && u != except :: Similar(threads[u], threads'[u])
  }

  lemma NotifyOnlyWakes(threads: seq<seq<Frame>>, g: nat, t: nat)
    ensures OnlyWakes(threads, WakeReady(threads), t) && OnlyWakes(threads, WakeComplete(threads, g), t)
    ensures OnlyWakes(threads, threads, t)
  {
  }

  lemma AdvanceOnlyWakes(s: State, t: nat)
    requires CanProceed(s, t)
    ensures OnlyWakes(s.threads, Advance(s, t).threads, t) && Advance(s, t).workers == s.workers
  {
    NotifyOnlyWakes(s.threads, 0, t);
    match Top(s.threads[t])
    case Task(j, TellComplete) => NotifyOnlyWakes(s.threads, j.group, t);
    case Task(j, TellReady) =>
    case Run(g, Publish) =>
    case Destroy(Announce) =>
    case _ =>
  }

  /** A step changes only its own thread's stack, apart from waking sleepers. */
  lemma OthersSimilar(s: State, step: Step)
    requires Enabled(s, step)
    ensures OnlyWakes(s.threads, Next(s, step).threads, step.thread) && Next(s, step).workers == s.workers
  {
    NotifyOnlyWakes(s.threads, 0, step.thread);
    if step.Proceed? { AdvanceOnlyWakes(s, step.thread); }
  }

  lemma SimilarShape(a: seq<Frame>, b: seq<Frame>)
    requires Similar(a, b)
    ensures WorkerStack(a) ==> WorkerStack(b)
    ensures CallerStack(a) ==> CallerStack(b)
    ensures NewestAbove(a) ==> NewestAbove(b)
  {
  }

  lemma PushShape(st: seq<Frame>, f: Frame, f': Frame)
    requires WorkerStack(st) && WorkerSlot(f, |st| - 1, false) && WorkerSlot(f', |st|, true)
    ensures WorkerStack(Put(st, f) + [f'])
  {
  }

  lemma PopShape(st: seq<Frame>)
    requires WorkerStack(st) && |st| > 1
    ensures WorkerStack(Pop(st))
  {
  }

  lemma AdvanceShape(s: State, t: nat)
    requires Shape(s) && CanProceed(s, t)
    ensures if t < s.workers then WorkerStack(Resumed(s, t)) else CallerStack(Resumed(s, t))
  {
    var a := s.threads[t];
    if t < s.workers {
      assert WorkerSlot(a[|a| - 1], |a| - 1, true);
      match Top(a)
      case Loop(LCheck) =>
        if s.queue != [] { PushShape(a, Loop(LCheck), Task(s.queue[0], Running)); }
      case Run(g, Try) =>
        if s.queue != [] { PushShape(a, Run(g, Head), Task(s.queue[Preferred(s.queue, g)], Running)); }
      case Task(j, TellReady) => PopShape(a);
      case Task(j, Finishing(_)) => PopShape(a);
      case Run(g, Collect) => PopShape(a);
      case _ =>
    }
  }

  lemma ShapeKept(s: State, step: Step)
    requires Shape(s) && Enabled(s, step)
    ensures Shape(Next(s, step))
  {
    var s', t := Next(s, step), step.thread;
    OthersSimilar(s, step);
    forall u | 0 <= u < |s.threads| && u != t
      ensures if u < s.workers then WorkerStack(s'.threads[u]) else CallerStack(s'.threads[u])
    {
      SimilarShape(s.threads[u], s'.threads[u]);
    }
    match step
    case Proceed(_) => AdvanceShape(s, t);
    case Call(_, count) =>
      if t < s.workers && count > 0 && !s.stopping {
        PushShape(s.threads[t], Top(s.threads[t]), Run(|s.groups|, Publish));
      }
    case _ =>
  }

  lemma GroupsGrow(s: State, step: Step)
    requires Enabled(s, step)
    ensures var s' := Next(s, step);
      && |s.groups| <= |s'.groups|
      && (forall g | 0 <= g < |s.groups| :: s'.groups[g].size == s.groups[g].size)
      && (forall j | Known(s, j) :: Known(s', j))
  {
    if step.Proceed? { match Top(s.threads[step.thread]) case _ => }
  }

  /** The frames of a resumed stack: the old ones, still serving the same job or group, and possibly the job taken. */
  lemma ResumedFrame(s: State, t: nat, p: nat)
    requires CanProceed(s, t) && p < |Resumed(s, t)|
    ensures var st, f := s.threads[t], Resumed(s, t)[p];
      if p < |st| then
        (f.Task? ==> st[p].Task? && st[p].job == f.job) && (f.Run? ==> st[p].Run? && st[p].group == f.group)
      else
        f.Task? && f.job in s.queue
  {
    match Top(s.threads[t]) case _ =>
  }

  lemma FramesKept(s: State, step: Step)
    requires Shape(s) && FramesKnown(s) && Placed(s) && Enabled(s, step)
    ensures FramesKnown(Next(s, step))
  {
    hide Shape, Resumed, QueueFree, GroupFree, IsRunning, CanProceed, Notified;
    var s', t := Next(s, step), step.thread;
    OthersSimilar(s, step);
    GroupsGrow(s, step);
    forall u, p | 0 <= u < |s'.threads| && 0 <= p < |s'.threads[u]|
      ensures var f := s'.threads[u][p]; (f.Task? ==> Known(s', f.job)) && (f.Run? ==> f.group < |s'.groups|)
    {
      if p < |s.threads[u]| { assert s.threads[u][p] == s.threads[u][p]; }
      if u == t && step.Proceed? { ResumedFrame(s, t, p); }
    }
  }

  lemma PutOrder(st: seq<Frame>, f: Frame)
    requires st != [] && NewestAbove(st) && Serves(f) == Serves(Top(st)) && (f.Run? ==> Top(st).Run?)
    ensures NewestAbove(Put(st, f)) && NewestAbove(Pop(st))
  {
  }

  lemma PushOrder(st: seq<Frame>, f: Frame)
    requires NewestAbove(st)
    requires f.Run? ==> forall p | 0 <= p < |st| :: Serves(st[p]) < f.group
    ensures NewestAbove(st + [f])
  {
  }

  lemma ResumedOrder(s: State, t: nat)
    requires CanProceed(s, t) && NewestAbove(s.threads[t])
    ensures NewestAbove(Resumed(s, t))
  {
    var st := s.threads[t];
    PutOrder(st, Top(st));
    forall pc | Top(st).Run? ensures NewestAbove(Put(st, Run(Top(st).group, pc))) {
      PutOrder(st, Run(Top(st).group, pc));
    }
    match Top(st)
    case Loop(LCheck) =>
      PutOrder(st, Loop(LCheck)); PutOrder(st, Loop(LExited)); PutOrder(st, Loop(LCommit));
      if s.queue != [] { PushOrder(Put(st, Loop(LCheck)), Task(s.queue[0], Running)); }
    case Loop(LCommit) => PutOrder(st, Loop(LAsleep));
    case Task(j, _) => PutOrder(st, Task(j, TellComplete)); PutOrder(st, Task(j, TellReady));
    case Run(g, Try) =>
      if s.queue != [] { PushOrder(Put(st, Run(g, Head)), Task(s.queue[Preferred(s.queue, g)], Running)); }
    case Destroy(_) => PutOrder(st, Destroy(Join));
    case _ =>
  }

  lemma OrderKept(s: State, step: Step)
    requires Shape(s) && FramesKnown(s) && Ordered(s) && Enabled(s, step)
    ensures Ordered(Next(s, step))
  {
    hide Shape, Resumed, QueueFree, GroupFree;
    var s', t := Next(s, step), step.thread;
    OthersSimilar(s, step);
    forall u | 0 <= u < |s.threads| && u != t ensures NewestAbove(s'.threads[u]) {
      assert NewestAbove(s.threads[u]);
      SimilarShape(s.threads[u], s'.threads[u]);
    }
    var st := s.threads[t];
    match step
    case Proceed(_) => ResumedOrder(s, t);
    case Call(_, _) =>
      forall p | 0 <= p < |st| ensures Serves(st[p]) < |s.groups| { assert s.threads[t][p] == st[p]; }
      PushOrder(st, Run(|s.groups|, Publish));
    case Shutdown(_) => PushOrder(st, Destroy(Announce));
    case BodyEnds(_, throws) => PutOrder(st, Task(Top(st).job, Finishing(throws)));
    case SpuriousWake(_) => PutOrder(st, Awake(Top(st)));
  }

  // -- placement of jobs

  predicate Takes(s: State, step: Step) {
    step.Proceed? && step.thread < |s.threads| && s.queue != []
    && (Top(s.threads[step.thread]) == Loop(LCheck)
        || (Top(s.threads[step.thread]).Run? && Top(s.threads[step.thread]).rpc == Try))
  }

  predicate Finishes(s: State, step: Step) {
    step.Proceed? && step.thread < |s.threads|
    && Top(s.threads[step.thread]).Task? && Top(s.threads[step.thread]).tpc.Finishing?
  }

  lemma OthersHold(s: State, step: Step, u: nat, p: nat, j: Job)
    requires Enabled(s, step) && u != step.thread
    ensures Holds(Next(s, step), u, p, j) <==> Holds(s, u, p, j)
  {
    OthersSimilar(s, step);
    if u < |s.threads| { assert Similar(s.threads[u], Next(s, step).threads[u]); }
  }

  /** Steps other than taking and finishing a job leave every job's frame where it is. */
  lemma NeutralHolds(s: State, step: Step, u: nat, p: nat, j: Job)
    requires Enabled(s, step) && !Takes(s, step) && !Finishes(s, step)
    ensures Holds(Next(s, step), u, p, j) <==> Holds(s, u, p, j)
  {
    hide QueueFree, GroupFree, Notified, Similar, OnlyWakes;
    if u != step.thread {
      OthersHold(s, step, u, p, j);
    } else if step.Proceed? {
      match Top(s.threads[u]) case _ =>
    }
  }

  lemma TakeHolds(s: State, step: Step, u: nat, p: nat, j: Job)
    requires Enabled(s, step) && Takes(s, step)
    ensures var t, s' := step.thread, Next(s, step);
      var taken := Top(s'.threads[t]);
      && taken.Task? && taken.job in s.queue
      && (Holds(s', u, p, j) <==> Holds(s, u, p, j) || (u == t && p == |s.threads[t]| && j == taken.job))
  {
    if u != step.thread { OthersHold(s, step, u, p, j); }
  }

  lemma FinishHolds(s: State, step: Step, u: nat, p: nat, j: Job)
    requires Enabled(s, step) && Finishes(s, step)
    ensures var t := step.thread;
      Holds(Next(s, step), u, p, j) <==> Holds(s, u, p, j) && !(u == t && p == |s.threads[t]| - 1)
  {
    if u != step.thread { OthersHold(s, step, u, p, j); }
  }

  /** Steps that neither take, finish nor call leave the bookkeeping alone. */
  lemma NeutralEffect(s: State, step: Step)
    requires Enabled(s, step) && !Takes(s, step) && !Finishes(s, step) && !step.Call?
    ensures var s' := Next(s, step);
      s'.queue == s.queue && s'.done == s.done && s'.groups == s.groups && s'.started == s.started && s'.failed == s.failed
  {
    hide QueueFree, GroupFree, Notified, Resumed;
  }

  lemma PlacedNeutral(s: State, step: Step)
    requires Inv(s) && Enabled(s, step) && !Takes(s, step) && !Finishes(s, step) && !step.Call?
    ensures Placed(Next(s, step))
  {
    var s' := Next(s, step);
    hide Next, Enabled, Takes, Finishes, Holds, Placed;
    NeutralEffect(s, step);
    forall u: nat, p: nat, j ensures Holds(s', u, p, j) <==> Holds(s, u, p, j) { NeutralHolds(s, step, u, p, j); }
    SamePlaced(s, s');
  }

  lemma SamePlaced(s: State, s': State)
    requires Placed(s) && s'.queue == s.queue && s'.done == s.done && s'.groups == s.groups
    requires forall u: nat, p: nat, j :: Holds(s', u, p, j) <==> Holds(s, u, p, j)
    ensures Placed(s')
  {
    hide Holds;
    assert forall j :: IsRunning(s', j) <==> IsRunning(s, j);
    assert forall j :: Known(s', j) <==> Known(s, j);
  }

  lemma PlacedCall(s: State, step: Step)
    requires Inv(s) && Enabled(s, step) && step.Call?
    ensures Placed(Next(s, step))
  {
    var s' := Next(s, step);
    forall u: nat, p: nat, j ensures Holds(s', u, p, j) <==> Holds(s, u, p, j) { NeutralHolds(s, step, u, p, j); }
    assert forall j :: IsRunning(s', j) <==> IsRunning(s, j);
    if s' != s {
      var g := |s.groups|;
      assert forall j :: Known(s', j) <==> Known(s, j) || (j.group == g && j.index < step.count);
      forall j | IsRunning(s, j) ensures Known(s, j) {
        var u: nat, p: nat :| Holds(s, u, p, j);
        assert s.threads[u][p].Task?;
      }
      assert forall i | 0 <= i < step.count :: s'.queue[|s.queue| + i] == Job(g, i);
    }
  }

  /** The position in the queue that a taking step removes. */
  function Taken(s: State, step: Step): (k: nat)
    requires Takes(s, step)
    ensures k < |s.queue|
  {
    var f := Top(s.threads[step.thread]);
    if f.Run? then Preferred(s.queue, f.group) else 0
  }

  lemma TakeEffect(s: State, step: Step)
    requires Enabled(s, step) && Takes(s, step)
    ensures var s', k := Next(s, step), Taken(s, step);
      && s'.queue == s.queue[..k] + s.queue[k + 1..]
      && s'.started == s.started + multiset{s.queue[k]}
      && s'.groups == s.groups && s'.done == s.done && s'.failed == s.failed && s'.stopping == s.stopping
      && |s'.threads| == |s.threads|
      && Top(s'.threads[step.thread]) == Task(s.queue[k], Running)
  {
  }

  lemma PlacedTake(s: State, step: Step)
    requires Shape(s) && Placed(s) && Enabled(s, step) && Takes(s, step)
    ensures Placed(Next(s, step))
  {
    var s', t, k := Next(s, step), step.thread, Taken(s, step);
    var j0 := s.queue[k];
    TakeEffect(s, step);
    forall u: nat, p: nat, j
      ensures Holds(s', u, p, j) <==> Holds(s, u, p, j) || (u == t && p == |s.threads[t]| && j == j0)
    {
      TakeHolds(s, step, u, p, j);
    }
    assert Holds(s', t, |s.threads[t]|, j0);
    assert forall j :: IsRunning(s', j) <==> IsRunning(s, j) || j == j0 by {
      forall j | IsRunning(s, j) ensures IsRunning(s', j) {
        var u: nat, p: nat :| Holds(s, u, p, j);
        assert Holds(s', u, p, j);
      }
    }
    RemovedFrom(s.queue, k);
    assert forall j :: Known(s', j) <==> Known(s, j);
    assert !IsRunning(s, j0);
    forall u: nat, p: nat, u': nat, p': nat, j | Holds(s', u, p, j) && Holds(s', u', p', j) ensures u == u' && p == p' {
      if j == j0 {
        assert !Holds(s, u, p, j) && !Holds(s, u', p', j);
      } else {
        assert Holds(s, u, p, j) && Holds(s, u', p', j);
      }
    }
  }

  lemma RemovedFrom(q: seq<Job>, k: nat)
    requires k < |q| && forall i, l | 0 <= i < l < |q| :: q[i] != q[l]
    ensures var q' := q[..k] + q[k + 1..];
      && (forall i, l | 0 <= i < l < |q'| :: q'[i] != q'[l])
      && (forall j :: j in q' <==> j in q && j != q[k])
  {
    var q' := q[..k] + q[k + 1..];
    forall j | j in q && j != q[k] ensures j in q' {
      var i :| 0 <= i < |q| && q[i] == j;
      assert q'[if i < k then i else i - 1] == j;
    }
  }

  lemma FinishEffect(s: State, step: Step)
    requires Enabled(s, step) && Finishes(s, step)
    ensures var s', f := Next(s, step), Top(s.threads[step.thread]);
      var g := s.groups[f.job.group];
      && s'.queue == s.queue && s'.started == s.started && s'.stopping == s.stopping
      && s'.done == s.done + {f.job}
      && s'.failed == (if f.tpc.threw then s.failed + {f.job} else s.failed)
      && s'.groups == s.groups[f.job.group :=
           Group(g.size, g.remaining - 1, if f.tpc.threw && g.error.None? then Some(f.job) else g.error)]
  {
  }

  lemma PlacedFinish(s: State, step: Step)
    requires Shape(s) && FramesKnown(s) && Placed(s) && Enabled(s, step) && Finishes(s, step)
    ensures Placed(Next(s, step))
  {
    var s', t := Next(s, step), step.thread;
    var st := s.threads[t];
    var j0, p0 := Top(st).job, |st| - 1;
    FinishEffect(s, step);
    forall u: nat, p: nat, j
      ensures Holds(s', u, p, j) <==> Holds(s, u, p, j) && !(u == t && p == p0)
    {
      FinishHolds(s, step, u, p, j);
    }
    assert s.threads[t][p0] == Top(st);
    assert Holds(s, t, p0, j0);
    assert forall j :: Known(s', j) <==> Known(s, j);
    assert forall j :: IsRunning(s', j) <==> IsRunning(s, j) && j != j0 by {
      forall j | IsRunning(s, j) && j != j0 ensures IsRunning(s', j) {
        var u: nat, p: nat :| Holds(s, u, p, j);
        assert Holds(s', u, p, j);
      }
    }
    assert forall j | j in s'.done :: Known(s', j) && !IsRunning(s', j);
  }

  lemma PlacedKept(s: State, step: Step)
    requires Inv(s) && Enabled(s, step)
    ensures Placed(Next(s, step))
  {
    if Takes(s, step) {
      PlacedTake(s, step);
    } else if Finishes(s, step) {
      PlacedFinish(s, step);
    } else if step.Call? {
      PlacedCall(s, step);
    } else {
      PlacedNeutral(s, step);
    }
  }

  // -- counters and errors

  lemma {:induction false} JobsCount(g: nat, n: nat)
    ensures |AllJobs(g, n)| == n
  {
    if n == 0 {
      assert AllJobs(g, n) == {};
    } else {
      JobsCount(g, n - 1);
      assert AllJobs(g, n) == AllJobs(g, n - 1) + {Job(g, n - 1)};
    }
  }

  lemma CountedNewGroup(s: State, s': State, count: nat)
    requires s'.groups == s.groups + [Group(count, count, None)] && s'.done == s.done
    requires forall h | 0 <= h < |s.groups| :: s.groups[h].remaining == |Undone(s, h)|
    requires forall j | j in s.done :: Known(s, j)
    ensures forall h | 0 <= h < |s'.groups| :: s'.groups[h].remaining == |Undone(s', h)|
  {
    var g := |s.groups|;
    JobsCount(g, count);
    forall h | 0 <= h < |s'.groups| ensures s'.groups[h].remaining == |Undone(s', h)| {
      if h == g {
        assert Undone(s', h) == AllJobs(g, count);
      } else {
        assert Undone(s', h) == Undone(s, h);
      }
    }
  }

  lemma CountedCall(s: State, step: Step)
    requires Inv(s) && Enabled(s, step) && step.Call?
    ensures Counted(Next(s, step))
  {
    hide Shape, Ordered, ErrorsRecorded, FramesKnown, NoLostWakeup, IsRunning, QueueFree, Undone;
    var s' := Next(s, step);
    if s' != s {
      CountedNewGroup(s, s', step.count);
      forall j ensures s'.started[j] == if Known(s', j) && j !in s'.queue then 1 else 0 {
        if Known(s', j) && !Known(s, j) {
          assert s'.queue[|s.queue| + j.index] == j;
        }
      }
    }
  }

  lemma CountedTake(s: State, step: Step)
    requires Placed(s) && Counted(s) && Enabled(s, step) && Takes(s, step)
    ensures Counted(Next(s, step))
  {
    var s', k := Next(s, step), Taken(s, step);
    TakeEffect(s, step);
    RemovedFrom(s.queue, k);
    assert Known(s, s.queue[k]);
    assert forall h | 0 <= h < |s.groups| :: Undone(s', h) == Undone(s, h);
  }

  lemma FinishingJob(s: State, step: Step)
    requires Shape(s) && FramesKnown(s) && Placed(s) && Enabled(s, step) && Finishes(s, step)
    ensures var j := Top(s.threads[step.thread]).job;
      Known(s, j) && j !in s.done && j !in s.queue && j in Undone(s, j.group)
  {
    var st := s.threads[step.thread];
    assert s.threads[step.thread][|st| - 1] == Top(st);
    assert Holds(s, step.thread, |st| - 1, Top(st).job);
  }

  lemma CountedFinish(s: State, step: Step)
    requires Shape(s) && FramesKnown(s) && Placed(s) && Counted(s) && Enabled(s, step) && Finishes(s, step)
    ensures Counted(Next(s, step))
  {
    var s', j0 := Next(s, step), Top(s.threads[step.thread]).job;
    FinishEffect(s, step);
    FinishingJob(s, step);
    assert forall j :: Known(s', j) <==> Known(s, j);
    forall h | 0 <= h < |s'.groups| ensures s'.groups[h].remaining == |Undone(s', h)| {
      if h == j0.group {
        assert Undone(s', h) == Undone(s, h) - {j0};
      } else {
        assert Undone(s', h) == Undone(s, h);
      }
    }
  }

  lemma CountedKept(s: State, step: Step)
    requires Inv(s) && Enabled(s, step)
    ensures Counted(Next(s, step))
  {
    hide Next, Enabled, Counted, Placed;
    if Takes(s, step) {
      CountedTake(s, step);
    } else if Finishes(s, step) {
      CountedFinish(s, step);
    } else if step.Call? {
      CountedCall(s, step);
    } else {
      NeutralEffect(s, step);
      SameCounted(s, Next(s, step));
    }
  }

  lemma SameCounted(s: State, s': State)
    requires Counted(s) && s'.queue == s.queue && s'.done == s.done && s'.groups == s.groups && s'.started == s.started
    ensures Counted(s')
  {
    assert forall h | 0 <= h < |s.groups| :: Undone(s', h) == Undone(s, h);
  }

  lemma ErrorsKept(s: State, step: Step)
    requires Shape(s) && FramesKnown(s) && ErrorsRecorded(s) && Enabled(s, step)
    ensures ErrorsRecorded(Next(s, step))
  {
    var s' := Next(s, step);
    if Takes(s, step) {
      TakeEffect(s, step);
      assert forall j :: Known(s', j) <==> Known(s, j);
    } else if Finishes(s, step) {
      FinishEffect(s, step);
      var st := s.threads[step.thread];
      assert s.threads[step.thread][|st| - 1] == Top(st);
      assert forall j :: Known(s', j) <==> Known(s, j);
    } else if step.Call? {
      GroupsGrow(s, step);
    } else {
      NeutralEffect(s, step);
      assert forall j :: Known(s', j) <==> Known(s, j);
    }
  }

  // -- wakeups

  /** Notifications still due from other threads stay due. */
  lemma PendingKept(s: State, step: Step)
    requires Enabled(s, step)
    ensures var s', f := Next(s, step), Top(s.threads[step.thread]);
      && (ReadyPending(s) && !TellsReady(f) ==> ReadyPending(s'))
      && (LastPending(s) && !TellsLast(f) ==> LastPending(s'))
      && (forall g :: CompletePending(s, g) && !(f.Task? && f.tpc == TellComplete) ==> CompletePending(s', g))
  {
    var s', t := Next(s, step), step.thread;
    OthersSimilar(s, step);
    forall u | 0 <= u < |s.threads| && u != t && TellsReady(Top(s.threads[u]))
      ensures Top(s'.threads[u]) == Top(s.threads[u])
    {
      assert Similar(s.threads[u], s'.threads[u]);
    }
  }

  lemma WakeTops(threads: seq<seq<Frame>>, g: nat, u: nat)
    requires u < |threads|
    ensures Top(WakeReady(threads)[u]) == WokenReady(Top(threads[u]))
    ensures Top(WakeComplete(threads, g)[u]) == WokenComplete(Top(threads[u]), g)
  {
  }

  /** A thread that notifies `ready` leaves nobody asleep on it, and if it was due to a last job, nobody committed. */
  lemma ReadyTellerOthers(s: State, t: nat, u: nat)
    requires NoLostWakeup(s) && CanProceed(s, t) && TellsReady(Top(s.threads[t])) && u < |s.threads| && u != t
    requires !(Top(s.threads[t]).Task? && Top(s.threads[t]).tpc == TellComplete)
    ensures NotLost(Advance(s, t), Top(Advance(s, t).threads[u]))
  {
    WakeTops(s.threads, 0, u);
    var s', f := Advance(s, t), Top(s.threads[u]);
    assert NotLost(s, f);
    assert s'.queue == s.queue && s'.groups == s.groups && s'.stopping == s.stopping;
    assert Top(s'.threads[u]) == WokenReady(f);
    PendingKept(s, Proceed(t));
    match f case _ =>
  }

  lemma CompleteTellerOthers(s: State, t: nat, u: nat)
    requires NoLostWakeup(s) && CanProceed(s, t) && u < |s.threads| && u != t
    requires Top(s.threads[t]).Task? && Top(s.threads[t]).tpc == TellComplete
    ensures NotLost(Advance(s, t), Top(Advance(s, t).threads[u]))
  {
    var s', f, g := Advance(s, t), Top(s.threads[u]), Top(s.threads[t]).job.group;
    WakeTops(s.threads, g, u);
    assert NotLost(s, f);
    assert s'.queue == s.queue && s'.groups == s.groups && s'.stopping == s.stopping;
    assert Top(s'.threads[u]) == WokenComplete(f, g);
    assert TellsLast(Top(s'.threads[t]));
    if f.Run? && f.rpc == XAsleep && f.group != g && !Left(s, f.group) {
      var v :| 0 <= v < |s.threads| && Top(s.threads[v]).Task? && Top(s.threads[v]).tpc == TellComplete
               && Top(s.threads[v]).job.group == f.group;
      WakeTops(s.threads, g, v);
      assert Top(s'.threads[v]) == Top(s.threads[v]);
    }
  }

  /** Steps other than taking, finishing, calling and stopping leave the queue, the counters and the flag alone. */
  lemma QuietEffect(s: State, step: Step)
    requires Enabled(s, step) && !Takes(s, step) && !Finishes(s, step) && !step.Call? && !step.Shutdown?
    ensures var s' := Next(s, step);
      s'.queue == s.queue && s'.groups == s.groups && s'.stopping == s.stopping && s'.done == s.done
      && s'.started == s.started && s'.failed == s.failed
  {
  }

  lemma QuietOthers(s: State, step: Step, u: nat)
    requires NoLostWakeup(s) && Enabled(s, step) && !TellsReady(Top(s.threads[step.thread]))
    requires !Finishes(s, step) && !step.Call? && !step.Shutdown? && u < |s.threads| && u != step.thread
    ensures NotLost(Next(s, step), Top(Next(s, step).threads[u]))
  {
    hide Next, Resumed, Notified, CanProceed;
    var s', f := Next(s, step), Top(s.threads[u]);
    assert NotLost(s, f);
    OthersSimilar(s, step);
    assert Similar(s.threads[u], s'.threads[u]);
    PendingKept(s, step);
    if Takes(s, step) { TakeEffect(s, step); } else { QuietEffect(s, step); }
  }

  /** Publishing jobs and stopping happen while nobody is committed to sleep, and a notification is then due. */
  lemma AnnouncedOthers(s: State, step: Step, u: nat)
    requires NoLostWakeup(s) && Enabled(s, step) && (step.Call? || step.Shutdown?)
    requires u < |s.threads| && u != step.thread
    ensures NotLost(Next(s, step), Top(Next(s, step).threads[u]))
  {
    var s', f := Next(s, step), Top(s.threads[u]);
    assert NotLost(s, f);
    PendingKept(s, step);
    if s' != s {
      assert Top(s'.threads[u]) == f;
      assert TellsReady(Top(s'.threads[step.thread]));
      assert forall g | 0 <= g < |s.groups| :: s'.groups[g] == s.groups[g];
    }
  }

  lemma FinishOthers(s: State, step: Step, u: nat)
    requires NoLostWakeup(s) && Enabled(s, step) && Finishes(s, step) && u < |s.threads| && u != step.thread
    requires s.groups[Top(s.threads[step.thread]).job.group].remaining >= 1
    ensures NotLost(Next(s, step), Top(Next(s, step).threads[u]))
  {
    var s', f, t := Next(s, step), Top(s.threads[u]), step.thread;
    var j := Top(s.threads[t]).job;
    assert NotLost(s, f);
    OthersSimilar(s, step);
    assert Similar(s.threads[u], s'.threads[u]);
    PendingKept(s, step);
    FinishEffect(s, step);
    if s.groups[j.group].remaining == 1 {
      assert Top(s'.threads[t]) == Task(j, TellComplete);
    }
  }

  /** A frame uncovered by a pop is at a point with nothing to lose. */
  lemma UncoveredNotLost(s: State, s': State, t: nat)
    requires Shape(s) && t < |s.threads| && s.threads[t] != []
    ensures NotLost(s', Top(Pop(s.threads[t])))
  {
    var st := s.threads[t];
    if |st| > 1 { assert WorkerSlot(st[|st| - 2], |st| - 2, false); }
  }

  lemma ResumedNotLost(s: State, t: nat)
    requires Shape(s) && CanProceed(s, t) && NotLost(s, Top(s.threads[t]))
    requires !Takes(s, Proceed(t)) && !Finishes(s, Proceed(t))
    requires forall g | 0 <= g < |s.groups| :: s.groups[g].remaining >= 0
    ensures NotLost(Next(s, Proceed(t)), Top(Resumed(s, t)))
  {
    var s', f := Next(s, Proceed(t)), Top(s.threads[t]);
    QuietEffect(s, Proceed(t));
    PendingKept(s, Proceed(t));
    UncoveredNotLost(s, s', t);
    hide Shape, QueueFree, GroupFree, Next, Advance, Notified;
    match f case _ =>
  }

  lemma OwnNotLost(s: State, step: Step)
    requires Shape(s) && Enabled(s, step) && NoLostWakeup(s)
    requires forall g | 0 <= g < |s.groups| :: s.groups[g].remaining >= 0
    ensures NotLost(Next(s, step), Top(Next(s, step).threads[step.thread]))
  {
    hide Shape, QueueFree, GroupFree, Notified, Inv;
    var s', t := Next(s, step), step.thread;
    assert NotLost(s, Top(s.threads[t]));
    if step.Proceed? && !Takes(s, step) {
      if Finishes(s, step) {
        UncoveredNotLost(s, s', t);
      } else {
        ResumedNotLost(s, t);
      }
    }
  }

  lemma WakeupsKept(s: State, step: Step)
    requires Inv(s) && Enabled(s, step)
    ensures NoLostWakeup(Next(s, step))
  {
    var s', t := Next(s, step), step.thread;
    var f := Top(s.threads[t]);
    OthersSimilar(s, step);
    forall u | 0 <= u < |s'.threads| ensures NotLost(s', Top(s'.threads[u])) {
      if u == t {
        OwnNotLost(s, step);
      } else if step.Call? || step.Shutdown? {
        AnnouncedOthers(s, step, u);
      } else if Finishes(s, step) {
        FinishingJob(s, step);
        FinishOthers(s, step, u);
      } else if !TellsReady(f) {
        QuietOthers(s, step, u);
      } else if f.Task? && f.tpc == TellComplete {
        CompleteTellerOthers(s, t, u);
      } else {
        ReadyTellerOthers(s, t, u);
      }
    }
  }

  lemma InvKept(s: State, step: Step)
    requires Inv(s) && Enabled(s, step)
    ensures Inv(Next(s, step))
  {
    ShapeKept(s, step);
    FramesKept(s, step);
    OrderKept(s, step);
    PlacedKept(s, step);
    CountedKept(s, step);
    ErrorsKept(s, step);
    WakeupsKept(s, step);
  }

  lemma InitialInv(workers: nat, callers: nat)
    requires workers >= 1
    ensures Inv(Initial(workers, callers))
  {
  }

  // ---------------------------------------------------------------- deadlock freedom

  /** A nested wait of a stopping pool goes round its loop without sleeping while its last jobs run elsewhere. */
  predicate Spins(s: State, step: Step) {
    step.Proceed? && step.thread < |s.threads| &&
    var f := Top(s.threads[step.thread]);
    f.Run? && f.rpc == RCheck && f.group < |s.groups| && s.stopping && s.queue == [] && s.groups[f.group].remaining != 0
  }

  /** The steps that get existing work done: no new calls, no spurious wakeups, no spinning. */
  predicate Working(s: State, step: Step) {
    Enabled(s, step) && (step.BodyEnds? || (step.Proceed? && !Spins(s, step)))
  }

  ghost predicate Stuck(s: State) {
    forall step :: !Working(s, step)
  }

  /** Every `run` has returned and every job has been executed; workers are back in their loop or gone. */
  ghost predicate Finished(s: State) {
    && s.queue == []
    && (forall g | 0 <= g < |s.groups| :: s.groups[g].remaining == 0)
    && (forall t | 0 <= t < |s.threads| :: if t < s.workers then |s.threads[t]| == 1 else s.threads[t] == [])
  }

  predicate Waiting(f: Frame) {
    f in {Loop(LAsleep), Loop(LExited), Destroy(Join), Outside} || (f.Run? && f.rpc in {RAsleep, XAsleep, RCheck})
  }

  lemma StuckTops(s: State, t: nat)
    requires FramesKnown(s) && Stuck(s) && t < |s.threads|
    ensures Waiting(Top(s.threads[t]))
    ensures Top(s.threads[t]).Run? && Top(s.threads[t]).rpc == RCheck ==> Spins(s, Proceed(t))
  {
    var st := s.threads[t];
    StuckFree(s);
    assert !Working(s, Proceed(t)) && !Working(s, BodyEnds(t, false));
    if st != [] { assert s.threads[t][|st| - 1] == Top(st); }
    match Top(st) case _ =>
  }

  lemma StuckFree(s: State)
    requires Stuck(s)
    ensures QueueFree(s) && forall g :: GroupFree(s, g)
  {
    forall t | 0 <= t < |s.threads| ensures !HoldsQueue(Top(s.threads[t])) {
      assert !Working(s, Proceed(t));
    }
    forall g: nat, t | 0 <= t < |s.threads| ensures Top(s.threads[t]) != Run(g, XCommit) {
      assert !Working(s, Proceed(t));
    }
  }

  /** With nothing pending, every waiting thread has a real reason to wait. */
  lemma StuckReasons(s: State, t: nat)
    requires Inv(s) && Stuck(s) && t < |s.threads|
    ensures var f := Top(s.threads[t]);
      && (f.Run? ==> Left(s, f.group))
      && (f.Loop? || (f.Run? && f.rpc != XAsleep) ==> s.queue == [])
      && (f.Loop? ==> (f.lpc == LExited <==> s.stopping))
      && !f.Task?
  {
    hide Placed, ErrorsRecorded, Ordered, Shape, FramesKnown, Stuck, Undone;
    forall u | 0 <= u < |s.threads| ensures Waiting(Top(s.threads[u])) { StuckTops(s, u); }
    StuckTops(s, t);
    assert !ReadyPending(s) && forall g :: !CompletePending(s, g);
    assert NotLost(s, Top(s.threads[t]));
    assert forall g | 0 <= g < |s.groups| :: s.groups[g].remaining >= 0;
  }

  lemma StuckQueue(s: State)
    requires Inv(s) && Stuck(s)
    ensures s.queue == []
  {
    StuckReasons(s, 0);
    StuckTops(s, 0);
    var st := s.threads[0];
    assert WorkerSlot(st[|st| - 1], |st| - 1, true);
  }

  /** The frame on top of a covered job is a nested `run`, newer than the job's group. */
  lemma CoveredJob(s: State, t: nat, p: nat, j: Job)
    requires Shape(s) && Ordered(s) && Holds(s, t, p, j) && !Top(s.threads[t]).Task?
    ensures Top(s.threads[t]).Run? && j.group < Top(s.threads[t]).group
  {
    var st := s.threads[t];
    if t < s.workers {
      assert WorkerStack(st) && NewestAbove(st);
      assert WorkerSlot(st[|st| - 1], |st| - 1, true) && WorkerSlot(st[p], p, p + 1 == |st|);
      assert Serves(st[p]) < st[|st| - 1].group;
    }
  }

  /** Behind an unfinished group's stuck job there is always a newer unfinished group; there is no newest one. */
  lemma NothingLeft(s: State, g: nat)
    requires Inv(s) && Stuck(s)
    ensures !Left(s, g)
    decreases |s.groups| - g
  {
    if Left(s, g) {
      StuckQueue(s);
      assert s.groups[g].remaining == |Undone(s, g)|;
      var j :| j in Undone(s, g);
      assert Known(s, j);
      var t: nat, p: nat :| Holds(s, t, p, j);
      StuckReasons(s, t);
      CoveredJob(s, t, p, j);
      NothingLeft(s, Top(s.threads[t]).group);
    }
  }

  /** Deadlock freedom: whatever has been called and however calls nest, a pool with unfinished work has a thread that can work. */
  lemma DeadlockFreedom(s: State)
    requires Inv(s)
    ensures Finished(s) || exists step :: Working(s, step)
  {
    if Stuck(s) {
      forall g | 0 <= g < |s.groups| ensures s.groups[g].remaining == 0 {
        NothingLeft(s, g);
      }
      forall t | 0 <= t < |s.threads|
        ensures if t < s.workers then |s.threads[t]| == 1 && s.queue == [] && (Top(s.threads[t]) == Loop(LExited) <==> s.stopping)
                else s.threads[t] == [] || s.threads[t] == [Destroy(Join)]
      {
        StuckTops(s, t);
        StuckReasons(s, t);
        var st := s.threads[t];
        if t < s.workers { assert WorkerSlot(st[|st| - 1], |st| - 1, true); }
      }
      assert Top(s.threads[0]).Loop? ;
      forall t | s.workers <= t < |s.threads| ensures s.threads[t] == [] {
        if s.threads[t] == [Destroy(Join)] {
          assert NotLost(s, Top(s.threads[t]));
          assert Working(s, Proceed(t));
        }
      }
    }
  }

  // ---------------------------------------------------------------- termination

  function FrameWork(f: Frame): nat {
    match f
    case Task(_, Running) => 4
    case Task(_, Finishing(_)) => 3
    case Task(_, TellComplete) => 2
    case Task(_, TellReady) => 1
    case Run(_, Publish) => 2
    case Run(_, _) => 1
    case Destroy(Announce) => 2
    case Destroy(Join) => 1
    case _ => 0
  }

  function StackWork(st: seq<Frame>): nat {
    if st == [] then 0 else StackWork(Pop(st)) + FrameWork(Top(st))
  }

  function ThreadsWork(threads: seq<seq<Frame>>): nat {
    if threads == [] then 0 else ThreadsWork(threads[1..]) + StackWork(threads[0])
  }

  /** The work left: jobs to run, bodies to finish, notifications to make, calls to return from. */
  function Work(s: State): nat {
    5 * |s.queue| + ThreadsWork(s.threads)
  }

  /** How far a waiting thread is from sleeping, from taking a job, or from seeing that its group is complete. */
  function FrameRank(groups: seq<Group>, idle: bool, f: Frame): nat {
    match f
    case Loop(LCheck) => 2
    case Loop(LCommit) => 1
    case Run(g, pc) =>
      var left := g < |groups| && groups[g].remaining != 0;
      (match pc
       case Head => if left && idle then 4 else 2
       case Try => if !left then 4 else if idle then 3 else 1
       case RCheck => if left && idle then 2 else 3
       case RCommit => 1
       case XCheck => 2
       case XCommit => 1
       case _ => 0)
    case _ => 0
  }

  function ThreadsRank(groups: seq<Group>, idle: bool, threads: seq<seq<Frame>>): (r: nat)
    ensures r <= 4 * |threads|
  {
    if threads == [] then 0
    else ThreadsRank(groups, idle, threads[1..]) + FrameRank(groups, idle, Top(threads[0]))
  }

  function Rank(s: State): nat {
    ThreadsRank(s.groups, s.queue == [], s.threads)
  }

  /** Bounds the number of working steps that can follow. */
  function Bound(s: State): nat {
    Work(s) * (4 * |s.threads| + 1) + Rank(s)
  }

  lemma {:induction false} WorkUpdate(threads: seq<seq<Frame>>, t: nat, st: seq<Frame>)
    requires t < |threads|
    ensures ThreadsWork(threads[t := st]) == ThreadsWork(threads) - StackWork(threads[t]) + StackWork(st)
  {
    if t == 0 {
      assert threads[t := st][1..] == threads[1..];
    } else {
      WorkUpdate(threads[1..], t - 1, st);
      assert threads[t := st][1..] == threads[1..][t - 1 := st];
    }
  }

  lemma {:induction false} RankUpdate(groups: seq<Group>, idle: bool, threads: seq<seq<Frame>>, t: nat, st: seq<Frame>)
    requires t < |threads|
    ensures ThreadsRank(groups, idle, threads[t := st])
         == ThreadsRank(groups, idle, threads) - FrameRank(groups, idle, Top(threads[t])) + FrameRank(groups, idle, Top(st))
  {
    if t == 0 {
      assert threads[t := st][1..] == threads[1..];
    } else {
      RankUpdate(groups, idle, threads[1..], t - 1, st);
      assert threads[t := st][1..] == threads[1..][t - 1 := st];
    }
  }

  lemma {:induction false} WorkOnlyWakes(threads: seq<seq<Frame>>, threads': seq<seq<Frame>>)
    requires |threads| == |threads'| && forall u | 0 <= u < |threads| :: Similar(threads[u], threads'[u])
    ensures ThreadsWork(threads') == ThreadsWork(threads)
  {
    if threads != [] {
      WorkOnlyWakes(threads[1..], threads'[1..]);
      var a, b := threads[0], threads'[0];
      assert Similar(a, b);
      if a != [] { assert Pop(a) == Pop(b); }
    }
  }

  /** The work of the threads changes by what the stepping thread's own stack loses. */
  lemma AdvanceWork(s: State, t: nat)
    requires CanProceed(s, t)
    ensures ThreadsWork(Advance(s, t).threads)
         == ThreadsWork(s.threads) - StackWork(s.threads[t]) + StackWork(Resumed(s, t))
  {
    var base := Notified(s, t);
    NotifyOnlyWakes(s.threads, 0, |s.threads|);
    match Top(s.threads[t]) {
      case Task(j, TellComplete) => NotifyOnlyWakes(s.threads, j.group, |s.threads|);
      case _ =>
    }
    WorkOnlyWakes(s.threads, base);
    WorkUpdate(base, t, Resumed(s, t));
    assert Similar(s.threads[t], base[t]);
    if s.threads[t] != [] { assert Pop(s.threads[t]) == Pop(base[t]); }
  }

  lemma ResumedWork(s: State, t: nat)
    requires CanProceed(s, t)
    ensures var w, w' := StackWork(s.threads[t]), StackWork(Resumed(s, t));
      if Takes(s, Proceed(t)) then w' == w + 4
      else w' < w || (w' == w && Notified(s, t) == s.threads && Advance(s, t).groups == s.groups
                      && Advance(s, t).queue == s.queue && s.threads[t] != []
                      && Resumed(s, t) == Put(s.threads[t], Top(Resumed(s, t))))
  {
    var st := s.threads[t];
    forall f ensures st != [] ==> Pop(Put(st, f)) == Pop(st) && Top(Put(st, f)) == f {}
    forall f, f' ensures st != [] ==> Pop(Put(st, f) + [f']) == Put(st, f) {}
    match Top(st) case _ =>
  }

  lemma ResumedRank(s: State, t: nat)
    requires CanProceed(s, t) && !Spins(s, Proceed(t)) && !Takes(s, Proceed(t))
    requires StackWork(Resumed(s, t)) == StackWork(s.threads[t])
    ensures FrameRank(s.groups, s.queue == [], Top(Resumed(s, t))) < FrameRank(s.groups, s.queue == [], Top(s.threads[t]))
  {
    match Top(s.threads[t]) case _ =>
  }

  lemma WorkingStepDecreases(s: State, step: Step)
    requires Working(s, step)
    ensures Bound(Next(s, step)) < Bound(s)
  {
    hide QueueFree, GroupFree, Notified, Resumed, FrameRank;
    var s', t := Next(s, step), step.thread;
    if step.BodyEnds? {
      WorkUpdate(s.threads, t, s'.threads[t]);
      assert Pop(s'.threads[t]) == Pop(s.threads[t]);
      LessWork(s, s');
    } else {
      AdvanceWork(s, t);
      ResumedWork(s, t);
      AdvanceOnlyWakes(s, t);
      if Takes(s, step) {
        TakeEffect(s, step);
        LessWork(s, s');
      } else if StackWork(Resumed(s, t)) < StackWork(s.threads[t]) {
        LessWork(s, s');
      } else {
        ResumedRank(s, t);
        RankUpdate(s.groups, s.queue == [], s.threads, t, Resumed(s, t));
      }
    }
  }

  lemma FewerMultiples(a: nat, b: nat, k: nat)
    requires a < b
    ensures a * k + k <= b * k
  {
    assert b * k == (a + 1) * k + (b - a - 1) * k;
  }

  lemma LessWork(s: State, s': State)
    requires Work(s') < Work(s) && |s'.threads| == |s.threads|
    ensures Bound(s') < Bound(s)
  {
    FewerMultiples(Work(s'), Work(s), 4 * |s.threads| + 1);
    assert Rank(s') <= 4 * |s'.threads|;
  }

  // ---------------------------------------------------------------- whole runs

  ghost predicate IsRun(s: State, steps: seq<Step>)
    decreases steps
  {
    steps == [] || (Enabled(s, steps[0]) && IsRun(Next(s, steps[0]), steps[1..]))
  }

  ghost function After(s: State, steps: seq<Step>): State
    requires IsRun(s, steps)
    decreases steps
  {
    if steps == [] then s else After(Next(s, steps[0]), steps[1..])
  }

  ghost predicate IsWorkingRun(s: State, steps: seq<Step>)
    decreases steps
  {
    steps == [] || (Working(s, steps[0]) && IsWorkingRun(Next(s, steps[0]), steps[1..]))
  }

  /** Every state of every run of every pool satisfies the invariant. */
  lemma {:induction false} RunKeepsInv(s: State, steps: seq<Step>)
    requires Inv(s) && IsRun(s, steps)
    ensures Inv(After(s, steps))
    decreases steps
  {
    if steps != [] {
      InvKept(s, steps[0]);
      RunKeepsInv(Next(s, steps[0]), steps[1..]);
    }
  }

  lemma ReachableInv(workers: nat, callers: nat, steps: seq<Step>)
    requires workers >= 1 && IsRun(Initial(workers, callers), steps)
    ensures Inv(After(Initial(workers, callers), steps))
  {
    InitialInv(workers, callers);
    RunKeepsInv(Initial(workers, callers), steps);
  }

  // ---------------------------------------------------------------- runs with new calls

  /** The work that a step brings in from outside: a call its jobs and its own return, a shutdown its join. */
  function NewWork(step: Step): nat {
    match step
    case Call(_, count) => 5 * count + 2
    case Shutdown(_) => 2
    case _ => 0
  }

  /** How much a step that is not work itself can raise the bound, in a pool with that many threads. */
  function Raise(threads: nat, step: Step): nat {
    (NewWork(step) + 1) * (4 * threads + 1)
  }

  lemma {:induction false} WorkPush(threads: seq<seq<Frame>>, t: nat, f: Frame)
    requires t < |threads|
    ensures ThreadsWork(threads[t := threads[t] + [f]]) == ThreadsWork(threads) + FrameWork(f)
  {
    WorkUpdate(threads, t, threads[t] + [f]);
    assert Pop(threads[t] + [f]) == threads[t];
  }

  /** A step that is not work leaves the work as it is, except for what it brings in. */
  lemma OtherStepWork(s: State, step: Step)
    requires Enabled(s, step) && !Working(s, step)
    ensures Work(Next(s, step)) <= Work(s) + NewWork(step) && |Next(s, step).threads| == |s.threads|
  {
    var t, s' := step.thread, Next(s, step);
    match step {
      case Call(_, count) =>
        if count > 0 && !s.stopping { WorkPush(s.threads, t, Run(|s.groups|, Publish)); }
      case Shutdown(_) =>
        WorkPush(s.threads, t, Destroy(Announce));
      case BodyEnds(_, _) =>
      case SpuriousWake(_) =>
        WorkUpdate(s.threads, t, s'.threads[t]);
        assert Pop(s'.threads[t]) == Pop(s.threads[t]);
      case Proceed(_) =>
        WorkUpdate(s.threads, t, s'.threads[t]);
        assert Pop(s'.threads[t]) == Pop(s.threads[t]);
    }
  }

  lemma OtherStepRaises(s: State, step: Step)
    requires Enabled(s, step) && !Working(s, step)
    ensures Bound(Next(s, step)) <= Bound(s) + Raise(|s.threads|, step) && |Next(s, step).threads| == |s.threads|
  {
    OtherStepWork(s, step);
    RaisedBy(Work(Next(s, step)), Work(s), NewWork(step), 4 * |s.threads| + 1);
  }

  lemma RaisedBy(a: nat, b: nat, more: nat, k: nat)
    requires a <= b + more
    ensures a * k + k <= b * k + (more + 1) * k
  {
    assert b * k + (more + 1) * k == a * k + k + (b + more - a) * k;
  }

  /** The working steps of a run. */
  ghost function WorkingSteps(s: State, steps: seq<Step>): nat
    requires IsRun(s, steps)
    decreases steps
  {
    if steps == [] then 0 else WorkingSteps(Next(s, steps[0]), steps[1..]) + if Working(s, steps[0]) then 1 else 0
  }

  /** What the other steps of a run can add to the work. */
  ghost function Raised(s: State, steps: seq<Step>): nat
    requires IsRun(s, steps)
    decreases steps
  {
    if steps == [] then 0
    else Raised(Next(s, steps[0]), steps[1..]) + if Working(s, steps[0]) then 0 else Raise(|s.threads|, steps[0])
  }

  /**
   However it is scheduled and whatever is called on the way, a run takes no more working steps than the work at
   its start and the work brought in by its calls allow, and it can only come to rest when everything is done.
   */
  lemma {:induction false} WorkCompletes(s: State, steps: seq<Step>)
    requires Inv(s) && IsRun(s, steps)
    ensures WorkingSteps(s, steps) <= Bound(s) + Raised(s, steps)
    ensures Stuck(After(s, steps)) ==> Finished(After(s, steps))
    decreases steps
  {
    if steps == [] {
      DeadlockFreedom(s);
    } else {
      InvKept(s, steps[0]);
      if Working(s, steps[0]) { WorkingStepDecreases(s, steps[0]); } else { OtherStepRaises(s, steps[0]); }
      WorkCompletes(Next(s, steps[0]), steps[1..]);
    }
  }

  /** A run of working steps only is no longer than the work at its start. */
  lemma {:induction false} OnlyWorking(s: State, steps: seq<Step>)
    requires IsWorkingRun(s, steps)
    ensures IsRun(s, steps) && WorkingSteps(s, steps) == |steps| && Raised(s, steps) == 0
    decreases steps
  {
    if steps != [] { OnlyWorking(Next(s, steps[0]), steps[1..]); }
  }

  /** No run of any pool ever reaches a deadlock: unless everything is finished, some thread can work. */
  lemma ReachableProgress(workers: nat, callers: nat, steps: seq<Step>)
    requires workers >= 1 && IsRun(Initial(workers, callers), steps)
    ensures var s := After(Initial(workers, callers), steps);
      Finished(s) || exists step :: Working(s, step)
  {
    ReachableInv(workers, callers, steps);
    DeadlockFreedom(After(Initial(workers, callers), steps));
  }

  /**
   After any run of any pool, every further run, with all the calls in it, takes a bounded number of working
   steps, and rests only when everything is done; without calls the bound is the work that was left.
   */
  lemma ReachableCompletes(workers: nat, callers: nat, steps: seq<Step>, rest: seq<Step>)
    requires workers >= 1 && IsRun(Initial(workers, callers), steps)
    requires IsRun(After(Initial(workers, callers), steps), rest)
    ensures var s := After(Initial(workers, callers), steps);
      && WorkingSteps(s, rest) <= Bound(s) + Raised(s, rest)
      && (Stuck(After(s, rest)) ==> Finished(After(s, rest)))
      && (IsWorkingRun(s, rest) ==> |rest| <= Bound(s))
  {
    ReachableInv(workers, callers, steps);
    var s := After(Initial(workers, callers), steps);
    WorkCompletes(s, rest);
    if IsWorkingRun(s, rest) { OnlyWorking(s, rest); }
  }

  /** From every reachable state some schedule finishes everything without a single new call. */
  lemma CanFinish(s: State) returns (steps: seq<Step>)
    requires Inv(s)
    ensures IsWorkingRun(s, steps) && IsRun(s, steps) && Finished(After(s, steps))
    decreases Bound(s)
  {
    if Finished(s) {
      steps := [];
    } else {
      DeadlockFreedom(s);
      var step :| Working(s, step);
      InvKept(s, step);
      WorkingStepDecreases(s, step);
      var rest := CanFinish(Next(s, step));
      steps := [step] + rest;
    }
  }

  /**
   When `run` returns, each of its jobs has been taken exactly once and has finished, and
   it rethrows an exception exactly when one of its jobs threw, namely that of one of them.
   */
  lemma ReturnMeansDone(s: State, t: nat)
    requires Inv(s) && CanProceed(s, t) && Top(s.threads[t]).Run? && Top(s.threads[t]).rpc == Collect
    ensures var g, s' := Top(s.threads[t]).group, Next(s, Proceed(t));
      && (forall i | 0 <= i < s.groups[g].size ::
            s.started[Job(g, i)] == 1 && Job(g, i) in s.done && Job(g, i) !in s.queue && !IsRunning(s, Job(g, i)))
      && g in s'.returned
      && (s'.returned[g].Some? <==> exists j :: j in s.failed && j.group == g)
      && (s'.returned[g].Some? ==> s'.returned[g].value in s.failed && s'.returned[g].value.group == g)
  {
    var g := Top(s.threads[t]).group;
    assert NotLost(s, Top(s.threads[t]));
    assert Undone(s, g) == {};
    forall i | 0 <= i < s.groups[g].size
      ensures Job(g, i) in s.done && s.started[Job(g, i)] == 1
    {
      assert Known(s, Job(g, i));
      assert Job(g, i) !in Undone(s, g);
    }
  }

  /** The destructor returns only after the queue is drained and every job ever queued has run exactly once. */
  lemma ShutdownDrains(s: State, t: nat)
    requires Inv(s) && CanProceed(s, t) && Top(s.threads[t]) == Destroy(Join)
    ensures s.queue == [] && forall j | Known(s, j) :: j in s.done && s.started[j] == 1
  {
    hide Ordered, ErrorsRecorded, FramesKnown, Undone;
    forall u: nat, p: nat, j ensures !Holds(s, u, p, j) {
      if u < s.workers {
        assert WorkerStack(s.threads[u]);
        assert WorkerSlot(Top(s.threads[u]), |s.threads[u]| - 1, true);
      } else if u < |s.threads| {
        assert CallerStack(s.threads[u]);
      }
    }
    assert NotLost(s, Top(s.threads[0]));
    assert forall j | Known(s, j) :: !IsRunning(s, j);
  }

  /** A worker leaves its loop only in a stopping pool with an empty queue, which stays empty. */
  lemma ExitedQueueStaysEmpty(s: State, step: Step, w: nat)
    requires Inv(s) && Enabled(s, step) && w < s.workers && Top(s.threads[w]) == Loop(LExited)
    ensures s.queue == [] && Next(s, step).queue == [] && Top(Next(s, step).threads[w]) == Loop(LExited)
  {
    assert NotLost(s, Top(s.threads[w]));
    OthersSimilar(s, step);
    if w != step.thread { assert Similar(s.threads[w], Next(s, step).threads[w]); }
  }
}
