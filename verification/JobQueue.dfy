/**
 The debug server's queue of evaluations (src/debug_server.cpp): client threads
 queue jobs and wait, pumps take and evaluate them, and a client that waits too
 long withdraws its job. The queue is under a lock and the count beside it is
 not, so each is a step of its own.
*/
module JobQueue {
  import opened Sequences
  import opened Wrappers

  type JobId = nat
  type ClientId = nat
  type PumpId = nat
  type Result = nat

  /** Where a client thread is: between its queue and counter updates when `Pushed` or `Erased`. */
  datatype ClientPhase = Idle | Pushed(job: JobId) | Waiting(job: JobId) | TimedOut(job: JobId) | Erased(job: JobId)

  /** Where a pump is: between its queue and counter updates when `Took`. */
  datatype PumpPhase = Free | Took(job: JobId) | Running(job: JobId) | Evaluated(job: JobId)

  datatype Pump = Pump(client: bool, phase: PumpPhase)

  datatype Place = Queued | Taken(pump: PumpId) | Withdrawn | Finished

  /**
   A job: which context it is for, whether it is done and with what result; and
   for the statements below, whose it is, where it is, how often it was removed
   from the queue, counted down and evaluated, and what its evaluation gave.
  */
  datatype Job = Job(
    client: bool, done: bool, result: Result,
    owner: ClientId, place: Place, removals: nat, decrements: nat, evaluations: nat, outcome: Option<Result>)

  datatype Reply = Answer(result: Result) | NoAnswer

  datatype State = State(
    queue: seq<JobId>,
    pending: int,
    clientPumps: bool,
    jobs: map<JobId, Job>,
    clients: map<ClientId, ClientPhase>,
    pumps: map<PumpId, Pump>,
    replies: map<JobId, Reply>)

  datatype Step =
    | Push(c: ClientId, j: JobId, client: bool)
    | Count(c: ClientId)
    | Wake(c: ClientId)
    | TimeOut(c: ClientId)
    | Withdraw(c: ClientId)
    | Uncount(c: ClientId)
    | PumpStarts
    | Take(p: PumpId)
    | UncountTaken(p: PumpId)
    | Evaluate(p: PumpId, result: Result)
    | Publish(p: PumpId)

  // ---- taking a job ----

  /** A pump evaluates its own context's jobs; the story thread also the client's, until the client pumps itself. */
  predicate Eligible(job: Job, clientJobs: bool, clientPumps: bool) {
    job.client == clientJobs || (!clientJobs && !clientPumps)
  }

  /** The first job of the queue that a pump may take, or the queue's length. */
  predicate IsFirst(s: State, clientJobs: bool, i: nat) {
    && i <= |s.queue|
    && (forall k :: 0 <= k < i ==> s.queue[k] in s.jobs && !Eligible(s.jobs[s.queue[k]], clientJobs, s.clientPumps))
    && (i < |s.queue| ==> s.queue[i] in s.jobs && Eligible(s.jobs[s.queue[i]], clientJobs, s.clientPumps))
  }

  method FindJob(s: State, clientJobs: bool) returns (i: nat)
    requires forall j :: j in s.queue ==> j in s.jobs
    ensures IsFirst(s, clientJobs, i)
    ensures i <= |s.queue| && (i < |s.queue| ==> (clientJobs ==> s.jobs[s.queue[i]].client))
    ensures !clientJobs && !s.clientPumps ==> i == 0
    ensures clientJobs || s.clientPumps ==>
      && (forall k :: 0 <= k < i ==> s.jobs[s.queue[k]].client != clientJobs)
      && (i < |s.queue| ==> s.jobs[s.queue[i]].client == clientJobs)
  {
    i := 0;
    while i < |s.queue| && !Eligible(s.jobs[s.queue[i]], clientJobs, s.clientPumps)
      invariant i <= |s.queue|
      invariant forall k :: 0 <= k < i ==>
        s.queue[k] in s.jobs && !Eligible(s.jobs[s.queue[k]], clientJobs, s.clientPumps)
    {
      i := i + 1;
    }
    FirstLaw(s, clientJobs, i);
  }

  /**
   Before the client pumps, the server's pump takes what comes first, whatever
   that is for; after that each pump takes the first job of its own context.
  */
  lemma FirstLaw(s: State, clientJobs: bool, i: nat)
    requires forall j :: j in s.queue ==> j in s.jobs
    ensures !clientJobs && !s.clientPumps ==> (IsFirst(s, clientJobs, i) <==> i == 0)
    ensures clientJobs || s.clientPumps ==>
      (IsFirst(s, clientJobs, i) <==>
        && i <= |s.queue|
        && (forall k :: 0 <= k < i ==> s.jobs[s.queue[k]].client != clientJobs)
        && (i < |s.queue| ==> s.jobs[s.queue[i]].client == clientJobs))
  {
    assert IsFirst(s, clientJobs, i) && i > 0 ==> !Eligible(s.jobs[s.queue[0]], clientJobs, s.clientPumps);
  }

  function Without(queue: seq<JobId>, i: nat): seq<JobId> {
    if i < |queue| then queue[..i] + queue[i + 1..] else queue
  }

  // ---- steps ----

  predicate ClientAt(s: State, c: ClientId, phase: ClientPhase) {
    c in s.clients && s.clients[c] == phase
  }

  predicate PumpAt(s: State, p: PumpId, phase: PumpPhase) {
    p in s.pumps && s.pumps[p].phase == phase
  }

  function To(s: State, c: ClientId, phase: ClientPhase): State {
    s.(clients := s.clients[c := phase])
  }

  function PumpTo(s: State, p: PumpId, phase: PumpPhase): State
    requires p in s.pumps
  {
    s.(pumps := s.pumps[p := s.pumps[p].(phase := phase)])
  }

  function Removed(s: State, j: JobId, i: nat, place: Place): State
    requires j in s.jobs
  {
    var job := s.jobs[j];
    s.(queue := Without(s.queue, i), jobs := s.jobs[j := job.(place := place, removals := job.removals + 1)])
  }

  function CountedDown(s: State, j: JobId): State
    requires j in s.jobs
  {
    s.(pending := s.pending - 1, jobs := s.jobs[j := s.jobs[j].(decrements := s.jobs[j].decrements + 1)])
  }

  /** A client queues a job of its own. */
  predicate DoPush(s: State, s': State, c: ClientId, j: JobId, client: bool) {
    && ClientAt(s, c, Idle) && j !in s.jobs
    && s' == To(s, c, Pushed(j)).(
         queue := s.queue + [j], jobs := s.jobs[j := Job(client, false, 0, c, Queued, 0, 0, 0, None)])
  }

  predicate DoCount(s: State, s': State, c: ClientId) {
    && c in s.clients && s.clients[c].Pushed?
    && s' == To(s, c, Waiting(s.clients[c].job)).(pending := s.pending + 1)
  }

  predicate DoWake(s: State, s': State, c: ClientId) {
    && c in s.clients && s.clients[c].Waiting? && s.clients[c].job in s.jobs && s.jobs[s.clients[c].job].done
    && s' == To(s, c, Idle).(replies := s.replies[s.clients[c].job := Answer(s.jobs[s.clients[c].job].result)])
  }

  predicate DoTimeOut(s: State, s': State, c: ClientId) {
    && c in s.clients && s.clients[c].Waiting? && s.clients[c].job in s.jobs && !s.jobs[s.clients[c].job].done
    && s' == To(s, c, TimedOut(s.clients[c].job))
  }

  predicate Erases(s: State, s': State, c: ClientId, i: nat) {
    && c in s.clients && s.clients[c].TimedOut?
    && i < |s.queue| && s.queue[i] == s.clients[c].job && s.queue[i] in s.jobs
    && s' == To(Removed(s, s.queue[i], i, Withdrawn), c, Erased(s.queue[i]))
  }

  predicate FindsItGone(s: State, s': State, c: ClientId) {
    && c in s.clients && s.clients[c].TimedOut? && s.clients[c].job !in s.queue
    && s' == To(s, c, Idle).(replies := s.replies[s.clients[c].job := NoAnswer])
  }

  /** A client that waited too long takes its job out of the queue, if it is there still. */
  ghost predicate DoWithdraw(s: State, s': State, c: ClientId) {
    FindsItGone(s, s', c) || exists i: nat :: Erases(s, s', c, i)
  }

  predicate DoUncount(s: State, s': State, c: ClientId) {
    && c in s.clients && s.clients[c].Erased? && s.clients[c].job in s.jobs
    && s' == To(CountedDown(s, s.clients[c].job), c, Idle).(replies := s.replies[s.clients[c].job := NoAnswer])
  }

  /** A pump takes the first job it may, or finds none. */
  ghost predicate DoTake(s: State, s': State, p: PumpId) {
    && PumpAt(s, p, Free)
    && exists i: nat :: IsFirst(s, s.pumps[p].client, i) &&
         if i == |s.queue| then s' == s else s' == PumpTo(Removed(s, s.queue[i], i, Taken(p)), p, Took(s.queue[i]))
  }

  predicate DoUncountTaken(s: State, s': State, p: PumpId) {
    && p in s.pumps && s.pumps[p].phase.Took? && s.pumps[p].phase.job in s.jobs
    && s' == PumpTo(CountedDown(s, s.pumps[p].phase.job), p, Running(s.pumps[p].phase.job))
  }

  predicate DoEvaluate(s: State, s': State, p: PumpId, result: Result) {
    && p in s.pumps && s.pumps[p].phase.Running? && s.pumps[p].phase.job in s.jobs
    && var j := s.pumps[p].phase.job;
       s' == PumpTo(s, p, Evaluated(j)).(
         jobs := s.jobs[j := s.jobs[j].(evaluations := s.jobs[j].evaluations + 1, outcome := Some(result))])
  }

  predicate DoPublish(s: State, s': State, p: PumpId) {
    && p in s.pumps && s.pumps[p].phase.Evaluated? && s.pumps[p].phase.job in s.jobs
    && var j := s.pumps[p].phase.job;
       && s.jobs[j].outcome.Some?
       && s' == PumpTo(s, p, Free).(
            jobs := s.jobs[j := s.jobs[j].(done := true, result := s.jobs[j].outcome.value, place := Finished)])
  }

  ghost predicate Next(s: State, step: Step, s': State) {
    match step
    case Push(c, j, client) => DoPush(s, s', c, j, client)
    case Count(c) => DoCount(s, s', c)
    case Wake(c) => DoWake(s, s', c)
    case TimeOut(c) => DoTimeOut(s, s', c)
    case Withdraw(c) => DoWithdraw(s, s', c)
    case Uncount(c) => DoUncount(s, s', c)
    case PumpStarts => s' == s.(clientPumps := true)
    case Take(p) => DoTake(s, s', p)
    case UncountTaken(p) => DoUncountTaken(s, s', p)
    case Evaluate(p, result) => DoEvaluate(s, s', p, result)
    case Publish(p) => DoPublish(s, s', p)
  }

  predicate Init(s: State) {
    && s.queue == [] && s.pending == 0 && !s.clientPumps && s.jobs == map[] && s.replies == map[]
    && (forall c :: c in s.clients ==> s.clients[c] == Idle)
    && (forall p :: p in s.pumps ==> s.pumps[p].phase == Free)
  }

  // ---- what every step keeps ----

  /** The counts of a job are told by where it is. */
  predicate JobOk(s: State, j: JobId)
    requires j in s.jobs
  {
    var job := s.jobs[j];
    && (job.place == Queued <==> j in s.queue)
    && job.owner in s.clients
    && match job.place
       case Queued =>
         job.removals == 0 && job.decrements == 0 && job.evaluations == 0 && !job.done && job.outcome == None
       case Taken(p) =>
         && p in s.pumps && s.pumps[p].phase != Free && s.pumps[p].phase.job == j
         && job.removals == 1 && job.decrements == (if s.pumps[p].phase.Took? then 0 else 1)
         && job.evaluations == (if s.pumps[p].phase.Evaluated? then 1 else 0) && !job.done
         && (job.evaluations == 1 <==> job.outcome.Some?)
       case Withdrawn =>
         && job.removals == 1 && job.decrements == (if s.clients[job.owner] == Erased(j) then 0 else 1)
         && job.evaluations == 0 && !job.done
       case Finished =>
         && job.removals == 1 && job.decrements == 1 && job.evaluations == 1 && job.done
         && job.outcome == Some(job.result)
  }

  predicate JobsOk(s: State) {
    forall j :: j in s.jobs ==> JobOk(s, j)
  }

  predicate QueueOk(s: State) {
    Distinct(s.queue) && forall j :: j in s.queue ==> j in s.jobs
  }

  /** A client's job is its own, and one that it erased is withdrawn. */
  predicate ClientOk(s: State, c: ClientId)
    requires c in s.clients
  {
    var phase := s.clients[c];
    phase != Idle ==>
      && phase.job in s.jobs && s.jobs[phase.job].owner == c
      && (phase.Erased? ==> s.jobs[phase.job].place == Withdrawn)
      && (phase.Pushed? || phase.Waiting? || phase.TimedOut? ==> s.jobs[phase.job].place != Withdrawn)
  }

  /** What a pump holds was taken by it, and a client's pump holds only client jobs. */
  predicate PumpOk(s: State, p: PumpId)
    requires p in s.pumps
  {
    s.pumps[p].phase != Free ==>
      && s.pumps[p].phase.job in s.jobs && s.jobs[s.pumps[p].phase.job].place == Taken(p)
      && (s.pumps[p].client ==> s.jobs[s.pumps[p].phase.job].client)
  }

  predicate ThreadsOk(s: State) {
    && (forall c :: c in s.clients ==> ClientOk(s, c))
    && (forall p :: p in s.pumps ==> PumpOk(s, p))
  }

  function PushedClients(s: State): set<ClientId> {
    set c | c in s.clients && s.clients[c].Pushed?
  }

  function ErasedClients(s: State): set<ClientId> {
    set c | c in s.clients && s.clients[c].Erased?
  }

  function TookPumps(s: State): set<PumpId> {
    set p | p in s.pumps && s.pumps[p].phase.Took?
  }

  /** The count is the queue's length, but for the threads between the two. */
  predicate CountOk(s: State) {
    s.pending + |PushedClients(s)| == |s.queue| + |ErasedClients(s)| + |TookPumps(s)|
  }

  predicate RepliesOk(s: State) {
    forall j :: j in s.replies && s.replies[j].Answer? ==>
      j in s.jobs && s.jobs[j].done && s.jobs[j].outcome == Some(s.replies[j].result)
  }

  predicate Inv(s: State) {
    JobsOk(s) && QueueOk(s) && ThreadsOk(s) && CountOk(s) && RepliesOk(s)
  }

  // ---- threads between their two updates ----

  /** A set that gains or loses one member. */
  lemma OneMember(a: set<nat>, b: set<nat>, x: nat, is': bool)
    requires forall y :: y in b <==> (if y == x then is' else y in a)
    ensures |b| == |a| - (if x in a then 1 else 0) + (if is' then 1 else 0)
  {
    assert b == if is' then a + {x} else a - {x};
  }

  /** A step that moves one client. */
  lemma ClientMoves(s: State, s': State, c: ClientId, phase: ClientPhase)
    requires c in s.clients && s'.clients == s.clients[c := phase]
    ensures |PushedClients(s')| ==
      |PushedClients(s)| - (if s.clients[c].Pushed? then 1 else 0) + (if phase.Pushed? then 1 else 0)
    ensures |ErasedClients(s')| ==
      |ErasedClients(s)| - (if s.clients[c].Erased? then 1 else 0) + (if phase.Erased? then 1 else 0)
  {
    OneMember(PushedClients(s), PushedClients(s'), c, phase.Pushed?);
    OneMember(ErasedClients(s), ErasedClients(s'), c, phase.Erased?);
  }

  lemma PumpMoves(s: State, s': State, p: PumpId, phase: PumpPhase)
    requires p in s.pumps && s'.pumps == s.pumps[p := s.pumps[p].(phase := phase)]
    ensures |TookPumps(s')| ==
      |TookPumps(s)| - (if s.pumps[p].phase.Took? then 1 else 0) + (if phase.Took? then 1 else 0)
  {
    OneMember(TookPumps(s), TookPumps(s'), p, phase.Took?);
  }

  lemma SameClients(s: State, s': State)
    requires s'.clients == s.clients
    ensures PushedClients(s') == PushedClients(s) && ErasedClients(s') == ErasedClients(s)
  {
  }

  lemma SamePumps(s: State, s': State)
    requires s'.pumps == s.pumps
    ensures TookPumps(s') == TookPumps(s)
  {
  }

  lemma WithoutAt(queue: seq<JobId>, i: nat, k: nat)
    requires i < |queue| && k < |queue| && k != i
    ensures var n := if k < i then k else k - 1;
      n < |Without(queue, i)| == |queue| - 1 && Without(queue, i)[n] == queue[k]
  {
  }

  lemma WithoutOne(queue: seq<JobId>, i: nat)
    requires Distinct(queue) && i < |queue|
    ensures Distinct(Without(queue, i)) && |Without(queue, i)| == |queue| - 1
    ensures forall j :: j in Without(queue, i) <==> j in queue && j != queue[i]
  {
    var rest := Without(queue, i);
    forall j | j in queue && j != queue[i]
      ensures j in rest
    {
      var k: nat :| k < |queue| && queue[k] == j;
      WithoutAt(queue, i, k);
    }
    WithoutFrom(queue, i);
    forall j | j in rest
      ensures j in queue && j != queue[i]
    {
      var k: nat :| k < |rest| && rest[k] == j;
      assert rest[k] == queue[if k < i then k else k + 1];
    }
  }

  lemma WithoutFrom(queue: seq<JobId>, i: nat)
    requires i < |queue|
    ensures |Without(queue, i)| == |queue| - 1
    ensures forall k :: 0 <= k < |queue| - 1 ==> Without(queue, i)[k] == queue[if k < i then k else k + 1]
  {
  }

  // ---- what a step leaves alone ----

  predicate OnJob(phase: ClientPhase, j: JobId) {
    phase == Idle || phase.job == j
  }

  predicate PumpOnJob(phase: PumpPhase, j: JobId) {
    phase == Free || phase.job == j
  }

  /** A step of a client about job `j`, or of none. */
  predicate ClientStep(s: State, s': State, c: Option<ClientId>, j: JobId) {
    if c == None then s'.clients == s.clients
    else
      && c.value in s.clients && c.value in s'.clients && s'.clients == s.clients[c.value := s'.clients[c.value]]
      && OnJob(s.clients[c.value], j) && OnJob(s'.clients[c.value], j)
  }

  predicate PumpStep(s: State, s': State, p: Option<PumpId>, j: JobId) {
    if p == None then s'.pumps == s.pumps
    else
      && p.value in s.pumps && p.value in s'.pumps && s'.pumps == s.pumps[p.value := s'.pumps[p.value]]
      && PumpOnJob(s.pumps[p.value].phase, j) && PumpOnJob(s'.pumps[p.value].phase, j)
  }

  predicate JobStep(s: State, s': State, j: JobId) {
    && s'.jobs.Keys == s.jobs.Keys + {j}
    && forall i :: i in s.jobs && i != j ==>
      i in s'.jobs && s'.jobs[i] == s.jobs[i] && (i in s'.queue <==> i in s.queue)
  }

  /** The other clients' jobs are not `j`, or `j` is withdrawn now if it was. */
  predicate ClientsKept(s: State, s': State, j: JobId, c: Option<ClientId>)
    requires j in s'.jobs
  {
    && (j in s.jobs ==> s'.jobs[j].owner == s.jobs[j].owner)
    && (if c == None then j in s.jobs ==> (s'.jobs[j].place == Withdrawn <==> s.jobs[j].place == Withdrawn)
        else c.value in s'.clients && ClientOk(s', c.value) && (j in s.jobs ==> s.jobs[j].owner == c.value))
  }

  /** Another pump that has `j` has it still. */
  predicate PumpsKept(s: State, s': State, j: JobId, p: Option<PumpId>)
    requires j in s'.jobs
  {
    && (j in s.jobs && s.jobs[j].place.Taken? && p != Some(s.jobs[j].place.pump) ==>
          s'.jobs[j].place == s.jobs[j].place && s'.jobs[j].client == s.jobs[j].client)
    && (p.Some? ==> p.value in s'.pumps && PumpOk(s', p.value))
  }

  predicate RepliesKept(s: State, s': State, j: JobId)
    requires j in s'.jobs
  {
    && (j in s.jobs && s.jobs[j].done ==> s'.jobs[j].done && s'.jobs[j].outcome == s.jobs[j].outcome)
    && (forall i :: i in s'.replies && i != j ==> i in s.replies && s'.replies[i] == s.replies[i])
    && (j in s'.replies && s'.replies[j].Answer? && (j !in s.replies || s'.replies[j] != s.replies[j]) ==>
          s'.jobs[j].done && s'.jobs[j].outcome == Some(s'.replies[j].result))
  }

  /** A step about job `j`, by client `c` or pump `p`, that leaves all three as they should be. */
  predicate Local(s: State, s': State, j: JobId, c: Option<ClientId>, p: Option<PumpId>) {
    && ClientStep(s, s', c, j) && PumpStep(s, s', p, j) && JobStep(s, s', j)
    && j in s'.jobs && JobOk(s', j)
    && ClientsKept(s, s', j, c) && PumpsKept(s, s', j, p) && RepliesKept(s, s', j)
  }

  lemma JobsLeft(s: State, s': State, j: JobId, c: Option<ClientId>, p: Option<PumpId>)
    requires JobsOk(s) && Local(s, s', j, c, p)
    ensures JobsOk(s')
  {
    hide RepliesKept, PumpsKept, ClientsKept;
    forall i | i in s'.jobs && i != j
      ensures JobOk(s', i)
    {
      assert JobOk(s, i);
    }
  }

  lemma ClientsLeft(s: State, s': State, j: JobId, c: Option<ClientId>, p: Option<PumpId>)
    requires ThreadsOk(s) && Local(s, s', j, c, p)
    ensures forall d :: d in s'.clients ==> ClientOk(s', d)
  {
    hide RepliesKept, PumpsKept, JobOk, PumpOk;
    forall d | d in s'.clients && c != Some(d)
      ensures ClientOk(s', d)
    {
      assert ClientOk(s, d);
    }
  }

  lemma PumpsLeft(s: State, s': State, j: JobId, c: Option<ClientId>, p: Option<PumpId>)
    requires ThreadsOk(s) && Local(s, s', j, c, p)
    ensures forall q :: q in s'.pumps ==> PumpOk(s', q)
  {
    hide RepliesKept, ClientsKept, JobOk, ClientOk;
    forall q | q in s'.pumps && p != Some(q)
      ensures PumpOk(s', q)
    {
      assert PumpOk(s, q);
    }
  }

  lemma RepliesLeft(s: State, s': State, j: JobId, c: Option<ClientId>, p: Option<PumpId>)
    requires RepliesOk(s) && Local(s, s', j, c, p)
    ensures RepliesOk(s')
  {
    hide PumpsKept, ClientsKept, JobOk, PumpStep, ClientStep;
  }

  lemma LocalKeeps(s: State, s': State, j: JobId, c: Option<ClientId>, p: Option<PumpId>)
    requires Inv(s) && Local(s, s', j, c, p) && QueueOk(s') && CountOk(s')
    ensures Inv(s')
  {
    hide Local, JobsOk, QueueOk, CountOk, RepliesOk, ClientOk, PumpOk;
    JobsLeft(s, s', j, c, p);
    ClientsLeft(s, s', j, c, p);
    PumpsLeft(s, s', j, c, p);
    RepliesLeft(s, s', j, c, p);
  }

  // ---- every step ----

  lemma PushIsLocal(s: State, s': State, c: ClientId, j: JobId, client: bool)
    requires QueueOk(s) && CountOk(s) && DoPush(s, s', c, j, client)
    ensures Local(s, s', j, Some(c), None)
  {
    hide CountOk;
  }

  lemma PushCounts(s: State, s': State, c: ClientId, j: JobId, client: bool)
    requires QueueOk(s) && CountOk(s) && DoPush(s, s', c, j, client)
    ensures QueueOk(s') && CountOk(s')
  {
    ClientMoves(s, s', c, Pushed(j));
    SamePumps(s, s');
    assert j !in s.queue;
    hide PushedClients, ErasedClients, TookPumps;
  }

  predicate ClientAbout(s: State, c: ClientId) {
    c in s.clients && s.clients[c] != Idle && s.clients[c].job in s.jobs && ClientOk(s, c) && JobOk(s, s.clients[c].job)
  }

  predicate PumpAbout(s: State, p: PumpId) {
    && p in s.pumps && s.pumps[p].phase != Free && s.pumps[p].phase.job in s.jobs
    && PumpOk(s, p) && JobOk(s, s.pumps[p].phase.job)
  }

  lemma CountIsLocal(s: State, s': State, c: ClientId)
    requires ClientAbout(s, c) && DoCount(s, s', c)
    ensures Local(s, s', s.clients[c].job, Some(c), None)
  {
  }

  lemma WakeIsLocal(s: State, s': State, c: ClientId)
    requires ClientAbout(s, c) && DoWake(s, s', c)
    ensures Local(s, s', s.clients[c].job, Some(c), None)
  {
  }

  lemma TimeOutIsLocal(s: State, s': State, c: ClientId)
    requires ClientAbout(s, c) && DoTimeOut(s, s', c)
    ensures Local(s, s', s.clients[c].job, Some(c), None)
  {
  }

  lemma GoneIsLocal(s: State, s': State, c: ClientId)
    requires ClientAbout(s, c) && FindsItGone(s, s', c)
    ensures Local(s, s', s.clients[c].job, Some(c), None)
  {
  }

  lemma EraseIsLocal(s: State, s': State, c: ClientId, i: nat)
    requires ClientAbout(s, c) && Erases(s, s', c, i) && QueueOk(s)
    ensures Local(s, s', s.clients[c].job, Some(c), None)
  {
    WithoutOne(s.queue, i);
    hide Distinct, Without;
  }

  lemma UncountIsLocal(s: State, s': State, c: ClientId)
    requires ClientAbout(s, c) && DoUncount(s, s', c)
    ensures Local(s, s', s.clients[c].job, Some(c), None)
  {
  }

  /** A client's step moves the count by as much as it moves the queue and the threads in between. */
  lemma ClientCounts(s: State, s': State, c: ClientId, step: Step)
    requires QueueOk(s) && CountOk(s) && c in s.clients && s.clients[c] != Idle && Next(s, step, s')
    requires step == Count(c) || step == Wake(c) || step == TimeOut(c) || step == Uncount(c)
    ensures QueueOk(s') && CountOk(s')
  {
    var phase := s'.clients[c];
    ClientMoves(s, s', c, phase);
    SamePumps(s, s');
    hide PushedClients, ErasedClients, TookPumps, Distinct;
  }

  lemma GoneCounts(s: State, s': State, c: ClientId)
    requires QueueOk(s) && CountOk(s) && FindsItGone(s, s', c)
    ensures QueueOk(s') && CountOk(s')
  {
    SamePumps(s, s');
    ClientMoves(s, s', c, Idle);
    hide PushedClients, ErasedClients, TookPumps, Distinct;
  }

  lemma EraseCounts(s: State, s': State, c: ClientId, i: nat)
    requires QueueOk(s) && CountOk(s) && Erases(s, s', c, i)
    ensures QueueOk(s') && CountOk(s')
  {
    SamePumps(s, s');
    ClientMoves(s, s', c, Erased(s.queue[i]));
    WithoutOne(s.queue, i);
    hide PushedClients, ErasedClients, TookPumps, Distinct, Without;
  }

  lemma TakeIsLocal(s: State, s': State, p: PumpId, i: nat)
    requires QueueOk(s) && PumpAt(s, p, Free)
    requires i < |s.queue| && IsFirst(s, s.pumps[p].client, i) && JobOk(s, s.queue[i])
    requires s' == PumpTo(Removed(s, s.queue[i], i, Taken(p)), p, Took(s.queue[i]))
    ensures Local(s, s', s.queue[i], None, Some(p))
  {
    WithoutOne(s.queue, i);
    hide Distinct, Without;
  }

  lemma TakeCounts(s: State, s': State, p: PumpId, i: nat)
    requires QueueOk(s) && CountOk(s) && PumpAt(s, p, Free) && i < |s.queue| && s.queue[i] in s.jobs
    requires s' == PumpTo(Removed(s, s.queue[i], i, Taken(p)), p, Took(s.queue[i]))
    ensures QueueOk(s') && CountOk(s')
  {
    PumpMoves(s, s', p, Took(s.queue[i]));
    SameClients(s, s');
    WithoutOne(s.queue, i);
    hide PushedClients, ErasedClients, TookPumps, Distinct, Without;
  }

  lemma UncountTakenIsLocal(s: State, s': State, p: PumpId)
    requires PumpAbout(s, p) && DoUncountTaken(s, s', p)
    ensures Local(s, s', s.pumps[p].phase.job, None, Some(p))
  {
  }

  lemma EvaluateIsLocal(s: State, s': State, p: PumpId, result: Result)
    requires PumpAbout(s, p) && DoEvaluate(s, s', p, result)
    ensures Local(s, s', s.pumps[p].phase.job, None, Some(p))
  {
  }

  lemma PublishIsLocal(s: State, s': State, p: PumpId)
    requires PumpAbout(s, p) && DoPublish(s, s', p)
    ensures Local(s, s', s.pumps[p].phase.job, None, Some(p))
  {
  }

  lemma PumpCounts(s: State, s': State, p: PumpId, step: Step)
    requires QueueOk(s) && CountOk(s) && p in s.pumps && s.pumps[p].phase != Free && Next(s, step, s')
    requires step == UncountTaken(p) || (step.Evaluate? && step.p == p) || step == Publish(p)
    ensures QueueOk(s') && CountOk(s')
  {
    PumpMoves(s, s', p, s'.pumps[p].phase);
    SameClients(s, s');
    hide PushedClients, ErasedClients, TookPumps, Distinct;
  }

  lemma ClientParts(s: State, c: ClientId)
    requires Inv(s) && c in s.clients && s.clients[c] != Idle
    ensures QueueOk(s) && CountOk(s) && ClientAbout(s, c)
  {
    hide QueueOk, CountOk, RepliesOk, JobOk;
    assert ClientOk(s, c);
  }

  lemma PumpParts(s: State, p: PumpId)
    requires Inv(s) && p in s.pumps && s.pumps[p].phase != Free
    ensures QueueOk(s) && CountOk(s) && PumpAbout(s, p)
  {
    hide QueueOk, CountOk, RepliesOk, JobOk;
    assert PumpOk(s, p);
  }

  lemma QueueParts(s: State)
    requires Inv(s)
    ensures QueueOk(s) && CountOk(s) && forall i :: 0 <= i < |s.queue| ==> s.queue[i] in s.jobs && JobOk(s, s.queue[i])
  {
    hide CountOk, RepliesOk, JobOk, ThreadsOk;
  }

  lemma ClientStepKeeps(s: State, s': State, c: ClientId, step: Step)
    requires Inv(s) && c in s.clients && s.clients[c] != Idle && Next(s, step, s')
    requires step == Count(c) || step == Wake(c) || step == TimeOut(c) || step == Uncount(c)
    ensures Inv(s')
  {
    ClientParts(s, c);
    hide Inv, Local, ClientAbout, QueueOk, CountOk, DoCount, DoWake, DoTimeOut, DoUncount;
    ClientCounts(s, s', c, step);
    match step {
      case Count(_) => CountIsLocal(s, s', c);
      case Wake(_) => WakeIsLocal(s, s', c);
      case TimeOut(_) => TimeOutIsLocal(s, s', c);
      case Uncount(_) => UncountIsLocal(s, s', c);
    }
    LocalKeeps(s, s', s.clients[c].job, Some(c), None);
  }

  lemma WithdrawKeeps(s: State, s': State, c: ClientId)
    requires Inv(s) && DoWithdraw(s, s', c)
    ensures Inv(s')
  {
    ClientParts(s, c);
    hide Inv, Local, ClientAbout, QueueOk, CountOk;
    if FindsItGone(s, s', c) {
      GoneIsLocal(s, s', c);
      GoneCounts(s, s', c);
    } else {
      var i: nat :| Erases(s, s', c, i);
      EraseIsLocal(s, s', c, i);
      EraseCounts(s, s', c, i);
    }
    LocalKeeps(s, s', s.clients[c].job, Some(c), None);
  }

  lemma PumpStepKeeps(s: State, s': State, p: PumpId, step: Step)
    requires Inv(s) && p in s.pumps && s.pumps[p].phase != Free && Next(s, step, s')
    requires step == UncountTaken(p) || (step.Evaluate? && step.p == p) || step == Publish(p)
    ensures Inv(s')
  {
    PumpParts(s, p);
    hide Inv, Local, PumpAbout, QueueOk, CountOk, DoUncountTaken, DoEvaluate, DoPublish;
    PumpCounts(s, s', p, step);
    match step {
      case UncountTaken(_) => UncountTakenIsLocal(s, s', p);
      case Evaluate(_, result) => EvaluateIsLocal(s, s', p, result);
      case Publish(_) => PublishIsLocal(s, s', p);
    }
    LocalKeeps(s, s', s.pumps[p].phase.job, None, Some(p));
  }

  lemma PushKeeps(s: State, s': State, c: ClientId, j: JobId, client: bool)
    requires Inv(s) && DoPush(s, s', c, j, client)
    ensures Inv(s')
  {
    QueueParts(s);
    hide Inv, Local, QueueOk, CountOk, DoPush;
    PushIsLocal(s, s', c, j, client);
    PushCounts(s, s', c, j, client);
    LocalKeeps(s, s', j, Some(c), None);
  }

  lemma TakeKeeps(s: State, s': State, p: PumpId)
    requires Inv(s) && DoTake(s, s', p)
    ensures Inv(s')
  {
    QueueParts(s);
    hide Inv, Local, QueueOk, CountOk, JobOk;
    var i: nat :| IsFirst(s, s.pumps[p].client, i) &&
      if i == |s.queue| then s' == s else s' == PumpTo(Removed(s, s.queue[i], i, Taken(p)), p, Took(s.queue[i]));
    if i < |s.queue| {
      TakeIsLocal(s, s', p, i);
      TakeCounts(s, s', p, i);
      LocalKeeps(s, s', s.queue[i], None, Some(p));
    }
  }

  lemma PumpStartsKeeps(s: State, s': State)
    requires Inv(s) && s' == s.(clientPumps := true)
    ensures Inv(s')
  {
    assert forall j :: j in s.jobs ==> JobOk(s', j) == JobOk(s, j);
    assert forall c :: c in s.clients ==> ClientOk(s', c) == ClientOk(s, c);
    assert forall p :: p in s.pumps ==> PumpOk(s', p) == PumpOk(s, p);
    SameClients(s, s');
    SamePumps(s, s');
    hide PushedClients, ErasedClients, TookPumps, Distinct, JobOk, ClientOk, PumpOk;
  }

  /** Every step of any thread keeps the invariant. */
  lemma StepInv(s: State, step: Step, s': State)
    requires Inv(s) && Next(s, step, s')
    ensures Inv(s')
  {
    hide Inv;
    match step
    case Push(c, j, client) => PushKeeps(s, s', c, j, client);
    case Count(c) => ClientStepKeeps(s, s', c, step);
    case Wake(c) => ClientStepKeeps(s, s', c, step);
    case TimeOut(c) => ClientStepKeeps(s, s', c, step);
    case Withdraw(c) => WithdrawKeeps(s, s', c);
    case Uncount(c) => ClientStepKeeps(s, s', c, step);
    case PumpStarts => PumpStartsKeeps(s, s');
    case Take(p) => TakeKeeps(s, s', p);
    case UncountTaken(p) => PumpStepKeeps(s, s', p, step);
    case Evaluate(p, _) => PumpStepKeeps(s, s', p, step);
    case Publish(p) => PumpStepKeeps(s, s', p, step);
  }

  // ---- every run ----

  /** A run: each state follows from the one before by a step of some thread. */
  ghost predicate Run(states: seq<State>) {
    && states != [] && Init(states[0])
    && forall i :: 0 <= i < |states| - 1 ==> Follows(states[i], states[i + 1])
  }

  ghost predicate Follows(s: State, s': State) {
    exists step :: Next(s, step, s')
  }

  lemma InitInv(s: State)
    requires Init(s)
    ensures Inv(s)
  {
    assert PushedClients(s) == {} && ErasedClients(s) == {} && TookPumps(s) == {};
  }

  lemma {:induction false} RunInv(states: seq<State>, i: nat)
    requires Run(states) && i < |states|
    ensures Inv(states[i])
  {
    hide Inv, Next, Init;
    if i == 0 {
      InitInv(states[0]);
    } else {
      RunInv(states, i - 1);
      assert Follows(states[i - 1], states[i - 1 + 1]);
      var step :| Next(states[i - 1], step, states[i]);
      StepInv(states[i - 1], step, states[i]);
    }
  }

  /** With no thread between its two updates, the count is the queue's length. */
  lemma PendingIsLength(states: seq<State>, i: nat)
    requires Run(states) && i < |states|
    requires PushedClients(states[i]) == {} && ErasedClients(states[i]) == {} && TookPumps(states[i]) == {}
    ensures states[i].pending == |states[i].queue|
  {
    RunInv(states, i);
    hide JobsOk, QueueOk, ThreadsOk, RepliesOk, Run;
  }

  /**
   A job is removed from the queue once at most, counted down once at most and
   never before, and evaluated once at most, by a pump that took it; one that
   was withdrawn is never evaluated.
  */
  lemma EachJobOnce(states: seq<State>, i: nat, j: JobId)
    requires Run(states) && i < |states| && j in states[i].jobs
    ensures var job := states[i].jobs[j];
      && job.evaluations <= job.decrements <= job.removals <= 1
      && (job.removals == 0 <==> j in states[i].queue)
      && (job.place == Withdrawn ==> job.evaluations == 0)
      && (job.done ==> job.evaluations == 1)
  {
    RunInv(states, i);
    assert JobOk(states[i], j);
    hide JobsOk, QueueOk, ThreadsOk, CountOk, RepliesOk, Run;
  }

  /** A pump of the client evaluates no job of the server's. */
  lemma ClientPumpsClientJobs(states: seq<State>, i: nat, p: PumpId)
    requires Run(states) && i < |states| && p in states[i].pumps && states[i].pumps[p].client
    requires states[i].pumps[p].phase != Free
    ensures states[i].pumps[p].phase.job in states[i].jobs && states[i].jobs[states[i].pumps[p].phase.job].client
  {
    RunInv(states, i);
    assert PumpOk(states[i], p);
    hide JobsOk, QueueOk, CountOk, RepliesOk, Run;
  }

  /** What a client is answered is what its job's one evaluation gave. */
  lemma AnswersAreResults(states: seq<State>, i: nat, j: JobId)
    requires Run(states) && i < |states| && j in states[i].replies && states[i].replies[j].Answer?
    ensures j in states[i].jobs && states[i].jobs[j].evaluations == 1
    ensures states[i].jobs[j].outcome == Some(states[i].replies[j].result)
  {
    RunInv(states, i);
    assert JobOk(states[i], j);
    hide JobsOk, QueueOk, CountOk, ThreadsOk, Run;
  }

  /** Once withdrawn, a job stays withdrawn, so it is evaluated never after. */
  lemma {:induction false} WithdrawnForGood(states: seq<State>, i: nat, k: nat, j: JobId)
    requires Run(states) && i <= k < |states| && j in states[i].jobs && states[i].jobs[j].place == Withdrawn
    ensures j in states[k].jobs && states[k].jobs[j].place == Withdrawn && states[k].jobs[j].evaluations == 0
    decreases k
  {
    hide Inv, Next, Init;
    if k == i {
      EachJobOnce(states, k, j);
    } else {
      WithdrawnForGood(states, i, k - 1, j);
      RunInv(states, k - 1);
      assert Follows(states[k - 1], states[k - 1 + 1]);
      var step :| Next(states[k - 1], step, states[k]);
      StaysWithdrawn(states[k - 1], step, states[k], j);
      EachJobOnce(states, k, j);
    }
  }

  lemma StaysWithdrawn(s: State, step: Step, s': State, j: JobId)
    requires Inv(s) && Next(s, step, s') && j in s.jobs && s.jobs[j].place == Withdrawn
    ensures j in s'.jobs && s'.jobs[j].place == Withdrawn
  {
    assert JobOk(s, j);
    if step.Publish? {
      assert PumpOk(s, step.p);
    }
    hide JobsOk, QueueOk, CountOk, ThreadsOk, RepliesOk;
  }

  // ---- that jobs are taken, and in what order ----

  /** A pump that is free takes the head of the queue off it. */
  ghost predicate TakesHead(s: State, p: PumpId) {
    && s.queue != []
    && (exists s' :: Next(s, Take(p), s'))
    && forall s' :: Next(s, Take(p), s') ==> s'.queue == s.queue[1..] && PumpAt(s', p, Took(s.queue[0]))
  }

  /**
   In every state of a run with something in the queue, the server's pump takes
   what comes first, unless that is the client's and the client has begun to
   pump, and then the client's pump does.
  */
  lemma HeadIsTaken(states: seq<State>, i: nat, server: PumpId, client: PumpId)
    requires Run(states) && i < |states| && states[i].queue != []
    requires PumpAt(states[i], server, Free) && !states[i].pumps[server].client
    requires PumpAt(states[i], client, Free) && states[i].pumps[client].client
    ensures states[i].queue[0] in states[i].jobs
    ensures if states[i].clientPumps && states[i].jobs[states[i].queue[0]].client then TakesHead(states[i], client)
            else TakesHead(states[i], server)
  {
    RunInv(states, i);
    var s := states[i];
    assert s.queue[0] in s.queue;
    hide JobsOk, ThreadsOk, CountOk, RepliesOk, Run;
    if s.clientPumps && s.jobs[s.queue[0]].client {
      HeadTaken(s, client);
    } else {
      HeadTaken(s, server);
    }
  }

  lemma HeadTaken(s: State, p: PumpId)
    requires QueueOk(s) && s.queue != [] && PumpAt(s, p, Free)
    requires s.queue[0] in s.jobs
    requires s.jobs[s.queue[0]].client == s.pumps[p].client || (!s.pumps[p].client && !s.clientPumps)
    ensures TakesHead(s, p)
  {
    FirstLaw(s, s.pumps[p].client, 0);
    var s' := PumpTo(Removed(s, s.queue[0], 0, Taken(p)), p, Took(s.queue[0]));
    assert s'.queue == s.queue[1..];
    assert Next(s, Take(p), s');
    forall t | Next(s, Take(p), t)
      ensures t == s'
    {
      var i: nat :| IsFirst(s, s.pumps[p].client, i) &&
        if i == |s.queue| then t == s else t == PumpTo(Removed(s, s.queue[i], i, Taken(p)), p, Took(s.queue[i]));
      OneFirst(s, s.pumps[p].client, 0, i);
    }
  }

  lemma OneFirst(s: State, clientJobs: bool, i: nat, k: nat)
    requires IsFirst(s, clientJobs, i) && IsFirst(s, clientJobs, k)
    ensures i == k
  {
  }

  /** Jobs wait in the order they came: one is put at the end, or one is taken out. */
  lemma OrderKept(s: State, step: Step, s': State)
    requires Next(s, step, s')
    ensures step.Push? ==> s'.queue == s.queue + [step.j]
    ensures !step.Push? ==>
      s'.queue == s.queue || exists i: nat :: i < |s.queue| && s'.queue == s.queue[..i] + s.queue[i + 1..]
  {
    hide JobOk;
  }

  // ---- no thread is stuck ----

  /** A step that can be taken. */
  ghost predicate Can(s: State, step: Step) {
    exists s' :: Next(s, step, s')
  }

  predicate Replied(s: State, c: ClientId, j: JobId, reply: Reply) {
    ClientAt(s, c, Idle) && j in s.replies && s.replies[j] == reply
  }

  /** A client can queue any job that is new. */
  lemma CanPush(s: State, c: ClientId, j: JobId, client: bool)
    requires ClientAt(s, c, Idle) && j !in s.jobs
    ensures Can(s, Push(c, j, client))
  {
    var s' := To(s, c, Pushed(j)).(
      queue := s.queue + [j], jobs := s.jobs[j := Job(client, false, 0, c, Queued, 0, 0, 0, None)]);
    assert Next(s, Push(c, j, client), s');
  }

  /** What is queued is counted, and then waited for. */
  lemma CountedUp(s: State, c: ClientId, j: JobId)
    requires ClientAt(s, c, Pushed(j))
    ensures Can(s, Count(c))
    ensures forall s' :: Next(s, Count(c), s') ==> ClientAt(s', c, Waiting(j)) && s'.pending == s.pending + 1
  {
    assert Next(s, Count(c), To(s, c, Waiting(j)).(pending := s.pending + 1));
  }

  /** A client that waits wakes to its job's result once that is done, and before that, and only then, may give up. */
  lemma WaitEnds(s: State, c: ClientId, j: JobId)
    requires ClientAt(s, c, Waiting(j)) && j in s.jobs
    ensures Can(s, Wake(c)) <==> s.jobs[j].done
    ensures Can(s, TimeOut(c)) <==> !s.jobs[j].done
    ensures forall s' :: Next(s, Wake(c), s') ==> Replied(s', c, j, Answer(s.jobs[j].result))
    ensures forall s' :: Next(s, TimeOut(c), s') ==> ClientAt(s', c, TimedOut(j)) && s'.queue == s.queue
  {
    if s.jobs[j].done {
      assert Next(s, Wake(c), To(s, c, Idle).(replies := s.replies[j := Answer(s.jobs[j].result)]));
    } else {
      assert Next(s, TimeOut(c), To(s, c, TimedOut(j)));
    }
  }

  /** A client that gave up takes its job out of the queue, or, if a pump has it, has no answer. */
  lemma GivesUp(s: State, c: ClientId, j: JobId)
    requires ClientAt(s, c, TimedOut(j)) && j in s.jobs
    ensures Can(s, Withdraw(c))
    ensures forall s' :: Next(s, Withdraw(c), s') ==>
      if j in s.queue then ClientAt(s', c, Erased(j)) && j in s'.jobs && s'.jobs[j].place == Withdrawn
      else Replied(s', c, j, NoAnswer) && s'.queue == s.queue && s'.pending == s.pending
  {
    if j in s.queue {
      var i: nat :| i < |s.queue| && s.queue[i] == j;
      assert Erases(s, To(Removed(s, j, i, Withdrawn), c, Erased(j)), c, i);
      assert Next(s, Withdraw(c), To(Removed(s, j, i, Withdrawn), c, Erased(j)));
    } else {
      assert Next(s, Withdraw(c), To(s, c, Idle).(replies := s.replies[j := NoAnswer]));
    }
  }

  /** What was taken out is counted down, and has no answer. */
  lemma CountedDownAgain(s: State, c: ClientId, j: JobId)
    requires ClientAt(s, c, Erased(j)) && j in s.jobs
    ensures Can(s, Uncount(c))
    ensures forall s' :: Next(s, Uncount(c), s') ==> Replied(s', c, j, NoAnswer) && s'.pending == s.pending - 1
  {
    assert Next(s, Uncount(c), To(CountedDown(s, j), c, Idle).(replies := s.replies[j := NoAnswer]));
  }

  /** A job that a pump took is counted down, evaluated to whatever that gives, and done with that. */
  lemma TakenGoesOn(s: State, p: PumpId, j: JobId, result: Result)
    requires p in s.pumps && j in s.jobs
    ensures PumpAt(s, p, Took(j)) ==> Can(s, UncountTaken(p))
    ensures PumpAt(s, p, Took(j)) ==>
      forall s' :: Next(s, UncountTaken(p), s') ==> PumpAt(s', p, Running(j)) && s'.pending == s.pending - 1
    ensures PumpAt(s, p, Running(j)) ==> Can(s, Evaluate(p, result))
    ensures PumpAt(s, p, Running(j)) ==>
      forall s' :: Next(s, Evaluate(p, result), s') ==>
        PumpAt(s', p, Evaluated(j)) && j in s'.jobs && s'.jobs[j].outcome == Some(result)
    ensures PumpAt(s, p, Evaluated(j)) && s.jobs[j].outcome.Some? ==> Can(s, Publish(p))
    ensures PumpAt(s, p, Evaluated(j)) && s.jobs[j].outcome.Some? ==>
      forall s' :: Next(s, Publish(p), s') ==>
        PumpAt(s', p, Free) && j in s'.jobs && s'.jobs[j].done && s'.jobs[j].result == s.jobs[j].outcome.value
  {
    if PumpAt(s, p, Took(j)) {
      assert Next(s, UncountTaken(p), PumpTo(CountedDown(s, j), p, Running(j)));
    } else if PumpAt(s, p, Running(j)) {
      var job := s.jobs[j].(evaluations := s.jobs[j].evaluations + 1, outcome := Some(result));
      assert Next(s, Evaluate(p, result), PumpTo(s, p, Evaluated(j)).(jobs := s.jobs[j := job]));
    } else if PumpAt(s, p, Evaluated(j)) && s.jobs[j].outcome.Some? {
      var job := s.jobs[j].(done := true, result := s.jobs[j].outcome.value, place := Finished);
      assert Next(s, Publish(p), PumpTo(s, p, Free).(jobs := s.jobs[j := job]));
    }
  }

  /** In every state of a run a client that is not idle can go on. */
  lemma NoClientStuck(states: seq<State>, i: nat, c: ClientId)
    requires Run(states) && i < |states| && c in states[i].clients && states[i].clients[c] != Idle
    ensures var s := states[i];
      Can(s, Count(c)) || Can(s, Wake(c)) || Can(s, TimeOut(c)) || Can(s, Withdraw(c)) || Can(s, Uncount(c))
  {
    var s := states[i];
    RunInv(states, i);
    ClientParts(s, c);
    hide Run, Inv, Can;
    match s.clients[c] {
      case Pushed(j) => CountedUp(s, c, j);
      case Waiting(j) => WaitEnds(s, c, j);
      case TimedOut(j) => GivesUp(s, c, j);
      case Erased(j) => CountedDownAgain(s, c, j);
    }
  }

  lemma {:induction false} FirstExists(s: State, clientJobs: bool, n: nat) returns (i: nat)
    requires n <= |s.queue| && forall j :: j in s.queue ==> j in s.jobs
    requires forall k :: 0 <= k < n ==> s.queue[k] in s.jobs && !Eligible(s.jobs[s.queue[k]], clientJobs, s.clientPumps)
    ensures IsFirst(s, clientJobs, i)
    decreases |s.queue| - n
  {
    hide Eligible;
    if n < |s.queue| && !Eligible(s.jobs[s.queue[n]], clientJobs, s.clientPumps) {
      i := FirstExists(s, clientJobs, n + 1);
    } else {
      i := n;
    }
  }

  lemma CanTake(s: State, p: PumpId)
    requires PumpAt(s, p, Free) && forall j :: j in s.queue ==> j in s.jobs
    ensures Can(s, Take(p))
  {
    var i := FirstExists(s, s.pumps[p].client, 0);
    hide IsFirst;
    if i >= |s.queue| {
      assert i == |s.queue| by { FirstWithin(s, s.pumps[p].client, i); }
      assert DoTake(s, s, p);
      assert Next(s, Take(p), s);
    } else {
      var s' := PumpTo(Removed(s, s.queue[i], i, Taken(p)), p, Took(s.queue[i]));
      assert DoTake(s, s', p);
      assert Next(s, Take(p), s');
    }
  }

  lemma FirstWithin(s: State, clientJobs: bool, i: nat)
    requires IsFirst(s, clientJobs, i)
    ensures i <= |s.queue|
  {
  }

  /** In every state of a run a pump can go on, whatever an evaluation gives. */
  lemma NoPumpStuck(states: seq<State>, i: nat, p: PumpId, result: Result)
    requires Run(states) && i < |states| && p in states[i].pumps
    ensures var s := states[i];
      Can(s, Take(p)) || Can(s, UncountTaken(p)) || Can(s, Evaluate(p, result)) || Can(s, Publish(p))
  {
    var s := states[i];
    RunInv(states, i);
    QueueParts(s);
    hide Run, Inv, Can;
    if s.pumps[p].phase == Free {
      CanTake(s, p);
    } else {
      PumpParts(s, p);
      TakenGoesOn(s, p, s.pumps[p].phase.job, result);
    }
  }
}
