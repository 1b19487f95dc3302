/** Stream migration between nodes, pkg/cluster/stream_migration.go.

    A migration task moves one call from its source to its target through a Redis task record, the
    migration queue and pub/sub events.  `Instance` is everything that exists for one task:
    its record, the entries and events in flight, and the goroutines working on it, each
    stopped between two atomic operations, any of which may fail or be done with its answer
    lost.  `Cluster` adds the nodes' caches, the shared stream records and the
    InitiateMigration calls that have read their stream but not saved a task.  Queue entries
    are taken in any order, and entries and events may be lost.
    CancelMigration is not part of the protocol here. */
module StreamMigration {
  import opened Common
  import opened RtpState

  type TaskId = string

  const MAX_RETRIES := 3

  datatype Status = Pending | Preparing | Completing | Completed | Failed

  datatype Task = Task(
    call: CallId, source: NodeId, target: NodeId, snapshot: Stream,
    status: Status, retries: nat, newLocalPort: int, newRTCPPort: int)

  // -------------------------------------------------------------------------------------
  // One task

  /** The next operation of an AcceptMigration call. */
  datatype AcceptStage =
    | Fetch | SavePreparing | Handle | SaveCompleting | Store | SaveStream
    | SaveFailed | PublishFailed | SaveCompleted | PublishCompleted

  /** `id` tells apart the AcceptMigration calls of one task. */
  datatype Acceptor = Acceptor(id: nat, stage: AcceptStage, task: Task)

  /** The next operation of a handleOutgoingMigrationFailed call. */
  datatype RetryStage = FetchFailed | SaveRetry | Requeue | SaveGivenUp | Restore

  datatype Retrier = Retrier(stage: RetryStage, task: Task)

  /** The next operation of a handleOutgoingMigrationComplete call. */
  datatype CloseStage = FetchCompleted | Unregister | DeleteRecord

  /** The next operation of the InitiateMigration call that made the task. */
  datatype StartStage = ToQueue | ToMark | Started

  /** `begun` counts the AcceptMigration calls begun, `granted` the retries granted, so far. */
  datatype Instance = Instance(
    origin: Task, record: Option<Task>, start: StartStage,
    queued: nat, pendings: nat, faileds: nat, completeds: nat,
    acceptors: seq<Acceptor>, retriers: seq<Retrier>, closers: seq<CloseStage>,
    begun: nat, granted: nat)

  function Fresh(task: Task): Instance {
    Instance(task, Some(task), ToQueue, 0, 0, 0, 0, [], [], [], 0, 0)
  }

  /** A task whose InitiateMigration call lost the answer to the write that saved it, and gave up. */
  function Orphan(task: Task): Instance {
    Fresh(task).(start := Started)
  }

  /** What an operation does outside its own task. */
  datatype Effect =
    | Nothing
    | MarkAtSource
    | StoreAtTarget(stream: Stream)
    | SaveShared(stream: Stream)
    | DropAtSource
    | DeleteShared

  /** `ok` says that a read was answered or a write was done; the errors of those writes are ignored.  To the
      migration handler `Answered` means that it agrees. */
  datatype Move =
    | Enqueue(fate: Fate)
    | Mark
    | Pop(atTarget: bool)            // a queueProcessor takes an entry, at the target or elsewhere
    | LoseQueued                     // or takes it and loses the answer
    | LosePending | DeliverPending
    | Accept(i: nat, fate: Fate, localPort: int, rtcpPort: int)
    | LoseFailed | DeliverFailed
    | Retry(i: nat, ok: bool)
    | LoseCompleted | DeliverCompleted
    | Close(i: nat, ok: bool)
    | Expire                         // the task record outlives its TTL

  function Without<T>(s: seq<T>, i: nat): seq<T>
    requires i < |s|
  {
    s[..i] + s[i + 1..]
  }

  function Begin(x: Instance): Instance {
    x.(acceptors := x.acceptors + [Acceptor(x.begun, Fetch, x.origin)], begun := x.begun + 1)
  }

  /** A write of the task record, which may fail. */
  function Saved(x: Instance, task: Task, ok: bool): Instance {
    if ok then x.(record := Some(task)) else x
  }

  function AcceptNext(x: Instance, i: nat, fate: Fate, localPort: int, rtcpPort: int): (Instance, Effect)
    requires i < |x.acceptors|
  {
    var a := x.acceptors[i];
    var task := a.task;
    match a.stage
    case Fetch =>
      if fate != Answered || x.record.None? || x.record.value.target != x.origin.target
      then (x.(acceptors := Without(x.acceptors, i)), Nothing)
      else
        (x.(acceptors := x.acceptors[i := Acceptor(a.id, SavePreparing, x.record.value.(status := Preparing))]),
         Nothing)
    case SavePreparing =>
      (Saved(x, task, fate != NotDone).(acceptors := x.acceptors[i := Acceptor(a.id, Handle, task)]), Nothing)
    case Handle =>
      if fate == Answered
      then
        (x.(acceptors := x.acceptors[i := Acceptor(a.id, SaveCompleting,
              task.(status := Completing, newLocalPort := localPort, newRTCPPort := rtcpPort))]), Nothing)
      else (x.(acceptors := x.acceptors[i := Acceptor(a.id, SaveFailed, task.(status := Failed))]), Nothing)
    case SaveCompleting =>
      (Saved(x, task, fate != NotDone).(acceptors := x.acceptors[i := Acceptor(a.id, Store, task)]), Nothing)
    case Store =>
      (x.(acceptors := x.acceptors[i := Acceptor(a.id, SaveStream, task)]),
       StoreAtTarget(Adopted(task.snapshot, x.origin.target, task.newLocalPort, task.newRTCPPort)))
    case SaveStream =>
      (x.(acceptors := x.acceptors[i :=
            if fate == Answered then Acceptor(a.id, SaveCompleted, task.(status := Completed))
            else Acceptor(a.id, SaveFailed, task.(status := Failed))]),
       if fate == NotDone then Nothing
       else SaveShared(Adopted(task.snapshot, x.origin.target, task.newLocalPort, task.newRTCPPort)))
    case SaveFailed =>
      (Saved(x, task, fate != NotDone).(acceptors := x.acceptors[i := Acceptor(a.id, PublishFailed, task)]), Nothing)
    case PublishFailed =>
      (x.(acceptors := Without(x.acceptors, i), faileds := x.faileds + 1), Nothing)
    case SaveCompleted =>
      (Saved(x, task, fate != NotDone).(acceptors := x.acceptors[i := Acceptor(a.id, PublishCompleted, task)]), Nothing)
    case PublishCompleted =>
      (x.(acceptors := Without(x.acceptors, i), completeds := x.completeds + 1), Nothing)
  }

  function RetryNext(x: Instance, i: nat, ok: bool): (Instance, Effect)
    requires i < |x.retriers|
  {
    var task := x.retriers[i].task;
    match x.retriers[i].stage
    case FetchFailed =>
      if !ok || x.record.None? then (x.(retriers := Without(x.retriers, i)), Nothing)
      else if x.record.value.retries < MAX_RETRIES then
        (x.(retriers := x.retriers[i := Retrier(SaveRetry,
              x.record.value.(retries := x.record.value.retries + 1, status := Pending))],
            granted := x.granted + 1), Nothing)
      else (x.(retriers := x.retriers[i := Retrier(SaveGivenUp, x.record.value.(status := Failed))]), Nothing)
    case SaveRetry => (Saved(x, task, ok).(retriers := x.retriers[i := Retrier(Requeue, task)]), Nothing)
    case Requeue =>
      (x.(retriers := Without(x.retriers, i), queued := if ok then x.queued + 1 else x.queued), Nothing)
    case SaveGivenUp => (Saved(x, task, ok).(retriers := x.retriers[i := Retrier(Restore, task)]), Nothing)
    case Restore =>
      (x.(retriers := Without(x.retriers, i)),
       if ok then SaveShared(task.snapshot.(status := Active, migrationTarget := "")) else Nothing)
  }

  function CloseNext(x: Instance, i: nat, ok: bool): (Instance, Effect)
    requires i < |x.closers|
  {
    match x.closers[i]
    case FetchCompleted =>
      if !ok || x.record.None? then (x.(closers := Without(x.closers, i)), Nothing)
      else (x.(closers := x.closers[i := Unregister]), Nothing)
    case Unregister => (x.(closers := x.closers[i := DeleteRecord]), DropAtSource)
    case DeleteRecord => (x.(closers := Without(x.closers, i)), if ok then DeleteShared else Nothing)
  }

  /** Moves that are not enabled change nothing. */
  function InstanceNext(x: Instance, m: Move): (Instance, Effect) {
    match m
    case Enqueue(fate) =>
      if x.start != ToQueue then (x, Nothing)
      else
        (x.(start := if fate == Answered then ToMark else Started,
            queued := if fate == NotDone then x.queued else x.queued + 1), Nothing)
    case Mark => if x.start != ToMark then (x, Nothing) else (x.(start := Started), MarkAtSource)
    case Pop(atTarget) =>
      if x.queued == 0 then (x, Nothing)
      else if atTarget then (Begin(x.(queued := x.queued - 1)), Nothing)
      else (x.(queued := x.queued - 1, pendings := x.pendings + 1), Nothing)
    case LoseQueued => if x.queued == 0 then (x, Nothing) else (x.(queued := x.queued - 1), Nothing)
    case LosePending => if x.pendings == 0 then (x, Nothing) else (x.(pendings := x.pendings - 1), Nothing)
    case DeliverPending =>
      if x.pendings == 0 then (x, Nothing) else (Begin(x.(pendings := x.pendings - 1)), Nothing)
    case Accept(i, fate, localPort, rtcpPort) =>
      if i < |x.acceptors| then AcceptNext(x, i, fate, localPort, rtcpPort) else (x, Nothing)
    case LoseFailed => if x.faileds == 0 then (x, Nothing) else (x.(faileds := x.faileds - 1), Nothing)
    case DeliverFailed =>
      if x.faileds == 0 then (x, Nothing)
      else (x.(faileds := x.faileds - 1, retriers := x.retriers + [Retrier(FetchFailed, x.origin)]), Nothing)
    case Retry(i, ok) => if i < |x.retriers| then RetryNext(x, i, ok) else (x, Nothing)
    case LoseCompleted => if x.completeds == 0 then (x, Nothing) else (x.(completeds := x.completeds - 1), Nothing)
    case DeliverCompleted =>
      if x.completeds == 0 then (x, Nothing)
      else (x.(completeds := x.completeds - 1, closers := x.closers + [FetchCompleted]), Nothing)
    case Close(i, ok) => if i < |x.closers| then CloseNext(x, i, ok) else (x, Nothing)
    case Expire => (x.(record := None), Nothing)
  }

  // -------------------------------------------------------------------------------------
  // The cluster

  datatype Cluster = Cluster(
    caches: map<NodeId, map<CallId, Stream>>,
    shared: map<CallId, Stream>,
    starting: map<TaskId, Task>,
    tasks: map<TaskId, Instance>)

  datatype Step =
    | Register(n: NodeId, s: Stream)
    | Update(n: NodeId, c: CallId, media: string, status: StreamStatus)
    | EndCall(n: NodeId, c: CallId, done: bool)                       // UnregisterStream at the end of a call
    | Look(t: TaskId, n: NodeId, c: CallId, target: NodeId)           // InitiateMigration reads the stream
    | Create(t: TaskId, fate: Fate)                                    // and saves the task record
    | OnTask(t: TaskId, move: Move)
    | ShareOwn(n: NodeId, c: CallId)                                  // saveState of a cached stream, as in syncLoop
    | ForgetShared(c: CallId)                                         // a shared record outlives its TTL

  function Cache(s: Cluster, n: NodeId): map<CallId, Stream> {
    if n in s.caches then s.caches[n] else map[]
  }

  function WithCache(s: Cluster, n: NodeId, cache: map<CallId, Stream>): Cluster {
    s.(caches := s.caches[n := cache])
  }

  /** What GetStream returns at node `n`. */
  function Lookup(s: Cluster, n: NodeId, c: CallId): Option<Stream> {
    if c in Cache(s, n) then Some(Cache(s, n)[c])
    else if c in s.shared then Some(s.shared[c])
    else None
  }

  /** InitiateMigration accepts the request; task IDs are unique. */
  predicate Initiates(s: Cluster, t: TaskId, n: NodeId, c: CallId) {
    t !in s.tasks && t !in s.starting && Lookup(s, n, c).Some? && Lookup(s, n, c).value.node == n
  }

  predicate Creates(s: Cluster, t: TaskId, fate: Fate) {
    t in s.starting && t !in s.tasks && fate != NotDone
  }

  function Apply(s: Cluster, task: Task, e: Effect): Cluster {
    match e
    case Nothing => s
    case MarkAtSource =>
      var cache := Cache(s, task.source);
      if task.call in cache
      then WithCache(s, task.source, cache[task.call := Marked(cache[task.call], task.target)])
      else s
    case StoreAtTarget(stream) => WithCache(s, task.target, Cache(s, task.target)[task.call := stream])
    case SaveShared(stream) => s.(shared := s.shared[task.call := stream])
    case DropAtSource => WithCache(s, task.source, Cache(s, task.source) - {task.call})
    case DeleteShared => s.(shared := s.shared - {task.call})
  }

  function Next(s: Cluster, e: Step): Cluster {
    match e
    case Register(n, stream) =>
      if stream.call == "" then s
      else WithCache(s, n, Cache(s, n)[stream.call := Registered(stream, n)])
    case Update(n, c, media, status) =>
      if c !in Cache(s, n) then s
      else WithCache(s, n, Cache(s, n)[c := Cache(s, n)[c].(media := media, status := status)])
    case EndCall(n, c, done) =>
      WithCache(s, n, Cache(s, n) - {c}).(shared := if done then s.shared - {c} else s.shared)
    case Look(t, n, c, target) =>
      if Initiates(s, t, n, c)
      then s.(starting := s.starting[t := Task(c, n, target, Lookup(s, n, c).value, Pending, 0, 0, 0)])
      else s
    case Create(t, fate) =>
      var s' := s.(starting := s.starting - {t});
      if !Creates(s, t, fate) then s'
      else
        s'.(tasks := s.tasks[t := if fate == Answered then Fresh(s.starting[t]) else Orphan(s.starting[t])])
    case OnTask(t, move) =>
      if t !in s.tasks then s
      else
        var (x, effect) := InstanceNext(s.tasks[t], move);
        Apply(s.(tasks := s.tasks[t := x]), x.origin, effect)
    case ShareOwn(n, c) => if c in Cache(s, n) then s.(shared := s.shared[c := Cache(s, n)[c]]) else s
    case ForgetShared(c) => s.(shared := s.shared - {c})
  }

  function Run(s: Cluster, es: seq<Step>): Cluster {
    if es == [] then s else Next(Run(s, es[..|es| - 1]), es[|es| - 1])
  }

  // -------------------------------------------------------------------------------------
  // A task never changes what it migrates

  ghost predicate SameMigration(a: Task, b: Task) {
    a.call == b.call && a.source == b.source && a.target == b.target && a.snapshot == b.snapshot
  }

  /** An AcceptMigration call that has put the stream into the target's cache. */
  predicate HasStored(s: AcceptStage) {
    s == SaveStream || s == SaveCompleted || s == PublishCompleted
  }

  /** Somebody knows, or is about to be told, that the target has the stream. */
  predicate Announced(x: Instance) {
    || x.completeds > 0
    || x.closers != []
    || exists a <- x.acceptors :: HasStored(a.stage)
  }

  /** Every copy of the task, in Redis or in a goroutine, is of the same migration. */
  ghost predicate Coherent(x: Instance) {
    && (x.record.Some? ==> SameMigration(x.record.value, x.origin))
    && (forall a <- x.acceptors :: SameMigration(a.task, x.origin))
    && (forall r <- x.retriers :: SameMigration(r.task, x.origin))
  }

  lemma UpdateMembers<T>(s: seq<T>, i: nat, b: T)
    requires i < |s|
    ensures forall a <- s[i := b] :: a == b || a in s
  {
  }

  lemma WithoutMembers<T>(s: seq<T>, i: nat)
    requires i < |s|
    ensures forall a <- Without(s, i) :: a in s
  {
  }

  /** One operation of an AcceptMigration call replaces the call's own state or ends it. */
  lemma AcceptShape(x: Instance, i: nat, fate: Fate, localPort: int, rtcpPort: int)
    requires i < |x.acceptors|
    requires SameMigration(x.acceptors[i].task, x.origin)
    requires x.record.Some? ==> SameMigration(x.record.value, x.origin)
    ensures var (x', e) := AcceptNext(x, i, fate, localPort, rtcpPort);
      && x'.origin == x.origin && x'.retriers == x.retriers && x'.closers == x.closers
      && (x'.record.Some? ==> SameMigration(x'.record.value, x.origin))
      && (x'.completeds > x.completeds ==> HasStored(x.acceptors[i].stage))
      && (x'.acceptors == Without(x.acceptors, i)
          || (&& |x'.acceptors| == |x.acceptors|
              && x'.acceptors == x.acceptors[i := x'.acceptors[i]]
              && SameMigration(x'.acceptors[i].task, x.origin)
              && (HasStored(x'.acceptors[i].stage) ==> HasStored(x.acceptors[i].stage) || e.StoreAtTarget?)))
      && (e.StoreAtTarget? ==>
            e.stream == Adopted(x.origin.snapshot, x.origin.target,
                                x.acceptors[i].task.newLocalPort, x.acceptors[i].task.newRTCPPort))
      && !e.DropAtSource? && !e.MarkAtSource?
  {
    hide Without, Adopted;
  }

  ghost predicate MayAnnounce(x: Instance, x': Instance, e: Effect) {
    Announced(x') ==> Announced(x) || e.StoreAtTarget?
  }

  lemma AcceptKeeps(x: Instance, i: nat, fate: Fate, localPort: int, rtcpPort: int)
    requires Coherent(x) && i < |x.acceptors|
    ensures var (x', e) := AcceptNext(x, i, fate, localPort, rtcpPort);
      Coherent(x') && MayAnnounce(x, x', e)
  {
    assert x.acceptors[i] in x.acceptors;
    AcceptShape(x, i, fate, localPort, rtcpPort);
    WithoutMembers(x.acceptors, i);
    var (x', e) := AcceptNext(x, i, fate, localPort, rtcpPort);
    hide AcceptNext, Without, SameMigration;
    if |x'.acceptors| == |x.acceptors| {
      UpdateMembers(x.acceptors, i, x'.acceptors[i]);
    }
  }

  lemma RetryShape(x: Instance, i: nat, ok: bool)
    requires i < |x.retriers|
    requires SameMigration(x.retriers[i].task, x.origin)
    requires x.record.Some? ==> SameMigration(x.record.value, x.origin)
    ensures var (x', e) := RetryNext(x, i, ok);
      && x'.origin == x.origin && x'.acceptors == x.acceptors && x'.closers == x.closers
      && x'.completeds == x.completeds
      && (x'.record.Some? ==> SameMigration(x'.record.value, x.origin))
      && (x'.retriers == Without(x.retriers, i)
          || (&& |x'.retriers| == |x.retriers|
              && x'.retriers == x.retriers[i := x'.retriers[i]]
              && SameMigration(x'.retriers[i].task, x.origin)))
      && (e.Nothing? || e.SaveShared?)
  {
    hide Without;
  }

  lemma RetryKeeps(x: Instance, i: nat, ok: bool)
    requires Coherent(x) && i < |x.retriers|
    ensures var (x', e) := RetryNext(x, i, ok);
      Coherent(x') && MayAnnounce(x, x', e)
  {
    assert x.retriers[i] in x.retriers;
    RetryShape(x, i, ok);
    WithoutMembers(x.retriers, i);
    var (x', e) := RetryNext(x, i, ok);
    hide RetryNext, Without, SameMigration;
    if |x'.retriers| == |x.retriers| {
      UpdateMembers(x.retriers, i, x'.retriers[i]);
    }
  }

  lemma OtherMoveKeeps(x: Instance, m: Move)
    requires Coherent(x) && !m.Accept? && !m.Retry?
    ensures var (x', e) := InstanceNext(x, m);
      && Coherent(x') && x'.origin == x.origin && MayAnnounce(x, x', e)
      && !e.StoreAtTarget? && (e.DropAtSource? ==> Announced(x))
  {
    hide AcceptNext, RetryNext;
    assert SameMigration(x.origin, x.origin);
    hide SameMigration;
  }

  /** Every move keeps the task coherent, announces only what it has stored, stores only the migrated
      stream, and drops the source's copy only after an announcement. */
  lemma MoveKeeps(x: Instance, m: Move)
    requires Coherent(x)
    ensures var (x', e) := InstanceNext(x, m);
      && Coherent(x') && x'.origin == x.origin && MayAnnounce(x, x', e)
      && (e.StoreAtTarget? ==>
            && m.Accept? && m.i < |x.acceptors|
            && e.stream == Adopted(x.origin.snapshot, x.origin.target,
                                   x.acceptors[m.i].task.newLocalPort, x.acceptors[m.i].task.newRTCPPort))
      && (e.DropAtSource? ==> Announced(x))
  {
    if !m.Accept? && !m.Retry? {
      OtherMoveKeeps(x, m);
    } else if m.Accept? && m.i < |x.acceptors| {
      assert x.acceptors[m.i] in x.acceptors;
      AcceptShape(x, m.i, m.fate, m.localPort, m.rtcpPort);
      AcceptKeeps(x, m.i, m.fate, m.localPort, m.rtcpPort);
    } else if m.Retry? && m.i < |x.retriers| {
      assert x.retriers[m.i] in x.retriers;
      RetryShape(x, m.i, m.ok);
      RetryKeeps(x, m.i, m.ok);
    }
    hide AcceptNext, RetryNext, CloseNext, Coherent, Announced;
  }

  // -------------------------------------------------------------------------------------
  // Handover

  predicate Holds(s: Cluster, n: NodeId, c: CallId) {
    c in Cache(s, n)
  }

  /** The call is in the source's or the target's cache, and in the target's once that is announced. */
  ghost predicate Placed(s: Cluster, x: Instance) {
    && x.origin.source != x.origin.target
    && (Holds(s, x.origin.source, x.origin.call) || Holds(s, x.origin.target, x.origin.call))
    && (Announced(x) ==> Holds(s, x.origin.target, x.origin.call))
  }

  ghost predicate HoldersNamed(s: Cluster) {
    forall n <- s.caches :: HolderIs(s.caches[n], n)
  }

  /** Nothing is left to do for the task: no entry, event or goroutine. */
  predicate Quiet(x: Instance) {
    && x.start == Started && x.queued == 0 && x.pendings == 0 && x.faileds == 0 && x.completeds == 0
    && x.acceptors == [] && x.retriers == [] && x.closers == []
  }

  ghost predicate Settled(s: Cluster, x: Instance) {
    Quiet(x) || Placed(s, x)
  }

  /** At most one migration of a call is in progress. */
  ghost predicate OneTaskPerCall(s: Cluster) {
    forall t <- s.tasks, u <- s.tasks | t != u && !Quiet(s.tasks[t]) && !Quiet(s.tasks[u]) ::
      s.tasks[t].origin.call != s.tasks[u].origin.call
  }

  ghost predicate Inv(s: Cluster) {
    && HoldersNamed(s)
    && OneTaskPerCall(s)
    && (forall t <- s.tasks :: Coherent(s.tasks[t]))
    && (forall t <- s.tasks :: Settled(s, s.tasks[t]))
  }

  /** What the end of call `c` at node `n` must leave to a task in progress. */
  predicate Spares(s: Cluster, x: Instance, n: NodeId, c: CallId) {
    x.origin.call == c && !Quiet(x) ==>
      && (n == x.origin.source ==> Holds(s, x.origin.target, c))
      && (n == x.origin.target ==> Holds(s, x.origin.source, c) && !Announced(x))
  }

  /** What a migration and the end of a call must respect: when its task is saved, a migration goes to another
      node than it comes from, one of the two still caches the call, and the call is not being migrated
      already; the end of a call does not take the copy a migration in progress still relies on. */
  ghost predicate Sound(s: Cluster, e: Step) {
    match e
    case Create(t, fate) =>
      Creates(s, t, fate) && fate == Answered ==>
        var task := s.starting[t];
        && task.source != task.target
        && (Holds(s, task.source, task.call) || Holds(s, task.target, task.call))
        && forall u <- s.tasks | !Quiet(s.tasks[u]) :: s.tasks[u].origin.call != task.call
    case EndCall(n, c, _) => forall u <- s.tasks :: Spares(s, s.tasks[u], n, c)
    case _ => true
  }

  /** Nothing but the task's own call moves. */
  lemma ApplyLeavesOthers(s: Cluster, task: Task, e: Effect, n: NodeId, c: CallId)
    requires c != task.call
    ensures Holds(Apply(s, task, e), n, c) == Holds(s, n, c)
    ensures Apply(s, task, e).tasks == s.tasks
  {
  }

  lemma ApplyPlaces(s: Cluster, x: Instance, x': Instance, e: Effect)
    requires Placed(s, x) && x'.origin == x.origin && MayAnnounce(x, x', e)
    requires e.DropAtSource? ==> Announced(x)
    ensures Placed(Apply(s, x.origin, e), x')
  {
    hide Announced;
  }

  lemma ApplyNames(s: Cluster, task: Task, e: Effect)
    requires HoldersNamed(s)
    requires e.StoreAtTarget? ==> e.stream.node == task.target
    ensures HoldersNamed(Apply(s, task, e))
  {
    assert HolderIs(Cache(s, task.source), task.source) && HolderIs(Cache(s, task.target), task.target);
  }

  lemma OthersStayPlaced(s: Cluster, task: Task, e: Effect, x: Instance)
    requires Placed(s, x) && x.origin.call != task.call
    ensures Placed(Apply(s, task, e), x)
  {
    ApplyLeavesOthers(s, task, e, x.origin.source, x.origin.call);
    ApplyLeavesOthers(s, task, e, x.origin.target, x.origin.call);
    hide Apply, Announced;
  }

  lemma ApplyKeepsTasks(s: Cluster, task: Task, e: Effect)
    ensures Apply(s, task, e).tasks == s.tasks && Apply(s, task, e).starting == s.starting
  {
  }

  lemma QuietStays(x: Instance, m: Move)
    requires Quiet(x)
    ensures var (x', e) := InstanceNext(x, m); Quiet(x') && e.Nothing?
  {
    hide AcceptNext, RetryNext, CloseNext;
  }

  lemma ReplaceKeepsUnique(s: Cluster, t: TaskId, x: Instance)
    requires OneTaskPerCall(s) && t in s.tasks && x.origin == s.tasks[t].origin
    requires Quiet(s.tasks[t]) ==> Quiet(x)
    ensures OneTaskPerCall(s.(tasks := s.tasks[t := x]))
  {
    hide Quiet;
  }

  lemma ReplaceKeepsSettled(s: Cluster, t: TaskId, x': Instance, e: Effect, u: TaskId)
    requires Inv(s) && t in s.tasks && u in s.tasks && x'.origin == s.tasks[t].origin
    requires MayAnnounce(s.tasks[t], x', e) && (e.DropAtSource? ==> Announced(s.tasks[t]))
    requires Quiet(s.tasks[t]) ==> Quiet(x') && e.Nothing?
    ensures Settled(Apply(s.(tasks := s.tasks[t := x']), x'.origin, e), if u == t then x' else s.tasks[u])
  {
    hide Quiet, Placed, Announced, MayAnnounce;
    var s1 := s.(tasks := s.tasks[t := x']);
    if Quiet(s.tasks[t]) {
      assert Apply(s1, x'.origin, e) == s1;
      if u != t && !Quiet(s.tasks[u]) {
        SameCachesPlaced(s, s1, s.tasks[u]);
      }
    } else if u == t {
      hide Apply;
      SameCachesPlaced(s, s1, s.tasks[t]);
      ApplyPlaces(s1, s.tasks[t], x', e);
    } else if !Quiet(s.tasks[u]) {
      hide Apply;
      SameCachesPlaced(s, s1, s.tasks[u]);
      OthersStayPlaced(s1, x'.origin, e, s.tasks[u]);
    }
  }

  lemma ReplaceKeepsInv(s: Cluster, t: TaskId, x': Instance, e: Effect)
    requires Inv(s) && t in s.tasks && x'.origin == s.tasks[t].origin && Coherent(x')
    requires MayAnnounce(s.tasks[t], x', e) && (e.DropAtSource? ==> Announced(s.tasks[t]))
    requires e.StoreAtTarget? ==> e.stream.node == x'.origin.target
    requires Quiet(s.tasks[t]) ==> Quiet(x') && e.Nothing?
    ensures Inv(Apply(s.(tasks := s.tasks[t := x']), x'.origin, e))
  {
    hide Announced, Coherent, Apply, Settled, MayAnnounce, HoldersNamed, OneTaskPerCall, Quiet;
    var s1 := s.(tasks := s.tasks[t := x']);
    var s' := Apply(s1, x'.origin, e);
    ReplaceKeepsUnique(s, t, x');
    ApplyKeepsTasks(s1, x'.origin, e);
    SameTasksSameCalls(s1, s');
    SameCachesSameHolders(s, s1);
    ApplyNames(s1, x'.origin, e);
    forall u | u in s'.tasks ensures Settled(s', s'.tasks[u]) {
      ReplaceKeepsSettled(s, t, x', e, u);
    }
  }

  lemma TaskStepKeepsInv(s: Cluster, t: TaskId, m: Move)
    requires Inv(s) && t in s.tasks
    ensures Inv(Next(s, OnTask(t, m)))
  {
    hide InstanceNext, Announced, Coherent, Apply, Settled, MayAnnounce, HoldersNamed, OneTaskPerCall, Quiet;
    var (x', e) := InstanceNext(s.tasks[t], m);
    MoveKeeps(s.tasks[t], m);
    if Quiet(s.tasks[t]) {
      QuietStays(s.tasks[t], m);
    }
    ReplaceKeepsInv(s, t, x', e);
  }

  lemma SameTasksSameCalls(s: Cluster, s': Cluster)
    requires OneTaskPerCall(s) && s'.tasks == s.tasks
    ensures OneTaskPerCall(s')
  {
  }

  lemma SameCachesSameHolders(s: Cluster, s': Cluster)
    requires HoldersNamed(s) && s'.caches == s.caches
    ensures HoldersNamed(s')
  {
  }

  lemma GrowthKeepsPlaced(s: Cluster, s': Cluster, x: Instance)
    requires Placed(s, x)
    requires Holds(s, x.origin.source, x.origin.call) ==> Holds(s', x.origin.source, x.origin.call)
    requires Holds(s, x.origin.target, x.origin.call) ==> Holds(s', x.origin.target, x.origin.call)
    ensures Placed(s', x)
  {
    hide Announced;
  }

  predicate IsGrowth(e: Step) {
    e.Register? || e.Update? || e.Look? || e.ShareOwn? || e.ForgetShared?
  }

  lemma GrowthEffect(s: Cluster, e: Step, n: NodeId, c: CallId)
    requires HoldersNamed(s) && IsGrowth(e)
    ensures HoldersNamed(Next(s, e)) && Next(s, e).tasks == s.tasks
    ensures Holds(s, n, c) ==> Holds(Next(s, e), n, c)
  {
    GrowthNames(s, e);
    hide HoldersNamed;
    if Holds(s, n, c) {
      StepKeepsHolder(s, e, n, c);
    }
  }

  lemma GrowthNames(s: Cluster, e: Step)
    requires HoldersNamed(s) && IsGrowth(e)
    ensures HoldersNamed(Next(s, e)) && Next(s, e).tasks == s.tasks
  {
    hide InstanceNext, Apply;
    assert e.Register? || e.Update? ==> HolderIs(Cache(s, e.n), e.n);
  }

  /** Registering, updating and sharing never take a stream out of a cache. */
  lemma GrowthKeepsInv(s: Cluster, e: Step)
    requires Inv(s) && IsGrowth(e)
    ensures Inv(Next(s, e))
  {
    var s' := Next(s, e);
    hide Coherent, Placed, Next, HoldersNamed, OneTaskPerCall, Holds, Quiet;
    GrowthEffect(s, e, "", "");
    SameTasksSameCalls(s, s');
    forall t | t in s'.tasks && !Quiet(s.tasks[t]) ensures Placed(s', s'.tasks[t]) {
      var task := s.tasks[t].origin;
      GrowthEffect(s, e, task.source, task.call);
      GrowthEffect(s, e, task.target, task.call);
      GrowthKeepsPlaced(s, s', s.tasks[t]);
    }
  }

  lemma EndCallEffect(s: Cluster, n: NodeId, c: CallId, done: bool, m: NodeId, d: CallId)
    requires HoldersNamed(s)
    ensures var s' := Next(s, EndCall(n, c, done));
      && HoldersNamed(s') && s'.tasks == s.tasks
      && (Holds(s', m, d) <==> Holds(s, m, d) && !(m == n && d == c))
  {
    assert HolderIs(Cache(s, n), n);
  }

  lemma EndCallPlaces(s: Cluster, x: Instance, n: NodeId, c: CallId, done: bool)
    requires HoldersNamed(s) && Settled(s, x)
    ensures Settled(Next(s, EndCall(n, c, done)), x) <==> Spares(s, x, n, c)
  {
    EndCallEffect(s, n, c, done, x.origin.source, x.origin.call);
    EndCallEffect(s, n, c, done, x.origin.target, x.origin.call);
    hide Next, Announced, Holds, HoldersNamed, Quiet;
  }

  lemma EndCallIff(s: Cluster, n: NodeId, c: CallId, done: bool)
    requires Inv(s)
    ensures Inv(Next(s, EndCall(n, c, done))) <==> Sound(s, EndCall(n, c, done))
  {
    var s' := Next(s, EndCall(n, c, done));
    hide Coherent, Settled, Next, HoldersNamed, OneTaskPerCall, Holds, Spares;
    EndCallEffect(s, n, c, done, "", "");
    SameTasksSameCalls(s, s');
    forall t | t in s.tasks ensures Settled(s', s'.tasks[t]) <==> Spares(s, s.tasks[t], n, c) {
      EndCallPlaces(s, s.tasks[t], n, c, done);
    }
  }

  lemma CreateEffect(s: Cluster, t: TaskId)
    requires Creates(s, t, Answered)
    ensures var s', task := Next(s, Create(t, Answered)), s.starting[t];
      && s'.caches == s.caches && t !in s.tasks && t in s'.tasks && s'.tasks == s.tasks[t := s'.tasks[t]]
      && s'.tasks[t].origin == task && Coherent(s'.tasks[t]) && !Quiet(s'.tasks[t])
      && (Placed(s', s'.tasks[t])
          <==> task.source != task.target && (Holds(s, task.source, task.call) || Holds(s, task.target, task.call)))
  {
    assert !Announced(Next(s, Create(t, Answered)).tasks[t]);
  }

  /** A record that nobody goes on to queue changes nothing for the others. */
  lemma OrphanEffect(s: Cluster, t: TaskId, fate: Fate)
    requires fate != Answered
    ensures var s' := Next(s, Create(t, fate));
      && s'.caches == s.caches && s.tasks.Keys <= s'.tasks.Keys
      && (forall u <- s'.tasks ::
            if u in s.tasks then s'.tasks[u] == s.tasks[u] else Coherent(s'.tasks[u]) && Quiet(s'.tasks[u]))
  {
  }

  lemma QuietAdded(s: Cluster, s': Cluster)
    requires OneTaskPerCall(s)
    requires forall u <- s'.tasks :: if u in s.tasks then s'.tasks[u] == s.tasks[u] else Quiet(s'.tasks[u])
    ensures OneTaskPerCall(s')
  {
    hide Quiet;
  }

  lemma AddedCall(s: Cluster, s': Cluster, t: TaskId)
    requires OneTaskPerCall(s) && t !in s.tasks && t in s'.tasks && s'.tasks == s.tasks[t := s'.tasks[t]]
    requires !Quiet(s'.tasks[t])
    ensures OneTaskPerCall(s')
       <==> forall u <- s.tasks | !Quiet(s.tasks[u]) :: s.tasks[u].origin.call != s'.tasks[t].origin.call
  {
    hide Quiet;
    if OneTaskPerCall(s') {
      forall u | u in s.tasks && !Quiet(s.tasks[u]) ensures s.tasks[u].origin.call != s'.tasks[t].origin.call {
        assert s'.tasks[u] == s.tasks[u];
      }
    }
  }

  lemma CreateIff(s: Cluster, t: TaskId, fate: Fate)
    requires Inv(s)
    ensures Inv(Next(s, Create(t, fate))) <==> Sound(s, Create(t, fate))
  {
    hide Coherent, Placed, Next, HoldersNamed, OneTaskPerCall, Holds, Creates, Quiet;
    var s' := Next(s, Create(t, fate));
    if fate == Answered && Creates(s, t, fate) {
      CreateEffect(s, t);
      AddedCall(s, s', t);
      SameCachesSameHolders(s, s');
      forall u | u in s.tasks ensures Settled(s', s'.tasks[u]) && Coherent(s'.tasks[u]) {
        if !Quiet(s.tasks[u]) {
          SameCachesPlaced(s, s', s.tasks[u]);
        }
      }
      assert s'.tasks.Keys == s.tasks.Keys + {t};
    } else {
      NothingQueued(s, t, fate);
      QuietAdded(s, s');
      SameCachesSameHolders(s, s');
      forall u | u in s.tasks && !Quiet(s.tasks[u]) ensures Placed(s', s.tasks[u]) {
        SameCachesPlaced(s, s', s.tasks[u]);
      }
    }
  }

  lemma NothingQueued(s: Cluster, t: TaskId, fate: Fate)
    requires !(fate == Answered && Creates(s, t, fate))
    ensures var s' := Next(s, Create(t, fate));
      && s'.caches == s.caches && s.tasks.Keys <= s'.tasks.Keys
      && (forall u <- s'.tasks ::
            if u in s.tasks then s'.tasks[u] == s.tasks[u] else Coherent(s'.tasks[u]) && Quiet(s'.tasks[u]))
  {
    if fate != Answered {
      OrphanEffect(s, t, fate);
    }
  }

  lemma SameCachesPlaced(s: Cluster, s': Cluster, x: Instance)
    requires Placed(s, x) && s'.caches == s.caches
    ensures Placed(s', x)
  {
    hide Announced;
  }

  /** The conditions are exact: a step keeps the invariant if and only if it is sound. */
  lemma SoundIff(s: Cluster, e: Step)
    requires Inv(s)
    ensures Inv(Next(s, e)) <==> Sound(s, e)
  {
    match e {
      case Create(t, fate) => CreateIff(s, t, fate);
      case EndCall(n, c, done) => EndCallIff(s, n, c, done);
      case OnTask(t, m) =>
        if t in s.tasks {
          TaskStepKeepsInv(s, t, m);
        }
      case _ => GrowthKeepsInv(s, e);
    }
  }

  ghost predicate Init(s: Cluster) {
    HoldersNamed(s) && s.tasks == map[]
  }

  ghost predicate SoundRun(s: Cluster, es: seq<Step>) {
    forall i | 0 <= i < |es| :: Sound(Run(s, es[..i]), es[i])
  }

  /** Every state of a run satisfies the invariant exactly when every step is sound. */
  lemma {:induction false} SoundRunIff(s: Cluster, es: seq<Step>)
    requires Init(s)
    ensures SoundRun(s, es) <==> forall i | 0 <= i <= |es| :: Inv(Run(s, es[..i]))
  {
    hide Next, Sound, Inv;
    if es == [] {
      InitKeepsInv(s);
      assert es[..0] == [];
    } else {
      var n := |es| - 1;
      SoundRunIff(s, es[..n]);
      assert forall i | 0 <= i <= n :: es[..n][..i] == es[..i];
      assert es[..|es|] == es;
      if Inv(Run(s, es[..n])) {
        SoundIff(Run(s, es[..n]), es[n]);
      }
      assert SoundRun(s, es) <==> SoundRun(s, es[..n]) && Sound(Run(s, es[..n]), es[n]);
    }
  }

  lemma InitKeepsInv(s: Cluster)
    requires Init(s)
    ensures Inv(s)
  {
  }

  lemma SoundRunKeepsInv(s: Cluster, es: seq<Step>)
    requires Init(s) && SoundRun(s, es)
    ensures Inv(Run(s, es))
  {
    hide Run, Inv, SoundRun;
    SoundRunIff(s, es);
    assert es[..|es|] == es;
  }

  /** In every interleaving of pops, deliveries, losses, accepts, failures and retries, a migrating call
      is cached at its source or at its target, and every cached stream names the node that caches it. */
  lemma NeverLost(s: Cluster, es: seq<Step>, t: TaskId)
    requires Init(s) && SoundRun(s, es) && t in Run(s, es).tasks && !Quiet(Run(s, es).tasks[t])
    ensures var s' := Run(s, es);
      var task := s'.tasks[t].origin;
      && (Holds(s', task.source, task.call) || Holds(s', task.target, task.call))
      && HoldersNamed(s')
  {
    hide Run, SoundRun;
    SoundRunKeepsInv(s, es);
  }

  predicate Cached(s: Cluster, c: CallId) {
    exists n <- s.caches :: c in s.caches[n]
  }

  lemma CachedAt(s: Cluster, n: NodeId, c: CallId)
    requires Holds(s, n, c)
    ensures Cached(s, c)
  {
    assert n in s.caches && c in s.caches[n];
  }

  lemma TaskStaysCached(s: Cluster, t: TaskId, m: Move, c: CallId, n: NodeId)
    requires Inv(s) && t in s.tasks && Holds(s, n, c)
    ensures Cached(Next(s, OnTask(t, m)), c)
  {
    hide InstanceNext, Coherent, Announced, Quiet, MayAnnounce, HoldersNamed, OneTaskPerCall, Apply, Cached;
    var x := s.tasks[t];
    var (x', e) := InstanceNext(x, m);
    MoveKeeps(x, m);
    if Quiet(x) {
      QuietStays(x, m);
    }
    var s1 := s.(tasks := s.tasks[t := x']);
    var holder := if e.DropAtSource? && n == x.origin.source && c == x.origin.call then x.origin.target else n;
    assert Holds(s1, holder, c);
    ApplyKeepsHolder(s1, x.origin, e, holder, c);
    CachedAt(Apply(s1, x.origin, e), holder, c);
  }

  lemma ApplyKeepsHolder(s: Cluster, task: Task, e: Effect, n: NodeId, c: CallId)
    requires Holds(s, n, c) && !(e.DropAtSource? && n == task.source && c == task.call)
    ensures Holds(Apply(s, task, e), n, c)
  {
  }

  lemma StepKeepsHolder(s: Cluster, e: Step, n: NodeId, c: CallId)
    requires Holds(s, n, c) && !(e.EndCall? && e.c == c) && !(e.OnTask? && e.t in s.tasks)
    ensures Holds(Next(s, e), n, c)
  {
    hide InstanceNext, Apply;
  }

  lemma StaysCached(s: Cluster, e: Step, c: CallId)
    requires Inv(s) && Cached(s, c) && !(e.EndCall? && e.c == c)
    ensures Cached(Next(s, e), c)
  {
    hide Inv, Next;
    var n :| n in s.caches && c in s.caches[n];
    assert Holds(s, n, c);
    hide Cached;
    if e.OnTask? && e.t in s.tasks {
      TaskStaysCached(s, e.t, e.move, c, n);
    } else {
      StepKeepsHolder(s, e, n, c);
      CachedAt(Next(s, e), n, c);
    }
  }

  /** In every sound run a call that is cached anywhere stays cached somewhere until it ends, through any
      number of migrations, whether they are in progress or over. */
  lemma {:induction false} NeverForgotten(s: Cluster, es: seq<Step>, i: nat, c: CallId)
    requires Init(s) && SoundRun(s, es) && i <= |es| && Cached(Run(s, es[..i]), c)
    requires forall j | i <= j < |es| :: !(es[j].EndCall? && es[j].c == c)
    ensures Cached(Run(s, es), c)
  {
    hide Next, Cached, SoundRun, Inv;
    if i == |es| {
      assert es[..i] == es;
    } else {
      var n := |es| - 1;
      SoundPrefix(s, es, n);
      assert es[..n][..i] == es[..i];
      NeverForgotten(s, es[..n], i, c);
      SoundRunKeepsInv(s, es[..n]);
      StaysCached(Run(s, es[..n]), es[n], c);
    }
  }

  lemma SoundPrefix(s: Cluster, es: seq<Step>, n: nat)
    requires SoundRun(s, es) && n <= |es|
    ensures SoundRun(s, es[..n])
  {
    hide Sound;
    forall i | 0 <= i < n ensures Sound(Run(s, es[..n][..i]), es[..n][i]) {
      assert es[..n][..i] == es[..i] && es[..n][i] == es[i];
    }
  }

  /** The target takes over the stream as it was when the migration was requested, under its own node
      ID and ports, however many retries that took. */
  lemma TargetAdoptsSnapshot(s: Cluster, es: seq<Step>, t: TaskId, i: nat, fate: Fate, p: int, q: int)
    requires Init(s) && SoundRun(s, es) && t in Run(s, es).tasks
    requires var x := Run(s, es).tasks[t];
      i < |x.acceptors| && x.acceptors[i].stage == Store
    ensures var x := Run(s, es).tasks[t];
      var s' := Next(Run(s, es), OnTask(t, Accept(i, fate, p, q)));
      && Holds(s', x.origin.target, x.origin.call)
      && Cache(s', x.origin.target)[x.origin.call]
         == Adopted(x.origin.snapshot, x.origin.target,
                    x.acceptors[i].task.newLocalPort, x.acceptors[i].task.newRTCPPort)
  {
    hide Run, SoundRun, Next, InstanceNext, Adopted;
    SoundRunKeepsInv(s, es);
    StoreAdoptsSnapshot(Run(s, es), t, i, fate, p, q);
  }

  lemma StoreAdoptsSnapshot(s: Cluster, t: TaskId, i: nat, fate: Fate, p: int, q: int)
    requires t in s.tasks && Coherent(s.tasks[t])
    requires i < |s.tasks[t].acceptors| && s.tasks[t].acceptors[i].stage == Store
    ensures var x := s.tasks[t];
      var s' := Next(s, OnTask(t, Accept(i, fate, p, q)));
      && Holds(s', x.origin.target, x.origin.call)
      && Cache(s', x.origin.target)[x.origin.call]
         == Adopted(x.origin.snapshot, x.origin.target,
                    x.acceptors[i].task.newLocalPort, x.acceptors[i].task.newRTCPPort)
  {
    var x := s.tasks[t];
    assert x.acceptors[i] in x.acceptors;
    assert SameMigration(x.acceptors[i].task, x.origin);
  }

  // -------------------------------------------------------------------------------------
  // Who writes streams

  /** The stream that AcceptMigration call `a` of the task stores at its target. */
  function StreamOf(a: Acceptor, target: NodeId): Stream {
    var snapshot := a.task.snapshot;
    Stream(call := snapshot.call, node := target, localPort := a.task.newLocalPort, rtcpPort := a.task.newRTCPPort,
           status := Active, migrationTarget := "", media := snapshot.media)
  }

  /** Every effect of a move on streams, and the stage it comes from. */
  lemma EffectOf(x: Instance, m: Move)
    ensures var e := InstanceNext(x, m).1;
      match e
      case Nothing => true
      case MarkAtSource => m.Mark? && x.start == ToMark
      case StoreAtTarget(stream) =>
        && m.Accept? && m.i < |x.acceptors| && x.acceptors[m.i].stage == Store
        && stream == StreamOf(x.acceptors[m.i], x.origin.target)
      case SaveShared(stream) =>
        || (&& m.Accept? && m.i < |x.acceptors| && x.acceptors[m.i].stage == SaveStream && m.fate != NotDone
            && stream == StreamOf(x.acceptors[m.i], x.origin.target))
        || (&& m.Retry? && m.i < |x.retriers| && x.retriers[m.i].stage == Restore && m.ok
            && stream == x.retriers[m.i].task.snapshot.(status := Active, migrationTarget := ""))
      case DropAtSource => m.Close? && m.i < |x.closers| && x.closers[m.i] == Unregister
      case DeleteShared => m.Close? && m.i < |x.closers| && x.closers[m.i] == DeleteRecord && m.ok
  {
    hide Without;
  }

  /** How the stream that node `n` caches for call `c` can have come there in one step. */
  ghost predicate Written(s: Cluster, e: Step, n: NodeId, c: CallId, b: Stream) {
    || (Holds(s, n, c) && b == Cache(s, n)[c])
    || (e.Register? && e.n == n && e.s.call == c != "" && b == e.s.(node := n, status := Active))
    || (&& e.Update? && e.n == n && e.c == c && Holds(s, n, c)
        && b == Cache(s, n)[c].(media := e.media, status := e.status))
    || (&& e.OnTask? && e.t in s.tasks && s.tasks[e.t].origin.call == c
        && var x, m := s.tasks[e.t], e.move;
        || (&& m.Mark? && n == x.origin.source && Holds(s, n, c)
            && b == Cache(s, n)[c].(status := Migrating, migrationTarget := x.origin.target))
        || (&& m.Accept? && m.i < |x.acceptors| && x.acceptors[m.i].stage == Store && n == x.origin.target
            && b == StreamOf(x.acceptors[m.i], n)))
  }

  /** No other step of any kind writes a cached stream, and these write exactly that. */
  lemma CacheWriters(s: Cluster, e: Step, n: NodeId, c: CallId)
    requires Holds(Next(s, e), n, c)
    ensures Written(s, e, n, c, Cache(Next(s, e), n)[c])
  {
    hide InstanceNext, StreamOf;
    if e.OnTask? && e.t in s.tasks {
      EffectOf(s.tasks[e.t], e.move);
      StoresIff(s.tasks[e.t], e.move);
    }
  }

  // -------------------------------------------------------------------------------------
  // The ports of the migrated stream

  /** The AcceptMigration calls of a task are told apart by their numbers. */
  ghost predicate Numbered(x: Instance) {
    && (forall i | 0 <= i < |x.acceptors| :: x.acceptors[i].id < x.begun)
    && (forall i, j | 0 <= i < j < |x.acceptors| :: x.acceptors[i].id != x.acceptors[j].id)
  }

  /** One operation of an AcceptMigration call keeps its number, and changes the ports only on its handler's
      answer. */
  lemma AcceptPorts(x: Instance, i: nat, fate: Fate, p: int, q: int)
    requires i < |x.acceptors|
    ensures var x' := AcceptNext(x, i, fate, p, q).0; var a := x.acceptors[i];
      && x'.begun == x.begun
      && (x'.acceptors == Without(x.acceptors, i)
          || (&& |x'.acceptors| == |x.acceptors| && x'.acceptors == x.acceptors[i := x'.acceptors[i]]
              && var a' := x'.acceptors[i];
              && a'.id == a.id
              && (PastHandle(a.stage) ==>
                    && PastHandle(a'.stage) && (Agreed(a'.stage) ==> Agreed(a.stage))
                    && a'.task.newLocalPort == a.task.newLocalPort && a'.task.newRTCPPort == a.task.newRTCPPort)
              && (Agreed(a'.stage) && !Agreed(a.stage) ==> a.stage == Handle && fate == Answered)
              && (a.stage == Handle ==> PastHandle(a'.stage))
              && (a.stage == Handle && fate == Answered ==>
                    Agreed(a'.stage) && a'.task.newLocalPort == p && a'.task.newRTCPPort == q)))
      && (a.stage == Handle ==> |x'.acceptors| == |x.acceptors|)
  {
    hide Without, Adopted;
    assert |Without(x.acceptors, i)| == |x.acceptors| - 1 by {
      WithoutLength(x.acceptors, i);
    }
  }

  lemma WithoutLength<T>(s: seq<T>, i: nat)
    requires i < |s|
    ensures |Without(s, i)| == |s| - 1
  {
  }

  /** The handler has been asked. */
  predicate PastHandle(s: AcceptStage) {
    s != Fetch && s != SavePreparing && s != Handle
  }

  /** The handler has agreed, and the stream is being stored under the new ports. */
  predicate Agreed(s: AcceptStage) {
    s == SaveCompleting || s == Store || s == SaveStream
  }

  /** What a move does to the list of AcceptMigration calls. */
  lemma MoveAcceptors(x: Instance, m: Move)
    requires !m.Accept?
    ensures var x' := InstanceNext(x, m).0;
      || (x'.acceptors == x.acceptors && x'.begun == x.begun)
      || (x'.acceptors == x.acceptors + [Acceptor(x.begun, Fetch, x.origin)] && x'.begun == x.begun + 1)
  {
    hide AcceptNext;
  }

  lemma NumberedStep(x: Instance, m: Move)
    requires Numbered(x)
    ensures Numbered(InstanceNext(x, m).0)
  {
    if !m.Accept? {
      MoveAcceptors(x, m);
      hide InstanceNext;
    } else if m.i < |x.acceptors| {
      AcceptPorts(x, m.i, m.fate, m.localPort, m.rtcpPort);
      hide AcceptNext;
    }
  }

  /** The AcceptMigration call `id` has been given the ports `p` and `q`. */
  ghost predicate Ported(x: Instance, id: nat, p: int, q: int) {
    && id < x.begun
    && (forall i | 0 <= i < |x.acceptors| && x.acceptors[i].id == id ::
          && PastHandle(x.acceptors[i].stage)
          && x.acceptors[i].task.newLocalPort == p && x.acceptors[i].task.newRTCPPort == q)
  }

  lemma PortedStep(x: Instance, m: Move, id: nat, p: int, q: int)
    requires Ported(x, id, p, q)
    ensures Ported(InstanceNext(x, m).0, id, p, q)
  {
    if !m.Accept? {
      MoveAcceptors(x, m);
      hide InstanceNext, PastHandle;
    } else if m.i < |x.acceptors| {
      AcceptPorts(x, m.i, m.fate, m.localPort, m.rtcpPort);
      hide AcceptNext, PastHandle;
    }
  }

  lemma HandlePorts(x: Instance, i: nat, p: int, q: int)
    requires Numbered(x) && i < |x.acceptors| && x.acceptors[i].stage == Handle
    ensures Ported(InstanceNext(x, Accept(i, Answered, p, q)).0, x.acceptors[i].id, p, q)
  {
    AcceptPorts(x, i, Answered, p, q);
    assert |Without(x.acceptors, i)| == |x.acceptors| - 1;
    hide AcceptNext, PastHandle, Without;
  }

  lemma {:induction false} AlwaysNumbered(s: Cluster, es: seq<Step>, t: TaskId)
    requires s.tasks == map[] && t in Run(s, es).tasks
    ensures Numbered(Run(s, es).tasks[t])
  {
    hide Next, InstanceNext, Numbered;
    var front, e := es[..|es| - 1], es[|es| - 1];
    var before := Run(s, front);
    if t in before.tasks {
      AlwaysNumbered(s, front, t);
      OneStepOf(before, e, t);
      if e.OnTask? && e.t == t {
        NumberedStep(before.tasks[t], e.move);
      }
    } else {
      NewTask(before, e, t);
    }
  }

  lemma NewTask(s: Cluster, e: Step, t: TaskId)
    requires t !in s.tasks && t in Next(s, e).tasks
    ensures Next(s, e).tasks[t].acceptors == [] && Numbered(Next(s, e).tasks[t])
  {
    hide InstanceNext, Apply;
    if e.OnTask? && e.t in s.tasks {
      var (x, effect) := InstanceNext(s.tasks[e.t], e.move);
      ApplyKeepsTasks(s.(tasks := s.tasks[e.t := x]), x.origin, effect);
    }
  }

  /** Step `j` of the run is the answer, with ports `p` and `q`, of the handler of AcceptMigration call `id`. */
  ghost predicate HandledAt(s: Cluster, es: seq<Step>, t: TaskId, j: nat, i: nat, id: nat, p: int, q: int) {
    && j < |es| && t in Run(s, es[..j]).tasks
    && var acceptors := Run(s, es[..j]).tasks[t].acceptors;
    && i < |acceptors| && acceptors[i].id == id && acceptors[i].stage == Handle
    && es[j] == OnTask(t, Accept(i, Answered, p, q))
  }

  /** From then on the call works with these ports, in any run. */
  lemma {:induction false} PortsFollowHandle(
    s: Cluster, es: seq<Step>, t: TaskId, j: nat, i: nat, id: nat, p: int, q: int)
    requires s.tasks == map[] && HandledAt(s, es, t, j, i, id, p, q)
    ensures t in Run(s, es).tasks && Ported(Run(s, es).tasks[t], id, p, q)
  {
    hide Next, InstanceNext, Numbered, Ported;
    var n := |es| - 1;
    var front, e := es[..n], es[n];
    assert front[..j] == es[..j];
    if j == n {
      AlwaysNumbered(s, front, t);
      HandlePorts(Run(s, front).tasks[t], i, p, q);
    } else {
      assert front[j] == es[j];
      PortsFollowHandle(s, front, t, j, i, id, p, q);
      if e.OnTask? && e.t == t {
        PortedStep(Run(s, front).tasks[t], e.move, id, p, q);
      }
    }
    OneStepOf(Run(s, front), e, t);
  }

  lemma AgreedCameFrom(x: Instance, m: Move, k: nat) returns (k': nat)
    requires k < |InstanceNext(x, m).0.acceptors| && Agreed(InstanceNext(x, m).0.acceptors[k].stage)
    ensures k' < |x.acceptors| && x.acceptors[k'].id == InstanceNext(x, m).0.acceptors[k].id
    ensures var a, a' := x.acceptors[k'], InstanceNext(x, m).0.acceptors[k];
      || (&& Agreed(a.stage) && a.task.newLocalPort == a'.task.newLocalPort
          && a.task.newRTCPPort == a'.task.newRTCPPort)
      || (a.stage == Handle && m == Accept(k', Answered, a'.task.newLocalPort, a'.task.newRTCPPort))
  {
    k' := k;
    if !m.Accept? {
      MoveAcceptors(x, m);
    } else if m.i < |x.acceptors| {
      AcceptPorts(x, m.i, m.fate, m.localPort, m.rtcpPort);
      hide AcceptNext;
      if |InstanceNext(x, m).0.acceptors| < |x.acceptors| && k >= m.i {
        k' := k + 1;
      }
    }
  }

  /** And every AcceptMigration call that gets as far as storing the stream has had such an answer. */
  lemma {:induction false} StoreWasHandled(s: Cluster, es: seq<Step>, t: TaskId, k: nat) returns (j: nat, i: nat)
    requires s.tasks == map[] && t in Run(s, es).tasks
    requires k < |Run(s, es).tasks[t].acceptors| && Agreed(Run(s, es).tasks[t].acceptors[k].stage)
    ensures var a := Run(s, es).tasks[t].acceptors[k];
      HandledAt(s, es, t, j, i, a.id, a.task.newLocalPort, a.task.newRTCPPort)
  {
    hide Next, InstanceNext;
    var n := |es| - 1;
    var front, e := es[..n], es[n];
    var before := Run(s, front);
    assert t in before.tasks by {
      if t !in before.tasks {
        NewTask(before, e, t);
      }
    }
    OneStepOf(before, e, t);
    var k' := k;
    if e.OnTask? && e.t == t {
      k' := AgreedCameFrom(before.tasks[t], e.move, k);
      if before.tasks[t].acceptors[k'].stage == Handle {
        return n, k';
      }
    }
    j, i := StoreWasHandled(s, front, t, k');
    assert front[..j] == es[..j] && front[j] == es[j];
  }

  /** In every sound run the target caches the stream as it was when the migration was requested, active and
      under the target's ID, with the ports that the handler of that very AcceptMigration call answered. */
  lemma TargetUsesItsPorts(
    s: Cluster, es: seq<Step>, t: TaskId, j: nat, i: nat, p: int, q: int, k: nat, fate: Fate, p': int, q': int)
    requires Init(s) && SoundRun(s, es) && t in Run(s, es).tasks
    requires k < |Run(s, es).tasks[t].acceptors| && Run(s, es).tasks[t].acceptors[k].stage == Store
    requires HandledAt(s, es, t, j, i, Run(s, es).tasks[t].acceptors[k].id, p, q)
    ensures var task := Run(s, es).tasks[t].origin;
      var s' := Next(Run(s, es), OnTask(t, Accept(k, fate, p', q')));
      && Holds(s', task.target, task.call)
      && var stream := Cache(s', task.target)[task.call];
      && stream.call == task.snapshot.call && stream.media == task.snapshot.media
      && stream.node == task.target && stream.localPort == p && stream.rtcpPort == q
      && stream.status == Active && stream.migrationTarget == ""
  {
    TargetAdoptsSnapshot(s, es, t, k, fate, p', q');
    hide SoundRun, Run, Next, HandledAt;
    PortsFollowHandle(s, es, t, j, i, Run(s, es).tasks[t].acceptors[k].id, p, q);
  }

  // -------------------------------------------------------------------------------------
  // What the protocol does not guarantee

  /** Closing a migration leaves the call without a shared record exactly when the delete succeeds or there
      was none, although the target holds the stream; the target's next sync puts it back. */
  lemma ClosingForgetsSharedRecord(s: Cluster, t: TaskId, i: nat, ok: bool)
    requires Inv(s) && t in s.tasks
    requires i < |s.tasks[t].closers| && s.tasks[t].closers[i] == DeleteRecord
    ensures var task := s.tasks[t].origin;
      var s1 := Next(s, OnTask(t, Close(i, ok)));
      var s2 := Next(s1, ShareOwn(task.target, task.call));
      && Holds(s1, task.target, task.call)
      && (task.call in s1.shared <==> task.call in s.shared && !ok)
      && task.call in s2.shared && s2.shared[task.call].node == task.target
  {
    hide Coherent;
    var task := s.tasks[t].origin;
    assert Placed(s, s.tasks[t]);
    var s1 := Next(s, OnTask(t, Close(i, ok)));
    assert s1.caches == s.caches;
    assert HolderIs(Cache(s, task.target), task.target);
  }

  /** Dropping the source's copy leaves the call in neither cache exactly when source and target are the same
      node or the target does not have it. */
  lemma ClosingLosesIff(s: Cluster, t: TaskId, i: nat, ok: bool)
    requires t in s.tasks && i < |s.tasks[t].closers| && s.tasks[t].closers[i] == Unregister
    ensures var task := s.tasks[t].origin;
      var s' := Next(s, OnTask(t, Close(i, ok)));
      (!Holds(s', task.source, task.call) && !Holds(s', task.target, task.call)
       <==> task.source == task.target || !Holds(s, task.target, task.call))
  {
  }

  // -------------------------------------------------------------------------------------
  // Bounded retries

  /** The one thing that can still lead to an AcceptMigration call: an entry, an event, or a goroutine. */
  function Tokens(x: Instance): nat {
    (if x.start == ToQueue then 1 else 0) + x.queued + x.pendings + |x.acceptors| + x.faileds + |x.retriers|
  }

  /** AcceptMigration calls already paid for: entries and events that will begin one. */
  function Owed(x: Instance): nat {
    (if x.start == ToQueue then 1 else 0) + x.queued + x.pendings
    + (if x.retriers != [] && (x.retriers[0].stage == SaveRetry || x.retriers[0].stage == Requeue) then 1 else 0)
  }

  ghost predicate Bounded(x: Instance) {
    && Tokens(x) <= 1
    && x.granted <= MAX_RETRIES
    && x.begun + Owed(x) <= 1 + x.granted
    && (x.record.Some? ==>
          x.record.value.retries
          == if x.retriers != [] && x.retriers[0].stage == SaveRetry then x.granted - 1 else x.granted)
    && (x.acceptors != [] && x.acceptors[0].stage != Fetch ==> x.acceptors[0].task.retries == x.granted)
    && (x.retriers != [] && x.retriers[0].stage != FetchFailed ==> x.retriers[0].task.retries == x.granted)
  }

  /** The retry count reaches Redis whenever there is a record for it to reach. */
  predicate CountsRetry(x: Instance, m: Move) {
    m.Retry? && m.i < |x.retriers| && x.retriers[m.i].stage == SaveRetry && x.record.Some? ==> m.ok
  }

  lemma AcceptCounts(x: Instance, i: nat, fate: Fate, localPort: int, rtcpPort: int)
    requires |x.acceptors| == 1 && i == 0
    requires x.record.Some? ==> x.record.value.retries == x.granted
    requires x.acceptors[0].stage != Fetch ==> x.acceptors[0].task.retries == x.granted
    ensures var x' := AcceptNext(x, i, fate, localPort, rtcpPort).0;
      && x' == x.(record := x'.record, acceptors := x'.acceptors, faileds := x'.faileds, completeds := x'.completeds)
      && (x'.record.Some? ==> x'.record.value.retries == x.granted)
      && |x'.acceptors| + x'.faileds <= 1 + x.faileds
      && (x'.acceptors != [] ==> x'.acceptors[0].task.retries == x.granted)
  {
    assert Without(x.acceptors, 0) == [];
    hide Without, Adopted;
  }

  lemma AcceptBounded(x: Instance, m: Move)
    requires Bounded(x) && m.Accept?
    ensures Bounded(InstanceNext(x, m).0)
  {
    if m.i < |x.acceptors| {
      AcceptCounts(x, m.i, m.fate, m.localPort, m.rtcpPort);
      hide AcceptNext;
    }
  }

  lemma RetryBounded(x: Instance, m: Move)
    requires Bounded(x) && m.Retry?
    ensures Bounded(InstanceNext(x, m).0) <==> CountsRetry(x, m)
  {
    if m.i < |x.retriers| {
      assert m.i == 0 && Without(x.retriers, 0) == [];
      hide Without;
    }
  }

  /** Exactly: a move keeps the bound if and only if it does not lose the retry count. */
  lemma BoundedIff(x: Instance, m: Move)
    requires Bounded(x)
    ensures Bounded(InstanceNext(x, m).0) <==> CountsRetry(x, m)
  {
    if m.Accept? {
      AcceptBounded(x, m);
    } else if m.Retry? {
      RetryBounded(x, m);
    } else {
      OtherBounded(x, m);
    }
  }

  predicate IsQueueMove(m: Move) {
    m.Enqueue? || m.Mark? || m.Pop? || m.LoseQueued? || m.LosePending? || m.DeliverPending?
  }

  lemma QueueBounded(x: Instance, m: Move)
    requires Bounded(x) && IsQueueMove(m)
    ensures Bounded(InstanceNext(x, m).0)
  {
    hide AcceptNext, RetryNext, CloseNext;
  }

  lemma OtherBounded(x: Instance, m: Move)
    requires Bounded(x) && !m.Accept? && !m.Retry?
    ensures Bounded(InstanceNext(x, m).0)
  {
    hide InstanceNext, Bounded;
    if IsQueueMove(m) {
      QueueBounded(x, m);
    } else {
      EventBounded(x, m);
    }
  }

  lemma EventBounded(x: Instance, m: Move)
    requires Bounded(x) && !m.Accept? && !m.Retry? && !IsQueueMove(m)
    ensures Bounded(InstanceNext(x, m).0)
  {
    hide AcceptNext, RetryNext, CloseNext;
    if m.Close? && m.i < |x.closers| {
      CloseShape(x, m.i, m.ok);
    }
  }

  lemma CloseShape(x: Instance, i: nat, ok: bool)
    requires i < |x.closers|
    ensures CloseNext(x, i, ok).0 == x.(closers := CloseNext(x, i, ok).0.closers)
  {
  }

  ghost predicate AllBounded(s: Cluster) {
    && (forall t <- s.tasks :: Bounded(s.tasks[t]))
    && (forall t <- s.starting :: s.starting[t].retries == 0)
  }

  ghost predicate CountsRetries(s: Cluster, e: Step) {
    e.OnTask? && e.t in s.tasks ==> CountsRetry(s.tasks[e.t], e.move)
  }

  lemma AllBoundedStep(s: Cluster, e: Step)
    requires AllBounded(s) && CountsRetries(s, e)
    ensures AllBounded(Next(s, e))
  {
    if e.OnTask? && e.t in s.tasks {
      var (x, effect) := InstanceNext(s.tasks[e.t], e.move);
      BoundedIff(s.tasks[e.t], e.move);
      ApplyKeepsTasks(s.(tasks := s.tasks[e.t := x]), x.origin, effect);
      hide InstanceNext, Apply, Bounded;
    } else {
      hide InstanceNext, Apply;
    }
  }

  /** In every run in which retry counts are saved, no task is accepted more than four times. */
  lemma {:induction false} AcceptsAreBounded(s: Cluster, es: seq<Step>)
    requires s.tasks == map[] && s.starting == map[]
    requires forall i | 0 <= i < |es| :: CountsRetries(Run(s, es[..i]), es[i])
    ensures AllBounded(Run(s, es))
    ensures forall t <- Run(s, es).tasks :: Run(s, es).tasks[t].begun <= 4
  {
    hide Next, CountsRetries;
    if es != [] {
      var n := |es| - 1;
      assert forall i | 0 <= i < n :: es[..n][..i] == es[..i] && es[..n][i] == es[i];
      AcceptsAreBounded(s, es[..n]);
      AllBoundedStep(Run(s, es[..n]), es[n]);
    }
  }

  // -------------------------------------------------------------------------------------
  // Runs of one task

  function InstanceRun(x: Instance, ms: seq<Move>): Instance {
    if ms == [] then x else InstanceNext(InstanceRun(x, ms[..|ms| - 1]), ms[|ms| - 1]).0
  }

  /** The moves of task `t` in a run of the cluster. */
  function MovesOf(es: seq<Step>, t: TaskId): seq<Move> {
    if es == [] then []
    else
      var front, e := es[..|es| - 1], es[|es| - 1];
      MovesOf(front, t) + (if e.OnTask? && e.t == t then [e.move] else [])
  }

  lemma OneStepOf(s: Cluster, e: Step, t: TaskId)
    requires t in s.tasks
    ensures t in Next(s, e).tasks
    ensures Next(s, e).tasks[t] == if e.OnTask? && e.t == t then InstanceNext(s.tasks[t], e.move).0 else s.tasks[t]
  {
    hide InstanceNext, Apply;
    if e.OnTask? && e.t in s.tasks {
      var (x, effect) := InstanceNext(s.tasks[e.t], e.move);
      ApplyKeepsTasks(s.(tasks := s.tasks[e.t := x]), x.origin, effect);
    }
  }

  /** In every run of the cluster, whatever the other tasks, calls and nodes do, a task is where its own moves
      alone take it. */
  lemma {:induction false} TaskRun(s: Cluster, es: seq<Step>, t: TaskId)
    requires t in s.tasks
    ensures t in Run(s, es).tasks
    ensures Run(s, es).tasks[t] == InstanceRun(s.tasks[t], MovesOf(es, t))
  {
    if es != [] {
      hide Next, InstanceNext;
      var front, e := es[..|es| - 1], es[|es| - 1];
      TaskRun(s, front, t);
      OneStepOf(Run(s, front), e, t);
      var ms := MovesOf(front, t);
      if e.OnTask? && e.t == t {
        assert (ms + [e.move])[..|ms|] == ms;
      } else {
        assert ms + [] == ms;
      }
    }
  }

  function TaskSteps(t: TaskId, ms: seq<Move>): seq<Step> {
    seq(|ms|, i requires 0 <= i < |ms| => OnTask(t, ms[i]))
  }

  lemma {:induction false} MovesOfTaskSteps(t: TaskId, ms: seq<Move>)
    ensures MovesOf(TaskSteps(t, ms), t) == ms
  {
    if ms != [] {
      var n := |ms| - 1;
      assert TaskSteps(t, ms)[..n] == TaskSteps(t, ms[..n]);
      MovesOfTaskSteps(t, ms[..n]);
      assert ms[..n] + [ms[n]] == ms;
    }
  }

  /** Extends a run that ends in `y` by one move. */
  lemma OneMore(x: Instance, ms: seq<Move>, y: Instance, m: Move, z: Instance) returns (ms': seq<Move>)
    requires InstanceRun(x, ms) == y && InstanceNext(y, m).0 == z
    ensures InstanceRun(x, ms') == z
  {
    ms' := ms + [m];
    assert ms'[..|ms|] == ms;
  }

  /** A queued task whose record says that no retry was made. */
  ghost predicate Uncounted(x: Instance) {
    && x.start == Started && x.queued == 1 && x.pendings == 0 && x.faileds == 0
    && x.acceptors == [] && x.retriers == []
    && x.record.Some? && x.record.value.retries == 0 && x.record.value.target == x.origin.target
  }

  /** The task as an AcceptMigration call leaves it. */
  function AcceptOutcome(task: Task, agreed: bool, shared: bool, localPort: int, rtcpPort: int): Task {
    if !agreed then task.(status := Failed)
    else task.(status := if shared then Completed else Failed, newLocalPort := localPort, newRTCPPort := rtcpPort)
  }

  /** The fate of a write whose error is ignored. */
  function Done(ok: bool): Fate {
    if ok then Answered else NotDone
  }

  /** Which writes of the task record succeed in an AcceptMigration call. */
  datatype Writes = Writes(preparing: bool, completing: bool, outcome: bool)

  /** The record after all of them: that of the last write that succeeded. */
  function AcceptRecord(task: Task, agreed: bool, shared: bool, localPort: int, rtcpPort: int, w: Writes): Task {
    if w.outcome then AcceptOutcome(task, agreed, shared, localPort, rtcpPort)
    else if agreed && w.completing
    then task.(status := Completing, newLocalPort := localPort, newRTCPPort := rtcpPort)
    else if w.preparing then task.(status := Preparing)
    else task
  }

  /** The task as a handleOutgoingMigrationFailed call leaves it. */
  function RetryOutcome(task: Task): Task {
    if task.retries < MAX_RETRIES then task.(retries := task.retries + 1, status := Pending)
    else task.(status := Failed)
  }

  /** The instance after one AcceptMigration call that nothing interrupts. */
  function AfterAccept(
    z: Instance, agreed: bool, shared: bool, w: Writes, localPort: int, rtcpPort: int): Instance
    requires z.record.Some?
  {
    var ok := agreed && shared;
    z.(acceptors := [],
       record := Some(AcceptRecord(z.record.value, agreed, shared, localPort, rtcpPort, w)),
       completeds := z.completeds + if ok then 1 else 0,
       faileds := z.faileds + if ok then 0 else 1)
  }

  /** Run to its end, the step machine of an AcceptMigration call leaves what the method leaves: one event,
      and the record of the last write that succeeded. */
  lemma AcceptAlone(
    x: Instance, ms: seq<Move>, agreed: bool, shared: Fate, w: Writes, localPort: int, rtcpPort: int)
    returns (ms': seq<Move>)
    requires var z := InstanceRun(x, ms);
      && |z.acceptors| == 1 && z.acceptors[0].stage == Fetch
      && z.record.Some? && z.record.value.target == z.origin.target
    ensures InstanceRun(x, ms') == AfterAccept(InstanceRun(x, ms), agreed, shared == Answered, w, localPort, rtcpPort)
  {
    hide InstanceRun;
    var z := InstanceRun(x, ms);
    var task, id := z.record.value.(status := Preparing), z.acceptors[0].id;
    var y1 := z.(acceptors := [Acceptor(id, SavePreparing, task)]);
    ms' := OneMore(x, ms, z, Accept(0, Answered, 0, 0), y1);
    var y2 := Saved(z, task, w.preparing).(acceptors := [Acceptor(id, Handle, task)]);
    ms' := OneMore(x, ms', y1, Accept(0, Done(w.preparing), 0, 0), y2);
    if agreed {
      ms' := AcceptAgreed(x, ms', z, shared, w, localPort, rtcpPort);
    } else {
      var failed := task.(status := Failed);
      var y3 := y2.(acceptors := [Acceptor(id, SaveFailed, failed)]);
      ms' := OneMore(x, ms', y2, Accept(0, NotDone, localPort, rtcpPort), y3);
      ms' := AcceptEnds(x, ms', y3, w.outcome);
    }
  }

  lemma AcceptAgreed(
    x: Instance, ms: seq<Move>, z: Instance, shared: Fate, w: Writes, localPort: int, rtcpPort: int)
    returns (ms': seq<Move>)
    requires z.record.Some? && |z.acceptors| == 1
    requires var task := z.record.value.(status := Preparing);
      InstanceRun(x, ms) == Saved(z, task, w.preparing).(acceptors := [Acceptor(z.acceptors[0].id, Handle, task)])
    ensures InstanceRun(x, ms') == AfterAccept(z, true, shared == Answered, w, localPort, rtcpPort)
  {
    hide InstanceRun;
    var task, id :=
      z.record.value.(status := Completing, newLocalPort := localPort, newRTCPPort := rtcpPort), z.acceptors[0].id;
    var y2 := InstanceRun(x, ms);
    var y3 := y2.(acceptors := [Acceptor(id, SaveCompleting, task)]);
    ms' := OneMore(x, ms, y2, Accept(0, Answered, localPort, rtcpPort), y3);
    var y4 := Saved(y2, task, w.completing).(acceptors := [Acceptor(id, Store, task)]);
    ms' := OneMore(x, ms', y3, Accept(0, Done(w.completing), 0, 0), y4);
    ms' := AcceptStores(x, ms', y4, shared, w.outcome);
  }

  lemma AcceptStores(x: Instance, ms: seq<Move>, y: Instance, shared: Fate, saved: bool) returns (ms': seq<Move>)
    requires InstanceRun(x, ms) == y && |y.acceptors| == 1 && y.acceptors[0].stage == Store
    ensures var task := y.acceptors[0].task.(status := if shared == Answered then Completed else Failed);
      InstanceRun(x, ms') == Saved(y, task, saved).(
        acceptors := [],
        completeds := y.completeds + if shared == Answered then 1 else 0,
        faileds := y.faileds + if shared == Answered then 0 else 1)
  {
    hide InstanceRun;
    var task, id := y.acceptors[0].task, y.acceptors[0].id;
    var z := y.(acceptors := [Acceptor(id, SaveStream, task)]);
    ms' := OneMore(x, ms, y, Accept(0, Answered, 0, 0), z);
    var last := task.(status := if shared == Answered then Completed else Failed);
    var z' := y.(acceptors := [Acceptor(id, if shared == Answered then SaveCompleted else SaveFailed, last)]);
    ms' := OneMore(x, ms', z, Accept(0, shared, 0, 0), z');
    ms' := AcceptEnds(x, ms', z', saved);
  }

  lemma AcceptEnds(x: Instance, ms: seq<Move>, y: Instance, saved: bool) returns (ms': seq<Move>)
    requires InstanceRun(x, ms) == y && |y.acceptors| == 1
    requires y.acceptors[0].stage == SaveCompleted || y.acceptors[0].stage == SaveFailed
    ensures InstanceRun(x, ms') == Saved(y, y.acceptors[0].task, saved).(
              acceptors := [],
              completeds := y.completeds + if y.acceptors[0].stage == SaveCompleted then 1 else 0,
              faileds := y.faileds + if y.acceptors[0].stage == SaveCompleted then 0 else 1)
  {
    hide InstanceRun;
    var task, id := y.acceptors[0].task, y.acceptors[0].id;
    var publish := if y.acceptors[0].stage == SaveCompleted then PublishCompleted else PublishFailed;
    var z := Saved(y, task, saved).(acceptors := [Acceptor(id, publish, task)]);
    ms' := OneMore(x, ms, y, Accept(0, Done(saved), 0, 0), z);
    assert Without(z.acceptors, 0) == [];
    var done := if publish == PublishCompleted then z.(acceptors := [], completeds := z.completeds + 1)
                else z.(acceptors := [], faileds := z.faileds + 1);
    ms' := OneMore(x, ms', z, Accept(0, Answered, 0, 0), done);
  }

  /** Likewise for a failed event that still has retries left. */
  lemma RetryAlone(x: Instance, ms: seq<Move>, saved: bool, pushed: bool) returns (ms': seq<Move>)
    requires var z := InstanceRun(x, ms);
      z.faileds > 0 && z.retriers == [] && z.record.Some? && z.record.value.retries < MAX_RETRIES
    ensures var z := InstanceRun(x, ms);
      InstanceRun(x, ms') == Saved(z, RetryOutcome(z.record.value), saved).(
        faileds := z.faileds - 1, granted := z.granted + 1, queued := if pushed then z.queued + 1 else z.queued)
  {
    hide InstanceRun;
    var z := InstanceRun(x, ms);
    var r := RetryOutcome(z.record.value);
    var y := z.(faileds := z.faileds - 1, retriers := [Retrier(FetchFailed, z.origin)]);
    ms' := OneMore(x, ms, z, DeliverFailed, y);
    var y1 := y.(retriers := [Retrier(SaveRetry, r)], granted := z.granted + 1);
    ms' := OneMore(x, ms', y, Retry(0, true), y1);
    var y2 := Saved(y1, r, saved).(retriers := [Retrier(Requeue, r)]);
    ms' := OneMore(x, ms', y1, Retry(0, saved), y2);
    ms' := OneMore(x, ms', y2, Retry(0, pushed),
                   y2.(retriers := [], queued := if pushed then y2.queued + 1 else y2.queued));
  }

  /** And for one that has none: the record says failed, nothing is queued, and the source's shared record
      goes back to the stream as it was before the migration. */
  lemma RetryGivesUp(x: Instance, ms: seq<Move>, saved: bool, restored: bool) returns (ms': seq<Move>)
    requires var z := InstanceRun(x, ms);
      z.faileds > 0 && z.retriers == [] && z.record.Some? && z.record.value.retries >= 3
    ensures var z := InstanceRun(x, ms);
      && InstanceRun(x, ms' + [Retry(0, restored)])
         == Saved(z, RetryOutcome(z.record.value), saved).(faileds := z.faileds - 1)
      && RetryOutcome(z.record.value) == z.record.value.(status := Failed)
      && InstanceNext(InstanceRun(x, ms'), Retry(0, restored)).1
         == if restored then SaveShared(z.record.value.snapshot.(status := Active, migrationTarget := "")) else Nothing
  {
    hide InstanceRun;
    var z := InstanceRun(x, ms);
    var r := RetryOutcome(z.record.value);
    var y := z.(faileds := z.faileds - 1, retriers := [Retrier(FetchFailed, z.origin)]);
    ms' := OneMore(x, ms, z, DeliverFailed, y);
    var y1 := y.(retriers := [Retrier(SaveGivenUp, r)]);
    ms' := OneMore(x, ms', y, Retry(0, true), y1);
    var y2 := Saved(y1, r, saved).(retriers := [Retrier(Restore, r)]);
    ms' := OneMore(x, ms', y1, Retry(0, saved), y2);
    RunMore(x, ms', Retry(0, restored));
    assert Without(y2.retriers, 0) == [];
  }

  lemma RunMore(x: Instance, ms: seq<Move>, m: Move)
    ensures InstanceRun(x, ms + [m]) == InstanceNext(InstanceRun(x, ms), m).0
  {
    assert (ms + [m])[..|ms|] == ms;
  }

  /** A task that has been accepted, and refused, once more than it has been retried. */
  ghost predicate RefusedAgain(x: Instance, n: nat) {
    && x.start == Started && x.queued == 0 && x.pendings == 0 && x.faileds == 1 && x.completeds == 0
    && x.acceptors == [] && x.retriers == [] && x.closers == [] && x.begun == n + 1
    && x.record.Some? && x.record.value.retries == n && x.record.value.target == x.origin.target
  }

  lemma {:induction false} RefusedEachTime(task: Task, n: nat) returns (ms: seq<Move>)
    requires n <= 3 && task.retries == 0
    ensures RefusedAgain(InstanceRun(Fresh(task), ms), n)
  {
    hide InstanceRun, AcceptNext, RetryNext, CloseNext;
    var x := Fresh(task);
    if n == 0 {
      ms := Popped(task);
    } else {
      ms := RefusedEachTime(task, n - 1);
      ms := RetryAlone(x, ms, true, true);
      var z := InstanceRun(x, ms);
      ms := OneMore(x, ms, z, Pop(true), Begin(z.(queued := 0)));
    }
    ms := AcceptAlone(x, ms, false, NotDone, Writes(true, true, true), 0, 0);
  }

  /** The bound is reached: a task that the target always refuses is accepted four times, and then given up. */
  lemma RetriesUsedUp(task: Task) returns (ms: seq<Move>)
    requires task.retries == 0
    ensures var x := InstanceRun(Fresh(task), ms);
      x.begun == 4 && Quiet(x) && x.record.Some? && x.record.value.status == Failed && x.record.value.retries == 3
  {
    hide InstanceRun, InstanceNext;
    ms := RefusedEachTime(task, 3);
    var given := RetryGivesUp(Fresh(task), ms, true, true);
    ms := given + [Retry(0, true)];
  }

  /** When the writes of the retry count fail, a task can be accepted any number of times. */
  lemma {:induction false} UncountedRetriesNeverEnd(x: Instance, n: nat) returns (ms: seq<Move>)
    requires Uncounted(x)
    ensures Uncounted(InstanceRun(x, ms)) && InstanceRun(x, ms).begun == x.begun + n
  {
    if n == 0 {
      ms := [];
    } else {
      hide InstanceRun;
      ms := UncountedRetriesNeverEnd(x, n - 1);
      var z := InstanceRun(x, ms);
      ms := OneMore(x, ms, z, Pop(true), Begin(z.(queued := 0)));
      ms := AcceptAlone(x, ms, false, NotDone, Writes(true, true, true), 0, 0);
      ms := RetryAlone(x, ms, false, true);
    }
  }

  lemma Popped(task: Task) returns (ms: seq<Move>)
    ensures InstanceRun(Fresh(task), ms) == Begin(Fresh(task).(start := Started))
  {
    hide AcceptNext, RetryNext, CloseNext;
    var x := Fresh(task);
    ms := [];
    assert InstanceRun(x, ms) == x;
    hide InstanceRun;
    var y1 := x.(start := ToMark, queued := 1);
    ms := OneMore(x, ms, x, Enqueue(Answered), y1);
    var y2 := y1.(start := Started);
    ms := OneMore(x, ms, y1, Mark, y2);
    ms := OneMore(x, ms, y2, Pop(true), Begin(y2.(queued := 0)));
  }

  /** An undisturbed migration: from a fresh task to the source about to drop its copy. */
  lemma Undisturbed(task: Task) returns (ms: seq<Move>)
    ensures InstanceRun(Fresh(task), ms).closers == [Unregister]
    ensures InstanceRun(Fresh(task), ms).origin == task
  {
    hide InstanceRun, AcceptNext, RetryNext;
    var x := Fresh(task);
    ms := Popped(task);
    ms := AcceptAlone(x, ms, true, Answered, Writes(true, true, true), 0, 0);
    var z := InstanceRun(x, ms);
    var z1 := z.(completeds := 0, closers := [FetchCompleted]);
    ms := OneMore(x, ms, z, DeliverCompleted, z1);
    ms := OneMore(x, ms, z1, Close(0, true), z1.(closers := [Unregister]));
  }

  /** So in every cluster a node that migrates one of its calls to itself can lose it. */
  lemma SelfMigrationRun(s: Cluster, t: TaskId, n: NodeId, c: CallId) returns (es: seq<Step>)
    requires Initiates(s, t, n, c)
    ensures |es| >= 2 && es[0] == Look(t, n, c, n) && es[1] == Create(t, Answered)
    ensures !Holds(Run(s, es), n, c)
  {
    var first := [Look(t, n, c, n), Create(t, Answered)];
    MigrationStarts(s, t, n, c, n);
    var s1 := Run(s, first);
    var ms := Undisturbed(s1.tasks[t].origin);
    hide InstanceNext, Fresh;
    TaskRun(s1, TaskSteps(t, ms), t);
    MovesOfTaskSteps(t, ms);
    hide Run;
    var s2 := Run(s1, TaskSteps(t, ms));
    ClosingLosesIff(s2, t, 0, true);
    RunConcat(s, first, TaskSteps(t, ms));
    var last := OnTask(t, Close(0, true));
    RunConcat(s, first + TaskSteps(t, ms), [last]);
    RunOne(s2, last);
    es := first + TaskSteps(t, ms) + [last];
  }

  lemma RunOne(s: Cluster, e: Step)
    ensures Run(s, [e]) == Next(s, e)
  {
    assert [e][..0] == [];
  }

  lemma {:induction false} RunConcat(s: Cluster, es: seq<Step>, more: seq<Step>)
    ensures Run(s, es + more) == Run(Run(s, es), more)
  {
    hide Next;
    if more == [] {
      assert es + more == es;
    } else {
      var n := |more| - 1;
      RunConcat(s, es, more[..n]);
      var all := es + more;
      assert all[..|all| - 1] == es + more[..n] && all[|all| - 1] == more[n];
    }
  }

  // -------------------------------------------------------------------------------------
  // Calls that have ended

  /** The step registers the call anew, or is an accept of one of its migrations that has come to the point of
      storing the stream. */
  predicate Revives(s: Cluster, e: Step, c: CallId) {
    || (e.Register? && e.s.call == c && c != "")
    || (&& e.OnTask? && e.t in s.tasks && s.tasks[e.t].origin.call == c
        && e.move.Accept? && e.move.i < |s.tasks[e.t].acceptors| && s.tasks[e.t].acceptors[e.move.i].stage == Store)
  }

  lemma StoresIff(x: Instance, m: Move)
    ensures InstanceNext(x, m).0.origin == x.origin
    ensures InstanceNext(x, m).1.StoreAtTarget?
       <==> m.Accept? && m.i < |x.acceptors| && x.acceptors[m.i].stage == Store
  {
    hide Without;
  }

  lemma ApplyAdds(s: Cluster, task: Task, e: Effect, n: NodeId, c: CallId)
    ensures Holds(Apply(s, task, e), n, c)
       <==> || (Holds(s, n, c) && !(e.DropAtSource? && n == task.source && c == task.call))
            || (e.StoreAtTarget? && n == task.target && c == task.call)
  {
  }

  lemma HoldsNext(s: Cluster, e: Step, c: CallId, n: NodeId)
    requires !Holds(s, n, c)
    ensures Holds(Next(s, e), n, c)
       <==> Revives(s, e, c) && n == (if e.Register? then e.n else s.tasks[e.t].origin.target)
  {
    hide InstanceNext, Apply;
    if e.OnTask? && e.t in s.tasks {
      StoresIff(s.tasks[e.t], e.move);
      var (x, effect) := InstanceNext(s.tasks[e.t], e.move);
      ApplyAdds(s.(tasks := s.tasks[e.t := x]), x.origin, effect, n, c);
    }
  }

  lemma UncachedHolds(s: Cluster, c: CallId)
    ensures !Cached(s, c) <==> forall n :: !Holds(s, n, c)
  {
    if n :| Holds(s, n, c) {
      CachedAt(s, n, c);
    }
    if n :| n in s.caches && c in s.caches[n] {
      assert Holds(s, n, c);
    }
  }

  /** A call that no node caches is cached again exactly by such a step. */
  lemma ComesBackIff(s: Cluster, e: Step, c: CallId)
    requires !Cached(s, c)
    ensures Cached(Next(s, e), c) <==> Revives(s, e, c)
  {
    hide Next, Cached, Holds;
    UncachedHolds(s, c);
    UncachedHolds(Next(s, e), c);
    forall n
      ensures Holds(Next(s, e), n, c)
         <==> Revives(s, e, c) && n == (if e.Register? then e.n else s.tasks[e.t].origin.target)
    {
      HoldsNext(s, e, c, n);
    }
    if Revives(s, e, c) {
      assert Holds(Next(s, e), if e.Register? then e.n else s.tasks[e.t].origin.target, c);
    }
  }

  ghost predicate GoneSince(s: Cluster, es: seq<Step>, i: nat, c: CallId) {
    forall k | i <= k <= |es| :: !Cached(Run(s, es[..k]), c)
  }

  ghost predicate UnrevivedSince(s: Cluster, es: seq<Step>, i: nat, c: CallId) {
    forall j | i <= j < |es| :: !Revives(Run(s, es[..j]), es[j], c)
  }

  lemma GoneExtends(s: Cluster, es: seq<Step>, e: Step, i: nat, c: CallId)
    requires i <= |es|
    ensures GoneSince(s, es + [e], i, c) <==> GoneSince(s, es, i, c) && !Cached(Run(s, es + [e]), c)
  {
    hide Run, Cached;
    var all := es + [e];
    assert all[..|all|] == all;
    if GoneSince(s, all, i, c) {
      forall k | i <= k <= |es| ensures !Cached(Run(s, es[..k]), c) {
        assert all[..k] == es[..k];
      }
    }
    if GoneSince(s, es, i, c) && !Cached(Run(s, all), c) {
      forall k | i <= k <= |all| ensures !Cached(Run(s, all[..k]), c) {
        assert k <= |es| ==> all[..k] == es[..k];
      }
    }
  }

  lemma UnrevivedExtends(s: Cluster, es: seq<Step>, e: Step, i: nat, c: CallId)
    requires i <= |es|
    ensures UnrevivedSince(s, es + [e], i, c) <==> UnrevivedSince(s, es, i, c) && !Revives(Run(s, es), e, c)
  {
    hide Run, Revives;
    var all := es + [e];
    assert all[..|es|] == es && all[|es|] == e;
    if UnrevivedSince(s, all, i, c) {
      forall j | i <= j < |es| ensures !Revives(Run(s, es[..j]), es[j], c) {
        assert all[..j] == es[..j] && all[j] == es[j];
      }
    }
    if UnrevivedSince(s, es, i, c) && !Revives(Run(s, es), e, c) {
      forall j | i <= j < |all| ensures !Revives(Run(s, all[..j]), all[j], c) {
        assert j < |es| ==> all[..j] == es[..j];
      }
    }
  }

  lemma GoneNow(s: Cluster, es: seq<Step>, i: nat, c: CallId)
    requires i <= |es|
    ensures GoneSince(s, es, i, c) ==> !Cached(Run(s, es), c)
    ensures i == |es| && !Cached(Run(s, es), c) ==> GoneSince(s, es, i, c)
  {
    hide Run, Cached;
    assert es[..|es|] == es;
  }

  /** In any run, a call that is gone stays gone exactly when no step of the run revives it. */
  lemma {:induction false} StaysGoneIff(s: Cluster, es: seq<Step>, i: nat, c: CallId)
    requires i <= |es| && !Cached(Run(s, es[..i]), c)
    ensures GoneSince(s, es, i, c) <==> UnrevivedSince(s, es, i, c)
  {
    hide Run, Next, Cached, Revives, GoneSince;
    if i == |es| {
      assert es[..i] == es;
      GoneNow(s, es, i, c);
    } else {
      var front, e := es[..|es| - 1], es[|es| - 1];
      assert front + [e] == es && front[..i] == es[..i];
      StaysGoneIff(s, front, i, c);
      GoneExtends(s, front, e, i, c);
      UnrevivedExtends(s, front, e, i, c);
      hide UnrevivedSince;
      GoneNow(s, front, i, c);
      RunConcat(s, front, [e]);
      RunOne(Run(s, front), e);
      if !Cached(Run(s, front), c) {
        ComesBackIff(Run(s, front), e, c);
      }
    }
  }

  /** Gone for good: no node caches it, no record of it is shared, and no migration of it is in progress. */
  ghost predicate Dormant(s: Cluster, c: CallId) {
    && !Cached(s, c) && c !in s.shared
    && (forall t <- s.tasks | s.tasks[t].origin.call == c :: Quiet(s.tasks[t]))
    && (forall t <- s.starting :: s.starting[t].call != c)
  }

  lemma ApplyShares(s: Cluster, task: Task, e: Effect, c: CallId)
    requires c !in s.shared && (c == task.call ==> e.Nothing?)
    ensures c !in Apply(s, task, e).shared
  {
  }

  lemma TaskStaysDormant(s: Cluster, t: TaskId, m: Move, c: CallId)
    requires Dormant(s, c) && t in s.tasks
    ensures Dormant(Next(s, OnTask(t, m)), c)
  {
    hide InstanceNext, Apply, Cached, Quiet;
    var x := s.tasks[t];
    var (x', e) := InstanceNext(x, m);
    var s1 := s.(tasks := s.tasks[t := x']);
    StoresIff(x, m);
    if x.origin.call == c {
      QuietStays(x, m);
      QuietStoresNothing(x, m);
    }
    ComesBackIff(s, OnTask(t, m), c);
    ApplyShares(s1, x'.origin, e, c);
    ApplyKeepsTasks(s1, x'.origin, e);
  }

  lemma QuietStoresNothing(x: Instance, m: Move)
    requires Quiet(x)
    ensures x.acceptors == []
  {
  }

  lemma StaysDormant(s: Cluster, e: Step, c: CallId)
    requires Dormant(s, c) && !(e.Register? && e.s.call == c)
    ensures Dormant(Next(s, e), c)
  {
    if e.OnTask? && e.t in s.tasks {
      TaskStaysDormant(s, e.t, e.move, c);
    } else {
      hide InstanceNext, Apply, Cached;
      ComesBackIff(s, e, c);
      UncachedHolds(s, c);
      assert e.Look? || e.ShareOwn? ==> !Holds(s, e.n, c);
    }
  }

  /** A call that ended with nothing left of it never comes back unless it is registered anew. */
  lemma {:induction false} EndedForGood(s: Cluster, es: seq<Step>, c: CallId)
    requires Dormant(s, c) && forall e <- es :: !(e.Register? && e.s.call == c)
    ensures Dormant(Run(s, es), c)
  {
    hide Next, Dormant;
    if es != [] {
      assert es[|es| - 1] in es;
      EndedForGood(s, es[..|es| - 1], c);
      StaysDormant(Run(s, es[..|es| - 1]), es[|es| - 1], c);
    }
  }

  /** Extends a run by a move that has no effect outside its task. */
  lemma Advance(s: Cluster, es: seq<Step>, t: TaskId, m: Move, x: Instance) returns (es': seq<Step>)
    requires t in Run(s, es).tasks
    requires InstanceNext(Run(s, es).tasks[t], m).0 == x && InstanceNext(Run(s, es).tasks[t], m).1 == Nothing
    ensures Run(s, es') == Run(s, es).(tasks := Run(s, es).tasks[t := x])
  {
    es' := es + [OnTask(t, m)];
    assert es'[..|es|] == es;
    hide Run, InstanceNext;
  }

  lemma ReachesStore(s: Cluster, es: seq<Step>, t: TaskId) returns (es': seq<Step>, y: Instance)
    requires t in Run(s, es).tasks && Run(s, es).tasks[t] == Fresh(Run(s, es).tasks[t].origin)
    ensures Run(s, es') == Run(s, es).(tasks := Run(s, es).tasks[t := y])
    ensures y.origin == Run(s, es).tasks[t].origin && |y.acceptors| == 1 && y.acceptors[0].stage == Store
  {
    hide Run;
    var x := Run(s, es).tasks[t];
    var task := x.origin;
    var y1 := x.(start := ToMark, queued := 1);
    es' := Advance(s, es, t, Enqueue(Answered), y1);
    var y2 := Begin(y1.(queued := 0));
    es' := Advance(s, es', t, Pop(true), y2);
    es', y := StoreAfterPop(s, es', t, y2);
    assert Run(s, es').tasks == Run(s, es).tasks[t := y];
  }

  lemma StoreAfterPop(s: Cluster, es: seq<Step>, t: TaskId, x: Instance) returns (es': seq<Step>, y: Instance)
    requires t in Run(s, es).tasks && Run(s, es).tasks[t] == x
    requires x.acceptors == [Acceptor(0, Fetch, x.origin)] && x.record == Some(x.origin)
    ensures Run(s, es') == Run(s, es).(tasks := Run(s, es).tasks[t := y])
    ensures y.origin == x.origin && |y.acceptors| == 1 && y.acceptors[0].stage == Store
  {
    hide Run;
    var p, c := x.origin.(status := Preparing), x.origin.(status := Completing, newLocalPort := 0, newRTCPPort := 0);
    var y1 := x.(acceptors := [Acceptor(0, SavePreparing, p)]);
    es' := Advance(s, es, t, Accept(0, Answered, 0, 0), y1);
    var y2 := x.(acceptors := [Acceptor(0, Handle, p)], record := Some(p));
    es' := Advance(s, es', t, Accept(0, Answered, 0, 0), y2);
    var y3 := y2.(acceptors := [Acceptor(0, SaveCompleting, c)]);
    es' := Advance(s, es', t, Accept(0, Answered, 0, 0), y3);
    y := x.(acceptors := [Acceptor(0, Store, c)], record := Some(c));
    es' := Advance(s, es', t, Accept(0, Answered, 0, 0), y);
    assert Run(s, es').tasks == Run(s, es).tasks[t := y];
  }

  /** In every cluster a call that ends at the only node that has it, while it is being migrated, can come
      back at the target. */
  lemma EndedCallComesBack(s: Cluster, t: TaskId, n: NodeId, c: CallId, target: NodeId)
    returns (es: seq<Step>, back: Step)
    requires Initiates(s, t, n, c) && forall m | m != n :: !Holds(s, m, c)
    ensures es != [] && es[|es| - 1] == EndCall(n, c, true)
    ensures !Cached(Run(s, es), c) && c !in Run(s, es).shared
    ensures Revives(Run(s, es), back, c) && back.OnTask? && Holds(Next(Run(s, es), back), target, c)
  {
    hide Cached;
    MigrationStarts(s, t, n, c, target);
    var first := [Look(t, n, c, target), Create(t, Answered)];
    hide Run, Initiates;
    var before, y := ReachesStore(s, first, t);
    es := before + [EndCall(n, c, true)];
    RunConcat(s, before, [EndCall(n, c, true)]);
    RunOne(Run(s, before), EndCall(n, c, true));
    var ended := Run(s, es);
    back := OnTask(t, Accept(0, Answered, 0, 0));
    forall m
      ensures !Holds(ended, m, c)
    {
      assert Holds(s, m, c) ==> m == n;
    }
    UncachedHolds(ended, c);
    HoldsNext(ended, back, c, target);
  }

  lemma MigrationStarts(s: Cluster, t: TaskId, n: NodeId, c: CallId, target: NodeId)
    requires Initiates(s, t, n, c)
    ensures var s1 := Run(s, [Look(t, n, c, target), Create(t, Answered)]);
      && s1.caches == s.caches
      && t in s1.tasks && s1.tasks[t] == Fresh(s1.tasks[t].origin)
      && s1.tasks[t].origin.call == c && s1.tasks[t].origin.source == n && s1.tasks[t].origin.target == target
      && s1.tasks[t].origin.snapshot == (if c in Cache(s, n) then Cache(s, n)[c] else s.shared[c])
      && s1.tasks[t].origin.retries == 0
  {
    var look, create := Look(t, n, c, target), Create(t, Answered);
    assert [look, create] == [look] + [create];
    RunConcat(s, [look], [create]);
    RunOne(s, look);
    RunOne(Next(s, look), create);
  }

  // -------------------------------------------------------------------------------------
  // The object

  datatype Action = PendingAction | CompletedAction | FailedAction

  datatype Notice = Notice(action: Action, id: TaskId, source: NodeId, target: NodeId)

  /** The Redis keys of the migration protocol: task records, the queue, and the event channel. */
  class MigrationStore {
    var tasks: map<TaskId, Task>
    var queue: seq<(TaskId, Task)>
    var published: seq<Notice>
  }

  class StreamMigrationManager {
    const nodeID: NodeId
    const redis: MigrationStore
    const rtp: RTPStateManager
    var pendingMigrations: map<TaskId, Task>

    ghost predicate Valid()
      reads this, rtp
    {
      rtp.nodeID == nodeID && rtp.Valid()
    }

    constructor (nodeID: NodeId, redis: MigrationStore, rtp: RTPStateManager)
      requires rtp.nodeID == nodeID && rtp.Valid()
      ensures this.nodeID == nodeID && this.redis == redis && this.rtp == rtp && pendingMigrations == map[] && Valid()
    {
      this.nodeID, this.redis, this.rtp := nodeID, redis, rtp;
      pendingMigrations := map[];
    }

    method SaveTask(id: TaskId, task: Task, ok: bool)
      modifies redis`tasks
      ensures redis.tasks == if ok then old(redis.tasks)[id := task] else old(redis.tasks)
    {
      if ok {
        redis.tasks := redis.tasks[id := task];
      }
    }

    method Publish(action: Action, id: TaskId, task: Task)
      modifies redis`published
      ensures redis.published == old(redis.published) + [Notice(action, id, task.source, task.target)]
    {
      redis.published := redis.published + [Notice(action, id, task.source, task.target)];
    }

    /** Starts a migration of a stream that this node believes to be its own.  A task that could not be
        queued stays recorded and pending; one whose push lost its answer goes ahead although the call
        reports an error. */
    method InitiateMigration(call: CallId, target: NodeId, id: TaskId,
                             answered: bool, saved: Fate, pushed: Fate, marked: Fate)
      returns (r: Option<Task>)
      requires Valid()
      modifies this, redis, rtp, rtp.redis
      ensures Valid()
      ensures var found := if call in old(rtp.localStates) then Some(old(rtp.localStates)[call])
                           else if answered && call in old(rtp.redis.records) then Some(old(rtp.redis.records)[call])
                           else None;
        var mine := found.Some? && found.value.node == nodeID;
        && (r.Some? <==> mine && saved == Answered && pushed == Answered)
        && (mine && saved != NotDone ==>
              var task := Task(call, nodeID, target, found.value, Pending, 0, 0, 0);
              && redis.tasks == old(redis.tasks)[id := task]
              && pendingMigrations == (if saved == Answered then old(pendingMigrations)[id := task]
                                       else old(pendingMigrations))
              && redis.queue == (if saved == Answered && pushed != NotDone then old(redis.queue) + [(id, task)]
                                 else old(redis.queue))
              && (r.Some? ==> r.value == task))
        && (!(mine && saved != NotDone) ==>
              redis.tasks == old(redis.tasks) && redis.queue == old(redis.queue)
              && pendingMigrations == old(pendingMigrations))
        && (r.Some? && call in old(rtp.localStates) ==>
              var state := old(rtp.localStates)[call].(status := Migrating, migrationTarget := target);
              && rtp.localStates == old(rtp.localStates)[call := state]
              && rtp.redis.records == (if marked != NotDone then old(rtp.redis.records)[state.call := state]
                                       else old(rtp.redis.records)))
        && (!(r.Some? && call in old(rtp.localStates)) ==>
              rtp.localStates == old(rtp.localStates) && rtp.redis.records == old(rtp.redis.records))
        && redis.published == old(redis.published)
    {
      var state := rtp.GetStream(call, answered);
      if state.None? {
        return None;
      }
      if state.value.node != nodeID {
        return None;
      }
      var task := Task(call, nodeID, target, state.value, Pending, 0, 0, 0);
      SaveTask(id, task, saved != NotDone);
      if saved != Answered {
        return None;
      }
      pendingMigrations := pendingMigrations[id := task];
      if pushed != NotDone {
        redis.queue := redis.queue + [(id, task)];
      }
      if pushed != Answered {
        return None;
      }
      var ok := rtp.InitiateMigration(call, target, marked);
      return Some(task);
    }

    /** Takes over a stream: the outcome is published exactly once, and the cache has the stream exactly
        when the handler agreed, even if the shared record then could not be written. */
    method AcceptMigration(id: TaskId, answered: bool, agreed: bool, localPort: int, rtcpPort: int,
                           w: Writes, shared: Fate)
      returns (ok: bool)
      requires Valid()
      modifies redis, rtp, rtp.redis
      ensures Valid()
      ensures redis.queue == old(redis.queue)
      ensures var mine := answered && id in old(redis.tasks) && old(redis.tasks)[id].target == nodeID;
        && (ok <==> mine && agreed && shared == Answered)
        && (!mine ==> redis.tasks == old(redis.tasks) && redis.published == old(redis.published)
                      && rtp.localStates == old(rtp.localStates) && rtp.redis.records == old(rtp.redis.records))
        && (mine ==>
              var task := old(redis.tasks)[id];
              var adopted := Stream(
                call := task.snapshot.call, node := nodeID, localPort := localPort, rtcpPort := rtcpPort,
                status := Active, migrationTarget := "", media := task.snapshot.media);
              var action := if ok then CompletedAction else FailedAction;
              && redis.published == old(redis.published) + [Notice(action, id, task.source, task.target)]
              && rtp.localStates == (if agreed then old(rtp.localStates)[task.call := adopted]
                                     else old(rtp.localStates))
              && rtp.redis.records == (if agreed && shared != NotDone
                                       then old(rtp.redis.records)[task.snapshot.call := adopted]
                                       else old(rtp.redis.records))
              && redis.tasks == old(redis.tasks)[id :=
                   AcceptRecord(task, agreed, shared == Answered, localPort, rtcpPort, w)]
              && (w.outcome ==> redis.tasks[id].status == if ok then Completed else Failed)
              && (agreed && (w.outcome || w.completing) ==>
                    redis.tasks[id].newLocalPort == localPort && redis.tasks[id].newRTCPPort == rtcpPort))
    {
      hide HolderIs;
      if !answered || id !in redis.tasks {
        return false;
      }
      var task := redis.tasks[id];
      if task.target != nodeID {
        return false;
      }
      task := task.(status := Preparing);
      SaveTask(id, task, w.preparing);
      if !agreed {
        task := task.(status := Failed);
        SaveTask(id, task, w.outcome);
        Publish(FailedAction, id, task);
        return false;
      }
      ok := AdoptStream(id, task, localPort, rtcpPort, w, shared);
    }

    /** The rest of AcceptMigration, once the handler has agreed. */
    method AdoptStream(id: TaskId, accepted: Task, localPort: int, rtcpPort: int, w: Writes, shared: Fate)
      returns (ok: bool)
      requires Valid()
      modifies redis, rtp, rtp.redis
      ensures Valid() && redis.queue == old(redis.queue)
      ensures ok == (shared == Answered)
      ensures var adopted := Stream(
          call := accepted.snapshot.call, node := nodeID, localPort := localPort, rtcpPort := rtcpPort,
          status := Active, migrationTarget := "", media := accepted.snapshot.media);
        var last := accepted.(newLocalPort := localPort, newRTCPPort := rtcpPort);
        && redis.published == old(redis.published)
             + [Notice(if ok then CompletedAction else FailedAction, id, accepted.source, accepted.target)]
        && rtp.localStates == old(rtp.localStates)[accepted.call := adopted]
        && rtp.redis.records == (if shared != NotDone then old(rtp.redis.records)[accepted.snapshot.call := adopted]
                                 else old(rtp.redis.records))
        && redis.tasks == (if w.outcome then old(redis.tasks)[id := last.(status := if ok then Completed else Failed)]
                           else if w.completing then old(redis.tasks)[id := last.(status := Completing)]
                           else old(redis.tasks))
    {
      hide HolderIs;
      var task := accepted.(newLocalPort := localPort, newRTCPPort := rtcpPort);
      task := task.(status := Completing);
      SaveTask(id, task, w.completing);
      var newState := task.snapshot.(
        node := nodeID, localPort := task.newLocalPort, rtcpPort := task.newRTCPPort,
        status := Active, migrationTarget := "");
      var completed := rtp.CompleteMigration(task.call, newState, shared);
      if !completed {
        task := task.(status := Failed);
        SaveTask(id, task, w.outcome);
        Publish(FailedAction, id, task);
        return false;
      }
      task := task.(status := Completed);
      SaveTask(id, task, w.outcome);
      Publish(CompletedAction, id, task);
      return true;
    }

    /** Drops the local copy and the shared record of a call that has moved away. */
    method HandleOutgoingMigrationComplete(id: TaskId, answered: bool, deleted: bool)
      requires Valid()
      modifies this, rtp, rtp.redis
      ensures Valid()
      ensures answered && id in redis.tasks ==>
        var call := redis.tasks[id].call;
        && rtp.localStates == old(rtp.localStates) - {call}
        && pendingMigrations == old(pendingMigrations) - {id}
        && rtp.redis.records == (if deleted then old(rtp.redis.records) - {call} else old(rtp.redis.records))
      ensures !(answered && id in redis.tasks) ==>
        && rtp.localStates == old(rtp.localStates) && pendingMigrations == old(pendingMigrations)
        && rtp.redis.records == old(rtp.redis.records)
    {
      if !answered || id !in redis.tasks {
        return;
      }
      var ok := rtp.UnregisterStream(redis.tasks[id].call, Done(deleted));
      pendingMigrations := pendingMigrations - {id};
    }

    /** Queues the task again with one more retry, or gives up after MAX_RETRIES and restores the shared
        record; the local copy stays either way. */
    method HandleOutgoingMigrationFailed(id: TaskId, answered: bool, saved: bool, pushed: bool, shared: bool)
      requires Valid()
      modifies this, redis, rtp.redis
      ensures Valid() && rtp.localStates == old(rtp.localStates) && redis.published == old(redis.published)
      ensures var found := answered && id in old(redis.tasks);
        && (!found ==> redis.tasks == old(redis.tasks) && redis.queue == old(redis.queue)
                       && pendingMigrations == old(pendingMigrations) && rtp.redis.records == old(rtp.redis.records))
        && (found && old(redis.tasks)[id].retries < 3 ==>
              var task := old(redis.tasks)[id];
              var again := task.(retries := task.retries + 1, status := Pending);
              && redis.tasks == (if saved then old(redis.tasks)[id := again] else old(redis.tasks))
              && redis.queue == (if pushed then old(redis.queue) + [(id, again)] else old(redis.queue))
              && pendingMigrations == old(pendingMigrations) && rtp.redis.records == old(rtp.redis.records))
        && (found && old(redis.tasks)[id].retries >= 3 ==>
              var task := old(redis.tasks)[id];
              && redis.tasks == (if saved then old(redis.tasks)[id := task.(status := Failed)] else old(redis.tasks))
              && redis.queue == old(redis.queue)
              && pendingMigrations == old(pendingMigrations) - {id}
              && var restored := task.snapshot.(status := Active, migrationTarget := "");
                 rtp.redis.records == (if shared then old(rtp.redis.records)[restored.call := restored]
                                       else old(rtp.redis.records)))
    {
      if !answered || id !in redis.tasks {
        return;
      }
      var task := redis.tasks[id];
      if task.retries < MAX_RETRIES {
        task := task.(retries := task.retries + 1);
        task := task.(status := Pending);
        SaveTask(id, task, saved);
        if pushed {
          redis.queue := redis.queue + [(id, task)];
        }
      } else {
        task := task.(status := Failed);
        SaveTask(id, task, saved);
        rtp.SaveState(task.snapshot.(status := Active, migrationTarget := ""), Done(shared));
        pendingMigrations := pendingMigrations - {id};
      }
    }

    /** Dispatches an event.  A stream leaves this node's cache only on the completion of a migration this
        node is the source of; the retry bookkeeping moves only on its failure. */
    method HandleMigrationEvent(e: Notice, answered: bool, deleted: bool, saved: bool, pushed: bool, shared: bool)
      returns (accept: Option<TaskId>)
      requires Valid()
      modifies this, redis, rtp, rtp.redis
      ensures Valid() && redis.published == old(redis.published)
      ensures accept == if e.target == nodeID && e.action == PendingAction then Some(e.id) else None
      ensures var own, found := e.source == nodeID, answered && e.id in old(redis.tasks);
        && rtp.localStates == (if own && e.action == CompletedAction && found
                               then old(rtp.localStates) - {old(redis.tasks)[e.id].call}
                               else old(rtp.localStates))
        && (!(own && e.action == FailedAction && found) ==>
              redis.tasks == old(redis.tasks) && redis.queue == old(redis.queue))
        && (own && e.action == FailedAction && found ==>
              var task := old(redis.tasks)[e.id];
              var again := task.retries < 3;
              var next := if again then task.(retries := task.retries + 1, status := Pending)
                          else task.(status := Failed);
              && redis.tasks == (if saved then old(redis.tasks)[e.id := next] else old(redis.tasks))
              && redis.queue == old(redis.queue) + (if again && pushed then [(e.id, next)] else [])
              && pendingMigrations == (if again then old(pendingMigrations) else old(pendingMigrations) - {e.id}))
        && rtp.redis.records ==
             (if own && e.action == CompletedAction && found && deleted
              then old(rtp.redis.records) - {old(redis.tasks)[e.id].call}
              else if own && e.action == FailedAction && found && shared
                      && old(redis.tasks)[e.id].retries >= 3
              then var restored := old(redis.tasks)[e.id].snapshot.(status := Active, migrationTarget := "");
                   old(rtp.redis.records)[restored.call := restored]
              else old(rtp.redis.records))
        && (e.action == PendingAction ==> pendingMigrations == old(pendingMigrations))
        && (e.action == CompletedAction && (e.target == nodeID || (own && found)) ==>
              pendingMigrations == old(pendingMigrations) - {e.id})
    {
      accept := None;
      if e.target == nodeID {
        match e.action {
          case PendingAction => accept := Some(e.id);
          case CompletedAction => pendingMigrations := pendingMigrations - {e.id};
          case FailedAction =>
        }
      }
      if e.source == nodeID {
        match e.action {
          case CompletedAction => HandleOutgoingMigrationComplete(e.id, answered, deleted);
          case FailedAction => HandleOutgoingMigrationFailed(e.id, answered, saved, pushed, shared);
          case PendingAction =>
        }
      }
    }

    /** One round of queueProcessor: the head of the queue is accepted here, or passed on to its target; when
        the answer is lost it is neither. */
    method ProcessQueue(fate: Fate) returns (accept: Option<TaskId>)
      modifies redis
      ensures redis.tasks == old(redis.tasks)
      ensures old(redis.queue) == [] || fate == NotDone ==>
        accept == None && redis.queue == old(redis.queue) && redis.published == old(redis.published)
      ensures old(redis.queue) != [] && fate == AnswerLost ==>
        accept == None && redis.queue == old(redis.queue)[1..] && redis.published == old(redis.published)
      ensures old(redis.queue) != [] && fate == Answered ==>
        var (id, task) := old(redis.queue)[0];
        && redis.queue == old(redis.queue)[1..]
        && accept == (if task.target == nodeID then Some(id) else None)
        && redis.published == old(redis.published)
             + (if task.target == nodeID then [] else [Notice(PendingAction, id, task.source, task.target)])
    {
      if redis.queue == [] || fate == NotDone {
        return None;
      }
      var (id, task) := redis.queue[0];
      redis.queue := redis.queue[1..];
      if fate == AnswerLost {
        return None;
      }
      if task.target == nodeID {
        return Some(id);
      }
      Publish(PendingAction, id, task);
      return None;
    }
  }
}
