/** Leader election over one expiring Redis lock, pkg/cluster/manager.go.

    Every Redis command or script is one atomic step, and so is every write of a node's
    `isLeader` flag.  A node runs an election loop and any number of concurrent
    `ForceReleaseLeadership` calls; their steps interleave freely with those of all other
    nodes.  Node IDs are distinct and the lock's lifetime is a positive whole number of
    milliseconds, the unit of time here. */
module LeaderElection {
  import opened Common

  type Node = string

  datatype Lock = Free | Held(owner: Node, expiry: int)

  /** A key past its expiry does not exist for any command.  Redis expires strictly after the deadline. */
  predicate Live(l: Lock, now: int) {
    l.Held? && now <= l.expiry
  }

  predicate Owns(l: Lock, n: Node, now: int) {
    Live(l, now) && l.owner == n
  }

  // -------------------------------------------------------------------------------------
  // The commands

  /** SET key n NX PX ttl */
  function SetNX(l: Lock, n: Node, now: int, ttl: int): Lock {
    if Live(l, now) then l else Held(n, now + ttl)
  }

  /** if get(key) == n then pexpire(key, ttl) else 0 */
  function RenewScript(l: Lock, n: Node, now: int, ttl: int): Lock {
    if Owns(l, n, now) then Held(n, now + ttl) else l
  }

  /** if get(key) == n then del(key) else 0 */
  function ReleaseScript(l: Lock, n: Node, now: int): Lock {
    if Owns(l, n, now) then Free else l
  }

  // -------------------------------------------------------------------------------------
  // The protocol

  /** Where the election loop of a node stands. */
  datatype Loop =
    | Idle
    | Acquiring   // about to run SETNX
    | Reading     // a leader about to GET the lock
    | Renewing    // read its own ID, about to run the renew script
    | Won         // SETNX succeeded, flag not yet set
    | Lost        // lock belongs to somebody else, flag not yet cleared

  /** `releasing` calls are past their IsLeader check, `clearing` ones past their release script.
      `exposed` says that a release script of this node deleted its lock and the flag has not been
      written since. */
  datatype Local = Local(isLeader: bool, loop: Loop, releasing: nat, clearing: nat, exposed: bool)

  /** `owner` held the lock from `start` until `stop`. */
  datatype Tenure = Tenure(owner: Node, start: int, stop: int)

  datatype System = System(now: int, lock: Lock, nodes: map<Node, Local>, tenures: seq<Tenure>)

  datatype Step =
    | Tick(until: int)
    | Wake(n: Node)                   // the ticker fires and the loop reads IsLeader
    | TrySetNX(n: Node, fate: Fate)
    | Get(n: Node, fate: Fate)
    | Renew(n: Node, fate: Fate)
    | WriteFlag(n: Node)              // setLeaderStatus in the loop
    | CheckRelease(n: Node)           // IsLeader in ForceReleaseLeadership or Stop
    | Release(n: Node, fate: Fate)
    | ClearFlag(n: Node)              // setLeaderStatus(false) after the release script

  const STARTING := Local(false, Acquiring, 0, 0, false)

  ghost predicate Init(s: System) {
    && s.lock == Free && s.tenures == []
    && forall n <- s.nodes :: s.nodes[n] == STARTING
  }

  function WithNode(s: System, n: Node, l: Local): System {
    s.(nodes := s.nodes[n := l])
  }

  function EndLast(ts: seq<Tenure>, stop: int): seq<Tenure> {
    if ts == [] then [] else ts[|ts| - 1 := ts[|ts| - 1].(stop := stop)]
  }

  /** Steps that are not enabled change nothing. */
  function Next(s: System, e: Step, ttl: int): System {
    match e
    case Tick(until) => if until >= s.now then s.(now := until) else s
    case Wake(n) =>
      if n in s.nodes && s.nodes[n].loop == Idle
      then WithNode(s, n, s.nodes[n].(loop := if s.nodes[n].isLeader then Reading else Acquiring))
      else s
    case TrySetNX(n, fate) =>
      if n !in s.nodes || s.nodes[n].loop != Acquiring then s
      else if fate == NotDone || Live(s.lock, s.now) then WithNode(s, n, s.nodes[n].(loop := Idle))
      else
        WithNode(s, n, s.nodes[n].(loop := if fate == Answered then Won else Idle))
          .(lock := SetNX(s.lock, n, s.now, ttl), tenures := s.tenures + [Tenure(n, s.now, s.now + ttl)])
    case Get(n, fate) =>
      if n !in s.nodes || s.nodes[n].loop != Reading then s
      else
        WithNode(s, n, s.nodes[n].(loop :=
          if fate != Answered then Idle
          else if !Live(s.lock, s.now) then Acquiring
          else if s.lock.owner == n then Renewing
          else Lost))
    case Renew(n, fate) =>
      if n !in s.nodes || s.nodes[n].loop != Renewing then s
      else
        var s' := WithNode(s, n, s.nodes[n].(loop :=
          if fate == Answered && !Owns(s.lock, n, s.now) then Lost else Idle));
        if fate != NotDone && Owns(s.lock, n, s.now)
        then s'.(lock := RenewScript(s.lock, n, s.now, ttl), tenures := EndLast(s.tenures, s.now + ttl))
        else s'
    case WriteFlag(n) =>
      if n in s.nodes && (s.nodes[n].loop == Won || s.nodes[n].loop == Lost)
      then WithNode(s, n, s.nodes[n].(isLeader := s.nodes[n].loop == Won, loop := Idle, exposed := false))
      else s
    case CheckRelease(n) =>
      if n in s.nodes && s.nodes[n].isLeader
      then WithNode(s, n, s.nodes[n].(releasing := s.nodes[n].releasing + 1))
      else s
    case Release(n, fate) =>
      if n !in s.nodes || s.nodes[n].releasing == 0 then s
      else
        var l := s.nodes[n].(releasing := s.nodes[n].releasing - 1,
                             clearing := s.nodes[n].clearing + if fate == Answered then 1 else 0);
        if fate != NotDone && Owns(s.lock, n, s.now)
        then WithNode(s, n, l.(exposed := true))
               .(lock := ReleaseScript(s.lock, n, s.now), tenures := EndLast(s.tenures, s.now))
        else WithNode(s, n, l)
    case ClearFlag(n) =>
      if n in s.nodes && s.nodes[n].clearing > 0
      then WithNode(s, n, s.nodes[n].(isLeader := false, exposed := false, clearing := s.nodes[n].clearing - 1))
      else s
  }

  function Run(s: System, es: seq<Step>, ttl: int): System {
    if es == [] then s else Next(Run(s, es[..|es| - 1], ttl), es[|es| - 1], ttl)
  }

  // -------------------------------------------------------------------------------------
  // The scripts respect the owner

  predicate ActsFor(e: Step, n: Node) {
    !e.Tick? && e.n == n
  }

  /** Whatever a node does, it never changes a lock that somebody else holds. */
  lemma OnlyOwnerTouchesLock(s: System, e: Step, ttl: int)
    requires Live(s.lock, s.now) && !ActsFor(e, s.lock.owner)
    ensures Next(s, e, ttl).lock == s.lock
  {
  }

  ghost predicate TenuresOrdered(s: System) {
    && Disjoint(s.tenures, s.now)
    && (s.lock.Held? ==>
          && s.tenures != []
          && var last := s.tenures[|s.tenures| - 1];
             last.owner == s.lock.owner && last.stop == s.lock.expiry)
    && (s.lock.Free? && s.tenures != [] ==> s.tenures[|s.tenures| - 1].stop <= s.now)
  }

  lemma TenuresStep(s: System, e: Step, ttl: int)
    requires TenuresOrdered(s) && ttl > 0
    ensures TenuresOrdered(Next(s, e, ttl))
  {
    hide Disjoint;
    match e {
      case Tick(until) =>
        if until >= s.now {
          DisjointLater(s.tenures, s.now, until);
        }
      case TrySetNX(n, _) =>
        if Next(s, e, ttl).lock != s.lock {
          TenuresGrow(s, n, ttl);
        }
      case Renew(_, _) => TenuresShift(s, s.now + ttl);
      case Release(_, _) => TenuresShift(s, s.now);
      case _ =>
    }
  }

  lemma DisjointLater(ts: seq<Tenure>, now: int, later: int)
    requires Disjoint(ts, now) && now <= later
    ensures Disjoint(ts, later)
  {
  }

  ghost predicate Disjoint(ts: seq<Tenure>, now: int) {
    && (forall i | 0 <= i < |ts| :: ts[i].start <= ts[i].stop && ts[i].start <= now)
    && (forall i, j | 0 <= i < j < |ts| :: ts[i].stop <= ts[j].start)
  }

  lemma TenuresShift(s: System, stop: int)
    requires Disjoint(s.tenures, s.now) && stop >= s.now
    ensures Disjoint(EndLast(s.tenures, stop), s.now)
  {
  }

  lemma TenuresGrow(s: System, n: Node, ttl: int)
    requires TenuresOrdered(s) && ttl > 0 && !Live(s.lock, s.now)
    ensures Disjoint(s.tenures + [Tenure(n, s.now, s.now + ttl)], s.now)
  {
    assert s.tenures != [] ==> s.tenures[|s.tenures| - 1].stop <= s.now;
    forall i | 0 <= i < |s.tenures| ensures s.tenures[i].stop <= s.now {
      assert i < |s.tenures| - 1 ==> s.tenures[i].stop <= s.tenures[|s.tenures| - 1].start;
    }
  }

  /** In every run the tenures are pairwise disjoint and in order, and the last one is the lock's
      current owner, until exactly the lock's expiry. */
  lemma {:induction false} TenuresAreDisjoint(s: System, es: seq<Step>, ttl: int)
    requires Init(s) && ttl > 0
    ensures TenuresOrdered(Run(s, es, ttl))
  {
    if es != [] {
      hide Next;
      TenuresAreDisjoint(s, es[..|es| - 1], ttl);
      TenuresStep(Run(s, es[..|es| - 1], ttl), es[|es| - 1], ttl);
    }
  }

  // -------------------------------------------------------------------------------------
  // At most one leader

  /** Between a release script that deleted the lock and clearing the flag. */
  predicate Releasing(l: Local) {
    l.exposed && l.clearing > 0
  }

  /** A node that acts as leader, or is about to, and is not releasing. */
  predicate Leading(l: Local) {
    (l.isLeader && !Releasing(l)) || l.loop == Won
  }

  /** Every leading node holds the live lock. */
  ghost predicate LeadersOwnLock(s: System) {
    forall n <- s.nodes | Leading(s.nodes[n]) :: Owns(s.lock, n, s.now)
  }

  /** What keeps the invariant: time does not pass the expiry of a leading node's lock; a node does not run
      its release script between winning the lock and setting its flag; and the answer to a release script
      is not lost while the flag is set and no other call is about to clear it. */
  predicate Careful(s: System, e: Step) {
    match e
    case Tick(until) =>
      s.lock.Held? && s.lock.owner in s.nodes && Leading(s.nodes[s.lock.owner]) ==> until <= s.lock.expiry
    case Release(n, fate) =>
      n in s.nodes && s.nodes[n].releasing > 0 && fate != NotDone ==>
        && s.nodes[n].loop != Won
        && (fate == AnswerLost && s.nodes[n].isLeader ==> s.nodes[n].clearing > 0)
    case _ => true
  }

  /** The conditions are exact: a step keeps every leading node in possession of the lock if and
      only if it is careful. */
  lemma CarefulIff(s: System, e: Step, ttl: int)
    requires LeadersOwnLock(s) && ttl > 0
    ensures LeadersOwnLock(Next(s, e, ttl)) <==> Careful(s, e)
  {
    var s' := Next(s, e, ttl);
    match e {
      case Tick(until) =>
        if s.lock.Held? && s.lock.owner in s.nodes && Leading(s.nodes[s.lock.owner]) {
          assert Owns(s.lock, s.lock.owner, s.now);
          assert Owns(s'.lock, s.lock.owner, s'.now) <==> until <= s.lock.expiry;
        }
      case Release(n, fate) =>
        if n in s.nodes && s.nodes[n].releasing > 0 && fate != NotDone && !Careful(s, e) {
          assert Leading(s.nodes[n]) && Owns(s.lock, n, s.now);
          assert Leading(s'.nodes[n]) && !Owns(s'.lock, n, s'.now);
        }
      case _ =>
    }
  }

  ghost predicate CarefulRun(s: System, es: seq<Step>, ttl: int) {
    forall i | 0 <= i < |es| :: Careful(Run(s, es[..i], ttl), es[i])
  }

  /** In every run, leading nodes own the lock in all states exactly when all steps are careful. */
  lemma {:induction false} LeadersOwnLockIff(s: System, es: seq<Step>, ttl: int)
    requires Init(s) && ttl > 0
    ensures CarefulRun(s, es, ttl)
       <==> forall i | 0 <= i <= |es| :: LeadersOwnLock(Run(s, es[..i], ttl))
  {
    hide LeadersOwnLock, Careful, Next;
    if es == [] {
      InitOwns(s);
      assert es[..0] == [];
    } else {
      var n := |es| - 1;
      LeadersOwnLockIff(s, es[..n], ttl);
      assert forall i | 0 <= i <= n :: es[..n][..i] == es[..i];
      assert es[..|es|] == es;
      if LeadersOwnLock(Run(s, es[..n], ttl)) {
        CarefulIff(Run(s, es[..n], ttl), es[n], ttl);
      }
      assert CarefulRun(s, es, ttl) <==> CarefulRun(s, es[..n], ttl) && Careful(Run(s, es[..n], ttl), es[n]);
    }
  }

  lemma InitOwns(s: System)
    requires Init(s)
    ensures LeadersOwnLock(s)
  {
  }

  /** In every careful run at most one node has its flag set, apart from nodes between a release script that
      deleted their lock and clearing their flag. */
  lemma AtMostOneLeader(s: System, es: seq<Step>, ttl: int, a: Node, b: Node)
    requires Init(s) && ttl > 0 && CarefulRun(s, es, ttl)
    requires var s' := Run(s, es, ttl);
      && a in s'.nodes && s'.nodes[a].isLeader && !Releasing(s'.nodes[a])
      && b in s'.nodes && s'.nodes[b].isLeader && !Releasing(s'.nodes[b])
    ensures a == b
  {
    LeadersOwnLockIff(s, es, ttl);
    assert es[..|es|] == es;
  }

  // -------------------------------------------------------------------------------------
  // All three conditions are needed

  lemma RunExtends(s: System, es: seq<Step>, e: Step, ttl: int)
    ensures Run(s, es + [e], ttl) == Next(Run(s, es, ttl), e, ttl)
  {
    assert (es + [e])[..|es|] == es;
  }

  /** Both flags are set and no call is about to clear either. */
  ghost predicate TwoLeaders(s: System, a: Node, b: Node) {
    && a != b && a in s.nodes && b in s.nodes
    && s.nodes[a].isLeader && s.nodes[a].clearing == 0
    && s.nodes[b].isLeader && s.nodes[b].clearing == 0
  }

  /** From any state in which `a` has won the lock but not set its flag while one of its release calls
      is past its check, five steps make both `a` and `b` leaders, neither of them releasing. */
  lemma ReleaseRace(s: System, a: Node, b: Node, ttl: int)
    requires a != b && a in s.nodes && b in s.nodes && ttl > 0
    requires Owns(s.lock, a, s.now)
    requires s.nodes[a].loop == Won && s.nodes[a].releasing > 0 && s.nodes[a].clearing == 0
    requires s.nodes[b].loop == Acquiring && s.nodes[b].clearing == 0
    ensures
      var s1 := Next(Next(s, Release(a, Answered), ttl), ClearFlag(a), ttl);
      var s2 := Next(s1, WriteFlag(a), ttl);
      TwoLeaders(Next(Next(s2, TrySetNX(b, Answered), ttl), WriteFlag(b), ttl), a, b)
  {
    var s0 := Next(s, Release(a, Answered), ttl);
    assert s0.nodes[a].clearing == 1 && s0.lock == Free && s0.nodes[b] == s.nodes[b];
    var s1 := Next(s0, ClearFlag(a), ttl);
    assert s1.nodes[a].loop == Won && s1.nodes[a].clearing == 0 && s1.lock == Free && s1.nodes[b] == s.nodes[b];
    var s2 := Next(s1, WriteFlag(a), ttl);
    assert s2.nodes[a].isLeader && s2.nodes[a].clearing == 0 && s2.lock == Free && s2.nodes[b] == s.nodes[b];
    var s3 := Next(s2, TrySetNX(b, Answered), ttl);
    assert s3.nodes[b].loop == Won && s3.nodes[a] == s2.nodes[a];
  }

  /** That state is reachable: two release calls of `a` overlap with its election loop. */
  lemma ReleaseRaceReachable(a: Node, b: Node, ttl: int) returns (s: System, es: seq<Step>)
    requires a != b && ttl > 0
    ensures Init(s)
    ensures var s' := Run(s, es, ttl);
      && a in s'.nodes && b in s'.nodes && Owns(s'.lock, a, s'.now)
      && s'.nodes[a].loop == Won && s'.nodes[a].releasing > 0 && s'.nodes[a].clearing == 0
      && s'.nodes[b].loop == Acquiring && s'.nodes[b].clearing == 0
  {
    s := System(0, Free, map[a := STARTING, b := STARTING], []);
    es := RaceOpens(s, a, b, ttl);
    hide Run, Next;
    es := RaceCloses(s, es, a, b, ttl);
  }

  lemma RaceOpens(s: System, a: Node, b: Node, ttl: int) returns (es: seq<Step>)
    requires ttl > 0 && RaceState(s, a, b, STARTING, Free)
    ensures RaceState(Run(s, es, ttl), a, b, Local(true, Idle, 2, 0, false), Held(a, ttl))
  {
    es := [];
    assert Run(s, es, ttl) == s;
    hide Run;
    es := RaceStep(s, es, TrySetNX(a, Answered), a, b, ttl, Local(false, Won, 0, 0, false), Held(a, ttl));
    es := RaceStep(s, es, WriteFlag(a), a, b, ttl, Local(true, Idle, 0, 0, false), Held(a, ttl));
    es := RaceStep(s, es, CheckRelease(a), a, b, ttl, Local(true, Idle, 1, 0, false), Held(a, ttl));
    es := RaceStep(s, es, CheckRelease(a), a, b, ttl, Local(true, Idle, 2, 0, false), Held(a, ttl));
  }

  lemma RaceCloses(s: System, es: seq<Step>, a: Node, b: Node, ttl: int) returns (es': seq<Step>)
    requires ttl > 0 && RaceState(Run(s, es, ttl), a, b, Local(true, Idle, 2, 0, false), Held(a, ttl))
    ensures RaceState(Run(s, es', ttl), a, b, Local(false, Won, 1, 0, false), Held(a, ttl))
  {
    hide Run;
    es' := RaceStep(s, es, Release(a, Answered), a, b, ttl, Local(true, Idle, 1, 1, true), Free);
    es' := RaceStep(s, es', ClearFlag(a), a, b, ttl, Local(false, Idle, 1, 0, false), Free);
    es' := RaceStep(s, es', Wake(a), a, b, ttl, Local(false, Acquiring, 1, 0, false), Free);
    es' := RaceStep(s, es', TrySetNX(a, Answered), a, b, ttl, Local(false, Won, 1, 0, false), Held(a, ttl));
  }

  ghost predicate RaceState(s: System, a: Node, b: Node, l: Local, lock: Lock) {
    s.now == 0 && s.nodes.Keys == {a, b} && a != b && s.nodes[a] == l && s.nodes[b] == STARTING && s.lock == lock
  }

  lemma RaceStep(s: System, es: seq<Step>, e: Step, a: Node, b: Node, ttl: int, l: Local, lock: Lock)
    returns (es': seq<Step>)
    requires ttl > 0 && !e.Tick? && e.n == a
    requires var s1 := Run(s, es, ttl);
      && s1.now == 0 && s1.nodes.Keys == {a, b} && a != b && s1.nodes[b] == STARTING
      && Next(s1, e, ttl).nodes[a] == l && Next(s1, e, ttl).lock == lock
    ensures es' == es + [e] && RaceState(Run(s, es', ttl), a, b, l, lock)
  {
    es' := es + [e];
    RunExtends(s, es, e, ttl);
  }

  /** Without a renewal before the expiry, the next node in line becomes a second leader. */
  lemma ExpiryMakesTwoLeaders(s: System, a: Node, b: Node, ttl: int)
    requires a != b && a in s.nodes && b in s.nodes && ttl > 0
    requires Owns(s.lock, a, s.now)
    requires s.nodes[a].isLeader && s.nodes[a].clearing == 0
    requires s.nodes[b].loop == Acquiring && s.nodes[b].clearing == 0
    ensures var s1 := Next(s, Tick(s.lock.expiry + 1), ttl);
      TwoLeaders(Next(Next(s1, TrySetNX(b, Answered), ttl), WriteFlag(b), ttl), a, b)
  {
    var s1 := Next(s, Tick(s.lock.expiry + 1), ttl);
    var s2 := Next(s1, TrySetNX(b, Answered), ttl);
    assert s2.nodes[b].loop == Won && s2.nodes[a] == s.nodes[a];
  }

  /** A release whose script ran but whose answer was lost has returned and never clears the flag: the next
      node in line becomes a second leader, with no release in progress anywhere. */
  lemma LostReleaseAnswer(a: Node, b: Node, ttl: int) returns (s: System, es: seq<Step>)
    requires a != b && ttl > 0
    ensures Init(s)
    ensures es == [TrySetNX(a, Answered), WriteFlag(a), CheckRelease(a), Release(a, AnswerLost)]
                  + [TrySetNX(b, Answered), WriteFlag(b)]
    ensures var s' := Run(s, es, ttl);
      TwoLeaders(s', a, b) && s'.nodes[a].releasing == s'.nodes[b].releasing == 0 && Owns(s'.lock, b, s'.now)
  {
    s := System(0, Free, map[a := STARTING, b := STARTING], []);
    var lost := LostReleaseOpens(s, a, b, ttl);
    hide Run;
    var s4 := Run(s, lost, ttl);
    var won := lost + [TrySetNX(b, Answered)];
    RunExtends(s, lost, TrySetNX(b, Answered), ttl);
    var s5 := Run(s, won, ttl);
    assert s5.nodes[b] == Local(false, Won, 0, 0, false) && s5.nodes[a] == s4.nodes[a];
    es := won + [WriteFlag(b)];
    RunExtends(s, won, WriteFlag(b), ttl);
    assert es == lost + [TrySetNX(b, Answered), WriteFlag(b)];
  }

  lemma LostReleaseOpens(s: System, a: Node, b: Node, ttl: int) returns (es: seq<Step>)
    requires ttl > 0 && RaceState(s, a, b, STARTING, Free)
    ensures es == [TrySetNX(a, Answered), WriteFlag(a), CheckRelease(a), Release(a, AnswerLost)]
    ensures RaceState(Run(s, es, ttl), a, b, Local(true, Idle, 0, 0, true), Free)
  {
    es := [];
    assert Run(s, es, ttl) == s;
    hide Run;
    es := RaceStep(s, es, TrySetNX(a, Answered), a, b, ttl, Local(false, Won, 0, 0, false), Held(a, ttl));
    es := RaceStep(s, es, WriteFlag(a), a, b, ttl, Local(true, Idle, 0, 0, false), Held(a, ttl));
    es := RaceStep(s, es, CheckRelease(a), a, b, ttl, Local(true, Idle, 1, 0, false), Held(a, ttl));
    es := RaceStep(s, es, Release(a, AnswerLost), a, b, ttl, Local(true, Idle, 0, 0, true), Free);
  }

  /** A leader that finds its lock gone and then loses the race for it keeps its flag. */
  lemma LostReacquisitionKeepsFlag(s: System, a: Node, b: Node, ttl: int)
    requires a != b && a in s.nodes && b in s.nodes && ttl > 0 && !Live(s.lock, s.now)
    requires s.nodes[a].isLeader && s.nodes[a].loop == Reading && s.nodes[b].loop == Acquiring
    ensures
      var s1 := Next(s, Get(a, Answered), ttl);
      var s3 := Next(Next(s1, TrySetNX(b, Answered), ttl), TrySetNX(a, Answered), ttl);
      s3.nodes[a].isLeader && s3.nodes[a].loop == Idle && Owns(s3.lock, b, s3.now)
  {
    var s1 := Next(s, Get(a, Answered), ttl);
    assert s1.nodes[a].loop == Acquiring && s1.nodes[b] == s.nodes[b];
    var s2 := Next(s1, TrySetNX(b, Answered), ttl);
    assert s2.lock == Held(b, s.now + ttl) && s2.nodes[a] == s1.nodes[a];
  }

  // -------------------------------------------------------------------------------------
  // Rounds of the election loop

  /** Steps of other nodes, and no more time than the lock lasts. */
  ghost predicate Others(es: seq<Step>, n: Node, expiry: int) {
    forall i | 0 <= i < |es| :: !ActsFor(es[i], n) && (es[i].Tick? ==> es[i].until <= expiry)
  }

  /** A node's lock and its own state survive whatever the others do. */
  lemma {:induction false} OthersLeaveOwner(s: System, es: seq<Step>, n: Node, expiry: int, ttl: int)
    requires n in s.nodes && s.lock == Held(n, expiry) && s.now <= expiry && Others(es, n, expiry)
    ensures var s' := Run(s, es, ttl);
      && n in s'.nodes && s'.nodes[n] == s.nodes[n] && s'.lock == s.lock && s.now <= s'.now <= expiry
  {
    if es != [] {
      var front, e := es[..|es| - 1], es[|es| - 1];
      OthersLeaveOwner(s, front, n, expiry, ttl);
      hide Run;
      OnlyOwnerTouchesLock(Run(s, front, ttl), e, ttl);
    }
  }

  lemma {:induction false} RunConcat(s: System, es: seq<Step>, more: seq<Step>, ttl: int)
    ensures Run(s, es + more, ttl) == Run(Run(s, es, ttl), more, ttl)
  {
    hide Next;
    if more == [] {
      assert es + more == es;
    } else {
      RunConcat(s, es, more[..|more| - 1], ttl);
      assert es + more == (es + more[..|more| - 1]) + [more[|more| - 1]];
      RunExtends(s, es + more[..|more| - 1], more[|more| - 1], ttl);
    }
  }

  lemma RunStep(s: System, e: Step, ttl: int)
    ensures Run(s, [e], ttl) == Next(s, e, ttl)
  {
    assert [e][..0] == [];
  }

  /** A leader whose round begins, and is answered, while it owns the lock renews it for a whole lifetime from
      the moment of the renewal, and stays leader, whatever the other nodes do meanwhile. */
  lemma LeaderRenews(s: System, n: Node, expiry: int, gap1: seq<Step>, gap2: seq<Step>, ttl: int)
    requires n in s.nodes && s.nodes[n].isLeader && s.nodes[n].loop == Idle
    requires s.lock == Held(n, expiry) && s.now <= expiry && Others(gap1, n, expiry) && Others(gap2, n, expiry)
    ensures var s' := Run(s, [Wake(n)] + gap1 + [Get(n, Answered)] + gap2 + [Renew(n, Answered)], ttl);
      && s'.lock == Held(n, s'.now + ttl) && s.now <= s'.now <= expiry
      && n in s'.nodes && s'.nodes[n] == s.nodes[n]
  {
    hide Run, Others;
    var s1 := Next(s, Wake(n), ttl);
    RunStep(s, Wake(n), ttl);
    OthersLeaveOwner(s1, gap1, n, expiry, ttl);
    RunConcat(s, [Wake(n)], gap1, ttl);
    var upToGet := [Wake(n)] + gap1 + [Get(n, Answered)];
    RunExtends(s, [Wake(n)] + gap1, Get(n, Answered), ttl);
    var s2 := Run(s, upToGet, ttl);
    OthersLeaveOwner(s2, gap2, n, expiry, ttl);
    RunConcat(s, upToGet, gap2, ttl);
    RunExtends(s, upToGet + gap2, Renew(n, Answered), ttl);
  }

  /** A follower's round makes it leader exactly when nobody has the lock or its expiry has passed, and then
      for a whole lifetime. */
  lemma FollowerTakesOverIff(s: System, n: Node, ttl: int)
    requires n in s.nodes && !s.nodes[n].isLeader && s.nodes[n].loop == Idle
    ensures var s' := Run(s, [Wake(n), TrySetNX(n, Answered), WriteFlag(n)], ttl);
      && n in s'.nodes && s'.nodes[n].loop == Idle
      && (s'.nodes[n].isLeader <==> s.lock.Free? || s.now > s.lock.expiry)
      && s'.lock == if s'.nodes[n].isLeader then Held(n, s.now + ttl) else s.lock
  {
    ThreeSteps(s, Wake(n), TrySetNX(n, Answered), WriteFlag(n), ttl);
    hide Run;
  }

  /** A flagged node whose lock belongs to somebody else by now finds out, and steps down. */
  lemma DeposedStepsDown(s: System, n: Node, ttl: int)
    requires n in s.nodes && s.nodes[n].isLeader && s.nodes[n].loop == Idle
    requires s.lock.Held? && s.lock.owner != n && s.now <= s.lock.expiry
    ensures var s' := Run(s, [Wake(n), Get(n, Answered), WriteFlag(n)], ttl);
      s'.lock == s.lock && n in s'.nodes && !s'.nodes[n].isLeader && s'.nodes[n].loop == Idle
  {
    ThreeSteps(s, Wake(n), Get(n, Answered), WriteFlag(n), ttl);
    hide Run;
  }

  /** A leader that owns the lock and releases it leaves it free for the next round of any follower. */
  lemma LeaderReleases(s: System, n: Node, ttl: int)
    requires n in s.nodes && s.nodes[n].isLeader && s.nodes[n].releasing == 0 && s.nodes[n].clearing == 0
    requires s.lock.Held? && s.lock.owner == n && s.now <= s.lock.expiry
    ensures var s' := Run(s, [CheckRelease(n), Release(n, Answered), ClearFlag(n)], ttl);
      s'.lock == Free && n in s'.nodes && !s'.nodes[n].isLeader && s'.nodes[n].loop == s.nodes[n].loop
  {
    ThreeSteps(s, CheckRelease(n), Release(n, Answered), ClearFlag(n), ttl);
    hide Run;
  }

  lemma ThreeSteps(s: System, a: Step, b: Step, c: Step, ttl: int)
    ensures Run(s, [a, b, c], ttl) == Next(Next(Next(s, a, ttl), b, ttl), c, ttl)
  {
    hide Next;
    RunStep(s, a, ttl);
    assert [a, b] == [a] + [b] && [a, b, c] == [a, b] + [c];
    RunExtends(s, [a], b, ttl);
    RunExtends(s, [a, b], c, ttl);
  }

  // -------------------------------------------------------------------------------------
  // The methods are runs of steps

  /** SETNX and the flag write after it, whatever other nodes do in between. */
  lemma AcquireIsSteps(s: System, n: Node, fate: Fate, ttl: int, s1: System)
    requires n in s.nodes && s.nodes[n].loop == Acquiring
    requires n in s1.nodes && s1.nodes[n] == Next(s, TrySetNX(n, fate), ttl).nodes[n]
    ensures Next(s, TrySetNX(n, fate), ttl).lock
         == if fate == NotDone then s.lock else SetNX(s.lock, n, s.now, ttl)
    ensures Next(s1, WriteFlag(n), ttl).nodes[n].isLeader
         == (s.nodes[n].isLeader || (fate == Answered && !Live(s.lock, s.now)))
  {
  }

  /** What a renewal makes of the flag: `read` is the fate of the GET, which sees `seen` at `now`; `acted` the
      fate of the SETNX or renew script after it, which finds `found` at `later`. */
  predicate FlagAfterRenewal(
    flag: bool, n: Node, read: Fate, seen: Lock, now: int, acted: Fate, found: Lock, later: int)
  {
    if read != Answered then flag
    else if !Live(seen, now) then flag || (acted == Answered && !Live(found, later))
    else if seen.owner != n then false
    else flag && (acted == Answered ==> Owns(found, n, later))
  }

  /** And of the lock. */
  function LockAfterRenewal(
    n: Node, read: Fate, seen: Lock, now: int, acted: Fate, found: Lock, later: int, ttl: int): Lock
  {
    if read != Answered || (Live(seen, now) && seen.owner != n) || acted == NotDone then found
    else if !Live(seen, now) then SetNX(found, n, later, ttl)
    else RenewScript(found, n, later, ttl)
  }

  /** GET, then SETNX or the renew script, then the flag write, whatever other nodes do in between. */
  lemma RenewIsSteps(s: System, n: Node, read: Fate, acted: Fate, ttl: int, s1: System, s2: System)
    requires n in s.nodes && s.nodes[n].loop == Reading
    requires n in s1.nodes && s1.nodes[n] == Next(s, Get(n, read), ttl).nodes[n]
    requires var e := if s1.nodes[n].loop == Acquiring then TrySetNX(n, acted) else Renew(n, acted);
      n in s2.nodes && s2.nodes[n] == Next(s1, e, ttl).nodes[n]
    ensures var e := if s1.nodes[n].loop == Acquiring then TrySetNX(n, acted) else Renew(n, acted);
      Next(s1, e, ttl).lock == LockAfterRenewal(n, read, s.lock, s.now, acted, s1.lock, s1.now, ttl)
    ensures Next(s2, WriteFlag(n), ttl).nodes[n].isLeader
         == FlagAfterRenewal(s.nodes[n].isLeader, n, read, s.lock, s.now, acted, s1.lock, s1.now)
  {
  }

  /** The release script and the flag write after it. */
  lemma ReleaseIsSteps(s: System, n: Node, fate: Fate, ttl: int, s1: System)
    requires n in s.nodes && s.nodes[n].releasing > 0 && s.nodes[n].clearing == 0
    requires n in s1.nodes && s1.nodes[n] == Next(s, Release(n, fate), ttl).nodes[n]
    ensures Next(s, Release(n, fate), ttl).lock
         == if fate == NotDone then s.lock else ReleaseScript(s.lock, n, s.now)
    ensures Next(s1, ClearFlag(n), ttl).nodes[n].isLeader == (s.nodes[n].isLeader && fate != Answered)
  {
  }

  // -------------------------------------------------------------------------------------
  // The object

  /** The Redis instance as far as the lock is concerned. */
  class LockServer {
    var now: int
    var lock: Lock
  }

  class Manager {
    const nodeID: Node
    const lockTTL: int
    const redis: LockServer
    var isLeader: bool
    var notified: seq<bool>   // arguments of the leadership callbacks, in order

    /** Callbacks report gain and loss in strict alternation, starting with a gain, and the flag is the
        last report. */
    ghost predicate Valid()
      reads this
    {
      && (forall i | 0 <= i < |notified| :: notified[i] == (i % 2 == 0))
      && isLeader == (|notified| % 2 == 1)
    }

    constructor (nodeID: Node, lockTTL: int, redis: LockServer)
      ensures Valid() && !isLeader
      ensures this.nodeID == nodeID && this.lockTTL == lockTTL && this.redis == redis
    {
      this.nodeID, this.lockTTL, this.redis := nodeID, lockTTL, redis;
      isLeader, notified := false, [];
    }

    method SetLeaderStatus(status: bool)
      requires Valid()
      modifies this
      ensures Valid() && isLeader == status
      ensures notified == old(notified) + if old(isLeader) == status then [] else [status]
    {
      var wasLeader := isLeader;
      isLeader := status;
      if wasLeader != status {
        notified := notified + [status];
      }
    }

    method TryAcquireLeadership(fate: Fate)
      requires Valid()
      modifies this, redis`lock
      ensures Valid()
      ensures redis.lock == if fate == NotDone then old(redis.lock)
                            else SetNX(old(redis.lock), nodeID, redis.now, lockTTL)
      ensures isLeader == (old(isLeader) || (fate == Answered && !Live(old(redis.lock), redis.now)))
    {
      var success := !Live(redis.lock, redis.now);
      if fate != NotDone {
        redis.lock := SetNX(redis.lock, nodeID, redis.now, lockTTL);
      }
      if fate != Answered {
        return;
      }
      if success {
        SetLeaderStatus(true);
      }
    }

    /** Other nodes may act between the GET and the SETNX or renew script: `found` and `later` are what that
        one finds.  When both commands are answered, the flag ends up telling the truth about the lock
        exactly when the node did not find the lock gone and then lose the race for it. */
    method TryRenewLeadership(read: Fate, acted: Fate, found: Lock, later: int)
      requires Valid() && lockTTL > 0
      modifies this, redis
      ensures Valid()
      ensures var seen, now := old(redis.lock), old(redis.now);
        var second := read == Answered && (Live(seen, now) ==> seen.owner == nodeID);
        && isLeader == FlagAfterRenewal(old(isLeader), nodeID, read, seen, now, acted, found, later)
        && redis.now == (if second then later else now)
        && redis.lock == (if second
                          then LockAfterRenewal(nodeID, read, seen, now, acted, found, later, lockTTL)
                          else seen)
      ensures old(isLeader) && read == Answered && acted == Answered ==>
        ((isLeader <==> Owns(redis.lock, nodeID, redis.now))
         <==> !(!Live(old(redis.lock), old(redis.now)) && Live(found, later) && found.owner != nodeID))
    {
      if read != Answered {
        return;
      }
      if !Live(redis.lock, redis.now) {
        redis.lock, redis.now := found, later;
        TryAcquireLeadership(acted);
        return;
      }
      if redis.lock.owner != nodeID {
        SetLeaderStatus(false);
        return;
      }
      redis.lock, redis.now := found, later;
      var held := Owns(redis.lock, nodeID, redis.now);
      if acted != NotDone {
        redis.lock := RenewScript(redis.lock, nodeID, redis.now, lockTTL);
      }
      if acted == Answered && !held {
        SetLeaderStatus(false);
      }
    }

    /** An unanswered release leaves the flag set even when the lock is gone. */
    method ReleaseLeadership(fate: Fate)
      requires Valid()
      modifies this, redis`lock
      ensures Valid()
      ensures redis.lock == if fate == NotDone then old(redis.lock)
                            else ReleaseScript(old(redis.lock), nodeID, redis.now)
      ensures isLeader == (old(isLeader) && fate != Answered)
      ensures fate == Answered ==> !Owns(redis.lock, nodeID, redis.now)
    {
      if fate != NotDone {
        redis.lock := ReleaseScript(redis.lock, nodeID, redis.now);
      }
      if fate == Answered {
        SetLeaderStatus(false);
      }
    }
  }
}
