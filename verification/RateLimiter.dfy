/** The Redis sliding-window limiter of pkg/cluster/distributed_ratelimit.go.

    A limit key holds a Redis sorted set (`entries`, member to score) and an expiry in
    Redis's own clock.  Scores and `now` are the callers' nanoseconds; `server` is Redis's
    millisecond clock when the command runs.  The Lua script is one atomic step. */
module RateLimiting {
  import opened Common

  // -------------------------------------------------------------------------------------
  // The Redis key and the script

  const NANOS_PER_MILLI := 1_000_000

  datatype Key = Key(entries: map<string, int>, expiry: int)

  const ABSENT := Key(map[], 0)

  datatype Reply = Reply(allowed: bool, remaining: int, retryAfter: int)

  /** What a command sees: an expired key is gone.  Redis expires strictly after the deadline. */
  function Visible(k: Key, server: int): map<string, int> {
    if server > k.expiry then map[] else k.entries
  }

  /** ZREMRANGEBYSCORE key -inf start */
  function Prune(entries: map<string, int>, start: int): map<string, int> {
    map m | m in entries && entries[m] > start :: entries[m]
  }

  ghost predicate IsOldest(entries: map<string, int>, score: int) {
    && (exists m <- entries :: entries[m] == score)
    && (forall m <- entries :: score <= entries[m])
  }

  /** ZRANGE key 0 0 WITHSCORES, the lowest score of a non-empty set. */
  ghost function Oldest(entries: map<string, int>): (score: int)
    requires entries != map[]
    ensures IsOldest(entries, score)
  {
    OldestExists(entries);
    var score :| IsOldest(entries, score);
    score
  }

  lemma {:induction false} OldestExists(entries: map<string, int>)
    requires entries != map[]
    ensures exists score :: IsOldest(entries, score)
    decreases |entries|
  {
    var m :| m in entries;
    var rest := entries - {m};
    assert entries == rest[m := entries[m]];
    if rest == map[] {
      assert IsOldest(entries, entries[m]);
    } else {
      OldestExists(rest);
      var score :| IsOldest(rest, score);
      if entries[m] < score {
        assert IsOldest(entries, entries[m]);
      } else {
        var o :| o in rest && rest[o] == score;
        assert entries[o] == score;
        assert IsOldest(entries, score);
      }
    }
  }

  datatype Limit = Limit(calls: int, windowMillis: nat) {
    function Window(): int {
      windowMillis * NANOS_PER_MILLI
    }
  }

  /** The whole Lua script: prune, count, then admit (and push the expiry) or refuse. */
  ghost function Script(l: Limit, k: Key, now: int, server: int, member: string): (Key, Reply) {
    var start := now - l.Window();
    var entries := Prune(Visible(k, server), start);
    if |entries| < l.calls then
      (Key(entries[member := now], server + l.windowMillis), Reply(true, l.calls - |entries| - 1, 0))
    else
      (Key(entries, k.expiry),
       Reply(false, 0, if entries == map[] then 0 else Oldest(entries) - start))
  }

  // -------------------------------------------------------------------------------------
  // Runs of one key

  datatype Event =
    | Request(now: int, server: int, member: string)
    | Cleanup(now: int, longWindow: int)

  /** An admission, and which operation on the key it was. */
  datatype Admission = Admission(time: int, server: int, member: string, at: nat)

  /** Key, every admission ever made, every reply, and the number of operations, after a run. */
  datatype World = World(key: Key, log: seq<Admission>, replies: seq<Reply>, steps: nat)

  ghost function Step(l: Limit, w: World, e: Event): World {
    match e
    case Request(now, server, member) =>
      var (key, reply) := Script(l, w.key, now, server, member);
      World(key,
            if reply.allowed then w.log + [Admission(now, server, member, w.steps)] else w.log,
            w.replies + [reply], w.steps + 1)
    case Cleanup(now, longWindow) =>
      w.(key := Key(Prune(w.key.entries, now - longWindow), w.key.expiry), steps := w.steps + 1)
  }

  /** The events are in the order Redis runs them; the times in them are whatever the callers and Redis
      read, in any order. */
  ghost function Run(l: Limit, es: seq<Event>): World {
    if es == [] then World(ABSENT, [], [], 0) else Step(l, Run(l, es[..|es| - 1]), es[|es| - 1])
  }

  lemma RunExtends(l: Limit, es: seq<Event>, e: Event)
    ensures Run(l, es + [e]) == Step(l, Run(l, es), e)
  {
    assert (es + [e])[..|es|] == es;
  }

  /** The admissions later than `start`, in order. */
  function Since(log: seq<Admission>, start: int): seq<Admission> {
    if log == [] then []
    else
      var a := log[|log| - 1];
      if a.time > start then Since(log[..|log| - 1], start) + [a] else Since(log[..|log| - 1], start)
  }

  function OldestTime(log: seq<Admission>): int
    requires log != []
  {
    var last := log[|log| - 1].time;
    if |log| == 1 then last
    else
      var rest := OldestTime(log[..|log| - 1]);
      if last < rest then last else rest
  }

  /** The limiter that never forgets: it counts the whole admission log over the last window. */
  function NaiveReply(l: Limit, log: seq<Admission>, now: int): Reply {
    var start := now - l.Window();
    var recent := Since(log, start);
    if |recent| < l.calls then Reply(true, l.calls - |recent| - 1, 0)
    else Reply(false, 0, if recent == [] then 0 else OldestTime(recent) - start)
  }

  datatype NaiveWorld = NaiveWorld(log: seq<Admission>, replies: seq<Reply>, steps: nat)

  function NaiveStep(l: Limit, w: NaiveWorld, e: Event): NaiveWorld {
    match e
    case Request(now, server, member) =>
      var reply := NaiveReply(l, w.log, now);
      NaiveWorld(if reply.allowed then w.log + [Admission(now, server, member, w.steps)] else w.log,
                 w.replies + [reply], w.steps + 1)
    case Cleanup(_, _) => w.(steps := w.steps + 1)
  }

  function NaiveRun(l: Limit, es: seq<Event>): NaiveWorld {
    if es == [] then NaiveWorld([], [], 0) else NaiveStep(l, NaiveRun(l, es[..|es| - 1]), es[|es| - 1])
  }

  // -------------------------------------------------------------------------------------
  // What becomes of an admission

  /** The key has outlived its expiry, which counts from the last admission. */
  predicate RunOut(l: Limit, log: seq<Admission>, server: int) {
    log != [] && server > log[|log| - 1].server + l.windowMillis
  }

  /** Operation `e` on `w` takes the entry of an earlier admission away: its window or the sweep's has moved
      past it, the whole key has run out, or the same member is added again. */
  ghost predicate Displaces(l: Limit, w: World, e: Event, a: Admission) {
    match e
    case Request(now, server, member) =>
      || a.time <= now - l.Window()
      || RunOut(l, w.log, server)
      || (member == a.member && Script(l, w.key, now, server, member).1.allowed)
    case Cleanup(now, longWindow) => a.time <= now - longWindow
  }

  /** No operation since the admission has taken its entry away. */
  ghost predicate Kept(l: Limit, es: seq<Event>, a: Admission) {
    forall j | a.at < j < |es| :: !Displaces(l, Run(l, es[..j]), es[j], a)
  }

  /** A request meets its window intact: every admission inside it is still kept. */
  ghost predicate Faithful(l: Limit, es: seq<Event>, e: Event) {
    e.Request? ==>
      var log := Run(l, es).log;
      forall i | 0 <= i < |log| && log[i].time > e.now - l.Window() ::
        Kept(l, es, log[i]) && !RunOut(l, log, e.server)
  }

  ghost predicate FaithfulRun(l: Limit, es: seq<Event>) {
    forall n | 0 <= n < |es| :: Faithful(l, es[..n], es[n])
  }

  lemma KeptExtends(l: Limit, es: seq<Event>, e: Event, a: Admission)
    ensures a.at < |es| ==> (Kept(l, es + [e], a) <==> Kept(l, es, a) && !Displaces(l, Run(l, es), e, a))
    ensures a.at >= |es| ==> Kept(l, es + [e], a)
  {
    hide Run, Displaces;
    var all := es + [e];
    assert forall j | 0 <= j <= |es| :: all[..j] == es[..j];
    assert es[..|es|] == es && all[|es|] == e;
    if a.at < |es| {
      assert Kept(l, all, a) ==> Kept(l, es, a) by {
        assert forall j | 0 <= j < |es| :: all[j] == es[j];
      }
    }
  }

  lemma FaithfulPrefix(l: Limit, es: seq<Event>, more: seq<Event>)
    requires FaithfulRun(l, es + more)
    ensures FaithfulRun(l, es)
  {
    hide Faithful;
    var all := es + more;
    forall n | 0 <= n < |es|
      ensures Faithful(l, es[..n], es[n])
    {
      assert all[..n] == es[..n] && all[n] == es[n];
    }
  }

  lemma FaithfulExtends(l: Limit, es: seq<Event>, e: Event)
    ensures FaithfulRun(l, es + [e]) <==> FaithfulRun(l, es) && Faithful(l, es, e)
  {
    hide Faithful;
    var all := es + [e];
    assert all[..|es|] == es && all[|es|] == e;
    if FaithfulRun(l, all) {
      FaithfulPrefix(l, es, [e]);
      assert Faithful(l, all[..|es|], all[|es|]);
    }
    if FaithfulRun(l, es) && Faithful(l, es, e) {
      forall n | 0 <= n < |all|
        ensures Faithful(l, all[..n], all[n])
      {
        assert n < |es| ==> all[..n] == es[..n];
      }
    }
  }

  // -------------------------------------------------------------------------------------
  // The key represents the admissions that are kept

  /** Entries and kept admissions correspond one to one. */
  ghost predicate Represents(l: Limit, k: Key, log: seq<Admission>, kept: set<nat>) {
    && Matches(k.entries, log, kept)
    && (log != [] ==> k.expiry == log[|log| - 1].server + l.windowMillis)
  }

  ghost predicate Matches(entries: map<string, int>, log: seq<Admission>, kept: set<nat>) {
    && (forall i <- kept :: i < |log| && log[i].member in entries && entries[log[i].member] == log[i].time)
    && (forall i <- kept, j <- kept | i != j :: log[i].member != log[j].member)
    && (forall m <- entries :: exists i <- kept :: log[i].member == m)
  }

  /** What a request at these times still finds. */
  ghost function Live(l: Limit, log: seq<Admission>, kept: set<nat>, now: int, server: int): set<nat> {
    set i <- kept | i < |log| && !RunOut(l, log, server) && log[i].time > now - l.Window()
  }

  lemma LiveMatches(l: Limit, k: Key, log: seq<Admission>, kept: set<nat>, now: int, server: int)
    requires Represents(l, k, log, kept)
    ensures Matches(Prune(Visible(k, server), now - l.Window()), log, Live(l, log, kept, now, server))
  {
    var found := Prune(Visible(k, server), now - l.Window());
    var live := Live(l, log, kept, now, server);
    forall m | m in found
      ensures exists i <- live :: log[i].member == m
    {
      var i :| i in kept && log[i].member == m;
      assert i in live;
    }
  }

  lemma AddMatches(entries: map<string, int>, log: seq<Admission>, kept: set<nat>, a: Admission)
    requires Matches(entries, log, kept)
    ensures Matches(entries[a.member := a.time], log + [a],
                    (set i <- kept | i < |log| && log[i].member != a.member) + {|log|})
  {
    var kept' := (set i <- kept | i < |log| && log[i].member != a.member) + {|log|};
    var entries', log' := entries[a.member := a.time], log + [a];
    forall m | m in entries'
      ensures exists i <- kept' :: log'[i].member == m
    {
      if m == a.member {
        assert |log| in kept' && log'[|log|].member == m;
      } else {
        var i :| i in kept && log[i].member == m;
        assert i in kept' && log'[i].member == m;
      }
    }
  }

  lemma SweepMatches(entries: map<string, int>, log: seq<Admission>, kept: set<nat>, start: int)
    requires Matches(entries, log, kept)
    ensures Matches(Prune(entries, start), log, set i <- kept | i < |log| && log[i].time > start)
  {
    var kept' := set i <- kept | i < |log| && log[i].time > start;
    forall m | m in Prune(entries, start)
      ensures exists i <- kept' :: log[i].member == m
    {
      var i :| i in kept && log[i].member == m;
      assert i in kept';
    }
  }

  ghost function KeptSet(l: Limit, es: seq<Event>): set<nat> {
    set i: nat | i < |Run(l, es).log| && Kept(l, es, Run(l, es).log[i])
  }

  lemma {:induction false} Steps(l: Limit, es: seq<Event>)
    ensures Run(l, es).steps == |es|
    ensures forall i | 0 <= i < |Run(l, es).log| :: Run(l, es).log[i].at < |es|
  {
    if es != [] {
      hide Script;
      Steps(l, es[..|es| - 1]);
    }
  }

  lemma KeptSetExtends(l: Limit, es: seq<Event>, e: Event, i: nat)
    requires i < |Run(l, es + [e]).log|
    ensures |Run(l, es).log| <= |Run(l, es + [e]).log|
    ensures i < |Run(l, es).log| ==>
              (i in KeptSet(l, es + [e])
               <==> i in KeptSet(l, es) && !Displaces(l, Run(l, es), e, Run(l, es).log[i]))
    ensures i >= |Run(l, es).log| ==> i in KeptSet(l, es + [e])
  {
    RunExtends(l, es, e);
    Steps(l, es);
    hide Run, Script, Kept, Displaces;
    KeptExtends(l, es, e, Run(l, es + [e]).log[i]);
  }

  lemma StepRepresents(l: Limit, es: seq<Event>, e: Event)
    requires Represents(l, Run(l, es).key, Run(l, es).log, KeptSet(l, es))
    ensures Represents(l, Run(l, es + [e]).key, Run(l, es + [e]).log, KeptSet(l, es + [e]))
  {
    hide Run, Matches, Kept, KeptSet, Prune, Visible, Oldest, IsOldest;
    RunExtends(l, es, e);
    var w, w', kept := Run(l, es), Run(l, es + [e]), KeptSet(l, es);
    forall i: nat | i < |w'.log|
      ensures i < |w.log| ==> (i in KeptSet(l, es + [e]) <==> i in kept && !Displaces(l, w, e, w.log[i]))
      ensures i >= |w.log| ==> i in KeptSet(l, es + [e])
    {
      KeptSetExtends(l, es, e, i);
    }
    KeptInLog(l, es);
    KeptInLog(l, es + [e]);
    match e {
      case Request(now, server, member) =>
        LiveMatches(l, w.key, w.log, kept, now, server);
        var live := Live(l, w.log, kept, now, server);
        if Script(l, w.key, now, server, member).1.allowed {
          var a := Admission(now, server, member, w.steps);
          AddMatches(Prune(Visible(w.key, server), now - l.Window()), w.log, live, a);
          assert KeptSet(l, es + [e]) == (set i <- live | i < |w.log| && w.log[i].member != member) + {|w.log|};
        } else {
          assert KeptSet(l, es + [e]) == live;
        }
      case Cleanup(now, longWindow) =>
        SweepMatches(w.key.entries, w.log, kept, now - longWindow);
        assert KeptSet(l, es + [e]) == set i <- kept | i < |w.log| && w.log[i].time > now - longWindow;
    }
  }

  lemma KeptInLog(l: Limit, es: seq<Event>)
    ensures forall i <- KeptSet(l, es) :: i < |Run(l, es).log|
  {
  }

  /** After every run, whatever was pruned, swept, expired or overwritten and however the clocks were
      read, the key holds exactly the admissions that are kept. */
  lemma {:induction false} RunRepresents(l: Limit, es: seq<Event>)
    ensures Represents(l, Run(l, es).key, Run(l, es).log, KeptSet(l, es))
  {
    if es == [] {
      assert KeptSet(l, es) == {};
    } else {
      hide Represents, KeptSet, Run;
      var n := |es| - 1;
      assert es[..n] + [es[n]] == es;
      RunRepresents(l, es[..n]);
      StepRepresents(l, es[..n], es[n]);
    }
  }

  // -------------------------------------------------------------------------------------
  // Counting

  ghost function Recent(log: seq<Admission>, start: int): set<nat> {
    set i: nat | i < |log| && log[i].time > start
  }

  ghost predicate IsMin(log: seq<Admission>, s: set<nat>, t: int) {
    && (forall i <- s :: i < |log| && t <= log[i].time)
    && (exists i <- s :: i < |log| && log[i].time == t)
  }

  lemma OldestFrom(entries: map<string, int>, first: string)
    requires first in entries && forall m <- entries :: entries[first] <= entries[m]
    ensures entries != map[] && Oldest(entries) == entries[first]
  {
  }

  lemma MinUnique(log: seq<Admission>, s: set<nat>, t: int, u: int)
    requires IsMin(log, s, t) && IsMin(log, s, u)
    ensures t == u
  {
  }

  lemma RecentExtends(log: seq<Admission>, a: Admission, start: int)
    ensures Recent(log + [a], start) == Recent(log, start) + (if a.time > start then {|log|} else {})
  {
  }

  lemma MinExtends(log: seq<Admission>, s: set<nat>, t: int, a: Admission)
    requires IsMin(log, s, t)
    ensures IsMin(log + [a], s, t)
    ensures IsMin(log + [a], s + {|log|}, if a.time < t then a.time else t)
  {
    var i :| i in s && i < |log| && log[i].time == t;
    assert (log + [a])[i].time == t && (log + [a])[|log|].time == a.time;
  }

  lemma SinceExtends(log: seq<Admission>, a: Admission, start: int)
    ensures Since(log + [a], start) == Since(log, start) + (if a.time > start then [a] else [])
  {
    assert (log + [a])[..|log|] == log;
  }

  lemma OldestExtends(log: seq<Admission>, a: Admission)
    ensures OldestTime(log + [a]) == if log != [] && OldestTime(log) <= a.time then OldestTime(log) else a.time
  {
    assert (log + [a])[..|log|] == log;
  }

  /** Filtering the log and collecting the indices agree on size and oldest time. */
  lemma {:induction false} SinceIsRecent(log: seq<Admission>, start: int)
    ensures |Since(log, start)| == |Recent(log, start)|
    ensures Since(log, start) != [] ==> IsMin(log, Recent(log, start), OldestTime(Since(log, start)))
  {
    hide Since, Recent, IsMin, OldestTime;
    if log == [] {
      NothingSince(start);
    } else {
      var front, a := log[..|log| - 1], log[|log| - 1];
      assert front + [a] == log;
      SinceIsRecent(front, start);
      SinceExtends(front, a, start);
      RecentExtends(front, a, start);
      NotYetRecent(front, start);
      var since := Since(front, start);
      OldestExtends(since, a);
      assert a.time <= start ==> Since(log, start) == since && Recent(log, start) == Recent(front, start);
      if since != [] {
        MinExtends(front, Recent(front, start), OldestTime(since), a);
      } else if a.time > start {
        assert Recent(log, start) == {|front|};
        MinOfOne(log, |front|);
      }
    }
  }

  lemma NothingSince(start: int)
    ensures Since([], start) == [] && Recent([], start) == {}
  {
  }

  lemma NotYetRecent(log: seq<Admission>, start: int)
    ensures |log| !in Recent(log, start)
  {
  }

  lemma MinOfOne(log: seq<Admission>, i: nat)
    requires i < |log|
    ensures IsMin(log, {i}, log[i].time)
  {
  }

  lemma {:induction false} SameSize(entries: map<string, int>, log: seq<Admission>, s: set<nat>)
    requires Matches(entries, log, s)
    ensures |entries| == |s|
    decreases |s|
  {
    if s == {} {
      assert entries == map[];
    } else {
      hide Matches;
      var i :| i in s;
      MatchesWithout(entries, log, s, i);
      SameSize(entries - {log[i].member}, log, s - {i});
    }
  }

  lemma MatchesWithout(entries: map<string, int>, log: seq<Admission>, s: set<nat>, i: nat)
    requires Matches(entries, log, s) && i in s
    ensures i < |log| && Matches(entries - {log[i].member}, log, s - {i})
    ensures |entries| == |entries - {log[i].member}| + 1
  {
    var rest := entries - {log[i].member};
    assert entries == rest[log[i].member := log[i].time];
    forall m | m in entries - {log[i].member}
      ensures exists j <- s - {i} :: log[j].member == m
    {
      var j :| j in s && log[j].member == m;
      assert j in s - {i};
    }
  }

  lemma OldestMatches(entries: map<string, int>, log: seq<Admission>, s: set<nat>)
    requires Matches(entries, log, s) && entries != map[]
    ensures IsMin(log, s, Oldest(entries))
  {
    var score := Oldest(entries);
    var m :| m in entries && entries[m] == score;
    var i :| i in s && log[i].member == m;
    assert log[i].time == score;
  }

  lemma SubsetSize(a: set<nat>, b: set<nat>)
    requires a <= b
    ensures |a| <= |b|
    ensures |a| == |b| <==> a == b
  {
    assert b == a + (b - a);
  }

  /** The indices a request following the run still finds. */
  ghost function LiveAfter(l: Limit, es: seq<Event>, e: Event): set<nat>
    requires e.Request?
  {
    Live(l, Run(l, es).log, KeptSet(l, es), e.now, e.server)
  }

  /** What the script counts at a request following the run. */
  ghost function Counted(l: Limit, es: seq<Event>, e: Event): nat
    requires e.Request?
  {
    |Prune(Visible(Run(l, es).key, e.server), e.now - l.Window())|
  }

  lemma CountedIsLive(l: Limit, es: seq<Event>, e: Event)
    requires e.Request?
    ensures Counted(l, es, e) == |LiveAfter(l, es, e)|
    ensures Counted(l, es, e) > 0 ==>
              IsMin(Run(l, es).log, LiveAfter(l, es, e),
                    Oldest(Prune(Visible(Run(l, es).key, e.server), e.now - l.Window())))
  {
    hide Run, KeptSet, Represents, Matches, Live, Prune, Visible, IsMin, IsOldest, Oldest;
    var w := Run(l, es);
    RunRepresents(l, es);
    LiveMatches(l, w.key, w.log, KeptSet(l, es), e.now, e.server);
    var found := Prune(Visible(w.key, e.server), e.now - l.Window());
    SameSize(found, w.log, LiveAfter(l, es, e));
    if found != map[] {
      OldestMatches(found, w.log, LiveAfter(l, es, e));
    }
  }

  lemma FaithfulIsLive(l: Limit, es: seq<Event>, e: Event)
    requires e.Request?
    ensures LiveAfter(l, es, e) <= Recent(Run(l, es).log, e.now - l.Window())
    ensures Faithful(l, es, e) <==> LiveAfter(l, es, e) == Recent(Run(l, es).log, e.now - l.Window())
  {
    hide Run, Kept;
    if LiveAfter(l, es, e) == Recent(Run(l, es).log, e.now - l.Window()) {
      var log := Run(l, es).log;
      forall i | 0 <= i < |log| && log[i].time > e.now - l.Window()
        ensures Kept(l, es, log[i]) && !RunOut(l, log, e.server)
      {
        assert i in Recent(log, e.now - l.Window());
        assert i in LiveAfter(l, es, e);
      }
    }
  }

  /** At every request of every run the script counts at most the admissions of its window, and all of
      them exactly when each is still kept: no later script of the key read a clock a window past it, no
      sweep reached it, the key did not run out on it and its member was not added again. */
  lemma CountExactIff(l: Limit, es: seq<Event>, e: Event)
    requires e.Request?
    ensures Counted(l, es, e) <= |Since(Run(l, es).log, e.now - l.Window())|
    ensures Counted(l, es, e) == |Since(Run(l, es).log, e.now - l.Window())| <==> Faithful(l, es, e)
  {
    hide Run, LiveAfter, Counted, Faithful, Recent, Since, IsMin;
    CountedIsLive(l, es, e);
    FaithfulIsLive(l, es, e);
    SinceIsRecent(Run(l, es).log, e.now - l.Window());
    SubsetSize(LiveAfter(l, es, e), Recent(Run(l, es).log, e.now - l.Window()));
  }

  // -------------------------------------------------------------------------------------
  // Faithful requests get the naive reply

  ghost function ReplyTo(l: Limit, es: seq<Event>, e: Event): Reply
    requires e.Request?
  {
    Script(l, Run(l, es).key, e.now, e.server, e.member).1
  }

  lemma RequestReply(l: Limit, es: seq<Event>, e: Event)
    requires e.Request? && Faithful(l, es, e)
    ensures ReplyTo(l, es, e) == NaiveReply(l, Run(l, es).log, e.now)
  {
    hide Run, Prune, Visible, Since, Faithful, Recent, LiveAfter, IsMin, OldestTime, Oldest, IsOldest;
    CountExactIff(l, es, e);
    CountedIsLive(l, es, e);
    FaithfulIsLive(l, es, e);
    var log, start := Run(l, es).log, e.now - l.Window();
    SinceIsRecent(log, start);
    if Since(log, start) != [] {
      MinUnique(log, Recent(log, start), Oldest(Prune(Visible(Run(l, es).key, e.server), start)),
                OldestTime(Since(log, start)));
    }
  }

  lemma StepRefines(l: Limit, w: World, naive: NaiveWorld, e: Event)
    requires w.log == naive.log && w.steps == naive.steps
    requires e.Request? ==> Script(l, w.key, e.now, e.server, e.member).1 == NaiveReply(l, w.log, e.now)
    ensures Step(l, w, e).log == NaiveStep(l, naive, e).log
    ensures Step(l, w, e).steps == NaiveStep(l, naive, e).steps
    ensures w.replies == naive.replies ==> Step(l, w, e).replies == NaiveStep(l, naive, e).replies
  {
    hide Script, NaiveReply, Prune;
  }

  /** Request by request, the pruned, expiring, swept set gives the replies (admission, remaining count
      and retry time) of the limiter that counts the whole history. */
  lemma {:induction false} RefinesNaive(l: Limit, es: seq<Event>)
    requires FaithfulRun(l, es)
    ensures Run(l, es).log == NaiveRun(l, es).log
    ensures Run(l, es).replies == NaiveRun(l, es).replies
    ensures Run(l, es).steps == NaiveRun(l, es).steps
  {
    hide Step, NaiveStep, FaithfulRun, Faithful, NaiveReply, Script;
    if es != [] {
      var front, e := es[..|es| - 1], es[|es| - 1];
      assert front + [e] == es;
      FaithfulExtends(l, front, e);
      RefinesNaive(l, front);
      if e.Request? {
        RequestReply(l, front, e);
      }
      StepRefines(l, Run(l, front), NaiveRun(l, front), e);
    }
  }

  // -------------------------------------------------------------------------------------
  // Unfaithful requests do not

  /** Where an admission of the log came from. */
  lemma {:induction false} Origin(l: Limit, es: seq<Event>, i: nat)
    requires i < |Run(l, es).log|
    ensures var a := Run(l, es).log[i];
      && a.at < |es| && es[a.at] == Request(a.time, a.server, a.member)
      && Run(l, es[..a.at]).log == Run(l, es).log[..i]
      && ReplyTo(l, es[..a.at], es[a.at]).allowed
  {
    hide Script;
    var n := |es| - 1;
    var front := es[..n];
    var before := Run(l, front);
    Steps(l, front);
    assert before.log <= Run(l, es).log;
    if i < |before.log| {
      Origin(l, front, i);
      var a := Run(l, es).log[i];
      assert front[..a.at] == es[..a.at] && front[a.at] == es[a.at];
      assert before.log[..i] == Run(l, es).log[..i];
    } else {
      assert Run(l, es).log[..i] == before.log;
    }
  }

  lemma OriginsOrdered(l: Limit, es: seq<Event>, i: nat, j: nat)
    requires i < j < |Run(l, es).log|
    ensures Run(l, es).log[i].at < Run(l, es).log[j].at
  {
    hide Run, ReplyTo;
    Origin(l, es, j);
    var past := es[..Run(l, es).log[j].at];
    assert Run(l, past).log[i] == Run(l, es).log[i];
    Origin(l, past, i);
  }

  /** An admitted request found fewer than `calls` admissions in its window. */
  lemma AdmittedBelowLimit(l: Limit, es: seq<Event>, i: nat)
    requires FaithfulRun(l, es) && i < |Run(l, es).log|
    ensures var a := Run(l, es).log[i];
      |Recent(Run(l, es).log[..i], a.time - l.Window())| < l.calls
  {
    hide Run, Faithful, Recent, Since, IsMin;
    Origin(l, es, i);
    var a := Run(l, es).log[i];
    var past := es[..a.at];
    assert Faithful(l, past, es[a.at]);
    CountExactIff(l, past, es[a.at]);
    SinceIsRecent(Run(l, past).log, a.time - l.Window());
  }

  /** An operation has taken the admission away for good, by its window, a sweep or the key's expiry. */
  ghost predicate Dropped(l: Limit, es: seq<Event>, a: Admission, j: nat) {
    && a.at < j < |es|
    && match es[j]
       case Request(now, server, _) => a.time <= now - l.Window() || RunOut(l, Run(l, es[..j]).log, server)
       case Cleanup(now, longWindow) => a.time <= now - longWindow
  }

  lemma DroppedIsNotKept(l: Limit, es: seq<Event>, n: nat, a: Admission, j: nat)
    requires Dropped(l, es, a, j) && j < n <= |es|
    ensures !Kept(l, es[..n], a)
  {
    hide Run, Script;
    var past := es[..n];
    assert past[..j] == es[..j] && past[j] == es[j];
    assert Displaces(l, Run(l, past[..j]), past[j], a);
  }

  lemma LostBefore(l: Limit, es: seq<Event>, i: nat, j: nat, s: nat)
    requires FaithfulRun(l, es) && l.windowMillis > 0
    requires i < s < |Run(l, es).log|
    requires Dropped(l, es, Run(l, es).log[i], j) && Run(l, es).log[s].at >= j
    ensures Run(l, es).log[i].time < Run(l, es).log[s].time
  {
    hide Run, Kept, ReplyTo;
    var x, y := Run(l, es).log[i], Run(l, es).log[s];
    Origin(l, es, s);
    var past := es[..y.at];
    assert Run(l, past).log[i] == x;
    assert Faithful(l, past, es[y.at]);
    if j < y.at {
      DroppedIsNotKept(l, es, y.at, x, j);
    }
  }

  /** Whatever a request still finds is younger than an admission dropped from its window. */
  lemma DroppedIsOlder(l: Limit, es: seq<Event>, e: Event, i: nat, j: nat, s: nat)
    requires FaithfulRun(l, es) && l.windowMillis > 0 && e.Request?
    requires i < |Run(l, es).log| && Dropped(l, es, Run(l, es).log[i], j)
    requires s in LiveAfter(l, es, e)
    ensures s < |Run(l, es).log| && Run(l, es).log[i].time < Run(l, es).log[s].time
  {
    hide Run, FaithfulRun;
    var log := Run(l, es).log;
    assert s < |log| && Kept(l, es, log[s]);
    if log[s].at >= j {
      assert i < s by {
        if s < i {
          OriginsOrdered(l, es, s, i);
        }
      }
      LostBefore(l, es, i, j, s);
    } else {
      assert !Displaces(l, Run(l, es[..j]), es[j], log[s]);
    }
  }

  /** When nothing was dropped from a request's window, the window holds at most `calls` admissions. */
  lemma UndroppedWithinLimit(l: Limit, es: seq<Event>, start: int)
    requires FaithfulRun(l, es)
    requires forall i, j | i in Recent(Run(l, es).log, start) :: !Dropped(l, es, Run(l, es).log[i], j)
    ensures Recent(Run(l, es).log, start) == {} || |Recent(Run(l, es).log, start)| <= l.calls
  {
    hide Run, FaithfulRun, Dropped;
    var log := Run(l, es).log;
    var recent := Recent(log, start);
    if recent != {} {
      var y := LastOf(log, start);
      AdmittedBelowLimit(l, es, y);
      var others := Recent(log[..y], log[y].time - l.Window());
      forall i | i in recent - {y}
        ensures i in others
      {
        BeforeLast(l, es, i, y);
      }
      SubsetSize(recent - {y}, others);
    }
  }

  lemma BeforeLast(l: Limit, es: seq<Event>, i: nat, y: nat)
    requires i < y < |Run(l, es).log|
    requires forall j :: !Dropped(l, es, Run(l, es).log[i], j)
    ensures Run(l, es).log[i].time > Run(l, es).log[y].time - l.Window()
  {
    hide Run, ReplyTo;
    Origin(l, es, y);
    OriginsOrdered(l, es, i, y);
    assert !Dropped(l, es, Run(l, es).log[i], Run(l, es).log[y].at);
  }

  lemma {:induction false} LastOf(log: seq<Admission>, start: int) returns (y: nat)
    requires Recent(log, start) != {}
    ensures y in Recent(log, start) && forall i <- Recent(log, start) :: i <= y
  {
    y := |log| - 1;
    if log[y].time <= start {
      assert Recent(log[..y], start) == Recent(log, start);
      y := LastOf(log[..y], start);
    }
  }

  lemma MoreRecentDiffers(l: Limit, es: seq<Event>, e: Event)
    requires e.Request? && Counted(l, es, e) < |Since(Run(l, es).log, e.now - l.Window())|
    requires Counted(l, es, e) < l.calls
    ensures ReplyTo(l, es, e) != NaiveReply(l, Run(l, es).log, e.now)
  {
    hide Run, Since, Prune, Visible, OldestTime, Oldest, IsOldest;
  }

  lemma OlderDiffers(l: Limit, es: seq<Event>, e: Event, i: nat)
    requires e.Request? && 0 < l.calls <= Counted(l, es, e) <= |Since(Run(l, es).log, e.now - l.Window())|
    requires i in Recent(Run(l, es).log, e.now - l.Window())
    requires forall s <- LiveAfter(l, es, e) :: s < |Run(l, es).log| && Run(l, es).log[i].time < Run(l, es).log[s].time
    ensures ReplyTo(l, es, e) != NaiveReply(l, Run(l, es).log, e.now)
  {
    hide Run, LiveAfter, Since, Prune, Visible, OldestTime, Oldest, IsOldest;
    CountedIsLive(l, es, e);
    SinceIsRecent(Run(l, es).log, e.now - l.Window());
  }

  /** The first request that does not meet its window intact gets another reply than the naive one. */
  lemma UnfaithfulDiffers(l: Limit, es: seq<Event>, e: Event)
    requires FaithfulRun(l, es) && l.windowMillis > 0 && e.Request? && !Faithful(l, es, e)
    ensures ReplyTo(l, es, e) != NaiveReply(l, Run(l, es).log, e.now)
  {
    hide Run, Kept, FaithfulRun, Faithful, Since, Counted, ReplyTo, Recent, LiveAfter, Dropped, NaiveReply, IsMin;
    var log, start := Run(l, es).log, e.now - l.Window();
    CountExactIff(l, es, e);
    if Counted(l, es, e) < l.calls {
      MoreRecentDiffers(l, es, e);
    } else {
      SinceIsRecent(log, start);
      RecentInLog(log, start);
      if i, j :| i in Recent(log, start) && Dropped(l, es, log[i], j) {
        forall s | s in LiveAfter(l, es, e)
          ensures s < |log| && log[i].time < log[s].time
        {
          DroppedIsOlder(l, es, e, i, j, s);
        }
        SomeoneAdmitted(l, es);
        OlderDiffers(l, es, e, i);
      } else {
        UndroppedWithinLimit(l, es, start);
        assert false;
      }
    }
  }

  lemma RecentInLog(log: seq<Admission>, start: int)
    ensures forall i <- Recent(log, start) :: i < |log|
  {
  }

  lemma {:induction false} SomeoneAdmitted(l: Limit, es: seq<Event>)
    ensures Run(l, es).log != [] ==> l.calls > 0
  {
    if es != [] {
      SomeoneAdmitted(l, es[..|es| - 1]);
    }
  }

  lemma {:induction false} SameRepliesAreFaithful(l: Limit, es: seq<Event>)
    requires l.windowMillis > 0 && Run(l, es).replies == NaiveRun(l, es).replies
    ensures FaithfulRun(l, es)
  {
    if es != [] {
      hide Script, NaiveReply, Faithful, FaithfulRun, Prune;
      var front, e := es[..|es| - 1], es[|es| - 1];
      var w, naive := Run(l, front), NaiveRun(l, front);
      if e.Request? {
        assert Run(l, es).replies == w.replies + [ReplyTo(l, front, e)];
        assert NaiveRun(l, es).replies == naive.replies + [NaiveReply(l, naive.log, e.now)];
        assert w.replies == Run(l, es).replies[..|w.replies|];
        assert naive.replies == NaiveRun(l, es).replies[..|naive.replies|];
        assert ReplyTo(l, front, e) == Run(l, es).replies[|w.replies|];
      }
      SameRepliesAreFaithful(l, front);
      RefinesNaive(l, front);
      if !Faithful(l, front, e) {
        SweepsAreFaithful(l, front, e);
        UnfaithfulDiffers(l, front, e);
      }
      FaithfulExtends(l, front, e);
      assert front + [e] == es;
    }
  }

  lemma SweepsAreFaithful(l: Limit, es: seq<Event>, e: Event)
    ensures !e.Request? ==> Faithful(l, es, e)
  {
  }

  /** For every run, whatever the clocks, members and sweeps: the replies are those of the limiter that
      counts the whole history if and only if every request meets its window intact. */
  lemma RefinesNaiveIff(l: Limit, es: seq<Event>)
    requires l.windowMillis > 0
    ensures FaithfulRun(l, es) <==> Run(l, es).replies == NaiveRun(l, es).replies
  {
    hide Run, NaiveRun, FaithfulRun;
    if FaithfulRun(l, es) {
      RefinesNaive(l, es);
    }
    if Run(l, es).replies == NaiveRun(l, es).replies {
      SameRepliesAreFaithful(l, es);
    }
  }

  // -------------------------------------------------------------------------------------
  // Scripts that run in the order the clock was read

  /** Scripts run in the order in which their callers read the clock, no sweep cuts further than the window
      of a request after it, and the members added by ZADD are all different. */
  ghost predicate InOrder(l: Limit, es: seq<Event>) {
    && (forall i, j | 0 <= i < j < |es| && es[i].Request? && es[j].Request? ::
          es[i].now <= es[j].now && es[i].member != es[j].member)
    && (forall i, j | 0 <= i < j < |es| && es[i].Cleanup? && es[j].Request? ::
          es[i].now - es[i].longWindow <= es[j].now - l.Window())
  }

  /** The key runs out on a request only when its window has moved past the last admission too. */
  predicate Timely(l: Limit, log: seq<Admission>, e: Event)
    requires e.Request?
  {
    log == [] || e.server <= log[|log| - 1].server + l.windowMillis || e.now >= log[|log| - 1].time + l.Window()
  }

  ghost predicate TimelyRun(l: Limit, es: seq<Event>) {
    forall n | 0 <= n < |es| && es[n].Request? :: Timely(l, Run(l, es[..n]).log, es[n])
  }

  lemma {:induction false} StillLogged(l: Limit, es: seq<Event>, i: nat, j: nat)
    requires i < |Run(l, es).log| && Run(l, es).log[i].at < j <= |es|
    ensures i < |Run(l, es[..j]).log| && Run(l, es[..j]).log[i] == Run(l, es).log[i]
  {
    if j == |es| {
      assert es[..j] == es;
    } else {
      hide Script;
      var front := es[..|es| - 1];
      Steps(l, front);
      StillLogged(l, front, i, j);
      assert front[..j] == es[..j];
    }
  }

  lemma TimesInOrder(l: Limit, es: seq<Event>, i: nat, k: nat)
    requires InOrder(l, es) && i <= k < |Run(l, es).log|
    ensures Run(l, es).log[i].time <= Run(l, es).log[k].time
  {
    hide Run, ReplyTo;
    if i < k {
      Origin(l, es, i);
      Origin(l, es, k);
      OriginsOrdered(l, es, i, k);
    }
  }

  lemma InOrderPrefix(l: Limit, es: seq<Event>, n: nat)
    requires InOrder(l, es) && n <= |es|
    ensures InOrder(l, es[..n])
  {
  }

  lemma NotRunOut(l: Limit, es: seq<Event>, e: Event, i: nat)
    requires InOrder(l, es) && e.Request? && i < |Run(l, es).log|
    requires Timely(l, Run(l, es).log, e) && Run(l, es).log[i].time > e.now - l.Window()
    ensures !RunOut(l, Run(l, es).log, e.server)
  {
    hide Run;
    TimesInOrder(l, es, i, |Run(l, es).log| - 1);
  }

  lemma NotDisplacedInOrder(l: Limit, es: seq<Event>, e: Event, i: nat, j: nat)
    requires InOrder(l, es + [e]) && e.Request? && TimelyRun(l, es)
    requires i < |Run(l, es).log| && Run(l, es).log[i].time > e.now - l.Window()
    requires Run(l, es).log[i].at < j < |es|
    ensures !Displaces(l, Run(l, es[..j]), es[j], Run(l, es).log[i])
  {
    hide Run, Script;
    var all := es + [e];
    var a := Run(l, es).log[i];
    Origin(l, es, i);
    assert all[j] == es[j] && all[a.at] == es[a.at] && all[|es|] == e;
    if es[j].Request? {
      StillLogged(l, es, i, j);
      assert all[..j] == es[..j];
      InOrderPrefix(l, all, j);
      NotRunOut(l, es[..j], es[j], i);
    }
  }

  /** In order, a request meets its window intact exactly when it is timely. */
  lemma InOrderStep(l: Limit, es: seq<Event>, e: Event)
    requires InOrder(l, es + [e]) && e.Request? && TimelyRun(l, es)
    ensures Faithful(l, es, e) <==> Timely(l, Run(l, es).log, e)
  {
    hide Run, InOrder, Displaces, TimelyRun;
    var log := Run(l, es).log;
    if Timely(l, log, e) {
      forall i | 0 <= i < |log| && log[i].time > e.now - l.Window()
        ensures Kept(l, es, log[i]) && !RunOut(l, log, e.server)
      {
        assert (es + [e])[..|es|] == es;
        InOrderPrefix(l, es + [e], |es|);
        NotRunOut(l, es, e, i);
        forall j | log[i].at < j < |es|
          ensures !Displaces(l, Run(l, es[..j]), es[j], log[i])
        {
          NotDisplacedInOrder(l, es, e, i, j);
        }
      }
    } else {
      assert RunOut(l, log, e.server) && log[|log| - 1].time > e.now - l.Window();
    }
  }

  lemma TimelyExtends(l: Limit, es: seq<Event>, e: Event)
    ensures TimelyRun(l, es + [e]) <==> TimelyRun(l, es) && (e.Request? ==> Timely(l, Run(l, es).log, e))
  {
    hide Run, Timely;
    var all := es + [e];
    assert all[..|es|] == es && all[|es|] == e;
    assert forall n | 0 <= n < |es| :: all[..n] == es[..n] && all[n] == es[n];
  }

  lemma NothingRuns(l: Limit)
    ensures FaithfulRun(l, []) && TimelyRun(l, [])
  {
  }

  /** A script that Redis runs late is the only thing left to go wrong: in order, all requests meet their
      windows intact exactly when all are timely. */
  lemma {:induction false} InOrderIff(l: Limit, es: seq<Event>)
    requires InOrder(l, es)
    ensures FaithfulRun(l, es) <==> TimelyRun(l, es)
  {
    hide InOrder, Faithful, Timely, FaithfulRun, TimelyRun, Run;
    if es == [] {
      NothingRuns(l);
    } else {
      var front, e := es[..|es| - 1], es[|es| - 1];
      InOrderPrefix(l, es, |front|);
      InOrderIff(l, front);
      assert front + [e] == es;
      FaithfulExtends(l, front, e);
      TimelyExtends(l, front, e);
      if TimelyRun(l, front) {
        if e.Request? {
          InOrderStep(l, front, e);
        } else {
          SweepsAreFaithful(l, front, e);
        }
      }
    }
  }

  /** Callers, sweeps and Redis read one clock and nobody overtakes; sweeps use one window. */
  ghost predicate OneClock(es: seq<Event>, longWindow: int) {
    && (forall i, j | 0 <= i < j < |es| :: es[i].now <= es[j].now)
    && (forall i, j | 0 <= i < j < |es| && es[i].Request? && es[j].Request? :: es[i].member != es[j].member)
    && (forall i | 0 <= i < |es| && es[i].Request? :: es[i].server == es[i].now / NANOS_PER_MILLI)
    && (forall i | 0 <= i < |es| && es[i].Cleanup? :: es[i].longWindow == longWindow)
  }

  lemma OneClockIsTimely(l: Limit, es: seq<Event>, n: nat)
    requires (forall i | 0 <= i < |es| && es[i].Request? :: es[i].server == es[i].now / NANOS_PER_MILLI)
    requires n < |es| && es[n].Request?
    ensures Timely(l, Run(l, es[..n]).log, es[n])
  {
    hide Run, ReplyTo;
    var log := Run(l, es[..n]).log;
    if log != [] {
      Origin(l, es[..n], |log| - 1);
      LaterMilli(log[|log| - 1].time, es[n].now, l.windowMillis);
    }
  }

  lemma LaterMilli(t: int, now: int, millis: nat)
    ensures now / NANOS_PER_MILLI > t / NANOS_PER_MILLI + millis ==> now >= t + millis * NANOS_PER_MILLI
  {
    if now / NANOS_PER_MILLI > t / NANOS_PER_MILLI + millis {
      assert now >= (t / NANOS_PER_MILLI + millis + 1) * NANOS_PER_MILLI;
      assert (t / NANOS_PER_MILLI + 1) * NANOS_PER_MILLI > t;
    }
  }

  lemma OneClockIsFaithful(l: Limit, es: seq<Event>, longWindow: int)
    requires OneClock(es, longWindow) && longWindow >= l.Window()
    ensures FaithfulRun(l, es)
  {
    hide Timely, FaithfulRun, Run;
    forall n | 0 <= n < |es| && es[n].Request?
      ensures Timely(l, Run(l, es[..n]).log, es[n])
    {
      OneClockIsTimely(l, es, n);
    }
    InOrderIff(l, es);
  }

  lemma FirstAdmitted(l: Limit, e: Event)
    requires l.calls > 0 && e.Request?
    ensures Run(l, [e]) == World(Key(map[e.member := e.now], e.server + l.windowMillis),
                                 [Admission(e.now, e.server, e.member, 0)], [Reply(true, l.calls - 1, 0)], 1)
  {
    assert [e][..0] == [];
    var none: map<string, int> := map[];
    assert Prune(Visible(ABSENT, e.server), e.now - l.Window()) == none;
    assert none[e.member := e.now] == map[e.member := e.now];
  }

  // -------------------------------------------------------------------------------------
  // At most `calls` admissions in any window

  /** Admissions with time in (lo, hi]. */
  function Between(log: seq<Admission>, lo: int, hi: int): nat {
    if log == [] then 0
    else Between(log[..|log| - 1], lo, hi) + (if lo < log[|log| - 1].time <= hi then 1 else 0)
  }

  lemma {:induction false} BetweenSince(log: seq<Admission>, lo: int, hi: int, start: int)
    requires start <= lo
    ensures Between(log, lo, hi) <= |Since(log, start)|
  {
    if log != [] {
      BetweenSince(log[..|log| - 1], lo, hi, start);
    }
  }

  function Max0(x: int): nat {
    if x < 0 then 0 else x
  }

  lemma BetweenExtends(log: seq<Admission>, a: Admission, lo: int, hi: int)
    ensures Between(log + [a], lo, hi) == Between(log, lo, hi) + if lo < a.time <= hi then 1 else 0
  {
    assert (log + [a])[..|log|] == log;
  }

  lemma NaiveStepBound(l: Limit, w: NaiveWorld, e: Event, lo: int)
    requires Between(w.log, lo, lo + l.Window()) <= Max0(l.calls)
    ensures Between(NaiveStep(l, w, e).log, lo, lo + l.Window()) <= Max0(l.calls)
  {
    hide Since, Between, OldestTime;
    if e.Request? {
      BetweenExtends(w.log, Admission(e.now, e.server, e.member, w.steps), lo, lo + l.Window());
      if lo < e.now <= lo + l.Window() {
        BetweenSince(w.log, lo, lo + l.Window(), e.now - l.Window());
      }
    }
  }

  lemma {:induction false} NaiveWindowBound(l: Limit, es: seq<Event>, lo: int)
    ensures Between(NaiveRun(l, es).log, lo, lo + l.Window()) <= Max0(l.calls)
  {
    hide NaiveStep;
    if es != [] {
      NaiveWindowBound(l, es[..|es| - 1], lo);
      NaiveStepBound(l, NaiveRun(l, es[..|es| - 1]), es[|es| - 1], lo);
    }
  }

  /** In every run whose requests meet their windows intact, no interval (lo, lo + window] holds more than
      `calls` admissions. */
  lemma WindowBound(l: Limit, es: seq<Event>, lo: int)
    requires FaithfulRun(l, es)
    ensures Between(Run(l, es).log, lo, lo + l.Window()) <= Max0(l.calls)
  {
    RefinesNaive(l, es);
    NaiveWindowBound(l, es, lo);
  }

  function InWindow(l: Limit, log: seq<Admission>, lo: int): nat {
    Between(log, lo, lo + l.Window())
  }

  ghost predicate WithinBound(l: Limit, log: seq<Admission>) {
    forall lo :: InWindow(l, log, lo) <= Max0(l.calls)
  }

  lemma {:induction false} BetweenIsSince(log: seq<Admission>, lo: int, hi: int)
    requires forall a <- log :: a.time <= hi
    ensures Between(log, lo, hi) == |Since(log, lo)|
  {
    if log != [] {
      assert log[|log| - 1] in log;
      BetweenIsSince(log[..|log| - 1], lo, hi);
    }
  }

  /** Adding the latest admission to a log within the bound keeps it there exactly when the window that ends
      with it has room. */
  lemma BoundExtends(l: Limit, log: seq<Admission>, a: Admission)
    requires l.windowMillis > 0 && WithinBound(l, log) && forall b <- log :: b.time <= a.time
    ensures WithinBound(l, log + [a]) <==> |Since(log, a.time - l.Window())| < l.calls
  {
    hide Between, Since;
    var start := a.time - l.Window();
    BetweenExtends(log, a, start, start + l.Window());
    BetweenIsSince(log, start, a.time);
    assert InWindow(l, log + [a], start) == |Since(log, start)| + 1;
    if |Since(log, start)| < l.calls {
      forall lo
        ensures InWindow(l, log + [a], lo) <= Max0(l.calls)
      {
        BetweenExtends(log, a, lo, lo + l.Window());
        assert InWindow(l, log, lo) <= Max0(l.calls);
        if lo < a.time <= lo + l.Window() {
          BetweenSince(log, lo, lo + l.Window(), start);
        }
      }
    }
  }

  lemma BoundFront(l: Limit, log: seq<Admission>, a: Admission)
    requires WithinBound(l, log + [a])
    ensures WithinBound(l, log)
  {
    forall lo
      ensures InWindow(l, log, lo) <= Max0(l.calls)
    {
      BetweenExtends(log, a, lo, lo + l.Window());
      assert InWindow(l, log + [a], lo) <= Max0(l.calls);
    }
  }

  ghost predicate TimeOrdered(log: seq<Admission>) {
    forall i, j | 0 <= i < j < |log| :: log[i].time <= log[j].time
  }

  /** Every admission is one that counting the log before it admits. */
  ghost predicate NaivelyAdmitted(l: Limit, log: seq<Admission>) {
    forall i | 0 <= i < |log| :: NaiveReply(l, log[..i], log[i].time).allowed
  }

  lemma NaivelyAdmittedExtends(l: Limit, log: seq<Admission>, a: Admission)
    ensures NaivelyAdmitted(l, log + [a])
       <==> NaivelyAdmitted(l, log) && |Since(log, a.time - l.Window())| < l.calls
  {
    hide Since, OldestTime;
    var all := log + [a];
    assert all[..|log|] == log && all[|log|] == a;
    assert forall i | 0 <= i < |log| :: all[..i] == log[..i] && all[i] == log[i];
  }

  lemma {:induction false} OrderedBoundIff(l: Limit, log: seq<Admission>)
    requires l.windowMillis > 0 && TimeOrdered(log)
    ensures WithinBound(l, log) <==> NaivelyAdmitted(l, log)
  {
    if log != [] {
      hide WithinBound, NaivelyAdmitted, Since, Between;
      var front, a := log[..|log| - 1], log[|log| - 1];
      assert front + [a] == log;
      OrderedBoundIff(l, front);
      NaivelyAdmittedExtends(l, front, a);
      if WithinBound(l, front) {
        BoundExtends(l, front, a);
      }
      if WithinBound(l, log) {
        BoundFront(l, front, a);
      }
    }
  }

  /** In order, no interval (lo, lo + window] ever holds more than `calls` admissions exactly when the script
      admits only requests that counting the run's own admissions would admit. */
  lemma WindowBoundIff(l: Limit, es: seq<Event>)
    requires l.windowMillis > 0 && InOrder(l, es)
    ensures WithinBound(l, Run(l, es).log) <==> NaivelyAdmitted(l, Run(l, es).log)
  {
    hide Run, InOrder, WithinBound, NaivelyAdmitted;
    var log := Run(l, es).log;
    forall i, j | 0 <= i < j < |log|
      ensures log[i].time <= log[j].time
    {
      TimesInOrder(l, es, i, j);
    }
    OrderedBoundIff(l, log);
  }

  // -------------------------------------------------------------------------------------
  // Many requests at one instant

  function Name(i: nat): string {
    seq(i, _ => 'x')
  }

  /** `n` requests at time `t`, all clocks being one. */
  function Salvo(n: nat, t: int): seq<Event> {
    seq(n, i requires 0 <= i < n => Request(t, t / NANOS_PER_MILLI, Name(i)))
  }

  lemma ReplyIsCount(l: Limit, es: seq<Event>, e: Event)
    requires e.Request?
    ensures ReplyTo(l, es, e).allowed <==> Counted(l, es, e) < l.calls
  {
    hide Run, Prune, Visible;
  }

  lemma SalvoExtends(n: nat, t: int)
    ensures Salvo(n + 1, t) == Salvo(n, t) + [Request(t, t / NANOS_PER_MILLI, Name(n))]
  {
  }

  lemma NoSalvo(l: Limit, t: int)
    ensures Salvo(0, t) == [] && Run(l, Salvo(0, t)).log == [] && Run(l, Salvo(0, t)).key == ABSENT
  {
  }

  lemma {:induction false} SinceOneTime(log: seq<Admission>, t: int, start: int)
    requires forall a <- log :: a.time == t
    ensures |Since(log, start)| == if t > start then |log| else 0
  {
    if log != [] {
      assert log[|log| - 1] in log;
      SinceOneTime(log[..|log| - 1], t, start);
    }
  }

  lemma SalvoIsOneClock(n: nat, t: int, now: int, m: nat, longWindow: int)
    requires t <= now && n <= m
    ensures OneClock(Salvo(n, t) + [Request(now, now / NANOS_PER_MILLI, Name(m))], longWindow)
  {
    var es := Salvo(n, t) + [Request(now, now / NANOS_PER_MILLI, Name(m))];
    forall i, j | 0 <= i < j < |es|
      ensures es[i].member != es[j].member
    {
      assert |es[i].member| < |es[j].member|;
    }
  }

  /** After `n` requests at `t`, one at `now` is admitted exactly when the window has passed or fewer than
      `calls` came. */
  lemma SalvoReply(l: Limit, n: nat, t: int, now: int, m: nat)
    requires l.windowMillis > 0 && t <= now && n <= m
    requires |Run(l, Salvo(n, t)).log| == (if n < l.calls then n else Max0(l.calls))
    requires forall a <- Run(l, Salvo(n, t)).log :: a.time == t
    ensures ReplyTo(l, Salvo(n, t), Request(now, now / NANOS_PER_MILLI, Name(m))).allowed
       <==> l.calls > 0 && (now >= t + l.Window() || n < l.calls)
  {
    hide Run, Salvo, Name, Since, OneClock, Faithful, FaithfulRun, ReplyTo, OldestTime;
    var e := Request(now, now / NANOS_PER_MILLI, Name(m));
    SalvoIsOneClock(n, t, now, m, l.Window());
    OneClockIsFaithful(l, Salvo(n, t) + [e], l.Window());
    FaithfulExtends(l, Salvo(n, t), e);
    RequestReply(l, Salvo(n, t), e);
    SinceOneTime(Run(l, Salvo(n, t)).log, t, now - l.Window());
  }

  /** Of `n` requests at one instant the first `calls` are admitted. */
  lemma {:induction false} SalvoAdmitted(l: Limit, n: nat, t: int)
    requires l.windowMillis > 0
    ensures |Run(l, Salvo(n, t)).log| == if n < l.calls then n else Max0(l.calls)
    ensures forall a <- Run(l, Salvo(n, t)).log :: a.time == t
  {
    hide Run, ReplyTo, Salvo, Name;
    if n == 0 {
      NoSalvo(l, t);
    } else {
      var front, e := Salvo(n - 1, t), Request(t, t / NANOS_PER_MILLI, Name(n - 1));
      SalvoExtends(n - 1, t);
      SalvoAdmitted(l, n - 1, t);
      SalvoReply(l, n - 1, t, t, n - 1);
      if ReplyTo(l, front, e).allowed {
        Admitted(l, front, e);
      } else {
        NotAdmitted(l, front, e);
      }
    }
  }

  lemma NotAdmitted(l: Limit, es: seq<Event>, e: Event)
    requires e.Request? && !ReplyTo(l, es, e).allowed
    ensures Run(l, es + [e]).log == Run(l, es).log
  {
    RunExtends(l, es, e);
    hide Run, Script;
  }

  // -------------------------------------------------------------------------------------
  // Sweeps

  /** A sweep that reaches every admission leaves the next request nothing to count. */
  lemma SweptAway(l: Limit, es: seq<Event>, sweep: Event, e: Event)
    requires sweep.Cleanup? && e.Request? && l.calls > 0
    requires forall a <- Run(l, es).log :: a.time <= sweep.now - sweep.longWindow
    ensures ReplyTo(l, es + [sweep], e).allowed
    ensures Run(l, es + [sweep]).log == Run(l, es).log
  {
    RunExtends(l, es, sweep);
    Steps(l, es);
    hide Run, Script, Prune, Counted, IsMin;
    var log, after := Run(l, es).log, es + [sweep];
    forall i: nat | i < |log|
      ensures !Kept(l, after, log[i])
    {
      assert log[i] in log;
      KeptExtends(l, es, sweep, log[i]);
    }
    assert LiveAfter(l, after, e) == {};
    CountedIsLive(l, after, e);
    ReplyIsCount(l, after, e);
  }

  lemma {:induction false} BetweenAll(log: seq<Admission>, lo: int, hi: int)
    requires forall a <- log :: lo < a.time <= hi
    ensures Between(log, lo, hi) == |log|
  {
    if log != [] {
      assert log[|log| - 1] in log;
      BetweenAll(log[..|log| - 1], lo, hi);
    }
  }

  function Overrun(l: Limit, longWindow: int): seq<Event>
    requires l.calls > 0
  {
    var last := l.Window() - 1;
    Salvo(l.calls, 0) + [Cleanup(last, longWindow)] + [Request(last, last / NANOS_PER_MILLI, Name(l.calls))]
  }

  lemma OverrunIsOneClock(l: Limit, longWindow: int)
    requires l.calls > 0 && l.windowMillis > 0
    ensures OneClock(Overrun(l, longWindow), longWindow)
  {
    var es := Overrun(l, longWindow);
    forall i, j | 0 <= i < j < |es| && es[i].Request? && es[j].Request?
      ensures es[i].member != es[j].member
    {
      assert |es[i].member| < |es[j].member|;
    }
  }

  lemma OverrunOverAdmits(l: Limit, longWindow: int)
    requires l.calls > 0 && l.windowMillis > 0 && longWindow < l.Window()
    ensures InWindow(l, Run(l, Overrun(l, longWindow)).log, -1) == l.calls + 1
  {
    hide Run, Between, ReplyTo;
    var last := l.Window() - 1;
    var salvo, sweep := Salvo(l.calls, 0), Cleanup(last, longWindow);
    var e := Request(last, last / NANOS_PER_MILLI, Name(l.calls));
    SalvoAdmitted(l, l.calls, 0);
    SweptAway(l, salvo, sweep, e);
    Admitted(l, salvo + [sweep], e);
    var log := Run(l, Overrun(l, longWindow)).log;
    assert forall a <- log :: -1 < a.time <= last;
    BetweenAll(log, -1, last);
  }

  lemma Admitted(l: Limit, es: seq<Event>, e: Event)
    requires e.Request? && ReplyTo(l, es, e).allowed
    ensures |Run(l, es + [e]).log| == |Run(l, es).log| + 1
    ensures forall a <- Run(l, es + [e]).log :: a in Run(l, es).log || a.time == e.now
  {
    RunExtends(l, es, e);
    hide Run, Script;
  }

  /** On one clock the limiter is faithful in all runs, and within its bound in all runs, exactly when the
      sweep's window covers the limit's: a shorter one lets one call too many into a window. */
  lemma SweepWindowIff(l: Limit, longWindow: int)
    requires l.calls > 0 && l.windowMillis > 0
    ensures longWindow >= l.Window() <==> forall es | OneClock(es, longWindow) :: FaithfulRun(l, es)
    ensures longWindow >= l.Window() <==> forall es | OneClock(es, longWindow) :: WithinBound(l, Run(l, es).log)
  {
    hide Run, FaithfulRun, Between;
    if longWindow >= l.Window() {
      forall es | OneClock(es, longWindow)
        ensures FaithfulRun(l, es) && WithinBound(l, Run(l, es).log)
      {
        OneClockIsFaithful(l, es, longWindow);
        forall lo
          ensures InWindow(l, Run(l, es).log, lo) <= Max0(l.calls)
        {
          WindowBound(l, es, lo);
        }
      }
    } else {
      var es := Overrun(l, longWindow);
      OverrunIsOneClock(l, longWindow);
      OverrunOverAdmits(l, longWindow);
      assert !WithinBound(l, Run(l, es).log);
      if FaithfulRun(l, es) {
        WindowBound(l, es, -1);
      }
    }
  }

  /** Extends a run whose outcome is known by one more request. */
  lemma OneMore(l: Limit, es: seq<Event>, k: Key, log: seq<Admission>, e: Event, found: map<string, int>)
    requires e.Request? && Run(l, es).key == k && Run(l, es).log == log
    requires found == Prune(Visible(k, e.server), e.now - l.Window()) && |found| < l.calls
    ensures Run(l, es + [e]).key == Key(found[e.member := e.now], e.server + l.windowMillis)
    ensures Run(l, es + [e]).log == log + [Admission(e.now, e.server, e.member, |es|)]
  {
    hide Run, Prune, Visible, Oldest, IsOldest;
    RunExtends(l, es, e);
    Steps(l, es);
  }

  /** Three requests whose member strings collide are all admitted against a limit of two. */
  lemma CollidingMembersOverAdmit()
    ensures var l := Limit(2, 1000);
      var e := Request(5, 0, "5:1");
      Between(Run(l, [e, e, e]).log, 0, l.Window()) == 3 && !FaithfulRun(l, [e, e, e])
  {
    hide Run, Prune, Visible, FaithfulRun, Between;
    var l := Limit(2, 1000);
    var e := Request(5, 0, "5:1");
    var k := Key(map["5:1" := 5], 1000);
    var a, b, c := Admission(5, 0, "5:1", 0), Admission(5, 0, "5:1", 1), Admission(5, 0, "5:1", 2);
    FirstAdmitted(l, e);
    CollisionKept(k);
    OneMore(l, [e], k, [a], e, k.entries);
    assert [e] + [e] == [e, e] && [e, e] + [e] == [e, e, e];
    OneMore(l, [e, e], k, [a, b], e, k.entries);
    assert Run(l, [e, e, e]).log == [a, b, c];
    BetweenThree(a, b, c, 0, l.Window());
    if FaithfulRun(l, [e, e, e]) {
      WindowBound(l, [e, e, e], 0);
    }
  }

  lemma CollisionKept(k: Key)
    requires k == Key(map["5:1" := 5], 1000)
    ensures Prune(Visible(k, 0), 5 - Limit(2, 1000).Window()) == k.entries && k.entries["5:1" := 5] == k.entries
  {
  }

  lemma BetweenThree(a: Admission, b: Admission, c: Admission, lo: int, hi: int)
    requires lo < a.time <= hi && lo < b.time <= hi && lo < c.time <= hi
    ensures Between([a, b, c], lo, hi) == 3
  {
    assert [a, b, c][..2] == [a, b];
    BetweenTwo(a, b, lo, hi);
  }

  lemma BetweenTwo(a: Admission, b: Admission, lo: int, hi: int)
    requires lo < a.time <= hi && lo < b.time <= hi
    ensures Between([a, b], lo, hi) == 2
  {
    assert [a, b][..1] == [a] && [a][..0] == [];
    assert Between([a], lo, hi) == 1;
  }

  lemma LateFindsNothing()
    ensures Prune(Visible(Key(map["a" := 0], 1), 2), -999_999) == map[]
  {
  }

  /** When Redis runs the script later than the caller read its clock, the key can expire under an
      admission that is still inside the window: two calls within one nanosecond pass a limit of one. */
  lemma LateScriptOverAdmits()
    ensures var l := Limit(1, 1);
      var es := [Request(0, 0, "a"), Request(1, 2, "b")];
      InOrder(l, es) && Between(Run(l, es).log, -1, 1) == 2 && !FaithfulRun(l, es)
  {
    hide Run, FaithfulRun, Prune, Visible, Between;
    var l := Limit(1, 1);
    var e, f := Request(0, 0, "a"), Request(1, 2, "b");
    var a, b := Admission(0, 0, "a", 0), Admission(1, 2, "b", 1);
    assert [e, f][0] == e && [e, f][1] == f;
    var none: map<string, int> := map[];
    FirstAdmitted(l, e);
    LateFindsNothing();
    OneMore(l, [e], Key(map["a" := 0], 1), [a], f, none);
    assert [e] + [f] == [e, f] && Run(l, [e, f]).log == [a, b];
    BetweenTwo(a, b, -1, 1);
    BetweenTwo(a, b, -1, 999_999);
    if FaithfulRun(l, [e, f]) {
      WindowBound(l, [e, f], -1);
    }
  }

  const EARLY := [Request(1, 0, "a"), Request(1, 0, "b")]
  const OVERTAKER := Request(1_000_001, 1, "c")
  const OVERTAKEN := Request(1_000_000, 1, "d")

  lemma BeforeOvertaking()
    ensures var l := Limit(2, 1);
      && Run(l, EARLY).key == Key(map["a" := 1, "b" := 1], 1)
      && Run(l, EARLY).log == [Admission(1, 0, "a", 0), Admission(1, 0, "b", 1)]
  {
    var l := Limit(2, 1);
    FirstAdmitted(l, Request(1, 0, "a"));
    var one := map["a" := 1];
    assert Prune(Visible(Key(one, 1), 0), 1 - l.Window()) == one;
    assert one["b" := 1] == map["a" := 1, "b" := 1];
    hide Run, Prune;
    OneMore(l, [Request(1, 0, "a")], Key(one, 1), [Admission(1, 0, "a", 0)], Request(1, 0, "b"), one);
    assert [Request(1, 0, "a")] + [Request(1, 0, "b")] == EARLY;
  }

  lemma ThreeOfFour(a: Admission, b: Admission, c: Admission, d: Admission, lo: int, hi: int)
    requires lo < a.time <= hi && lo < b.time <= hi && hi < c.time && lo < d.time <= hi
    ensures Between([a, b, c, d], lo, hi) == 3
  {
    assert [a, b, c, d][..3] == [a, b, c] && [a, b, c][..2] == [a, b];
    BetweenTwo(a, b, lo, hi);
    assert Between([a, b, c], lo, hi) == 2;
  }

  lemma OvertakerPrunes()
    ensures Prune(Visible(Key(map["a" := 1, "b" := 1], 1), 1), 1) == map[]
    ensures Prune(Visible(Key(map["c" := 1_000_001], 2), 1), 0) == map["c" := 1_000_001]
  {
  }

  lemma AfterOvertaking()
    ensures var l := Limit(2, 1);
      && Run(l, EARLY + [OVERTAKER]).key == Key(map["c" := 1_000_001], 2)
      && Run(l, EARLY + [OVERTAKER]).log
         == [Admission(1, 0, "a", 0), Admission(1, 0, "b", 1), Admission(1_000_001, 1, "c", 2)]
  {
    hide Run, Prune, Visible;
    BeforeOvertaking();
    OvertakerPrunes();
    var none: map<string, int> := map[];
    assert none["c" := 1_000_001] == map["c" := 1_000_001];
    OneMore(Limit(2, 1), EARLY, Key(map["a" := 1, "b" := 1], 1),
            [Admission(1, 0, "a", 0), Admission(1, 0, "b", 1)], OVERTAKER, none);
  }

  /** Two callers of one perfect clock can overtake each other on the way to Redis.  The overtaking script
      has already pruned what the overtaken one still needs: three calls in one window pass a limit of two. */
  lemma OvertakingOverAdmits()
    ensures var l := Limit(2, 1);
      var es := EARLY + [OVERTAKER] + [OVERTAKEN];
      && (forall e <- es :: e.Request? && e.server == e.now / NANOS_PER_MILLI)
      && Between(Run(l, es).log, 0, l.Window()) == 3
      && !FaithfulRun(l, es)
  {
    hide Run, Prune, Visible, FaithfulRun, Between;
    var l := Limit(2, 1);
    var a, b := Admission(1, 0, "a", 0), Admission(1, 0, "b", 1);
    var c, d := Admission(1_000_001, 1, "c", 2), Admission(1_000_000, 1, "d", 3);
    AfterOvertaking();
    OvertakerPrunes();
    var es := EARLY + [OVERTAKER];
    OneMore(l, es, Key(map["c" := 1_000_001], 2), [a, b, c], OVERTAKEN, map["c" := 1_000_001]);
    assert Run(l, es + [OVERTAKEN]).log == [a, b, c, d];
    ThreeOfFour(a, b, c, d, 0, l.Window());
    if FaithfulRun(l, es + [OVERTAKEN]) {
      WindowBound(l, es + [OVERTAKEN], 0);
    }
  }

  /** What matters is what runs after an admission: one made by an overtaken request, older than a window the
      key has already seen, is counted like any other. */
  lemma LateAdmissionStays()
    ensures var l := Limit(2, 1);
      var es := [Request(10_000_000, 10, "a")] + [Request(2_000_000, 10, "b")];
      && Run(l, es).log == [Admission(10_000_000, 10, "a", 0), Admission(2_000_000, 10, "b", 1)]
      && Faithful(l, es, Request(2_000_000, 10, "c"))
  {
    var l := Limit(2, 1);
    var e, f := Request(10_000_000, 10, "a"), Request(2_000_000, 10, "b");
    var a := Admission(10_000_000, 10, "a", 0);
    var one := map["a" := 10_000_000];
    FirstAdmitted(l, e);
    assert Prune(Visible(Key(one, 11), 10), 1_000_000) == one;
    hide Run, Prune, Visible, Script;
    OneMore(l, [e], Key(one, 11), [a], f, one);
    var es := [e] + [f];
    assert es[..1] == [e] && es[1] == f;
    assert !Displaces(l, Run(l, es[..1]), es[1], a);
    assert Kept(l, es, a);
  }

  // -------------------------------------------------------------------------------------
  // RetryAfter is exact

  lemma RecentShrinks(log: seq<Admission>, early: int, late: int)
    requires early <= late
    ensures |Recent(log, late)| <= |Recent(log, early)|
    ensures |Since(log, late)| <= |Since(log, early)|
  {
    SinceIsRecent(log, early);
    SinceIsRecent(log, late);
    assert Recent(log, late) <= Recent(log, early);
    SubsetSize(Recent(log, late), Recent(log, early));
  }

  lemma UntilOldest(log: seq<Admission>, start: int, later: int)
    requires Since(log, start) != [] && later < OldestTime(Since(log, start))
    ensures |Since(log, start)| <= |Since(log, later)|
  {
    hide Since, OldestTime;
    SinceIsRecent(log, start);
    SinceIsRecent(log, later);
    assert Recent(log, start) <= Recent(log, later);
    SubsetSize(Recent(log, start), Recent(log, later));
  }

  lemma FromOldest(log: seq<Admission>, start: int)
    requires Since(log, start) != []
    ensures start < OldestTime(Since(log, start))
    ensures |Since(log, OldestTime(Since(log, start)))| < |Since(log, start)|
  {
    hide Since, OldestTime;
    var oldest := OldestTime(Since(log, start));
    SinceIsRecent(log, start);
    SinceIsRecent(log, oldest);
    var i :| i in Recent(log, start) && log[i].time == oldest;
    assert i !in Recent(log, oldest);
    assert Recent(log, oldest) <= Recent(log, start);
    SubsetSize(Recent(log, oldest), Recent(log, start));
  }

  /** After a refusal at `now`, the same log admits exactly the times from now + retryAfter on, if and only
      if fewer than `calls` admissions are later than the oldest one in the window. */
  lemma RetryExactIff(l: Limit, log: seq<Admission>, now: int)
    requires l.calls > 0 && !NaiveReply(l, log, now).allowed
    ensures NaiveReply(l, log, now).retryAfter > 0
    ensures Since(log, now - l.Window()) != []
    ensures |Since(log, OldestTime(Since(log, now - l.Window())))| < l.calls
       <==> forall later :: NaiveReply(l, log, later).allowed <==> later >= now + NaiveReply(l, log, now).retryAfter
  {
    hide Since, OldestTime;
    var start := now - l.Window();
    var oldest := OldestTime(Since(log, start));
    FromOldest(log, start);
    var retryAt := now + NaiveReply(l, log, now).retryAfter;
    assert retryAt - l.Window() == oldest;
    assert NaiveReply(l, log, retryAt).allowed <==> |Since(log, oldest)| < l.calls;
    forall later
      ensures later < retryAt ==> !NaiveReply(l, log, later).allowed
      ensures later >= retryAt && NaiveReply(l, log, retryAt).allowed ==> NaiveReply(l, log, later).allowed
    {
      if later < retryAt {
        UntilOldest(log, start, later - l.Window());
      } else {
        RecentShrinks(log, oldest, later - l.Window());
      }
    }
  }

  /** A window met intact holds at most `calls` admissions, even when other requests have overtaken this one. */
  lemma IntactWithinLimit(l: Limit, es: seq<Event>, e: Event)
    requires FaithfulRun(l, es) && e.Request? && Faithful(l, es, e)
    ensures var n := |Since(Run(l, es).log, e.now - l.Window())|; n == 0 || n <= l.calls
  {
    hide Run, Since, FaithfulRun, Kept, Dropped, IsMin;
    var log, start := Run(l, es).log, e.now - l.Window();
    assert es[..|es|] == es;
    forall i, j | i in Recent(log, start)
      ensures !Dropped(l, es, log[i], j)
    {
      if Dropped(l, es, log[i], j) {
        DroppedInRun(l, es, log[i], j);
        DroppedIsNotKept(l, es, |es|, log[i], j);
      }
    }
    UndroppedWithinLimit(l, es, start);
    SinceIsRecent(log, start);
  }

  lemma DroppedInRun(l: Limit, es: seq<Event>, a: Admission, j: nat)
    requires Dropped(l, es, a, j)
    ensures j < |es|
  {
  }

  /** So for a request that meets its window intact and is refused, the retry time is exact. */
  lemma RetryExact(l: Limit, es: seq<Event>, e: Event)
    requires FaithfulRun(l, es) && e.Request? && Faithful(l, es, e) && l.calls > 0
    requires !NaiveReply(l, Run(l, es).log, e.now).allowed
    ensures |Since(Run(l, es).log, e.now - l.Window())| == l.calls
    ensures NaiveReply(l, Run(l, es).log, e.now).retryAfter > 0
    ensures forall later :: NaiveReply(l, Run(l, es).log, later).allowed
                       <==> later >= e.now + NaiveReply(l, Run(l, es).log, e.now).retryAfter
  {
    hide Run, Since, OldestTime, FaithfulRun, Faithful;
    IntactWithinLimit(l, es, e);
    RetryExactIff(l, Run(l, es).log, e.now);
    FromOldest(Run(l, es).log, e.now - l.Window());
  }

  /** After a refusal, requests before now + retryAfter are all refused and the next one is admitted exactly
      when it is at or after it, whatever sweeps and overtaken requests run in between. */
  lemma RetryAfterExact(l: Limit, es: seq<Event>, refused: Event, waiting: seq<Event>, next: Event)
    requires l.calls > 0 && refused.Request? && next.Request?
    requires FaithfulRun(l, es + [refused] + waiting + [next])
    requires !ReplyTo(l, es, refused).allowed
    requires forall e <- waiting | e.Request? :: e.now < refused.now + ReplyTo(l, es, refused).retryAfter
    ensures Run(l, es + [refused] + waiting).log == Run(l, es).log
    ensures ReplyTo(l, es, refused).retryAfter > 0
    ensures ReplyTo(l, es + [refused] + waiting, next).allowed
       <==> next.now >= refused.now + ReplyTo(l, es, refused).retryAfter
  {
    hide Run, NaiveReply, NaiveRun, FaithfulRun, Faithful, Script;
    var before := es + [refused] + waiting;
    FaithfulExtends(l, before, next);
    FaithfulPrefix(l, es + [refused], waiting);
    FaithfulExtends(l, es, refused);
    RequestReply(l, es, refused);
    RetryExact(l, es, refused);
    WaitingRefused(l, es, refused, waiting);
    RequestReply(l, before, next);
  }

  lemma {:induction false} WaitingRefused(l: Limit, es: seq<Event>, refused: Event, waiting: seq<Event>)
    requires FaithfulRun(l, es + [refused] + waiting) && refused.Request?
    requires !ReplyTo(l, es, refused).allowed
    requires forall e <- waiting | e.Request? :: !NaiveReply(l, Run(l, es).log, e.now).allowed
    ensures Run(l, es + [refused] + waiting).log == Run(l, es).log
  {
    hide Run, FaithfulRun, Faithful, NaiveReply, Script, Prune;
    if waiting == [] {
      assert es + [refused] + waiting == es + [refused];
      RunExtends(l, es, refused);
    } else {
      var front, e := waiting[..|waiting| - 1], waiting[|waiting| - 1];
      var before := es + [refused] + front;
      assert before + [e] == es + [refused] + waiting;
      assert e in waiting;
      FaithfulExtends(l, before, e);
      WaitingRefused(l, es, refused, front);
      RunExtends(l, before, e);
      if e.Request? {
        RequestReply(l, before, e);
      }
    }
  }

  // -------------------------------------------------------------------------------------
  // The object

  const KEY_PREFIX := "siprec:ratelimit:"

  datatype Config = Config(
    globalCallsPerSecond: int,
    perIPCallsPerSecond: int,
    perUserCallsPerSecond: int,
    burstAllowance: real,
    shortWindowMillis: nat,
    longWindowMillis: nat)

  /** Settings left at zero get their defaults; the per-user limit has none. */
  function WithDefaults(c: Config): Config {
    c.(
      globalCallsPerSecond := if c.globalCallsPerSecond == 0 then 1000 else c.globalCallsPerSecond,
      perIPCallsPerSecond := if c.perIPCallsPerSecond == 0 then 10 else c.perIPCallsPerSecond,
      burstAllowance := if c.burstAllowance == 0.0 then 1.2 else c.burstAllowance,
      shortWindowMillis := if c.shortWindowMillis == 0 then 1000 else c.shortWindowMillis,
      longWindowMillis := if c.longWindowMillis == 0 then 60_000 else c.longWindowMillis)
  }

  /** What the environment supplies to one script call: the caller's clock, Redis's clock, the random
      member, and what becomes of the command. */
  datatype Call = Call(now: int, server: int, member: string, fate: Fate)

  datatype Result = Result(
    allowed: bool, remaining: int, limit: int, resetIn: int, limitType: string, retryAfter: int)

  datatype Metrics = Metrics(
    total: int, allowed: int, rejected: int, globalHits: int, ipHits: int, userHits: int)
  {
    /** Every request is counted once as allowed or rejected, every rejection under one limit. */
    ghost predicate Balanced() {
      total == allowed + rejected && rejected == globalHits + ipHits + userHits
    }
  }

  /** int64(float64(calls) * burst): truncation toward zero. */
  function Burst(calls: int, burst: real): int {
    var x := calls as real * burst;
    if x >= 0.0 then x.Floor else -((-x).Floor)
  }

  function LimitFor(c: Config, calls: int): Limit {
    Limit(Burst(calls, c.burstAllowance), c.shortWindowMillis)
  }

  function Stored(store: map<string, Key>, key: string): Key {
    if key in store then store[key] else ABSENT
  }

  /** The reply to one check; a check that is not answered lets the call through. */
  ghost function Checked(l: Limit, k: Key, limitType: string, c: Call): Result {
    if c.fate != Answered then Result(true, l.calls, l.calls, l.Window(), "", 0)
    else
      var reply := Script(l, k, c.now, c.server, c.member).1;
      Result(reply.allowed, reply.remaining, l.calls, l.Window(), limitType,
             if reply.retryAfter > 0 then reply.retryAfter else 0)
  }

  /** The keys after one check: a script whose answer is lost has still pruned, and counted the call if there
      was room. */
  ghost function AfterCheck(l: Limit, store: map<string, Key>, key: string, c: Call): map<string, Key> {
    if c.fate != NotDone then store[key := Script(l, Stored(store, key), c.now, c.server, c.member).0] else store
  }

  const GLOBAL_KEY := KEY_PREFIX + "global"

  function IPKey(remoteIP: string): string {
    KEY_PREFIX + "ip:" + remoteIP
  }

  function UserKey(userID: string): string {
    KEY_PREFIX + "user:" + userID
  }

  ghost function GlobalCheck(c: Config, store: map<string, Key>, call: Call): Result {
    Checked(LimitFor(c, c.globalCallsPerSecond), Stored(store, GLOBAL_KEY), "global", call)
  }

  ghost function IPCheck(c: Config, store: map<string, Key>, remoteIP: string, call: Call): Result {
    Checked(LimitFor(c, c.perIPCallsPerSecond), Stored(store, IPKey(remoteIP)), "ip", call)
  }

  ghost function UserCheck(c: Config, store: map<string, Key>, userID: string, call: Call): Result {
    Checked(LimitFor(c, c.perUserCallsPerSecond), Stored(store, UserKey(userID)), "user", call)
  }

  /** The keys after `AllowCall`: a call the address limit refuses has already taken its place in the
      global window. */
  ghost function AfterAllowCall(
    c: Config, store: map<string, Key>, remoteIP: string, global: Call, ip: Call): map<string, Key>
  {
    var admitted := AfterCheck(LimitFor(c, c.globalCallsPerSecond), store, GLOBAL_KEY, global);
    if GlobalCheck(c, store, global).allowed && remoteIP != ""
    then AfterCheck(LimitFor(c, c.perIPCallsPerSecond), admitted, IPKey(remoteIP), ip)
    else admitted
  }

  /** All three checks let the call through. */
  ghost predicate Admits(
    c: Config, store: map<string, Key>, remoteIP: string, userID: string, global: Call, ip: Call, user: Call)
  {
    && GlobalCheck(c, store, global).allowed
    && (remoteIP == "" || IPCheck(c, store, remoteIP, ip).allowed)
    && (userID == "" || UserCheck(c, store, userID, user).allowed)
  }

  /** The keys after `AllowCallWithUser`: the user's key is touched only when the other checks pass. */
  ghost function AfterAllowCallWithUser(
    c: Config, store: map<string, Key>, remoteIP: string, userID: string, global: Call, ip: Call, user: Call)
    : map<string, Key>
  {
    var before := AfterAllowCall(c, store, remoteIP, global, ip);
    if Admits(c, store, remoteIP, "", global, ip, user) && userID != ""
    then AfterCheck(LimitFor(c, c.perUserCallsPerSecond), before, UserKey(userID), user)
    else before
  }

  /** Different addresses and different users have different keys. */
  lemma KeysInjective(a: string, b: string)
    ensures IPKey(a) == IPKey(b) ==> a == b
    ensures UserKey(a) == UserKey(b) ==> a == b
  {
    assert a == IPKey(a)[|KEY_PREFIX| + 3..] && b == IPKey(b)[|KEY_PREFIX| + 3..];
    assert a == UserKey(a)[|KEY_PREFIX| + 5..] && b == UserKey(b)[|KEY_PREFIX| + 5..];
  }

  lemma KeysDiffer(remoteIP: string, userID: string)
    ensures GLOBAL_KEY != IPKey(remoteIP) && GLOBAL_KEY != UserKey(userID) && IPKey(remoteIP) != UserKey(userID)
  {
    var n := |KEY_PREFIX|;
    assert GLOBAL_KEY[n] == 'g' && IPKey(remoteIP)[n] == 'i' && UserKey(userID)[n] == 'u';
  }

  /** A limit of zero or less refuses every call Redis answers, and only such a limit does so on an
      absent key: leaving the per-user limit unset shuts every identified caller out. */
  lemma RefusesFromTheStartIff(l: Limit, limitType: string, c: Call)
    requires c.fate == Answered
    ensures l.calls <= 0 <==> !Checked(l, ABSENT, limitType, c).allowed
    ensures l.calls <= 0 <==> forall k: Key :: !Checked(l, k, limitType, c).allowed
  {
    assert Prune(Visible(ABSENT, c.server), c.now - l.Window()) == map[];
  }

  lemma UnsetUserLimitRefuses(c: Config, store: map<string, Key>, userID: string, call: Call)
    requires c.perUserCallsPerSecond == 0 && call.fate == Answered
    ensures !UserCheck(WithDefaults(c), store, userID, call).allowed
  {
    assert Burst(0, WithDefaults(c).burstAllowance) == 0;
  }

  /** One sweep over the store drops from every key what is older than the long window. */
  function Swept(store: map<string, Key>, start: int): map<string, Key> {
    map key | key in store :: SweptKey(store[key], start)
  }

  function SweptKey(k: Key, start: int): Key {
    Key(Prune(k.entries, start), k.expiry)
  }

  // -------------------------------------------------------------------------------------
  // Every key of the store is a run of its own

  /** One check, or the sweep of one key: the cleanup pipeline sends one command per key, and other callers
      may act between two of them. */
  datatype Op = Check(key: string, call: Call) | Sweep(key: string, now: int, longWindow: int)

  ghost function StoreStep(limitOf: string -> Limit, store: map<string, Key>, op: Op): map<string, Key> {
    match op
    case Check(key, call) => AfterCheck(limitOf(key), store, key, call)
    case Sweep(key, now, longWindow) =>
      if key in store then store[key := SweptKey(store[key], now - longWindow)] else store
  }

  ghost function StoreRun(limitOf: string -> Limit, ops: seq<Op>): map<string, Key> {
    if ops == [] then map[] else StoreStep(limitOf, StoreRun(limitOf, ops[..|ops| - 1]), ops[|ops| - 1])
  }

  /** What one operation is to `key`: its own checks that Redis ran, answered or not, and its own sweeps. */
  function EventOf(op: Op, key: string): seq<Event> {
    if op.key != key then []
    else
      match op
      case Check(_, c) => if c.fate != NotDone then [Request(c.now, c.server, c.member)] else []
      case Sweep(_, now, longWindow) => [Cleanup(now, longWindow)]
  }

  function EventsOf(ops: seq<Op>, key: string): seq<Event> {
    if ops == [] then [] else EventsOf(ops[..|ops| - 1], key) + EventOf(ops[|ops| - 1], key)
  }

  lemma StoreStepOf(limitOf: string -> Limit, store: map<string, Key>, op: Op, key: string)
    ensures EventOf(op, key) == [] ==> Stored(StoreStep(limitOf, store, op), key) == Stored(store, key)
    ensures EventOf(op, key) != [] ==> forall w: World | w.key == Stored(store, key) ::
              Stored(StoreStep(limitOf, store, op), key) == Step(limitOf(key), w, EventOf(op, key)[0]).key
  {
    hide Script;
    if op.Sweep? && key !in store {
      assert Prune(ABSENT.entries, op.now - op.longWindow) == map[];
    }
  }

  /** Whatever the calls interleaved on the other keys, each key evolves as the run of its own checks and
      sweeps; so what is proved of one key's runs holds for every key of the store. */
  lemma {:induction false} EachKeyIsARun(limitOf: string -> Limit, ops: seq<Op>, key: string)
    ensures Stored(StoreRun(limitOf, ops), key) == Run(limitOf(key), EventsOf(ops, key)).key
  {
    if ops != [] {
      hide StoreStep, Step, Stored;
      var front, op := ops[..|ops| - 1], ops[|ops| - 1];
      EachKeyIsARun(limitOf, front, key);
      StoreStepOf(limitOf, StoreRun(limitOf, front), op, key);
      var es := EventsOf(front, key);
      if EventOf(op, key) == [] {
        assert es + EventOf(op, key) == es;
      } else {
        assert EventsOf(ops, key)[..|es|] == es;
      }
    } else {
      assert Stored(map[], key) == ABSENT;
    }
  }

  // -------------------------------------------------------------------------------------
  // The limits in the configuration's own numbers

  /** `n` is calls * burst rounded down. */
  ghost predicate IsBurst(n: int, calls: int, burst: real) {
    n as real <= calls as real * burst < n as real + 1.0
  }

  lemma BurstRoundsDown(n: int, calls: int, burst: real, k: int)
    requires IsBurst(n, calls, burst) && k >= 0
    ensures k < Burst(calls, burst) <==> k < n
  {
    var x := calls as real * burst;
    if x >= 0.0 {
      assert x.Floor == n;
    } else {
      assert n < 0 && (-x).Floor >= 0;
    }
  }

  /** The `i`-th call, all its checks reading one clock and answered. */
  function CallAt(now: int, i: nat): Call {
    Call(now, now / NANOS_PER_MILLI, Name(i), Answered)
  }

  /** The store after `k` calls of one user from one address at one instant. */
  ghost function Served(c: Config, remoteIP: string, userID: string, t: int, k: nat): map<string, Key> {
    if k == 0 then map[]
    else
      var call := CallAt(t, k - 1);
      AfterAllowCallWithUser(c, Served(c, remoteIP, userID, t, k - 1), remoteIP, userID, call, call, call)
  }

  function AtMost(k: nat, calls: int): nat {
    if k < calls then k else Max0(calls)
  }

  function PastGlobal(c: Config, k: nat): nat {
    AtMost(k, LimitFor(c, c.globalCallsPerSecond).calls)
  }

  function PastIP(c: Config, remoteIP: string, k: nat): nat {
    if remoteIP == "" then PastGlobal(c, k)
    else AtMost(PastGlobal(c, k), LimitFor(c, c.perIPCallsPerSecond).calls)
  }

  /** What each key has seen. */
  ghost predicate ServedKeys(c: Config, store: map<string, Key>, remoteIP: string, userID: string, t: int, k: nat) {
    && Stored(store, GLOBAL_KEY) == Run(LimitFor(c, c.globalCallsPerSecond), Salvo(k, t)).key
    && (remoteIP != "" ==>
          Stored(store, IPKey(remoteIP)) == Run(LimitFor(c, c.perIPCallsPerSecond), Salvo(PastGlobal(c, k), t)).key)
    && (userID != "" ==>
          Stored(store, UserKey(userID))
          == Run(LimitFor(c, c.perUserCallsPerSecond), Salvo(PastIP(c, remoteIP, k), t)).key)
  }

  /** One check against a key that has seen `n` requests at `t`. */
  lemma CheckAfterSalvo(
    l: Limit, store: map<string, Key>, key: string, limitType: string, n: nat, t: int, now: int, m: nat)
    requires l.windowMillis > 0 && t <= now && n <= m && Stored(store, key) == Run(l, Salvo(n, t)).key
    ensures Checked(l, Stored(store, key), limitType, CallAt(now, m)).allowed
       <==> l.calls > 0 && (now >= t + l.Window() || n < l.calls)
    ensures now == t && m == n ==>
      Stored(AfterCheck(l, store, key, CallAt(now, m)), key) == Run(l, Salvo(n + 1, t)).key
  {
    hide Run, Salvo, Name, Script;
    SalvoAdmitted(l, n, t);
    SalvoReply(l, n, t, now, m);
    SalvoExtends(n, t);
    RunExtends(l, Salvo(n, t), Request(t, t / NANOS_PER_MILLI, Name(n)));
  }

  lemma OtherKeyKept(l: Limit, store: map<string, Key>, key: string, other: string, call: Call)
    requires key != other
    ensures Stored(AfterCheck(l, store, key, call), other) == Stored(store, other)
  {
    hide Script;
  }

  lemma NothingServed(c: Config, remoteIP: string, userID: string, t: int)
    ensures ServedKeys(c, map[], remoteIP, userID, t, 0)
  {
    NoSalvo(LimitFor(c, c.globalCallsPerSecond), t);
    NoSalvo(LimitFor(c, c.perIPCallsPerSecond), t);
    NoSalvo(LimitFor(c, c.perUserCallsPerSecond), t);
    hide Run, Salvo, Burst;
  }

  lemma GlobalStep(c: Config, store: map<string, Key>, remoteIP: string, userID: string, t: int, k: nat)
    requires c.shortWindowMillis > 0 && ServedKeys(c, store, remoteIP, userID, t, k)
    ensures var l, call := LimitFor(c, c.globalCallsPerSecond), CallAt(t, k);
      var after := AfterCheck(l, store, GLOBAL_KEY, call);
      && (GlobalCheck(c, store, call).allowed <==> k < l.calls)
      && Stored(after, GLOBAL_KEY) == Run(l, Salvo(k + 1, t)).key
      && Stored(after, IPKey(remoteIP)) == Stored(store, IPKey(remoteIP))
      && Stored(after, UserKey(userID)) == Stored(store, UserKey(userID))
  {
    hide Run, Salvo, Script, Burst, Checked, AfterCheck, Stored, IPKey, UserKey;
    var l := LimitFor(c, c.globalCallsPerSecond);
    CheckAfterSalvo(l, store, GLOBAL_KEY, "global", k, t, t, k);
    KeysDiffer(remoteIP, userID);
    OtherKeyKept(l, store, GLOBAL_KEY, IPKey(remoteIP), CallAt(t, k));
    OtherKeyKept(l, store, GLOBAL_KEY, UserKey(userID), CallAt(t, k));
  }

  lemma IPStep(
    c: Config, store: map<string, Key>, after: map<string, Key>, remoteIP: string, userID: string, t: int, k: nat)
    requires c.shortWindowMillis > 0 && remoteIP != "" && PastGlobal(c, k) == k
    requires ServedKeys(c, store, remoteIP, userID, t, k)
    requires Stored(after, IPKey(remoteIP)) == Stored(store, IPKey(remoteIP))
    ensures var l, call := LimitFor(c, c.perIPCallsPerSecond), CallAt(t, k);
      var after' := AfterCheck(l, after, IPKey(remoteIP), call);
      && (IPCheck(c, store, remoteIP, call).allowed <==> k < l.calls)
      && Stored(after', IPKey(remoteIP)) == Run(l, Salvo(k + 1, t)).key
      && Stored(after', GLOBAL_KEY) == Stored(after, GLOBAL_KEY)
      && Stored(after', UserKey(userID)) == Stored(after, UserKey(userID))
  {
    hide Run, Salvo, Script, Burst, Checked, AfterCheck, Stored, IPKey, UserKey;
    var l := LimitFor(c, c.perIPCallsPerSecond);
    CheckAfterSalvo(l, after, IPKey(remoteIP), "ip", k, t, t, k);
    KeysDiffer(remoteIP, userID);
    OtherKeyKept(l, after, IPKey(remoteIP), GLOBAL_KEY, CallAt(t, k));
    OtherKeyKept(l, after, IPKey(remoteIP), UserKey(userID), CallAt(t, k));
  }

  lemma UserStep(
    c: Config, store: map<string, Key>, after: map<string, Key>, remoteIP: string, userID: string, t: int, k: nat)
    requires c.shortWindowMillis > 0 && userID != "" && PastIP(c, remoteIP, k) == k
    requires ServedKeys(c, store, remoteIP, userID, t, k)
    requires Stored(after, UserKey(userID)) == Stored(store, UserKey(userID))
    ensures var l, call := LimitFor(c, c.perUserCallsPerSecond), CallAt(t, k);
      var after' := AfterCheck(l, after, UserKey(userID), call);
      && Stored(after', UserKey(userID)) == Run(l, Salvo(k + 1, t)).key
      && Stored(after', GLOBAL_KEY) == Stored(after, GLOBAL_KEY)
      && Stored(after', IPKey(remoteIP)) == Stored(after, IPKey(remoteIP))
  {
    hide Run, Salvo, Script, Burst, Checked, AfterCheck, Stored, IPKey, UserKey;
    var l := LimitFor(c, c.perUserCallsPerSecond);
    CheckAfterSalvo(l, after, UserKey(userID), "user", k, t, t, k);
    KeysDiffer(remoteIP, userID);
    OtherKeyKept(l, after, UserKey(userID), GLOBAL_KEY, CallAt(t, k));
    OtherKeyKept(l, after, UserKey(userID), IPKey(remoteIP), CallAt(t, k));
  }

  lemma ServeOne(c: Config, store: map<string, Key>, remoteIP: string, userID: string, t: int, k: nat)
    requires c.shortWindowMillis > 0 && ServedKeys(c, store, remoteIP, userID, t, k)
    ensures var call := CallAt(t, k);
      ServedKeys(c, AfterAllowCallWithUser(c, store, remoteIP, userID, call, call, call), remoteIP, userID, t, k + 1)
  {
    hide Run, Salvo, Script, LimitFor, Checked, AfterCheck, Stored, IPKey, UserKey;
    var call := CallAt(t, k);
    GlobalStep(c, store, remoteIP, userID, t, k);
    var global := AfterCheck(LimitFor(c, c.globalCallsPerSecond), store, GLOBAL_KEY, call);
    if GlobalCheck(c, store, call).allowed && remoteIP != "" {
      IPStep(c, store, global, remoteIP, userID, t, k);
    }
    var before := AfterAllowCall(c, store, remoteIP, call, call);
    if Admits(c, store, remoteIP, "", call, call, call) && userID != "" {
      UserStep(c, store, before, remoteIP, userID, t, k);
    }
  }

  lemma {:induction false} ServedIs(c: Config, remoteIP: string, userID: string, t: int, k: nat)
    requires c.shortWindowMillis > 0
    ensures ServedKeys(c, Served(c, remoteIP, userID, t, k), remoteIP, userID, t, k)
  {
    hide ServedKeys, AfterAllowCallWithUser;
    if k == 0 {
      NothingServed(c, remoteIP, userID, t);
    } else {
      ServedIs(c, remoteIP, userID, t, k - 1);
      ServeOne(c, Served(c, remoteIP, userID, t, k - 1), remoteIP, userID, t, k - 1);
    }
  }

  /** On one clock with every check answered, after `k` calls of one user from one address at one instant, a
      call at `now` is allowed exactly when, for each limit that applies, it is positive and either the short
      window has passed or fewer calls came than the limit, which is calls * burst rounded down. */
  lemma CallsAtOneInstant(
    c: Config, remoteIP: string, userID: string, t: int, k: nat, now: int, global: int, ip: int, user: int)
    requires c.shortWindowMillis > 0 && t <= now
    requires IsBurst(global, c.globalCallsPerSecond, c.burstAllowance)
    requires IsBurst(ip, c.perIPCallsPerSecond, c.burstAllowance)
    requires IsBurst(user, c.perUserCallsPerSecond, c.burstAllowance)
    ensures var call := CallAt(now, k);
      var passed := now >= t + c.shortWindowMillis * 1_000_000;
      Admits(c, Served(c, remoteIP, userID, t, k), remoteIP, userID, call, call, call)
      <==> && global > 0 && (passed || k < global)
           && (remoteIP == "" || (ip > 0 && (passed || k < ip)))
           && (userID == "" || (user > 0 && (passed || k < user)))
  {
    hide Run, Salvo, Script, Burst, Checked, Stored, IPKey, UserKey, Served, IsBurst, Name;
    var store := Served(c, remoteIP, userID, t, k);
    ServedIs(c, remoteIP, userID, t, k);
    CheckAfterSalvo(LimitFor(c, c.globalCallsPerSecond), store, GLOBAL_KEY, "global", k, t, now, k);
    if remoteIP != "" {
      CheckAfterSalvo(LimitFor(c, c.perIPCallsPerSecond), store, IPKey(remoteIP), "ip", PastGlobal(c, k), t, now, k);
    }
    if userID != "" {
      CheckAfterSalvo(LimitFor(c, c.perUserCallsPerSecond), store, UserKey(userID), "user",
                      PastIP(c, remoteIP, k), t, now, k);
    }
    BurstRoundsDown(global, c.globalCallsPerSecond, c.burstAllowance, k);
    BurstRoundsDown(ip, c.perIPCallsPerSecond, c.burstAllowance, k);
    BurstRoundsDown(user, c.perUserCallsPerSecond, c.burstAllowance, k);
    BurstRoundsDown(global, c.globalCallsPerSecond, c.burstAllowance, 0);
    BurstRoundsDown(ip, c.perIPCallsPerSecond, c.burstAllowance, 0);
    BurstRoundsDown(user, c.perUserCallsPerSecond, c.burstAllowance, 0);
  }

  /** With the default settings an address gets twelve calls at once and then waits a second. */
  lemma DefaultAddressLimit(remoteIP: string, t: int, k: nat, now: int)
    requires remoteIP != "" && t <= now
    ensures var c, call := WithDefaults(Config(0, 0, 0, 0.0, 0, 0)), CallAt(now, k);
      Admits(c, Served(c, remoteIP, "", t, k), remoteIP, "", call, call, call)
      <==> k < 12 || now >= t + 1_000_000_000
  {
    hide Served, Admits;
    var c := WithDefaults(Config(0, 0, 0, 0.0, 0, 0));
    CallsAtOneInstant(c, remoteIP, "", t, k, now, 1200, 12, 0);
  }

  class DistributedRateLimiter {
    const config: Config
    var store: map<string, Key>
    var metrics: Metrics

    constructor (config: Config)
      ensures this.config == WithDefaults(config) && store == map[]
      ensures config == Config(0, 0, 0, 0.0, 0, 0) ==> this.config == Config(1000, 10, 0, 1.2, 1000, 60_000)
      ensures this.config.perUserCallsPerSecond == config.perUserCallsPerSecond
      ensures config.globalCallsPerSecond != 0 ==> this.config.globalCallsPerSecond == config.globalCallsPerSecond
      ensures config.perIPCallsPerSecond != 0 ==> this.config.perIPCallsPerSecond == config.perIPCallsPerSecond
      ensures config.burstAllowance != 0.0 ==> this.config.burstAllowance == config.burstAllowance
      ensures config.shortWindowMillis != 0 ==> this.config.shortWindowMillis == config.shortWindowMillis
      ensures config.longWindowMillis != 0 ==> this.config.longWindowMillis == config.longWindowMillis
      ensures metrics == Metrics(0, 0, 0, 0, 0, 0) && metrics.Balanced()
    {
      this.config := WithDefaults(config);
      store := map[];
      metrics := Metrics(0, 0, 0, 0, 0, 0);
    }

    /** ZRANGE key 0 0 WITHSCORES */
    method LowestScore(entries: map<string, int>) returns (score: int)
      requires entries != map[]
      ensures score == Oldest(entries)
    {
      var first :| first in entries;
      score := entries[first];
      ghost var holder := first;
      var rest := entries.Keys - {first};
      while rest != {}
        invariant rest <= entries.Keys
        invariant holder in entries && entries[holder] == score
        invariant forall m <- entries :: m in rest || score <= entries[m]
        decreases rest
      {
        var m :| m in rest;
        if entries[m] < score {
          score := entries[m];
          holder := m;
        }
        rest := rest - {m};
      }
      OldestFrom(entries, holder);
    }

    method CheckSlidingWindowLimit(key: string, limit: Limit, limitType: string, c: Call) returns (r: Result)
      modifies this`store
      ensures store == AfterCheck(limit, old(store), key, c)
      ensures r == Checked(limit, Stored(old(store), key), limitType, c)
      ensures r.limit == limit.calls && r.resetIn == limit.windowMillis * 1_000_000
      ensures r.limitType == (if c.fate == Answered then limitType else "")
      ensures c.fate != Answered ==> r.allowed
      ensures r.allowed ==> r.retryAfter == 0
    {
      hide Prune, Visible, Oldest, IsOldest;
      if c.fate == NotDone {
        return Result(true, limit.calls, limit.calls, limit.Window(), "", 0);
      }
      var windowStart := c.now - limit.Window();
      var k := Stored(store, key);
      var entries := Prune(Visible(k, c.server), windowStart);
      var count := |entries|;
      if count < limit.calls {
        store := store[key := Key(entries[c.member := c.now], c.server + limit.windowMillis)];
        r := Result(true, limit.calls - count - 1, limit.calls, limit.Window(), limitType, 0);
      } else {
        store := store[key := Key(entries, k.expiry)];
        var retryAfter := 0;
        if count > 0 {
          var oldest := LowestScore(entries);
          retryAfter := oldest - windowStart;
        }
        r := Result(false, 0, limit.calls, limit.Window(), limitType, if retryAfter > 0 then retryAfter else 0);
      }
      if c.fate == AnswerLost {
        r := Result(true, limit.calls, limit.calls, limit.Window(), "", 0);
      }
    }

    /** The global limit, then the caller's address. */
    method AllowCall(remoteIP: string, global: Call, ip: Call) returns (r: Result)
      requires metrics.Balanced()
      modifies this
      ensures metrics.Balanced()
      ensures store == AfterAllowCall(config, old(store), remoteIP, global, ip)
      ensures var g, i := GlobalCheck(config, old(store), global), IPCheck(config, old(store), remoteIP, ip);
        var m := old(metrics).(total := old(metrics).total + 1);
        && (!g.allowed ==>
              r == g && metrics == m.(rejected := m.rejected + 1, globalHits := m.globalHits + 1))
        && (g.allowed && remoteIP != "" && !i.allowed ==>
              r == i && metrics == m.(rejected := m.rejected + 1, ipHits := m.ipHits + 1))
        && (g.allowed && (remoteIP == "" || i.allowed) ==>
              r == g.(limitType := "", retryAfter := 0) && metrics == m.(allowed := m.allowed + 1))
    {
      hide Script, Burst;
      metrics := metrics.(total := metrics.total + 1);
      var globalLimit := LimitFor(config, config.globalCallsPerSecond);
      var globalResult := CheckSlidingWindowLimit(GLOBAL_KEY, globalLimit, "global", global);
      if !globalResult.allowed {
        metrics := metrics.(rejected := metrics.rejected + 1, globalHits := metrics.globalHits + 1);
        return globalResult;
      }
      if remoteIP != "" {
        KeysDiffer(remoteIP, "");
        var ipLimit := LimitFor(config, config.perIPCallsPerSecond);
        var ipResult := CheckSlidingWindowLimit(IPKey(remoteIP), ipLimit, "ip", ip);
        if !ipResult.allowed {
          metrics := metrics.(rejected := metrics.rejected + 1, ipHits := metrics.ipHits + 1);
          return ipResult;
        }
      }
      metrics := metrics.(allowed := metrics.allowed + 1);
      r := Result(true, globalResult.remaining, globalResult.limit, globalResult.resetIn, "", 0);
    }

    /** `AllowCall`, then the user's limit; a refusal there takes back the count of an allowed call. */
    method AllowCallWithUser(remoteIP: string, userID: string, global: Call, ip: Call, user: Call)
      returns (r: Result)
      requires metrics.Balanced()
      modifies this
      ensures metrics.Balanced()
      ensures metrics.total == old(metrics).total + 1
      ensures metrics.allowed == old(metrics).allowed + if r.allowed then 1 else 0
      ensures r.allowed <==> Admits(config, old(store), remoteIP, userID, global, ip, user)
      ensures store == AfterAllowCallWithUser(config, old(store), remoteIP, userID, global, ip, user)
      ensures !r.allowed && Admits(config, old(store), remoteIP, "", global, ip, user) ==>
        r == UserCheck(config, old(store), userID, user) && metrics.userHits == old(metrics).userHits + 1
    {
      hide Script, Burst;
      KeysDiffer(remoteIP, userID);
      r := AllowCall(remoteIP, global, ip);
      if !r.allowed {
        return;
      }
      if userID != "" {
        assert Stored(store, UserKey(userID)) == Stored(old(store), UserKey(userID));
        var userLimit := LimitFor(config, config.perUserCallsPerSecond);
        var userResult := CheckSlidingWindowLimit(UserKey(userID), userLimit, "user", user);
        if !userResult.allowed {
          metrics := metrics.(
            rejected := metrics.rejected + 1, allowed := metrics.allowed - 1, userHits := metrics.userHits + 1);
          return userResult;
        }
      }
    }

    /** ZREMRANGEBYSCORE on every key. */
    method Cleanup(now: int)
      modifies this`store
      ensures store == Swept(old(store), now - config.longWindowMillis * NANOS_PER_MILLI)
      ensures store.Keys == old(store).Keys
      ensures forall key, m | key in store && m in old(store)[key].entries ::
        m in store[key].entries <==> now - old(store)[key].entries[m] < config.longWindowMillis * 1_000_000
    {
      var windowStart := now - config.longWindowMillis * NANOS_PER_MILLI;
      var keys := store.Keys;
      while keys != {}
        invariant keys <= store.Keys == old(store).Keys
        invariant forall key <- store ::
          store[key] == if key in keys then old(store)[key]
                        else Key(Prune(old(store)[key].entries, windowStart), old(store)[key].expiry)
        decreases keys
      {
        var key :| key in keys;
        store := store[key := Key(Prune(store[key].entries, windowStart), store[key].expiry)];
        keys := keys - {key};
      }
    }
  }
}
