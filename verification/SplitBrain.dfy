/** The split-brain detector of pkg/cluster/split_brain.go.

    One tick of the detection loop is one step.  `checked` is the clock read at the start of the grace
    period or compared with it, `acted` the clock when a partition is declared or cleared.  A tick whose
    node check fails changes nothing.  Times are milliseconds. */
module SplitBrain {
  import opened Common

  const FENCE_TTL := 3_600_000

  datatype Config = Config(minQuorum: int, nodeTimeout: int, gracePeriod: int, enableFencing: bool)

  // -------------------------------------------------------------------------------------
  // Which nodes are alive

  datatype NodeInfo = NodeInfo(id: string, lastSeen: int)

  predicate Alive(c: Config, info: Option<NodeInfo>, now: int) {
    info.Some? && now - info.value.lastSeen < c.nodeTimeout * 2
  }

  function Reachable(c: Config, infos: seq<Option<NodeInfo>>, now: int): seq<string> {
    if infos == [] then []
    else
      var rest, last := Reachable(c, infos[..|infos| - 1], now), infos[|infos| - 1];
      if Alive(c, last, now) then rest + [last.value.id] else rest
  }

  /** A node is reachable exactly when one of the listed keys parses and shows a heartbeat younger than
      twice the node timeout; keys that show none cannot add to the count. */
  lemma {:induction false} ReachableIff(c: Config, infos: seq<Option<NodeInfo>>, now: int, id: string)
    ensures id in Reachable(c, infos, now)
       <==> exists i | 0 <= i < |infos| ::
              && infos[i].Some? && infos[i].value.id == id
              && now - infos[i].value.lastSeen < 2 * c.nodeTimeout
    ensures |Reachable(c, infos, now)| <= |infos|
    ensures |Reachable(c, infos, now)| == |infos|
       <==> forall i | 0 <= i < |infos| :: infos[i].Some? && now - infos[i].value.lastSeen < 2 * c.nodeTimeout
  {
    if infos != [] {
      var n := |infos| - 1;
      ReachableIff(c, infos[..n], now, id);
      assert forall i | 0 <= i < n :: infos[..n][i] == infos[i];
    }
  }

  // -------------------------------------------------------------------------------------
  // The loop

  /** The detector's state, the expiry of its fence key if one is set, and the callbacks made. */
  datatype Detector = Detector(
    partitioned: bool, inGrace: bool, graceStart: int, fence: Option<int>, notified: seq<bool>)

  const INITIAL := Detector(false, false, 0, None, [])

  /** A successful check: how many nodes it reached and when. */
  datatype Check = Check(reached: nat, checked: int, acted: int)

  predicate HasQuorum(c: Config, k: Check) {
    k.reached >= c.minQuorum
  }

  function Declare(c: Config, d: Detector, now: int): Detector {
    d.(partitioned := true, notified := d.notified + [true],
       fence := if c.enableFencing then Some(now + FENCE_TTL) else d.fence)
  }

  function Recover(c: Config, d: Detector): Detector {
    d.(partitioned := false, notified := d.notified + [false],
       fence := if c.enableFencing then None else d.fence)
  }

  function Tick(c: Config, d: Detector, k: Check): Detector {
    if HasQuorum(c, k) then
      var d' := d.(inGrace := false);
      if d.partitioned then Recover(c, d') else d'
    else if !d.inGrace then d.(inGrace := true, graceStart := k.checked)
    else if k.checked - d.graceStart > c.gracePeriod && !d.partitioned then Declare(c, d, k.acted)
    else d
  }

  function Run(c: Config, ks: seq<Check>): Detector {
    if ks == [] then INITIAL else Tick(c, Run(c, ks[..|ks| - 1]), ks[|ks| - 1])
  }

  /** Fenced as Redis sees it at `now`; a key expires strictly after its deadline. */
  predicate Fenced(d: Detector, now: int) {
    d.fence.Some? && now <= d.fence.value
  }

  ghost predicate Monotone(ks: seq<Check>) {
    && (forall i | 0 <= i < |ks| :: ks[i].checked <= ks[i].acted)
    && (forall i, j | 0 <= i < j < |ks| :: ks[i].acted <= ks[j].checked)
  }

  // -------------------------------------------------------------------------------------
  // When a partition is declared

  /** The checks at the end of the run that all lacked quorum. */
  function Outage(c: Config, ks: seq<Check>): seq<Check> {
    if ks == [] || HasQuorum(c, ks[|ks| - 1]) then []
    else Outage(c, ks[..|ks| - 1]) + [ks[|ks| - 1]]
  }

  /** The outage has been observed for longer than the grace period. */
  ghost predicate Overdue(c: Config, outage: seq<Check>) {
    |outage| >= 2 && outage[|outage| - 1].checked - outage[0].checked > c.gracePeriod
  }

  /** The loop's local variables describe the outage. */
  ghost predicate Tracks(c: Config, d: Detector, outage: seq<Check>) {
    && (d.inGrace <==> outage != [])
    && (d.inGrace ==> d.graceStart == outage[0].checked)
    && (d.partitioned <==> Overdue(c, outage))
  }

  lemma {:induction false} OutageIsSuffix(c: Config, ks: seq<Check>)
    ensures |Outage(c, ks)| <= |ks|
    ensures Outage(c, ks) == ks[|ks| - |Outage(c, ks)|..]
    ensures forall k <- Outage(c, ks) :: !HasQuorum(c, k)
  {
    hide HasQuorum;
    if ks != [] && !HasQuorum(c, ks[|ks| - 1]) {
      var front, k := ks[..|ks| - 1], ks[|ks| - 1];
      OutageIsSuffix(c, front);
      SuffixExtends(front, |Outage(c, front)|, k);
      assert front + [k] == ks;
    }
  }

  lemma SuffixExtends(front: seq<Check>, m: nat, k: Check)
    requires m <= |front|
    ensures front[|front| - m..] + [k] == (front + [k])[|front| - m..]
  {
  }

  lemma TracksStep(c: Config, d: Detector, outage: seq<Check>, k: Check)
    requires Tracks(c, d, outage)
    requires outage != [] ==> outage[|outage| - 1].checked <= k.checked
    ensures Tracks(c, Tick(c, d, k), if HasQuorum(c, k) then [] else outage + [k])
  {
  }

  lemma {:induction false} RunTracks(c: Config, ks: seq<Check>)
    requires Monotone(ks)
    ensures Tracks(c, Run(c, ks), Outage(c, ks))
  {
    if ks != [] {
      var n := |ks| - 1;
      RunTracks(c, ks[..n]);
      OutageIsSuffix(c, ks[..n]);
      var o := Outage(c, ks[..n]);
      if o != [] {
        assert o[|o| - 1] == ks[n - 1];
      }
      hide Tick, Tracks;
      TracksStep(c, Run(c, ks[..n]), o, ks[n]);
    }
  }

  /** From check `i` on, every check reached fewer nodes than the quorum. */
  ghost predicate TooFewFrom(c: Config, ks: seq<Check>, i: nat) {
    forall j | i <= j < |ks| :: ks[j].reached < c.minQuorum
  }

  lemma {:induction false} OutageIsLongest(c: Config, ks: seq<Check>, i: nat)
    requires i <= |ks|
    ensures TooFewFrom(c, ks, i) <==> |ks| - i <= |Outage(c, ks)|
  {
    if i < |ks| {
      var n := |ks| - 1;
      OutageIsLongest(c, ks[..n], i);
      assert TooFewFrom(c, ks, i) <==> TooFewFrom(c, ks[..n], i) && ks[n].reached < c.minQuorum;
    }
  }

  /** After every run the node is partitioned exactly when all checks since some earlier one, itself included,
      reached fewer nodes than the quorum, and the last came more than the grace period after it.  So the
      first check that reaches the quorum clears a partition. */
  lemma PartitionedIff(c: Config, ks: seq<Check>)
    requires Monotone(ks)
    ensures Run(c, ks).partitioned
       <==> exists i | 0 <= i < |ks| - 1 ::
              TooFewFrom(c, ks, i) && ks[|ks| - 1].checked - ks[i].checked > c.gracePeriod
    ensures Run(c, ks).partitioned <==> Overdue(c, Outage(c, ks))
    ensures ks != [] && ks[|ks| - 1].reached >= c.minQuorum ==> !Run(c, ks).partitioned
  {
    RunTracks(c, ks);
    OutageIsSuffix(c, ks);
    hide Run, Outage, TooFewFrom;
    var first := |ks| - |Outage(c, ks)|;
    OutageIsLongest(c, ks, first);
    if i :| 0 <= i < |ks| - 1 && TooFewFrom(c, ks, i) && ks[|ks| - 1].checked - ks[i].checked > c.gracePeriod {
      OutageIsLongest(c, ks, i);
      assert ks[first].checked <= ks[i].checked;
    }
    if Run(c, ks).partitioned {
      assert ks[|ks| - 1].checked - ks[first].checked > c.gracePeriod;
    }
  }

  // -------------------------------------------------------------------------------------
  // Notifications and fencing

  /** Notifications strictly alternate, starting with a detection, and the last one is the state. */
  ghost predicate Alternates(d: Detector) {
    && (forall i | 0 <= i < |d.notified| :: d.notified[i] == (i % 2 == 0))
    && d.partitioned == (|d.notified| % 2 == 1)
  }

  lemma {:induction false} NotificationsAlternate(c: Config, ks: seq<Check>)
    ensures Alternates(Run(c, ks))
  {
    if ks != [] {
      NotificationsAlternate(c, ks[..|ks| - 1]);
    }
  }

  /** When the current partition was declared. */
  function DeclaredAt(c: Config, ks: seq<Check>): int {
    if ks == [] then 0
    else if Run(c, ks).partitioned && !Run(c, ks[..|ks| - 1]).partitioned then ks[|ks| - 1].acted
    else DeclaredAt(c, ks[..|ks| - 1])
  }

  lemma {:induction false} FenceTracks(c: Config, ks: seq<Check>)
    requires c.enableFencing
    ensures Run(c, ks).fence == if Run(c, ks).partitioned then Some(DeclaredAt(c, ks) + FENCE_TTL) else None
  {
    if ks != [] {
      FenceTracks(c, ks[..|ks| - 1]);
    }
  }

  /** With fencing on, the node is fenced exactly while it is partitioned and the fence key, which is set
      once and never refreshed, has not run out. */
  lemma FencedIff(c: Config, ks: seq<Check>, now: int)
    requires c.enableFencing
    ensures Fenced(Run(c, ks), now) <==> Run(c, ks).partitioned && now - DeclaredAt(c, ks) <= 3_600_000
  {
    FenceTracks(c, ks);
  }

  /** A partition that outlasts the fence key leaves the node partitioned and unfenced, however often
      it is checked. */
  lemma {:induction false} FenceRunsOut(c: Config, ks: seq<Check>, more: seq<Check>, now: int)
    requires c.enableFencing && Run(c, ks).partitioned
    requires forall k <- more :: k.reached < c.minQuorum
    requires now - DeclaredAt(c, ks) > 3_600_000
    ensures Run(c, ks + more).partitioned && DeclaredAt(c, ks + more) == DeclaredAt(c, ks)
    ensures !Fenced(Run(c, ks + more), now)
  {
    if more == [] {
      assert ks + more == ks;
    } else {
      var n := |more| - 1;
      FenceRunsOut(c, ks, more[..n], now);
      var all := ks + more;
      assert all[..|all| - 1] == ks + more[..n] && all[|all| - 1] == more[n];
      assert more[n] in more;
    }
    FencedIff(c, ks + more, now);
  }

  // -------------------------------------------------------------------------------------
  // The object

  class SplitBrainDetector {
    const nodeID: string
    const config: Config
    var reachableNodes: seq<string>
    var totalNodes: nat
    var partitionDetected: bool
    var inGracePeriod: bool
    var partitionStartTime: int
    var fencedUntil: Option<int>
    var callbacks: seq<bool>

    ghost function View(): Detector
      reads this
    {
      Detector(partitionDetected, inGracePeriod, partitionStartTime, fencedUntil, callbacks)
    }

    constructor (nodeID: string, config: Config)
      ensures this.nodeID == nodeID && this.config == config && View() == INITIAL
    {
      this.nodeID, this.config := nodeID, config;
      reachableNodes, totalNodes := [], 0;
      partitionDetected, inGracePeriod, partitionStartTime := false, false, 0;
      fencedUntil, callbacks := None, [];
    }

    /** The nodes whose last heartbeat is recent enough; keys that vanished or do not parse are skipped,
        and without any key the node only sees itself. */
    method CheckNodes(infos: seq<Option<NodeInfo>>, now: int) returns (reachable: seq<string>, total: nat)
      ensures infos == [] ==> reachable == [nodeID] && total == 1
      ensures infos != [] ==> reachable == Reachable(config, infos, now) && total == |infos|
    {
      if |infos| == 0 {
        return [nodeID], 1;
      }
      reachable := [];
      for i := 0 to |infos|
        invariant reachable == Reachable(config, infos[..i], now)
      {
        assert infos[..i + 1][..i] == infos[..i];
        if infos[i].None? {
          continue;
        }
        if now - infos[i].value.lastSeen < config.nodeTimeout * 2 {
          reachable := reachable + [infos[i].value.id];
        }
      }
      assert infos[..|infos|] == infos;
      total := |infos|;
    }

    method HandlePartition(detected: bool, now: int)
      modifies this`fencedUntil, this`callbacks
      ensures callbacks == old(callbacks) + [detected]
      ensures fencedUntil == if !config.enableFencing then old(fencedUntil)
                             else if detected then Some(now + 3_600_000) else None
    {
      if config.enableFencing {
        fencedUntil := if detected then Some(now + FENCE_TTL) else None;
      }
      callbacks := callbacks + [detected];
    }

    /** One tick of the detection loop; `infos` is nothing when the key listing fails. */
    method DetectOnce(infos: Option<seq<Option<NodeInfo>>>, listed: int, checked: int, acted: int)
      modifies this
      ensures infos.None? ==> View() == old(View()) && reachableNodes == old(reachableNodes)
      ensures infos.Some? ==>
        && View() == Tick(config, old(View()), Check(|reachableNodes|, checked, acted))
        && reachableNodes == if infos.value == [] then [nodeID] else Reachable(config, infos.value, listed)
    {
      if infos.None? {
        return;
      }
      var reachable, total := CheckNodes(infos.value, listed);
      reachableNodes, totalNodes := reachable, total;
      var hasQuorum := |reachable| >= config.minQuorum;
      if !hasQuorum {
        if !inGracePeriod {
          inGracePeriod := true;
          partitionStartTime := checked;
        } else if checked - partitionStartTime > config.gracePeriod {
          if !partitionDetected {
            partitionDetected := true;
            HandlePartition(true, acted);
          }
        }
      } else {
        inGracePeriod := false;
        if partitionDetected {
          partitionDetected := false;
          HandlePartition(false, acted);
        }
      }
    }
  }
}
