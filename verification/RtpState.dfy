/** Per-node stream caches and the shared Redis record, pkg/cluster/rtp_state.go. */
module RtpState {
  import opened Common

  type NodeId = string
  type CallId = string

  datatype StreamStatus = Active | Paused | Migrating | Terminated

  /** `media` stands for the fields that migration copies without looking at them: session, codec, SSRCs,
      recording path, counters. */
  datatype Stream = Stream(
    call: CallId, node: NodeId, localPort: int, rtcpPort: int,
    status: StreamStatus, migrationTarget: NodeId, media: string)

  function Registered(s: Stream, me: NodeId): Stream {
    s.(node := me, status := Active)
  }

  function Marked(s: Stream, target: NodeId): Stream {
    s.(status := Migrating, migrationTarget := target)
  }

  /** The stream as the target node takes it over. */
  function Adopted(s: Stream, me: NodeId, localPort: int, rtcpPort: int): Stream {
    s.(node := me, localPort := localPort, rtcpPort := rtcpPort, status := Active, migrationTarget := "")
  }

  /** Every cached stream names the node that caches it. */
  ghost predicate HolderIs(cache: map<CallId, Stream>, me: NodeId) {
    forall c <- cache :: cache[c].node == me
  }

  /** The Redis hash of stream records shared by all nodes. */
  class StreamStore {
    var records: map<CallId, Stream>
  }

  class RTPStateManager {
    const nodeID: NodeId
    const redis: StreamStore
    var localStates: map<CallId, Stream>

    ghost predicate Valid()
      reads this
    {
      HolderIs(localStates, nodeID)
    }

    constructor (nodeID: NodeId, redis: StreamStore)
      ensures this.nodeID == nodeID && this.redis == redis && localStates == map[] && Valid()
    {
      this.nodeID, this.redis := nodeID, redis;
      localStates := map[];
    }

    method SaveState(s: Stream, fate: Fate)
      modifies redis
      ensures redis.records == if fate != NotDone then old(redis.records)[s.call := s] else old(redis.records)
    {
      if fate != NotDone {
        redis.records := redis.records[s.call := s];
      }
    }

    /** A replication that fails, or whose answer is lost, still leaves the stream registered locally. */
    method RegisterStream(s: Stream, fate: Fate) returns (ok: bool)
      requires Valid()
      modifies this, redis
      ensures Valid()
      ensures ok == (s.call != "" && fate == Answered)
      ensures localStates == if s.call == "" then old(localStates)
                             else old(localStates)[s.call := s.(node := nodeID, status := Active)]
      ensures redis.records == if s.call != "" && fate != NotDone
                               then old(redis.records)[s.call := s.(node := nodeID, status := Active)]
                               else old(redis.records)
    {
      if s.call == "" {
        return false;
      }
      var state := s.(node := nodeID);
      state := state.(status := Active);
      localStates := localStates[s.call := state];
      SaveState(state, fate);
      return fate == Answered;
    }

    /** Removes the shared record whoever wrote it last. */
    method UnregisterStream(call: CallId, fate: Fate) returns (ok: bool)
      requires Valid()
      modifies this, redis
      ensures Valid()
      ensures ok == (fate == Answered)
      ensures localStates == old(localStates) - {call}
      ensures redis.records == if fate != NotDone then old(redis.records) - {call} else old(redis.records)
    {
      if call in localStates {
        localStates := localStates - {call};
      }
      if fate != NotDone {
        redis.records := redis.records - {call};
      }
      return fate == Answered;
    }

    /** The local cache wins over the shared record. */
    method GetStream(call: CallId, answered: bool) returns (r: Option<Stream>)
      ensures r == if call in localStates then Some(localStates[call])
                   else if answered && call in redis.records then Some(redis.records[call])
                   else None
    {
      if call in localStates {
        return Some(localStates[call]);
      }
      if !answered || call !in redis.records {
        return None;
      }
      return Some(redis.records[call]);
    }

    method InitiateMigration(call: CallId, target: NodeId, fate: Fate) returns (ok: bool)
      requires Valid()
      modifies this, redis
      ensures Valid()
      ensures ok == (call in old(localStates) && fate == Answered)
      ensures call !in old(localStates) ==> localStates == old(localStates) && redis.records == old(redis.records)
      ensures call in old(localStates) ==>
        var marked := old(localStates)[call].(status := Migrating, migrationTarget := target);
        && localStates == old(localStates)[call := marked]
        && redis.records == if fate != NotDone then old(redis.records)[marked.call := marked] else old(redis.records)
    {
      if call !in localStates {
        return false;
      }
      var state := localStates[call];
      state := state.(status := Migrating, migrationTarget := target);
      localStates := localStates[call := state];
      SaveState(state, fate);
      return fate == Answered;
    }

    /** The target keeps the stream even when the shared record could not be written. */
    method CompleteMigration(call: CallId, s: Stream, fate: Fate) returns (ok: bool)
      requires Valid()
      modifies this, redis
      ensures Valid()
      ensures ok == (fate == Answered)
      ensures call in localStates && localStates == old(localStates)[call := localStates[call]]
      ensures localStates[call] == Stream(
                call := s.call, node := nodeID, localPort := s.localPort, rtcpPort := s.rtcpPort,
                status := Active, migrationTarget := "", media := s.media)
      ensures redis.records == if fate != NotDone then old(redis.records)[s.call := localStates[call]]
                               else old(redis.records)
    {
      var state := s.(node := nodeID, status := Active, migrationTarget := "");
      localStates := localStates[call := state];
      SaveState(state, fate);
      return fate == Answered;
    }
  }
}
