/** The tamper-evident audit log of pkg/compliance/audit_chain.go.

    The SHA-256 of the JSON of (timestamp, payload, previous hash) is a function parameter `hash`,
    assumed injective and never the empty string. */
module AuditChain {
  import opened Common

  type Hash = string

  datatype Record<P> = Record(timestamp: int, payload: P, prevHash: Hash, hash: Hash)

  /** Different inputs have different hashes, and no hash is empty. */
  ghost predicate GoodHash<P(!new)>(hash: (int, P, Hash) -> Hash) {
    && (forall t, p, h :: hash(t, p, h) != "")
    && (forall t, p, h, t', p', h' :: hash(t, p, h) == hash(t', p', h') ==> t == t' && p == p' && h == h')
  }

  /** `rs` is a chain that starts at `first`: every record carries its own hash and its predecessor's. */
  ghost predicate Linked<P>(hash: (int, P, Hash) -> Hash, first: Hash, rs: seq<Record<P>>) {
    forall i | 0 <= i < |rs| :: LinkedAt(hash, first, rs, i)
  }

  ghost predicate LinkedAt<P>(hash: (int, P, Hash) -> Hash, first: Hash, rs: seq<Record<P>>, i: nat)
    requires i < |rs|
  {
    && rs[i].hash == hash(rs[i].timestamp, rs[i].payload, rs[i].prevHash)
    && rs[i].prevHash == if i == 0 then first else rs[i - 1].hash
  }

  function LastHash<P>(rs: seq<Record<P>>): Hash {
    if rs == [] then "" else rs[|rs| - 1].hash
  }

  /** What happens to one Append: it succeeds, or fails before anything is written. */
  datatype Attempt<P> = Attempt(timestamp: int, payload: Option<P>, written: bool)

  datatype Log<P> = Log(lastHash: Hash, file: seq<Record<P>>)

  /** A missing payload becomes the empty one. */
  function Appended<P>(hash: (int, P, Hash) -> Hash, empty: P, l: Log<P>, a: Attempt<P>): Log<P> {
    if !a.written then l
    else
      var payload := if a.payload.None? then empty else a.payload.value;
      var h := hash(a.timestamp, payload, l.lastHash);
      Log(h, l.file + [Record(a.timestamp, payload, l.lastHash, h)])
  }

  function Run<P>(hash: (int, P, Hash) -> Hash, empty: P, l: Log<P>, attempts: seq<Attempt<P>>): Log<P> {
    if attempts == [] then l
    else Appended(hash, empty, Run(hash, empty, l, attempts[..|attempts| - 1]), attempts[|attempts| - 1])
  }

  /** The payloads of the successful attempts, in order. */
  function Accepted<P>(empty: P, attempts: seq<Attempt<P>>): seq<(int, P)> {
    if attempts == [] then []
    else
      var a := attempts[|attempts| - 1];
      var rest := Accepted(empty, attempts[..|attempts| - 1]);
      if a.written then rest + [(a.timestamp, if a.payload.None? then empty else a.payload.value)] else rest
  }

  /** After any appends, failed ones among them, a log begun on an empty file is a linked chain of exactly
      the successful payloads, and lastHash is the hash of its last record. */
  lemma {:induction false} ChainIsLinked<P>(hash: (int, P, Hash) -> Hash, empty: P, attempts: seq<Attempt<P>>)
    ensures var l := Run(hash, empty, Log("", []), attempts);
      && Linked(hash, "", l.file)
      && l.lastHash == LastHash(l.file)
      && |l.file| == |Accepted(empty, attempts)|
      && forall i | 0 <= i < |l.file| :: (l.file[i].timestamp, l.file[i].payload) == Accepted(empty, attempts)[i]
  {
    if attempts != [] {
      var n := |attempts| - 1;
      ChainIsLinked(hash, empty, attempts[..n]);
      var l := Run(hash, empty, Log("", []), attempts[..n]);
      var l' := Run(hash, empty, Log("", []), attempts);
      forall i | 0 <= i < |l'.file| ensures LinkedAt(hash, "", l'.file, i) {
        assert i < |l.file| ==> LinkedAt(hash, "", l.file, i);
      }
    }
  }

  lemma LinkedFront<P>(hash: (int, P, Hash) -> Hash, first: Hash, rs: seq<Record<P>>)
    requires Linked(hash, first, rs) && rs != []
    ensures Linked(hash, first, rs[..|rs| - 1])
    ensures first == "" ==> LastHash(rs[..|rs| - 1]) == rs[|rs| - 1].prevHash
  {
    var n := |rs| - 1;
    assert LinkedAt(hash, first, rs, n);
    forall i | 0 <= i < n ensures LinkedAt(hash, first, rs[..n], i) {
      assert LinkedAt(hash, first, rs, i);
    }
  }

  /** A chain from the empty hash is determined by its last hash: no record of it can be changed, added
      or removed without changing that hash. */
  lemma {:induction false} LastHashDeterminesChain<P(!new)>(
    hash: (int, P, Hash) -> Hash, a: seq<Record<P>>, b: seq<Record<P>>)
    requires GoodHash(hash) && Linked(hash, "", a) && Linked(hash, "", b)
    requires LastHash(a) == LastHash(b)
    ensures a == b
  {
    EmptyIffNoHash(hash, a);
    EmptyIffNoHash(hash, b);
    if a != [] && b != [] {
      var m, n := |a| - 1, |b| - 1;
      assert a == a[..m] + [a[m]];
      assert b == b[..n] + [b[n]];
      LinkedFront(hash, "", a);
      LinkedFront(hash, "", b);
      SameHashSameRecord(hash, a, b);
      LastHashDeterminesChain(hash, a[..m], b[..n]);
    }
  }

  lemma EmptyIffNoHash<P(!new)>(hash: (int, P, Hash) -> Hash, rs: seq<Record<P>>)
    requires GoodHash(hash) && Linked(hash, "", rs)
    ensures rs == [] <==> LastHash(rs) == ""
  {
    assert rs != [] ==> LinkedAt(hash, "", rs, |rs| - 1);
  }

  lemma SameHashSameRecord<P(!new)>(hash: (int, P, Hash) -> Hash, a: seq<Record<P>>, b: seq<Record<P>>)
    requires GoodHash(hash) && Linked(hash, "", a) && Linked(hash, "", b) && a != [] && b != []
    requires a[|a| - 1].hash == b[|b| - 1].hash
    ensures a[|a| - 1] == b[|b| - 1]
  {
    assert LinkedAt(hash, "", a, |a| - 1) && LinkedAt(hash, "", b, |b| - 1);
  }

  /** So any well-linked list from the empty hash that ends in the writer's lastHash is the file. */
  lemma TamperEvident<P(!new)>(
    hash: (int, P, Hash) -> Hash, empty: P, attempts: seq<Attempt<P>>, other: seq<Record<P>>)
    requires GoodHash(hash) && Linked(hash, "", other)
    requires LastHash(other) == Run(hash, empty, Log("", []), attempts).lastHash
    ensures other == Run(hash, empty, Log("", []), attempts).file
  {
    ChainIsLinked(hash, empty, attempts);
    LastHashDeterminesChain(hash, other, Run(hash, empty, Log("", []), attempts).file);
  }

  // -------------------------------------------------------------------------------------
  // A writer on an existing file

  /** A new writer does not read the file it appends to. */
  function Reopened<P>(file: seq<Record<P>>): Log<P> {
    Log("", file)
  }

  lemma {:induction false} RunOnFile<P>(
    hash: (int, P, Hash) -> Hash, empty: P, file: seq<Record<P>>, attempts: seq<Attempt<P>>)
    ensures Run(hash, empty, Reopened(file), attempts).file
         == file + Run(hash, empty, Reopened([]), attempts).file
    ensures Run(hash, empty, Reopened(file), attempts).lastHash
         == Run(hash, empty, Reopened([]), attempts).lastHash
  {
    if attempts != [] {
      RunOnFile(hash, empty, file, attempts[..|attempts| - 1]);
    }
  }

  /** Reopening a log leaves one linked chain exactly when the file was empty or nothing was appended:
      the new writer starts over from the empty hash. */
  lemma ReopenedIff<P(!new)>(
    hash: (int, P, Hash) -> Hash, empty: P, file: seq<Record<P>>, attempts: seq<Attempt<P>>)
    requires GoodHash(hash) && Linked(hash, "", file)
    ensures Linked(hash, "", Run(hash, empty, Reopened(file), attempts).file)
       <==> file == [] || Accepted(empty, attempts) == []
  {
    RunOnFile(hash, empty, file, attempts);
    ChainIsLinked(hash, empty, attempts);
    var added := Run(hash, empty, Reopened([]), attempts).file;
    if file == [] {
      assert file + added == added;
    } else if added == [] {
      assert file + added == file;
    } else {
      assert LinkedAt(hash, "", file, |file| - 1);
      assert LinkedAt(hash, "", added, 0);
      assert !LinkedAt(hash, "", file + added, |file|);
    }
  }

  // -------------------------------------------------------------------------------------
  // The object

  class AuditChainWriter<P> {
    const hash: (int, P, Hash) -> Hash
    const empty: P
    var lastHash: Hash
    var file: seq<Record<P>>

    ghost function View(): Log<P>
      reads this
    {
      Log(lastHash, file)
    }

    constructor (hash: (int, P, Hash) -> Hash, empty: P, file: seq<Record<P>>)
      ensures this.hash == hash && this.empty == empty && View() == Reopened(file)
    {
      this.hash, this.empty := hash, empty;
      lastHash, this.file := "", file;
    }

    /** `marshalled`, `isOpen` and `wrote` say how far the attempt gets; the hash moves on only after the
        record is in the file. */
    method Append(payload: Option<P>, timestamp: int, marshalled: bool, isOpen: bool, wrote: bool)
      returns (ok: bool)
      modifies this
      ensures ok == (marshalled && isOpen && wrote)
      ensures View() == Appended(hash, empty, old(View()), Attempt(timestamp, payload, ok))
    {
      var body := if payload.None? then empty else payload.value;
      var record := Record(timestamp, body, lastHash, "");
      if !marshalled {
        return false;
      }
      record := record.(hash := hash(record.timestamp, record.payload, record.prevHash));
      if !isOpen {
        return false;
      }
      if !wrote {
        return false;
      }
      file := file + [record];
      lastHash := record.hash;
      return true;
    }
  }
}
