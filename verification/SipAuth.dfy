/** Replay protection of SIP digest authentication, pkg/auth/sip_auth.go.

    The digest itself is a function parameter.  Header fields and nonce counts follow section 3.2.2 of
    RFC 2617. */
module SipAuth {
  import opened Common
  import opened Text

  // -------------------------------------------------------------------------------------
  // Nonce counts

  const MAX_NONCE_COUNT := 0x7FFF_FFFF

  predicate IsHex(c: char) {
    '0' <= c <= '9' || 'a' <= c <= 'f' || 'A' <= c <= 'F'
  }

  function DigitValue(c: char): (v: nat)
    requires IsHex(c)
    ensures v < 16
  {
    if '0' <= c <= '9' then c as int - '0' as int
    else if 'a' <= c <= 'f' then c as int - 'a' as int + 10
    else c as int - 'A' as int + 10
  }

  ghost predicate AllHex(s: string) {
    forall i | 0 <= i < |s| :: IsHex(s[i])
  }

  ghost function HexValue(s: string): nat
    requires AllHex(s)
  {
    if s == [] then 0 else 16 * HexValue(s[..|s| - 1]) + DigitValue(s[|s| - 1])
  }

  /** The count a well-formed `nc` stands for: exactly eight hexadecimal digits, at most 2^31-1. */
  ghost function NonceCount(nc: string): Option<nat> {
    if |nc| == 8 && AllHex(nc) && HexValue(nc) <= MAX_NONCE_COUNT then Some(HexValue(nc)) else None
  }

  /** The three checks and the conversion of parseNonceCount. */
  method ParseNonceCount(nc: string) returns (r: Option<nat>)
    ensures r == NonceCount(nc)
  {
    if |nc| != 8 {
      return None;
    }
    for i := 0 to |nc|
      invariant forall j | 0 <= j < i :: IsHex(nc[j])
    {
      if !IsHex(nc[i]) {
        return None;
      }
    }
    var value := 0;
    for i := 0 to |nc|
      invariant AllHex(nc[..i]) && value == HexValue(nc[..i])
    {
      assert nc[..i + 1][..i] == nc[..i];
      value := 16 * value + DigitValue(nc[i]);
    }
    assert nc[..|nc|] == nc;
    if value > MAX_NONCE_COUNT {
      return None;
    }
    return Some(value);
  }

  function Pow16(n: nat): nat {
    if n == 0 then 1 else 16 * Pow16(n - 1)
  }

  /** Positional notation: the digits before the last |b| weigh 16^|b| more. */
  lemma {:induction false} HexValueOf(a: string, b: string)
    requires AllHex(a) && AllHex(b)
    ensures AllHex(a + b) && HexValue(a + b) == HexValue(a) * Pow16(|b|) + HexValue(b)
  {
    if b == "" {
      assert a + b == a;
    } else {
      var front, d := b[..|b| - 1], b[|b| - 1];
      HexValueOf(a, front);
      assert b == front + [d] && a + b == (a + front) + [d];
      LastHexDigit(front, d);
      LastHexDigit(a + front, d);
      hide HexValue, AllHex, DigitValue;
      Shift(HexValue(a), Pow16(|front|));
    }
  }

  lemma LastHexDigit(s: string, d: char)
    requires AllHex(s) && IsHex(d)
    ensures AllHex(s + [d]) && HexValue(s + [d]) == 16 * HexValue(s) + DigitValue(d)
  {
    assert (s + [d])[..|s + [d]| - 1] == s;
  }

  lemma Shift(x: int, y: int)
    ensures x * (16 * y) == 16 * (x * y)
  {
  }

  /** Each digit by itself has its hexadecimal value, in both letter cases. */
  lemma HexDigits(i: nat)
    requires i < 16
    ensures AllHex(["0123456789abcdef"[i]]) && HexValue(["0123456789abcdef"[i]]) == i
    ensures AllHex(["0123456789ABCDEF"[i]]) && HexValue(["0123456789ABCDEF"[i]]) == i
  {
    assert ["0123456789abcdef"[i]][..0] == "" && ["0123456789ABCDEF"[i]][..0] == "";
  }

  function LowerHex(c: char): char {
    if 'A' <= c <= 'F' then (c as int - 'A' as int + 'a' as int) as char else c
  }

  /** Equal up to the case of the letters A to F. */
  ghost predicate SameIgnoringCase(a: string, b: string) {
    |a| == |b| && forall i | 0 <= i < |a| :: LowerHex(a[i]) == LowerHex(b[i])
  }

  lemma LowerHexKeepsDigit(a: char, b: char)
    requires LowerHex(a) == LowerHex(b)
    ensures IsHex(a) == IsHex(b)
    ensures IsHex(a) ==> DigitValue(a) == DigitValue(b)
  {
  }

  lemma DigitDeterminesLowerHex(a: char, b: char)
    requires IsHex(a) && IsHex(b) && DigitValue(a) == DigitValue(b)
    ensures LowerHex(a) == LowerHex(b)
  {
  }

  lemma {:induction false} HexValueIgnoresCase(a: string, b: string)
    requires SameIgnoringCase(a, b)
    ensures AllHex(a) == AllHex(b)
    ensures AllHex(a) ==> HexValue(a) == HexValue(b)
  {
    forall i | 0 <= i < |a| ensures IsHex(a[i]) == IsHex(b[i]) {
      LowerHexKeepsDigit(a[i], b[i]);
    }
    if a != [] && AllHex(a) {
      LowerHexKeepsDigit(a[|a| - 1], b[|b| - 1]);
      HexValueIgnoresCase(a[..|a| - 1], b[..|b| - 1]);
    }
  }

  lemma {:induction false} HexValueInjective(a: string, b: string)
    requires |a| == |b| && AllHex(a) && AllHex(b) && HexValue(a) == HexValue(b)
    ensures SameIgnoringCase(a, b)
  {
    if a != [] {
      var n := |a| - 1;
      assert DigitValue(a[n]) == DigitValue(b[n]) && HexValue(a[..n]) == HexValue(b[..n]);
      HexValueInjective(a[..n], b[..n]);
      DigitDeterminesLowerHex(a[n], b[n]);
      forall i | 0 <= i < n ensures LowerHex(a[i]) == LowerHex(b[i]) {
        assert a[..n][i] == a[i] && b[..n][i] == b[i];
      }
    }
  }

  /** Two `nc` strings stand for the same count exactly when they differ only in letter case. */
  lemma SameCountIff(a: string, b: string)
    requires NonceCount(a).Some?
    ensures NonceCount(a) == NonceCount(b) <==> SameIgnoringCase(a, b)
  {
    if SameIgnoringCase(a, b) {
      HexValueIgnoresCase(a, b);
    }
    if NonceCount(a) == NonceCount(b) {
      HexValueInjective(a, b);
    }
  }

  // -------------------------------------------------------------------------------------
  // The nonce table

  datatype NonceInfo = NonceInfo(timestamp: int, count: nat, clientIP: string)

  type Nonces = map<string, NonceInfo>

  predicate Expired(info: NonceInfo, now: int, timeout: int) {
    now - info.timestamp > timeout
  }

  datatype Inspection = Rejected | Accepted(expected: nat, next: nat)

  /** What inspectNonce decides from the entry it copies out at time `now`. */
  ghost function Inspect(nonces: Nonces, nonce: string, ip: string, nc: string, now: int, timeout: int): Inspection {
    if NonceCount(nc).None? || nonce !in nonces then Rejected
    else
      var info := nonces[nonce];
      if Expired(info, now, timeout) || info.clientIP != ip || NonceCount(nc).value <= info.count
      then Rejected
      else Accepted(info.count, NonceCount(nc).value)
  }

  function Issue(nonces: Nonces, nonce: string, ip: string, now: int): Nonces {
    nonces[nonce := NonceInfo(now, 0, ip)]
  }

  /** Deletes the nonce if it is expired. */
  function Evict(nonces: Nonces, nonce: string, now: int, timeout: int): Nonces {
    if nonce in nonces && Expired(nonces[nonce], now, timeout) then nonces - {nonce} else nonces
  }

  predicate Commits(nonces: Nonces, nonce: string, expected: nat, next: nat, now: int, timeout: int) {
    && next > expected
    && nonce in nonces && nonces[nonce].count == expected && !Expired(nonces[nonce], now, timeout)
  }

  /** The compare-and-update; a refusal drops the nonce when it reads as expired at `dropped`. */
  function Commit(
    nonces: Nonces, nonce: string, expected: nat, next: nat, now: int, dropped: int, timeout: int): Nonces
  {
    if Commits(nonces, nonce, expected, next, now, timeout)
    then nonces[nonce := nonces[nonce].(count := next)]
    else if next <= expected then nonces
    else Evict(nonces, nonce, dropped, timeout)
  }

  function Sweep(nonces: Nonces, now: int, timeout: int): Nonces {
    map n | n in nonces && !Expired(nonces[n], now, timeout) :: nonces[n]
  }

  // -------------------------------------------------------------------------------------
  // Concurrent calls

  /** A call between its inspection and its commit. */
  datatype Pending = Pending(nonce: string, ip: string, nc: string, expected: nat, next: nat)

  /** An accepted request: who, with which nonce and count, and how old the nonce was. */
  datatype Success = Success(nonce: string, ip: string, nc: string, count: nat, age: int)

  datatype System = System(
    nonces: Nonces, pending: map<int, Pending>, issued: set<(string, string)>, log: seq<Success>)

  /** The critical sections, in any order, of any number of calls, challenges and sweeps. */
  datatype Event =
    | Challenge(nonce: string, ip: string, now: int)
    | Inspecting(call: int, nonce: string, ip: string, nc: string, now: int)
    | Evicting(nonce: string, now: int)
    | Abandon(call: int)                             // the digest did not match
    | Committing(call: int, now: int, dropped: int)
    | Sweeping(now: int)

  ghost function Next(s: System, e: Event, timeout: int): System {
    match e
    case Challenge(nonce, ip, now) =>
      s.(nonces := Issue(s.nonces, nonce, ip, now), issued := s.issued + {(nonce, ip)})
    case Inspecting(call, nonce, ip, nc, now) =>
      var r := Inspect(s.nonces, nonce, ip, nc, now, timeout);
      if r.Rejected? then s
      else s.(pending := s.pending[call := Pending(nonce, ip, nc, r.expected, r.next)])
    case Evicting(nonce, now) => s.(nonces := Evict(s.nonces, nonce, now, timeout))
    case Abandon(call) => s.(pending := s.pending - {call})
    case Committing(call, now, dropped) =>
      if call !in s.pending then s
      else
        var p := s.pending[call];
        s.(nonces := Commit(s.nonces, p.nonce, p.expected, p.next, now, dropped, timeout),
           pending := s.pending - {call},
           log := if Commits(s.nonces, p.nonce, p.expected, p.next, now, timeout)
                  then s.log + [Success(p.nonce, p.ip, p.nc, p.next, now - s.nonces[p.nonce].timestamp)]
                  else s.log)
    case Sweeping(now) => s.(nonces := Sweep(s.nonces, now, timeout))
  }

  ghost function Run(es: seq<Event>, timeout: int): System {
    if es == [] then System(map[], map[], {}, []) else Next(Run(es[..|es| - 1], timeout), es[|es| - 1], timeout)
  }

  ghost predicate Increasing(log: seq<Success>) {
    forall i, j | 0 <= i < j < |log| && log[i].nonce == log[j].nonce :: log[i].count < log[j].count
  }

  /** Every logged success is a well-formed, positive count on a nonce issued to that address and not
      expired. */
  ghost predicate GenuineLog(s: System, timeout: int) {
    forall i | 0 <= i < |s.log| ::
      && s.log[i].count >= 1 && NonceCount(s.log[i].nc) == Some(s.log[i].count)
      && (s.log[i].nonce, s.log[i].ip) in s.issued
      && s.log[i].age <= timeout
  }

  ghost predicate Inv(s: System, timeout: int) {
    && Increasing(s.log)
    && GenuineLog(s, timeout)
    && (forall i | 0 <= i < |s.log| && s.log[i].nonce in s.nonces :: s.log[i].count <= s.nonces[s.log[i].nonce].count)
    && (forall c <- s.pending ::
          && s.pending[c].expected < s.pending[c].next
          && NonceCount(s.pending[c].nc) == Some(s.pending[c].next)
          && (s.pending[c].nonce, s.pending[c].ip) in s.issued)
    && (forall n <- s.nonces :: (n, s.nonces[n].clientIP) in s.issued)
  }

  /** A challenge does not reuse a nonce that has already let somebody in. */
  ghost predicate Fresh(s: System, e: Event) {
    e.Challenge? ==> forall i | 0 <= i < |s.log| :: s.log[i].nonce != e.nonce
  }

  lemma CommitKeepsInv(s: System, call: int, now: int, dropped: int, timeout: int)
    requires Inv(s, timeout) && call in s.pending
    ensures Inv(Next(s, Committing(call, now, dropped), timeout), timeout)
  {
    hide NonceCount;
    var p := s.pending[call];
    var s' := Next(s, Committing(call, now, dropped), timeout);
    if Commits(s.nonces, p.nonce, p.expected, p.next, now, timeout) {
      forall i | 0 <= i < |s.log| && s.log[i].nonce == p.nonce ensures s.log[i].count < p.next {
      }
      assert s'.log[..|s.log|] == s.log;
    }
  }

  /** Freshness is exact: a step keeps the invariant if and only if it does not reissue a nonce that
      already has a success. */
  lemma FreshIff(s: System, e: Event, timeout: int)
    requires Inv(s, timeout)
    ensures Inv(Next(s, e, timeout), timeout) <==> Fresh(s, e)
  {
    hide NonceCount;
    match e {
      case Challenge(nonce, _, _) =>
        if !Fresh(s, e) {
          var i :| 0 <= i < |s.log| && s.log[i].nonce == nonce;
          assert s.log[i].count > Next(s, e, timeout).nonces[nonce].count;
        }
      case Committing(call, now, dropped) =>
        if call in s.pending {
          CommitKeepsInv(s, call, now, dropped, timeout);
        }
      case _ =>
    }
  }

  ghost predicate FreshRun(es: seq<Event>, timeout: int) {
    forall i | 0 <= i < |es| :: Fresh(Run(es[..i], timeout), es[i])
  }

  ghost predicate AlwaysInv(es: seq<Event>, timeout: int) {
    forall i | 0 <= i <= |es| :: Inv(Run(es[..i], timeout), timeout)
  }

  lemma FreshExtends(es: seq<Event>, e: Event, timeout: int)
    ensures FreshRun(es + [e], timeout) <==> FreshRun(es, timeout) && Fresh(Run(es, timeout), e)
  {
    hide Run, Fresh;
    var all := es + [e];
    assert all[..|es|] == es && all[|es|] == e;
    if FreshRun(all, timeout) {
      forall i | 0 <= i < |es| ensures Fresh(Run(es[..i], timeout), es[i]) {
        assert all[..i] == es[..i] && all[i] == es[i];
      }
    }
    if FreshRun(es, timeout) && Fresh(Run(es, timeout), e) {
      forall i | 0 <= i < |all| ensures Fresh(Run(all[..i], timeout), all[i]) {
        assert i < |es| ==> all[..i] == es[..i];
      }
    }
  }

  lemma AlwaysExtends(es: seq<Event>, e: Event, timeout: int)
    ensures AlwaysInv(es + [e], timeout) <==> AlwaysInv(es, timeout) && Inv(Run(es + [e], timeout), timeout)
  {
    hide Run, Inv;
    var all := es + [e];
    assert all[..|all|] == all;
    if AlwaysInv(all, timeout) {
      forall i | 0 <= i <= |es| ensures Inv(Run(es[..i], timeout), timeout) {
        assert all[..i] == es[..i];
      }
    }
    if AlwaysInv(es, timeout) && Inv(Run(all, timeout), timeout) {
      forall i | 0 <= i <= |all| ensures Inv(Run(all[..i], timeout), timeout) {
        assert i <= |es| ==> all[..i] == es[..i];
      }
    }
  }

  lemma RunExtends(es: seq<Event>, e: Event, timeout: int)
    ensures Run(es + [e], timeout) == Next(Run(es, timeout), e, timeout)
  {
    hide Next;
    assert (es + [e])[..|es|] == es;
  }

  /** Every state of a run satisfies the invariant exactly when all its challenges are fresh. */
  lemma {:induction false} FreshRunIff(es: seq<Event>, timeout: int)
    ensures FreshRun(es, timeout) <==> AlwaysInv(es, timeout)
  {
    hide Next, Fresh, Inv, FreshRun, AlwaysInv, Run;
    if es == [] {
      NothingKeepsInv(timeout);
    } else {
      var front, e := es[..|es| - 1], es[|es| - 1];
      assert front + [e] == es;
      FreshRunIff(front, timeout);
      RunExtends(front, e, timeout);
      FreshExtends(front, e, timeout);
      AlwaysExtends(front, e, timeout);
      if AlwaysInv(front, timeout) {
        InvNow(front, timeout);
        FreshIff(Run(front, timeout), e, timeout);
      }
    }
  }

  lemma InvNow(es: seq<Event>, timeout: int)
    requires AlwaysInv(es, timeout)
    ensures Inv(Run(es, timeout), timeout)
  {
    hide Run, Inv;
    assert es[..|es|] == es;
  }

  lemma NothingKeepsInv(timeout: int)
    ensures FreshRun([], timeout) && AlwaysInv([], timeout)
  {
  }

  lemma RunKeepsInv(es: seq<Event>, timeout: int)
    requires FreshRun(es, timeout)
    ensures Inv(Run(es, timeout), timeout)
  {
    hide Run, Inv, FreshRun, AlwaysInv;
    FreshRunIff(es, timeout);
    InvNow(es, timeout);
  }

  /** In every interleaving the counts accepted for one nonce strictly increase. */
  lemma CountsIncrease(es: seq<Event>, timeout: int, i: nat, j: nat)
    requires FreshRun(es, timeout)
    requires var log := Run(es, timeout).log;
      i < j < |log| && log[i].nonce == log[j].nonce
    ensures Run(es, timeout).log[i].count < Run(es, timeout).log[j].count
  {
    RunKeepsInv(es, timeout);
  }

  /** So no nonce and nonce count succeed twice, whatever the case of their letters. */
  lemma NoReplay(es: seq<Event>, timeout: int, i: nat, j: nat)
    requires FreshRun(es, timeout)
    requires var log := Run(es, timeout).log;
      i < j < |log| && log[i].nonce == log[j].nonce
    ensures !SameIgnoringCase(Run(es, timeout).log[i].nc, Run(es, timeout).log[j].nc)
  {
    RunKeepsInv(es, timeout);
    var log := Run(es, timeout).log;
    SameCountIff(log[i].nc, log[j].nc);
  }

  /** A reissued nonce does let a request be replayed: same nonce, same count, second success. */
  lemma ReissueReplays(s: System, i: nat, call: int, now: int, timeout: int)
    requires Inv(s, timeout) && i < |s.log| && timeout >= 0
    ensures var first := s.log[i];
      var s1 := Next(s, Challenge(first.nonce, first.ip, now), timeout);
      var s2 := Next(s1, Inspecting(call, first.nonce, first.ip, first.nc, now), timeout);
      var s3 := Next(s2, Committing(call, now, now), timeout);
      |s3.log| == |s.log| + 1 && s3.log[|s.log|].nonce == first.nonce && s3.log[|s.log|].nc == first.nc
  {
    hide NonceCount;
  }

  // -------------------------------------------------------------------------------------
  // How long a nonce can be used

  /** A sweep, or an eviction of the nonce, removes it exactly when it is more than the timeout old. */
  lemma RemovedIff(s: System, e: Event, nonce: string, timeout: int)
    requires nonce in s.nonces && (e.Sweeping? || (e.Evicting? && e.nonce == nonce))
    ensures nonce !in Next(s, e, timeout).nonces <==> e.now > s.nonces[nonce].timestamp + timeout
  {
  }

  /** An event that concerns neither the nonce, unless it only tidies up by `deadline`, nor the call. */
  ghost predicate Harmless(s: System, e: Event, nonce: string, call: int, deadline: int) {
    match e
    case Challenge(n, _, _) => n != nonce
    case Inspecting(k, _, _, _, _) => k != call
    case Evicting(n, now) => n == nonce ==> now <= deadline
    case Abandon(k) => k != call
    case Committing(k, _, _) => k != call && (k in s.pending ==> s.pending[k].nonce != nonce)
    case Sweeping(now) => now <= deadline
  }

  ghost predicate HarmlessRun(
    es: seq<Event>, more: seq<Event>, nonce: string, call: int, deadline: int, timeout: int)
  {
    forall i | 0 <= i < |more| :: Harmless(Run(es + more[..i], timeout), more[i], nonce, call, deadline)
  }

  ghost predicate SameFor(s: System, s': System, nonce: string, call: int) {
    && (nonce in s.nonces ==> nonce in s'.nonces && s'.nonces[nonce] == s.nonces[nonce])
    && (call in s.pending ==> call in s'.pending && s'.pending[call] == s.pending[call])
  }

  lemma HarmlessStep(s: System, e: Event, nonce: string, call: int, timeout: int)
    requires nonce in s.nonces && Harmless(s, e, nonce, call, s.nonces[nonce].timestamp + timeout)
    ensures SameFor(s, Next(s, e, timeout), nonce, call)
  {
    hide NonceCount;
  }

  lemma {:induction false} HarmlessKeeps(
    es: seq<Event>, more: seq<Event>, nonce: string, call: int, deadline: int, timeout: int)
    requires nonce in Run(es, timeout).nonces && deadline == Run(es, timeout).nonces[nonce].timestamp + timeout
    requires HarmlessRun(es, more, nonce, call, deadline, timeout)
    ensures SameFor(Run(es, timeout), Run(es + more, timeout), nonce, call)
  {
    hide Run, Next, Harmless;
    if more == [] {
      assert es + more == es;
    } else {
      var front, e := more[..|more| - 1], more[|more| - 1];
      assert forall i | 0 <= i < |front| :: front[..i] == more[..i] && front[i] == more[i];
      HarmlessKeeps(es, front, nonce, call, deadline, timeout);
      HarmlessStep(Run(es + front, timeout), e, nonce, call, timeout);
      assert es + more == (es + front) + [e];
      RunExtends(es + front, e, timeout);
    }
  }

  lemma InspectionPends(s: System, call: int, nonce: string, ip: string, nc: string, now: int, timeout: int)
    requires nonce in s.nonces && s.nonces[nonce].clientIP == ip && now <= s.nonces[nonce].timestamp + timeout
    requires NonceCount(nc).Some? && NonceCount(nc).value > s.nonces[nonce].count
    ensures var s' := Next(s, Inspecting(call, nonce, ip, nc, now), timeout);
      && s'.nonces == s.nonces && call in s'.pending
      && s'.pending[call] == Pending(nonce, ip, nc, s.nonces[nonce].count, NonceCount(nc).value)
  {
    hide NonceCount;
  }

  lemma CommitLogs(s: System, call: int, now: int, dropped: int, timeout: int)
    requires call in s.pending && s.pending[call].nonce in s.nonces
    requires var p, info := s.pending[call], s.nonces[s.pending[call].nonce];
      info.count == p.expected < p.next && now <= info.timestamp + timeout
    ensures var p := s.pending[call];
      Next(s, Committing(call, now, dropped), timeout).log
      == s.log + [Success(p.nonce, p.ip, p.nc, p.next, now - s.nonces[p.nonce].timestamp)]
  {
  }

  /** In every run, whatever else happens: a challenge issued at `t` can be answered, with any positive
      well-formed count, as long as inspection and commit come by t + timeout and the nonce is neither issued
      again nor used meanwhile. */
  lemma LoginSucceeds(
    es: seq<Event>, nonce: string, ip: string, nc: string, call: int, t: int, inspected: int, committed: int,
    dropped: int, before: seq<Event>, between: seq<Event>, timeout: int)
    requires inspected <= t + timeout && committed <= t + timeout
    requires NonceCount(nc).Some? && NonceCount(nc).value >= 1
    requires HarmlessRun(es + [Challenge(nonce, ip, t)], before, nonce, call, t + timeout, timeout)
    requires HarmlessRun(es + [Challenge(nonce, ip, t)] + before + [Inspecting(call, nonce, ip, nc, inspected)],
                         between, nonce, call, t + timeout, timeout)
    ensures
      var asked := es + [Challenge(nonce, ip, t)] + before + [Inspecting(call, nonce, ip, nc, inspected)] + between;
      Run(asked + [Committing(call, committed, dropped)], timeout).log
      == Run(asked, timeout).log + [Success(nonce, ip, nc, NonceCount(nc).value, committed - t)]
  {
    hide Run, Next, NonceCount, HarmlessRun;
    var challenged := es + [Challenge(nonce, ip, t)];
    Challenged(es, nonce, ip, t, timeout);
    HarmlessKeeps(challenged, before, nonce, call, t + timeout, timeout);
    var waiting := challenged + before;
    RunExtends(waiting, Inspecting(call, nonce, ip, nc, inspected), timeout);
    InspectionPends(Run(waiting, timeout), call, nonce, ip, nc, inspected, timeout);
    var seen := waiting + [Inspecting(call, nonce, ip, nc, inspected)];
    HarmlessKeeps(seen, between, nonce, call, t + timeout, timeout);
    RunExtends(seen + between, Committing(call, committed, dropped), timeout);
    CommitLogs(Run(seen + between, timeout), call, committed, dropped, timeout);
  }

  lemma Challenged(es: seq<Event>, nonce: string, ip: string, t: int, timeout: int)
    ensures var s := Run(es + [Challenge(nonce, ip, t)], timeout);
      nonce in s.nonces && s.nonces[nonce] == NonceInfo(t, 0, ip)
  {
    RunExtends(es, Challenge(nonce, ip, t), timeout);
    hide Run;
  }

  // -------------------------------------------------------------------------------------
  // Credentials

  datatype Creds = Creds(
    username: string, realm: string, nonce: string, uri: string, response: string,
    algorithm: string, opaqueValue: string, qop: string, nc: string, cnonce: string)

  type Pair = (string, string)

  const SCHEME := "Digest "

  /** One piece of the header between commas, as its key and value, if it has any. */
  function PairOf(piece: string): Option<Pair> {
    var pair := TrimSpace(piece);
    var i := IndexOf(pair, '=');
    if i == |pair| then None else Some((TrimSpace(pair[..i]), TrimQuotes(TrimSpace(pair[i + 1..]))))
  }

  function PairsOf(pieces: seq<string>): seq<Pair> {
    if pieces == [] then []
    else
      var last := PairOf(pieces[|pieces| - 1]);
      PairsOf(pieces[..|pieces| - 1]) + (if last.Some? then [last.value] else [])
  }

  function HeaderPairs(header: string): Option<seq<Pair>> {
    if SCHEME <= header then Some(PairsOf(Split(header[|SCHEME|..], ','))) else None
  }

  /** The value of the last pair with this key, empty if there is none. */
  function Field(pairs: seq<Pair>, key: string): string {
    if pairs == [] then ""
    else if pairs[|pairs| - 1].0 == key then pairs[|pairs| - 1].1
    else Field(pairs[..|pairs| - 1], key)
  }

  /** The last pair with the key decides. */
  lemma {:induction false} FieldIsLast(pairs: seq<Pair>, key: string, i: nat)
    requires i <= |pairs| && forall j | i <= j < |pairs| :: pairs[j].0 != key
    ensures i > 0 && pairs[i - 1].0 == key ==> Field(pairs, key) == pairs[i - 1].1
    ensures i == 0 ==> Field(pairs, key) == ""
  {
    if i < |pairs| {
      FieldIsLast(pairs[..|pairs| - 1], key, i);
    }
  }

  function CredsOf(pairs: seq<Pair>): Creds {
    Creds(Field(pairs, "username"), Field(pairs, "realm"), Field(pairs, "nonce"), Field(pairs, "uri"),
          Field(pairs, "response"), Field(pairs, "algorithm"), Field(pairs, "opaque"), Field(pairs, "qop"),
          Field(pairs, "nc"), Field(pairs, "cnonce"))
  }

  function Upper(c: char): char {
    if 'a' <= c <= 'z' then (c as int - 'a' as int + 'A' as int) as char else c
  }

  predicate IsMD5(algorithm: string) {
    |algorithm| == 3 && Upper(algorithm[0]) == 'M' && Upper(algorithm[1]) == 'D' && algorithm[2] == '5'
  }

  /** The algorithm is compared without regard to letter case. */
  lemma MD5InAnyCase(algorithm: string)
    ensures IsMD5(algorithm)
       <==> algorithm == "MD5" || algorithm == "md5" || algorithm == "Md5" || algorithm == "mD5"
  {
    if IsMD5(algorithm) {
      assert algorithm == [algorithm[0], algorithm[1], algorithm[2]];
    }
  }

  function SetField(c: Creds, key: string, value: string): Creds {
    if key == "username" then c.(username := value)
    else if key == "realm" then c.(realm := value)
    else if key == "nonce" then c.(nonce := value)
    else if key == "uri" then c.(uri := value)
    else if key == "response" then c.(response := value)
    else if key == "algorithm" then c.(algorithm := value)
    else if key == "opaque" then c.(opaqueValue := value)
    else if key == "qop" then c.(qop := value)
    else if key == "nc" then c.(nc := value)
    else if key == "cnonce" then c.(cnonce := value)
    else c
  }

  const NO_CREDS := Creds("", "", "", "", "", "", "", "", "", "")

  lemma CredsExtend(pairs: seq<Pair>, p: Pair)
    ensures CredsOf(pairs + [p]) == SetField(CredsOf(pairs), p.0, p.1)
  {
    assert (pairs + [p])[..|pairs|] == pairs;
  }

  /** Complete credentials, meant for this realm and request. */
  ghost predicate Complete(c: Creds, realm: string, uri: string) {
    && c.username != "" && c.realm != "" && c.nonce != "" && c.uri != "" && c.response != ""
    && c.realm == realm && c.uri == uri && IsMD5(c.algorithm) && c.qop == "auth" && c.cnonce != ""
    && NonceCount(c.nc).Some?
  }

  /** The credentials a header carries, if they are complete and meant for this realm and request. */
  ghost function Credentials(header: string, realm: string, uri: string): Option<Creds> {
    if HeaderPairs(header).None? then None
    else
      var c := CredsOf(HeaderPairs(header).value);
      if Complete(c, realm, uri) then Some(c) else None
  }

  // -------------------------------------------------------------------------------------
  // Which values get through a header

  /** No comma, and no quote at either end. */
  predicate Plain(v: string) {
    ',' !in v && (v != "" ==> v[0] != '\"' && v[|v| - 1] != '\"')
  }

  predicate PlainKey(k: string) {
    ',' !in k && '=' !in k && NoSpace(k)
  }

  /** A header that quotes every value. */
  function Quoted(p: Pair): string {
    p.0 + "=" + ("\"" + p.1 + "\"")
  }

  function Joined(pairs: seq<Pair>): string {
    if pairs == [] then ""
    else if |pairs| == 1 then Quoted(pairs[0])
    else Quoted(pairs[0]) + "," + (" " + Joined(pairs[1..]))
  }

  /** Whatever a header says, the values read from it are plain. */
  lemma {:induction false} ReadIsPlain(pieces: seq<string>)
    requires forall piece <- pieces :: ',' !in piece
    ensures forall p <- PairsOf(pieces) :: Plain(p.1)
  {
    if pieces != [] {
      ReadIsPlain(pieces[..|pieces| - 1]);
      var piece := pieces[|pieces| - 1];
      assert piece in pieces;
      if PairOf(piece).Some? {
        var pair := TrimSpace(piece);
        var value := TrimSpace(pair[IndexOf(pair, '=') + 1..]);
        assert forall c <- value :: c in piece;
      }
    }
  }

  lemma TrimSpaceKeeps(s: string)
    requires s != "" && !IsSpace(s[0]) && !IsSpace(s[|s| - 1])
    ensures TrimSpace(s) == s && TrimSpace(" " + s) == s
  {
    assert (" " + s)[0] == ' ' && (" " + s)[1..] == s;
  }

  lemma TrimSpaceOfWord(s: string)
    requires NoSpace(s)
    ensures TrimSpace(s) == s
  {
  }

  lemma TrimQuotesOf(v: string)
    requires Plain(v)
    ensures TrimQuotes("\"" + v + "\"") == v
  {
    var q := "\"" + v + "\"";
    assert q[1..] == v + "\"" && (v + "\"")[..|v|] == v;
    if v == "" {
      assert v + "\"" == "\"" && "\""[1..] == "";
    } else {
      assert TrimQuotes(v + "\"") == TrimQuotes(v);
    }
  }

  /** A quoted pair reads back, with or without a space before it. */
  lemma PairReadsBack(p: Pair)
    requires PlainKey(p.0) && Plain(p.1)
    ensures PairOf(Quoted(p)) == Some(p) && PairOf(" " + Quoted(p)) == Some(p)
  {
    hide TrimSpace, TrimQuotes, IndexOf;
    var s, value := Quoted(p), "\"" + p.1 + "\"";
    assert s == p.0 + ['='] + value;
    assert s[|s| - 1] == '\"' && !IsSpace('\"') && !IsSpace('=');
    assert s[0] == if p.0 == "" then '=' else p.0[0];
    TrimSpaceKeeps(s);
    IndexOfFirst(p.0, '=', value);
    assert s[..|p.0|] == p.0 && s[|p.0| + 1..] == value;
    TrimSpaceOfWord(p.0);
    assert value[0] == '\"' && value[|value| - 1] == '\"';
    TrimSpaceKeeps(value);
    TrimQuotesOf(p.1);
  }

  lemma {:induction false} PairsOfCons(piece: string, rest: seq<string>)
    ensures PairsOf([piece] + rest) == (if PairOf(piece).Some? then [PairOf(piece).value] else []) + PairsOf(rest)
  {
    var all := [piece] + rest;
    hide PairOf;
    if rest == [] {
      assert all[..0] == [];
      assert PairsOf(all) == PairsOf(all) + PairsOf(rest);
    } else {
      assert all[..|all| - 1] == [piece] + rest[..|rest| - 1];
      PairsOfCons(piece, rest[..|rest| - 1]);
    }
  }

  ghost predicate PlainPairs(pairs: seq<Pair>) {
    forall p <- pairs :: PlainKey(p.0) && Plain(p.1)
  }

  lemma QuotedHasNoComma(p: Pair)
    requires PlainKey(p.0) && Plain(p.1)
    ensures ',' !in Quoted(p) && ',' !in " " + Quoted(p)
  {
  }

  lemma {:induction false} JoinedReadsBack(pairs: seq<Pair>, indent: string)
    requires PlainPairs(pairs) && pairs != [] && (indent == "" || indent == " ")
    ensures PairsOf(Split(indent + Joined(pairs), ',')) == pairs
  {
    hide PlainKey, Plain, Split, PairOf, Quoted;
    var p, rest := pairs[0], pairs[1..];
    assert p in pairs;
    PairReadsBack(p);
    QuotedHasNoComma(p);
    var piece := indent + Quoted(p);
    assert "" + Quoted(p) == Quoted(p);
    assert pairs == [p] + rest;
    if rest == [] {
      assert indent + Joined(pairs) == piece;
      SplitFirst(piece, ',', "");
      PairsOfCons(piece, []);
      assert [piece] + [] == [piece];
    } else {
      assert forall q <- rest :: q in pairs;
      assert indent + Joined(pairs) == piece + [','] + (" " + Joined(rest));
      SplitFirst(piece, ',', " " + Joined(rest));
      PairsOfCons(piece, Split(" " + Joined(rest), ','));
      JoinedReadsBack(rest, " ");
    }
  }

  /** A quoted header gives back the pairs it was made from exactly when no value has a comma in it or a
      quote at either end. */
  lemma HeaderRoundTripIff(pairs: seq<Pair>)
    requires forall p <- pairs :: PlainKey(p.0)
    ensures HeaderPairs(SCHEME + Joined(pairs)) == Some(pairs) <==> forall p <- pairs :: Plain(p.1)
  {
    var header := SCHEME + Joined(pairs);
    assert header[|SCHEME|..] == Joined(pairs);
    hide PlainKey, Plain, Quoted, PairOf;
    if forall p <- pairs :: Plain(p.1) {
      if pairs == [] {
        EmptyHeader();
      } else {
        JoinedReadsBack(pairs, "");
        assert "" + Joined(pairs) == Joined(pairs);
      }
    }
    if HeaderPairs(header) == Some(pairs) {
      ReadIsPlain(Split(Joined(pairs), ','));
    }
  }

  lemma NoHeaderNoPairs()
    ensures HeaderPairs("") == None
  {
  }

  lemma EmptyHeader()
    ensures PairsOf(Split("", ',')) == []
  {
    assert Split("", ',') == [""] && [""][..0] == [];
  }

  lemma NoFields()
    ensures CredsOf([]) == NO_CREDS
  {
  }

  lemma AddPair(pairs: seq<Pair>, p: Pair)
    requires PlainPairs(pairs) && PlainKey(p.0) && Plain(p.1)
    ensures PlainPairs(pairs + [p]) && CredsOf(pairs + [p]) == SetField(CredsOf(pairs), p.0, p.1)
  {
    hide CredsOf, SetField, PlainKey, Plain;
    CredsExtend(pairs, p);
  }

  lemma LettersArePlain(s: string)
    requires forall i | 0 <= i < |s| :: 'a' <= s[i] <= 'z' || '0' <= s[i] <= '9' || s[i] == 'M' || s[i] == 'D'
    ensures PlainKey(s) && Plain(s)
  {
  }

  predicate PlainCreds(c: Creds) {
    && Plain(c.username) && Plain(c.realm) && Plain(c.nonce) && Plain(c.uri) && Plain(c.response)
    && Plain(c.algorithm) && Plain(c.opaqueValue) && Plain(c.qop) && Plain(c.nc) && Plain(c.cnonce)
  }

  /** The parameters of a digest response, as a client writes them. */
  function NamePairs(c: Creds): seq<Pair> {
    [("username", c.username), ("realm", c.realm), ("nonce", c.nonce)]
  }

  function DigestPairs(c: Creds): seq<Pair> {
    [("uri", c.uri), ("response", c.response), ("algorithm", c.algorithm), ("opaque", c.opaqueValue)]
  }

  function CountPairs(c: Creds): seq<Pair> {
    [("qop", c.qop), ("nc", c.nc), ("cnonce", c.cnonce)]
  }

  lemma NamesRead(c: Creds)
    requires PlainCreds(c)
    ensures PlainPairs(NamePairs(c))
    ensures CredsOf(NamePairs(c)) == NO_CREDS.(username := c.username, realm := c.realm, nonce := c.nonce)
  {
    hide CredsOf, PlainKey, Plain;
    NoFields();
    LettersArePlain("username");
    LettersArePlain("realm");
    LettersArePlain("nonce");
    var pairs := [("username", c.username)];
    AddPair([], ("username", c.username));
    assert [] + pairs == pairs;
    AddPair(pairs, ("realm", c.realm));
    AddPair(pairs + [("realm", c.realm)], ("nonce", c.nonce));
    assert pairs + [("realm", c.realm)] + [("nonce", c.nonce)] == NamePairs(c);
  }

  lemma DigestRead(pairs: seq<Pair>, c: Creds)
    requires PlainPairs(pairs) && PlainCreds(c)
    ensures PlainPairs(pairs + DigestPairs(c))
    ensures CredsOf(pairs + DigestPairs(c))
         == CredsOf(pairs).(
              uri := c.uri, response := c.response, algorithm := c.algorithm, opaqueValue := c.opaqueValue)
  {
    hide CredsOf, PlainKey, Plain;
    LettersArePlain("uri");
    LettersArePlain("response");
    LettersArePlain("algorithm");
    LettersArePlain("opaque");
    var p1 := pairs + [("uri", c.uri)];
    var p2 := p1 + [("response", c.response)];
    var p3 := p2 + [("algorithm", c.algorithm)];
    AddPair(pairs, ("uri", c.uri));
    AddPair(p1, ("response", c.response));
    AddPair(p2, ("algorithm", c.algorithm));
    AddPair(p3, ("opaque", c.opaqueValue));
    assert p3 + [("opaque", c.opaqueValue)] == pairs + DigestPairs(c);
  }

  lemma CountRead(pairs: seq<Pair>, c: Creds)
    requires PlainPairs(pairs) && PlainCreds(c)
    ensures PlainPairs(pairs + CountPairs(c))
    ensures CredsOf(pairs + CountPairs(c)) == CredsOf(pairs).(qop := c.qop, nc := c.nc, cnonce := c.cnonce)
  {
    hide CredsOf, PlainKey, Plain;
    LettersArePlain("qop");
    LettersArePlain("nc");
    LettersArePlain("cnonce");
    var p1 := pairs + [("qop", c.qop)];
    var p2 := p1 + [("nc", c.nc)];
    AddPair(pairs, ("qop", c.qop));
    AddPair(p1, ("nc", c.nc));
    AddPair(p2, ("cnonce", c.cnonce));
    assert p2 + [("cnonce", c.cnonce)] == pairs + CountPairs(c);
  }

  /** The header of a client that quotes every value of its response is read back as that response, and is
      accepted exactly when the response is complete. */
  lemma ClientHeaderReads(c: Creds, realm: string, uri: string)
    requires PlainCreds(c)
    ensures Credentials(SCHEME + Joined(NamePairs(c) + DigestPairs(c) + CountPairs(c)), realm, uri)
         == if Complete(c, realm, uri) then Some(c) else None
  {
    hide CredsOf, NonceCount, PlainKey, Plain, Joined, PairsOf, Split, IsMD5, NamePairs, DigestPairs, CountPairs;
    NamesRead(c);
    DigestRead(NamePairs(c), c);
    CountRead(NamePairs(c) + DigestPairs(c), c);
    HeaderRoundTripIff(NamePairs(c) + DigestPairs(c) + CountPairs(c));
  }

  lemma OneIsACount()
    ensures NonceCount("00000001") == Some(1)
  {
    var s := "00000001";
    assert forall i | 0 <= i < 7 :: s[i] == '0';
    ZerosAreZero(s[..7]);
  }

  lemma {:induction false} ZerosAreZero(s: string)
    requires forall i | 0 <= i < |s| :: s[i] == '0'
    ensures AllHex(s) && HexValue(s) == 0
  {
    if s != "" {
      ZerosAreZero(s[..|s| - 1]);
    }
  }

  /** A request can be authenticated at all exactly when its URI and the realm are plain and not empty: with a
      comma in the URI every header is turned down. */
  lemma AuthenticableIff(realm: string, uri: string)
    ensures (exists header :: Credentials(header, realm, uri).Some?)
       <==> realm != "" && uri != "" && Plain(realm) && Plain(uri)
  {
    if realm != "" && uri != "" && Plain(realm) && Plain(uri) {
      PlainHeaderWorks(realm, uri);
    }
    if header :| Credentials(header, realm, uri).Some? {
      FieldsArePlain(header);
    }
  }

  lemma FieldsArePlain(header: string)
    requires HeaderPairs(header).Some?
    ensures Plain(CredsOf(HeaderPairs(header).value).realm) && Plain(CredsOf(HeaderPairs(header).value).uri)
  {
    hide Plain;
    ReadIsPlain(Split(header[|SCHEME|..], ','));
    FieldIsPlain(HeaderPairs(header).value, "realm");
    FieldIsPlain(HeaderPairs(header).value, "uri");
  }

  lemma {:induction false} FieldIsPlain(pairs: seq<Pair>, key: string)
    requires forall p <- pairs :: Plain(p.1)
    ensures Plain(Field(pairs, key))
  {
    if pairs != [] {
      assert pairs[|pairs| - 1] in pairs;
      FieldIsPlain(pairs[..|pairs| - 1], key);
    }
  }

  lemma PlainHeaderWorks(realm: string, uri: string)
    requires realm != "" && uri != "" && Plain(realm) && Plain(uri)
    ensures exists header :: Credentials(header, realm, uri).Some?
  {
    hide CredsOf, NonceCount, PlainKey, Plain, Joined, PairsOf, Split;
    var c := Creds("u", realm, "n", uri, "r", "MD5", "", "auth", "00000001", "c");
    LettersArePlain("u");
    LettersArePlain("n");
    LettersArePlain("r");
    LettersArePlain("MD5");
    LettersArePlain("");
    LettersArePlain("auth");
    LettersArePlain("00000001");
    LettersArePlain("c");
    ClientHeaderReads(c, realm, uri);
    OneIsACount();
  }

  // -------------------------------------------------------------------------------------
  // The object

  datatype User = User(password: string, enabled: bool)

  /** The clock readings of one call, in the order they are taken. */
  datatype Clock = Clock(inspected: int, evicted: int, committed: int, dropped: int, issued: int) {
    ghost predicate Forward() {
      inspected <= evicted <= committed <= dropped <= issued
    }
  }

  datatype AuthResult = AuthResult(success: bool, username: string, challenged: bool)

  /** A failed call only tidies up: apart from the nonce of its challenge, if it issues one, which is left
      unused, it keeps every nonce and its count, drops nothing but expired nonces, and adds nothing. */
  ghost predicate OnlyTidied(
    before: Nonces, after: Nonces, challenge: Option<string>, ip: string, now: int, timeout: int)
  {
    && (forall n <- before | challenge != Some(n) ::
          (n in after && after[n] == before[n]) || (n !in after && now - before[n].timestamp > timeout))
    && (forall n <- after | challenge != Some(n) :: n in before)
    && (challenge.Some? ==> challenge.value in after && after[challenge.value] == NonceInfo(now, 0, ip))
  }

  /** Evicting a nonce at some earlier time and then issuing the challenge's is only tidying. */
  lemma TidiesUp(
    before: Nonces, nonce: string, since: int, challenge: Option<string>, ip: string, now: int, timeout: int)
    requires since <= now
    ensures var kept := Evict(before, nonce, since, timeout);
      OnlyTidied(before, if challenge.Some? then Issue(kept, challenge.value, ip, now) else kept,
                 challenge, ip, now, timeout)
    ensures OnlyTidied(before, if challenge.Some? then Issue(before, challenge.value, ip, now) else before,
                       challenge, ip, now, timeout)
  {
  }

  class SIPAuthenticator {
    const realm: string
    const nonceTimeout: int
    const digest: (string, string, string, Creds) -> string   // password, method, uri, credentials
    var users: map<string, User>
    var nonces: Nonces

    constructor (realm: string, nonceTimeout: int, digest: (string, string, string, Creds) -> string)
      ensures this.realm == realm && this.nonceTimeout == nonceTimeout && this.digest == digest
      ensures users == map[] && nonces == map[]
    {
      this.realm, this.nonceTimeout, this.digest := realm, nonceTimeout, digest;
      users, nonces := map[], map[];
    }

    /** `random` is the hex digest of the random bytes, or nothing when the reader fails. */
    method GenerateNonce(clientIP: string, random: Option<string>, now: int) returns (issued: bool)
      modifies this`nonces
      ensures issued == random.Some?
      ensures nonces == if random.Some? then Issue(old(nonces), random.value, clientIP, now) else old(nonces)
      ensures issued ==> nonces == old(nonces)[random.value := NonceInfo(now, 0, clientIP)]
    {
      if random.None? {
        return false;
      }
      nonces := nonces[random.value := NonceInfo(now, 0, clientIP)];
      return true;
    }

    method InspectNonce(nonce: string, clientIP: string, nc: string, now: int, evicted: int)
      returns (r: Inspection)
      modifies this`nonces
      ensures r == Inspect(old(nonces), nonce, clientIP, nc, now, nonceTimeout)
      ensures r.Accepted? <==> && NonceCount(nc).Some? && nonce in old(nonces)
                               && now - old(nonces)[nonce].timestamp <= nonceTimeout
                               && old(nonces)[nonce].clientIP == clientIP
                               && NonceCount(nc).value > old(nonces)[nonce].count
      ensures r.Accepted? ==> r.expected == old(nonces)[nonce].count && r.next == NonceCount(nc).value
      ensures nonces == old(nonces) || nonces == Evict(old(nonces), nonce, evicted, nonceTimeout)
      ensures nonces == old(nonces)
        || (&& nonce in old(nonces) && evicted - old(nonces)[nonce].timestamp > nonceTimeout
            && nonces == old(nonces) - {nonce})
      ensures r.Accepted? ==> nonces == old(nonces)
    {
      var ncVal := ParseNonceCount(nc);
      if ncVal.None? {
        return Rejected;
      }
      if nonce !in nonces {
        return Rejected;
      }
      var info := nonces[nonce];
      if now - info.timestamp > nonceTimeout {
        if nonce in nonces && evicted - nonces[nonce].timestamp > nonceTimeout {
          nonces := nonces - {nonce};
        }
        return Rejected;
      }
      if info.clientIP != clientIP {
        return Rejected;
      }
      if ncVal.value <= info.count {
        return Rejected;
      }
      return Accepted(info.count, ncVal.value);
    }

    method CommitNonceCount(nonce: string, expected: nat, next: nat, now: int, dropped: int) returns (ok: bool)
      modifies this`nonces
      ensures ok == Commits(old(nonces), nonce, expected, next, now, nonceTimeout)
      ensures nonces == Commit(old(nonces), nonce, expected, next, now, dropped, nonceTimeout)
      ensures ok <==> && next > expected && nonce in old(nonces) && old(nonces)[nonce].count == expected
                      && now - old(nonces)[nonce].timestamp <= nonceTimeout
      ensures ok ==> nonces == old(nonces)[nonce := old(nonces)[nonce].(count := next)]
      ensures !ok ==>
        || nonces == old(nonces)
        || (&& nonce in old(nonces) && dropped - old(nonces)[nonce].timestamp > nonceTimeout
            && nonces == old(nonces) - {nonce})
    {
      if next <= expected {
        return false;
      }
      if nonce !in nonces || nonces[nonce].count != expected || now - nonces[nonce].timestamp > nonceTimeout {
        if nonce in nonces && dropped - nonces[nonce].timestamp > nonceTimeout {
          nonces := nonces - {nonce};
        }
        return false;
      }
      nonces := nonces[nonce := nonces[nonce].(count := next)];
      return true;
    }

    /** One pass of the cleanup goroutine. */
    method CleanupNonces(now: int)
      modifies this`nonces
      ensures nonces == Sweep(old(nonces), now, nonceTimeout)
      ensures forall n <- old(nonces) :: n in nonces <==> now - old(nonces)[n].timestamp <= nonceTimeout
      ensures forall n <- nonces :: n in old(nonces) && nonces[n] == old(nonces)[n]
    {
      var todo := nonces.Keys;
      while todo != {}
        invariant todo <= nonces.Keys <= old(nonces).Keys
        invariant forall n <- nonces :: nonces[n] == old(nonces)[n]
        invariant forall n <- old(nonces) ::
          n !in todo ==> (n in nonces <==> !Expired(old(nonces)[n], now, nonceTimeout))
        invariant forall n <- old(nonces) :: n in todo ==> n in nonces
        decreases todo
      {
        var nonce :| nonce in todo;
        todo := todo - {nonce};
        if now - nonces[nonce].timestamp > nonceTimeout {
          nonces := nonces - {nonce};
        }
      }
      assert nonces == Sweep(old(nonces), now, nonceTimeout);
    }

    method ParseDigestAuth(header: string, requestURI: string) returns (r: Option<Creds>)
      ensures r == Credentials(header, realm, requestURI)
      ensures r.Some? <==>
        && HeaderPairs(header).Some?
        && var c := CredsOf(HeaderPairs(header).value);
           && c.username != "" && c.nonce != "" && c.response != "" && c.cnonce != ""
           && c.realm == realm != "" && c.uri == requestURI != ""
           && IsMD5(c.algorithm) && c.qop == "auth" && NonceCount(c.nc).Some?
      ensures r.Some? ==> r.value == CredsOf(HeaderPairs(header).value)
    {
      hide PairOf, CredsOf, NonceCount;
      if !(SCHEME <= header) {
        return None;
      }
      var pieces := Split(header[|SCHEME|..], ',');
      var creds := NO_CREDS;
      NoFields();
      for i := 0 to |pieces|
        invariant creds == CredsOf(PairsOf(pieces[..i]))
      {
        assert pieces[..i + 1][..i] == pieces[..i];
        var pair := PairOf(pieces[i]);
        if pair.None? {
          assert PairsOf(pieces[..i + 1]) == PairsOf(pieces[..i]);
          continue;
        }
        CredsExtend(PairsOf(pieces[..i]), pair.value);
        creds := SetField(creds, pair.value.0, pair.value.1);
      }
      assert pieces[..|pieces|] == pieces;
      if creds.username == "" || creds.realm == "" || creds.nonce == "" || creds.uri == "" || creds.response == "" {
        return None;
      }
      if creds.realm != realm || creds.uri != requestURI || !IsMD5(creds.algorithm) {
        return None;
      }
      if creds.qop != "auth" || creds.cnonce == "" {
        return None;
      }
      var count := ParseNonceCount(creds.nc);
      if count.None? {
        return None;
      }
      return Some(creds);
    }

    /** When a call with no other call interleaved has to succeed. */
    ghost predicate Acceptable(header: string, httpMethod: string, uri: string, clientIP: string, clock: Clock)
      reads this
    {
      && Credentials(header, realm, uri).Some?
      && var c := Credentials(header, realm, uri).value;
      && c.username in users && users[c.username].enabled
      && c.nonce in nonces
      && nonces[c.nonce].clientIP == clientIP
      && NonceCount(c.nc).value > nonces[c.nonce].count
      && clock.committed - nonces[c.nonce].timestamp <= nonceTimeout
      && c.response == digest(users[c.username].password, httpMethod, uri, c)
    }

    /** Succeeds exactly when it has to.  Success moves one count, that of the nonce presented, to the
        count presented, and touches nothing else; failure only tidies up. */
    method Authenticate(header: string, httpMethod: string, uri: string, clientIP: string, clock: Clock,
                        random: Option<string>)
      returns (r: AuthResult)
      requires clock.Forward()
      modifies this`nonces
      ensures r.success <==> old(Acceptable(header, httpMethod, uri, clientIP, clock))
      ensures r.success ==>
        var c := Credentials(header, realm, uri).value;
        && r.username == c.username
        && nonces == old(nonces)[c.nonce := old(nonces)[c.nonce].(count := NonceCount(c.nc).value)]
      ensures !r.success ==> r.challenged == random.Some?
      ensures !r.success ==> OnlyTidied(old(nonces), nonces, random, clientIP, clock.issued, nonceTimeout)
    {
      hide NonceCount, CredsOf, HeaderPairs, IsMD5, OnlyTidied, Evict, Issue;
      TidiesUp(nonces, "", clock.issued, random, clientIP, clock.issued, nonceTimeout);
      NoHeaderNoPairs();
      if header == "" {
        var challenged := GenerateNonce(clientIP, random, clock.issued);
        return AuthResult(false, "", challenged);
      }
      var creds := ParseDigestAuth(header, uri);
      if creds.None? {
        var challenged := GenerateNonce(clientIP, random, clock.issued);
        return AuthResult(false, "", challenged);
      }
      var c := creds.value;
      if c.username !in users || !users[c.username].enabled {
        var challenged := GenerateNonce(clientIP, random, clock.issued);
        return AuthResult(false, c.username, challenged);
      }
      TidiesUp(nonces, c.nonce, clock.evicted, random, clientIP, clock.issued, nonceTimeout);
      TidiesUp(nonces, c.nonce, clock.dropped, random, clientIP, clock.issued, nonceTimeout);
      var inspection := InspectNonce(c.nonce, clientIP, c.nc, clock.inspected, clock.evicted);
      if inspection.Rejected? {
        var challenged := GenerateNonce(clientIP, random, clock.issued);
        return AuthResult(false, c.username, challenged);
      }
      if c.response != digest(users[c.username].password, httpMethod, uri, c) {
        var challenged := GenerateNonce(clientIP, random, clock.issued);
        return AuthResult(false, c.username, challenged);
      }
      var committed := CommitNonceCount(c.nonce, inspection.expected, inspection.next, clock.committed, clock.dropped);
      if !committed {
        var challenged := GenerateNonce(clientIP, random, clock.issued);
        return AuthResult(false, c.username, challenged);
      }
      return AuthResult(true, c.username, false);
    }
  }
}
