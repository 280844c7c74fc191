/** The history of password failures of a site, and the part of it a record still holds. */
module MaintenanceThrottle {
  import opened MaintenanceState

  ghost predicate Ordered(h: seq<FailedRequest>) {
    forall i, j :: 0 <= i < j < |h| ==> h[i].at <= h[j].at
  }

  ghost predicate FivePerWindow(h: seq<FailedRequest>) {
    forall j :: 5 <= j < |h| ==> h[j].at - h[j - 5].at >= 600
  }

  ghost predicate NoEarlyReplay(h: seq<FailedRequest>) {
    forall i, j :: 0 <= i < j < |h| && h[i].id == h[j].id ==> h[j].at - h[i].at >= 600
  }

  /** A lawful history of password failures: times never decrease, a failure and the
      fifth one before it are at least 600 seconds apart, and a request id comes back
      only after 600 seconds. */
  ghost predicate History(h: seq<FailedRequest>) {
    Ordered(h) && FivePerWindow(h) && NoEarlyReplay(h)
  }

  ghost predicate Fresh(h: seq<FailedRequest>, id: string, now: int) {
    forall i :: 0 <= i < |h| && h[i].id == id ==> h[i].at <= now - 600
  }

  ghost predicate SameTimes(ts: seq<int>, rs: seq<FailedRequest>) {
    |ts| == |rs| && forall i :: 0 <= i < |ts| ==> ts[i] == rs[i].at
  }

  /** The record holds the part rs of the history; the part it dropped is at least 600 seconds old. */
  ghost predicate Retains(h: seq<FailedRequest>, dropped: seq<FailedRequest>, rs: seq<FailedRequest>, clock: int) {
    h == dropped + rs && forall i :: 0 <= i < |dropped| ==> dropped[i].at <= clock - 600
  }

  ghost predicate HoldsRequests(h: seq<FailedRequest>, requests: seq<FailedRequest>, clock: int) {
    exists dropped :: Retains(h, dropped, requests, clock)
  }

  ghost predicate HoldsTimes(h: seq<FailedRequest>, ts: seq<int>, clock: int) {
    exists dropped, rs :: Retains(h, dropped, rs, clock) && SameTimes(ts, rs)
  }

  /** Five failures within 600 seconds froze the site until 600 seconds after the last one. */
  ghost predicate FreezeDue(h: seq<FailedRequest>, frozenUntil: int) {
    var n := |h|;
    n >= 5 && h[n - 5].at > h[n - 1].at - 600 ==> frozenUntil >= h[n - 1].at + 600
  }

  /** A freeze that is not over by the last failure began with it. */
  ghost predicate FreezeFromLast(h: seq<FailedRequest>, frozenUntil: int) {
    if h == [] then frozenUntil == 0 else frozenUntil <= h[|h| - 1].at || frozenUntil == h[|h| - 1].at + 600
  }

  ghost predicate Kept(failures: seq<int>, requests: seq<FailedRequest>, frozenUntil: int, h: seq<FailedRequest>,
      clock: int)
  {
    && History(h)
    && (|h| > 0 ==> h[|h| - 1].at <= clock)
    && HoldsRequests(h, requests, clock)
    && HoldsTimes(h, failures, clock)
    && FreezeDue(h, frozenUntil)
    && FreezeFromLast(h, frozenUntil)
  }

  lemma RetainsLater(h: seq<FailedRequest>, dropped: seq<FailedRequest>, rs: seq<FailedRequest>, clock: int, later: int)
    requires Retains(h, dropped, rs, clock) && clock <= later
    ensures Retains(h, dropped, rs, later)
  {
  }

  lemma KeptLater(failures: seq<int>, requests: seq<FailedRequest>, frozenUntil: int, h: seq<FailedRequest>, clock: int,
      later: int)
    requires Kept(failures, requests, frozenUntil, h, clock) && clock <= later
    ensures Kept(failures, requests, frozenUntil, h, later)
  {
    var d1 :| Retains(h, d1, requests, clock);
    RetainsLater(h, d1, requests, clock, later);
    var d2, rs :| Retains(h, d2, rs, clock) && SameTimes(failures, rs);
    RetainsLater(h, d2, rs, clock, later);
  }

  /** Trimming an ordered list cuts a prefix off. */
  lemma {:induction false} RecentCut(rs: seq<FailedRequest>, n: nat, now: int) returns (k: nat)
    requires Ordered(rs) && n <= |rs|
    ensures k <= n && Recent(rs, n, now) == rs[k..n]
    ensures forall i :: 0 <= i < n ==> (rs[i].at <= now - 600 <==> i < k)
  {
    k := 0;
    if n > 0 {
      k := RecentCut(rs, n - 1, now);
      if rs[n - 1].at <= now - 600 {
        k := n;
      }
    }
  }

  lemma {:induction false} RecentTimes(ts: seq<int>, rs: seq<FailedRequest>, n: nat, now: int)
    requires SameTimes(ts, rs) && n <= |rs|
    ensures SameTimes(RecentStamps(ts, n, now), Recent(rs, n, now))
  {
    if n > 0 {
      RecentTimes(ts, rs, n - 1, now);
    }
  }

  /** What trimming does to the part of the history a record holds. */
  lemma TrimRetains(h: seq<FailedRequest>, dropped: seq<FailedRequest>, rs: seq<FailedRequest>, now: int)
    returns (dropped': seq<FailedRequest>, rs': seq<FailedRequest>)
    requires Ordered(h) && Retains(h, dropped, rs, now)
    ensures Retains(h, dropped', rs', now) && rs' == Recent(rs, |rs|, now)
    ensures rs' != [] ==> rs'[0].at > now - 600
  {
    assert forall i :: 0 <= i < |rs| ==> rs[i] == h[|dropped| + i];
    var k := RecentCut(rs, |rs|, now);
    dropped', rs' := dropped + rs[..k], rs[k..|rs|];
    assert h == dropped' + rs';
  }

  lemma TrimKept(failures: seq<int>, requests: seq<FailedRequest>, frozenUntil: int, h: seq<FailedRequest>, now: int)
    requires Kept(failures, requests, frozenUntil, h, now)
    ensures Kept(failures, Recent(requests, |requests|, now), frozenUntil, h, now)
  {
    var dropped :| Retains(h, dropped, requests, now);
    var dropped', rs' := TrimRetains(h, dropped, requests, now);
  }

  lemma FreshWhenNotReplayed(h: seq<FailedRequest>, requests: seq<FailedRequest>, id: string, now: int)
    requires HoldsRequests(h, requests, now) && !Replayed(requests, id, now)
    ensures Fresh(h, id, now)
  {
    var dropped :| Retains(h, dropped, requests, now);
    forall i | 0 <= i < |h| && h[i].id == id ensures h[i].at <= now - 600 {
      if i < |dropped| {
        assert dropped[i] == h[i];
      } else {
        assert requests[i - |dropped|] == h[i];
      }
    }
  }

  lemma HistoryExtends(h: seq<FailedRequest>, r: FailedRequest)
    requires History(h) && Fresh(h, r.id, r.at) && (|h| > 0 ==> h[|h| - 1].at <= r.at)
    requires |h| >= 5 ==> h[|h| - 5].at <= r.at - 600
    ensures History(h + [r])
  {
    var h', n := h + [r], |h|;
    forall i, j | 0 <= i < j < |h'| ensures h'[i].at <= h'[j].at {
      if j == n { assert h[i].at <= h[n - 1].at; }
    }
    assert forall j :: 0 <= j < n ==> h'[j] == h[j];
  }

  lemma HoldsOneMore(h: seq<FailedRequest>, requests: seq<FailedRequest>, r: FailedRequest)
    requires HoldsRequests(h, requests, r.at)
    ensures HoldsRequests(h + [r], requests + [r], r.at)
  {
    var d :| Retains(h, d, requests, r.at);
    assert d + (requests + [r]) == h + [r];
    assert Retains(h + [r], d, requests + [r], r.at);
  }

  /** The new list of times is long exactly when the failure is the fifth within 600 seconds. */
  lemma HoldsOneMoreTime(h: seq<FailedRequest>, failures: seq<int>, r: FailedRequest)
    requires Ordered(h) && HoldsTimes(h, failures, r.at)
    ensures HoldsTimes(h + [r], RecentStamps(failures, |failures|, r.at) + [r.at], r.at)
    ensures |h| >= 4 && h[|h| - 4].at > r.at - 600 ==> |RecentStamps(failures, |failures|, r.at)| >= 4
  {
    var d, rs :| Retains(h, d, rs, r.at) && SameTimes(failures, rs);
    var d', rs' := TrimRetains(h, d, rs, r.at);
    RecentTimes(failures, rs, |rs|, r.at);
    var ts := RecentStamps(failures, |failures|, r.at);
    assert d' + (rs' + [r]) == h + [r];
    assert Retains(h + [r], d', rs' + [r], r.at) && SameTimes(ts + [r.at], rs' + [r]);
    assert forall i :: 0 <= i < |d'| ==> d'[i] == h[i];
  }

  /** Recording one more failure keeps the throttle: five recent failures would have frozen the site. */
  lemma FailureKept(failures: seq<int>, requests: seq<FailedRequest>, frozenUntil: int, h: seq<FailedRequest>,
      r: FailedRequest,
                    stamps: seq<int>, frozen: int)
    requires Kept(failures, requests, frozenUntil, h, r.at) && frozenUntil <= r.at && Fresh(h, r.id, r.at)
    requires stamps == RecentStamps(failures, |failures|, r.at) + [r.at]
    requires frozen == if |stamps| >= 5 then r.at + 600 else frozenUntil
    ensures Kept(stamps, requests + [r], frozen, h + [r], r.at)
  {
    assert |h| >= 5 ==> h[|h| - 5].at <= r.at - 600;
    hide Ordered, FivePerWindow, NoEarlyReplay, HoldsRequests, HoldsTimes;
    HistoryExtends(h, r);
    HoldsOneMore(h, requests, r);
    HoldsOneMoreTime(h, failures, r);
  }

  /** Six failures never fall in one half-open interval of 600 seconds. */
  lemma AtMostFive(h: seq<FailedRequest>, i: nat, j: nat)
    requires History(h) && i + 5 <= j < |h|
    ensures h[j].at - h[i].at >= 600
  {
    assert h[i].at <= h[j - 5].at;
  }

  /** Once a freeze that was in force at `clock` is over, nothing recent is left to count. */
  lemma FreezeClears(failures: seq<int>, requests: seq<FailedRequest>, frozenUntil: int, h: seq<FailedRequest>,
      clock: int, now: int)
    requires Kept(failures, requests, frozenUntil, h, clock) && clock < frozenUntil <= now
    ensures RecentStamps(failures, |failures|, now) == []
  {
    KeptLater(failures, requests, frozenUntil, h, clock, now);
    var d, rs :| Retains(h, d, rs, now) && SameTimes(failures, rs);
    var d', rs' := TrimRetains(h, d, rs, now);
    RecentTimes(failures, rs, |rs|, now);
    assert rs' == h[|d'|..];
  }
}
