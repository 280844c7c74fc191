/**
 Bringing three layers of bans into line: what Fail2ban says is live, the rows of the
 database, and the set of addresses that Nginx refuses.  Database operations succeed
 here; reading the status of a jail may fail.
 */
module BanSync {
  import opened Common

  /** Where a ban comes from: five Fail2ban jails, and the panel itself. */
  datatype Source = Web | NotFound | Login | Sshd | Sqli | Panel | PanelScan | Manual

  predicate IsJail(j: Source) { j in {Web, NotFound, Login, Sshd, Sqli} }

  /** `isWebBanSource`. */
  predicate IsWebSource(j: Source) { j in {Web, NotFound, Login, Sqli, Manual} }

  datatype Row = Row(ip: string, source: Source, level: nat, banned: int, expires: Option<int>, manual: bool,
      active: bool)

  datatype Ticket = Ticket(banned: int, expires: int, duration: nat)

  type Pair = (Source, string)

  /** What could be read of Fail2ban; `addresses`: which of the names it lists are IP addresses. */
  datatype Snapshot = Snapshot(live: set<Pair>, tickets: map<Pair, Ticket>, readable: set<Source>,
      addresses: set<string>)

  const WEEK: nat := 604800

  ghost predicate Proper(s: Snapshot) {
    && (forall j :: j in s.readable ==> IsJail(j))
    && (forall p :: p in s.live ==> p.0 in s.readable)
    && s.tickets.Keys <= s.live && forall p :: p in s.tickets ==> 1 <= s.tickets[p].duration <= WEEK
  }

  function PairOf(r: Row): Pair { (r.source, r.ip) }

  /** The row has no end, or one that is still to come. */
  ghost predicate InForce(r: Row, now: int) { r.expires.Some? ==> now < r.expires.value }

  /** `fail2banBanLevel`. */
  function BanLevel(duration: nat): nat { if duration <= 600 then 2 else if duration <= 86400 then 3 else 4 }

  // ----- what changes to the rows -----

  /** From one list of rows to the next: only rows of `touched` change, none is opened again,
      renamed, made manual or raised to level five, and the rows added are of `touched`. */
  ghost predicate Only(before: seq<Row>, after: seq<Row>, touched: set<Pair>) {
    && |before| <= |after|
    && (forall i :: 0 <= i < |before| ==> PairOf(after[i]) == PairOf(before[i]))
    && (forall i :: 0 <= i < |before| && after[i].active ==> before[i].active)
    && (forall i :: 0 <= i < |before| && PairOf(before[i]) !in touched ==> after[i] == before[i])
    && (forall i :: 0 <= i < |before| ==> after[i].manual == before[i].manual)
    && (forall i :: 0 <= i < |before| && after[i].level >= 5 ==> before[i].level >= 5)
    && (forall i :: |before| <= i < |after| ==> PairOf(after[i]) in touched && !after[i].manual && after[i].level < 5)
  }

  lemma OnlyTransitive(a: seq<Row>, b: seq<Row>, c: seq<Row>, s: set<Pair>, t: set<Pair>)
    requires Only(a, b, s) && Only(b, c, t)
    ensures Only(a, c, s + t)
  {
  }

  /** At most one open row for p. */
  ghost predicate Single(rows: seq<Row>, p: Pair) {
    forall i, j :: 0 <= i < j < |rows| ==>
      !(PairOf(rows[i]) == p && rows[i].active && PairOf(rows[j]) == p && rows[j].active)
  }

  ghost predicate HasOpen(rows: seq<Row>, p: Pair) {
    exists i :: 0 <= i < |rows| && rows[i].active && PairOf(rows[i]) == p
  }

  ghost predicate Shielded(rows: seq<Row>, ip: string, now: int) {
    exists i ::
      && 0 <= i < |rows| && rows[i].ip == ip && (rows[i].manual || rows[i].level >= 5) && rows[i].active
      && InForce(rows[i], now)
  }

  /** An open row that may shield the address when its turn comes: it has not expired, or it
      belongs to a live ban, whose receipt may be renewed before. */
  ghost predicate MayShield(rows: seq<Row>, ip: string, s: Snapshot, now: int) {
    exists i ::
      && 0 <= i < |rows| && rows[i].ip == ip && (rows[i].manual || rows[i].level >= 5) && rows[i].active
      && (InForce(rows[i], now) || PairOf(rows[i]) in s.live)
  }

  /** The address is shielded by a row that belongs to no live ban. */
  ghost predicate ShieldedApart(rows: seq<Row>, ip: string, s: Snapshot, now: int) {
    exists i ::
      && 0 <= i < |rows| && rows[i].ip == ip && (rows[i].manual || rows[i].level >= 5) && rows[i].active
      && InForce(rows[i], now)
                && PairOf(rows[i]) !in s.live
  }

  /** Row i is the last one of p that is open, automatic and not expired. */
  ghost predicate Current(rows: seq<Row>, p: Pair, now: int, i: nat) {
    && i < |rows| && IsCurrent(rows[i], p, now)
    && forall j :: i < j < |rows| ==> !IsCurrent(rows[j], p, now)
  }

  ghost predicate IsCurrent(r: Row, p: Pair, now: int) { PairOf(r) == p && !r.manual && r.active && InForce(r, now) }

  ghost predicate IsReceipt(r: Row, p: Pair) { PairOf(r) == p && !r.manual }

  /** Row i is the last receipt of p. */
  ghost predicate LastReceipt(rows: seq<Row>, p: Pair, i: nat)
    requires i < |rows|
  {
    IsReceipt(rows[i], p) && forall j :: i < j < |rows| ==> !IsReceipt(rows[j], p)
  }

  /** The level of a ban of that length. */
  ghost predicate HasLevel(r: Row, banTime: int) {
    r.level == if banTime <= 600 then 2 else if banTime <= 86400 then 3 else 4
  }

  /** Row k starts again. */
  ghost predicate Renewed(before: seq<Row>, after: seq<Row>, k: nat, banTime: int, now: int)
    requires k < |before|
  {
    && k < |after| && after == before[k := after[k]] && HasLevel(after[k], banTime)
    && after[k] == before[k].(level := after[k].level, banned := now, expires := Some(now + banTime))
  }

  /** A new receipt for p. */
  ghost predicate Begun(before: seq<Row>, after: seq<Row>, p: Pair, banTime: int, now: int) {
    && |after| == |before| + 1 && after[..|before|] == before && HasLevel(after[|before|], banTime)
    && after[|before|] == Row(p.1, p.0, after[|before|].level, now, Some(now + banTime), false, true)
  }

  /** The open row of a ban of a readable jail that is not live. */
  predicate Ended(r: Row, s: Snapshot) {
    r.active && IsJail(r.source) && r.source in s.readable && PairOf(r) !in s.live
  }

  // ----- whether a live ban has its receipt -----

  /** A live ban that had an open row has one; one that had none has one now, if its name is
      an address that nothing shields; and none, if something else shields it. */
  ghost predicate Served(start: seq<Row>, rows: seq<Row>, s: Snapshot, now: int, p: Pair) {
    if HasOpen(start, p) then HasOpen(rows, p)
    else
      && (p.1 in s.addresses && !MayShield(start, p.1, s, now) ==> HasOpen(rows, p))
      && (ShieldedApart(start, p.1, s, now) || p.1 !in s.addresses ==> !HasOpen(rows, p))
  }

  lemma OpenElsewhere(before: seq<Row>, after: seq<Row>, touched: set<Pair>, p: Pair)
    requires Only(before, after, touched) && p !in touched
    ensures HasOpen(before, p) <==> HasOpen(after, p)
  {
    if HasOpen(before, p) {
      var i :| 0 <= i < |before| && before[i].active && PairOf(before[i]) == p;
      assert after[i] == before[i];
    }
  }

  /** What shields an address later shielded it at the start, and the other way round for a row that is left alone. */
  lemma ShieldsStay(start: seq<Row>, rows: seq<Row>, s: Snapshot, ip: string, now: int)
    requires Only(start, rows, s.live)
    ensures Shielded(rows, ip, now) ==> MayShield(start, ip, s, now)
    ensures ShieldedApart(start, ip, s, now) ==> Shielded(rows, ip, now)
  {
    if ShieldedApart(start, ip, s, now) {
      var i :|
        && 0 <= i < |start| && start[i].ip == ip && (start[i].manual || start[i].level >= 5) && start[i].active
        && InForce(start[i], now) && PairOf(start[i]) !in s.live;
      assert rows[i] == start[i];
    }
    if Shielded(rows, ip, now) {
      var i :|
        && 0 <= i < |rows| && rows[i].ip == ip && (rows[i].manual || rows[i].level >= 5) && rows[i].active
        && InForce(rows[i], now);
      assert PairOf(start[i]) == PairOf(rows[i]) && (PairOf(start[i]) !in s.live ==> start[i] == rows[i]);
    }
  }

  // ----- the times and the level of a receipt -----

  /** Row k is the newest open row of p. */
  ghost predicate NewestOpen(rows: seq<Row>, p: Pair, k: nat) {
    && k < |rows| && rows[k].active && PairOf(rows[k]) == p
    && forall i :: 0 <= i < |rows| && rows[i].active && PairOf(rows[i]) == p ==>
      rows[i].banned < rows[k].banned || (rows[i].banned == rows[k].banned && i <= k)
  }

  /** The row has the times of the ticket and the level of its duration; an end that has passed is no end. */
  ghost predicate Says(r: Row, t: Ticket, now: int) {
    && r.banned == t.banned && r.expires == (if t.expires > now then Some(t.expires) else None)
    && r.level == (if t.duration <= 600 then 2 else if t.duration <= 86400 then 3 else 4)
  }

  /** A row for which no ticket is known: an expiry that has passed is cleared, nothing else changes. */
  ghost predicate Cleared(before: Row, after: Row, now: int) {
    after == if before.expires.Some? && before.expires.value <= now then before.(expires := None) else before
  }

  /** What the open row of a live ban says: what its ticket says; without a ticket what its
      newest row said, or a new ban of 600 seconds. */
  ghost predicate Timed(start: seq<Row>, rows: seq<Row>, s: Snapshot, now: int, p: Pair) {
    if p in s.tickets then
      forall i :: 0 <= i < |rows| && rows[i].active && PairOf(rows[i]) == p ==> Says(rows[i], s.tickets[p], now)
    else if HasOpen(start, p) then
      forall k: nat :: NewestOpen(start, p, k) ==> k < |rows| && Cleared(start[k], rows[k], now)
    else
      forall i :: 0 <= i < |rows| && rows[i].active && PairOf(rows[i]) == p ==>
        rows[i] == Row(p.1, p.0, 2, now, Some(now + 600), false, true)
  }

  /** Row k becomes r, and the other open rows of p are closed. */
  function WithReceipt(rows: seq<Row>, p: Pair, k: nat, r: Row): seq<Row> {
    seq(|rows|, i requires 0 <= i < |rows| =>
      if i == k then r else if rows[i].active && PairOf(rows[i]) == p then rows[i].(active := false) else rows[i])
  }

  lemma WithReceiptIs(rows: seq<Row>, p: Pair, k: nat, r: Row)
    requires k < |rows| && PairOf(rows[k]) == p && rows[k].active && PairOf(r) == p && r.active
    requires r.manual == rows[k].manual
    requires r.level >= 5 ==> rows[k].level >= 5
    ensures var out := WithReceipt(rows, p, k, r);
      && |out| == |rows| && out[k] == r && Only(rows, out, {p}) && Single(out, p) && HasOpen(out, p)
      && (forall i :: 0 <= i < |out| && out[i].active && PairOf(out[i]) == p ==> i == k)
      && (forall i :: 0 <= i < |out| && i != k ==>
            out[i] == if PairOf(rows[i]) == p then rows[i].(active := false) else rows[i])
  {
    assert WithReceipt(rows, p, k, r)[k].active;
  }

  lemma NewestOnce(rows: seq<Row>, p: Pair, k: nat)
    requires NewestOpen(rows, p, k)
    ensures HasOpen(rows, p) && forall j: nat :: NewestOpen(rows, p, j) ==> j == k
  {
  }

  lemma NewestIs(rows: seq<Row>, p: Pair, k: nat)
    requires NewestOpen(rows, p, k)
    ensures k < |rows| && rows[k].active && PairOf(rows[k]) == p
  {
  }

  lemma NoneCurrent(rows: seq<Row>, p: Pair, now: int)
    requires !HasOpen(rows, p)
    ensures forall j :: 0 <= j < |rows| ==> !IsCurrent(rows[j], p, now)
  {
  }

  lemma NoneNewest(rows: seq<Row>, p: Pair)
    ensures !HasOpen(rows, p) ==> forall k: nat :: !NewestOpen(rows, p, k)
  {
  }

  /** What restoring the newest row k makes of the rows. */
  ghost predicate RestoredAt(before: seq<Row>, after: seq<Row>, p: Pair, k: nat, ticket: Option<Ticket>, now: int)
    requires k < |before| == |after|
  {
    && after[k].active && after[k].manual == before[k].manual
    && (if ticket.Some? then Says(after[k], ticket.value, now) else Cleared(before[k], after[k], now))
    && forall i :: 0 <= i < |after| && i != k ==>
      after[i] == if PairOf(before[i]) == p then before[i].(active := false) else before[i]
  }

  function TicketOf(s: Snapshot, p: Pair): Option<Ticket> { if p in s.tickets then Some(s.tickets[p]) else None }

  lemma TimedFound(before: seq<Row>, after: seq<Row>, s: Snapshot, now: int, p: Pair)
    requires |after| == |before| && exists k: nat :: NewestOpen(before, p, k)
    requires
      forall k: nat :: NewestOpen(before, p, k) ==> k < |before| && RestoredAt(before, after, p, k, TicketOf(s, p), now)
    ensures Timed(before, after, s, now, p)
  {
    var k: nat :| NewestOpen(before, p, k);
    assert RestoredAt(before, after, p, k, TicketOf(s, p), now);
  }

  /** A ban that had no open row: none now either, or a new one, which the ticket may have corrected. */
  lemma TimedNew(before: seq<Row>, recorded: seq<Row>, after: seq<Row>, s: Snapshot, now: int, p: Pair)
    requires !HasOpen(before, p)
    requires recorded == before || exists r ::
        && recorded == before + [r] && r.active && PairOf(r) == p
        && (p !in s.tickets ==> r == Row(p.1, p.0, 2, now, Some(now + 600), false, true))
    requires |after| == |recorded| && (p !in s.tickets || recorded == before ==> after == recorded)
    requires p in s.tickets ==>
      forall k: nat :: NewestOpen(recorded, p, k) ==>
        k < |recorded| && RestoredAt(recorded, after, p, k, TicketOf(s, p), now)
    ensures Timed(before, after, s, now, p)
  {
    if recorded != before {
      var k := |before|;
      assert forall i :: 0 <= i < k ==> recorded[i] == before[i];
      assert NewestOpen(recorded, p, k);
    }
  }

  /** What other bans do to their rows makes no difference to p, before it has its turn or after. */
  lemma TimedFrom(start: seq<Row>, before: seq<Row>, after: seq<Row>, s: Snapshot, now: int, p: Pair,
      touched: set<Pair>)
    requires Only(start, before, touched) && p !in touched && Timed(before, after, s, now, p) && |before| <= |after|
    ensures Timed(start, after, s, now, p)
  {
    OpenElsewhere(start, before, touched, p);
    forall k: nat | NewestOpen(start, p, k) ensures NewestOpen(before, p, k) && before[k] == start[k] {
      forall i | 0 <= i < |before| && before[i].active && PairOf(before[i]) == p
        ensures i < |start| && before[i] == start[i]
      {
      }
    }
  }

  lemma OnlyMoreRows(before: seq<Row>, after: seq<Row>, touched: set<Pair>)
    requires Only(before, after, touched)
    ensures |before| <= |after|
  {
  }

  lemma TimedElsewhere(start: seq<Row>, before: seq<Row>, after: seq<Row>, s: Snapshot, now: int, q: Pair,
      all: set<Pair>,
      touched: set<Pair>)
    requires Only(start, before, all) && Only(before, after, touched) && q !in touched
    requires Timed(start, before, s, now, q)
    ensures Timed(start, after, s, now, q)
  {
    TimedThrough(start, before, after, s, now, q);
  }

  lemma TimedThrough(start: seq<Row>, before: seq<Row>, after: seq<Row>, s: Snapshot, now: int, p: Pair)
    requires Timed(start, before, s, now, p) && |before| <= |after|
    requires forall i :: 0 <= i < |before| && PairOf(before[i]) == p ==> after[i] == before[i]
    requires forall i :: 0 <= i < |before| ==> PairOf(after[i]) == PairOf(before[i])
    requires forall i :: |before| <= i < |after| ==> PairOf(after[i]) != p
    requires |start| <= |before| && forall i :: 0 <= i < |start| ==> PairOf(before[i]) == PairOf(start[i])
    ensures Timed(start, after, s, now, p)
  {
  }

  // ----- what the web layer must refuse -----

  ghost predicate LiveOnWeb(s: Snapshot, ip: string) {
    exists j :: j in s.readable && IsWebSource(j) && (j, ip) in s.live
  }

  /** An open row of a web jail whose status could not be read. */
  ghost predicate OpenUnread(rows: seq<Row>, s: Snapshot, ip: string) {
    exists i ::
      && 0 <= i < |rows| && rows[i].ip == ip && rows[i].active && IsJail(rows[i].source) && IsWebSource(rows[i].source)
      && rows[i].source !in s.readable
  }

  /** An open row of a web jail whose ban is live. */
  ghost predicate OpenLive(rows: seq<Row>, s: Snapshot, ip: string) {
    exists i ::
      0 <= i < |rows| && rows[i].ip == ip && rows[i].active && IsWebSource(rows[i].source) && PairOf(rows[i]) in s.live
  }

  ghost predicate OpenManual(rows: seq<Row>, now: int, ip: string) {
    exists i ::
      0 <= i < |rows| && rows[i].ip == ip && rows[i].active && rows[i].source == Manual && InForce(rows[i], now)
  }

  /** Rows that belong to no live ban are the same in both lists. */
  lemma OnlyLive(before: seq<Row>, after: seq<Row>, s: Snapshot, ip: string, now: int)
    requires Proper(s) && Only(before, after, s.live)
    ensures OpenUnread(before, s, ip) <==> OpenUnread(after, s, ip)
    ensures OpenManual(before, now, ip) <==> OpenManual(after, now, ip)
  {
    forall i | 0 <= i < |after| && (after[i].source == Manual || after[i].source !in s.readable)
      ensures i < |before| && after[i] == before[i]
    {
      assert PairOf(after[i]) !in s.live;
    }
    forall i | 0 <= i < |before| && (before[i].source == Manual || before[i].source !in s.readable)
      ensures after[i] == before[i]
    {
      assert PairOf(before[i]) !in s.live;
    }
  }

  lemma OneMoreRow(rows: seq<Row>, i: nat, s: Snapshot, ip: string)
    requires i < |rows|
    ensures var r := rows[i];
      OpenUnread(rows[..i + 1], s, ip)
      <==>
        || OpenUnread(rows[..i], s, ip)
        || (r.ip == ip && r.active && IsJail(r.source) && IsWebSource(r.source) && r.source !in s.readable)
    ensures var r := rows[i];
      OpenLive(rows[..i + 1], s, ip)
      <==> OpenLive(rows[..i], s, ip) || (r.ip == ip && r.active && IsWebSource(r.source) && PairOf(r) in s.live)
  {
    var more := rows[..i + 1];
    assert more[i] == rows[i] && forall k :: 0 <= k < i ==> more[k] == rows[..i][k];
  }

  class FirewallBans {
    var rows: seq<Row>
    var nginx: set<string>

    /** The newest open row of p, if any. */
    method Newest(p: Pair) returns (k: Option<nat>)
      ensures k.Some? ==> NewestOpen(rows, p, k.value)
      ensures k.None? <==> !HasOpen(rows, p)
    {
      k := None;
      for i := 0 to |rows|
        invariant k.Some? ==> k.value < i && rows[k.value].active && PairOf(rows[k.value]) == p
        invariant forall j :: 0 <= j < i && rows[j].active && PairOf(rows[j]) == p ==>
          k.Some? && (rows[j].banned < rows[k.value].banned || (rows[j].banned == rows[k.value].banned && j <= k.value))
      {
        if rows[i].active && PairOf(rows[i]) == p && (k.None? || rows[i].banned >= rows[k.value].banned) {
          k := Some(i);
        }
      }
    }

    /** `restoreActiveFail2banReceipt`: of the open rows of a live ban only the newest stays
        open, with the times of its ticket, and without an expiry that has passed. */
    method Restore(p: Pair, ticket: Option<Ticket>, now: int) returns (found: bool)
      modifies this`rows
      ensures found == HasOpen(old(rows), p)
      ensures Only(old(rows), rows, {p}) && |rows| == |old(rows)|
      ensures found ==> Single(rows, p) && HasOpen(rows, p)
      ensures !found ==> rows == old(rows)
      ensures
        found ==> forall i :: 0 <= i < |rows| && rows[i].active && PairOf(rows[i]) == p ==> InForce(rows[i], now)
      ensures found ==> exists k: nat :: NewestOpen(old(rows), p, k)
      ensures forall k: nat :: NewestOpen(old(rows), p, k) ==>
        k < |rows| && RestoredAt(old(rows), rows, p, k, ticket, now)
    {
      hide Single, HasOpen, NewestOpen, Only;
      Unchanged(rows, {p});
      NoneNewest(rows, p);
      var k := Newest(p);
      if k.None? { return false; }
      NewestOnce(rows, p, k.value);
      NewestIs(rows, p, k.value);
      var r := rows[k.value];
      if ticket.Some? {
        var t := ticket.value;
        var expires := if t.expires > now then Some(t.expires) else None;
        r := r.(banned := t.banned, expires := expires, level := BanLevel(t.duration));
      } else if r.expires.Some? && r.expires.value <= now {
        r := r.(expires := None);
      }
      WithReceiptIs(rows, p, k.value, r);
      rows := WithReceipt(rows, p, k.value, r);
      found := true;
    }

    /** Whether a manual or a level-five ban of the address is in force. */
    method Protected(ip: string, now: int) returns (yes: bool)
      ensures yes <==> Shielded(rows, ip, now)
    {
      for i := 0 to |rows|
        invariant forall j ::
            0 <= j < i ==>
              !(rows[j].ip == ip && (rows[j].manual || rows[j].level >= 5) && rows[j].active && InForce(rows[j], now))
      {
        var lasts := rows[i].expires == None || rows[i].expires.value > now;
        if rows[i].ip == ip && (rows[i].manual || rows[i].level >= 5) && rows[i].active && lasts {
          return true;
        }
      }
      yes := false;
    }

    /** The last row that IsCurrent, if any. */
    method LastCurrent(p: Pair, now: int) returns (k: Option<nat>)
      ensures match k
        case Some(i) => Current(rows, p, now, i)
        case None => forall j :: 0 <= j < |rows| ==> !IsCurrent(rows[j], p, now)
    {
      k := None;
      for i := 0 to |rows|
        invariant match k
          case Some(m) => m < i && IsCurrent(rows[m], p, now) && forall j :: m < j < i ==> !IsCurrent(rows[j], p, now)
          case None => forall j :: 0 <= j < i ==> !IsCurrent(rows[j], p, now)
      {
        var r := rows[i];
        if PairOf(r) == p && !r.manual && r.active && (r.expires == None || r.expires.value > now) { k := Some(i); }
      }
    }

    /** Reopen the last automatic row of p. */
    method Reopen(p: Pair)
      modifies this`rows
      ensures |rows| == |old(rows)|
      ensures forall i :: 0 <= i < |rows| ==>
        rows[i] == if LastReceipt(old(rows), p, i) then old(rows)[i].(active := true) else old(rows)[i]
    {
      for i := |rows| downto 0
        invariant rows == old(rows) && forall j :: i <= j < |rows| ==> !IsReceipt(rows[j], p)
      {
        if PairOf(rows[i]) == p && !rows[i].manual {
          rows := rows[i := rows[i].(active := true)];
          return;
        }
      }
    }

    /** Renew the current receipt, or write a new one. */
    method Renew(p: Pair, banTime: nat, now: int)
      modifies this`rows
      ensures forall k: nat :: Current(old(rows), p, now, k) ==> Renewed(old(rows), rows, k, banTime, now)
      ensures (forall j :: 0 <= j < |old(rows)| ==> !IsCurrent(old(rows)[j], p, now)) ==>
        Begun(old(rows), rows, p, banTime, now)
      ensures Only(old(rows), rows, {p}) && HasOpen(rows, p) && (!HasOpen(old(rows), p) ==> Single(rows, p))
    {
      var k := LastCurrent(p, now);
      if k.Some? {
        var r := rows[k.value].(level := BanLevel(banTime), banned := now, expires := Some(now + banTime));
        rows := rows[k.value := r];
        assert rows[k.value].active && PairOf(rows[k.value]) == p;
      } else {
        rows := rows + [Row(p.1, p.0, BanLevel(banTime), now, Some(now + banTime), false, true)];
        assert rows[|rows| - 1].active && PairOf(rows[|rows| - 1]) == p;
      }
    }

    /** `RecordFail2banBan`, for a jail of Fail2ban: after a restart the last receipt is
        reopened; otherwise, unless a manual or a level-five ban of the address is in force, the
        current receipt is renewed, or a new one is written. */
    method Record(p: Pair, address: bool, banTime: int, banCount: int, restored: bool, now: int) returns (ok: bool)
      modifies this`rows
      ensures ok <==> address && 1 <= banTime <= WEEK && 1 <= banCount <= 1_000_000
      ensures !ok ==> rows == old(rows)
      ensures ok && restored ==> |rows| == |old(rows)| && forall i :: 0 <= i < |rows| ==>
        rows[i] == if LastReceipt(old(rows), p, i) then old(rows)[i].(active := true) else old(rows)[i]
      ensures !restored && Shielded(old(rows), p.1, now) ==> rows == old(rows)
      ensures ok && !restored && !Shielded(old(rows), p.1, now) ==>
        && (forall k: nat :: Current(old(rows), p, now, k) ==> Renewed(old(rows), rows, k, banTime, now))
        && ((forall j :: 0 <= j < |old(rows)| ==> !IsCurrent(old(rows)[j], p, now)) ==>
              Begun(old(rows), rows, p, banTime, now))
      ensures !restored ==> Only(old(rows), rows, {p}) && (!HasOpen(old(rows), p) ==> Single(rows, p))
      ensures ok && !restored && !Shielded(old(rows), p.1, now) ==> HasOpen(rows, p)
    {
      Unchanged(rows, {p});
      ok := address && 1 <= banTime <= WEEK && 1 <= banCount <= 1_000_000;
      if !ok { return; }
      if restored {
        Reopen(p);
        return;
      }
      hide Shielded, Only, Single, HasOpen, Current, IsReceipt, IsCurrent;
      var shielded := Protected(p.1, now);
      NoneIsSingle(rows, p);
      if !shielded { Renew(p, banTime, now); }
    }

    /** A receipt for one live ban. */
    method Receipt(p: Pair, s: Snapshot, now: int)
      requires Proper(s) && p in s.live
      modifies this`rows
      ensures Only(old(rows), rows, {p}) && Single(rows, p)
      ensures if HasOpen(old(rows), p) then HasOpen(rows, p)
        else HasOpen(rows, p) <==> p.1 in s.addresses && !Shielded(old(rows), p.1, now)
      ensures Timed(old(rows), rows, s, now, p)
    {
      hide Only, Single, HasOpen, Shielded, Timed, RestoredAt, NewestOpen;
      ghost var before := rows;
      var ticket := TicketOf(s, p);
      var found := Restore(p, ticket, now);
      if found {
        TimedFound(before, rows, s, now, p);
      } else {
        var ok := Record(p, p.1 in s.addresses, if ticket.Some? then ticket.value.duration else 600, 1, false, now);
        NoneIsSingle(before, p);
        NoneCurrent(before, p, now);
        ghost var recorded := rows;
        if ok && ticket.Some? {
          var again := Restore(p, ticket, now);
          assert {p} + {p} == {p};
          OnlyTransitive(before, recorded, rows, {p}, {p});
          StillSingle(recorded, rows, {p}, p);
        } else if ticket.Some? {
          NoneNewest(before, p);
        }
        TimedNew(before, recorded, rows, s, now, p);
      }
    }

    /** The first half of `reconcileFail2banBans`: a receipt for every live ban. */
    method Receipts(s: Snapshot, now: int)
      requires Proper(s)
      modifies this`rows
      ensures Only(old(rows), rows, s.live)
      ensures forall p :: p in s.live ==>
        Single(rows, p) && Served(old(rows), rows, s, now, p) && Timed(old(rows), rows, s, now, p)
    {
      hide Only, Single, HasOpen, Shielded, Served, Timed;
      var todo := s.live;
      Unchanged(rows, s.live);
      Unchanged(rows, s.live - todo);
      while todo != {}
        invariant todo <= s.live && Only(old(rows), rows, s.live)
        invariant forall p :: p in s.live - todo ==>
          Single(rows, p) && Served(old(rows), rows, s, now, p) && Timed(old(rows), rows, s, now, p)
        invariant Only(old(rows), rows, s.live - todo)
        invariant forall p :: p in todo ==> (HasOpen(rows, p) <==> HasOpen(old(rows), p))
        decreases |todo|
      {
        var p :| p in todo;
        ghost var before := rows;
        Receipt(p, s, now);
        ServedNow(old(rows), before, rows, s, now, p);
        OnlyMoreRows(before, rows, {p});
        TimedFrom(old(rows), before, rows, s, now, p, s.live - todo);
        assert s.live - todo + {p} == s.live - (todo - {p});
        OnlyTransitive(old(rows), before, rows, s.live - todo, {p});
        assert s.live + {p} == s.live;
        OnlyTransitive(old(rows), before, rows, s.live, {p});
        forall q | q in s.live && q != p
          ensures HasOpen(rows, q) <==> HasOpen(before, q)
        {
          OpenElsewhere(before, rows, {p}, q);
        }
        forall q | q in s.live - todo
          ensures Single(rows, q) && Served(old(rows), rows, s, now, q) && Timed(old(rows), rows, s, now, q)
        {
          StillSingle(before, rows, {p}, q);
          StillServed(old(rows), before, rows, s, now, q);
          TimedElsewhere(old(rows), before, rows, s, now, q, s.live, {p});
        }
        todo := todo - {p};
      }
    }

    /** The second half: rows of unreadable jails stay, rows of readable ones stay only while live. */
    method CloseEnded(s: Snapshot, web: set<string>) returns (banned: set<string>)
      requires Proper(s)
      modifies this`rows
      ensures |rows| == |old(rows)|
      ensures forall i :: 0 <= i < |rows| ==>
        rows[i] == if Ended(old(rows)[i], s)
                   then old(rows)[i].(active := false) else old(rows)[i]
      ensures forall ip :: ip in banned <==> (ip in web || OpenUnread(old(rows), s, ip) || OpenLive(rows, s, ip))
    {
      banned := web;
      var ended: set<nat> := {};
      for i := 0 to |rows|
        invariant rows == old(rows)
        invariant forall k :: k in ended <==> 0 <= k < i && Ended(rows[k], s)
        invariant
          forall ip :: ip in banned <==> (ip in web || OpenUnread(rows[..i], s, ip) || OpenLive(rows[..i], s, ip))
      {
        var r := rows[i];
        forall ip
          ensures OpenUnread(rows[..i + 1], s, ip)
            <==> OpenUnread(rows[..i], s, ip)
                 || (r.ip == ip && r.active && IsJail(r.source) && IsWebSource(r.source) && r.source !in s.readable)
          ensures OpenLive(rows[..i + 1], s, ip)
            <==> OpenLive(rows[..i], s, ip) || (r.ip == ip && r.active && IsWebSource(r.source) && PairOf(r) in s.live)
        {
          OneMoreRow(rows, i, s, ip);
        }
        if !r.active || !IsJail(r.source) { continue; }
        if r.source !in s.readable || PairOf(r) in s.live {
          if IsWebSource(r.source) { banned := banned + {r.ip}; }
        } else {
          ended := ended + {i};
        }
      }
      assert rows[..|rows|] == rows;
      rows := seq(|rows|, i requires 0 <= i < |rows| reads this =>
        if i in ended then rows[i].(active := false) else rows[i]);
    }

    /** `reconcilePanelManagedBans`: bans of the panel end when they expire; manual ones are refused by Nginx. */
    method EndPanelBans(now: int, web: set<string>) returns (banned: set<string>)
      modifies this`rows
      ensures |rows| == |old(rows)|
      ensures forall i :: 0 <= i < |rows| ==>
        rows[i] == if !IsJail(old(rows)[i].source) && old(rows)[i].active && !InForce(old(rows)[i], now)
                   then old(rows)[i].(active := false) else old(rows)[i]
      ensures forall ip :: ip in banned <==> (ip in web || OpenManual(old(rows), now, ip))
    {
      banned := web;
      var ended: set<nat> := {};
      for i := 0 to |rows|
        invariant rows == old(rows)
        invariant forall k ::
            k in ended <==> 0 <= k < i && !IsJail(rows[k].source) && rows[k].active && !InForce(rows[k], now)
        invariant forall ip :: ip in banned <==> (ip in web || OpenManual(rows[..i], now, ip))
      {
        var r := rows[i];
        forall ip
          ensures OpenManual(rows[..i + 1], now, ip)
            <==> OpenManual(rows[..i], now, ip) || (r.ip == ip && r.active && r.source == Manual && InForce(r, now))
        {
          OneMoreManual(rows, i, now, ip);
        }
        if !r.active || IsJail(r.source) { continue; }
        if r.expires.Some? && r.expires.value <= now {
          ended := ended + {i};
          continue;
        }
        if IsWebSource(r.source) { banned := banned + {r.ip}; }
      }
      assert rows[..|rows|] == rows;
      rows := seq(|rows|, i requires 0 <= i < |rows| reads this =>
        if i in ended then rows[i].(active := false) else rows[i]);
    }

    /** `syncFail2banSnapshot`. */
    method Sync(s: Snapshot, now: int, replaceOk: bool)
      requires Proper(s)
      modifies this
      ensures (exists j :: j in s.readable && IsWebSource(j)) && replaceOk ==>
        forall ip :: ip in nginx <==>
          (LiveOnWeb(s, ip) || OpenUnread(old(rows), s, ip) || OpenManual(old(rows), now, ip))
      ensures !replaceOk ==> nginx == old(nginx)
      ensures nginx == old(nginx) || forall ip ::
          ip in nginx <==> (LiveOnWeb(s, ip) || OpenUnread(old(rows), s, ip) || OpenManual(old(rows), now, ip))
      ensures |old(rows)| <= |rows|
      ensures forall i ::
          0 <= i < |old(rows)| && IsJail(old(rows)[i].source) && old(rows)[i].source !in s.readable ==>
            rows[i] == old(rows)[i]
      ensures
        forall i :: 0 <= i < |rows| && rows[i].active && rows[i].source in s.readable ==> PairOf(rows[i]) in s.live
      ensures forall p :: p in s.live ==>
        Single(rows, p) && Served(old(rows), rows, s, now, p) && Timed(old(rows), rows, s, now, p)
      ensures forall i :: 0 <= i < |old(rows)| && !IsJail(old(rows)[i].source) ==>
        rows[i] == if InForce(old(rows)[i], now) then old(rows)[i] else old(rows)[i].(active := false)
      ensures forall i :: 0 <= i < |old(rows)| && rows[i].active ==> old(rows)[i].active
    {
      hide Single, OpenUnread, OpenLive, OpenManual, Served, Timed;
      ghost var start := rows;
      Receipts(s, now);
      ghost var receipts := rows;
      forall ip
        ensures OpenUnread(start, s, ip) <==> OpenUnread(receipts, s, ip)
        ensures OpenManual(start, now, ip) <==> OpenManual(receipts, now, ip)
      {
        OnlyLive(start, receipts, s, ip, now);
      }
      var banned := CloseEnded(s, set p | p in s.live && IsWebSource(p.0) :: p.1);
      ghost var closed := rows;
      banned := EndPanelBans(now, banned);
      forall ip ensures ip in banned <==> (LiveOnWeb(s, ip) || OpenUnread(start, s, ip) || OpenManual(start, now, ip)) {
        WebSet(receipts, closed, s, now, ip);
      }
      forall p | p in s.live
        ensures Single(rows, p) && Served(start, rows, s, now, p) && Timed(start, rows, s, now, p)
      {
        FewerOpen(receipts, closed, rows, p);
        SameOpen(receipts, rows, p);
        StillServed(start, receipts, rows, s, now, p);
        TimedThrough(start, receipts, rows, s, now, p);
      }
      var webRead := exists j :: j in s.readable && IsWebSource(j);
      if webRead || banned != {} {
        if replaceOk { nginx := banned; }
      }
    }
  }

  lemma NoneIsSingle(rows: seq<Row>, p: Pair)
    ensures !HasOpen(rows, p) ==> Single(rows, p)
  {
  }

  lemma ServedNow(start: seq<Row>, before: seq<Row>, after: seq<Row>, s: Snapshot, now: int, p: Pair)
    requires Only(start, before, s.live) && p in s.live && (HasOpen(before, p) <==> HasOpen(start, p))
    requires if HasOpen(before, p) then HasOpen(after, p)
      else HasOpen(after, p) <==> p.1 in s.addresses && !Shielded(before, p.1, now)
    ensures Served(start, after, s, now, p)
  {
    hide Only, HasOpen, Shielded, MayShield, ShieldedApart;
    ShieldsStay(start, before, s, p.1, now);
  }

  lemma StillServed(start: seq<Row>, before: seq<Row>, after: seq<Row>, s: Snapshot, now: int, p: Pair)
    requires Served(start, before, s, now, p) && (HasOpen(before, p) <==> HasOpen(after, p))
    ensures Served(start, after, s, now, p)
  {
    hide HasOpen, MayShield, ShieldedApart;
  }

  lemma SameOpen(before: seq<Row>, after: seq<Row>, p: Pair)
    requires |before| == |after|
    requires forall i :: 0 <= i < |before| && PairOf(before[i]) == p ==> after[i] == before[i]
    requires forall i :: 0 <= i < |before| ==> PairOf(after[i]) == PairOf(before[i])
    ensures HasOpen(before, p) <==> HasOpen(after, p)
  {
    if HasOpen(before, p) {
      var i :| 0 <= i < |before| && before[i].active && PairOf(before[i]) == p;
      assert after[i] == before[i];
    }
  }

  lemma Unchanged(rows: seq<Row>, touched: set<Pair>)
    ensures Only(rows, rows, touched)
  {
  }

  /** One open row at most stays one at most where nothing is added. */
  lemma StillSingle(before: seq<Row>, after: seq<Row>, touched: set<Pair>, q: Pair)
    requires Only(before, after, touched) && Single(before, q) && (q !in touched || |after| == |before|)
    ensures Single(after, q)
  {
  }

  lemma OneMoreManual(rows: seq<Row>, i: nat, now: int, ip: string)
    requires i < |rows|
    ensures var r := rows[i];
      OpenManual(rows[..i + 1], now, ip)
      <==> OpenManual(rows[..i], now, ip) || (r.ip == ip && r.active && r.source == Manual && InForce(r, now))
  {
    var more := rows[..i + 1];
    assert more[i] == rows[i] && forall k :: 0 <= k < i ==> more[k] == rows[..i][k];
  }

  /** Closing ended bans touches no manual ban, and a live open row of a web jail is live on the web. */
  lemma WebSet(receipts: seq<Row>, closed: seq<Row>, s: Snapshot, now: int, ip: string)
    requires Proper(s) && |closed| == |receipts|
    requires forall i :: 0 <= i < |closed| ==> PairOf(closed[i]) == PairOf(receipts[i])
    requires forall i ::
        0 <= i < |closed| && (receipts[i].source !in s.readable || PairOf(receipts[i]) in s.live) ==>
          closed[i] == receipts[i]
    ensures OpenManual(closed, now, ip) <==> OpenManual(receipts, now, ip)
    ensures OpenLive(closed, s, ip) ==> LiveOnWeb(s, ip)
  {
  }

  lemma FewerOpen(a: seq<Row>, b: seq<Row>, c: seq<Row>, p: Pair)
    requires |a| == |b| == |c| && Single(a, p)
    requires forall i :: 0 <= i < |a| ==> PairOf(c[i]) == PairOf(a[i]) && (c[i].active ==> a[i].active)
    ensures Single(c, p)
  {
  }
}
