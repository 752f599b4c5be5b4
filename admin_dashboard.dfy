/**
 * The admin dashboard's figures (src/pages/admin/AdminDashboard.jsx): the integer statistics of
 * the attempt log, the per-user activity ranking and the feed of latest events.
 * Timestamps are integers, newer is larger; a missing timestamp is None.
 */
module AdminDashboard {
  import opened Wrappers
  import opened Js

  // ---------------------------------------------------------------------------
  // Records
  // ---------------------------------------------------------------------------

  /** `log.user` as embedded in a log record. */
  datatype UserRef = UserRef(id: nat, fullName: string, email: string)

  datatype AckLog = AckLog(id: nat, user: Option<UserRef>, instructionTitle: string, acknowledgedAt: Option<int>)

  datatype TestLog = TestLog(id: nat, user: Option<UserRef>, testTitle: string, createdAt: Option<int>, passed: bool, score: Value)

  // ---------------------------------------------------------------------------
  // calcPercent and stats
  // ---------------------------------------------------------------------------

  /** `calcPercent(part, total)`: 0 for a zero total, else `Math.round(part / total * 100)`, computed exactly. */
  function CalcPercent(part: nat, total: nat): nat {
    if total == 0 then 0 else (200 * part + total) / (2 * total)
  }

  /** The percentage is the whole number nearest to `100 * part / total`, halves rounded up. */
  lemma CalcPercentRounds(part: nat, total: nat)
    requires total > 0
    ensures var p := CalcPercent(part, total);
            2 * total * p <= 200 * part + total < 2 * total * (p + 1)
  {
    var n, d := 200 * part + total, 2 * total;
    assert n == (n / d) * d + n % d;
  }

  lemma MulLeCancel(t: nat, a: nat, b: nat)
    requires t > 0 && t * a <= t * b
    ensures a <= b
  {
  }

  /** A part of a whole is between 0 and 100 per cent. */
  lemma CalcPercentBounded(part: nat, total: nat)
    requires part <= total
    ensures CalcPercent(part, total) <= 100
  {
    if total > 0 {
      var p := CalcPercent(part, total);
      CalcPercentRounds(part, total);
      assert total * (2 * p) <= total * 201;
      MulLeCancel(total, 2 * p, 201);
    }
  }

  /** `testLogs.filter((x) => x.passed).length`. */
  function PassedCount(logs: seq<TestLog>): nat {
    if |logs| == 0 then 0
    else PassedCount(logs[..|logs| - 1]) + (if logs[|logs| - 1].passed then 1 else 0)
  }

  lemma {:induction false} PassedCountBounded(logs: seq<TestLog>)
    ensures PassedCount(logs) <= |logs|
    ensures PassedCount(logs) == |logs| <==> forall k :: 0 <= k < |logs| ==> logs[k].passed
    decreases |logs|
  {
    if |logs| > 0 {
      PassedCountBounded(logs[..|logs| - 1]);
      assert forall k :: 0 <= k < |logs| - 1 ==> logs[..|logs| - 1][k] == logs[k];
    }
  }

  datatype Stats = Stats(
    totalUsers: nat, totalInstructions: nat, totalTests: nat,
    totalAcks: nat, totalAttempts: nat,
    passedCount: nat, failedCount: int, passedPercent: nat)

  /** The integer fields of `stats`. */
  function StatsOf(userCount: nat, instructionCount: nat, testCount: nat, acks: seq<AckLog>, logs: seq<TestLog>): Stats {
    var passed := PassedCount(logs);
    Stats(userCount, instructionCount, testCount, |acks|, |logs|, passed, |logs| - passed, CalcPercent(passed, |logs|))
  }

  /** Passed and failed attempts split the attempts, and the pass rate is a percentage (0 with no attempts). */
  lemma StatsConsistent(userCount: nat, instructionCount: nat, testCount: nat, acks: seq<AckLog>, logs: seq<TestLog>)
    ensures var s := StatsOf(userCount, instructionCount, testCount, acks, logs);
            && s.passedCount <= s.totalAttempts
            && 0 <= s.failedCount
            && s.passedCount + s.failedCount == s.totalAttempts == |logs|
            && 0 <= s.passedPercent <= 100
            && (s.totalAttempts == 0 ==> s.passedPercent == 0)
            && (s.failedCount == 0 && s.totalAttempts > 0 ==> s.passedPercent == 100)
  {
    PassedCountBounded(logs);
    CalcPercentBounded(PassedCount(logs), |logs|);
    if |logs| > 0 {
      CalcPercentRounds(|logs|, |logs|);
      var p := CalcPercent(|logs|, |logs|);
      assert |logs| * (2 * p) <= |logs| * 201;
      assert |logs| * 200 < |logs| * (2 * p + 2);
      MulLeCancel(|logs|, 2 * p, 201);
      MulLtCancel(|logs|, 200, 2 * p + 2);
    }
  }

  lemma MulLtCancel(t: nat, a: nat, b: nat)
    requires t > 0 && t * a < t * b
    ensures a < b
  {
  }

  // ---------------------------------------------------------------------------
  // topUsers: the tallies
  // ---------------------------------------------------------------------------

  /** `log?.user?.id` is truthy and equals `id`. */
  predicate ByUser(user: Option<UserRef>, id: nat) {
    user.Some? && user.value.id != 0 && user.value.id == id
  }

  predicate HasUserId(user: Option<UserRef>) {
    user.Some? && user.value.id != 0
  }

  /** How many acknowledgements the user made. */
  function AckCount(acks: seq<AckLog>, id: nat): nat {
    if |acks| == 0 then 0
    else AckCount(acks[..|acks| - 1], id) + (if ByUser(acks[|acks| - 1].user, id) then 1 else 0)
  }

  /** How many test attempts the user made. */
  function AttemptCount(logs: seq<TestLog>, id: nat): nat {
    if |logs| == 0 then 0
    else AttemptCount(logs[..|logs| - 1], id) + (if ByUser(logs[|logs| - 1].user, id) then 1 else 0)
  }

  /** The user record of the user's first acknowledgement. */
  function FirstAckUser(acks: seq<AckLog>, id: nat): (u: Option<UserRef>)
    ensures u.Some? <==> AckCount(acks, id) > 0
    ensures u.Some? ==> u.value.id == id
  {
    if |acks| == 0 then None
    else match FirstAckUser(acks[..|acks| - 1], id)
      case Some(u) => Some(u)
      case None => if ByUser(acks[|acks| - 1].user, id) then acks[|acks| - 1].user else None
  }

  /** The user record of the user's first test attempt. */
  function FirstLogUser(logs: seq<TestLog>, id: nat): (u: Option<UserRef>)
    ensures u.Some? <==> AttemptCount(logs, id) > 0
    ensures u.Some? ==> u.value.id == id
  {
    if |logs| == 0 then None
    else match FirstLogUser(logs[..|logs| - 1], id)
      case Some(u) => Some(u)
      case None => if ByUser(logs[|logs| - 1].user, id) then logs[|logs| - 1].user else None
  }

  /** The record the tally keeps: the first one seen, acknowledgements before attempts. */
  function UserRecord(acks: seq<AckLog>, logs: seq<TestLog>, id: nat): (u: Option<UserRef>)
    ensures u.Some? <==> AckCount(acks, id) + AttemptCount(logs, id) > 0
    ensures u.Some? ==> u.value.id == id
  {
    if FirstAckUser(acks, id).Some? then FirstAckUser(acks, id) else FirstLogUser(logs, id)
  }

  function TotalOf(acks: seq<AckLog>, logs: seq<TestLog>, id: nat): nat {
    AckCount(acks, id) + AttemptCount(logs, id)
  }

  predicate Active(acks: seq<AckLog>, logs: seq<TestLog>, id: nat) {
    TotalOf(acks, logs, id) > 0
  }

  /** One value of the tally map: `{ user, acks, attempts }`. */
  datatype Tally = Tally(user: UserRef, acks: nat, attempts: nat)

  /** The tally a user ends up with. */
  predicate TallyOf(acks: seq<AckLog>, logs: seq<TestLog>, id: nat, t: Tally) {
    && UserRecord(acks, logs, id) == Some(t.user)
    && t.acks == AckCount(acks, id)
    && t.attempts == AttemptCount(logs, id)
  }

  /** The first loop of `topUsers`: a tally per user id seen among the acknowledgements. */
  method CountAcks(acks: seq<AckLog>) returns (m: map<nat, Tally>)
    ensures forall id :: id in m <==> AckCount(acks, id) > 0
    ensures forall id :: id in m ==> m[id] == Tally(FirstAckUser(acks, id).value, AckCount(acks, id), 0)
  {
    m := map[];
    var i := 0;
    while i < |acks|
      invariant 0 <= i <= |acks|
      invariant forall id :: id in m <==> AckCount(acks[..i], id) > 0
      invariant forall id :: id in m ==> m[id] == Tally(FirstAckUser(acks[..i], id).value, AckCount(acks[..i], id), 0)
    {
      AckStep(acks, i);
      var user := acks[i].user;
      if HasUserId(user) {
        var id := user.value.id;
        if id !in m {
          m := m[id := Tally(user.value, 0, 0)];
        }
        m := m[id := m[id].(acks := m[id].acks + 1)];
      }
      i := i + 1;
    }
    assert acks[..i] == acks;
  }

  /** The second loop of `topUsers`: the attempts added to the tallies, new users tallied as first seen. */
  method CountAttempts(acks: seq<AckLog>, logs: seq<TestLog>, m0: map<nat, Tally>) returns (m: map<nat, Tally>)
    requires forall id :: id in m0 <==> AckCount(acks, id) > 0
    requires forall id :: id in m0 ==> m0[id] == Tally(FirstAckUser(acks, id).value, AckCount(acks, id), 0)
    ensures forall id :: id in m <==> Active(acks, logs, id)
    ensures forall id :: id in m ==> (UserRecord(acks, logs, id).Some? &&
              m[id] == Tally(UserRecord(acks, logs, id).value, AckCount(acks, id), AttemptCount(logs, id)))
  {
    m := m0;
    var j := 0;
    assert logs[..0] == [];
    while j < |logs|
      invariant 0 <= j <= |logs|
      invariant forall id :: id in m <==> Active(acks, logs[..j], id)
      invariant forall id :: id in m ==> (UserRecord(acks, logs[..j], id).Some? &&
                  m[id] == Tally(UserRecord(acks, logs[..j], id).value, AckCount(acks, id), AttemptCount(logs[..j], id)))
    {
      ghost var before := m;
      var user := logs[j].user;
      if HasUserId(user) {
        var id := user.value.id;
        if id !in m {
          m := m[id := Tally(user.value, 0, 0)];
        }
        m := m[id := m[id].(attempts := m[id].attempts + 1)];
        AttemptTallied(acks, logs, j, before, m);
      } else {
        AttemptIgnored(acks, logs, j, m);
      }
      j := j + 1;
    }
    assert logs[..j] == logs;
  }

  /** The two loops of `topUsers` that fill `map`. */
  method Tallies(acks: seq<AckLog>, logs: seq<TestLog>) returns (m: map<nat, Tally>)
    ensures forall id :: id in m <==> Active(acks, logs, id)
    ensures forall id :: id in m ==> TallyOf(acks, logs, id, m[id]) && m[id].user.id == id
  {
    var counted := CountAcks(acks);
    m := CountAttempts(acks, logs, counted);
  }

  /** One more acknowledgement: the count grows by its mark and the first record stays unless none was seen. */
  lemma AckStep(acks: seq<AckLog>, i: nat)
    requires i < |acks|
    ensures forall id :: AckCount(acks[..i + 1], id) == AckCount(acks[..i], id) + (if ByUser(acks[i].user, id) then 1 else 0)
    ensures forall id :: FirstAckUser(acks[..i + 1], id) ==
              if FirstAckUser(acks[..i], id).Some? then FirstAckUser(acks[..i], id)
              else if ByUser(acks[i].user, id) then acks[i].user else None
  {
    assert acks[..i + 1][..i] == acks[..i];
  }

  /** One more test attempt, likewise. */
  lemma LogStep(logs: seq<TestLog>, j: nat)
    requires j < |logs|
    ensures forall id :: AttemptCount(logs[..j + 1], id) == AttemptCount(logs[..j], id) + (if ByUser(logs[j].user, id) then 1 else 0)
    ensures forall id :: FirstLogUser(logs[..j + 1], id) ==
              if FirstLogUser(logs[..j], id).Some? then FirstLogUser(logs[..j], id)
              else if ByUser(logs[j].user, id) then logs[j].user else None
  {
    assert logs[..j + 1][..j] == logs[..j];
  }

  /** One more test attempt leaves the kept record alone unless the user had none. */
  lemma RecordStep(acks: seq<AckLog>, logs: seq<TestLog>, j: nat)
    requires j < |logs|
    ensures forall id :: UserRecord(acks, logs[..j + 1], id) ==
              if UserRecord(acks, logs[..j], id).Some? then UserRecord(acks, logs[..j], id)
              else if ByUser(logs[j].user, id) then logs[j].user else None
  {
    LogStep(logs, j);
  }

  /** An attempt without a user id leaves the tallies correct as they are. */
  lemma AttemptIgnored(acks: seq<AckLog>, logs: seq<TestLog>, j: nat, m: map<nat, Tally>)
    requires j < |logs| && !HasUserId(logs[j].user)
    requires forall id :: id in m <==> Active(acks, logs[..j], id)
    requires forall id :: id in m ==> (UserRecord(acks, logs[..j], id).Some? &&
               m[id] == Tally(UserRecord(acks, logs[..j], id).value, AckCount(acks, id), AttemptCount(logs[..j], id)))
    ensures forall id :: id in m <==> Active(acks, logs[..j + 1], id)
    ensures forall id :: id in m ==> (UserRecord(acks, logs[..j + 1], id).Some? &&
              m[id] == Tally(UserRecord(acks, logs[..j + 1], id).value, AckCount(acks, id), AttemptCount(logs[..j + 1], id)))
  {
    LogStep(logs, j);
    RecordStep(acks, logs, j);
  }

  /** The tallies stay correct when attempt `j`, made by a user with an id, is counted. */
  lemma AttemptTallied(acks: seq<AckLog>, logs: seq<TestLog>, j: nat, before: map<nat, Tally>, after: map<nat, Tally>)
    requires j < |logs| && HasUserId(logs[j].user)
    requires forall id :: id in before <==> Active(acks, logs[..j], id)
    requires forall id :: id in before ==> (UserRecord(acks, logs[..j], id).Some? &&
               before[id] == Tally(UserRecord(acks, logs[..j], id).value, AckCount(acks, id), AttemptCount(logs[..j], id)))
    requires after == var u := logs[j].user.value;
                      var t := if u.id in before then before[u.id] else Tally(u, 0, 0);
                      before[u.id := t.(attempts := t.attempts + 1)]
    ensures forall id :: id in after <==> Active(acks, logs[..j + 1], id)
    ensures forall id :: id in after ==> (UserRecord(acks, logs[..j + 1], id).Some? &&
              after[id] == Tally(UserRecord(acks, logs[..j + 1], id).value, AckCount(acks, id), AttemptCount(logs[..j + 1], id)))
  {
    LogStep(logs, j);
    RecordStep(acks, logs, j);
    var u := logs[j].user.value;
    forall id | id in after
      ensures UserRecord(acks, logs[..j + 1], id).Some?
      ensures after[id] == Tally(UserRecord(acks, logs[..j + 1], id).value, AckCount(acks, id), AttemptCount(logs[..j + 1], id))
    {
      if id == u.id && u.id !in before {
        assert AckCount(acks, id) == 0 && AttemptCount(logs[..j], id) == 0;
      }
    }
  }

  /** A log record without a user id adds to nobody's tally. */
  lemma MissingUserIgnored(acks: seq<AckLog>, a: AckLog, logs: seq<TestLog>, t: TestLog, id: nat)
    requires !HasUserId(a.user) && !HasUserId(t.user)
    ensures AckCount(acks + [a], id) == AckCount(acks, id)
    ensures AttemptCount(logs + [t], id) == AttemptCount(logs, id)
  {
    assert (acks + [a])[..|acks|] == acks;
    assert (logs + [t])[..|logs|] == logs;
  }

  // ---------------------------------------------------------------------------
  // The acknowledgement tallies add up
  // ---------------------------------------------------------------------------

  /** How many acknowledgements carry a user id. */
  function AcksWithUser(acks: seq<AckLog>): nat {
    if |acks| == 0 then 0
    else AcksWithUser(acks[..|acks| - 1]) + (if HasUserId(acks[|acks| - 1].user) then 1 else 0)
  }

  /** The acknowledgement tallies of the listed users, added up. */
  function SumAckCounts(acks: seq<AckLog>, ids: seq<nat>): nat {
    if |ids| == 0 then 0 else AckCount(acks, ids[0]) + SumAckCounts(acks, ids[1..])
  }

  /** How many of the listed users the record belongs to. */
  function Hits(user: Option<UserRef>, ids: seq<nat>): nat {
    if |ids| == 0 then 0 else (if ByUser(user, ids[0]) then 1 else 0) + Hits(user, ids[1..])
  }

  predicate Distinct(ids: seq<nat>) {
    forall i, j :: 0 <= i < j < |ids| ==> ids[i] != ids[j]
  }

  lemma {:induction false} SumAckCountsStep(acks: seq<AckLog>, a: AckLog, ids: seq<nat>)
    ensures SumAckCounts(acks + [a], ids) == SumAckCounts(acks, ids) + Hits(a.user, ids)
    decreases |ids|
  {
    if |ids| > 0 {
      assert (acks + [a])[..|acks|] == acks;
      SumAckCountsStep(acks, a, ids[1..]);
    }
  }

  lemma {:induction false} HitsDistinct(user: Option<UserRef>, ids: seq<nat>)
    requires Distinct(ids)
    ensures Hits(user, ids) == if HasUserId(user) && user.value.id in ids then 1 else 0
    decreases |ids|
  {
    if |ids| > 0 {
      var tail := ids[1..];
      assert forall k :: 0 <= k < |tail| ==> tail[k] == ids[k + 1];
      HitsDistinct(user, tail);
      assert ids[0] !in tail;
      assert ids == [ids[0]] + tail;
    }
  }

  /** Over any duplicate-free list of users that covers every acknowledging user, the acknowledgement
      tallies add up to the number of acknowledgements that carry a user id. */
  lemma {:induction false} AckTalliesAddUp(acks: seq<AckLog>, ids: seq<nat>)
    requires Distinct(ids)
    requires forall k :: 0 <= k < |acks| && HasUserId(acks[k].user) ==> acks[k].user.value.id in ids
    ensures SumAckCounts(acks, ids) == AcksWithUser(acks)
    decreases |acks|
  {
    if |acks| == 0 {
      SumAckCountsZero(ids);
    } else {
      var init, last := acks[..|acks| - 1], acks[|acks| - 1];
      assert forall k :: 0 <= k < |init| ==> init[k] == acks[k];
      AckTalliesAddUp(init, ids);
      assert acks == init + [last];
      SumAckCountsStep(init, last, ids);
      HitsDistinct(last.user, ids);
    }
  }

  lemma {:induction false} SumAckCountsZero(ids: seq<nat>)
    ensures SumAckCounts([], ids) == 0
    decreases |ids|
  {
    if |ids| > 0 {
      SumAckCountsZero(ids[1..]);
    }
  }

  // ---------------------------------------------------------------------------
  // topUsers: the ranking
  // ---------------------------------------------------------------------------

  /** One element of `topUsers`: `{ user, acks, attempts, total }`. */
  datatype UserActivity = UserActivity(user: UserRef, acks: nat, attempts: nat, total: nat)

  /** The order of `topUsers`: more activity first; the sort is stable over `Object.values(map)`, which lists
      integer keys in ascending order, so equal totals come by ascending user id. */
  predicate Outranks(total: nat, id: nat, otherTotal: nat, otherId: nat) {
    total > otherTotal || (total == otherTotal && id < otherId)
  }

  predicate RanksAbove(a: UserActivity, b: UserActivity) {
    Outranks(a.total, a.user.id, b.total, b.user.id)
  }

  predicate Ranked(s: seq<UserActivity>) {
    forall i, j :: 0 <= i < j < |s| ==> RanksAbove(s[i], s[j])
  }

  /** The entry a tally turns into. */
  function ActivityOf(t: Tally): UserActivity {
    UserActivity(t.user, t.acks, t.attempts, t.acks + t.attempts)
  }

  /** An entry correctly reports a user who was active. */
  predicate Reports(acks: seq<AckLog>, logs: seq<TestLog>, e: UserActivity) {
    && Active(acks, logs, e.user.id)
    && UserRecord(acks, logs, e.user.id) == Some(e.user)
    && e.acks == AckCount(acks, e.user.id)
    && e.attempts == AttemptCount(logs, e.user.id)
    && e.total == e.acks + e.attempts
  }

  /** Put `e` into a ranked list at its place. */
  function InsertRanked(s: seq<UserActivity>, e: UserActivity): seq<UserActivity> {
    if |s| == 0 then [e]
    else if RanksAbove(e, s[0]) then [e] + s
    else [s[0]] + InsertRanked(s[1..], e)
  }

  lemma {:induction false} InsertRankedSpec(s: seq<UserActivity>, e: UserActivity)
    requires Ranked(s)
    requires forall k :: 0 <= k < |s| ==> s[k].user.id != e.user.id
    ensures |InsertRanked(s, e)| == |s| + 1
    ensures forall x :: x in InsertRanked(s, e) <==> x in s || x == e
    ensures Ranked(InsertRanked(s, e))
    decreases |s|
  {
    if |s| > 0 && !RanksAbove(e, s[0]) {
      var rest := InsertRanked(s[1..], e);
      assert forall i, j :: 0 <= i < j < |s[1..]| ==> s[1..][i] == s[i + 1] && s[1..][j] == s[j + 1];
      InsertRankedSpec(s[1..], e);
      forall x | x in rest ensures RanksAbove(s[0], x) {
        if x != e {
          var k :| 0 <= k < |s[1..]| && s[1..][k] == x;
          assert x == s[k + 1];
        }
      }
      var r := [s[0]] + rest;
      forall i, j | 0 <= i < j < |r| ensures RanksAbove(r[i], r[j]) {
        if i > 0 {
          assert r[i] == rest[i - 1] && r[j] == rest[j - 1];
        } else {
          assert r[j] == rest[j - 1];
          assert r[j] in rest;
        }
      }
      assert s == [s[0]] + s[1..];
    }
  }

  function Min(a: nat, b: nat): nat {
    if a < b then a else b
  }

  /** `Object.values(map)` with totals, sorted into ranking order. */
  method RankTallies(m: map<nat, Tally>) returns (ranked: seq<UserActivity>)
    requires forall id :: id in m ==> m[id].user.id == id
    ensures Ranked(ranked)
    ensures forall k :: 0 <= k < |ranked| ==> ranked[k].user.id in m && ranked[k] == ActivityOf(m[ranked[k].user.id])
    ensures forall id :: id in m ==> exists k :: 0 <= k < |ranked| && ranked[k].user.id == id
  {
    var remaining := m.Keys;
    ranked := [];
    while remaining != {}
      invariant remaining <= m.Keys
      invariant Ranked(ranked)
      invariant forall k :: 0 <= k < |ranked| ==> ranked[k].user.id in m && ranked[k].user.id !in remaining
                                                   && ranked[k] == ActivityOf(m[ranked[k].user.id])
      invariant forall id :: id in m && id !in remaining ==> exists k :: 0 <= k < |ranked| && ranked[k].user.id == id
      decreases |remaining|
    {
      var id :| id in remaining;
      var e := ActivityOf(m[id]);
      InsertRankedSpec(ranked, e);
      ghost var before := ranked;
      ranked := InsertRanked(ranked, e);
      remaining := remaining - {id};
      InsertKeepsEntries(before, ranked, e, m, remaining);
    }
  }

  lemma InsertKeepsEntries(before: seq<UserActivity>, ranked: seq<UserActivity>, e: UserActivity,
                           m: map<nat, Tally>, remaining: set<nat>)
    requires forall x :: x in ranked <==> x in before || x == e
    requires e.user.id in m && e.user.id !in remaining && e == ActivityOf(m[e.user.id])
    requires forall k :: 0 <= k < |before| ==> before[k].user.id in m && before[k].user.id !in remaining
                                                && before[k] == ActivityOf(m[before[k].user.id])
    requires forall id :: id in m && id !in remaining && id != e.user.id ==>
               exists k :: 0 <= k < |before| && before[k].user.id == id
    ensures forall k :: 0 <= k < |ranked| ==> ranked[k].user.id in m && ranked[k].user.id !in remaining
                                               && ranked[k] == ActivityOf(m[ranked[k].user.id])
    ensures forall id :: id in m && id !in remaining ==> exists k :: 0 <= k < |ranked| && ranked[k].user.id == id
  {
    forall k | 0 <= k < |ranked|
      ensures ranked[k].user.id in m && ranked[k].user.id !in remaining
      ensures ranked[k] == ActivityOf(m[ranked[k].user.id])
    {
      assert ranked[k] in ranked;
    }
    forall other | other in m && other !in remaining
      ensures exists k :: 0 <= k < |ranked| && ranked[k].user.id == other
    {
      if other == e.user.id {
        assert e in ranked;
      } else {
        var k :| 0 <= k < |before| && before[k].user.id == other;
        assert before[k] in ranked;
      }
    }
  }

  /** `topUsers`: the five most active users, each with correct tallies, in ranking order; every user left out
      ranks below every user shown. */
  method TopUsers(acks: seq<AckLog>, logs: seq<TestLog>) returns (top: seq<UserActivity>)
    ensures |top| <= 5
    ensures forall k :: 0 <= k < |top| ==> Reports(acks, logs, top[k])
    ensures Ranked(top)
    ensures forall id :: Active(acks, logs, id) && (forall k :: 0 <= k < |top| ==> top[k].user.id != id) ==>
              |top| == 5 && forall k :: 0 <= k < |top| ==> Outranks(top[k].total, top[k].user.id, TotalOf(acks, logs, id), id)
  {
    var m := Tallies(acks, logs);
    var ranked := RankTallies(m);
    top := ranked[..Min(5, |ranked|)];
    assert forall k :: 0 <= k < |top| ==> top[k] == ranked[k];
    forall id | Active(acks, logs, id) && (forall k :: 0 <= k < |top| ==> top[k].user.id != id)
      ensures |top| == 5 && forall k :: 0 <= k < |top| ==> Outranks(top[k].total, top[k].user.id, TotalOf(acks, logs, id), id)
    {
      var j :| 0 <= j < |ranked| && ranked[j].user.id == id;
      assert j >= |top|;
      forall k | 0 <= k < |top| ensures Outranks(top[k].total, top[k].user.id, TotalOf(acks, logs, id), id) {
        assert RanksAbove(ranked[k], ranked[j]);
      }
    }
  }

  // ---------------------------------------------------------------------------
  // latestEvents
  // ---------------------------------------------------------------------------

  datatype EventKind = AckEvent | TestEvent

  /** One feed entry; `passed` and `score` are absent (None, Undefined) on acknowledgements. */
  datatype Event = Event(kind: EventKind, id: nat, time: Option<int>, user: string, title: string, passed: Option<bool>, score: Value)

  /** `log?.user?.full_name || log?.user?.email || "Пользователь"`. */
  function UserLabel(user: Option<UserRef>): string {
    if user.Some? && user.value.fullName != "" then user.value.fullName
    else if user.Some? && user.value.email != "" then user.value.email
    else "Пользователь"
  }

  function AckEventOf(a: AckLog): Event {
    Event(AckEvent, a.id, a.acknowledgedAt, UserLabel(a.user),
          if a.instructionTitle != "" then a.instructionTitle else "Инструкция", None, Undefined)
  }

  function TestEventOf(t: TestLog): Event {
    Event(TestEvent, t.id, t.createdAt, UserLabel(t.user),
          if t.testTitle != "" then t.testTitle else "Тест", Some(t.passed), t.score)
  }

  /** The events pushed by the two loops: acknowledgements first, then attempts, each in log order. */
  function AllEvents(acks: seq<AckLog>, logs: seq<TestLog>): seq<Event> {
    seq(|acks|, k requires 0 <= k < |acks| => AckEventOf(acks[k]))
    + seq(|logs|, k requires 0 <= k < |logs| => TestEventOf(logs[k]))
  }

  /** `events.filter((e) => e.time)`. */
  function Timed(events: seq<Event>): seq<Event> {
    if |events| == 0 then []
    else Timed(events[..|events| - 1]) + (if events[|events| - 1].time.Some? then [events[|events| - 1]] else [])
  }

  /** The filter keeps exactly the events that have a time. */
  lemma {:induction false} TimedSpec(events: seq<Event>)
    ensures forall e :: e in Timed(events) <==> e in events && e.time.Some?
    ensures |Timed(events)| <= |events|
    decreases |events|
  {
    if |events| > 0 {
      var init := events[..|events| - 1];
      TimedSpec(init);
      assert events == init + [events[|events| - 1]];
    }
  }

  /** Newest first. */
  predicate NewestFirst(s: seq<Event>) {
    && (forall k :: 0 <= k < |s| ==> s[k].time.Some?)
    && forall i, j :: 0 <= i < j < |s| ==> s[i].time.value >= s[j].time.value
  }

  /** Put a timed event after every event at least as new: the stable place for it. */
  function InsertByTime(s: seq<Event>, e: Event): (r: seq<Event>)
    requires e.time.Some? && forall k :: 0 <= k < |s| ==> s[k].time.Some?
    ensures |r| == |s| + 1 && forall k :: 0 <= k < |r| ==> r[k].time.Some?
  {
    if |s| == 0 then [e]
    else if e.time.value > s[0].time.value then [e] + s
    else [s[0]] + InsertByTime(s[1..], e)
  }

  lemma {:induction false} InsertByTimeElements(s: seq<Event>, e: Event)
    requires e.time.Some? && forall k :: 0 <= k < |s| ==> s[k].time.Some?
    ensures multiset(InsertByTime(s, e)) == multiset(s) + multiset{e}
    decreases |s|
  {
    if |s| > 0 && e.time.value <= s[0].time.value {
      InsertByTimeElements(s[1..], e);
      assert s == [s[0]] + s[1..];
    }
  }

  /** Inserting an event no newer than `bound` into events no newer than `bound` keeps them all no newer. */
  lemma {:induction false} InsertByTimeBounded(s: seq<Event>, e: Event, bound: int)
    requires e.time.Some? && e.time.value <= bound
    requires forall k :: 0 <= k < |s| ==> s[k].time.Some? && s[k].time.value <= bound
    ensures forall k :: 0 <= k < |InsertByTime(s, e)| ==> InsertByTime(s, e)[k].time.value <= bound
    decreases |s|
  {
    if |s| > 0 && e.time.value <= s[0].time.value {
      assert forall k :: 0 <= k < |s| - 1 ==> s[1..][k] == s[k + 1];
      InsertByTimeBounded(s[1..], e, bound);
    }
  }

  lemma {:induction false} InsertByTimeOrdered(s: seq<Event>, e: Event)
    requires e.time.Some? && NewestFirst(s)
    ensures NewestFirst(InsertByTime(s, e))
    decreases |s|
  {
    if |s| > 0 && e.time.value <= s[0].time.value {
      var tail := s[1..];
      var rest := InsertByTime(tail, e);
      assert forall k :: 0 <= k < |tail| ==> tail[k] == s[k + 1];
      InsertByTimeOrdered(tail, e);
      InsertByTimeBounded(tail, e, s[0].time.value);
      var r := [s[0]] + rest;
      assert forall j :: 0 < j < |r| ==> r[j] == rest[j - 1];
    }
  }

  /** The two loops of `latestEvents` that push the events. */
  method CollectEvents(acks: seq<AckLog>, logs: seq<TestLog>) returns (events: seq<Event>)
    ensures events == AllEvents(acks, logs)
  {
    events := [];
    var i := 0;
    while i < |acks|
      invariant 0 <= i <= |acks|
      invariant events == AllEvents(acks[..i], [])
    {
      events := events + [AckEventOf(acks[i])];
      i := i + 1;
      assert events == AllEvents(acks[..i], []);
    }
    assert acks[..i] == acks;
    var j := 0;
    while j < |logs|
      invariant 0 <= j <= |logs|
      invariant events == AllEvents(acks, logs[..j])
    {
      events := events + [TestEventOf(logs[j])];
      j := j + 1;
      assert events == AllEvents(acks, logs[..j]);
    }
    assert logs[..j] == logs;
  }

  /** `events.filter((e) => e.time)`. */
  method KeepTimed(events: seq<Event>) returns (timed: seq<Event>)
    ensures timed == Timed(events)
    ensures forall k :: 0 <= k < |timed| ==> timed[k].time.Some?
  {
    timed := [];
    var f := 0;
    while f < |events|
      invariant 0 <= f <= |events|
      invariant timed == Timed(events[..f])
      invariant forall k :: 0 <= k < |timed| ==> timed[k].time.Some?
    {
      assert events[..f + 1][..f] == events[..f];
      if events[f].time.Some? {
        timed := timed + [events[f]];
      }
      f := f + 1;
    }
    assert events[..f] == events;
  }

  /** The newest-first sort, as insertions that keep equal times in their original order. */
  method SortNewestFirst(timed: seq<Event>) returns (sorted: seq<Event>)
    requires forall k :: 0 <= k < |timed| ==> timed[k].time.Some?
    ensures NewestFirst(sorted)
    ensures multiset(sorted) == multiset(timed)
  {
    sorted := [];
    var s := 0;
    while s < |timed|
      invariant 0 <= s <= |timed|
      invariant NewestFirst(sorted)
      invariant multiset(sorted) == multiset(timed[..s])
    {
      InsertByTimeOrdered(sorted, timed[s]);
      InsertByTimeElements(sorted, timed[s]);
      sorted := InsertByTime(sorted, timed[s]);
      assert timed[..s + 1] == timed[..s] + [timed[s]];
      s := s + 1;
    }
    assert timed[..s] == timed;
  }

  /** An element of a newest-first list that is not among its first `n` is no newer than any of them. */
  lemma LeftOutNoNewer(sorted: seq<Event>, n: nat, e: Event)
    requires NewestFirst(sorted) && n <= |sorted|
    requires e in multiset(sorted) - multiset(sorted[..n])
    ensures e.time.Some? && forall k :: 0 <= k < n ==> sorted[k].time.value >= e.time.value
  {
    var front, back := sorted[..n], sorted[n..];
    assert sorted == front + back;
    assert multiset(sorted) == multiset(front) + multiset(back);
    assert e in back;
    var p :| 0 <= p < |back| && back[p] == e;
    assert e == sorted[n + p];
  }

  /** The first `n` of a newest-first list are newest first, and at least as new as every element after them. */
  lemma TakeNewest(sorted: seq<Event>, latest: seq<Event>, n: nat)
    requires NewestFirst(sorted) && n <= |sorted| && latest == sorted[..n]
    ensures NewestFirst(latest)
    ensures multiset(latest) <= multiset(sorted)
    ensures forall e :: e in multiset(sorted) - multiset(latest) ==>
              e.time.Some? && forall k :: 0 <= k < |latest| ==> latest[k].time.value >= e.time.value
  {
    assert sorted == latest + sorted[n..];
    assert multiset(sorted) == multiset(latest) + multiset(sorted[n..]);
    assert forall k :: 0 <= k < |latest| ==> latest[k] == sorted[k];
    forall e | e in multiset(sorted) - multiset(latest)
      ensures e.time.Some? && forall k :: 0 <= k < |latest| ==> latest[k].time.value >= e.time.value
    {
      LeftOutNoNewer(sorted, n, e);
    }
  }

  /** `latestEvents`: at most ten timed events, newest first, each one of the logged events; every timed
      event left out is no newer than any event shown. */
  method LatestEvents(acks: seq<AckLog>, logs: seq<TestLog>) returns (latest: seq<Event>)
    ensures |latest| == Min(10, |Timed(AllEvents(acks, logs))|)
    ensures NewestFirst(latest)
    ensures multiset(latest) <= multiset(Timed(AllEvents(acks, logs)))
    ensures forall e :: e in multiset(Timed(AllEvents(acks, logs))) - multiset(latest) ==>
              e.time.Some? && forall k :: 0 <= k < |latest| ==> latest[k].time.value >= e.time.value
  {
    var events := CollectEvents(acks, logs);
    var timed := KeepTimed(events);
    var sorted := SortNewestFirst(timed);
    assert |sorted| == |timed| by {
      assert |multiset(sorted)| == |multiset(timed)|;
    }
    latest := sorted[..Min(10, |sorted|)];
    TakeNewest(sorted, latest, Min(10, |sorted|));
  }
}
