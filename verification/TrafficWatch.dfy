/** What the traffic poll finds out, told from the list of its readings alone: when a
    connection that only sends is noticed, and when it is put to the test. */
module TrafficWatch {
  import opened NetStatPoll

  /** A poll that has just been started. */
  predicate Fresh(p: Poll) {
    && p.enabled && !p.pingActive && p.txPkts == p.rxPkts == -1
    && p.sentSinceLastRecv == 0 && p.noRecvPollCount == 0
  }

  /** The posts that run one after the other; none is queued any more after a ping test
      has been started. */
  function AfterReadings(p: Poll, rs: seq<Reading>): Poll {
    if rs == [] then p
    else
      var q := AfterReadings(p, rs[..|rs| - 1]);
      if q.enabled then Ran(q.(posts := 0), rs[|rs| - 1]) else q
  }

  /** Only readings behind one with a positive counter are compared with it. */
  predicate Compared(a: Reading) {
    a.tx > 0 || a.rx > 0
  }

  /** From a to b nothing was received, and what was sent was sent while the phone was idle. */
  predicate Quiet(a: Reading, b: Reading) {
    Compared(a) ==> b.rx == a.rx && a.tx <= b.tx && (a.tx < b.tx ==> b.phoneIdle)
  }

  /** From a to b something was received. */
  predicate Answered(a: Reading, b: Reading) {
    Compared(a) && a.rx < b.rx && a.tx <= b.tx
  }

  /** The reading that all later ones are quiet after. */
  function Since(rs: seq<Reading>): (i: nat)
    requires rs != []
    ensures i < |rs| && (i == 0 || !Quiet(rs[i - 1], rs[i]))
    ensures forall j :: i < j < |rs| ==> Quiet(rs[j - 1], rs[j])
  {
    var n := |rs| - 1;
    if n == 0 || !Quiet(rs[n - 1], rs[n]) then n
    else
      assert forall j :: 0 <= j < n ==> rs[..n][j] == rs[j];
      Since(rs[..n])
  }

  /** The packets sent after reading i, as far as readings were compared. */
  function Sent(rs: seq<Reading>, i: nat): int
    requires i < |rs|
    decreases |rs|
  {
    var n := |rs| - 1;
    if i == n then 0
    else Sent(rs[..n], i) + if Compared(rs[n - 1]) then rs[n].tx - rs[n - 1].tx else 0
  }

  /** Once the counters are positive, that is the difference of the transmit counters. */
  lemma {:induction false} SentIsDifference(rs: seq<Reading>, i: nat)
    requires i < |rs| && forall j :: i <= j < |rs| ==> Compared(rs[j])
    ensures Sent(rs, i) == rs[|rs| - 1].tx - rs[i].tx
    decreases |rs|
  {
    var n := |rs| - 1;
    if i < n {
      assert forall j :: i <= j < n ==> rs[..n][j] == rs[j];
      SentIsDifference(rs[..n], i);
    }
  }

  /** How much was sent that nothing has been received after. */
  function Unanswered(rs: seq<Reading>): int
    requires rs != []
  {
    Sent(rs, Since(rs))
  }

  /** For how many readings in a row, up to the last one, that has reached the trigger. */
  function HungFor(rs: seq<Reading>): nat {
    if rs == [] || Unanswered(rs) < rs[|rs| - 1].trigger then 0
    else HungFor(rs[..|rs| - 1]) + 1
  }

  lemma CountedStep(q: Poll, a: Reading, b: Reading)
    requires q.enabled && q.txPkts == a.tx && q.rxPkts == a.rx
    ensures var c := Counted(q, b);
            && c.sentSinceLastRecv ==
                 (if !Quiet(a, b) then 0 else q.sentSinceLastRecv + if Compared(a) then b.tx - a.tx else 0)
            && c.pdpResetCount == (if Answered(a, b) then 0 else q.pdpResetCount)
  {
  }

  lemma CountedFirst(q: Poll, b: Reading)
    requires q.txPkts == q.rxPkts == -1
    ensures Counted(q, b).sentSinceLastRecv == q.sentSinceLastRecv && Counted(q, b).pdpResetCount == q.pdpResetCount
  {
  }

  lemma RanCounts(q: Poll, r: Reading)
    ensures var p := Ran(q, r);
            && p.sentSinceLastRecv == Counted(q, r).sentSinceLastRecv
            && p.pdpResetCount == Counted(q, r).pdpResetCount && p.txPkts == r.tx && p.rxPkts == r.rx
            && p.pingResults == q.pingResults
  {
  }

  lemma SinceStep(rs: seq<Reading>)
    requires |rs| > 1
    ensures var n := |rs| - 1;
            if Quiet(rs[n - 1], rs[n]) then
              && Since(rs) == Since(rs[..n])
              && Unanswered(rs) == Unanswered(rs[..n]) + if Compared(rs[n - 1]) then rs[n].tx - rs[n - 1].tx else 0
            else Since(rs) == n && Unanswered(rs) == 0
  {
  }

  /** Once the poll has run, the packets counted are those sent since the last reading that
      received something or sent during a call (or counted backwards), or the first one. */
  lemma {:induction false} SentIsUnanswered(p: Poll, rs: seq<Reading>)
    requires Fresh(p) && rs != [] && AfterReadings(p, rs[..|rs| - 1]).enabled
    ensures var q := AfterReadings(p, rs);
            && q.sentSinceLastRecv == Unanswered(rs)
            && q.txPkts == rs[|rs| - 1].tx && q.rxPkts == rs[|rs| - 1].rx
    decreases |rs|
  {
    hide Ran, Counted, Quiet, Fresh, Since, Unanswered, Compared;
    var n := |rs| - 1;
    var q := AfterReadings(p, rs[..n]);
    RanCounts(q.(posts := 0), rs[n]);
    if n == 0 {
      FreshStart(p);
      CountedFirst(p.(posts := 0), rs[0]);
      OneReading(rs);
    } else {
      EnabledBefore(p, rs[..n]);
      SentIsUnanswered(p, rs[..n]);
      SinceStep(rs);
      CountedStep(q.(posts := 0), rs[n - 1], rs[n]);
    }
  }

  lemma OneReading(rs: seq<Reading>)
    requires |rs| == 1
    ensures Unanswered(rs) == 0
  {
  }

  lemma FreshStart(p: Poll)
    requires Fresh(p)
    ensures p.txPkts == p.rxPkts == -1 && p.sentSinceLastRecv == 0 && p.noRecvPollCount == 0 && p.enabled
  {
  }

  lemma EnabledBefore(p: Poll, rs: seq<Reading>)
    requires AfterReadings(p, rs).enabled && rs != []
    ensures AfterReadings(p, rs[..|rs| - 1]).enabled
  {
    hide Ran;
  }

  /** The ladder of recoveries begins anew exactly when something has been received. */
  lemma {:induction false} ResetCountKept(p: Poll, rs: seq<Reading>)
    requires Fresh(p) && rs != [] && AfterReadings(p, rs[..|rs| - 1]).enabled
    ensures AfterReadings(p, rs).pdpResetCount
         == if exists j :: 0 < j < |rs| && Answered(rs[j - 1], rs[j]) then 0 else p.pdpResetCount
    decreases |rs|
  {
    hide Ran, Counted, Answered, Quiet, Fresh;
    var n := |rs| - 1;
    var q := AfterReadings(p, rs[..n]);
    RanCounts(q.(posts := 0), rs[n]);
    if n == 0 {
      FreshStart(p);
      CountedFirst(p.(posts := 0), rs[0]);
    } else {
      EnabledBefore(p, rs[..n]);
      ResetCountKept(p, rs[..n]);
      SentIsUnanswered(p, rs[..n]);
      CountedStep(q.(posts := 0), rs[n - 1], rs[n]);
      assert forall j :: 0 <= j < n ==> rs[..n][j] == rs[j];
    }
  }

  /** The decision of one run. */
  lemma Decides(q: Poll, r: Reading)
    requires q.enabled && !q.pingActive
    ensures var p := Ran(q.(posts := 0), r);
            var hung := Counted(q, r).sentSinceLastRecv >= r.trigger;
            && p.noRecvPollCount == (if !hung then 0 else if q.noRecvPollCount < r.limit then q.noRecvPollCount + 1
                                     else q.noRecvPollCount)
            && p.enabled == (!hung || q.noRecvPollCount < r.limit)
            && p.pingActive == !p.enabled && p.posts == (if p.enabled then 1 else 0)
            && p.pingThreads == q.pingThreads + (if p.enabled then 0 else 1)
  {
  }

  /** A ping test is started at a reading exactly when it is the one after limit readings
      in a row that had reached the trigger, and has reached it too; until then the poll
      goes on, and has counted them. */
  lemma {:induction false} PingWhenHung(p: Poll, rs: seq<Reading>, limit: nat)
    requires Fresh(p) && rs != [] && AfterReadings(p, rs[..|rs| - 1]).enabled
    requires forall i :: 0 <= i < |rs| ==> rs[i].limit == limit
    ensures var q := AfterReadings(p, rs);
            && q.enabled == (HungFor(rs) <= limit) && q.pingActive == (HungFor(rs) == limit + 1)
            && q.pingThreads == p.pingThreads + (if q.pingActive then 1 else 0)
            && (q.enabled ==> q.noRecvPollCount == HungFor(rs))
    decreases |rs|
  {
    hide Ran, Counted, Quiet, Since, Unanswered;
    var n := |rs| - 1;
    var q := AfterReadings(p, rs[..n]);
    if n > 0 {
      EnabledBefore(p, rs[..n]);
      assert forall i :: 0 <= i < n ==> rs[..n][i] == rs[i];
      PingWhenHung(p, rs[..n], limit);
    }
    SentIsUnanswered(p, rs);
    RanCounts(q.(posts := 0), rs[n]);
    SamePosts(q, rs[n]);
    Decides(q, rs[n]);
  }

  lemma SamePosts(q: Poll, r: Reading)
    ensures Counted(q.(posts := 0), r).sentSinceLastRecv == Counted(q, r).sentSinceLastRecv
  {
  }

  /** The poll stays on over a list of readings exactly when at none of them the trigger
      had been reached more than limit times in a row. */
  lemma {:induction false} PollingGoesOn(p: Poll, rs: seq<Reading>, limit: nat)
    requires Fresh(p)
    requires forall i :: 0 <= i < |rs| ==> rs[i].limit == limit
    ensures AfterReadings(p, rs).enabled <==> forall k :: 0 <= k <= |rs| ==> HungFor(rs[..k]) <= limit
    decreases |rs|
  {
    hide Ran, HungFor, Fresh;
    assert rs[..|rs|] == rs;
    if rs == [] {
      FreshStart(p);
      NotHung();
    } else {
      var n := |rs| - 1;
      PollingGoesOn(p, rs[..n], limit);
      assert forall k :: 0 <= k <= n ==> rs[..n][..k] == rs[..k];
      if AfterReadings(p, rs[..n]).enabled {
        PingWhenHung(p, rs, limit);
      }
    }
  }

  lemma NotHung()
    ensures HungFor([]) == 0
  {
  }

  /** Starting the poll is its first reading, with fresh statistics. */
  lemma StartIsFirstReading(p: Poll, r: Reading)
    requires !p.pingActive && !p.enabled
    ensures var f := ResetStats(p).(enabled := true);
            && Fresh(f) && Started(p, true, r) == Ran(f, r)
            && Started(p, true, r).sentSinceLastRecv == 0
    ensures p.posts == 0 ==> Started(p, true, r) == AfterReadings(ResetStats(p).(enabled := true), [r])
  {
    assert [r][..0] == [];
  }
}
