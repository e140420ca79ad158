/** What the tracker's events are for: a scan goes on until every access point has been
    tried, a lost connection is set up again, the poll runs while it should, and what hangs
    is recovered in steps. */
module TrackerLaws {
  import opened CText
  import opened Numerals
  import opened NetStatPoll
  import opened TrafficWatch
  import opened DataTracker

  /** The connection can take a request. */
  predicate Free(t: Tracker) {
    !t.connecting && t.disconnecting == 0
  }

  predicate Willing(s: Setup) {
    s.allowed && s.inactive
  }

  // ----- Scans -----

  /** A connect to the first access point of the queue has gone out; nothing else changed. */
  predicate ConnectsFirst(t: Tracker, u: Tracker) {
    && Waiting(t) != []
    && u == t.(state := Initing, connecting := true, activeApn := Some(Waiting(t)[0]))
  }

  /** From SCANNING, an attempt connects the next access point of the queue when data is
      allowed and the connection free, and otherwise changes nothing. */
  lemma ScanGoesOn(t: Tracker, s: Setup)
    requires ScanInv(t) && t.state == Scanning
    ensures var u := Handle(t, TrySetupData(s));
            && u.Some?
            && (Willing(s) && Free(t) ==> ConnectsFirst(t, u.value))
            && (!Willing(s) || !Free(t) ==> u.value == t)
  {
    hide Permanent;
  }

  /** From IDLE, an attempt builds a new queue and connects its first access point. */
  lemma ScanBegins(t: Tracker, s: Setup)
    requires ScanInv(t) && t.state == Idle
    ensures var u := Handle(t, TrySetupData(s));
            && u.Some?
            && (!s.allowed ==> u.value == t)
            && (s.allowed ==>
                  var b := t.(waitingApns := Some(s.apns), countDown := |s.apns|, built := |s.apns|, failures := []);
                  if s.apns == [] then u.value == b.(state := Failed)
                  else if s.inactive && Free(t) then ConnectsFirst(b, u.value)
                  else u.value == b)
  {
    hide Permanent;
  }

  /** The access points that connects have gone out to, in order. */
  function Connects(t: Tracker, es: seq<Event>): seq<Apn> {
    if es == [] then []
    else
      var front := es[..|es| - 1];
      match (Run(t, front), Run(t, es))
      case (Some(u), Some(v)) =>
        if !u.connecting && v.connecting && v.activeApn.Some? then Connects(t, front) + [v.activeApn.value]
        else Connects(t, front)
      case _ => Connects(t, front)
  }

  /** A failed connect, and the attempt that follows it. */
  datatype Round = Round(permanent: bool, retry: Retry, setup: Setup)

  function RoundEvents(rounds: seq<Round>): seq<Event> {
    if rounds == [] then []
    else
      var r := rounds[|rounds| - 1];
      RoundEvents(rounds[..|rounds| - 1]) + [SetupComplete(Failure(r.permanent, r.retry)), TrySetupData(r.setup)]
  }

  function Permanents(rounds: seq<Round>): (r: seq<bool>)
    ensures |r| == |rounds| && forall i :: 0 <= i < |r| ==> r[i] == rounds[i].permanent
  {
    seq(|rounds|, i requires 0 <= i < |rounds| => rounds[i].permanent)
  }

  predicate AllWilling(rounds: seq<Round>) {
    forall i :: 0 <= i < |rounds| ==> Willing(rounds[i].setup)
  }

  lemma RunSnoc(t: Tracker, es: seq<Event>, e: Event)
    requires Run(t, es).Some?
    ensures var u := Run(t, es).value;
            Run(t, es + [e]) == if Possible(u, e) then Handle(u, e) else Some(u)
    ensures Run(t, es + [e]).Some? ==>
              var u, v := Run(t, es).value, Run(t, es + [e]).value;
              Connects(t, es + [e]) ==
                if !u.connecting && v.connecting && v.activeApn.Some? then Connects(t, es) + [v.activeApn.value]
                else Connects(t, es)
  {
    hide Handle, Possible;
    assert (es + [e])[..|es + [e]| - 1] == es;
  }

  /** A scan of apns in which the first k have failed and the next one is being tried. */
  predicate Trying(t: Tracker, apns: seq<Apn>, failures: seq<bool>) {
    var k := |failures|;
    && k < |apns| && t.state == Initing && t.connecting && t.disconnecting == 0
    && t.waitingApns == Some(apns[k..]) && t.activeApn == Some(apns[k])
    && t.failures == failures
  }

  predicate GivenUp(t: Tracker, failures: seq<bool>) {
    t.state == Failed && !t.connecting && Waiting(t) == [] && t.failures == failures
  }

  lemma OneRound(t: Tracker, apns: seq<Apn>, failures: seq<bool>, r: Round)
    requires Trying(t, apns, failures) && Willing(r.setup)
    ensures var m := SetupCompleted(t, Failure(r.permanent, r.retry));
            && m.Some? && !m.value.connecting
            && var u := TrySetup(m.value, r.setup);
               var all := failures + [r.permanent];
               if |all| < |apns| then Trying(u, apns, all) else GivenUp(u, all)
  {
    assert apns[|failures|..][1..] == apns[|failures| + 1..];
  }

  lemma FirstTry(t: Tracker, apns: seq<Apn>)
    requires t.state == Idle && Free(t) && apns != []
    ensures Trying(TrySetup(t, Setup(true, apns, true)), apns, [])
  {
    assert apns[0..] == apns;
  }

  lemma ConnectsNone(t: Tracker)
    ensures Connects(t, []) == [] && Run(t, []) == Some(t)
  {
  }

  predicate Progress(t: Tracker, es: seq<Event>, apns: seq<Apn>, failures: seq<bool>) {
    && Run(t, es).Some?
    && var u := Run(t, es).value;
       if |failures| < |apns| then Trying(u, apns, failures) && Connects(t, es) == apns[..|failures| + 1]
       else GivenUp(u, failures) && Connects(t, es) == apns
  }

  lemma {:induction false} ScanProgress(t: Tracker, apns: seq<Apn>, rounds: seq<Round>)
    requires t.state == Idle && Free(t) && apns != [] && |rounds| <= |apns| && AllWilling(rounds)
    ensures Progress(t, [TrySetupData(Setup(true, apns, true))] + RoundEvents(rounds), apns, Permanents(rounds))
    decreases |rounds|
  {
    hide Run, Handle, Possible, Connects, Trying, GivenUp, TrySetup, SetupCompleted, Willing;
    var e := TrySetupData(Setup(true, apns, true));
    if rounds == [] {
      assert [e] + RoundEvents(rounds) == [] + [e];
      FirstTry(t, apns);
      BeginsProgress(t, apns);
      assert Permanents(rounds) == [];
    } else {
      var k := |rounds| - 1;
      var front, r := rounds[..k], rounds[k];
      ScanProgress(t, apns, front);
      assert Willing(r.setup);
      RoundProgress(t, [e] + RoundEvents(front), apns, Permanents(front), r);
      var fail, again := SetupComplete(Failure(r.permanent, r.retry)), TrySetupData(r.setup);
      assert [e] + RoundEvents(front) + [fail] + [again] == [e] + RoundEvents(rounds);
      assert Permanents(front) + [r.permanent] == Permanents(rounds);
    }
  }

  lemma BeginsProgress(t: Tracker, apns: seq<Apn>)
    requires t.state == Idle && Free(t) && apns != []
    requires Trying(TrySetup(t, Setup(true, apns, true)), apns, [])
    ensures Progress(t, [] + [TrySetupData(Setup(true, apns, true))], apns, [])
  {
    hide Run, Connects, TrySetup;
    ConnectsNone(t);
    RunSnoc(t, [], TrySetupData(Setup(true, apns, true)));
    assert apns[..1] == [apns[0]];
  }

  lemma RoundProgress(t: Tracker, es: seq<Event>, apns: seq<Apn>, failures: seq<bool>, r: Round)
    requires Progress(t, es, apns, failures) && |failures| < |apns| && Willing(r.setup)
    ensures Progress(t, es + [SetupComplete(Failure(r.permanent, r.retry))] + [TrySetupData(r.setup)],
                     apns, failures + [r.permanent])
  {
    hide Run, Connects, TrySetup, SetupCompleted, Willing;
    var u := Run(t, es).value;
    OneRound(u, apns, failures, r);
    var e := SetupComplete(Failure(r.permanent, r.retry));
    RunSnoc(t, es, e);
    RunSnoc(t, es + [e], TrySetupData(r.setup));
    if |failures| + 1 < |apns| {
      assert apns[..|failures| + 2] == apns[..|failures| + 1] + [apns[|failures| + 1]];
    } else {
      assert apns[..|failures| + 1] == apns;
    }
  }

  /** A scan whose connects all fail tries each access point once, in the order of the
      list, and has then failed; whatever had happened before it. */
  lemma {:induction false} ScanTriesAll(t: Tracker, apns: seq<Apn>, rounds: seq<Round>)
    requires t.state == Idle && Free(t)
    requires apns != [] && |rounds| == |apns| && AllWilling(rounds)
    ensures var scan := [TrySetupData(Setup(true, apns, true))] + RoundEvents(rounds);
            && Connects(t, scan) == apns
            && Run(t, scan).Some? && GivenUp(Run(t, scan).value, Permanents(rounds))
  {
    hide Run, Connects, RoundEvents, Willing;
    ScanProgress(t, apns, rounds);
  }

  /** A connect that succeeds ends the scan: connected, polling with fresh statistics, and
      a later failure may register again. */
  lemma ConnectSucceeds(t: Tracker, r: Reading)
    requires ScanInv(t) && t.connecting && !t.poll.enabled && !t.poll.pingActive && t.poll.posts == 0
    ensures var u := Handle(t, SetupComplete(Success(r)));
            && u.Some?
            && u.value == t.(state := Connected, connecting := false, reregisterOnFailure := false,
                             poll := AfterReadings(ResetStats(t.poll).(enabled := true), [r]))
  {
    hide Ran, ResetStats, Permanent;
    StartIsFirstReading(t.poll, r);
    assert [r][..0] == [];
  }

  // ----- Coming back -----

  /** The tracker has dropped its connection and waits for the disconnect to complete. */
  predicate Leaving(t: Tracker, u: Tracker) {
    && u.state == Disconnecting && u.disconnecting == t.disconnecting + 1
    && !u.retryIntent && !u.poll.enabled && u.poll.posts == 0
    && u.waitingApns == t.waitingApns && u.activeApn == t.activeApn && u.connecting == t.connecting
  }

  /** The tracker has dropped its connection at once. */
  predicate Dropped(u: Tracker) {
    && u.state == Idle && u.activeApn == None && Free(u)
    && !u.retryIntent && !u.poll.enabled && u.poll.posts == 0
  }

  /** Which events take a connection down, by a disconnect or at once. */
  lemma TakenDown(t: Tracker, e: Event)
    ensures e == CleanUp(true) || (e.RadioAvailable? && t.state != Idle)
              || (e.PdpDropped? && t.state == Connected) ==>
              Handle(t, e).Some? && Leaving(t, Handle(t, e).value)
    ensures (e == CleanUp(false) || e.RadioOff? || (e.RecordsLoaded? && t.state == Failed)) ==>
              Handle(t, e).Some? && Dropped(Handle(t, e).value)
    ensures (e.RadioAvailable? && t.state == Idle) ==> Handle(t, e) == Some(t)
    ensures (e.PdpDropped? && t.state != Connected) ==> Handle(t, e) == Some(t)
    ensures (e.RecordsLoaded? && t.state != Failed) ==> Handle(t, e) == Some(t)
    ensures e.RadioOff? ==> !Handle(t, e).value.reregisterOnFailure
    ensures e.CleanUp? ==> Handle(t, e).value.reregisterOnFailure == t.reregisterOnFailure
    ensures e.ResetComplete? ==>
              Handle(t, e) == Some(t.(state := Idle, connecting := false, disconnecting := 0, activeApn := None))
  {
  }

  /** A new scan of apns is under way. */
  predicate Rescans(u: Tracker, apns: seq<Apn>) {
    && u.state == Initing && u.connecting && u.waitingApns == Some(apns) && apns != []
    && u.activeApn == Some(apns[0]) && u.countDown == |apns| && u.failures == []
  }

  /** Once the last disconnect is complete, the connection is set up anew, unless the radio
      was turned off. */
  lemma ComesBack(t: Tracker, again: bool, s: Setup)
    requires t.disconnecting == 1 && s.apns != [] && Willing(s)
    ensures var u := Handle(t, DisconnectComplete(again, s));
            && u.Some?
            && (again ==> Rescans(u.value, s.apns))
            && (!again ==> u.value.state == Idle && u.value.activeApn == None && Free(u.value))
  {
  }

  /** Service that comes back ends the failed state. */
  lemma AttachedComesBack(t: Tracker, s: Setup, r: Reading)
    requires t.state == Failed && s.apns != [] && Willing(s)
    ensures var u := Handle(t, GprsAttached(s, r));
            u.Some? && Rescans(u.value, s.apns) && u.value.reregisterOnFailure == t.reregisterOnFailure
  {
  }

  /** So does the end of restrictions, which also allows another registration. */
  lemma UnrestrictedComesBack(t: Tracker, s: Setup, r: Reading)
    requires t.state == Failed && s.apns != [] && Willing(s)
    ensures var u := Handle(t, PsUnrestricted(s, r));
            u.Some? && Rescans(u.value, s.apns) && !u.value.reregisterOnFailure
  {
  }

  /** A mere attempt does not, and neither does the end of a call, which only allows
      another registration. */
  lemma FailedStays(t: Tracker, s: Setup, r: Reading, concurrent: bool)
    requires t.state == Failed
    ensures Handle(t, TrySetupData(s)) == Some(t)
    ensures Handle(t, CallEnded(concurrent, s, r)) == Some(t.(reregisterOnFailure := false))
  {
  }

  /** The same events are attempts like any other when the tracker is idle or scanning. */
  lemma OtherAttempts(t: Tracker, s: Setup, r: Reading, concurrent: bool)
    requires t.state == Idle || t.state == Scanning
    ensures Handle(t, GprsAttached(s, r)) == Handle(t, TrySetupData(s)) == Handle(t, PsUnrestricted(s, r))
    ensures Handle(t, CallEnded(concurrent, s, r)) == Handle(t.(reregisterOnFailure := false), TrySetupData(s))
  {
    hide SetupData, Built, WithState;
  }

  // ----- The poll -----

  /** What stops the poll: no service, restriction, or a call that data cannot go along with. */
  lemma PollStops(t: Tracker, concurrent: bool)
    ensures var stopped := Some(t.(poll := t.poll.(enabled := false, posts := 0)));
            && Handle(t, GprsDetached) == stopped && Handle(t, PsRestricted) == stopped
            && Handle(t, CallStarted(concurrent)) ==
                 (if t.state == Connected && !concurrent then stopped else Some(t))
            && forall r :: t.state != Connected ==> Handle(t, ScreenChanged(r)) == stopped
  {
  }

  /** What starts it again while connected: a first reading with fresh statistics, when it
      does not run and no ping test is under way. */
  lemma PollStarts(t: Tracker, s: Setup, r: Reading)
    requires t.state == Connected && !t.poll.enabled && t.poll.posts == 0
    ensures var u := if t.poll.pingActive then t
                     else t.(poll := AfterReadings(ResetStats(t.poll).(enabled := true), [r]));
            && Handle(t, GprsAttached(s, r)) == Some(u) && Handle(t, PsUnrestricted(s, r)) == Some(u)
            && Handle(t, CallEnded(false, s, r)) == Some(u) && Handle(t, ScreenChanged(r)) == Some(u)
  {
    hide Ran, ResetStats;
    assert t.poll.(enabled := false, posts := 0) == t.poll;
    assert [r][..0] == [];
    if !t.poll.pingActive {
      StartIsFirstReading(t.poll, r);
    }
  }

  /** A running poll goes on, but the screen starts it afresh, and so does the end of a call
      for its statistics. */
  lemma PollRuns(t: Tracker, s: Setup, r: Reading)
    requires t.state == Connected && t.poll.enabled && !t.poll.pingActive
    ensures Handle(t, GprsAttached(s, r)) == Some(t) && Handle(t, PsUnrestricted(s, r)) == Some(t)
    ensures Handle(t, CallEnded(false, s, r)) == Some(t)
    ensures Handle(t, CallEnded(true, s, r)) ==
              Some(t.(poll := t.poll.(txPkts := -1, rxPkts := -1, sentSinceLastRecv := 0, noRecvPollCount := 0)))
    ensures Handle(t, ScreenChanged(r)) ==
              Some(t.(poll := AfterReadings(ResetStats(t.poll).(enabled := true, posts := 0), [r])))
  {
    hide Ran;
    assert [r][..0] == [];
    StartIsFirstReading(t.poll.(enabled := false, posts := 0), r);
  }

  function Posts(rs: seq<Reading>): seq<Event> {
    if rs == [] then [] else Posts(rs[..|rs| - 1]) + [PollNetStat(rs[|rs| - 1])]
  }

  /** The posts of a poll that run one after the other go through its readings. */
  lemma {:induction false} PostsRun(t: Tracker, rs: seq<Reading>)
    requires t.poll.posts == (if t.poll.enabled then 1 else 0) && (t.poll.pingActive ==> !t.poll.enabled)
    ensures var u := Run(t, Posts(rs));
            && u.Some? && u.value == t.(poll := AfterReadings(t.poll, rs))
            && u.value.poll.posts == (if u.value.poll.enabled then 1 else 0)
            && (u.value.poll.pingActive ==> !u.value.poll.enabled)
    decreases |rs|
  {
    hide Ran;
    if rs != [] {
      var n := |rs| - 1;
      PostsRun(t, rs[..n]);
      RunSnoc(t, Posts(rs[..n]), PollNetStat(rs[n]));
      var u := Run(t, Posts(rs[..n])).value;
      if u.poll.enabled {
        Decides(u.poll, rs[n]);
      }
    }
  }

  /** From the moment of connecting: the poll goes on over the readings rs that follow r
      exactly as long as at none of them the trigger had been reached more than limit times
      in a row; then a ping test is started, and only then. */
  lemma HangIsFound(t: Tracker, r: Reading, rs: seq<Reading>, limit: nat)
    requires ScanInv(t) && t.connecting && !t.poll.enabled && !t.poll.pingActive && t.poll.posts == 0
    requires forall i :: 0 <= i < |[r] + rs| ==> ([r] + rs)[i].limit == limit
    ensures var c := Handle(t, SetupComplete(Success(r)));
            && c.Some? && Run(c.value, Posts(rs)).Some?
            && var u := Run(c.value, Posts(rs)).value;
               && (u.poll.enabled <==> forall k :: 0 <= k <= |[r] + rs| ==> HungFor(([r] + rs)[..k]) <= limit)
               && u.poll.pingActive == !u.poll.enabled
  {
    hide Handle, Run, Ran, ScanInv, HungFor, AfterReadings, ResetStats;
    ConnectSucceeds(t, r);
    var f := ResetStats(t.poll).(enabled := true);
    FreshWhenReset(t.poll);
    var c := Handle(t, SetupComplete(Success(r))).value;
    FirstPosts(f, r);
    PostsRun(c, rs);
    AppendReadings(f, r, rs);
    PollingGoesOn(f, [r] + rs, limit);
    TestOrPoll(f, [r] + rs);
  }

  lemma FreshWhenReset(p: Poll)
    requires !p.pingActive
    ensures Fresh(ResetStats(p).(enabled := true))
  {
  }

  lemma FirstPosts(f: Poll, r: Reading)
    requires f.enabled && !f.pingActive
    ensures var p := AfterReadings(f, [r]);
            p.posts == (if p.enabled then 1 else 0) && (p.pingActive ==> !p.enabled)
  {
    hide Ran;
    assert [r][..0] == [];
    Decides(f, r);
  }

  lemma {:induction false} AppendReadings(p: Poll, r: Reading, rs: seq<Reading>)
    ensures AfterReadings(AfterReadings(p, [r]), rs) == AfterReadings(p, [r] + rs)
    decreases |rs|
  {
    hide Ran;
    if rs == [] {
      assert [r] + rs == [r];
    } else {
      AppendReadings(p, r, rs[..|rs| - 1]);
      assert ([r] + rs)[..|[r] + rs| - 1] == [r] + rs[..|rs| - 1];
    }
  }

  lemma {:induction false} TestOrPoll(p: Poll, rs: seq<Reading>)
    requires p.enabled && !p.pingActive
    ensures AfterReadings(p, rs).pingActive == !AfterReadings(p, rs).enabled
    decreases |rs|
  {
    hide Ran;
    if rs != [] {
      var q := AfterReadings(p, rs[..|rs| - 1]);
      TestOrPoll(p, rs[..|rs| - 1]);
      if q.enabled {
        Decides(q, rs[|rs| - 1]);
      }
    }
  }

  // ----- Recovery -----

  /** The end of a ping test is a message, and its handler polls again or recovers. */
  lemma PingHandled(t: Tracker, reached: bool, r: Reading)
    requires t.poll.pingActive && !t.poll.enabled && t.poll.posts == 0
    requires t.poll.pingThreads == 1 && t.poll.pingResults == 0
    ensures var m := Handle(t, PingEnds(reached));
            && m.Some? && m.value.poll.pingThreads == 0 && m.value.poll.pingResults == 1
            && m.value.poll.pdpResetCount == (if reached then 0 else t.poll.pdpResetCount)
            && var u := Handle(m.value, StartNetStatPoll(r));
               && u.Some? && u.value.poll.pingResults == 0
               && (t.state != Connected ==> !u.value.poll.enabled && !u.value.poll.pingActive)
               && (t.state == Connected ==>
                     u.value.poll == AfterReadings(ResetStats(m.value.poll).(enabled := true, pingActive := false,
                                                                             pingResults := 0), [r]))
  {
    hide Ran;
    assert [r][..0] == [];
    var m := Handle(t, PingEnds(reached)).value;
    var h := m.poll.(pingActive := false, pingResults := 0);
    assert Heard(m) == m.(poll := h) && Handle(m, StartNetStatPoll(r)) == Some(StartPoll(m.(poll := h), r));
    StartIsFirstReading(h, r);
    RanCounts(ResetStats(h).(enabled := true), r);
    assert ResetStats(h).(enabled := true)
        == ResetStats(m.poll).(enabled := true, pingActive := false, pingResults := 0);
  }

  /** A failed ping test that finds the connection gone leaves it at that. */
  lemma NothingToRecover(t: Tracker, maxReset: int)
    requires t.state != Connected && t.poll.pingResults == 1
    ensures Handle(t, StartRecovery(maxReset)) == Some(t.(poll := t.poll.(pingActive := false, pingResults := 0)))
  {
  }

  /** n failed ping tests, each on a connection that is up again. */
  function Recoveries(t: Tracker, n: nat, maxReset: nat): Tracker {
    if n == 0 then t
    else
      var u := Recoveries(t, n - 1, maxReset).(state := Connected);
      match Handle(u, StartRecovery(maxReset))
      case None => u
      case Some(v) => v
  }

  /** The ladder: the connection is reset maxReset times, then the network is registered
      with anew, and so on; and it stays up exactly in the latter case. */
  lemma {:induction false} Ladder(t: Tracker, n: nat, maxReset: nat)
    requires t.poll.pdpResetCount == 0
    ensures var u := Recoveries(t, n, maxReset);
            && u.poll.pdpResetCount == n % (maxReset + 1)
            && u.reregistered == t.reregistered + n / (maxReset + 1)
            && u.disconnecting == t.disconnecting + n - n / (maxReset + 1)
            && (n > 0 ==> u.state == if n % (maxReset + 1) == 0 then Connected else Disconnecting)
  {
    if n > 0 {
      hide Recovered, Heard;
      Ladder(t, n - 1, maxReset);
      OneRecovery(Recoveries(t, n - 1, maxReset).(state := Connected), maxReset);
      NextRung(n, maxReset + 1);
    }
  }

  lemma OneRecovery(t: Tracker, maxReset: nat)
    requires t.state == Connected
    ensures var u := Recovered(Heard(t), maxReset);
            var c := t.poll.pdpResetCount;
            if c < maxReset then
              && u.poll.pdpResetCount == c + 1 && u.reregistered == t.reregistered
              && u.disconnecting == t.disconnecting + 1 && u.state == Disconnecting
            else
              && u.poll.pdpResetCount == 0 && u.reregistered == t.reregistered + 1
              && u.disconnecting == t.disconnecting && u.state == Connected
  {
  }

  lemma NextRung(n: nat, m: nat)
    requires n > 0 && m > 0
    ensures var q, r := (n - 1) / m, (n - 1) % m;
            if r < m - 1 then n % m == r + 1 && n / m == q else n % m == 0 && n / m == q + 1
  {
    var q, r := (n - 1) / m, (n - 1) % m;
    Quotient(n - 1, m);
    if r < m - 1 {
      DivisionIs(n, m, q, r + 1);
    } else {
      assert m * (q + 1) == m * q + m;
      DivisionIs(n, m, q + 1, 0);
    }
  }

  lemma DivisionIs(n: nat, m: nat, q: nat, r: nat)
    requires m > 0 && r < m && n == m * q + r
    ensures n / m == q && n % m == r
  {
    var a := n / m;
    assert m * a <= n < m * a + m by { Quotient(n, m); }
    NotLess(m, a, q, r);
    NotLess(m, q, a, n % m);
  }

  lemma Quotient(n: nat, m: nat)
    requires m > 0
    ensures n == m * (n / m) + n % m && n % m < m
  {
  }

  /** Of two quotients, neither is less. */
  lemma NotLess(m: nat, a: nat, q: nat, r: nat)
    requires r < m && m * q + r < m * a + m
    ensures q <= a
  {
    assert m * (a + 1) == m * a + m;
    if q > a {
      Monotone(m, a + 1, q);
    }
  }
}
