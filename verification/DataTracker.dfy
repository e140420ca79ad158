/** The GSM data connection tracker: handlers that move a connection through its
    states, a queue of access points to try, and the traffic poll. */
module DataTracker {
  import opened CText
  import opened NetStatPoll

  datatype State = Idle | Initing | Scanning | Connected | Disconnecting | Failed

  type Apn = nat  // an access point setting, by number

  /** connecting: a connect request has not been answered; disconnecting: disconnect
      requests whose completion is still to come. A connection with either is not
      inactive, and the end of a disconnect or reset also ends the connect before
      it. retryIntent stands for mReconnectIntent; alarms, reregistered and reverts
      count reconnect alarms set, calls of reRegisterNetwork, and APN types given
      up with onEnableApn. built and failures belong to the scan in progress: how
      many access points it began with, and for each failed one whether its failure
      was permanent. */
  datatype Tracker = Tracker(
    state: State, waitingApns: Option<seq<Apn>>, countDown: int, activeApn: Option<Apn>,
    connecting: bool, disconnecting: nat,
    retryIntent: bool, reregisterOnFailure: bool, alarms: nat, reregistered: nat, reverts: nat,
    built: nat, failures: seq<bool>,
    poll: Poll)

  const INIT := Tracker(Idle, None, 0, None, false, 0, false, false, 0, 0, 0, 0, [], STOPPED)

  /** What trySetupData finds: whether service, call state and settings allow data,
      the list buildWaitingApns returns, whether the connection says it is inactive. */
  datatype Setup = Setup(allowed: bool, apns: seq<Apn>, inactive: bool)

  /** What reconnectAfterFail finds. */
  datatype Retry = Retry(needed: bool, defaultType: bool)

  datatype Answer = Success(reading: Reading) | Failure(permanent: bool, retry: Retry)

  function Less(n: nat): nat {
    if n > 0 then n - 1 else 0
  }

  // ----- The private methods -----

  function WithState(t: Tracker, s: State): Tracker {
    t.(state := s, waitingApns := if s == Failed && t.waitingApns.Some? then Some([]) else t.waitingApns)
  }

  function GoneIdle(t: Tracker): Tracker {
    WithState(t, Idle).(activeApn := None)
  }

  function CleanedUp(t: Tracker, tearDown: bool): Tracker {
    var d := WithState(t.(retryIntent := false), Disconnecting);
    if tearDown then StopPoll(d.(disconnecting := d.disconnecting + 1))
    else GoneIdle(StopPoll(d.(connecting := false, disconnecting := 0)))
  }

  function SetupData(t: Tracker, inactive: bool): Tracker {
    if t.waitingApns.None? || t.waitingApns.value == [] then t
    else if !inactive || t.connecting || t.disconnecting > 0 then t
    else WithState(t.(activeApn := Some(t.waitingApns.value[0]), connecting := true), Initing)
  }

  function Built(t: Tracker, apns: seq<Apn>): Tracker {
    t.(waitingApns := Some(apns), countDown := |apns|, built := |apns|, failures := [])
  }

  function TrySetup(t: Tracker, e: Setup): Tracker {
    if !((t.state == Idle || t.state == Scanning) && e.allowed) then t
    else if t.state == Scanning then SetupData(t, e.inactive)
    else
      var b := Built(t, e.apns);
      if e.apns == [] then WithState(b, Failed) else SetupData(b, e.inactive)
  }

  function AlarmSet(t: Tracker): Tracker {
    t.(retryIntent := true, alarms := t.alarms + 1)
  }

  function ReconnectAfterFail(t: Tracker, r: Retry): Tracker {
    if t.state != Failed then t
    else if r.needed then AlarmSet(t)
    else if !r.defaultType then t.(reverts := t.reverts + 1)
    else if t.reregisterOnFailure then AlarmSet(t)
    else t.(reregisterOnFailure := true, reregistered := t.reregistered + 1)
  }

  function Waiting(t: Tracker): seq<Apn> {
    if t.waitingApns.None? then [] else t.waitingApns.value
  }

  /** The access point just tried has failed. */
  function Removed(t: Tracker, permanent: bool): Tracker
    requires Waiting(t) != []
  {
    t.(connecting := false, waitingApns := Some(Waiting(t)[1..]),
       countDown := t.countDown - (if permanent then 1 else 0),
       failures := t.failures + [permanent])
  }

  /** onDataSetupComplete. None: waitingApns.remove(0) throws. */
  function SetupCompleted(t: Tracker, a: Answer): Option<Tracker> {
    match a
    case Success(r) =>
      var c := WithState(t.(connecting := false), Connected);
      Some(c.(poll := Started(c.poll, true, r), reregisterOnFailure := false))
    case Failure(permanent, retry) =>
      if Waiting(t) == [] then None
      else
        var f := Removed(t, permanent);
        if Waiting(f) != [] then Some(WithState(f, Scanning))
        else if f.countDown == 0 then Some(WithState(f, Failed))
        else Some(ReconnectAfterFail(WithState(f, Failed), retry))
  }

  function DisconnectDone(t: Tracker, again: bool, e: Setup): Tracker {
    var d := GoneIdle(t.(connecting := false, disconnecting := Less(t.disconnecting)));
    if again then TrySetup(d, e) else d
  }

  // ----- Events -----

  datatype Event =
    | TrySetupData(setup: Setup)                     // EVENT_TRY_SETUP_DATA, roaming off, roaming on with data allowed
    | SetupComplete(answer: Answer)                  // EVENT_DATA_SETUP_COMPLETE
    | DisconnectComplete(again: bool, setup: Setup)  // EVENT_DISCONNECT_DONE; again unless the radio was turned off
    | ResetComplete                                  // EVENT_RESET_DONE
    | CleanUp(tearDown: bool)                        // EVENT_CLEAN_UP_CONNECTION, APN type, roaming on, restartRadio
    | RadioAvailable
    | RadioOff
    | RecordsLoaded
    | GprsAttached(setup: Setup, reading: Reading)
    | GprsDetached
    | PsRestricted
    | PsUnrestricted(setup: Setup, reading: Reading)
    | CallStarted(concurrent: bool)
    | CallEnded(concurrent: bool, setup: Setup, reading: Reading)
    | PdpDropped                                     // a PDP list without the active context
    | ScreenChanged(reading: Reading)
    | PollNetStat(reading: Reading)                  // a queued mPollNetStat runs
    | PingEnds(reached: bool)                        // the ping thread sends its result
    | StartNetStatPoll(reading: Reading)             // its result is handled: poll again
    | StartRecovery(maxReset: int)                   // its result is handled: recover

  /** What the environment does: answers come at most once, and never after the
      disconnect or reset that ended their connect; posts run when queued; ping
      results come from the ping thread. */
  predicate Possible(t: Tracker, e: Event) {
    match e
    case SetupComplete(_) => t.connecting
    case DisconnectComplete(_, _) => t.disconnecting > 0
    case PollNetStat(_) => t.poll.posts > 0
    case PingEnds(_) => t.poll.pingThreads > 0
    case StartNetStatPoll(_) => t.poll.pingResults > 0
    case StartRecovery(_) => t.poll.pingResults > 0
    case _ => true
  }

  function StartPoll(t: Tracker, r: Reading): Tracker {
    t.(poll := Started(t.poll, t.state == Connected, r))
  }

  function StopPoll(t: Tracker): Tracker {
    t.(poll := Stopped(t.poll))
  }

  function IdleAgain(t: Tracker): Tracker {
    if t.state == Failed then CleanedUp(t, false) else t
  }

  function Unrestricted(t: Tracker): Tracker {
    if t.state == Failed then CleanedUp(t, false).(reregisterOnFailure := false) else t
  }

  function PingEnded(t: Tracker, reached: bool): Tracker {
    t.(poll := t.poll.(pingThreads := Less(t.poll.pingThreads),
                       pingResults := t.poll.pingResults + 1,
                       pdpResetCount := if reached then 0 else t.poll.pdpResetCount))
  }

  function Recovered(t: Tracker, maxReset: int): Tracker {
    if t.state != Connected then t
    else if t.poll.pdpResetCount < maxReset then
      CleanedUp(t.(poll := t.poll.(pdpResetCount := t.poll.pdpResetCount + 1)), true)
    else t.(poll := t.poll.(pdpResetCount := 0), reregistered := t.reregistered + 1)
  }

  /** One handler. None: it throws. */
  function Handle(t: Tracker, e: Event): Option<Tracker> {
    match e
    case TrySetupData(s) => Some(TrySetup(t, s))
    case SetupComplete(a) => SetupCompleted(t, a)
    case DisconnectComplete(again, s) => Some(DisconnectDone(t, again, s))
    case ResetComplete => Some(GoneIdle(t.(connecting := false, disconnecting := 0)))
    case CleanUp(tearDown) => Some(CleanedUp(t, tearDown))
    case RadioAvailable => Some(if t.state != Idle then CleanedUp(t, true) else t)
    case RadioOff => Some(CleanedUp(t.(reregisterOnFailure := false), false))
    case RecordsLoaded => Some(IdleAgain(t))
    case GprsAttached(s, r) =>
      Some(if t.state == Connected then StartPoll(t, r) else TrySetup(IdleAgain(t), s))
    case GprsDetached => Some(StopPoll(t))
    case PsRestricted => Some(StopPoll(t))
    case PsUnrestricted(s, r) =>
      Some(if t.state == Connected then StartPoll(t, r)
           else TrySetup(Unrestricted(t), s))
    case CallStarted(concurrent) =>
      Some(if t.state == Connected && !concurrent then StopPoll(t) else t)
    case CallEnded(concurrent, s, r) =>
      Some(if t.state == Connected then
             if !concurrent then StartPoll(t, r) else t.(poll := ResetStats(t.poll))
           else TrySetup(t.(reregisterOnFailure := false), s))
    case PdpDropped => Some(if t.state == Connected then CleanedUp(t, true) else t)
    case ScreenChanged(r) => Some(StartPoll(StopPoll(t), r))
    case PollNetStat(r) =>
      Some(t.(poll := Ran(t.poll.(posts := Less(t.poll.posts)), r)))
    case PingEnds(reached) =>
      Some(PingEnded(t, reached))
    case StartNetStatPoll(r) => Some(StartPoll(Heard(t), r))
    case StartRecovery(maxReset) => Some(Recovered(Heard(t), maxReset))
  }

  /** A ping result has been taken from the message queue. */
  function Heard(t: Tracker): Tracker {
    t.(poll := t.poll.(pingActive := false,
                       pingResults := Less(t.poll.pingResults)))
  }

  function Run(t: Tracker, es: seq<Event>): Option<Tracker> {
    if es == [] then Some(t)
    else match Run(t, es[..|es| - 1])
      case None => None
      case Some(u) => if Possible(u, es[|es| - 1]) then Handle(u, es[|es| - 1]) else Some(u)
  }

  // ----- The scan invariant -----

  function Permanent(failures: seq<bool>): nat {
    if failures == [] then 0
    else Permanent(failures[..|failures| - 1]) + if failures[|failures| - 1] then 1 else 0
  }

  predicate ScanInv(t: Tracker) {
    && t.countDown >= |Waiting(t)|
    && (t.state == Scanning || t.connecting ==> Waiting(t) != [])
    && (t.state == Initing ==> Waiting(t) != [] && t.activeApn == Some(Waiting(t)[0]) && t.connecting)
    && (t.connecting ==> t.state == Initing || t.state == Disconnecting)
    && (t.state == Failed ==> Waiting(t) == [])
    && (Waiting(t) != [] ==> |Waiting(t)| + |t.failures| == t.built)
    && |t.failures| <= t.built
    && t.countDown == t.built - Permanent(t.failures)
  }

  lemma {:induction false} PermanentBound(failures: seq<bool>)
    ensures Permanent(failures) <= |failures|
    ensures Permanent(failures) == |failures| <==> forall i :: 0 <= i < |failures| ==> failures[i]
  {
    if failures != [] {
      var front := failures[..|failures| - 1];
      PermanentBound(front);
      assert failures == front + [failures[|failures| - 1]];
      assert forall i :: 0 <= i < |front| ==> failures[i] == front[i];
    }
  }

  lemma PermanentMore(failures: seq<bool>, permanent: bool)
    ensures Permanent(failures + [permanent]) == Permanent(failures) + if permanent then 1 else 0
  {
    assert (failures + [permanent])[..|failures + [permanent]| - 1] == failures;
  }

  lemma SetupDataKeeps(t: Tracker, inactive: bool)
    requires ScanInv(t)
    ensures ScanInv(SetupData(t, inactive))
  {
    hide Permanent;
  }

  lemma BuiltKeeps(t: Tracker, apns: seq<Apn>)
    requires ScanInv(t) && t.state == Idle
    ensures ScanInv(Built(t, apns)) && ScanInv(WithState(Built(t, apns), Failed))
  {
  }

  lemma SetupKeeps(t: Tracker, e: Setup)
    requires ScanInv(t)
    ensures ScanInv(TrySetup(t, e))
  {
    hide ScanInv, SetupData, Built, WithState;
    SetupDataKeeps(t, e.inactive);
    if t.state == Idle {
      BuiltKeeps(t, e.apns);
      SetupDataKeeps(Built(t, e.apns), e.inactive);
    }
  }

  lemma CleanUpKeeps(t: Tracker, tearDown: bool)
    requires ScanInv(t)
    ensures ScanInv(CleanedUp(t, tearDown))
  {
  }

  /** The invariant speaks only of the scan. */
  lemma ScanSame(t: Tracker, u: Tracker)
    requires ScanInv(t)
    requires u.state == t.state && u.waitingApns == t.waitingApns && u.countDown == t.countDown
    requires u.activeApn == t.activeApn && u.connecting == t.connecting
    requires u.built == t.built && u.failures == t.failures
    ensures ScanInv(u)
  {
  }

  lemma SuccessKeeps(t: Tracker, r: Reading)
    requires ScanInv(t) && t.connecting
    ensures ScanInv(SetupCompleted(t, Success(r)).value)
  {
    hide Started, Permanent;
  }

  lemma FailureKeeps(t: Tracker, permanent: bool, retry: Retry)
    requires ScanInv(t) && t.connecting
    ensures SetupCompleted(t, Failure(permanent, retry)).Some?
    ensures ScanInv(SetupCompleted(t, Failure(permanent, retry)).value)
  {
    PermanentMore(t.failures, permanent);
    PermanentBound(t.failures + [permanent]);
    hide Permanent;
  }

  lemma IdleKeeps(t: Tracker)
    requires ScanInv(t)
    ensures ScanInv(GoneIdle(t.(connecting := false)))
  {
  }

  lemma StartPollKeeps(t: Tracker, r: Reading)
    requires ScanInv(t)
    ensures ScanInv(StartPoll(t, r))
  {
    hide Started, ScanInv;
    ScanSame(t, StartPoll(t, r));
  }

  lemma IdleAgainKeeps(t: Tracker)
    requires ScanInv(t)
    ensures ScanInv(IdleAgain(t))
  {
    hide CleanedUp, ScanInv;
    CleanUpKeeps(t, false);
  }

  lemma UnrestrictedKeeps(t: Tracker)
    requires ScanInv(t)
    ensures ScanInv(Unrestricted(t))
  {
    hide CleanedUp, ScanInv;
    CleanUpKeeps(t, false);
    Unflagged(CleanedUp(t, false));
  }

  lemma ResetDoneKeeps(t: Tracker)
    requires ScanInv(t)
    ensures ScanInv(GoneIdle(t.(connecting := false, disconnecting := 0)))
  {
    hide ScanInv, GoneIdle;
    ScanSame(t, t.(disconnecting := 0));
    IdleKeeps(t.(disconnecting := 0));
  }

  lemma DisconnectKeeps(t: Tracker, again: bool, s: Setup)
    requires ScanInv(t)
    ensures ScanInv(DisconnectDone(t, again, s))
  {
    hide ScanInv, GoneIdle, TrySetup;
    var u := t.(disconnecting := Less(t.disconnecting));
    ScanSame(t, u);
    IdleKeeps(u);
    SetupKeeps(GoneIdle(u.(connecting := false)), s);
  }

  lemma CallEndedKeeps(t: Tracker, s: Setup, r: Reading)
    requires ScanInv(t)
    ensures ScanInv(StartPoll(t, r)) && ScanInv(t.(poll := ResetStats(t.poll)))
    ensures ScanInv(TrySetup(t.(reregisterOnFailure := false), s))
  {
    hide ScanInv, TrySetup, ResetStats;
    StartPollKeeps(t, r);
    ScanSame(t, t.(poll := ResetStats(t.poll)));
    Unflagged(t);
    SetupKeeps(t.(reregisterOnFailure := false), s);
  }

  lemma AnswerKeeps(t: Tracker, a: Answer)
    requires ScanInv(t) && t.connecting
    ensures SetupCompleted(t, a).Some? && ScanInv(SetupCompleted(t, a).value)
  {
    hide ScanInv, SetupCompleted;
    match a {
      case Success(r) => SuccessKeeps(t, r); AnswerHandled(t, a);
      case Failure(permanent, retry) => FailureKeeps(t, permanent, retry);
    }
  }

  lemma ScanEventKeeps(t: Tracker, e: Event)
    requires ScanInv(t) && Possible(t, e) && !OnlyPolls(e)
    ensures Handle(t, e).Some? && ScanInv(Handle(t, e).value)
  {
    hide ScanInv, CleanedUp, TrySetup, SetupCompleted, GoneIdle, StartPoll, ResetStats;
    hide DisconnectDone, IdleAgain, Unrestricted;
    match e
    case TrySetupData(s) => SetupKeeps(t, s);
    case SetupComplete(a) => AnswerKeeps(t, a);
    case DisconnectComplete(again, s) => DisconnectKeeps(t, again, s);
    case ResetComplete => ResetDoneKeeps(t);
    case CleanUp(tearDown) => CleanUpKeeps(t, tearDown);
    case RadioAvailable => CleanUpKeeps(t, true);
    case RadioOff => Unflagged(t); CleanUpKeeps(t.(reregisterOnFailure := false), false);
    case RecordsLoaded => IdleAgainKeeps(t);
    case GprsAttached(s, r) =>
      StartPollKeeps(t, r);
      IdleAgainKeeps(t);
      SetupKeeps(IdleAgain(t), s);
    case PsUnrestricted(s, r) =>
      StartPollKeeps(t, r);
      UnrestrictedKeeps(t);
      SetupKeeps(Unrestricted(t), s);
    case CallEnded(concurrent, s, r) => CallEndedKeeps(t, s, r);
    case PdpDropped => CleanUpKeeps(t, true);
  }

  /** Events that leave the scan alone. */
  predicate OnlyPolls(e: Event) {
    || e.GprsDetached? || e.PsRestricted? || e.CallStarted? || e.ScreenChanged?
    || e.PollNetStat? || e.PingEnds? || e.StartNetStatPoll? || e.StartRecovery?
  }

  lemma PollEventKeeps(t: Tracker, e: Event)
    requires ScanInv(t) && OnlyPolls(e)
    ensures Handle(t, e).Some? && ScanInv(Handle(t, e).value)
  {
    hide ScanInv, CleanedUp, Started, Stopped, Ran, ResetStats;
    if e.StartRecovery? {
      ScanSame(t, Heard(t));
      RecoveryKeeps(Heard(t), e.maxReset);
    } else {
      ScanSame(t, Handle(t, e).value);
    }
  }

  lemma HandleKeeps(t: Tracker, e: Event)
    requires ScanInv(t) && Possible(t, e)
    ensures Handle(t, e).Some? && ScanInv(Handle(t, e).value)
  {
    hide ScanInv, Handle, Possible;
    if OnlyPolls(e) {
      PollEventKeeps(t, e);
    } else {
      ScanEventKeeps(t, e);
    }
  }

  lemma Unflagged(t: Tracker)
    requires ScanInv(t)
    ensures ScanInv(t.(reregisterOnFailure := false))
  {
  }

  lemma RecoveryKeeps(t: Tracker, maxReset: int)
    requires ScanInv(t)
    ensures ScanInv(Recovered(t, maxReset))
  {
  }

  /** Over every order of events no handler throws and the scan invariant holds. */
  lemma {:induction false} ScanReachable(es: seq<Event>)
    ensures Run(INIT, es).Some?
    ensures ScanInv(Run(INIT, es).value)
  {
    if es != [] {
      ScanReachable(es[..|es| - 1]);
      var u := Run(INIT, es[..|es| - 1]).value;
      if Possible(u, es[|es| - 1]) {
        HandleKeeps(u, es[|es| - 1]);
      }
    }
  }

  /** A failed connect takes one access point off the queue. When it was the last,
      the tracker fails. */
  predicate FailureOutcome(t: Tracker, u: Tracker) {
    && |Waiting(u)| == |Waiting(t)| - 1
    && u.state == (if Waiting(u) == [] then Failed else Scanning)
    && (Waiting(u) == [] ==> |u.failures| == t.built)
  }

  predicate SomeTransient(failures: seq<bool>) {
    exists i :: 0 <= i < |failures| && !failures[i]
  }

  /** Which of the three ways of going on a scan ends in: a reconnect alarm, a new
      registration with the network, or giving the APN type up. It takes one of them,
      and once, exactly when the queue is empty and some failure was not permanent. */
  predicate RetryOutcome(t: Tracker, u: Tracker, retry: Retry) {
    var over := Waiting(u) == [] && SomeTransient(u.failures);
    var alarm := over && (retry.needed || (retry.defaultType && t.reregisterOnFailure));
    var register := over && !retry.needed && retry.defaultType && !t.reregisterOnFailure;
    var revert := over && !retry.needed && !retry.defaultType;
    && u.alarms == t.alarms + (if alarm then 1 else 0)
    && u.reregistered == t.reregistered + (if register then 1 else 0)
    && u.reverts == t.reverts + (if revert then 1 else 0)
    && u.retryIntent == (t.retryIntent || alarm)
    && u.reregisterOnFailure == (t.reregisterOnFailure || register)
  }

  lemma OneFailure(t: Tracker, permanent: bool, retry: Retry)
    requires ScanInv(t) && t.connecting
    ensures var u := SetupCompleted(t, Failure(permanent, retry));
            && u.Some? && u.value.failures == t.failures + [permanent]
            && FailureOutcome(t, u.value) && RetryOutcome(t, u.value, retry)
  {
    PermanentMore(t.failures, permanent);
    PermanentBound(t.failures + [permanent]);
    hide Permanent;
  }

  /** The tracker goes on by itself, by an alarm or a new registration, exactly when
      the queue is empty, some failure of the scan was not permanent, and a retry is
      needed or the APN type is the default one. */
  lemma {:induction false} ScanEnds(es: seq<Event>, t: Tracker, permanent: bool, retry: Retry)
    requires Run(INIT, es) == Some(t) && t.connecting
    ensures var u := SetupCompleted(t, Failure(permanent, retry));
            && u.Some? && FailureOutcome(t, u.value) && RetryOutcome(t, u.value, retry)
            && (u.value.alarms > t.alarms || u.value.reregistered > t.reregistered <==>
                  && |t.waitingApns.value| == 1 && SomeTransient(t.failures + [permanent])
                  && (retry.needed || retry.defaultType))
  {
    hide Run, ScanInv, SetupCompleted;
    ScanReachable(es);
    OneFailure(t, permanent, retry);
  }

  /** A scan that failed for a passing reason, with nothing to go on: the retries of
      an APN type other than the default are used up. */
  lemma NothingScheduled(apn: Apn)
    ensures var t := Run(INIT, [TrySetupData(Setup(true, [apn], true))]);
            && t.Some? && t.value.connecting
            && var u := SetupCompleted(t.value, Failure(false, Retry(false, false)));
               && u.Some? && u.value.state == Failed && SomeTransient(u.value.failures)
               && u.value.alarms == u.value.reregistered == 0 && !u.value.retryIntent && u.value.reverts == 1
  {
    var e := TrySetupData(Setup(true, [apn], true));
    assert [e][..0] == [];
    var t := Handle(INIT, e).value;
    assert Run(INIT, [e]) == Some(t) && t.waitingApns == Some([apn]);
    assert Removed(t, false).failures == [false] && Waiting(Removed(t, false)) == [];
    assert ![false][0];
  }

  // ----- The poll invariant -----

  /** The settings an event reads keep within the limit. */
  predicate Within(e: Event, limit: nat) {
    match e
    case SetupComplete(Success(r)) => r.limit <= limit
    case GprsAttached(_, r) => r.limit <= limit
    case PsUnrestricted(_, r) => r.limit <= limit
    case CallEnded(_, _, r) => r.limit <= limit
    case ScreenChanged(r) => r.limit <= limit
    case PollNetStat(r) => r.limit <= limit
    case StartNetStatPoll(r) => r.limit <= limit
    case _ => true
  }

  lemma SetupLeavesPoll(t: Tracker, e: Setup)
    ensures TrySetup(t, e).poll == t.poll
  {
  }

  lemma CleanUpStops(t: Tracker, tearDown: bool)
    ensures CleanedUp(t, tearDown).poll == Stopped(t.poll)
  {
  }

  lemma BackToIdlePolls(t: Tracker)
    ensures IdleAgain(t).poll == t.poll || IdleAgain(t).poll == Stopped(t.poll)
    ensures Unrestricted(t).poll == t.poll || Unrestricted(t).poll == Stopped(t.poll)
  {
    hide CleanedUp, Stopped;
    CleanUpStops(t, false);
  }

  lemma DisconnectLeavesPoll(t: Tracker, again: bool, s: Setup)
    ensures DisconnectDone(t, again, s).poll == t.poll
  {
    hide TrySetup;
    SetupLeavesPoll(GoneIdle(t.(connecting := false, disconnecting := Less(t.disconnecting))), s);
  }

  lemma AnswerPolls(t: Tracker, a: Answer, limit: nat)
    requires NetStatPoll.Inv(t.poll, limit) && (a.Success? ==> a.reading.limit <= limit)
    ensures SetupCompleted(t, a).Some? ==> NetStatPoll.Inv(SetupCompleted(t, a).value.poll, limit)
  {
    hide NetStatPoll.Inv, Started, ReconnectAfterFail;
    match a {
      case Success(r) => StartedKeeps(t.poll, true, r, limit);
      case Failure(_, _) => FailureLeavesPoll(t, a);
    }
  }

  lemma ScanEventPolls(t: Tracker, e: Event, limit: nat)
    requires NetStatPoll.Inv(t.poll, limit) && !OnlyPolls(e) && Within(e, limit)
    ensures Handle(t, e).Some? ==> NetStatPoll.Inv(Handle(t, e).value.poll, limit)
  {
    hide NetStatPoll.Inv, Started, Stopped, TrySetup, CleanedUp;
    hide SetupCompleted, DisconnectDone, IdleAgain, Unrestricted;
    StoppedKeeps(t.poll, limit);
    match e
    case TrySetupData(s) => SetupLeavesPoll(t, s);
    case SetupComplete(a) => AnswerPolls(t, a, limit);
    case DisconnectComplete(again, s) => DisconnectLeavesPoll(t, again, s);
    case ResetComplete =>
    case CleanUp(tearDown) => CleanUpStops(t, tearDown);
    case RadioAvailable => CleanUpStops(t, true);
    case RadioOff => CleanUpStops(t.(reregisterOnFailure := false), false);
    case RecordsLoaded => BackToIdlePolls(t);
    case GprsAttached(s, r) =>
      BackToIdlePolls(t);
      SetupLeavesPoll(IdleAgain(t), s);
      StartedKeeps(t.poll, true, r, limit);
    case PsUnrestricted(s, r) =>
      BackToIdlePolls(t);
      SetupLeavesPoll(Unrestricted(t), s);
      StartedKeeps(t.poll, true, r, limit);
    case CallEnded(concurrent, s, r) =>
      SetupLeavesPoll(t.(reregisterOnFailure := false), s);
      StartedKeeps(t.poll, true, r, limit);
      ResetKeeps(t.poll, limit);
    case PdpDropped => CleanUpStops(t, true);
  }

  lemma ResetKeeps(p: Poll, limit: nat)
    requires NetStatPoll.Inv(p, limit)
    ensures NetStatPoll.Inv(ResetStats(p), limit)
  {
  }

  lemma FailureLeavesPoll(t: Tracker, a: Answer)
    requires a.Failure?
    ensures SetupCompleted(t, a).Some? ==> SetupCompleted(t, a).value.poll == t.poll
  {
  }

  lemma HeardKeeps(t: Tracker, limit: nat)
    requires NetStatPoll.Inv(t.poll, limit) && t.poll.pingResults > 0
    ensures NetStatPoll.Inv(Heard(t).poll, limit)
  {
  }

  lemma PingEndedKeeps(t: Tracker, reached: bool, limit: nat)
    requires NetStatPoll.Inv(t.poll, limit) && t.poll.pingThreads > 0
    ensures NetStatPoll.Inv(PingEnded(t, reached).poll, limit)
  {
  }

  lemma RecoveredPolls(t: Tracker, maxReset: int, limit: nat)
    requires NetStatPoll.Inv(t.poll, limit)
    ensures NetStatPoll.Inv(Recovered(t, maxReset).poll, limit)
  {
    hide CleanedUp;
    CleanUpStops(t.(poll := t.poll.(pdpResetCount := t.poll.pdpResetCount + 1)), true);
  }

  lemma PostedKeeps(p: Poll, r: Reading, limit: nat)
    requires NetStatPoll.Inv(p, limit) && p.posts > 0 && r.limit <= limit
    ensures NetStatPoll.Inv(Ran(p.(posts := Less(p.posts)), r), limit)
  {
    hide Ran;
    RanKeeps(p.(posts := 0), r, limit);
  }

  lemma PollEventPolls(t: Tracker, e: Event, limit: nat)
    requires NetStatPoll.Inv(t.poll, limit) && Possible(t, e) && OnlyPolls(e) && Within(e, limit)
    ensures Handle(t, e).Some? && NetStatPoll.Inv(Handle(t, e).value.poll, limit)
  {
    hide NetStatPoll.Inv, Started, Stopped, Ran, Heard, Recovered, PingEnded, Less;
    StoppedKeeps(t.poll, limit);
    match e
    case GprsDetached =>
    case PsRestricted =>
    case CallStarted(concurrent) =>
    case ScreenChanged(r) => StartedKeeps(Stopped(t.poll), t.state == Connected, r, limit);
    case PollNetStat(r) => PostedKeeps(t.poll, r, limit);
    case PingEnds(reached) => PingEndedKeeps(t, reached, limit);
    case StartNetStatPoll(r) =>
      HeardKeeps(t, limit);
      StartedKeeps(Heard(t).poll, Heard(t).state == Connected, r, limit);
    case StartRecovery(maxReset) =>
      HeardKeeps(t, limit);
      RecoveredPolls(Heard(t), maxReset, limit);
  }

  lemma PollKeeps(t: Tracker, e: Event, limit: nat)
    requires NetStatPoll.Inv(t.poll, limit) && Possible(t, e) && Within(e, limit)
    ensures Handle(t, e).Some? ==> NetStatPoll.Inv(Handle(t, e).value.poll, limit)
  {
    hide NetStatPoll.Inv, Handle, Possible, Within;
    if OnlyPolls(e) {
      PollEventPolls(t, e, limit);
    } else {
      ScanEventPolls(t, e, limit);
    }
  }

  lemma AtRest(limit: nat)
    ensures NetStatPoll.Inv(INIT.poll, limit)
  {
  }

  /** The poll chain, over every order of events: one queued post exactly while the
      poll is enabled, none during a ping test, at most one ping test or unhandled
      result, and never more polls without receiving than the limit. */
  lemma {:induction false} PollReachable(es: seq<Event>, limit: nat)
    requires forall i :: 0 <= i < |es| ==> Within(es[i], limit)
    ensures Run(INIT, es).Some? && NetStatPoll.Inv(Run(INIT, es).value.poll, limit)
  {
    hide Handle, Possible, Within, NetStatPoll.Inv, ScanInv;
    ScanReachable(es);
    if es == [] {
      AtRest(limit);
    } else {
      var front := es[..|es| - 1];
      assert forall i :: 0 <= i < |front| ==> front[i] == es[i];
      PollReachable(front, limit);
      var u := Run(INIT, front).value;
      assert Within(es[|es| - 1], limit);
      if Possible(u, es[|es| - 1]) {
        PollKeeps(u, es[|es| - 1], limit);
      }
    }
  }

  // ----- What the assumption on answers is needed for -----

  /** An answer can be handled exactly when it is a success or something waits. */
  lemma AnswerHandled(t: Tracker, a: Answer)
    ensures SetupCompleted(t, a).Some? <==> a.Success? || Waiting(t) != []
  {
  }

  /** A failure that is answered after the reset that ended its connect finds the
      queue cleared, if no access point was left to try meanwhile. */
  lemma LateAnswerThrows(apn: Apn, reading: Reading, permanent: bool, retry: Retry)
    ensures var es := [TrySetupData(Setup(true, [apn], true)), RadioOff, TrySetupData(Setup(true, [], true))];
            Run(INIT, es).Some? && SetupCompleted(Run(INIT, es).value, Failure(permanent, retry)) == None
  {
    var e0, e1, e2 := TrySetupData(Setup(true, [apn], true)), RadioOff, TrySetupData(Setup(true, [], true));
    var es := [e0, e1, e2];
    assert es[..2] == [e0, e1] && [e0, e1][..1] == [e0] && [e0][..0] == [];
    assert Run(INIT, [e0]) == Handle(INIT, e0);
    var t1 := Handle(INIT, e0).value;
    assert Run(INIT, [e0, e1]) == Handle(t1, e1);
    var t2 := Handle(t1, e1).value;
    assert Run(INIT, es) == Handle(t2, e2);
  }
}
