/** The radio-state latch of fwril-100/fw100-ril.c: any number of threads run setRadioState,
    the two close callbacks and waitForClose against one mutex, while s_closed is written and
    read without it. Each event is one step of one thread between two accesses to shared state. */
module RadioLatch {
  import opened CText

  datatype RadioState = Off | Unavailable | SimNotReady | SimLockedOrAbsent | SimReady

  type Thread = int

  /** Where a thread stands. `closer` marks a call of setRadioState made by a close callback. */
  datatype Pc =
    | Outside
    | Calling(want: RadioState, closer: bool)   // about to lock s_state_mutex in setRadioState
    | Entered(want: RadioState, closer: bool)   // mutex held, s_closed not read yet
    | Decided(want: RadioState, closer: bool)   // s_closed read once
    | Storing(want: RadioState, closer: bool)   // about to store sState and broadcast
    | Done(closer: bool)                        // about to unlock
    | Waiting                                   // about to lock s_state_mutex in waitForClose
    | Checking                                  // mutex held, about to read s_closed
    | Drowsy                                    // read s_closed == 0, about to sleep
    | Asleep(signalled: bool)

  datatype Context = Context(sState: RadioState, closed: bool, holder: Option<Thread>, pcs: map<Thread, Pc>)

  datatype Event =
    | Call(t: Thread, want: RadioState)  // setRadioState(want) from anywhere but a close callback
    | Close(t: Thread)                   // onATReaderClosed or onATTimeout: s_closed = 1, no mutex
    | Lock(t: Thread) | Decide(t: Thread) | Test(t: Thread) | Store(t: Thread) | Leave(t: Thread)
    | Wait(t: Thread) | Check(t: Thread) | Sleep(t: Thread)
    | Clear                              // mainLoop: s_closed = 0, no mutex

  const INITIAL := Context(Off, false, None, map[])

  function At(s: Context, t: Thread): Pc { if t in s.pcs then s.pcs[t] else Outside }

  function Goto(s: Context, t: Thread, pc: Pc): Context { s.(pcs := s.pcs[t := pc]) }

  /** pthread_cond_broadcast: every sleeper is signalled. */
  function Broadcast(pcs: map<Thread, Pc>): map<Thread, Pc> {
    map t | t in pcs :: if pcs[t].Asleep? then Asleep(true) else pcs[t]
  }

  predicate InSection(pc: Pc) {
    pc.Entered? || pc.Decided? || pc.Storing? || pc.Done? || pc.Checking? || pc.Drowsy?
  }

  predicate Enabled(s: Context, e: Event) {
    match e
    case Call(t, _) => At(s, t).Outside?
    case Close(t) => At(s, t).Outside?
    case Wait(t) => At(s, t).Outside?
    case Lock(t) => s.holder.None? && (At(s, t).Calling? || At(s, t).Waiting? || At(s, t) == Asleep(true))
    case Decide(t) => At(s, t).Entered?
    case Test(t) => At(s, t).Decided?
    case Store(t) => At(s, t).Storing?
    case Leave(t) => At(s, t).Done?
    case Check(t) => At(s, t).Checking?
    case Sleep(t) => At(s, t).Drowsy?
    case Clear => true
  }

  function Step(s: Context, e: Event): Context
    requires Enabled(s, e)
  {
    match e
    case Call(t, want) => Goto(s, t, Calling(want, false))
    case Close(t) => Goto(s, t, Calling(Unavailable, true)).(closed := true)
    case Wait(t) => Goto(s, t, Waiting)
    case Lock(t) =>
      var pc := At(s, t);
      Goto(s, t, if pc.Calling? then Entered(pc.want, pc.closer) else Checking).(holder := Some(t))
    case Decide(t) => Goto(s, t, Decided(Chosen(s.closed, At(s, t).want), At(s, t).closer))
    case Test(t) =>
      var pc := At(s, t);
      Goto(s, t, if Stores(s.sState, s.closed, pc.want) then Storing(pc.want, pc.closer) else Done(pc.closer))
    case Store(t) =>
      var pc := At(s, t);
      Goto(s, t, Done(pc.closer)).(sState := pc.want, pcs := Broadcast(s.pcs)[t := Done(pc.closer)])
    case Leave(t) => Goto(s, t, Outside).(holder := None)
    case Check(t) => if s.closed then Goto(s, t, Outside).(holder := None) else Goto(s, t, Drowsy)
    case Sleep(t) => Goto(s, t, Asleep(false)).(holder := None)
    case Clear => s.(closed := false)
  }

  function Chosen(closed: bool, want: RadioState): RadioState { if closed then Unavailable else want }

  predicate Stores(now: RadioState, closed: bool, want: RadioState) { now != want || closed }

  predicate Possible(s: Context, es: seq<Event>)
    decreases |es|
  {
    es == [] || (Enabled(s, es[0]) && Possible(Step(s, es[0]), es[1..]))
  }

  function Run(s: Context, es: seq<Event>): Context
    requires Possible(s, es)
    decreases |es|
  {
    if es == [] then s else Run(Step(s, es[0]), es[1..])
  }

  predicate Uncleared(es: seq<Event>) { Clear !in es }

  // ----- What every run keeps -----

  /** The mutex is held by exactly the thread inside; a close callback always asks for
      UNAVAILABLE, and once past its test sState says so. */
  ghost predicate Inv(s: Context) {
    && (forall t :: InSection(At(s, t)) <==> s.holder == Some(t))
    && (forall t :: CloserKeeps(s, At(s, t)))
  }

  predicate CloserKeeps(s: Context, pc: Pc) {
    match pc
    case Calling(w, c) => c ==> w == Unavailable
    case Entered(w, c) => c ==> w == Unavailable
    case Decided(w, c) => c ==> w == Unavailable
    case Storing(w, c) => c ==> w == Unavailable
    case Done(c) => c ==> s.sState == Unavailable
    case _ => true
  }

  lemma StepKeeps(s: Context, e: Event)
    requires Inv(s) && Enabled(s, e)
    ensures Inv(Step(s, e))
  {
    if !e.Clear? {
      var s' := Step(s, e);
      forall t ensures CloserKeeps(s', At(s', t)) {
        assert CloserKeeps(s, At(s, t));
        assert CloserKeeps(s, At(s, e.t));
        assert InSection(At(s, t)) <==> s.holder == Some(t);
        assert InSection(At(s, e.t)) <==> s.holder == Some(e.t);
      }
    }
  }

  lemma {:induction false} Reachable(s: Context, es: seq<Event>)
    requires Inv(s) && Possible(s, es)
    ensures Inv(Run(s, es))
    decreases |es|
  {
    if es != [] {
      StepKeeps(s, es[0]);
      Reachable(Step(s, es[0]), es[1..]);
    }
  }

  // ----- The latch -----

  /** Nobody inside can still store anything but UNAVAILABLE. */
  ghost predicate Latched(s: Context) {
    && s.closed && s.sState == Unavailable
    && forall t :: var pc := At(s, t); (pc.Decided? || pc.Storing?) ==> pc.want == Unavailable
  }

  /** No thread sleeps, or is about to sleep, without a signal. */
  ghost predicate WaitersAwake(s: Context) {
    forall t :: At(s, t) != Drowsy && At(s, t) != Asleep(false)
  }

  lemma LatchedKeeps(s: Context, e: Event)
    requires Inv(s) && Latched(s) && Enabled(s, e) && !e.Clear?
    ensures Latched(Step(s, e))
    ensures WaitersAwake(s) ==> WaitersAwake(Step(s, e))
  {
    var s' := Step(s, e);
    forall t ensures At(s', t).Decided? || At(s', t).Storing? ==> At(s', t).want == Unavailable {
      assert At(s, t).Decided? || At(s, t).Storing? ==> At(s, t).want == Unavailable;
    }
    if WaitersAwake(s) {
      forall t ensures At(s', t) != Drowsy && At(s', t) != Asleep(false) {
        assert At(s, t) != Drowsy && At(s, t) != Asleep(false);
      }
    }
  }

  lemma {:induction false} LatchedStays(s: Context, es: seq<Event>)
    requires Inv(s) && Latched(s) && Possible(s, es) && Uncleared(es)
    ensures Latched(Run(s, es))
    ensures WaitersAwake(s) ==> WaitersAwake(Run(s, es))
    decreases |es|
  {
    if es != [] {
      StepKeeps(s, es[0]);
      LatchedKeeps(s, es[0]);
      LatchedStays(Step(s, es[0]), es[1..]);
    }
  }

  /** What holds while close callback t is between setting s_closed and unlocking the mutex. */
  ghost predicate Closing(s: Context, t: Thread) {
    && s.closed
    && var pc := At(s, t);
      match pc
      case Calling(_, c) => c
      case Entered(_, c) => c
      case Decided(_, c) => c
      case Storing(_, c) => c
      case Done(c) => c && WaitersAwake(s)
      case _ => false
  }

  lemma ClosingKeeps(s: Context, e: Event, t: Thread)
    requires Inv(s) && Closing(s, t) && Enabled(s, e) && !e.Clear?
    ensures e == Leave(t) ==> Latched(Step(s, e)) && WaitersAwake(Step(s, e))
    ensures e != Leave(t) ==> Closing(Step(s, e), t)
  {
    var s' := Step(s, e);
    assert CloserKeeps(s, At(s, t));
    if e == Leave(t) {
      assert At(s, t).Done?;
      forall u ensures !At(s', u).Decided? && !At(s', u).Storing?
        && At(s', u) != Drowsy && At(s', u) != Asleep(false) {
        assert InSection(At(s, u)) <==> s.holder == Some(u);
        assert InSection(At(s, t)) <==> s.holder == Some(t);
        assert At(s, u) != Asleep(false);
      }
    } else if At(s', t).Done? {
      assert InSection(At(s, t)) <==> s.holder == Some(t);
      forall u ensures At(s', u) != Drowsy && At(s', u) != Asleep(false) {
        assert InSection(At(s, u)) <==> s.holder == Some(u);
      }
    }
  }

  lemma {:induction false} ClosedAndLeft(s: Context, t: Thread, es: seq<Event>)
    requires Inv(s) && Closing(s, t) && Possible(s, es) && Uncleared(es) && Leave(t) in es
    ensures Latched(Run(s, es)) && WaitersAwake(Run(s, es))
    decreases |es|
  {
    StepKeeps(s, es[0]);
    ClosingKeeps(s, es[0], t);
    if es[0] == Leave(t) {
      LatchedStays(Step(s, es[0]), es[1..]);
    } else {
      ClosedAndLeft(Step(s, es[0]), t, es[1..]);
    }
  }

  /** Whatever ran before, and whatever every other thread does meanwhile: from the return of a
      close callback on, until mainLoop clears s_closed, sState is UNAVAILABLE and nobody waits
      for the close without having been signalled. */
  lemma ClosedLatch(before: seq<Event>, t: Thread, after: seq<Event>)
    requires Possible(INITIAL, before) && Enabled(Run(INITIAL, before), Close(t))
    requires Possible(Step(Run(INITIAL, before), Close(t)), after)
    requires Uncleared(after) && Leave(t) in after
    ensures var s := Run(Step(Run(INITIAL, before), Close(t)), after);
      s.closed && s.sState == Unavailable && WaitersAwake(s)
  {
    Reachable(INITIAL, before);
    var s := Run(INITIAL, before);
    StepKeeps(s, Close(t));
    ClosedAndLeft(Step(s, Close(t)), t, after);
  }

  /** mainLoop may clear s_closed before the callback returns. So the latch holds exactly when
      s_closed is still set at the return: otherwise one more call of setRadioState undoes it. */
  lemma LatchHoldsIffStillClosed(before: seq<Event>, t: Thread)
    requires Possible(INITIAL, before) && At(Run(INITIAL, before), t) == Done(true)
    ensures var s := Step(Run(INITIAL, before), Leave(t));
      s.closed <==> (forall es :: Possible(s, es) && Uncleared(es) ==> Run(s, es).sState == Unavailable)
  {
    Reachable(INITIAL, before);
    var p := Run(INITIAL, before);
    var s := Step(p, Leave(t));
    StepKeeps(p, Leave(t));
    assert CloserKeeps(p, At(p, t));
    if s.closed {
      forall u ensures !At(s, u).Decided? && !At(s, u).Storing? {
        assert InSection(At(s, u)) <==> s.holder == Some(u);
      }
      forall es | Possible(s, es) && Uncleared(es) ensures Run(s, es).sState == Unavailable {
        LatchedStays(s, es);
      }
    } else {
      var c := Step(s, Call(t, SimReady));
      var es := [Call(t, SimReady)] + Section(c, t);
      SectionAlone(c, t);
      assert es[1..] == Section(c, t);
      assert Possible(s, es) && Uncleared(es) && Run(s, es).sState != Unavailable;
    }
  }

  /** The case that fails: the callback sets s_closed and mainLoop clears it before the
      callback returns; the state is then not latched. */
  lemma ClearedTooEarly()
    ensures var before := [Close(0), Lock(0), Decide(0), Test(0), Store(0), Clear];
      && Possible(INITIAL, before) && At(Run(INITIAL, before), 0) == Done(true)
      && !Step(Run(INITIAL, before), Leave(0)).closed
  {
    var s := Step(Step(Step(INITIAL, Close(0)), Lock(0)), Decide(0));
    RunAll(s, Test(0), Store(0), Clear);
    RunAll(INITIAL, Close(0), Lock(0), Decide(0));
    RunOn(INITIAL, [Close(0), Lock(0), Decide(0)], [Test(0), Store(0), Clear]);
    assert [Close(0), Lock(0), Decide(0)] + [Test(0), Store(0), Clear]
        == [Close(0), Lock(0), Decide(0), Test(0), Store(0), Clear];
  }

  lemma RunAll(s: Context, a: Event, b: Event, c: Event)
    requires Enabled(s, a) && Enabled(Step(s, a), b) && Enabled(Step(Step(s, a), b), c)
    ensures Possible(s, [a, b, c]) && Run(s, [a, b, c]) == Step(Step(Step(s, a), b), c)
  {
    assert [a, b, c][1..] == [b, c] && [b, c][1..] == [c] && [c][1..] == [];
    var s1, s2 := Step(s, a), Step(Step(s, a), b);
    assert Possible(s2, [c]) && Run(s2, [c]) == Step(s2, c) by { assert Possible(Step(s2, c), []); }
    assert Possible(s1, [b, c]) && Run(s1, [b, c]) == Step(s2, c);
  }

  lemma {:induction false} RunOn(s: Context, es: seq<Event>, fs: seq<Event>)
    requires Possible(s, es) && Possible(Run(s, es), fs)
    ensures Possible(s, es + fs) && Run(s, es + fs) == Run(Run(s, es), fs)
    decreases |es|
  {
    if es == [] {
      assert es + fs == fs;
    } else {
      assert (es + fs)[1..] == es[1..] + fs;
      RunOn(Step(s, es[0]), es[1..], fs);
    }
  }

  /** A thread that has been signalled gets out of waitForClose once it has the mutex, if
      s_closed is set; if not, it goes back to sleep, unsignalled. */
  lemma WaiterReturns(s: Context, t: Thread)
    requires (At(s, t) == Asleep(true) || At(s, t) == Waiting) && s.holder == None
    ensures Possible(s, [Lock(t), Check(t)])
    ensures var u := Run(s, [Lock(t), Check(t)]);
            if s.closed then At(u, t) == Outside && u.holder == None
            else Enabled(u, Sleep(t)) && At(Step(u, Sleep(t)), t) == Asleep(false) && Step(u, Sleep(t)).holder == None
  {
    var v := Step(s, Lock(t));
    assert [Lock(t), Check(t)][1..] == [Check(t)] && [Check(t)][1..] == [];
    assert Possible(Step(v, Check(t)), []);
    assert Possible(v, [Check(t)]) && Run(v, [Check(t)]) == Step(v, Check(t));
  }

  // ----- One call on its own, and the code that makes it -----

  /** What is left of a call of setRadioState that nobody interrupts. */
  function Section(s: Context, t: Thread): seq<Event>
    requires At(s, t).Calling?
  {
    if Stores(s.sState, s.closed, Chosen(s.closed, At(s, t).want))
    then [Lock(t), Decide(t), Test(t)] + [Store(t), Leave(t)]
    else [Lock(t), Decide(t), Test(t)] + [Leave(t)]
  }

  /** Such a call sets the state asked for, or UNAVAILABLE when closed, whatever it was. It
      signals the sleepers whenever the state changes, and always when closed. */
  lemma SectionAlone(s: Context, t: Thread)
    requires At(s, t).Calling? && s.holder == None
    ensures Possible(s, Section(s, t)) && Uncleared(Section(s, t))
    ensures var s' := Run(s, Section(s, t));
      && s'.sState == (if s.closed then Unavailable else At(s, t).want)
      && s'.closed == s.closed && s'.holder == None
      && s'.pcs == (if s.closed || s'.sState != s.sState then Broadcast(s.pcs) else s.pcs)[t := Outside]
  {
    RunAll(s, Lock(t), Decide(t), Test(t));
    var m := Step(Step(Step(s, Lock(t)), Decide(t)), Test(t));
    var es := if Stores(s.sState, s.closed, Chosen(s.closed, At(s, t).want)) then [Store(t), Leave(t)] else [Leave(t)];
    assert es[|es| - 1..] == [Leave(t)] && [Leave(t)][1..] == [];
    var d := if |es| == 2 then Step(m, Store(t)) else m;
    assert Possible(Step(d, Leave(t)), []);
    assert Possible(d, [Leave(t)]) && Run(d, [Leave(t)]) == Step(d, Leave(t));
    assert Possible(m, es) && Run(m, es) == Step(d, Leave(t));
    RunOn(s, [Lock(t), Decide(t), Test(t)], es);
  }

  /** fw100Ctx as setRadioState and the close callbacks update it. */
  class Fw100Ctx {
    var sState: RadioState
    var sClosed: bool
    var stateMutex: Option<Thread>
    ghost var threads: map<Thread, Pc>

    ghost function Value(): Context
      reads this
    {
      Context(sState, sClosed, stateMutex, threads)
    }

    /** The call runs the steps of the machine, in its order. */
    method SetRadioState(t: Thread, newState: RadioState)
      requires At(Value(), t).Calling? && At(Value(), t).want == newState && stateMutex == None
      modifies this
      ensures var es := Section(old(Value()), t);
        Possible(old(Value()), es) && Value() == Run(old(Value()), es)
    {
      SectionAlone(Value(), t);
      stateMutex := Some(t);
      var state := newState;
      if sClosed {
        state := Unavailable;
      }
      if sState != state || sClosed {
        sState := state;
        threads := Broadcast(threads);
      }
      threads := threads[t := Outside];
      stateMutex := None;
    }

    /** onATReaderClosed, and likewise onATTimeout, after at_close. */
    method OnATReaderClosed(t: Thread)
      requires At(Value(), t).Outside? && stateMutex == None
      modifies this
      ensures var s := Step(old(Value()), Close(t));
        Possible(s, Section(s, t)) && Value() == Run(s, Section(s, t))
      ensures sClosed && sState == Unavailable
    {
      sClosed := true;
      threads := threads[t := Calling(Unavailable, true)];
      SectionAlone(Value(), t);
      SetRadioState(t, Unavailable);
    }
  }
}
