/** Where the lines go that come in while a command is pending. */
module AtPartition {
  import opened CText
  import opened AtResults
  import opened AtChannel
  import opened AtProtocol

  function Finals(lines: seq<Text>): seq<Text> {
    if lines == [] then []
    else
      var front := Finals(lines[..|lines| - 1]);
      if Final(lines[|lines| - 1]) then front + [lines[|lines| - 1]] else front
  }

  /** Every line that came in during a command is used exactly once: it is due to
      the command, a final response, the prompt for its PDU, or handed on. */
  predicate Partition(req: Request, seen: seq<Text>, asides: seq<Text>) {
    multiset(seen)
    == multiset(Due(req, seen)) + multiset(Finals(seen))
       + (if req.pdu.Some? && "> " in seen then multiset{"> "} else multiset{})
       + multiset(asides)
  }

  ghost predicate Balanced(s: State) {
    s.chan.response.Some? ==> s.mark <= |s.chan.unsolicited| && Partition(s.req, s.seen, Asides(s))
  }

  ghost predicate Done(s: State) {
    forall r :: r in s.results ==> Partition(r.req, r.seen, r.asides)
  }

  lemma DoneAfterLine(req: Request, seen: seq<Text>, asides: seq<Text>, line: Text, aside: bool)
    requires Partition(req, seen, asides)
    requires aside <==>
               && !Final(line) && !(req.pdu.Some? && line == "> " && "> " !in seen)
               && (!Answers(req.kind, req.prefix, line) || (req.kind != MultiLine && Due(req, seen) != []))
    ensures Partition(req, seen + [line], if aside then asides + [line] else asides)
  {
    TablesDisjoint(line);
    DueAfter(req, seen, line);
    SnocLast(seen, line);
    assert multiset(seen + [line]) == multiset(seen) + multiset{line};
  }

  lemma NothingSeen(req: Request)
    ensures Partition(req, [], [])
  {
  }

  lemma AsidesAfterLine(s: State, line: Text)
    requires s.mark <= |s.chan.unsolicited|
    ensures Asides(ProcessLine(s, line)) ==
              if FateOf(s.chan, line) == Unsolicited then Asides(s) + [line] else Asides(s)
  {
  }

  lemma BalancedAfterLine(s: State, line: Text)
    requires Inv(s) && Balanced(s) && s.chan.response.Some?
    ensures Balanced(ProcessLine(s, line))
  {
    hide Partition, Due, Asides, FinalSuccess, FinalError, Ledger, Sound, Answers, FateOf, ProcessLine;
    LineFrame(s, line);
    AsidesAfterLine(s, line);
    AsideIff(s, line);
    DoneAfterLine(s.req, s.seen, Asides(s), line, FateOf(s.chan, line) == Unsolicited);
    StillBalanced(s, line);
  }

  lemma StillBalanced(s: State, line: Text)
    requires s.chan.response.Some? && s.mark <= |s.chan.unsolicited|
    ensures var t := ProcessLine(s, line);
            && t.mark == s.mark <= |t.chan.unsolicited| && t.req == s.req && t.seen == s.seen + [line]
  {
    hide FateOf;
  }

  /** What processLine hands on is what the reference leaves over. */
  lemma AsideIff(s: State, line: Text)
    requires s.chan.response.Some? && Pending(s)
    ensures FateOf(s.chan, line) == Unsolicited <==>
              && !Final(line) && !(s.req.pdu.Some? && line == "> " && "> " !in s.seen)
              && (!Answers(s.req.kind, s.req.prefix, line) || (s.req.kind != MultiLine && Due(s.req, s.seen) != []))
  {
    hide Due, FinalSuccess, FinalError;
    assert |Reverse(s.chan.response.value.lines)| == |Due(s.req, s.seen)|;
  }

  lemma BalancedAfterSend(s: State, req: Request, written: bool)
    requires Inv(s) && s.chan.response.None? && Done(s)
    ensures Balanced(BeginSend(s, req, written)) && Done(BeginSend(s, req, written))
  {
    NothingSeen(req);
    assert s.chan.unsolicited[|s.chan.unsolicited|..] == [];
  }

  /** One result more, which tells of the send in progress. */
  predicate Ended(s: State, t: State, seen: seq<Text>, asides: seq<Text>) {
    && t.chan.response.None? && t.chan.unsolicited == s.chan.unsolicited
    && t.chan.sent == s.chan.sent
    && |t.results| == |s.results| + 1 && t.results[..|s.results|] == s.results
    && var r := t.results[|s.results|]; r.req == s.req && r.seen == seen && r.asides == asides
  }

  lemma EndedByExit(s: State, t: State, err: Error, response: Option<Response>)
    requires t.req == s.req && t.seen == s.seen && t.mark == s.mark && t.results == s.results
    requires t.chan.unsolicited == s.chan.unsolicited && t.chan.sent == s.chan.sent
    ensures Ended(s, Exit(t, err, response), s.seen, Asides(s))
  {
  }

  lemma EndedByFinish(s: State)
    requires s.chan.response.Some?
    ensures Ended(s, Finish(s), s.seen, Asides(s))
  {
    hide Exit, Ended, Asides;
    var r := s.chan.response.value;
    var out := r.(lines := Reverse(r.lines));
    var err := if s.chan.closed then ChannelClosed else Ok;
    var t := s.(chan := s.chan.(response := None));
    EndedByExit(s, t.(freed := t.freed + [r.id]), err, None);
    EndedByExit(s, t.(freed := t.freed + [r.id]), InvalidResponse, None);
    EndedByExit(s, t.(handed := t.handed + [r.id]), err, Some(out));
  }

  lemma ResultAfterResume(s: State)
    requires s.chan.response.Some? && Enabled(s, Resume)
    ensures Step(s, Resume).Some?
    ensures var t := Step(s, Resume).value;
            || (t.results == s.results && t.chan == s.chan && t.req == s.req && t.seen == s.seen && t.mark == s.mark)
            || Ended(s, t, s.seen, Asides(s))
  {
    hide Exit, Finish, Ended, Asides;
    EndedByExit(s, s, Timeout, None);
    EndedByFinish(s);
  }

  lemma DoneOneMore(s: State, t: State)
    requires Done(s) && Ended(s, t, s.seen, Asides(s)) && Partition(s.req, s.seen, Asides(s))
    ensures Balanced(t) && Done(t)
  {
    hide Partition, Asides;
    assert t.results == s.results + [t.results[|s.results|]];
  }

  lemma BalancedAfterResume(s: State)
    requires Inv(s) && Balanced(s) && Done(s) && Enabled(s, Resume)
    ensures Step(s, Resume).Some? ==> Balanced(Step(s, Resume).value) && Done(Step(s, Resume).value)
  {
    hide Partition, Step, Ledger, Pending, Sound, Ended;
    ResultAfterResume(s);
    var t := Step(s, Resume).value;
    if t.results != s.results {
      DoneOneMore(s, t);
    } else {
      EndedGrows(s, t);
      assert Asides(t) == Asides(s);
    }
  }

  lemma EndedGrows(s: State, t: State)
    ensures Ended(s, t, s.seen, Asides(s)) ==> t.results != s.results
  {
  }

  lemma StepKeepsPartition(s: State, e: Event)
    requires Inv(s) && Balanced(s) && Done(s)
    ensures Step(s, e).Some? ==> Balanced(Step(s, e).value) && Done(Step(s, e).value)
  {
    if Enabled(s, e) {
      match e
      case Send(req, written) => BalancedAfterSend(s, req, written);
      case Retry(written) =>
        BalancedAfterSend(s, s.req.(retries := if s.req.retries > 0 then s.req.retries - 1 else 0), written);
      case Line(line) =>
        LineFrame(s, line);
        if s.chan.response.Some? {
          BalancedAfterLine(s, line);
        }
      case Resume => BalancedAfterResume(s);
      case _ =>
    }
  }

  lemma {:induction false} RunKeepsPartition(es: seq<Event>)
    ensures Run(INIT, es).Some? && Balanced(Run(INIT, es).value) && Done(Run(INIT, es).value)
  {
    Reachable(es);
    if es != [] {
      RunKeepsPartition(es[..|es| - 1]);
      Reachable(es[..|es| - 1]);
      StepKeepsPartition(Run(INIT, es[..|es| - 1]).value, es[|es| - 1]);
    }
  }

  /** Line partition: over every interleaving, the lines of every completed send
      split into those due to it, its final responses, its prompt and those that
      went to the unsolicited handler, each counted once. */
  lemma {:induction false} EveryLineUsedOnce(es: seq<Event>, r: Result)
    requires Run(INIT, es).Some? && r in Run(INIT, es).value.results
    ensures multiset(r.seen)
         == multiset(Due(r.req, r.seen)) + multiset(Finals(r.seen))
            + (if r.req.pdu.Some? && "> " in r.seen then multiset{"> "} else multiset{})
            + multiset(r.asides)
  {
    RunKeepsPartition(es);
  }
}
