/** readerLoop: every line the buffer yields is handed on exactly once. */
module AtReader {
  import opened CText
  import opened AtLines
  import opened AtFetch
  import opened AtDelivery
  import opened AtResults
  import opened LineBuffer

  /** SMS headers are handed on with the line after them, all other lines alone. */
  datatype Delivery = SmsPair(header: Text, pdu: Text) | Single(line: Text)

  function Group(lines: seq<Text>): (r: seq<Delivery>) {
    if lines == [] then []
    else if !SmsUnsolicited(lines[0]) then [Single(lines[0])] + Group(lines[1..])
    else if |lines| == 1 then []
    else [SmsPair(lines[0], lines[1])] + Group(lines[2..])
  }

  function LinesOf(d: Delivery): seq<Text> {
    match d
    case SmsPair(h, p) => [h, p]
    case Single(l) => [l]
  }

  function Handed(ds: seq<Delivery>): seq<Text> {
    if ds == [] then [] else LinesOf(ds[0]) + Handed(ds[1..])
  }

  /** The header that end of stream cut off from its second line, if any. */
  function CutOff(lines: seq<Text>): seq<Text> {
    if lines == [] then []
    else if !SmsUnsolicited(lines[0]) then CutOff(lines[1..])
    else if |lines| == 1 then lines
    else CutOff(lines[2..])
  }

  /** Line partition: what is handed on is the input, line for line and in order,
      but for a final SMS header whose second line never came. */
  lemma {:induction false} GroupPartitions(lines: seq<Text>)
    ensures lines == Handed(Group(lines)) + CutOff(lines)
    ensures |CutOff(lines)| <= 1
    ensures CutOff(lines) != [] ==> SmsUnsolicited(CutOff(lines)[0])
    ensures forall i :: 0 <= i < |Group(lines)| ==> RightKind(Group(lines)[i])
  {
    hide SmsUnsolicited, Handed, Group, CutOff, RightKind;
    GroupStep(lines);
    HandedNone();
    if lines != [] && !SmsUnsolicited(lines[0]) {
      GroupPartitions(lines[1..]);
      HandedCons(Single(lines[0]), Group(lines[1..]));
      Prefixed([lines[0]], lines[1..], Handed(Group(lines[1..])), CutOff(lines[1..]));
      assert lines == [lines[0]] + lines[1..];
    } else if |lines| > 1 {
      GroupPartitions(lines[2..]);
      HandedCons(SmsPair(lines[0], lines[1]), Group(lines[2..]));
      Prefixed([lines[0], lines[1]], lines[2..], Handed(Group(lines[2..])), CutOff(lines[2..]));
      assert lines == [lines[0], lines[1]] + lines[2..];
    }
  }

  lemma GroupStep(lines: seq<Text>)
    ensures |lines| == 0 ==> Group(lines) == [] && CutOff(lines) == []
    ensures |lines| > 0 && !SmsUnsolicited(lines[0]) ==>
              && Group(lines) == [Single(lines[0])] + Group(lines[1..]) && CutOff(lines) == CutOff(lines[1..])
              && RightKind(Single(lines[0]))
    ensures |lines| == 1 && SmsUnsolicited(lines[0]) ==> Group(lines) == [] && CutOff(lines) == lines
    ensures |lines| > 1 && SmsUnsolicited(lines[0]) ==>
              && Group(lines) == [SmsPair(lines[0], lines[1])] + Group(lines[2..])
              && CutOff(lines) == CutOff(lines[2..])
              && RightKind(SmsPair(lines[0], lines[1]))
  {
    hide SmsUnsolicited;
  }

  lemma Prefixed(p: seq<Text>, rest: seq<Text>, a: seq<Text>, b: seq<Text>)
    requires rest == a + b
    ensures p + rest == p + a + b
  {
  }

  lemma HandedNone()
    ensures Handed([]) == []
  {
  }

  /** Headers of two-line SMS messages, and only they, are paired. */
  predicate RightKind(d: Delivery) {
    match d
    case SmsPair(h, _) => SmsUnsolicited(h)
    case Single(l) => !SmsUnsolicited(l)
  }

  lemma HandedCons(d: Delivery, ds: seq<Delivery>)
    ensures Handed([d] + ds) == LinesOf(d) + Handed(ds)
  {
    assert ([d] + ds)[1..] == ds;
  }

  lemma {:induction false} GroupAppend(lines: seq<Text>, more: seq<Text>)
    requires CutOff(lines) == []
    ensures Group(lines + more) == Group(lines) + Group(more)
    ensures CutOff(lines + more) == CutOff(more)
  {
    if lines == [] {
      assert lines + more == more;
    } else if !SmsUnsolicited(lines[0]) {
      assert (lines + more)[1..] == lines[1..] + more;
      GroupAppend(lines[1..], more);
    } else {
      assert (lines + more)[2..] == lines[2..] + more;
      GroupAppend(lines[2..], more);
    }
  }

  lemma GroupSingle(all: seq<Text>, k: nat)
    requires k < |all| && CutOff(all[..k]) == [] && !SmsUnsolicited(all[k])
    ensures Group(all[..k + 1]) == Group(all[..k]) + [Single(all[k])] && CutOff(all[..k + 1]) == []
  {
    GroupAppend(all[..k], [all[k]]);
    assert all[..k + 1] == all[..k] + [all[k]];
  }

  lemma GroupPair(all: seq<Text>, k: nat)
    requires k + 1 < |all| && CutOff(all[..k]) == [] && SmsUnsolicited(all[k])
    ensures Group(all[..k + 2]) == Group(all[..k]) + [SmsPair(all[k], all[k + 1])]
    ensures CutOff(all[..k + 2]) == []
  {
    GroupAppend(all[..k], [all[k], all[k + 1]]);
    assert all[..k + 2] == all[..k] + [all[k], all[k + 1]];
  }

  lemma GroupCut(all: seq<Text>, k: nat)
    requires k < |all| && CutOff(all[..k]) == [] && SmsUnsolicited(all[k])
    ensures Group(all[..k + 1]) == Group(all[..k])
  {
    GroupAppend(all[..k], [all[k]]);
    assert all[..k + 1] == all[..k] + [all[k]];
  }

  // ----- The loop -----

  /** The reader stands at s[k..], of which e has been read, and is still to receive rest;
      it meets no prompt. */
  ghost predicate Reading(b: AtBuffer, port: Port, s: Text, k: nat, e: nat, rest: seq<Text>)
    reads b, b.bytes, port
  {
    && NulFree(s) && b.Unread(s, k, e) && Brings(s, e, port.chunks)
    && Unprompted(s, k, e, port.chunks) && Received(s, k, e, port.chunks) == rest
  }

  lemma OneCall(s: Text, k: nat, e: nat, chunks: seq<Text>)
    requires k <= e <= |s| && e - k <= MAX_AT_RESPONSE && Unprompted(s, k, e, chunks)
    ensures var f := FetchLine(s, k, e, chunks);
            && !f.outcome.GotPrompt?
            && (f.outcome.Exhausted? ==> Received(s, k, e, chunks) == [])
            && (f.outcome.GotLine? ==>
                  var l := f.outcome.line;
                  && Unprompted(s, l.end + 1, f.end, f.chunks)
                  && Received(s, k, e, chunks) == [s[l.start..l.end]] + Received(s, l.end + 1, f.end, f.chunks))
  {
    hide FetchLine;
  }

  /** readline, with the copy (strdup) of the line it returns. */
  method Next(b: AtBuffer, port: Port, ghost s: Text, ghost k: nat, ghost e: nat, ghost rest: seq<Text>)
    returns (line: Option<Text>, ghost k2: nat, ghost e2: nat)
    requires Reading(b, port, s, k, e, rest)
    modifies b, b.bytes, port
    ensures if rest == [] then line.None? else line == Some(rest[0]) && Reading(b, port, s, k2, e2, rest[1..])
  {
    hide NulFree, Brings, Unprompted, Received, FetchLine, CString;
    OneCall(s, k, e, port.chunks);
    var ret;
    ghost var f;
    ret, f := b.ReadLine(port, s, k, e);
    if ret < 0 {
      return None, k, e;
    }
    return Some(CString(b.bytes[ret..])), f.outcome.line.end + 1, f.end;
  }

  /** One pass of readerLoop's body, which begins with line n of all; None at the end of
      the stream. */
  method Round(b: AtBuffer, port: Port, ghost s: Text, ghost k: nat, ghost e: nat, ghost all: seq<Text>, ghost n: nat)
    returns (d: Option<Delivery>, ghost k2: nat, ghost e2: nat, ghost m: nat)
    requires n <= |all| && Reading(b, port, s, k, e, all[n..]) && CutOff(all[..n]) == []
    modifies b, b.bytes, port
    ensures n <= m <= |all|
    ensures d.Some? ==>
              && n < m && Reading(b, port, s, k2, e2, all[m..])
              && Group(all[..m]) == Group(all[..n]) + [d.value] && CutOff(all[..m]) == []
    ensures d.None? ==> m == |all| && Group(all) == Group(all[..n])
  {
    hide Reading, Group, CutOff, SmsUnsolicited;
    m := n;
    var line, line2;
    line, k2, e2 := Next(b, port, s, k, e, all[n..]);
    if line.None? {
      assert all[..n] == all;
      return None, k2, e2, n;
    }
    assert all[n..][1..] == all[n + 1..];
    var sms := IsSmsUnsolicited(line.value);
    if !sms {
      GroupSingle(all, n);
      return Some(Single(line.value)), k2, e2, n + 1;
    }
    line2, k2, e2 := Next(b, port, s, k2, e2, all[n + 1..]);
    if line2.None? {
      GroupCut(all, n);
      assert all[..n + 1] == all;
      return None, k2, e2, n + 1;
    }
    assert all[n + 1..][1..] == all[n + 2..];
    GroupPair(all, n);
    return Some(SmsPair(line.value, line2.value)), k2, e2, n + 2;
  }

  method IsSmsUnsolicited(line: Text) returns (r: bool)
    ensures r == SmsUnsolicited(line)
  {
    r := Listed(line, SMS_UNSOLICITEDS);
  }

  /** readerLoop, up to the end of the stream or a failed read, for any chunks. */
  method ReaderLoop(b: AtBuffer, port: Port, ghost s: Text, ghost k: nat, ghost e: nat, ghost all: seq<Text>)
    returns (log: seq<Delivery>)
    requires Reading(b, port, s, k, e, all)
    modifies b, b.bytes, port
    ensures log == Group(all)
  {
    hide Reading;
    ghost var k', e', n := k, e, 0;
    log := [];
    assert all[0..] == all;
    while true
      invariant n <= |all| && Reading(b, port, s, k', e', all[n..])
      invariant log == Group(all[..n]) && CutOff(all[..n]) == []
      decreases |all| - n
    {
      var d;
      d, k', e', n := Round(b, port, s, k', e', all, n);
      if d.None? {
        break;
      }
      log := log + [d.value];
    }
  }

  /** The reader thread on a new channel: over any chunks, when no line begins with a
      prompt and the lines fit the buffer, it hands on the lines of the whole stream, each
      once; after a failed read, those before. */
  method ReadStream(chunks: seq<Text>) returns (log: seq<Delivery>, ghost taken: nat)
    requires var s := Joined(chunks); NulFree(s) && PromptFree(s) && LinesFit(s, 0) && TailFits(s, 0)
    ensures taken <= |Lines(Joined(chunks), 0)| && log == Group(Lines(Joined(chunks), 0)[..taken])
    ensures NoneEmpty(chunks) ==> log == Group(Lines(Joined(chunks), 0))
  {
    hide NulFree, PromptFree, LinesFit, TailFits, Received, Unprompted, Joined, NoneEmpty;
    ghost var s := Joined(chunks);
    assert s[0..] == s;
    ReceivesLines(s, 0, 0, chunks);
    var b := new AtBuffer();
    var port := new Port(chunks);
    log := ReaderLoop(b, port, s, 0, 0, Received(s, 0, 0, chunks));
    taken := |Received(s, 0, 0, chunks)|;
  }
}
