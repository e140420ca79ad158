/** What all the calls of readline on a stream return, and when that is its lines. */
module AtDelivery {
  import opened CText
  import opened AtLines
  import opened AtFetch

  /** The lines that call after call returns, up to the first call that returns none. */
  function Received(s: Text, c: nat, e: nat, chunks: seq<Text>): seq<Text>
    requires c <= e <= |s| && e - c <= MAX_AT_RESPONSE
    decreases |s| - c
  {
    var f := FetchLine(s, c, e, chunks);
    match f.outcome
    case GotLine(l) => [s[l.start..l.end]] + Received(s, l.end + 1, f.end, f.chunks)
    case _ => []
  }

  /** No call returns a prompt. */
  predicate Unprompted(s: Text, c: nat, e: nat, chunks: seq<Text>)
    requires c <= e <= |s| && e - c <= MAX_AT_RESPONSE
    decreases |s| - c
  {
    var f := FetchLine(s, c, e, chunks);
    match f.outcome
    case GotLine(l) => Unprompted(s, l.end + 1, f.end, f.chunks)
    case GotPrompt(_) => false
    case Exhausted(_) => true
  }

  // ----- What a call throws away -----

  /** No complete line ends inside s[i..j]: newlines, then an unended line. */
  ghost predicate Unended(s: Text, i: nat, j: nat) {
    exists k :: i <= k <= j && AllEol(s, i, k) && NoEol(s, k, j)
  }

  /** Nothing, or newlines and then whole buffers in which no line ended. */
  ghost predicate Discarded(s: Text, i: nat, j: nat)
    decreases j
  {
    || i == j
    || (i + MAX_AT_RESPONSE <= j && Unended(s, j - MAX_AT_RESPONSE, j)
        && (AllEol(s, i, j - MAX_AT_RESPONSE) || Discarded(s, i, j - MAX_AT_RESPONSE)))
  }

  lemma EmptiedDiscards(s: Text, k: nat, w: Wait)
    requires Fits(s, w) && Discarded(s, k, w.from) && k <= w.from && (w.from == k || w.base == w.from)
    ensures Discarded(s, k, Emptied(w).from) && Fits(s, Emptied(w))
  {
    if w.end - w.base == MAX_AT_RESPONSE {
      assert AllEol(s, w.base, w.cur);
      assert Unended(s, w.base, w.end);
      assert w.from == k ==> AllEol(s, k, w.base);
    }
  }

  /** Whatever the chunks: the line returned is the next one of the stream behind what
      was thrown away; none is returned where none is left. */
  lemma {:induction false} AwaitDiscards(s: Text, k: nat, w: Wait, chunks: seq<Text>)
    requires Fits(s, w) && Discarded(s, k, w.from) && k <= w.from && (w.from == k || w.base == w.from)
    ensures var f := Await(s, w, chunks); NextBehind(s, k, f) && Emptied(w).from <= f.from
    decreases |s| - w.end
  {
    EmptiedDiscards(s, k, w);
    var n := CountOf(w, chunks);
    if n > 0 && w.end + n <= |s| {
      AwaitStep(s, w, chunks);
      var v := AfterRead(s, w, n);
      if EolAt(s, v.cur, v.end) < 0 {
        AwaitDiscards(s, k, v, Rest(chunks, n));
      } else {
        FoundBehind(s, k, v, Rest(chunks, n));
      }
    }
  }

  ghost predicate NextBehind(s: Text, k: nat, f: Fetch) {
    && k <= f.from && Discarded(s, k, f.from)
    && match f.outcome
       case GotLine(l) => f.from <= l.start && f.from <= |s| && NextLine(s, f.from) == Some(l)
       case GotPrompt(at) => AllEol(s, f.from, at)
       case Exhausted(at) => AllEol(s, f.from, at) && NoEol(s, at, f.end)
  }

  lemma FoundBehind(s: Text, k: nat, w: Wait, chunks: seq<Text>)
    requires k <= w.from && Discarded(s, k, w.from) && w.cur <= w.end <= |s| && AllEol(s, w.from, w.cur)
    requires EolAt(s, w.cur, w.end) >= 0 && (w.cur < w.end ==> !IsEol(s[w.cur]))
    ensures NextBehind(s, k, Found(s, w.from, w.cur, EolAt(s, w.cur, w.end), w.end, chunks))
  {
    var q := EolAt(s, w.cur, w.end);
    if q < w.end {
      NextLineIs(s, w.from, w.cur, q);
    }
  }

  lemma FetchDiscards(s: Text, c: nat, e: nat, chunks: seq<Text>)
    requires c <= e <= |s| && e - c <= MAX_AT_RESPONSE
    ensures NextBehind(s, c, FetchLine(s, c, e, chunks))
  {
    var p := EolsEnd(s, c, e);
    if EolAt(s, p, e) < 0 {
      AwaitDiscards(s, c, Wait(c, p, p, e), chunks);
    } else {
      FoundBehind(s, c, Wait(c, p, p, e), chunks);
    }
  }

  // ----- Lines that fit -----

  /** s[k..top] is newlines and then one line, which ends at top or never. */
  predicate OneLine(s: Text, k: nat, a: nat, top: nat) {
    && AllEol(s, k, a) && NoEol(s, a, top) && top < k + MAX_AT_RESPONSE
    && (top < |s| ==> a < top && IsEol(s[top]))
  }

  /** What a call must return then. */
  predicate Right(f: Fetch, s: Text, a: nat, top: nat, chunks: seq<Text>) {
    || (f.outcome.Exhausted? && (top == |s| || !NoneEmpty(chunks)))
    || (f.outcome == GotLine(Line(a, top)) && top < |s|)
  }

  lemma NoPromptThere(s: Text, k: nat, c: nat, e: nat)
    requires PromptFree(s) && AtStart(s, k) && AllEol(s, k, c) && c <= e <= |s|
    ensures EolAt(s, c, e) < e
  {
    assert AtStart(s, c);
    assert !PromptAt(s, c);
    assert e == c ==> EolAt(s, c, e) < 0;
  }

  /** Where the line of s[k..top] is found, once enough has been read. */
  lemma FoundRight(s: Text, k: nat, a: nat, top: nat, c: nat, e: nat)
    requires PromptFree(s) && AtStart(s, k) && OneLine(s, k, a, top)
    requires AllEol(s, k, c) && c <= e <= |s| && (c < e ==> !IsEol(s[c]))
    ensures var q := EolAt(s, c, e);
            if q < 0 then e <= top else c == a && q == top < e
  {
    var q := EolAt(s, c, e);
    NoPromptThere(s, k, c, e);
    assert a < top ==> !IsEol(s[a]) && c <= a;
    assert q >= 0 ==> !IsEol(s[c]) && a <= c;
    assert q >= 0 ==> IsEol(s[q]) && top <= q;
  }

  lemma {:induction false} AwaitFits(s: Text, k: nat, a: nat, top: nat, w: Wait, chunks: seq<Text>)
    requires PromptFree(s) && AtStart(s, k) && OneLine(s, k, a, top)
    requires Fits(s, w) && w.from == k && w.end <= top && Brings(s, w.end, chunks)
    ensures Right(Await(s, w, chunks), s, a, top, chunks)
    ensures Brings(s, Await(s, w, chunks).end, Await(s, w, chunks).chunks)
    ensures NoneEmpty(chunks) ==> NoneEmpty(Await(s, w, chunks).chunks)
    decreases |s| - w.end
  {
    hide PromptFree, Brings, NoneEmpty, OneLine, EolAt, Await;
    NotFull(s, k, a, top, w);
    var n := CountOf(w, chunks);
    BringsRest(s, w.end, chunks, w.base + MAX_AT_RESPONSE - w.end);
    AwaitStep(s, w, chunks);
    var v := AfterRead(s, w, n);
    FoundRight(s, k, a, top, v.cur, v.end);
    if n > 0 && EolAt(s, v.cur, v.end) < 0 {
      AwaitFits(s, k, a, top, v, Rest(chunks, n));
    }
  }

  lemma NotFull(s: Text, k: nat, a: nat, top: nat, w: Wait)
    requires OneLine(s, k, a, top) && Fits(s, w) && w.from == k && w.end <= top
    ensures Emptied(w) == w && w.base + MAX_AT_RESPONSE > w.end && (w.end == |s| ==> top == |s|)
    ensures AllEol(s, k, w.cur)
  {
  }

  lemma FetchFits(s: Text, k: nat, a: nat, top: nat, e: nat, chunks: seq<Text>)
    requires PromptFree(s) && AtStart(s, k) && OneLine(s, k, a, top)
    requires k <= e <= |s| && e - k <= MAX_AT_RESPONSE && Brings(s, e, chunks)
    ensures var f := FetchLine(s, k, e, chunks);
            && Right(f, s, a, top, chunks) && Brings(s, f.end, f.chunks)
            && (NoneEmpty(chunks) ==> NoneEmpty(f.chunks))
  {
    hide PromptFree, Brings, NoneEmpty, Await, EolAt;
    var c := EolsEnd(s, k, e);
    FoundRight(s, k, a, top, c, e);
    if EolAt(s, c, e) < 0 {
      AwaitFits(s, k, a, top, Wait(k, c, c, e), chunks);
    }
  }

  /** The line at k, or the text behind the last one, as OneLine has it. */
  lemma NextIsOne(s: Text, k: nat)
    requires k <= |s|
    ensures NextLine(s, k).Some? && NextLine(s, k).value.end < k + MAX_AT_RESPONSE ==>
              OneLine(s, k, NextLine(s, k).value.start, NextLine(s, k).value.end)
    ensures NextLine(s, k).None? && |s| < k + MAX_AT_RESPONSE ==>
              exists a: nat :: OneLine(s, k, a, |s|)
  {
    NextLineParts(s, k);
    if NextLine(s, k).None? && |s| < k + MAX_AT_RESPONSE {
      var a: nat :| AllEol(s, k, a) && NoEol(s, a, |s|);
      assert OneLine(s, k, a, |s|);
    }
  }

  lemma NoLineBehind(s: Text, c: nat, d: nat)
    requires c <= d <= |s| && NextLine(s, c) == None
    ensures NextLine(s, d) == None
  {
    NextLineParts(s, c);
    var a: nat :| AllEol(s, c, a) && NoEol(s, a, |s|);
    NoLine(s, d, if d <= a then a else d);
  }

  /** For all chunks: when each line fits the buffer, what is received is the lines of
      the stream, all of them unless a read fails. */
  lemma {:induction false} ReceivesLines(s: Text, k: nat, e: nat, chunks: seq<Text>)
    requires PromptFree(s) && AtStart(s, k) && LinesFit(s, k)
    requires k <= e <= |s| && e - k <= MAX_AT_RESPONSE && Brings(s, e, chunks)
    ensures var r, all := Received(s, k, e, chunks), Lines(s, k);
            |r| <= |all| && r == all[..|r|] && (NoneEmpty(chunks) ==> r == all)
    ensures TailFits(s, k) ==> Unprompted(s, k, e, chunks)
    decreases |s| - k
  {
    hide FetchLine, PromptFree, Brings, NoneEmpty, OneLine, NextLine;
    var f := FetchLine(s, k, e, chunks);
    NextIsOne(s, k);
    match NextLine(s, k)
    case None =>
      FetchDiscards(s, k, e, chunks);
      if f.outcome.GotLine? {
        NoLineBehind(s, k, f.from);
      }
      if |s| < k + MAX_AT_RESPONSE {
        var a: nat :| OneLine(s, k, a, |s|);
        FetchFits(s, k, a, |s|, e, chunks);
      }
    case Some(l) =>
      FetchFits(s, k, l.start, l.end, e, chunks);
      if f.outcome.GotLine? {
        LineIsNext(s, k);
        ReceivesLines(s, l.end + 1, f.end, f.chunks);
      }
  }

  lemma LineIsNext(s: Text, k: nat)
    requires k <= |s| && NextLine(s, k).Some?
    ensures AtStart(s, NextLine(s, k).value.end + 1)
  {
  }
}
