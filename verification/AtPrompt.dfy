/** The prompt that follows a longer line: the reader is then left with earlier text. */
module AtPrompt {
  import opened CText
  import opened AtLines
  import opened AtFetch
  import opened LineBuffer

  /** A read that brings one whole line and nothing else. */
  lemma WholeLine(s: Text, k: nat, q: nat, chunks: seq<Text>)
    requires NoEol(s, k, q) && k < q < |s| && IsEol(s[q]) && q - k < MAX_AT_RESPONSE
    requires chunks != [] && chunks[0] == s[k..q + 1]
    ensures FetchLine(s, k, k, chunks) == Fetch(GotLine(Line(k, q)), k, q + 1, chunks[1..])
  {
    LineEndIs(s, k, q, q + 1);
    AwaitStep(s, Wait(k, k, k, k), chunks);
  }

  /** A read that brings a prompt and nothing else. */
  lemma WholePrompt(s: Text, k: nat, chunks: seq<Text>)
    requires PromptAt(s, k) && chunks != [] && chunks[0] == s[k..k + 2]
    ensures FetchLine(s, k, k, chunks) == Fetch(GotPrompt(k), k, k + 2, chunks[1..])
  {
    AwaitStep(s, Wait(k, k, k, k), chunks);
  }

  lemma {:induction false} AwaitPrompt(s: Text, w: Wait, chunks: seq<Text>)
    requires Fits(s, w) && EolAt(s, w.cur, w.end) < 0
    ensures var f := Await(s, w, chunks); f.outcome.Exhausted? ==> EolAt(s, f.outcome.at, f.end) < 0
    decreases |s| - w.end
  {
    hide Await, EolAt;
    NothingThere(s, w.end);
    if w.end + CountOf(w, chunks) <= |s| {
      AwaitStep(s, w, chunks);
      var v := AfterRead(s, w, CountOf(w, chunks));
      if CountOf(w, chunks) == 0 {
        assert v.cur == Emptied(w).cur && v.end == w.end;
      } else if EolAt(s, v.cur, v.end) < 0 {
        AwaitPrompt(s, v, Rest(chunks, CountOf(w, chunks)));
      }
    } else {
      TooMuch(s, w, chunks);
    }
  }

  lemma NothingThere(s: Text, e: nat)
    requires e <= |s|
    ensures EolAt(s, e, e) < 0
  {
  }

  lemma TooMuch(s: Text, w: Wait, chunks: seq<Text>)
    requires Fits(s, w) && w.end + CountOf(w, chunks) > |s|
    ensures Await(s, w, chunks) == Fetch(Exhausted(Emptied(w).cur), Emptied(w).from, w.end, chunks)
  {
  }

  /** A prompt that stands alone in the buffer, behind newlines, is returned at once; a
      prompt that is returned stood alone; and a call that returns nothing has not left
      one in the buffer, nor a line. */
  lemma PromptIffAlone(s: Text, c: nat, e: nat, chunks: seq<Text>)
    requires c <= e <= |s| && e - c <= MAX_AT_RESPONSE
    ensures var f := FetchLine(s, c, e, chunks);
            var p := EolsEnd(s, c, e);
            && (e == p + 2 && PromptAt(s, p) ==> f == Fetch(GotPrompt(p), c, e, chunks))
            && (f.outcome.GotPrompt? ==> f.end == f.outcome.at + 2 && PromptAt(s, f.outcome.at))
            && (f.outcome.Exhausted? ==>
                  && !(f.end == f.outcome.at + 2 && PromptAt(s, f.outcome.at))
                  && NoEol(s, f.outcome.at, f.end))
  {
    hide Await;
    var p := EolsEnd(s, c, e);
    if EolAt(s, p, e) < 0 {
      AwaitPrompt(s, Wait(c, p, p, e), chunks);
    }
  }

  /** After any line of at least four characters and then a prompt, each read on its own,
      the cursor stands on the line's fourth character and all of the stream has been
      read: what the next call takes for new has been delivered before. */
  method StaleAfterPrompt(line: Text) returns (b: AtBuffer, first: int, second: int)
    requires 4 <= |line| < MAX_AT_RESPONSE && NulFree(line) && NoEol(line, 0, |line|)
    ensures first == 0 && second == 0 && b.cur == 3 < b.bytes.Length && b.bytes[b.cur] == line[3]
    ensures var s := line + "\r> "; !exists n :: b.Held(s, |s|, |s|, n)
  {
    hide FetchLine, Brings, CString, NulFree;
    var s := line + "\r> ";
    var q := |line|;
    var port := new Port([line + "\r", "> "]);
    StreamOf(line, port.chunks);
    b := new AtBuffer();
    ghost var f;
    first, f := b.ReadLine(port, s, 0, 0);
    assert b.bytes[3] == s[3];
    second, f := b.ReadLine(port, s, q + 1, q + 1);
  }

  lemma StreamOf(line: Text, chunks: seq<Text>)
    requires 4 <= |line| < MAX_AT_RESPONSE && NulFree(line) && NoEol(line, 0, |line|)
    requires chunks == [line + "\r", "> "]
    ensures var s := line + "\r> ";
            && NulFree(s) && Brings(s, 0, chunks) && s[3] == line[3] != NUL
            && FetchLine(s, 0, 0, chunks) == Fetch(GotLine(Line(0, |line|)), 0, |line| + 1, ["> "])
            && FetchLine(s, |line| + 1, |line| + 1, ["> "]) == Fetch(GotPrompt(|line| + 1), |line| + 1, |line| + 3, [])
  {
    hide FetchLine, Brings;
    var s := line + "\r> ";
    var q := |line|;
    BringsBoth(line + "\r", "> ");
    assert line + "\r" + "> " == s;
    assert s[0..q + 1] == line + "\r" && forall i :: 0 <= i < q ==> s[i] == line[i];
    WholeLine(s, 0, q, chunks);
    assert s[q + 1..q + 3] == "> ";
    WholePrompt(s, q + 1, ["> "]);
  }

  lemma BringsBoth(a: Text, b: Text)
    ensures Brings(a + b, 0, [a, b])
  {
    assert [a, b][1..] == [b] && [b][1..] == [];
    assert Joined([b]) == b + Joined([]) == b;
    assert (a + b)[0..] == a + b;
  }
}
