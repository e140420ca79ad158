/** What the AT reader is meant to do to a byte stream: cut it into its
    non-empty lines, each ended by a carriage return or a line feed. */
module AtLines {
  import opened CText

  const MAX_AT_RESPONSE: nat := 8 * 1024

  predicate IsEol(c: char) {
    c == '\r' || c == '\n'
  }

  predicate AllEol(s: Text, i: nat, j: nat) {
    i <= j <= |s| && forall k :: i <= k < j ==> IsEol(s[k])
  }

  predicate NoEol(s: Text, i: nat, j: nat) {
    i <= j <= |s| && forall k :: i <= k < j ==> !IsEol(s[k])
  }

  /** Past the newlines at k, as far as e. */
  function EolsEnd(s: Text, k: nat, e: nat): (p: nat)
    requires k <= e <= |s|
    ensures k <= p <= e && AllEol(s, k, p) && (p < e ==> !IsEol(s[p]))
    decreases e - k
  {
    if k < e && IsEol(s[k]) then EolsEnd(s, k + 1, e) else k
  }

  /** Where the line at k ends: at a newline or at e. */
  function LineEnd(s: Text, k: nat, e: nat): (p: nat)
    requires k <= e <= |s|
    ensures k <= p <= e && NoEol(s, k, p) && (p < e ==> IsEol(s[p]))
    decreases e - k
  {
    if k == e || IsEol(s[k]) then k else LineEnd(s, k + 1, e)
  }

  /** A line s[start..end] whose terminator is at end. */
  datatype Line = Line(start: nat, end: nat)

  /** The first complete non-empty line from k on. */
  function NextLine(s: Text, k: nat): (r: Option<Line>)
    requires k <= |s|
    ensures r.Some? ==> k <= r.value.start < r.value.end < |s| && IsEol(s[r.value.end])
  {
    var a := EolsEnd(s, k, |s|);
    var e := LineEnd(s, a, |s|);
    if e == |s| then None else Some(Line(a, e))
  }

  /** All complete non-empty lines from k on. */
  function Lines(s: Text, k: nat): seq<Text>
    requires k <= |s|
    decreases |s| - k
  {
    match NextLine(s, k)
    case None => []
    case Some(l) => [s[l.start..l.end]] + Lines(s, l.end + 1)
  }

  // ----- The reference: split at every CR or LF and drop the empty pieces -----

  function Pieces(s: Text): (r: seq<Text>)
    ensures |r| > 0
  {
    if s == [] then [[]]
    else if IsEol(s[0]) then [[]] + Pieces(s[1..])
    else var p := Pieces(s[1..]); [[s[0]] + p[0]] + p[1..]
  }

  function NonEmpty(ps: seq<Text>): seq<Text> {
    if ps == [] then []
    else if ps[0] == [] then NonEmpty(ps[1..])
    else [ps[0]] + NonEmpty(ps[1..])
  }

  /** All pieces but the last, which no newline ends, and the empty ones. */
  function Ended(ps: seq<Text>): seq<Text>
    requires ps != []
  {
    NonEmpty(ps[..|ps| - 1])
  }

  lemma EndedOne(p: Text)
    ensures Ended([p]) == []
  {
    assert [p][..0] == [];
  }

  lemma EndedCons(p: Text, ps: seq<Text>)
    requires ps != []
    ensures Ended([p] + ps) == if p == [] then Ended(ps) else [p] + Ended(ps)
  {
    assert ([p] + ps)[..|ps|][1..] == ps[..|ps| - 1];
  }

  /** The first piece of s[k..] runs to the end of the line at k. */
  lemma {:induction false} PiecesAt(s: Text, k: nat)
    requires k <= |s|
    ensures var e := LineEnd(s, k, |s|);
            Pieces(s[k..]) == if e == |s| then [s[k..]] else [s[k..e]] + Pieces(s[e + 1..])
    decreases |s| - k
  {
    hide NoEol, IsEol, Pieces;
    PiecesStep(s, k);
    LineEndStep(s, k);
    var e := LineEnd(s, k, |s|);
    if k < |s| && !IsEol(s[k]) {
      PiecesAt(s, k + 1);
      if e == |s| {
        assert [s[k]] + s[k + 1..] == s[k..];
      } else {
        assert [s[k]] + s[k + 1..e] == s[k..e];
      }
    }
  }

  lemma PiecesStep(s: Text, k: nat)
    requires k <= |s|
    ensures k == |s| ==> Pieces(s[k..]) == [s[k..]]
    ensures k < |s| && IsEol(s[k]) ==> Pieces(s[k..]) == [s[k..k]] + Pieces(s[k + 1..])
    ensures k < |s| && !IsEol(s[k]) ==>
              var p := Pieces(s[k + 1..]); Pieces(s[k..]) == [[s[k]] + p[0]] + p[1..]
  {
    if k < |s| {
      assert s[k..][1..] == s[k + 1..] && s[k..][0] == s[k] && s[k..k] == [];
    }
  }

  lemma LineEndStep(s: Text, k: nat)
    requires k <= |s|
    ensures LineEnd(s, k, |s|) == if k == |s| || IsEol(s[k]) then k else LineEnd(s, k + 1, |s|)
  {
  }

  lemma LinesAt(s: Text, k: nat)
    requires k <= |s|
    ensures var e := LineEnd(s, k, |s|);
            Lines(s, k) == if e == |s| then []
                           else if e == k then Lines(s, k + 1)
                           else [s[k..e]] + Lines(s, e + 1)
  {
    hide NextLine, LineEnd, IsEol, NoEol;
    NextLineAt(s, k);
    if k < |s| && NextLine(s, k) == NextLine(s, k + 1) {
      SameLines(s, k);
    }
  }

  lemma SameLines(s: Text, k: nat)
    requires k < |s| && NextLine(s, k) == NextLine(s, k + 1)
    ensures Lines(s, k) == Lines(s, k + 1)
  {
    hide NextLine;
  }

  /** The next line begins at once, unless a newline comes first. */
  lemma NextLineAt(s: Text, k: nat)
    requires k <= |s|
    ensures var e := LineEnd(s, k, |s|);
            NextLine(s, k) == if e == |s| then None
                              else if e == k then NextLine(s, k + 1)
                              else Some(Line(k, e))
  {
  }

  /** The lines from k on are the non-empty pieces, but the last, unended one. */
  lemma {:induction false} LinesAreNonEmptyPieces(s: Text, k: nat)
    requires k <= |s|
    ensures Lines(s, k) == Ended(Pieces(s[k..]))
    decreases |s| - k
  {
    hide Pieces, Ended, Lines, LineEnd;
    PiecesAt(s, k);
    LinesAt(s, k);
    var e := LineEnd(s, k, |s|);
    if e == |s| {
      EndedOne(s[k..]);
    } else {
      LinesAreNonEmptyPieces(s, e + 1);
      EndedCons(s[k..e], Pieces(s[e + 1..]));
    }
  }

  // ----- Facts about the offsets -----

  lemma {:induction false} EolsEndIs(s: Text, k: nat, c: nat, e: nat)
    requires c <= e <= |s| && AllEol(s, k, c)
    ensures EolsEnd(s, k, e) == EolsEnd(s, c, e)
    decreases c - k
  {
    if k < c {
      EolsEndIs(s, k + 1, c, e);
    }
  }

  lemma {:induction false} LineEndIs(s: Text, k: nat, p: nat, e: nat)
    requires NoEol(s, k, p) && p <= e <= |s| && (p < e ==> IsEol(s[p]))
    ensures LineEnd(s, k, e) == p
    decreases p - k
  {
    if k < p {
      LineEndIs(s, k + 1, p, e);
    }
  }

  lemma NextLineIs(s: Text, k: nat, c: nat, q: nat)
    requires AllEol(s, k, c) && NoEol(s, c, q) && c < q < |s| && IsEol(s[q])
    ensures NextLine(s, k) == Some(Line(c, q))
  {
    EolsEndIs(s, k, c, |s|);
    LineEndIs(s, c, q, |s|);
  }

  lemma NoLine(s: Text, k: nat, c: nat)
    requires AllEol(s, k, c) && NoEol(s, c, |s|)
    ensures NextLine(s, k) == None
  {
    EolsEndIs(s, k, c, |s|);
    LineEndIs(s, EolsEnd(s, c, |s|), |s|, |s|);
  }

  /** The next line as its parts, and nothing but newlines before it. */
  lemma NextLineParts(s: Text, k: nat)
    requires k <= |s|
    ensures NextLine(s, k).Some? ==>
              var l := NextLine(s, k).value; AllEol(s, k, l.start) && NoEol(s, l.start, l.end)
    ensures NextLine(s, k).None? ==>
              exists c: nat :: AllEol(s, k, c) && NoEol(s, c, |s|)
  {
    var c := EolsEnd(s, k, |s|);
    if NextLine(s, k).None? {
      assert AllEol(s, k, c) && NoEol(s, c, |s|);
    }
  }

  // ----- Conditions on a stream -----

  /** Each line, with the newlines before it and its terminator, fits the buffer. */
  predicate LinesFit(s: Text, k: nat)
    requires k <= |s|
    decreases |s| - k
  {
    match NextLine(s, k)
    case None => true
    case Some(l) => l.end - k < MAX_AT_RESPONSE && LinesFit(s, l.end + 1)
  }

  /** So does the text behind the last line. */
  predicate TailFits(s: Text, k: nat)
    requires k <= |s|
    decreases |s| - k
  {
    match NextLine(s, k)
    case None => |s| - k < MAX_AT_RESPONSE
    case Some(l) => TailFits(s, l.end + 1)
  }

  /** Each run of newlines before a line is shorter than the buffer. */
  predicate RunsFit(s: Text, k: nat)
    requires k <= |s|
    decreases |s| - k
  {
    match NextLine(s, k)
    case None => true
    case Some(l) => l.start - k < MAX_AT_RESPONSE && RunsFit(s, l.end + 1)
  }

  predicate PromptAt(s: Text, i: nat) {
    i + 2 <= |s| && s[i] == '>' && s[i + 1] == ' '
  }

  /** Offset k is where a line may begin. */
  predicate AtStart(s: Text, k: nat) {
    k <= |s| && (k == 0 || IsEol(s[k - 1]))
  }

  /** No line begins with the SMS prompt. */
  ghost predicate PromptFree(s: Text) {
    forall i: nat :: AtStart(s, i) ==> !PromptAt(s, i)
  }
}
