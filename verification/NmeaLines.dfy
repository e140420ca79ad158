/** Which parts of a byte stream the line assembler gives to the parser. */
module NmeaLines {
  import opened CText
  import opened NmeaReader

  /** Feeding s[i..]. */
  function FeedFrom(a: Assembler, s: Text, i: nat): Assembler
    requires i <= |s|
    decreases |s| - i
  {
    if i == |s| then a else FeedFrom(Feed(a, s[i]), s, i + 1)
  }

  const START := Assembler([], false, [])

  /** The reference: from k on, a body with its newline is parsed if it has at most
      82 characters before the newline; else character k + 83 overflows, and reading
      goes on behind the first newline after that character. */
  function Sentences(s: Text, k: nat): seq<Text>
    requires k <= |s|
    decreases |s| - k
  {
    var n := Find(s, '\n', k, |s|);
    if n - k < NMEA_MAX_SIZE then
      if n == |s| then [] else [s[k..n + 1]] + Sentences(s, n + 1)
    else if k + NMEA_MAX_SIZE == |s| then []
    else
      var r := Find(s, '\n', k + NMEA_MAX_SIZE + 1, |s|);
      if r == |s| then [] else Sentences(s, r + 1)
  }

  /** Overflow: everything up to and with the next newline is passed over. */
  lemma {:induction false} Skipping(s: Text, i: nat, done: seq<Text>)
    requires i <= |s|
    ensures var n := Find(s, '\n', i, |s|);
            FeedFrom(Assembler([], true, done), s, i)
            == if n == |s| then Assembler([], true, done) else FeedFrom(Assembler([], false, done), s, n + 1)
    decreases |s| - i
  {
    if i < |s| && s[i] != '\n' {
      Skipping(s, i + 1, done);
    }
  }

  /** Nothing but the characters s[k..i] of the line at k is held. */
  predicate Holding(a: Assembler, s: Text, k: nat, i: nat) {
    && k <= i <= |s| && i - k <= NMEA_MAX_SIZE && !a.overflow && a.held == s[k..i]
    && forall j :: k <= j < i ==> s[j] != '\n'
  }

  lemma HoldMore(a: Assembler, s: Text, k: nat, i: nat)
    requires Holding(a, s, k, i) && i < |s| && i - k < NMEA_MAX_SIZE && s[i] != '\n'
    ensures Holding(Feed(a, s[i]), s, k, i + 1) && Feed(a, s[i]).parsed == a.parsed
  {
  }

  lemma Hand(a: Assembler, s: Text, k: nat, i: nat)
    requires Holding(a, s, k, i) && i < |s| && i - k < NMEA_MAX_SIZE && s[i] == '\n'
    ensures Holding(Feed(a, s[i]), s, i + 1, i + 1) && Feed(a, s[i]).parsed == a.parsed + [s[k..i + 1]]
    ensures Sentences(s, k) == [s[k..i + 1]] + Sentences(s, i + 1)
  {
    FindFrom(s, '\n', k, |s|, i);
    assert s[k..i] + [s[i]] == s[k..i + 1];
  }

  /** What is parsed once the characters passed over have ended. */
  function AfterSwallow(s: Text, k: nat): seq<Text>
    requires k <= |s|
  {
    var r := Find(s, '\n', k, |s|);
    if r == |s| then [] else Sentences(s, r + 1)
  }

  lemma Overflow(a: Assembler, s: Text, k: nat, i: nat)
    requires Holding(a, s, k, i) && i < |s| && i - k == NMEA_MAX_SIZE
    ensures Sentences(s, k) == AfterSwallow(s, i + 1)
    ensures Feed(a, s[i]) == Assembler([], true, a.parsed)
  {
    FindFrom(s, '\n', k, |s|, i);
  }

  lemma NothingLeft(a: Assembler, s: Text, k: nat)
    requires Holding(a, s, k, |s|)
    ensures Sentences(s, k) == []
  {
    FindFrom(s, '\n', k, |s|, |s|);
  }

  /** The assembler refines the reference, over any stream. */
  lemma {:induction false} Refines(a: Assembler, s: Text, k: nat, i: nat)
    requires Holding(a, s, k, i)
    ensures FeedFrom(a, s, i).parsed == a.parsed + Sentences(s, k)
    decreases |s| - i
  {
    hide Sentences, Feed;
    if i == |s| {
      NothingLeft(a, s, k);
    } else if i - k == NMEA_MAX_SIZE {
      Overflow(a, s, k, i);
      Skipping(s, i + 1, a.parsed);
      var r := Find(s, '\n', i + 1, |s|);
      if r < |s| {
        Fresh(a.parsed, s, r + 1);
        Refines(Assembler([], false, a.parsed), s, r + 1, r + 1);
      }
    } else if s[i] == '\n' {
      Hand(a, s, k, i);
      Refines(Feed(a, s[i]), s, i + 1, i + 1);
      Associate(a.parsed, [s[k..i + 1]], Sentences(s, i + 1));
    } else {
      HoldMore(a, s, k, i);
      Refines(Feed(a, s[i]), s, k, i + 1);
    }
  }

  lemma Fresh(parsed: seq<Text>, s: Text, k: nat)
    requires k <= |s|
    ensures Holding(Assembler([], false, parsed), s, k, k)
  {
  }

  lemma Associate(a: seq<Text>, b: seq<Text>, c: seq<Text>)
    ensures (a + b) + c == a + (b + c)
  {
  }

  lemma StreamRefines(s: Text)
    ensures FeedFrom(START, s, 0).parsed == Sentences(s, 0)
  {
    Fresh([], s, 0);
    Refines(START, s, 0, 0);
  }

  /** Between characters: at most 83 held, none while overflowing, no newline. */
  lemma {:induction false} Bounds(a: Assembler, s: Text, i: nat)
    requires i <= |s| && |a.held| <= NMEA_MAX_SIZE && (a.overflow ==> a.held == []) && '\n' !in a.held
    ensures var b := FeedFrom(a, s, i);
            |b.held| <= NMEA_MAX_SIZE && (b.overflow ==> b.held == []) && '\n' !in b.held
    decreases |s| - i
  {
    if i < |s| {
      Bounds(Feed(a, s[i]), s, i + 1);
    }
  }

  // ----- Line by line -----

  predicate AreLines(ls: seq<Text>) {
    forall i :: 0 <= i < |ls| ==> '\n' !in ls[i]
  }

  function Stream(ls: seq<Text>): Text {
    if ls == [] then [] else ls[0] + ['\n'] + Stream(ls[1..])
  }

  /** A line of exactly 83 characters makes its own newline the overflow character,
      so that the line behind it is swallowed whole. */
  function Kept(ls: seq<Text>, swallow: bool): seq<Text> {
    if ls == [] then []
    else if !swallow && |ls[0]| < NMEA_MAX_SIZE then [ls[0] + ['\n']] + Kept(ls[1..], false)
    else Kept(ls[1..], !swallow && |ls[0]| == NMEA_MAX_SIZE)
  }

  /** The cases of Sentences, for a line s[k..n]. */
  lemma SentenceCases(s: Text, k: nat, n: nat)
    requires k <= n < |s| && s[n] == '\n' && forall j :: k <= j < n ==> s[j] != '\n'
    ensures AfterSwallow(s, k) == Sentences(s, n + 1)
    ensures Sentences(s, k) == if n - k < NMEA_MAX_SIZE then [s[k..n + 1]] + Sentences(s, n + 1)
                               else if n - k == NMEA_MAX_SIZE then AfterSwallow(s, n + 1)
                               else Sentences(s, n + 1)
  {
    FindIs(s, '\n', k, |s|, n);
    SwallowedTo(s, k, n);
    if n - k > NMEA_MAX_SIZE {
      SwallowedTo(s, k + NMEA_MAX_SIZE + 1, n);
    }
    SentencesAre(s, k);
    hide Sentences, AfterSwallow, Find;
  }

  lemma SwallowedTo(s: Text, k: nat, n: nat)
    requires k <= n < |s| && s[n] == '\n' && forall j :: k <= j < n ==> s[j] != '\n'
    ensures AfterSwallow(s, k) == Sentences(s, n + 1)
  {
    hide Sentences;
    FindIs(s, '\n', k, |s|, n);
  }

  lemma SentencesAre(s: Text, k: nat)
    requires k <= |s|
    ensures var n := Find(s, '\n', k, |s|);
            Sentences(s, k) ==
              if n - k >= NMEA_MAX_SIZE then
                if k + NMEA_MAX_SIZE == |s| then [] else AfterSwallow(s, k + NMEA_MAX_SIZE + 1)
              else if n == |s| then []
              else [s[k..n + 1]] + Sentences(s, n + 1)
  {
  }

  /** What is parsed of a stream of lines, from the start of a line or from inside a
      swallowed one. */
  lemma {:induction false} LinesKept(s: Text, k: nat, ls: seq<Text>, swallow: bool)
    requires AreLines(ls) && k <= |s| && s[k..] == Stream(ls)
    ensures (if swallow then AfterSwallow(s, k) else Sentences(s, k)) == Kept(ls, swallow)
    decreases |ls|
  {
    hide Sentences, AfterSwallow, AreLines, Kept, Stream;
    if ls == [] {
      NoMoreLines(s, k, ls, swallow);
    } else {
      TailLines(ls);
      var n := k + |ls[0]|;
      FirstLine(s, k, ls);
      SentenceCases(s, k, n);
      KeptCases(ls, swallow);
      LinesKept(s, n + 1, ls[1..], !swallow && |ls[0]| == NMEA_MAX_SIZE);
    }
  }

  lemma KeptCases(ls: seq<Text>, swallow: bool)
    requires ls != []
    ensures Kept(ls, swallow) == if !swallow && |ls[0]| < NMEA_MAX_SIZE then [ls[0] + ['\n']] + Kept(ls[1..], false)
                                 else Kept(ls[1..], !swallow && |ls[0]| == NMEA_MAX_SIZE)
  {
  }

  lemma NoMoreLines(s: Text, k: nat, ls: seq<Text>, swallow: bool)
    requires k <= |s| && ls == [] && s[k..] == Stream(ls)
    ensures Sentences(s, k) == AfterSwallow(s, k) == Kept(ls, swallow)
  {
    assert k == |s|;
  }

  lemma TailLines(ls: seq<Text>)
    requires AreLines(ls) && ls != []
    ensures AreLines(ls[1..])
  {
  }

  lemma FirstLine(s: Text, k: nat, ls: seq<Text>)
    requires AreLines(ls) && ls != [] && k <= |s| && s[k..] == Stream(ls)
    ensures var n := k + |ls[0]|;
            && n < |s| && s[n] == '\n' && s[k..n] == ls[0] && s[k..n + 1] == ls[0] + ['\n']
            && s[n + 1..] == Stream(ls[1..])
            && forall j :: k <= j < n ==> s[j] != '\n'
  {
    var l := ls[0];
    var t := s[k..];
    assert t == l + ['\n'] + Stream(ls[1..]);
    assert t[|l|] == '\n' && t[..|l|] == l && t[..|l| + 1] == l + ['\n'] && t[|l| + 1..] == Stream(ls[1..]);
    assert forall j :: 0 <= j < |l| ==> t[j] == l[j];
    assert forall j :: k <= j < k + |l| ==> s[j] == t[j - k];
  }

  /** The lines that fit. */
  function Fitting(ls: seq<Text>): seq<Text> {
    if ls == [] then []
    else if |ls[0]| < NMEA_MAX_SIZE then [ls[0] + ['\n']] + Fitting(ls[1..])
    else Fitting(ls[1..])
  }

  /** No line that fits comes right behind a line of exactly 83 characters that is
      itself read. */
  predicate NoneSwallowed(ls: seq<Text>, swallow: bool) {
    ls == [] ||
    (!(swallow && |ls[0]| < NMEA_MAX_SIZE) && NoneSwallowed(ls[1..], !swallow && |ls[0]| == NMEA_MAX_SIZE))
  }

  lemma {:induction false} KeptCount(ls: seq<Text>, swallow: bool)
    ensures |Kept(ls, swallow)| <= |Fitting(ls)|
    ensures NoneSwallowed(ls, swallow) ==> Kept(ls, swallow) == Fitting(ls)
    ensures !NoneSwallowed(ls, swallow) ==> |Kept(ls, swallow)| < |Fitting(ls)|
  {
    if ls != [] {
      KeptCount(ls[1..], !swallow && |ls[0]| == NMEA_MAX_SIZE);
    }
  }

  /** Every line that fits is parsed, once and in order, exactly when none of them
      is swallowed; no other line ever is. */
  lemma FittingLinesParsed(ls: seq<Text>)
    requires AreLines(ls)
    ensures FeedFrom(START, Stream(ls), 0).parsed == Kept(ls, false)
    ensures FeedFrom(START, Stream(ls), 0).parsed == Fitting(ls) <==> NoneSwallowed(ls, false)
  {
    StreamRefines(Stream(ls));
    LinesKept(Stream(ls), 0, ls, false);
    KeptCount(ls, false);
  }

  /** Lost: an empty line behind a line of 83 characters. */
  lemma SwallowedLine(long: Text)
    requires |long| == NMEA_MAX_SIZE && '\n' !in long
    ensures FeedFrom(START, Stream([long, []]), 0).parsed == []
    ensures Fitting([long, []]) == [['\n']]
  {
    var ls := [long, []];
    FittingLinesParsed(ls);
    var rest: seq<Text> := [[]];
    var none: seq<Text> := [];
    assert ls[1..] == rest && rest[1..] == none;
    assert Kept(none, false) == [] && Kept(rest, true) == Kept(none, false) && Kept(ls, false) == Kept(rest, true);
    assert Fitting(none) == [] && Fitting(rest) == [[] + ['\n']] + Fitting(none) && Fitting(ls) == Fitting(rest);
    assert [] + ['\n'] == ['\n'];
  }
}
