/** Cutting an NMEA 0183 sentence (section 5.3) into its comma-separated fields. */
module NmeaTokenizer {
  import opened CText
  import opened Numerals

  const MAX_NMEA_TOKENS: nat := 32

  // ----- The reference: the sentence's body, split at every comma -----

  function SplitChars(s: Text): (r: seq<Text>)
    ensures r != []
  {
    if s == [] then [[]]
    else
      var r := SplitChars(s[1..]);
      if s[0] == ',' then [[]] + r else [[s[0]] + r[0]] + r[1..]
  }

  function Join(fs: seq<Text>): Text
    requires fs != []
  {
    if |fs| == 1 then fs[0] else fs[0] + [','] + Join(fs[1..])
  }

  /** Splitting undoes joining. */
  lemma {:induction false} SplitJoin(fs: seq<Text>)
    requires fs != [] && forall i :: 0 <= i < |fs| ==> ',' !in fs[i]
    ensures SplitChars(Join(fs)) == fs
    decreases |fs|
  {
    if |fs| == 1 {
      SplitFront(fs[0], []);
      assert fs[0] + [] == fs[0] && fs == [fs[0]];
    } else {
      SplitJoin(fs[1..]);
      SplitFront(fs[0], [','] + Join(fs[1..]));
      assert fs[0] + ([','] + Join(fs[1..])) == Join(fs);
      assert ([','] + Join(fs[1..]))[1..] == Join(fs[1..]);
      assert fs == [fs[0]] + fs[1..];
    }
  }

  lemma {:induction false} SplitFront(f: Text, rest: Text)
    requires ',' !in f && (rest != [] ==> rest[0] == ',')
    ensures SplitChars(f + rest) == if rest == [] then [f] else [f] + SplitChars(rest[1..])
  {
    if f == [] {
      assert f + rest == rest;
    } else {
      assert (f + rest)[1..] == f[1..] + rest;
      SplitFront(f[1..], rest);
      assert [f[0]] + f[1..] == f;
    }
  }

  // ----- Offsets in a sentence text[p..end] -----

  function SkipDollar(s: Text, p: nat, end: nat): (r: nat)
    requires p <= end <= |s|
    ensures p <= r <= end
  {
    if p < end && s[p] == '$' then p + 1 else p
  }

  /** Without the line ending "\n" or "\r\n". */
  function DropNewline(s: Text, p: nat, end: nat): (e: nat)
    requires p <= end <= |s|
    ensures p <= e <= end
  {
    if end > p && s[end - 1] == '\n' then
      if end - 1 > p && s[end - 2] == '\r' then end - 2 else end - 1
    else end
  }

  /** Without the checksum "*hh". */
  function DropChecksum(s: Text, p: nat, end: nat): (e: nat)
    requires p <= end <= |s|
    ensures p <= e <= end
  {
    if end >= p + 3 && s[end - 3] == '*' then end - 3 else end
  }

  function BodyStart(s: Text, p: nat, end: nat): (b: nat)
    requires p <= end <= |s|
    ensures p <= b <= end
  {
    SkipDollar(s, p, end)
  }

  function BodyEnd(s: Text, p: nat, end: nat): (e: nat)
    requires p <= end <= |s|
    ensures BodyStart(s, p, end) <= e <= end
  {
    var b := BodyStart(s, p, end);
    DropChecksum(s, b, DropNewline(s, b, end))
  }

  function Split(s: Text, k: nat, e: nat): (r: seq<Text>)
    requires k <= e <= |s|
    ensures r != []
    decreases e - k
  {
    var q := Find(s, ',', k, e);
    if q == e then [s[k..e]] else [s[k..q]] + Split(s, q + 1, e)
  }

  lemma {:induction false} SplitIsSplitChars(s: Text, k: nat, e: nat)
    requires k <= e <= |s|
    ensures Split(s, k, e) == SplitChars(s[k..e])
    decreases e - k
  {
    if k < e {
      assert s[k..e][1..] == s[k + 1..e];
      SplitIsSplitChars(s, k + 1, e);
      var q := Find(s, ',', k, e);
      if s[k] != ',' {
        assert s[k..q] == [s[k]] + s[k + 1..q];
      } else {
        assert s[k..q] == [];
      }
    }
  }

  /** The fields of the sentence text[p..end]. */
  function Fields(s: Text, p: nat, end: nat): (r: seq<Text>)
    requires p <= end <= |s|
    ensures r != []
  {
    Split(s, BodyStart(s, p, end), BodyEnd(s, p, end))
  }

  /** A field by number; empty when there is none. */
  function FieldOf(fs: seq<Text>, i: int): Text {
    if 0 <= i < |fs| then fs[i] else []
  }

  /** A sentence is its body with an optional '$', checksum and line ending: the
      fields are those of the body, unless the body itself looks trimmable. */
  lemma FieldsOfBody(dollar: bool, body: Text, checksum: Text, ending: Text)
    requires checksum == [] || (|checksum| == 3 && checksum[0] == '*')
    requires ending == [] || ending == "\n" || ending == "\r\n"
    requires !dollar ==> body == [] || body[0] != '$'
    requires !dollar && body == [] ==> checksum == []
    requires checksum == [] ==> (|body| >= 3 ==> body[|body| - 3] != '*')
    requires checksum == [] && body != [] ==> body[|body| - 1] != '\n' && body[|body| - 1] != '\r'
    requires checksum != [] ==> checksum[2] != '\n' && checksum[2] != '\r'
    ensures var s := (if dollar then "$" else "") + body + checksum + ending;
            Fields(s, 0, |s|) == SplitChars(body)
  {
    var s := (if dollar then "$" else "") + body + checksum + ending;
    var b := if dollar then 1 else 0;
    var e := b + |body|;
    var c := e + |checksum|;
    assert s[b..e] == body && s[e..c] == checksum && s[c..] == ending;
    TrimmedBody(s, b, e, c);
    SplitIsSplitChars(s, b, e);
  }

  lemma TrimmedBody(s: Text, b: nat, e: nat, c: nat)
    requires b <= 1 && b <= e <= c <= |s|
    requires if b == 1 then s[0] == '$' else (s == [] || s[0] != '$')
    requires s[c..] == [] || s[c..] == "\n" || s[c..] == "\r\n"
    requires c > b ==> s[c - 1] != '\n' && s[c - 1] != '\r'
    requires c == e || (c == e + 3 && s[e] == '*')
    requires c == e && e >= b + 3 ==> s[e - 3] != '*'
    ensures BodyStart(s, 0, |s|) == b && BodyEnd(s, 0, |s|) == e
  {
    assert s[c..] == "\n" ==> s[c] == s[c..][0];
    assert s[c..] == "\r\n" ==> s[c] == s[c..][0] && s[c + 1] == s[c..][1];
  }

  // ----- The tokenizer -----

  /** A token text[p..end]; Dummy is the empty string that stands for none. */
  datatype Token = Token(p: nat, end: nat) | Dummy

  function Content(s: Text, t: Token): Text {
    match t
    case Dummy => []
    case Token(p, end) => if p <= end <= |s| then s[p..end] else []
  }

  /** The tokens of text[k..e]: its fields, but for an empty one at the very end. */
  function Tokens(s: Text, k: nat, e: nat): seq<Token>
    requires k <= e <= |s|
    decreases e - k
  {
    if k == e then []
    else
      var q := Find(s, ',', k, e);
      [Token(k, q)] + Tokens(s, if q < e then q + 1 else e, e)
  }

  /** Each token reads as the field of its number and lies inside the text; what
      has no token is empty. */
  lemma {:induction false} TokensReadFields(s: Text, k: nat, e: nat, i: nat)
    requires k <= e <= |s|
    ensures i < |Tokens(s, k, e)| ==>
              && Tokens(s, k, e)[i].Token? && k <= Tokens(s, k, e)[i].p <= Tokens(s, k, e)[i].end <= e
              && Content(s, Tokens(s, k, e)[i]) == FieldOf(Split(s, k, e), i)
              && Tokens(s, k, e)[i].p < e
    ensures i >= |Tokens(s, k, e)| ==> FieldOf(Split(s, k, e), i) == []
    decreases e - k
  {
    if k < e {
      var q := Find(s, ',', k, e);
      if i > 0 {
        TokensReadFields(s, if q < e then q + 1 else e, e, i - 1);
      }
    }
  }

  class Tokenizer {
    var count: nat
    const tokens: array<Token>

    constructor ()
      ensures fresh(tokens) && tokens.Length == MAX_NMEA_TOKENS && count == 0
    {
      count := 0;
      tokens := new Token[MAX_NMEA_TOKENS](_ => Dummy);
    }

    /** The first 32 tokens of the sentence text[p..end] are stored. */
    ghost predicate Holds(text: Text, p: nat, end: nat)
      reads this, tokens
    {
      && tokens.Length == MAX_NMEA_TOKENS && p <= end <= |text|
      && Stored(Tokens(text, BodyStart(text, p, end), BodyEnd(text, p, end)))
    }

    ghost predicate Stored(ts: seq<Token>)
      requires tokens.Length == MAX_NMEA_TOKENS
      reads this, tokens
    {
      && count == (if |ts| < MAX_NMEA_TOKENS then |ts| else MAX_NMEA_TOKENS)
      && forall i :: 0 <= i < count ==> tokens[i] == ts[i]
    }

    /** nmea_tokenizer_get */
    function Get(index: int): Token
      requires count <= tokens.Length
      reads this, tokens
    {
      if index < 0 || index >= count then Dummy else tokens[index]
    }

    /** The tokenizer refines the split: below 32, what nmea_tokenizer_get returns
        reads as the field of that number, or as nothing when there is none, and
        lies inside the sentence. */
    lemma GetReads(text: Text, p: nat, end: nat, index: int)
      requires Holds(text, p, end) && index < MAX_NMEA_TOKENS
      ensures count <= MAX_NMEA_TOKENS
      ensures Content(text, Get(index)) == FieldOf(Fields(text, p, end), index)
      ensures Get(index).Token? ==> p <= Get(index).p < end && Get(index).p <= Get(index).end <= end
    {
      if index >= 0 {
        TokensReadFields(text, BodyStart(text, p, end), BodyEnd(text, p, end), index);
      }
    }

    /** nmea_tokenizer_init */
    method Init(text: Text, p0: nat, end0: nat) returns (n: nat)
      requires tokens.Length == MAX_NMEA_TOKENS && p0 <= end0 <= |text|
      modifies this`count, tokens
      ensures Holds(text, p0, end0) && n == count
    {
      hide Tokens;
      var p := if p0 < end0 && text[p0] == '$' then p0 + 1 else p0;
      var end := end0;
      if end > p && text[end - 1] == '\n' {
        end := end - 1;
        if end > p && text[end - 1] == '\r' {
          end := end - 1;
        }
      }
      if end >= p + 3 && text[end - 3] == '*' {
        end := end - 3;
      }
      n := Cut(text, p, end);
    }

    /** The loop of nmea_tokenizer_init. */
    method Cut(text: Text, p0: nat, end: nat) returns (n: nat)
      requires tokens.Length == MAX_NMEA_TOKENS && p0 <= end <= |text|
      modifies this`count, tokens
      ensures Stored(Tokens(text, p0, end)) && n == count
    {
      ghost var ts := Tokens(text, p0, end);
      ghost var m := 0;
      n := 0;
      var p := p0;
      while p < end
        invariant p0 <= p <= end && m <= |ts|
        invariant n == if m < MAX_NMEA_TOKENS then m else MAX_NMEA_TOKENS
        invariant forall i :: 0 <= i < n ==> tokens[i] == ts[i]
        invariant Tokens(text, p, end) == ts[m..]
        decreases end - p
      {
        var q := Find(text, ',', p, end);  // memchr, or the end
        TokensFrom(text, p, end, ts, m);
        if n < MAX_NMEA_TOKENS {
          tokens[n] := Token(p, q);
          n := n + 1;
        }
        m := m + 1;
        p := if q < end then q + 1 else q;
      }
      count := n;
    }
  }

  lemma TokensFrom(s: Text, p: nat, e: nat, ts: seq<Token>, m: nat)
    requires p < e <= |s| && m <= |ts| && Tokens(s, p, e) == ts[m..]
    ensures var q := Find(s, ',', p, e);
            m < |ts| && ts[m] == Token(p, q) && Tokens(s, if q < e then q + 1 else e, e) == ts[m + 1..]
  {
    assert ts[m..][0] == ts[m] && ts[m..][1..] == ts[m + 1..];
  }
}
