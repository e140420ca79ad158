/** The NMEA line assembler, fed one character at a time, and the satellite list
    that GSV sentences fill. */
module NmeaReader {
  import opened CText
  import opened Numerals
  import opened NmeaTokenizer

  const NMEA_MAX_SIZE: nat := 83

  // ----- str2int -----

  /** A non-negative decimal number, or -1. */
  function Decode(s: Text): int {
    if s == [] || !AllDigits(s, 10) then -1 else ValueOf(s, 10)
  }

  /** Printed numbers are read back. */
  lemma DecodeDigits(n: nat)
    ensures Decode(Digits(n, 10, false)) == n
  {
    DigitsDenote(n, 10, false);
  }

  /** Anything but digits, and nothing at all, is no number. */
  lemma DecodeFails(s: Text)
    requires s == [] || exists i :: 0 <= i < |s| && !('0' <= s[i] <= '9')
    ensures Decode(s) == -1
  {
    assert forall i :: 0 <= i < |s| && IsDigit(s[i], 10) ==> '0' <= s[i] <= '9';
  }

  method Str2Int(text: Text, p: nat, end: nat) returns (r: int)
    requires p <= end <= |text|
    ensures r == Decode(text[p..end])
  {
    if p == end {
      return -1;
    }
    hide ValueOf, IsDigit;
    var q := p;
    r := 0;
    assert ValueOf(text[p..p], 10) == 0 by { NoDigits(10); }
    while q < end
      invariant p <= q <= end && AllDigits(text[p..q], 10) && r == ValueOf(text[p..q], 10)
    {
      if !IsDigit(text[q], 10) {
        assert text[p..end][q - p] == text[q];
        return -1;
      }
      assert text[p..q + 1] == text[p..q] + [text[q]];
      LastDigit(text[p..q], text[q], 10);
      r := r * 10 + DigitValue(text[q]);
      q := q + 1;
    }
  }

  // ----- Satellites -----

  /** elevation, azimuth and snr stand for the floats read from these tokens. */
  datatype Sv = Sv(prn: int, elevation: Text, azimuth: Text, snr: Text)

  /** The part of sv_status that GSV and GSA sentences touch. */
  datatype SvStatus = SvStatus(svs: seq<Sv>, changed: bool, usedInFix: set<int>)

  function F(s: Text, i: int): Text {
    FieldOf(Fields(s, 0, |s|), i)
  }

  function SvAt(s: Text, i: nat): Sv {
    Sv(Decode(F(s, i * 4 + 4)), F(s, i * 4 + 5), F(s, i * 4 + 6), F(s, i * 4 + 7))
  }

  function Block(s: Text, n: nat): (r: seq<Sv>)
    ensures |r| == n
  {
    if n == 0 then [] else Block(s, n - 1) + [SvAt(s, n - 1)]
  }

  /** The three letters behind the talker id, if the sentence is long enough. */
  function Kind(s: Text): Text {
    if |s| < 9 || |F(s, 0)| < 5 then [] else F(s, 0)[2..5]
  }

  predicate IsGsv(s: Text) { Kind(s) == "GSV" }

  function Min(a: int, b: int): int { if a < b then a else b }

  function AfterGsv(st: SvStatus, s: Text): SvStatus {
    var total := Decode(F(s, 3));
    if total <= 0 then st
    else
      var svs := if Decode(F(s, 2)) == 1 then [] else st.svs;
      var room := Min(4, total - |svs|);
      SvStatus(
        if room > 0 then svs + Block(s, room) else svs,
        Decode(F(s, 2)) == Decode(F(s, 1)) || (Decode(F(s, 2)) != 1 && st.changed),
        st.usedInFix)
  }

  /** The positive numbers in fields 3 to 14 of a GSA sentence. */
  function UsedInFix(s: Text, n: nat): set<int>
    requires n <= 12
  {
    if n == 0 then {} else UsedInFix(s, n - 1) + (if Decode(F(s, n + 2)) > 0 then {Decode(F(s, n + 2))} else {})
  }

  function FirstOf(s: Text, t: Token): char {
    if t.Token? && t.p < |s| then s[t.p] else NUL
  }

  /** The first byte of field 2 as the program sees it: that of the buffer at the
      token (a comma, for an empty field between commas), NUL without a token. */
  function FixStatusByte(s: Text): char {
    var b := BodyStart(s, 0, |s|);
    var e := BodyEnd(s, 0, |s|);
    var ts := Tokens(s, b, e);
    if |ts| > 2 then FirstOf(s, ts[2]) else NUL
  }

  function AfterGsa(st: SvStatus, s: Text): SvStatus {
    if FixStatusByte(s) == NUL || FixStatusByte(s) == '1' then st
    else SvStatus(st.svs, st.changed || UsedInFix(s, 12) != {}, UsedInFix(s, 12))
  }

  function AfterSentence(st: SvStatus, s: Text): SvStatus {
    if Kind(s) == "GSV" then AfterGsv(st, s)
    else if Kind(s) == "GSA" then AfterGsa(st, s)
    else st
  }

  // ----- The assembler -----

  /** What nmea_reader_addc keeps: the characters held, the overflow flag, and the
      bodies it has given to the parser. */
  datatype Assembler = Assembler(held: Text, overflow: bool, parsed: seq<Text>)

  function Feed(a: Assembler, c: char): Assembler {
    if a.overflow then a.(overflow := c != '\n')
    else if |a.held| >= NMEA_MAX_SIZE then Assembler([], true, a.parsed)
    else if c == '\n' then Assembler([], false, a.parsed + [a.held + [c]])
    else a.(held := a.held + [c])
  }

  class Reader {
    const buffer: array<char>  // in
    var pos: nat
    var overflow: bool
    var svList: seq<Sv>
    var numSvs: nat
    var svStatusChanged: bool
    var usedInFix: set<int>
    const tokenizer: Tokenizer
    ghost var parsed: seq<Text>

    ghost predicate Valid()
      reads this
    {
      && buffer.Length == NMEA_MAX_SIZE + 1 && pos <= NMEA_MAX_SIZE && (overflow ==> pos == 0)
      && numSvs <= |svList| && tokenizer.tokens.Length == MAX_NMEA_TOKENS
    }

    ghost function State(): Assembler
      requires Valid()
      reads this, buffer
    {
      Assembler(buffer[..pos], overflow, parsed)
    }

    ghost function Status(): SvStatus
      requires Valid()
      reads this
    {
      SvStatus(svList[..numSvs], svStatusChanged, usedInFix)
    }

    constructor ()
      ensures Valid() && fresh(buffer) && fresh(tokenizer) && fresh(tokenizer.tokens)
      ensures State() == Assembler([], false, []) && Status() == SvStatus([], false, {})
    {
      buffer := new char[NMEA_MAX_SIZE + 1];
      tokenizer := new Tokenizer();
      pos, overflow, svList, numSvs, svStatusChanged, usedInFix, parsed := 0, false, [], 0, false, {}, [];
    }

    /** str2int of a field. */
    method IntField(text: Text, i: nat) returns (r: int)
      requires tokenizer.Holds(text, 0, |text|) && i < MAX_NMEA_TOKENS
      ensures r == Decode(F(text, i))
    {
      tokenizer.GetReads(text, 0, |text|, i);
      var t := tokenizer.Get(i);
      match t
      case Dummy => r := Str2Int([], 0, 0);
      case Token(p, end) => r := Str2Int(text, p, end);
    }

    method SvFields(text: Text, i: nat) returns (sv: Sv)
      requires tokenizer.Holds(text, 0, |text|) && i < 4
      ensures sv == SvAt(text, i)
    {
      var prn := IntField(text, i * 4 + 4);
      tokenizer.GetReads(text, 0, |text|, i * 4 + 5);
      tokenizer.GetReads(text, 0, |text|, i * 4 + 6);
      tokenizer.GetReads(text, 0, |text|, i * 4 + 7);
      return Sv(prn, Content(text, tokenizer.Get(i * 4 + 5)),
                     Content(text, tokenizer.Get(i * 4 + 6)),
                     Content(text, tokenizer.Get(i * 4 + 7)));
    }

    /** The GSV branch of nmea_reader_parse. */
    method ParseGsv(text: Text)
      requires Valid() && tokenizer.Holds(text, 0, |text|)
      modifies this`svList, this`numSvs, this`svStatusChanged
      ensures Valid() && Status() == AfterGsv(old(Status()), text)
    {
      hide F, FieldOf, Block, Decode;
      var noSatellites := IntField(text, 3);
      if noSatellites > 0 {
        var sentence := IntField(text, 2);
        var totalSentences := IntField(text, 1);
        if sentence == 1 {
          svStatusChanged := false;
          numSvs := 0;
          assert svList[..numSvs] == [];
        }
        FillBlock(text, noSatellites);
        if sentence == totalSentences {
          svStatusChanged := true;
        }
      }
    }

    /** The loop of the GSV branch: up to four satellites, up to the total. */
    method FillBlock(text: Text, noSatellites: int)
      requires Valid() && tokenizer.Holds(text, 0, |text|) && noSatellites > 0
      modifies this`svList, this`numSvs
      ensures Valid()
      ensures var before := old(svList[..numSvs]);
              var room := Min(4, noSatellites - |before|);
              svList[..numSvs] == if room > 0 then before + Block(text, room) else before
    {
      hide F, SvAt, FieldOf;
      ghost var before := svList[..numSvs];
      var curr := numSvs;
      var i := 0;
      while i < 4 && numSvs < noSatellites
        invariant i <= 4 && curr == numSvs == |before| + i <= |svList|
        invariant i > 0 ==> numSvs <= noSatellites
        invariant svList[..numSvs] == before + Block(text, i)
      {
        var sv := SvFields(text, i);
        svList := svList[..curr] + [sv] + (if curr < |svList| then svList[curr + 1..] else []);
        numSvs := numSvs + 1;
        curr := curr + 1;
        i := i + 1;
      }
      assert i == 0 ==> svList[..numSvs] == before;
    }

    /** The GSA branch, as far as the satellite status is concerned. */
    method ParseGsa(text: Text)
      requires Valid() && tokenizer.Holds(text, 0, |text|)
      requires text == buffer[..pos]
      modifies this`usedInFix, this`svStatusChanged
      ensures Valid() && Status() == AfterGsa(old(Status()), text)
    {
      hide F, FieldOf;
      var fixStatus := FirstByte(text);
      if fixStatus != NUL && fixStatus != '1' {
        usedInFix := {};
        var i := 3;
        while i <= 14
          invariant 3 <= i <= 15
          invariant usedInFix == UsedInFix(text, i - 3)
          invariant svStatusChanged == (old(svStatusChanged) || usedInFix != {})
          invariant unchanged(`svList, `numSvs)
        {
          var prn := IntField(text, i);
          if prn > 0 {
            usedInFix := usedInFix + {prn};
            svStatusChanged := true;
          }
          i := i + 1;
        }
      }
    }

    method FirstByte(text: Text) returns (c: char)
      requires tokenizer.Holds(text, 0, |text|)
      ensures c == FixStatusByte(text)
    {
      return FirstOf(text, tokenizer.Get(2));
    }

    /** nmea_reader_parse, as far as the satellite status is concerned. */
    method Parse()
      requires Valid() && 0 < pos
      modifies this`svList, this`numSvs, this`svStatusChanged, this`usedInFix, this`parsed
      modifies tokenizer`count, tokenizer.tokens
      ensures Valid() && Status() == AfterSentence(old(Status()), buffer[..pos])
      ensures parsed == old(parsed) + [buffer[..pos]]
    {
      var text := buffer[..pos];
      parsed := parsed + [text];
      if pos < 9 {
        return;
      }
      var n := tokenizer.Init(text, 0, pos);
      tokenizer.GetReads(text, 0, pos, 0);
      var id := Content(text, tokenizer.Get(0));
      if |id| < 5 {
        return;
      }
      if id[2..5] == "GSV" {
        ParseGsv(text);
      } else if id[2..5] == "GSA" {
        ParseGsa(text);
      }
    }

    /** nmea_reader_addc. Every write stays inside the buffer. */
    method Addc(c: char)
      requires Valid()
      modifies this, buffer, tokenizer`count, tokenizer.tokens
      ensures Valid() && State() == Feed(old(State()), c)
      ensures Status() == if |parsed| > |old(parsed)| then AfterSentence(old(Status()), parsed[|old(parsed)|])
                          else old(Status())
    {
      if overflow {
        overflow := c != '\n';
        return;
      }
      if pos >= buffer.Length - 1 {
        overflow := true;
        pos := 0;
        return;
      }
      buffer[pos] := c;
      pos := pos + 1;
      assert buffer[..pos] == old(buffer[..pos]) + [c];
      if c == '\n' {
        Parse();
        pos := 0;
      }
    }
  }
}
