/** Printing a checksummed PUBX,40 message, and reading it back. */
module RateMessage {
  import opened CText
  import opened Numerals
  import opened NmeaTokenizer

  function ByteOf(c: char): bv8 {
    (c as int % 256) as bv8
  }

  /** The exclusive or of all bytes. */
  function XorOf(s: Text): bv8 {
    if s == [] then 0 else XorOf(s[..|s| - 1]) ^ ByteOf(s[|s| - 1])
  }

  /** %02x of an unsigned char */
  function HexByte(x: bv8): (s: Text)
    ensures |s| == 2 && AllDigits(s, 16) && NulFree(s)
  {
    var n := x as int;
    NibblesOf(n);
    [DigitChar(n / 16, false), DigitChar(n % 16, false)]
  }

  lemma NibblesOf(n: nat)
    requires n < 256
    ensures n / 16 < 16 && n % 16 < 16
  {
  }

  lemma HexByteDenotes(x: bv8)
    ensures ValueOf(HexByte(x), 16) == x as int
  {
    var s := HexByte(x);
    var n := x as int;
    assert s[..1] == [s[0]] && s[..1][..0] == [];
    assert ValueOf(s[..1], 16) == n / 16;
  }

  /** gps_dev_calc_nmea_csum, on a message that has a '*' behind its first byte. */
  method CalcNmeaCsum(msg: array<char>) returns (csum: bv8)
    requires 1 <= msg.Length && Find(msg[..], '*', 1, msg.Length) < msg.Length
    ensures csum == XorOf(msg[1..Find(msg[..], '*', 1, msg.Length)])
  {
    csum := 0;
    var i := 1;
    while msg[i] != '*'
      invariant 1 <= i <= Find(msg[..], '*', 1, msg.Length) == Find(msg[..], '*', i, msg.Length)
      invariant csum == XorOf(msg[1..i])
      decreases msg.Length - i
    {
      assert msg[1..i + 1][..i - 1] == msg[1..i];
      csum := csum ^ ByteOf(msg[i]);
      i := i + 1;
    }
  }

  // ----- The message -----

  function RateFields(id: Text, rate: int): (r: seq<Text>)
    ensures |r| == 7
  {
    ["PUBX", "40", id, Decimal(rate), Decimal(rate), Decimal(rate), "0"]
  }

  predicate IsId(id: Text) {
    |id| == 3 && NulFree(id) && '*' !in id && ',' !in id
  }

  /** A three-letter message id and a rate that the buffer of 50 is made for. */
  predicate Printable(id: Text, rate: int) {
    IsId(id) && -100_000_000 < rate < 1_000_000_000
  }

  /** sprintf: the text and a NUL; it fits. */
  method Sprintf(buff: array<char>, at: nat, s: Text)
    requires at + |s| < buff.Length
    modifies buff
    ensures forall i :: at <= i < at + |s| ==> buff[i] == s[i - at]
    ensures buff[at + |s|] == NUL
    ensures forall i :: 0 <= i < at ==> buff[i] == old(buff[i])
  {
    forall i | 0 <= i <= |s| {
      buff[at + i] := if i < |s| then s[i] else NUL;
    }
  }

  /** The text printed before the checksum, from its format. */
  function Unsigned(id: Text, rate: int): Text {
    var d := Decimal(rate);
    "$PUBX,40," + id + "," + d + "," + d + "," + d + ",0*"
  }

  function Message(id: Text, rate: int): Text {
    Unsigned(id, rate) + HexByte(XorOf(Join(RateFields(id, rate)))) + "\r\n"
  }

  /** gps_dev_set_nmea_message_rate: what is sent is the message, and it fits the
      buffer with its terminator. */
  method SetNmeaMessageRate(id: Text, rate: int) returns (sent: Text)
    requires Printable(id, rate)
    ensures sent == Message(id, rate) && |sent| < 50
  {
    hide XorOf, HexByte, RateFields, Join, Decimal, CString, Unsigned;
    var buff := new char[50];
    var text := Unsigned(id, rate);
    UnsignedIs(id, rate);
    Sprintf(buff, 0, text);
    var csum := AppendChecksum(buff, text);
    sent := CString(buff[..]);  // gps_dev_send
  }

  /** Puts the checksum and the line end behind text, which ends in its only '*'. */
  method AppendChecksum(buff: array<char>, ghost text: Text) returns (csum: bv8)
    requires 2 <= |text| && |text| + 5 <= buff.Length && NulFree(text) && text[|text| - 1] == '*'
    requires forall j :: 1 <= j < |text| - 1 ==> text[j] != '*'
    requires forall j :: 0 <= j < |text| ==> buff[j] == text[j]
    requires buff[|text|] == NUL
    modifies buff
    ensures csum == XorOf(text[1..|text| - 1])
    ensures CString(buff[..]) == text + HexByte(csum) + "\r\n"
  {
    hide XorOf, HexByte, CString;
    assert buff[..][..|text|] == text;
    CStringIs(buff[..], |text|);
    var i := |CString(buff[..])|;  // strlen
    FindIs(buff[..], '*', 1, buff.Length, i - 1);
    assert buff[1..i - 1] == text[1..i - 1];
    csum := CalcNmeaCsum(buff);
    var tail := HexByte(csum) + "\r\n";
    Sprintf(buff, i, tail);
    Appended(buff[..], text, tail);
  }

  lemma Appended(s: Text, text: Text, tail: Text)
    requires |text| + |tail| < |s| && NulFree(text) && NulFree(tail)
    requires forall j :: 0 <= j < |text| ==> s[j] == text[j]
    requires forall j :: |text| <= j < |text| + |tail| ==> s[j] == tail[j - |text|]
    requires s[|text| + |tail|] == NUL
    ensures CString(s) == text + tail
  {
    assert s[..|text| + |tail|] == text + tail;
    CStringIs(s, |text| + |tail|);
  }

  lemma {:induction false} DigitsNoMarks(n: nat, c: char)
    requires c == ',' || c == '*'
    ensures c !in Digits(n, 10, false)
    decreases n
  {
    if n >= 10 {
      DigitsNoMarks(n / 10, c);
    }
  }

  lemma DecimalNoMarks(n: int)
    ensures ',' !in Decimal(n) && '*' !in Decimal(n)
  {
    DigitsNoMarks(if n < 0 then -n else n, ',');
    DigitsNoMarks(if n < 0 then -n else n, '*');
  }

  lemma JoinRateFields(id: Text, rate: int)
    ensures var d := Decimal(rate);
            Join(RateFields(id, rate)) == "PUBX,40," + id + "," + d + "," + d + "," + d + ",0"
  {
    hide Decimal;
    var d := Decimal(rate);
    JoinCons(d, ["0"]);
    JoinCons(d, [d, "0"]);
    JoinCons(d, [d, d, "0"]);
    JoinCons(id, [d, d, d, "0"]);
    JoinCons("40", [id, d, d, d, "0"]);
    JoinCons("PUBX", ["40", id, d, d, d, "0"]);
    assert Join(["0"]) == "0";
    JoinedUp(id, d);
  }

  lemma JoinCons(f: Text, fs: seq<Text>)
    requires fs != []
    ensures Join([f] + fs) == f + "," + Join(fs)
  {
    assert ([f] + fs)[1..] == fs;
  }

  lemma JoinedUp(id: Text, d: Text)
    ensures "PUBX" + "," + ("40" + "," + (id + "," + (d + "," + (d + "," + (d + "," + "0")))))
         == "PUBX,40," + id + "," + d + "," + d + "," + d + ",0"
  {
  }

  lemma UnsignedJoined(id: Text, rate: int)
    ensures Unsigned(id, rate) == ['$'] + Join(RateFields(id, rate)) + ['*']
  {
    hide Decimal, Join, RateFields;
    JoinRateFields(id, rate);
  }

  lemma BodyIs(id: Text, d: Text)
    requires IsId(id) && NulFree(d) && '*' !in d
    ensures var b := "PUBX,40," + id + "," + d + "," + d + "," + d + ",0";
            |b| == 16 + 3 * |d| && NulFree(b) && '*' !in b
  {
  }

  /** The text before the checksum is '$', the fields joined by commas, and '*'. */
  lemma UnsignedIs(id: Text, rate: int)
    requires IsId(id)
    ensures var u := Unsigned(id, rate);
            && u == ['$'] + Join(RateFields(id, rate)) + ['*'] && u[1..|u| - 1] == Join(RateFields(id, rate))
            && |u| == 18 + 3 * |Decimal(rate)| && NulFree(u)
            && forall j :: 1 <= j < |u| - 1 ==> u[j] != '*'
    ensures Printable(id, rate) <==> |Decimal(rate)| <= 9
  {
    hide Decimal, Join, RateFields, Unsigned;
    JoinRateFields(id, rate);
    DecimalNoMarks(rate);
    DecimalLength(rate);
    BodyIs(id, Decimal(rate));
    UnsignedJoined(id, rate);
  }

  /** The message fits the buffer exactly for the rates that print in nine characters. */
  lemma MessageFits(id: Text, rate: int)
    requires IsId(id)
    ensures |Message(id, rate)| < 50 <==> -100_000_000 < rate < 1_000_000_000
  {
    hide Decimal, Join, RateFields, Unsigned, HexByte, XorOf;
    UnsignedIs(id, rate);
  }

  /** The rate message reads back: its checksum is the exclusive or of the bytes
      between '$' and '*', in two hexadecimal digits, and the tokenizer finds
      PUBX,40,id,rate,rate,rate,0. */
  lemma MessageReadsBack(id: Text, rate: int)
    requires Printable(id, rate)
    ensures var m := Message(id, rate);
            var star := Find(m, '*', 1, |m|);
            && star + 5 == |m| <= 49 && m[0] == '$'
            && AllDigits(m[star + 1..star + 3], 16)
            && ValueOf(m[star + 1..star + 3], 16) == XorOf(m[1..star]) as int
            && Fields(m, 0, |m|) == RateFields(id, rate)
  {
    hide XorOf, HexByte, Decimal, Unsigned, Join, RateFields, ValueOf, Fields;
    UnsignedIs(id, rate);
    MessageFits(id, rate);
    var u := Unsigned(id, rate);
    var body := Join(RateFields(id, rate));
    var hex := HexByte(XorOf(body));
    HexByteDenotes(XorOf(body));
    var m := Message(id, rate);
    var star := |u| - 1;
    assert m[..|u|] == u;
    assert forall j :: 1 <= j <= star ==> m[j] == u[j];
    FindIs(m, '*', 1, |m|, star);
    assert m[1..star] == u[1..star] == body;
    assert m[star + 1..star + 3] == hex;
    ReadsBack(id, rate, m, body, hex);
  }

  lemma ReadsBack(id: Text, rate: int, m: Text, body: Text, hex: Text)
    requires Printable(id, rate) && body == Join(RateFields(id, rate))
    requires |hex| == 2 && AllDigits(hex, 16) && m == ['$'] + body + ['*'] + hex + "\r\n"
    ensures Fields(m, 0, |m|) == RateFields(id, rate)
  {
    hide Decimal, Join, Fields;
    assert IsDigit(hex[1], 16);
    FieldsOfBody(true, body, ['*'] + hex, "\r\n");
    assert m == "$" + body + (['*'] + hex) + "\r\n";
    DecimalNoMarks(rate);
    SplitJoin(RateFields(id, rate));
  }
}
