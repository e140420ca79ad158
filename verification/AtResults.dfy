/** Classification of AT result lines (annex B of 3GPP TS 27.007). */
module AtResults {
  import opened CText

  const FINAL_RESPONSES_ERROR: seq<Text> :=
    ["ERROR", "+CMS ERROR:", "+CME ERROR:", "NO CARRIER", "NO ANSWER", "NO DIALTONE"]
  const FINAL_RESPONSES_SUCCESS: seq<Text> := ["OK", "CONNECT"]
  const SMS_UNSOLICITEDS: seq<Text> := ["+CMT:", "+CDS:", "+CBM:"]

  predicate StartsWithAny(line: Text, table: seq<Text>) {
    exists i :: 0 <= i < |table| && table[i] <= line
  }

  predicate FinalSuccess(line: Text) { StartsWithAny(line, FINAL_RESPONSES_SUCCESS) }
  predicate FinalError(line: Text) { StartsWithAny(line, FINAL_RESPONSES_ERROR) }
  predicate Final(line: Text) { FinalSuccess(line) || FinalError(line) }
  predicate SmsUnsolicited(line: Text) { StartsWithAny(line, SMS_UNSOLICITEDS) }

  /** The table walk of isFinalResponseError, isFinalResponseSuccess and isSMSUnsolicited. */
  method Listed(line: Text, table: seq<Text>) returns (r: bool)
    ensures r == StartsWithAny(line, table)
  {
    var i := 0;
    while i < |table|
      invariant i <= |table|
      invariant !StartsWithAny(line, table[..i])
    {
      r := StrStartsWith(line, table[i]);
      if r {
        return true;
      }
      i := i + 1;
    }
    assert table[..i] == table;
    return false;
  }

  /** No line is listed both as a success and as an error, nor as a final result
      and an SMS header: the order in which the tables are asked is irrelevant. */
  lemma TablesDisjoint(line: Text)
    ensures !(FinalSuccess(line) && FinalError(line))
    ensures !(Final(line) && SmsUnsolicited(line))
    ensures Final(line) || SmsUnsolicited(line) ==> line != "> "
  {
    if FinalSuccess(line) {
      assert line[0] == 'O' || line[0] == 'C';
    }
    if SmsUnsolicited(line) {
      var i :| 0 <= i < |SMS_UNSOLICITEDS| && SMS_UNSOLICITEDS[i] <= line;
      assert line[0] == '+' && line[3] == SMS_UNSOLICITEDS[i][3] && line[4] == ':';
    }
    if FinalError(line) {
      var i :| 0 <= i < |FINAL_RESPONSES_ERROR| && FINAL_RESPONSES_ERROR[i] <= line;
      assert line[0] == FINAL_RESPONSES_ERROR[i][0];
      assert line[4] == FINAL_RESPONSES_ERROR[i][4];
    }
  }
}
