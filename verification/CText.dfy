/** C strings and the small string helpers that several components share.
    A byte is a char; a C string is the text before the first NUL. */
module CText {
  type Text = seq<char>

  const NUL: char := '\0'

  datatype Option<+T> = None | Some(value: T)

  predicate NulFree(s: Text) {
    forall i :: 0 <= i < |s| ==> s[i] != NUL
  }

  /** The C string that starts at the front of s. */
  function CString(s: Text): (r: Text)
    ensures |r| <= |s| && r == s[..|r|] && NulFree(r)
    ensures |r| < |s| ==> s[|r|] == NUL
  {
    if s == [] || s[0] == NUL then [] else [s[0]] + CString(s[1..])
  }

  lemma {:induction false} CStringIs(s: Text, n: nat)
    requires n < |s| && NulFree(s[..n]) && s[n] == NUL
    ensures CString(s) == s[..n]
  {
    if n > 0 {
      assert s[0] == s[..n][0];
      assert s[1..][..n-1] == s[..n][1..];
      CStringIs(s[1..], n - 1);
      assert s[..n] == [s[0]] + s[1..][..n-1];
    }
  }

  /** The first c in s[k..e], or e. */
  function Find(s: Text, c: char, k: nat, e: nat): (p: nat)
    requires k <= e <= |s|
    ensures k <= p <= e && (p < e ==> s[p] == c)
    decreases e - k
  {
    if k == e || s[k] == c then k else Find(s, c, k + 1, e)
  }

  /** What is not c can be passed over. */
  lemma {:induction false} FindFrom(s: Text, c: char, k: nat, e: nat, i: nat)
    requires k <= i <= e <= |s| && forall j :: k <= j < i ==> s[j] != c
    ensures Find(s, c, k, e) == Find(s, c, i, e)
    decreases i - k
  {
    if k < i {
      FindFrom(s, c, k + 1, e, i);
    }
  }

  lemma FindIs(s: Text, c: char, k: nat, e: nat, p: nat)
    requires k <= p <= e <= |s| && (forall j :: k <= j < p ==> s[j] != c) && (p < e ==> s[p] == c)
    ensures Find(s, c, k, e) == p
  {
    FindFrom(s, c, k, e, p);
  }

  /** strStartsWith: the pointer walk agrees with Dafny's prefix order. */
  method StrStartsWith(line: Text, prefix: Text) returns (r: bool)
    ensures r == (prefix <= line)
  {
    var i := 0;
    while i < |line| && i < |prefix|
      invariant i <= |line| && i <= |prefix|
      invariant line[..i] == prefix[..i]
    {
      if line[i] != prefix[i] {
        return false;
      }
      i := i + 1;
    }
    return i == |prefix|;
  }
}
