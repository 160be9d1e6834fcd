/** The string functions the Connected state relies on: Go's byte length of a
    string, strings.TrimSpace with unicode.IsSpace, and strings.ToLower.
    A Dafny string is a sequence of Unicode scalar values; Go stores the same
    text as UTF-8 bytes. */
module Text {

  /** Bytes of one scalar value in UTF-8. */
  function Utf8Width(c: char): nat
  {
    if c as int < 0x80 then 1
    else if c as int < 0x800 then 2
    else if c as int < 0x10000 then 3
    else 4
  }

  /** Go's `len(s)`: the number of UTF-8 bytes. */
  function Utf8Len(s: string): (n: nat)
    ensures |s| <= n <= 4 * |s|
    ensures (forall i :: 0 <= i < |s| ==> s[i] as int < 0x80) ==> n == |s|
  {
    if |s| == 0 then 0 else Utf8Width(s[0]) + Utf8Len(s[1..])
  }

  /** unicode.IsSpace: the Latin-1 spaces and the other White_Space code points.
      Below 0x80 these are exactly tab, newline, vertical tab, form feed,
      carriage return and the blank. */
  function IsSpace(c: char): (b: bool)
    ensures c as int < 0x80 ==> (b <==> c in "\t\n\U{000B}\U{000C}\r ")
    ensures b ==> c as int <= 0x3000
  {
    var n := c as int;
    || (0x09 <= n <= 0x0D)            // '\t', '\n', '\v', '\f', '\r'
    || n == 0x20 || n == 0x85 || n == 0xA0
    || n == 0x1680
    || (0x2000 <= n <= 0x200A)
    || n == 0x2028 || n == 0x2029 || n == 0x202F || n == 0x205F || n == 0x3000
  }

  /** Removes the leading spaces: the result is the suffix of `s` that follows
      its longest all-space prefix. */
  function TrimLeft(s: string): (r: string)
    ensures |r| <= |s| && r == s[|s| - |r|..]
    ensures forall i :: 0 <= i < |s| - |r| ==> IsSpace(s[i])
    ensures |r| > 0 ==> !IsSpace(r[0])
    decreases |s|
  {
    if |s| > 0 && IsSpace(s[0]) then TrimLeft(s[1..]) else s
  }

  /** Removes the trailing spaces: the result is the prefix of `s` before its
      longest all-space suffix. */
  function TrimRight(s: string): (r: string)
    ensures |r| <= |s| && r == s[..|r|]
    ensures forall i :: |r| <= i < |s| ==> IsSpace(s[i])
    ensures |r| > 0 ==> !IsSpace(r[|r| - 1])
    decreases |s|
  {
    if |s| > 0 && IsSpace(s[|s| - 1]) then TrimRight(s[..|s| - 1]) else s
  }

  /** The string starts or ends with a space. */
  predicate HasOuterSpace(s: string)
  {
    |s| > 0 && (IsSpace(s[0]) || IsSpace(s[|s| - 1]))
  }

  /** strings.TrimSpace: the result neither starts nor ends with a space. */
  function TrimSpace(s: string): (r: string)
    ensures !HasOuterSpace(r)
    ensures |r| <= |s|
  {
    var l := TrimLeft(s);
    var r := TrimRight(l);
    assert |r| > 0 ==> r[0] == l[0];
    r
  }

  /** TrimSpace cuts only spaces: its result is the slice of `s` that starts
      after the leading spaces, and everything after that slice is space. */
  lemma {:induction false} TrimSpaceSlice(s: string)
    ensures var k := |s| - |TrimLeft(s)|;
      && k + |TrimSpace(s)| <= |s|
      && TrimSpace(s) == s[k..k + |TrimSpace(s)|]
      && (forall i :: 0 <= i < k ==> IsSpace(s[i]))
      && (forall i :: k + |TrimSpace(s)| <= i < |s| ==> IsSpace(s[i]))
  {
    var l := TrimLeft(s);
    var r := TrimRight(l);
    var k := |s| - |l|;
    assert l == s[k..];
    assert TrimSpace(s) == r;
    SliceOfSuffix(s, k, r);
  }

  /** A prefix of the suffix of `s` from `k` is a slice of `s`, and what the
      prefix leaves of the suffix is what follows the slice in `s`. */
  lemma {:induction false} SliceOfSuffix(s: string, k: nat, r: string)
    requires k <= |s|
    requires |r| <= |s| - k && r == s[k..][..|r|]
    requires forall i :: |r| <= i < |s| - k ==> IsSpace(s[k..][i])
    ensures r == s[k..k + |r|]
    ensures forall i :: k + |r| <= i < |s| ==> IsSpace(s[i])
  {
    forall i | k + |r| <= i < |s|
      ensures IsSpace(s[i])
    {
      assert s[i] == s[k..][i - k];
    }
  }

  /** TrimSpace leaves a string unchanged exactly when it neither starts nor
      ends with a space. */
  lemma {:induction false} TrimSpaceFixedPoint(s: string)
    ensures TrimSpace(s) == s <==> !HasOuterSpace(s)
  {
    if |s| == 0 {
      assert TrimLeft(s) == s;
      assert TrimRight(s) == s;
    } else if IsSpace(s[0]) {
      var l := TrimLeft(s);
      assert l == TrimLeft(s[1..]);
      assert |l| < |s|;
      assert |TrimRight(l)| <= |l|;
    } else {
      assert TrimLeft(s) == s;
      if IsSpace(s[|s| - 1]) {
        assert TrimRight(s) == TrimRight(s[..|s| - 1]);
        assert |TrimRight(s)| < |s|;
      } else {
        assert TrimRight(s) == s;
      }
    }
  }

  /** strings.ToLower on ASCII letters. */
  function LowerChar(c: char): char
  {
    if 'A' <= c <= 'Z' then (c as int + 32) as char else c
  }

  function ToLower(s: string): (r: string)
    ensures |r| == |s|
    ensures forall i :: 0 <= i < |s| ==> r[i] == LowerChar(s[i])
  {
    seq(|s|, i requires 0 <= i < |s| => LowerChar(s[i]))
  }

  /** Lower-casing is idempotent. */
  lemma ToLowerIdempotent(s: string)
    ensures ToLower(ToLower(s)) == ToLower(s)
  {
  }
}
