/**
 * Character classes and case folding used by the converter's regular
 * expressions, restricted to ASCII: `\d` is [0-9], `\w` is [A-Za-z0-9_],
 * `\s` is the ASCII part of Python's whitespace class, and case-insensitive
 * matching folds only the letters a-z onto A-Z.
 */
module Text {

  predicate IsDigit(c: char) { '0' <= c <= '9' }

  predicate IsWordChar(c: char) {
    'A' <= c <= 'Z' || 'a' <= c <= 'z' || IsDigit(c) || c == '_'
  }

  /** Space, \t \n \v \f \r and the four separators \x1c-\x1f. */
  predicate IsSpace(c: char) {
    c == ' ' || 9 <= c as int <= 13 || 28 <= c as int <= 31
  }

  /** ASCII upper-casing: the folding used for case-insensitive comparison. */
  function Upper(c: char): (u: char)
    ensures 'a' <= c <= 'z' ==> 'A' <= u <= 'Z' && u as int == c as int - 32
    ensures !('a' <= c <= 'z') ==> u == c
  {
    if 'a' <= c <= 'z' then (c as int - 32) as char else c
  }

  function UpperStr(s: string): (u: string)
    ensures |u| == |s|
    ensures forall k :: 0 <= k < |s| ==> u[k] == Upper(s[k])
  {
    seq(|s|, k requires 0 <= k < |s| => Upper(s[k]))
  }

  /** `w` occurs at position `i` of `s`, ignoring ASCII case. */
  predicate CiAt(s: string, i: nat, w: string)
    ensures CiAt(s, i, w) ==> i + |w| <= |s|
    decreases |w|
  {
    if w == [] then i <= |s|
    else i < |s| && Upper(s[i]) == Upper(w[0]) && CiAt(s, i + 1, w[1..])
  }

  /** Two texts equal up to case line up character by character. */
  lemma CiAtOfUpper(s: string, w: string)
    requires UpperStr(s) == UpperStr(w)
    ensures |s| == |w| && CiAt(s, 0, w)
  {
    forall k | 0 <= k < |w|
      ensures Upper(s[0 + k]) == Upper(w[k])
    {
      assert UpperStr(s)[k] == UpperStr(w)[k];
    }
    CiAtIff(s, 0, w);
  }

  /** `CiAt` is equality, after upper-casing, of the window of `s` at `i` with `w`. */
  lemma CiAtSlice(s: string, i: nat, w: string)
    ensures CiAt(s, i, w) <==> i + |w| <= |s| && UpperStr(s[i..i + |w|]) == UpperStr(w)
  {
    CiAtIff(s, i, w);
    if i + |w| <= |s| {
      if UpperStr(s[i..i + |w|]) == UpperStr(w) {
        forall k | 0 <= k < |w|
          ensures Upper(s[i + k]) == Upper(w[k])
        {
          assert UpperStr(s[i..i + |w|])[k] == UpperStr(w)[k];
        }
      }
    }
  }

  /** Upper-casing commutes with taking a slice. */
  lemma UpperSlice(s: string, i: nat, j: nat)
    requires i <= j <= |s|
    ensures UpperStr(s[i..j]) == UpperStr(s)[i..j]
  {
    assert forall k :: 0 <= k < j - i ==> UpperStr(s[i..j])[k] == UpperStr(s)[i..j][k];
  }

  /** `CiAt` compares the window of `s` at `i` with `w` character by character. */
  lemma {:induction false} CiAtIff(s: string, i: nat, w: string)
    ensures CiAt(s, i, w) <==>
      i + |w| <= |s| && forall k :: 0 <= k < |w| ==> Upper(s[i + k]) == Upper(w[k])
    decreases |w|
  {
    if w != [] {
      CiAtIff(s, i + 1, w[1..]);
      assert forall k :: 1 <= k < |w| ==> w[k] == w[1..][k - 1];
    }
  }

  lemma SliceOfSlice(s: string, i: nat, n: nat, p: nat, q: nat)
    requires i + n <= |s| && p <= q <= n
    ensures s[i..i + n][p..q] == s[i + p..i + q]
  {
    var a := s[i..i + n][p..q];
    var b := s[i + p..i + q];
    forall k | 0 <= k < |a|
      ensures a[k] == b[k]
    {
      assert a[k] == s[i..i + n][p + k];
    }
  }

  /** `w` occurs at position `i` of `s`, exactly. */
  predicate ExactAt(s: string, i: nat, w: string) {
    i + |w| <= |s| && s[i..i + |w|] == w
  }

  predicate AllDigits(s: string) { forall k :: 0 <= k < |s| ==> IsDigit(s[k]) }

  predicate AllWordChars(s: string) { forall k :: 0 <= k < |s| ==> IsWordChar(s[k]) }

  /** Every character of `s` from `lo` up to `hi` is whitespace. */
  predicate Blank(s: string, lo: nat, hi: nat) {
    hi <= |s| && forall k :: lo <= k < hi ==> IsSpace(s[k])
  }

  /** Position `t` is where a line ends: the end of the text or a line break. */
  predicate LineEnd(s: string, t: nat) {
    t == |s| || (t < |s| && s[t] == '\n')
  }

  /** Length of the longest run of digits starting at `i` (greedy `\d+`). */
  function DigitRun(s: string, i: nat): (n: nat)
    requires i <= |s|
    ensures i + n <= |s|
    ensures AllDigits(s[i..i + n])
    ensures i + n == |s| || !IsDigit(s[i + n])
    decreases |s| - i
  {
    if i < |s| && IsDigit(s[i]) then
      var n := 1 + DigitRun(s, i + 1);
      assert s[i..i + n] == [s[i]] + s[i + 1..i + n];
      n
    else 0
  }

  /** `DigitRun` is the length of any run of digits that stops before a non-digit. */
  lemma {:induction false} DigitRunIs(s: string, i: nat, d: nat)
    requires i + d <= |s| && AllDigits(s[i..i + d])
    requires i + d == |s| || !IsDigit(s[i + d])
    ensures DigitRun(s, i) == d
    decreases d
  {
    if d > 0 {
      assert s[i..i + d][0] == s[i];
      assert s[i + 1..i + d] == s[i..i + d][1..];
      DigitRunIs(s, i + 1, d - 1);
    }
  }

  /** Length of the longest run of word characters starting at `i` (greedy `\w+`). */
  function WordRun(s: string, i: nat): (n: nat)
    requires i <= |s|
    ensures i + n <= |s|
    ensures AllWordChars(s[i..i + n])
    ensures i + n == |s| || !IsWordChar(s[i + n])
    decreases |s| - i
  {
    if i < |s| && IsWordChar(s[i]) then
      var n := 1 + WordRun(s, i + 1);
      assert s[i..i + n] == [s[i]] + s[i + 1..i + n];
      n
    else 0
  }

  /** `WordRun` is the length of any run of word characters that stops before a non-word character. */
  lemma {:induction false} WordRunIs(s: string, i: nat, d: nat)
    requires i + d <= |s| && AllWordChars(s[i..i + d])
    requires i + d == |s| || !IsWordChar(s[i + d])
    ensures WordRun(s, i) == d
    decreases d
  {
    if d > 0 {
      assert s[i..i + d][0] == s[i];
      assert s[i + 1..i + d] == s[i..i + d][1..];
      WordRunIs(s, i + 1, d - 1);
    }
  }

  /** Length of the longest run of whitespace starting at `i` (greedy `\s*`). */
  function SpaceRun(s: string, i: nat): (n: nat)
    requires i <= |s|
    ensures i + n <= |s|
    ensures forall k :: i <= k < i + n ==> IsSpace(s[k])
    ensures i + n == |s| || !IsSpace(s[i + n])
    decreases |s| - i
  {
    if i < |s| && IsSpace(s[i]) then 1 + SpaceRun(s, i + 1) else 0
  }

  /** `SpaceRun` is the length of any run of whitespace that stops before a non-space. */
  lemma {:induction false} SpaceRunIs(s: string, i: nat, d: nat)
    requires i + d <= |s| && forall k :: i <= k < i + d ==> IsSpace(s[k])
    requires i + d == |s| || !IsSpace(s[i + d])
    ensures SpaceRun(s, i) == d
    decreases d
  {
    if d > 0 {
      SpaceRunIs(s, i + 1, d - 1);
    }
  }

  /** Where the greedy run of whitespace starting at `i` stops. */
  function SpaceEnd(s: string, i: nat): (q: nat)
    requires i <= |s|
    ensures i <= q <= |s| && Blank(s, i, q)
    ensures q == |s| || !IsSpace(s[q])
  {
    i + SpaceRun(s, i)
  }

  /** `SpaceEnd` is the end of any run of whitespace that stops before a non-space. */
  lemma SpaceEndIs(s: string, i: nat, q: nat)
    requires i <= q && Blank(s, i, q)
    requires q == |s| || !IsSpace(s[q])
    ensures SpaceEnd(s, i) == q
  {
    SpaceRunIs(s, i, q - i);
  }

  /** Whitespace from `i` up to `t` lies inside the greedy run, so `t` is not past its end. */
  lemma SpaceRunCovers(s: string, i: nat)
    requires i <= |s|
    ensures forall t :: i <= t && Blank(s, i, t) ==> t <= i + SpaceRun(s, i)
  {
    var n := SpaceRun(s, i);
    assert i + n == |s| || !IsSpace(s[i + n]);
  }
}
