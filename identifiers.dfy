/**
 * What the identifier passes do to small, typical pieces of a schema:
 * `[dbo].[Name]`, a bracketed name, and a quoted column name followed by a
 * quoted type.
 */
module Identifiers {
  import opened Text
  import opened Regex
  import opened SubFacts
  import opened Converter
  import opened Cascades

  /** The nearest `]` at or after `j`, with no line break before it, is the one `CloseBracket` finds. */
  lemma {:induction false} CloseBracketIs(s: string, j: nat, k: nat)
    requires j <= k < |s| && s[k] == ']'
    requires forall t :: j <= t < k ==> s[t] != ']' && s[t] != '\n'
    ensures CloseBracket(s, j) == Some(k)
    decreases k - j
  {
    if j < k {
      CloseBracketIs(s, j + 1, k);
    }
  }

  /** A line break before any `]` leaves `CloseBracket` without a result. */
  lemma {:induction false} CloseBracketNone(s: string, j: nat, k: nat)
    requires j <= k < |s| && s[k] == '\n'
    requires forall t :: j <= t < k ==> s[t] != ']' && s[t] != '\n'
    ensures CloseBracket(s, j).None?
    decreases k - j
  {
    if j < k {
      CloseBracketNone(s, j + 1, k);
    }
  }

  /** A character other than `[` does not fold to `[`. */
  lemma UpperNotBracket(c: char)
    requires c != '['
    ensures Upper(c) != Upper('[')
  {
  }

  /** Text with no `[` from `lo` on holds no bracket-led pattern there. */
  lemma NoOpenBracket(s: string, lo: nat)
    requires forall j :: lo <= j < |s| ==> s[j] != '['
    ensures !Occurs("[", s, lo, |s|) && !Occurs("[dbo].", s, lo, |s|)
  {
    forall j | lo <= j < |s|
      ensures Upper(s[j]) != Upper('[')
    {
      UpperNotBracket(s[j]);
    }
    InitialAbsent("[", s, lo);
    InitialAbsent("[dbo].", s, lo);
  }

  /** `[dbo].[Name]`, with `Name` made of word characters, becomes `` `Name` ``. */
  lemma DboWhole(s: string, n: string)
    requires |n| > 0 && AllWordChars(n)
    requires s == "[dbo].[" + n + "]"
    ensures Sub(DboQualified, s) == "`" + n + "`"
  {
    assert s[0..6] == DboHead;
    assert s[6] == '[';
    assert s[7..7 + |n|] == n;
    WordRunIs(s, 7, |n|);
    assert MatchDbo(s, 0) == Some(Match(|s|, [n]));
    SubOnce(DboQualified, s, 0);
    ExpandGroupOne("`", "`", n);
    assert s[..0] == [] && s[|s|..] == [];
  }

  /** `[dbo].Name`, the name without brackets, becomes `` `Name` `` as well. */
  lemma DboBare(s: string, n: string)
    requires |n| > 0 && AllWordChars(n)
    requires s == "[dbo]." + n
    ensures Sub(DboQualified, s) == "`" + n + "`"
  {
    assert s[0..6] == DboHead;
    assert s[6..6 + |n|] == n;
    WordRunIs(s, 6, |n|);
    assert MatchDbo(s, 0) == Some(Match(|s|, [n]));
    SubOnce(DboQualified, s, 0);
    ExpandGroupOne("`", "`", n);
    assert s[..0] == [] && s[|s|..] == [];
  }

  /** The schema prefix is matched case-sensitively: `[DBO].[Name]` is left to the bracket pass. */
  lemma DboCaseSensitive(s: string, n: string)
    requires |n| > 0 && AllWordChars(n)
    requires s == "[DBO].[" + n + "]"
    ensures Sub(DboQualified, s) == s
  {
    forall j | 0 <= j < |s|
      ensures MatchAt(DboName, s, j).None?
    {
      if j + 6 <= |s| {
        var k := if j == 0 then 1 else if j == 6 then 5 else 0;
        assert s[j..j + 6][k] == s[j + k];
        if 7 <= j + k < |s| - 1 {
          assert s[j + k] == n[j + k - 7];
        }
        assert s[j + k] != DboHead[k];
      }
    }
    NoMatchUnchanged(DboQualified, s);
  }

  /** `[Name]`, with no `]` and no line break inside, becomes `` `Name` ``. */
  lemma BracketWhole(s: string, n: string)
    requires forall k :: 0 <= k < |n| ==> n[k] != ']' && n[k] != '\n'
    requires s == "[" + n + "]"
    ensures Sub(Brackets, s) == "`" + n + "`"
  {
    CloseBracketIs(s, 1, |s| - 1);
    assert s[1..|s| - 1] == n;
    OccursNeedsRoom("[", s, |s|, |s|);
    SubOnce(Brackets, s, 0);
    ExpandGroupOne("`", "`", n);
    assert s[..0] == [] && s[|s|..] == [];
  }

  /**
   * The bracket pattern is lazy: in `[a]b]` it stops at the first `]`, so
   * only `[a]` is rewritten and the rest is copied.
   */
  lemma BracketNearest(s: string, a: string, b: string)
    requires forall k :: 0 <= k < |a| ==> a[k] != ']' && a[k] != '\n' && a[k] != '['
    requires forall k :: 0 <= k < |b| ==> b[k] != '['
    requires s == "[" + a + "]" + b + "]"
    ensures Sub(Brackets, s) == "`" + a + "`" + b + "]"
  {
    var e := |a| + 2;
    CloseBracketIs(s, 1, e - 1);
    assert s[1..e - 1] == a;
    forall j | e <= j < |s|
      ensures s[j] != '['
    {
      if j < e + |b| {
        assert s[j] == b[j - e];
      }
    }
    NoOpenBracket(s, e);
    SubOnce(Brackets, s, 0);
    ExpandGroupOne("`", "`", a);
    assert s[..0] == [] && s[e..] == b + "]";
  }

  /** A bracket pair split by a line break is not rewritten: the pattern stays on one line. */
  lemma BracketsStayOnLine(s: string, a: string, b: string)
    requires forall k :: 0 <= k < |a| ==> a[k] != ']' && a[k] != '\n' && a[k] != '['
    requires forall k :: 0 <= k < |b| ==> b[k] != ']' && b[k] != '['
    requires s == "[" + a + "\n" + b + "]"
    ensures Sub(Brackets, s) == s
  {
    forall t | 1 <= t < |a| + 1
      ensures s[t] != ']' && s[t] != '\n'
    {
      assert s[t] == a[t - 1];
    }
    CloseBracketNone(s, 1, |a| + 1);
    assert MatchBracket(s, 0).None?;
    forall j | 1 <= j < |s|
      ensures s[j] != '['
    {
      if 1 <= j <= |a| {
        assert s[j] == a[j - 1];
      } else if |a| + 2 <= j < |s| - 1 {
        assert s[j] == b[j - |a| - 2];
      }
    }
    NoOpenBracket(s, 1);
    NoLeadNoMatch(Bracketed, s, 1, |s|);
    NoMatchUnchanged(Brackets, s);
  }

  /** The template `` `\1` \2 `` with groups `a` and `b`. */
  lemma ExpandPair(a: string, b: string)
    ensures Expand(QuotedType.template, [a, b]) == "`" + a + "` " + b
  {
    var t := QuotedType.template;
    assert t[1..] == [Group(1), Chars("` "), Group(2)];
    assert t[1..][1..] == [Chars("` "), Group(2)];
    assert t[1..][1..][1..] == [Group(2)];
    assert t[1..][1..][1..][1..] == [];
    assert Expand([Group(2)], [a, b]) == b;
    assert Expand([Chars("` "), Group(2)], [a, b]) == "` " + b;
    assert Expand([Group(1), Chars("` "), Group(2)], [a, b]) == a + "` " + b;
  }

  /** Where the two words of a pair match sit in the text, and that only whitespace lies between them. */
  lemma QuotedPairShape(s: string, i: nat)
    requires i <= |s| && MatchQuotedPair(s, i).Some?
    ensures var m := MatchQuotedPair(s, i).value; var a := m.groups[0]; var b := m.groups[1]; var e := m.end;
      i + |a| + |b| + 5 <= e && s[i + 1 + |a|] == '`' && s[e - |b| - 2] == '`'
      && (forall k :: 0 <= k < |a| ==> s[i + 1 + k] == a[k])
      && (forall k :: 0 <= k < |b| ==> s[e - |b| - 1 + k] == b[k])
      && (forall k :: i + |a| + 2 <= k < e - |b| - 2 ==> IsSpace(s[k]))
  {
  }

  /**
   * Wherever the pair pass matches, the text there is a backtick-quoted
   * word, whitespace and a second backtick-quoted word, and it is replaced
   * by the first word still quoted, one space and the second word bare.
   */
  lemma QuotedPairRewrite(s: string, j: nat)
    requires j < |s| && MatchAt(QuotedPair, s, j).Some?
    ensures var m := MatchAt(QuotedPair, s, j).value; var a := m.groups[0]; var b := m.groups[1];
      s[j..m.end] == "`" + a + "`" + s[j + |a| + 2..m.end - |b| - 2] + "`" + b + "`"
      && Expand(QuotedType.template, m.groups) == "`" + a + "` " + b
  {
    QuotedPairIsMatchAt(s, j);
    var m := MatchQuotedPair(s, j).value;
    QuotedPairShape(s, j);
    QuotedPairParts(s, j, m.end, m.groups[0], m.groups[1]);
    assert m.groups == [m.groups[0], m.groups[1]];
  }

  lemma QuotedPairIsMatchAt(s: string, j: nat)
    requires j <= |s|
    ensures MatchAt(QuotedPair, s, j) == MatchQuotedPair(s, j)
  {
  }

  /** The layout and the replacement of a pair match, from its parts. */
  lemma QuotedPairParts(s: string, j: nat, e: nat, a: string, b: string)
    requires j + |a| + |b| + 5 <= e <= |s|
    requires s[j] == '`' && s[j + 1 + |a|] == '`' && s[e - |b| - 2] == '`' && s[e - 1] == '`'
    requires forall k :: 0 <= k < |a| ==> s[j + 1 + k] == a[k]
    requires forall k :: 0 <= k < |b| ==> s[e - |b| - 1 + k] == b[k]
    ensures s[j..e] == "`" + a + "`" + s[j + |a| + 2..e - |b| - 2] + "`" + b + "`"
    ensures Expand(QuotedType.template, [a, b]) == "`" + a + "` " + b
  {
    ExpandPair(a, b);
    QuotedLayout(s, j, e, a, b);
  }

  /** Text that opens at `j` with `` `a` `` and closes before `e` with `` `b` `` is those two around what lies between. */
  lemma QuotedLayout(s: string, j: nat, e: nat, a: string, b: string)
    requires j + |a| + |b| + 4 <= e <= |s|
    requires s[j] == '`' && s[j + 1 + |a|] == '`' && s[e - |b| - 2] == '`' && s[e - 1] == '`'
    requires forall k :: 0 <= k < |a| ==> s[j + 1 + k] == a[k]
    requires forall k :: 0 <= k < |b| ==> s[e - |b| - 1 + k] == b[k]
    ensures s[j..e] == "`" + a + "`" + s[j + |a| + 2..e - |b| - 2] + "`" + b + "`"
  {
    var x := s[j..e];
    var gap := s[j + |a| + 2..e - |b| - 2];
    var rhs := "`" + a + "`" + gap + "`" + b + "`";
    assert |x| == |rhs|;
    forall k | 0 <= k < |x|
      ensures x[k] == rhs[k]
    {
      if k == 0 {
      } else if k < 1 + |a| {
        assert s[j + 1 + (k - 1)] == a[k - 1];
      } else if k == 1 + |a| {
      } else if k < |x| - |b| - 2 {
        assert rhs[k] == gap[k - |a| - 2];
      } else if k == |x| - |b| - 2 {
      } else if k < |x| - 1 {
        assert s[e - |b| - 1 + (k - (|x| - |b| - 1))] == b[k - (|x| - |b| - 1)];
      }
    }
  }

  /** A quoted word pass drops the backticks around its own word: `` `W` `` becomes `W`. */
  lemma QuotedWhole(w: Literal, s: string)
    requires s == "`" + w + "`"
    ensures Sub(Rule(Quoted(w), [Group(1)]), s) == w
  {
    assert s[1..1 + |w|] == w;
    assert MatchAt(Quoted(w), s, 0) == Some(Match(|s|, [w]));
    OccursNeedsRoom("`", s, |s|, |s|);
    SubOnce(Rule(Quoted(w), [Group(1)]), s, 0);
    assert Expand([Group(1)], [w]) == w + Expand([], [w]);
    EmptyHead(s, w, s[|s|..]);
    assert s[|s|..] == [];
  }

  /** `` `TINYINT UNSIGNED` ``, as the bracket pass leaves `[TINYINT UNSIGNED]`, loses its backticks. */
  lemma UnquoteTinyint(s: string)
    requires s == "`" + "TINYINT UNSIGNED" + "`"
    ensures Sub(QuotedTinyint, s) == "TINYINT UNSIGNED"
  {
    QuotedWhole("TINYINT UNSIGNED", s);
  }
}
