/**
 * What each deleting or rewriting pass does to one occurrence of its target
 * inside a longer text: the text before it is kept, the occurrence becomes
 * its replacement, and the pass goes on over the text after it.
 */
module InContext {
  import opened Text
  import opened Regex
  import opened SubFacts
  import opened Locality
  import opened Converter
  import opened Identifiers

  /** A case-insensitive occurrence inside `d` stays one when text follows `d`. */
  lemma CiAtExtend(d: string, b: string, i: nat, w: string)
    requires CiAt(d, i, w)
    ensures CiAt(d + b, i, w)
  {
    CiAtIff(d, i, w);
    CiAtIff(d + b, i, w);
  }

  /**
   * `[dbo].[name]` in the middle of a text becomes `` `name` ``, the text
   * before it is kept and the rest of the text is rewritten on its own,
   * when no `[dbo].` match starts before it.
   */
  lemma {:induction false} DboInContext(p: string, nm: string, q: string)
    requires |nm| > 0 && AllWordChars(nm)
    requires forall k :: 0 <= k < |p| ==> MatchDbo(p + ("[dbo].[" + nm + "]" + q), k).None?
    ensures Sub(DboQualified, p + "[dbo].[" + nm + "]" + q)
      == p + "`" + nm + "`" + Sub(DboQualified, q)
  {
    var d := "[dbo].[" + nm + "]";
    DboHeadMatch(nm, q);
    assert NoMatchBefore(DboName, p + (d + q), |p|);
    SubAround(DboQualified, p, d, q, [nm]);
    ExpandGroupOne("`", "`", nm);
    Regroup(p, "[dbo].[", nm, "]", q);
    Regroup(p, "`", nm, "`", Sub(DboQualified, q));
  }

  /** Moving the parentheses of a five-part concatenation around its middle three parts. */
  lemma Regroup(p: string, x: string, m: string, y: string, q: string)
    ensures p + x + m + y + q == p + (x + m + y) + q
  {
  }

  /** `[dbo].[name]` at the start of a text is one match whose group is the name. */
  lemma DboHeadMatch(nm: string, q: string)
    requires |nm| > 0 && AllWordChars(nm)
    ensures MatchAt(DboName, "[dbo].[" + nm + "]" + q, 0) == Some(Match(|nm| + 8, [nm]))
  {
    var s := "[dbo].[" + nm + "]" + q;
    assert s[..6] == DboHead && s[6] == '[';
    assert s[7..7 + |nm|] == nm;
    WordRunIs(s, 7, |nm|);
    assert s[7 + |nm|] == ']';
  }

  /**
   * The bare form `[dbo].name`, where `name` is the whole run of word
   * characters, becomes `` `name` `` in the middle of a text; a `]` right
   * after the name is taken with it.
   */
  lemma {:induction false} DboBareInContext(p: string, nm: string, q: string)
    requires |nm| > 0 && AllWordChars(nm)
    requires q == [] || !IsWordChar(q[0])
    requires forall k :: 0 <= k < |p| ==> MatchDbo(p + ("[dbo]." + nm + q), k).None?
    ensures var e := if q != [] && q[0] == ']' then 1 else 0;
      Sub(DboQualified, p + "[dbo]." + nm + q) == p + "`" + nm + "`" + Sub(DboQualified, q[e..])
  {
    var e := if q != [] && q[0] == ']' then 1 else 0;
    var d := "[dbo]." + nm + q[..e];
    var t := q[e..];
    BareSplit(p, "[dbo]." + nm, q, e);
    AppendAssoc(p, "[dbo].", nm);
    DboBareHeadMatch(nm, q);
    assert NoMatchBefore(DboName, p + (d + t), |p|);
    SubAround(DboQualified, p, d, t, [nm]);
    ExpandGroupOne("`", "`", nm);
    Regroup(p, "`", nm, "`", Sub(DboQualified, t));
  }

  /** Cutting `q` at `e` and gluing the front to `x`. */
  lemma BareSplit(p: string, x: string, q: string, e: nat)
    requires e <= |q|
    ensures x + q == (x + q[..e]) + q[e..]
    ensures p + x + q == p + (x + q[..e]) + q[e..]
    ensures p + ((x + q[..e]) + q[e..]) == p + (x + q[..e]) + q[e..]
  {
    assert q == q[..e] + q[e..];
  }

  /** `[dbo].name` at the start of a text is one match whose group is the name. */
  lemma DboBareHeadMatch(nm: string, q: string)
    requires |nm| > 0 && AllWordChars(nm)
    requires q == [] || !IsWordChar(q[0])
    ensures MatchAt(DboName, "[dbo]." + nm + q, 0)
      == Some(Match(6 + |nm| + (if q != [] && q[0] == ']' then 1 else 0), [nm]))
  {
    var s := "[dbo]." + nm + q;
    assert s[..6] == DboHead && s[6] == nm[0];
    assert s[6..6 + |nm|] == nm;
    assert 6 + |nm| < |s| ==> s[6 + |nm|] == q[0];
    WordRunIs(s, 6, |nm|);
  }

  /**
   * `[x]`, with no `]` and no line break inside, becomes `` `x` `` in the
   * middle of a text when no bracket match starts before it: the text before
   * it is kept and the pass goes on after it.
   */
  lemma {:induction false} BracketInContext(a: string, x: string, b: string)
    requires forall k :: 0 <= k < |x| ==> x[k] != ']' && x[k] != '\n'
    requires forall k :: 0 <= k < |a| ==> MatchBracket(a + ("[" + x + "]" + b), k).None?
    ensures Sub(Brackets, a + "[" + x + "]" + b) == a + "`" + x + "`" + Sub(Brackets, b)
  {
    var d := "[" + x + "]";
    BracketHeadMatch(x, b);
    assert NoMatchBefore(Bracketed, a + (d + b), |a|);
    SubAround(Brackets, a, d, b, [x]);
    ExpandGroupOne("`", "`", x);
    Regroup(a, "[", x, "]", b);
    Regroup(a, "`", x, "`", Sub(Brackets, b));
  }

  /** `[x]` at the start of a text is one match whose group is `x`. */
  lemma BracketHeadMatch(x: string, b: string)
    requires forall k :: 0 <= k < |x| ==> x[k] != ']' && x[k] != '\n'
    ensures MatchAt(Bracketed, "[" + x + "]" + b, 0) == Some(Match(|x| + 2, [x]))
  {
    var s := "[" + x + "]" + b;
    forall t | 1 <= t < |x| + 1
      ensures s[t] != ']' && s[t] != '\n'
    {
      assert s[t] == x[t - 1];
    }
    CloseBracketIs(s, 1, |x| + 1);
    assert s[1..|x| + 1] == x;
  }

  /**
   * The first `` `TINYINT UNSIGNED` `` in a text loses its two backticks:
   * what comes before it is kept and the pass goes on after it.
   */
  lemma {:induction false} UnquoteInContext(a: string, b: string)
    requires forall k :: 0 <= k < |a| ==> !ExactAt(a + ("`TINYINT UNSIGNED`" + b), k, "`TINYINT UNSIGNED`")
    ensures Sub(QuotedTinyint, a + "`TINYINT UNSIGNED`" + b)
      == a + "TINYINT UNSIGNED" + Sub(QuotedTinyint, b)
  {
    var w := "TINYINT UNSIGNED";
    var d := "`TINYINT UNSIGNED`";
    assert d == "`" + w + "`";
    assert (d + b)[0..|d|] == "`" + w + "`";
    assert MatchAt(Quoted(w), d + b, 0) == Some(Match(|d|, [w]));
    forall k | 0 <= k < |a|
      ensures MatchAt(Quoted(w), a + (d + b), k).None?
    {
      assert !ExactAt(a + (d + b), k, d);
    }
    SubAround(QuotedTinyint, a, d, b, [w]);
    assert Expand([Group(1)], [w]) == w + Expand([], [w]);
  }

  /**
   * A column `` `col` `` whose type is `` `TINYINT UNSIGNED` `` after the
   * bracket pass loses the backticks around the type, and keeps those around
   * its name.
   */
  lemma UnquoteAfterColumn(col: string, b: string)
    requires 'T' !in col
    ensures Sub(QuotedTinyint, "`" + col + "` " + "`TINYINT UNSIGNED`" + b)
      == "`" + col + "` " + "TINYINT UNSIGNED" + Sub(QuotedTinyint, b)
  {
    var a := "`" + col + "` ";
    assert 'T' !in a;
    NoPhraseWithoutT(a, b);
    UnquoteInContext(a, b);
  }

  /** The phrase starts with a backtick and a `T`, so it cannot start in a stretch without a `T`. */
  lemma NoPhraseWithoutT(a: string, b: string)
    requires 'T' !in a
    ensures forall k :: 0 <= k < |a| ==> !ExactAt(a + ("`TINYINT UNSIGNED`" + b), k, "`TINYINT UNSIGNED`")
  {
    var d := "`TINYINT UNSIGNED`";
    var s := a + (d + b);
    forall k | 0 <= k < |a|
      ensures !ExactAt(s, k, d)
    {
      if k + 1 < |a| {
        assert s[k + 1] == a[k + 1] && a[k + 1] in a;
      } else {
        assert s[k + 1] == d[0];
      }
      assert k + |d| <= |s| ==> s[k..k + |d|][1] == s[k + 1];
    }
  }

  /**
   * A session directive `d` (the words up to case, with or without its
   * semicolon) is deleted by a rule that replaces it with nothing, as
   * `AnsiNulls` and `QuotedIdentifier` do: what comes before it is kept and the pass goes on
   * after it.  Without the semicolon, one right after `d` would be deleted
   * with it, so the text after `d` must not start with one.
   */
  lemma {:induction false} SettingInContext(r: Rule, a: string, d: string, b: string)
    requires r.pattern.Setting? && r.template == []
    requires CiAt(d, 0, r.pattern.text)
    requires (|d| == |r.pattern.text| + 1 && d[|d| - 1] == ';')
      || (|d| == |r.pattern.text| && (b == [] || b[0] != ';'))
    requires !Occurs(r.pattern.text, a + (d + b), 0, |a|)
    ensures Sub(r, a + d + b) == a + Sub(r, b)
  {
    SettingHeadMatch(r.pattern.text, d, b);
    NoLeadNoMatch(r.pattern, a + (d + b), 0, |a|);
    SubDeletes(r, a, d, b, []);
  }

  /** A directive at the start of a text is one match that ends where the directive does. */
  lemma SettingHeadMatch(w: Literal, d: string, b: string)
    requires CiAt(d, 0, w)
    requires (|d| == |w| + 1 && d[|d| - 1] == ';') || (|d| == |w| && (b == [] || b[0] != ';'))
    ensures MatchSetting(w, d + b, 0) == Some(Match(|d|, []))
  {
    CiAtExtend(d, b, 0, w);
    CiAtSlice(d + b, 0, w);
  }

  /**
   * The first `GO` line `d` (the word up to case and then whitespace) is
   * deleted when it starts a line and a line that is not blank follows it,
   * or the text ends there; what comes before it is kept and the pass goes
   * on after it.
   */
  lemma {:induction false} GoInContext(a: string, d: string, b: string)
    requires a == [] || a[|a| - 1] == '\n'
    requires forall k :: 0 <= k < |a| ==> MatchGo(a + (d + b), k).None?
    requires CiAt(d, 0, "GO") && Blank(d, 2, |d|)
    requires b == [] || (b[0] == '\n' && forall t :: 0 < t && Blank(b, 0, t) ==> !LineEnd(b, t))
    ensures Sub(BatchSeparator, a + d + b) == a + Sub(BatchSeparator, b)
  {
    GoHeadMatch(d, b);
    assert b == [] || !CiAt(b, 0, "GO");
    assert NoMatchBefore(GoLine, a + (d + b), |a|);
    SubDeletes(BatchSeparator, a, d, b, []);
  }

  /** A `GO` line at the start of a text is one match that ends where the line does. */
  lemma GoHeadMatch(d: string, b: string)
    requires CiAt(d, 0, "GO") && Blank(d, 2, |d|)
    requires b == [] || (b[0] == '\n' && forall t :: 0 < t && Blank(b, 0, t) ==> !LineEnd(b, t))
    ensures MatchGo(d + b, 0) == Some(Match(|d|, []))
  {
    var s := d + b;
    CiAtExtend(d, b, 0, "GO");
    assert Blank(s, 2, |d|) && LineEnd(s, |d|);
    var m := MatchGo(s, 0);
    assert m.Some?;
    GoEnd(d, b, m.value.end);
  }

  /** The greedy `\s*$` after `GO` stops where `d` ends. */
  lemma GoEnd(d: string, b: string, e: nat)
    requires 2 <= |d| && Blank(d, 2, |d|)
    requires b == [] || (b[0] == '\n' && forall t :: 0 < t && Blank(b, 0, t) ==> !LineEnd(b, t))
    requires 2 <= e <= |d + b| && LineEnd(d + b, e) && Blank(d + b, 2, e)
    requires forall t :: e < t && Blank(d + b, 2, t) ==> !LineEnd(d + b, t)
    ensures e == |d|
  {
    var s := d + b;
    if e < |d| {
      assert Blank(s, 2, |d|) && LineEnd(s, |d|);
      assert false;
    }
    if e > |d| {
      assert b != [];
      assert Blank(b, 0, e - |d|) by {
        forall k | 0 <= k < e - |d| ensures IsSpace(b[k]) { assert b[k] == s[|d| + k]; }
      }
    }
  }
}
