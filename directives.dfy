/**
 * What the directive and batch-separator passes do: a `SET ... ON`
 * directive is deleted together with one following `;`, and a line made of
 * `GO` and trailing whitespace is deleted, taking with it every line break
 * of the blank lines after it but the last, or all of them when the text
 * ends there.
 */
module Directives {
  import opened Text
  import opened Regex
  import opened SubFacts
  import opened Converter
  import opened Cascades

  /** The directive `w`, in any case and optionally followed by `;`, is deleted whole. */
  lemma SettingDeleted(w: Literal, s: string)
    requires |w| <= |s| <= |w| + 1
    requires UpperStr(s[..|w|]) == UpperStr(w)
    requires |s| == |w| + 1 ==> s[|w|] == ';'
    ensures Sub(Rule(Setting(w), []), s) == ""
  {
    CiAtOfUpper(s[..|w|], w);
    CiAtIff(s[..|w|], 0, w);
    CiAtIff(s, 0, w);
    assert MatchAt(Setting(w), s, 0) == Some(Match(|s|, []));
    OccursNeedsRoom(w, s, |s|, |s|);
    SubOnce(Rule(Setting(w), []), s, 0);
    assert s[..0] == [] && s[|s|..] == [];
  }

  /** Nothing is left of the empty text. */
  lemma EmptyStaysEmpty(r: Rule)
    ensures Sub(r, "") == ""
  {
    NoMatchUnchanged(r, "");
  }

  /** `SET ANSI_NULLS ON`, in any case and with or without `;`, disappears. */
  lemma AnsiNullsDropped(s: string)
    requires 17 <= |s| <= 18 && UpperStr(s[..17]) == "SET ANSI_NULLS ON"
    requires |s| == 18 ==> s[17] == ';'
    ensures DropSettings(s) == ""
  {
    assert UpperStr("SET ANSI_NULLS ON") == "SET ANSI_NULLS ON";
    SettingDeleted("SET ANSI_NULLS ON", s);
    EmptyStaysEmpty(QuotedIdentifier);
  }

  /** `SET QUOTED_IDENTIFIER ON`, in any case and with or without `;`, disappears. */
  lemma QuotedIdentifierDropped(s: string)
    requires 24 <= |s| <= 25 && UpperStr(s[..24]) == "SET QUOTED_IDENTIFIER ON"
    requires |s| == 25 ==> s[24] == ';'
    ensures DropSettings(s) == ""
  {
    QuotedIdentifierSkipsAnsi(s);
    assert UpperStr("SET QUOTED_IDENTIFIER ON") == "SET QUOTED_IDENTIFIER ON";
    SettingDeleted("SET QUOTED_IDENTIFIER ON", s);
  }

  /** The other directive does not occur in `SET QUOTED_IDENTIFIER ON`. */
  lemma QuotedIdentifierSkipsAnsi(s: string)
    requires 24 <= |s| <= 25 && UpperStr(s[..24]) == "SET QUOTED_IDENTIFIER ON"
    requires |s| == 25 ==> s[24] == ';'
    ensures Sub(AnsiNulls, s) == s
  {
    var w := "SET ANSI_NULLS ON";
    QuotedIdentifierLetters(s);
    Mismatch(s, 0, w, 4);
    InitialAbsent(w, s, 1);
    assert !Occurs(w, s, 0, |s|);
    SubUnchanged(AnsiNulls, s);
  }

  /** `S` opens `SET QUOTED_IDENTIFIER ON` and does not recur; its fifth character is `Q`. */
  lemma QuotedIdentifierLetters(s: string)
    requires 24 <= |s| <= 25 && UpperStr(s[..24]) == "SET QUOTED_IDENTIFIER ON"
    requires |s| == 25 ==> s[24] == ';'
    ensures Upper(s[4]) == 'Q'
    ensures forall j :: 1 <= j < |s| ==> Upper(s[j]) != 'S'
  {
    var u := UpperStr(s[..24]);
    assert u[4] == Upper(s[4]);
    forall j | 1 <= j < |s|
      ensures Upper(s[j]) != 'S'
    {
      if j < 24 {
        assert u[j] == Upper(s[j]);
      }
    }
  }

  /** A line holding only `GO`, in any case, is deleted. */
  lemma GoWhole(s: string)
    requires UpperStr(s) == "GO"
    ensures DropGo(s) == ""
  {
    CiAtOfUpper(s, "GO");
    assert SpaceRun(s, 2) == 0;
    assert MatchGo(s, 0) == Some(Match(2, []));
    OccursNeedsRoom("GO", s, 2, 2);
    SubOnce(BatchSeparator, s, 0);
    assert s[..0] == [] && s[2..] == [];
  }

  /**
   * `GO` followed by one or more empty lines and then a line of text: the
   * `GO` line goes, and of the line breaks after it only the last is kept.
   */
  lemma GoSwallowsBlankLines(g: string, nl: string, t: string)
    requires UpperStr(g) == "GO"
    requires |nl| > 0 && forall k :: 0 <= k < |nl| ==> nl[k] == '\n'
    requires |t| > 0 && !IsSpace(t[0])
    requires forall k :: 0 <= k < |t| ==> Upper(t[k]) != 'G'
    ensures DropGo(g + nl + t) == "\n" + t
  {
    var s := g + nl + t;
    var n := |nl|;
    GoBlankLayout(g, nl, t);
    GoBlankMatch(s, n);
    InitialAbsent("GO", s, n + 1);
    SubOnce(BatchSeparator, s, 0);
    assert s[..0] == [];
  }

  lemma GoBlankLayout(g: string, nl: string, t: string)
    requires UpperStr(g) == "GO"
    requires |nl| > 0 && forall k :: 0 <= k < |nl| ==> nl[k] == '\n'
    requires |t| > 0 && !IsSpace(t[0])
    requires forall k :: 0 <= k < |t| ==> Upper(t[k]) != 'G'
    ensures var s := g + nl + t; var n := |nl|;
      |s| == n + |t| + 2 && CiAt(s, 0, "GO") && !IsSpace(s[2 + n]) &&
      (forall k :: 2 <= k < 2 + n ==> s[k] == '\n') &&
      (forall k :: n + 1 <= k < |s| ==> Upper(s[k]) != 'G') &&
      s[n + 1..] == "\n" + t
  {
    var s := g + nl + t;
    var n := |nl|;
    CiAtOfUpper(g, "GO");
    CiAtIff(g, 0, "GO");
    CiAtIff(s, 0, "GO");
    assert s[2 + n] == t[0];
    assert forall k :: n + 1 <= k < |s| ==> s[k] == if k < 2 + n then '\n' else t[k - 2 - n];
    assert s[n + 1..] == "\n" + t;
  }

  /** The `GO` match runs up to the last line break before the text. */
  lemma GoBlankMatch(s: string, n: nat)
    requires 0 < n && 2 + n < |s| && CiAt(s, 0, "GO") && !IsSpace(s[2 + n])
    requires forall k :: 2 <= k < 2 + n ==> s[k] == '\n'
    ensures MatchGo(s, 0) == Some(Match(n + 1, []))
  {
    SpaceRunIs(s, 2, n);
    assert LineEndBack(s, 2, 2 + n) == LineEndBack(s, 2, 1 + n);
  }

  /** `GO` indented by a space or tab is not a batch separator and survives. */
  lemma GoIndentedSurvives(c: char, g: string)
    requires IsSpace(c) && c != '\n'
    requires UpperStr(g) == "GO"
    ensures DropGo([c] + g) == [c] + g
  {
    var s := [c] + g;
    forall j | 0 <= j < |s|
      ensures MatchAt(GoLine, s, j).None?
    {
      if j == 0 {
        Mismatch(s, 0, "GO", 0);
      } else {
        assert s[j - 1] != '\n';
      }
    }
    NoMatchUnchanged(BatchSeparator, s);
  }

  /** `GO` followed on its line by anything but whitespace survives. */
  lemma GoWithTextSurvives(g: string, t: string)
    requires UpperStr(g) == "GO"
    requires forall k :: 0 <= k < |t| ==> t[k] != '\n'
    requires exists k :: 0 <= k < |t| && !IsSpace(t[k])
    ensures DropGo(g + t) == g + t
  {
    var s := g + t;
    forall j | 0 <= j < |s|
      ensures MatchAt(GoLine, s, j).None?
    {
      if j == 0 {
        var k :| 0 <= k < |t| && !IsSpace(t[k]);
        assert !IsSpace(s[2 + k]);
        var r := SpaceRun(s, 2);
        assert 2 + r < |s|;
      } else {
        assert s[j - 1] != '\n';
      }
    }
    NoMatchUnchanged(BatchSeparator, s);
  }
}
