/**
 * What the conversion does to every text: which table entries can never
 * fire, what the precision passes leave behind, which passes only delete,
 * and which only change letter case or bracket characters.
 */
module ConverterFacts {
  import opened Text
  import opened Regex
  import opened SubFacts
  import opened FixedRules
  import opened ScanRelations
  import opened Converter

  /** Applying `a` and then `b` is applying `a + b`. */
  lemma {:induction false} ApplyAllAppend(a: seq<Rule>, b: seq<Rule>, s: string)
    ensures ApplyAll(a + b, s) == ApplyAll(b, ApplyAll(a, s))
    decreases |b|
  {
    if b == [] {
      assert a + b == a;
    } else {
      var n := |b| - 1;
      ApplyAllAppend(a, b[..n], s);
      assert (a + b)[..|a + b| - 1] == a + b[..n];
      assert (a + b)[|a + b| - 1] == b[n];
    }
  }

  /** Applying `rules` and then `r`. */
  lemma ApplyAllSnoc(rules: seq<Rule>, r: Rule, s: string)
    ensures ApplyAll(rules + [r], s) == Sub(r, ApplyAll(rules, s))
  {
    assert (rules + [r])[..|rules|] == rules;
  }

  /** No lead of any of `rules` occurs in `s`. */
  predicate Untouched(rules: seq<Rule>, s: string)
  {
    forall k :: 0 <= k < |rules| ==> !Occurs(Lead(rules[k].pattern), s, 0, |s|)
  }

  /** Rules whose lead occurs nowhere in the text leave it unchanged. */
  lemma {:induction false} ApplyAllUntouched(rules: seq<Rule>, s: string)
    requires Untouched(rules, s)
    ensures ApplyAll(rules, s) == s
    decreases |rules|
  {
    if rules != [] {
      var n := |rules| - 1;
      ApplyAllUntouched(rules[..n], s);
      SubUnchanged(rules[n], s);
    }
  }

  /** The rules of the passes after the table, in source order. */
  const Cleanup: seq<Rule> := [
    DatetimePrecision, TimePrecision, AnsiNulls, QuotedIdentifier,
    DboQualified, Brackets, QuotedTinyint, QuotedType, BatchSeparator
  ]

  lemma PrecisionUntouched(s: string)
    requires !Occurs(Lead(DatetimePrecision.pattern), s, 0, |s|)
    requires !Occurs(Lead(TimePrecision.pattern), s, 0, |s|)
    ensures Precision(s) == s
  {
    SubUnchanged(DatetimePrecision, s);
    SubUnchanged(TimePrecision, s);
  }

  lemma DropSettingsUntouched(s: string)
    requires !Occurs(Lead(AnsiNulls.pattern), s, 0, |s|)
    requires !Occurs(Lead(QuotedIdentifier.pattern), s, 0, |s|)
    ensures DropSettings(s) == s
  {
    SubUnchanged(AnsiNulls, s);
    SubUnchanged(QuotedIdentifier, s);
  }

  lemma BackticksUntouched(s: string)
    requires !Occurs(Lead(DboQualified.pattern), s, 0, |s|)
    requires !Occurs(Lead(Brackets.pattern), s, 0, |s|)
    requires !Occurs(Lead(QuotedTinyint.pattern), s, 0, |s|)
    requires !Occurs(Lead(QuotedType.pattern), s, 0, |s|)
    ensures Backticks(s) == s
  {
    SubUnchanged(DboQualified, s);
    SubUnchanged(Brackets, s);
    SubUnchanged(QuotedTinyint, s);
    SubUnchanged(QuotedType, s);
  }

  /** The passes after the table leave alone a text in which none of their leads occurs. */
  lemma CleanupUntouched(s: string)
    requires Untouched(Cleanup, s)
    ensures DropGo(Backticks(DropSettings(Precision(s)))) == s
  {
    UntouchedAt(Cleanup, s, 0, DatetimePrecision);
    UntouchedAt(Cleanup, s, 1, TimePrecision);
    PrecisionUntouched(s);
    UntouchedAt(Cleanup, s, 2, AnsiNulls);
    UntouchedAt(Cleanup, s, 3, QuotedIdentifier);
    DropSettingsUntouched(s);
    UntouchedAt(Cleanup, s, 4, DboQualified);
    UntouchedAt(Cleanup, s, 5, Brackets);
    UntouchedAt(Cleanup, s, 6, QuotedTinyint);
    UntouchedAt(Cleanup, s, 7, QuotedType);
    BackticksUntouched(s);
    UntouchedAt(Cleanup, s, 8, BatchSeparator);
    SubUnchanged(BatchSeparator, s);
  }

  /** The lead of the `k`-th of untouched rules, `r`, does not occur. */
  lemma UntouchedAt(rules: seq<Rule>, s: string, k: nat, r: Rule)
    requires Untouched(rules, s) && k < |rules| && rules[k] == r
    ensures !Occurs(Lead(r.pattern), s, 0, |s|)
  {
  }

  /**
   * A text in which no pattern of the converter can start is returned as it
   * is: no table word, no `[`, no backtick, no `GO` and no directive.
   */
  lemma ConvertUnchanged(s: string)
    requires Untouched(TypeMapping, s) && Untouched(Cleanup, s)
    ensures Convert(s) == s
  {
    ApplyAllUntouched(TypeMapping, s);
    CleanupUntouched(s);
  }

  lemma NtextFacts()
    ensures CiAt("NTEXT", 1, "TEXT") && AvoidsFrom("NTEXT", 1, 'L')
    ensures !OverlapsFrom("LONGTEXT", 0, "NTEXT")
  {
  }

  /**
   * The NTEXT entry never fires: the TEXT entry before it has already
   * turned every NTEXT into NLONGTEXT, and no NTEXT is left.
   */
  lemma NtextNeverFires(s: string)
    ensures Sub(NtextRule, Sub(TextRule, s)) == Sub(TextRule, s)
  {
    NtextFacts();
    Shadowed("TEXT", "LONGTEXT", "NTEXT", 1, s);
    NoMatchUnchanged(NtextRule, Sub(TextRule, s));
  }

  lemma SmallmoneyFacts()
    ensures CiAt("SMALLMONEY", 5, "MONEY") && AvoidsFrom("SMALLMONEY", 1, 'D')
    ensures !OverlapsFrom("DECIMAL(19,4)", 0, "SMALLMONEY")
  {
  }

  /**
   * The SMALLMONEY entry never fires: the MONEY entry before it has already
   * turned every SMALLMONEY into SMALLDECIMAL(19,4).
   */
  lemma SmallmoneyNeverFires(s: string)
    ensures Sub(SmallmoneyRule, Sub(MoneyRule, s)) == Sub(MoneyRule, s)
  {
    SmallmoneyFacts();
    Shadowed("MONEY", "DECIMAL(19,4)", "SMALLMONEY", 5, s);
    NoMatchUnchanged(SmallmoneyRule, Sub(MoneyRule, s));
  }

  /** Entries 10 to 13 of the table do what entries 10 and 12 alone do. */
  lemma MiddleDead(x: string)
    ensures ApplyAll([TextRule, NtextRule, MoneyRule, SmallmoneyRule], x) == ApplyAll([TextRule, MoneyRule], x)
  {
    ApplyAllSnoc([], TextRule, x);
    assert [] + [TextRule] == [TextRule];
    ApplyAllSnoc([TextRule], NtextRule, x);
    assert [TextRule] + [NtextRule] == [TextRule, NtextRule];
    ApplyAllSnoc([TextRule, NtextRule], MoneyRule, x);
    assert [TextRule, NtextRule] + [MoneyRule] == [TextRule, NtextRule, MoneyRule];
    ApplyAllSnoc([TextRule, NtextRule, MoneyRule], SmallmoneyRule, x);
    assert [TextRule, NtextRule, MoneyRule] + [SmallmoneyRule] == [TextRule, NtextRule, MoneyRule, SmallmoneyRule];
    ApplyAllSnoc([TextRule], MoneyRule, x);
    assert [TextRule] + [MoneyRule] == [TextRule, MoneyRule];
    NtextNeverFires(x);
    SmallmoneyNeverFires(Sub(TextRule, x));
  }

  /** The table without its NTEXT and SMALLMONEY entries. */
  const LiveMapping: seq<Rule> := TypeMapping[..10] + [TextRule, MoneyRule] + TypeMapping[14..]

  /** The NTEXT and SMALLMONEY entries are dead: the table without them does the same. */
  lemma DeadEntries(s: string)
    ensures ApplyAll(TypeMapping, s) == ApplyAll(LiveMapping, s)
  {
    var a := TypeMapping[..10];
    var m := [TextRule, NtextRule, MoneyRule, SmallmoneyRule];
    var live := [TextRule, MoneyRule];
    var b := TypeMapping[14..];
    assert TypeMapping[10..14] == m;
    assert TypeMapping == a + m + b;
    assert LiveMapping == a + live + b;
    ApplyAllAppend(a + m, b, s);
    ApplyAllAppend(a, m, s);
    ApplyAllAppend(a + live, b, s);
    ApplyAllAppend(a, live, s);
    MiddleDead(ApplyAll(a, s));
  }

  lemma SixIsDigits()
    ensures AllDigits("6")
  {
  }

  /** `D` does not recur, up to case, after the first character of `DATETIME(` or of `DATETIME(6)`. */
  lemma DatetimeAvoids()
    ensures AvoidsFrom("DATETIME(", 1, 'D') && AvoidsFrom("DATETIME(6)", 1, 'D')
  {
    assert AvoidsFrom("DATETIME(", 1, 'D');
  }

  /** `DATETIME(6)` is itself matched whole by `DATETIME(digits)`. */
  lemma DatetimeSelf()
    ensures MatchNumbered("DATETIME(", "DATETIME(6)", 0) == Some(Match(|"DATETIME(6)"|, ["6"]))
  {
    DatetimeSpelled();
    SixIsDigits();
    NumberedSelf("DATETIME(", "6");
  }

  lemma DatetimeSpelled()
    ensures "DATETIME(" + "6" + ")" == "DATETIME(6)"
  {
  }

  /** After the DATETIME pass every `DATETIME(digits)` in the text reads DATETIME(6). */
  lemma DatetimeSettled(s: string)
    ensures AllMatchesRead("DATETIME(", Sub(DatetimePrecision, s), "DATETIME(6)")
  {
    DatetimeAvoids();
    DatetimeSelf();
    Settled("DATETIME(", "DATETIME(6)", s);
  }

  /** Running the DATETIME pass a second time changes nothing. */
  lemma DatetimeIdempotent(s: string)
    ensures Sub(DatetimePrecision, Sub(DatetimePrecision, s)) == Sub(DatetimePrecision, s)
  {
    DatetimeAvoids();
    DatetimeSelf();
    SettledIdempotent("DATETIME(", "DATETIME(6)", s);
  }

  /** `T` does not recur, up to case, after the first character of `TIME(` or of `TIME(6)`. */
  lemma TimeAvoids()
    ensures AvoidsFrom("TIME(", 1, 'T') && AvoidsFrom("TIME(6)", 1, 'T')
  {
    assert AvoidsFrom("TIME(", 1, 'T');
  }

  /** `TIME(6)` is itself matched whole by `TIME(digits)`. */
  lemma TimeSelf()
    ensures MatchNumbered("TIME(", "TIME(6)", 0) == Some(Match(|"TIME(6)"|, ["6"]))
  {
    TimeSpelled();
    SixIsDigits();
    NumberedSelf("TIME(", "6");
  }

  lemma TimeSpelled()
    ensures "TIME(" + "6" + ")" == "TIME(6)"
  {
  }

  /** After the TIME pass every `TIME(digits)` in the text reads TIME(6). */
  lemma TimeSettled(s: string)
    ensures AllMatchesRead("TIME(", Sub(TimePrecision, s), "TIME(6)")
  {
    TimeAvoids();
    TimeSelf();
    Settled("TIME(", "TIME(6)", s);
  }

  /** Running the TIME pass a second time changes nothing. */
  lemma TimeIdempotent(s: string)
    ensures Sub(TimePrecision, Sub(TimePrecision, s)) == Sub(TimePrecision, s)
  {
    TimeAvoids();
    TimeSelf();
    SettledIdempotent("TIME(", "TIME(6)", s);
  }

  /** After both precision passes every `TIME(digits)` reads TIME(6). */
  lemma PrecisionSettlesTime(s: string)
    ensures AllMatchesRead("TIME(", Precision(s), "TIME(6)")
  {
    TimeSettled(Sub(DatetimePrecision, s));
  }

  /** A rule with an empty replacement only deletes characters. */
  lemma DeletionKeepsOrder(r: Rule, s: string)
    requires r.template == []
    ensures IsSubsequence(Sub(r, s), s)
  {
    ScanSubsequence(r.template, s, Matches(r.pattern, s), 0);
    assert s[0..] == s;
  }

  /**
   * Dropping the directives only deletes characters: the output is a
   * subsequence of the input.  Which characters go is stated by
   * `InContext.SettingInContext`.
   */
  lemma DropSettingsKeepsOrder(s: string)
    ensures IsSubsequence(DropSettings(s), s)
  {
    DeletionKeepsOrder(AnsiNulls, s);
    DeletionKeepsOrder(QuotedIdentifier, Sub(AnsiNulls, s));
    SubsequenceTrans(DropSettings(s), Sub(AnsiNulls, s), s);
  }

  /**
   * Dropping the `GO` lines only deletes characters: the output is a
   * subsequence of the input.  Which characters go is stated by
   * `InContext.GoInContext`.
   */
  lemma DropGoKeepsOrder(s: string)
    ensures IsSubsequence(DropGo(s), s)
  {
    DeletionKeepsOrder(BatchSeparator, s);
  }

  /**
   * Unquoting TINYINT UNSIGNED only deletes characters: the output is a
   * subsequence of the input.  That exactly the two backticks go is stated
   * by `InContext.UnquoteInContext`.
   */
  lemma UnquoteKeepsOrder(s: string)
    ensures IsSubsequence(Sub(QuotedTinyint, s), s)
  {
    var ms := Matches(QuotedTinyint.pattern, s);
    forall j | 0 <= j < |s| && ms[j].Some?
      ensures IsSubsequence(Expand(QuotedTinyint.template, ms[j].value.groups), s[j..ms[j].value.end])
    {
      var w := "TINYINT UNSIGNED";
      assert ms[j] == MatchQuoted(w, s, j);
      var e := ms[j].value.end;
      assert Expand(QuotedTinyint.template, ms[j].value.groups) == w;
      assert s[j..e] == [s[j]] + w + [s[e - 1]];
      SubsequenceRefl(w);
      SubsequenceConcat(w, w, [], [s[e - 1]]);
      assert w + [] == w;
      SubsequencePrepend(w, [s[j]], w + [s[e - 1]]);
      assert [s[j]] + (w + [s[e - 1]]) == [s[j]] + w + [s[e - 1]];
    }
    ScanSubsequence(QuotedTinyint.template, s, ms, 0);
    assert s[0..] == s;
  }

  /**
   * The bracket pass keeps the length of the text and changes it only by
   * turning square brackets into backticks.
   */
  lemma BracketsReticks(s: string)
    ensures Reticked(s, Sub(Brackets, s))
  {
    var ms := Matches(Bracketed, s);
    forall j | 0 <= j < |s| && ms[j].Some?
      ensures Reticked(s[j..ms[j].value.end], Expand(Brackets.template, ms[j].value.groups))
    {
      assert ms[j] == MatchBracket(s, j);
      var e := ms[j].value.end;
      var inner := s[j + 1..e - 1];
      ExpandGroupOne("`", "`", inner);
      assert s[j..e] == [s[j]] + inner + [s[e - 1]];
    }
    ScanReticks(Brackets.template, s, ms, 0);
    assert s[0..] == s;
  }

  /** A case-insensitive occurrence of `w` folds to the same text as `w`. */
  lemma FoldedOccurrence(s: string, j: nat, w: string)
    requires CiAt(s, j, w)
    ensures UpperStr(s[j..j + |w|]) == UpperStr(w)
  {
    CiAtIff(s, j, w);
    forall k | 0 <= k < |w|
      ensures UpperStr(s[j..j + |w|])[k] == UpperStr(w)[k]
    {
      assert s[j..j + |w|][k] == s[j + k];
    }
  }

  /** A word rule whose replacement spells the word itself only changes letter case. */
  lemma CaseOnlyRule(w: Literal, x: string, s: string)
    requires UpperStr(x) == UpperStr(w)
    ensures UpperStr(Sub(Rule(Word(w), [Chars(x)]), s)) == UpperStr(s)
  {
    var ms := Matches(Word(w), s);
    forall j | 0 <= j < |s| && ms[j].Some?
      ensures UpperStr(Expand([Chars(x)], ms[j].value.groups)) == UpperStr(s[j..ms[j].value.end])
    {
      assert ms[j] == MatchWord(w, s, j);
      assert Expand([Chars(x)], ms[j].value.groups) == x;
      FoldedOccurrence(s, j, w);
    }
    ScanKeepsFolded([Chars(x)], s, ms, 0);
    assert s[0..] == s;
  }

  /**
   * A word rule whose replacement is upper case and spells the word itself
   * only upper-cases characters of the text.
   */
  lemma UpcaseOnlyRule(w: Literal, x: string, s: string)
    requires UpperStr(x) == UpperStr(w) && UpperStr(x) == x
    ensures Upcased(s, Sub(Rule(Word(w), [Chars(x)]), s))
  {
    var ms := Matches(Word(w), s);
    forall j | 0 <= j < |s| && ms[j].Some?
      ensures Upcased(s[j..ms[j].value.end], Expand([Chars(x)], ms[j].value.groups))
    {
      assert ms[j] == MatchWord(w, s, j);
      assert Expand([Chars(x)], ms[j].value.groups) == x;
      FoldedOccurrence(s, j, w);
      forall k | 0 <= k < |x|
        ensures x[k] == Upper(s[j..j + |w|][k])
      {
        assert UpperStr(x)[k] == UpperStr(s[j..j + |w|])[k];
      }
    }
    ScanUpcases([Chars(x)], s, ms, 0);
    assert s[0..] == s;
  }

  /**
   * The BIGINT entry only upper-cases: the text is the same up to case, and
   * each character is either kept or upper-cased.
   */
  lemma BigintOnlyUpcases(s: string)
    ensures UpperStr(Sub(BigintRule, s)) == UpperStr(s)
    ensures |Sub(BigintRule, s)| == |s|
    ensures forall k :: 0 <= k < |s| ==> Sub(BigintRule, s)[k] == s[k] || Sub(BigintRule, s)[k] == Upper(s[k])
  {
    CaseOnlyRule("BIGINT", "BIGINT", s);
    UpcaseOnlyRule("BIGINT", "BIGINT", s);
  }
}
