/**
 * The conversion run twice. `TEXT` comes out of `Convert` as `LONGTEXT`,
 * and `LONGTEXT` comes out as `LONGLONGTEXT`; `TINYINT` comes out as
 * `TINYINT UNSIGNED`, and that comes out as `TINYINT UNSIGNED UNSIGNED`.
 * Converting an already converted schema changes it again.
 */
module SecondRun {
  import opened Text
  import opened Regex
  import opened SubFacts
  import opened Converter
  import opened ConverterFacts
  import opened Cascades
  import opened WholeConversion
  import opened Letters

  /** The letters of `TEXT`, `LONGTEXT` and `LONGLONGTEXT`. */
  const LongLetters: set<char> := {'E', 'G', 'L', 'N', 'O', 'T', 'X'}

  /** The letters of `TINYINT`, `TINYINT UNSIGNED` and `TINYINT UNSIGNED UNSIGNED`. */
  const UnsignedLetters: set<char> := {' ', 'D', 'E', 'G', 'I', 'N', 'S', 'T', 'U', 'Y'}

  /** The table entries before and after the TEXT entry. */
  const BeforeText: seq<Rule> := [
    IntIdentityRule, Datetime2Rule, DatetimeoffsetRule, SmalldatetimeRule,
    Datetime7Rule, Time7Rule, UniqueidentifierRule, NvarcharRule,
    NvarcharMaxRule, VarcharMaxRule
  ]
  const AfterText: seq<Rule> := [NtextRule] + AfterNtext
  const AfterNtext: seq<Rule> := [
    MoneyRule, SmallmoneyRule, BitRule, FloatRule,
    RealRule, TinyintRule, BigintRule, ImageRule
  ]

  /** The passes before the `GO` pass. */
  const PassesBeforeGo: seq<Rule> := [
    DatetimePrecision, TimePrecision, AnsiNulls, QuotedIdentifier,
    DboQualified, Brackets, QuotedTinyint, QuotedType
  ]

  /** Where each lead has a character that is not a letter of `LONGTEXT`. */
  const BeforeTextAt: seq<nat> := [0, 0, 0, 0, 0, 1, 0, 1, 1, 0]
  const AfterNtextAt: seq<nat> := [0, 0, 0, 0, 0, 1, 0, 0]
  const PassesLongAt: seq<nat> := [0, 1, 0, 0, 0, 0, 0, 0]

  lemma TableAroundText()
    ensures TypeMapping == BeforeText + [TextRule] + AfterText
  {
  }

  lemma CleanupEndsWithGo()
    ensures Cleanup == PassesBeforeGo + [BatchSeparator]
  {
  }

  /** The conversion with the TEXT entry singled out. */
  lemma ConvertAroundText(s: string)
    ensures Convert(s) ==
      DropGo(Backticks(DropSettings(Precision(ApplyAll(AfterText, Sub(TextRule, ApplyAll(BeforeText, s)))))))
  {
    TableAroundText();
    ApplyAllAppend(BeforeText + [TextRule], AfterText, s);
    ApplyAllSnoc(BeforeText, TextRule, s);
  }

  lemma TextLetters(s: string)
    requires UpperStr(s) == "TEXT"
    ensures InLetters(s, LongLetters)
  {
    assert forall j :: 0 <= j < |s| ==> Upper(s[j]) == UpperStr(s)[j];
  }

  lemma LongLettersOnly(t: string)
    requires t == "LONGTEXT" || t == "LONGLONGTEXT"
    ensures InLetters(t, LongLetters)
  {
  }

  lemma BeforeTextForeign()
    ensures ForeignFrom(BeforeText, BeforeTextAt, LongLetters, 0, |BeforeText|)
  {
    BeforeTextForeign0();
    BeforeTextForeign5();
  }

  lemma BeforeTextForeign0()
    ensures ForeignFrom(BeforeText, BeforeTextAt, LongLetters, 0, 5)
  {
    forall k | 0 <= k < 5
      ensures ForeignAt(Lead(BeforeText[k].pattern), LongLetters, BeforeTextAt[k])
    {
      BeforeTextForeignLeads0();
    }
  }

  lemma BeforeTextForeignLeads0()
    ensures ForeignAt(Lead(IntIdentityRule.pattern), LongLetters, 0)
    ensures ForeignAt(Lead(Datetime2Rule.pattern), LongLetters, 0)
    ensures ForeignAt(Lead(DatetimeoffsetRule.pattern), LongLetters, 0)
    ensures ForeignAt(Lead(SmalldatetimeRule.pattern), LongLetters, 0)
    ensures ForeignAt(Lead(Datetime7Rule.pattern), LongLetters, 0)
  {
  }

  lemma BeforeTextForeign5()
    ensures ForeignFrom(BeforeText, BeforeTextAt, LongLetters, 5, 10)
  {
    forall k | 5 <= k < 10
      ensures ForeignAt(Lead(BeforeText[k].pattern), LongLetters, BeforeTextAt[k])
    {
      BeforeTextForeignLeads5();
    }
  }

  lemma BeforeTextForeignLeads5()
    ensures ForeignAt(Lead(Time7Rule.pattern), LongLetters, 1)
    ensures ForeignAt(Lead(UniqueidentifierRule.pattern), LongLetters, 0)
    ensures ForeignAt(Lead(NvarcharRule.pattern), LongLetters, 1)
    ensures ForeignAt(Lead(NvarcharMaxRule.pattern), LongLetters, 1)
    ensures ForeignAt(Lead(VarcharMaxRule.pattern), LongLetters, 0)
  {
  }

  lemma AfterNtextForeign()
    ensures ForeignFrom(AfterNtext, AfterNtextAt, LongLetters, 0, |AfterNtext|)
  {
    AfterNtextForeign0();
    AfterNtextForeign4();
  }

  lemma AfterNtextForeign0()
    ensures ForeignFrom(AfterNtext, AfterNtextAt, LongLetters, 0, 4)
  {
    forall k | 0 <= k < 4
      ensures ForeignAt(Lead(AfterNtext[k].pattern), LongLetters, AfterNtextAt[k])
    {
      AfterNtextForeignLeads0();
    }
  }

  lemma AfterNtextForeignLeads0()
    ensures ForeignAt(Lead(MoneyRule.pattern), LongLetters, 0)
    ensures ForeignAt(Lead(SmallmoneyRule.pattern), LongLetters, 0)
    ensures ForeignAt(Lead(BitRule.pattern), LongLetters, 0)
    ensures ForeignAt(Lead(FloatRule.pattern), LongLetters, 0)
  {
  }

  lemma AfterNtextForeign4()
    ensures ForeignFrom(AfterNtext, AfterNtextAt, LongLetters, 4, 8)
  {
    forall k | 4 <= k < 8
      ensures ForeignAt(Lead(AfterNtext[k].pattern), LongLetters, AfterNtextAt[k])
    {
      AfterNtextForeignLeads4();
    }
  }

  lemma AfterNtextForeignLeads4()
    ensures ForeignAt(Lead(RealRule.pattern), LongLetters, 0)
    ensures ForeignAt(Lead(TinyintRule.pattern), LongLetters, 1)
    ensures ForeignAt(Lead(BigintRule.pattern), LongLetters, 0)
    ensures ForeignAt(Lead(ImageRule.pattern), LongLetters, 0)
  {
  }

  lemma PassesLongForeign()
    ensures ForeignFrom(PassesBeforeGo, PassesLongAt, LongLetters, 0, |PassesBeforeGo|)
  {
    PassesLongForeign0();
    PassesLongForeign4();
  }

  lemma PassesLongForeign0()
    ensures ForeignFrom(PassesBeforeGo, PassesLongAt, LongLetters, 0, 4)
  {
    forall k | 0 <= k < 4
      ensures ForeignAt(Lead(PassesBeforeGo[k].pattern), LongLetters, PassesLongAt[k])
    {
      PassesLongForeignLeads0();
    }
  }

  lemma PassesLongForeignLeads0()
    ensures ForeignAt(Lead(DatetimePrecision.pattern), LongLetters, 0)
    ensures ForeignAt(Lead(TimePrecision.pattern), LongLetters, 1)
    ensures ForeignAt(Lead(AnsiNulls.pattern), LongLetters, 0)
    ensures ForeignAt(Lead(QuotedIdentifier.pattern), LongLetters, 0)
  {
  }

  lemma PassesLongForeign4()
    ensures ForeignFrom(PassesBeforeGo, PassesLongAt, LongLetters, 4, 8)
  {
    forall k | 4 <= k < 8
      ensures ForeignAt(Lead(PassesBeforeGo[k].pattern), LongLetters, PassesLongAt[k])
    {
      PassesLongForeignLeads4();
    }
  }

  lemma PassesLongForeignLeads4()
    ensures ForeignAt(Lead(DboQualified.pattern), LongLetters, 0)
    ensures ForeignAt(Lead(Brackets.pattern), LongLetters, 0)
    ensures ForeignAt(Lead(QuotedTinyint.pattern), LongLetters, 0)
    ensures ForeignAt(Lead(QuotedType.pattern), LongLetters, 0)
  {
  }

  /** `NTEXT` and `GO` are made of letters of `LONGTEXT`, yet occur in neither text. */
  lemma NtextAbsent(t: string)
    requires t == "LONGTEXT" || t == "LONGLONGTEXT"
    ensures Untouched([NtextRule], t)
  {
    Mismatches("NTEXT", t, 1);
  }

  lemma GoAbsent(t: string)
    requires t == "LONGTEXT" || t == "LONGLONGTEXT"
    ensures Untouched([BatchSeparator], t)
  {
    Mismatches("GO", t, 1);
  }

  /** The entries before TEXT leave a text made of the letters of `LONGTEXT` alone. */
  lemma BeforeTextSkips(t: string)
    requires InLetters(t, LongLetters)
    ensures ApplyAll(BeforeText, t) == t
  {
    BeforeTextForeign();
    RulesAvoid(BeforeText, BeforeTextAt, t, LongLetters);
    ApplyAllUntouched(BeforeText, t);
  }

  /** The entries after TEXT leave both `LONGTEXT` and `LONGLONGTEXT` alone. */
  lemma AfterTextSkips(t: string)
    requires t == "LONGTEXT" || t == "LONGLONGTEXT"
    ensures ApplyAll(AfterText, t) == t
  {
    LongLettersOnly(t);
    AfterNtextForeign();
    RulesAvoid(AfterNtext, AfterNtextAt, t, LongLetters);
    NtextAbsent(t);
    UntouchedAppend([NtextRule], AfterNtext, t);
    ApplyAllUntouched(AfterText, t);
  }

  /** None of the passes after the table touches `LONGTEXT` or `LONGLONGTEXT`. */
  lemma CleanupSkipsLong(t: string)
    requires t == "LONGTEXT" || t == "LONGLONGTEXT"
    ensures DropGo(Backticks(DropSettings(Precision(t)))) == t
  {
    LongLettersOnly(t);
    PassesLongForeign();
    RulesAvoid(PassesBeforeGo, PassesLongAt, t, LongLetters);
    GoAbsent(t);
    UntouchedAppend(PassesBeforeGo, [BatchSeparator], t);
    CleanupEndsWithGo();
    CleanupUntouched(t);
  }

  /** `TEXT`, in any case, comes out of the whole conversion as `LONGTEXT`. */
  lemma ConvertText(s: string)
    requires UpperStr(s) == "TEXT"
    ensures Convert(s) == "LONGTEXT"
  {
    ConvertAroundText(s);
    TextLetters(s);
    BeforeTextSkips(s);
    TextUpperWhole(s);
    AfterTextSkips("LONGTEXT");
    CleanupSkipsLong("LONGTEXT");
  }

  /** `LONGTEXT`, the conversion's own output, comes out as `LONGLONGTEXT`. */
  lemma ConvertLongtext(t: string)
    requires t == "LONGTEXT"
    ensures Convert(t) == "LONGLONGTEXT"
  {
    ConvertAroundText(t);
    LongLettersOnly(t);
    BeforeTextSkips(t);
    LongtextAgain(t);
    AfterTextSkips("LONGLONGTEXT");
    CleanupSkipsLong("LONGLONGTEXT");
  }

  /**
   * The conversion is not idempotent: run on its own output it rewrites
   * again, turning `TEXT` into `LONGTEXT` and then into `LONGLONGTEXT`.
   */
  lemma ConvertNotIdempotent(s: string)
    requires UpperStr(s) == "TEXT"
    ensures Convert(s) == "LONGTEXT"
    ensures Convert(Convert(s)) == "LONGLONGTEXT" != Convert(s)
  {
    ConvertText(s);
    ConvertLongtext(Convert(s));
  }

  /** The table entries before and after the TINYINT entry. */
  const BeforeTinyint: seq<Rule> := [
    IntIdentityRule, Datetime2Rule, DatetimeoffsetRule, SmalldatetimeRule,
    Datetime7Rule, Time7Rule, UniqueidentifierRule, NvarcharRule,
    NvarcharMaxRule, VarcharMaxRule, TextRule, NtextRule,
    MoneyRule, SmallmoneyRule, BitRule, FloatRule, RealRule
  ]
  const AfterTinyint: seq<Rule> := [BigintRule, ImageRule]

  /** Where each lead has a character that is not a letter of `TINYINT UNSIGNED`. */
  const BeforeTinyintAt: seq<nat> := [12, 1, 1, 1, 1, 2, 3, 1, 1, 0, 2, 3, 0, 1, 0, 0, 0]
  const AfterTinyintAt: seq<nat> := [0, 1]
  const CleanupUnsignedAt: seq<nat> := [1, 2, 4, 4, 0, 0, 0, 0, 1]

  lemma TableAroundTinyint()
    ensures TypeMapping == BeforeTinyint + [TinyintRule] + AfterTinyint
  {
  }

  /** The conversion with the TINYINT entry singled out. */
  lemma ConvertAroundTinyint(s: string)
    ensures Convert(s) ==
      DropGo(Backticks(DropSettings(Precision(ApplyAll(AfterTinyint, Sub(TinyintRule, ApplyAll(BeforeTinyint, s)))))))
  {
    TableAroundTinyint();
    ApplyAllAppend(BeforeTinyint + [TinyintRule], AfterTinyint, s);
    ApplyAllSnoc(BeforeTinyint, TinyintRule, s);
  }

  lemma TinyintLetters(s: string)
    requires UpperStr(s) == "TINYINT"
    ensures InLetters(s, UnsignedLetters)
  {
    assert forall j :: 0 <= j < |s| ==> Upper(s[j]) == UpperStr(s)[j];
  }

  lemma UnsignedLettersOnly(t: string)
    requires t == "TINYINT UNSIGNED" || t == "TINYINT UNSIGNED UNSIGNED"
    ensures InLetters(t, UnsignedLetters)
  {
  }

  lemma BeforeTinyintForeign()
    ensures ForeignFrom(BeforeTinyint, BeforeTinyintAt, UnsignedLetters, 0, |BeforeTinyint|)
  {
    BeforeTinyintForeign0();
    BeforeTinyintForeign5();
    BeforeTinyintForeign9();
    BeforeTinyintForeign13();
  }

  lemma BeforeTinyintForeign0()
    ensures ForeignFrom(BeforeTinyint, BeforeTinyintAt, UnsignedLetters, 0, 5)
  {
    forall k | 0 <= k < 5
      ensures ForeignAt(Lead(BeforeTinyint[k].pattern), UnsignedLetters, BeforeTinyintAt[k])
    {
      BeforeTinyintForeignLeads0();
    }
  }

  lemma BeforeTinyintForeignLeads0()
    ensures ForeignAt(Lead(IntIdentityRule.pattern), UnsignedLetters, 12)
    ensures ForeignAt(Lead(Datetime2Rule.pattern), UnsignedLetters, 1)
    ensures ForeignAt(Lead(DatetimeoffsetRule.pattern), UnsignedLetters, 1)
    ensures ForeignAt(Lead(SmalldatetimeRule.pattern), UnsignedLetters, 1)
    ensures ForeignAt(Lead(Datetime7Rule.pattern), UnsignedLetters, 1)
  {
  }

  lemma BeforeTinyintForeign5()
    ensures ForeignFrom(BeforeTinyint, BeforeTinyintAt, UnsignedLetters, 5, 9)
  {
    forall k | 5 <= k < 9
      ensures ForeignAt(Lead(BeforeTinyint[k].pattern), UnsignedLetters, BeforeTinyintAt[k])
    {
      BeforeTinyintForeignLeads5();
    }
  }

  lemma BeforeTinyintForeignLeads5()
    ensures ForeignAt(Lead(Time7Rule.pattern), UnsignedLetters, 2)
    ensures ForeignAt(Lead(UniqueidentifierRule.pattern), UnsignedLetters, 3)
    ensures ForeignAt(Lead(NvarcharRule.pattern), UnsignedLetters, 1)
    ensures ForeignAt(Lead(NvarcharMaxRule.pattern), UnsignedLetters, 1)
  {
  }

  lemma BeforeTinyintForeign9()
    ensures ForeignFrom(BeforeTinyint, BeforeTinyintAt, UnsignedLetters, 9, 13)
  {
    forall k | 9 <= k < 13
      ensures ForeignAt(Lead(BeforeTinyint[k].pattern), UnsignedLetters, BeforeTinyintAt[k])
    {
      BeforeTinyintForeignLeads9();
    }
  }

  lemma BeforeTinyintForeignLeads9()
    ensures ForeignAt(Lead(VarcharMaxRule.pattern), UnsignedLetters, 0)
    ensures ForeignAt(Lead(TextRule.pattern), UnsignedLetters, 2)
    ensures ForeignAt(Lead(NtextRule.pattern), UnsignedLetters, 3)
    ensures ForeignAt(Lead(MoneyRule.pattern), UnsignedLetters, 0)
  {
  }

  lemma BeforeTinyintForeign13()
    ensures ForeignFrom(BeforeTinyint, BeforeTinyintAt, UnsignedLetters, 13, 17)
  {
    forall k | 13 <= k < 17
      ensures ForeignAt(Lead(BeforeTinyint[k].pattern), UnsignedLetters, BeforeTinyintAt[k])
    {
      BeforeTinyintForeignLeads13();
    }
  }

  lemma BeforeTinyintForeignLeads13()
    ensures ForeignAt(Lead(SmallmoneyRule.pattern), UnsignedLetters, 1)
    ensures ForeignAt(Lead(BitRule.pattern), UnsignedLetters, 0)
    ensures ForeignAt(Lead(FloatRule.pattern), UnsignedLetters, 0)
    ensures ForeignAt(Lead(RealRule.pattern), UnsignedLetters, 0)
  {
  }

  lemma AfterTinyintForeign()
    ensures ForeignFrom(AfterTinyint, AfterTinyintAt, UnsignedLetters, 0, |AfterTinyint|)
  {
  }

  lemma CleanupUnsignedForeign()
    ensures ForeignFrom(Cleanup, CleanupUnsignedAt, UnsignedLetters, 0, |Cleanup|)
  {
    CleanupUnsignedForeign0();
    CleanupUnsignedForeign5();
  }

  lemma CleanupUnsignedForeign0()
    ensures ForeignFrom(Cleanup, CleanupUnsignedAt, UnsignedLetters, 0, 5)
  {
    forall k | 0 <= k < 5
      ensures ForeignAt(Lead(Cleanup[k].pattern), UnsignedLetters, CleanupUnsignedAt[k])
    {
      CleanupUnsignedForeignLeads0();
    }
  }

  lemma CleanupUnsignedForeignLeads0()
    ensures ForeignAt(Lead(DatetimePrecision.pattern), UnsignedLetters, 1)
    ensures ForeignAt(Lead(TimePrecision.pattern), UnsignedLetters, 2)
    ensures ForeignAt(Lead(AnsiNulls.pattern), UnsignedLetters, 4)
    ensures ForeignAt(Lead(QuotedIdentifier.pattern), UnsignedLetters, 4)
    ensures ForeignAt(Lead(DboQualified.pattern), UnsignedLetters, 0)
  {
  }

  lemma CleanupUnsignedForeign5()
    ensures ForeignFrom(Cleanup, CleanupUnsignedAt, UnsignedLetters, 5, 9)
  {
    forall k | 5 <= k < 9
      ensures ForeignAt(Lead(Cleanup[k].pattern), UnsignedLetters, CleanupUnsignedAt[k])
    {
      CleanupUnsignedForeignLeads5();
    }
  }

  lemma CleanupUnsignedForeignLeads5()
    ensures ForeignAt(Lead(Brackets.pattern), UnsignedLetters, 0)
    ensures ForeignAt(Lead(QuotedTinyint.pattern), UnsignedLetters, 0)
    ensures ForeignAt(Lead(QuotedType.pattern), UnsignedLetters, 0)
    ensures ForeignAt(Lead(BatchSeparator.pattern), UnsignedLetters, 1)
  {
  }

  /** The entries before TINYINT leave a text made of the letters of `TINYINT UNSIGNED` alone. */
  lemma BeforeTinyintSkips(t: string)
    requires InLetters(t, UnsignedLetters)
    ensures ApplyAll(BeforeTinyint, t) == t
  {
    BeforeTinyintForeign();
    RulesAvoid(BeforeTinyint, BeforeTinyintAt, t, UnsignedLetters);
    ApplyAllUntouched(BeforeTinyint, t);
  }

  /** So do the entries after TINYINT. */
  lemma AfterTinyintSkips(t: string)
    requires InLetters(t, UnsignedLetters)
    ensures ApplyAll(AfterTinyint, t) == t
  {
    AfterTinyintForeign();
    RulesAvoid(AfterTinyint, AfterTinyintAt, t, UnsignedLetters);
    ApplyAllUntouched(AfterTinyint, t);
  }

  /** And so do the passes after the table. */
  lemma CleanupSkipsUnsigned(t: string)
    requires InLetters(t, UnsignedLetters)
    ensures DropGo(Backticks(DropSettings(Precision(t)))) == t
  {
    CleanupUnsignedForeign();
    RulesAvoid(Cleanup, CleanupUnsignedAt, t, UnsignedLetters);
    CleanupUntouched(t);
  }

  /** `TINYINT`, in any case, comes out of the whole conversion as `TINYINT UNSIGNED`. */
  lemma ConvertTinyint(s: string)
    requires UpperStr(s) == "TINYINT"
    ensures Convert(s) == "TINYINT UNSIGNED"
  {
    ConvertAroundTinyint(s);
    TinyintLetters(s);
    BeforeTinyintSkips(s);
    TinyintWhole(s);
    UnsignedLettersOnly("TINYINT UNSIGNED");
    AfterTinyintSkips("TINYINT UNSIGNED");
    CleanupSkipsUnsigned("TINYINT UNSIGNED");
  }

  /** `TINYINT UNSIGNED`, the conversion's own output, comes out as `TINYINT UNSIGNED UNSIGNED`. */
  lemma ConvertTinyintUnsigned(t: string)
    requires t == "TINYINT UNSIGNED"
    ensures Convert(t) == "TINYINT UNSIGNED UNSIGNED"
  {
    ConvertAroundTinyint(t);
    UnsignedLettersOnly(t);
    BeforeTinyintSkips(t);
    TinyintUnsignedAgain(t);
    UnsignedLettersOnly("TINYINT UNSIGNED UNSIGNED");
    AfterTinyintSkips("TINYINT UNSIGNED UNSIGNED");
    CleanupSkipsUnsigned("TINYINT UNSIGNED UNSIGNED");
  }

  /** The TINYINT column type grows an `UNSIGNED` with every run of the conversion. */
  lemma ConvertTinyintTwice(s: string)
    requires UpperStr(s) == "TINYINT"
    ensures Convert(s) == "TINYINT UNSIGNED"
    ensures Convert(Convert(s)) == "TINYINT UNSIGNED UNSIGNED" != Convert(s)
  {
    ConvertTinyint(s);
    ConvertTinyintUnsigned(Convert(s));
  }
}
