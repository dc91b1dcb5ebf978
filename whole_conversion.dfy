/**
 * One column type followed through the whole conversion: `BIT` comes out
 * of `Convert` as `TINYINT UNSIGNED(1)`, because the table's BIT entry
 * writes `TINYINT(1)` and the TINYINT entry three places later rewrites it.
 */
module WholeConversion {
  import opened Text
  import opened Regex
  import opened SubFacts
  import opened Converter
  import opened ConverterFacts
  import opened Cascades

  /** Entries 0 to 13 of the table: every one of them has a lead longer than three characters. */
  const Head: seq<Rule> := [
    IntIdentityRule, Datetime2Rule, DatetimeoffsetRule, SmalldatetimeRule,
    Datetime7Rule, Time7Rule, UniqueidentifierRule, NvarcharRule,
    NvarcharMaxRule, VarcharMaxRule, TextRule, NtextRule,
    MoneyRule, SmallmoneyRule
  ]

  /** Entries 14 to 17: BIT, FLOAT, REAL and TINYINT. */
  const Middle: seq<Rule> := [BitRule, FloatRule, RealRule, TinyintRule]

  /** Entries 18 and 19: BIGINT and IMAGE. */
  const Last: seq<Rule> := [BigintRule, ImageRule]

  lemma TableSplits()
    ensures TypeMapping == Head + Middle + Last
  {
  }

  /** Every rule of `Head` has a lead longer than three characters. */
  lemma HeadLeadsLong()
    ensures forall k :: 0 <= k < |Head| ==> |Lead(Head[k].pattern)| > 3
  {
  }

  /** A text of at most three characters is too short for any of entries 0 to 13. */
  lemma HeadSkipsShort(s: string)
    requires |s| <= 3
    ensures ApplyAll(Head, s) == s
  {
    HeadLeadsLong();
    ApplyAllShort(Head, s);
  }

  /** Rules whose leads are all longer than the text leave it unchanged. */
  lemma {:induction false} ApplyAllShort(rules: seq<Rule>, s: string)
    requires forall k :: 0 <= k < |rules| ==> |s| < |Lead(rules[k].pattern)|
    ensures ApplyAll(rules, s) == s
    decreases |rules|
  {
    if rules != [] {
      var n := |rules| - 1;
      ApplyAllShort(rules[..n], s);
      ShortUnchanged(rules[n], s);
    }
  }

  /** Entries 14 to 17 applied in order. */
  lemma MiddleInOrder(s: string)
    ensures ApplyAll(Middle, s) == Sub(TinyintRule, Sub(RealRule, Sub(FloatRule, Sub(BitRule, s))))
  {
    ApplyAllSnoc([], BitRule, s);
    assert [] + [BitRule] == [BitRule];
    ApplyAllSnoc([BitRule], FloatRule, s);
    assert [BitRule] + [FloatRule] == [BitRule, FloatRule];
    ApplyAllSnoc([BitRule, FloatRule], RealRule, s);
    assert [BitRule, FloatRule] + [RealRule] == [BitRule, FloatRule, RealRule];
    ApplyAllSnoc([BitRule, FloatRule, RealRule], TinyintRule, s);
    assert [BitRule, FloatRule, RealRule] + [TinyintRule] == Middle;
  }

  /**
   * `w` occurs nowhere in `s` when, wherever it would fit, its first
   * character or its character at offset `d` differs from the text's.
   */
  lemma Mismatches(w: string, s: string, d: nat)
    requires 0 < |w| && d < |w|
    requires forall j :: 0 <= j && j + |w| <= |s| ==> Upper(s[j]) != Upper(w[0]) || Upper(s[j + d]) != Upper(w[d])
    ensures !Occurs(w, s, 0, |s|)
  {
    forall j | 0 <= j < |s|
      ensures !CiAt(s, j, w)
    {
      if j + |w| <= |s| {
        if Upper(s[j]) != Upper(w[0]) {
          Mismatch(s, j, w, 0);
        } else {
          Mismatch(s, j, w, d);
        }
      } else {
        CiAtIff(s, j, w);
      }
    }
    NotOccursWhere(w, s, 0, |s|);
  }

  /** The leads of entries 18 and 19 do not occur in `TINYINT UNSIGNED(1)`. */
  lemma NoBigintLead(t: string)
    requires t == "TINYINT UNSIGNED(1)"
    ensures !Occurs("BIGINT", t, 0, |t|)
  {
    Mismatches("BIGINT", t, 0);
  }

  lemma NoImageLead(t: string)
    requires t == "TINYINT UNSIGNED(1)"
    ensures !Occurs("IMAGE", t, 0, |t|)
  {
    Mismatches("IMAGE", t, 1);
  }

  /** Entries 18 and 19 applied in order. */
  lemma LastInOrder(t: string)
    ensures ApplyAll(Last, t) == Sub(ImageRule, Sub(BigintRule, t))
  {
    ApplyAllSnoc([], BigintRule, t);
    assert [] + [BigintRule] == [BigintRule];
    ApplyAllSnoc([BigintRule], ImageRule, t);
    assert [BigintRule] + [ImageRule] == Last;
  }

  /** Entries 18 and 19 leave `TINYINT UNSIGNED(1)` alone. */
  lemma LastSkipsUnsignedOne(t: string)
    requires t == "TINYINT UNSIGNED(1)"
    ensures ApplyAll(Last, t) == t
  {
    NoBigintLead(t);
    NoImageLead(t);
    LastInOrder(t);
    SubUnchanged(BigintRule, t);
    SubUnchanged(ImageRule, t);
  }

  /** Nor do the leads of the passes after the table. */
  lemma NoDatetimeLead(t: string)
    requires t == "TINYINT UNSIGNED(1)"
    ensures !Occurs("DATETIME(", t, 0, |t|)
  {
    Mismatches("DATETIME(", t, 0);
  }

  lemma NoTimeLead(t: string)
    requires t == "TINYINT UNSIGNED(1)"
    ensures !Occurs("TIME(", t, 0, |t|)
  {
    Mismatches("TIME(", t, 2);
  }

  lemma NoSettingLead(t: string)
    requires t == "TINYINT UNSIGNED(1)"
    ensures !Occurs("SET ANSI_NULLS ON", t, 0, |t|) && !Occurs("SET QUOTED_IDENTIFIER ON", t, 0, |t|)
  {
    Mismatches("SET ANSI_NULLS ON", t, 0);
    OccursNeedsRoom("SET QUOTED_IDENTIFIER ON", t, 0, |t|);
  }

  lemma NoDboLead(t: string)
    requires t == "TINYINT UNSIGNED(1)"
    ensures !Occurs("[dbo].", t, 0, |t|)
  {
    Mismatches("[dbo].", t, 0);
  }

  lemma NoBracketLead(t: string)
    requires t == "TINYINT UNSIGNED(1)"
    ensures !Occurs("[", t, 0, |t|)
  {
    Mismatches("[", t, 0);
  }

  lemma NoBacktickLead(t: string)
    requires t == "TINYINT UNSIGNED(1)"
    ensures !Occurs("`", t, 0, |t|)
  {
    Mismatches("`", t, 0);
  }

  lemma NoGoLead(t: string)
    requires t == "TINYINT UNSIGNED(1)"
    ensures !Occurs("GO", t, 0, |t|)
  {
    Mismatches("GO", t, 1);
  }

  lemma PrecisionSkipsUnsignedOne(t: string)
    requires t == "TINYINT UNSIGNED(1)"
    ensures Precision(t) == t
  {
    NoDatetimeLead(t);
    NoTimeLead(t);
    PrecisionUntouched(t);
  }

  lemma BackticksSkipsUnsignedOne(t: string)
    requires t == "TINYINT UNSIGNED(1)"
    ensures Backticks(t) == t
  {
    NoDboLead(t);
    NoBracketLead(t);
    NoBacktickLead(t);
    BackticksUntouched(t);
  }

  lemma DropSettingsSkipsUnsignedOne(t: string)
    requires t == "TINYINT UNSIGNED(1)"
    ensures DropSettings(t) == t
  {
    NoSettingLead(t);
    DropSettingsUntouched(t);
  }

  lemma DropGoSkipsUnsignedOne(t: string)
    requires t == "TINYINT UNSIGNED(1)"
    ensures DropGo(t) == t
  {
    NoGoLead(t);
    SubUnchanged(BatchSeparator, t);
  }

  /** None of the passes after the table touches `TINYINT UNSIGNED(1)`. */
  lemma CleanupSkipsUnsignedOne(t: string)
    requires t == "TINYINT UNSIGNED(1)"
    ensures DropGo(Backticks(DropSettings(Precision(t)))) == t
  {
    PrecisionSkipsUnsignedOne(t);
    DropSettingsSkipsUnsignedOne(t);
    BackticksSkipsUnsignedOne(t);
    DropGoSkipsUnsignedOne(t);
  }

  /** `BIT`, in any case, comes out of the whole conversion as `TINYINT UNSIGNED(1)`. */
  lemma ConvertBit(s: string)
    requires UpperStr(s) == "BIT"
    ensures Convert(s) == "TINYINT UNSIGNED(1)"
  {
    TableSplits();
    ApplyAllAppend(Head + Middle, Last, s);
    ApplyAllAppend(Head, Middle, s);
    HeadSkipsShort(s);
    MiddleInOrder(s);
    BitCascade(s);
    var t := ApplyAll(Middle, s);
    LastSkipsUnsignedOne(t);
    CleanupSkipsUnsignedOne(t);
  }
}
