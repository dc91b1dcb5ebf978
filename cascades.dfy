/**
 * What single entries of the table do to the words they name, and how the
 * output of one entry feeds the entries after it.
 */
module Cascades {
  import opened Text
  import opened Regex
  import opened SubFacts
  import opened FixedRules
  import opened Converter
  import opened ConverterFacts

  /** Where `w` would run past the end of the text it cannot occur. */
  lemma {:induction false} OccursNeedsRoom(w: string, s: string, lo: nat, hi: nat)
    requires |s| < lo + |w|
    ensures !Occurs(w, s, lo, hi)
    decreases hi - lo
  {
    if lo < hi {
      OccursNeedsRoom(w, s, lo + 1, hi);
    }
  }

  /** A text shorter than a rule's lead is left as it is. */
  lemma ShortUnchanged(r: Rule, s: string)
    requires |s| < |Lead(r.pattern)|
    ensures Sub(r, s) == s
  {
    OccursNeedsRoom(Lead(r.pattern), s, 0, |s|);
    SubUnchanged(r, s);
  }

  /**
   * A word rule rewrites an occurrence of its word at `j` to its replacement
   * when the word occurs nowhere else to the left or to the right of it.
   */
  lemma WordAt(w: Literal, x: string, s: string, j: nat)
    requires CiAt(s, j, w)
    requires !Occurs(w, s, 0, j) && !Occurs(w, s, j + |w|, |s|)
    ensures Sub(Rule(Word(w), [Chars(x)]), s) == s[..j] + x + s[j + |w|..]
  {
    assert MatchAt(Word(w), s, j) == Some(Match(j + |w|, []));
    SubOnce(Rule(Word(w), [Chars(x)]), s, j);
    assert Expand([Chars(x)], []) == x;
  }

  /** `w` starts at none of the positions `lo .. hi - 1` of `s`. */
  lemma {:induction false} NotOccursWhere(w: string, s: string, lo: nat, hi: nat)
    requires forall j :: lo <= j < hi ==> !CiAt(s, j, w)
    ensures !Occurs(w, s, lo, hi)
    decreases hi - lo
  {
    if lo < hi {
      NotOccursWhere(w, s, lo + 1, hi);
    }
  }

  /**
   * A word rule rewrites a text that ends in its word, in any case, and has
   * no earlier occurrence of it: the word becomes the replacement.
   */
  lemma WordSuffix(w: Literal, x: string, s: string, j: nat)
    requires j + |w| == |s| && UpperStr(s[j..]) == UpperStr(w)
    requires !Occurs(w, s, 0, j)
    ensures Sub(Rule(Word(w), [Chars(x)]), s) == s[..j] + x
  {
    CiAtOfUpper(s[j..], w);
    assert s == s[..j] + s[j..];
    CiAtShift(s[..j], s[j..], 0, w);
    OccursNeedsRoom(w, s, j + |w|, |s|);
    WordAt(w, x, s, j);
  }

  /** A word rule rewrites the text's first word when its word occurs nowhere else. */
  lemma WordPrefix(w: Literal, x: string, s: string)
    requires |w| <= |s| && UpperStr(s[..|w|]) == UpperStr(w)
    requires !Occurs(w, s, |w|, |s|)
    ensures Sub(Rule(Word(w), [Chars(x)]), s) == x + s[|w|..]
  {
    WordHead(w, s);
    WordAt(w, x, s, 0);
    EmptyHead(s, x, s[|w|..]);
  }

  lemma EmptyHead(a: string, x: string, b: string)
    ensures a[..0] + x + b == x + b
  {
    assert a[..0] == [];
  }

  lemma WordHead(w: Literal, s: string)
    requires |w| <= |s| && UpperStr(s[..|w|]) == UpperStr(w)
    ensures CiAt(s, 0, w) && !Occurs(w, s, 0, 0)
  {
    CiAtOfUpper(s[..|w|], w);
    assert s[..|w|][0..|w|] == s[0..|w|];
    CiAtWindow(s[..|w|], 0, s, 0, |w|, 0, w);
  }

  /** A word rule rewrites a text that is its word, in any case, to its replacement. */
  lemma WordWhole(w: Literal, x: string, s: string)
    requires UpperStr(s) == UpperStr(w)
    ensures Sub(Rule(Word(w), [Chars(x)]), s) == x
  {
    assert s[0..] == s;
    WordSuffix(w, x, s, 0);
  }

  /** Entry 8 rewrites `NVARCHAR(MAX)`, in any case, standing alone, to `TEXT`. */
  lemma NvarcharMaxWhole(s: string)
    requires UpperStr(s) == "NVARCHAR(MAX)"
    ensures Sub(NvarcharMaxRule, s) == "TEXT"
  {
    assert UpperStr("NVARCHAR(MAX)") == "NVARCHAR(MAX)";
    WordWhole("NVARCHAR(MAX)", "TEXT", s);
  }

  /** Entry 9 rewrites `VARCHAR(MAX)`, in any case, standing alone, to `TEXT`. */
  lemma VarcharMaxWhole(s: string)
    requires UpperStr(s) == "VARCHAR(MAX)"
    ensures Sub(VarcharMaxRule, s) == "TEXT"
  {
    assert UpperStr("VARCHAR(MAX)") == "VARCHAR(MAX)";
    WordWhole("VARCHAR(MAX)", "TEXT", s);
  }

  /** Entry 10 rewrites the `TEXT` that entries 8 and 9 produce to `LONGTEXT`. */
  lemma TextWhole(s: string)
    requires s == "TEXT"
    ensures Sub(TextRule, s) == "LONGTEXT"
  {
    assert UpperStr(s) == UpperStr("TEXT");
    WordWhole("TEXT", "LONGTEXT", s);
  }

  /**
   * `NVARCHAR(MAX)`, in any case, has no digits for entry 7, becomes `TEXT` (entry 8), is left
   * alone by the `VARCHAR(MAX)` entry, and then becomes `LONGTEXT` (entry 10).
   */
  lemma NvarcharMaxCascade(s: string)
    requires UpperStr(s) == "NVARCHAR(MAX)"
    ensures Sub(NvarcharRule, s) == s
    ensures Sub(TextRule, Sub(VarcharMaxRule, Sub(NvarcharMaxRule, Sub(NvarcharRule, s)))) == "LONGTEXT"
  {
    NvarcharMaxSkipsNumbered(s);
    NvarcharMaxWhole(s);
    ShortUnchanged(VarcharMaxRule, Sub(NvarcharMaxRule, s));
    TextWhole(Sub(NvarcharMaxRule, s));
  }

  /**
   * `VARCHAR(MAX)`, in any case, has no `N` for entry 7, is too short for entry 8, becomes `TEXT`
   * (entry 9) and then `LONGTEXT` (entry 10).
   */
  lemma VarcharMaxCascade(s: string)
    requires UpperStr(s) == "VARCHAR(MAX)"
    ensures Sub(NvarcharRule, s) == s
    ensures Sub(TextRule, Sub(VarcharMaxRule, Sub(NvarcharMaxRule, Sub(NvarcharRule, s)))) == "LONGTEXT"
  {
    VarcharMaxSkipsNumbered(s);
    ShortUnchanged(NvarcharMaxRule, s);
    VarcharMaxWhole(s);
    TextWhole(Sub(VarcharMaxRule, s));
  }

  /** Entry 10 rewrites the `TEXT` inside `NTEXT`, in any case, leaving the `N`. */
  lemma NtextWhole(s: string)
    requires UpperStr(s) == "NTEXT"
    ensures Sub(TextRule, s) == s[..1] + "LONGTEXT"
  {
    UpperSlice(s, 1, 5);
    assert s[1..5] == s[1..];
    assert UpperStr(s)[1..5] == "TEXT" == UpperStr("TEXT");
    assert UpperStr(s)[0] == Upper(s[0]);
    assert !CiAt(s, 0, "TEXT");
    WordSuffix("TEXT", "LONGTEXT", s, 1);
  }

  /**
   * `NTEXT` becomes `NLONGTEXT` (entry 10), and the NTEXT entry right after
   * it finds nothing left to rewrite.
   */
  lemma NtextCascade(s: string)
    requires UpperStr(s) == "NTEXT"
    ensures Sub(NtextRule, Sub(TextRule, s)) == s[..1] + "LONGTEXT"
  {
    NtextWhole(s);
    NtextNeverFires(s);
  }

  /** Entry 12 rewrites the `MONEY` inside `SMALLMONEY`, in any case, leaving `SMALL`. */
  lemma SmallmoneyWhole(s: string)
    requires UpperStr(s) == "SMALLMONEY"
    ensures Sub(MoneyRule, s) == s[..5] + "DECIMAL(19,4)"
  {
    UpperSlice(s, 5, 10);
    assert s[5..10] == s[5..];
    assert UpperStr(s)[5..10] == "MONEY" == UpperStr("MONEY");
    forall j | 0 <= j < 5
      ensures !CiAt(s, j, "MONEY")
    {
      assert UpperStr(s)[j] == Upper(s[j]) && UpperStr(s)[j + 1] == Upper(s[j + 1]);
    }
    NotOccursWhere("MONEY", s, 0, 5);
    WordSuffix("MONEY", "DECIMAL(19,4)", s, 5);
  }

  /**
   * `SMALLMONEY` becomes `SMALLDECIMAL(19,4)` (entry 12), and the SMALLMONEY
   * entry right after it finds nothing left to rewrite.
   */
  lemma SmallmoneyCascade(s: string)
    requires UpperStr(s) == "SMALLMONEY"
    ensures Sub(SmallmoneyRule, Sub(MoneyRule, s)) == s[..5] + "DECIMAL(19,4)"
  {
    SmallmoneyWhole(s);
    SmallmoneyNeverFires(s);
  }

  /** Entry 14 rewrites `BIT`, in any case, standing alone, to `TINYINT(1)`. */
  lemma BitWhole(s: string)
    requires UpperStr(s) == "BIT"
    ensures Sub(BitRule, s) == "TINYINT(1)"
  {
    assert UpperStr("BIT") == "BIT";
    WordWhole("BIT", "TINYINT(1)", s);
  }

  lemma NoFloatInTinyintOne()
    ensures !Occurs("FLOAT", "TINYINT(1)", 0, 10)
  {
  }

  lemma NoRealInTinyintOne()
    ensures !Occurs("REAL", "TINYINT(1)", 0, 10)
  {
  }

  /** Neither `FLOAT` (entry 15) nor `REAL` (entry 16) occurs in `TINYINT(1)`. */
  lemma TinyintOneSurvives()
    ensures Sub(RealRule, Sub(FloatRule, "TINYINT(1)")) == "TINYINT(1)"
  {
    NoFloatInTinyintOne();
    SubUnchanged(FloatRule, "TINYINT(1)");
    NoRealInTinyintOne();
    SubUnchanged(RealRule, "TINYINT(1)");
  }

  /** Entry 17 rewrites the `TINYINT` of `TINYINT(1)`, keeping the `(1)`. */
  lemma TinyintOneWhole(t: string)
    requires t == "TINYINT(1)"
    ensures Sub(TinyintRule, t) == "TINYINT UNSIGNED(1)"
  {
    assert UpperStr(t[..7]) == UpperStr("TINYINT");
    CiAtOfUpper(t[..7], "TINYINT");
    CiAtWindow(t[..7], 0, t, 0, 7, 0, "TINYINT");
    OccursNeedsRoom("TINYINT", t, 7, 10);
    WordAt("TINYINT", "TINYINT UNSIGNED", t, 0);
    assert t[..0] + "TINYINT UNSIGNED" + t[7..] == "TINYINT UNSIGNED(1)";
  }

  /**
   * `BIT` becomes `TINYINT(1)` (entry 14), passes the FLOAT and REAL entries
   * unchanged, and the TINYINT entry then makes it `TINYINT UNSIGNED(1)`.
   */
  lemma BitCascade(s: string)
    requires UpperStr(s) == "BIT"
    ensures Sub(TinyintRule, Sub(RealRule, Sub(FloatRule, Sub(BitRule, s)))) == "TINYINT UNSIGNED(1)"
  {
    BitWhole(s);
    TinyintOneSurvives();
    TinyintOneWhole(Sub(RealRule, Sub(FloatRule, Sub(BitRule, s))));
  }

  /** Entry 15 rewrites `FLOAT`, in any case, standing alone, to `DOUBLE`. */
  lemma FloatWhole(s: string)
    requires UpperStr(s) == "FLOAT"
    ensures Sub(FloatRule, s) == "DOUBLE"
  {
    assert UpperStr("FLOAT") == "FLOAT";
    WordWhole("FLOAT", "DOUBLE", s);
  }

  /** Entry 16 rewrites `REAL`, in any case, standing alone, to `FLOAT`. */
  lemma RealWhole(s: string)
    requires UpperStr(s) == "REAL"
    ensures Sub(RealRule, s) == "FLOAT"
  {
    assert UpperStr("REAL") == "REAL";
    WordWhole("REAL", "FLOAT", s);
  }

  lemma NoRealInDouble()
    ensures !Occurs("REAL", "DOUBLE", 0, 6)
  {
  }

  lemma NoBigintInDouble()
    ensures !Occurs("BIGINT", "DOUBLE", 0, 6)
  {
  }

  lemma NoImageInDouble()
    ensures !Occurs("IMAGE", "DOUBLE", 0, 6)
  {
  }

  lemma NoImageInFloat()
    ensures !Occurs("IMAGE", "FLOAT", 0, 5)
  {
  }

  /**
   * `FLOAT`, in any case, becomes `DOUBLE` (entry 15), which none of the
   * entries after it (16 to 19) rewrites.
   */
  lemma FloatCascade(s: string)
    requires UpperStr(s) == "FLOAT"
    ensures Sub(ImageRule, Sub(BigintRule, Sub(TinyintRule, Sub(RealRule, Sub(FloatRule, s))))) == "DOUBLE"
  {
    FloatWhole(s);
    NoRealInDouble();
    SubUnchanged(RealRule, "DOUBLE");
    ShortUnchanged(TinyintRule, "DOUBLE");
    NoBigintInDouble();
    SubUnchanged(BigintRule, "DOUBLE");
    NoImageInDouble();
    SubUnchanged(ImageRule, "DOUBLE");
  }

  /**
   * `REAL`, in any case, is too short for the FLOAT entry that comes before
   * it, becomes `FLOAT` (entry 16), and that `FLOAT` is left alone by the
   * entries after it (17 to 19): it is never turned into `DOUBLE`.
   */
  lemma RealCascade(s: string)
    requires UpperStr(s) == "REAL"
    ensures Sub(ImageRule, Sub(BigintRule, Sub(TinyintRule, Sub(RealRule, Sub(FloatRule, s))))) == "FLOAT"
  {
    ShortUnchanged(FloatRule, s);
    RealWhole(s);
    ShortUnchanged(TinyintRule, "FLOAT");
    ShortUnchanged(BigintRule, "FLOAT");
    NoImageInFloat();
    SubUnchanged(ImageRule, "FLOAT");
  }

  /**
   * An identity rule rewrites `H<seed>,<increment>)` at the end of a text,
   * with `H` in any case and both numbers plain digit runs, to its
   * replacement: the seed and the increment are dropped.
   */
  lemma IdentitySuffix(h: Literal, x: string, s: string, j: nat, a: string, b: string)
    requires |a| > 0 && |b| > 0 && AllDigits(a) && AllDigits(b)
    requires j + |h| <= |s| && UpperStr(s[j..j + |h|]) == UpperStr(h)
    requires s[j + |h|..] == a + "," + b + ")"
    requires !Occurs(h, s, 0, j)
    ensures Sub(Rule(Identity(h), [Chars(x)]), s) == s[..j] + x
  {
    IdentityMatchesRest(h, s, j, a, b);
    assert MatchAt(Identity(h), s, j) == Some(Match(|s|, []));
    OccursNeedsRoom(h, s, |s|, |s|);
    SubOnce(Rule(Identity(h), [Chars(x)]), s, j);
    assert Expand([Chars(x)], []) == x;
  }

  /** The identity pattern at `j` runs to the end of a text that ends in `H<a>,<b>)` there. */
  lemma IdentityMatchesRest(h: Literal, s: string, j: nat, a: string, b: string)
    requires |a| > 0 && |b| > 0 && AllDigits(a) && AllDigits(b)
    requires j + |h| <= |s| && UpperStr(s[j..j + |h|]) == UpperStr(h)
    requires s[j + |h|..] == a + "," + b + ")"
    ensures MatchIdentity(h, s, j) == Some(Match(|s|, []))
  {
    var k := j + |h|;
    CiAtOfUpper(s[j..k], h);
    assert s[j..k][0..|h|] == s[j..j + |h|];
    CiAtWindow(s[j..k], 0, s, j, |h|, 0, h);
    SeedAndIncrementDigits(s, k, a, b);
  }

  /** `\d+,\d+\)` matches a text that ends in `a,b)` with `a`, `b` digit runs, up to its end. */
  lemma SeedAndIncrementDigits(s: string, k: nat, a: string, b: string)
    requires |a| > 0 && |b| > 0 && AllDigits(a) && AllDigits(b)
    requires k <= |s| && s[k..] == a + "," + b + ")"
    ensures SeedAndIncrement(s, k) == Some(|s|)
  {
    SeedAndIncrementLayout(s, k, a, b);
    SeedAndIncrementRuns(s, k, a, b);
  }

  lemma SeedAndIncrementRuns(s: string, k: nat, a: string, b: string)
    requires |a| > 0 && |b| > 0 && AllDigits(a) && AllDigits(b)
    requires |s| == k + |a| + |b| + 2
    requires s[k..k + |a|] == a && s[k + |a|] == ','
    requires s[k + |a| + 1..k + |a| + 1 + |b|] == b && s[k + |a| + 1 + |b|] == ')'
    ensures SeedAndIncrement(s, k) == Some(|s|)
  {
    DigitRunIs(s, k, |a|);
    DigitRunIs(s, k + |a| + 1, |b|);
    SeedAndIncrementAt(s, k, |a|, |b|);
  }

  /** Where the two digit runs, the comma and the parenthesis of `a,b)` sit in the whole text. */
  lemma SeedAndIncrementLayout(s: string, k: nat, a: string, b: string)
    requires k <= |s| && s[k..] == a + "," + b + ")"
    ensures |s| == k + |a| + |b| + 2
    ensures s[k..k + |a|] == a && s[k + |a|] == ','
    ensures s[k + |a| + 1..k + |a| + 1 + |b|] == b && s[k + |a| + 1 + |b|] == ')'
  {
    var t := s[k..];
    assert t[..|a|] == a;
    assert t[|a|] == ',';
    assert t[|a| + 1..|a| + 1 + |b|] == b;
    assert t[|a| + 1 + |b|] == ')';
  }

  lemma SeedAndIncrementAt(s: string, k: nat, n1: nat, n2: nat)
    requires k + n1 + n2 + 2 == |s| && n1 > 0 && n2 > 0
    requires DigitRun(s, k) == n1 && s[k + n1] == ','
    requires DigitRun(s, k + n1 + 1) == n2 && s[k + n1 + 1 + n2] == ')'
    ensures SeedAndIncrement(s, k) == Some(|s|)
  {
  }

  /**
   * Entry 0 rewrites `INT IDENTITY(a,b)`, in any case and for any digit
   * runs `a` and `b`, to `INT AUTO_INCREMENT`.
   */
  lemma IntIdentityWhole(s: string, a: string, b: string)
    requires |a| > 0 && |b| > 0 && AllDigits(a) && AllDigits(b)
    requires |s| >= 13 && UpperStr(s[..13]) == "INT IDENTITY(" && s[13..] == a + "," + b + ")"
    ensures Sub(IntIdentityRule, s) == "INT AUTO_INCREMENT"
  {
    assert UpperStr("INT IDENTITY(") == "INT IDENTITY(";
    assert s[0..13] == s[..13];
    IdentitySuffix("INT IDENTITY(", "INT AUTO_INCREMENT", s, 0, a, b);
  }

  /**
   * A space after the comma defeats entry 0: `INT IDENTITY(a, b)` is left
   * as it is.
   */
  lemma IdentitySpaceSurvives(s: string, a: string, b: string)
    requires |a| > 0 && |b| > 0 && AllDigits(a) && AllDigits(b)
    requires |s| >= 13 && UpperStr(s[..13]) == "INT IDENTITY(" && s[13..] == a + ", " + b + ")"
    ensures Sub(IntIdentityRule, s) == s
  {
    IdentitySpaceLayout(s, a, b);
    SpacedSeedFails(s, |a|);
    forall j | 0 <= j < |s|
      ensures MatchAt(IntIdentityRule.pattern, s, j).None?
    {
      if j > 0 {
        NoLaterParen(s, j);
      }
      IdentityNoneAt(s, j);
    }
    NoMatchUnchanged(IntIdentityRule, s);
  }

  lemma IdentityNoneAt(s: string, j: nat)
    requires 13 <= |s| && j < |s|
    requires j == 0 ==> SeedAndIncrement(s, 13).None?
    requires j > 0 ==> !CiAt(s, j, "INT IDENTITY(")
    ensures MatchAt(IntIdentityRule.pattern, s, j).None?
  {
  }

  /** Seed digits, a comma and then a space: `\d+,\d+\)` fails. */
  lemma SpacedSeedFails(s: string, n: nat)
    requires 14 + n < |s| && n > 0
    requires AllDigits(s[13..13 + n]) && s[13 + n] == ',' && s[14 + n] == ' '
    ensures SeedAndIncrement(s, 13).None?
  {
    DigitRunIs(s, 13, n);
    DigitRunIs(s, 14 + n, 0);
  }

  /** With no `(` after position 12, `INT IDENTITY(` can start only at 0. */
  lemma NoLaterParen(s: string, j: nat)
    requires 0 < j < |s|
    requires forall k :: 13 <= k < |s| ==> s[k] != '('
    ensures !CiAt(s, j, "INT IDENTITY(")
  {
    if j + 13 <= |s| {
      Mismatch(s, j, "INT IDENTITY(", 12);
    } else {
      CiAtIff(s, j, "INT IDENTITY(");
    }
  }

  /** Where the digits, the comma and the space of `INT IDENTITY(a, b)` stand. */
  lemma IdentitySpaceLayout(s: string, a: string, b: string)
    requires |a| > 0 && |b| > 0 && AllDigits(a) && AllDigits(b)
    requires |s| >= 13 && s[13..] == a + ", " + b + ")"
    ensures |s| == 16 + |a| + |b|
    ensures AllDigits(s[13..13 + |a|]) && s[13 + |a|] == ',' && s[14 + |a|] == ' '
    ensures forall k :: 13 <= k < |s| ==> s[k] != '('
  {
    assert s[13..13 + |a|] == a;
    forall k | 13 <= k < |s|
      ensures s[k] != '('
    {
      assert s[k] == (a + ", " + b + ")")[k - 13];
      if k - 13 >= |a| + 2 && k + 1 < |s| {
        assert s[k] == b[k - 15 - |a|];
      }
    }
  }

  /**
   * Entry 0 also fires on the `INT` inside `BIGINT IDENTITY(a,b)`, which
   * becomes `BIGINT AUTO_INCREMENT`.
   */
  lemma BigintIdentityWhole(s: string, a: string, b: string)
    requires |a| > 0 && |b| > 0 && AllDigits(a) && AllDigits(b)
    requires |s| >= 16 && UpperStr(s[..16]) == "BIGINT IDENTITY(" && s[16..] == a + "," + b + ")"
    ensures Sub(IntIdentityRule, s) == s[..3] + "INT AUTO_INCREMENT"
  {
    BigintHeadAt(s);
    BigintHeadFirst(s, "INT IDENTITY(");
    IdentitySuffix("INT IDENTITY(", "INT AUTO_INCREMENT", s, 3, a, b);
  }

  /** In `BIGINT IDENTITY(` the head `INT IDENTITY(` starts at 3. */
  lemma BigintHeadAt(s: string)
    requires |s| >= 16 && UpperStr(s[..16]) == "BIGINT IDENTITY("
    ensures UpperStr(s[3..16]) == UpperStr("INT IDENTITY(")
  {
    UpperSlice(s[..16], 3, 16);
    assert s[..16][3..16] == s[3..16];
    assert "BIGINT IDENTITY("[3..16] == "INT IDENTITY(";
    assert UpperStr("INT IDENTITY(") == "INT IDENTITY(";
  }

  /** A word that starts with `IN` starts nowhere in the `BIG` of `BIGINT`. */
  lemma BigintHeadFirst(s: string, w: string)
    requires |s| >= 16 && UpperStr(s[..16]) == "BIGINT IDENTITY("
    requires |w| >= 2 && w[0] == 'I' && w[1] == 'N'
    ensures !Occurs(w, s, 0, 3)
  {
    var u := UpperStr(s[..16]);
    assert u[0] == Upper(s[0]) == 'B' && u[2] == Upper(s[2]) == 'G';
    Mismatch(s, 0, w, 0);
    Mismatch(s, 1, w, 1);
    Mismatch(s, 2, w, 0);
    NotOccursWhere(w, s, 0, 3);
  }

  /** One character that differs, up to case, rules out an occurrence. */
  lemma Mismatch(s: string, i: nat, w: string, k: nat)
    requires k < |w| && i + k < |s| && Upper(s[i + k]) != Upper(w[k])
    ensures !CiAt(s, i, w)
  {
    CiAtIff(s, i, w);
  }

  /** A numbered pattern matches `H<digits>)` whole when the text is exactly that, `H` in any case. */
  lemma NumberedSuffixWhole(h: Literal, s: string, d: string)
    requires |d| > 0 && AllDigits(d)
    requires |h| <= |s| && UpperStr(s[..|h|]) == UpperStr(h) && s[|h|..] == d + ")"
    ensures MatchNumbered(h, s, 0) == Some(Match(|s|, [d]))
  {
    var n := |h|;
    CiAtOfUpper(s[..n], h);
    assert s[..n][0..n] == s[0..n];
    CiAtWindow(s[..n], 0, s, 0, n, 0, h);
    assert s[n..n + |d|] == s[n..][..|d|] == d;
    assert s[n + |d|] == s[n..][|d|] == ')';
    DigitRunIs(s, n, |d|);
    NumberedFound(h, s, |d|);
  }

  /**
   * Entry 7 rewrites `NVARCHAR(n)`, in any case and for any digit run `n`,
   * to `VARCHAR(n)` with the same digits.
   */
  lemma NvarcharDigits(s: string, d: string)
    requires |d| > 0 && AllDigits(d)
    requires |s| >= 9 && UpperStr(s[..9]) == "NVARCHAR(" && s[9..] == d + ")"
    ensures Sub(NvarcharRule, s) == "VARCHAR(" + d + ")"
  {
    assert UpperStr("NVARCHAR(") == "NVARCHAR(";
    NumberedSuffixWhole("NVARCHAR(", s, d);
    OccursNeedsRoom("NVARCHAR(", s, |s|, |s|);
    SubOnce(NvarcharRule, s, 0);
    ExpandGroupOne("VARCHAR(", ")", d);
    assert s[..0] == [] && s[|s|..] == [];
  }

  /** Entry 10 rewrites `TEXT`, in any case, standing alone, to `LONGTEXT`. */
  lemma TextUpperWhole(s: string)
    requires UpperStr(s) == "TEXT"
    ensures Sub(TextRule, s) == "LONGTEXT"
  {
    assert UpperStr("TEXT") == "TEXT";
    WordWhole("TEXT", "LONGTEXT", s);
  }

  lemma NoTextInLong()
    ensures !Occurs("TEXT", "LONGTEXT", 0, 4)
  {
  }

  lemma LongFacts(t: string)
    requires t == "LONGTEXT"
    ensures |t| == 8 && UpperStr(t[4..]) == UpperStr("TEXT") && !Occurs("TEXT", t, 0, 4)
    ensures t[..4] + "LONGTEXT" == "LONGLONGTEXT"
  {
    NoTextInLong();
  }

  /** Entry 10 rewrites the `TEXT` inside `LONGTEXT` once more. */
  lemma LongtextAgain(t: string)
    requires t == "LONGTEXT"
    ensures Sub(TextRule, t) == "LONGLONGTEXT"
  {
    LongFacts(t);
    WordSuffix("TEXT", "LONGTEXT", t, 4);
  }

  /**
   * The TEXT entry is not idempotent: applied to its own output it
   * rewrites again, so a second run of the table turns `LONGTEXT` into
   * `LONGLONGTEXT`.
   */
  lemma TextTwice(s: string)
    requires UpperStr(s) == "TEXT"
    ensures Sub(TextRule, s) == "LONGTEXT"
    ensures Sub(TextRule, Sub(TextRule, s)) == "LONGLONGTEXT"
  {
    TextUpperWhole(s);
    LongtextAgain(Sub(TextRule, s));
  }

  /** Entry 17 rewrites `TINYINT`, in any case, standing alone, to `TINYINT UNSIGNED`. */
  lemma TinyintWhole(s: string)
    requires UpperStr(s) == "TINYINT"
    ensures Sub(TinyintRule, s) == "TINYINT UNSIGNED"
  {
    assert UpperStr("TINYINT") == "TINYINT";
    WordWhole("TINYINT", "TINYINT UNSIGNED", s);
  }

  lemma NoTinyintInUnsigned()
    ensures !Occurs("TINYINT", "TINYINT UNSIGNED", 7, 16)
  {
  }

  lemma UnsignedFacts(t: string)
    requires t == "TINYINT UNSIGNED"
    ensures |t| == 16 && UpperStr(t[..7]) == UpperStr("TINYINT") && !Occurs("TINYINT", t, 7, 16)
    ensures "TINYINT UNSIGNED" + t[7..] == "TINYINT UNSIGNED UNSIGNED"
  {
    NoTinyintInUnsigned();
  }

  /** Entry 17 rewrites the `TINYINT` of `TINYINT UNSIGNED` once more. */
  lemma TinyintUnsignedAgain(t: string)
    requires t == "TINYINT UNSIGNED"
    ensures Sub(TinyintRule, t) == "TINYINT UNSIGNED UNSIGNED"
  {
    UnsignedFacts(t);
    WordPrefix("TINYINT", "TINYINT UNSIGNED", t);
  }

  /**
   * The TINYINT entry is not idempotent either: a second run turns
   * `TINYINT UNSIGNED` into `TINYINT UNSIGNED UNSIGNED`.
   */
  lemma TinyintTwice(s: string)
    requires UpperStr(s) == "TINYINT"
    ensures Sub(TinyintRule, s) == "TINYINT UNSIGNED"
    ensures Sub(TinyintRule, Sub(TinyintRule, s)) == "TINYINT UNSIGNED UNSIGNED"
  {
    TinyintWhole(s);
    TinyintUnsignedAgain(Sub(TinyintRule, s));
  }

  /** A word that starts with a character the text lacks (in any case) occurs nowhere in it. */
  lemma InitialAbsent(w: string, s: string, lo: nat)
    requires |w| > 0
    requires forall j :: lo <= j < |s| ==> Upper(s[j]) != Upper(w[0])
    ensures !Occurs(w, s, lo, |s|)
  {
    forall j | lo <= j < |s|
      ensures !CiAt(s, j, w)
    {
      Mismatch(s, j, w, 0);
    }
    NotOccursWhere(w, s, lo, |s|);
  }

  /**
   * A numbered pattern leaves a text alone when its head can only start at
   * position 0 and is not followed by a digit there.
   */
  lemma NumberedNoDigits(h: Literal, t: Template, s: string)
    requires |h| < |s| && !IsDigit(s[|h|])
    requires forall j :: 1 <= j < |s| ==> Upper(s[j]) != Upper(h[0])
    ensures Sub(Rule(Numbered(h), t), s) == s
  {
    InitialAbsent(h, s, 1);
    NoLeadNoMatch(Numbered(h), s, 1, |s|);
    assert DigitRun(s, |h|) == 0;
    assert MatchAt(Numbered(h), s, 0).None?;
    NoMatchUnchanged(Rule(Numbered(h), t), s);
  }

  /** A rule whose word starts with a character the text lacks leaves it alone. */
  lemma InitialAbsentUnchanged(r: Rule, s: string)
    requires forall j :: 0 <= j < |s| ==> Upper(s[j]) != Upper(Lead(r.pattern)[0])
    ensures Sub(r, s) == s
  {
    InitialAbsent(Lead(r.pattern), s, 0);
    NoMatchUnchanged(r, s);
  }

  lemma NvarcharMaxShape(s: string)
    requires UpperStr(s) == "NVARCHAR(MAX)"
    ensures |s| == 13 && !IsDigit(s[9])
    ensures forall j :: 1 <= j < |s| ==> Upper(s[j]) != 'N'
  {
    assert Upper(s[9]) == UpperStr(s)[9] == 'M';
    forall j | 1 <= j < |s|
      ensures Upper(s[j]) != 'N'
    {
      assert Upper(s[j]) == UpperStr(s)[j];
    }
  }

  /** `NVARCHAR(MAX)` has no digit run, so entry 7 leaves it alone. */
  lemma NvarcharMaxSkipsNumbered(s: string)
    requires UpperStr(s) == "NVARCHAR(MAX)"
    ensures Sub(NvarcharRule, s) == s
  {
    NvarcharMaxShape(s);
    NumberedNoDigits("NVARCHAR(", [Chars("VARCHAR("), Group(1), Chars(")")], s);
  }

  lemma VarcharMaxShape(s: string)
    requires UpperStr(s) == "VARCHAR(MAX)"
    ensures forall j :: 0 <= j < |s| ==> Upper(s[j]) != 'N'
  {
    forall j | 0 <= j < |s|
      ensures Upper(s[j]) != 'N'
    {
      assert Upper(s[j]) == UpperStr(s)[j];
    }
  }

  /** `VARCHAR(MAX)` has no `N` for entry 7 to start at. */
  lemma VarcharMaxSkipsNumbered(s: string)
    requires UpperStr(s) == "VARCHAR(MAX)"
    ensures Sub(NvarcharRule, s) == s
  {
    VarcharMaxShape(s);
    InitialAbsentUnchanged(NvarcharRule, s);
  }

  /** A numbered rule with a fixed replacement rewrites `H<digits>)`, `H` in any case, to that replacement. */
  lemma NumberedWhole(h: Literal, x: string, s: string, d: string)
    requires |d| > 0 && AllDigits(d)
    requires |h| <= |s| && UpperStr(s[..|h|]) == UpperStr(h) && s[|h|..] == d + ")"
    ensures Sub(Rule(Numbered(h), [Chars(x)]), s) == x
  {
    NumberedSuffixWhole(h, s, d);
    OccursNeedsRoom(h, s, |s|, |s|);
    SubOnce(Rule(Numbered(h), [Chars(x)]), s, 0);
    assert Expand([Chars(x)], [d]) == x + Expand([], [d]);
    EmptyHead(s, x, s[|s|..]);
    assert s[|s|..] == [];
  }

  /**
   * The precision pass sets any precision to 6, lower ones included:
   * `DATETIME(3)` becomes `DATETIME(6)` as `DATETIME(7)` does.
   */
  lemma DatetimeAnyPrecision(s: string, d: string)
    requires |d| > 0 && AllDigits(d)
    requires |s| >= 9 && UpperStr(s[..9]) == "DATETIME(" && s[9..] == d + ")"
    ensures Sub(DatetimePrecision, s) == "DATETIME(6)"
  {
    assert UpperStr("DATETIME(") == "DATETIME(";
    NumberedWhole("DATETIME(", "DATETIME(6)", s, d);
  }

  /** Likewise `TIME(n)` becomes `TIME(6)` for every digit run `n`. */
  lemma TimeAnyPrecision(s: string, d: string)
    requires |d| > 0 && AllDigits(d)
    requires |s| >= 5 && UpperStr(s[..5]) == "TIME(" && s[5..] == d + ")"
    ensures Sub(TimePrecision, s) == "TIME(6)"
  {
    assert UpperStr("TIME(") == "TIME(";
    NumberedWhole("TIME(", "TIME(6)", s, d);
  }
}
