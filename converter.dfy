/**
 * `convert_mssql_to_mysql`: an ordered table of type and keyword rewrites,
 * each applied once over the whole text, followed by a fixed chain of
 * clean-up passes (precision, directives, identifier quoting, `GO`).
 */
module Converter {
  import opened Text
  import opened Regex
  import opened SubFacts

  /** A template made of one literal. */
  function Fixed(x: string): Template { [Chars(x)] }

  /** The entries of the type and keyword table: a pattern and its replacement. */
  const IntIdentityRule: Rule := Rule(Identity("INT IDENTITY("), Fixed("INT AUTO_INCREMENT"))
  const Datetime2Rule: Rule := Rule(Word("DATETIME2"), Fixed("DATETIME"))
  const DatetimeoffsetRule: Rule := Rule(Word("DATETIMEOFFSET"), Fixed("DATETIME"))
  const SmalldatetimeRule: Rule := Rule(Word("SMALLDATETIME"), Fixed("DATETIME"))
  const Datetime7Rule: Rule := Rule(Word("DATETIME(7)"), Fixed("DATETIME(6)"))
  const Time7Rule: Rule := Rule(Word("TIME(7)"), Fixed("TIME(6)"))
  const UniqueidentifierRule: Rule := Rule(Word("UNIQUEIDENTIFIER"), Fixed("VARCHAR(36)"))
  const NvarcharRule: Rule := Rule(Numbered("NVARCHAR("), [Chars("VARCHAR("), Group(1), Chars(")")])
  const NvarcharMaxRule: Rule := Rule(Word("NVARCHAR(MAX)"), Fixed("TEXT"))
  const VarcharMaxRule: Rule := Rule(Word("VARCHAR(MAX)"), Fixed("TEXT"))
  const TextRule: Rule := Rule(Word("TEXT"), Fixed("LONGTEXT"))
  const NtextRule: Rule := Rule(Word("NTEXT"), Fixed("LONGTEXT"))
  const MoneyRule: Rule := Rule(Word("MONEY"), Fixed("DECIMAL(19,4)"))
  const SmallmoneyRule: Rule := Rule(Word("SMALLMONEY"), Fixed("DECIMAL(10,4)"))
  const BitRule: Rule := Rule(Word("BIT"), Fixed("TINYINT(1)"))
  const FloatRule: Rule := Rule(Word("FLOAT"), Fixed("DOUBLE"))
  const RealRule: Rule := Rule(Word("REAL"), Fixed("FLOAT"))
  const TinyintRule: Rule := Rule(Word("TINYINT"), Fixed("TINYINT UNSIGNED"))
  const BigintRule: Rule := Rule(Word("BIGINT"), Fixed("BIGINT"))
  const ImageRule: Rule := Rule(Word("IMAGE"), Fixed("LONGBLOB"))

  /** The type and keyword table, in the order its entries are applied. */
  const TypeMapping: seq<Rule> := [
    IntIdentityRule, Datetime2Rule, DatetimeoffsetRule, SmalldatetimeRule,
    Datetime7Rule, Time7Rule, UniqueidentifierRule, NvarcharRule,
    NvarcharMaxRule, VarcharMaxRule, TextRule, NtextRule,
    MoneyRule, SmallmoneyRule, BitRule, FloatRule,
    RealRule, TinyintRule, BigintRule, ImageRule
  ]

  const DatetimePrecision: Rule := Rule(Numbered("DATETIME("), Fixed("DATETIME(6)"))
  const TimePrecision: Rule := Rule(Numbered("TIME("), Fixed("TIME(6)"))
  const AnsiNulls: Rule := Rule(Setting("SET ANSI_NULLS ON"), [])
  const QuotedIdentifier: Rule := Rule(Setting("SET QUOTED_IDENTIFIER ON"), [])
  const DboQualified: Rule := Rule(DboName, [Chars("`"), Group(1), Chars("`")])
  const Brackets: Rule := Rule(Bracketed, [Chars("`"), Group(1), Chars("`")])
  const QuotedTinyint: Rule := Rule(Quoted("TINYINT UNSIGNED"), [Group(1)])
  const QuotedType: Rule := Rule(QuotedPair, [Chars("`"), Group(1), Chars("` "), Group(2)])
  const BatchSeparator: Rule := Rule(GoLine, [])

  /** Apply the rules one after another, the first rule first. */
  function ApplyAll(rules: seq<Rule>, s: string): string
    decreases |rules|
  {
    if rules == [] then s
    else Sub(rules[|rules| - 1], ApplyAll(rules[..|rules| - 1], s))
  }

  /** Set the precision of every DATETIME(n) and TIME(n) to 6, whatever the digits n are. */
  function Precision(s: string): string
  {
    Sub(TimePrecision, Sub(DatetimePrecision, s))
  }

  /** Delete the two session directives. */
  function DropSettings(s: string): string
  {
    Sub(QuotedIdentifier, Sub(AnsiNulls, s))
  }

  /** Turn bracket quoting into backticks and unquote data types. */
  function Backticks(s: string): string
  {
    Sub(QuotedType, Sub(QuotedTinyint, Sub(Brackets, Sub(DboQualified, s))))
  }

  /** Delete the `GO` batch separators. */
  function DropGo(s: string): string
  {
    Sub(BatchSeparator, s)
  }

  /** The whole conversion: the table, then the passes. */
  function Convert(schema: string): string
  {
    DropGo(Backticks(DropSettings(Precision(ApplyAll(TypeMapping, schema)))))
  }

  /**
   * The converter as the source runs it: a loop over the table that
   * reassigns the text, then the passes one statement each.
   */
  method ConvertMssqlToMysql(schema: string) returns (out: string)
    ensures out == Convert(schema)
  {
    out := schema;
    for k := 0 to |TypeMapping|
      invariant out == ApplyAll(TypeMapping[..k], schema)
    {
      assert TypeMapping[..k + 1][..k] == TypeMapping[..k];
      out := Sub(TypeMapping[k], out);
    }
    assert TypeMapping[..|TypeMapping|] == TypeMapping;
    out := Sub(DatetimePrecision, out);
    out := Sub(TimePrecision, out);
    out := Sub(AnsiNulls, out);
    out := Sub(QuotedIdentifier, out);
    out := Sub(DboQualified, out);
    out := Sub(Brackets, out);
    out := Sub(QuotedTinyint, out);
    out := Sub(QuotedType, out);
    out := Sub(BatchSeparator, out);
  }
}
