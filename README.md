# MSSQL-to-MySQL schema converter, modelled in Dafny

This project models `convert_mssql_to_mysql`, the text rewrite at the heart of the
MSSQL-to-MySQL schema converter. It takes the text of an MSSQL DDL script and
returns MySQL DDL. The rewrite is a fixed, ordered chain of regular-expression
substitutions:

1. A type and keyword table of twenty case-insensitive rules. Each rule runs once
   over the whole text, in table order.
2. A precision pass: `DATETIME(n)` becomes `DATETIME(6)` and `TIME(n)` becomes `TIME(6)`.
3. Deletion of `SET ANSI_NULLS ON` and `SET QUOTED_IDENTIFIER ON`, each with one optional `;`.
4. Identifier re-quoting:
   - `[dbo].[x]` and `[dbo].x` become `` `x` ``;
   - `[x]` on one line becomes `` `x` ``;
   - `` `TINYINT UNSIGNED` `` loses its backticks;
   - `` `a` `` followed by whitespace and `` `b` `` becomes `` `a` b ``.
5. Deletion of whole `GO` lines.

## How the model is built

- `Regex` models Python's `re.sub` for the pattern shapes the converter uses. There is
  one `Pattern` constructor per shape: a literal word, a word followed by digits and
  `)`, `INT IDENTITY(d,d)`, a `SET` directive with an optional `;`, `[dbo].`, `[...]`,
  a back-quoted word, a back-quoted pair, and a `GO` line.
  - A matcher per shape gives the match at one position: where it ends and which groups it captures.
  - `Matches` computes the match at every position.
  - `Scan` walks the text left to right. It takes the leftmost match, copies its
    expanded template, resumes after it, and copies unmatched characters verbatim.
    So `Sub` is leftmost and non-overlapping, like `re.sub`.
  - None of the patterns can match the empty string, so Python's empty-match rules never apply.
  - Regex backtracking is settled per shape. Every shape is deterministic except the
    `GO` line: its greedy `\s*` backs off to the last line end, which `LineEndBack` finds.
- `Converter` holds the rule table `TypeMapping` and the nine later passes as data.
  - `ApplyAll` folds a list of rules over a text. `Convert` is the whole rewrite.
  - `ConvertMssqlToMysql` is the imperative driver: a loop over the table, then the
    chain of passes. It is proved equal to `Convert`.
- The remaining modules prove what the rewrite does:
  - `SubFacts`, `ScanRelations`, `FixedRules`: general facts about one substitution.
  - `Locality`: a substitution over a concatenation, where what comes before a match cannot change it.
  - `InContext`: each deleting or re-quoting pass acting on one occurrence inside a longer text.
  - `PrecisionSettled`: the two precision passes together.
  - `ConverterFacts`: facts about individual passes.
  - `Cascades`: how consecutive table rules feed and shadow each other.
  - `Identifiers` and `Directives`: the re-quoting and deletion passes.
  - `WholeConversion` and `SecondRun`: the whole conversion on chosen inputs.
  - `Text` and `Letters`: supporting definitions.

Character classes are ASCII:
- `\d` is `[0-9]`;
- `\w` is `[A-Za-z0-9_]`;
- `\s` is space, `\t`, `\n`, `\v`, `\f`, `\r` and `\x1c`-`\x1f`;
- case-insensitive matching folds only `a`-`z` onto `A`-`Z`.

### Where the model follows the code rather than the stated intent

The code's behaviour differs from its comments and rule names in several places. The
model does what the code does:

- `NTEXT` becomes `NLONGTEXT`: the `TEXT` rule fires first, and the `NTEXT` rule never fires.
- `SMALLMONEY` becomes `SMALLDECIMAL(19,4)`: the `MONEY` rule fires first, and the `SMALLMONEY` rule never fires.
- `BIT` becomes `TINYINT UNSIGNED(1)`, not `TINYINT(1)`.
- The `TINYINT` rule is not idempotent. Converting the converter's own output
  again turns `TINYINT UNSIGNED` into `TINYINT UNSIGNED UNSIGNED` and `LONGTEXT`
  into `LONGLONGTEXT`.
- The `BIGINT` rule is not a no-op: it upper-cases `bigint` in any case mix.
- The comment at line 37 speaks of precisions greater than 6. Lines 38-39 set every precision to 6.
- `INT IDENTITY(d,d)` needs the comma with no space after it. It also rewrites the
  `INT` inside `BIGINT IDENTITY(1,1)`.
- A `GO` line must start at the beginning of the line. An indented `GO` survives.
  The deleted match also takes every line break of the blank lines after it except the last,
  or all of them when the text ends there.
- `[dbo]` is matched case-sensitively. `[...]` never spans a line break.

## Model

| member | source | states |
|---|---|---|
| Regex.MatchWord | mssql_to_mysql_converter.py:13-31 | a literal rule matches at a position exactly when the text there equals the word up to ASCII case; the match covers the word and captures nothing |
| Regex.MatchNumbered | mssql_to_mysql_converter.py:19 | `NVARCHAR(`, `DATETIME(`, `TIME(` plus digits and `)`: on a match, the head is there up to case, the captured group is a non-empty digit run and `)` ends the match; with the head present, no match means the digit run is empty or not closed by `)` |
| Regex.SeedAndIncrement | mssql_to_mysql_converter.py:12 | the `d,d)` tail of `INT IDENTITY(` is found exactly where the text reads digits, a comma, digits and `)`, and the match ends at that `)` |
| Regex.MatchIdentity | mssql_to_mysql_converter.py:12 | `INT IDENTITY(d,d)` matches exactly where the head occurs up to case followed by digits, a comma, digits and `)`; the match ends at that `)` and captures nothing |
| Regex.MatchSetting | mssql_to_mysql_converter.py:42-43 | a directive matches exactly where it occurs up to case, and the match takes one following `;` exactly when there is one |
| Regex.MatchDbo | mssql_to_mysql_converter.py:46 | `[dbo].` (case-sensitive) matches exactly when a word character follows it or its optional `[`; the captured group is the whole run of word characters there, and the match takes one `]` right after it when there is one |
| Regex.CloseBracket | mssql_to_mysql_converter.py:49 | finds the nearest `]` with no line break before it; when none is found, every later `]` has a line break before it |
| Regex.MatchBracket | mssql_to_mysql_converter.py:49 | a `[...]` match runs from `[` to the nearest `]`, captures what lies between, and that holds neither `]` nor a line break; a `[` with a `]` later on its line is always matched |
| Regex.MatchQuoted | mssql_to_mysql_converter.py:52 | `` `TINYINT UNSIGNED` `` matches exactly when that phrase stands between two backticks (case-sensitive), and captures the phrase |
| Regex.QuotedWord | mssql_to_mysql_converter.py:55 | a back-quoted word found at a position is a non-empty run of word characters between two backticks |
| Regex.QuotedWordFinds | mssql_to_mysql_converter.py:55 | conversely, a non-empty run of word characters between two backticks is found, up to its closing backtick |
| Regex.MatchQuotedPair | mssql_to_mysql_converter.py:55 | a pair match reads backtick, first word, backtick, whitespace, backtick, second word, backtick, and its two groups are those words |
| Regex.PairFinds | mssql_to_mysql_converter.py:55 | conversely, every such layout at a position is matched up to its last backtick, capturing its two words |
| Regex.LineEndBack | mssql_to_mysql_converter.py:58 | finds the last line end (a newline or the end of the text) in a range, and when there is none the range holds no line end |
| Regex.MatchGo | mssql_to_mysql_converter.py:58 | a `GO` match begins a line, starts with `GO` up to case, holds only whitespace after it and ends at the last line end that whitespace reaches; a `GO` at a line start followed by whitespace up to a line end is always matched |
| Regex.MatchAt | mssql_to_mysql_converter.py:34-35 | every match of every pattern covers at least one character, so a scan always advances |
| Regex.Matches | mssql_to_mysql_converter.py:34-35 | there is one match slot per position of the text, and every match stays inside the text |
| Converter.ConvertMssqlToMysql | mssql_to_mysql_converter.py:7-60 | the driver's loop over the table and its chain of passes produce `Convert(schema)`; the loop invariant ties the text to the table prefix applied so far |
| SubFacts.MatchHasLead | mssql_to_mysql_converter.py:11-58 | every pattern matches only where its fixed leading text occurs |
| SubFacts.SubUnchanged | mssql_to_mysql_converter.py:34-35 | a rule whose leading text does not occur leaves the text unchanged |
| SubFacts.NoMatchUnchanged | mssql_to_mysql_converter.py:34-35 | `re.sub` leaves a text unchanged when its pattern matches at no position |
| SubFacts.SubOnce | mssql_to_mysql_converter.py:34-35 | a rule that matches exactly once replaces that span by its expanded template and keeps the rest |
| Locality.ScanSuffix | mssql_to_mysql_converter.py:34-35 | the scan of a text from a position on equals `re.sub` over the rest of the text, when no match starting there depends on what comes before |
| Locality.SubPrefix | mssql_to_mysql_converter.py:34-35 | a stretch at the front where no match can start is copied, and `re.sub` goes on over the rest |
| Locality.SubHead | mssql_to_mysql_converter.py:34-35 | a match at the front is replaced by its expanded template, and `re.sub` goes on over the rest |
| Locality.SubAround | mssql_to_mysql_converter.py:34-35 | the first match in a text is replaced by its expanded template, what comes before it is kept, and `re.sub` goes on after it |
| Locality.SubDeletes | mssql_to_mysql_converter.py:42-58 | a rule with an empty replacement deletes the first match, keeps what comes before it, and goes on after it |
| InContext.DboInContext | mssql_to_mysql_converter.py:46 | `[dbo].[name]` anywhere in a text where no `[dbo].` match starts before it becomes `` `name` ``, the text before it is kept and the pass goes on after it |
| InContext.DboBareInContext | mssql_to_mysql_converter.py:46 | the bare form `[dbo].name`, with `name` the whole word run, becomes `` `name` `` in the same way, and a `]` right after the name goes with it |
| InContext.BracketInContext | mssql_to_mysql_converter.py:49 | `[x]`, with no `]` and no line break in `x`, anywhere in a text where no bracket match starts before it becomes `` `x` ``, the text before it is kept and the pass goes on after it |
| InContext.UnquoteInContext | mssql_to_mysql_converter.py:52 | the first `` `TINYINT UNSIGNED` `` in a text (no earlier occurrence of the whole phrase; other backticks may come before it) loses exactly its two backticks, the text before it is kept and the pass goes on after it |
| InContext.UnquoteAfterColumn | mssql_to_mysql_converter.py:49-52 | a column `` `col` `TINYINT UNSIGNED` ``, as the bracket pass leaves `[col] [TINYINT UNSIGNED]`, keeps the backticks around its name and loses those around its type |
| InContext.SettingInContext | mssql_to_mysql_converter.py:42-43 | the first directive in a text, with its `;` if it has one, is deleted, the text before it is kept and the pass goes on after it |
| InContext.GoInContext | mssql_to_mysql_converter.py:58 | the first `GO` line in a text (no `GO`-line match starts before it) is deleted up to the line break that the next line keeps, the text before it is kept and the pass goes on after it |
| ScanRelations.ScanSubsequence | mssql_to_mysql_converter.py:42-43 | a substitution whose replacements are subsequences of what they replace yields a subsequence of its input |
| ScanRelations.ScanKeepsFolded | mssql_to_mysql_converter.py:30 | a substitution whose replacements equal what they replace up to case preserves the text up to case |
| ScanRelations.ScanReticks | mssql_to_mysql_converter.py:49 | a substitution whose every replacement only turns brackets into backticks does only that to the whole text |
| FixedRules.Shadowed | mssql_to_mysql_converter.py:22-25 | after a rule that replaces word `w` by `x` has run, a longer word `v` finds no match anywhere in the output, provided `w` sits inside `v` at an offset of at least one (`v` has a character before `w`), no character of `v` after its first folds to the same letter as `x[0]`, and from no position of `x` does the rest of `x` read, up to case, as the beginning of `v`: this is how the MONEY rule starves SMALLMONEY and TEXT starves NTEXT |
| FixedRules.Settled | mssql_to_mysql_converter.py:38-39 | after a precision pass, every match of its pattern reads exactly its replacement |
| FixedRules.SettledIdempotent | mssql_to_mysql_converter.py:38-39 | a precision pass applied twice equals the pass applied once |
| ConverterFacts.ApplyAllAppend | mssql_to_mysql_converter.py:34-35 | running two lists of rules one after the other equals running their concatenation |
| ConverterFacts.ApplyAllUntouched | mssql_to_mysql_converter.py:34-35 | rules none of whose leading texts occur leave the text unchanged |
| ConverterFacts.CleanupUntouched | mssql_to_mysql_converter.py:38-58 | the nine passes after the table leave alone a text holding none of their leading texts |
| ConverterFacts.ConvertUnchanged | mssql_to_mysql_converter.py:7-60 | text holding none of the patterns' leading texts comes out of the conversion unchanged |
| ConverterFacts.NtextNeverFires | mssql_to_mysql_converter.py:22-23 | after the `TEXT` rule, the `NTEXT` rule has nothing to match |
| ConverterFacts.SmallmoneyNeverFires | mssql_to_mysql_converter.py:24-25 | after the `MONEY` rule, the `SMALLMONEY` rule has nothing to match |
| ConverterFacts.DeadEntries | mssql_to_mysql_converter.py:11-35 | the table behaves exactly like the table without its `NTEXT` and `SMALLMONEY` entries |
| ConverterFacts.DatetimeSettled | mssql_to_mysql_converter.py:38 | right after the `DATETIME(n)` pass, every `DATETIME(digits)` reads `DATETIME(6)` |
| ConverterFacts.DatetimeIdempotent | mssql_to_mysql_converter.py:38 | the `DATETIME(n)` pass applied twice equals the pass applied once |
| ConverterFacts.TimeSettled | mssql_to_mysql_converter.py:39 | right after the `TIME(n)` pass, every `TIME(digits)` reads `TIME(6)` |
| ConverterFacts.TimeIdempotent | mssql_to_mysql_converter.py:39 | the `TIME(n)` pass applied twice equals the pass applied once |
| ConverterFacts.PrecisionSettlesTime | mssql_to_mysql_converter.py:38-39 | after the whole precision pass, every `TIME(digits)` reads `TIME(6)` |
| PrecisionSettled.PrecisionSettlesDatetime | mssql_to_mysql_converter.py:38-39 | after the whole precision pass, every `DATETIME(digits)` reads `DATETIME(6)`: the `TIME(n)` pass does not disturb them |
| PrecisionSettled.PrecisionIdempotent | mssql_to_mysql_converter.py:38-39 | the precision pass applied twice equals the pass applied once |
| PrecisionSettled.SettledAfter | mssql_to_mysql_converter.py:39 | a numbered pass whose pattern and replacement cannot make or break an occurrence of a longer settled pattern keeps every match of that pattern reading its replacement |
| FixedRules.ReadsFixed | mssql_to_mysql_converter.py:38-39 | a numbered pass over a text where every match already reads its replacement leaves the text unchanged |
| ConverterFacts.DeletionKeepsOrder | mssql_to_mysql_converter.py:42-58 | a rule with an empty replacement only deletes: its output is a subsequence of its input |
| ConverterFacts.DropSettingsKeepsOrder | mssql_to_mysql_converter.py:42-43 | removing the directives only deletes characters: the output is a subsequence of the input |
| ConverterFacts.DropGoKeepsOrder | mssql_to_mysql_converter.py:58 | removing `GO` lines only deletes characters: the output is a subsequence of the input |
| ConverterFacts.UnquoteKeepsOrder | mssql_to_mysql_converter.py:52 | un-quoting `TINYINT UNSIGNED` only deletes characters: the output is a subsequence of the input |
| ConverterFacts.BracketsReticks | mssql_to_mysql_converter.py:49 | the bracket pass keeps the text's length and changes a character only by turning a `[` or `]` into a backtick |
| ConverterFacts.CaseOnlyRule | mssql_to_mysql_converter.py:30 | a rule whose replacement equals its pattern up to case preserves the text up to case |
| ConverterFacts.UpcaseOnlyRule | mssql_to_mysql_converter.py:30 | a rule whose replacement is upper case and equals its pattern up to case keeps the length and only upper-cases characters |
| ConverterFacts.BigintOnlyUpcases | mssql_to_mysql_converter.py:30 | the `BIGINT` rule keeps the length and changes a character only by upper-casing it |
| Cascades.ShortUnchanged | mssql_to_mysql_converter.py:34-35 | a text shorter than a rule's leading text passes that rule unchanged |
| Cascades.WordWhole | mssql_to_mysql_converter.py:13-31 | a literal rule turns its own word, in any case, into its replacement |
| Cascades.NumberedWhole | mssql_to_mysql_converter.py:38-39 | a digits rule turns its head, any digits and `)` into its replacement |
| Cascades.NvarcharDigits | mssql_to_mysql_converter.py:19 | `NVARCHAR(d)` becomes `VARCHAR(d)` with the same digits |
| Cascades.NvarcharMaxCascade | mssql_to_mysql_converter.py:19-22 | `NVARCHAR(MAX)` passes the `NVARCHAR(n)` rule, becomes `TEXT`, then `LONGTEXT` |
| Cascades.VarcharMaxCascade | mssql_to_mysql_converter.py:19-22 | `VARCHAR(MAX)` becomes `TEXT`, then `LONGTEXT` |
| Cascades.TextWhole | mssql_to_mysql_converter.py:22 | `TEXT` becomes `LONGTEXT` |
| Cascades.NtextWhole | mssql_to_mysql_converter.py:22 | the `TEXT` rule turns `NTEXT` into `N` plus `LONGTEXT` |
| Cascades.NtextCascade | mssql_to_mysql_converter.py:22-23 | `NTEXT` ends as `NLONGTEXT` after both rules |
| Cascades.SmallmoneyWhole | mssql_to_mysql_converter.py:24 | the `MONEY` rule turns `SMALLMONEY` into `SMALL` plus `DECIMAL(19,4)` |
| Cascades.SmallmoneyCascade | mssql_to_mysql_converter.py:24-25 | `SMALLMONEY` ends as `SMALLDECIMAL(19,4)` after both rules |
| Cascades.TinyintOneWhole | mssql_to_mysql_converter.py:29 | the `TINYINT` rule turns `TINYINT(1)` into `TINYINT UNSIGNED(1)` |
| Cascades.BitCascade | mssql_to_mysql_converter.py:26-29 | `BIT` becomes `TINYINT(1)` and then `TINYINT UNSIGNED(1)` |
| Cascades.FloatCascade | mssql_to_mysql_converter.py:27-31 | `FLOAT` ends as `DOUBLE` after the rules from `FLOAT` to `IMAGE` |
| Cascades.RealCascade | mssql_to_mysql_converter.py:27-31 | `REAL` ends as `FLOAT` and is not rewritten further to `DOUBLE` |
| Cascades.IntIdentityWhole | mssql_to_mysql_converter.py:12 | `INT IDENTITY(d,d)` becomes `INT AUTO_INCREMENT`, and the seed and increment are dropped |
| Cascades.IdentitySpaceSurvives | mssql_to_mysql_converter.py:12 | `INT IDENTITY(d, d)` with a space after the comma is left unchanged |
| Cascades.BigintIdentityWhole | mssql_to_mysql_converter.py:12 | in `BIGINT IDENTITY(d,d)` the inner `INT IDENTITY(d,d)` is rewritten, leaving `BIGINT AUTO_INCREMENT` |
| Cascades.TextTwice | mssql_to_mysql_converter.py:22 | the `TEXT` rule turns `TEXT` into `LONGTEXT`, and applied again turns that into `LONGLONGTEXT` |
| Cascades.TinyintTwice | mssql_to_mysql_converter.py:29 | the `TINYINT` rule applied twice yields `TINYINT UNSIGNED UNSIGNED` |
| Cascades.DatetimeAnyPrecision | mssql_to_mysql_converter.py:37-38 | `DATETIME(d)` with any digits becomes `DATETIME(6)`, not only precisions above 6 |
| Cascades.TimeAnyPrecision | mssql_to_mysql_converter.py:39 | `TIME(d)` with any digits becomes `TIME(6)` |
| Identifiers.DboWhole | mssql_to_mysql_converter.py:46 | `[dbo].[name]` becomes `` `name` `` |
| Identifiers.DboBare | mssql_to_mysql_converter.py:46 | `[dbo].name` becomes `` `name` `` |
| Identifiers.DboCaseSensitive | mssql_to_mysql_converter.py:46 | `[DBO].[name]` is not touched by the `[dbo]` pass |
| Identifiers.BracketWhole | mssql_to_mysql_converter.py:49 | `[x]`, for any `x` on one line without `]`, becomes `` `x` `` |
| Identifiers.BracketNearest | mssql_to_mysql_converter.py:49 | the match is non-greedy: `[a]b]` becomes `` `a`b] `` |
| Identifiers.BracketsStayOnLine | mssql_to_mysql_converter.py:49 | brackets on two different lines are not paired, and the text is unchanged |
| Identifiers.QuotedWhole | mssql_to_mysql_converter.py:52 | a back-quoted phrase of an un-quoting rule loses its backticks |
| Identifiers.UnquoteTinyint | mssql_to_mysql_converter.py:52 | `` `TINYINT UNSIGNED` `` becomes `TINYINT UNSIGNED` |
| Identifiers.QuotedPairShape | mssql_to_mysql_converter.py:55 | a pair match reads backtick, first word, backtick, whitespace only, backtick, second word, backtick |
| Identifiers.QuotedPairRewrite | mssql_to_mysql_converter.py:55 | the matched `` `a` `` whitespace `` `b` `` is replaced by `` `a` b ``, with exactly one space |
| Directives.SettingDeleted | mssql_to_mysql_converter.py:42-43 | a directive, in any case and with or without one `;`, is deleted whole |
| Directives.AnsiNullsDropped | mssql_to_mysql_converter.py:42-43 | `SET ANSI_NULLS ON` with or without `;` disappears under both directive passes |
| Directives.QuotedIdentifierDropped | mssql_to_mysql_converter.py:42-43 | `SET QUOTED_IDENTIFIER ON` with or without `;` disappears under both directive passes |
| Directives.QuotedIdentifierSkipsAnsi | mssql_to_mysql_converter.py:42 | the first directive pass does not touch the second directive |
| Directives.GoWhole | mssql_to_mysql_converter.py:58 | a text that is just `GO`, in any case, becomes empty |
| Directives.GoSwallowsBlankLines | mssql_to_mysql_converter.py:58 | after a `GO` line followed by blank lines and then text, a single line break is left before the text |
| Directives.GoIndentedSurvives | mssql_to_mysql_converter.py:58 | `GO` indented by whitespace is not deleted |
| Directives.GoWithTextSurvives | mssql_to_mysql_converter.py:58 | `GO` followed on its line by non-space text is not deleted |
| WholeConversion.ConvertBit | mssql_to_mysql_converter.py:7-60 | the whole conversion turns `BIT`, in any case, into `TINYINT UNSIGNED(1)` |
| SecondRun.ConvertText | mssql_to_mysql_converter.py:7-60 | the whole conversion turns `TEXT`, in any case, into `LONGTEXT` |
| SecondRun.ConvertLongtext | mssql_to_mysql_converter.py:22 | the whole conversion turns its own output `LONGTEXT` into `LONGLONGTEXT` |
| SecondRun.ConvertNotIdempotent | mssql_to_mysql_converter.py:7-60 | converting `TEXT` twice differs from converting it once |
| SecondRun.ConvertTinyint | mssql_to_mysql_converter.py:29 | the whole conversion turns `TINYINT`, in any case, into `TINYINT UNSIGNED` |
| SecondRun.ConvertTinyintUnsigned | mssql_to_mysql_converter.py:29 | the whole conversion turns `TINYINT UNSIGNED` into `TINYINT UNSIGNED UNSIGNED` |
| SecondRun.ConvertTinyintTwice | mssql_to_mysql_converter.py:7-60 | converting `TINYINT` twice differs from converting it once |

## Left out

- `read_file_with_encoding` (lines 62-73), `convert_sql_file` (lines 75-91) and the script driver (lines 93-97) are not modelled. They do file I/O, trial decoding and console output.
- Python's general regular-expression engine is not part of this model. Only the pattern shapes the converter uses are modelled, each by a dedicated matcher.
- Unicode is not modelled: case folding covers ASCII letters only, and `\w`, `\d` and `\s` are their ASCII sets. A schema with non-ASCII word characters or non-ASCII letters in a case-insensitive keyword is outside the model.
- The redundant `flags=re.IGNORECASE` at line 35 changes nothing next to the inline `(?i)`, so it is not modelled separately.
- Regex.MatchAt: its contract states only that a match makes progress. What each shape matches is stated by that shape's matcher.
- Cascades.NvarcharMaxCascade, Cascades.BitCascade, Cascades.FloatCascade and the other cascade lemmas: each covers one type name standing alone, not the name inside arbitrary surrounding SQL.
- WholeConversion.ConvertBit and SecondRun.ConvertText: these whole-conversion results are proved for a type name standing alone, not inside a full script.
- Identifiers.QuotedPairRewrite: states the shape of each match and its replacement, not the result of the whole pass over an arbitrary text.
- ConverterFacts.ConvertUnchanged: gives a sufficient condition for passthrough (no leading text of any rule occurs), not an exact characterisation.
- Directives.GoSwallowsBlankLines and the other `GO` lemmas cover the listed line shapes, not every text.
- Directives.AnsiNullsDropped and Directives.QuotedIdentifierDropped: they cover a directive standing alone. Inside a longer text, `InContext.SettingInContext` covers the first directive, and applying it again to what follows covers the next.
- ConverterFacts.BracketsReticks: states only a relation between input and output that the identity also satisfies. Which `[x]` becomes `` `x` `` is stated, one occurrence at a time, by `InContext.BracketInContext`.
- ConverterFacts.DropSettingsKeepsOrder, ConverterFacts.DropGoKeepsOrder and ConverterFacts.UnquoteKeepsOrder: each states only that the pass deletes characters (a subsequence). The `InContext` lemmas say which characters go, one occurrence at a time.
- InContext.UnquoteAfterColumn: stated for a column name without an upper-case `T`, which is what rules out an earlier occurrence of the phrase; a name that holds one is covered by `InContext.UnquoteInContext` once that is shown for it.
- InContext.GoInContext: covers a `GO` line that ends the text or is followed by a line that is not blank. When blank lines follow, the match also takes their line breaks (see `Directives.GoSwallowsBlankLines`), and that case is not stated in context.
