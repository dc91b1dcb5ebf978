/**
 * The part of Python's `re.sub` that the converter relies on.
 *
 * Each constructor of `Pattern` is one shape of regular expression that the
 * converter uses; `MatchAt` says what Python's backtracking matcher finds
 * when it tries that shape at one position.  `Sub` then scans the text left
 * to right: at the first position where the pattern matches it emits the
 * expanded replacement and resumes after the match, otherwise it copies one
 * character.  This is `re.sub` with an unlimited count for patterns that
 * never match the empty string, which holds of every shape below.
 */
module Regex {
  import opened Text

  datatype Option<T> = None | Some(value: T)

  /** A literal that is never empty, so every match makes progress. */
  type Literal = w: string | |w| > 0 witness "x"

  datatype Pattern =
    | Word(text: Literal)       // (?i)TEXT
    | Numbered(head: Literal)   // (?i)HEAD(\d+)\) where HEAD ends in `(`; group 1 is the digits
    | Identity(head: Literal)   // (?i)HEAD\d+,\d+\) where HEAD ends in `(`
    | Setting(text: Literal)    // (?i)TEXT;?
    | DboName                   // \[dbo\]\.\[?(\w+)\]?
    | Bracketed                 // \[(.*?)\]
    | Quoted(text: Literal)     // `(TEXT)`, case-sensitive
    | QuotedPair                // `(\w+)`\s+`(\w+)`
    | GoLine                    // (?im)^GO\s*$

  /** A successful match: where it ends (exclusive) and its capture groups. */
  datatype Match = Match(end: nat, groups: seq<string>)

  /** A piece of a replacement string: literal text, or `\n` for group n. */
  datatype Piece = Chars(text: string) | Group(n: nat)

  type Template = seq<Piece>

  datatype Rule = Rule(pattern: Pattern, template: Template)

  const DboHead: string := "[dbo]."

  /** First `]` at or after `j` on the same line: the lazy `.*?` then `\]`. */
  function CloseBracket(s: string, j: nat): (k: Option<nat>)
    requires j <= |s|
    ensures k.Some? ==> j <= k.value < |s| && s[k.value] == ']'
    ensures k.Some? ==> forall t :: j <= t < k.value ==> s[t] != ']' && s[t] != '\n'
    ensures k.None? ==> forall t :: j <= t < |s| && s[t] == ']' ==> exists u :: j <= u < t && s[u] == '\n'
    decreases |s| - j
  {
    if j == |s| || s[j] == '\n' then None
    else if s[j] == ']' then Some(j)
    else CloseBracket(s, j + 1)
  }

  /**
   * Where `\s*$` (multi-line) ends when the greedy run of spaces covers
   * `lo .. hi`: the matcher backs off from `hi` to the last position that is
   * the end of the text or stands before a newline.
   */
  function LineEndBack(s: string, lo: nat, hi: nat): (e: Option<nat>)
    requires lo <= hi <= |s|
    ensures e.Some? ==> lo <= e.value <= hi && (e.value == |s| || s[e.value] == '\n')
    ensures e.Some? ==> forall t :: e.value < t <= hi ==> t != |s| && s[t] != '\n'
    ensures e.None? ==> forall t :: lo <= t <= hi ==> t != |s| && s[t] != '\n'
    decreases hi - lo
  {
    if hi == |s| || s[hi] == '\n' then Some(hi)
    else if hi == lo then None
    else LineEndBack(s, lo, hi - 1)
  }

  /** `(?i)W`: a case-insensitive literal. */
  function MatchWord(w: Literal, s: string, i: nat): (m: Option<Match>)
    ensures m.Some? <==> i + |w| <= |s| && UpperStr(s[i..i + |w|]) == UpperStr(w)
    ensures m.Some? ==> m.value == Match(i + |w|, [])
  {
    CiAtSlice(s, i, w);
    if CiAt(s, i, w) then Some(Match(i + |w|, [])) else None
  }

  /** `(?i)H(\d+)\)` where the head `H` ends in `(`: group 1 is the digits. */
  function MatchNumbered(h: Literal, s: string, i: nat): (m: Option<Match>)
    requires i <= |s|
    ensures m.Some? ==> i < m.value.end <= |s|
    ensures m.Some? ==> CiAt(s, i, h)
    ensures m.Some? ==> var n := m.value.end - i - |h| - 1;
      n > 0 && AllDigits(s[i + |h|..i + |h| + n]) && s[m.value.end - 1] == ')'
      && m.value.groups == [s[i + |h|..i + |h| + n]]
    ensures m.None? && CiAt(s, i, h) ==>
      var n := DigitRun(s, i + |h|); n == 0 || i + |h| + n == |s| || s[i + |h| + n] != ')'
  {
    if CiAt(s, i, h) then DigitsClosed(s, i + |h|) else None
  }

  /** `(\d+)\)` at `j`: a run of digits, captured, and the closing parenthesis. */
  function DigitsClosed(s: string, j: nat): Option<Match>
    requires j <= |s|
  {
    var n := DigitRun(s, j);
    if n > 0 && j + n < |s| && s[j + n] == ')' then Some(Match(j + n + 1, [s[j..j + n]])) else None
  }

  /**
   * `s[j..x]` reads `\d+,\d+\)`: digits, the comma at `c`, digits and a
   * closing parenthesis.
   */
  predicate SeedLayout(s: string, j: nat, c: nat, x: nat)
  {
    j < c && c + 2 < x <= |s| && s[c] == ',' && s[x - 1] == ')'
    && AllDigits(s[j..c]) && AllDigits(s[c + 1..x - 1])
  }

  /** `\d+,\d+\)` at `j`: where it ends, if it matches. */
  function SeedAndIncrement(s: string, j: nat): (e: Option<nat>)
    requires j <= |s|
    ensures e.Some? ==> j + 4 <= e.value <= |s| && s[e.value - 1] == ')'
    ensures e.Some? ==> exists c: nat :: SeedLayout(s, j, c, e.value)
    ensures forall c: nat, x: nat :: SeedLayout(s, j, c, x) ==> e == Some(x)
  {
    SeedLayoutFound(s, j);
    var a := DigitRun(s, j);
    if a > 0 && j + a < |s| && s[j + a] == ',' then
      var b := DigitRun(s, j + a + 1);
      if b > 0 && j + a + 1 + b < |s| && s[j + a + 1 + b] == ')' then
        assert SeedLayout(s, j, j + a, j + a + b + 2);
        Some(j + a + b + 2)
      else None
    else None
  }

  /** The two runs of digits of a layout are the greedy runs, stopped by the comma and the parenthesis. */
  lemma SeedLayoutFound(s: string, j: nat)
    ensures forall c: nat, x: nat :: SeedLayout(s, j, c, x) ==>
      DigitRun(s, j) == c - j && DigitRun(s, c + 1) == x - 1 - (c + 1)
  {
    forall c: nat, x: nat | SeedLayout(s, j, c, x)
      ensures DigitRun(s, j) == c - j && DigitRun(s, c + 1) == x - 1 - (c + 1)
    {
      DigitRunIs(s, j, c - j);
      DigitRunIs(s, c + 1, x - 1 - (c + 1));
    }
  }

  /** `s[i..x]` reads the head `h`, up to case, then `\d+,\d+\)` with its comma at `c`. */
  predicate IdentityLayout(h: string, s: string, i: nat, c: nat, x: nat)
  {
    CiAt(s, i, h) && SeedLayout(s, i + |h|, c, x)
  }

  /** `(?i)H\d+,\d+\)` where the head `H` ends in `(`, such as `INT IDENTITY(`. */
  function MatchIdentity(h: Literal, s: string, i: nat): (m: Option<Match>)
    requires i <= |s|
    ensures m.Some? ==> i + |h| + 4 <= m.value.end <= |s|
    ensures m.Some? ==> CiAt(s, i, h) && s[m.value.end - 1] == ')' && m.value.groups == []
    ensures m.Some? ==> exists c: nat :: IdentityLayout(h, s, i, c, m.value.end)
    ensures forall c: nat, x: nat :: IdentityLayout(h, s, i, c, x) ==> m == Some(Match(x, []))
  {
    if CiAt(s, i, h) then
      var e := SeedAndIncrement(s, i + |h|);
      if e.Some? then
        IdentityWitness(h, s, i, i + |h|, e.value);
        Some(Match(e.value, []))
      else None
    else None
  }

  /** A seed and increment after the head make an identity layout. */
  lemma IdentityWitness(h: string, s: string, i: nat, j: nat, x: nat)
    requires j == i + |h| && CiAt(s, i, h) && exists c: nat :: SeedLayout(s, j, c, x)
    ensures exists c: nat :: IdentityLayout(h, s, i, c, x)
  {
    var c: nat :| SeedLayout(s, j, c, x);
    assert IdentityLayout(h, s, i, c, x);
  }

  /** `(?i)W;?`: the literal and at most one semicolon right after it, taken when it is there. */
  function MatchSetting(w: Literal, s: string, i: nat): (m: Option<Match>)
    ensures m.Some? <==> i + |w| <= |s| && UpperStr(s[i..i + |w|]) == UpperStr(w)
    ensures m.Some? ==> m.value.groups == [] && i + |w| <= m.value.end <= i + |w| + 1
    ensures m.Some? ==> (m.value.end == i + |w| + 1 <==> i + |w| < |s| && s[i + |w|] == ';')
  {
    CiAtSlice(s, i, w);
    var j := i + |w|;
    if CiAt(s, i, w) then Some(Match(if j < |s| && s[j] == ';' then j + 1 else j, [])) else None
  }

  /**
   * `\[dbo\]\.\[?(\w+)\]?`, case-sensitive.  The optional `[` is taken
   * when it is there, the name is the longest run of word characters after
   * it, and a `]` right after the name is taken as well.
   */
  function MatchDbo(s: string, i: nat): (m: Option<Match>)
    requires i <= |s|
    ensures m.Some? ==> i < m.value.end <= |s|
    ensures m.Some? ==> ExactAt(s, i, DboHead) && |m.value.groups| == 1
    ensures m.Some? ==> var g := m.value.groups[0];
      |g| > 0 && AllWordChars(g) && i + 6 + |g| <= m.value.end <= i + 8 + |g| <= |s| + 2
    ensures var j := if i + 6 < |s| && s[i + 6] == '[' then i + 7 else i + 6;
      m.Some? <==> ExactAt(s, i, DboHead) && j < |s| && IsWordChar(s[j])
    ensures m.Some? ==> var j := if i + 6 < |s| && s[i + 6] == '[' then i + 7 else i + 6;
      var g := m.value.groups[0]; var k := j + |g|;
      k <= |s| && g == s[j..k] && (k == |s| || !IsWordChar(s[k]))
      && m.value.end == if k < |s| && s[k] == ']' then k + 1 else k
  {
    if ExactAt(s, i, DboHead) then
      DboWord(s, if i + 6 < |s| && s[i + 6] == '[' then i + 7 else i + 6)
    else None
  }

  /** `(\w+)\]?` at `j`: the name after `[dbo].` and its optional closing bracket. */
  function DboWord(s: string, j: nat): Option<Match>
    requires j <= |s|
  {
    var n := WordRun(s, j);
    if n == 0 then None
    else Some(Match(if j + n < |s| && s[j + n] == ']' then j + n + 1 else j + n, [s[j..j + n]]))
  }

  /** `\[(.*?)\]`: the nearest `]` on the same line. */
  function MatchBracket(s: string, i: nat): (m: Option<Match>)
    requires i <= |s|
    ensures m.Some? ==> i < m.value.end <= |s|
    ensures m.Some? ==> i < |s| && s[i] == '[' && s[m.value.end - 1] == ']'
    ensures m.Some? ==> m.value.groups == [s[i + 1..m.value.end - 1]]
    ensures m.Some? ==> forall t :: i < t < m.value.end - 1 ==> s[t] != ']' && s[t] != '\n'
    ensures m.None? && i < |s| && s[i] == '[' ==>
      forall t :: i < t < |s| && s[t] == ']' ==> exists u :: i < u < t && s[u] == '\n'
  {
    if i < |s| && s[i] == '[' then
      match CloseBracket(s, i + 1)
      case Some(k) => Some(Match(k + 1, [s[i + 1..k]]))
      case None => None
    else None
  }

  /** `` `(W)` ``, case-sensitive: the literal between two backticks. */
  function MatchQuoted(w: Literal, s: string, i: nat): (m: Option<Match>)
    ensures m.Some? <==> i + |w| + 2 <= |s| && s[i..i + |w| + 2] == "`" + w + "`"
    ensures m.Some? ==> m.value == Match(i + |w| + 2, [w])
  {
    QuotedSlice(w, s, i);
    if i + |w| + 1 < |s| && s[i] == '`' && ExactAt(s, i + 1, w) && s[i + |w| + 1] == '`' then
      Some(Match(i + |w| + 2, [w]))
    else None
  }

  /** The window `` `w` `` at `i`, character by character. */
  lemma QuotedSlice(w: string, s: string, i: nat)
    ensures (i + |w| + 1 < |s| && s[i] == '`' && ExactAt(s, i + 1, w) && s[i + |w| + 1] == '`')
      <==> (i + |w| + 2 <= |s| && s[i..i + |w| + 2] == "`" + w + "`")
  {
    if i + |w| + 2 <= |s| {
      var x := s[i..i + |w| + 2];
      assert x[0] == s[i] && x[|w| + 1] == s[i + |w| + 1];
      SliceOfSlice(s, i, |w| + 2, 1, |w| + 1);
      if x == "`" + w + "`" {
        assert x[1..|w| + 1] == w;
      }
      if s[i] == '`' && ExactAt(s, i + 1, w) && s[i + |w| + 1] == '`' {
        assert x == [x[0]] + x[1..|w| + 1] + [x[|w| + 1]];
      }
    }
  }

  /** `s[i..q + 1]` is a non-empty run of word characters between two backticks. */
  predicate QuotedWordAt(s: string, i: nat, q: nat)
  {
    i + 1 < q < |s| && s[i] == '`' && s[q] == '`' && AllWordChars(s[i + 1..q])
  }

  /** `` `\w+` `` at `i`: where its closing backtick stands, if it matches. */
  function QuotedWord(s: string, i: nat): (p: Option<nat>)
    requires i <= |s|
    ensures p.Some? ==> QuotedWordAt(s, i, p.value)
  {
    if i < |s| && s[i] == '`' then
      var a := WordRun(s, i + 1);
      if a > 0 && i + 1 + a < |s| && s[i + 1 + a] == '`' then Some(i + 1 + a) else None
    else None
  }

  /** Conversely, a quoted word at `i` is what `QuotedWord` finds there. */
  lemma QuotedWordFinds(s: string, i: nat, q: nat)
    requires QuotedWordAt(s, i, q)
    ensures QuotedWord(s, i) == Some(q)
  {
    WordRunIs(s, i + 1, q - (i + 1));
  }

  /**
   * `` `a` `` from `i` to the backtick at `p`, whitespace, and `` `b` `` from
   * the backtick at `q` to the one at `t`, with `a` and `b` non-empty runs of
   * word characters.
   */
  predicate PairLayout(s: string, i: nat, p: nat, q: nat, t: nat)
  {
    p + 1 < q
    && QuotedWordAt(s, i, p) && Blank(s, p + 1, q) && QuotedWordAt(s, q, t)
  }

  /**
   * `m` is a match of `` `(\w+)`\s+`(\w+)` `` at `i`: two captured words, the
   * text from `i` to `m.end` being the first one in backticks, whitespace, and
   * the second one in backticks.
   */
  predicate PairShaped(s: string, i: nat, m: Match)
  {
    |m.groups| == 2 &&
    var a := m.groups[0]; var b := m.groups[1]; var e := m.end;
    i + |a| + |b| + 5 <= e <= |s| && |a| > 0 && |b| > 0
    && PairLayout(s, i, i + 1 + |a|, e - |b| - 2, e - 1)
    && a == s[i + 1..i + 1 + |a|] && b == s[e - |b| - 1..e - 1]
  }

  /** `` `(\w+)`\s+`(\w+)` ``: two quoted words separated by whitespace. */
  function MatchQuotedPair(s: string, i: nat): (m: Option<Match>)
    requires i <= |s|
    ensures m.Some? ==> PairShaped(s, i, m.value)
  {
    match QuotedWord(s, i)
    case None => None
    case Some(p) =>
      PairAfterShaped(s, i, p);
      PairAfter(s, i, p)
  }

  /** The rest of the pair once the first quoted word ends at `p`. */
  function PairAfter(s: string, i: nat, p: nat): Option<Match>
    requires QuotedWordAt(s, i, p)
  {
    var q := SpaceEnd(s, p + 1);
    if q == p + 1 then None
    else
      match QuotedWord(s, q)
      case None => None
      case Some(t) => Some(PairMatch(s, i, p, q, t))
  }

  /** What `PairAfter` finds completes a pair layout. */
  lemma PairAfterShaped(s: string, i: nat, p: nat)
    requires QuotedWordAt(s, i, p)
    ensures PairAfter(s, i, p).Some? ==> PairShaped(s, i, PairAfter(s, i, p).value)
  {
    var q := SpaceEnd(s, p + 1);
    if q != p + 1 && QuotedWord(s, q).Some? {
      PairMatchShape(s, i, p, q, QuotedWord(s, q).value);
    }
  }

  /** The match of a pair layout has the shape the matcher promises. */
  lemma PairMatchShape(s: string, i: nat, p: nat, q: nat, t: nat)
    requires PairLayout(s, i, p, q, t)
    ensures PairShaped(s, i, PairMatch(s, i, p, q, t))
  {
  }

  /** The match of a pair layout: it ends after the last backtick and captures the two words. */
  function PairMatch(s: string, i: nat, p: nat, q: nat, t: nat): Match
    requires i < p <= q < t <= |s|
  {
    Match(t + 1, [s[i + 1..p], s[q + 1..t]])
  }

  /** Conversely, every pair layout at `i` is matched, up to its last backtick, with its two words captured. */
  lemma PairFinds(s: string, i: nat, p: nat, q: nat, t: nat)
    requires PairLayout(s, i, p, q, t)
    ensures MatchQuotedPair(s, i) == Some(Match(t + 1, [s[i + 1..p], s[q + 1..t]]))
  {
    PairFacts(s, i, p, q, t);
    PairCore(s, i, p, q, t);
  }

  /** Unfolding the matcher once the three parts are known. */
  lemma PairCore(s: string, i: nat, p: nat, q: nat, t: nat)
    requires i < p <= q < t < |s|
    requires QuotedWord(s, i) == Some(p) && SpaceEnd(s, p + 1) == q && q != p + 1 && QuotedWord(s, q) == Some(t)
    ensures MatchQuotedPair(s, i) == Some(PairMatch(s, i, p, q, t))
  {
  }

  /** In a pair layout the quoted words and the whitespace between them are the ones the matcher finds. */
  lemma PairFacts(s: string, i: nat, p: nat, q: nat, t: nat)
    requires PairLayout(s, i, p, q, t)
    ensures i < p <= q < t < |s|
    ensures QuotedWord(s, i) == Some(p) && SpaceEnd(s, p + 1) == q && q != p + 1 && QuotedWord(s, q) == Some(t)
  {
    SpaceEndIs(s, p + 1, q);
    QuotedWordFinds(s, i, p);
    QuotedWordFinds(s, q, t);
  }

  /**
   * `(?im)^GO\s*$`: `GO` at the start of a line, then only whitespace up to
   * a line end.  The greedy `\s*` makes the match end at the last line end
   * that the whitespace after `GO` reaches.
   */
  function MatchGo(s: string, i: nat): (m: Option<Match>)
    requires i <= |s|
    ensures m.Some? ==> i < m.value.end <= |s|
    ensures m.Some? ==> (i == 0 || s[i - 1] == '\n') && CiAt(s, i, "GO")
    ensures m.Some? ==> m.value.groups == [] && LineEnd(s, m.value.end) && Blank(s, i + 2, m.value.end)
    ensures m.Some? ==> forall t :: m.value.end < t && Blank(s, i + 2, t) ==> !LineEnd(s, t)
    ensures forall t :: ((i == 0 || s[i - 1] == '\n') && CiAt(s, i, "GO") && i + 2 <= t
      && Blank(s, i + 2, t) && LineEnd(s, t)) ==> m.Some?
  {
    if (i == 0 || s[i - 1] == '\n') && CiAt(s, i, "GO") then
      SpaceRunCovers(s, i + 2);
      BlankToLineEnd(s, i + 2)
    else None
  }

  /** `\s*$` (multi-line) at `j`: whitespace up to the last line end it reaches. */
  function BlankToLineEnd(s: string, j: nat): Option<Match>
    requires j <= |s|
  {
    match LineEndBack(s, j, j + SpaceRun(s, j))
    case Some(e) => Some(Match(e, []))
    case None => None
  }

  /** What the pattern matches when tried at position `i` of `s`. */
  function MatchAt(p: Pattern, s: string, i: nat): (m: Option<Match>)
    requires i <= |s|
    ensures m.Some? ==> i < m.value.end <= |s|
  {
    match p
    case Word(w) => MatchWord(w, s, i)
    case Numbered(h) => MatchNumbered(h, s, i)
    case Identity(h) => MatchIdentity(h, s, i)
    case Setting(w) => MatchSetting(w, s, i)
    case DboName => MatchDbo(s, i)
    case Bracketed => MatchBracket(s, i)
    case Quoted(w) => MatchQuoted(w, s, i)
    case QuotedPair => MatchQuotedPair(s, i)
    case GoLine => MatchGo(s, i)
  }

  /** The replacement text for one match: literal pieces and group references. */
  function Expand(t: Template, groups: seq<string>): string
  {
    if t == [] then []
    else
      var head := match t[0]
        case Chars(x) => x
        case Group(n) => if 1 <= n <= |groups| then groups[n - 1] else [];
      head + Expand(t[1..], groups)
  }

  /**
   * A table of what a pattern matches at each position, such as `Matches`
   * builds: every match ends after its start and within the text.
   */
  predicate Advances(s: string, ms: seq<Option<Match>>)
  {
    |ms| == |s| && forall j :: 0 <= j < |s| && ms[j].Some? ==> j < ms[j].value.end <= |s|
  }

  /** What `p` matches when tried at each position of `s`. */
  function Matches(p: Pattern, s: string): (ms: seq<Option<Match>>)
    ensures |ms| == |s|
    ensures Advances(s, ms)
  {
    seq(|s|, j requires 0 <= j < |s| => MatchAt(p, s, j))
  }

  /**
   * The scan of `re.sub` from position `i` on: where the table has a match,
   * emit the expanded template and resume after the match; elsewhere copy
   * one character.
   */
  function Scan(t: Template, s: string, ms: seq<Option<Match>>, i: nat): string
    requires Advances(s, ms) && i <= |s|
    decreases |s| - i
  {
    if i == |s| then []
    else match ms[i]
      case Some(m) => Expand(t, m.groups) + Scan(t, s, ms, m.end)
      case None => [s[i]] + Scan(t, s, ms, i + 1)
  }

  /** `re.sub(pattern, template, s)` with no count limit. */
  function Sub(r: Rule, s: string): string
  {
    Scan(r.template, s, Matches(r.pattern, s), 0)
  }
}
