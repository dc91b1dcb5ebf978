module Locality {
  import opened Text
  import opened Regex
  import opened SubFacts

  function Shifted(m: Option<Match>, n: nat): Option<Match>
  {
    if m.Some? then Some(Match(m.value.end + n, m.value.groups)) else None
  }

  function ShiftedPos(o: Option<nat>, n: nat): Option<nat>
  {
    if o.Some? then Some(o.value + n) else None
  }

  /** `b` is what `s` holds from position `n` on. */
  predicate Suffix(s: string, n: nat, b: string)
  {
    n + |b| == |s| && forall j :: 0 <= j < |b| ==> Agree(s, n, b, j)
  }

  /** Position `j` of `b` holds what position `n + j` of `s` holds. */
  predicate Agree(s: string, n: nat, b: string, j: nat)
  {
    j < |b| && n + j < |s| && b[j] == s[n + j]
  }

  lemma SuffixSlice(s: string, n: nat, b: string, x: nat, y: nat)
    requires Suffix(s, n, b) && x <= y <= |b|
    ensures b[x..y] == s[n + x..n + y]
  {
    forall j | 0 <= j < y - x
      ensures b[x..y][j] == s[n + x..n + y][j]
    {
      assert Agree(s, n, b, x + j);
    }
  }

  lemma DigitRunShift(s: string, n: nat, b: string, k: nat)
    requires Suffix(s, n, b) && k <= |b|
    ensures DigitRun(s, n + k) == DigitRun(b, k)
  {
    var d := DigitRun(b, k);
    SuffixSlice(s, n, b, k, k + d);
    if k + d < |b| {
      assert Agree(s, n, b, k + d);
    }
    DigitRunIs(s, n + k, d);
  }

  lemma {:induction false} CiAtSuffix(s: string, n: nat, b: string, k: nat, w: string)
    requires Suffix(s, n, b)
    ensures CiAt(s, n + k, w) <==> CiAt(b, k, w)
    decreases |w|
  {
    if w != [] {
      CiAtSuffix(s, n, b, k + 1, w[1..]);
      if k < |b| {
        assert Agree(s, n, b, k);
      }
    }
  }

  lemma WordRunShift(s: string, n: nat, b: string, k: nat)
    requires Suffix(s, n, b) && k <= |b|
    ensures WordRun(s, n + k) == WordRun(b, k)
  {
    var d := WordRun(b, k);
    SuffixSlice(s, n, b, k, k + d);
    if k + d < |b| {
      assert Agree(s, n, b, k + d);
    }
    WordRunIs(s, n + k, d);
  }

  lemma SpaceRunShift(s: string, n: nat, b: string, k: nat)
    requires Suffix(s, n, b) && k <= |b|
    ensures SpaceRun(s, n + k) == SpaceRun(b, k)
  {
    var d := SpaceRun(b, k);
    forall t | n + k <= t < n + k + d
      ensures IsSpace(s[t])
    {
      assert Agree(s, n, b, t - n);
    }
    if k + d < |b| {
      assert Agree(s, n, b, k + d);
    }
    SpaceRunIs(s, n + k, d);
  }

  lemma ExactAtShift(s: string, n: nat, b: string, k: nat, w: string)
    requires Suffix(s, n, b) && k <= |b|
    ensures ExactAt(s, n + k, w) <==> ExactAt(b, k, w)
  {
    if k + |w| <= |b| {
      SuffixSlice(s, n, b, k, k + |w|);
    }
  }

  lemma {:induction false} LineEndBackShift(s: string, n: nat, b: string, lo: nat, hi: nat)
    requires Suffix(s, n, b) && lo <= hi <= |b|
    ensures LineEndBack(s, n + lo, n + hi) == ShiftedPos(LineEndBack(b, lo, hi), n)
    decreases hi - lo
  {
    if hi < |b| {
      assert Agree(s, n, b, hi);
      if b[hi] != '\n' && hi > lo {
        LineEndBackShift(s, n, b, lo, hi - 1);
      }
    }
  }

  lemma SettingShift(w: Literal, s: string, n: nat, b: string, k: nat)
    requires Suffix(s, n, b) && k <= |b|
    ensures MatchSetting(w, s, n + k) == Shifted(MatchSetting(w, b, k), n)
  {
    CiAtSuffix(s, n, b, k, w);
    if k + |w| < |b| {
      assert Agree(s, n, b, k + |w|);
    }
  }

  lemma QuotedShift(w: Literal, s: string, n: nat, b: string, k: nat)
    requires Suffix(s, n, b) && k <= |b|
    ensures MatchQuoted(w, s, n + k) == Shifted(MatchQuoted(w, b, k), n)
  {
    if k + |w| + 1 < |b| {
      assert Agree(s, n, b, k);
      assert Agree(s, n, b, k + |w| + 1);
      ExactAtShift(s, n, b, k + 1, w);
    }
  }

  lemma DboShift(s: string, n: nat, b: string, k: nat)
    requires Suffix(s, n, b) && k <= |b|
    ensures MatchDbo(s, n + k) == Shifted(MatchDbo(b, k), n)
  {
    ExactAtShift(s, n, b, k, DboHead);
    if ExactAt(b, k, DboHead) {
      if k + 6 < |b| {
        assert Agree(s, n, b, k + 6);
      }
      DboWordShift(s, n, b, if k + 6 < |b| && b[k + 6] == '[' then k + 7 else k + 6);
    }
  }

  lemma DboWordShift(s: string, n: nat, b: string, j: nat)
    requires Suffix(s, n, b) && j <= |b|
    ensures DboWord(s, n + j) == Shifted(DboWord(b, j), n)
  {
    WordRunShift(s, n, b, j);
    var d := WordRun(b, j);
    SuffixSlice(s, n, b, j, j + d);
    if j + d < |b| {
      assert Agree(s, n, b, j + d);
    }
  }

  lemma GoShift(s: string, n: nat, b: string, k: nat)
    requires Suffix(s, n, b) && k <= |b| && (k > 0 || n == 0 || s[n - 1] == '\n' || !CiAt(b, 0, "GO"))
    ensures MatchGo(s, n + k) == Shifted(MatchGo(b, k), n)
  {
    if k > 0 {
      assert Agree(s, n, b, k - 1);
    }
    CiAtSuffix(s, n, b, k, "GO");
    if CiAt(b, k, "GO") {
      BlankToLineEndShift(s, n, b, k + 2);
    }
  }

  lemma BlankToLineEndShift(s: string, n: nat, b: string, j: nat)
    requires Suffix(s, n, b) && j <= |b|
    ensures BlankToLineEnd(s, n + j) == Shifted(BlankToLineEnd(b, j), n)
  {
    SpaceRunShift(s, n, b, j);
    LineEndBackShift(s, n, b, j, j + SpaceRun(b, j));
  }

  lemma SpaceEndShift(s: string, n: nat, b: string, k: nat)
    requires Suffix(s, n, b) && k <= |b|
    ensures SpaceEnd(s, n + k) == n + SpaceEnd(b, k)
  {
    SpaceRunShift(s, n, b, k);
  }

  lemma {:induction false} CloseBracketShift(s: string, n: nat, b: string, j: nat)
    requires Suffix(s, n, b) && j <= |b|
    ensures CloseBracket(s, n + j) == ShiftedPos(CloseBracket(b, j), n)
    decreases |b| - j
  {
    if j < |b| {
      assert Agree(s, n, b, j);
      if b[j] != '\n' && b[j] != ']' {
        CloseBracketShift(s, n, b, j + 1);
      }
    }
  }

  lemma QuotedWordAtShift(s: string, n: nat, b: string, k: nat, q: nat)
    requires Suffix(s, n, b) && k <= q
    ensures QuotedWordAt(s, n + k, n + q) <==> QuotedWordAt(b, k, q)
  {
    if q < |b| && k + 1 < q {
      assert Agree(s, n, b, k);
      assert Agree(s, n, b, q);
      SuffixSlice(s, n, b, k + 1, q);
    }
  }

  lemma QuotedWordShift(s: string, n: nat, b: string, k: nat)
    requires Suffix(s, n, b) && k <= |b|
    ensures QuotedWord(s, n + k) == ShiftedPos(QuotedWord(b, k), n)
  {
    var o := QuotedWord(b, k);
    if o.Some? {
      QuotedWordAtShift(s, n, b, k, o.value);
      QuotedWordFinds(s, n + k, n + o.value);
    } else if QuotedWord(s, n + k).Some? {
      var v := QuotedWord(s, n + k).value;
      QuotedWordAtShift(s, n, b, k, v - n);
      QuotedWordFinds(b, k, v - n);
    }
  }

  lemma SeedLayoutShift(s: string, n: nat, b: string, j: nat, c: nat, x: nat)
    requires Suffix(s, n, b) && j <= c <= x
    ensures SeedLayout(s, n + j, n + c, n + x) <==> SeedLayout(b, j, c, x)
  {
    if j < c && c + 2 < x && x <= |b| {
      assert Agree(s, n, b, c);
      assert Agree(s, n, b, x - 1);
      SuffixSlice(s, n, b, j, c);
      SuffixSlice(s, n, b, c + 1, x - 1);
    }
  }

  lemma SeedShift(s: string, n: nat, b: string, j: nat)
    requires Suffix(s, n, b) && j <= |b|
    ensures SeedAndIncrement(s, n + j) == ShiftedPos(SeedAndIncrement(b, j), n)
  {
    if SeedAndIncrement(b, j).Some? {
      SeedShiftFound(s, n, b, j);
    } else if SeedAndIncrement(s, n + j).Some? {
      SeedShiftBack(s, n, b, j);
    }
  }

  lemma SeedShiftFound(s: string, n: nat, b: string, j: nat)
    requires Suffix(s, n, b) && j <= |b| && SeedAndIncrement(b, j).Some?
    ensures SeedAndIncrement(s, n + j) == Some(n + SeedAndIncrement(b, j).value)
  {
    var x := SeedAndIncrement(b, j).value;
    var c: nat :| SeedLayout(b, j, c, x);
    SeedLayoutShift(s, n, b, j, c, x);
  }

  lemma SeedShiftBack(s: string, n: nat, b: string, j: nat)
    requires Suffix(s, n, b) && j <= |b| && SeedAndIncrement(s, n + j).Some?
    ensures SeedAndIncrement(b, j).Some?
  {
    var x := SeedAndIncrement(s, n + j).value;
    var c: nat :| SeedLayout(s, n + j, c, x);
    SeedLayoutShift(s, n, b, j, c - n, x - n);
    assert SeedLayout(b, j, c - n, x - n);
  }

  lemma WordShift(w: Literal, s: string, n: nat, b: string, k: nat)
    requires Suffix(s, n, b) && k <= |b|
    ensures MatchWord(w, s, n + k) == Shifted(MatchWord(w, b, k), n)
  {
    CiAtSuffix(s, n, b, k, w);
    CiAtSlice(s, n + k, w);
    CiAtSlice(b, k, w);
  }

  lemma NumberedShift(h: Literal, s: string, n: nat, b: string, k: nat)
    requires Suffix(s, n, b) && k <= |b|
    ensures MatchNumbered(h, s, n + k) == Shifted(MatchNumbered(h, b, k), n)
  {
    CiAtSuffix(s, n, b, k, h);
    if CiAt(b, k, h) {
      DigitsClosedShift(s, n, b, k + |h|);
    }
  }

  lemma DigitsClosedShift(s: string, n: nat, b: string, j: nat)
    requires Suffix(s, n, b) && j <= |b|
    ensures DigitsClosed(s, n + j) == Shifted(DigitsClosed(b, j), n)
  {
    DigitRunShift(s, n, b, j);
    var d := DigitRun(b, j);
    SuffixSlice(s, n, b, j, j + d);
    if j + d < |b| {
      assert Agree(s, n, b, j + d);
    }
  }

  lemma IdentityShift(h: Literal, s: string, n: nat, b: string, k: nat)
    requires Suffix(s, n, b) && k <= |b|
    ensures MatchIdentity(h, s, n + k) == Shifted(MatchIdentity(h, b, k), n)
  {
    CiAtSuffix(s, n, b, k, h);
    if CiAt(b, k, h) {
      SeedShift(s, n, b, k + |h|);
    }
    IdentityCore(h, s, n, b, k);
  }

  lemma IdentityCore(h: Literal, s: string, n: nat, b: string, k: nat)
    requires n + |b| == |s| && k <= |b|
    requires CiAt(s, n + k, h) <==> CiAt(b, k, h)
    requires CiAt(b, k, h) ==> SeedAndIncrement(s, n + k + |h|) == ShiftedPos(SeedAndIncrement(b, k + |h|), n)
    ensures MatchIdentity(h, s, n + k) == Shifted(MatchIdentity(h, b, k), n)
  {
  }

  lemma BracketShift(s: string, n: nat, b: string, k: nat)
    requires Suffix(s, n, b) && k <= |b|
    ensures MatchBracket(s, n + k) == Shifted(MatchBracket(b, k), n)
  {
    if k < |b| {
      assert Agree(s, n, b, k);
      CloseBracketShift(s, n, b, k + 1);
      var c := CloseBracket(b, k + 1);
      if c.Some? {
        SuffixSlice(s, n, b, k + 1, c.value);
      }
    }
  }

  lemma PairAfterShift(s: string, n: nat, b: string, k: nat, p: nat)
    requires Suffix(s, n, b) && QuotedWordAt(b, k, p)
    ensures QuotedWordAt(s, n + k, n + p)
    ensures PairAfter(s, n + k, n + p) == Shifted(PairAfter(b, k, p), n)
  {
    QuotedWordAtShift(s, n, b, k, p);
    SpaceEndShift(s, n, b, p + 1);
    var q := SpaceEnd(b, p + 1);
    QuotedWordShift(s, n, b, q);
    var t := QuotedWord(b, q);
    if q != p + 1 && t.Some? {
      PairMatchShift(s, n, b, k, p, q, t.value);
    }
  }

  lemma PairMatchShift(s: string, n: nat, b: string, i: nat, p: nat, q: nat, t: nat)
    requires Suffix(s, n, b) && i < p <= q < t <= |b|
    ensures PairMatch(s, n + i, n + p, n + q, n + t) == Shifted(Some(PairMatch(b, i, p, q, t)), n).value
  {
    SuffixSlice(s, n, b, i + 1, p);
    SuffixSlice(s, n, b, q + 1, t);
  }

  lemma QuotedPairShift(s: string, n: nat, b: string, k: nat)
    requires Suffix(s, n, b) && k <= |b|
    ensures MatchQuotedPair(s, n + k) == Shifted(MatchQuotedPair(b, k), n)
  {
    QuotedWordShift(s, n, b, k);
    var p := QuotedWord(b, k);
    if p.Some? {
      PairAfterShift(s, n, b, k, p.value);
    }
  }

  /**
   * Trying `p` at the start of `b` sees what it sees at `n` of `s`: only a
   * `GO` looks back, for the start of its line.
   */
  predicate StartKept(p: Pattern, s: string, n: nat, b: string)
  {
    !p.GoLine? || n == 0 || (n <= |s| && s[n - 1] == '\n') || !CiAt(b, 0, "GO")
  }

  lemma MatchAtShift(p: Pattern, s: string, n: nat, b: string, k: nat)
    requires Suffix(s, n, b) && k <= |b| && (k > 0 || StartKept(p, s, n, b))
    ensures MatchAt(p, s, n + k) == Shifted(MatchAt(p, b, k), n)
  {
    match p
    case Word(w) => WordShift(w, s, n, b, k);
    case Numbered(h) => NumberedShift(h, s, n, b, k);
    case Identity(h) => IdentityShift(h, s, n, b, k);
    case Setting(w) => SettingShift(w, s, n, b, k);
    case DboName => DboShift(s, n, b, k);
    case Bracketed => BracketShift(s, n, b, k);
    case Quoted(w) => QuotedShift(w, s, n, b, k);
    case QuotedPair => QuotedPairShift(s, n, b, k);
    case GoLine => GoShift(s, n, b, k);
  }

  /** Two tables that agree, up to the shift, give the same scan. */
  lemma {:induction false} ScanTablesShift(t: Template, s: string, ms: seq<Option<Match>>, n: nat,
                                           b: string, mb: seq<Option<Match>>, k: nat)
    requires Advances(s, ms) && Advances(b, mb) && Suffix(s, n, b) && k <= |b|
    requires forall j :: k <= j < |b| ==> ms[n + j] == Shifted(mb[j], n)
    ensures Scan(t, s, ms, n + k) == Scan(t, b, mb, k)
    decreases |b| - k
  {
    if k < |b| {
      assert ms[n + k] == Shifted(mb[k], n);
      if mb[k].Some? {
        var m := mb[k].value;
        ScanAt(t, s, ms, n + k, n + m.end, m.groups);
        ScanAt(t, b, mb, k, m.end, m.groups);
        ScanTablesShift(t, s, ms, n, b, mb, m.end);
      } else {
        ScanSkip(t, s, ms, n + k, n + (k + 1));
        ScanSkip(t, b, mb, k, k + 1);
        assert Agree(s, n, b, k);
        ScanTablesShift(t, s, ms, n, b, mb, k + 1);
      }
    }
  }

  /** `re.sub` over `s` from position `n` on is `re.sub` over the suffix `b` that starts there. */
  lemma ScanSuffix(r: Rule, s: string, n: nat, b: string)
    requires Suffix(s, n, b) && StartKept(r.pattern, s, n, b)
    ensures Scan(r.template, s, Matches(r.pattern, s), n) == Sub(r, b)
  {
    TablesShift(r.pattern, s, n, b);
    ScanTablesShift(r.template, s, Matches(r.pattern, s), n, b, Matches(r.pattern, b), 0);
  }

  /** The table of `s` from `n` on is the table of `b`, shifted. */
  lemma TablesShift(p: Pattern, s: string, n: nat, b: string)
    requires Suffix(s, n, b) && StartKept(p, s, n, b)
    ensures forall j :: 0 <= j < |b| ==> Matches(p, s)[n + j] == Shifted(Matches(p, b)[j], n)
  {
    forall j | 0 <= j < |b|
      ensures Matches(p, s)[n + j] == Shifted(Matches(p, b)[j], n)
    {
      TableShift(p, s, n, b, j);
    }
  }

  lemma TableShift(p: Pattern, s: string, n: nat, b: string, j: nat)
    requires Suffix(s, n, b) && j < |b| && (j > 0 || StartKept(p, s, n, b))
    ensures Matches(p, s)[n + j] == Shifted(Matches(p, b)[j], n)
  {
    assert n + j < |s| by { assert Agree(s, n, b, j); }
    assert Matches(p, s)[n + j] == MatchAt(p, s, n + j);
    assert Matches(p, b)[j] == MatchAt(p, b, j);
    MatchAtShift(p, s, n, b, j);
  }

  /** `b` is the suffix of `x + b` from `|x|` on. */
  lemma SuffixOfConcat(x: string, b: string)
    ensures Suffix(x + b, |x|, b)
  {
    forall j | 0 <= j < |b|
      ensures Agree(x + b, |x|, b, j)
    {
    }
  }

  /** No match of `p` starts in `s` before position `n`. */
  predicate NoMatchBefore(p: Pattern, s: string, n: nat)
  {
    n <= |s| && forall k :: 0 <= k < n ==> MatchAt(p, s, k).None?
  }

  /**
   * A text that starts with a stretch `a` in which no match starts is `a`
   * followed by `re.sub` over the rest.
   */
  lemma SubPrefix(r: Rule, a: string, b: string)
    requires NoMatchBefore(r.pattern, a + b, |a|)
    requires StartKept(r.pattern, a + b, |a|, b)
    ensures Sub(r, a + b) == a + Sub(r, b)
  {
    var s := a + b;
    var ms := Matches(r.pattern, s);
    assert forall j :: 0 <= j < |a| ==> ms[j] == MatchAt(r.pattern, s, j);
    ScanCopies(r.template, s, ms, 0, |a|);
    assert s[0..|a|] == a;
    SuffixOfConcat(a, b);
    ScanSuffix(r, s, |a|, b);
  }

  /** A text that starts with a match `d` is the expanded template followed by `re.sub` over the rest. */
  lemma SubHead(r: Rule, d: string, b: string, g: seq<string>)
    requires MatchAt(r.pattern, d + b, 0) == Some(Match(|d|, g))
    requires StartKept(r.pattern, d + b, |d|, b)
    ensures Sub(r, d + b) == Expand(r.template, g) + Sub(r, b)
  {
    var s := d + b;
    var ms := Matches(r.pattern, s);
    assert ms[0] == Some(Match(|d|, g));
    assert 0 < |s| && Advances(s, ms);
    ScanAt(r.template, s, ms, 0, |d|, g);
    SuffixOfConcat(d, b);
    ScanSuffix(r, s, |d|, b);
  }

  /**
   * A match `d` after a stretch `a` in which no match starts: the output
   * is `a`, the expanded template, and `re.sub` over what follows `d`.
   */
  lemma SubAround(r: Rule, a: string, d: string, b: string, g: seq<string>)
    requires NoMatchBefore(r.pattern, a + (d + b), |a|)
    requires StartKept(r.pattern, a + (d + b), |a|, d + b)
    requires MatchAt(r.pattern, d + b, 0) == Some(Match(|d|, g))
    requires StartKept(r.pattern, d + b, |d|, b)
    ensures Sub(r, a + d + b) == a + Expand(r.template, g) + Sub(r, b)
  {
    SubPrefix(r, a, d + b);
    SubHead(r, d, b, g);
    AppendAssoc(a, d, b);
    AppendAssoc(a, Expand(r.template, g), Sub(r, b));
  }

  /** A rule whose replacement is empty deletes the match `d` and keeps what comes before it. */
  lemma SubDeletes(r: Rule, a: string, d: string, b: string, g: seq<string>)
    requires r.template == []
    requires NoMatchBefore(r.pattern, a + (d + b), |a|)
    requires StartKept(r.pattern, a + (d + b), |a|, d + b)
    requires MatchAt(r.pattern, d + b, 0) == Some(Match(|d|, g))
    requires StartKept(r.pattern, d + b, |d|, b)
    ensures Sub(r, a + d + b) == a + Sub(r, b)
  {
    SubAround(r, a, d, b, g);
    assert Expand(r.template, g) == [];
    assert a + [] == a;
  }

  lemma ScanAt(t: Template, s: string, ms: seq<Option<Match>>, i: nat, j: nat, g: seq<string>)
    requires Advances(s, ms) && i < |s| && ms[i] == Some(Match(j, g))
    ensures Scan(t, s, ms, i) == Expand(t, g) + Scan(t, s, ms, j)
  {
    ScanMatch(t, s, ms, i);
  }

  lemma ScanSkip(t: Template, s: string, ms: seq<Option<Match>>, i: nat, j: nat)
    requires Advances(s, ms) && i < |s| && ms[i].None? && j == i + 1
    ensures Scan(t, s, ms, i) == [s[i]] + Scan(t, s, ms, j)
  {
    ScanNoMatch(t, s, ms, i);
  }

  lemma AppendAssoc(x: string, y: string, z: string)
    ensures x + (y + z) == x + y + z
  {
  }
}
