/**
 * Facts about `Regex.Sub` that hold for every rule: where a match can start,
 * how a stretch without matches is copied, and where each character of the
 * output comes from when the replacement is one literal.
 */
module SubFacts {
  import opened Text
  import opened Regex

  /** A literal that every match of `p` begins with, up to ASCII case. */
  function Lead(p: Pattern): Literal
  {
    match p
    case Word(w) => w
    case Numbered(h) => h
    case Identity(h) => h
    case Setting(w) => w
    case DboName => "[dbo]."
    case Bracketed => "["
    case Quoted(_) => "`"
    case QuotedPair => "`"
    case GoLine => "GO"
  }

  /** `w` occurs, ignoring ASCII case, at some position in `lo .. hi - 1` of `s`. */
  predicate Occurs(w: string, s: string, lo: nat, hi: nat)
    decreases hi - lo
  {
    lo < hi && (CiAt(s, lo, w) || Occurs(w, s, lo + 1, hi))
  }

  lemma {:induction false} NotOccursAt(w: string, s: string, lo: nat, hi: nat, j: nat)
    requires !Occurs(w, s, lo, hi) && lo <= j < hi
    ensures !CiAt(s, j, w)
    decreases j - lo
  {
    if j > lo {
      NotOccursAt(w, s, lo + 1, hi, j);
    }
  }

  lemma {:induction false} ExactIsCi(s: string, i: nat, w: string)
    requires ExactAt(s, i, w)
    ensures CiAt(s, i, w)
    decreases |w|
  {
    if w != [] {
      assert s[i] == s[i..i + |w|][0];
      assert s[i + 1..i + 1 + |w[1..]|] == s[i..i + |w|][1..];
      ExactIsCi(s, i + 1, w[1..]);
    }
  }

  /** Every match of `p` starts with `Lead(p)`. */
  lemma MatchHasLead(p: Pattern, s: string, i: nat)
    requires i <= |s|
    ensures MatchAt(p, s, i).Some? ==> CiAt(s, i, Lead(p))
  {
    match p
    case Word(w) =>
    case Numbered(h) =>
    case Identity(h) =>
    case Setting(w) =>
    case DboName =>
      if MatchDbo(s, i).Some? {
        ExactIsCi(s, i, DboHead);
      }
    case Bracketed =>
      if MatchBracket(s, i).Some? {
        assert s[i..i + 1] == "[";
        ExactIsCi(s, i, "[");
      }
    case Quoted(w) =>
      if MatchQuoted(w, s, i).Some? {
        assert s[i..i + 1] == "`";
        ExactIsCi(s, i, "`");
      }
    case QuotedPair =>
      if MatchQuotedPair(s, i).Some? {
        assert s[i..i + 1] == "`";
        ExactIsCi(s, i, "`");
      }
    case GoLine =>
  }

  /** Where the lead does not occur, the pattern does not match. */
  lemma NoLeadNoMatch(p: Pattern, s: string, lo: nat, hi: nat)
    requires lo <= hi <= |s| && !Occurs(Lead(p), s, lo, hi)
    ensures forall j :: lo <= j < hi ==> MatchAt(p, s, j).None?
  {
    forall j | lo <= j < hi
      ensures MatchAt(p, s, j).None?
    {
      NotOccursAt(Lead(p), s, lo, hi, j);
      MatchHasLead(p, s, j);
    }
  }

  /** No match at `i`: the character is copied and the scan moves on. */
  lemma ScanNoMatch(t: Template, s: string, ms: seq<Option<Match>>, i: nat)
    requires Advances(s, ms) && i < |s| && ms[i].None?
    ensures Scan(t, s, ms, i) == [s[i]] + Scan(t, s, ms, i + 1)
  {
  }

  /** A match at `i`: its replacement, then the scan resumes after it. */
  lemma ScanMatch(t: Template, s: string, ms: seq<Option<Match>>, i: nat)
    requires Advances(s, ms) && i < |s| && ms[i].Some?
    ensures Scan(t, s, ms, i) == Expand(t, ms[i].value.groups) + Scan(t, s, ms, ms[i].value.end)
  {
  }

  /** With a literal replacement, a match contributes exactly that literal. */
  lemma ScanFixedMatch(x: string, s: string, ms: seq<Option<Match>>, i: nat)
    requires Advances(s, ms) && i < |s| && ms[i].Some?
    ensures Scan([Chars(x)], s, ms, i) == x + Scan([Chars(x)], s, ms, ms[i].value.end)
  {
    ScanMatch([Chars(x)], s, ms, i);
    assert Expand([Chars(x)], ms[i].value.groups) == x;
  }

  /** A stretch where no match starts is copied unchanged. */
  lemma {:induction false} ScanCopies(t: Template, s: string, ms: seq<Option<Match>>, i: nat, n: nat)
    requires Advances(s, ms) && i <= n <= |s|
    requires forall j :: i <= j < n ==> ms[j].None?
    ensures Scan(t, s, ms, i) == s[i..n] + Scan(t, s, ms, n)
    decreases n - i
  {
    if i < n {
      var rest := Scan(t, s, ms, n);
      ScanNoMatch(t, s, ms, i);
      ScanCopies(t, s, ms, i + 1, n);
      ConsSlice(s, i, n, rest);
    }
  }

  lemma ConsSlice(s: string, i: nat, n: nat, rest: string)
    requires i < n <= |s|
    ensures [s[i]] + (s[i + 1..n] + rest) == s[i..n] + rest
  {
    assert [s[i]] + s[i + 1..n] == s[i..n];
  }

  /** The scan of a rule copies a stretch in which the rule's lead does not occur. */
  lemma SubSkips(r: Rule, s: string, i: nat, n: nat)
    requires i <= n <= |s| && !Occurs(Lead(r.pattern), s, i, n)
    ensures Scan(r.template, s, Matches(r.pattern, s), i)
      == s[i..n] + Scan(r.template, s, Matches(r.pattern, s), n)
  {
    NoLeadNoMatch(r.pattern, s, i, n);
    ScanCopies(r.template, s, Matches(r.pattern, s), i, n);
  }

  /** A text in which the rule's lead does not occur comes back unchanged. */
  lemma SubUnchanged(r: Rule, s: string)
    requires !Occurs(Lead(r.pattern), s, 0, |s|)
    ensures Sub(r, s) == s
  {
    SubSkips(r, s, 0, |s|);
  }

  /** A text in which the pattern matches nowhere comes back unchanged. */
  lemma NoMatchUnchanged(r: Rule, s: string)
    requires forall j :: 0 <= j < |s| ==> MatchAt(r.pattern, s, j).None?
    ensures Sub(r, s) == s
  {
    ScanCopies(r.template, s, Matches(r.pattern, s), 0, |s|);
    assert s[0..|s|] == s;
  }

  /** A scan whose table holds one match, at `j`, changes the text there only. */
  lemma ScanOnce(t: Template, s: string, ms: seq<Option<Match>>, j: nat)
    requires Advances(s, ms) && j < |s| && ms[j].Some?
    requires forall k :: 0 <= k < j ==> ms[k].None?
    requires forall k :: ms[j].value.end <= k < |s| ==> ms[k].None?
    ensures Scan(t, s, ms, 0) == s[..j] + Expand(t, ms[j].value.groups) + s[ms[j].value.end..]
  {
    var e := ms[j].value.end;
    ScanCopies(t, s, ms, 0, j);
    ScanMatch(t, s, ms, j);
    ScanCopies(t, s, ms, e, |s|);
    assert s[0..j] == s[..j];
    assert s[e..|s|] == s[e..];
  }

  /**
   * A text in which the rule's lead occurs before `j` nowhere, and after the
   * match found at `j` nowhere either, changes at that one match.
   */
  lemma SubOnce(r: Rule, s: string, j: nat)
    requires j < |s| && !Occurs(Lead(r.pattern), s, 0, j) && MatchAt(r.pattern, s, j).Some?
    requires !Occurs(Lead(r.pattern), s, MatchAt(r.pattern, s, j).value.end, |s|)
    ensures var m := MatchAt(r.pattern, s, j).value;
      Sub(r, s) == s[..j] + Expand(r.template, m.groups) + s[m.end..]
  {
    var ms := Matches(r.pattern, s);
    NoLeadNoMatch(r.pattern, s, 0, j);
    NoLeadNoMatch(r.pattern, s, ms[j].value.end, |s|);
    ScanOnce(r.template, s, ms, j);
  }

  /**
   * A scan leaves the text alone from `i` on when every match the table
   * holds there would be replaced by the very text it covers.
   */
  lemma {:induction false} ScanSelfReplacing(t: Template, s: string, ms: seq<Option<Match>>, i: nat)
    requires Advances(s, ms) && i <= |s|
    requires forall j :: i <= j < |s| && ms[j].Some? ==>
      Expand(t, ms[j].value.groups) == s[j..ms[j].value.end]
    ensures Scan(t, s, ms, i) == s[i..]
    decreases |s| - i
  {
    if i < |s| {
      if ms[i].Some? {
        var e := ms[i].value.end;
        ScanMatch(t, s, ms, i);
        ScanSelfReplacing(t, s, ms, e);
        assert s[i..] == s[i..e] + s[e..];
      } else {
        ScanNoMatch(t, s, ms, i);
        ScanSelfReplacing(t, s, ms, i + 1);
        assert s[i..] == [s[i]] + s[i + 1..];
      }
    }
  }

  /**
   * When every replacement is the literal `x`, output whose first `n`
   * characters all differ from `x[0]` was copied from the input: the same
   * characters, from positions where the table holds no match.
   */
  lemma {:induction false} CopiedPrefix(x: string, s: string, ms: seq<Option<Match>>, j: nat, n: nat)
    requires Advances(s, ms) && j <= |s| && |x| > 0
    requires n <= |Scan([Chars(x)], s, ms, j)|
    requires forall k :: 0 <= k < n ==> Scan([Chars(x)], s, ms, j)[k] != x[0]
    ensures j + n <= |s|
    ensures Scan([Chars(x)], s, ms, j)[..n] == s[j..j + n]
    ensures forall t :: j <= t < j + n ==> ms[t].None?
    decreases n
  {
    if n > 0 {
      assert j < |s|;
      assert Scan([Chars(x)], s, ms, j)[0] != x[0];
      if ms[j].Some? {
        ScanFixedMatch(x, s, ms, j);
        assert false;
      }
      var o := Scan([Chars(x)], s, ms, j);
      ScanNoMatch([Chars(x)], s, ms, j);
      TailAvoids(o, s[j], Scan([Chars(x)], s, ms, j + 1), x[0], n);
      CopiedPrefix(x, s, ms, j + 1, n - 1);
      CopiedCons(x, s, ms, j, n);
    }
  }

  /** The same from a position where the table holds no match, whatever the first character. */
  lemma CopiedFrom(x: string, s: string, ms: seq<Option<Match>>, i: nat, n: nat)
    requires Advances(s, ms) && i < |s| && |x| > 0
    requires ms[i].None? && 0 < n <= |Scan([Chars(x)], s, ms, i)|
    requires forall k :: 1 <= k < n ==> Scan([Chars(x)], s, ms, i)[k] != x[0]
    ensures i + n <= |s|
    ensures Scan([Chars(x)], s, ms, i)[..n] == s[i..i + n]
    ensures forall t :: i <= t < i + n ==> ms[t].None?
  {
    var o := Scan([Chars(x)], s, ms, i);
    ScanNoMatch([Chars(x)], s, ms, i);
    TailAvoids(o, s[i], Scan([Chars(x)], s, ms, i + 1), x[0], n);
    CopiedPrefix(x, s, ms, i + 1, n - 1);
    CopiedCons(x, s, ms, i, n);
  }

  /** One copied character in front of a copied stretch. */
  lemma CopiedCons(x: string, s: string, ms: seq<Option<Match>>, i: nat, n: nat)
    requires Advances(s, ms) && i < |s| && ms[i].None? && 0 < n
    requires i + n <= |s| && n - 1 <= |Scan([Chars(x)], s, ms, i + 1)|
    requires Scan([Chars(x)], s, ms, i + 1)[..n - 1] == s[i + 1..i + n]
    requires forall t :: i + 1 <= t < i + 1 + (n - 1) ==> ms[t].None?
    ensures Scan([Chars(x)], s, ms, i)[..n] == s[i..i + n]
    ensures forall t :: i <= t < i + n ==> ms[t].None?
  {
    ScanNoMatch([Chars(x)], s, ms, i);
    ConsPrefix(s, i, Scan([Chars(x)], s, ms, i + 1), n);
    NoneFrom(ms, i, n);
  }

  /** No match at `i` and none in the `n - 1` positions after it: none in the `n` positions from `i`. */
  lemma NoneFrom(ms: seq<Option<Match>>, i: nat, n: nat)
    requires 0 < n && i + n <= |ms| && ms[i].None?
    requires forall t :: i + 1 <= t < i + 1 + (n - 1) ==> ms[t].None?
    ensures forall t :: i <= t < i + n ==> ms[t].None?
  {
    forall t | i <= t < i + n
      ensures ms[t].None?
    {
      if t > i {
        assert i + 1 <= t < i + 1 + (n - 1);
      }
    }
  }

  /** What `[c] + o'` avoids after its first character, `o'` avoids from its start. */
  lemma TailAvoids(o: string, c: char, o': string, y: char, n: nat)
    requires o == [c] + o' && 0 < n <= |o|
    requires forall k :: 1 <= k < n ==> o[k] != y
    ensures forall k :: 0 <= k < n - 1 ==> o'[k] != y
  {
    forall k | 0 <= k < n - 1
      ensures o'[k] != y
    {
      assert o[k + 1] == o'[k];
    }
  }

  /** `CiAt` in a concatenation, at a position inside its second part. */
  lemma {:induction false} CiAtShift(a: string, b: string, j: nat, w: string)
    ensures CiAt(a + b, |a| + j, w) <==> CiAt(b, j, w)
    decreases |w|
  {
    if w != [] {
      CiAtShift(a, b, j + 1, w[1..]);
      if j < |b| {
        assert (a + b)[|a| + j] == b[j];
      }
    }
  }

  /** The part of `v` that fits after position `q` of `x` agrees with `x`, up to case. */
  predicate Overlaps(x: string, q: nat, v: string)
    decreases |v|
  {
    v == [] || q >= |x| || (Upper(x[q]) == Upper(v[0]) && Overlaps(x, q + 1, v[1..]))
  }

  /** `v` overlaps `x` at some position in `q .. |x| - 1`. */
  predicate OverlapsFrom(x: string, q: nat, v: string)
    decreases |x| - q
  {
    q < |x| && (Overlaps(x, q, v) || OverlapsFrom(x, q + 1, v))
  }

  lemma {:induction false} NotOverlapsFrom(x: string, q: nat, v: string, p: nat)
    requires !OverlapsFrom(x, q, v) && q <= p < |x|
    ensures !Overlaps(x, p, v)
    decreases p - q
  {
    if p > q {
      NotOverlapsFrom(x, q + 1, v, p);
    }
  }

  /** An occurrence starting inside the first part of `x + o` overlaps `x`. */
  lemma {:induction false} CiAtInPrefix(x: string, o: string, p: nat, v: string)
    requires p < |x| && CiAt(x + o, p, v)
    ensures Overlaps(x, p, v)
    decreases |v|
  {
    if v != [] && p + 1 < |x| {
      CiAtInPrefix(x, o, p + 1, v[1..]);
    }
  }

  /** No character of `u` from position `k` on folds to the same letter as `c`. */
  predicate AvoidsFrom(u: string, k: nat, c: char)
    decreases |u| - k
  {
    k >= |u| || (Upper(u[k]) != Upper(c) && AvoidsFrom(u, k + 1, c))
  }

  lemma {:induction false} AvoidsAt(u: string, k: nat, c: char, t: nat)
    requires AvoidsFrom(u, k, c) && k <= t < |u|
    ensures Upper(u[t]) != Upper(c)
    decreases t - k
  {
    if t > k {
      AvoidsAt(u, k + 1, c, t);
    }
  }

  lemma ConsPrefix(s: string, i: nat, o: string, m: nat)
    requires 1 <= m && i + m <= |s| && m - 1 <= |o| && o[..m - 1] == s[i + 1..i + m]
    ensures ([s[i]] + o)[..m] == s[i..i + m]
  {
    assert ([s[i]] + o)[..m] == [s[i]] + o[..m - 1];
    assert s[i..i + m] == [s[i]] + s[i + 1..i + m];
  }

  /** Case-insensitive occurrence only looks at the window it covers. */
  lemma CiAtWindow(a: string, i: nat, b: string, j: nat, n: nat, d: nat, w: string)
    requires i + n <= |a| && j + n <= |b| && a[i..i + n] == b[j..j + n]
    requires d + |w| <= n && CiAt(a, i + d, w)
    ensures CiAt(b, j + d, w)
  {
    CiAtIff(a, i + d, w);
    CiAtIff(b, j + d, w);
    forall k | 0 <= k < |w|
      ensures Upper(b[j + d + k]) == Upper(w[k])
    {
      assert a[i..i + n][d + k] == b[j..j + n][d + k];
    }
  }

  /** An occurrence of `v` carries every occurrence inside `v` along with it. */
  lemma CiAtCompose(o: string, p: nat, v: string, t: nat, w: string)
    requires CiAt(o, p, v) && CiAt(v, t, w)
    ensures CiAt(o, p + t, w)
  {
    CiAtIff(o, p, v);
    CiAtIff(v, t, w);
    CiAtIff(o, p + t, w);
    forall k | 0 <= k < |w|
      ensures Upper(o[p + t + k]) == Upper(w[k])
    {
      assert Upper(o[p + (t + k)]) == Upper(v[t + k]);
    }
  }

  /** A text begins with its own prefix. */
  lemma CiAtOwnPrefix(s: string, n: nat)
    requires n <= |s|
    ensures CiAt(s, 0, s[..n])
  {
    CiAtIff(s, 0, s[..n]);
  }

  /** The template `P\1Q` with `d` as group 1 reads `P d Q`. */
  lemma ExpandGroupOne(p: string, q: string, d: string)
    ensures Expand([Chars(p), Group(1), Chars(q)], [d]) == p + d + q
  {
    var t := [Chars(p), Group(1), Chars(q)];
    assert t[1..] == [Group(1), Chars(q)] && t[1..][1..] == [Chars(q)] && t[1..][1..][1..] == [];
    assert Expand([Chars(q)], [d]) == q + Expand([], [d]) == q;
    assert Expand([Group(1), Chars(q)], [d]) == d + q;
  }
}
