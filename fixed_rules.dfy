/**
 * Rules whose replacement is one literal `x`.  Every character of their
 * output is either part of an inserted `x` or a character copied from a
 * position where the rule did not match; the lemmas below use that to say
 * what can and cannot occur in the output.
 */
module FixedRules {
  import opened Text
  import opened Regex
  import opened SubFacts

  /** `v` occurs in `x + o` only where it occurs in `o`, when `v` overlaps `x` nowhere. */
  lemma NotInInserted(x: string, o: string, v: string)
    requires !OverlapsFrom(x, 0, v)
    requires forall p: nat :: !CiAt(o, p, v)
    ensures forall p: nat :: !CiAt(x + o, p, v)
  {
    forall p: nat
      ensures !CiAt(x + o, p, v)
    {
      if p < |x| {
        if CiAt(x + o, p, v) {
          CiAtInPrefix(x, o, p, v);
          NotOverlapsFrom(x, 0, v, p);
          assert false;
        }
      } else {
        CiAtShift(x, o, p - |x|, v);
      }
    }
  }

  /**
   * Where the `Word(w)` rule copies a character, the output does not start
   * an occurrence of `v` there: the whole of `v` would have been copied,
   * and the `w` inside it would have matched.
   */
  lemma NotAtCopied(w: Literal, x: string, v: string, t: nat, s: string, i: nat)
    requires i < |s| && |x| > 0 && 1 <= t && CiAt(v, t, w)
    requires AvoidsFrom(v, 1, x[0])
    requires MatchAt(Word(w), s, i).None?
    ensures !CiAt(Scan([Chars(x)], s, Matches(Word(w), s), i), 0, v)
  {
    var ms := Matches(Word(w), s);
    var o := Scan([Chars(x)], s, ms, i);
    if CiAt(o, 0, v) {
      CopiedWindow(x, s, ms, i, v);
      WindowHolds(o, s, i, v, t, w);
      WordFound(w, s, i + t);
      assert false;
    }
  }

  /** Where `w` occurs up to case, the `Word(w)` table has a match. */
  lemma WordFound(w: Literal, s: string, j: nat)
    requires CiAt(s, j, w)
    ensures j < |s| && Matches(Word(w), s)[j].Some?
  {
    assert Matches(Word(w), s)[j] == MatchWord(w, s, j);
    CiAtSlice(s, j, w);
  }

  /** An occurrence of `v` that the scan starts by copying was copied whole from the input. */
  lemma CopiedWindow(x: string, s: string, ms: seq<Option<Match>>, i: nat, v: string)
    requires Advances(s, ms) && i < |s| && |x| > 0 && ms[i].None? && |v| > 0
    requires AvoidsFrom(v, 1, x[0]) && CiAt(Scan([Chars(x)], s, ms, i), 0, v)
    ensures i + |v| <= |s| && Scan([Chars(x)], s, ms, i)[..|v|] == s[i..i + |v|]
    ensures forall t :: i <= t < i + |v| ==> ms[t].None?
  {
    AvoidedInOccurrence(Scan([Chars(x)], s, ms, i), v, x[0]);
    CopiedFrom(x, s, ms, i, |v|);
  }

  /** An occurrence of `v` at the front of `o` avoids, after its first character, what `v` avoids. */
  lemma AvoidedInOccurrence(o: string, v: string, c: char)
    requires CiAt(o, 0, v) && AvoidsFrom(v, 1, c)
    ensures |v| <= |o| && forall k :: 1 <= k < |v| ==> o[k] != c
  {
    CiAtIff(o, 0, v);
    forall k | 1 <= k < |v|
      ensures o[k] != c
    {
      AvoidsAt(v, 1, c, k);
      assert Upper(o[0 + k]) == Upper(v[k]);
    }
  }

  /** A window copied from `s` that spells `v` carries the `w` inside `v` back into `s`. */
  lemma WindowHolds(o: string, s: string, i: nat, v: string, t: nat, w: string)
    requires CiAt(o, 0, v) && CiAt(v, t, w)
    requires i + |v| <= |s| && |v| <= |o| && o[..|v|] == s[i..i + |v|]
    ensures CiAt(s, i + t, w)
  {
    CiAtCompose(o, 0, v, t, w);
    assert o[0..|v|] == o[..|v|];
    CiAtWindow(o, 0, s, i, |v|, t, w);
  }

  /**
   * After `w` has been replaced by `x` everywhere, a longer word `v` that
   * holds `w` at offset `t >= 1` occurs nowhere in what the scan emits,
   * provided `x` cannot supply any of `v`: no character of `v` after the
   * first folds to `x[0]`, and `v` overlaps `x` at no position.
   */
  lemma {:induction false} ShadowedFrom(w: Literal, x: string, v: string, t: nat, s: string, i: nat)
    requires i <= |s| && |x| > 0 && 1 <= t && CiAt(v, t, w)
    requires AvoidsFrom(v, 1, x[0]) && !OverlapsFrom(x, 0, v)
    ensures forall p: nat :: !CiAt(Scan([Chars(x)], s, Matches(Word(w), s), i), p, v)
    decreases |s| - i
  {
    var ms := Matches(Word(w), s);
    var o := Scan([Chars(x)], s, ms, i);
    if i == |s| {
      assert o == [];
    } else if ms[i].Some? {
      ScanFixedMatch(x, s, ms, i);
      ShadowedFrom(w, x, v, t, s, ms[i].value.end);
      NotInInserted(x, Scan([Chars(x)], s, ms, ms[i].value.end), v);
    } else {
      var o' := Scan([Chars(x)], s, ms, i + 1);
      ScanNoMatch([Chars(x)], s, ms, i);
      ShadowedFrom(w, x, v, t, s, i + 1);
      NotAtCopied(w, x, v, t, s, i);
      forall p: nat | p > 0
        ensures !CiAt(o, p, v)
      {
        CiAtShift([s[i]], o', p - 1, v);
      }
    }
  }

  /**
   * A rule that replaces `w` by `x` leaves nothing for a later rule that
   * looks for a longer word `v` holding `w` at offset `t >= 1`, when `x`
   * cannot supply any of `v`.
   */
  lemma Shadowed(w: Literal, x: string, v: Literal, t: nat, s: string)
    requires |x| > 0 && 1 <= t && CiAt(v, t, w)
    requires AvoidsFrom(v, 1, x[0]) && !OverlapsFrom(x, 0, v)
    ensures var o := Sub(Rule(Word(w), [Chars(x)]), s);
      forall j :: 0 <= j <= |o| ==> MatchAt(Word(v), o, j).None?
  {
    ShadowedFrom(w, x, v, t, s, 0);
  }

  /** A match of `H(\d+)\)` is decided by the text it covers. */
  lemma NumberedWindow(h: Literal, a: string, i: nat, b: string, j: nat, n: nat)
    requires i + n <= |a| && j + n <= |b| && a[i..i + n] == b[j..j + n]
    requires MatchNumbered(h, a, i).Some? && MatchNumbered(h, a, i).value.end == i + n
    ensures MatchNumbered(h, b, j) == Some(Match(j + n, MatchNumbered(h, a, i).value.groups))
  {
    var ma := MatchNumbered(h, a, i).value;
    var d := n - |h| - 1;
    var g := a[i + |h|..i + |h| + d];
    assert ma.groups == [g] && a[i + |h| + d] == ')';
    CiAtWindow(a, i, b, j, n, 0, h);
    WindowDigits(a, i, b, j, n, |h|, d);
    NumberedFromParts(h, b, j, d, g);
  }

  /** Equal windows hold equal digit groups and agree on the character after them. */
  lemma WindowDigits(a: string, i: nat, b: string, j: nat, n: nat, p: nat, d: nat)
    requires i + n <= |a| && j + n <= |b| && a[i..i + n] == b[j..j + n] && p + d < n
    ensures b[j + p..j + p + d] == a[i + p..i + p + d] && b[j + p + d] == a[i + p + d]
  {
    SliceOfSlice(a, i, n, p, p + d);
    SliceOfSlice(b, j, n, p, p + d);
    assert a[i..i + n][p + d] == b[j..j + n][p + d];
  }

  /** The head at `j`, the digits `g` after it and a closing parenthesis make a match. */
  lemma NumberedFromParts(h: Literal, b: string, j: nat, d: nat, g: string)
    requires CiAt(b, j, h) && j + |h| + d < |b| && 0 < d
    requires b[j + |h|..j + |h| + d] == g && AllDigits(g) && b[j + |h| + d] == ')'
    ensures MatchNumbered(h, b, j) == Some(Match(j + |h| + d + 1, [g]))
  {
    DigitRunIs(b, j + |h|, d);
    NumberedFoundAt(h, b, j, d);
  }

  /** `H` followed by digits and `)` matches itself whole. */
  lemma NumberedSelf(h: Literal, d: string)
    requires |d| > 0 && AllDigits(d)
    ensures MatchNumbered(h, h + d + ")", 0) == Some(Match(|h| + |d| + 1, [d]))
  {
    var x := h + d + ")";
    NumberedSelfParts(h, d);
    NumberedFound(h, x, |d|);
  }

  lemma NumberedSelfParts(h: Literal, d: string)
    requires |d| > 0 && AllDigits(d)
    ensures var x := h + d + ")";
      CiAt(x, 0, h) && DigitRun(x, |h|) == |d| && x[|h| + |d|] == ')' && x[|h|..|h| + |d|] == d
  {
    var x := h + d + ")";
    var j := |h|;
    assert x[..j] == h;
    CiAtOwnPrefix(x, j);
    assert x[j..j + |d|] == d;
    DigitRunIs(x, j, |d|);
  }

  lemma NumberedFound(h: Literal, x: string, n: nat)
    requires CiAt(x, 0, h) && |h| + n < |x| && DigitRun(x, |h|) == n && n > 0 && x[|h| + n] == ')'
    ensures MatchNumbered(h, x, 0) == Some(Match(|h| + n + 1, [x[|h|..|h| + n]]))
  {
    NumberedFoundAt(h, x, 0, n);
  }

  lemma NumberedFoundAt(h: Literal, x: string, i: nat, n: nat)
    requires i + |h| + n < |x| && CiAt(x, i, h) && DigitRun(x, i + |h|) == n && n > 0 && x[i + |h| + n] == ')'
    ensures MatchNumbered(h, x, i) == Some(Match(i + |h| + n + 1, [x[i + |h|..i + |h| + n]]))
  {
  }

  /** Every match of `H(\d+)\)` in `o` covers exactly the text `x`. */
  predicate AllMatchesRead(h: Literal, o: string, x: string)
  {
    forall j :: 0 <= j <= |o| && MatchNumbered(h, o, j).Some? ==>
      o[j..MatchNumbered(h, o, j).value.end] == x
  }

  /**
   * Putting `x` in front keeps every match reading `x`: `x` matches itself
   * and no match can start inside it.
   */
  lemma SettledInserted(h: Literal, x: string, o: string)
    requires AvoidsFrom(x, 1, h[0])
    requires MatchNumbered(h, x, 0).Some? && MatchNumbered(h, x, 0).value.end == |x|
    requires AllMatchesRead(h, o, x)
    ensures AllMatchesRead(h, x + o, x)
  {
    var xo := x + o;
    forall j | 0 <= j <= |xo| && MatchNumbered(h, xo, j).Some?
      ensures xo[j..MatchNumbered(h, xo, j).value.end] == x
    {
      if j == 0 {
        InsertedHead(h, x, o);
      } else if j < |x| {
        InsertedInside(h, x, o, j);
        assert false;
      } else {
        InsertedTail(h, x, o, j);
      }
    }
  }

  /** At the front of `x + o`, the match is `x` itself. */
  lemma InsertedHead(h: Literal, x: string, o: string)
    requires MatchNumbered(h, x, 0).Some? && MatchNumbered(h, x, 0).value.end == |x|
    ensures MatchNumbered(h, x + o, 0).Some? && (x + o)[0..MatchNumbered(h, x + o, 0).value.end] == x
  {
    var xo := x + o;
    assert x[0..|x|] == xo[0..|x|];
    NumberedWindow(h, x, 0, xo, 0, |x|);
  }

  /** No match starts strictly inside the inserted `x`. */
  lemma InsertedInside(h: Literal, x: string, o: string, j: nat)
    requires AvoidsFrom(x, 1, h[0]) && 0 < j < |x|
    ensures MatchNumbered(h, x + o, j).None?
  {
    var xo := x + o;
    assert xo[j] == x[j];
    AvoidsAt(x, 1, h[0], j);
  }

  /** A match in `x + o` that starts after `x` is a match of `o`, so it reads `x`. */
  lemma InsertedTail(h: Literal, x: string, o: string, j: nat)
    requires |x| <= j <= |x + o| && MatchNumbered(h, x + o, j).Some?
    requires AllMatchesRead(h, o, x)
    ensures (x + o)[j..MatchNumbered(h, x + o, j).value.end] == x
  {
    var xo := x + o;
    var e := MatchNumbered(h, xo, j).value.end;
    assert xo[j..e] == o[j - |x|..e - |x|];
    NumberedWindow(h, xo, j, o, j - |x|, e - j);
  }

  /**
   * Where the numbered rule copies a character, no match starts in the
   * output: the text it would cover was copied whole and would have matched.
   */
  lemma SettledCopied(h: Literal, x: string, s: string, i: nat)
    requires i < |s| && |x| > 0 && 'A' <= x[0] <= 'Z' && AvoidsFrom(h, 1, x[0])
    requires MatchAt(Numbered(h), s, i).None?
    ensures MatchNumbered(h, Scan([Chars(x)], s, Matches(Numbered(h), s), i), 0).None?
  {
    var ms := Matches(Numbered(h), s);
    var o := Scan([Chars(x)], s, ms, i);
    assert ms[i].None?;
    if MatchNumbered(h, o, 0).Some? {
      var e := MatchNumbered(h, o, 0).value.end;
      MatchAvoids(h, x[0], o);
      CopiedFrom(x, s, ms, i, e);
      assert o[0..e] == s[i..i + e];
      assert MatchNumbered(h, s, i).None?;
      NumberedWindow(h, o, 0, s, i, e);
      assert false;
    }
  }

  /** A letter the head avoids after its first character appears nowhere after the start of a match. */
  lemma MatchAvoids(h: Literal, c: char, o: string)
    requires 'A' <= c <= 'Z' && AvoidsFrom(h, 1, c) && MatchNumbered(h, o, 0).Some?
    ensures forall k :: 1 <= k < MatchNumbered(h, o, 0).value.end ==> o[k] != c
  {
    var e := MatchNumbered(h, o, 0).value.end;
    CiAtIff(o, 0, h);
    forall k | 1 <= k < e
      ensures o[k] != c
    {
      if k < |h| {
        AvoidsAt(h, 1, c, k);
      } else if k < e - 1 {
        assert o[|h|..e - 1][k - |h|] == o[k];
      }
    }
  }

  /** A match after the first character of `[c] + o'` is a match in `o'`. */
  lemma SettledShift(h: Literal, x: string, c: char, o': string)
    requires AllMatchesRead(h, o', x)
    requires var o := [c] + o'; MatchNumbered(h, o, 0).Some? ==> o[0..MatchNumbered(h, o, 0).value.end] == x
    ensures AllMatchesRead(h, [c] + o', x)
  {
    var o := [c] + o';
    forall j | 0 < j <= |o| && MatchNumbered(h, o, j).Some?
      ensures o[j..MatchNumbered(h, o, j).value.end] == x
    {
      var e := MatchNumbered(h, o, j).value.end;
      assert o[j..e] == o'[j - 1..e - 1];
      NumberedWindow(h, o, j, o', j - 1, e - j);
    }
  }

  /** The output of the numbered rule from `i` on: every match reads `x`. */
  lemma {:induction false} SettledFrom(h: Literal, x: string, s: string, i: nat)
    requires i <= |s| && |x| > 0 && 'A' <= x[0] <= 'Z'
    requires AvoidsFrom(h, 1, x[0]) && AvoidsFrom(x, 1, h[0])
    requires MatchNumbered(h, x, 0).Some? && MatchNumbered(h, x, 0).value.end == |x|
    ensures AllMatchesRead(h, Scan([Chars(x)], s, Matches(Numbered(h), s), i), x)
    decreases |s| - i
  {
    var ms := Matches(Numbered(h), s);
    if i == |s| {
      assert Scan([Chars(x)], s, ms, i) == [];
    } else if ms[i].Some? {
      SettledFrom(h, x, s, ms[i].value.end);
      SettledMatchStep(h, x, s, i);
    } else {
      SettledFrom(h, x, s, i + 1);
      SettledCopyStep(h, x, s, i);
    }
  }

  /** Where the rule replaces a match by `x`, the matches that follow still read `x`. */
  lemma SettledMatchStep(h: Literal, x: string, s: string, i: nat)
    requires i < |s| && |x| > 0 && AvoidsFrom(x, 1, h[0])
    requires MatchNumbered(h, x, 0).Some? && MatchNumbered(h, x, 0).value.end == |x|
    requires Matches(Numbered(h), s)[i].Some?
    requires var ms := Matches(Numbered(h), s);
      AllMatchesRead(h, Scan([Chars(x)], s, ms, ms[i].value.end), x)
    ensures AllMatchesRead(h, Scan([Chars(x)], s, Matches(Numbered(h), s), i), x)
  {
    var ms := Matches(Numbered(h), s);
    ScanFixedMatch(x, s, ms, i);
    SettledInserted(h, x, Scan([Chars(x)], s, ms, ms[i].value.end));
  }

  /** Where the rule copies a character, the matches that follow still read `x`. */
  lemma SettledCopyStep(h: Literal, x: string, s: string, i: nat)
    requires i < |s| && |x| > 0 && 'A' <= x[0] <= 'Z' && AvoidsFrom(h, 1, x[0])
    requires Matches(Numbered(h), s)[i].None?
    requires AllMatchesRead(h, Scan([Chars(x)], s, Matches(Numbered(h), s), i + 1), x)
    ensures AllMatchesRead(h, Scan([Chars(x)], s, Matches(Numbered(h), s), i), x)
  {
    var ms := Matches(Numbered(h), s);
    ScanNoMatch([Chars(x)], s, ms, i);
    SettledCopied(h, x, s, i);
    SettledShift(h, x, s[i], Scan([Chars(x)], s, ms, i + 1));
  }

  /**
   * After `H(\d+)\)` has been replaced by `x` everywhere, every match of
   * the same pattern in the result is one of the inserted `x`.
   */
  lemma Settled(h: Literal, x: string, s: string)
    requires |x| > 0 && 'A' <= x[0] <= 'Z'
    requires AvoidsFrom(h, 1, x[0]) && AvoidsFrom(x, 1, h[0])
    requires MatchNumbered(h, x, 0).Some? && MatchNumbered(h, x, 0).value.end == |x|
    ensures AllMatchesRead(h, Sub(Rule(Numbered(h), [Chars(x)]), s), x)
  {
    SettledFrom(h, x, s, 0);
  }

  /** Under the same conditions the rule is idempotent. */
  lemma SettledIdempotent(h: Literal, x: string, s: string)
    requires |x| > 0 && 'A' <= x[0] <= 'Z'
    requires AvoidsFrom(h, 1, x[0]) && AvoidsFrom(x, 1, h[0])
    requires MatchNumbered(h, x, 0).Some? && MatchNumbered(h, x, 0).value.end == |x|
    ensures var r := Rule(Numbered(h), [Chars(x)]); Sub(r, Sub(r, s)) == Sub(r, s)
  {
    Settled(h, x, s);
    ReadsFixed(h, x, Sub(Rule(Numbered(h), [Chars(x)]), s));
  }

  /** A text in which every match already reads `x` is left as it is by the rule. */
  lemma ReadsFixed(h: Literal, x: string, o: string)
    requires AllMatchesRead(h, o, x)
    ensures Sub(Rule(Numbered(h), [Chars(x)]), o) == o
  {
    var ms := Matches(Numbered(h), o);
    forall j | 0 <= j < |o| && ms[j].Some?
      ensures Expand([Chars(x)], ms[j].value.groups) == o[j..ms[j].value.end]
    {
      assert MatchNumbered(h, o, j).Some?;
      assert Expand([Chars(x)], ms[j].value.groups) == x;
    }
    ScanSelfReplacing([Chars(x)], o, ms, 0);
    assert o[0..] == o;
  }
}
