/**
 * The two precision passes together: after `DATETIME(digits)` and then
 * `TIME(digits)` have been rewritten, every `DATETIME(digits)` in the text
 * reads DATETIME(6), and running both passes again changes nothing.
 *
 * The argument is stated for a head `p + h` settled to `p + x` and a later
 * rule that replaces `h(digits)` by `x`: a `p h(digits)` match in the later
 * rule's output has its `p` copied from the input and its `h(digits)`
 * produced by a match of the later rule, so the input held a
 * `p h(digits)` match at that place, which already read `p + x`.
 */
module PrecisionSettled {
  import opened Text
  import opened Regex
  import opened SubFacts
  import opened FixedRules
  import opened Converter
  import opened ConverterFacts

  /** What the rule replacing `h(digits)` by `x` emits from position `i` of `y` on. */
  function Out(h: Literal, x: string, y: string, i: nat): string
    requires i <= |y|
  {
    Scan([Chars(x)], y, Matches(Numbered(h), y), i)
  }

  /** Where the output differs from `x` within its first `|x|` characters, the rule copied a character. */
  lemma StepCopied(h: Literal, x: string, y: string, i: nat, k: nat)
    requires i <= |y| && k < |x| && k < |Out(h, x, y, i)| && Out(h, x, y, i)[k] != x[k]
    ensures i < |y| && Out(h, x, y, i) == [y[i]] + Out(h, x, y, i + 1)
  {
    var ms := Matches(Numbered(h), y);
    assert i < |y|;
    if ms[i].Some? {
      ScanFixedMatch(x, y, ms, i);
    } else {
      ScanNoMatch([Chars(x)], y, ms, i);
    }
  }

  /** An `x` put at offset `k` of `p` disagrees with `p`, up to case, somewhere. */
  ghost predicate Misfit(p: string, x: string, k: nat)
  {
    exists m :: 0 <= m && k + m < |p| && m < |x| && Upper(p[k + m]) != Upper(x[m])
  }

  /** An output that starts with `p`, up to case, starts with `|p|` characters copied from the input. */
  lemma {:induction false} CopiedRun(h: Literal, x: string, p: string, y: string, i: nat, k: nat)
    requires i <= |y| && k <= |p| && CiAt(Out(h, x, y, i), 0, p)
    requires forall j :: 0 <= j < |p| ==> Misfit(p, x, j)
    ensures i + k <= |y| && Out(h, x, y, i) == y[i..i + k] + Out(h, x, y, i + k)
    decreases k
  {
    if k == 0 {
      assert y[i..i] == [];
    } else {
      CopiedRun(h, x, p, y, i, k - 1);
      CopiedStep(h, x, p, y, i, k - 1);
    }
  }

  /** The character after a copied stretch shorter than `p` is copied as well. */
  lemma CopiedStep(h: Literal, x: string, p: string, y: string, i: nat, k: nat)
    requires i + k <= |y| && k < |p| && CiAt(Out(h, x, y, i), 0, p) && Misfit(p, x, k)
    requires Out(h, x, y, i) == y[i..i + k] + Out(h, x, y, i + k)
    ensures i + k + 1 <= |y| && Out(h, x, y, i) == y[i..i + k + 1] + Out(h, x, y, i + k + 1)
  {
    StepCopiedIf(h, x, y, i + k);
    CopiedJoin(Out(h, x, y, i), Out(h, x, y, i + k), Out(h, x, y, i + k + 1), x, p, y, i, k);
  }

  /** `r` and `x` differ at a position both have. */
  ghost predicate Differs(r: string, x: string) {
    exists m :: 0 <= m < |r| && m < |x| && r[m] != x[m]
  }

  /** `StepCopied` for whichever position the output and `x` differ at. */
  lemma StepCopiedIf(h: Literal, x: string, y: string, j: nat)
    requires j <= |y|
    ensures Differs(Out(h, x, y, j), x) ==> j < |y| && Out(h, x, y, j) == [y[j]] + Out(h, x, y, j + 1)
  {
    if Differs(Out(h, x, y, j), x) {
      var m :| 0 <= m < |Out(h, x, y, j)| && m < |x| && Out(h, x, y, j)[m] != x[m];
      StepCopied(h, x, y, j, m);
    }
  }

  /** The string steps of `CopiedStep`: `r` differs from `x`, so its first character is copied. */
  lemma CopiedJoin(o: string, r: string, t: string, x: string, p: string, y: string, i: nat, k: nat)
    requires i + k <= |y| && k < |p| && CiAt(o, 0, p) && Misfit(p, x, k) && o == y[i..i + k] + r
    requires Differs(r, x) ==> i + k < |y| && r == [y[i + k]] + t
    ensures i + k + 1 <= |y| && o == y[i..i + k + 1] + t
  {
    var m := MisfitAt(p, x, o, k);
    DiffersAfter(o, y[i..i + k], r, k, m, x);
    assert Differs(r, x);
    SnocSlice(o, r, t, y, i, i + k);
  }

  /** Where `o` spells `p` up to case, it differs from `x` at the offset `Misfit` promises. */
  lemma MisfitAt(p: string, x: string, o: string, j: nat) returns (m: nat)
    requires CiAt(o, 0, p) && j < |p| && Misfit(p, x, j)
    ensures j + m < |p| && m < |x| && j + m < |o| && o[j + m] != x[m]
  {
    var m' :| 0 <= m' && j + m' < |p| && m' < |x| && Upper(p[j + m']) != Upper(x[m']);
    m := m';
    CiAtIff(o, 0, p);
  }

  lemma DiffersAfter(o: string, a: string, r: string, k: nat, m: nat, x: string)
    requires o == a + r && |a| == k && k + m < |o| && m < |x| && o[k + m] != x[m]
    ensures m < |r| && r[m] != x[m]
  {
  }

  /** One more copied character extends the copied stretch. */
  lemma SnocSlice(o: string, r: string, t: string, y: string, i: nat, j: nat)
    requires i <= j < |y| && o == y[i..j] + r && r == [y[j]] + t
    ensures o == y[i..j + 1] + t
  {
    assert y[i..j + 1] == y[i..j] + [y[j]];
  }

  /** `h` is found in `p + h` after `p`. */
  lemma CiAtOwnSuffix(p: string, h: string)
    ensures CiAt(p + h, |p|, h)
  {
    CiAtIff(p + h, |p|, h);
  }

  /** A `p h(digits)` match holds an `h(digits)` match `|p|` characters in, ending at the same place. */
  lemma InnerMatch(p: string, h: Literal, o: string, i: nat)
    requires i <= |o| && MatchNumbered(p + h, o, i).Some?
    ensures MatchNumbered(h, o, i + |p|) == MatchNumbered(p + h, o, i)
  {
    CiAtOwnSuffix(p, h);
    CiAtCompose(o, i, p + h, |p|, h);
    assert i + |p + h| == i + |p| + |h|;
  }

  /** `p` followed by an `h(digits)` match is a `p h(digits)` match ending at the same place. */
  lemma OuterMatch(p: string, h: Literal, y: string, i: nat)
    requires i + |p| <= |y| && CiAt(y, i, p) && MatchNumbered(h, y, i + |p|).Some?
    ensures MatchNumbered(p + h, y, i) == MatchNumbered(h, y, i + |p|)
  {
    CiAtJoin(y, i, p, h);
    assert i + |p + h| == i + |p| + |h|;
  }

  lemma CiAtJoin(s: string, i: nat, p: string, h: string)
    requires CiAt(s, i, p) && CiAt(s, i + |p|, h)
    ensures CiAt(s, i, p + h)
  {
    CiAtIff(s, i, p);
    CiAtIff(s, i + |p|, h);
    CiAtIff(s, i, p + h);
    forall k | 0 <= k < |p + h|
      ensures Upper(s[i + k]) == Upper((p + h)[k])
    {
      if k >= |p| {
        assert Upper(s[i + |p| + (k - |p|)]) == Upper(h[k - |p|]);
      }
    }
  }

  /** `x` starts with a capital letter that does not recur in `h` after its first character. */
  predicate Capital(h: Literal, x: string)
  {
    |x| > 0 && 'A' <= x[0] <= 'Z' && AvoidsFrom(h, 1, x[0])
  }

  /** `p + x` is itself matched whole by `p h(digits)`. */
  predicate SelfMatch(p: string, h: Literal, x: string)
  {
    MatchNumbered(p + h, p + x, 0).Some? && MatchNumbered(p + h, p + x, 0).value.end == |p + x|
  }

  /** No character of `x` folds to the first character of `g`. */
  predicate Avoids(x: string, g: Literal)
  {
    forall k :: 0 <= k < |x| ==> Upper(x[k]) != Upper(g[0])
  }

  /** What the settled head and the later rule must satisfy for the argument. */
  ghost predicate Compatible(p: string, h: Literal, x: string)
  {
    && Capital(h, x) && SelfMatch(p, h, x) && Avoids(x, p + h)
    && forall j :: 0 <= j < |p| ==> Misfit(p, x, j)
  }

  /** Past a stretch as long as `p`, a `p h(digits)` match leaves an `h(digits)` match. */
  lemma InnerAfter(p: string, h: Literal, o: string, a: string, r: string)
    requires o == a + r && |a| == |p| && MatchNumbered(p + h, o, 0).Some?
    ensures MatchNumbered(h, r, 0).Some?
  {
    var e := MatchNumbered(p + h, o, 0).value.end;
    InnerMatch(p, h, o, 0);
    assert o[|p|..e] == r[0..e - |p|];
    NumberedWindow(h, o, |p|, r, 0, e - |p|);
  }

  /** An `h(digits)` match at the front of the output is one the rule inserted in place of a match of its own. */
  lemma ReplacedAt(h: Literal, x: string, y: string, j: nat) returns (e': nat)
    requires Capital(h, x)
    requires j <= |y| && MatchNumbered(h, Out(h, x, y, j), 0).Some?
    ensures MatchNumbered(h, y, j).Some? && e' == MatchNumbered(h, y, j).value.end
    ensures Out(h, x, y, j) == x + Out(h, x, y, e')
  {
    var ms := Matches(Numbered(h), y);
    assert j < |y|;
    if ms[j].None? {
      SettledCopied(h, x, y, j);
      assert false;
    }
    e' := ms[j].value.end;
    ScanFixedMatch(x, y, ms, j);
  }

  /**
   * Where the rule copies a character of a text whose `p h(digits)` matches
   * read `p + x`, a `p h(digits)` match starting there reads `p + x` as well.
   */
  lemma HeadReads(p: string, h: Literal, x: string, y: string, i: nat)
    requires Capital(h, x) && SelfMatch(p, h, x) && forall j :: 0 <= j < |p| ==> Misfit(p, x, j)
    requires i <= |y| && AllMatchesRead(p + h, y, p + x)
    requires MatchNumbered(p + h, Out(h, x, y, i), 0).Some?
    ensures var o := Out(h, x, y, i); o[0..MatchNumbered(p + h, o, 0).value.end] == p + x
  {
    var o := Out(h, x, y, i);
    HeadCi(p, h, o);
    CopiedFront(h, x, p, y, i);
    var r := Out(h, x, y, i + |p|);
    InnerAfter(p, h, o, y[i..i + |p|], r);
    var e' := ReplacedAt(h, x, y, i + |p|);
    InputReads(p, h, x, y, i);
    Chain(o, y[i..i + |p|], p, r, x + Out(h, x, y, e'));
    SelfAtFront(p, h, x, Out(h, x, y, e'));
  }

  /** A `p h(digits)` match starts with `p`, up to case. */
  lemma HeadCi(p: string, h: Literal, o: string)
    requires MatchNumbered(p + h, o, 0).Some?
    ensures CiAt(o, 0, p)
  {
    CiAtOwnPrefixOf(p, h);
    CiAtCompose(o, 0, p + h, 0, p);
  }

  /** An output that starts with `p`, up to case, is `|p|` characters of the input that spell `p` up to case, then the rest of the output. */
  lemma CopiedFront(h: Literal, x: string, p: string, y: string, i: nat)
    requires i <= |y| && CiAt(Out(h, x, y, i), 0, p)
    requires forall j :: 0 <= j < |p| ==> Misfit(p, x, j)
    ensures i + |p| <= |y| && CiAt(y, i, p)
    ensures Out(h, x, y, i) == y[i..i + |p|] + Out(h, x, y, i + |p|)
  {
    CopiedRun(h, x, p, y, i, |p|);
    CiAtFrontOf(y, i, Out(h, x, y, i + |p|), Out(h, x, y, i), p);
  }

  lemma CiAtFrontOf(y: string, i: nat, r: string, o: string, p: string)
    requires i + |p| <= |y| && o == y[i..i + |p|] + r && CiAt(o, 0, p)
    ensures CiAt(y, i, p)
  {
    CiAtIff(o, 0, p);
    CiAtIff(y, i, p);
    forall k | 0 <= k < |p|
      ensures Upper(y[i + k]) == Upper(p[k])
    {
      assert o[k] == y[i + k];
    }
  }

  lemma Chain(o: string, c: string, a: string, r: string, t: string)
    requires o == c + r && c == a && r == t
    ensures o == a + t
  {
  }

  /** In a text whose `p h(digits)` matches read `p + x`, a `p` before an `h(digits)` match is spelled exactly `p`. */
  lemma InputReads(p: string, h: Literal, x: string, y: string, i: nat)
    requires AllMatchesRead(p + h, y, p + x)
    requires i + |p| <= |y| && CiAt(y, i, p) && MatchNumbered(h, y, i + |p|).Some?
    ensures y[i..i + |p|] == p
  {
    OuterMatch(p, h, y, i);
    var e := MatchNumbered(p + h, y, i).value.end;
    assert y[i..e] == p + x;
    assert y[i..i + |p|] == y[i..e][..|p|];
  }

  /** `p + x` at the front of a text is a match that covers exactly `p + x`. */
  lemma SelfAtFront(p: string, h: Literal, x: string, t: string)
    requires SelfMatch(p, h, x)
    ensures var o := p + (x + t);
      MatchNumbered(p + h, o, 0).Some? && o[0..MatchNumbered(p + h, o, 0).value.end] == p + x
  {
    var o := p + (x + t);
    assert o[0..|p + x|] == p + x;
    NumberedWindow(p + h, p + x, 0, o, 0, |p + x|);
  }

  lemma CiAtOwnPrefixOf(p: string, h: string)
    ensures CiAt(p + h, 0, p)
  {
    CiAtIff(p + h, 0, p);
  }

  /** Text put in front that holds no possible first character of a match keeps every match reading `v`. */
  lemma {:induction false} PrefixAvoids(g: Literal, v: string, q: string, o: string)
    requires AllMatchesRead(g, o, v) && Avoids(q, g)
    ensures AllMatchesRead(g, q + o, v)
    decreases |q|
  {
    if q == [] {
      assert q + o == o;
    } else {
      PrefixAvoids(g, v, q[1..], o);
      var rest := q[1..] + o;
      assert q + o == [q[0]] + rest;
      assert ([q[0]] + rest)[0] == q[0];
      assert !CiAt([q[0]] + rest, 0, g);
      SettledShift(g, v, q[0], rest);
    }
  }

  /** The output of the later rule from `i` on: every `p h(digits)` in it reads `p + x`. */
  lemma {:induction false} SettledAfter(p: string, h: Literal, x: string, y: string, i: nat)
    requires Compatible(p, h, x)
    requires i <= |y| && AllMatchesRead(p + h, y, p + x)
    ensures AllMatchesRead(p + h, Out(h, x, y, i), p + x)
    decreases |y| - i
  {
    var ms := Matches(Numbered(h), y);
    if i == |y| {
      assert Out(h, x, y, i) == [];
    } else if ms[i].Some? {
      ScanFixedMatch(x, y, ms, i);
      SettledAfter(p, h, x, y, ms[i].value.end);
      PrefixAvoids(p + h, p + x, x, Out(h, x, y, ms[i].value.end));
    } else {
      ScanNoMatch([Chars(x)], y, ms, i);
      SettledAfter(p, h, x, y, i + 1);
      if MatchNumbered(p + h, Out(h, x, y, i), 0).Some? {
        HeadReads(p, h, x, y, i);
      }
      SettledShift(p + h, p + x, y[i], Out(h, x, y, i + 1));
    }
  }

  /** `DATETIME(` settled to `DATETIME(6)` and the TIME rule meet the conditions of the argument. */
  lemma DatetimeTimeCompatible()
    ensures Compatible("DATE", "TIME(", "TIME(6)")
  {
    TimeAvoids();
    DatetimeSelfMatch();
    DatetimeMisfits();
    assert Avoids("TIME(6)", "DATE" + "TIME(");
  }

  lemma DatetimeSelfMatch()
    ensures SelfMatch("DATE", "TIME(", "TIME(6)")
  {
    DatetimeSelf();
    DatetimeSplit();
  }

  lemma DatetimeMisfits()
    ensures forall j :: 0 <= j < |"DATE"| ==> Misfit("DATE", "TIME(6)", j)
  {
    assert Misfit("DATE", "TIME(6)", 0) by { assert Upper("DATE"[0]) != Upper("TIME(6)"[0]); }
    assert Misfit("DATE", "TIME(6)", 1) by { assert Upper("DATE"[1]) != Upper("TIME(6)"[0]); }
    assert Misfit("DATE", "TIME(6)", 2) by { assert Upper("DATE"[3]) != Upper("TIME(6)"[1]); }
    assert Misfit("DATE", "TIME(6)", 3) by { assert Upper("DATE"[3]) != Upper("TIME(6)"[0]); }
  }

  lemma DatetimeSplit()
    ensures "DATE" + "TIME(" == "DATETIME(" && "DATE" + "TIME(6)" == "DATETIME(6)"
  {
  }

  /** After both precision passes every `DATETIME(digits)` reads DATETIME(6). */
  lemma PrecisionSettlesDatetime(s: string)
    ensures AllMatchesRead("DATETIME(", Precision(s), "DATETIME(6)")
  {
    var y := Sub(DatetimePrecision, s);
    DatetimeSettled(s);
    DatetimeSplit();
    DatetimeTimeCompatible();
    SettledAfter("DATE", "TIME(", "TIME(6)", y, 0);
    assert Precision(s) == Out("TIME(", "TIME(6)", y, 0);
  }

  /** Running both precision passes a second time changes nothing. */
  lemma PrecisionIdempotent(s: string)
    ensures Precision(Precision(s)) == Precision(s)
  {
    var y := Sub(DatetimePrecision, s);
    var p := Precision(s);
    PrecisionSettlesDatetime(s);
    ReadsFixed("DATETIME(", "DATETIME(6)", p);
    assert Sub(DatetimePrecision, p) == p;
    TimeIdempotent(y);
  }
}
