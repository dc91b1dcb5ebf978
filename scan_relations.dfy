/**
 * Relations between a text and the output of a scan that hold as soon as
 * they hold between every match and its replacement: the output keeps the
 * text's characters in order, agrees with it up to case, or differs from it
 * only where a bracket became a backtick.
 */
module ScanRelations {
  import opened Text
  import opened Regex

  /** `a` is what remains of `b` after deleting some of its characters. */
  predicate IsSubsequence(a: string, b: string)
    decreases |b|
  {
    if a == [] then true
    else if b == [] then false
    else (a[0] == b[0] && IsSubsequence(a[1..], b[1..])) || IsSubsequence(a, b[1..])
  }

  lemma {:induction false} SubsequencePrepend(a: string, c: string, b: string)
    requires IsSubsequence(a, b)
    ensures IsSubsequence(a, c + b)
    decreases |c|
  {
    if c == [] {
      assert c + b == b;
    } else if a != [] {
      SubsequencePrepend(a, c[1..], b);
      assert (c + b)[1..] == c[1..] + b;
    }
  }

  lemma {:induction false} SubsequenceConcat(a1: string, b1: string, a2: string, b2: string)
    requires IsSubsequence(a1, b1) && IsSubsequence(a2, b2)
    ensures IsSubsequence(a1 + a2, b1 + b2)
    decreases |b1|
  {
    if a1 == [] {
      assert a1 + a2 == a2;
      SubsequencePrepend(a2, b1, b2);
    } else {
      assert (b1 + b2)[1..] == b1[1..] + b2;
      if a1[0] == b1[0] && IsSubsequence(a1[1..], b1[1..]) {
        SubsequenceConcat(a1[1..], b1[1..], a2, b2);
        assert (a1 + a2)[1..] == a1[1..] + a2;
      } else {
        SubsequenceConcat(a1, b1[1..], a2, b2);
      }
    }
  }

  lemma {:induction false} SubsequenceRefl(a: string)
    ensures IsSubsequence(a, a)
    decreases |a|
  {
    if a != [] {
      SubsequenceRefl(a[1..]);
    }
  }

  lemma {:induction false} SubsequenceTrans(a: string, b: string, c: string)
    requires IsSubsequence(a, b) && IsSubsequence(b, c)
    ensures IsSubsequence(a, c)
    decreases |c|
  {
    if a != [] {
      if b[0] == c[0] && IsSubsequence(b[1..], c[1..]) {
        if a[0] == b[0] && IsSubsequence(a[1..], b[1..]) {
          SubsequenceTrans(a[1..], b[1..], c[1..]);
        } else {
          SubsequenceTrans(a, b[1..], c[1..]);
        }
      } else {
        SubsequenceTrans(a, b, c[1..]);
      }
    }
  }

  /**
   * A scan deletes characters and nothing else when every replacement is
   * a subsequence of the text it replaces.
   */
  lemma {:induction false} ScanSubsequence(t: Template, s: string, ms: seq<Option<Match>>, i: nat)
    requires Advances(s, ms) && i <= |s|
    requires forall j :: i <= j < |s| && ms[j].Some? ==>
      IsSubsequence(Expand(t, ms[j].value.groups), s[j..ms[j].value.end])
    ensures IsSubsequence(Scan(t, s, ms, i), s[i..])
    decreases |s| - i
  {
    if i < |s| {
      match ms[i]
      case Some(m) =>
        ScanSubsequence(t, s, ms, m.end);
        SubsequenceConcat(Expand(t, m.groups), s[i..m.end], Scan(t, s, ms, m.end), s[m.end..]);
        assert s[i..] == s[i..m.end] + s[m.end..];
      case None =>
        ScanSubsequence(t, s, ms, i + 1);
        SubsequenceRefl([s[i]]);
        SubsequenceConcat([s[i]], [s[i]], Scan(t, s, ms, i + 1), s[i + 1..]);
        assert s[i..] == [s[i]] + s[i + 1..];
    }
  }

  lemma UpperAppend(a: string, b: string)
    ensures UpperStr(a + b) == UpperStr(a) + UpperStr(b)
  {
  }

  /**
   * A scan changes nothing but letter case when every replacement equals
   * the text it replaces up to case.
   */
  lemma {:induction false} ScanKeepsFolded(t: Template, s: string, ms: seq<Option<Match>>, i: nat)
    requires Advances(s, ms) && i <= |s|
    requires forall j :: i <= j < |s| && ms[j].Some? ==>
      UpperStr(Expand(t, ms[j].value.groups)) == UpperStr(s[j..ms[j].value.end])
    ensures UpperStr(Scan(t, s, ms, i)) == UpperStr(s[i..])
    decreases |s| - i
  {
    if i < |s| {
      match ms[i]
      case Some(m) =>
        ScanKeepsFolded(t, s, ms, m.end);
        UpperAppend(Expand(t, m.groups), Scan(t, s, ms, m.end));
        UpperAppend(s[i..m.end], s[m.end..]);
        assert s[i..] == s[i..m.end] + s[m.end..];
      case None =>
        ScanKeepsFolded(t, s, ms, i + 1);
        UpperAppend([s[i]], Scan(t, s, ms, i + 1));
        UpperAppend([s[i]], s[i + 1..]);
        assert s[i..] == [s[i]] + s[i + 1..];
    }
  }

  /** `b` is `a` with some square brackets turned into backticks. */
  predicate Reticked(a: string, b: string)
  {
    |a| == |b| && forall k :: 0 <= k < |a| ==> b[k] == a[k] || ((a[k] == '[' || a[k] == ']') && b[k] == '`')
  }

  lemma RetickedAppend(a1: string, b1: string, a2: string, b2: string)
    requires Reticked(a1, b1) && Reticked(a2, b2)
    ensures Reticked(a1 + a2, b1 + b2)
  {
    forall k | 0 <= k < |a1 + a2|
      ensures (b1 + b2)[k] == (a1 + a2)[k]
        || (((a1 + a2)[k] == '[' || (a1 + a2)[k] == ']') && (b1 + b2)[k] == '`')
    {
      if k >= |a1| {
        assert (a1 + a2)[k] == a2[k - |a1|] && (b1 + b2)[k] == b2[k - |a1|];
      }
    }
  }

  /**
   * A scan changes the text only by turning brackets into backticks when
   * every replacement does that to the text it replaces.
   */
  lemma {:induction false} ScanReticks(t: Template, s: string, ms: seq<Option<Match>>, i: nat)
    requires Advances(s, ms) && i <= |s|
    requires forall j :: i <= j < |s| && ms[j].Some? ==>
      Reticked(s[j..ms[j].value.end], Expand(t, ms[j].value.groups))
    ensures Reticked(s[i..], Scan(t, s, ms, i))
    decreases |s| - i
  {
    if i < |s| {
      match ms[i]
      case Some(m) =>
        ScanReticks(t, s, ms, m.end);
        RetickedAppend(s[i..m.end], Expand(t, m.groups), s[m.end..], Scan(t, s, ms, m.end));
        assert s[i..] == s[i..m.end] + s[m.end..];
      case None =>
        ScanReticks(t, s, ms, i + 1);
        RetickedAppend([s[i]], [s[i]], s[i + 1..], Scan(t, s, ms, i + 1));
        assert s[i..] == [s[i]] + s[i + 1..];
    }
  }

  /** `b` is `a` with some characters upper-cased. */
  predicate Upcased(a: string, b: string)
  {
    |a| == |b| && forall k :: 0 <= k < |a| ==> b[k] == a[k] || b[k] == Upper(a[k])
  }

  lemma UpcasedAppend(a1: string, b1: string, a2: string, b2: string)
    requires Upcased(a1, b1) && Upcased(a2, b2)
    ensures Upcased(a1 + a2, b1 + b2)
  {
    forall k | 0 <= k < |a1 + a2|
      ensures (b1 + b2)[k] == (a1 + a2)[k] || (b1 + b2)[k] == Upper((a1 + a2)[k])
    {
      if k >= |a1| {
        assert (a1 + a2)[k] == a2[k - |a1|] && (b1 + b2)[k] == b2[k - |a1|];
      }
    }
  }

  /**
   * A scan changes the text only by upper-casing characters when every
   * replacement does that to the text it replaces.
   */
  lemma {:induction false} ScanUpcases(t: Template, s: string, ms: seq<Option<Match>>, i: nat)
    requires Advances(s, ms) && i <= |s|
    requires forall j :: i <= j < |s| && ms[j].Some? ==>
      Upcased(s[j..ms[j].value.end], Expand(t, ms[j].value.groups))
    ensures Upcased(s[i..], Scan(t, s, ms, i))
    decreases |s| - i
  {
    if i < |s| {
      match ms[i]
      case Some(m) =>
        ScanUpcases(t, s, ms, m.end);
        UpcasedAppend(s[i..m.end], Expand(t, m.groups), s[m.end..], Scan(t, s, ms, m.end));
        assert s[i..] == s[i..m.end] + s[m.end..];
      case None =>
        ScanUpcases(t, s, ms, i + 1);
        UpcasedAppend([s[i]], [s[i]], s[i + 1..], Scan(t, s, ms, i + 1));
        assert s[i..] == [s[i]] + s[i + 1..];
    }
  }
}
