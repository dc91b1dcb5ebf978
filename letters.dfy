/**
 * A word cannot occur in a text when one of its characters, up to case, is
 * not among the letters the text is made of. Used to show that whole
 * stretches of the rule table pass a short text by.
 */
module Letters {
  import opened Text
  import opened Regex
  import opened SubFacts
  import opened Converter
  import opened ConverterFacts
  import opened Cascades

  /** Every character of `t`, upper-cased, is one of `letters`. */
  predicate InLetters(t: string, letters: set<char>)
  {
    forall j :: 0 <= j < |t| ==> Upper(t[j]) in letters
  }

  /** The character of `w` at offset `d`, upper-cased, is not one of `letters`. */
  predicate ForeignAt(w: string, letters: set<char>, d: nat)
  {
    d < |w| && Upper(w[d]) !in letters
  }

  /** Each lead of `rules[lo..hi]` has a foreign character at its offset in `ds`. */
  predicate ForeignFrom(rules: seq<Rule>, ds: seq<nat>, letters: set<char>, lo: nat, hi: nat)
  {
    forall k :: lo <= k < hi && k < |rules| && k < |ds| ==> ForeignAt(Lead(rules[k].pattern), letters, ds[k])
  }

  /** A word with a foreign character does not occur in a text made of the letters. */
  lemma LettersAvoid(w: string, t: string, letters: set<char>, d: nat)
    requires ForeignAt(w, letters, d) && InLetters(t, letters)
    ensures !Occurs(w, t, 0, |t|)
  {
    forall j | 0 <= j < |t|
      ensures !CiAt(t, j, w)
    {
      if j + |w| <= |t| {
        assert Upper(t[j + d]) in letters;
        Mismatch(t, j, w, d);
      } else {
        CiAtIff(t, j, w);
      }
    }
    NotOccursWhere(w, t, 0, |t|);
  }

  /**
   * Rules whose leads each have a foreign character, at the offsets `ds`,
   * leave a text made of the letters untouched.
   */
  lemma RulesAvoid(rules: seq<Rule>, ds: seq<nat>, t: string, letters: set<char>)
    requires |ds| == |rules| && InLetters(t, letters)
    requires ForeignFrom(rules, ds, letters, 0, |rules|)
    ensures Untouched(rules, t)
  {
    forall k | 0 <= k < |rules|
      ensures !Occurs(Lead(rules[k].pattern), t, 0, |t|)
    {
      LettersAvoid(Lead(rules[k].pattern), t, letters, ds[k]);
    }
  }

  /** Two untouched stretches of rules make an untouched whole. */
  lemma UntouchedAppend(a: seq<Rule>, b: seq<Rule>, t: string)
    requires Untouched(a, t) && Untouched(b, t)
    ensures Untouched(a + b, t)
  {
    forall k | 0 <= k < |a + b|
      ensures !Occurs(Lead((a + b)[k].pattern), t, 0, |t|)
    {
      if k < |a| {
        assert (a + b)[k] == a[k];
      } else {
        assert (a + b)[k] == b[k - |a|];
      }
    }
  }
}
