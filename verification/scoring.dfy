/**
 * The naming-quality heuristic that ranks files of equal size: higher is
 * better.  It prefers names that do not mention WhatsApp, are not copies, are
 * not timestamp-named and contain an underscore, in that order of weight.
 */
module Scoring {
  import opened Text

  /** `/^\d{4}-\d{2}-\d{2}/`: the name starts with a YYYY-MM-DD date. */
  predicate StartsWithDate(name: String)
  {
    && |name| >= 10
    && IsDigit(name[0]) && IsDigit(name[1]) && IsDigit(name[2]) && IsDigit(name[3])
    && name[4] == '-'
    && IsDigit(name[5]) && IsDigit(name[6])
    && name[7] == '-'
    && IsDigit(name[8]) && IsDigit(name[9])
  }

  /** `getQualityScore`: four independent bonuses, summed. */
  function QualityScore(name: String): (score: nat)
    ensures score <= 19
  {
    (if !Contains(Lower(name), "whatsapp") then 10 else 0)
    + (if !Contains(Lower(name), "copy") then 5 else 0)
    + (if !StartsWithDate(name) then 3 else 0)
    + (if Contains(name, "_") then 1 else 0)
  }

  /** The four qualities the heuristic looks for, most important first. */
  datatype Traits = Traits(notWhatsApp: bool, notCopy: bool, undated: bool, underscored: bool)

  function TraitsOf(name: String): Traits
  {
    Traits(!Contains(Lower(name), "whatsapp"), !Contains(Lower(name), "copy"),
           !StartsWithDate(name), Contains(name, "_"))
  }

  /** `a` has the first quality on which the two differ, and `b` lacks it. */
  predicate Better(a: Traits, b: Traits)
  {
    if a.notWhatsApp != b.notWhatsApp then a.notWhatsApp
    else if a.notCopy != b.notCopy then a.notCopy
    else if a.undated != b.undated then a.undated
    else a.underscored && !b.underscored
  }

  /**
   * The weights 10, 5, 3 and 1 rank names lexicographically by their traits:
   * a higher score means better traits, and equal scores mean equal traits.
   */
  lemma ScoreRanksTraits(a: String, b: String)
    ensures QualityScore(a) > QualityScore(b) <==> Better(TraitsOf(a), TraitsOf(b))
    ensures QualityScore(a) == QualityScore(b) <==> TraitsOf(a) == TraitsOf(b)
  {
  }

  lemma {:induction false} ContainsChar(s: String, c: char)
    ensures Contains(s, [c]) <==> c in s
  {
    forall i | 0 <= i < |s| ensures OccursAt(s, [c], i) <==> s[i] == c {
      assert s[i..i + 1] == [s[i]];
    }
    if c in s {
      var i :| 0 <= i < |s| && s[i] == c;
      assert OccursAt(s, [c], i);
    }
  }

  /** The score does not depend on letter case. */
  lemma ScoreIgnoresCase(a: String, b: String)
    requires Lower(a) == Lower(b)
    ensures QualityScore(a) == QualityScore(b)
  {
    forall s: String ensures StartsWithDate(s) <==> StartsWithDate(Lower(s))
                     ensures '_' in s <==> '_' in Lower(s)
    {
      forall i | 0 <= i < |s| ensures IsDigit(Lower(s)[i]) <==> IsDigit(s[i])
                              ensures Lower(s)[i] == '-' <==> s[i] == '-'
                              ensures Lower(s)[i] == '_' <==> s[i] == '_'
      {
        LowerKeepsSymbols(s[i]);
      }
    }
    ContainsChar(a, '_');
    ContainsChar(b, '_');
  }
}
