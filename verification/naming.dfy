/**
 * `generateNewName`: the new base name of a surviving image, chosen by a
 * fixed-priority keyword classifier over its lower-cased stem, with a
 * numbered fallback, followed by the original extension as written.
 */
module Naming {
  import opened Wrappers
  import opened Text
  import opened Files

  // ---------------------------------------------------------------------------
  // The classifier

  /** The number shown in a fallback name: `String(index + 1).padStart(2, '0')`. */
  function IndexLabel(index: nat): String
  {
    PadStart(NatToString(index + 1), 2, '0')
  }

  /**
   * The `(category, description)` pair for a lower-cased stem: the first
   * keyword test that succeeds decides, in the order the source tests them.
   */
  function Classify(base: String, index: nat): (String, String)
  {
    if Contains(base, "hero") || Contains(base, "banner") then ("hero", "main")
    else if Contains(base, "catering") then ("catering", "service")
    else if Contains(base, "white") || Contains(base, "label") then ("white_label", "service")
    else if Contains(base, "hotel") || Contains(base, "cafe") then ("hotels_cafes", "service")
    else if Contains(base, "video") || Contains(base, "poster") then ("video", "poster")
    else ("image", IndexLabel(index))
  }

  /** `generateNewName(file, index)` for a file with base name `name`. */
  function GenerateNewName(name: String, index: nat): String
  {
    var (category, description) := Classify(Lower(Stem(name)), index);
    category + "_" + description + ExtName(name)
  }

  // ---------------------------------------------------------------------------
  // The same classifier as a rule table

  /** A keyword rule: any keyword in the stem selects the category and description. */
  datatype Rule = Rule(keywords: seq<String>, category: String, description: String)

  /** The keyword rules, highest priority first. */
  const Rules: seq<Rule> := [
    Rule(["hero", "banner"], "hero", "main"),
    Rule(["catering"], "catering", "service"),
    Rule(["white", "label"], "white_label", "service"),
    Rule(["hotel", "cafe"], "hotels_cafes", "service"),
    Rule(["video", "poster"], "video", "poster")
  ]

  predicate Matches(rule: Rule, base: String)
  {
    exists k :: k in rule.keywords && Contains(base, k)
  }

  /** The first rule of `rules` that matches `base`, if any. */
  function FirstMatch(rules: seq<Rule>, base: String): (r: Option<Rule>)
    ensures r.Some? ==> r.value in rules && Matches(r.value, base)
    ensures r.None? <==> forall i :: 0 <= i < |rules| ==> !Matches(rules[i], base)
    ensures r.Some? ==> exists j :: 0 <= j < |rules| && rules[j] == r.value
                                   && forall i :: 0 <= i < j ==> !Matches(rules[i], base)
  {
    if rules == [] then None
    else if Matches(rules[0], base) then Some(rules[0])
    else
      var r := FirstMatch(rules[1..], base);
      assert forall i :: 1 <= i < |rules| ==> rules[i] == rules[1..][i - 1];
      if r.Some? then
        var j :| 0 <= j < |rules[1..]| && rules[1..][j] == r.value
                 && forall i :: 0 <= i < j ==> !Matches(rules[1..][i], base);
        assert rules[j + 1] == r.value && forall i :: 0 <= i < j + 1 ==> !Matches(rules[i], base);
        r
      else r
  }

  /** The classification the rule table prescribes, with the numbered fallback. */
  function ByRules(base: String, index: nat): (String, String)
  {
    match FirstMatch(Rules, base)
    case Some(rule) => (rule.category, rule.description)
    case None => ("image", IndexLabel(index))
  }

  lemma MatchesEither(rule: Rule, base: String)
    requires |rule.keywords| == 2
    ensures Matches(rule, base) <==> Contains(base, rule.keywords[0]) || Contains(base, rule.keywords[1])
  {
    if Contains(base, rule.keywords[0]) {
      assert rule.keywords[0] in rule.keywords;
    }
    if Contains(base, rule.keywords[1]) {
      assert rule.keywords[1] in rule.keywords;
    }
  }

  lemma MatchesOnly(rule: Rule, base: String)
    requires |rule.keywords| == 1
    ensures Matches(rule, base) <==> Contains(base, rule.keywords[0])
  {
    if Contains(base, rule.keywords[0]) {
      assert rule.keywords[0] in rule.keywords;
    }
  }

  lemma FirstMatchCons(rules: seq<Rule>, base: String)
    requires rules != []
    ensures FirstMatch(rules, base)
         == if Matches(rules[0], base) then Some(rules[0]) else FirstMatch(rules[1..], base)
  {
  }

  /** The chain of tests agrees with the first matching rule of the table. */
  lemma ClassifyFollowsRules(base: String, index: nat)
    ensures Classify(base, index) == ByRules(base, index)
  {
    var r0 := Rules;
    var r1, r2, r3, r4 := r0[1..], r0[2..], r0[3..], r0[4..];
    assert r1 == r0[1..] && r2 == r1[1..] && r3 == r2[1..] && r4 == r3[1..] && r4[1..] == [];
    MatchesEither(r0[0], base);
    MatchesOnly(r1[0], base);
    MatchesEither(r2[0], base);
    MatchesEither(r3[0], base);
    MatchesEither(r4[0], base);
    FirstMatchCons(r0, base);
    FirstMatchCons(r1, base);
    FirstMatchCons(r2, base);
    FirstMatchCons(r3, base);
    FirstMatchCons(r4, base);
  }

  // ---------------------------------------------------------------------------
  // Properties of the generated name

  /** A fallback label is at least two decimal digits and reads back as `index + 1`. */
  lemma IndexLabelValue(index: nat)
    ensures |IndexLabel(index)| >= 2
    ensures forall i :: 0 <= i < |IndexLabel(index)| ==> IsDigit(IndexLabel(index)[i])
    ensures ParseDecimal(IndexLabel(index)) == index + 1
    ensures |NatToString(index + 1)| >= 2 ==> IndexLabel(index) == NatToString(index + 1)
    ensures index + 1 < 10 ==> |IndexLabel(index)| == 2
  {
    var s := NatToString(index + 1);
    ParseNatToString(index + 1);
    if |s| < 2 {
      ParseLeadingZeros(2 - |s|, s);
    }
  }

  /** The examples of the padding rule: 0 becomes "01", 2 becomes "03", 99 becomes "100". */
  lemma IndexLabelExamples()
    ensures IndexLabel(0) == "01" && IndexLabel(2) == "03" && IndexLabel(99) == "100"
  {
    assert NatToString(1) == "1";
    assert NatToString(3) == "3";
    assert NatToString(100) == NatToString(10) + "0" == "100";
  }

  /** Lower-case letters, digits and underscores only. */
  predicate Word(s: String)
  {
    forall i :: 0 <= i < |s| ==> ('a' <= s[i] <= 'z') || IsDigit(s[i]) || s[i] == '_'
  }

  lemma WordJoin(c: String, d: String)
    requires Word(c) && Word(d)
    ensures Word(c + "_" + d)
  {
  }

  /** A word holds no dot, no dollar sign and no backslash. */
  lemma WordAvoids(s: String)
    requires Word(s)
    ensures '.' !in s && '$' !in s && '\\' !in s
  {
  }

  /** Every category and description is a word; the first part is never empty. */
  lemma {:induction false} ClassifyIsWord(base: String, index: nat)
    ensures var (c, d) := Classify(base, index);
      c != [] && Word(c + "_" + d)
  {
    ClassifyFollowsRules(base, index);
    match FirstMatch(Rules, base)
    case Some(rule) =>
      RulesAreWords(rule);
      WordJoin(rule.category, rule.description);
    case None =>
      IndexLabelValue(index);
      WordJoin("image", IndexLabel(index));
  }

  lemma RulesAreWords(rule: Rule)
    requires rule in Rules
    ensures rule.category != [] && Word(rule.category) && Word(rule.description)
  {
    var k :| 0 <= k < |Rules| && Rules[k] == rule;
    RuleIsWord(k);
  }

  lemma RuleIsWord(k: nat)
    requires k < |Rules|
    ensures Rules[k].category != [] && Word(Rules[k].category) && Word(Rules[k].description)
  {
    if k == 0 {
      WordsOfLiterals("hero", "main");
    } else if k == 1 {
      WordsOfLiterals("catering", "service");
    } else if k == 2 {
      WordsOfLiterals("white_label", "service");
    } else if k == 3 {
      WordsOfLiterals("hotels_cafes", "service");
    } else {
      WordsOfLiterals("video", "poster");
    }
  }

  lemma WordsOfLiterals(c: String, d: String)
    requires forall i :: 0 <= i < |c| ==> ('a' <= c[i] <= 'z') || c[i] == '_'
    requires forall i :: 0 <= i < |d| ==> ('a' <= d[i] <= 'z') || d[i] == '_'
    ensures Word(c) && Word(d)
  {
  }

  /** The new name keeps the original extension exactly, case included. */
  lemma NewNameKeepsExtension(name: String, index: nat)
    ensures ExtName(GenerateNewName(name, index)) == ExtName(name)
    ensures Stem(GenerateNewName(name, index))
         == Classify(Lower(Stem(name)), index).0 + "_" + Classify(Lower(Stem(name)), index).1
  {
    var (c, d) := Classify(Lower(Stem(name)), index);
    ClassifyIsWord(Lower(Stem(name)), index);
    WordAvoids(c + "_" + d);
    var e := ExtName(name);
    ExtNameOfSuffix(c + "_" + d, e);
    assert GenerateNewName(name, index) == (c + "_" + d) + e;
  }
}
