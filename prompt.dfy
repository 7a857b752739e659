/** The system-prompt composer `get_prompt(role, company)`: a first-match-wins
    keyword dispatch on the lower-cased company name, and one fixed sentence
    built around the title-cased company, the role and the chosen phrase. */
module Prompt {
  import opened Text

  const AmazonValues: string :=
    "Amazon\U{2019}s Leadership Principles such as Customer Obsession, Ownership, and Bias for Action"
  const GoogleValues: string :=
    "Google\U{2019}s focus on innovation, scalability, and data-driven engineering"
  const MetaValues: string :=
    "Meta's emphasis on impact, move fast, and be bold culture"
  const NetflixValues: string :=
    "Netflix\U{2019}s culture of freedom, responsibility, and high performance"
  const AppleValues: string :=
    "Apple\U{2019}s attention to detail, cross-functional collaboration, and product excellence"
  const FallbackValues: string :=
    "best practices from top-tier engineering organizations"

  const Opening: string := "You are a senior engineer at "
  const RoleIntro: string := " conducting a mock interview for a candidate applying for a "
  const ValuesIntro: string := " role. Tailor your questions based on "
  const ScoreSentence: string :=
    "After each candidate response, provide a score (1-5) and detailed feedback to help them improve."
  const Closing: string :=
    ". Ask a mix of technical and behavioral questions, "
    + "probe deeper with realistic follow-ups, and simulate an authentic FANG-style interview process. "
    + ScoreSentence

  /** True when any of the six company keywords occurs in `lowered`. */
  predicate AnyKeyword(lowered: string)
  {
    Contains(lowered, "amazon") || Contains(lowered, "google") || Contains(lowered, "meta")
    || Contains(lowered, "facebook") || Contains(lowered, "netflix") || Contains(lowered, "apple")
  }

  /** The values phrase chosen for an already lower-cased company name: the if/elif chain
      of `get_prompt`, tested in the order amazon, google, meta or facebook, netflix, apple. */
  function CompanyValues(lowered: string): (r: string)
    ensures r in {AmazonValues, GoogleValues, MetaValues, NetflixValues, AppleValues, FallbackValues}
    ensures r == FallbackValues <==> !AnyKeyword(lowered)
    ensures Contains(lowered, "amazon") ==> r == AmazonValues
  {
    if Contains(lowered, "amazon") then AmazonValues
    else if Contains(lowered, "google") then GoogleValues
    else if Contains(lowered, "meta") || Contains(lowered, "facebook") then MetaValues
    else if Contains(lowered, "netflix") then NetflixValues
    else if Contains(lowered, "apple") then AppleValues
    else FallbackValues
  }

  /** `get_prompt(role, company)`: it opens with the fixed opening, closes with the fixed
      boilerplate, and its length is that of the fixed text, the company, the role and
      the chosen phrase together (`PromptLayout` places every piece). */
  function GetPrompt(role: string, company: string): (r: string)
    ensures |r| == |Opening| + |company| + |RoleIntro| + |role| + |ValuesIntro|
                   + |CompanyValues(ToLower(company))| + |Closing|
    ensures |Opening| <= |r| && r[..|Opening|] == Opening
    ensures |Closing| <= |r| && r[|r| - |Closing|..] == Closing
  {
    var lowered := ToLower(company);
    ConcatPieces(Opening, Title(lowered), RoleIntro, role, ValuesIntro, CompanyValues(lowered), Closing);
    Opening + Title(lowered) + RoleIntro + role + ValuesIntro + CompanyValues(lowered) + Closing
  }

  // ---------------------------------------------------------------------------
  // The dispatch as an ordered table of rules

  /** One entry of the dispatch: it fires when any of its keywords occurs. */
  datatype Rule = Rule(keywords: seq<string>, phrase: string)

  predicate Fires(rule: Rule, lowered: string)
  {
    exists k :: k in rule.keywords && Contains(lowered, k)
  }

  /** The dispatch table, in evaluation order. */
  const Rules: seq<Rule> := [
    Rule(["amazon"], AmazonValues),
    Rule(["google"], GoogleValues),
    Rule(["meta", "facebook"], MetaValues),
    Rule(["netflix"], NetflixValues),
    Rule(["apple"], AppleValues)
  ]

  /** Reference semantics of an ordered table: the phrase of the first rule that fires. */
  function FirstMatch(rules: seq<Rule>, lowered: string): string
  {
    if rules == [] then FallbackValues
    else if Fires(rules[0], lowered) then rules[0].phrase
    else FirstMatch(rules[1..], lowered)
  }

  /** The phrases of `rules` are pairwise different and different from the fallback. */
  predicate PhrasesDistinct(rules: seq<Rule>)
  {
    (forall i :: 0 <= i < |rules| ==> rules[i].phrase != FallbackValues)
    && (forall i, j :: 0 <= i < j < |rules| ==> rules[i].phrase != rules[j].phrase)
  }

  /** The chosen phrase is the fallback or the phrase of some rule. */
  lemma {:induction false} FirstMatchRange(rules: seq<Rule>, lowered: string)
    ensures FirstMatch(rules, lowered) == FallbackValues
         || exists k :: 0 <= k < |rules| && FirstMatch(rules, lowered) == rules[k].phrase
  {
    if rules != [] && !Fires(rules[0], lowered) {
      FirstMatchRange(rules[1..], lowered);
      if FirstMatch(rules, lowered) != FallbackValues {
        var k :| 0 <= k < |rules| - 1 && FirstMatch(rules, lowered) == rules[1..][k].phrase;
        assert rules[1..][k] == rules[k + 1];
      }
    }
  }

  /** Dropping the first rule keeps the phrases distinct. */
  lemma TailDistinct(rules: seq<Rule>)
    requires rules != [] && PhrasesDistinct(rules)
    ensures PhrasesDistinct(rules[1..])
  {
  }

  /** In a table with distinct phrases, rule `i` is chosen exactly when it fires and
      no earlier rule does. */
  lemma {:induction false} FirstMatchAt(rules: seq<Rule>, lowered: string, i: nat)
    requires i < |rules| && PhrasesDistinct(rules)
    ensures FirstMatch(rules, lowered) == rules[i].phrase
        <==> Fires(rules[i], lowered) && forall j :: 0 <= j < i ==> !Fires(rules[j], lowered)
  {
    if !Fires(rules[0], lowered) {
      TailDistinct(rules);
      if i == 0 {
        FirstMatchRange(rules[1..], lowered);
        if FirstMatch(rules[1..], lowered) != FallbackValues {
          var k :| 0 <= k < |rules| - 1 && FirstMatch(rules[1..], lowered) == rules[1..][k].phrase;
          assert rules[1..][k] == rules[k + 1];
        }
      } else {
        FirstMatchAt(rules[1..], lowered, i - 1);
        assert forall j :: 0 < j < i ==> rules[j] == rules[1..][j - 1];
      }
    }
  }

  /** In a table whose phrases differ from the fallback, the fallback is chosen exactly
      when no rule fires. */
  lemma {:induction false} FirstMatchFallback(rules: seq<Rule>, lowered: string)
    requires PhrasesDistinct(rules)
    ensures FirstMatch(rules, lowered) == FallbackValues
        <==> forall j :: 0 <= j < |rules| ==> !Fires(rules[j], lowered)
  {
    if rules != [] && !Fires(rules[0], lowered) {
      TailDistinct(rules);
      FirstMatchFallback(rules[1..], lowered);
      assert forall j :: 0 < j < |rules| ==> rules[j] == rules[1..][j - 1];
    }
  }

  lemma RulesDistinct()
    ensures PhrasesDistinct(Rules)
  {
  }

  /** Rule `i` of a table fires exactly when one of the listed keywords occurs. */
  lemma FiresOne(rule: Rule, lowered: string, k: string)
    requires rule.keywords == [k]
    ensures Fires(rule, lowered) <==> Contains(lowered, k)
  {
  }

  /** The if/elif chain of `get_prompt` is the ordered table `Rules`. */
  lemma CompanyValuesFollowsRules(lowered: string)
    ensures CompanyValues(lowered) == FirstMatch(Rules, lowered)
  {
    var r1, r2, r3, r4 := Rules[1..], Rules[2..], Rules[3..], Rules[4..];
    assert r1[1..] == r2 && r2[1..] == r3 && r3[1..] == r4 && r4[1..] == [];
    FiresOne(Rules[0], lowered, "amazon");
    FiresOne(Rules[1], lowered, "google");
    FiresOne(Rules[3], lowered, "netflix");
    FiresOne(Rules[4], lowered, "apple");
    assert Fires(Rules[2], lowered) <==> Contains(lowered, "meta") || Contains(lowered, "facebook") by {
      if Contains(lowered, "facebook") {
        assert "facebook" in Rules[2].keywords;
      }
      if Contains(lowered, "meta") {
        assert "meta" in Rules[2].keywords;
      }
    }
    assert FirstMatch(r4, lowered) == if Fires(Rules[4], lowered) then AppleValues else FallbackValues;
    assert FirstMatch(r3, lowered) == if Fires(Rules[3], lowered) then NetflixValues else FirstMatch(r4, lowered);
    assert FirstMatch(r2, lowered) == if Fires(Rules[2], lowered) then MetaValues else FirstMatch(r3, lowered);
    assert FirstMatch(r1, lowered) == if Fires(Rules[1], lowered) then GoogleValues else FirstMatch(r2, lowered);
  }

  /** First match wins: rule `i` decides the phrase exactly when it fires and no rule
      before it in the order amazon, google, meta/facebook, netflix, apple does. */
  lemma FirstKeywordWins(lowered: string, i: nat)
    requires i < |Rules|
    ensures CompanyValues(lowered) == Rules[i].phrase
        <==> Fires(Rules[i], lowered) && forall j :: 0 <= j < i ==> !Fires(Rules[j], lowered)
  {
    CompanyValuesFollowsRules(lowered);
    RulesDistinct();
    FirstMatchAt(Rules, lowered, i);
  }

  /** Either "meta" or "facebook" selects the Meta phrase once amazon and google are ruled out,
      and nothing else selects it. */
  lemma MetaAndFacebookAgree(lowered: string)
    ensures CompanyValues(lowered) == MetaValues
        <==> !Contains(lowered, "amazon") && !Contains(lowered, "google")
             && (Contains(lowered, "meta") || Contains(lowered, "facebook"))
  {
  }

  // ---------------------------------------------------------------------------
  // Properties of the composed prompt

  /** Where each piece of a seven-part concatenation sits. */
  lemma ConcatPieces(a: string, b: string, c: string, d: string, e: string, f: string, g: string)
    ensures var p := a + b + c + d + e + f + g;
      var n1 := |a|; var n2 := n1 + |b|; var n3 := n2 + |c|; var n4 := n3 + |d|;
      var n5 := n4 + |e|; var n6 := n5 + |f|;
      |p| == n6 + |g| && p[..n1] == a && p[n1..n2] == b && p[n2..n3] == c && p[n3..n4] == d
      && p[n4..n5] == e && p[n5..n6] == f && p[n6..] == g
  {
  }

  /** The pieces of the prompt, as `get_prompt` concatenates them. */
  lemma PromptPieces(role: string, company: string)
    ensures var lowered := ToLower(company);
      GetPrompt(role, company) == Opening + Title(company) + RoleIntro + role + ValuesIntro
                                  + CompanyValues(lowered) + Closing
  {
    TitleOfLower(company);
  }

  /** The prompt is the opening, the title-cased company, the role verbatim, the phrase
      chosen for the lower-cased company and the closing boilerplate, in that order and
      nothing else (`Title(company)` has the length of `company`). */
  lemma PromptLayout(role: string, company: string)
    ensures var p := GetPrompt(role, company);
      var n1 := |Opening|; var n2 := n1 + |Title(company)|; var n3 := n2 + |RoleIntro|;
      var n4 := n3 + |role|; var n5 := n4 + |ValuesIntro|;
      var n6 := n5 + |CompanyValues(ToLower(company))|;
      |p| == n6 + |Closing| && p[..n1] == Opening && p[n1..n2] == Title(company)
      && p[n2..n3] == RoleIntro && p[n3..n4] == role && p[n4..n5] == ValuesIntro
      && p[n5..n6] == CompanyValues(ToLower(company)) && p[n6..] == Closing
  {
    PromptPieces(role, company);
    ConcatPieces(Opening, Title(company), RoleIntro, role, ValuesIntro, CompanyValues(ToLower(company)), Closing);
  }

  /** The prompt ends with the score sentence. */
  lemma PromptEndsWithScoreSentence(role: string, company: string)
    ensures var p := GetPrompt(role, company);
      |ScoreSentence| <= |p| && p[|p| - |ScoreSentence|..] == ScoreSentence
  {
  }

  /** The selected phrase and the whole prompt depend on the company name only up to letter case. */
  lemma PromptIgnoresCompanyCase(role: string, a: string, b: string)
    requires SameUpToCase(a, b)
    ensures CompanyValues(ToLower(a)) == CompanyValues(ToLower(b))
    ensures GetPrompt(role, a) == GetPrompt(role, b)
  {
    ToLowerIdentifiesCase(a, b);
  }

  /** For a fixed company, the prompt determines the role. */
  lemma RoleDeterminedByPrompt(r1: string, r2: string, company: string)
    requires GetPrompt(r1, company) == GetPrompt(r2, company)
    ensures r1 == r2
  {
    PromptLayout(r1, company);
    PromptLayout(r2, company);
  }

  /** Each keyword test is a case-insensitive substring test on the name as typed. */
  lemma KeywordTestIgnoresCase(company: string, k: string)
    requires k in ["amazon", "google", "meta", "facebook", "netflix", "apple"]
    ensures Contains(ToLower(company), k) <==> exists i :: MatchesAt(company, k, i)
  {
    LoweredContainsIgnoresCase(company, k);
  }

  /** A well-known company gets its own phrase, and its name appears title-cased
      whatever case it was typed in (the pieces `PromptLayout` places). */
  lemma AmazonExample()
    ensures CompanyValues(ToLower("AMAZON")) == AmazonValues
    ensures Title(ToLower("AMAZON")) == "Amazon"
  {
    assert ToLower("AMAZON") == "amazon";
    assert OccursAt("amazon", "amazon", 0);
  }

  /** A company matching no keyword gets the generic phrase. */
  lemma FallbackExample()
    ensures CompanyValues(ToLower("IBM")) == FallbackValues
  {
  }

  /** Title case starts each run of letters with a capital, also after a digit. */
  lemma TitleExamples()
    ensures Title("3m") == "3M"
  {
  }
}
