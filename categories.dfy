/** The category chain of the row classifier (parse_roster_pdfs.py:149-160). */
module Categories {
  import opened Text
  import opened RosterTypes

  /** The category of a player from the text of their roster designation:
      case-sensitive substring tests in a fixed order, the first that matches
      decides, and a designation that matches none is "Standard". */
  function Categorize(designation: string): Category {
    if Contains(designation, "Designated Player") || Contains(designation, "Young Designated") then DesignatedPlayer
    else if Contains(designation, "U22 Initiative") then U22Initiative
    else if Contains(designation, "TAM Player") then TamPlayer
    else if Contains(designation, "Homegrown") then Homegrown
    else if Contains(designation, "Generation adidas") then GenerationAdidas
    else Standard
  }

  /** A classification rule: any of its patterns in the designation selects its category. */
  datatype Rule = Rule(patterns: seq<string>, category: Category)

  /** The rules of the chain as data, in precedence order. */
  const Rules: seq<Rule> := [
    Rule(["Designated Player", "Young Designated"], DesignatedPlayer),
    Rule(["U22 Initiative"], U22Initiative),
    Rule(["TAM Player"], TamPlayer),
    Rule(["Homegrown"], Homegrown),
    Rule(["Generation adidas"], GenerationAdidas)
  ]

  predicate Matches(rule: Rule, designation: string) {
    exists p | p in rule.patterns :: Contains(designation, p)
  }

  /** The reference reading of an ordered rule list: the category of the first
      rule that matches, "Standard" when none does. */
  function FirstMatch(rules: seq<Rule>, designation: string): Category {
    if rules == [] then Standard
    else if Matches(rules[0], designation) then rules[0].category
    else FirstMatch(rules[1..], designation)
  }

  /** Each rule of the list matches exactly when the corresponding test of
      the chain succeeds. */
  lemma RulesMatchTests(d: string)
    ensures Matches(Rules[0], d) <==> Contains(d, "Designated Player") || Contains(d, "Young Designated")
    ensures Matches(Rules[1], d) <==> Contains(d, "U22 Initiative")
    ensures Matches(Rules[2], d) <==> Contains(d, "TAM Player")
    ensures Matches(Rules[3], d) <==> Contains(d, "Homegrown")
    ensures Matches(Rules[4], d) <==> Contains(d, "Generation adidas")
  {
    assert Rules[0].patterns == ["Designated Player", "Young Designated"];
    assert Rules[1].patterns == ["U22 Initiative"];
    assert Rules[2].patterns == ["TAM Player"];
    assert Rules[3].patterns == ["Homegrown"];
    assert Rules[4].patterns == ["Generation adidas"];
  }

  /** The chain and the rule list agree on every designation. */
  lemma CategorizeFollowsRules(designation: string)
    ensures Categorize(designation) == FirstMatch(Rules, designation)
  {
    var d := designation;
    RulesMatchTests(d);
    assert Rules[5..] == [];
    assert Rules[4..][1..] == Rules[5..];
    assert Rules[3..][1..] == Rules[4..];
    assert Rules[2..][1..] == Rules[3..];
    assert Rules[1..][1..] == Rules[2..];
    assert FirstMatch(Rules[4..], d) == if Matches(Rules[4], d) then GenerationAdidas else Standard;
    assert FirstMatch(Rules[3..], d) == if Matches(Rules[3], d) then Homegrown else FirstMatch(Rules[4..], d);
    assert FirstMatch(Rules[2..], d) == if Matches(Rules[2], d) then TamPlayer else FirstMatch(Rules[3..], d);
    assert FirstMatch(Rules[1..], d) == if Matches(Rules[1], d) then U22Initiative else FirstMatch(Rules[2..], d);
  }

  /** In any rule list, the rule at index k decides when it matches and no
      earlier rule does. */
  lemma {:induction false} FirstMatchAt(rules: seq<Rule>, designation: string, k: nat)
    requires k < |rules| && Matches(rules[k], designation)
    requires forall j | 0 <= j < k :: !Matches(rules[j], designation)
    ensures FirstMatch(rules, designation) == rules[k].category
  {
    if k > 0 {
      assert !Matches(rules[0], designation);
      FirstMatchAt(rules[1..], designation, k - 1);
    }
  }

  /** In a rule list without a "Standard" rule, the result is "Standard"
      exactly when no rule matches. */
  lemma {:induction false} FirstMatchStandard(rules: seq<Rule>, designation: string)
    requires forall j | 0 <= j < |rules| :: rules[j].category != Standard
    ensures FirstMatch(rules, designation) == Standard <==>
            forall j | 0 <= j < |rules| :: !Matches(rules[j], designation)
  {
    if rules != [] {
      FirstMatchStandard(rules[1..], designation);
      assert forall j | 1 <= j < |rules| :: rules[j] == rules[1..][j - 1];
    }
  }

  /** Precedence: the category is that of the first rule, in the fixed order,
      whose pattern occurs in the designation. */
  lemma CategoryPrecedence(designation: string, k: nat)
    requires k < |Rules| && Matches(Rules[k], designation)
    requires forall j | 0 <= j < k :: !Matches(Rules[j], designation)
    ensures Categorize(designation) == Rules[k].category
  {
    CategorizeFollowsRules(designation);
    FirstMatchAt(Rules, designation, k);
  }

  /** "Standard" is the category exactly when no rule's pattern occurs. */
  lemma StandardWhenNoRuleMatches(designation: string)
    ensures Categorize(designation) == Standard <==>
            forall j | 0 <= j < |Rules| :: !Matches(Rules[j], designation)
  {
    CategorizeFollowsRules(designation);
    FirstMatchStandard(Rules, designation);
  }

  /** A young designated player who is also U22-initiative eligible is
      classified as a designated player: the earlier rule wins. */
  lemma YoungDesignatedPlayerExample()
    ensures Categorize("Young " + "Designated Player" + " (U22 Initiative eligible)") == DesignatedPlayer
  {
    ContainsMiddle("Young ", "Designated Player", " (U22 Initiative eligible)");
  }

  predicate HasLowerCase(s: string) {
    exists k | 0 <= k < |s| :: 'a' <= s[k] <= 'z'
  }

  /** The tests are case-sensitive and every pattern holds a lower-case
      letter, so a designation without one is "Standard". */
  lemma NoLowerCaseIsStandard(d: string)
    requires !HasLowerCase(d)
    ensures Categorize(d) == Standard
  {
    assert 'e' !in d && 'o' !in d && 'n' !in d && 'l' !in d;
    MissingCharNotContained(d, "Designated Player", 'e');
    MissingCharNotContained(d, "Young Designated", 'o');
    MissingCharNotContained(d, "U22 Initiative", 'n');
    MissingCharNotContained(d, "TAM Player", 'l');
    MissingCharNotContained(d, "Homegrown", 'o');
    MissingCharNotContained(d, "Generation adidas", 'e');
  }

  /** Upper-casing a designation makes it "Standard": "GENERATION ADIDAS"
      is not a Generation adidas player. */
  lemma UpperCaseDesignationIsStandard(d: string)
    ensures Categorize(Upper(d)) == Standard
  {
    var u := Upper(d);
    forall k | 0 <= k < |u| ensures !('a' <= u[k] <= 'z') {
      assert u[k] == UpperChar(d[k]);
    }
    NoLowerCaseIsStandard(u);
  }

  /** The designation "Homegrown" gives the Homegrown category. */
  lemma HomegrownCategory()
    ensures Categorize("Homegrown") == Homegrown
  {
    var d := "Homegrown";
    assert OccursAt(d, d, 0);
    MissingCharNotContained(d, "Designated Player", 'D');
    MissingCharNotContained(d, "Young Designated", 'Y');
    MissingCharNotContained(d, "U22 Initiative", 'U');
    MissingCharNotContained(d, "TAM Player", 'T');
  }
}
