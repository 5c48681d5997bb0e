/**
 * The keyword table of the feature pass (route.ts lines 18-99): 57 rules, each
 * a case-insensitive regular expression that is an alternation of literal
 * keywords, paired with the design code it adds. The table is stored series by
 * series, as the source groups it.
 */
module KeywordRules {
  import opened Text
  import opened DesignCodes
  import opened OrderedSet

  /** One `if (/a|b|c/i.test(featureName)) designCodes.add(code)` line. */
  datatype KeywordRule = KeywordRule(alternatives: seq<string>, code: DesignCode)

  /** Celestial bodies (01 series); route.ts lines 19-22. */
  const Celestial: seq<KeywordRule> := [
    KeywordRule(["star", "astro", "celestial"], DesignCode(1, 1, 1)),
    KeywordRule(["sun", "solar"], DesignCode(1, 3, 1)),
    KeywordRule(["moon", "lunar"], DesignCode(1, 7, 1)),
    KeywordRule(["planet", "saturn", "mars"], DesignCode(1, 11, 1))
  ]

  /** Human figures (02 series); route.ts lines 25-30. */
  const HumanFigures: seq<KeywordRule> := [
    KeywordRule(["face", "head", "portrait"], DesignCode(2, 3, 1)),
    KeywordRule(["hand", "finger", "palm"], DesignCode(2, 9, 1)),
    KeywordRule(["eye", "iris", "pupil"], DesignCode(2, 9, 4)),
    KeywordRule(["lip", "mouth"], DesignCode(2, 9, 8)),
    KeywordRule(["arm", "forearm"], DesignCode(2, 9, 14)),
    KeywordRule(["leg", "foot", "feet"], DesignCode(2, 9, 20))
  ]

  /** Animals (03 series); route.ts lines 33-44. */
  const Animals: seq<KeywordRule> := [
    KeywordRule(["lion", "tiger", "cat", "feline"], DesignCode(3, 1, 1)),
    KeywordRule(["dog", "wolf", "canine"], DesignCode(3, 1, 8)),
    KeywordRule(["bear", "panda"], DesignCode(3, 1, 14)),
    KeywordRule(["horse", "stallion", "equine"], DesignCode(3, 3, 1)),
    KeywordRule(["cow", "bull", "cattle"], DesignCode(3, 4, 1)),
    KeywordRule(["sheep", "goat"], DesignCode(3, 4, 11)),
    KeywordRule(["bird", "wing"], DesignCode(3, 7, 1)),
    KeywordRule(["eagle", "hawk", "falcon"], DesignCode(3, 7, 2)),
    KeywordRule(["dove", "peace.bird"], DesignCode(3, 7, 9)),
    KeywordRule(["fish", "marine"], DesignCode(3, 9, 1)),
    KeywordRule(["snake", "serpent"], DesignCode(3, 11, 1)),
    KeywordRule(["dragon", "mythical"], DesignCode(3, 11, 13))
  ]

  /** Plants (05 series); route.ts lines 47-51. */
  const Plants: seq<KeywordRule> := [
    KeywordRule(["tree", "palm"], DesignCode(5, 1, 1)),
    KeywordRule(["leaf", "foliage"], DesignCode(5, 3, 1)),
    KeywordRule(["flower", "bloom", "petal"], DesignCode(5, 5, 1)),
    KeywordRule(["fruit", "apple", "orange"], DesignCode(5, 7, 1)),
    KeywordRule(["grain", "wheat", "corn"], DesignCode(5, 7, 2))
  ]

  /** Buildings (07 series); route.ts lines 54-60. */
  const Buildings: seq<KeywordRule> := [
    KeywordRule(["house", "building", "structure"], DesignCode(7, 1, 1)),
    KeywordRule(["castle", "fortress"], DesignCode(7, 1, 2)),
    KeywordRule(["church", "temple", "religious"], DesignCode(7, 1, 3)),
    KeywordRule(["bridge", "arch"], DesignCode(7, 11, 1)),
    KeywordRule(["tower", "antenna"], DesignCode(7, 5, 2))
  ]

  /** Implements (08 series); route.ts lines 63-66. */
  const Implements: seq<KeywordRule> := [
    KeywordRule(["tool", "implement"], DesignCode(8, 1, 1)),
    KeywordRule(["hammer", "mallet"], DesignCode(8, 1, 3)),
    KeywordRule(["sword", "blade"], DesignCode(8, 3, 1)),
    KeywordRule(["key", "lock"], DesignCode(8, 7, 1))
  ]

  /** Clothing (09 series); route.ts lines 69-72. */
  const Clothing: seq<KeywordRule> := [
    KeywordRule(["clothing", "garment", "apparel"], DesignCode(9, 1, 1)),
    KeywordRule(["hat", "cap", "crown"], DesignCode(9, 5, 1)),
    KeywordRule(["shoe", "boot", "footwear"], DesignCode(9, 9, 1))
  ]

  /** Transportation (18 series); route.ts lines 75-78. */
  const Transportation: seq<KeywordRule> := [
    KeywordRule(["vehicle", "car", "auto"], DesignCode(18, 1, 1)),
    KeywordRule(["train", "railway"], DesignCode(18, 5, 1)),
    KeywordRule(["plane", "aircraft"], DesignCode(18, 5, 3)),
    KeywordRule(["ship", "boat", "vessel"], DesignCode(18, 3, 2))
  ]

  /** Geometric figures (26 series); `.` in the two line patterns is a wildcard; route.ts lines 81-87. */
  const GeometricFigures: seq<KeywordRule> := [
    KeywordRule(["circle", "round"], DesignCode(26, 1, 1)),
    KeywordRule(["triangle"], DesignCode(26, 3, 1)),
    KeywordRule(["square", "rectangle"], DesignCode(26, 5, 1)),
    KeywordRule(["hexagon", "octagon"], DesignCode(26, 5, 9)),
    KeywordRule(["curved.line", "wave"], DesignCode(26, 11, 1)),
    KeywordRule(["straight.line", "stripe"], DesignCode(26, 11, 2)),
    KeywordRule(["arrow", "pointer"], DesignCode(26, 11, 21))
  ]

  /** Letters and numbers (27 series); route.ts lines 90-93. */
  const LettersAndNumbers: seq<KeywordRule> := [
    KeywordRule(["text", "letter", "word"], DesignCode(27, 3, 1)),
    KeywordRule(["number", "digit", "numeric"], DesignCode(27, 7, 1)),
    KeywordRule(["script", "cursive"], DesignCode(27, 3, 5)),
    KeywordRule(["greek", "latin"], DesignCode(27, 3, 2))
  ]

  /** Inscriptions (28 series); route.ts lines 96-99. */
  const Inscriptions: seq<KeywordRule> := [
    KeywordRule(["inscription", "writing"], DesignCode(28, 11, 1)),
    KeywordRule(["chinese", "japanese", "asian"], DesignCode(28, 3, 1)),
    KeywordRule(["arabic", "farsi"], DesignCode(28, 1, 1))
  ]
  /** The whole table, in the order the source tests it. */
  const Table: seq<KeywordRule> :=
    Celestial + HumanFigures + Animals + Plants + Buildings + Implements +
    Clothing + Transportation + GeometricFigures + LettersAndNumbers + Inscriptions

  /** A rule fires when one of its alternatives occurs in the text. */
  predicate Fires(rule: KeywordRule, text: string) {
    exists a | a in rule.alternatives :: Occurs(a, text)
  }

  /** The codes of the rules that fire on `text`, in table order, one per firing rule. */
  function FiringCodes(rules: seq<KeywordRule>, text: string): seq<DesignCode> {
    if rules == [] then []
    else
      var last := rules[|rules| - 1];
      FiringCodes(rules[..|rules| - 1], text) + (if Fires(last, text) then [last.code] else [])
  }

  /** A code is added exactly when some rule naming it fires; rules fire
      independently of each other and of their order. */
  lemma {:induction false} FiringCodesMembers(rules: seq<KeywordRule>, text: string)
    ensures forall c :: c in FiringCodes(rules, text) <==>
                        exists rule :: rule in rules && rule.code == c && Fires(rule, text)
  {
    if rules != [] {
      var init, last := rules[..|rules| - 1], rules[|rules| - 1];
      assert rules == init + [last];
      assert forall rule :: rule in rules <==> rule in init || rule == last;
      FiringCodesMembers(init, text);
    }
  }

  /** A rule that fires contributes its code. */
  lemma FiringRuleAdds(rules: seq<KeywordRule>, i: nat, text: string)
    requires i < |rules| && Fires(rules[i], text)
    ensures rules[i].code in FiringCodes(rules, text)
  {
    FiringCodesMembers(rules, text);
    assert rules[i] in rules;
  }

  /** A code no firing rule names is not added. */
  lemma CodeNotAdded(rules: seq<KeywordRule>, text: string, c: DesignCode)
    requires forall i :: 0 <= i < |rules| && rules[i].code == c ==> !Fires(rules[i], text)
    ensures c !in FiringCodes(rules, text)
  {
    FiringCodesMembers(rules, text);
    forall rule | rule in rules && rule.code == c ensures !Fires(rule, text) {
      var i :| 0 <= i < |rules| && rules[i] == rule;
    }
  }

  /** When no rule fires, nothing is added. */
  lemma NoneFire(rules: seq<KeywordRule>, text: string)
    requires forall i :: 0 <= i < |rules| ==> !Fires(rules[i], text)
    ensures FiringCodes(rules, text) == []
  {
    FiringCodesMembers(rules, text);
    forall rule | rule in rules ensures !Fires(rule, text) {
      var i :| 0 <= i < |rules| && rules[i] == rule;
    }
    EmptyIffNoMembers(FiringCodes(rules, text));
  }

  lemma FiringCodesStep(rules: seq<KeywordRule>, k: nat, text: string)
    requires k < |rules|
    ensures FiringCodes(rules[..k + 1], text)
         == FiringCodes(rules[..k], text) + (if Fires(rules[k], text) then [rules[k].code] else [])
  {
    assert rules[..k + 1][..k] == rules[..k];
  }

  /** Rules carry the `i` flag: lower-casing the text first changes nothing. */
  lemma FiresCaseInsensitive(rule: KeywordRule, text: string)
    ensures Fires(rule, Lower(text)) == Fires(rule, text)
  {
    forall a | a in rule.alternatives ensures Occurs(a, Lower(text)) == Occurs(a, text) {
      OccursCaseInsensitive(a, text);
    }
  }

  lemma {:induction false} FiringCodesCaseInsensitive(rules: seq<KeywordRule>, text: string)
    ensures FiringCodes(rules, Lower(text)) == FiringCodes(rules, text)
  {
    if rules != [] {
      FiringCodesCaseInsensitive(rules[..|rules| - 1], text);
      FiresCaseInsensitive(rules[|rules| - 1], text);
    }
  }

  /** The set of the codes `rules` name; `CodesOf(Table)` is every code the table can add. */
  function CodesOf(rules: seq<KeywordRule>): (codes: set<DesignCode>)
    ensures forall rule :: rule in rules ==> rule.code in codes
    ensures forall c :: c in codes ==> exists rule :: rule in rules && rule.code == c
  {
    set rule | rule in rules :: rule.code
  }

  /** The codes of `rules` are well formed and none is in the colour category 29. */
  predicate NoColorCodes(rules: seq<KeywordRule>) {
    forall i :: 0 <= i < |rules| ==> rules[i].code.WellFormed() && rules[i].code.category != 29
  }

  lemma NoColorCodesAppend(a: seq<KeywordRule>, b: seq<KeywordRule>)
    requires NoColorCodes(a) && NoColorCodes(b)
    ensures NoColorCodes(a + b)
  {
    forall i | 0 <= i < |a + b| ensures (a + b)[i].code.WellFormed() && (a + b)[i].code.category != 29 {
      if i >= |a| { assert (a + b)[i] == b[i - |a|]; }
    }
  }

  lemma TableHasNoColorCodes()
    ensures NoColorCodes(Table)
  {
    SeriesShapes();
    var t := Celestial;
    NoColorCodesAppend(t, HumanFigures); t := t + HumanFigures;
    NoColorCodesAppend(t, Animals); t := t + Animals;
    NoColorCodesAppend(t, Plants); t := t + Plants;
    NoColorCodesAppend(t, Buildings); t := t + Buildings;
    NoColorCodesAppend(t, Implements); t := t + Implements;
    NoColorCodesAppend(t, Clothing); t := t + Clothing;
    NoColorCodesAppend(t, Transportation); t := t + Transportation;
    NoColorCodesAppend(t, GeometricFigures); t := t + GeometricFigures;
    NoColorCodesAppend(t, LettersAndNumbers); t := t + LettersAndNumbers;
    NoColorCodesAppend(t, Inscriptions); t := t + Inscriptions;
    assert t == Table;
  }

  /** Every code of the table is well formed, and none belongs to the colour
      category 29, so the feature pass never adds a colour code. */
  lemma TableCodeShape(rule: KeywordRule)
    requires rule in Table
    ensures rule.code.WellFormed()
    ensures rule.code.category != 29
  {
    TableHasNoColorCodes();
    var i :| 0 <= i < |Table| && Table[i] == rule;
  }

  /** No two rules of `rules` add the same code. */
  predicate DistinctCodes(rules: seq<KeywordRule>) {
    forall i, j :: 0 <= i < j < |rules| ==> rules[i].code != rules[j].code
  }

  /** Every code of `rules` has a category between `lo` and `hi`. */
  predicate InCategories(rules: seq<KeywordRule>, lo: nat, hi: nat) {
    forall i :: 0 <= i < |rules| ==> lo <= rules[i].code.category <= hi
  }

  /** Whether every code of `rules` from index `i` on is well formed and of category `cat`:
      a check Dafny can evaluate on the literal series. */
  function AllInCategory(rules: seq<KeywordRule>, cat: nat, i: nat): bool
    decreases |rules| - i
  {
    i >= |rules| || (rules[i].code.WellFormed() && rules[i].code.category == cat && AllInCategory(rules, cat, i + 1))
  }

  lemma {:induction false} AllInCategoryMeans(rules: seq<KeywordRule>, cat: nat, i: nat)
    requires AllInCategory(rules, cat, i)
    ensures forall j :: i <= j < |rules| ==> rules[j].code.WellFormed() && rules[j].code.category == cat
    decreases |rules| - i
  {
    if i < |rules| {
      AllInCategoryMeans(rules, cat, i + 1);
    }
  }

  /** Whether no rule of `rules` from index `j` on adds `c`. */
  function CodeAbsent(rules: seq<KeywordRule>, c: DesignCode, j: nat): bool
    decreases |rules| - j
  {
    j >= |rules| || (rules[j].code != c && CodeAbsent(rules, c, j + 1))
  }

  lemma {:induction false} CodeAbsentMeans(rules: seq<KeywordRule>, c: DesignCode, j: nat)
    requires CodeAbsent(rules, c, j)
    ensures forall k :: j <= k < |rules| ==> rules[k].code != c
    decreases |rules| - j
  {
    if j < |rules| {
      CodeAbsentMeans(rules, c, j + 1);
    }
  }

  /** Whether the rules from index `i` on add pairwise different codes. */
  function DistinctFrom(rules: seq<KeywordRule>, i: nat): bool
    decreases |rules| - i
  {
    i >= |rules| || (CodeAbsent(rules, rules[i].code, i + 1) && DistinctFrom(rules, i + 1))
  }

  lemma {:induction false} DistinctFromMeans(rules: seq<KeywordRule>, i: nat)
    requires DistinctFrom(rules, i)
    ensures forall j, k :: i <= j < k < |rules| ==> rules[j].code != rules[k].code
    decreases |rules| - i
  {
    if i < |rules| {
      CodeAbsentMeans(rules, rules[i].code, i + 1);
      DistinctFromMeans(rules, i + 1);
    }
  }

  /** A series that passes both checks has distinct codes of one non-colour category. */
  lemma SeriesShape(rules: seq<KeywordRule>, cat: nat)
    requires AllInCategory(rules, cat, 0) && DistinctFrom(rules, 0) && cat != 29
    ensures DistinctCodes(rules) && InCategories(rules, cat, cat) && NoColorCodes(rules)
  {
    AllInCategoryMeans(rules, cat, 0);
    DistinctFromMeans(rules, 0);
  }

  lemma FigureCodes()
    ensures AllInCategory(Celestial, 1, 0) && DistinctFrom(Celestial, 0)
    ensures AllInCategory(HumanFigures, 2, 0) && DistinctFrom(HumanFigures, 0)
  {
  }

  lemma AnimalCodes()
    ensures AllInCategory(Animals, 3, 0) && DistinctFrom(Animals, 0)
  {
  }

  lemma PlantAndBuildingCodes()
    ensures AllInCategory(Plants, 5, 0) && DistinctFrom(Plants, 0)
    ensures AllInCategory(Buildings, 7, 0) && DistinctFrom(Buildings, 0)
  {
  }

  lemma ObjectCodes()
    ensures AllInCategory(Implements, 8, 0) && DistinctFrom(Implements, 0)
    ensures AllInCategory(Clothing, 9, 0) && DistinctFrom(Clothing, 0)
    ensures AllInCategory(Transportation, 18, 0) && DistinctFrom(Transportation, 0)
  {
  }

  lemma GeometricCodes()
    ensures AllInCategory(GeometricFigures, 26, 0) && DistinctFrom(GeometricFigures, 0)
  {
  }

  lemma LetteringCodes()
    ensures AllInCategory(LettersAndNumbers, 27, 0) && DistinctFrom(LettersAndNumbers, 0)
    ensures AllInCategory(Inscriptions, 28, 0) && DistinctFrom(Inscriptions, 0)
  {
  }

  /** Each series adds distinct codes of its own category, none of them 29. */
  lemma SeriesShapes()
    ensures DistinctCodes(Celestial) && InCategories(Celestial, 1, 1) && NoColorCodes(Celestial)
    ensures DistinctCodes(HumanFigures) && InCategories(HumanFigures, 2, 2) && NoColorCodes(HumanFigures)
    ensures DistinctCodes(Animals) && InCategories(Animals, 3, 3) && NoColorCodes(Animals)
    ensures DistinctCodes(Plants) && InCategories(Plants, 5, 5) && NoColorCodes(Plants)
    ensures DistinctCodes(Buildings) && InCategories(Buildings, 7, 7) && NoColorCodes(Buildings)
    ensures DistinctCodes(Implements) && InCategories(Implements, 8, 8) && NoColorCodes(Implements)
    ensures DistinctCodes(Clothing) && InCategories(Clothing, 9, 9) && NoColorCodes(Clothing)
    ensures DistinctCodes(Transportation) && InCategories(Transportation, 18, 18) && NoColorCodes(Transportation)
    ensures DistinctCodes(GeometricFigures) && InCategories(GeometricFigures, 26, 26) && NoColorCodes(GeometricFigures)
    ensures DistinctCodes(LettersAndNumbers) && InCategories(LettersAndNumbers, 27, 27) && NoColorCodes(LettersAndNumbers)
    ensures DistinctCodes(Inscriptions) && InCategories(Inscriptions, 28, 28) && NoColorCodes(Inscriptions)
  {
    FigureCodes();
    AnimalCodes();
    PlantAndBuildingCodes();
    ObjectCodes();
    GeometricCodes();
    LetteringCodes();
    SeriesShape(Celestial, 1);
    SeriesShape(HumanFigures, 2);
    SeriesShape(Animals, 3);
    SeriesShape(Plants, 5);
    SeriesShape(Buildings, 7);
    SeriesShape(Implements, 8);
    SeriesShape(Clothing, 9);
    SeriesShape(Transportation, 18);
    SeriesShape(GeometricFigures, 26);
    SeriesShape(LettersAndNumbers, 27);
    SeriesShape(Inscriptions, 28);
  }

  /** Series in increasing categories never share a code. */
  lemma DistinctCodesAppend(a: seq<KeywordRule>, b: seq<KeywordRule>, lo: nat, mid: nat, hi: nat)
    requires lo <= mid < hi
    requires DistinctCodes(a) && InCategories(a, lo, mid)
    requires DistinctCodes(b) && InCategories(b, mid + 1, hi)
    ensures DistinctCodes(a + b) && InCategories(a + b, lo, hi)
  {
    forall i | 0 <= i < |a + b| ensures lo <= (a + b)[i].code.category <= hi {
      if i >= |a| { assert (a + b)[i] == b[i - |a|]; }
    }
    forall i, j | 0 <= i < j < |a + b| ensures (a + b)[i].code != (a + b)[j].code {
      if j < |a| {
        assert (a + b)[i] == a[i] && (a + b)[j] == a[j];
      } else if i < |a| {
        assert (a + b)[i] == a[i] && (a + b)[j] == b[j - |a|];
      } else {
        assert (a + b)[i] == b[i - |a|] && (a + b)[j] == b[j - |a|];
      }
    }
  }

  /** Each of the table's codes is added by exactly one rule. */
  lemma TableCodesDistinct()
    ensures DistinctCodes(Table)
  {
    SeriesShapes();
    var t := Celestial;
    DistinctCodesAppend(t, HumanFigures, 1, 1, 2); t := t + HumanFigures;
    DistinctCodesAppend(t, Animals, 1, 2, 3); t := t + Animals;
    DistinctCodesAppend(t, Plants, 1, 3, 5); t := t + Plants;
    DistinctCodesAppend(t, Buildings, 1, 5, 7); t := t + Buildings;
    DistinctCodesAppend(t, Implements, 1, 7, 8); t := t + Implements;
    DistinctCodesAppend(t, Clothing, 1, 8, 9); t := t + Clothing;
    DistinctCodesAppend(t, Transportation, 1, 9, 18); t := t + Transportation;
    DistinctCodesAppend(t, GeometricFigures, 1, 18, 26); t := t + GeometricFigures;
    DistinctCodesAppend(t, LettersAndNumbers, 1, 26, 27); t := t + LettersAndNumbers;
    DistinctCodesAppend(t, Inscriptions, 1, 27, 28); t := t + Inscriptions;
    assert t == Table;
  }

  /** A rule of the table is identified by its code. */
  lemma RuleOfCode(rule: KeywordRule, i: nat)
    requires rule in Table && i < |Table| && rule.code == Table[i].code
    ensures rule == Table[i]
  {
    TableCodesDistinct();
    var j :| 0 <= j < |Table| && Table[j] == rule;
    assert j == i;
  }
}
