/**
 * Concrete inputs and what the classifier returns for them.
 */
module Scenarios {
  import opened Wrappers
  import opened Text
  import opened DesignCodes
  import opened KeywordRules
  import opened ColorRules
  import opened OrderedSet
  import opened Classifier
  import opened InferenceProperties

  /** A feature whose text matches alternative `pattern` of rule `i` at
      offset `at` contributes that rule's code. */
  lemma FeatureAdds(f: Feature, i: nat, pattern: string, at: nat)
    requires RawText(f) != ""
    requires i < |Table| && pattern in Table[i].alternatives
    requires MatchesAt(pattern, RawText(f), at)
    ensures Table[i].code in FeatureCodes(f)
  {
    assert Fires(Table[i], RawText(f));
    FiringRuleAdds(Table, i, RawText(f));
    FeatureCodesIgnoreCase(f);
  }

  /** A code one feature contributes is in the result. */
  lemma InResult(features: seq<Feature>, k: nat, imageProperties: Option<ImageProperties>, c: DesignCode)
    requires k < |features| && c in FeatureCodes(features[k])
    ensures c in Inferred(features, imageProperties)
  {
    InferredMembers(features, imageProperties);
  }

  /** Hence such a feature puts that code in the result. */
  lemma FeatureAddsToResult(features: seq<Feature>, k: nat, imageProperties: Option<ImageProperties>,
                            i: nat, pattern: string, at: nat)
    requires k < |features| && RawText(features[k]) != ""
    requires i < |Table| && pattern in Table[i].alternatives
    requires MatchesAt(pattern, RawText(features[k]), at)
    ensures Table[i].code in Inferred(features, imageProperties)
  {
    FeatureAdds(features[k], i, pattern, at);
    InResult(features, k, imageProperties, Table[i].code);
  }

  /** Where a series sits in the table. */
  lemma CelestialAt(k: nat)
    requires k < |Celestial|
    ensures 0 + k < |Table| && Table[0 + k] == Celestial[k]
  {
    var prefix := Celestial;
    assert prefix[0 + k] == Celestial[k];
    assert |prefix| == 4;
    assert Table[0 + k] == prefix[0 + k];
  }

  lemma HumanFiguresAt(k: nat)
    requires k < |HumanFigures|
    ensures 4 + k < |Table| && Table[4 + k] == HumanFigures[k]
  {
    var prefix := Celestial + HumanFigures;
    assert |Celestial| == 4;
    assert prefix[4 + k] == HumanFigures[k];
    assert |prefix| == 10;
    assert Table[4 + k] == prefix[4 + k];
  }

  lemma AnimalsAt(k: nat)
    requires k < |Animals|
    ensures 10 + k < |Table| && Table[10 + k] == Animals[k]
  {
    var prefix := Celestial + HumanFigures + Animals;
    assert |Celestial + HumanFigures| == 10;
    assert prefix[10 + k] == Animals[k];
    assert |prefix| == 22;
    assert Table[10 + k] == prefix[10 + k];
  }

  lemma PlantsAt(k: nat)
    requires k < |Plants|
    ensures 22 + k < |Table| && Table[22 + k] == Plants[k]
  {
    var prefix := Celestial + HumanFigures + Animals + Plants;
    assert |Celestial + HumanFigures + Animals| == 22;
    assert prefix[22 + k] == Plants[k];
    assert |prefix| == 27;
    assert Table[22 + k] == prefix[22 + k];
  }

  lemma ImplementsAt(k: nat)
    requires k < |Implements|
    ensures 32 + k < |Table| && Table[32 + k] == Implements[k]
  {
    var prefix := Celestial + HumanFigures + Animals + Plants + Buildings + Implements;
    assert |Celestial + HumanFigures + Animals + Plants + Buildings| == 32;
    assert prefix[32 + k] == Implements[k];
    assert |prefix| == 36;
    assert Table[32 + k] == prefix[32 + k];
  }

  lemma LettersAt(k: nat)
    requires k < |LettersAndNumbers|
    ensures 50 + k < |Table| && Table[50 + k] == LettersAndNumbers[k]
  {
    var prefix := Celestial + HumanFigures + Animals + Plants + Buildings + Implements + Clothing + Transportation + GeometricFigures + LettersAndNumbers;
    assert |Celestial + HumanFigures + Animals + Plants + Buildings + Implements + Clothing + Transportation + GeometricFigures| == 50;
    assert prefix[50 + k] == LettersAndNumbers[k];
    assert |prefix| == 54;
    assert Table[50 + k] == prefix[50 + k];
  }


  /** The table rules the examples below rely on, series by series. */
  lemma FigureRules()
    ensures Celestial[1] == KeywordRule(["sun", "solar"], DesignCode(1, 3, 1))
    ensures HumanFigures[1] == KeywordRule(["hand", "finger", "palm"], DesignCode(2, 9, 1))
    ensures HumanFigures[3] == KeywordRule(["lip", "mouth"], DesignCode(2, 9, 8))
  {
  }

  lemma MammalRules()
    ensures Animals[1] == KeywordRule(["dog", "wolf", "canine"], DesignCode(3, 1, 8))
  {
  }

  lemma BirdRules()
    ensures Animals[6] == KeywordRule(["bird", "wing"], DesignCode(3, 7, 1))
    ensures Animals[7] == KeywordRule(["eagle", "hawk", "falcon"], DesignCode(3, 7, 2))
    ensures Animals[8] == KeywordRule(["dove", "peace.bird"], DesignCode(3, 7, 9))
  {
  }

  lemma ObjectRules()
    ensures Plants[0] == KeywordRule(["tree", "palm"], DesignCode(5, 1, 1))
    ensures Implements[2] == KeywordRule(["sword", "blade"], DesignCode(8, 3, 1))
    ensures LettersAndNumbers[0] == KeywordRule(["text", "letter", "word"], DesignCode(27, 3, 1))
  {
  }

  /** Where the examples' texts match those rules' alternatives. */
  lemma RetrieverMatches()
    ensures MatchesAt("dog", "Golden Retriever dog detected", 17)
  {
  }

  lemma EclipseMatches()
    ensures MatchesAt("solar", "Solar eclipse", 0)
    ensures MatchesAt("lip", "Solar eclipse", 8)
  {
  }

  lemma PalmMatches()
    ensures MatchesAt("palm", "Palm", 0)
  {
  }

  lemma SwordMatches()
    ensures MatchesAt("sword", "SWORD", 0)
    ensures MatchesAt("word", "SWORD", 1)
  {
  }

  lemma PeaceBirdMatches()
    ensures MatchesAt("peace.bird", "peace-bird", 0)
    ensures MatchesAt("bird", "peace-bird", 6)
  {
  }

  lemma EagleMatches()
    ensures MatchesAt("eagle", "Eagle soaring", 0)
  {
  }

  /** A feature reading "Golden Retriever dog detected" puts 03.01.08 (dog) in the result. */
  lemma RetrieverIsDog(features: seq<Feature>, k: nat, imageProperties: Option<ImageProperties>)
    requires k < |features| && RawText(features[k]) == "Golden Retriever dog detected"
    ensures DesignCode(3, 1, 8) in Inferred(features, imageProperties)
  {
    MammalRules();
    RetrieverMatches();
    AnimalsAt(1);
    FeatureAddsToResult(features, k, imageProperties, 11, "dog", 17);
  }

  /** "Solar eclipse" yields 01.03.01 (sun) and, since "eclipse" contains
      "lip", 02.09.08 (lips) as well. */
  lemma SolarEclipse(features: seq<Feature>, k: nat, imageProperties: Option<ImageProperties>)
    requires k < |features| && RawText(features[k]) == "Solar eclipse"
    ensures DesignCode(1, 3, 1) in Inferred(features, imageProperties)
    ensures DesignCode(2, 9, 8) in Inferred(features, imageProperties)
  {
    FigureRules();
    EclipseMatches();
    CelestialAt(1);
    FeatureAddsToResult(features, k, imageProperties, 1, "solar", 0);
    HumanFiguresAt(3);
    FeatureAddsToResult(features, k, imageProperties, 7, "lip", 8);
  }

  lemma PalmIsHand(features: seq<Feature>, k: nat, imageProperties: Option<ImageProperties>)
    requires k < |features| && RawText(features[k]) == "Palm"
    ensures DesignCode(2, 9, 1) in Inferred(features, imageProperties)
  {
    FigureRules();
    PalmMatches();
    HumanFiguresAt(1);
    FeatureAddsToResult(features, k, imageProperties, 5, "palm", 0);
  }

  lemma PalmIsTree(features: seq<Feature>, k: nat, imageProperties: Option<ImageProperties>)
    requires k < |features| && RawText(features[k]) == "Palm"
    ensures DesignCode(5, 1, 1) in Inferred(features, imageProperties)
  {
    ObjectRules();
    PalmMatches();
    PlantsAt(0);
    FeatureAddsToResult(features, k, imageProperties, 22, "palm", 0);
  }

  /** "palm" is listed under hands and under trees: both codes are added. */
  lemma PalmIsHandAndTree(features: seq<Feature>, k: nat, imageProperties: Option<ImageProperties>)
    requires k < |features| && RawText(features[k]) == "Palm"
    ensures DesignCode(2, 9, 1) in Inferred(features, imageProperties)
    ensures DesignCode(5, 1, 1) in Inferred(features, imageProperties)
  {
    PalmIsHand(features, k, imageProperties);
    PalmIsTree(features, k, imageProperties);
  }

  /** Alternatives are not anchored and case does not matter: "SWORD" also
      contains "word". */
  lemma SwordIsWordToo(features: seq<Feature>, k: nat, imageProperties: Option<ImageProperties>)
    requires k < |features| && RawText(features[k]) == "SWORD"
    ensures DesignCode(8, 3, 1) in Inferred(features, imageProperties)
    ensures DesignCode(27, 3, 1) in Inferred(features, imageProperties)
  {
    ObjectRules();
    SwordMatches();
    ImplementsAt(2);
    FeatureAddsToResult(features, k, imageProperties, 34, "sword", 0);
    LettersAt(0);
    FeatureAddsToResult(features, k, imageProperties, 50, "word", 1);
  }

  /** The `.` of "peace.bird" stands for any character; "peace-bird" also
      contains "bird". */
  lemma DotIsWildcard(features: seq<Feature>, k: nat, imageProperties: Option<ImageProperties>)
    requires k < |features| && RawText(features[k]) == "peace-bird"
    ensures DesignCode(3, 7, 9) in Inferred(features, imageProperties)
    ensures DesignCode(3, 7, 1) in Inferred(features, imageProperties)
  {
    BirdRules();
    PeaceBirdMatches();
    AnimalsAt(8);
    FeatureAddsToResult(features, k, imageProperties, 18, "peace.bird", 0);
    AnimalsAt(6);
    FeatureAddsToResult(features, k, imageProperties, 16, "bird", 6);
  }

  /** A red sample below the threshold adds nothing; at 0.25 it adds 29.01.01. */
  lemma ColorThreshold()
    ensures SampleCodes(ColorSample(Some(Rgb(Some(220), Some(10), Some(5))), Some(0.1))) == []
    ensures SampleCodes(ColorSample(Some(Rgb(Some(220), Some(10), Some(5))), Some(0.25))) == [DesignCode(29, 1, 1)]
    ensures SampleCodes(ColorSample(Some(Rgb(Some(220), Some(10), Some(5))), Some(0.2))) == []
  {
    SampleCodesClassify(ColorSample(Some(Rgb(Some(220), Some(10), Some(5))), Some(0.25)));
  }

  /** Grey is in none of the six ranges; a sample with only `red` set reads
      its other channels as 0. */
  lemma DefaultsAndGaps()
    ensures SampleCodes(ColorSample(Some(Rgb(Some(128), Some(128), Some(128))), Some(0.9))) == []
    ensures SampleCodes(ColorSample(Some(Rgb(Some(255), None, None)), Some(0.9))) == [DesignCode(29, 1, 1)]
    ensures SampleCodes(ColorSample(None, Some(0.3))) == [DesignCode(29, 1, 8)]
  {
    SampleCodesClassify(ColorSample(Some(Rgb(Some(128), Some(128), Some(128))), Some(0.9)));
    SampleCodesClassify(ColorSample(Some(Rgb(Some(255), None, None)), Some(0.9)));
    MissingColorIsBlack(ColorSample(None, Some(0.3)));
  }

  const BlueSample := ColorSample(Some(Rgb(Some(10), Some(20), Some(230))), Some(0.5))

  /** The bird rule ("bird" or "wing") cannot fire on a text without a w
      that also lacks a b or an i. */
  lemma BirdRuleSilent(rule: KeywordRule, text: string)
    requires rule.alternatives == ["bird", "wing"]
    requires Lacks(text, 'w', 0)
    requires Lacks(text, 'b', 0) || Lacks(text, 'i', 0)
    ensures !Fires(rule, text)
  {
    if Lacks(text, 'b', 0) {
      MissingCharNeverOccurs("bird", text, 0);
    } else {
      MissingCharNeverOccurs("bird", text, 1);
    }
    MissingCharNeverOccurs("wing", text, 0);
  }

  /** The bird rule's code is the string the source adds. */
  lemma BirdCodeSpelling()
    ensures Animals[6].code.WellFormed() && Animals[6].code.Render() == "03.07.01"
  {
    BirdRules();
  }

  /** Only the bird rule names 03.07.01. */
  lemma BirdCodeRule()
    ensures forall i :: 0 <= i < |Table| && Table[i].code == DesignCode(3, 7, 1) ==>
      Table[i].alternatives == ["bird", "wing"]
  {
    AnimalsAt(6);
    BirdRules();
    TableCodesDistinct();
    forall i | 0 <= i < |Table| && Table[i].code == DesignCode(3, 7, 1)
      ensures Table[i].alternatives == ["bird", "wing"]
    {
      assert Table[i].code == Table[16].code;
      assert i == 16;
    }
  }

  /** Hence a feature whose text the bird rule skips never gets 03.07.01. */
  lemma NoBirdCodeWithout(f: Feature)
    requires Lacks(RawText(f), 'w', 0)
    requires Lacks(RawText(f), 'b', 0) || Lacks(RawText(f), 'i', 0)
    ensures DesignCode(3, 7, 1) !in FeatureCodes(f)
  {
    BirdCodeRule();
    forall i | 0 <= i < |Table| && Table[i].code == DesignCode(3, 7, 1)
      ensures !Fires(Table[i], RawText(f))
    {
      BirdRuleSilent(Table[i], RawText(f));
    }
    CodeNotAdded(Table, RawText(f), DesignCode(3, 7, 1));
    FeatureCodesIgnoreCase(f);
  }

  lemma EagleLacksBird()
    ensures Lacks("Eagle soaring", 'w', 0) && Lacks("Eagle soaring", 'b', 0)
  {
  }

  lemma SkyLacksBird()
    ensures Lacks("Blue sky", 'w', 0) && Lacks("Blue sky", 'i', 0)
  {
  }

  /** A code outside category 29 that no feature contributes is not in the result. */
  lemma KeywordCodeAbsent(features: seq<Feature>, imageProperties: Option<ImageProperties>, c: DesignCode)
    requires c.category != 29
    requires forall k :: 0 <= k < |features| ==> c !in FeatureCodes(features[k])
    ensures c !in Inferred(features, imageProperties)
  {
    InferredMembers(features, imageProperties);
    ColorPassCategories(ColorInfo(imageProperties));
    ColorPassMembers(ColorInfo(imageProperties));
  }

  /** Features "Eagle soaring" and "Blue sky" with one blue sample. "Eagle soaring" adds 03.07.02 (eagle) ... */
  lemma EagleCode(features: seq<Feature>, k: nat, imageProperties: Option<ImageProperties>)
    requires k < |features| && RawText(features[k]) == "Eagle soaring"
    ensures DesignCode(3, 7, 2) in Inferred(features, imageProperties)
  {
    BirdRules();
    EagleMatches();
    AnimalsAt(7);
    FeatureAddsToResult(features, k, imageProperties, 17, "eagle", 0);
  }

  /** ... neither text adds the bird code 03.07.01 ... */
  lemma NoBirdInCombined(features: seq<Feature>, imageProperties: Option<ImageProperties>)
    requires forall k :: 0 <= k < |features| ==>
      RawText(features[k]) == "Eagle soaring" || RawText(features[k]) == "Blue sky"
    ensures DesignCode(3, 7, 1) !in Inferred(features, imageProperties)
  {
    EagleLacksBird();
    SkyLacksBird();
    forall k | 0 <= k < |features| ensures DesignCode(3, 7, 1) !in FeatureCodes(features[k]) {
      NoBirdCodeWithout(features[k]);
    }
    KeywordCodeAbsent(features, imageProperties, DesignCode(3, 7, 1));
  }

  /** A one-sample colour pass adds what that sample adds. */
  lemma OneSamplePass(s: ColorSample)
    ensures ColorPass([s]) == SampleCodes(s)
  {
    ColorPassStep([s], 0);
    assert [s][..1] == [s] && [s][..0] == [];
  }

  lemma BlueSampleIsBlue()
    ensures SampleCodes(BlueSample) == [DesignCode(29, 1, 4)]
  {
    SampleCodesClassify(BlueSample);
  }

  /** ... and the one blue sample adds 29.01.04, after the feature codes. */
  lemma BlueComesLast(features: seq<Feature>, imageProperties: Option<ImageProperties>)
    requires ColorInfo(imageProperties) == [BlueSample]
    ensures Inferred(features, imageProperties) == Dedup(FeaturePass(features)) + [DesignCode(29, 1, 4)]
  {
    ColorCodesComeLast(features, imageProperties);
    OneSamplePass(BlueSample);
    BlueSampleIsBlue();
    assert Dedup([DesignCode(29, 1, 4)]) == [DesignCode(29, 1, 4)];
  }
}
