/**
 * What `inferDesignCodesFromFeatures` promises about its result, stated over
 * `Inferred` and proved from the keyword table, the colour ranges and the
 * insertion-ordered set.
 */
module InferenceProperties {
  import opened Wrappers
  import opened Text
  import opened DesignCodes
  import opened KeywordRules
  import opened ColorRules
  import opened OrderedSet
  import opened Classifier

  /** The feature pass reads through the lower-casing: a feature adds the
      codes of the rules that fire on its raw text, or nothing when it has no
      text. */
  lemma FeatureCodesIgnoreCase(f: Feature)
    ensures FeatureCodes(f) == if RawText(f) == "" then [] else FiringCodes(Table, RawText(f))
  {
    FiringCodesCaseInsensitive(Table, RawText(f));
  }

  /** A feature adds a code exactly when it has text and a table rule naming
      that code fires on it. */
  lemma FeatureCodesMembers(f: Feature)
    ensures forall c :: c in FeatureCodes(f) <==>
      RawText(f) != "" && exists rule :: rule in Table && rule.code == c && Fires(rule, RawText(f))
  {
    FeatureCodesIgnoreCase(f);
    FiringCodesMembers(Table, RawText(f));
  }

  /** A sample adds a code exactly when its score qualifies and the range
      naming that code contains its defaulted channels. */
  lemma SampleCodesMembers(s: ColorSample)
    ensures forall c :: c in SampleCodes(s) <==>
      Qualifies(s) && exists rule :: rule in ColorTable && rule.code == c && InRange(rule, ChannelsOf(s))
  {
    MatchingCodesMembers(ColorTable, ChannelsOf(s));
  }

  /** The six range tests read as one classification, first match wins; an
      independent restatement of lines 106-111 that is exact because the
      ranges are disjoint. */
  function ColorOf(ch: Channels): Option<DesignCode> {
    if ch.red > 200 && ch.green < 100 && ch.blue < 100 then Some(DesignCode(29, 1, 1))
    else if ch.red < 100 && ch.green > 200 && ch.blue < 100 then Some(DesignCode(29, 1, 3))
    else if ch.red < 100 && ch.green < 100 && ch.blue > 200 then Some(DesignCode(29, 1, 4))
    else if ch.red > 200 && ch.green > 200 && ch.blue < 100 then Some(DesignCode(29, 1, 2))
    else if ch.red < 50 && ch.green < 50 && ch.blue < 50 then Some(DesignCode(29, 1, 8))
    else if ch.red > 200 && ch.green > 200 && ch.blue > 200 then Some(DesignCode(29, 1, 6))
    else None
  }

  /** A sample adds the one code its colour is classified as, if its score
      qualifies, and nothing otherwise. */
  lemma SampleCodesClassify(s: ColorSample)
    ensures SampleCodes(s) == if Qualifies(s) && ColorOf(ChannelsOf(s)).Some? then [ColorOf(ChannelsOf(s)).value] else []
  {
    var ch := ChannelsOf(s);
    MatchingCodesStep(ColorTable, 0, ch);
    MatchingCodesStep(ColorTable, 1, ch);
    MatchingCodesStep(ColorTable, 2, ch);
    MatchingCodesStep(ColorTable, 3, ch);
    MatchingCodesStep(ColorTable, 4, ch);
    MatchingCodesStep(ColorTable, 5, ch);
    assert ColorTable[..6] == ColorTable;
  }

  /** A qualifying sample without a `color` object reads as (0, 0, 0): black. */
  lemma MissingColorIsBlack(s: ColorSample)
    requires Qualifies(s) && s.color.None?
    ensures SampleCodes(s) == [DesignCode(29, 1, 8)]
  {
    SampleCodesClassify(s);
  }

  /** A sample whose score is absent or at most 0.2 adds nothing, whatever its colour. */
  lemma LowScoreAddsNothing(s: ColorSample)
    requires s.score.None? || s.score.value <= ScoreThreshold
    ensures SampleCodes(s) == []
  {
  }

  /** Every colour code is a well-formed code of category 29. */
  lemma ColorCodeShape(rule: ColorRule)
    requires rule in ColorTable
    ensures rule.code.WellFormed() && rule.code.category == 29
  {
    var i :| 0 <= i < |ColorTable| && ColorTable[i] == rule;
  }

  /** The result holds exactly the codes some feature or some sample contributes. */
  lemma InferredMembers(features: seq<Feature>, imageProperties: Option<ImageProperties>)
    ensures forall c :: c in Inferred(features, imageProperties) <==>
      (exists f :: f in features && c in FeatureCodes(f)) ||
      (exists s :: s in ColorInfo(imageProperties) && c in SampleCodes(s))
  {
    DedupMembers(Emitted(features, imageProperties));
    FeaturePassMembers(features);
    ColorPassMembers(ColorInfo(imageProperties));
  }

  /** Only codes of the keyword table and of the colour ranges are returned. */
  lemma OnlyKnownCodes(features: seq<Feature>, imageProperties: Option<ImageProperties>)
    ensures forall c :: c in Inferred(features, imageProperties) ==> c in CodesOf(Table) || exists rule :: rule in ColorTable && rule.code == c
  {
    InferredMembers(features, imageProperties);
    forall c | c in Inferred(features, imageProperties) ensures c in CodesOf(Table) || exists rule :: rule in ColorTable && rule.code == c {
      if exists f :: f in features && c in FeatureCodes(f) {
        var f :| f in features && c in FeatureCodes(f);
        FeatureCodeKnown(f, c);
      } else {
        var s :| s in ColorInfo(imageProperties) && c in SampleCodes(s);
        SampleCodeKnown(s, c);
      }
    }
  }

  lemma FeatureCodeKnown(f: Feature, c: DesignCode)
    requires c in FeatureCodes(f)
    ensures c in CodesOf(Table)
  {
    FeatureCodesMembers(f);
  }

  lemma SampleCodeKnown(s: ColorSample, c: DesignCode)
    requires c in SampleCodes(s)
    ensures exists rule :: rule in ColorTable && rule.code == c
  {
    SampleCodesMembers(s);
  }

  lemma FeaturePassEmpty(features: seq<Feature>)
    ensures FeaturePass(features) == [] <==> forall f :: f in features ==> FeatureCodes(f) == []
  {
    ConcatEmpty(features, FeatureCodes);
  }

  lemma ColorPassEmpty(samples: seq<ColorSample>)
    ensures ColorPass(samples) == [] <==> forall s :: s in samples ==> SampleCodes(s) == []
  {
    ConcatEmpty(samples, SampleCodes);
  }

  /** The result is empty exactly when no feature and no sample contributes. */
  lemma EmptyExactlyWhenNothingFires(features: seq<Feature>, imageProperties: Option<ImageProperties>)
    ensures Inferred(features, imageProperties) == [] <==>
      (forall f :: f in features ==> FeatureCodes(f) == []) &&
      (forall s :: s in ColorInfo(imageProperties) ==> SampleCodes(s) == [])
  {
    var e := Emitted(features, imageProperties);
    DedupMembers(e);
    EmptyIffNoMembers(e);
    EmptyIffNoMembers(Dedup(e));
    FeaturePassEmpty(features);
    ColorPassEmpty(ColorInfo(imageProperties));
  }

  /** No features and no dominant colours (the list absent or empty): no codes. */
  lemma EmptyInput(imageProperties: Option<ImageProperties>)
    requires ColorInfo(imageProperties) == []
    ensures Inferred([], imageProperties) == []
  {
    EmptyExactlyWhenNothingFires([], imageProperties);
  }

  /** Without a list of dominant colours the colour pass adds nothing: the
      result is the feature pass's codes alone. */
  lemma NoColorsNoColorCodes(features: seq<Feature>, imageProperties: Option<ImageProperties>)
    requires || imageProperties.None?
             || imageProperties.value.dominantColors.None?
             || imageProperties.value.dominantColors.value.colors.None?
    ensures Inferred(features, imageProperties) == Dedup(FeaturePass(features))
  {
    assert ColorInfo(imageProperties) == [];
    assert FeaturePass(features) + [] == FeaturePass(features);
  }

  /** Features without text are skipped: they never change the result. */
  lemma TextlessFeaturesSkipped(features: seq<Feature>, f: Feature, imageProperties: Option<ImageProperties>)
    requires !Usable(f.description) && !Usable(f.name)
    ensures Inferred(features + [f], imageProperties) == Inferred(features, imageProperties)
  {
    assert (features + [f])[..|features|] == features;
    assert FeaturePass(features + [f]) == FeaturePass(features) + [];
    assert FeaturePass(features) + [] == FeaturePass(features);
  }

  lemma FeaturePassCategories(features: seq<Feature>)
    ensures forall c :: c in FeaturePass(features) ==> c.WellFormed() && c.category != 29
  {
    FeaturePassMembers(features);
    forall c | c in FeaturePass(features) ensures c.WellFormed() && c.category != 29 {
      var f :| f in features && c in FeatureCodes(f);
      FeatureCodesMembers(f);
      var rule :| rule in Table && rule.code == c && Fires(rule, RawText(f));
      TableCodeShape(rule);
    }
  }

  lemma ColorPassCategories(samples: seq<ColorSample>)
    ensures forall c :: c in ColorPass(samples) ==> c.WellFormed() && c.category == 29
  {
    ColorPassMembers(samples);
    forall c | c in ColorPass(samples) ensures c.WellFormed() && c.category == 29 {
      var s :| s in samples && c in SampleCodes(s);
      SampleCodesMembers(s);
      var rule :| rule in ColorTable && rule.code == c && InRange(rule, ChannelsOf(s));
      ColorCodeShape(rule);
    }
  }

  /** Keyword codes and colour codes never meet, so the result lists the
      feature pass's codes first and the colour codes after them. */
  lemma ColorCodesComeLast(features: seq<Feature>, imageProperties: Option<ImageProperties>)
    ensures Inferred(features, imageProperties)
         == Dedup(FeaturePass(features)) + Dedup(ColorPass(ColorInfo(imageProperties)))
  {
    FeaturePassCategories(features);
    ColorPassCategories(ColorInfo(imageProperties));
    DedupAppendDisjoint(FeaturePass(features), ColorPass(ColorInfo(imageProperties)));
  }

  lemma ColorSuffix(keywordCodes: seq<DesignCode>, colorCodes: seq<DesignCode>, i: nat, j: nat)
    requires forall c :: c in keywordCodes ==> c.category != 29
    requires forall c :: c in colorCodes ==> c.category == 29
    requires i < j < |keywordCodes + colorCodes| && (keywordCodes + colorCodes)[i].category == 29
    ensures (keywordCodes + colorCodes)[j].category == 29
  {
    var r := keywordCodes + colorCodes;
    assert forall k :: 0 <= k < |keywordCodes| ==> r[k] == keywordCodes[k] && r[k] in keywordCodes;
    assert r[j] == colorCodes[j - |keywordCodes|];
  }

  /** Hence, in the result, nothing but colour codes follows a colour code. */
  lemma ColorCodesTrailing(features: seq<Feature>, imageProperties: Option<ImageProperties>, i: nat, j: nat)
    requires i < j < |Inferred(features, imageProperties)|
    requires Inferred(features, imageProperties)[i].category == 29
    ensures Inferred(features, imageProperties)[j].category == 29
  {
    var a, b := FeaturePass(features), ColorPass(ColorInfo(imageProperties));
    ColorCodesComeLast(features, imageProperties);
    FeaturePassCategories(features);
    ColorPassCategories(ColorInfo(imageProperties));
    DedupMembers(a);
    DedupMembers(b);
    ColorSuffix(Dedup(a), Dedup(b), i, j);
  }

  /** A feature seen a second time adds nothing new: the result is unchanged. */
  lemma RepeatedFeatureChangesNothing(features: seq<Feature>, f: Feature, imageProperties: Option<ImageProperties>)
    requires f in features
    ensures Inferred(features + [f], imageProperties) == Inferred(features, imageProperties)
  {
    var a, b, colors := FeaturePass(features), FeatureCodes(f), ColorPass(ColorInfo(imageProperties));
    assert (features + [f])[..|features|] == features;
    assert FeaturePass(features + [f]) == a + b;
    FeaturePassMembers(features);
    DedupAbsorbs(a, b);
    DedupCongruent(a + b, a, colors);
  }

  /** Which features are present decides which codes are returned; their
      order and multiplicity only decide the listing order. */
  lemma SameFeaturesSameCodes(features: seq<Feature>, others: seq<Feature>, imageProperties: Option<ImageProperties>)
    requires forall f :: f in features <==> f in others
    ensures forall c :: c in Inferred(features, imageProperties) <==> c in Inferred(others, imageProperties)
  {
    InferredMembers(features, imageProperties);
    InferredMembers(others, imageProperties);
  }

  /** The rendered codes, as the source's strings. */
  function RenderAll(codes: seq<DesignCode>): (strs: seq<string>)
    requires forall c :: c in codes ==> c.WellFormed()
    ensures |strs| == |codes|
    ensures forall i :: 0 <= i < |codes| ==> strs[i] == codes[i].Render()
  {
    seq(|codes|, i requires 0 <= i < |codes| => codes[i].Render())
  }

  /** Adding a code and adding its rendering agree. */
  lemma RenderAdd(codes: seq<DesignCode>, c: DesignCode)
    requires forall x :: x in codes ==> x.WellFormed()
    requires c.WellFormed()
    ensures forall x :: x in Add(codes, c) ==> x.WellFormed()
    ensures RenderAll(Add(codes, c)) == Add(RenderAll(codes), c.Render())
  {
    if c.Render() in RenderAll(codes) {
      var k :| 0 <= k < |codes| && RenderAll(codes)[k] == c.Render();
      RenderInjective(codes[k], c);
    } else {
      assert RenderAll(codes + [c]) == RenderAll(codes) + [c.Render()];
    }
  }

  lemma RenderAllPrefix(codes: seq<DesignCode>)
    requires forall c :: c in codes ==> c.WellFormed()
    requires codes != []
    ensures forall c :: c in codes[..|codes| - 1] ==> c.WellFormed()
    ensures Dedup(RenderAll(codes))
         == Add(Dedup(RenderAll(codes[..|codes| - 1])), codes[|codes| - 1].Render())
  {
    var strs := RenderAll(codes);
    assert strs[..|strs| - 1] == RenderAll(codes[..|codes| - 1]);
  }

  /** Because rendering is injective, a set of rendered strings and a set of
      codes fill up in the same way: deduplicate, then render, is render, then
      deduplicate. */
  lemma {:induction false} RenderDedupCommute(codes: seq<DesignCode>)
    requires forall c :: c in codes ==> c.WellFormed()
    ensures forall c :: c in Dedup(codes) ==> c.WellFormed()
    ensures RenderAll(Dedup(codes)) == Dedup(RenderAll(codes))
    decreases |codes|
  {
    if codes != [] {
      var init, last := codes[..|codes| - 1], codes[|codes| - 1];
      assert forall c :: c in init ==> c in codes;
      RenderDedupCommute(init);
      RenderAllPrefix(codes);
      RenderAdd(Dedup(init), last);
    }
  }

  /** `Array.from(designCodes)` of the source's strings: the rendered result
      is the rendered emissions with repeats dropped, and holds no repeat. */
  lemma RenderedResult(features: seq<Feature>, imageProperties: Option<ImageProperties>)
    ensures forall c :: c in Emitted(features, imageProperties) ==> c.WellFormed()
    ensures forall c :: c in Inferred(features, imageProperties) ==> c.WellFormed()
    ensures RenderAll(Inferred(features, imageProperties)) == Dedup(RenderAll(Emitted(features, imageProperties)))
    ensures NoDuplicates(RenderAll(Inferred(features, imageProperties)))
  {
    var e := Emitted(features, imageProperties);
    FeaturePassCategories(features);
    ColorPassCategories(ColorInfo(imageProperties));
    RenderDedupCommute(e);
    DedupNoDuplicates(RenderAll(e));
  }
}
