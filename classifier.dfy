/**
 * `inferDesignCodesFromFeatures` (route.ts lines 3-116): the feature pass over
 * the keyword table, the colour pass over the dominant colours, and the
 * insertion-ordered set of design codes they fill.
 */
module Classifier {
  import opened Wrappers
  import opened Text
  import opened DesignCodes
  import opened KeywordRules
  import opened ColorRules
  import opened OrderedSet

  /** A detected-feature record: a logo, object or label annotation. */
  datatype Feature = Feature(description: Option<string>, name: Option<string>)

  /** `imageProperties.dominantColors`; the list itself may be absent. */
  datatype DominantColors = DominantColors(colors: Option<seq<ColorSample>>)

  /** The vision service's image-properties record. */
  datatype ImageProperties = ImageProperties(dominantColors: Option<DominantColors>)

  /** A text field that JavaScript's `||` keeps: present and non-empty. */
  predicate Usable(field: Option<string>) {
    field.Some? && field.value != ""
  }

  /** `feature.description || feature.name || ''`. */
  function RawText(f: Feature): (t: string)
    ensures Usable(f.description) ==> t == f.description.value
    ensures !Usable(f.description) && Usable(f.name) ==> t == f.name.value
    ensures t == "" <==> !Usable(f.description) && !Usable(f.name)
  {
    if Usable(f.description) then f.description.value
    else if Usable(f.name) then f.name.value
    else ""
  }

  /** `featureName`: the text, lower-cased. */
  function FeatureName(f: Feature): string {
    Lower(RawText(f))
  }

  /** What one feature contributes: nothing without text, otherwise the codes
      of the firing rules in table order. */
  function FeatureCodes(f: Feature): seq<DesignCode> {
    var featureName := FeatureName(f);
    if featureName == "" then [] else FiringCodes(Table, featureName)
  }

  /** The codes `codes` gives the items, item by item, with repetitions:
      what one `forEach` over `items` hands to `designCodes.add`. */
  function Concat<T>(items: seq<T>, codes: T -> seq<DesignCode>): seq<DesignCode> {
    if items == [] then []
    else Concat(items[..|items| - 1], codes) + codes(items[|items| - 1])
  }

  lemma {:induction false} ConcatMembers<T>(items: seq<T>, codes: T -> seq<DesignCode>)
    ensures forall c :: c in Concat(items, codes) <==> exists x :: x in items && c in codes(x)
  {
    if items != [] {
      var init, last := items[..|items| - 1], items[|items| - 1];
      assert items == init + [last];
      assert forall x :: x in items <==> x in init || x == last;
      ConcatMembers(init, codes);
    }
  }

  lemma {:induction false} ConcatEmpty<T>(items: seq<T>, codes: T -> seq<DesignCode>)
    ensures Concat(items, codes) == [] <==> forall x :: x in items ==> codes(x) == []
  {
    if items != [] {
      var init, last := items[..|items| - 1], items[|items| - 1];
      assert items == init + [last];
      assert forall x :: x in items <==> x in init || x == last;
      ConcatEmpty(init, codes);
    }
  }

  lemma ConcatStep<T>(items: seq<T>, codes: T -> seq<DesignCode>, i: nat)
    requires i < |items|
    ensures Concat(items[..i + 1], codes) == Concat(items[..i], codes) + codes(items[i])
  {
    assert items[..i + 1][..i] == items[..i];
  }

  /** The codes of the feature pass, feature by feature, with repetitions. */
  function FeaturePass(features: seq<Feature>): seq<DesignCode> {
    Concat(features, FeatureCodes)
  }

  lemma FeaturePassMembers(features: seq<Feature>)
    ensures forall c :: c in FeaturePass(features) <==> exists f :: f in features && c in FeatureCodes(f)
  {
    ConcatMembers(features, FeatureCodes);
  }

  lemma FeaturePassStep(features: seq<Feature>, i: nat)
    requires i < |features|
    ensures FeaturePass(features[..i + 1]) == FeaturePass(features[..i]) + FeatureCodes(features[i])
  {
    ConcatStep(features, FeatureCodes, i);
  }

  /** `imageProperties?.dominantColors?.colors || []`. */
  function ColorInfo(imageProperties: Option<ImageProperties>): (samples: seq<ColorSample>)
    ensures imageProperties.None? ==> samples == []
    ensures imageProperties.Some? && imageProperties.value.dominantColors.None? ==> samples == []
    ensures imageProperties.Some? && imageProperties.value.dominantColors.Some? ==>
              samples == imageProperties.value.dominantColors.value.colors.GetOr([])
  {
    match imageProperties
    case None => []
    case Some(props) =>
      match props.dominantColors
      case None => []
      case Some(dominant) => dominant.colors.GetOr([])
  }

  /** The codes of the colour pass, sample by sample, with repetitions. */
  function ColorPass(samples: seq<ColorSample>): seq<DesignCode> {
    Concat(samples, SampleCodes)
  }

  lemma ColorPassMembers(samples: seq<ColorSample>)
    ensures forall c :: c in ColorPass(samples) <==> exists s :: s in samples && c in SampleCodes(s)
  {
    ConcatMembers(samples, SampleCodes);
  }

  lemma ColorPassStep(samples: seq<ColorSample>, i: nat)
    requires i < |samples|
    ensures ColorPass(samples[..i + 1]) == ColorPass(samples[..i]) + SampleCodes(samples[i])
  {
    ConcatStep(samples, SampleCodes, i);
  }

  lemma ColorPassStepAfter(emitted: seq<DesignCode>, samples: seq<ColorSample>, i: nat)
    requires i < |samples|
    ensures emitted + ColorPass(samples[..i + 1]) == (emitted + ColorPass(samples[..i])) + SampleCodes(samples[i])
  {
    ColorPassStep(samples, i);
  }

  /** Every `designCodes.add` call of one run, in order. */
  function Emitted(features: seq<Feature>, imageProperties: Option<ImageProperties>): seq<DesignCode> {
    FeaturePass(features) + ColorPass(ColorInfo(imageProperties))
  }

  /** What the function returns: the set's contents in insertion order. */
  function Inferred(features: seq<Feature>, imageProperties: Option<ImageProperties>): seq<DesignCode> {
    Dedup(Emitted(features, imageProperties))
  }

  /** The rule tests of the first `forEach` callback: every rule of `rules`
      that fires on `featureName` adds its code to the set. `emitted` is what
      the set has been filled with so far. */
  method AddFiringCodes(designCodes: seq<DesignCode>, rules: seq<KeywordRule>, featureName: string,
                        ghost emitted: seq<DesignCode>)
    returns (updated: seq<DesignCode>)
    requires designCodes == Dedup(emitted)
    ensures updated == Dedup(emitted + FiringCodes(rules, featureName))
  {
    updated := designCodes;
    assert emitted + FiringCodes(rules[..0], featureName) == emitted;
    for k := 0 to |rules|
      invariant updated == Dedup(emitted + FiringCodes(rules[..k], featureName))
    {
      var rule := rules[k];
      ghost var before := emitted + FiringCodes(rules[..k], featureName);
      FiringCodesStep(rules, k, featureName);
      if Fires(rule, featureName) {
        assert emitted + FiringCodes(rules[..k + 1], featureName) == before + [rule.code];
        DedupSnoc(before, rule.code);
        if rule.code !in updated {
          updated := updated + [rule.code];
        }
      } else {
        assert emitted + FiringCodes(rules[..k + 1], featureName) == before;
      }
    }
    assert rules[..|rules|] == rules;
  }

  /** The body of the first `forEach` callback. */
  method AddFeatureCodes(designCodes: seq<DesignCode>, feature: Feature, ghost emitted: seq<DesignCode>)
    returns (updated: seq<DesignCode>)
    requires designCodes == Dedup(emitted)
    ensures updated == Dedup(emitted + FeatureCodes(feature))
  {
    var featureName := FeatureName(feature);
    if featureName == "" {
      assert emitted + [] == emitted;
      return designCodes;
    }
    updated := AddFiringCodes(designCodes, Table, featureName, emitted);
  }

  /** The range tests of the second `forEach` callback: every range of
      `rules` that contains `channels` adds its code to the set. */
  method AddMatchingCodes(designCodes: seq<DesignCode>, rules: seq<ColorRule>, channels: Channels,
                          ghost emitted: seq<DesignCode>)
    returns (updated: seq<DesignCode>)
    requires designCodes == Dedup(emitted)
    ensures updated == Dedup(emitted + MatchingCodes(rules, channels))
  {
    updated := designCodes;
    assert emitted + MatchingCodes(rules[..0], channels) == emitted;
    for k := 0 to |rules|
      invariant updated == Dedup(emitted + MatchingCodes(rules[..k], channels))
    {
      var rule := rules[k];
      ghost var before := emitted + MatchingCodes(rules[..k], channels);
      MatchingCodesStep(rules, k, channels);
      if InRange(rule, channels) {
        assert emitted + MatchingCodes(rules[..k + 1], channels) == before + [rule.code];
        DedupSnoc(before, rule.code);
        if rule.code !in updated {
          updated := updated + [rule.code];
        }
      } else {
        assert emitted + MatchingCodes(rules[..k + 1], channels) == before;
      }
    }
    assert rules[..|rules|] == rules;
  }

  /** The body of the second `forEach` callback: a sample whose score
      qualifies is tested against the six ranges. */
  method AddSampleCodes(designCodes: seq<DesignCode>, color: ColorSample, ghost emitted: seq<DesignCode>)
    returns (updated: seq<DesignCode>)
    requires designCodes == Dedup(emitted)
    ensures updated == Dedup(emitted + SampleCodes(color))
  {
    if !Qualifies(color) {
      assert emitted + [] == emitted;
      return designCodes;
    }
    updated := AddMatchingCodes(designCodes, ColorTable, ChannelsOf(color), emitted);
  }

  /** The first `forEach`: every feature's firing codes, added in order. */
  method AddFeaturePass(features: seq<Feature>) returns (designCodes: seq<DesignCode>)
    ensures designCodes == Dedup(FeaturePass(features))
  {
    designCodes := [];
    for i := 0 to |features|
      invariant designCodes == Dedup(FeaturePass(features[..i]))
    {
      FeaturePassStep(features, i);
      designCodes := AddFeatureCodes(designCodes, features[i], FeaturePass(features[..i]));
    }
    assert features[..|features|] == features;
  }

  /** The second `forEach`: every sample's colour codes, added after what
      `emitted` already holds. */
  method AddColorPass(designCodes: seq<DesignCode>, colorInfo: seq<ColorSample>, ghost emitted: seq<DesignCode>)
    returns (updated: seq<DesignCode>)
    requires designCodes == Dedup(emitted)
    ensures updated == Dedup(emitted + ColorPass(colorInfo))
  {
    updated := designCodes;
    assert emitted + ColorPass(colorInfo[..0]) == emitted;
    for i := 0 to |colorInfo|
      invariant updated == Dedup(emitted + ColorPass(colorInfo[..i]))
    {
      ColorPassStepAfter(emitted, colorInfo, i);
      updated := AddSampleCodes(updated, colorInfo[i], emitted + ColorPass(colorInfo[..i]));
    }
    assert colorInfo[..|colorInfo|] == colorInfo;
  }

  /** `inferDesignCodesFromFeatures`: the two `forEach` loops filling
      `designCodes`, then `Array.from(designCodes)`. */
  method InferDesignCodesFromFeatures(features: seq<Feature>, imageProperties: Option<ImageProperties>)
    returns (designCodes: seq<DesignCode>)
    ensures designCodes == Inferred(features, imageProperties)
    ensures NoDuplicates(designCodes)
    ensures forall c :: c in designCodes <==> c in Emitted(features, imageProperties)
  {
    designCodes := AddFeaturePass(features);
    var colorInfo := ColorInfo(imageProperties);
    designCodes := AddColorPass(designCodes, colorInfo, FeaturePass(features));
    DedupNoDuplicates(Emitted(features, imageProperties));
    DedupMembers(Emitted(features, imageProperties));
  }
}
