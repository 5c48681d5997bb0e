/**
 * The colour pass (route.ts lines 102-113): a dominant-colour sample whose
 * score is strictly above 0.2 is classified against six fixed RGB ranges, each
 * of which adds a reserved code of category 29.
 */
module ColorRules {
  import opened Wrappers
  import opened DesignCodes

  /** The `color` object of a sample; each channel may be absent. */
  datatype Rgb = Rgb(red: Option<int>, green: Option<int>, blue: Option<int>)

  /** An entry of `dominantColors.colors`. An absent score stands for
      `undefined` and NaN, for which `score > 0.2` is false. */
  datatype ColorSample = ColorSample(color: Option<Rgb>, score: Option<real>)

  /** The three channels after defaulting. */
  datatype Channels = Channels(red: int, green: int, blue: int)

  /** One side of a channel test: `v > limit` or `v < limit`. */
  datatype Bound = Above(limit: int) | Below(limit: int)

  predicate Within(v: int, b: Bound) {
    match b
    case Above(n) => v > n
    case Below(n) => v < n
  }

  /** One `if (red ... && green ... && blue ...) designCodes.add(code)` line. */
  datatype ColorRule = ColorRule(red: Bound, green: Bound, blue: Bound, code: DesignCode)

  predicate InRange(rule: ColorRule, ch: Channels) {
    Within(ch.red, rule.red) && Within(ch.green, rule.green) && Within(ch.blue, rule.blue)
  }

  const ScoreThreshold: real := 0.2

  /** The six ranges, in the order the source tests them (lines 106-111). */
  const ColorTable: seq<ColorRule> := [
    ColorRule(Above(200), Below(100), Below(100), DesignCode(29, 1, 1)), // red
    ColorRule(Below(100), Above(200), Below(100), DesignCode(29, 1, 3)), // green
    ColorRule(Below(100), Below(100), Above(200), DesignCode(29, 1, 4)), // blue
    ColorRule(Above(200), Above(200), Below(100), DesignCode(29, 1, 2)), // yellow
    ColorRule(Below(50), Below(50), Below(50), DesignCode(29, 1, 8)),    // black
    ColorRule(Above(200), Above(200), Above(200), DesignCode(29, 1, 6))  // white
  ]

  /** `color.score > 0.2`. */
  predicate Qualifies(sample: ColorSample) {
    sample.score.Some? && sample.score.value > ScoreThreshold
  }

  /** `const { red = 0, green = 0, blue = 0 } = color.color || {}`. */
  function ChannelsOf(sample: ColorSample): (ch: Channels)
    ensures sample.color.None? ==> ch == Channels(0, 0, 0)
    ensures sample.color.Some? ==> ch.red == sample.color.value.red.GetOr(0)
    ensures sample.color.Some? ==> ch.green == sample.color.value.green.GetOr(0)
    ensures sample.color.Some? ==> ch.blue == sample.color.value.blue.GetOr(0)
  {
    var rgb := sample.color.GetOr(Rgb(None, None, None));
    Channels(rgb.red.GetOr(0), rgb.green.GetOr(0), rgb.blue.GetOr(0))
  }

  /** The codes of the ranges that contain `ch`, in table order. */
  function MatchingCodes(rules: seq<ColorRule>, ch: Channels): seq<DesignCode> {
    if rules == [] then []
    else
      var last := rules[|rules| - 1];
      MatchingCodes(rules[..|rules| - 1], ch) + (if InRange(last, ch) then [last.code] else [])
  }

  /** A colour code is added exactly when its range contains the channels. */
  lemma {:induction false} MatchingCodesMembers(rules: seq<ColorRule>, ch: Channels)
    ensures forall c :: c in MatchingCodes(rules, ch) <==>
                        exists rule :: rule in rules && rule.code == c && InRange(rule, ch)
    ensures MatchingCodes(rules, ch) == [] <==> forall rule :: rule in rules ==> !InRange(rule, ch)
  {
    if rules != [] {
      var init, last := rules[..|rules| - 1], rules[|rules| - 1];
      assert rules == init + [last];
      assert forall rule :: rule in rules <==> rule in init || rule == last;
      MatchingCodesMembers(init, ch);
    }
  }

  lemma MatchingCodesStep(rules: seq<ColorRule>, k: nat, ch: Channels)
    requires k < |rules|
    ensures MatchingCodes(rules[..k + 1], ch)
         == MatchingCodes(rules[..k], ch) + (if InRange(rules[k], ch) then [rules[k].code] else [])
  {
    assert rules[..k + 1][..k] == rules[..k];
  }

  /** What one sample contributes: nothing unless its score qualifies. */
  function SampleCodes(sample: ColorSample): (r: seq<DesignCode>)
    ensures !Qualifies(sample) ==> r == []
  {
    if Qualifies(sample) then MatchingCodes(ColorTable, ChannelsOf(sample)) else []
  }

  /** No two of the six ranges share a point. */
  lemma RangesDisjoint(i: nat, j: nat, ch: Channels)
    requires i < j < |ColorTable|
    ensures !(InRange(ColorTable[i], ch) && InRange(ColorTable[j], ch))
  {
  }

  /** Ranges of which no two contain `ch` yield at most one code for it. */
  lemma {:induction false} AtMostOneMatch(rules: seq<ColorRule>, ch: Channels)
    requires forall i, j :: 0 <= i < j < |rules| && InRange(rules[i], ch) ==> !InRange(rules[j], ch)
    ensures |MatchingCodes(rules, ch)| <= 1
  {
    if rules != [] {
      var init, last := rules[..|rules| - 1], rules[|rules| - 1];
      AtMostOneMatch(init, ch);
      if InRange(last, ch) {
        MatchingCodesMembers(init, ch);
        assert forall k :: 0 <= k < |init| ==> init[k] == rules[k] && !InRange(init[k], ch);
      }
    }
  }

  /** Hence a sample adds at most one colour code. */
  lemma AtMostOneColorCode(sample: ColorSample)
    ensures |SampleCodes(sample)| <= 1
  {
    var ch := ChannelsOf(sample);
    forall i, j | 0 <= i < j < |ColorTable| && InRange(ColorTable[i], ch)
      ensures !InRange(ColorTable[j], ch)
    {
      RangesDisjoint(i, j, ch);
    }
    AtMostOneMatch(ColorTable, ch);
  }
}
