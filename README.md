# Design-code inference for trademark images

This project models `inferDesignCodesFromFeatures` from the trademark search
route of the `trulp` application (`app/api/uspto/trademark/route.ts`, lines
3-116) and proves properties of it in Dafny. The function receives
the features an image-recognition service detected in a logo (each with a
`description` or a `name`), plus the service's optional image-properties record.
It returns the USPTO design codes ("03.07.02" and so on) that those features
and the logo's dominant colours suggest. There are two passes:

- **Feature pass** (lines 10-100). Each feature's text is its `description`,
  else its `name`, else the empty string, lower-cased. A feature with empty
  text is skipped. Otherwise the text is tested against 57 keyword rules, one
  `if (/a|b|c/i.test(featureName)) designCodes.add(code)` line each, grouped
  in eleven series (01 celestial bodies to 28 inscriptions). Every rule that
  fires adds its code.
- **Colour pass** (lines 102-113). Each dominant-colour sample whose score is
  strictly above 0.2 has its RGB channels classified, with absent channels
  read as 0. There are six integer ranges (red, green, blue, yellow, black,
  white), each adding a code of category 29.

The codes go into a JavaScript `Set` (line 7). The function returns
`Array.from` of that set (line 115): each code once, listed in the order it
was first added.

## How the model is laid out

| file | module | contents |
|---|---|---|
| `wrappers.dfy` | `Wrappers` | `Option`, for JSON fields that may be absent |
| `text.dfy` | `Text` | ASCII `toLowerCase`; the search that `RegExp.test` performs for one literal alternative under the `i` flag, with `.` matching any character except a line terminator |
| `design_code.dfy` | `DesignCodes` | a code as three numbers; its "cc.dd.ss" rendering, which is injective |
| `keyword_rules.dfy` | `KeywordRules` | the 57 rules as data, series by series; firing; facts about the table's codes |
| `color_rules.dfy` | `ColorRules` | the six ranges as data; score test; channel defaults; disjointness |
| `ordered_set.dfy` | `OrderedSet` | the insertion-ordered set: `Add`, `Dedup` and their laws |
| `classifier.dfy` | `Classifier` | input records; the per-feature and per-sample contributions; `Inferred`, the specification of the whole function; the imperative loops that fill the set, proved against it |
| `properties.dfy` | `InferenceProperties` | what the function promises about its result |
| `scenarios.dfy` | `Scenarios` | concrete inputs from the rule table and what the result then contains |

The method `Classifier.InferDesignCodesFromFeatures` mirrors the source's two
`forEach` loops. Each loop is a `for` loop that adds a code to a duplicate-free
`seq` only when the code is not already there. Each method's postcondition
ties its result to a specification function: `Inferred(features,
imageProperties) == Dedup(Emitted(...))`. Here `Emitted` is every `add` call
of a run, in order. The properties are proved about `Inferred`.

Design codes are kept as `(category, division, section)` triples, not strings.
`DesignCodes.RenderInjective` and `InferenceProperties.RenderedResult` show
that this loses nothing. Deduplicating triples and then rendering gives the
same list as rendering first and then deduplicating the strings, which is what
the source's `Set<string>` does.

Two consequences of the code worth stating:

- "Eagle soaring" fires only 03.07.02 (line 40), because the rule at line 39
  matches only "bird" or "wing"; `Scenarios.NoBirdInCombined` proves that
  03.07.01 is absent.
- The six ranges at lines 106-111 are pairwise disjoint
  (`ColorRules.RangesDisjoint`), so a sample adds at most one colour code.

## Model

| member | source | states |
|---|---|---|
| `Text.LowerChar` | app/api/uspto/trademark/route.ts:15 | lower-casing a character turns an ASCII capital into its small letter, leaves every other character alone, and never leaves a capital |
| `Text.Lower` | app/api/uspto/trademark/route.ts:11-15 | `toLowerCase` keeps the length, leaves no ASCII capital, keeps every character's case-folded identity, and is empty exactly when its input is |
| `Text.LowerIdempotent` | app/api/uspto/trademark/route.ts:15 | lower-casing an already lower-cased text changes nothing |
| `Text.MatchesFrom` | app/api/uspto/trademark/route.ts:41 | the rest of a pattern matches at an offset exactly when it fits in the text and every one of its characters matches, with `.` matching anything except a line terminator |
| `Text.OccursFrom` | app/api/uspto/trademark/route.ts:19 | the left-to-right scan finds the pattern exactly when it matches at some offset from the start point on |
| `Text.Occurs` | app/api/uspto/trademark/route.ts:19-99 | the `test` of one alternative succeeds exactly when the pattern matches at some offset of the text |
| `Text.OccursInContext` | app/api/uspto/trademark/route.ts:34 | an alternative without `.` is found wherever it sits literally inside the text (matching is unanchored) |
| `Text.MatchesAtCaseInsensitive` | app/api/uspto/trademark/route.ts:11-15 | under the `i` flag a text and its lower-cased form match a pattern at the same offsets |
| `Text.OccursCaseInsensitive` | app/api/uspto/trademark/route.ts:15 | an alternative occurs in the text exactly when it occurs in the lower-cased text, so the source's `toLowerCase` does not change what fires |
| `Text.Lacks` | app/api/uspto/trademark/route.ts:39 | a text lacks a character from an offset on exactly when no later character equals it up to case |
| `Text.MissingCharNeverOccurs` | app/api/uspto/trademark/route.ts:39 | an alternative that needs a letter the text does not contain, in either case, never occurs in it |
| `DesignCodes.DesignCode.Render` | app/api/uspto/trademark/route.ts:19 | a code renders as "cc.dd.ss": eight characters, dots at positions 2 and 5, decimal digits elsewhere, the three digit pairs spelling its category, division and section |
| `DesignCodes.TwoDigits` | app/api/uspto/trademark/route.ts:19 | a number below 100 is written as two decimal digits whose value is that number, with a leading zero when needed |
| `DesignCodes.RenderInjective` | app/api/uspto/trademark/route.ts:7 | two well-formed codes with the same string are the same code, so the set of strings and the set of codes agree |
| `KeywordRules.FiringCodesMembers` | app/api/uspto/trademark/route.ts:19-99 | a code is added exactly when some rule naming it fires; rules fire independently of each other |
| `KeywordRules.FiringRuleAdds` | app/api/uspto/trademark/route.ts:19-99 | every rule that fires contributes its code |
| `KeywordRules.CodeNotAdded` | app/api/uspto/trademark/route.ts:19-99 | a code whose every rule stays silent is not added |
| `KeywordRules.NoneFire` | app/api/uspto/trademark/route.ts:19-99 | when no rule fires the feature contributes nothing |
| `KeywordRules.FiringCodesStep` | app/api/uspto/trademark/route.ts:19-99 | the tests run in table order: rule k adds its code after rules 0..k-1, and only when it fires |
| `KeywordRules.FiresCaseInsensitive` | app/api/uspto/trademark/route.ts:15 | a rule fires on the lower-cased text exactly when it fires on the raw text (the `i` flag) |
| `KeywordRules.FiringCodesCaseInsensitive` | app/api/uspto/trademark/route.ts:11-99 | the whole table adds the same codes, in the same order, for the lower-cased text as for the raw text |
| `KeywordRules.CodesOf` | app/api/uspto/trademark/route.ts:19-99 | the set of a rule list's codes holds every rule's code and nothing else |
| `KeywordRules.NoColorCodesAppend` | app/api/uspto/trademark/route.ts:18-99 | two rule lists without colour codes stay without them when joined |
| `KeywordRules.TableHasNoColorCodes` | app/api/uspto/trademark/route.ts:18-99 | every code of the table is well formed and none is in category 29 |
| `KeywordRules.TableCodeShape` | app/api/uspto/trademark/route.ts:18-99 | any rule of the table adds a well-formed code outside category 29 |
| `KeywordRules.AllInCategoryMeans` | app/api/uspto/trademark/route.ts:18-99 | the series check means that every rule from the start index on has a well-formed code of the series' category |
| `KeywordRules.CodeAbsentMeans` | app/api/uspto/trademark/route.ts:18-99 | the absence check means no rule from the given index on names the code |
| `KeywordRules.DistinctFromMeans` | app/api/uspto/trademark/route.ts:18-99 | the distinctness check means no two rules from the given index on share a code |
| `KeywordRules.SeriesShape` | app/api/uspto/trademark/route.ts:18-99 | a series that passes both checks has distinct codes, all of its own category, none of them a colour code |
| `KeywordRules.FigureCodes` | app/api/uspto/trademark/route.ts:18-30 | the celestial rules all add distinct codes of category 01, and the human-figure rules distinct codes of category 02 |
| `KeywordRules.AnimalCodes` | app/api/uspto/trademark/route.ts:32-44 | the animal rules all add distinct codes of category 03 |
| `KeywordRules.PlantAndBuildingCodes` | app/api/uspto/trademark/route.ts:46-60 | the plant rules add distinct codes of category 05, and the building rules distinct codes of category 07 |
| `KeywordRules.ObjectCodes` | app/api/uspto/trademark/route.ts:62-78 | the implement, clothing and transportation rules add distinct codes of categories 08, 09 and 18 |
| `KeywordRules.GeometricCodes` | app/api/uspto/trademark/route.ts:80-87 | the geometric rules add distinct codes of category 26 |
| `KeywordRules.LetteringCodes` | app/api/uspto/trademark/route.ts:89-99 | the letter and inscription rules add distinct codes of categories 27 and 28 |
| `KeywordRules.SeriesShapes` | app/api/uspto/trademark/route.ts:18-99 | each of the eleven series adds distinct codes of its own category, none of them 29 |
| `KeywordRules.DistinctCodesAppend` | app/api/uspto/trademark/route.ts:18-99 | series in increasing category ranges never share a code when one follows the other |
| `KeywordRules.TableCodesDistinct` | app/api/uspto/trademark/route.ts:19-99 | no two of the 57 rules add the same code |
| `KeywordRules.RuleOfCode` | app/api/uspto/trademark/route.ts:19-99 | a rule of the table is identified by its code |
| `ColorRules.ChannelsOf` | app/api/uspto/trademark/route.ts:105 | a missing `color` object reads as (0, 0, 0), and each missing channel as 0, the others being kept |
| `ColorRules.MatchingCodesMembers` | app/api/uspto/trademark/route.ts:106-111 | a colour code is added exactly when its range contains the channels, and nothing is added when no range does |
| `ColorRules.MatchingCodesStep` | app/api/uspto/trademark/route.ts:106-111 | the ranges are tested in source order, each adding its code after the earlier ones when it contains the channels |
| `ColorRules.SampleCodes` | app/api/uspto/trademark/route.ts:104 | a sample whose score is absent or not above 0.2 adds nothing |
| `ColorRules.RangesDisjoint` | app/api/uspto/trademark/route.ts:106-111 | no two of the six ranges contain the same channels |
| `ColorRules.AtMostOneMatch` | app/api/uspto/trademark/route.ts:106-111 | ranges of which no two contain the channels yield at most one code |
| `ColorRules.AtMostOneColorCode` | app/api/uspto/trademark/route.ts:103-113 | each sample adds at most one colour code |
| `OrderedSet.DedupNoDuplicates` | app/api/uspto/trademark/route.ts:7 | the set's listing never holds an element twice |
| `OrderedSet.DedupMembers` | app/api/uspto/trademark/route.ts:7 | the set holds exactly the elements that were added |
| `OrderedSet.DedupSnoc` | app/api/uspto/trademark/route.ts:19 | one more `add` is `Add` on the listing so far: append when new, no change otherwise |
| `OrderedSet.FirstIndex` | app/api/uspto/trademark/route.ts:115 | the first index of a present element holds it and no earlier index does |
| `OrderedSet.FirstIndexPrefix` | app/api/uspto/trademark/route.ts:115 | later additions do not move an element's first occurrence |
| `OrderedSet.DedupFirstOccurrenceOrder` | app/api/uspto/trademark/route.ts:115 | `Array.from` lists elements in the order of their first insertion |
| `OrderedSet.EmptyIffNoMembers` | app/api/uspto/trademark/route.ts:115 | a listing is empty exactly when it has no members |
| `OrderedSet.FirstOccurrenceOrderPrefix` | app/api/uspto/trademark/route.ts:115 | a prefix of a listing in first-insertion order is itself such a listing, without duplicates |
| `OrderedSet.LastOccursLatest` | app/api/uspto/trademark/route.ts:115 | in such a listing the last element was first inserted after every other |
| `OrderedSet.SameLast` | app/api/uspto/trademark/route.ts:115 | two such listings of the same elements end with the same element |
| `OrderedSet.DropSameLast` | app/api/uspto/trademark/route.ts:115 | dropping that shared last element leaves listings of the same elements |
| `OrderedSet.SameMembersBothEmpty` | app/api/uspto/trademark/route.ts:115 | listings with the same members are empty together |
| `OrderedSet.FirstOccurrenceListingUnique` | app/api/uspto/trademark/route.ts:115 | there is only one duplicate-free listing of the added elements in first-insertion order |
| `OrderedSet.DedupCharacterization` | app/api/uspto/trademark/route.ts:7-115 | a list is the set's contents exactly when it is duplicate-free, holds the added elements and lists them in first-insertion order |
| `OrderedSet.DedupAbsorbs` | app/api/uspto/trademark/route.ts:7 | adding elements already in the set changes nothing |
| `OrderedSet.DedupAppendDisjoint` | app/api/uspto/trademark/route.ts:7-115 | elements of two batches with nothing in common are listed batch after batch |
| `OrderedSet.DedupCongruent` | app/api/uspto/trademark/route.ts:7 | what later additions yield depends only on the set's contents so far |
| `Classifier.RawText` | app/api/uspto/trademark/route.ts:11-15 | the text is a present non-empty `description`, else a present non-empty `name`, else empty, and is empty exactly when neither field is usable |
| `Classifier.ConcatMembers` | app/api/uspto/trademark/route.ts:10-113 | a `forEach` pass emits a code exactly when some item contributes it |
| `Classifier.ConcatEmpty` | app/api/uspto/trademark/route.ts:10-113 | a pass emits nothing exactly when no item contributes anything |
| `Classifier.ConcatStep` | app/api/uspto/trademark/route.ts:10-113 | a pass handles the items in order: item i's codes follow those of items 0..i-1 |
| `Classifier.FeaturePassMembers` | app/api/uspto/trademark/route.ts:10-100 | the feature pass emits a code exactly when some feature contributes it |
| `Classifier.FeaturePassStep` | app/api/uspto/trademark/route.ts:10-100 | feature i's codes are emitted after those of the features before it |
| `Classifier.ColorInfo` | app/api/uspto/trademark/route.ts:8 | missing image properties or a missing `dominantColors` record give an empty sample list; otherwise the samples are the `colors` list, or none when it is absent |
| `Classifier.ColorPassMembers` | app/api/uspto/trademark/route.ts:103-113 | the colour pass emits a code exactly when some sample contributes it |
| `Classifier.ColorPassStep` | app/api/uspto/trademark/route.ts:103-113 | sample i's codes are emitted after those of the samples before it |
| `Classifier.ColorPassStepAfter` | app/api/uspto/trademark/route.ts:103-113 | the same, after what the feature pass emitted |
| `Classifier.AddFiringCodes` | app/api/uspto/trademark/route.ts:19-99 | the rule tests leave the set holding its old additions followed by the codes of the firing rules, deduplicated |
| `Classifier.AddFeatureCodes` | app/api/uspto/trademark/route.ts:10-100 | one feature callback adds exactly that feature's contribution; a textless feature returns early and adds nothing |
| `Classifier.AddMatchingCodes` | app/api/uspto/trademark/route.ts:106-111 | the range tests leave the set holding its old additions followed by the codes of the matching ranges, deduplicated |
| `Classifier.AddSampleCodes` | app/api/uspto/trademark/route.ts:104-112 | one colour callback adds exactly that sample's contribution; a non-qualifying sample adds nothing |
| `Classifier.AddFeaturePass` | app/api/uspto/trademark/route.ts:10-100 | after the first loop the set holds the deduplicated feature pass |
| `Classifier.AddColorPass` | app/api/uspto/trademark/route.ts:103-113 | the second loop appends the colour pass to what the set held |
| `Classifier.InferDesignCodesFromFeatures` | app/api/uspto/trademark/route.ts:3-116 | the result is `Inferred`, has no duplicates, and holds exactly the codes some `add` call emitted |
| `InferenceProperties.FeatureCodesIgnoreCase` | app/api/uspto/trademark/route.ts:11-16 | a feature adds the codes of the rules firing on its raw text, or nothing when it has no text |
| `InferenceProperties.FeatureCodesMembers` | app/api/uspto/trademark/route.ts:11-99 | a feature adds a code exactly when it has text and a rule naming that code fires on it |
| `InferenceProperties.SampleCodesMembers` | app/api/uspto/trademark/route.ts:104-111 | a sample adds a code exactly when its score qualifies and the range naming that code contains its channels |
| `InferenceProperties.SampleCodesClassify` | app/api/uspto/trademark/route.ts:104-111 | a sample adds exactly the one code that a first-match classification of its channels gives, when its score qualifies, and nothing otherwise |
| `InferenceProperties.MissingColorIsBlack` | app/api/uspto/trademark/route.ts:105-110 | a qualifying sample without a `color` object adds black, 29.01.08, and nothing else |
| `InferenceProperties.LowScoreAddsNothing` | app/api/uspto/trademark/route.ts:104 | a sample whose score is absent or at most 0.2 adds nothing, whatever its colour |
| `InferenceProperties.ColorCodeShape` | app/api/uspto/trademark/route.ts:106-111 | every colour code is a well-formed code of category 29 |
| `InferenceProperties.InferredMembers` | app/api/uspto/trademark/route.ts:7-115 | the result holds exactly the codes some feature or some sample contributes |
| `InferenceProperties.OnlyKnownCodes` | app/api/uspto/trademark/route.ts:19-111 | every returned code is a code of the keyword table or the code of one of the six colour ranges |
| `InferenceProperties.FeatureCodeKnown` | app/api/uspto/trademark/route.ts:19-99 | a code a feature contributes is a code of the table |
| `InferenceProperties.SampleCodeKnown` | app/api/uspto/trademark/route.ts:106-111 | a code a sample contributes is the code of one of the colour ranges |
| `InferenceProperties.FeaturePassEmpty` | app/api/uspto/trademark/route.ts:10-100 | the feature pass emits nothing exactly when every feature contributes nothing |
| `InferenceProperties.ColorPassEmpty` | app/api/uspto/trademark/route.ts:103-113 | the colour pass emits nothing exactly when every sample contributes nothing |
| `InferenceProperties.EmptyExactlyWhenNothingFires` | app/api/uspto/trademark/route.ts:7-115 | the result is empty exactly when no feature and no sample contributes a code |
| `InferenceProperties.EmptyInput` | app/api/uspto/trademark/route.ts:7-8 | no features and an empty or absent dominant-colour list give an empty result |
| `InferenceProperties.NoColorsNoColorCodes` | app/api/uspto/trademark/route.ts:8 | without a dominant-colour list the result is the feature pass's codes alone |
| `InferenceProperties.TextlessFeaturesSkipped` | app/api/uspto/trademark/route.ts:11-16 | a feature with neither a usable `description` nor a usable `name` leaves the result unchanged |
| `InferenceProperties.FeaturePassCategories` | app/api/uspto/trademark/route.ts:10-100 | the feature pass emits only well-formed codes outside category 29 |
| `InferenceProperties.ColorPassCategories` | app/api/uspto/trademark/route.ts:103-113 | the colour pass emits only well-formed codes of category 29 |
| `InferenceProperties.ColorCodesComeLast` | app/api/uspto/trademark/route.ts:10-115 | the result is the deduplicated feature codes followed by the deduplicated colour codes |
| `InferenceProperties.ColorSuffix` | app/api/uspto/trademark/route.ts:115 | in a list of keyword codes followed by colour codes, only colour codes follow a colour code |
| `InferenceProperties.ColorCodesTrailing` | app/api/uspto/trademark/route.ts:10-115 | in the result, every code after a colour code is a colour code |
| `InferenceProperties.RepeatedFeatureChangesNothing` | app/api/uspto/trademark/route.ts:10-100 | a feature seen again adds nothing: the result is unchanged |
| `InferenceProperties.SameFeaturesSameCodes` | app/api/uspto/trademark/route.ts:10-115 | reordering or repeating features does not change which codes are returned |
| `InferenceProperties.RenderAll` | app/api/uspto/trademark/route.ts:19 | rendering keeps the length and renders each code in place |
| `InferenceProperties.RenderAdd` | app/api/uspto/trademark/route.ts:7 | adding a code to the set and adding its string to a set of strings agree |
| `InferenceProperties.RenderAllPrefix` | app/api/uspto/trademark/route.ts:7 | rendering a list ending in a code is rendering the rest and then adding that code's string |
| `InferenceProperties.RenderDedupCommute` | app/api/uspto/trademark/route.ts:7-115 | deduplicating codes and then rendering them equals rendering them and then deduplicating the strings |
| `InferenceProperties.RenderedResult` | app/api/uspto/trademark/route.ts:7-115 | the source's array of strings is the rendered result, holds no string twice, and is the deduplicated rendering of all `add` calls |
| `Scenarios.FeatureAdds` | app/api/uspto/trademark/route.ts:11-99 | a feature whose text matches an alternative of a rule contributes that rule's code |
| `Scenarios.InResult` | app/api/uspto/trademark/route.ts:10-115 | a code a feature contributes is in the result |
| `Scenarios.FeatureAddsToResult` | app/api/uspto/trademark/route.ts:10-115 | a feature whose text matches an alternative of a rule puts that rule's code in the result |
| `Scenarios.CelestialAt` | app/api/uspto/trademark/route.ts:19-22 | the celestial rules open the table |
| `Scenarios.HumanFiguresAt` | app/api/uspto/trademark/route.ts:25-30 | the human-figure rules sit at table positions 4-9 |
| `Scenarios.AnimalsAt` | app/api/uspto/trademark/route.ts:33-44 | the animal rules sit at table positions 10-21 |
| `Scenarios.PlantsAt` | app/api/uspto/trademark/route.ts:47-51 | the plant rules sit at table positions 22-26 |
| `Scenarios.ImplementsAt` | app/api/uspto/trademark/route.ts:63-66 | the implement rules sit at table positions 32-35 |
| `Scenarios.LettersAt` | app/api/uspto/trademark/route.ts:90-93 | the letter and number rules sit at table positions 50-53 |
| `Scenarios.FigureRules` | app/api/uspto/trademark/route.ts:20-28 | the sun, hand and lip rules as the source writes them |
| `Scenarios.MammalRules` | app/api/uspto/trademark/route.ts:34 | the dog rule as the source writes it |
| `Scenarios.BirdRules` | app/api/uspto/trademark/route.ts:39-41 | the bird, eagle and dove rules as the source writes them |
| `Scenarios.ObjectRules` | app/api/uspto/trademark/route.ts:47-90 | the tree, sword and text rules as the source writes them |
| `Scenarios.RetrieverMatches` | app/api/uspto/trademark/route.ts:34 | "dog" matches "Golden Retriever dog detected" at offset 17 |
| `Scenarios.EclipseMatches` | app/api/uspto/trademark/route.ts:20-28 | "solar" matches "Solar eclipse" at its start, and "lip" inside "eclipse" |
| `Scenarios.PalmMatches` | app/api/uspto/trademark/route.ts:26-47 | "palm" matches "Palm" regardless of case |
| `Scenarios.SwordMatches` | app/api/uspto/trademark/route.ts:65-90 | "sword" matches "SWORD", and so does "word" at offset 1 |
| `Scenarios.PeaceBirdMatches` | app/api/uspto/trademark/route.ts:39-41 | "peace.bird" matches "peace-bird" through its wildcard, and "bird" matches at offset 6 |
| `Scenarios.EagleMatches` | app/api/uspto/trademark/route.ts:40 | "eagle" matches "Eagle soaring" |
| `Scenarios.RetrieverIsDog` | app/api/uspto/trademark/route.ts:34 | a feature "Golden Retriever dog detected" puts 03.01.08 in the result |
| `Scenarios.SolarEclipse` | app/api/uspto/trademark/route.ts:20-28 | a feature "Solar eclipse" puts 01.03.01 and also 02.09.08 in the result |
| `Scenarios.PalmIsHand` | app/api/uspto/trademark/route.ts:26 | a feature "Palm" puts the hand code 02.09.01 in the result |
| `Scenarios.PalmIsTree` | app/api/uspto/trademark/route.ts:47 | a feature "Palm" puts the tree code 05.01.01 in the result |
| `Scenarios.PalmIsHandAndTree` | app/api/uspto/trademark/route.ts:26-47 | "palm" fires two rules, so both codes are returned |
| `Scenarios.SwordIsWordToo` | app/api/uspto/trademark/route.ts:65-90 | "SWORD" yields 08.03.01 and, because it contains "word", 27.03.01 |
| `Scenarios.DotIsWildcard` | app/api/uspto/trademark/route.ts:39-41 | "peace-bird" yields the dove code 03.07.09 through the wildcard and the bird code 03.07.01 |
| `Scenarios.ColorThreshold` | app/api/uspto/trademark/route.ts:104-106 | a red sample adds 29.01.01 at score 0.25 but nothing at 0.1 or at exactly 0.2 |
| `Scenarios.DefaultsAndGaps` | app/api/uspto/trademark/route.ts:105-111 | grey (128, 128, 128) adds nothing; only `red` 255 reads as red; a sample without `color` reads as black |
| `Scenarios.BirdRuleSilent` | app/api/uspto/trademark/route.ts:39 | the bird rule stays silent on a text without a w that also lacks a b or an i |
| `Scenarios.BirdCodeSpelling` | app/api/uspto/trademark/route.ts:39 | the bird rule's code renders as the source's literal "03.07.01" |
| `Scenarios.BirdCodeRule` | app/api/uspto/trademark/route.ts:19-99 | only the "bird"/"wing" rule names 03.07.01 |
| `Scenarios.NoBirdCodeWithout` | app/api/uspto/trademark/route.ts:39 | such a text never gets 03.07.01 |
| `Scenarios.EagleLacksBird` | app/api/uspto/trademark/route.ts:39-40 | "Eagle soaring" has no w and no b |
| `Scenarios.SkyLacksBird` | app/api/uspto/trademark/route.ts:39 | "Blue sky" has no w and no i |
| `Scenarios.KeywordCodeAbsent` | app/api/uspto/trademark/route.ts:10-115 | a code outside category 29 that no feature contributes is absent from the result |
| `Scenarios.EagleCode` | app/api/uspto/trademark/route.ts:40 | a feature "Eagle soaring" puts 03.07.02 in the result |
| `Scenarios.NoBirdInCombined` | app/api/uspto/trademark/route.ts:39 | features reading only "Eagle soaring" or "Blue sky" never yield the bird code 03.07.01 |
| `Scenarios.OneSamplePass` | app/api/uspto/trademark/route.ts:103-113 | a colour pass over one sample adds what that sample adds |
| `Scenarios.BlueSampleIsBlue` | app/api/uspto/trademark/route.ts:108 | (10, 20, 230) at score 0.5 adds exactly the blue code 29.01.04 |
| `Scenarios.BlueComesLast` | app/api/uspto/trademark/route.ts:103-115 | with that one blue sample the result is the feature codes followed by 29.01.04 |

## Left out

- The `POST` handler (route.ts lines 118-188) is not part of this model. It
  calls the Google Vision and USPTO services over the network, fans requests
  out with `Promise.all`, reads API keys from the environment and maps errors
  to HTTP responses. All of that is I/O and concurrency.
- `app/components/TrademarkChecker.tsx` (user interface, file reading, fetch)
  and `app/page.tsx` (page layout and wallet wiring) are not part of this
  model. They hold no classification logic.
- `Text.Lower`: lower-casing covers ASCII only. JavaScript's `toLowerCase`
  also folds non-ASCII characters, and some of them fold into ASCII letters,
  so the model can miss a rule the source fires. U+212A KELVIN SIGN becomes
  `k`, so "\u212AEY" reads "key" and fires 08.07.01 (line 66) in the source
  but not in the model. U+0130 becomes `i` followed by U+0307, so
  "FARS\u0130" fires 28.01.01 (line 99) in the source but not in the model.
- Strings are modelled as sequences of Unicode code points, not UTF-16 code
  units. The source's regular expressions have no `u` flag and match code
  units. So `.` matches a whole character outside the Basic Multilingual
  Plane in the model but only half of its surrogate pair in the source. For
  example, "peace\u{1F600}bird" fires 03.07.09 (line 41) in the model but not
  in the source.
- Regular expressions are modelled only as the table uses them: each is an
  alternation of literal keywords, where `.` is the one metacharacter. Full
  regex syntax is not modelled. The `i` flag is modelled as ASCII case
  folding.
- Scores are real numbers, not IEEE doubles. An absent score stands for both
  `undefined` and NaN, since `score > 0.2` is false for either.
- Channels are integers. Non-numeric channel values, and channels that are
  `null`, are not modelled. `null` compares like 0 in JavaScript, so treating
  it as absent gives the same result.
- Feature fields are optional strings. A non-string `description` or `name`,
  a `null` feature, and a `features` argument that is not an array are not
  modelled.
- A `null` entry in `dominantColors.colors` is not modelled: `color.score`
  throws on it at line 104, and a `ColorSample` is always a record.
- The `Set` is modelled by its insertion-ordered contents, a duplicate-free
  `seq`, not as a shared mutable object. Nothing else in the function
  aliases it.
- The example lemmas in `scenarios.dfy` show that particular codes are present
  or absent for a given text. They do not state the complete list of codes
  for that text.
