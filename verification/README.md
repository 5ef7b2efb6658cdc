# Anamnesis questionnaire: recommendation engine, choice field and step navigation

A Dafny model of the decision core of an optometry pre-examination
questionnaire. The patient answers a series of steps. The answers form a
record of fields. From that record the recommendation engine derives the
clinical actions to propose.

- **Condition evaluator** (`Conditions`). A rule's condition is a tree of
  `all` / `any` nodes over field tests. A field test is `equals`,
  `includes`, `any_of` or `not_contains`, or, when it has none of them, the
  field's truthiness. The model follows the source's precedence among the
  four tests. It also follows JavaScript's semantics: arrays versus strings,
  truthiness, an empty `any_of` list, and an empty `not_contains` being
  skipped.
- **Rule catalog** (`Catalog`). The seventeen rules of the `expectedRules`
  literal in the catalog's test. That test checks that no two rules share a
  condition and an action list.
- **Engine** (`Recommendations`). `buildAutoRecommendations` works in three
  steps:
  1. it keeps the triggered rules;
  2. it merges their actions into one bucket per action key, in
     first-occurrence order, collecting each distinct rationale once;
  3. it sorts the buckets by severity, then by label.
- **Metadata** (`Actions`, `Labels`). The action metadata table with its
  severity ranking, and the label synthesised from an identifier that has
  no table entry (`formatLabelFromKey`).
- **Choice field** (`ChoiceField`). Single- and multi-select choice fields,
  where "exclusive" options (such as "none") replace the whole selection.
- **Page navigation** (`Navigation`). Per-step validation and the
  next/back navigation of the questionnaire page.

The modules follow the source files:

| module | file |
|---|---|
| `Answers` | the answer record and JavaScript truthiness |
| `Conditions`, `Labels`, `Actions`, `Sorting`, `Recommendations` | src/lib/recommendations.ts |
| `Catalog` | src/data/autoRecommendations.test.ts |
| `ChoiceField` | src/components/questionnaire/ChoiceField.tsx |
| `Navigation` | src/pages/Index.tsx |
| `Seqs`, `Wrappers` | shared sequence and option helpers |

Parameters stand for what the core takes from its environment:

- `upper: char -> char` is JavaScript's locale-independent `toUpperCase`, applied to one UTF-16 code unit. For a character outside the Basic Multilingual Plane it stands for the identity.
- `labelLe` is the Spanish `localeCompare`. The ordering lemmas assume only
  that it is a total preorder.
- `resolve: Key -> Meta` is the metadata lookup. `Actions.MetadataOf(upper)`
  is the application's own lookup.

The sort is `Array.prototype.sort`, which is stable. It is modelled by an
insertion sort over the input from the back. Each element is placed before
the equal ones already placed, which come after it in the input, so equal
elements keep their input order. Stability is a property of that body only: no contract
states it. Ties do occur, since `a_b` and `A_b` both get the label "A B".

Two behaviours of the code worth noting:

- An `any_of` test on a field whose value is a bare string compares the
  string itself. So `urgent_referral` also fires when `symptoms_list` is the
  photopsia option as a plain string. `Catalog.PhotopsiaRuleFires` states
  this.
- The page's provider is mounted without a step count. See Findings.

## Model

| member | source | states |
|---|---|---|
| Conditions.EvalField | src/lib/recommendations.ts:167-204 | Which test decides, in the source's precedence: equals, then includes, then any_of, then a non-empty not_contains, then truthiness. Each test is stated as membership (`Holds`) of the answer. `not_contains` on a non-string, non-array value falls back to truthiness. |
| Conditions.Eval | src/lib/recommendations.ts:206-214 | An `all` node holds iff every child holds. An `any` node holds iff some child holds. A leaf is its field test. |
| Conditions.AllHold | src/lib/recommendations.ts:207-209 | `every` over the children is the universal quantifier. |
| Conditions.AnyHolds | src/lib/recommendations.ts:210-212 | `some` over the children is the existential quantifier. |
| Conditions.PositiveLeafMonotone | src/lib/recommendations.ts:170-192 | An equals / includes / any_of test that holds keeps holding when the record gains fields or array items. |
| Conditions.PositiveMonotone | src/lib/recommendations.ts:167-214 | A condition built only from positive tests is monotone in the answers: extending the record never turns it off. |
| Conditions.ShallowPositiveFailsOnEmpty | src/lib/recommendations.ts:167-214 | A positive leaf, or a non-empty `all` of positive leaves, is false on the empty record. |
| Labels.Split | src/lib/recommendations.ts:217-218 | `split('_')` yields one part more than the key has underscores, and no part contains `_`. |
| Labels.JoinSplit | src/lib/recommendations.ts:217-220 | Joining the split parts with `_` gives the key back. |
| Labels.FormatLabelFromKey | src/lib/recommendations.ts:216-220 | The label has the key's length. Position by position, it holds a space for each `_`, the upper-cased character at the start of each part, and the key's character elsewhere. |
| Labels.FormatPointwise | src/lib/recommendations.ts:216-220 | The position-by-position characterisation, proved by induction on the key's parts. |
| Labels.FormatLabelHasNoUnderscore | src/lib/recommendations.ts:216-220 | If upper-casing never produces `_`, a synthesised label has no underscore. |
| Actions.SeverityWeightRanks | src/lib/recommendations.ts:161-165 | The severity weights are pairwise distinct and ordered critical < warning < info. |
| Actions.TableSeverities | src/lib/recommendations.ts:21-157 | In the metadata table only `urgent_referral` is critical. Only the two postponement actions are warnings. |
| Actions.Resolve | src/lib/recommendations.ts:236-241 | A listed key gets its table entry. An unlisted key gets a diagnostic entry of severity info, with no description and a label formatted from the identifier. |
| Actions.SeverityOfKeys | src/lib/recommendations.ts:236-249 | After the `?? 'info'` default, a key is critical iff it is `urgent_referral`, and a warning iff it is one of the two postponements. |
| Actions.OnlyUrgentReferralIsCritical | src/lib/recommendations.ts:236-249 | Under the application's metadata lookup, exactly one key resolves to critical. |
| Sorting.Insert | src/lib/recommendations.ts:259-263 | An insertion step adds exactly one element (multiset). |
| Sorting.InsertSorted | src/lib/recommendations.ts:259-263 | Inserting into a sorted sequence keeps it sorted, for a total-preorder comparator. |
| Sorting.Sort | src/lib/recommendations.ts:259-263 | The result is a permutation of the input, of the same length, and is sorted whenever the comparator is a total preorder. |
| Recommendations.TriggeredRules | src/lib/recommendations.ts:230 | Exactly the catalog rules whose condition holds, each as often as in the catalog, in catalog order (a subsequence). |
| Recommendations.CollectIsExpected | src/lib/recommendations.ts:232-257 | The map fold equals a reference definition: one bucket per distinct key in first-occurrence order. Each bucket's reasons are the de-duplicated rationales of the hits on that key. |
| Recommendations.UpsertStep | src/lib/recommendations.ts:243-255 | One fold step: a new key appends a fresh bucket, and a known key gains the rationale unless it is already present. |
| Recommendations.UpsertFirstVisit | src/lib/recommendations.ts:244-252 | A key's first hit creates the bucket the reference definition expects. |
| Recommendations.UpsertLaterVisit | src/lib/recommendations.ts:253-255 | Pushing a rationale only when `reasons` does not include it yet is keep-first de-duplication of the rationales. |
| Recommendations.WhysForEmptyUnlessVisited | src/lib/recommendations.ts:234-257 | A rationale is collected for a key iff some hit pairs that key with that rationale. |
| Recommendations.BucketKeys | src/lib/recommendations.ts:232-257 | The bucket keys are the de-duplicated action keys of the triggered rules. They are duplicate-free, and a key has a bucket iff some triggered rule lists it. |
| Recommendations.BucketContents | src/lib/recommendations.ts:236-255 | Each bucket carries its key's resolved label, type, description and severity (defaulted to info). Its reasons are non-empty, duplicate-free, and are exactly the rationales of the rules listing the key. |
| Recommendations.HitsOfRules | src/lib/recommendations.ts:234-235 | The nested `forEach` visits exactly the (key, rationale) pairs of the rules' action lists. |
| Recommendations.ActionOrderIsTotalPreorder | src/lib/recommendations.ts:259-263 | Severity weight, then label order, is a total preorder whenever the label order is one. |
| Recommendations.BuildAutoRecommendations | src/lib/recommendations.ts:227-269 | The triggered rules are the matching catalog rules in order. The actions are a permutation of the merged buckets, sorted by the comparator. |
| Recommendations.ResultKeys | src/lib/recommendations.ts:232-263 | The result holds one action per key, and a key appears iff some triggered rule lists it. |
| Recommendations.ResultBuckets | src/lib/recommendations.ts:232-263 | Every result action carries its resolved metadata and exactly the distinct rationales of the triggered rules listing its key. |
| Recommendations.ResultSeverityOrder | src/lib/recommendations.ts:259-261 | Severity weights never decrease along the result: critical, then warning, then info. |
| Recommendations.ResultLabelOrder | src/lib/recommendations.ts:259-263 | Actions of equal severity appear in label order. |
| Recommendations.ResultSeverities | src/lib/recommendations.ts:249 | Each result action's severity is its resolved severity, info when unset. |
| Recommendations.CriticalFirst | src/lib/recommendations.ts:259-263 | If only one key can be critical and it is recommended, it comes first. |
| Recommendations.UrgentReferralFirst | src/lib/recommendations.test.ts:197-205 | With the application's metadata, a recommended `urgent_referral` is the first action. |
| Recommendations.SoleListerDecides | src/lib/recommendations.ts:230-257 | A key listed by a single catalog rule is recommended iff that rule's condition holds. |
| Recommendations.WhysForAppend | src/lib/recommendations.ts:234-257 | Rationale collection distributes over concatenated hits. |
| Recommendations.TwoRulesTwoReasons | src/lib/recommendations.ts:253-255 | Two rules that share a key and have different rationales give that key both rationales, in rule order. |
| Recommendations.SharedKeyReasons | src/lib/recommendations.ts:230-263 | When exactly two such rules trigger, the shared key is recommended once, with both rationales in rule order. |
| Recommendations.TriggeredPrefix | src/lib/recommendations.ts:230 | If every rule of a prefix fires and none after it does, the triggered rules are exactly the prefix. |
| Catalog.SignatureCheckMeansUnique | src/data/autoRecommendations.test.ts:163-171 | The test's seen-set loop passes iff no signature was seen before and no two rules share a (condition, actions) signature. |
| Catalog.CatalogPassesSignatureCheck | src/data/autoRecommendations.test.ts:6-171 | The seventeen catalog rules pass the uniqueness test. |
| Catalog.CatalogWellFormed | src/data/autoRecommendations.test.ts:6-157 | Every rule has a non-empty, duplicate-free action list, drawn from the metadata table. Its condition is a positive leaf or a non-empty `all` of positive leaves. |
| Catalog.EmptyRecordTriggersNothing | src/data/autoRecommendations.test.ts:6-157 | The empty answer record triggers no rule and yields no action. |
| Catalog.OnlyPhotopsiaRuleRefers | src/data/autoRecommendations.test.ts:19-24 | Only the photopsia rule lists `urgent_referral`. |
| Catalog.PhotopsiaRuleFires | src/data/autoRecommendations.test.ts:20 | The photopsia rule fires iff the symptom list holds the photopsia option. |
| Catalog.UrgentReferralIffPhotopsia | src/data/autoRecommendations.test.ts:19-24 | `urgent_referral` is recommended iff the symptom list holds the photopsia option. |
| Catalog.RestQuiet | src/lib/recommendations.test.ts:7-24 | On the test suite's base record with dry eye and headache, none of the fifteen other rules fires. |
| Catalog.TriggeredOnDrynessAndHeadache | src/lib/recommendations.test.ts:178-183 | On that record exactly the headache rule and the dry-eye rule trigger, in that order. |
| Catalog.TearFilmTestHasBothReasons | src/lib/recommendations.test.ts:178-195 | On that record the tear-film test (`tbuts`) is recommended once, with exactly the headache and dry-eye rationales, in that order. |
| ChoiceField.SelectedValues | src/components/questionnaire/ChoiceField.tsx:26-28 | An option is shown as selected iff, in multi-select mode, the value is an array holding it (shown in the array's order), or, in single mode, the value equals it and it is not empty. Single mode shows at most one option. |
| ChoiceField.ClickShowsSelection | src/components/questionnaire/ChoiceField.tsx:26-54 | After a click, the selection the field shows from the stored value obeys the exclusivity rule in multi-select mode. In single mode it is exactly the clicked option, or nothing when that option is the empty string. |
| ChoiceField.HandleSelect | src/components/questionnaire/ChoiceField.tsx:30-54 | Single mode reports the option. An exclusive option becomes the whole selection. Any other option clears the exclusive options and is toggled: a value is kept iff it was selected, is not exclusive and is not the option, and the option is present iff it was absent. |
| ChoiceField.ClickKeepsExclusivity | src/components/questionnaire/ChoiceField.tsx:36-52 | After any click the selection is a lone exclusive option, or holds no exclusive option. |
| ChoiceField.ClickKeepsOrder | src/components/questionnaire/ChoiceField.tsx:44-52 | The kept values keep their relative order, and a newly selected option is appended last. |
| ChoiceField.ClickKeepsDistinct | src/components/questionnaire/ChoiceField.tsx:44-52 | A duplicate-free selection stays duplicate-free. |
| ChoiceField.ClickTwiceRestores | src/components/questionnaire/ChoiceField.tsx:44-52 | Clicking a regular option twice restores a selection without exclusive options. |
| Navigation.ValidateStepMeetsRequirements | src/pages/Index.tsx:48-88 | A step validates iff all its required fields are truthy and, on the reason step, the reason list is not of length zero. Unlisted steps require nothing. |
| Navigation.UnlistedStepsAlwaysValid | src/pages/Index.tsx:86-87 | Steps 4, 5 and 6, and any other index outside the switch, always validate. |
| Navigation.EmptyReasonListFails | src/pages/Index.tsx:56-61 | An empty reason list blocks the reason step, although an empty array is truthy. |
| Navigation.NightGlareNotRequired | src/pages/Index.tsx:74-79 | The habits step does not read `night_glare`. |
| Navigation.HandleNext | src/pages/Index.tsx:90-106 | An invalid step stays put. A valid step advances by one unless it equals `totalSteps - 1`, where it stays and submits. An absent `totalSteps` never matches. |
| Navigation.HandleBack | src/pages/Index.tsx:108-113 | Back goes down one step above zero and never below zero. |
| Navigation.Step | src/pages/Index.tsx:90-113 | With the step count supplied, a click keeps the index within the nine steps. |
| Navigation.RunStaysOnPage | src/pages/Index.tsx:90-113 | Any sequence of clicks from a valid step stays within the nine steps. |
| Navigation.AsWiredOverrunsReview | src/pages/Index.tsx:150 | As wired, without a step count, "next" on a confirmed review step moves to index 9, past the last step. |
| Navigation.ReviewSubmitsInPlace | src/contexts/QuestionnaireContext.tsx:23-26 | With the step count supplied, "next" on a confirmed review step stays on the review step. |

## Left out

- Sorting.Sort, Recommendations.BuildAutoRecommendations, Recommendations.ResultLabelOrder: no contract states stability, that is, the order of actions that tie on severity and label. `Array.prototype.sort` keeps their input order, and the insertion body keeps it too, but nothing states it. Ties are reachable, since `a_b` and `A_b` both get the label "A B".
- Locale-aware collation (`localeCompare(…, 'es')`) is the abstract `labelLe`. The ordering lemmas assume only a total preorder.
- `toUpperCase` is a one-character function. Characters whose upper case is several characters (such as `ß`) are not modelled.
- `charAt(0)` takes one UTF-16 code unit, so a part that starts outside the Basic Multilingual Plane (such as U+10428) is left unchanged by the code. A Dafny `char` is a whole scalar value, so the model matches only when `upper` is the identity there. Every catalog key is ASCII, so no lemma depends on this.
- A rule's `evidence` list and an action's description text are left out. The engine never inspects evidence, and no table entry sets a description; the model carries description as `None`.
- Property lookups that hit JavaScript object prototype names (a key `constructor` in `ACTION_METADATA[actionKey]` or in the answer record) are not modelled. Both lookups are read as plain maps.
- Toast notifications, `console.log`, scrolling and rendering in Index.tsx and ChoiceField.tsx are left out. They do not affect the state being modelled.
- QuestionnaireContext.tsx's storage, activity timers and reset are left out. They are I/O and clocks. Only its `totalSteps` parameter matters here.
- ProgressBar and the other step components are not part of this model.
- The `__tests__` test that expects `near_work_distance_check` from the progressive-adaptation answers is not modelled. Under the catalog literal, the rule listing that action requires `progressives` to be "No". Index.validation.test.ts is not modelled either.
- The scenarios of src/lib/recommendations.test.ts:84-136 for keratoconus, glaucoma, family glaucoma, family AMD, diabetes and long-term hydroxychloroquine are not modelled. They look a rule up by a `why` and a `then` list that no rule of the catalog literal has, so they cannot pass against it.
- ChoiceField.SelectedValues: in single mode a truthy non-string value (an array) would be shown as a one-element list holding the array. It is modelled as no selection, because such a value matches no option.
- Boolean and object answers are modelled only through truthiness and strict equality. No catalog test compares against them.
- Action keys are an enumeration of the table's identifiers plus `Unlisted(name)`. The subset type `Key` keeps that representation canonical.
- The reason step's option list (src/components/questionnaire/steps/ReasonStep.tsx:38) spells the photopsia option with straight quotes, while the catalog rule matches the typographic spelling. The step components are not part of this model; in it the two spellings are simply different strings, so the straight-quoted answer does not fire the photopsia rule.

## Findings

| source | as written | input that shows it | evidently intended | confidence | as-written member | corrected member |
|---|---|---|---|---|---|---|
| src/pages/Index.tsx:150 | `QuestionnaireProvider` is mounted without `totalSteps`, so `totalSteps - 1` is `NaN` and `currentStep === totalSteps - 1` is never true | on the review step (index 8) with `final_consent` set, pressing "next" | submit on the review step and stay there (the provider declares `totalSteps: number`, QuestionnaireContext.tsx:23) | not executed | Navigation.AsWiredOverrunsReview | Navigation.RunStaysOnPage |
