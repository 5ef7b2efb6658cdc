/** `buildAutoRecommendations`: filter the rule catalog by each rule's
    condition, merge the triggered rules' actions into one bucket per action
    key (collecting each distinct rationale once), and sort the buckets by
    severity and then by label. */
module Recommendations {
  import opened Wrappers
  import opened Seqs
  import opened Answers
  import opened Conditions
  import opened Actions
  import opened Sorting

  /** A catalog entry: `if` (here `cond`), `then` (here `actionKeys`) and
      `why`. The entry's `evidence` list is never inspected and is not
      modelled. */
  datatype Rule = Rule(cond: Condition, actionKeys: seq<Key>, why: string)

  /** `AggregatedRecommendationAction`; `title` is the source's `label` and
      `kind` its `type`. */
  datatype Action = Action(
    key: Key,
    title: string,
    kind: ActionType,
    severity: Severity,
    description: Option<string>,
    reasons: seq<string>)

  /** `AutoRecommendationResult`. */
  datatype Outcome = Outcome(triggeredRules: seq<Rule>, actions: seq<Action>)

  // ---------------------------------------------------------------------------
  // Step 1: triggered rules
  // ---------------------------------------------------------------------------

  /** `AUTO_RECOMMENDATION_RULES.filter(rule => evaluateCondition(rule.if, data))`:
      exactly the catalog rules whose condition holds, each as often as in
      the catalog, in catalog order. */
  function TriggeredRules(catalog: seq<Rule>, d: Record): (rs: seq<Rule>)
    ensures forall r :: r in rs <==> r in catalog && Eval(r.cond, d)
    ensures forall r :: multiset(rs)[r] == if Eval(r.cond, d) then multiset(catalog)[r] else 0
    ensures IsSubsequence(rs, catalog)
  {
    FilterMembers(catalog, Fires(d));
    FilterIsSubsequence(catalog, Fires(d));
    FilterCounts(catalog, Fires(d));
    Filter(catalog, Fires(d))
  }

  /** `rule => evaluateCondition(rule.if, data)`. */
  function Fires(d: Record): Rule -> bool
  {
    (r: Rule) => Eval(r.cond, d)
  }

  // ---------------------------------------------------------------------------
  // Step 2: merging actions into buckets
  // ---------------------------------------------------------------------------

  /** One visit of the inner `forEach`: action key `key` named by a triggered
      rule whose rationale is `why`. */
  datatype Hit = Hit(key: Key, why: string)

  /** The visits one rule contributes, in its `then` order. */
  function RuleHits(r: Rule): seq<Hit>
  {
    seq(|r.actionKeys|, i requires 0 <= i < |r.actionKeys| => Hit(r.actionKeys[i], r.why))
  }

  /** All visits of the nested `forEach` loops, in visiting order. */
  function Hits(rules: seq<Rule>): seq<Hit>
    decreases |rules|
  {
    if rules == [] then [] else Hits(rules[..|rules| - 1]) + RuleHits(rules[|rules| - 1])
  }

  /** The bucket created on the first visit of a key (`metadata || fallback`,
      severity defaulting to info). */
  function NewBucket(h: Hit, resolve: Key -> Meta): Action
  {
    var m := resolve(h.key);
    Action(h.key, m.title, m.kind, m.severity.GetOr(Info), m.description, [h.why])
  }

  /** A later visit appends the rationale unless it is already present verbatim. */
  function AddReason(a: Action, why: string): Action
  {
    if Includes(a.reasons, why) then a else a.(reasons := a.reasons + [why])
  }

  /** `actionsMap.get` / `actionsMap.set` on an insertion-ordered map whose
      entries are the buckets. */
  function Upsert(buckets: seq<Action>, h: Hit, resolve: Key -> Meta): seq<Action>
  {
    if buckets == [] then [NewBucket(h, resolve)]
    else if buckets[0].key == h.key then [AddReason(buckets[0], h.why)] + buckets[1..]
    else [buckets[0]] + Upsert(buckets[1..], h, resolve)
  }

  /** The buckets after the visits `hits`, in insertion order
      (`Array.from(actionsMap.values())`). */
  function Collect(hits: seq<Hit>, resolve: Key -> Meta): seq<Action>
    decreases |hits|
  {
    if hits == [] then [] else Upsert(Collect(hits[..|hits| - 1], resolve), hits[|hits| - 1], resolve)
  }

  // ---------------------------------------------------------------------------
  // Reference definition of the buckets
  // ---------------------------------------------------------------------------

  /** The action keys visited, in visiting order. */
  function KeysOf(hits: seq<Hit>): (ks: seq<Key>)
    ensures |ks| == |hits|
    ensures forall i :: 0 <= i < |hits| ==> ks[i] == hits[i].key
  {
    seq(|hits|, i requires 0 <= i < |hits| => hits[i].key)
  }

  /** The rationales of the visits of key `k`, in visiting order. */
  function WhysFor(hits: seq<Hit>, k: Key): seq<string>
    decreases |hits|
  {
    if hits == [] then []
    else WhysFor(hits[..|hits| - 1], k) + (if hits[|hits| - 1].key == k then [hits[|hits| - 1].why] else [])
  }

  /** The bucket of key `k` with rationale list `reasons`. */
  function MakeAction(k: Key, reasons: seq<string>, resolve: Key -> Meta): Action
  {
    var m := resolve(k);
    Action(k, m.title, m.kind, m.severity.GetOr(Info), m.description, reasons)
  }

  function BucketsFor(ks: seq<Key>, hits: seq<Hit>, resolve: Key -> Meta): (r: seq<Action>)
    ensures |r| == |ks|
  {
    if ks == [] then []
    else [MakeAction(ks[0], Dedup(WhysFor(hits, ks[0])), resolve)] + BucketsFor(ks[1..], hits, resolve)
  }

  /** What the buckets should be: one per distinct key in order of first
      visit, holding the distinct rationales of that key in order of first
      visit. */
  function Expected(hits: seq<Hit>, resolve: Key -> Meta): seq<Action>
  {
    BucketsFor(Dedup(KeysOf(hits)), hits, resolve)
  }

  lemma WhysForEmptyUnlessVisited(hits: seq<Hit>, k: Key)
    ensures k !in KeysOf(hits) ==> WhysFor(hits, k) == []
    ensures forall w :: w in WhysFor(hits, k) <==> Hit(k, w) in hits
    decreases |hits|
  {
    if hits != [] {
      var init := hits[..|hits| - 1];
      WhysForEmptyUnlessVisited(init, k);
      assert hits == init + [hits[|hits| - 1]];
      assert KeysOf(hits) == KeysOf(init) + [hits[|hits| - 1].key];
    }
  }

  /** Visiting a key leaves every other key's bucket as it was. */
  lemma BucketsForOtherKeys(ks: seq<Key>, hits: seq<Hit>, h: Hit, resolve: Key -> Meta)
    requires h.key !in ks
    ensures BucketsFor(ks, hits + [h], resolve) == BucketsFor(ks, hits, resolve)
  {
    if ks != [] {
      WhysForSnoc(hits, h, ks[0]);
      assert WhysFor(hits + [h], ks[0]) == WhysFor(hits, ks[0]);
      BucketsForOtherKeys(ks[1..], hits, h, resolve);
      assert BucketsFor(ks, hits + [h], resolve)
          == [MakeAction(ks[0], Dedup(WhysFor(hits + [h], ks[0])), resolve)] + BucketsFor(ks[1..], hits + [h], resolve);
    }
  }

  lemma WhysForSnoc(hits: seq<Hit>, h: Hit, k: Key)
    ensures WhysFor(hits + [h], k) == WhysFor(hits, k) + (if h.key == k then [h.why] else [])
  {
    assert (hits + [h])[..|hits|] == hits;
  }

  /** The first visit of a key creates its bucket. */
  lemma UpsertFirstVisit(hits: seq<Hit>, h: Hit, resolve: Key -> Meta)
    requires WhysFor(hits, h.key) == []
    ensures [NewBucket(h, resolve)] == BucketsFor([h.key], hits + [h], resolve)
  {
    WhysForSnoc(hits, h, h.key);
    DedupSnoc([], h.why);
  }

  /** A later visit of a key merges the rationale into its bucket. */
  lemma UpsertLaterVisit(hits: seq<Hit>, h: Hit, resolve: Key -> Meta)
    ensures AddReason(MakeAction(h.key, Dedup(WhysFor(hits, h.key)), resolve), h.why)
         == MakeAction(h.key, Dedup(WhysFor(hits + [h], h.key)), resolve)
  {
    WhysForSnoc(hits, h, h.key);
    DedupSnoc(WhysFor(hits, h.key), h.why);
  }

  /** One `get`/`set` step turns the reference buckets of `hits` into those of
      `hits + [h]`. */
  lemma {:induction false} UpsertStep(ks: seq<Key>, hits: seq<Hit>, h: Hit, resolve: Key -> Meta)
    requires Distinct(ks)
    requires h.key !in ks ==> WhysFor(hits, h.key) == []
    ensures Upsert(BucketsFor(ks, hits, resolve), h, resolve)
         == BucketsFor(if h.key in ks then ks else ks + [h.key], hits + [h], resolve)
    decreases |ks|
  {
    var B := BucketsFor(ks, hits, resolve);
    if ks == [] {
      UpsertFirstVisit(hits, h, resolve);
    } else if ks[0] == h.key {
      assert h.key !in ks[1..];
      BucketsForOtherKeys(ks[1..], hits, h, resolve);
      UpsertLaterVisit(hits, h, resolve);
      assert B == [B[0]] + BucketsFor(ks[1..], hits, resolve);
    } else {
      UpsertStep(ks[1..], hits, h, resolve);
      WhysForSnoc(hits, h, ks[0]);
      assert B == [B[0]] + BucketsFor(ks[1..], hits, resolve);
      var ks' := if h.key in ks then ks else ks + [h.key];
      assert ks'[0] == ks[0];
      assert ks'[1..] == if h.key in ks[1..] then ks[1..] else ks[1..] + [h.key];
      assert WhysFor(hits + [h], ks[0]) == WhysFor(hits, ks[0]);
      assert BucketsFor(ks', hits + [h], resolve)
          == [MakeAction(ks[0], Dedup(WhysFor(hits + [h], ks[0])), resolve)] + BucketsFor(ks'[1..], hits + [h], resolve);
      assert Upsert(B, h, resolve) == [B[0]] + Upsert(B[1..], h, resolve);
    }
  }

  /** The reference buckets after one more visit, in terms of those before. */
  lemma ExpectedSnoc(init: seq<Hit>, h: Hit, resolve: Key -> Meta)
    ensures var ks := Dedup(KeysOf(init));
      Expected(init + [h], resolve) == BucketsFor(if h.key in ks then ks else ks + [h.key], init + [h], resolve)
  {
    assert KeysOf(init + [h]) == KeysOf(init) + [h.key];
    DedupSnoc(KeysOf(init), h.key);
  }

  /** The fold over the visits builds exactly the reference buckets. */
  lemma {:induction false} CollectIsExpected(hits: seq<Hit>, resolve: Key -> Meta)
    ensures Collect(hits, resolve) == Expected(hits, resolve)
    decreases |hits|
  {
    if hits != [] {
      var init, h := hits[..|hits| - 1], hits[|hits| - 1];
      assert hits == init + [h];
      CollectIsExpected(init, resolve);
      var ks := Dedup(KeysOf(init));
      WhysForEmptyUnlessVisited(init, h.key);
      UpsertStep(ks, init, h, resolve);
      ExpectedSnoc(init, h, resolve);
    }
  }

  // ---------------------------------------------------------------------------
  // Properties of the buckets, in terms of the triggered rules
  // ---------------------------------------------------------------------------

  /** `result.actions.map(action => action.key)`. It mirrors `KeysOf`, which
      reads the keys of the hits, but takes the aggregated actions that the
      result's contracts speak about. */
  function ActionKeys(actions: seq<Action>): (ks: seq<Key>)
    ensures |ks| == |actions|
    ensures forall i :: 0 <= i < |actions| ==> ks[i] == actions[i].key
  {
    seq(|actions|, i requires 0 <= i < |actions| => actions[i].key)
  }

  /** Which visits the nested loops make: one per (rule, listed key). */
  lemma {:induction false} HitsOfRules(rules: seq<Rule>)
    ensures forall h :: h in Hits(rules) <==>
              exists r :: r in rules && h.key in r.actionKeys && h.why == r.why
    decreases |rules|
  {
    if rules != [] {
      var init, last := rules[..|rules| - 1], rules[|rules| - 1];
      HitsOfRules(init);
      assert rules == init + [last];
      forall h | h in RuleHits(last)
        ensures h.key in last.actionKeys && h.why == last.why
      {
        var i :| 0 <= i < |RuleHits(last)| && RuleHits(last)[i] == h;
      }
      forall k | k in last.actionKeys
        ensures Hit(k, last.why) in RuleHits(last)
      {
        var i :| 0 <= i < |last.actionKeys| && last.actionKeys[i] == k;
        assert RuleHits(last)[i] == Hit(k, last.why);
      }
    }
  }

  /** The `i`-th reference bucket is the bucket of the `i`-th key. */
  lemma {:induction false} BucketsForAt(ks: seq<Key>, hits: seq<Hit>, resolve: Key -> Meta, i: nat)
    requires i < |ks|
    ensures BucketsFor(ks, hits, resolve)[i] == MakeAction(ks[i], Dedup(WhysFor(hits, ks[i])), resolve)
    decreases i
  {
    if i > 0 {
      BucketsForAt(ks[1..], hits, resolve, i - 1);
    }
  }

  /** The keys of the buckets built from `rules` are pairwise distinct and
      are exactly the keys listed by some rule, in order of first listing. */
  lemma BucketKeys(rules: seq<Rule>, resolve: Key -> Meta)
    ensures ActionKeys(Collect(Hits(rules), resolve)) == Dedup(KeysOf(Hits(rules)))
    ensures Distinct(ActionKeys(Collect(Hits(rules), resolve)))
    ensures forall k :: k in ActionKeys(Collect(Hits(rules), resolve)) <==>
              exists r :: r in rules && k in r.actionKeys
  {
    var hits := Hits(rules);
    var ks := Dedup(KeysOf(hits));
    CollectIsExpected(hits, resolve);
    forall i | 0 <= i < |ks|
      ensures ActionKeys(Collect(hits, resolve))[i] == ks[i]
    {
      BucketsForAt(ks, hits, resolve, i);
    }
    HitsOfRules(rules);
    forall k | k in KeysOf(hits)
      ensures exists r :: r in rules && k in r.actionKeys
    {
      var i :| 0 <= i < |hits| && KeysOf(hits)[i] == k;
      assert hits[i] in hits;
    }
    forall k | exists r :: r in rules && k in r.actionKeys
      ensures k in KeysOf(hits)
    {
      var r :| r in rules && k in r.actionKeys;
      assert Hit(k, r.why) in hits;
      var i :| 0 <= i < |hits| && hits[i] == Hit(k, r.why);
      assert KeysOf(hits)[i] == k;
    }
  }

  /** The `i`-th bucket built from `rules` is the reference bucket of a key
      some rule lists. */
  lemma BucketIsMade(rules: seq<Rule>, resolve: Key -> Meta, i: nat)
    requires i < |Collect(Hits(rules), resolve)|
    ensures var hits := Hits(rules);
      var a := Collect(hits, resolve)[i];
      && a == MakeAction(a.key, Dedup(WhysFor(hits, a.key)), resolve)
      && exists r :: r in rules && a.key in r.actionKeys
  {
    var hits := Hits(rules);
    var buckets := Collect(hits, resolve);
    var ks := Dedup(KeysOf(hits));
    CollectIsExpected(hits, resolve);
    BucketKeys(rules, resolve);
    BucketsForAt(ks, hits, resolve, i);
    assert buckets[i].key in ActionKeys(buckets);
  }

  /** The rationales gathered for `k` are exactly those of the rules that
      list `k`. */
  lemma WhysOfRules(rules: seq<Rule>, k: Key)
    ensures forall w :: w in WhysFor(Hits(rules), k) <==>
              exists r :: r in rules && k in r.actionKeys && r.why == w
  {
    HitsOfRules(rules);
    WhysForEmptyUnlessVisited(Hits(rules), k);
  }

  /** The reference bucket of a key some rule lists satisfies `BucketFacts`. */
  lemma MadeBucketFacts(rules: seq<Rule>, resolve: Key -> Meta, k: Key)
    requires exists r :: r in rules && k in r.actionKeys
    ensures BucketFacts(MakeAction(k, Dedup(WhysFor(Hits(rules), k)), resolve), rules, resolve)
  {
    var whys := WhysFor(Hits(rules), k);
    WhysOfRules(rules, k);
    var r :| r in rules && k in r.actionKeys;
    assert r.why in whys;
    assert r.why in Dedup(whys);
  }

  /** The `i`-th bucket built from `rules` satisfies `BucketFacts`. */
  lemma BucketAt(rules: seq<Rule>, resolve: Key -> Meta, i: nat)
    requires i < |Collect(Hits(rules), resolve)|
    ensures BucketFacts(Collect(Hits(rules), resolve)[i], rules, resolve)
  {
    BucketIsMade(rules, resolve, i);
    MadeBucketFacts(rules, resolve, Collect(Hits(rules), resolve)[i].key);
  }

  /** Every bucket built from `rules` satisfies `BucketFacts`. */
  lemma BucketContents(rules: seq<Rule>, resolve: Key -> Meta)
    ensures forall a :: a in Collect(Hits(rules), resolve) ==> BucketFacts(a, rules, resolve)
  {
    var buckets := Collect(Hits(rules), resolve);
    forall a | a in buckets
      ensures BucketFacts(a, rules, resolve)
    {
      var i :| 0 <= i < |buckets| && buckets[i] == a;
      BucketAt(rules, resolve, i);
    }
  }

  /** What one bucket holds: the key's metadata (severity defaulting to info),
      and a non-empty, duplicate-free list of exactly the rationales of the
      rules that list the key. */
  ghost predicate BucketFacts(a: Action, rules: seq<Rule>, resolve: Key -> Meta) {
    && a.title == resolve(a.key).title
    && a.kind == resolve(a.key).kind
    && a.severity == resolve(a.key).severity.GetOr(Info)
    && a.description == resolve(a.key).description
    && a.reasons != []
    && Distinct(a.reasons)
    && (forall w :: w in a.reasons <==> exists r :: r in rules && a.key in r.actionKeys && r.why == w)
    && a.reasons == Dedup(WhysFor(Hits(rules), a.key))
  }

  // ---------------------------------------------------------------------------
  // Step 3: sorting and the entry point
  // ---------------------------------------------------------------------------

  /** The comparator `severityDiff`, then `localeCompare(…, 'es')`, read as
      "sorts no later than"; `labelLe` stands for the Spanish collation. */
  function ActionOrder(labelLe: (string, string) -> bool): (Action, Action) -> bool
  {
    (a: Action, b: Action) =>
      SeverityWeight(a.severity) < SeverityWeight(b.severity) ||
      (SeverityWeight(a.severity) == SeverityWeight(b.severity) && labelLe(a.title, b.title))
  }

  /** A collation that is a total preorder yields a total preorder on actions. */
  lemma ActionOrderIsTotalPreorder(labelLe: (string, string) -> bool)
    requires TotalPreorder(labelLe)
    ensures TotalPreorder(ActionOrder(labelLe))
  {
    var le := ActionOrder(labelLe);
    forall x: Action, y: Action, z: Action | le(x, y) && le(y, z)
      ensures le(x, z)
    {
      if SeverityWeight(x.severity) == SeverityWeight(y.severity) == SeverityWeight(z.severity) {
        assert labelLe(x.title, y.title) && labelLe(y.title, z.title);
      }
    }
    forall x: Action, y: Action
      ensures le(x, y) || le(y, x)
    {
      assert labelLe(x.title, y.title) || labelLe(y.title, x.title);
    }
  }

  /** `buildAutoRecommendations`. `resolve` gives the metadata of an action
      key; the application's is `MetadataOf(upper)`, the table with the
      synthesised fallback. `labelLe` is the label collation. */
  function BuildAutoRecommendations(
    catalog: seq<Rule>, d: Record, resolve: Key -> Meta, labelLe: (string, string) -> bool): (out: Outcome)
    ensures forall r :: r in out.triggeredRules <==> r in catalog && Eval(r.cond, d)
    ensures IsSubsequence(out.triggeredRules, catalog)
    ensures multiset(out.actions) == multiset(Collect(Hits(out.triggeredRules), resolve))
    ensures TotalPreorder(labelLe) ==> SortedBy(ActionOrder(labelLe), out.actions)
  {
    var triggered := TriggeredRules(catalog, d);
    var actions := Sort(Collect(Hits(triggered), resolve), ActionOrder(labelLe));
    assert TotalPreorder(labelLe) ==> SortedBy(ActionOrder(labelLe), actions) by {
      if TotalPreorder(labelLe) {
        ActionOrderIsTotalPreorder(labelLe);
      }
    }
    Outcome(triggered, actions)
  }


  // ---------------------------------------------------------------------------
  // Properties of the result
  // ---------------------------------------------------------------------------

  /** An element occurring twice in a sequence occurs at two positions. */
  lemma TwiceAtTwoPositions(xs: seq<Action>, v: Action)
    requires multiset(xs)[v] >= 2
    ensures exists p, q :: 0 <= p < q < |xs| && xs[p] == v && xs[q] == v
  {
    assert v in xs;
    var p :| 0 <= p < |xs| && xs[p] == v;
    assert xs == xs[..p] + [v] + xs[p + 1..];
    if v in xs[..p] {
      var q :| 0 <= q < p && xs[..p][q] == v;
      assert xs[q] == v;
    } else {
      assert multiset(xs[p + 1..])[v] >= 1;
      var q :| 0 <= q < |xs[p + 1..]| && xs[p + 1..][q] == v;
      assert xs[p + 1 + q] == v;
    }
  }

  /** Two positions of a permutation come from two positions of the original. */
  lemma PositionsInPermutation(xs: seq<Action>, ys: seq<Action>, i: nat, j: nat) returns (p: nat, q: nat)
    requires multiset(xs) == multiset(ys)
    requires i < j < |ys|
    ensures p < |xs| && q < |xs| && p != q && xs[p] == ys[i] && xs[q] == ys[j]
  {
    if ys[i] == ys[j] {
      assert ys == ys[..j] + ys[j..];
      assert ys[i] in ys[..j] && ys[j] in ys[j..];
      assert multiset(ys)[ys[i]] >= 2;
      TwiceAtTwoPositions(xs, ys[i]);
      p, q :| 0 <= p < q < |xs| && xs[p] == ys[i] && xs[q] == ys[i];
    } else {
      assert ys[i] in multiset(xs) && ys[j] in multiset(xs);
      p :| 0 <= p < |xs| && xs[p] == ys[i];
      q :| 0 <= q < |xs| && xs[q] == ys[j];
    }
  }

  /** Reordering buckets keeps their keys pairwise distinct. */
  lemma PermutationKeepsDistinctKeys(xs: seq<Action>, ys: seq<Action>)
    requires multiset(xs) == multiset(ys)
    requires Distinct(ActionKeys(xs))
    ensures Distinct(ActionKeys(ys))
  {
    forall i, j | 0 <= i < j < |ys|
      ensures ys[i].key != ys[j].key
    {
      var p, q := PositionsInPermutation(xs, ys, i, j);
      assert ActionKeys(xs)[p] != ActionKeys(xs)[q];
    }
  }

  /** Reordering buckets keeps the set of their keys. */
  lemma PermutationKeepsKeys(xs: seq<Action>, ys: seq<Action>)
    requires multiset(xs) == multiset(ys)
    ensures forall k :: k in ActionKeys(ys) ==> k in ActionKeys(xs)
  {
    forall k | k in ActionKeys(ys)
      ensures k in ActionKeys(xs)
    {
      var i :| 0 <= i < |ys| && ActionKeys(ys)[i] == k;
      assert ys[i] in multiset(xs);
      var j :| 0 <= j < |xs| && xs[j] == ys[i];
      assert ActionKeys(xs)[j] == k;
    }
  }

  /** The action keys returned: pairwise distinct, and exactly the keys that
      the triggered rules list. */
  lemma ResultKeys(catalog: seq<Rule>, d: Record, resolve: Key -> Meta, labelLe: (string, string) -> bool)
    ensures var out := BuildAutoRecommendations(catalog, d, resolve, labelLe);
      && Distinct(ActionKeys(out.actions))
      && (forall k :: k in ActionKeys(out.actions) <==>
            exists r :: r in out.triggeredRules && k in r.actionKeys)
  {
    var out := BuildAutoRecommendations(catalog, d, resolve, labelLe);
    var buckets := Collect(Hits(out.triggeredRules), resolve);
    BucketKeys(out.triggeredRules, resolve);
    PermutationKeepsDistinctKeys(buckets, out.actions);
    PermutationKeepsKeys(buckets, out.actions);
    PermutationKeepsKeys(out.actions, buckets);
  }

  /** Every action returned carries its key's metadata and exactly the
      distinct rationales of the triggered rules that list its key, in order
      of first encounter. */
  lemma ResultBuckets(catalog: seq<Rule>, d: Record, resolve: Key -> Meta, labelLe: (string, string) -> bool)
    ensures var out := BuildAutoRecommendations(catalog, d, resolve, labelLe);
      forall a :: a in out.actions ==> BucketFacts(a, out.triggeredRules, resolve)
  {
    var out := BuildAutoRecommendations(catalog, d, resolve, labelLe);
    var buckets := Collect(Hits(out.triggeredRules), resolve);
    BucketContents(out.triggeredRules, resolve);
    forall a | a in out.actions
      ensures BucketFacts(a, out.triggeredRules, resolve)
    {
      assert a in multiset(buckets);
    }
  }

  /** Severity order: with a consistent collation, every action is at least as
      urgent as every action after it, so critical precedes warning precedes
      info. */
  lemma ResultSeverityOrder(catalog: seq<Rule>, d: Record, resolve: Key -> Meta, labelLe: (string, string) -> bool)
    requires TotalPreorder(labelLe)
    ensures var out := BuildAutoRecommendations(catalog, d, resolve, labelLe);
      forall i, j :: 0 <= i < j < |out.actions| ==>
        SeverityWeight(out.actions[i].severity) <= SeverityWeight(out.actions[j].severity)
  {
    var out := BuildAutoRecommendations(catalog, d, resolve, labelLe);
    forall i, j | 0 <= i < j < |out.actions|
      ensures SeverityWeight(out.actions[i].severity) <= SeverityWeight(out.actions[j].severity)
    {
      assert ActionOrder(labelLe)(out.actions[i], out.actions[j]);
    }
  }

  /** Ties in severity are ordered by the collation. */
  lemma ResultLabelOrder(catalog: seq<Rule>, d: Record, resolve: Key -> Meta, labelLe: (string, string) -> bool)
    requires TotalPreorder(labelLe)
    ensures var out := BuildAutoRecommendations(catalog, d, resolve, labelLe);
      forall i, j :: 0 <= i < j < |out.actions| && out.actions[i].severity == out.actions[j].severity ==>
        labelLe(out.actions[i].title, out.actions[j].title)
  {
    var out := BuildAutoRecommendations(catalog, d, resolve, labelLe);
    forall i, j | 0 <= i < j < |out.actions| && out.actions[i].severity == out.actions[j].severity
      ensures labelLe(out.actions[i].title, out.actions[j].title)
    {
      assert ActionOrder(labelLe)(out.actions[i], out.actions[j]);
    }
  }

  /** Every returned action's severity is its key's resolved severity,
      defaulting to info. */
  lemma ResultSeverities(catalog: seq<Rule>, d: Record, resolve: Key -> Meta, labelLe: (string, string) -> bool)
    ensures var out := BuildAutoRecommendations(catalog, d, resolve, labelLe);
      forall i :: 0 <= i < |out.actions| ==>
        out.actions[i].severity == resolve(out.actions[i].key).severity.GetOr(Info)
  {
    var out := BuildAutoRecommendations(catalog, d, resolve, labelLe);
    ResultBuckets(catalog, d, resolve, labelLe);
    forall i | 0 <= i < |out.actions|
      ensures out.actions[i].severity == resolve(out.actions[i].key).severity.GetOr(Info)
    {
      assert BucketFacts(out.actions[i], out.triggeredRules, resolve);
    }
  }

  /** With a consistent collation, when `k` is the only key that resolves to
      critical, a returned action for `k` comes first. */
  lemma CriticalFirst(
    catalog: seq<Rule>, d: Record, resolve: Key -> Meta, labelLe: (string, string) -> bool, k: Key)
    requires TotalPreorder(labelLe)
    requires forall k' :: resolve(k').severity.GetOr(Info) == Critical <==> k' == k
    ensures var out := BuildAutoRecommendations(catalog, d, resolve, labelLe);
      k in ActionKeys(out.actions) ==> out.actions[0].key == k
  {
    var out := BuildAutoRecommendations(catalog, d, resolve, labelLe);
    ResultSeverities(catalog, d, resolve, labelLe);
    ResultSeverityOrder(catalog, d, resolve, labelLe);
    CriticalComesFirst(out.actions, resolve, k);
  }

  /** In a sequence ordered by severity, the only key that resolves to
      critical comes first when present. */
  lemma CriticalComesFirst(actions: seq<Action>, resolve: Key -> Meta, k: Key)
    requires forall i, j :: 0 <= i < j < |actions| ==>
               SeverityWeight(actions[i].severity) <= SeverityWeight(actions[j].severity)
    requires forall i :: 0 <= i < |actions| ==> actions[i].severity == resolve(actions[i].key).severity.GetOr(Info)
    requires forall k' :: resolve(k').severity.GetOr(Info) == Critical <==> k' == k
    ensures k in ActionKeys(actions) ==> actions[0].key == k
  {
    if k in ActionKeys(actions) {
      var j :| 0 <= j < |actions| && ActionKeys(actions)[j] == k;
      if j > 0 {
        assert SeverityWeight(actions[0].severity) <= SeverityWeight(actions[j].severity);
        assert resolve(actions[0].key).severity.GetOr(Info) == Critical;
      }
    }
  }

  /** With the application's metadata and a consistent collation, a returned
      `urgent_referral` comes first: it is the only critical action. */
  lemma UrgentReferralFirst(catalog: seq<Rule>, d: Record, upper: char -> char, labelLe: (string, string) -> bool)
    requires TotalPreorder(labelLe)
    ensures var out := BuildAutoRecommendations(catalog, d, MetadataOf(upper), labelLe);
      UrgentReferral in ActionKeys(out.actions) ==> out.actions[0].key == UrgentReferral
  {
    OnlyUrgentReferralIsCritical(upper);
    CriticalFirst(catalog, d, MetadataOf(upper), labelLe, UrgentReferral);
  }

  /** When every catalog rule listing `k` is the rule at `p`, an action for
      `k` is returned exactly when that rule's condition holds. */
  lemma SoleListerDecides(
    catalog: seq<Rule>, d: Record, resolve: Key -> Meta, labelLe: (string, string) -> bool, k: Key, p: nat)
    requires p < |catalog| && k in catalog[p].actionKeys
    requires forall i :: 0 <= i < |catalog| && k in catalog[i].actionKeys ==> catalog[i] == catalog[p]
    ensures k in ActionKeys(BuildAutoRecommendations(catalog, d, resolve, labelLe).actions) <==>
              Eval(catalog[p].cond, d)
  {
    var out := BuildAutoRecommendations(catalog, d, resolve, labelLe);
    ResultKeys(catalog, d, resolve, labelLe);
    if k in ActionKeys(out.actions) {
      var r :| r in out.triggeredRules && k in r.actionKeys;
      var i :| 0 <= i < |catalog| && catalog[i] == r;
    }
  }

  /** The rationales of `k` over two visit sequences are those over each. */
  lemma {:induction false} WhysForAppend(a: seq<Hit>, b: seq<Hit>, k: Key)
    ensures WhysFor(a + b, k) == WhysFor(a, k) + WhysFor(b, k)
    decreases |b|
  {
    if b == [] {
      assert a + b == a;
    } else {
      var init, last := b[..|b| - 1], b[|b| - 1];
      WhysForAppend(a, init, k);
      assert a + b == (a + init) + [last];
      WhysForSnoc(a + init, last, k);
      assert b == init + [last];
      WhysForSnoc(init, last, k);
    }
  }

  /** Visits that all carry rationale `w` and name pairwise distinct keys give
      `k` the rationale `w` once if `k` is among them, and none otherwise. */
  lemma {:induction false} WhysForOneRationale(hits: seq<Hit>, k: Key, w: string)
    requires forall i :: 0 <= i < |hits| ==> hits[i].why == w
    requires Distinct(KeysOf(hits))
    ensures WhysFor(hits, k) == if k in KeysOf(hits) then [w] else []
    decreases |hits|
  {
    if hits != [] {
      var init, last := hits[..|hits| - 1], hits[|hits| - 1];
      assert KeysOf(hits) == KeysOf(init) + [last.key];
      assert Distinct(KeysOf(init)) by {
        forall i, j | 0 <= i < j < |KeysOf(init)|
          ensures KeysOf(init)[i] != KeysOf(init)[j]
        {
          assert KeysOf(init)[i] == KeysOf(hits)[i] && KeysOf(init)[j] == KeysOf(hits)[j];
        }
      }
      WhysForOneRationale(init, k, w);
      forall i | 0 <= i < |KeysOf(init)|
        ensures KeysOf(init)[i] != last.key
      {
        assert KeysOf(hits)[i] == KeysOf(init)[i];
      }
    }
  }

  /** One rule with a duplicate-free action list contributes its rationale to
      each key it lists, once. */
  lemma RuleWhys(r: Rule, k: Key)
    requires Distinct(r.actionKeys)
    ensures WhysFor(RuleHits(r), k) == if k in r.actionKeys then [r.why] else []
  {
    assert KeysOf(RuleHits(r)) == r.actionKeys;
    WhysForOneRationale(RuleHits(r), k, r.why);
  }

  /** The visits of two rules: the first rule's, then the second's. */
  lemma HitsOfPair(r1: Rule, r2: Rule)
    ensures Hits([r1, r2]) == RuleHits(r1) + RuleHits(r2)
  {
    assert [r1, r2][..1] == [r1];
    assert [r1][..0] == [];
    assert Hits([r1]) == Hits([]) + RuleHits(r1);
  }

  /** Two rules with duplicate-free action lists that both list `k` visit it
      once each, first rule first. */
  lemma PairWhys(r1: Rule, r2: Rule, k: Key)
    requires Distinct(r1.actionKeys) && Distinct(r2.actionKeys)
    requires k in r1.actionKeys && k in r2.actionKeys
    ensures WhysFor(Hits([r1, r2]), k) == [r1.why, r2.why]
  {
    HitsOfPair(r1, r2);
    WhysForAppend(RuleHits(r1), RuleHits(r2), k);
    RuleWhys(r1, k);
    RuleWhys(r2, k);
  }

  /** Two rules with duplicate-free action lists and different rationales that
      both list `k` give its bucket both rationales, first rule first. */
  lemma TwoRulesTwoReasons(r1: Rule, r2: Rule, k: Key)
    requires Distinct(r1.actionKeys) && Distinct(r2.actionKeys)
    requires k in r1.actionKeys && k in r2.actionKeys && r1.why != r2.why
    ensures Dedup(WhysFor(Hits([r1, r2]), k)) == [r1.why, r2.why]
  {
    PairWhys(r1, r2, k);
    DedupPair(r1.why, r2.why);
  }

  /** When exactly two rules fire and both list `k`, the result has one
      action for `k`, carrying both rationales, first rule first. */
  lemma SharedKeyReasons(
    catalog: seq<Rule>, d: Record, resolve: Key -> Meta, labelLe: (string, string) -> bool,
    r1: Rule, r2: Rule, k: Key)
    requires TriggeredRules(catalog, d) == [r1, r2]
    requires Distinct(r1.actionKeys) && Distinct(r2.actionKeys)
    requires k in r1.actionKeys && k in r2.actionKeys && r1.why != r2.why
    ensures var out := BuildAutoRecommendations(catalog, d, resolve, labelLe);
      && k in ActionKeys(out.actions)
      && forall a :: a in out.actions && a.key == k ==> a.reasons == [r1.why, r2.why]
  {
    var out := BuildAutoRecommendations(catalog, d, resolve, labelLe);
    ResultKeys(catalog, d, resolve, labelLe);
    assert r1 in out.triggeredRules;
    ResultBuckets(catalog, d, resolve, labelLe);
    TwoRulesTwoReasons(r1, r2, k);
  }

  /** No rule of `rules` fires on `d`. */
  predicate Quiet(rules: seq<Rule>, d: Record) {
    forall i :: 0 <= i < |rules| ==> !Fires(d)(rules[i])
  }

  /** When every rule of `first` fires and no rule of `rest` does, exactly
      `first` is triggered. */
  lemma TriggeredPrefix(catalog: seq<Rule>, d: Record, first: seq<Rule>, rest: seq<Rule>)
    requires catalog == first + rest
    requires forall i :: 0 <= i < |first| ==> Fires(d)(first[i])
    requires Quiet(rest, d)
    ensures TriggeredRules(catalog, d) == first
  {
    FilterKeepsPrefix(first, rest, Fires(d));
  }
}
