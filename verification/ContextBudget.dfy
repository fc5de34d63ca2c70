/** The sections of a context injection: which observations go where, how many tokens they are
    reckoned to cost, and how a token budget trims them. */
module ContextBudget {
  import opened Sequences

  /** Memories and behavioural rules come from two tables and keep their own row ids, so an id does not
      identify an observation. A char of the text stands for a byte. */
  datatype Observation = Observation(id: int, title: string, subtitle: string, narrative: string, facts: seq<string>)

  // ----- estimates -----

  function Lengths(facts: seq<string>): nat {
    if facts == [] then 0 else Lengths(facts[..|facts| - 1]) + |facts[|facts| - 1]|
  }

  /** Every fact counts, once. */
  lemma {:induction false} LengthsAdd(a: seq<string>, b: seq<string>, fact: string)
    ensures Lengths(a + b) == Lengths(a) + Lengths(b) && Lengths([fact]) == |fact| && Lengths([]) == 0
  {
    assert Lengths([fact]) == Lengths([]) + |fact|;
    if b == [] {
      assert a + b == a;
    } else {
      assert (a + b)[..|a + b| - 1] == a + b[..|b| - 1];
      LengthsAdd(a, b[..|b| - 1], fact);
    }
  }

  /** Characters over four, rounded up. */
  function Cost(o: Observation): (tokens: nat)
    ensures var chars := |o.title| + |o.subtitle| + |o.narrative| + Lengths(o.facts) + 50;
            4 * (tokens - 1) < chars <= 4 * tokens
  {
    (|o.title| + |o.subtitle| + |o.narrative| + Lengths(o.facts) + 50 + 3) / 4
  }

  function CondensedCost(o: Observation): (tokens: nat)
    ensures var chars := |o.title| + |o.subtitle| + 30;
            4 * (tokens - 1) < chars <= 4 * tokens
  {
    (|o.title| + |o.subtitle| + 30 + 3) / 4
  }

  function CostOf(os: seq<Observation>): nat {
    if os == [] then 0 else CostOf(os[..|os| - 1]) + Cost(os[|os| - 1])
  }

  /** Full detail for the first `fullCount` (for all of them if it is negative), condensed for the rest. */
  function CostWithLimit(os: seq<Observation>, fullCount: int): nat {
    if os == [] then 0 else
      CostWithLimit(os[..|os| - 1], fullCount) +
      if fullCount >= 0 && |os| - 1 >= fullCount then CondensedCost(os[|os| - 1]) else Cost(os[|os| - 1])
  }

  method EstimateObsTokens(o: Observation) returns (tokens: nat)
    ensures tokens == Cost(o)
  {
    var chars := |o.title| + |o.subtitle| + |o.narrative|;
    for i := 0 to |o.facts|
      invariant chars == |o.title| + |o.subtitle| + |o.narrative| + Lengths(o.facts[..i])
    {
      assert o.facts[..i + 1][..i] == o.facts[..i];
      chars := chars + |o.facts[i]|;
    }
    assert o.facts[..|o.facts|] == o.facts;
    chars := chars + 50;
    tokens := (chars + 3) / 4;
  }

  method EstimateTokensWithLimit(os: seq<Observation>, fullCount: int) returns (total: nat)
    ensures total == CostWithLimit(os, fullCount)
  {
    total := 0;
    for i := 0 to |os|
      invariant total == CostWithLimit(os[..i], fullCount)
    {
      assert os[..i + 1][..i] == os[..i];
      if fullCount >= 0 && i >= fullCount {
        total := total + CondensedCost(os[i]);
      } else {
        var tokens := EstimateObsTokens(os[i]);
        total := total + tokens;
      }
    }
    assert os[..|os|] == os;
  }

  /** Condensing more of the list never costs more, and never more than full detail throughout. */
  lemma {:induction false} CondensingNeverCosts(os: seq<Observation>, few: nat, many: nat)
    requires few <= many
    ensures CostWithLimit(os, few) <= CostWithLimit(os, many) <= CostOf(os)
    ensures CostWithLimit(os, -1) == CostOf(os)
    ensures |os| <= many ==> CostWithLimit(os, many) == CostOf(os)
  {
    if os != [] {
      CondensingNeverCosts(os[..|os| - 1], few, many);
    }
  }

  function CondensedCostOf(os: seq<Observation>): nat {
    if os == [] then 0 else CondensedCostOf(os[..|os| - 1]) + CondensedCost(os[|os| - 1])
  }

  /** The first `fullCount` in full and the others condensed. */
  lemma {:induction false} LimitSplits(full: seq<Observation>, rest: seq<Observation>)
    ensures CostWithLimit(full + rest, |full|) == CostOf(full) + CondensedCostOf(rest)
  {
    if rest == [] {
      assert full + rest == full;
      CondensingNeverCosts(full, |full|, |full|);
    } else {
      assert (full + rest)[..|full + rest| - 1] == full + rest[..|rest| - 1];
      LimitSplits(full, rest[..|rest| - 1]);
    }
  }

  method EstimateTokens(os: seq<Observation>) returns (total: nat)
    ensures total == CostOf(os)
  {
    CondensingNeverCosts(os, 0, 0);
    total := EstimateTokensWithLimit(os, -1);
  }

  // ----- trimming -----

  /** Keeps the front of the list that fits, and says how many it took off and what the rest costs. */
  method TrimToTokenBudget(os: seq<Observation>, budget: int) returns (kept: seq<Observation>, removed: nat, tokens: nat)
    ensures kept <= os && |kept| + removed == |os| && tokens == CostOf(kept)
    ensures budget <= 0 ==> kept == os
    ensures budget > 0 ==> tokens <= budget
    ensures budget > 0 && removed > 0 ==> CostOf(os[..|kept| + 1]) > budget
    ensures kept == Trimmed(os, budget)
  {
    if budget <= 0 || |os| == 0 {
      tokens := EstimateTokens(os);
      TrimmedIs(os, budget, |os|);
      return os, 0, tokens;
    }
    tokens := 0;
    for i := 0 to |os|
      invariant tokens == CostOf(os[..i]) && tokens <= budget
    {
      var cost := EstimateObsTokens(os[i]);
      assert os[..i + 1][..i] == os[..i];
      if tokens + cost > budget {
        TrimmedIs(os, budget, i);
        return os[..i], |os| - i, tokens;
      }
      tokens := tokens + cost;
    }
    assert os[..|os|] == os;
    TrimmedIs(os, budget, |os|);
    return os, 0, tokens;
  }

  /** The specification: the whole list if the budget is no budget, else the longest front that fits. */
  function Trimmed(os: seq<Observation>, budget: int): seq<Observation> {
    if budget <= 0 || CostOf(os) <= budget then os else
      assert os != [];
      Trimmed(os[..|os| - 1], budget)
  }

  lemma {:induction false} TrimmedIs(os: seq<Observation>, budget: int, k: nat)
    requires k <= |os|
    requires budget <= 0 ==> k == |os|
    requires budget > 0 ==> CostOf(os[..k]) <= budget && (k < |os| ==> CostOf(os[..k + 1]) > budget)
    ensures Trimmed(os, budget) == os[..k]
    decreases |os|
  {
    if k == |os| {
      assert os[..k] == os;
    } else {
      CostGrows(os, k + 1, |os|);
      assert os[..|os|] == os;
      var front := os[..|os| - 1];
      assert front[..k] == os[..k];
      if k < |front| { assert front[..k + 1] == os[..k + 1]; }
      TrimmedIs(front, budget, k);
    }
  }

  lemma {:induction false} CostGrows(os: seq<Observation>, i: nat, j: nat)
    requires i <= j <= |os|
    ensures CostOf(os[..i]) + 12 * (j - i) <= CostOf(os[..j])
    decreases j
  {
    if i < j {
      assert os[..j][..j - 1] == os[..j - 1];
      CostGrows(os, i, j - 1);
    }
  }

  /** A front of the list fits exactly if it is no longer than the one kept. */
  lemma LongestThatFits(os: seq<Observation>, budget: int, k: nat)
    requires budget > 0 && k <= |os|
    ensures Trimmed(os, budget) <= os
    ensures CostOf(os[..k]) <= budget <==> k <= |Trimmed(os, budget)|
  {
    TrimmedFits(os, budget);
    var n := |Trimmed(os, budget)|;
    assert os[..n] == Trimmed(os, budget);
    if k <= n { CostGrows(os, k, n); } else { CostGrows(os, n + 1, k); }
  }

  lemma {:induction false} TrimmedFits(os: seq<Observation>, budget: int)
    requires budget > 0
    ensures var kept := Trimmed(os, budget);
            kept <= os && CostOf(kept) <= budget && (|kept| < |os| ==> CostOf(os[..|kept| + 1]) > budget)
    decreases |os|
  {
    if CostOf(os) > budget {
      var front := os[..|os| - 1];
      TrimmedFits(front, budget);
      var n := |Trimmed(os, budget)|;
      if n < |front| { assert front[..n + 1] == os[..n + 1]; } else { assert os[..n + 1] == os; }
    }
  }

  // ----- selection by id -----

  function Ids(os: seq<Observation>): set<int> {
    set o | o in os :: o.id
  }

  function IdIn(ids: set<int>, within: bool): Observation -> bool {
    (o: Observation) => o.id in ids <==> within
  }

  /** Those whose id is, or is not, in the set; in order. */
  function Selected(os: seq<Observation>, ids: set<int>, within: bool): seq<Observation> {
    Filter(os, IdIn(ids, within))
  }

  lemma SelectedAre(os: seq<Observation>, ids: set<int>, within: bool)
    ensures forall o :: o in Selected(os, ids, within) <==> o in os && (o.id in ids <==> within)
  {
    FilterMembers(os, IdIn(ids, within));
  }

  method CollectIds(os: seq<Observation>) returns (ids: set<int>)
    ensures ids == Ids(os)
  {
    ids := {};
    for i := 0 to |os|
      invariant ids == Ids(os[..i])
    {
      assert os[..i + 1] == os[..i] + [os[i]];
      ids := ids + {os[i].id};
    }
    assert os[..|os|] == os;
  }

  method FilterByIDs(os: seq<Observation>, ids: set<int>, within: bool) returns (result: seq<Observation>)
    ensures result == Selected(os, ids, within)
  {
    result := [];
    for i := 0 to |os|
      invariant result == Selected(os[..i], ids, within)
    {
      FilterNext(os, i, IdIn(ids, within));
      if os[i].id in ids <==> within {
        result := result + [os[i]];
      }
    }
    assert os[..|os|] == os;
  }

  /** The rules whose id is neither among those already shown nor that of an earlier rule. */
  function NotShown(rules: seq<Observation>, shown: set<int>): seq<Observation> {
    if rules == [] then [] else
      var front, last := rules[..|rules| - 1], rules[|rules| - 1];
      NotShown(front, shown) + if last.id in shown || last.id in Ids(front) then [] else [last]
  }

  /** The rules come in their order, and what was used up by the first part of the list is used up for the rest. */
  lemma {:induction false} NotShownConcat(a: seq<Observation>, b: seq<Observation>, shown: set<int>)
    ensures NotShown(a + b, shown) == NotShown(a, shown) + NotShown(b, shown + Ids(a))
  {
    if b == [] {
      assert a + b == a;
    } else {
      var front, last := b[..|b| - 1], b[|b| - 1];
      assert (a + b)[..|a + b| - 1] == a + front;
      NotShownConcat(a, front, shown);
      assert Ids(a + front) == Ids(a) + Ids(front);
    }
  }

  lemma NotShownOne(rule: Observation, shown: set<int>)
    ensures NotShown([rule], shown) == if rule.id in shown then [] else [rule]
  {
    assert Ids([]) == {};
  }

  method AlwaysInject(rules: seq<Observation>, shown: set<int>) returns (result: seq<Observation>)
    ensures result == NotShown(rules, shown)
  {
    result := [];
    var seen := shown;
    for i := 0 to |rules|
      invariant result == NotShown(rules[..i], shown)
      invariant seen == shown + Ids(rules[..i])
    {
      assert rules[..i + 1] == rules[..i] + [rules[i]];
      assert rules[..i + 1][..i] == rules[..i];
      if rules[i].id !in seen {
        result := result + [rules[i]];
        seen := seen + {rules[i].id};
      }
    }
    assert rules[..|rules|] == rules;
  }

  // ----- the injection -----

  datatype Sections = Sections(
    main: seq<Observation>, recent: seq<Observation>, relevant: seq<Observation>,
    guidance: seq<Observation>, always: seq<Observation>, trimmed: nat, estimate: nat)

  /** What the stores answered: the five latest fresh observations, the retrieved ones, the first rules
      in priority order, the same list up to the always-inject limit, and all fresh ones. */
  datatype Found = Found(
    recent: seq<Observation>, retrieved: seq<Observation>, topRules: seq<Observation>,
    rules: seq<Observation>, current: seq<Observation>)

  function Relevant(f: Found): seq<Observation> {
    Selected(f.retrieved, Ids(f.recent), false)
  }

  function Union(f: Found): seq<Observation> {
    f.current + Selected(Relevant(f), Ids(f.current), false)
  }

  /** The sections of a context injection with a token budget (0 or less: no budget). */
  method Inject(f: Found, tokenBudget: int) returns (r: Sections)
    ensures r.always == NotShown(f.rules, Ids(f.recent) + Ids(f.topRules))
    ensures tokenBudget <= 0 ==>
              && r.main == Union(f) && r.recent == f.recent && r.relevant == Relevant(f) && r.guidance == f.topRules
              && r.trimmed == 0 && r.estimate == CostOf(r.main) + CostOf(r.guidance)
    ensures tokenBudget > 0 ==>
              && r.main == MainWithin(f, tokenBudget) && r.guidance == GuidanceWithin(f, tokenBudget)
              && r.recent == Selected(f.recent, Ids(r.main), true)
              && r.relevant == Selected(Relevant(f), Ids(r.main), true)
              && r.trimmed == |Union(f)| - |r.main| && r.estimate == CostOf(r.main)
  {
    var shown := CollectIds(f.recent);
    var relevant := FilterByIDs(f.retrieved, shown, false);
    var top := CollectIds(f.topRules);
    var always := AlwaysInject(f.rules, shown + top);
    var currentIds := CollectIds(f.current);
    var extra := FilterByIDs(relevant, currentIds, false);
    var fitted := ApplyBudget(f.current + extra, f.recent, relevant, f.topRules, tokenBudget);
    r := fitted.(always := always);
  }

  /** The budget's share of an injection: a fifth for guidance, the rest for main, and the other two
      sections cut to what is left of main. */
  method ApplyBudget(union: seq<Observation>, latest: seq<Observation>, found: seq<Observation>, rules: seq<Observation>,
                     tokenBudget: int) returns (r: Sections)
    ensures tokenBudget <= 0 ==> r == Sections(union, latest, found, rules, [], 0, CostOf(union) + CostOf(rules))
    ensures tokenBudget > 0 ==>
              && r.main == Trimmed(union, tokenBudget - tokenBudget / 5)
              && r.guidance == Trimmed(rules, tokenBudget / 5)
              && r.recent == Selected(latest, Ids(r.main), true)
              && r.relevant == Selected(found, Ids(r.main), true)
              && r.trimmed == |union| - |r.main| && r.estimate == CostOf(r.main)
  {
    if tokenBudget > 0 {
      var guidanceBudget := tokenBudget / 5;
      var guidance, _, _ := TrimToTokenBudget(rules, guidanceBudget);
      var main, trimmed, estimate := TrimToTokenBudget(union, tokenBudget - guidanceBudget);
      var kept := CollectIds(main);
      var recent := FilterByIDs(latest, kept, true);
      var relevant := FilterByIDs(found, kept, true);
      r := Sections(main, recent, relevant, guidance, [], trimmed, estimate);
    } else {
      var mainTokens := EstimateTokens(union);
      var guidanceTokens := EstimateTokens(rules);
      r := Sections(union, latest, found, rules, [], 0, mainTokens + guidanceTokens);
    }
  }

  // ----- what the sections promise together -----

  /** Main and guidance as a positive budget leaves them. */
  function MainWithin(f: Found, tokenBudget: int): seq<Observation> {
    Trimmed(Union(f), tokenBudget - tokenBudget / 5)
  }

  function GuidanceWithin(f: Found, tokenBudget: int): seq<Observation> {
    Trimmed(f.topRules, tokenBudget / 5)
  }

  /** Guidance and main together stay within a budget, unless the budget is so small that a fifth of it
      is nothing: that reads as no limit at all, and any guidance goes in whole. */
  lemma WithinBudgetIff(f: Found, tokenBudget: int)
    requires tokenBudget > 0
    ensures CostOf(MainWithin(f, tokenBudget)) + CostOf(GuidanceWithin(f, tokenBudget)) <= tokenBudget
            <==> tokenBudget >= 5 || f.topRules == []
  {
    var guidanceBudget := tokenBudget / 5;
    assert CostOf(MainWithin(f, tokenBudget)) <= tokenBudget - guidanceBudget by {
      TrimmedFits(Union(f), tokenBudget - guidanceBudget);
    }
    if tokenBudget >= 5 {
      assert CostOf(GuidanceWithin(f, tokenBudget)) <= guidanceBudget by {
        TrimmedFits(f.topRules, guidanceBudget);
      }
    } else {
      assert GuidanceWithin(f, tokenBudget) == f.topRules;
      AnyCostsTwelve(f.topRules);
    }
  }

  lemma AnyCostsTwelve(os: seq<Observation>)
    ensures if os == [] then CostOf(os) == 0 else CostOf(os) >= 12
  {
    CostGrows(os, 0, |os|);
    assert os[..|os|] == os;
  }

  /** The fresh list comes first in the union. Each id found is somewhere in it, and it has an id twice only if
      the fresh list or the retrieved one does. */
  lemma UnionCovers(f: Found)
    ensures f.current <= Union(f)
    ensures Ids(Union(f)) == Ids(f.current) + Ids(Relevant(f))
    ensures DistinctIds(f.current) && DistinctIds(f.retrieved) ==> DistinctIds(Union(f))
  {
    var extra := Selected(Relevant(f), Ids(f.current), false);
    SelectedAre(Relevant(f), Ids(f.current), false);
    forall id | id in Ids(Relevant(f)) ensures id in Ids(Union(f)) {
      var o :| o in Relevant(f) && o.id == id;
      assert o in extra || id in Ids(f.current);
    }
    if DistinctIds(f.current) && DistinctIds(f.retrieved) {
      SelectedDistinct(f.retrieved, Ids(f.recent), false);
      SelectedDistinct(Relevant(f), Ids(f.current), false);
      var union := Union(f);
      forall i, j | 0 <= i < j < |union| ensures union[i].id != union[j].id {
        if i < |f.current| <= j {
          assert union[j] in extra && union[i] in f.current;
          assert union[i].id in Ids(f.current);
        } else if j < |f.current| {
          assert union[i] == f.current[i] && union[j] == f.current[j];
        }
      }
    }
  }

  ghost predicate DistinctIds(os: seq<Observation>) {
    forall i, j :: 0 <= i < j < |os| ==> os[i].id != os[j].id
  }

  lemma {:induction false} SelectedDistinct(os: seq<Observation>, ids: set<int>, within: bool)
    requires DistinctIds(os)
    ensures DistinctIds(Selected(os, ids, within))
  {
    if os != [] {
      var front, last := os[..|os| - 1], os[|os| - 1];
      SelectedDistinct(front, ids, within);
      SelectedAre(front, ids, within);
      var kept := Selected(front, ids, within);
      forall i | 0 <= i < |kept| ensures kept[i].id != last.id {
        assert kept[i] in front;
      }
    }
  }

  /** An id names one observation throughout what was found. */
  ghost predicate IdsIdentify(f: Found) {
    forall a, b :: a in f.current + f.recent + f.retrieved && b in f.current + f.recent + f.retrieved && a.id == b.id ==> a == b
  }

  /** After a trim, a recent or relevant observation is shown exactly if its id is in the main list; if
      ids identify observations, exactly if it is itself in the main list. */
  lemma SectionsWithinMain(f: Found, tokenBudget: int, o: Observation)
    requires tokenBudget > 0 && (o in f.recent || o in Relevant(f))
    ensures var ids := Ids(MainWithin(f, tokenBudget));
            && (o in Selected(f.recent, ids, true) + Selected(Relevant(f), ids, true) <==> o.id in ids)
            && (IdsIdentify(f) ==> (o.id in ids <==> o in MainWithin(f, tokenBudget)))
  {
    var main := MainWithin(f, tokenBudget);
    SelectedAre(f.recent, Ids(main), true);
    SelectedAre(Relevant(f), Ids(main), true);
    SelectedAre(f.retrieved, Ids(f.recent), false);
    SelectedAre(Relevant(f), Ids(f.current), false);
    TrimmedFits(Union(f), tokenBudget - tokenBudget / 5);
    if IdsIdentify(f) && o.id in Ids(main) {
      var m :| m in main && m.id == o.id;
      assert m in Union(f);
      assert m in f.current + f.recent + f.retrieved && o in f.current + f.recent + f.retrieved;
    }
  }

  /** The rule ids are compared with memory ids: a rule beyond the first five is injected exactly if no
      recent observation happens to have its id. */
  lemma RuleIsInjectedIff(f: Found, rule: Observation)
    requires rule in f.rules && DistinctIds(f.rules) && rule !in f.topRules
    requires forall top :: top in f.topRules ==> top in f.rules
    ensures rule in NotShown(f.rules, Ids(f.recent) + Ids(f.topRules)) <==> rule.id !in Ids(f.recent)
  {
    forall top | top in f.topRules ensures top.id != rule.id {
      var i :| 0 <= i < |f.rules| && f.rules[i] == rule;
      var j :| 0 <= j < |f.rules| && f.rules[j] == top;
      assert i < j || j < i;
    }
    NotShownAre(f.rules, Ids(f.recent) + Ids(f.topRules), rule);
  }

  lemma {:induction false} NotShownAre(rules: seq<Observation>, shown: set<int>, rule: Observation)
    requires DistinctIds(rules)
    ensures rule in NotShown(rules, shown) <==> rule in rules && rule.id !in shown
  {
    if rules != [] {
      var front, last := rules[..|rules| - 1], rules[|rules| - 1];
      assert rules == front + [last];
      NotShownAre(front, shown, rule);
      assert last.id !in Ids(front) by {
        forall o | o in front ensures o.id != last.id {
          var i :| 0 <= i < |front| && front[i] == o;
          assert rules[i] == o;
        }
      }
    }
  }

  /** The always-inject rules are outside the budget, and guidance that the budget takes off does not come
      back among them: such a rule is injected nowhere. */
  lemma TrimmedGuidanceIsLost(f: Found, tokenBudget: int, rule: Observation)
    requires tokenBudget > 0 && rule in f.topRules && rule !in GuidanceWithin(f, tokenBudget)
    ensures rule !in NotShown(f.rules, Ids(f.recent) + Ids(f.topRules))
  {
    NotShownHides(f.rules, Ids(f.recent) + Ids(f.topRules));
    assert rule.id in Ids(f.topRules);
  }

  lemma {:induction false} NotShownHides(rules: seq<Observation>, shown: set<int>)
    ensures forall o :: o in NotShown(rules, shown) ==> o in rules && o.id !in shown
  {
    if rules != [] {
      NotShownHides(rules[..|rules| - 1], shown);
    }
  }
}
