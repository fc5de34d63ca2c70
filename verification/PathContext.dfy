/** Context inherited along a path: every configured prefix of the path contributes its text, the
    shortest prefix first. The configuration is a map, read in no particular order, and the sort is not
    stable. */
module PathContext {
  import opened Sequences

  datatype Match = Match(prefix: string, value: string)

  const SEPARATOR := "\n\n"

  // ----- the specification -----

  /** The configured prefixes of `path` no longer than n, shortest first. */
  function Chain(context: map<string, string>, path: string, n: nat): seq<Match>
    requires n <= |path|
  {
    (if n == 0 then [] else Chain(context, path, n - 1)) +
    (if path[..n] in context then [Match(path[..n], context[path[..n]])] else [])
  }

  function JoinValues(matches: seq<Match>): string {
    if matches == [] then "" else
      var front := matches[..|matches| - 1];
      (if front == [] then "" else JoinValues(front) + SEPARATOR) + matches[|matches| - 1].value
  }

  lemma JoinOne(m: Match)
    ensures JoinValues([m]) == m.value && JoinValues([]) == ""
  {
  }

  /** The texts of two lists are joined in order, with one empty line between them. */
  lemma {:induction false} JoinConcat(a: seq<Match>, b: seq<Match>)
    requires a != [] && b != []
    ensures JoinValues(a + b) == JoinValues(a) + "\n\n" + JoinValues(b)
  {
    var front, last := b[..|b| - 1], b[|b| - 1];
    assert (a + b)[..|a + b| - 1] == a + front;
    if front == [] {
      assert a + front == a && b == [last];
    } else {
      JoinConcat(a, front);
      Regroup(JoinValues(a) + "\n\n", JoinValues(front), "\n\n", last.value);
    }
  }

  lemma Regroup(a: string, b: string, c: string, d: string)
    ensures a + b + c + d == a + (b + c + d)
  {
  }

  /** What the path inherits. */
  function Inherited(context: map<string, string>, path: string): string {
    JoinValues(Chain(context, path, |path|))
  }

  // ----- the algorithm -----

  ghost predicate Matches(context: map<string, string>, path: string, m: Match) {
    m.prefix <= path && m.prefix in context && m.value == context[m.prefix]
  }

  ghost predicate ByLength(matches: seq<Match>) {
    forall i, j :: 0 <= i < j < |matches| ==> |matches[i].prefix| <= |matches[j].prefix|
  }

  /** The keys are taken in any order at all, and so are prefixes of equal length by the sort. */
  method ResolveContext(context: map<string, string>, path: string) returns (text: string)
    ensures text == JoinValues(Chain(context, path, |path|))
  {
    var matches := Collect(context, path);
    if |matches| == 0 {
      ChainIsTheOnlyOrder(context, path, matches);
      return "";
    }
    var sorted := SortByLength(matches);
    SameMembers(matches, sorted);
    ChainIsTheOnlyOrder(context, path, sorted);
    text := sorted[0].value;
    for i := 1 to |sorted|
      invariant text == JoinValues(sorted[..i])
    {
      assert sorted[..i + 1][..i] == sorted[..i];
      text := text + SEPARATOR + sorted[i].value;
    }
    assert sorted[..|sorted|] == sorted;
  }

  method Collect(context: map<string, string>, path: string) returns (matches: seq<Match>)
    ensures forall m :: m in matches <==> Matches(context, path, m)
    ensures forall i, j :: 0 <= i < j < |matches| ==> matches[i] != matches[j]
  {
    matches := [];
    var keys := context.Keys;
    while keys != {}
      invariant keys <= context.Keys
      invariant forall m :: m in matches <==> Matches(context, path, m) && m.prefix !in keys
      invariant forall i, j :: 0 <= i < j < |matches| ==> matches[i] != matches[j]
      decreases keys
    {
      var prefix :| prefix in keys;
      keys := keys - {prefix};
      if prefix <= path {
        matches := matches + [Match(prefix, context[prefix])];
      }
    }
  }

  /** Any arrangement by length. */
  method SortByLength(matches: seq<Match>) returns (sorted: seq<Match>)
    ensures multiset(sorted) == multiset(matches) && ByLength(sorted)
  {
    sorted := [];
    var rest := matches;
    while rest != []
      invariant multiset(sorted) + multiset(rest) == multiset(matches)
      invariant ByLength(sorted) && AllShorter(sorted, rest)
      decreases |rest|
    {
      ShortestExists(rest);
      var k :| 0 <= k < |rest| && Shortest(rest, k);
      PickShortest(sorted, rest, k);
      sorted := sorted + [rest[k]];
      rest := rest[..k] + rest[k + 1..];
    }
  }

  ghost predicate AllShorter(s: seq<Match>, t: seq<Match>) {
    forall i, j :: 0 <= i < |s| && 0 <= j < |t| ==> |s[i].prefix| <= |t[j].prefix|
  }

  lemma PickShortest(sorted: seq<Match>, rest: seq<Match>, k: nat)
    requires ByLength(sorted) && AllShorter(sorted, rest) && k < |rest| && Shortest(rest, k)
    ensures var longer, others := sorted + [rest[k]], rest[..k] + rest[k + 1..];
            && multiset(longer) + multiset(others) == multiset(sorted) + multiset(rest)
            && ByLength(longer) && AllShorter(longer, others)
  {
    MoveOne(sorted, rest, k);
    KeepOrder(sorted, rest, rest[..k] + rest[k + 1..], k);
  }

  lemma MoveOne(sorted: seq<Match>, rest: seq<Match>, k: nat)
    requires k < |rest|
    ensures multiset(sorted + [rest[k]]) + multiset(rest[..k] + rest[k + 1..]) == multiset(sorted) + multiset(rest)
  {
    assert rest == rest[..k] + [rest[k]] + rest[k + 1..];
  }

  lemma KeepOrder(sorted: seq<Match>, rest: seq<Match>, others: seq<Match>, k: nat)
    requires ByLength(sorted) && AllShorter(sorted, rest) && k < |rest| && Shortest(rest, k)
    requires others == rest[..k] + rest[k + 1..]
    ensures ByLength(sorted + [rest[k]]) && AllShorter(sorted + [rest[k]], others)
  {
    forall j | 0 <= j < |others|
      ensures |rest[k].prefix| <= |others[j].prefix|
      ensures forall i :: 0 <= i < |sorted| ==> |sorted[i].prefix| <= |others[j].prefix|
    {
      assert others[j] == rest[if j < k then j else j + 1];
    }
  }

  predicate Shortest(matches: seq<Match>, k: int)
    requires 0 <= k < |matches|
  {
    forall j :: 0 <= j < |matches| ==> |matches[k].prefix| <= |matches[j].prefix|
  }

  lemma {:induction false} ShortestExists(matches: seq<Match>)
    requires matches != []
    ensures exists k :: 0 <= k < |matches| && Shortest(matches, k)
  {
    if |matches| == 1 {
      assert Shortest(matches, 0);
    } else {
      var front := matches[..|matches| - 1];
      ShortestExists(front);
      var k :| 0 <= k < |front| && Shortest(front, k);
      assert Shortest(matches, if |matches[k].prefix| <= |matches[|front|].prefix| then k else |front|);
    }
  }

  // ----- why the order does not matter -----

  /** Distinct prefixes of one path differ in length, so only one list holds just the matches, none
      twice, by length: the chain of prefixes. */
  lemma ChainIsTheOnlyOrder(context: map<string, string>, path: string, matches: seq<Match>)
    requires forall m :: m in matches <==> Matches(context, path, m)
    requires forall i, j :: 0 <= i < j < |matches| ==> matches[i] != matches[j]
    requires ByLength(matches)
    ensures matches == Chain(context, path, |path|)
  {
    forall i, j | 0 <= i < j < |matches| ensures |matches[i].prefix| < |matches[j].prefix| {
      assert matches[i] in matches && matches[j] in matches;
      assert matches[i].prefix == path[..|matches[i].prefix|];
      assert matches[j].prefix == path[..|matches[j].prefix|];
    }
    var chain := Chain(context, path, |path|);
    ChainIs(context, path, |path|);
    forall i, j | 0 <= i < j < |chain| ensures |chain[i].prefix| < |chain[j].prefix| {
      assert chain[i].prefix < chain[j].prefix;
    }
    OneRisingOrder(matches, chain);
  }

  ghost predicate Rising(s: seq<Match>) {
    forall i, j :: 0 <= i < j < |s| ==> |s[i].prefix| < |s[j].prefix|
  }

  /** Two rising lists with the same members are the same list. */
  lemma {:induction false} OneRisingOrder(s: seq<Match>, t: seq<Match>)
    requires Rising(s) && Rising(t) && Elements(s) == Elements(t)
    ensures s == t
  {
    if s != [] {
      var x, y := s[|s| - 1], t[|t| - 1];
      LastIsLongest(s);
      LastIsLongest(t);
      assert x == y;
      var front, others := s[..|s| - 1], t[..|t| - 1];
      OneRisingOrder(front, others);
      assert s == front + [x] && t == others + [y];
    }
  }

  lemma LastIsLongest(s: seq<Match>)
    requires Rising(s) && s != []
    ensures var last := s[|s| - 1];
            && last in Elements(s) && Elements(s[..|s| - 1]) == Elements(s) - {last}
            && forall m :: m in Elements(s) && m != last ==> |m.prefix| < |last.prefix|
  {
    assert s == s[..|s| - 1] + [s[|s| - 1]];
  }

  /** The chain holds exactly the matches, and each prefix in it is a prefix of the next. */
  lemma {:induction false} ChainIs(context: map<string, string>, path: string, n: nat)
    requires n <= |path|
    ensures forall m :: m in Chain(context, path, n) <==> Matches(context, path, m) && |m.prefix| <= n
    ensures forall i, j :: 0 <= i < j < |Chain(context, path, n)| ==>
              Chain(context, path, n)[i].prefix < Chain(context, path, n)[j].prefix
  {
    forall m: Match | m.prefix <= path ensures m.prefix == path[..|m.prefix|] {}
    if n > 0 {
      ChainIs(context, path, n - 1);
      var shorter := Chain(context, path, n - 1);
      forall i | 0 <= i < |shorter| ensures shorter[i].prefix < path[..n] {
        assert shorter[i] in shorter;
      }
    }
  }

  /** What lies below a path inherits all that the path does, first: its chain and its text begin with those of
      the path. */
  lemma ChildrenInherit(context: map<string, string>, path: string, below: string)
    ensures Chain(context, path, |path|) <= Chain(context, path + below, |path + below|)
    ensures Inherited(context, path) <= Inherited(context, path + below)
  {
    ChainsExtend(context, path, below);
    var own, all := Chain(context, path, |path|), Chain(context, path + below, |path + below|);
    var more := all[|own|..];
    assert all == own + more;
    if own != [] && more != [] {
      JoinConcat(own, more);
    } else if own == [] {
      assert JoinValues(own) == "";
    } else {
      assert all == own;
    }
  }

  lemma ChainsExtend(context: map<string, string>, path: string, below: string)
    ensures Chain(context, path, |path|) <= Chain(context, path + below, |path + below|)
  {
    ChainOfPrefix(context, path + below, |path|, |path|);
    assert (path + below)[..|path|] == path;
    ChainGrows(context, path + below, |path|, |path + below|);
  }

  lemma {:induction false} ChainOfPrefix(context: map<string, string>, path: string, m: nat, n: nat)
    requires n <= m <= |path|
    ensures Chain(context, path[..m], n) == Chain(context, path, n)
  {
    assert path[..m][..n] == path[..n];
    if n > 0 { ChainOfPrefix(context, path, m, n - 1); }
  }

  lemma {:induction false} ChainGrows(context: map<string, string>, path: string, m: nat, n: nat)
    requires m <= n <= |path|
    ensures Chain(context, path, m) <= Chain(context, path, n)
  {
    if m < n { ChainGrows(context, path, m, n - 1); }
  }

  // ----- lists without a double -----

  /** A rearrangement has the same members, and none twice if the original has none twice. */
  lemma SameMembers(s: seq<Match>, t: seq<Match>)
    requires multiset(s) == multiset(t)
    ensures forall m :: m in t <==> m in s
    ensures (forall i, j :: 0 <= i < j < |s| ==> s[i] != s[j]) ==> (forall i, j :: 0 <= i < j < |t| ==> t[i] != t[j])
  {
    forall m: Match ensures m in t <==> m in s {
      assert m in t <==> m in multiset(t);
      assert m in s <==> m in multiset(s);
    }
    if forall i, j :: 0 <= i < j < |s| ==> s[i] != s[j] {
      DistinctHasNoDouble(s);
      NoDoubleIsDistinct(t);
    }
  }

  lemma DistinctHasNoDouble(s: seq<Match>)
    requires forall i, j :: 0 <= i < j < |s| ==> s[i] != s[j]
    ensures forall m :: multiset(s)[m] <= 1
  {
    if s != [] {
      var front, last := s[..|s| - 1], s[|s| - 1];
      assert s == front + [last];
      DistinctHasNoDouble(front);
      assert last !in front;
    }
  }

  lemma NoDoubleIsDistinct(s: seq<Match>)
    requires forall m :: multiset(s)[m] <= 1
    ensures forall i, j :: 0 <= i < j < |s| ==> s[i] != s[j]
  {
    forall i, j | 0 <= i < j < |s| ensures s[i] != s[j] {
      var front, back := s[..j], s[j..];
      assert s == front + back;
      assert front[i] in front && back[0] in back;
      assert multiset(s) == multiset(front) + multiset(back);
      var x, y := s[i], s[j];
      assert front[i] == x && back[0] == y;
      assert multiset(front)[x] >= 1 && multiset(back)[y] >= 1;
      assert multiset(s)[y] == multiset(front)[y] + multiset(back)[y];
      assert multiset(s)[y] <= 1;
    }
  }
}
