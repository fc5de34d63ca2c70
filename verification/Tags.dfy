/** Memory tags: the hierarchical expansion of "a:b:c", the tag list a stored memory ends up with, and
    the time to live derived from it. */
module Tags {
  import opened Wrappers
  import opened Sequences
  import opened Text

  type Tag = string

  // ----- expansion -----

  /** What expansion of a tag is: its prefixes that end before a ':', shortest first, and then itself. */
  function Expansion(tag: Tag): seq<Tag> {
    Cuts(tag, |tag|) + [tag]
  }

  /** The prefixes ending before a ':' among the first n characters. */
  function Cuts(tag: Tag, n: nat): seq<Tag>
    requires n <= |tag|
  {
    if n == 0 then [] else Cuts(tag, n - 1) + if tag[n - 1] == ':' then [tag[..n - 1]] else []
  }

  /** Segments with a ':' between each two. */
  function Join(segments: seq<string>): string {
    if segments == [] then ""
    else if |segments| == 1 then segments[0]
    else Join(segments[..|segments| - 1]) + ":" + segments[|segments| - 1]
  }

  /** The joins of the first segment, the first two, and so on. */
  function Joins(segments: seq<string>): (r: seq<string>)
    ensures |r| == |segments|
  {
    if segments == [] then [] else Joins(segments[..|segments| - 1]) + [Join(segments)]
  }

  method ExpandTagHierarchy(tag: Tag) returns (parts: seq<Tag>)
    ensures parts == Expansion(tag)
  {
    var start := 0;
    var segments: seq<string> := [];
    for i := 0 to |tag|
      invariant start <= i && Spells(segments, tag, start, i)
    {
      if tag[i] == ':' {
        SpellsOn(segments, tag, start, i);
        segments := segments + [tag[start..i]];
        start := i + 1;
      } else {
        assert Cuts(tag, i + 1) == Cuts(tag, i);
      }
    }
    SpellsAll(segments, tag, start);
    segments := segments + [tag[start..]];

    parts := Rejoin(segments);
  }

  /** The second pass of the expansion. */
  method Rejoin(segments: seq<string>) returns (parts: seq<Tag>)
    ensures parts == Joins(segments)
  {
    parts := [];
    for i := 0 to |segments|
      invariant parts == Joins(segments[..i])
    {
      var p := "";
      for j := 0 to i + 1
        invariant p == Join(segments[..j])
      {
        JoinSnoc(segments[..j], segments[j]);
        assert segments[..j + 1] == segments[..j] + [segments[j]];
        if j > 0 {
          p := p + ":";
        }
        p := p + segments[j];
      }
      assert segments[..i + 1][..i] == segments[..i];
      parts := parts + [p];
    }
    assert segments[..|segments|] == segments;
  }

  /** The segments so far join to the cuts so far, and spell the tag up to where the next one starts. */
  ghost predicate Spells(segments: seq<string>, tag: Tag, start: nat, i: nat) {
    && start <= i <= |tag|
    && Joins(segments) == Cuts(tag, i)
    && tag[..start] == if segments == [] then "" else Join(segments) + ":"
  }

  lemma JoinSnoc(segments: seq<string>, last: string)
    ensures Join(segments + [last]) == (if segments == [] then "" else Join(segments) + ":") + last
    ensures Joins(segments + [last]) == Joins(segments) + [Join(segments + [last])]
  {
    assert (segments + [last])[..|segments|] == segments;
  }

  lemma SpellsOn(segments: seq<string>, tag: Tag, start: nat, i: nat)
    requires Spells(segments, tag, start, i) && i < |tag| && tag[i] == ':'
    ensures Spells(segments + [tag[start..i]], tag, i + 1, i + 1)
  {
    JoinSnoc(segments, tag[start..i]);
    assert tag[..start] + tag[start..i] == tag[..i];
    assert tag[..i] + ":" == tag[..i + 1];
  }

  lemma SpellsAll(segments: seq<string>, tag: Tag, start: nat)
    requires Spells(segments, tag, start, |tag|)
    ensures Joins(segments + [tag[start..]]) == Expansion(tag)
  {
    JoinSnoc(segments, tag[start..]);
    assert tag[..start] + tag[start..] == tag;
  }

  /** The parts are exactly the prefixes that end before a ':' and the tag. */
  lemma {:induction false} CutsAre(tag: Tag, n: nat)
    requires n <= |tag|
    ensures forall p :: p in Cuts(tag, n) <==> p <= tag && |p| < n && tag[|p|] == ':'
    ensures forall i, j :: 0 <= i < j < |Cuts(tag, n)| ==> |Cuts(tag, n)[i]| < |Cuts(tag, n)[j]|
  {
    CutsGrow(tag, n);
    if n > 0 {
      CutsAre(tag, n - 1);
      forall p | p <= tag && |p| == n - 1 ensures p == tag[..n - 1] {}
    }
  }

  lemma {:induction false} CutsGrow(tag: Tag, n: nat)
    requires n <= |tag|
    ensures forall i :: 0 <= i < |Cuts(tag, n)| ==> |Cuts(tag, n)[i]| < n
    ensures forall i, j :: 0 <= i < j < |Cuts(tag, n)| ==> |Cuts(tag, n)[i]| < |Cuts(tag, n)[j]|
  {
    if n > 0 {
      CutsGrow(tag, n - 1);
    }
  }

  lemma ExpansionIs(tag: Tag)
    ensures forall p :: p in Expansion(tag) <==> p == tag || (p <= tag && |p| < |tag| && tag[|p|] == ':')
    ensures forall i, j :: 0 <= i < j < |Expansion(tag)| ==> |Expansion(tag)[i]| < |Expansion(tag)[j]|
    ensures |Expansion(tag)| > 0 && Expansion(tag)[|Expansion(tag)| - 1] == tag
  {
    CutsAre(tag, |tag|);
    var cuts := Cuts(tag, |tag|);
    forall i | 0 <= i < |cuts| ensures |cuts[i]| < |tag| {
      assert cuts[i] in cuts;
    }
  }

  /** The expansion of a part is the expansion of the tag up to that part. */
  lemma ExpansionOfPart(tag: Tag, part: Tag)
    requires part in Expansion(tag)
    ensures Expansion(part) <= Expansion(tag)
  {
    ExpansionIs(tag);
    if part != tag {
      CutsOfPrefix(tag, |part|, |part|);
      CutsExtend(tag, |part| + 1, |tag|);
      assert part == tag[..|part|];
      assert Cuts(tag, |part| + 1) == Cuts(part, |part|) + [part];
    }
  }

  lemma {:induction false} CutsOfPrefix(tag: Tag, m: nat, n: nat)
    requires n <= m <= |tag|
    ensures Cuts(tag[..m], n) == Cuts(tag, n)
  {
    if n > 0 {
      CutsOfPrefix(tag, m, n - 1);
      assert tag[..m][..n - 1] == tag[..n - 1];
    }
  }

  lemma {:induction false} CutsExtend(tag: Tag, m: nat, n: nat)
    requires m <= n <= |tag|
    ensures Cuts(tag, m) <= Cuts(tag, n)
  {
    if m < n { CutsExtend(tag, m, n - 1); }
  }

  // ----- accumulation -----

  /** The expansions of the tags, one after another. */
  function Expansions(tags: seq<Tag>): seq<Tag> {
    if tags == [] then [] else Expansions(tags[..|tags| - 1]) + Expansion(tags[|tags| - 1])
  }

  /** The distinct tags a memory is stored with before the type, scope and lifetime are added. */
  function UserTags(given: seq<Tag>): seq<Tag> {
    FirstOccurrences(Expansions(given))
  }

  /** `seen` always holds just what `tags` does. */
  method AddExpanded(given: seq<Tag>) returns (tags: seq<Tag>, seen: set<Tag>)
    ensures tags == UserTags(given) && seen == Elements(tags)
  {
    tags, seen := [], {};
    for i := 0 to |given|
      invariant tags == UserTags(given[..i]) && seen == Elements(tags)
    {
      var parts := ExpandTagHierarchy(given[i]);
      ghost var before := Expansions(given[..i]);
      assert given[..i + 1][..i] == given[..i];
      assert before + parts[..0] == before;
      for j := 0 to |parts|
        invariant tags == FirstOccurrences(before + parts[..j]) && seen == Elements(tags)
      {
        AddOne(before, parts, j);
        if parts[j] !in seen {
          seen := seen + {parts[j]};
          tags := tags + [parts[j]];
        }
      }
      assert parts[..|parts|] == parts;
    }
    assert given[..|given|] == given;
  }

  lemma AddOne(before: seq<Tag>, parts: seq<Tag>, j: nat)
    requires j < |parts|
    ensures var tags := FirstOccurrences(before + parts[..j]);
            && FirstOccurrences(before + parts[..j + 1]) == tags + (if parts[j] in tags then [] else [parts[j]])
            && Elements(tags + [parts[j]]) == Elements(tags) + {parts[j]}
  {
    FirstOccurrencesAre(before + parts[..j]);
    FirstOccurrencesSnoc(before + parts[..j], parts[j]);
    assert before + parts[..j + 1] == (before + parts[..j]) + [parts[j]];
  }

  /** Every prefix of a user tag is there at or before it. */
  ghost predicate Closed(tags: seq<Tag>) {
    forall i, p :: 0 <= i < |tags| && p in Expansion(tags[i]) ==> p in tags[..i + 1]
  }

  lemma ClosedConcat(a: seq<Tag>, tag: Tag)
    requires Closed(a)
    ensures Closed(a + Expansion(tag))
  {
    var b := Expansion(tag);
    var s := a + b;
    forall i, p | 0 <= i < |s| && p in Expansion(s[i]) ensures p in s[..i + 1] {
      if i < |a| {
        assert s[..i + 1] == a[..i + 1];
      } else {
        var j := i - |a|;
        assert s[i] == b[j] && b[j] in b;
        PartsUpTo(tag, j);
        assert s[..i + 1] == a + b[..j + 1];
      }
    }
  }

  /** The expansion of the j-th part is the first j + 1 parts. */
  lemma PartsUpTo(tag: Tag, j: nat)
    requires j < |Expansion(tag)|
    ensures Expansion(Expansion(tag)[j]) == Expansion(tag)[..j + 1]
  {
    var b := Expansion(tag);
    var part := b[j];
    assert part in b;
    ExpansionOfPart(tag, part);
    ExpansionIs(tag);
    ExpansionIs(part);
    var n := |Expansion(part)|;
    assert b[n - 1] == part;
    assert n - 1 == j;
  }

  lemma {:induction false} ClosedExpansions(given: seq<Tag>)
    ensures Closed(Expansions(given))
  {
    if given != [] {
      ClosedExpansions(given[..|given| - 1]);
      ClosedConcat(Expansions(given[..|given| - 1]), given[|given| - 1]);
    }
  }

  lemma {:induction false} ClosedFirstOccurrences(s: seq<Tag>)
    requires Closed(s)
    ensures Closed(FirstOccurrences(s)) && Distinct(FirstOccurrences(s))
  {
    FirstOccurrencesAre(s);
    if s != [] {
      var front, last := s[..|s| - 1], s[|s| - 1];
      assert s == front + [last];
      assert forall i :: 0 <= i < |front| ==> s[i] == front[i] && s[..i + 1] == front[..i + 1];
      ClosedFirstOccurrences(front);
      FirstOccurrencesAre(front);
      var r := FirstOccurrences(s);
      forall i, p | 0 <= i < |r| && p in Expansion(r[i]) ensures p in r[..i + 1] {
        var before := FirstOccurrences(front);
        if i < |before| {
          assert r[..i + 1] == before[..i + 1];
        } else {
          assert r == before + [last] && r[..i + 1] == r && s[..|s|] == s;
          assert p in s[..|s| - 1 + 1];
        }
      }
    }
  }

  /** The user tags are distinct, hold just the expansions of the given tags, and each comes after all
      its own prefixes. */
  lemma UserTagsAre(given: seq<Tag>)
    ensures Distinct(UserTags(given)) && Closed(UserTags(given))
    ensures forall t :: t in UserTags(given) <==> exists g :: g in given && t in Expansion(g)
  {
    ClosedExpansions(given);
    ClosedFirstOccurrences(Expansions(given));
    FirstOccurrencesAre(Expansions(given));
    ExpansionsAre(given);
  }

  lemma {:induction false} ExpansionsAre(given: seq<Tag>)
    ensures forall t :: t in Expansions(given) <==> exists g :: g in given && t in Expansion(g)
  {
    if given != [] {
      var front, last := given[..|given| - 1], given[|given| - 1];
      assert given == front + [last];
      ExpansionsAre(front);
    }
  }

  /** Storing a memory again with the tags it came out with adds nothing and reorders nothing. */
  lemma ExpandingAgainIsIdentity(given: seq<Tag>)
    ensures UserTags(UserTags(given)) == UserTags(given)
  {
    UserTagsAre(given);
    var tags := UserTags(given);
    FixedPoint(tags, |tags|);
    assert tags[..|tags|] == tags;
  }

  lemma {:induction false} FixedPoint(tags: seq<Tag>, n: nat)
    requires Distinct(tags) && Closed(tags) && n <= |tags|
    ensures FirstOccurrences(Expansions(tags[..n])) == tags[..n]
  {
    if n > 0 {
      var kept, last := tags[..n - 1], tags[n - 1];
      FixedPoint(tags, n - 1);
      forall p | p in Cuts(last, |last|)
        ensures p in kept
      {
        PrefixesBefore(tags, n - 1, p);
      }
      assert tags[..n] == kept + [last];
      ExpandLast(kept, last);
    }
  }

  /** The proper prefixes of a tag come before it. */
  lemma PrefixesBefore(tags: seq<Tag>, i: nat, p: Tag)
    requires Closed(tags) && i < |tags| && p in Cuts(tags[i], |tags[i]|)
    ensures p in tags[..i]
  {
    CutsAre(tags[i], |tags[i]|);
    assert p in Expansion(tags[i]) && p != tags[i];
    assert tags[..i + 1] == tags[..i] + [tags[i]];
  }

  lemma ExpandLast(kept: seq<Tag>, last: Tag)
    requires FirstOccurrences(Expansions(kept)) == kept && last !in kept
    requires forall p :: p in Cuts(last, |last|) ==> p in kept
    ensures FirstOccurrences(Expansions(kept + [last])) == kept + [last]
  {
    var before, cuts := Expansions(kept), Cuts(last, |last|);
    assert Expansions(kept + [last]) == (before + cuts) + [last] by {
      assert (kept + [last])[..|kept|] == kept;
    }
    FirstOccurrencesAre(before);
    NothingNew(before, cuts);
    FirstOccurrencesSnoc(before + cuts, last);
  }

  lemma {:induction false} NothingNew(a: seq<Tag>, b: seq<Tag>)
    requires forall t :: t in b ==> t in a
    ensures FirstOccurrences(a + b) == FirstOccurrences(a)
  {
    if b == [] {
      assert a + b == a;
    } else {
      var front, last := b[..|b| - 1], b[|b| - 1];
      assert a + b == (a + front) + [last];
      NothingNew(a, front);
      FirstOccurrencesSnoc(a + front, last);
    }
  }

  // ----- lifetime -----

  /** Days of life by topic; 0 for any other tag. */
  function AutoTTL(tag: Tag): nat {
    if tag == "api" || tag == "endpoint" then 7
    else if tag == "library" || tag == "framework" then 30
    else if tag == "language-feature" then 90
    else if tag == "architecture" || tag == "pattern" then 180
    else 0
  }

  /** The stated lifetime, else the shortest one of a verified memory's topics, else 30 days if it is
      verified, else none (0). */
  method ComputeTTLDays(stated: Option<int>, tags: seq<Tag>) returns (days: nat)
    ensures IsTTL(stated, Elements(tags), days)
  {
    if stated.Some? && stated.value > 0 {
      return stated.value;
    }
    if "verified" !in tags {
      return 0;
    }
    var least := 0;
    for i := 0 to |tags|
      invariant least == 0 ==> forall t :: t in tags[..i] ==> AutoTTL(t) == 0
      invariant least > 0 ==> exists t :: t in tags[..i] && AutoTTL(t) == least
      invariant least > 0 ==> forall t :: t in tags[..i] && AutoTTL(t) > 0 ==> least <= AutoTTL(t)
    {
      var days := AutoTTL(tags[i]);
      assert tags[..i + 1] == tags[..i] + [tags[i]];
      if days > 0 && (least == 0 || days < least) {
        least := days;
      }
    }
    assert tags[..|tags|] == tags;
    return if least > 0 then least else 30;
  }

  /** Order and repetition of the tags do not enter into it. */
  ghost predicate IsTTL(stated: Option<int>, tags: set<Tag>, days: nat) {
    if stated.Some? && stated.value > 0 then days == stated.value
    else if "verified" !in tags then days == 0
    else if exists t :: t in tags && AutoTTL(t) > 0 then
      (exists t :: t in tags && AutoTTL(t) == days) && days > 0 &&
      (forall t :: t in tags && AutoTTL(t) > 0 ==> days <= AutoTTL(t))
    else days == 30
  }

  lemma TTLIsUnique(stated: Option<int>, tags: set<Tag>, days: nat, days': nat)
    requires IsTTL(stated, tags, days) && IsTTL(stated, tags, days')
    ensures days == days'
  {
    if (stated.None? || stated.value <= 0) && "verified" in tags && exists t :: t in tags && AutoTTL(t) > 0 {
      var t :| t in tags && AutoTTL(t) == days;
      var t' :| t' in tags && AutoTTL(t') == days';
    }
  }

  function WithTag(tags: seq<Tag>, tag: Tag): seq<Tag> {
    if tag in tags then tags else tags + [tag]
  }

  /** Adds a tag at the end unless it is there. */
  method AddTag(tags: seq<Tag>, seen: set<Tag>, tag: Tag) returns (more: seq<Tag>, seen': set<Tag>)
    requires Distinct(tags) && seen == Elements(tags)
    ensures more == WithTag(tags, tag)
    ensures tags <= more && Distinct(more)
    ensures seen' == Elements(more) == Elements(tags) + {tag}
  {
    if tag in seen {
      return tags, seen;
    }
    more, seen' := tags + [tag], seen + {tag};
  }

  function TypeTag(kind: string): Tag { "type:" + kind }
  function ScopeTag(scope: string): Tag { "scope:" + scope }
  function LifeTag(days: nat): Tag { "ttl:" + Decimal(days) }

  /** The tags a lifetime is worked out from, but for a stated lifetime's own. */
  ghost function Classified(given: seq<Tag>, kind: string, scope: string): set<Tag> {
    Elements(UserTags(given)) + {"type:" + kind, "scope:" + scope}
  }

  /** The tags a memory is stored with, and its lifetime. */
  method StoredTags(given: seq<Tag>, kind: string, scope: string, stated: Option<nat>) returns (tags: seq<Tag>, days: nat)
    requires stated.Some? ==> stated.value > 0
    ensures var classed := WithTag(WithTag(UserTags(given), "type:" + kind), "scope:" + scope);
            tags == if days > 0 then WithTag(classed, "ttl:" + Decimal(days)) else classed
    ensures UserTags(given) <= tags && Distinct(tags)
    ensures Elements(tags) == Classified(given, kind, scope) + (if days > 0 then {"ttl:" + Decimal(days)} else {})
    ensures IsTTL(stated, Classified(given, kind, scope), days)
  {
    var seen;
    tags, seen := AddExpanded(given);
    UserTagsAre(given);
    tags, seen := AddClass(tags, seen, kind, scope);
    assert seen == Classified(given, kind, scope);
    tags, seen, days := AddLifetime(tags, seen, stated);
  }

  method AddClass(tags: seq<Tag>, seen: set<Tag>, kind: string, scope: string) returns (more: seq<Tag>, seen': set<Tag>)
    requires Distinct(tags) && seen == Elements(tags)
    ensures more == WithTag(WithTag(tags, "type:" + kind), "scope:" + scope)
    ensures tags <= more && Distinct(more) && seen' == Elements(more) == seen + {"type:" + kind, "scope:" + scope}
  {
    var typeTag, scopeTag := TypeTag(kind), ScopeTag(scope);
    more, seen' := AddTag(tags, seen, typeTag);
    more, seen' := AddTag(more, seen', scopeTag);
  }

  method AddLifetime(tags: seq<Tag>, seen: set<Tag>, stated: Option<nat>) returns (more: seq<Tag>, seen': set<Tag>, days: nat)
    requires Distinct(tags) && seen == Elements(tags) && (stated.Some? ==> stated.value > 0)
    ensures more == if days > 0 then WithTag(tags, LifeTag(days)) else tags
    ensures tags <= more && Distinct(more) && seen' == Elements(more)
    ensures Elements(more) == Elements(tags) + (if days > 0 then {LifeTag(days)} else {})
    ensures IsTTL(stated, Elements(tags), days)
  {
    more, seen' := tags, seen;
    if stated.Some? {
      more, seen' := AddTag(more, seen', LifeTag(stated.value));
    }
    days := ComputeTTLDays(stated, more);
    if days > 0 {
      more, seen' := AddTag(more, seen', LifeTag(days));
    }
  }

  /** A verified memory inherits the lifetime of every topic its tags fall under. */
  lemma SubtopicsCount(given: seq<Tag>, topic: Tag, rest: string, kind: string, scope: string, days: nat)
    requires "verified" in UserTags(given) && topic + ":" + rest in given && AutoTTL(topic) > 0
    requires IsTTL(None, Classified(given, kind, scope), days)
    ensures 0 < days <= AutoTTL(topic)
  {
    UserTagsAre(given);
    ExpansionIs(topic + ":" + rest);
    assert (topic + ":" + rest)[|topic|] == ':' && topic <= topic + ":" + rest;
    assert topic in UserTags(given);
  }
}
