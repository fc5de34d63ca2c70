/** What the two filters of the log show, by level and by query. */
module LogFilter {
  import opened Text
  import opened Sequences
  import opened LogRing

  /** The known levels, least severe first. */
  const LEVELS: seq<string> := ["trace", "debug", "info", "warn", "error", "fatal", "panic"]

  lemma LevelRank(i: nat)
    requires i < 7
    ensures LEVELS[i] in LEVEL_PRIORITY && LEVEL_PRIORITY[LEVELS[i]] == i
  {
    assert i == 0 || i == 1 || i == 2 || i == 3 || i == 4 || i == 5 || i == 6;
  }

  lemma KnownLevel(level: string)
    ensures level in LEVEL_PRIORITY ==> level in LEVELS
  {
    if level in LEVEL_PRIORITY {
      var known := ["trace", "debug", "info", "warn", "error", "fatal", "panic"];
      assert level in known;
    }
  }

  /** An entry of a known level is shown at that level and at those below it, and at none above; an entry or a
      limit of an unknown level is not held back. */
  lemma ShownAtLevel(e: LogEntry, i: nat, j: nat, minLevel: string)
    requires i < 7 && j < 7
    ensures e.level == LEVELS[i] ==> (Shown(e, LEVELS[j], "") <==> j <= i)
    ensures e.level !in LEVELS || minLevel !in LEVELS ==> Shown(e, minLevel, "")
  {
    LevelRank(i);
    LevelRank(j);
    KnownLevel(e.level);
    KnownLevel(minLevel);
    assert e.level in LEVEL_PRIORITY && minLevel in LEVEL_PRIORITY ==> e.level in LEVELS && minLevel in LEVELS;
  }

  ghost predicate SameButForCase(a: string, b: string) {
    |a| == |b| && forall i :: 0 <= i < |a| ==> LowerChar(a[i]) == LowerChar(b[i])
  }

  /** A piece of the text, from some place to some place, is the query but for case. */
  ghost predicate Mentions(text: string, query: string) {
    exists i, j :: 0 <= i <= j <= |text| && SameButForCase(text[i..j], query)
  }

  /** A query shows the entries that mention it in their message or their raw line, whatever the level. */
  lemma ShownByQuery(e: LogEntry, query: string)
    ensures Shown(e, "", query) <==> query == "" || Mentions(e.message, query) || Mentions(e.raw, query)
  {
    ContainsIffMentions(e.message, query);
    ContainsIffMentions(e.raw, query);
  }

  lemma ContainsIffMentions(text: string, query: string)
    ensures Contains(ToLower(text), ToLower(query)) <==> Mentions(text, query)
  {
    var t, q := ToLower(text), ToLower(query);
    if Contains(t, q) {
      var i :| 0 <= i <= |t| && OccursAt(t, q, i);
      var piece := text[i..i + |query|];
      forall k | 0 <= k < |query|
        ensures LowerChar(piece[k]) == LowerChar(query[k])
      {
        assert t[i..i + |q|][k] == q[k];
      }
      assert SameButForCase(text[i..i + |query|], query);
    }
    if Mentions(text, query) {
      var i, j :| 0 <= i <= j <= |text| && SameButForCase(text[i..j], query);
      assert t[i..i + |q|] == q;
      assert OccursAt(t, q, i);
    }
  }

  /** Both filters together show what each shows alone. */
  lemma ShownByBoth(e: LogEntry, minLevel: string, query: string)
    ensures Shown(e, minLevel, query) <==> Shown(e, minLevel, "") && Shown(e, "", query)
  {
  }

  /** A filtered list has the entries that are shown, each as often as it is there, in their order. */
  lemma ShownOneMore(entries: seq<LogEntry>, e: LogEntry, minLevel: string, query: string)
    ensures ShownOf([], minLevel, query) == []
    ensures ShownOf(entries + [e], minLevel, query) ==
            ShownOf(entries, minLevel, query) + if Shown(e, minLevel, query) then [e] else []
  {
    FilterSnoc(entries, e, Showing(minLevel, query));
  }

  /** The end of the list, n long if n is positive and there are as many, else all of it. */
  lemma TailIs(entries: seq<LogEntry>, n: int)
    ensures |Tail(entries, n)| == if 0 < n <= |entries| then n else |entries|
    ensures forall i :: 0 <= i < |Tail(entries, n)| ==> Tail(entries, n)[i] == entries[|entries| - |Tail(entries, n)| + i]
  {
  }
}
