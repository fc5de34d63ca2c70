/** What is in a parsed transcript, read off its records: whose text and time each exchange has, what the
    assistant said and used in it, and where the session fields come from. */
module TranscriptContents {
  import opened Wrappers
  import opened Sequences
  import opened Transcript

  lemma {:induction false} JoinConcat(a: seq<string>, b: seq<string>)
    ensures Join(a + b) == Join(a) + Join(b)
  {
    if b == [] {
      assert a + b == a;
    } else {
      assert (a + b)[..|a + b| - 1] == a + b[..|b| - 1];
      JoinConcat(a, b[..|b| - 1]);
    }
  }

  lemma JoinOne(s: string)
    ensures Join([s]) == s && Join([]) == ""
  {
    assert Join([s]) == Join([]) + s;
  }

  // ----- what the assistant does in a stretch of records -----

  function SaidIn(rs: seq<Record>): string {
    if rs == [] then "" else SaidIn(rs[..|rs| - 1]) + if rs[|rs| - 1].kind == "assistant" then Join(rs[|rs| - 1].texts) else ""
  }

  function UsedIn(rs: seq<Record>): seq<string> {
    if rs == [] then [] else UsedIn(rs[..|rs| - 1]) + if rs[|rs| - 1].kind == "assistant" then rs[|rs| - 1].tools else []
  }

  lemma {:induction false} RepliesSay(rs: seq<Record>)
    ensures Join(Texts(Replies(rs))) == SaidIn(rs) && Tools(Replies(rs)) == UsedIn(rs)
  {
    if rs != [] {
      var front, last := rs[..|rs| - 1], rs[|rs| - 1];
      RepliesSay(front);
      OneMoreReply(Replies(front), last);
      JoinConcat(Texts(Replies(front)), last.texts);
      assert Replies(front) + [] == Replies(front) && UsedIn(front) + [] == UsedIn(front) && SaidIn(front) + "" == SaidIn(front);
    }
  }

  lemma OneMoreReply(replies: seq<Record>, r: Record)
    ensures Texts(replies + [r]) == Texts(replies) + r.texts && Tools(replies + [r]) == Tools(replies) + r.tools
  {
    assert (replies + [r])[..|replies|] == replies;
  }

  // ----- one exchange -----

  /** The records from p up to q are those of one exchange: a user record, and then none up to the next. */
  ghost predicate Stretch(rs: seq<Record>, p: nat, q: nat) {
    && p < q <= |rs| && rs[p].kind == "user"
    && (forall j :: p < j < q ==> rs[j].kind != "user")
    && (q < |rs| ==> rs[q].kind == "user")
  }

  lemma {:induction false} UntilUserIs(rs: seq<Record>, n: nat)
    requires n <= |rs| && (forall j :: 0 <= j < n ==> rs[j].kind != "user") && (n < |rs| ==> rs[n].kind == "user")
    ensures UntilUser(rs) == n
  {
    if n > 0 {
      assert forall j :: 0 <= j < n - 1 ==> rs[1..][j] == rs[j + 1];
      UntilUserIs(rs[1..], n - 1);
    }
  }

  lemma StretchIsSegment(rs: seq<Record>, p: nat, q: nat)
    requires Stretch(rs, p, q)
    ensures var i := |Users(rs[..p])|;
            i < |Segments(rs)| && Segments(rs)[i] == Segment(rs[p], Replies(rs[p + 1..q]))
  {
    var before, after := rs[..p], rs[p..];
    FirstSegmentIs(rs, p, q);
    assert rs == before + after;
    SegmentsConcat(before, after);
    OneExchangePerUser(before);
    assert Segments(rs)[|Segments(before)|] == Segments(after)[0];
  }

  lemma FirstSegmentIs(rs: seq<Record>, p: nat, q: nat)
    requires Stretch(rs, p, q)
    ensures Segments(rs[p..]) != [] && Segments(rs[p..])[0] == Segment(rs[p], Replies(rs[p + 1..q]))
  {
    var rest, n := rs[p + 1..], q - p - 1;
    assert forall j :: 0 <= j < n ==> rest[j] == rs[p + 1 + j];
    UntilUserIs(rest, n);
    SegmentsFromUser(rs[p], rest, n);
    assert rs[p..] == [rs[p]] + rest && rest[..n] == rs[p + 1..q];
  }

  lemma {:induction false} ExchangeAt(segments: seq<Segment>, i: nat)
    requires i < |segments|
    ensures |ExchangesOf(segments)| == |segments| && ExchangesOf(segments)[i] == ExchangeOf(segments[i])
  {
    if i < |segments| - 1 {
      ExchangeAt(segments[..|segments| - 1], i);
    } else if i > 0 {
      ExchangeAt(segments[..i], i - 1);
    }
  }

  /** The exchange of a user record, by how many came before it: it has the text and the time of that record,
      and the text of the assistant records up to the next user record, in order, and their tools, each once. */
  lemma ExchangeHolds(m: Meta, rs: seq<Record>, p: nat, q: nat)
    requires Describes(m, rs) && Stretch(rs, p, q)
    ensures var i := |Users(rs[..p])|;
            && i < |m.exchanges|
            && m.exchanges[i].userText == Join(rs[p].texts)
            && m.exchanges[i].assistantText == SaidIn(rs[p + 1..q])
            && m.exchanges[i].toolsUsed == FirstOccurrences(UsedIn(rs[p + 1..q]))
            && (rs[p].timestamp.Some? ==> m.exchanges[i].timestamp == rs[p].timestamp.value)
            && (rs[p].timestamp.None? ==> m.exchanges[i].timestamp == 0)
  {
    StretchIsSegment(rs, p, q);
    ExchangeAt(Segments(rs), |Users(rs[..p])|);
    RepliesSay(rs[p + 1..q]);
  }

  /** There are as many exchanges as user records, and the counts are those of every tool used after the first
      user record, with its repetitions. */
  lemma CountsAreOfAllTools(m: Meta, rs: seq<Record>, tool: string)
    requires Describes(m, rs)
    ensures m.exchangeCount == |m.exchanges| == |Users(rs)|
    ensures CountOf(m.toolCounts, tool) == if tool == "" then 0 else multiset(UsedIn(rs[UntilUser(rs)..]))[tool]
  {
    OneExchangePerUser(rs);
    if Segments(rs) != [] {
      ExchangeAt(Segments(rs), 0);
    }
    ToolsOfAll(rs);
  }

  lemma {:induction false} UsedConcat(a: seq<Record>, b: seq<Record>)
    ensures UsedIn(a + b) == UsedIn(a) + UsedIn(b)
  {
    if b == [] {
      assert a + b == a;
    } else {
      assert (a + b)[..|a + b| - 1] == a + b[..|b| - 1];
      UsedConcat(a, b[..|b| - 1]);
    }
  }

  lemma {:induction false} ToolsOfAll(rs: seq<Record>)
    ensures ToolsOf(Segments(rs)) == multiset(UsedIn(rs[UntilUser(rs)..]))
    decreases |rs|
  {
    if rs != [] {
      var first, rest := rs[0], rs[1..];
      assert rs == [first] + rest;
      if first.kind != "user" {
        SegmentsFromOther(first, rest);
        ToolsOfAll(rest);
        assert rs[UntilUser(rs)..] == rest[UntilUser(rest)..];
      } else {
        ToolsFromUser(first, rest);
        assert rs[0..] == rs;
      }
    }
  }

  lemma {:induction false} ToolsFromUser(user: Record, rest: seq<Record>)
    requires user.kind == "user"
    ensures ToolsOf(Segments([user] + rest)) == multiset(UsedIn([user] + rest))
    decreases |rest|
  {
    var n := UntilUser(rest);
    var own, tail := rest[..n], rest[n..];
    assert ToolsOf(Segments(tail)) == multiset(UsedIn(tail)) by {
      if tail != [] {
        UserAfter(rest);
        assert tail == [tail[0]] + tail[1..];
        ToolsFromUser(tail[0], tail[1..]);
      }
    }
    SegmentsFromUser(user, rest, n);
    ToolsOfFirst(user, own, Segments(tail));
    assert rest == own + tail;
    UsedAfterUser(user, own, tail);
    AddUp(UsedIn(own), UsedIn(tail));
  }

  lemma AddUp(a: seq<string>, b: seq<string>)
    ensures multiset(a + b) == multiset(a) + multiset(b)
  {
  }

  lemma ToolsOfFirst(user: Record, own: seq<Record>, segments: seq<Segment>)
    ensures ToolsOf([Segment(user, Replies(own))] + segments) == multiset(UsedIn(own)) + ToolsOf(segments)
  {
    ToolsOfConcat([Segment(user, Replies(own))], segments);
    ToolsOfOne(user, own);
  }

  lemma ToolsOfOne(user: Record, own: seq<Record>)
    ensures ToolsOf([Segment(user, Replies(own))]) == multiset(UsedIn(own))
  {
    RepliesSay(own);
    assert ToolsOf([Segment(user, Replies(own))]) == ToolsOf([]) + multiset(UsedIn(own));
  }

  lemma UsedAfterUser(user: Record, own: seq<Record>, tail: seq<Record>)
    requires user.kind == "user"
    ensures UsedIn([user] + (own + tail)) == UsedIn(own) + UsedIn(tail)
  {
    UsedConcat([user], own + tail);
    UsedConcat(own, tail);
    assert UsedIn([user]) == UsedIn([]) + [];
    assert [] + UsedIn(own + tail) == UsedIn(own + tail);
  }

  lemma {:induction false} UserAfter(rs: seq<Record>)
    ensures UntilUser(rs) < |rs| ==> rs[UntilUser(rs)].kind == "user"
  {
    if rs != [] && rs[0].kind != "user" {
      UserAfter(rs[1..]);
    }
  }

  // ----- the session fields -----

  lemma {:induction false} FirstNonEmptyIs(values: seq<string>, j: nat)
    requires j <= |values| && (forall i :: 0 <= i < j ==> values[i] == "") && (j < |values| ==> values[j] != "")
    ensures FirstNonEmpty(values) == if j < |values| then values[j] else ""
  {
    if values != [] {
      FirstNonEmptyIs(values[..|values| - 1], if j < |values| then j else j - 1);
    }
  }

  /** What no record has is left empty. */
  lemma FieldsOfNone(m: Meta, rs: seq<Record>)
    requires Describes(m, rs)
    ensures (forall i :: 0 <= i < |rs| ==> rs[i].sessionId == "") ==> m.sessionId == ""
    ensures (forall i :: 0 <= i < |rs| ==> rs[i].cwd == "") ==> m.projectPath == ""
    ensures (forall i :: 0 <= i < |rs| ==> rs[i].gitBranch == "") ==> m.gitBranch == ""
    ensures (forall i :: 0 <= i < |rs| ==> rs[i].timestamp.None?) ==> m.firstMsgAt == m.lastMsgAt == 0
  {
    if forall i :: 0 <= i < |rs| ==> rs[i].sessionId == "" {
      FirstNonEmptyIs(Ids(rs), |rs|);
    }
    if forall i :: 0 <= i < |rs| ==> rs[i].cwd == "" {
      FirstNonEmptyIs(Paths(rs), |rs|);
    }
    if forall i :: 0 <= i < |rs| ==> rs[i].gitBranch == "" {
      FirstNonEmptyIs(Branches(rs), |rs|);
    }
    if forall i :: 0 <= i < |rs| ==> rs[i].timestamp.None? {
      NoTimeYet(rs);
      NoLastTime(rs);
    }
  }

  lemma {:induction false} NoLastTime(rs: seq<Record>)
    requires forall i :: 0 <= i < |rs| ==> rs[i].timestamp.None?
    ensures LastTime(rs) == 0
  {
    if rs != [] {
      NoLastTime(rs[..|rs| - 1]);
    }
  }

  lemma {:induction false} TimesAre(rs: seq<Record>, j: nat, t: Time)
    requires j < |rs| && rs[j].timestamp == Some(t)
    ensures t != 0 && (forall i :: 0 <= i < j ==> rs[i].timestamp.None? || rs[i].timestamp == Some(0)) ==> FirstTime(rs) == t
    ensures (forall i :: j < i < |rs| ==> rs[i].timestamp.None?) ==> LastTime(rs) == t
  {
    var front := rs[..|rs| - 1];
    if j < |front| {
      TimesAre(front, j, t);
    } else if forall i :: 0 <= i < j ==> rs[i].timestamp.None? || rs[i].timestamp == Some(0) {
      NoTimeYet(front);
    }
  }

  lemma {:induction false} NoTimeYet(rs: seq<Record>)
    requires forall i :: 0 <= i < |rs| ==> rs[i].timestamp.None? || rs[i].timestamp == Some(0)
    ensures FirstTime(rs) == 0
  {
    if rs != [] {
      NoTimeYet(rs[..|rs| - 1]);
    }
  }

  /** Each session field comes from the first record that has it. The session runs from the first time in the
      file (the zero time is none) to the last. */
  lemma SessionFieldsAre(m: Meta, rs: seq<Record>, j: nat)
    requires Describes(m, rs) && j < |rs|
    ensures rs[j].sessionId != "" && (forall i :: 0 <= i < j ==> rs[i].sessionId == "") ==> m.sessionId == rs[j].sessionId
    ensures rs[j].cwd != "" && (forall i :: 0 <= i < j ==> rs[i].cwd == "") ==> m.projectPath == rs[j].cwd
    ensures rs[j].gitBranch != "" && (forall i :: 0 <= i < j ==> rs[i].gitBranch == "") ==> m.gitBranch == rs[j].gitBranch
    ensures rs[j].timestamp.Some? && rs[j].timestamp.value != 0
            && (forall i :: 0 <= i < j ==> rs[i].timestamp.None? || rs[i].timestamp == Some(0)) ==>
              m.firstMsgAt == rs[j].timestamp.value
    ensures rs[j].timestamp.Some? && (forall i :: j < i < |rs| ==> rs[i].timestamp.None?) ==>
              m.lastMsgAt == rs[j].timestamp.value
  {
    if rs[j].sessionId != "" && (forall i :: 0 <= i < j ==> rs[i].sessionId == "") {
      FirstNonEmptyIs(Ids(rs), j);
    }
    if rs[j].cwd != "" && (forall i :: 0 <= i < j ==> rs[i].cwd == "") {
      FirstNonEmptyIs(Paths(rs), j);
    }
    if rs[j].gitBranch != "" && (forall i :: 0 <= i < j ==> rs[i].gitBranch == "") {
      FirstNonEmptyIs(Branches(rs), j);
    }
    if rs[j].timestamp.Some? {
      TimesAre(rs, j, rs[j].timestamp.value);
    }
  }
}
