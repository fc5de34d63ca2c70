/** The session transcript parser: one exchange per user line, with everything the assistant said and
    every tool it used up to the next one. */
module Transcript {
  import opened Wrappers
  import opened Sequences

  /** Zero is the zero time. */
  type Time = int

  /** One decoded line: its type, its text items and tool names, and the session fields it carries. */
  datatype Record = Record(
    kind: string, texts: seq<string>, tools: seq<string>, timestamp: Option<Time>,
    sessionId: string, cwd: string, gitBranch: string)

  /** A line as the scanner finds it. The scanner stops at a line over its limit. */
  datatype Line = Blank | Malformed | Decoded(record: Record) | TooLong

  datatype Exchange = Exchange(userText: string, assistantText: string, toolsUsed: seq<string>, timestamp: Time)

  datatype Meta = Meta(
    sessionId: string, projectPath: string, gitBranch: string, firstMsgAt: Time, lastMsgAt: Time,
    exchanges: seq<Exchange>, toolCounts: map<string, nat>, exchangeCount: nat)

  const USER := "user"
  const ASSISTANT := "assistant"

  function Join(parts: seq<string>): string {
    if parts == [] then "" else Join(parts[..|parts| - 1]) + parts[|parts| - 1]
  }

  function TimeOf(r: Record): Time {
    if r.timestamp.Some? then r.timestamp.value else 0
  }

  // ----- the declarative reading -----

  /** A user record and the assistant records before the next user record. */
  datatype Segment = Segment(user: Record, replies: seq<Record>)

  function Records(lines: seq<Line>): seq<Record> {
    if lines == [] then [] else
      Records(lines[..|lines| - 1]) + if lines[|lines| - 1].Decoded? then [lines[|lines| - 1].record] else []
  }

  /** How many records come before the first user record. */
  function UntilUser(rs: seq<Record>): (n: nat)
    ensures n <= |rs|
  {
    if rs == [] || rs[0].kind == USER then 0 else 1 + UntilUser(rs[1..])
  }

  function IsReply(): Record -> bool {
    (r: Record) => r.kind == ASSISTANT
  }

  function Replies(rs: seq<Record>): seq<Record> {
    Filter(rs, IsReply())
  }

  function Segments(rs: seq<Record>): seq<Segment>
    decreases |rs|
  {
    if rs == [] then []
    else if rs[0].kind != USER then Segments(rs[1..])
    else
      var n := UntilUser(rs[1..]);
      [Segment(rs[0], Replies(rs[1..][..n]))] + Segments(rs[1..][n..])
  }

  function Texts(replies: seq<Record>): seq<string> {
    if replies == [] then [] else Texts(replies[..|replies| - 1]) + replies[|replies| - 1].texts
  }

  function Tools(replies: seq<Record>): seq<string> {
    if replies == [] then [] else Tools(replies[..|replies| - 1]) + replies[|replies| - 1].tools
  }

  function ExchangeOf(s: Segment): Exchange {
    Exchange(Join(s.user.texts), Join(Texts(s.replies)), FirstOccurrences(Tools(s.replies)), TimeOf(s.user))
  }

  function ExchangesOf(segments: seq<Segment>): seq<Exchange> {
    if segments == [] then [] else ExchangesOf(segments[..|segments| - 1]) + [ExchangeOf(segments[|segments| - 1])]
  }

  function ToolsOf(segments: seq<Segment>): multiset<string> {
    if segments == [] then multiset{}
    else ToolsOf(segments[..|segments| - 1]) + multiset(Tools(segments[|segments| - 1].replies))
  }

  /** The counts are the multiplicities of the named tools. */
  ghost predicate Counts(m: map<string, nat>, tools: multiset<string>) {
    && (forall t :: t in m <==> t in tools && t != "")
    && (forall t :: t in m ==> m[t] == tools[t])
  }

  function FirstNonEmpty(values: seq<string>): string {
    if values == [] then "" else
      var before := FirstNonEmpty(values[..|values| - 1]);
      if before == "" then values[|values| - 1] else before
  }

  function FirstTime(rs: seq<Record>): Time {
    if rs == [] then 0 else
      var before, last := FirstTime(rs[..|rs| - 1]), rs[|rs| - 1];
      if before == 0 then TimeOf(last) else before
  }

  function LastTime(rs: seq<Record>): Time {
    if rs == [] then 0 else
      var last := rs[|rs| - 1];
      if last.timestamp.Some? then last.timestamp.value else LastTime(rs[..|rs| - 1])
  }

  function Ids(rs: seq<Record>): seq<string> { seq(|rs|, i requires 0 <= i < |rs| => rs[i].sessionId) }
  function Paths(rs: seq<Record>): seq<string> { seq(|rs|, i requires 0 <= i < |rs| => rs[i].cwd) }
  function Branches(rs: seq<Record>): seq<string> { seq(|rs|, i requires 0 <= i < |rs| => rs[i].gitBranch) }

  ghost predicate Gathers(m: Meta, segments: seq<Segment>) {
    && m.exchanges == ExchangesOf(segments)
    && m.exchangeCount == |segments|
    && Counts(m.toolCounts, ToolsOf(segments))
  }

  ghost predicate SessionFields(m: Meta, rs: seq<Record>) {
    && m.sessionId == FirstNonEmpty(Ids(rs))
    && m.projectPath == FirstNonEmpty(Paths(rs))
    && m.gitBranch == FirstNonEmpty(Branches(rs))
    && m.firstMsgAt == FirstTime(rs)
    && m.lastMsgAt == LastTime(rs)
  }

  /** What parsing these records has to yield. */
  ghost predicate Describes(m: Meta, rs: seq<Record>) {
    Gathers(m, Segments(rs)) && SessionFields(m, rs)
  }

  // ----- segmentation, one record and one file at a time -----

  lemma UntilUserConcat(a: seq<Record>, b: seq<Record>)
    requires b != [] ==> b[0].kind == USER
    ensures UntilUser(a + b) == UntilUser(a)
  {
    if a == [] {
      assert a + b == b;
    } else if a[0].kind != USER {
      assert (a + b)[1..] == a[1..] + b;
      UntilUserConcat(a[1..], b);
    }
  }

  lemma CutConcat(a: seq<Record>, b: seq<Record>, n: nat)
    requires n <= |a|
    ensures (a + b)[..n] == a[..n] && (a + b)[n..] == a[n..] + b
  {
  }

  /** The segments of a file that starts with this user record and goes on with `rest`. */
  lemma SegmentsFromUser(user: Record, rest: seq<Record>, n: nat)
    requires user.kind == USER && n == UntilUser(rest)
    ensures Segments([user] + rest) == [Segment(user, Replies(rest[..n]))] + Segments(rest[n..])
  {
    assert ([user] + rest)[1..] == rest;
  }

  lemma SegmentsFromOther(other: Record, rest: seq<Record>)
    requires other.kind != USER
    ensures Segments([other] + rest) == Segments(rest)
  {
    assert ([other] + rest)[1..] == rest;
  }

  /** A file that starts with a user record adds its own segments and changes none before. */
  lemma {:induction false} SegmentsConcat(a: seq<Record>, b: seq<Record>)
    requires b != [] ==> b[0].kind == USER
    ensures Segments(a + b) == Segments(a) + Segments(b)
    decreases |a|
  {
    if a == [] {
      assert a + b == b;
    } else {
      var first, rest := a[0], a[1..];
      assert a == [first] + rest && a + b == [first] + (rest + b);
      if first.kind != USER {
        SegmentsFromOther(first, rest);
        SegmentsFromOther(first, rest + b);
        SegmentsConcat(rest, b);
      } else {
        var n := UntilUser(rest);
        var tail := rest[n..];
        var own := [Segment(first, Replies(rest[..n]))];
        assert Segments(a) == own + Segments(tail) by { SegmentsFromUser(first, rest, n); }
        assert Segments(a + b) == own + Segments(tail + b) by {
          UntilUserConcat(rest, b);
          CutConcat(rest, b, n);
          SegmentsFromUser(first, rest + b, n);
        }
        SegmentsConcat(tail, b);
      }
    }
  }

  function Extended(segments: seq<Segment>, r: Record): seq<Segment> {
    if segments == [] || r.kind != ASSISTANT then segments
    else
      var last := segments[|segments| - 1];
      segments[|segments| - 1 := last.(replies := last.replies + [r])]
  }

  lemma UntilUserSnoc(rs: seq<Record>, r: Record)
    requires r.kind != USER
    ensures UntilUser(rs + [r]) == if UntilUser(rs) == |rs| then |rs| + 1 else UntilUser(rs)
  {
    if rs != [] && rs[0].kind != USER {
      assert (rs + [r])[1..] == rs[1..] + [r];
      UntilUserSnoc(rs[1..], r);
    }
  }

  lemma ExtendedTail(first: Segment, segments: seq<Segment>, r: Record)
    requires segments != []
    ensures Extended([first] + segments, r) == [first] + Extended(segments, r)
  {
  }

  lemma ExtendOnly(s: Segment, r: Record)
    ensures Extended([s], r) == [s.(replies := s.replies + if r.kind == ASSISTANT then [r] else [])]
  {
    assert s.replies + [] == s.replies;
  }

  /** After the records before the first user record comes a user record, and so a segment. */
  lemma {:induction false} SegmentAfter(rs: seq<Record>)
    ensures UntilUser(rs) < |rs| ==> Segments(rs[UntilUser(rs)..]) != []
  {
    if rs != [] && rs[0].kind != USER {
      SegmentAfter(rs[1..]);
      assert rs[1..][UntilUser(rs[1..])..] == rs[UntilUser(rs)..];
    } else {
      assert rs[0..] == rs;
    }
  }

  lemma SnocToLastSegment(user: Record, rest: seq<Record>, r: Record)
    requires user.kind == USER && r.kind != USER && UntilUser(rest) == |rest|
    ensures Segments([user] + (rest + [r])) == Extended(Segments([user] + rest), r)
  {
    assert Segments([user] + rest) == [Segment(user, Replies(rest))] by {
      SegmentsFromUser(user, rest, |rest|);
      assert rest[..|rest|] == rest && rest[|rest|..] == [];
    }
    assert Segments([user] + (rest + [r])) == [Segment(user, Replies(rest + [r]))] by {
      var longer := rest + [r];
      UntilUserSnoc(rest, r);
      SegmentsFromUser(user, longer, |longer|);
      assert longer[..|longer|] == longer && longer[|longer|..] == [];
    }
    FilterSnoc(rest, r, IsReply());
    ExtendOnly(Segment(user, Replies(rest)), r);
  }

  /** An assistant record goes to the last segment; any other but a user record goes nowhere. */
  lemma {:induction false} SegmentsSnoc(rs: seq<Record>, r: Record)
    requires r.kind != USER
    ensures Segments(rs + [r]) == Extended(Segments(rs), r)
    decreases |rs|
  {
    if rs == [] {
      SegmentsFromOther(r, []);
      assert rs + [r] == [r] + [];
    } else {
      var first, rest := rs[0], rs[1..];
      assert rs == [first] + rest && rs + [r] == [first] + (rest + [r]);
      var n := UntilUser(rest);
      if first.kind != USER {
        SegmentsFromOther(first, rest);
        SegmentsFromOther(first, rest + [r]);
        SegmentsSnoc(rest, r);
      } else if n == |rest| {
        SnocToLastSegment(first, rest, r);
      } else {
        var tail := rest[n..];
        var s := Segment(first, Replies(rest[..n]));
        assert Segments(rs) == [s] + Segments(tail) by { SegmentsFromUser(first, rest, n); }
        assert Segments(rs + [r]) == [s] + Segments(tail + [r]) by {
          UntilUserSnoc(rest, r);
          CutConcat(rest, [r], n);
          SegmentsFromUser(first, rest + [r], n);
        }
        assert Segments(tail) != [] by { SegmentAfter(rest); }
        SegmentsSnoc(tail, r);
        ExtendedTail(s, Segments(tail), r);
      }
    }
  }

  lemma LongerReply(segments: seq<Segment>, r: Record)
    requires segments != [] && r.kind == ASSISTANT
    ensures var n, longer := |segments| - 1, Extended(segments, r);
            && |longer| == n + 1 && longer[..n] == segments[..n] && longer[n].user == segments[n].user
            && Texts(longer[n].replies) == Texts(segments[n].replies) + r.texts
            && Tools(longer[n].replies) == Tools(segments[n].replies) + r.tools
  {
    var last := segments[|segments| - 1];
    assert (last.replies + [r])[..|last.replies|] == last.replies;
  }

  // ----- the parser -----

  /** Counts the named tools of one exchange. */
  method CountTools(counts: map<string, nat>, assistantTools: seq<string>, ghost tools: multiset<string>) returns (more: map<string, nat>)
    requires Counts(counts, tools)
    ensures Counts(more, tools + multiset(assistantTools))
  {
    more := counts;
    for i := 0 to |assistantTools|
      invariant Counts(more, tools + multiset(assistantTools[..i]))
    {
      var tool := assistantTools[i];
      assert assistantTools[..i + 1] == assistantTools[..i] + [tool];
      if tool != "" {
        more := more[tool := if tool in more then more[tool] + 1 else 1];
      }
    }
    assert assistantTools[..|assistantTools|] == assistantTools;
  }

  /** The fields of the parser. */
  datatype Gathered = Gathered(
    exchanges: seq<Exchange>, exchangeCount: nat, toolCounts: map<string, nat>,
    pendingUser: Option<Exchange>, assistantTexts: seq<string>, assistantTools: seq<string>)

  /** Exactly these segments have been written out. */
  ghost predicate Flushed(g: Gathered, segments: seq<Segment>) {
    && g.exchanges == ExchangesOf(segments)
    && g.exchangeCount == |segments|
    && Counts(g.toolCounts, ToolsOf(segments))
  }

  ghost predicate Idle(g: Gathered) {
    g.pendingUser.None? && g.assistantTexts == [] && g.assistantTools == []
  }

  /** All but the last segment have been written out, and the last is being gathered. */
  ghost predicate Between(g: Gathered, segments: seq<Segment>) {
    if segments == [] then Idle(g) && Flushed(g, [])
    else
      var last := segments[|segments| - 1];
      && Flushed(g, segments[..|segments| - 1])
      && g.pendingUser == Some(Exchange(Join(last.user.texts), "", [], TimeOf(last.user)))
      && g.assistantTexts == Texts(last.replies) && g.assistantTools == Tools(last.replies)
  }

  class SessionParser {
    var exchanges: seq<Exchange>
    var exchangeCount: nat
    var toolCounts: map<string, nat>
    var pendingUser: Option<Exchange>
    var assistantTexts: seq<string>
    var assistantTools: seq<string>

    constructor ()
      ensures Between(State(), [])
    {
      exchanges, exchangeCount, toolCounts := [], 0, map[];
      pendingUser, assistantTexts, assistantTools := None, [], [];
    }

    function State(): Gathered
      reads this
    {
      Gathered(exchanges, exchangeCount, toolCounts, pendingUser, assistantTexts, assistantTools)
    }

    method FlushExchange(ghost segments: seq<Segment>)
      requires Between(State(), segments)
      modifies this
      ensures Flushed(State(), segments) && Idle(State())
    {
      if pendingUser.None? {
        return;
      }
      var exchange := Exchange(pendingUser.value.userText, Join(assistantTexts), FirstOccurrences(assistantTools), pendingUser.value.timestamp);
      var counts := CountTools(toolCounts, assistantTools, ToolsOf(segments[..|segments| - 1]));
      exchanges, exchangeCount, toolCounts := exchanges + [exchange], exchangeCount + 1, counts;
      pendingUser, assistantTexts, assistantTools := None, [], [];
    }

    method TakeRecord(r: Record, ghost segments: seq<Segment>)
      requires Between(State(), segments)
      modifies this
      ensures Between(State(), if r.kind == USER then segments + [Segment(r, [])] else Extended(segments, r))
    {
      if r.kind == USER {
        FlushExchange(segments);
        pendingUser := Some(Exchange(Join(r.texts), "", [], TimeOf(r)));
        assert (segments + [Segment(r, [])])[..|segments|] == segments;
      } else if r.kind == ASSISTANT {
        if pendingUser.None? {
          return;
        }
        LongerReply(segments, r);
        assistantTexts := assistantTexts + r.texts;
        assistantTools := assistantTools + r.tools;
      }
    }
  }

  method ParseSession(lines: seq<Line>) returns (result: Option<Meta>)
    ensures result.None? <==> TooLong in lines
    ensures result.Some? ==> Describes(result.value, Records(lines))
  {
    var parser := new SessionParser();
    var sessionId, projectPath, gitBranch := "", "", "";
    var firstMsgAt: Time, lastMsgAt: Time := 0, 0;
    var scanError := false;
    ghost var rs: seq<Record> := [];
    for n := 0 to |lines|
      invariant !scanError && TooLong !in lines[..n] && rs == Records(lines[..n])
      invariant fresh(parser) && Between(parser.State(), Segments(rs))
      invariant sessionId == FirstNonEmpty(Ids(rs))
      invariant projectPath == FirstNonEmpty(Paths(rs))
      invariant gitBranch == FirstNonEmpty(Branches(rs))
      invariant firstMsgAt == FirstTime(rs) && lastMsgAt == LastTime(rs)
    {
      var line := lines[n];
      if line.TooLong? {
        scanError := true;
        break;
      }
      OneMoreLine(lines, n);
      if line.Blank? || line.Malformed? {
        continue;
      }
      var r := line.record;
      OneMoreRecord(rs, r);
      if r.timestamp.Some? {
        if firstMsgAt == 0 {
          firstMsgAt := r.timestamp.value;
        }
        lastMsgAt := r.timestamp.value;
      }
      if sessionId == "" {
        sessionId := r.sessionId;
      }
      if projectPath == "" {
        projectPath := r.cwd;
      }
      if gitBranch == "" {
        gitBranch := r.gitBranch;
      }
      parser.TakeRecord(r, Segments(rs));
      rs := rs + [r];
    }
    if scanError {
      return None;
    }
    assert lines[..|lines|] == lines;
    parser.FlushExchange(Segments(rs));
    return Some(Meta(sessionId, projectPath, gitBranch, firstMsgAt, lastMsgAt,
                     parser.exchanges, parser.toolCounts, parser.exchangeCount));
  }

  lemma OneMoreLine(lines: seq<Line>, n: nat)
    requires n < |lines|
    ensures Records(lines[..n + 1]) == Records(lines[..n]) + if lines[n].Decoded? then [lines[n].record] else []
    ensures TooLong in lines[..n + 1] <==> TooLong in lines[..n] || lines[n] == TooLong
  {
    assert lines[..n + 1] == lines[..n] + [lines[n]] && lines[..n + 1][..n] == lines[..n];
  }

  lemma OneMoreRecord(rs: seq<Record>, r: Record)
    ensures Segments(rs + [r]) == if r.kind == USER then Segments(rs) + [Segment(r, [])] else Extended(Segments(rs), r)
    ensures FirstNonEmpty(Ids(rs + [r])) == if FirstNonEmpty(Ids(rs)) == "" then r.sessionId else FirstNonEmpty(Ids(rs))
    ensures FirstNonEmpty(Paths(rs + [r])) == if FirstNonEmpty(Paths(rs)) == "" then r.cwd else FirstNonEmpty(Paths(rs))
    ensures FirstNonEmpty(Branches(rs + [r])) == if FirstNonEmpty(Branches(rs)) == "" then r.gitBranch else FirstNonEmpty(Branches(rs))
    ensures FirstTime(rs + [r]) == if FirstTime(rs) == 0 then TimeOf(r) else FirstTime(rs)
    ensures LastTime(rs + [r]) == if r.timestamp.Some? then r.timestamp.value else LastTime(rs)
  {
    assert (rs + [r])[..|rs|] == rs;
    assert Ids(rs + [r]) == Ids(rs) + [r.sessionId] && Ids(rs + [r])[..|rs|] == Ids(rs);
    assert Paths(rs + [r]) == Paths(rs) + [r.cwd] && Paths(rs + [r])[..|rs|] == Paths(rs);
    assert Branches(rs + [r]) == Branches(rs) + [r.gitBranch] && Branches(rs + [r])[..|rs|] == Branches(rs);
    if r.kind == USER {
      SegmentsConcat(rs, [r]);
      SegmentsFromUser(r, [], 0);
      assert [r] + [] == [r];
    } else {
      SegmentsSnoc(rs, r);
    }
  }

  // ----- what a reader of the result can rely on -----

  lemma {:induction false} RecordsConcat(a: seq<Line>, b: seq<Line>)
    ensures Records(a + b) == Records(a) + Records(b)
  {
    if b == [] {
      assert a + b == a;
    } else {
      assert (a + b)[..|a + b| - 1] == a + b[..|b| - 1];
      RecordsConcat(a, b[..|b| - 1]);
    }
  }

  /** Blank and malformed lines anywhere make no difference. */
  lemma JunkChangesNothing(a: seq<Line>, junk: Line, b: seq<Line>, m: Meta)
    requires junk.Blank? || junk.Malformed?
    ensures Describes(m, Records(a + [junk] + b)) <==> Describes(m, Records(a + b))
  {
    RecordsConcat(a + [junk], b);
    RecordsConcat(a, [junk]);
    RecordsConcat(a, b);
    assert [junk][..0] == [];
    assert Records(a + [junk]) == Records(a);
  }

  function Users(rs: seq<Record>): seq<Record> {
    if rs == [] then [] else (if rs[0].kind == USER then [rs[0]] else []) + Users(rs[1..])
  }

  lemma {:induction false} UsersSkip(rs: seq<Record>)
    ensures Users(rs) == Users(rs[UntilUser(rs)..])
  {
    if rs != [] && rs[0].kind != USER {
      UsersSkip(rs[1..]);
      assert rs[1..][UntilUser(rs[1..])..] == rs[UntilUser(rs)..];
    }
  }

  lemma UsersFrom(first: Record, rest: seq<Record>)
    ensures Users([first] + rest) == if first.kind == USER then [first] + Users(rest[UntilUser(rest)..]) else Users(rest)
  {
    assert ([first] + rest)[1..] == rest;
    UsersSkip(rest);
  }

  ghost predicate BegunBy(segments: seq<Segment>, users: seq<Record>) {
    |segments| == |users| && forall i :: 0 <= i < |users| ==> segments[i].user == users[i]
  }

  /** There is one segment for each user record, in order. */
  lemma {:induction false} OneExchangePerUser(rs: seq<Record>)
    ensures BegunBy(Segments(rs), Users(rs))
    decreases |rs|
  {
    if rs != [] {
      var first, rest := rs[0], rs[1..];
      assert rs == [first] + rest;
      UsersFrom(first, rest);
      if first.kind != USER {
        SegmentsFromOther(first, rest);
        OneExchangePerUser(rest);
      } else {
        var n := UntilUser(rest);
        SegmentsFromUser(first, rest, n);
        OneExchangePerUser(rest[n..]);
        BegunByOneMore(Segment(first, Replies(rest[..n])), Segments(rest[n..]), Users(rest[n..]));
      }
    }
  }

  lemma BegunByOneMore(s: Segment, segments: seq<Segment>, users: seq<Record>)
    requires BegunBy(segments, users)
    ensures BegunBy([s] + segments, [s.user] + users)
  {
  }

  lemma {:induction false} ToolsOfConcat(a: seq<Segment>, b: seq<Segment>)
    ensures ToolsOf(a + b) == ToolsOf(a) + ToolsOf(b)
  {
    if b == [] {
      assert a + b == a;
    } else {
      assert (a + b)[..|a + b| - 1] == a + b[..|b| - 1];
      ToolsOfConcat(a, b[..|b| - 1]);
    }
  }

  /** Parsing a file followed by one that starts with a user record concatenates the exchanges and adds
      up the tool counts. */
  lemma FilesConcatenate(a: seq<Line>, b: seq<Line>, ma: Meta, mb: Meta, m: Meta, tool: string)
    requires Records(b) != [] ==> Records(b)[0].kind == USER
    requires Describes(ma, Records(a)) && Describes(mb, Records(b)) && Describes(m, Records(a + b))
    ensures m.exchanges == ma.exchanges + mb.exchanges
    ensures m.exchangeCount == ma.exchangeCount + mb.exchangeCount
    ensures CountOf(m.toolCounts, tool) == CountOf(ma.toolCounts, tool) + CountOf(mb.toolCounts, tool)
  {
    RecordsConcat(a, b);
    SegmentsConcat(Records(a), Records(b));
    GatheredTogether(Segments(Records(a)), Segments(Records(b)), ma, mb, m, tool);
  }

  lemma {:induction false} ExchangesOfConcat(a: seq<Segment>, b: seq<Segment>)
    ensures ExchangesOf(a + b) == ExchangesOf(a) + ExchangesOf(b)
  {
    if b == [] {
      assert a + b == a;
    } else {
      assert (a + b)[..|a + b| - 1] == a + b[..|b| - 1];
      ExchangesOfConcat(a, b[..|b| - 1]);
    }
  }

  lemma GatheredTogether(sa: seq<Segment>, sb: seq<Segment>, ma: Meta, mb: Meta, m: Meta, tool: string)
    requires Gathers(ma, sa) && Gathers(mb, sb) && Gathers(m, sa + sb)
    ensures m.exchanges == ma.exchanges + mb.exchanges
    ensures m.exchangeCount == ma.exchangeCount + mb.exchangeCount
    ensures CountOf(m.toolCounts, tool) == CountOf(ma.toolCounts, tool) + CountOf(mb.toolCounts, tool)
  {
    ToolsOfConcat(sa, sb);
    ExchangesOfConcat(sa, sb);
    CountsAdd(ma.toolCounts, ToolsOf(sa), mb.toolCounts, ToolsOf(sb), m.toolCounts, tool);
  }

  function CountOf(counts: map<string, nat>, tool: string): nat {
    if tool in counts then counts[tool] else 0
  }

  lemma CountsAdd(ma: map<string, nat>, a: multiset<string>, mb: map<string, nat>, b: multiset<string>,
                  m: map<string, nat>, tool: string)
    requires Counts(ma, a) && Counts(mb, b) && Counts(m, a + b)
    ensures CountOf(m, tool) == CountOf(ma, tool) + CountOf(mb, tool)
  {
  }
}
