/** The `projects` table and the server handlers that read and write it, each run on its own.
    RemovalProtocol.dfy interleaves the same statements. */
module ProjectTable {
  import opened Wrappers
  import opened Sequences

  type ProjectId = string
  /** Nanoseconds on the server's UTC clock. */
  type Time = int

  const DAY: Time := 24 * 3600 * 1_000_000_000
  const MAX_SYNC_PROJECT_IDS := 10_000
  const MAX_NAME_LENGTH := 500

  /** `life` is history, not a column: how many rows with this id were purged before this one. */
  datatype Row = Row(removedAt: Option<Time>, lastHeartbeat: Option<Time>, life: nat)

  type Table = map<ProjectId, Row>

  predicate Live(t: Table, id: ProjectId) {
    id in t && t[id].removedAt.None?
  }

  predicate Removed(t: Table, id: ProjectId) {
    id in t && t[id].removedAt.Some?
  }

  predicate Stale(row: Row, threshold: Time) {
    row.removedAt.None? && (row.lastHeartbeat.None? || row.lastHeartbeat.value < threshold)
  }

  // ----- the SQL statements -----

  /** Registration: a row already there is left alone; a new one is live and has no heartbeat yet. */
  function InsertNew(t: Table, id: ProjectId, life: nat): Table {
    if id in t then t else t[id := Row(None, None, life)]
  }

  /** The soft-delete of one project, if it is live. */
  function MarkRemoved(t: Table, id: ProjectId, now: Time): Table {
    if Live(t, id) then t[id := t[id].(removedAt := Some(now))] else t
  }

  /** The heartbeat of the listed projects that are live. */
  function Stamp(t: Table, ids: seq<ProjectId>, now: Time): Table {
    map id | id in t :: if id in ids && Live(t, id) then t[id].(lastHeartbeat := Some(now)) else t[id]
  }

  /** The live projects that have not been heard of since the threshold, or never. */
  function StaleIds(t: Table, threshold: Time): set<ProjectId> {
    set id | id in t && Stale(t[id], threshold)
  }

  /** The reaper: rows soft-deleted before the cutoff go. */
  function Purge(t: Table, cutoff: Time): Table {
    map id | id in t && !(t[id].removedAt.Some? && t[id].removedAt.value < cutoff) :: t[id]
  }

  /** The reported ids a daemon has to drop: not in the table, or soft-deleted; in report order. */
  function RemovedAmong(reported: seq<ProjectId>, t: Table): (r: seq<ProjectId>)
    ensures forall id :: id in r <==> id in reported && !Live(t, id)
  {
    FilterMembers(reported, NotLive(t));
    Filter(reported, NotLive(t))
  }

  function NotLive(t: Table): ProjectId -> bool {
    id => !Live(t, id)
  }

  // ----- the handlers -----

  datatype DeleteStatus = Deleted | MissingId | MalformedId | NotFoundOrDeleted

  datatype Removal = Removal(project: ProjectId, at: Time)

  datatype SyncReply =
    | Synced(removed: seq<ProjectId>, unknown: set<ProjectId>, serverTime: Time)
    | EmptyClientId
    | TooManyIds

  predicate NameChar(c: char) {
    'a' <= c <= 'z' || 'A' <= c <= 'Z' || '0' <= c <= '9' || c in "_.\\/:-"
  }

  predicate ValidProjectName(id: ProjectId) {
    && (forall i {:trigger id[i]} :: 0 < i < |id| ==> !(id[i - 1] == '.' && id[i] == '.'))
    && (forall c :: c in id ==> NameChar(c))
    && |id| <= MAX_NAME_LENGTH
  }

  /** The characters of a name, one by one. */
  predicate Allowed(c: char) {
    c in "abcdefghijklmnopqrstuvwxyz" || c in "ABCDEFGHIJKLMNOPQRSTUVWXYZ" || c in "0123456789" || c in "-./:\\_"
  }

  /** A run of characters in the order of their codes. */
  lemma CodesInOrder(s: string, first: char, c: char)
    requires first as int + |s| < 0x80 && forall i: nat :: i < |s| ==> s[i] as int == first as int + i
    ensures c in s <==> first as int <= c as int < first as int + |s|
  {
    if first as int <= c as int < first as int + |s| {
      assert s[c as int - first as int] == c;
    }
  }

  lemma NameCharIff(c: char)
    ensures NameChar(c) <==> Allowed(c)
  {
    CodesInOrder("abcdefghijklmnopqrstuvwxyz", 'a', c);
    CodesInOrder("ABCDEFGHIJKLMNOPQRSTUVWXYZ", 'A', c);
    CodesInOrder("0123456789", '0', c);
    PunctuationIff(c);
  }

  lemma PunctuationIff(c: char)
    ensures c in "-./:\\_" <==> c == '-' || c == '.' || c == '/' || c == ':' || c == '\\' || c == '_'
  {
    var s := "-./:\\_";
    assert s[0] == '-' && s[1] == '.' && s[2] == '/' && s[3] == ':' && s[4] == '\\' && s[5] == '_';
  }

  /** The name rule, spelled out. */
  lemma ValidNameIff(id: ProjectId)
    ensures ValidProjectName(id) <==>
              |id| <= 500 && (forall c :: c in id ==> Allowed(c)) && !(exists i, j :: 0 <= i <= j <= |id| && id[i..j] == "..")
  {
    forall c: char
      ensures NameChar(c) <==> Allowed(c)
    {
      NameCharIff(c);
    }
    if i, j :| 0 <= i <= j <= |id| && id[i..j] == ".." {
      assert id[i..j][0] == '.' && id[i..j][1] == '.';
      assert id[i + 1 - 1] == '.' && id[i + 1] == '.';
    }
    forall i {:trigger id[i]} | 0 < i < |id| && id[i - 1] == '.' && id[i] == '.'
      ensures exists j, k :: 0 <= j <= k <= |id| && id[j..k] == ".."
    {
      assert id[i - 1..i + 1] == "..";
    }
  }

  /** What one query returns: some ordering of the rows whose id was asked for. */
  datatype Found = Found(id: ProjectId, removedAt: Option<Time>)

  ghost predicate AnswersQuery(rows: seq<Found>, t: Table, ids: seq<ProjectId>) {
    && (forall r :: r in rows ==> r.id in ids && r.id in t && r.removedAt == t[r.id].removedAt)
    && (forall id :: id in ids && id in t ==> Found(id, t[id].removedAt) in rows)
  }

  /** The rows by id. */
  method IndexRows(reported: seq<ProjectId>, rows: seq<Found>, ghost t: Table) returns (serverKnown: map<ProjectId, Option<Time>>)
    requires AnswersQuery(rows, t, reported)
    ensures forall id :: id in serverKnown ==> id in t && serverKnown[id] == t[id].removedAt
    ensures forall id :: id in reported && id in t ==> id in serverKnown
  {
    serverKnown := map[];
    for i := 0 to |rows|
      invariant forall id :: id in serverKnown ==> id in t && serverKnown[id] == t[id].removedAt
      invariant forall j :: 0 <= j < i ==> rows[j].id in serverKnown
    {
      serverKnown := serverKnown[rows[i].id := rows[i].removedAt];
    }
    forall id | id in reported && id in t
      ensures id in serverKnown
    {
      assert Found(id, t[id].removedAt) in rows;
    }
  }

  /** Classifies every reported id. */
  method ClassifyReported(reported: seq<ProjectId>, rows: seq<Found>, ghost t: Table) returns (removed: seq<ProjectId>)
    requires AnswersQuery(rows, t, reported)
    ensures removed == RemovedAmong(reported, t)
  {
    var serverKnown := IndexRows(reported, rows, t);
    removed := [];
    for i := 0 to |reported|
      invariant removed == RemovedAmong(reported[..i], t)
    {
      var id := reported[i];
      FilterNext(reported, i, NotLive(t));
      if id !in serverKnown || serverKnown[id].Some? {
        removed := removed + [id];
      }
    }
    assert reported[..|reported|] == reported;
  }

  class ProjectServer {
    var table: Table
    var emitted: seq<Removal>

    constructor (rows: Table)
      ensures table == rows && emitted == []
    {
      table, emitted := rows, [];
    }

    method DeleteProject(id: ProjectId, now: Time) returns (status: DeleteStatus)
      modifies this
      ensures status == (if id == "" then MissingId
                         else if !ValidProjectName(id) then MalformedId
                         else if !Live(old(table), id) then NotFoundOrDeleted else Deleted)
      ensures status != Deleted ==> table == old(table) && emitted == old(emitted)
      ensures status == Deleted ==>
                && emitted == old(emitted) + [Removal(id, now)]
                && table == old(table)[id := old(table)[id].(removedAt := Some(now))]
    {
      if id == "" {
        return MissingId;
      }
      var ok := IsValidName(id);
      if !ok {
        return MalformedId;
      }
      if !Live(table, id) {
        return NotFoundOrDeleted;
      }
      table := MarkRemoved(table, id, now);
      emitted := emitted + [Removal(id, now)];
      return Deleted;
    }

    method SyncProjectState(clientId: string, reported: seq<ProjectId>, rows: seq<Found>, now: Time)
      returns (reply: SyncReply)
      requires AnswersQuery(rows, table, reported)
      modifies this`table
      ensures reply == EmptyClientId <==> clientId == ""
      ensures reply == TooManyIds <==> clientId != "" && |reported| > 10_000
      ensures !reply.Synced? ==> table == old(table)
      ensures reply.Synced? ==>
                && table == Stamp(old(table), reported, now)
                && reply == Synced(RemovedAmong(reported, old(table)), StaleIds(table, now - 86_400_000_000_000), now)
    {
      if clientId == "" {
        return EmptyClientId;
      }
      if |reported| > MAX_SYNC_PROJECT_IDS {
        return TooManyIds;
      }
      var removed := [];
      if |reported| > 0 {
        removed := ClassifyReported(reported, rows, table);
        table := Stamp(table, reported, now);
      }
      reply := Synced(removed, StaleIds(table, now - DAY), now);
    }
  }

  /** The name check, byte by byte. */
  method IsValidName(id: ProjectId) returns (ok: bool)
    ensures ok == ValidProjectName(id)
  {
    for i := 0 to |id|
      invariant forall j {:trigger id[j]} :: 0 < j < i ==> !(id[j - 1] == '.' && id[j] == '.')
    {
      if i > 0 && id[i - 1] == '.' && id[i] == '.' {
        return false;
      }
    }
    for i := 0 to |id|
      invariant forall j :: 0 <= j < i ==> NameChar(id[j])
    {
      if !NameChar(id[i]) {
        return false;
      }
    }
    return |id| <= MAX_NAME_LENGTH;
  }
}
