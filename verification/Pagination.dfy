/** The observation list: over-fetching, filtering in memory and cutting out one page. */
module Pagination {
  import opened Wrappers
  import opened Sequences
  import opened Text

  const MAX_INT64 := 0x7FFF_FFFF_FFFF_FFFF
  /** The largest capacity a slice of observations can be asked for. */
  const MAX_CAPACITY := 0x2000_0000_0000

  datatype Observation = Observation(id: int, kind: string, memoryType: string, concepts: seq<string>)

  /** The query parameters; each filter is off when empty. */
  datatype Filters = Filters(kind: string, status: string, memoryType: string, concept: string)

  datatype Response =
    | Panicked
    | Page(items: seq<Option<Observation>>, total: int, number: int, hasMore: bool)

  predicate Matches(f: Filters, o: Option<Observation>) {
    && o.Some?
    && (f.kind != "" ==> o.value.kind == f.kind)
    && (f.status == "" || f.status == "active")
    && (f.memoryType != "" ==> o.value.memoryType == f.memoryType)
    && (f.concept != "" ==> exists c :: c in o.value.concepts && Contains(ToLower(c), ToLower(f.concept)))
  }

  /** Each filter tests its own field, those that are off test nothing, and a row has to pass them all. The
      status is a constant of every row. */
  lemma EachFilterTestsItsField(f: Filters, o: Observation)
    ensures Matches(Filters("", "", "", ""), Some(o)) && !Matches(f, None)
    ensures f.kind != "" ==> (Matches(Filters(f.kind, "", "", ""), Some(o)) <==> o.kind == f.kind)
    ensures f.status != "" ==> (Matches(Filters("", f.status, "", ""), Some(o)) <==> f.status == "active")
    ensures f.memoryType != "" ==> (Matches(Filters("", "", f.memoryType, ""), Some(o)) <==> o.memoryType == f.memoryType)
    ensures f.concept != "" ==>
              (Matches(Filters("", "", "", f.concept), Some(o)) <==>
                 exists c :: c in o.concepts && Contains(ToLower(c), ToLower(f.concept)))
    ensures Matches(f, Some(o)) <==>
              && Matches(Filters(f.kind, "", "", ""), Some(o)) && Matches(Filters("", f.status, "", ""), Some(o))
              && Matches(Filters("", "", f.memoryType, ""), Some(o)) && Matches(Filters("", "", "", f.concept), Some(o))
  {
  }

  function Matcher(f: Filters): Option<Observation> -> bool {
    o => Matches(f, o)
  }

  /** The whole filtered list. */
  function Matching(f: Filters, all: seq<Option<Observation>>): seq<Option<Observation>> {
    Filter(all, Matcher(f))
  }

  /** The filtered list has the rows that match, each as often as it is there, in their order. */
  lemma MatchesOneMore(f: Filters, all: seq<Option<Observation>>, o: Option<Observation>)
    ensures Matching(f, []) == []
    ensures Matching(f, all + [o]) == Matching(f, all) + if Matches(f, o) then [o] else []
  {
    FilterSnoc(all, o, Matcher(f));
  }

  /** 64-bit addition of two non-negative numbers. */
  function Add64(a: int, b: int): int
    requires 0 <= a <= MAX_INT64 && 0 <= b <= MAX_INT64
  {
    if a + b <= MAX_INT64 then a + b else a + b - 0x1_0000_0000_0000_0000
  }

  function PageOf<T>(s: seq<T>, offset: nat, limit: nat): seq<T> {
    if offset >= |s| then [] else if offset + limit <= |s| then s[offset..offset + limit] else s[offset..]
  }

  /** The first `k` rows of the store. */
  method Fetch(all: seq<Option<Observation>>, k: int) returns (rows: seq<Option<Observation>>)
    requires k >= 0
    ensures rows == if k < |all| then all[..k] else all
  {
    rows := if k < |all| then all[..k] else all;
  }

  method FilterRows(f: Filters, rows: seq<Option<Observation>>) returns (filtered: seq<Option<Observation>>)
    ensures filtered == Matching(f, rows)
  {
    filtered := [];
    for i := 0 to |rows|
      invariant filtered == Matching(f, rows[..i])
    {
      FilterNext(rows, i, Matcher(f));
      if Matches(f, rows[i]) {
        filtered := filtered + [rows[i]];
      }
    }
    assert rows[..|rows|] == rows;
  }

  /** Fetches ever more rows until enough of them match or there are no more. */
  method Overfetch(all: seq<Option<Observation>>, f: Filters, limit: int, requestedCount: int)
      returns (filtered: seq<Option<Observation>>, exhausted: bool)
    requires 0 < limit <= requestedCount <= MAX_CAPACITY && |all| <= MAX_CAPACITY
    ensures filtered <= Matching(f, all)
    ensures exhausted ==> filtered == Matching(f, all)
    ensures !exhausted ==> |filtered| > requestedCount
  {
    var overfetchStep := limit;
    var fetchLimit := requestedCount;
    filtered, exhausted := [], false;
    while true
      invariant requestedCount <= fetchLimit
      invariant requestedCount == fetchLimit || fetchLimit - overfetchStep <= |all|
      decreases |all| + overfetchStep - fetchLimit
    {
      var observations := Fetch(all, fetchLimit);
      filtered := FilterRows(f, observations);
      FilterConcat(observations, all[|observations|..], Matcher(f));
      assert all == observations + all[|observations|..];
      if |observations| < fetchLimit {
        exhausted := true;
        break;
      }
      if |filtered| > requestedCount {
        break;
      }
      var nextFetchLimit := Add64(fetchLimit, overfetchStep);
      if nextFetchLimit <= fetchLimit {
        exhausted := true;
        break;
      }
      fetchLimit := nextFetchLimit;
    }
  }

  method GetObservations(all: seq<Option<Observation>>, f: Filters, limit: int, offset: int) returns (r: Response)
    requires 0 < limit <= MAX_INT64 && 0 <= offset <= MAX_INT64
    requires |all| <= MAX_CAPACITY
    ensures r.Panicked? <==> (if offset + limit <= MAX_INT64 then offset + limit else limit) > MAX_CAPACITY
    ensures r.Page? ==>
              && r.items == PageOf(Matching(f, all), offset, limit)
              && r.number == offset / limit + 1
              && (r.hasMore <==> |Matching(f, all)| > offset + limit || offset + limit > MAX_INT64)
              && r.total <= |Matching(f, all)|
              && (|Matching(f, all)| <= offset + limit <= MAX_INT64 ==> r.total == |Matching(f, all)|)
              && (|Matching(f, all)| > offset + limit ==> offset + limit < r.total)
  {
    var requestedCount := Add64(offset, limit);
    if requestedCount <= 0 {
      requestedCount := limit;
    }
    if requestedCount > MAX_CAPACITY {
      return Panicked;
    }
    var filtered, exhausted := Overfetch(all, f, limit, requestedCount);
    var total := |filtered|;
    var hasMore := true;
    if exhausted {
      hasMore := Add64(offset, limit) < total;
    } else if requestedCount + 1 > |filtered| {
      total := requestedCount + 1;
    }
    var pageItems := [];
    if offset < |filtered| {
      var end := Add64(offset, limit);
      if end > |filtered| {
        end := |filtered|;
      }
      pageItems := filtered[offset..end];
    }
    r := Page(pageItems, total, offset / limit + 1, hasMore);
  }

  // ----- turning the pages -----

  lemma PageJoins<T>(s: seq<T>, offset: nat, limit: nat)
    requires offset <= |s|
    ensures s[..offset] + PageOf(s, offset, limit) == if |s| > offset + limit then s[..offset + limit] else s
  {
  }

  /** Where the last page ends that a client asks for who goes on while there is more. */
  function LastEnd(length: nat, offset: nat, limit: nat): nat
    requires limit > 0
    decreases length - offset
  {
    if length > offset + limit then LastEnd(length, offset + limit, limit) else offset + limit
  }

  lemma {:induction false} LastEndIs(length: nat, offset: nat, limit: nat)
    requires limit > 0
    ensures LastEnd(length, offset, limit) >= length && LastEnd(length, offset, limit) >= offset + limit
    ensures LastEnd(length, offset, limit) < length + limit || LastEnd(length, offset, limit) == offset + limit
    decreases length - offset
  {
    if length > offset + limit {
      LastEndIs(length, offset + limit, limit);
    }
  }

  /** It ends after a whole number of pages. */
  lemma {:induction false} LastEndIsWhole(length: nat, offset: nat, limit: nat)
    requires limit > 0
    ensures exists pages: nat :: LastEnd(length, offset, limit) == offset + pages * limit
    decreases length - offset
  {
    if length > offset + limit {
      LastEndIsWhole(length, offset + limit, limit);
      var pages: nat :| LastEnd(length, offset + limit, limit) == offset + limit + pages * limit;
      assert LastEnd(length, offset, limit) == offset + (pages + 1) * limit;
    } else {
      assert LastEnd(length, offset, limit) == offset + 1 * limit;
    }
  }

  /** A client that asks for the next page as long as the answer says there is more gets the whole
      filtered list, nothing lost and nothing repeated, unless a page panics; and one does exactly if
      the last page would end beyond the largest capacity. */
  method CollectPages(all: seq<Option<Observation>>, f: Filters, limit: int)
      returns (items: seq<Option<Observation>>, panicked: bool)
    requires 0 < limit <= MAX_INT64 && |all| <= MAX_CAPACITY
    ensures panicked <==> LastEnd(|Matching(f, all)|, 0, limit) > MAX_CAPACITY
    ensures !panicked ==> items == Matching(f, all)
    ensures |all| + limit <= MAX_CAPACITY ==> !panicked
  {
    ghost var list := Matching(f, all);
    ghost var end := LastEnd(|list|, 0, limit);
    LastEndIs(|list|, 0, limit);
    items := [];
    var offset, more := 0, true;
    while more
      invariant 0 <= offset <= |list| && end == LastEnd(|list|, offset, limit)
      invariant offset > 0 ==> limit <= MAX_CAPACITY
      invariant items == if more then list[..offset] else list
      invariant !more ==> end <= MAX_CAPACITY
      decreases |list| - offset, more
    {
      LastEndIs(|list|, offset, limit);
      PageJoins(list, offset, limit);
      var page := GetObservations(all, f, limit, offset);
      if page.Panicked? {
        return items, true;
      }
      items := items + page.items;
      more := page.hasMore;
      if more {
        offset := offset + limit;
      }
    }
    return items, false;
  }
}
