/** The daemon's bounded least-recently-seen cache, shown to be the head of an unbounded recency
    list, and what that says about how often a removal is fanned out. */
module DedupCache {
  import opened Sequences

  const DEDUP_CAPACITY := 256

  /** `order` is the linked list, most recently seen in front; `entries` the index into it. */
  class Lru<K(==, !new)> {
    var order: seq<K>
    var entries: set<K>
    const capacity: nat

    ghost predicate Valid()
      reads this
    {
      && Distinct(order)
      && (forall k :: k in entries <==> k in order)
      && |order| <= Bound(capacity)
    }

    constructor (capacity: nat)
      ensures Valid() && order == [] && this.capacity == capacity
    {
      this.capacity := capacity;
      order, entries := [], {};
    }

    method Mark(k: K) returns (seen: bool)
      requires Valid()
      modifies this
      ensures Valid()
      ensures seen <==> k in old(order)
      ensures order == Marked(old(order), k, capacity)
    {
      if k in entries {
        order := [k] + Without(order, k);
        WithoutKeepsDistinct(old(order), k);
        return true;
      }
      if |order| >= capacity && |order| > 0 {
        var back := order[|order| - 1];
        order := order[..|order| - 1];
        entries := entries - {back};
      }
      order := [k] + order;
      entries := entries + {k};
      return false;
    }
  }

  /** How many keys a cache of this capacity holds: it always keeps the newest. */
  function Bound(capacity: nat): nat {
    if capacity == 0 then 1 else capacity
  }

  function Marked<K(==)>(order: seq<K>, k: K, capacity: nat): seq<K> {
    if k in order then [k] + Without(order, k)
    else if |order| >= capacity && |order| > 0 then [k] + order[..|order| - 1]
    else [k] + order
  }

  // ----- the specification: distinct keys, most recently seen first, nothing ever forgotten -----

  function Recency<K(==)>(history: seq<K>): seq<K> {
    if history == [] then [] else
      var k := history[|history| - 1];
      [k] + Without(Recency(history[..|history| - 1]), k)
  }

  function CacheAfter<K(==)>(history: seq<K>, capacity: nat): seq<K> {
    if history == [] then []
    else Marked(CacheAfter(history[..|history| - 1], capacity), history[|history| - 1], capacity)
  }

  function Head<K>(s: seq<K>, n: nat): seq<K> {
    if n < |s| then s[..n] else s
  }

  lemma {:induction false} RecencyIsDistinct<K(!new)>(history: seq<K>)
    ensures Distinct(Recency(history))
    ensures forall k :: k in Recency(history) <==> k in history
  {
    if history != [] {
      var front, last := history[..|history| - 1], history[|history| - 1];
      assert history == front + [last];
      RecencyIsDistinct(front);
      WithoutKeepsDistinct(Recency(front), last);
    }
  }

  /** Taking the head and dropping one of its keys commute. */
  lemma {:induction false} HeadWithout<K(!new)>(s: seq<K>, k: K, n: nat)
    requires Distinct(s)
    ensures k in Head(s, n) ==> n > 0 && Head(Without(s, k), n - 1) == Without(Head(s, n), k)
    ensures k !in Head(s, n) && n > 0 ==> Head(Without(s, k), n - 1) == Head(s, n - 1)
  {
    if s != [] && n > 0 {
      assert Distinct(s[1..]);
      if s[0] == k {
        assert Head(s, n) == [s[0]] + Head(s[1..], n - 1);
      } else {
        HeadWithout(s[1..], k, n - 1);
        assert Head(s, n) == [s[0]] + Head(s[1..], n - 1);
        if n > 1 {
          assert Head([s[0]] + Without(s[1..], k), n - 1) == [s[0]] + Head(Without(s[1..], k), n - 2);
          assert Head(s, n - 1) == [s[0]] + Head(s[1..], n - 2);
        }
      }
    }
  }

  /** The cache holds exactly the first `capacity` keys of the recency list, in the same order. */
  lemma {:induction false} CacheIsHeadOfRecency<K(!new)>(history: seq<K>, capacity: nat)
    ensures CacheAfter(history, capacity) == Head(Recency(history), Bound(capacity))
  {
    if history != [] {
      var front, k := history[..|history| - 1], history[|history| - 1];
      var n := Bound(capacity);
      var full := Recency(front);
      CacheIsHeadOfRecency(front, capacity);
      RecencyIsDistinct(front);
      HeadWithout(full, k, n);
      assert Head([k] + Without(full, k), n) == [k] + Head(Without(full, k), n - 1);
      if k !in Head(full, n) {
        if |Head(full, n)| >= capacity && |full| > 0 {
          assert Head(full, n)[..|Head(full, n)| - 1] == Head(full, n - 1);
        } else {
          assert k !in full;
        }
      }
    }
  }

  // ----- how far back a key is still remembered -----

  function Excluding<K(==)>(s: seq<K>, gone: seq<K>): seq<K> {
    if s == [] then [] else (if s[0] in gone then [] else [s[0]]) + Excluding(s[1..], gone)
  }

  lemma {:induction false} ExcludeNothing<K(!new)>(s: seq<K>)
    ensures Excluding(s, []) == s
  {
    if s != [] {
      ExcludeNothing(s[1..]);
    }
  }

  /** Leaving out some keys and then one more, from a list without repetitions. */
  lemma {:induction false} ExcludeOneMore<K(!new)>(s: seq<K>, gone: seq<K>, k: K)
    requires Distinct(s)
    ensures Without(Excluding(s, gone), k) == Excluding(s, gone + [k])
    ensures k !in s || k in gone ==> Excluding(s, gone + [k]) == Excluding(s, gone)
  {
    if s != [] {
      assert Distinct(s[1..]) && s[0] !in s[1..] && s == [s[0]] + s[1..];
      ExcludeOneMore(s[1..], gone, k);
      var rest := Excluding(s[1..], gone);
      assert [] + rest == rest && ([s[0]] + rest)[1..] == rest;
      assert s[0] in gone ==> s[0] in gone + [k];
    }
  }

  lemma {:induction false} WithoutConcat<K(!new)>(a: seq<K>, b: seq<K>, k: K)
    ensures Without(a + b, k) == if k in a then Without(a, k) + b else a + Without(b, k)
  {
    if a == [] {
      assert a + b == b;
    } else {
      var first, rest := a[0], a[1..];
      assert (a + b)[1..] == rest + b && a == [first] + rest;
      if first != k {
        WithoutConcat(rest, b, k);
        assert [first] + (Without(rest, k) + b) == ([first] + Without(rest, k)) + b;
        assert [first] + (rest + Without(b, k)) == ([first] + rest) + Without(b, k);
      }
    }
  }

  /** The recency list of a longer history: the newer keys first, then the older ones not seen again. */
  lemma {:induction false} RecencyOfConcat<K(!new)>(older: seq<K>, newer: seq<K>)
    ensures Recency(older + newer) == Recency(newer) + Excluding(Recency(older), newer)
  {
    if newer == [] {
      assert older + newer == older;
      ExcludeNothing(Recency(older));
    } else {
      var front, k := newer[..|newer| - 1], newer[|newer| - 1];
      assert newer == front + [k] && (older + newer)[..|older + newer| - 1] == older + front;
      RecencyOfConcat(older, front);
      RecencyIsDistinct(older);
      RecencyIsDistinct(front);
      RecencyStep(Recency(front), Recency(older), front, k);
      assert Recency(older + newer) == [k] + Without(Recency(front) + Excluding(Recency(older), front), k);
      assert Recency(newer) == [k] + Without(Recency(front), k);
    }
  }

  lemma RecencyStep<K(!new)>(recent: seq<K>, earlier: seq<K>, front: seq<K>, k: K)
    requires Distinct(recent) && Distinct(earlier) && (k in recent <==> k in front)
    ensures Without(recent + Excluding(earlier, front), k) == Without(recent, k) + Excluding(earlier, front + [k])
  {
    WithoutConcat(recent, Excluding(earlier, front), k);
    ExcludeOneMore(earlier, front, k);
    if k !in recent {
      WithoutAbsent(recent, k);
    }
  }

  /** When `Mark` reports a key as seen: exactly when it was seen before, and fewer than `capacity`
      different keys were seen since its last time. */
  lemma RememberedIffRecent<K(!new)>(before: seq<K>, k: K, since: seq<K>, capacity: nat)
    requires k !in since
    ensures k in CacheAfter(before + [k] + since, capacity) <==> |Elements(since)| < Bound(capacity)
  {
    var front := Recency(before + [k]);
    assert (before + [k])[..|before|] == before;
    var newer, older := Recency(since), Excluding(front, since);
    CacheIsHeadOfRecency(before + [k] + since, capacity);
    RecencyOfConcat(before + [k], since);
    RecencyIsDistinct(since);
    DistinctSize(newer);
    assert Elements(newer) == Elements(since);
    assert older[0] == k;
    if |newer| < Bound(capacity) {
      assert Head(newer + older, Bound(capacity))[|newer|] == k;
    } else {
      assert Head(newer + older, Bound(capacity)) == newer[..Bound(capacity)];
    }
  }
}
