/**
 * The `search` getter: ranked, de-duplicated suggestions for a query, derived
 * from the cached activities.
 */
module SearchRanker {
  import opened Wrappers
  import opened Records
  import opened Text

  /** At most this many ranked matches are kept, before de-duplication. */
  const SuggestionLimit: nat := 3

  /** An activity matches a query when its description is truthy and contains the query. */
  predicate Matches(a: Activity, q: string) {
    HasDescription(a) && IndexOf(a.description.value, q) >= 0
  }

  /** The two `filter` steps: keep matching activities, in store order. */
  function Matching(all: seq<Activity>, q: string): (r: seq<Activity>)
    ensures forall a :: a in r <==> a in all && Matches(a, q)
    ensures |r| <= |all|
  {
    if all == [] then []
    else if Matches(all[0], q) then [all[0]] + Matching(all[1..], q)
    else Matching(all[1..], q)
  }

  /** Each matching activity is kept as often as it occurs, and no other is kept. */
  lemma {:induction false} MatchingCounts(all: seq<Activity>, q: string)
    ensures forall a :: multiset(Matching(all, q))[a] == if Matches(a, q) then multiset(all)[a] else 0
  {
    if all != [] {
      MatchingCounts(all[1..], q);
      assert all == [all[0]] + all[1..];
    }
  }

  /** Most recent first: `startedAt` never increases along the sequence. */
  predicate NonIncreasing(s: seq<Activity>) {
    forall i, j :: 0 <= i < j < |s| ==> s[i].startedAt >= s[j].startedAt
  }

  /**
   * Insert `x` into a ranked sequence, ahead of every activity that started
   * at the same time or earlier (so `x` stays ahead of its ties).
   */
  function Insert(x: Activity, s: seq<Activity>): (r: seq<Activity>)
    ensures |r| == |s| + 1
  {
    if s == [] || x.startedAt >= s[0].startedAt then [x] + s
    else [s[0]] + Insert(x, s[1..])
  }

  /** Inserting adds exactly `x` and loses nothing. */
  lemma {:induction false} InsertPermutes(x: Activity, s: seq<Activity>)
    ensures multiset(Insert(x, s)) == multiset(s) + multiset{x}
  {
    if s != [] && x.startedAt < s[0].startedAt {
      InsertPermutes(x, s[1..]);
      assert s == [s[0]] + s[1..];
    }
  }

  /** An insertion holds exactly the new element and the old ones. */
  lemma InsertMembers(x: Activity, s: seq<Activity>)
    ensures forall a :: a in Insert(x, s) <==> a == x || a in s
  {
    InsertPermutes(x, s);
    assert forall a :: a in Insert(x, s) <==> a in multiset(Insert(x, s));
  }

  /** The head of a newest-first sequence started no earlier than any of its elements. */
  lemma HeadIsNewest(s: seq<Activity>)
    requires s != [] && NonIncreasing(s)
    ensures forall a :: a in s ==> s[0].startedAt >= a.startedAt
  {
    forall a | a in s ensures s[0].startedAt >= a.startedAt {
      var i :| 0 <= i < |s| && s[i] == a;
    }
  }

  lemma {:induction false} InsertRanked(x: Activity, s: seq<Activity>)
    requires NonIncreasing(s)
    ensures NonIncreasing(Insert(x, s))
  {
    if s != [] && x.startedAt < s[0].startedAt {
      var t := s[1..];
      var rest := Insert(x, t);
      assert NonIncreasing(t) by {
        forall i, j | 0 <= i < j < |t| ensures t[i].startedAt >= t[j].startedAt {
          assert t[i] == s[i + 1] && t[j] == s[j + 1];
        }
      }
      InsertRanked(x, t);
      InsertMembers(x, t);
      HeadIsNewest(s);
      assert forall a :: a in t ==> a in s;
      var r := Insert(x, s);
      assert r == [s[0]] + rest;
      forall i, j | 0 <= i < j < |r| ensures r[i].startedAt >= r[j].startedAt {
        assert r[j] == rest[j - 1] && rest[j - 1] in rest;
        if i > 0 {
          assert r[i] == rest[i - 1];
        }
      }
    }
  }

  /**
   * `sort((a, b) => compareDesc(a.startedAt, b.startedAt))`: a stable sort,
   * most recent first.
   */
  function RankByRecency(s: seq<Activity>): (r: seq<Activity>)
    ensures |r| == |s|
  {
    if s == [] then [] else Insert(s[0], RankByRecency(s[1..]))
  }

  /** The ranking is a permutation of its input. */
  lemma {:induction false} RankPermutes(s: seq<Activity>)
    ensures multiset(RankByRecency(s)) == multiset(s)
  {
    if s != [] {
      RankPermutes(s[1..]);
      InsertPermutes(s[0], RankByRecency(s[1..]));
      assert s == [s[0]] + s[1..];
    }
  }

  /** The ranking is newest first. */
  lemma {:induction false} RankSorted(s: seq<Activity>)
    ensures NonIncreasing(RankByRecency(s))
  {
    if s != [] {
      RankSorted(s[1..]);
      InsertRanked(s[0], RankByRecency(s[1..]));
    }
  }

  /** The activities that started at `t`, in sequence order. */
  function StartedAt(s: seq<Activity>, t: int): seq<Activity> {
    if s == [] then []
    else if s[0].startedAt == t then [s[0]] + StartedAt(s[1..], t)
    else StartedAt(s[1..], t)
  }

  lemma {:induction false} InsertKeepsTies(x: Activity, s: seq<Activity>, t: int)
    ensures StartedAt(Insert(x, s), t) == (if x.startedAt == t then [x] else []) + StartedAt(s, t)
  {
    if s == [] || x.startedAt >= s[0].startedAt {
      assert ([x] + s)[1..] == s;
    } else {
      InsertKeepsTies(x, s[1..], t);
      var r := Insert(x, s);
      assert r[0] == s[0] && r[1..] == Insert(x, s[1..]);
    }
  }

  /** The ranking is stable: activities with equal `startedAt` keep their relative order. */
  lemma {:induction false} RankIsStable(s: seq<Activity>, t: int)
    ensures StartedAt(RankByRecency(s), t) == StartedAt(s, t)
  {
    if s != [] {
      RankIsStable(s[1..], t);
      InsertKeepsTies(s[0], RankByRecency(s[1..]), t);
    }
  }

  /** `slice(0, n)`: the first `n` elements, or all of them when there are fewer. */
  function Take(s: seq<Activity>, n: nat): (r: seq<Activity>)
    ensures |r| == if |s| < n then |s| else n
    ensures forall i :: 0 <= i < |r| ==> r[i] == s[i]
  {
    if |s| <= n then s else s[..n]
  }

  /** The cap keeps occurrences of its input and invents none. */
  lemma TakeIsSubMultiset(s: seq<Activity>, n: nat)
    ensures multiset(Take(s, n)) <= multiset(s)
  {
    var r := Take(s, n);
    assert s == r + s[|r|..];
  }

  /** The ranked matches after the cap, before de-duplication. */
  function TopRanked(all: seq<Activity>, q: string): (r: seq<Activity>)
    ensures |r| == if |Matching(all, q)| < SuggestionLimit then |Matching(all, q)| else SuggestionLimit
    ensures multiset(r) <= multiset(Matching(all, q))
    ensures NonIncreasing(r)
    ensures forall a :: a in r ==> a in all && Matches(a, q)
  {
    var ranked := RankByRecency(Matching(all, q));
    RankPermutes(Matching(all, q));
    RankSorted(Matching(all, q));
    TakeIsSubMultiset(ranked, SuggestionLimit);
    var r := Take(ranked, SuggestionLimit);
    assert forall a :: a in r ==> a in multiset(ranked);
    r
  }

  /** The de-duplication key: the (project, description) pair, compared structurally. */
  datatype PairKey = PairKey(project: Option<Project>, description: Option<string>)

  function KeyOf(a: Activity): PairKey {
    PairKey(a.project, a.description)
  }

  function KeysOf(s: seq<Activity>): set<PairKey> {
    set a | a in s :: KeyOf(a)
  }

  lemma KeysOfCons(x: Activity, s: seq<Activity>)
    ensures KeysOf([x] + s) == {KeyOf(x)} + KeysOf(s)
  {
    assert forall a :: a in [x] + s <==> a == x || a in s;
  }

  /** No two elements share a key. */
  predicate DistinctKeys(s: seq<Activity>) {
    forall i, j :: 0 <= i < j < |s| ==> KeyOf(s[i]) != KeyOf(s[j])
  }

  /** The position of the first element with key `k`, or `|s|` when there is none. */
  function FirstIndexOfKey(s: seq<Activity>, k: PairKey): (i: nat)
    ensures i <= |s|
    ensures i < |s| ==> KeyOf(s[i]) == k
    ensures forall j :: 0 <= j < i ==> KeyOf(s[j]) != k
  {
    if s == [] then 0
    else if KeyOf(s[0]) == k then 0
    else 1 + FirstIndexOfKey(s[1..], k)
  }

  /** `uniqBy` with the keys already in `seen` treated as taken. */
  function UniqFrom(s: seq<Activity>, seen: set<PairKey>): (r: seq<Activity>)
    ensures |r| <= |s|
    ensures forall j :: 0 <= j < |r| ==> KeyOf(r[j]) !in seen
    ensures DistinctKeys(r)
  {
    if s == [] then []
    else if KeyOf(s[0]) in seen then UniqFrom(s[1..], seen)
    else [s[0]] + UniqFrom(s[1..], seen + {KeyOf(s[0])})
  }

  /** Each kept element is the first one in `s` with its key. */
  lemma {:induction false} UniqFromKeepsFirst(s: seq<Activity>, seen: set<PairKey>)
    ensures forall j :: 0 <= j < |UniqFrom(s, seen)| ==>
              FirstIndexOfKey(s, KeyOf(UniqFrom(s, seen)[j])) < |s| &&
              s[FirstIndexOfKey(s, KeyOf(UniqFrom(s, seen)[j]))] == UniqFrom(s, seen)[j]
  {
    if s != [] {
      var r := UniqFrom(s, seen);
      var k0 := KeyOf(s[0]);
      var t := s[1..];
      if k0 in seen {
        UniqFromKeepsFirst(t, seen);
        forall j | 0 <= j < |r|
          ensures FirstIndexOfKey(s, KeyOf(r[j])) < |s| && s[FirstIndexOfKey(s, KeyOf(r[j]))] == r[j]
        {
          var x := FirstIndexOfKey(t, KeyOf(r[j]));
          assert FirstIndexOfKey(s, KeyOf(r[j])) == 1 + x;
          assert s[1 + x] == t[x];
        }
      } else {
        var rest := UniqFrom(t, seen + {k0});
        UniqFromKeepsFirst(t, seen + {k0});
        assert r == [s[0]] + rest;
        forall j | 0 < j < |r|
          ensures FirstIndexOfKey(s, KeyOf(r[j])) < |s| && s[FirstIndexOfKey(s, KeyOf(r[j]))] == r[j]
        {
          assert r[j] == rest[j - 1];
          var x := FirstIndexOfKey(t, KeyOf(rest[j - 1]));
          assert FirstIndexOfKey(s, KeyOf(r[j])) == 1 + x;
          assert s[1 + x] == t[x];
        }
      }
    }
  }

  /** The kept elements appear in the order of their keys' first occurrences in `s`. */
  lemma {:induction false} UniqFromKeepsOrder(s: seq<Activity>, seen: set<PairKey>)
    ensures forall i, j :: 0 <= i < j < |UniqFrom(s, seen)| ==>
              FirstIndexOfKey(s, KeyOf(UniqFrom(s, seen)[i])) < FirstIndexOfKey(s, KeyOf(UniqFrom(s, seen)[j]))
  {
    if s != [] {
      var r := UniqFrom(s, seen);
      var k0 := KeyOf(s[0]);
      var t := s[1..];
      if k0 in seen {
        UniqFromKeepsOrder(t, seen);
        forall j | 0 <= j < |r|
          ensures FirstIndexOfKey(s, KeyOf(r[j])) == 1 + FirstIndexOfKey(t, KeyOf(r[j]))
        {
        }
      } else {
        var rest := UniqFrom(t, seen + {k0});
        UniqFromKeepsOrder(t, seen + {k0});
        assert r == [s[0]] + rest;
        forall j | 0 < j < |r|
          ensures r[j] == rest[j - 1]
          ensures FirstIndexOfKey(s, KeyOf(r[j])) == 1 + FirstIndexOfKey(t, KeyOf(rest[j - 1]))
        {
          assert KeyOf(rest[j - 1]) != k0;
        }
      }
    }
  }

  /** Exactly the keys of `s` not already seen survive. */
  lemma {:induction false} UniqFromKeys(s: seq<Activity>, seen: set<PairKey>)
    ensures KeysOf(UniqFrom(s, seen)) == KeysOf(s) - seen
  {
    if s != [] {
      assert s == [s[0]] + s[1..];
      KeysOfCons(s[0], s[1..]);
      var k0 := KeyOf(s[0]);
      if k0 in seen {
        UniqFromKeys(s[1..], seen);
      } else {
        var rest := UniqFrom(s[1..], seen + {k0});
        UniqFromKeys(s[1..], seen + {k0});
        KeysOfCons(s[0], rest);
      }
    }
  }

  /**
   * `uniqBy(s, key)`: one element per key, the first occurrence of each, in
   * the order of first occurrence.
   */
  function UniqByKey(s: seq<Activity>): (r: seq<Activity>)
    ensures |r| <= |s|
    ensures DistinctKeys(r)
    ensures KeysOf(r) == KeysOf(s)
    ensures forall j :: 0 <= j < |r| ==>
              FirstIndexOfKey(s, KeyOf(r[j])) < |s| && s[FirstIndexOfKey(s, KeyOf(r[j]))] == r[j]
    ensures forall i, j :: 0 <= i < j < |r| ==>
              FirstIndexOfKey(s, KeyOf(r[i])) < FirstIndexOfKey(s, KeyOf(r[j]))
  {
    UniqFromKeepsFirst(s, {});
    UniqFromKeepsOrder(s, {});
    UniqFromKeys(s, {});
    UniqFrom(s, {})
  }

  /** The `search` getter. */
  function Search(all: seq<Activity>, q: string): (r: seq<Activity>)
    ensures q == [] ==> r == []
    ensures |r| <= SuggestionLimit
    ensures forall a :: a in r ==> a in all && HasDescription(a) && IsSubstring(q, a.description.value)
    ensures NonIncreasing(r)
    ensures DistinctKeys(r)
    ensures q != [] ==> KeysOf(r) == KeysOf(TopRanked(all, q))
    ensures q != [] ==> forall j :: 0 <= j < |r| ==>
              var top := TopRanked(all, q);
              FirstIndexOfKey(top, KeyOf(r[j])) < |top| && top[FirstIndexOfKey(top, KeyOf(r[j]))] == r[j]
  {
    if q == [] then []
    else
      var top := TopRanked(all, q);
      var r := UniqByKey(top);
      assert forall j :: 0 <= j < |r| ==> r[j] in top;
      r
  }

  /** The first ranked activity always survives de-duplication, at the head. */
  lemma UniqKeepsHead(s: seq<Activity>)
    requires s != []
    ensures UniqByKey(s) != [] && UniqByKey(s)[0] == s[0]
  {
  }

  /** A non-empty query with any match leads with the most recently started match. */
  lemma {:induction false} SearchLeadsWithMostRecent(all: seq<Activity>, q: string, a: Activity)
    requires q != [] && a in all && Matches(a, q)
    ensures Search(all, q) != []
    ensures Search(all, q)[0].startedAt >= a.startedAt
  {
    var matching := Matching(all, q);
    var ranked := RankByRecency(matching);
    RankPermutes(matching);
    RankSorted(matching);
    assert a in multiset(ranked);
    var k :| 0 <= k < |ranked| && ranked[k] == a;
    var top := TopRanked(all, q);
    assert top[0] == ranked[0];
    UniqKeepsHead(top);
  }

  /**
   * With at most `SuggestionLimit` matches the cap removes nothing: every
   * matching (project, description) pair is suggested once.
   */
  lemma {:induction false} SearchCompleteWhenFew(all: seq<Activity>, q: string)
    requires q != [] && |Matching(all, q)| <= SuggestionLimit
    ensures KeysOf(Search(all, q)) == KeysOf(Matching(all, q))
  {
    var matching := Matching(all, q);
    var ranked := RankByRecency(matching);
    RankPermutes(matching);
    assert TopRanked(all, q) == ranked;
    assert forall x :: x in ranked <==> x in multiset(ranked);
    assert forall x :: x in matching <==> x in multiset(matching);
  }

  /** The cap drops only matches that started no later than every kept one. */
  lemma {:induction false} TopRankedIsNewest(all: seq<Activity>, q: string)
    ensures forall a, b :: a in Matching(all, q) && a !in TopRanked(all, q) && b in TopRanked(all, q) ==>
              b.startedAt >= a.startedAt
  {
    var matching := Matching(all, q);
    var ranked := RankByRecency(matching);
    var top := TopRanked(all, q);
    RankPermutes(matching);
    RankSorted(matching);
    assert forall m :: 0 <= m < |top| ==> top[m] == ranked[m] && top[m] in top;
    forall a, b | a in matching && a !in top && b in top ensures b.startedAt >= a.startedAt {
      assert a in multiset(ranked);
      var k :| 0 <= k < |ranked| && ranked[k] == a;
      var i :| 0 <= i < |top| && top[i] == b;
      assert i < |top| <= k;
    }
  }

  /** A sequence has distinct pairs exactly when its tail does and its head's pair is new. */
  lemma DistinctCons(x: Activity, t: seq<Activity>)
    ensures DistinctKeys([x] + t) <==> DistinctKeys(t) && KeyOf(x) !in KeysOf(t)
  {
    var s := [x] + t;
    if DistinctKeys(s) {
      forall i, j | 0 <= i < j < |t| ensures KeyOf(t[i]) != KeyOf(t[j]) {
        assert t[i] == s[i + 1] && t[j] == s[j + 1];
      }
      forall a | a in t ensures KeyOf(a) != KeyOf(x) {
        var m :| 0 <= m < |t| && t[m] == a;
        assert s[0] == x && s[m + 1] == a;
      }
    }
    if DistinctKeys(t) && KeyOf(x) !in KeysOf(t) {
      forall i, j | 0 <= i < j < |s| ensures KeyOf(s[i]) != KeyOf(s[j]) {
        assert s[j] == t[j - 1];
        if i > 0 {
          assert s[i] == t[i - 1];
        }
      }
    }
  }

  /** Inserting adds exactly the new element's pair. */
  lemma InsertKeys(x: Activity, s: seq<Activity>)
    ensures KeysOf(Insert(x, s)) == {KeyOf(x)} + KeysOf(s)
  {
    InsertPermutes(x, s);
    var r := Insert(x, s);
    assert forall a :: a in r <==> a in multiset(r);
    assert forall a :: a in s <==> a in multiset(s);
  }

  /** Inserting an activity with a fresh pair keeps the pairs distinct. */
  lemma {:induction false} InsertKeepsDistinct(x: Activity, s: seq<Activity>)
    requires DistinctKeys(s) && KeyOf(x) !in KeysOf(s)
    ensures DistinctKeys(Insert(x, s))
  {
    if s == [] || x.startedAt >= s[0].startedAt {
      DistinctCons(x, s);
    } else {
      var t := s[1..];
      assert s == [s[0]] + t;
      DistinctCons(s[0], t);
      KeysOfCons(s[0], t);
      InsertKeepsDistinct(x, t);
      InsertKeys(x, t);
      DistinctCons(s[0], Insert(x, t));
    }
  }

  /** Ranking keeps distinct pairs distinct. */
  lemma {:induction false} RankKeepsDistinct(s: seq<Activity>)
    requires DistinctKeys(s)
    ensures DistinctKeys(RankByRecency(s))
  {
    if s != [] {
      var t := s[1..];
      assert s == [s[0]] + t;
      DistinctCons(s[0], t);
      RankKeepsDistinct(t);
      RankKeys(t);
      InsertKeepsDistinct(s[0], RankByRecency(t));
    }
  }

  /** Ranking keeps the set of pairs. */
  lemma RankKeys(s: seq<Activity>)
    ensures KeysOf(RankByRecency(s)) == KeysOf(s)
  {
    RankPermutes(s);
    var r := RankByRecency(s);
    assert forall a :: a in r <==> a in multiset(r);
    assert forall a :: a in s <==> a in multiset(s);
  }

  /** De-duplication changes nothing when the pairs are already distinct and unseen. */
  lemma {:induction false} UniqFromDistinct(s: seq<Activity>, seen: set<PairKey>)
    requires DistinctKeys(s) && forall a :: a in s ==> KeyOf(a) !in seen
    ensures UniqFrom(s, seen) == s
  {
    if s != [] {
      var t := s[1..];
      var k0 := KeyOf(s[0]);
      forall a | a in t ensures KeyOf(a) !in seen + {k0} {
        var m :| 0 <= m < |t| && t[m] == a;
        assert s[m + 1] == a;
      }
      UniqFromDistinct(t, seen + {k0});
      assert s == [s[0]] + t;
    }
  }

  /**
   * When every match has its own (project, description) pair, the cap alone
   * decides: `SuggestionLimit` suggestions, or all matches when there are
   * fewer.
   */
  lemma {:induction false} SearchFullWhenPairsDistinct(all: seq<Activity>, q: string)
    requires q != [] && DistinctKeys(Matching(all, q))
    ensures Search(all, q) == TopRanked(all, q)
    ensures |Search(all, q)| == if |Matching(all, q)| < SuggestionLimit then |Matching(all, q)| else SuggestionLimit
  {
    var matching := Matching(all, q);
    var ranked := RankByRecency(matching);
    RankKeepsDistinct(matching);
    var top := TopRanked(all, q);
    assert top == Take(ranked, SuggestionLimit);
    assert DistinctKeys(top) by {
      forall i, j | 0 <= i < j < |top| ensures KeyOf(top[i]) != KeyOf(top[j]) {
        assert top[i] == ranked[i] && top[j] == ranked[j];
      }
    }
    UniqFromDistinct(top, {});
  }
}
