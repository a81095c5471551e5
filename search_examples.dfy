/** Worked instances of the `search` getter on small caches. */
module SearchExamples {
  import opened Wrappers
  import opened Records
  import opened Text
  import opened SearchRanker

  /**
   * Of two matching activities with the same (project, description) pair,
   * only the more recent is suggested.
   */
  lemma DuplicatePairsCollapse(older: Activity, newer: Activity, other: Activity, q: string)
    requires q != []
    requires Matches(older, q) && Matches(newer, q) && !Matches(other, q)
    requires KeyOf(older) == KeyOf(newer) && older.startedAt < newer.startedAt
    ensures Search([older, newer, other], q) == [newer]
  {
    var all := [older, newer, other];
    calc {
      Matching(all, q);
      { MatchingCons(older, [newer, other], q); }
      [older] + Matching([newer, other], q);
      { MatchingCons(newer, [other], q); }
      [older] + ([newer] + Matching([other], q));
      { MatchingCons(other, [], q); }
      [older] + ([newer] + []);
      [older, newer];
    }
    calc {
      Search(all, q);
      UniqByKey(Take(RankByRecency(Matching(all, q)), SuggestionLimit));
      { RankTwo(newer, older); }
      UniqByKey(Take([newer, older], SuggestionLimit));
      { assert Take([newer, older], SuggestionLimit) == [newer, older]; }
      UniqByKey([newer, older]);
      { DedupTwo(newer, older); }
      [newer];
    }
  }

  lemma MatchingCons(x: Activity, s: seq<Activity>, q: string)
    ensures Matching([x] + s, q) == (if Matches(x, q) then [x] else []) + Matching(s, q)
  {
    assert ([x] + s)[1..] == s;
  }

  lemma RankCons(x: Activity, s: seq<Activity>)
    ensures RankByRecency([x] + s) == Insert(x, RankByRecency(s))
  {
    assert ([x] + s)[1..] == s;
  }

  lemma InsertFront(x: Activity, s: seq<Activity>)
    requires s == [] || x.startedAt >= s[0].startedAt
    ensures Insert(x, s) == [x] + s
  {
  }

  lemma InsertPast(x: Activity, y: Activity, s: seq<Activity>)
    requires x.startedAt < y.startedAt
    ensures Insert(x, [y] + s) == [y] + Insert(x, s)
  {
    assert ([y] + s)[1..] == s;
  }

  lemma RankOne(a: Activity)
    ensures RankByRecency([a]) == [a]
  {
    RankCons(a, []);
    InsertFront(a, []);
    assert [a] + [] == [a];
  }

  lemma RankTwo(a: Activity, b: Activity)
    requires a.startedAt > b.startedAt
    ensures RankByRecency([b, a]) == [a, b]
  {
    RankOne(a);
    RankCons(b, [a]);
    InsertPast(b, a, []);
    InsertFront(b, []);
    assert [b] + [a] == [b, a];
    assert [a] + [b] == [a, b];
  }

  lemma RankThree(a: Activity, b: Activity, c: Activity)
    requires a.startedAt > b.startedAt > c.startedAt
    ensures RankByRecency([c, b, a]) == [a, b, c]
  {
    RankTwo(a, b);
    RankCons(c, [b, a]);
    InsertPast(c, a, [b]);
    InsertPast(c, b, []);
    InsertFront(c, []);
    assert [c] + [b, a] == [c, b, a];
    assert [b] + [c] == [b, c];
    assert [a] + [b, c] == [a, b, c];
  }

  /** Four activities started at strictly decreasing times, given oldest first, rank newest first. */
  lemma RankFour(a: Activity, b: Activity, c: Activity, d: Activity)
    requires a.startedAt > b.startedAt > c.startedAt > d.startedAt
    ensures RankByRecency([d, c, b, a]) == [a, b, c, d]
  {
    calc {
      RankByRecency([d, c, b, a]);
      { assert [d, c, b, a] == [d] + [c, b, a]; RankCons(d, [c, b, a]); }
      Insert(d, RankByRecency([c, b, a]));
      { RankThree(a, b, c); }
      Insert(d, [a] + [b, c]);
      { InsertPast(d, a, [b, c]); }
      [a] + Insert(d, [b] + [c]);
      { InsertPast(d, b, [c]); }
      [a] + ([b] + Insert(d, [c] + []));
      { InsertPast(d, c, []); InsertFront(d, []); }
      [a] + ([b] + ([c] + [d]));
      [a, b, c, d];
    }
  }

  /** Of two ranked activities sharing a pair, the second is dropped. */
  lemma DedupTwo(a: Activity, b: Activity)
    requires KeyOf(a) == KeyOf(b)
    ensures UniqByKey([a, b]) == [a]
  {
    var seen: set<PairKey> := {};
    assert [a, b][1..] == [b] && [b][1..] == [];
    assert seen + {KeyOf(a)} == {KeyOf(a)};
    assert UniqFrom([b], {KeyOf(a)}) == [];
    assert UniqFrom([a, b], seen) == [a] + UniqFrom([b], {KeyOf(a)});
  }

  /** Of three ranked activities whose first two share a pair, the second is dropped. */
  lemma DedupThree(a: Activity, b: Activity, c: Activity)
    requires KeyOf(a) == KeyOf(b) && KeyOf(c) != KeyOf(a)
    ensures UniqByKey([a, b, c]) == [a, c]
  {
    var seen: set<PairKey> := {};
    assert [a, b, c][1..] == [b, c] && [b, c][1..] == [c] && [c][1..] == [];
    assert seen + {KeyOf(a)} == {KeyOf(a)};
    assert UniqFrom([c], {KeyOf(a)}) == [c] + UniqFrom([], {KeyOf(a), KeyOf(c)});
    assert UniqFrom([b, c], {KeyOf(a)}) == [c];
    assert UniqFrom([a, b, c], seen) == [a] + UniqFrom([b, c], {KeyOf(a)});
  }

  /**
   * The cap is taken before de-duplication: with four matches holding three
   * distinct pairs, where the two most recent share a pair, only two
   * suggestions come back and the oldest pair is not among them.
   */
  lemma CapPrecedesDedup(a: Activity, b: Activity, c: Activity, d: Activity, q: string)
    requires q != []
    requires Matches(a, q) && Matches(b, q) && Matches(c, q) && Matches(d, q)
    requires a.startedAt > b.startedAt > c.startedAt > d.startedAt
    requires KeyOf(a) == KeyOf(b) && KeyOf(c) != KeyOf(a)
    ensures Search([d, c, b, a], q) == [a, c]
  {
    var all := [d, c, b, a];
    MatchAllFour(a, b, c, d, q);
    calc {
      Search(all, q);
      UniqByKey(Take(RankByRecency(Matching(all, q)), SuggestionLimit));
      { RankFour(a, b, c, d); }
      UniqByKey(Take([a, b, c, d], SuggestionLimit));
      { assert Take([a, b, c, d], SuggestionLimit) == [a, b, c]; }
      UniqByKey([a, b, c]);
      { DedupThree(a, b, c); }
      [a, c];
    }
  }

  lemma MatchAllFour(a: Activity, b: Activity, c: Activity, d: Activity, q: string)
    requires Matches(a, q) && Matches(b, q) && Matches(c, q) && Matches(d, q)
    ensures Matching([d, c, b, a], q) == [d, c, b, a]
  {
    calc {
      Matching([d, c, b, a], q);
      { MatchingCons(d, [c, b, a], q); }
      [d] + Matching([c, b, a], q);
      { MatchingCons(c, [b, a], q); }
      [d] + ([c] + Matching([b, a], q));
      { MatchingCons(b, [a], q); }
      [d] + ([c] + ([b] + Matching([a], q)));
      { MatchingCons(a, [], q); }
      [d] + ([c] + ([b] + ([a] + [])));
      [d, c, b, a];
    }
  }

  const Hackaru := Project(1, "hackaru", "#cddc39")

  /** A description that starts with the query is found at position 0. */
  lemma FoundAsPrefix(d: string, q: string)
    requires |q| <= |d| && d[..|q|] == q
    ensures IndexOf(d, q) == 0
  {
    assert d[0..|q|] == q;
  }

  /** "fix bug" does not contain "build". */
  lemma FixBugLacksBuild()
    ensures IndexOf("fix bug", "build") == -1
  {
    var q := "build";
    assert "fix bug"[0..5] != q && "fix bug"[1..6] != q && "fix bug"[2..7] != q by {
      assert "fix bug"[0..5][0] != q[0];
      assert "fix bug"[1..6][0] != q[0];
      assert "fix bug"[2..7][0] != q[0];
    }
  }

  /**
   * Descriptions "build api", "build api", "fix bug", the first two in the
   * same project: "build" suggests the more recent "build api" alone, and
   * the empty query suggests nothing.
   */
  lemma BuildApiExample()
    ensures var older := Activity(1, Some(Hackaru), Some("build api"), 100, Some(150));
            var newer := Activity(2, Some(Hackaru), Some("build api"), 200, Some(250));
            var other := Activity(3, Some(Hackaru), Some("fix bug"), 300, None);
            Search([older, newer, other], "build") == [newer] &&
            Search([older, newer, other], "") == []
  {
    var older := Activity(1, Some(Hackaru), Some("build api"), 100, Some(150));
    var newer := Activity(2, Some(Hackaru), Some("build api"), 200, Some(250));
    var other := Activity(3, Some(Hackaru), Some("fix bug"), 300, None);
    FoundAsPrefix("build api", "build");
    FixBugLacksBuild();
    DuplicatePairsCollapse(older, newer, other, "build");
  }
}
