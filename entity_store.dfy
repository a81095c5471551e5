/**
 * The slice of the normalized entity cache that holds activities: a sequence
 * in the order the cache enumerates them, read as a dictionary keyed by id.
 */
module EntityStore {
  import opened Records

  /** No two records in the store share an id. */
  predicate UniqueIds(s: seq<Activity>) {
    forall i, j :: 0 <= i < j < |s| ==> s[i].id != s[j].id
  }

  function IdsOf(s: seq<Activity>): set<int> {
    set a | a in s :: a.id
  }

  lemma IdsOfCons(x: Activity, s: seq<Activity>)
    ensures IdsOf([x] + s) == {x.id} + IdsOf(s)
  {
    assert forall a :: a in [x] + s <==> a == x || a in s;
  }

  /** The store as a dictionary from id to record (an earlier record shadows a later one). */
  function AsMap(s: seq<Activity>): (m: map<int, Activity>)
    ensures forall k :: k in m ==> m[k].id == k
  {
    if s == [] then map[] else AsMap(s[1..])[s[0].id := s[0]]
  }

  /**
   * Every value of the dictionary is a stored record, and with distinct ids
   * looking up a record's id finds that record.
   */
  lemma {:induction false} AsMapLookup(s: seq<Activity>)
    ensures forall k :: k in AsMap(s) ==> AsMap(s)[k] in s
    ensures UniqueIds(s) ==> forall a :: a in s ==> a.id in AsMap(s) && AsMap(s)[a.id] == a
  {
    if s != [] {
      var t := s[1..];
      AsMapLookup(t);
      assert s == [s[0]] + t;
      if UniqueIds(s) {
        assert UniqueIds(t) by {
          forall i, j | 0 <= i < j < |t| ensures t[i].id != t[j].id {
            assert t[i] == s[i + 1] && t[j] == s[j + 1];
          }
        }
        forall a | a in t ensures a.id != s[0].id {
          var m :| 0 <= m < |t| && t[m] == a;
          assert s[m + 1] == a;
        }
      }
    }
  }

  /** The dictionary's keys are exactly the ids in the store. */
  lemma {:induction false} AsMapKeys(s: seq<Activity>)
    ensures AsMap(s).Keys == IdsOf(s)
  {
    if s != [] {
      AsMapKeys(s[1..]);
      IdsOfCons(s[0], s[1..]);
      assert s == [s[0]] + s[1..];
    }
  }

  /**
   * `entities/merge` of one record: the record with the same id is replaced
   * where it stands, or the record is appended when its id is new.
   */
  function Merge(s: seq<Activity>, rec: Activity): (r: seq<Activity>)
    ensures |s| <= |r| <= |s| + 1
  {
    if s == [] then [rec]
    else if s[0].id == rec.id then [rec] + s[1..]
    else [s[0]] + Merge(s[1..], rec)
  }

  /**
   * Where the merged record lands: in place of the record with its id, or
   * at the end when the id is new; every record with another id keeps its
   * position.
   */
  lemma {:induction false} MergePlacement(s: seq<Activity>, rec: Activity)
    ensures rec in Merge(s, rec)
    ensures forall i :: 0 <= i < |s| && s[i].id != rec.id ==> Merge(s, rec)[i] == s[i]
    ensures rec.id in IdsOf(s) ==> |Merge(s, rec)| == |s|
    ensures rec.id !in IdsOf(s) ==> Merge(s, rec) == s + [rec]
  {
    if s != [] {
      assert s == [s[0]] + s[1..];
      IdsOfCons(s[0], s[1..]);
      if s[0].id != rec.id {
        MergePlacement(s[1..], rec);
        var r := Merge(s, rec);
        assert r == [s[0]] + Merge(s[1..], rec);
        forall i | 0 <= i < |s| && s[i].id != rec.id ensures r[i] == s[i] {
          if i > 0 {
            assert r[i] == Merge(s[1..], rec)[i - 1] && s[i] == s[1..][i - 1];
          }
        }
      }
    }
  }

  /** Merging sets the record's id to the record and leaves every other id alone. */
  lemma {:induction false} MergeAsMap(s: seq<Activity>, rec: Activity)
    ensures AsMap(Merge(s, rec)) == AsMap(s)[rec.id := rec]
  {
    if s == [] {
    } else if s[0].id == rec.id {
      var r := Merge(s, rec);
      assert r[1..] == s[1..];
      assert AsMap(r) == AsMap(s[1..])[rec.id := rec];
    } else {
      var r := Merge(s, rec);
      assert r[0] == s[0] && r[1..] == Merge(s[1..], rec);
      MergeAsMap(s[1..], rec);
      assert AsMap(r) == AsMap(s[1..])[rec.id := rec][s[0].id := s[0]];
    }
  }

  /** Merging into a store with distinct ids keeps them distinct and replaces the only record with that id. */
  lemma {:induction false} MergeUnique(s: seq<Activity>, rec: Activity)
    ensures UniqueIds(s) ==> UniqueIds(Merge(s, rec))
    ensures UniqueIds(s) ==> forall a :: a in Merge(s, rec) ==> a == rec || (a in s && a.id != rec.id)
  {
    if s != [] && s[0].id != rec.id {
      MergeUnique(s[1..], rec);
    }
  }

  /** `entities/merge` of an array of records, applied in order. */
  function MergeAll(s: seq<Activity>, recs: seq<Activity>): (r: seq<Activity>)
    ensures UniqueIds(s) ==> UniqueIds(r)
    decreases |recs|
  {
    if recs == [] then s
    else
      MergeUnique(s, recs[0]);
      MergeAll(Merge(s, recs[0]), recs[1..])
  }

  /** After merging a batch, the ids are the old ones plus the batch's. */
  lemma {:induction false} MergeAllKeys(s: seq<Activity>, recs: seq<Activity>)
    ensures AsMap(MergeAll(s, recs)).Keys == AsMap(s).Keys + IdsOf(recs)
    decreases |recs|
  {
    if recs != [] {
      var s' := Merge(s, recs[0]);
      assert MergeAll(s, recs) == MergeAll(s', recs[1..]);
      MergeAsMap(s, recs[0]);
      MergeAllKeys(s', recs[1..]);
      IdsOfCons(recs[0], recs[1..]);
      assert recs == [recs[0]] + recs[1..];
    }
  }

  /** An id outside the batch keeps its record. */
  lemma {:induction false} MergeAllKeepsOthers(s: seq<Activity>, recs: seq<Activity>)
    ensures forall id :: id in AsMap(s) && id !in IdsOf(recs) ==>
                         id in AsMap(MergeAll(s, recs)) && AsMap(MergeAll(s, recs))[id] == AsMap(s)[id]
    decreases |recs|
  {
    if recs != [] {
      var s' := Merge(s, recs[0]);
      assert MergeAll(s, recs) == MergeAll(s', recs[1..]);
      MergeAsMap(s, recs[0]);
      MergeAllKeepsOthers(s', recs[1..]);
      IdsOfCons(recs[0], recs[1..]);
      assert recs == [recs[0]] + recs[1..];
    }
  }

  /** The last record of the batch with a given id is the one stored. */
  lemma {:induction false} MergeAllLastWins(s: seq<Activity>, recs: seq<Activity>)
    ensures forall i :: 0 <= i < |recs| && (forall j :: i < j < |recs| ==> recs[j].id != recs[i].id) ==>
                        recs[i].id in AsMap(MergeAll(s, recs)) && AsMap(MergeAll(s, recs))[recs[i].id] == recs[i]
    decreases |recs|
  {
    if recs != [] {
      var s' := Merge(s, recs[0]);
      var r := MergeAll(s, recs);
      assert r == MergeAll(s', recs[1..]);
      MergeAllLastWins(s', recs[1..]);
      forall i | 0 <= i < |recs| && (forall j :: i < j < |recs| ==> recs[j].id != recs[i].id)
        ensures recs[i].id in AsMap(r) && AsMap(r)[recs[i].id] == recs[i]
      {
        if i == 0 {
          MergeAsMap(s, recs[0]);
          MergeAllKeepsOthers(s', recs[1..]);
          assert forall a :: a in recs[1..] ==> a.id != recs[0].id;
          assert recs[0].id !in IdsOf(recs[1..]);
        } else {
          assert recs[i] == recs[1..][i - 1];
          assert forall j :: i - 1 < j < |recs| - 1 ==> recs[1..][j] == recs[j + 1];
        }
      }
    }
  }

  /** `entities/delete`: every record with the given id leaves the store. */
  function Remove(s: seq<Activity>, id: int): (r: seq<Activity>)
    ensures |r| <= |s|
  {
    if s == [] then []
    else if s[0].id == id then Remove(s[1..], id)
    else [s[0]] + Remove(s[1..], id)
  }

  /** After a delete the store holds exactly the old records with other ids. */
  lemma {:induction false} RemoveMembers(s: seq<Activity>, id: int)
    ensures forall a :: a in Remove(s, id) <==> a in s && a.id != id
  {
    if s != [] {
      RemoveMembers(s[1..], id);
      assert s == [s[0]] + s[1..];
    }
  }

  /** Deleting takes exactly that id out of the dictionary. */
  lemma {:induction false} RemoveAsMap(s: seq<Activity>, id: int)
    ensures AsMap(Remove(s, id)) == AsMap(s) - {id}
  {
    if s != [] {
      RemoveAsMap(s[1..], id);
      var rest := Remove(s[1..], id);
      var m := AsMap(s[1..]);
      if s[0].id == id {
        assert AsMap(Remove(s, id)) == m - {id};
        assert m[id := s[0]] - {id} == m - {id};
      } else {
        var r := Remove(s, id);
        assert r[0] == s[0] && r[1..] == rest;
        assert AsMap(r) == (m - {id})[s[0].id := s[0]];
        assert (m - {id})[s[0].id := s[0]] == m[s[0].id := s[0]] - {id};
      }
    }
  }

  /** Deleting keeps the ids distinct. */
  lemma {:induction false} RemoveUnique(s: seq<Activity>, id: int)
    ensures UniqueIds(s) ==> UniqueIds(Remove(s, id))
  {
    if s != [] && UniqueIds(s) {
      var t := s[1..];
      assert UniqueIds(t) by {
        forall i, j | 0 <= i < j < |t| ensures t[i].id != t[j].id {
          assert t[i] == s[i + 1] && t[j] == s[j + 1];
        }
      }
      RemoveUnique(t, id);
      if s[0].id != id {
        RemoveMembers(t, id);
        var rest := Remove(t, id);
        var r := Remove(s, id);
        assert r == [s[0]] + rest;
        forall i, j | 0 <= i < j < |r| ensures r[i].id != r[j].id {
          assert r[j] == rest[j - 1] && rest[j - 1] in t;
          if i == 0 {
            var m :| 0 <= m < |t| && t[m] == r[j];
            assert s[m + 1] == r[j];
          } else {
            assert r[i] == rest[i - 1];
          }
        }
      }
    }
  }

  /** Deleting an id twice leaves the store as deleting it once. */
  lemma {:induction false} RemoveIdempotent(s: seq<Activity>, id: int)
    ensures Remove(Remove(s, id), id) == Remove(s, id)
  {
    if s != [] {
      RemoveIdempotent(s[1..], id);
    }
  }
}
