/**
 * The `working` getter: the running timer is the first cached activity whose
 * `stoppedAt` is unset.
 */
module WorkingActivity {
  import opened Wrappers
  import opened Records
  import opened EntityStore

  /** `all.find(({ stoppedAt }) => !stoppedAt)`, in the store's enumeration order. */
  function Working(all: seq<Activity>): (r: Option<Activity>)
    ensures r.None? <==> forall a :: a in all ==> !IsRunning(a)
    ensures r.Some? ==> IsRunning(r.value) &&
                        exists i :: 0 <= i < |all| && all[i] == r.value &&
                                    forall j :: 0 <= j < i ==> !IsRunning(all[j])
  {
    if all == [] then None
    else if IsRunning(all[0]) then Some(all[0])
    else
      assert forall a :: a in all ==> a == all[0] || a in all[1..];
      Working(all[1..])
  }

  /** The single-active-timer invariant: at most one cached activity is running. */
  predicate AtMostOneRunning(all: seq<Activity>) {
    forall i, j :: 0 <= i < |all| && 0 <= j < |all| && IsRunning(all[i]) && IsRunning(all[j]) ==> all[i] == all[j]
  }

  /** The running activities in the store, as a set. */
  function RunningSet(all: seq<Activity>): set<Activity> {
    set a | a in all && IsRunning(a)
  }

  /** The invariant says exactly that the set of running activities has at most one element. */
  lemma AtMostOneRunningCount(all: seq<Activity>)
    ensures AtMostOneRunning(all) <==> |RunningSet(all)| <= 1
  {
    var rs := RunningSet(all);
    if AtMostOneRunning(all) && rs != {} {
      var x :| x in rs;
      forall a | a in rs ensures a == x {
        var i :| 0 <= i < |all| && all[i] == a;
        var k :| 0 <= k < |all| && all[k] == x;
      }
      assert rs == {x};
    }
    if !AtMostOneRunning(all) {
      var i, j :| 0 <= i < |all| && 0 <= j < |all| && IsRunning(all[i]) && IsRunning(all[j]) && all[i] != all[j];
      var rest := rs - {all[i]};
      assert all[j] in rest;
      assert rs == rest + {all[i]};
    }
  }

  /** Under the invariant, `working` is the one running activity, whatever the store order. */
  lemma {:induction false} WorkingIsTheRunningOne(all: seq<Activity>, a: Activity)
    requires AtMostOneRunning(all)
    ensures Working(all) == Some(a) <==> a in all && IsRunning(a)
  {
  }

  /**
   * Merging the server's stopped record for the working activity leaves no
   * running timer.
   */
  lemma {:induction false} StopEndsWorking(all: seq<Activity>, rec: Activity)
    requires UniqueIds(all) && AtMostOneRunning(all)
    requires Working(all).Some? && rec.id == Working(all).value.id
    requires !IsRunning(rec)
    ensures Working(Merge(all, rec)).None?
    ensures AtMostOneRunning(Merge(all, rec))
  {
    var w := Working(all).value;
    MergeUnique(all, rec);
    forall a | a in all && IsRunning(a) ensures a == w {
      var k :| 0 <= k < |all| && all[k] == w;
      var i :| 0 <= i < |all| && all[i] == a;
    }
  }

  /**
   * With no timer running, merging the record of a newly started activity
   * makes it the working one and keeps the invariant.
   */
  lemma {:induction false} StartMakesWorking(all: seq<Activity>, rec: Activity)
    requires UniqueIds(all) && Working(all).None?
    requires IsRunning(rec)
    ensures Working(Merge(all, rec)) == Some(rec)
    ensures AtMostOneRunning(Merge(all, rec))
  {
    var r := Merge(all, rec);
    MergeUnique(all, rec);
    MergePlacement(all, rec);
    assert forall a :: a in all ==> !IsRunning(a);
    assert forall a :: a in r && IsRunning(a) ==> a == rec;
    assert AtMostOneRunning(r) by {
      forall i, j | 0 <= i < |r| && 0 <= j < |r| && IsRunning(r[i]) && IsRunning(r[j])
        ensures r[i] == r[j]
      {
        assert r[i] in r && r[j] in r;
      }
    }
    WorkingIsTheRunningOne(r, rec);
  }

  /**
   * Stopping the working activity and then starting a new one leaves the new
   * one as the only running timer.
   */
  lemma StopThenStartWorking(all: seq<Activity>, stopped: Activity, started: Activity)
    requires UniqueIds(all) && AtMostOneRunning(all)
    requires Working(all).Some? && stopped.id == Working(all).value.id
    requires !IsRunning(stopped) && IsRunning(started)
    ensures Working(Merge(Merge(all, stopped), started)) == Some(started)
    ensures AtMostOneRunning(Merge(Merge(all, stopped), started))
  {
    StopEndsWorking(all, stopped);
    MergeUnique(all, stopped);
    StartMakesWorking(Merge(all, stopped), started);
  }
}
