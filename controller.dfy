/**
 * The activities store module: its two power-event flags, the activities in
 * the shared entity cache, and the actions that talk to the server.
 *
 * Every server call is an explicit `Response` argument, the outcome of the
 * request the action sends; the requests themselves and the notifications
 * shown are recorded in order so that what an action sends can be stated.
 */
module Activities {
  import opened Wrappers
  import opened Records
  import opened EntityStore
  import WorkingActivity
  import opened Notification

  /** The outcome of a request: the parsed response body, or a transport or HTTP error. */
  datatype Response<T> = Ok(data: T) | Failed

  /** The body of `PUT /v1/activities/:id`. */
  datatype UpdateBody =
    | WholeActivity(activity: Activity)        // `update`: the caller's payload as given
    | StoppedAt(id: int, stoppedAt: int)       // `stop`: only the id and the stop time

  /** The body of `POST /v1/activities`: what the caller asks the server to start. */
  datatype Draft = Draft(project: Option<Project>, description: Option<string>, startedAt: int)

  /** A request sent to the server. */
  datatype Request =
    | SearchRequest(q: string)                 // GET /v1/search?q=
    | FetchWorkingRequest                      // GET /v1/activities/working
    | UpdateRequest(id: int, body: UpdateBody) // PUT /v1/activities/:id
    | CreateRequest(draft: Draft)              // POST /v1/activities
    | DeleteRequest(id: int)                   // DELETE /v1/activities/:id

  class ActivityController {
    var stopOnSuspend: bool
    var stopOnShutdown: bool
    /** The activities of the shared entity cache, in enumeration order. */
    var store: seq<Activity>
    /** Every request sent so far, oldest first. */
    var requests: seq<Request>
    /** Every notification shown so far, oldest first. */
    var notices: seq<Notice>

    /** The cache is keyed by id. */
    ghost predicate Valid()
      reads this
    {
      UniqueIds(store)
    }

    /** The initial state: both flags on; `cache` is the shared entity cache handed in. */
    constructor (cache: seq<Activity>)
      requires UniqueIds(cache)
      ensures Valid()
      ensures stopOnSuspend && stopOnShutdown
      ensures store == cache && requests == [] && notices == []
    {
      stopOnSuspend := true;
      stopOnShutdown := true;
      store := cache;
      requests := [];
      notices := [];
    }

    /** `actions.search`: ask the server for matches and merge the returned batch. */
    method Search(q: string, response: Response<seq<Activity>>)
      requires Valid()
      modifies this`store, this`requests
      ensures Valid()
      ensures requests == old(requests) + [SearchRequest(q)]
      ensures store == if response.Ok? then MergeAll(old(store), response.data) else old(store)
    {
      requests := requests + [SearchRequest(q)];
      if response.Ok? {
        store := MergeAll(store, response.data);
      }
    }

    /** `actions.fetchWorking`: ask the server for the running activity and merge it. */
    method FetchWorking(response: Response<Activity>)
      requires Valid()
      modifies this`store, this`requests
      ensures Valid()
      ensures requests == old(requests) + [FetchWorkingRequest]
      ensures store == if response.Ok? then Merge(old(store), response.data) else old(store)
    {
      requests := requests + [FetchWorkingRequest];
      if response.Ok? {
        MergeUnique(store, response.data);
        store := Merge(store, response.data);
      }
    }

    /** `actions.update`: send the whole payload to its id; merge the server's record on success. */
    method Update(payload: Activity, response: Response<Activity>) returns (ok: bool)
      requires Valid()
      modifies this`store, this`requests
      ensures Valid()
      ensures requests == old(requests) + [UpdateRequest(payload.id, WholeActivity(payload))]
      ensures ok <==> response.Ok?
      ensures store == if ok then Merge(old(store), response.data) else old(store)
    {
      requests := requests + [UpdateRequest(payload.id, WholeActivity(payload))];
      if response.Ok? {
        MergeUnique(store, response.data);
        store := Merge(store, response.data);
        ok := true;
      } else {
        ok := false;
      }
    }

    /**
     * `actions.stop`: with no working activity, nothing happens and the result
     * is undefined (`None`). Otherwise the working activity's id is sent with
     * the stop time `now`; on success the server's record is merged, a
     * "Timer Stopped." notice built from that record is shown, and the result
     * is true; on failure the result is false and the cache is untouched.
     */
    method Stop(now: int, response: Response<Activity>) returns (result: Option<bool>)
      requires Valid()
      modifies this`store, this`requests, this`notices
      ensures Valid()
      ensures WorkingActivity.Working(old(store)).None? ==>
                result.None? && store == old(store) && requests == old(requests) && notices == old(notices)
      ensures WorkingActivity.Working(old(store)).Some? ==>
                var id := WorkingActivity.Working(old(store)).value.id;
                && requests == old(requests) + [UpdateRequest(id, StoppedAt(id, now))]
                && result == Some(response.Ok?)
                && store == (if response.Ok? then Merge(old(store), response.data) else old(store))
                && notices == old(notices) + (if response.Ok? then [Notice(StoppedTitle, Message(response.data))] else [])
    {
      var working := WorkingActivity.Working(store);
      if working.None? {
        return None;
      }
      var id := working.value.id;
      requests := requests + [UpdateRequest(id, StoppedAt(id, now))];
      if response.Ok? {
        MergeUnique(store, response.data);
        store := Merge(store, response.data);
        notices := notices + [Notice(StoppedTitle, Message(response.data))];
        result := Some(true);
      } else {
        result := Some(false);
      }
    }

    /**
     * `actions.add`: ask the server to start an activity; on success merge the
     * server's record and show a "Timer Started." notice built from it. No
     * running activity is stopped first.
     */
    method Add(payload: Draft, response: Response<Activity>) returns (ok: bool)
      requires Valid()
      modifies this`store, this`requests, this`notices
      ensures Valid()
      ensures requests == old(requests) + [CreateRequest(payload)]
      ensures ok <==> response.Ok?
      ensures store == if ok then Merge(old(store), response.data) else old(store)
      ensures notices == old(notices) + if ok then [Notice(StartedTitle, Message(response.data))] else []
    {
      requests := requests + [CreateRequest(payload)];
      if response.Ok? {
        MergeUnique(store, response.data);
        store := Merge(store, response.data);
        notices := notices + [Notice(StartedTitle, Message(response.data))];
        ok := true;
      } else {
        ok := false;
      }
    }

    /**
     * `actions.delete`: the record leaves the cache before the request is
     * sent, and stays gone whatever the server answers.
     */
    method Delete(id: int, response: Response<()>) returns (ok: bool)
      requires Valid()
      modifies this`store, this`requests
      ensures Valid()
      ensures store == Remove(old(store), id)
      ensures requests == old(requests) + [DeleteRequest(id)]
      ensures ok <==> response.Ok?
    {
      RemoveUnique(store, id);
      store := Remove(store, id);
      requests := requests + [DeleteRequest(id)];
      ok := response.Ok?;
    }

    /** `actions.setStopOnSuspend`, committing the SET_STOP_ON_SUSPEND mutation. */
    method SetStopOnSuspend(flag: bool)
      modifies this`stopOnSuspend
      ensures stopOnSuspend == flag
    {
      stopOnSuspend := flag;
    }

    /** `actions.setStopOnShutdown`, committing the SET_STOP_ON_SHUTDOWN mutation. */
    method SetStopOnShutdown(flag: bool)
      modifies this`stopOnShutdown
      ensures stopOnShutdown == flag
    {
      stopOnShutdown := flag;
    }
  }

  /**
   * A client of the controller: stopping the single running timer and then
   * starting a new one leaves exactly the new one running; one update and one
   * create request are sent, and a "Timer Stopped." then a "Timer Started."
   * notice are shown.
   */
  method StopThenStart(c: ActivityController, now: int, stopped: Activity, started: Activity, payload: Draft)
    requires c.Valid() && WorkingActivity.AtMostOneRunning(c.store)
    requires WorkingActivity.Working(c.store).Some? && stopped.id == WorkingActivity.Working(c.store).value.id
    requires !IsRunning(stopped) && IsRunning(started)
    modifies c
    ensures WorkingActivity.Working(c.store) == Some(started)
    ensures WorkingActivity.AtMostOneRunning(c.store)
    ensures c.notices == old(c.notices) + [Notice(StoppedTitle, Message(stopped)), Notice(StartedTitle, Message(started))]
    ensures c.requests == old(c.requests) + [UpdateRequest(stopped.id, StoppedAt(stopped.id, now)), CreateRequest(payload)]
  {
    var notices0, requests0 := c.notices, c.requests;
    WorkingActivity.StopThenStartWorking(c.store, stopped, started);
    var r := c.Stop(now, Ok(stopped));
    var ok := c.Add(payload, Ok(started));
    AppendTwo(notices0, Notice(StoppedTitle, Message(stopped)), Notice(StartedTitle, Message(started)));
    AppendTwo(requests0, UpdateRequest(stopped.id, StoppedAt(stopped.id, now)), CreateRequest(payload));
  }

  lemma AppendTwo<T>(s: seq<T>, x: T, y: T)
    ensures s + [x] + [y] == s + [x, y]
  {
  }
}
