/**
 * The customer store and the four endpoints of the backend as methods on it:
 * registration (`POST /api/customers`), the queue view (`GET /api/queue`),
 * serving next (`POST /api/queue/serve-next`) and the counts of
 * `GET /api/analytics`. The database table is the sequence `customers`.
 */
module Store {
  import opened Wrappers
  import opened Scoring
  import opened Text
  import opened Records
  import opened Views
  import QuickSort

  /** The `customer` object of a successful registration. */
  datatype Registration = Registration(queueNumber: string, fullName: string, priorityScore: int)

  /** The `nowServing` object of a serve-next response. */
  datatype NowServing = NowServing(queueNumber: string, fullName: string)

  /** The body of `GET /api/queue`. */
  datatype QueueStatus = QueueStatus(
    currentlyServing: Option<ServingView>,
    queue: seq<QueueEntry>,
    antiStarvationAlerts: seq<Alert>)

  /** The `ltoServiceAnalytics` object of `GET /api/analytics`. */
  datatype ServiceAnalytics = ServiceAnalytics(
    totalCustomersToday: nat,
    averageWaitTime: int,
    priorityCustomersServed: nat,
    currentQueueLength: nat)

  const MISSING_FIELDS: string := "Missing required fields"

  /** Step 4 of `serve_next_customer`: the list of ids and live scores of the waiting customers, in query order. */
  method CollectCandidates(cs: seq<Customer>, waiting: seq<nat>, now: int) returns (candidates: seq<Candidate>)
    requires forall k :: 0 <= k < |waiting| ==> waiting[k] < |cs|
    ensures candidates == Candidates(cs, waiting, now)
  {
    candidates := [];
    var i := 0;
    while i < |waiting|
      invariant 0 <= i <= |waiting|
      invariant candidates == Candidates(cs, waiting[..i], now)
    {
      var id := waiting[i];
      candidates := candidates + [Candidate(id, LiveScore(cs[id], now))];
      assert waiting[..i + 1] == waiting[..i] + [id];
      CandidatesSnoc(cs, waiting[..i], id, now);
      i := i + 1;
    }
    assert waiting[..i] == waiting;
  }

  /** Steps 3-5 of `serve_next_customer`: quick-sort the waiting customers by live score and take the head, if any. */
  method PickNext(cs: seq<Customer>, now: int) returns (next: Option<nat>)
    ensures next == ChooseNext(cs, now)
  {
    var waiting := IdsWithStatus(cs, Waiting);
    if waiting == [] {
      return None;
    }
    var candidates := CollectCandidates(cs, waiting, now);
    var sorted := QuickSort.Sort(candidates, CandidateScore);
    next := Some(sorted[0].id);
  }

  class CustomerStore {
    /** The rows of the `customers` table; a customer's id is its position. */
    var customers: seq<Customer>

    ghost predicate Valid()
      reads this
    {
      StoreInvariant(customers)
    }

    constructor ()
      ensures Valid() && customers == []
    {
      customers := [];
    }

    /**
     * `add_customer`: a request without `fullName` or `customerCategory` is
     * rejected and changes nothing; otherwise one waiting customer is appended,
     * numbered after the count of customers already stored.
     */
    method AddCustomer(req: Request, now: int) returns (r: Result<Registration, string>)
      requires Valid()
      modifies this
      ensures Valid()
      ensures r.Failure? <==> req.fullName.None? || req.customerCategory.None?
      ensures r.Failure? ==> r.error == MISSING_FIELDS && customers == old(customers)
      ensures r.Success? ==> customers == old(customers) + [NewCustomer(req, |old(customers)|, now)]
      ensures r.Success? ==> r.value == Registration(
        QueueNumber(req.customerCategory.value, |old(customers)| + 1), req.fullName.value, InitialScore(req))
    {
      if req.fullName.None? || req.customerCategory.None? {
        return Failure(MISSING_FIELDS);
      }
      var totalCustomers := |customers|;
      var c := NewCustomer(req, totalCustomers, now);
      AddKeepsInvariant(customers, req, now);
      customers := customers + [c];
      r := Success(Registration(c.queueNumber, c.name, c.initialScore));
    }

    /**
     * `get_queue_status`: the customer being served, the waiting customers
     * with live scores ranked by the quick sort, and the alerts raised while
     * walking the waiting customers.
     */
    method GetQueueStatus(now: int) returns (status: QueueStatus)
      ensures status.currentlyServing == CurrentlyServing(customers, now)
      ensures status.queue == QuickSort.Sort(WaitingEntries(customers, now), EntryScore)
      ensures status.antiStarvationAlerts == WaitingAlerts(customers, now)
    {
      var waiting := IdsWithStatus(customers, Waiting);
      var queue: seq<QueueEntry> := [];
      var alerts: seq<Alert> := [];
      var i := 0;
      while i < |waiting|
        invariant 0 <= i <= |waiting|
        invariant queue == Entries(customers, waiting[..i], now)
        invariant alerts == Alerts(customers, waiting[..i], now)
      {
        var id := waiting[i];
        var c := customers[id];
        var score := LiveScore(c, now);
        var wait := WaitMinutes(c, now);
        assert waiting[..i + 1] == waiting[..i] + [id];
        EntriesSnoc(customers, waiting[..i], id, now);
        queue := queue + [QueueEntry(id, c.queueNumber, c.name, c.category, c.service, c.urgency,
                                     Priority(score, LevelOf(score)), wait)];
        if wait >= 10 && c.category == REGULAR {
          var bonus := if wait >= 30 then 5 else if wait >= 20 then 3 else 1;
          alerts := alerts + [Alert(c.name, wait, bonus,
            c.name + " (Regular) - " + Decimal(wait) + " Minute Wait (+" + Decimal(bonus) + " Aging Bonus)")];
        }
        assert waiting[..i + 1][..i] == waiting[..i];
        i := i + 1;
      }
      assert waiting[..i] == waiting;
      var sorted := QuickSort.Sort(queue, EntryScore);
      var serving: Option<ServingView> := None;
      var current := FirstWithStatus(customers, Serving);
      if current.Some? {
        var c := customers[current.value];
        serving := Some(ServingView(c.queueNumber, c.name, c.service, c.category, LiveScore(c, now)));
      }
      status := QueueStatus(serving, sorted, alerts);
    }

    /**
     * `serve_next_customer`: the customer being served, if any, is completed
     * at `now`; then the head of the quick-sorted waiting list, if anybody
     * waits, is being served.
     */
    method ServeNext(now: int) returns (nowServing: Option<NowServing>)
      requires Valid()
      modifies this
      ensures Valid()
      ensures customers == AfterServe(old(customers), now)
      ensures nowServing == match ChooseNext(old(customers), now)
        case None => None
        case Some(k) => Some(NowServing(old(customers)[k].queueNumber, old(customers)[k].name))
    {
      ghost var before := customers;
      CompleteCurrent(now);
      var cs := customers;
      var next := PickNext(cs, now);
      ChooseNextAfterComplete(before, now);
      AfterServeKeepsInvariant(before, now);
      if next.None? {
        return None;
      }
      var k := next.value;
      customers := cs[k := cs[k].(status := Serving)];
      nowServing := Some(NowServing(cs[k].queueNumber, cs[k].name));
    }

    /** Steps 1-2 of `serve_next_customer`: the customer being served, if any, is completed at `now`. */
    method CompleteCurrent(now: int)
      requires Valid()
      modifies this
      ensures Valid()
      ensures customers == CompleteServing(old(customers), now)
    {
      CompleteServingKeepsInvariant(customers, now);
      var current := FirstWithStatus(customers, Serving);
      if current.Some? {
        var j := current.value;
        customers := customers[j := customers[j].(status := Completed, completion := Some(now))];
      }
    }

    /**
     * The counts of `get_analytics`: all customers, the waiting ones, the
     * completed non-`Regular` ones, and the average wait of the completed ones.
     */
    method Analytics() returns (report: ServiceAnalytics)
      ensures report.totalCustomersToday == |customers|
      ensures report.currentQueueLength == |IdsWithStatus(customers, Waiting)|
      ensures report.priorityCustomersServed == PriorityServed(customers)
      ensures report.averageWaitTime == AverageWait(customers)
    {
      var totalCustomers := |customers|;
      var queueLength := |IdsWithStatus(customers, Waiting)|;
      var completed := IdsWithStatus(customers, Completed);
      var totalWait := 0;
      var i := 0;
      while i < |completed|
        invariant 0 <= i <= |completed|
        invariant totalWait == TotalWait(customers, completed[..i])
      {
        var c := customers[completed[i]];
        if c.completion.Some? {
          totalWait := totalWait + (c.completion.value - c.arrival);
        }
        assert completed[..i + 1][..i] == completed[..i];
        i := i + 1;
      }
      assert completed[..i] == completed;
      var average := if |completed| > 0 then RoundHalfEven(totalWait, |completed|) else 0;
      report := ServiceAnalytics(totalCustomers, average, PriorityServed(customers), queueLength);
    }
  }
}
