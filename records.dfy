/**
 * The customer records the backend keeps in its `customers` table, the
 * queries it runs on them, and the invariant registration and serving keep.
 * A customer's id is its position in the store: rows are never deleted.
 */
module Records {
  import opened Wrappers
  import opened Scoring
  import opened Text

  /** The lifecycle tag of a customer row. */
  datatype Status = Waiting | Serving | Completed

  /** One row of the `customers` table; timestamps are whole minutes. */
  datatype Customer = Customer(
    queueNumber: string,
    name: string,
    category: string,
    service: string,
    urgency: int,
    hasAppointment: bool,
    initialScore: int,
    status: Status,
    arrival: int,
    completion: Option<int>)

  /** Minutes since arrival at instant `now`. */
  function WaitMinutes(c: Customer, now: int): int {
    now - c.arrival
  }

  /** The live score `get_dynamic_score` computes for a customer at instant `now`. */
  function LiveScore(c: Customer, now: int): int {
    DynamicScore(c.initialScore, c.category, WaitMinutes(c, now))
  }

  /** `Customer.query.filter_by(status=st).all()`: the positions of the rows with that status, in store order. */
  function IdsWithStatus(cs: seq<Customer>, st: Status): (ids: seq<nat>)
    ensures forall k :: 0 <= k < |ids| ==> ids[k] < |cs| && cs[ids[k]].status == st
    ensures forall i :: 0 <= i < |cs| && cs[i].status == st ==> i in ids
    ensures forall k, l :: 0 <= k < l < |ids| ==> ids[k] < ids[l]
    ensures |ids| <= |cs|
  {
    if cs == [] then []
    else
      var rest := IdsWithStatus(cs[..|cs| - 1], st);
      PositionsSnoc(cs, st, rest);
      rest + (if cs[|cs| - 1].status == st then [|cs| - 1] else [])
  }

  /** The positions with status `st` in all but the last row, extended by the last row's position if it has that status,
      are the positions with status `st` in all rows. */
  lemma {:induction false} PositionsSnoc(cs: seq<Customer>, st: Status, rest: seq<nat>)
    requires cs != []
    requires forall k :: 0 <= k < |rest| ==> rest[k] < |cs| - 1 && cs[..|cs| - 1][rest[k]].status == st
    requires forall i :: 0 <= i < |cs| - 1 && cs[..|cs| - 1][i].status == st ==> i in rest
    requires forall k, l :: 0 <= k < l < |rest| ==> rest[k] < rest[l]
    requires |rest| <= |cs| - 1
    ensures var ids := rest + (if cs[|cs| - 1].status == st then [|cs| - 1] else []);
      (forall k :: 0 <= k < |ids| ==> ids[k] < |cs| && cs[ids[k]].status == st) &&
      (forall i :: 0 <= i < |cs| && cs[i].status == st ==> i in ids) &&
      (forall k, l :: 0 <= k < l < |ids| ==> ids[k] < ids[l]) &&
      |ids| <= |cs|
  {
    var last := |cs| - 1;
    assert forall i :: 0 <= i < last ==> cs[..last][i] == cs[i];
    var ids := rest + (if cs[last].status == st then [last] else []);
    assert forall k :: 0 <= k < |rest| ==> ids[k] == rest[k];
  }

  /** `Customer.query.filter_by(status=st).first()`: the first row with that status, if any. */
  function FirstWithStatus(cs: seq<Customer>, st: Status): (r: Option<nat>)
    ensures r.Some? ==> r.value < |cs| && cs[r.value].status == st
    ensures r.Some? ==> forall i :: 0 <= i < r.value ==> cs[i].status != st
    ensures r.None? <==> forall i :: 0 <= i < |cs| ==> cs[i].status != st
  {
    var ids := IdsWithStatus(cs, st);
    if ids == [] then None
    else
      assert forall i :: 0 <= i < ids[0] && cs[i].status == st ==> i in ids && i < ids[0];
      Some(ids[0])
  }

  /** The invariant of the store: at most one customer is being served, every queue number is
      the one registration gave, and exactly the completed customers have a completion time. */
  ghost predicate StoreInvariant(cs: seq<Customer>) {
    (forall i, j :: 0 <= i < |cs| && 0 <= j < |cs| && cs[i].status == Serving && cs[j].status == Serving ==> i == j)
    && (forall i :: 0 <= i < |cs| ==> cs[i].queueNumber == QueueNumber(cs[i].category, i + 1))
    && (forall i :: 0 <= i < |cs| ==> (cs[i].status == Completed <==> cs[i].completion.Some?))
  }

  /** Under the invariant the numeric parts of the queue numbers strictly increase in
      registration order, so no two customers share a queue number. */
  lemma {:induction false} QueueNumbersIncrease(cs: seq<Customer>, i: nat, j: nat)
    requires StoreInvariant(cs)
    requires i < j < |cs|
    ensures QueueSuffix(cs[i].queueNumber) < QueueSuffix(cs[j].queueNumber)
    ensures cs[i].queueNumber != cs[j].queueNumber
  {
    SuffixOfIssued(cs[i].queueNumber, cs[i].category, i + 1);
    SuffixOfIssued(cs[j].queueNumber, cs[j].category, j + 1);
  }

  /** A queue number issued to the `n`-th registrant has numeric part `n`. */
  lemma {:induction false} SuffixOfIssued(q: string, c: string, n: nat)
    requires q == QueueNumber(c, n)
    ensures QueueSuffix(q) == n
  {
    QueueNumberRoundTrip(c, n);
  }

  /** Under the invariant at most one customer is being served. */
  lemma {:induction false} AtMostOneServing(cs: seq<Customer>)
    requires StoreInvariant(cs)
    ensures |IdsWithStatus(cs, Serving)| <= 1
  {
    var ids := IdsWithStatus(cs, Serving);
    assert |ids| > 1 ==> ids[0] < ids[1];
    forall k | 0 <= k < |ids|
      ensures ids[k] == ids[0]
    {
      assert cs[ids[k]].status == Serving && cs[ids[0]].status == Serving;
    }
  }

  /** The row `add_customer` inserts for a request that passed validation, when the store already holds `count` rows. */
  function NewCustomer(req: Request, count: nat, now: int): Customer
    requires req.fullName.Some? && req.customerCategory.Some?
  {
    Customer(
      QueueNumber(req.customerCategory.value, count + 1),
      req.fullName.value,
      req.customerCategory.value,
      req.serviceType.GetOr("N/A"),
      UrgencyOf(req),
      HasAppointment(req),
      InitialScore(req),
      Waiting,
      now,
      None)
  }

  /** Inserting a new customer keeps the invariant, and adds one waiting customer. */
  lemma {:induction false} AddKeepsInvariant(cs: seq<Customer>, req: Request, now: int)
    requires StoreInvariant(cs)
    requires req.fullName.Some? && req.customerCategory.Some?
    ensures StoreInvariant(cs + [NewCustomer(req, |cs|, now)])
    ensures |IdsWithStatus(cs + [NewCustomer(req, |cs|, now)], Waiting)| == |IdsWithStatus(cs, Waiting)| + 1
  {
    var c := NewCustomer(req, |cs|, now);
    InvariantSnoc(cs, c);
    assert (cs + [c])[..|cs|] == cs;
  }

  /** Appending a waiting, uncompleted row with the next queue number keeps the invariant. */
  lemma {:induction false} InvariantSnoc(cs: seq<Customer>, c: Customer)
    requires StoreInvariant(cs)
    requires c.status == Waiting && c.completion.None? && c.queueNumber == QueueNumber(c.category, |cs| + 1)
    ensures StoreInvariant(cs + [c])
  {
    var after := cs + [c];
    assert forall i :: 0 <= i < |cs| ==> after[i] == cs[i];
    assert after[|cs|] == c;
  }
}
