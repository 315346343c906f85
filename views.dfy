/**
 * What the backend derives from the store on every read: the ranked queue
 * and the anti-starvation alerts of `GET /api/queue`, the choice of the next
 * customer and the state after `POST /api/queue/serve-next`, and the counts
 * of `GET /api/analytics`.
 */
module Views {
  import opened Wrappers
  import opened Scoring
  import opened Text
  import opened Records
  import QuickSort

  // ---------------------------------------------------------------- the queue

  datatype Priority = Priority(score: int, level: Level)

  /** One element of the `queue` list of `GET /api/queue`; `id` is the customer's position. */
  datatype QueueEntry = QueueEntry(
    id: nat,
    queueNumber: string,
    name: string,
    category: string,
    service: string,
    urgency: int,
    priority: Priority,
    waitTime: int)

  function EntryFor(c: Customer, id: nat, now: int): QueueEntry {
    var score := LiveScore(c, now);
    QueueEntry(id, c.queueNumber, c.name, c.category, c.service, c.urgency,
               Priority(score, LevelOf(score)), WaitMinutes(c, now))
  }

  /** The sort key of a queue entry, `x['priority']['score']`. */
  function EntryScore(e: QueueEntry): int {
    e.priority.score
  }

  /** The entries built, in order, for the customers at positions `ids`. */
  function Entries(cs: seq<Customer>, ids: seq<nat>, now: int): (es: seq<QueueEntry>)
    requires forall k :: 0 <= k < |ids| ==> ids[k] < |cs|
  {
    seq(|ids|, k requires 0 <= k < |ids| => EntryFor(cs[ids[k]], ids[k], now))
  }

  /** Extending the positions by one extends the entries by that position's entry. */
  lemma {:induction false} EntriesSnoc(cs: seq<Customer>, ids: seq<nat>, id: nat, now: int)
    requires forall k :: 0 <= k < |ids| ==> ids[k] < |cs|
    requires id < |cs|
    ensures Entries(cs, ids + [id], now) == Entries(cs, ids, now) + [EntryFor(cs[id], id, now)]
  {
  }

  /** The unsorted `queue_with_dynamic_scores` of `get_queue_status`. */
  function WaitingEntries(cs: seq<Customer>, now: int): seq<QueueEntry> {
    Entries(cs, IdsWithStatus(cs, Waiting), now)
  }

  /** Every waiting customer, and nothing else, has an entry carrying its live score and the level of that score. */
  lemma {:induction false} WaitingEntriesExactly(cs: seq<Customer>, now: int, e: QueueEntry)
    ensures e in WaitingEntries(cs, now) <==>
      e.id < |cs| && cs[e.id].status == Waiting && e == EntryFor(cs[e.id], e.id, now)
    ensures e in WaitingEntries(cs, now) ==>
      EntryScore(e) == LiveScore(cs[e.id], now) && e.priority.level == LevelOf(EntryScore(e))
  {
    var ids := IdsWithStatus(cs, Waiting);
    if e.id < |cs| && cs[e.id].status == Waiting && e == EntryFor(cs[e.id], e.id, now) {
      var k :| 0 <= k < |ids| && ids[k] == e.id;
      assert WaitingEntries(cs, now)[k] == e;
    }
  }

  /** The ranked queue holds exactly the entries of the waiting customers. */
  lemma {:induction false} RankedQueueMembers(cs: seq<Customer>, now: int, e: QueueEntry)
    ensures e in QuickSort.Sort(WaitingEntries(cs, now), EntryScore) <==>
      e.id < |cs| && cs[e.id].status == Waiting && e == EntryFor(cs[e.id], e.id, now)
  {
    var w := WaitingEntries(cs, now);
    var q := QuickSort.Sort(w, EntryScore);
    assert e in q <==> e in multiset(q);
    assert e in w <==> e in multiset(w);
    WaitingEntriesExactly(cs, now, e);
  }

  /** For waiting customers A and B, if A's live score is higher than B's then A is listed before B. */
  lemma {:induction false} RankedQueueOrder(cs: seq<Customer>, now: int, a: nat, b: nat)
    requires a < |cs| && b < |cs| && cs[a].status == Waiting && cs[b].status == Waiting
    requires LiveScore(cs[a], now) > LiveScore(cs[b], now)
    ensures var q := QuickSort.Sort(WaitingEntries(cs, now), EntryScore);
      exists i, j :: 0 <= i < j < |q| && q[i] == EntryFor(cs[a], a, now) && q[j] == EntryFor(cs[b], b, now)
  {
    var q := QuickSort.Sort(WaitingEntries(cs, now), EntryScore);
    var ea, eb := EntryFor(cs[a], a, now), EntryFor(cs[b], b, now);
    RankedQueueMembers(cs, now, ea);
    RankedQueueMembers(cs, now, eb);
    var i :| 0 <= i < |q| && q[i] == ea;
    var j :| 0 <= j < |q| && q[j] == eb;
    QuickSort.SortHigherFirst(WaitingEntries(cs, now), EntryScore, i, j);
  }

  // --------------------------------------------------------------- the alerts

  /** An anti-starvation alert; the source sends only `message`, built from the other three fields. */
  datatype Alert = Alert(name: string, waitTime: nat, bonus: nat, message: string)

  /** A waiting customer gets an alert when they are `Regular` and have waited 10 minutes or more. */
  predicate AlertDue(c: Customer, now: int) {
    WaitMinutes(c, now) >= 10 && c.category == REGULAR
  }

  /** The bonus an alert announces, as `get_queue_status` computes it for a wait of 10 minutes or more. */
  function AlertBonus(wait: int): nat {
    if wait >= 30 then 5 else if wait >= 20 then 3 else 1
  }

  /** The bonus an alert announces is the tiered aging bonus and leaves out the `Regular` extra. */
  lemma {:induction false} AlertBonusIsTier(c: Customer, now: int)
    requires AlertDue(c, now)
    ensures AlertBonus(WaitMinutes(c, now)) == AgingTier(WaitMinutes(c, now))
    ensures AlertBonus(WaitMinutes(c, now))
         == LiveScore(c, now) - c.initialScore - RegularBonus(c.category, WaitMinutes(c, now))
  {
  }

  function AlertFor(c: Customer, now: int): Alert
    requires AlertDue(c, now)
  {
    var wait: nat := WaitMinutes(c, now);
    var bonus := AlertBonus(wait);
    Alert(c.name, wait, bonus,
          c.name + " (Regular) - " + Decimal(wait) + " Minute Wait (+" + Decimal(bonus) + " Aging Bonus)")
  }

  /** The alerts built, in order, while walking the customers at positions `ids`. */
  function Alerts(cs: seq<Customer>, ids: seq<nat>, now: int): seq<Alert>
    requires forall k :: 0 <= k < |ids| ==> ids[k] < |cs|
  {
    if ids == [] then []
    else
      var last := ids[|ids| - 1];
      Alerts(cs, ids[..|ids| - 1], now) + (if AlertDue(cs[last], now) then [AlertFor(cs[last], now)] else [])
  }

  /** The `antiStarvationAlerts` list of `get_queue_status`. */
  function WaitingAlerts(cs: seq<Customer>, now: int): seq<Alert> {
    Alerts(cs, IdsWithStatus(cs, Waiting), now)
  }

  lemma {:induction false} AlertsMembers(cs: seq<Customer>, ids: seq<nat>, now: int, a: Alert)
    requires forall k :: 0 <= k < |ids| ==> ids[k] < |cs|
    ensures a in Alerts(cs, ids, now) <==>
      exists k :: 0 <= k < |ids| && AlertDue(cs[ids[k]], now) && a == AlertFor(cs[ids[k]], now)
  {
    if ids != [] {
      var init := ids[..|ids| - 1];
      AlertsMembers(cs, init, now, a);
      assert forall k :: 0 <= k < |init| ==> init[k] == ids[k];
    }
  }

  /** An alert is raised exactly for each waiting `Regular` customer who has waited 10 minutes or more. */
  lemma {:induction false} WaitingAlertsExactly(cs: seq<Customer>, now: int, a: Alert)
    ensures a in WaitingAlerts(cs, now) <==>
      exists i :: 0 <= i < |cs| && cs[i].status == Waiting && AlertDue(cs[i], now) && a == AlertFor(cs[i], now)
  {
    var ids := IdsWithStatus(cs, Waiting);
    AlertsMembers(cs, ids, now, a);
    if exists i :: 0 <= i < |cs| && cs[i].status == Waiting && AlertDue(cs[i], now) && a == AlertFor(cs[i], now) {
      var i :| 0 <= i < |cs| && cs[i].status == Waiting && AlertDue(cs[i], now) && a == AlertFor(cs[i], now);
      var k :| 0 <= k < |ids| && ids[k] == i;
      assert AlertDue(cs[ids[k]], now) && a == AlertFor(cs[ids[k]], now);
    }
  }

  // ------------------------------------------------------- the serving customer

  /** The `currentlyServing` object of `GET /api/queue`. */
  datatype ServingView = ServingView(queueNumber: string, fullName: string, service: string, category: string, score: int)

  function CurrentlyServing(cs: seq<Customer>, now: int): Option<ServingView> {
    match FirstWithStatus(cs, Serving)
    case None => None
    case Some(j) =>
      Some(ServingView(cs[j].queueNumber, cs[j].name, cs[j].service, cs[j].category, LiveScore(cs[j], now)))
  }

  // ------------------------------------------------------------ serving next

  /** One element of the list `serve_next_customer` sorts: an id and a live score. */
  datatype Candidate = Candidate(id: nat, score: int)

  function CandidateScore(c: Candidate): int {
    c.score
  }

  function Candidates(cs: seq<Customer>, ids: seq<nat>, now: int): seq<Candidate>
    requires forall k :: 0 <= k < |ids| ==> ids[k] < |cs|
  {
    seq(|ids|, k requires 0 <= k < |ids| => Candidate(ids[k], LiveScore(cs[ids[k]], now)))
  }

  /**
   * The customer `serve_next_customer` promotes: the head of the sorted
   * waiting list. It is a waiting customer of maximal live score and, of
   * those, the first in store order; there is none exactly when nobody waits.
   */
  function ChooseNext(cs: seq<Customer>, now: int): (r: Option<nat>)
    ensures r.None? <==> forall i :: 0 <= i < |cs| ==> cs[i].status != Waiting
    ensures r.Some? ==> r.value < |cs| && cs[r.value].status == Waiting
    ensures r.Some? ==> forall i :: 0 <= i < |cs| && cs[i].status == Waiting ==>
      LiveScore(cs[i], now) <= LiveScore(cs[r.value], now)
    ensures r.Some? ==> forall i :: 0 <= i < r.value && cs[i].status == Waiting ==>
      LiveScore(cs[i], now) < LiveScore(cs[r.value], now)
  {
    var ids := IdsWithStatus(cs, Waiting);
    if ids == [] then
      assert forall i :: 0 <= i < |cs| && cs[i].status == Waiting ==> i in ids;
      None
    else
      ChooseNextProof(cs, now);
      Some(QuickSort.Sort(Candidates(cs, ids, now), CandidateScore)[0].id)
  }

  /** Extending the positions by one extends the candidates by that position's candidate. */
  lemma {:induction false} CandidatesSnoc(cs: seq<Customer>, ids: seq<nat>, id: nat, now: int)
    requires forall k :: 0 <= k < |ids| ==> ids[k] < |cs|
    requires id < |cs|
    ensures Candidates(cs, ids + [id], now) == Candidates(cs, ids, now) + [Candidate(id, LiveScore(cs[id], now))]
  {
  }

  /** The head of the sorted candidates is the first of maximal live score among the positions `ids`. */
  lemma {:induction false} CandidatesHead(cs: seq<Customer>, ids: seq<nat>, now: int) returns (j: nat)
    requires forall k :: 0 <= k < |ids| ==> ids[k] < |cs|
    requires ids != []
    ensures j < |ids| && QuickSort.Sort(Candidates(cs, ids, now), CandidateScore) != []
    ensures QuickSort.Sort(Candidates(cs, ids, now), CandidateScore)[0].id == ids[j]
    ensures forall k :: 0 <= k < |ids| ==> LiveScore(cs[ids[k]], now) <= LiveScore(cs[ids[j]], now)
    ensures forall k :: 0 <= k < j ==> LiveScore(cs[ids[k]], now) < LiveScore(cs[ids[j]], now)
  {
    var cands := Candidates(cs, ids, now);
    j := QuickSort.SortHeadIsFirstMax(cands, CandidateScore);
    assert forall k :: 0 <= k < |ids| ==> CandidateScore(cands[k]) == LiveScore(cs[ids[k]], now);
  }

  /** Position `j` of the waiting list holds the first waiting customer of maximal live score. */
  lemma {:induction false} WaitingFirstMax(cs: seq<Customer>, now: int, j: nat)
    requires j < |IdsWithStatus(cs, Waiting)|
    requires var ids := IdsWithStatus(cs, Waiting);
      (forall k :: 0 <= k < |ids| ==> LiveScore(cs[ids[k]], now) <= LiveScore(cs[ids[j]], now)) &&
      (forall k :: 0 <= k < j ==> LiveScore(cs[ids[k]], now) < LiveScore(cs[ids[j]], now))
    ensures var top := IdsWithStatus(cs, Waiting)[j];
      top < |cs| && cs[top].status == Waiting &&
      (forall i :: 0 <= i < |cs| && cs[i].status == Waiting ==> LiveScore(cs[i], now) <= LiveScore(cs[top], now)) &&
      (forall i :: 0 <= i < top && cs[i].status == Waiting ==> LiveScore(cs[i], now) < LiveScore(cs[top], now))
  {
    var ids := IdsWithStatus(cs, Waiting);
    var top := ids[j];
    forall i | 0 <= i < |cs| && cs[i].status == Waiting
      ensures LiveScore(cs[i], now) <= LiveScore(cs[top], now)
      ensures i < top ==> LiveScore(cs[i], now) < LiveScore(cs[top], now)
    {
      var k :| 0 <= k < |ids| && ids[k] == i;
      if i < top {
        assert k < j;
      }
    }
  }

  lemma {:induction false} ChooseNextProof(cs: seq<Customer>, now: int)
    requires IdsWithStatus(cs, Waiting) != []
    ensures QuickSort.Sort(Candidates(cs, IdsWithStatus(cs, Waiting), now), CandidateScore) != []
    ensures var top := QuickSort.Sort(Candidates(cs, IdsWithStatus(cs, Waiting), now), CandidateScore)[0].id;
      top < |cs| && cs[top].status == Waiting &&
      (forall i :: 0 <= i < |cs| && cs[i].status == Waiting ==> LiveScore(cs[i], now) <= LiveScore(cs[top], now)) &&
      (forall i :: 0 <= i < top && cs[i].status == Waiting ==> LiveScore(cs[i], now) < LiveScore(cs[top], now))
  {
    var ids := IdsWithStatus(cs, Waiting);
    var j := CandidatesHead(cs, ids, now);
    WaitingFirstMax(cs, now, j);
  }

  /** The store after the customer being served, if any, is marked completed at `now`. */
  function CompleteServing(cs: seq<Customer>, now: int): (r: seq<Customer>)
    ensures |r| == |cs|
  {
    match FirstWithStatus(cs, Serving)
    case None => cs
    case Some(j) => cs[j := cs[j].(status := Completed, completion := Some(now))]
  }

  /** Complete the customer being served, then promote the customer at `choice`, if any. */
  function Advance(cs: seq<Customer>, now: int, choice: Option<nat>): (r: seq<Customer>)
    requires choice.Some? ==> choice.value < |cs|
    ensures |r| == |cs|
  {
    var done := CompleteServing(cs, now);
    match choice
    case None => done
    case Some(k) => done[k := done[k].(status := Serving)]
  }

  /** The store after `serve_next_customer`. */
  function AfterServe(cs: seq<Customer>, now: int): (r: seq<Customer>)
    ensures |r| == |cs|
  {
    Advance(cs, now, ChooseNext(cs, now))
  }

  /** Completing the served customer: under the invariant it is the only one, and nobody is served afterwards. */
  lemma {:induction false} CompleteServingEffects(cs: seq<Customer>, now: int)
    requires StoreInvariant(cs)
    ensures var done := CompleteServing(cs, now);
      (forall i :: 0 <= i < |cs| && cs[i].status == Serving ==>
         done[i] == cs[i].(status := Completed, completion := Some(now))) &&
      (forall i :: 0 <= i < |cs| && cs[i].status != Serving ==> done[i] == cs[i]) &&
      (forall i :: 0 <= i < |cs| ==> done[i].status != Serving)
  {
    var done := CompleteServing(cs, now);
    match FirstWithStatus(cs, Serving)
    case None =>
    case Some(j) =>
      forall i | 0 <= i < |cs| && cs[i].status == Serving
        ensures done[i] == cs[i].(status := Completed, completion := Some(now))
      {
        assert i == j;
      }
  }

  /** Completing the served customer keeps the invariant. */
  lemma {:induction false} CompleteServingKeepsInvariant(cs: seq<Customer>, now: int)
    requires StoreInvariant(cs)
    ensures StoreInvariant(CompleteServing(cs, now))
  {
    CompleteServingEffects(cs, now);
  }

  /** Promoting a waiting customer of a store where nobody is being served keeps the invariant. */
  lemma {:induction false} PromoteKeepsInvariant(done: seq<Customer>, k: nat)
    requires StoreInvariant(done)
    requires forall i :: 0 <= i < |done| ==> done[i].status != Serving
    requires k < |done| && done[k].status == Waiting
    ensures StoreInvariant(done[k := done[k].(status := Serving)])
  {
    var after := done[k := done[k].(status := Serving)];
    forall i | 0 <= i < |after|
      ensures after[i].status == Serving ==> i == k
    {
      if i != k {
        assert after[i] == done[i];
      }
    }
  }

  /** Advancing to a waiting customer, or to nobody, changes only the two customers involved. */
  lemma {:induction false} AdvanceEffects(cs: seq<Customer>, now: int, choice: Option<nat>)
    requires StoreInvariant(cs)
    requires choice.Some? ==> choice.value < |cs| && cs[choice.value].status == Waiting
    ensures var after := Advance(cs, now, choice);
      (forall i :: 0 <= i < |cs| && cs[i].status == Serving ==>
         after[i] == cs[i].(status := Completed, completion := Some(now))) &&
      (choice.Some? ==> after[choice.value] == cs[choice.value].(status := Serving)) &&
      (forall i :: 0 <= i < |cs| && cs[i].status != Serving && choice != Some(i) ==> after[i] == cs[i]) &&
      (choice.None? ==> forall i :: 0 <= i < |cs| ==> after[i].status != Serving)
  {
    CompleteServingEffects(cs, now);
    var done := CompleteServing(cs, now);
    if choice.Some? {
      var k := choice.value;
      assert Advance(cs, now, choice) == done[k := done[k].(status := Serving)];
    } else {
      assert Advance(cs, now, choice) == done;
    }
  }

  /** Completing the served customer leaves the waiting customers, and their order, as they were. */
  lemma {:induction false} CompleteServingKeepsWaiting(cs: seq<Customer>, now: int)
    requires StoreInvariant(cs)
    ensures IdsWithStatus(CompleteServing(cs, now), Waiting) == IdsWithStatus(cs, Waiting)
    ensures var ids := IdsWithStatus(cs, Waiting);
      forall k :: 0 <= k < |ids| ==> CompleteServing(cs, now)[ids[k]] == cs[ids[k]]
  {
    CompleteServingEffects(cs, now);
    StatusCountsAgree(cs, CompleteServing(cs, now), Waiting, -1);
  }

  /** The candidates of two stores agree on positions where the stores agree. */
  lemma {:induction false} CandidatesAgree(a: seq<Customer>, b: seq<Customer>, ids: seq<nat>, now: int)
    requires forall k :: 0 <= k < |ids| ==> ids[k] < |a| && ids[k] < |b| && a[ids[k]] == b[ids[k]]
    ensures Candidates(a, ids, now) == Candidates(b, ids, now)
  {
  }

  /** Completing the served customer first does not change whom serving next promotes, nor that customer's row. */
  lemma {:induction false} ChooseNextAfterComplete(cs: seq<Customer>, now: int)
    requires StoreInvariant(cs)
    ensures ChooseNext(CompleteServing(cs, now), now) == ChooseNext(cs, now)
    ensures ChooseNext(cs, now).Some? ==>
      CompleteServing(cs, now)[ChooseNext(cs, now).value] == cs[ChooseNext(cs, now).value]
  {
    var done := CompleteServing(cs, now);
    CompleteServingKeepsWaiting(cs, now);
    var ids := IdsWithStatus(cs, Waiting);
    CandidatesAgree(done, cs, ids, now);
    if ChooseNext(cs, now).Some? {
      CompleteServingEffects(cs, now);
    }
  }

  /** Advancing keeps the store invariant. */
  lemma {:induction false} AdvanceKeepsInvariant(cs: seq<Customer>, now: int, choice: Option<nat>)
    requires StoreInvariant(cs)
    requires choice.Some? ==> choice.value < |cs| && cs[choice.value].status == Waiting
    ensures StoreInvariant(Advance(cs, now, choice))
  {
    CompleteServingKeepsInvariant(cs, now);
    var done := CompleteServing(cs, now);
    if choice.Some? {
      var k := choice.value;
      CompleteServingEffects(cs, now);
      PromoteKeepsInvariant(done, k);
      assert Advance(cs, now, choice) == done[k := done[k].(status := Serving)];
    } else {
      assert Advance(cs, now, choice) == done;
    }
  }

  /** Serving next keeps the store invariant. */
  lemma {:induction false} AfterServeKeepsInvariant(cs: seq<Customer>, now: int)
    requires StoreInvariant(cs)
    ensures StoreInvariant(AfterServe(cs, now))
  {
    AdvanceKeepsInvariant(cs, now, ChooseNext(cs, now));
  }

  /**
   * What serving next does: the customer being served is completed at `now`;
   * the chosen waiting customer is now served; every other customer is unchanged;
   * and the invariant (in particular, at most one customer being served) is kept.
   */
  lemma {:induction false} ServeNextEffects(cs: seq<Customer>, now: int)
    requires StoreInvariant(cs)
    ensures StoreInvariant(AfterServe(cs, now))
    ensures forall i :: 0 <= i < |cs| && cs[i].status == Serving ==>
      AfterServe(cs, now)[i] == cs[i].(status := Completed, completion := Some(now))
    ensures ChooseNext(cs, now).Some? ==>
      AfterServe(cs, now)[ChooseNext(cs, now).value] == cs[ChooseNext(cs, now).value].(status := Serving)
    ensures forall i :: 0 <= i < |cs| && cs[i].status != Serving && ChooseNext(cs, now) != Some(i) ==>
      AfterServe(cs, now)[i] == cs[i]
    ensures ChooseNext(cs, now).None? ==> forall i :: 0 <= i < |cs| ==> AfterServe(cs, now)[i].status != Serving
  {
    AdvanceKeepsInvariant(cs, now, ChooseNext(cs, now));
    AdvanceEffects(cs, now, ChooseNext(cs, now));
  }

  /** With nobody waiting, nobody is promoted; serving next once more then changes nothing at all. */
  lemma {:induction false} ServeNextWhenNobodyWaits(cs: seq<Customer>, now: int, later: int)
    requires StoreInvariant(cs)
    requires forall i :: 0 <= i < |cs| ==> cs[i].status != Waiting
    ensures ChooseNext(cs, now).None?
    ensures AfterServe(AfterServe(cs, now), later) == AfterServe(cs, now)
  {
    assert ChooseNext(cs, now).None?;
    var once := CompleteServing(cs, now);
    assert AfterServe(cs, now) == once;
    assert forall i :: 0 <= i < |once| ==> once[i].status == Completed by {
      CompleteServingEffects(cs, now);
    }
    IdleStoreIsFixed(once, later);
  }

  /** When every customer is completed, serving next changes nothing. */
  lemma {:induction false} IdleStoreIsFixed(cs: seq<Customer>, now: int)
    requires forall i :: 0 <= i < |cs| ==> cs[i].status == Completed
    ensures AfterServe(cs, now) == cs
  {
    assert ChooseNext(cs, now).None?;
    assert FirstWithStatus(cs, Serving).None?;
  }

  /** Serving next takes exactly one customer out of the waiting list when anybody waits. */
  lemma {:induction false} ServeNextShortensQueue(cs: seq<Customer>, now: int)
    requires StoreInvariant(cs)
    ensures ChooseNext(cs, now).Some? ==>
      |IdsWithStatus(AfterServe(cs, now), Waiting)| + 1 == |IdsWithStatus(cs, Waiting)|
    ensures ChooseNext(cs, now).None? ==>
      IdsWithStatus(AfterServe(cs, now), Waiting) == IdsWithStatus(cs, Waiting)
  {
    AdvanceShortensQueue(cs, now, ChooseNext(cs, now));
  }

  /** Advancing to a waiting customer takes exactly that one out of the waiting list; advancing to nobody keeps it. */
  lemma {:induction false} AdvanceShortensQueue(cs: seq<Customer>, now: int, choice: Option<nat>)
    requires StoreInvariant(cs)
    requires choice.Some? ==> choice.value < |cs| && cs[choice.value].status == Waiting
    ensures choice.Some? ==>
      |IdsWithStatus(Advance(cs, now, choice), Waiting)| + 1 == |IdsWithStatus(cs, Waiting)|
    ensures choice.None? ==>
      IdsWithStatus(Advance(cs, now, choice), Waiting) == IdsWithStatus(cs, Waiting)
  {
    var after := Advance(cs, now, choice);
    var k := if choice.Some? then choice.value else -1;
    assert forall i :: 0 <= i < |cs| && i != k ==> (cs[i].status == Waiting <==> after[i].status == Waiting) by {
      AdvanceEffects(cs, now, choice);
    }
    assert 0 <= k < |cs| ==> after[k].status == Serving by {
      AdvanceEffects(cs, now, choice);
    }
    StatusCountsAgree(cs, after, Waiting, k);
  }

  /** Two stores that agree on who has status `st`, except at position `k` where only the first has it, differ by one in that count. */
  lemma {:induction false} StatusCountsAgree(a: seq<Customer>, b: seq<Customer>, st: Status, k: int)
    requires |a| == |b|
    requires forall i :: 0 <= i < |a| && i != k ==> (a[i].status == st <==> b[i].status == st)
    requires 0 <= k < |a| ==> a[k].status == st && b[k].status != st
    ensures 0 <= k < |a| ==> |IdsWithStatus(a, st)| == |IdsWithStatus(b, st)| + 1
    ensures !(0 <= k < |a|) ==> IdsWithStatus(a, st) == IdsWithStatus(b, st)
  {
    if a != [] {
      var n := |a| - 1;
      StatusCountsAgree(a[..n], b[..n], st, k);
    }
  }

  // -------------------------------------------------------------- analytics

  /** `Customer.query.filter(status == 'completed', category != 'Regular').count()`. */
  function PriorityServed(cs: seq<Customer>): nat {
    if cs == [] then 0
    else PriorityServed(cs[..|cs| - 1])
         + (if cs[|cs| - 1].status == Completed && cs[|cs| - 1].category != REGULAR then 1 else 0)
  }

  /** The priority customers served are among the completed ones. */
  lemma {:induction false} PriorityServedAtMostCompleted(cs: seq<Customer>)
    ensures PriorityServed(cs) <= |IdsWithStatus(cs, Completed)|
  {
    if cs != [] {
      PriorityServedAtMostCompleted(cs[..|cs| - 1]);
    }
  }

  /** Every customer is waiting, being served or completed: the three counts add up to the total. */
  lemma {:induction false} StatusCountsPartition(cs: seq<Customer>)
    ensures |IdsWithStatus(cs, Waiting)| + |IdsWithStatus(cs, Serving)| + |IdsWithStatus(cs, Completed)| == |cs|
  {
    if cs != [] {
      StatusCountsPartition(cs[..|cs| - 1]);
    }
  }

  /** The sum of the waits of the customers at positions `ids` that carry a completion time. */
  function TotalWait(cs: seq<Customer>, ids: seq<nat>): int
    requires forall k :: 0 <= k < |ids| ==> ids[k] < |cs|
  {
    if ids == [] then 0
    else
      var c := cs[ids[|ids| - 1]];
      TotalWait(cs, ids[..|ids| - 1]) + (if c.completion.Some? then c.completion.value - c.arrival else 0)
  }

  /** Python's `round` of the quotient `a / b`: the nearest integer, ties to the even one. */
  function RoundHalfEven(a: int, b: int): (r: int)
    requires b > 0
    ensures -b <= 2 * (a - r * b) <= b
    ensures 2 * (a - r * b) == b || 2 * (a - r * b) == -b ==> r % 2 == 0
  {
    var q, m := a / b, a % b;
    if 2 * m < b then q
    else if 2 * m > b then q + 1
    else if q % 2 == 0 then q
    else q + 1
  }

  /** When every wait lies within [lo, hi], the total of `n` waits lies within [lo * n, hi * n]. */
  lemma {:induction false} TotalWaitBounds(cs: seq<Customer>, ids: seq<nat>, lo: int, hi: int)
    requires forall k :: 0 <= k < |ids| ==> ids[k] < |cs| && cs[ids[k]].completion.Some?
    requires forall k :: 0 <= k < |ids| ==> lo <= cs[ids[k]].completion.value - cs[ids[k]].arrival <= hi
    ensures lo * |ids| <= TotalWait(cs, ids) <= hi * |ids|
  {
    if ids != [] {
      var n := |ids| - 1;
      var init := ids[..n];
      assert forall k :: 0 <= k < n ==> init[k] == ids[k];
      TotalWaitBounds(cs, init, lo, hi);
      var c := cs[ids[n]];
      assert TotalWait(cs, ids) == TotalWait(cs, init) + (c.completion.value - c.arrival);
      assert lo * |ids| == lo * n + lo && hi * |ids| == hi * n + hi;
    }
  }

  /** `averageWaitTime`: 0 with nobody completed, else the rounded mean wait of the completed customers. */
  function AverageWait(cs: seq<Customer>): int {
    var done := IdsWithStatus(cs, Completed);
    if |done| == 0 then 0 else RoundHalfEven(TotalWait(cs, done), |done|)
  }

  /** A non-positive product with a positive factor has a non-positive other factor. */
  lemma {:induction false} NonPositiveFactor(x: int, n: int)
    requires n > 0 && x * n <= 0
    ensures x <= 0
  {
  }

  /** Rounding a quotient that lies between `lo` and `hi` gives a value between `lo` and `hi`. */
  lemma {:induction false} RoundHalfEvenBounds(t: int, n: int, lo: int, hi: int)
    requires n > 0 && lo * n <= t <= hi * n
    ensures lo <= RoundHalfEven(t, n) <= hi
  {
    var r := RoundHalfEven(t, n);
    assert (2 * (lo - r) - 1) * n == 2 * (lo * n - r * n) - n;
    NonPositiveFactor(2 * (lo - r) - 1, n);
    assert (2 * (r - hi) - 1) * n == 2 * (r * n - hi * n) - n;
    NonPositiveFactor(2 * (r - hi) - 1, n);
  }

  /** When every completed wait lies within [lo, hi], so does the reported average. */
  lemma {:induction false} AverageWaitBounds(cs: seq<Customer>, lo: int, hi: int)
    requires StoreInvariant(cs)
    requires IdsWithStatus(cs, Completed) != []
    requires forall i :: 0 <= i < |cs| && cs[i].status == Completed ==>
      lo <= cs[i].completion.value - cs[i].arrival <= hi
    ensures lo <= AverageWait(cs) <= hi
  {
    var done := IdsWithStatus(cs, Completed);
    TotalWaitBounds(cs, done, lo, hi);
    RoundHalfEvenBounds(TotalWait(cs, done), |done|, lo, hi);
  }
}
