# Priority queue backend, modelled in Dafny

This is a model of the Flask backend of a government-office queue system. It
registers customers, gives each a queue number, and ranks the waiting
customers by a live priority score. The score is the sum of:

- category points;
- twice the urgency;
- 2 for an appointment;
- an aging bonus for the wait.

The backend lists the ranked queue with anti-starvation alerts, serves the
highest-ranked waiting customer, and reports service counts.

The project has these modules:

- `Wrappers`: `Option` and `Result`.
- `Scoring`: the initial score of a registration, the live score with tiered
  aging and the extra `Regular` bonus, and the `High`/`Medium`/`Low` level.
- `Text`: the decimal and zero-padded renderings Python produces, and the
  queue number `<first letter uppercased>-<count + 1, zero-padded to at least three digits>`.
- `QuickSort`: the three-way quick sort, descending by score, with the middle
  element as pivot. It is proved to be a permutation, sorted, and stable:
  elements of equal score keep their input order.
- `Records`: the `customers` table as a sequence of rows. A customer's id is
  its position, because rows are never deleted. This module also holds:
  - the two status queries (`.all()` and `.first()`);
  - the store invariant: at most one customer is served, queue numbers are
    the ones registration issued, and exactly the completed customers have a
    completion time.
- `Views`: what the endpoints compute, as functions of the store and the
  current minute `now`. It covers:
  - the ranked queue and the alerts;
  - the choice of the next customer;
  - the state transition of serving next;
  - the analytics counts.

  The properties it proves include:
  - serving next picks the first waiting customer of maximal live score;
  - serving next keeps the invariant, touches only the completed customer
    and the promoted customer, and shortens the waiting list by one when somebody waits;
  - the reported average lies between the shortest and longest completed
    waits.
- `Store`: `CustomerStore`, a class whose `customers` field is the table.
  Its methods are the four endpoints, plus `CompleteCurrent`, the completion
  step that `ServeNext` calls first, written as the source writes them,
  with loops where the source loops: `GetQueueStatus` builds the entries and
  the alerts, `Analytics` sums the waits, and `ServeNext` calls the
  module-level `PickNext`, whose helper `CollectCandidates` builds the
  candidates. `AddCustomer` is proved against `Records.NewCustomer`; the
  other methods are proved against the functions in `Views`.

Time is an integer number of minutes passed in as `now`. The source reads the
clock (`datetime.datetime.now()`) at each call site.

## Model

| member | source | states |
|---|---|---|
| Wrappers.Option.GetOr | backend/app.py:89-91 | `dict.get(key, default)`: the stored value when the key is present, the default when it is absent |
| Scoring.CategoryPoints | backend/app.py:88-89 | the points table, where an unknown category scores 1; exactly PWD, Senior Citizen and Pregnant score above 1; only PWD scores 5; exactly Senior Citizen and Pregnant score 4 |
| Scoring.InitialScoreRange | backend/app.py:87-93 | for urgency 1..5 the initial score lies in [3, 17]; exactly the non-priority, urgency-1, no-appointment requests score 3; exactly PWD, urgency 5, with appointment scores 17 |
| Scoring.UnknownCategoryScoresAsRegular | backend/app.py:89 | a missing or unknown category scores the same as `Regular` |
| Scoring.InitialScoreIncrements | backend/app.py:90-92 | one more unit of urgency adds exactly 2 points; an appointment adds exactly 2 points |
| Scoring.ScoredCategory | backend/app.py:89 | definition: the request's category, or `Regular` when the key is absent |
| Scoring.UrgencyOf | backend/app.py:90 | definition: the request's urgency, or 1 when the key is absent |
| Scoring.HasAppointment | backend/app.py:91 | definition: the request's appointment flag, or no appointment when the key is absent |
| Scoring.InitialScore | backend/app.py:82-93 | definition of `calculate_priority_score`: category points plus twice the urgency plus 2 for an appointment; its range and increments are the lemmas above |
| Scoring.AgingTier | backend/app.py:104-106 | the tier bonus is 0, 1, 3 or 5, and it is 0 exactly when the wait is under 10 minutes |
| Scoring.RegularBonus | backend/app.py:107-108 | the extra bonus is 3 exactly for a `Regular` customer waiting 25 minutes or more, and 0 otherwise |
| Scoring.DynamicScore | backend/app.py:95-109 | definition of `get_dynamic_score`'s score: the stored initial score plus the tier bonus plus the `Regular` extra; its bounds and monotonicity are the lemmas below |
| Scoring.DynamicScoreBounds | backend/app.py:102-109 | aging never lowers the score and adds at most 8; a non-`Regular` customer gets at most 5; no bonus under 10 minutes; the full 8 exactly for `Regular` at 30 minutes or more |
| Scoring.DynamicScoreMonotone | backend/app.py:102-109 | the live score never decreases as the wait grows |
| Scoring.AgingGapBound | backend/app.py:103-108 | no wait closes a gap of more than 8 points between two initial scores |
| Scoring.CappedAgingAllowsStarvation | backend/app.py:88-108 | a `Regular` urgency-1 customer without appointment never outranks a `PWD` urgency-5 customer, however long the first waits |
| Scoring.LevelOf | backend/app.py:160 | `High` exactly from 12, `Medium` exactly for 8..11, `Low` exactly below 8 |
| Scoring.LevelMonotone | backend/app.py:160 | a higher score never has a lower level |
| Text.Decimal | backend/app.py:166 | `str(n)` is a non-empty string of digits with no leading zero |
| Text.DecimalRoundTrip | backend/app.py:166 | reading back `str(n)` gives `n` |
| Text.ZeroPad | backend/app.py:127 | `:03d` gives digits only, with length max(width, number of digits) |
| Text.ZeroPadRoundTrip | backend/app.py:127 | the padded number reads back as the number |
| Text.QueuePrefix | backend/app.py:127 | `[:1].upper()` has one character in the model (ASCII upper-casing), or none for an empty category |
| Text.UpperChar | backend/app.py:127 | `str.upper()` on one character in the model: the result is never a lower-case ASCII letter, and any other character is unchanged |
| Text.QueueNumber | backend/app.py:127 | definition: the prefix, a dash and the count zero-padded to at least three digits; its round trip and injectivity are the lemmas below |
| Text.QueueNumberRoundTrip | backend/app.py:127 | the numeric part of the `n`-th queue number is `n`, whatever the category |
| Text.QueueNumberInjective | backend/app.py:36 | registrations at different counts never produce the same queue number |
| Text.DecimalExamples | backend/app.py:127 | "S-012", "P-001", "007", "1234" and the alert numbers, as Python renders them |
| QuickSort.Select | backend/app.py:73-75 | each comprehension keeps only elements on its side of the pivot, and is shorter than its input when some element lies on another side |
| QuickSort.PartitionPermutes | backend/app.py:73-75 | the three partitions together are a permutation of the input |
| QuickSort.Sort | backend/app.py:63-79 | the result is a permutation of the input and sorted highest score first; a list of length 0 or 1 is returned as is |
| QuickSort.SortStable | backend/app.py:73-79 | among elements of equal score the input order is kept |
| QuickSort.SortHeadIsMax | backend/app.py:59-79 | the head of the result is an input element of maximal score |
| QuickSort.SortHeadIsFirstMax | backend/app.py:63-79 | the head of the result is the first input element of maximal score |
| QuickSort.SortHigherFirst | backend/app.py:59-79 | an element of strictly higher score comes strictly earlier in the result |
| Records.IdsWithStatus | backend/app.py:150 | exactly the positions with the status, each once, in increasing order |
| Records.FirstWithStatus | backend/app.py:149 | the first position with the status, or none exactly when no row has it |
| Records.WaitMinutes | backend/app.py:102 | definition: the minutes from arrival to `now` |
| Records.LiveScore | backend/app.py:102-109 | definition: the live score of a stored customer at `now`, the dynamic score of its initial score, category and wait |
| Records.NewCustomer | backend/app.py:128-132 | definition: the inserted row, with the request's name and category, service `N/A` and urgency 1 and no appointment by default, its initial score, status waiting, arrival `now` and no completion |
| Records.StoreInvariant | backend/app.py:36-50 | definition of the invariant: at most one row serving, every queue number the one issued for its position, and a completion time exactly on the completed rows |
| Records.QueueNumbersIncrease | backend/app.py:126-127 | under the invariant, numeric parts of queue numbers strictly increase with registration order, and no two rows share a queue number |
| Records.AtMostOneServing | backend/app.py:194-222 | under the invariant, the serving query finds at most one row |
| Records.AddKeepsInvariant | backend/app.py:126-134 | appending the new row keeps the invariant and adds exactly one waiting customer |
| Views.WaitingEntriesExactly | backend/app.py:153-163 | an entry is built exactly for each waiting customer, and it carries that customer's live score, its level and its wait |
| Views.RankedQueueMembers | backend/app.py:169 | the ranked queue holds exactly the waiting customers' entries |
| Views.RankedQueueOrder | backend/app.py:169 | a waiting customer of higher live score is listed before one of lower score |
| Views.AlertBonusIsTier | backend/app.py:165 | the bonus an alert announces is the aging tier and leaves out the `Regular` extra |
| Views.AlertsMembers | backend/app.py:155-166 | an alert is produced for a listed customer exactly when that customer is `Regular` and has waited 10 minutes or more |
| Views.WaitingAlertsExactly | backend/app.py:164-166 | the alerts are exactly those of the waiting `Regular` customers who have waited 10 minutes or more |
| Views.ChooseNext | backend/app.py:201-220 | nobody is chosen exactly when nobody waits; otherwise the choice is a waiting customer of maximal live score, and no earlier waiting customer has that score |
| Views.CandidatesHead | backend/app.py:207-220 | the head of the sorted candidates is the first listed customer of maximal live score |
| Views.CompleteServingEffects | backend/app.py:194-198 | the served customer becomes completed at `now`; every other row is unchanged; nobody is served afterwards |
| Views.CompleteServingKeepsInvariant | backend/app.py:194-198 | completing the served customer keeps the invariant |
| Views.PromoteKeepsInvariant | backend/app.py:220-222 | promoting a waiting customer while nobody is served keeps the invariant |
| Views.AdvanceEffects | backend/app.py:194-222 | completing and promoting change only the served row and the chosen row |
| Views.CompleteServingKeepsWaiting | backend/app.py:194-201 | completion leaves the waiting list, and the order of its rows, as it was |
| Views.ChooseNextAfterComplete | backend/app.py:194-220 | completing the served customer first does not change who is chosen, or that customer's row |
| Views.AdvanceKeepsInvariant | backend/app.py:194-222 | completing and then promoting a waiting customer keeps the invariant |
| Views.AfterServeKeepsInvariant | backend/app.py:188-225 | serving next keeps the invariant |
| Views.ServeNextEffects | backend/app.py:194-225 | the served customer is completed at `now`, the chosen customer is served, every other row is unchanged, and nobody is served when nobody waited |
| Views.ServeNextWhenNobodyWaits | backend/app.py:201-204 | with nobody waiting nobody is chosen, and serving next a second time changes nothing |
| Views.IdleStoreIsFixed | backend/app.py:194-204 | when every customer is completed, serving next changes nothing |
| Views.ServeNextShortensQueue | backend/app.py:216-222 | serving next removes exactly one customer from the waiting count when somebody waits, and none otherwise |
| Views.AdvanceShortensQueue | backend/app.py:220-222 | promoting a waiting customer removes exactly that one from the waiting count |
| Views.StatusCountsAgree | backend/app.py:236-237 | two stores that differ in one row's status differ by one in that status's count |
| Views.PriorityServedAtMostCompleted | backend/app.py:245 | the number of priority customers served never exceeds the number of completed customers |
| Views.StatusCountsPartition | backend/app.py:235-237 | the waiting, serving and completed counts add up to the total |
| Views.RoundHalfEven | backend/app.py:244 | Python's `round`: the nearest integer to the quotient, taking the even one on a tie |
| Views.TotalWaitBounds | backend/app.py:238-241 | when every wait lies in [lo, hi], the total of n waits lies in [lo·n, hi·n] |
| Views.RoundHalfEvenBounds | backend/app.py:242-244 | rounding a quotient that lies in [lo, hi] stays in [lo, hi] |
| Views.AverageWaitBounds | backend/app.py:238-244 | when every completed wait lies in [lo, hi], so does the reported average |
| Views.EntryFor | backend/app.py:157-162 | definition: the entry dictionary of one waiting customer, with its live score, the level of that score and its wait |
| Views.WaitingEntries | backend/app.py:153-163 | definition: the entries of the waiting customers in query order, before sorting |
| Views.Entries | backend/app.py:155-163 | definition: the entries built, in order, for the listed customers |
| Views.EntryScore | backend/app.py:73-75 | definition: the sort key `x['priority']['score']` of a queue entry |
| Views.AlertDue | backend/app.py:164 | definition: a wait of 10 minutes or more and the category `Regular` |
| Views.AlertBonus | backend/app.py:165 | definition: 5 from 30 minutes, 3 from 20, 1 otherwise |
| Views.AlertFor | backend/app.py:165-166 | definition: the alert message `<name> (Regular) - <wait> Minute Wait (+<bonus> Aging Bonus)` |
| Views.Alerts | backend/app.py:155-166 | definition: the alerts of the listed customers that are due, in list order |
| Views.WaitingAlerts | backend/app.py:150-166 | definition: the alerts over the waiting customers |
| Views.CurrentlyServing | backend/app.py:172-178 | definition: the first serving row's queue number, name, service, category and live score, or none |
| Views.Candidates | backend/app.py:207-213 | definition: the ids and live scores of the listed customers, in list order |
| Views.CandidateScore | backend/app.py:212-216 | definition: the sort key `x['priority']['score']` of a serve-next candidate |
| Views.CompleteServing | backend/app.py:194-198 | the table keeps its length; definition: the first serving row, if any, becomes completed at `now` |
| Views.Advance | backend/app.py:194-222 | the table keeps its length; definition: complete the serving row, then mark the chosen row, if any, as serving |
| Views.AfterServe | backend/app.py:188-222 | the table keeps its length; definition: advance to the customer `ChooseNext` picks |
| Views.PriorityServed | backend/app.py:245 | definition: the number of completed rows whose category is not `Regular` |
| Views.TotalWait | backend/app.py:238-241 | definition: the sum of completion minus arrival over the listed rows that have a completion time |
| Views.AverageWait | backend/app.py:242-244 | definition: 0 with nobody completed, otherwise the total wait of the completed rows divided by their number and rounded |
| Store.CollectCandidates | backend/app.py:207-213 | the loop builds the list of ids and live scores of the waiting customers, in query order |
| Store.PickNext | backend/app.py:201-220 | the quick-sort head is the choice of `Views.ChooseNext` |
| Store.CustomerStore.constructor | backend/app.py:30-50 | a new store is empty and satisfies the invariant |
| Store.CustomerStore.AddCustomer | backend/app.py:117-139 | rejects a request missing `fullName` or `customerCategory`, and changes nothing then; otherwise appends the new waiting row numbered after the current count and returns its queue number, name and initial score; keeps the invariant |
| Store.CustomerStore.GetQueueStatus | backend/app.py:143-184 | the loop builds exactly the waiting entries and the alerts, in query order; the queue is their quick sort; the served customer is reported with its live score |
| Store.CustomerStore.CompleteCurrent | backend/app.py:194-198 | the served customer, if any, is completed at `now`; keeps the invariant |
| Store.CustomerStore.ServeNext | backend/app.py:188-227 | the new table is the serve-next transition of the old one; the response names the chosen customer, or nobody; keeps the invariant |
| Store.CustomerStore.Analytics | backend/app.py:231-248 | the total count, the waiting count, the priority-served count and the rounded average wait of the completed customers |

## Left out

- HTTP, Flask routing, `jsonify`, status codes (400, 201) and the `"success"` flags are not modelled. A rejection is a `Failure` value, and each response is a datatype holding the fields the frontend reads.
- The alert object holds only its `message` in the source. The model also keeps the name, wait and bonus the message is built from.
- SQLAlchemy is not modelled: sessions, `commit`, `create_all` and transactions are outside the model. The table is a sequence, and each method's changes take effect at once.
- Ids: the source uses uuid strings. The model uses the row's position, because rows are never deleted and `Customer.query.get` then finds the same row.
- Row order: the database returns query results in an order it does not specify. The model uses insertion order. The ranking and the choice of the next customer are therefore exact only up to ties between equal scores, which the source breaks by that unspecified order.
- The clock: `datetime.datetime.now()` is replaced by an integer `now` in minutes, passed in with each call. The model leaves out three effects of this:
  - the truncation of sub-minute waits (`int(total_seconds / 60)`);
  - the fractional minutes summed in analytics;
  - the clock moving within one request.
- The average wait: the source divides floats and applies Python's `round`. The model rounds the exact rational quotient half to even. Float rounding error is not modelled.
- Upper-casing: `str.upper()` is modelled for ASCII letters only. Other characters keep their case in the model, so Unicode case mapping is not modelled.
- Request values of the wrong JSON type, or `null`, are not modelled. Each field is either absent or holds a value of the expected type.
- The database's column limits are not modelled: `String(10)` and the other string lengths, the 32-bit range of the `db.Integer` columns `urgency` and `initial_priority_score`, and the `unique` constraint on `queue_number`. The model instead proves that queue numbers are unique (`Records.QueueNumbersIncrease`). An empty category gives an empty prefix, as in the source.
- String comparison in queries: `Customer.category != 'Regular'` in the analytics count runs in the database, which compares under the column's collation (case-insensitive by default in MySQL). `Views.PriorityServed` compares exactly, so it counts a completed customer of category `regular` that the database would not count. The Python-side comparisons for the `Regular` bonus and the alerts are exact in the source too.
- Concurrency: simultaneous requests, and the race between counting rows and inserting one, are not modelled.
- `fairnessMetrics` is always the empty object in the source and is not modelled.
- The frontend and the database setup are not part of this model.
- The code behaves as follows, and the model follows it:
  - the urgency is not checked to lie in 1..5 (app.py:90, 130). `Scoring.InitialScoreRange` assumes that range; other values are scored as given;
  - `totalCustomersToday` counts every row (app.py:235);
  - the average is 0 when nobody has completed (app.py:242);
  - a category missing from the points table scores 1, but it counts as a priority customer served because it is not `Regular` (compared exactly; see the string-comparison line above);
  - an appointment adds 2 points to the score (app.py:91-92);
  - alerts are raised only for `Regular` customers, in query order (app.py:164);
  - ties between equal scores follow the query order, because the quick sort keeps it (app.py:73-79);
  - the aging tiers are fixed constants in the code (10, 20 and 30 minutes, plus the `Regular` extra at 25, app.py:104-108), and the bonus is capped at 8 points, so aging cannot overcome a larger score gap. `Scoring.CappedAgingAllowsStarvation` shows that a long-waiting `Regular` customer can still be passed over indefinitely.
