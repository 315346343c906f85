/**
 * The scoring rules of the queue backend: the initial score computed once at
 * registration, the live score that adds wait-time aging, and the coarse
 * priority level shown next to a score.
 */
module Scoring {
  import opened Wrappers

  /**
   * The JSON body of a registration request. Each field is `None` when its key
   * is absent from the body.
   */
  datatype Request = Request(
    fullName: Option<string>,
    customerCategory: Option<string>,
    serviceType: Option<string>,
    customUrgencyLevel: Option<int>,
    hasAppointment: Option<bool>)

  const PWD: string := "PWD"
  const SENIOR_CITIZEN: string := "Senior Citizen"
  const PREGNANT: string := "Pregnant"
  const REGULAR: string := "Regular"

  /** The categories that the points table ranks above `Regular`. */
  predicate IsPriorityCategory(category: string) {
    category == PWD || category == SENIOR_CITIZEN || category == PREGNANT
  }

  /** Points of a category; a category missing from the table scores like `Regular`. */
  function CategoryPoints(category: string): (p: int)
    ensures IsPriorityCategory(category) <==> p > 1
    ensures p >= 1
    ensures p == 5 <==> category == PWD
    ensures p == 4 <==> category == SENIOR_CITIZEN || category == PREGNANT
  {
    if category == PWD then 5
    else if category == SENIOR_CITIZEN then 4
    else if category == PREGNANT then 4
    else 1
  }

  /** The category a request is scored with: `Regular` when the key is absent. */
  function ScoredCategory(req: Request): string {
    req.customerCategory.GetOr(REGULAR)
  }

  /** The urgency a request is scored and stored with: 1 when the key is absent. */
  function UrgencyOf(req: Request): int {
    req.customUrgencyLevel.GetOr(1)
  }

  /** Whether a request counts as holding an appointment: no when the key is absent. */
  function HasAppointment(req: Request): bool {
    req.hasAppointment.GetOr(false)
  }

  /** The initial score of a registrant: category points, twice the urgency, 2 for an appointment. */
  function InitialScore(req: Request): int {
    CategoryPoints(ScoredCategory(req)) + UrgencyOf(req) * 2 + (if HasAppointment(req) then 2 else 0)
  }

  /** For an urgency in 1..5 the initial score lies in [3, 17], and both ends are reached. */
  lemma {:induction false} InitialScoreRange(req: Request)
    requires 1 <= UrgencyOf(req) <= 5
    ensures 3 <= InitialScore(req) <= 17
    ensures InitialScore(req) == 3 <==>
      !IsPriorityCategory(ScoredCategory(req)) && UrgencyOf(req) == 1 && !HasAppointment(req)
    ensures InitialScore(req) == 17 <==>
      ScoredCategory(req) == PWD && UrgencyOf(req) == 5 && HasAppointment(req)
  {
  }

  /** A request without a category, or with one the table does not know, scores as `Regular`. */
  lemma {:induction false} UnknownCategoryScoresAsRegular(req: Request)
    requires req.customerCategory.None? || !IsPriorityCategory(req.customerCategory.value)
    ensures InitialScore(req) == InitialScore(req.(customerCategory := Some(REGULAR)))
  {
  }

  /** Each unit of urgency adds exactly 2 points, and an appointment adds exactly 2 points. */
  lemma {:induction false} InitialScoreIncrements(req: Request, u: int)
    ensures InitialScore(req.(customUrgencyLevel := Some(u + 1)))
         == InitialScore(req.(customUrgencyLevel := Some(u))) + 2
    ensures InitialScore(req.(hasAppointment := Some(true)))
         == InitialScore(req.(hasAppointment := Some(false))) + 2
  {
  }

  /** The tiered aging bonus for a wait of `wait` minutes. */
  function AgingTier(wait: int): (bonus: int)
    ensures bonus == 0 || bonus == 1 || bonus == 3 || bonus == 5
    ensures bonus == 0 <==> wait < 10
  {
    if wait >= 30 then 5
    else if wait >= 20 then 3
    else if wait >= 10 then 1
    else 0
  }

  /** The extra aging bonus for a `Regular` customer who has waited 25 minutes or more. */
  function RegularBonus(category: string, wait: int): (bonus: int)
    ensures bonus == 0 || bonus == 3
    ensures bonus == 3 <==> category == REGULAR && wait >= 25
  {
    if category == REGULAR && wait >= 25 then 3 else 0
  }

  /** The live score of a customer with stored initial score `initial` after `wait` minutes. */
  function DynamicScore(initial: int, category: string, wait: int): int {
    initial + AgingTier(wait) + RegularBonus(category, wait)
  }

  /** Aging never lowers the score and adds at most 8; only a `Regular` customer can get more than 5. */
  lemma {:induction false} DynamicScoreBounds(initial: int, category: string, wait: int)
    ensures initial <= DynamicScore(initial, category, wait) <= initial + 8
    ensures category != REGULAR ==> DynamicScore(initial, category, wait) <= initial + 5
    ensures wait < 10 ==> DynamicScore(initial, category, wait) == initial
    ensures DynamicScore(initial, category, wait) == initial + 8 <==> category == REGULAR && wait >= 30
  {
  }

  /** With everything else fixed, the live score is non-decreasing in the wait time. */
  lemma {:induction false} DynamicScoreMonotone(initial: int, category: string, wait1: int, wait2: int)
    requires wait1 <= wait2
    ensures DynamicScore(initial, category, wait1) <= DynamicScore(initial, category, wait2)
  {
  }

  /** Aging can never close a gap of more than 8 points between two initial scores, whatever the waits. */
  lemma {:induction false} AgingGapBound(initial1: int, category1: string, wait1: int,
                                         initial2: int, category2: string, wait2: int)
    requires initial1 > initial2 + 8
    ensures DynamicScore(initial1, category1, wait1) > DynamicScore(initial2, category2, wait2)
  {
    DynamicScoreBounds(initial1, category1, wait1);
    DynamicScoreBounds(initial2, category2, wait2);
  }

  /**
   * The aging bonus is capped, so it does not rule out starvation: a `Regular`
   * customer of urgency 1 without appointment never outranks a `PWD`
   * customer of urgency 5, however long the former waits and however
   * recently the latter arrived.
   */
  lemma {:induction false} CappedAgingAllowsStarvation(regular: Request, pwd: Request, wait: int, pwdWait: int)
    requires ScoredCategory(regular) == REGULAR && UrgencyOf(regular) == 1 && !HasAppointment(regular)
    requires ScoredCategory(pwd) == PWD && UrgencyOf(pwd) == 5
    ensures DynamicScore(InitialScore(regular), REGULAR, wait) < DynamicScore(InitialScore(pwd), PWD, pwdWait)
  {
    DynamicScoreBounds(InitialScore(regular), REGULAR, wait);
    DynamicScoreBounds(InitialScore(pwd), PWD, pwdWait);
  }

  /** The coarse priority level shown for a score. */
  datatype Level = High | Medium | Low

  /** `High` from 12 up, `Medium` from 8 to 11, `Low` below 8. */
  function LevelOf(score: int): (level: Level)
    ensures level == High <==> score >= 12
    ensures level == Medium <==> 8 <= score < 12
    ensures level == Low <==> score < 8
  {
    if score >= 12 then High else if score >= 8 then Medium else Low
  }

  /** A rank for comparing levels: `Low` below `Medium` below `High`. */
  function LevelRank(level: Level): nat {
    match level
    case Low => 0
    case Medium => 1
    case High => 2
  }

  /** A higher score never has a lower level, so aging never demotes a customer's level. */
  lemma {:induction false} LevelMonotone(score1: int, score2: int)
    requires score1 <= score2
    ensures LevelRank(LevelOf(score1)) <= LevelRank(LevelOf(score2))
  {
  }
}
