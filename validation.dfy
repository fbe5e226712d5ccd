/** The input checks of the tracking and rating routes, before they hand the event to the engine. */
module Validation {
  import opened Wrappers
  import opened Text
  import Activity
  import RlEngine
  import Store

  // ---------------------------------------------------------------------------------------------
  // Input checks of the tracking and rating routes
  // ---------------------------------------------------------------------------------------------

  /** The outcome of a route's input check: go on, or answer with the status and the error message. */
  datatype Verdict = Accepted | Rejected(status: nat, error: string)

  const BadRequest: nat := 400

  /** The event types the tracking route accepts. */
  const ValidEvents: seq<string> := ["view", "click", "search", "rating", "recommend_click", "dwell"]

  /** `!movieId`: an absent id and the id 0 are falsy. */
  predicate MissingId(movieId: Option<int>)
  {
    movieId.None? || movieId.value == 0
  }

  /** The `/api/track` check: a missing (or falsy) id or event type first, then an event type outside
      the six. A tracked interaction goes through exactly when it names a movie and one of the six event
      types; those are the types the interaction log's CHECK constraint admits, the engine rewards and the
      dashboard counts. */
  function ValidateTrack(movieId: Option<int>, eventType: Option<string>): (v: Verdict)
    ensures v == Accepted <==> !MissingId(movieId) && eventType.Some? && eventType.value in ValidEvents
    ensures v == Accepted ==>
      && eventType.value in Store.EventTypes
      && RlEngine.Rewarded(eventType.value) && eventType.value in Activity.CountedTypes
    ensures v != Accepted ==> v.status == BadRequest
  {
    if MissingId(movieId) || eventType.None? || eventType.value == "" then
      Rejected(BadRequest, "movieId and eventType are required")
    else if eventType.value !in ValidEvents then Rejected(BadRequest, "Invalid event type")
    else
      var t := eventType.value;
      assert t == ValidEvents[0] || t == ValidEvents[1] || t == ValidEvents[2] || t == ValidEvents[3]
        || t == ValidEvents[4] || t == ValidEvents[5];
      Accepted
  }

  /** The `/api/rate` check: `!movieId || !rating || rating < 1 || rating > 5`. A rating goes through
      exactly when it names a movie and lies between 1 and 5 stars. */
  function ValidateRate(movieId: Option<int>, rating: Option<real>): (v: Verdict)
    ensures v == Accepted <==> !MissingId(movieId) && rating.Some? && 1.0 <= rating.value <= 5.0
    ensures v != Accepted ==> v.status == BadRequest
  {
    if MissingId(movieId) || rating.None? || rating.value == 0.0 || rating.value < 1.0 || rating.value > 5.0 then
      Rejected(BadRequest, "movieId and rating (1-5) are required")
    else Accepted
  }

  /** A whole-star rating that passes the check teaches the engine a reward by its stars: positive from 4
      up, neutral at 3, negative below. */
  lemma AcceptedStarsReward(movieId: int, stars: nat)
    requires ValidateRate(Some(movieId), Some(stars as real)) == Accepted
    ensures 1 <= stars <= 5
    ensures RlEngine.CalculateReward("rating", DecimalString(stars)) ==
      if stars >= 4 then RlEngine.RewardRatingPositive
      else if stars == 3 then RlEngine.RewardRatingNeutral
      else RlEngine.RewardRatingNegative
  {
    RlEngine.RatingReward(stars);
  }
}
