/** The two wait loops: poll a status until it is terminal, then return on
    `ready` and raise on `failed`. The service is replaced by the finite
    sequence of statuses it would report, one per poll; the pause between
    polls is not modelled. */
module Polling {
  import opened Wrappers
  import opened Errors

  /** Which loop: waiting for the uploaded asset, or for the indexed asset. */
  datatype Stage = AssetProcessing | Indexing

  const Ready := "ready"
  const Failed := "failed"

  predicate IsTerminal(status: Option<string>)
  {
    status == Some(Ready) || status == Some(Failed)
  }

  /** The error each loop raises on `failed`. */
  function FailureOf(stage: Stage): Error
  {
    match stage
    case AssetProcessing => AssetProcessingFailed
    case Indexing => IndexingFailed
  }

  /** The position of the first terminal status, if any. */
  function FirstTerminal(statuses: seq<Option<string>>): (k: Option<nat>)
    ensures k.Some? ==> k.value < |statuses| && IsTerminal(statuses[k.value])
    ensures k.Some? ==> forall i :: 0 <= i < k.value ==> !IsTerminal(statuses[i])
    ensures k.None? ==> forall i :: 0 <= i < |statuses| ==> !IsTerminal(statuses[i])
  {
    if |statuses| == 0 then None
    else if IsTerminal(statuses[0]) then Some(0)
    else match FirstTerminal(statuses[1..])
      case None => None
      case Some(j) => Some(j + 1)
  }

  /** What a wait comes to: the number of polls made when it returns, the
      stage's error when it raises, or still waiting when the statuses run
      out. */
  function PollOutcome(stage: Stage, statuses: seq<Option<string>>): Outcome<nat>
  {
    match FirstTerminal(statuses)
    case None => Pending
    case Some(k) => if statuses[k] == Some(Ready) then Done(k + 1) else Raised(FailureOf(stage))
  }

  /** `_wait_for_asset_ready` and `_wait_for_indexed_asset_ready`. */
  method WaitUntilReady(stage: Stage, statuses: seq<Option<string>>) returns (r: Outcome<nat>)
    ensures r == PollOutcome(stage, statuses)
  {
    var polls := 0;
    while polls < |statuses|
      invariant 0 <= polls <= |statuses|
      invariant forall i :: 0 <= i < polls ==> !IsTerminal(statuses[i])
    {
      var status := statuses[polls];
      polls := polls + 1;
      if status == Some(Ready) || status == Some(Failed) {
        if status != Some(Ready) {
          return Raised(FailureOf(stage));
        }
        return Done(polls);
      }
    }
    return Pending;
  }

  // ----- properties -----

  /** A wait returns exactly when the first terminal status is `ready`, and
      then after polling up to and including it. */
  lemma ReturnsIffFirstTerminalIsReady(stage: Stage, statuses: seq<Option<string>>, k: nat)
    ensures PollOutcome(stage, statuses) == Done(k + 1) <==>
              && k < |statuses|
              && statuses[k] == Some(Ready)
              && forall i :: 0 <= i < k ==> !IsTerminal(statuses[i])
  {
  }

  /** A wait raises exactly when the first terminal status is `failed`. */
  lemma RaisesIffFirstTerminalIsFailed(stage: Stage, statuses: seq<Option<string>>)
    ensures PollOutcome(stage, statuses).Raised? <==>
              exists k :: && 0 <= k < |statuses|
                          && statuses[k] == Some(Failed)
                          && forall i :: 0 <= i < k ==> !IsTerminal(statuses[i])
  {
    match FirstTerminal(statuses)
    case None =>
    case Some(k) =>
      if statuses[k] == Some(Failed) {
        assert statuses[k] != Some(Ready);
      }
  }

  /** Any other status, including a missing one or a differently cased
      `Ready`, keeps the loop polling. */
  lemma NonTerminalStatusesNeverEnd(stage: Stage, statuses: seq<Option<string>>)
    requires forall i :: 0 <= i < |statuses| ==> statuses[i] != Some(Ready) && statuses[i] != Some(Failed)
    ensures PollOutcome(stage, statuses) == Pending
  {
  }

  /** Statuses after the first terminal one are never looked at. */
  lemma {:induction false} LaterStatusesIgnored(stage: Stage, statuses: seq<Option<string>>, rest: seq<Option<string>>)
    requires FirstTerminal(statuses).Some?
    ensures PollOutcome(stage, statuses + rest) == PollOutcome(stage, statuses)
  {
    var k := FirstTerminal(statuses).value;
    var s := statuses + rest;
    assert s[k] == statuses[k];
    assert forall i :: 0 <= i < k ==> s[i] == statuses[i];
    FirstTerminalIs(s, k);
  }

  /** Non-terminal polls before a sequence only add to the poll count. */
  lemma {:induction false} NonTerminalPrefixDelays(stage: Stage, waiting: seq<Option<string>>, statuses: seq<Option<string>>)
    requires forall i :: 0 <= i < |waiting| ==> !IsTerminal(waiting[i])
    ensures PollOutcome(stage, waiting + statuses) ==
      match PollOutcome(stage, statuses)
      case Done(n) => Done(n + |waiting|)
      case other => other
  {
    var s := waiting + statuses;
    match FirstTerminal(statuses)
    case None =>
      forall i | 0 <= i < |s| ensures !IsTerminal(s[i]) {
        if i >= |waiting| { assert s[i] == statuses[i - |waiting|]; }
      }
      FirstTerminalIsNone(s);
    case Some(k) =>
      assert s[|waiting| + k] == statuses[k];
      forall i | 0 <= i < |waiting| + k ensures !IsTerminal(s[i]) {
        if i >= |waiting| { assert s[i] == statuses[i - |waiting|]; }
      }
      FirstTerminalIs(s, |waiting| + k);
  }

  lemma FirstTerminalIs(statuses: seq<Option<string>>, k: nat)
    requires k < |statuses| && IsTerminal(statuses[k])
    requires forall i :: 0 <= i < k ==> !IsTerminal(statuses[i])
    ensures FirstTerminal(statuses) == Some(k)
  {
  }

  lemma FirstTerminalIsNone(statuses: seq<Option<string>>)
    requires forall i :: 0 <= i < |statuses| ==> !IsTerminal(statuses[i])
    ensures FirstTerminal(statuses) == None
  {
  }
}
