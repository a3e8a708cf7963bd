/** The loop and conflict rules of the connector sync. Times are in milliseconds. */
module SyncRules {
  import opened Wrappers
  import opened Text
  import opened SyncMaps

  /** What a write left in the outbound fields; a value that is absent hashes as the empty text. */
  type Echo = map<string, string>

  datatype ConflictReason = Create | ExternalOwned | NewestWins | Merged | XmsOwned | Older | Unmanaged | Same | Uncontested

  datatype Decision = Decision(go: bool, reason: ConflictReason)

  datatype Mode = Off | IngestOnly | Bidirectional

  datatype Origin = User | Sync(instance: nat)

  datatype Refusal = OwnOrigin | WrongMode | Unsubscribed | WorkNotesOff | InternalAttachment | NoLink

  const MAX_OUTBOUND_ATTEMPTS := 5
  const BACKOFF_SECONDS: seq<int> := [5, 30, 120, 600]

  /** A record read counts as the echo of a write: no newer than the write, give or take the tolerance, and reading alike. */
  predicate IsReflection(lastAt: Option<int>, lastHash: Option<Echo>, stamp: int, hash: Echo, toleranceSeconds: nat) {
    && lastAt.Some? && lastHash.Some?
    && stamp <= lastAt.value + toleranceSeconds * 1000
    && hash == lastHash.value
  }

  function Normalise(v: Value): string { if v.Text? then Trim(v.text) else "" }

  function DecideInbound(policy: Policy, isCreate: bool, xms: Value, external: Value, xmsAt: int, externalAt: int): Decision {
    var same := Normalise(xms) == Normalise(external);
    match policy
    case NoPolicy => Decision(false, Unmanaged)
    case External => if same then Decision(false, Same) else Decision(true, ExternalOwned)
    case Merge => Decision(true, Merged)
    case ExternalAtCreateThenXms =>
      if isCreate then Decision(true, Create) else Decision(false, if same then Same else XmsOwned)
    case Xms => if isCreate then Decision(true, Create) else Decision(false, if same then Same else XmsOwned)
    case Newest =>
      if isCreate then Decision(true, Create)
      else if same then Decision(false, Same)
      else if externalAt > xmsAt then Decision(true, NewestWins)
      else Decision(false, Older)
  }

  predicate ExternalChangedSince(lastKnown: Option<int>, stamp: int, toleranceSeconds: nat) {
    lastKnown.Some? && stamp > lastKnown.value + toleranceSeconds * 1000
  }

  function DecideOutbound(policy: Policy, externalChanged: bool, xms: Value, external: Value, xmsAt: int, externalAt: int): Decision {
    if policy.NoPolicy? then Decision(false, Unmanaged)
    else if Normalise(xms) == Normalise(external) then Decision(false, Same)
    else if policy.External? then Decision(false, ExternalOwned)
    else if policy.Merge? then Decision(true, Merged)
    else if policy.Newest? then
      if !externalChanged then Decision(true, NewestWins)
      else if xmsAt > externalAt then Decision(true, NewestWins)
      else Decision(false, Older)
    else Decision(true, if externalChanged then XmsOwned else Uncontested)
  }

  /** None queues the change for the instance. */
  function DecideEnqueue(
    event: string, origin: Origin, instance: nat, mode: Mode, subscribedEvents: set<string>, hasLink: bool,
    syncWorkNotes: bool, visibility: string): Option<Refusal>
  {
    if origin == Sync(instance) then Some(OwnOrigin)
    else if !mode.Bidirectional? then Some(WrongMode)
    else if event !in subscribedEvents then Some(Unsubscribed)
    else if event == "work_note.created" && !syncWorkNotes then Some(WorkNotesOff)
    else if event == "attachment.scanned" && visibility != "public" then Some(InternalAttachment)
    else if !hasLink then Some(NoLink)
    else None
  }

  function OutboundNextAttempt(attempt: nat, at: int): Option<int>
    requires attempt > 0
  {
    if attempt >= MAX_OUTBOUND_ATTEMPTS then None
    else Some(at + BACKOFF_SECONDS[if attempt < |BACKOFF_SECONDS| then attempt - 1 else |BACKOFF_SECONDS| - 1] * 1000)
  }

  // ---- The two directions together ---------------------------------------------------------

  /**
   * One pair of values that differ would travel both ways exactly under merge, or under newest
   * when the record moved after the ticket and yet within the tolerance of the last known move.
   */
  lemma BothWaysExactlyWhen(
    policy: Policy, xms: Value, external: Value, xmsAt: int, externalAt: int, lastKnown: Option<int>, tolerance: nat)
    requires Normalise(xms) != Normalise(external)
    ensures var changed := ExternalChangedSince(lastKnown, externalAt, tolerance);
            && DecideInbound(policy, false, xms, external, xmsAt, externalAt).go
            && DecideOutbound(policy, changed, xms, external, xmsAt, externalAt).go
            <==> policy.Merge? || (policy.Newest? && externalAt > xmsAt && !changed)
  {
  }

  /** A difference is left standing both ways exactly under no policy, or under newest at one and the same time. */
  lemma NeitherWayExactlyWhen(
    policy: Policy, xms: Value, external: Value, xmsAt: int, externalAt: int, changed: bool)
    requires Normalise(xms) != Normalise(external)
    ensures && !DecideInbound(policy, false, xms, external, xmsAt, externalAt).go
            && !DecideOutbound(policy, changed, xms, external, xmsAt, externalAt).go
            <==> policy.NoPolicy? || (policy.Newest? && changed && externalAt == xmsAt)
  {
  }

  // ---- Who decides -------------------------------------------------------------------------

  /** Between the two, blank and absent are the same and so is white space at the ends. */
  predicate Alike(xms: Value, external: Value) { Normalise(xms) == Normalise(external) }

  lemma AlikeMeans(xms: Value, external: Value)
    ensures Alike(xms, external)
            <==> Trim(if xms.Text? then xms.text else "") == Trim(if external.Text? then external.text else "")
  {
    assert Trim("") == "";
  }

  /** Who owns a field decides what differs: the record, the ticket, both or nobody, and the newer under newest. */
  lemma OwnersDecide(
    policy: Policy, xms: Value, external: Value, xmsAt: int, externalAt: int, changed: bool)
    ensures var taken := DecideInbound(policy, false, xms, external, xmsAt, externalAt).go;
            var sent := DecideOutbound(policy, changed, xms, external, xmsAt, externalAt).go;
            && (policy.External? ==> (taken <==> !Alike(xms, external)) && !sent)
            && (policy.Xms? || policy.ExternalAtCreateThenXms? ==> !taken && (sent <==> !Alike(xms, external)))
            && (policy.Merge? ==> taken && (sent <==> !Alike(xms, external)))
            && (policy.NoPolicy? ==> !taken && !sent)
            && (policy.Newest? ==>
                  && (taken <==> !Alike(xms, external) && xmsAt < externalAt)
                  && (sent <==> !Alike(xms, external) && (!changed || externalAt < xmsAt)))
    ensures DecideInbound(policy, true, xms, external, xmsAt, externalAt).go
            <==> !policy.NoPolicy? && (policy.External? ==> !Alike(xms, external))
  {
  }

  /** The reason given for leaving a field: it is alike, or whose it is. */
  lemma ReasonsMean(policy: Policy, xms: Value, external: Value, xmsAt: int, externalAt: int, changed: bool)
    ensures var inbound := DecideInbound(policy, false, xms, external, xmsAt, externalAt);
            var outbound := DecideOutbound(policy, changed, xms, external, xmsAt, externalAt);
            && (inbound.reason.Same? <==> Alike(xms, external) && !policy.NoPolicy? && !policy.Merge?)
            && (outbound.reason.Same? <==> Alike(xms, external) && !policy.NoPolicy?)
            && (inbound.reason.XmsOwned? <==>
                  (policy.Xms? || policy.ExternalAtCreateThenXms?) && !Alike(xms, external))
            && (outbound.reason.ExternalOwned? <==> policy.External? && !Alike(xms, external))
            && (outbound.go && (policy.Xms? || policy.ExternalAtCreateThenXms?) ==>
                  (outbound.reason.XmsOwned? <==> changed) && (outbound.reason.Uncontested? <==> !changed))
            && (inbound.reason.Older? ==> policy.Newest? && !inbound.go) && (outbound.reason.Older? ==> policy.Newest? && !outbound.go)
  {
  }

  /** A change waits for an instance exactly when it is not its own and the instance is to have it. */
  lemma QueuedExactlyWhen(
    event: string, origin: Origin, instance: nat, mode: Mode, subscribedEvents: set<string>, hasLink: bool,
    syncWorkNotes: bool, visibility: string)
    ensures DecideEnqueue(event, origin, instance, mode, subscribedEvents, hasLink, syncWorkNotes, visibility).None?
            <==> && (origin.Sync? ==> origin.instance != instance)
                 && mode == Bidirectional && event in subscribedEvents && hasLink
                 && (event == "work_note.created" ==> syncWorkNotes)
                 && (event == "attachment.scanned" ==> visibility == "public")
  {
  }

  /** Five attempts are made, with waits of 5 seconds, 30, two minutes and ten between them. */
  lemma AttemptsMean(attempt: nat, at: int)
    requires attempt > 0
    ensures OutboundNextAttempt(attempt, at)
            == if attempt == 1 then Some(at + 5 * 1000)
               else if attempt == 2 then Some(at + 30 * 1000)
               else if attempt == 3 then Some(at + 2 * 60 * 1000)
               else if attempt == 4 then Some(at + 10 * 60 * 1000)
               else None
  {
  }

  /** A record has moved when it is stamped more than the tolerance past what was known; not if nothing was. */
  lemma MovedMeans(lastKnown: Option<int>, stamp: int, tolerance: nat)
    ensures ExternalChangedSince(lastKnown, stamp, tolerance)
            <==> lastKnown.Some? && !IsReflection(lastKnown, Some(map[]), stamp, map[], tolerance)
  {
  }
}
