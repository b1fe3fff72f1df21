/** The emit path of the alert processor, and its place among the interleavings: called with nobody
    in between, it is exactly one serialized emit of the protocol.
 */
module Handler {
  import opened Prelude
  import opened IdempotencyKey
  import opened EmitProtocol
  import opened EmitOutcomes
  import opened Repository
  import opened EmitFields

  /** Channel names that would receive a dispatch, appended one by one. */
  method EnabledChannelNames(settings: DispatchSettings) returns (names: seq<string>)
    ensures names == EnabledChannels(settings)
    ensures "zenduty" in names <==> settings.enabled && settings.zenduty
    ensures "microsoft_teams" in names <==> settings.enabled && settings.teams
    ensures "webhook" in names <==> settings.enabled && settings.webhook
  {
    ChannelsBySwitch(settings);
    names := [];
    if !settings.enabled {
      return;
    }
    if settings.zenduty {
      names := names + [ZENDUTY];
    }
    if settings.teams {
      names := names + [TEAMS];
    }
    if settings.webhook {
      names := names + [WEBHOOK];
    }
  }

  datatype ProcessResult =
    | ReopenSkipped
    | Raised
    | Emitted(alertId: string, isNew: bool, occurrenceCount: nat, dispatchSuppressed: bool, countedChannels: seq<string>)

  function ChannelOf(key: string): string {
    var parts := Split(key);
    if |parts| >= 2 then parts[1] else "unknown"
  }

  class AlertProcessor {
    const repo: AlertRepository

    constructor (repo: AlertRepository)
      ensures this.repo == repo
    {
      this.repo := repo;
    }

    /** The channel of each created key, as the metrics count them. */
    method CountedChannels(keys: seq<string>) returns (channels: seq<string>)
      ensures |channels| == |keys|
      ensures forall i :: 0 <= i < |keys| ==> channels[i] == ChannelOf(keys[i])
    {
      channels := [];
      for i := 0 to |keys|
        invariant |channels| == i
        invariant forall j :: 0 <= j < i ==> channels[j] == ChannelOf(keys[j])
      {
        var parts := Split(keys[i]);
        channels := channels + [if |parts| >= 2 then parts[1] else "unknown"];
      }
    }

    method PersistAndMaybeDispatch(alert: PipelineAlert, policy: EmitPolicy, freshId: string, retryId: string, now: Time)
      returns (result: ProcessResult)
      requires AlertsOk(repo.alerts)
      modifies repo`alerts, repo`outbox, repo`nextOutboxId
      ensures var db := old(repo.Db());
              var attempt := EmitWithRetry(db, alert, policy, freshId, retryId, now);
              if ReopenDisallowed(db.alerts, alert.fingerprint, policy) then
                result == ReopenSkipped && repo.Db() == db
              else if attempt.None? then
                result == Raised && repo.Db() == db
              else
                var c := attempt.value;
                && repo.Db() == c.db
                && result.Emitted?
                && result.alertId == c.alert.id && result.isNew == c.alert.isNew
                && result.occurrenceCount == c.alert.occurrenceCount
                && result.dispatchSuppressed == AckSuppressed(c.record, c.alert, policy)
                && |result.countedChannels| == (if AckSuppressed(c.record, c.alert, policy) then 0 else |c.keys|)
                && forall i :: 0 <= i < |result.countedChannels| ==>
                     result.countedChannels[i] == ChannelOf(c.keys[i])
      ensures result.ReopenSkipped? <==> MustStayClosed(old(repo.alerts), alert.fingerprint, policy)
      ensures !result.ReopenSkipped? && (HasOpenRow(old(repo.alerts), alert.fingerprint) || freshId !in old(repo.alerts)) ==>
                result.Emitted? && LandsOn(old(repo.alerts), repo.alerts, alert.fingerprint, result.alertId)
    {
      ReopenPolicyByStatus(repo.alerts, alert.fingerprint, policy);
      if HasOpenRow(repo.alerts, alert.fingerprint) || freshId !in repo.alerts {
        EmitLands(repo.Db(), alert, policy, freshId, retryId, now);
      }
      if !policy.allowReopen {
        if !HasActive(repo.alerts, alert.fingerprint) {
          if HasResolved(repo.alerts, alert.fingerprint) {
            return ReopenSkipped;
          }
        }
      }
      var committed := repo.UpsertAndMaybeEnqueue(alert, policy, freshId, retryId, now);
      if committed.None? {
        return Raised;
      }
      var c := committed.value;
      var suppressed := !c.alert.isNew && policy.suppressWhileAcked && c.record.status.Acknowledged?;
      var channels := [];
      if !suppressed {
        channels := CountedChannels(c.keys);
      }
      return Emitted(c.alert.id, c.alert.isNew, c.alert.occurrenceCount, suppressed, channels);
    }
  }

  /** The channel each enqueued key is counted under is the channel it was enqueued for. */
  lemma CountedChannelsAreTheEnabledOnes(db: Database, issued: set<Key>, c: Committed, policy: EmitPolicy, now: Time)
    requires EnqueuesFreshly(db, issued, c, policy, now) && c.keys != [] && ColonFree(c.alert.id)
    ensures |c.keys| == |EnabledChannels(policy.dispatch)|
    ensures forall i :: 0 <= i < |c.keys| ==>
              |Split(c.keys[i])| >= 2 && Split(c.keys[i])[1] == EnabledChannels(policy.dispatch)[i]
  {
    ChannelNamesAreKeySafe(policy.dispatch);
    forall i | 0 <= i < |c.keys|
      ensures |Split(c.keys[i])| >= 2 && Split(c.keys[i])[1] == EnabledChannels(policy.dispatch)[i]
    {
      SplitRecoversChannel(c.alert.id, EnabledChannels(policy.dispatch)[i], c.alert.occurrenceCount);
    }
  }

  // --- one call is one serialized emit ------------------------------------------------------

  /** SELECT, then INSERT with nobody in between, has the outcome of the one-session attempt. */
  lemma SelectFlushIsEmitOnce(w: World, alert: PipelineAlert, policy: EmitPolicy, freshId: string, lastTry: bool)
    requires w.inFlight.Keys <= {0}
    ensures var flushed := Apply(SelectAndWrite(w, 0, alert, policy, freshId, lastTry), Flush(0));
            var attempt := EmitOnce(w.db, alert, policy, freshId, w.clock);
            && flushed.clock == w.clock
            && flushed.db == (if attempt.Some? then attempt.value.db else w.db)
            && flushed.inFlight ==
                 (if attempt.Some? || lastTry then map[]
                  else map[0 := Retrying(WithFreeId(w.db.alerts, alert, freshId).(isNew := false), policy)])
  {
    if HasActive(w.db.alerts, alert.fingerprint) {
      var selected := SelectAndWrite(w, 0, alert, policy, freshId, lastTry);
      assert selected.inFlight == map[];
    } else {
      SelectParksInsert(w, alert, policy, freshId, lastTry);
    }
  }

  /** A call with nobody in between commits what the serialized emit of the protocol commits. */
  lemma CallIsSerialEmit(w: World, alert: PipelineAlert, policy: EmitPolicy, freshId: string, retryId: string)
    requires w.inFlight == map[] && !ReopenDisallowed(w.db.alerts, alert.fingerprint, policy)
    ensures SerialEmit(w, alert, policy, freshId, retryId).db ==
              match EmitWithRetry(w.db, alert, policy, freshId, retryId, w.clock)
              case Some(c) => c.db
              case None => w.db
  {
    SelectFlushIsEmitOnce(w, alert, policy, freshId, false);
    var flushed := Apply(Apply(w, Begin(0, alert, policy, freshId)), Flush(0));
    if EmitOnce(w.db, alert, policy, freshId, w.clock).None? {
      SelectFlushIsEmitOnce(flushed, WithFreeId(w.db.alerts, alert, freshId).(isNew := false), policy, retryId, true);
    } else {
      assert Apply(flushed, Retry(0, retryId)) == flushed;
      assert Apply(flushed, Flush(0)) == flushed;
    }
  }
}
