/**
 * `RetryFailedMessage`: the owner of a failed log resets it to pending and
 * queues a new `SendSMSJob` for the same recipient and text. The reset
 * log is never completed: the new job writes a log of its own.
 */
module Retry {
  import opened Wrappers
  import opened Platform
  import opened MessageLogs
  import opened SendSms
  import opened Blacklist

  /** The exceptions `handle` raises: `findOrFail`'s, the authorization check's and the status check's. */
  datatype RetryError = NotFound | Unauthorized | NotFailed

  const UnauthorizedMessage := "Unauthorized to retry this message."
  const OnlyFailedMessage := "Only failed messages can be retried."
  const QueuedMessage := "Message queued for retry"

  /** The guards of `handle`, in their order: the row exists, belongs to the signed-in user, and has failed. */
  function RetryCheck(rows: map<nat, MessageLog>, id: nat, authId: Option<nat>): (r: Result<nat, RetryError>)
    ensures r == Ok(id) <==> id in rows && authId == Some(rows[id].userId) && rows[id].status == Failed
    ensures r == Err(NotFound) <==> id !in rows
    ensures r == Err(Unauthorized) <==> id in rows && authId != Some(rows[id].userId)
    ensures r == Err(NotFailed) <==> id in rows && authId == Some(rows[id].userId) && rows[id].status != Failed
  {
    if id !in rows then Err(NotFound)
    else if authId != Some(rows[id].userId) then Err(Unauthorized)
    else if rows[id].status != Failed then Err(NotFailed)
    else Ok(id)
  }

  /** The job `handle` queues: the log's recipient, text, sender and scheduled message, and no user. */
  function RetryJob(log: MessageLog): (job: Job)
    ensures job.SendSms? && job.userId.None?
    ensures job.mobile == log.recipient && job.message == log.message
    ensures job.senderId == log.senderId && job.scheduledMessageId == log.scheduledMessageId
  {
    SendSms(log.recipient, log.message, log.senderId, log.scheduledMessageId, None)
  }

  /** `handle($messageLogId)`: the guards, the in-place reset and one dispatch. */
  method RetryFailed(logs: LogTable, id: nat, authId: Option<nat>) returns (r: Result<nat, RetryError>, dispatched: seq<Job>)
    requires logs.Valid()
    modifies logs
    ensures logs.Valid() && logs.nextId == old(logs.nextId)
    ensures r == RetryCheck(old(logs.rows), id, authId)
    ensures r.Err? ==> logs.rows == old(logs.rows) && dispatched == []
    ensures r.Ok? ==>
              logs.rows == old(logs.rows)[id := old(logs.rows)[id].(status := Pending, failedAt := None, errorMessage := None)]
              && dispatched == [RetryJob(old(logs.rows)[id])]
  {
    r := RetryCheck(logs.rows, id, authId);
    if r.Err? {
      return r, [];
    }
    var log := logs.rows[id];
    logs.ResetForRetry(id);
    dispatched := [RetryJob(log)];
  }

  /** The JSON response of `asController`: status and body; `None` where the exception is not caught. */
  datatype Response = Response(status: nat, success: bool, message: string)

  function RetryResponse(r: Result<nat, RetryError>): (resp: Option<Response>)
    ensures resp.None? <==> r == Err(NotFound)
    ensures resp.Some? ==> (resp.value.status == 200 <==> r.Ok?) && (resp.value.success <==> r.Ok?)
    ensures resp.Some? ==> (resp.value.status == 403 <==> r == Err(Unauthorized))
    ensures resp.Some? ==> (resp.value.status == 422 <==> r == Err(NotFailed))
    ensures r == Err(Unauthorized) ==> resp.value.message == UnauthorizedMessage
    ensures r == Err(NotFailed) ==> resp.value.message == OnlyFailedMessage
  {
    match r
    case Ok(_) => Some(Response(200, true, QueuedMessage))
    case Err(NotFound) => None
    case Err(Unauthorized) => Some(Response(403, false, UnauthorizedMessage))
    case Err(NotFailed) => Some(Response(422, false, OnlyFailedMessage))
  }

  /**
   * A retry followed by the queued job: the reset log stays pending, and
   * the job (unless blocked) writes a second log with the same recipient,
   * text, sender and scheduled message.
   */
  method RetryThenRun(logs: LogTable, blacklist: BlacklistTable, id: nat, authId: Option<nat>,
                      ctx: JobContext, outcome: ProviderOutcome, norm: Normalizer, now: int)
    returns (r: Result<nat, RetryError>, newLog: Option<nat>)
    requires logs.Valid()
    modifies logs
    ensures logs.Valid()
    ensures r.Ok? ==> id in logs.rows && logs.rows[id].status == Pending
                      && logs.rows[id].failedAt.None? && logs.rows[id].errorMessage.None?
    ensures r.Ok? && newLog.Some? ==>
              newLog.value in logs.rows &&
              var created := logs.rows[newLog.value];
              && newLog.value != id && newLog.value !in old(logs.rows)
              && created.message == logs.rows[id].message && created.senderId == logs.rows[id].senderId
              && created.scheduledMessageId == logs.rows[id].scheduledMessageId
              && created.recipient == norm(logs.rows[id].recipient, PH).OrElse(logs.rows[id].recipient)
              && created.userId == ctx.authId.OrElse(1)
    ensures r.Err? ==> newLog.None? && logs.rows == old(logs.rows)
  {
    var dispatched;
    r, dispatched := RetryFailed(logs, id, authId);
    if r.Err? {
      return r, None;
    }
    var deleted, call, thrown;
    deleted, newLog, call, thrown := Run(logs, blacklist, dispatched[0], ctx, outcome, norm, now);
  }
}
