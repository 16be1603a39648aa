/**
 * `SendSMSJob`: the delivery of one SMS. The blacklist middleware runs
 * first; the handler then records a pending `MessageLog`, resolves the
 * EngageSPARK credentials, calls the provider and ends the log sent or
 * failed, rethrowing every failure.
 */
module SendSms {
  import opened Wrappers
  import opened Strings
  import opened Platform
  import opened SmsConfig
  import opened SmsErrors
  import opened MessageLogs
  import opened Blacklist

  /**
   * What the SMS facade's `send()` did: return normally, throw Guzzle's
   * `ClientException` carrying an HTTP status, or throw anything else.
   */
  datatype ProviderOutcome = Delivered | ClientError(status: nat, message: string) | OtherError(message: string)

  /** What escapes `handle`: an `SmsConfigurationException` or a `RuntimeException` with its code. */
  datatype JobException =
    | ConfigurationError(message: string)
    | RuntimeError(message: string, code: int)

  /** The provider call: `from`, `to` and `content`. */
  datatype ProviderCall = ProviderCall(from: string, to: string, content: string)

  /**
   * What the handler reads besides the job: the signed-in user, the user
   * ids that exist (`User::find`), the SMS settings rows, the `sms.*`
   * configuration and whether it runs in the console.
   */
  datatype JobContext = JobContext(
    authId: Option<nat>,
    users: set<nat>,
    configRows: ConfigRows,
    sms: SmsDefaults,
    inConsole: bool)

  const Status401Message := "Authentication failed: " + "Invalid or expired API credentials"
  const Status403Message := "Access forbidden: " + "Check API permissions and account status"
  const Status429Message := "Rate limit exceeded: Too many requests"
  const OtherFailurePrefix := "SMS sending failed: "

  /** The `match` on the status code of a client error. */
  function ClientErrorMessage(status: nat, message: string): (r: string)
    ensures status == 401 ==> r == Status401Message
    ensures status == 403 ==> r == Status403Message
    ensures status == 429 ==> r == Status429Message
    ensures status !in {401, 403, 429} ==> r == "HTTP " + NatToString(status) + ": " + message
  {
    if status == 401 then Status401Message
    else if status == 403 then Status403Message
    else if status == 429 then Status429Message
    else "HTTP " + NatToString(status) + ": " + message
  }

  /**
   * The message tells the classes apart: it starts with "HTTP " exactly
   * for the statuses without a fixed text, and the three fixed texts differ.
   */
  lemma ClientErrorKinds(status: nat, message: string)
    ensures StartsWith(ClientErrorMessage(status, message), "HTTP ") <==> status !in {401, 403, 429}
    ensures Status401Message != Status403Message && Status403Message != Status429Message
            && Status401Message != Status429Message
  {
    var r := ClientErrorMessage(status, message);
    assert |Status401Message| == 57 && |Status403Message| == 58 && |Status429Message| == 38;
    if status == 401 || status == 403 {
      assert r[0] == 'A';
    } else if status == 429 {
      assert r[0] == 'R';
    }
    if status !in {401, 403, 429} {
      assert r == "HTTP " + (NatToString(status) + ": " + message);
    }
  }

  /** `$this->userId ? User::find($this->userId) : null`. */
  function ConfigUser(userId: Option<nat>, users: set<nat>): (u: Option<nat>)
    ensures u.Some? <==> userId.Some? && userId.value != 0 && userId.value in users
    ensures u.Some? ==> u == userId
  {
    if userId.Some? && userId.value != 0 && userId.value in users then userId else None
  }

  /** The log's `user_id`: the job's user, else the signed-in user, else user 1. */
  function LogOwner(userId: Option<nat>, authId: Option<nat>): (owner: nat)
    ensures userId.Some? ==> owner == userId.value
    ensures userId.None? && authId.Some? ==> owner == authId.value
    ensures userId.None? && authId.None? ==> owner == 1
  {
    userId.OrElse(authId.OrElse(1))
  }

  /** The credentials the handler resolves for a job's user. */
  function JobConfig(userId: Option<nat>, ctx: JobContext): EngageSparkConfig
  {
    GetEngageSparkConfig(ConfigUser(userId, ctx.users), ctx.authId, ctx.configRows, ctx.sms, ctx.inConsole)
  }

  /** What the `try` block and its catch clauses do, once the log exists. */
  datatype Attempt = Attempt(call: Option<ProviderCall>, error: Option<string>, thrown: Option<JobException>)

  /**
   * The credential check, the provider call and the three catch clauses:
   * `error` is what `markAsFailed` records, `thrown` what is rethrown.
   */
  function Deliver(mobile: string, message: string, senderId: string, userId: Option<nat>,
                   config: EngageSparkConfig, outcome: ProviderOutcome): (a: Attempt)
    ensures a.error.None? <==> a.thrown.None?
    ensures a.call.Some? <==> Truthy(config.apiKey) && Truthy(config.orgId)
    ensures a.call.Some? ==> a.call.value == ProviderCall(senderId, mobile, message)
    ensures a.call.None? ==>
              a.error == Some(MissingCredentials(userId)) && a.thrown == Some(ConfigurationError(MissingCredentials(userId)))
    ensures a.call.Some? ==> (a.error.None? <==> outcome.Delivered?)
    ensures a.call.Some? && outcome.ClientError? ==>
              a.error == Some(ClientErrorMessage(outcome.status, outcome.message))
              && a.thrown == Some(if outcome.status == 401 then ConfigurationError(AuthenticationFailed(DefaultProvider))
                                  else RuntimeError(ClientErrorMessage(outcome.status, outcome.message), outcome.status))
    ensures a.call.Some? && outcome.OtherError? ==>
              a.error == Some(OtherFailurePrefix + outcome.message)
              && a.thrown == Some(RuntimeError(OtherFailurePrefix + outcome.message, 0))
  {
    if !Truthy(config.apiKey) || !Truthy(config.orgId) then
      var e := MissingCredentials(userId);
      Attempt(None, Some(e), Some(ConfigurationError(e)))
    else
      var call := Some(ProviderCall(senderId, mobile, message));
      match outcome
      case Delivered => Attempt(call, None, None)
      case ClientError(status, m) =>
        var e := ClientErrorMessage(status, m);
        Attempt(call, Some(e), Some(if status == 401 then ConfigurationError(AuthenticationFailed(DefaultProvider))
                                    else RuntimeError(e, status)))
      case OtherError(m) =>
        var e := OtherFailurePrefix + m;
        Attempt(call, Some(e), Some(RuntimeError(e, 0)))
  }

  /** The attempt `handle` makes for a job. */
  function HandleAttempt(job: Job, ctx: JobContext, outcome: ProviderOutcome): Attempt
    requires job.SendSms?
  {
    Deliver(job.mobile, job.message, job.senderId, job.userId, JobConfig(job.userId, ctx), outcome)
  }

  /** The row `MessageLog::create` inserts: pending, addressed to the E.164 form when the number parses. */
  function PendingLog(job: Job, authId: Option<nat>, norm: Normalizer): (log: MessageLog)
    requires job.SendSms?
    ensures log.status == Pending && log.sentAt.None? && log.failedAt.None? && log.errorMessage.None?
    ensures log.recipient == (if norm(job.mobile, PH).Some? then norm(job.mobile, PH).value else job.mobile)
    ensures log.userId == LogOwner(job.userId, authId)
    ensures log.message == job.message && log.senderId == job.senderId
            && log.scheduledMessageId == job.scheduledMessageId
  {
    MessageLog(LogOwner(job.userId, authId), norm(job.mobile, PH).OrElse(job.mobile), job.message, Pending,
               job.senderId, job.scheduledMessageId, None, None, None)
  }

  /** The log a run of `handle` leaves behind: the pending row, then `markAsSent` or `markAsFailed`. */
  function HandledLog(job: Job, ctx: JobContext, outcome: ProviderOutcome, norm: Normalizer, now: int): (log: MessageLog)
    requires job.SendSms?
    ensures SameDelivery(log, PendingLog(job, ctx.authId, norm))
    ensures log.status == Sent <==> HandleAttempt(job, ctx, outcome).thrown.None?
    ensures log.status == Failed <==> HandleAttempt(job, ctx, outcome).thrown.Some?
    ensures log.status == Sent ==> log.sentAt == Some(now) && log.failedAt.None? && log.errorMessage.None?
    ensures log.status == Failed ==>
              log.failedAt == Some(now) && log.sentAt.None? && log.errorMessage == HandleAttempt(job, ctx, outcome).error
  {
    var pending := PendingLog(job, ctx.authId, norm);
    var a := HandleAttempt(job, ctx, outcome);
    if a.error.None? then pending.(status := Sent, sentAt := Some(now))
    else pending.(status := Failed, failedAt := Some(now), errorMessage := a.error)
  }

  /** `handle`: one new log, created pending before anything else and ended sent or failed. */
  method Handle(logs: LogTable, job: Job, ctx: JobContext, outcome: ProviderOutcome, norm: Normalizer, now: int)
    returns (logId: nat, call: Option<ProviderCall>, thrown: Option<JobException>)
    requires job.SendSms? && logs.Valid()
    modifies logs
    ensures logs.Valid() && logId == old(logs.nextId) && logId !in old(logs.rows) && logs.nextId == old(logs.nextId) + 1
    ensures logs.rows == old(logs.rows)[logId := HandledLog(job, ctx, outcome, norm, now)]
    ensures call == HandleAttempt(job, ctx, outcome).call && thrown == HandleAttempt(job, ctx, outcome).thrown
  {
    var recipient := norm(job.mobile, PH).OrElse(job.mobile);
    logId := logs.Create(LogOwner(job.userId, ctx.authId), recipient, job.message, job.senderId, job.scheduledMessageId);
    assert logs.rows[logId] == PendingLog(job, ctx.authId, norm);
    var a := HandleAttempt(job, ctx, outcome);
    call := a.call;
    thrown := a.thrown;
    if a.error.None? {
      logs.MarkAsSent(logId, now);
    } else {
      logs.MarkAsFailed(logId, a.error.value, now);
    }
  }

  /**
   * The job as the queue runs it: `CheckBlacklist` deletes a job for a
   * blacklisted number (checked on the raw mobile) without calling
   * `handle`; any other job goes to `handle` exactly once.
   */
  method Run(logs: LogTable, blacklist: BlacklistTable, job: Job, ctx: JobContext,
             outcome: ProviderOutcome, norm: Normalizer, now: int)
    returns (deleted: bool, logId: Option<nat>, call: Option<ProviderCall>, thrown: Option<JobException>)
    requires job.SendSms? && logs.Valid()
    modifies logs
    ensures logs.Valid()
    ensures deleted <==> blacklist.IsBlacklisted(job.mobile, norm)
    ensures deleted ==>
              logId.None? && call.None? && thrown.None? && logs.rows == old(logs.rows) && logs.nextId == old(logs.nextId)
    ensures !deleted ==>
              logId == Some(old(logs.nextId)) && logs.nextId == old(logs.nextId) + 1
              && logs.rows == old(logs.rows)[logId.value := HandledLog(job, ctx, outcome, norm, now)]
              && call == HandleAttempt(job, ctx, outcome).call && thrown == HandleAttempt(job, ctx, outcome).thrown
  {
    if blacklist.IsBlacklisted(job.mobile, norm) {
      return true, None, None, None;
    }
    var id;
    id, call, thrown := Handle(logs, job, ctx, outcome, norm, now);
    return false, Some(id), call, thrown;
  }

  /** The provider is reached only with both credentials, and it is addressed with the mobile as given. */
  lemma ProviderGetsRawMobile(job: Job, ctx: JobContext, outcome: ProviderOutcome)
    requires job.SendSms?
    ensures var a := HandleAttempt(job, ctx, outcome);
            && (a.call.Some? <==> Truthy(JobConfig(job.userId, ctx).apiKey) && Truthy(JobConfig(job.userId, ctx).orgId))
            && (a.call.Some? ==> a.call.value.to == job.mobile)
  {
  }

  /** A 401 from the provider surfaces as a configuration error that names the provider and the settings page. */
  lemma Rejected401PointsToSettings(job: Job, ctx: JobContext, message: string)
    requires job.SendSms?
    requires Truthy(JobConfig(job.userId, ctx).apiKey) && Truthy(JobConfig(job.userId, ctx).orgId)
    ensures var a := HandleAttempt(job, ctx, ClientError(401, message));
            && a.thrown.Some? && a.thrown.value.ConfigurationError?
            && Contains(a.thrown.value.message, DefaultProvider) && Contains(a.thrown.value.message, SettingsPath)
            && a.error == Some(Status401Message)
  {
  }

  /**
   * A job without a user, run by the queue worker with nobody signed in,
   * logs under user 1 and uses the application's credentials.
   */
  lemma QueuedWithoutUser(job: Job, ctx: JobContext, norm: Normalizer, outcome: ProviderOutcome, now: int)
    requires job.SendSms? && job.userId.None? && ctx.authId.None? && ctx.inConsole
    ensures HandledLog(job, ctx, outcome, norm, now).userId == 1
    ensures JobConfig(job.userId, ctx).source == AppSource
  {
  }
}
