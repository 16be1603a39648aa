/**
 * What every part of the platform shares: the phone-number normaliser (an
 * outside library, so a parameter), the queued job records that stand for
 * `dispatch(...)`, the SMS defaults read from configuration, and the
 * "first matching row" lookup that Eloquent's `->first()` performs.
 */
module Platform {
  import opened Wrappers

  /** The default region for phone numbers. */
  const PH := "PH"

  /** The last-resort sender ID used when configuration gives none. */
  const FallbackSenderId := "TXTCMDR"

  /**
   * libphonenumber's `phone(raw, region)->formatE164()`, as a partial
   * function: `None` stands for the exception it throws on an unparseable number.
   */
  type Normalizer = (string, string) -> Option<string>

  /** An `array|string` argument: a comma-separated string or an array of tokens. */
  datatype RecipientsArg = Text(s: string) | Items(items: seq<string>)

  /** A queued job, recorded when it is dispatched. */
  datatype Job =
    | SendSms(mobile: string, message: string, senderId: string,
              scheduledMessageId: Option<nat>, userId: Option<nat>)
    | BroadcastToGroup(groupId: nat, message: string, senderId: string, userId: Option<nat>)
    | ProcessScheduled(messageId: nat)

  /**
   * A decoded credentials array: key to value, where `None` is a JSON null.
   */
  type Credentials = map<string, Option<string>>

  /** `$credentials[$key] ?? null`: a missing key and a null value both read as null. */
  function Lookup(creds: Credentials, key: string): (r: Option<string>)
    ensures r.Some? <==> key in creds && creds[key].Some?
    ensures r.Some? ==> r.value == creds[key].value
  {
    if key in creds then creds[key] else None
  }

  /**
   * The `sms.*` configuration values the core reads: `sms.default`,
   * `sms.default_sender_id`, `sms.sender_ids` and `sms.drivers.*`.
   */
  datatype SmsDefaults = SmsDefaults(
    defaultDriver: Option<string>,
    defaultSenderId: Option<string>,
    senderIds: seq<string>,
    drivers: map<string, Credentials>)

  /** `config('sms.default_sender_id', 'TXTCMDR')`. */
  function DefaultSender(cfg: SmsDefaults): (r: string)
    ensures cfg.defaultSenderId.Some? ==> r == cfg.defaultSenderId.value
    ensures cfg.defaultSenderId.None? ==> r == FallbackSenderId
  {
    cfg.defaultSenderId.OrElse(FallbackSenderId)
  }

  /** An explicit sender when given (`$senderId ?? config(...)`), else the configured default. */
  function SenderOrDefault(senderId: Option<string>, cfg: SmsDefaults): (r: string)
    ensures senderId.Some? ==> r == senderId.value
    ensures senderId.None? ==> r == DefaultSender(cfg)
  {
    senderId.OrElse(DefaultSender(cfg))
  }

  /**
   * The smallest key in [from, bound) whose row satisfies `p`: what
   * `Model::where(...)->first()` returns on an auto-increment table.
   */
  function FirstMatch<T>(rows: map<nat, T>, p: T -> bool, from: nat, bound: nat): (r: Option<nat>)
    decreases bound - from
    ensures r.Some? ==> from <= r.value < bound && r.value in rows && p(rows[r.value])
                        && forall j :: from <= j < r.value && j in rows ==> !p(rows[j])
    ensures r.None? ==> forall j :: from <= j < bound && j in rows ==> !p(rows[j])
  {
    if from >= bound then None
    else if from in rows && p(rows[from]) then Some(from)
    else FirstMatch(rows, p, from + 1, bound)
  }

  /**
   * Rows added at or above the old bound that do not satisfy `p` leave the
   * first match unchanged: a lookup made after such inserts agrees with
   * the one made before them.
   */
  lemma {:induction false} FirstMatchExtend<T>(rows: map<nat, T>, rows': map<nat, T>, p: T -> bool,
                                               from: nat, bound: nat, bound': nat)
    requires from <= bound <= bound'
    requires forall j :: j in rows ==> j < bound && j in rows' && rows'[j] == rows[j]
    requires forall j :: j in rows' && j !in rows ==> bound <= j && !p(rows'[j])
    ensures FirstMatch(rows', p, from, bound') == FirstMatch(rows, p, from, bound)
    decreases bound - from
  {
    if from < bound {
      FirstMatchExtend(rows, rows', p, from + 1, bound, bound');
    }
  }
}
