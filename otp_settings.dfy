/**
 * The OTP settings page (`OtpConfigController`): `edit` shows the running
 * OTP configuration and where the sender name comes from; `update` checks
 * the form and overwrites the running `otp.*` values for the current request.
 */
module OtpSettings {
  import opened Wrappers
  import opened Strings
  import opened Platform
  import opened SmsConfig
  import Otp

  // ------------------------------------------------------------ edit

  /** The `sender_id_source` labels the page can show. */
  const UserLabel := "user"
  const SmsDefaultLabel := "sms_default"
  const FallbackLabel := "fallback"
  const OtpConfigLabel := "otp_config"

  /** The `match` on the configuration's source: user settings, application settings, or neither. */
  function SourceLabel(s: Source): (name: string)
    ensures name in {UserLabel, SmsDefaultLabel, FallbackLabel}
    ensures name == UserLabel <==> s == UserSource
    ensures name == SmsDefaultLabel <==> s == AppSource
    ensures name == FallbackLabel <==> s == NoSource
  {
    match s
    case UserSource => UserLabel
    case AppSource => SmsDefaultLabel
    case NoSource => FallbackLabel
  }

  /** The `config` array of the page. */
  datatype OtpPage = OtpPage(
    digits: nat,
    ttlMinutes: real,
    maxAttempts: nat,
    sendSms: bool,
    senderIdSource: string,
    currentSenderId: Option<string>)

  /**
   * `edit` for the signed-in `user`: the sender is the resolved default
   * sender, else `sms.default_sender_id`, else TXTCMDR; a user source without
   * a truthy default sender is reported as the OTP configuration's, and its
   * sender is `otp.sender_id` when that is set. TTL is shown in minutes.
   */
  function Edit(user: nat, rows: ConfigRows, sms: SmsDefaults, inConsole: bool, otp: Otp.OtpConfig): (page: OtpPage)
    ensures var c := GetEngageSparkConfig(Some(user), Some(user), rows, sms, inConsole);
            var current := c.defaultSenderId.OrElse(DefaultSender(sms));
            && (page.senderIdSource == OtpConfigLabel <==> c.source == UserSource && !Truthy(c.defaultSenderId))
            && (page.senderIdSource == UserLabel <==> c.source == UserSource && Truthy(c.defaultSenderId))
            && (page.senderIdSource == SmsDefaultLabel <==> c.source == AppSource)
            && (page.senderIdSource == FallbackLabel <==> c.source == NoSource)
            && (page.senderIdSource == OtpConfigLabel ==> page.currentSenderId == Some(otp.senderId.OrElse(current)))
            && (page.senderIdSource != OtpConfigLabel ==> page.currentSenderId == Some(current))
    ensures page.ttlMinutes * 60.0 == otp.ttlSeconds as real
    ensures page.digits == otp.digits && page.maxAttempts == otp.maxAttempts && page.sendSms == otp.sendSms
  {
    var c := GetEngageSparkConfig(Some(user), Some(user), rows, sms, inConsole);
    var current := c.defaultSenderId.OrElse(DefaultSender(sms));
    var shown := SourceLabel(c.source);
    var (source, sender) := if shown == UserLabel && !Truthy(c.defaultSenderId)
                            then (OtpConfigLabel, otp.senderId.OrElse(current))
                            else (shown, current);
    OtpPage(otp.digits, otp.ttlSeconds as real / 60.0, otp.maxAttempts, otp.sendSms, source, Some(sender))
  }

  /**
   * In a web request the page names the sender OTP messages actually go out
   * under, whenever the user's own settings are in use and either carry a
   * default sender or `otp.sender_id` is set.
   */
  lemma PageShowsOtpSender(user: nat, users: set<nat>, rows: ConfigRows, sms: SmsDefaults, otp: Otp.OtpConfig)
    requires user != 0 && user in users && UsableRow(rows, user, EngageSpark)
    requires Truthy(GetEngageSparkConfig(Some(user), Some(user), rows, sms, false).defaultSenderId) || otp.senderId.Some?
    ensures Edit(user, rows, sms, false, otp).currentSenderId
            == Some(Otp.SenderIdForUser(Some(user), otp.senderId, Otp.SenderContext(users, rows, sms, false)))
  {
    var c := GetEngageSparkConfig(Some(user), Some(user), rows, sms, false);
    var c' := GetEngageSparkConfig(Some(user), None, rows, sms, false);
    assert c' == c;
    assert c.source == UserSource;
  }

  /** Without settings of their own, a web user sees the application's default sender labelled as the fallback. */
  lemma NoSettingsShowsFallback(user: nat, rows: ConfigRows, sms: SmsDefaults, otp: Otp.OtpConfig)
    requires !UsableRow(rows, user, EngageSpark)
    ensures Edit(user, rows, sms, false, otp).senderIdSource == FallbackLabel
    ensures Edit(user, rows, sms, false, otp).currentSenderId == Some(DefaultSender(sms))
  {
    var c := GetEngageSparkConfig(Some(user), Some(user), rows, sms, false);
    assert c.source == NoSource;
  }

  // ------------------------------------------------------------ update

  /** The submitted form; `None` is a field that is missing or not an integer (a boolean for `send_sms`). */
  datatype OtpForm = OtpForm(digits: Option<int>, ttlMinutes: Option<int>, maxAttempts: Option<int>, sendSms: Option<bool>)

  /** The validation rules of `update`. */
  predicate FormValid(f: OtpForm)
  {
    && f.digits.Some? && 4 <= f.digits.value <= 10
    && f.ttlMinutes.Some? && 1 <= f.ttlMinutes.value <= 60
    && f.maxAttempts.Some? && 3 <= f.maxAttempts.value <= 10
    && f.sendSms.Some?
  }

  /** The running configuration after a valid form: the TTL is stored in seconds; sender and template are untouched. */
  function Updated(otp: Otp.OtpConfig, f: OtpForm): (r: Otp.OtpConfig)
    requires FormValid(f)
    ensures 4 <= r.digits <= 10 && 3 <= r.maxAttempts <= 10
    ensures 60 <= r.ttlSeconds <= 3600 && r.ttlSeconds % 60 == 0
    ensures r.ttlSeconds / 60 == f.ttlMinutes.value
    ensures r.digits == f.digits.value && r.maxAttempts == f.maxAttempts.value && r.sendSms == f.sendSms.value
    ensures r.senderId == otp.senderId && r.messageTemplate == otp.messageTemplate && r.appName == otp.appName
  {
    otp.(digits := f.digits.value, ttlSeconds := f.ttlMinutes.value * 60,
         maxAttempts := f.maxAttempts.value, sendSms := f.sendSms.value)
  }

  /** Saving the form and opening the page again shows the values just saved. */
  lemma UpdateThenEdit(user: nat, rows: ConfigRows, sms: SmsDefaults, inConsole: bool, otp: Otp.OtpConfig, f: OtpForm)
    requires FormValid(f)
    ensures var page := Edit(user, rows, sms, inConsole, Updated(otp, f));
            && page.ttlMinutes == f.ttlMinutes.value as real
            && page.digits == f.digits.value && page.maxAttempts == f.maxAttempts.value
            && page.sendSms == f.sendSms.value
  {
    var page := Edit(user, rows, sms, inConsole, Updated(otp, f));
    assert page.ttlMinutes * 60.0 == (f.ttlMinutes.value * 60) as real;
  }

  /** The page's TTL in minutes, written back through the form, gives the same number of seconds. */
  lemma EditThenUpdate(user: nat, rows: ConfigRows, sms: SmsDefaults, inConsole: bool, otp: Otp.OtpConfig,
                       f: OtpForm)
    requires FormValid(f) && f.ttlMinutes.value as real == Edit(user, rows, sms, inConsole, otp).ttlMinutes
    ensures Updated(otp, f).ttlSeconds == otp.ttlSeconds
  {
    var page := Edit(user, rows, sms, inConsole, otp);
    assert (f.ttlMinutes.value * 60) as real == otp.ttlSeconds as real;
  }

  /** The `otp.*` values of the running application, which `update` overwrites for the rest of the request. */
  class RuntimeConfig {
    var otp: Otp.OtpConfig

    constructor (otp: Otp.OtpConfig)
      ensures this.otp == otp
    {
      this.otp := otp;
    }

    /** `update`: a refused form changes nothing; a valid one sets digits, TTL (in seconds), attempts and sending. */
    method Update(f: OtpForm) returns (saved: bool)
      modifies this
      ensures saved <==> FormValid(f)
      ensures !saved ==> otp == old(otp)
      ensures saved ==> otp == Updated(old(otp), f)
    {
      if !FormValid(f) {
        return false;
      }
      otp := Updated(otp, f);
      return true;
    }
  }
}
