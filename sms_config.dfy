/**
 * Per-user SMS provider settings (`UserSmsConfig`) and the service that
 * resolves which credentials a send uses: the user's own active row, the
 * application's `.env` settings when running in the console, or nothing.
 */
module SmsConfig {
  import opened Wrappers
  import opened Strings
  import opened Platform

  const EngageSpark := "engagespark"

  /** A row of `user_sms_configs`; `credentials` is null when never set. */
  datatype UserSmsConfig = UserSmsConfig(
    userId: nat,
    driver: string,
    credentials: Option<Credentials>,
    defaultSenderId: Option<string>,
    senderIds: Option<seq<string>>,
    isActive: bool)

  /**
   * The table, keyed by (user_id, driver): the migration declares that pair
   * unique, so a row is identified by it.
   */
  type ConfigRows = map<(nat, string), UserSmsConfig>

  predicate WellKeyed(rows: ConfigRows)
  {
    forall k :: k in rows ==> rows[k].userId == k.0 && rows[k].driver == k.1
  }

  /** `getCredential($key, $default)`: the stored value when present and not null, else the default. */
  function GetCredential(c: UserSmsConfig, key: string, default: Option<string>): (r: Option<string>)
    ensures c.credentials.Some? && key in c.credentials.value && c.credentials.value[key].Some?
            ==> r == c.credentials.value[key]
    ensures !(c.credentials.Some? && key in c.credentials.value && c.credentials.value[key].Some?)
            ==> r == default
  {
    match c.credentials
    case None => default
    case Some(creds) => if key in creds && creds[key].Some? then creds[key] else default
  }

  /** The credential `key` is present and not empty in PHP's sense (so "0" is missing). */
  predicate Filled(creds: Credentials, key: string)
  {
    key in creds && creds[key].Some? && !IsFalsy(creds[key].value)
  }

  /** The credential keys a driver demands. */
  function RequiredFields(driver: string): seq<string>
  {
    if driver == EngageSpark then ["api_key", "org_id"] else []
  }

  /** The early-exit scan over the required fields. */
  function AllFilled(creds: Credentials, fields: seq<string>): (r: bool)
    ensures r <==> forall i :: 0 <= i < |fields| ==> Filled(creds, fields[i])
  {
    if fields == [] then true
    else if !Filled(creds, fields[0]) then false
    else AllFilled(creds, fields[1..])
  }

  /** `hasRequiredCredentials()`. */
  function HasRequiredCredentials(c: UserSmsConfig): (r: bool)
    ensures r ==> c.credentials.Some? && c.credentials.value != map[]
    ensures c.driver == EngageSpark ==>
              (r <==> c.credentials.Some?
                      && Filled(c.credentials.value, "api_key") && Filled(c.credentials.value, "org_id"))
    ensures c.driver != EngageSpark ==> (r <==> c.credentials.Some? && c.credentials.value != map[])
  {
    match c.credentials
    case None => false
    case Some(creds) =>
      if creds == map[] then
        assert !Filled(creds, "api_key");
        false
      else
        var fields := RequiredFields(c.driver);
        assert c.driver == EngageSpark ==> fields[0] == "api_key" && fields[1] == "org_id" && |fields| == 2;
        AllFilled(creds, fields)
  }

  /** Whose settings a resolved configuration came from. */
  datatype Source = UserSource | AppSource | NoSource

  /** The array `getConfigForUser` returns. */
  datatype ResolvedConfig = ResolvedConfig(
    driver: string,
    credentials: Credentials,
    defaultSenderId: Option<string>,
    senderIds: seq<string>,
    source: Source)

  /** The driver actually used: the argument, else `sms.default`, else engagespark. */
  function DriverOrDefault(driver: Option<string>, cfg: SmsDefaults): string
  {
    driver.OrElse(cfg.defaultDriver.OrElse(EngageSpark))
  }

  /** The user's row for a driver when it is active and complete, which is what the user branch needs. */
  predicate UsableRow(rows: ConfigRows, user: nat, driver: string)
  {
    (user, driver) in rows && rows[(user, driver)].isActive && HasRequiredCredentials(rows[(user, driver)])
  }

  /**
   * `getConfigForUser($user, $driver)`: the user's own settings, else (in the
   * console only) the application's, else an empty configuration.
   */
  function GetConfigForUser(user: Option<nat>, authUser: Option<nat>, driver: Option<string>,
                            rows: ConfigRows, cfg: SmsDefaults, inConsole: bool): (r: ResolvedConfig)
    ensures r.driver == DriverOrDefault(driver, cfg)
    ensures var u := if user.Some? then user else authUser;
            && (r.source == UserSource <==> u.Some? && UsableRow(rows, u.value, r.driver))
            && (r.source == UserSource ==>
                  var row := rows[(u.value, r.driver)];
                  Some(r.credentials) == row.credentials
                  && r.defaultSenderId == (if row.defaultSenderId.Some? then row.defaultSenderId else cfg.defaultSenderId)
                  && r.senderIds == row.senderIds.OrElse(cfg.senderIds))
            && (r.source == AppSource <==> !(u.Some? && UsableRow(rows, u.value, r.driver)) && inConsole)
    ensures r.source == AppSource ==>
              r.credentials == (if r.driver in cfg.drivers then cfg.drivers[r.driver] else map[])
              && r.defaultSenderId == cfg.defaultSenderId && r.senderIds == cfg.senderIds
    ensures r.source == NoSource ==> r.credentials == map[] && r.defaultSenderId.None? && r.senderIds == []
  {
    var u := if user.Some? then user else authUser;
    var d := DriverOrDefault(driver, cfg);
    if u.Some? && UsableRow(rows, u.value, d) then
      var row := rows[(u.value, d)];
      ResolvedConfig(d, row.credentials.value,
                     if row.defaultSenderId.Some? then row.defaultSenderId else cfg.defaultSenderId,
                     row.senderIds.OrElse(cfg.senderIds), UserSource)
    else if inConsole then
      ResolvedConfig(d, if d in cfg.drivers then cfg.drivers[d] else map[],
                     cfg.defaultSenderId, cfg.senderIds, AppSource)
    else
      ResolvedConfig(d, map[], None, [], NoSource)
  }

  /** The array `getEngageSparkConfig` returns. */
  datatype EngageSparkConfig = EngageSparkConfig(
    apiKey: Option<string>,
    orgId: Option<string>,
    senderId: Option<string>,
    defaultSenderId: Option<string>,
    senderIds: seq<string>,
    source: Source)

  /**
   * `getEngageSparkConfig($user)`: the engagespark configuration with the
   * credentials picked out; the sender is the credential `sender_id`, else the
   * default sender, else null.
   */
  function GetEngageSparkConfig(user: Option<nat>, authUser: Option<nat>,
                                rows: ConfigRows, cfg: SmsDefaults, inConsole: bool): (r: EngageSparkConfig)
    ensures var c := GetConfigForUser(user, authUser, Some(EngageSpark), rows, cfg, inConsole);
            && r.apiKey == Lookup(c.credentials, "api_key")
            && r.orgId == Lookup(c.credentials, "org_id")
            && r.senderId == (if Lookup(c.credentials, "sender_id").Some? then Lookup(c.credentials, "sender_id")
                              else c.defaultSenderId)
            && r.defaultSenderId == c.defaultSenderId
            && r.source == c.source
  {
    var c := GetConfigForUser(user, authUser, Some(EngageSpark), rows, cfg, inConsole);
    var sid := Lookup(c.credentials, "sender_id");
    EngageSparkConfig(Lookup(c.credentials, "api_key"), Lookup(c.credentials, "org_id"),
                      if sid.Some? then sid else c.defaultSenderId,
                      c.defaultSenderId, c.senderIds, c.source)
  }

  /** The string "0" is not a usable credential: engagespark treats it as missing. */
  lemma ZeroCredentialIsMissing(c: UserSmsConfig)
    requires c.driver == EngageSpark && c.credentials.Some?
    requires "api_key" in c.credentials.value && c.credentials.value["api_key"] == Some("0")
    ensures !HasRequiredCredentials(c)
  {
  }

  /** A web request by a user without a usable row gets no credentials at all. */
  lemma WebUserWithoutConfigGetsNothing(user: nat, rows: ConfigRows, cfg: SmsDefaults)
    requires !UsableRow(rows, user, EngageSpark)
    ensures var r := GetEngageSparkConfig(Some(user), None, rows, cfg, false);
            r.source == NoSource && r.apiKey.None? && r.orgId.None? && r.senderId.None?
  {
  }

  /** An inactive row is ignored even when its credentials are complete. */
  lemma InactiveRowIgnored(user: nat, rows: ConfigRows, cfg: SmsDefaults, inConsole: bool)
    requires (user, EngageSpark) in rows && !rows[(user, EngageSpark)].isActive
    ensures GetEngageSparkConfig(Some(user), None, rows, cfg, inConsole).source != UserSource
  {
  }
}
