/**
 * Where a user's SMS settings are written: the settings page
 * (`SmsConfigController`: show, save, delete) and registration
 * (`CreateNewUser`, which may create the first row).
 */
module SmsSettings {
  import opened Wrappers
  import opened Strings
  import opened Platform
  import opened SmsConfig

  /** A form field as the request carries it: absent, sent empty (null), or a string. */
  datatype FormValue = Missing | Null | Given(value: string)

  /** `$request->filled($key)`: present, not null, and not blank once trimmed (so "0" is filled). */
  predicate FilledField(v: FormValue)
  {
    v.Given? && Trim(v.value) != ""
  }

  /** `$request->input($key)`: the string, or null for both a missing and an empty field. */
  function Input(v: FormValue): Option<string>
  {
    if v.Given? then Some(v.value) else None
  }

  // ------------------------------------------------------------ edit

  /** The bullet character of the masked credentials. */
  const Bullet: char := '\U{2022}'

  /** `'••••••••' . substr($value, -4)`: eight bullets and the last four characters (all of a shorter value). */
  function Mask(value: string): (m: string)
    ensures |m| == 8 + (if |value| < 4 then |value| else 4)
    ensures forall i :: 0 <= i < 8 ==> m[i] == Bullet
    ensures m[8..] == (if |value| < 4 then value else value[|value| - 4..])
  {
    seq(8, _ => Bullet) + (if |value| < 4 then value else value[|value| - 4..])
  }

  /** The masked credential never shows more than its last four characters. */
  lemma MaskHidesAllButFour(value: string, i: nat)
    requires |value| >= 4 && i < |value| - 4
    ensures |Mask(value)| == 12
    ensures Mask(value)[8..] == value[|value| - 4..]
  {
  }

  /** The `userConfig` array of the settings page. */
  datatype ConfigView = ConfigView(
    apiKeyMasked: Option<string>,
    orgIdMasked: Option<string>,
    defaultSenderId: Option<string>,
    senderIds: seq<string>,
    isActive: bool,
    hasCredentials: bool)

  /** The page's properties: the user's settings, if any, and whether the application's are in use. */
  datatype SettingsPage = SettingsPage(userConfig: Option<ConfigView>, usesAppDefaults: bool)

  /** `$user->smsConfig('engagespark')`: the user's row for that driver. */
  function UserRow(rows: ConfigRows, user: nat): (r: Option<UserSmsConfig>)
    ensures r.Some? <==> (user, EngageSpark) in rows
    ensures r.Some? ==> r.value == rows[(user, EngageSpark)]
  {
    if (user, EngageSpark) in rows then Some(rows[(user, EngageSpark)]) else None
  }

  /** `edit`: masked credentials only when both are complete; the application's settings apply without an active row. */
  function Edit(rows: ConfigRows, user: nat): (page: SettingsPage)
    ensures page.usesAppDefaults <==> UserRow(rows, user).None? || !UserRow(rows, user).value.isActive
    ensures page.userConfig.Some? <==> (user, EngageSpark) in rows
    ensures page.userConfig.Some? ==>
              var c := rows[(user, EngageSpark)];
              var v := page.userConfig.value;
              && v.hasCredentials == HasRequiredCredentials(c)
              && (v.apiKeyMasked.Some? <==> HasRequiredCredentials(c))
              && (v.orgIdMasked.Some? <==> HasRequiredCredentials(c))
              && (HasRequiredCredentials(c) ==> v.apiKeyMasked == Some(Mask(GetCredential(c, "api_key", None).OrElse("")))
                                                && v.orgIdMasked == Some(Mask(GetCredential(c, "org_id", None).OrElse(""))))
              && v.defaultSenderId == c.defaultSenderId && v.senderIds == c.senderIds.OrElse([])
              && v.isActive == c.isActive
  {
    match UserRow(rows, user)
    case None => SettingsPage(None, true)
    case Some(c) =>
      var complete := HasRequiredCredentials(c);
      if complete then
        SettingsPage(Some(ConfigView(Some(Mask(GetCredential(c, "api_key", None).OrElse(""))),
                                     Some(Mask(GetCredential(c, "org_id", None).OrElse(""))),
                                     c.defaultSenderId, c.senderIds.OrElse([]), c.isActive, true)),
                     !c.isActive)
      else
        SettingsPage(Some(ConfigView(None, None, c.defaultSenderId, c.senderIds.OrElse([]), c.isActive, false)),
                     !c.isActive)
  }

  // ------------------------------------------------------------ update and destroy

  /** The settings form as submitted. */
  datatype SettingsForm = SettingsForm(
    apiKey: FormValue,
    orgId: FormValue,
    defaultSenderId: FormValue,
    senderIds: FormValue,
    isActive: Option<bool>)

  /** `UpdateSmsConfigRequest::rules`: a sender of at most 255 characters is required; keys of at most 255 are optional. */
  predicate FormValid(f: SettingsForm)
  {
    && (f.apiKey.Given? ==> |f.apiKey.value| <= 255)
    && (f.orgId.Given? ==> |f.orgId.value| <= 255)
    && f.defaultSenderId.Given? && Trim(f.defaultSenderId.value) != "" && |f.defaultSenderId.value| <= 255
  }

  /** `$request->input('sender_ids', [])`, parsed when it is a string. */
  function FormSenderIds(v: FormValue): (ids: Option<seq<string>>)
    ensures v.Missing? ==> ids == Some([])
    ensures v.Null? ==> ids.None?
    ensures v.Given? ==> ids == Some(ParseList(v.value))
  {
    match v
    case Missing => Some([])
    case Null => None
    case Given(s) => Some(ParseList(s))
  }

  /** A credential from the form when filled, else the one already stored (or null). */
  function KeptCredential(v: FormValue, existing: Option<UserSmsConfig>, key: string): (c: Option<string>)
    ensures FilledField(v) ==> c == Some(v.value)
    ensures !FilledField(v) && existing.Some? ==> c == GetCredential(existing.value, key, None)
    ensures !FilledField(v) && existing.None? ==> c.None?
  {
    if FilledField(v) then Some(v.value)
    else if existing.Some? then GetCredential(existing.value, key, None)
    else None
  }

  /** The row `update` writes for the user. */
  function SavedRow(rows: ConfigRows, user: nat, f: SettingsForm): (row: UserSmsConfig)
    ensures row.userId == user && row.driver == EngageSpark
    ensures row.credentials == Some(map["api_key" := KeptCredential(f.apiKey, UserRow(rows, user), "api_key"),
                                        "org_id" := KeptCredential(f.orgId, UserRow(rows, user), "org_id")])
    ensures row.defaultSenderId == Input(f.defaultSenderId) && row.senderIds == FormSenderIds(f.senderIds)
    ensures row.isActive == f.isActive.OrElse(true)
  {
    var existing := UserRow(rows, user);
    var credentials := map["api_key" := KeptCredential(f.apiKey, existing, "api_key"),
                           "org_id" := KeptCredential(f.orgId, existing, "org_id")];
    UserSmsConfig(user, EngageSpark, Some(credentials), Input(f.defaultSenderId), FormSenderIds(f.senderIds),
                  f.isActive.OrElse(true))
  }

  /** Leaving both keys blank keeps the stored credentials. */
  lemma BlankKeysKeepCredentials(rows: ConfigRows, user: nat, f: SettingsForm)
    requires (user, EngageSpark) in rows && !FilledField(f.apiKey) && !FilledField(f.orgId)
    requires HasRequiredCredentials(rows[(user, EngageSpark)]) && rows[(user, EngageSpark)].driver == EngageSpark
    ensures HasRequiredCredentials(SavedRow(rows, user, f))
    ensures GetCredential(SavedRow(rows, user, f), "api_key", None) == GetCredential(rows[(user, EngageSpark)], "api_key", None)
    ensures GetCredential(SavedRow(rows, user, f), "org_id", None) == GetCredential(rows[(user, EngageSpark)], "org_id", None)
  {
    var c := rows[(user, EngageSpark)];
    assert Filled(c.credentials.value, "api_key") && Filled(c.credentials.value, "org_id");
  }

  /** The `user_sms_configs` table, one row per (user, driver). */
  class SmsConfigTable {
    var rows: ConfigRows

    predicate Valid()
      reads this
    {
      WellKeyed(rows)
    }

    constructor (rows: ConfigRows)
      requires WellKeyed(rows)
      ensures this.rows == rows && Valid()
    {
      this.rows := rows;
    }

    /**
     * `update`: a form the request rules refuse changes nothing; otherwise
     * `updateOrCreate` keyed by (user, engagespark) replaces or adds that
     * one row and leaves every other row alone.
     */
    method Update(user: nat, f: SettingsForm) returns (saved: bool)
      requires Valid()
      modifies this
      ensures Valid()
      ensures saved <==> FormValid(f)
      ensures !saved ==> rows == old(rows)
      ensures saved ==> rows == old(rows)[(user, EngageSpark) := SavedRow(old(rows), user, f)]
    {
      if !FormValid(f) {
        return false;
      }
      var row := SavedRow(rows, user, f);
      rows := rows[(user, EngageSpark) := row];
      return true;
    }

    /** `destroy`: deletes the user's engagespark row and no other. */
    method Destroy(user: nat)
      requires Valid()
      modifies this
      ensures Valid()
      ensures rows.Keys == old(rows).Keys - {(user, EngageSpark)}
      ensures forall k :: k in rows ==> rows[k] == old(rows)[k]
    {
      rows := map k | k in rows && k != (user, EngageSpark) :: rows[k];
    }

    /** `UserSmsConfig::create` for a user who has no row yet. */
    method Insert(row: UserSmsConfig)
      requires Valid() && (row.userId, row.driver) !in rows
      modifies this
      ensures Valid()
      ensures rows == old(rows)[(row.userId, row.driver) := row]
    {
      rows := rows[(row.userId, row.driver) := row];
    }
  }

  /** Saving the same form over the row it just wrote gives that row again, blank keys included. */
  lemma SaveIdempotent(rows: ConfigRows, user: nat, f: SettingsForm)
    ensures var once := SavedRow(rows, user, f);
            SavedRow(rows[(user, EngageSpark) := once], user, f) == once
  {
    var once := SavedRow(rows, user, f);
    var rows' := rows[(user, EngageSpark) := once];
    assert UserRow(rows', user) == Some(once);
    forall key | key in {"api_key", "org_id"}
      ensures GetCredential(once, key, None) == once.credentials.value[key]
    {
    }
    assert KeptCredential(f.apiKey, Some(once), "api_key") == KeptCredential(f.apiKey, UserRow(rows, user), "api_key");
    assert KeptCredential(f.orgId, Some(once), "org_id") == KeptCredential(f.orgId, UserRow(rows, user), "org_id");
  }

  /** Saving the form twice leaves the table as saving it once. */
  method UpdateTwice(table: SmsConfigTable, user: nat, f: SettingsForm)
    requires table.Valid()
    modifies table
    ensures table.Valid()
    ensures FormValid(f) ==> table.rows == old(table.rows)[(user, EngageSpark) := SavedRow(old(table.rows), user, f)]
    ensures !FormValid(f) ==> table.rows == old(table.rows)
  {
    var first := table.Update(user, f);
    var second := table.Update(user, f);
    if FormValid(f) {
      SaveIdempotent(old(table.rows), user, f);
    }
  }

  // ------------------------------------------------------------ registration

  /** The `registration.sms_config` modes with a meaning of their own; any other value behaves as optional. */
  const DisabledMode := "disabled"
  const RequiredMode := "required"

  /** `getSmsValidationRules`: field to rule list. */
  function SmsValidationRules(mode: string): (rules: map<string, seq<string>>)
    ensures mode == DisabledMode <==> rules == map[]
    ensures mode != DisabledMode ==>
              rules.Keys == {"sms_api_key", "sms_org_id", "sms_default_sender_id", "sms_sender_ids", "sms_is_active"}
              && rules["sms_sender_ids"] == ["nullable", "string"] && rules["sms_is_active"] == ["boolean"]
              && forall f :: f in {"sms_api_key", "sms_org_id", "sms_default_sender_id"} ==>
                   rules[f] == [if mode == RequiredMode then "required" else "nullable", "string", "max:255"]
  {
    if mode == DisabledMode then map[]
    else
      var rule := if mode == RequiredMode then "required" else "nullable";
      var rules := map["sms_api_key" := [rule, "string", "max:255"],
          "sms_org_id" := [rule, "string", "max:255"],
          "sms_default_sender_id" := [rule, "string", "max:255"],
          "sms_sender_ids" := ["nullable", "string"],
          "sms_is_active" := ["boolean"]];
      assert "sms_is_active" in rules;
      rules
  }

  /** The SMS fields of the registration form; `None` is a field that is not in the input array. */
  datatype Registration = Registration(
    apiKey: Option<string>,
    orgId: Option<string>,
    defaultSenderId: Option<string>,
    senderIds: Option<string>,
    isActive: Option<bool>)

  /** `hasSmsConfig`: both keys non-empty in PHP's sense. */
  predicate HasSmsConfig(input: Registration)
  {
    Truthy(input.apiKey) && Truthy(input.orgId)
  }

  /** The SMS part of the registration rules: in required mode the keys and the sender must be given and non-blank; all at most 255. */
  predicate RegistrationValid(input: Registration, mode: string)
  {
    mode == DisabledMode
    || (&& (mode == RequiredMode ==>
              && input.apiKey.Some? && Trim(input.apiKey.value) != ""
              && input.orgId.Some? && Trim(input.orgId.value) != ""
              && input.defaultSenderId.Some? && Trim(input.defaultSenderId.value) != "")
        && (input.apiKey.Some? ==> |input.apiKey.value| <= 255)
        && (input.orgId.Some? ==> |input.orgId.value| <= 255)
        && (input.defaultSenderId.Some? ==> |input.defaultSenderId.value| <= 255))
  }

  /** `createSmsConfig` as written: reading `$input['sms_default_sender_id']` without `??` throws when the field is absent. */
  function RegistrationRowAsWritten(user: nat, input: Registration): (r: Result<UserSmsConfig, string>)
    requires HasSmsConfig(input)
    ensures r.Err? <==> input.defaultSenderId.None?
  {
    if input.defaultSenderId.None? then Err("Undefined array key \"sms_default_sender_id\"")
    else Ok(RegistrationRow(user, input))
  }

  /**
   * In the optional mode an input with both keys but no sender passes the
   * rules, yet the row cannot be built: the user exists without settings
   * and the registration request fails.
   */
  lemma OptionalModeWithoutSenderThrows(user: nat)
    ensures var input := Registration(Some("key"), Some("org"), None, None, None);
            RegistrationValid(input, "optional") && HasSmsConfig(input)
            && RegistrationRowAsWritten(user, input).Err?
  {
  }

  /** `createSmsConfig` as intended: an absent sender is stored as null. */
  function RegistrationRow(user: nat, input: Registration): (row: UserSmsConfig)
    requires HasSmsConfig(input)
    ensures row.userId == user && row.driver == EngageSpark && row.isActive == input.isActive.OrElse(true)
    ensures row.credentials == Some(map["api_key" := input.apiKey, "org_id" := input.orgId])
    ensures row.defaultSenderId == input.defaultSenderId
    ensures row.senderIds == Some(ParseList(input.senderIds.OrElse("")))
  {
    UserSmsConfig(user, EngageSpark, Some(map["api_key" := input.apiKey, "org_id" := input.orgId]),
                  input.defaultSenderId, Some(ParseList(input.senderIds.OrElse(""))), input.isActive.OrElse(true))
  }

  /** Both keys set to non-empty strings make an engagespark row complete. */
  lemma KeysMakeComplete(c: UserSmsConfig, apiKey: Option<string>, orgId: Option<string>)
    requires c.driver == EngageSpark && c.credentials == Some(map["api_key" := apiKey, "org_id" := orgId])
    requires Truthy(apiKey) && Truthy(orgId)
    ensures HasRequiredCredentials(c)
  {
    assert Filled(c.credentials.value, "api_key");
    assert Filled(c.credentials.value, "org_id");
  }

  /** A registered row always has complete credentials, so the user's own settings are used from the start when active. */
  lemma RegisteredRowComplete(user: nat, input: Registration)
    requires HasSmsConfig(input)
    ensures HasRequiredCredentials(RegistrationRow(user, input))
  {
    KeysMakeComplete(RegistrationRow(user, input), input.apiKey, input.orgId);
  }

  /** Without a sender list the row's list is empty: `''` splits into one empty piece, which is dropped. */
  lemma NoSenderIdsGivesEmptyList(user: nat, input: Registration)
    requires HasSmsConfig(input) && input.senderIds.None?
    ensures RegistrationRow(user, input).senderIds == Some([])
  {
    assert Split("", ',') == [""];
    assert TrimAll([""]) == [Trim("")];
  }

  /**
   * The SMS part of `create` for a newly created user: refused input
   * writes nothing; otherwise a row is created exactly when the mode is not
   * disabled and both keys are given.
   */
  method RegisterSmsConfig(table: SmsConfigTable, user: nat, input: Registration, mode: string)
    returns (valid: bool, created: bool)
    requires table.Valid() && (user, EngageSpark) !in table.rows
    modifies table
    ensures table.Valid()
    ensures valid <==> RegistrationValid(input, mode)
    ensures created <==> valid && mode != DisabledMode && HasSmsConfig(input)
    ensures !created ==> table.rows == old(table.rows)
    ensures created ==> table.rows == old(table.rows)[(user, EngageSpark) := RegistrationRow(user, input)]
  {
    valid := RegistrationValid(input, mode);
    if !valid {
      return false, false;
    }
    created := mode != DisabledMode && HasSmsConfig(input);
    if created {
      table.Insert(RegistrationRow(user, input));
    }
  }
}
