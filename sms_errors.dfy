/**
 * The messages of `SmsConfigurationException`'s three factories.
 */
module SmsErrors {
  import opened Wrappers
  import opened Strings

  const ConfigureSettings := "configure SMS settings"
  const EnvFile := ".env file"
  const MissingGeneric := "No SMS credentials configured. Please " + ConfigureSettings
                          + " or set ENGAGESPARK credentials in " + EnvFile + "."
  const NamedMiddle := " does not have valid SMS credentials configured. Please "
  const NamedTail := NamedMiddle + ConfigureSettings + "."
  const InvalidBase := "SMS credentials are invalid or expired."
  const SettingsPath := "Settings \U{2192} SMS Configuration"
  const DefaultProvider := "EngageSPARK"

  /**
   * `missingCredentials($userId)`: a message naming the user when the id is
   * truthy (not null and not 0), else the generic message pointing at `.env`.
   */
  function MissingCredentials(userId: Option<nat>): (msg: string)
    ensures userId.Some? && userId.value != 0 ==>
              Contains(msg, "User ID " + NatToString(userId.value)) && Contains(msg, ConfigureSettings)
    ensures userId.None? || userId.value == 0 ==> msg == MissingGeneric && Contains(msg, EnvFile)
  {
    if userId.Some? && userId.value != 0 then
      var named := "User ID " + NatToString(userId.value);
      NamedMentions(named, NamedMiddle, ConfigureSettings, ".");
      named + NamedTail
    else
      GenericMentionsEnv();
      MissingGeneric
  }

  /** A label followed by text, a hint and an ending mentions both the label and the hint. */
  lemma NamedMentions(named: string, middle: string, hint: string, end: string)
    ensures Contains(named + (middle + hint + end), named)
    ensures Contains(named + (middle + hint + end), hint)
  {
    ContainsInfix([], named, middle + hint + end);
    assert [] + named + (middle + hint + end) == named + (middle + hint + end);
    ContainsInfix(named + middle, hint, end);
    assert named + middle + hint + end == named + (middle + hint + end);
  }

  /** The generic message points at the `.env` file. */
  lemma GenericMentionsEnv()
    ensures Contains(MissingGeneric, EnvFile)
  {
    ContainsInfix("No SMS credentials configured. Please " + ConfigureSettings + " or set ENGAGESPARK credentials in ",
                  EnvFile, ".");
  }

  /** The same text around two labels gives the same message only for the same label. */
  lemma LabelInjective(p: string, x: string, y: string, t: string)
    requires p + x + t == p + y + t
    ensures x == y
  {
    assert |x| == |y|;
    assert x == (p + x + t)[|p|..|p| + |x|];
    assert y == (p + y + t)[|p|..|p| + |y|];
  }

  /** Different users get different messages. */
  lemma MissingCredentialsNamesUser(a: nat, b: nat)
    requires a != 0 && b != 0
    ensures MissingCredentials(Some(a)) == MissingCredentials(Some(b)) <==> a == b
  {
    if MissingCredentials(Some(a)) == MissingCredentials(Some(b)) {
      LabelInjective("User ID ", NatToString(a), NatToString(b), NamedTail);
      NatToStringInjective(a, b);
    }
  }

  /** `invalidCredentials($details)`: the base message, plus " Details: …" when the details are truthy. */
  function InvalidCredentials(details: string): (msg: string)
    ensures StartsWith(msg, InvalidBase)
    ensures !IsFalsy(details) ==> msg == InvalidBase + " Details: " + details && Contains(msg, details)
    ensures IsFalsy(details) ==> msg == InvalidBase
  {
    if !IsFalsy(details) then
      ContainsInfix(InvalidBase + " Details: ", details, []);
      assert InvalidBase + " Details: " + details + [] == InvalidBase + " Details: " + details;
      assert (InvalidBase + " Details: " + details)[..|InvalidBase|] == InvalidBase;
      InvalidBase + " Details: " + details
    else InvalidBase
  }

  /** `authenticationFailed($provider)`: names the provider and where to fix the credentials. */
  function AuthenticationFailed(provider: string): (msg: string)
    ensures Contains(msg, provider) && Contains(msg, SettingsPath)
    ensures StartsWith(msg, "Authentication failed with ")
  {
    var head := "Authentication failed with ";
    var mid := ". Please check your API credentials in ";
    ContainsInfix(head, provider, mid + SettingsPath + ".");
    assert head + provider + (mid + SettingsPath + ".") == head + provider + mid + SettingsPath + ".";
    ContainsInfix(head + provider + mid, SettingsPath, ".");
    assert (head + provider + mid + SettingsPath + ".")[..|head|] == head;
    head + provider + mid + SettingsPath + "."
  }
}
