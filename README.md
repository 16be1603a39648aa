# txtcmdr core, modelled in Dafny

This project models the core of txtcmdr, a Laravel platform for sending SMS and one-time passwords (OTP).

- **OTP service.** `requestOtp` issues a numeric code and stores only its HMAC. `verifyOtp` is a state machine: its checks run in a fixed order, and it counts attempts and locks the row at the maximum.
- **Scheduled messages.** A message is created with its recipient tokens resolved into numbers and groups. It is swept when due and fanned out to its distinct numbers. It can be edited while still in the future and cancelled while pending or processing.
- **Delivery records.** `SendSMSJob` writes a `MessageLog`, which it then marks sent or failed. The provider's HTTP errors are classified. A failed record can be retried, and a blacklist middleware can drop a job before it runs.
- **Fan-out and bulk actions.**
  - Sending to several numbers or to several groups.
  - Broadcasting to one group.
  - Bulk sending from an uploaded file, with or without personalisation.
  - Importing contacts into a group.
  - The message personaliser and the file parser's row extraction.
- **SMS settings.**
  - The per-user `UserSmsConfig` and the service that resolves which credentials a send uses.
  - The SMS and OTP settings pages.
  - The SMS part of registration.
  - The configuration-error messages.
- **Data transforms.**
  - The message-history CSV export.
  - The migration that rewrites contact mobiles to E.164.
  - The migration that removes duplicate contacts.

How the environment is represented:
- **Phone normaliser.** libphonenumber's `phone($raw, 'PH')->formatE164()` is a function parameter `(string, string) -> Option<string>`. `None` stands for the exception it throws.
- **Other foreign calls.** The HMAC of a code, the spreadsheet readers and the phone validator are parameters too.
- **Clock.** `now()` is an integer parameter.
- **Queue.** Dispatching a job appends a `Job` value to a sequence that the operation returns.
- **Tables.** A database table is a class holding a `map` from id to row plus the next auto-increment id, and `first()` is the smallest matching id. The SMS-settings table is keyed by (user, driver) and the OTP table by UUID.
- **Authentication.** The signed-in user is an `Option<nat>` parameter, as is whether the code runs in the console.
- **Random choices.** `random_int` is a nondeterministic choice within its range, so contracts hold for every outcome.

## Model

| member | source | states |
|---|---|---|
| Otp.VerifyPrecedence | app/Services/Otp/OtpService.php:62-111 | Each outcome of `verifyOtp` holds exactly when the earlier checks pass and its own check fires, in this order: already verified, locked, expired, attempt cap, then the hash compare. `ok` holds iff the reason is verified. |
| Otp.CorrectCodeVerifies | app/Services/Otp/OtpService.php:90-97 | A correct code on an open row that is neither expired nor capped returns ok with reason verified. The row becomes verified at `now` and keeps its attempt count. |
| Otp.WrongCodeCounts | app/Services/Otp/OtpService.php:99-110 | A wrong code adds exactly one attempt. The row locks iff the new count reaches the maximum and otherwise keeps its status. The result reports `invalid_code` with the new count and status. |
| Otp.TerminalSticky | app/Services/Otp/OtpService.php:70-76 | A verified or locked row is returned unchanged, with reason `already_verified` or `locked` respectively. |
| Otp.ExpiredBeatsCorrectCode | app/Services/Otp/OtpService.php:78-82 | Past its expiry even the right code fails with reason `expired`. The row becomes expired and its attempts are untouched. |
| Otp.NotExpiredAtDeadline | app/Models/OtpVerification.php:41-44 | At exactly `expires_at` the code is still accepted; one second later it is not. |
| Otp.WrittenStatusesTerminal | app/Models/OtpVerification.php:49-52 | Every status that `verifyOtp` writes is terminal, and pending is not terminal. |
| Otp.VerifyKeepsAttemptsInvariant | app/Services/Otp/OtpService.php:84-103 | Attempts never exceed the maximum and a pending row stays below it: every call preserves this. |
| Otp.AttemptCapOnlyAfterWrongCodes | app/Services/Otp/OtpService.php:84-87 | On a pending, unexpired row that keeps the invariant, the up-front attempt cap never fires. |
| Otp.WrongCodesLock | app/Services/Otp/OtpService.php:99-103 | From `k` attempts, `max - k` wrong codes lock a pending row with attempts at the maximum. |
| Otp.LockedAfterMaxWrongCodes | app/Services/Otp/OtpService.php:74-103 | After `max_attempts` wrong codes on a fresh row, the right code is refused as `locked`. |
| Otp.CeilMinutes | app/Services/Otp/OtpService.php:189 | The result is the least whole number of minutes that covers the TTL. |
| Otp.BuiltInMessage | app/Services/Otp/OtpService.php:186-197 | With the built-in template, the message is the filled sentence "Your {purpose} code is: {code}. Valid for {minutes} minutes.", with minutes = ⌈ttl/60⌉. Only the purpose must be free of braces; the application name may be anything, because its placeholder is replaced last. |
| Otp.ConfiguredMessage | app/Services/Otp/OtpService.php:186-197 | The same for the configured template that ends "Do not share this code." |
| Otp.SenderIdForUser | app/Services/Otp/OtpService.php:162-181 | No user, user 0 and an unknown user get the fallback `otp.sender_id`, else `sms.default_sender_id`, else TXTCMDR. For a known user the sender is the `default_sender_id` the SMS configuration service reports, when it is truthy, and the fallback otherwise. That reported sender is the usable row's own sender when it has one. A usable row without one, or a console run without a usable row, reports `sms.default_sender_id`. A web request without a usable row reports nothing. |
| Otp.SmsDefaultBeforeOtpSender | app/Services/SmsConfigService.php:32 | A user whose usable row has no default sender gets `sms.default_sender_id` ("APP"), even when `otp.sender_id` is set. |
| Otp.GenerateCode | app/Services/Otp/OtpService.php:116-119 | The code has exactly `digits` decimal digits and no leading zero, for every random choice. |
| Otp.OtpStore.RequestOtp | app/Services/Otp/OtpService.php:16-56 | Creates one pending row with attempts 0, the configured maximum, expiry `now + ttl` and only the HMAC of the code. With sending on it also queues one job and counts one send; with sending off it does neither. `expires_in` is the TTL. With a maximum of at least one, the attempts invariant of every row is kept; a maximum of 0, which the settings form refuses, would break it. |
| Otp.OtpStore.SendOtpSms | app/Services/Otp/OtpService.php:132-157 | Queues exactly one SendSMSJob with the row's mobile, the built message, the resolved sender, no scheduled id and the requester's id. It adds one to `send_count` and sets `last_sent_at`. The attempts invariant of every row is kept. |
| Otp.OtpStore.VerifyOtp | app/Services/Otp/OtpService.php:62-111 | The table and the result are those of the `verifyOtp` state machine; an unknown id is `not_found` and changes nothing. The attempts invariant of every row is kept. |
| Otp.RequestThenVerify | tests/Feature/OtpApiTest.php:19-38 | Verifying the issued code before expiry succeeds, and a second verification reports `already_verified`. |
| ScheduledMessages.StatusPredicates | app/Models/ScheduledMessage.php:37-58 | An editable message is pending and cancellable. No message is both ready and editable at one instant. A pending message is exactly one of the two. |
| ScheduledMessages.RecipientSummary | app/Models/ScheduledMessage.php:61-73 | numbers gives "n number(s)". group gives "name (total)", with "Group" when there is no name. mixed gives "total recipient(s)". Any other type gives "Unknown". |
| ScheduledMessages.SummaryKnown | app/Models/ScheduledMessage.php:65-70 | "Unknown" appears iff the type is none of the three. Every known summary ends in ')'. |
| ScheduledMessages.Updated | app/Actions/UpdateScheduledMessage.php:28-42 | Each non-null argument replaces its field and the other fields are unchanged. |
| ScheduledMessages.UpdateKeepsEditable | app/Actions/UpdateScheduledMessage.php:28-54 | A validated update of an editable message leaves it editable. Status, recipient type, recipient data and total are untouched, and the length bounds of 1600 and 11 hold. |
| ScheduledMessages.ScheduledTable.Create | app/Actions/ScheduleMessage.php:45-53 | Inserts the row under a fresh id and leaves every other row alone. |
| ScheduledMessages.ScheduledTable.Update | app/Actions/UpdateScheduledMessage.php:15-45 | A missing id fails with not found. A non-editable message is refused with "Cannot edit this scheduled message" and nothing changes. Otherwise only that row is replaced by the updated message. |
| ScheduledMessages.ScheduledTable.Cancel | app/Actions/CancelScheduledMessage.php:13-24 | A missing id fails with not found. A message that is neither pending nor processing is refused with "Cannot cancel this message" and nothing changes. Otherwise only its status becomes cancelled. |
| ScheduledMessages.CancelOnce | app/Actions/CancelScheduledMessage.php:17-21 | A cancelled message, and a sent one, can no longer be cancelled. |
| ScheduleMessage.RecipientTokens | app/Actions/ScheduleMessage.php:38-40 | A string is split on ',' and each piece trimmed, one token per piece. An array is used as it is. |
| ScheduleMessage.Resolve | app/Actions/ScheduleMessage.php:93-139 | A token is a number iff it normalises, and then it is its E.164 form. Otherwise the oldest contact with that name supplies its own normalised number, or nothing when that number fails; no group lookup follows. Otherwise the first group with that name is used, with its member count. Otherwise the token resolves to nothing. |
| ScheduleMessage.CollectCount | app/Actions/ScheduleMessage.php:105-156 | The count is the number of resolved numbers plus the member counts of the resolved groups, with no deduplication. At most one entry is added per token. |
| ScheduleMessage.DroppedToken | app/Actions/ScheduleMessage.php:109-126 | A token that resolves to nothing, or to a contact whose number fails, changes no accumulator. |
| ScheduleMessage.RecipientTypeOf | app/Actions/ScheduleMessage.php:142-147 | numbers iff there are no groups. group iff there is exactly one group and no numbers. mixed otherwise. |
| ScheduleMessage.DataOf | app/Actions/ScheduleMessage.php:149-155 | The stored numbers and groups, with `group_name` the first group's name, or null iff there are no groups. |
| ScheduleMessage.Visit | app/Actions/ScheduleMessage.php:94-138 | One pass of the loop resolves the token as the table before the loop would. It keeps earlier contacts, and for a parseable token it leaves a contact holding that E.164 mobile. For a normaliser that keeps E.164 numbers as they are, any contact it adds holds the token's number. |
| ScheduleMessage.Lookup | app/Actions/ScheduleMessage.php:113-138 | A token that is not a number resolves, against the grown table, exactly as it would have against the table before the loop: first as a contact name, then as a group name. |
| ScheduleMessage.ParseRecipients | app/Actions/ScheduleMessage.php:87-158 | The accumulators equal the resolution of all tokens. The contacts table only grows, by ownerless, nameless rows. Every parseable token's number is stored, and no added contact duplicates a mobile. For a normaliser that keeps E.164 numbers as they are, every added contact holds the number of some token. |
| ScheduleMessage.AddedStep | app/Actions/ScheduleMessage.php:94-138 | When every contact added so far holds some earlier token's number, and one more pass adds only contacts holding its own token's number, the same holds with that token counted. |
| ScheduleMessage.NewScheduled | app/Actions/ScheduleMessage.php:45-53 | The created row is pending with no results yet, and carries the type, data and count from parsing. |
| ScheduleMessage.Schedule | app/Actions/ScheduleMessage.php:26-54 | The sender defaults to `sms.default_sender_id`, then TXTCMDR. Exactly one new pending row, built from the resolved tokens, is added under a fresh id. For a normaliser that keeps E.164 numbers as they are, every contact added holds the number of some recipient token. |
| ProcessScheduled.ReadyIds | app/Models/ScheduledMessage.php:37-41 | An id is listed iff its message is pending and due. The ids are strictly ascending, the order the model assumes the query returns. |
| ProcessScheduled.Sweep | app/Console/Commands/ProcessScheduledMessages.php:28-44 | Queues exactly one ProcessScheduledMessage per ready message, in order, and nothing when none is ready. It returns exit code 0 and changes no message. |
| ProcessScheduled.GroupNumbers | app/Jobs/ProcessScheduledMessage.php:46-53 | Yields at most one number per member, and `filter()` leaves no empty or "0" value. |
| ProcessScheduled.DeletedGroupsAddNothing | app/Jobs/ProcessScheduledMessage.php:44-45 | Groups deleted since scheduling contribute no numbers. |
| ProcessScheduled.Unique | app/Jobs/ProcessScheduledMessage.php:61 | `array_unique` keeps the same set of values, each once, and never grows the list. |
| ProcessScheduled.FirstIndex | app/Jobs/ProcessScheduledMessage.php:61 | The index of a value's first occurrence: it holds the value, and no earlier index does. |
| ProcessScheduled.UniqueFirstOrder | app/Jobs/ProcessScheduledMessage.php:61 | `array_unique` keeps each value at its first occurrence: the values it returns appear in the order of their first occurrences in the input. |
| ProcessScheduled.UniqueOfDistinct | app/Jobs/ProcessScheduledMessage.php:61 | A list without repeats is returned unchanged, in the same order. |
| ProcessScheduled.FanoutOf | app/Jobs/ProcessScheduledMessage.php:64-83 | sent + failed equals the number of numbers, and there is one error per failure. Each queued job carries the message's text and sender, with no scheduled id and no user. |
| ProcessScheduled.FanoutAllQueued | app/Jobs/ProcessScheduledMessage.php:68-75 | When every dispatch succeeds there is exactly one job per number, in order, and nothing fails. |
| ProcessScheduled.Finished | app/Jobs/ProcessScheduledMessage.php:86-92 | The message ends sent at `now` with the counters and errors, whatever failed. Its text, sender, recipients and total are unchanged. |
| ProcessScheduled.GatherNumbers | app/Jobs/ProcessScheduledMessage.php:37-58 | The collected numbers are the stored numbers followed by the current members' numbers of each surviving group. |
| ProcessScheduled.Dispatch | app/Jobs/ProcessScheduledMessage.php:64-83 | The loop's jobs and counters are exactly the fan-out of the numbers. |
| ProcessScheduled.Process | app/Jobs/ProcessScheduledMessage.php:22-93 | A missing or non-pending message changes nothing and queues nothing. Otherwise the jobs are the fan-out over the distinct collected numbers, and only that row changes, to sent with the counters. |
| ProcessScheduled.ProcessTwice | app/Jobs/ProcessScheduledMessage.php:26-31 | The second run for the same message queues nothing, and a pending message ends sent. |
| ProcessScheduled.FanoutOrdered | app/Jobs/ProcessScheduledMessage.php:68-75 | Distinct numbers give jobs to distinct numbers. |
| ProcessScheduled.JobsDistinct | app/Jobs/ProcessScheduledMessage.php:60-75 | No run of the job sends the message to one number twice. |
| SendSms.ClientErrorMessage | app/Jobs/SendSMSJob.php:91-97 | 401, 403 and 429 each get their fixed text. Every other status gives "HTTP {status}: {message}". |
| SendSms.ClientErrorKinds | app/Jobs/SendSMSJob.php:92-97 | The message starts with "HTTP " iff the status is none of 401, 403 and 429, and the three fixed texts are pairwise different. |
| SendSms.ConfigUser | app/Jobs/SendSMSJob.php:65 | A user is resolved iff the job's user id is truthy and that user exists, and it is that id. |
| SendSms.LogOwner | app/Jobs/SendSMSJob.php:55 | The log belongs to the job's user, else to the signed-in user, else to user 1. |
| SendSms.Deliver | app/Jobs/SendSMSJob.php:63-116 | The provider is called iff both credentials are truthy, with the sender, the raw mobile and the text. Missing credentials fail with the missing-credentials message. A 401 is recorded with its text and rethrown as the authentication configuration error. Any other client status is rethrown as a runtime error with that status as code. Any other failure gets the "SMS sending failed: " prefix and code 0. Something is recorded iff something is thrown. |
| SendSms.PendingLog | app/Jobs/SendSMSJob.php:45-61 | The new log is pending, without timestamps or error. It is addressed to the E.164 form when the number parses and to the raw mobile otherwise, and carries the job's text, sender and scheduled id. |
| SendSms.HandledLog | app/Jobs/SendSMSJob.php:54-116 | The log keeps the pending row's delivery fields. It is sent at `now` iff nothing is thrown, and failed at `now` with the recorded error otherwise. |
| SendSms.Handle | app/Jobs/SendSMSJob.php:43-117 | Exactly one new log is written under a fresh id and left in its handled state. The provider call and the exception are those of the attempt. |
| SendSms.Run | app/Jobs/SendSMSJob.php:35-38 | The job is deleted iff its raw mobile is blacklisted, and then nothing is logged or called. Otherwise `handle` runs exactly once. |
| SendSms.ProviderGetsRawMobile | app/Jobs/SendSMSJob.php:70-85 | The provider is reached iff both resolved credentials are truthy, and it is addressed with the mobile as given, not its E.164 form. |
| SendSms.Rejected401PointsToSettings | app/Jobs/SendSMSJob.php:102-104 | With credentials, a 401 records the fixed 401 text. What is thrown is a configuration error naming EngageSPARK and the settings page. |
| SendSms.QueuedWithoutUser | app/Jobs/SendSMSJob.php:55-67 | A job without a user, run by a worker with nobody signed in, logs under user 1 and uses the application's credentials. |
| MessageLogs.WithStatus | app/Models/MessageLog.php:47-60 | A scope selects exactly the rows with its status. |
| MessageLogs.ScopesPartition | app/Models/MessageLog.php:47-60 | The sent, failed and pending scopes are pairwise disjoint and together cover every row. |
| MessageLogs.LogTable.Create | app/Jobs/SendSMSJob.php:54-61 | Adds one pending row without timestamps or error under a fresh id. |
| MessageLogs.LogTable.MarkAsSent | app/Models/MessageLog.php:73-79 | Only that row changes, to sent with `sent_at` now. Its delivery fields, failure time and error stay. |
| MessageLogs.LogTable.MarkAsFailed | app/Models/MessageLog.php:81-88 | Only that row changes, to failed with `failed_at` now and the error. Its delivery fields and send time stay. |
| MessageLogs.LogTable.ResetForRetry | app/Actions/RetryFailedMessage.php:33-37 | Only that row changes: it is pending again, with no failure time or error. |
| Retry.RetryCheck | app/Actions/RetryFailedMessage.php:20-30 | Each outcome holds exactly when its guard is the first to fire: not found, then not the signed-in user's, then not failed. Otherwise it is ok. |
| Retry.RetryJob | app/Actions/RetryFailedMessage.php:40-45 | The queued job carries the log's recipient, text, sender and scheduled id, and no user. |
| Retry.RetryFailed | app/Actions/RetryFailedMessage.php:18-52 | The result is the guard's verdict. On a refusal nothing changes and nothing is queued. Otherwise only that log is reset and exactly one retry job is queued. |
| Retry.RetryResponse | app/Actions/RetryFailedMessage.php:54-71 | 200 with success iff ok. 403 with the unauthorized text iff the owner differs. 422 with the only-failed text iff the log has not failed. A missing log is not caught. |
| Retry.RetryThenRun | app/Actions/RetryFailedMessage.php:33-45 | After a retry the old log stays pending without error. The job's new log, when one is written, is a different row with the same text, sender, scheduled id and normalised recipient. It is owned by the signed-in user, or user 1. |
| Blacklist.BlacklistTable.Find | app/Models/BlacklistedNumber.php:40-47 | Finds a row storing exactly the number, and finds nothing iff no row stores it. The row found is the only one storing that number (the unique `mobile` column). |
| Blacklist.BlacklistTable.AddToBlacklist | app/Models/BlacklistedNumber.php:32-48 | An unparseable number raises and changes nothing. An already stored E.164 number returns its existing row untouched, whatever the reason. Otherwise a reason outside the column's enum (opt-out, complaint, invalid, other; database/migrations/2025_11_05_134534_create_blacklisted_numbers_table.php:17) raises and changes nothing, and any other adds exactly one row with the given reason, notes and author. Every stored reason stays inside the enum. Afterwards the number is blacklisted, and the row returned is the one a later lookup finds. |
| Blacklist.SpellingsAgree | app/Models/BlacklistedNumber.php:18-29 | Two spellings with the same E.164 form are blacklisted together. |
| Blacklist.AddTwice | app/Models/BlacklistedNumber.php:32-48 | Adding a number twice returns the same row both times once the first call succeeds, and that row keeps the first call's reason and notes. The first call succeeds iff the number parses and is already stored or its reason is in the enum. |
| SmsErrors.MissingCredentials | app/Exceptions/SmsConfigurationException.php:12-19 | A truthy user id gives a message naming "User ID {id}" and the settings to configure. A null or 0 id gives the generic message pointing at the .env file. |
| SmsErrors.MissingCredentialsNamesUser | app/Exceptions/SmsConfigurationException.php:14-16 | Two users get the same message iff they are the same user. |
| SmsErrors.InvalidCredentials | app/Exceptions/SmsConfigurationException.php:24-33 | The base message, followed by " Details: {details}" exactly when the details are truthy. |
| SmsErrors.AuthenticationFailed | app/Exceptions/SmsConfigurationException.php:38-43 | The message names the provider and the Settings → SMS Configuration page. |
| SmsConfig.GetCredential | app/Models/UserSmsConfig.php:33-36 | Gives the stored value when the key is present and not null, and the default otherwise. |
| SmsConfig.AllFilled | app/Models/UserSmsConfig.php:53-57 | The early-exit loop succeeds iff every required field is present and not empty in PHP's sense. |
| SmsConfig.HasRequiredCredentials | app/Models/UserSmsConfig.php:41-60 | Empty or null credentials never qualify. For engagespark the row qualifies iff `api_key` and `org_id` are both non-empty. Any other driver qualifies iff it has some credentials. |
| SmsConfig.ZeroCredentialIsMissing | app/Models/UserSmsConfig.php:54 | An `api_key` of "0" makes engagespark credentials incomplete. |
| SmsConfig.GetConfigForUser | app/Services/SmsConfigService.php:16-59 | The driver is the argument, else `sms.default`, else engagespark. The source is the user iff the given or signed-in user has an active, complete row. Its sender fields then fall back to the application's with `??`. In the console only, it is otherwise the application's `.env` settings; anywhere else it is empty. |
| SmsConfig.GetEngageSparkConfig | app/Services/SmsConfigService.php:64-76 | Picks `api_key` and `org_id` out of the engagespark configuration. The sender is the credential `sender_id`, else the default sender. The default sender and the source are passed through. |
| SmsConfig.WebUserWithoutConfigGetsNothing | app/Services/SmsConfigService.php:40-58 | A web request for a user without a usable row gets no key, no organisation and no sender. |
| SmsConfig.InactiveRowIgnored | app/Services/SmsConfigService.php:23-28 | An inactive row is never the source, even with complete credentials. |
| SmsSettings.Mask | app/Http/Controllers/Settings/SmsConfigController.php:24-25 | Eight bullets followed by the last four characters of the value, or the whole value when it is shorter. |
| SmsSettings.MaskHidesAllButFour | app/Http/Controllers/Settings/SmsConfigController.php:24-25 | For a value of four or more characters the mask is twelve characters long and shows exactly the value's last four. |
| SmsSettings.UserRow | app/Http/Controllers/Settings/SmsConfigController.php:19 | Finds the user's engagespark row iff one exists. |
| SmsSettings.Edit | app/Http/Controllers/Settings/SmsConfigController.php:17-33 | The page uses the application defaults iff the user has no row or an inactive one. The masked key and organisation are shown iff the credentials are complete. The sender fields and the active flag are copied, and missing sender ids show as an empty list. |
| SmsSettings.FormSenderIds | app/Http/Controllers/Settings/SmsConfigController.php:43-49 | A missing field gives an empty list, a null stays null, and a string is split on ',', trimmed and stripped of empty pieces. |
| SmsSettings.KeptCredential | app/Http/Controllers/Settings/SmsConfigController.php:54-55 | A filled field is taken as typed. A blank one keeps the stored credential, or null when there is no row. |
| SmsSettings.SavedRow | app/Http/Controllers/Settings/SmsConfigController.php:51-69 | The saved row belongs to the user and engagespark. It holds exactly the two kept credentials, the typed default sender, the parsed sender ids and the active flag, which defaults to true. |
| SmsSettings.BlankKeysKeepCredentials | app/Http/Controllers/Settings/SmsConfigController.php:54-55 | Saving with both key fields blank keeps a complete row's key and organisation, so the row stays complete. |
| SmsSettings.SmsConfigTable.Update | app/Http/Controllers/Settings/SmsConfigController.php:38-72 | Saves iff the form validates. A refused form changes nothing. A valid one upserts exactly the (user, engagespark) row and leaves every other row alone. |
| SmsSettings.SmsConfigTable.Destroy | app/Http/Controllers/Settings/SmsConfigController.php:77-82 | Removes exactly the user's engagespark row and leaves every other row unchanged. |
| SmsSettings.SmsConfigTable.Insert | app/Actions/Fortify/CreateNewUser.php:94-104 | Adds exactly the new row under its (user, driver) key. |
| SmsSettings.UpdateTwice | app/Http/Controllers/Settings/SmsConfigController.php:58-69 | Saving the same form twice leaves the table as saving it once, blank keys included. An invalid form leaves the table unchanged. |
| SmsSettings.SaveIdempotent | app/Http/Controllers/Settings/SmsConfigController.php:58-69 | Saving a form over the row it already produced gives back that same row. |
| SmsSettings.SmsValidationRules | app/Actions/Fortify/CreateNewUser.php:53-70 | No rules iff the mode is disabled. Otherwise there are exactly the five SMS fields. The keys and the sender are required in required mode and nullable in any other mode, with a limit of 255. The sender ids are nullable strings and the active flag is a boolean. |
| SmsSettings.RegistrationRowAsWritten | app/Actions/Fortify/CreateNewUser.php:83-105 | The row as the code builds it fails iff the `sms_default_sender_id` key is absent from the input. |
| SmsSettings.OptionalModeWithoutSenderThrows | app/Actions/Fortify/CreateNewUser.php:41-101 | In optional mode, input with both keys and no sender passes validation and asks for a row, yet building the row as written fails. |
| SmsSettings.RegistrationRow | app/Actions/Fortify/CreateNewUser.php:83-105 | The created row belongs to the user and engagespark. It holds exactly the two keys, the given sender (null when absent) and the parsed sender ids, and is active unless told otherwise. |
| SmsSettings.KeysMakeComplete | app/Models/UserSmsConfig.php:41-60 | An engagespark row holding two truthy keys has complete credentials. |
| SmsSettings.RegisteredRowComplete | app/Actions/Fortify/CreateNewUser.php:75-104 | Every row registration creates has complete credentials, so the service will use it while it is active. |
| SmsSettings.NoSenderIdsGivesEmptyList | app/Actions/Fortify/CreateNewUser.php:86 | Without `sms_sender_ids` the row stores an empty list. |
| SmsSettings.RegisterSmsConfig | app/Actions/Fortify/CreateNewUser.php:20-46 | Registration passes the SMS rules iff the input is valid for the mode. A row is created iff it passed, the mode is not disabled and both keys are truthy. That row is the corrected registration row, and nothing else changes. |
| OtpSettings.SourceLabel | app/Http/Controllers/Settings/OtpConfigController.php:22-26 | user, sms_default and fallback correspond one-to-one to the user, application and empty sources. |
| OtpSettings.Edit | app/Http/Controllers/Settings/OtpConfigController.php:13-44 | The shown sender is the resolved default sender, else `sms.default_sender_id`, else TXTCMDR. A user source without a truthy default sender is labelled otp_config and shows `otp.sender_id` when set. The TTL is shown in minutes (seconds / 60), and digits, attempts and sending are copied. |
| OtpSettings.PageShowsOtpSender | app/Http/Controllers/Settings/OtpConfigController.php:19-32 | In a web request with a usable row, and either a truthy default sender or `otp.sender_id` set, the page shows the sender that `sendOtpSms` really uses. |
| OtpSettings.NoSettingsShowsFallback | app/Http/Controllers/Settings/OtpConfigController.php:22-26 | A web user without settings sees the fallback label and the application's default sender. |
| OtpSettings.Updated | app/Http/Controllers/Settings/OtpConfigController.php:56-67 | Digits within 4-10 and attempts within 3-10. The TTL is a whole number of minutes between 60 and 3600 seconds. Sender and template are untouched. |
| OtpSettings.UpdateThenEdit | app/Http/Controllers/Settings/OtpConfigController.php:37-56 | After saving, the page shows the TTL in minutes, the digits, the attempts and the sending flag just saved. |
| OtpSettings.EditThenUpdate | app/Http/Controllers/Settings/OtpConfigController.php:37-56 | Writing back the minutes the page shows keeps the TTL in seconds. |
| OtpSettings.RuntimeConfig.Update | app/Http/Controllers/Settings/OtpConfigController.php:46-70 | Saves iff the form passes the rules: digits 4-10, TTL 1-60 minutes, attempts 3-10 and a boolean. A refused form changes nothing. |
| MessageExport.StatusName | app/Actions/ExportMessageHistory.php:65 | A status is stored as one of "pending", "sent" and "failed". |
| MessageExport.Select | app/Actions/ExportMessageHistory.php:18-36 | A log is exported iff it belongs to the user, matches the status filter when one is on, and contains the search text in its recipient or message. Order is kept and nothing is added. |
| MessageExport.SelectOne | app/Actions/ExportMessageHistory.php:18-36 | A single log is exported, once, iff it is selected. |
| MessageExport.SelectAppend | app/Actions/ExportMessageHistory.php:18-36 | The selection of a concatenation is the concatenation of the selections. With `SelectOne` this fixes the result: every selected log appears once, in the given order, and nothing else does. |
| MessageExport.AllStatusesIsNoFilter | app/Actions/ExportMessageHistory.php:23 | A status of "all" selects exactly what no status selects. |
| MessageExport.FilteredByStatus | app/Actions/ExportMessageHistory.php:23-25 | With a status filter on, every exported log has that status. |
| MessageExport.FormatPhone | app/Actions/ExportMessageHistory.php:88-95 | A "+63" number becomes its local form: two characters shorter, starting with '0', and "+63" plus the rest gives the number back. Any other string is left alone. |
| MessageExport.RecipientCellAsWritten | app/Actions/ExportMessageHistory.php:56-61 | As written, the cell is always the formatted phone, whatever contact exists. |
| MessageExport.NameNeverShown | app/Actions/ExportMessageHistory.php:57-58 | For a recipient whose contact has a name, the as-written cell omits that name and so differs from the intended cell. |
| MessageExport.NamedContactExample | app/Actions/ExportMessageHistory.php:57-58 | For the log "+639171234567" and the contact Ana, the as-written cell is "09171234567" and the intended one is "Ana (09171234567)". |
| MessageExport.LogContact | app/Models/MessageLog.php:41-44 | A found contact has the log's recipient as its mobile. None is found only when no contact has that mobile. |
| MessageExport.RecipientCell | app/Actions/ExportMessageHistory.php:56-61 | "name (phone)" when the log's contact has a truthy name, the formatted phone otherwise. |
| MessageExport.NamedRecipientShown | app/Actions/ExportMessageHistory.php:57-58 | With a named contact, the corrected cell contains both the name and the formatted phone. |
| MessageExport.TimeCell | app/Actions/ExportMessageHistory.php:70-71 | Empty when the time is null, the formatted time otherwise. |
| MessageExport.LogRow | app/Actions/ExportMessageHistory.php:63-72 | One cell per header column, in the header's order. |
| MessageExport.DataRows | app/Actions/ExportMessageHistory.php:54-73 | One row per selected log, in order, each the row of that log. |
| MessageExport.StatusColumnMatchesFilter | app/Actions/ExportMessageHistory.php:23-65 | With a status filter on, every row's status column is the capitalised filter. |
| MessageExport.FailedRowCells | app/Actions/ExportMessageHistory.php:65-71 | A failed log without error or send time shows "Failed" with empty error and Sent At cells. |
| MessageExport.ExportMessageHistory | app/Actions/ExportMessageHistory.php:15-86 | The CSV is the header followed by exactly one row per selected log, in order. Each row is built with the corrected `RecipientCell` (see Findings), not the recipient cell as written. |
| Broadcasts.NumberTokens | app/Actions/SendToMultipleRecipients.php:21-23 | A string is split on ',' without trimming, and an array is used as it is. |
| Broadcasts.NormalizedAppend | app/Actions/SendToMultipleRecipients.php:28-45 | The recipients of two token lists are the recipients of each, one after the other: only tokens that do not parse are dropped, and order is kept. |
| Broadcasts.NormalizedAllValid | app/Actions/SendToMultipleRecipients.php:28-45 | When every trimmed token parses there is one recipient per token, in order: its E.164 form. |
| Broadcasts.SendToMultipleRecipients | app/Actions/SendToMultipleRecipients.php:16-53 | The recipients are the E.164 forms of the tokens that parse, in order and with duplicates kept. count is their number, and count + invalid_count is the number of tokens. Exactly one job per recipient is queued with the message and the sender (else `sms.default_sender_id`, else TXTCMDR). |
| Broadcasts.DispatchRecipients | app/Actions/SendToMultipleRecipients.php:25-45 | The loop leaves the E.164 forms of the parseable tokens, in order, and their count. The jobs queued are one per recipient, in that order. |
| Broadcasts.RecipientJobs | app/Actions/SendToMultipleRecipients.php:37 | One `SendSMSJob` per recipient, in order, each carrying the message and the sender and no user. |
| Broadcasts.GroupTokens | app/Actions/SendToMultipleGroups.php:21-28 | Split on ',' when a string, every piece trimmed, and no empty or "0" identifier left. |
| Broadcasts.Entry | app/Actions/SendToMultipleGroups.php:34-53 | An identifier has an entry iff some group is named it or has it as id, and the entry is that first group's id, name and member count. |
| Broadcasts.Matched | app/Actions/SendToMultipleGroups.php:33-55 | One entry per matching identifier, in order, each naming a stored group with its member count. |
| Broadcasts.UnmatchedSkipped | app/Actions/SendToMultipleGroups.php:38 | An identifier that names no group and spells no group id adds nothing. |
| Broadcasts.GroupJobs | app/Actions/SendToMultipleGroups.php:39-44 | One broadcast job per matched group, in order, for the message, sender and user. |
| Broadcasts.SendToMultipleGroups | app/Actions/SendToMultipleGroups.php:15-62 | The user is the given one, else the signed-in one, and the sender defaults as usual. The groups are the matches of the identifiers. `total_contacts` is the sum of their member counts, and one broadcast job is queued per match. |
| Broadcasts.DispatchGroups | app/Actions/SendToMultipleGroups.php:30-55 | The loop's entries, total and jobs are exactly the matches, their total and their jobs. |
| Broadcasts.MemberJobs | app/Jobs/BroadcastToGroupJob.php:32-40 | At most one job per member. Each job carries the message, the sender, no scheduled id and the chosen user. |
| Broadcasts.MemberJobsExact | app/Jobs/BroadcastToGroupJob.php:32-40 | With every member stored there is exactly one job per member, in membership order, to that member's E.164 mobile. |
| Broadcasts.BroadcastToGroupJob | app/Jobs/BroadcastToGroupJob.php:28-41 | Fails iff the group is missing. Otherwise it queues the member jobs, for the job's user or else the group's owner. |
| Broadcasts.TotalMatchesBroadcasts | app/Actions/SendToMultipleGroups.php:46-47 | The reported `total_contacts` equals the number of SMS jobs the broadcasts go on to queue, when every member is stored and no group changes in between. |
| BulkSend.FileRowNumber | app/Actions/SMS/BulkSendFromFile.php:32-43 | A row is sent to only when its column holds a truthy value that `validatePhone` accepts. The number is then that value's E.164 form, when it formats. |
| BulkSend.FileRecipients | app/Actions/SMS/BulkSendFromFile.php:31-52 | The sent-to numbers in row order, at most one per row. |
| BulkSend.NoColumnNoRecipients | app/Actions/SMS/BulkSendFromFile.php:32-37 | A file whose column is missing or empty in every row queues nothing. |
| BulkSend.AllValidAllQueued | app/Actions/SMS/BulkSendFromFile.php:31-52 | When every row holds a valid number, every row is queued, in order. |
| BulkSend.BulkSendFromFile | app/Actions/SMS/BulkSendFromFile.php:17-60 | queued is the number of recipients and queued + invalid the number of rows. Exactly one job per recipient is queued, in order, with the message, sender and user. |
| BulkSend.FormatName | app/Actions/SMS/BulkSendPersonalized.php:133-141 | The two layouts report as mobile_message and mobile_name_message. |
| BulkSend.DetectStructure | app/Actions/SMS/BulkSendPersonalized.php:127-147 | mobile_message iff the columns are exactly mobile, message. mobile_name_message iff they are exactly mobile, name, message. Anything else fails with the invalid-structure message. |
| BulkSend.ExtractRowData | app/Actions/SMS/BulkSendPersonalized.php:152-168 | Mobile and message come from their columns. The name comes from its column only in the three-column layout. |
| BulkSend.PersonalizedRow | app/Actions/SMS/BulkSendPersonalized.php:52-92 | A row is queued iff it has a truthy mobile and message and the mobile formats. Its job goes to the E.164 number with the text personalised by mobile and name. It counts as imported iff importing is on, the row is named and `createFromArray` returns a contact. |
| BulkSend.PersonalizedTally | app/Actions/SMS/BulkSendPersonalized.php:46-93 | queued + invalid is the number of rows, one job per queued row, and never more imported than queued. |
| BulkSend.NoImportWithoutNames | app/Actions/SMS/BulkSendPersonalized.php:67 | With importing off, or in the two-column layout, no contact is imported. |
| BulkSend.SendRow | app/Actions/SMS/BulkSendPersonalized.php:52-92 | One pass of the loop has exactly the row's outcome. The contacts table is then exactly what `RowContacts` describes: `createFromArray` applied only to a queued, named row when importing is on, and unchanged otherwise. |
| BulkSend.RowContacts | app/Actions/SMS/BulkSendPersonalized.php:62-75 | Only a queued row, with importing on and a name, goes through `createFromArray` with its E.164 number and name. The ids stay below the next id. |
| BulkSend.ContactsAfter | app/Actions/SMS/BulkSendPersonalized.php:51-92 | The table after a run of rows is each row's `RowContacts` in turn. The next id never goes down. |
| BulkSend.ContactsUntouched | app/Actions/SMS/BulkSendPersonalized.php:67 | With importing off, or in the two-column layout, the contacts table is left exactly as it was. |
| BulkSend.RowKeepsStored | app/Actions/SMS/BulkSendPersonalized.php:67-75 | A later row never removes a contact that an earlier imported row left. |
| BulkSend.RowStoresOwn | app/Actions/SMS/BulkSendPersonalized.php:67-75 | A row counted as imported leaves a contact of the sender's user under its E.164 number, for a normaliser that keeps E.164 numbers as they are. |
| BulkSend.ImportedRowsStored | app/Actions/SMS/BulkSendPersonalized.php:51-92 | After the run, every row counted in `contacts_imported` has a contact of the sending user under its E.164 number, for a normaliser that keeps E.164 numbers as they are. |
| BulkSend.SendRows | app/Actions/SMS/BulkSendPersonalized.php:51-92 | The loop gives the counters and jobs of all rows, and it leaves the contacts table that `ContactsAfter` describes. |
| BulkSend.BulkSendPersonalized | app/Actions/SMS/BulkSendPersonalized.php:28-102 | No rows fails with "File is empty or could not be parsed". A first row with other columns fails with the structure message. Both failures queue nothing and leave the contacts table unchanged. Otherwise the counters, format and jobs are those of all rows, and the contacts table is the one `ContactsAfter` describes. |
| Contacts.E164OrRaw | app/Models/Contact.php:46-66 | The E.164 form when the number parses in the contact's country (PH when none is set), the value unchanged otherwise. |
| Contacts.AccessorAfterMutator | app/Models/Contact.php:49-64 | With a formatter that keeps E.164 numbers as they are, reading back a mobile just set gives the stored value. |
| Contacts.NewContact.constructor | app/Models/Contact.php:57-64 | The mobile goes through the mutator with the country not yet set, so PH is used. |
| Contacts.NewContact.Creating | packages/lbhurtado/contact/src/Models/Contact.php:47-59 | An empty country becomes `contact.default.country`. An empty bank account becomes "{bank code}:{mobile}". Mobile and owner stay. |
| Contacts.Created | app/Models/Contact.php:102-105 | The inserted row has the owner, the mutated mobile, country PH, no name or email, and the bank account "{bank code}:{mobile}". |
| Contacts.ContactTable.Find | app/Models/Contact.php:102-105 | Finds the oldest contact with that stored mobile and owner, and nothing iff none exists. |
| Contacts.ContactTable.FirstOrCreate | app/Models/Contact.php:102-105 | Returns the oldest match and changes nothing, or inserts exactly one created row under a fresh id. |
| Contacts.ContactTable.FindByMobile | app/Actions/ScheduleMessage.php:100-103 | Finds the oldest contact with that stored mobile, whoever owns it, and nothing iff none exists. |
| Contacts.ContactTable.FindByName | app/Actions/ScheduleMessage.php:114 | Finds the oldest contact whose name is exactly the text, and nothing iff none exists. |
| Contacts.ContactTable.FirstOrCreateByMobile | app/Actions/ScheduleMessage.php:100-103 | Returns the oldest contact with that mobile and changes nothing, or inserts exactly one ownerless created row under a fresh id. |
| Contacts.ContactTable.CreateFromArray | app/Models/Contact.php:81-118 | No contact iff the mobile is empty, there is no owner (given, else signed in) or the number does not parse; then nothing changes. Otherwise it is the owner's contact for the E.164 number, found or created, with name and email overwritten only when given. The returned id and the new table are exactly `FromArray` of the old table. |
| Contacts.FromArray | app/Models/Contact.php:81-118 | `createFromArray` on a table value. No contact iff the mobile is empty, there is no owner or the number does not parse, and then the table is unchanged. Otherwise the contact has the owner, the given name and email, and the E.164 number (for a normaliser that keeps E.164 numbers). Its id is an old one and the next id stays, or it is the next id and that grows by one. No other row changes, and no row loses its mobile or owner. |
| Contacts.Upsert | app/Models/Contact.php:102-113 | `firstOrCreate` on (mobile, owner), then the update of name and email: the row it touches is owned by the owner and carries the given name and email. Every other row is unchanged. |
| Contacts.UpsertMatches | app/Models/Contact.php:102-113 | The table the method produces, the oldest match or a new row with name and email updated, is the one `Upsert` describes. |
| Contacts.FromArrayKeeps | app/Models/Contact.php:81-118 | A contact stored for a mobile and owner is still stored after any `createFromArray`. |
| Contacts.FromArrayStores | app/Models/Contact.php:101-118 | After a successful `createFromArray`, the owner has a contact under the E.164 number, for a normaliser that keeps E.164 numbers as they are. |
| Contacts.ImportTwice | app/Models/Contact.php:101-105 | With a formatter that keeps E.164 numbers as they are, importing one number twice for one owner returns the same contact and adds at most one row. |
| Groups.IdToken | app/Actions/SendToMultipleGroups.php:35 | An identifier names an id exactly when it is that id's decimal spelling. |
| Groups.GroupStore.FindByName | app/Actions/ScheduleMessage.php:129 | Finds the oldest group with that name, and nothing iff none has it. |
| Groups.GroupStore.FindByNameOrId | app/Actions/SendToMultipleGroups.php:34-36 | Finds the oldest group named by the identifier or whose id it spells, and nothing iff there is none. |
| ContactImport.RowMobile | app/Jobs/ContactImportJob.php:36 | The `mobile` column when present, else the `phone` column. |
| ContactImport.SyncWithoutDetaching | app/Jobs/ContactImportJob.php:51 | The contact ends up a member, and the old members keep their order. A contact already present changes nothing; otherwise it is appended. |
| ContactImport.SyncIdempotent | app/Jobs/ContactImportJob.php:51 | Syncing the same contact twice is syncing it once. |
| ContactImport.KeepsTransitive | app/Jobs/ContactImportJob.php:34-62 | Over a run of rows, no earlier membership is removed. |
| ContactImport.Attach | app/Jobs/ContactImportJob.php:50-52 | With a truthy, existing group id the contact becomes a member of that group. Every other group is unchanged. With no group id nothing changes. |
| ContactImport.ImportedCount | app/Jobs/ContactImportJob.php:34-54 | Never more than the number of rows. |
| ContactImport.AllRowsImported | app/Jobs/ContactImportJob.php:38-54 | When every row has a mobile or phone, every row counts as imported. |
| ContactImport.ImportedCountStep | app/Jobs/ContactImportJob.php:38-54 | One more row adds one to the imported count exactly when it has a mobile or phone. |
| ContactImport.RowContactAt | app/Jobs/ContactImportJob.php:44-50 | A row returns a contact only when it has a mobile or phone and somebody is signed in. |
| ContactImport.RowContactAtPrefix | app/Jobs/ContactImportJob.php:34-62 | The contact a row returns does not depend on the rows after it. |
| ContactImport.ImportedContacts | app/Jobs/ContactImportJob.php:34-62 | One entry per row of the run. |
| ContactImport.ImportedContactsAt | app/Jobs/ContactImportJob.php:34-62 | Entry `k` is the contact row `k` returns on the table the earlier rows left. |
| ContactImport.AttachAll | app/Jobs/ContactImportJob.php:50-52 | Attaching a run of contacts never removes a membership and never changes a group other than the chosen one. When no row returns a contact, nothing changes. |
| ContactImport.GroupsAfterImport | app/Jobs/ContactImportJob.php:34-62 | The groups after a run never lose a membership, and only the chosen group changes. With nobody signed in, nothing changes. |
| ContactImport.GroupsAreAttachAll | app/Jobs/ContactImportJob.php:34-62 | The groups after a run are those that attaching the run's returned contacts, in row order, leaves. |
| ContactImport.ImportStep | app/Jobs/ContactImportJob.php:35-54 | Handling one more row moves both the contacts table and the groups one row along their runs. |
| ContactImport.MemberKept | app/Jobs/ContactImportJob.php:51 | A member stays a member when memberships are kept. |
| ContactImport.AttachAllJoins | app/Jobs/ContactImportJob.php:50-52 | When the chosen group exists, every contact attached is among its members afterwards. |
| ContactImport.AttachAllOnly | app/Jobs/ContactImportJob.php:50-52 | A member newly found in any group was one of the attached contacts, and that group is the chosen one. |
| ContactImport.ImportedJoinGroup | app/Jobs/ContactImportJob.php:34-62 | When the chosen group exists, every contact a row of the run returned is among its members after the run. |
| ContactImport.OnlyImportedJoin | app/Jobs/ContactImportJob.php:34-62 | Every member new to any group after the run joined the chosen group as the contact of some row. |
| ContactImport.ImportRow | app/Jobs/ContactImportJob.php:35-54 | A row counts iff it has a truthy mobile or phone. A contact results iff there is an owner and the number parses, and only then does the group change. The contact is owned by the signed-in user and carries the row's name and email when given, and its E.164 number for a normaliser that keeps E.164 numbers as they are. Every other row is unchanged. The returned contact and the new table are exactly `RowContact` of the old table. |
| ContactImport.RowContact | app/Jobs/ContactImportJob.php:36-48 | A row without a mobile or phone leaves the table alone. Any other row is `createFromArray` of its mobile, name and email for the signed-in user. |
| ContactImport.ContactsAfterImport | app/Jobs/ContactImportJob.php:34-62 | The table after a run of rows is each row's `RowContact` in turn. The next id never goes down. |
| ContactImport.NoContactsWithoutUser | app/Jobs/ContactImportJob.php:44-48 | With nobody signed in, a run of rows leaves the contacts table exactly as it was. |
| ContactImport.RowKeepsSaved | app/Jobs/ContactImportJob.php:44-48 | A later row never removes a contact that an earlier row left. |
| ContactImport.RowSavesOwn | app/Jobs/ContactImportJob.php:44-48 | A counted row with a signed-in user and a number that parses leaves that user's contact under the E.164 number, for a normaliser that keeps E.164 numbers as they are. |
| ContactImport.ImportedRowsSaved | app/Jobs/ContactImportJob.php:34-62 | After the run, every counted row with a signed-in user and a number that parses has that user's contact under its E.164 number, for a normaliser that keeps E.164 numbers as they are. |
| ContactImport.ImportNextRow | app/Jobs/ContactImportJob.php:35-54 | Row `i` counts iff it has a mobile or phone. The contacts table and the groups afterwards are those of the first `i + 1` rows of the run. |
| ContactImport.ImportRows | app/Jobs/ContactImportJob.php:34-62 | The loop counts the rows with a mobile or phone as imported and the rest as failed. The contacts table and the groups afterwards are those of the whole run. |
| ContactImport.ContactImportJob | app/Jobs/ContactImportJob.php:25-72 | imported counts the rows with a mobile or phone, and imported + failed the rows. Memberships are never removed. With nobody signed in, no contact and no membership is created. The contacts table afterwards is the one `ContactsAfterImport` describes, and the groups are the ones `GroupsAfterImport` describes. |
| ContactImport.QueuedRowCountedNotSaved | app/Jobs/ContactImportJob.php:38-48 | With nobody signed in, a row with a number counts as imported and leaves the contacts table as it was. |
| ContactImport.ContactImportJobForUploader | app/Jobs/ContactImportJob.php:25-72 | The job with the uploader's id passed in keeps the counts. Afterwards every counted row whose number parses has the uploader's contact under its E.164 number, for a normaliser that keeps E.164 numbers as they are. The groups are those of the run. |
| Personalizer.Personalize | app/Services/MessagePersonalizer.php:14-24 | The loop's message is the fold of one `str_replace` of `{{key}}` per variable, in order. With no variables it is the template. |
| Personalizer.Lookup | app/Services/MessagePersonalizer.php:18 | A key has a value iff some pair carries it, and the value is one of that key's values. |
| Personalizer.PersonalizeFills | app/Services/MessagePersonalizer.php:14-24 | On a template of literal text and `{{name}}` slots, with keys and values free of braces, personalising fills slot after slot and the template stays well formed. |
| Personalizer.FillAllPieces | app/Services/MessagePersonalizer.php:18-21 | Afterwards a slot whose key was supplied holds the first value given for it. A slot without a value is still a placeholder, and literal text is unchanged. |
| Personalizer.SuppliedKeysFilled | app/Services/MessagePersonalizer.php:18-21 | No slot of a supplied key survives. The slots of an absent key stay in place. |
| Personalizer.PlaceholderCanSurvive | app/Services/MessagePersonalizer.php:18-21 | Without the well-formedness condition a placeholder can survive: "{{{{k}}k}}" with k set to "" personalises to "{{k}}". |
| Personalizer.WordRun | app/Services/MessagePersonalizer.php:34 | The longest prefix of `\w` characters: every character in it is a word character, and the next one is not. |
| Personalizer.ExtractVariables | app/Services/MessagePersonalizer.php:32-37 | Every name found is a non-empty word. |
| Personalizer.WordRunStops | app/Services/MessagePersonalizer.php:34 | The run of a word followed by a non-word character is that word. |
| Personalizer.ExtractSkipsText | app/Services/MessagePersonalizer.php:34 | Text without braces contributes no name. |
| Personalizer.ExtractAtSlot | app/Services/MessagePersonalizer.php:34 | A `{{name}}` placeholder with a word name is found as that name. |
| Personalizer.ExtractShow | app/Services/MessagePersonalizer.php:32-37 | On a well-formed template with word names, the slot names are listed in order, duplicates included. |
| Templates.Fill | app/Services/MessagePersonalizer.php:20 | Every slot of the name becomes the literal value and every other piece stays. |
| Templates.ReplaceFills | app/Services/MessagePersonalizer.php:20 | On a well-formed template, a `str_replace` of one placeholder by a brace-free value is exactly filling that slot, and the result stays well formed. |
| Templates.FillAbsent | app/Services/MessagePersonalizer.php:20 | Replacing a placeholder that has no slot changes nothing. |
| FileParser.ReaderFor | app/Services/FileParser.php:15-19 | The CSV reader iff the extension is exactly "csv", and the spreadsheet reader iff it is "xlsx" or "xls". Any other extension fails with "Unsupported file type". |
| FileParser.AfterLast | app/Services/FileParser.php:24 | None iff the character does not occur. Otherwise the text after one of its occurrences, which contains no further occurrence. |
| FileParser.PathExtension | app/Services/FileParser.php:24 | The extension contains no dot and no slash. |
| FileParser.ExtensionOfName | app/Services/FileParser.php:24 | A path dir/name.ext has the extension ext. |
| FileParser.Parse | app/Services/FileParser.php:11-31 | csv gives the CSV reader's records and xlsx or xls the extracted sheet rows. Any other extension gives the unsupported-type error. |
| FileParser.Headers | app/Services/FileParser.php:81 | One header per cell: trimmed, then lower-cased, with a null cell as "". |
| FileParser.ExtractRows | app/Services/FileParser.php:65-93 | The loop's result is the extraction of the sheet: the first row gives the headers, and each later row is skipped when blank or combined with the headers. |
| FileParser.KeptRowsShape | app/Services/FileParser.php:79-89 | When extraction succeeds there is one output row per non-blank data row, each the header/cell pairing of a data row. |
| FileParser.KeptRowsFails | app/Services/FileParser.php:88 | Extraction fails iff some non-blank data row is wider or narrower than the header row. |
| FileParser.CountBlank | app/Services/FileParser.php:84 | Never more than the number of rows. |
| Rows.Get | app/Actions/SMS/BulkSendFromFile.php:32 | A present, non-null value for the key when there is one, and null otherwise. |
| Rows.CombineZips | app/Services/FileParser.php:88 | With distinct headers, `array_combine` pairs each header with the cell at its position. |
| Rows.CombineGet | app/Services/FileParser.php:88 | With distinct headers, each header reads back its own cell and the keys are the headers. |
| Migrations.UpMobile | database/migrations/2025_11_07_113253_normalize_contact_phone_numbers_to_e164.php:15-35 | A mobile starting with '+' stays. Any other is formatted in the contact's country (PH when none) when it parses, and otherwise left alone. |
| Migrations.DownMobile | database/migrations/2025_11_07_113253_normalize_contact_phone_numbers_to_e164.php:50-55 | "+63" followed by s becomes "0" followed by s, and anything else stays. |
| Migrations.UpStep | database/migrations/2025_11_07_113253_normalize_contact_phone_numbers_to_e164.php:15-34 | Keeps the keys. A '+' mobile, an unparseable one, or one whose formatted number another row of the same owner already holds (the unique index of database/migrations/2025_11_07_110954_add_unique_constraint_to_contacts_table.php:29-32 refuses it, and the `catch` logs it) stays; otherwise only that row's mobile becomes the formatted number. |
| Migrations.UpFrom | database/migrations/2025_11_07_113253_normalize_contact_phone_numbers_to_e164.php:12-35 | Visiting the ids in ascending order keeps the keys, leaves the rows outside the visited range as they were, and changes each row at most to its formatted mobile. |
| Migrations.NormalizeUp | database/migrations/2025_11_07_113253_normalize_contact_phone_numbers_to_e164.php:10-36 | The table afterwards is the in-order pass of `UpStep` over every id below the next id; the next id stays. |
| Migrations.DownFrom | database/migrations/2025_11_07_113253_normalize_contact_phone_numbers_to_e164.php:46-56 | Keeps the keys and changes each row at most to its local form. When it stops at an id, that row starts with "+63", its local form is held by another row of the same owner, and that row and every later row are as they were. |
| Migrations.NormalizeDown | database/migrations/2025_11_07_113253_normalize_contact_phone_numbers_to_e164.php:41-57 | The table afterwards and the id at which the index refused an update (which ends `down` with an error) are those of `DownFrom` over every id below the next id. |
| Migrations.UpKeepsUnique | database/migrations/2025_11_07_110954_add_unique_constraint_to_contacts_table.php:29-32 | Once no two owned rows of one owner share a mobile, `up` keeps it so. |
| Migrations.MigrationsKeepIndex | database/migrations/2025_11_07_110954_add_unique_constraint_to_contacts_table.php:12-32 | After duplicate removal and then `up`, no two owned rows of one owner share a mobile. |
| Migrations.ClashingRowKept | database/migrations/2025_11_07_113253_normalize_contact_phone_numbers_to_e164.php:22-34 | Example: owner 5 holds "09171234567" and "+639171234567". Both survive duplicate removal, and `up` leaves the local number as it is because the index refuses its formatted form. |
| Migrations.UpWithoutClash | database/migrations/2025_11_07_113253_normalize_contact_phone_numbers_to_e164.php:10-36 | When every formatted number starts with '+' and formatting every row would keep the index, `up` formats every row. |
| Migrations.DownWithoutClash | database/migrations/2025_11_07_113253_normalize_contact_phone_numbers_to_e164.php:41-57 | When converting every row would keep the index, `down` converts every "+63" row and reports no error. |
| Migrations.RewriteThereAndBack | database/migrations/2025_11_07_113253_normalize_contact_phone_numbers_to_e164.php:50-55 | For local Philippine numbers, converting the formatted form back gives the original row, and every formatted number starts with '+'. |
| Migrations.LocalRewriteUnique | database/migrations/2025_11_07_113253_normalize_contact_phone_numbers_to_e164.php:22-34 | Formatting local Philippine numbers on a table the index accepts gives a table the index accepts. |
| Migrations.DownUndoesUp | database/migrations/2025_11_07_113253_normalize_contact_phone_numbers_to_e164.php:10-57 | On a table of local Philippine numbers that the index accepts, `down` after `up` reports no error and gives the table back. |
| Migrations.StepKeepsSettled | database/migrations/2025_11_07_113253_normalize_contact_phone_numbers_to_e164.php:18-34 | A row that `up` would leave alone stays that way after any other row's pass. |
| Migrations.UpSettles | database/migrations/2025_11_07_113253_normalize_contact_phone_numbers_to_e164.php:12-35 | After `up`, every row is one `up` leaves alone: a '+' number, unparseable, or refused by the index. |
| Migrations.SettledUnchanged | database/migrations/2025_11_07_113253_normalize_contact_phone_numbers_to_e164.php:12-35 | `up` changes nothing on a table of such rows. |
| Migrations.UpIsIdempotent | database/migrations/2025_11_07_113253_normalize_contact_phone_numbers_to_e164.php:18-21 | When every formatted number starts with '+', running `up` twice is running it once, the index included. |
| Migrations.OldestOf | database/migrations/2025_11_07_110954_add_unique_constraint_to_contacts_table.php:16 | The kept id belongs to the group and is its smallest id. |
| Migrations.RemoveDuplicates | database/migrations/2025_11_07_110954_add_unique_constraint_to_contacts_table.php:12-28 | Afterwards the table holds exactly the oldest row of each (owner, mobile) group. |
| Migrations.DeduplicatedUnique | database/migrations/2025_11_07_110954_add_unique_constraint_to_contacts_table.php:29-32 | After the deletion no two rows share an (owner, mobile) pair, so the unique index can be added. |
| Migrations.DeduplicatedKeeps | database/migrations/2025_11_07_110954_add_unique_constraint_to_contacts_table.php:18-26 | A row alone in its group survives unchanged. Of a larger group exactly the oldest survives, unchanged. |
| Migrations.DeduplicatedCount | database/migrations/2025_11_07_110954_add_unique_constraint_to_contacts_table.php:15-27 | The surviving rows are as many as the distinct (owner, mobile) pairs. |
| Strings.ParseList | app/Http/Controllers/Settings/SmsConfigController.php:45-48 | Every id kept is truthy, already trimmed and free of commas. |
| Strings.ParseListPiece | app/Http/Controllers/Settings/SmsConfigController.php:45-48 | One comma-free piece gives its trimmed text iff that is truthy, and nothing otherwise. |
| Strings.ParseListComma | app/Http/Controllers/Settings/SmsConfigController.php:45-48 | The ids of `a,b` are the ids of `a` followed by the ids of `b`: every truthy trimmed piece is kept, in order. |
| Strings.ParseListJoin | app/Http/Controllers/Settings/SmsConfigController.php:45-48 | Parsing the comma-joined list of trimmed, truthy, comma-free ids gives the list back. |
| Strings.Split | app/Actions/ScheduleMessage.php:38 | `explode`: at least one piece, and no piece contains the separator. |
| Strings.JoinSplit | app/Actions/ScheduleMessage.php:38 | Joining the pieces with the separator gives the string back. |
| Strings.SplitAppend | app/Actions/ScheduleMessage.php:38 | Splitting `a` + separator + `b` gives the pieces of `a` followed by those of `b`. |
| Strings.Trim | app/Actions/ScheduleMessage.php:39 | No trim character is left at either end, and the result is never longer than the input. |
| Strings.TrimShape | app/Actions/ScheduleMessage.php:39 | The result is a contiguous part of the input, and only trim characters are cut off on either side. |
| Strings.NatToString | app/Services/Otp/OtpService.php:189 | The decimal spelling: at least one digit, digits only, and a leading zero only for 0. |
| Platform.DefaultSender | app/Actions/SendToMultipleRecipients.php:18 | `sms.default_sender_id`, else TXTCMDR. |
| Platform.SenderOrDefault | app/Actions/SendToMultipleRecipients.php:18 | The given sender, else the default sender. |
| Platform.FirstMatch | app/Actions/ScheduleMessage.php:114 | `first()`: the smallest id in range whose row matches, and none iff no id in range matches. |
| Strings.DropFalsy | app/Actions/SendToMultipleGroups.php:26-28 | `array_filter`: every value kept is truthy and comes from the input, and every truthy input value is kept. |
| Strings.DropFalsyOne | app/Actions/SendToMultipleGroups.php:26-28 | One value is kept iff it is truthy. |
| Strings.DropFalsyAppend | app/Actions/SendToMultipleGroups.php:26-28 | Filtering a concatenation is filtering each part: the values kept keep their input order. |
| Strings.ToLower | app/Services/FileParser.php:81 | `strtolower`: same length, with each ASCII capital replaced by its small letter and every other character kept. |
| Strings.UcFirst | app/Actions/ExportMessageHistory.php:65 | `ucfirst`: same length and same tail, with a small ASCII first letter capitalised. Any other string, including the empty one, is returned unchanged. |
| Platform.Lookup | app/Services/SmsConfigService.php:69-70 | `$credentials[$key] ?? null`: a value iff the key is present and not null. |

## Left out
- HTTP and routing glue is not modelled: routes, the OTP API controller, form-request classes, API tokens, and the controllers' redirects and flash messages. The settings controllers are modelled only through what they compute and store.
- Read-only listing actions are not modelled: contact details, contact messages, scheduled-message lists and the group actions. They only filter and paginate queries. The same goes for the upload-and-dispatch of contact imports.
- Success rates rounded in floating point are not modelled.
- Interactive and I/O commands are not modelled: the OTP and SMS test commands and the version helper.
- Foreign libraries are parameters and their internals are not modelled:
  - libphonenumber normalisation;
  - the HMAC of a code and `random_int`;
  - the SMS provider, whose outcome is success, a client error with its status code, or another exception;
  - the CSV and spreadsheet readers and the CSV writer;
  - the `encrypted:array` cast, so credentials are stored in clear.
- Queue workers, concurrency and locking are not modelled. Every job runs sequentially, and the pending-to-processing switch and the attempt counter are plain updates.
- Logging, temporary-file deletion and HTTP response codes other than those of `RetryFailedMessage::asController` are not modelled.
- Column defaults of the schema migrations (OTP status, attempts, send count) are not modelled. The model always writes every column explicitly.
- `Contact::fromPhoneNumber` in the `HasMobile` trait is not part of this model. `SendToMultipleRecipients` is modelled by the jobs it dispatches, not by any contact rows it may create.
- `User::smsConfig` is not part of this model. Registration inserts into the configuration table directly.
- ContactImport.ContactImportJob: a group id that names no group is a no-op. In the database the pivot's foreign key would make the attach throw, and the row would be counted as failed. The pivot migration is not part of this model.
- ContactImport.ContactImportJob: the authenticated user is a parameter. In a queue worker nobody is signed in, so `createFromArray` returns null and no contact is created. The model states exactly that; see "## Findings".
- Groups.GroupStore.FindByNameOrId: MySQL's loose comparison of an id column with a non-numeric string is not modelled. Only a token that is the plain decimal spelling of an id matches it, so "007" does not match id 7.
- Group membership order: the order of a group's members is the order they were attached. Eloquent's pivot order without an `orderBy` is assumed to match it.
- SmsSettings.Mask: `substr` works on bytes, the model on characters. For a value with multi-byte characters the last four bytes and the last four characters differ.
- Migrations.NormalizeUp: the rows of `DB::table('contacts')->get()` are taken in ascending id order, as the table's primary key usually returns them; no `orderBy` fixes it. The model reads each mobile from the current table, not from the snapshot `get()` took. The two agree, because only a row's own pass changes it. The index, by contrast, checks against the table as the earlier updates left it.
- Migrations.NormalizeDown: the model gives the table as the executed updates leave it, up to the refused one. Whether the database rolls those back depends on whether it runs the migration in a transaction, which is not modelled.
- Blacklist.BlacklistTable.AddToBlacklist: the database is assumed to refuse a `reason` outside the enum, as MySQL in strict mode (Laravel's default) and SQLite's check constraint do. A non-strict MySQL that stores an empty string instead is not modelled.
- Otp.OtpStore.RequestOtp: the `request_ip`, `user_agent` and `meta` columns (app/Services/Otp/OtpService.php:40-43) are not part of the modelled row. They are stored as given and no modelled operation reads them.
- MessageExport.Select: SQL `LIKE` is modelled as a case-sensitive infix test, and the status filter as exact string equality. Case-insensitive collation, which would also let `Failed` match `failed`, and the `%`/`_` wildcards inside the search text are not modelled.
- MessageExport.Select: the logs are given already ordered newest first, so the `orderBy('created_at', 'desc')` is not modelled. Timestamps are formatted by a `Formatter` parameter.
- MessageExport.LogContact: the contact is looked up by mobile, as in `MessageLog::contact`, without restricting it to the exporting user.
- Personalizer.SuppliedKeysFilled: the property "no `{{k}}` survives for a supplied key" does not hold for every template and value. A value can spell out a placeholder of a later key, or text around a slot can join with it. Personalizer.PlaceholderCanSurvive exhibits this. The lemma states the property for templates already split into text and slot pieces.
- OtpSettings.Edit: an `otp.*` key set to null is not told apart from an absent one.
- OtpSettings.Edit: when the page shows the fallback source, it reports the SMS default sender. For a web user without usable settings, OTP messages go out under `otp.sender_id` first. The model states what the page shows.
- Laravel's `boolean()` input cast and the conversion of empty strings to null are not modelled beyond their effect on the fields read: an absent or empty field is `None`.
- Registration mode: the mode is a parameter. The shipped configuration always sets it to "required" (`config/registration.php:16`), which hides the first finding below.
- Otp.GenerateCode: the digit count is a natural number of at least 1, with exact powers of ten. From 19 digits on, PHP's `10 ** $digits` no longer fits a 64-bit integer and becomes a float, so `random_int` would reject it. That overflow is not modelled. The settings page only accepts 4 to 10 digits (`app/Http/Controllers/Settings/OtpConfigController.php:49`), and the shipped default is 6.
- ProcessScheduled.ReadyIds: the `ready` scope has no `orderBy`. The model lists the ready ids in ascending id order, which assumes the database returns them in primary-key order.

## Findings
| source | as written | input that shows it | evidently intended | confidence | as-written member | corrected member |
|---|---|---|---|---|---|---|
| app/Actions/Fortify/CreateNewUser.php:101 | The default sender is read as `$input['sms_default_sender_id']` without a fallback. | Mode "optional", with an API key and an organisation id but no `sms_default_sender_id`: the read fails with "Undefined array key" after the user row has already been created. | Read it with `?? null`, so the configuration is saved without a default sender. | not executed | SmsSettings.OptionalModeWithoutSenderThrows | SmsSettings.RegisteredRowComplete |
| app/Actions/ExportMessageHistory.php:57-58 | The recipient cell reads `$log->contact_with_name`, which `MessageLog` does not define, so the value is always null. | A log to "+639171234567" whose contact is named Ana: the cell is "09171234567". | Use the `contact` relation, giving "Ana (09171234567)". | not executed | MessageExport.NameNeverShown | MessageExport.NamedRecipientShown |
| app/Jobs/ContactImportJob.php:25-54 | The job takes no user id, and `createFromArray` owns each contact by `auth()->id()`. The upload action dispatches it to the queue (app/Actions/ImportContactsFromFile.php:24). | A queued import of one row with mobile "09171234567": in the worker nobody is signed in, so no contact is created, yet `imported` is 1. | Pass the uploader's id to the job when it is dispatched and own the contacts by it. | not executed; holds whenever the queue connection is not `sync` | ContactImport.QueuedRowCountedNotSaved | ContactImport.ContactImportJobForUploader |
