/**
 * Immediate fan-out: `SendToMultipleRecipients` (one `SendSMSJob` per
 * number that parses), `SendToMultipleGroups` (one `BroadcastToGroupJob`
 * per group identifier that matches) and `BroadcastToGroupJob` itself (one
 * `SendSMSJob` per member of the group).
 */
module Broadcasts {
  import opened Wrappers
  import opened Strings
  import opened Platform
  import opened Contacts
  import opened Groups
  import opened ScheduledMessages

  // ------------------------------------------------------------ numbers

  /** The tokens of `SendToMultipleRecipients`: a string is split on ',' with no trimming yet; an array is used as given. */
  function NumberTokens(arg: RecipientsArg): (ts: seq<string>)
    ensures arg.Items? ==> ts == arg.items
    ensures arg.Text? ==> ts == Split(arg.s, ',')
  {
    match arg
    case Text(s) => Split(s, ',')
    case Items(items) => items
  }

  /** The E.164 form of each token that parses as a PH number once trimmed, in token order; the others are skipped. */
  function Normalized(tokens: seq<string>, norm: Normalizer): (ns: seq<string>)
    ensures |ns| <= |tokens|
  {
    if tokens == [] then []
    else
      var init := Normalized(tokens[..|tokens| - 1], norm);
      match norm(Trim(tokens[|tokens| - 1]), PH)
      case Some(e164) => init + [e164]
      case None => init
  }

  /** Nothing is removed but the tokens that do not parse: two token lists give the recipients of each, one after the other. */
  lemma {:induction false} NormalizedAppend(xs: seq<string>, ys: seq<string>, norm: Normalizer)
    ensures Normalized(xs + ys, norm) == Normalized(xs, norm) + Normalized(ys, norm)
  {
    if ys == [] {
      assert xs + ys == xs;
    } else {
      var ys' := ys[..|ys| - 1];
      assert (xs + ys)[..|xs + ys| - 1] == xs + ys';
      assert (xs + ys)[|xs + ys| - 1] == ys[|ys| - 1];
      NormalizedAppend(xs, ys', norm);
    }
  }

  /** When every token parses, there is one recipient per token, in order, and none is invalid. */
  lemma {:induction false} NormalizedAllValid(tokens: seq<string>, norm: Normalizer)
    requires forall i :: 0 <= i < |tokens| ==> norm(Trim(tokens[i]), PH).Some?
    ensures |Normalized(tokens, norm)| == |tokens|
    ensures forall i :: 0 <= i < |tokens| ==> Normalized(tokens, norm)[i] == norm(Trim(tokens[i]), PH).value
  {
    if tokens != [] {
      var init := tokens[..|tokens| - 1];
      NormalizedAllValid(init, norm);
      var ns := Normalized(tokens, norm);
      assert ns == Normalized(init, norm) + [norm(Trim(tokens[|tokens| - 1]), PH).value];
      forall i | 0 <= i < |tokens|
        ensures ns[i] == norm(Trim(tokens[i]), PH).value
      {
        if i < |init| {
          assert tokens[i] == init[i];
        }
      }
    }
  }

  /** The response of `SendToMultipleRecipients::handle` besides its constant status 'queued'. */
  datatype RecipientsResult = RecipientsResult(count: nat, recipients: seq<string>, invalidCount: nat)

  /** One `SendSMSJob` per recipient with the message and sender, and no scheduled message or user. */
  predicate SendsTo(jobs: seq<Job>, recipients: seq<string>, message: string, senderId: string)
  {
    |jobs| == |recipients|
    && forall k :: 0 <= k < |jobs| ==> jobs[k] == SendSms(recipients[k], message, senderId, None, None)
  }

  /** One more token adds its E.164 form to the recipients when it parses, and nothing otherwise. */
  lemma NormalizedStep(tokens: seq<string>, i: nat, norm: Normalizer)
    requires i < |tokens|
    ensures norm(Trim(tokens[i]), PH).Some? ==>
              Normalized(tokens[..i + 1], norm) == Normalized(tokens[..i], norm) + [norm(Trim(tokens[i]), PH).value]
    ensures norm(Trim(tokens[i]), PH).None? ==> Normalized(tokens[..i + 1], norm) == Normalized(tokens[..i], norm)
  {
    assert tokens[..i + 1][..i] == tokens[..i];
  }

  /** The jobs `SendToMultipleRecipients` dispatches for a list of recipients, in order. */
  function RecipientJobs(recipients: seq<string>, message: string, senderId: string): (jobs: seq<Job>)
    ensures SendsTo(jobs, recipients, message, senderId)
  {
    if recipients == [] then []
    else
      var init := recipients[..|recipients| - 1];
      RecipientJobs(init, message, senderId) + [SendSms(recipients[|recipients| - 1], message, senderId, None, None)]
  }

  /** One more recipient adds its job at the end. */
  lemma RecipientJobsAppend(recipients: seq<string>, e164: string, message: string, senderId: string)
    ensures RecipientJobs(recipients + [e164], message, senderId)
            == RecipientJobs(recipients, message, senderId) + [SendSms(e164, message, senderId, None, None)]
  {
    assert (recipients + [e164])[..|recipients|] == recipients;
  }

  /**
   * `SendToMultipleRecipients::handle`: each token is trimmed and parsed as
   * a PH number; a number that parses is dispatched and listed, one that
   * does not is skipped and counted invalid. Duplicates are kept.
   */
  method SendToMultipleRecipients(recipients: RecipientsArg, message: string, senderId: Option<string>,
                                  sms: SmsDefaults, norm: Normalizer)
    returns (result: RecipientsResult, dispatched: seq<Job>)
    ensures result.recipients == Normalized(NumberTokens(recipients), norm)
    ensures result.count == |result.recipients|
    ensures result.count + result.invalidCount == |NumberTokens(recipients)|
    ensures SendsTo(dispatched, result.recipients, message, SenderOrDefault(senderId, sms))
  {
    var sender := SenderOrDefault(senderId, sms);
    var recipientArray := NumberTokens(recipients);
    var normalized, dispatchedCount;
    normalized, dispatchedCount, dispatched := DispatchRecipients(recipientArray, message, sender, norm);
    result := RecipientsResult(dispatchedCount, normalized, |recipientArray| - |normalized|);
  }

  /** The loop of `SendToMultipleRecipients::handle` over the tokens. */
  method DispatchRecipients(recipientArray: seq<string>, message: string, sender: string, norm: Normalizer)
    returns (normalized: seq<string>, dispatchedCount: nat, dispatched: seq<Job>)
    ensures normalized == Normalized(recipientArray, norm)
    ensures dispatchedCount == |normalized|
    ensures dispatched == RecipientJobs(normalized, message, sender)
  {
    normalized := [];
    dispatchedCount := 0;
    dispatched := [];
    var i := 0;
    while i < |recipientArray|
      invariant 0 <= i <= |recipientArray|
      invariant normalized == Normalized(recipientArray[..i], norm)
      invariant dispatchedCount == |normalized|
      invariant dispatched == RecipientJobs(normalized, message, sender)
    {
      NormalizedStep(recipientArray, i, norm);
      var parsed := norm(Trim(recipientArray[i]), PH);
      if parsed.Some? {
        RecipientJobsAppend(normalized, parsed.value, message, sender);
        dispatched := dispatched + [SendSms(parsed.value, message, sender, None, None)];
        normalized := normalized + [parsed.value];
        dispatchedCount := dispatchedCount + 1;
      }
      i := i + 1;
    }
    assert recipientArray[..i] == recipientArray;
  }

  // ------------------------------------------------------------ groups

  /** The identifiers of `SendToMultipleGroups`: split a string on ',', trim every piece, drop the empty ones. */
  function GroupTokens(arg: RecipientsArg): (ts: seq<string>)
    ensures arg.Text? ==> ts == ParseList(arg.s)
    ensures arg.Items? ==> ts == DropFalsy(TrimAll(arg.items))
    ensures forall i :: 0 <= i < |ts| ==> !IsFalsy(ts[i])
  {
    match arg
    case Text(s) => ParseList(s)
    case Items(items) => DropFalsy(TrimAll(items))
  }

  /** The matched groups, one entry per matching identifier (a group named twice appears twice), with its member count. */
  function Matched(tokens: seq<string>, store: GroupStore): (gs: seq<GroupRef>)
    requires store.Valid()
    ensures |gs| <= |tokens|
    ensures forall k :: 0 <= k < |gs| ==>
              gs[k].id in store.rows && gs[k].name == store.rows[gs[k].id].name
              && gs[k].count == |store.rows[gs[k].id].members|
  {
    if tokens == [] then []
    else
      var init := Matched(tokens[..|tokens| - 1], store);
      match Entry(tokens[|tokens| - 1], store)
      case Some(g) => init + [g]
      case None => init
  }

  /** The entry of one identifier: the group `where('name', $t)->orWhere('id', $t)->first()` finds, if any. */
  function Entry(token: string, store: GroupStore): (e: Option<GroupRef>)
    requires store.Valid()
    ensures e.Some? ==> e.value.id in store.rows && e.value.name == store.rows[e.value.id].name
                        && e.value.count == |store.rows[e.value.id].members|
    ensures e.Some? <==> store.FindByNameOrId(token).Some?
    ensures e.Some? ==> e.value.id == store.FindByNameOrId(token).value
  {
    match store.FindByNameOrId(token)
    case Some(id) => Some(GroupRef(id, store.rows[id].name, |store.rows[id].members|))
    case None => None
  }

  /** An identifier that names no group and spells no group id adds nothing. */
  lemma UnmatchedSkipped(tokens: seq<string>, t: string, store: GroupStore)
    requires store.Valid()
    requires forall j :: j in store.rows ==> store.rows[j].name != t && NatToString(j) != t
    ensures Matched(tokens + [t], store) == Matched(tokens, store)
  {
    assert (tokens + [t])[..|tokens|] == tokens;
  }

  /** One `BroadcastToGroupJob` per matched group, in order, for the message, sender and user. */
  function GroupJobs(gs: seq<GroupRef>, message: string, senderId: string, userId: Option<nat>): (jobs: seq<Job>)
    ensures |jobs| == |gs|
    ensures forall k :: 0 <= k < |gs| ==> jobs[k] == BroadcastToGroup(gs[k].id, message, senderId, userId)
  {
    if gs == [] then [] else GroupJobs(gs[..|gs| - 1], message, senderId, userId) + [BroadcastToGroup(gs[|gs| - 1].id, message, senderId, userId)]
  }

  /** The response of `SendToMultipleGroups::handle` besides its constant status 'queued'. */
  datatype GroupsResult = GroupsResult(groups: seq<GroupRef>, totalContacts: nat)

  /**
   * `SendToMultipleGroups::handle`: one `BroadcastToGroupJob` per matched
   * identifier, for the given user or else the signed-in one, and the sum
   * of the matched groups' member counts.
   */
  method SendToMultipleGroups(store: GroupStore, groups: RecipientsArg, message: string, senderId: Option<string>,
                              userId: Option<nat>, authId: Option<nat>, sms: SmsDefaults)
    returns (result: GroupsResult, dispatched: seq<Job>)
    requires store.Valid()
    ensures result.groups == Matched(GroupTokens(groups), store)
    ensures result.totalContacts == GroupTotal(result.groups)
    ensures dispatched == GroupJobs(result.groups, message, SenderOrDefault(senderId, sms), userId.Or(authId))
  {
    var user := userId.Or(authId);
    var sender := SenderOrDefault(senderId, sms);
    var groupArray := GroupTokens(groups);
    result, dispatched := DispatchGroups(store, groupArray, message, sender, user);
  }

  /** One more identifier adds its entry, if it has one, to the matches of those before it. */
  lemma MatchedStep(tokens: seq<string>, i: nat, store: GroupStore)
    requires store.Valid() && i < |tokens|
    ensures Entry(tokens[i], store).Some? ==>
              Matched(tokens[..i + 1], store) == Matched(tokens[..i], store) + [Entry(tokens[i], store).value]
    ensures Entry(tokens[i], store).None? ==> Matched(tokens[..i + 1], store) == Matched(tokens[..i], store)
  {
    assert tokens[..i + 1][..i] == tokens[..i];
  }

  /** One more matched group adds its member count to the total and its job to the end of the jobs. */
  lemma GroupsAppend(gs: seq<GroupRef>, g: GroupRef, message: string, senderId: string, userId: Option<nat>)
    ensures GroupTotal(gs + [g]) == GroupTotal(gs) + g.count
    ensures GroupJobs(gs + [g], message, senderId, userId)
            == GroupJobs(gs, message, senderId, userId) + [BroadcastToGroup(g.id, message, senderId, userId)]
  {
    assert (gs + [g])[..|gs|] == gs;
  }

  /** The loop of `SendToMultipleGroups::handle` over the identifiers. */
  method DispatchGroups(store: GroupStore, groupArray: seq<string>, message: string, sender: string, user: Option<nat>)
    returns (result: GroupsResult, dispatched: seq<Job>)
    requires store.Valid()
    ensures result.groups == Matched(groupArray, store)
    ensures result.totalContacts == GroupTotal(result.groups)
    ensures dispatched == GroupJobs(result.groups, message, sender, user)
  {
    var dispatchedGroups: seq<GroupRef> := [];
    var totalContacts := 0;
    dispatched := [];
    var i := 0;
    while i < |groupArray|
      invariant 0 <= i <= |groupArray|
      invariant dispatchedGroups == Matched(groupArray[..i], store)
      invariant totalContacts == GroupTotal(dispatchedGroups)
      invariant dispatched == GroupJobs(dispatchedGroups, message, sender, user)
    {
      MatchedStep(groupArray, i, store);
      var group := Entry(groupArray[i], store);
      if group.Some? {
        var entry := group.value;
        GroupsAppend(dispatchedGroups, entry, message, sender, user);
        dispatched := dispatched + [BroadcastToGroup(entry.id, message, sender, user)];
        totalContacts := totalContacts + entry.count;
        dispatchedGroups := dispatchedGroups + [entry];
      }
      i := i + 1;
    }
    assert groupArray[..i] == groupArray;
    result := GroupsResult(dispatchedGroups, totalContacts);
  }

  // ------------------------------------------------------------ one group

  /** Why a `BroadcastToGroupJob` fails: `findOrFail` finds no group. */
  datatype BroadcastError = GroupNotFound

  /** The `SendSMSJob`s for a group's members, in membership order: the job's user, else the group's owner. */
  function MemberJobs(members: seq<nat>, rows: map<nat, Contact>, message: string, senderId: string,
                      userId: Option<nat>, norm: Normalizer): (jobs: seq<Job>)
    ensures |jobs| <= |members|
    ensures forall k :: 0 <= k < |jobs| ==>
              jobs[k].SendSms? && jobs[k].message == message && jobs[k].senderId == senderId
              && jobs[k].scheduledMessageId.None? && jobs[k].userId == userId
  {
    if members == [] then []
    else
      var init := MemberJobs(members[..|members| - 1], rows, message, senderId, userId, norm);
      var m := members[|members| - 1];
      if m in rows then init + [SendSms(MobileOf(rows[m], norm), message, senderId, None, userId)] else init
  }

  /** With every member stored, exactly one job per member, each to that member's E.164 mobile. */
  lemma {:induction false} MemberJobsExact(members: seq<nat>, rows: map<nat, Contact>, message: string,
                                           senderId: string, userId: Option<nat>, norm: Normalizer)
    requires forall k :: 0 <= k < |members| ==> members[k] in rows
    ensures var jobs := MemberJobs(members, rows, message, senderId, userId, norm);
            |jobs| == |members| && forall k :: 0 <= k < |jobs| ==> jobs[k].mobile == MobileOf(rows[members[k]], norm)
  {
    if members != [] {
      MemberJobsExact(members[..|members| - 1], rows, message, senderId, userId, norm);
    }
  }

  /**
   * `BroadcastToGroupJob::handle`: a missing group fails; otherwise one
   * `SendSMSJob` per member, carrying this job's user or else the group's owner.
   */
  method BroadcastToGroupJob(store: GroupStore, contacts: ContactTable, job: Job, norm: Normalizer)
    returns (r: Result<seq<Job>, BroadcastError>)
    requires job.BroadcastToGroup?
    ensures job.groupId !in store.rows <==> r == Err(GroupNotFound)
    ensures job.groupId in store.rows ==>
              var g := store.rows[job.groupId];
              r == Ok(MemberJobs(g.members, contacts.rows, job.message, job.senderId,
                                 job.userId.Or(g.userId), norm))
  {
    if job.groupId !in store.rows {
      return Err(GroupNotFound);
    }
    var group := store.rows[job.groupId];
    var owner := job.userId.Or(group.userId);
    var jobs: seq<Job> := [];
    var i := 0;
    while i < |group.members|
      invariant 0 <= i <= |group.members|
      invariant jobs == MemberJobs(group.members[..i], contacts.rows, job.message, job.senderId, owner, norm)
    {
      assert group.members[..i + 1][..i] == group.members[..i];
      var m := group.members[i];
      if m in contacts.rows {
        jobs := jobs + [SendSms(MobileOf(contacts.rows[m], norm), job.message, job.senderId, None, owner)];
      }
      i := i + 1;
    }
    assert group.members[..i] == group.members;
    r := Ok(jobs);
  }

  /**
   * The `total_contacts` that `SendToMultipleGroups` reports is the number
   * of `SendSMSJob`s its broadcasts go on to queue, provided every member
   * is stored and no group changes in between.
   */
  lemma {:induction false} TotalMatchesBroadcasts(gs: seq<GroupRef>, store: GroupStore, rows: map<nat, Contact>,
                                                  message: string, senderId: string, userId: Option<nat>,
                                                  norm: Normalizer)
    requires forall k :: 0 <= k < |gs| ==> gs[k].id in store.rows && gs[k].count == |store.rows[gs[k].id].members|
    requires forall id, k :: id in store.rows && 0 <= k < |store.rows[id].members| ==> store.rows[id].members[k] in rows
    ensures GroupTotal(gs) == BroadcastJobCount(gs, store, rows, message, senderId, userId, norm)
  {
    if gs != [] {
      var init := gs[..|gs| - 1];
      TotalMatchesBroadcasts(init, store, rows, message, senderId, userId, norm);
      var g := store.rows[gs[|gs| - 1].id];
      MemberJobsExact(g.members, rows, message, senderId, userId.Or(g.userId), norm);
    }
  }

  /** The number of `SendSMSJob`s the broadcasts of these groups queue. */
  function BroadcastJobCount(gs: seq<GroupRef>, store: GroupStore, rows: map<nat, Contact>, message: string,
                             senderId: string, userId: Option<nat>, norm: Normalizer): nat
    requires forall k :: 0 <= k < |gs| ==> gs[k].id in store.rows
  {
    if gs == [] then 0
    else
      var g := store.rows[gs[|gs| - 1].id];
      BroadcastJobCount(gs[..|gs| - 1], store, rows, message, senderId, userId, norm)
      + |MemberJobs(g.members, rows, message, senderId, userId.Or(g.userId), norm)|
  }
}
