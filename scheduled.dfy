/**
 * `ScheduledMessage`: a message waiting for its send time, its status
 * predicates and recipient summary, and the two actions that change it
 * before it is sent: `UpdateScheduledMessage` and `CancelScheduledMessage`.
 */
module ScheduledMessages {
  import opened Wrappers
  import opened Strings

  datatype MessageStatus = Pending | Processing | Sent | Cancelled

  /** One resolved group in `recipient_data.groups`. */
  datatype GroupRef = GroupRef(id: nat, name: string, count: nat)

  /** The sum of the member counts of the resolved groups. */
  function GroupTotal(gs: seq<GroupRef>): nat
  {
    if gs == [] then 0 else GroupTotal(gs[..|gs| - 1]) + gs[|gs| - 1].count
  }

  /** The `recipient_data` array: resolved numbers, resolved groups and the first group's name. */
  datatype RecipientData = RecipientData(numbers: seq<string>, groups: seq<GroupRef>, groupName: Option<string>)

  /** One entry of `errors`: a number whose dispatch threw, and the exception message. */
  datatype DispatchError = DispatchError(number: string, error: string)

  const NumbersType := "numbers"
  const GroupType := "group"
  const MixedType := "mixed"

  datatype ScheduledMessage = ScheduledMessage(
    message: string,
    senderId: string,
    recipientType: string,
    recipientData: RecipientData,
    scheduledAt: int,
    sentAt: Option<int>,
    status: MessageStatus,
    totalRecipients: nat,
    sentCount: nat,
    failedCount: nat,
    errors: seq<DispatchError>)

  /** `scopeReady`: pending and due. */
  predicate IsReady(m: ScheduledMessage, now: int)
  {
    m.status == Pending && m.scheduledAt <= now
  }

  /** `isPending` and `scopePending`. */
  predicate IsPending(m: ScheduledMessage)
  {
    m.status == Pending
  }

  /** `isCancellable`: pending or processing. */
  predicate IsCancellable(m: ScheduledMessage)
  {
    m.status == Pending || m.status == Processing
  }

  /** `isEditable`: pending and still in the future. */
  predicate IsEditable(m: ScheduledMessage, now: int)
  {
    m.status == Pending && m.scheduledAt > now
  }

  /** Editable messages can be cancelled, and no message is both ready and editable at one instant. */
  lemma StatusPredicates(m: ScheduledMessage, now: int)
    ensures IsEditable(m, now) ==> IsCancellable(m) && IsPending(m)
    ensures !(IsReady(m, now) && IsEditable(m, now))
    ensures IsPending(m) ==> (IsReady(m, now) <==> !IsEditable(m, now))
  {
  }

  /** The `recipientSummary` accessor. */
  function RecipientSummary(m: ScheduledMessage): (s: string)
    ensures m.recipientType == NumbersType ==> s == NatToString(|m.recipientData.numbers|) + " number(s)"
    ensures m.recipientType == GroupType ==>
              s == m.recipientData.groupName.OrElse("Group") + " (" + NatToString(m.totalRecipients) + ")"
    ensures m.recipientType == MixedType ==> s == NatToString(m.totalRecipients) + " recipient(s)"
    ensures m.recipientType !in {NumbersType, GroupType, MixedType} ==> s == "Unknown"
  {
    if m.recipientType == NumbersType then NatToString(|m.recipientData.numbers|) + " number(s)"
    else if m.recipientType == GroupType then
      m.recipientData.groupName.OrElse("Group") + " (" + NatToString(m.totalRecipients) + ")"
    else if m.recipientType == MixedType then NatToString(m.totalRecipients) + " recipient(s)"
    else "Unknown"
  }

  /** Every summary of a known recipient type ends in ')', so "Unknown" appears only for other types. */
  lemma SummaryKnown(m: ScheduledMessage)
    ensures m.recipientType in {NumbersType, GroupType, MixedType} <==> RecipientSummary(m) != "Unknown"
    ensures RecipientSummary(m) != "Unknown" ==> RecipientSummary(m)[|RecipientSummary(m)| - 1] == ')'
  {
    var s := RecipientSummary(m);
    if m.recipientType in {NumbersType, GroupType, MixedType} {
      assert s[|s| - 1] == ')';
      assert "Unknown"[6] == 'n';
    }
  }

  /** Why an update or cancellation is refused: `findOrFail`, or `abort(422, ...)`. */
  datatype ActionError = NotFound | Unprocessable(message: string)

  const CannotEdit := "Cannot edit this scheduled message"
  const CannotCancel := "Cannot cancel this message"

  /** The `$updates` array applied: each given field replaces the stored one, the others stay. */
  function Updated(m: ScheduledMessage, message: Option<string>, scheduledAt: Option<int>, senderId: Option<string>)
    : (u: ScheduledMessage)
    ensures u.message == message.OrElse(m.message)
    ensures u.scheduledAt == scheduledAt.OrElse(m.scheduledAt)
    ensures u.senderId == senderId.OrElse(m.senderId)
    ensures u.(message := m.message, scheduledAt := m.scheduledAt, senderId := m.senderId) == m
  {
    m.(message := message.OrElse(m.message), scheduledAt := scheduledAt.OrElse(m.scheduledAt),
       senderId := senderId.OrElse(m.senderId))
  }

  /** The request rules of the update endpoint: text of at most 1600 characters, sender of at most 11, a future time. */
  predicate UpdateRequestValid(message: Option<string>, scheduledAt: Option<int>, senderId: Option<string>, now: int)
  {
    (message.Some? ==> |message.value| <= 1600)
    && (scheduledAt.Some? ==> scheduledAt.value > now)
    && (senderId.Some? ==> |senderId.value| <= 11)
  }

  /** A validated update of an editable message leaves it editable and its recipients, counters and status untouched. */
  lemma UpdateKeepsEditable(m: ScheduledMessage, message: Option<string>, scheduledAt: Option<int>,
                            senderId: Option<string>, now: int)
    requires IsEditable(m, now) && UpdateRequestValid(message, scheduledAt, senderId, now)
    ensures IsEditable(Updated(m, message, scheduledAt, senderId), now)
    ensures var u := Updated(m, message, scheduledAt, senderId);
            u.status == m.status && u.recipientType == m.recipientType && u.recipientData == m.recipientData
            && u.totalRecipients == m.totalRecipients
    ensures message.Some? ==> |Updated(m, message, scheduledAt, senderId).message| <= 1600
    ensures senderId.Some? ==> |Updated(m, message, scheduledAt, senderId).senderId| <= 11
  {
  }

  class ScheduledTable {
    var rows: map<nat, ScheduledMessage>
    var nextId: nat

    predicate Valid()
      reads this
    {
      forall id :: id in rows ==> id < nextId
    }

    constructor ()
      ensures rows == map[] && nextId == 1 && Valid()
    {
      rows := map[];
      nextId := 1;
    }

    /** `ScheduledMessage::create([...])`. */
    method Create(m: ScheduledMessage) returns (id: nat)
      requires Valid()
      modifies this
      ensures Valid() && id == old(nextId) && id !in old(rows) && nextId == old(nextId) + 1
      ensures rows == old(rows)[id := m]
    {
      id := nextId;
      rows := rows[id := m];
      nextId := nextId + 1;
    }

    /**
     * `UpdateScheduledMessage::handle`: a missing or non-editable message
     * is refused and nothing changes; otherwise only the given fields change.
     */
    method Update(id: nat, message: Option<string>, scheduledAt: Option<int>, senderId: Option<string>, now: int)
      returns (r: Result<ScheduledMessage, ActionError>)
      modifies this
      ensures nextId == old(nextId)
      ensures id !in old(rows) ==> r == Err(NotFound) && rows == old(rows)
      ensures id in old(rows) && !IsEditable(old(rows)[id], now) ==> r == Err(Unprocessable(CannotEdit)) && rows == old(rows)
      ensures id in old(rows) && IsEditable(old(rows)[id], now) ==>
                var u := Updated(old(rows)[id], message, scheduledAt, senderId);
                r == Ok(u) && rows == old(rows)[id := u]
    {
      if id !in rows {
        return Err(NotFound);
      }
      var m := rows[id];
      if !IsEditable(m, now) {
        return Err(Unprocessable(CannotEdit));
      }
      if message.Some? {
        m := m.(message := message.value);
      }
      if scheduledAt.Some? {
        m := m.(scheduledAt := scheduledAt.value);
      }
      if senderId.Some? {
        m := m.(senderId := senderId.value);
      }
      rows := rows[id := m];
      return Ok(m);
    }

    /** `CancelScheduledMessage::handle`: a pending or processing message becomes cancelled; nothing else changes. */
    method Cancel(id: nat) returns (r: Result<ScheduledMessage, ActionError>)
      modifies this
      ensures nextId == old(nextId)
      ensures id !in old(rows) ==> r == Err(NotFound) && rows == old(rows)
      ensures id in old(rows) && !IsCancellable(old(rows)[id]) ==> r == Err(Unprocessable(CannotCancel)) && rows == old(rows)
      ensures id in old(rows) && IsCancellable(old(rows)[id]) ==>
                r == Ok(old(rows)[id].(status := Cancelled)) && rows == old(rows)[id := old(rows)[id].(status := Cancelled)]
    {
      if id !in rows {
        return Err(NotFound);
      }
      if !IsCancellable(rows[id]) {
        return Err(Unprocessable(CannotCancel));
      }
      rows := rows[id := rows[id].(status := Cancelled)];
      return Ok(rows[id]);
    }
  }

  /** A message can be cancelled at most once, and a sent message never. */
  lemma CancelOnce(m: ScheduledMessage)
    ensures !IsCancellable(m.(status := Cancelled))
    ensures m.status == Sent ==> !IsCancellable(m)
  {
  }
}
