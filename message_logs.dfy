/**
 * `MessageLog`: one row per delivery attempt, created pending and ended
 * sent or failed by `markAsSent` / `markAsFailed`, plus the status scopes.
 */
module MessageLogs {
  import opened Wrappers

  datatype LogStatus = Pending | Sent | Failed

  datatype MessageLog = MessageLog(
    userId: nat,
    recipient: string,
    message: string,
    status: LogStatus,
    senderId: string,
    scheduledMessageId: Option<nat>,
    sentAt: Option<int>,
    failedAt: Option<int>,
    errorMessage: Option<string>)

  /** The fields a delivery is about; `markAs*` never touch them. */
  predicate SameDelivery(a: MessageLog, b: MessageLog)
  {
    a.userId == b.userId && a.recipient == b.recipient && a.message == b.message
    && a.senderId == b.senderId && a.scheduledMessageId == b.scheduledMessageId
  }

  /** `scopeSent`, `scopeFailed`, `scopePending`: the ids whose status matches. */
  function WithStatus(rows: map<nat, MessageLog>, s: LogStatus): (ids: set<nat>)
    ensures forall id :: id in ids <==> id in rows && rows[id].status == s
  {
    set id | id in rows && rows[id].status == s
  }

  /** The three scopes are pairwise disjoint and together select every row. */
  lemma ScopesPartition(rows: map<nat, MessageLog>)
    ensures WithStatus(rows, Sent) * WithStatus(rows, Failed) == {}
    ensures WithStatus(rows, Sent) * WithStatus(rows, Pending) == {}
    ensures WithStatus(rows, Failed) * WithStatus(rows, Pending) == {}
    ensures WithStatus(rows, Sent) + WithStatus(rows, Failed) + WithStatus(rows, Pending) == rows.Keys
  {
  }

  class LogTable {
    var rows: map<nat, MessageLog>
    var nextId: nat

    predicate Valid()
      reads this
    {
      forall id :: id in rows ==> id < nextId
    }

    constructor ()
      ensures rows == map[] && nextId == 1 && Valid()
    {
      rows := map[];
      nextId := 1;
    }

    /** `MessageLog::create([...])` with status pending and no timestamps or error. */
    method Create(userId: nat, recipient: string, message: string, senderId: string, scheduledMessageId: Option<nat>)
      returns (id: nat)
      requires Valid()
      modifies this
      ensures Valid() && id == old(nextId) && id !in old(rows) && nextId == old(nextId) + 1
      ensures rows == old(rows)[id := MessageLog(userId, recipient, message, Pending, senderId,
                                                 scheduledMessageId, None, None, None)]
    {
      id := nextId;
      rows := rows[id := MessageLog(userId, recipient, message, Pending, senderId, scheduledMessageId, None, None, None)];
      nextId := nextId + 1;
    }

    /** `markAsSent`: status sent and `sent_at` now; an earlier failure time and error stay. */
    method MarkAsSent(id: nat, now: int)
      requires id in rows
      modifies this
      ensures rows == old(rows)[id := old(rows)[id].(status := Sent, sentAt := Some(now))]
      ensures SameDelivery(rows[id], old(rows)[id]) && nextId == old(nextId)
      ensures rows[id].failedAt == old(rows)[id].failedAt && rows[id].errorMessage == old(rows)[id].errorMessage
    {
      rows := rows[id := rows[id].(status := Sent, sentAt := Some(now))];
    }

    /** `markAsFailed($error)`: status failed, `failed_at` now and the error; an earlier send time stays. */
    method MarkAsFailed(id: nat, error: string, now: int)
      requires id in rows
      modifies this
      ensures rows == old(rows)[id := old(rows)[id].(status := Failed, failedAt := Some(now), errorMessage := Some(error))]
      ensures SameDelivery(rows[id], old(rows)[id]) && nextId == old(nextId)
      ensures rows[id].sentAt == old(rows)[id].sentAt
    {
      rows := rows[id := rows[id].(status := Failed, failedAt := Some(now), errorMessage := Some(error))];
    }

    /** The reset `RetryFailedMessage` performs: pending again, with no failure time or error. */
    method ResetForRetry(id: nat)
      requires id in rows
      modifies this
      ensures rows == old(rows)[id := old(rows)[id].(status := Pending, failedAt := None, errorMessage := None)]
      ensures nextId == old(nextId)
    {
      rows := rows[id := rows[id].(status := Pending, failedAt := None, errorMessage := None)];
    }
  }
}
