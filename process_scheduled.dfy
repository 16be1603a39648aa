/**
 * Sending a scheduled message: the `messages:process-scheduled` command
 * queues one `ProcessScheduledMessage` job per ready message, and that job
 * expands the groups, removes duplicate numbers, queues one `SendSMSJob`
 * per number and records the counters.
 */
module ProcessScheduled {
  import opened Wrappers
  import opened Strings
  import opened Platform
  import opened Contacts
  import opened Groups
  import opened ScheduledMessages

  // ------------------------------------------------------------ the sweep

  /** The ids of the ready messages in [from, bound), ascending: `ScheduledMessage::ready()->get()`. */
  function ReadyIds(rows: map<nat, ScheduledMessage>, now: int, from: nat, bound: nat): (ids: seq<nat>)
    decreases bound - from
    ensures forall id :: id in ids <==> from <= id < bound && id in rows && IsReady(rows[id], now)
    ensures forall i :: 0 <= i < |ids| ==> from <= ids[i]
    ensures forall i, j :: 0 <= i < j < |ids| ==> ids[i] < ids[j]
  {
    if from >= bound then []
    else if from in rows && IsReady(rows[from], now) then [from] + ReadyIds(rows, now, from + 1, bound)
    else ReadyIds(rows, now, from + 1, bound)
  }

  /**
   * The command's `handle`: one `ProcessScheduledMessage` per ready message,
   * in query order, and exit code 0 whether or not there were any. It
   * changes no message itself.
   */
  method Sweep(table: ScheduledTable, now: int) returns (exitCode: int, dispatched: seq<Job>)
    requires table.Valid()
    ensures exitCode == 0
    ensures |dispatched| == |ReadyIds(table.rows, now, 0, table.nextId)|
    ensures forall i :: 0 <= i < |dispatched| ==> dispatched[i] == ProcessScheduled(ReadyIds(table.rows, now, 0, table.nextId)[i])
  {
    var messages := ReadyIds(table.rows, now, 0, table.nextId);
    dispatched := [];
    if messages == [] {
      return 0, dispatched;
    }
    var i := 0;
    while i < |messages|
      invariant 0 <= i <= |messages|
      invariant |dispatched| == i
      invariant forall k :: 0 <= k < i ==> dispatched[k] == ProcessScheduled(messages[k])
    {
      dispatched := dispatched + [ProcessScheduled(messages[i])];
      i := i + 1;
    }
    return 0, dispatched;
  }

  // ------------------------------------------------------------ numbers

  /**
   * `$contact?->e164_mobile` for one member: `pluck('mobile')` runs the
   * accessor without the country column (so region PH), then the oldest
   * contact whose stored mobile is that value is looked up and formatted.
   */
  function MemberNumber(rows: map<nat, Contact>, bound: nat, member: Contact, norm: Normalizer): Option<string>
  {
    var plucked := E164OrRaw(member.mobile, None, norm);
    match FirstMatch(rows, (c: Contact) => c.mobile == plucked, 0, bound)
    case Some(j) => Some(MobileOf(rows[j], norm))
    case None => None
  }

  /** The numbers of a group's members, in membership order, with `filter()` dropping nulls and falsy strings. */
  function GroupNumbers(rows: map<nat, Contact>, bound: nat, members: seq<nat>, norm: Normalizer): (ns: seq<string>)
    ensures |ns| <= |members|
    ensures forall i :: 0 <= i < |ns| ==> !IsFalsy(ns[i])
  {
    if members == [] then []
    else
      var rest := GroupNumbers(rows, bound, members[1..], norm);
      var m := members[0];
      if m in rows && Truthy(MemberNumber(rows, bound, rows[m], norm)) then [MemberNumber(rows, bound, rows[m], norm).value] + rest
      else rest
  }

  /** The numbers of the stored groups, in `recipient_data` order; a group deleted since scheduling adds nothing. */
  function GroupsNumbers(refs: seq<GroupRef>, rows: map<nat, Contact>, bound: nat, groups: GroupStore, norm: Normalizer)
    : seq<string>
  {
    if refs == [] then []
    else
      (if refs[0].id in groups.rows then GroupNumbers(rows, bound, groups.rows[refs[0].id].members, norm) else [])
      + GroupsNumbers(refs[1..], rows, bound, groups, norm)
  }

  /** `$numbers` before `array_unique`: the stored numbers, then each surviving group's current members. */
  function CollectedNumbers(data: RecipientData, rows: map<nat, Contact>, bound: nat, groups: GroupStore, norm: Normalizer)
    : seq<string>
  {
    data.numbers + GroupsNumbers(data.groups, rows, bound, groups, norm)
  }

  /** A group that no longer exists contributes no numbers. */
  lemma DeletedGroupsAddNothing(refs: seq<GroupRef>, rows: map<nat, Contact>, bound: nat, groups: GroupStore, norm: Normalizer)
    requires forall i :: 0 <= i < |refs| ==> refs[i].id !in groups.rows
    ensures GroupsNumbers(refs, rows, bound, groups, norm) == []
  {
  }

  /** `array_unique`: the first occurrence of each value, in order. */
  function Unique(xs: seq<string>): (u: seq<string>)
    ensures forall x :: x in u <==> x in xs
    ensures forall i, j :: 0 <= i < j < |u| ==> u[i] != u[j]
    ensures |u| <= |xs|
  {
    if xs == [] then []
    else
      var init := Unique(xs[..|xs| - 1]);
      assert forall x :: x in xs <==> x in xs[..|xs| - 1] || x == xs[|xs| - 1];
      if xs[|xs| - 1] in init then init else init + [xs[|xs| - 1]]
  }

  /** The position of the first occurrence of `v` in `xs`. */
  function FirstIndex(xs: seq<string>, v: string): (k: nat)
    requires v in xs
    ensures k < |xs| && xs[k] == v
    ensures forall j :: 0 <= j < k ==> xs[j] != v
  {
    if xs[0] == v then 0
    else
      var k := FirstIndex(xs[1..], v);
      assert forall j :: 1 <= j < k + 1 ==> xs[j] == xs[1..][j - 1];
      k + 1
  }

  /** A value present in a prefix first occurs in the whole list where it first occurs in the prefix. */
  lemma FirstIndexPrefix(xs: seq<string>, n: nat, v: string)
    requires n <= |xs| && v in xs[..n]
    ensures v in xs && FirstIndex(xs, v) == FirstIndex(xs[..n], v) < n
  {
    var k := FirstIndex(xs[..n], v);
    assert xs[k] == v;
    assert forall j :: 0 <= j < k ==> xs[j] == xs[..n][j];
  }

  /**
   * `array_unique` keeps the values in the order of their first
   * occurrences; with the other properties of `Unique` this determines it.
   */
  lemma {:induction false} UniqueFirstOrder(xs: seq<string>)
    ensures forall i, j :: 0 <= i < j < |Unique(xs)| ==> FirstIndex(xs, Unique(xs)[i]) < FirstIndex(xs, Unique(xs)[j])
  {
    if xs != [] {
      var n := |xs| - 1;
      var init := xs[..n];
      var last := xs[n];
      UniqueFirstOrder(init);
      var u0 := Unique(init);
      var u := Unique(xs);
      assert u == if last in u0 then u0 else u0 + [last];
      forall i, j | 0 <= i < j < |u| ensures FirstIndex(xs, u[i]) < FirstIndex(xs, u[j]) {
        assert u[i] == u0[i] && u0[i] in u0;
        FirstIndexPrefix(xs, n, u0[i]);
        if j < |u0| {
          assert u[j] == u0[j] && u0[j] in u0;
          FirstIndexPrefix(xs, n, u0[j]);
          assert FirstIndex(init, u0[i]) < FirstIndex(init, u0[j]);
        } else {
          assert u[j] == last && last !in init;
          assert forall k :: 0 <= k < n ==> xs[k] == init[k];
          assert FirstIndex(xs, last) == n;
        }
      }
    }
  }

  /** The values of a list of distinct values are kept by `array_unique`, in their order. */
  lemma {:induction false} UniqueOfDistinct(xs: seq<string>)
    requires forall i, j :: 0 <= i < j < |xs| ==> xs[i] != xs[j]
    ensures Unique(xs) == xs
  {
    if xs != [] {
      var init := xs[..|xs| - 1];
      UniqueOfDistinct(init);
      assert xs[|xs| - 1] !in init;
      assert init + [xs[|xs| - 1]] == xs;
    }
  }

  // ------------------------------------------------------------ fan-out

  /** The dispatch loop's results: the queued jobs and the counters. */
  datatype Fanout = Fanout(jobs: seq<Job>, sent: nat, failed: nat, errors: seq<DispatchError>)

  /**
   * The loop over the numbers: a dispatch that the queue accepts is counted
   * sent; one that throws is counted failed with its number and message.
   * `queueError(n)` is the exception dispatching to `n` raises, if any.
   */
  function FanoutOf(numbers: seq<string>, message: string, senderId: string, queueError: string -> Option<string>)
    : (r: Fanout)
    ensures r.sent + r.failed == |numbers| && |r.errors| == r.failed && |r.jobs| == r.sent
    ensures forall i :: 0 <= i < |r.jobs| ==>
              r.jobs[i].SendSms? && r.jobs[i] == SendSms(r.jobs[i].mobile, message, senderId, None, None)
              && r.jobs[i].mobile in numbers
    ensures forall i :: 0 <= i < |r.errors| ==> r.errors[i].number in numbers
  {
    if numbers == [] then Fanout([], 0, 0, [])
    else
      var init := FanoutOf(numbers[..|numbers| - 1], message, senderId, queueError);
      var n := numbers[|numbers| - 1];
      match queueError(n)
      case None => init.(jobs := init.jobs + [SendSms(n, message, senderId, None, None)], sent := init.sent + 1)
      case Some(e) => init.(failed := init.failed + 1, errors := init.errors + [DispatchError(n, e)])
  }

  /** When the queue accepts every dispatch, there is one job per number, in order, and nothing failed. */
  lemma {:induction false} FanoutAllQueued(numbers: seq<string>, message: string, senderId: string,
                                           queueError: string -> Option<string>)
    requires forall i :: 0 <= i < |numbers| ==> queueError(numbers[i]).None?
    ensures var r := FanoutOf(numbers, message, senderId, queueError);
            r.failed == 0 && r.errors == [] && |r.jobs| == |numbers|
            && forall i :: 0 <= i < |numbers| ==> r.jobs[i].mobile == numbers[i]
  {
    if numbers != [] {
      FanoutAllQueued(numbers[..|numbers| - 1], message, senderId, queueError);
    }
  }

  /** The row after the job: sent now, with the counters and errors, whatever failed. */
  function Finished(m: ScheduledMessage, f: Fanout, now: int): (done: ScheduledMessage)
    ensures done.status == Sent && done.sentAt == Some(now)
    ensures done.sentCount == f.sent && done.failedCount == f.failed && done.errors == f.errors
    ensures done.message == m.message && done.senderId == m.senderId && done.recipientData == m.recipientData
            && done.scheduledAt == m.scheduledAt && done.totalRecipients == m.totalRecipients
  {
    m.(status := Sent, sentAt := Some(now), sentCount := f.sent, failedCount := f.failed, errors := f.errors)
  }

  /** The distinct numbers the job sends to. */
  function Targets(m: ScheduledMessage, contacts: ContactTable, groups: GroupStore, norm: Normalizer): seq<string>
    reads contacts
  {
    Unique(CollectedNumbers(m.recipientData, contacts.rows, contacts.nextId, groups, norm))
  }

  /** The loop over `recipient_data.groups`: the stored numbers, then each surviving group's member numbers. */
  method GatherNumbers(data: RecipientData, contacts: ContactTable, groups: GroupStore, norm: Normalizer)
    returns (numbers: seq<string>)
    ensures numbers == CollectedNumbers(data, contacts.rows, contacts.nextId, groups, norm)
  {
    numbers := data.numbers;
    var refs := data.groups;
    var k := 0;
    while k < |refs|
      invariant 0 <= k <= |refs|
      invariant numbers + GroupsNumbers(refs[k..], contacts.rows, contacts.nextId, groups, norm)
                == CollectedNumbers(data, contacts.rows, contacts.nextId, groups, norm)
    {
      assert refs[k..][1..] == refs[k + 1..];
      if refs[k].id in groups.rows {
        var groupNumbers := GroupNumbers(contacts.rows, contacts.nextId, groups.rows[refs[k].id].members, norm);
        numbers := numbers + groupNumbers;
      }
      k := k + 1;
    }
  }

  /** The loop that queues one `SendSMSJob` per number, catching and recording each failed dispatch. */
  method Dispatch(numbers: seq<string>, message: string, senderId: string, queueError: string -> Option<string>)
    returns (f: Fanout)
    ensures f == FanoutOf(numbers, message, senderId, queueError)
  {
    var jobs: seq<Job> := [];
    var sentCount := 0;
    var failedCount := 0;
    var errors: seq<DispatchError> := [];
    var i := 0;
    while i < |numbers|
      invariant 0 <= i <= |numbers|
      invariant Fanout(jobs, sentCount, failedCount, errors) == FanoutOf(numbers[..i], message, senderId, queueError)
    {
      assert numbers[..i + 1][..i] == numbers[..i];
      var number := numbers[i];
      match queueError(number) {
        case None =>
          jobs := jobs + [SendSms(number, message, senderId, None, None)];
          sentCount := sentCount + 1;
        case Some(e) =>
          failedCount := failedCount + 1;
          errors := errors + [DispatchError(number, e)];
      }
      i := i + 1;
    }
    assert numbers[..i] == numbers;
    f := Fanout(jobs, sentCount, failedCount, errors);
  }

  /**
   * `ProcessScheduledMessage::handle`: nothing happens unless the message
   * exists and is pending; otherwise it is marked processing, fanned out to
   * the distinct numbers, and marked sent with the counters.
   */
  method Process(table: ScheduledTable, contacts: ContactTable, groups: GroupStore, id: nat,
                 queueError: string -> Option<string>, norm: Normalizer, now: int)
    returns (dispatched: seq<Job>)
    modifies table
    ensures table.nextId == old(table.nextId)
    ensures !(id in old(table.rows) && old(table.rows)[id].status == Pending) ==>
              table.rows == old(table.rows) && dispatched == []
    ensures id in old(table.rows) && old(table.rows)[id].status == Pending ==>
              var m := old(table.rows)[id];
              var f := FanoutOf(Targets(m, contacts, groups, norm), m.message, m.senderId, queueError);
              dispatched == f.jobs && table.rows == old(table.rows)[id := Finished(m, f, now)]
  {
    if id !in table.rows || table.rows[id].status != Pending {
      return [];
    }
    var m := table.rows[id].(status := Processing);
    table.rows := table.rows[id := m];

    var numbers := GatherNumbers(m.recipientData, contacts, groups, norm);
    numbers := Unique(numbers);
    var f := Dispatch(numbers, m.message, m.senderId, queueError);
    table.rows := table.rows[id := Finished(m, f, now)];
    assert Finished(m, f, now) == Finished(old(table.rows)[id], f, now);
    dispatched := f.jobs;
  }

  /**
   * Running the job twice for one message fans it out once: the first run
   * leaves it sent, so the second changes nothing and queues nothing.
   */
  method ProcessTwice(table: ScheduledTable, contacts: ContactTable, groups: GroupStore, id: nat,
                      queueError: string -> Option<string>, norm: Normalizer, now: int, later: int)
    returns (first: seq<Job>, second: seq<Job>)
    modifies table
    ensures second == []
    ensures id in old(table.rows) && old(table.rows)[id].status == Pending ==> id in table.rows && table.rows[id].status == Sent
  {
    first := Process(table, contacts, groups, id, queueError, norm, now);
    second := Process(table, contacts, groups, id, queueError, norm, later);
  }

  /** Each queued number is distinct: nobody receives the message twice from one run. */
  lemma JobsDistinct(m: ScheduledMessage, contacts: ContactTable, groups: GroupStore, norm: Normalizer,
                     queueError: string -> Option<string>)
    ensures DistinctMobiles(FanoutOf(Targets(m, contacts, groups, norm), m.message, m.senderId, queueError).jobs)
  {
    var ns := Targets(m, contacts, groups, norm);
    FanoutOrdered(ns, m.message, m.senderId, queueError);
  }

  /** No two of the jobs send to the same number. */
  predicate DistinctMobiles(jobs: seq<Job>)
  {
    forall i, j :: 0 <= i < j < |jobs| && jobs[i].SendSms? && jobs[j].SendSms? ==> jobs[i].mobile != jobs[j].mobile
  }

  /** Distinct numbers give jobs to distinct numbers. */
  lemma {:induction false} FanoutOrdered(numbers: seq<string>, message: string, senderId: string,
                                         queueError: string -> Option<string>)
    requires forall i, j :: 0 <= i < j < |numbers| ==> numbers[i] != numbers[j]
    ensures DistinctMobiles(FanoutOf(numbers, message, senderId, queueError).jobs)
  {
    if numbers != [] {
      var init := numbers[..|numbers| - 1];
      FanoutOrdered(init, message, senderId, queueError);
      var n := numbers[|numbers| - 1];
      assert n !in init;
      var f0 := FanoutOf(init, message, senderId, queueError);
      forall i | 0 <= i < |f0.jobs| ensures f0.jobs[i].mobile != n {
        assert f0.jobs[i].mobile in init;
      }
      var f := FanoutOf(numbers, message, senderId, queueError);
      if queueError(n).None? {
        assert f.jobs == f0.jobs + [SendSms(n, message, senderId, None, None)];
        forall i, j | 0 <= i < j < |f.jobs| ensures f.jobs[i].mobile != f.jobs[j].mobile {
          assert f.jobs[i] == f0.jobs[i];
          if j < |f0.jobs| {
            assert f.jobs[j] == f0.jobs[j];
            assert f0.jobs[i].mobile != f0.jobs[j].mobile;
          }
        }
      } else {
        assert f.jobs == f0.jobs;
        forall i, j | 0 <= i < j < |f.jobs| ensures f.jobs[i].mobile != f.jobs[j].mobile {
          assert f0.jobs[i].mobile != f0.jobs[j].mobile;
        }
      }
    }
  }
}
