/**
 * `ExportMessageHistory`: the user's message logs, filtered like the
 * message-history page, as CSV rows (a header and one row per log).
 */
module MessageExport {
  import opened Wrappers
  import opened Strings
  import opened Platform
  import opened MessageLogs
  import opened Contacts

  /** A log with its `created_at`; the export receives the user's logs newest first. */
  datatype LogEntry = LogEntry(log: MessageLog, createdAt: int)

  /** A timestamp formatted as `Y-m-d H:i:s`. */
  type Formatter = int -> string

  /** The status column as stored. */
  function StatusName(s: LogStatus): (name: string)
    ensures name in {"pending", "sent", "failed"}
  {
    match s
    case Pending => "pending"
    case Sent => "sent"
    case Failed => "failed"
  }

  // ------------------------------------------------------------ selection

  /** The status filter is used when it is truthy and not `all`. */
  predicate StatusFilterOn(status: Option<string>)
  {
    Truthy(status) && status.value != "all"
  }

  /** The query's conditions for one log: the user's, of the status asked for, and mentioning the search text. */
  predicate Selected(e: LogEntry, userId: nat, status: Option<string>, search: Option<string>)
  {
    && e.log.userId == userId
    && (StatusFilterOn(status) ==> StatusName(e.log.status) == status.value)
    && (Truthy(search) ==> Contains(e.log.recipient, search.value) || Contains(e.log.message, search.value))
  }

  /** The logs the query returns, in the order given. */
  function Select(logs: seq<LogEntry>, userId: nat, status: Option<string>, search: Option<string>)
    : (r: seq<LogEntry>)
    ensures |r| <= |logs|
    ensures forall e :: e in r <==> e in logs && Selected(e, userId, status, search)
  {
    if logs == [] then []
    else
      var init := Select(logs[..|logs| - 1], userId, status, search);
      var last := logs[|logs| - 1];
      assert logs == logs[..|logs| - 1] + [last];
      if Selected(last, userId, status, search) then init + [last] else init
  }

  /** A single log is exported iff it is selected. */
  lemma SelectOne(e: LogEntry, userId: nat, status: Option<string>, search: Option<string>)
    ensures Select([e], userId, status, search) == if Selected(e, userId, status, search) then [e] else []
  {
  }

  /**
   * The query distributes over concatenation: with `SelectOne`, every
   * selected log is exported once, in the order given, and nothing else.
   */
  lemma {:induction false} SelectAppend(a: seq<LogEntry>, b: seq<LogEntry>, userId: nat, status: Option<string>, search: Option<string>)
    ensures Select(a + b, userId, status, search) == Select(a, userId, status, search) + Select(b, userId, status, search)
    decreases |b|
  {
    if b == [] {
      assert a + b == a;
    } else {
      var init := b[..|b| - 1];
      assert (a + b)[..|a + b| - 1] == a + init;
      assert (a + b)[|a + b| - 1] == b[|b| - 1];
      SelectAppend(a, init, userId, status, search);
    }
  }

  /** Choosing the status `all` selects the same logs as choosing no status. */
  lemma {:induction false} AllStatusesIsNoFilter(logs: seq<LogEntry>, userId: nat, search: Option<string>)
    ensures Select(logs, userId, Some("all"), search) == Select(logs, userId, None, search)
  {
    if logs != [] {
      AllStatusesIsNoFilter(logs[..|logs| - 1], userId, search);
    }
  }

  /** With a status filter on, every selected log has that status. */
  lemma FilteredByStatus(logs: seq<LogEntry>, userId: nat, status: Option<string>, search: Option<string>)
    requires StatusFilterOn(status)
    ensures forall i :: 0 <= i < |Select(logs, userId, status, search)| ==>
              StatusName(Select(logs, userId, status, search)[i].log.status) == status.value
  {
    var r := Select(logs, userId, status, search);
    forall i | 0 <= i < |r|
      ensures StatusName(r[i].log.status) == status.value
    {
      assert r[i] in r;
    }
  }

  // ------------------------------------------------------------ cells

  /** `formatPhone`: a +63 number in the local form with a leading 0; any other string as it is. */
  function FormatPhone(mobile: string): (r: string)
    ensures StartsWith(mobile, "+63") ==> |r| == |mobile| - 2 && r[0] == '0' && "+63" + r[1..] == mobile
    ensures !StartsWith(mobile, "+63") ==> r == mobile
  {
    if StartsWith(mobile, "+63") then
      var r := "0" + mobile[3..];
      assert "+63" + r[1..] == mobile[..3] + mobile[3..];
      r
    else mobile
  }

  /** The header row. */
  const Header := ["Date/Time", "Status", "From (Sender)", "To (Recipient)", "Message", "Error", "Sent At", "Failed At"]

  /**
   * The recipient cell as written: it reads `contact_with_name`, which
   * `MessageLog` does not define, so the attribute is always null, the
   * name branch never runs, and the cell is the formatted number whatever
   * the contacts are.
   */
  function RecipientCellAsWritten(log: MessageLog, contacts: map<nat, Contact>, bound: nat): (cell: string)
    ensures StartsWith(log.recipient, "+63") ==> cell == "0" + log.recipient[3..]
    ensures !StartsWith(log.recipient, "+63") ==> cell == log.recipient
  {
    FormatPhone(log.recipient)
  }

  /** A contact whose mobile is exactly the log's recipient. */
  predicate HasMobile(recipient: string, c: Contact)
  {
    c.mobile == recipient
  }

  /** `$log->contact`: the first contact whose `mobile` equals the log's `recipient`. */
  function LogContact(log: MessageLog, contacts: map<nat, Contact>, bound: nat): (c: Option<Contact>)
    ensures c.Some? ==> c.value.mobile == log.recipient && c.value in contacts.Values
    ensures c.None? ==> forall id :: id in contacts && id < bound ==> contacts[id].mobile != log.recipient
  {
    var id := FirstMatch(contacts, c => HasMobile(log.recipient, c), 0, bound);
    if id.Some? then Some(contacts[id.value]) else None
  }

  /** The recipient cell as intended: "name (number)" when the log's contact has a name, else the number. */
  function RecipientCell(log: MessageLog, contacts: map<nat, Contact>, bound: nat): (cell: string)
    ensures var c := LogContact(log, contacts, bound);
            && (c.Some? && Truthy(c.value.name) ==>
                  cell == c.value.name.value + " (" + FormatPhone(log.recipient) + ")")
            && (!(c.Some? && Truthy(c.value.name)) ==> cell == FormatPhone(log.recipient))
  {
    var c := LogContact(log, contacts, bound);
    if c.Some? && Truthy(c.value.name) then c.value.name.value + " (" + FormatPhone(log.recipient) + ")"
    else FormatPhone(log.recipient)
  }

  /**
   * Whatever the contacts, the exported recipient never names anyone: a log
   * sent to a named contact shows only the number.
   */
  lemma NameNeverShown(log: MessageLog, contacts: map<nat, Contact>, bound: nat)
    requires LogContact(log, contacts, bound).Some? && Truthy(LogContact(log, contacts, bound).value.name)
    ensures RecipientCellAsWritten(log, contacts, bound) == FormatPhone(log.recipient)
    ensures RecipientCellAsWritten(log, contacts, bound) != RecipientCell(log, contacts, bound)
  {
    var name := LogContact(log, contacts, bound).value.name.value;
    assert |RecipientCell(log, contacts, bound)| == |name| + 2 + |FormatPhone(log.recipient)| + 1;
  }

  /** The example number, formatted for the export. */
  lemma ExamplePhone()
    ensures FormatPhone("+639171234567") == "09171234567"
  {
    var mobile := "+639171234567";
    assert StartsWith(mobile, "+63") by {
      assert mobile[..3] == "+63";
    }
    assert mobile[3..] == "9171234567";
  }

  /** The example log's contact is Ana. */
  lemma ExampleContact(log: MessageLog, ana: Contact)
    requires log.recipient == "+639171234567" && ana.mobile == log.recipient
    ensures LogContact(log, map[1 := ana], 2) == Some(ana)
  {
    var contacts := map[1 := ana];
    assert HasMobile(log.recipient, ana);
    assert FirstMatch(contacts, c => HasMobile(log.recipient, c), 1, 2) == Some(1);
  }

  /** A concrete case: a log to +639171234567, whose contact is Ana, is exported without her name. */
  lemma NamedContactExample()
    ensures var log := MessageLog(1, "+639171234567", "hi", Sent, "TXTCMDR", None, None, None, None);
            var contacts := map[1 := Contact(Some(1), "+639171234567", Some("PH"), None, Some("Ana"), None)];
            && RecipientCellAsWritten(log, contacts, 2) == "09171234567"
            && RecipientCell(log, contacts, 2) == "Ana (09171234567)"
  {
    var log := MessageLog(1, "+639171234567", "hi", Sent, "TXTCMDR", None, None, None, None);
    var ana := Contact(Some(1), "+639171234567", Some("PH"), None, Some("Ana"), None);
    ExamplePhone();
    ExampleContact(log, ana);
    assert "Ana" + " (" + "09171234567" + ")" == "Ana (09171234567)";
  }

  /** With the contact relation, a named contact's cell shows both the name and the number. */
  lemma NamedRecipientShown(log: MessageLog, contacts: map<nat, Contact>, bound: nat)
    requires LogContact(log, contacts, bound).Some? && Truthy(LogContact(log, contacts, bound).value.name)
    ensures Contains(RecipientCell(log, contacts, bound), LogContact(log, contacts, bound).value.name.value)
    ensures Contains(RecipientCell(log, contacts, bound), FormatPhone(log.recipient))
  {
    var name := LogContact(log, contacts, bound).value.name.value;
    var phone := FormatPhone(log.recipient);
    ContainsInfix("", name, " (" + phone + ")");
    assert "" + name + (" (" + phone + ")") == RecipientCell(log, contacts, bound);
    ContainsInfix(name + " (", phone, ")");
    assert name + " (" + phone + ")" == RecipientCell(log, contacts, bound);
  }

  /** A timestamp cell: formatted when set, empty when null. */
  function TimeCell(t: Option<int>, format: Formatter): (cell: string)
    ensures t.None? ==> cell == ""
    ensures t.Some? ==> cell == format(t.value)
  {
    if t.Some? then format(t.value) else ""
  }

  /** One data row: time, capitalised status, sender, recipient, message, error, sent and failed times. */
  function LogRow(e: LogEntry, contacts: map<nat, Contact>, bound: nat, format: Formatter): (row: seq<string>)
    ensures |row| == |Header|
    ensures row[0] == format(e.createdAt) && row[1] == UcFirst(StatusName(e.log.status))
    ensures row[2] == e.log.senderId && row[3] == RecipientCell(e.log, contacts, bound) && row[4] == e.log.message
    ensures row[5] == e.log.errorMessage.OrElse("")
    ensures row[6] == TimeCell(e.log.sentAt, format) && row[7] == TimeCell(e.log.failedAt, format)
  {
    [format(e.createdAt), UcFirst(StatusName(e.log.status)), e.log.senderId, RecipientCell(e.log, contacts, bound),
     e.log.message, e.log.errorMessage.OrElse(""), TimeCell(e.log.sentAt, format), TimeCell(e.log.failedAt, format)]
  }

  /** The data rows for a list of logs, in order. */
  function DataRows(logs: seq<LogEntry>, contacts: map<nat, Contact>, bound: nat, format: Formatter)
    : (rows: seq<seq<string>>)
    ensures |rows| == |logs|
    ensures forall i :: 0 <= i < |logs| ==> rows[i] == LogRow(logs[i], contacts, bound, format)
  {
    if logs == [] then []
    else DataRows(logs[..|logs| - 1], contacts, bound, format) + [LogRow(logs[|logs| - 1], contacts, bound, format)]
  }

  /** The rows of one more log are the rows so far and that log's row. */
  lemma DataRowsNext(logs: seq<LogEntry>, i: nat, contacts: map<nat, Contact>, bound: nat, format: Formatter)
    requires i < |logs|
    ensures DataRows(logs[..i + 1], contacts, bound, format)
            == DataRows(logs[..i], contacts, bound, format) + [LogRow(logs[i], contacts, bound, format)]
  {
    assert logs[..i + 1][..i] == logs[..i];
  }

  /** With a status filter on, the status column of every data row is that status, capitalised. */
  lemma StatusColumnMatchesFilter(logs: seq<LogEntry>, userId: nat, status: Option<string>, search: Option<string>,
                                  contacts: map<nat, Contact>, bound: nat, format: Formatter)
    requires StatusFilterOn(status)
    ensures var rows := DataRows(Select(logs, userId, status, search), contacts, bound, format);
            forall i :: 0 <= i < |rows| ==> rows[i][1] == UcFirst(status.value)
  {
    FilteredByStatus(logs, userId, status, search);
  }

  /** A log that failed without an error message has an empty error cell and, unless it was sent, an empty sent cell. */
  lemma FailedRowCells(e: LogEntry, contacts: map<nat, Contact>, bound: nat, format: Formatter)
    requires e.log.status == Failed && e.log.errorMessage.None? && e.log.sentAt.None?
    ensures LogRow(e, contacts, bound, format)[1] == "Failed"
    ensures LogRow(e, contacts, bound, format)[5] == "" && LogRow(e, contacts, bound, format)[6] == ""
  {
    var row := LogRow(e, contacts, bound, format);
    assert row[1] == UcFirst("failed");
  }

  /**
   * `handle`: the header, then one row per selected log in query order.
   * The recipient cell uses the log's contact, the behaviour the code evidently intends.
   */
  method ExportMessageHistory(logs: seq<LogEntry>, contacts: map<nat, Contact>, bound: nat, userId: nat,
                              status: Option<string>, search: Option<string>, format: Formatter)
    returns (csv: seq<seq<string>>)
    ensures |csv| == |Select(logs, userId, status, search)| + 1
    ensures csv == [Header] + DataRows(Select(logs, userId, status, search), contacts, bound, format)
  {
    var selected := Select(logs, userId, status, search);
    var rows: seq<seq<string>> := [];
    var i := 0;
    while i < |selected|
      invariant 0 <= i <= |selected|
      invariant rows == DataRows(selected[..i], contacts, bound, format)
    {
      var row := LogRow(selected[i], contacts, bound, format);
      DataRowsNext(selected, i, contacts, bound, format);
      rows := rows + [row];
      i := i + 1;
    }
    assert selected[..i] == selected;
    csv := [Header] + rows;
  }
}
