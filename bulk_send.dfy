/**
 * Bulk sending from an uploaded file: `BulkSendFromFile` sends one text to
 * the numbers of one column, and `BulkSendPersonalized` sends each row its
 * own text with `{{mobile}}` and `{{name}}` filled in, optionally saving
 * the named rows as contacts. The parsed rows arrive as a parameter.
 */
module BulkSend {
  import opened Wrappers
  import opened Strings
  import opened Rows
  import opened Platform
  import opened Contacts
  import opened Personalizer

  // ------------------------------------------------------------ one column, one text

  /** The column read when none is given. */
  const DefaultMobileColumn := "mobile"

  /**
   * The number one row is sent to, if any: the column must hold a truthy
   * value that `validatePhone` accepts (`isValid` is PhoneNumber's
   * `isValid()`, false where it throws) and that formats as E.164.
   */
  function FileRowNumber(row: Row, column: string, isValid: string -> bool, norm: Normalizer): (n: Option<string>)
    ensures n.Some? ==> Truthy(Get(row, column)) && isValid(Get(row, column).value)
                        && n == norm(Get(row, column).value, PH)
    ensures Truthy(Get(row, column)) && isValid(Get(row, column).value) ==> n == norm(Get(row, column).value, PH)
  {
    var mobile := Get(row, column);
    if !Truthy(mobile) || !isValid(mobile.value) then None else norm(mobile.value, PH)
  }

  /** The `recipients` of the response: the numbers of the rows that are sent to, in row order. */
  function FileRecipients(rows: seq<Row>, column: string, isValid: string -> bool, norm: Normalizer): (ns: seq<string>)
    ensures |ns| <= |rows|
  {
    if rows == [] then []
    else
      var init := FileRecipients(rows[..|rows| - 1], column, isValid, norm);
      match FileRowNumber(rows[|rows| - 1], column, isValid, norm)
      case Some(n) => init + [n]
      case None => init
  }

  /** A file whose column is missing or empty in every row queues nothing: every row is invalid. */
  lemma {:induction false} NoColumnNoRecipients(rows: seq<Row>, column: string, isValid: string -> bool, norm: Normalizer)
    requires forall i :: 0 <= i < |rows| ==> !Truthy(Get(rows[i], column))
    ensures FileRecipients(rows, column, isValid, norm) == []
  {
    if rows != [] {
      NoColumnNoRecipients(rows[..|rows| - 1], column, isValid, norm);
    }
  }

  /** When every row holds a valid number, every row is queued, in order. */
  lemma {:induction false} AllValidAllQueued(rows: seq<Row>, column: string, isValid: string -> bool, norm: Normalizer)
    requires forall i :: 0 <= i < |rows| ==> FileRowNumber(rows[i], column, isValid, norm).Some?
    ensures |FileRecipients(rows, column, isValid, norm)| == |rows|
    ensures forall i :: 0 <= i < |rows| ==>
              FileRecipients(rows, column, isValid, norm)[i] == FileRowNumber(rows[i], column, isValid, norm).value
  {
    if rows != [] {
      var n := |rows| - 1;
      var init := FileRecipients(rows[..n], column, isValid, norm);
      assert forall i :: 0 <= i < n ==> FileRowNumber(rows[..n][i], column, isValid, norm).Some? by {
        forall i | 0 <= i < n ensures rows[..n][i] == rows[i] { }
      }
      AllValidAllQueued(rows[..n], column, isValid, norm);
      assert FileRecipients(rows, column, isValid, norm) == init + [FileRowNumber(rows[n], column, isValid, norm).value];
      forall i | 0 <= i < |rows|
        ensures FileRecipients(rows, column, isValid, norm)[i] == FileRowNumber(rows[i], column, isValid, norm).value
      {
        if i < n {
          assert rows[..n][i] == rows[i];
        }
      }
    }
  }

  /** The response of `BulkSendFromFile::handle` besides its constant status 'queued'. */
  datatype FileResult = FileResult(queued: nat, invalid: nat, recipients: seq<string>)

  /**
   * `BulkSendFromFile::handle`: one `SendSMSJob` per row with a valid
   * number, for the given user; every other row counts as invalid.
   */
  method BulkSendFromFile(rows: seq<Row>, message: string, senderId: string, userId: nat, mobileColumn: string,
                          isValid: string -> bool, norm: Normalizer)
    returns (result: FileResult, dispatched: seq<Job>)
    ensures result.recipients == FileRecipients(rows, mobileColumn, isValid, norm)
    ensures result.queued == |result.recipients| && result.queued + result.invalid == |rows|
    ensures |dispatched| == result.queued
    ensures forall k :: 0 <= k < |dispatched| ==>
              dispatched[k] == SendSms(result.recipients[k], message, senderId, None, Some(userId))
  {
    var queued := 0;
    var invalid := 0;
    var recipients: seq<string> := [];
    dispatched := [];
    var i := 0;
    while i < |rows|
      invariant 0 <= i <= |rows|
      invariant recipients == FileRecipients(rows[..i], mobileColumn, isValid, norm)
      invariant queued == |recipients| && queued + invalid == i && |dispatched| == queued
      invariant forall k :: 0 <= k < |dispatched| ==>
                  dispatched[k] == SendSms(recipients[k], message, senderId, None, Some(userId))
    {
      assert rows[..i + 1][..i] == rows[..i];
      var mobile := Get(rows[i], mobileColumn);
      if !Truthy(mobile) || !isValid(mobile.value) {
        invalid := invalid + 1;
      } else {
        match norm(mobile.value, PH) {
          case Some(e164) =>
            dispatched := dispatched + [SendSms(e164, message, senderId, None, Some(userId))];
            recipients := recipients + [e164];
            queued := queued + 1;
          case None =>
            invalid := invalid + 1;
        }
      }
      i := i + 1;
    }
    assert rows[..i] == rows;
    result := FileResult(queued, invalid, recipients);
  }

  // ------------------------------------------------------------ personalised rows

  /** The two file layouts `detectStructure` accepts. */
  datatype Structure = MobileMessage | MobileNameMessage

  const EmptyFile := "File is empty or could not be parsed"
  const InvalidStructure := "Invalid CSV structure. Expected columns: \"mobile,message\" OR \"mobile,name,message\""

  /** The `format` string of the response. */
  function FormatName(s: Structure): (name: string)
    ensures name == "mobile_message" <==> s == MobileMessage
    ensures name == "mobile_name_message" <==> s == MobileNameMessage
  {
    match s
    case MobileMessage => "mobile_message"
    case MobileNameMessage => "mobile_name_message"
  }

  /** `detectStructure`: exactly the columns mobile, message, or exactly mobile, name, message, in that order. */
  function DetectStructure(columns: seq<string>): (r: Result<Structure, string>)
    ensures r == Ok(MobileMessage) <==> columns == ["mobile", "message"]
    ensures r == Ok(MobileNameMessage) <==> columns == ["mobile", "name", "message"]
    ensures r.Err? <==> columns != ["mobile", "message"] && columns != ["mobile", "name", "message"]
    ensures r.Err? ==> r.error == InvalidStructure
  {
    if |columns| == 2 && columns[0] == "mobile" && columns[1] == "message" then
      assert columns == ["mobile", "message"];
      Ok(MobileMessage)
    else if |columns| == 3 && columns[0] == "mobile" && columns[1] == "name" && columns[2] == "message" then
      assert columns == ["mobile", "name", "message"];
      Ok(MobileNameMessage)
    else
      Err(InvalidStructure)
  }

  /** What `extractRowData` reads from a row: the name only in the three-column layout. */
  datatype RowData = RowData(mobile: Cell, name: Cell, message: Cell)

  function ExtractRowData(row: Row, structure: Structure): (d: RowData)
    ensures d.mobile == Get(row, "mobile") && d.message == Get(row, "message")
    ensures d.name == (if structure == MobileMessage then None else Get(row, "name"))
  {
    match structure
    case MobileMessage => RowData(Get(row, "mobile"), None, Get(row, "message"))
    case MobileNameMessage => RowData(Get(row, "mobile"), Get(row, "name"), Get(row, "message"))
  }

  /** The fate of one row: invalid, or queued as a job, with whether a contact was saved for it. */
  datatype RowResult = Invalid | Queued(job: Job, imported: bool)

  /** The variables of a row's text: its E.164 number and its name, or '' without one. */
  function RowVariables(e164: string, name: Cell): Variables
  {
    [("mobile", e164), ("name", name.OrElse(""))]
  }

  /**
   * One pass of the loop: a row without a truthy mobile or message, or
   * whose number does not format, is invalid; otherwise its personalised
   * text is queued, and a contact counts as imported when importing is on,
   * the row is named, and `createFromArray` returns one (it needs an owner
   * and a number that parses again).
   */
  function PersonalizedRow(row: Row, structure: Structure, senderId: string, importContacts: bool,
                           authId: Option<nat>, norm: Normalizer): (r: RowResult)
    ensures r.Queued? <==> Truthy(Get(row, "mobile")) && Truthy(Get(row, "message"))
                           && norm(Get(row, "mobile").value, PH).Some?
    ensures r.Queued? ==>
              var e164 := norm(Get(row, "mobile").value, PH).value;
              var d := ExtractRowData(row, structure);
              r.job == SendSms(e164, Personalized(d.message.value, RowVariables(e164, d.name)), senderId, None, None)
              && (r.imported <==> importContacts && Truthy(d.name) && authId.OrElse(0) != 0
                                  && !IsFalsy(e164) && norm(e164, PH).Some?)
  {
    var d := ExtractRowData(row, structure);
    if !Truthy(d.mobile) || !Truthy(d.message) then Invalid
    else
      match norm(d.mobile.value, PH)
      case None => Invalid
      case Some(e164) =>
        var imported := importContacts && Truthy(d.name) && authId.OrElse(0) != 0
                        && !IsFalsy(e164) && norm(e164, PH).Some?;
        Queued(SendSms(e164, Personalized(d.message.value, RowVariables(e164, d.name)), senderId, None, None), imported)
  }

  /** The counters and jobs after a run of rows. */
  datatype Tally = Tally(queued: nat, invalid: nat, imported: nat, jobs: seq<Job>)

  function Counted(t: Tally, r: RowResult): (t': Tally)
  {
    match r
    case Invalid => t.(invalid := t.invalid + 1)
    case Queued(job, imported) =>
      t.(queued := t.queued + 1, imported := if imported then t.imported + 1 else t.imported, jobs := t.jobs + [job])
  }

  /** The loop of `handle` over all rows, as a fold. */
  function PersonalizedTally(rows: seq<Row>, structure: Structure, senderId: string, importContacts: bool,
                             authId: Option<nat>, norm: Normalizer): (t: Tally)
    ensures t.queued + t.invalid == |rows| && |t.jobs| == t.queued && t.imported <= t.queued
  {
    if rows == [] then Tally(0, 0, 0, [])
    else
      Counted(PersonalizedTally(rows[..|rows| - 1], structure, senderId, importContacts, authId, norm),
              PersonalizedRow(rows[|rows| - 1], structure, senderId, importContacts, authId, norm))
  }

  /** With importing turned off, or in the two-column layout (no names), no contact is imported. */
  lemma {:induction false} NoImportWithoutNames(rows: seq<Row>, structure: Structure, senderId: string,
                                                importContacts: bool, authId: Option<nat>, norm: Normalizer)
    requires !importContacts || structure == MobileMessage
    ensures PersonalizedTally(rows, structure, senderId, importContacts, authId, norm).imported == 0
  {
    if rows != [] {
      NoImportWithoutNames(rows[..|rows| - 1], structure, senderId, importContacts, authId, norm);
    }
  }

  /**
   * The contacts table after one row: only a row that is queued, with
   * importing on and a name, goes through `createFromArray`; every other
   * row leaves the table as it was.
   */
  function RowContacts(t: ContactState, row: Row, structure: Structure, importContacts: bool,
                       authId: Option<nat>, defaults: ContactDefaults, norm: Normalizer): (t': ContactState)
    requires Consistent(t)
    ensures Consistent(t') && t.nextId <= t'.nextId
  {
    var d := ExtractRowData(row, structure);
    if !Truthy(d.mobile) || !Truthy(d.message) then t
    else
      match norm(d.mobile.value, PH)
      case None => t
      case Some(e164) =>
        if importContacts && Truthy(d.name) then FromArray(t, Some(e164), d.name, None, None, authId, defaults, norm).1
        else t
  }

  /** The contacts table after a run of rows. */
  function ContactsAfter(t: ContactState, rows: seq<Row>, structure: Structure, importContacts: bool,
                         authId: Option<nat>, defaults: ContactDefaults, norm: Normalizer): (t': ContactState)
    requires Consistent(t)
    ensures Consistent(t') && t.nextId <= t'.nextId
  {
    if rows == [] then t
    else
      RowContacts(ContactsAfter(t, rows[..|rows| - 1], structure, importContacts, authId, defaults, norm),
                  rows[|rows| - 1], structure, importContacts, authId, defaults, norm)
  }

  /** With importing turned off, or in the two-column layout, the contacts table is left alone. */
  lemma {:induction false} ContactsUntouched(t: ContactState, rows: seq<Row>, structure: Structure,
                                             importContacts: bool, authId: Option<nat>,
                                             defaults: ContactDefaults, norm: Normalizer)
    requires Consistent(t)
    requires !importContacts || structure == MobileMessage
    ensures ContactsAfter(t, rows, structure, importContacts, authId, defaults, norm) == t
  {
    if rows != [] {
      ContactsUntouched(t, rows[..|rows| - 1], structure, importContacts, authId, defaults, norm);
    }
  }

  /** A row counted as imported has a contact of the sender's user under its E.164 number in `t`. */
  ghost predicate RowStored(t: ContactState, row: Row, structure: Structure, importContacts: bool,
                            authId: Option<nat>, norm: Normalizer)
  {
    var r := PersonalizedRow(row, structure, "", importContacts, authId, norm);
    r.Queued? && r.imported ==> Stores(t, norm(Get(row, "mobile").value, PH).value, authId.value)
  }

  /** A later row never takes away a contact an earlier row left. */
  lemma RowKeepsStored(t: ContactState, row: Row, earlier: Row, structure: Structure, importContacts: bool,
                       authId: Option<nat>, defaults: ContactDefaults, norm: Normalizer)
    requires Consistent(t) && RowStored(t, earlier, structure, importContacts, authId, norm)
    ensures RowStored(RowContacts(t, row, structure, importContacts, authId, defaults, norm),
                      earlier, structure, importContacts, authId, norm)
  {
    var r := PersonalizedRow(earlier, structure, "", importContacts, authId, norm);
    var d := ExtractRowData(row, structure);
    if r.Queued? && r.imported && Truthy(d.mobile) && Truthy(d.message) && norm(d.mobile.value, PH).Some?
       && importContacts && Truthy(d.name) {
      FromArrayKeeps(t, Some(norm(d.mobile.value, PH).value), d.name, None, None, authId, defaults, norm,
                     norm(Get(earlier, "mobile").value, PH).value, authId.value);
    }
  }

  /** With a normaliser that keeps E.164 numbers as they are, a row counted as imported leaves its contact. */
  lemma RowStoresOwn(t: ContactState, row: Row, structure: Structure, importContacts: bool,
                     authId: Option<nat>, defaults: ContactDefaults, norm: Normalizer)
    requires Consistent(t) && Idempotent(norm)
    ensures RowStored(RowContacts(t, row, structure, importContacts, authId, defaults, norm),
                      row, structure, importContacts, authId, norm)
  {
    var r := PersonalizedRow(row, structure, "", importContacts, authId, norm);
    if r.Queued? && r.imported {
      var e164 := norm(Get(row, "mobile").value, PH).value;
      FromArrayStores(t, Some(e164), ExtractRowData(row, structure).name, None, None, authId, defaults, norm);
      assert norm(e164, PH) == Some(e164);
    }
  }

  /**
   * With a normaliser that keeps E.164 numbers as they are, every row the
   * run counts as imported has its contact in the table afterwards, owned
   * by the sending user.
   */
  lemma {:induction false} ImportedRowsStored(t: ContactState, rows: seq<Row>, structure: Structure,
                                              importContacts: bool, authId: Option<nat>,
                                              defaults: ContactDefaults, norm: Normalizer)
    requires Consistent(t) && Idempotent(norm)
    ensures var t' := ContactsAfter(t, rows, structure, importContacts, authId, defaults, norm);
            forall k :: 0 <= k < |rows| ==> RowStored(t', rows[k], structure, importContacts, authId, norm)
  {
    if rows != [] {
      var n := |rows| - 1;
      var mid := ContactsAfter(t, rows[..n], structure, importContacts, authId, defaults, norm);
      ImportedRowsStored(t, rows[..n], structure, importContacts, authId, defaults, norm);
      forall k | 0 <= k < |rows|
        ensures RowStored(RowContacts(mid, rows[n], structure, importContacts, authId, defaults, norm),
                          rows[k], structure, importContacts, authId, norm)
      {
        if k < n {
          assert rows[..n][k] == rows[k];
          RowKeepsStored(mid, rows[n], rows[k], structure, importContacts, authId, defaults, norm);
        } else {
          RowStoresOwn(mid, rows[n], structure, importContacts, authId, defaults, norm);
        }
      }
    }
  }

  /** The response of `BulkSendPersonalized::handle` besides its constant status 'queued'. */
  datatype PersonalizedResult = PersonalizedResult(queued: nat, invalid: nat, format: string, contactsImported: nat)

  /** One row of the loop, calling `createFromArray` when the row is to be imported. */
  method SendRow(contacts: ContactTable, row: Row, structure: Structure, senderId: string, importContacts: bool,
                 authId: Option<nat>, defaults: ContactDefaults, norm: Normalizer)
    returns (r: RowResult)
    requires contacts.Valid()
    modifies contacts
    ensures contacts.Valid()
    ensures r == PersonalizedRow(row, structure, senderId, importContacts, authId, norm)
    ensures contacts.State() == RowContacts(old(contacts.State()), row, structure, importContacts, authId, defaults, norm)
  {
    var data := ExtractRowData(row, structure);
    if !Truthy(data.mobile) || !Truthy(data.message) {
      return Invalid;
    }
    var phone := norm(data.mobile.value, PH);
    if phone.None? {
      return Invalid;
    }
    var e164 := phone.value;
    var imported := false;
    if importContacts && Truthy(data.name) {
      var contact := contacts.CreateFromArray(Some(e164), data.name, None, None, authId, defaults, norm);
      imported := contact.Some?;
    }
    var text := Personalize(data.message.value, RowVariables(e164, data.name));
    return Queued(SendSms(e164, text, senderId, None, None), imported);
  }

  /** The loop of `handle` over the rows, once the layout is known. */
  method SendRows(contacts: ContactTable, rows: seq<Row>, structure: Structure, senderId: string, importContacts: bool,
                  authId: Option<nat>, defaults: ContactDefaults, norm: Normalizer)
    returns (t: Tally)
    requires contacts.Valid()
    modifies contacts
    ensures contacts.Valid()
    ensures t == PersonalizedTally(rows, structure, senderId, importContacts, authId, norm)
    ensures contacts.State() == ContactsAfter(old(contacts.State()), rows, structure, importContacts, authId, defaults, norm)
  {
    t := Tally(0, 0, 0, []);
    ghost var before := contacts.State();
    var i := 0;
    while i < |rows|
      invariant 0 <= i <= |rows|
      invariant contacts.Valid()
      invariant t == PersonalizedTally(rows[..i], structure, senderId, importContacts, authId, norm)
      invariant contacts.State() == ContactsAfter(before, rows[..i], structure, importContacts, authId, defaults, norm)
    {
      assert rows[..i + 1][..i] == rows[..i];
      var outcome := SendRow(contacts, rows[i], structure, senderId, importContacts, authId, defaults, norm);
      t := Counted(t, outcome);
      i := i + 1;
    }
    assert rows[..i] == rows;
  }

  /**
   * `BulkSendPersonalized::handle`: no rows, or a first row with other
   * columns, fails before anything is sent; otherwise every row is either
   * queued with its own text or counted invalid.
   */
  method BulkSendPersonalized(contacts: ContactTable, rows: seq<Row>, senderId: string, importContacts: bool,
                              authId: Option<nat>, defaults: ContactDefaults, norm: Normalizer)
    returns (r: Result<PersonalizedResult, string>, dispatched: seq<Job>)
    requires contacts.Valid()
    modifies contacts
    ensures contacts.Valid()
    ensures rows == [] ==> r == Err(EmptyFile) && dispatched == [] && contacts.rows == old(contacts.rows)
    ensures rows != [] && DetectStructure(Keys(rows[0])).Err? ==>
              r == Err(InvalidStructure) && dispatched == [] && contacts.rows == old(contacts.rows)
    ensures rows != [] && DetectStructure(Keys(rows[0])).Ok? ==>
              var s := DetectStructure(Keys(rows[0])).value;
              var t := PersonalizedTally(rows, s, senderId, importContacts, authId, norm);
              r == Ok(PersonalizedResult(t.queued, t.invalid, FormatName(s), t.imported)) && dispatched == t.jobs
              && contacts.State() == ContactsAfter(old(contacts.State()), rows, s, importContacts, authId, defaults, norm)
  {
    if rows == [] {
      return Err(EmptyFile), [];
    }
    var detected := DetectStructure(Keys(rows[0]));
    if detected.Err? {
      return Err(detected.error), [];
    }
    var structure := detected.value;
    var t := SendRows(contacts, rows, structure, senderId, importContacts, authId, defaults, norm);
    r := Ok(PersonalizedResult(t.queued, t.invalid, FormatName(structure), t.imported));
    dispatched := t.jobs;
  }
}
