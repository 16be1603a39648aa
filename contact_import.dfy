/**
 * `ContactImportJob`: every row of an uploaded contact file goes through
 * `Contact::createFromArray`, and the contacts it returns are added to the
 * chosen group without removing them from any other.
 */
module ContactImport {
  import opened Wrappers
  import opened Strings
  import opened Rows
  import opened Platform
  import opened Contacts
  import opened Groups

  /** `$row['mobile'] ?? $row['phone'] ?? null`. */
  function RowMobile(row: Row): (m: Cell)
    ensures Get(row, "mobile").Some? ==> m == Get(row, "mobile")
    ensures Get(row, "mobile").None? ==> m == Get(row, "phone")
  {
    Get(row, "mobile").Or(Get(row, "phone"))
  }

  /** `syncWithoutDetaching([$id])` on one membership list: add the id at the end unless it is already there. */
  function SyncWithoutDetaching(members: seq<nat>, id: nat): (ms: seq<nat>)
    ensures id in ms
    ensures members <= ms
    ensures id in members ==> ms == members
    ensures id !in members ==> ms == members + [id]
  {
    if id in members then members else members + [id]
  }

  /** Syncing the same id twice is syncing it once. */
  lemma SyncIdempotent(members: seq<nat>, id: nat)
    ensures SyncWithoutDetaching(SyncWithoutDetaching(members, id), id) == SyncWithoutDetaching(members, id)
  {
  }

  /** The same groups, under the same names, each with its old members still first in its membership list. */
  predicate KeepsMemberships(groups: GroupStore, g': GroupStore)
  {
    g'.nextId == groups.nextId && g'.rows.Keys == groups.rows.Keys
    && forall id :: id in groups.rows ==>
         g'.rows[id].name == groups.rows[id].name && groups.rows[id].members <= g'.rows[id].members
  }

  /** Keeping memberships is transitive: a run of attachments keeps every earlier membership. */
  lemma KeepsTransitive(a: GroupStore, b: GroupStore, c: GroupStore)
    requires KeepsMemberships(a, b) && KeepsMemberships(b, c)
    ensures KeepsMemberships(a, c)
  {
  }

  /** Adding a contact to the group with id `groupId`, when one is given (and not 0) and exists. */
  function Attach(groups: GroupStore, groupId: Option<nat>, contact: nat): (g': GroupStore)
    ensures g'.nextId == groups.nextId && g'.rows.Keys == groups.rows.Keys
    ensures forall id :: id in groups.rows && Some(id) != groupId ==> g'.rows[id] == groups.rows[id]
    ensures KeepsMemberships(groups, g')
    ensures forall id :: id in groups.rows ==> g'.rows[id].userId == groups.rows[id].userId
    ensures groupId.Some? && groupId.value != 0 && groupId.value in groups.rows ==>
              contact in g'.rows[groupId.value].members
    ensures groupId.None? || groupId.value == 0 ==> g' == groups
  {
    if groupId.Some? && groupId.value != 0 && groupId.value in groups.rows then
      var g := groups.rows[groupId.value];
      groups.(rows := groups.rows[groupId.value := g.(members := SyncWithoutDetaching(g.members, contact))])
    else groups
  }

  /** `$imported`: the rows with a truthy mobile (or phone), whether or not a contact came of them. */
  function ImportedCount(rows: seq<Row>): (n: nat)
    ensures n <= |rows|
  {
    if rows == [] then 0
    else ImportedCount(rows[..|rows| - 1]) + (if Truthy(RowMobile(rows[|rows| - 1])) then 1 else 0)
  }

  /** A file whose rows all carry a mobile or phone imports every row and fails none. */
  lemma {:induction false} AllRowsImported(rows: seq<Row>)
    requires forall i :: 0 <= i < |rows| ==> Truthy(RowMobile(rows[i]))
    ensures ImportedCount(rows) == |rows|
  {
    if rows != [] {
      AllRowsImported(rows[..|rows| - 1]);
    }
  }

  /**
   * What one row returns and leaves in the contacts table: a row without a
   * mobile leaves it alone; any other row is what `createFromArray` makes
   * of its mobile, name and email for the signed-in user.
   */
  function RowContact(t: ContactState, row: Row, authId: Option<nat>, defaults: ContactDefaults, norm: Normalizer)
    : (r: (Option<nat>, ContactState))
    requires Consistent(t)
    ensures Consistent(r.1) && t.nextId <= r.1.nextId
  {
    if !Truthy(RowMobile(row)) then (None, t)
    else FromArray(t, RowMobile(row), Get(row, "name"), Get(row, "email"), None, authId, defaults, norm)
  }

  /** The contacts table after a run of rows. */
  function ContactsAfterImport(t: ContactState, rows: seq<Row>, authId: Option<nat>, defaults: ContactDefaults,
                               norm: Normalizer): (t': ContactState)
    requires Consistent(t)
    ensures Consistent(t') && t.nextId <= t'.nextId
  {
    if rows == [] then t
    else RowContact(ContactsAfterImport(t, rows[..|rows| - 1], authId, defaults, norm), rows[|rows| - 1],
                    authId, defaults, norm).1
  }

  /** One more row of the run adds one to the count iff it carries a mobile or phone. */
  lemma ImportedCountStep(rows: seq<Row>, i: nat)
    requires i < |rows|
    ensures ImportedCount(rows[..i + 1]) == ImportedCount(rows[..i]) + (if Truthy(RowMobile(rows[i])) then 1 else 0)
  {
    assert rows[..i + 1][..i] == rows[..i];
  }

  /** With nobody signed in, a run of rows leaves the contacts table as it was. */
  lemma {:induction false} NoContactsWithoutUser(t: ContactState, rows: seq<Row>, authId: Option<nat>,
                                                 defaults: ContactDefaults, norm: Normalizer)
    requires Consistent(t) && authId.OrElse(0) == 0
    ensures ContactsAfterImport(t, rows, authId, defaults, norm) == t
  {
    if rows != [] {
      NoContactsWithoutUser(t, rows[..|rows| - 1], authId, defaults, norm);
    }
  }

  /** A counted row with a signed-in user and a number that parses has its contact, owned by that user, in `t`. */
  ghost predicate RowSaved(t: ContactState, row: Row, authId: Option<nat>, norm: Normalizer)
  {
    Truthy(RowMobile(row)) && authId.OrElse(0) != 0 && norm(RowMobile(row).value, PH).Some?
    ==> Stores(t, norm(RowMobile(row).value, PH).value, authId.value)
  }

  /** A later row never takes away a contact an earlier row left. */
  lemma RowKeepsSaved(t: ContactState, row: Row, earlier: Row, authId: Option<nat>, defaults: ContactDefaults,
                      norm: Normalizer)
    requires Consistent(t) && RowSaved(t, earlier, authId, norm)
    ensures RowSaved(RowContact(t, row, authId, defaults, norm).1, earlier, authId, norm)
  {
    if Truthy(RowMobile(earlier)) && authId.OrElse(0) != 0 && norm(RowMobile(earlier).value, PH).Some?
       && Truthy(RowMobile(row)) {
      FromArrayKeeps(t, RowMobile(row), Get(row, "name"), Get(row, "email"), None, authId, defaults, norm,
                     norm(RowMobile(earlier).value, PH).value, authId.value);
    }
  }

  /** With a normaliser that keeps E.164 numbers as they are, a row that yields a contact leaves it in the table. */
  lemma RowSavesOwn(t: ContactState, row: Row, authId: Option<nat>, defaults: ContactDefaults, norm: Normalizer)
    requires Consistent(t) && Idempotent(norm)
    ensures RowSaved(RowContact(t, row, authId, defaults, norm).1, row, authId, norm)
  {
    if Truthy(RowMobile(row)) && authId.OrElse(0) != 0 && norm(RowMobile(row).value, PH).Some? {
      FromArrayStores(t, RowMobile(row), Get(row, "name"), Get(row, "email"), None, authId, defaults, norm);
    }
  }

  /**
   * With a normaliser that keeps E.164 numbers as they are, every counted
   * row with a signed-in user and a number that parses has its contact in
   * the table after the run, owned by that user.
   */
  lemma {:induction false} ImportedRowsSaved(t: ContactState, rows: seq<Row>, authId: Option<nat>,
                                             defaults: ContactDefaults, norm: Normalizer)
    requires Consistent(t) && Idempotent(norm)
    ensures var t' := ContactsAfterImport(t, rows, authId, defaults, norm);
            forall k :: 0 <= k < |rows| ==> RowSaved(t', rows[k], authId, norm)
  {
    if rows != [] {
      var n := |rows| - 1;
      var mid := ContactsAfterImport(t, rows[..n], authId, defaults, norm);
      ImportedRowsSaved(t, rows[..n], authId, defaults, norm);
      forall k | 0 <= k < |rows|
        ensures RowSaved(RowContact(mid, rows[n], authId, defaults, norm).1, rows[k], authId, norm)
      {
        if k < n {
          assert rows[..n][k] == rows[k];
          RowKeepsSaved(mid, rows[n], rows[k], authId, defaults, norm);
        } else {
          RowSavesOwn(mid, rows[n], authId, defaults, norm);
        }
      }
    }
  }

  /** The contact row `k` of the run returns, on the table the rows before it left. */
  function RowContactAt(t: ContactState, rows: seq<Row>, k: nat, authId: Option<nat>, defaults: ContactDefaults,
                        norm: Normalizer): (c: Option<nat>)
    requires Consistent(t) && k < |rows|
    ensures c.Some? ==> Truthy(RowMobile(rows[k])) && authId.OrElse(0) != 0
  {
    RowContact(ContactsAfterImport(t, rows[..k], authId, defaults, norm), rows[k], authId, defaults, norm).0
  }

  /** A row's contact is the same whether the run goes on after it or not. */
  lemma RowContactAtPrefix(t: ContactState, rows: seq<Row>, n: nat, k: nat, authId: Option<nat>,
                           defaults: ContactDefaults, norm: Normalizer)
    requires Consistent(t) && k < n <= |rows|
    ensures RowContactAt(t, rows[..n], k, authId, defaults, norm) == RowContactAt(t, rows, k, authId, defaults, norm)
  {
    assert rows[..n][..k] == rows[..k];
    assert rows[..n][k] == rows[k];
  }

  /** The contacts the rows of a run return, one entry per row. */
  function ImportedContacts(t: ContactState, rows: seq<Row>, authId: Option<nat>, defaults: ContactDefaults,
                            norm: Normalizer): (cs: seq<Option<nat>>)
    requires Consistent(t)
    ensures |cs| == |rows|
  {
    if rows == [] then []
    else ImportedContacts(t, rows[..|rows| - 1], authId, defaults, norm) + [RowContactAt(t, rows, |rows| - 1, authId, defaults, norm)]
  }

  /** Entry `k` of the run's contacts is what row `k` returns. */
  lemma {:induction false} ImportedContactsAt(t: ContactState, rows: seq<Row>, authId: Option<nat>,
                                              defaults: ContactDefaults, norm: Normalizer)
    requires Consistent(t)
    ensures forall k :: 0 <= k < |rows| ==>
              ImportedContacts(t, rows, authId, defaults, norm)[k] == RowContactAt(t, rows, k, authId, defaults, norm)
  {
    if rows != [] {
      var n := |rows| - 1;
      var init := ImportedContacts(t, rows[..n], authId, defaults, norm);
      var cs := ImportedContacts(t, rows, authId, defaults, norm);
      assert cs == init + [RowContactAt(t, rows, n, authId, defaults, norm)];
      ImportedContactsAt(t, rows[..n], authId, defaults, norm);
      forall k | 0 <= k < n
        ensures cs[k] == RowContactAt(t, rows, k, authId, defaults, norm)
      {
        assert cs[k] == init[k];
        RowContactAtPrefix(t, rows, n, k, authId, defaults, norm);
      }
    }
  }

  /** Attaching each returned contact in turn to the chosen group; rows that return none change nothing. */
  function AttachAll(g: GroupStore, groupId: Option<nat>, cs: seq<Option<nat>>): (g': GroupStore)
    ensures KeepsMemberships(g, g')
    ensures forall id :: id in g.rows && Some(id) != groupId ==> g'.rows[id] == g.rows[id]
    ensures (forall k :: 0 <= k < |cs| ==> cs[k].None?) ==> g' == g
  {
    if cs == [] then g
    else
      var n := |cs| - 1;
      var g0 := AttachAll(g, groupId, cs[..n]);
      var g1 := if cs[n].Some? then Attach(g0, groupId, cs[n].value) else g0;
      KeepsTransitive(g, g0, g1);
      g1
  }

  /** The groups after a run of rows: each contact a row returns is attached to the chosen group in turn. */
  function GroupsAfterImport(g: GroupStore, t: ContactState, rows: seq<Row>, groupId: Option<nat>, authId: Option<nat>,
                             defaults: ContactDefaults, norm: Normalizer): (g': GroupStore)
    requires Consistent(t)
    ensures KeepsMemberships(g, g')
    ensures forall id :: id in g.rows && Some(id) != groupId ==> g'.rows[id] == g.rows[id]
    ensures authId.OrElse(0) == 0 ==> g' == g
  {
    if rows == [] then g
    else
      var n := |rows| - 1;
      var g0 := GroupsAfterImport(g, t, rows[..n], groupId, authId, defaults, norm);
      var c := RowContactAt(t, rows, n, authId, defaults, norm);
      var g1 := if c.Some? then Attach(g0, groupId, c.value) else g0;
      KeepsTransitive(g, g0, g1);
      g1
  }

  /** The groups after a run are those that attaching the run's contacts in turn leaves. */
  lemma {:induction false} GroupsAreAttachAll(g: GroupStore, t: ContactState, rows: seq<Row>, groupId: Option<nat>,
                                              authId: Option<nat>, defaults: ContactDefaults, norm: Normalizer)
    requires Consistent(t)
    ensures GroupsAfterImport(g, t, rows, groupId, authId, defaults, norm)
            == AttachAll(g, groupId, ImportedContacts(t, rows, authId, defaults, norm))
  {
    if rows != [] {
      var n := |rows| - 1;
      var cs := ImportedContacts(t, rows, authId, defaults, norm);
      GroupsAreAttachAll(g, t, rows[..n], groupId, authId, defaults, norm);
      assert cs[..n] == ImportedContacts(t, rows[..n], authId, defaults, norm);
      assert cs[n] == RowContactAt(t, rows, n, authId, defaults, norm);
    }
  }

  /** One more row of the run: the contact it returns, the table it leaves and the groups it leaves. */
  lemma ImportStep(g: GroupStore, t: ContactState, rows: seq<Row>, i: nat, groupId: Option<nat>, authId: Option<nat>,
                   defaults: ContactDefaults, norm: Normalizer, contact: Option<nat>, t': ContactState, g0: GroupStore,
                   g': GroupStore)
    requires Consistent(t) && i < |rows|
    requires (contact, t') == RowContact(ContactsAfterImport(t, rows[..i], authId, defaults, norm), rows[i], authId,
                                         defaults, norm)
    requires g0 == GroupsAfterImport(g, t, rows[..i], groupId, authId, defaults, norm)
    requires contact.None? ==> g' == g0
    requires contact.Some? ==> g' == Attach(g0, groupId, contact.value)
    ensures t' == ContactsAfterImport(t, rows[..i + 1], authId, defaults, norm)
    ensures g' == GroupsAfterImport(g, t, rows[..i + 1], groupId, authId, defaults, norm)
  {
    assert rows[..i + 1][..i] == rows[..i];
    assert rows[..i + 1][i] == rows[i];
  }

  /** A member of a group stays one when memberships are kept. */
  lemma MemberKept(g: GroupStore, g': GroupStore, id: nat, m: nat)
    requires KeepsMemberships(g, g') && id in g.rows && m in g.rows[id].members
    ensures m in g'.rows[id].members
  {
    var ms := g.rows[id].members;
    assert g'.rows[id].members[..|ms|] == ms;
  }

  /** When the chosen group exists, every contact attached is one of its members afterwards. */
  lemma {:induction false} AttachAllJoins(g: GroupStore, groupId: Option<nat>, cs: seq<Option<nat>>)
    requires groupId.Some? && groupId.value != 0 && groupId.value in g.rows
    ensures forall k :: 0 <= k < |cs| && cs[k].Some? ==> cs[k].value in AttachAll(g, groupId, cs).rows[groupId.value].members
  {
    if cs != [] {
      var n := |cs| - 1;
      var g0 := AttachAll(g, groupId, cs[..n]);
      var g' := AttachAll(g, groupId, cs);
      AttachAllJoins(g, groupId, cs[..n]);
      forall k | 0 <= k < n && cs[k].Some?
        ensures cs[k].value in g'.rows[groupId.value].members
      {
        assert cs[..n][k] == cs[k];
        MemberKept(g0, g', groupId.value, cs[k].value);
      }
    }
  }

  /** Every member attaching adds to the group `id` is one of the contacts, and `id` is the chosen group. */
  lemma {:induction false} AttachAllOnly(g: GroupStore, groupId: Option<nat>, cs: seq<Option<nat>>, id: nat)
    requires id in g.rows
    ensures forall m :: m in AttachAll(g, groupId, cs).rows[id].members && m !in g.rows[id].members ==>
              Some(id) == groupId && Some(m) in cs
  {
    if cs != [] {
      var n := |cs| - 1;
      var g0 := AttachAll(g, groupId, cs[..n]);
      var g' := AttachAll(g, groupId, cs);
      AttachAllOnly(g, groupId, cs[..n], id);
      forall m | m in g'.rows[id].members && m !in g.rows[id].members
        ensures Some(id) == groupId && Some(m) in cs
      {
        if m in g0.rows[id].members {
          var j :| 0 <= j < n && cs[..n][j] == Some(m);
          assert cs[j] == Some(m);
        } else {
          assert cs[n] == Some(m);
        }
      }
    }
  }

  /** When the chosen group exists, every contact a row returned is one of its members after the run. */
  lemma ImportedJoinGroup(g: GroupStore, t: ContactState, rows: seq<Row>, groupId: Option<nat>, authId: Option<nat>,
                          defaults: ContactDefaults, norm: Normalizer)
    requires Consistent(t) && groupId.Some? && groupId.value != 0 && groupId.value in g.rows
    ensures var g' := GroupsAfterImport(g, t, rows, groupId, authId, defaults, norm);
            forall k :: 0 <= k < |rows| && RowContactAt(t, rows, k, authId, defaults, norm).Some? ==>
              RowContactAt(t, rows, k, authId, defaults, norm).value in g'.rows[groupId.value].members
  {
    GroupsAreAttachAll(g, t, rows, groupId, authId, defaults, norm);
    ImportedContactsAt(t, rows, authId, defaults, norm);
    AttachAllJoins(g, groupId, ImportedContacts(t, rows, authId, defaults, norm));
  }

  /** Every member the run adds to any group joined the chosen group as the contact of some row. */
  lemma OnlyImportedJoin(g: GroupStore, t: ContactState, rows: seq<Row>, groupId: Option<nat>, authId: Option<nat>,
                         defaults: ContactDefaults, norm: Normalizer, id: nat)
    requires Consistent(t) && id in g.rows
    ensures var g' := GroupsAfterImport(g, t, rows, groupId, authId, defaults, norm);
            forall m :: m in g'.rows[id].members && m !in g.rows[id].members ==>
              Some(id) == groupId && exists k :: 0 <= k < |rows| && RowContactAt(t, rows, k, authId, defaults, norm) == Some(m)
  {
    var cs := ImportedContacts(t, rows, authId, defaults, norm);
    GroupsAreAttachAll(g, t, rows, groupId, authId, defaults, norm);
    ImportedContactsAt(t, rows, authId, defaults, norm);
    AttachAllOnly(g, groupId, cs, id);
    forall m | Some(m) in cs
      ensures exists k :: 0 <= k < |rows| && RowContactAt(t, rows, k, authId, defaults, norm) == Some(m)
    {
      var k :| 0 <= k < |cs| && cs[k] == Some(m);
    }
  }

  /**
   * One pass of the loop: a row without a mobile fails; any other row is
   * handed to `createFromArray`, and a contact it returns joins the group.
   */
  method ImportRow(contacts: ContactTable, groups: GroupStore, row: Row, groupId: Option<nat>, authId: Option<nat>,
                   defaults: ContactDefaults, norm: Normalizer)
    returns (counted: bool, contact: Option<nat>, groups': GroupStore)
    requires contacts.Valid()
    modifies contacts
    ensures contacts.Valid()
    ensures counted <==> Truthy(RowMobile(row))
    ensures contact.Some? <==> counted && authId.OrElse(0) != 0 && norm(RowMobile(row).value, PH).Some?
    ensures contact.None? ==> groups' == groups && contacts.rows == old(contacts.rows)
    ensures contact.Some? ==> contact.value in contacts.rows && groups' == Attach(groups, groupId, contact.value)
    ensures contact.Some? ==>
              var c := contacts.rows[contact.value];
              && c.userId == authId
              && (Get(row, "name").Some? ==> c.name == Get(row, "name"))
              && (Get(row, "email").Some? ==> c.email == Get(row, "email"))
              && (Idempotent(norm) ==> c.mobile == norm(RowMobile(row).value, PH).value)
    ensures old(contacts.rows).Keys <= contacts.rows.Keys
    ensures forall id :: id in old(contacts.rows) && Some(id) != contact ==> contacts.rows[id] == old(contacts.rows)[id]
    ensures KeepsMemberships(groups, groups')
    ensures (contact, contacts.State()) == RowContact(old(contacts.State()), row, authId, defaults, norm)
  {
    var mobile := RowMobile(row);
    if !Truthy(mobile) {
      return false, None, groups;
    }
    contact := contacts.CreateFromArray(mobile, Get(row, "name"), Get(row, "email"), None, authId, defaults, norm);
    groups' := groups;
    if contact.Some? && groupId.Some? && groupId.value != 0 {
      groups' := Attach(groups, groupId, contact.value);
    } else if contact.Some? {
      assert Attach(groups, groupId, contact.value) == groups;
    }
    counted := true;
  }

  /** Row `i` of a run, after the rows before it: `ImportRow` moves the table and the groups one row along the folds. */
  method ImportNextRow(contacts: ContactTable, groups: GroupStore, g0: GroupStore, rows: seq<Row>, i: nat,
                       groupId: Option<nat>, authId: Option<nat>, defaults: ContactDefaults, norm: Normalizer,
                       ghost before: ContactState)
    returns (counted: bool, g1: GroupStore)
    requires contacts.Valid() && Consistent(before) && i < |rows|
    requires contacts.State() == ContactsAfterImport(before, rows[..i], authId, defaults, norm)
    requires g0 == GroupsAfterImport(groups, before, rows[..i], groupId, authId, defaults, norm)
    modifies contacts
    ensures contacts.Valid()
    ensures counted <==> Truthy(RowMobile(rows[i]))
    ensures contacts.State() == ContactsAfterImport(before, rows[..i + 1], authId, defaults, norm)
    ensures g1 == GroupsAfterImport(groups, before, rows[..i + 1], groupId, authId, defaults, norm)
  {
    var contact;
    counted, contact, g1 := ImportRow(contacts, g0, rows[i], groupId, authId, defaults, norm);
    ImportStep(groups, before, rows, i, groupId, authId, defaults, norm, contact, contacts.State(), g0, g1);
  }

  /** The loop of `handle`: each row in turn goes through `ImportRow`, counted as imported or failed. */
  method ImportRows(contacts: ContactTable, groups: GroupStore, rows: seq<Row>, groupId: Option<nat>,
                    authId: Option<nat>, defaults: ContactDefaults, norm: Normalizer)
    returns (imported: nat, failed: nat, groups': GroupStore)
    requires contacts.Valid()
    modifies contacts
    ensures contacts.Valid()
    ensures imported == ImportedCount(rows) && imported + failed == |rows|
    ensures contacts.State() == ContactsAfterImport(old(contacts.State()), rows, authId, defaults, norm)
    ensures groups' == GroupsAfterImport(groups, old(contacts.State()), rows, groupId, authId, defaults, norm)
  {
    imported := 0;
    failed := 0;
    groups' := groups;
    ghost var before := contacts.State();
    var i := 0;
    while i < |rows|
      invariant 0 <= i <= |rows|
      invariant contacts.Valid()
      invariant imported == ImportedCount(rows[..i]) && imported + failed == i
      invariant contacts.State() == ContactsAfterImport(before, rows[..i], authId, defaults, norm)
      invariant groups' == GroupsAfterImport(groups, before, rows[..i], groupId, authId, defaults, norm)
    {
      var counted, next := ImportNextRow(contacts, groups, groups', rows, i, groupId, authId, defaults, norm, before);
      ImportedCountStep(rows, i);
      groups' := next;
      if counted {
        imported := imported + 1;
      } else {
        failed := failed + 1;
      }
      i := i + 1;
    }
    assert rows[..i] == rows;
  }

  /**
   * `ContactImportJob::handle`: `imported` counts the rows with a mobile
   * or phone, `failed` the others. Each contact a row returns joins the
   * chosen group and existing memberships are never removed; with nobody
   * signed in (a queue worker) no contact is created at all.
   */
  method ContactImportJob(contacts: ContactTable, groups: GroupStore, rows: seq<Row>, groupId: Option<nat>,
                          authId: Option<nat>, defaults: ContactDefaults, norm: Normalizer)
    returns (imported: nat, failed: nat, groups': GroupStore)
    requires contacts.Valid()
    modifies contacts
    ensures contacts.Valid()
    ensures imported == ImportedCount(rows) && imported + failed == |rows|
    ensures KeepsMemberships(groups, groups')
    ensures authId.OrElse(0) == 0 ==> contacts.rows == old(contacts.rows) && groups' == groups
    ensures contacts.State() == ContactsAfterImport(old(contacts.State()), rows, authId, defaults, norm)
    ensures groups' == GroupsAfterImport(groups, old(contacts.State()), rows, groupId, authId, defaults, norm)
  {
    ghost var before := contacts.State();
    imported, failed, groups' := ImportRows(contacts, groups, rows, groupId, authId, defaults, norm);
    if authId.OrElse(0) == 0 {
      NoContactsWithoutUser(before, rows, authId, defaults, norm);
    }
  }

  /**
   * As written, a queued import runs with nobody signed in: a row with a
   * number counts as imported, yet the contacts table is left as it was.
   */
  lemma QueuedRowCountedNotSaved(t: ContactState, row: Row, defaults: ContactDefaults, norm: Normalizer)
    requires Consistent(t) && Truthy(RowMobile(row))
    ensures ImportedCount([row]) == 1
    ensures ContactsAfterImport(t, [row], None, defaults, norm) == t
  {
    assert [row][..0] == [];
  }

  /**
   * The import as evidently intended: the uploader's id, known when the job
   * is dispatched, travels with it and owns the contacts. Every counted row
   * with a number that parses then has its contact afterwards, and each
   * contact a row returns joins the chosen group when that group exists.
   */
  method ContactImportJobForUploader(contacts: ContactTable, groups: GroupStore, rows: seq<Row>, groupId: Option<nat>,
                                     uploaderId: nat, defaults: ContactDefaults, norm: Normalizer)
    returns (imported: nat, failed: nat, groups': GroupStore)
    requires contacts.Valid() && uploaderId != 0
    modifies contacts
    ensures contacts.Valid()
    ensures imported == ImportedCount(rows) && imported + failed == |rows|
    ensures contacts.State() == ContactsAfterImport(old(contacts.State()), rows, Some(uploaderId), defaults, norm)
    ensures groups' == GroupsAfterImport(groups, old(contacts.State()), rows, groupId, Some(uploaderId), defaults, norm)
    ensures Idempotent(norm) ==>
              forall k :: 0 <= k < |rows| && Truthy(RowMobile(rows[k])) && norm(RowMobile(rows[k]).value, PH).Some? ==>
                Stores(contacts.State(), norm(RowMobile(rows[k]).value, PH).value, uploaderId)
  {
    ghost var before := contacts.State();
    imported, failed, groups' := ImportRows(contacts, groups, rows, groupId, Some(uploaderId), defaults, norm);
    if Idempotent(norm) {
      ImportedRowsSaved(before, rows, Some(uploaderId), defaults, norm);
      forall k | 0 <= k < |rows| && Truthy(RowMobile(rows[k])) && norm(RowMobile(rows[k]).value, PH).Some?
        ensures Stores(contacts.State(), norm(RowMobile(rows[k]).value, PH).value, uploaderId)
      {
        assert RowSaved(contacts.State(), rows[k], Some(uploaderId), norm);
      }
    }
  }
}
