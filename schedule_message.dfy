/**
 * `ScheduleMessage`: resolve each recipient token to a phone number, a
 * named contact or a group, count the recipients, classify them and store
 * a pending scheduled message.
 */
module ScheduleMessage {
  import opened Wrappers
  import opened Strings
  import opened Platform
  import opened Contacts
  import opened Groups
  import opened ScheduledMessages

  /** A string is split on ',' and every piece trimmed; an array is used as it is. */
  function RecipientTokens(arg: RecipientsArg): (ts: seq<string>)
    ensures arg.Items? ==> ts == arg.items
    ensures arg.Text? ==> |ts| == |Split(arg.s, ',')|
                          && forall i :: 0 <= i < |ts| ==> ts[i] == Trim(Split(arg.s, ',')[i])
  {
    match arg
    case Text(s) => TrimAll(Split(s, ','))
    case Items(items) => items
  }

  /** What one token turned into. */
  datatype Resolution =
    | AsNumber(e164: string)
    | AsContact(found: Option<string>)
    | AsGroup(group: GroupRef)
    | Unresolved

  /** The oldest contact with this name, in a contacts table with ids below `bound`. */
  function ContactNamed(rows: map<nat, Contact>, bound: nat, name: string): Option<nat>
  {
    FirstMatch(rows, (c: Contact) => c.name == Some(name), 0, bound)
  }

  /**
   * One pass of the loop body: a token that parses is a number; otherwise
   * the first contact with that name (its number, or nothing when that
   * does not parse, and no group lookup); otherwise the first group with
   * that name; otherwise nothing.
   */
  function Resolve(token: string, rows: map<nat, Contact>, bound: nat, groups: GroupStore, norm: Normalizer): (r: Resolution)
    requires groups.Valid()
    ensures r.AsNumber? <==> norm(token, PH).Some?
    ensures r.AsNumber? ==> r.e164 == norm(token, PH).value
    ensures r.AsContact? <==> norm(token, PH).None? && ContactNamed(rows, bound, token).Some?
    ensures r.AsContact? ==>
              var c := rows[ContactNamed(rows, bound, token).value];
              r.found == norm(MobileOf(c, norm), c.country.OrElse(PH))
    ensures r.AsGroup? <==>
              norm(token, PH).None? && ContactNamed(rows, bound, token).None? && groups.FindByName(token).Some?
    ensures r.AsGroup? ==>
              var k := groups.FindByName(token).value;
              r.group == GroupRef(k, groups.rows[k].name, |groups.rows[k].members|)
  {
    match norm(token, PH)
    case Some(e164) => AsNumber(e164)
    case None =>
      match ContactNamed(rows, bound, token)
      case Some(j) => AsContact(norm(MobileOf(rows[j], norm), rows[j].country.OrElse(PH)))
      case None =>
        match groups.FindByName(token)
        case Some(k) => AsGroup(GroupRef(k, groups.rows[k].name, |groups.rows[k].members|))
        case None => Unresolved
  }

  /** The accumulators `$numbers`, `$groups` and `$totalCount`. */
  datatype Collected = Collected(numbers: seq<string>, groups: seq<GroupRef>, count: nat)

  function Step(acc: Collected, r: Resolution): Collected
  {
    match r
    case AsNumber(e) => acc.(numbers := acc.numbers + [e], count := acc.count + 1)
    case AsContact(Some(e)) => acc.(numbers := acc.numbers + [e], count := acc.count + 1)
    case AsContact(None) => acc
    case AsGroup(g) => acc.(groups := acc.groups + [g], count := acc.count + g.count)
    case Unresolved => acc
  }

  /** The accumulators after the loop has seen `tokens`, against the tables as they were before it. */
  function Collect(tokens: seq<string>, rows: map<nat, Contact>, bound: nat, groups: GroupStore, norm: Normalizer): Collected
    requires groups.Valid()
  {
    if tokens == [] then Collected([], [], 0)
    else Step(Collect(tokens[..|tokens| - 1], rows, bound, groups, norm),
              Resolve(tokens[|tokens| - 1], rows, bound, groups, norm))
  }

  /**
   * `total_recipients` is the number of resolved numbers plus the member
   * counts of the resolved groups, with nothing removed: a number given
   * both directly and through a group, or a group named twice, counts twice.
   */
  lemma {:induction false} CollectCount(tokens: seq<string>, rows: map<nat, Contact>, bound: nat, groups: GroupStore, norm: Normalizer)
    requires groups.Valid()
    ensures var c := Collect(tokens, rows, bound, groups, norm);
            c.count == |c.numbers| + GroupTotal(c.groups)
    ensures |Collect(tokens, rows, bound, groups, norm).numbers| + |Collect(tokens, rows, bound, groups, norm).groups| <= |tokens|
  {
    if tokens != [] {
      var init := tokens[..|tokens| - 1];
      CollectCount(init, rows, bound, groups, norm);
      var acc := Collect(init, rows, bound, groups, norm);
      match Resolve(tokens[|tokens| - 1], rows, bound, groups, norm)
      case AsGroup(g) => assert (acc.groups + [g])[..|acc.groups|] == acc.groups;
      case _ =>
    }
  }

  /** A token that resolves to nothing leaves every accumulator as it was. */
  lemma DroppedToken(tokens: seq<string>, t: string, rows: map<nat, Contact>, bound: nat, groups: GroupStore, norm: Normalizer)
    requires groups.Valid()
    requires Resolve(t, rows, bound, groups, norm).Unresolved? || Resolve(t, rows, bound, groups, norm) == AsContact(None)
    ensures Collect(tokens + [t], rows, bound, groups, norm) == Collect(tokens, rows, bound, groups, norm)
  {
    assert (tokens + [t])[..|tokens|] == tokens;
  }

  /** The recipient type: numbers without groups, a single group without numbers, else mixed. */
  function RecipientTypeOf(c: Collected): (t: string)
    ensures t == NumbersType <==> c.groups == []
    ensures t == GroupType <==> c.groups != [] && c.numbers == [] && |c.groups| == 1
    ensures t == MixedType <==> c.groups != [] && !(c.numbers == [] && |c.groups| == 1)
  {
    if c.groups == [] then NumbersType
    else if c.numbers == [] && |c.groups| == 1 then GroupType
    else MixedType
  }

  /** `recipient_data`: the numbers, the groups and the first group's name (null without groups). */
  function DataOf(c: Collected): (d: RecipientData)
    ensures d.numbers == c.numbers && d.groups == c.groups
    ensures d.groupName.None? <==> c.groups == []
    ensures d.groupName.Some? ==> d.groupName.value == c.groups[0].name
  {
    RecipientData(c.numbers, c.groups, if c.groups == [] then None else Some(c.groups[0].name))
  }

  /** Some contact stores exactly this mobile. */
  predicate Stored(rows: map<nat, Contact>, mobile: string)
  {
    exists id :: id in rows && rows[id].mobile == mobile
  }

  lemma CollectNext(tokens: seq<string>, i: nat, rows: map<nat, Contact>, bound: nat, groups: GroupStore, norm: Normalizer)
    requires groups.Valid() && i < |tokens|
    ensures Collect(tokens[..i + 1], rows, bound, groups, norm)
            == Step(Collect(tokens[..i], rows, bound, groups, norm), Resolve(tokens[i], rows, bound, groups, norm))
  {
    assert tokens[..i + 1][..i] == tokens[..i];
  }

  lemma StoredKept(before: map<nat, Contact>, after: map<nat, Contact>)
    requires forall id :: id in before ==> id in after && after[id] == before[id]
    ensures forall m :: Stored(before, m) ==> Stored(after, m)
  {
    forall m | Stored(before, m) ensures Stored(after, m) {
      var w :| w in before && before[w].mobile == m;
      assert w in after;
    }
  }

  /** A loop pass that keeps every row and stores the current token's number keeps the numbers of all tokens so far stored. */
  lemma StoredStep(tokens: seq<string>, i: nat, norm: Normalizer, before: map<nat, Contact>, after: map<nat, Contact>)
    requires i < |tokens|
    requires forall k :: 0 <= k < i && norm(tokens[k], PH).Some? ==> Stored(before, norm(tokens[k], PH).value)
    requires forall id :: id in before ==> id in after && after[id] == before[id]
    requires norm(tokens[i], PH).Some? ==> Stored(after, norm(tokens[i], PH).value)
    ensures forall k :: 0 <= k < i + 1 && norm(tokens[k], PH).Some? ==> Stored(after, norm(tokens[k], PH).value)
  {
    StoredKept(before, after);
  }

  /** A loop pass whose new rows hold the current token's number keeps every added row tied to a token so far. */
  lemma AddedStep(rows0: map<nat, Contact>, before: map<nat, Contact>, after: map<nat, Contact>, tokens: seq<string>,
                  i: nat, norm: Normalizer)
    requires i < |tokens|
    requires AddedFromTokens(rows0, before, tokens[..i], norm)
    requires forall id :: id in before ==> id in after && after[id] == before[id]
    requires forall id :: id in after && id !in before ==> norm(tokens[i], PH) == Some(after[id].mobile)
    ensures AddedFromTokens(rows0, after, tokens[..i + 1], norm)
  {
    var prefix := tokens[..i + 1];
    forall id | id in after && id !in rows0
      ensures exists k :: 0 <= k < i + 1 && norm(prefix[k], PH) == Some(after[id].mobile)
    {
      if id in before {
        var k :| 0 <= k < i && norm(tokens[..i][k], PH) == Some(before[id].mobile);
        assert prefix[k] == tokens[..i][k];
      } else {
        assert prefix[i] == tokens[i];
      }
    }
  }

  /**
   * The contacts table has only grown since `rows0`: old rows unchanged,
   * and every added row (id at or above `bound0`) ownerless and nameless.
   */
  predicate Grown(rows0: map<nat, Contact>, bound0: nat, rows: map<nat, Contact>)
  {
    && (forall id :: id in rows0 ==> id < bound0 && id in rows && rows[id] == rows0[id])
    && (forall id :: id in rows && id !in rows0 ==> bound0 <= id && rows[id].name.None? && rows[id].userId.None?)
  }

  /** No added row shares its mobile with any other row. */
  predicate AddedDistinct(rows0: map<nat, Contact>, rows: map<nat, Contact>)
  {
    forall a, b :: a in rows && b in rows && a != b && a !in rows0 ==> rows[a].mobile != rows[b].mobile
  }

  /** Every row added since `rows0` holds the number of one of the tokens. */
  ghost predicate AddedFromTokens(rows0: map<nat, Contact>, rows: map<nat, Contact>, tokens: seq<string>, norm: Normalizer)
  {
    forall id :: id in rows && id !in rows0 ==> exists k :: 0 <= k < |tokens| && norm(tokens[k], PH) == Some(rows[id].mobile)
  }

  /** One pass of the loop body, against the table as it stands; it resolves the token as the table before the loop would. */
  method Visit(contacts: ContactTable, groups: GroupStore, token: string, defaults: ContactDefaults, norm: Normalizer,
               ghost rows0: map<nat, Contact>, ghost bound0: nat)
    returns (r: Resolution)
    requires contacts.Valid() && groups.Valid() && bound0 <= contacts.nextId && Grown(rows0, bound0, contacts.rows)
    modifies contacts
    ensures contacts.Valid() && bound0 <= contacts.nextId && Grown(rows0, bound0, contacts.rows)
    ensures r == Resolve(token, rows0, bound0, groups, norm)
    ensures forall id :: id in old(contacts.rows) ==> id in contacts.rows && contacts.rows[id] == old(contacts.rows)[id]
    ensures Idempotent(norm) && norm(token, PH).Some? ==> Stored(contacts.rows, norm(token, PH).value)
    ensures Idempotent(norm) && AddedDistinct(rows0, old(contacts.rows)) ==> AddedDistinct(rows0, contacts.rows)
    ensures Idempotent(norm) ==>
              forall id :: id in contacts.rows && id !in old(contacts.rows) ==> norm(token, PH) == Some(contacts.rows[id].mobile)
  {
    var phone := norm(token, PH);
    if phone.Some? {
      var id := contacts.FirstOrCreateByMobile(phone.value, defaults, norm);
      if Idempotent(norm) {
        assert norm(phone.value, PH) == Some(phone.value);
        assert contacts.rows[id].mobile == phone.value;
      }
      return AsNumber(phone.value);
    }
    r := Lookup(contacts, groups, token, norm, rows0, bound0);
  }

  /** The loop body for a token that is not a number: look it up as a contact name, then as a group name. */
  method Lookup(contacts: ContactTable, groups: GroupStore, token: string, norm: Normalizer,
                ghost rows0: map<nat, Contact>, ghost bound0: nat)
    returns (r: Resolution)
    requires contacts.Valid() && groups.Valid() && bound0 <= contacts.nextId && Grown(rows0, bound0, contacts.rows)
    requires norm(token, PH).None?
    ensures r == Resolve(token, rows0, bound0, groups, norm)
  {
    FirstMatchExtend(rows0, contacts.rows, (x: Contact) => x.name == Some(token), 0, bound0, contacts.nextId);
    var named := contacts.FindByName(token);
    if named.Some? {
      var contact := contacts.rows[named.value];
      return AsContact(norm(MobileOf(contact, norm), contact.country.OrElse(PH)));
    }
    var group := groups.FindByName(token);
    if group.Some? {
      var g := groups.rows[group.value];
      return AsGroup(GroupRef(group.value, g.name, |g.members|));
    }
    return Unresolved;
  }

  /**
   * `parseRecipients`: the loop over the tokens. A number also ensures an
   * (ownerless) contact for it exists; nothing else changes the contacts.
   */
  method ParseRecipients(contacts: ContactTable, groups: GroupStore, tokens: seq<string>,
                         defaults: ContactDefaults, norm: Normalizer)
    returns (c: Collected)
    requires contacts.Valid() && groups.Valid()
    modifies contacts
    ensures contacts.Valid() && old(contacts.nextId) <= contacts.nextId
    ensures c == Collect(tokens, old(contacts.rows), old(contacts.nextId), groups, norm)
    ensures Grown(old(contacts.rows), old(contacts.nextId), contacts.rows)
    ensures Idempotent(norm) ==>
              forall i :: 0 <= i < |tokens| && norm(tokens[i], PH).Some? ==> Stored(contacts.rows, norm(tokens[i], PH).value)
    ensures Idempotent(norm) ==> AddedDistinct(old(contacts.rows), contacts.rows)
    ensures Idempotent(norm) ==> AddedFromTokens(old(contacts.rows), contacts.rows, tokens, norm)
  {
    ghost var rows0 := contacts.rows;
    ghost var bound0 := contacts.nextId;
    c := Collected([], [], 0);
    var i := 0;
    while i < |tokens|
      invariant 0 <= i <= |tokens|
      invariant contacts.Valid() && bound0 <= contacts.nextId && Grown(rows0, bound0, contacts.rows)
      invariant c == Collect(tokens[..i], rows0, bound0, groups, norm)
      invariant Idempotent(norm) ==>
                  forall k :: 0 <= k < i && norm(tokens[k], PH).Some? ==> Stored(contacts.rows, norm(tokens[k], PH).value)
      invariant Idempotent(norm) ==> AddedDistinct(rows0, contacts.rows)
      invariant Idempotent(norm) ==> AddedFromTokens(rows0, contacts.rows, tokens[..i], norm)
    {
      CollectNext(tokens, i, rows0, bound0, groups, norm);
      ghost var before := contacts.rows;
      var r := Visit(contacts, groups, tokens[i], defaults, norm, rows0, bound0);
      c := Step(c, r);
      if Idempotent(norm) {
        StoredStep(tokens, i, norm, before, contacts.rows);
        AddedStep(rows0, before, contacts.rows, tokens, i, norm);
      }
      i := i + 1;
    }
    assert tokens[..i] == tokens;
  }

  /** The row `handle` stores: pending, with the parsed recipients and no delivery results yet. */
  function NewScheduled(c: Collected, message: string, scheduledAt: int, senderId: string): (m: ScheduledMessage)
    ensures m.status == Pending && m.sentAt.None? && m.sentCount == 0 && m.failedCount == 0 && m.errors == []
    ensures m.recipientType == RecipientTypeOf(c) && m.recipientData == DataOf(c) && m.totalRecipients == c.count
    ensures m.message == message && m.scheduledAt == scheduledAt && m.senderId == senderId
  {
    ScheduledMessage(message, senderId, RecipientTypeOf(c), DataOf(c), scheduledAt, None, Pending, c.count, 0, 0, [])
  }

  /** `handle`: the sender defaults to the configured one, the tokens are resolved, and the pending row is stored. */
  method Schedule(table: ScheduledTable, contacts: ContactTable, groups: GroupStore, recipients: RecipientsArg,
                  message: string, scheduledAt: int, senderId: Option<string>, sms: SmsDefaults,
                  defaults: ContactDefaults, norm: Normalizer)
    returns (id: nat)
    requires table.Valid() && contacts.Valid() && groups.Valid()
    modifies table, contacts
    ensures table.Valid() && contacts.Valid() && id == old(table.nextId) && id !in old(table.rows)
    ensures var c := Collect(RecipientTokens(recipients), old(contacts.rows), old(contacts.nextId), groups, norm);
            table.rows == old(table.rows)[id := NewScheduled(c, message, scheduledAt, SenderOrDefault(senderId, sms))]
    ensures Grown(old(contacts.rows), old(contacts.nextId), contacts.rows)
    ensures Idempotent(norm) ==> AddedFromTokens(old(contacts.rows), contacts.rows, RecipientTokens(recipients), norm)
  {
    var sender := SenderOrDefault(senderId, sms);
    var tokens := RecipientTokens(recipients);
    var c := ParseRecipients(contacts, groups, tokens, defaults, norm);
    id := table.Create(NewScheduled(c, message, scheduledAt, sender));
  }
}
