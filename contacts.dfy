/**
 * Contacts: the application's `Contact` model (its E.164 `mobile`
 * accessor and mutator, and `createFromArray`), the package model's
 * `creating` hook that fills in the country and bank account, and the
 * contacts table with Eloquent's `firstOrCreate`.
 */
module Contacts {
  import opened Wrappers
  import opened Strings
  import opened Platform

  /** A stored contact row. `name` and `email` live in the schemaless `meta` column. */
  datatype Contact = Contact(
    userId: Option<nat>,
    mobile: string,
    country: Option<string>,
    bankAccount: Option<string>,
    name: Option<string>,
    email: Option<string>)

  /** The configuration the creating hook reads: `contact.default.country` and `contact.default.bank_code`. */
  datatype ContactDefaults = ContactDefaults(country: Option<string>, bankCode: Option<string>)

  /** The mobile accessor and mutator: E.164 when the number parses in the contact's country (else PH), else as given. */
  function E164OrRaw(value: string, country: Option<string>, norm: Normalizer): (r: string)
    ensures norm(value, country.OrElse(PH)).Some? ==> r == norm(value, country.OrElse(PH)).value
    ensures norm(value, country.OrElse(PH)).None? ==> r == value
  {
    norm(value, country.OrElse(PH)).OrElse(value)
  }

  /** `$contact->mobile` (and `e164_mobile`, which returns the same). */
  function MobileOf(c: Contact, norm: Normalizer): string
  {
    E164OrRaw(c.mobile, c.country, norm)
  }

  /** Formatting an E.164 number again gives the same number. */
  ghost predicate Idempotent(norm: Normalizer)
  {
    forall raw, region :: norm(raw, region).Some? ==> norm(norm(raw, region).value, region) == norm(raw, region)
  }

  /** Reading back a mobile that was just set gives the stored value unchanged. */
  lemma AccessorAfterMutator(value: string, country: Option<string>, norm: Normalizer)
    requires Idempotent(norm)
    ensures E164OrRaw(E164OrRaw(value, country, norm), country, norm) == E164OrRaw(value, country, norm)
  {
  }

  /**
   * A contact model being created, as Eloquent holds it between `fill` and
   * the insert, so that the `creating` hook can assign its fields.
   */
  class NewContact {
    var userId: Option<nat>
    var mobile: string
    var country: Option<string>
    var bankAccount: Option<string>

    /** `new Contact([...])`: the mobile goes through the mutator before the country is set. */
    constructor (mobileValue: string, userId: Option<nat>, country: Option<string>, norm: Normalizer)
      ensures this.mobile == E164OrRaw(mobileValue, None, norm)
      ensures this.userId == userId && this.country == country && this.bankAccount == None
    {
      this.mobile := E164OrRaw(mobileValue, None, norm);
      this.userId := userId;
      this.country := country;
      this.bankAccount := None;
    }

    /**
     * The package's `creating` hook: an empty country becomes the default
     * country, and an empty bank account becomes "{bank code}:{mobile}".
     */
    method Creating(defaults: ContactDefaults, norm: Normalizer)
      modifies this
      ensures country == (if Truthy(old(country)) then old(country) else defaults.country)
      ensures bankAccount == (if Truthy(old(bankAccount)) then old(bankAccount)
                              else Some(defaults.bankCode.OrElse("") + ":" + E164OrRaw(mobile, country, norm)))
      ensures mobile == old(mobile) && userId == old(userId)
    {
      if !Truthy(country) {
        country := defaults.country;
      }
      if !Truthy(bankAccount) {
        var defaultCode := defaults.bankCode.OrElse("");
        bankAccount := Some(defaultCode + ":" + E164OrRaw(mobile, country, norm));
      }
    }

    function Row(): Contact
      reads this
    {
      Contact(userId, mobile, country, bankAccount, None, None)
    }
  }

  /** The key `firstOrCreate` searches by: the stored mobile and the owner. */
  predicate SameOwnerAndMobile(c: Contact, mobile: string, userId: nat)
  {
    c.mobile == mobile && c.userId == Some(userId)
  }

  /** The row `firstOrCreate` inserts for a new mobile (and owner, when the search names one) with country PH. */
  function Created(mobile: string, userId: Option<nat>, defaults: ContactDefaults, norm: Normalizer): (c: Contact)
    ensures c.userId == userId && c.mobile == E164OrRaw(mobile, None, norm)
    ensures c.country == Some(PH) && c.name.None? && c.email.None?
    ensures c.bankAccount == Some(defaults.bankCode.OrElse("") + ":" + E164OrRaw(c.mobile, Some(PH), norm))
  {
    var m := E164OrRaw(mobile, None, norm);
    Contact(userId, m, Some(PH), Some(defaults.bankCode.OrElse("") + ":" + E164OrRaw(m, Some(PH), norm)), None, None)
  }

  /** The contents of the contacts table: its rows and the next auto-increment id. */
  datatype ContactState = ContactState(rows: map<nat, Contact>, nextId: nat)

  /** `first()` over the rows with this mobile and this owner. */
  function FirstOwned(t: ContactState, mobile: string, userId: nat): (r: Option<nat>)
  {
    FirstMatch(t.rows, (c: Contact) => SameOwnerAndMobile(c, mobile, userId), 0, t.nextId)
  }

  /** Ids are handed out in increasing order. */
  predicate Consistent(t: ContactState)
  {
    forall id :: id in t.rows ==> id < t.nextId
  }

  /** Some row holds this mobile for this owner. */
  predicate Stores(t: ContactState, mobile: string, userId: nat)
  {
    exists id :: id in t.rows && SameOwnerAndMobile(t.rows[id], mobile, userId)
  }

  /**
   * What `Contact::createFromArray` returns and leaves in the table: nothing
   * for a missing mobile, a missing owner or an unparseable number; else the
   * owner's oldest contact for the E.164 number, or a new one, with name and
   * email overwritten when given. No other row changes.
   */
  function FromArray(t: ContactState, mobile: Option<string>, name: Option<string>, email: Option<string>,
                     givenUserId: Option<nat>, authId: Option<nat>, defaults: ContactDefaults, norm: Normalizer)
    : (r: (Option<nat>, ContactState))
    requires Consistent(t)
    ensures Consistent(r.1) && t.nextId <= r.1.nextId
    ensures var owner := if givenUserId.Some? then givenUserId else authId;
            r.0.None? <==> !Truthy(mobile) || owner.OrElse(0) == 0 || norm(mobile.value, PH).None?
    ensures r.0.None? ==> r.1 == t
    ensures r.1.rows.Keys == t.rows.Keys + (if r.0.Some? then {r.0.value} else {})
    ensures forall id :: id in t.rows && Some(id) != r.0 ==> r.1.rows[id] == t.rows[id]
    ensures forall id :: id in t.rows ==> r.1.rows[id].mobile == t.rows[id].mobile && r.1.rows[id].userId == t.rows[id].userId
    ensures r.0.Some? ==>
              var owner := (if givenUserId.Some? then givenUserId else authId).value;
              var e164 := norm(mobile.value, PH).value;
              var c := r.1.rows[r.0.value];
              && c.userId == Some(owner)
              && (name.Some? ==> c.name == name) && (email.Some? ==> c.email == email)
              && (Idempotent(norm) ==> c.mobile == e164)
              && (r.0.value in t.rows ==> r.1.nextId == t.nextId)
              && (r.0.value !in t.rows ==> r.0.value == t.nextId && r.1.nextId == t.nextId + 1)
  {
    var owner := if givenUserId.Some? then givenUserId else authId;
    if !Truthy(mobile) || owner.OrElse(0) == 0 then (None, t)
    else
      match norm(mobile.value, PH)
      case None => (None, t)
      case Some(e164) =>
        var (id, t') := Upsert(t, e164, owner.value, name, email, defaults, norm);
        assert Idempotent(norm) ==> norm(e164, PH) == Some(e164);
        (Some(id), t')
  }

  /** `firstOrCreate` on (mobile, owner) followed by the update of the given name and email. */
  function Upsert(t: ContactState, e164: string, owner: nat, name: Option<string>, email: Option<string>,
                  defaults: ContactDefaults, norm: Normalizer): (r: (nat, ContactState))
    requires Consistent(t)
    ensures Consistent(r.1) && t.nextId <= r.1.nextId
    ensures r.1.rows.Keys == t.rows.Keys + {r.0}
    ensures forall id :: id in t.rows && id != r.0 ==> r.1.rows[id] == t.rows[id]
    ensures forall id :: id in t.rows ==> r.1.rows[id].mobile == t.rows[id].mobile && r.1.rows[id].userId == t.rows[id].userId
    ensures var c := r.1.rows[r.0];
            && c.userId == Some(owner)
            && (name.Some? ==> c.name == name) && (email.Some? ==> c.email == email)
            && (c.mobile == e164 || c.mobile == E164OrRaw(e164, None, norm))
            && (r.0 in t.rows ==> r.1.nextId == t.nextId)
            && (r.0 !in t.rows ==> r.0 == t.nextId && r.1.nextId == t.nextId + 1)
  {
    var found := FirstOwned(t, e164, owner);
    var id := if found.Some? then found.value else t.nextId;
    var base := if found.Some? then t.rows[id] else Created(e164, Some(owner), defaults, norm);
    var c := base.(name := if name.Some? then name else base.name, email := if email.Some? then email else base.email);
    (id, ContactState(t.rows[id := c], if found.Some? then t.nextId else t.nextId + 1))
  }

  /** A table changed as `firstOrCreate` and the update of name and email change it is the one `Upsert` describes. */
  lemma UpsertMatches(t: ContactState, e164: string, owner: nat, name: Option<string>, email: Option<string>,
                      defaults: ContactDefaults, norm: Normalizer, id: nat, t': ContactState)
    requires Consistent(t)
    requires var found := FirstOwned(t, e164, owner);
             var base := if found.Some? then t.rows[found.value] else Created(e164, Some(owner), defaults, norm);
             && id == (if found.Some? then found.value else t.nextId)
             && t'.nextId == (if found.Some? then t.nextId else t.nextId + 1)
             && t'.rows == t.rows[id := base.(name := if name.Some? then name else base.name,
                                              email := if email.Some? then email else base.email)]
    ensures (id, t') == Upsert(t, e164, owner, name, email, defaults, norm)
  {
  }

  /** A contact `FromArray` leaves in place is still there afterwards, whatever else it changes. */
  lemma FromArrayKeeps(t: ContactState, mobile: Option<string>, name: Option<string>, email: Option<string>,
                       givenUserId: Option<nat>, authId: Option<nat>, defaults: ContactDefaults, norm: Normalizer,
                       m: string, u: nat)
    requires Consistent(t) && Stores(t, m, u)
    ensures Stores(FromArray(t, mobile, name, email, givenUserId, authId, defaults, norm).1, m, u)
  {
    var id :| id in t.rows && SameOwnerAndMobile(t.rows[id], m, u);
    var t' := FromArray(t, mobile, name, email, givenUserId, authId, defaults, norm).1;
    assert id in t'.rows && SameOwnerAndMobile(t'.rows[id], m, u);
  }

  /**
   * With a normaliser that keeps E.164 numbers as they are, a successful
   * `FromArray` leaves a contact of its owner under the formatted number.
   */
  lemma FromArrayStores(t: ContactState, mobile: Option<string>, name: Option<string>, email: Option<string>,
                        givenUserId: Option<nat>, authId: Option<nat>, defaults: ContactDefaults, norm: Normalizer)
    requires Consistent(t) && Idempotent(norm)
    requires FromArray(t, mobile, name, email, givenUserId, authId, defaults, norm).0.Some?
    ensures Stores(FromArray(t, mobile, name, email, givenUserId, authId, defaults, norm).1,
                   norm(mobile.value, PH).value, (if givenUserId.Some? then givenUserId else authId).value)
  {
    var r := FromArray(t, mobile, name, email, givenUserId, authId, defaults, norm);
    assert r.0.value in r.1.rows;
  }

  class ContactTable {
    var rows: map<nat, Contact>
    var nextId: nat

    /** The table as a value. */
    function State(): ContactState
      reads this
    {
      ContactState(rows, nextId)
    }

    /** Ids are handed out in increasing order. */
    predicate Valid()
      reads this
    {
      forall id :: id in rows ==> id < nextId
    }

    constructor ()
      ensures rows == map[] && nextId == 1 && Valid()
    {
      rows := map[];
      nextId := 1;
    }

    /** The oldest contact stored under this mobile for this owner. */
    function Find(mobile: string, userId: nat): (r: Option<nat>)
      reads this
      requires Valid()
      ensures r.Some? ==> r.value in rows && SameOwnerAndMobile(rows[r.value], mobile, userId)
                          && forall j :: j in rows && j < r.value ==> !SameOwnerAndMobile(rows[j], mobile, userId)
      ensures r.None? ==> forall j :: j in rows ==> !SameOwnerAndMobile(rows[j], mobile, userId)
    {
      FirstOwned(ContactState(rows, nextId), mobile, userId)
    }

    /**
     * `Contact::firstOrCreate(['mobile' => m, 'user_id' => u], ['country' => 'PH'])`:
     * the oldest matching row, or a new row passed through the mutator and the creating hook.
     */
    method FirstOrCreate(mobile: string, userId: nat, defaults: ContactDefaults, norm: Normalizer)
      returns (id: nat)
      requires Valid()
      modifies this
      ensures Valid() && id in rows
      ensures old(Find(mobile, userId)).Some? ==>
                id == old(Find(mobile, userId)).value && rows == old(rows) && nextId == old(nextId)
      ensures old(Find(mobile, userId)).None? ==>
                id == old(nextId) && nextId == old(nextId) + 1 && rows == old(rows)[id := Created(mobile, Some(userId), defaults, norm)]
    {
      var found := Find(mobile, userId);
      if found.Some? {
        return found.value;
      }
      var model := new NewContact(mobile, Some(userId), Some(PH), norm);
      model.Creating(defaults, norm);
      id := nextId;
      rows := rows[id := model.Row()];
      nextId := nextId + 1;
    }

    /** The oldest contact stored under this mobile, whoever owns it. */
    function FindByMobile(mobile: string): (r: Option<nat>)
      reads this
      requires Valid()
      ensures r.Some? ==> r.value in rows && rows[r.value].mobile == mobile
                          && forall j :: j in rows && j < r.value ==> rows[j].mobile != mobile
      ensures r.None? ==> forall j :: j in rows ==> rows[j].mobile != mobile
    {
      FirstMatch(rows, (c: Contact) => c.mobile == mobile, 0, nextId)
    }

    /** The oldest contact whose schemaless `name` is exactly the given text: `where('meta->name', $name)->first()`. */
    function FindByName(name: string): (r: Option<nat>)
      reads this
      requires Valid()
      ensures r.Some? ==> r.value in rows && rows[r.value].name == Some(name)
                          && forall j :: j in rows && j < r.value ==> rows[j].name != Some(name)
      ensures r.None? ==> forall j :: j in rows ==> rows[j].name != Some(name)
    {
      FirstMatch(rows, (c: Contact) => c.name == Some(name), 0, nextId)
    }

    /**
     * `Contact::firstOrCreate(['mobile' => m], ['country' => 'PH'])`: the
     * oldest row with that stored mobile, or a new ownerless row passed
     * through the mutator and the creating hook.
     */
    method FirstOrCreateByMobile(mobile: string, defaults: ContactDefaults, norm: Normalizer)
      returns (id: nat)
      requires Valid()
      modifies this
      ensures Valid() && id in rows
      ensures old(FindByMobile(mobile)).Some? ==>
                id == old(FindByMobile(mobile)).value && rows == old(rows) && nextId == old(nextId)
      ensures old(FindByMobile(mobile)).None? ==>
                id == old(nextId) && nextId == old(nextId) + 1 && rows == old(rows)[id := Created(mobile, None, defaults, norm)]
    {
      var found := FindByMobile(mobile);
      if found.Some? {
        return found.value;
      }
      var model := new NewContact(mobile, None, Some(PH), norm);
      model.Creating(defaults, norm);
      id := nextId;
      rows := rows[id := model.Row()];
      nextId := nextId + 1;
    }

    /**
     * `Contact::createFromArray`: no contact without a mobile, an owner
     * (given or signed in) or a parseable number; otherwise the owner's
     * contact for the E.164 number, with name and email overwritten only
     * when given.
     */
    method CreateFromArray(mobile: Option<string>, name: Option<string>, email: Option<string>,
                           givenUserId: Option<nat>, authId: Option<nat>,
                           defaults: ContactDefaults, norm: Normalizer)
      returns (r: Option<nat>)
      requires Valid()
      modifies this
      ensures Valid()
      ensures r.None? <==> !Truthy(mobile) || (if givenUserId.Some? then givenUserId else authId).OrElse(0) == 0
                           || norm(mobile.value, PH).None?
      ensures r.None? ==> rows == old(rows) && nextId == old(nextId)
      ensures r.Some? ==>
                var e164 := norm(mobile.value, PH).value;
                var owner := (if givenUserId.Some? then givenUserId else authId).value;
                var before := old(Find(e164, owner));
                var base := if before.Some? then old(rows)[before.value] else Created(e164, Some(owner), defaults, norm);
                && r.value == (if before.Some? then before.value else old(nextId))
                && rows == old(rows)[r.value := base.(name := if name.Some? then name else base.name,
                                                      email := if email.Some? then email else base.email)]
      ensures (r, ContactState(rows, nextId))
              == FromArray(old(ContactState(rows, nextId)), mobile, name, email, givenUserId, authId, defaults, norm)
    {
      if !Truthy(mobile) {
        return None;
      }
      var userId := if givenUserId.Some? then givenUserId else authId;
      if userId.OrElse(0) == 0 {
        return None;
      }
      var phone := norm(mobile.value, PH);
      if phone.None? {
        return None;
      }
      var e164 := phone.value;
      ghost var before := ContactState(rows, nextId);
      var id := FirstOrCreate(e164, userId.value, defaults, norm);
      var contact := rows[id];
      if name.Some? {
        contact := contact.(name := name);
      }
      if email.Some? {
        contact := contact.(email := email);
      }
      rows := rows[id := contact];
      UpsertMatches(before, e164, userId.value, name, email, defaults, norm, id, ContactState(rows, nextId));
      return Some(id);
    }
  }

  /**
   * With a normaliser that keeps E.164 numbers as they are, importing the
   * same number twice for the same owner returns the same contact and adds
   * no second row.
   */
  method ImportTwice(table: ContactTable, mobile: string, userId: nat, defaults: ContactDefaults, norm: Normalizer)
    returns (first: Option<nat>, second: Option<nat>)
    requires table.Valid() && Idempotent(norm) && userId != 0
    modifies table
    ensures first == second
    ensures first.Some? ==> table.rows.Keys == old(table.rows).Keys + {first.value}
  {
    first := table.CreateFromArray(Some(mobile), None, None, Some(userId), None, defaults, norm);
    ghost var keysAfterFirst := table.rows.Keys;
    if first.Some? {
      var e164 := norm(mobile, PH).value;
      assert norm(e164, PH) == Some(e164);
      assert SameOwnerAndMobile(table.rows[first.value], e164, userId);
      assert table.Find(e164, userId) == first;
    }
    second := table.CreateFromArray(Some(mobile), None, None, Some(userId), None, defaults, norm);
    if first.Some? {
      assert table.rows.Keys == keysAfterFirst;
    }
  }
}
