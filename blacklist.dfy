/**
 * `BlacklistedNumber`: opted-out numbers stored in E.164 form. Lookups and
 * inserts normalise the given number first, so every spelling of a number
 * reaches the same row.
 */
module Blacklist {
  import opened Wrappers
  import opened Platform

  datatype BlacklistedNumber = BlacklistedNumber(mobile: string, reason: string, notes: Option<string>, addedBy: string)

  const DefaultReason := "opt-out"
  const DefaultAddedBy := "system"

  /** The values the `reason` column's enum admits. */
  const Reasons: set<string> := {"opt-out", "complaint", "invalid", "other"}

  /** The exception libphonenumber raises on an unparseable number. */
  const ParseFailure := "NumberParseException"

  /** The exception the database raises when an insert puts a value outside the enum into `reason`. */
  const InvalidReason := "QueryException"

  class BlacklistTable {
    var rows: map<nat, BlacklistedNumber>
    var nextId: nat

    predicate Valid()
      reads this
    {
      && (forall id :: id in rows ==> id < nextId && rows[id].reason in Reasons)
      && (forall a, b :: a in rows && b in rows && rows[a].mobile == rows[b].mobile ==> a == b)
    }

    constructor ()
      ensures rows == map[] && nextId == 1 && Valid()
    {
      rows := map[];
      nextId := 1;
    }

    /** Some row stores exactly this E.164 number. */
    predicate Stores(e164: string)
      reads this
    {
      exists id :: id in rows && rows[id].mobile == e164
    }

    /**
     * `isBlacklisted($mobile)`: the number parses (region PH) and its E.164
     * form is stored; an unparseable number is never blacklisted.
     */
    predicate IsBlacklisted(mobile: string, norm: Normalizer)
      reads this
    {
      match norm(mobile, PH)
      case Some(e164) => Stores(e164)
      case None => false
    }

    /** The row storing the number, which the unique `mobile` column makes the only one: what `firstOrCreate` finds. */
    function Find(e164: string): (r: Option<nat>)
      reads this
      requires Valid()
      ensures r.Some? ==> r.value in rows && rows[r.value].mobile == e164
      ensures r.Some? ==> forall id :: id in rows && rows[id].mobile == e164 ==> id == r.value
      ensures r.None? <==> !Stores(e164)
    {
      FirstMatch(rows, (b: BlacklistedNumber) => b.mobile == e164, 0, nextId)
    }

    /**
     * `addToBlacklist`: an unparseable number raises (no catch); otherwise
     * the existing row for its E.164 form, untouched, or a new row with the
     * given reason, notes and author. The reason is only checked when a row
     * is inserted: the enum column refuses a value outside it.
     */
    method AddToBlacklist(mobile: string, reason: string, notes: Option<string>, addedBy: string, norm: Normalizer)
      returns (r: Result<nat, string>)
      requires Valid()
      modifies this
      ensures Valid()
      ensures r.Err? <==> norm(mobile, PH).None? || (old(Find(norm(mobile, PH).value)).None? && reason !in Reasons)
      ensures r.Err? ==> r.error == (if norm(mobile, PH).None? then ParseFailure else InvalidReason)
      ensures r.Err? ==> rows == old(rows) && nextId == old(nextId)
      ensures r.Ok? ==> r.value in rows && rows[r.value].mobile == norm(mobile, PH).value
      ensures r.Ok? && old(Find(norm(mobile, PH).value)).Some? ==>
                r.value == old(Find(norm(mobile, PH).value)).value && rows == old(rows) && nextId == old(nextId)
      ensures r.Ok? && old(Find(norm(mobile, PH).value)).None? ==>
                r.value == old(nextId)
                && rows == old(rows)[r.value := BlacklistedNumber(norm(mobile, PH).value, reason, notes, addedBy)]
      ensures r.Ok? ==> IsBlacklisted(mobile, norm) && Find(norm(mobile, PH).value) == Some(r.value)
    {
      var phone := norm(mobile, PH);
      if phone.None? {
        return Err(ParseFailure);
      }
      var e164 := phone.value;
      var found := Find(e164);
      if found.Some? {
        return Ok(found.value);
      }
      if reason !in Reasons {
        return Err(InvalidReason);
      }
      var id := nextId;
      rows := rows[id := BlacklistedNumber(e164, reason, notes, addedBy)];
      nextId := nextId + 1;
      assert rows[id].mobile == e164;
      return Ok(id);
    }
  }

  /** Two spellings with the same E.164 form are blacklisted together. */
  lemma SpellingsAgree(t: BlacklistTable, a: string, b: string, norm: Normalizer)
    requires norm(a, PH) == norm(b, PH)
    ensures t.IsBlacklisted(a, norm) == t.IsBlacklisted(b, norm)
  {
  }

  /**
   * Adding a number twice leaves one row, returned both times, with the
   * reason and notes of the first call; once the first call succeeds, the
   * second one's reason is never checked.
   */
  method AddTwice(t: BlacklistTable, mobile: string, norm: Normalizer,
                  reason1: string, notes1: Option<string>, reason2: string, notes2: Option<string>)
    returns (first: Result<nat, string>, second: Result<nat, string>)
    requires t.Valid()
    modifies t
    ensures t.Valid() && (first.Ok? ==> first == second)
    ensures first.Ok? <==> norm(mobile, PH).Some? && (old(t.Stores(norm(mobile, PH).value)) || reason1 in Reasons)
    ensures first.Ok? && norm(mobile, PH).Some? ==>
              first.value in t.rows && t.rows[first.value].mobile == norm(mobile, PH).value
              && (!old(t.Stores(norm(mobile, PH).value)) ==>
                    t.rows[first.value].reason == reason1 && t.rows[first.value].notes == notes1)
  {
    first := t.AddToBlacklist(mobile, reason1, notes1, DefaultAddedBy, norm);
    second := t.AddToBlacklist(mobile, reason2, notes2, DefaultAddedBy, norm);
  }
}
