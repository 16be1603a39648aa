/**
 * The two data migrations on the contacts table: rewriting mobiles to
 * E.164 (and back), and removing duplicate (owner, mobile) rows before the
 * unique index is added. Both go through the query builder, so the
 * model's accessor, mutator and hooks do not run.
 */
module Migrations {
  import opened Wrappers
  import opened Strings
  import opened Platform
  import opened Contacts

  // ------------------------------------------------------- normalise to E.164

  /** `up` for one row: numbers starting with '+' stay, others are formatted in their country (else PH) when they parse. */
  function UpMobile(c: Contact, norm: Normalizer): (m: string)
    ensures StartsWith(c.mobile, "+") ==> m == c.mobile
    ensures !StartsWith(c.mobile, "+") && norm(c.mobile, c.country.OrElse(PH)).Some?
            ==> m == norm(c.mobile, c.country.OrElse(PH)).value
    ensures !StartsWith(c.mobile, "+") && norm(c.mobile, c.country.OrElse(PH)).None? ==> m == c.mobile
  {
    if StartsWith(c.mobile, "+") then c.mobile
    else norm(c.mobile, c.country.OrElse(PH)).OrElse(c.mobile)
  }

  /** `down` for one mobile: "+63" + s becomes "0" + s, anything else stays. */
  function DownMobile(m: string): (r: string)
    ensures StartsWith(m, "+63") ==> r == "0" + m[3..]
    ensures !StartsWith(m, "+63") ==> r == m
  {
    if StartsWith(m, "+63") then "0" + m[3..] else m
  }

  /**
   * The unique (user_id, mobile) index, added by the migration that runs
   * just before this one, refuses to give row `id` the mobile `m` when
   * another row of the same owner already holds it. NULL owners never clash.
   */
  predicate Clashes(rows: map<nat, Contact>, id: nat, m: string)
    requires id in rows
  {
    rows[id].userId.Some? && exists j :: j in rows && j != id && rows[j].userId == rows[id].userId && rows[j].mobile == m
  }

  /** What the index guarantees: no two rows of the same owner share a mobile. */
  predicate OwnedUnique(rows: map<nat, Contact>)
  {
    forall i, j :: i in rows && j in rows && rows[i].userId.Some? && Key(rows[i]) == Key(rows[j]) ==> i == j
  }

  /**
   * One pass of `up`'s loop: a mobile starting with '+' is skipped, one
   * that does not parse is logged and kept, and one the index refuses
   * raises inside the `try`, so it is logged and kept as well.
   */
  function UpStep(rows: map<nat, Contact>, id: nat, norm: Normalizer): (r: map<nat, Contact>)
    ensures r.Keys == rows.Keys
  {
    if id !in rows || StartsWith(rows[id].mobile, "+") then rows
    else
      match norm(rows[id].mobile, rows[id].country.OrElse(PH))
      case None => rows
      case Some(e164) => if Clashes(rows, id, e164) then rows else rows[id := rows[id].(mobile := e164)]
  }

  /** `up` over the ids from `from` below `bound`, in ascending order. */
  function UpFrom(rows: map<nat, Contact>, norm: Normalizer, from: nat, bound: nat): (r: map<nat, Contact>)
    decreases bound - from
    ensures r.Keys == rows.Keys
    ensures forall id :: id in rows && (id < from || bound <= id) ==> r[id] == rows[id]
    ensures forall id :: id in rows ==> r[id] == rows[id] || r[id] == rows[id].(mobile := UpMobile(rows[id], norm))
  {
    if from >= bound then rows else UpFrom(UpStep(rows, from, norm), norm, from + 1, bound)
  }

  /** The rewrite `up` would make if the index never refused an update. */
  function UpTable(rows: map<nat, Contact>, norm: Normalizer): map<nat, Contact>
  {
    map id | id in rows :: rows[id].(mobile := UpMobile(rows[id], norm))
  }

  /** The rewrite `down` would make if the index never refused an update. */
  function DownTable(rows: map<nat, Contact>): map<nat, Contact>
  {
    map id | id in rows :: rows[id].(mobile := DownMobile(rows[id].mobile))
  }

  /** `up`: every contact is visited once, in id order, and its mobile rewritten in place unless the index refuses. */
  method NormalizeUp(table: ContactTable, norm: Normalizer)
    modifies table
    ensures table.rows == UpFrom(old(table.rows), norm, 0, table.nextId) && table.nextId == old(table.nextId)
  {
    ghost var original := table.rows;
    var id := 0;
    while id < table.nextId
      invariant table.nextId == old(table.nextId)
      invariant UpFrom(table.rows, norm, id, table.nextId) == UpFrom(original, norm, 0, table.nextId)
    {
      if id in table.rows && !StartsWith(table.rows[id].mobile, "+") {
        var contact := table.rows[id];
        var phone := norm(contact.mobile, contact.country.OrElse(PH));
        if phone.Some? && !Clashes(table.rows, id, phone.value) {
          table.rows := table.rows[id := contact.(mobile := phone.value)];
        }
      }
      id := id + 1;
    }
  }

  /** The table `down` leaves, and the id whose update the index refused, which ends the migration with an error. */
  datatype DownResult = DownResult(rows: map<nat, Contact>, failedAt: Option<nat>)

  /** `down` over the ids from `from` below `bound`, in ascending order, stopping at the first refused update. */
  function DownFrom(rows: map<nat, Contact>, from: nat, bound: nat): (r: DownResult)
    decreases bound - from
    ensures r.rows.Keys == rows.Keys
    ensures forall id :: id in rows ==> r.rows[id] == rows[id] || r.rows[id] == rows[id].(mobile := DownMobile(rows[id].mobile))
    ensures forall id :: id in rows && (id < from || bound <= id) ==> r.rows[id] == rows[id]
    ensures r.failedAt.Some? ==>
              var k := r.failedAt.value;
              && from <= k < bound && k in rows && StartsWith(rows[k].mobile, "+63")
              && Clashes(r.rows, k, DownMobile(rows[k].mobile))
              && forall id :: id in rows && k <= id ==> r.rows[id] == rows[id]
  {
    if from >= bound then DownResult(rows, None)
    else if from in rows && StartsWith(rows[from].mobile, "+63") then
      var local := DownMobile(rows[from].mobile);
      if Clashes(rows, from, local) then DownResult(rows, Some(from))
      else DownFrom(rows[from := rows[from].(mobile := local)], from + 1, bound)
    else DownFrom(rows, from + 1, bound)
  }

  /**
   * `down`: every "+63" mobile is rewritten to the local form, in id order.
   * An update the index refuses raises outside any `try`: the migration
   * stops there with an error, leaving the rows rewritten before it.
   */
  method NormalizeDown(table: ContactTable) returns (failedAt: Option<nat>)
    modifies table
    ensures DownResult(table.rows, failedAt) == DownFrom(old(table.rows), 0, table.nextId)
    ensures table.nextId == old(table.nextId)
  {
    ghost var original := table.rows;
    var id := 0;
    while id < table.nextId
      invariant table.nextId == old(table.nextId)
      invariant DownFrom(table.rows, id, table.nextId) == DownFrom(original, 0, table.nextId)
    {
      if id in table.rows && StartsWith(table.rows[id].mobile, "+63") {
        var contact := table.rows[id];
        var local := "0" + contact.mobile[3..];
        if Clashes(table.rows, id, local) {
          return Some(id);
        }
        table.rows := table.rows[id := contact.(mobile := local)];
      }
      id := id + 1;
    }
    return None;
  }

  // ------------------------------------------------------- up and the index

  /** An update `up` makes never breaks the index. */
  lemma UpStepKeepsUnique(rows: map<nat, Contact>, id: nat, norm: Normalizer)
    requires OwnedUnique(rows)
    ensures OwnedUnique(UpStep(rows, id, norm))
  {
    var r := UpStep(rows, id, norm);
    forall i, j | i in r && j in r && r[i].userId.Some? && Key(r[i]) == Key(r[j])
      ensures i == j
    {
      if i != j && (i == id || j == id) && r != rows {
        assert false;
      }
    }
  }

  /** `up` keeps the uniqueness of (owner, mobile) among owned rows that the index enforces. */
  lemma {:induction false} UpKeepsUnique(rows: map<nat, Contact>, norm: Normalizer, from: nat, bound: nat)
    requires OwnedUnique(rows)
    ensures OwnedUnique(UpFrom(rows, norm, from, bound))
    decreases bound - from
  {
    if from < bound {
      UpStepKeepsUnique(rows, from, norm);
      UpKeepsUnique(UpStep(rows, from, norm), norm, from + 1, bound);
    }
  }

  /** Right after duplicate removal, `up` leaves no two rows of one owner with the same mobile. */
  lemma MigrationsKeepIndex(rows: map<nat, Contact>, norm: Normalizer, bound: nat)
    ensures OwnedUnique(UpFrom(Deduplicated(rows), norm, 0, bound))
  {
    DeduplicatedUnique(rows);
    UpKeepsUnique(Deduplicated(rows), norm, 0, bound);
  }

  /**
   * Two contacts of owner 5, "09171234567" and "+639171234567", survive
   * duplicate removal because their mobiles differ. `up` then cannot
   * rewrite the first: the index refuses, and the local number stays.
   */
  lemma ClashingRowKept(norm: Normalizer)
    requires norm("09171234567", PH) == Some("+639171234567")
    ensures var rows := map[1 := Contact(Some(5), "09171234567", Some(PH), None, None, None),
                            2 := Contact(Some(5), "+639171234567", Some(PH), None, None, None)];
            Deduplicated(rows) == rows && UpFrom(rows, norm, 0, 3) == rows
  {
    var rows := map[1 := Contact(Some(5), "09171234567", Some(PH), None, None, None),
                    2 := Contact(Some(5), "+639171234567", Some(PH), None, None, None)];
    assert Key(rows[1]) != Key(rows[2]) by { assert rows[1].mobile[0] != rows[2].mobile[0]; }
    assert Oldest(rows, 1) && Oldest(rows, 2);
    assert rows[1].mobile[..1] == "0" && rows[2].mobile[..1] == "+";
    assert Clashes(rows, 1, "+639171234567") by { assert 2 in rows && 2 != 1; }
    assert UpStep(rows, 0, norm) == rows && UpStep(rows, 1, norm) == rows && UpStep(rows, 2, norm) == rows;
  }

  /** Every number `up` formats starts with '+'. */
  ghost predicate FormatsWithPlus(rows: map<nat, Contact>, norm: Normalizer)
  {
    forall id :: id in rows && norm(rows[id].mobile, rows[id].country.OrElse(PH)).Some? ==>
      StartsWith(norm(rows[id].mobile, rows[id].country.OrElse(PH)).value, "+")
  }

  /** The table part-way through `up`: rows below `from` rewritten, the others as they were. */
  function UpMixed(rows: map<nat, Contact>, norm: Normalizer, from: nat): map<nat, Contact>
  {
    map id | id in rows :: if id < from then UpTable(rows, norm)[id] else rows[id]
  }

  /** No update is refused part-way when the full rewrite itself keeps the index. */
  lemma UpMixedStep(rows: map<nat, Contact>, norm: Normalizer, from: nat)
    requires FormatsWithPlus(rows, norm) && OwnedUnique(UpTable(rows, norm))
    ensures UpStep(UpMixed(rows, norm, from), from, norm) == UpMixed(rows, norm, from + 1)
  {
    var m := UpMixed(rows, norm, from);
    var up := UpTable(rows, norm);
    if from in rows && !StartsWith(rows[from].mobile, "+") && norm(rows[from].mobile, rows[from].country.OrElse(PH)).Some? {
      var e164 := norm(rows[from].mobile, rows[from].country.OrElse(PH)).value;
      assert m[from] == rows[from];
      forall j | j in m && j != from && m[j].userId == m[from].userId && m[from].userId.Some?
        ensures m[j].mobile != e164
      {
        assert up[from].mobile == e164;
        if j < from || StartsWith(rows[j].mobile, "+") {
          assert up[j] == m[j];
          assert Key(up[j]) != Key(up[from]);
        } else {
          assert m[j] == rows[j];
        }
      }
    }
  }

  /** The loop run from a part-way table ends in the full rewrite. */
  lemma {:induction false} UpFromMixed(rows: map<nat, Contact>, norm: Normalizer, from: nat, bound: nat)
    requires FormatsWithPlus(rows, norm) && OwnedUnique(UpTable(rows, norm))
    requires forall id :: id in rows ==> id < bound
    ensures UpFrom(UpMixed(rows, norm, from), norm, from, bound) == UpTable(rows, norm)
    decreases bound - from
  {
    if from < bound {
      UpMixedStep(rows, norm, from);
      UpFromMixed(rows, norm, from + 1, bound);
    } else {
      assert UpMixed(rows, norm, from) == UpTable(rows, norm);
    }
  }

  /**
   * When every formatted number starts with '+' and the full rewrite keeps
   * the index, the index refuses nothing and `up` is the full rewrite.
   */
  lemma UpWithoutClash(rows: map<nat, Contact>, norm: Normalizer, bound: nat)
    requires FormatsWithPlus(rows, norm) && OwnedUnique(UpTable(rows, norm))
    requires forall id :: id in rows ==> id < bound
    ensures UpFrom(rows, norm, 0, bound) == UpTable(rows, norm)
  {
    assert UpMixed(rows, norm, 0) == rows;
    UpFromMixed(rows, norm, 0, bound);
  }

  /** The table part-way through `down`: rows below `from` rewritten, the others as they were. */
  function DownMixed(rows: map<nat, Contact>, from: nat): map<nat, Contact>
  {
    map id | id in rows :: if id < from then DownTable(rows)[id] else rows[id]
  }

  lemma DownMixedStep(rows: map<nat, Contact>, from: nat, bound: nat)
    requires OwnedUnique(DownTable(rows)) && from < bound
    ensures DownFrom(DownMixed(rows, from), from, bound) == DownFrom(DownMixed(rows, from + 1), from + 1, bound)
  {
    var m := DownMixed(rows, from);
    var down := DownTable(rows);
    if from in rows && StartsWith(rows[from].mobile, "+63") {
      var local := DownMobile(rows[from].mobile);
      assert m[from] == rows[from];
      forall j | j in m && j != from && m[j].userId == m[from].userId && m[from].userId.Some?
        ensures m[j].mobile != local
      {
        assert down[from].mobile == local;
        if j < from || !StartsWith(rows[j].mobile, "+63") {
          assert down[j] == m[j];
          assert Key(down[j]) != Key(down[from]);
        } else {
          assert m[j] == rows[j] && m[j].mobile[0] != local[0];
        }
      }
      assert m[from := m[from].(mobile := local)] == DownMixed(rows, from + 1);
    } else {
      assert m == DownMixed(rows, from + 1);
    }
  }

  lemma {:induction false} DownFromMixed(rows: map<nat, Contact>, from: nat, bound: nat)
    requires OwnedUnique(DownTable(rows))
    requires forall id :: id in rows ==> id < bound
    ensures DownFrom(DownMixed(rows, from), from, bound) == DownResult(DownTable(rows), None)
    decreases bound - from
  {
    if from < bound {
      DownMixedStep(rows, from, bound);
      DownFromMixed(rows, from + 1, bound);
    } else {
      assert DownMixed(rows, from) == DownTable(rows);
    }
  }

  /** When the full rewrite keeps the index, `down` refuses nothing and is the full rewrite. */
  lemma DownWithoutClash(rows: map<nat, Contact>, bound: nat)
    requires OwnedUnique(DownTable(rows))
    requires forall id :: id in rows ==> id < bound
    ensures DownFrom(rows, 0, bound) == DownResult(DownTable(rows), None)
  {
    assert DownMixed(rows, 0) == rows;
    DownFromMixed(rows, 0, bound);
  }

  /** Local Philippine numbers that `up` formats as "+63" followed by the same digits. */
  ghost predicate LocalPhilippine(rows: map<nat, Contact>, norm: Normalizer)
  {
    forall id :: id in rows ==>
      exists s :: rows[id].mobile == "0" + s && norm(rows[id].mobile, rows[id].country.OrElse(PH)) == Some("+63" + s)
  }

  /** Each row's full rewrite there and back gives the row. */
  lemma RewriteThereAndBack(rows: map<nat, Contact>, norm: Normalizer)
    requires LocalPhilippine(rows, norm)
    ensures DownTable(UpTable(rows, norm)) == rows
    ensures FormatsWithPlus(rows, norm)
  {
    forall id | id in rows
      ensures DownTable(UpTable(rows, norm))[id] == rows[id]
      ensures StartsWith(norm(rows[id].mobile, rows[id].country.OrElse(PH)).value, "+")
    {
      var s :| rows[id].mobile == "0" + s && norm(rows[id].mobile, rows[id].country.OrElse(PH)) == Some("+63" + s);
      assert !StartsWith(rows[id].mobile, "+") by { assert rows[id].mobile[0] == '0'; }
      var up := "+63" + s;
      assert StartsWith(up, "+63") && up[3..] == s;
    }
  }

  /** Rewriting local numbers keeps the index: equal "+63" forms come from equal local forms. */
  lemma LocalRewriteUnique(rows: map<nat, Contact>, norm: Normalizer)
    requires LocalPhilippine(rows, norm) && OwnedUnique(rows)
    ensures OwnedUnique(UpTable(rows, norm))
  {
    var up := UpTable(rows, norm);
    RewriteThereAndBack(rows, norm);
    forall i, j | i in up && j in up && up[i].userId.Some? && Key(up[i]) == Key(up[j])
      ensures i == j
    {
      assert DownTable(up)[i] == rows[i] && DownTable(up)[j] == rows[j];
      assert Key(rows[i]) == Key(rows[j]);
    }
  }

  /**
   * On a table of local Philippine numbers that the index accepts, `up`
   * refuses nothing, and `down` after it refuses nothing and gives the
   * table back.
   */
  lemma DownUndoesUp(rows: map<nat, Contact>, norm: Normalizer, bound: nat)
    requires LocalPhilippine(rows, norm) && OwnedUnique(rows)
    requires forall id :: id in rows ==> id < bound
    ensures DownFrom(UpFrom(rows, norm, 0, bound), 0, bound) == DownResult(rows, None)
  {
    RewriteThereAndBack(rows, norm);
    LocalRewriteUnique(rows, norm);
    UpWithoutClash(rows, norm, bound);
    DownWithoutClash(UpTable(rows, norm), bound);
  }

  // ------------------------------------------------------- running up twice

  /** A row `up` leaves alone: already '+', unparseable, or refused by the index. */
  ghost predicate Settled(rows: map<nat, Contact>, norm: Normalizer, id: nat)
    requires id in rows
  {
    var phone := norm(rows[id].mobile, rows[id].country.OrElse(PH));
    StartsWith(rows[id].mobile, "+") || phone.None? || Clashes(rows, id, phone.value)
  }

  /** Every number the normaliser gives starts with '+'. */
  ghost predicate PlusOnly(norm: Normalizer)
  {
    forall raw, region :: norm(raw, region).Some? ==> StartsWith(norm(raw, region).value, "+")
  }

  /** A settled row stays settled after a later pass, because a clashing '+' number is never rewritten. */
  lemma StepKeepsSettled(rows: map<nat, Contact>, norm: Normalizer, from: nat, id: nat)
    requires PlusOnly(norm) && id in rows && id != from && Settled(rows, norm, id)
    ensures Settled(UpStep(rows, from, norm), norm, id)
  {
    var r := UpStep(rows, from, norm);
    var phone := norm(rows[id].mobile, rows[id].country.OrElse(PH));
    assert r[id] == rows[id];
    if !StartsWith(rows[id].mobile, "+") && phone.Some? {
      var j :| j in rows && j != id && rows[j].userId == rows[id].userId && rows[j].mobile == phone.value;
      assert StartsWith(rows[j].mobile, "+");
      assert r[j] == rows[j];
      assert Clashes(r, id, phone.value);
    }
  }

  /** Running `up` from `from` settles every row below `bound` that was settled or not yet visited. */
  lemma {:induction false} UpSettles(rows: map<nat, Contact>, norm: Normalizer, from: nat, bound: nat)
    requires PlusOnly(norm)
    requires forall id :: id in rows && id < from ==> Settled(rows, norm, id)
    ensures forall id :: id in rows && id < bound ==> Settled(UpFrom(rows, norm, from, bound), norm, id)
    decreases bound - from
  {
    if from < bound {
      var next := UpStep(rows, from, norm);
      forall id | id in next && id < from + 1
        ensures Settled(next, norm, id)
      {
        if id != from {
          StepKeepsSettled(rows, norm, from, id);
        }
      }
      UpSettles(next, norm, from + 1, bound);
      assert UpFrom(rows, norm, from, bound) == UpFrom(next, norm, from + 1, bound);
    }
  }

  /** On a table whose rows are all settled, `up` changes nothing. */
  lemma {:induction false} SettledUnchanged(rows: map<nat, Contact>, norm: Normalizer, from: nat, bound: nat)
    requires forall id :: id in rows && id < bound ==> Settled(rows, norm, id)
    ensures UpFrom(rows, norm, from, bound) == rows
    decreases bound - from
  {
    if from < bound {
      assert UpStep(rows, from, norm) == rows;
      SettledUnchanged(rows, norm, from + 1, bound);
    }
  }

  /** When every formatted number starts with '+', running `up` a second time changes nothing. */
  lemma UpIsIdempotent(rows: map<nat, Contact>, norm: Normalizer, bound: nat)
    requires PlusOnly(norm)
    ensures UpFrom(UpFrom(rows, norm, 0, bound), norm, 0, bound) == UpFrom(rows, norm, 0, bound)
  {
    UpSettles(rows, norm, 0, bound);
    SettledUnchanged(UpFrom(rows, norm, 0, bound), norm, 0, bound);
  }

  // ------------------------------------------------------- duplicate removal

  /** The pair the unique index covers. */
  function Key(c: Contact): (Option<nat>, string)
  {
    (c.userId, c.mobile)
  }

  /** The row with the smallest id of its (owner, mobile) group: the one the migration keeps. */
  predicate Oldest(rows: map<nat, Contact>, id: nat)
    requires id in rows
  {
    forall j :: j in rows && Key(rows[j]) == Key(rows[id]) ==> id <= j
  }

  function Deduplicated(rows: map<nat, Contact>): map<nat, Contact>
  {
    map id | id in rows && Oldest(rows, id) :: rows[id]
  }

  /** The oldest row of a group, found by a scan over the group's ids. */
  method OldestOf(rows: map<nat, Contact>, g: (Option<nat>, string)) returns (keep: nat)
    requires exists id :: id in rows && Key(rows[id]) == g
    ensures keep in rows && Key(rows[keep]) == g && Oldest(rows, keep)
  {
    var members := set id | id in rows && Key(rows[id]) == g;
    var some :| some in rows && Key(rows[some]) == g;
    assert some in members;
    keep :| keep in members;
    var todo := members - {keep};
    while todo != {}
      invariant todo <= members && keep in members
      invariant forall j :: j in members && j !in todo ==> keep <= j
      decreases todo
    {
      var j :| j in todo;
      if j < keep {
        keep := j;
      }
      todo := todo - {j};
    }
    assert forall j :: j in rows && Key(rows[j]) == Key(rows[keep]) ==> j in members;
  }

  /**
   * `up` of the unique-index migration: for each (owner, mobile) group with
   * more than one row, delete every row but the one with the smallest id.
   */
  method RemoveDuplicates(table: ContactTable)
    modifies table
    ensures table.rows == Deduplicated(old(table.rows)) && table.nextId == old(table.nextId)
  {
    var original := table.rows;
    var duplicates := DuplicateKeys(original);
    ghost var all := duplicates;
    RemovedNone(original);
    while duplicates != {}
      invariant duplicates <= all == DuplicateKeys(original)
      invariant table.rows == Removed(original, all - duplicates) && table.nextId == old(table.nextId)
      decreases duplicates
    {
      var g :| g in duplicates;
      var keep := OldestOf(original, g);
      var current := table.rows;
      var next := map id | id in current && !(Key(current[id]) == g && id != keep) :: current[id];
      DropGroup(original, all - duplicates, g, keep, next);
      assert (all - duplicates) + {g} == all - (duplicates - {g});
      table.rows := next;
      duplicates := duplicates - {g};
    }
    RemovedAll(original);
  }

  /** The (owner, mobile) groups with more than one row: those holding a row that is not the oldest. */
  function DuplicateKeys(rows: map<nat, Contact>): set<(Option<nat>, string)>
  {
    set id | id in rows && !Oldest(rows, id) :: Key(rows[id])
  }

  /** The table once the groups in `done` have been reduced to their oldest row. */
  function Removed(original: map<nat, Contact>, done: set<(Option<nat>, string)>): map<nat, Contact>
  {
    map id | id in original && (Oldest(original, id) || Key(original[id]) !in done) :: original[id]
  }

  /** Before any deletion the table is the original. */
  lemma RemovedNone(original: map<nat, Contact>)
    ensures Removed(original, {}) == original
  {
  }

  /** Once every duplicated group is done, exactly the oldest rows remain. */
  lemma RemovedAll(original: map<nat, Contact>)
    ensures Removed(original, DuplicateKeys(original)) == Deduplicated(original)
  {
    forall id | id in original && !Oldest(original, id)
      ensures Key(original[id]) in DuplicateKeys(original)
    {
    }
  }

  /** Deleting every row of group `g` but its oldest marks `g` done. */
  lemma DropGroup(original: map<nat, Contact>, done: set<(Option<nat>, string)>,
                  g: (Option<nat>, string), keep: nat, next: map<nat, Contact>)
    requires keep in original && Key(original[keep]) == g && Oldest(original, keep)
    requires var current := Removed(original, done);
             next == map id | id in current && !(Key(current[id]) == g && id != keep) :: current[id]
    ensures next == Removed(original, done + {g})
  {
    var current := Removed(original, done);
    forall id | id in original
      ensures id in next <==> id in Removed(original, done + {g})
    {
      if Key(original[id]) == g && Oldest(original, id) {
        assert Key(original[id]) == Key(original[keep]);
        assert id == keep;
      }
    }
  }

  /** After the migration no two rows share an (owner, mobile) pair. */
  lemma DeduplicatedUnique(rows: map<nat, Contact>)
    ensures var d := Deduplicated(rows);
            forall i, j :: i in d && j in d && Key(d[i]) == Key(d[j]) ==> i == j
  {
  }

  /** Rows alone in their group survive unchanged; of a larger group exactly the oldest survives. */
  lemma DeduplicatedKeeps(rows: map<nat, Contact>, id: nat)
    requires id in rows
    ensures (forall j :: j in rows && j != id ==> Key(rows[j]) != Key(rows[id])) ==> id in Deduplicated(rows)
    ensures id in Deduplicated(rows) <==> Oldest(rows, id)
    ensures id in Deduplicated(rows) ==> Deduplicated(rows)[id] == rows[id]
  {
  }

  /** The (owner, mobile) pairs present in a table. */
  function Pairs(rows: map<nat, Contact>): set<(Option<nat>, string)>
  {
    set id | id in rows :: Key(rows[id])
  }

  /** The surviving rows are as many as the distinct (owner, mobile) pairs. */
  lemma DeduplicatedCount(rows: map<nat, Contact>)
    ensures |Deduplicated(rows).Keys| == |Pairs(rows)|
  {
    var d := Deduplicated(rows);
    assert Pairs(rows) == Pairs(d) by {
      forall p | p in Pairs(rows) ensures p in Pairs(d) {
        var i :| i in rows && Key(rows[i]) == p;
        var keep := Oldest0(rows, p, i);
        assert keep in d && Key(d[keep]) == p;
      }
    }
    DeduplicatedUnique(rows);
    InjectiveCount(d);
  }

  /** Some member of a group has the smallest id. */
  lemma Oldest0(rows: map<nat, Contact>, g: (Option<nat>, string), i: nat) returns (keep: nat)
    requires i in rows && Key(rows[i]) == g
    ensures keep in rows && Key(rows[keep]) == g && Oldest(rows, keep)
    decreases i
  {
    if exists j :: j in rows && Key(rows[j]) == g && j < i {
      var j :| j in rows && Key(rows[j]) == g && j < i;
      keep := Oldest0(rows, g, j);
    } else {
      keep := i;
    }
  }

  /** Taking one row out of a table takes out at most its pair. */
  lemma PairsWithout(d: map<nat, Contact>, i: nat)
    requires i in d
    ensures Pairs(d) == Pairs(d - {i}) + {Key(d[i])}
  {
    forall p | p in Pairs(d) ensures p in Pairs(d - {i}) + {Key(d[i])} {
      var j :| j in d && Key(d[j]) == p;
      if j != i { assert j in d - {i}; }
    }
  }

  /** In a table with distinct keys, a row's pair belongs to no other row. */
  lemma PairUnique(d: map<nat, Contact>, i: nat)
    requires forall i, j :: i in d && j in d && Key(d[i]) == Key(d[j]) ==> i == j
    requires i in d
    ensures Key(d[i]) !in Pairs(d - {i})
  {
  }

  /** A table whose rows have distinct keys has as many pairs as rows. */
  lemma {:induction false} InjectiveCount(d: map<nat, Contact>)
    requires forall i, j :: i in d && j in d && Key(d[i]) == Key(d[j]) ==> i == j
    ensures |d.Keys| == |Pairs(d)|
    decreases |d.Keys|
  {
    if d.Keys != {} {
      var i :| i in d;
      var rest := d - {i};
      assert rest.Keys == d.Keys - {i};
      InjectiveCount(rest);
      PairsWithout(d, i);
      PairUnique(d, i);
    } else {
      assert Pairs(d) == {};
    }
  }
}
