/**
 * Contact groups as the core reads them: a name, an owner and the member
 * contacts in membership order. Creating and editing groups is outside
 * this model; the fan-out code only looks groups up.
 */
module Groups {
  import opened Wrappers
  import opened Strings
  import opened Platform

  /** A group row with its `contacts` relation: member contact ids in membership order. */
  datatype Group = Group(name: string, userId: Option<nat>, members: seq<nat>)

  /** The id a group identifier names when compared with the `id` column: its decimal value, when it is written canonically. */
  function IdToken(token: string): (r: Option<nat>)
    ensures r.Some? ==> NatToString(r.value) == token
    ensures r.None? ==> forall k: nat :: NatToString(k) != token
  {
    if |token| >= 1 && (forall i :: 0 <= i < |token| ==> IsDigit(token[i])) && NatToString(DigitsValue(token)) == token then
      Some(DigitsValue(token))
    else
      assert forall k: nat :: NatToString(k) != token by {
        forall k: nat ensures NatToString(k) != token {
          NatToStringValue(k);
        }
      }
      None
  }

  /** The groups table, which the core only reads. */
  datatype GroupStore = GroupStore(rows: map<nat, Group>, nextId: nat)
  {
    predicate Valid()
    {
      forall id :: id in rows ==> id < nextId
    }

    /** `Group::where('name', $name)->first()`: the oldest group with that name. */
    function FindByName(name: string): (r: Option<nat>)
      requires Valid()
      ensures r.Some? ==> r.value in rows && rows[r.value].name == name
                          && forall j :: j in rows && j < r.value ==> rows[j].name != name
      ensures r.None? ==> forall j :: j in rows ==> rows[j].name != name
    {
      FirstMatch(rows, (g: Group) => g.name == name, 0, nextId)
    }

    /**
     * `Group::where('name', $t)->orWhere('id', $t)->first()`: the oldest
     * group whose name is the identifier or whose id it spells.
     */
    function FindByNameOrId(token: string): (r: Option<nat>)
      requires Valid()
      ensures r.Some? ==> r.value in rows && (rows[r.value].name == token || NatToString(r.value) == token)
                          && forall j :: j in rows && j < r.value ==> rows[j].name != token && NatToString(j) != token
      ensures r.None? ==> forall j :: j in rows ==> rows[j].name != token && NatToString(j) != token
    {
      var byName := FindByName(token);
      var byId := IdToken(token);
      if byId.Some? && byId.value in rows && (byName.None? || byId.value < byName.value) then
        forall j | j in rows && j < byId.value ensures NatToString(j) != token {
          NatToStringInjective(j, byId.value);
        }
        byId
      else
        forall j | j in rows && NatToString(j) == token ensures byName.Some? && byName.value <= j {
          NatToStringInjective(j, byId.value);
        }
        byName
    }
  }
}
