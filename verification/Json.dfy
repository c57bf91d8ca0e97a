/** JSON values.  The members of an object are listed in the order in which the object yields them. */
module Json {
  import opened Common

  datatype Member = Member(key: string, value: Value)

  /** The text of a number is left uninterpreted. */
  datatype Value =
    | Null
    | Bool(truth: bool)
    | Number(text: string)
    | String(chars: string)
    | Array(items: seq<Value>)
    | Object(members: seq<Member>)

  function Find(members: seq<Member>, key: string): Option<Value> {
    if members == [] then None
    else if members[0].key == key then Some(members[0].value)
    else Find(members[1..], key)
  }

  /** Only objects have named parts. */
  function Field(v: Value, key: string): Option<Value> {
    if v.Object? then Find(v.members, key) else None
  }

  function Size(v: Value): nat {
    match v
    case Array(items) => 1 + SizeOfItems(items)
    case Object(members) => 1 + SizeOfMembers(members)
    case _ => 1
  }

  function SizeOfItems(items: seq<Value>): nat {
    if items == [] then 0 else Size(items[0]) + SizeOfItems(items[1..])
  }

  function SizeOfMembers(members: seq<Member>): nat {
    if members == [] then 0 else Size(members[0].value) + SizeOfMembers(members[1..])
  }

  /** Every string a value holds somewhere, other than as a key. */
  function Strings(v: Value): set<string> {
    match v
    case String(s) => {s}
    case Array(items) => StringsOfItems(items)
    case Object(members) => StringsOfMembers(members)
    case _ => {}
  }

  function StringsOfItems(items: seq<Value>): set<string> {
    if items == [] then {} else Strings(items[0]) + StringsOfItems(items[1..])
  }

  function StringsOfMembers(members: seq<Member>): set<string> {
    if members == [] then {} else Strings(members[0].value) + StringsOfMembers(members[1..])
  }

  lemma {:induction false} ItemIsPart(items: seq<Value>, i: nat)
    requires i < |items|
    ensures Size(items[i]) <= SizeOfItems(items) && Strings(items[i]) <= StringsOfItems(items)
  {
    if i > 0 {
      ItemIsPart(items[1..], i - 1);
    }
  }

  lemma {:induction false} FoundIsPart(members: seq<Member>, key: string)
    requires Find(members, key).Some?
    ensures Size(Find(members, key).value) <= SizeOfMembers(members)
    ensures Strings(Find(members, key).value) <= StringsOfMembers(members)
  {
    if members[0].key != key {
      FoundIsPart(members[1..], key);
    }
  }

  lemma FieldIsPart(v: Value, key: string)
    requires Field(v, key).Some?
    ensures Size(Field(v, key).value) < Size(v) && Strings(Field(v, key).value) <= Strings(v)
  {
    FoundIsPart(v.members, key);
  }

  /** The first member with the key is found, wherever it stands. */
  lemma {:induction false} FindExactlyWhen(members: seq<Member>, key: string, value: Value)
    ensures Find(members, key) == Some(value) <==>
              exists i :: 0 <= i < |members| && members[i] == Member(key, value)
                && forall j :: 0 <= j < i ==> members[j].key != key
  {
    if members != [] {
      FindExactlyWhen(members[1..], key, value);
      if members[0].key != key {
        if i: nat :| i < |members[1..]| && members[1..][i] == Member(key, value)
                     && forall j :: 0 <= j < i ==> members[1..][j].key != key {
          assert members[i + 1] == Member(key, value);
          assert forall j :: 0 < j < i + 1 ==> members[j] == members[1..][j - 1];
        }
        if i :| 0 <= i < |members| && members[i] == Member(key, value)
                && forall j :: 0 <= j < i ==> members[j].key != key {
          assert members[1..][i - 1] == Member(key, value);
          assert forall j :: 0 <= j < i - 1 ==> members[1..][j] == members[j + 1];
        }
      } else {
        assert members[0] == Member(key, members[0].value);
      }
    }
  }
}
