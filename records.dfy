/**
  The persisted record shapes (the Message and Group collections) and the
  array operations the routes apply to their string-array fields.
*/
module Records {
  import opened Codec

  /** Account and group identifiers. Both are strings, and a message's
      receiver holds either kind. An absent or empty field is "". */
  type Id = string

  /** A Message document. `deletedFor` lists the users who cleared it. */
  datatype Message = Message(
    sender: Id,
    receiver: Id,
    body: Cipher,
    iv: seq<Byte>,
    time: nat,
    isGroup: bool,
    deletedFor: seq<Id>)

  /** A Group document. */
  datatype Group = Group(name: string, members: seq<Id>)

  predicate NoDup<T(==)>(s: seq<T>) {
    forall i, j :: 0 <= i < j < |s| ==> s[i] != s[j]
  }

  /** `Array.from(new Set(s))`: the first occurrence of each element, in order. */
  function Dedup(s: seq<Id>): (r: seq<Id>)
    ensures NoDup(r)
    ensures forall x :: x in r <==> x in s
    decreases |s|
  {
    if s == [] then []
    else
      var d := Dedup(s[..|s| - 1]);
      if s[|s| - 1] in d then d else d + [s[|s| - 1]]
  }

  /** `s.filter(m => m !== x)`. */
  function Without(s: seq<Id>, x: Id): (r: seq<Id>)
    ensures x !in r
    ensures forall y :: y != x ==> (y in r <==> y in s)
    ensures NoDup(s) ==> NoDup(r)
    ensures x !in s ==> r == s
    ensures |r| <= |s|
    decreases |s|
  {
    if s == [] then []
    else
      var w := Without(s[..|s| - 1], x);
      if s[|s| - 1] == x then w
      else
        assert NoDup(s) ==> NoDup(s[..|s| - 1]) && s[|s| - 1] !in s[..|s| - 1];
        w + [s[|s| - 1]]
  }

  /** MongoDB's `$addToSet` on a string array: append unless already present. */
  function AddToSet(s: seq<Id>, x: Id): (r: seq<Id>)
    ensures forall y :: y in r <==> y in s || y == x
    ensures x in s ==> r == s
    ensures x !in s ==> r == s + [x]
    ensures |s| <= |r| && r[..|s|] == s
    ensures NoDup(s) ==> NoDup(r)
  {
    if x in s then s else s + [x]
  }
}
