/**
 * The abstract storage collaborator. A collection is the sequence of its
 * documents in storage's natural order, so that `findOne` returns the first
 * match; `ToMap` is the id-to-record map the collection stands for. The
 * lemmas show that inserting, removing and replacing a document act on that
 * map as map update and key removal, as long as ids stay unique.
 */
module Store {
  import opened Common
  import opened Http

  /** What storage throws when a unique index (the id, or a field declared `unique`) would be violated. */
  const DuplicateKey := Thrown("MongoServerError", Some("E11000 duplicate key error"))

  // ---------------------------------------------------------------- object ids

  predicate IsHexDigit(c: char) {
    ('0' <= c <= '9') || ('a' <= c <= 'f') || ('A' <= c <= 'F')
  }

  predicate IsLowerHexDigit(c: char) {
    ('0' <= c <= '9') || ('a' <= c <= 'f')
  }

  function LowerHex(c: char): (d: char)
    requires IsHexDigit(c)
    ensures IsLowerHexDigit(d)
    ensures d == c <==> IsLowerHexDigit(c)
  {
    if 'A' <= c <= 'F' then (c as int - 'A' as int + 'a' as int) as char else c
  }

  /** What `String(_id)` prints: 24 lower-case hexadecimal digits. */
  predicate IsCanonicalId(s: string) {
    |s| == 24 && forall i :: 0 <= i < |s| ==> IsLowerHexDigit(s[i])
  }

  /** A string an object id can be cast from: 24 hexadecimal digits in either case. */
  predicate IsObjectIdString(s: string) {
    |s| == 24 && forall i :: 0 <= i < |s| ==> IsHexDigit(s[i])
  }

  /**
   * Casting a string to an object id, as `findById` does before querying:
   * 24 hexadecimal digits name the id whose canonical form is their lower-case
   * spelling; any other string cannot be cast (`None`, and the query throws a
   * `CastError`).
   */
  function CastId(s: string): (r: Option<Id>)
    ensures r.Some? <==> IsObjectIdString(s)
    ensures r.Some? ==> IsCanonicalId(r.value) && |r.value| == |s|
    ensures r.Some? ==> forall i :: 0 <= i < |s| ==> r.value[i] == LowerHex(s[i])
    ensures r == Some(s) <==> IsCanonicalId(s)
  {
    if IsObjectIdString(s) then
      var t := seq(|s|, i requires 0 <= i < |s| => LowerHex(s[i]));
      assert t == s <==> IsCanonicalId(s) by {
        if IsCanonicalId(s) {
          assert forall i :: 0 <= i < |s| ==> t[i] == s[i];
        }
      }
      Some(t)
    else
      None
  }

  /** Every document's id is in canonical form, as ids the storage generates are. */
  predicate CanonicalKeys<R>(s: seq<R>, key: R -> Id) {
    forall i :: 0 <= i < |s| ==> IsCanonicalId(key(s[i]))
  }

  /** What a query throws when `value` cannot be cast to the `_id` of `model`. */
  function CastError(value: string, model: string): (e: Thrown)
    ensures e.name == "CastError" && e.message.Some?
  {
    Thrown("CastError", Some("Cast to ObjectId failed for value \"" + value + "\" (type string) at path \"_id\" for model \""
                             + model + "\""))
  }

  /** No two documents share an id. */
  predicate UniqueKeys<R>(s: seq<R>, key: R -> Id) {
    forall i, j :: 0 <= i < j < |s| ==> key(s[i]) != key(s[j])
  }

  /** The position of the first document whose id is `id`. */
  function Find<R>(s: seq<R>, key: R -> Id, id: Id): (r: Option<nat>)
    ensures r.Some? ==> r.value < |s| && key(s[r.value]) == id
    ensures r.Some? ==> forall j :: 0 <= j < r.value ==> key(s[j]) != id
    ensures r.None? <==> forall j :: 0 <= j < |s| ==> key(s[j]) != id
  {
    if |s| == 0 then None
    else if key(s[0]) == id then Some(0)
    else match Find(s[1..], key, id)
      case None => None
      case Some(k) => Some(k + 1)
  }

  /** The first position whose document satisfies `p` (`findOne` on a field). */
  function FindWhere<R>(s: seq<R>, p: R -> bool): (r: Option<nat>)
    ensures r.Some? ==> r.value < |s| && p(s[r.value])
    ensures r.Some? ==> forall j :: 0 <= j < r.value ==> !p(s[j])
    ensures r.None? <==> forall j :: 0 <= j < |s| ==> !p(s[j])
  {
    if |s| == 0 then None
    else if p(s[0]) then Some(0)
    else match FindWhere(s[1..], p)
      case None => None
      case Some(k) => Some(k + 1)
  }

  /** `findById`: the document with that id, if any. */
  function Lookup<R>(s: seq<R>, key: R -> Id, id: Id): (r: Option<R>)
    ensures r.Some? ==> key(r.value) == id && r.value in s
    ensures r.None? <==> forall j :: 0 <= j < |s| ==> key(s[j]) != id
  {
    match Find(s, key, id)
    case None => None
    case Some(i) => Some(s[i])
  }

  /** The ids present in a collection. */
  function Keys<R>(s: seq<R>, key: R -> Id): set<Id> {
    set j | 0 <= j < |s| :: key(s[j])
  }

  /** The id-to-record map a collection stands for: each id maps to its first document. */
  function ToMap<R>(s: seq<R>, key: R -> Id): (m: map<Id, R>)
    ensures m.Keys == Keys(s, key)
  {
    map id | id in Keys(s, key) :: s[Find(s, key, id).value]
  }

  /** Looking a document up by id is reading the abstract map. */
  lemma LookupIsMapRead<R>(s: seq<R>, key: R -> Id, id: Id)
    ensures Lookup(s, key, id).Some? <==> id in ToMap(s, key)
    ensures id in ToMap(s, key) ==> Lookup(s, key, id) == Some(ToMap(s, key)[id])
  {
  }

  /** With unique ids, the document at a position is the one found by its id. */
  lemma UniqueFind<R>(s: seq<R>, key: R -> Id, j: nat)
    requires UniqueKeys(s, key) && j < |s|
    ensures Find(s, key, key(s[j])) == Some(j)
  {
  }

  /** Appends a created document at the end of the natural order. */
  function Insert<R>(s: seq<R>, r: R): (t: seq<R>)
    ensures |t| == |s| + 1 && t[|s|] == r && t[..|s|] == s
  {
    s + [r]
  }

  /** Inserting a document with a new id is a map update, and ids stay unique. */
  lemma InsertIsMapUpdate<R>(s: seq<R>, key: R -> Id, r: R)
    requires UniqueKeys(s, key) && key(r) !in ToMap(s, key)
    ensures UniqueKeys(Insert(s, r), key)
    ensures ToMap(Insert(s, r), key) == ToMap(s, key)[key(r) := r]
  {
    var t := Insert(s, r);
    assert forall j :: 0 <= j < |s| ==> key(s[j]) != key(r);
    assert UniqueKeys(t, key) by {
      forall i, j | 0 <= i < j < |t|
        ensures key(t[i]) != key(t[j])
      {
        assert t[i] == s[i];
      }
    }
    var m, m' := ToMap(s, key), ToMap(t, key);
    var u := m[key(r) := r];
    forall id | id in u
      ensures id in m' && m'[id] == u[id]
    {
      if id == key(r) {
        UniqueFind(t, key, |s|);
      } else {
        var i := Find(s, key, id).value;
        UniqueFind(t, key, i);
      }
    }
    forall id | id in m'
      ensures id in u
    {
      var j := Find(t, key, id).value;
      if j < |s| {
        UniqueFind(s, key, j);
      }
    }
    assert m' == u;
  }

  /** Removes the document at position `i`. */
  function RemoveAt<R>(s: seq<R>, i: nat): (t: seq<R>)
    requires i < |s|
    ensures |t| == |s| - 1
    ensures forall j :: 0 <= j < i ==> t[j] == s[j]
    ensures forall j :: i <= j < |t| ==> t[j] == s[j + 1]
  {
    s[..i] + s[i + 1..]
  }

  lemma RemoveKeepsUnique<R>(s: seq<R>, key: R -> Id, i: nat)
    requires UniqueKeys(s, key) && i < |s|
    ensures UniqueKeys(RemoveAt(s, i), key)
  {
    var t := RemoveAt(s, i);
    forall a, b | 0 <= a < b < |t|
      ensures key(t[a]) != key(t[b])
    {
      var a' := if a < i then a else a + 1;
      var b' := if b < i then b else b + 1;
      assert t[a] == s[a'] && t[b] == s[b'];
    }
  }

  /** With unique ids, every document is what the map holds for its id. */
  lemma MapAt<R>(s: seq<R>, key: R -> Id, j: nat)
    requires UniqueKeys(s, key) && j < |s|
    ensures key(s[j]) in ToMap(s, key) && ToMap(s, key)[key(s[j])] == s[j]
  {
    UniqueFind(s, key, j);
  }

  /** After removing position `i`, every other document is still found under its id. */
  lemma RemoveKeepsOther<R>(s: seq<R>, key: R -> Id, i: nat, j: nat)
    requires UniqueKeys(s, key) && i < |s| && j < |s| && j != i
    ensures key(s[j]) in ToMap(RemoveAt(s, i), key)
    ensures ToMap(RemoveAt(s, i), key)[key(s[j])] == s[j]
  {
    var t := RemoveAt(s, i);
    RemoveKeepsUnique(s, key, i);
    var j' := if j < i then j else j - 1;
    assert t[j'] == s[j];
    MapAt(t, key, j');
  }

  /** After removing position `i`, its id is gone. */
  lemma RemoveDropsKey<R>(s: seq<R>, key: R -> Id, i: nat)
    requires UniqueKeys(s, key) && i < |s|
    ensures key(s[i]) !in ToMap(RemoveAt(s, i), key)
  {
    var t := RemoveAt(s, i);
    forall j | 0 <= j < |t|
      ensures key(t[j]) != key(s[i])
    {
      var j' := if j < i then j else j + 1;
      assert t[j] == s[j'];
    }
  }

  /** Removing the document with a given id is removing that key from the map. */
  lemma RemoveIsMapRemoval<R>(s: seq<R>, key: R -> Id, i: nat)
    requires UniqueKeys(s, key) && i < |s|
    ensures UniqueKeys(RemoveAt(s, i), key)
    ensures ToMap(RemoveAt(s, i), key) == ToMap(s, key) - {key(s[i])}
  {
    RemoveKeepsUnique(s, key, i);
    var t := RemoveAt(s, i);
    var m, m' := ToMap(s, key), ToMap(t, key);
    var u := m - {key(s[i])};
    RemoveDropsKey(s, key, i);
    forall id | id in u
      ensures id in m' && m'[id] == u[id]
    {
      var j := Find(s, key, id).value;
      RemoveKeepsOther(s, key, i, j);
    }
    assert m' == u;
  }

  /** Replaces the document at position `i` with `r`. */
  function ReplaceAt<R>(s: seq<R>, i: nat, r: R): (t: seq<R>)
    requires i < |s|
    ensures |t| == |s| && t[i] == r
    ensures forall j :: 0 <= j < |s| && j != i ==> t[j] == s[j]
  {
    s[i := r]
  }

  /** Replacing a document by one with the same id is a map update. */
  lemma ReplaceIsMapUpdate<R>(s: seq<R>, key: R -> Id, i: nat, r: R)
    requires UniqueKeys(s, key) && i < |s| && key(r) == key(s[i])
    ensures UniqueKeys(ReplaceAt(s, i, r), key)
    ensures ToMap(ReplaceAt(s, i, r), key) == ToMap(s, key)[key(r) := r]
  {
    var t := ReplaceAt(s, i, r);
    assert UniqueKeys(t, key) by {
      forall a, b | 0 <= a < b < |t|
        ensures key(t[a]) != key(t[b])
      {
        assert key(t[a]) == key(s[a]) && key(t[b]) == key(s[b]);
      }
    }
    var m, m' := ToMap(s, key), ToMap(t, key);
    var u := m[key(r) := r];
    forall id | id in m'
      ensures id in u && m'[id] == u[id]
    {
      var j := Find(t, key, id).value;
      assert key(s[j]) == id;
      UniqueFind(s, key, j);
      UniqueFind(t, key, j);
    }
    forall id | id in u
      ensures id in m'
    {
      var j := Find(s, key, id).value;
      assert key(t[j]) == id;
    }
    assert m' == u;
  }
}
