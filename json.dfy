/**
 * JSON values as `JSON.parse` produces them, and the object operations the code performs
 * on them: property reads, property assignment and object spread (`{...a, ...b}`).
 */
module Json {
  import opened Wrappers
  import opened Text

  /** Numbers are integers: every number the code reads or writes is a whole count of seconds. */
  datatype Json =
    | JNull
    | JBool(b: bool)
    | JNum(n: int)
    | JStr(s: string)
    | JArr(items: seq<Json>)
    | JObj(fields: seq<(string, Json)>)

  type Fields = seq<(string, Json)>

  predicate DistinctKeys(fields: Fields) {
    forall i, k :: 0 <= i < k < |fields| ==> fields[i].0 != fields[k].0
  }

  /** What `JSON.parse` can return: objects at every depth have distinct keys. */
  ghost predicate WellFormed(j: Json)
    decreases j
  {
    match j
    case JArr(items) => forall i :: 0 <= i < |items| ==> WellFormed(items[i])
    case JObj(fields) =>
      && DistinctKeys(fields)
      && forall i :: 0 <= i < |fields| ==> WellFormed(fields[i].1)
    case _ => true
  }

  /** `obj[key]` on a list of bindings: the last binding of `key` wins, as in `JSON.parse`. */
  function Lookup(fields: Fields, key: string): Option<Json> {
    if |fields| == 0 then None
    else if fields[|fields| - 1].0 == key then Some(fields[|fields| - 1].1)
    else Lookup(fields[..|fields| - 1], key)
  }

  /** `obj[key]` is defined exactly when some binding has that key, and then it is one of them. */
  lemma {:induction false} LookupFound(fields: Fields, key: string)
    ensures Lookup(fields, key).Some? <==> HasKey(fields, key)
    ensures Lookup(fields, key).Some? ==>
      exists i :: 0 <= i < |fields| && fields[i] == (key, Lookup(fields, key).value)
  {
    if |fields| > 0 && fields[|fields| - 1].0 != key {
      var n := |fields| - 1;
      LookupFound(fields[..n], key);
      assert forall i :: 0 <= i < n ==> fields[..n][i] == fields[i];
    }
  }

  /** Two binding lists that agree at every position that binds `key` give the same `obj[key]`. */
  lemma {:induction false} LookupAgree(a: Fields, b: Fields, key: string)
    requires |a| == |b|
    requires forall i :: 0 <= i < |a| && (a[i].0 == key || b[i].0 == key) ==> a[i] == b[i]
    ensures Lookup(a, key) == Lookup(b, key)
  {
    if |a| > 0 {
      var n := |a| - 1;
      LookupAgree(a[..n], b[..n], key);
    }
  }

  /** In a binding list with distinct keys, each key reads back its own binding. */
  lemma {:induction false} LookupDistinct(fields: Fields, i: int)
    requires DistinctKeys(fields)
    requires 0 <= i < |fields|
    ensures Lookup(fields, fields[i].0) == Some(fields[i].1)
  {
    var n := |fields| - 1;
    if i < n {
      assert fields[n].0 != fields[i].0;
      assert fields[..n][i] == fields[i];
      LookupDistinct(fields[..n], i);
    }
  }

  /** A key reads back the binding at position `i` when no later position binds it again. */
  lemma {:induction false} LookupAt(fields: Fields, i: int, key: string)
    requires 0 <= i < |fields| && fields[i].0 == key
    requires forall j :: i < j < |fields| ==> fields[j].0 != key
    ensures Lookup(fields, key) == Some(fields[i].1)
  {
    var n := |fields| - 1;
    if i < n {
      assert fields[..n][i] == fields[i];
      LookupAt(fields[..n], i, key);
    }
  }

  /** Property read on any parsed value; only objects have properties. */
  function Get(j: Json, key: string): Option<Json> {
    if j.JObj? then Lookup(j.fields, key) else None
  }

  /** JavaScript truthiness of a property read; a missing property is `undefined`, which is falsy. */
  predicate Truthy(v: Option<Json>) {
    match v
    case None => false
    case Some(JNull) => false
    case Some(JBool(b)) => b
    case Some(JNum(n)) => n != 0
    case Some(JStr(s)) => s != ""
    case Some(_) => true
  }

  function StringField(j: Json, key: string): Option<string> {
    match Get(j, key)
    case Some(JStr(s)) => Some(s)
    case _ => None
  }

  function NumberField(j: Json, key: string): Option<int> {
    match Get(j, key)
    case Some(JNum(n)) => Some(n)
    case _ => None
  }

  predicate HasKey(fields: Fields, key: string) {
    exists i :: 0 <= i < |fields| && fields[i].0 == key
  }

  /** The bindings of `fields` with every binding of `key` replaced by `(key, v)`. */
  function Replace(fields: Fields, key: string, v: Json): (r: Fields)
    ensures |r| == |fields|
    ensures forall i :: 0 <= i < |r| ==> r[i] == if fields[i].0 == key then (key, v) else fields[i]
  {
    seq(|fields|, i requires 0 <= i < |fields| => if fields[i].0 == key then (key, v) else fields[i])
  }

  /** `obj[key] = v`: an existing property keeps its position, a new one goes last. */
  function Put(fields: Fields, key: string, v: Json): (r: Fields)
    ensures Lookup(r, key) == Some(v)
    ensures forall k :: k != key ==> Lookup(r, k) == Lookup(fields, k)
    ensures DistinctKeys(fields) ==> DistinctKeys(r)
    ensures |r| == if HasKey(fields, key) then |fields| else |fields| + 1
    ensures forall i :: 0 <= i < |r| ==> r[i] == (key, v) || r[i] in fields
  {
    if HasKey(fields, key) then
      var r := Replace(fields, key, v);
      PutReplaced(fields, key, v);
      r
    else
      var r := fields + [(key, v)];
      assert forall k :: k != key ==> Lookup(r, k) == Lookup(fields, k) by {
        forall k | k != key ensures Lookup(r, k) == Lookup(fields, k) {
          assert r[..|r| - 1] == fields;
        }
      }
      r
  }

  lemma PutReplaced(fields: Fields, key: string, v: Json)
    requires HasKey(fields, key)
    ensures Lookup(Replace(fields, key, v), key) == Some(v)
    ensures forall k :: k != key ==> Lookup(Replace(fields, key, v), k) == Lookup(fields, k)
  {
    var r := Replace(fields, key, v);
    var w :| 0 <= w < |fields| && fields[w].0 == key;
    assert r[w].0 == key;
    LookupFound(r, key);
    forall k | k != key ensures Lookup(r, k) == Lookup(fields, k) {
      LookupAgree(r, fields, k);
    }
  }

  /** `{...acc, ...fields}`: the bindings of `fields` assigned onto `acc` in order. */
  function Spread(acc: Fields, fields: Fields): (r: Fields)
    ensures DistinctKeys(acc) ==> DistinctKeys(r)
    ensures forall k :: Lookup(r, k) == if Lookup(fields, k).Some? then Lookup(fields, k) else Lookup(acc, k)
    ensures forall i :: 0 <= i < |r| ==> r[i] in acc || r[i] in fields
  {
    if |fields| == 0 then acc
    else
      var n := |fields| - 1;
      var prefix := Spread(acc, fields[..n]);
      assert forall i :: 0 <= i < n ==> fields[..n][i] == fields[i];
      Put(prefix, fields[n].0, fields[n].1)
  }

  /** The own enumerable properties that object spread copies out of a value. */
  function OwnProperties(v: Json): Fields {
    match v
    case JObj(fields) => fields
    case JArr(items) => seq(|items|, i requires 0 <= i < |items| => (Decimal(i), items[i]))
    case _ => []
  }
}
