/** JSON values as the assembler builds them, and the recursive key renaming that
    `humps.camelize` performs on them. */
module Json {
  import opened Wrappers
  import opened Dicts

  /** A JSON value; objects are ordered dicts. Numbers are integers. */
  datatype Json =
    | Null
    | Bool(b: bool)
    | Num(n: int)
    | Str(s: string)
    | Arr(items: seq<Json>)
    | Obj(fields: Dict<Json>)

  /** Every object, at every depth, has distinct keys: true of any value Python can hold. */
  ghost predicate WellFormed(j: Json) {
    match j
    case Arr(items) => forall i :: 0 <= i < |items| ==> WellFormed(items[i])
    case Obj(fields) =>
      && Distinct(fields)
      && forall i :: 0 <= i < |fields| ==> WellFormed(fields[i].1)
    case _ => true
  }

  /** `humps.camelize` applied to a mapping or list: every key of every nested object is
      renamed by `camel`, lists are walked element-wise, other values are left alone.
      Renamed keys that collide keep the first position and the later value, as the
      dict comprehension in humps does. */
  function Camelize(j: Json, camel: string -> string): (r: Json)
    ensures j.Obj? <==> r.Obj?
    ensures j.Arr? <==> r.Arr?
    ensures j.Arr? ==> |r.items| == |j.items|
    ensures !j.Obj? && !j.Arr? ==> r == j
  {
    match j
    case Arr(items) =>
      Arr(seq(|items|, i requires 0 <= i < |items| => Camelize(items[i], camel)))
    case Obj(fields) =>
      Obj(FromPairs(seq(|fields|, i requires 0 <= i < |fields| =>
        (camel(fields[i].0), Camelize(fields[i].1, camel)))))
    case _ => j
  }

  /** The renaming always yields a value Python could hold: no object has a repeated key. */
  lemma {:induction false} CamelizeWellFormed(j: Json, camel: string -> string)
    ensures WellFormed(Camelize(j, camel))
  {
    match j
    case Arr(items) =>
      forall i | 0 <= i < |items|
        ensures WellFormed(Camelize(j, camel).items[i])
      {
        CamelizeWellFormed(items[i], camel);
      }
    case Obj(fields) =>
      var pairs := seq(|fields|, i requires 0 <= i < |fields| =>
        (camel(fields[i].0), Camelize(fields[i].1, camel)));
      var r := FromPairs(pairs);
      assert Camelize(j, camel) == Obj(r);
      forall i | 0 <= i < |r|
        ensures WellFormed(r[i].1)
      {
        UpdateEntries([], pairs, r[i]);
        var n :| 0 <= n < |pairs| && pairs[n] == r[i];
        CamelizeWellFormed(fields[n].1, camel);
      }
    case _ =>
  }

  /** With a renaming that leaves every key alone, camelizing a well-formed value is the
      identity: the traversal itself changes nothing. */
  lemma {:induction false} CamelizeIdentity(j: Json, camel: string -> string)
    requires forall k :: camel(k) == k
    requires WellFormed(j)
    ensures Camelize(j, camel) == j
  {
    match j
    case Arr(items) =>
      forall i | 0 <= i < |items|
        ensures Camelize(items[i], camel) == items[i]
      {
        CamelizeIdentity(items[i], camel);
      }
      assert Camelize(j, camel).items == items;
    case Obj(fields) =>
      var pairs := seq(|fields|, i requires 0 <= i < |fields| =>
        (camel(fields[i].0), Camelize(fields[i].1, camel)));
      forall i | 0 <= i < |fields|
        ensures pairs[i] == fields[i]
      {
        CamelizeIdentity(fields[i].1, camel);
      }
      assert pairs == fields;
      FromDistinctPairs(fields);
    case _ =>
  }

  /** The keys of a camelized object are exactly the renamed keys of the original. */
  lemma CamelizeKeys(fields: Dict<Json>, camel: string -> string, k: string)
    ensures k in Keys(Camelize(Obj(fields), camel).fields)
        <==> exists i :: 0 <= i < |fields| && camel(fields[i].0) == k
  {
    var pairs := seq(|fields|, i requires 0 <= i < |fields| =>
      (camel(fields[i].0), Camelize(fields[i].1, camel)));
    UpdateKeys([], pairs, k);
    if k in Keys(pairs) {
      var n :| 0 <= n < |pairs| && Keys(pairs)[n] == k;
      KeyAt(pairs, n);
    }
    if exists i :: 0 <= i < |fields| && camel(fields[i].0) == k {
      var n :| 0 <= n < |fields| && camel(fields[n].0) == k;
      KeyAt(pairs, n);
    }
  }

  /** Each value of a camelized object is the camelized value of the last entry whose key
      is renamed to its key. */
  lemma CamelizeLookup(fields: Dict<Json>, camel: string -> string, i: nat)
    requires i < |fields|
    requires forall j :: i < j < |fields| ==> camel(fields[j].0) != camel(fields[i].0)
    ensures Get(Camelize(Obj(fields), camel).fields, camel(fields[i].0)) == Some(Camelize(fields[i].1, camel))
  {
    var pairs := seq(|fields|, i requires 0 <= i < |fields| =>
      (camel(fields[i].0), Camelize(fields[i].1, camel)));
    assert Camelize(Obj(fields), camel).fields == FromPairs(pairs);
    FromPairsLast(pairs, camel(fields[i].0));
    LastValueAt(pairs, i);
  }
}
