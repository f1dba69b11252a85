/** The remote document tree, seen as a value: top-level keys (user keys,
    conversation ids, `users`) mapped to JSON-like values. A path
    `key/field` addresses a field of the dictionary stored at `key`. */
module Store {

  datatype Option<T> = None | Some(value: T)

  /** The `DatabaseError` the readers report. */
  datatype DatabaseError = FailedToFetch

  datatype Result<T> = Success(value: T) | Failure(error: DatabaseError)

  /** A node of the tree. `Number` stands for every scalar that is neither a
      string nor a boolean; an absent node is represented by absence. */
  datatype Value =
    | Str(s: string)
    | Bool(b: bool)
    | Number(n: int)
    | Dict(fields: map<string, Value>)
    | List(items: seq<Value>)

  /** A `[String : Any]` dictionary. */
  type Record = map<string, Value>

  type Tree = map<string, Value>

  /** `dict[field] as? String == value` */
  predicate HasString(r: Record, field: string, value: string) {
    field in r && r[field] == Str(value)
  }

  /** `dict[field] as? String` succeeds. */
  predicate IsString(r: Record, field: string) {
    field in r && r[field].Str?
  }

  /** The cast `value as? Bool`. Numbers come back from the store as
      `NSNumber`, which bridges to `Bool` exactly when it is 0 or 1. */
  function AsBool(v: Value): (b: Option<bool>)
    ensures b.Some? <==> v.Bool? || v == Number(0) || v == Number(1)
    ensures b.Some? ==> (b.value <==> v == Bool(true) || v == Number(1))
  {
    match v
    case Bool(b) => Some(b)
    case Number(n) => if n == 0 then Some(false) else if n == 1 then Some(true) else None
    case _ => None
  }

  /** `dict[field] as? Bool` succeeds. */
  predicate IsBool(r: Record, field: string) {
    field in r && AsBool(r[field]).Some?
  }

  /** `dict[field] as? [String : Any]` succeeds. */
  predicate IsDict(r: Record, field: string) {
    field in r && r[field].Dict?
  }

  /** The fields of the node at `key`, empty when it is absent or not a dictionary. */
  function Fields(db: Tree, key: string): Record {
    if key in db && db[key].Dict? then db[key].fields else map[]
  }

  /** Read of the path `key/field`. */
  function Child(db: Tree, key: string, field: string): (v: Option<Value>)
    ensures v.Some? <==> field in Fields(db, key)
  {
    var f := Fields(db, key);
    if field in f then Some(f[field]) else None
  }

  /** Whole-value write of the path `key/field`: the other fields of the node
      at `key` and every other node stay as they were. */
  function WithChild(db: Tree, key: string, field: string, v: Value): (db': Tree)
    ensures db'.Keys == db.Keys + {key}
    ensures Child(db', key, field) == Some(v)
    ensures forall f :: f != field ==> Child(db', key, f) == Child(db, key, f)
    ensures forall k :: k in db && k != key ==> db'[k] == db[k]
  {
    db[key := Dict(Fields(db, key)[field := v])]
  }

  /** The cast `value as? [[String : Any]]`: a list all of whose items are
      dictionaries, or nothing. */
  function AsRecords(v: Option<Value>): (rs: Option<seq<Record>>)
    ensures rs.Some? ==> v.Some? && v.value.List? && |rs.value| == |v.value.items|
    ensures rs.Some? ==> forall i :: 0 <= i < |rs.value| ==> v.value.items[i] == Dict(rs.value[i])
  {
    if v.Some? && v.value.List? then RecordsOf(v.value.items) else None
  }

  function RecordsOf(items: seq<Value>): (rs: Option<seq<Record>>)
    ensures rs.Some? <==> forall i :: 0 <= i < |items| ==> items[i].Dict?
    ensures rs.Some? ==> |rs.value| == |items|
    ensures rs.Some? ==> forall i :: 0 <= i < |items| ==> items[i] == Dict(rs.value[i])
  {
    if items == [] then Some([])
    else
      var rest := RecordsOf(items[1..]);
      if items[0].Dict? && rest.Some? then Some([items[0].fields] + rest.value) else None
  }

  /** The list value written for a `[[String : Any]]` array. */
  function ListOf(rs: seq<Record>): (v: Value)
    ensures v.List? && |v.items| == |rs|
    ensures forall i :: 0 <= i < |rs| ==> v.items[i] == Dict(rs[i])
  {
    List(seq(|rs|, i requires 0 <= i < |rs| => Dict(rs[i])))
  }

  /** Writing a list of dictionaries and casting it back gives the same list. */
  lemma RecordsRoundTrip(rs: seq<Record>)
    ensures AsRecords(Some(ListOf(rs))) == Some(rs)
  {
    var back := AsRecords(Some(ListOf(rs)));
    assert back.Some?;
    assert forall i :: 0 <= i < |rs| ==> Dict(back.value[i]) == Dict(rs[i]);
    assert back.value == rs;
  }

  /** `xs.compactMap(f)`: the results that are present, in input order. */
  function CompactMap<T, U>(xs: seq<T>, f: T -> Option<U>): (ys: seq<U>)
    ensures |ys| <= |xs|
    ensures forall j :: 0 <= j < |ys| ==> exists i :: 0 <= i < |xs| && f(xs[i]) == Some(ys[j])
  {
    if xs == [] then []
    else
      var rest := CompactMap(xs[1..], f);
      assert forall j :: 0 <= j < |rest| ==> exists i :: 1 <= i < |xs| && f(xs[i]) == Some(rest[j]) by {
        forall j | 0 <= j < |rest| ensures exists i :: 1 <= i < |xs| && f(xs[i]) == Some(rest[j]) {
          var i :| 0 <= i < |xs[1..]| && f(xs[1..][i]) == Some(rest[j]);
          assert f(xs[i + 1]) == Some(rest[j]);
        }
      }
      match f(xs[0])
      case Some(y) => [y] + rest
      case None => rest
  }

  /** compactMap keeps order: mapping a concatenation concatenates the results. */
  lemma {:induction false} CompactMapAppend<T, U>(xs: seq<T>, zs: seq<T>, f: T -> Option<U>)
    ensures CompactMap(xs + zs, f) == CompactMap(xs, f) + CompactMap(zs, f)
  {
    if xs == [] {
      assert xs + zs == zs;
    } else {
      assert (xs + zs)[1..] == xs[1..] + zs;
      CompactMapAppend(xs[1..], zs, f);
    }
  }

  /** An item that does not map is dropped and the rest keep their order. */
  lemma CompactMapDrops<T, U>(xs: seq<T>, x: T, zs: seq<T>, f: T -> Option<U>)
    requires f(x).None?
    ensures CompactMap(xs + [x] + zs, f) == CompactMap(xs, f) + CompactMap(zs, f)
  {
    assert CompactMap([x], f) == [] by {
      assert [x][1..] == [];
    }
    CompactMapAppend(xs + [x], zs, f);
    CompactMapAppend(xs, [x], f);
  }

  /** Nothing is dropped exactly when every item decodes. */
  lemma {:induction false} CompactMapKeepsAll<T, U>(xs: seq<T>, f: T -> Option<U>)
    ensures |CompactMap(xs, f)| == |xs| <==> forall i :: 0 <= i < |xs| ==> f(xs[i]).Some?
  {
    if xs != [] {
      CompactMapKeepsAll(xs[1..], f);
      assert forall i :: 1 <= i < |xs| ==> xs[i] == xs[1..][i - 1];
    }
  }
}
