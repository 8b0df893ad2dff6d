/**
  Decoded JSON values as the worker sees them after `json.loads`, the Python
  exceptions the message-handling code can raise, and the few dict and string
  operations of Python 2 that the worker relies on.
*/
module Values {
  import opened Wrappers

  /** A decoded JSON value. An object keeps its entries in the order in which
      the Python dict yields them; the entries of a decoded object have
      distinct keys (see DistinctKeys). Numbers are integers. */
  datatype Json =
    | JNull
    | JBool(b: bool)
    | JNum(n: int)
    | JStr(s: string)
    | JList(items: seq<Json>)
    | JObj(fields: seq<(string, Json)>)

  /** The entries of a dict, in iteration order. */
  type Fields = seq<(string, Json)>

  /** The exceptions the modelled code can raise; RunnerError stands for
      whatever the automation library raises out of a playbook run. */
  datatype PyError =
    | AttributeError
    | IndexError
    | KeyError
    | NameError
    | TypeError
    | RunnerError

  /** A Python dict never holds a key twice. */
  predicate DistinctKeys(fields: Fields) {
    forall i, j :: 0 <= i < j < |fields| ==> fields[i].0 != fields[j].0
  }

  /** `key in d` */
  predicate HasKey(fields: Fields, key: string) {
    exists i :: 0 <= i < |fields| && fields[i].0 == key
  }

  /** The keys of an object split into its first key and the keys of the rest. */
  lemma KeysOfTail(fields: Fields)
    requires fields != [] && DistinctKeys(fields)
    ensures DistinctKeys(fields[1..]) && !HasKey(fields[1..], fields[0].0)
    ensures forall k :: HasKey(fields, k) <==> k == fields[0].0 || HasKey(fields[1..], k)
    ensures forall entry :: entry in fields <==> entry == fields[0] || entry in fields[1..]
  {
    var k := fields[0].0;
    var tail := fields[1..];
    assert !HasKey(tail, k) by {
      forall i | 0 <= i < |tail| ensures tail[i].0 != k {
        assert tail[i] == fields[i + 1];
      }
    }
    forall k' ensures HasKey(fields, k') <==> k' == k || HasKey(tail, k') {
      if HasKey(fields, k') && k' != k {
        var i :| 0 <= i < |fields| && fields[i].0 == k';
        assert tail[i - 1].0 == k';
      }
      if HasKey(tail, k') {
        var i :| 0 <= i < |tail| && tail[i].0 == k';
        assert fields[i + 1].0 == k';
      }
    }
  }

  /** `d.get(key)`: the value stored under `key`, or None. */
  function Get(fields: Fields, key: string): (r: Option<Json>)
    ensures r.Some? <==> HasKey(fields, key)
    ensures r.Some? ==> (key, r.value) in fields
    ensures DistinctKeys(fields) ==>
              forall i :: 0 <= i < |fields| && fields[i].0 == key ==> r == Some(fields[i].1)
  {
    if fields == [] then None
    else if fields[0].0 == key then Some(fields[0].1)
    else
      var r := Get(fields[1..], key);
      assert HasKey(fields, key) ==> HasKey(fields[1..], key) by {
        if HasKey(fields, key) {
          var i :| 0 <= i < |fields| && fields[i].0 == key;
          assert fields[1..][i - 1].0 == key;
        }
      }
      assert HasKey(fields[1..], key) ==> HasKey(fields, key) by {
        if HasKey(fields[1..], key) {
          var i :| 0 <= i < |fields[1..]| && fields[1..][i].0 == key;
          assert fields[i + 1].0 == key;
        }
      }
      r
  }

  /** `d.pop(key, default)` as far as the remaining dict is concerned: every
      entry under `key` is dropped and every other entry is kept. */
  function Remove(fields: Fields, key: string): (r: Fields)
    ensures forall e :: e in r <==> e in fields && e.0 != key
    ensures DistinctKeys(fields) ==> DistinctKeys(r)
  {
    if fields == [] then []
    else
      var rest := Remove(fields[1..], key);
      assert forall e :: e in fields[1..] ==> e in fields;
      if fields[0].0 == key then rest
      else
        assert DistinctKeys(fields) ==> forall e :: e in rest ==> e.0 != fields[0].0 by {
          if DistinctKeys(fields) {
            forall e | e in rest ensures e.0 != fields[0].0 {
              var j :| 0 <= j < |fields[1..]| && fields[1..][j] == e;
              assert fields[j + 1] == e;
            }
          }
        }
        [fields[0]] + rest
  }

  /** Removing a key that is absent leaves the entries, in order, as they are. */
  lemma {:induction false} RemoveAbsent(fields: Fields, key: string)
    requires !HasKey(fields, key)
    ensures Remove(fields, key) == fields
    decreases |fields|
  {
    if fields != [] {
      var tail := fields[1..];
      assert !HasKey(tail, key) by {
        forall i | 0 <= i < |tail| ensures tail[i].0 != key {
          assert tail[i] == fields[i + 1];
        }
      }
      assert fields[0].0 != key;
      assert Remove(fields, key) == [fields[0]] + Remove(tail, key);
      RemoveAbsent(tail, key);
      assert fields == [fields[0]] + tail;
    }
  }

  /** The keys left after `Remove` are the other keys. */
  lemma RemoveKeys(fields: Fields, key: string)
    ensures forall k :: HasKey(Remove(fields, key), k) <==> HasKey(fields, k) && k != key
  {
    var r := Remove(fields, key);
    forall k ensures HasKey(r, k) <==> HasKey(fields, k) && k != key {
      if HasKey(r, k) {
        var i :| 0 <= i < |r| && r[i].0 == k;
        assert r[i] in fields;
        var j :| 0 <= j < |fields| && fields[j] == r[i];
      }
      if HasKey(fields, k) && k != key {
        var i :| 0 <= i < |fields| && fields[i].0 == k;
        assert fields[i] in r;
        var j :| 0 <= j < |r| && r[j] == fields[i];
      }
    }
  }

  function Digit(d: nat): char
    requires d < 10
  {
    "0123456789"[d]
  }

  /** Decimal text of a natural number, as Python's str() writes it. */
  function NatToString(n: nat): string
  {
    if n < 10 then [Digit(n)] else NatToString(n / 10) + [Digit(n % 10)]
  }

  function IntToString(n: int): string
  {
    if n < 0 then "-" + NatToString(-n) else NatToString(n)
  }

  /** `sep.join(parts)` */
  function Join(parts: seq<string>, sep: string): string
  {
    if |parts| == 0 then ""
    else if |parts| == 1 then parts[0]
    else parts[0] + sep + Join(parts[1..], sep)
  }

  /** Python 2 repr() of a decoded JSON value (decoded strings are unicode). */
  function Repr(v: Json): string
  {
    match v
    case JNull => "None"
    case JBool(b) => if b then "True" else "False"
    case JNum(n) => IntToString(n)
    case JStr(s) => "u'" + s + "'"
    case JList(items) =>
      "[" + Join(seq(|items|, i requires 0 <= i < |items| => Repr(items[i])), ", ") + "]"
    case JObj(fields) =>
      "{" + Join(seq(|fields|, i requires 0 <= i < |fields| =>
                       "u'" + fields[i].0 + "': " + Repr(fields[i].1)), ", ") + "}"
  }

  /** The text `"%s" % v` inserts: a string as it is, anything else as str()
      writes it. */
  function Str(v: Json): (r: string)
    ensures v.JStr? ==> r == v.s
  {
    if v.JStr? then v.s else Repr(v)
  }
}
