/**
 * The input of the table component: loosely-typed flat records
 * (`Record<string, boolean | number | string>`), and the handful of
 * JavaScript value rules the component relies on: property lookup,
 * truthiness and conversion of a primitive to text.
 */
module Records {

  datatype Option<+T> = None | Some(value: T)

  /** A primitive field value: boolean, number or text. */
  datatype Value = Bool(b: bool) | Num(n: int) | Str(s: string)

  /** One own enumerable property of a record. */
  datatype Field = Field(key: string, value: Value)

  /**
   * A record, as the sequence of its properties in the order `for...in`
   * enumerates them. A JavaScript object never holds a key twice; see
   * DistinctKeys.
   */
  type DataObject = seq<Field>

  /** The record's keys in enumeration order. */
  function Keys(row: DataObject): seq<string>
  {
    seq(|row|, j requires 0 <= j < |row| => row[j].key)
  }

  predicate DistinctKeys(row: DataObject)
  {
    forall i, j :: 0 <= i < j < |row| ==> row[i].key != row[j].key
  }

  /**
   * Property access `row[k]` on the record's own properties: the value when
   * the key is present, `undefined` (None) otherwise. Members inherited from
   * the object prototype are not part of the model.
   */
  function Lookup(row: DataObject, k: string): (r: Option<Value>)
  {
    if row == [] then None
    else if row[0].key == k then Some(row[0].value)
    else Lookup(row[1..], k)
  }

  /** Lookup finds a key exactly when the record has it as an own property, and what it finds is that key's value. */
  lemma {:induction false} LookupSound(row: DataObject, k: string)
    ensures Lookup(row, k).None? <==> k !in Keys(row)
    ensures Lookup(row, k).Some? ==> Field(k, Lookup(row, k).value) in row
  {
    if row != [] {
      LookupSound(row[1..], k);
      assert Keys(row) == [row[0].key] + Keys(row[1..]);
    }
  }

  /** In a record whose keys are distinct, the value Lookup finds is the one stored under the key. */
  lemma {:induction false} LookupFindsField(row: DataObject, k: string, v: Value)
    requires DistinctKeys(row)
    requires Field(k, v) in row
    ensures Lookup(row, k) == Some(v)
  {
    if row[0] != Field(k, v) {
      var j :| 0 <= j < |row| && row[j] == Field(k, v);
      assert j != 0 && row[0].key != row[j].key;
      assert row[1..][j - 1] == Field(k, v);
      LookupFindsField(row[1..], k, v);
    }
  }

  /**
   * JavaScript truthiness of a primitive: `false`, `0` and `''` are the
   * falsy ones; every other boolean, number and string is truthy.
   */
  function Truthy(v: Value): (r: bool)
    ensures r <==> v != Bool(false) && v != Num(0) && v != Str("")
  {
    match v
    case Bool(b) => b
    case Num(n) => n != 0
    case Str(s) => |s| > 0
  }

  /**
   * Conversions the component hands to the JavaScript runtime: `String(n)`
   * for a number and `JSON.stringify(row)` for a whole record. Their
   * formats are not modelled; they are parameters of the model.
   */
  datatype Conversions = Conversions(numberToString: int -> string, stringify: DataObject -> string)

  /**
   * The text JavaScript's `String(v)`, and string concatenation with `v`,
   * produce for a primitive: `"true"` / `"false"` for a boolean, the
   * string itself for a string, and `numberToString` for a number.
   */
  function ValueText(v: Value, conv: Conversions): string
  {
    match v
    case Bool(b) => if b then "true" else "false"
    case Num(n) => conv.numberToString(n)
    case Str(s) => s
  }
}
