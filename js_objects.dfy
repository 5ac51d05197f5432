/**
 * The part of JavaScript's object model that a lookup in a constant `Record` table
 * runs into: `table[key]` reads the table's own entries first and then the members
 * every object literal inherits from `Object.prototype`.
 */
module JsObjects {
  /** What reading `table[key]` can give: a string entry, nothing, or an inherited member (a function or an object). */
  datatype JsValue = Str(s: string) | Undefined | Inherited(name: string)

  /** The members of `Object.prototype`, which every object literal inherits. */
  const ObjectPrototypeNames: set<string> :=
    {"constructor", "__proto__", "__defineGetter__", "__defineSetter__", "__lookupGetter__",
     "__lookupSetter__", "hasOwnProperty", "isPrototypeOf", "propertyIsEnumerable",
     "toLocaleString", "toString", "valueOf"}

  /** `table[key]` for an object literal whose own entries are `table`. */
  function Lookup(table: map<string, string>, key: string): JsValue {
    if key in table then Str(table[key])
    else if key in ObjectPrototypeNames then Inherited(key)
    else Undefined
  }

  /** JavaScript truthiness: the empty string and `undefined` are falsy, functions and objects truthy. */
  predicate Truthy(v: JsValue) {
    match v
    case Str(s) => s != ""
    case Undefined => false
    case Inherited(_) => true
  }

  /** `a || b`. */
  function Or(a: JsValue, b: JsValue): JsValue {
    if Truthy(a) then a else b
  }

  /** An entry added to a table is what reading its key gives, whatever the key's name. */
  lemma OwnEntryShadowsPrototype(table: map<string, string>, key: string, value: string)
    ensures Lookup(table[key := value], key) == Str(value)
  {
  }

  /** A key the table lacks reads the same as from the empty literal `{}`: only the prototype decides it. */
  lemma MissingKeyReadsPrototype(table: map<string, string>, key: string)
    ensures key !in table ==> Lookup(table, key) == Lookup(map[], key)
    ensures Lookup(map[], key) != Undefined <==> key in ObjectPrototypeNames
  {
  }

  /** `a || b` is one of its operands, and truthy exactly when either operand is. */
  lemma OrTruthy(a: JsValue, b: JsValue)
    ensures Or(a, b) == a || Or(a, b) == b
    ensures Truthy(Or(a, b)) <==> Truthy(a) || Truthy(b)
  {
  }
}
