/**
 A JavaScript object filled by assignment: its own members, and the names the
 `in` operator also finds, which it inherits.
 */
module JsObjects {
  import opened StableJsonText
  import Decimals

  /** The member that reads and sets an object's prototype. */
  const PROTO := "__proto__"

  /** The names every plain object inherits (section 20.1.3 of ECMA-262). */
  const INHERITED := {PROTO, "constructor", "hasOwnProperty", "isPrototypeOf", "propertyIsEnumerable", "toLocaleString",
    "toString", "valueOf", "__defineGetter__", "__defineSetter__", "__lookupGetter__", "__lookupSetter__"}

  /** The names an array inherits besides (section 23.1.3), and its length. */
  const OF_ARRAYS := {"at", "concat", "copyWithin", "entries", "every", "fill", "filter", "find", "findIndex", "findLast",
    "findLastIndex", "flat", "flatMap", "forEach", "includes", "indexOf", "join", "keys", "lastIndexOf", "length", "map",
    "pop", "push", "reduce", "reduceRight", "reverse", "shift", "slice", "some", "sort", "splice", "toReversed",
    "toSorted", "toSpliced", "unshift", "values", "with"}

  /** An object's prototype: the standard one, none, or a value assigned as it. */
  datatype Prototype = Standard | NoPrototype | Assigned(value: Json)

  /** What an object of this prototype finds by `in` that is not its own. */
  function Lent(p: Prototype): set<string> {
    match p
    case Standard => INHERITED
    case NoPrototype => {}
    case Assigned(Array(items)) => INHERITED + OF_ARRAYS + set i | 0 <= i < |items| :: Decimals.Spell(i)
    case Assigned(Object(members)) => INHERITED + Keys(members)
    case Assigned(_) => INHERITED
  }

  /** The object's own members, its keys in the order first assigned, and its prototype. */
  datatype Filling = Filling(own: map<string, Json>, keys: seq<string>, prototype: Prototype)

  const EMPTY := Filling(map[], [], Standard)

  /** Whether assigning `__proto__` sets the prototype and makes no member. */
  predicate SetsPrototype(o: Filling) {
    PROTO !in o.own && match o.prototype
    case Standard => true
    case NoPrototype => false
    case Assigned(Object(members)) => PROTO !in Keys(members)
    case Assigned(_) => true
  }

  /** `o[name] = value`. Only an object, a list or null can be a prototype. */
  function Assign(o: Filling, name: string, value: Json): Filling {
    if name == PROTO && SetsPrototype(o) then
      o.(prototype := if value.Null? then NoPrototype else if value.Array? || value.Object? then Assigned(value) else o.prototype)
    else
      Filling(o.own[name := value], if name in o.own then o.keys else o.keys + [name], o.prototype)
  }

  /** `name in o`. */
  predicate Finds(o: Filling, name: string) {
    name in o.own || name in Lent(o.prototype)
  }
}
