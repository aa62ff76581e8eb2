/**
 * The value PyYAML hands back for a package metafile, and the two Python
 * built-ins (`int()` and `str()`) the loader applies to its scalars.
 */
module Yaml {
  import opened Wrappers

  /** A parsed YAML node. Mapping keys are strings: the loader only looks up string keys. */
  datatype Value =
    | Null
    | Bool(b: bool)
    | Int(i: int)
    | Float(literal: string)
    | Str(s: string)
    | List(items: seq<Value>)
    | Dict(entries: map<string, Value>)

  /** Outcome of `yaml.load(open(filename).read())`. */
  datatype Document =
    | Parsed(root: Value)
    | Unreadable    // open() or read() raised IOError
    | Malformed     // the YAML parser raised a syntax error

  /** Python's `len()`: the number of characters, items or keys; None where it raises TypeError. */
  function Len(v: Value): (n: Option<nat>)
    ensures n.None? <==> v.Null? || v.Bool? || v.Int? || v.Float?
  {
    match v
    case Str(s) => Some(|s|)
    case List(items) => Some(|items|)
    case Dict(entries) => Some(|entries|)
    case _ => None
  }

  /** What Python's `int(v)` does: return a value, raise ValueError or TypeError, or raise OverflowError. */
  datatype IntConversion =
    | Converted(value: int)
    | Unconvertible     // ValueError or TypeError
    | Overflow          // OverflowError, e.g. int(float('inf'))

  /**
   * Python's `int(v)` and `str(v)`, supplied by the caller: their behaviour
   * on floats, numeric strings and nested containers belongs to the interpreter.
   */
  datatype Coercions = Coercions(toInt: Value -> IntConversion, toStr: Value -> string)

  /** The cases of `int()` and `str()` that every Python interpreter agrees on. */
  ghost predicate PythonLike(conv: Coercions) {
    && (forall i: int :: conv.toInt(Int(i)) == Converted(i))
    && conv.toInt(Bool(false)) == Converted(0)
    && conv.toInt(Bool(true)) == Converted(1)
    && conv.toInt(Float(".inf")) == Overflow
    && conv.toInt(Float("-.inf")) == Overflow
    && conv.toInt(Float(".nan")) == Unconvertible
    && conv.toInt(Null) == Unconvertible
    && (forall items: seq<Value> :: conv.toInt(List(items)) == Unconvertible)
    && (forall entries: map<string, Value> :: conv.toInt(Dict(entries)) == Unconvertible)
    && (forall s: string :: conv.toStr(Str(s)) == s)
  }
}
