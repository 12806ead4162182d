/** Values shared by every part of the model: the shapes a configuration value takes once
    YAML has loaded it, raw output bytes, and the usual Option/Result wrappers. */
module Values {

  datatype Option<+T> = None | Some(value: T)

  datatype Result<+T, +E> = Success(value: T) | Failure(error: E)

  /** One byte of a command's raw output. */
  newtype byte = x: int | 0 <= x < 256

  type Bytes = seq<byte>

  /** A configuration value: a string (possibly a template), a scalar leaf, a list, a tuple
      or a mapping with string keys. `Null` is Python's None; a float is kept as the text
      YAML wrote it in. */
  datatype Obj =
    | Str(s: string)
    | Int(i: int)
    | Float(literal: string)
    | Bool(b: bool)
    | Null
    | List(items: seq<Obj>)
    | Tuple(items: seq<Obj>)
    | Dict(entries: map<string, Obj>)

  /** Whether Python can hash the value: strings and scalars can, a tuple when all its items
      can, lists and mappings never. */
  predicate Hashable(o: Obj)
    decreases o
  {
    match o
    case List(_) => false
    case Dict(_) => false
    case Tuple(items) => forall i :: 0 <= i < |items| ==> Hashable(items[i])
    case _ => true
  }

  lemma AppendAssoc<T>(a: seq<T>, b: seq<T>, c: seq<T>)
    ensures a + (b + c) == (a + b) + c
  {
  }

  lemma AppendNil<T>(a: seq<T>)
    ensures a + [] == a && [] + a == a
  {
  }
}
