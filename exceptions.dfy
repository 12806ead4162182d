/** The two key errors a run can raise. Each freezes the keys it is given into a set, so
    repeated names collapse and the order they came in is lost. */
module Exceptions {
  import opened Strings

  /** `UnknownKeys`: names that templates use but the matrix does not declare.
      `DuplicateKeys`: names declared both as globals and as matrix dimensions.
      Two distinct constructors, so a caller can always tell the two apart. */
  datatype KeysError =
    | UnknownKeys(keys: set<string>)
    | DuplicateKeys(keys: set<string>)

  /** `UnknownKeys(keys)` built from any iterable of names. */
  function NewUnknownKeys(given: seq<string>): (e: KeysError)
    ensures e.UnknownKeys?
    ensures forall k :: k in e.keys <==> k in given
  {
    UnknownKeys(set k | k in given)
  }

  /** `DuplicateKeys(keys)` built from any iterable of names. */
  function NewDuplicateKeys(given: seq<string>): (e: KeysError)
    ensures e.DuplicateKeys?
    ensures forall k :: k in e.keys <==> k in given
  {
    DuplicateKeys(set k | k in given)
  }

  /** Two iterables holding the same names give the same error, whatever their order and
      however often a name repeats. */
  lemma FrozenKeys(a: seq<string>, b: seq<string>)
    requires forall k :: k in a <==> k in b
    ensures NewUnknownKeys(a) == NewUnknownKeys(b)
    ensures NewDuplicateKeys(a) == NewDuplicateKeys(b)
  {
    assert NewUnknownKeys(a).keys == NewUnknownKeys(b).keys;
    assert NewDuplicateKeys(a).keys == NewDuplicateKeys(b).keys;
  }

  /** `order` lists each name of `keys` exactly once: the order in which iterating over the
      frozen set yields them, which Python leaves unspecified. */
  predicate Enumerates(order: seq<string>, keys: set<string>)
  {
    && (forall i, j :: 0 <= i < j < |order| ==> order[i] != order[j])
    && (forall k :: k in order ==> k in keys)
    && (forall k :: k in keys ==> k in order)
  }

  /** The error's message, `', '.join(keys)`, with the keys taken in iteration order `order`. */
  function Message(e: KeysError, order: seq<string>): (msg: string)
    requires Enumerates(order, e.keys)
    ensures e.keys == {} ==> msg == ""
    ensures forall k :: k in e.keys ==> Contains(msg, k)
  {
    forall k | k in e.keys
      ensures Contains(Join(order, ", "), k)
    {
      var i :| 0 <= i < |order| && order[i] == k;
      JoinContains(order, ", ", i);
    }
    assert order != [] ==> order[0] in e.keys;
    Join(order, ", ")
  }
}
