/** Matrix utilities: required-key discovery, variant generation and key validation. */
module Matrix {
  import opened Values
  import opened Strings
  import opened Exceptions

  /** A (dimension name, value) pair. */
  type Pair = (string, Obj)

  /** One combination of dimension values: the frozen set of pairs a variant is. */
  type Variant = set<Pair>

  /** A build matrix: each dimension's name and its candidate values, in order. */
  type Dimensions = map<string, seq<Obj>>

  /** The name-to-value mapping templates are rendered against. */
  type Context = map<string, Obj>

  // ---------------------------------------------------------------------------
  // Required keys

  /** `find_required_keys(*commands)`: the union of the free template variables of each
      command. `freeVars` is the templating engine's undeclared-variable analysis. */
  function FindRequiredKeys(commands: seq<string>, freeVars: string -> set<string>): (keys: set<string>)
    ensures forall i :: 0 <= i < |commands| ==> freeVars(commands[i]) <= keys
    ensures forall k :: k in keys ==> exists i :: 0 <= i < |commands| && k in freeVars(commands[i])
    decreases |commands|
  {
    if |commands| == 0 then {}
    else FindRequiredKeys(commands[..|commands| - 1], freeVars) + freeVars(commands[|commands| - 1])
  }

  /** The required keys of a nested configuration value: strings are analysed, lists, tuples
      and mapping values are searched, mapping keys and other leaves contribute nothing. */
  function RequiredKeysOf(o: Obj, freeVars: string -> set<string>): (keys: set<string>)
    ensures o.Str? ==> keys == freeVars(o.s)
    ensures (o.List? || o.Tuple?) ==>
      forall i :: 0 <= i < |o.items| ==> RequiredKeysOf(o.items[i], freeVars) <= keys
    ensures (o.List? || o.Tuple?) ==>
      forall k :: k in keys ==> exists i :: 0 <= i < |o.items| && k in RequiredKeysOf(o.items[i], freeVars)
    ensures o.Dict? ==> forall x :: x in o.entries ==> RequiredKeysOf(o.entries[x], freeVars) <= keys
    ensures o.Dict? ==> forall k :: k in keys ==> exists x :: x in o.entries && k in RequiredKeysOf(o.entries[x], freeVars)
    ensures (o.Int? || o.Float? || o.Bool? || o.Null?) ==> keys == {}
    decreases o
  {
    match o
    case Str(s) => freeVars(s)
    case List(items) => set i, k | 0 <= i < |items| && k in RequiredKeysOf(items[i], freeVars) :: k
    case Tuple(items) => set i, k | 0 <= i < |items| && k in RequiredKeysOf(items[i], freeVars) :: k
    case Dict(m) => set x, k | x in m && k in RequiredKeysOf(m[x], freeVars) :: k
    case _ => {}
  }

  // ---------------------------------------------------------------------------
  // Rendering

  /** `render_object(obj, context)`: every template string is rendered with `renderString`
      (the templating engine); lists and tuples keep their kind, length and order, mappings
      keep their keys, every other value is passed through. */
  function RenderObject(o: Obj, context: Context, renderString: (string, Context) -> string): (r: Obj)
    ensures o.Str? ==> r == Str(renderString(o.s, context))
    ensures o.List? ==> r.List? && |r.items| == |o.items|
    ensures o.Tuple? ==> r.Tuple? && |r.items| == |o.items|
    ensures (o.List? || o.Tuple?) ==>
      forall i :: 0 <= i < |o.items| ==> r.items[i] == RenderObject(o.items[i], context, renderString)
    ensures o.Dict? ==> r.Dict? && r.entries.Keys == o.entries.Keys
    ensures o.Dict? ==> forall x :: x in o.entries ==> r.entries[x] == RenderObject(o.entries[x], context, renderString)
    ensures (o.Int? || o.Float? || o.Bool? || o.Null?) ==> r == o
    decreases o
  {
    match o
    case Str(s) => Str(renderString(s, context))
    case List(items) =>
      List(seq(|items|, i requires 0 <= i < |items| => RenderObject(items[i], context, renderString)))
    case Tuple(items) =>
      Tuple(seq(|items|, i requires 0 <= i < |items| => RenderObject(items[i], context, renderString)))
    case Dict(m) => Dict(map x | x in m :: RenderObject(m[x], context, renderString))
    case _ => o
  }

  /** Every template string inside `o` renders to itself under `context`. */
  ghost predicate IsPlain(o: Obj, context: Context, renderString: (string, Context) -> string)
    decreases o
  {
    match o
    case Str(s) => renderString(s, context) == s
    case List(items) => forall i :: 0 <= i < |items| ==> IsPlain(items[i], context, renderString)
    case Tuple(items) => forall i :: 0 <= i < |items| ==> IsPlain(items[i], context, renderString)
    case Dict(m) => forall x :: x in m ==> IsPlain(m[x], context, renderString)
    case _ => true
  }

  /** Rendering an object with no template syntax left in it changes nothing. */
  lemma {:induction false} RenderPlainIsIdentity(o: Obj, context: Context, renderString: (string, Context) -> string)
    requires IsPlain(o, context, renderString)
    ensures RenderObject(o, context, renderString) == o
    decreases o
  {
    match o
    case Str(s) =>
    case List(items) =>
      forall i | 0 <= i < |items| ensures RenderObject(items[i], context, renderString) == items[i] {
        RenderPlainIsIdentity(items[i], context, renderString);
      }
      assert RenderObject(o, context, renderString).items == items;
    case Tuple(items) =>
      forall i | 0 <= i < |items| ensures RenderObject(items[i], context, renderString) == items[i] {
        RenderPlainIsIdentity(items[i], context, renderString);
      }
      assert RenderObject(o, context, renderString).items == items;
    case Dict(m) =>
      forall x | x in m ensures RenderObject(m[x], context, renderString) == m[x] {
        RenderPlainIsIdentity(m[x], context, renderString);
      }
      assert RenderObject(o, context, renderString).entries == m;
    case _ =>
  }

  // ---------------------------------------------------------------------------
  // Cartesian product, in itertools.product's order

  /** `itertools.product(*dims)`: every tuple taking one value from each sequence; the first
      sequence varies slowest and the last fastest. */
  function Product(dims: seq<seq<Obj>>): seq<seq<Obj>>
    decreases |dims|
  {
    if |dims| == 0 then [[]] else Spread(dims[0], Product(dims[1..]))
  }

  /** Each head in turn, put in front of every tail. */
  function Spread(heads: seq<Obj>, tails: seq<seq<Obj>>): seq<seq<Obj>>
  {
    if |heads| == 0 then [] else Prefixed(heads[0], tails) + Spread(heads[1..], tails)
  }

  function Prefixed(head: Obj, tails: seq<seq<Obj>>): seq<seq<Obj>>
  {
    seq(|tails|, j requires 0 <= j < |tails| => [head] + tails[j])
  }

  /** n1 * n2 * ... * nk for sequences of lengths n1 .. nk. */
  function LengthProduct(dims: seq<seq<Obj>>): nat
  {
    if |dims| == 0 then 1 else |dims[0]| * LengthProduct(dims[1..])
  }

  lemma {:induction false} SpreadLength(heads: seq<Obj>, tails: seq<seq<Obj>>)
    ensures |Spread(heads, tails)| == |heads| * |tails|
  {
    if |heads| > 0 {
      SpreadLength(heads[1..], tails);
      assert |heads| * |tails| == |tails| + (|heads| - 1) * |tails|;
    }
  }

  /** The product has exactly n1 * ... * nk tuples. */
  lemma {:induction false} ProductLength(dims: seq<seq<Obj>>)
    ensures |Product(dims)| == LengthProduct(dims)
  {
    if |dims| > 0 {
      ProductLength(dims[1..]);
      SpreadLength(dims[0], Product(dims[1..]));
    }
  }

  lemma {:induction false} SpreadMember(heads: seq<Obj>, tails: seq<seq<Obj>>, t: seq<Obj>)
    ensures t in Spread(heads, tails) <==> |t| > 0 && t[0] in heads && t[1..] in tails
  {
    if |heads| > 0 {
      SpreadMember(heads[1..], tails, t);
      var front := Prefixed(heads[0], tails);
      if t in front {
        var j :| 0 <= j < |front| && front[j] == t;
        assert t[1..] == tails[j];
      }
      if |t| > 0 && t[0] == heads[0] && t[1..] in tails {
        var j :| 0 <= j < |tails| && tails[j] == t[1..];
        assert front[j] == t;
      }
      assert heads == [heads[0]] + heads[1..];
    }
  }

  /** A tuple is in the product exactly when it takes one value from each sequence. */
  lemma {:induction false} ProductMember(dims: seq<seq<Obj>>, t: seq<Obj>)
    ensures t in Product(dims) <==> |t| == |dims| && forall i :: 0 <= i < |dims| ==> t[i] in dims[i]
    decreases |dims|
  {
    if |dims| > 0 {
      SpreadMember(dims[0], Product(dims[1..]), t);
      if |t| > 0 {
        ProductMember(dims[1..], t[1..]);
        if |t| == |dims| {
          assert (forall i :: 0 <= i < |dims| ==> t[i] in dims[i]) <==>
            t[0] in dims[0] && (forall i :: 0 <= i < |dims| - 1 ==> t[1..][i] in dims[1..][i]) by {
            if forall i :: 0 <= i < |dims| - 1 ==> t[1..][i] in dims[1..][i] {
              forall i | 1 <= i < |dims| ensures t[i] in dims[i] {
                assert t[1..][i - 1] in dims[1..][i - 1];
              }
            }
          }
        }
      }
    }
  }

  lemma {:induction false} SpreadAt(heads: seq<Obj>, tails: seq<seq<Obj>>, i: nat, j: nat)
    requires i < |heads| && j < |tails|
    ensures i * |tails| + j < |Spread(heads, tails)|
    ensures Spread(heads, tails)[i * |tails| + j] == [heads[i]] + tails[j]
  {
    SpreadLength(heads, tails);
    assert |heads| * |tails| == |tails| + (|heads| - 1) * |tails|;
    if i > 0 {
      SpreadAt(heads[1..], tails, i - 1, j);
      assert i * |tails| + j == |tails| + ((i - 1) * |tails| + j);
    }
  }

  /** The product's order: the first sequence varies slowest. The tuple at position
      i * |rest| + j is the i-th first value followed by the j-th tuple of the rest. */
  lemma ProductOrder(dims: seq<seq<Obj>>, i: nat, j: nat)
    requires |dims| > 0 && i < |dims[0]| && j < |Product(dims[1..])|
    ensures i * |Product(dims[1..])| + j < |Product(dims)|
    ensures Product(dims)[i * |Product(dims[1..])| + j] == [dims[0][i]] + Product(dims[1..])[j]
  {
    SpreadAt(dims[0], Product(dims[1..]), i, j);
  }

  lemma {:induction false} LengthProductZero(dims: seq<seq<Obj>>, i: nat)
    requires i < |dims| && dims[i] == []
    ensures LengthProduct(dims) == 0
  {
    if i > 0 {
      LengthProductZero(dims[1..], i - 1);
    }
  }

  // ---------------------------------------------------------------------------
  // Variants

  /** `frozenset(zip(keys, values))`. */
  function Zip(keys: seq<string>, values: seq<Obj>): Variant
  {
    set i | 0 <= i < |keys| && i < |values| :: (keys[i], values[i])
  }

  /** The matrix's value lists, dimensions in sorted name order. */
  function DimensionValues(m: Dimensions): seq<seq<Obj>>
  {
    var keys := SortedKeys(m.Keys);
    seq(|keys|, i requires 0 <= i < |keys| => m[keys[i]])
  }

  /** Every product tuple, zipped with the sorted dimension names, in product order. */
  function AllVariants(m: Dimensions): seq<Variant>
  {
    var keys := SortedKeys(m.Keys);
    var tuples := Product(DimensionValues(m));
    seq(|tuples|, n requires 0 <= n < |tuples| => Zip(keys, tuples[n]))
  }

  /** The variants that contain every pair of `subset`, in their original order. */
  function KeepSupersets(variants: seq<Variant>, subset: set<Pair>): (r: seq<Variant>)
    ensures forall v :: v in r <==> v in variants && subset <= v
    ensures |r| <= |variants|
  {
    if |variants| == 0 then []
    else (if subset <= variants[0] then [variants[0]] else []) + KeepSupersets(variants[1..], subset)
  }

  /** Filtering keeps the order: filtering two runs of variants one after the other is
      filtering each. */
  lemma {:induction false} KeepSupersetsConcat(a: seq<Variant>, b: seq<Variant>, subset: set<Pair>)
    ensures KeepSupersets(a + b, subset) == KeepSupersets(a, subset) + KeepSupersets(b, subset)
    decreases |a|
  {
    if |a| == 0 {
      assert a + b == b;
    } else {
      assert (a + b)[0] == a[0];
      assert (a + b)[1..] == a[1..] + b;
      KeepSupersetsConcat(a[1..], b, subset);
      AppendAssoc(if subset <= a[0] then [a[0]] else [], KeepSupersets(a[1..], subset), KeepSupersets(b, subset));
    }
  }

  /** The first variant kept is the first one, in the original order, that contains every
      pair of `subset`. */
  lemma KeepSupersetsFirst(variants: seq<Variant>, subset: set<Pair>, j: nat)
    requires j < |variants| && subset <= variants[j]
    requires forall i :: 0 <= i < j ==> !(subset <= variants[i])
    ensures |KeepSupersets(variants, subset)| > 0 && KeepSupersets(variants, subset)[0] == variants[j]
  {
    assert variants == variants[..j] + variants[j..];
    KeepSupersetsConcat(variants[..j], variants[j..], subset);
    NoMemberMeansEmpty(KeepSupersets(variants[..j], subset));
    assert variants[j..][0] == variants[j];
  }

  /** No two pairs of `v` share a dimension name. */
  predicate HasUniqueKeys(v: Variant)
  {
    forall p, q :: p in v && q in v && p.0 == q.0 ==> p == q
  }

  /** `v` picks exactly one value for every dimension of `m`, from that dimension's list. */
  ghost predicate IsVariantOf(v: Variant, m: Dimensions)
  {
    && (forall p :: p in v ==> p.0 in m && p.1 in m[p.0])
    && (forall k :: k in m ==> exists x :: (k, x) in v)
    && HasUniqueKeys(v)
  }

  /** `generate_variants(matrix, subset_pairs)`. */
  function GenerateVariants(m: Dimensions, subset: set<Pair>): (r: seq<Variant>)
    ensures forall v :: v in r ==> IsVariantOf(v, m) && subset <= v
  {
    AllVariantsSound(m);
    KeepSupersets(AllVariants(m), subset)
  }

  lemma ZipListsValues(m: Dimensions, t: seq<Obj>, p: Pair)
    requires t in Product(DimensionValues(m))
    requires p in Zip(SortedKeys(m.Keys), t)
    ensures p.0 in m && p.1 in m[p.0]
  {
    var keys := SortedKeys(m.Keys);
    var dims := DimensionValues(m);
    ProductMember(dims, t);
    var i :| 0 <= i < |keys| && i < |t| && p == (keys[i], t[i]);
    assert t[i] in dims[i];
  }

  lemma ZipCoversKeys(m: Dimensions, t: seq<Obj>, k: string)
    requires t in Product(DimensionValues(m))
    requires k in m
    ensures exists x :: (k, x) in Zip(SortedKeys(m.Keys), t)
  {
    var keys := SortedKeys(m.Keys);
    ProductMember(DimensionValues(m), t);
    var i :| 0 <= i < |keys| && keys[i] == k;
    assert (k, t[i]) in Zip(keys, t);
  }

  lemma ZipHasUniqueKeys(keys: seq<string>, t: seq<Obj>)
    requires forall i, j :: 0 <= i < |keys| && 0 <= j < |keys| && keys[i] == keys[j] ==> i == j
    ensures HasUniqueKeys(Zip(keys, t))
  {
    var v := Zip(keys, t);
    forall p, q | p in v && q in v && p.0 == q.0 ensures p == q {
      var i :| 0 <= i < |keys| && i < |t| && p == (keys[i], t[i]);
      var j :| 0 <= j < |keys| && j < |t| && q == (keys[j], t[j]);
      assert i == j;
    }
  }

  lemma ZipIsVariant(m: Dimensions, t: seq<Obj>)
    requires t in Product(DimensionValues(m))
    ensures IsVariantOf(Zip(SortedKeys(m.Keys), t), m)
  {
    var v := Zip(SortedKeys(m.Keys), t);
    forall p | p in v ensures p.0 in m && p.1 in m[p.0] {
      ZipListsValues(m, t, p);
    }
    forall k | k in m ensures exists x :: (k, x) in v {
      ZipCoversKeys(m, t, k);
    }
    ZipHasUniqueKeys(SortedKeys(m.Keys), t);
  }

  lemma AllVariantsSound(m: Dimensions)
    ensures forall v :: v in AllVariants(m) ==> IsVariantOf(v, m)
  {
    var tuples := Product(DimensionValues(m));
    forall v | v in AllVariants(m) ensures IsVariantOf(v, m) {
      var n :| 0 <= n < |tuples| && AllVariants(m)[n] == v;
      ZipIsVariant(m, tuples[n]);
    }
  }

  /** The value `v` gives dimension `k`. */
  ghost function ValueOf(v: Variant, m: Dimensions, k: string): Obj
    requires IsVariantOf(v, m) && k in m
  {
    var x :| (k, x) in v; x
  }

  /** The values `v` picks, one per dimension in sorted name order. */
  ghost function PickedValues(v: Variant, m: Dimensions): (t: seq<Obj>)
    requires IsVariantOf(v, m)
    ensures |t| == |SortedKeys(m.Keys)|
    ensures forall i :: 0 <= i < |t| ==> (SortedKeys(m.Keys)[i], t[i]) in v
  {
    var keys := SortedKeys(m.Keys);
    seq(|keys|, i requires 0 <= i < |keys| => ValueOf(v, m, keys[i]))
  }

  lemma PickedValuesInProduct(v: Variant, m: Dimensions)
    requires IsVariantOf(v, m)
    ensures PickedValues(v, m) in Product(DimensionValues(m))
  {
    var keys := SortedKeys(m.Keys);
    var dims := DimensionValues(m);
    var t := PickedValues(v, m);
    forall i | 0 <= i < |dims| ensures t[i] in dims[i] {
      assert (keys[i], t[i]) in v;
    }
    ProductMember(dims, t);
  }

  lemma ZipPickedValues(v: Variant, m: Dimensions)
    requires IsVariantOf(v, m)
    ensures Zip(SortedKeys(m.Keys), PickedValues(v, m)) == v
  {
    var keys := SortedKeys(m.Keys);
    var t := PickedValues(v, m);
    assert forall p :: p in v ==> p.0 in keys;
    ZipWithin(keys, t, v);
    ZipCovers(keys, t, v);
  }

  lemma ZipCovers(keys: seq<string>, t: seq<Obj>, v: Variant)
    requires |t| == |keys|
    requires HasUniqueKeys(v)
    requires forall i :: 0 <= i < |t| ==> (keys[i], t[i]) in v
    requires forall p :: p in v ==> p.0 in keys
    ensures v <= Zip(keys, t)
  {
    forall p | p in v ensures p in Zip(keys, t) {
      var i :| 0 <= i < |keys| && keys[i] == p.0;
      assert (keys[i], t[i]) in v;
    }
  }

  lemma ZipWithin(keys: seq<string>, t: seq<Obj>, v: Variant)
    requires |t| == |keys|
    requires forall i :: 0 <= i < |t| ==> (keys[i], t[i]) in v
    ensures Zip(keys, t) <= v
  {
  }

  lemma VariantIsGenerated(m: Dimensions, v: Variant)
    requires IsVariantOf(v, m)
    ensures v in AllVariants(m)
  {
    var t := PickedValues(v, m);
    PickedValuesInProduct(v, m);
    ZipPickedValues(v, m);
    var tuples := Product(DimensionValues(m));
    var n :| 0 <= n < |tuples| && tuples[n] == t;
    assert AllVariants(m)[n] == v;
  }

  /** The variants generated are exactly the combinations that pick one listed value per
      dimension and contain every pair of `subset`. */
  lemma GenerateVariantsMember(m: Dimensions, subset: set<Pair>, v: Variant)
    ensures v in GenerateVariants(m, subset) <==> IsVariantOf(v, m) && subset <= v
  {
    if IsVariantOf(v, m) {
      VariantIsGenerated(m, v);
    }
  }

  /** Python can hash every value of the variant's pairs. */
  predicate AllHashable(v: Variant)
  {
    forall p :: p in v ==> Hashable(p.1)
  }

  /** What consuming `generate_variants(matrix, subset_pairs)` gives: the variants, or the
      TypeError that building a variant's frozenset raises on a value Python cannot hash. */
  function HashedVariants(m: Dimensions, subset: set<Pair>): (r: Result<seq<Variant>, string>)
    ensures r.Success? ==> r.value == GenerateVariants(m, subset)
  {
    if exists v :: v in AllVariants(m) && !AllHashable(v) then Failure("unhashable type")
    else Success(GenerateVariants(m, subset))
  }

  /** When no dimension is empty, every listed value ends up in some variant. */
  lemma ValueInSomeVariant(m: Dimensions, k: string, i: nat)
    requires forall d :: d in m ==> m[d] != []
    requires k in m && i < |m[k]|
    ensures exists v :: v in AllVariants(m) && (k, m[k][i]) in v
  {
    var keys := SortedKeys(m.Keys);
    var dims := DimensionValues(m);
    var j :| 0 <= j < |keys| && keys[j] == k;
    var t := seq(|keys|, n requires 0 <= n < |keys| => if n == j then m[k][i] else m[keys[n]][0]);
    forall n | 0 <= n < |dims| ensures t[n] in dims[n] {
    }
    ProductMember(dims, t);
    var tuples := Product(dims);
    var n :| 0 <= n < |tuples| && tuples[n] == t;
    assert (keys[j], t[j]) in Zip(keys, t);
    assert AllVariants(m)[n] == Zip(keys, t);
  }

  /** The TypeError is raised exactly when no dimension is empty and some dimension lists a
      value Python cannot hash, such as a list or a mapping. */
  lemma HashedVariantsFails(m: Dimensions, subset: set<Pair>)
    ensures HashedVariants(m, subset).Failure? <==>
      (forall k :: k in m ==> m[k] != []) && exists k, i :: k in m && 0 <= i < |m[k]| && !Hashable(m[k][i])
  {
    if HashedVariants(m, subset).Failure? {
      var v :| v in AllVariants(m) && !AllHashable(v);
      var k, x :| (k, x) in v && !Hashable(x);
      AllVariantsSound(m);
      var i :| 0 <= i < |m[k]| && m[k][i] == x;
      forall d | d in m ensures m[d] != [] {
        var y :| (d, y) in v;
      }
    }
    if (forall k :: k in m ==> m[k] != []) && exists k, i :: k in m && 0 <= i < |m[k]| && !Hashable(m[k][i]) {
      var k, i :| k in m && 0 <= i < |m[k]| && !Hashable(m[k][i]);
      ValueInSomeVariant(m, k, i);
    }
  }

  /** Variant `j` cannot be hashed and no earlier variant contains every pair of `subset`. */
  predicate UnhashableBeforeKept(variants: seq<Variant>, subset: set<Pair>, j: int)
  {
    0 <= j < |variants| && !AllHashable(variants[j]) && forall i :: 0 <= i < j ==> !(subset <= variants[i])
  }

  /** What drawing the first variant from `generate_variants(matrix, subset_pairs)` gives:
      the generator builds each variant's frozenset in product order, so it raises the
      TypeError on the first variant it cannot hash, unless a variant containing every pair
      of `subset` comes before it; with neither, the generator is exhausted. */
  function FirstKept(variants: seq<Variant>, subset: set<Pair>): (r: Result<Option<Variant>, string>)
    ensures r.Failure? <==> exists j :: UnhashableBeforeKept(variants, subset, j)
    ensures r.Success? && r.value.Some? ==>
      KeepSupersets(variants, subset) != [] && r.value.value == KeepSupersets(variants, subset)[0]
    ensures r.Success? && r.value.None? ==> KeepSupersets(variants, subset) == []
  {
    if |variants| == 0 then Success(None)
    else if !AllHashable(variants[0]) then (assert UnhashableBeforeKept(variants, subset, 0); Failure("unhashable type"))
    else if subset <= variants[0] then Success(Some(variants[0]))
    else
      var rest := FirstKept(variants[1..], subset);
      assert rest.Failure? ==> exists j :: UnhashableBeforeKept(variants, subset, j) by {
        if rest.Failure? {
          var j :| UnhashableBeforeKept(variants[1..], subset, j);
          assert variants[j + 1] == variants[1..][j];
          forall i | 0 < i < j + 1 ensures !(subset <= variants[i]) {
            assert variants[i] == variants[1..][i - 1];
          }
          assert UnhashableBeforeKept(variants, subset, j + 1);
        }
      }
      assert (exists j :: UnhashableBeforeKept(variants, subset, j)) ==> rest.Failure? by {
        if exists j :: UnhashableBeforeKept(variants, subset, j) {
          var j :| UnhashableBeforeKept(variants, subset, j);
          assert j > 0;
          assert variants[1..][j - 1] == variants[j];
          forall i | 0 <= i < j - 1 ensures !(subset <= variants[1..][i]) {
            assert variants[1..][i] == variants[i + 1];
          }
          assert UnhashableBeforeKept(variants[1..], subset, j - 1);
        }
      }
      rest
  }

  /** Drawing the first variant never raises where consuming the whole generator would
      not. */
  lemma FirstKeptFailsOnlyIfHashedFails(m: Dimensions, subset: set<Pair>)
    ensures FirstKept(AllVariants(m), subset).Failure? ==> HashedVariants(m, subset).Failure?
  {
    if FirstKept(AllVariants(m), subset).Failure? {
      var j :| UnhashableBeforeKept(AllVariants(m), subset, j);
      assert AllVariants(m)[j] in AllVariants(m);
    }
  }

  lemma {:induction false} KeepSupersetsOfNothing(variants: seq<Variant>)
    ensures KeepSupersets(variants, {}) == variants
  {
    if |variants| > 0 {
      KeepSupersetsOfNothing(variants[1..]);
    }
  }

  /** With no subset every product tuple gives one variant: n1 * ... * nk of them, in
      product order. */
  lemma VariantCount(m: Dimensions)
    ensures GenerateVariants(m, {}) == AllVariants(m)
    ensures |GenerateVariants(m, {})| == LengthProduct(DimensionValues(m))
  {
    KeepSupersetsOfNothing(AllVariants(m));
    ProductLength(DimensionValues(m));
  }

  /** A matrix without dimensions yields exactly one variant, the empty one, which only the
      empty subset selects. */
  lemma NoDimensions(subset: set<Pair>)
    ensures GenerateVariants(map[], subset) == if subset == {} then [{}] else []
  {
    var keys := SortedKeys({});
    assert keys == [];
    assert DimensionValues(map[]) == [];
    assert Product([]) == [[]];
    assert Zip([], []) == {};
    assert AllVariants(map[]) == [{}];
    if subset == {} {
      KeepSupersetsOfNothing([{}]);
    } else {
      NoMemberMeansEmpty(GenerateVariants(map[], subset));
    }
  }

  /** A dimension with no values yields no variant at all. */
  lemma EmptyDimension(m: Dimensions, subset: set<Pair>, k: string)
    requires k in m && m[k] == []
    ensures GenerateVariants(m, subset) == []
  {
    var keys := SortedKeys(m.Keys);
    var i :| 0 <= i < |keys| && keys[i] == k;
    LengthProductZero(DimensionValues(m), i);
    ProductLength(DimensionValues(m));
  }

  /** A subset pair naming no dimension, or a value that dimension does not list, matches
      no variant. */
  lemma ForeignSubsetPair(m: Dimensions, subset: set<Pair>, p: Pair)
    requires p in subset
    requires p.0 !in m || p.1 !in m[p.0]
    ensures GenerateVariants(m, subset) == []
  {
    var r := GenerateVariants(m, subset);
    assert forall v :: v !in r;
    NoMemberMeansEmpty(r);
  }

  lemma NoMemberMeansEmpty<T>(r: seq<T>)
    ensures (forall v :: v !in r) ==> r == []
  {
    if |r| > 0 {
      assert r[0] in r;
    }
  }

  /** zip of distinct names with as many values has one pair per name. */
  lemma {:induction false} ZipSize(keys: seq<string>, values: seq<Obj>)
    requires |keys| == |values|
    requires forall i, j :: 0 <= i < |keys| && 0 <= j < |keys| && keys[i] == keys[j] ==> i == j
    ensures |Zip(keys, values)| == |keys|
  {
    var n := |keys|;
    if n > 0 {
      ZipSize(keys[..n - 1], values[..n - 1]);
      var front := Zip(keys[..n - 1], values[..n - 1]);
      assert Zip(keys, values) == front + {(keys[n - 1], values[n - 1])};
      assert (keys[n - 1], values[n - 1]) !in front;
    }
  }

  /** Every generated variant holds exactly as many pairs as the matrix has dimensions. */
  lemma VariantSize(m: Dimensions, subset: set<Pair>, v: Variant)
    requires v in GenerateVariants(m, subset)
    ensures |v| == |m|
  {
    assert v in AllVariants(m);
    var n :| 0 <= n < |AllVariants(m)| && AllVariants(m)[n] == v;
    TupleVariantSize(m, n);
  }

  lemma TupleVariantSize(m: Dimensions, n: nat)
    requires n < |AllVariants(m)|
    ensures |AllVariants(m)[n]| == |m|
  {
    var keys := SortedKeys(m.Keys);
    var tuples := Product(DimensionValues(m));
    ProductMember(DimensionValues(m), tuples[n]);
    ZipSize(keys, tuples[n]);
  }

  // ---------------------------------------------------------------------------
  // Key validation

  /** `validate_keys(matrix, keys)`: raises `UnknownKeys` with the keys the matrix lacks,
      otherwise returns the matrix restricted to `keys`. */
  function ValidateKeys(m: Dimensions, keys: set<string>): (r: Result<Dimensions, KeysError>)
    ensures r.Failure? <==> !(keys <= m.Keys)
    ensures r.Failure? ==> r.error == UnknownKeys(keys - m.Keys)
    ensures r.Success? ==> r.value.Keys == keys && forall k :: k in keys ==> r.value[k] == m[k]
  {
    var unknown := keys - m.Keys;
    assert forall k :: k in keys ==> k in m.Keys || k in unknown;
    if unknown != {} then Failure(UnknownKeys(unknown))
    else Success(map k | k in m && k in keys :: m[k])
  }
}
