/** String helpers: Python's ordering of `str`, sorted enumeration of a set of names,
    `sep.join(parts)` and decimal formatting of integers. */
module Strings {

  /** Python's `a < b` on str: code point by code point, a proper prefix first. */
  predicate Less(a: string, b: string)
    decreases |a|
  {
    if |a| == 0 then |b| != 0
    else if |b| == 0 then false
    else if a[0] != b[0] then a[0] < b[0]
    else Less(a[1..], b[1..])
  }

  lemma LessIrreflexive(a: string)
    ensures !Less(a, a)
  {
  }

  lemma {:induction false} LessAsymmetric(a: string, b: string)
    requires Less(a, b)
    ensures !Less(b, a)
    decreases |a|
  {
    if |a| != 0 && |b| != 0 && a[0] == b[0] {
      LessAsymmetric(a[1..], b[1..]);
    }
  }

  lemma {:induction false} LessTransitive(a: string, b: string, c: string)
    requires Less(a, b) && Less(b, c)
    ensures Less(a, c)
    decreases |a|
  {
    if |a| != 0 && a[0] == b[0] && b[0] == c[0] {
      LessTransitive(a[1..], b[1..], c[1..]);
    }
  }

  lemma {:induction false} LessTotal(a: string, b: string)
    ensures a == b || Less(a, b) || Less(b, a)
    decreases |a|
  {
    if |a| != 0 && |b| != 0 && a[0] == b[0] {
      LessTotal(a[1..], b[1..]);
      if a[1..] == b[1..] {
        assert a == [a[0]] + a[1..] && b == [b[0]] + b[1..];
      }
    }
  }

  /** `m` is the smallest name of `names`. */
  predicate IsLeast(m: string, names: set<string>)
  {
    m in names && forall x :: x in names && x != m ==> Less(m, x)
  }

  lemma {:induction false} LeastExists(names: set<string>)
    requires names != {}
    ensures exists m :: IsLeast(m, names)
    decreases |names|
  {
    var y :| y in names;
    if names == {y} {
      assert IsLeast(y, names);
    } else {
      LeastExists(names - {y});
      var m :| IsLeast(m, names - {y});
      LessTotal(m, y);
      if Less(m, y) {
        assert IsLeast(m, names);
      } else {
        forall x | x in names && x != y
          ensures Less(y, x)
        {
          if x != m {
            LessTransitive(y, m, x);
          }
        }
        assert IsLeast(y, names);
      }
    }
  }

  lemma LeastUnique(names: set<string>)
    ensures forall m1, m2 :: IsLeast(m1, names) && IsLeast(m2, names) ==> m1 == m2
  {
    forall m1, m2 | IsLeast(m1, names) && IsLeast(m2, names)
      ensures m1 == m2
    {
      if m1 != m2 {
        LessAsymmetric(m1, m2);
      }
    }
  }

  /** Every name of `names` exactly once, in strictly increasing order. */
  ghost predicate SortedOf(r: seq<string>, names: set<string>)
  {
    && |r| == |names|
    && (forall k :: k in r <==> k in names)
    && (forall i, j :: 0 <= i < j < |r| ==> Less(r[i], r[j]))
    && (forall i, j :: 0 <= i < |r| && 0 <= j < |r| && r[i] == r[j] ==> i == j)
  }

  /** The least name, followed by the rest in order, is all names in order. */
  lemma SortedCons(m: string, names: set<string>, rest: seq<string>)
    requires IsLeast(m, names) && SortedOf(rest, names - {m})
    ensures SortedOf([m] + rest, names)
  {
    var r := [m] + rest;
    assert names == (names - {m}) + {m};
    forall i, j | 0 <= i < j < |r|
      ensures Less(r[i], r[j])
    {
      if i == 0 {
        assert r[j] == rest[j - 1] && r[j] in names - {m};
      } else {
        assert r[i] == rest[i - 1] && r[j] == rest[j - 1];
      }
    }
    forall i, j | 0 <= i < |r| && 0 <= j < |r| && r[i] == r[j]
      ensures i == j
    {
      if i != j {
        if i < j {
          LessIrreflexive(r[i]);
        } else {
          LessIrreflexive(r[j]);
        }
      }
    }
  }

  /** `sorted(names)`: every name exactly once, in strictly increasing order. */
  function SortedKeys(names: set<string>): (r: seq<string>)
    ensures SortedOf(r, names)
    decreases |names|
  {
    if names == {} then []
    else
      LeastExists(names);
      LeastUnique(names);
      var m :| IsLeast(m, names);
      var rest := SortedKeys(names - {m});
      SortedCons(m, names, rest);
      [m] + rest
  }

  /** `sep.join(parts)`. */
  function Join(parts: seq<string>, sep: string): string
  {
    if |parts| == 0 then ""
    else if |parts| == 1 then parts[0]
    else parts[0] + sep + Join(parts[1..], sep)
  }

  /** `part` occurs in `text` starting at position `i`. */
  predicate OccursAt(text: string, part: string, i: int)
  {
    0 <= i <= |text| - |part| && text[i..i + |part|] == part
  }

  /** `part` occurs in `text`. */
  ghost predicate Contains(text: string, part: string)
  {
    exists i :: OccursAt(text, part, i)
  }

  lemma ContainsInFront(text: string, more: string, part: string)
    requires Contains(text, part)
    ensures Contains(text + more, part)
  {
    var i :| OccursAt(text, part, i);
    assert (text + more)[i..i + |part|] == part;
    assert OccursAt(text + more, part, i);
  }

  lemma ContainsBehind(more: string, text: string, part: string)
    requires Contains(text, part)
    ensures Contains(more + text, part)
  {
    var i :| OccursAt(text, part, i);
    assert (more + text)[|more| + i..|more| + i + |part|] == part;
    assert OccursAt(more + text, part, |more| + i);
  }

  lemma {:induction false} JoinContains(parts: seq<string>, sep: string, k: nat)
    requires k < |parts|
    ensures Contains(Join(parts, sep), parts[k])
  {
    if |parts| == 1 {
      assert Join(parts, sep)[0..|parts[0]|] == parts[0];
      assert OccursAt(Join(parts, sep), parts[k], 0);
    } else if k == 0 {
      assert (parts[0] + sep + Join(parts[1..], sep))[0..|parts[0]|] == parts[0];
      assert OccursAt(Join(parts, sep), parts[k], 0);
    } else {
      JoinContains(parts[1..], sep, k - 1);
      ContainsBehind(parts[0] + sep, Join(parts[1..], sep), parts[k]);
    }
  }

  function DigitChar(d: nat): char
    requires d < 10
  {
    "0123456789"[d]
  }

  /** `str(n)` for a natural number. */
  function NatToString(n: nat): string
    decreases n
  {
    if n < 10 then [DigitChar(n)] else NatToString(n / 10) + [DigitChar(n % 10)]
  }

  /** `str(i)` for an int: a minus sign, then the digits of its magnitude. */
  function IntToString(i: int): string
  {
    if i < 0 then "-" + NatToString(-i) else NatToString(i)
  }
}
