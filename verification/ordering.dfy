/** How the task collection sorts documents for `find().sort(...)`:
    values compare by Mongo's type order first and then within their type,
    and a sort key compares field by field. */
module Ordering {
  import opened Py
  import opened ObjectIds

  /** Mongo's order between types. A missing field sorts as null. */
  function TypeRank(v: Value): nat {
    match v
    case Null => 1
    case Num(_) => 2
    case Str(_) => 3
    case Obj(_) => 4
    case Arr(_) => 5
    case Bool(_) => 8
  }

  function Sign(n: int): int {
    if n < 0 then -1 else if n > 0 then 1 else 0
  }

  /** Strings compare code point by code point, a proper prefix first. */
  function StrCmp(a: string, b: string): (r: int)
    ensures -1 <= r <= 1
  {
    if a == [] || b == [] then Sign(|a| - |b|)
    else if a[0] != b[0] then Sign(a[0] as int - b[0] as int)
    else StrCmp(a[1..], b[1..])
  }

  lemma {:induction false} StrCmpAntisymmetric(a: string, b: string)
    ensures StrCmp(a, b) == -StrCmp(b, a)
  {
    if a != [] && b != [] && a[0] == b[0] {
      StrCmpAntisymmetric(a[1..], b[1..]);
    }
  }

  lemma {:induction false} StrCmpZero(a: string, b: string)
    ensures StrCmp(a, b) == 0 <==> a == b
  {
    if a != [] && b != [] && a[0] == b[0] {
      StrCmpZero(a[1..], b[1..]);
      assert a == [a[0]] + a[1..] && b == [b[0]] + b[1..];
    }
  }

  lemma {:induction false} StrCmpTransitive(a: string, b: string, c: string)
    requires StrCmp(a, b) <= 0 && StrCmp(b, c) <= 0
    ensures StrCmp(a, c) <= 0
  {
    if a != [] && b != [] && c != [] && a[0] == b[0] && b[0] == c[0] {
      StrCmpTransitive(a[1..], b[1..], c[1..]);
    }
  }

  /** The comparison of two field values: -1, 0 or 1. Objects and arrays
      of the same type compare equal. */
  function ValueCmp(a: Value, b: Value): (r: int)
    ensures -1 <= r <= 1
    ensures TypeRank(a) < TypeRank(b) ==> r == -1
    ensures a == b ==> r == 0
  {
    if TypeRank(a) != TypeRank(b) then Sign(TypeRank(a) - TypeRank(b))
    else
      match (a, b)
      case (Num(x), Num(y)) => Sign(x - y)
      case (Str(x), Str(y)) => StrCmpZero(x, y); StrCmp(x, y)
      case (Bool(x), Bool(y)) => Sign((if x then 1 else 0) - (if y then 1 else 0))
      case _ => 0
  }

  /** Within a type, numbers compare numerically, strings are equal only
      when they are the same text, and false comes before true. */
  lemma ValueCmpWithinType(a: Value, b: Value)
    ensures a.Null? && b.Null? ==> ValueCmp(a, b) == 0
    ensures a.Num? && b.Num? ==> (ValueCmp(a, b) < 0 <==> a.n < b.n) && (ValueCmp(a, b) == 0 <==> a.n == b.n)
    ensures a.Str? && b.Str? ==> (ValueCmp(a, b) == 0 <==> a.s == b.s)
    ensures a.Bool? && b.Bool? ==> (ValueCmp(a, b) < 0 <==> !a.b && b.b)
  {
    if a.Str? && b.Str? {
      StrCmpZero(a.s, b.s);
    }
  }

  lemma ValueCmpAntisymmetric(a: Value, b: Value)
    ensures ValueCmp(a, b) == -ValueCmp(b, a)
  {
    if a.Str? && b.Str? {
      StrCmpAntisymmetric(a.s, b.s);
    }
  }

  lemma ValueCmpTransitive(a: Value, b: Value, c: Value)
    requires ValueCmp(a, b) <= 0 && ValueCmp(b, c) <= 0
    ensures ValueCmp(a, c) <= 0
  {
    if a.Str? && b.Str? && c.Str? {
      StrCmpTransitive(a.s, b.s, c.s);
    }
  }

  /** Sort keys compare field by field; the first difference decides. */
  function KeyCmp(a: seq<Value>, b: seq<Value>): (r: int)
    ensures -1 <= r <= 1
  {
    if a == [] || b == [] then Sign(|a| - |b|)
    else if ValueCmp(a[0], b[0]) != 0 then ValueCmp(a[0], b[0])
    else KeyCmp(a[1..], b[1..])
  }

  /** Where two keys first differ, that field decides their order. */
  lemma {:induction false} KeyCmpFirstDifference(a: seq<Value>, b: seq<Value>, i: nat)
    requires i < |a| && i < |b|
    requires forall j :: 0 <= j < i ==> ValueCmp(a[j], b[j]) == 0
    requires ValueCmp(a[i], b[i]) != 0
    ensures KeyCmp(a, b) == ValueCmp(a[i], b[i])
  {
    if i > 0 {
      assert ValueCmp(a[0], b[0]) == 0;
      KeyCmpFirstDifference(a[1..], b[1..], i - 1);
    }
  }

  /** Two keys tie exactly when they have the same length and tie field
      by field. */
  lemma {:induction false} KeyCmpTie(a: seq<Value>, b: seq<Value>)
    ensures KeyCmp(a, b) == 0 <==> |a| == |b| && forall j :: 0 <= j < |a| ==> ValueCmp(a[j], b[j]) == 0
  {
    if a != [] && b != [] {
      KeyCmpTie(a[1..], b[1..]);
      if ValueCmp(a[0], b[0]) == 0 && KeyCmp(a[1..], b[1..]) == 0 {
        forall j | 0 <= j < |a|
          ensures ValueCmp(a[j], b[j]) == 0
        {
          if j > 0 {
            assert a[j] == a[1..][j - 1] && b[j] == b[1..][j - 1];
          }
        }
      }
      if |a| == |b| && forall j :: 0 <= j < |a| ==> ValueCmp(a[j], b[j]) == 0 {
        assert ValueCmp(a[0], b[0]) == 0;
        forall j | 0 <= j < |a| - 1
          ensures ValueCmp(a[1..][j], b[1..][j]) == 0
        {
          assert a[1..][j] == a[j + 1];
        }
      }
    }
  }

  lemma {:induction false} KeyCmpAntisymmetric(a: seq<Value>, b: seq<Value>)
    ensures KeyCmp(a, b) == -KeyCmp(b, a)
  {
    if a != [] && b != [] {
      ValueCmpAntisymmetric(a[0], b[0]);
      KeyCmpAntisymmetric(a[1..], b[1..]);
    }
  }

  lemma {:induction false} KeyCmpTransitive(a: seq<Value>, b: seq<Value>, c: seq<Value>)
    requires KeyCmp(a, b) <= 0 && KeyCmp(b, c) <= 0
    ensures KeyCmp(a, c) <= 0
  {
    if a != [] && b != [] && c != [] {
      ValueCmpAntisymmetric(a[0], b[0]);
      ValueCmpAntisymmetric(b[0], c[0]);
      ValueCmpAntisymmetric(a[0], c[0]);
      ValueCmpTransitive(a[0], b[0], c[0]);
      if ValueCmp(a[0], b[0]) == 0 && ValueCmp(b[0], c[0]) == 0 {
        KeyCmpTransitive(a[1..], b[1..], c[1..]);
      } else if ValueCmp(a[0], c[0]) == 0 {
        // a[0] ~ c[0] with a[0] < b[0] <= c[0] (or a[0] <= b[0] < c[0]) cannot happen
        ValueCmpTransitive(c[0], a[0], b[0]);
        ValueCmpTransitive(b[0], c[0], a[0]);
      }
    }
  }

  /** `[doc.get(f) for f in fields]`: a document's sort key. */
  function SortKey(doc: Doc, fields: seq<string>): (k: seq<Value>)
    ensures |k| == |fields|
    ensures forall i :: 0 <= i < |fields| ==> k[i] == (if fields[i] in doc then doc[fields[i]] else Null)
  {
    seq(|fields|, i requires 0 <= i < |fields| => Get(doc, fields[i], Null))
  }

  /** The sort key of every document being sorted, by id. */
  type Keys = map<ObjectId, seq<Value>>

  predicate AllKeyed(ids: seq<ObjectId>, keys: Keys) {
    forall i :: 0 <= i < |ids| ==> ids[i] in keys
  }

  /** `ids` is in ascending key order. */
  ghost predicate Sorted(ids: seq<ObjectId>, keys: Keys) {
    && AllKeyed(ids, keys)
    && forall i, j :: 0 <= i < j < |ids| ==> KeyCmp(keys[ids[i]], keys[ids[j]]) <= 0
  }

  /** Places `id` before the first id whose key is not smaller. */
  function Insert(id: ObjectId, sorted: seq<ObjectId>, keys: Keys): (r: seq<ObjectId>)
    requires id in keys && AllKeyed(sorted, keys)
    ensures multiset(r) == multiset(sorted) + multiset{id}
    ensures AllKeyed(r, keys)
  {
    if sorted == [] then [id]
    else if KeyCmp(keys[id], keys[sorted[0]]) <= 0 then [id] + sorted
    else
      assert sorted == [sorted[0]] + sorted[1..];
      [sorted[0]] + Insert(id, sorted[1..], keys)
  }

  lemma {:induction false} InsertSorted(id: ObjectId, sorted: seq<ObjectId>, keys: Keys)
    requires id in keys && Sorted(sorted, keys)
    ensures Sorted(Insert(id, sorted, keys), keys)
  {
    if sorted == [] {
    } else if KeyCmp(keys[id], keys[sorted[0]]) <= 0 {
      forall j | 1 <= j < |sorted| + 1
        ensures KeyCmp(keys[id], keys[([id] + sorted)[j]]) <= 0
      {
        if j > 1 {
          KeyCmpTransitive(keys[id], keys[sorted[0]], keys[sorted[j - 1]]);
        }
      }
    } else {
      var head, rest := sorted[0], Insert(id, sorted[1..], keys);
      InsertSorted(id, sorted[1..], keys);
      KeyCmpAntisymmetric(keys[id], keys[head]);
      forall j | 0 <= j < |rest|
        ensures KeyCmp(keys[head], keys[rest[j]]) <= 0
      {
        assert rest[j] in multiset(sorted[1..]) + multiset{id};
        if rest[j] != id {
          assert rest[j] in sorted[1..];
        }
      }
    }
  }

  /** An insertion sort of `ids`, given in the order the collection yields
      them; ids with equal keys keep that order. */
  function SortIds(ids: seq<ObjectId>, keys: Keys): (r: seq<ObjectId>)
    requires AllKeyed(ids, keys)
    ensures multiset(r) == multiset(ids)
    ensures AllKeyed(r, keys)
  {
    if ids == [] then []
    else
      assert ids == [ids[0]] + ids[1..];
      Insert(ids[0], SortIds(ids[1..], keys), keys)
  }

  /** The sort yields its input's ids in ascending key order. */
  lemma {:induction false} SortIdsSorted(ids: seq<ObjectId>, keys: Keys)
    requires AllKeyed(ids, keys)
    ensures Sorted(SortIds(ids, keys), keys)
  {
    if ids != [] {
      SortIdsSorted(ids[1..], keys);
      InsertSorted(ids[0], SortIds(ids[1..], keys), keys);
    }
  }
}
