/**
 * The comparator sorts of `sortNotes` and `sortTasks`, and the plain `.sort()` of `getAllTags`.
 * Each sort field yields a key: a number for dates and priorities, a string otherwise.
 * JavaScript's `Array.prototype.sort` is stable, so for a comparator that is a total preorder
 * its result is fully determined; `Sort` computes that result by a stable insertion sort.
 */
module Sorting {
  import opened Sequences

  /** What the comparator subtracts (numbers) or compares with `localeCompare` (strings). */
  datatype SortKey = Num(n: int) | Text(s: string)

  /**
   * Lexicographic order on Unicode code points. It agrees with the UTF-16 code-unit order of
   * `.sort()` on strings without characters beyond U+FFFF.
   */
  predicate TextLe(a: string, b: string)
  {
    if a == [] then true
    else if b == [] then false
    else if a[0] != b[0] then a[0] < b[0]
    else TextLe(a[1..], b[1..])
  }

  lemma {:induction false} TextLeReflexive(a: string)
    ensures TextLe(a, a)
  {
    if a != [] { TextLeReflexive(a[1..]); }
  }

  lemma {:induction false} TextLeTotal(a: string, b: string)
    ensures TextLe(a, b) || TextLe(b, a)
  {
    if a != [] && b != [] && a[0] == b[0] { TextLeTotal(a[1..], b[1..]); }
  }

  lemma {:induction false} TextLeAntisymmetric(a: string, b: string)
    requires TextLe(a, b) && TextLe(b, a)
    ensures a == b
  {
    if a != [] && b != [] {
      TextLeAntisymmetric(a[1..], b[1..]);
      assert a == [a[0]] + a[1..] && b == [b[0]] + b[1..];
    }
  }

  lemma {:induction false} TextLeTransitive(a: string, b: string, c: string)
    requires TextLe(a, b) && TextLe(b, c)
    ensures TextLe(a, c)
  {
    if a != [] && b != [] && c != [] && a[0] == b[0] && b[0] == c[0] {
      TextLeTransitive(a[1..], b[1..], c[1..]);
    }
  }

  /** The comparator's "not greater than" on keys (a field never mixes numbers and strings). */
  predicate KeyLe(a: SortKey, b: SortKey)
  {
    match (a, b)
    case (Num(x), Num(y)) => x <= y
    case (Text(x), Text(y)) => TextLe(x, y)
    case (Num(_), Text(_)) => true
    case (Text(_), Num(_)) => false
  }

  /** `a` may stand before `b`: ascending compares keys as they are, descending the other way round. */
  predicate InOrder(a: SortKey, b: SortKey, ascending: bool)
  {
    if ascending then KeyLe(a, b) else KeyLe(b, a)
  }

  lemma InOrderReflexive(a: SortKey, ascending: bool)
    ensures InOrder(a, a, ascending)
  {
    if a.Text? { TextLeReflexive(a.s); }
  }

  lemma InOrderTotal(a: SortKey, b: SortKey, ascending: bool)
    ensures InOrder(a, b, ascending) || InOrder(b, a, ascending)
  {
    if a.Text? && b.Text? { TextLeTotal(a.s, b.s); }
  }

  lemma InOrderTransitive(a: SortKey, b: SortKey, c: SortKey, ascending: bool)
    requires InOrder(a, b, ascending) && InOrder(b, c, ascending)
    ensures InOrder(a, c, ascending)
  {
    if a.Text? && b.Text? && c.Text? {
      if ascending { TextLeTransitive(a.s, b.s, c.s); } else { TextLeTransitive(c.s, b.s, a.s); }
    }
  }

  lemma InOrderAntisymmetric(a: SortKey, b: SortKey, ascending: bool)
    requires InOrder(a, b, ascending) && InOrder(b, a, ascending)
    ensures a == b
  {
    if a.Text? && b.Text? { TextLeAntisymmetric(a.s, b.s); }
  }

  /** Every element may stand before every later one. */
  ghost predicate Sorted<T>(s: seq<T>, key: T -> SortKey, ascending: bool)
  {
    forall i, j :: 0 <= i < j < |s| ==> InOrder(key(s[i]), key(s[j]), ascending)
  }

  /** Puts `x` in front of the first element it may stand before; the elements it passes are strictly before it. */
  function Insert<T>(x: T, s: seq<T>, key: T -> SortKey, ascending: bool): (r: seq<T>)
    ensures |r| == |s| + 1
    ensures multiset(r) == multiset(s) + multiset{x}
  {
    if s == [] || InOrder(key(x), key(s[0]), ascending) then [x] + s
    else
      assert s == [s[0]] + s[1..];
      [s[0]] + Insert(x, s[1..], key, ascending)
  }

  /** When `x` passes the head of a sorted sequence, the head may stand before all that follows it. */
  lemma HeadBeforeInsertedRest<T>(x: T, s: seq<T>, key: T -> SortKey, ascending: bool)
    requires Sorted(s, key, ascending) && s != [] && !InOrder(key(x), key(s[0]), ascending)
    ensures forall y :: y in Insert(x, s[1..], key, ascending) ==> InOrder(key(s[0]), key(y), ascending)
  {
    var rest := Insert(x, s[1..], key, ascending);
    InOrderTotal(key(x), key(s[0]), ascending);
    forall y | y in rest ensures InOrder(key(s[0]), key(y), ascending) {
      assert y in multiset(rest);
      if y != x {
        assert y in multiset(s[1..]);
        var j :| 0 <= j < |s[1..]| && s[1..][j] == y;
        assert s[j + 1] == y;
      }
    }
  }

  /** Inserting into a sorted sequence keeps it sorted. */
  lemma {:induction false} InsertSorted<T>(x: T, s: seq<T>, key: T -> SortKey, ascending: bool)
    requires Sorted(s, key, ascending)
    ensures Sorted(Insert(x, s, key, ascending), key, ascending)
  {
    var r := Insert(x, s, key, ascending);
    if s == [] || InOrder(key(x), key(s[0]), ascending) {
      assert r == [x] + s;
      forall i, j | 0 <= i < j < |r| ensures InOrder(key(r[i]), key(r[j]), ascending) {
        if i == 0 && j > 1 {
          InOrderTransitive(key(x), key(s[0]), key(s[j - 1]), ascending);
        }
      }
    } else {
      var rest := Insert(x, s[1..], key, ascending);
      assert r == [s[0]] + rest;
      assert Sorted(s[1..], key, ascending);
      InsertSorted(x, s[1..], key, ascending);
      HeadBeforeInsertedRest(x, s, key, ascending);
      forall i, j | 0 <= i < j < |r| ensures InOrder(key(r[i]), key(r[j]), ascending) {
        if i == 0 { assert r[j] == rest[j - 1] && r[j] in rest; }
        else { assert r[i] == rest[i - 1] && r[j] == rest[j - 1]; }
      }
    }
  }

  /** The stable sort of `s` by `key`, a permutation of `s`. */
  function Sort<T>(s: seq<T>, key: T -> SortKey, ascending: bool): (r: seq<T>)
    ensures |r| == |s|
    ensures multiset(r) == multiset(s)
  {
    if s == [] then []
    else
      assert s == [s[0]] + s[1..];
      Insert(s[0], Sort(s[1..], key, ascending), key, ascending)
  }

  /** Every element of the sorted sequence may stand before every later one. */
  lemma {:induction false} SortSorted<T>(s: seq<T>, key: T -> SortKey, ascending: bool)
    ensures Sorted(Sort(s, key, ascending), key, ascending)
  {
    if s != [] {
      SortSorted(s[1..], key, ascending);
      InsertSorted(s[0], Sort(s[1..], key, ascending), key, ascending);
    }
  }

  lemma FilterSingleton<T(!new)>(x: T, p: T -> bool)
    ensures Filter([x], p) == if p(x) then [x] else []
  {
    assert [x][1..] == [];
  }

  /** Passing over an element `y` that `p` rejects whenever it accepts `x` leaves `x` where the filter puts it. */
  lemma FilterPassOver<T(!new)>(x: T, y: T, rest: seq<T>, t: seq<T>, p: T -> bool)
    requires p(x) ==> !p(y)
    requires Filter(rest, p) == (if p(x) then [x] else []) + Filter(t, p)
    ensures Filter([y] + rest, p) == (if p(x) then [x] else []) + Filter([y] + t, p)
  {
    FilterConcat([y], rest, p);
    FilterConcat([y], t, p);
    FilterSingleton(y, p);
    if p(x) {
      assert Filter([y], p) == [];
      assert Filter([y] + rest, p) == Filter(rest, p);
      assert Filter([y] + t, p) == Filter(t, p);
    } else {
      assert Filter(rest, p) == Filter(t, p);
    }
  }

  /** Inserting `x` puts it in front of every element with the same key. */
  lemma {:induction false} FilterInsert<T(!new)>(x: T, s: seq<T>, key: T -> SortKey, ascending: bool, p: T -> bool, k: SortKey)
    requires forall y :: p(y) <==> key(y) == k
    ensures Filter(Insert(x, s, key, ascending), p) == (if p(x) then [x] else []) + Filter(s, p)
  {
    if s == [] || InOrder(key(x), key(s[0]), ascending) {
      FilterSingleton(x, p);
      FilterConcat([x], s, p);
    } else {
      FilterInsert(x, s[1..], key, ascending, p, k);
      // the elements `x` passes are strictly before it, so none of them has its key
      InOrderReflexive(key(x), ascending);
      assert p(x) ==> !p(s[0]);
      FilterPassOver(x, s[0], Insert(x, s[1..], key, ascending), s[1..], p);
      assert s == [s[0]] + s[1..];
    }
  }

  /**
   * Stability: elements with equal keys keep their original relative order.
   * Picking out the elements with any one key gives the same sequence before and after sorting.
   */
  lemma {:induction false} SortStable<T(!new)>(s: seq<T>, key: T -> SortKey, ascending: bool, p: T -> bool, k: SortKey)
    requires forall y :: p(y) <==> key(y) == k
    ensures Filter(Sort(s, key, ascending), p) == Filter(s, p)
  {
    if s != [] {
      SortStable(s[1..], key, ascending, p, k);
      FilterSingleton(s[0], p);
      FilterInsert(s[0], Sort(s[1..], key, ascending), key, ascending, p, k);
      FilterConcat([s[0]], s[1..], p);
      assert s == [s[0]] + s[1..];
    }
  }

  /** A sorted permutation is unique up to the order of equal keys: a sorted input is returned unchanged. */
  lemma {:induction false} SortKeepsSorted<T>(s: seq<T>, key: T -> SortKey, ascending: bool)
    requires Sorted(s, key, ascending)
    ensures Sort(s, key, ascending) == s
  {
    if s != [] {
      assert Sorted(s[1..], key, ascending);
      SortKeepsSorted(s[1..], key, ascending);
      if |s| > 1 {
        assert InOrder(key(s[0]), key(s[1..][0]), ascending);
      }
    }
  }
}
