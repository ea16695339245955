/** Sorting by text, as Python sorts strings, and why its result does not depend on the order it starts from. */
module Sorting {

  /** `a <= b` on strings, by code points. */
  predicate TextLeq(a: string, b: string) {
    a == "" || (b != "" && (a[0] < b[0] || (a[0] == b[0] && TextLeq(a[1..], b[1..]))))
  }

  /** The order of strings: a prefix comes first, and otherwise the smaller character at the first difference decides. */
  ghost predicate ComesFirst(a: string, b: string) {
    a <= b || exists i :: 0 <= i < |a| && i < |b| && a[..i] == b[..i] && a[i] < b[i]
  }

  lemma {:induction false} TextLeqIs(a: string, b: string)
    ensures TextLeq(a, b) <==> ComesFirst(a, b)
  {
    if a != "" && b != "" {
      if a[0] == b[0] {
        TextLeqIs(a[1..], b[1..]);
        TailsCompare(a, b);
      } else if a[0] < b[0] {
        assert a[..0] == b[..0];
      } else {
        assert forall i :: 0 < i < |a| && i < |b| ==> a[..i][0] == a[0] && b[..i][0] == b[0];
      }
    }
  }

  lemma TailsCompare(a: string, b: string)
    requires a != "" && b != "" && a[0] == b[0]
    ensures ComesFirst(a[1..], b[1..]) <==> ComesFirst(a, b)
  {
    assert a == [a[0]] + a[1..] && b == [b[0]] + b[1..];
    if i :| 0 <= i < |a| && i < |b| && a[..i] == b[..i] && a[i] < b[i] {
      assert a[1..][..i - 1] == a[..i][1..] == b[..i][1..] == b[1..][..i - 1];
      assert a[1..][i - 1] < b[1..][i - 1];
    }
    if i :| 0 <= i < |a[1..]| && i < |b[1..]| && a[1..][..i] == b[1..][..i] && a[1..][i] < b[1..][i] {
      assert a[..i + 1] == [a[0]] + a[1..][..i] && b[..i + 1] == [b[0]] + b[1..][..i];
      assert a[i + 1] < b[i + 1];
    }
  }

  lemma {:induction false} TextTotal(a: string, b: string)
    ensures TextLeq(a, b) || TextLeq(b, a)
  {
    if a != "" && b != "" && a[0] == b[0] {
      TextTotal(a[1..], b[1..]);
    }
  }

  lemma {:induction false} TextAntisymmetric(a: string, b: string)
    requires TextLeq(a, b) && TextLeq(b, a)
    ensures a == b
  {
    if a != "" {
      TextAntisymmetric(a[1..], b[1..]);
      assert a == [a[0]] + a[1..] && b == [b[0]] + b[1..];
    }
  }

  lemma {:induction false} TextTransitive(a: string, b: string, c: string)
    requires TextLeq(a, b) && TextLeq(b, c)
    ensures TextLeq(a, c)
  {
    if a != "" && a[0] == b[0] == c[0] {
      TextTransitive(a[1..], b[1..], c[1..]);
    }
  }

  /** Something to be sorted, with the text it is sorted by. */
  datatype Keyed<T> = Keyed(key: string, item: T)

  /** Behind everything not greater, so that equal keys keep their order. */
  function Insert<T>(sorted: seq<Keyed<T>>, k: Keyed<T>): seq<Keyed<T>> {
    if sorted == [] then [k]
    else
      var last := |sorted| - 1;
      if TextLeq(sorted[last].key, k.key) then sorted + [k] else Insert(sorted[..last], k) + [sorted[last]]
  }

  /** `list.sort(key=...)`. */
  function Sort<T>(items: seq<Keyed<T>>): seq<Keyed<T>> {
    if items == [] then [] else Insert(Sort(items[..|items| - 1]), items[|items| - 1])
  }

  ghost predicate IsSorted<T>(items: seq<Keyed<T>>) {
    forall i, j :: 0 <= i < j < |items| ==> TextLeq(items[i].key, items[j].key)
  }

  lemma {:induction false} InsertPermutes<T>(sorted: seq<Keyed<T>>, k: Keyed<T>)
    ensures multiset(Insert(sorted, k)) == multiset(sorted) + multiset{k}
  {
    if sorted != [] {
      var last := |sorted| - 1;
      assert sorted == sorted[..last] + [sorted[last]];
      InsertPermutes(sorted[..last], k);
    }
  }

  lemma {:induction false} SortPermutes<T>(items: seq<Keyed<T>>)
    ensures multiset(Sort(items)) == multiset(items)
  {
    if items != [] {
      var last := |items| - 1;
      assert items == items[..last] + [items[last]];
      SortPermutes(items[..last]);
      InsertPermutes(Sort(items[..last]), items[last]);
    }
  }

  lemma SameMembers<T>(a: seq<Keyed<T>>, b: seq<Keyed<T>>)
    requires multiset(a) == multiset(b)
    ensures |a| == |b| && forall x :: x in a <==> x in b
  {
    assert |a| == |multiset(a)| == |multiset(b)| == |b|;
    forall x
      ensures x in a <==> x in b
    {
      assert x in a <==> x in multiset(a);
      assert x in b <==> x in multiset(b);
    }
  }

  lemma {:induction false} InsertSorts<T>(sorted: seq<Keyed<T>>, k: Keyed<T>)
    requires IsSorted(sorted)
    ensures IsSorted(Insert(sorted, k))
  {
    if sorted != [] {
      var last := |sorted| - 1;
      if TextLeq(sorted[last].key, k.key) {
        forall i | 0 <= i < |sorted|
          ensures TextLeq(sorted[i].key, k.key)
        {
          if i < last {
            TextTransitive(sorted[i].key, sorted[last].key, k.key);
          }
        }
      } else {
        TextTotal(sorted[last].key, k.key);
        InsertSorts(sorted[..last], k);
        InsertPermutes(sorted[..last], k);
        var inner := Insert(sorted[..last], k);
        forall i | 0 <= i < |inner|
          ensures TextLeq(inner[i].key, sorted[last].key)
        {
          assert inner[i] in multiset(inner);
          assert inner[i] in sorted[..last] || inner[i] == k;
        }
      }
    }
  }

  lemma {:induction false} SortSorts<T>(items: seq<Keyed<T>>)
    ensures IsSorted(Sort(items))
  {
    if items != [] {
      SortSorts(items[..|items| - 1]);
      InsertSorts(Sort(items[..|items| - 1]), items[|items| - 1]);
    }
  }

  /** The keys alone. */
  function Keys<T>(items: seq<Keyed<T>>): seq<string> {
    seq(|items|, i requires 0 <= i < |items| => items[i].key)
  }

  ghost predicate TextsSorted(texts: seq<string>) {
    forall i, j :: 0 <= i < j < |texts| ==> TextLeq(texts[i], texts[j])
  }

  lemma WithoutOne<T>(items: seq<T>, i: nat)
    requires i < |items|
    ensures multiset(items[..i] + items[i + 1..]) == multiset(items) - multiset{items[i]}
  {
    assert items == items[..i] + [items[i]] + items[i + 1..];
  }

  lemma WithoutLast<T>(items: seq<T>)
    requires items != []
    ensures multiset(items[..|items| - 1]) == multiset(items) - multiset{items[|items| - 1]}
  {
    assert items == items[..|items| - 1] + [items[|items| - 1]];
  }

  lemma Position<T>(a: seq<T>, b: seq<T>, i: nat) returns (j: nat)
    requires multiset(a) == multiset(b) && i < |a|
    ensures j < |b| && b[j] == a[i] && |a| == |b|
  {
    assert |a| == |multiset(a)| == |multiset(b)| == |b|;
    assert a[i] in multiset(b);
    j :| 0 <= j < |b| && b[j] == a[i];
  }

  lemma LastTextsAgree(a: seq<string>, b: seq<string>)
    requires TextsSorted(a) && TextsSorted(b) && multiset(a) == multiset(b) && a != []
    ensures |a| == |b| && a[|a| - 1] == b[|b| - 1]
  {
    var last := |a| - 1;
    var i := Position(a, b, last);
    var j := Position(b, a, last);
    TextTotal(a[last], a[last]);
    assert TextLeq(b[i], b[last]) && TextLeq(a[j], a[last]);
    TextAntisymmetric(a[last], b[last]);
  }

  lemma PrefixSorted(texts: seq<string>)
    requires TextsSorted(texts) && texts != []
    ensures TextsSorted(texts[..|texts| - 1])
  {
  }

  lemma InitsAgree(a: seq<string>, b: seq<string>)
    requires multiset(a) == multiset(b) && a != [] && |a| == |b| && a[|a| - 1] == b[|b| - 1]
    ensures multiset(a[..|a| - 1]) == multiset(b[..|b| - 1])
  {
    WithoutLast(a);
    WithoutLast(b);
  }

  lemma Rejoined(a: seq<string>, b: seq<string>)
    requires a != [] && |a| == |b| && a[..|a| - 1] == b[..|b| - 1] && a[|a| - 1] == b[|b| - 1]
    ensures a == b
  {
    assert a == a[..|a| - 1] + [a[|a| - 1]] && b == b[..|b| - 1] + [b[|b| - 1]];
  }

  lemma NothingAgrees(b: seq<string>)
    requires multiset(b) == multiset([])
    ensures b == []
  {
    assert |multiset(b)| == 0;
  }

  /** Sorted texts are determined by what they are. */
  lemma {:induction false} SortedTextsAreUnique(a: seq<string>, b: seq<string>)
    requires TextsSorted(a) && TextsSorted(b) && multiset(a) == multiset(b)
    ensures a == b
    decreases |a|
  {
    hide TextsSorted;
    if a == [] {
      NothingAgrees(b);
    } else {
      LastTextsAgree(a, b);
      InitsAgree(a, b);
      PrefixSorted(a);
      PrefixSorted(b);
      SortedTextsAreUnique(a[..|a| - 1], b[..|b| - 1]);
      Rejoined(a, b);
    }
  }

  function Mapped<T, U>(items: seq<T>, f: T -> U): seq<U> {
    seq(|items|, i requires 0 <= i < |items| => f(items[i]))
  }

  lemma MappedWithout<T, U>(items: seq<T>, f: T -> U, i: nat)
    requires i < |items|
    ensures multiset(Mapped(items[..i] + items[i + 1..], f)) == multiset(Mapped(items, f)) - multiset{f(items[i])}
    ensures f(items[i]) in multiset(Mapped(items, f))
  {
    WithoutOne(Mapped(items, f), i);
    assert Mapped(items[..i] + items[i + 1..], f) == Mapped(items, f)[..i] + Mapped(items, f)[i + 1..];
    assert Mapped(items, f)[i] == f(items[i]);
  }

  lemma BackTogether<U>(a: multiset<U>, b: multiset<U>, x: U)
    requires x in a && x in b && a - multiset{x} == b - multiset{x}
    ensures a == b
  {
    assert a == a - multiset{x} + multiset{x};
    assert b == b - multiset{x} + multiset{x};
  }

  lemma RestsAgree<T>(a: seq<T>, b: seq<T>, i: nat)
    requires multiset(a) == multiset(b) && a != [] && i < |b| && b[i] == a[0]
    ensures multiset(a[..0] + a[1..]) == multiset(b[..i] + b[i + 1..])
  {
    WithoutOne(a, 0);
    WithoutOne(b, i);
  }

  /** Mapping a function over reordered items gives reordered results. */
  lemma {:induction false} MappedReordered<T, U>(a: seq<T>, b: seq<T>, f: T -> U)
    requires multiset(a) == multiset(b)
    ensures multiset(Mapped(a, f)) == multiset(Mapped(b, f))
    decreases |a|
  {
    if a == [] {
      assert |multiset(b)| == 0;
    } else {
      hide Mapped;
      var i := Position(a, b, 0);
      RestsAgree(a, b, i);
      MappedReordered(a[..0] + a[1..], b[..i] + b[i + 1..], f);
      MappedWithout(a, f, 0);
      MappedWithout(b, f, i);
      BackTogether(multiset(Mapped(a, f)), multiset(Mapped(b, f)), f(a[0]));
    }
  }

  lemma KeysOfReordered<T>(a: seq<Keyed<T>>, b: seq<Keyed<T>>)
    requires multiset(a) == multiset(b)
    ensures multiset(Keys(a)) == multiset(Keys(b))
  {
    var f := (k: Keyed<T>) => k.key;
    MappedReordered(a, b, f);
    assert Keys(a) == Mapped(a, f) && Keys(b) == Mapped(b, f);
  }

  /** The keys come out the same however the items came in. */
  lemma SortedKeysAreUnique<T>(a: seq<Keyed<T>>, b: seq<Keyed<T>>)
    requires multiset(Keys(a)) == multiset(Keys(b))
    ensures Keys(Sort(a)) == Keys(Sort(b))
  {
    SortPermutes(a);
    SortPermutes(b);
    KeysOfReordered(Sort(a), a);
    KeysOfReordered(Sort(b), b);
    SortSorts(a);
    SortSorts(b);
    SortedTextsAreUnique(Keys(Sort(a)), Keys(Sort(b)));
  }

  ghost predicate KeysDiffer<T>(items: seq<Keyed<T>>) {
    forall i, j :: 0 <= i < j < |items| ==> items[i].key != items[j].key
  }

  /** With pairwise different keys, so do the items. */
  lemma SortedIsUnique<T>(a: seq<Keyed<T>>, b: seq<Keyed<T>>)
    requires multiset(a) == multiset(b) && KeysDiffer(a)
    ensures Sort(a) == Sort(b)
  {
    KeysOfReordered(a, b);
    SortedKeysAreUnique(a, b);
    SortPermutes(a);
    SortPermutes(b);
    SameMembers(Sort(a), a);
    SameMembers(Sort(b), a);
    var x, y := Sort(a), Sort(b);
    forall i | 0 <= i < |x|
      ensures x[i] == y[i]
    {
      assert Keys(x)[i] == Keys(y)[i];
      assert x[i] in a && y[i] in a;
      var m :| 0 <= m < |a| && a[m] == x[i];
      var n :| 0 <= n < |a| && a[n] == y[i];
    }
  }
}
