/** The library's stable sort, as insertion into a sorted sequence, and when its
    result depends on the order of its input. Elements are compared by a collation
    key; a real key expresses every order of a countable type, also one in which
    distinct elements compare as equal. */
module StableSort {
  import opened Basics

  /** Behind every element that is not greater, so equivalent elements keep their order. */
  function Insert<T>(s: seq<T>, x: T, key: T -> real): (r: seq<T>)
    ensures multiset(r) == multiset(s) + multiset{x}
    ensures |r| == |s| + 1
  {
    if s == [] || key(x) >= key(s[|s| - 1]) then s + [x]
    else
      var n := |s| - 1;
      assert s == s[..n] + [s[n]];
      Insert(s[..n], x, key) + [s[n]]
  }

  function Sort<T>(s: seq<T>, key: T -> real): (r: seq<T>)
    ensures multiset(r) == multiset(s)
    ensures |r| == |s|
  {
    if s == [] then []
    else
      var n := |s| - 1;
      assert s == s[..n] + [s[n]];
      Insert(Sort(s[..n], key), s[n], key)
  }

  ghost predicate IsSorted<T>(s: seq<T>, key: T -> real) {
    forall i, j :: 0 <= i < j < |s| ==> key(s[j]) >= key(s[i])
  }

  /** Distinct elements are never equivalent. */
  ghost predicate Separated<T>(s: seq<T>, key: T -> real) {
    forall x, y :: x in s && y in s && x != y ==> key(x) != key(y)
  }

  lemma {:induction false} InsertSorted<T(!new)>(s: seq<T>, x: T, key: T -> real)
    requires IsSorted(s, key)
    ensures IsSorted(Insert(s, x, key), key)
  {
    var r := Insert(s, x, key);
    var n := |s| - 1;
    if s == [] {
    } else if key(x) >= key(s[n]) {
      assert forall i :: 0 <= i < n ==> key(s[n]) >= key(s[i]);
    } else {
      var front := s[..n];
      InsertSorted(front, x, key);
      var head := Insert(front, x, key);
      forall i | 0 <= i < |head| ensures key(s[n]) >= key(head[i]) {
        assert head[i] in multiset(head);
        assert head[i] in front || head[i] == x;
      }
    }
  }

  lemma {:induction false} SortSorted<T(!new)>(s: seq<T>, key: T -> real)
    ensures IsSorted(Sort(s, key), key)
  {
    if s == [] {
    } else {
      SortSorted(s[..|s| - 1], key);
      InsertSorted(Sort(s[..|s| - 1], key), s[|s| - 1], key);
    }
  }

  lemma AppendLast<T>(s: seq<T>, x: T, key: T -> real)
    requires s == [] || key(x) >= key(s[|s| - 1])
    ensures Insert(s, x, key) == s + [x]
  {
  }

  lemma {:induction false} SortOfSorted<T>(s: seq<T>, key: T -> real)
    requires IsSorted(s, key)
    ensures Sort(s, key) == s
  {
    if s == [] {
    } else {
      var n := |s| - 1;
      SortOfSorted(s[..n], key);
      AppendLast(s[..n], s[n], key) by {
        assert n > 0 ==> key(s[n]) >= key(s[n - 1]);
      }
      assert s == s[..n] + [s[n]];
    }
  }

  /** Two sorted sequences of the same separated elements start alike. */
  lemma SameHead<T(!new)>(a: seq<T>, b: seq<T>, key: T -> real)
    requires IsSorted(a, key) && IsSorted(b, key) && a != [] && b != []
    requires a[0] in b && b[0] in a && Separated(a, key)
    ensures a[0] == b[0]
  {
  }

  lemma Heads<T>(a: seq<T>, b: seq<T>)
    requires multiset(a) == multiset(b) && a != []
    ensures b != [] && a[0] in b && b[0] in a
  {
    assert a[0] in multiset(b);
    assert b[0] in multiset(a);
  }

  lemma TailElements<T>(a: seq<T>, b: seq<T>)
    requires a != [] && b != [] && a[0] == b[0] && multiset(a) == multiset(b)
    ensures multiset(a[1..]) == multiset(b[1..])
  {
    assert a == [a[0]] + a[1..] && b == [b[0]] + b[1..];
    assert multiset(a[1..]) == multiset(a) - multiset{a[0]};
    assert multiset(b[1..]) == multiset(b) - multiset{a[0]};
  }

  lemma TailSorted<T>(a: seq<T>, key: T -> real)
    requires a != [] && IsSorted(a, key)
    ensures IsSorted(a[1..], key)
  {
  }

  lemma TailSeparated<T(!new)>(a: seq<T>, key: T -> real)
    requires a != [] && Separated(a, key)
    ensures Separated(a[1..], key)
  {
  }

  /** Only one sorted sequence has given elements, if they are separated. */
  lemma {:induction false} SortedUnique<T(!new)>(a: seq<T>, b: seq<T>, key: T -> real)
    requires IsSorted(a, key) && IsSorted(b, key)
    requires multiset(a) == multiset(b) && Separated(a, key)
    ensures a == b
  {
    if a == [] {
      assert |multiset(b)| == 0;
    } else {
      Heads(a, b);
      SameHead(a, b, key);
      TailElements(a, b);
      TailSorted(a, key);
      TailSorted(b, key);
      TailSeparated(a, key);
      SortedUnique(a[1..], b[1..], key);
      assert a == [a[0]] + a[1..] && b == [b[0]] + b[1..];
    }
  }

  lemma SortIgnoresOrder<T(!new)>(a: seq<T>, b: seq<T>, key: T -> real)
    requires multiset(a) == multiset(b) && Separated(a, key)
    ensures Sort(a, key) == Sort(b, key)
  {
    SortSorted(a, key);
    SortSorted(b, key);
    assert forall x :: x in Sort(a, key) ==> x in multiset(a);
    SortedUnique(Sort(a, key), Sort(b, key), key);
  }

  // ---- the other direction ----

  predicate Alike<T>(a: T, b: T, key: T -> real) { key(a) == key(b) }

  function One<T>(y: T, x: T, key: T -> real): seq<T> { if Alike(y, x, key) then [y] else [] }

  /** The elements equivalent to x, in order. */
  function Like<T>(s: seq<T>, x: T, key: T -> real): seq<T> {
    if s == [] then [] else Like(s[..|s| - 1], x, key) + One(s[|s| - 1], x, key)
  }

  lemma LikeStep<T>(s: seq<T>, y: T, x: T, key: T -> real)
    ensures Like(s + [y], x, key) == Like(s, x, key) + One(y, x, key)
  {
  }

  lemma SwapOnes<T>(s: seq<T>, y: T, z: T, x: T, key: T -> real)
    requires key(y) != key(z)
    ensures s + One(y, x, key) + One(z, x, key) == s + One(z, x, key) + One(y, x, key)
  {
  }

  lemma {:induction false} InsertKeepsLike<T>(s: seq<T>, y: T, x: T, key: T -> real)
    ensures Like(Insert(s, y, key), x, key) == Like(s, x, key) + One(y, x, key)
  {
    if s == [] || key(y) >= key(s[|s| - 1]) {
      LikeStep(s, y, x, key);
    } else {
      var front, last := s[..|s| - 1], s[|s| - 1];
      InsertKeepsLike(front, y, x, key);
      LikeStep(Insert(front, y, key), last, x, key);
      SwapOnes(Like(front, x, key), y, last, x, key);
    }
  }

  /** Stability: equivalent elements come out in the order they went in. */
  lemma {:induction false} SortIsStable<T(!new)>(s: seq<T>, x: T, key: T -> real)
    ensures Like(Sort(s, key), x, key) == Like(s, x, key)
  {
    if s == [] {
    } else {
      var n := |s| - 1;
      SortIsStable(s[..n], x, key);
      InsertKeepsLike(Sort(s[..n], key), s[n], x, key);
    }
  }

  lemma {:induction false} LikeConcat<T>(a: seq<T>, b: seq<T>, whole: seq<T>, x: T, key: T -> real)
    requires whole == a + b
    ensures Like(whole, x, key) == Like(a, x, key) + Like(b, x, key)
    decreases |b|
  {
    if b == [] {
      assert whole == a;
    } else {
      var front, rest, last := b[..|b| - 1], whole[..|whole| - 1], b[|b| - 1];
      assert rest == a + front && whole[|whole| - 1] == last;
      LikeConcat(a, front, rest, x, key);
      Regroup(Like(a, x, key), Like(front, x, key), One(last, x, key));
    }
  }

  lemma {:induction false} LikeMembers<T>(s: seq<T>, x: T, key: T -> real)
    ensures forall y :: y in Like(s, x, key) <==> y in s && key(y) == key(x)
  {
    if s == [] {
    } else {
      var n := |s| - 1;
      LikeMembers(s[..n], x, key);
      assert s == s[..n] + [s[n]];
    }
  }

  lemma LikeByKey<T>(s: seq<T>, x: T, y: T, key: T -> real)
    requires key(x) == key(y)
    ensures Like(s, x, key) == Like(s, y, key)
  {
    if s == [] {
    } else {
      LikeByKey(s[..|s| - 1], x, y, key);
    }
  }

  ghost predicate SameLikes<T(!new)>(a: seq<T>, b: seq<T>, key: T -> real) {
    forall x :: Like(a, x, key) == Like(b, x, key)
  }

  /** The last element of a sorted sequence is found in any other one with the same classes. */
  lemma LastBounds<T(!new)>(a: seq<T>, b: seq<T>, key: T -> real)
    requires a != [] && SameLikes(a, b, key) && IsSorted(b, key)
    ensures b != [] && key(a[|a| - 1]) <= key(b[|b| - 1])
  {
    var x := a[|a| - 1];
    LikeMembers(a, x, key);
    assert x in Like(a, x, key);
    assert Like(a, x, key) == Like(b, x, key);
    LikeMembers(b, x, key);
    var i :| 0 <= i < |b| && b[i] == x;
  }

  lemma SameLast<T(!new)>(a: seq<T>, b: seq<T>, key: T -> real)
    requires a != [] && b != [] && SameLikes(a, b, key) && key(a[|a| - 1]) == key(b[|b| - 1])
    ensures a[|a| - 1] == b[|b| - 1] && SameLikes(a[..|a| - 1], b[..|b| - 1], key)
  {
    var x, y := a[|a| - 1], b[|b| - 1];
    var fa, fb := a[..|a| - 1], b[..|b| - 1];
    assert Like(a, x, key) == Like(b, x, key);
    assert Like(a, x, key) == Like(fa, x, key) + [x] && Like(b, x, key) == Like(fb, x, key) + [y];
    assert (Like(fa, x, key) + [x])[|Like(fa, x, key)|] == x;
    forall z ensures Like(fa, z, key) == Like(fb, z, key) {
      assert Like(a, z, key) == Like(b, z, key);
      assert Like(a, z, key) == Like(fa, z, key) + One(x, z, key);
      assert Like(b, z, key) == Like(fb, z, key) + One(x, z, key);
      DropSuffix(Like(fa, z, key), Like(fb, z, key), One(x, z, key));
    }
  }

  /** A sorted sequence is determined by its classes of equivalent elements. */
  lemma {:induction false} SortedByLikes<T(!new)>(a: seq<T>, b: seq<T>, key: T -> real)
    requires IsSorted(a, key) && IsSorted(b, key) && SameLikes(a, b, key)
    ensures a == b
  {
    if a == [] {
      if b != [] {
        LastBounds(b, a, key);
      }
    } else {
      LastBounds(a, b, key);
      LastBounds(b, a, key);
      SameLast(a, b, key);
      SortedByLikes(a[..|a| - 1], b[..|b| - 1], key);
      assert a == a[..|a| - 1] + [a[|a| - 1]] && b == b[..|b| - 1] + [b[|b| - 1]];
    }
  }

  /** Inputs that agree in every class sort alike, whatever the order between classes was. */
  lemma SortByLikes<T(!new)>(a: seq<T>, b: seq<T>, key: T -> real)
    requires SameLikes(a, b, key)
    ensures Sort(a, key) == Sort(b, key)
  {
    SortSorted(a, key);
    SortSorted(b, key);
    forall x ensures Like(Sort(a, key), x, key) == Like(Sort(b, key), x, key) {
      SortIsStable(a, x, key);
      SortIsStable(b, x, key);
      assert Like(a, x, key) == Like(b, x, key);
    }
    SortedByLikes(Sort(a, key), Sort(b, key), key);
  }

  lemma {:induction false} LikeStarts<T>(x: T, y: T, rest: seq<T>, z: T, key: T -> real)
    requires key(x) == key(z)
    ensures |Like([x, y] + rest, z, key)| > 0 && Like([x, y] + rest, z, key)[0] == x
  {
    if rest == [] {
      assert [x, y] + rest == [x] + [y];
      LikeStep([x], y, z, key);
      LikeStep([], x, z, key);
      assert [] + [x] == [x];
    } else {
      var n := |rest| - 1;
      LikeStarts(x, y, rest[..n], z, key);
      assert [x, y] + rest == ([x, y] + rest[..n]) + [rest[n]];
      LikeStep([x, y] + rest[..n], rest[n], z, key);
    }
  }

  lemma StartMatters<T(!new)>(x: T, y: T, rest: seq<T>, rest': seq<T>, key: T -> real)
    requires x != y && key(x) == key(y)
    ensures Sort([x, y] + rest, key) != Sort([y, x] + rest', key)
  {
    LikeStarts(x, y, rest, x, key);
    LikeStarts(y, x, rest', x, key);
    SortIsStable([x, y] + rest, x, key);
    SortIsStable([y, x] + rest', x, key);
  }

  lemma TakeOut<T>(s: seq<T>, x: T) returns (rest: seq<T>)
    requires x in s
    ensures multiset(s) == multiset(rest) + multiset{x}
  {
    var i :| 0 <= i < |s| && s[i] == x;
    rest := s[..i] + s[i + 1..];
    assert s == s[..i] + [x] + s[i + 1..];
  }

  lemma PairFirst<T>(s: seq<T>, x: T, y: T) returns (rest: seq<T>)
    requires x in s && y in s && x != y
    ensures multiset([x, y] + rest) == multiset(s)
  {
    var others := TakeOut(s, x);
    assert y in multiset(s);
    assert y in multiset(others);
    rest := TakeOut(others, y);
    PairElements(x, y, rest);
  }

  lemma PairElements<T>(x: T, y: T, rest: seq<T>)
    ensures multiset([x, y] + rest) == multiset(rest) + multiset{y} + multiset{x}
  {
  }

  lemma FindEquivalent<T>(s: seq<T>, key: T -> real) returns (x: T, y: T)
    requires !Separated(s, key)
    ensures x in s && y in s && x != y && key(x) == key(y)
  {
    x, y :| x in s && y in s && x != y && key(x) == key(y);
  }

  lemma OrderKept<T(!new)>(s: seq<T>, key: T -> real) returns (p: seq<T>)
    requires !Separated(s, key)
    ensures multiset(p) == multiset(s) && Sort(p, key) != Sort(s, key)
  {
    var x, y := FindEquivalent(s, key);
    var rest := PairFirst(s, x, y);
    var rest' := PairFirst(s, y, x);
    StartMatters(x, y, rest, rest', key);
    p := if Sort([x, y] + rest, key) != Sort(s, key) then [x, y] + rest else [y, x] + rest';
  }

  /** Sorting forgets the order of its input exactly when the order separates the
      elements: otherwise two equivalent ones stay as they came. */
  lemma OrderForgottenIff<T(!new)>(s: seq<T>, key: T -> real)
    ensures (forall p :: multiset(p) == multiset(s) ==> Sort(p, key) == Sort(s, key)) <==> Separated(s, key)
  {
    if Separated(s, key) {
      forall p | multiset(p) == multiset(s) ensures Sort(p, key) == Sort(s, key) {
        SortIgnoresOrder(s, p, key);
      }
    } else {
      var p := OrderKept(s, key);
    }
  }

  /** As many elements, none twice, all found on the other side: the same elements. */
  lemma {:induction false} SameElements<T>(a: seq<T>, b: seq<T>)
    requires |a| == |b|
    requires forall i, j :: 0 <= i < j < |a| ==> a[i] != a[j]
    requires forall x :: x in a ==> x in b
    ensures multiset(a) == multiset(b)
  {
    if a == [] {
      assert b == [];
    } else {
      assert a[0] in b;
      var j :| 0 <= j < |b| && b[j] == a[0];
      var rest := b[..j] + b[j + 1..];
      assert b == b[..j] + [a[0]] + b[j + 1..] && a == [a[0]] + a[1..];
      forall x | x in a[1..] ensures x in rest {
        assert x in b && x != a[0];
      }
      SameElements(a[1..], rest);
      assert multiset(b) == multiset(rest) + multiset{a[0]};
    }
  }
}
