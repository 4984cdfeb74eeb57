/** Orders given by a C++ comparison object, and what "stable" means for them.

    A comparison is a strict weak order.  A sequence is the stable sort of another when it is sorted and
    when, for every value, the elements equivalent to that value occur in it in their original order.
    That predicate determines the result uniquely and is kept by concatenation, which is what the
    in-place merge relies on.
 */
module StableOrder {

  type Less<!T> = (T, T) -> bool

  ghost predicate StrictWeakOrder<T(!new)>(lt: Less<T>) {
    && (forall x :: !lt(x, x))
    && (forall x, y, z :: lt(x, y) && lt(y, z) ==> lt(x, z))
    && (forall x, y, z :: Equiv(lt, x, y) && Equiv(lt, y, z) ==> Equiv(lt, x, z))
  }

  predicate Equiv<T>(lt: Less<T>, x: T, y: T) {
    !lt(x, y) && !lt(y, x)
  }

  /** x may stand before y. */
  predicate Leq<T>(lt: Less<T>, x: T, y: T) {
    !lt(y, x)
  }

  ghost predicate Sorted<T>(lt: Less<T>, s: seq<T>) {
    forall i, j :: 0 <= i < j < |s| ==> Leq(lt, s[i], s[j])
  }

  /** Every element of s may stand before every element of t. */
  ghost predicate AllLeq<T>(lt: Less<T>, s: seq<T>, t: seq<T>) {
    forall i, j :: 0 <= i < |s| && 0 <= j < |t| ==> Leq(lt, s[i], t[j])
  }

  /** The elements of s equivalent to x, in their order of occurrence. */
  ghost function ClassOf<T>(lt: Less<T>, x: T, s: seq<T>): seq<T> {
    if s == [] then [] else (if Equiv(lt, x, s[0]) then [s[0]] else []) + ClassOf(lt, x, s[1..])
  }

  ghost predicate SameClasses<T(!new)>(lt: Less<T>, s: seq<T>, t: seq<T>) {
    forall x :: ClassOf(lt, x, s) == ClassOf(lt, x, t)
  }

  ghost predicate IsStableSortOf<T(!new)>(lt: Less<T>, out: seq<T>, inp: seq<T>) {
    Sorted(lt, out) && SameClasses(lt, out, inp)
  }

  lemma LeqTransitive<T(!new)>(lt: Less<T>, x: T, y: T, z: T)
    requires StrictWeakOrder(lt)
    requires Leq(lt, x, y) && Leq(lt, y, z)
    ensures Leq(lt, x, z)
  {
    assert lt(z, x) && lt(x, y) ==> lt(z, y);
    assert lt(y, z) && lt(z, x) ==> lt(y, x);
    assert Equiv(lt, x, y) && Equiv(lt, y, z) ==> Equiv(lt, x, z);
  }

  lemma EquivTransfer<T(!new)>(lt: Less<T>, x: T, y: T, z: T)
    requires StrictWeakOrder(lt)
    requires Equiv(lt, x, y)
    ensures Equiv(lt, x, z) <==> Equiv(lt, y, z)
  {
    assert Equiv(lt, y, x);
  }

  lemma {:induction false} ClassOfConcat<T>(lt: Less<T>, x: T, s: seq<T>, t: seq<T>)
    ensures ClassOf(lt, x, s + t) == ClassOf(lt, x, s) + ClassOf(lt, x, t)
  {
    if s == [] {
      assert s + t == t;
    } else {
      var h := if Equiv(lt, x, s[0]) then [s[0]] else [];
      assert (s + t)[0] == s[0] && (s + t)[1..] == s[1..] + t;
      ClassOfConcat(lt, x, s[1..], t);
      assert ClassOf(lt, x, s + t) == h + (ClassOf(lt, x, s[1..]) + ClassOf(lt, x, t));
      assert ClassOf(lt, x, s) == h + ClassOf(lt, x, s[1..]);
    }
  }

  lemma {:induction false} ClassOfMember<T>(lt: Less<T>, x: T, s: seq<T>, y: T)
    ensures y in ClassOf(lt, x, s) <==> y in s && Equiv(lt, x, y)
  {
    if s != [] {
      assert y in s <==> y == s[0] || y in s[1..];
      ClassOfMember(lt, x, s[1..], y);
    }
  }

  lemma ClassOfNone<T>(lt: Less<T>, x: T, s: seq<T>)
    requires forall y :: y in s ==> !Equiv(lt, x, y)
    ensures ClassOf(lt, x, s) == []
  {
    if ClassOf(lt, x, s) != [] {
      ClassOfMember(lt, x, s, ClassOf(lt, x, s)[0]);
    }
  }

  /** Same classes means same elements. */
  lemma SameClassesSameElements<T(!new)>(lt: Less<T>, s: seq<T>, t: seq<T>, y: T)
    requires StrictWeakOrder(lt) && SameClasses(lt, s, t)
    ensures y in s <==> y in t
  {
    ClassOfMember(lt, y, s, y);
    ClassOfMember(lt, y, t, y);
  }

  lemma SameClassesConcat<T(!new)>(lt: Less<T>, s: seq<T>, s': seq<T>, t: seq<T>, t': seq<T>)
    requires SameClasses(lt, s, s') && SameClasses(lt, t, t')
    ensures SameClasses(lt, s + t, s' + t')
  {
    forall x ensures ClassOf(lt, x, s + t) == ClassOf(lt, x, s' + t') {
      ClassOfConcat(lt, x, s, t);
      ClassOfConcat(lt, x, s', t');
    }
  }

  lemma ClassOfFour<T>(lt: Less<T>, x: T, a: seq<T>, b: seq<T>, c: seq<T>, d: seq<T>)
    ensures ClassOf(lt, x, (a + b) + (c + d)) == (ClassOf(lt, x, a) + ClassOf(lt, x, b)) + (ClassOf(lt, x, c) + ClassOf(lt, x, d))
  {
    ClassOfConcat(lt, x, a + b, c + d);
    ClassOfConcat(lt, x, a, b);
    ClassOfConcat(lt, x, c, d);
  }

  /** No class has members in both of two parts that share none. */
  lemma OneClassEmpty<T(!new)>(lt: Less<T>, x: T, b: seq<T>, c: seq<T>)
    requires StrictWeakOrder(lt) && forall y, z :: y in b && z in c ==> !Equiv(lt, y, z)
    ensures ClassOf(lt, x, b) == [] || ClassOf(lt, x, c) == []
  {
    if y :| y in b && Equiv(lt, x, y) {
      forall z | z in c ensures !Equiv(lt, x, z) {
        EquivTransfer(lt, x, y, z);
      }
      ClassOfNone(lt, x, c);
    } else {
      ClassOfNone(lt, x, b);
    }
  }

  /** Exchanging two neighbouring blocks that share no class keeps every class. */
  lemma ExchangeKeepsClasses<T(!new)>(lt: Less<T>, a: seq<T>, b: seq<T>, c: seq<T>, d: seq<T>)
    requires StrictWeakOrder(lt)
    requires forall x, y :: x in b && y in c ==> !Equiv(lt, x, y)
    ensures SameClasses(lt, (a + c) + (b + d), (a + b) + (c + d))
  {
    forall x ensures ClassOf(lt, x, (a + c) + (b + d)) == ClassOf(lt, x, (a + b) + (c + d)) {
      ClassOfFour(lt, x, a, c, b, d);
      ClassOfFour(lt, x, a, b, c, d);
      OneClassEmpty(lt, x, b, c);
    }
  }

  lemma SortedConcat<T>(lt: Less<T>, s: seq<T>, t: seq<T>)
    requires Sorted(lt, s) && Sorted(lt, t) && AllLeq(lt, s, t)
    ensures Sorted(lt, s + t)
  {
  }

  /** There is one stable sort. */
  lemma {:induction false} StableSortUnique<T(!new)>(lt: Less<T>, s: seq<T>, t: seq<T>)
    requires StrictWeakOrder(lt)
    requires Sorted(lt, s) && Sorted(lt, t) && SameClasses(lt, s, t)
    ensures s == t
  {
    if s == [] {
      if t != [] {
        SameClassesSameElements(lt, s, t, t[0]);
      }
    } else {
      var x := s[0];
      SameClassesSameElements(lt, s, t, x);
      assert t != [];
      SameClassesSameElements(lt, s, t, t[0]);
      // The heads are equivalent, hence both are the first element of the same class.
      assert Leq(lt, x, t[0]) by {
        var i :| 0 <= i < |s| && s[i] == t[0];
        if i == 0 { LeqReflexive(lt, x); }
      }
      assert Leq(lt, t[0], x) by {
        var i :| 0 <= i < |t| && t[i] == x;
        if i == 0 { LeqReflexive(lt, x); }
      }
      assert ClassOf(lt, x, s)[0] == x by { LeqReflexive(lt, x); }
      assert ClassOf(lt, x, t)[0] == t[0];
      assert s[0] == t[0];
      forall y ensures ClassOf(lt, y, s[1..]) == ClassOf(lt, y, t[1..]) {
        assert ClassOf(lt, y, s) == ClassOf(lt, y, t);
        var h := if Equiv(lt, y, x) then [x] else [];
        assert ClassOf(lt, y, s) == h + ClassOf(lt, y, s[1..]);
        assert ClassOf(lt, y, t) == h + ClassOf(lt, y, t[1..]);
        assert (h + ClassOf(lt, y, s[1..]))[|h|..] == ClassOf(lt, y, s[1..]);
        assert (h + ClassOf(lt, y, t[1..]))[|h|..] == ClassOf(lt, y, t[1..]);
      }
      StableSortUnique(lt, s[1..], t[1..]);
      assert s == [s[0]] + s[1..] && t == [t[0]] + t[1..];
    }
  }

  lemma LeqReflexive<T(!new)>(lt: Less<T>, x: T)
    requires StrictWeakOrder(lt)
    ensures Leq(lt, x, x) && Equiv(lt, x, x)
  {
  }

  /** The left-biased merge: an element of t goes first only when it is strictly smaller. */
  ghost function Merged<T>(lt: Less<T>, s: seq<T>, t: seq<T>): seq<T> {
    if s == [] then t
    else if t == [] then s
    else if lt(t[0], s[0]) then [t[0]] + Merged(lt, s, t[1..])
    else [s[0]] + Merged(lt, s[1..], t)
  }

  lemma StableSortPrepend<T(!new)>(lt: Less<T>, x: T, t: seq<T>, t': seq<T>)
    requires StrictWeakOrder(lt)
    requires IsStableSortOf(lt, t', t) && forall y :: y in t ==> Leq(lt, x, y)
    ensures IsStableSortOf(lt, [x] + t', [x] + t)
  {
    SameClassesConcat(lt, [x], [x], t', t);
    forall y | y in t' ensures Leq(lt, x, y) {
      SameClassesSameElements(lt, t', t, y);
    }
    SortedConcat(lt, [x], t');
  }

  /** The left-biased merge of two sorted sequences is the stable sort of their concatenation. */
  lemma {:induction false} MergedIsStableSort<T(!new)>(lt: Less<T>, s: seq<T>, t: seq<T>)
    requires StrictWeakOrder(lt) && Sorted(lt, s) && Sorted(lt, t)
    ensures IsStableSortOf(lt, Merged(lt, s, t), s + t)
    decreases |s| + |t|
  {
    if s == [] {
      assert s + t == t;
    } else if t == [] {
      assert s + t == s;
    } else if lt(t[0], s[0]) {
      MergedIsStableSort(lt, s, t[1..]);
      var h := [t[0]];
      forall y | y in s ensures Leq(lt, t[0], y) && !Equiv(lt, t[0], y) {
        var i :| 0 <= i < |s| && s[i] == y;
        if i != 0 { LeqTransitive(lt, t[0], s[0], y); }
        if !lt(t[0], y) {
          assert Leq(lt, y, t[0]);
          if i == 0 { LeqReflexive(lt, y); }
          LeqTransitive(lt, s[0], y, t[0]);
        }
      }
      assert forall y :: y in s + t[1..] ==> Leq(lt, t[0], y);
      LeqReflexive(lt, t[0]);
      StableSortPrepend(lt, t[0], s + t[1..], Merged(lt, s, t[1..]));
      ExchangeKeepsClasses(lt, [], s, h, t[1..]);
      assert ([] + h) + (s + t[1..]) == h + (s + t[1..]);
      assert ([] + s) + (h + t[1..]) == s + t;
    } else {
      MergedIsStableSort(lt, s[1..], t);
      var h := [s[0]];
      forall y | y in t ensures Leq(lt, s[0], y) {
        var i :| 0 <= i < |t| && t[i] == y;
        if i != 0 { LeqTransitive(lt, s[0], t[0], y); }
      }
      assert forall y :: y in s[1..] + t ==> Leq(lt, s[0], y);
      StableSortPrepend(lt, s[0], s[1..] + t, Merged(lt, s[1..], t));
      assert h + (s[1..] + t) == s + t;
    }
  }

  lemma {:induction false} ClassOfMultiplicity<T(!new)>(lt: Less<T>, s: seq<T>, y: T)
    requires StrictWeakOrder(lt)
    ensures multiset(s)[y] == multiset(ClassOf(lt, y, s))[y]
  {
    if s != [] {
      assert s == [s[0]] + s[1..];
      ClassOfMultiplicity(lt, s[1..], y);
    }
  }

  lemma SameClassesSameMultiset<T(!new)>(lt: Less<T>, s: seq<T>, t: seq<T>)
    requires StrictWeakOrder(lt) && SameClasses(lt, s, t)
    ensures multiset(s) == multiset(t)
  {
    forall y ensures multiset(s)[y] == multiset(t)[y] {
      ClassOfMultiplicity(lt, s, y);
      ClassOfMultiplicity(lt, t, y);
    }
  }

  ghost predicate Rearranged<T(!new)>(lt: Less<T>, stable: bool, s: seq<T>, t: seq<T>) {
    multiset(s) == multiset(t) && (stable ==> SameClasses(lt, s, t))
  }
}
