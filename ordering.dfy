/** Positions of sibling records.

    Both the list of Categories and the list of Events of one Category are kept
    in an order that is not stored as a list: each record carries an integer
    order key (`orderIndex`), and the list is what a fetch sorted by that key
    returns. This module holds the value-level side of that design: what it
    means for a sequence to list a set, to be sorted by a key, and the list
    operations the model applies (filter out, insert at, move to). */
module Ordering {

  /** `s` lists every element of `elems`, each exactly once. */
  ghost predicate Lists<T>(s: seq<T>, elems: set<T>) {
    Distinct(s) && Enumerates(s, elems)
  }

  /** The elements of `s` are exactly those of `elems` (repetitions aside). */
  ghost predicate Enumerates<T>(s: seq<T>, elems: set<T>) {
    && (forall x :: x in s ==> x in elems)
    && (forall x :: x in elems ==> x in s)
  }

  /** No element occurs twice in `s`. */
  ghost predicate Distinct<T>(s: seq<T>) {
    forall i, j :: 0 <= i < j < |s| ==> s[i] != s[j]
  }

  /** Keys never decrease along `s` (the result of a sort by key). */
  ghost predicate SortedBy<T>(s: seq<T>, key: map<T, int>) {
    && (forall x :: x in s ==> x in key)
    && (forall i, j :: 0 <= i < j < |s| ==> key[s[i]] <= key[s[j]])
  }

  /** Keys strictly increase along `s`. */
  ghost predicate StrictlySortedBy<T>(s: seq<T>, key: map<T, int>) {
    && (forall x :: x in s ==> x in key)
    && (forall i, j :: 0 <= i < j < |s| ==> key[s[i]] < key[s[j]])
  }

  /** The key of every element is its position: the keys are dense and zero-based. */
  ghost predicate RankedBy<T>(s: seq<T>, key: map<T, int>) {
    forall i :: 0 <= i < |s| ==> s[i] in key && key[s[i]] == i
  }

  // ---------------------------------------------------------------------------
  // Key updates
  // ---------------------------------------------------------------------------

  /** The keys of the members of `among` that are at or above `k` move up by one.
      The `ensures` only unfold the map comprehension point by point, for the
      solver; what the update achieves is stated by `InsertRanked`. */
  function BumpFrom<T>(key: map<T, int>, among: set<T>, k: int): (r: map<T, int>)
    ensures r.Keys == key.Keys
    ensures forall x :: x in key && x !in among ==> r[x] == key[x]
    ensures forall x :: x in key && x in among ==> r[x] == if key[x] >= k then key[x] + 1 else key[x]
  {
    map x | x in key :: if x in among && key[x] >= k then key[x] + 1 else key[x]
  }

  /** The keys above `k` move down by one. The `ensures` only unfold the map
      comprehension point by point, for the solver; what the update achieves
      is stated by `RemoveRanked`. */
  function DropAbove<T>(key: map<T, int>, k: int): (r: map<T, int>)
    ensures r.Keys == key.Keys
    ensures forall x :: x in key ==> r[x] == if key[x] > k then key[x] - 1 else key[x]
  {
    map x | x in key :: if key[x] > k then key[x] - 1 else key[x]
  }

  /** Each element of `s` gets its position as key (the renumbering loops
      `s[i].orderIndex = i`); other keys stay. */
  function Renumbered<T(==)>(key: map<T, int>, s: seq<T>): (r: map<T, int>)
    ensures forall x :: x in r ==> x in key || x in s
    ensures forall x :: x in key ==> x in r
    ensures forall x :: x in s ==> x in r
    ensures forall x :: x in key && x !in s ==> r[x] == key[x]
  {
    key + map x | x in s :: IndexOf(s, x)
  }

  /** The set of elements of `s` (Swift's `NSSet(array: s)`). */
  function Elements<T>(s: seq<T>): set<T> {
    if s == [] then {} else {s[0]} + Elements(s[1..])
  }

  /** The first position of `x` in `s`. */
  function IndexOf<T(==)>(s: seq<T>, x: T): (i: nat)
    requires x in s
    ensures i < |s| && s[i] == x
  {
    if s[0] == x then 0 else 1 + IndexOf(s[1..], x)
  }

  // ---------------------------------------------------------------------------
  // List operations
  // ---------------------------------------------------------------------------

  /** `s` with `x` filtered out (Swift's `s.filter { $0 != x }`). */
  function Remove<T(==)>(s: seq<T>, x: T): (r: seq<T>)
    ensures forall y :: y in r ==> y in s && y != x
    ensures forall y :: y in s && y != x ==> y in r
    ensures |r| <= |s|
    ensures x in s ==> |r| < |s|
  {
    if s == [] then []
    else if s[0] == x then Remove(s[1..], x)
    else [s[0]] + Remove(s[1..], x)
  }

  /** `s` with `x` inserted so that it lands at position `i` (Swift's `insert(_:at:)`,
      which traps unless `i <= count`). */
  function InsertAt<T>(s: seq<T>, i: nat, x: T): (r: seq<T>)
    requires i <= |s|
    ensures |r| == |s| + 1 && r[i] == x
    ensures forall j {:trigger r[j]} :: 0 <= j < i ==> r[j] == s[j]
    ensures forall j {:trigger r[j]} :: i < j < |r| ==> r[j] == s[j - 1]
  {
    s[..i] + [x] + s[i..]
  }

  /** Inserting at the end is appending. */
  lemma InsertAtEnd<T>(s: seq<T>, x: T)
    ensures InsertAt(s, |s|, x) == s + [x]
  {
    assert s[..|s|] == s;
  }

  /** The elements after an insertion are the old ones and the inserted one. */
  lemma InsertedMembers<T>(s: seq<T>, i: nat, x: T)
    requires i <= |s|
    ensures forall y :: y in InsertAt(s, i, x) <==> y in s || y == x
  {
    assert InsertAt(s, i, x) == s[..i] + [x] + s[i..];
    assert s == s[..i] + s[i..];
  }

  /** Filter `x` out of `s`, then insert it at position `i`. */
  function MoveTo<T(==)>(s: seq<T>, x: T, i: nat): seq<T>
    requires i <= |Remove(s, x)|
  {
    InsertAt(Remove(s, x), i, x)
  }

  // ---------------------------------------------------------------------------
  // Facts about the list operations
  // ---------------------------------------------------------------------------

  /** Filtering out the element at position `j` of a duplicate-free list deletes that slot. */
  lemma {:induction false} RemoveAt<T>(s: seq<T>, j: nat)
    requires Distinct(s) && j < |s|
    ensures Remove(s, s[j]) == s[..j] + s[j + 1..]
  {
    if j == 0 {
      RemoveAbsent(s[1..], s[0]);
      assert s[1..] == s[..0] + s[1..];
    } else {
      assert s[1..][j - 1] == s[j];
      RemoveAt(s[1..], j - 1);
      assert s[1..][..j - 1] + s[1..][j..] == s[1..j] + s[j + 1..];
      assert [s[0]] + (s[1..j] + s[j + 1..]) == s[..j] + s[j + 1..];
    }
  }

  /** Filtering out an element that is not there changes nothing. */
  lemma {:induction false} RemoveAbsent<T>(s: seq<T>, x: T)
    requires x !in s
    ensures Remove(s, x) == s
  {
    if s != [] {
      assert s[0] != x;
      RemoveAbsent(s[1..], x);
      assert [s[0]] + s[1..] == s;
    }
  }

  /** Keys that strictly increase along `s` still do once one element is filtered out. */
  lemma {:induction false} RemoveKeepsStrictOrder<T>(s: seq<T>, x: T, key: map<T, int>)
    requires StrictlySortedBy(s, key)
    ensures StrictlySortedBy(Remove(s, x), key)
  {
    if s != [] {
      RemoveKeepsStrictOrder(s[1..], x, key);
      var rest := Remove(s[1..], x);
      if s[0] != x {
        var r := [s[0]] + rest;
        forall i, j | 0 <= i < j < |r| ensures key[r[i]] < key[r[j]] {
          if i == 0 {
            assert r[j] in s[1..];
            var k :| 0 <= k < |s[1..]| && s[1..][k] == r[j];
            assert s[k + 1] == r[j];
          }
        }
      }
    }
  }

  /** The listing loses exactly `x`. */
  lemma RemoveListing<T>(s: seq<T>, elems: set<T>, x: T)
    requires Lists(s, elems)
    ensures Lists(Remove(s, x), elems - {x})
    ensures x in elems ==> |Remove(s, x)| == |s| - 1
  {
    if x in s {
      var j :| 0 <= j < |s| && s[j] == x;
      RemoveAt(s, j);
    } else {
      RemoveAbsent(s, x);
    }
  }

  /** Inserting an element into a sequence adds it to the elements. */
  lemma InsertEnumerates<T>(s: seq<T>, elems: set<T>, i: nat, x: T)
    requires Enumerates(s, elems) && i <= |s|
    ensures Enumerates(InsertAt(s, i, x), elems + {x})
  {
    var r := InsertAt(s, i, x);
    assert r == s[..i] + [x] + s[i..];
    assert s == s[..i] + s[i..];
  }

  /** Keys that are the positions make a sequence duplicate-free. */
  lemma RankedIsDistinct<T>(s: seq<T>, key: map<T, int>)
    requires RankedBy(s, key)
    ensures Distinct(s)
  {
  }

  /** Filtering an element out keeps a sequence duplicate-free. */
  lemma {:induction false} RemoveKeepsDistinct<T>(s: seq<T>, x: T)
    requires Distinct(s)
    ensures Distinct(Remove(s, x))
  {
    if s != [] {
      RemoveKeepsDistinct(s[1..], x);
      if s[0] != x {
        var rest := Remove(s[1..], x);
        var r := [s[0]] + rest;
        forall i, j | 0 <= i < j < |r| ensures r[i] != r[j] {
          if i == 0 {
            assert r[j] == rest[j - 1] && rest[j - 1] in rest;
            var k :| 0 <= k < |s[1..]| && s[1..][k] == r[j];
            assert s[k + 1] == r[j];
          } else {
            assert r[i] == rest[i - 1] && r[j] == rest[j - 1];
          }
        }
      }
    }
  }

  /** Inserting an element that is not there keeps a sequence duplicate-free. */
  lemma InsertKeepsDistinct<T>(s: seq<T>, i: nat, x: T)
    requires Distinct(s) && x !in s && i <= |s|
    ensures Distinct(InsertAt(s, i, x))
  {
    var r := InsertAt(s, i, x);
    forall a, b | 0 <= a < b < |r| ensures r[a] != r[b] {
      if a == i {
        assert r[b] == s[b - 1];
      } else if b == i {
        assert r[a] == s[a];
      } else {
        assert r[a] == s[if a < i then a else a - 1];
        assert r[b] == s[if b < i then b else b - 1];
      }
    }
  }

  /** Moving an element keeps a sequence duplicate-free. */
  lemma MoveKeepsDistinct<T>(s: seq<T>, x: T, i: nat)
    requires Distinct(s) && i <= |Remove(s, x)|
    ensures Distinct(MoveTo(s, x, i))
  {
    RemoveKeepsDistinct(s, x);
    InsertKeepsDistinct(Remove(s, x), i, x);
  }

  /** Inserting a new element into a listing lists one element more. */
  lemma InsertListing<T>(s: seq<T>, elems: set<T>, i: nat, x: T)
    requires Lists(s, elems) && i <= |s| && x !in elems
    ensures Lists(InsertAt(s, i, x), elems + {x})
  {
    var r := InsertAt(s, i, x);
    forall y | y in elems + {x} ensures y in r {
      if y != x {
        var k :| 0 <= k < |s| && s[k] == y;
        if k < i { assert r[k] == y; } else { assert r[k + 1] == y; }
      }
    }
  }

  /** Moving an element of a listing to position `i`: it ends at `i`, the list
      still lists the same elements, and all other elements keep their relative
      order (filtering the moved one out of the result gives back the list
      without it). */
  lemma MoveListing<T>(s: seq<T>, elems: set<T>, x: T, i: nat)
    requires Lists(s, elems) && x in elems && i < |s|
    ensures |Remove(s, x)| == |s| - 1
    ensures Lists(MoveTo(s, x, i), elems) && MoveTo(s, x, i)[i] == x
    ensures Remove(MoveTo(s, x, i), x) == Remove(s, x)
  {
    RemoveListing(s, elems, x);
    InsertListing(Remove(s, x), elems - {x}, i, x);
    assert elems - {x} + {x} == elems;
    var rest := Remove(s, x);
    RemoveAt(InsertAt(rest, i, x), i);
    assert InsertAt(rest, i, x)[..i] + InsertAt(rest, i, x)[i + 1..] == rest;
  }

  /** Moving an element to the position it already has changes nothing. */
  lemma MoveToSamePlace<T>(s: seq<T>, j: nat)
    requires Distinct(s) && j < |s|
    ensures |Remove(s, s[j])| == |s| - 1
    ensures MoveTo(s, s[j], j) == s
  {
    RemoveAt(s, j);
    assert (s[..j] + s[j + 1..])[..j] == s[..j];
    assert (s[..j] + s[j + 1..])[j..] == s[j + 1..];
    assert s[..j] + [s[j]] + s[j + 1..] == s;
  }

  /** In a duplicate-free sequence, the position of an element is its index. */
  lemma {:induction false} IndexOfDistinct<T>(s: seq<T>, i: nat)
    requires Distinct(s) && i < |s|
    ensures IndexOf(s, s[i]) == i
  {
    if i > 0 {
      assert s[1..][i - 1] == s[i];
      IndexOfDistinct(s[1..], i - 1);
    }
  }

  /** Renumbering a duplicate-free sequence makes its keys its positions. */
  lemma RenumberedRanks<T>(key: map<T, int>, s: seq<T>)
    requires Distinct(s)
    ensures RankedBy(s, Renumbered(key, s))
  {
    forall i | 0 <= i < |s| ensures s[i] in Renumbered(key, s) && Renumbered(key, s)[s[i]] == i {
      IndexOfDistinct(s, i);
    }
  }

  /** Making room at position `k` (every key of `among` at or above `k` moves
      up one) and inserting `x` there with key `k` keeps keys equal to positions. */
  lemma InsertRanked<T>(s: seq<T>, key: map<T, int>, among: set<T>, k: nat, x: T)
    requires RankedBy(s, key) && x !in s && k <= |s|
    requires forall i :: 0 <= i < |s| ==> s[i] in among
    ensures RankedBy(InsertAt(s, k, x), BumpFrom(key, among, k)[x := k])
  {
    var r := InsertAt(s, k, x);
    var key' := BumpFrom(key, among, k)[x := k];
    forall i | 0 <= i < |r| ensures r[i] in key' && key'[r[i]] == i {
      if i < k {
        assert r[i] == s[i] && s[i] != x;
      } else if i > k {
        assert r[i] == s[i - 1] && s[i - 1] != x;
      }
    }
  }

  /** Filtering out an element of a ranked sequence deletes its slot, and
      moving the keys above its key down one keeps keys equal to positions. */
  lemma RemoveRanked<T>(s: seq<T>, key: map<T, int>, x: T)
    requires RankedBy(s, key) && x in s
    ensures x in key && key[x] < |s|
    ensures Remove(s, x) == s[..key[x]] + s[key[x] + 1..]
    ensures RankedBy(Remove(s, x), DropAbove(key, key[x]) - {x})
  {
    var j :| 0 <= j < |s| && s[j] == x;
    RankedIsDistinct(s, key);
    RemoveAt(s, j);
    var r := s[..j] + s[j + 1..];
    assert |r| == |s| - 1;
    var key' := DropAbove(key, j) - {x};
    forall i | 0 <= i < |r| ensures r[i] in key' && key'[r[i]] == i {
      if i < j {
        assert r[i] == s[i];
        assert s[i] != x && key[s[i]] == i;
      } else {
        assert r[i] == s[i + 1];
        assert s[i + 1] != x && key[s[i + 1]] == i + 1;
      }
    }
  }

  /** The set of a sequence's elements holds exactly those elements. */
  lemma {:induction false} ElementsAre<T>(s: seq<T>)
    ensures forall x :: x in Elements(s) <==> x in s
  {
    if s != [] {
      ElementsAre(s[1..]);
      assert s == [s[0]] + s[1..];
    }
  }

  /** Appending is associative. */
  lemma AppendAssoc<T>(a: seq<T>, b: seq<T>, c: seq<T>)
    ensures a + (b + c) == (a + b) + c
  {
  }

  /** Appending an element adds it to the set of elements. */
  lemma {:induction false} ElementsAppend<T>(s: seq<T>, x: T)
    ensures Elements(s + [x]) == Elements(s) + {x}
  {
    if s != [] {
      assert (s + [x])[1..] == s[1..] + [x];
      ElementsAppend(s[1..], x);
    }
  }

  /** A subset is no larger than the set holding it. */
  lemma {:induction false} SubsetCount<T>(a: set<T>, b: set<T>)
    requires a <= b
    ensures |a| <= |b|
  {
    if a != {} {
      var x :| x in a;
      SubsetCount(a - {x}, b - {x});
    }
  }

  /** A sequence that enumerates `elems` has exactly `elems` as its elements. */
  lemma ElementsOfEnumeration<T>(s: seq<T>, elems: set<T>)
    requires Enumerates(s, elems)
    ensures Elements(s) == elems
  {
    forall x | x in Elements(s) ensures x in elems {
      ElementIn(s, x);
    }
    forall x | x in elems ensures x in Elements(s) {
      ElementIn(s, x);
    }
  }

  /** Membership in the set of elements is membership in the sequence. */
  lemma ElementIn<T>(s: seq<T>, x: T)
    ensures x in Elements(s) <==> x in s
  {
    ElementsAre(s);
  }

  /** Moving an element of a ranked listing and renumbering by position: the
      result lists the same elements, ranked by the new keys, with `x` at
      position `i` and the others in their old relative order. */
  lemma MoveRenumbered<T>(s: seq<T>, elems: set<T>, key: map<T, int>, x: T, i: nat, key0: map<T, int>)
    requires Enumerates(s, elems) && RankedBy(s, key) && x in elems && i <= |Remove(s, x)|
    ensures |Remove(s, x)| == |s| - 1
    ensures var m := MoveTo(s, x, i);
      && Enumerates(m, elems) && Elements(m) == elems
      && RankedBy(m, Renumbered(key0, m))
      && m[i] == x && Remove(m, x) == Remove(s, x)
  {
    RankedIsDistinct(s, key);
    RemoveListing(s, elems, x);
    MoveListing(s, elems, x, i);
    RenumberedRanks(key0, MoveTo(s, x, i));
    ElementsOfEnumeration(MoveTo(s, x, i), elems);
  }

  /** Filtering an element out of a ranked listing and renumbering by
      position: the result lists the other elements, ranked by the new keys,
      and is the old listing with that one slot deleted. */
  lemma RemoveRenumbered<T>(s: seq<T>, elems: set<T>, key: map<T, int>, x: T, key0: map<T, int>)
    requires Enumerates(s, elems) && RankedBy(s, key) && x in elems
    ensures x in key && key[x] < |s|
    ensures var r := Remove(s, x);
      && Enumerates(r, elems - {x}) && Elements(r) == elems - {x}
      && RankedBy(r, Renumbered(key0, r))
      && r == s[..key[x]] + s[key[x] + 1..] && |r| == |s| - 1
  {
    RankedIsDistinct(s, key);
    RemoveListing(s, elems, x);
    RemoveRanked(s, key, x);
    RenumberedRanks(key0, Remove(s, x));
    ElementsOfEnumeration(Remove(s, x), elems - {x});
  }

  /** Inserting a new element into a ranked listing and renumbering by
      position: the result lists one element more, ranked by the new keys,
      and filtering the new element out gives back the old listing. */
  lemma InsertRenumbered<T>(s: seq<T>, elems: set<T>, key: map<T, int>, x: T, i: nat, key0: map<T, int>)
    requires Enumerates(s, elems) && RankedBy(s, key) && x !in elems && i <= |s|
    ensures var d := InsertAt(s, i, x);
      && Enumerates(d, elems + {x}) && Elements(d) == elems + {x}
      && RankedBy(d, Renumbered(key0, d))
      && d[i] == x && Remove(d, x) == s
  {
    RankedIsDistinct(s, key);
    InsertListing(s, elems, i, x);
    var d := InsertAt(s, i, x);
    RenumberedRanks(key0, d);
    ElementsOfEnumeration(d, elems + {x});
    RemoveInserted(s, i, x);
  }

  /** Filtering out an element just inserted gives back the sequence. */
  lemma RemoveInserted<T>(s: seq<T>, i: nat, x: T)
    requires Distinct(s) && x !in s && i <= |s|
    ensures Remove(InsertAt(s, i, x), x) == s
  {
    InsertKeepsDistinct(s, i, x);
    RemoveAt(InsertAt(s, i, x), i);
    assert InsertAt(s, i, x)[..i] + InsertAt(s, i, x)[i + 1..] == s;
  }

  /** A listing whose keys are its positions gives the listed set keys that are
      a permutation of 0 .. n-1: each in range and no two equal (every slot is
      taken, by the element at that position). */
  lemma RankedKeysAreDense<T>(s: seq<T>, elems: set<T>, key: map<T, int>)
    requires Lists(s, elems) && RankedBy(s, key)
    ensures forall x :: x in elems ==> x in key && 0 <= key[x] < |s|
    ensures forall x, y :: x in elems && y in elems && key[x] == key[y] ==> x == y
  {
    forall x | x in elems ensures x in key && 0 <= key[x] < |s| {
      var k :| 0 <= k < |s| && s[k] == x;
    }
  }

  // ---------------------------------------------------------------------------
  // Sorting by key
  // ---------------------------------------------------------------------------

  /** Enumerates `elems` in some order (as `NSSet.allObjects` does) and sorts the
      result by `key`: the sort behind an ordered fetch and behind
      `Category.orderedEvents()`. Elements with equal keys come out in no
      promised order. */
  method SortByKey<T(==)>(elems: set<T>, key: map<T, int>) returns (r: seq<T>)
    requires elems <= key.Keys
    ensures Lists(r, elems) && SortedBy(r, key) && |r| == |elems|
  {
    r := [];
    var rest := elems;
    while rest != {}
      invariant rest <= elems
      invariant Lists(r, elems - rest) && SortedBy(r, key)
      decreases rest
    {
      var x :| x in rest;
      var i := 0;
      while i < |r| && key[r[i]] <= key[x]
        invariant 0 <= i <= |r|
        invariant forall j :: 0 <= j < i ==> key[r[j]] <= key[x]
      {
        i := i + 1;
      }
      InsertListing(r, elems - rest, i, x);
      r := InsertAt(r, i, x);
      rest := rest - {x};
      assert elems - rest == (elems - (rest + {x})) + {x};
    }
    ListedCount(r, elems);
  }

  /** A listing has one position per element. */
  lemma {:induction false} ListedCount<T>(s: seq<T>, elems: set<T>)
    requires Lists(s, elems)
    ensures |s| == |elems|
  {
    if s != [] {
      var rest := s[1..];
      assert Lists(rest, elems - {s[0]}) by {
        forall x | x in elems - {s[0]} ensures x in rest {
          var i :| 0 <= i < |s| && s[i] == x;
          assert rest[i - 1] == x;
        }
      }
      ListedCount(rest, elems - {s[0]});
    }
  }

  /** A sort cannot choose when the keys are distinct: any sorted listing of
      `elems` equals the one listing whose keys strictly increase. */
  lemma {:induction false} SortedListingUnique<T>(r: seq<T>, q: seq<T>, elems: set<T>, key: map<T, int>)
    requires Lists(r, elems) && SortedBy(r, key)
    requires Lists(q, elems) && StrictlySortedBy(q, key)
    ensures r == q
    decreases |q|
  {
    if q == [] {
      ListedCount(r, elems);
      ListedCount(q, elems);
    } else {
      assert q[0] in r;
      assert r != [];
      assert r[0] in q;
      var j :| 0 <= j < |q| && q[j] == r[0];
      var m :| 0 <= m < |r| && r[m] == q[0];
      assert key[r[0]] <= key[r[m]];
      assert j == 0;
      var rest := elems - {q[0]};
      forall x | x in r[1..] || x in rest ensures x in r[1..] <==> x in rest {
        if x in r[1..] {
          var k :| 0 <= k < |r[1..]| && r[1..][k] == x;
          assert r[k + 1] == x;
        }
        if x in rest {
          assert x in r;
          var k :| 0 <= k < |r| && r[k] == x;
          assert k != 0;
          assert r[1..][k - 1] == x;
        }
      }
      forall x | x in q[1..] || x in rest ensures x in q[1..] <==> x in rest {
        if x in q[1..] {
          var k :| 0 <= k < |q[1..]| && q[1..][k] == x;
          assert q[k + 1] == x;
        }
        if x in rest {
          assert x in q;
          var k :| 0 <= k < |q| && q[k] == x;
          assert k != 0;
          assert q[1..][k - 1] == x;
        }
      }
      SortedListingUnique(r[1..], q[1..], rest, key);
      assert r == [r[0]] + r[1..];
      assert q == [q[0]] + q[1..];
    }
  }

  /** A listing sorted by a key equals the listing whose keys are its positions. */
  lemma SortedMatchesRanked<T>(r: seq<T>, q: seq<T>, elems: set<T>, key: map<T, int>)
    requires Lists(r, elems) && SortedBy(r, key)
    requires Lists(q, elems) && RankedBy(q, key)
    ensures r == q
  {
    RankedIsStrictlySorted(q, key);
    SortedListingUnique(r, q, elems, key);
  }

  /** A ranked listing's keys strictly increase. */
  lemma RankedIsStrictlySorted<T>(s: seq<T>, key: map<T, int>)
    requires RankedBy(s, key)
    ensures StrictlySortedBy(s, key)
  {
  }

  /** Strict order survives a change of keys that leaves the listed elements' keys alone. */
  lemma StrictlySortedRekeyed<T>(s: seq<T>, key: map<T, int>, key': map<T, int>)
    requires StrictlySortedBy(s, key)
    requires forall x :: x in s ==> x in key' && key'[x] == key[x]
    ensures StrictlySortedBy(s, key')
  {
  }

  /** Giving `x` some key and adding it to `among` before a bump makes no
      difference once `x` is given key `k` afterwards. */
  lemma BumpAttached<T>(key: map<T, int>, among: set<T>, k: int, x: T, v: int)
    ensures BumpFrom(key[x := v], among + {x}, k)[x := k] == BumpFrom(key, among, k)[x := k]
  {
  }
}
