/** Sequence, set and sorting facts shared by the models of the individual source files. */
module Collections {

  datatype Option<+T> = None | Some(value: T)

  function Filter<T>(p: T -> bool, xs: seq<T>): (r: seq<T>)
    ensures |r| <= |xs|
    ensures forall x | x in r :: x in xs && p(x)
    ensures forall x | x in xs && p(x) :: x in r
  {
    if xs == [] then [] else (if p(xs[0]) then [xs[0]] else []) + Filter(p, xs[1..])
  }

  function Map<T, U>(f: T -> U, xs: seq<T>): (r: seq<U>)
    ensures |r| == |xs|
    ensures forall i | 0 <= i < |xs| :: r[i] == f(xs[i])
  {
    seq(|xs|, i requires 0 <= i < |xs| => f(xs[i]))
  }

  lemma MapAppend<T, U>(f: T -> U, xs: seq<T>, ys: seq<T>)
    ensures Map(f, xs + ys) == Map(f, xs) + Map(f, ys)
  {
  }

  function SumBy<T>(f: T -> real, xs: seq<T>): real
  {
    if xs == [] then 0.0 else SumBy(f, xs[..|xs| - 1]) + f(xs[|xs| - 1])
  }

  /** A left fold, unrolled from the last element, as a loop over prefixes builds it. */
  function Fold<S, X>(f: (S, X) -> S, s: S, xs: seq<X>): S
  {
    if xs == [] then s else f(Fold(f, s, xs[..|xs| - 1]), xs[|xs| - 1])
  }

  lemma FoldStep<S, X>(f: (S, X) -> S, s: S, xs: seq<X>, x: X)
    ensures Fold(f, s, xs + [x]) == f(Fold(f, s, xs), x)
  {
    assert (xs + [x])[..|xs|] == xs;
  }

  lemma {:induction false} FilterAppend<T>(p: T -> bool, xs: seq<T>, ys: seq<T>)
    ensures Filter(p, xs + ys) == Filter(p, xs) + Filter(p, ys)
  {
    if xs == [] {
      assert xs + ys == ys;
    } else {
      var head := if p(xs[0]) then [xs[0]] else [];
      calc {
        Filter(p, xs + ys);
        { assert (xs + ys)[0] == xs[0] && (xs + ys)[1..] == xs[1..] + ys; }
        head + Filter(p, xs[1..] + ys);
        { FilterAppend(p, xs[1..], ys); }
        head + (Filter(p, xs[1..]) + Filter(p, ys));
        (head + Filter(p, xs[1..])) + Filter(p, ys);
      }
    }
  }

  lemma FilterOne<T>(p: T -> bool, x: T)
    ensures Filter(p, [x]) == if p(x) then [x] else []
  {
    assert [x][1..] == [];
  }

  lemma FilterSnoc<T>(p: T -> bool, xs: seq<T>, x: T)
    ensures Filter(p, xs + [x]) == if p(x) then Filter(p, xs) + [x] else Filter(p, xs)
  {
    FilterAppend(p, xs, [x]);
    FilterOne(p, x);
  }

  lemma FilterInserted<T>(p: T -> bool, above: seq<T>, x: T, below: seq<T>)
    ensures Filter(p, above + [x] + below) == Filter(p, above) + (if p(x) then [x] else []) + Filter(p, below)
  {
    FilterAppend(p, above + [x], below);
    FilterAppend(p, above, [x]);
    FilterOne(p, x);
  }

  lemma {:induction false} FilterCommutes<T>(p: T -> bool, q: T -> bool, xs: seq<T>)
    ensures Filter(p, Filter(q, xs)) == Filter(q, Filter(p, xs))
  {
    if xs != [] {
      var x, rest := xs[0], xs[1..];
      FilterCommutes(p, q, rest);
      FilterAppend(p, if q(x) then [x] else [], Filter(q, rest));
      FilterAppend(q, if p(x) then [x] else [], Filter(p, rest));
      FilterOne(p, x);
      FilterOne(q, x);
    }
  }

  lemma {:induction false} FilterAll<T>(p: T -> bool, xs: seq<T>)
    requires forall i | 0 <= i < |xs| :: p(xs[i])
    ensures Filter(p, xs) == xs
  {
    if xs != [] {
      FilterAll(p, xs[1..]);
      assert xs == [xs[0]] + xs[1..];
    }
  }

  lemma {:induction false} FilterNone<T>(p: T -> bool, xs: seq<T>)
    requires forall i | 0 <= i < |xs| :: !p(xs[i])
    ensures Filter(p, xs) == []
  {
    if xs != [] {
      FilterNone(p, xs[1..]);
    }
  }

  lemma {:induction false} FilterAgrees<T>(p: T -> bool, q: T -> bool, xs: seq<T>)
    requires forall i | 0 <= i < |xs| :: p(xs[i]) == q(xs[i])
    ensures Filter(p, xs) == Filter(q, xs)
  {
    if xs != [] {
      FilterAgrees(p, q, xs[1..]);
    }
  }

  lemma {:induction false} FilterBoth<T>(p: T -> bool, q: T -> bool, r: T -> bool, xs: seq<T>)
    requires forall i | 0 <= i < |xs| :: r(xs[i]) <==> p(xs[i]) && q(xs[i])
    ensures Filter(q, Filter(p, xs)) == Filter(r, xs)
  {
    if xs != [] {
      FilterBoth(p, q, r, xs[1..]);
      FilterAppend(q, if p(xs[0]) then [xs[0]] else [], Filter(p, xs[1..]));
      FilterOne(q, xs[0]);
    }
  }

  /** Where a predicate holds in a list. */
  function Places<T>(p: T -> bool, xs: seq<T>): set<nat>
  {
    set i: nat | 0 <= i < |xs| && p(xs[i])
  }

  lemma PlacesNext<T>(p: T -> bool, xs: seq<T>, x: T)
    ensures Places(p, xs + [x]) == Places(p, xs) + if p(x) then {|xs| as nat} else {}
  {
  }

  lemma {:induction false} FilterPlaces<T>(p: T -> bool, xs: seq<T>)
    ensures |Filter(p, xs)| == |Places(p, xs)|
  {
    if xs != [] {
      var n := |xs| - 1;
      FilterPlaces(p, xs[..n]);
      assert xs == xs[..n] + [xs[n]];
      FilterAppend(p, xs[..n], [xs[n]]);
      FilterOne(p, xs[n]);
      PlacesNext(p, xs[..n], xs[n]);
    }
  }

  lemma {:induction false} FilterMultiset<T>(p: T -> bool, xs: seq<T>, x: T)
    ensures multiset(Filter(p, xs))[x] == if p(x) then multiset(xs)[x] else 0
  {
    if xs != [] {
      FilterMultiset(p, xs[1..], x);
      assert xs == [xs[0]] + xs[1..];
    }
  }

  lemma SameMultisetSameLength<T>(xs: seq<T>, ys: seq<T>)
    requires multiset(xs) == multiset(ys)
    ensures |xs| == |ys|
  {
    assert |multiset(xs)| == |multiset(ys)|;
  }

  lemma MultisetWithout<T>(xs: seq<T>, i: nat)
    requires i < |xs|
    ensures multiset(xs[..i] + xs[i + 1..]) == multiset(xs) - multiset{xs[i]}
  {
    assert xs == xs[..i] + [xs[i]] + xs[i + 1..];
  }

  lemma TakeMember<T>(xs: seq<T>, x: T) returns (rest: seq<T>)
    requires x in xs
    ensures multiset(xs) == multiset(rest) + multiset{x}
  {
    var i :| 0 <= i < |xs| && xs[i] == x;
    rest := xs[..i] + xs[i + 1..];
    MultisetWithout(xs, i);
  }

  /** Two different members can be moved to the end, in either order. */
  lemma MoveTwoToBack<T>(xs: seq<T>, a: T, b: T) returns (rest: seq<T>)
    requires a in xs && b in xs && a != b
    ensures multiset(rest + [a, b]) == multiset(xs) == multiset(rest + [b, a])
  {
    var others := TakeMember(xs, a);
    assert b in multiset(xs);
    rest := TakeMember(others, b);
  }

  /** Or to the front. */
  lemma MoveTwoToFront<T>(xs: seq<T>, a: T, b: T) returns (rest: seq<T>)
    requires a in xs && b in xs && a != b
    ensures multiset([a, b] + rest) == multiset(xs) == multiset([b, a] + rest)
  {
    var others := TakeMember(xs, a);
    assert b in multiset(xs);
    rest := TakeMember(others, b);
  }

  lemma Cancel<T>(a: seq<T>, b: seq<T>, c: seq<T>)
    requires a + b == a + c
    ensures b == c
  {
    assert b == (a + b)[|a|..] && c == (a + c)[|a|..];
  }

  /** Filtering permuted lists gives permuted lists; in particular lists of equal length. */
  lemma FilterPermuted<T(!new)>(p: T -> bool, xs: seq<T>, ys: seq<T>)
    requires multiset(xs) == multiset(ys)
    ensures multiset(Filter(p, xs)) == multiset(Filter(p, ys))
    ensures |Filter(p, xs)| == |Filter(p, ys)|
  {
    var a, b := multiset(Filter(p, xs)), multiset(Filter(p, ys));
    assert a == b by {
      forall x ensures a[x] == b[x] {
        FilterMultiset(p, xs, x);
        FilterMultiset(p, ys, x);
      }
    }
    SameMultisetSameLength(Filter(p, xs), Filter(p, ys));
  }

  lemma MembersOfPermuted<T(!new)>(xs: seq<T>, ys: seq<T>)
    requires multiset(xs) == multiset(ys)
    ensures forall x :: x in xs <==> x in ys
    ensures |xs| == |ys|
  {
    forall x ensures x in xs <==> x in ys {
      assert x in xs <==> x in multiset(xs);
      assert x in ys <==> x in multiset(ys);
    }
    SameMultisetSameLength(xs, ys);
  }

  /** Every element is related to every later one. */
  ghost predicate Pairwise<T>(r: (T, T) -> bool, xs: seq<T>)
  {
    forall i, j | 0 <= i < j < |xs| :: r(xs[i], xs[j])
  }

  lemma {:induction false} FilterPairwise<T>(r: (T, T) -> bool, p: T -> bool, xs: seq<T>)
    requires Pairwise(r, xs)
    ensures Pairwise(r, Filter(p, xs))
  {
    if xs != [] {
      var rest := Filter(p, xs[1..]);
      FilterPairwise(r, p, xs[1..]);
      forall k | 0 <= k < |rest| ensures r(xs[0], rest[k]) {
        assert rest[k] in xs[1..];
      }
    }
  }

  // ----- folds that do not depend on order

  ghost predicate Commutes<S(!new), X(!new)>(f: (S, X) -> S, xs: seq<X>)
  {
    forall s, x, y | x in xs && y in xs :: f(f(s, x), y) == f(f(s, y), x)
  }

  lemma {:induction false} MoveToBack<S(!new), X(!new)>(f: (S, X) -> S, s: S, xs: seq<X>, i: nat)
    requires i < |xs| && Commutes(f, xs)
    ensures Fold(f, s, xs) == f(Fold(f, s, xs[..i] + xs[i + 1..]), xs[i])
    decreases |xs|
  {
    var n := |xs| - 1;
    if i == n {
      assert xs[..i] + xs[i + 1..] == xs[..n];
    } else {
      var rest := xs[..i] + xs[i + 1..];
      assert rest[..|rest| - 1] == xs[..n][..i] + xs[..n][i + 1..];
      MoveToBack(f, s, xs[..n], i);
    }
  }

  lemma TakeOut<T(!new)>(xs: seq<T>, ys: seq<T>) returns (i: nat)
    requires multiset(xs) == multiset(ys) && xs != []
    ensures i < |ys| && ys[i] == xs[|xs| - 1]
    ensures multiset(xs[..|xs| - 1]) == multiset(ys[..i] + ys[i + 1..])
  {
    var n := |xs| - 1;
    MembersOfPermuted(xs, ys);
    assert xs[n] in ys;
    i :| 0 <= i < |ys| && ys[i] == xs[n];
    MultisetWithout(xs, n);
    MultisetWithout(ys, i);
    assert xs[..n] + xs[n + 1..] == xs[..n];
  }

  /** A fold whose steps commute gives the same result on every permutation of its list. */
  lemma {:induction false} FoldPermuted<S(!new), X(!new)>(f: (S, X) -> S, s: S, xs: seq<X>, ys: seq<X>)
    requires multiset(xs) == multiset(ys) && Commutes(f, xs)
    ensures Fold(f, s, xs) == Fold(f, s, ys)
    decreases |xs|
  {
    MembersOfPermuted(xs, ys);
    if xs != [] {
      var i := TakeOut(xs, ys);
      FoldPermuted(f, s, xs[..|xs| - 1], ys[..i] + ys[i + 1..]);
      MoveToBack(f, s, ys, i);
    }
  }

  // ----- sums over finite sets

  ghost function SumOver<T>(f: T -> real, s: set<T>): real
  {
    if s == {} then 0.0 else var x :| x in s; f(x) + SumOver(f, s - {x})
  }

  lemma {:induction false} SumOverRemove<T>(f: T -> real, s: set<T>, x: T)
    requires x in s
    ensures SumOver(f, s) == f(x) + SumOver(f, s - {x})
  {
    var y :| y in s && SumOver(f, s) == f(y) + SumOver(f, s - {y});
    if x != y {
      SumOverRemove(f, s - {y}, x);
      SumOverRemove(f, s - {x}, y);
      assert s - {y} - {x} == s - {x} - {y};
    }
  }

  // ----- stable sorting

  ghost predicate TotalPreorder<T(!new)>(le: (T, T) -> bool)
  {
    && (forall x, y :: le(x, y) || le(y, x))
    && (forall x, y, z :: le(x, y) && le(y, z) ==> le(x, z))
  }

  ghost predicate Sorted<T>(le: (T, T) -> bool, xs: seq<T>)
  {
    forall i, j | 0 <= i < j < |xs| :: le(xs[i], xs[j])
  }

  function Insert<T>(le: (T, T) -> bool, x: T, ys: seq<T>): (r: seq<T>)
    ensures |r| == |ys| + 1
  {
    if ys == [] || le(x, ys[0]) then [x] + ys else [ys[0]] + Insert(le, x, ys[1..])
  }

  /** A stable sort: the built-in sort of the modelled language, for a comparator with `le` as its "not after". */
  function Sort<T>(le: (T, T) -> bool, xs: seq<T>): (r: seq<T>)
    ensures |r| == |xs|
  {
    if xs == [] then [] else Insert(le, xs[0], Sort(le, xs[1..]))
  }

  lemma {:induction false} InsertMultiset<T>(le: (T, T) -> bool, x: T, ys: seq<T>)
    ensures multiset(Insert(le, x, ys)) == multiset{x} + multiset(ys)
  {
    if ys == [] || le(x, ys[0]) {
    } else {
      InsertMultiset(le, x, ys[1..]);
      assert ys == [ys[0]] + ys[1..];
    }
  }

  lemma {:induction false} SortMultiset<T(!new)>(le: (T, T) -> bool, xs: seq<T>)
    ensures multiset(Sort(le, xs)) == multiset(xs)
    ensures forall x :: x in Sort(le, xs) <==> x in xs
  {
    if xs != [] {
      SortMultiset(le, xs[1..]);
      InsertMultiset(le, xs[0], Sort(le, xs[1..]));
      assert xs == [xs[0]] + xs[1..];
    }
    MembersOfPermuted(Sort(le, xs), xs);
  }

  lemma {:induction false} InsertSorted<T(!new)>(le: (T, T) -> bool, x: T, ys: seq<T>)
    requires TotalPreorder(le) && Sorted(le, ys)
    ensures Sorted(le, Insert(le, x, ys))
  {
    if ys == [] {
    } else if le(x, ys[0]) {
      forall j | 0 <= j < |ys| ensures le(x, ys[j]) {
        assert j == 0 || le(ys[0], ys[j]);
      }
    } else {
      InsertSorted(le, x, ys[1..]);
      InsertMultiset(le, x, ys[1..]);
      var r := Insert(le, x, ys[1..]);
      forall j | 0 <= j < |r| ensures le(ys[0], r[j]) {
        assert r[j] in multiset(r);
        assert r[j] == x || r[j] in ys[1..];
      }
    }
  }

  lemma {:induction false} SortSorted<T(!new)>(le: (T, T) -> bool, xs: seq<T>)
    requires TotalPreorder(le)
    ensures Sorted(le, Sort(le, xs))
  {
    if xs != [] {
      SortSorted(le, xs[1..]);
      InsertSorted(le, xs[0], Sort(le, xs[1..]));
    }
  }

  /** The head of a stable sort: no element is before it, and every earlier one is after it. */
  lemma {:induction false} SortHead<T(!new)>(le: (T, T) -> bool, xs: seq<T>) returns (i: nat)
    requires TotalPreorder(le) && xs != []
    ensures i < |xs| && Sort(le, xs)[0] == xs[i]
    ensures forall k | 0 <= k < |xs| :: le(xs[i], xs[k])
    ensures forall k | 0 <= k < i :: !le(xs[k], xs[i])
  {
    if |xs| == 1 {
      i := 0;
    } else {
      var j := SortHead(le, xs[1..]);
      i := if le(xs[0], xs[1..][j]) then 0 else j + 1;
      forall k | 0 <= k < |xs| ensures le(xs[i], xs[k]) {
        if k > 0 {
          assert le(xs[1..][j], xs[1..][k - 1]);
        }
      }
      forall k | 0 <= k < i ensures !le(xs[k], xs[i]) {
        if k > 0 {
          assert xs[k] == xs[1..][k - 1];
        }
      }
    }
  }

  /** Elements that tie are equal. */
  ghost predicate TiesEqual<T>(le: (T, T) -> bool, xs: seq<T>)
  {
    forall i, j | 0 <= i < |xs| && 0 <= j < |xs| && le(xs[i], xs[j]) && le(xs[j], xs[i]) :: xs[i] == xs[j]
  }

  lemma SortedHeads<T(!new)>(le: (T, T) -> bool, xs: seq<T>, ys: seq<T>)
    requires Sorted(le, xs) && Sorted(le, ys) && TiesEqual(le, xs)
    requires xs != [] && ys != [] && ys[0] in xs && xs[0] in ys
    ensures xs[0] == ys[0]
  {
    var i :| 0 <= i < |xs| && xs[i] == ys[0];
    var j :| 0 <= j < |ys| && ys[j] == xs[0];
    assert i == 0 || le(xs[0], xs[i]);
    assert j == 0 || le(ys[0], ys[j]);
  }

  lemma TailMultiset<T>(xs: seq<T>)
    requires xs != []
    ensures multiset(xs[1..]) == multiset(xs) - multiset{xs[0]}
  {
    assert xs == [xs[0]] + xs[1..];
  }

  /** Sorted lists with the same elements agree when ties are only between equal elements. */
  lemma {:induction false} SortedUnique<T(!new)>(le: (T, T) -> bool, xs: seq<T>, ys: seq<T>)
    requires multiset(xs) == multiset(ys) && Sorted(le, xs) && Sorted(le, ys) && TiesEqual(le, xs)
    ensures xs == ys
    decreases |xs|
  {
    MembersOfPermuted(xs, ys);
    if xs != [] {
      SortedHeads(le, xs, ys);
      TailMultiset(xs);
      TailMultiset(ys);
      SortedUnique(le, xs[1..], ys[1..]);
      assert xs == [xs[0]] + xs[1..];
      assert ys == [ys[0]] + ys[1..];
    }
  }

  /** Sorting forgets the order of the list when ties are only between equal elements. */
  lemma SortPermuted<T(!new)>(le: (T, T) -> bool, xs: seq<T>, ys: seq<T>)
    requires TotalPreorder(le) && multiset(xs) == multiset(ys)
    requires forall x, y | x in xs && y in xs && le(x, y) && le(y, x) :: x == y
    ensures Sort(le, xs) == Sort(le, ys)
  {
    SortMultiset(le, xs);
    SortMultiset(le, ys);
    SortSorted(le, xs);
    SortSorted(le, ys);
    SortedUnique(le, Sort(le, xs), Sort(le, ys));
  }

  // ----- occurrences of one sequence in another

  /** `t` stands in `text` at position `p`. */
  ghost predicate Occurs<T>(text: seq<T>, p: nat, t: seq<T>)
  {
    p + |t| <= |text| && forall i | 0 <= i < |t| :: text[p + i] == t[i]
  }

  lemma OccursPart<T>(text: seq<T>, p: nat, t: seq<T>, i: nat, u: seq<T>)
    requires Occurs(text, p, t) && i + |u| <= |t| && t[i..i + |u|] == u
    ensures Occurs(text, p + i, u)
  {
    forall j | 0 <= j < |u| ensures text[p + i + j] == u[j] {
      assert text[p + (i + j)] == t[i + j];
    }
  }

  lemma OccursConcat<T>(text: seq<T>, p: nat, a: seq<T>, b: seq<T>)
    requires Occurs(text, p, a + b)
    ensures Occurs(text, p, a) && Occurs(text, p + |a|, b)
  {
    OccursPart(text, p, a + b, 0, a);
    OccursPart(text, p, a + b, |a|, b);
  }

  // ----- lists without repetition

  ghost predicate Distinct<T>(xs: seq<T>)
  {
    forall i, j | 0 <= i < j < |xs| :: xs[i] != xs[j]
  }

  lemma {:induction false} DistinctMultiset<T(!new)>(xs: seq<T>)
    requires Distinct(xs)
    ensures multiset(xs) == multiset(set x | x in xs) && |set x | x in xs| == |xs|
  {
    if xs != [] {
      var n := |xs| - 1;
      DistinctMultiset(xs[..n]);
      assert xs == xs[..n] + [xs[n]];
      assert (set x | x in xs) == (set x | x in xs[..n]) + {xs[n]};
      assert xs[n] !in xs[..n];
    }
  }

  lemma CountedTwice<T>(xs: seq<T>, i: nat, j: nat)
    requires i < j < |xs| && xs[i] == xs[j]
    ensures multiset(xs)[xs[i]] >= 2
  {
    assert xs == xs[..j] + xs[j..];
    assert xs[i] in xs[..j] && xs[j] in xs[j..];
  }

  lemma PermutedDistinct<T(!new)>(xs: seq<T>, ys: seq<T>)
    requires Distinct(xs) && multiset(xs) == multiset(ys)
    ensures Distinct(ys)
  {
    DistinctMultiset(xs);
    forall i, j | 0 <= i < j < |ys| ensures ys[i] != ys[j] {
      if ys[i] == ys[j] {
        CountedTwice(ys, i, j);
      }
    }
  }

  lemma SubsetSize<T>(a: set<T>, b: set<T>)
    requires a <= b
    ensures |a| <= |b|
  {
    assert b == a + (b - a);
  }

  lemma SubsetOfSameSize<T>(a: set<T>, b: set<T>)
    requires a <= b && |a| == |b|
    ensures a == b
  {
    assert b == a + (b - a);
  }

  /** Distinct lists of one length, one within the other, are permutations of each other. */
  lemma DistinctPermuted<T(!new)>(xs: seq<T>, ys: seq<T>)
    requires Distinct(xs) && Distinct(ys) && |xs| == |ys| && forall i | 0 <= i < |xs| :: xs[i] in ys
    ensures multiset(xs) == multiset(ys)
  {
    DistinctMultiset(xs);
    DistinctMultiset(ys);
    SubsetOfSameSize(set x | x in xs, set y | y in ys);
  }

  lemma FilterCons<T>(p: T -> bool, x: T, xs: seq<T>)
    ensures Filter(p, [x] + xs) == if p(x) then [x] + Filter(p, xs) else Filter(p, xs)
  {
    assert ([x] + xs)[1..] == xs;
  }

  lemma MapCons<T, U>(f: T -> U, x: T, xs: seq<T>)
    ensures Map(f, [x] + xs) == [f(x)] + Map(f, xs)
  {
  }

  lemma {:induction false} FilterMap<T(!new), U>(p: U -> bool, q: T -> bool, f: T -> U, xs: seq<T>)
    requires forall x :: q(x) == p(f(x))
    ensures Filter(p, Map(f, xs)) == Map(f, Filter(q, xs))
  {
    if xs != [] {
      FilterMap(p, q, f, xs[1..]);
      FilterCons(p, f(xs[0]), Map(f, xs[1..]));
      FilterCons(q, xs[0], xs[1..]);
      MapCons(f, xs[0], xs[1..]);
      MapCons(f, xs[0], Filter(q, xs[1..]));
      assert xs == [xs[0]] + xs[1..];
    }
  }

  lemma SortPair<T>(le: (T, T) -> bool, x: T, y: T)
    requires le(x, y)
    ensures Sort(le, [x, y]) == [x, y]
  {
    assert [x, y][1..] == [y] && [y][1..] == [];
    assert Sort(le, [y]) == [y];
  }

  lemma FilterPair<T>(p: T -> bool, x: T, y: T)
    ensures Filter(p, [x, y]) == if p(x) && p(y) then [x, y] else if p(x) then [x] else if p(y) then [y] else []
  {
    FilterOne(p, y);
    FilterCons(p, x, [y]);
    assert [x] + [y] == [x, y];
  }

  lemma {:induction false} InsertKeeps<T>(le: (T, T) -> bool, p: T -> bool, x: T, ys: seq<T>)
    requires forall u, v | p(u) && p(v) :: le(u, v)
    ensures Filter(p, Insert(le, x, ys)) == if p(x) then [x] + Filter(p, ys) else Filter(p, ys)
  {
    if ys == [] || le(x, ys[0]) {
      FilterCons(p, x, ys);
    } else {
      InsertKeeps(le, p, x, ys[1..]);
      FilterCons(p, ys[0], Insert(le, x, ys[1..]));
      FilterCons(p, ys[0], ys[1..]);
      assert ys == [ys[0]] + ys[1..];
    }
  }

  /** A stable sort keeps the order of elements that it does not tell apart. */
  lemma {:induction false} SortKeeps<T>(le: (T, T) -> bool, p: T -> bool, xs: seq<T>)
    requires forall u, v | p(u) && p(v) :: le(u, v)
    ensures Filter(p, Sort(le, xs)) == Filter(p, xs)
  {
    if xs != [] {
      SortKeeps(le, p, xs[1..]);
      InsertKeeps(le, p, xs[0], Sort(le, xs[1..]));
      FilterCons(p, xs[0], xs[1..]);
      assert xs == [xs[0]] + xs[1..];
    }
  }

  lemma {:induction false} InsertMap<T, U>(le: (T, T) -> bool, le2: (U, U) -> bool, f: T -> U, x: T, ys: seq<T>)
    requires forall i | 0 <= i < |ys| :: le2(f(x), f(ys[i])) == le(x, ys[i])
    ensures Insert(le2, f(x), Map(f, ys)) == Map(f, Insert(le, x, ys))
  {
    if ys != [] && !le(x, ys[0]) {
      InsertMap(le, le2, f, x, ys[1..]);
      assert Map(f, ys)[1..] == Map(f, ys[1..]);
    }
  }

  /** Sorting commutes with a map that keeps the order. */
  lemma {:induction false} SortMap<T(!new), U>(le: (T, T) -> bool, le2: (U, U) -> bool, f: T -> U, xs: seq<T>)
    requires forall x, y :: le2(f(x), f(y)) == le(x, y)
    ensures Sort(le2, Map(f, xs)) == Map(f, Sort(le, xs))
  {
    if xs != [] {
      SortMap(le, le2, f, xs[1..]);
      assert Map(f, xs)[1..] == Map(f, xs[1..]);
      InsertMap(le, le2, f, xs[0], Sort(le, xs[1..]));
    }
  }

  // ----- stable sorting by an integer key

  function KeyLe<T>(key: T -> int): (T, T) -> bool { (x: T, y: T) => key(x) <= key(y) }
  function AtKey<T>(key: T -> int, k: int): T -> bool { (x: T) => key(x) == k }

  /** The elements of one key, in list order. */
  function Ties<T>(key: T -> int, k: int, xs: seq<T>): seq<T> { Filter(AtKey(key, k), xs) }

  lemma TiesCons<T>(key: T -> int, k: int, x: T, xs: seq<T>)
    ensures Ties(key, k, [x] + xs) == if key(x) == k then [x] + Ties(key, k, xs) else Ties(key, k, xs)
  {
    assert ([x] + xs)[1..] == xs;
  }

  /** A stable sort keeps the order of the elements of each key. */
  lemma SortTies<T>(key: T -> int, k: int, xs: seq<T>)
    ensures Ties(key, k, Sort(KeyLe(key), xs)) == Ties(key, k, xs)
  {
    SortKeeps(KeyLe(key), AtKey(key, k), xs);
  }

  ghost predicate SameTies<T>(key: T -> int, xs: seq<T>, ys: seq<T>)
  {
    forall k :: Ties(key, k, xs) == Ties(key, k, ys)
  }

  lemma TieOfHead<T>(key: T -> int, xs: seq<T>, ys: seq<T>)
    requires xs != [] && SameTies(key, xs, ys) && Sorted(KeyLe(key), ys)
    ensures ys != [] && key(ys[0]) <= key(xs[0])
  {
    var t := Ties(key, key(xs[0]), xs);
    assert xs[0] in t;
    assert xs[0] in Ties(key, key(xs[0]), ys);
    var i :| 0 <= i < |ys| && ys[i] == xs[0];
    assert i == 0 || KeyLe(key)(ys[0], ys[i]);
  }

  lemma HeadsOfTies<T>(key: T -> int, xs: seq<T>, ys: seq<T>)
    requires xs != [] && ys != [] && key(xs[0]) == key(ys[0]) && SameTies(key, xs, ys)
    ensures xs[0] == ys[0] && SameTies(key, xs[1..], ys[1..])
  {
    var x, y := xs[0], ys[0];
    assert xs == [x] + xs[1..] && ys == [y] + ys[1..];
    TiesCons(key, key(x), x, xs[1..]);
    TiesCons(key, key(x), y, ys[1..]);
    assert Ties(key, key(x), xs)[0] == x && Ties(key, key(x), ys)[0] == y;
    forall k ensures Ties(key, k, xs[1..]) == Ties(key, k, ys[1..]) {
      TiesCons(key, k, x, xs[1..]);
      TiesCons(key, k, y, ys[1..]);
      TailOfTies(Ties(key, k, xs), x, Ties(key, k, xs[1..]), Ties(key, k, ys[1..]), key(x) == k);
    }
  }

  /** Sorted lists that agree on the elements of every key are equal. */
  lemma {:induction false} SortedByTies<T>(key: T -> int, xs: seq<T>, ys: seq<T>)
    requires Sorted(KeyLe(key), xs) && Sorted(KeyLe(key), ys) && SameTies(key, xs, ys)
    ensures xs == ys
    decreases |xs|
  {
    if xs == [] {
      if ys != [] { TieOfHead(key, ys, xs); }
    } else {
      TieOfHead(key, xs, ys);
      TieOfHead(key, ys, xs);
      HeadsOfTies(key, xs, ys);
      SortedByTies(key, xs[1..], ys[1..]);
      assert xs == [xs[0]] + xs[1..] && ys == [ys[0]] + ys[1..];
    }
  }

  lemma TailOfTies<T>(ties: seq<T>, x: T, a: seq<T>, b: seq<T>, tied: bool)
    requires ties == (if tied then [x] + a else a) && ties == (if tied then [x] + b else b)
    ensures a == b
  {
    if tied {
      assert ([x] + a)[1..] == a && ([x] + b)[1..] == b;
    }
  }

  lemma KeyLeIsPreorder<T(!new)>(key: T -> int)
    ensures TotalPreorder(KeyLe(key))
  {
  }

  /** Stable sorting forgets everything about the order of a list but its ties. */
  lemma SortByTies<T(!new)>(key: T -> int, xs: seq<T>, ys: seq<T>)
    ensures Sort(KeyLe(key), xs) == Sort(KeyLe(key), ys) <==> SameTies(key, xs, ys)
  {
    KeyLeIsPreorder(key);
    SortSorted(KeyLe(key), xs);
    SortSorted(KeyLe(key), ys);
    forall k ensures Ties(key, k, Sort(KeyLe(key), xs)) == Ties(key, k, xs) && Ties(key, k, Sort(KeyLe(key), ys)) == Ties(key, k, ys) {
      SortTies(key, k, xs);
      SortTies(key, k, ys);
    }
    if SameTies(key, xs, ys) {
      SortedByTies(key, Sort(KeyLe(key), xs), Sort(KeyLe(key), ys));
    }
  }

  lemma {:induction false} InsertAgrees<T>(le: (T, T) -> bool, le2: (T, T) -> bool, x: T, ys: seq<T>)
    requires forall i | 0 <= i < |ys| :: le(x, ys[i]) == le2(x, ys[i])
    ensures Insert(le, x, ys) == Insert(le2, x, ys)
  {
    if ys != [] && !le(x, ys[0]) {
      InsertAgrees(le, le2, x, ys[1..]);
    }
  }

  /** Orders that agree on each element and the later ones sort a list alike. */
  lemma {:induction false} SortAgrees<T(!new)>(le: (T, T) -> bool, le2: (T, T) -> bool, xs: seq<T>)
    requires forall i, j | 0 <= i < j < |xs| :: le(xs[i], xs[j]) == le2(xs[i], xs[j])
    ensures Sort(le, xs) == Sort(le2, xs)
  {
    if xs != [] {
      var rest := Sort(le, xs[1..]);
      SortAgrees(le, le2, xs[1..]);
      SortMultiset(le, xs[1..]);
      forall i | 0 <= i < |rest| ensures le(xs[0], rest[i]) == le2(xs[0], rest[i]) {
        assert rest[i] in xs[1..];
      }
      InsertAgrees(le, le2, xs[0], rest);
    }
  }
}
