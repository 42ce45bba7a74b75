/**
 * The canonical text of a channel-argument array: every (key, value) pair is
 * turned into two strings, the pairs are sorted by key then value, and the
 * strings are concatenated with no separator. That text is what the channel
 * cache key is hashed from, so two argument arrays share a cached channel
 * when they have the same canonical text.
 */
module Canonical {
  import opened Common
  import StringOrder
  import Decimal

  /** The PHP values an argument array can hold, as far as the binding distinguishes them. */
  datatype PhpValue =
    | PNull
    | PBool(b: bool)
    | PInt(i: int)
    | PDouble
    | PStr(s: string)
    | PArray
    | PObject(obj: PhpObject)

  /** A PHP object: a `Grpc\ChannelCredentials` instance, or any other class. */
  datatype PhpObject =
    | ChannelCredentialsObject(credentials: nat, hashKey: string)
    | OtherObject(className: string)

  /** One array element, key first, in the array's iteration order. */
  type Entry = (PhpValue, PhpValue)

  /** A stored (key, value) text pair (`m_PHPData`). */
  type Pair = (string, string)

  /** The element shapes `ChannelArgs::init` accepts: a string key and an integer or string value. */
  predicate ValidEntry(e: Entry)
  {
    e.0.PStr? && (e.1.PInt? || e.1.PStr?)
  }

  predicate AllValid(a: seq<Entry>)
  {
    forall i :: 0 <= i < |a| ==> ValidEntry(a[i])
  }

  /** The value text: an integer is truncated to int32 and written in decimal. */
  function ValueText(v: PhpValue): string
    requires v.PInt? || v.PStr?
  {
    if v.PInt? then Decimal.ToString(Decimal.ToInt32(v.i)) else v.s
  }

  function EntryPair(e: Entry): Pair
    requires ValidEntry(e)
  {
    (e.0.s, ValueText(e.1))
  }

  /** The pairs of a valid array, in iteration order. */
  function Pairs(a: seq<Entry>): (r: seq<Pair>)
    requires AllValid(a)
    ensures |r| == |a|
    ensures forall i :: 0 <= i < |a| ==> r[i] == EntryPair(a[i])
  {
    if a == [] then [] else Pairs(a[..|a| - 1]) + [EntryPair(a[|a| - 1])]
  }

  // ---------------------------------------------------------------------
  // The documented ordering: "sort the channel arguments via key then value"
  // ---------------------------------------------------------------------

  predicate PairLess(p: Pair, q: Pair)
  {
    StringOrder.Less(p.0, q.0) || (p.0 == q.0 && StringOrder.Less(p.1, q.1))
  }

  predicate PairLessEq(p: Pair, q: Pair)
  {
    p == q || PairLess(p, q)
  }

  predicate Sorted(s: seq<Pair>)
  {
    forall i, j :: 0 <= i < j < |s| ==> PairLessEq(s[i], s[j])
  }

  lemma PairLessIrreflexive(p: Pair)
    ensures !PairLess(p, p)
  {
    StringOrder.Irreflexive(p.0);
    StringOrder.Irreflexive(p.1);
  }

  lemma PairLessTransitive(p: Pair, q: Pair, r: Pair)
    requires PairLess(p, q) && PairLess(q, r)
    ensures PairLess(p, r)
  {
    if StringOrder.Less(p.0, q.0) && StringOrder.Less(q.0, r.0) {
      StringOrder.Transitive(p.0, q.0, r.0);
    } else if p.0 == q.0 && q.0 == r.0 {
      StringOrder.Transitive(p.1, q.1, r.1);
    }
  }

  lemma PairLessTotal(p: Pair, q: Pair)
    requires p != q
    ensures PairLess(p, q) || PairLess(q, p)
  {
    if p.0 != q.0 {
      StringOrder.Total(p.0, q.0);
    } else {
      StringOrder.Total(p.1, q.1);
    }
  }

  lemma PairLessEqAntisymmetric(p: Pair, q: Pair)
    requires PairLessEq(p, q) && PairLessEq(q, p)
    ensures p == q
  {
    if p != q {
      PairLessTransitive(p, q, p);
      PairLessIrreflexive(p);
    }
  }

  lemma PairLessEqTransitive(p: Pair, q: Pair, r: Pair)
    requires PairLessEq(p, q) && PairLessEq(q, r)
    ensures PairLessEq(p, r)
  {
    if p != q && q != r {
      PairLessTransitive(p, q, r);
    }
  }

  /** The requirement `std::sort` puts on its comparator (C++ [alg.sorting]). */
  ghost predicate IsStrictWeakOrder(lt: (Pair, Pair) -> bool)
  {
    (forall p :: !lt(p, p)) &&
    (forall p, q, r :: lt(p, q) && lt(q, r) ==> lt(p, r)) &&
    (forall p, q, r :: !lt(p, q) && !lt(q, p) && !lt(q, r) && !lt(r, q) ==> !lt(p, r) && !lt(r, p))
  }

  /** The documented key-then-value order is a valid `std::sort` comparator. */
  lemma DocumentedOrderIsStrictWeak()
    ensures IsStrictWeakOrder(PairLess)
  {
    forall p ensures !PairLess(p, p) {
      PairLessIrreflexive(p);
    }
    forall p, q, r | PairLess(p, q) && PairLess(q, r) ensures PairLess(p, r) {
      PairLessTransitive(p, q, r);
    }
    forall p, q, r | !PairLess(p, q) && !PairLess(q, p) && !PairLess(q, r) && !PairLess(r, q)
      ensures !PairLess(p, r) && !PairLess(r, p)
    {
      if p != q { PairLessTotal(p, q); }
      if q != r { PairLessTotal(q, r); }
      PairLessIrreflexive(p);
    }
  }

  // ---------------------------------------------------------------------
  // The comparator as written
  // ---------------------------------------------------------------------

  /**
   * The lambda handed to `std::sort`: it compares the first pair's key with
   * the first pair's own value, and only when those are equal looks at the
   * second pair, again comparing its key with its own value.
   */
  predicate LiteralLess(pair1: Pair, pair2: Pair): (r: bool)
    ensures r <==> StringOrder.Less(pair1.0, pair1.1) ||
                   (pair1.0 == pair1.1 && StringOrder.Less(pair2.0, pair2.1))
  {
    StringOrder.Irreflexive(pair1.0);
    if pair1.0 != pair1.1 then StringOrder.Less(pair1.0, pair1.1)
    else StringOrder.Less(pair2.0, pair2.1)
  }

  /** The comparator as written says ("a", "b") is less than itself. */
  lemma LiteralComparatorReflexive()
    ensures LiteralLess(("a", "b"), ("a", "b"))
  {
  }

  /** Hence it breaks `std::sort`'s precondition, and the sorted order it produces is unspecified. */
  lemma LiteralComparatorNotStrictWeak()
    ensures !IsStrictWeakOrder(LiteralLess)
  {
    LiteralComparatorReflexive();
  }

  /** Its answer for a pair whose key differs from its value ignores the other pair entirely. */
  lemma LiteralComparatorIgnoresSecond(pair1: Pair, x: Pair, y: Pair)
    requires pair1.0 != pair1.1
    ensures LiteralLess(pair1, x) == LiteralLess(pair1, y)
  {
  }

  // ---------------------------------------------------------------------
  // Sorting by the documented order
  // ---------------------------------------------------------------------

  function Insert(p: Pair, s: seq<Pair>): (r: seq<Pair>)
    ensures multiset(r) == multiset(s) + multiset{p}
    ensures Sorted(s) ==> Sorted(r)
  {
    if s == [] then
      [p]
    else if PairLessEq(p, s[0]) then
      assert Sorted(s) ==> Sorted([p] + s) by {
        if Sorted(s) { SortedCons(p, s); }
      }
      [p] + s
    else
      var t := Insert(p, s[1..]);
      assert s == [s[0]] + s[1..];
      assert Sorted(s) ==> Sorted([s[0]] + t) by {
        if Sorted(s) { SortedConsInserted(p, s, t); }
      }
      [s[0]] + t
  }

  /** An element no greater than the head of a sorted sequence can go in front of it. */
  lemma SortedCons(p: Pair, s: seq<Pair>)
    requires Sorted(s) && s != [] && PairLessEq(p, s[0])
    ensures Sorted([p] + s)
  {
    forall i, j | 0 <= i < j < |[p] + s| ensures PairLessEq(([p] + s)[i], ([p] + s)[j]) {
      if i == 0 && j > 1 { PairLessEqTransitive(p, s[0], s[j - 1]); }
    }
  }

  /**
   * When `p` goes after the head of a sorted `s`, the head stays in front of
   * the sorted insertion of `p` into the rest.
   */
  lemma SortedConsInserted(p: Pair, s: seq<Pair>, t: seq<Pair>)
    requires Sorted(s) && s != [] && !PairLessEq(p, s[0])
    requires Sorted(t) && multiset(t) == multiset(s[1..]) + multiset{p}
    ensures Sorted([s[0]] + t)
  {
    PairLessTotal(p, s[0]);
    forall k | 0 <= k < |t| ensures PairLessEq(s[0], t[k]) {
      assert t[k] in multiset(t);
      if t[k] != p {
        assert t[k] in multiset(s[1..]);
        var j :| 0 <= j < |s[1..]| && s[1..][j] == t[k];
        assert s[j + 1] == t[k];
      }
    }
  }

  /** Insertion sort by key then value: the model of the `std::sort` call under the documented order. */
  function Sort(s: seq<Pair>): (r: seq<Pair>)
    ensures Sorted(r)
    ensures multiset(r) == multiset(s)
  {
    if s == [] then [] else
      assert s == [s[0]] + s[1..];
      Insert(s[0], Sort(s[1..]))
  }

  lemma MultisetTail<T>(a: seq<T>)
    requires a != []
    ensures multiset(a[1..]) == multiset(a) - multiset{a[0]}
  {
    assert a == [a[0]] + a[1..];
  }

  /** The first element of a sorted sequence is a least one. */
  lemma SortedHeadLeast(a: seq<Pair>, x: Pair)
    requires Sorted(a) && x in multiset(a)
    ensures PairLessEq(a[0], x)
  {
    var i :| 0 <= i < |a| && a[i] == x;
    if i > 0 {
      assert PairLessEq(a[0], a[i]);
    }
  }

  /** Two sorted arrangements of the same pairs are the same sequence. */
  lemma {:induction false} SortedUnique(a: seq<Pair>, b: seq<Pair>)
    requires Sorted(a) && Sorted(b) && multiset(a) == multiset(b)
    ensures a == b
  {
    if a != [] {
      assert a[0] in multiset(a);
      assert b != [];
      assert b[0] in multiset(b);
      SortedHeadLeast(a, b[0]);
      SortedHeadLeast(b, a[0]);
      PairLessEqAntisymmetric(a[0], b[0]);
      MultisetTail(a);
      MultisetTail(b);
      assert Sorted(a[1..]) && Sorted(b[1..]) by {
        forall i, j | 0 <= i < j < |a| - 1 ensures PairLessEq(a[1..][i], a[1..][j]) {
          assert PairLessEq(a[i + 1], a[j + 1]);
        }
        forall i, j | 0 <= i < j < |b| - 1 ensures PairLessEq(b[1..][i], b[1..][j]) {
          assert PairLessEq(b[i + 1], b[j + 1]);
        }
      }
      SortedUnique(a[1..], b[1..]);
      assert a == [a[0]] + a[1..] && b == [b[0]] + b[1..];
    }
  }

  /** Sorting forgets the order it was given: permuted inputs sort identically. */
  lemma SortPermutationInvariant(a: seq<Pair>, b: seq<Pair>)
    requires multiset(a) == multiset(b)
    ensures Sort(a) == Sort(b)
  {
    SortedUnique(Sort(a), Sort(b));
  }

  // ---------------------------------------------------------------------
  // Concatenation
  // ---------------------------------------------------------------------

  /** key‖value for every pair, in sequence order, with nothing between them. */
  function Concat(s: seq<Pair>): (r: string)
    ensures s != [] ==> Concat(s[..|s| - 1]) <= r
  {
    if s == [] then [] else Concat(s[..|s| - 1]) + s[|s| - 1].0 + s[|s| - 1].1
  }

  /** The text only grows: the text of any prefix of the pairs is a prefix of the whole text. */
  lemma {:induction false} ConcatPrefix(s: seq<Pair>, k: nat)
    requires k <= |s|
    ensures Concat(s[..k]) <= Concat(s)
  {
    if k < |s| {
      var init := s[..|s| - 1];
      assert init[..k] == s[..k];
      ConcatPrefix(init, k);
    } else {
      assert s[..k] == s;
    }
  }

  /** The canonical text `ChannelArgs::init` computes, or None when it rejects the array. */
  function CanonicalText(a: seq<Entry>): (r: Option<string>)
    ensures r.None? <==> exists i :: 0 <= i < |a| && !ValidEntry(a[i])
  {
    if AllValid(a) then Some(Concat(Sort(Pairs(a)))) else None
  }

  lemma {:induction false} PairsAppend(x: seq<Entry>, y: seq<Entry>)
    requires AllValid(x) && AllValid(y)
    ensures AllValid(x + y)
    ensures Pairs(x + y) == Pairs(x) + Pairs(y)
  {
    if y == [] {
      assert x + y == x;
    } else {
      var y' := y[..|y| - 1];
      assert (x + y)[..|x + y| - 1] == x + y';
      assert (x + y)[|x + y| - 1] == y[|y| - 1];
      PairsAppend(x, y');
      assert Pairs(y) == Pairs(y') + [EntryPair(y[|y| - 1])];
    }
  }

  lemma SplitAt<T>(b: seq<T>, j: int)
    requires 0 <= j < |b|
    ensures b == b[..j + 1] + b[j + 1..]
    ensures b[..j + 1][..j] == b[..j] && b[..j + 1][j] == b[j]
  {
  }

  lemma PairsLast(a: seq<Entry>)
    requires AllValid(a) && a != []
    ensures AllValid(a[..|a| - 1])
    ensures Pairs(a) == Pairs(a[..|a| - 1]) + [EntryPair(a[|a| - 1])]
  {
  }

  lemma PairsSplitAt(b: seq<Entry>, j: int)
    requires AllValid(b) && 0 <= j < |b|
    ensures AllValid(b[..j]) && AllValid(b[j + 1..])
    ensures Pairs(b) == Pairs(b[..j]) + [EntryPair(b[j])] + Pairs(b[j + 1..])
  {
    var xe, y := b[..j + 1], b[j + 1..];
    SplitAt(b, j);
    assert AllValid(xe) && AllValid(y);
    PairsAppend(xe, y);
    PairsLast(xe);
  }

  /** Taking one element out of the array takes its pair out of the pairs. */
  lemma PairsRemoveAt(b: seq<Entry>, j: int)
    requires AllValid(b) && 0 <= j < |b|
    ensures AllValid(b[..j] + b[j + 1..])
    ensures multiset(Pairs(b)) == multiset(Pairs(b[..j] + b[j + 1..])) + multiset{EntryPair(b[j])}
  {
    PairsSplitAt(b, j);
    PairsAppend(b[..j], b[j + 1..]);
  }

  lemma RemoveAtMultiset<T>(b: seq<T>, j: int)
    requires 0 <= j < |b|
    ensures multiset(b[..j] + b[j + 1..]) == multiset(b) - multiset{b[j]}
  {
    assert b == b[..j] + [b[j]] + b[j + 1..];
  }

  /** A permutation of a valid array is valid. */
  lemma PermutationValid(a: seq<Entry>, b: seq<Entry>)
    requires AllValid(a) && multiset(a) == multiset(b)
    ensures AllValid(b)
  {
    forall k | 0 <= k < |b| ensures ValidEntry(b[k]) {
      assert b[k] in multiset(a);
    }
  }

  /** Permuting the array permutes its pairs. */
  lemma {:induction false} PairsPermutation(a: seq<Entry>, b: seq<Entry>)
    requires AllValid(a) && multiset(a) == multiset(b)
    ensures AllValid(b)
    ensures multiset(Pairs(a)) == multiset(Pairs(b))
  {
    PermutationValid(a, b);
    if a != [] {
      var j := MatchLast(a, b);
      PairsPermutation(a[..|a| - 1], b[..j] + b[j + 1..]);
      PairsPermutationStep(a, b, j);
    }
  }

  /**
   * Where the last element of `a` sits in its permutation `b`: removing it
   * from both leaves permutations of each other.
   */
  lemma MatchLast(a: seq<Entry>, b: seq<Entry>) returns (j: int)
    requires a != [] && multiset(a) == multiset(b)
    ensures 0 <= j < |b| && b[j] == a[|a| - 1]
    ensures multiset(a[..|a| - 1]) == multiset(b[..j] + b[j + 1..])
  {
    var last := a[|a| - 1];
    assert a == a[..|a| - 1] + [last];
    assert last in multiset(b);
    j :| 0 <= j < |b| && b[j] == last;
    RemoveAtMultiset(b, j);
  }

  /** Putting the matched element back on both sides keeps the pairs permuted. */
  lemma PairsPermutationStep(a: seq<Entry>, b: seq<Entry>, j: int)
    requires AllValid(a) && AllValid(b) && a != [] && 0 <= j < |b| && b[j] == a[|a| - 1]
    requires AllValid(b[..j] + b[j + 1..])
    requires multiset(Pairs(a[..|a| - 1])) == multiset(Pairs(b[..j] + b[j + 1..]))
    ensures multiset(Pairs(a)) == multiset(Pairs(b))
  {
    PairsRemoveAt(b, j);
    PairsLast(a);
  }

  /**
   * The canonical text does not depend on the iteration order of the array:
   * two arrays holding the same elements give the same text, or are both
   * rejected.
   */
  lemma CanonicalOrderIndependent(a: seq<Entry>, b: seq<Entry>)
    requires multiset(a) == multiset(b)
    ensures CanonicalText(a) == CanonicalText(b)
  {
    if AllValid(a) {
      PairsPermutation(a, b);
      SortPermutationInvariant(Pairs(a), Pairs(b));
    } else if AllValid(b) {
      PairsPermutation(b, a);
    }
  }

  /** Any element with a non-string key or a value other than an integer or string rejects the array. */
  lemma CanonicalRejects(a: seq<Entry>, i: int)
    requires 0 <= i < |a| && !ValidEntry(a[i])
    ensures CanonicalText(a) == None
  {
  }

  /** An integer value and the string of its int32 decimal text give the same canonical text. */
  lemma IntegerMatchesItsDecimalString(a: seq<Entry>, i: int, n: int)
    requires 0 <= i < |a| && a[i].1 == PInt(n)
    ensures CanonicalText(a) == CanonicalText(a[i := (a[i].0, PStr(Decimal.ToString(Decimal.ToInt32(n))))])
  {
    var b := a[i := (a[i].0, PStr(Decimal.ToString(Decimal.ToInt32(n))))];
    if AllValid(a) {
      assert AllValid(b);
      PairsSameText(a, b);
    } else {
      var k :| 0 <= k < |a| && !ValidEntry(a[k]);
      assert !ValidEntry(b[k]);
    }
  }

  lemma {:induction false} PairsSameText(a: seq<Entry>, b: seq<Entry>)
    requires AllValid(a) && AllValid(b) && |a| == |b|
    requires forall k :: 0 <= k < |a| ==> EntryPair(a[k]) == EntryPair(b[k])
    ensures Pairs(a) == Pairs(b)
  {
    if a != [] {
      PairsSameText(a[..|a| - 1], b[..|b| - 1]);
    }
  }

  lemma SingleEntryText(k: string, v: string)
    ensures CanonicalText([(PStr(k), PStr(v))]) == Some(k + v)
  {
    var a := [(PStr(k), PStr(v))];
    assert AllValid(a);
    assert a[..0] == [];
    assert Pairs(a) == [(k, v)];
    assert Sort([(k, v)]) == [(k, v)];
    assert [(k, v)][..0] == [];
    assert Concat([(k, v)]) == [] + k + v;
    assert [] + k + v == k + v;
  }

  /**
   * Without a separator the text does not determine the arguments:
   * {"ab": "c"} and {"a": "bc"} are different arrays with the same text.
   */
  lemma ConcatenationNotInjective()
    ensures var a := [(PStr("ab"), PStr("c"))];
            var b := [(PStr("a"), PStr("bc"))];
            a != b && CanonicalText(a) == CanonicalText(b)
  {
    SingleEntryText("ab", "c");
    SingleEntryText("a", "bc");
    assert "ab" + "c" == "a" + "bc";
  }
}
