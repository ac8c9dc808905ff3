/** Sequence operations the source takes from JavaScript's `Array` (find, filter, reverse). */
module Seqs {
  import opened Wrappers

  /** Index of the first element satisfying `p`; what `Array.prototype.find` looks up. */
  function FirstIndex<T>(s: seq<T>, p: T -> bool): (r: Option<nat>)
    ensures r.None? <==> forall i :: 0 <= i < |s| ==> !p(s[i])
    ensures r.Some? ==> r.value < |s| && p(s[r.value])
    ensures r.Some? ==> forall j :: 0 <= j < r.value ==> !p(s[j])
    decreases |s|
  {
    if s == [] then None
    else if p(s[0]) then Some(0)
    else match FirstIndex(s[1..], p)
      case None => None
      case Some(i) => Some(i + 1)
  }

  /** `Array.prototype.find`: the first element satisfying `p`. */
  function Find<T>(s: seq<T>, p: T -> bool): (r: Option<T>)
    ensures r.None? <==> forall i :: 0 <= i < |s| ==> !p(s[i])
    ensures r.Some? ==> exists i :: (0 <= i < |s| && s[i] == r.value && p(s[i])
      && forall j :: 0 <= j < i ==> !p(s[j]))
  {
    match FirstIndex(s, p)
    case None => None
    case Some(i) => Some(s[i])
  }

  /** The first present value `get` reads off the elements of `s`, in order. */
  function FirstSome<A, T>(s: seq<A>, get: A -> Option<T>): (r: Option<T>)
    ensures r.None? <==> forall i :: 0 <= i < |s| ==> get(s[i]).None?
    ensures r.Some? ==> exists i :: (0 <= i < |s| && get(s[i]) == r
      && forall j :: 0 <= j < i ==> get(s[j]).None?)
  {
    match FirstIndex(s, (a: A) => get(a).Some?)
    case None => None
    case Some(i) => get(s[i])
  }

  /** Once a value is present it is the answer for every extension of `s`: first write wins. */
  lemma FirstSomeStable<A, T>(s: seq<A>, t: seq<A>, get: A -> Option<T>)
    requires FirstSome(s, get).Some?
    ensures FirstSome(s + t, get) == FirstSome(s, get)
  {
    FirstIndexStable(s, t, (a: A) => get(a).Some?);
  }

  /** One more element fills the value only when none was present before. */
  lemma FirstSomeSnoc<A, T>(s: seq<A>, x: A, get: A -> Option<T>)
    ensures FirstSome(s + [x], get) ==
      if FirstSome(s, get).Some? then FirstSome(s, get) else get(x)
  {
    var present := (a: A) => get(a).Some?;
    FirstIndexSnoc(s, x, present);
    assert (s + [x])[|s|] == x;
  }

  /**
   * A write-once cell fed the elements of `s` in order: it takes the first
   * value `get` supplies and keeps it from then on.
   */
  function Latch<A, T>(s: seq<A>, get: A -> Option<T>): Option<T>
    decreases |s|
  {
    if s == [] then None
    else
      var held := Latch(s[..|s| - 1], get);
      if held.Some? then held else get(s[|s| - 1])
  }

  /** The write-once cell ends up holding the first value supplied. */
  lemma {:induction false} LatchIsFirstSome<A, T>(s: seq<A>, get: A -> Option<T>)
    ensures Latch(s, get) == FirstSome(s, get)
    decreases |s|
  {
    if s != [] {
      var init, last := s[..|s| - 1], s[|s| - 1];
      assert s == init + [last];
      LatchIsFirstSome(init, get);
      FirstSomeSnoc(init, last, get);
    }
  }

  /** Once the cell holds a value, further elements leave it unchanged. */
  lemma LatchStable<A, T>(s: seq<A>, t: seq<A>, get: A -> Option<T>)
    requires Latch(s, get).Some?
    ensures Latch(s + t, get) == Latch(s, get)
  {
    LatchIsFirstSome(s, get);
    LatchIsFirstSome(s + t, get);
    FirstSomeStable(s, t, get);
  }

  /** The first index is determined by the two facts its contract states. */
  lemma FirstIndexIs<T>(s: seq<T>, p: T -> bool, i: nat)
    requires i < |s| && p(s[i])
    requires forall j :: 0 <= j < i ==> !p(s[j])
    ensures FirstIndex(s, p) == Some(i)
  {
  }

  /** Once some element of `s` satisfies `p`, appending more elements never changes the first index. */
  lemma FirstIndexStable<T>(s: seq<T>, t: seq<T>, p: T -> bool)
    requires FirstIndex(s, p).Some?
    ensures FirstIndex(s + t, p) == FirstIndex(s, p)
  {
    var i := FirstIndex(s, p).value;
    assert (s + t)[i] == s[i];
    forall j | 0 <= j < i
      ensures !p((s + t)[j])
    {
      assert (s + t)[j] == s[j];
    }
    FirstIndexIs(s + t, p, i);
  }

  /** Appending one element: the first index stays, or becomes the new element if it is the first hit. */
  lemma FirstIndexSnoc<T>(s: seq<T>, x: T, p: T -> bool)
    ensures FirstIndex(s + [x], p) ==
      if FirstIndex(s, p).Some? then FirstIndex(s, p)
      else if p(x) then Some(|s|)
      else None
  {
    if FirstIndex(s, p).Some? {
      FirstIndexStable(s, [x], p);
    } else {
      forall j | 0 <= j < |s|
        ensures !p((s + [x])[j])
      {
        assert (s + [x])[j] == s[j];
      }
      assert (s + [x])[|s|] == x;
      if p(x) {
        FirstIndexIs(s + [x], p, |s|);
      }
    }
  }

  /** `a` is `b` with some elements left out, the others kept in their order. */
  predicate IsSubsequence<T(==)>(a: seq<T>, b: seq<T>)
    decreases |b|
  {
    a == [] ||
    (b != [] &&
      ((a[0] == b[0] && IsSubsequence(a[1..], b[1..])) || IsSubsequence(a, b[1..])))
  }

  lemma {:induction false} IsSubsequenceTransitive<T>(a: seq<T>, b: seq<T>, c: seq<T>)
    requires IsSubsequence(a, b) && IsSubsequence(b, c)
    ensures IsSubsequence(a, c)
    decreases |c|
  {
    if a == [] {
    } else if IsSubsequence(b, c[1..]) {
      IsSubsequenceTransitive(a, b, c[1..]);
    } else {
      assert b[0] == c[0] && IsSubsequence(b[1..], c[1..]);
      if a[0] == b[0] && IsSubsequence(a[1..], b[1..]) {
        IsSubsequenceTransitive(a[1..], b[1..], c[1..]);
      } else {
        IsSubsequenceTransitive(a, b[1..], c[1..]);
      }
    }
  }

  /** `Array.prototype.filter`: keeps exactly the elements satisfying `p`, in their order. */
  function Filter<T(!new)>(s: seq<T>, p: T -> bool): (r: seq<T>)
    ensures forall x :: multiset(r)[x] == if p(x) then multiset(s)[x] else 0
    ensures forall k :: 0 <= k < |r| ==> p(r[k])
    ensures IsSubsequence(r, s)
    decreases |s|
  {
    if s == [] then []
    else
      assert s == [s[0]] + s[1..];
      if p(s[0]) then [s[0]] + Filter(s[1..], p) else Filter(s[1..], p)
  }

  /** `Array.prototype.reverse` on a freshly built array. */
  function Reverse<T>(s: seq<T>): (r: seq<T>)
    ensures |r| == |s|
    ensures forall k :: 0 <= k < |s| ==> r[k] == s[|s| - 1 - k]
  {
    if s == [] then [] else Reverse(s[1..]) + [s[0]]
  }

  /** The indices 0, 1, ..., n - 1 in order. */
  function Range(n: nat): (r: seq<nat>)
    ensures |r| == n && forall i :: 0 <= i < n ==> r[i] == i
  {
    if n == 0 then [] else Range(n - 1) + [n - 1]
  }

  /** `order` lists every index below `n` exactly once. */
  predicate IsPermutationOf(order: seq<nat>, n: nat) {
    && (forall k :: 0 <= k < |order| ==> order[k] < n)
    && multiset(order) == multiset(Range(n))
  }

  /** The elements of `s` taken in the order `order` names them. */
  function Permute<T>(s: seq<T>, order: seq<nat>): seq<T>
    requires forall k :: 0 <= k < |order| ==> order[k] < |s|
  {
    seq(|order|, k requires 0 <= k < |order| => s[order[k]])
  }

  /** A permutation names every index below `n`. */
  lemma PermutationCovers(order: seq<nat>, n: nat, i: nat)
    requires IsPermutationOf(order, n) && i < n
    ensures i in order
  {
    var range := Range(n);
    assert range[i] == i;
    assert i in multiset(range);
  }

  lemma PermutationLength(order: seq<nat>, n: nat)
    requires IsPermutationOf(order, n)
    ensures |order| == n
  {
    assert |multiset(order)| == |multiset(Range(n))|;
  }

  lemma PermuteAppend<T>(s: seq<T>, u: seq<nat>, v: seq<nat>)
    requires forall k :: 0 <= k < |u| ==> u[k] < |s|
    requires forall k :: 0 <= k < |v| ==> v[k] < |s|
    ensures forall k :: 0 <= k < |u + v| ==> (u + v)[k] < |s|
    ensures Permute(s, u + v) == Permute(s, u) + Permute(s, v)
  {
  }

  /** Removing the same element from two lists with equal multisets leaves equal multisets. */
  lemma MultisetRemoveAt(a: seq<nat>, b: seq<nat>, p: nat)
    requires multiset(a) == multiset(b) && a != [] && p < |b| && b[p] == a[0]
    ensures multiset(a[1..]) == multiset(b[..p] + b[p + 1..])
  {
    var x := a[0];
    assert a == [x] + a[1..];
    assert b == b[..p] + [x] + b[p + 1..];
    calc {
      multiset(a[1..]);
      multiset(a) - multiset{x};
      multiset(b) - multiset{x};
      multiset(b[..p]) + multiset(b[p + 1..]);
      multiset(b[..p] + b[p + 1..]);
    }
  }

  /** Two index lists with the same multiset pick out the same multiset of elements. */
  lemma {:induction false} PermuteSameMultiset<T>(s: seq<T>, a: seq<nat>, b: seq<nat>)
    requires forall k :: 0 <= k < |a| ==> a[k] < |s|
    requires forall k :: 0 <= k < |b| ==> b[k] < |s|
    requires multiset(a) == multiset(b)
    ensures multiset(Permute(s, a)) == multiset(Permute(s, b))
    decreases |a|
  {
    if a == [] {
      assert |multiset(b)| == 0;
    } else {
      var x := a[0];
      assert x in multiset(b);
      var p :| 0 <= p < |b| && b[p] == x;
      var left, right := b[..p], b[p + 1..];
      MultisetRemoveAt(a, b, p);
      PermuteSameMultiset(s, a[1..], left + right);
      PermuteUncons(s, a);
      PermuteAround(s, b, p);
      PermuteAppend(s, left, right);
      var pa, pl, pr := Permute(s, a[1..]), Permute(s, left), Permute(s, right);
      calc {
        multiset(Permute(s, a));
        multiset([s[x]] + pa);
        multiset([s[x]]) + multiset(pa);
        multiset([s[x]]) + multiset(pl + pr);
        multiset(pl + [s[x]] + pr);
        multiset(Permute(s, b));
      }
    }
  }

  lemma PermuteUncons<T>(s: seq<T>, a: seq<nat>)
    requires a != [] && forall k :: 0 <= k < |a| ==> a[k] < |s|
    ensures Permute(s, a) == [s[a[0]]] + Permute(s, a[1..])
  {
  }

  lemma PermuteAround<T>(s: seq<T>, b: seq<nat>, p: nat)
    requires p < |b| && forall k :: 0 <= k < |b| ==> b[k] < |s|
    ensures Permute(s, b) == Permute(s, b[..p]) + [s[b[p]]] + Permute(s, b[p + 1..])
  {
    assert b == b[..p] + [b[p]] + b[p + 1..];
  }

  /** Taking the elements of `s` in any permutation's order keeps the multiset of `s`. */
  lemma PermuteIsPermutation<T>(s: seq<T>, order: seq<nat>)
    requires IsPermutationOf(order, |s|)
    ensures multiset(Permute(s, order)) == multiset(s)
  {
    var range := Range(|s|);
    PermuteSameMultiset(s, order, range);
    assert Permute(s, range) == s;
  }
}
