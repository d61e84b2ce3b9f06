/** Generic sequence helpers shared by the server handlers and the browser
    code: PHP's array_filter followed by array_values and JavaScript's
    Array.prototype.filter both keep, in order, the elements a predicate
    accepts. */
module Seqs {
  import opened Options

  /** The elements of `s` that satisfy `p`, in their original order. */
  function Filter<T>(s: seq<T>, p: T -> bool): (r: seq<T>)
    ensures |r| <= |s|
    ensures forall i :: 0 <= i < |r| ==> p(r[i])
    decreases |s|
  {
    if s == [] then []
    else if p(s[0]) then [s[0]] + Filter(s[1..], p)
    else Filter(s[1..], p)
  }

  /** An element survives the filter exactly when it was there and passes. */
  lemma {:induction false} FilterMembership<T>(s: seq<T>, p: T -> bool, x: T)
    ensures x in Filter(s, p) <==> x in s && p(x)
    decreases |s|
  {
    if s != [] {
      FilterMembership(s[1..], p, x);
      assert s == [s[0]] + s[1..];
    }
  }

  /** Filtering a concatenation filters each part and keeps them in order. */
  lemma {:induction false} FilterAppend<T>(a: seq<T>, b: seq<T>, p: T -> bool)
    ensures Filter(a + b, p) == Filter(a, p) + Filter(b, p)
    decreases |a|
  {
    if a == [] {
      assert a + b == b;
    } else {
      assert (a + b)[1..] == a[1..] + b;
      FilterAppend(a[1..], b, p);
    }
  }

  /** Filtering keeps the whole sequence iff every element passes. */
  lemma {:induction false} FilterKeepsAll<T>(s: seq<T>, p: T -> bool)
    ensures Filter(s, p) == s <==> forall i :: 0 <= i < |s| ==> p(s[i])
    decreases |s|
  {
    if s != [] {
      FilterKeepsAll(s[1..], p);
      if !p(s[0]) {
        assert |Filter(s, p)| < |s|;
      }
    }
  }

  /** The number of elements of `s` that satisfy `p`. */
  function Count<T>(s: seq<T>, p: T -> bool): (n: nat)
    ensures n <= |s|
    ensures n == |Filter(s, p)|
    decreases |s|
  {
    if s == [] then 0
    else (if p(s[0]) then 1 else 0) + Count(s[1..], p)
  }

  /** Counting is additive over concatenation. */
  lemma {:induction false} CountAppend<T>(a: seq<T>, b: seq<T>, p: T -> bool)
    ensures Count(a + b, p) == Count(a, p) + Count(b, p)
  {
    FilterAppend(a, b, p);
  }

  /** The sequence `s` without its element at position `i` (array_splice
      with length 1, or Array.prototype.splice(i, 1)). */
  function RemoveAt<T>(s: seq<T>, i: nat): (r: seq<T>)
    requires i < |s|
    ensures |r| == |s| - 1
    ensures forall k :: 0 <= k < i ==> r[k] == s[k]
    ensures forall k :: i <= k < |r| ==> r[k] == s[k + 1]
  {
    s[..i] + s[i + 1..]
  }

  /** The sequence `s` with `x` inserted before position `i`
      (Array.prototype.splice(i, 0, x)). */
  function InsertAt<T>(s: seq<T>, i: nat, x: T): (r: seq<T>)
    requires i <= |s|
    ensures |r| == |s| + 1
    ensures r[i] == x
    ensures forall k :: 0 <= k < i ==> r[k] == s[k]
    ensures forall k :: i < k < |r| ==> r[k] == s[k - 1]
  {
    s[..i] + [x] + s[i..]
  }

  /** Removing an element and putting it back anywhere is a permutation. */
  lemma RemoveInsertPermutes<T>(s: seq<T>, i: nat, j: nat)
    requires i < |s| && j < |s|
    ensures multiset(InsertAt(RemoveAt(s, i), j, s[i])) == multiset(s)
  {
    var rest := RemoveAt(s, i);
    assert s == s[..i] + [s[i]] + s[i + 1..];
    assert multiset(s) == multiset(s[..i]) + multiset([s[i]]) + multiset(s[i + 1..]);
    assert multiset(rest) == multiset(s[..i]) + multiset(s[i + 1..]);
    assert rest == rest[..j] + rest[j..];
    assert multiset(rest) == multiset(rest[..j]) + multiset(rest[j..]);
    var moved := InsertAt(rest, j, s[i]);
    assert moved == rest[..j] + [s[i]] + rest[j..];
    assert multiset(moved) == multiset(rest[..j]) + multiset([s[i]]) + multiset(rest[j..]);
    assert multiset(moved) == multiset(rest) + multiset([s[i]]);
  }

  /** The parts of `parts` concatenated in order (appending, part after
      part, to one accumulating list). */
  function Flatten<T>(parts: seq<seq<T>>): seq<T>
    decreases |parts|
  {
    if parts == [] then [] else Flatten(parts[..|parts| - 1]) + parts[|parts| - 1]
  }

  /** Appending the next part extends the concatenation of the parts before
      it. */
  lemma FlattenStep<T>(parts: seq<seq<T>>, k: nat)
    requires k < |parts|
    ensures Flatten(parts[..k + 1]) == Flatten(parts[..k]) + parts[k]
  {
    assert parts[..k + 1][..k] == parts[..k];
  }

  /** The concatenation is empty exactly when every part is. */
  lemma {:induction false} FlattenEmpty<T>(parts: seq<seq<T>>)
    ensures Flatten(parts) == [] <==> forall i :: 0 <= i < |parts| ==> parts[i] == []
    decreases |parts|
  {
    if parts != [] {
      var init := parts[..|parts| - 1];
      FlattenEmpty(init);
      assert forall i :: 0 <= i < |init| ==> init[i] == parts[i];
      assert |Flatten(parts)| == |Flatten(init)| + |parts[|parts| - 1]|;
    }
  }

  /** The concatenation of the first `k` parts is a prefix of the whole. */
  lemma {:induction false} FlattenPrefix<T>(parts: seq<seq<T>>, k: nat)
    requires k <= |parts|
    ensures Flatten(parts[..k]) <= Flatten(parts)
    decreases |parts| - k
  {
    if k < |parts| {
      FlattenStep(parts, k);
      FlattenPrefix(parts, k + 1);
      if k + 1 == |parts| {
        assert parts[..k + 1] == parts;
      }
    } else {
      assert parts[..k] == parts;
    }
  }

  /** An element is in the concatenation exactly when it is in some part. */
  lemma {:induction false} FlattenMembership<T>(parts: seq<seq<T>>, x: T)
    ensures x in Flatten(parts) <==> exists i :: 0 <= i < |parts| && x in parts[i]
    decreases |parts|
  {
    if parts != [] {
      var init := parts[..|parts| - 1];
      FlattenMembership(init, x);
      assert forall i :: 0 <= i < |init| ==> init[i] == parts[i];
      assert x in parts[|parts| - 1] ==> exists i :: 0 <= i < |parts| && x in parts[i];
    }
  }

  /** The position of the first element of `s` that satisfies `p` (the
      foreach-with-break searches of the handlers). */
  function FindFirst<T>(s: seq<T>, p: T -> bool): (r: Option<nat>)
    ensures r.Some? ==> r.value < |s| && p(s[r.value]) && forall j :: 0 <= j < r.value ==> !p(s[j])
    ensures r.None? <==> forall j :: 0 <= j < |s| ==> !p(s[j])
    decreases |s|
  {
    if s == [] then None
    else if p(s[0]) then Some(0)
    else match FindFirst(s[1..], p)
      case None => None
      case Some(k) => Some(k + 1)
  }

  /** How many elements of `s` have key `k` (a counter that a foreach
      increments at `key(x)` for each element `x`). */
  function Tally<T, K(==)>(s: seq<T>, key: T -> K, k: K): nat
    decreases |s|
  {
    if s == [] then 0
    else Tally(s[..|s| - 1], key, k) + (if key(s[|s| - 1]) == k then 1 else 0)
  }

  function HasKey<T, K(==)>(key: T -> K, k: K): T -> bool {
    x => key(x) == k
  }

  /** The tally of a key is the length of the sublist that carries it. */
  lemma {:induction false} TallyIsFilterLength<T, K>(s: seq<T>, key: T -> K, k: K)
    ensures Tally(s, key, k) == |Filter(s, HasKey(key, k))|
    decreases |s|
  {
    if s != [] {
      var init := s[..|s| - 1];
      TallyIsFilterLength(init, key, k);
      assert s == init + [s[|s| - 1]];
      FilterAppend(init, [s[|s| - 1]], HasKey(key, k));
    }
  }

  /** A key is tallied at all exactly when some element carries it. */
  lemma {:induction false} TallyPositive<T, K>(s: seq<T>, key: T -> K, k: K)
    ensures Tally(s, key, k) > 0 <==> exists i :: 0 <= i < |s| && key(s[i]) == k
    decreases |s|
  {
    if s != [] {
      var init := s[..|s| - 1];
      TallyPositive(init, key, k);
      assert forall i :: 0 <= i < |init| ==> init[i] == s[i];
      if key(s[|s| - 1]) == k {
        assert exists i :: 0 <= i < |s| && key(s[i]) == k;
      }
    }
  }

  /** Extending the list by one element adds one to that element's key. */
  lemma TallyStep<T, K>(s: seq<T>, key: T -> K, i: nat, k: K)
    requires i < |s|
    ensures Tally(s[..i + 1], key, k) == Tally(s[..i], key, k) + (if key(s[i]) == k then 1 else 0)
  {
    assert s[..i + 1][..i] == s[..i];
  }

  /** Taking back out the element just inserted gives the sequence back. */
  lemma RemoveAfterInsert<T>(s: seq<T>, i: nat, x: T)
    requires i <= |s|
    ensures RemoveAt(InsertAt(s, i, x), i) == s
  {
    assert InsertAt(s, i, x)[..i] == s[..i];
    assert InsertAt(s, i, x)[i + 1..] == s[i..];
  }

  /** `s` with the elements at `i` and `j` exchanged (a destructuring
      swap). */
  function Swap<T>(s: seq<T>, i: nat, j: nat): (r: seq<T>)
    requires i < |s| && j < |s|
    ensures |r| == |s| && r[i] == s[j] && r[j] == s[i]
    ensures forall k :: 0 <= k < |s| && k != i && k != j ==> r[k] == s[k]
    ensures multiset(r) == multiset(s)
  {
    s[i := s[j]][j := s[i]]
  }

  /** A position that satisfies `p` with none before it is the one found. */
  lemma FindFirstIs<T>(s: seq<T>, p: T -> bool, i: nat)
    requires i < |s| && p(s[i])
    requires forall j :: 0 <= j < i ==> !p(s[j])
    ensures FindFirst(s, p) == Some(i)
  {
    assert FindFirst(s, p).Some?;
  }

  /** The images under `f` of the elements of `s` that `keep` accepts once
      mapped, in order (a loop that pushes `f(x)` when it passes). */
  function KeepMapped<T, U>(s: seq<T>, f: T -> U, keep: U -> bool): (r: seq<U>)
    ensures |r| <= |s|
    ensures forall k :: 0 <= k < |r| ==> keep(r[k])
    decreases |s|
  {
    if s == [] then []
    else
      var y := f(s[|s| - 1]);
      KeepMapped(s[..|s| - 1], f, keep) + (if keep(y) then [y] else [])
  }

  /** A value is kept exactly when it is the image of some element and
      passes. */
  lemma {:induction false} KeepMappedMembership<T, U>(s: seq<T>, f: T -> U, keep: U -> bool, y: U)
    ensures y in KeepMapped(s, f, keep) <==> keep(y) && exists k :: 0 <= k < |s| && f(s[k]) == y
    decreases |s|
  {
    if s != [] {
      var n := |s| - 1;
      var init := s[..n];
      KeepMappedMembership(init, f, keep, y);
      if y in KeepMapped(init, f, keep) {
        var k :| 0 <= k < |init| && f(init[k]) == y;
        assert s[k] == init[k];
      }
      if keep(y) && exists k :: 0 <= k < |s| && f(s[k]) == y {
        var k :| 0 <= k < |s| && f(s[k]) == y;
        if k < n {
          assert init[k] == s[k];
        }
      }
    }
  }

  /** Appending one element extends the kept images by its image, if it
      passes. */
  lemma KeepMappedStep<T, U>(s: seq<T>, f: T -> U, keep: U -> bool, i: nat)
    requires i < |s|
    ensures KeepMapped(s[..i + 1], f, keep)
            == KeepMapped(s[..i], f, keep) + (if keep(f(s[i])) then [f(s[i])] else [])
  {
    assert s[..i + 1][..i] == s[..i];
  }

  /** Swapping twice restores the sequence. */
  lemma SwapTwice<T>(s: seq<T>, i: nat, j: nat)
    requires i < |s| && j < |s|
    ensures Swap(Swap(s, i, j), j, i) == s
  {
    assert forall k :: 0 <= k < |s| ==> Swap(Swap(s, i, j), j, i)[k] == s[k];
  }

  /** The first match, swapped with its predecessor, is still the first
      match, one place earlier. */
  lemma FindFirstSwapBack<T>(s: seq<T>, p: T -> bool, i: nat)
    requires FindFirst(s, p) == Some(i) && i > 0
    ensures FindFirst(Swap(s, i, i - 1), p) == Some(i - 1)
  {
    FindFirstIs(Swap(s, i, i - 1), p, i - 1);
  }

  /** The first match, swapped with a successor that does not match, is
      still the first match, one place later. */
  lemma FindFirstSwapForward<T>(s: seq<T>, p: T -> bool, i: nat)
    requires FindFirst(s, p) == Some(i) && i + 1 < |s| && !p(s[i + 1])
    ensures FindFirst(Swap(s, i, i + 1), p) == Some(i + 1)
  {
    var t := Swap(s, i, i + 1);
    forall j | 0 <= j < i + 1
      ensures !p(t[j])
    {
      if j < i {
        assert t[j] == s[j];
      }
    }
    FindFirstIs(t, p, i + 1);
  }

  /** Taking an element out and putting it back one place earlier swaps it
      with its predecessor. */
  lemma ReinsertBeforeIsSwap<T>(s: seq<T>, d: nat)
    requires 0 < d < |s|
    ensures InsertAt(RemoveAt(s, d), d - 1, s[d]) == Swap(s, d, d - 1)
  {
    var r := InsertAt(RemoveAt(s, d), d - 1, s[d]);
    var w := Swap(s, d, d - 1);
    assert |r| == |w|;
    forall k | 0 <= k < |s|
      ensures r[k] == w[k]
    {
    }
  }

  /** Taking an element out and putting it back one place later swaps it
      with its successor. */
  lemma ReinsertAfterIsSwap<T>(s: seq<T>, d: nat)
    requires d + 1 < |s|
    ensures InsertAt(RemoveAt(s, d), d + 1, s[d]) == Swap(s, d, d + 1)
  {
    var r := InsertAt(RemoveAt(s, d), d + 1, s[d]);
    var w := Swap(s, d, d + 1);
    assert |r| == |w|;
    forall k | 0 <= k < |s|
      ensures r[k] == w[k]
    {
    }
  }

  /** `s` back to front. */
  function Reverse<T>(s: seq<T>): (r: seq<T>)
    ensures |r| == |s|
    ensures forall k :: 0 <= k < |s| ==> r[k] == s[|s| - 1 - k]
    decreases |s|
  {
    if s == [] then [] else Reverse(s[1..]) + [s[0]]
  }

  /** Reversing twice gives the sequence back. */
  lemma ReverseTwice<T>(s: seq<T>)
    ensures Reverse(Reverse(s)) == s
  {
    assert forall k :: 0 <= k < |s| ==> Reverse(Reverse(s))[k] == s[k];
  }
}
