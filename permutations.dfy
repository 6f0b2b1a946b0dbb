/** Index permutations of [0, n), their inverses, and gathering a sequence
    through an index list (the comprehension `[pixels[i] for i in indices]`). */
module Permutations {

  /** The index list `list(range(n))`. */
  function Range(n: nat): (r: seq<nat>)
    ensures |r| == n
    ensures forall i :: 0 <= i < n ==> r[i] == i
  {
    seq(n, i requires 0 <= i < n => i as nat)
  }

  /** Exchange the elements at positions i and j (`x[i], x[j] = x[j], x[i]`). */
  function Swap<T>(s: seq<T>, i: nat, j: nat): (r: seq<T>)
    requires i < |s| && j < |s|
    ensures |r| == |s| && r[i] == s[j] && r[j] == s[i]
    ensures forall k :: 0 <= k < |s| && k != i && k != j ==> r[k] == s[k]
    ensures multiset(r) == multiset(s)
  {
    s[i := s[j]][j := s[i]]
  }

  /** p lists every index of [0, n) exactly once. */
  predicate IsPermutation(p: seq<nat>, n: nat) {
    && |p| == n
    && (forall i :: 0 <= i < n ==> p[i] < n)
    && (forall i, j :: 0 <= i < j < n ==> p[i] != p[j])
    && (forall v :: 0 <= v < n ==> v in p)
  }

  lemma RangeIsPermutation(n: nat)
    ensures IsPermutation(Range(n), n)
  {
    var r := Range(n);
    forall v | 0 <= v < n ensures v in r {
      assert r[v] == v;
    }
  }

  /** Exchanging two entries keeps a permutation a permutation. */
  lemma SwapIsPermutation(p: seq<nat>, n: nat, i: nat, j: nat)
    requires IsPermutation(p, n) && i < n && j < n
    ensures IsPermutation(Swap(p, i, j), n)
  {
    var q := Swap(p, i, j);
    forall v | 0 <= v < n ensures v in q {
      assert v in p;
      var k :| 0 <= k < n && p[k] == v;
      if k == i {
        assert q[j] == v;
      } else if k == j {
        assert q[i] == v;
      } else {
        assert q[k] == v;
      }
    }
  }

  /** Position of the first occurrence of v in p, or |p| when v does not occur. */
  function IndexOf(p: seq<nat>, v: nat): (k: nat)
    ensures k <= |p|
    ensures k < |p| <==> v in p
    ensures k < |p| ==> p[k] == v
    ensures forall i :: 0 <= i < k ==> p[i] != v
  {
    if |p| == 0 then 0
    else if p[0] == v then 0
    else 1 + IndexOf(p[1..], v)
  }

  /** The inverse index list, defined by searching: entry j is where j occurs in p. */
  function Inverse(p: seq<nat>): (q: seq<nat>)
    ensures |q| == |p|
  {
    seq(|p|, j requires 0 <= j < |p| => IndexOf(p, j))
  }

  /** The inverse of a permutation is a permutation, and undoes it on both sides. */
  lemma InverseOfPermutation(p: seq<nat>, n: nat)
    requires IsPermutation(p, n)
    ensures IsPermutation(Inverse(p), n)
    ensures forall i :: 0 <= i < n ==> Inverse(p)[p[i]] == i
    ensures forall j :: 0 <= j < n ==> p[Inverse(p)[j]] == j
  {
    var q := Inverse(p);
    forall j | 0 <= j < n ensures q[j] < n && p[q[j]] == j {
      assert j in p;
    }
    forall i | 0 <= i < n ensures q[p[i]] == i {
      var k := IndexOf(p, p[i]);
      assert p[i] in p;
      assert p[k] == p[i];
    }
    forall i | 0 <= i < n ensures i in q {
      assert q[p[i]] == i;
    }
  }

  /** All entries of idx are positions of s. */
  predicate Indexes<T>(idx: seq<nat>, s: seq<T>) {
    forall i :: 0 <= i < |idx| ==> idx[i] < |s|
  }

  /** `[s[i] for i in idx]`. */
  function Gather<T>(s: seq<T>, idx: seq<nat>): (r: seq<T>)
    requires Indexes(idx, s)
    ensures |r| == |idx|
    ensures forall i :: 0 <= i < |idx| ==> r[i] == s[idx[i]]
  {
    seq(|idx|, i requires 0 <= i < |idx| => s[idx[i]])
  }

  /** Gathering through the identity index list changes nothing. */
  lemma GatherRange<T>(s: seq<T>)
    ensures Indexes(Range(|s|), s) && Gather(s, Range(|s|)) == s
  {
  }

  /** Gathering through a swapped index list is swapping the gathered list. */
  lemma GatherSwap<T>(s: seq<T>, idx: seq<nat>, i: nat, j: nat)
    requires Indexes(idx, s) && i < |idx| && j < |idx|
    ensures Indexes(Swap(idx, i, j), s)
    ensures Gather(s, Swap(idx, i, j)) == Swap(Gather(s, idx), i, j)
  {
  }

  /** Gathering through p and then through its inverse restores s, and so does
      the opposite order. */
  lemma GatherInverse<T>(s: seq<T>, p: seq<nat>)
    requires IsPermutation(p, |s|)
    ensures Indexes(p, s) && Indexes(Inverse(p), s)
    ensures Gather(Gather(s, p), Inverse(p)) == s
    ensures Gather(Gather(s, Inverse(p)), p) == s
  {
    InverseOfPermutation(p, |s|);
    var q := Inverse(p);
    var a := Gather(Gather(s, p), q);
    forall j | 0 <= j < |s| ensures a[j] == s[j] {
      assert a[j] == s[p[q[j]]];
    }
    var b := Gather(Gather(s, q), p);
    forall i | 0 <= i < |s| ensures b[i] == s[i] {
      assert b[i] == s[q[p[i]]];
    }
  }
}
