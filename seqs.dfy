/** Sequence helpers shared by the model: duplicate-freedom, order-preserving
    deduplication, occurrence counts and sums over a list of keys. */
module Seqs {

  predicate Distinct<T(==)>(s: seq<T>) {
    forall i, j :: 0 <= i < j < |s| ==> s[i] != s[j]
  }

  /** Two duplicate-free lists with no name in common concatenate to a
      duplicate-free list. */
  lemma DistinctAppend<T>(a: seq<T>, b: seq<T>)
    requires Distinct(a) && Distinct(b) && forall x :: x in b ==> x !in a
    ensures Distinct(a + b)
  {
    var ab := a + b;
    forall i, j | 0 <= i < j < |ab| ensures ab[i] != ab[j] {
      if j < |a| {
        assert ab[i] == a[i] && ab[j] == a[j];
      } else if i < |a| {
        assert ab[i] == a[i] && ab[j] == b[j - |a|] && b[j - |a|] in b;
      } else {
        assert ab[i] == b[i - |a|] && ab[j] == b[j - |a|];
      }
    }
  }

  lemma AppendAssoc<T>(a: seq<T>, b: seq<T>, c: seq<T>)
    ensures (a + b) + c == a + (b + c)
  {
  }

  /** Index of the first occurrence of `x` in `s`. */
  function IndexOf<T(==)>(s: seq<T>, x: T): (r: nat)
    requires x in s
    ensures r < |s| && s[r] == x
    ensures forall k :: 0 <= k < r ==> s[k] != x
  {
    if s[0] == x then 0 else 1 + IndexOf(s[1..], x)
  }

  lemma {:induction false} IndexOfAppend<T>(s: seq<T>, t: seq<T>, x: T)
    requires x in s
    ensures x in s + t && IndexOf(s + t, x) == IndexOf(s, x)
  {
    if s[0] != x {
      assert (s + t)[1..] == s[1..] + t;
      IndexOfAppend(s[1..], t, x);
    }
  }

  /** In a duplicate-free sequence the first occurrence is the only one. */
  lemma IndexOfDistinct<T>(s: seq<T>, k: nat)
    requires Distinct(s) && k < |s|
    ensures IndexOf(s, s[k]) == k
  {
  }

  /** Number of occurrences of `x` in `s`. */
  function Count<T(==)>(s: seq<T>, x: T): (r: nat)
    ensures r <= |s|
    ensures r == 0 <==> x !in s
  {
    if s == [] then 0
    else Count(s[..|s| - 1], x) + (if s[|s| - 1] == x then 1 else 0)
  }

  lemma {:induction false} CountDistinct<T>(s: seq<T>, x: T)
    requires Distinct(s) && x in s
    ensures Count(s, x) == 1
  {
    var last := s[|s| - 1];
    var init := s[..|s| - 1];
    assert s == init + [last];
    if last == x {
      assert x !in init;
    } else {
      assert x in init;
      CountDistinct(init, x);
    }
  }

  /** The elements of `s` in the order of their first occurrence, each once:
      the effect of the `seen`-set loops of the source. */
  function Dedupe<T(==)>(s: seq<T>): (r: seq<T>)
    ensures Distinct(r)
    ensures forall i :: 0 <= i < |r| ==> r[i] in s
    ensures forall i :: 0 <= i < |s| ==> s[i] in r
    ensures |r| <= |s|
  {
    if s == [] then []
    else
      var d := Dedupe(s[..|s| - 1]);
      if s[|s| - 1] in d then d else d + [s[|s| - 1]]
  }

  /** Appending one element to the input appends it to the output unless
      it has been seen. */
  lemma DedupeSnoc<T>(s: seq<T>, x: T)
    ensures Dedupe(s + [x]) == if x in Dedupe(s) then Dedupe(s) else Dedupe(s) + [x]
  {
    assert (s + [x])[..|s|] == s;
  }

  /** Deduplication keeps first occurrences, in their original order. */
  lemma {:induction false} DedupeFirstOccurrenceOrder<T>(s: seq<T>)
    ensures forall i, j :: 0 <= i < j < |Dedupe(s)| ==>
              IndexOf(s, Dedupe(s)[i]) < IndexOf(s, Dedupe(s)[j])
  {
    if s != [] {
      var init, last := s[..|s| - 1], s[|s| - 1];
      assert s == init + [last];
      DedupeFirstOccurrenceOrder(init);
      var d := Dedupe(init);
      forall y | y in init ensures IndexOf(s, y) == IndexOf(init, y) {
        IndexOfAppend(init, [last], y);
      }
      if last !in d {
        assert last !in init;
        assert IndexOf(s, last) == |init|;
      }
    }
  }

  /** Deduplication leaves a duplicate-free sequence as it is. */
  lemma {:induction false} DedupeOfDistinct<T>(s: seq<T>)
    requires Distinct(s)
    ensures Dedupe(s) == s
  {
    if s != [] {
      var init := s[..|s| - 1];
      assert Distinct(init);
      DedupeOfDistinct(init);
      assert s[|s| - 1] !in init;
      assert s == init + [s[|s| - 1]];
    }
  }

  /** Deduplication changes the length exactly when there is a duplicate. */
  lemma {:induction false} DedupeLength<T>(s: seq<T>)
    ensures |Dedupe(s)| == |s| <==> Distinct(s)
  {
    if Distinct(s) {
      DedupeOfDistinct(s);
    } else if s != [] {
      var init, last := s[..|s| - 1], s[|s| - 1];
      DedupeLength(init);
      if Distinct(init) {
        assert last in init by {
          var i, j :| 0 <= i < j < |s| && s[i] == s[j];
          assert j == |s| - 1 && s[i] == init[i];
        }
      }
    }
  }

  lemma DedupeIdempotent<T>(s: seq<T>)
    ensures Dedupe(Dedupe(s)) == Dedupe(s)
  {
    DedupeOfDistinct(Dedupe(s));
  }

  /** The elements of `s` that satisfy `p`, in order. */
  function Filter<T>(s: seq<T>, p: T -> bool): (r: seq<T>)
    ensures |r| <= |s|
    ensures forall i :: 0 <= i < |r| ==> r[i] in s && p(r[i])
    ensures forall i :: 0 <= i < |s| && p(s[i]) ==> s[i] in r
  {
    if s == [] then []
    else Filter(s[..|s| - 1], p) + (if p(s[|s| - 1]) then [s[|s| - 1]] else [])
  }

  /** The sum of `f` over `keys`, one term per position. */
  ghost function SumOf<T>(keys: seq<T>, f: T -> int): int {
    if keys == [] then 0 else SumOf(keys[..|keys| - 1], f) + f(keys[|keys| - 1])
  }

  lemma {:induction false} SumOfExt<T>(keys: seq<T>, f: T -> int, g: T -> int)
    requires forall k :: k in keys ==> f(k) == g(k)
    ensures SumOf(keys, f) == SumOf(keys, g)
  {
    if keys != [] {
      SumOfExt(keys[..|keys| - 1], f, g);
    }
  }

  lemma {:induction false} SumOfAdd<T>(keys: seq<T>, f: T -> int, g: T -> int, h: T -> int)
    requires forall k :: k in keys ==> h(k) == f(k) + g(k)
    ensures SumOf(keys, h) == SumOf(keys, f) + SumOf(keys, g)
  {
    if keys != [] {
      SumOfAdd(keys[..|keys| - 1], f, g, h);
    }
  }

  lemma {:induction false} SumOfConst<T>(keys: seq<T>, f: T -> int, c: int)
    requires forall k :: k in keys ==> f(k) == c
    ensures SumOf(keys, f) == |keys| * c
  {
    if keys != [] {
      SumOfConst(keys[..|keys| - 1], f, c);
    }
  }

  /** A sum over duplicate-free keys whose only non-zero term is at `w`. */
  lemma {:induction false} SumOfSingle<T>(keys: seq<T>, f: T -> int, w: T)
    requires Distinct(keys) && w in keys
    requires forall k :: k in keys && k != w ==> f(k) == 0
    ensures SumOf(keys, f) == f(w)
  {
    var init, last := keys[..|keys| - 1], keys[|keys| - 1];
    if last == w {
      assert w !in init;
      SumOfConst(init, f, 0);
    } else {
      assert w in init;
      SumOfSingle(init, f, w);
    }
  }
}
