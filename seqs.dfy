/** Order-preserving filtering and the subsequence relation, used by every list filter of the model. */
module Seqs {

  /** The elements of `s` satisfying `p`, in their original order (a Python list comprehension with `if`). */
  function Filter<T>(s: seq<T>, p: T -> bool): (r: seq<T>)
    ensures |r| <= |s|
    ensures forall i :: 0 <= i < |r| ==> p(r[i])
  {
    if s == [] then []
    else (if p(s[0]) then [s[0]] else []) + Filter(s[1..], p)
  }

  /** Membership in a filter is membership in the input plus the condition. */
  lemma {:induction false} FilterMembers<T>(s: seq<T>, p: T -> bool, x: T)
    ensures x in Filter(s, p) <==> x in s && p(x)
  {
    if s != [] {
      FilterMembers(s[1..], p, x);
      assert x in s <==> x == s[0] || x in s[1..];
    }
  }

  /** Filtering distributes over concatenation. */
  lemma {:induction false} FilterConcat<T>(s: seq<T>, t: seq<T>, p: T -> bool)
    ensures Filter(s + t, p) == Filter(s, p) + Filter(t, p)
  {
    if s == [] {
      assert s + t == t;
    } else {
      assert (s + t)[1..] == s[1..] + t;
      FilterConcat(s[1..], t, p);
    }
  }

  /** Filtering a list extended by one element. */
  lemma FilterSnoc<T>(s: seq<T>, x: T, p: T -> bool)
    ensures Filter(s + [x], p) == Filter(s, p) + (if p(x) then [x] else [])
  {
    FilterConcat(s, [x], p);
  }

  /** A filter whose condition holds everywhere is the identity. */
  lemma {:induction false} FilterAll<T>(s: seq<T>, p: T -> bool)
    requires forall i :: 0 <= i < |s| ==> p(s[i])
    ensures Filter(s, p) == s
  {
    if s != [] {
      FilterAll(s[1..], p);
    }
  }

  /** A filter is empty exactly when no element satisfies its condition. */
  lemma {:induction false} FilterEmpty<T>(s: seq<T>, p: T -> bool)
    ensures Filter(s, p) == [] <==> forall i :: 0 <= i < |s| ==> !p(s[i])
  {
    if s != [] {
      FilterEmpty(s[1..], p);
      assert forall i :: 1 <= i < |s| ==> s[i] == s[1..][i - 1];
    }
  }

  /** `s` is obtained from `t` by deleting elements, keeping the order of the rest. */
  predicate IsSubseq<T(==)>(s: seq<T>, t: seq<T>)
    decreases |t|
  {
    s == [] || (t != [] && ((s[0] == t[0] && IsSubseq(s[1..], t[1..])) || IsSubseq(s, t[1..])))
  }

  lemma {:induction false} SubseqRefl<T>(s: seq<T>)
    ensures IsSubseq(s, s)
  {
    if s != [] {
      SubseqRefl(s[1..]);
    }
  }

  lemma {:induction false} SubseqLength<T>(s: seq<T>, t: seq<T>)
    requires IsSubseq(s, t)
    ensures |s| <= |t|
    decreases |t|
  {
    if s != [] {
      if s[0] == t[0] && IsSubseq(s[1..], t[1..]) {
        SubseqLength(s[1..], t[1..]);
      } else {
        SubseqLength(s, t[1..]);
      }
    }
  }

  lemma {:induction false} SubseqMembers<T>(s: seq<T>, t: seq<T>, x: T)
    requires IsSubseq(s, t) && x in s
    ensures x in t
    decreases |t|
  {
    if s[0] == t[0] && IsSubseq(s[1..], t[1..]) {
      if x != s[0] {
        SubseqMembers(s[1..], t[1..], x);
      }
    } else {
      SubseqMembers(s, t[1..], x);
    }
  }

  /** Deleting elements twice is deleting elements once. */
  lemma {:induction false} SubseqTrans<T>(a: seq<T>, b: seq<T>, c: seq<T>)
    requires IsSubseq(a, b) && IsSubseq(b, c)
    ensures IsSubseq(a, c)
    decreases |c|
  {
    if a != [] {
      assert b != [] && c != [];
      if IsSubseq(b, c[1..]) {
        SubseqTrans(a, b, c[1..]);
      } else {
        assert b[0] == c[0] && IsSubseq(b[1..], c[1..]);
        if a[0] == b[0] && IsSubseq(a[1..], b[1..]) {
          SubseqTrans(a[1..], b[1..], c[1..]);
        } else {
          SubseqTrans(a, b[1..], c[1..]);
        }
      }
    }
  }

  /** A filter deletes elements and never reorders the rest. */
  lemma {:induction false} FilterIsSubseq<T>(s: seq<T>, p: T -> bool)
    ensures IsSubseq(Filter(s, p), s)
  {
    if s != [] {
      FilterIsSubseq(s[1..], p);
      if !p(s[0]) {
        var r := Filter(s[1..], p);
        assert Filter(s, p) == r;
      } else {
        assert Filter(s, p)[1..] == Filter(s[1..], p);
      }
    }
  }

  /** `Map(f, s)`: `[f(x) for x in s]`. */
  function Map<A, B>(f: A -> B, s: seq<A>): (r: seq<B>)
    ensures |r| == |s|
    ensures forall i :: 0 <= i < |s| ==> r[i] == f(s[i])
  {
    if s == [] then [] else [f(s[0])] + Map(f, s[1..])
  }

  /** Mapping keeps a subsequence a subsequence. */
  lemma {:induction false} SubseqMap<A, B>(f: A -> B, s: seq<A>, t: seq<A>)
    requires IsSubseq(s, t)
    ensures IsSubseq(Map(f, s), Map(f, t))
    decreases |t|
  {
    if s != [] {
      assert Map(f, s)[1..] == Map(f, s[1..]);
      assert Map(f, t)[1..] == Map(f, t[1..]);
      if s[0] == t[0] && IsSubseq(s[1..], t[1..]) {
        SubseqMap(f, s[1..], t[1..]);
      } else {
        SubseqMap(f, s, t[1..]);
      }
    }
  }

  /** No value occurs twice. */
  predicate Distinct<T(==)>(s: seq<T>) {
    forall i, j :: 0 <= i < j < |s| ==> s[i] != s[j]
  }

  /** Deleting elements cannot create a repetition. */
  lemma {:induction false} SubseqDistinct<T>(s: seq<T>, t: seq<T>)
    requires IsSubseq(s, t) && Distinct(t)
    ensures Distinct(s)
    decreases |t|
  {
    if s != [] {
      if s[0] == t[0] && IsSubseq(s[1..], t[1..]) {
        SubseqDistinct(s[1..], t[1..]);
        forall j | 0 < j < |s| ensures s[j] != s[0] {
          SubseqMembers(s[1..], t[1..], s[j]);
        }
      } else {
        SubseqDistinct(s, t[1..]);
      }
    }
  }

  /** Two repetition-free lists with no common value concatenate to a repetition-free list. */
  lemma DistinctConcat<T>(s: seq<T>, t: seq<T>)
    requires Distinct(s) && Distinct(t)
    requires forall i, j :: 0 <= i < |s| && 0 <= j < |t| ==> s[i] != t[j]
    ensures Distinct(s + t)
  {
    forall i, j | 0 <= i < j < |s + t| ensures (s + t)[i] != (s + t)[j] {
      if j < |s| {
      } else if i >= |s| {
        assert (s + t)[i] == t[i - |s|] && (s + t)[j] == t[j - |s|];
      } else {
        assert (s + t)[j] == t[j - |s|];
      }
    }
  }
}
