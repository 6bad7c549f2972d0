/** Vocabulary shared by the components. */
module Prelude {

  datatype Option<+T> = None | Some(value: T)

  ghost predicate NoDup<T>(s: seq<T>) {
    forall i, j :: 0 <= i < j < |s| ==> s[i] != s[j]
  }

  /** `a` is a (not necessarily contiguous) subsequence of `b`. */
  ghost predicate Subseq<T>(a: seq<T>, b: seq<T>)
    decreases |b|
  {
    if a == [] then true
    else if b == [] then false
    else if a[0] == b[0] then Subseq(a[1..], b[1..])
    else Subseq(a, b[1..])
  }

  lemma {:induction false} SubseqTail<T>(a: seq<T>, b: seq<T>)
    requires a != [] && Subseq(a, b)
    ensures Subseq(a[1..], b)
    decreases |b|
  {
    if a[0] == b[0] {
      if |a| > 1 {
        if a[1] == b[0] {
          SubseqTail(a[1..], b[1..]);
        }
      }
    } else {
      SubseqTail(a, b[1..]);
      if |a| > 1 && a[1] == b[0] {
        SubseqTail(a[1..], b[1..]);
      }
    }
  }

  lemma SubseqCons<T>(a: seq<T>, x: T, b: seq<T>)
    requires Subseq(a, b)
    ensures Subseq(a, [x] + b)
  {
    assert ([x] + b)[1..] == b;
    if a != [] && a[0] == x {
      SubseqTail(a, b);
    }
  }

  lemma {:induction false} SubseqMember<T>(a: seq<T>, b: seq<T>, x: T)
    requires Subseq(a, b) && x in a
    ensures x in b
    decreases |b|
  {
    if a[0] == b[0] {
      if x != a[0] {
        assert x in a[1..];
        SubseqMember(a[1..], b[1..], x);
      }
    } else {
      SubseqMember(a, b[1..], x);
    }
  }

  /** Position of the first occurrence of `x` in `s`. */
  function IndexOf<T(==)>(s: seq<T>, x: T): (k: nat)
    requires x in s
    ensures k < |s| && s[k] == x && x !in s[..k]
  {
    if s[0] == x then 0 else 1 + IndexOf(s[1..], x)
  }

  /** In a duplicate-free sequence, subsequences keep their relative order. */
  lemma {:induction false} SubseqOrders<T>(a: seq<T>, b: seq<T>, y: T)
    requires NoDup(b) && a != [] && Subseq(a, b) && y in a[1..]
    ensures a[0] in b && y in b && IndexOf(b, a[0]) < IndexOf(b, y)
    decreases |b|
  {
    SubseqMember(a, b, a[0]);
    SubseqMember(a, b, y);
    if a[0] == b[0] {
      SubseqMember(a[1..], b[1..], y);
      assert y != b[0];
    } else {
      SubseqOrders(a, b[1..], y);
      SubseqMember(a, b[1..], y);
      SubseqMember(a, b[1..], a[0]);
    }
  }
}
