/** Option and Result, and the sequence helpers the other modules share. */
module Common {
  datatype Option<+T> = None | Some(value: T)

  datatype Result<+T, +E> = Ok(value: T) | Err(error: E)

  function Min(a: nat, b: nat): nat { if a < b then a else b }

  /** Any element: how the models stand for hash iteration order. */
  method Pick<T(==)>(s: set<T>) returns (x: T)
    requires s != {}
    ensures x in s
  {
    x :| x in s;
  }

  lemma NonEmptyHasMember<T>(t: seq<T>)
    ensures t != [] ==> exists x :: x in t
  {
    if t != [] {
      assert t[0] in t;
    }
  }

  /** Appending in two goes. */
  lemma AppendTwice<T>(a: seq<T>, b: seq<T>, c: seq<T>, ab: seq<T>, abc: seq<T>)
    requires ab == a + b && abc == ab + c
    ensures abc == a + (b + c)
  {
  }

  /** A prefix of a part, put after what stands before the part. */
  lemma PrefixAfter<T>(a: seq<T>, b: seq<T>, c: seq<T>, all: seq<T>)
    requires b <= c && a + c <= all
    ensures a + b <= all
  {
  }

  lemma TakeSnoc<T>(s: seq<T>, i: nat)
    requires i < |s|
    ensures s[..i + 1] == s[..i] + [s[i]]
  {
  }

  /** The elements of `s` that satisfy `p`, in order. */
  function Filter<T>(s: seq<T>, p: T -> bool): (r: seq<T>)
    ensures |r| <= |s|
  {
    if s == [] then []
    else Filter(s[..|s| - 1], p) + (if p(s[|s| - 1]) then [s[|s| - 1]] else [])
  }

  lemma {:induction false} FilterAppend<T>(a: seq<T>, b: seq<T>, p: T -> bool)
    ensures Filter(a + b, p) == Filter(a, p) + Filter(b, p)
  {
    if b == [] {
      assert a + b == a;
    } else {
      var n := |b| - 1;
      FilterAppend(a, b[..n], p);
      assert (a + b)[..|a + b| - 1] == a + b[..n];
      assert (a + b)[|a + b| - 1] == b[n];
    }
  }

  lemma {:induction false} FilterAll<T>(s: seq<T>, p: T -> bool)
    requires forall x :: x in s ==> p(x)
    ensures Filter(s, p) == s
  {
    if s != [] {
      FilterAll(s[..|s| - 1], p);
      assert s == s[..|s| - 1] + [s[|s| - 1]];
    }
  }

  lemma {:induction false} FilterNone<T>(s: seq<T>, p: T -> bool)
    requires forall x :: x in s ==> !p(x)
    ensures Filter(s, p) == []
  {
    if s != [] {
      FilterNone(s[..|s| - 1], p);
    }
  }

  lemma {:induction false} FilterMember<T>(s: seq<T>, p: T -> bool, x: T)
    ensures x in Filter(s, p) <==> x in s && p(x)
  {
    if s != [] {
      FilterMember(s[..|s| - 1], p, x);
      assert s == s[..|s| - 1] + [s[|s| - 1]];
    }
  }

  /** A filter keeps the multiplicity of everything it keeps. */
  lemma {:induction false} FilterCount<T>(s: seq<T>, p: T -> bool, x: T)
    requires p(x)
    ensures multiset(Filter(s, p))[x] == multiset(s)[x]
  {
    if s != [] {
      FilterCount(s[..|s| - 1], p, x);
      assert s == s[..|s| - 1] + [s[|s| - 1]];
    }
  }

  /** Two kept positions of `s` stay in the same order in the filtered sequence. */
  lemma {:induction false} FilterPositions<T>(s: seq<T>, p: T -> bool, i: nat, j: nat) returns (i': nat, j': nat)
    requires i < j < |s| && p(s[i]) && p(s[j])
    ensures i' < j' < |Filter(s, p)|
    ensures Filter(s, p)[i'] == s[i] && Filter(s, p)[j'] == s[j]
  {
    var n := |s| - 1;
    var front := s[..n];
    if j == n {
      i' := FilterPosition(front, p, i);
      j' := |Filter(front, p)|;
    } else {
      i', j' := FilterPositions(front, p, i, j);
    }
  }

  lemma {:induction false} FilterPosition<T>(s: seq<T>, p: T -> bool, i: nat) returns (i': nat)
    requires i < |s| && p(s[i])
    ensures i' < |Filter(s, p)| && Filter(s, p)[i'] == s[i]
  {
    var n := |s| - 1;
    if i == n {
      i' := |Filter(s[..n], p)|;
    } else {
      i' := FilterPosition(s[..n], p, i);
    }
  }
}
