/** Facts about the size of finite sets, used to count codes, comparisons, tokens and admissions. */
module Counting {
  lemma Element<T>(s: set<T>) returns (x: T)
    requires s != {}
    ensures x in s
  {
    x :| x in s;
  }

  lemma SubsetIsSmaller<T>(s: set<T>, t: set<T>)
    requires s <= t
    ensures |s| <= |t|
  {
    assert t == s + (t - s);
  }

  /** A set with an injection into another is no larger. */
  lemma {:induction false} InjectionBound<A, B>(s: set<A>, t: set<B>, image: map<A, B>)
    requires s <= image.Keys
    requires forall x :: x in s ==> image[x] in t
    requires forall x, y :: x in s && y in s && image[x] == image[y] ==> x == y
    ensures |s| <= |t|
    decreases s
  {
    if s != {} {
      var x := Element(s);
      InjectionBound(s - {x}, t - {image[x]}, image);
    }
  }

  ghost function Members<A, B>(s: set<A>, classOf: map<A, B>, c: B): set<A> {
    set x | x in s && x in classOf && classOf[x] == c
  }

  /** If every class of a classification has at most `bound` members, `n` classes have at most `bound * n`. */
  lemma {:induction false} ClassesBound<A, B>(s: set<A>, classes: set<B>, classOf: map<A, B>, bound: nat)
    requires s <= classOf.Keys
    requires forall x :: x in s ==> classOf[x] in classes
    requires forall c :: c in classes ==> |Members(s, classOf, c)| <= bound
    ensures |s| <= bound * |classes|
    decreases classes
  {
    if classes == {} {
      if s != {} {
        var x := Element(s);
        assert false;
      }
    } else {
      var c := Element(classes);
      var here := Members(s, classOf, c);
      var rest := s - here;
      var others := classes - {c};
      forall d | d in others ensures |Members(rest, classOf, d)| <= bound {
        assert Members(rest, classOf, d) == Members(s, classOf, d);
      }
      ClassesBound(rest, others, classOf, bound);
      assert s == rest + here;
      assert |classes| == |others| + 1;
      Distribute(bound, |others|);
    }
  }

  lemma Distribute(bound: nat, n: nat)
    ensures bound * (n + 1) == bound * n + bound
  {
  }

  /** `n` points at least `gap` apart inside an interval of length `width`: (n - 1) * gap <= width. */
  lemma {:induction false} SpacedPoints<A>(s: set<A>, at: map<A, int>, low: int, width: int, gap: int)
    requires s != {} && s <= at.Keys
    requires forall x :: x in s ==> low <= at[x] <= low + width
    requires forall x, y :: x in s && y in s && x != y ==> at[x] - at[y] >= gap || at[y] - at[x] >= gap
    ensures (|s| - 1) * gap <= width
    decreases s
  {
    var first := Earliest(s, at);
    var rest := s - {first};
    assert |s| == |rest| + 1;
    if rest != {} {
      forall x | x in rest ensures low + gap <= at[x] {
        assert at[x] >= at[first] >= low;
      }
      SpacedPoints(rest, at, low + gap, width - gap, gap);
      OneMoreGap(|rest|, gap, width);
    }
  }

  lemma OneMoreGap(n: nat, gap: int, width: int)
    requires (n - 1) * gap <= width - gap
    ensures n * gap <= width
  {
    assert n * gap == (n - 1) * gap + gap;
  }

  lemma {:induction false} Earliest<A>(s: set<A>, at: map<A, int>) returns (first: A)
    requires s != {} && s <= at.Keys
    ensures first in s && forall x :: x in s ==> at[first] <= at[x]
    decreases s
  {
    var x := Element(s);
    var rest := s - {x};
    first := x;
    if rest == {} {
      assert s == {x};
    } else {
      var other := Earliest(rest, at);
      first := if at[other] < at[x] then other else x;
      assert forall y :: y in s ==> y == x || y in rest;
    }
  }
}
