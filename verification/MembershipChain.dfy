/**
 Evaluation of the recursive group queries.

 ActorChain and TargetChain are `WITH RECURSIVE ... UNION` queries over a membership
 table.  PostgreSQL evaluates such a query with a working table that only receives rows
 not seen before (section 7.8.2 of the PostgreSQL manual).  `Evaluate` is that loop;
 `Reachable` is what the query is meant to compute.
 */
module MembershipChain {
  type Id = int

  datatype Membership = Membership(member: Id, group: Id)

  /** A walk up the membership table: every element is a member of the next one. */
  ghost predicate IsWalk(path: seq<Id>, edges: set<Membership>) {
    && path != []
    && forall i :: 0 <= i < |path| - 1 ==> Membership(path[i], path[i + 1]) in edges
  }

  ghost predicate WalkTo(path: seq<Id>, seed: set<Id>, edges: set<Membership>, x: Id) {
    IsWalk(path, edges) && path[0] in seed && path[|path| - 1] == x
  }

  /** `x` is in `seed` or above it through any number of memberships. */
  ghost predicate Reachable(seed: set<Id>, edges: set<Membership>, x: Id) {
    exists path: seq<Id> :: WalkTo(path, seed, edges, x)
  }

  ghost predicate ClosedUnder(s: set<Id>, edges: set<Membership>) {
    forall m :: m in edges && m.member in s ==> m.group in s
  }

  lemma SeedIsReachable(seed: set<Id>, edges: set<Membership>, x: Id)
    requires x in seed
    ensures Reachable(seed, edges, x)
  {
    assert WalkTo([x], seed, edges, x);
  }

  lemma GroupIsReachable(seed: set<Id>, edges: set<Membership>, m: Membership)
    requires m in edges && Reachable(seed, edges, m.member)
    ensures Reachable(seed, edges, m.group)
  {
    var path: seq<Id> :| WalkTo(path, seed, edges, m.member);
    assert WalkTo(path + [m.group], seed, edges, m.group);
  }

  /** A closed set that holds the seed holds everything reachable. */
  lemma {:induction false} WalkStaysInside(path: seq<Id>, s: set<Id>, edges: set<Membership>)
    requires IsWalk(path, edges) && path[0] in s && ClosedUnder(s, edges)
    ensures path[|path| - 1] in s
  {
    if |path| > 1 {
      assert Membership(path[0], path[1]) in edges;
      WalkStaysInside(path[1..], s, edges);
    }
  }

  /** Growing the seed or the membership table never loses a reachable element. */
  lemma ReachableMonotone(seed: set<Id>, edges: set<Membership>,
                          seed': set<Id>, edges': set<Membership>, x: Id)
    requires seed <= seed' && edges <= edges'
    requires Reachable(seed, edges, x)
    ensures Reachable(seed', edges', x)
  {
    var path: seq<Id> :| WalkTo(path, seed, edges, x);
    assert WalkTo(path, seed', edges', x);
  }

  /** The working-table loop; it ends on every membership table, cyclic ones included. */
  method Evaluate(seed: set<Id>, edges: set<Membership>) returns (result: set<Id>)
    ensures forall x :: x in result <==> Reachable(seed, edges, x)
  {
    result := seed;
    var working := seed;
    ghost var universe := seed + set m | m in edges :: m.group;
    forall x | x in seed ensures Reachable(seed, edges, x) {
      SeedIsReachable(seed, edges, x);
    }
    while working != {}
      invariant seed <= result <= universe
      invariant working <= result
      invariant forall x :: x in result ==> Reachable(seed, edges, x)
      invariant forall m :: m in edges && m.member in result && m.member !in working ==> m.group in result
      decreases |universe - result|, |working|
    {
      var produced := set m | m in edges && m.member in working :: m.group;
      var intermediate := produced - result;
      forall x | x in intermediate ensures Reachable(seed, edges, x) {
        var m :| m in edges && m.member in working && m.group == x;
        GroupIsReachable(seed, edges, m);
      }
      Shrinks(universe, result, intermediate);
      result := result + intermediate;
      working := intermediate;
    }
    forall x | Reachable(seed, edges, x) ensures x in result {
      var path: seq<Id> :| WalkTo(path, seed, edges, x);
      WalkStaysInside(path, result, edges);
    }
  }

  lemma Shrinks(universe: set<Id>, result: set<Id>, added: set<Id>)
    requires added <= universe && added !! result
    ensures |universe - (result + added)| <= |universe - result|
    ensures added != {} ==> |universe - (result + added)| < |universe - result|
  {
    assert universe - result == (universe - (result + added)) + added;
  }
}
