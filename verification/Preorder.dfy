/** Trees given by the place of each node's parent, and the order in which a walk shows them. */
module Preorder {
  // up[j] is the place of the parent of node j, or -1 for the root, which has no place itself.
  predicate Forest(up: seq<int>) {
    forall j {:trigger up[j]} :: 0 <= j < |up| ==> -1 <= up[j] < j
  }

  // The children of p from place q on, each followed by all behind it.
  function Kids(up: seq<int>, p: int, q: nat): seq<nat>
    requires Forest(up) && q <= |up|
    decreases |up| - q, 1
  {
    if q == |up| then []
    else if up[q] == p then Sub(up, q) + Kids(up, p, q + 1)
    else Kids(up, p, q + 1)
  }

  function Sub(up: seq<int>, k: nat): seq<nat>
    requires Forest(up) && k < |up|
    decreases |up| - k, 0
  {
    [k] + Kids(up, k, k + 1)
  }

  // All nodes, parents first, children in the order of their places.
  function Order(up: seq<int>): seq<nat>
    requires Forest(up)
  {
    Kids(up, -1, 0)
  }

  // The root has depth 0.
  function Depth(up: seq<int>, k: int): nat
    requires Forest(up) && -1 <= k < |up|
  {
    if k == -1 then 0 else 1 + Depth(up, up[k])
  }

  // The node that x is, or is behind, among the children of p.
  function Top(up: seq<int>, p: int, x: nat): (t: int)
    requires Forest(up) && x < |up|
    ensures -1 <= t <= x && (t >= 0 ==> up[t] == p)
  {
    if up[x] == p then x else if up[x] == -1 then -1 else Top(up, p, up[x])
  }

  lemma {:induction false} TopBelow(up: seq<int>, p: int, c: nat, x: nat)
    requires Forest(up) && c < |up| && x < |up| && up[c] == p
    ensures Top(up, p, x) == c <==> x == c || Top(up, c, x) >= 0
    decreases x
  {
    if up[x] != p && up[x] != -1 && x != c {
      TopBelow(up, p, c, up[x]);
    } else if up[x] == p && x != c {
      NotBehind(up, p, c, x);
    }
  }

  // A child of p is not behind another child of p.
  lemma NotBehind(up: seq<int>, p: int, c: nat, x: nat)
    requires Forest(up) && c < |up| && x < |up| && up[c] == p && p < x
    requires x != c && (up[x] == p || up[x] < p)
    ensures Top(up, c, x) == -1
  {
    OnlyAbove(up, c, x);
  }

  lemma {:induction false} OnlyAbove(up: seq<int>, c: nat, x: nat)
    requires Forest(up) && c < |up| && x < |up| && up[x] <= up[c]
    ensures Top(up, c, x) == -1
    decreases x
  {
    if up[x] != -1 {
      OnlyAbove(up, c, up[x]);
    }
  }

  lemma {:induction false} InKids(up: seq<int>, p: int, q: nat, x: nat)
    requires Forest(up) && q <= |up| && x < |up|
    ensures x in Kids(up, p, q) <==> Top(up, p, x) >= q
    ensures forall y :: y in Kids(up, p, q) ==> q <= y < |up|
    decreases |up| - q, 1
  {
    if q < |up| {
      InKids(up, p, q + 1, x);
      if up[q] == p {
        InSub(up, q, x);
        TopBelow(up, p, q, x);
      }
    }
  }

  lemma {:induction false} InSub(up: seq<int>, k: nat, x: nat)
    requires Forest(up) && k < |up| && x < |up|
    ensures x in Sub(up, k) <==> x == k || Top(up, k, x) >= 0
    ensures forall y :: y in Sub(up, k) ==> k <= y < |up|
    decreases |up| - k, 0
  {
    InKids(up, k, k + 1, x);
  }

  predicate Once(s: seq<nat>) {
    forall i, j :: 0 <= i < j < |s| ==> s[i] != s[j]
  }

  lemma OnceJoin(a: seq<nat>, b: seq<nat>)
    requires Once(a) && Once(b) && forall x :: x in a ==> x !in b
    ensures Once(a + b)
  {
    var s := a + b;
    forall i, j | 0 <= i < j < |s| ensures s[i] != s[j] {
      if i < |a| <= j {
        assert a[i] in a && b[j - |a|] in b;
      }
    }
  }

  lemma {:induction false} KidsOnce(up: seq<int>, p: int, q: nat)
    requires Forest(up) && q <= |up|
    ensures Once(Kids(up, p, q))
    decreases |up| - q, 1
  {
    if q < |up| {
      KidsOnce(up, p, q + 1);
      if up[q] == p {
        SubOnce(up, q);
        InSub(up, q, q);
        InKids(up, p, q + 1, q);
        forall x | x in Sub(up, q) ensures x !in Kids(up, p, q + 1) {
          InSub(up, q, x);
          InKids(up, p, q + 1, x);
          TopBelow(up, p, q, x);
        }
        OnceJoin(Sub(up, q), Kids(up, p, q + 1));
      }
    }
  }

  lemma {:induction false} SubOnce(up: seq<int>, k: nat)
    requires Forest(up) && k < |up|
    ensures Once(Sub(up, k))
    decreases |up| - k, 0
  {
    KidsOnce(up, k, k + 1);
    InKids(up, k, k + 1, k);
    OnceJoin([k], Kids(up, k, k + 1));
  }

  lemma {:induction false} TopOfAll(up: seq<int>, x: nat)
    requires Forest(up) && x < |up|
    ensures Top(up, -1, x) >= 0
    decreases x
  {
    if up[x] != -1 {
      TopOfAll(up, up[x]);
    }
  }

  /** The order holds every node exactly once. */
  lemma OrderIsAll(up: seq<int>)
    requires Forest(up)
    ensures Once(Order(up)) && forall x :: 0 <= x < |up| <==> x in Order(up)
  {
    KidsOnce(up, -1, 0);
    forall x: int ensures 0 <= x < |up| <==> x in Order(up) {
      if 0 <= x < |up| {
        InKids(up, -1, 0, x);
        TopOfAll(up, x);
      } else if |up| > 0 {
        InKids(up, -1, 0, 0);
      }
    }
  }

  // ---- Sums

  function DepthSum(up: seq<int>, s: seq<nat>): nat
    requires Forest(up) && forall i :: 0 <= i < |s| ==> s[i] < |up|
  {
    if s == [] then 0 else Depth(up, s[0]) + DepthSum(up, s[1..])
  }

  function AllDepths(up: seq<int>, n: nat): nat
    requires Forest(up) && n <= |up|
  {
    if n == 0 then 0 else AllDepths(up, n - 1) + Depth(up, n - 1)
  }

  function Without(s: seq<nat>, i: nat): (t: seq<nat>)
    requires i < |s|
    ensures |t| == |s| - 1 && forall j :: 0 <= j < |t| ==> t[j] == s[if j < i then j else j + 1]
  {
    s[..i] + s[i + 1..]
  }

  lemma {:induction false} DepthSumDrop(up: seq<int>, s: seq<nat>, i: nat)
    requires Forest(up) && (forall j :: 0 <= j < |s| ==> s[j] < |up|) && i < |s|
    ensures DepthSum(up, s) == DepthSum(up, Without(s, i)) + Depth(up, s[i])
    decreases |s|
  {
    if i == 0 {
      assert Without(s, i) == s[1..];
    } else {
      DepthSumDrop(up, s[1..], i - 1);
      assert Without(s, i)[1..] == Without(s[1..], i - 1);
    }
  }

  // s holds the places below n, each once.
  ghost predicate Places(s: seq<nat>, n: nat) {
    && Once(s)
    && (forall i :: 0 <= i < |s| ==> s[i] < n)
    && (forall x :: 0 <= x < n ==> x in s)
  }

  lemma PlacesDrop(s: seq<nat>, n: nat, i: nat)
    requires n > 0 && Places(s, n) && i < |s| && s[i] == n - 1
    ensures Places(Without(s, i), n - 1)
  {
    var t := Without(s, i);
    forall x | 0 <= x < n - 1 ensures x in t {
      assert x in s;
      var j :| 0 <= j < |s| && s[j] == x;
      assert t[if j < i then j else j - 1] == x;
    }
  }

  lemma HasFirst(s: seq<nat>)
    requires s != []
    ensures s[0] in s
  {
  }

  lemma {:induction false} SumOfOnce(up: seq<int>, s: seq<nat>, n: nat)
    requires Forest(up) && n <= |up| && Places(s, n)
    ensures DepthSum(up, s) == AllDepths(up, n) && |s| == n
    decreases n
  {
    if n == 0 {
      if s != [] {
        HasFirst(s);
        assert false;
      }
    } else {
      assert n - 1 in s;
      var i :| 0 <= i < |s| && s[i] == n - 1;
      PlacesDrop(s, n, i);
      SumOfOnce(up, Without(s, i), n - 1);
      DepthSumDrop(up, s, i);
    }
  }

  /** Added up along the order, the depths make the sum of all depths. */
  lemma OrderSum(up: seq<int>)
    requires Forest(up)
    ensures Places(Order(up), |up|) && |Order(up)| == |up|
    ensures DepthSum(up, Order(up)) == AllDepths(up, |up|)
  {
    OrderIsAll(up);
    forall i | 0 <= i < |Order(up)| ensures Order(up)[i] < |up| {
      assert Order(up)[i] in Order(up);
    }
    SumOfOnce(up, Order(up), |up|);
  }

  // ---- What is left to be shown

  lemma {:induction false} KidsFrom(up: seq<int>, p: int, q: nat, c: nat)
    requires Forest(up) && q <= c <= |up| && forall j :: q <= j < c ==> up[j] != p
    ensures Kids(up, p, q) == Kids(up, p, c)
    ensures c < |up| && up[c] == p ==> Kids(up, p, q) == Sub(up, c) + Kids(up, p, c + 1)
    decreases c - q
  {
    if q < c {
      KidsFrom(up, p, q + 1, c);
    }
  }

  // What comes after k and all behind it: its later siblings, then what comes after its parent.
  function After(up: seq<int>, k: int): seq<nat>
    requires Forest(up) && -1 <= k < |up|
  {
    if k == -1 then [] else Kids(up, up[k], k + 1) + After(up, up[k])
  }

  // What comes after k itself.
  function Rest(up: seq<int>, k: int): seq<nat>
    requires Forest(up) && -1 <= k < |up|
  {
    Kids(up, k, k + 1) + After(up, k)
  }

  lemma {:induction false} RestIsPlaces(up: seq<int>, k: int)
    requires Forest(up) && -1 <= k < |up|
    ensures forall i :: 0 <= i < |After(up, k)| ==> After(up, k)[i] < |up|
    ensures forall i :: 0 <= i < |Rest(up, k)| ==> Rest(up, k)[i] < |up|
  {
    if k >= 0 {
      RestIsPlaces(up, up[k]);
      KidsArePlaces(up, up[k], k + 1);
    }
    KidsArePlaces(up, k, k + 1);
  }

  lemma KidsArePlaces(up: seq<int>, p: int, q: nat)
    requires Forest(up) && q <= |up|
    ensures forall i :: 0 <= i < |Kids(up, p, q)| ==> Kids(up, p, q)[i] < |up|
  {
    if |up| > 0 {
      InKids(up, p, q, 0);
      forall i | 0 <= i < |Kids(up, p, q)| ensures Kids(up, p, q)[i] < |up| {
        assert Kids(up, p, q)[i] in Kids(up, p, q);
      }
    }
  }

  // One step down: c is the first child of k.
  lemma RestDown(up: seq<int>, k: int, c: nat)
    requires Forest(up) && -1 <= k < c < |up| && up[c] == k && forall j :: 0 <= j < c ==> up[j] != k
    ensures Rest(up, k) == [c] + Rest(up, c)
  {
    KidsFrom(up, k, k + 1, c);
  }

  // One step on: c is the next sibling of k.
  lemma {:induction false} RestOn(up: seq<int>, k: nat, c: nat)
    requires Forest(up) && k < c < |up| && up[c] == up[k] && forall j :: k < j < c ==> up[j] != up[k]
    ensures After(up, k) == [c] + Rest(up, c)
  {
    KidsFrom(up, up[k], k + 1, c);
  }

  // One step up: k has no later sibling.
  lemma RestUp(up: seq<int>, k: nat)
    requires Forest(up) && k < |up| && forall j :: k < j < |up| ==> up[j] != up[k]
    ensures After(up, k) == After(up, up[k])
  {
    KidsFrom(up, up[k], k + 1, |up|);
  }

  lemma NoKids(up: seq<int>, k: int)
    requires Forest(up) && -1 <= k < |up| && forall j :: 0 <= j < |up| ==> up[j] != k
    ensures Rest(up, k) == After(up, k)
  {
    KidsFrom(up, k, k + 1, |up|);
  }

  // The places on the way from the root to k, without k.
  ghost predicate WayTo(up: seq<int>, k: int, path: seq<int>)
    requires Forest(up) && -1 <= k < |up|
    decreases |path|
  {
    if k == -1 then path == []
    else path != [] && path[|path| - 1] == up[k] && WayTo(up, up[k], path[..|path| - 1])
  }

  lemma {:induction false} WayDepth(up: seq<int>, k: int, path: seq<int>)
    requires Forest(up) && -1 <= k < |up| && WayTo(up, k, path)
    ensures |path| == Depth(up, k)
    decreases |path|
  {
    if k >= 0 {
      WayDepth(up, up[k], path[..|path| - 1]);
    }
  }
}
