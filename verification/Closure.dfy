/** The equivalence closure of a set of pairs: which ids a chain of pairs relates. */
module Closure {

  type Pair = (string, string)

  predicate Linked(pairs: set<Pair>, x: string, y: string) {
    (x, y) in pairs || (y, x) in pairs
  }

  /** `path` leads from `x` to `y`, each step along some pair, in either direction. */
  predicate IsPath(pairs: set<Pair>, path: seq<string>, x: string, y: string) {
    && path != [] && path[0] == x
    && if |path| == 1 then x == y
       else Linked(pairs, x, path[1]) && IsPath(pairs, path[1..], path[1], y)
  }

  ghost predicate Connected(pairs: set<Pair>, x: string, y: string) {
    exists path :: IsPath(pairs, path, x, y)
  }

  lemma Reflexive(pairs: set<Pair>, x: string)
    ensures Connected(pairs, x, x)
  {
    assert IsPath(pairs, [x], x, x);
  }

  lemma Step(pairs: set<Pair>, x: string, y: string, z: string)
    requires Linked(pairs, x, y) && Connected(pairs, y, z)
    ensures Connected(pairs, x, z)
  {
    var path :| IsPath(pairs, path, y, z);
    assert ([x] + path)[1..] == path;
    assert IsPath(pairs, [x] + path, x, z);
  }

  lemma {:induction false} PathTransitive(pairs: set<Pair>, path: seq<string>, x: string, y: string, z: string)
    requires IsPath(pairs, path, x, y) && Connected(pairs, y, z)
    ensures Connected(pairs, x, z)
    decreases |path|
  {
    if |path| > 1 {
      PathTransitive(pairs, path[1..], path[1], y, z);
      Step(pairs, x, path[1], z);
    }
  }

  lemma Transitive(pairs: set<Pair>, x: string, y: string, z: string)
    requires Connected(pairs, x, y) && Connected(pairs, y, z)
    ensures Connected(pairs, x, z)
  {
    var path :| IsPath(pairs, path, x, y);
    PathTransitive(pairs, path, x, y, z);
  }

  lemma {:induction false} PathSymmetric(pairs: set<Pair>, path: seq<string>, x: string, y: string)
    requires IsPath(pairs, path, x, y)
    ensures Connected(pairs, y, x)
    decreases |path|
  {
    Reflexive(pairs, x);
    if |path| > 1 {
      PathSymmetric(pairs, path[1..], path[1], y);
      Step(pairs, path[1], x, x);
      Transitive(pairs, y, path[1], x);
    }
  }

  lemma Symmetric(pairs: set<Pair>, x: string, y: string)
    ensures Connected(pairs, x, y) <==> Connected(pairs, y, x)
  {
    if Connected(pairs, x, y) { var path :| IsPath(pairs, path, x, y); PathSymmetric(pairs, path, x, y); }
    if Connected(pairs, y, x) { var path :| IsPath(pairs, path, y, x); PathSymmetric(pairs, path, y, x); }
  }

  lemma {:induction false} PathMonotone(pairs: set<Pair>, more: set<Pair>, path: seq<string>, x: string, y: string)
    requires IsPath(pairs, path, x, y) && pairs <= more
    ensures Connected(more, x, y)
    decreases |path|
  {
    if |path| == 1 {
      Reflexive(more, x);
    } else {
      PathMonotone(pairs, more, path[1..], path[1], y);
      Step(more, x, path[1], y);
    }
  }

  lemma Monotone(pairs: set<Pair>, more: set<Pair>, x: string, y: string)
    requires Connected(pairs, x, y) && pairs <= more
    ensures Connected(more, x, y)
  {
    var path :| IsPath(pairs, path, x, y);
    PathMonotone(pairs, more, path, x, y);
  }

  /** Related before, or through the new pair, one way round or the other. */
  ghost predicate RelatedVia(pairs: set<Pair>, left: string, right: string, x: string, y: string) {
    || Connected(pairs, x, y)
    || (Connected(pairs, x, left) && Connected(pairs, right, y))
    || (Connected(pairs, x, right) && Connected(pairs, left, y))
  }

  lemma {:induction false} PathViaPair(pairs: set<Pair>, left: string, right: string, path: seq<string>,
      x: string, y: string)
    requires IsPath(pairs + {(left, right)}, path, x, y)
    ensures RelatedVia(pairs, left, right, x, y)
    decreases |path|
  {
    Reflexive(pairs, x);
    if |path| > 1 {
      var z := path[1];
      PathViaPair(pairs, left, right, path[1..], z, y);
      if Linked(pairs, x, z) {
        Extend(pairs, left, right, x, z, y);
      } else {
        ViaNewPair(pairs, left, right, x, z, y);
      }
    }
  }

  lemma Extend(pairs: set<Pair>, left: string, right: string, x: string, z: string, y: string)
    requires Linked(pairs, x, z) && RelatedVia(pairs, left, right, z, y)
    ensures RelatedVia(pairs, left, right, x, y)
  {
    if Connected(pairs, z, y) { Step(pairs, x, z, y); }
    if Connected(pairs, z, left) { Step(pairs, x, z, left); }
    if Connected(pairs, z, right) { Step(pairs, x, z, right); }
  }

  lemma ViaNewPair(pairs: set<Pair>, left: string, right: string, x: string, z: string, y: string)
    requires (x == left && z == right) || (x == right && z == left)
    requires RelatedVia(pairs, left, right, z, y)
    ensures RelatedVia(pairs, left, right, x, y)
  {
    Reflexive(pairs, x);
    Reflexive(pairs, z);
  }

  /** Adding one pair to the closure joins exactly the two classes it names. */
  lemma PairJoinsClasses(pairs: set<Pair>, left: string, right: string, x: string, y: string)
    ensures Connected(pairs + {(left, right)}, x, y) <==> RelatedVia(pairs, left, right, x, y)
  {
    var more := pairs + {(left, right)};
    if Connected(more, x, y) {
      var path :| IsPath(more, path, x, y);
      PathViaPair(pairs, left, right, path, x, y);
    }
    Reflexive(more, left);
    Reflexive(more, right);
    Step(more, left, right, right);
    Step(more, right, left, left);
    if Connected(pairs, x, y) { Monotone(pairs, more, x, y); }
    if Connected(pairs, x, left) && Connected(pairs, right, y) { JoinThrough(pairs, more, x, left, right, y); }
    if Connected(pairs, x, right) && Connected(pairs, left, y) { JoinThrough(pairs, more, x, right, left, y); }
  }

  lemma JoinThrough(pairs: set<Pair>, more: set<Pair>, x: string, u: string, v: string, y: string)
    requires pairs <= more && Connected(pairs, x, u) && Connected(more, u, v) && Connected(pairs, v, y)
    ensures Connected(more, x, y)
  {
    Monotone(pairs, more, x, u);
    Monotone(pairs, more, v, y);
    Transitive(more, x, u, v);
    Transitive(more, x, v, y);
  }

  /** An id no pair names is related to itself only. */
  lemma Isolated(pairs: set<Pair>, x: string, y: string)
    requires forall p :: p in pairs ==> p.0 != x && p.1 != x
    ensures Connected(pairs, x, y) <==> x == y
  {
    Reflexive(pairs, x);
    if Connected(pairs, x, y) {
      var path :| IsPath(pairs, path, x, y);
    }
  }
}
