/**
  Identity classes across import generations: the union-find of
  scripts/remap_vault_reference_ids.py, and the repointing of references built on
  it. The class is proved against the equivalence closure of the unioned pairs.
 */
module Identity {
  import opened Closure

  // ------------------------------------------------------------ the forest

  /** A known id: its pointer leads one step up, to an id with the same root, or it is a root. */
  ghost predicate Node(parent: map<string, string>, root: map<string, string>, rank: map<string, nat>, x: string) {
    && x in parent && x in root && x in rank
    && parent[x] in parent && parent[x] in root && parent[x] in rank
    && root[x] in parent && root[x] in rank && parent[root[x]] == root[x]
    && rank[x] <= rank[root[x]]
    && if parent[x] == x then root[x] == x else root[parent[x]] == root[x] && rank[x] < rank[parent[x]]
  }

  /**
    The parent pointers form a forest: `root` is where each chain ends, and `rank`
    strictly increases along every pointer, so chains are finite.
   */
  ghost predicate Forest(parent: map<string, string>, root: map<string, string>, rank: map<string, nat>) {
    && root.Keys == parent.Keys && rank.Keys == parent.Keys
    && (forall x {:trigger Node(parent, root, rank, x)} :: x in parent ==> Node(parent, root, rank, x))
  }

  /** Two known ids share a root exactly when the closure of the pairs relates them. */
  ghost predicate Represents(root: map<string, string>, pairs: set<Pair>) {
    && (forall p :: p in pairs ==> p.0 in root && p.1 in root)
    && (forall x, y {:trigger Connected(pairs, x, y)} ::
          x in root && y in root ==> (root[x] == root[y] <==> Connected(pairs, x, y)))
  }

  /** A fresh id is its own root. */
  lemma NewIdKeepsForest(parent: map<string, string>, root: map<string, string>, rank: map<string, nat>, item: string)
    requires Forest(parent, root, rank) && item !in parent
    ensures Forest(parent[item := item], root[item := item], rank[item := 0])
  {
    var parent', root', rank' := parent[item := item], root[item := item], rank[item := 0];
    forall x | x in parent' ensures Node(parent', root', rank', x) {
      if x != item { assert Node(parent, root, rank, x); }
    }
  }

  /** Pointing an id straight at its root keeps every root. */
  lemma CompressKeepsForest(
      parent: map<string, string>, root: map<string, string>, rank: map<string, nat>, x: string)
    requires Forest(parent, root, rank) && x in parent && parent[x] != root[x]
    ensures Forest(parent[x := root[x]], root, rank)
    ensures Node(parent, root, rank, x) && Node(parent, root, rank, parent[x]) && rank[x] < rank[parent[x]]
  {
    assert Node(parent, root, rank, x) && Node(parent, root, rank, parent[x]) && Node(parent, root, rank, root[x]);
    var parent' := parent[x := root[x]];
    forall y | y in parent' ensures Node(parent', root, rank, y) {
      assert Node(parent, root, rank, y);
    }
  }

  /** The roots after the root `l` has been pointed at the root `r`. */
  function MergedRoots(root: map<string, string>, l: string, r: string): map<string, string> {
    map x | x in root :: if root[x] == l then r else root[x]
  }

  lemma MergeWithSelf(root: map<string, string>, l: string)
    ensures MergedRoots(root, l, l) == root
  {
  }

  function Raised(rank: map<string, nat>, l: string, r: string): map<string, nat>
    requires l in rank && r in rank
  {
    rank[r := if rank[r] > rank[l] then rank[r] else rank[l] + 1]
  }

  lemma MergeKeepsForest(
      parent: map<string, string>, root: map<string, string>, rank: map<string, nat>, l: string, r: string)
    requires Forest(parent, root, rank) && l in parent && r in parent && l != r
    requires parent[l] == l && parent[r] == r
    ensures Forest(parent[l := r], MergedRoots(root, l, r), Raised(rank, l, r))
  {
    assert Node(parent, root, rank, l) && Node(parent, root, rank, r);
    var parent', root', rank' := parent[l := r], MergedRoots(root, l, r), Raised(rank, l, r);
    forall x | x in parent' ensures Node(parent', root', rank', x) {
      assert Node(parent, root, rank, x) && Node(parent, root, rank, parent[x]) && Node(parent, root, rank, root[x]);
      hide Forest, Node, MergedRoots, Raised;
      MergeKeepsNode(parent, root, rank, l, r, x);
    }
  }

  lemma MergeKeepsNode(
      parent: map<string, string>, root: map<string, string>, rank: map<string, nat>, l: string, r: string, x: string)
    requires Node(parent, root, rank, l) && Node(parent, root, rank, r) && Node(parent, root, rank, x)
    requires Node(parent, root, rank, parent[x]) && Node(parent, root, rank, root[x])
    requires parent[l] == l && parent[r] == r && l != r
    ensures Node(parent[l := r], MergedRoots(root, l, r), Raised(rank, l, r), x)
  {
    var rank' := Raised(rank, l, r);
    assert rank'[l] == rank[l] < rank'[r];
    assert x != r ==> rank'[x] == rank[x];
    assert rank[root[x]] <= rank'[root[x]] && rank[parent[x]] <= rank'[parent[x]];
  }

  lemma MergeRepresents(root: map<string, string>, pairs: set<Pair>, left: string, right: string)
    requires Represents(root, pairs) && left in root && right in root
    ensures Represents(MergedRoots(root, root[left], root[right]), pairs + {(left, right)})
  {
    var root', pairs' := MergedRoots(root, root[left], root[right]), pairs + {(left, right)};
    forall x, y | x in root && y in root
      ensures root'[x] == root'[y] <==> Connected(pairs', x, y)
    {
      PairJoinsClasses(pairs, left, right, x, y);
      Symmetric(pairs, y, left);
      Symmetric(pairs, y, right);
    }
  }

  lemma NewIdRepresents(root: map<string, string>, pairs: set<Pair>, item: string)
    requires Represents(root, pairs) && item !in root && item !in root.Values
    ensures Represents(root[item := item], pairs)
  {
    var root' := root[item := item];
    forall x, y | x in root' && y in root'
      ensures root'[x] == root'[y] <==> Connected(pairs, x, y)
    {
      Isolated(pairs, item, if x == item then y else x);
      Symmetric(pairs, x, item);
    }
  }

  /** Pointing one root at the other, when they differ, merges exactly the two classes. */
  lemma UnionStep(
      parent: map<string, string>, root: map<string, string>, rank: map<string, nat>, pairs: set<Pair>,
      left: string, right: string)
    requires Forest(parent, root, rank) && Represents(root, pairs) && left in root && right in root
    ensures root[left] in parent && root[right] in parent && root[left] in rank && root[right] in rank
    ensures Represents(MergedRoots(root, root[left], root[right]), pairs + {(left, right)})
    ensures root[left] != root[right] ==>
              Forest(parent[root[left] := root[right]], MergedRoots(root, root[left], root[right]),
                     Raised(rank, root[left], root[right]))
    ensures root[left] == root[right] ==> Forest(parent, MergedRoots(root, root[left], root[right]), rank)
  {
    MergeRepresents(root, pairs, left, right);
    assert Node(parent, root, rank, left) && Node(parent, root, rank, right);
    if root[left] == root[right] {
      MergeWithSelf(root, root[left]);
    } else {
      MergeKeepsForest(parent, root, rank, root[left], root[right]);
    }
  }

  lemma RootsKnown(parent: map<string, string>, root: map<string, string>, rank: map<string, nat>)
    requires Forest(parent, root, rank)
    ensures root.Values <= root.Keys
  {
    forall v | v in root.Values ensures v in root.Keys {
      var x :| x in root && root[x] == v;
      assert Node(parent, root, rank, x);
    }
  }

  lemma ForestKnows(parent: map<string, string>, root: map<string, string>, rank: map<string, nat>, x: string)
    requires Forest(parent, root, rank) && x in parent
    ensures x in root && x in rank && root[x] in rank && rank[x] <= rank[root[x]]
  {
    assert Node(parent, root, rank, x);
  }

  /** An id that is no root's pointer leads to one of the same root, nearer to it. */
  lemma StepUp(parent: map<string, string>, root: map<string, string>, rank: map<string, nat>, x: string)
    requires Forest(parent, root, rank) && x in parent
    ensures x in root && x in rank && parent[x] in parent && parent[x] in root && parent[x] in rank
    ensures root[x] in rank && rank[parent[x]] <= rank[root[x]]
    ensures parent[x] != x ==> root[parent[x]] == root[x] && rank[x] < rank[parent[x]]
  {
    assert Node(parent, root, rank, x) && Node(parent, root, rank, parent[x]);
  }

  lemma RootIsOwn(parent: map<string, string>, root: map<string, string>, rank: map<string, nat>, x: string)
    requires Forest(parent, root, rank) && x in parent && parent[x] == x
    ensures x in root && root[x] == x
  {
    assert Node(parent, root, rank, x);
  }

  // ------------------------------------------------------------ the class

  class IdentityClasses {
    var parent: map<string, string>
    ghost var root: map<string, string>
    ghost var rank: map<string, nat>
    ghost var pairs: set<Pair>

    ghost predicate Valid()
      reads this
    {
      Forest(parent, root, rank) && Represents(root, pairs)
    }

    constructor ()
      ensures Valid() && parent == map[] && pairs == {}
    {
      parent, root, rank, pairs := map[], map[], map[], {};
    }

    /** `_find`: the item becomes known, no root changes, and its chain is compressed. */
    method Find(item: string) returns (r: string)
      requires Valid()
      modifies this
      ensures Valid() && pairs == old(pairs)
      ensures parent.Keys == root.Keys == old(parent.Keys) + {item}
      ensures forall x :: x in old(root) ==> root[x] == old(root)[x]
      ensures item in old(parent) ==> root == old(root)
      ensures r == root[item] && parent[item] == r
    {
      if item !in parent {
        assert item !in root.Values by { RootsKnown(parent, root, rank); }
        NewIdRepresents(root, pairs, item);
        NewIdKeepsForest(parent, root, rank, item);
        parent, root, rank := parent[item := item], root[item := item], rank[item := 0];
      }
      r := ClimbToRoot(item);
      Compress(item, r);
    }

    /** The first loop of `_find`: follow the pointers to a root. */
    method ClimbToRoot(item: string) returns (r: string)
      requires Valid() && item in parent
      ensures item in root && r == root[item]
    {
      hide Forest, Represents;
      ForestKnows(parent, root, rank, item);
      r := item;
      while parent[r] != r
        invariant r in parent && r in root && r in rank && root[r] == root[item] && rank[r] <= rank[root[item]]
        decreases rank[root[item]] - rank[r]
      {
        StepUp(parent, root, rank, r);
        r := parent[r];
      }
      RootIsOwn(parent, root, rank, r);
    }

    /** The second loop of `_find`: point every id on the way straight at the root. */
    method Compress(item: string, r: string)
      requires Valid() && item in parent && item in root && r == root[item]
      modifies this`parent
      ensures Valid() && parent.Keys == old(parent.Keys) && parent[item] == r
    {
      hide Forest, Represents;
      ForestKnows(parent, root, rank, item);
      var it := item;
      while parent[it] != r
        invariant Forest(parent, root, rank) && parent.Keys == old(parent.Keys)
        invariant it in parent && it in root && it in rank && root[it] == r && r in rank && rank[it] <= rank[r]
        invariant it == item || parent[item] == r
        decreases rank[r] - rank[it]
      {
        StepUp(parent, root, rank, it);
        CompressKeepsForest(parent, root, rank, it);
        var next := parent[it];
        parent, it := parent[it := r], next;
      }
    }

    /** `union`: exactly the two named classes become one. */
    method Union(left: string, right: string)
      requires Valid()
      modifies this
      ensures Valid() && pairs == old(pairs) + {(left, right)}
      ensures parent.Keys == old(parent.Keys) + {left, right}
    {
      hide Forest, Represents;
      var leftRoot := Find(left);
      var rightRoot := Find(right);
      UnionStep(parent, root, rank, pairs, left, right);
      assert parent.Keys == old(parent.Keys) + {left, right};
      if leftRoot != rightRoot {
        parent := parent[leftRoot := rightRoot];
        rank := Raised(rank, leftRoot, rightRoot);
      }
      root := MergedRoots(root, leftRoot, rightRoot);
      pairs := pairs + {(left, right)};
    }

    /** `members`: the known ids, grouped by root. */
    method Members() returns (groups: map<string, set<string>>)
      requires Valid()
      modifies this
      ensures Valid() && pairs == old(pairs) && root == old(root) && parent.Keys == old(parent.Keys)
      ensures groups == GroupsOf(root, root.Keys)
    {
      assert root.Keys == parent.Keys && RootsOf(root, {}) == {} && GroupsOf(root, {}) == map[];
      assert parent.Keys - parent.Keys == {};
      hide Forest, Represents, GroupsOf;
      groups := map[];
      var items := parent.Keys;
      ghost var known := items;
      while items != {}
        invariant Valid() && pairs == old(pairs) && root == old(root)
        invariant parent.Keys == known && items <= known
        invariant groups == GroupsOf(root, known - items)
        decreases |items|
      {
        var item :| item in items;
        var r := Find(item);
        assert parent.Keys == known;
        AddToGroups(root, known - items, item);
        assert known - (items - {item}) == known - items + {item};
        groups := groups[r := (if r in groups then groups[r] else {}) + {item}];
        items := items - {item};
      }
      assert known - items == known;
    }
  }

  function RootsOf(root: map<string, string>, ids: set<string>): set<string> {
    set x | x in ids && x in root :: root[x]
  }

  function UnderRoot(root: map<string, string>, ids: set<string>, r: string): set<string> {
    set x | x in ids && x in root && root[x] == r
  }

  /** Some of the known ids, grouped by root. */
  function GroupsOf(root: map<string, string>, ids: set<string>): map<string, set<string>> {
    map r | r in RootsOf(root, ids) :: UnderRoot(root, ids, r)
  }

  lemma AddToGroups(root: map<string, string>, ids: set<string>, item: string)
    requires item in root && item !in ids
    ensures var groups, r := GroupsOf(root, ids), root[item];
            GroupsOf(root, ids + {item}) == groups[r := (if r in groups then groups[r] else {}) + {item}]
  {
    var groups, r := GroupsOf(root, ids), root[item];
    assert RootsOf(root, ids + {item}) == RootsOf(root, ids) + {r};
    assert UnderRoot(root, ids + {item}, r) == UnderRoot(root, ids, r) + {item};
    assert r !in groups ==> UnderRoot(root, ids, r) == {};
    forall g | g in groups && g != r ensures UnderRoot(root, ids + {item}, g) == UnderRoot(root, ids, g) {
    }
  }

  /** Everything known to denote the same note as `x`. */
  ghost function ClassOf(known: set<string>, pairs: set<Pair>, x: string): set<string> {
    set y | y in known && Connected(pairs, x, y)
  }

  /** The groups are exactly the equivalence classes: every known id is in its own class and in no other group. */
  lemma GroupsAreClasses(root: map<string, string>, pairs: set<Pair>, x: string)
    requires Represents(root, pairs) && x in root
    ensures var groups := GroupsOf(root, root.Keys);
            && root[x] in groups && x in groups[root[x]]
            && groups[root[x]] == ClassOf(root.Keys, pairs, x)
            && forall g :: g in groups && x in groups[g] ==> g == root[x]
  {
    assert root[x] in RootsOf(root, root.Keys);
    forall y | y in root ensures root[y] == root[x] <==> Connected(pairs, x, y) {
      assert Connected(pairs, x, y) <==> root[x] == root[y];
    }
  }
}
