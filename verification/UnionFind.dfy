/** The path-halving union-find that drives entity merging. */
module UnionFind {
  import opened Closure
  import opened Common

  /** The keys of one class, in the order in which they were first seen. */
  function Members<K(==,!new)>(keys: seq<K>, root: map<K, K>, r: K): (members: seq<K>)
    requires forall k :: k in keys ==> k in root
    ensures forall k :: k in members <==> k in keys && root[k] == r
  {
    if keys == [] then []
    else
      var front := Members(keys[..|keys| - 1], root, r);
      var last := keys[|keys| - 1];
      if root[last] == r then front + [last] else front
  }

  lemma NoMembers<K(!new)>(keys: seq<K>, root: map<K, K>, r: K)
    requires forall k :: k in keys ==> k in root && root[k] != r
    ensures Members(keys, root, r) == []
  {
  }

  /** Adding a key to an insertion-ordered dictionary that may already hold it. */
  function Extend<K(==)>(keys: seq<K>, x: K): seq<K> {
    if x in keys then keys else keys + [x]
  }

  /** What holds at one node of a well-formed forest: its parent is in the same tree and lower. */
  ghost predicate NodeOk<K(!new)>(parent: map<K, K>, root: map<K, K>, height: map<K, nat>, x: K) {
    && x in parent && x in root && x in height
    && parent[x] in parent && parent[x] in root && parent[x] in height
    && root[x] in parent && root[x] in root
    && parent[root[x]] == root[x]
    && root[parent[x]] == root[x]
    && (parent[x] == x ==> root[x] == x)
    && (parent[x] != x ==> height[parent[x]] < height[x])
  }

  ghost predicate Wellformed<K(!new)>(parent: map<K, K>, root: map<K, K>, height: map<K, nat>) {
    && root.Keys == parent.Keys
    && (forall x {:trigger NodeOk(parent, root, height, x)} :: x in parent ==> NodeOk(parent, root, height, x))
  }

  lemma NewKeyKeepsWellformed<K(!new)>(parent: map<K, K>, root: map<K, K>, height: map<K, nat>, x: K)
    requires Wellformed(parent, root, height) && x !in root
    ensures Wellformed(parent[x := x], root[x := x], height[x := 0])
  {
    var parent', root', height' := parent[x := x], root[x := x], height[x := 0];
    forall z | z in parent'
      ensures NodeOk(parent', root', height', z)
    {
      assert z != x ==> NodeOk(parent, root, height, z);
    }
  }

  lemma HalveKeepsWellformed<K(!new)>(parent: map<K, K>, root: map<K, K>, height: map<K, nat>, x: K)
    requires Wellformed(parent, root, height) && x in parent && parent[x] in parent
    ensures NodeOk(parent, root, height, x) && NodeOk(parent, root, height, parent[x])
    ensures Wellformed(parent[x := parent[parent[x]]], root, height)
  {
    assert NodeOk(parent, root, height, x);
    assert NodeOk(parent, root, height, parent[x]);
    assert NodeOk(parent, root, height, parent[parent[x]]);
    var halved := parent[x := parent[parent[x]]];
    forall z | z in halved
      ensures NodeOk(halved, root, height, z)
    {
      assert NodeOk(parent, root, height, z);
      assert NodeOk(parent, root, height, root[z]);
    }
  }

  /** What hanging the tree of `ry` below `rx` does to every representative. */
  ghost function Rerooted<K(!new)>(root: map<K, K>, rx: K, ry: K): (r: map<K, K>)
    ensures r.Keys == root.Keys
  {
    map z | z in root :: if root[z] == ry then rx else root[z]
  }

  ghost function Raised<K(!new)>(root: map<K, K>, height: map<K, nat>, rx: K, ry: K): map<K, nat>
    requires rx in height
  {
    map z | z in height :: if z in root && root[z] == ry then height[z] + height[rx] + 1 else height[z]
  }

  lemma JoinKeepsWellformed<K(!new)>(parent: map<K, K>, root: map<K, K>, height: map<K, nat>, rx: K, ry: K)
    requires Wellformed(parent, root, height)
    requires rx in parent && ry in parent && rx != ry && parent[rx] == rx && parent[ry] == ry
    requires rx in height
    ensures Wellformed(parent[ry := rx], Rerooted(root, rx, ry), Raised(root, height, rx, ry))
  {
    assert NodeOk(parent, root, height, rx);
    assert NodeOk(parent, root, height, ry);
    var parent', root', height' := parent[ry := rx], Rerooted(root, rx, ry), Raised(root, height, rx, ry);
    forall z | z in parent'
      ensures NodeOk(parent', root', height', z)
    {
      assert NodeOk(parent, root, height, z);
    }
  }

  /** Every key is connected to its representative, and every link stays inside one tree. */
  ghost predicate Explained<K(!new)>(links: Links<K>, root: map<K, K>) {
    && (forall link :: link in links ==>
          link.0 in root && link.1 in root && root[link.0] == root[link.1])
    && (forall x {:trigger Connected(links, x, root[x])} :: x in root ==> Connected(links, x, root[x]))
  }

  lemma NewKeyKeepsExplained<K(!new)>(links: Links<K>, root: map<K, K>, x: K)
    requires Explained(links, root) && x !in root
    ensures Explained(links, root[x := x])
  {
    Reflexive(links, x);
    var root' := root[x := x];
    forall z | z in root'
      ensures Connected(links, z, root'[z])
    {
      assert z != x ==> Connected(links, z, root[z]);
    }
  }

  lemma LinkKeepsExplained<K(!new)>(links: Links<K>, root: map<K, K>, x: K, y: K)
    requires Explained(links, root) && x in root && y in root
    ensures Explained(links + {(x, y)}, Rerooted(root, root[x], root[y]))
  {
    var links' := links + {(x, y)};
    OneLink(links', x, y);
    forall k | k in root
      ensures Connected(links', k, Rerooted(root, root[x], root[y])[k])
    {
      Monotone(links, links', k, root[k]);
      if root[k] == root[y] {
        // k - root[y] - y - x - root[x]
        Monotone(links, links', y, root[y]);
        Symmetric(links', y, root[y]);
        Monotone(links, links', x, root[x]);
        Transitive(links', k, root[y], y);
        Transitive(links', k, y, x);
        Transitive(links', k, x, root[x]);
      }
    }
  }

  lemma UnionKeepsValid<K(!new)>(parent: map<K, K>, root: map<K, K>, height: map<K, nat>, links: Links<K>, x: K, y: K)
    requires Wellformed(parent, root, height) && Explained(links, root) && x in root && y in root
    requires root[x] in height
    ensures var rx, ry, links' := root[x], root[y], links + {(x, y)};
            if rx == ry then Explained(links', root)
            else
              && Wellformed(parent[ry := rx], Rerooted(root, rx, ry), Raised(root, height, rx, ry))
              && Explained(links', Rerooted(root, rx, ry))
  {
    LinkKeepsExplained(links, root, x, y);
    assert NodeOk(parent, root, height, x) && NodeOk(parent, root, height, y);
    if root[x] == root[y] {
      assert Rerooted(root, root[x], root[y]) == root;
    } else {
      JoinKeepsWellformed(parent, root, height, root[x], root[y]);
    }
  }

  /** `groups` lists exactly the nonempty classes of `keys`, `roots` names each of them once. */
  ghost predicate Grouping<K(!new)>(keys: seq<K>, root: map<K, K>, roots: seq<K>, groups: map<K, seq<K>>) {
    && (forall k :: k in keys ==> k in root && root[k] in groups)
    && Distinct(roots)
    && (forall r :: r in roots <==> r in groups)
    && (forall r :: r in groups ==> groups[r] == Members(keys, root, r) && groups[r] != [])
  }

  lemma GroupingStep<K(!new)>(keys: seq<K>, i: nat, root: map<K, K>, roots: seq<K>, groups: map<K, seq<K>>)
    requires i < |keys| && keys[i] in root && Grouping(keys[..i], root, roots, groups)
    ensures var r := root[keys[i]];
            Grouping(keys[..i + 1], root,
                     if r in groups then roots else roots + [r],
                     groups[r := (if r in groups then groups[r] else []) + [keys[i]]])
  {
    var r, front, next := root[keys[i]], keys[..i], keys[..i + 1];
    assert next[..|next| - 1] == front && next[|next| - 1] == keys[i];
    forall k | k in next
      ensures k in root
    {
      assert k in front || k == keys[i];
    }
    if r !in groups {
      NoMembers(front, root, r);
    }
  }

  class Forest<K(==,!new)> {
    var parent: map<K, K>
    var keys: seq<K>                  // the insertion order of `parent`
    ghost var root: map<K, K>        // each key's representative
    ghost var height: map<K, nat>     // strictly decreases towards the representative
    ghost var links: Links<K>             // every pair passed to Union so far

    ghost predicate Valid()
      reads this
    {
      && Wellformed(parent, root, height)
      && Explained(links, root)
      && Distinct(keys)
      && (forall k :: k in keys <==> k in root)
    }

    constructor ()
      ensures Valid() && keys == [] && root == map[] && links == {}
    {
      parent, keys := map[], [];
      root, height, links := map[], map[], {};
    }

    /** Two keys share a representative exactly when the unions so far relate them. */
    lemma SameRootIffConnected(x: K, y: K)
      requires Valid() && x in root
      ensures y in root && root[x] == root[y] <==> Connected(links, x, y)
    {
      if Connected(links, x, y) {
        var walk :| WalkJoins(links, walk, x, y);
        LabelConstant(links, root, walk);
      }
      if y in root && root[x] == root[y] {
        Symmetric(links, y, root[y]);
        Transitive(links, x, root[x], y);
      }
    }

    method SetDefault(x: K)
      requires Valid()
      modifies this
      ensures Valid() && links == old(links) && x in root
      ensures keys == Extend(old(keys), x) && root.Keys == old(root).Keys + {x}
      ensures root == if x in old(root) then old(root) else old(root)[x := x]
    {
      if x !in parent {
        NewKeyKeepsWellformed(parent, root, height, x);
        NewKeyKeepsExplained(links, root, x);
        parent, keys := parent[x := x], keys + [x];
        root, height := root[x := x], height[x := 0];
      }
    }

    method Find(x: K) returns (r: K)
      requires Valid()
      modifies this
      ensures Valid() && links == old(links)
      ensures keys == Extend(old(keys), x) && root.Keys == old(root).Keys + {x}
      ensures root == if x in old(root) then old(root) else old(root)[x := x]
      ensures x in root && r == root[x] && r in parent && parent[r] == r
    {
      SetDefault(x);
      r := x;
      ghost var keys0, root0 := keys, root;
      assert NodeOk(parent, root, height, x);
      while parent[r] != r
        invariant Valid() && links == old(links) && keys == keys0 && root == root0
        invariant NodeOk(parent, root, height, r) && root[r] == root[x]
        decreases height[r]
      {
        HalveKeepsWellformed(parent, root, height, r);
        assert NodeOk(parent, root, height, parent[parent[r]]);
        parent := parent[r := parent[parent[r]]];
        assert NodeOk(parent, root, height, r);
        r := parent[r];
        assert NodeOk(parent, root, height, r);
      }
    }

    method Union(x: K, y: K)
      requires Valid()
      modifies this
      ensures Valid() && links == old(links) + {(x, y)}
      ensures keys == Extend(Extend(old(keys), x), y) && root.Keys == old(root).Keys + {x} + {y}
    {
      SetDefault(x);
      SetDefault(y);
      var rx := Find(x);
      var ry := Find(y);
      Hang(x, y, rx, ry);
    }

    /** The update at the end of Union: put the tree of `ry` below `rx`. */
    method Hang(x: K, y: K, rx: K, ry: K)
      requires Valid() && x in root && y in root && rx == root[x] && ry == root[y]
      modifies this
      ensures Valid() && links == old(links) + {(x, y)}
      ensures keys == old(keys) && root.Keys == old(root).Keys
    {
      assert NodeOk(parent, root, height, rx) by { assert NodeOk(parent, root, height, x); }
      UnionKeepsValid(parent, root, height, links, x, y);
      links := links + {(x, y)};
      if rx != ry {
        parent := parent[ry := rx];
        height := Raised(root, height, rx, ry);
        root := Rerooted(root, rx, ry);
      }
    }

    /** Group every key under its representative; `roots` is the order in which groups appear. */
    method Components() returns (roots: seq<K>, groups: map<K, seq<K>>)
      requires Valid()
      modifies this
      ensures Valid() && links == old(links) && keys == old(keys) && root == old(root)
      ensures Grouping(keys, root, roots, groups)
    {
      roots, groups := [], map[];
      ghost var keys0, root0 := keys, root;
      for i := 0 to |keys|
        invariant Valid() && links == old(links) && keys == keys0 && root == root0
        invariant Grouping(keys0[..i], root0, roots, groups)
      {
        GroupingStep(keys0, i, root0, roots, groups);
        var x := keys[i];
        var r := Find(x);
        if r !in groups {
          roots := roots + [r];
          groups := groups[r := []];
        }
        groups := groups[r := groups[r] + [x]];
      }
      assert keys0[..|keys0|] == keys0;
    }
  }
}
