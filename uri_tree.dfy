/**
 * `URINode` and `URITree` of server/fs/tree.py: a trie of URI path
 * segments. Each node owns a dictionary of children; inserting a URI walks
 * down from the root, adding each missing segment.
 */
module UriTree {
  import opened Wrappers
  import opened Strings

  // ---------------------------------------------------------------------
  // Segments of a URI

  /** `[p for p in parts if p]`. */
  function NonEmpty(parts: seq<string>): seq<string>
    decreases |parts|
  {
    if parts == [] then []
    else (if parts[0] == "" then [] else [parts[0]]) + NonEmpty(parts[1..])
  }

  lemma {:induction false} NonEmptyConcat(a: seq<string>, b: seq<string>)
    ensures NonEmpty(a + b) == NonEmpty(a) + NonEmpty(b)
    decreases |a|
  {
    if a == [] {
      assert a + b == b;
    } else {
      var head := if a[0] == "" then [] else [a[0]];
      assert (a + b)[1..] == a[1..] + b;
      NonEmptyConcat(a[1..], b);
      assert a + b != [] && (a + b)[0] == a[0];
      assert NonEmpty(a + b) == head + NonEmpty(a[1..] + b);
      assert NonEmpty(a) == head + NonEmpty(a[1..]);
      assert head + (NonEmpty(a[1..]) + NonEmpty(b)) == (head + NonEmpty(a[1..])) + NonEmpty(b);
    }
  }

  /** The segments a URI names: `[p for p in uri.strip("/").split("/") if p]`. */
  function Segments(uri: string): (r: seq<string>)
  {
    NonEmpty(Split(Strip(uri, {'/'}), '/'))
  }

  lemma {:induction false} StripLeftIrrelevant(s: string)
    ensures NonEmpty(Split(StripLeft(s, {'/'}), '/')) == NonEmpty(Split(s, '/'))
    decreases |s|
  {
    if s != [] && s[0] == '/' {
      StripLeftIrrelevant(s[1..]);
    }
  }

  lemma {:induction false} StripRightIrrelevant(s: string)
    ensures NonEmpty(Split(StripRight(s, {'/'}), '/')) == NonEmpty(Split(s, '/'))
    decreases |s|
  {
    if s != [] && s[|s| - 1] == '/' {
      var front := s[..|s| - 1];
      assert StripRight(s, {'/'}) == StripRight(front, {'/'});
      StripRightIrrelevant(front);
      assert s == front + ['/'] + "";
      SplitConcat(front, "", '/');
      assert Split("", '/') == [""] && NonEmpty([""]) == [];
      NonEmptyConcat(Split(front, '/'), [""]);
    }
  }

  /** Stripping the slashes first changes nothing: empty pieces are dropped anyway. */
  lemma SegmentsOfSplit(uri: string)
    ensures Segments(uri) == NonEmpty(Split(uri, '/'))
  {
    StripLeftIrrelevant(uri);
    StripRightIrrelevant(StripLeft(uri, {'/'}));
  }

  /**
   * The segments of `a/b` are those of `a` followed by those of `b`; so
   * leading, trailing and doubled slashes do not matter, and every
   * `/`-separated prefix of a URI names a prefix of its segments.
   */
  lemma SegmentsConcat(a: string, b: string)
    ensures Segments(a + "/" + b) == Segments(a) + Segments(b)
  {
    SegmentsOfSplit(a + "/" + b);
    SegmentsOfSplit(a);
    SegmentsOfSplit(b);
    assert a + "/" + b == a + ['/'] + b;
    SplitConcat(a, b, '/');
    NonEmptyConcat(Split(a, '/'), Split(b, '/'));
  }

  lemma SegmentsEmpty()
    ensures Segments("") == []
  {
    SegmentsOfSplit("");
  }

  /** A leading slash does not change the segments. */
  lemma LeadingSlashIgnored(a: string)
    ensures Segments("/" + a) == Segments(a)
  {
    var s := "/" + a;
    SegmentsOfSplit(s);
    SegmentsOfSplit(a);
    assert s[1..] == a;
    assert Split(s, '/') == [""] + Split(a, '/');
    assert ([""] + Split(a, '/'))[1..] == Split(a, '/');
  }

  /** A trailing slash does not change the segments. */
  lemma TrailingSlashIgnored(a: string)
    ensures Segments(a + "/") == Segments(a)
  {
    SegmentsEmpty();
    SegmentsConcat(a, "");
    assert a + "/" + "" == a + "/";
  }

  /** A doubled slash counts as one, so `/a//b/` names the path of `a/b`. */
  lemma DoubledSlashIgnored(a: string, b: string)
    ensures Segments(a + "//" + b) == Segments(a + "/" + b)
  {
    var slashB := "/" + b;
    var doubled := a + "/" + slashB;
    assert doubled == a + "//" + b by {
      assert "/" + slashB == "//" + b;
      assert a + "/" + slashB == a + ("/" + slashB);
      assert a + "//" + b == a + ("//" + b);
    }
    SegmentsConcat(a, slashB);
    LeadingSlashIgnored(b);
    SegmentsConcat(a, b);
  }

  /** Every prefix of `s`, `s` itself and `[]` included. */
  ghost function Prefixes(s: seq<string>): set<seq<string>>
    decreases |s|
  {
    if s == [] then {[]} else Prefixes(s[..|s| - 1]) + {s}
  }

  /** Taking one more element of `s` extends the prefix by that element. */
  lemma Snoc(s: seq<string>, i: nat)
    requires i < |s|
    ensures s[..i + 1] == s[..i] + [s[i]]
    ensures (s[..i] + [s[i]])[..i] == s[..i]
  {
  }

  /** Every prefix of `s` is among its `Prefixes`. */
  lemma {:induction false} PrefixesContain(s: seq<string>, j: nat)
    requires j <= |s|
    ensures s[..j] in Prefixes(s)
    decreases |s|
  {
    if j < |s| {
      PrefixesContain(s[..|s| - 1], j);
      assert s[..|s| - 1][..j] == s[..j];
    } else {
      assert s[..j] == s;
    }
  }

  // ---------------------------------------------------------------------
  // The trie

  class URINode {
    const name: string
    var children: map<string, URINode>

    constructor(name: string)
      ensures this.name == name && children == map[]
    {
      this.name := name;
      children := map[];
    }

    /** `add_child`: the existing child when there is one (never replaced), otherwise a new empty one. */
    method AddChild(name: string) returns (child: URINode)
      modifies this
      ensures name in old(children) ==> children == old(children) && child == old(children)[name]
      ensures name !in old(children) ==>
                fresh(child) && child.name == name && child.children == map[]
                && children == old(children)[name := child]
    {
      if name !in children {
        var node := new URINode(name);
        children := children[name := node];
      }
      child := children[name];
    }

    /** `get_child`: the child, or `None`. */
    function GetChild(name: string): (r: Option<URINode>)
      reads this
      ensures r.Some? <==> name in children
      ensures r.Some? ==> r.value == children[name]
    {
      if name in children then Some(children[name]) else None
    }
  }

  class URITree {
    const root: URINode
    /** The paths (sequences of segments) the tree holds, the root's `[]` included. */
    ghost var paths: set<seq<string>>
    /** The node each path leads to. */
    ghost var nodeAt: map<seq<string>, URINode>
    ghost var Repr: set<URINode>

    ghost predicate Valid()
      reads this, Repr
    {
      && nodeAt.Keys == paths
      && [] in paths && nodeAt[[]] == root
      && (forall q :: q in paths ==> nodeAt[q] in Repr)
      && Injective()
      && ChildrenMatch()
      && Walkable()
    }

    /** Different paths lead to different nodes. */
    ghost predicate Injective()
      reads this
    {
      forall q1, q2 {:trigger nodeAt[q1], nodeAt[q2]} :: q1 in nodeAt && q2 in nodeAt && nodeAt[q1] == nodeAt[q2] ==> q1 == q2
    }

    /** Each child of a path's node is the node of the path one segment longer. */
    ghost predicate ChildrenMatch()
      reads this, Repr
    {
      forall q, k {:trigger nodeAt[q].children[k]} ::
        q in nodeAt && nodeAt[q] in Repr && k in nodeAt[q].children ==>
          q + [k] in nodeAt && nodeAt[q].children[k] == nodeAt[q + [k]]
    }

    /** Each path can be walked from the root, segment by segment. */
    ghost predicate Walkable()
      reads this, Repr
    {
      forall q, j {:trigger q[..j] in nodeAt} :: q in nodeAt && 0 <= j < |q| ==>
        q[..j] in nodeAt && nodeAt[q[..j]] in Repr && q[j] in nodeAt[q[..j]].children
    }

    /** A fresh tree holds only the root. */
    constructor()
      ensures Valid() && fresh(Repr)
      ensures paths == {[]}
    {
      var r := new URINode("/");
      root := r;
      paths := {[]};
      nodeAt := map[[] := r];
      Repr := {r};
    }

    /**
     * `insert_uri`: afterwards the tree holds the URI's path and each of
     * its prefixes, and every path it held before.
     */
    method InsertUri(uri: string)
      requires Valid()
      modifies this, Repr
      ensures Valid() && fresh(Repr - old(Repr))
      ensures paths == old(paths) + Prefixes(Segments(uri))
    {
      InsertPath(Segments(uri));
    }

    /** The loop of `insert_uri`: follows `parts` from the root, adding each child that is missing. */
    method InsertPath(parts: seq<string>)
      requires Valid()
      modifies this, Repr
      ensures Valid() && fresh(Repr - old(Repr))
      ensures paths == old(paths) + Prefixes(parts)
    {
      var node := root;
      var i := 0;
      ghost var done: seq<string> := [];
      while i < |parts|
        invariant 0 <= i <= |parts| && done == parts[..i]
        invariant Valid() && fresh(Repr - old(Repr))
        invariant done in paths && node == nodeAt[done]
        invariant paths == old(paths) + Prefixes(done)
      {
        ghost var step := done + [parts[i]];
        Snoc(parts, i);
        node := Descend(node, done, parts[i]);
        done := step;
        i := i + 1;
      }
      assert done == parts;
    }

    /** One step of `insert_uri`: `node = node.add_child(part)`, with the ghost state following. */
    method Descend(node: URINode, ghost prefix: seq<string>, part: string) returns (next: URINode)
      requires Valid() && prefix in paths && node == nodeAt[prefix]
      modifies this, node
      ensures Valid() && fresh(Repr - old(Repr))
      ensures paths == old(paths) + {prefix + [part]}
      ensures next == nodeAt[prefix + [part]]
    {
      ghost var had := part in node.children;
      ghost var path := prefix + [part];
      assert path[..|prefix|] == prefix;
      assert path in paths ==> part in nodeAt[path[..|prefix|]].children;
      next := node.AddChild(part);
      if had {
        assert next == node.children[part] == nodeAt[path];
      } else {
        paths := paths + {path};
        nodeAt := nodeAt[path := next];
        Repr := Repr + {next};
        GrowthKeepsValid(node, prefix, part, next);
      }
    }

    /** A tree that grows by one fresh leaf stays valid. */
    twostate lemma GrowthKeepsValid(new node: URINode, new prefix: seq<string>, new part: string, new next: URINode)
      requires old(Valid()) && Grown(node, prefix, part, next)
      ensures Valid()
    {
      InjectiveKept(node, prefix, part, next);
      ChildrenKept(node, prefix, part, next);
      WalkableKept(node, prefix, part, next);
    }

    /**
     * What `Descend` leaves behind when `part` was missing: the node of
     * `prefix` has gained the fresh, childless `next`, nothing else on the
     * heap changed, and the ghost state records the one new path.
     */
    twostate predicate Grown(new node: URINode, new prefix: seq<string>, new part: string, new next: URINode)
      reads this, Repr
    {
      && Repr == old(Repr) + {next}
      && prefix in old(nodeAt) && old(nodeAt[prefix]) == node && part !in old(node.children)
      && prefix + [part] !in old(nodeAt)
      && next !in old(Repr) && next.children == map[]
      && node in Repr && node.children == old(node.children)[part := next]
      && (forall n :: n in old(Repr) && n != node ==> n.children == old(n.children))
      && paths == old(paths) + {prefix + [part]}
      && nodeAt == old(nodeAt)[prefix + [part] := next]
    }

    twostate lemma InjectiveKept(new node: URINode, new prefix: seq<string>, new part: string, new next: URINode)
      requires old(Valid()) && Grown(node, prefix, part, next)
      ensures Injective()
    {
      var path := prefix + [part];
      forall q1, q2 | q1 in nodeAt && q2 in nodeAt && nodeAt[q1] == nodeAt[q2]
        ensures q1 == q2
      {
        if q1 != path && q2 != path {
          assert q1 in old(nodeAt) && q2 in old(nodeAt);
        }
      }
    }

    twostate lemma ChildrenKept(new node: URINode, new prefix: seq<string>, new part: string, new next: URINode)
      requires old(Valid()) && Grown(node, prefix, part, next)
      ensures ChildrenMatch()
    {
      var path := prefix + [part];
      forall q, k | q in nodeAt && nodeAt[q] in Repr && k in nodeAt[q].children
        ensures q + [k] in nodeAt && nodeAt[q].children[k] == nodeAt[q + [k]]
      {
        if q != path {
          var n := nodeAt[q];
          assert q in old(nodeAt) && n == old(nodeAt[q]) && n in old(Repr);
          if n == node && k == part {
            assert q == prefix;
          } else {
            assert k in old(n.children) && n.children[k] == old(n.children[k]);
            assert old(n.children[k]) == old(nodeAt[q + [k]]);
            assert q + [k] != path;
          }
        }
      }
    }

    twostate lemma WalkableKept(new node: URINode, new prefix: seq<string>, new part: string, new next: URINode)
      requires old(Valid()) && Grown(node, prefix, part, next)
      ensures Walkable()
    {
      var path := prefix + [part];
      forall q, j | q in nodeAt && 0 <= j < |q|
        ensures q[..j] in nodeAt && nodeAt[q[..j]] in Repr && q[j] in nodeAt[q[..j]].children
      {
        var r, c;
        if q == path && j == |prefix| {
          assert q[..j] == prefix;
        } else {
          if q == path {
            assert old(prefix[..j] in nodeAt && nodeAt[prefix[..j]] in Repr && prefix[j] in nodeAt[prefix[..j]].children);
            r, c := prefix[..j], prefix[j];
            assert q[..j] == r && q[j] == c;
          } else {
            assert q in old(nodeAt);
            assert old(q[..j] in nodeAt && nodeAt[q[..j]] in Repr && q[j] in nodeAt[q[..j]].children);
            r, c := q[..j], q[j];
          }
          var n := old(nodeAt[r]);
          assert nodeAt[r] == n;
          assert c in n.children by {
            if n != node {
              assert n.children == old(n.children);
            }
          }
        }
      }
    }

    /** `exists`: walks the segments from the root; true exactly for a path the tree holds. */
    method Exists(uri: string) returns (b: bool)
      requires Valid()
      ensures b <==> Segments(uri) in paths
    {
      b := Walk(Segments(uri));
    }

    /** The loop of `exists`: follows `parts` child by child, false at the first one missing. */
    method Walk(parts: seq<string>) returns (b: bool)
      requires Valid()
      ensures b <==> parts in paths
    {
      var node := root;
      var i := 0;
      assert parts[..0] == [];
      while i < |parts|
        invariant 0 <= i <= |parts|
        invariant parts[..i] in nodeAt && node == nodeAt[parts[..i]]
      {
        var next := node.GetChild(parts[i]);
        assert parts[..i + 1] == parts[..i] + [parts[i]];
        if next.None? {
          assert parts[i] !in nodeAt[parts[..i]].children;
          return false;
        }
        node := next.value;
        i := i + 1;
      }
      assert parts[..i] == parts;
      return true;
    }
  }

  /** On a fresh tree only the root exists: `exists` holds exactly for URIs without segments, such as `/` or `""`. */
  method FreshTreeExists(uri: string) returns (b: bool)
    ensures b <==> Segments(uri) == []
  {
    var t := new URITree();
    b := t.Exists(uri);
  }

  /**
   * After `insert_uri("a/b")`, both `a/b` and its prefix `a` exist, and
   * every path that existed before still does.
   */
  method InsertedPrefixExists(t: URITree, a: string, b: string) returns (whole: bool, prefix: bool)
    requires t.Valid()
    modifies t, t.Repr
    ensures old(t.paths) <= t.paths
    ensures whole && prefix
  {
    t.InsertUri(a + "/" + b);
    whole := t.Exists(a + "/" + b);
    PrefixesContain(Segments(a + "/" + b), |Segments(a + "/" + b)|);
    assert Segments(a + "/" + b)[..|Segments(a + "/" + b)|] == Segments(a + "/" + b);
    SegmentsConcat(a, b);
    PrefixesContain(Segments(a + "/" + b), |Segments(a)|);
    assert Segments(a + "/" + b)[..|Segments(a)|] == Segments(a);
    prefix := t.Exists(a);
  }

  /** Inserting the same URI twice leaves the tree's paths as the first insert left them. */
  method InsertIdempotent(t: URITree, uri: string)
    requires t.Valid()
    modifies t, t.Repr
    ensures t.paths == old(t.paths) + Prefixes(Segments(uri))
  {
    t.InsertUri(uri);
    t.InsertUri(uri);
  }

  // ---------------------------------------------------------------------
  // How the handlers use the tree

  /** `if not uri_tree.exists(uri): uri_tree.insert_uri(uri)`, on the paths the tree holds. */
  ghost function Register(paths: set<seq<string>>, uri: string): (r: set<seq<string>>)
    ensures Segments(uri) in r
    ensures paths <= r && r <= paths + Prefixes(Segments(uri))
  {
    PrefixesContain(Segments(uri), |Segments(uri)|);
    assert Segments(uri)[..|Segments(uri)|] == Segments(uri);
    if Segments(uri) in paths then paths else paths + Prefixes(Segments(uri))
  }

  /** A URI the tree already holds is left as it is. */
  lemma KnownUriUnchanged(paths: set<seq<string>>, uri: string)
    requires Segments(uri) in paths
    ensures Register(paths, uri) == paths
  {
  }

  /** On a prefix-closed set of paths, registering keeps it prefix-closed. */
  lemma RegisterKeepsPrefixClosed(paths: set<seq<string>>, uri: string)
    requires forall q, j :: q in paths && 0 <= j <= |q| ==> q[..j] in paths
    ensures var r := Register(paths, uri); forall q, j :: q in r && 0 <= j <= |q| ==> q[..j] in r
  {
    var s := Segments(uri);
    forall q, j | q in Register(paths, uri) && 0 <= j <= |q|
      ensures q[..j] in Register(paths, uri)
    {
      if q !in paths {
        assert q in Prefixes(s);
        PrefixOfPrefix(s, q, j);
      }
    }
  }

  /** A prefix of a prefix of `s` is a prefix of `s`. */
  lemma {:induction false} PrefixOfPrefix(s: seq<string>, q: seq<string>, j: nat)
    requires q in Prefixes(s) && j <= |q|
    ensures q[..j] in Prefixes(s)
    decreases |s|
  {
    if s == [] {
      assert q == [];
    } else if q == s {
      PrefixesContain(s, j);
    } else {
      PrefixOfPrefix(s[..|s| - 1], q, j);
    }
  }

  /** `if not uri_tree.exists(uri): uri_tree.insert_uri(uri)`, as the handlers run it. */
  method RegisterUri(t: URITree, uri: string)
    requires t.Valid()
    modifies t, t.Repr
    ensures t.Valid() && fresh(t.Repr - old(t.Repr))
    ensures t.paths == Register(old(t.paths), uri)
  {
    var known := t.Exists(uri);
    if !known {
      t.InsertUri(uri);
    }
  }
}
