/** Path names as names of tree nodes: resolving a path the way DOS does, and why the paths the walkers
    join together lead exactly to the objects they mean. */
module Paths {
  import opened Bytes
  import opened Trees
  import opened Volumes

  /** Names are unique within each directory. */
  ghost predicate WellFormed(node: Node)
    decreases node
  {
    node.Dir? ==>
      && (forall i, j :: 0 <= i < j < |node.entries| ==> node.entries[i].name != node.entries[j].name)
      && (forall i :: 0 <= i < |node.entries| ==> WellFormed(node.entries[i].node))
  }

  // --------------------------------------------------------------- resolving

  ghost function FindEntry(entries: seq<Entry>, name: string): Option<Node> {
    if entries == [] then None
    else if entries[0].name == name then Some(entries[0].node)
    else FindEntry(entries[1..], name)
  }

  ghost function Lookup(node: Node, name: string): Option<Node> {
    if node.Dir? then FindEntry(node.entries, name) else None
  }

  /** The end of the first component of a path: its first slash, or its end. */
  ghost function NameEnd(rest: string): (n: nat)
    ensures n <= |rest| && (n < |rest| ==> rest[n] == '/')
    ensures forall k :: 0 <= k < n ==> rest[k] != '/'
  {
    if rest == "" || rest[0] == '/' then 0 else 1 + NameEnd(rest[1..])
  }

  /** Follows the components of a path, separated by slashes, down a tree. */
  ghost function Follow(node: Node, rest: string): Option<Node>
    decreases |rest|
  {
    var n := NameEnd(rest);
    var child := Lookup(node, rest[..n]);
    if child.None? || n == |rest| then child else Follow(child.value, rest[n + 1..])
  }

  /** What the names of objects below a base start with. */
  function Prefix(base: CString): CString {
    Join(base, "")
  }

  /** The object a path names, when the base names the root of a tree. */
  ghost function Resolve(base: CString, root: Node, p: string): Option<Node> {
    if p == base then Some(root)
    else if Prefix(base) <= p then Follow(root, p[|Prefix(base)|..])
    else None
  }

  lemma {:induction false} EntryIsFound(entries: seq<Entry>, i: nat)
    requires i < |entries|
    requires forall j, k :: 0 <= j < k < |entries| ==> entries[j].name != entries[k].name
    ensures FindEntry(entries, entries[i].name) == Some(entries[i].node)
  {
    if i > 0 {
      EntryIsFound(entries[1..], i - 1);
    }
  }

  lemma {:induction false} FoundIsNamed(entries: seq<Entry>, name: string)
    requires FindEntry(entries, name).Some?
    ensures name != "" && ':' !in name && '/' !in name
  {
    if entries[0].name != name { FoundIsNamed(entries[1..], name); }
  }

  lemma NameEndIs(rest: string, n: nat)
    requires n <= |rest| && (n < |rest| ==> rest[n] == '/') && forall k :: 0 <= k < n ==> rest[k] != '/'
    ensures NameEnd(rest) == n
  {
  }

  lemma FollowName(node: Node, name: Name)
    ensures Follow(node, name) == Lookup(node, name)
  {
    forall k | 0 <= k < |name| ensures name[k] != '/' { assert name[k] in name; }
    NameEndIs(name, |name|);
    assert name[..|name|] == name;
  }

  /** Appending a slash and a name goes one step further down. */
  lemma {:induction false} FollowFurther(node: Node, rest: string, d: Node, name: Name)
    requires Follow(node, rest) == Some(d)
    ensures Follow(node, rest + "/" + name) == Lookup(d, name)
    decreases |rest|
  {
    hide Lookup;
    var n := NameEnd(rest);
    var longer := rest + "/" + name;
    NameEndIs(longer, n);
    assert longer[..n] == rest[..n];
    if n == |rest| {
      assert longer[n + 1..] == name;
      FollowName(d, name);
    } else {
      assert longer[n + 1..] == rest[n + 1..] + "/" + name;
      FollowFurther(Lookup(node, rest[..n]).value, rest[n + 1..], d, name);
    }
  }

  lemma {:induction false} FollowedEndsInName(node: Node, rest: string)
    requires Follow(node, rest).Some?
    ensures rest != "" && !EndsInSeparator(rest)
    decreases |rest|
  {
    hide FindEntry;
    var n := NameEnd(rest);
    if n == |rest| {
      assert rest[..n] == rest;
      FoundIsNamed(node.entries, rest);
      assert rest[|rest| - 1] in rest;
    } else {
      FollowedEndsInName(Lookup(node, rest[..n]).value, rest[n + 1..]);
      assert rest[|rest| - 1] == rest[n + 1..][|rest| - n - 2];
    }
  }

  /** A path that goes on after the prefix is followed from the root. */
  lemma ResolveRest(base: CString, root: Node, rest: CString)
    requires rest != []
    ensures Resolve(base, root, Prefix(base) + rest) == Follow(root, rest)
  {
    hide Follow;
    var q := Prefix(base) + rest;
    assert |q| > |base|;
    assert q[|Prefix(base)|..] == rest;
  }

  lemma ChildOfRoot(base: CString, root: Node, name: Name)
    ensures Resolve(base, root, Join(base, name)) == Lookup(root, name)
  {
    hide Lookup, Follow, Resolve;
    assert Join(base, name) == Prefix(base) + name;
    ResolveRest(base, root, name);
    FollowName(root, name);
  }

  lemma ChildBelowRoot(base: CString, root: Node, rest: CString, d: Node, name: Name)
    requires Follow(root, rest) == Some(d)
    ensures Resolve(base, root, Join(Prefix(base) + rest, name)) == Lookup(d, name)
  {
    hide Lookup, Follow, Resolve;
    var longer: CString := rest + "/" + name;
    FollowedEndsInName(root, rest);
    FollowFurther(root, rest, d, name);
    ResolveRest(base, root, longer);
    JoinBelow(Prefix(base), rest, name);
  }

  lemma JoinBelow(prefix: CString, rest: CString, name: CString)
    requires rest != "" && !EndsInSeparator(rest)
    ensures Join(prefix + rest, name) == prefix + (rest + "/" + name)
  {
    var p := prefix + rest;
    assert p[|p| - 1] == rest[|rest| - 1];
  }

  /** The joined path of an entry of an object leads to that entry. */
  lemma ResolveChild(base: CString, root: Node, p: CString, d: Node, name: Name)
    requires Resolve(base, root, p) == Some(d)
    ensures Resolve(base, root, Join(p, name)) == Lookup(d, name)
  {
    hide Lookup, Follow, Join;
    if p == base {
      ChildOfRoot(base, root, name);
    } else {
      var rest: CString := p[|Prefix(base)|..];
      assert p == Prefix(base) + rest;
      ChildBelowRoot(base, root, rest, d, name);
    }
  }

  // ------------------------------------------------------ a tree as a volume

  function InfoOf(node: Node): Info {
    if node.Dir? then Info(2, 0) else Info(-3, node.size)
  }

  const ERROR_OBJECT_WRONG_TYPE := 212

  /** The answers of a DOS on which nothing fails, with a tree at a base path. */
  ghost function TreeVolume(base: CString, root: Node): Volume {
    Volume((p: CString) => Resolve(base, root, p).Some?,
           (p: CString) => ExamineAt(Resolve(base, root, p)),
           (p: CString, i: nat) => ListAt(Resolve(base, root, p), i))
  }

  ghost function ExamineAt(d: Option<Node>): Option<Info> {
    if d.Some? then Some(InfoOf(d.value)) else None
  }

  ghost function ListAt(d: Option<Node>, i: nat): Listing {
    if d.None? || d.value.File? then Stop(ERROR_OBJECT_WRONG_TYPE)
    else if i < |d.value.entries| then Next(d.value.entries[i].name, InfoOf(d.value.entries[i].node))
    else Stop(232)
  }

  /** Every path a walk joins together resolves to the object it visits. */
  ghost predicate Located(base: CString, root: Node, visits: seq<Visit>) {
    forall w :: w in visits ==> Resolve(base, root, w.path) == Some(w.node)
  }

  lemma ChildResolves(base: CString, root: Node, p: CString, d: Node, i: nat)
    requires Resolve(base, root, p) == Some(d) && WellFormed(d) && d.Dir? && i < |d.entries|
    ensures Resolve(base, root, Join(p, d.entries[i].name)) == Some(d.entries[i].node)
    ensures WellFormed(d.entries[i].node)
  {
    hide Resolve, FindEntry, Join;
    ResolveChild(base, root, p, d, d.entries[i].name);
    EntryIsFound(d.entries, i);
  }

  lemma {:induction false} WalkIsLocated(base: CString, root: Node, p: CString, d: Node, depth: nat, i: nat)
    requires Resolve(base, root, p) == Some(d) && WellFormed(d)
    ensures Located(base, root, Below(d, p, depth, i))
    decreases d, if d.Dir? && i <= |d.entries| then |d.entries| - i else 0
  {
    hide Resolve, WellFormed, Join;
    if d.Dir? && i < |d.entries| {
      var e := d.entries[i];
      ChildResolves(base, root, p, d, i);
      WalkIsLocated(base, root, Join(p, e.name), e.node, depth + 1, 0);
      WalkIsLocated(base, root, p, d, depth, i + 1);
      BelowStep(d, p, depth, i);
    }
  }

  lemma {:induction false} TreeIsShown(base: CString, root: Node, p: CString, d: Node)
    requires Resolve(base, root, p) == Some(d) && WellFormed(d)
    ensures Shows(TreeVolume(base, root), p, d)
    decreases d
  {
    hide Resolve, WellFormed, Join;
    if d.Dir? {
      forall i | 0 <= i < |d.entries|
        ensures Shows(TreeVolume(base, root), Join(p, d.entries[i].name), d.entries[i].node)
      {
        ChildResolves(base, root, p, d, i);
        TreeIsShown(base, root, Join(p, d.entries[i].name), d.entries[i].node);
      }
    }
  }

  /** The static limits of the tools: path length, depth and entries per directory. */
  ghost predicate WithinLimits(w: Visit) {
    |w.path| <= 255 && (w.node.Dir? ==> w.depth < 16 && |w.node.entries| < 1024)
  }

  /** On a DOS that never fails, the limits are all that can go wrong. */
  lemma OnlyLimitsMatter(base: CString, root: Node)
    requires WellFormed(root)
    ensures Shows(TreeVolume(base, root), base, root)
    ensures Located(base, root, Walk(root, base, 0))
    ensures Opens(TreeVolume(base, root), base, root) && AllHandled(TreeVolume(base, root), Walk(root, base, 0))
       <==> (root.Dir? ==> |root.entries| < 1024)
            && forall w :: w in Walk(root, base, 0) ==> WithinLimits(w)
  {
    hide WellFormed, Shows, Below;
    var v := TreeVolume(base, root);
    assert Resolve(base, root, base) == Some(root);
    TreeIsShown(base, root, base, root);
    WalkIsLocated(base, root, base, root, 0, 0);
    OpensInTree(base, root, base, root);
    forall w | w in Walk(root, base, 0)
      ensures Handled(v, w) <==> WithinLimits(w)
    {
      OpensInTree(base, root, w.path, w.node);
    }
  }

  lemma OpensInTree(base: CString, root: Node, p: CString, d: Node)
    requires Resolve(base, root, p) == Some(d)
    ensures Opens(TreeVolume(base, root), p, d) <==> (d.Dir? ==> |d.entries| < MAX_ENTRIES)
  {
    hide Resolve;
  }

  // ------------------------------------------------------ each path just once

  /** A path is an object's own path or the path of something below it. */
  ghost predicate Under(q: string, w: string) {
    w == q || q + "/" <= w
  }

  ghost predicate AllUnder(q: string, visits: seq<Visit>) {
    forall w :: w in visits ==> q + "/" <= w.path
  }

  lemma JoinedEndsInName(p: CString, name: Name)
    ensures Join(p, name) == Prefix(p) + name
    ensures Join(p, name) != "" && !EndsInSeparator(Join(p, name))
  {
    var q := Join(p, name);
    assert name[|name| - 1] in name;
    assert q[|q| - 1] == name[|name| - 1];
  }

  /** What lies under a child lies under its directory. */
  lemma UnderChild(p: CString, name: Name, visits: seq<Visit>)
    requires p != "" && !EndsInSeparator(p)
    requires AllUnder(Join(p, name), visits)
    ensures p + "/" <= Join(p, name) && AllUnder(p, visits)
  {
    var q := Join(p, name);
    assert q == (p + "/") + name;
    hide Join;
    forall w | w in visits ensures p + "/" <= w.path {
      assert q + "/" <= w.path;
      assert w.path[..|p| + 1] == q[..|p| + 1];
    }
  }

  lemma AllUnderConcat(p: string, a: seq<Visit>, b: seq<Visit>)
    requires AllUnder(p, a) && AllUnder(p, b)
    ensures AllUnder(p, a + b)
  {
  }

  lemma {:induction false} BelowIsUnder(node: Node, p: CString, depth: nat, i: nat)
    requires p != "" && !EndsInSeparator(p)
    ensures AllUnder(p, Below(node, p, depth, i))
    decreases node, if node.Dir? && i <= |node.entries| then |node.entries| - i else 0
  {
    hide Join, AllUnder, Below, EndsInSeparator;
    if node.Dir? && i < |node.entries| {
      var e := node.entries[i];
      var q := Join(p, e.name);
      var own := [Visit(q, e.name, e.node, depth)];
      JoinedEndsInName(p, e.name);
      BelowIsUnder(e.node, q, depth + 1, 0);
      BelowIsUnder(node, p, depth, i + 1);
      UnderChild(p, e.name, Walk(e.node, q, depth + 1));
      OwnUnder(p, own[0]);
      BelowStep(node, p, depth, i);
      AllUnderConcat(p, own, Walk(e.node, q, depth + 1));
      AllUnderConcat(p, own + Walk(e.node, q, depth + 1), Below(node, p, depth, i + 1));
    } else {
      NoneUnder(node, p, depth, i);
    }
  }

  lemma OwnUnder(p: string, w: Visit)
    requires p + "/" <= w.path
    ensures AllUnder(p, [w])
  {
  }

  lemma NoneUnder(node: Node, p: CString, depth: nat, i: nat)
    requires node.File? || i >= |node.entries|
    ensures AllUnder(p, Below(node, p, depth, i))
  {
  }

  /** Different names in one directory lead to different paths, also further down. */
  lemma SiblingsApart(p: CString, a: Name, b: Name, w: string)
    requires Under(Join(p, a), w) && Under(Join(p, b), w)
    ensures a == b
  {
    hide Under, Join, Prefix;
    NamedRest(p, a, w);
    NamedRest(p, b, w);
    var rest := w[|Prefix(p)|..];
    assert a == rest[..|a|] && b == rest[..|b|];
  }

  lemma NamedRest(p: CString, a: Name, w: string)
    requires Under(Join(p, a), w)
    ensures |Prefix(p)| <= |w|
    ensures var rest := w[|Prefix(p)|..]; a <= rest && NameEnd(rest) == |a|
  {
    JoinedEndsInName(p, a);
    hide Join, Prefix;
    var rest := w[|Prefix(p)|..];
    assert w[..|Join(p, a)|] == Prefix(p) + a;
    assert rest[..|a|] == a;
    forall k | 0 <= k < |a| ensures rest[k] != '/' { assert rest[k] == a[k] && a[k] in a; }
    NameEndIs(rest, |a|);
  }

  ghost predicate DistinctPaths(visits: seq<Visit>) {
    forall j, k :: 0 <= j < k < |visits| ==> visits[j].path != visits[k].path
  }

  /** The later entries of a directory have other paths than the earlier ones. */
  lemma {:induction false} LaterEntriesApart(node: Node, p: CString, depth: nat, i: nat, name: Name)
    requires node.Dir? && forall k :: i <= k < |node.entries| ==> node.entries[k].name != name
    ensures forall w :: w in Below(node, p, depth, i) ==> !Under(Join(p, name), w.path)
    decreases if i <= |node.entries| then |node.entries| - i else 0
  {
    hide Under, Join;
    if i < |node.entries| {
      var e := node.entries[i];
      var q := Join(p, e.name);
      LaterEntriesApart(node, p, depth, i + 1, name);
      BelowStep(node, p, depth, i);
      EntryUnder(e, p, depth);
      forall w | w in [Visit(q, e.name, e.node, depth)] + Walk(e.node, q, depth + 1)
        ensures !Under(Join(p, name), w.path)
      {
        if Under(Join(p, name), w.path) { SiblingsApart(p, name, e.name, w.path); }
      }
    }
  }

  lemma EntryUnder(e: Entry, p: CString, depth: nat)
    ensures var q := Join(p, e.name);
            forall w :: w in [Visit(q, e.name, e.node, depth)] + Walk(e.node, q, depth + 1) ==> Under(q, w.path)
  {
    hide Join, Below;
    JoinedEndsInName(p, e.name);
    BelowIsUnder(e.node, Join(p, e.name), depth + 1, 0);
  }

  lemma DistinctConcat(a: seq<Visit>, b: seq<Visit>)
    requires DistinctPaths(a) && DistinctPaths(b)
    requires forall x, y :: x in a && y in b ==> x.path != y.path
    ensures DistinctPaths(a + b)
  {
    forall j, k | 0 <= j < k < |a + b| ensures (a + b)[j].path != (a + b)[k].path {
      if j < |a| <= k { assert a[j] in a && b[k - |a|] in b; }
    }
  }

  lemma {:induction false} WalkedPathsDistinct(node: Node, p: CString, depth: nat, i: nat)
    requires WellFormed(node)
    ensures DistinctPaths(Below(node, p, depth, i))
    decreases node, if node.Dir? && i <= |node.entries| then |node.entries| - i else 0
  {
    hide Join, Under, DistinctPaths;
    if node.Dir? && i < |node.entries| {
      var e := node.entries[i];
      WalkedPathsDistinct(e.node, Join(p, e.name), depth + 1, 0);
      WalkedPathsDistinct(node, p, depth, i + 1);
      OneMoreDistinct(node, p, depth, i);
    } else {
      assert Below(node, p, depth, i) == [];
      NoneDistinct();
    }
  }

  lemma NoneDistinct()
    ensures DistinctPaths([])
  {
  }

  lemma OneDistinct(w: Visit)
    ensures DistinctPaths([w])
  {
  }

  lemma OneMoreDistinct(node: Node, p: CString, depth: nat, i: nat)
    requires node.Dir? && i < |node.entries|
    requires forall j, k :: 0 <= j < k < |node.entries| ==> node.entries[j].name != node.entries[k].name
    requires DistinctPaths(Walk(node.entries[i].node, Join(p, node.entries[i].name), depth + 1))
    requires DistinctPaths(Below(node, p, depth, i + 1))
    ensures DistinctPaths(Below(node, p, depth, i))
  {
    hide Join, Under, DistinctPaths, Below, Walk;
    var e := node.entries[i];
    var q := Join(p, e.name);
    var own := Visit(q, e.name, e.node, depth);
    var inner, rest := Walk(e.node, q, depth + 1), Below(node, p, depth, i + 1);
    BelowStep(node, p, depth, i);
    OneDistinct(own);
    OwnPathApart(e, p, depth);
    DistinctConcat([own], inner);
    EntryUnder(e, p, depth);
    LaterEntriesApart(node, p, depth, i + 1, e.name);
    DistinctConcat([own] + inner, rest);
  }

  lemma OwnPathApart(e: Entry, p: CString, depth: nat)
    ensures var q := Join(p, e.name);
            forall w :: w in Walk(e.node, q, depth + 1) ==> w.path != q
  {
    hide Join, Below;
    var q := Join(p, e.name);
    JoinedEndsInName(p, e.name);
    BelowIsUnder(e.node, q, depth + 1, 0);
    forall w | w in Walk(e.node, q, depth + 1) ensures w.path != q {
      assert q + "/" <= w.path;
      assert |w.path| > |q|;
    }
  }
}
