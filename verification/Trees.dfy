/** Finite directory trees: what the walkers are supposed to report, and how a volume shows a tree. */
module Trees {
  import opened Bytes
  import opened Volumes

  /** The name of a directory entry. */
  type Name = s: CString | s != "" && ':' !in s && '/' !in s witness "x"

  datatype Node = File(size: LONG) | Dir(entries: seq<Entry>)

  datatype Entry = Entry(name: Name, node: Node)

  /** An object met in a walk: its full path, its name, and the depth of the directory listing it. */
  datatype Visit = Visit(path: CString, name: Name, node: Node, depth: nat)

  /** Everything below a directory from its i-th entry on, in the order a recursive walk meets it. */
  ghost function Below(node: Node, p: CString, depth: nat, i: nat): seq<Visit>
    decreases node, if node.Dir? && i <= |node.entries| then |node.entries| - i else 0
  {
    if node.File? || i >= |node.entries| then []
    else
      var e := node.entries[i];
      var q := Join(p, e.name);
      [Visit(q, e.name, e.node, depth)] + Below(e.node, q, depth + 1, 0) + Below(node, p, depth, i + 1)
  }

  /** The whole walk below a node. */
  ghost function Walk(node: Node, p: CString, depth: nat): seq<Visit> {
    Below(node, p, depth, 0)
  }

  lemma BelowStep(node: Node, p: CString, depth: nat, i: nat)
    requires node.Dir? && i < |node.entries|
    ensures var e := node.entries[i]; var q := Join(p, e.name);
            Below(node, p, depth, i)
            == [Visit(q, e.name, e.node, depth)] + Walk(e.node, q, depth + 1) + Below(node, p, depth, i + 1)
  {
  }

  // ------------------------------------------------------------ true totals

  /** Files, directories and bytes among some visited objects. */
  datatype Total = Total(files: nat, dirs: nat, bytes: nat)
  {
    function Plus(t: Total): Total {
      Total(files + t.files, dirs + t.dirs, bytes + t.bytes)
    }
  }

  const EMPTY := Total(0, 0, 0)

  ghost function OwnTotal(node: Node): Total {
    if node.Dir? then Total(0, 1, 0) else Total(1, 0, if node.size > 0 then node.size else 0)
  }

  ghost function Sum(visits: seq<Visit>): Total {
    if visits == [] then EMPTY else OwnTotal(visits[0].node).Plus(Sum(visits[1..]))
  }

  lemma SumCons(w: Visit, rest: seq<Visit>)
    ensures Sum([w] + rest) == OwnTotal(w.node).Plus(Sum(rest))
  {
    hide OwnTotal;
    assert ([w] + rest)[1..] == rest;
  }

  lemma {:induction false} SumConcat(a: seq<Visit>, b: seq<Visit>)
    ensures Sum(a + b) == Sum(a).Plus(Sum(b))
    decreases |a|
  {
    hide Sum, OwnTotal;
    if a == [] {
      SumNone();
      assert a + b == b;
    } else {
      var w, rest := a[0], a[1..];
      SumConcat(rest, b);
      SumCons(w, rest);
      SumCons(w, rest + b);
      assert a == [w] + rest;
      assert a + b == [w] + (rest + b);
    }
  }

  lemma SumNone()
    ensures Sum([]) == EMPTY
  {
  }

  lemma {:induction false} SumCountsVisits(visits: seq<Visit>)
    ensures Sum(visits).files + Sum(visits).dirs == |visits|
  {
    if visits != [] { SumCountsVisits(visits[1..]); }
  }

  /** The total of a tree, the root included. */
  ghost function TrueTotal(node: Node, p: CString): Total {
    OwnTotal(node).Plus(Sum(Walk(node, p, 0)))
  }

  lemma SumStep(node: Node, p: CString, depth: nat, i: nat)
    requires node.Dir? && i < |node.entries|
    ensures var e := node.entries[i]; var q := Join(p, e.name);
            Sum(Below(node, p, depth, i))
            == OwnTotal(e.node).Plus(Sum(Walk(e.node, q, depth + 1))).Plus(Sum(Below(node, p, depth, i + 1)))
  {
    var e := node.entries[i];
    var q := Join(p, e.name);
    var head := [Visit(q, e.name, e.node, depth)];
    BelowStep(node, p, depth, i);
    SumConcat(head + Walk(e.node, q, depth + 1), Below(node, p, depth, i + 1));
    SumConcat(head, Walk(e.node, q, depth + 1));
    assert head[1..] == [];
  }

  // ------------------------------------------------------- volumes and trees

  ghost predicate Describes(info: Info, node: Node) {
    (info.entryType < 0 <==> node.File?) && (node.File? ==> info.size == node.size)
  }

  /** One listing answer agrees with an entry, or the listing fails there. */
  ghost predicate ShowsEntry(l: Listing, e: Entry) {
    match l
    case Next(name, info) => name == e.name && Describes(info, e.node)
    case Stop(code) => code != ERROR_NO_MORE_ENTRIES
  }

  /** A volume shows a tree at a path: whatever it reports is true of the tree, but any lock, any
      examination and any step of a listing may fail. */
  ghost predicate Shows(v: Volume, p: CString, node: Node)
    decreases node
  {
    && (v.examine(p).Some? ==> Describes(v.examine(p).value, node))
    && match node
       case File(_) => v.list(p, 0).Stop? && v.list(p, 0).code != ERROR_NO_MORE_ENTRIES
       case Dir(entries) =>
         && v.list(p, |entries|).Stop?
         && (forall i :: 0 <= i < |entries| ==> ShowsEntry(v.list(p, i), entries[i]))
         && (forall i :: 0 <= i < |entries| ==> Shows(v, Join(p, entries[i].name), entries[i].node))
  }

  /** A shown tree small enough for 32-bit counters. */
  ghost predicate ShowsSmall(v: Volume, p: CString, node: Node) {
    Shows(v, p, node) && |Walk(node, p, 0)| < MAX_ULONG
  }

  lemma SmallShown(v: Volume, p: CString, node: Node)
    requires ShowsSmall(v, p, node)
    ensures Shows(v, p, node) && |Walk(node, p, 0)| < MAX_ULONG
  {
  }

  lemma ShownEntry(v: Volume, p: CString, node: Node, i: nat)
    requires Shows(v, p, node) && node.Dir? && i < |node.entries|
    ensures v.list(p, i).Next? ==>
      v.list(p, i).name == node.entries[i].name && Describes(v.list(p, i).info, node.entries[i].node)
    ensures v.list(p, i).Stop? ==> v.list(p, i).code != ERROR_NO_MORE_ENTRIES
    ensures Shows(v, Join(p, node.entries[i].name), node.entries[i].node)
  {
    assert ShowsEntry(v.list(p, i), node.entries[i]);
  }

  /** A directory that can be locked, examined and listed to its end, below the entry limit. */
  ghost predicate Readable(v: Volume, p: CString, node: Node, i: nat) {
    && node.Dir? && |node.entries| < MAX_ENTRIES
    && (forall k :: i <= k < |node.entries| ==> v.list(p, k).Next?)
    && v.list(p, |node.entries|) == Stop(ERROR_NO_MORE_ENTRIES)
  }

  ghost predicate Opens(v: Volume, p: CString, node: Node) {
    v.locks(p) && v.examine(p).Some? && (node.Dir? ==> Readable(v, p, node, 0))
  }

  /** An object below the root that a walk handles without an error. */
  ghost predicate Handled(v: Volume, w: Visit) {
    Fits(w.path) && (w.node.Dir? ==> w.depth < MAX_DEPTH && Opens(v, w.path, w.node))
  }

  ghost predicate AllHandled(v: Volume, visits: seq<Visit>) {
    forall w :: w in visits ==> Handled(v, w)
  }

  /** What lies below from an entry on: the entry, what lies below it, and the rest. */
  lemma BelowMembers(node: Node, p: CString, depth: nat, i: nat)
    requires node.Dir? && i < |node.entries|
    ensures var e := node.entries[i]; var q := Join(p, e.name); var own := Visit(q, e.name, e.node, depth);
            var inner, rest := Walk(e.node, q, depth + 1), Below(node, p, depth, i + 1);
            && own in Below(node, p, depth, i)
            && (forall w :: w in Below(node, p, depth, i) <==> w == own || w in inner || w in rest)
  {
    BelowStep(node, p, depth, i);
    hide Below, Walk;
  }

  lemma HandledStep(v: Volume, node: Node, p: CString, depth: nat, i: nat)
    requires node.Dir? && i < |node.entries|
    ensures var e := node.entries[i]; var q := Join(p, e.name);
            AllHandled(v, Below(node, p, depth, i))
            <==> Handled(v, Visit(q, e.name, e.node, depth)) && AllHandled(v, Walk(e.node, q, depth + 1))
                 && AllHandled(v, Below(node, p, depth, i + 1))
  {
    hide Handled, Below, Walk;
    BelowMembers(node, p, depth, i);
  }

  lemma ReadableStep(v: Volume, p: CString, node: Node, i: nat)
    requires node.Dir? && i < |node.entries| && v.list(p, i).Next?
    ensures Readable(v, p, node, i) <==> Readable(v, p, node, i + 1)
  {
  }
}
