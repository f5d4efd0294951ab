/** Which objects a walk meets and in which order, also when directories cannot be opened or listings fail;
    and what DU, Find and Tree report then, exactly. */
module Reach {
  import opened Bytes
  import opened Trees
  import opened Volumes
  import DU = DiskUsage
  import FF = FindFiles
  import TT = TreeTool

  // ------------------------------------------------------------ what is met

  /** How much of a tree a walk sees: everything, or what a volume delivers, with or without the entry limit. */
  datatype Sight = Everything | Through(v: Volume, capped: bool)

  ghost predicate Sees(s: Sight, p: CString, i: nat) {
    s.Through? ==> (s.capped ==> i < MAX_ENTRIES) && s.v.list(p, i).Next?
  }

  ghost predicate Opened(v: Volume, p: CString) {
    v.locks(p) && v.examine(p).Some?
  }

  ghost predicate Enters(s: Sight, w: Visit) {
    s.Through? ==> w.node.Dir? && Fits(w.path) && w.depth < MAX_DEPTH && Opened(s.v, w.path)
  }

  /** The objects met below a directory from its i-th entry on. */
  ghost function Met(s: Sight, node: Node, p: CString, depth: nat, i: nat): seq<Visit>
    decreases node, if node.Dir? && i <= |node.entries| then |node.entries| - i else 0
  {
    if node.File? || i >= |node.entries| || !Sees(s, p, i) then []
    else
      var w := EntryVisit(node, p, depth, i);
      [w] + (if Enters(s, w) then Met(s, w.node, w.path, depth + 1, 0) else []) + Met(s, node, p, depth, i + 1)
  }

  ghost function EntryVisit(node: Node, p: CString, depth: nat, i: nat): (w: Visit)
    requires node.Dir? && i < |node.entries|
    ensures w.node < node && w.path == Join(p, node.entries[i].name) && w.depth == depth
    ensures w.node == node.entries[i].node && w.name == node.entries[i].name
  {
    var e := node.entries[i];
    Visit(Join(p, e.name), e.name, e.node, depth)
  }

  lemma MetStep(s: Sight, node: Node, p: CString, depth: nat, i: nat)
    requires node.Dir? && i < |node.entries| && Sees(s, p, i)
    ensures var w := EntryVisit(node, p, depth, i);
      Met(s, node, p, depth, i)
      == [w] + (if Enters(s, w) then Met(s, w.node, w.path, depth + 1, 0) else []) + Met(s, node, p, depth, i + 1)
  {
  }

  lemma MetNone(s: Sight, node: Node, p: CString, depth: nat, i: nat)
    requires node.File? || i >= |node.entries| || !Sees(s, p, i)
    ensures Met(s, node, p, depth, i) == []
  {
  }

  /** Seeing everything is the whole walk. */
  lemma {:induction false} EverythingIsMet(node: Node, p: CString, depth: nat, i: nat)
    ensures Met(Everything, node, p, depth, i) == Below(node, p, depth, i)
    decreases node, if node.Dir? && i <= |node.entries| then |node.entries| - i else 0
  {
    hide Join;
    if node.Dir? && i < |node.entries| {
      var w := EntryVisit(node, p, depth, i);
      EverythingIsMet(w.node, w.path, depth + 1, 0);
      EverythingIsMet(node, p, depth, i + 1);
    }
  }

  // --------------------------------------------------------------- addresses

  /** The object an address names: the entry to take in each directory on the way. */
  ghost predicate Exists(node: Node, a: seq<nat>) {
    a != [] ==> node.Dir? && a[0] < |node.entries| && Exists(node.entries[a[0]].node, a[1..])
  }

  ghost function VisitAt(node: Node, p: CString, depth: nat, a: seq<nat>): Visit
    requires a != [] && Exists(node, a)
    decreases |a|
  {
    var w := EntryVisit(node, p, depth, a[0]);
    if |a| == 1 then w else VisitAt(w.node, w.path, depth + 1, a[1..])
  }

  /** An object is met when every directory on the way to it is entered and delivers its entries far enough. */
  ghost predicate IsMet(s: Sight, node: Node, p: CString, depth: nat, a: seq<nat>)
    requires a != [] && Exists(node, a)
    decreases |a|
  {
    && (forall m: nat :: m <= a[0] ==> Sees(s, p, m))
    && (|a| > 1 ==>
         var w := EntryVisit(node, p, depth, a[0]);
         Enters(s, w) && IsMet(s, w.node, w.path, depth + 1, a[1..]))
  }

  /** The order of a recursive walk: directories before what they contain, entries as they are listed. */
  ghost predicate Before(a: seq<nat>, b: seq<nat>)
    decreases |a|
  {
    b != [] && (a == [] || a[0] < b[0] || (a[0] == b[0] && Before(a[1..], b[1..])))
  }

  /** The addresses of the objects met, one for one and in order. */
  ghost predicate Locates(s: Sight, node: Node, p: CString, depth: nat, i: nat, at: seq<seq<nat>>, met: seq<Visit>) {
    && |at| == |met|
    && (forall k :: 0 <= k < |at| ==> IsPlace(s, node, p, depth, i, at[k]) && VisitAt(node, p, depth, at[k]) == met[k])
    && (forall j, k :: 0 <= j < k < |at| ==> Before(at[j], at[k]))
    && (forall a :: IsPlace(s, node, p, depth, i, a) ==> a in at)
  }

  ghost predicate IsPlace(s: Sight, node: Node, p: CString, depth: nat, i: nat, a: seq<nat>) {
    a != [] && a[0] >= i && Exists(node, a) && IsMet(s, node, p, depth, a)
  }

  ghost function Prefixed(i: nat, at: seq<seq<nat>>): (r: seq<seq<nat>>)
    ensures |r| == |at| && forall k :: 0 <= k < |at| ==> r[k] == [i] + at[k]
  {
    seq(|at|, k requires 0 <= k < |at| => [i] + at[k])
  }

  /** The objects met are exactly those at the addresses that can be reached, in the order of the walk. */
  lemma {:induction false} MetInOrder(s: Sight, node: Node, p: CString, depth: nat, i: nat) returns (at: seq<seq<nat>>)
    requires forall m: nat :: m < i ==> Sees(s, p, m)
    ensures Locates(s, node, p, depth, i, at, Met(s, node, p, depth, i))
    decreases node, if node.Dir? && i <= |node.entries| then |node.entries| - i else 0
  {
    hide *;
    if node.Dir? && i < |node.entries| && Sees(s, p, i) {
      var w := EntryVisit(node, p, depth, i);
      var inner: seq<seq<nat>> := [];
      if Enters(s, w) { inner := MetInOrder(s, w.node, w.path, depth + 1, 0); }
      var later := MetInOrder(s, node, p, depth, i + 1);
      MetStep(s, node, p, depth, i);
      at := Joined(i, inner, later);
      MakeParts(s, node, p, depth, i, inner, later);
      PlacesJoin(s, node, p, depth, i, inner, later);
    } else {
      at := [];
      MetNone(s, node, p, depth, i);
      NoPlace(s, node, p, depth, i);
    }
  }

  lemma MakeParts(s: Sight, node: Node, p: CString, depth: nat, i: nat, inner: seq<seq<nat>>, later: seq<seq<nat>>)
    requires node.Dir? && i < |node.entries| && (forall m: nat :: m < i ==> Sees(s, p, m)) && Sees(s, p, i)
    requires var w := EntryVisit(node, p, depth, i);
      if Enters(s, w) then Locates(s, w.node, w.path, depth + 1, 0, inner, Met(s, w.node, w.path, depth + 1, 0))
      else inner == []
    requires Locates(s, node, p, depth, i + 1, later, Met(s, node, p, depth, i + 1))
    ensures Parts(s, node, p, depth, i, inner, later)
  {
    hide Sees, Enters, EntryVisit, Met, Locates;
  }

  lemma NoPlace(s: Sight, node: Node, p: CString, depth: nat, i: nat)
    requires node.File? || i >= |node.entries| || !Sees(s, p, i)
    ensures Locates(s, node, p, depth, i, [], [])
  {
    hide Sees;
  }

  /** The address of entry i itself. */
  lemma PlaceOfEntry(s: Sight, node: Node, p: CString, depth: nat, i: nat)
    requires node.Dir? && i < |node.entries| && (forall m: nat :: m <= i ==> Sees(s, p, m))
    ensures IsPlace(s, node, p, depth, i, [i]) && VisitAt(node, p, depth, [i]) == EntryVisit(node, p, depth, i)
  {
    hide Sees, Enters, EntryVisit;
    var a := [i];
    assert a[1..] == [] && Exists(node.entries[i].node, []);
  }

  /** An address through entry i, seen from the directory and from the entry. */
  lemma PlaceBelow(s: Sight, node: Node, p: CString, depth: nat, i: nat, b: seq<nat>)
    requires node.Dir? && i < |node.entries| && (forall m: nat :: m <= i ==> Sees(s, p, m)) && b != []
    ensures var w := EntryVisit(node, p, depth, i);
      && (IsPlace(s, node, p, depth, i, [i] + b) <==> Enters(s, w) && IsPlace(s, w.node, w.path, depth + 1, 0, b))
      && (IsPlace(s, node, p, depth, i, [i] + b) ==>
           VisitAt(node, p, depth, [i] + b) == VisitAt(w.node, w.path, depth + 1, b))
  {
    hide Sees, Enters, EntryVisit;
    var a := [i] + b;
    var w := EntryVisit(node, p, depth, i);
    assert a[0] == i && a[1..] == b && w.node == node.entries[i].node;
    assert Exists(node, a) <==> Exists(w.node, b);
    if Exists(node, a) {
      assert IsMet(s, node, p, depth, a) <==> Enters(s, w) && IsMet(s, w.node, w.path, depth + 1, b);
      assert VisitAt(node, p, depth, a) == VisitAt(w.node, w.path, depth + 1, b);
    }
  }

  /** An address leads through entry i or through a later one. */
  lemma PlaceSplit(s: Sight, node: Node, p: CString, depth: nat, i: nat, a: seq<nat>)
    requires IsPlace(s, node, p, depth, i, a)
    ensures a == [i] || (a[0] == i && a == [i] + a[1..] && a[1..] != []) || IsPlace(s, node, p, depth, i + 1, a)
  {
    if a[0] == i { assert a == [i] + a[1..]; }
  }

  lemma PlaceLater(s: Sight, node: Node, p: CString, depth: nat, i: nat, a: seq<nat>)
    requires IsPlace(s, node, p, depth, i + 1, a)
    ensures IsPlace(s, node, p, depth, i, a) && a[0] > i
  {
  }

  lemma BeforeCases(i: nat, b: seq<nat>, c: seq<nat>, a: seq<nat>)
    ensures c != [] ==> Before([i], [i] + c)
    ensures Before(b, c) ==> Before([i] + b, [i] + c)
    ensures a != [] && a[0] > i ==> Before([i] + b, a) && Before([i], a)
  {
    assert ([i] + b)[1..] == b && ([i] + c)[1..] == c && [i][1..] == [];
  }

  /** The addresses below entry i and those through the later entries. */
  ghost predicate Parts(s: Sight, node: Node, p: CString, depth: nat, i: nat, inner: seq<seq<nat>>, later: seq<seq<nat>>) {
    && node.Dir? && i < |node.entries| && (forall m: nat :: m <= i ==> Sees(s, p, m))
    && (var w := EntryVisit(node, p, depth, i);
        if Enters(s, w) then Locates(s, w.node, w.path, depth + 1, 0, inner, Met(s, w.node, w.path, depth + 1, 0))
        else inner == [])
    && Locates(s, node, p, depth, i + 1, later, Met(s, node, p, depth, i + 1))
  }

  ghost function Joined(i: nat, inner: seq<seq<nat>>, later: seq<seq<nat>>): (at: seq<seq<nat>>)
    ensures |at| == 1 + |inner| + |later| && at[0] == [i]
    ensures forall k :: 0 <= k < |inner| ==> at[1 + k] == [i] + inner[k]
    ensures forall k :: 0 <= k < |later| ==> at[1 + |inner| + k] == later[k]
  {
    [[i]] + Prefixed(i, inner) + later
  }

  lemma PlacesJoin(s: Sight, node: Node, p: CString, depth: nat, i: nat, inner: seq<seq<nat>>, later: seq<seq<nat>>)
    requires Parts(s, node, p, depth, i, inner, later)
    ensures var w := EntryVisit(node, p, depth, i);
      Locates(s, node, p, depth, i, Joined(i, inner, later),
              [w] + (if Enters(s, w) then Met(s, w.node, w.path, depth + 1, 0) else []) + Met(s, node, p, depth, i + 1))
  {
    hide Sees, Enters, EntryVisit, Met, VisitAt, Exists, IsMet, Before, Joined;
    PlacesMatch(s, node, p, depth, i, inner, later);
    PlacesOrdered(s, node, p, depth, i, inner, later);
    PlacesComplete(s, node, p, depth, i, inner, later);
  }

  lemma PlacesMatch(s: Sight, node: Node, p: CString, depth: nat, i: nat, inner: seq<seq<nat>>, later: seq<seq<nat>>)
    requires Parts(s, node, p, depth, i, inner, later)
    ensures var w := EntryVisit(node, p, depth, i);
      var met := [w] + (if Enters(s, w) then Met(s, w.node, w.path, depth + 1, 0) else []) + Met(s, node, p, depth, i + 1);
      var at := Joined(i, inner, later);
      |at| == |met| && forall k :: 0 <= k < |at| ==>
        IsPlace(s, node, p, depth, i, at[k]) && VisitAt(node, p, depth, at[k]) == met[k]
  {
    hide Sees, Enters, EntryVisit, Met, VisitAt, Exists, IsMet, Before, Joined, Parts, Locates;
    PartLengths(s, node, p, depth, i, inner, later);
    var w := EntryVisit(node, p, depth, i);
    var below := if Enters(s, w) then Met(s, w.node, w.path, depth + 1, 0) else [];
    var rest := Met(s, node, p, depth, i + 1);
    var at, met := Joined(i, inner, later), [w] + below + rest;
    forall k | 0 <= k < |at|
      ensures IsPlace(s, node, p, depth, i, at[k]) && VisitAt(node, p, depth, at[k]) == met[k]
    {
      if k == 0 {
        PlaceOfEntry(s, node, p, depth, i);
      } else if k <= |inner| {
        InnerMatches(s, node, p, depth, i, inner, later, k - 1);
        assert met[k] == below[k - 1];
      } else {
        LaterMatches(s, node, p, depth, i, inner, later, k - 1 - |inner|);
        assert at[k] == later[k - 1 - |inner|] && met[k] == rest[k - 1 - |inner|];
      }
    }
  }

  lemma PartLengths(s: Sight, node: Node, p: CString, depth: nat, i: nat, inner: seq<seq<nat>>, later: seq<seq<nat>>)
    requires Parts(s, node, p, depth, i, inner, later)
    ensures node.Dir? && i < |node.entries| && (forall m: nat :: m <= i ==> Sees(s, p, m))
    ensures var w := EntryVisit(node, p, depth, i);
      |inner| == |if Enters(s, w) then Met(s, w.node, w.path, depth + 1, 0) else []|
      && |later| == |Met(s, node, p, depth, i + 1)|
  {
    hide Sees, Enters, EntryVisit, Met;
  }

  lemma InnerMatches(s: Sight, node: Node, p: CString, depth: nat, i: nat, inner: seq<seq<nat>>, later: seq<seq<nat>>, k: nat)
    requires Parts(s, node, p, depth, i, inner, later) && k < |inner|
    ensures var w := EntryVisit(node, p, depth, i);
      && IsPlace(s, node, p, depth, i, [i] + inner[k])
      && Enters(s, w) && k < |Met(s, w.node, w.path, depth + 1, 0)|
      && VisitAt(node, p, depth, [i] + inner[k]) == Met(s, w.node, w.path, depth + 1, 0)[k]
  {
    hide Sees, Enters, EntryVisit, Met, VisitAt, Exists, IsMet, Before;
    InnerPlace(s, node, p, depth, i, inner[k]);
  }

  lemma LaterMatches(s: Sight, node: Node, p: CString, depth: nat, i: nat, inner: seq<seq<nat>>, later: seq<seq<nat>>, k: nat)
    requires Parts(s, node, p, depth, i, inner, later) && k < |later|
    ensures IsPlace(s, node, p, depth, i, later[k]) && k < |Met(s, node, p, depth, i + 1)|
    ensures VisitAt(node, p, depth, later[k]) == Met(s, node, p, depth, i + 1)[k]
  {
    hide Sees, Enters, EntryVisit, Met, VisitAt, Exists, IsMet, Before;
    PlaceLater(s, node, p, depth, i, later[k]);
  }

  lemma PlacesOrdered(s: Sight, node: Node, p: CString, depth: nat, i: nat, inner: seq<seq<nat>>, later: seq<seq<nat>>)
    requires Parts(s, node, p, depth, i, inner, later)
    ensures var at := Joined(i, inner, later); forall j, k :: 0 <= j < k < |at| ==> Before(at[j], at[k])
  {
    hide Sees, Enters, EntryVisit, Met, VisitAt, Exists, IsMet, Before, Joined;
    var at, n := Joined(i, inner, later), |inner|;
    forall j, k | 0 <= j < k < |at| ensures Before(at[j], at[k]) {
      if k > n {
        assert at[k] == later[k - 1 - n];
        if j > n { assert at[j] == later[j - 1 - n]; }
        else if j > 0 { BeforeCases(i, inner[j - 1], [], at[k]); }
        else { BeforeCases(i, [], [], at[k]); }
      } else if j > 0 {
        BeforeCases(i, inner[j - 1], inner[k - 1], []);
      } else {
        BeforeCases(i, [], inner[k - 1], []);
      }
    }
  }

  lemma PlacesComplete(s: Sight, node: Node, p: CString, depth: nat, i: nat, inner: seq<seq<nat>>, later: seq<seq<nat>>)
    requires Parts(s, node, p, depth, i, inner, later)
    ensures forall a :: IsPlace(s, node, p, depth, i, a) ==> a in Joined(i, inner, later)
  {
    hide Sees, Enters, EntryVisit, Met, VisitAt, Exists, IsMet, Before, Joined;
    var at, n := Joined(i, inner, later), |inner|;
    forall a | IsPlace(s, node, p, depth, i, a) ensures a in at {
      PlaceSplit(s, node, p, depth, i, a);
      if IsPlace(s, node, p, depth, i + 1, a) {
        var k :| 0 <= k < |later| && later[k] == a;
        assert at[1 + n + k] == a;
      } else if a == [i] {
        assert at[0] == a;
      } else {
        PlaceBelow(s, node, p, depth, i, a[1..]);
        var k :| 0 <= k < n && inner[k] == a[1..];
        assert at[1 + k] == a;
      }
    }
  }

  lemma InnerPlace(s: Sight, node: Node, p: CString, depth: nat, i: nat, b: seq<nat>)
    requires node.Dir? && i < |node.entries| && (forall m: nat :: m <= i ==> Sees(s, p, m))
    requires var w := EntryVisit(node, p, depth, i); Enters(s, w) && IsPlace(s, w.node, w.path, depth + 1, 0, b)
    ensures b != [] && IsPlace(s, node, p, depth, i, [i] + b)
    ensures var w := EntryVisit(node, p, depth, i);
      VisitAt(node, p, depth, [i] + b) == VisitAt(w.node, w.path, depth + 1, b)
  {
    hide Sees, Enters, EntryVisit, VisitAt, Exists, IsMet;
    PlaceBelow(s, node, p, depth, i, b);
  }

  // -------------------------------------------------- what DU counts, exactly

  /** How a listing ends: an error unless it is complete, below the entry limit. */
  ghost function EndTally(v: Volume, p: CString, node: Node, i: nat): DU.Tally {
    if Readable(v, p, node, i) then DU.Tally(0, 0, 0, 0) else DU.Tally(0, 0, 1, 0)
  }

  /** What DU counts for one object it meets. */
  ghost function Counted(v: Volume, w: Visit): DU.Tally {
    if !Fits(w.path) then DU.Tally(0, 0, 1, 0)
    else if w.node.File? then DU.Tally(1, 0, 0, if w.node.size > 0 then w.node.size else 0)
    else if w.depth >= MAX_DEPTH || !Opened(v, w.path) then DU.Tally(0, 0, 1, 0)
    else DU.Tally(0, 1, 0, 0).Plus(EndTally(v, w.path, w.node, 0))
  }

  ghost function CountedAll(v: Volume, visits: seq<Visit>): DU.Tally {
    if visits == [] then DU.NOTHING else Counted(v, visits[0]).Plus(CountedAll(v, visits[1..]))
  }

  lemma CountedNone(v: Volume)
    ensures CountedAll(v, []) == DU.Tally(0, 0, 0, 0)
  {
  }

  lemma CountedCons(v: Volume, w: Visit, rest: seq<Visit>)
    ensures CountedAll(v, [w] + rest) == Counted(v, w).Plus(CountedAll(v, rest))
  {
    hide Counted;
    assert ([w] + rest)[1..] == rest;
  }

  lemma {:induction false} CountedConcat(v: Volume, a: seq<Visit>, b: seq<Visit>)
    ensures CountedAll(v, a + b) == CountedAll(v, a).Plus(CountedAll(v, b))
    decreases |a|
  {
    hide CountedAll, Counted;
    CountedNone(v);
    if a == [] {
      assert a + b == b;
    } else {
      var w, rest := a[0], a[1..];
      CountedConcat(v, rest, b);
      CountedCons(v, w, rest);
      CountedCons(v, w, rest + b);
      assert a == [w] + rest;
      assert a + b == [w] + (rest + b);
    }
  }

  /** The objects met below an entry, when its directory is entered. */
  ghost function MetBelow(s: Sight, w: Visit): seq<Visit> {
    if Enters(s, w) then Met(s, w.node, w.path, w.depth + 1, 0) else []
  }

  lemma CountedStep(v: Volume, node: Node, p: CString, depth: nat, i: nat)
    requires node.Dir? && i < |node.entries| && i < MAX_ENTRIES && v.list(p, i).Next?
    ensures var s, w := Through(v, true), EntryVisit(node, p, depth, i);
      CountedAll(v, Met(s, node, p, depth, i))
      == Counted(v, w).Plus(CountedAll(v, MetBelow(s, w))).Plus(CountedAll(v, Met(s, node, p, depth, i + 1)))
  {
    hide CountedAll, Counted, Met, EntryVisit, Enters;
    var s, w := Through(v, true), EntryVisit(node, p, depth, i);
    MetStep(s, node, p, depth, i);
    CountedConcat(v, [w] + MetBelow(s, w), Met(s, node, p, depth, i + 1));
    CountedCons(v, w, MetBelow(s, w));
  }

  /** What DU adds for a path that names an object. */
  ghost function Rooted(v: Volume, p: CString, node: Node, depth: nat): DU.Tally {
    if !Opened(v, p) then DU.Tally(0, 0, 1, 0)
    else if node.File? then DU.Tally(1, 0, 0, if node.size > 0 then node.size else 0)
    else DU.Tally(0, 1, 0, 0).Plus(CountedAll(v, Met(Through(v, true), node, p, depth, 0)).Plus(EndTally(v, p, node, 0)))
  }

  lemma {:induction false} ScanCounts(v: Volume, p: CString, node: Node, depth: nat)
    requires Shows(v, p, node) && depth <= MAX_DEPTH
    ensures DU.Scan(v, p, depth) == Rooted(v, p, node, depth)
    decreases node, 1
  {
    hide DU.Scan, DU.ScanFrom, DU.Tally.Plus, Shows, Met, CountedAll, EndTally, Readable;
    ShownKind(v, p, node);
    DU.UnfoldScan(v, p, depth);
    if node.Dir? { FromCounts(v, p, node, depth, 0); }
  }

  lemma ShownKind(v: Volume, p: CString, node: Node)
    requires Shows(v, p, node)
    ensures v.examine(p).Some? ==> Describes(v.examine(p).value, node)
    ensures node.Dir? ==> v.list(p, |node.entries|).Stop?
  {
  }

  lemma {:induction false} EntryCounts(v: Volume, p: CString, node: Node, depth: nat, i: nat)
    requires node.Dir? && i < |node.entries| && depth <= MAX_DEPTH && v.list(p, i).Next?
    requires Shows(v, Join(p, node.entries[i].name), node.entries[i].node)
    requires v.list(p, i).name == node.entries[i].name && Describes(v.list(p, i).info, node.entries[i].node)
    ensures var w := EntryVisit(node, p, depth, i);
      DU.EntryTally(v, p, depth, v.list(p, i).name, v.list(p, i).info)
      == Counted(v, w).Plus(CountedAll(v, MetBelow(Through(v, true), w)))
    decreases node, 0, 0
  {
    hide DU.Scan, Shows, Join, Fits, Met, CountedAll, EndTally, EntryVisit;
    var w := EntryVisit(node, p, depth, i);
    CountedNone(v);
    if Fits(w.path) && w.node.Dir? && depth < MAX_DEPTH { ScanCounts(v, w.path, w.node, depth + 1); }
  }

  lemma {:induction false} FromCounts(v: Volume, p: CString, node: Node, depth: nat, i: nat)
    requires Shows(v, p, node) && node.Dir? && depth <= MAX_DEPTH && i <= |node.entries| && i <= MAX_ENTRIES
    ensures DU.ScanFrom(v, p, depth, i)
         == CountedAll(v, Met(Through(v, true), node, p, depth, i)).Plus(EndTally(v, p, node, i))
    decreases node, 0, 1 + MAX_ENTRIES - i
  {
    hide *;
    if i < MAX_ENTRIES && i < |node.entries| && v.list(p, i).Next? {
      ShownEntry(v, p, node, i);
      EntryCounts(v, p, node, depth, i);
      FromCounts(v, p, node, depth, i + 1);
      AddCounts(v, p, node, depth, i);
    } else {
      EndCounts(v, p, node, depth, i);
    }
  }

  lemma AddCounts(v: Volume, p: CString, node: Node, depth: nat, i: nat)
    requires node.Dir? && depth <= MAX_DEPTH && i < |node.entries| && i < MAX_ENTRIES && v.list(p, i).Next?
    requires var w := EntryVisit(node, p, depth, i);
      DU.EntryTally(v, p, depth, v.list(p, i).name, v.list(p, i).info)
      == Counted(v, w).Plus(CountedAll(v, MetBelow(Through(v, true), w)))
    requires DU.ScanFrom(v, p, depth, i + 1)
         == CountedAll(v, Met(Through(v, true), node, p, depth, i + 1)).Plus(EndTally(v, p, node, i + 1))
    ensures DU.ScanFrom(v, p, depth, i)
         == CountedAll(v, Met(Through(v, true), node, p, depth, i)).Plus(EndTally(v, p, node, i))
  {
    hide DU.ScanFrom, DU.EntryTally, Met, MetBelow, Counted, CountedAll, EntryVisit, Readable;
    DU.Unfold(v, p, depth, i);
    CountedStep(v, node, p, depth, i);
    ReadableStep(v, p, node, i);
  }

  /** A listing that does not go on is complete exactly when it ended there. */
  lemma EndReadable(v: Volume, p: CString, node: Node, i: nat)
    requires Shows(v, p, node) && node.Dir? && i <= |node.entries| && i <= MAX_ENTRIES
    requires i == MAX_ENTRIES || i == |node.entries| || v.list(p, i).Stop?
    ensures i == MAX_ENTRIES || v.list(p, i).Stop?
    ensures Readable(v, p, node, i) <==> i < MAX_ENTRIES && v.list(p, i) == Stop(ERROR_NO_MORE_ENTRIES)
  {
    hide Shows;
    ShownKind(v, p, node);
    if i < |node.entries| { ShownEntry(v, p, node, i); }
  }

  lemma EndCounts(v: Volume, p: CString, node: Node, depth: nat, i: nat)
    requires Shows(v, p, node) && node.Dir? && depth <= MAX_DEPTH && i <= |node.entries| && i <= MAX_ENTRIES
    requires i == MAX_ENTRIES || i == |node.entries| || v.list(p, i).Stop?
    ensures DU.ScanFrom(v, p, depth, i)
         == CountedAll(v, Met(Through(v, true), node, p, depth, i)).Plus(EndTally(v, p, node, i))
  {
    hide *;
    EndReadable(v, p, node, i);
    DU.Unfold(v, p, depth, i);
    NotSeen(v, p, i);
    MetNone(Through(v, true), node, p, depth, i);
    CountedNone(v);
    EndTallyIs(v, p, node, i);
    PlusNothing(EndTally(v, p, node, i));
  }

  lemma NotSeen(v: Volume, p: CString, i: nat)
    requires i == MAX_ENTRIES || v.list(p, i).Stop?
    ensures !Sees(Through(v, true), p, i)
  {
  }

  lemma EndTallyIs(v: Volume, p: CString, node: Node, i: nat)
    ensures EndTally(v, p, node, i) == if Readable(v, p, node, i) then DU.NOTHING else DU.ERROR
  {
  }

  lemma PlusNothing(t: DU.Tally)
    ensures DU.Tally(0, 0, 0, 0).Plus(t) == t
  {
  }

  // ------------------------------------------------ what Find prints, exactly

  /** What Find does with one object it meets. */
  ghost function Printed(v: Volume, needle: CString, w: Visit): FF.Found {
    FF.Found(if Fits(w.path) && FF.Contains(w.name, needle) then [w.path] else [], Counted(v, w).errors)
  }

  ghost function PrintedAll(v: Volume, needle: CString, visits: seq<Visit>): FF.Found {
    if visits == [] then FF.NOTHING else Printed(v, needle, visits[0]).Plus(PrintedAll(v, needle, visits[1..]))
  }

  lemma PrintedNone(v: Volume, needle: CString)
    ensures PrintedAll(v, needle, []) == FF.NOTHING == FF.Found([], 0)
  {
  }

  lemma PrintedCons(v: Volume, needle: CString, w: Visit, rest: seq<Visit>)
    ensures PrintedAll(v, needle, [w] + rest) == Printed(v, needle, w).Plus(PrintedAll(v, needle, rest))
  {
    hide Printed;
    assert ([w] + rest)[1..] == rest;
  }

  lemma {:induction false} PrintedConcat(v: Volume, needle: CString, a: seq<Visit>, b: seq<Visit>)
    ensures PrintedAll(v, needle, a + b) == PrintedAll(v, needle, a).Plus(PrintedAll(v, needle, b))
    decreases |a|
  {
    hide PrintedAll, Printed, FF.Found.Plus;
    PrintedNone(v, needle);
    if a == [] {
      FF.PlusAssoc(PrintedAll(v, needle, b), FF.NOTHING, FF.NOTHING);
      assert a + b == b;
    } else {
      var w, rest := a[0], a[1..];
      PrintedConcat(v, needle, rest, b);
      PrintedCons(v, needle, w, rest);
      PrintedCons(v, needle, w, rest + b);
      FF.PlusAssoc(Printed(v, needle, w), PrintedAll(v, needle, rest), PrintedAll(v, needle, b));
      assert a == [w] + rest;
      assert a + b == [w] + (rest + b);
    }
  }

  /** On a directory, Find prints the matching ones among the objects met, in order, and counts the errors DU counts. */
  ghost function SearchResult(v: Volume, p: CString, needle: CString, node: Node, depth: nat): FF.Found {
    if node.File? || !Opened(v, p) then FF.Found([], 1)
    else PrintedAll(v, needle, Met(Through(v, true), node, p, depth, 0)).Plus(EndFound(v, p, node, 0))
  }

  ghost function EndFound(v: Volume, p: CString, node: Node, i: nat): FF.Found {
    FF.Found([], EndTally(v, p, node, i).errors)
  }

  lemma {:induction false} SearchPrints(v: Volume, p: CString, needle: CString, node: Node, depth: nat)
    requires Shows(v, p, node) && depth <= MAX_DEPTH
    ensures FF.Scan(v, p, needle, depth) == SearchResult(v, p, needle, node, depth)
    decreases node, 1
  {
    hide FF.Scan, FF.ScanFrom, FF.Found.Plus, Shows, Met, PrintedAll, EndFound;
    FF.UnfoldScan(v, p, needle, depth);
    if node.Dir? { SearchFrom(v, p, needle, node, depth, 0); } else { FileListing(v, p, needle, node, depth); }
  }

  lemma FileListing(v: Volume, p: CString, needle: CString, node: Node, depth: nat)
    requires Shows(v, p, node) && node.File? && depth <= MAX_DEPTH
    ensures FF.ScanFrom(v, p, needle, depth, 0) == FF.Found([], 1)
  {
    FF.Unfold(v, p, needle, depth, 0);
  }

  lemma {:induction false} EntryPrints(v: Volume, p: CString, needle: CString, node: Node, depth: nat, i: nat)
    requires node.Dir? && i < |node.entries| && depth <= MAX_DEPTH && v.list(p, i).Next?
    requires Shows(v, Join(p, node.entries[i].name), node.entries[i].node)
    requires v.list(p, i).name == node.entries[i].name && Describes(v.list(p, i).info, node.entries[i].node)
    ensures var w := EntryVisit(node, p, depth, i);
      FF.EntryFound(v, p, needle, depth, v.list(p, i).name, v.list(p, i).info)
      == Printed(v, needle, w).Plus(PrintedAll(v, needle, MetBelow(Through(v, true), w)))
    decreases node, 0, 0
  {
    hide *;
    var w := EntryVisit(node, p, depth, i);
    VisitIs(node, p, depth, i);
    if Fits(w.path) && w.node.Dir? && depth < MAX_DEPTH { SearchPrints(v, w.path, needle, w.node, depth + 1); }
    EntryFoundIs(v, p, needle, w, v.list(p, i).info);
  }

  lemma VisitIs(node: Node, p: CString, depth: nat, i: nat)
    requires node.Dir? && i < |node.entries|
    ensures var w := EntryVisit(node, p, depth, i);
      w == Visit(Join(p, node.entries[i].name), node.entries[i].name, node.entries[i].node, depth)
  {
    hide Join;
  }

  lemma EntryFoundIs(v: Volume, p: CString, needle: CString, w: Visit, info: Info)
    requires w.depth <= MAX_DEPTH && w.path == Join(p, w.name) && Describes(info, w.node)
    requires Fits(w.path) && w.node.Dir? && w.depth < MAX_DEPTH ==>
      FF.Scan(v, w.path, needle, w.depth + 1) == SearchResult(v, w.path, needle, w.node, w.depth + 1)
    ensures FF.EntryFound(v, p, needle, w.depth, w.name, info)
         == Printed(v, needle, w).Plus(PrintedAll(v, needle, MetBelow(Through(v, true), w)))
  {
    hide FF.Scan, FF.EntryFound, FF.Found.Plus, FF.OwnLine, Join, Fits, Met, PrintedAll, EndFound, SearchResult, Opened,
      Printed, MetBelow;
    FF.UnfoldEntry(v, p, needle, w.depth, w.name, info);
    PrintedNone(v, needle);
    PrintedIs(v, needle, w);
    BelowIs(v, true, w);
    var own := FF.OwnLine(w.path, w.name, needle);
    EndMoves(own, FF.NOTHING, 0);
    EndMoves(own, FF.NOTHING, 1);
    FF.PlusAssoc(FF.ERROR, FF.NOTHING, FF.NOTHING);
    if Fits(w.path) && w.node.Dir? && w.depth < MAX_DEPTH {
      ResultIs(v, w.path, needle, w.node, w.depth + 1);
      EndMoves(own, PrintedAll(v, needle, Met(Through(v, true), w.node, w.path, w.depth + 1, 0)),
               EndTally(v, w.path, w.node, 0).errors);
    }
  }

  lemma ResultIs(v: Volume, p: CString, needle: CString, node: Node, depth: nat)
    requires node.Dir?
    ensures SearchResult(v, p, needle, node, depth)
         == if !Opened(v, p) then FF.ERROR
            else PrintedAll(v, needle, Met(Through(v, true), node, p, depth, 0)).Plus(
              FF.Found([], EndTally(v, p, node, 0).errors))
  {
    hide Opened, PrintedAll, Met, EndTally, FF.Found.Plus;
  }

  /** The errors of an entry do not depend on where in its lines they are added. */
  lemma EndMoves(own: seq<CString>, f: FF.Found, e: nat)
    ensures FF.Found(own, 0).Plus(f.Plus(FF.Found([], e))) == FF.Found(own, e).Plus(f)
    ensures f == FF.NOTHING ==> f.Plus(FF.Found([], e)) == FF.Found([], e)
    ensures FF.Found([], 0) == FF.NOTHING && FF.Found([], 1) == FF.ERROR
  {
    assert f.lines + [] == f.lines;
  }

  lemma PrintedIs(v: Volume, needle: CString, w: Visit)
    ensures !Fits(w.path) ==> Printed(v, needle, w) == FF.ERROR
    ensures Fits(w.path) ==> Printed(v, needle, w) == FF.Found(FF.OwnLine(w.path, w.name, needle),
      if w.node.File? then 0 else if w.depth >= MAX_DEPTH || !Opened(v, w.path) then 1
      else EndTally(v, w.path, w.node, 0).errors)
  {
    hide Opened, FF.Contains, Readable;
  }

  lemma BelowIs(v: Volume, capped: bool, w: Visit)
    ensures MetBelow(Through(v, capped), w)
         == if w.node.Dir? && Fits(w.path) && w.depth < MAX_DEPTH && Opened(v, w.path)
            then Met(Through(v, capped), w.node, w.path, w.depth + 1, 0) else []
  {
    hide Met, Opened, Fits;
  }

  lemma {:induction false} SearchFrom(v: Volume, p: CString, needle: CString, node: Node, depth: nat, i: nat)
    requires Shows(v, p, node) && node.Dir? && depth <= MAX_DEPTH && i <= |node.entries| && i <= MAX_ENTRIES
    ensures FF.ScanFrom(v, p, needle, depth, i)
         == PrintedAll(v, needle, Met(Through(v, true), node, p, depth, i)).Plus(EndFound(v, p, node, i))
    decreases node, 0, 1 + MAX_ENTRIES - i
  {
    hide *;
    if i < MAX_ENTRIES && i < |node.entries| && v.list(p, i).Next? {
      ShownEntry(v, p, node, i);
      EntryPrints(v, p, needle, node, depth, i);
      SearchFrom(v, p, needle, node, depth, i + 1);
      AddPrinted(v, p, needle, node, depth, i);
    } else {
      EndPrinted(v, p, needle, node, depth, i);
    }
  }

  lemma AddPrinted(v: Volume, p: CString, needle: CString, node: Node, depth: nat, i: nat)
    requires node.Dir? && depth <= MAX_DEPTH && i < |node.entries| && i < MAX_ENTRIES && v.list(p, i).Next?
    requires var w := EntryVisit(node, p, depth, i);
      FF.EntryFound(v, p, needle, depth, v.list(p, i).name, v.list(p, i).info)
      == Printed(v, needle, w).Plus(PrintedAll(v, needle, MetBelow(Through(v, true), w)))
    requires FF.ScanFrom(v, p, needle, depth, i + 1)
         == PrintedAll(v, needle, Met(Through(v, true), node, p, depth, i + 1)).Plus(EndFound(v, p, node, i + 1))
    ensures FF.ScanFrom(v, p, needle, depth, i)
         == PrintedAll(v, needle, Met(Through(v, true), node, p, depth, i)).Plus(EndFound(v, p, node, i))
  {
    hide FF.ScanFrom, FF.EntryFound, FF.Found.Plus, Met, Printed, PrintedAll, EntryVisit, Enters, Readable;
    var s, w := Through(v, true), EntryVisit(node, p, depth, i);
    FF.Unfold(v, p, needle, depth, i);
    ReadableStep(v, p, node, i);
    MetStep(s, node, p, depth, i);
    PrintedConcat(v, needle, [w] + MetBelow(s, w), Met(s, node, p, depth, i + 1));
    PrintedCons(v, needle, w, MetBelow(s, w));
    FF.PlusAssoc(Printed(v, needle, w).Plus(PrintedAll(v, needle, MetBelow(s, w))),
                 PrintedAll(v, needle, Met(s, node, p, depth, i + 1)), EndFound(v, p, node, i));
  }

  lemma EndPrinted(v: Volume, p: CString, needle: CString, node: Node, depth: nat, i: nat)
    requires Shows(v, p, node) && node.Dir? && depth <= MAX_DEPTH && i <= |node.entries| && i <= MAX_ENTRIES
    requires i == MAX_ENTRIES || i == |node.entries| || v.list(p, i).Stop?
    ensures FF.ScanFrom(v, p, needle, depth, i)
         == PrintedAll(v, needle, Met(Through(v, true), node, p, depth, i)).Plus(EndFound(v, p, node, i))
  {
    hide *;
    EndReadable(v, p, node, i);
    FF.Unfold(v, p, needle, depth, i);
    NotSeen(v, p, i);
    MetNone(Through(v, true), node, p, depth, i);
    PrintedNone(v, needle);
    EndFoundIs(v, p, node, i);
    FF.PlusAssoc(EndFound(v, p, node, i), FF.NOTHING, FF.NOTHING);
  }

  lemma EndFoundIs(v: Volume, p: CString, node: Node, i: nat)
    ensures EndFound(v, p, node, i) == if Readable(v, p, node, i) then FF.NOTHING else FF.ERROR
  {
  }

  lemma {:induction false} SameErrors(v: Volume, needle: CString, visits: seq<Visit>)
    ensures PrintedAll(v, needle, visits).errors == CountedAll(v, visits).errors
  {
    hide Printed, Counted;
    if visits != [] {
      SameErrors(v, needle, visits[1..]);
      PrintedErrors(v, needle, visits[0]);
    }
  }

  lemma PrintedErrors(v: Volume, needle: CString, w: Visit)
    ensures Printed(v, needle, w).errors == Counted(v, w).errors
  {
  }

  /** DU and Find count the same errors in every run on a directory, whatever Find looks for. */
  lemma ErrorsEqual(v: Volume, p: CString, needle: CString, node: Node)
    requires Shows(v, p, node) && node.Dir?
    ensures DU.Scan(v, p, 0).errors == FF.Scan(v, p, needle, 0).errors
  {
    hide DU.Scan, FF.Scan, Shows, Met, CountedAll, PrintedAll, Readable;
    ScanCounts(v, p, node, 0);
    SearchPrints(v, p, needle, node, 0);
    SameErrors(v, needle, Met(Through(v, true), node, p, 0, 0));
  }

  // ------------------------------------------------- what Tree lists, exactly

  /** What Tree does with one object it meets. */
  ghost function Listed(v: Volume, w: Visit): TT.Tally {
    var rows := [TT.Row(w.depth, w.node.Dir?, w.name)];
    if !Fits(w.path) then TT.Tally(0, 0, 1, rows)
    else if w.node.File? then TT.Tally(1, 0, 0, rows)
    else TT.Tally(0, 1, if w.depth >= MAX_DEPTH || !Opened(v, w.path) then 1 else 0, rows)
  }

  ghost function ListedAll(v: Volume, visits: seq<Visit>): TT.Tally {
    if visits == [] then TT.NOTHING else Listed(v, visits[0]).Plus(ListedAll(v, visits[1..]))
  }

  lemma ListedNone(v: Volume)
    ensures ListedAll(v, []) == TT.NOTHING == TT.Tally(0, 0, 0, [])
  {
  }

  lemma ListedCons(v: Volume, w: Visit, rest: seq<Visit>)
    ensures ListedAll(v, [w] + rest) == Listed(v, w).Plus(ListedAll(v, rest))
  {
    hide Listed;
    assert ([w] + rest)[1..] == rest;
  }

  lemma {:induction false} ListedConcat(v: Volume, a: seq<Visit>, b: seq<Visit>)
    ensures ListedAll(v, a + b) == ListedAll(v, a).Plus(ListedAll(v, b))
    decreases |a|
  {
    hide ListedAll, Listed, TT.Tally.Plus;
    ListedNone(v);
    if a == [] {
      TT.PlusAssoc(ListedAll(v, b), TT.NOTHING, TT.NOTHING);
      assert a + b == b;
    } else {
      var w, rest := a[0], a[1..];
      ListedConcat(v, rest, b);
      ListedCons(v, w, rest);
      ListedCons(v, w, rest + b);
      TT.PlusAssoc(Listed(v, w), ListedAll(v, rest), ListedAll(v, b));
      assert a == [w] + rest;
      assert a + b == [w] + (rest + b);
    }
  }

  /** On every volume that shows a tree, Tree prints exactly the objects it meets, in order, and counts them. */
  lemma {:induction false} TreeLists(v: Volume, p: CString, node: Node, depth: nat)
    requires Shows(v, p, node) && depth <= MAX_DEPTH
    ensures TT.Ends(v, p, depth)
    ensures TT.Scan(v, p, depth)
         == if Opened(v, p) then ListedAll(v, Met(Through(v, false), node, p, depth, 0)) else TT.Tally(0, 0, 1, [])
    decreases node, 1
  {
    hide TT.Ends, TT.ListingEnds, TT.Scan, TT.ScanFrom, TT.Extent, Shows, Met, ListedAll;
    TT.ShownEnds(v, p, node, depth);
    TT.UnfoldScan(v, p, depth);
    if Opened(v, p) { TreeFrom(v, p, node, depth, 0); }
  }

  lemma {:induction false} EntryLists(v: Volume, p: CString, node: Node, depth: nat, i: nat)
    requires node.Dir? && i < |node.entries| && depth <= MAX_DEPTH && v.list(p, i).Next?
    requires Shows(v, Join(p, node.entries[i].name), node.entries[i].node)
    requires v.list(p, i).name == node.entries[i].name && Describes(v.list(p, i).info, node.entries[i].node)
    requires TT.EntryEnds(v, p, depth, v.list(p, i))
    ensures var w := EntryVisit(node, p, depth, i);
      TT.EntryTally(v, p, depth, v.list(p, i)) == Listed(v, w).Plus(ListedAll(v, MetBelow(Through(v, false), w)))
    decreases node, 0, 0
  {
    hide *;
    var w := EntryVisit(node, p, depth, i);
    VisitIs(node, p, depth, i);
    if Fits(w.path) && w.node.Dir? && depth < MAX_DEPTH { TreeLists(v, w.path, w.node, depth + 1); }
    EntryListedIs(v, p, w, v.list(p, i));
  }

  lemma EntryListedIs(v: Volume, p: CString, w: Visit, l: Listing)
    requires w.depth <= MAX_DEPTH && w.path == Join(p, w.name) && w.name != []
    requires l.Next? && l.name == w.name && Describes(l.info, w.node) && TT.EntryEnds(v, p, w.depth, l)
    requires Fits(w.path) && w.node.Dir? && w.depth < MAX_DEPTH ==>
      TT.Ends(v, w.path, w.depth + 1)
      && TT.Scan(v, w.path, w.depth + 1)
         == if Opened(v, w.path) then ListedAll(v, Met(Through(v, false), w.node, w.path, w.depth + 1, 0))
            else TT.Tally(0, 0, 1, [])
    ensures TT.EntryTally(v, p, w.depth, l) == Listed(v, w).Plus(ListedAll(v, MetBelow(Through(v, false), w)))
  {
    hide TT.Ends, TT.EntryEnds, TT.Scan, TT.EntryTally, TT.Tally.Plus, TT.RowTally, Join, JoinCut, Fits, Met, MetBelow,
      Listed, ListedAll, Opened;
    VariantsAgree(p, w.name);
    TT.UnfoldEntry(v, p, w.depth, l);
    ListedNone(v);
    BelowIs(v, false, w);
    ListedIs(v, w);
    var row := TT.Row(w.depth, w.node.Dir?, w.name);
    RowFirst(row, ListedAll(v, MetBelow(Through(v, false), w)));
    TT.PlusAssoc(Listed(v, w), TT.NOTHING, TT.NOTHING);
  }

  lemma ListedIs(v: Volume, w: Visit)
    ensures Listed(v, w)
         == if !Fits(w.path) then TT.Tally(0, 0, 1, [TT.Row(w.depth, w.node.Dir?, w.name)])
            else if w.node.File? then TT.Tally(1, 0, 0, [TT.Row(w.depth, false, w.name)])
            else TT.Tally(0, 1, if w.depth >= MAX_DEPTH || !Opened(v, w.path) then 1 else 0, [TT.Row(w.depth, true, w.name)])
  {
    hide Opened, Fits;
  }

  /** A printed line and what its entry adds. */
  lemma RowFirst(row: TT.Row, t: TT.Tally)
    ensures TT.RowTally(row).Plus(TT.ERROR) == TT.Tally(0, 0, 1, [row])
    ensures TT.RowTally(row).Plus(TT.ONE_FILE) == TT.Tally(1, 0, 0, [row])
    ensures TT.RowTally(row).Plus(TT.ONE_DIR.Plus(TT.ERROR)) == TT.Tally(0, 1, 1, [row])
    ensures TT.RowTally(row).Plus(TT.ONE_DIR.Plus(t)) == TT.Tally(0, 1, 0, [row]).Plus(t)
    ensures TT.ERROR == TT.Tally(0, 0, 1, [])
  {
    hide *;
    TallyConstants();
    RowPlus(row, TT.ERROR);
    RowPlus(row, TT.ONE_FILE);
    DirPlus(TT.ERROR);
    DirPlus(t);
    RowPlus(row, TT.ONE_DIR.Plus(TT.ERROR));
    RowPlus(row, TT.ONE_DIR.Plus(t));
    DirRowPlus(row, t);
    NothingAppended([row]);
  }

  lemma TallyConstants()
    ensures TT.ERROR == TT.Tally(0, 0, 1, []) && TT.ONE_FILE == TT.Tally(1, 0, 0, []) && TT.ONE_DIR == TT.Tally(0, 1, 0, [])
  {
  }

  lemma RowPlus(row: TT.Row, t: TT.Tally)
    ensures TT.RowTally(row).Plus(t) == TT.Tally(t.files, t.dirs, t.errors, [row] + t.rows)
  {
  }

  lemma DirPlus(t: TT.Tally)
    ensures TT.ONE_DIR.Plus(t) == TT.Tally(t.files, 1 + t.dirs, t.errors, t.rows)
  {
    NothingAppended(t.rows);
  }

  lemma DirRowPlus(row: TT.Row, t: TT.Tally)
    ensures TT.Tally(0, 1, 0, [row]).Plus(t) == TT.Tally(t.files, 1 + t.dirs, t.errors, [row] + t.rows)
  {
  }

  lemma NothingAppended<T>(rows: seq<T>)
    ensures rows + [] == rows == [] + rows
  {
  }

  lemma {:induction false} TreeFrom(v: Volume, p: CString, node: Node, depth: nat, i: nat)
    requires Shows(v, p, node) && depth <= MAX_DEPTH && TT.ListingEnds(v, p, depth) && i <= TT.Extent(v, p)
    ensures TT.ScanFrom(v, p, depth, i) == ListedAll(v, Met(Through(v, false), node, p, depth, i))
    decreases node, 0, 1 + TT.Extent(v, p) - i
  {
    hide *;
    TT.ExtentShown(v, p, node);
    TT.Unfold(v, p, depth, i);
    TT.ShownListing(v, p, node, i);
    if v.list(p, i).Next? {
      EntryLists(v, p, node, depth, i);
      TreeFrom(v, p, node, depth, i + 1);
      AddListed(v, p, node, depth, i);
    } else {
      NotSeenAtAll(v, p, i);
      MetNone(Through(v, false), node, p, depth, i);
      ListedNone(v);
    }
  }

  lemma NotSeenAtAll(v: Volume, p: CString, i: nat)
    ensures Sees(Through(v, false), p, i) <==> v.list(p, i).Next?
  {
  }

  lemma AddListed(v: Volume, p: CString, node: Node, depth: nat, i: nat)
    requires node.Dir? && depth <= MAX_DEPTH && i < |node.entries| && v.list(p, i).Next?
    requires TT.ListingEnds(v, p, depth) && i < TT.Extent(v, p) && TT.EntryEnds(v, p, depth, v.list(p, i))
    requires var w := EntryVisit(node, p, depth, i);
      TT.EntryTally(v, p, depth, v.list(p, i)) == Listed(v, w).Plus(ListedAll(v, MetBelow(Through(v, false), w)))
    requires TT.ScanFrom(v, p, depth, i + 1) == ListedAll(v, Met(Through(v, false), node, p, depth, i + 1))
    ensures TT.ScanFrom(v, p, depth, i) == ListedAll(v, Met(Through(v, false), node, p, depth, i))
  {
    hide TT.ListingEnds, TT.EntryEnds, TT.Extent, TT.ScanFrom, TT.EntryTally, TT.Tally.Plus,
      Met, Listed, ListedAll, EntryVisit, Enters;
    var s, w := Through(v, false), EntryVisit(node, p, depth, i);
    TT.Unfold(v, p, depth, i);
    MetStep(s, node, p, depth, i);
    ListedConcat(v, [w] + MetBelow(s, w), Met(s, node, p, depth, i + 1));
    ListedCons(v, w, MetBelow(s, w));
  }
}
