/** DU, Find and Tree on the same tree. */
module Agreement {
  import opened Bytes
  import opened Paths
  import opened Trees
  import opened Volumes
  import DU = DiskUsage
  import FF = FindFiles
  import TT = TreeTool

  /** What DU can handle, Tree can handle too. */
  lemma TreeIsMoreTolerant(v: Volume, p: CString, node: Node)
    requires Opens(v, p, node) && AllHandled(v, Walk(node, p, 0))
    ensures TT.Opens(v, p, node) && TT.AllHandled(v, Walk(node, p, 0))
  {
    hide Walk;
    forall w | w in Walk(node, p, 0) ensures TT.Handled(v, w) {
      assert Handled(v, w);
    }
  }

  /** The empty needle matches every name, and each line of Tree stands for one visited object. */
  lemma {:induction false} LinePerVisit(visits: seq<Visit>)
    ensures |FF.Matches(visits, "")| == |TT.Rows(visits)| == |visits|
    ensures forall k :: 0 <= k < |visits| ==>
      FF.Matches(visits, "")[k] == visits[k].path && TT.Rows(visits)[k] == TT.RowOf(visits[k])
  {
    hide TT.RowOf;
    if visits != [] {
      LinePerVisit(visits[1..]);
      assert FF.MatchesAt(visits[0].name, 0, "");
    }
  }

  /** Whenever DU finishes a directory without errors, Tree reports the same files, the same directories
      but for the root, and no errors; and the k-th line of Tree and the k-th line of Find with an empty
      pattern show the k-th object of the same walk. */
  lemma ToolsAgree(v: Volume, p: CString, node: Node)
    requires Shows(v, p, node) && node.Dir?
    requires DU.Scan(v, p, 0).errors == 0
    ensures TT.Ends(v, p, 0)
    ensures var du, tree, find := DU.Scan(v, p, 0), TT.Scan(v, p, 0), FF.Scan(v, p, "", 0);
            && tree.errors == 0 && find.errors == 0
            && tree.files == du.files
            && tree.dirs + 1 == du.dirs
            && |find.lines| == |tree.rows| == tree.files + tree.dirs
    ensures var tree, find, walk := TT.Scan(v, p, 0), FF.Scan(v, p, "", 0), Walk(node, p, 0);
            && |find.lines| == |tree.rows| == |walk|
            && forall k :: 0 <= k < |walk| ==> find.lines[k] == walk[k].path && tree.rows[k] == TT.RowOf(walk[k])
  {
    hide DU.Scan, TT.Scan, TT.Ends, FF.Scan, Shows, Walk, Sum, AllHandled, Opens, Sublist,
      TT.AllHandled, TT.AllListed, TT.Opens, TT.Listed, TT.Rows, TT.RowOf, FF.Matches;
    DU.CleanRunIsExact(v, p, node);
    TreeIsMoreTolerant(v, p, node);
    TT.ExactRuns(v, p, node);
    FF.CleanRunIsExact(v, p, "", node);
    LinePerVisit(Walk(node, p, 0));
    SumCountsVisits(Walk(node, p, 0));
  }

  /** On a directory, DU and Find succeed together, whatever Find looks for. */
  lemma ErrorsAgree(v: Volume, p: CString, needle: CString, node: Node)
    requires Shows(v, p, node) && node.Dir?
    ensures DU.Scan(v, p, 0).errors == 0 <==> FF.Scan(v, p, needle, 0).errors == 0
  {
    hide DU.Scan, FF.Scan, Shows, Walk, Sum, AllHandled, Opens, FF.Matches, Sublist;
    DU.CleanRunIsExact(v, p, node);
    FF.CleanRunIsExact(v, p, needle, node);
  }

  /** An error-free Find prints exactly the matching paths in walk order, each of them once. */
  lemma FindPrintsEachOnce(v: Volume, p: CString, needle: CString, node: Node)
    requires Shows(v, p, node) && WellFormed(node)
    requires FF.Scan(v, p, needle, 0).errors == 0
    ensures FF.Scan(v, p, needle, 0).lines == FF.Matches(Walk(node, p, 0), needle)
    ensures FF.Distinct(FF.Scan(v, p, needle, 0).lines)
  {
    hide Below, Shows, FF.Scan, FF.Matches, FF.Distinct, WellFormed, AllHandled, Opens, Sublist;
    FF.CleanRunIsExact(v, p, needle, node);
    WalkedPathsDistinct(node, p, 0, 0);
    FF.MatchesDistinct(Walk(node, p, 0), needle);
  }

  /** On a DOS that never fails, DU succeeds exactly on the trees within its limits, and then every path
      it joins names the object it is meant for and its numbers are those of the tree. */
  lemma FaultFreeRun(base: CString, root: Node)
    requires WellFormed(root)
    ensures var v := TreeVolume(base, root); var t, total := DU.Scan(v, base, 0), TrueTotal(root, base);
            && Located(base, root, Walk(root, base, 0))
            && (t.errors == 0 <==>
                 (root.Dir? ==> |root.entries| < 1024)
                 && forall w :: w in Walk(root, base, 0) ==> WithinLimits(w))
            && (t.errors == 0 ==> t.files == total.files && t.dirs == total.dirs && t.bytes == total.bytes)
  {
    hide Below, Shows, DU.Scan, Sum, AllHandled, Opens, WellFormed, WithinLimits, Resolve;
    OnlyLimitsMatter(base, root);
    DU.CleanRunIsExact(TreeVolume(base, root), base, root);
  }
}
