/** The decisions subversion/libsvn_client/diff.c takes before it writes
    anything: how a property change is labelled and when the "no newline"
    marker follows it, when the "Index:" header of a path is shown, how
    label paths are made relative to a directory, which of the two sides
    of a diff lives in the repository and which diff or summary that
    leads to. */
module DiffLogic {
  import opened Common

  /** SVN_ERR_BAD_RELATIVE_PATH, SVN_ERR_CLIENT_BAD_REVISION and
      SVN_ERR_UNSUPPORTED_FEATURE. */
  datatype DiffError =
    | BadRelativePath(path: string, relativeTo: string)
    | BadRevision
    | UnsupportedFeature

  // ---------------------------------------------------------------------
  // maybe_append_eol
  // ---------------------------------------------------------------------

  predicate IsEolChar(c: char) {
    c == '\r' || c == '\n'
  }

  predicate EndsWithEol(s: string) {
    |s| > 0 && IsEolChar(s[|s| - 1])
  }

  /** The string maybe_append_eol returns and what it stores in *had_eol. */
  datatype Appended = Appended(text: string, hadEol: bool)

  /** maybe_append_eol: an empty token or one ending in CR or LF is
      returned as it is, any other gets the native end of line appended;
      had_eol says whether the token already ended in CR or LF. */
  function MaybeAppendEol(token: string, nativeEol: string): (r: Appended)
    ensures r.hadEol <==> EndsWithEol(token)
    ensures |token| <= |r.text| && r.text[..|token|] == token
    ensures r.text == token <==> token == "" || EndsWithEol(token) || nativeEol == ""
    ensures EndsWithEol(nativeEol) ==> r.text == "" || EndsWithEol(r.text)
  {
    if |token| == 0 then Appended(token, false)
    else if token[|token| - 1] == '\r' then Appended(token, true)
    else if token[|token| - 1] != '\n' then Appended(token + nativeEol, false)
    else Appended(token, true)
  }

  /** Applying maybe_append_eol to its own result changes nothing, and the
      second time the end of line is always found (unless empty). */
  lemma MaybeAppendEolIdempotent(token: string, nativeEol: string)
    requires EndsWithEol(nativeEol)
    ensures var r := MaybeAppendEol(token, nativeEol);
      && MaybeAppendEol(r.text, nativeEol).text == r.text
      && MaybeAppendEol(r.text, nativeEol).hadEol == (r.text != "")
  {
    var r := MaybeAppendEol(token, nativeEol);
    if r.text != "" {
      assert EndsWithEol(r.text);
    }
  }

  // ---------------------------------------------------------------------
  // The property changes of display_prop_diffs
  // ---------------------------------------------------------------------

  datatype PropAction = Added | Deleted | Modified

  /** Lines 328-340: a change is skipped when the property is absent on
      both sides or has the same value on both; otherwise it is Added
      (no original value), Deleted (no new value) or Modified. */
  function ClassifyPropChange(original: Option<string>, value: Option<string>): (r: Option<PropAction>)
    ensures r.None? <==> original == value
    ensures r == Some(Added) <==> original.None? && value.Some?
    ensures r == Some(Deleted) <==> original.Some? && value.None?
    ensures r == Some(Modified) <==> original.Some? && value.Some? && original != value
  {
    if (original.None? && value.None?) || (original.Some? && value.Some? && original.value == value.value) then None
    else if original.None? then Some(Added)
    else if value.None? then Some(Deleted)
    else Some(Modified)
  }

  /** One entry of the propchanges array: a name and the new value (None
      when the property is deleted). */
  datatype PropChange = PropChange(name: string, value: Option<string>)

  /** SVN_PROP_MERGEINFO */
  const MergeinfoProp: string := "svn:mergeinfo"

  /** What is written for a change: the mergeinfo pretty-print, or the
      two texts handed to the unified diff and whether the "\ No newline
      at end of property" line follows it. */
  datatype PropBody = MergeinfoDiff | TextDiff(orig: string, val: string, noNewlineMarker: bool)

  datatype PropReport = PropReport(action: PropAction, name: string, body: PropBody)

  /** original_props may be NULL, and then no property has an original
      value. */
  function OriginalValue(originalProps: Option<map<string, string>>, name: string): Option<string> {
    if originalProps.Some? && name in originalProps.value then Some(originalProps.value[name]) else None
  }

  function OrEmpty(v: Option<string>): string {
    if v.Some? then v.value else ""
  }

  /** display_mergeinfo_diff parses only the sides that are present, so it
      fails to parse iff a present side is not mergeinfo. */
  predicate MergeinfoParses(parsable: string -> bool, v: Option<string>) {
    v.None? || parsable(v.value)
  }

  /** Lines 322-405 for one change. parsable says whether a value reads as
      mergeinfo; when both sides of an svn:mergeinfo change parse, the
      mergeinfo is pretty-printed instead of diffed. */
  function ReportFor(change: PropChange, originalProps: Option<map<string, string>>, nativeEol: string,
                     parsable: string -> bool): (r: Option<PropReport>)
    ensures var orig := OriginalValue(originalProps, change.name);
      && (r.None? <==> orig == change.value)
      && (r.Some? ==> r.value.name == change.name && Some(r.value.action) == ClassifyPropChange(orig, change.value))
      && (r.Some? ==> (r.value.body.MergeinfoDiff? <==> change.name == MergeinfoProp && MergeinfoParses(parsable, orig) && MergeinfoParses(parsable, change.value)))
      && (r.Some? && r.value.body.TextDiff? ==> (r.value.body.noNewlineMarker <==> !EndsWithEol(OrEmpty(change.value))))
      && (r.Some? && r.value.body.TextDiff? && EndsWithEol(nativeEol) ==>
            (r.value.body.orig == "" || EndsWithEol(r.value.body.orig)) && (r.value.body.val == "" || EndsWithEol(r.value.body.val)))
  {
    var orig := OriginalValue(originalProps, change.name);
    var action := ClassifyPropChange(orig, change.value);
    if action.None? then None
    else if change.name == MergeinfoProp && MergeinfoParses(parsable, orig) && MergeinfoParses(parsable, change.value) then
      Some(PropReport(action.value, change.name, MergeinfoDiff))
    else
      var o := MaybeAppendEol(OrEmpty(orig), nativeEol);
      var v := MaybeAppendEol(OrEmpty(change.value), nativeEol);
      Some(PropReport(action.value, change.name, TextDiff(o.text, v.text, !v.hadEol)))
  }

  /** The reports of the changes, in their order, skipped ones left out. */
  function PropReports(changes: seq<PropChange>, originalProps: Option<map<string, string>>, nativeEol: string,
                       parsable: string -> bool): seq<PropReport>
    decreases |changes|
  {
    if changes == [] then []
    else
      var last := ReportFor(changes[|changes| - 1], originalProps, nativeEol, parsable);
      PropReports(changes[..|changes| - 1], originalProps, nativeEol, parsable) + (if last.Some? then [last.value] else [])
  }

  /** A report is written exactly for each change that is not skipped. */
  lemma PropReportsExactly(changes: seq<PropChange>, originalProps: Option<map<string, string>>,
                           nativeEol: string, parsable: string -> bool)
    ensures forall r :: (r in PropReports(changes, originalProps, nativeEol, parsable)
                         <==> exists j :: 0 <= j < |changes| && ReportFor(changes[j], originalProps, nativeEol, parsable) == Some(r))
  {
    forall r ensures r in PropReports(changes, originalProps, nativeEol, parsable)
      <==> exists j :: 0 <= j < |changes| && ReportFor(changes[j], originalProps, nativeEol, parsable) == Some(r)
    {
      ReportedExactly(changes, originalProps, nativeEol, parsable, r);
    }
  }

  /** PropReportsExactly for one report r. */
  lemma ReportedExactly(changes: seq<PropChange>, originalProps: Option<map<string, string>>,
                        nativeEol: string, parsable: string -> bool, r: PropReport)
    ensures r in PropReports(changes, originalProps, nativeEol, parsable)
        <==> exists j :: 0 <= j < |changes| && ReportFor(changes[j], originalProps, nativeEol, parsable) == Some(r)
  {
    if r in PropReports(changes, originalProps, nativeEol, parsable) {
      ReportHasSource(changes, originalProps, nativeEol, parsable, r);
    }
    if exists j :: 0 <= j < |changes| && ReportFor(changes[j], originalProps, nativeEol, parsable) == Some(r) {
      var j :| 0 <= j < |changes| && ReportFor(changes[j], originalProps, nativeEol, parsable) == Some(r);
      ReportIncluded(changes, originalProps, nativeEol, parsable, j);
    }
  }

  /** Every report written comes from one of the changes. */
  lemma {:induction false} ReportHasSource(changes: seq<PropChange>, originalProps: Option<map<string, string>>,
                                           nativeEol: string, parsable: string -> bool, r: PropReport)
    requires r in PropReports(changes, originalProps, nativeEol, parsable)
    ensures exists j :: 0 <= j < |changes| && ReportFor(changes[j], originalProps, nativeEol, parsable) == Some(r)
    decreases |changes|
  {
    var n := |changes| - 1;
    ReportsSnoc(changes, originalProps, nativeEol, parsable, r);
    if ReportFor(changes[n], originalProps, nativeEol, parsable) != Some(r) {
      var init := changes[..n];
      ReportHasSource(init, originalProps, nativeEol, parsable, r);
      var j :| 0 <= j < |init| && ReportFor(init[j], originalProps, nativeEol, parsable) == Some(r);
      assert changes[j] == init[j];
    }
  }

  /** Every change that is not skipped has its report written. */
  lemma {:induction false} ReportIncluded(changes: seq<PropChange>, originalProps: Option<map<string, string>>,
                                          nativeEol: string, parsable: string -> bool, j: nat)
    requires j < |changes| && ReportFor(changes[j], originalProps, nativeEol, parsable).Some?
    ensures ReportFor(changes[j], originalProps, nativeEol, parsable).value in PropReports(changes, originalProps, nativeEol, parsable)
    decreases |changes|
  {
    var n := |changes| - 1;
    var r := ReportFor(changes[j], originalProps, nativeEol, parsable).value;
    ReportsSnoc(changes, originalProps, nativeEol, parsable, r);
    if j < n {
      var init := changes[..n];
      assert init[j] == changes[j];
      ReportIncluded(init, originalProps, nativeEol, parsable, j);
    }
  }

  /** A report is among those of the changes when it is among those of
      all but the last, or it is the last one's. */
  lemma ReportsSnoc(changes: seq<PropChange>, originalProps: Option<map<string, string>>,
                    nativeEol: string, parsable: string -> bool, r: PropReport)
    requires changes != []
    ensures r in PropReports(changes, originalProps, nativeEol, parsable)
        <==> r in PropReports(changes[..|changes| - 1], originalProps, nativeEol, parsable)
             || ReportFor(changes[|changes| - 1], originalProps, nativeEol, parsable) == Some(r)
  {
  }

  /** Only changes are reported: with the original properties equal to the
      new values everywhere nothing is written. */
  lemma {:induction false} NothingChangedNothingReported(changes: seq<PropChange>, originalProps: map<string, string>,
                                                         nativeEol: string, parsable: string -> bool)
    requires forall j :: 0 <= j < |changes| ==> OriginalValue(Some(originalProps), changes[j].name) == changes[j].value
    ensures PropReports(changes, Some(originalProps), nativeEol, parsable) == []
    decreases |changes|
  {
    if changes != [] {
      var init := changes[..|changes| - 1];
      forall j | 0 <= j < |init| ensures OriginalValue(Some(originalProps), init[j].name) == init[j].value {
        assert init[j] == changes[j];
      }
      NothingChangedNothingReported(init, originalProps, nativeEol, parsable);
    }
  }

  /** The loop of display_prop_diffs over the propchanges array. */
  method DisplayPropDiffs(changes: seq<PropChange>, originalProps: Option<map<string, string>>, nativeEol: string,
                          parsable: string -> bool)
    returns (reports: seq<PropReport>)
    ensures reports == PropReports(changes, originalProps, nativeEol, parsable)
  {
    reports := [];
    var i := 0;
    while i < |changes|
      invariant 0 <= i <= |changes|
      invariant reports == PropReports(changes[..i], originalProps, nativeEol, parsable)
    {
      assert changes[..i + 1][..i] == changes[..i];
      var report := ReportFor(changes[i], originalProps, nativeEol, parsable);
      if report.Some? {
        reports := reports + [report.value];
      }
      i := i + 1;
    }
    assert changes[..i] == changes;
  }

  // ---------------------------------------------------------------------
  // The diff_cmd_baton: visited paths and force_empty
  // ---------------------------------------------------------------------

  /** What diff_content_changed shows: the "Index:" header, the hunks, and
      the path it writes in the header after relative_to_dir rewrote it. */
  datatype ContentShown = ContentShown(header: bool, hunks: bool, shownPath: string)

  /** What diff_props_changed shows: the "Index:" header and the reports. */
  datatype PropsShown = PropsShown(header: bool, reports: seq<PropReport>)

  /** What diff_file_added shows for the content and for the properties. */
  datatype FileShown = FileShown(content: ContentShown, props: PropsShown)

  /** The part of struct diff_cmd_baton that decides what is shown. */
  class DiffCmdBaton {
    var visitedPaths: set<string>
    var forceEmpty: bool
    const useGitDiffFormat: bool
    const nativeEol: string
    const relativeTo: Option<string>
    const origPath1: string
    const origPath2: string
    /** The parts of the two original targets beyond their longest common
        ancestor, which tell the two labels apart. */
    const rest1: string
    const rest2: string

    /** ancestorLen is the length of the longest common ancestor of the two
        original targets, which svn_dirent_get_longest_ancestor computes. */
    constructor(useGitDiffFormat: bool, nativeEol: string, relativeTo: Option<string>,
                origPath1: string, origPath2: string, ancestorLen: nat)
      requires ancestorLen <= |origPath1| && ancestorLen <= |origPath2|
      requires origPath1[..ancestorLen] == origPath2[..ancestorLen]
      ensures visitedPaths == {} && !forceEmpty
      ensures this.useGitDiffFormat == useGitDiffFormat && this.nativeEol == nativeEol
      ensures this.relativeTo == relativeTo && this.origPath1 == origPath1 && this.origPath2 == origPath2
      ensures origPath1 == origPath1[..ancestorLen] + rest1 && origPath2 == origPath2[..ancestorLen] + rest2
    {
      visitedPaths := {};
      forceEmpty := false;
      this.useGitDiffFormat := useGitDiffFormat;
      this.nativeEol := nativeEol;
      this.relativeTo := relativeTo;
      this.origPath1 := origPath1;
      this.origPath2 := origPath2;
      this.rest1 := origPath1[ancestorLen..];
      this.rest2 := origPath2[ancestorLen..];
    }

    /** The paths diff_content_changed makes relative before its header:
        the path, and the two labels built from it. */
    function ContentLabels(path: string): Labels {
      Labels(path, UniqueLabel(path, rest1), UniqueLabel(path, rest2))
    }

    /** The paths display_prop_diffs makes relative in its header, an empty
        path being shown as ".". */
    function PropLabels(path: string): Labels {
      ContentLabels(if path == "" then "." else path)
    }

    /** mark_path_as_visited */
    method MarkPathAsVisited(path: string)
      modifies this
      ensures visitedPaths == old(visitedPaths) + {path}
      ensures forceEmpty == old(forceEmpty)
    {
      visitedPaths := visitedPaths + {path};
    }

    /** diff_props_changed: the header is shown exactly when the path was
        not visited yet, and once shown the path is visited. The header
        fails, before anything is written, when a label path lies outside
        relative_to_dir; the path then stays unvisited. */
    method PropsChanged(path: string, changes: seq<PropChange>, originalProps: Option<map<string, string>>,
                        parsable: string -> bool)
      returns (r: Result<PropsShown, DiffError>)
      modifies this
      ensures r.Err? <==> path !in old(visitedPaths) && AdjustLabelPaths(relativeTo, PropLabels(path)).Err?
      ensures r.Err? ==> r.error == AdjustLabelPaths(relativeTo, PropLabels(path)).error && visitedPaths == old(visitedPaths)
      ensures r.Ok? ==> (r.value.header <==> path !in old(visitedPaths))
      ensures r.Ok? ==> r.value.reports == PropReports(changes, originalProps, nativeEol, parsable)
      ensures r.Ok? ==> visitedPaths == old(visitedPaths) + {path}
      ensures forceEmpty == old(forceEmpty)
    {
      var showHeader := path !in visitedPaths;
      if showHeader {
        var adjusted := AdjustLabelPaths(relativeTo, PropLabels(path));
        if adjusted.Err? {
          return Err(adjusted.error);
        }
      }
      var reports := DisplayPropDiffs(changes, originalProps, nativeEol, parsable);
      if showHeader {
        MarkPathAsVisited(path);
      }
      r := Ok(PropsShown(showHeader, reports));
    }

    /** diff_content_changed with the built-in diff. The label paths are
        made relative first, and a path outside relative_to_dir fails
        before anything is written. A binary file (either mime type
        binary) gets the "Index:" header and the notice that it cannot be
        displayed, and the path is not marked visited. Otherwise the header
        is written when there are differences, when forced or in git
        format; the hunks when there are differences or when forced; and
        the path is visited once its header is written. The path written
        and marked is the one relative_to_dir rewrote, since the adjustment
        replaces the caller's path in place (line 244). */
    method ContentChanged(path: string, binary: bool, containsDiffs: bool) returns (r: Result<ContentShown, DiffError>)
      modifies this
      ensures r.Err? <==> AdjustLabelPaths(relativeTo, ContentLabels(path)).Err?
      ensures r.Err? ==> r.error == AdjustLabelPaths(relativeTo, ContentLabels(path)).error && visitedPaths == old(visitedPaths)
      ensures r.Ok? ==> r.value.shownPath == AdjustLabelPaths(relativeTo, ContentLabels(path)).value.path
      ensures r.Ok? && binary ==> r.value.header && !r.value.hunks && visitedPaths == old(visitedPaths)
      ensures r.Ok? && !binary ==> (r.value.header <==> containsDiffs || forceEmpty || useGitDiffFormat)
      ensures r.Ok? && !binary ==> (r.value.hunks <==> containsDiffs || forceEmpty)
      ensures r.Ok? && !binary ==>
        visitedPaths == if r.value.header then old(visitedPaths) + {r.value.shownPath} else old(visitedPaths)
      ensures forceEmpty == old(forceEmpty)
    {
      var adjusted := AdjustLabelPaths(relativeTo, ContentLabels(path));
      if adjusted.Err? {
        return Err(adjusted.error);
      }
      if binary {
        return Ok(ContentShown(true, false, adjusted.value.path));
      }
      var showHeader := containsDiffs || forceEmpty || useGitDiffFormat;
      var showHunks := false;
      if showHeader {
        showHunks := containsDiffs || forceEmpty;
        MarkPathAsVisited(adjusted.value.path);
      }
      r := Ok(ContentShown(showHeader, showHunks, adjusted.value.path));
    }

    /** diff_file_added: with force_empty set for the duration, an added
        file always shows its header, and its hunks, even when empty, unless
        it is binary. The content step marks the path as relative_to_dir
        rewrote it, and diff_props_changed looks up the path as given, so
        the property changes get a second header after a binary file whose
        path was not visited, and also whenever the rewrite changed the
        path. An error returns at once and leaves force_empty set. */
    method FileAdded(path: string, binary: bool, containsDiffs: bool, changes: seq<PropChange>,
                     originalProps: Option<map<string, string>>, parsable: string -> bool)
      returns (r: Result<FileShown, DiffError>)
      modifies this
      ensures var content := AdjustLabelPaths(relativeTo, ContentLabels(path));
        content.Err? ==> r == Err(content.error) && visitedPaths == old(visitedPaths)
      ensures var content := AdjustLabelPaths(relativeTo, ContentLabels(path));
        content.Ok? ==>
          var marked := if binary then old(visitedPaths) else old(visitedPaths) + {content.value.path};
          var props := AdjustLabelPaths(relativeTo, PropLabels(path));
          && (r.Err? <==> path !in marked && props.Err?)
          && (r.Err? ==> r.error == props.error && visitedPaths == marked)
          && (r.Ok? ==> (r.value.props.header <==> path !in marked))
          && (r.Ok? ==> visitedPaths == marked + {path})
      ensures r.Err? ==> forceEmpty
      ensures r.Ok? ==> r.value.content.header && (r.value.content.hunks <==> !binary)
      ensures r.Ok? ==> r.value.props.reports == PropReports(changes, originalProps, nativeEol, parsable)
      ensures r.Ok? ==> !forceEmpty
    {
      forceEmpty := true;
      var content := ContentChanged(path, binary, containsDiffs);
      if content.Err? {
        return Err(content.error);
      }
      var props := PropsChanged(path, changes, originalProps, parsable);
      if props.Err? {
        return Err(props.error);
      }
      forceEmpty := false;
      r := Ok(FileShown(content.value, props.value));
    }
  }

  // ---------------------------------------------------------------------
  // relative_to_dir in adjust_paths_for_diff_labels
  // ---------------------------------------------------------------------

  /** svn_dirent_is_child on canonical paths: the part of path below dir,
      if path lies strictly below it. An empty dir is the parent of every
      relative path; a dir ending in '/' is the root. */
  function ChildPath(dir: string, path: string): (r: Option<string>)
    ensures r.Some? ==> r.value != "" && r.value[0] != '/' && JoinUnder(dir, r.value) == path
  {
    if dir == "" then
      if path != "" && path[0] != '/' then Some(path) else None
    else if |path| > |dir| && path[..|dir|] == dir then
      if dir[|dir| - 1] == '/' then
        if path[|dir|] != '/' then Some(path[|dir|..]) else None
      else if |path| > |dir| + 1 && path[|dir|] == '/' && path[|dir| + 1] != '/' then Some(path[|dir| + 1..])
      else None
    else None
  }

  /** child joined below dir. */
  function JoinUnder(dir: string, child: string): string {
    if dir == "" then child
    else if dir[|dir| - 1] == '/' then dir + child
    else dir + "/" + child
  }

  /** A relative child joined below dir is found again below it. */
  lemma ChildPathOfJoin(dir: string, child: string)
    requires child != "" && child[0] != '/'
    ensures ChildPath(dir, JoinUnder(dir, child)) == Some(child)
  {
    var p := JoinUnder(dir, child);
    if dir != "" {
      assert p[..|dir|] == dir;
      if dir[|dir| - 1] != '/' {
        assert p[|dir|] == '/' && p[|dir| + 1] == child[0];
        assert p[|dir| + 1..] == child;
      } else {
        assert p[|dir|] == child[0];
        assert p[|dir|..] == child;
      }
    }
  }

  /** Lines 217-225 for one label path: the part below relative_to_dir,
      "." for the directory itself, an error for anything else. */
  function RelativeLabel(dir: string, path: string): (r: Result<string, DiffError>)
    ensures r.Err? <==> ChildPath(dir, path).None? && dir != path
    ensures r.Err? ==> r.error == BadRelativePath(path, dir)
    ensures r.Ok? ==> (r.value == "." && path == dir) || (r.value != "" && JoinUnder(dir, r.value) == path)
  {
    var child := ChildPath(dir, path);
    if child.Some? then Ok(child.value)
    else if dir == path then Ok(".")
    else Err(BadRelativePath(path, dir))
  }

  datatype Labels = Labels(path: string, path1: string, path2: string)

  /** Lines 204-212 for one label: the changed path, followed, when the
      original target has a part beyond the longest common ancestor, by
      that part in parentheses after an ellipsis. */
  function UniqueLabel(path: string, rest: string): string {
    if rest == "" then path
    else if rest[0] == '/' then path + "\t(..." + rest + ")"
    else path + "\t(.../" + rest + ")"
  }

  /** A label built from a path below relative_to_dir lies below it too. */
  lemma UniqueLabelBelow(dir: string, path: string, rest: string)
    requires ChildPath(dir, path).Some?
    ensures ChildPath(dir, UniqueLabel(path, rest)).Some?
  {
    var shown := UniqueLabel(path, rest);
    assert shown[..|path|] == path;
    if dir != "" {
      assert shown[..|dir|] == path[..|dir|];
    }
  }

  /** A changed path below relative_to_dir never makes the labels fail,
      whatever the original targets. */
  lemma LabelsBelowDir(dir: string, path: string, rest1: string, rest2: string)
    requires ChildPath(dir, path).Some?
    ensures AdjustLabelPaths(Some(dir), Labels(path, UniqueLabel(path, rest1), UniqueLabel(path, rest2))).Ok?
  {
    UniqueLabelBelow(dir, path, rest1);
    UniqueLabelBelow(dir, path, rest2);
  }

  /** When both original targets are the same, the labels are the path
      itself, and they fail exactly when the path does. */
  lemma SameTargetLabels(dir: string, path: string)
    ensures var r := AdjustLabelPaths(Some(dir), Labels(path, UniqueLabel(path, ""), UniqueLabel(path, "")));
      var one := RelativeLabel(dir, path);
      && (r.Err? <==> one.Err?)
      && (r.Ok? ==> r.value == Labels(one.value, one.value, one.value))
  {
  }

  /** A non-empty relative_to_dir rewrites a path below it to a different,
      shorter path. */
  lemma RelativeLabelRenames(dir: string, path: string)
    requires dir != "" && ChildPath(dir, path).Some?
    ensures RelativeLabel(dir, path).Ok? && |RelativeLabel(dir, path).value| < |path|
  {
  }

  /** With relative_to_dir the directory itself and two distinct original
      targets, a label carries the unique part after a tab and is neither
      below the directory nor the directory, so the header fails. */
  lemma DirItselfWithDistinctTargets(dir: string, rest: string)
    requires dir != "" && dir[|dir| - 1] != '/' && rest != ""
    ensures RelativeLabel(dir, UniqueLabel(dir, rest)).Err?
  {
    var shown := UniqueLabel(dir, rest);
    assert shown[|dir|] == '\t';
  }

  /** Lines 214-243: with relative_to_dir set, the path and both label
      paths are rewritten in that order, and the first that lies outside
      it is the error. */
  function AdjustLabelPaths(relativeTo: Option<string>, labels: Labels): (r: Result<Labels, DiffError>)
    ensures relativeTo.None? ==> r == Ok(labels)
    ensures relativeTo.Some? ==>
      var d := relativeTo.value;
      var a, b, c := RelativeLabel(d, labels.path), RelativeLabel(d, labels.path1), RelativeLabel(d, labels.path2);
      && (r.Ok? <==> a.Ok? && b.Ok? && c.Ok?)
      && (r.Ok? ==> r.value == Labels(a.value, b.value, c.value))
      && (r.Err? ==> r.error == (if a.Err? then a.error else if b.Err? then b.error else c.error))
  {
    if relativeTo.None? then Ok(labels)
    else
      var d := relativeTo.value;
      var a := RelativeLabel(d, labels.path);
      if a.Err? then Err(a.error)
      else
        var b := RelativeLabel(d, labels.path1);
        if b.Err? then Err(b.error)
        else
          var c := RelativeLabel(d, labels.path2);
          if c.Err? then Err(c.error)
          else Ok(Labels(a.value, b.value, c.value))
  }

  /** Rewriting label paths that lie below relative_to_dir and joining
      them back below it gives the paths again. */
  lemma AdjustLabelPathsRoundTrip(dir: string, labels: Labels)
    requires ChildPath(dir, labels.path).Some? && ChildPath(dir, labels.path1).Some? && ChildPath(dir, labels.path2).Some?
    ensures var r := AdjustLabelPaths(Some(dir), labels);
      && r.Ok?
      && JoinUnder(dir, r.value.path) == labels.path
      && JoinUnder(dir, r.value.path1) == labels.path1
      && JoinUnder(dir, r.value.path2) == labels.path2
  {
  }

  // ---------------------------------------------------------------------
  // check_paths, do_diff and do_diff_summarize
  // ---------------------------------------------------------------------

  /** *is_repos1 and *is_repos2 */
  datatype Sides = Sides(isRepos1: bool, isRepos2: bool)

  /** check_paths: a pegged diff needs one non-local revision; a side is
      in the repository when its revision is not local or its path is a
      URL. */
  function CheckPaths(pegged: bool, isLocalRev1: bool, isLocalRev2: bool, isUrl1: bool, isUrl2: bool): (r: Result<Sides, DiffError>)
    ensures r.Err? <==> pegged && isLocalRev1 && isLocalRev2
    ensures r.Err? ==> r.error == BadRevision
    ensures r.Ok? ==> (r.value.isRepos1 <==> !isLocalRev1 || isUrl1) && (r.value.isRepos2 <==> !isLocalRev2 || isUrl2)
  {
    if pegged then
      if isLocalRev1 && isLocalRev2 then Err(BadRevision)
      else Ok(Sides(!isLocalRev1 || isUrl1, !isLocalRev2 || isUrl2))
    else Ok(Sides(!isLocalRev1 || isUrl1, !isLocalRev2 || isUrl2))
  }

  /** The peg revision only adds the error: whenever check_paths succeeds,
      the sides are those of the unpegged diff. */
  lemma PegOnlyRejects(isLocalRev1: bool, isLocalRev2: bool, isUrl1: bool, isUrl2: bool)
    ensures var p := CheckPaths(true, isLocalRev1, isLocalRev2, isUrl1, isUrl2);
      p.Ok? ==> p == CheckPaths(false, isLocalRev1, isLocalRev2, isUrl1, isUrl2)
    ensures CheckPaths(false, isLocalRev1, isLocalRev2, isUrl1, isUrl2).Ok?
  {
  }

  /** The diff helper do_diff picks: repos-repos, repos-wc (reversed when
      the repository side is the second one) or wc-wc. */
  datatype DiffKind = ReposRepos | ReposWc(reverse: bool) | WcWc

  function DiffDispatch(sides: Sides): (k: DiffKind)
    ensures k == ReposRepos <==> sides.isRepos1 && sides.isRepos2
    ensures k == WcWc <==> !sides.isRepos1 && !sides.isRepos2
    ensures k.ReposWc? ==> (k.reverse <==> sides.isRepos2)
  {
    if sides.isRepos1 then
      if sides.isRepos2 then ReposRepos else ReposWc(false)
    else
      if sides.isRepos2 then ReposWc(true) else WcWc
  }

  /** Swapping the two sides turns a repos-wc diff around and leaves the
      other kinds alone. */
  lemma DiffDispatchMirror(sides: Sides)
    ensures var k, m := DiffDispatch(sides), DiffDispatch(Sides(sides.isRepos2, sides.isRepos1));
      && (k.ReposWc? <==> m.ReposWc?)
      && (k.ReposWc? ==> m.reverse == !k.reverse)
      && (!k.ReposWc? ==> m == k)
  {
  }

  /** do_diff_summarize: after check_paths, only a repository to
      repository comparison is summarized. */
  function Summarize(pegged: bool, isLocalRev1: bool, isLocalRev2: bool, isUrl1: bool, isUrl2: bool): (r: Result<Sides, DiffError>)
    ensures r.Ok? <==> !(pegged && isLocalRev1 && isLocalRev2) && (!isLocalRev1 || isUrl1) && (!isLocalRev2 || isUrl2)
    ensures r.Err? ==> r.error == if pegged && isLocalRev1 && isLocalRev2 then BadRevision else UnsupportedFeature
  {
    var sides := CheckPaths(pegged, isLocalRev1, isLocalRev2, isUrl1, isUrl2);
    if sides.Err? then Err(sides.error)
    else if sides.value.isRepos1 && sides.value.isRepos2 then Ok(sides.value)
    else Err(UnsupportedFeature)
  }

  /** What can be summarized is exactly what do_diff would compare
      repository to repository. */
  lemma SummarizeOnlyReposRepos(pegged: bool, isLocalRev1: bool, isLocalRev2: bool, isUrl1: bool, isUrl2: bool)
    ensures var c := CheckPaths(pegged, isLocalRev1, isLocalRev2, isUrl1, isUrl2);
      Summarize(pegged, isLocalRev1, isLocalRev2, isUrl1, isUrl2).Ok? <==> c.Ok? && DiffDispatch(c.value) == ReposRepos
  {
  }
}
