/** `GitVersioning.determineVersion`: the resolver of the shared core library.
    It picks a version description for the repository situation (branch rules
    when a branch is checked out, else tag rules when the head has tags, else the
    commit description), builds the data map of placeholder values and renders
    the chosen version format. Regex matching, named-group extraction, template
    substitution, the Maven version order and calendar formatting are library
    code and come in through `Library`. */
module GitVersioning {
  import opened Wrappers
  import opened Text
  import opened Search
  import opened VersionOrder

  const NoCommitDate := "00000000.000000"

  /** A configured rule: a full-match regex and a version format template. */
  datatype VersionDescription = VersionDescription(pattern: string, versionFormat: string)

  /** The repository snapshot: no head branch means a detached head. */
  datatype GitRepoSituation = GitRepoSituation(
    headCommit: string,
    headCommitTimestamp: int,
    headBranch: Option<string>,
    headTags: seq<string>,
    clean: bool)

  datatype GitVersionDetails = GitVersionDetails(
    clean: bool,
    commit: string,
    refType: string,
    refName: string,
    refFields: map<string, string>,
    version: string)

  /** The library code `determineVersion` calls. */
  datatype Library = Library(
    /** `text.matches(regex)`: full-string match. */
    matches: (string, string) -> bool,
    /** `StringUtil.valueGroupMap(regex, text)`: group name or number to captured value. */
    valueGroupMap: (string, string) -> map<string, string>,
    /** `compare(new DefaultArtifactVersion(a), new DefaultArtifactVersion(b)) <= 0`. */
    versionLe: (string, string) -> bool,
    /** `StringUtil.substituteText(format, values)`. */
    substituteText: (string, map<string, string>) -> string,
    /** The epoch second formatted as `yyyyMMdd.HHmmss` in UTC. */
    formatUtc: int -> string)

  /** Which rule was chosen, for which ref. */
  datatype Selection = Selection(refType: string, refName: string, description: VersionDescription)

  /** The zero timestamp stands for "no commit date" and is never formatted. */
  function FormatHeadCommitTimestamp(timestamp: int, lib: Library): (r: string)
    ensures timestamp == 0 ==> r == NoCommitDate
    ensures timestamp != 0 ==> r == lib.formatUtc(timestamp)
  {
    if timestamp == 0 then NoCommitDate else lib.formatUtc(timestamp)
  }

  // ---- rule selection -----------------------------------------------------

  /** `tags.stream().filter(tag -> tag.matches(pattern)).max(comparing(...))`:
      a left fold that keeps the accumulated tag unless the next matching tag is
      strictly greater (`BinaryOperator.maxBy`). */
  function MaxMatchingTag(tags: seq<string>, pattern: string, lib: Library): (r: Option<string>)
    ensures r.Some? ==> r.value in tags && lib.matches(r.value, pattern)
    ensures r.None? <==> forall i :: 0 <= i < |tags| ==> !lib.matches(tags[i], pattern)
  {
    if tags == [] then None
    else
      var best := MaxMatchingTag(tags[..|tags| - 1], pattern, lib);
      var tag := tags[|tags| - 1];
      assert forall i :: 0 <= i < |tags| - 1 ==> tags[..|tags| - 1][i] == tags[i];
      if !lib.matches(tag, pattern) then best
      else if best.Some? && lib.versionLe(tag, best.value) then best
      else Some(tag)
  }

  predicate BranchRuleMatches(branch: string, d: VersionDescription, lib: Library) {
    lib.matches(branch, d.pattern)
  }

  predicate TagRuleMatches(tags: seq<string>, d: VersionDescription, lib: Library) {
    MaxMatchingTag(tags, d.pattern, lib).Some?
  }

  /** The rule choice of `determineVersion` (lines 40-70 of the source). */
  function SelectVersionDescription(
    s: GitRepoSituation,
    commitDescription: VersionDescription,
    branchDescriptions: seq<VersionDescription>,
    tagDescriptions: seq<VersionDescription>,
    lib: Library): Selection
  {
    var fallback := Selection("commit", s.headCommit, commitDescription);
    if s.headBranch.Some? then
      match FirstIndex(branchDescriptions, d => BranchRuleMatches(s.headBranch.value, d, lib))
      case Some(i) => Selection("branch", s.headBranch.value, branchDescriptions[i])
      case None => fallback
    else if s.headTags != [] then
      match FirstIndex(tagDescriptions, d => TagRuleMatches(s.headTags, d, lib))
      case Some(i) =>
        Selection("tag", MaxMatchingTag(s.headTags, tagDescriptions[i].pattern, lib).value, tagDescriptions[i])
      case None => fallback
    else fallback
  }

  /** Under a total preorder, the chosen tag is at or above every matching tag. */
  lemma {:induction false} MaxMatchingTagIsMaximum(tags: seq<string>, pattern: string, lib: Library)
    requires TotalPreorder(lib.versionLe)
    ensures var r := MaxMatchingTag(tags, pattern, lib);
      r.Some? ==> forall t :: t in tags && lib.matches(t, pattern) ==> lib.versionLe(t, r.value)
  {
    if tags != [] {
      var prefix := tags[..|tags| - 1];
      var tag := tags[|tags| - 1];
      assert tags == prefix + [tag];
      MaxMatchingTagIsMaximum(prefix, pattern, lib);
      var best := MaxMatchingTag(prefix, pattern, lib);
      var r := MaxMatchingTag(tags, pattern, lib);
      if r.Some? {
        forall t | t in tags && lib.matches(t, pattern) ensures lib.versionLe(t, r.value) {
          if t in prefix && best.Some? && r.value == tag {
            assert lib.versionLe(best.value, tag);
          }
        }
      }
    }
  }

  /** On ties the earlier tag is kept: the chosen tag is strictly above every
      matching tag that comes before it in the head-tag list. */
  lemma {:induction false} MaxMatchingTagIsFirstMaximum(tags: seq<string>, pattern: string, lib: Library)
    requires TotalPreorder(lib.versionLe)
    ensures var r := MaxMatchingTag(tags, pattern, lib);
      r.Some? ==>
        exists k :: 0 <= k < |tags| && tags[k] == r.value &&
          forall j :: 0 <= j < k && lib.matches(tags[j], pattern) ==> !lib.versionLe(r.value, tags[j])
  {
    if tags != [] {
      var n := |tags|;
      var prefix := tags[..n - 1];
      var tag := tags[n - 1];
      MaxMatchingTagIsFirstMaximum(prefix, pattern, lib);
      MaxMatchingTagIsMaximum(prefix, pattern, lib);
      var best := MaxMatchingTag(prefix, pattern, lib);
      var r := MaxMatchingTag(tags, pattern, lib);
      if r.Some? {
        if r == best {
          var k :| 0 <= k < |prefix| && prefix[k] == r.value &&
            forall j :: 0 <= j < k && lib.matches(prefix[j], pattern) ==> !lib.versionLe(r.value, prefix[j]);
          assert tags[k] == r.value;
        } else {
          assert r.value == tag;
          forall j | 0 <= j < n - 1 && lib.matches(tags[j], pattern) ensures !lib.versionLe(tag, tags[j]) {
            assert prefix[j] == tags[j];
            assert lib.versionLe(tags[j], best.value);
          }
          assert tags[n - 1] == r.value;
        }
      }
    }
  }

  /** With a head branch, the first branch rule whose pattern matches it wins;
      with none matching, the commit description is used; the head tags are
      never consulted. */
  lemma BranchSelection(
    s: GitRepoSituation, c: VersionDescription, bs: seq<VersionDescription>, ts: seq<VersionDescription>,
    lib: Library, otherTags: seq<string>)
    requires s.headBranch.Some?
    ensures var sel := SelectVersionDescription(s, c, bs, ts, lib);
      && (sel.refType == "branch" <==> exists i :: 0 <= i < |bs| && lib.matches(s.headBranch.value, bs[i].pattern))
      && (sel.refType == "branch" ==>
            && sel.refName == s.headBranch.value
            && exists i :: 0 <= i < |bs| && sel.description == bs[i] && lib.matches(s.headBranch.value, bs[i].pattern)
                 && forall j :: 0 <= j < i ==> !lib.matches(s.headBranch.value, bs[j].pattern))
      && (sel.refType != "branch" ==> sel == Selection("commit", s.headCommit, c))
      && SelectVersionDescription(s.(headTags := otherTags), c, bs, ts, lib) == sel
  {
    var branch := s.headBranch.value;
    var r := FirstIndex(bs, d => BranchRuleMatches(branch, d, lib));
    if r.Some? {
      assert BranchRuleMatches(branch, bs[r.value], lib);
    } else {
      forall i | 0 <= i < |bs| ensures !lib.matches(branch, bs[i].pattern) {
        assert !BranchRuleMatches(branch, bs[i], lib);
      }
    }
  }

  /** On a detached head with tags, the first tag rule that matches at least one
      head tag wins, and the ref is a matching head tag; with none matching, the
      commit description is used. */
  lemma TagSelection(
    s: GitRepoSituation, c: VersionDescription, bs: seq<VersionDescription>, ts: seq<VersionDescription>,
    lib: Library)
    requires s.headBranch.None? && s.headTags != []
    ensures var sel := SelectVersionDescription(s, c, bs, ts, lib);
      && (sel.refType == "tag" <==>
            exists i, k :: 0 <= i < |ts| && 0 <= k < |s.headTags| && lib.matches(s.headTags[k], ts[i].pattern))
      && (sel.refType == "tag" ==>
            exists i :: 0 <= i < |ts| && sel.description == ts[i]
              && sel.refName in s.headTags && lib.matches(sel.refName, ts[i].pattern)
              && forall j, k :: 0 <= j < i && 0 <= k < |s.headTags| ==> !lib.matches(s.headTags[k], ts[j].pattern))
      && (sel.refType != "tag" ==> sel == Selection("commit", s.headCommit, c))
  {
    var r := FirstIndex(ts, d => TagRuleMatches(s.headTags, d, lib));
    if r.Some? {
      var i := r.value;
      assert TagRuleMatches(s.headTags, ts[i], lib);
      forall j | 0 <= j < i ensures forall k :: 0 <= k < |s.headTags| ==> !lib.matches(s.headTags[k], ts[j].pattern) {
        assert !TagRuleMatches(s.headTags, ts[j], lib);
      }
      var k :| 0 <= k < |s.headTags| && s.headTags[k] == MaxMatchingTag(s.headTags, ts[i].pattern, lib).value;
    } else {
      forall i | 0 <= i < |ts| ensures forall k :: 0 <= k < |s.headTags| ==> !lib.matches(s.headTags[k], ts[i].pattern) {
        assert !TagRuleMatches(s.headTags, ts[i], lib);
      }
    }
  }

  /** The tag chosen by the winning tag rule is the maximum, in version order,
      of the head tags that rule's pattern matches. */
  lemma TagSelectionIsMaximum(
    s: GitRepoSituation, c: VersionDescription, bs: seq<VersionDescription>, ts: seq<VersionDescription>,
    lib: Library)
    requires TotalPreorder(lib.versionLe)
    requires SelectVersionDescription(s, c, bs, ts, lib).refType == "tag"
    ensures var sel := SelectVersionDescription(s, c, bs, ts, lib);
      forall t :: t in s.headTags && lib.matches(t, sel.description.pattern) ==> lib.versionLe(t, sel.refName)
  {
    var r := FirstIndex(ts, d => TagRuleMatches(s.headTags, d, lib));
    assert r.Some?;
    assert TagRuleMatches(s.headTags, ts[r.value], lib);
    MaxMatchingTagIsMaximum(s.headTags, ts[r.value].pattern, lib);
  }

  /** Every selection has one of the three ref types; the commit description
      with the head commit as ref is used exactly when no branch or tag rule was
      selected. */
  lemma CommitFallback(
    s: GitRepoSituation, c: VersionDescription, bs: seq<VersionDescription>, ts: seq<VersionDescription>,
    lib: Library)
    ensures var sel := SelectVersionDescription(s, c, bs, ts, lib);
      && sel.refType in {"commit", "branch", "tag"}
      && (sel.refType == "commit" <==>
            if s.headBranch.Some? then forall i :: 0 <= i < |bs| ==> !lib.matches(s.headBranch.value, bs[i].pattern)
            else forall i, k :: 0 <= i < |ts| && 0 <= k < |s.headTags| ==> !lib.matches(s.headTags[k], ts[i].pattern))
      && (sel.refType == "commit" ==> sel.refName == s.headCommit && sel.description == c)
  {
    if s.headBranch.Some? {
      BranchSelection(s, c, bs, ts, lib, s.headTags);
    } else if s.headTags != [] {
      TagSelection(s, c, bs, ts, lib);
    }
  }

  // ---- data map -----------------------------------------------------------

  /** `projectVersionDataMap`: the fixed entries, then `ref` and the ref type
      key, then all `refFields`, each `put` overriding earlier ones. */
  function VersionDataMap(
    currentVersion: string, s: GitRepoSituation, sel: Selection,
    refFields: map<string, string>, lib: Library): (m: map<string, string>)
    requires |s.headCommit| >= 7
    requires sel.refType in {"commit", "branch", "tag"}
    ensures m.Keys == {"version", "version.release", "commit", "commit.short", "commit.timestamp",
                       "commit.timestamp.datetime", "ref", sel.refType} + refFields.Keys
    ensures forall k :: k in refFields ==> m[k] == refFields[k]
    ensures "ref" !in refFields ==> m["ref"] == sel.refName
    ensures sel.refType !in refFields ==> m[sel.refType] == sel.refName
    ensures "version" !in refFields ==> m["version"] == currentVersion
    ensures "version.release" !in refFields ==> m["version.release"] == ReleaseVersion(currentVersion)
    ensures "commit" !in refFields && sel.refType != "commit" ==> m["commit"] == s.headCommit
    ensures "commit.short" !in refFields ==> |m["commit.short"]| == 7 && StartsWith(s.headCommit, m["commit.short"])
    ensures "commit.timestamp" !in refFields ==> m["commit.timestamp"] == IntToString(s.headCommitTimestamp)
    ensures "commit.timestamp.datetime" !in refFields ==>
      m["commit.timestamp.datetime"] == FormatHeadCommitTimestamp(s.headCommitTimestamp, lib)
  {
    map[
      "version" := currentVersion,
      "version.release" := ReleaseVersion(currentVersion),
      "commit" := s.headCommit,
      "commit.short" := s.headCommit[..7],
      "commit.timestamp" := IntToString(s.headCommitTimestamp),
      "commit.timestamp.datetime" := FormatHeadCommitTimestamp(s.headCommitTimestamp, lib),
      "ref" := sel.refName][sel.refType := sel.refName] + refFields
  }

  // ---- determineVersion ---------------------------------------------------

  method DetermineVersion(
    s: GitRepoSituation,
    commitDescription: VersionDescription,
    branchDescriptions: seq<VersionDescription>,
    tagDescriptions: seq<VersionDescription>,
    currentVersion: string,
    lib: Library) returns (d: GitVersionDetails)
    requires |s.headCommit| >= 7
    ensures var sel := SelectVersionDescription(s, commitDescription, branchDescriptions, tagDescriptions, lib);
      && d.refType == sel.refType
      && d.refName == sel.refName
      && d.refFields == lib.valueGroupMap(sel.description.pattern, sel.refName) - {"0"}
      && d.version == ReplaceChar(
           lib.substituteText(sel.description.versionFormat, VersionDataMap(currentVersion, s, sel, d.refFields, lib)),
           '/', '-')
    ensures d.clean == s.clean && d.commit == s.headCommit
    ensures "0" !in d.refFields
    ensures '/' !in d.version
  {
    var sel := SelectRule(s, commitDescription, branchDescriptions, tagDescriptions, lib);
    var gitRefType, gitRefName, versionDescription := sel.refType, sel.refName, sel.description;

    var refFields := lib.valueGroupMap(versionDescription.pattern, gitRefName);
    refFields := refFields - {"0"};

    var projectVersionDataMap: map<string, string> := map[];
    projectVersionDataMap := projectVersionDataMap["version" := currentVersion];
    projectVersionDataMap := projectVersionDataMap["version.release" := ReleaseVersion(currentVersion)];
    projectVersionDataMap := projectVersionDataMap["commit" := s.headCommit];
    projectVersionDataMap := projectVersionDataMap["commit.short" := s.headCommit[..7]];
    projectVersionDataMap := projectVersionDataMap["commit.timestamp" := IntToString(s.headCommitTimestamp)];
    projectVersionDataMap := projectVersionDataMap["commit.timestamp.datetime" :=
      FormatHeadCommitTimestamp(s.headCommitTimestamp, lib)];
    projectVersionDataMap := projectVersionDataMap["ref" := gitRefName];
    projectVersionDataMap := projectVersionDataMap[gitRefType := gitRefName];
    projectVersionDataMap := projectVersionDataMap + refFields;
    assert projectVersionDataMap == VersionDataMap(currentVersion, s, sel, refFields, lib);

    var gitVersion := ReplaceChar(lib.substituteText(versionDescription.versionFormat, projectVersionDataMap), '/', '-');
    d := GitVersionDetails(s.clean, s.headCommit, gitRefType, gitRefName, refFields, gitVersion);
  }

  /** The rule choice of `determineVersion`: branch rules in order when a
      branch is checked out, else tag rules in order when the head has tags,
      else the commit description. */
  method SelectRule(
    s: GitRepoSituation,
    commitDescription: VersionDescription,
    branchDescriptions: seq<VersionDescription>,
    tagDescriptions: seq<VersionDescription>,
    lib: Library) returns (sel: Selection)
    ensures sel == SelectVersionDescription(s, commitDescription, branchDescriptions, tagDescriptions, lib)
  {
    sel := Selection("commit", s.headCommit, commitDescription);
    if s.headBranch.Some? {
      var branch := s.headBranch.value;
      var i := 0;
      while i < |branchDescriptions|
        invariant 0 <= i <= |branchDescriptions|
        invariant forall j :: 0 <= j < i ==> !BranchRuleMatches(branch, branchDescriptions[j], lib)
        invariant sel == Selection("commit", s.headCommit, commitDescription)
      {
        if lib.matches(branch, branchDescriptions[i].pattern) {
          sel := Selection("branch", branch, branchDescriptions[i]);
          FirstIndexIs(branchDescriptions, d => BranchRuleMatches(branch, d, lib), i);
          return;
        }
        i := i + 1;
      }
    } else if s.headTags != [] {
      var i := 0;
      while i < |tagDescriptions|
        invariant 0 <= i <= |tagDescriptions|
        invariant forall j :: 0 <= j < i ==> !TagRuleMatches(s.headTags, tagDescriptions[j], lib)
        invariant sel == Selection("commit", s.headCommit, commitDescription)
      {
        var versionTag := MaxMatchingTagOf(s.headTags, tagDescriptions[i].pattern, lib);
        if versionTag.Some? {
          sel := Selection("tag", versionTag.value, tagDescriptions[i]);
          FirstIndexIs(tagDescriptions, d => TagRuleMatches(s.headTags, d, lib), i);
          return;
        }
        i := i + 1;
      }
    }
  }

  /** The stream over the head tags: keep a matching tag unless it is not
      above the one kept so far. */
  method MaxMatchingTagOf(tags: seq<string>, pattern: string, lib: Library) returns (versionTag: Option<string>)
    ensures versionTag == MaxMatchingTag(tags, pattern, lib)
  {
    versionTag := None;
    var k := 0;
    while k < |tags|
      invariant 0 <= k <= |tags|
      invariant versionTag == MaxMatchingTag(tags[..k], pattern, lib)
    {
      var tag := tags[k];
      assert tags[..k + 1][..k] == tags[..k];
      if lib.matches(tag, pattern) {
        if versionTag.None? || !lib.versionLe(tag, versionTag.value) {
          versionTag := Some(tag);
        }
      }
      k := k + 1;
    }
    assert tags[..k] == tags;
  }
}
