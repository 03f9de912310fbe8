/** The Gradle plugin's ref resolution (`getGitVersionDetails`) and the
    `git.tag` / `git.branch` command-option overrides of the git situation.
    Unlike `GitVersioning.determineVersion`, tags are considered first when the
    head is detached or tags are preferred, the tag taken is the lowest
    accepted one in version order, and when no rule applies a built-in default
    rule is used. */
module PluginVersioning {
  import opened Wrappers
  import opened Search
  import opened VersionOrder
  import opened PluginModel
  import opened PluginConfiguration

  // ---- the git situation and its command-option overrides -----------------

  /** The `GitSituation` object: the branch, the tags and the describe tag
      pattern are set on it after it is read from the repository. */
  class Situation {
    const hash: string
    const timestamp: CommitTime
    const clean: bool
    var branch: Option<string>
    var tags: seq<string>
    var describeTagPattern: string

    constructor (snapshot: GitSituation)
      ensures Snapshot() == snapshot
    {
      hash := snapshot.hash;
      timestamp := snapshot.timestamp;
      clean := snapshot.clean;
      branch := snapshot.branch;
      tags := snapshot.tags;
      describeTagPattern := snapshot.describeTagPattern;
    }

    function Snapshot(): GitSituation
      reads this
    {
      GitSituation(hash, timestamp, branch, tags, clean, describeTagPattern)
    }

    /** `setDescribeTagPattern`. */
    method SetDescribeTagPattern(pattern: string)
      modifies this
      ensures Snapshot() == old(Snapshot()).(describeTagPattern := pattern)
    {
      describeTagPattern := pattern;
    }
  }

  /** The situation after the command options: a provided tag detaches the
      head and makes that tag (none when it is empty) the only head tag; a
      provided branch then sets the branch. Nothing else changes. */
  function WithCommandOverrides(s: GitSituation, providedTag: Option<string>, providedBranch: Option<string>): (r: GitSituation)
    ensures r.(branch := s.branch, tags := s.tags) == s
    ensures providedBranch.Some? ==> !r.IsDetached() && r.branch == providedBranch
    ensures providedBranch.None? ==> (r.IsDetached() <==> providedTag.Some? || s.IsDetached())
    ensures providedTag.Some? ==> r.tags == (if providedTag.value == "" then [] else [providedTag.value])
    ensures providedTag.None? ==> r.tags == s.tags
    ensures providedTag.None? && providedBranch.None? ==> r == s
  {
    var afterTag :=
      if providedTag.Some? then
        s.(branch := None, tags := if providedTag.value == "" then [] else [providedTag.value])
      else s;
    if providedBranch.Some? then afterTag.(branch := providedBranch) else afterTag
  }

  /** The override block of `getGitSituation`, on the situation object. */
  method ApplyCommandOverrides(s: Situation, providedTag: Option<string>, providedBranch: Option<string>)
    modifies s
    ensures s.Snapshot() == WithCommandOverrides(old(s.Snapshot()), providedTag, providedBranch)
  {
    if providedTag.Some? {
      s.branch := None;
      s.tags := if providedTag.value == "" then [] else [providedTag.value];
    }
    if providedBranch.Some? {
      s.branch := providedBranch;
    }
  }

  // ---- getGitVersionDetails ----------------------------------------------

  /** A rule applies to a ref name when it has no pattern or its pattern matches. */
  predicate Accepts(d: VersionDescription, name: string, lib: Library) {
    d.pattern.None? || lib.matches(name, d.pattern.value)
  }

  /** The rule accepts one of the (sorted) head tags. */
  predicate AcceptsSomeTag(d: VersionDescription, sortedTags: seq<string>, lib: Library) {
    FirstIndex(sortedTags, t => Accepts(d, t, lib)).Some?
  }

  /** Tag rules are tried when there are head tags and the head is detached
      or tags are preferred. */
  predicate TagsConsidered(s: GitSituation, preferTags: bool) {
    s.tags != [] && (s.IsDetached() || preferTags)
  }

  /** What `getGitVersionDetails` returns. */
  function GitVersionDetailsOf(s: GitSituation, config: Config, preferTags: bool, lib: Library): GitVersionDetails {
    var sortedTags := SortByVersion(s.tags, lib.versionLe);
    var tagRule :=
      if TagsConsidered(s, preferTags) then FirstIndex(config.tags, d => AcceptsSomeTag(d, sortedTags, lib)) else None;
    if tagRule.Some? then
      var d := config.tags[tagRule.value];
      var k := FirstIndex(sortedTags, t => Accepts(d, t, lib)).value;
      GitVersionDetails(s.hash, TAG, sortedTags[k], d)
    else if s.IsDetached() then
      if config.commit.Some? && Accepts(config.commit.value, s.hash, lib) then
        GitVersionDetails(s.hash, COMMIT, s.hash, config.commit.value)
      else
        GitVersionDetails(s.hash, COMMIT, s.hash, DefaultDescription(DefaultCommitVersionFormat))
    else
      var i := FirstIndex(config.branches, d => Accepts(d, s.branch.value, lib));
      if i.Some? then
        GitVersionDetails(s.hash, BRANCH, s.branch.value, config.branches[i.value])
      else
        GitVersionDetails(s.hash, BRANCH, s.branch.value, DefaultDescription(DefaultBranchVersionFormat))
  }

  /** `getGitVersionDetails`: nested searches that return on the first hit. */
  method GetGitVersionDetails(s: GitSituation, config: Config, preferTags: bool, lib: Library) returns (details: GitVersionDetails)
    ensures details == GitVersionDetailsOf(s, config, preferTags, lib)
  {
    var headCommit := s.hash;

    // detached tag
    if s.tags != [] && (s.IsDetached() || preferTags) {
      var sortedHeadTags := SortByVersion(s.tags, lib.versionLe);
      for i := 0 to |config.tags|
        invariant forall j :: 0 <= j < i ==> !AcceptsSomeTag(config.tags[j], sortedHeadTags, lib)
      {
        var tagConfig := config.tags[i];
        for k := 0 to |sortedHeadTags|
          invariant forall m :: 0 <= m < k ==> !Accepts(tagConfig, sortedHeadTags[m], lib)
        {
          var headTag := sortedHeadTags[k];
          if tagConfig.pattern.None? || lib.matches(headTag, tagConfig.pattern.value) {
            FirstIndexIs(sortedHeadTags, t => Accepts(tagConfig, t, lib), k);
            FirstIndexIs(config.tags, d => AcceptsSomeTag(d, sortedHeadTags, lib), i);
            return GitVersionDetails(headCommit, TAG, headTag, tagConfig);
          }
        }
      }
    }

    // detached commit
    if s.IsDetached() {
      if config.commit.Some? {
        if config.commit.value.pattern.None? || lib.matches(headCommit, config.commit.value.pattern.value) {
          return GitVersionDetails(headCommit, COMMIT, headCommit, config.commit.value);
        }
      }
      return GitVersionDetails(headCommit, COMMIT, headCommit, DefaultDescription(DefaultCommitVersionFormat));
    }

    // branch
    var headBranch := s.branch.value;
    for i := 0 to |config.branches|
      invariant forall j :: 0 <= j < i ==> !Accepts(config.branches[j], headBranch, lib)
    {
      var branchConfig := config.branches[i];
      if branchConfig.pattern.None? || lib.matches(headBranch, branchConfig.pattern.value) {
        FirstIndexIs(config.branches, d => Accepts(d, headBranch, lib), i);
        return GitVersionDetails(headCommit, BRANCH, headBranch, branchConfig);
      }
    }
    return GitVersionDetails(headCommit, BRANCH, headBranch, DefaultDescription(DefaultBranchVersionFormat));
  }

  // ---- what getGitVersionDetails promises ---------------------------------

  /** A rule accepts one of the sorted head tags exactly when it accepts one
      of the head tags. */
  lemma AcceptsSomeTagIff(d: VersionDescription, tags: seq<string>, lib: Library)
    ensures AcceptsSomeTag(d, SortByVersion(tags, lib.versionLe), lib) <==> exists t :: t in tags && Accepts(d, t, lib)
  {
    var sortedTags := SortByVersion(tags, lib.versionLe);
    assert forall t :: t in sortedTags <==> t in tags by {
      forall t ensures t in sortedTags <==> t in tags {
        assert t in sortedTags <==> t in multiset(sortedTags);
        assert t in tags <==> t in multiset(tags);
      }
    }
    if exists t :: t in tags && Accepts(d, t, lib) {
      var t :| t in tags && Accepts(d, t, lib);
      var k :| 0 <= k < |sortedTags| && sortedTags[k] == t;
      assert (t => Accepts(d, t, lib))(sortedTags[k]);
    }
  }

  /** Tag resolution: a tag is taken exactly when tags are considered and
      some tag rule accepts some head tag. The rule taken is the first tag rule
      that accepts any head tag, and the ref name is a head tag it accepts. */
  lemma {:induction false} TagSelection(s: GitSituation, config: Config, preferTags: bool, lib: Library)
    ensures GitVersionDetailsOf(s, config, preferTags, lib).refType == TAG <==>
      TagsConsidered(s, preferTags) &&
      exists i, t :: 0 <= i < |config.tags| && t in s.tags && Accepts(config.tags[i], t, lib)
    ensures var d := GitVersionDetailsOf(s, config, preferTags, lib);
      d.refType == TAG ==>
        && d.commit == s.hash
        && d.refName in s.tags && Accepts(d.config, d.refName, lib)
        && exists i :: 0 <= i < |config.tags| && d.config == config.tags[i] &&
             forall j, t :: 0 <= j < i && t in s.tags ==> !Accepts(config.tags[j], t, lib)
  {
    var d := GitVersionDetailsOf(s, config, preferTags, lib);
    var sortedTags := SortByVersion(s.tags, lib.versionLe);
    assert forall t :: t in sortedTags <==> t in s.tags by {
      forall t ensures t in sortedTags <==> t in s.tags {
        assert t in sortedTags <==> t in multiset(sortedTags);
        assert t in s.tags <==> t in multiset(s.tags);
      }
    }
    forall i | 0 <= i < |config.tags| {
      AcceptsSomeTagIff(config.tags[i], s.tags, lib);
    }
    if TagsConsidered(s, preferTags) {
      var tagRule := FirstIndex(config.tags, d => AcceptsSomeTag(d, sortedTags, lib));
      if tagRule.Some? {
        var i := tagRule.value;
        assert AcceptsSomeTag(config.tags[i], sortedTags, lib);
        var t :| t in s.tags && Accepts(config.tags[i], t, lib);
        assert d.refName in sortedTags;
        forall j, t | 0 <= j < i && t in s.tags ensures !Accepts(config.tags[j], t, lib) {
          assert !AcceptsSomeTag(config.tags[j], sortedTags, lib);
        }
      } else {
        forall i, t | 0 <= i < |config.tags| && t in s.tags ensures !Accepts(config.tags[i], t, lib) {
          assert !AcceptsSomeTag(config.tags[i], sortedTags, lib);
        }
      }
    }
  }

  /** The tag taken is the lowest head tag in version order that the chosen
      rule accepts (the first one in ascending order). */
  lemma TagSelectionIsLeast(s: GitSituation, config: Config, preferTags: bool, lib: Library)
    requires TotalPreorder(lib.versionLe)
    ensures var d := GitVersionDetailsOf(s, config, preferTags, lib);
      d.refType == TAG ==> forall t :: t in s.tags && Accepts(d.config, t, lib) ==> lib.versionLe(d.refName, t)
  {
    var d := GitVersionDetailsOf(s, config, preferTags, lib);
    if d.refType == TAG {
      var sortedTags := SortByVersion(s.tags, lib.versionLe);
      SortByVersionSorted(s.tags, lib.versionLe);
      var p := t => Accepts(d.config, t, lib);
      var k := FirstIndex(sortedTags, p).value;
      assert d.refName == sortedTags[k];
      FirstInSortedIsLeast(sortedTags, lib.versionLe, k, p);
      forall t | t in s.tags && Accepts(d.config, t, lib) ensures lib.versionLe(d.refName, t) {
        assert t in multiset(s.tags);
        assert t in sortedTags by { assert t in multiset(sortedTags); }
        assert p(t);
      }
    }
  }

  /** Of several head tags with the same version that the chosen rule
      accepts, the one listed first among the head tags is taken: the sort is
      stable, so no earlier accepted head tag is at or below the chosen one. */
  lemma TagSelectionIsStable(s: GitSituation, config: Config, preferTags: bool, lib: Library)
    requires TotalPreorder(lib.versionLe)
    ensures var d := GitVersionDetailsOf(s, config, preferTags, lib);
      d.refType == TAG ==>
        exists m :: 0 <= m < |s.tags| && s.tags[m] == d.refName &&
          forall j :: 0 <= j < m && Accepts(d.config, s.tags[j], lib) ==> !lib.versionLe(s.tags[j], d.refName)
  {
    var d := GitVersionDetailsOf(s, config, preferTags, lib);
    if d.refType == TAG {
      var sortedTags := SortByVersion(s.tags, lib.versionLe);
      var p := t => Accepts(d.config, t, lib);
      var k := FirstIndex(sortedTags, p).value;
      assert d.refName == sortedTags[k];
      SortedFirstAcceptedIsFirstLeast(s.tags, lib.versionLe, p);
      FirstLeastIsEarliestLeast(s.tags, lib.versionLe, p);
      assert FirstAccepted(sortedTags, p) == Some(d.refName);
    }
  }

  /** Detached head without a tag: the ref is the head commit, under the
      configured commit rule when there is one that accepts the commit, and
      under the default `${commit}` rule otherwise; resolution never fails. */
  lemma CommitFallback(s: GitSituation, config: Config, preferTags: bool, lib: Library)
    requires s.IsDetached()
    ensures var d := GitVersionDetailsOf(s, config, preferTags, lib);
      d.refType != TAG ==>
        && d.refType == COMMIT && d.commit == s.hash && d.refName == s.hash
        && d.config == (if config.commit.Some? && Accepts(config.commit.value, s.hash, lib) then config.commit.value
                        else DefaultDescription(DefaultCommitVersionFormat))
    ensures s.tags == [] ==> GitVersionDetailsOf(s, config, preferTags, lib).refType == COMMIT
  {
  }

  /** Attached head without a tag: the ref is the head branch, under the first
      branch rule accepting it, or the default `${branch}-SNAPSHOT` rule when
      none does. Unless tags are preferred, the head tags play no part. */
  lemma BranchSelection(s: GitSituation, config: Config, preferTags: bool, lib: Library, otherTags: seq<string>)
    requires !s.IsDetached()
    ensures var d := GitVersionDetailsOf(s, config, preferTags, lib);
      d.refType != TAG ==>
        && d.refType == BRANCH && d.commit == s.hash && d.refName == s.branch.value
        && ((exists i :: 0 <= i < |config.branches| && Accepts(config.branches[i], s.branch.value, lib)) ==>
              exists i :: 0 <= i < |config.branches| && d.config == config.branches[i] &&
                Accepts(config.branches[i], s.branch.value, lib) &&
                forall j :: 0 <= j < i ==> !Accepts(config.branches[j], s.branch.value, lib))
        && ((forall i :: 0 <= i < |config.branches| ==> !Accepts(config.branches[i], s.branch.value, lib)) ==>
              d.config == DefaultDescription(DefaultBranchVersionFormat))
    ensures !preferTags ==>
      && GitVersionDetailsOf(s, config, preferTags, lib).refType == BRANCH
      && GitVersionDetailsOf(s, config, preferTags, lib) == GitVersionDetailsOf(s.(tags := otherTags), config, preferTags, lib)
  {
  }

  /** Once `setDefaults` has run, the resolved rule always has a version format. */
  lemma ResolvedRuleHasFormat(s: GitSituation, config: Config, preferTags: bool, lib: Library)
    requires FormatsSet(config)
    ensures GitVersionDetailsOf(s, config, preferTags, lib).config.versionFormat.Some?
  {
  }

  /** A non-empty `git.tag` option alone detaches the head with that tag as its
      only tag: the tag is taken when some tag rule accepts it, and the head
      commit otherwise. */
  lemma ProvidedTagSelection(s: GitSituation, tag: string, config: Config, preferTags: bool, lib: Library)
    requires tag != ""
    ensures var d := GitVersionDetailsOf(WithCommandOverrides(s, Some(tag), None), config, preferTags, lib);
      && ((exists i :: 0 <= i < |config.tags| && Accepts(config.tags[i], tag, lib)) ==> d.refType == TAG && d.refName == tag)
      && ((forall i :: 0 <= i < |config.tags| ==> !Accepts(config.tags[i], tag, lib)) ==> d.refType == COMMIT && d.refName == s.hash)
  {
    var o := WithCommandOverrides(s, Some(tag), None);
    assert o.tags == [tag];
    TagSelection(o, config, preferTags, lib);
    if exists i :: 0 <= i < |config.tags| && Accepts(config.tags[i], tag, lib) {
      var i :| 0 <= i < |config.tags| && Accepts(config.tags[i], tag, lib);
      assert tag in o.tags;
    }
  }

  /** A `git.branch` option makes the provided branch the ref when tags are
      not preferred, whatever the `git.tag` option says. */
  lemma ProvidedBranchSelection(s: GitSituation, providedTag: Option<string>, branch: string, config: Config, lib: Library)
    ensures var d := GitVersionDetailsOf(WithCommandOverrides(s, providedTag, Some(branch)), config, false, lib);
      d.refType == BRANCH && d.refName == branch
  {
  }
}
