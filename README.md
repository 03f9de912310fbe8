# Git versioning resolvers, modelled in Dafny

This project models the two version resolvers of the Gradle git-versioning
plugin and proves what they promise.

* **`GitVersioning.determineVersion`** is the resolver of the shared core
  library (module `GitVersioning`). It picks a rule:
  - when a branch is checked out, the first branch rule whose pattern matches
    the branch;
  - otherwise, when the head has tags, the first tag rule that matches some
    head tag, taking the highest such tag in version order;
  - otherwise, the commit description.

  It then builds the map of placeholder values (version, release version,
  commit, short commit, timestamp, date-time, ref, ref type and the pattern's
  groups), renders the rule's version format and replaces `/` by `-`.
* **`GitVersioningPluginExtension.apply`** is the plugin's own resolver
  (modules `PluginConfiguration`, `PluginVersioning`, `PluginPlaceholders` and
  `PluginExtension`). It runs these steps in the source's order:
  1. fill in default version formats;
  2. honour the `versioning.disable` switch;
  3. apply the `git.tag` / `git.branch` overrides;
  4. resolve the ref: tags, when the head is detached or tags are preferred,
     sorted by version; then the commit rule and the default commit rule; then
     the branch rules and the default branch rule;
  5. index the chosen rule's property descriptions by name;
  6. decide whether to update `gradle.properties`;
  7. set the describe tag pattern;
  8. build the global placeholder map and the `git.*` project properties.

  Command options are looked up as a project property, then as an
  environment variable (`VERSIONING_…`), then as a JVM system property.

Library code the resolvers call is passed in as a `Library` value of
functions:
- regex matching and named-group extraction;
- template substitution;
- the Maven `DefaultArtifactVersion` order;
- `git describe`;
- calendar rendering.

The properties proved about the order require only that it is a total
preorder. The process environment and the build's properties come in as an
`Environment` value.

State that the source changes in place is modelled in place:
- `PluginVersioning.Situation` is the git situation object that the overrides
  and the describe tag pattern are written into.
- `PluginExtension.Extension` holds the four fields `apply` assigns.

Each method is proved against a specification function. That function's
properties are proved as lemmas.

The loops of `setDefaults`, `getGitVersionDetails` and
`generateGlobalFormatPlaceholderMap` (over the ref pattern groups, the
describe groups, the project properties and the environment variables) are
methods with loop invariants. `generateGitProjectProperties` has no loop: it
is a method doing the same sequence of `put`s as the source.

Supporting modules:
- `Text`: ASCII case mapping, `replace`, `parseBoolean`, the
  `-SNAPSHOT$` removal and decimal rendering.
- `VersionOrder`: a stable sort by a version order.
- `Search`: first index satisfying a predicate.
- `Wrappers`: `Option` and `Result`.

Facts about the code that the model keeps:
- The groups of the ref pattern match are placeholders under their bare
  group name.
- The groups of the describe tag pattern are placeholders under `describe.`
  followed by the group name.
- Every string-valued project property is a placeholder under its own name.
- Placeholders are exactly the keys the code puts: the commit and its
  timestamp parts, the ref, `dirty`, the describe results, the project
  properties and the environment variables (`env.` followed by the name).
- When no configured rule applies, resolution does not fail: the plugin
  takes its built-in default rules (`${commit}` for a detached head,
  `${branch}-SNAPSHOT` for a branch), and `determineVersion` takes the commit
  description it is given.
- How an unknown placeholder in a format is rendered is up to
  `substituteText`, which is library code here. Ref overrides are taken as
  given.
- The plugin's `commit.timestamp.datetime` placeholder is rendered in the
  commit's own zone, and its sentinel applies when the epoch second is `<= 0`.
  `determineVersion` formats in UTC, and its sentinel applies only when the
  timestamp is exactly `0`.
- The model has two error outcomes:
  - `OptionNotAString`: a command option given as a non-string project
    property (a `ClassCastException`);
  - `DuplicateProperty`: two property descriptions with the same name
    (`Collectors.toMap`).
  A malformed pattern (`PatternSyntaxException` from `Pattern.compile`) is
  not one of them: patterns are handled by the library.

## Model

| member | source | states |
|---|---|---|
| GitVersioning.FormatHeadCommitTimestamp | src/main/java/me/qoomon/gitversioning/GitVersioning.java:98-106 | timestamp 0 renders as the sentinel `00000000.000000`; any other timestamp as its UTC `yyyyMMdd.HHmmss` rendering |
| GitVersioning.MaxMatchingTag | src/main/java/me/qoomon/gitversioning/GitVersioning.java:60-62 | the result is a head tag matching the pattern; there is none exactly when no head tag matches |
| GitVersioning.MaxMatchingTagIsMaximum | src/main/java/me/qoomon/gitversioning/GitVersioning.java:60-62 | the tag taken is at least every matching head tag in version order |
| GitVersioning.MaxMatchingTagIsFirstMaximum | src/main/java/me/qoomon/gitversioning/GitVersioning.java:60-62 | among equally high tags, `max` keeps the first: no earlier matching tag is strictly above it |
| GitVersioning.MaxMatchingTagOf | src/main/java/me/qoomon/gitversioning/GitVersioning.java:60-62 | the loop over the head tags yields exactly the tag the `max` fold keeps |
| GitVersioning.SelectRule | src/main/java/me/qoomon/gitversioning/GitVersioning.java:40-70 | the loops over branch and tag rules, with their early `break`, yield exactly the rule choice that the selection lemmas describe |
| GitVersioning.BranchSelection | src/main/java/me/qoomon/gitversioning/GitVersioning.java:40-56 | with a head branch, the branch is taken iff some branch rule matches it; the rule is the first matching one; otherwise the commit description and head commit are used, whatever the tags |
| GitVersioning.TagSelection | src/main/java/me/qoomon/gitversioning/GitVersioning.java:57-69 | on a detached head with tags, a tag is taken iff some tag rule matches some head tag; the rule is the first such rule and the tag matches it; otherwise the commit fallback |
| GitVersioning.TagSelectionIsMaximum | src/main/java/me/qoomon/gitversioning/GitVersioning.java:59-69 | the tag taken is the highest head tag, in version order, that the chosen rule matches |
| GitVersioning.CommitFallback | src/main/java/me/qoomon/gitversioning/GitVersioning.java:40-70 | the ref type is `commit` exactly when no branch rule matches the head branch (or, detached, no tag rule matches any head tag); the ref is then the head commit and the rule the commit description |
| GitVersioning.VersionDataMap | src/main/java/me/qoomon/gitversioning/GitVersioning.java:71-83 | the key set; pattern groups override everything; otherwise each key holds its documented value (release version, 7-character prefix of the commit, decimal timestamp, date-time, ref name under `ref` and under the ref type) |
| GitVersioning.DetermineVersion | src/main/java/me/qoomon/gitversioning/GitVersioning.java:28-96 | ref type, ref name and rule are the selection; ref fields are the pattern's groups without group `0`; the version is the substituted format with `/` replaced by `-` and holds no `/`; clean flag and commit are copied |
| Text.ReplaceChar | src/main/java/me/qoomon/gitversioning/GitVersioning.java:85-86 | same length, every occurrence of the character replaced, nothing else changed, none left |
| Text.ReleaseVersionRemovesSuffix | src/main/java/me/qoomon/gitversioning/GitVersioning.java:76 | a version ending in `-SNAPSHOT` (before an optional final line terminator, as `$` allows) loses exactly that suffix |
| Text.ReleaseVersionKeepsOthers | src/main/java/me/qoomon/gitversioning/GitVersioning.java:76 | a version that does not end so is returned unchanged |
| Text.NatToStringRoundTrip | src/main/java/me/qoomon/gitversioning/GitVersioning.java:79 | the decimal rendering of a timestamp reads back as the same number |
| Text.NatToStringInjective | src/main/java/me/qoomon/gitversioning/GitVersioning.java:79 | distinct timestamps render differently |
| Text.ParseBoolean | src/main/java/me/qoomon/gradle/gitversioning/GitVersioningPluginExtension.java:76-78 | true exactly for `true` in any letter case |
| Text.LeftPad | src/main/java/me/qoomon/gradle/gitversioning/GitVersioningPluginExtension.java:314-318 | result has the requested width or the input's, ends with the input and is padded in front |
| VersionOrder.SortByVersion | src/main/java/me/qoomon/gradle/gitversioning/GitVersioningPluginExtension.java:237-238 | the sorted tags are a permutation of the head tags |
| VersionOrder.SortByVersionSorted | src/main/java/me/qoomon/gradle/gitversioning/GitVersioningPluginExtension.java:237-238 | the sorted tags are in ascending version order |
| VersionOrder.FirstInSortedIsLeast | src/main/java/me/qoomon/gradle/gitversioning/GitVersioningPluginExtension.java:239-243 | the first sorted tag that a rule accepts is at most every accepted tag |
| VersionOrder.FirstLeastIsEarliestLeast | src/main/java/me/qoomon/gradle/gitversioning/GitVersioningPluginExtension.java:237-243 | the reference choice picks an accepted element at or below every accepted one, with no earlier accepted element at or below it; it picks nothing exactly when nothing is accepted |
| VersionOrder.InsertFirstAccepted | src/main/java/me/qoomon/gradle/gitversioning/GitVersioningPluginExtension.java:237-238 | inserting into a sorted list puts the new element first among the accepted ones exactly when it is accepted and at or below the former first |
| VersionOrder.SortedFirstAcceptedIsFirstLeast | src/main/java/me/qoomon/gradle/gitversioning/GitVersioningPluginExtension.java:237-243 | the stable sort followed by the first accepted element equals the reference choice on the unsorted tags |
| PluginConfiguration.ConfigWithDefaults | src/main/java/me/qoomon/gradle/gitversioning/GitVersioningPluginExtension.java:401-417 | every branch, tag and commit rule gets its default format only when it has none; everything else is unchanged; all formats are then set; idempotent |
| PluginConfiguration.SetDefaults | src/main/java/me/qoomon/gradle/gitversioning/GitVersioningPluginExtension.java:401-417 | the loops over branch and tag rules and the commit rule compute exactly the defaulted configuration |
| PluginConfiguration.PlainOptionName | src/main/java/me/qoomon/gradle/gitversioning/GitVersioningPluginExtension.java:422 | the leading `versioning.` is removed when present, and only then |
| PluginConfiguration.UnderscoreBeforeUpperPositions | src/main/java/me/qoomon/gradle/gitversioning/GitVersioningPluginExtension.java:424 | each character lands one place further per upper-case letter up to it, every upper-case letter right behind its own `_`, and the length grows by the number of upper-case letters |
| PluginConfiguration.UnderscoreBeforeUpperProperties | src/main/java/me/qoomon/gradle/gitversioning/GitVersioningPluginExtension.java:424 | splitting before upper-case letters and joining with `_` only inserts underscores, each before an upper-case letter, and leaves names without capitals alone |
| PluginConfiguration.SeparateWords | src/main/java/me/qoomon/gradle/gitversioning/GitVersioningPluginExtension.java:424 | exactly one `_` is inserted before each upper-case letter after the first character and nothing else changes: the length grows by their number, each character sits at its shifted position, and names without such capitals are unchanged |
| PluginConfiguration.EnvironmentVariableName | src/main/java/me/qoomon/gradle/gitversioning/GitVersioningPluginExtension.java:423-426 | `VERSIONING_` followed, character by character, by the separated option name without `versioning.`, `.` as `_`, in upper case; no `.` and no lower-case letter |
| PluginConfiguration.EnvironmentVariableNameIgnoresPrefix | src/main/java/me/qoomon/gradle/gitversioning/GitVersioningPluginExtension.java:423-426 | `versioning.<name>` and `<name>` are read from the same environment variable |
| PluginConfiguration.EnvironmentVariableNameWithoutCapitals | src/main/java/me/qoomon/gradle/gitversioning/GitVersioningPluginExtension.java:423-426 | a name without inner capitals becomes its upper-case spelling with `_` for `.` after `VERSIONING_` |
| PluginConfiguration.GetCommandOption | src/main/java/me/qoomon/gradle/gitversioning/GitVersioningPluginExtension.java:419-433 | a non-string project property fails with `OptionNotAString` (and only then); a string project property wins; otherwise the environment variable, then the system property |
| PluginConfiguration.IsDisabled | src/main/java/me/qoomon/gradle/gitversioning/GitVersioningPluginExtension.java:74-88 | a present command option decides by `parseBoolean`; only an absent one defers to the configuration |
| PluginConfiguration.PreferTagsOption | src/main/java/me/qoomon/gradle/gitversioning/GitVersioningPluginExtension.java:435-444 | the command option, parsed, when present; else the configuration |
| PluginConfiguration.UpdateGradlePropertiesFileOption | src/main/java/me/qoomon/gradle/gitversioning/GitVersioningPluginExtension.java:446-461 | the first of command option, rule setting and global setting that is present; false when none is |
| PluginConfiguration.DescribeTagPattern | src/main/java/me/qoomon/gradle/gitversioning/GitVersioningPluginExtension.java:463-474 | the rule's pattern, else the global one, else `.*` |
| PluginVersioning.Situation.SetDescribeTagPattern | src/main/java/me/qoomon/gradle/gitversioning/GitVersioningPluginExtension.java:121 | only the describe tag pattern of the situation changes |
| PluginVersioning.WithCommandOverrides | src/main/java/me/qoomon/gradle/gitversioning/GitVersioningPluginExtension.java:216-226 | a provided tag detaches the head and becomes its only tag (an empty one clears the tags); a provided branch re-attaches the head on that branch; nothing else changes; no overrides, no change |
| PluginVersioning.ApplyCommandOverrides | src/main/java/me/qoomon/gradle/gitversioning/GitVersioningPluginExtension.java:216-226 | updates the situation object in place to exactly the overridden situation |
| PluginVersioning.GetGitVersionDetails | src/main/java/me/qoomon/gradle/gitversioning/GitVersioningPluginExtension.java:231-276 | the nested loops over tag rules and sorted tags, then the commit and branch rules, return exactly the resolution function's result |
| PluginVersioning.AcceptsSomeTagIff | src/main/java/me/qoomon/gradle/gitversioning/GitVersioningPluginExtension.java:237-244 | a rule accepts some sorted tag exactly when it accepts some head tag (a rule without pattern accepts all) |
| PluginVersioning.TagSelection | src/main/java/me/qoomon/gradle/gitversioning/GitVersioningPluginExtension.java:234-246 | a tag is taken iff tags are considered (detached or preferred) and some tag rule accepts some head tag; the rule is the first such rule, the tag a head tag it accepts |
| PluginVersioning.TagSelectionIsStable | src/main/java/me/qoomon/gradle/gitversioning/GitVersioningPluginExtension.java:236-243 | of equally versioned accepted head tags, the one listed first is taken: no earlier accepted head tag is at or below it |
| PluginVersioning.TagSelectionIsLeast | src/main/java/me/qoomon/gradle/gitversioning/GitVersioningPluginExtension.java:236-243 | the tag taken is the lowest accepted head tag in version order |
| PluginVersioning.CommitFallback | src/main/java/me/qoomon/gradle/gitversioning/GitVersioningPluginExtension.java:248-260 | a detached head not resolved to a tag resolves to the head commit, under the commit rule when it accepts the hash, else under the default `${commit}` rule; without head tags it always resolves to the commit |
| PluginVersioning.BranchSelection | src/main/java/me/qoomon/gradle/gitversioning/GitVersioningPluginExtension.java:262-275 | an attached head resolves to the first branch rule accepting the branch, else the default `${branch}-SNAPSHOT` rule; without preferred tags the tags do not matter |
| PluginVersioning.ResolvedRuleHasFormat | src/main/java/me/qoomon/gradle/gitversioning/GitVersioningPluginExtension.java:231-276 | after defaults are set, every resolved rule has a version format |
| PluginVersioning.ProvidedTagSelection | src/main/java/me/qoomon/gradle/gitversioning/GitVersioningPluginExtension.java:216-221 | with a provided non-empty tag, the ref is that tag when some tag rule accepts it, else the commit |
| PluginVersioning.ProvidedBranchSelection | src/main/java/me/qoomon/gradle/gitversioning/GitVersioningPluginExtension.java:222-226 | with a provided branch and tags not preferred, the ref is that branch whatever tag was provided |
| PluginPlaceholders.Slugify | src/main/java/me/qoomon/gradle/gitversioning/GitVersioningPluginExtension.java:478-482 | each character is the lower-case of the input's, with `/` as `-`: same length, no `/`, no upper-case letter |
| PluginPlaceholders.SlugifyIdempotent | src/main/java/me/qoomon/gradle/gitversioning/GitVersioningPluginExtension.java:478-482 | slugifying a slug changes nothing |
| PluginPlaceholders.GenerateGlobalFormatPlaceholderMap | src/main/java/me/qoomon/gradle/gitversioning/GitVersioningPluginExtension.java:303-373 | the sequence of puts builds exactly the layered placeholder map |
| PluginPlaceholders.RefGroupValue | src/main/java/me/qoomon/gradle/gitversioning/GitVersioningPluginExtension.java:330-339 | each ref pattern group reads as its captured value, or "" when it took no part, and its `.slug` key as the slug of that |
| PluginPlaceholders.DescribeGroupValue | src/main/java/me/qoomon/gradle/gitversioning/GitVersioningPluginExtension.java:353-360 | each describe group reads as its value in the describe tag, or null when absent, whose `.slug` then throws |
| PluginPlaceholders.GlobalPlaceholderOverrides | src/main/java/me/qoomon/gradle/gitversioning/GitVersioningPluginExtension.java:362-370 | an environment variable decides its `env.` key; otherwise a string project property decides its key |
| PluginPlaceholders.BeforeDescribeGroupsLayers | src/main/java/me/qoomon/gradle/gitversioning/GitVersioningPluginExtension.java:305-351 | dirty and describe entries win over earlier puts; commit and ref entries survive unless a ref group overwrites them |
| PluginPlaceholders.GlobalPlaceholderLayers | src/main/java/me/qoomon/gradle/gitversioning/GitVersioningPluginExtension.java:353-370 | a key outside the describe groups, properties and environment keeps its earlier entry, and is present only if it was |
| PluginPlaceholders.DirtyPlaceholderValues | src/main/java/me/qoomon/gradle/gitversioning/GitVersioningPluginExtension.java:341-344 | `dirty` and `dirty.snapshot` read `-DIRTY` and `-SNAPSHOT` for a dirty worktree and "" for a clean one, unless a project property overrides them |
| PluginPlaceholders.RefPlaceholderValue | src/main/java/me/qoomon/gradle/gitversioning/GitVersioningPluginExtension.java:322-328 | `ref` reads the resolved ref name unless a ref group or project property of that name overrides it |
| PluginPlaceholders.CommitPlaceholderValue | src/main/java/me/qoomon/gradle/gitversioning/GitVersioningPluginExtension.java:307-328 | `commit` reads the head hash, or the ref name when the ref is a commit, unless overridden |
| PluginPlaceholders.GenerateGitProjectProperties | src/main/java/me/qoomon/gradle/gitversioning/GitVersioningPluginExtension.java:375-396 | the puts build exactly the `git.*` property map |
| PluginPlaceholders.GitProjectPropertyKeys | src/main/java/me/qoomon/gradle/gitversioning/GitVersioningPluginExtension.java:375-396 | every key starts with `git.` |
| PluginPlaceholders.GitProjectPropertyValues | src/main/java/me/qoomon/gradle/gitversioning/GitVersioningPluginExtension.java:385-393 | `git.ref` and `git.<ref type>` hold the ref name, their `.slug` keys its slug; `git.dirty` is `true` exactly for a dirty worktree |
| PluginPlaceholders.GitCommitDateTimeProperty | src/main/java/me/qoomon/gradle/gitversioning/GitVersioningPluginExtension.java:380-383 | the ISO instant for a commit after the epoch, else `0000-00-00T00:00:00Z` |
| PluginExtension.FormatPlaceholderMap | src/main/java/me/qoomon/gradle/gitversioning/GitVersioningPluginExtension.java:295-301 | a copy of the global placeholders plus `version` and its release version, other keys unchanged |
| PluginExtension.GitVersion | src/main/java/me/qoomon/gradle/gitversioning/GitVersioningPluginExtension.java:278-283 | the substituted version format, character by character, with each `/` as `-`; no `/` left |
| PluginExtension.PropertyPlaceholderMap | src/main/java/me/qoomon/gradle/gitversioning/GitVersioningPluginExtension.java:290-291 | the format placeholders plus `value` for the property's original value |
| PluginExtension.GitProjectPropertyValue | src/main/java/me/qoomon/gradle/gitversioning/GitVersioningPluginExtension.java:285-293 | a property without a description keeps its value; a described one is its description's format substituted with the format placeholders plus `value` |
| PluginExtension.PropertyDescriptionMapDefined | src/main/java/me/qoomon/gradle/gitversioning/GitVersioningPluginExtension.java:113-114 | the index by name exists exactly when the names are distinct |
| PluginExtension.PropertyDescriptionMapKeys | src/main/java/me/qoomon/gradle/gitversioning/GitVersioningPluginExtension.java:113-114 | its keys are exactly the descriptions' names |
| PluginExtension.PropertyDescriptionMapValues | src/main/java/me/qoomon/gradle/gitversioning/GitVersioningPluginExtension.java:113-114 | every name maps to its description |
| PluginExtension.PropertyDescriptionMapFailure | src/main/java/me/qoomon/gradle/gitversioning/GitVersioningPluginExtension.java:113-114 | a failure names the first description whose name repeats an earlier one |
| PluginExtension.ApplyDisabled | src/main/java/me/qoomon/gradle/gitversioning/GitVersioningPluginExtension.java:74-88 | disabled by the command option, or by the configuration when that option is absent, `apply` skips and changes nothing |
| PluginExtension.ApplyFailureKeepsFields | src/main/java/me/qoomon/gradle/gitversioning/GitVersioningPluginExtension.java:71-124 | a skip changes nothing; a failure leaves placeholders and `git.*` properties untouched, and changes the description index only when the last option read fails |
| PluginExtension.ApplyRejectsDuplicateNames | src/main/java/me/qoomon/gradle/gitversioning/GitVersioningPluginExtension.java:109-114 | a resolved rule with repeated property names fails with `DuplicateProperty` after only the version details were set |
| PluginExtension.ApplyResolution | src/main/java/me/qoomon/gradle/gitversioning/GitVersioningPluginExtension.java:106-124 | on success there was a repository and the `git.tag`, `git.branch` and `versioning.preferTags` options were read, and the four fields hold the resolution, the description index, the placeholders and the `git.*` properties of the overridden situation with its describe tag pattern; the resolved rule has a format |
| PluginExtension.Extension.Apply | src/main/java/me/qoomon/gradle/gitversioning/GitVersioningPluginExtension.java:71-124 | the extension's outcome and new fields are exactly those of the `apply` specification |

## Left out

- Regex matching, group extraction, `substituteText`, the Maven version
  order, `git describe` and the calendar and ISO renderings are library code.
  They are parameters of the model (`Library`, `CommitTime`).
- JGit repository discovery and reading the head are not modelled. The git
  situation is an input, and `None` stands for "not a git repository".
- `System.getenv`, `System.getProperty` and the Gradle project properties
  are an `Environment` value.
- Logging is not modelled.
- `Lazy` memoisation is not modelled. Placeholders are computed eagerly as
  `Supplied`, `SuppliesNull` or `Throws`; a throwing supplier matters only if
  a template reads it.
- The per-project processing after `apply` sets its fields is not modelled:
  `updateVersion`, `updatePropertyValues`, `addGitProperties` and
  `updateGradlePropertiesFile` all depend on the Gradle project model and on
  file I/O. Only the decision whether to update `gradle.properties` is
  returned.
- Case mapping in `toLowerCase`, `toUpperCase` and `parseBoolean` is ASCII
  only. Locale and Unicode case rules are not modelled.
- PluginConfiguration.SeparateWords splits before ASCII capitals 'A'..'Z'
  only; the source's `\p{Lu}` also matches non-ASCII upper-case letters.
- PluginConfiguration.SetDefaults works on configuration values and returns
  the defaulted configuration. The source writes into the shared rule
  objects, so aliasing between rules is not captured.
- PluginExtension.Extension.Apply reads all five command options up front.
  `apply` consults them in the source's order, so an error surfaces at the
  same point; the model takes the repeated lookups to see the same environment.
- GitVersioning.DetermineVersion requires a head commit of at least 7
  characters. The source would throw `StringIndexOutOfBoundsException` for a
  shorter hash; git hashes are 40 characters.
- GitVersioning.VersionDataMap requires a head commit of at least 7
  characters, for the same reason.
