/** The entities of the Gradle plugin's resolver
    (`GitVersioningPluginExtension` and the configuration and situation
    objects it works on), as values. Library code it calls (regex matching and
    group extraction, `substituteText`, the Maven version order) comes in
    through `Library`. */
module PluginModel {
  import opened Wrappers

  const DefaultBranchVersionFormat := "${branch}-SNAPSHOT"
  const DefaultTagVersionFormat := "${tag}"
  const DefaultCommitVersionFormat := "${commit}"

  const OptionNameGitTag := "git.tag"
  const OptionNameGitBranch := "git.branch"
  const OptionNameDisable := "versioning.disable"
  const OptionPreferTags := "versioning.preferTags"
  const OptionUpdateGradleProperties := "versioning.updateGradleProperties"

  datatype RefType = BRANCH | TAG | COMMIT

  /** `refType.name().toLowerCase()`. */
  function RefTypeName(t: RefType): string {
    match t
    case BRANCH => "branch"
    case TAG => "tag"
    case COMMIT => "commit"
  }

  datatype PropertyDescription = PropertyDescription(name: string, valueFormat: string)

  /** One configured ref rule; `None` stands for a field left null. */
  datatype VersionDescription = VersionDescription(
    pattern: Option<string>,
    versionFormat: Option<string>,
    describeTagPattern: Option<string>,
    updateGradleProperties: Option<bool>,
    properties: seq<PropertyDescription>)

  /** The anonymous rule the resolver falls back to: only the format is set. */
  function DefaultDescription(format: string): VersionDescription {
    VersionDescription(None, Some(format), None, None, [])
  }

  datatype Config = Config(
    disable: bool,
    preferTags: bool,
    updateGradleProperties: Option<bool>,
    describeTagPattern: Option<string>,
    branches: seq<VersionDescription>,
    tags: seq<VersionDescription>,
    commit: Option<VersionDescription>)

  /** The head commit's `ZonedDateTime`: its epoch second, its calendar fields
      in the commit's zone, and its two renderings (`yyyyMMdd.HHmmss` in that
      zone and ISO_INSTANT), which come from the date-time library. */
  datatype CommitTime = CommitTime(
    epochSecond: int,
    year: int, month: int, dayOfMonth: int, hour: int, minute: int, second: int,
    compactFormat: string,
    isoInstant: string)

  /** The result of `git describe` on the head: the nearest tag matching the
      describe tag pattern, the distance to it, and its `toString()` rendering. */
  datatype GitDescription = GitDescription(tag: string, distance: int, text: string)

  datatype GitSituation = GitSituation(
    hash: string,
    timestamp: CommitTime,
    branch: Option<string>,
    tags: seq<string>,
    clean: bool,
    describeTagPattern: string)
  {
    predicate IsDetached() { branch.None? }
  }

  datatype GitVersionDetails = GitVersionDetails(
    commit: string,
    refType: RefType,
    refName: string,
    config: VersionDescription)

  /** A value of the Gradle project's property map. */
  datatype PropertyValue = StringValue(value: string) | NullValue | ObjectValue

  /** Where command options come from: the root project's properties, the
      process environment and the JVM system properties. */
  datatype Environment = Environment(
    projectProperties: map<string, PropertyValue>,
    variables: map<string, string>,
    systemProperties: map<string, string>)

  /** What a placeholder supplier yields when `substituteText` asks it: a
      string, null, or an exception (suppliers are lazy, so a supplier that
      would throw only matters when a template uses it). */
  datatype Placeholder = Supplied(value: string) | SuppliesNull | Throws

  datatype Error =
    | OptionNotAString(option: string)   // ClassCastException in getCommandOption
    | DuplicateProperty(name: string)    // IllegalStateException from Collectors.toMap

  /** The library code the resolver calls. */
  datatype Library = Library(
    /** `text.matches(regex)`: full-string match. */
    matches: (string, string) -> bool,
    /** `patternGroupValues(text, regex)`: the named groups and their captured
        values (`None` for a group that took no part), in iteration order. */
    patternGroupValues: (string, string) -> seq<(string, Option<string>)>,
    /** `patternGroupValues(pattern, text)`: the same, as a map for lookups. */
    describeGroupValues: (string, string) -> map<string, Option<string>>,
    /** `patternGroups(pattern)`: the pattern's group names. */
    patternGroups: string -> seq<string>,
    /** `compare(new DefaultArtifactVersion(a), new DefaultArtifactVersion(b)) <= 0`. */
    versionLe: (string, string) -> bool,
    /** `GitSituation.getDescription()` for a describe tag pattern. */
    describe: string -> GitDescription,
    /** `substituteText(format, placeholders)`. */
    substituteText: (string, map<string, Placeholder>) -> string)
}
