/** The Gradle plugin extension (`GitVersioningPluginExtension`): `apply`
    resolves the ref and sets the extension's fields (the resolved ref, the
    property descriptions by name, the global placeholders and the `git.*`
    properties) from which each project's version (`getGitVersion`) and
    property values (`getGitProjectPropertyValue`) are then computed. */
module PluginExtension {
  import opened Wrappers
  import opened Text
  import opened PluginModel
  import opened PluginConfiguration
  import opened PluginVersioning
  import opened PluginPlaceholders

  // ---- property descriptions ----------------------------------------------

  function PropertyNames(properties: seq<PropertyDescription>): (names: seq<string>)
    ensures |names| == |properties| && forall i :: 0 <= i < |properties| ==> names[i] == properties[i].name
  {
    seq(|properties|, i requires 0 <= i < |properties| => properties[i].name)
  }

  /** `properties.stream().collect(toMap(p -> p.name, p -> p))`: the
      descriptions by name; the collector throws at the first description
      whose name an earlier one already took. */
  function PropertyDescriptionMap(properties: seq<PropertyDescription>): Result<map<string, PropertyDescription>, Error> {
    if properties == [] then Success(map[])
    else
      var last := properties[|properties| - 1];
      match PropertyDescriptionMap(properties[..|properties| - 1])
      case Failure(error) => Failure(error)
      case Success(m) =>
        if last.name in m then Failure(DuplicateProperty(last.name)) else Success(m[last.name := last])
  }

  lemma PropertyNamesSnoc(properties: seq<PropertyDescription>)
    requires properties != []
    ensures PropertyNames(properties) == PropertyNames(properties[..|properties| - 1]) + [properties[|properties| - 1].name]
  {
  }

  /** The map holds a key exactly when some description has that name. */
  lemma {:induction false} PropertyDescriptionMapKeys(properties: seq<PropertyDescription>)
    ensures var r := PropertyDescriptionMap(properties);
      r.Success? ==> forall k :: k in r.value <==> k in PropertyNames(properties)
  {
    if properties != [] {
      PropertyDescriptionMapKeys(properties[..|properties| - 1]);
      PropertyNamesSnoc(properties);
    }
  }

  /** The map exists exactly when the names are distinct. */
  lemma {:induction false} PropertyDescriptionMapDefined(properties: seq<PropertyDescription>)
    ensures PropertyDescriptionMap(properties).Success? <==> Distinct(PropertyNames(properties))
  {
    if properties != [] {
      var n := |properties| - 1;
      var init := properties[..n];
      var last := properties[n];
      PropertyDescriptionMapDefined(init);
      PropertyDescriptionMapKeys(init);
      PropertyNamesSnoc(properties);
      var names := PropertyNames(properties);
      assert PropertyNames(init) == names[..n];
      match PropertyDescriptionMap(init)
      case Failure(error) => {
        assert !Distinct(names) by {
          var i, j :| 0 <= i < j < n && names[..n][i] == names[..n][j];
          assert names[i] == names[j];
        }
      }
      case Success(m) => {
        if last.name in m {
          var k :| 0 <= k < n && names[..n][k] == last.name;
          assert names[k] == names[n];
        } else {
          forall i, j | 0 <= i < j < |names| ensures names[i] != names[j] {
            if j < n {
              assert names[..n][i] == names[i] && names[..n][j] == names[j];
            } else {
              assert names[i] == names[..n][i];
            }
          }
        }
      }
    }
  }

  /** Every description is held under its own name. */
  lemma {:induction false} PropertyDescriptionMapValues(properties: seq<PropertyDescription>)
    ensures var r := PropertyDescriptionMap(properties);
      r.Success? ==> forall i :: 0 <= i < |properties| ==> properties[i].name in r.value && r.value[properties[i].name] == properties[i]
  {
    if properties != [] {
      var n := |properties| - 1;
      var init := properties[..n];
      var last := properties[n];
      PropertyDescriptionMapValues(init);
      PropertyDescriptionMapKeys(init);
      match PropertyDescriptionMap(init)
      case Failure(error) =>
      case Success(m) => {
        if last.name !in m {
          forall i | 0 <= i < |properties|
            ensures properties[i].name in m[last.name := last] && m[last.name := last][properties[i].name] == properties[i]
          {
            if i < n {
              assert init[i] == properties[i];
              assert PropertyNames(init)[i] == properties[i].name;
            }
          }
        }
      }
    }
  }

  /** Otherwise the error names the first description whose name an earlier
      one already took. */
  lemma {:induction false} PropertyDescriptionMapFailure(properties: seq<PropertyDescription>)
    ensures var r := PropertyDescriptionMap(properties);
      r.Failure? ==> exists j :: 0 <= j < |properties| && Distinct(PropertyNames(properties[..j]))
                                  && properties[j].name in PropertyNames(properties[..j])
                                  && r.error == DuplicateProperty(properties[j].name)
  {
    if properties != [] {
      var n := |properties| - 1;
      var init := properties[..n];
      var last := properties[n];
      PropertyDescriptionMapFailure(init);
      match PropertyDescriptionMap(init)
      case Failure(error) => {
        var j :| 0 <= j < n && Distinct(PropertyNames(init[..j])) && init[j].name in PropertyNames(init[..j])
                 && error == DuplicateProperty(init[j].name);
        assert init[..j] == properties[..j];
        assert init[j] == properties[j];
      }
      case Success(m) => {
        PropertyDescriptionMapKeys(init);
        PropertyDescriptionMapDefined(init);
        assert init == properties[..n];
        if last.name in m {
          assert properties[n].name in PropertyNames(properties[..n]);
        }
      }
    }
  }

  // ---- version and property values ----------------------------------------

  /** `generateFormatPlaceholderMap`: the global placeholders with the
      project's version and its release form added. */
  function FormatPlaceholderMap(global: map<string, Placeholder>, version: string): (r: map<string, Placeholder>)
    ensures r.Keys == global.Keys + {"version", "version.release"}
    ensures r["version"] == Supplied(version)
    ensures r["version.release"] == Supplied(ReleaseVersion(version))
    ensures forall k :: k in global && k != "version" && k != "version.release" ==> r[k] == global[k]
  {
    global["version" := Supplied(version)]["version.release" := Supplied(ReleaseVersion(version))]
  }

  /** `getGitVersion`: the resolved rule's version format with the
      placeholders substituted, every '/' turned into '-'. */
  function GitVersion(details: GitVersionDetails, global: map<string, Placeholder>, version: string, lib: Library): (r: string)
    requires details.config.versionFormat.Some?
    ensures '/' !in r
    ensures var text := lib.substituteText(details.config.versionFormat.value, FormatPlaceholderMap(global, version));
      |r| == |text| && forall i :: 0 <= i < |r| ==> r[i] == (if text[i] == '/' then '-' else text[i])
  {
    ReplaceChar(lib.substituteText(details.config.versionFormat.value, FormatPlaceholderMap(global, version)), '/', '-')
  }

  /** The placeholders a property's value format sees: the format
      placeholders plus the property's current value. */
  function PropertyPlaceholderMap(global: map<string, Placeholder>, version: string, value: string): (r: map<string, Placeholder>)
    ensures r.Keys == global.Keys + {"version", "version.release", "value"}
    ensures r["value"] == Supplied(value)
    ensures r["version"] == Supplied(version)
    ensures r["version.release"] == Supplied(ReleaseVersion(version))
    ensures forall k :: k in global && k != "version" && k != "version.release" && k != "value" ==> r[k] == global[k]
  {
    FormatPlaceholderMap(global, version)["value" := Supplied(value)]
  }

  /** `getGitProjectPropertyValue`: a property without a description keeps
      its value; a described one takes its value format, substituted. */
  function GitProjectPropertyValue(descriptions: map<string, PropertyDescription>, global: map<string, Placeholder>,
                                   key: string, value: string, version: string, lib: Library): (r: string)
    ensures key !in descriptions ==> r == value
    ensures key in descriptions ==>
      r == lib.substituteText(descriptions[key].valueFormat, PropertyPlaceholderMap(global, version, value))
  {
    if key !in descriptions then value
    else lib.substituteText(descriptions[key].valueFormat, PropertyPlaceholderMap(global, version, value))
  }

  // ---- apply --------------------------------------------------------------

  datatype SkipReason = DisabledByCommandOption | DisabledByConfigOption | NotInGitRepository

  /** How `apply` ends: it returns early, throws, or goes on to process the
      projects (and says whether it will rewrite their gradle.properties files). */
  datatype Outcome =
    | Skipped(reason: SkipReason)
    | Failed(error: Error)
    | Applied(updateGradlePropertiesFile: bool)

  /** The extension's four fields; `None` stands for a field still null. */
  datatype ExtensionState = ExtensionState(
    gitVersionDetails: Option<GitVersionDetails>,
    propertyDescriptionMap: Option<map<string, PropertyDescription>>,
    globalFormatPlaceholderMap: Option<map<string, Placeholder>>,
    gitProjectProperties: Option<map<string, string>>)

  /** The command options `apply` reads, each read as `getCommandOption`
      would (a read that throws is a `Failure`). */
  datatype CommandOptions = CommandOptions(
    disable: Result<Option<string>, Error>,
    gitTag: Result<Option<string>, Error>,
    gitBranch: Result<Option<string>, Error>,
    preferTags: Result<Option<string>, Error>,
    updateGradleProperties: Result<Option<string>, Error>)

  function CommandOptionsOf(e: Environment): CommandOptions {
    CommandOptions(
      GetCommandOption(OptionNameDisable, e),
      GetCommandOption(OptionNameGitTag, e),
      GetCommandOption(OptionNameGitBranch, e),
      GetCommandOption(OptionPreferTags, e),
      GetCommandOption(OptionUpdateGradleProperties, e))
  }

  /** `apply`, step by step: how it ends and what its fields then hold.
      `repository` is the head situation read from the git directory, `None`
      when the project is not in one. The options are read up front: reading
      one has no effect, so only which of them are consulted, and in what
      order, matters. */
  function ApplyOf(before: ExtensionState, config: Config, options: CommandOptions, e: Environment,
                   repository: Option<GitSituation>, lib: Library): (Outcome, ExtensionState)
  {
    var c := ConfigWithDefaults(config);
    match options.disable
    case Failure(error) => (Failed(error), before)
    case Success(disableOption) =>
      if IsDisabled(disableOption, c) then
        (Skipped(if disableOption.Some? then DisabledByCommandOption else DisabledByConfigOption), before)
      else ApplyToRepository(before, c, options, e, repository, lib)
  }

  /** `apply` once it is not disabled: read the git situation and the
      `git.tag` and `git.branch` overrides. */
  function ApplyToRepository(before: ExtensionState, c: Config, options: CommandOptions, e: Environment,
                             repository: Option<GitSituation>, lib: Library): (Outcome, ExtensionState)
  {
    if repository.None? then (Skipped(NotInGitRepository), before)
    else match options.gitTag
    case Failure(error) => (Failed(error), before)
    case Success(providedTag) =>
      match options.gitBranch
      case Failure(error) => (Failed(error), before)
      case Success(providedBranch) =>
        ApplyToSituation(before, c, options, e, WithCommandOverrides(repository.value, providedTag, providedBranch), lib)
  }

  /** The rest of `apply`, once the situation is known: resolve the ref, map
      the property descriptions, read the remaining option, set the describe
      tag pattern, and build the placeholders and the `git.*` properties. */
  function ApplyToSituation(before: ExtensionState, c: Config, options: CommandOptions, e: Environment,
                            s: GitSituation, lib: Library): (Outcome, ExtensionState)
  {
    match options.preferTags
    case Failure(error) => (Failed(error), before)
    case Success(preferTagsOption) =>
      var preferTags := PreferTagsOption(preferTagsOption, c);
      var details := GitVersionDetailsOf(s, c, preferTags, lib);
      var withDetails := before.(gitVersionDetails := Some(details));
      match PropertyDescriptionMap(details.config.properties)
      case Failure(error) => (Failed(error), withDetails)
      case Success(descriptions) =>
        var withDescriptions := withDetails.(propertyDescriptionMap := Some(descriptions));
        match options.updateGradleProperties
        case Failure(error) => (Failed(error), withDescriptions)
        case Success(updateOption) =>
          var updateFile := UpdateGradlePropertiesFileOption(updateOption, c, details.config);
          var described := s.(describeTagPattern := DescribeTagPattern(c, details.config));
          var global := GlobalFormatPlaceholderMap(described, details, e, lib);
          var gitProperties := GitProjectProperties(described, details);
          (Applied(updateFile), ExtensionState(Some(details), Some(descriptions), Some(global), Some(gitProperties)))
  }

  // ---- what apply promises -----------------------------------------------

  /** Disabled by the command option, or by the configuration when the
      option is absent, `apply` returns before touching any field. */
  lemma ApplyDisabled(before: ExtensionState, config: Config, options: CommandOptions, e: Environment,
                      repository: Option<GitSituation>, lib: Library)
    requires options.disable.Success?
    requires options.disable.value.Some? ==> ParseBoolean(options.disable.value.value)
    requires options.disable.value.None? ==> config.disable
    ensures ApplyOf(before, config, options, e, repository, lib)
         == (Skipped(if options.disable.value.Some? then DisabledByCommandOption else DisabledByConfigOption), before)
  {
    var c := ConfigWithDefaults(config);
    assert c.disable == config.disable;
    assert IsDisabled(options.disable.value, c);
  }

  /** Neither a skip nor an error leaves placeholders or `git.*` properties
      behind, and only the fields set before the failing step change. */
  lemma ApplyFailureKeepsFields(before: ExtensionState, config: Config, options: CommandOptions, e: Environment,
                                repository: Option<GitSituation>, lib: Library)
    ensures var r := ApplyOf(before, config, options, e, repository, lib);
      !r.0.Applied? ==>
        && r.1.globalFormatPlaceholderMap == before.globalFormatPlaceholderMap
        && r.1.gitProjectProperties == before.gitProjectProperties
        && (r.1.propertyDescriptionMap != before.propertyDescriptionMap ==>
              r.0.Failed? && options.updateGradleProperties.Failure? && r.0.error == options.updateGradleProperties.error)
    ensures var r := ApplyOf(before, config, options, e, repository, lib);
      r.0.Skipped? ==> r.1 == before
  {
  }

  /** Resolving to a rule whose property descriptions repeat a name makes
      `apply` throw right after it set the resolved ref. */
  lemma ApplyRejectsDuplicateNames(before: ExtensionState, c: Config, options: CommandOptions, e: Environment,
                                   s: GitSituation, lib: Library)
    requires options.preferTags.Success?
    requires var details := GitVersionDetailsOf(s, c, PreferTagsOption(options.preferTags.value, c), lib);
      !Distinct(PropertyNames(details.config.properties))
    ensures var details := GitVersionDetailsOf(s, c, PreferTagsOption(options.preferTags.value, c), lib);
      var r := ApplyToSituation(before, c, options, e, s, lib);
      r.0.Failed? && r.0.error.DuplicateProperty? && r.1 == before.(gitVersionDetails := Some(details))
  {
    var details := GitVersionDetailsOf(s, c, PreferTagsOption(options.preferTags.value, c), lib);
    PropertyDescriptionMapDefined(details.config.properties);
    PropertyDescriptionMapFailure(details.config.properties);
  }

  /** When `apply` runs through, the resolved ref is the one
      `getGitVersionDetails` picks for the situation after the command
      overrides, and every field holds what was built from it. */
  lemma ApplyResolution(before: ExtensionState, config: Config, options: CommandOptions, e: Environment,
                        repository: Option<GitSituation>, lib: Library)
    ensures var r := ApplyOf(before, config, options, e, repository, lib);
      r.0.Applied? ==>
        && repository.Some? && options.gitTag.Success? && options.gitBranch.Success? && options.preferTags.Success?
        && var c := ConfigWithDefaults(config);
           var s := WithCommandOverrides(repository.value, options.gitTag.value, options.gitBranch.value);
           var details := GitVersionDetailsOf(s, c, PreferTagsOption(options.preferTags.value, c), lib);
           var described := s.(describeTagPattern := DescribeTagPattern(c, details.config));
           && r.1.gitVersionDetails == Some(details)
           && details.config.versionFormat.Some?
           && r.1.propertyDescriptionMap == Some(PropertyDescriptionMap(details.config.properties).value)
           && r.1.globalFormatPlaceholderMap == Some(GlobalFormatPlaceholderMap(described, details, e, lib))
           && r.1.gitProjectProperties == Some(GitProjectProperties(described, details))
  {
    var r := ApplyOf(before, config, options, e, repository, lib);
    if r.0.Applied? {
      var c := ConfigWithDefaults(config);
      var s := WithCommandOverrides(repository.value, options.gitTag.value, options.gitBranch.value);
      ResolvedRuleHasFormat(s, c, PreferTagsOption(options.preferTags.value, c), lib);
    }
  }

  /** The extension object. */
  class Extension {
    var gitVersionDetails: Option<GitVersionDetails>
    var propertyDescriptionMap: Option<map<string, PropertyDescription>>
    var globalFormatPlaceholderMap: Option<map<string, Placeholder>>
    var gitProjectProperties: Option<map<string, string>>

    constructor ()
      ensures State() == ExtensionState(None, None, None, None)
    {
      gitVersionDetails := None;
      propertyDescriptionMap := None;
      globalFormatPlaceholderMap := None;
      gitProjectProperties := None;
    }

    function State(): ExtensionState
      reads this
    {
      ExtensionState(gitVersionDetails, propertyDescriptionMap, globalFormatPlaceholderMap, gitProjectProperties)
    }

    /** `apply(config)`. */
    method Apply(config: Config, e: Environment, repository: Option<GitSituation>, lib: Library)
      returns (outcome: Outcome)
      modifies this
      ensures (outcome, State()) == ApplyOf(old(State()), config, CommandOptionsOf(e), e, repository, lib)
    {
      var c := SetDefaults(config);
      var options := CommandOptionsOf(e);

      // disabled by command option, else by config option
      var commandOptionDisable := options.disable;
      if commandOptionDisable.Failure? {
        return Failed(commandOptionDisable.error);
      }
      if commandOptionDisable.value.Some? {
        if ParseBoolean(commandOptionDisable.value.value) {
          return Skipped(DisabledByCommandOption);
        }
      } else if c.disable {
        return Skipped(DisabledByConfigOption);
      }

      outcome := ApplyToGitSituation(c, options, e, repository, lib);
    }

    /** `apply` from `getGitSituation` on. */
    method ApplyToGitSituation(c: Config, options: CommandOptions, e: Environment, repository: Option<GitSituation>,
                               lib: Library)
      returns (outcome: Outcome)
      modifies this
      ensures (outcome, State()) == ApplyToRepository(old(State()), c, options, e, repository, lib)
    {
      if repository.None? {
        return Skipped(NotInGitRepository);
      }
      var situation := new Situation(repository.value);
      var providedTag := options.gitTag;
      if providedTag.Failure? {
        return Failed(providedTag.error);
      }
      var providedBranch := options.gitBranch;
      if providedBranch.Failure? {
        return Failed(providedBranch.error);
      }
      ApplyCommandOverrides(situation, providedTag.value, providedBranch.value);
      outcome := ApplyTo(c, options, e, situation, lib);
    }

    /** `apply` from the prefer-tags option on. */
    method ApplyTo(c: Config, options: CommandOptions, e: Environment, situation: Situation, lib: Library)
      returns (outcome: Outcome)
      modifies this, situation
      ensures (outcome, State()) == ApplyToSituation(old(State()), c, options, e, old(situation.Snapshot()), lib)
    {
      var preferTagsOption := options.preferTags;
      if preferTagsOption.Failure? {
        return Failed(preferTagsOption.error);
      }
      var preferTags := PreferTagsOption(preferTagsOption.value, c);

      var details := GetGitVersionDetails(situation.Snapshot(), c, preferTags, lib);
      gitVersionDetails := Some(details);
      var descriptions := PropertyDescriptionMap(details.config.properties);
      if descriptions.Failure? {
        return Failed(descriptions.error);
      }
      propertyDescriptionMap := Some(descriptions.value);

      var updateOption := options.updateGradleProperties;
      if updateOption.Failure? {
        return Failed(updateOption.error);
      }
      var updateGradlePropertiesFile := UpdateGradlePropertiesFileOption(updateOption.value, c, details.config);
      situation.SetDescribeTagPattern(DescribeTagPattern(c, details.config));

      var global := GenerateGlobalFormatPlaceholderMap(situation.Snapshot(), details, e, lib);
      globalFormatPlaceholderMap := Some(global);
      var gitProperties := GenerateGitProjectProperties(situation.Snapshot(), details);
      gitProjectProperties := Some(gitProperties);

      outcome := Applied(updateGradlePropertiesFile);
    }
  }
}
