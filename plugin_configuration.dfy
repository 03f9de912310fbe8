/** The configuration side of `GitVersioningPluginExtension`: filling in the
    default version formats, reading command options (project property, then
    environment variable, then system property) and resolving each option from
    its levels of precedence. */
module PluginConfiguration {
  import opened Wrappers
  import opened Text
  import opened PluginModel

  // ---- setDefaults --------------------------------------------------------

  function WithDefaultFormat(d: VersionDescription, format: string): VersionDescription {
    if d.versionFormat.None? then d.(versionFormat := Some(format)) else d
  }

  /** `after` is `before` with its format defaulted to `format`: a format that
      was set is kept, a missing one becomes `format`, nothing else changes. */
  predicate DefaultedFrom(after: VersionDescription, before: VersionDescription, format: string) {
    && after.versionFormat == (if before.versionFormat.Some? then before.versionFormat else Some(format))
    && after.(versionFormat := before.versionFormat) == before
  }

  /** No configured rule is left without a version format. */
  predicate FormatsSet(c: Config) {
    && (forall i :: 0 <= i < |c.branches| ==> c.branches[i].versionFormat.Some?)
    && (forall i :: 0 <= i < |c.tags| ==> c.tags[i].versionFormat.Some?)
    && (c.commit.Some? ==> c.commit.value.versionFormat.Some?)
  }

  /** The configuration as `setDefaults` leaves it. Every format is set
      afterwards, each rule only has its missing format filled in with its
      kind's default, and a configuration whose formats are all set is left
      as it is (so defaulting twice is defaulting once). */
  function ConfigWithDefaults(c: Config): (r: Config)
    ensures FormatsSet(r)
    ensures r.(branches := c.branches, tags := c.tags, commit := c.commit) == c
    ensures |r.branches| == |c.branches| && |r.tags| == |c.tags| && r.commit.Some? == c.commit.Some?
    ensures forall i :: 0 <= i < |c.branches| ==> DefaultedFrom(r.branches[i], c.branches[i], DefaultBranchVersionFormat)
    ensures forall i :: 0 <= i < |c.tags| ==> DefaultedFrom(r.tags[i], c.tags[i], DefaultTagVersionFormat)
    ensures c.commit.Some? ==> DefaultedFrom(r.commit.value, c.commit.value, DefaultCommitVersionFormat)
    ensures FormatsSet(c) ==> r == c
  {
    c.(branches := seq(|c.branches|, i requires 0 <= i < |c.branches| => WithDefaultFormat(c.branches[i], DefaultBranchVersionFormat)),
       tags := seq(|c.tags|, i requires 0 <= i < |c.tags| => WithDefaultFormat(c.tags[i], DefaultTagVersionFormat)),
       commit := if c.commit.Some? then Some(WithDefaultFormat(c.commit.value, DefaultCommitVersionFormat)) else None)
  }

  /** `setDefaults(config)`: walks the branch rules, then the tag rules, then
      the commit rule, giving each rule without a format its default. */
  method SetDefaults(config: Config) returns (c: Config)
    ensures c == ConfigWithDefaults(config)
  {
    var branches := config.branches;
    for i := 0 to |branches|
      invariant |branches| == |config.branches|
      invariant forall j :: 0 <= j < i ==> branches[j] == WithDefaultFormat(config.branches[j], DefaultBranchVersionFormat)
      invariant forall j :: i <= j < |branches| ==> branches[j] == config.branches[j]
    {
      if branches[i].versionFormat.None? {
        branches := branches[i := branches[i].(versionFormat := Some(DefaultBranchVersionFormat))];
      }
    }
    var tags := config.tags;
    for i := 0 to |tags|
      invariant |tags| == |config.tags|
      invariant forall j :: 0 <= j < i ==> tags[j] == WithDefaultFormat(config.tags[j], DefaultTagVersionFormat)
      invariant forall j :: i <= j < |tags| ==> tags[j] == config.tags[j]
    {
      if tags[i].versionFormat.None? {
        tags := tags[i := tags[i].(versionFormat := Some(DefaultTagVersionFormat))];
      }
    }
    var commit := config.commit;
    if commit.Some? {
      if commit.value.versionFormat.None? {
        commit := Some(commit.value.(versionFormat := Some(DefaultCommitVersionFormat)));
      }
    }
    c := config.(branches := branches, tags := tags, commit := commit);
    assert c.branches == ConfigWithDefaults(config).branches;
    assert c.tags == ConfigWithDefaults(config).tags;
  }

  // ---- command options ----------------------------------------------------

  /** `s` with every `c` taken out. */
  function Without(s: string, c: char): string {
    if s == [] then [] else (if s[0] == c then [] else [s[0]]) + Without(s[1..], c)
  }

  lemma {:induction false} WithoutConcat(a: string, b: string, c: char)
    ensures Without(a + b, c) == Without(a, c) + Without(b, c)
    decreases |a|
  {
    if a != [] {
      assert (a + b)[0] == a[0] && (a + b)[1..] == a[1..] + b;
      WithoutConcat(a[1..], b, c);
    } else {
      assert a + b == b;
    }
  }

  /** An underscore in front of every upper-case letter. */
  function UnderscoreBeforeUpper(s: string): string {
    if s == [] then [] else (if IsUpper(s[0]) then "_" + [s[0]] else [s[0]]) + UnderscoreBeforeUpper(s[1..])
  }

  /** The number of upper-case letters in `s`. */
  function Capitals(s: string): nat {
    if s == [] then 0 else (if IsUpper(s[0]) then 1 else 0) + Capitals(s[1..])
  }

  /** Where character `i` of `s` lands in UnderscoreBeforeUpper(s): one
      place further for each upper-case letter up to and including it. */
  function ShiftedIndex(s: string, i: nat): nat
    requires i < |s|
  {
    i + Capitals(s[..i + 1])
  }

  /** Each upper-case letter gets its own underscore right in front of it and
      nothing else is added. */
  lemma {:induction false} UnderscoreBeforeUpperPositions(s: string)
    ensures |UnderscoreBeforeUpper(s)| == |s| + Capitals(s)
    ensures forall i :: 0 <= i < |s| ==>
      ShiftedIndex(s, i) < |UnderscoreBeforeUpper(s)| && UnderscoreBeforeUpper(s)[ShiftedIndex(s, i)] == s[i]
    ensures forall i :: 0 <= i < |s| && IsUpper(s[i]) ==>
      0 < ShiftedIndex(s, i) && UnderscoreBeforeUpper(s)[ShiftedIndex(s, i) - 1] == '_'
  {
    if s != [] {
      var t := s[1..];
      var head := if IsUpper(s[0]) then "_" + [s[0]] else [s[0]];
      var u := UnderscoreBeforeUpper(s);
      UnderscoreBeforeUpperPositions(t);
      assert u == head + UnderscoreBeforeUpper(t);
      forall i | 0 <= i < |s|
        ensures ShiftedIndex(s, i) < |u| && u[ShiftedIndex(s, i)] == s[i]
        ensures IsUpper(s[i]) ==> 0 < ShiftedIndex(s, i) && u[ShiftedIndex(s, i) - 1] == '_'
      {
        if i == 0 {
          assert s[..1][1..] == [];
          assert ShiftedIndex(s, 0) == |head| - 1;
        } else {
          assert s[..i + 1][0] == s[0];
          assert s[..i + 1][1..] == t[..(i - 1) + 1];
          var k := ShiftedIndex(t, i - 1);
          assert ShiftedIndex(s, i) == |head| + k;
          assert UnderscoreBeforeUpper(t)[k] == t[i - 1] == s[i];
        }
      }
    }
  }

  lemma {:induction false} UnderscoreBeforeUpperProperties(s: string)
    ensures Without(UnderscoreBeforeUpper(s), '_') == Without(s, '_')
    ensures forall i :: 0 <= i < |UnderscoreBeforeUpper(s)| && IsUpper(UnderscoreBeforeUpper(s)[i]) ==>
      0 < i && UnderscoreBeforeUpper(s)[i - 1] == '_'
    ensures (forall i :: 0 <= i < |s| ==> !IsUpper(s[i])) ==> UnderscoreBeforeUpper(s) == s
  {
    if s != [] {
      var head := if IsUpper(s[0]) then "_" + [s[0]] else [s[0]];
      var rest := UnderscoreBeforeUpper(s[1..]);
      UnderscoreBeforeUpperProperties(s[1..]);
      WithoutConcat(head, rest, '_');
      WithoutConcat([s[0]], s[1..], '_');
      assert [s[0]] + s[1..] == s;
    }
  }

  /** Upper-case letters of `s` after its first character. */
  function InnerCapitals(s: string): nat {
    if s == [] then 0 else Capitals(s[1..])
  }

  /** The index at which character `i` of `s` lands once the words are
      separated: one place further for each inner capital up to it. */
  function WordPosition(s: string, i: nat): nat
    requires i < |s|
  {
    if i == 0 then 0 else 1 + ShiftedIndex(s[1..], i - 1)
  }

  /** The positions of UnderscoreBeforeUpperPositions, read past the first
      character, which never gets an underscore. */
  lemma SeparatedPositions(s: string)
    requires |s| > 1
    ensures |s[..1] + UnderscoreBeforeUpper(s[1..])| == |s| + InnerCapitals(s)
    ensures forall i :: 0 <= i < |s| ==>
      WordPosition(s, i) < |s[..1] + UnderscoreBeforeUpper(s[1..])| && (s[..1] + UnderscoreBeforeUpper(s[1..]))[WordPosition(s, i)] == s[i]
    ensures forall i :: 0 < i < |s| && IsUpper(s[i]) ==> (s[..1] + UnderscoreBeforeUpper(s[1..]))[WordPosition(s, i) - 1] == '_'
  {
    var t := s[1..];
    var r := s[..1] + UnderscoreBeforeUpper(t);
    UnderscoreBeforeUpperPositions(t);
    forall i | 0 < i < |s|
      ensures WordPosition(s, i) < |r| && r[WordPosition(s, i)] == s[i]
      ensures IsUpper(s[i]) ==> r[WordPosition(s, i) - 1] == '_'
    {
      assert t[i - 1] == s[i];
    }
  }

  /** `String.join("_", s.split("(?=\\p{Lu})"))`: the camel-case words of `s`
      joined by underscores. Only underscores are added, and every upper-case
      letter after the first character ends up right behind one; a name
      without inner capitals stays as it is. */
  function SeparateWords(s: string): (r: string)
    ensures Without(r, '_') == Without(s, '_')
    ensures forall i :: 0 < i < |r| && IsUpper(r[i]) ==> r[i - 1] == '_'
    ensures (forall i :: 0 < i < |s| ==> !IsUpper(s[i])) ==> r == s
    ensures |r| == |s| + InnerCapitals(s)
    ensures forall i :: 0 <= i < |s| ==> WordPosition(s, i) < |r| && r[WordPosition(s, i)] == s[i]
    ensures forall i :: 0 < i < |s| && IsUpper(s[i]) ==> r[WordPosition(s, i) - 1] == '_'
  {
    if |s| <= 1 then s
    else
      var rest := UnderscoreBeforeUpper(s[1..]);
      UnderscoreBeforeUpperProperties(s[1..]);
      SeparatedPositions(s);
      WithoutConcat(s[..1], rest, '_');
      WithoutConcat(s[..1], s[1..], '_');
      assert s[..1] + s[1..] == s;
      s[..1] + rest
  }

  const OptionPrefix := "versioning."
  const EnvironmentPrefix := "VERSIONING_"

  /** `name.replaceFirst("^versioning\\.", "")`. */
  function PlainOptionName(name: string): (r: string)
    ensures StartsWith(name, OptionPrefix) ==> OptionPrefix + r == name
    ensures !StartsWith(name, OptionPrefix) ==> r == name
  {
    if StartsWith(name, OptionPrefix) then
      assert name == name[..|OptionPrefix|] + name[|OptionPrefix|..];
      name[|OptionPrefix|..]
    else name
  }

  /** Upper-casing brings in no character that is not a letter. */
  lemma UpperKeepsAbsent(s: string, c: char)
    requires c !in s && !IsLower(c) && !IsUpper(c)
    ensures c !in ToUpper(s)
  {
    forall i | 0 <= i < |s| ensures ToUpper(s)[i] != c {
      assert s[i] != c;
    }
  }

  /** "VERSIONING_" followed by the separated name `w`, dots turned into
      '_' and upper-cased, character by character. */
  function VariableNameOf(w: string): (r: string)
    ensures |r| == |EnvironmentPrefix| + |w| && r[..|EnvironmentPrefix|] == EnvironmentPrefix
    ensures forall i :: 0 <= i < |w| ==> r[|EnvironmentPrefix| + i] == ToUpperChar(if w[i] == '.' then '_' else w[i])
    ensures '.' !in r
    ensures forall i :: 0 <= i < |r| ==> !IsLower(r[i])
  {
    var r := EnvironmentPrefix + ToUpper(ReplaceChar(w, '.', '_'));
    UpperKeepsAbsent(ReplaceChar(w, '.', '_'), '.');
    assert r[..|EnvironmentPrefix|] == EnvironmentPrefix;
    forall i | 0 <= i < |w| ensures r[|EnvironmentPrefix| + i] == ToUpperChar(if w[i] == '.' then '_' else w[i]) {
      assert r[|EnvironmentPrefix| + i] == ToUpper(ReplaceChar(w, '.', '_'))[i];
    }
    r
  }

  /** The environment variable that carries command option `name`: the
      prefix "VERSIONING_", then the option name without "versioning.", its
      camel-case words separated by "_", dots turned into "_", in upper case. */
  function EnvironmentVariableName(name: string): (r: string)
    ensures StartsWith(r, EnvironmentPrefix)
    ensures '.' !in r
    ensures forall i :: 0 <= i < |r| ==> !IsLower(r[i])
    ensures var w := SeparateWords(PlainOptionName(name));
      |r| == |EnvironmentPrefix| + |w| && r[..|EnvironmentPrefix|] == EnvironmentPrefix &&
      forall i :: 0 <= i < |w| ==> r[|EnvironmentPrefix| + i] == ToUpperChar(if w[i] == '.' then '_' else w[i])
  {
    VariableNameOf(SeparateWords(PlainOptionName(name)))
  }

  /** An option and its "versioning."-prefixed form share one environment
      variable. */
  lemma EnvironmentVariableNameIgnoresPrefix(name: string)
    requires !StartsWith(name, OptionPrefix)
    ensures EnvironmentVariableName(OptionPrefix + name) == EnvironmentVariableName(name)
  {
    assert (OptionPrefix + name)[..|OptionPrefix|] == OptionPrefix;
    var plain := PlainOptionName(OptionPrefix + name);
    assert OptionPrefix + plain == OptionPrefix + name;
    assert plain == (OptionPrefix + plain)[|OptionPrefix|..] == (OptionPrefix + name)[|OptionPrefix|..] == name;
  }

  /** An option name without inner capitals names the variable spelled the
      same way in upper case, with '_' for '.'. */
  lemma EnvironmentVariableNameWithoutCapitals(name: string)
    requires !StartsWith(name, OptionPrefix)
    requires forall i :: 0 < i < |name| ==> !IsUpper(name[i])
    ensures |EnvironmentVariableName(name)| == |EnvironmentPrefix| + |name|
    ensures forall i :: 0 <= i < |name| ==>
      EnvironmentVariableName(name)[|EnvironmentPrefix| + i] == ToUpperChar(if name[i] == '.' then '_' else name[i])
  {
    assert SeparateWords(PlainOptionName(name)) == name;
  }

  /** `getCommandOption(name)`: a project property wins, then the derived
      environment variable, then the system property; a project property
      that is not a string makes the cast in the source throw. */
  function GetCommandOption(name: string, e: Environment): (r: Result<Option<string>, Error>)
    ensures r.Failure? <==> name in e.projectProperties && e.projectProperties[name].ObjectValue?
    ensures r.Failure? ==> r.error == OptionNotAString(name)
    ensures name in e.projectProperties && e.projectProperties[name].StringValue? ==>
      r == Success(Some(e.projectProperties[name].value))
    ensures r.Success? && !(name in e.projectProperties && e.projectProperties[name].StringValue?) ==>
      r.value == Cascade([Lookup(e.variables, EnvironmentVariableName(name)), Lookup(e.systemProperties, name)], None)
  {
    var fromProject := if name in e.projectProperties then e.projectProperties[name] else NullValue;
    if fromProject.ObjectValue? then Failure(OptionNotAString(name))
    else if fromProject.StringValue? then Success(Some(fromProject.value))
    else
      var variableName := EnvironmentVariableName(name);
      if variableName in e.variables then Success(Some(e.variables[variableName]))
      else if name in e.systemProperties then Success(Some(e.systemProperties[name]))
      else Success(None)
  }

  function Lookup(m: map<string, string>, key: string): Option<Option<string>> {
    if key in m then Some(Some(m[key])) else None
  }

  // ---- option precedence --------------------------------------------------

  /** The value of the first level that is set, or `fallback` when none is. */
  function Cascade<T>(levels: seq<Option<T>>, fallback: T): (r: T)
    ensures (forall i :: 0 <= i < |levels| ==> levels[i].None?) ==> r == fallback
    ensures forall i :: 0 <= i < |levels| && levels[i].Some? && (forall j :: 0 <= j < i ==> levels[j].None?) ==>
      r == levels[i].value
  {
    if levels == [] then fallback
    else if levels[0].Some? then levels[0].value
    else Cascade(levels[1..], fallback)
  }

  /** One level of the cascade. */
  lemma CascadeStep<T>(levels: seq<Option<T>>, fallback: T)
    ensures Cascade(levels, fallback) ==
      if levels == [] then fallback
      else if levels[0].Some? then levels[0].value
      else Cascade(levels[1..], fallback)
  {
  }

  /** A command option read as a boolean (`parseBoolean`). */
  function BooleanOption(commandOption: Option<string>): Option<bool> {
    if commandOption.Some? then Some(ParseBoolean(commandOption.value)) else None
  }

  /** The check at the start of `apply`: a given `versioning.disable` option
      decides, otherwise the configuration's `disable` flag. */
  function IsDisabled(commandOption: Option<string>, config: Config): (b: bool)
    ensures b == Cascade([BooleanOption(commandOption)], config.disable)
  {
    if commandOption.Some? then ParseBoolean(commandOption.value) else config.disable
  }

  /** `getPreferTagsOption`: the command option, else the configuration. */
  function PreferTagsOption(commandOption: Option<string>, config: Config): (b: bool)
    ensures b == Cascade([BooleanOption(commandOption)], config.preferTags)
  {
    if commandOption.Some? then ParseBoolean(commandOption.value) else config.preferTags
  }

  /** `getUpdateGradlePropertiesFileOption`: the command option, else the ref
      rule's flag, else the global flag, else false. */
  function UpdateGradlePropertiesFileOption(commandOption: Option<string>, config: Config, refConfig: VersionDescription): (b: bool)
    ensures b == Cascade([BooleanOption(commandOption), refConfig.updateGradleProperties, config.updateGradleProperties], false)
  {
    var levels := [BooleanOption(commandOption), refConfig.updateGradleProperties, config.updateGradleProperties];
    CascadeStep(levels, false);
    CascadeStep(levels[1..], false);
    CascadeStep(levels[1..][1..], false);
    CascadeStep(levels[1..][1..][1..], false);
    if commandOption.Some? then ParseBoolean(commandOption.value)
    else if refConfig.updateGradleProperties.Some? then refConfig.updateGradleProperties.value
    else if config.updateGradleProperties.Some? then config.updateGradleProperties.value
    else false
  }

  /** `getDescribeTagPattern`: the ref rule's pattern, else the global one,
      else ".*". */
  function DescribeTagPattern(config: Config, refConfig: VersionDescription): (p: string)
    ensures p == Cascade([refConfig.describeTagPattern, config.describeTagPattern], ".*")
  {
    var levels := [refConfig.describeTagPattern, config.describeTagPattern];
    CascadeStep(levels, ".*");
    CascadeStep(levels[1..], ".*");
    CascadeStep(levels[1..][1..], ".*");
    if refConfig.describeTagPattern.Some? then refConfig.describeTagPattern.value
    else if config.describeTagPattern.Some? then config.describeTagPattern.value
    else ".*"
  }
}
