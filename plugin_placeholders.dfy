/** The placeholders the Gradle plugin offers to version and property formats
    (`generateGlobalFormatPlaceholderMap`, `generateFormatPlaceholderMap`), the
    fixed `git.*` project properties (`generateGitProjectProperties`) and
    `slugify`. A placeholder is what its supplier yields when asked; the map
    itself is built eagerly, in the order of the source's `put` calls, so a
    later entry replaces an earlier one with the same key. */
module PluginPlaceholders {
  import opened Wrappers
  import opened Text
  import opened PluginModel

  // ---- slugify ------------------------------------------------------------

  /** `slugify(value)`: '/' becomes '-', then lower case. */
  function Slugify(value: string): (r: string)
    ensures |r| == |value|
    ensures '/' !in r
    ensures forall i :: 0 <= i < |r| ==> !IsUpper(r[i])
    ensures forall i :: 0 <= i < |value| && value[i] != '/' && !IsUpper(value[i]) ==> r[i] == value[i]
    ensures forall i :: 0 <= i < |value| ==> r[i] == ToLowerChar(if value[i] == '/' then '-' else value[i])
  {
    var dashed := ReplaceChar(value, '/', '-');
    var r := ToLower(dashed);
    assert forall i :: 0 <= i < |r| ==> r[i] != '/' by {
      forall i | 0 <= i < |r| ensures r[i] != '/' {
        assert dashed[i] != '/';
      }
    }
    r
  }

  /** Slugifying a slug changes nothing. */
  lemma SlugifyIdempotent(value: string)
    ensures Slugify(Slugify(value)) == Slugify(value)
  {
    var once := Slugify(value);
    assert forall i :: 0 <= i < |once| ==> once[i] != '/';
  }

  // ---- generateGlobalFormatPlaceholderMap ---------------------------------

  const NoCommitDateTime := "00000000.000000"

  /** A calendar field, zero-padded to two digits. */
  function TwoDigits(n: int): string {
    LeftPad(IntToString(n), 2, '0')
  }

  /** The `commit` and `commit.timestamp*` placeholders. `commit.short` throws
      when asked if the hash is shorter than seven characters. */
  function CommitPlaceholders(hash: string, t: CommitTime): map<string, Placeholder> {
    map[
      "commit" := Supplied(hash),
      "commit.short" := if |hash| >= 7 then Supplied(hash[..7]) else Throws,
      "commit.timestamp" := Supplied(IntToString(t.epochSecond)),
      "commit.timestamp.year" := Supplied(IntToString(t.year)),
      "commit.timestamp.month" := Supplied(TwoDigits(t.month)),
      "commit.timestamp.day" := Supplied(TwoDigits(t.dayOfMonth)),
      "commit.timestamp.hour" := Supplied(TwoDigits(t.hour)),
      "commit.timestamp.minute" := Supplied(TwoDigits(t.minute)),
      "commit.timestamp.second" := Supplied(TwoDigits(t.second)),
      "commit.timestamp.datetime" := Supplied(if t.epochSecond > 0 then t.compactFormat else NoCommitDateTime)]
  }

  /** `ref`, `ref.slug`, `<ref type>` and `<ref type>.slug`. */
  function RefPlaceholders(details: GitVersionDetails): map<string, Placeholder> {
    var typeName := RefTypeName(details.refType);
    map[
      "ref" := Supplied(details.refName),
      "ref.slug" := Supplied(Slugify(details.refName)),
      typeName := Supplied(details.refName),
      typeName + ".slug" := Supplied(Slugify(details.refName))]
  }

  /** One group of the ref pattern: a group that took no part reads as "". */
  function WithRefGroup(m: map<string, Placeholder>, group: (string, Option<string>)): map<string, Placeholder> {
    var value := if group.1.Some? then group.1.value else "";
    m[group.0 := Supplied(value)][group.0 + ".slug" := Supplied(Slugify(value))]
  }

  /** The ref pattern's groups, put in order. */
  function WithRefGroups(m: map<string, Placeholder>, groups: seq<(string, Option<string>)>): map<string, Placeholder> {
    if groups == [] then m else WithRefGroup(WithRefGroups(m, groups[..|groups| - 1]), groups[|groups| - 1])
  }

  function DirtyPlaceholders(clean: bool): map<string, Placeholder> {
    map[
      "dirty" := Supplied(if clean then "" else "-DIRTY"),
      "dirty.snapshot" := Supplied(if clean then "" else "-SNAPSHOT")]
  }

  function DescribePlaceholders(description: GitDescription): map<string, Placeholder> {
    map[
      "describe" := Supplied(description.text),
      "describe.tag" := Supplied(description.tag),
      "describe.distance" := Supplied(IntToString(description.distance))]
  }

  /** A group of the describe tag pattern, read from the describe tag: null
      when the group is missing or took no part, and then its slug throws. */
  function WithDescribeGroup(m: map<string, Placeholder>, name: string, values: map<string, Option<string>>): map<string, Placeholder> {
    var value := if name in values && values[name].Some? then Supplied(values[name].value) else SuppliesNull;
    var slug := if value.Supplied? then Supplied(Slugify(value.value)) else Throws;
    m["describe." + name := value]["describe." + name + ".slug" := slug]
  }

  function WithDescribeGroups(m: map<string, Placeholder>, names: seq<string>, values: map<string, Option<string>>): map<string, Placeholder> {
    if names == [] then m else WithDescribeGroup(WithDescribeGroups(m, names[..|names| - 1], values), names[|names| - 1], values)
  }

  /** The string-valued project properties among `keys`, each under its own name. */
  function StringPropertyPlaceholders(properties: map<string, PropertyValue>, keys: set<string>): map<string, Placeholder> {
    map k | k in keys && k in properties && properties[k].StringValue? :: Supplied(properties[k].value)
  }

  const EnvironmentKeyPrefix := "env."

  /** The environment variables among `keys`, each under "env." and its name. */
  function EnvironmentPlaceholders(variables: map<string, string>, keys: set<string>): map<string, Placeholder> {
    var prefixed := set v | v in keys && v in variables :: EnvironmentKeyPrefix + v;
    assert forall k :: k in prefixed ==> |EnvironmentKeyPrefix| <= |k| && k[|EnvironmentKeyPrefix|..] in variables by {
      forall k | k in prefixed ensures |EnvironmentKeyPrefix| <= |k| && k[|EnvironmentKeyPrefix|..] in variables {
        var v :| v in keys && v in variables && k == EnvironmentKeyPrefix + v;
        assert k[|EnvironmentKeyPrefix|..] == v;
      }
    }
    map k | k in prefixed :: Supplied(variables[k[|EnvironmentKeyPrefix|..]])
  }

  /** Taking one more key into the property layer. */
  lemma StringPropertyStep(base: map<string, Placeholder>, properties: map<string, PropertyValue>, done: set<string>, key: string)
    requires key in properties
    ensures properties[key].StringValue? ==>
      (base + StringPropertyPlaceholders(properties, done))[key := Supplied(properties[key].value)] ==
      base + StringPropertyPlaceholders(properties, done + {key})
    ensures !properties[key].StringValue? ==>
      StringPropertyPlaceholders(properties, done) == StringPropertyPlaceholders(properties, done + {key})
  {
  }

  /** Taking one more variable into the environment layer. */
  lemma EnvironmentStep(base: map<string, Placeholder>, variables: map<string, string>, done: set<string>, key: string)
    requires key in variables
    ensures (base + EnvironmentPlaceholders(variables, done))[EnvironmentKeyPrefix + key := Supplied(variables[key])] ==
      base + EnvironmentPlaceholders(variables, done + {key})
  {
    var before := EnvironmentPlaceholders(variables, done);
    var after := EnvironmentPlaceholders(variables, done + {key});
    assert (EnvironmentKeyPrefix + key)[|EnvironmentKeyPrefix|..] == key;
    assert after.Keys == before.Keys + {EnvironmentKeyPrefix + key};
  }

  /** The entries put before the loop over the describe tag pattern's groups. */
  function PlaceholdersBeforeDescribeGroups(s: GitSituation, details: GitVersionDetails, lib: Library): map<string, Placeholder> {
    var base := CommitPlaceholders(s.hash, s.timestamp) + RefPlaceholders(details);
    var withGroups :=
      if details.config.pattern.Some? then WithRefGroups(base, lib.patternGroupValues(details.refName, details.config.pattern.value))
      else base;
    withGroups + DirtyPlaceholders(s.clean) + DescribePlaceholders(lib.describe(s.describeTagPattern))
  }

  /** What `generateGlobalFormatPlaceholderMap` returns, layer by layer. */
  function GlobalFormatPlaceholderMap(s: GitSituation, details: GitVersionDetails, e: Environment, lib: Library): map<string, Placeholder> {
    var description := lib.describe(s.describeTagPattern);
    WithDescribeGroups(PlaceholdersBeforeDescribeGroups(s, details, lib), lib.patternGroups(s.describeTagPattern),
                       lib.describeGroupValues(s.describeTagPattern, description.tag))
      + StringPropertyPlaceholders(e.projectProperties, e.projectProperties.Keys)
      + EnvironmentPlaceholders(e.variables, e.variables.Keys)
  }

  /** `generateGlobalFormatPlaceholderMap`: a fresh map filled section by
      section, in the order of the source's `put` calls. */
  method GenerateGlobalFormatPlaceholderMap(s: GitSituation, details: GitVersionDetails, e: Environment, lib: Library)
    returns (placeholders: map<string, Placeholder>)
    ensures placeholders == GlobalFormatPlaceholderMap(s, details, e, lib)
  {
    placeholders := PutPlaceholdersBeforeDescribeGroups(s, details, lib);

    // describe tag pattern groups
    var description := lib.describe(s.describeTagPattern);
    placeholders := PutDescribeGroups(placeholders, lib.patternGroups(s.describeTagPattern),
                                      lib.describeGroupValues(s.describeTagPattern, description.tag));

    // project properties, then environment variables
    placeholders := PutStringProperties(placeholders, e.projectProperties);
    placeholders := PutEnvironmentVariables(placeholders, e.variables);
  }

  /** The commit, ref, ref group, dirty and describe sections, into a fresh map. */
  method PutPlaceholdersBeforeDescribeGroups(s: GitSituation, details: GitVersionDetails, lib: Library)
    returns (placeholders: map<string, Placeholder>)
    ensures placeholders == PlaceholdersBeforeDescribeGroups(s, details, lib)
  {
    placeholders := PutCommitPlaceholders(map[], s.hash, s.timestamp);
    EmptyUnion(CommitPlaceholders(s.hash, s.timestamp));
    placeholders := PutRefPlaceholders(placeholders, details);

    // ref pattern groups
    if details.config.pattern.Some? {
      placeholders := PutRefGroups(placeholders, lib.patternGroupValues(details.refName, details.config.pattern.value));
    }

    placeholders := PutDirtyPlaceholders(placeholders, s.clean);
    placeholders := PutDescribePlaceholders(placeholders, lib.describe(s.describeTagPattern));
  }

  lemma EmptyUnion<K, V>(m: map<K, V>)
    ensures map[] + m == m
  {
  }

  /** The commit hash and the commit time fields. `section` holds what has
      been put so far, so each put is one map update on both sides. */
  method PutCommitPlaceholders(m: map<string, Placeholder>, hash: string, t: CommitTime)
    returns (placeholders: map<string, Placeholder>)
    ensures placeholders == m + CommitPlaceholders(hash, t)
  {
    placeholders := m;
    ghost var section: map<string, Placeholder> := map[];
    UnionEmpty(m);
    var value: Placeholder;
    value := Supplied(hash);
    UnionUpdate(m, section, "commit", value);
    placeholders, section := placeholders["commit" := value], section["commit" := value];
    value := if |hash| >= 7 then Supplied(hash[..7]) else Throws;
    UnionUpdate(m, section, "commit.short", value);
    placeholders, section := placeholders["commit.short" := value], section["commit.short" := value];
    value := Supplied(IntToString(t.epochSecond));
    UnionUpdate(m, section, "commit.timestamp", value);
    placeholders, section := placeholders["commit.timestamp" := value], section["commit.timestamp" := value];
    value := Supplied(IntToString(t.year));
    UnionUpdate(m, section, "commit.timestamp.year", value);
    placeholders, section := placeholders["commit.timestamp.year" := value], section["commit.timestamp.year" := value];
    value := Supplied(TwoDigits(t.month));
    UnionUpdate(m, section, "commit.timestamp.month", value);
    placeholders, section := placeholders["commit.timestamp.month" := value], section["commit.timestamp.month" := value];
    value := Supplied(TwoDigits(t.dayOfMonth));
    UnionUpdate(m, section, "commit.timestamp.day", value);
    placeholders, section := placeholders["commit.timestamp.day" := value], section["commit.timestamp.day" := value];
    value := Supplied(TwoDigits(t.hour));
    UnionUpdate(m, section, "commit.timestamp.hour", value);
    placeholders, section := placeholders["commit.timestamp.hour" := value], section["commit.timestamp.hour" := value];
    value := Supplied(TwoDigits(t.minute));
    UnionUpdate(m, section, "commit.timestamp.minute", value);
    placeholders, section := placeholders["commit.timestamp.minute" := value], section["commit.timestamp.minute" := value];
    value := Supplied(TwoDigits(t.second));
    UnionUpdate(m, section, "commit.timestamp.second", value);
    placeholders, section := placeholders["commit.timestamp.second" := value], section["commit.timestamp.second" := value];
    value := Supplied(if t.epochSecond > 0 then t.compactFormat else NoCommitDateTime);
    UnionUpdate(m, section, "commit.timestamp.datetime", value);
    placeholders, section := placeholders["commit.timestamp.datetime" := value], section["commit.timestamp.datetime" := value];
  }

  lemma UnionEmpty<K, V>(m: map<K, V>)
    ensures m + map[] == m
  {
  }

  /** A put after a union is a put into the right-hand side. */
  lemma UnionUpdate<K, V>(m: map<K, V>, section: map<K, V>, k: K, v: V)
    ensures (m + section)[k := v] == m + section[k := v]
  {
  }

  /** The ref name under "ref" and under its type's name, each with a slug. */
  method PutRefPlaceholders(m: map<string, Placeholder>, details: GitVersionDetails)
    returns (placeholders: map<string, Placeholder>)
    ensures placeholders == m + RefPlaceholders(details)
  {
    var refName := details.refName;
    var refNameSlug := Slugify(refName);
    placeholders := m["ref" := Supplied(refName)];
    placeholders := placeholders["ref.slug" := Supplied(refNameSlug)];
    var refTypeName := RefTypeName(details.refType);
    placeholders := placeholders[refTypeName := Supplied(refName)];
    placeholders := placeholders[refTypeName + ".slug" := Supplied(refNameSlug)];
  }

  /** The loop over the ref pattern's groups. */
  method PutRefGroups(m: map<string, Placeholder>, groups: seq<(string, Option<string>)>)
    returns (placeholders: map<string, Placeholder>)
    ensures placeholders == WithRefGroups(m, groups)
  {
    placeholders := m;
    for i := 0 to |groups|
      invariant placeholders == WithRefGroups(m, groups[..i])
    {
      var groupName := groups[i].0;
      var value := if groups[i].1.Some? then groups[i].1.value else "";
      placeholders := placeholders[groupName := Supplied(value)];
      placeholders := placeholders[groupName + ".slug" := Supplied(Slugify(value))];
      assert groups[..i + 1][..i] == groups[..i];
    }
    assert groups[..|groups|] == groups;
  }

  method PutDirtyPlaceholders(m: map<string, Placeholder>, clean: bool)
    returns (placeholders: map<string, Placeholder>)
    ensures placeholders == m + DirtyPlaceholders(clean)
  {
    var dirty := !clean;
    placeholders := m["dirty" := Supplied(if dirty then "-DIRTY" else "")];
    placeholders := placeholders["dirty.snapshot" := Supplied(if dirty then "-SNAPSHOT" else "")];
  }

  method PutDescribePlaceholders(m: map<string, Placeholder>, description: GitDescription)
    returns (placeholders: map<string, Placeholder>)
    ensures placeholders == m + DescribePlaceholders(description)
  {
    placeholders := m["describe" := Supplied(description.text)];
    placeholders := placeholders["describe.tag" := Supplied(description.tag)];
    placeholders := placeholders["describe.distance" := Supplied(IntToString(description.distance))];
  }

  /** The loop over the describe tag pattern's groups. */
  method PutDescribeGroups(m: map<string, Placeholder>, groupNames: seq<string>, values: map<string, Option<string>>)
    returns (placeholders: map<string, Placeholder>)
    ensures placeholders == WithDescribeGroups(m, groupNames, values)
  {
    placeholders := m;
    for i := 0 to |groupNames|
      invariant placeholders == WithDescribeGroups(m, groupNames[..i], values)
    {
      var groupName := groupNames[i];
      var value :=
        if groupName in values && values[groupName].Some? then Supplied(values[groupName].value) else SuppliesNull;
      placeholders := placeholders["describe." + groupName := value];
      placeholders := placeholders["describe." + groupName + ".slug" := if value.Supplied? then Supplied(Slugify(value.value)) else Throws];
      assert groupNames[..i + 1][..i] == groupNames[..i];
    }
    assert groupNames[..|groupNames|] == groupNames;
  }

  /** `rootProject.getProperties().forEach(...)`: every string-valued
      property is put under its own name. */
  method PutStringProperties(m: map<string, Placeholder>, properties: map<string, PropertyValue>)
    returns (placeholders: map<string, Placeholder>)
    ensures placeholders == m + StringPropertyPlaceholders(properties, properties.Keys)
  {
    placeholders := m;
    var remaining := properties.Keys;
    while remaining != {}
      invariant remaining <= properties.Keys
      invariant placeholders == m + StringPropertyPlaceholders(properties, properties.Keys - remaining)
      decreases remaining
    {
      var key :| key in remaining;
      StringPropertyStep(m, properties, properties.Keys - remaining, key);
      assert properties.Keys - (remaining - {key}) == (properties.Keys - remaining) + {key};
      if properties[key].StringValue? {
        placeholders := placeholders[key := Supplied(properties[key].value)];
      }
      remaining := remaining - {key};
    }
    assert properties.Keys - remaining == properties.Keys;
  }

  /** `System.getenv().forEach(...)`: every variable is put under "env." and its name. */
  method PutEnvironmentVariables(m: map<string, Placeholder>, variables: map<string, string>)
    returns (placeholders: map<string, Placeholder>)
    ensures placeholders == m + EnvironmentPlaceholders(variables, variables.Keys)
  {
    placeholders := m;
    var remaining := variables.Keys;
    while remaining != {}
      invariant remaining <= variables.Keys
      invariant placeholders == m + EnvironmentPlaceholders(variables, variables.Keys - remaining)
      decreases remaining
    {
      var key :| key in remaining;
      EnvironmentStep(m, variables, variables.Keys - remaining, key);
      assert variables.Keys - (remaining - {key}) == (variables.Keys - remaining) + {key};
      placeholders := placeholders["env." + key := Supplied(variables[key])];
      remaining := remaining - {key};
    }
    assert variables.Keys - remaining == variables.Keys;
  }

  // ---- what the placeholder map promises ----------------------------------

  /** The keys the ref pattern's groups are put under. */
  function RefGroupKeys(groups: seq<(string, Option<string>)>): set<string> {
    (set g | g in groups :: g.0) + (set g | g in groups :: g.0 + ".slug")
  }

  /** The keys the describe tag pattern's groups are put under. */
  function DescribeGroupKeys(names: seq<string>): set<string> {
    (set n | n in names :: "describe." + n) + (set n | n in names :: "describe." + n + ".slug")
  }

  /** Group names as Java allows them: letters and digits, so no '.'. */
  predicate DotFree(names: seq<string>) {
    forall i :: 0 <= i < |names| ==> '.' !in names[i]
  }

  predicate Distinct<T(==)>(xs: seq<T>) {
    forall i, j :: 0 <= i < j < |xs| ==> xs[i] != xs[j]
  }

  function GroupNames(groups: seq<(string, Option<string>)>): (names: seq<string>)
    ensures |names| == |groups| && forall i :: 0 <= i < |groups| ==> names[i] == groups[i].0
  {
    seq(|groups|, i requires 0 <= i < |groups| => groups[i].0)
  }

  /** The ref groups leave every other key as it was. */
  lemma {:induction false} WithRefGroupsKeeps(m: map<string, Placeholder>, groups: seq<(string, Option<string>)>, key: string)
    requires key !in RefGroupKeys(groups)
    ensures key in WithRefGroups(m, groups) <==> key in m
    ensures key in m ==> WithRefGroups(m, groups)[key] == m[key]
  {
    if groups != [] {
      var init := groups[..|groups| - 1];
      assert RefGroupKeys(init) <= RefGroupKeys(groups) by {
        forall g | g in init ensures g in groups { }
      }
      assert groups[|groups| - 1] in groups;
      WithRefGroupsKeeps(m, init, key);
    }
  }

  /** The describe groups leave every other key as it was. */
  lemma {:induction false} WithDescribeGroupsKeeps(m: map<string, Placeholder>, names: seq<string>, values: map<string, Option<string>>, key: string)
    requires key !in DescribeGroupKeys(names)
    ensures key in WithDescribeGroups(m, names, values) <==> key in m
    ensures key in m ==> WithDescribeGroups(m, names, values)[key] == m[key]
  {
    if names != [] {
      var init := names[..|names| - 1];
      assert DescribeGroupKeys(init) <= DescribeGroupKeys(names) by {
        forall n | n in init ensures n in names { }
      }
      assert names[|names| - 1] in names;
      WithDescribeGroupsKeeps(m, init, values, key);
    }
  }

  /** With distinct dot-free names, each ref group reads as its captured
      value, and a group that took no part as "". */
  lemma {:induction false} RefGroupValue(m: map<string, Placeholder>, groups: seq<(string, Option<string>)>, i: nat)
    requires i < |groups| && Distinct(GroupNames(groups)) && DotFree(GroupNames(groups))
    ensures var r := WithRefGroups(m, groups);
      var value := if groups[i].1.Some? then groups[i].1.value else "";
      && groups[i].0 in r && r[groups[i].0] == Supplied(value)
      && groups[i].0 + ".slug" in r && r[groups[i].0 + ".slug"] == Supplied(Slugify(value))
  {
    var n := |groups| - 1;
    var init := groups[..n];
    var name := groups[i].0;
    assert '.' !in name by { assert GroupNames(groups)[i] == name; }
    if i < n {
      var last := groups[n].0;
      assert GroupNames(init) == GroupNames(groups)[..n];
      RefGroupValue(m, init, i);
      assert last != name by { assert GroupNames(groups)[i] != GroupNames(groups)[n]; }
      assert '.' !in last by { assert GroupNames(groups)[n] == last; }
      DotFreeSlugDiffers(last, name);
      DotFreeSlugDiffers(name, last);
      SlugKeyInjective(last, name);
      var inner := WithRefGroups(m, init);
      assert WithRefGroups(m, groups) == WithRefGroup(inner, groups[n]);
    } else {
      DotFreeSlugDiffers(name, name);
    }
  }

  /** A dot-free name is not the slug key of any name. */
  lemma DotFreeSlugDiffers(a: string, b: string)
    requires '.' !in a
    ensures a != b + ".slug"
  {
    assert (b + ".slug")[|b|] == '.';
  }

  lemma SlugKeyInjective(a: string, b: string)
    requires a != b
    ensures a + ".slug" != b + ".slug"
  {
    if |a| == |b| {
      var k :| 0 <= k < |a| && a[k] != b[k];
      assert (a + ".slug")[k] == a[k];
      assert (b + ".slug")[k] == b[k];
    } else {
      assert |a + ".slug"| != |b + ".slug"|;
    }
  }

  lemma PrefixInjective(p: string, a: string, b: string)
    requires p + a == p + b
    ensures a == b
  {
    assert a == (p + a)[|p|..];
    assert b == (p + b)[|p|..];
  }

  /** With distinct dot-free names, each describe group reads as the group's
      value in the describe tag; a group that is missing or took no part reads
      as null, and its slug then throws. */
  lemma {:induction false} DescribeGroupValue(m: map<string, Placeholder>, names: seq<string>, values: map<string, Option<string>>, i: nat)
    requires i < |names| && Distinct(names) && DotFree(names)
    ensures var r := WithDescribeGroups(m, names, values);
      var key := "describe." + names[i];
      && key in r && key + ".slug" in r
      && (names[i] in values && values[names[i]].Some? ==>
            r[key] == Supplied(values[names[i]].value) && r[key + ".slug"] == Supplied(Slugify(values[names[i]].value)))
      && (!(names[i] in values && values[names[i]].Some?) ==> r[key] == SuppliesNull && r[key + ".slug"] == Throws)
  {
    var n := |names| - 1;
    var init := names[..n];
    var name := names[i];
    if i < n {
      var last := names[n];
      DescribeGroupValue(m, init, values, i);
      var key := "describe." + name;
      var lastKey := "describe." + last;
      assert key != lastKey by {
        if key == lastKey { PrefixInjective("describe.", name, last); }
      }
      assert key != lastKey + ".slug" by {
        DotFreeSlugDiffers(name, last);
        assert lastKey + ".slug" == "describe." + (last + ".slug");
        if key == lastKey + ".slug" { PrefixInjective("describe.", name, last + ".slug"); }
      }
      assert key + ".slug" != lastKey by {
        DotFreeSlugDiffers(last, name);
        assert key + ".slug" == "describe." + (name + ".slug");
        if key + ".slug" == lastKey { PrefixInjective("describe.", name + ".slug", last); }
      }
      assert key + ".slug" != lastKey + ".slug" by {
        assert key != lastKey;
        SlugKeyInjective(key, lastKey);
      }
      assert WithDescribeGroups(m, names, values) == WithDescribeGroup(WithDescribeGroups(m, init, values), last, values);
    } else {
      var key := "describe." + name;
      SlugKeyDiffers(key);
    }
  }

  lemma SlugKeyDiffers(a: string)
    ensures a + ".slug" != a
  {
    assert |a + ".slug"| != |a|;
  }

  /** Every environment placeholder key starts with "env.". */
  lemma EnvironmentKeyPrefixed(variables: map<string, string>, keys: set<string>, key: string)
    requires key in EnvironmentPlaceholders(variables, keys)
    ensures StartsWith(key, EnvironmentKeyPrefix)
  {
    var v :| v in keys && v in variables && key == EnvironmentKeyPrefix + v;
    assert key[..|EnvironmentKeyPrefix|] == EnvironmentKeyPrefix;
  }

  /** Every describe group key starts with "describe.". */
  lemma DescribeGroupKeyPrefixed(names: seq<string>, key: string)
    requires key in DescribeGroupKeys(names)
    ensures StartsWith(key, "describe.")
  {
    if key in (set n | n in names :: "describe." + n) {
      var n :| n in names && key == "describe." + n;
      assert key[..9] == "describe.";
    } else {
      var n :| n in names && key == "describe." + n + ".slug";
      assert key[..9] == "describe.";
    }
  }

  /** The string-valued project property or environment variable behind a
      key, if any. */
  predicate StringProperty(e: Environment, key: string) {
    key in e.projectProperties && e.projectProperties[key].StringValue?
  }

  /** The keys the ref pattern's groups take, for the resolved rule. */
  function RefGroupKeysOf(details: GitVersionDetails, lib: Library): set<string> {
    if details.config.pattern.Some? then RefGroupKeys(lib.patternGroupValues(details.refName, details.config.pattern.value)) else {}
  }

  /** Environment variables are put last, and string-valued project
      properties before them: either decides its key. */
  lemma GlobalPlaceholderOverrides(s: GitSituation, details: GitVersionDetails, e: Environment, lib: Library, key: string)
    ensures var m := GlobalFormatPlaceholderMap(s, details, e, lib);
      var env := EnvironmentPlaceholders(e.variables, e.variables.Keys);
      && (key in env ==> key in m && m[key] == env[key])
      && (key !in env && StringProperty(e, key) ==> key in m && m[key] == Supplied(e.projectProperties[key].value))
  {
  }

  /** Before the describe groups, a dirty or describe key holds its own
      entry, and a commit or ref key outside the ref groups holds its own. */
  lemma BeforeDescribeGroupsLayers(s: GitSituation, details: GitVersionDetails, lib: Library, key: string)
    ensures var before := PlaceholdersBeforeDescribeGroups(s, details, lib);
      var middle := DirtyPlaceholders(s.clean) + DescribePlaceholders(lib.describe(s.describeTagPattern));
      var first := CommitPlaceholders(s.hash, s.timestamp) + RefPlaceholders(details);
      && (key in middle ==> key in before && before[key] == middle[key])
      && (key !in middle && key !in RefGroupKeysOf(details, lib) && key in first ==> key in before && before[key] == first[key])
  {
    var first := CommitPlaceholders(s.hash, s.timestamp) + RefPlaceholders(details);
    if details.config.pattern.Some? && key !in RefGroupKeysOf(details, lib) {
      WithRefGroupsKeeps(first, lib.patternGroupValues(details.refName, details.config.pattern.value), key);
    }
  }

  /** Below the project properties and environment variables, a key outside
      the describe groups keeps its value from before the describe groups. */
  lemma GlobalPlaceholderLayers(s: GitSituation, details: GitVersionDetails, e: Environment, lib: Library, key: string)
    requires key !in EnvironmentPlaceholders(e.variables, e.variables.Keys) && !StringProperty(e, key)
    requires key !in DescribeGroupKeys(lib.patternGroups(s.describeTagPattern))
    ensures var m := GlobalFormatPlaceholderMap(s, details, e, lib);
      var before := PlaceholdersBeforeDescribeGroups(s, details, lib);
      key in m <==> key in before
    ensures var m := GlobalFormatPlaceholderMap(s, details, e, lib);
      var before := PlaceholdersBeforeDescribeGroups(s, details, lib);
      key in before ==> m[key] == before[key]
  {
    var description := lib.describe(s.describeTagPattern);
    var before := PlaceholdersBeforeDescribeGroups(s, details, lib);
    WithDescribeGroupsKeeps(before, lib.patternGroups(s.describeTagPattern),
                            lib.describeGroupValues(s.describeTagPattern, description.tag), key);
  }

  /** A key outside "env." and "describe." is below neither the environment
      nor the describe groups. */
  lemma OutsideEnvironmentAndDescribeGroups(s: GitSituation, e: Environment, lib: Library, key: string)
    requires !StartsWith(key, EnvironmentKeyPrefix) && !StartsWith(key, "describe.")
    ensures key !in EnvironmentPlaceholders(e.variables, e.variables.Keys)
    ensures key !in DescribeGroupKeys(lib.patternGroups(s.describeTagPattern))
  {
    if key in EnvironmentPlaceholders(e.variables, e.variables.Keys) {
      EnvironmentKeyPrefixed(e.variables, e.variables.Keys, key);
    }
    if key in DescribeGroupKeys(lib.patternGroups(s.describeTagPattern)) {
      DescribeGroupKeyPrefixed(lib.patternGroups(s.describeTagPattern), key);
    }
  }

  /** The keys of the dirty and describe entries. */
  lemma MiddleKeys(clean: bool, description: GitDescription)
    ensures (DirtyPlaceholders(clean) + DescribePlaceholders(description)).Keys
         == {"dirty", "dirty.snapshot", "describe", "describe.tag", "describe.distance"}
  {
  }

  /** Every dirty and describe key starts with 'd'. */
  lemma OutsideMiddle(clean: bool, description: GitDescription, key: string)
    requires |key| == 0 || key[0] != 'd'
    ensures key !in DirtyPlaceholders(clean) + DescribePlaceholders(description)
  {
    MiddleKeys(clean, description);
  }

  lemma CommitHashEntry(hash: string, t: CommitTime)
    ensures "commit" in CommitPlaceholders(hash, t) && CommitPlaceholders(hash, t)["commit"] == Supplied(hash)
  {
  }

  /** Among the ref entries, `commit` is the ref type's own key only. */
  lemma RefEntriesCommitKey(details: GitVersionDetails)
    ensures "commit" in RefPlaceholders(details) <==> details.refType == COMMIT
    ensures details.refType == COMMIT ==> RefPlaceholders(details)["commit"] == Supplied(details.refName)
  {
    var t := RefTypeName(details.refType);
    assert |t + ".slug"| > 6;
  }

  /** `commit` reads the hash, or the ref name when the ref type is commit. */
  lemma CommitEntry(s: GitSituation, details: GitVersionDetails)
    ensures var first := CommitPlaceholders(s.hash, s.timestamp) + RefPlaceholders(details);
      "commit" in first && first["commit"] == Supplied(if details.refType == COMMIT then details.refName else s.hash)
  {
    CommitHashEntry(s.hash, s.timestamp);
    RefEntriesCommitKey(details);
  }

  /** The dirty entries, read through the describe entries put after them. */
  lemma DirtyEntries(clean: bool, description: GitDescription)
    ensures var middle := DirtyPlaceholders(clean) + DescribePlaceholders(description);
      && "dirty" in middle && middle["dirty"] == Supplied(if clean then "" else "-DIRTY")
      && "dirty.snapshot" in middle && middle["dirty.snapshot"] == Supplied(if clean then "" else "-SNAPSHOT")
  {
    assert "dirty" !in DescribePlaceholders(description) by { MiddleKeys(clean, description); }
    assert "dirty.snapshot" !in DescribePlaceholders(description);
  }

  /** `ref` reads the ref name: the ref type's keys are never "ref". */
  lemma RefEntry(s: GitSituation, details: GitVersionDetails)
    ensures var first := CommitPlaceholders(s.hash, s.timestamp) + RefPlaceholders(details);
      "ref" in first && first["ref"] == Supplied(details.refName)
  {
    var t := RefTypeName(details.refType);
    assert |t + ".slug"| > 3;
    assert RefPlaceholders(details)["ref"] == Supplied(details.refName);
  }

  /** `${dirty}` and `${dirty.snapshot}` read "-DIRTY" and "-SNAPSHOT" for a
      dirty worktree and "" for a clean one, unless a project property of
      that name overrides them. */
  lemma DirtyPlaceholderValues(s: GitSituation, details: GitVersionDetails, e: Environment, lib: Library)
    requires !StringProperty(e, "dirty") && !StringProperty(e, "dirty.snapshot")
    ensures var m := GlobalFormatPlaceholderMap(s, details, e, lib);
      && "dirty" in m && m["dirty"] == Supplied(if s.clean then "" else "-DIRTY")
      && "dirty.snapshot" in m && m["dirty.snapshot"] == Supplied(if s.clean then "" else "-SNAPSHOT")
  {
    DirtyPlaceholder(s, details, e, lib, "dirty");
    DirtyPlaceholder(s, details, e, lib, "dirty.snapshot");
    DirtyEntries(s.clean, lib.describe(s.describeTagPattern));
  }

  /** A dirty key outside the project properties keeps its dirty entry. */
  lemma DirtyPlaceholder(s: GitSituation, details: GitVersionDetails, e: Environment, lib: Library, key: string)
    requires key == "dirty" || key == "dirty.snapshot"
    requires !StringProperty(e, key)
    ensures var m := GlobalFormatPlaceholderMap(s, details, e, lib);
      var middle := DirtyPlaceholders(s.clean) + DescribePlaceholders(lib.describe(s.describeTagPattern));
      key in middle && key in m && m[key] == middle[key]
  {
    DiffersFromPrefix(key, EnvironmentKeyPrefix, 0);
    DiffersFromPrefix(key, "describe.", 1);
    OutsideEnvironmentAndDescribeGroups(s, e, lib, key);
    DirtyEntries(s.clean, lib.describe(s.describeTagPattern));
    BeforeDescribeGroupsLayers(s, details, lib, key);
    GlobalPlaceholderLayers(s, details, e, lib, key);
  }

  /** `${ref}` reads the resolved ref name unless a ref pattern group or a
      project property of that name overrides it. */
  lemma RefPlaceholderValue(s: GitSituation, details: GitVersionDetails, e: Environment, lib: Library)
    requires !StringProperty(e, "ref") && "ref" !in RefGroupKeysOf(details, lib)
    ensures var m := GlobalFormatPlaceholderMap(s, details, e, lib);
      "ref" in m && m["ref"] == Supplied(details.refName)
  {
    DiffersFromPrefix("ref", EnvironmentKeyPrefix, 0);
    DiffersFromPrefix("ref", "describe.", 0);
    OutsideEnvironmentAndDescribeGroups(s, e, lib, "ref");
    OutsideMiddle(s.clean, lib.describe(s.describeTagPattern), "ref");
    RefEntry(s, details);
    BeforeDescribeGroupsLayers(s, details, lib, "ref");
    GlobalPlaceholderLayers(s, details, e, lib, "ref");
  }

  /** `${commit}` reads the head hash, or the ref name when the resolved ref
      is a commit (its `<ref type>` entry is put after it), unless a ref
      pattern group or a project property of that name overrides it. */
  lemma CommitPlaceholderValue(s: GitSituation, details: GitVersionDetails, e: Environment, lib: Library)
    requires !StringProperty(e, "commit") && "commit" !in RefGroupKeysOf(details, lib)
    ensures var m := GlobalFormatPlaceholderMap(s, details, e, lib);
      "commit" in m && m["commit"] == Supplied(if details.refType == COMMIT then details.refName else s.hash)
  {
    DiffersFromPrefix("commit", EnvironmentKeyPrefix, 0);
    DiffersFromPrefix("commit", "describe.", 0);
    OutsideEnvironmentAndDescribeGroups(s, e, lib, "commit");
    OutsideMiddle(s.clean, lib.describe(s.describeTagPattern), "commit");
    CommitEntry(s, details);
    BeforeDescribeGroupsLayers(s, details, lib, "commit");
    GlobalPlaceholderLayers(s, details, e, lib, "commit");
  }

  // ---- generateGitProjectProperties ---------------------------------------

  const NoCommitInstant := "0000-00-00T00:00:00Z"
  const GitPropertyPrefix := "git."

  /** The `git.*` project properties, in the order of their `put` calls. */
  function GitProjectProperties(s: GitSituation, details: GitVersionDetails): map<string, string> {
    var typeName := RefTypeName(details.refType);
    var slug := Slugify(details.refName);
    map[
      "git.commit" := details.commit,
      "git.commit.timestamp" := IntToString(s.timestamp.epochSecond),
      "git.commit.timestamp.datetime" := if s.timestamp.epochSecond > 0 then s.timestamp.isoInstant else NoCommitInstant,
      "git.ref" := details.refName,
      "git.ref.slug" := slug,
      GitPropertyPrefix + typeName := details.refName,
      GitPropertyPrefix + typeName + ".slug" := slug,
      "git.dirty" := if s.clean then "false" else "true"]
  }

  /** `generateGitProjectProperties`: a fresh map filled by `put` calls. */
  method GenerateGitProjectProperties(s: GitSituation, details: GitVersionDetails) returns (properties: map<string, string>)
    ensures properties == GitProjectProperties(s, details)
  {
    properties := map[];
    properties := properties["git.commit" := details.commit];
    var epochSecond := s.timestamp.epochSecond;
    properties := properties["git.commit.timestamp" := IntToString(epochSecond)];
    properties := properties["git.commit.timestamp.datetime" := if epochSecond > 0 then s.timestamp.isoInstant else NoCommitInstant];
    var typeName := RefTypeName(details.refType);
    var refName := details.refName;
    var refNameSlug := Slugify(refName);
    properties := properties["git.ref" := refName];
    properties := properties["git.ref.slug" := refNameSlug];
    properties := properties[GitPropertyPrefix + typeName := refName];
    properties := properties[GitPropertyPrefix + typeName + ".slug" := refNameSlug];
    properties := properties["git.dirty" := if s.clean then "false" else "true"];
  }

  /** Every key is under "git.". */
  lemma GitProjectPropertyKeys(s: GitSituation, details: GitVersionDetails, key: string)
    requires key in GitProjectProperties(s, details)
    ensures StartsWith(key, GitPropertyPrefix)
  {
    var typeName := RefTypeName(details.refType);
    if key == GitPropertyPrefix + typeName + ".slug" {
      assert key == GitPropertyPrefix + (typeName + ".slug");
      assert key[..4] == GitPropertyPrefix;
    } else if key == GitPropertyPrefix + typeName {
      assert key[..4] == GitPropertyPrefix;
    }
  }

  /** `git.ref` and `git.<ref type>` hold the ref name, their `.slug` keys its
      slug, and `git.dirty` says "true" exactly when the worktree is dirty. */
  lemma GitProjectPropertyValues(s: GitSituation, details: GitVersionDetails)
    ensures var p := GitProjectProperties(s, details);
      var typeKey := GitPropertyPrefix + RefTypeName(details.refType);
      && "git.ref" in p && p["git.ref"] == details.refName
      && "git.ref.slug" in p && p["git.ref.slug"] == Slugify(details.refName)
      && typeKey in p && p[typeKey] == details.refName
      && typeKey + ".slug" in p && p[typeKey + ".slug"] == Slugify(details.refName)
      && "git.dirty" in p && (p["git.dirty"] == "true" <==> !s.clean)
  {
    var typeName := RefTypeName(details.refType);
    var typeKey := GitPropertyPrefix + typeName;
    assert typeKey != "git.dirty" && typeKey + ".slug" != "git.dirty" by {
      DiffersFromPrefix(typeName, "dirty", 0);
      assert typeKey[4..] == typeName;
      assert (typeKey + ".slug")[4] == typeName[0];
    }
    assert typeKey + ".slug" != "git.ref" && typeKey + ".slug" != "git.ref.slug" by {
      assert typeName != "ref";
      assert (typeKey + ".slug")[4..4 + |typeName|] == typeName;
    }
  }

  /** The commit's date-time reads as the ISO instant for a commit after the
      epoch, and as the all-zero sentinel otherwise. */
  lemma GitCommitDateTimeProperty(s: GitSituation, details: GitVersionDetails)
    ensures var p := GitProjectProperties(s, details);
      "git.commit.timestamp.datetime" in p
      && p["git.commit.timestamp.datetime"] == (if s.timestamp.epochSecond > 0 then s.timestamp.isoInstant else NoCommitInstant)
  {
    var typeName := RefTypeName(details.refType);
    assert |GitPropertyPrefix + typeName| < |"git.commit.timestamp.datetime"|;
    assert |GitPropertyPrefix + typeName + ".slug"| < |"git.commit.timestamp.datetime"|;
  }
}
