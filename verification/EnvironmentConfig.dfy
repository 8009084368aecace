/** Validation and normal form of environment.toml (`internal/environment/config.go`).

    The model starts from the decoded document. Go iterates over the `env` table in an arbitrary
    order, which is a parameter here. */
module EnvironmentConfig {
  import opened Ordering
  import opened Options

  datatype EnvVariable = EnvVariable(name: string, value: string)

  datatype Document = Document(schema: int, lab: int, components: seq<string>, env: map<string, string>)

  datatype Config = Config(schema: int, lab: int, components: seq<string>, customEnv: seq<EnvVariable>)

  /** The field a validation error names. */
  datatype Field = SchemaVersion | LabNumber | ComponentList | ComponentAt(index: nat) | EnvName(name: string)

  datatype Parsed = Accepted(config: Config) | Rejected(field: Field)

  const POSTGRES := "postgres"
  const OBSERVABILITY := "observability"
  const PUSH := "push"
  const REDPANDA := "redpanda"

  function Components(lab: int): Option<seq<string>> {
    match lab
    case 1 => Some([POSTGRES])
    case 2 => Some([POSTGRES, OBSERVABILITY])
    case 3 => Some([POSTGRES, OBSERVABILITY, PUSH])
    case 4 => Some([POSTGRES, OBSERVABILITY, PUSH, REDPANDA])
    case 5 => Some([POSTGRES, OBSERVABILITY, PUSH, REDPANDA])
    case _ => None
  }

  /** Each lab has the components of the ones before it, in one fixed order. */
  lemma ComponentsAccumulate(lab: int)
    ensures Components(lab).Some? <==> 1 <= lab <= 5
    ensures 1 <= lab <= 5 ==>
              Components(lab).value == ["postgres", "observability", "push", "redpanda"][..if lab < 4 then lab else 4]
  {
  }

  predicate IsComponent(name: string) { name in [POSTGRES, OBSERVABILITY, PUSH, REDPANDA] }

  ghost predicate KnownComponent(name: string) {
    name == "postgres" || name == "observability" || name == "push" || name == "redpanda"
  }

  /** A name of ASCII letters, digits and underscores that does not begin with a digit. */
  ghost predicate LegalName(name: string) {
    && |name| > 0 && !('0' <= name[0] <= '9')
    && forall i :: 0 <= i < |name| ==>
         'a' <= name[i] <= 'z' || 'A' <= name[i] <= 'Z' || '0' <= name[i] <= '9' || name[i] == '_'
  }

  /** No NUL, carriage return or newline. */
  ghost predicate SingleLine(value: string) {
    forall i :: 0 <= i < |value| ==> value[i] != '\0' && value[i] != '\r' && value[i] != '\n'
  }

  predicate NameStart(c: char) { 'A' <= c <= 'Z' || 'a' <= c <= 'z' || c == '_' }

  predicate NameRest(name: string) {
    name == [] || ((NameStart(name[0]) || '0' <= name[0] <= '9') && NameRest(name[1..]))
  }

  /** `envNamePattern.MatchString`: the pattern `^[A-Za-z_][A-Za-z0-9_]*$`. */
  predicate MatchesNamePattern(name: string) { name != [] && NameStart(name[0]) && NameRest(name[1..]) }

  lemma {:induction false} NameRestIff(name: string)
    ensures NameRest(name) <==> forall i :: 0 <= i < |name| ==> NameStart(name[i]) || '0' <= name[i] <= '9'
  {
    if name != [] {
      NameRestIff(name[1..]);
      assert name == [name[0]] + name[1..];
    }
  }

  lemma PatternMatchesLegal(name: string)
    ensures MatchesNamePattern(name) <==> LegalName(name)
  {
    if name != [] {
      NameRestIff(name[1..]);
      assert name == [name[0]] + name[1..];
    }
  }

  /** `strings.ContainsAny(value, "\x00\r\n")`. */
  predicate ContainsLineBreak(value: string) { '\0' in value || '\r' in value || '\n' in value }

  /** The built-in variables of each lab. Names and values are those of the catalog; only what
      follows from `WellFormed` is used. */
  datatype Catalog = Catalog(variables: map<int, seq<EnvVariable>>) {
    ghost predicate WellFormed() {
      && (forall lab :: lab in variables <==> 1 <= lab <= 5)
      && (forall lab, i :: lab in variables && 0 <= i < |variables[lab]| ==>
            LegalName(variables[lab][i].name) && SingleLine(variables[lab][i].value)
            && Reserved(variables[lab][i].name))
      && (forall lab, i, j :: lab in variables && 0 <= i < j < |variables[lab]| ==>
          variables[lab][i].name != variables[lab][j].name)
    }

    /** `IsBuiltInEnvName`: a name lab 5 defines. */
    predicate IsBuiltIn(name: string) {
      5 in variables && exists i :: 0 <= i < |variables[5]| && variables[5][i].name == name
    }

    ghost predicate Reserved(name: string) {
      5 in variables && exists v :: v in variables[5] && v.name == name
    }
  }

  function NameOf(v: EnvVariable): string { v.name }

  ghost predicate LegalEntry(catalog: Catalog, name: string, value: string) {
    LegalName(name) && !catalog.Reserved(name) && SingleLine(value)
  }

  /** What a document must satisfy, without mention of any order. */
  ghost predicate Acceptable(d: Document, catalog: Catalog) {
    && d.schema == 1
    && Components(d.lab).Some?
    && multiset(d.components) == multiset(Components(d.lab).value)
    && forall n :: n in d.env ==> LegalEntry(catalog, n, d.env[n])
  }

  /** A component that is unknown or listed before. */
  ghost predicate FaultyComponent(components: seq<string>, i: nat)
    requires i < |components|
  {
    !KnownComponent(components[i]) || components[i] in components[..i]
  }

  ghost predicate FirstFaultyComponent(components: seq<string>, i: nat) {
    i < |components| && FaultyComponent(components, i) && forall j :: 0 <= j < i ==> !FaultyComponent(components, j)
  }

  /** The first entry of the iteration that is not legal. */
  ghost predicate FirstFaultyName(env: map<string, string>, order: seq<string>, catalog: Catalog, name: string)
    requires forall n :: n in order <==> n in env
  {
    exists k :: 0 <= k < |order| && order[k] == name && !LegalEntry(catalog, name, env[name])
                && forall j :: 0 <= j < k ==> LegalEntry(catalog, order[j], env[order[j]])
  }

  ghost predicate EnvIsLegal(env: map<string, string>, catalog: Catalog) {
    forall n :: n in env ==> LegalEntry(catalog, n, env[n])
  }

  /** The error names the first thing wrong: schema, lab, an empty list, a component, an entry of
      the `env` table, and last a component set that is not the lab's. */
  ghost predicate FirstFault(field: Field, d: Document, order: seq<string>, catalog: Catalog)
    requires forall n :: n in order <==> n in d.env
  {
    if d.schema != 1 then field == SchemaVersion
    else if Components(d.lab).None? then field == LabNumber
    else if d.components == [] then field == ComponentList
    else if !DistinctAndKnown(d.components) then field.ComponentAt? && FirstFaultyComponent(d.components, field.index)
    else if !EnvIsLegal(d.env, catalog) then field.EnvName? && FirstFaultyName(d.env, order, catalog, field.name)
    else field == ComponentList
  }

  ghost predicate DistinctAndKnown(components: seq<string>) {
    components != [] && Distinct(components) && forall i :: 0 <= i < |components| ==> KnownComponent(components[i])
  }

  /** The normal form: catalog order for components, custom variables strictly sorted by name. */
  ghost predicate IsNormalForm(c: Config, d: Document) {
    && c.schema == d.schema && c.lab == d.lab
    && Components(d.lab) == Some(c.components)
    && StrictlySortedByName(c.customEnv)
    && forall v :: v in c.customEnv <==> v.name in d.env && d.env[v.name] == v.value
  }

  ghost predicate StrictlySortedByName(s: seq<EnvVariable>) {
    forall i, j :: 0 <= i < j < |s| ==> Leq(s[i].name, s[j].name) && s[i].name != s[j].name
  }

  lemma TableDistinctAndKnown(lab: int)
    requires Components(lab).Some?
    ensures DistinctAndKnown(Components(lab).value)
  {
    assert POSTGRES[0] == 'p' && POSTGRES[1] == 'o' && OBSERVABILITY[0] == 'o' && PUSH[0] == 'p' && PUSH[1] == 'u'
           && REDPANDA[0] == 'r';
  }

  /** Only lists of distinct, known names can be a permutation of a lab's components. */
  lemma PermutationIsDistinctAndKnown(components: seq<string>, lab: int)
    requires Components(lab).Some? && multiset(components) == multiset(Components(lab).value)
    ensures DistinctAndKnown(components)
  {
    var table := Components(lab).value;
    TableDistinctAndKnown(lab);
    DistinctIffCounts(table);
    DistinctIffCounts(components);
    assert |multiset(components)| == |components| && |multiset(table)| == |table|;
    forall i | 0 <= i < |components| ensures KnownComponent(components[i]) {
      assert components[i] in multiset(table);
    }
  }

  /** The component loop: every name known and not listed before. */
  method CheckComponents(components: seq<string>) returns (ok: bool, faulty: nat)
    requires components != []
    ensures ok <==> DistinctAndKnown(components)
    ensures !ok ==> FirstFaultyComponent(components, faulty)
  {
    var seen: set<string> := {};
    for i := 0 to |components|
      invariant forall n :: n in seen <==> n in components[..i]
      invariant Distinct(components[..i]) && forall j :: 0 <= j < i ==> KnownComponent(components[j])
      invariant forall j :: 0 <= j < i ==> !FaultyComponent(components, j)
    {
      var name := components[i];
      assert components[..i + 1] == components[..i] + [name];
      if !IsComponent(name) {
        return false, i;
      }
      if name in seen {
        var j :| 0 <= j < i && components[..i][j] == name;
        assert components[j] == components[i];
        return false, i;
      }
      seen := seen + {name};
    }
    assert components[..|components|] == components;
    ok, faulty := true, 0;
  }

  /** The loop over the `env` table in the order the runtime happens to choose. */
  method CollectEnv(env: map<string, string>, order: seq<string>, catalog: Catalog)
    returns (ok: bool, faulty: string, collected: seq<EnvVariable>)
    requires forall n :: n in order <==> n in env
    ensures ok <==> EnvIsLegal(env, catalog)
    ensures ok ==> |collected| == |order| && forall i :: 0 <= i < |order| ==>
            collected[i] == EnvVariable(order[i], env[order[i]])
    ensures !ok ==> FirstFaultyName(env, order, catalog, faulty)
  {
    collected := [];
    for i := 0 to |order|
      invariant |collected| == i && forall j :: 0 <= j < i ==> collected[j] == EnvVariable(order[j], env[order[j]])
      invariant forall j :: 0 <= j < i ==> LegalEntry(catalog, order[j], env[order[j]])
    {
      var name, value := order[i], env[order[i]];
      PatternMatchesLegal(name);
      if !MatchesNamePattern(name) || catalog.IsBuiltIn(name) || ContainsLineBreak(value) {
        return false, name, [];
      }
      collected := collected + [EnvVariable(name, value)];
    }
    ok, faulty := true, "";
  }

  lemma SortedCollectionIsNormal(env: map<string, string>, order: seq<string>, collected: seq<EnvVariable>)
    requires Distinct(order) && (forall n :: n in order <==> n in env)
    requires |collected| == |order| && forall i :: 0 <= i < |order| ==>
             collected[i] == EnvVariable(order[i], env[order[i]])
    ensures StrictlySortedByName(SortBy(collected, NameOf))
    ensures forall v :: v in SortBy(collected, NameOf) <==> v.name in env && env[v.name] == v.value
  {
    var sorted := SortBy(collected, NameOf);
    SortByKeepsDistinct(collected, NameOf);
    forall v: EnvVariable ensures v in collected <==> v.name in env && env[v.name] == v.value {
      if v.name in env && env[v.name] == v.value {
        var i :| 0 <= i < |order| && order[i] == v.name;
        assert collected[i] == v;
      }
    }
    forall i, j | 0 <= i < j < |sorted|
      ensures Leq(sorted[i].name, sorted[j].name) && sorted[i].name != sorted[j].name
    {
      assert Leq(NameOf(sorted[i]), NameOf(sorted[j]));
      assert sorted[i] in collected && sorted[j] in collected;
    }
  }

  /** Two normal forms of one document are the same. */
  lemma NormalFormUnique(a: Config, b: Config, d: Document)
    requires IsNormalForm(a, d) && IsNormalForm(b, d)
    ensures a == b
  {
    assert Distinct(a.customEnv) && Distinct(b.customEnv);
    DistinctIffCounts(a.customEnv);
    DistinctIffCounts(b.customEnv);
    assert forall v :: v in a.customEnv <==> v in multiset(a.customEnv);
    assert forall v :: v in b.customEnv <==> v in multiset(b.customEnv);
    assert multiset(a.customEnv) == multiset(b.customEnv);
    SortedUnique(a.customEnv, b.customEnv, NameOf);
  }

  /** `Parse`: accepts exactly the acceptable documents, and returns their normal form whatever
      the order of components and of the `env` iteration. */
  method Parse(d: Document, order: seq<string>, catalog: Catalog) returns (r: Parsed)
    requires Distinct(order) && forall n :: n in order <==> n in d.env
    ensures r.Accepted? <==> Acceptable(d, catalog)
    ensures r.Accepted? ==> IsNormalForm(r.config, d)
    ensures r.Rejected? ==> FirstFault(r.field, d, order, catalog)
  {
    if d.schema != 1 {
      return Rejected(SchemaVersion);
    }
    if Components(d.lab).None? {
      return Rejected(LabNumber);
    }
    var expected := Components(d.lab).value;
    if multiset(d.components) == multiset(expected) {
      PermutationIsDistinctAndKnown(d.components, d.lab);
    }
    if d.components == [] {
      return Rejected(ComponentList);
    }
    var componentsOk, index := CheckComponents(d.components);
    if !componentsOk {
      return Rejected(ComponentAt(index));
    }
    var envOk, name, customEnv := CollectEnv(d.env, order, catalog);
    if !envOk {
      return Rejected(EnvName(name));
    }
    SortedCollectionIsNormal(d.env, order, customEnv);
    customEnv := SortBy(customEnv, NameOf);
    SortedCopiesEqualIffPermutation(d.components, expected);
    if Sort(d.components) != Sort(expected) {
      return Rejected(ComponentList);
    }
    r := Accepted(Config(d.schema, d.lab, expected, customEnv));
  }

  /** Reordering the components or the `env` iteration changes neither acceptance nor result. */
  lemma OrderIsIrrelevant(d: Document, d': Document, catalog: Catalog, a: Config, b: Config)
    requires d'.schema == d.schema && d'.lab == d.lab && d'.env == d.env
             && multiset(d'.components) == multiset(d.components)
    ensures Acceptable(d, catalog) <==> Acceptable(d', catalog)
    ensures IsNormalForm(a, d) && IsNormalForm(b, d') ==> a == b
  {
    if IsNormalForm(a, d) && IsNormalForm(b, d') {
      NormalFormUnique(a, b, d);
    }
  }

  /** `EnvironmentVariables`: the lab's built-in variables, then the custom ones. */
  function EnvironmentVariables(c: Config, catalog: Catalog): seq<EnvVariable> {
    if c.lab in catalog.variables then catalog.variables[c.lab] + c.customEnv else []
  }

  /** Validation guarantees what the printer relies on: distinct legal names, one-line values. */
  lemma VariablesAreDistinctAndLegal(c: Config, d: Document, catalog: Catalog)
    requires catalog.WellFormed() && Acceptable(d, catalog) && IsNormalForm(c, d)
    ensures var vars := EnvironmentVariables(c, catalog);
            && c.lab in catalog.variables && vars == catalog.variables[c.lab] + c.customEnv
            && (forall i, j :: 0 <= i < j < |vars| ==> vars[i].name != vars[j].name)
            && (forall i :: 0 <= i < |vars| ==> LegalName(vars[i].name) && SingleLine(vars[i].value))
  {
    var builtIn, custom := catalog.variables[c.lab], c.customEnv;
    forall i | 0 <= i < |custom| ensures LegalEntry(catalog, custom[i].name, custom[i].value) {
      assert custom[i] in custom;
    }
    var vars := EnvironmentVariables(c, catalog);
    forall i, j | 0 <= i < j < |vars| ensures vars[i].name != vars[j].name {
      if i < |builtIn| <= j {
        assert catalog.Reserved(builtIn[i].name) && !catalog.Reserved(custom[j - |builtIn|].name);
      }
    }
  }
}
