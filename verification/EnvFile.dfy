/** The generated `.env` file (`writeEnv`, `ensureEnvWritable` and `removeGenerated` in
    `internal/lab/service.go`). */
module EnvFile {
  import opened Decimal
  import opened EnvironmentConfig
  import opened Splitting

  const MARKER := "# Generated by tripgoctl. Do not edit manually."

  /** Lines, each ended by a newline. */
  function Unlines(lines: seq<string>): string {
    if lines == [] then [] else Unlines(Init(lines)) + (Last(lines) + ['\n'])
  }

  function Assignment(v: EnvVariable): string { v.name + ['='] + v.value }

  function Header(lab: nat, version: string): seq<string> {
    [MARKER, "# Source: environment.toml", "# Lab: " + Show(lab), "# Generator: tripgoctl " + version]
  }

  function Assignments(vars: seq<EnvVariable>): seq<string> {
    seq(|vars|, i requires 0 <= i < |vars| => Assignment(vars[i]))
  }

  /** What `writeEnv` writes. */
  function Content(lab: nat, version: string, vars: seq<EnvVariable>): string {
    Unlines(Header(lab, version) + Assignments(vars))
  }

  function IndexOfEquals(line: string): (k: nat)
    ensures k <= |line| && '=' !in line[..k] && (k < |line| ==> line[k] == '=')
  {
    if line == [] || line[0] == '=' then 0 else 1 + IndexOfEquals(line[1..])
  }

  /** `strings.Cut` at the first `=`. */
  function Cut(line: string): EnvVariable {
    var k := IndexOfEquals(line);
    EnvVariable(line[..k], if k < |line| then line[k + 1..] else [])
  }

  /** A reader of the file: skip the header, cut every line at the first `=`. */
  function ReadBack(content: string): seq<EnvVariable> {
    var lines := Init(Split(content, '\n'));
    if |lines| < 4 then [] else CutAll(lines[4..])
  }

  function CutAll(lines: seq<string>): seq<EnvVariable> { seq(|lines|, i requires 0 <= i < |lines| => Cut(lines[i])) }

  lemma {:induction false} SplitUnlines(lines: seq<string>)
    requires forall i :: 0 <= i < |lines| ==> '\n' !in lines[i]
    ensures Split(Unlines(lines), '\n') == lines + [[]]
  {
    if lines != [] {
      var init, last := Init(lines), Last(lines);
      assert lines == init + [last];
      SplitUnlines(init);
      SplitSuffix(Unlines(init), last, '\n');
      assert Split(Unlines(init) + last, '\n') == init + [[] + last];
      SplitSeparator(Unlines(init) + last, [], '\n');
      assert Unlines(init) + last + ['\n'] + [] == Unlines(lines);
      assert [] + last == last;
    }
  }

  lemma CutAssignment(v: EnvVariable)
    requires '=' !in v.name
    ensures Cut(Assignment(v)) == v
  {
    var line := Assignment(v);
    var k := IndexOfEquals(line);
    assert line[|v.name|] == '=';
    assert k == |v.name| by {
      assert forall i :: 0 <= i < |v.name| ==> line[i] == v.name[i];
    }
    assert line[..k] == v.name && line[k + 1..] == v.value;
  }

  lemma CutAssignments(vars: seq<EnvVariable>)
    requires forall i :: 0 <= i < |vars| ==> '=' !in vars[i].name
    ensures CutAll(Assignments(vars)) == vars
  {
    forall i | 0 <= i < |vars| ensures CutAll(Assignments(vars))[i] == vars[i] {
      CutAssignment(vars[i]);
    }
  }

  predicate OneLine(line: string) { '\n' !in line }

  lemma HeaderIsClean(lab: nat, version: string, i: nat)
    requires '\n' !in version && i < |Header(lab, version)|
    ensures OneLine(Header(lab, version)[i])
  {
    if i == 2 {
      OneLineAppend("# Lab: ", Show(lab));
    } else if i == 3 {
      OneLineAppend("# Generator: tripgoctl ", version);
    }
  }

  lemma OneLineAppend(a: string, b: string)
    requires OneLine(a) && OneLine(b)
    ensures OneLine(a + b)
  {
  }

  lemma AssignmentIsClean(v: EnvVariable)
    requires LegalName(v.name) && SingleLine(v.value)
    ensures OneLine(Assignment(v))
  {
    OneLineAppend(v.name, ['=']);
    OneLineAppend(v.name + ['='], v.value);
  }

  /** The header and every assignment are single lines. */
  lemma LinesAreClean(lab: nat, version: string, vars: seq<EnvVariable>)
    requires '\n' !in version
    requires forall i :: 0 <= i < |vars| ==> LegalName(vars[i].name) && SingleLine(vars[i].value)
    ensures var lines := Header(lab, version) + Assignments(vars); forall i :: 0 <= i < |lines| ==> OneLine(lines[i])
  {
    var header, assignments := Header(lab, version), Assignments(vars);
    forall i | 0 <= i < |header + assignments| ensures OneLine((header + assignments)[i]) {
      if i < |header| {
        HeaderIsClean(lab, version, i);
      } else {
        AssignmentIsClean(vars[i - |header|]);
      }
    }
  }

  /** Reading the file back gives the variables exactly, in order. */
  lemma ReadBackContent(lab: nat, version: string, vars: seq<EnvVariable>)
    requires '\n' !in version
    requires forall i :: 0 <= i < |vars| ==> LegalName(vars[i].name) && SingleLine(vars[i].value)
    ensures ReadBack(Content(lab, version, vars)) == vars
  {
    var lines := Header(lab, version) + Assignments(vars);
    LinesAreClean(lab, version, vars);
    SplitUnlines(lines);
    assert Init(lines + [[]]) == lines && lines[4..] == Assignments(vars);
    CutAssignments(vars);
  }

  /** For every accepted document the file starts with its header, is recognised as generated,
      and reads back as the lab's built-in variables followed by the custom ones: every entry of
      the `env` table is there with its value, no name comes twice, and nothing else is there. */
  lemma EnvRoundTrip(c: Config, d: Document, catalog: Catalog, version: string)
    requires catalog.WellFormed() && Acceptable(d, catalog) && IsNormalForm(c, d) && '\n' !in version
    ensures c.lab >= 0 && d.lab in catalog.variables
    ensures var content := Content(c.lab, version, EnvironmentVariables(c, catalog));
            var read, builtIn := ReadBack(content), catalog.variables[d.lab];
            && read == builtIn + c.customEnv
            && (forall n :: n in d.env ==> EnvVariable(n, d.env[n]) in read)
            && (forall v :: v in read ==> v in builtIn || (v.name in d.env && d.env[v.name] == v.value))
            && (forall i, j :: 0 <= i < j < |read| ==> read[i].name != read[j].name)
            && Generated(content)
    ensures HeadedBy(Content(c.lab, version, EnvironmentVariables(c, catalog)), d.lab, version)
  {
    var vars := EnvironmentVariables(c, catalog);
    VariablesAreDistinctAndLegal(c, d, catalog);
    ReadBackContent(c.lab, version, vars);
    GeneratedIsRecognised(c.lab, version, vars);
    HeaderComesFirst(c.lab, version, vars);
    forall n | n in d.env ensures EnvVariable(n, d.env[n]) in vars {
      assert EnvVariable(n, d.env[n]) in c.customEnv;
    }
  }

  /** The first four lines of the file. */
  ghost predicate HeadedBy(content: string, lab: int, version: string) {
    var lines := Split(content, '\n');
    && |lines| > 4 && lab >= 0
    && lines[0] == "# Generated by tripgoctl. Do not edit manually."
    && lines[1] == "# Source: environment.toml"
    && lines[2] == "# Lab: " + Show(lab)
    && lines[3] == "# Generator: tripgoctl " + version
  }

  lemma HeaderComesFirst(lab: nat, version: string, vars: seq<EnvVariable>)
    requires '\n' !in version
    requires forall i :: 0 <= i < |vars| ==> LegalName(vars[i].name) && SingleLine(vars[i].value)
    ensures HeadedBy(Content(lab, version, vars), lab, version)
  {
    LinesAreClean(lab, version, vars);
    SplitUnlines(Header(lab, version) + Assignments(vars));
  }

  /** A generated file: the marker is its first line. */
  ghost predicate Generated(content: string) { content == MARKER || MARKER + ['\n'] <= content }

  /** `bufio.Reader.ReadString` up to the first newline, without it. */
  function FirstLine(content: string): string {
    if content == [] || content[0] == '\n' then [] else [content[0]] + FirstLine(content[1..])
  }

  lemma {:induction false} FirstLineIff(content: string, line: string)
    requires '\n' !in line
    ensures FirstLine(content) == line <==> content == line || line + ['\n'] <= content
  {
    if content == [] || content[0] == '\n' {
    } else if line != [] {
      FirstLineIff(content[1..], line[1..]);
      assert content == [content[0]] + content[1..] && line == [line[0]] + line[1..];
      assert content[0] == line[0] ==> (line + ['\n'] <= content <==> line[1..] + ['\n'] <= content[1..]);
    }
  }

  lemma MarkerComesFirst(content: string)
    ensures FirstLine(content) == MARKER <==> Generated(content)
  {
    HeaderIsClean(0, "", 0);
    FirstLineIff(content, Header(0, "")[0]);
  }

  /** Whatever is written is recognised afterwards. */
  lemma GeneratedIsRecognised(lab: nat, version: string, vars: seq<EnvVariable>)
    requires '\n' !in version
    requires forall i :: 0 <= i < |vars| ==> LegalName(vars[i].name) && SingleLine(vars[i].value)
    ensures Generated(Content(lab, version, vars))
  {
    UnlinesBegins(Header(lab, version) + Assignments(vars));
  }

  lemma {:induction false} UnlinesBegins(lines: seq<string>)
    requires lines != []
    ensures lines[0] + ['\n'] <= Unlines(lines)
  {
    if |lines| == 1 {
      assert Init(lines) == [];
    } else {
      UnlinesBegins(Init(lines));
    }
  }

  datatype Entry = Absent | Regular(content: string) | NotRegular

  ghost predicate OwnedEntry(e: Entry) { e.Regular? && Generated(e.content) }

  ghost predicate Replaceable(e: Entry) { e.Absent? || OwnedEntry(e) }

  /** How an operation that meets no fault leaves a replaceable `.env`. */
  function Left(operation: Operation): Entry {
    match operation
    case StartWith(lab, version, vars) => Regular(Content(lab, version, vars))
    case Reset => Absent
  }

  datatype Operation = StartWith(lab: nat, version: string, vars: seq<EnvVariable>) | Reset

  class ProjectDirectory {
    var env: Entry
    ghost var faults: nat  // file operations that failed of themselves

    constructor (env: Entry)
      ensures this.env == env && faults == 0
    {
      this.env, faults := env, 0;
    }

    /** `ensureEnvWritable`: there is no `.env`, or a generated one. */
    method EnsureEnvWritable() returns (ok: bool)
      modifies this`faults
      ensures ok ==> Replaceable(env)
      ensures old(faults) <= faults && (faults == old(faults) ==> (ok <==> Replaceable(env)))
    {
      var readable: bool := *;
      if !readable { faults := faults + 1; }
      if !readable { return false; }
      if env.Absent? { return true; }
      if !env.Regular? { return false; }
      MarkerComesFirst(env.content);
      ok := FirstLine(env.content) == MARKER;
    }

    /** `writeEnv`: check again, then replace atomically. An error after the rename reports
        failure although the new file is in place. */
    method WriteEnv(lab: nat, version: string, vars: seq<EnvVariable>) returns (ok: bool)
      modifies this
      ensures !Replaceable(old(env)) ==> !ok && env == old(env)
      ensures ok ==> env == Regular(Content(lab, version, vars))
      ensures old(faults) <= faults && (faults == old(faults) ==> (ok <==> Replaceable(old(env))))
      ensures env == old(env) || env == Regular(Content(lab, version, vars))
    {
      ok := EnsureEnvWritable();
      if !ok {
        return;
      }
      var renamed: bool, synced: bool := *, *;
      if renamed {
        env := Regular(Content(lab, version, vars));
      }
      ok := renamed && synced;
      if !ok { faults := faults + 1; }
    }

    /** `removeGenerated` for `.env`. */
    method RemoveEnv() returns (ok: bool)
      modifies this
      ensures env == old(env) || (OwnedEntry(old(env)) && env.Absent?)
      ensures ok && OwnedEntry(old(env)) ==> env.Absent?
      ensures !OwnedEntry(old(env)) ==> env == old(env)
      ensures old(faults) <= faults && (faults == old(faults) ==> ok)
    {
      var readable: bool := *;
      if !readable {
        faults := faults + 1;
        return false;
      }
      if !env.Regular? {
        return true;
      }
      MarkerComesFirst(env.content);
      if FirstLine(env.content) != MARKER {
        return true;
      }
      ok := *;
      if ok {
        env := Absent;
      } else {
        faults := faults + 1;
      }
    }

    /** Any run of starts and resets: a `.env` without the marker never changes, and whatever
        these operations write they recognise, so, faults aside, the last one has its way. */
    method RunAll(operations: seq<Operation>)
      requires forall i :: 0 <= i < |operations| && operations[i].StartWith? ==> '\n' !in operations[i].version
      requires forall i, k :: 0 <= i < |operations| && operations[i].StartWith? && 0 <= k < |operations[i].vars| ==>
                 LegalName(operations[i].vars[k].name) && SingleLine(operations[i].vars[k].value)
      modifies this
      ensures !Replaceable(old(env)) ==> env == old(env)
      ensures Replaceable(old(env)) ==> Replaceable(env)
      ensures Replaceable(old(env)) && faults == old(faults) && operations != [] ==>
              env == Left(operations[|operations| - 1])
    {
      for i := 0 to |operations|
        invariant !Replaceable(old(env)) ==> env == old(env)
        invariant Replaceable(old(env)) ==> Replaceable(env)
        invariant old(faults) <= faults
        invariant Replaceable(old(env)) && faults == old(faults) && i > 0 ==> env == Left(operations[i - 1])
      {
        match operations[i] {
          case StartWith(lab, version, vars) =>
            GeneratedIsRecognised(lab, version, vars);
            var writable := EnsureEnvWritable();
            var reached: bool := *;  // anything in between may fail
            if !reached { faults := faults + 1; }
            if writable && reached {
              var ok := WriteEnv(lab, version, vars);
            }
          case Reset =>
            var removed := RemoveEnv();
        }
      }
    }
  }
}
