/**
 * The scenario manager of the installer: where the configuration lives, which scenario
 * files are available, which scenario a run uses, whether it differs from the installed
 * one and what the run then does, the module overview shown when two scenarios are
 * compared, and the link that remembers the last scenario.
 *
 * ARGV, the directory listing, the file contents and the wizards' answers are inputs;
 * an exit is an `Outcome` value.
 */
module Scenarios {
  import opened Outcomes
  import opened Text
  import opened Files

  /** The hash a scenario file holds. */
  type Content = map<Key, Value>

  /** One entry of `@available_scenarios`: the scenario file and its content. */
  datatype Scenario = Scenario(file: Path, content: Content)

  // ---------------------------------------------------------------------------------
  // The configuration directory and the last-scenario link
  // ---------------------------------------------------------------------------------

  /** The name of the link that remembers the last scenario. */
  const DefaultLinkName: string := "last_scenario.yaml"

  /** `config_dir`: the directory of `config` when it is a file, otherwise `config` itself. */
  function ConfigDirOf(fs: FileMap, config: Path): (dir: Path)
    ensures IsFile(fs, config) ==> dir == Dirname(config)
    ensures !IsFile(fs, config) ==> dir == config
  {
    if IsFile(fs, config) then Dirname(config) else config
  }

  /** `previous_scenario`: where the link points, when it leads to something. */
  function PreviousScenarioOf(fs: FileMap, link: Path): (previous: Option<Path>)
    ensures previous.Some? <==> Exists(fs, link)
    ensures previous.Some? ==> previous.value in fs && !fs[previous.value].Symlink?
    ensures link in fs && !fs[link].Symlink? ==> previous == Some(link)
    ensures link in fs && fs[link].Symlink? && previous.Some? ==> previous.value == fs[link].target
  {
    if Exists(fs, link) then Some(Realpath(fs, link)) else None
  }

  /**
   * A configuration file given by its place in a directory yields that directory, and the
   * link named `linkName` sits next to it; a directory given as the configuration is the
   * directory itself.
   */
  lemma ConfigDirectoryRule(fs: FileMap, dir: Path, name: string, linkName: string)
    requires dir != "" && (dir == "/" || dir[|dir| - 1] != '/')
    requires name != [] && '/' !in name
    requires linkName != [] && '/' !in linkName
    ensures IsFile(fs, Join(dir, name)) ==>
      && ConfigDirOf(fs, Join(dir, name)) == dir
      && Dirname(Join(ConfigDirOf(fs, Join(dir, name)), linkName)) == dir
      && Basename(Join(ConfigDirOf(fs, Join(dir, name)), linkName)) == linkName
    ensures !IsFile(fs, dir) ==> ConfigDirOf(fs, dir) == dir
  {
    DirnameOfJoin(dir, name);
    DirnameOfJoin(dir, linkName);
  }

  // ---------------------------------------------------------------------------------
  // Discovering the available scenarios
  // ---------------------------------------------------------------------------------

  function ScenarioFiles(scenarios: seq<Scenario>): (files: seq<Path>)
    ensures |files| == |scenarios|
    ensures forall i :: 0 <= i < |scenarios| ==> files[i] == scenarios[i].file
  {
    seq(|scenarios|, i requires 0 <= i < |scenarios| => scenarios[i].file)
  }

  lemma FilesCons(first: Scenario, rest: seq<Scenario>)
    ensures ScenarioFiles([first] + rest) == [first.file] + ScenarioFiles(rest)
  {
  }

  /** `scns[file] = content` on an insertion-ordered hash: replace in place, or append. */
  function Put(scenarios: seq<Scenario>, s: Scenario): (r: seq<Scenario>)
    ensures s.file in ScenarioFiles(scenarios) ==> ScenarioFiles(r) == ScenarioFiles(scenarios)
    ensures s.file !in ScenarioFiles(scenarios) ==> r == scenarios + [s]
    ensures s in r
    ensures forall t :: t in r ==> t == s || t in scenarios
    decreases |scenarios|
  {
    if scenarios == [] then [s]
    else
      var head, tail := scenarios[0], scenarios[1..];
      assert scenarios == [head] + tail;
      FilesCons(head, tail);
      if head.file == s.file then
        FilesCons(s, tail);
        [s] + tail
      else
        var rest := Put(tail, s);
        FilesCons(head, rest);
        assert s.file in ScenarioFiles(scenarios) <==> s.file in ScenarioFiles(tail);
        assert s.file !in ScenarioFiles(tail) ==> [head] + rest == scenarios + [s];
        assert forall t :: t in [head] + rest ==> t == head || t in rest;
        [head] + rest
  }

  /** The scenario name of a legacy file, which has none: its base name without `.yaml`. */
  function WithDefaultName(file: Path, fields: Content): (content: Content)
    ensures Sym("name") in content
    ensures Sym("name") in fields ==> content == fields
    ensures Sym("name") !in fields ==>
      content[Sym("name")] == Str(BasenameWithout(file, ".yaml")) && content.Keys == fields.Keys + {Sym("name")}
    ensures forall k :: k in fields ==> k in content && content[k] == fields[k]
  {
    if Sym("name") in fields then fields else fields[Sym("name") := Str(BasenameWithout(file, ".yaml"))]
  }

  /** Every listed file that is not the link can be loaded (a missing or unreadable one makes load_file raise). */
  predicate ListingLoadable(fs: FileMap, link: Path, listing: seq<Path>) {
    forall f :: f in listing && !EndsWith(f, link) ==> IsFile(fs, f)
  }

  /** A listed file is a scenario: it is not the link and loads as a hash with `:answer_file`. */
  predicate Accepted(fs: FileMap, link: Path, f: Path) {
    && !EndsWith(f, link)
    && IsFile(fs, f)
    && Load(fs, f).Hash?
    && Sym("answer_file") in Load(fs, f).fields
  }

  /** What the fold over the scenario files produces: the scenarios, and the warnings it printed. */
  datatype Discovery = Discovery(scenarios: seq<Scenario>, warnings: seq<string>)

  /** One file of the fold in `available_scenarios`. */
  function DiscoveryStep(fs: FileMap, link: Path, d: Discovery, f: Path): Discovery
    requires !EndsWith(f, link) ==> IsFile(fs, f)
  {
    if EndsWith(f, link) then d
    else match Load(fs, f)
      case SyntaxError(message) => Discovery(d.scenarios, d.warnings + ["Warning: " + message])
      case NotAHash => d
      case Hash(fields) =>
        if Sym("answer_file") in fields then Discovery(Put(d.scenarios, Scenario(f, WithDefaultName(f, fields))), d.warnings)
        else d
  }

  /** `available_scenarios` over the files the glob listed, in the order it listed them. */
  function Discover(fs: FileMap, link: Path, listing: seq<Path>): (d: Discovery)
    requires ListingLoadable(fs, link, listing)
    ensures |d.scenarios| <= |listing| && |d.warnings| <= |listing|
    decreases |listing|
  {
    if listing == [] then Discovery([], [])
    else DiscoveryStep(fs, link, Discover(fs, link, listing[..|listing| - 1]), listing[|listing| - 1])
  }

  /**
   * The `inject` of available_scenarios: each listed file that is not the link is loaded;
   * a hash with `:answer_file` is kept (its `:name` defaulted), a syntax error is warned of.
   */
  method FoldScenarioFiles(fs: FileMap, link: Path, listing: seq<Path>) returns (scenarios: seq<Scenario>, warnings: seq<string>)
    requires ListingLoadable(fs, link, listing)
    ensures Discovery(scenarios, warnings) == Discover(fs, link, listing)
  {
    scenarios, warnings := [], [];
    var i := 0;
    while i < |listing|
      invariant 0 <= i <= |listing|
      invariant ListingLoadable(fs, link, listing[..i])
      invariant Discovery(scenarios, warnings) == Discover(fs, link, listing[..i])
    {
      var f := listing[i];
      DiscoverNext(fs, link, listing, i);
      if !EndsWith(f, link) {
        match Load(fs, f) {
          case SyntaxError(message) =>
            warnings := warnings + ["Warning: " + message];
          case NotAHash =>
          case Hash(fields) =>
            if Sym("answer_file") in fields {
              var content := WithDefaultName(f, fields);
              scenarios := Put(scenarios, Scenario(f, content));
            }
        }
      }
      i := i + 1;
    }
    assert listing[..i] == listing;
  }

  /** One more listed file folded in. */
  lemma DiscoverNext(fs: FileMap, link: Path, listing: seq<Path>, i: nat)
    requires i < |listing| && ListingLoadable(fs, link, listing)
    ensures ListingLoadable(fs, link, listing[..i]) && ListingLoadable(fs, link, listing[..i + 1])
    ensures Discover(fs, link, listing[..i + 1]) == DiscoveryStep(fs, link, Discover(fs, link, listing[..i]), listing[i])
  {
    assert listing[..i + 1][..i] == listing[..i];
    assert forall g :: g in listing[..i + 1] ==> g in listing;
  }

  /** The listed files that are scenarios, in listing order. */
  function AcceptedFiles(fs: FileMap, link: Path, listing: seq<Path>): (files: seq<Path>)
    ensures forall f :: f in files <==> f in listing && Accepted(fs, link, f)
    decreases |listing|
  {
    if listing == [] then []
    else
      var last := listing[|listing| - 1];
      var init := listing[..|listing| - 1];
      assert listing == init + [last];
      AcceptedFiles(fs, link, init) + (if Accepted(fs, link, last) then [last] else [])
  }

  lemma ListingPrefix(fs: FileMap, link: Path, listing: seq<Path>)
    requires ListingLoadable(fs, link, listing) && listing != []
    ensures ListingLoadable(fs, link, listing[..|listing| - 1])
  {
    assert forall f :: f in listing[..|listing| - 1] ==> f in listing;
  }

  /** Each available scenario is an accepted file, with the content of that file and `:name` defaulted. */
  lemma {:induction false} DiscoverContent(fs: FileMap, link: Path, listing: seq<Path>)
    requires ListingLoadable(fs, link, listing)
    ensures forall s :: s in Discover(fs, link, listing).scenarios ==>
      s.file in listing && Accepted(fs, link, s.file) && s.content == WithDefaultName(s.file, Load(fs, s.file).fields)
    decreases |listing|
  {
    if listing != [] {
      var init := listing[..|listing| - 1];
      assert listing == init + [listing[|listing| - 1]];
      ListingPrefix(fs, link, listing);
      DiscoverContent(fs, link, init);
    }
  }

  /**
   * The available scenarios are exactly the listed files that are not the link and hold a
   * hash with `:answer_file`.
   */
  lemma {:induction false} DiscoverFinds(fs: FileMap, link: Path, listing: seq<Path>)
    requires ListingLoadable(fs, link, listing)
    ensures forall f :: f in ScenarioFiles(Discover(fs, link, listing).scenarios) <==> f in listing && Accepted(fs, link, f)
    decreases |listing|
  {
    DiscoverContent(fs, link, listing);
    var r := Discover(fs, link, listing);
    forall g | g in ScenarioFiles(r.scenarios) ensures g in listing && Accepted(fs, link, g) {
      var k :| 0 <= k < |r.scenarios| && r.scenarios[k].file == g;
      assert r.scenarios[k] in r.scenarios;
    }
    if listing != [] {
      var init := listing[..|listing| - 1];
      var f := listing[|listing| - 1];
      assert listing == init + [f];
      ListingPrefix(fs, link, listing);
      DiscoverFinds(fs, link, init);
      var d := Discover(fs, link, init);
      assert r == DiscoveryStep(fs, link, d, f);
      forall g | g in listing && Accepted(fs, link, g) ensures g in ScenarioFiles(r.scenarios) {
        KeptByStep(fs, link, d, f, g);
      }
    }
  }

  /** A step of the fold keeps every scenario already found and adds the file it reads, if accepted. */
  lemma KeptByStep(fs: FileMap, link: Path, d: Discovery, f: Path, g: Path)
    requires !EndsWith(f, link) ==> IsFile(fs, f)
    requires g in ScenarioFiles(d.scenarios) || (g == f && Accepted(fs, link, f))
    ensures g in ScenarioFiles(DiscoveryStep(fs, link, d, f).scenarios)
  {
    var r := DiscoveryStep(fs, link, d, f);
    if Accepted(fs, link, f) {
      var s := Scenario(f, WithDefaultName(f, Load(fs, f).fields));
      assert r.scenarios == Put(d.scenarios, s);
      if g == f {
        assert s in r.scenarios;
        var k :| 0 <= k < |r.scenarios| && r.scenarios[k] == s;
        assert ScenarioFiles(r.scenarios)[k] == g;
      } else if f !in ScenarioFiles(d.scenarios) {
        var k :| 0 <= k < |d.scenarios| && d.scenarios[k].file == g;
        assert ScenarioFiles(r.scenarios)[k] == g;
      }
    } else {
      assert r.scenarios == d.scenarios;
    }
  }

  /**
   * When the glob lists each file once, the available scenarios come in listing order: the
   * order of the wizard's buttons and of the list.
   */
  lemma {:induction false} DiscoverOrder(fs: FileMap, link: Path, listing: seq<Path>)
    requires ListingLoadable(fs, link, listing)
    requires forall i, j :: 0 <= i < j < |listing| ==> listing[i] != listing[j]
    ensures ScenarioFiles(Discover(fs, link, listing).scenarios) == AcceptedFiles(fs, link, listing)
    decreases |listing|
  {
    if listing != [] {
      var init := listing[..|listing| - 1];
      var f := listing[|listing| - 1];
      assert listing == init + [f];
      ListingPrefix(fs, link, listing);
      DiscoverOrder(fs, link, init);
      DiscoverContent(fs, link, init);
      var d := Discover(fs, link, init);
      if Accepted(fs, link, f) {
        assert f !in init;
        assert f !in ScenarioFiles(d.scenarios);
        var s := Scenario(f, WithDefaultName(f, Load(fs, f).fields));
        assert Discover(fs, link, listing).scenarios == d.scenarios + [s];
        assert ScenarioFiles(d.scenarios + [s]) == ScenarioFiles(d.scenarios) + [f];
      }
    }
  }

  /** The scenarios after a step depend on the scenarios before it, not on the warnings. */
  lemma StepOnScenarios(fs: FileMap, link: Path, d1: Discovery, d2: Discovery, f: Path)
    requires !EndsWith(f, link) ==> IsFile(fs, f)
    requires d1.scenarios == d2.scenarios
    ensures DiscoveryStep(fs, link, d1, f).scenarios == DiscoveryStep(fs, link, d2, f).scenarios
  {
  }

  /** A step over a file that is not a scenario keeps the scenarios. */
  lemma StepSkips(fs: FileMap, link: Path, d: Discovery, f: Path)
    requires !EndsWith(f, link) ==> IsFile(fs, f)
    requires !Accepted(fs, link, f)
    ensures DiscoveryStep(fs, link, d, f).scenarios == d.scenarios
  {
  }

  /** A file that is not a scenario, however it fails (syntax error, no hash, no `:answer_file`), changes no scenario. */
  lemma {:induction false} DiscoverSkips(fs: FileMap, link: Path, before: seq<Path>, skipped: Path, after: seq<Path>)
    requires ListingLoadable(fs, link, before + [skipped] + after)
    requires !Accepted(fs, link, skipped)
    ensures ListingLoadable(fs, link, before + after)
    ensures Discover(fs, link, before + [skipped] + after).scenarios == Discover(fs, link, before + after).scenarios
    decreases |after|
  {
    var whole := before + [skipped] + after;
    var kept := before + after;
    assert forall f :: f in kept ==> f in whole;
    if after == [] {
      assert whole[..|whole| - 1] == before && whole[|whole| - 1] == skipped;
      assert kept == before;
      ListingPrefix(fs, link, whole);
      StepSkips(fs, link, Discover(fs, link, before), skipped);
    } else {
      var init := after[..|after| - 1];
      var last := after[|after| - 1];
      assert whole[..|whole| - 1] == before + [skipped] + init && whole[|whole| - 1] == last;
      assert kept[..|kept| - 1] == before + init && kept[|kept| - 1] == last;
      ListingPrefix(fs, link, whole);
      DiscoverSkips(fs, link, before, skipped, init);
      StepOnScenarios(fs, link, Discover(fs, link, before + [skipped] + init), Discover(fs, link, before + init), last);
    }
  }

  /** The warnings are the syntax-error messages of the listed files other than the link, and nothing else. */
  lemma {:induction false} DiscoverWarns(fs: FileMap, link: Path, listing: seq<Path>)
    requires ListingLoadable(fs, link, listing)
    ensures forall w :: w in Discover(fs, link, listing).warnings <==>
      exists f :: f in listing && !EndsWith(f, link) && Load(fs, f).SyntaxError? && w == "Warning: " + Load(fs, f).message
    decreases |listing|
  {
    if listing != [] {
      var init := listing[..|listing| - 1];
      var f := listing[|listing| - 1];
      assert listing == init + [f];
      ListingPrefix(fs, link, listing);
      DiscoverWarns(fs, link, init);
      forall w | exists g :: g in listing && !EndsWith(g, link) && Load(fs, g).SyntaxError? && w == "Warning: " + Load(fs, g).message
        ensures w in Discover(fs, link, listing).warnings
      {
        var g :| g in listing && !EndsWith(g, link) && Load(fs, g).SyntaxError? && w == "Warning: " + Load(fs, g).message;
        if g != f {
          assert g in init;
        }
      }
    }
  }

  /** Reference: one warning per listed file (the link aside) that fails to parse, in listing order. */
  function SyntaxWarnings(fs: FileMap, link: Path, listing: seq<Path>): seq<string>
    requires ListingLoadable(fs, link, listing)
    decreases |listing|
  {
    if listing == [] then []
    else
      var f := listing[|listing| - 1];
      ListingPrefix(fs, link, listing);
      SyntaxWarnings(fs, link, listing[..|listing| - 1])
        + (if !EndsWith(f, link) && Load(fs, f).SyntaxError? then ["Warning: " + Load(fs, f).message] else [])
  }

  /** The warnings come one per malformed file, in the order the files were listed, whatever the scenarios. */
  lemma {:induction false} DiscoverWarnsInOrder(fs: FileMap, link: Path, listing: seq<Path>)
    requires ListingLoadable(fs, link, listing)
    ensures Discover(fs, link, listing).warnings == SyntaxWarnings(fs, link, listing)
    decreases |listing|
  {
    if listing != [] {
      ListingPrefix(fs, link, listing);
      DiscoverWarnsInOrder(fs, link, listing[..|listing| - 1]);
    }
  }

  // ---------------------------------------------------------------------------------
  // Whether the scenario changed
  // ---------------------------------------------------------------------------------

  /** `scenario_changed?`: a link is resolved first; without a previous scenario nothing changed. */
  function ScenarioChanged(fs: FileMap, previous: Option<Path>, scenario: Path): (changed: bool)
    requires IsSymlink(fs, scenario) ==> Exists(fs, scenario)
    ensures previous.None? ==> !changed
    ensures !IsSymlink(fs, scenario) ==> (changed <==> previous.Some? && scenario != previous.value)
    ensures IsSymlink(fs, scenario) ==> (changed <==> previous.Some? && Realpath(fs, scenario) != previous.value)
    ensures IsSymlink(fs, scenario) ==> (changed <==> previous.Some? && fs[scenario].target != previous.value)
  {
    var canonical := if IsSymlink(fs, scenario) then Realpath(fs, scenario) else scenario;
    previous.Some? && canonical != previous.value
  }

  // ---------------------------------------------------------------------------------
  // The scenario given on the command line
  // ---------------------------------------------------------------------------------

  /** The end of the run of characters of one class that starts at `k`. */
  function NonSpaceEnd(s: string, k: nat): (e: nat)
    requires k <= |s|
    ensures k <= e <= |s|
    ensures forall j :: k <= j < e ==> !IsSpace(s[j])
    ensures e == |s| || IsSpace(s[e])
    decreases |s| - k
  {
    if k == |s| || IsSpace(s[k]) then k else NonSpaceEnd(s, k + 1)
  }

  function SpaceEnd(s: string, k: nat): (e: nat)
    requires k <= |s|
    ensures k <= e <= |s|
    ensures forall j :: k <= j < e ==> IsSpace(s[j])
    ensures e == |s| || !IsSpace(s[e])
    decreases |s| - k
  {
    if k == |s| || !IsSpace(s[k]) then k else SpaceEnd(s, k + 1)
  }

  /** The first group of the pattern, `--scenario` before `-S`, matched at `k`: where it ends. */
  function FlagEnd(s: string, k: nat): (e: Option<nat>)
    ensures e.Some? ==> e.value <= |s|
  {
    if OccursAt(s, "--scenario", k) then Some(k + 10)
    else if OccursAt(s, "-S", k) then Some(k + 2)
    else None
  }

  /**
   * `(--scenario|-S)(\s+|[=]?)(\S+)` matched at `k`: the third group. Blanks are taken
   * greedily; otherwise an `=` is skipped when a non-blank follows it, and failing that
   * the run of non-blanks starts right after the flag.
   */
  function CaptureAt(s: string, k: nat): (r: Option<string>)
    requires k <= |s|
    ensures r.Some? ==> r.value != [] && forall c :: c in r.value ==> !IsSpace(c)
  {
    match FlagEnd(s, k)
    case None => None
    case Some(e) =>
      if e < |s| && IsSpace(s[e]) then
        var v := SpaceEnd(s, e);
        if v < |s| then Some(s[v..NonSpaceEnd(s, v)]) else None
      else if e + 1 < |s| && s[e] == '=' && !IsSpace(s[e + 1]) then Some(s[e + 1..NonSpaceEnd(s, e + 1)])
      else if e < |s| then Some(s[e..NonSpaceEnd(s, e)])
      else None
  }

  /** Where the leftmost match starts, searched from `k` on. */
  function FirstMatchFrom(s: string, k: nat): (j: Option<nat>)
    requires k <= |s|
    ensures j.Some? ==> k <= j.value <= |s| && CaptureAt(s, j.value).Some?
    ensures j.Some? ==> forall i :: k <= i < j.value ==> CaptureAt(s, i).None?
    ensures j.None? ==> forall i :: k <= i <= |s| ==> CaptureAt(s, i).None?
    decreases |s| - k
  {
    if CaptureAt(s, k).Some? then Some(k)
    else if k == |s| then None
    else FirstMatchFrom(s, k + 1)
  }

  /** `ARGV.join(" ").match(...)[3]`: the scenario name of the leftmost `-S`/`--scenario`. */
  function MatchScenarioArg(s: string): (r: Option<string>)
    ensures r.Some? ==> r.value != [] && forall c :: c in r.value ==> !IsSpace(c)
    ensures r.None? <==> FirstMatchFrom(s, 0).None?
  {
    match FirstMatchFrom(s, 0)
    case None => None
    case Some(j) => CaptureAt(s, j)
  }

  /** `scenario_from_args` (the second definition, the one Ruby keeps). */
  function ScenarioFromArgs(fs: FileMap, configDir: Path, argv: seq<string>): (r: Outcome<Option<Path>>)
    ensures r.Continue? || r == Exit(UnknownScenario)
    ensures r.Continue? && r.value.None? <==> MatchScenarioArg(JoinWith(argv, " ")).None?
    ensures MatchScenarioArg(JoinWith(argv, " ")).Some? ==>
      var file := Join(configDir, MatchScenarioArg(JoinWith(argv, " ")).value + ".yaml");
      r == if Exists(fs, file) then Continue(Some(file)) else Exit(UnknownScenario)
  {
    match MatchScenarioArg(JoinWith(argv, " "))
    case None => Continue(None)
    case Some(name) =>
      var file := Join(configDir, name + ".yaml");
      if Exists(fs, file) then Continue(Some(file)) else Exit(UnknownScenario)
  }

  /** The joined command line when it starts with `first` and `second`. */
  lemma JoinedStart(first: string, second: string, rest: seq<string>)
    ensures JoinWith([first, second] + rest, " ") ==
      first + " " + second + (if rest == [] then "" else " " + JoinWith(rest, " "))
  {
    var parts := [first, second] + rest;
    assert parts[1..] == [second] + rest;
    assert ([second] + rest)[1..] == rest;
  }

  lemma JoinedOne(first: string, rest: seq<string>)
    ensures JoinWith([first] + rest, " ") == first + (if rest == [] then "" else " " + JoinWith(rest, " "))
  {
    assert ([first] + rest)[1..] == rest;
  }

  /** The run of non-blanks at `k` ends where the text says it does. */
  lemma NonSpaceEndAt(s: string, k: nat, m: nat)
    requires k <= m <= |s|
    requires forall j :: k <= j < m ==> !IsSpace(s[j])
    requires m == |s| || IsSpace(s[m])
    ensures NonSpaceEnd(s, k) == m
  {
  }

  /** `flag name …`: the name comes back. */
  lemma FlagThenName(flag: string, name: string, tail: string)
    requires flag == "-S" || flag == "--scenario"
    requires name != [] && forall c :: c in name ==> !IsSpace(c)
    requires tail == "" || tail[0] == ' '
    ensures CaptureAt(flag + " " + name + tail, 0) == Some(name)
  {
    var s := flag + " " + name + tail;
    var e := |flag|;
    assert s[..|flag|] == flag;
    if flag == "-S" {
      assert s[1] == 'S';
      assert !OccursAt(s, "--scenario", 0);
    }
    assert FlagEnd(s, 0) == Some(e);
    assert s[e] == ' ';
    assert s[e + 1] == name[0];
    assert SpaceEnd(s, e) == e + 1;
    forall j | e + 1 <= j < e + 1 + |name| ensures !IsSpace(s[j]) {
      assert s[j] == name[j - e - 1];
    }
    NonSpaceEndAt(s, e + 1, e + 1 + |name|);
    assert s[e + 1..e + 1 + |name|] == name;
  }

  /** `--scenario=name …`: the name comes back. */
  lemma FlagEqualsName(name: string, tail: string)
    requires name != [] && forall c :: c in name ==> !IsSpace(c)
    requires tail == "" || tail[0] == ' '
    ensures CaptureAt("--scenario=" + name + tail, 0) == Some(name)
  {
    var s := "--scenario=" + name + tail;
    assert s[..10] == "--scenario";
    assert FlagEnd(s, 0) == Some(10);
    assert s[10] == '=' && s[11] == name[0];
    forall j | 11 <= j < 11 + |name| ensures !IsSpace(s[j]) {
      assert s[j] == name[j - 11];
    }
    NonSpaceEndAt(s, 11, 11 + |name|);
    assert s[11..11 + |name|] == name;
  }

  /** The three spellings a user types all name the scenario, whatever follows them. */
  lemma ScenarioFlagForms(name: string, rest: seq<string>)
    requires name != [] && forall c :: c in name ==> !IsSpace(c)
    ensures MatchScenarioArg(JoinWith(["-S", name] + rest, " ")) == Some(name)
    ensures MatchScenarioArg(JoinWith(["--scenario", name] + rest, " ")) == Some(name)
    ensures MatchScenarioArg(JoinWith(["--scenario=" + name] + rest, " ")) == Some(name)
  {
    var tail := if rest == [] then "" else " " + JoinWith(rest, " ");
    JoinedStart("-S", name, rest);
    JoinedStart("--scenario", name, rest);
    JoinedOne("--scenario=" + name, rest);
    FlagThenName("-S", name, tail);
    FlagThenName("--scenario", name, tail);
    FlagEqualsName(name, tail);
  }

  // ---------------------------------------------------------------------------------
  // The selection wizard and the list of scenarios
  // ---------------------------------------------------------------------------------

  /** What the selection wizard answers: one of the scenario buttons, or cancel. */
  datatype WizardAnswer = Selected(file: Path) | Cancelled

  datatype Button = Button(answer: WizardAnswer, caption: string, isDefault: bool)

  function Field(content: Content, key: string): Value {
    if Sym(key) in content then content[Sym(key)] else Nil
  }

  /** A scenario's button label: its name, then `: description` when it has one. */
  function ScenarioLabel(content: Content): string {
    var name := Field(content, "name").ToS();
    if Field(content, "description").Truthy() then name + ": " + Field(content, "description").ToS() else name
  }

  /** `scenario_selection_wizard`'s entries: one default button per scenario in order, then cancel. */
  function SelectionWizardEntries(available: seq<Scenario>): (entries: seq<Button>)
    ensures |entries| == |available| + 1
    ensures forall i :: 0 <= i < |available| ==>
      entries[i] == Button(Selected(available[i].file), ScenarioLabel(available[i].content), true)
    ensures entries[|available|] == Button(Cancelled, "Cancel Installation", false)
  {
    seq(|available|, i requires 0 <= i < |available| =>
      Button(Selected(available[i].file), ScenarioLabel(available[i].content), true))
    + [Button(Cancelled, "Cancel Installation", false)]
  }

  /** Whatever button is pressed, the wizard answers cancel or an available scenario. */
  lemma WizardAnswersAreAvailable(available: seq<Scenario>, b: Button)
    requires b in SelectionWizardEntries(available)
    ensures b.answer == Cancelled <==> b == Button(Cancelled, "Cancel Installation", false)
    ensures b.answer.Selected? ==> b.answer.file in ScenarioFiles(available)
  {
    var entries := SelectionWizardEntries(available);
    var k :| 0 <= k < |entries| && entries[k] == b;
    if k < |available| {
      assert ScenarioFiles(available)[k] == available[k].file;
    }
  }

  /** A description `list_available_scenarios` can print: none, nil or a string. */
  predicate PrintableDescriptions(available: seq<Scenario>) {
    forall s :: s in available ==> !Field(s.content, "description").Bool?
  }

  /** The hint after a scenario's name in the list. */
  function UseHint(previous: Option<Path>, file: Path): (hint: string)
    ensures hint == "INSTALLED" <==> previous == Some(file)
    ensures previous != Some(file) ==> hint == "use: --scenario " + BasenameWithout(file, ".yaml")
  {
    if previous == Some(file) then "INSTALLED"
    else
      var h := "use: --scenario " + BasenameWithout(file, ".yaml");
      assert h[0] != "INSTALLED"[0];
      h
  }

  /** The lines printed for one scenario. */
  function ScenarioLines(previous: Option<Path>, s: Scenario): seq<string>
  {
    var description := Field(s.content, "description");
    ["  " + Field(s.content, "name").ToS() + " ", "(" + UseHint(previous, s.file) + ")"]
      + (if description.Str? && description.s != "" then ["        " + description.s] else [])
  }

  function AllScenarioLines(previous: Option<Path>, available: seq<Scenario>): seq<string>
    decreases |available|
  {
    if available == [] then []
    else AllScenarioLines(previous, available[..|available| - 1]) + ScenarioLines(previous, available[|available| - 1])
  }

  lemma {:induction false} AllScenarioLinesHaveHints(previous: Option<Path>, available: seq<Scenario>)
    ensures forall s :: s in available ==> "(" + UseHint(previous, s.file) + ")" in AllScenarioLines(previous, available)
    decreases |available|
  {
    if available != [] {
      var init := available[..|available| - 1];
      assert available == init + [available[|available| - 1]];
      AllScenarioLinesHaveHints(previous, init);
      assert ScenarioLines(previous, available[|available| - 1])[1] ==
        "(" + UseHint(previous, available[|available| - 1].file) + ")";
    }
  }

  /** `list_available_scenarios`: the lines it says, then exit 0. */
  function ListAvailableScenarios(configDir: Path, previous: Option<Path>, available: seq<Scenario>): (r: (seq<string>, ExitCode))
    requires PrintableDescriptions(available)
    ensures r.1 == Status(0)
    ensures |r.0| > 0 && r.0[0] == "Available scenarios"
    ensures available == [] ==> r.0 == ["Available scenarios", "  No available scenarios found in " + configDir]
    ensures forall s :: s in available ==> "(" + UseHint(previous, s.file) + ")" in r.0
  {
    AllScenarioLinesHaveHints(previous, available);
    var lines := ["Available scenarios"] + AllScenarioLines(previous, available)
      + (if available == [] then ["  No available scenarios found in " + configDir] else []);
    assert forall l :: l in AllScenarioLines(previous, available) ==> l in lines;
    (lines, Status(0))
  }

  /**
   * The hint the list prints for a scenario of the configuration directory, typed back on
   * the command line, selects that scenario.
   */
  lemma ListedHintSelectsScenario(fs: FileMap, configDir: Path, previous: Option<Path>, stem: string, rest: seq<string>)
    requires configDir != "" && (configDir == "/" || configDir[|configDir| - 1] != '/')
    requires stem != [] && '/' !in stem && forall c :: c in stem ==> !IsSpace(c)
    requires Exists(fs, Join(configDir, stem + ".yaml"))
    requires previous != Some(Join(configDir, stem + ".yaml"))
    ensures UseHint(previous, Join(configDir, stem + ".yaml")) == "use: --scenario " + stem
    ensures ScenarioFromArgs(fs, configDir, ["--scenario", stem] + rest) == Continue(Some(Join(configDir, stem + ".yaml")))
  {
    StemOfScenarioFile(configDir, stem);
    ScenarioFlagForms(stem, rest);
  }

  /** `-S /name` selects `config_dir/name.yaml`: File.join does not double the slash. */
  lemma LeadingSlashNameSelectsScenario(fs: FileMap, configDir: Path, stem: string, rest: seq<string>)
    requires configDir == [] || configDir[|configDir| - 1] != '/'
    requires stem != [] && stem[0] != '/' && forall c :: c in stem ==> !IsSpace(c)
    requires Exists(fs, configDir + "/" + stem + ".yaml")
    ensures ScenarioFromArgs(fs, configDir, ["-S", "/" + stem] + rest) == Continue(Some(configDir + "/" + stem + ".yaml"))
  {
    var name := "/" + stem;
    assert forall c :: c in name ==> c == '/' || c in stem;
    ScenarioFlagForms(name, rest);
    assert MatchScenarioArg(JoinWith(["-S", name] + rest, " ")) == Some(name);
    var base := stem + ".yaml";
    assert name + ".yaml" == "/" + base;
    JoinMeetsAtOneSlash(configDir, 0, base);
    assert configDir + Slashes(0) == configDir;
    assert Join(configDir, name + ".yaml") == configDir + "/" + base;
    assert configDir + "/" + base == configDir + "/" + stem + ".yaml";
  }

  // ---------------------------------------------------------------------------------
  // Selecting the scenario
  // ---------------------------------------------------------------------------------

  /** `(ARGV & ['--interactive', '-i']).any?` */
  predicate Interactive(argv: seq<string>) {
    "--interactive" in argv || "-i" in argv
  }

  /**
   * `select_scenario`: the command line, then the previous scenario, then the only
   * available one, then the wizard (interactive runs only); nothing selected exits
   * with `:unknown_scenario`. `answer` is what the wizard answers if it is run.
   */
  function SelectScenario(fs: FileMap, configDir: Path, previous: Option<Path>, available: seq<Scenario>,
                          argv: seq<string>, answer: WizardAnswer): Outcome<Path>
  {
    match ScenarioFromArgs(fs, configDir, argv)
    case Exit(code) => Exit(code)
    case Continue(Some(file)) => Continue(file)
    case Continue(None) =>
      if previous.Some? then Continue(previous.value)
      else if |available| == 1 then Continue(available[0].file)
      else if Interactive(argv) then
        match answer
        case Selected(file) => Continue(file)
        case Cancelled => Exit(Status(0))
      else Exit(UnknownScenario)
  }

  /** Each source of a scenario is consulted only when the earlier ones gave none. */
  lemma SelectionPriority(fs: FileMap, configDir: Path, previous: Option<Path>, available: seq<Scenario>,
                          argv: seq<string>, answer: WizardAnswer)
    ensures var r := SelectScenario(fs, configDir, previous, available, argv, answer);
      && (MatchScenarioArg(JoinWith(argv, " ")).Some? ==>
            var file := Join(configDir, MatchScenarioArg(JoinWith(argv, " ")).value + ".yaml");
            r == if Exists(fs, file) then Continue(file) else Exit(UnknownScenario))
      && (MatchScenarioArg(JoinWith(argv, " ")).None? && previous.Some? ==> r == Continue(previous.value))
      && (MatchScenarioArg(JoinWith(argv, " ")).None? && previous.None? && |available| == 1 ==> r == Continue(available[0].file))
      && (MatchScenarioArg(JoinWith(argv, " ")).None? && previous.None? && |available| != 1 && Interactive(argv) ==>
            r == if answer == Cancelled then Exit(Status(0)) else Continue(answer.file))
  {
  }

  /**
   * A run stops with `:unknown_scenario` exactly when the command line names a missing
   * file, or nothing names a scenario and the run is not interactive.
   */
  lemma UnknownScenarioRule(fs: FileMap, configDir: Path, previous: Option<Path>, available: seq<Scenario>,
                            argv: seq<string>, answer: WizardAnswer)
    ensures SelectScenario(fs, configDir, previous, available, argv, answer) == Exit(UnknownScenario) <==>
      match MatchScenarioArg(JoinWith(argv, " "))
      case Some(name) => !Exists(fs, Join(configDir, name + ".yaml"))
      case None => previous.None? && |available| != 1 && !Interactive(argv)
  {
  }

  /**
   * The selected scenario is a file the command line named and that exists, the previous
   * scenario, or an available one, when the wizard's answer is one of its buttons.
   */
  lemma SelectedScenarioIsKnown(fs: FileMap, configDir: Path, previous: Option<Path>, available: seq<Scenario>,
                                argv: seq<string>, b: Button)
    requires b in SelectionWizardEntries(available)
    ensures var r := SelectScenario(fs, configDir, previous, available, argv, b.answer);
      r.Continue? ==>
        || (&& MatchScenarioArg(JoinWith(argv, " ")).Some?
            && r.value == Join(configDir, MatchScenarioArg(JoinWith(argv, " ")).value + ".yaml")
            && Exists(fs, r.value))
        || Some(r.value) == previous
        || r.value in ScenarioFiles(available)
  {
    WizardAnswersAreAvailable(available, b);
    if |available| == 1 {
      assert ScenarioFiles(available)[0] == available[0].file;
    }
  }

  // ---------------------------------------------------------------------------------
  // The change gate
  // ---------------------------------------------------------------------------------

  /** What the confirmation wizard answers. */
  datatype ConfirmAnswer = Proceed | CancelInstallation

  /** How the gate ends, whether the scenario diff was shown, and whether confirmation was asked. */
  datatype Gate = Gate(outcome: Outcome<()>, diffShown: bool, confirmationAsked: bool)

  /** `confirm_scenario_change`: `--force`, an interactive confirmation, or `:scenario_error`. */
  function ConfirmScenarioChange(argv: seq<string>, answer: ConfirmAnswer): (g: Gate)
    ensures g.outcome.Continue? <==> "--force" in argv || (Interactive(argv) && answer == Proceed)
    ensures g.confirmationAsked <==> "--force" !in argv && Interactive(argv)
  {
    if "--force" in argv then Gate(Continue(()), false, false)
    else if Interactive(argv) then
      Gate(if answer == Proceed then Continue(()) else Exit(Status(0)), true, true)
    else Gate(Exit(ScenarioError), false, false)
  }

  /** `check_scenario_change`: only a changed scenario is compared or confirmed. */
  function CheckScenarioChange(fs: FileMap, previous: Option<Path>, scenario: Path, argv: seq<string>,
                               answer: ConfirmAnswer): Gate
    requires IsSymlink(fs, scenario) ==> Exists(fs, scenario)
  {
    if !ScenarioChanged(fs, previous, scenario) then Gate(Continue(()), false, false)
    else if "--compare-scenarios" in argv then Gate(Exit(Status(0)), true, false)
    else ConfirmScenarioChange(argv, answer)
  }

  /** An unchanged scenario passes untouched; a changed one goes on only with `--force` or a confirmation. */
  lemma ChangeNeedsConsent(fs: FileMap, previous: Option<Path>, scenario: Path, argv: seq<string>, answer: ConfirmAnswer)
    requires IsSymlink(fs, scenario) ==> Exists(fs, scenario)
    ensures !ScenarioChanged(fs, previous, scenario) ==>
      CheckScenarioChange(fs, previous, scenario, argv, answer) == Gate(Continue(()), false, false)
    ensures ScenarioChanged(fs, previous, scenario) && CheckScenarioChange(fs, previous, scenario, argv, answer).outcome.Continue? ==>
      "--compare-scenarios" !in argv && ("--force" in argv || (Interactive(argv) && answer == Proceed))
    ensures previous.None? ==> CheckScenarioChange(fs, previous, scenario, argv, answer).outcome.Continue?
  {
  }

  /** How a changed scenario's run ends, option by option. */
  lemma ChangeGateOutcomes(fs: FileMap, previous: Option<Path>, scenario: Path, argv: seq<string>, answer: ConfirmAnswer)
    requires IsSymlink(fs, scenario) ==> Exists(fs, scenario)
    requires ScenarioChanged(fs, previous, scenario)
    ensures var g := CheckScenarioChange(fs, previous, scenario, argv, answer);
      && ("--compare-scenarios" in argv ==> g == Gate(Exit(Status(0)), true, false))
      && ("--compare-scenarios" !in argv && "--force" in argv ==> g == Gate(Continue(()), false, false))
      && ("--compare-scenarios" !in argv && "--force" !in argv && Interactive(argv) ==>
            g.diffShown && g.confirmationAsked && (g.outcome.Exit? ==> g.outcome == Exit(Status(0))))
      && (g.outcome == Exit(ScenarioError) <==>
            "--compare-scenarios" !in argv && "--force" !in argv && !Interactive(argv))
  {
  }

  // ---------------------------------------------------------------------------------
  // The module overview of print_scenario_diff
  // ---------------------------------------------------------------------------------

  /** A module of a configuration and whether it is enabled. */
  datatype ModuleState = ModuleState(name: string, enabled: bool)

  /** A line of the overview: a module and its status before and after (None: absent). */
  datatype OverviewRow = OverviewRow(name: string, previous: Option<bool>, next: Option<bool>) {
    /** Shown in the `:important` colour: enabled before, disabled or absent after. */
    predicate Highlighted() {
      previous == Some(true) && (next == Some(false) || next.None?)
    }
  }

  /** `printables`: an absent status reads N/A. */
  function StatusLabel(status: Option<bool>): (shown: string)
    ensures shown == "N/A" <==> status.None?
    ensures shown == "ENABLED" <==> status == Some(true)
    ensures shown == "DISABLED" <==> status == Some(false)
  {
    match status
    case None => "N/A"
    case Some(true) => "ENABLED"
    case Some(false) => "DISABLED"
  }

  function Names(modules: seq<ModuleState>): (names: seq<string>)
    ensures |names| == |modules|
    ensures forall i :: 0 <= i < |modules| ==> names[i] == modules[i].name
    decreases |modules|
  {
    if modules == [] then []
    else Names(modules[..|modules| - 1]) + [modules[|modules| - 1].name]
  }

  /** The keys of the overview hash, in the order they were first inserted. */
  function Dedup(names: seq<string>): seq<string>
    decreases |names|
  {
    if names == [] then []
    else
      var init := Dedup(names[..|names| - 1]);
      var last := names[|names| - 1];
      if last in init then init else init + [last]
  }

  /** What the fold leaves under `:prev` (or `:new`): the last status given for each name. */
  function StatusMap(modules: seq<ModuleState>): map<string, bool>
    decreases |modules|
  {
    if modules == [] then map[]
    else
      var last := modules[|modules| - 1];
      StatusMap(modules[..|modules| - 1])[last.name := last.enabled]
  }

  function Lookup(m: map<string, bool>, name: string): Option<bool> {
    if name in m then Some(m[name]) else None
  }

  function RowsFor(names: seq<string>, previous: map<string, bool>, next: map<string, bool>): (rows: seq<OverviewRow>)
    ensures |rows| == |names|
    ensures forall i :: 0 <= i < |names| ==> rows[i] == OverviewRow(names[i], Lookup(previous, names[i]), Lookup(next, names[i]))
    decreases |names|
  {
    if names == [] then []
    else
      var last := names[|names| - 1];
      RowsFor(names[..|names| - 1], previous, next) + [OverviewRow(last, Lookup(previous, last), Lookup(next, last))]
  }

  /** The overview of two configurations' modules. */
  function Overview(previous: seq<ModuleState>, next: seq<ModuleState>): seq<OverviewRow> {
    RowsFor(Dedup(Names(previous) + Names(next)), StatusMap(previous), StatusMap(next))
  }

  /** One more module folded in: its name joins the names and its status the map. */
  lemma ModulesStep(modules: seq<ModuleState>, i: nat)
    requires i < |modules|
    ensures Names(modules[..i + 1]) == Names(modules[..i]) + [modules[i].name]
    ensures StatusMap(modules[..i + 1]) == StatusMap(modules[..i])[modules[i].name := modules[i].enabled]
  {
    assert modules[..i + 1][..i] == modules[..i];
  }

  /** Adding one name to the insertion-ordered keys. */
  lemma DedupStep(names: seq<string>, name: string)
    ensures Dedup(names + [name]) == if name in Dedup(names) then Dedup(names) else Dedup(names) + [name]
  {
    assert (names + [name])[..|names|] == names;
  }

  /**
   * One fold of print_scenario_diff over a configuration's modules: a name not yet among
   * the keys `names` (those of `seen`) is appended, and the module's status is recorded.
   */
  method AddModules(ghost seen: seq<string>, names: seq<string>, modules: seq<ModuleState>)
    returns (keys: seq<string>, status: map<string, bool>)
    requires names == Dedup(seen)
    ensures keys == Dedup(seen + Names(modules))
    ensures status == StatusMap(modules)
  {
    keys, status := names, map[];
    var i := 0;
    assert seen + Names(modules[..0]) == seen;
    while i < |modules|
      invariant 0 <= i <= |modules|
      invariant keys == Dedup(seen + Names(modules[..i]))
      invariant status == StatusMap(modules[..i])
    {
      var m := modules[i];
      ghost var before := seen + Names(modules[..i]);
      ModulesStep(modules, i);
      assert seen + Names(modules[..i + 1]) == before + [m.name];
      DedupStep(before, m.name);
      if m.name !in keys {
        keys := keys + [m.name];
      }
      status := status[m.name := m.enabled];
      i := i + 1;
    }
    assert modules[..i] == modules;
  }

  /** The printed rows: one per key, in key order, with both statuses looked up. */
  method OverviewRows(names: seq<string>, previous: map<string, bool>, next: map<string, bool>)
    returns (rows: seq<OverviewRow>)
    ensures rows == RowsFor(names, previous, next)
  {
    rows := [];
    var k := 0;
    while k < |names|
      invariant 0 <= k <= |names|
      invariant rows == RowsFor(names[..k], previous, next)
    {
      assert names[..k + 1][..k] == names[..k];
      rows := rows + [OverviewRow(names[k], Lookup(previous, names[k]), Lookup(next, names[k]))];
      k := k + 1;
    }
    assert names[..k] == names;
  }

  /**
   * The `modules` hash of print_scenario_diff built as the source builds it: the previous
   * configuration's modules, then the new one's, then one row per module.
   */
  method ModuleOverview(previous: seq<ModuleState>, next: seq<ModuleState>) returns (rows: seq<OverviewRow>)
    ensures rows == Overview(previous, next)
  {
    assert [] + Names(previous) == Names(previous);
    var names, previousStatus := AddModules([], [], previous);
    var nextStatus;
    names, nextStatus := AddModules(Names(previous), names, next);
    rows := OverviewRows(names, previousStatus, nextStatus);
  }

  /** The keys are exactly the module names, each listed once. */
  lemma {:induction false} DedupListsEachNameOnce(names: seq<string>)
    ensures forall n :: n in Dedup(names) <==> n in names
    ensures forall i, j :: 0 <= i < j < |Dedup(names)| ==> Dedup(names)[i] != Dedup(names)[j]
    decreases |names|
  {
    if names != [] {
      var init := names[..|names| - 1];
      assert names == init + [names[|names| - 1]];
      DedupListsEachNameOnce(init);
    }
  }

  /** The module was last listed as enabled. */
  predicate EnabledIn(modules: seq<ModuleState>, name: string) {
    exists k :: 0 <= k < |modules| && modules[k].name == name && modules[k].enabled
      && forall k' :: k < k' < |modules| ==> modules[k'].name != name
  }

  /** A later module with another name leaves whether a name was last enabled as it was. */
  lemma EnabledInOther(init: seq<ModuleState>, last: ModuleState, name: string)
    requires last.name != name
    ensures EnabledIn(init + [last], name) <==> EnabledIn(init, name)
  {
    var modules := init + [last];
    if EnabledIn(init, name) {
      var k :| 0 <= k < |init| && init[k].name == name && init[k].enabled
        && forall k' :: k < k' < |init| ==> init[k'].name != name;
      assert modules[k] == init[k];
      assert forall k' :: k < k' < |modules| ==> modules[k'].name != name;
    }
    if EnabledIn(modules, name) {
      var k :| 0 <= k < |modules| && modules[k].name == name && modules[k].enabled
        && forall k' :: k < k' < |modules| ==> modules[k'].name != name;
      assert k < |init| && init[k] == modules[k];
      assert forall k' :: k < k' < |init| ==> init[k'] == modules[k'];
    }
  }

  /** The status the fold keeps for a name is the one it was last given. */
  lemma {:induction false} StatusMapIsLast(modules: seq<ModuleState>, name: string)
    ensures name in StatusMap(modules) <==> name in Names(modules)
    ensures Lookup(StatusMap(modules), name) == Some(true) <==> EnabledIn(modules, name)
    decreases |modules|
  {
    if modules != [] {
      var init := modules[..|modules| - 1];
      var last := modules[|modules| - 1];
      assert modules == init + [last];
      assert Names(modules) == Names(init) + [last.name];
      StatusMapIsLast(init, name);
      if last.name == name {
        if last.enabled {
          assert EnabledIn(modules, name) by {
            assert modules[|modules| - 1].name == name && modules[|modules| - 1].enabled;
          }
        }
      } else {
        EnabledInOther(init, last, name);
      }
    }
  }

  /** Every module of either configuration has exactly one row. */
  lemma OverviewCoversModules(previous: seq<ModuleState>, next: seq<ModuleState>)
    ensures forall n :: ((exists i :: 0 <= i < |Overview(previous, next)| && Overview(previous, next)[i].name == n)
      <==> n in Names(previous) || n in Names(next))
    ensures forall i, j :: 0 <= i < j < |Overview(previous, next)| ==> Overview(previous, next)[i].name != Overview(previous, next)[j].name
  {
    var names := Dedup(Names(previous) + Names(next));
    DedupListsEachNameOnce(Names(previous) + Names(next));
    var rows := Overview(previous, next);
    forall n ensures (exists i :: 0 <= i < |rows| && rows[i].name == n) <==> n in Names(previous) || n in Names(next) {
      if n in Names(previous) + Names(next) {
        var i :| 0 <= i < |names| && names[i] == n;
        assert rows[i].name == n;
      }
    }
  }

  /** Disabled or absent is exactly not enabled. */
  lemma DisabledOrAbsent(status: Option<bool>)
    ensures (status == Some(false) || status.None?) <==> status != Some(true)
  {
    match status
    case None =>
    case Some(b) => assert b || status == Some(false);
  }

  /**
   * A module is highlighted exactly when the previous configuration last listed it as
   * enabled and the new one lists it disabled or not at all; the statuses are the ones
   * last given.
   */
  lemma HighlightRule(previous: seq<ModuleState>, next: seq<ModuleState>, i: int)
    requires 0 <= i < |Overview(previous, next)|
    ensures var row := Overview(previous, next)[i];
      && (row.Highlighted() <==> EnabledIn(previous, row.name) && !EnabledIn(next, row.name))
      && (row.previous.None? <==> row.name !in Names(previous))
      && (row.next.None? <==> row.name !in Names(next))
  {
    var names := Dedup(Names(previous) + Names(next));
    var row := Overview(previous, next)[i];
    assert row == OverviewRow(names[i], Lookup(StatusMap(previous), names[i]), Lookup(StatusMap(next), names[i]));
    StatusMapIsLast(previous, row.name);
    StatusMapIsLast(next, row.name);
    assert (row.previous == Some(true)) == EnabledIn(previous, row.name);
    assert (row.next == Some(true)) == EnabledIn(next, row.name);
    DisabledOrAbsent(row.next);
  }

  /** Comparing a configuration with itself highlights nothing. */
  lemma SameModulesNothingHighlighted(modules: seq<ModuleState>)
    ensures forall i :: 0 <= i < |Overview(modules, modules)| ==> !Overview(modules, modules)[i].Highlighted()
  {
    forall i | 0 <= i < |Overview(modules, modules)| ensures !Overview(modules, modules)[i].Highlighted() {
      HighlightRule(modules, modules, i);
    }
  }

  // ---------------------------------------------------------------------------------
  // The last-scenario link
  // ---------------------------------------------------------------------------------

  /** What linking does to the file system, or the error it raises. */
  datatype LinkResult = Linked(entries: FileMap) | Failed(errno: string)

  /**
   * `link_last_scenario` as written: File.exist? follows the link, so a link whose target
   * is gone is not deleted, and File.symlink then finds the name taken.
   */
  function LinkAsWritten(fs: FileMap, link: Path, target: Path): LinkResult {
    if link in fs && fs[link].Directory? then Failed("EISDIR")
    else if Exists(fs, link) then Linked((fs - {link})[link := Symlink(target)])
    else if link in fs then Failed("EEXIST")
    else Linked(fs[link := Symlink(target)])
  }

  /** Relinking as intended: whatever sits at the link's name (a directory aside) is replaced. */
  function Relink(fs: FileMap, link: Path, target: Path): (r: LinkResult)
    ensures r.Failed? <==> link in fs && fs[link].Directory?
    ensures r.Linked? ==> r.entries == fs[link := Symlink(target)]
  {
    if link in fs && fs[link].Directory? then Failed("EISDIR")
    else Linked((fs - {link})[link := Symlink(target)])
  }

  /** A concrete run: the last scenario's file was removed, and relinking then fails. */
  lemma DanglingLinkCounterexample()
    ensures var dir := "/etc/foreman-installer/scenarios.d";
      var fs := map[dir := Directory,
                    dir + "/last_scenario.yaml" := Symlink(dir + "/old.yaml"),
                    dir + "/new.yaml" := Regular(Hash(map[Sym("answer_file") := Str("/etc/answers.yaml")]))];
      && LinkAsWritten(fs, dir + "/last_scenario.yaml", dir + "/new.yaml") == Failed("EEXIST")
      && Relink(fs, dir + "/last_scenario.yaml", dir + "/new.yaml").Linked?
  {
    var dir := "/etc/foreman-installer/scenarios.d";
    var link := dir + "/last_scenario.yaml";
    var gone := dir + "/old.yaml";
    assert gone != dir && gone != link && gone != dir + "/new.yaml" by {
      assert gone[|dir| + 1] == 'o' && link[|dir| + 1] == 'l' && (dir + "/new.yaml")[|dir| + 1] == 'n';
    }
    assert link != dir && link != dir + "/new.yaml" by {
      assert link[|dir| + 1] == 'l' && (dir + "/new.yaml")[|dir| + 1] == 'n';
    }
  }

  /** The code as written differs from the intended relinking exactly on a dangling link. */
  lemma LinkAsWrittenFailsOnlyOnDanglingLink(fs: FileMap, link: Path, target: Path)
    ensures LinkAsWritten(fs, link, target) != Relink(fs, link, target) <==>
      link in fs && fs[link].Symlink? && !Exists(fs, link)
    ensures LinkAsWritten(fs, link, target) != Relink(fs, link, target) ==> LinkAsWritten(fs, link, target) == Failed("EEXIST")
  {
    if link !in fs {
      assert fs - {link} == fs;
    }
  }

  /**
   * After the link is pointed at a scenario file, the next run's previous scenario is that
   * file and selecting it again is no change.
   */
  lemma RelinkedScenarioIsUnchanged(fs: FileMap, link: Path, file: Path)
    requires file != link && file in fs && fs[file].Regular?
    requires Relink(fs, link, file).Linked?
    ensures PreviousScenarioOf(Relink(fs, link, file).entries, link) == Some(file)
    ensures !ScenarioChanged(Relink(fs, link, file).entries, Some(file), file)
    ensures !ScenarioChanged(Relink(fs, link, file).entries, Some(file), link)
  {
  }

  // ---------------------------------------------------------------------------------
  // The manager
  // ---------------------------------------------------------------------------------

  class ScenarioManager {
    const configDir: Path
    const lastScenarioLink: Path
    const previousScenario: Option<Path>
    /** `@available_scenarios`, filled on first use. */
    var availableCache: Option<seq<Scenario>>

    /** `initialize`: the configuration directory, the link next to it, and where it points. */
    constructor (fs: FileMap, config: Path, linkName: string := DefaultLinkName)
      ensures configDir == ConfigDirOf(fs, config)
      ensures lastScenarioLink == Join(configDir, linkName)
      ensures previousScenario == PreviousScenarioOf(fs, lastScenarioLink)
      ensures availableCache == None
    {
      configDir := ConfigDirOf(fs, config);
      lastScenarioLink := Join(ConfigDirOf(fs, config), linkName);
      previousScenario := PreviousScenarioOf(fs, Join(ConfigDirOf(fs, config), linkName));
      availableCache := None;
    }

    /**
     * `available_scenarios`: on first use, fold the listed files into the scenarios (with
     * the warnings printed on the way) and keep them; afterwards, the kept scenarios.
     */
    method AvailableScenarios(fs: FileMap, listing: seq<Path>) returns (scenarios: seq<Scenario>, warnings: seq<string>)
      requires availableCache.None? ==> ListingLoadable(fs, lastScenarioLink, listing)
      modifies this`availableCache
      ensures old(availableCache).Some? ==>
        scenarios == old(availableCache).value && warnings == [] && availableCache == old(availableCache)
      ensures old(availableCache).None? ==>
        Discovery(scenarios, warnings) == Discover(fs, lastScenarioLink, listing) && availableCache == Some(scenarios)
    {
      if availableCache.Some? {
        return availableCache.value, [];
      }
      scenarios, warnings := FoldScenarioFiles(fs, lastScenarioLink, listing);
      availableCache := Some(scenarios);
    }

    /** `link_last_scenario`, as intended: remove whatever holds the link's name, then link. */
    method LinkLastScenario(fs: FileSystem, configFile: Path) returns (failure: Option<string>)
      modifies fs
      ensures Relink(old(fs.entries), lastScenarioLink, configFile) ==
        if failure.None? then Linked(fs.entries) else Failed(failure.value)
      ensures failure.Some? ==> fs.entries == old(fs.entries)
    {
      if lastScenarioLink in fs.entries && fs.entries[lastScenarioLink].Directory? {
        return Some("EISDIR");
      }
      if lastScenarioLink in fs.entries {
        fs.entries := fs.entries - {lastScenarioLink};
      }
      fs.entries := fs.entries[lastScenarioLink := Symlink(configFile)];
      failure := None;
    }
  }
}
