# kafo installer core in Dafny

This project models two parts of the run logic of kafo, the Puppet-based installer framework:

- **`KafoConfigure`** (`lib/kafo/kafo_configure.rb`):
  - how each line the provisioning tool prints is classified (`puppet_parse`);
  - how a classified line is logged and shown on the progress bar (`progress_log` and the read loop of `run_installation`);
  - the options passed to the provisioning tool, and the exit code of a run;
  - the removal of the temporary answer file;
  - the pre-filter of the installer's own arguments (`clamp_app_arguments` and its helpers);
  - the stored-answers map (`store_params`) and the tri-state colour setting (`use_colors?`).
- **`ScenarioManager`** (`lib/kafo/scenario_manager.rb`):
  - where the configuration directory and the last-scenario link are;
  - scenario discovery over a directory listing;
  - parsing of `-S`/`--scenario`;
  - the scenario selection chain and the selection wizard's buttons;
  - the listing of available scenarios;
  - change detection and the change gate (compare, force, confirm, refuse);
  - the module overview of a scenario change, with its highlight rule;
  - re-pointing the last-scenario link.

The project has five files:

- `outcomes.dfy`: `Option`, the installer's exit codes, and an `Outcome` that either continues with a value or exits with a code. An exit is a returned value, not a control-flow effect.
- `text.dfy`: the string operations the code relies on:
  - prefix tests (case-insensitive for ASCII letters);
  - Ruby's `chomp`;
  - first-occurrence search and `sub`;
  - `join`.
- `files.dfy`: the file system as a map from paths to entries.
  - An entry is a regular file (the result of loading it as YAML), a directory or a symlink.
  - Also here: `File.exist?` and `File.file?` (which follow one symlink), `File.symlink?` (which looks at the path itself), `realpath`, and `File.join`/`dirname`/`basename`.
- `kafo_configure.dfy`: module `Configure`, with the classes `KafoConfigure` and `ProgressBar`.
- `scenario_manager.dfy`: module `Scenarios`, with the class `ScenarioManager`.

The environment is turned into inputs:

- `ARGV` is a sequence of strings.
- `Dir.glob` is a listing of paths.
- The wizards' answers are parameters.
- The provisioning tool's output is a sequence of lines.
- How the child's end was observed is a `ChildObservation`.

Where the code keeps state and changes it step by step, the model is imperative:

- the progress bar and the log;
- the allowed-arguments list that `clamp_app_arguments` flattens in place, and its `select` loop with `last_was_accepted`;
- the scenario cache;
- the file system the link is written to;
- the two `inject` folds of `print_scenario_diff`.

Each of those methods is proved against a function that specifies it. The properties are then proved about that function.

Two consequences of how `puppet_parse` is written:

- The capture starts right after the colon, so the space that follows it stays in the message: `"Error: disk full\n"` gives `" disk full"`.
- `Notice:` lines go to the same branch as `Warning:` lines and are logged as warnings.

## Model

| member | source | states |
|---|---|---|
| `Configure.PuppetParse` | lib/kafo/kafo_configure.rb:405-420 | Defined as the if/elsif chain: the first prefix of Error, Err, Warning, Notice, Info, Debug whose line-start pattern matches gives the severity and the chomped capture; otherwise info with the chomped line. Its properties are the lemmas below. |
| `Configure.ErrorRule` | lib/kafo/kafo_configure.rb:405-408 | A line is an error iff it starts, ignoring case, with `Error:` or `Err:`. The message is the chomped rest after that prefix. |
| `Configure.WarnAndDebugRules` | lib/kafo/kafo_configure.rb:409-414 | `Warning:`/`Notice:` give a warning and `Debug:` gives debug. Each holds only when no earlier prefix of the ordered list matches. |
| `Configure.UnmatchedAndChompRules` | lib/kafo/kafo_configure.rb:415-419 | A line with no known prefix is info with the whole line chomped. No message ever ends with the line's newline. |
| `Configure.ErrorPrefixesExclusive` | lib/kafo/kafo_configure.rb:407 | No line starts with both `Error:` and `Err:`, so the order of the two alternatives does not matter. |
| `Configure.PuppetParseFollowsTable` | lib/kafo/kafo_configure.rb:405-420 | For one line of output, the regex classifier (`^` matches at any line start) equals the first-match prefix table Error, Err, Warning, Notice, Info, Debug. |
| `Configure.MatchLineStart` | lib/kafo/kafo_configure.rb:407-413 | Defined as one `line =~ /^prefix(.*)/i`: the first line start at which the line continues with the prefix (ignoring case) gives the capture up to the next newline; no such line start gives no match. |
| `Configure.MatchFirst` | lib/kafo/kafo_configure.rb:406-414 | Defined as the `case` of tests: the patterns are tried in table order and the first that matches gives its severity and its capture. |
| `Configure.MatchFirstOnSingleLine` | lib/kafo/kafo_configure.rb:406-417 | On a single line, the first branch whose anchored pattern matches is the first prefix of the table the line starts with. |
| `Configure.ChompUpToNewline` | lib/kafo/kafo_configure.rb:419 | Chomping what the pattern captures (up to the newline) gives the same message as chomping the rest of the line. |
| `Configure.ErrorExample` | lib/kafo/kafo_configure.rb:405-420 | `"Error: disk full\n"` is an error with message `" disk full"`. |
| `Configure.NoticeExample` | lib/kafo/kafo_configure.rb:405-420 | `"notice: applying\r\n"` is a warning with message `" applying"`. The match ignores case and chomp drops `\r\n`. |
| `Configure.PlainTextExample` | lib/kafo/kafo_configure.rb:405-420 | `"just text\n"` is info with message `"just text"`. |
| `Configure.Classify` | lib/kafo/kafo_configure.rb:374-375 | One log entry per output line, in order. Each is that line's classification. |
| `Configure.KafoConfigure.ProgressLog` | lib/kafo/kafo_configure.rb:400-403 | The message is always logged at its severity. The bar gets `message + "\n"` exactly when the severity is error and a bar exists. Nothing else on the bar changes. |
| `Configure.KafoConfigure.ForwardLine` | lib/kafo/kafo_configure.rb:374-377 | A classified line is logged, its error report goes to the bar, and the raw line is the bar's next update. |
| `Configure.KafoConfigure.ForwardLines` | lib/kafo/kafo_configure.rb:374-377 | After the loop, the log has grown by the entries in order. The bar's errors have grown by the entries' error reports, and its updates by the raw lines. |
| `Configure.KafoConfigure.ForwardOutput` | lib/kafo/kafo_configure.rb:374-377 | The read loop logs the classification of every line, in order, and updates the bar with every raw line. |
| `Configure.Report` | lib/kafo/kafo_configure.rb:401 | Defined as what one logged entry sends to the bar: `message + "\n"` for an error, nothing otherwise. |
| `Configure.ErrorReports` | lib/kafo/kafo_configure.rb:401 | Defined as the reports of a sequence of entries, concatenated in order. |
| `Configure.ErrorReportsAreTheErrors` | lib/kafo/kafo_configure.rb:401 | The bar receives exactly the error messages, each with a newline: every error is reported, and every report comes from an error. |
| `Configure.IsYesNoFlag` | lib/kafo/kafo_configure.rb:304-306 | Defined as: `[no-]` occurs in the switch. |
| `Configure.BuildYesNoVariants` | lib/kafo/kafo_configure.rb:308-310 | Defined as the two `sub`s of the first `[no-]`: by the empty string and by `no-`. |
| `Configure.YesNoVariantsOfLongSwitch` | lib/kafo/kafo_configure.rb:304-310 | `--[no-]x` is a yes/no switch and expands to `["--x", "--no-x"]`. |
| `Configure.ExpandSwitch` | lib/kafo/kafo_configure.rb:296 | Defined as the block of the inner `map`: the two variants of a `[no-]` switch, otherwise the switch itself. |
| `Configure.AllowedSwitches` | lib/kafo/kafo_configure.rb:295-298 | Defined as the flattened list: the expanded switches of each app option, option after option. |
| `Configure.ExpandSwitchesMembership` | lib/kafo/kafo_configure.rb:296 | A switch is in one option's expansion iff one of its switches contributes it. |
| `Configure.AllowedSwitchesMembership` | lib/kafo/kafo_configure.rb:295-298 | The flattened allowed list holds exactly the expansions of the switches of all app options. Switches without `[no-]` are kept unchanged. |
| `Configure.KafoConfigure.FlattenAllowedSwitches` | lib/kafo/kafo_configure.rb:295-298 | The nested map followed by `flatten!` builds the allowed list, in option and switch order. |
| `Configure.LeadingToken` | lib/kafo/kafo_configure.rb:313 | The token is a prefix of the argument made of `[a-zA-Z0-9_-]` characters only, and the character after it (if any) is not one of them. |
| `Configure.LeadingTokenOfWord` | lib/kafo/kafo_configure.rb:313 | The first group of the pattern is the longest leading run of `[a-zA-Z0-9_-]`. |
| `Configure.IsAllowedAttributeName` | lib/kafo/kafo_configure.rb:312-314 | Defined as: the leading `[a-zA-Z0-9_-]` token of the argument is in the allowed list. |
| `Configure.IsValue` | lib/kafo/kafo_configure.rb:316-318 | Defined as: the argument does not start with `-`. |
| `Configure.SwitchWithInlineValue` | lib/kafo/kafo_configure.rb:312-314 | `--log-level=debug` is an allowed attribute name iff `--log-level` is allowed. |
| `Configure.AcceptMask` | lib/kafo/kafo_configure.rb:300-301 | One entry per argument: the value `last_was_accepted` takes at that argument. |
| `Configure.AcceptMaskRule` | lib/kafo/kafo_configure.rb:300-318 | An argument is accepted iff it is allowed, or it does not start with `-` and directly follows an accepted argument. |
| `Configure.SelectMasked` | lib/kafo/kafo_configure.rb:301 | Defined as `select` with a precomputed verdict per argument: the arguments whose verdict is true, in their order. |
| `Configure.SelectMaskedMembership` | lib/kafo/kafo_configure.rb:301 | `select` keeps exactly the accepted arguments. |
| `Configure.AllAllowedAllKept` | lib/kafo/kafo_configure.rb:300-301 | When every argument is allowed, the filter returns the arguments unchanged, in order. |
| `Configure.KafoConfigure.ClampAppArguments` | lib/kafo/kafo_configure.rb:294-302 | The allowed list is stored, and the kept arguments are the accepted ones in their original order. The loop keeps `last_was_accepted` equal to the previous argument's acceptance. |
| `Configure.PuppetOptions` | lib/kafo/kafo_configure.rb:360-369 | The list has six entries, plus one for noop and one for profile. |
| `Configure.PuppetOptionsContent` | lib/kafo/kafo_configure.rb:360-369 | The six fixed options come first in order, then `--noop` iff noop, then `--profile` iff profile, in that order. |
| `Configure.KafoConfigure.BuildPuppetOptions` | lib/kafo/kafo_configure.rb:360-369 | Pushing onto the fixed array gives the option list above. |
| `Configure.ExitCodeOf` | lib/kafo/kafo_configure.rb:358-391 | The exit code is the status from the wait path or from `PTY::ChildExited`, and 0 in every other case. |
| `Configure.KafoConfigure.RunInstallation` | lib/kafo/kafo_configure.rb:356-398 | The option list and the exit code are those of the two rules above. Every line is classified and logged, then the closing line. The bar gets every line and the error reports, and is closed. The temporary answer file is absent afterwards, whether or not it existed. All of this holds when the read loop raises nothing (see "Left out"). |
| `Configure.StoreParams` | lib/kafo/kafo_configure.rb:342 | The stored map has one key per module identifier. |
| `Configure.StoredAnswerOfModule` | lib/kafo/kafo_configure.rb:342 | A module's stored answer is its parameter hash when enabled and `false` otherwise, unless a later module has the same identifier. |
| `Configure.UseColors` | lib/kafo/kafo_configure.rb:434-442 | With a configuration, its setting wins. Without one: `--no-colors` gives false, otherwise `--colors` gives true, otherwise nil. |
| `Scenarios.ConfigDirOf` | lib/kafo/scenario_manager.rb:9 | The configuration directory is the dirname of a config file, and the path itself otherwise. |
| `Scenarios.PreviousScenarioOf` | lib/kafo/scenario_manager.rb:11 | There is a previous scenario iff the link resolves to an existing entry, and then it is that entry, never a symlink: the path itself when it is not a link, the link's target when it is. |
| `Scenarios.ConfigDirectoryRule` | lib/kafo/scenario_manager.rb:8-10 | For a config file `dir/name`, the directory is `dir`. The link is named `linkName` inside that directory. A path that is not a file is its own directory. |
| `Scenarios.ScenarioManager.constructor` | lib/kafo/scenario_manager.rb:8-12 | The manager records the directory, the link path and the previous scenario of the rules above, with an empty cache. The link name defaults to `last_scenario.yaml`. |
| `Files.TrimTrailingSlashes` | lib/kafo/scenario_manager.rb:103 | The part of `File.join` that drops a directory's trailing slashes: the result is the longest prefix of the path that does not end with `/`, and everything after it is `/`. |
| `Files.JoinMeetsAtOneSlash` | lib/kafo/scenario_manager.rb:103 | `File.join` of a directory that does not end with `/`, followed by any number of slashes, and a name starting with `/` meets at that name's one slash. A plain name joined to that directory, with or without one trailing slash, meets it at exactly one `/`. |
| `Files.DirnameOfJoin` | lib/kafo/scenario_manager.rb:9-10 | `dirname` and `basename` undo `File.join` of a directory and a plain name. |
| `Scenarios.Put` | lib/kafo/scenario_manager.rb:22 | Storing a scenario under a file already present keeps the key order. A new file is appended. The result holds the new scenario and otherwise only old ones. |
| `Scenarios.WithDefaultName` | lib/kafo/scenario_manager.rb:21 | `:name` is always present afterwards. An existing name is kept. A missing one becomes the file's stem. No other key changes. |
| `Files.StemOfScenarioFile` | lib/kafo/scenario_manager.rb:21 | The basename without `.yaml` of `dir/stem.yaml` is `stem`. |
| `Scenarios.Discover` | lib/kafo/scenario_manager.rb:16-28 | The `inject` as a fold over the listed files (link skipped, syntax errors warned of, hashes with `:answer_file` stored). Neither the scenarios nor the warnings outnumber the files. |
| `Scenarios.FoldScenarioFiles` | lib/kafo/scenario_manager.rb:16-28 | The `inject` loop over the listing yields the scenarios and warnings of the discovery fold. |
| `Scenarios.Accepted` | lib/kafo/scenario_manager.rb:16-19 | Defined as: the file is not the last-scenario link, and it loads as a hash with `:answer_file`. |
| `Scenarios.DiscoveryStep` | lib/kafo/scenario_manager.rb:17-27 | Defined as one turn of the `inject` block: the link is skipped, a syntax error adds a warning, a hash with `:answer_file` is stored with its default name, anything else is passed over. |
| `Scenarios.DiscoverContent` | lib/kafo/scenario_manager.rb:16-22 | Every discovered scenario is a listed file that is not the link and holds a hash with `:answer_file`. Its content is the file's hash with the default name. |
| `Scenarios.DiscoverFinds` | lib/kafo/scenario_manager.rb:16-22 | A file is discovered iff it is listed, is not the link, and holds a hash with `:answer_file`. |
| `Scenarios.DiscoverOrder` | lib/kafo/scenario_manager.rb:16-27 | For a listing without repeats, the scenarios come in listing order. |
| `Scenarios.DiscoverSkips` | lib/kafo/scenario_manager.rb:17-27 | A file that is not accepted (malformed, not a hash, no `:answer_file`, or the link) leaves the scenarios found in the remaining files unchanged. |
| `Scenarios.DiscoverWarns` | lib/kafo/scenario_manager.rb:24-25 | The warnings are exactly `"Warning: "` plus the message of each listed file with a YAML syntax error. |
| `Scenarios.DiscoverWarnsInOrder` | lib/kafo/scenario_manager.rb:17-27 | The warnings are one per malformed file, in listing order, whatever scenarios were found. |
| `Scenarios.ScenarioManager.AvailableScenarios` | lib/kafo/scenario_manager.rb:14-29 | The first call discovers and caches. A later call returns the cache and emits no warnings. |
| `Scenarios.ScenarioFiles` | lib/kafo/scenario_manager.rb:48 | The keys of the scenario hash, in order. |
| `Scenarios.ScenarioLabel` | lib/kafo/scenario_manager.rb:49-50 | Defined as the button label: the name as a string, followed by `": "` and the description when the description is truthy. |
| `Scenarios.SelectionWizardEntries` | lib/kafo/scenario_manager.rb:44-55 | One default button per available scenario, in key order, labelled with the name plus `": description"` when there is one. Then a final non-default Cancel button. |
| `Scenarios.WizardAnswersAreAvailable` | lib/kafo/scenario_manager.rb:48-53 | A button's answer is `:cancel` only for the Cancel button. Every other answer is an available scenario. |
| `Scenarios.ScenarioLines` | lib/kafo/scenario_manager.rb:36-38 | Defined as the lines printed for one scenario: its name, its hint in parentheses, and the description when it is a non-empty string. |
| `Scenarios.UseHint` | lib/kafo/scenario_manager.rb:34-35 | The hint is `INSTALLED` iff the scenario is the previous one. Otherwise it is `use: --scenario <stem>`. |
| `Scenarios.AllScenarioLinesHaveHints` | lib/kafo/scenario_manager.rb:33-39 | Every available scenario's hint line is printed. |
| `Scenarios.ListAvailableScenarios` | lib/kafo/scenario_manager.rb:31-42 | The listing starts with its title, prints every scenario's hint, reports an empty directory, and exits 0. |
| `Scenarios.ListedHintSelectsScenario` | lib/kafo/scenario_manager.rb:99-104 | Following the hint printed at line 35 (`--scenario <stem>`) selects exactly the listed file. |
| `Scenarios.LeadingSlashNameSelectsScenario` | lib/kafo/scenario_manager.rb:101-104 | `-S /name` selects `config_dir/name.yaml` when it exists: the slash of the name is not doubled. |
| `Scenarios.ScenarioChanged` | lib/kafo/scenario_manager.rb:69-72 | Nothing changed when there is no previous scenario. A non-link changed iff it differs from the previous scenario. A link changed iff its realpath (its target) differs from the previous scenario. |
| `Scenarios.CaptureAt` | lib/kafo/scenario_manager.rb:101 | A match at a position captures a non-empty name with no whitespace. |
| `Scenarios.FirstMatchFrom` | lib/kafo/scenario_manager.rb:101 | The leftmost position where the pattern matches, and no match before it. Without a match, the pattern matches nowhere. |
| `Scenarios.MatchScenarioArg` | lib/kafo/scenario_manager.rb:101 | The captured name is non-empty with no whitespace. There is a capture iff the pattern matches somewhere. |
| `Scenarios.ScenarioFlagForms` | lib/kafo/scenario_manager.rb:101 | `-S name`, `--scenario name` and `--scenario=name` at the head of the arguments all capture `name`. |
| `Scenarios.ScenarioFromArgs` | lib/kafo/scenario_manager.rb:99-107 | No match gives no scenario. A match names `config_dir/<name>.yaml`, which is returned if it exists and otherwise exits `:unknown_scenario`. |
| `Scenarios.SelectionPriority` | lib/kafo/scenario_manager.rb:57-97 | The order is the argument, then the previous scenario, then the only available one, then the wizard. Cancelling the wizard exits 0. |
| `Scenarios.UnknownScenarioRule` | lib/kafo/scenario_manager.rb:89-107 | The selection exits `:unknown_scenario` iff the argument names a missing file, or nothing selects a scenario and the run is not interactive. |
| `Scenarios.Interactive` | lib/kafo/scenario_manager.rb:59 | Defined as: `--interactive` or `-i` is among the arguments (the same test is made at line 130). |
| `Scenarios.SelectedScenarioIsKnown` | lib/kafo/scenario_manager.rb:89-97 | A selected scenario is `config_dir/<name>.yaml` for the name the argument gives, and that file exists; or it is the previous scenario; or it is an available one. |
| `Scenarios.SelectScenario` | lib/kafo/scenario_manager.rb:89-97 | Defined as the chain of alternatives: the argument (or its `:unknown_scenario` exit), the previous scenario, the only available one, the wizard in an interactive run, and otherwise `:unknown_scenario`. Its properties are the three lemmas above. |
| `Scenarios.CheckScenarioChange` | lib/kafo/scenario_manager.rb:116-126 | Defined as: nothing happens for an unchanged scenario; `--compare-scenarios` shows the diff and exits 0; otherwise the confirmation gate decides. Its properties are the two lemmas below. |
| `Scenarios.ConfirmScenarioChange` | lib/kafo/scenario_manager.rb:128-149 | The change proceeds iff `--force` is given, or the run is interactive and the answer is proceed. Confirmation is asked iff `--force` is absent and the run is interactive. |
| `Scenarios.ChangeNeedsConsent` | lib/kafo/scenario_manager.rb:116-126 | An unchanged scenario passes the gate with nothing shown or asked. A changed one passes only without `--compare-scenarios` and with force or an interactive proceed. Without a previous scenario, the gate always passes. |
| `Scenarios.ChangeGateOutcomes` | lib/kafo/scenario_manager.rb:116-149 | On a change: `--compare-scenarios` shows the diff and exits 0. Otherwise `--force` proceeds silently. Otherwise interactive mode shows the diff, asks, and exits only with 0. The gate exits `:scenario_error` iff none of these applies. |
| `Scenarios.OverviewRow.Highlighted` | lib/kafo/scenario_manager.rb:163 | Defined as: enabled before, and disabled or absent after. |
| `Scenarios.Overview` | lib/kafo/scenario_manager.rb:156-161 | Defined as one row per module name in first-appearance order over both scenarios, with the last status each scenario gives that name. |
| `Scenarios.StatusLabel` | lib/kafo/scenario_manager.rb:159 | `N/A`, `ENABLED` and `DISABLED` stand for an absent, enabled and disabled module, and each only for that. |
| `Scenarios.AddModules` | lib/kafo/scenario_manager.rb:157-158 | One `inject` adds the modules' names, at first appearance, to the key order. It records the last enabled flag per name. |
| `Scenarios.OverviewRows` | lib/kafo/scenario_manager.rb:160-161 | One row per module name, in key order, with the status before and after. |
| `Scenarios.ModuleOverview` | lib/kafo/scenario_manager.rb:156-165 | The two folds and the row loop build the overview. |
| `Scenarios.DedupListsEachNameOnce` | lib/kafo/scenario_manager.rb:156-158 | The hash's keys are the module names, each exactly once. |
| `Scenarios.StatusMapIsLast` | lib/kafo/scenario_manager.rb:157-158 | A name has a status iff some module has that name. The status is enabled iff the last module of that name is enabled. |
| `Scenarios.OverviewCoversModules` | lib/kafo/scenario_manager.rb:156-160 | The overview lists every module of either scenario, and each once. |
| `Scenarios.HighlightRule` | lib/kafo/scenario_manager.rb:159-163 | A line is highlighted iff the module was enabled before and is disabled or absent after. A side shows `N/A` iff the module is absent there. |
| `Scenarios.SameModulesNothingHighlighted` | lib/kafo/scenario_manager.rb:163 | Comparing a scenario's modules with themselves highlights nothing. |
| `Scenarios.LinkAsWritten` | lib/kafo/scenario_manager.rb:181-187 | Defined as the code does it: delete the link if `File.exist?` (which follows it) holds, then create it; a name still taken gives `EEXIST`, a directory `EISDIR`. |
| `Scenarios.LinkAsWrittenFailsOnlyOnDanglingLink` | lib/kafo/scenario_manager.rb:181-187 | The code as written and the corrected relink differ exactly when the link is dangling. There the code fails with `EEXIST`. |
| `Scenarios.DanglingLinkCounterexample` | lib/kafo/scenario_manager.rb:184-185 | A last-scenario link to a deleted scenario makes the code as written fail. The corrected relink succeeds. |
| `Scenarios.Relink` | lib/kafo/scenario_manager.rb:181-187 | The link ends up pointing to the new scenario, whatever was there before. The relink fails only when a directory sits at the link path. |
| `Scenarios.ScenarioManager.LinkLastScenario` | lib/kafo/scenario_manager.rb:181-187 | The file system becomes the relinked map, or is unchanged on failure. |
| `Scenarios.RelinkedScenarioIsUnchanged` | lib/kafo/scenario_manager.rb:181-187 | After linking a scenario file, the next run sees it as the previous scenario. Selecting it again, by its path or through the link, is no change. |

## Left out

- Process I/O is left out: PTY spawning, the blocking line read, `PTY.check`, `Process.wait` and `$?`. The run gets the printed lines and a `ChildObservation` as inputs. The pre/post hooks and `ExitHandler` are left out too: an exit is a returned `ExitCode`.
- `Configure.ExitCodeOf`: a child killed by a signal (a nil `exitstatus`) is not modelled; statuses are integers.
- `Configure.KafoConfigure.RunInstallation` assumes the read loop raises nothing. In the code, an exception inside the loop (chiefly the `ArgumentError` of matching a line that is not valid in the terminal's encoding, possible with `--show_diff` on a binary file) escapes both rescues, and there is no `ensure`. The bar is then not closed, the closing line is not logged, the temporary answer file is not removed, and no exit code is derived. Dafny strings cannot hold such a line, so this path is not modelled.
- `Configure.KafoConfigure.RunInstallation`, further:
  - The lines are classified before they are forwarded. Interleaving with the child is not modelled; `puppet_parse` depends only on the line.
  - The value `PTY.check` returns decides in the code whether `Process.wait` runs (line 380), but it never becomes the exit code. The model records it and derives the exit code as the code does.
- `Configure.PuppetParseFollowsTable` assumes a single line (at most one newline, at the end), which is what a line-wise read delivers. For a multi-line string, `PuppetParse` follows Ruby's line-start `^`, but it is not related to the table.
- Case-insensitive matching folds ASCII letters only. Unicode case folding is not modelled.
- Not modelled, being terminal output or logger side effects:
  - HighLine `say`/`color` rendering;
  - the `%-50s` module line format;
  - the title and description texts of the wizards;
  - `fail_now`'s message;
  - log flushing in `dump_log_and_exit`.
- The KafoWizards UI is left out. The selection and confirmation answers are parameters.
- `Configuration` loading, `preset_defaults_*`, `params_missing`/`params_changed` and `show_scenario_diff`'s parameter lists are not part of this model. The overview takes each scenario's modules as a sequence of name and enabled flag. `store_params` takes the modules' identifiers, flags and parameter hashes, and `config.store` is left out.
- YAML parsing is left out. Loading a file yields an abstract result: a hash, a syntax error with its message, or some other value.
- The following are left out, being framework glue and reflection:
  - Clamp option registration;
  - `parse_app_arguments`/`parse_cli_arguments`;
  - the `config_file` fallback chain;
  - `configured?`;
  - colour schemes.
- `Dir.glob` is an input listing, in its own order.
- `File.realpath`, `File.exist?` and `File.file?` resolve one symlink level: a link whose target is itself a link counts as broken, where Ruby would follow the chain. So for such a chain `PreviousScenarioOf` gives none, `ScenarioFromArgs` exits `:unknown_scenario`, and `LinkAsWritten` fails with `EEXIST`. `..` canonicalisation is not modelled. `File.expand_path` in `list_available_scenarios` is taken as the identity.
- `Scenarios.Accepted`: the last-scenario file is rejected when its path ends with the link path. The code builds a regex from that path, so regex metacharacters in it (such as `.`) are read literally here.
- `Scenarios.ListAvailableScenarios` requires every description to be a string or absent. A non-string `:description` would make Ruby's `+` raise, and that is not modelled.
- `Scenarios.FoldScenarioFiles`, `Scenarios.Discover`, `Scenarios.SyntaxWarnings`, the `Scenarios.Discover*` lemmas and `Scenarios.ScenarioManager.AvailableScenarios` (on a first call) require every listed file other than the link to be a regular file. Unreadable files and `Errno` failures of `YAML.load_file` are not modelled.
- Paths with repeated or trailing slashes are not modelled by the `dirname`/`basename` lemmas, which require a directory without a trailing slash and a name without any slash. `Files.Join` follows Ruby's `File.join` for two parts: a name starting with `/` replaces the directory's trailing slashes, and any other name gets a `/` in front unless the directory already ends with one. Slashes inside either part are kept as they are, as Ruby keeps them.
- The first definition of `scenario_from_args` (lines 78-87) is left out: Ruby replaces it with the second definition, which is modelled.

## Findings

| source | as written | input that shows it | evidently intended | confidence | as-written member | corrected member |
|---|---|---|---|---|---|---|
| lib/kafo/scenario_manager.rb:184-185 | `File.exist?` follows the link, so a dangling last-scenario link is not deleted, and `File.symlink` then fails with `EEXIST` | `last_scenario.yaml` is a symlink to a scenario file that has been removed; the new scenario is another existing file | the old link is replaced by one to the new scenario whatever it pointed to (test for the link itself, e.g. `File.symlink?` as well, or force-create) | not executed | `Scenarios.LinkAsWritten` (shown by `Scenarios.DanglingLinkCounterexample`) | `Scenarios.Relink` (used by `Scenarios.ScenarioManager.LinkLastScenario`) |
