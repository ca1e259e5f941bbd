/**
 * The run logic of the installer's command object (KafoConfigure): classifying the
 * provisioning tool's output, pre-filtering the installer's own arguments, the options
 * the provisioning tool is started with, the exit-code rule of a run, the answer data
 * that is stored, and the colour setting.
 */
module Configure {
  import opened Outcomes
  import opened Text
  import opened Files

  // ---------------------------------------------------------------------------------
  // Classifying one line of provisioning output
  // ---------------------------------------------------------------------------------

  datatype Severity = Error | Warn | Info | Debug

  /** A classified line: the logger method it goes to and its message. */
  datatype LogLine = LogLine(severity: Severity, message: string)

  /**
   * `line =~ /^prefix(.*)/i`: `^` matches at the start of every line of `line`, so the
   * first line that starts with `prefix` (ignoring case) wins and the capture runs to the
   * end of that line.
   */
  function MatchLineStart(line: string, prefix: string): Option<string>
    decreases |line|
  {
    if StartsWithIgnoringCase(line, prefix) then Some(UpToNewline(line[|prefix|..]))
    else match IndexOf(line, "\n")
      case None => None
      case Some(i) => MatchLineStart(line[i + 1..], prefix)
  }

  /**
   * The if/elsif chain of puppet_parse: the prefixes are tried in table order and the first
   * whose pattern matches gives the severity and the capture.
   */
  function MatchFirst(line: string, table: seq<(string, Severity)>): Option<(Severity, string)>
    decreases |table|
  {
    if table == [] then None
    else match MatchLineStart(line, table[0].0)
      case Some(capture) => Some((table[0].1, capture))
      case None => MatchFirst(line, table[1..])
  }

  /** puppet_parse: the first matching prefix decides the severity; an unmatched line is info. */
  function PuppetParse(line: string): LogLine {
    match MatchFirst(line, PrefixTable)
    case None => LogLine(Info, Chomp(line))
    case Some((severity, capture)) => LogLine(severity, Chomp(capture))
  }

  /** A line as the pseudo-terminal hands it over: a newline can only be its last character. */
  predicate SingleLine(s: string) {
    forall i :: 0 <= i < |s| - 1 ==> s[i] != '\n'
  }

  /** The classification table, in the order the prefixes are tried. */
  const PrefixTable: seq<(string, Severity)> :=
    [("Error:", Error), ("Err:", Error), ("Warning:", Warn), ("Notice:", Warn), ("Info:", Info), ("Debug:", Debug)]

  function FirstPrefix(line: string, table: seq<(string, Severity)>): (r: Option<(string, Severity)>)
    ensures r.Some? ==> StartsWithIgnoringCase(line, r.value.0)
  {
    if table == [] then None
    else if StartsWithIgnoringCase(line, table[0].0) then Some(table[0])
    else FirstPrefix(line, table[1..])
  }

  /** Reference classifier: strip the first table prefix the line starts with and chomp the rest. */
  function ClassifyByTable(line: string): LogLine {
    match FirstPrefix(line, PrefixTable)
    case None => LogLine(Info, Chomp(line))
    case Some((prefix, severity)) => LogLine(severity, Chomp(line[|prefix|..]))
  }

  lemma {:induction false} MatchLineStartOnSingleLine(line: string, prefix: string)
    requires SingleLine(line) && prefix != []
    ensures MatchLineStart(line, prefix) ==
      if StartsWithIgnoringCase(line, prefix) then Some(UpToNewline(line[|prefix|..])) else None
  {
    if !StartsWithIgnoringCase(line, prefix) {
      match IndexOf(line, "\n")
      case None =>
      case Some(i) =>
        assert line[i..i + 1] == "\n";
        assert line[i] == '\n';
        assert i == |line| - 1;
        assert line[i + 1..] == "";
        assert IndexOf("", "\n") == None;
    }
  }

  /** On a single line, cutting at the newline and then chomping is the same as chomping. */
  lemma ChompUpToNewline(s: string)
    requires SingleLine(s)
    ensures Chomp(UpToNewline(s)) == Chomp(s)
    ensures '\n' !in Chomp(s)
  {
    var r := UpToNewline(s);
    if '\n' in s {
      assert |r| == |s| - 1 by {
        assert s[|r|] == '\n';
      }
      assert s == r + "\n";
      ChompDropsNewline(r);
    }
  }

  /** Chomping a newline-free text with a newline appended is chomping the text. */
  lemma ChompDropsNewline(r: string)
    requires '\n' !in r
    ensures Chomp(r + "\n") == Chomp(r)
  {
    var s := r + "\n";
    assert s[|s| - 1] == '\n';
    if |r| > 0 {
      assert s[|s| - 2] == r[|r| - 1] && r[|r| - 1] != '\n';
      assert s[..|s| - 2] == r[..|r| - 1];
    }
    assert s[..|s| - 1] == r;
  }

  lemma SingleLineSuffix(s: string, k: nat)
    requires SingleLine(s) && k <= |s|
    ensures SingleLine(s[k..])
  {
  }

  /** On a single line, the regular-expression chain and the prefix table pick the same entry. */
  lemma {:induction false} MatchFirstOnSingleLine(line: string, table: seq<(string, Severity)>)
    requires SingleLine(line)
    requires forall k :: 0 <= k < |table| ==> table[k].0 != []
    ensures MatchFirst(line, table) ==
      match FirstPrefix(line, table)
      case None => None
      case Some((prefix, severity)) => Some((severity, UpToNewline(line[|prefix|..])))
    decreases |table|
  {
    if table != [] {
      MatchLineStartOnSingleLine(line, table[0].0);
      MatchFirstOnSingleLine(line, table[1..]);
    }
  }

  /** For a single line, puppet_parse is the ordered-prefix table. */
  lemma PuppetParseFollowsTable(line: string)
    requires SingleLine(line)
    ensures PuppetParse(line) == ClassifyByTable(line)
  {
    MatchFirstOnSingleLine(line, PrefixTable);
    match FirstPrefix(line, PrefixTable)
    case None =>
    case Some((prefix, severity)) =>
      SingleLineSuffix(line, |prefix|);
      ChompUpToNewline(line[|prefix|..]);
  }

  /** The reference classifier with its table written out. */
  lemma TableUnrolled(line: string)
    ensures ClassifyByTable(line) ==
      if StartsWithIgnoringCase(line, "Error:") then LogLine(Error, Chomp(line[6..]))
      else if StartsWithIgnoringCase(line, "Err:") then LogLine(Error, Chomp(line[4..]))
      else if StartsWithIgnoringCase(line, "Warning:") then LogLine(Warn, Chomp(line[8..]))
      else if StartsWithIgnoringCase(line, "Notice:") then LogLine(Warn, Chomp(line[7..]))
      else if StartsWithIgnoringCase(line, "Info:") then LogLine(Info, Chomp(line[5..]))
      else if StartsWithIgnoringCase(line, "Debug:") then LogLine(Debug, Chomp(line[6..]))
      else LogLine(Info, Chomp(line))
  {
    var t := PrefixTable;
    assert FirstPrefix(line, t[5..]) == if StartsWithIgnoringCase(line, "Debug:") then Some(t[5]) else None;
    assert FirstPrefix(line, t[4..]) == if StartsWithIgnoringCase(line, "Info:") then Some(t[4]) else FirstPrefix(line, t[5..]);
    assert FirstPrefix(line, t[3..]) == if StartsWithIgnoringCase(line, "Notice:") then Some(t[3]) else FirstPrefix(line, t[4..]);
    assert FirstPrefix(line, t[2..]) == if StartsWithIgnoringCase(line, "Warning:") then Some(t[2]) else FirstPrefix(line, t[3..]);
    assert FirstPrefix(line, t[1..]) == if StartsWithIgnoringCase(line, "Err:") then Some(t[1]) else FirstPrefix(line, t[2..]);
    assert FirstPrefix(line, t) == if StartsWithIgnoringCase(line, "Error:") then Some(t[0]) else FirstPrefix(line, t[1..]);
  }

  /** A line cannot start with both `Error:` and `Err:`. */
  lemma ErrorPrefixesExclusive(line: string)
    ensures !(StartsWithIgnoringCase(line, "Error:") && StartsWithIgnoringCase(line, "Err:"))
  {
    if StartsWithIgnoringCase(line, "Error:") {
      assert Lower(line[3]) == Lower("Error:"[3]) == 'o';
      assert Lower("Err:"[3]) == ':';
    }
  }

  /** Error prefixes are tried first and make an error; the rest of the line, chomped, is the message. */
  lemma ErrorRule(line: string)
    requires SingleLine(line)
    ensures PuppetParse(line).severity == Error <==>
      StartsWithIgnoringCase(line, "Error:") || StartsWithIgnoringCase(line, "Err:")
    ensures StartsWithIgnoringCase(line, "Error:") ==> PuppetParse(line).message == Chomp(line[6..])
    ensures StartsWithIgnoringCase(line, "Err:") ==> PuppetParse(line).message == Chomp(line[4..])
  {
    PuppetParseFollowsTable(line);
    TableUnrolled(line);
    ErrorPrefixesExclusive(line);
  }

  /** `Warning:`/`Notice:` make a warning and `Debug:` a debug line, when no earlier prefix matched. */
  lemma WarnAndDebugRules(line: string)
    requires SingleLine(line)
    ensures PuppetParse(line).severity == Warn <==>
      !(StartsWithIgnoringCase(line, "Error:") || StartsWithIgnoringCase(line, "Err:"))
      && (StartsWithIgnoringCase(line, "Warning:") || StartsWithIgnoringCase(line, "Notice:"))
    ensures PuppetParse(line).severity == Debug <==>
      !(StartsWithIgnoringCase(line, "Error:") || StartsWithIgnoringCase(line, "Err:")
        || StartsWithIgnoringCase(line, "Warning:") || StartsWithIgnoringCase(line, "Notice:")
        || StartsWithIgnoringCase(line, "Info:"))
      && StartsWithIgnoringCase(line, "Debug:")
  {
    PuppetParseFollowsTable(line);
    TableUnrolled(line);
  }

  /** Classification is total: an unmatched line is info with the whole line, and no message keeps a newline. */
  lemma UnmatchedAndChompRules(line: string)
    requires SingleLine(line)
    ensures FirstPrefix(line, PrefixTable).None? ==> PuppetParse(line) == LogLine(Info, Chomp(line))
    ensures '\n' !in PuppetParse(line).message
  {
    PuppetParseFollowsTable(line);
    match FirstPrefix(line, PrefixTable)
    case None =>
      ChompUpToNewline(line);
    case Some((prefix, severity)) =>
      SingleLineSuffix(line, |prefix|);
      ChompUpToNewline(line[|prefix|..]);
  }

  /** A line that starts with `prefix` exactly starts with it ignoring case. */
  lemma ExactPrefix(line: string, prefix: string)
    requires StartsWith(line, prefix)
    ensures StartsWithIgnoringCase(line, prefix)
  {
    assert forall i :: 0 <= i < |prefix| ==> line[i] == line[..|prefix|][i];
  }

  /** An error line: the message keeps the space after the colon. */
  lemma ErrorExample(e: string)
    requires e == "Error: disk full\n"
    ensures PuppetParse(e) == LogLine(Error, " disk full")
  {
    ErrorExampleText(e);
    ExactPrefix(e, "Error:");
    ErrorRule(e);
  }

  lemma ErrorExampleText(e: string)
    requires e == "Error: disk full\n"
    ensures SingleLine(e) && StartsWith(e, "Error:") && Chomp(e[6..]) == " disk full"
  {
    assert e[|e| - 1] == '\n';
    assert e[..6] == "Error:";
    var m := e[6..];
    assert m == " disk full\n";
  }

  /** A `Notice:` line that no earlier prefix matches is a warning with the rest of the line. */
  lemma NoticeRule(line: string)
    requires SingleLine(line)
    requires !StartsWithIgnoringCase(line, "Error:") && !StartsWithIgnoringCase(line, "Err:")
    requires !StartsWithIgnoringCase(line, "Warning:") && StartsWithIgnoringCase(line, "Notice:")
    ensures PuppetParse(line) == LogLine(Warn, Chomp(line[7..]))
  {
    PuppetParseFollowsTable(line);
    TableUnrolled(line);
  }

  /** A line whose first letter begins none of the prefixes matches none of them. */
  lemma NoPrefixMatches(line: string)
    requires |line| > 0 && Lower(line[0]) !in {'e', 'w', 'n', 'i', 'd'}
    ensures FirstPrefix(line, PrefixTable).None?
  {
    var t := PrefixTable;
    assert FirstPrefix(line, t[5..]) == None;
    assert FirstPrefix(line, t[4..]) == None;
    assert FirstPrefix(line, t[3..]) == None;
    assert FirstPrefix(line, t[2..]) == None;
    assert FirstPrefix(line, t[1..]) == None;
  }

  /** `notice:` in lower case is the `Notice:` prefix and none of the earlier ones. */
  lemma LowerCaseNotice(line: string)
    requires |line| >= 7 && line[..7] == "notice:"
    ensures !StartsWithIgnoringCase(line, "Error:") && !StartsWithIgnoringCase(line, "Err:")
    ensures !StartsWithIgnoringCase(line, "Warning:") && StartsWithIgnoringCase(line, "Notice:")
  {
    assert line[0] == 'n';
    assert forall i :: 0 <= i < 7 ==> line[i] == "notice:"[i];
  }

  /** A notice, in lower case and with a carriage return, is a warning. */
  lemma NoticeExample(n: string)
    requires n == "notice: applying\r\n"
    ensures PuppetParse(n) == LogLine(Warn, " applying")
  {
    NoticeExampleText(n);
    LowerCaseNotice(n);
    NoticeRule(n);
  }

  lemma NoticeExampleText(n: string)
    requires n == "notice: applying\r\n"
    ensures SingleLine(n) && |n| >= 7 && n[..7] == "notice:" && Chomp(n[7..]) == " applying"
  {
    assert n[|n| - 1] == '\n';
    assert n[..7] == "notice:";
    var m := n[7..];
    assert m == " applying\r\n";
  }


  /** A line with no known prefix is info with the whole line, chomped. */
  lemma PlainTextExample(j: string)
    requires j == "just text\n"
    ensures PuppetParse(j) == LogLine(Info, "just text")
  {
    PlainTextExampleText(j);
    NoPrefixMatches(j);
    UnmatchedAndChompRules(j);
  }

  lemma PlainTextExampleText(j: string)
    requires j == "just text\n"
    ensures SingleLine(j) && |j| > 0 && Lower(j[0]) == 'j' && Chomp(j) == "just text"
  {
    assert j[|j| - 1] == '\n';
  }


  /** Every line of output, classified on its own, in order. */
  function Classify(output: seq<string>): (entries: seq<LogLine>)
    ensures |entries| == |output|
    ensures forall i :: 0 <= i < |output| ==> entries[i] == PuppetParse(output[i])
  {
    seq(|output|, i requires 0 <= i < |output| => PuppetParse(output[i]))
  }

  /** What progress_log sends to the progress bar for one log line: an error's message and a newline. */
  function Report(entry: LogLine): seq<string> {
    if entry.severity == Error then [entry.message + "\n"] else []
  }

  /** What progress_log sends to the progress bar for a series of log lines. */
  function ErrorReports(entries: seq<LogLine>): seq<string>
    decreases |entries|
  {
    if entries == [] then []
    else ErrorReports(entries[..|entries| - 1]) + Report(entries[|entries| - 1])
  }

  /** One more log line adds its own report. */
  lemma ReportsStep(entries: seq<LogLine>, i: nat)
    requires i < |entries|
    ensures entries[..i + 1] == entries[..i] + [entries[i]]
    ensures ErrorReports(entries[..i + 1]) == ErrorReports(entries[..i]) + Report(entries[i])
  {
    assert entries[..i + 1][..i] == entries[..i];
  }

  /** Appending the next element of `s` to what was appended of it so far. */
  lemma AppendNext<T>(prefix: seq<T>, s: seq<T>, i: nat)
    requires i < |s|
    ensures prefix + s[..i] + [s[i]] == prefix + s[..i + 1]
  {
    assert s[..i + 1] == s[..i] + [s[i]];
  }

  /** The progress bar hears of exactly the error lines. */
  lemma {:induction false} ErrorReportsAreTheErrors(entries: seq<LogLine>)
    ensures forall e :: e in entries && e.severity == Error ==> e.message + "\n" in ErrorReports(entries)
    ensures forall r :: r in ErrorReports(entries) ==>
      exists e :: e in entries && e.severity == Error && r == e.message + "\n"
    ensures |ErrorReports(entries)| <= |entries|
    decreases |entries|
  {
    if entries != [] {
      var init := entries[..|entries| - 1];
      ErrorReportsAreTheErrors(init);
      assert entries == init + [entries[|entries| - 1]];
    }
  }

  // ---------------------------------------------------------------------------------
  // The pre-filter of the installer's own arguments
  // ---------------------------------------------------------------------------------

  /** is_yes_no_flag?: the switch is written with `[no-]`. */
  predicate IsYesNoFlag(switch: string) {
    IndexOf(switch, "[no-]").Some?
  }

  /** build_yes_no_variants: the positive and the negated switch. */
  function BuildYesNoVariants(switch: string): seq<string> {
    [Sub(switch, "[no-]", ""), Sub(switch, "[no-]", "no-")]
  }

  lemma YesNoVariantsOfLongSwitch(name: string)
    ensures IsYesNoFlag("--[no-]" + name)
    ensures BuildYesNoVariants("--[no-]" + name) == ["--" + name, "--no-" + name]
  {
    var s := "--[no-]" + name;
    assert OccursAt(s, "[no-]", 2) by { assert s[2..7] == "[no-]"; }
    assert !OccursAt(s, "[no-]", 0) by { assert s[0] == '-'; }
    assert !OccursAt(s, "[no-]", 1) by { assert s[1] == '-'; }
    var r := IndexOf(s, "[no-]");
    assert r == Some(2);
    assert s[..2] == "--" && s[7..] == name;
    assert s[..2] + "" + s[2 + 5..] == "--" + name;
    assert s[..2] + "no-" + s[2 + 5..] == "--no-" + name;
  }

  /** What one switch contributes to the allowed list. */
  function ExpandSwitch(switch: string): seq<string> {
    if IsYesNoFlag(switch) then BuildYesNoVariants(switch) else [switch]
  }

  function ExpandSwitches(switches: seq<string>): seq<string>
    decreases |switches|
  {
    if switches == [] then []
    else ExpandSwitches(switches[..|switches| - 1]) + ExpandSwitch(switches[|switches| - 1])
  }

  /** The flattened `@allowed_clamp_app_arguments` for the switches of every app option. */
  function AllowedSwitches(options: seq<seq<string>>): seq<string>
    decreases |options|
  {
    if options == [] then []
    else AllowedSwitches(options[..|options| - 1]) + ExpandSwitches(options[|options| - 1])
  }

  /** One more switch expanded. */
  lemma ExpandStep(switches: seq<string>, j: nat)
    requires j < |switches|
    ensures forall prefix ::
      (prefix + ExpandSwitches(switches[..j]) + ExpandSwitch(switches[j]) == prefix + ExpandSwitches(switches[..j + 1]))
  {
    assert switches[..j + 1][..j] == switches[..j];
  }

  /** One more app option's switches expanded. */
  lemma AllowedStep(options: seq<seq<string>>, i: nat)
    requires i < |options|
    ensures AllowedSwitches(options[..i + 1]) == AllowedSwitches(options[..i]) + ExpandSwitches(options[i])
  {
    assert options[..i + 1][..i] == options[..i];
  }

  lemma {:induction false} ExpandSwitchesMembership(switches: seq<string>, x: string)
    ensures x in ExpandSwitches(switches) <==> exists j :: 0 <= j < |switches| && x in ExpandSwitch(switches[j])
    decreases |switches|
  {
    if switches != [] {
      var init := switches[..|switches| - 1];
      ExpandSwitchesMembership(init, x);
      assert forall j :: 0 <= j < |init| ==> init[j] == switches[j];
    }
  }

  /** An argument name is allowed exactly when some switch of some app option expands to it. */
  lemma {:induction false} AllowedSwitchesMembership(options: seq<seq<string>>, x: string)
    ensures x in AllowedSwitches(options) <==>
      exists i, j :: 0 <= i < |options| && 0 <= j < |options[i]| && x in ExpandSwitch(options[i][j])
    decreases |options|
  {
    if options != [] {
      var init := options[..|options| - 1];
      var last := options[|options| - 1];
      AllowedSwitchesMembership(init, x);
      ExpandSwitchesMembership(last, x);
      assert forall i :: 0 <= i < |init| ==> init[i] == options[i];
      if x in AllowedSwitches(options) && x !in AllowedSwitches(init) {
        var j :| 0 <= j < |last| && x in ExpandSwitch(last[j]);
        assert 0 <= |options| - 1 < |options| && options[|options| - 1][j] == last[j];
      }
    }
  }

  /** `[a-zA-Z0-9_-]`. */
  predicate IsWordChar(c: char) {
    'a' <= c <= 'z' || 'A' <= c <= 'Z' || '0' <= c <= '9' || c == '_' || c == '-'
  }

  /** The first capture of `/([a-zA-Z0-9_-]*)([= ].*)?/`: the longest leading run of word characters. */
  function LeadingToken(arg: string): (token: string)
    ensures |token| <= |arg| && arg[..|token|] == token
    ensures forall i :: 0 <= i < |token| ==> IsWordChar(token[i])
    ensures |token| < |arg| ==> !IsWordChar(arg[|token|])
  {
    if arg == [] || !IsWordChar(arg[0]) then [] else [arg[0]] + LeadingToken(arg[1..])
  }

  /** A word followed by something that is not a word character has that word as its token. */
  lemma LeadingTokenOfWord(word: string, rest: string)
    requires forall i :: 0 <= i < |word| ==> IsWordChar(word[i])
    requires rest == [] || !IsWordChar(rest[0])
    ensures LeadingToken(word + rest) == word
  {
    var t := LeadingToken(word + rest);
    assert t == (word + rest)[..|t|];
    assert (word + rest)[..|word|] == word;
  }

  /** `--log-level=debug` is let through exactly when `--log-level` is an allowed switch. */
  lemma SwitchWithInlineValue(allowed: seq<string>)
    ensures IsAllowedAttributeName(allowed, "--log-level=debug") <==> "--log-level" in allowed
  {
    var w := "--log-level";
    assert forall i :: 0 <= i < |w| ==> IsWordChar(w[i]);
    LeadingTokenOfWord(w, "=debug");
    assert w + "=debug" == "--log-level=debug";
  }

  /** is_allowed_attribute_name?. */
  predicate IsAllowedAttributeName(allowed: seq<string>, arg: string) {
    LeadingToken(arg) in allowed
  }

  /** is_value?: anything that does not start with a dash. */
  predicate IsValue(arg: string) {
    !StartsWith(arg, "-")
  }

  /** For each argument, the value `last_was_accepted` takes when the select block reaches it. */
  function AcceptMask(allowed: seq<string>, argv: seq<string>): (mask: seq<bool>)
    ensures |mask| == |argv|
    decreases |argv|
  {
    if argv == [] then []
    else
      var previous := AcceptMask(allowed, argv[..|argv| - 1]);
      var arg := argv[|argv| - 1];
      previous + [IsAllowedAttributeName(allowed, arg) || (|previous| > 0 && previous[|previous| - 1] && IsValue(arg))]
  }

  /** An argument is kept iff it is allowed, or it is a value right after a kept argument. */
  lemma {:induction false} AcceptMaskRule(allowed: seq<string>, argv: seq<string>, i: nat)
    requires i < |argv|
    ensures AcceptMask(allowed, argv)[i] <==>
      IsAllowedAttributeName(allowed, argv[i]) || (i > 0 && AcceptMask(allowed, argv)[i - 1] && IsValue(argv[i]))
    decreases |argv|
  {
    var init := argv[..|argv| - 1];
    if i < |argv| - 1 {
      AcceptMaskRule(allowed, init, i);
      assert init[i] == argv[i];
    }
  }

  /** The arguments whose mask entry is set, in their original order (Array#select). */
  function SelectMasked(argv: seq<string>, mask: seq<bool>): seq<string>
    requires |mask| == |argv|
    decreases |argv|
  {
    if argv == [] then []
    else
      var n := |argv| - 1;
      SelectMasked(argv[..n], mask[..n]) + (if mask[n] then [argv[n]] else [])
  }

  /** The filter keeps exactly the arguments at the set positions. */
  lemma {:induction false} SelectMaskedMembership(argv: seq<string>, mask: seq<bool>, x: string)
    requires |mask| == |argv|
    ensures x in SelectMasked(argv, mask) <==> exists i :: 0 <= i < |argv| && mask[i] && argv[i] == x
    decreases |argv|
  {
    if argv != [] {
      var n := |argv| - 1;
      SelectMaskedMembership(argv[..n], mask[..n], x);
      assert forall i :: 0 <= i < n ==> argv[..n][i] == argv[i] && mask[..n][i] == mask[i];
    }
  }

  /** An allowed last argument is accepted whatever came before it. */
  lemma MaskOfAllowedLast(allowed: seq<string>, argv: seq<string>)
    requires argv != [] && IsAllowedAttributeName(allowed, argv[|argv| - 1])
    ensures AcceptMask(allowed, argv) == AcceptMask(allowed, argv[..|argv| - 1]) + [true]
  {
  }

  /** Selecting with a set last entry keeps the last argument. */
  lemma SelectKeepsLast(init: seq<string>, mask: seq<bool>, x: string)
    requires |mask| == |init|
    ensures SelectMasked(init + [x], mask + [true]) == SelectMasked(init, mask) + [x]
  {
    assert (init + [x])[..|init|] == init && (mask + [true])[..|init|] == mask;
  }

  /** When every argument is an allowed switch, the pre-filter changes nothing. */
  lemma {:induction false} AllAllowedAllKept(allowed: seq<string>, argv: seq<string>)
    requires forall a :: a in argv ==> IsAllowedAttributeName(allowed, a)
    ensures SelectMasked(argv, AcceptMask(allowed, argv)) == argv
    decreases |argv|
  {
    if argv != [] {
      var init, x := argv[..|argv| - 1], argv[|argv| - 1];
      assert argv == init + [x];
      assert forall a :: a in init ==> a in argv;
      AllAllowedAllKept(allowed, init);
      assert x in argv;
      MaskOfAllowedLast(allowed, argv);
      SelectKeepsLast(init, AcceptMask(allowed, init), x);
    }
  }

  // ---------------------------------------------------------------------------------
  // Running the provisioning tool
  // ---------------------------------------------------------------------------------

  /** The options the provisioning tool always gets. */
  const FixedPuppetOptions: seq<string> :=
    ["--verbose", "--debug", "--trace", "--color=false", "--show_diff", "--detailed-exitcodes"]

  /** The options of run_installation: the fixed six, then `--noop` and `--profile` when asked for. */
  function PuppetOptions(noop: bool, profile: bool): (options: seq<string>)
    ensures |options| == 6 + (if noop then 1 else 0) + (if profile then 1 else 0)
  {
    FixedPuppetOptions + (if noop then ["--noop"] else []) + (if profile then ["--profile"] else [])
  }

  /** The fixed options come first; `--noop` and `--profile` are there exactly when asked for, in that order. */
  lemma PuppetOptionsContent(noop: bool, profile: bool)
    ensures PuppetOptions(noop, profile)[..6] == FixedPuppetOptions
    ensures "--noop" in PuppetOptions(noop, profile) <==> noop
    ensures "--profile" in PuppetOptions(noop, profile) <==> profile
    ensures noop && profile ==> PuppetOptions(noop, profile)[6..] == ["--noop", "--profile"]
  {
    var options := PuppetOptions(noop, profile);
    assert options[..6] == FixedPuppetOptions;
    assert "--noop" !in FixedPuppetOptions && "--profile" !in FixedPuppetOptions;
  }

  /**
   * How the end of the child was observed:
   * - ReadEnded: the line loop finished without Errno::EIO;
   * - CheckReported: on Errno::EIO, PTY.check returned a status;
   * - Waited: on Errno::EIO, PTY.check gave nil (or is missing), Process.wait ran (Errno::ECHILD
   *   tolerated) and `$?` then carried `status`;
   * - ChildExited: PTY::ChildExited was raised with `status`.
   */
  datatype ChildObservation =
    | ReadEnded
    | CheckReported(status: int)
    | Waited(status: int)
    | ChildExited(status: int)

  /** The exit code of a run: 0 unless the wait path or PTY::ChildExited supplied a status. */
  function ExitCodeOf(observation: ChildObservation): (code: int)
    ensures (observation.Waited? || observation.ChildExited?) ==> code == observation.status
    ensures code != 0 ==> observation.Waited? || observation.ChildExited?
  {
    match observation
    case Waited(status) => status
    case ChildExited(status) => status
    case _ => 0
  }

  /** The progress bar, reduced to the calls the run makes on it. */
  class ProgressBar {
    var errors: seq<string>
    var updates: seq<string>
    var closed: bool

    constructor ()
      ensures errors == [] && updates == [] && !closed
    {
      errors, updates, closed := [], [], false;
    }

    method PrintError(message: string)
      modifies this`errors
      ensures errors == old(errors) + [message]
    {
      errors := errors + [message];
    }

    method Update(line: string)
      modifies this`updates
      ensures updates == old(updates) + [line]
    {
      updates := updates + [line];
    }

    method Close()
      modifies this`closed
      ensures closed
    {
      closed := true;
    }
  }

  /** The installer command: its progress bar, what it has logged and its allowed app arguments. */
  class KafoConfigure {
    var progressBar: ProgressBar?
    var log: seq<LogLine>
    var allowedAppArguments: seq<string>
    const tempConfigFile: Path

    constructor (progressBar: ProgressBar?, tempConfigFile: Path)
      ensures this.progressBar == progressBar && this.tempConfigFile == tempConfigFile
      ensures log == [] && allowedAppArguments == []
    {
      this.progressBar := progressBar;
      this.tempConfigFile := tempConfigFile;
      log, allowedAppArguments := [], [];
    }

    /** progress_log: always log; an error also goes to the progress bar, if there is one. */
    method ProgressLog(severity: Severity, message: string)
      modifies this`log, progressBar
      ensures log == old(log) + [LogLine(severity, message)]
      ensures progressBar != null ==> progressBar.errors == old(progressBar.errors) + Report(LogLine(severity, message))
      ensures progressBar != null ==>
        progressBar.updates == old(progressBar.updates) && progressBar.closed == old(progressBar.closed)
    {
      if severity == Error && progressBar != null {
        progressBar.PrintError(message + "\n");
      }
      log := log + [LogLine(severity, message)];
    }

    /** One line read from the provisioning tool, once classified: logged, then shown on the bar. */
    method ForwardLine(entry: LogLine, line: string)
      modifies this`log, progressBar
      ensures log == old(log) + [entry]
      ensures progressBar != null ==>
        && progressBar.errors == old(progressBar.errors) + Report(entry)
        && progressBar.updates == old(progressBar.updates) + [line]
        && progressBar.closed == old(progressBar.closed)
    {
      ProgressLog(entry.severity, entry.message);
      if progressBar != null {
        progressBar.Update(line);
      }
    }

    /** Forwards classified lines in order: each is logged, and shown on the bar with its line. */
    method ForwardLines(entries: seq<LogLine>, output: seq<string>)
      requires |entries| == |output|
      modifies this`log, progressBar
      ensures log == old(log) + entries
      ensures progressBar != null ==>
        && progressBar.errors == old(progressBar.errors) + ErrorReports(entries)
        && progressBar.updates == old(progressBar.updates) + output
        && progressBar.closed == old(progressBar.closed)
    {
      var i := 0;
      while i < |output|
        invariant 0 <= i <= |output|
        invariant log == old(log) + entries[..i]
        invariant progressBar != null ==>
          && progressBar.errors == old(progressBar.errors) + ErrorReports(entries[..i])
          && progressBar.updates == old(progressBar.updates) + output[..i]
          && progressBar.closed == old(progressBar.closed)
      {
        ForwardLine(entries[i], output[i]);
        AppendNext(old(log), entries, i);
        if progressBar != null {
          ReportsStep(entries, i);
          AppendNext(old(progressBar.updates), output, i);
          assert progressBar.errors == old(progressBar.errors) + ErrorReports(entries[..i + 1]);
        }
        i := i + 1;
      }
      assert entries[..i] == entries && output[..i] == output;
    }

    /**
     * The read loop: each line is classified, logged and shown on the bar. puppet_parse
     * depends on the line alone, so the lines are classified first (`Classify`, that is
     * `PuppetParse` line by line) and then forwarded in order.
     */
    method ForwardOutput(output: seq<string>)
      modifies this`log, progressBar
      ensures log == old(log) + Classify(output)
      ensures progressBar != null ==>
        && progressBar.errors == old(progressBar.errors) + ErrorReports(Classify(output))
        && progressBar.updates == old(progressBar.updates) + output
        && progressBar.closed == old(progressBar.closed)
    {
      var entries := Classify(output);
      ForwardLines(entries, output);
    }

    /**
     * run_installation, given the lines the provisioning tool prints and how its end is
     * observed: every line is classified and logged, the bar is updated, closed, the
     * temporary answer file is removed, and the run exits with the code of the rule.
     */
    method RunInstallation(noop: bool, profile: bool, output: seq<string>, observation: ChildObservation, fs: FileSystem)
      returns (options: seq<string>, exit: ExitCode)
      modifies this`log, progressBar, fs
      ensures options == PuppetOptions(noop, profile)
      ensures exit == Status(ExitCodeOf(observation))
      ensures log == old(log) + Classify(output) + [LogLine(Info, "Puppet has finished, bye!")]
      ensures progressBar != null ==>
        && progressBar.errors == old(progressBar.errors) + ErrorReports(Classify(output))
        && progressBar.updates == old(progressBar.updates) + output
        && progressBar.closed
      ensures fs.entries == old(fs.entries) - {tempConfigFile}
    {
      var exitCode := 0;
      var exitStatus: Option<int> := None;
      options := BuildPuppetOptions(noop, profile);

      ForwardOutput(output);

      match observation {
        case ReadEnded =>
        case CheckReported(status) =>
          // exit_status keeps PTY.check's answer, but nothing reads it afterwards
          exitStatus := Some(status);
        case Waited(status) =>
          exitCode := status;
        case ChildExited(status) =>
          exitCode := status;
      }

      if progressBar != null {
        progressBar.Close();
      }
      log := log + [LogLine(Info, "Puppet has finished, bye!")];
      fs.entries := fs.entries - {tempConfigFile};
      exit := Status(exitCode);
    }

    /** The options array of run_installation: the fixed six, then the optional ones pushed. */
    static method BuildPuppetOptions(noop: bool, profile: bool) returns (options: seq<string>)
      ensures options == PuppetOptions(noop, profile)
    {
      options := FixedPuppetOptions;
      if noop {
        options := options + ["--noop"];
      }
      if profile {
        options := options + ["--profile"];
      }
    }

    /** The map over the app options' switches followed by `flatten!`. */
    static method FlattenAllowedSwitches(appOptions: seq<seq<string>>) returns (allowed: seq<string>)
      ensures allowed == AllowedSwitches(appOptions)
    {
      allowed := [];
      var i := 0;
      while i < |appOptions|
        invariant 0 <= i <= |appOptions|
        invariant allowed == AllowedSwitches(appOptions[..i])
      {
        var switches := appOptions[i];
        var j := 0;
        while j < |switches|
          invariant 0 <= j <= |switches|
          invariant allowed == AllowedSwitches(appOptions[..i]) + ExpandSwitches(switches[..j])
        {
          ExpandStep(switches, j);
          allowed := allowed + ExpandSwitch(switches[j]);
          j := j + 1;
        }
        assert switches[..j] == switches;
        AllowedStep(appOptions, i);
        i := i + 1;
      }
      assert appOptions[..i] == appOptions;
    }

    /**
     * clamp_app_arguments: flatten the app options' switches, `[no-]` ones expanded, into
     * the allowed list, then keep the arguments the select block accepts.
     */
    method ClampAppArguments(appOptions: seq<seq<string>>, argv: seq<string>) returns (kept: seq<string>)
      modifies this`allowedAppArguments
      ensures allowedAppArguments == AllowedSwitches(appOptions)
      ensures kept == SelectMasked(argv, AcceptMask(allowedAppArguments, argv))
    {
      var allowed := FlattenAllowedSwitches(appOptions);
      allowedAppArguments := allowed;

      kept := [];
      var lastWasAccepted := false;
      var k := 0;
      while k < |argv|
        invariant 0 <= k <= |argv|
        invariant kept == SelectMasked(argv[..k], AcceptMask(allowed, argv[..k]))
        invariant lastWasAccepted == (k > 0 && AcceptMask(allowed, argv[..k])[k - 1])
      {
        lastWasAccepted := IsAllowedAttributeName(allowed, argv[k]) || (lastWasAccepted && IsValue(argv[k]));
        if lastWasAccepted {
          kept := kept + [argv[k]];
        }
        assert argv[..k + 1][..k] == argv[..k];
        k := k + 1;
      }
      assert argv[..k] == argv;
    }
  }

  // ---------------------------------------------------------------------------------
  // Stored answers and colours
  // ---------------------------------------------------------------------------------

  /** A module as store_params sees it. */
  datatype ModuleConfig<P> = ModuleConfig(identifier: string, enabled: bool, paramsHash: P)

  /** A module's answer: its parameter hash when enabled, `false` otherwise. */
  datatype StoredModule<P> = Params(hash: P) | Disabled

  /** The hash store_params builds; for a repeated identifier the last module wins, as in Hash[]. */
  function StoreParams<P>(modules: seq<ModuleConfig<P>>): (data: map<string, StoredModule<P>>)
    ensures data.Keys == set m | m in modules :: m.identifier
    decreases |modules|
  {
    if modules == [] then map[]
    else
      var init := modules[..|modules| - 1];
      var last := modules[|modules| - 1];
      assert modules == init + [last];
      StoreParams(init)[last.identifier := if last.enabled then Params(last.paramsHash) else Disabled]
  }

  /** A module's stored answer is its own, unless a later module has the same identifier. */
  lemma {:induction false} StoredAnswerOfModule<P>(modules: seq<ModuleConfig<P>>, i: nat)
    requires i < |modules|
    requires forall j :: i < j < |modules| ==> modules[j].identifier != modules[i].identifier
    ensures StoreParams(modules)[modules[i].identifier] ==
      if modules[i].enabled then Params(modules[i].paramsHash) else Disabled
    decreases |modules|
  {
    if i < |modules| - 1 {
      var init := modules[..|modules| - 1];
      StoredAnswerOfModule(init, i);
    }
  }

  /**
   * use_colors?: the loaded configuration's setting; without a configuration, `--no-colors`
   * gives false, otherwise `--colors` gives true, otherwise nil.
   */
  function UseColors(configColors: Option<Option<bool>>, argv: seq<string>): (colors: Option<bool>)
    ensures configColors.Some? ==> colors == configColors.value
    ensures configColors.None? ==> (colors == Some(false) <==> "--no-colors" in argv)
    ensures configColors.None? ==> (colors == Some(true) <==> "--no-colors" !in argv && "--colors" in argv)
    ensures configColors.None? ==> (colors == None <==> "--no-colors" !in argv && "--colors" !in argv)
  {
    match configColors
    case Some(setting) => setting
    case None =>
      var colors := if "--no-colors" in argv then Some(false) else None;
      if colors.None? then (if "--colors" in argv then Some(true) else None) else colors
  }
}
