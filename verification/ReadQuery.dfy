/** The fixed inspection commands of read.query (agent/read_query.go): how parameters become an argument
    vector or a GitHub path, and a decoder that shows nothing of the query is lost or confused on the way. */
module ReadQuery {
  import opened Text
  import opened Wrappers
  import D = Decimal

  datatype Operation =
    | GitStatus
    | GitDiff
    | GitLog
    | DockerPs
    | DockerInspect
    | DockerLogs
    | SystemdStatus
    | SystemdUnits
    | JournalQuery
    | TmuxSessions
    | TmuxPanes
    | TmuxCapture
    | GitHubRepo
    | GitHubIssue
    | GitHubPull
    | Unsupported

  datatype Params = Params(
    operation: Operation,
    repositoryPath: string,
    pathspec: string,
    staged: bool,
    limit: int,
    includeAll: bool,
    container: string,
    tail: int,
    since: string,
    unit: string,
    session: string,
    paneID: string,
    lines: int,
    owner: string,
    repository: string,
    number: int)

  /** What the code asks of the system: the absolute path of an existing directory, durations parsed to
      nanoseconds and printed, and the journal's time stamps checked against the clock and printed. */
  datatype Env = Env(
    directory: string -> Option<string>,
    parseDuration: string -> Option<int>,
    durationText: int -> string,
    journalTime: string -> Option<string>)

  datatype Command = Command(name: string, args: seq<string>, dir: string)

  // ----- validation -----

  const MaxPathLength: nat := 4096

  predicate HasNul(s: string) {
    exists i :: 0 <= i < |s| && s[i] == '\0'
  }

  function ValidateDirectory(env: Env, path: string): Option<string> {
    if path == "" || |path| > MaxPathLength || HasNul(path) then None else env.directory(path)
  }

  predicate ValidPathspec(s: string) {
    |s| <= MaxPathLength && !HasNul(s)
  }

  function BoundedInteger(value: int, default: nat, max: nat): (r: Option<nat>)
    requires 1 <= default <= max
    ensures r.Some? <==> 0 <= value <= max
    ensures r.Some? ==> 1 <= r.value <= max
  {
    if value == 0 then Some(default) else if value < 1 || value > max then None else Some(value)
  }

  const HourNanos: int := 3_600_000_000_000

  function BoundedDuration(env: Env, value: string): Option<string> {
    if value == "" then Some(env.durationText(HourNanos))
    else
      var d := env.parseDuration(value);
      if d.None? || d.value <= 0 || d.value > 7 * 24 * HourNanos then None else Some(env.durationText(d.value))
  }

  predicate IsAlnum(c: char) {
    'A' <= c <= 'Z' || 'a' <= c <= 'z' || '0' <= c <= '9'
  }

  predicate Matches(s: string, min: nat, max: nat, first: char -> bool, rest: char -> bool) {
    min <= |s| <= max && (s != "" ==> first(s[0])) && forall i :: 0 < i < |s| ==> rest(s[i])
  }

  predicate IsUnit(s: string) {
    Matches(s, 1, 255, c => IsAlnum(c) || c == '_', c => IsAlnum(c) || c in "_.:@-")
  }

  predicate IsContainer(s: string) {
    Matches(s, 1, 128, c => IsAlnum(c), c => IsAlnum(c) || c in "_.-")
  }

  predicate IsSession(s: string) {
    Matches(s, 1, 128, c => IsAlnum(c) || c == '_', c => IsAlnum(c) || c in "_.-")
  }

  predicate IsPane(s: string) {
    Matches(s, 2, 21, c => c == '%', c => D.IsDigit(c))
  }

  predicate IsOwner(s: string) {
    Matches(s, 1, 39, c => IsAlnum(c), c => IsAlnum(c) || c == '-') && IsAlnum(s[|s| - 1])
  }

  predicate IsRepository(s: string) {
    Matches(s, 1, 100, c => IsAlnum(c) || c in "_.-", c => IsAlnum(c) || c in "_.-") && s != "." && s != ".."
  }

  // ----- building -----

  const Fields := "{{.ID}}\\t{{.Names}}\\t{{.Image}}\\t{{.Status}}\\t{{.Ports}}"
  const InspectFields :=
    "{{.Id}}\\t{{.Name}}\\t{{.Config.Image}}\\t{{.State.Status}}\\t{{.State.Running}}\\t{{.State.StartedAt}}"
  const UnitProperties :=
    "--property=Id,Description,LoadState,ActiveState,SubState,MainPID,ExecMainStatus,ActiveEnterTimestamp"
  const SessionFields := "#{session_id}\\t#{session_name}\\t#{session_windows}\\t#{session_attached}"
  const PaneFields := "#{pane_id}\\t#{window_name}\\t#{pane_current_command}\\t#{pane_current_path}"

  function GitPrefix(repo: string): seq<string> {
    ["--no-optional-locks", "-C", repo, "-c", "core.fsmonitor=false", "--no-pager"]
  }

  const StatusArgs: seq<string> := ["status", "--short", "--branch", "--untracked-files=normal"]
  const DiffArgs: seq<string> := ["diff", "--no-ext-diff", "--no-textconv"]
  const LogArgs: seq<string> :=
    ["log", "--no-color", "--no-decorate", "--no-show-signature", "--format=%h%x09%ad%x09%s", "--date=short", "-n"]

  function Optional(present: bool, arg: string): seq<string> {
    if present then [arg] else []
  }

  /** The git branch of the switch: the directory first, then each operation's own checks. */
  function BuildGit(env: Env, p: Params): Option<Command>
    requires p.operation.GitStatus? || p.operation.GitDiff? || p.operation.GitLog?
  {
    match ValidateDirectory(env, p.repositoryPath)
    case None => None
    case Some(repo) =>
      match p.operation
      case GitStatus =>
        if p.pathspec != "" || p.staged then None
        else Some(Command("git", GitPrefix(repo) + StatusArgs, repo))
      case GitDiff =>
        if !ValidPathspec(p.pathspec) then None
        else Some(Command("git",
                          GitPrefix(repo) + DiffArgs + Optional(p.staged, "--cached") + ["--"]
                          + Optional(p.pathspec != "", p.pathspec),
                          repo))
      case GitLog =>
        var limit := BoundedInteger(p.limit, 20, 200);
        if limit.None? || !ValidPathspec(p.pathspec) then None
        else Some(Command("git",
                          GitPrefix(repo) + LogArgs + [D.Format(limit.value), "--"]
                          + Optional(p.pathspec != "", p.pathspec),
                          repo))
  }

  function BuildDocker(env: Env, p: Params): Option<Command>
    requires p.operation.DockerPs? || p.operation.DockerInspect? || p.operation.DockerLogs?
  {
    match p.operation
    case DockerPs =>
      var limit := BoundedInteger(p.limit, 100, 500);
      if limit.None? then None
      else Some(Command("docker",
                        ["ps", "--last", D.Format(limit.value), "--format", Fields] + Optional(p.includeAll, "--all"), ""))
    case DockerInspect =>
      if !IsContainer(p.container) then None
      else Some(Command("docker", ["inspect", "--format", InspectFields, p.container], ""))
    case DockerLogs =>
      var tail, since := BoundedInteger(p.tail, 100, 500), BoundedDuration(env, p.since);
      if !IsContainer(p.container) || tail.None? || since.None? then None
      else Some(Command("docker",
                        ["logs", "--tail", D.Format(tail.value), "--since", since.value, "--timestamps", p.container], ""))
  }

  function BuildSystemd(env: Env, p: Params): Option<Command>
    requires p.operation.SystemdStatus? || p.operation.SystemdUnits? || p.operation.JournalQuery?
  {
    match p.operation
    case SystemdStatus =>
      if !IsUnit(p.unit) then None
      else Some(Command("systemctl", ["--user", "show", "--no-pager", UnitProperties, p.unit], ""))
    case SystemdUnits =>
      Some(Command("systemctl",
                   ["--user", "list-units", "--type=service", "--all", "--plain", "--no-legend", "--no-pager"], ""))
    case JournalQuery =>
      var lines, since := BoundedInteger(p.lines, 100, 500), env.journalTime(p.since);
      if !IsUnit(p.unit) || lines.None? || since.None? then None
      else Some(Command("journalctl",
                        ["--user", "--unit", p.unit, "--since", since.value, "--lines", D.Format(lines.value),
                         "--output=short-iso", "--no-pager", "--quiet"], ""))
  }

  function BuildTmux(p: Params): Option<Command>
    requires p.operation.TmuxSessions? || p.operation.TmuxPanes? || p.operation.TmuxCapture?
  {
    match p.operation
    case TmuxSessions => Some(Command("tmux", ["-N", "list-sessions", "-F", SessionFields], ""))
    case TmuxPanes =>
      if !IsSession(p.session) then None
      else Some(Command("tmux", ["-N", "list-panes", "-s", "-t", p.session, "-F", PaneFields], ""))
    case TmuxCapture =>
      var lines := BoundedInteger(p.lines, 100, 500);
      if !IsPane(p.paneID) || lines.None? then None
      else Some(Command("tmux", ["-N", "capture-pane", "-p", "-J", "-t", p.paneID, "-S", "-" + D.Format(lines.value)], ""))
  }

  function Build(env: Env, p: Params): Option<Command> {
    match p.operation
    case GitStatus => BuildGit(env, p)
    case GitDiff => BuildGit(env, p)
    case GitLog => BuildGit(env, p)
    case DockerPs => BuildDocker(env, p)
    case DockerInspect => BuildDocker(env, p)
    case DockerLogs => BuildDocker(env, p)
    case SystemdStatus => BuildSystemd(env, p)
    case SystemdUnits => BuildSystemd(env, p)
    case JournalQuery => BuildSystemd(env, p)
    case TmuxSessions => BuildTmux(p)
    case TmuxPanes => BuildTmux(p)
    case TmuxCapture => BuildTmux(p)
    case GitHubRepo => None
    case GitHubIssue => None
    case GitHubPull => None
    case Unsupported => None
  }

  // ----- what a query is -----

  /** A query with its selectors normalised: defaults filled in, the directory absolute, times canonical. */
  datatype Query =
    | Status(repo: string)
    | Diff(repo: string, staged: bool, pathspec: string)
    | Log(repo: string, limit: nat, pathspec: string)
    | Ps(limit: nat, includeAll: bool)
    | Inspect(container: string)
    | Logs(container: string, tail: nat, since: string)
    | Show(unit: string)
    | Units
    | Journal(unit: string, since: string, lines: nat)
    | Sessions
    | Panes(session: string)
    | Capture(pane: string, lines: nat)
    | Repo(owner: string, repository: string)
    | Issue(owner: string, repository: string, number: nat)
    | Pull(owner: string, repository: string, number: nat)

  function OrDefault(value: int, default: nat): int {
    if value == 0 then default else value
  }

  /** A duration of more than nothing and at most a week; left out, an hour. */
  predicate IsDuration(env: Env, value: string) {
    value == "" ||
    (env.parseDuration(value).Some? && 0 < env.parseDuration(value).value <= 168 * 3_600_000_000_000)
  }

  function DurationOf(env: Env, value: string): int
    requires IsDuration(env, value)
  {
    if value == "" then 3_600_000_000_000 else env.parseDuration(value).value
  }

  /** The parameters name a query: each selector the operation uses is acceptable. */
  predicate Acceptable(env: Env, p: Params) {
    match p.operation
    case GitStatus => ValidateDirectory(env, p.repositoryPath).Some? && p.pathspec == "" && !p.staged
    case GitDiff => ValidateDirectory(env, p.repositoryPath).Some? && ValidPathspec(p.pathspec)
    case GitLog =>
      ValidateDirectory(env, p.repositoryPath).Some? && ValidPathspec(p.pathspec) && 0 <= p.limit <= 200
    case DockerPs => 0 <= p.limit <= 500
    case DockerInspect => IsContainer(p.container)
    case DockerLogs => IsContainer(p.container) && 0 <= p.tail <= 500 && IsDuration(env, p.since)
    case SystemdStatus => IsUnit(p.unit)
    case SystemdUnits => true
    case JournalQuery => IsUnit(p.unit) && 0 <= p.lines <= 500 && env.journalTime(p.since).Some?
    case TmuxSessions => true
    case TmuxPanes => IsSession(p.session)
    case TmuxCapture => IsPane(p.paneID) && 0 <= p.lines <= 500
    case GitHubRepo => false
    case GitHubIssue => false
    case GitHubPull => false
    case Unsupported => false
  }

  function Meaning(env: Env, p: Params): Query
    requires Acceptable(env, p)
  {
    match p.operation
    case GitStatus => Status(env.directory(p.repositoryPath).value)
    case GitDiff => Diff(env.directory(p.repositoryPath).value, p.staged, p.pathspec)
    case GitLog => Log(env.directory(p.repositoryPath).value, OrDefault(p.limit, 20), p.pathspec)
    case DockerPs => Ps(OrDefault(p.limit, 100), p.includeAll)
    case DockerInspect => Inspect(p.container)
    case DockerLogs => Logs(p.container, OrDefault(p.tail, 100), env.durationText(DurationOf(env, p.since)))
    case SystemdStatus => Show(p.unit)
    case SystemdUnits => Units
    case JournalQuery => Journal(p.unit, env.journalTime(p.since).value, OrDefault(p.lines, 100))
    case TmuxSessions => Sessions
    case TmuxPanes => Panes(p.session)
    case TmuxCapture => Capture(p.paneID, OrDefault(p.lines, 100))
  }

  predicate InBounds(q: Query) {
    match q
    case Log(_, limit, _) => 1 <= limit <= 200
    case Ps(limit, _) => 1 <= limit <= 500
    case Logs(_, tail, _) => 1 <= tail <= 500
    case Journal(_, _, lines) => 1 <= lines <= 500
    case Capture(_, lines) => 1 <= lines <= 500
    case Issue(_, _, number) => 1 <= number
    case Pull(_, _, number) => 1 <= number
    case _ => true
  }

  // ----- decoding -----

  /** The end of a git command: the separator and at most one pathspec. */
  function DecodePathspec(args: seq<string>): Option<string> {
    if args == ["--"] then Some("")
    else if |args| == 2 && args[0] == "--" && args[1] != "" then Some(args[1])
    else None
  }

  function DecodeDiff(dir: string, args: seq<string>): Option<Query> {
    var staged := args != [] && args[0] == "--cached";
    match DecodePathspec(if staged then args[1..] else args)
    case None => None
    case Some(pathspec) => Some(Diff(dir, staged, pathspec))
  }

  function DecodeLog(dir: string, args: seq<string>): Option<Query> {
    if args == [] || D.Parse(args[0]).None? then None
    else
      match DecodePathspec(args[1..])
      case None => None
      case Some(pathspec) => Some(Log(dir, D.Parse(args[0]).value, pathspec))
  }

  /** What follows the options common to all git commands. */
  function DecodeGitArgs(dir: string, args: seq<string>): Option<Query> {
    if args == StatusArgs then Some(Status(dir))
    else if DiffArgs <= args then DecodeDiff(dir, args[|DiffArgs|..])
    else if LogArgs <= args then DecodeLog(dir, args[|LogArgs|..])
    else None
  }

  function DecodeGit(c: Command): Option<Query> {
    if GitPrefix(c.dir) <= c.args then DecodeGitArgs(c.dir, c.args[|GitPrefix(c.dir)|..]) else None
  }

  /** Every word but the selectors has to be there, in its place. */
  function DecodeDocker(args: seq<string>): Option<Query> {
    if IsPs(args) then Some(Ps(D.Parse(args[2]).value, |args| == 6))
    else if |args| == 4 && args[0] == "inspect" && args[1] == "--format" && args[2] == InspectFields then
      Some(Inspect(args[3]))
    else if IsLogs(args) then Some(Logs(args[6], D.Parse(args[2]).value, args[4]))
    else None
  }

  predicate IsPs(args: seq<string>) {
    && 5 <= |args| <= 6 && args[0] == "ps" && args[1] == "--last" && D.Parse(args[2]).Some?
    && args[3] == "--format" && args[4] == Fields && (|args| == 6 ==> args[5] == "--all")
  }

  predicate IsLogs(args: seq<string>) {
    && |args| == 7 && args[0] == "logs" && args[1] == "--tail" && D.Parse(args[2]).Some?
    && args[3] == "--since" && args[5] == "--timestamps"
  }

  function DecodeSystemctl(args: seq<string>): Option<Query> {
    if |args| == 5 && args[0] == "--user" && args[1] == "show" && args[2] == "--no-pager" && args[3] == UnitProperties then
      Some(Show(args[4]))
    else if args == ["--user", "list-units", "--type=service", "--all", "--plain", "--no-legend", "--no-pager"] then
      Some(Units)
    else None
  }

  function DecodeJournalctl(args: seq<string>): Option<Query> {
    if && |args| == 10 && args[0] == "--user" && args[1] == "--unit" && args[3] == "--since" && args[5] == "--lines"
       && D.Parse(args[6]).Some? && args[7] == "--output=short-iso" && args[8] == "--no-pager" && args[9] == "--quiet"
    then Some(Journal(args[2], args[4], D.Parse(args[6]).value))
    else None
  }

  function DecodeTmux(args: seq<string>): Option<Query> {
    if args == ["-N", "list-sessions", "-F", SessionFields] then Some(Sessions)
    else if && |args| == 7 && args[0] == "-N" && args[1] == "list-panes" && args[2] == "-s" && args[3] == "-t"
            && args[5] == "-F" && args[6] == PaneFields
    then Some(Panes(args[4]))
    else if IsCapture(args) then Some(Capture(args[5], D.Parse(args[7][1..]).value))
    else None
  }

  predicate IsCapture(args: seq<string>) {
    && |args| == 8 && args[0] == "-N" && args[1] == "capture-pane" && args[2] == "-p" && args[3] == "-J"
    && args[4] == "-t" && args[6] == "-S" && args[7] != "" && args[7][0] == '-' && D.Parse(args[7][1..]).Some?
  }

  /** Reads a query off a command alone. */
  function Decode(c: Command): Option<Query> {
    if c.name == "git" then DecodeGit(c)
    else if c.dir != "" then None
    else if c.name == "docker" then DecodeDocker(c.args)
    else if c.name == "systemctl" then DecodeSystemctl(c.args)
    else if c.name == "journalctl" then DecodeJournalctl(c.args)
    else if c.name == "tmux" then DecodeTmux(c.args)
    else None
  }

  lemma PathspecDecodes(pathspec: string)
    ensures DecodePathspec(["--"] + Optional(pathspec != "", pathspec)) == Some(pathspec)
  {
  }

  lemma AfterPrefix<T>(prefix: seq<T>, rest: seq<T>)
    ensures prefix <= prefix + rest && (prefix + rest)[|prefix|..] == rest
  {
  }

  lemma PrefixDecodes(repo: string, args: seq<string>)
    ensures DecodeGit(Command("git", GitPrefix(repo) + args, repo)) == DecodeGitArgs(repo, args)
  {
    hide DecodeGitArgs, GitPrefix;
    AfterPrefix(GitPrefix(repo), args);
  }

  lemma StatusDecodes(repo: string)
    ensures DecodeGit(Command("git", GitPrefix(repo) + StatusArgs, repo)) == Some(Status(repo))
  {
    PrefixDecodes(repo, StatusArgs);
  }

  lemma SubcommandsDiffer(tail: seq<string>)
    ensures DiffArgs + tail != StatusArgs && LogArgs + tail != StatusArgs && !(DiffArgs <= LogArgs + tail)
  {
    assert StatusArgs[0] == "status" && |"status"| == 6;
    assert (DiffArgs + tail)[0] == "diff" && |"diff"| == 4;
    assert (LogArgs + tail)[0] == "log" && |"log"| == 3;
  }

  lemma DiffTailDecodes(repo: string, staged: bool, pathspec: string)
    ensures DecodeDiff(repo, Optional(staged, "--cached") + (["--"] + Optional(pathspec != "", pathspec)))
         == Some(Diff(repo, staged, pathspec))
  {
    var end := ["--"] + Optional(pathspec != "", pathspec);
    PathspecDecodes(pathspec);
    assert |"--"| != |"--cached"|;
    assert [] + end == end && (["--cached"] + end)[1..] == end;
    hide DecodePathspec;
  }

  lemma DiffDecodes(repo: string, staged: bool, pathspec: string)
    ensures var tail := Optional(staged, "--cached") + (["--"] + Optional(pathspec != "", pathspec));
            DecodeGit(Command("git", GitPrefix(repo) + (DiffArgs + tail), repo)) == Some(Diff(repo, staged, pathspec))
  {
    var tail := Optional(staged, "--cached") + (["--"] + Optional(pathspec != "", pathspec));
    DiffTailDecodes(repo, staged, pathspec);
    SubcommandsDiffer(tail);
    AfterPrefix(DiffArgs, tail);
    PrefixDecodes(repo, DiffArgs + tail);
    hide DecodeGit, DecodeDiff, DecodeLog, GitPrefix;
  }

  lemma LogDecodes(repo: string, limit: nat, pathspec: string)
    ensures var tail := [D.Format(limit)] + (["--"] + Optional(pathspec != "", pathspec));
            DecodeGit(Command("git", GitPrefix(repo) + (LogArgs + tail), repo)) == Some(Log(repo, limit, pathspec))
  {
    var end := ["--"] + Optional(pathspec != "", pathspec);
    var tail := [D.Format(limit)] + end;
    hide DecodeGit, DecodeDiff, DecodePathspec, GitPrefix, D.Format, D.Parse;
    D.FormatParses(limit);
    PathspecDecodes(pathspec);
    assert tail[1..] == end;
    assert DecodeLog(repo, tail) == Some(Log(repo, limit, pathspec));
    SubcommandsDiffer(tail);
    AfterPrefix(LogArgs, tail);
    PrefixDecodes(repo, LogArgs + tail);
  }

  lemma Regroup<T>(a: seq<T>, b: seq<T>, c: seq<T>, d: seq<T>, e: seq<T>)
    ensures a + b + c + d + e == a + (b + (c + (d + e)))
    ensures a + b + (c + d) + e == a + (b + (c + (d + e)))
  {
  }

  lemma GitDecodes(env: Env, p: Params)
    requires p.operation.GitStatus? || p.operation.GitDiff? || p.operation.GitLog?
    ensures BuildGit(env, p).Some? <==> Acceptable(env, p)
    ensures Acceptable(env, p) ==>
              BuildGit(env, p).value.name == "git" && DecodeGit(BuildGit(env, p).value) == Some(Meaning(env, p))
  {
    hide DecodeGit, GitPrefix, D.Format, HasNul, Optional;
    if Acceptable(env, p) {
      var repo := env.directory(p.repositoryPath).value;
      var path := Optional(p.pathspec != "", p.pathspec);
      if p.operation.GitStatus? {
        StatusDecodes(repo);
      } else if p.operation.GitDiff? {
        DiffDecodes(repo, p.staged, p.pathspec);
        Regroup(GitPrefix(repo), DiffArgs, Optional(p.staged, "--cached"), ["--"], path);
      } else {
        var limit := OrDefault(p.limit, 20);
        LogDecodes(repo, limit, p.pathspec);
        Regroup(GitPrefix(repo), LogArgs, [D.Format(limit)], ["--"], path);
        assert [D.Format(limit), "--"] == [D.Format(limit)] + ["--"];
      }
    }
  }

  lemma DurationIsBounded(env: Env, value: string)
    ensures BoundedDuration(env, value) ==
            if IsDuration(env, value) then Some(env.durationText(DurationOf(env, value))) else None
  {
  }

  lemma DockerDecodes(env: Env, p: Params)
    requires p.operation.DockerPs? || p.operation.DockerInspect? || p.operation.DockerLogs?
    ensures BuildDocker(env, p).Some? <==> Acceptable(env, p)
    ensures Acceptable(env, p) ==>
              var c := BuildDocker(env, p).value;
              c.name == "docker" && c.dir == "" && DecodeDocker(c.args) == Some(Meaning(env, p))
  {
    DurationIsBounded(env, p.since);
    hide BoundedDuration, IsDuration, DurationOf, Matches, D.Format, D.Parse;
    if Acceptable(env, p) {
      if p.operation.DockerPs? { D.FormatParses(OrDefault(p.limit, 100)); }
      if p.operation.DockerLogs? { D.FormatParses(OrDefault(p.tail, 100)); }
    }
    assert |"ps"| == 2 && |"inspect"| == 7 && |"logs"| == 4;
  }

  lemma SystemdDecodes(env: Env, p: Params)
    requires p.operation.SystemdStatus? || p.operation.SystemdUnits? || p.operation.JournalQuery?
    ensures BuildSystemd(env, p).Some? <==> Acceptable(env, p)
    ensures Acceptable(env, p) ==>
              var c := BuildSystemd(env, p).value;
              && c.dir == "" && (c.name == if p.operation.JournalQuery? then "journalctl" else "systemctl")
              && (if p.operation.JournalQuery? then DecodeJournalctl(c.args) else DecodeSystemctl(c.args))
                 == Some(Meaning(env, p))
  {
    hide Matches, D.Format, D.Parse;
    if p.operation.JournalQuery? && Acceptable(env, p) {
      D.FormatParses(OrDefault(p.lines, 100));
    }
  }

  lemma TmuxDecodes(env: Env, p: Params)
    requires p.operation.TmuxSessions? || p.operation.TmuxPanes? || p.operation.TmuxCapture?
    ensures BuildTmux(p).Some? <==> Acceptable(env, p)
    ensures Acceptable(env, p) ==>
              var c := BuildTmux(p).value;
              c.name == "tmux" && c.dir == "" && DecodeTmux(c.args) == Some(Meaning(env, p))
  {
    hide Matches, D.Format, D.Parse;
    if p.operation.TmuxCapture? && Acceptable(env, p) {
      var n := OrDefault(p.lines, 100);
      D.FormatParses(n);
      assert ("-" + D.Format(n))[1..] == D.Format(n);
    }
    assert |"list-sessions"| == 13 && |"list-panes"| == 10 && |"capture-pane"| == 12;
  }

  /** A command is built exactly for acceptable parameters, and the query can be read back off it: all twelve
      operations are told apart, and every selector is recovered. */
  lemma CommandDeterminesQuery(env: Env, p: Params)
    ensures Build(env, p).Some? <==> Acceptable(env, p)
    ensures Acceptable(env, p) ==> Decode(Build(env, p).value) == Some(Meaning(env, p)) && InBounds(Meaning(env, p))
  {
    hide DecodeGit, DecodeDocker, DecodeTmux, DecodeSystemctl, DecodeJournalctl, GitPrefix, D.Format, D.Parse, HasNul;
    hide Matches, BoundedDuration, IsDuration, DurationOf;
    assert |"git"| == 3 && |"docker"| == 6 && |"systemctl"| == 9 && |"journalctl"| == 10 && |"tmux"| == 4;
    match p.operation
    case GitStatus => GitDecodes(env, p);
    case GitDiff => GitDecodes(env, p);
    case GitLog => GitDecodes(env, p);
    case DockerPs => DockerDecodes(env, p);
    case DockerInspect => DockerDecodes(env, p);
    case DockerLogs => DockerDecodes(env, p);
    case SystemdStatus => SystemdDecodes(env, p);
    case SystemdUnits => SystemdDecodes(env, p);
    case JournalQuery => SystemdDecodes(env, p);
    case TmuxSessions => TmuxDecodes(env, p);
    case TmuxPanes => TmuxDecodes(env, p);
    case TmuxCapture => TmuxDecodes(env, p);
    case GitHubRepo =>
    case GitHubIssue =>
    case GitHubPull =>
    case Unsupported =>
  }

  /** Two requests that run the same command asked the same thing. */
  lemma SameCommandSameQuery(env: Env, p: Params, q: Params)
    requires Build(env, p).Some? && Build(env, p) == Build(env, q)
    ensures Acceptable(env, p) && Acceptable(env, q) && Meaning(env, p) == Meaning(env, q)
  {
    CommandDeterminesQuery(env, p);
    CommandDeterminesQuery(env, q);
  }

  // ----- options -----

  /** The value is the word after the option. */
  ghost predicate HasOption(args: seq<string>, option: string, value: string) {
    exists i :: 0 <= i && i + 1 < |args| && args[i] == option && args[i + 1] == value
  }

  lemma OptionAt(args: seq<string>, i: nat, option: string, value: string)
    requires i + 1 < |args| && args[i] == option && args[i + 1] == value
    ensures HasOption(args, option, value)
  {
  }

  /** Each selector of a query stands after its own option, or last where it has none. */
  ghost predicate SelectorsStand(q: Query, args: seq<string>) {
    args != [] &&
    match q
    case Status(repo) => HasOption(args, "-C", repo)
    case Diff(repo, staged, pathspec) =>
      && HasOption(args, "-C", repo)
      && (if pathspec == "" then args[|args| - 1] == "--" else HasOption(args, "--", pathspec))
      && (staged ==> HasOption(args, "--cached", "--"))
    case Log(repo, limit, pathspec) =>
      && HasOption(args, "-C", repo) && HasOption(args, "-n", D.Format(limit))
      && (if pathspec == "" then args[|args| - 1] == "--" else HasOption(args, "--", pathspec))
    case Ps(limit, includeAll) =>
      HasOption(args, "--last", D.Format(limit)) && (includeAll ==> args[|args| - 1] == "--all")
    case Inspect(container) => args[|args| - 1] == container
    case Logs(container, tail, since) =>
      HasOption(args, "--tail", D.Format(tail)) && HasOption(args, "--since", since) && args[|args| - 1] == container
    case Show(unit) => args[|args| - 1] == unit
    case Journal(unit, since, lines) =>
      HasOption(args, "--unit", unit) && HasOption(args, "--since", since) && HasOption(args, "--lines", D.Format(lines))
    case Panes(session) => HasOption(args, "-t", session)
    case Capture(pane, lines) => HasOption(args, "-t", pane) && HasOption(args, "-S", "-" + D.Format(lines))
    case _ => true
  }

  lemma DiffStands(repo: string, staged: bool, pathspec: string)
    ensures SelectorsStand(Diff(repo, staged, pathspec), GitPrefix(repo) + DiffArgs + Optional(staged, "--cached") + ["--"]
                                                         + Optional(pathspec != "", pathspec))
  {
    hide HasOption;
    var args := GitPrefix(repo) + DiffArgs + Optional(staged, "--cached") + ["--"] + Optional(pathspec != "", pathspec);
    assert args[1] == "-C" && args[2] == repo;
    OptionAt(args, 1, "-C", repo);
    if staged {
      assert args[9] == "--cached" && args[10] == "--";
      OptionAt(args, 9, "--cached", "--");
    }
    if pathspec != "" {
      assert args[|args| - 2] == "--" && args[|args| - 1] == pathspec;
      OptionAt(args, |args| - 2, "--", pathspec);
    }
  }

  lemma LogStands(repo: string, limit: nat, pathspec: string)
    ensures SelectorsStand(Log(repo, limit, pathspec), GitPrefix(repo) + LogArgs + [D.Format(limit), "--"]
                                                       + Optional(pathspec != "", pathspec))
  {
    hide HasOption, D.Format;
    var args := GitPrefix(repo) + LogArgs + [D.Format(limit), "--"] + Optional(pathspec != "", pathspec);
    assert args[1] == "-C" && args[2] == repo;
    OptionAt(args, 1, "-C", repo);
    assert args[12] == "-n" && args[13] == D.Format(limit);
    OptionAt(args, 12, "-n", D.Format(limit));
    if pathspec != "" {
      assert args[|args| - 2] == "--" && args[|args| - 1] == pathspec;
      OptionAt(args, |args| - 2, "--", pathspec);
    }
  }

  lemma StatusStands(repo: string)
    ensures SelectorsStand(Status(repo), GitPrefix(repo) + StatusArgs)
  {
    OptionAt(GitPrefix(repo) + StatusArgs, 1, "-C", repo);
  }

  lemma GitSelectorsStand(env: Env, p: Params)
    requires p.operation.GitStatus? || p.operation.GitDiff? || p.operation.GitLog?
    requires Acceptable(env, p)
    ensures BuildGit(env, p).Some? && SelectorsStand(Meaning(env, p), BuildGit(env, p).value.args)
  {
    hide SelectorsStand, GitPrefix, D.Format, HasNul, Optional;
    var repo := env.directory(p.repositoryPath).value;
    StatusStands(repo);
    DiffStands(repo, p.staged, p.pathspec);
    LogStands(repo, if p.operation.GitLog? then OrDefault(p.limit, 20) else 1, p.pathspec);
  }

  lemma DockerSelectorsStand(env: Env, p: Params)
    requires p.operation.DockerPs? || p.operation.DockerInspect? || p.operation.DockerLogs?
    requires Acceptable(env, p)
    ensures BuildDocker(env, p).Some? && SelectorsStand(Meaning(env, p), BuildDocker(env, p).value.args)
  {
    DurationIsBounded(env, p.since);
    hide D.Format, HasOption, Matches, BoundedDuration, IsDuration, DurationOf;
    var args := BuildDocker(env, p).value.args;
    if p.operation.DockerPs? {
      OptionAt(args, 1, "--last", D.Format(OrDefault(p.limit, 100)));
    } else if p.operation.DockerLogs? {
      OptionAt(args, 1, "--tail", D.Format(OrDefault(p.tail, 100)));
      OptionAt(args, 3, "--since", args[4]);
    }
  }

  lemma SystemdSelectorsStand(env: Env, p: Params)
    requires p.operation.SystemdStatus? || p.operation.SystemdUnits? || p.operation.JournalQuery?
    requires Acceptable(env, p)
    ensures BuildSystemd(env, p).Some? && SelectorsStand(Meaning(env, p), BuildSystemd(env, p).value.args)
  {
    hide D.Format, HasOption, IsUnit;
    if p.operation.JournalQuery? {
      JournalSelectorsStand(env, p);
    }
    hide HasOption;
  }

  lemma JournalSelectorsStand(env: Env, p: Params)
    requires p.operation.JournalQuery? && Acceptable(env, p)
    ensures BuildSystemd(env, p).Some? && SelectorsStand(Meaning(env, p), BuildSystemd(env, p).value.args)
  {
    hide D.Format, HasOption, IsUnit;
    var args := BuildSystemd(env, p).value.args;
    OptionAt(args, 1, "--unit", p.unit);
    OptionAt(args, 3, "--since", args[4]);
    OptionAt(args, 5, "--lines", D.Format(OrDefault(p.lines, 100)));
  }

  lemma TmuxSelectorsStand(env: Env, p: Params)
    requires p.operation.TmuxSessions? || p.operation.TmuxPanes? || p.operation.TmuxCapture?
    requires Acceptable(env, p)
    ensures BuildTmux(p).Some? && SelectorsStand(Meaning(env, p), BuildTmux(p).value.args)
  {
    hide D.Format, HasOption, Matches;
    var args := BuildTmux(p).value.args;
    if p.operation.TmuxPanes? {
      OptionAt(args, 3, "-t", p.session);
    } else if p.operation.TmuxCapture? {
      OptionAt(args, 4, "-t", p.paneID);
      OptionAt(args, 6, "-S", "-" + D.Format(OrDefault(p.lines, 100)));
    }
  }

  /** In every command that is built, each selector is the value of its own option. */
  lemma SelectorsHaveTheirOptions(env: Env, p: Params)
    requires Acceptable(env, p)
    ensures Build(env, p).Some? && SelectorsStand(Meaning(env, p), Build(env, p).value.args)
  {
    hide SelectorsStand, Meaning, BuildGit, BuildDocker, BuildSystemd, BuildTmux;
    match p.operation
    case GitStatus => GitSelectorsStand(env, p);
    case GitDiff => GitSelectorsStand(env, p);
    case GitLog => GitSelectorsStand(env, p);
    case DockerPs => DockerSelectorsStand(env, p);
    case DockerInspect => DockerSelectorsStand(env, p);
    case DockerLogs => DockerSelectorsStand(env, p);
    case SystemdStatus => SystemdSelectorsStand(env, p);
    case SystemdUnits => SystemdSelectorsStand(env, p);
    case JournalQuery => SystemdSelectorsStand(env, p);
    case TmuxSessions => TmuxSelectorsStand(env, p);
    case TmuxPanes => TmuxSelectorsStand(env, p);
    case TmuxCapture => TmuxSelectorsStand(env, p);
    case _ =>
  }

  /** The program and its subcommand. */
  function Subcommand(c: Command): (string, string) {
    if c.name == "git" && |c.args| > 6 then ("git", c.args[6])
    else if c.name == "docker" && |c.args| > 0 then ("docker", c.args[0])
    else if (c.name == "systemctl" || c.name == "tmux") && |c.args| > 1 then (c.name, c.args[1])
    else (c.name, "")
  }

  const Inspections: set<(string, string)> := {
    ("git", "status"), ("git", "diff"), ("git", "log"), ("docker", "ps"), ("docker", "inspect"), ("docker", "logs"),
    ("systemctl", "show"), ("systemctl", "list-units"), ("journalctl", ""),
    ("tmux", "list-sessions"), ("tmux", "list-panes"), ("tmux", "capture-pane")
  }

  /** Whatever the parameters, only an inspection is ever run; git takes no optional locks, starts no file system
      monitor, pager, external diff, text conversion or signature check, and the user's systemd is asked, not the
      system's. */
  lemma OnlyInspections(env: Env, p: Params)
    requires Build(env, p).Some?
    ensures var c := Build(env, p).value;
            && Subcommand(c) in Inspections
            && (c.name == "git" ==>
                  && |c.args| > 6 && c.args[0] == "--no-optional-locks" && c.args[3] == "-c"
                  && c.args[4] == "core.fsmonitor=false" && c.args[5] == "--no-pager")
            && (Subcommand(c) == ("git", "diff") ==>
                  |c.args| > 8 && c.args[7] == "--no-ext-diff" && c.args[8] == "--no-textconv")
            && (Subcommand(c) == ("git", "log") ==> "--no-show-signature" in c.args)
            && (c.name == "systemctl" || c.name == "journalctl" ==> |c.args| > 0 && c.args[0] == "--user")
  {
    hide Inspections;
    if p.operation.GitStatus? || p.operation.GitDiff? || p.operation.GitLog? {
      GitOnlyInspects(env, p);
    } else {
      OthersOnlyInspect(env, p);
    }
    hide BuildGit, BuildDocker, BuildSystemd, BuildTmux;
  }

  lemma GitOnlyInspects(env: Env, p: Params)
    requires p.operation.GitStatus? || p.operation.GitDiff? || p.operation.GitLog?
    requires Build(env, p).Some?
    ensures var c := Build(env, p).value;
            && Subcommand(c) in Inspections && c.name == "git"
            && |c.args| > 6 && c.args[0] == "--no-optional-locks" && c.args[3] == "-c"
            && c.args[4] == "core.fsmonitor=false" && c.args[5] == "--no-pager"
            && (Subcommand(c) == ("git", "diff") ==>
                  |c.args| > 8 && c.args[7] == "--no-ext-diff" && c.args[8] == "--no-textconv")
            && (Subcommand(c) == ("git", "log") ==> "--no-show-signature" in c.args)
  {
    hide D.Format, HasNul, BoundedInteger;
    var c := Build(env, p).value;
    if p.operation.GitLog? {
      assert c.args[9] == "--no-show-signature";
    }
    assert |"status"| == 6 && |"diff"| == 4 && |"log"| == 3;
  }

  lemma OthersOnlyInspect(env: Env, p: Params)
    requires !p.operation.GitStatus? && !p.operation.GitDiff? && !p.operation.GitLog?
    requires Build(env, p).Some?
    ensures var c := Build(env, p).value;
            && Subcommand(c) in Inspections && c.name != "git" && |c.args| > 0
            && (c.name == "systemctl" || c.name == "journalctl" ==> c.args[0] == "--user")
  {
    hide D.Format, IsUnit, IsContainer, IsSession, IsPane, BoundedDuration, BoundedInteger;
    assert |"git"| == 3 && |"docker"| == 6 && |"systemctl"| == 9 && |"journalctl"| == 10 && |"tmux"| == 4;
  }

  /** No accepted name can be taken for an option, and none holds anything but letters, digits and a few marks. */
  lemma NamesAreHarmless(s: string)
    requires IsUnit(s) || IsContainer(s) || IsSession(s) || IsPane(s) || IsOwner(s)
    ensures 1 <= |s| <= 255 && s[0] != '-'
    ensures forall i :: 0 <= i < |s| ==> IsAlnum(s[i]) || s[i] in "_.:@-%"
  {
  }

  /** The two free texts are bounded and hold no NUL, and git is only run in a directory that was asked for. */
  lemma GitTextsAreChecked(env: Env, p: Params)
    requires p.operation.GitStatus? || p.operation.GitDiff? || p.operation.GitLog?
    requires Build(env, p).Some?
    ensures 1 <= |p.repositoryPath| <= 4096 && forall i :: 0 <= i < |p.repositoryPath| ==> p.repositoryPath[i] != '\0'
    ensures |p.pathspec| <= 4096 && forall i :: 0 <= i < |p.pathspec| ==> p.pathspec[i] != '\0'
    ensures env.directory(p.repositoryPath) == Some(Build(env, p).value.dir)
  {
    hide D.Format, GitPrefix;
  }

  // ----- GitHub paths -----

  const HexDigits := "0123456789ABCDEF"

  /** Characters a path segment carries as they are. */
  predicate Unescaped(c: char) {
    IsAlnum(c) || c in "-_.~$&+=:@"
  }

  /** Percent-encoding of a path segment of ASCII text. */
  function PathEscape(s: string): string
    requires forall i :: 0 <= i < |s| ==> s[i] < '\U{0080}'
  {
    if s == "" then ""
    else
      (if Unescaped(s[0]) then [s[0]] else ['%', HexDigits[s[0] as int / 16], HexDigits[s[0] as int % 16]])
      + PathEscape(s[1..])
  }

  lemma {:induction false} EscapeKeeps(s: string)
    requires forall i :: 0 <= i < |s| ==> s[i] < '\U{0080}' && Unescaped(s[i])
    ensures PathEscape(s) == s
  {
    if s != "" {
      EscapeKeeps(s[1..]);
    }
  }

  predicate GitHubAcceptable(p: Params) {
    IsOwner(p.owner) && IsRepository(p.repository)
    && (p.operation.GitHubRepo? || ((p.operation.GitHubIssue? || p.operation.GitHubPull?) && p.number >= 1))
  }

  lemma SegmentIsPlain(p: Params)
    requires IsOwner(p.owner) && IsRepository(p.repository)
    ensures forall i :: 0 <= i < |p.owner| ==> Plain(p.owner[i])
    ensures forall i :: 0 <= i < |p.repository| ==> Plain(p.repository[i])
  {
  }

  predicate Plain(c: char) {
    c < '\U{0080}' && Unescaped(c) && c != '/'
  }

  function GitHubPath(p: Params): Option<string> {
    if !IsOwner(p.owner) || !IsRepository(p.repository) then None
    else
      SegmentIsPlain(p);
      var path := "/repos/" + PathEscape(p.owner) + "/" + PathEscape(p.repository);
      match p.operation
      case GitHubRepo => Some(path)
      case GitHubIssue => if p.number < 1 then None else Some(path + "/" + "issues" + "/" + D.Format(p.number))
      case GitHubPull => if p.number < 1 then None else Some(path + "/" + "pulls" + "/" + D.Format(p.number))
      case _ => None
  }

  function GitHubMeaning(p: Params): Query
    requires GitHubAcceptable(p)
  {
    match p.operation
    case GitHubRepo => Repo(p.owner, p.repository)
    case GitHubIssue => Issue(p.owner, p.repository, p.number)
    case GitHubPull => Pull(p.owner, p.repository, p.number)
  }

  function DecodePath(path: string): Option<Query> {
    var s := Split(path, '/');
    if |s| < 4 || s[0] != "" || s[1] != "repos" then None
    else if |s| == 4 then Some(Repo(s[2], s[3]))
    else if |s| == 6 && s[4] == "issues" && D.Parse(s[5]).Some? then Some(Issue(s[2], s[3], D.Parse(s[5]).value))
    else if |s| == 6 && s[4] == "pulls" && D.Parse(s[5]).Some? then Some(Pull(s[2], s[3], D.Parse(s[5]).value))
    else None
  }

  predicate NoSlash(s: string) {
    Without(s, '/')
  }

  lemma OwnerSegments(owner: string, repository: string)
    requires NoSlash(owner) && NoSlash(repository)
    ensures Split("/repos/" + owner + "/" + repository, '/') == ["", "repos", owner, repository]
  {
    SplitOne(owner, '/');
    SplitOne(repository, '/');
    SplitOne("repos", '/');
    SplitJoin("/repos/" + owner, repository, '/');
    SplitJoin("/repos", owner, '/');
    SplitJoin("", "repos", '/');
    hide Split;
    assert "/repos/" + owner == "/repos" + "/" + owner;
    assert "/repos" == "" + "/" + "repos";
  }

  lemma ItemSegments(path: string, resource: string, number: string)
    requires NoSlash(resource) && NoSlash(number)
    ensures Split(path + "/" + resource + "/" + number, '/') == Split(path, '/') + [resource, number]
  {
    SplitOne(resource, '/');
    SplitOne(number, '/');
    SplitJoin(path + "/" + resource, number, '/');
    SplitJoin(path, resource, '/');
  }

  lemma OwnerDecodes(owner: string, repository: string)
    requires NoSlash(owner) && NoSlash(repository)
    ensures DecodePath("/repos/" + owner + "/" + repository) == Some(Repo(owner, repository))
  {
    OwnerSegments(owner, repository);
  }

  lemma ItemDecodes(owner: string, repository: string, n: nat)
    requires NoSlash(owner) && NoSlash(repository)
    ensures var path := "/repos/" + owner + "/" + repository;
            && DecodePath(path + "/" + "issues" + "/" + D.Format(n)) == Some(Issue(owner, repository, n))
            && DecodePath(path + "/" + "pulls" + "/" + D.Format(n)) == Some(Pull(owner, repository, n))
  {
    var path := "/repos/" + owner + "/" + repository;
    D.FormatParses(n);
    OwnerSegments(owner, repository);
    ItemSegments(path, "issues", D.Format(n));
    ItemSegments(path, "pulls", D.Format(n));
    hide Split, D.Format, D.Parse;
    assert |"issues"| != |"pulls"|;
  }

  /** Escaping never changes an accepted name. */
  lemma PathText(p: Params)
    requires GitHubAcceptable(p)
    ensures var path := "/repos/" + p.owner + "/" + p.repository;
            GitHubPath(p) == Some(match p.operation
                                  case GitHubIssue => path + "/" + "issues" + "/" + D.Format(p.number)
                                  case GitHubPull => path + "/" + "pulls" + "/" + D.Format(p.number)
                                  case _ => path)
  {
    SegmentIsPlain(p);
    EscapeKeeps(p.owner);
    EscapeKeeps(p.repository);
    hide PathEscape, D.Format;
  }

  lemma NamesLeadNowhere(p: Params)
    requires GitHubPath(p).Some?
    ensures GitHubAcceptable(p)
    ensures p.owner != "" && p.owner != "." && p.owner != ".." && p.repository != ""
    ensures p.repository != "." && p.repository != ".."
    ensures NoSlash(p.owner) && NoSlash(p.repository)
  {
    SegmentIsPlain(p);
    hide PathEscape, D.Format;
  }

  /** A path has nothing in it that leads elsewhere: its parts are the fixed ones, the owner, the repository and a
      number, none of them empty, `.` or `..`. */
  lemma PathLeadsNowhereElse(p: Params)
    requires GitHubPath(p).Some?
    ensures var parts := Split(GitHubPath(p).value, '/');
            && (|parts| == 4 || |parts| == 6) && parts[0] == "" && parts[1] == "repos"
            && parts[2] == p.owner && parts[3] == p.repository
            && (|parts| == 6 ==> p.number >= 1 && parts[4] in ["issues", "pulls"] && parts[5] == D.Format(p.number))
            && forall i :: 1 <= i < |parts| ==> parts[i] != "" && parts[i] != "." && parts[i] != ".."
  {
    SegmentIsPlain(p);
    NamesLeadNowhere(p);
    PathText(p);
    OwnerSegments(p.owner, p.repository);
    if !p.operation.GitHubRepo? {
      var path, number := "/repos/" + p.owner + "/" + p.repository, D.Format(p.number);
      D.FormatParses(p.number);
      assert number != "" && D.IsDigit(number[0]) && NoSlash(number);
      ItemSegments(path, "issues", number);
      ItemSegments(path, "pulls", number);
    }
    assert |"."| == 1 && |".."| == 2 && |"repos"| == 5 && |"issues"| == 6 && |"pulls"| == 5;
    hide *;
  }

  /** A path is built exactly for acceptable parameters, and owner, repository, kind and number can be read
      back off it. */
  lemma PathDeterminesQuery(p: Params)
    ensures GitHubPath(p).Some? <==> GitHubAcceptable(p)
    ensures GitHubAcceptable(p) ==>
              DecodePath(GitHubPath(p).value) == Some(GitHubMeaning(p)) && InBounds(GitHubMeaning(p))
  {
    hide DecodePath, D.Format, PathEscape;
    if GitHubAcceptable(p) {
      SegmentIsPlain(p);
      PathText(p);
      OwnerDecodes(p.owner, p.repository);
      if !p.operation.GitHubRepo? {
        ItemDecodes(p.owner, p.repository, p.number);
      }
      hide GitHubPath, IsOwner, IsRepository;
    }
  }
}
