/** The job-submission script for the camera-scan plugin: it parses the
    comma-separated node and direction lists, assembles the job description
    (name, nodes, one plugin with its argument list, one science rule) and
    builds the `sesctl` edit and submit commands. Writing the YAML file and
    running the commands are effects; the environment, the clock stamp of a
    default name and the commands' exit statuses are parameters. */
module SubmitJob {
  import opened Wrappers
  import opened Text

  // ---------------------------------------------------------------------
  // Comma-separated lists

  /** No whitespace at either end: what `str.strip()` leaves unchanged. */
  predicate Stripped(s: string) {
    |s| == 0 || (!IsSpace(s[0]) && !IsSpace(s[|s| - 1]))
  }

  /** `[n.strip() for n in s.split(",")]`, used for both the nodes and the
      directions. */
  function ParseNodes(s: string): (r: seq<string>)
    ensures |r| == Count(s, ',') + 1
    ensures forall i :: 0 <= i < |r| ==> r[i] == Strip(Split(s, ',')[i])
  {
    var parts := Split(s, ',');
    seq(|parts|, i requires 0 <= i < |parts| => Strip(parts[i]))
  }

  /** Parsing a comma-joined list of stripped, comma-free names gives the
      list back; in particular `",".join(directions)` splits back into the
      directions. */
  lemma ParseNodesOfJoin(names: seq<string>)
    requires |names| >= 1
    requires forall i :: 0 <= i < |names| ==> ',' !in names[i] && Stripped(names[i])
    ensures ParseNodes(Join(names, ',')) == names
  {
    SplitJoin(names, ',');
  }

  /** Each entry is a field of the input with surrounding whitespace removed. */
  lemma ParseNodesTrims(s: string, i: nat)
    requires i < |ParseNodes(s)|
    ensures ',' !in ParseNodes(s)[i]
    ensures exists k :: TrimmedAt(Split(s, ',')[i], ParseNodes(s)[i], k)
  {
    var field := Split(s, ',')[i];
    var r := Strip(field);
    assert ParseNodes(s)[i] == r;
    StripTrims(field);
    var k :| TrimmedAt(field, r, k);
    assert ',' !in field;
  }

  // ---------------------------------------------------------------------
  // Reading an argument list

  /** The value of the first `flag value` pair in `args` from position
      `start` on, reading two entries at a time; a trailing lone switch such
      as `--dry-run` is not a pair. */
  function OptionValue(args: seq<string>, start: nat, flag: string): (r: Option<string>)
    decreases |args| - start
  {
    if start + 1 < |args| then
      if args[start] == flag then Some(args[start + 1])
      else OptionValue(args, start + 2, flag)
    else None
  }

  /** The pair read for `flag` is the one at `k` when `k` is reached two
      by two from `start` and no pair before it has that flag. */
  lemma {:induction false} OptionValueAt(args: seq<string>, start: nat, k: nat, flag: string)
    requires start <= k && (k - start) % 2 == 0 && k + 1 < |args| && args[k] == flag
    requires forall j :: start <= j < k && (j - start) % 2 == 0 ==> args[j] != flag
    ensures OptionValue(args, start, flag) == Some(args[k + 1])
    decreases k - start
  {
    if start < k {
      assert args[start] != flag;
      OptionValueAt(args, start + 2, k, flag);
    }
  }

  // ---------------------------------------------------------------------
  // The job description

  const Image: string := "registry.sagecontinuum.org/bhupendraraut/mobotix-scan:0.24.8.16"
  const DefaultPrefix: string := "sdl-mobo-"

  datatype Plugin = Plugin(name: string, args: seq<string>, image: string)

  datatype Job = Job(
    name: string,
    nodes: map<string, bool>,
    plugins: seq<Plugin>,
    scienceRules: seq<string>,
    successCriteria: seq<string>)

  /** What `create_job_file` writes and where. */
  datatype JobFile = JobFile(path: string, job: Job)

  /** The job name: a non-empty custom name, otherwise `sdl-mobo-` and the
      clock stamp (`%Y%m%d-%H%M%S` of the current time). */
  function JobName(custom: Option<string>, stamp: string): (name: string)
    ensures custom.Some? && |custom.value| > 0 ==> name == custom.value
    ensures custom.None? || |custom.value| == 0 ==> DefaultPrefix <= name && name[|DefaultPrefix|..] == stamp
  {
    if custom.Some? && |custom.value| > 0 then custom.value else DefaultPrefix + stamp
  }

  /** The plugin's command line. */
  function PluginArgs(directions: seq<string>, ip: string, username: string, password: string, south: string): (args: seq<string>)
    ensures |args| == 12
  {
    ["--ip", ip,
     "--mode", "direction",
     "-south", south,
     "-pt", Join(directions, ','),
     "-u", username,
     "-p", password]
  }

  /** Read as flag/value pairs, the plugin arguments give each value to its
      flag, whatever the values are. */
  lemma PluginArgsRead(directions: seq<string>, ip: string, username: string, password: string, south: string)
    ensures var args := PluginArgs(directions, ip, username, password, south);
      && OptionValue(args, 0, "--ip") == Some(ip)
      && OptionValue(args, 0, "--mode") == Some("direction")
      && OptionValue(args, 0, "-south") == Some(south)
      && OptionValue(args, 0, "-pt") == Some(Join(directions, ','))
      && OptionValue(args, 0, "-u") == Some(username)
      && OptionValue(args, 0, "-p") == Some(password)
  {
    var args := PluginArgs(directions, ip, username, password, south);
    assert args[0] == "--ip" && args[2] == "--mode" && args[4] == "-south";
    assert args[6] == "-pt" && args[8] == "-u" && args[10] == "-p";
    OptionValueAt(args, 0, 0, "--ip");
    OptionValueAt(args, 0, 2, "--mode");
    OptionValueAt(args, 0, 4, "-south");
    OptionValueAt(args, 0, 6, "-pt");
    OptionValueAt(args, 0, 8, "-u");
    OptionValueAt(args, 0, 10, "-p");
  }

  /** The `-pt` value parses back into the directions when they are
      stripped and comma-free, as the command line's own parsing makes them. */
  lemma DirectionsReadBack(directions: seq<string>, ip: string, username: string, password: string, south: string)
    requires |directions| >= 1
    requires forall i :: 0 <= i < |directions| ==> ',' !in directions[i] && Stripped(directions[i])
    ensures ParseNodes(PluginArgs(directions, ip, username, password, south)[7]) == directions
  {
    ParseNodesOfJoin(directions);
  }

  /** `schedule(<name>): cronjob("<name>", "* * * * *")`: run every minute. */
  function ScienceRule(name: string): string {
    "schedule(" + name + "): cronjob(\"" + name + "\", \"* * * * *\")"
  }

  /** The text of `s` before its first `c` (all of `s` when there is none). */
  function Before(s: string, c: char): (r: string)
    ensures c !in r && r <= s
  {
    if |s| == 0 || s[0] == c then "" else [s[0]] + Before(s[1..], c)
  }

  lemma {:induction false} BeforeOfAppend(a: string, c: char, rest: string)
    requires c !in a
    ensures Before(a + [c] + rest, c) == a
  {
    if |a| > 0 {
      assert (a + [c] + rest)[1..] == a[1..] + [c] + rest;
      BeforeOfAppend(a[1..], c, rest);
    } else {
      assert (a + [c] + rest)[0] == c;
    }
  }

  /** The job a rule schedules: the text between `schedule(` and `)`. */
  function RuleName(rule: string): Option<string> {
    if "schedule(" <= rule then Some(Before(rule[9..], ')')) else None
  }

  /** A rule names the job it was made for, provided the name has no ')'. */
  lemma RuleNameOfScienceRule(name: string)
    requires ')' !in name
    ensures RuleName(ScienceRule(name)) == Some(name)
  {
    var rest := ": cronjob(\"" + name + "\", \"* * * * *\")";
    assert ScienceRule(name) == "schedule(" + (name + [')'] + rest);
    assert ScienceRule(name)[9..] == name + [')'] + rest;
    BeforeOfAppend(name, ')', rest);
  }

  /** `create_job_file`: the job under `job_path/<name>.yaml`. */
  function CreateJobFile(directions: seq<string>, nodes: seq<string>, ip: string, username: string,
                         password: string, south: string, jobPath: string,
                         jobName: Option<string>, stamp: string): (f: JobFile)
    ensures f.job.name == JobName(jobName, stamp)
    // The file is `os.path.join(job_path, name + ".yaml")`.
    ensures f.path == PathJoin(jobPath, f.job.name + ".yaml")
    // Every given node, and only those, is mapped to true.
    ensures forall n :: n in f.job.nodes <==> n in nodes
    ensures forall n :: n in f.job.nodes ==> f.job.nodes[n]
    // One plugin, named like the job, with the plugin arguments and image.
    ensures |f.job.plugins| == 1 && f.job.plugins[0].name == f.job.name
    ensures f.job.plugins[0].args == PluginArgs(directions, ip, username, password, south)
    ensures f.job.plugins[0].image == Image
    // One science rule, scheduling the job by name; no success criteria.
    ensures f.job.scienceRules == [ScienceRule(f.job.name)] && f.job.successCriteria == []
    ensures ')' !in f.job.name ==> RuleName(f.job.scienceRules[0]) == Some(f.job.name)
  {
    var name := JobName(jobName, stamp);
    RuleNameOfMaybe(name);
    var job := Job(name, map n | n in nodes :: true,
                   [Plugin(name, PluginArgs(directions, ip, username, password, south), Image)],
                   [ScienceRule(name)], []);
    JobFile(PathJoin(jobPath, name + ".yaml"), job)
  }

  lemma RuleNameOfMaybe(name: string)
    ensures ')' !in name ==> RuleName(ScienceRule(name)) == Some(name)
  {
    if ')' !in name {
      RuleNameOfScienceRule(name);
    }
  }

  /** The file is named after the job: its last path component is
      `<name>.yaml` whenever the name is a plain file name. */
  lemma JobFileBaseName(directions: seq<string>, nodes: seq<string>, ip: string, username: string,
                        password: string, south: string, jobPath: string,
                        jobName: Option<string>, stamp: string)
    requires '/' !in JobName(jobName, stamp)
    ensures var f := CreateJobFile(directions, nodes, ip, username, password, south, jobPath, jobName, stamp);
      BaseName(f.path) == f.job.name + ".yaml"
  {
    var file := JobName(jobName, stamp) + ".yaml";
    assert '/' !in file by {
      assert forall i :: |JobName(jobName, stamp)| <= i < |file| ==> file[i] == ".yaml"[i - |JobName(jobName, stamp)|];
    }
    assert file[0] != '/';
    if |jobPath| == 0 {
      assert PathJoin(jobPath, file) == file;
      BaseNameOfName(file);
    } else if jobPath[|jobPath| - 1] == '/' {
      var dir := jobPath[..|jobPath| - 1];
      assert jobPath == dir + "/";
      assert PathJoin(jobPath, file) == dir + "/" + file;
      BaseNameAfterSlash(dir, file);
    } else {
      BaseNameAfterSlash(jobPath, file);
    }
  }

  // ---------------------------------------------------------------------
  // Editing and submitting

  const Sesctl: string := "./sesctl-darwin-amd64"
  const DryRunFlag: string := "--dry-run"

  function EditCommand(jobId: string, jobFile: string, token: string, host: string, dryRun: bool): seq<string> {
    [Sesctl, "edit", jobId, "-f", jobFile, "--token", token, "--server", host]
      + (if dryRun then [DryRunFlag] else [])
  }

  function SubmitCommand(jobId: string, token: string, host: string, dryRun: bool): seq<string> {
    [Sesctl, "submit", "-j", jobId, "--token", token, "--server", host]
      + (if dryRun then [DryRunFlag] else [])
  }

  /** Read as flag/value pairs after the subcommand, the edit command
      carries the job file, token and server, and the submit command the job
      id, token and server; `--dry-run` is one extra last argument exactly
      in a dry run. */
  lemma CommandsRead(jobId: string, jobFile: string, token: string, host: string, dryRun: bool)
    ensures var e := EditCommand(jobId, jobFile, token, host, dryRun);
      && e[..3] == [Sesctl, "edit", jobId]
      && OptionValue(e, 3, "-f") == Some(jobFile)
      && OptionValue(e, 3, "--token") == Some(token)
      && OptionValue(e, 3, "--server") == Some(host)
      && |e| == (if dryRun then 10 else 9)
      && (dryRun ==> e[9] == DryRunFlag)
    ensures var s := SubmitCommand(jobId, token, host, dryRun);
      && s[..2] == [Sesctl, "submit"]
      && OptionValue(s, 2, "-j") == Some(jobId)
      && OptionValue(s, 2, "--token") == Some(token)
      && OptionValue(s, 2, "--server") == Some(host)
      && |s| == (if dryRun then 9 else 8)
      && (dryRun ==> s[8] == DryRunFlag)
  {
    var e := EditCommand(jobId, jobFile, token, host, dryRun);
    assert e[3] == "-f" && e[5] == "--token" && e[7] == "--server";
    OptionValueAt(e, 3, 3, "-f");
    OptionValueAt(e, 3, 5, "--token");
    OptionValueAt(e, 3, 7, "--server");
    var s := SubmitCommand(jobId, token, host, dryRun);
    assert s[2] == "-j" && s[4] == "--token" && s[6] == "--server";
    OptionValueAt(s, 2, 2, "-j");
    OptionValueAt(s, 2, 4, "--token");
    OptionValueAt(s, 2, 6, "--server");
  }

  /** A dry run adds `--dry-run` to each command and changes nothing else. */
  lemma DryRunOnlyAppends(jobId: string, jobFile: string, token: string, host: string)
    ensures EditCommand(jobId, jobFile, token, host, true) == EditCommand(jobId, jobFile, token, host, false) + [DryRunFlag]
    ensures SubmitCommand(jobId, token, host, true) == SubmitCommand(jobId, token, host, false) + [DryRunFlag]
  {
  }

  /** ValueError for a missing or empty token or host; CalledProcessError
      when a command exits non-zero (`check=True`). */
  datatype SubmitError = MissingEnvironment | CalledProcessError

  /** The commands run, in order, and the exception that ended the call, if any. */
  datatype Outcome = Outcome(ran: seq<seq<string>>, error: Option<SubmitError>)

  /** `os.environ.get(key)` is truthy: set and non-empty. */
  predicate IsSet(env: map<string, string>, key: string) {
    key in env && |env[key]| > 0
  }

  /** `edit_and_submit_job`: check the environment, then run the edit
      command and, if it succeeds, the submit command. */
  function EditAndSubmitJob(jobId: string, jobFile: string, dryRun: bool, env: map<string, string>,
                            editSucceeds: bool, submitSucceeds: bool): (o: Outcome)
    // Without a token or host nothing runs.
    ensures o.error == Some(MissingEnvironment) <==> !IsSet(env, "SES_USER_TOKEN") || !IsSet(env, "SES_HOST")
    ensures o.error == Some(MissingEnvironment) <==> o.ran == []
    // Otherwise the edit runs first, the submit only after a successful edit.
    ensures |o.ran| >= 1 ==>
      o.ran[0] == EditCommand(jobId, jobFile, env["SES_USER_TOKEN"], env["SES_HOST"], dryRun)
    ensures |o.ran| == 2 <==> |o.ran| >= 1 && editSucceeds
    ensures |o.ran| == 2 ==>
      o.ran[1] == SubmitCommand(jobId, env["SES_USER_TOKEN"], env["SES_HOST"], dryRun)
    ensures |o.ran| <= 2
    ensures o.error.None? <==> |o.ran| == 2 && submitSucceeds
  {
    if !IsSet(env, "SES_USER_TOKEN") || !IsSet(env, "SES_HOST") then
      Outcome([], Some(MissingEnvironment))
    else
      var token := env["SES_USER_TOKEN"];
      var host := env["SES_HOST"];
      var edit := EditCommand(jobId, jobFile, token, host, dryRun);
      if !editSucceeds then Outcome([edit], Some(CalledProcessError))
      else
        var submit := SubmitCommand(jobId, token, host, dryRun);
        if !submitSucceeds then Outcome([edit, submit], Some(CalledProcessError))
        else Outcome([edit, submit], None)
  }

  /** Every command run carries `--dry-run` as its last argument in a dry
      run, and is the shorter form otherwise. */
  lemma DryRunEverywhere(jobId: string, jobFile: string, dryRun: bool, env: map<string, string>,
                         editSucceeds: bool, submitSucceeds: bool)
    ensures var o := EditAndSubmitJob(jobId, jobFile, dryRun, env, editSucceeds, submitSucceeds);
      forall i :: 0 <= i < |o.ran| ==>
        |o.ran[i]| == (if dryRun then 1 else 0) + (if i == 0 then 9 else 8)
        && (dryRun ==> o.ran[i][|o.ran[i]| - 1] == DryRunFlag)
  {
    CommandsRead(jobId, jobFile, if "SES_USER_TOKEN" in env then env["SES_USER_TOKEN"] else "",
                 if "SES_HOST" in env then env["SES_HOST"] else "", dryRun);
  }
}
