/** The program run on the operator's machine (switch_config_retrieval_tool.py):
    its state is the filesystem it writes configurations to, the log it
    appends to, and the record of the steps it started against the switches. */
module Tool {
  import opened Text
  import opened Targets
  import opened Session
  import opened Batch

  /** `output_dir` in `main`. */
  const OutputDir: string := "configs"

  /** The log lines `main` emits before the loop: the file being read, if any,
      then the list of addresses, recorded by its comma-joined form. */
  function Preamble(args: Args, hosts: seq<string>): seq<LogEntry> {
    (if FileGiven(args) then [LogEntry(ReadingFile, args.file.value.path)] else [])
    + [LogEntry(ListingTargets, Join(hosts, ','))]
  }

  /** The workstation's observable state, as a value. */
  datatype Trace = Trace(files: map<string, string>, log: seq<LogEntry>, actions: seq<Action>)

  function Say(t: Trace, entry: LogEntry): Trace {
    t.(log := t.log + [entry])
  }

  function Call(t: Trace, action: Action): Trace {
    t.(actions := t.actions + [action])
  }

  /** `save_config` read line by line from the state `t`: each logging call and
      each step is appended in the order the code makes it, and the first
      exception ends the call. */
  function SaveConfigFrom(t: Trace, ip: string, creds: Credentials, outputDir: string, dev: HostScript): Trace {
    var t0 := Call(Say(t, LogEntry(AttemptingSsh, ip)), Connect(Params(ip, creds)));
    if dev.connect.ConnectFailed? then
      if Caught(dev.connect.error) then Say(t0, LogEntry(SshFailed, ip)) else t0
    else
      var failed := LogEntry(RetrievalFailed, ip);
      var t1 := Call(Say(t0, LogEntry(EnteringEnable, ip)), Enable);
      if dev.enable.Raised? then Say(t1, failed) else
      var t2 := Call(Say(t1, LogEntry(SettingTerminalLength, ip)), SendCommand(TerminalLength, LibraryDefaults));
      if dev.terminalLength.Failed? then Say(t2, failed) else
      var t3 := Call(Say(t2, LogEntry(RetrievingConfig, ip)), SendCommand(ShowRunningConfig, ShowRunOptions));
      if dev.showRunning.Failed? then Say(t3, failed) else
      var path := ConfigPath(outputDir, ip);
      var t4 := Call(t3, WriteFile(path));
      if dev.write.Raised? then Say(t4, failed) else
      var t5 := Call(t4.(files := t4.files[path := Strip(dev.showRunning.text)]), Disconnect);
      if dev.disconnect.Raised? then Say(t5, failed) else
      Say(t5, LogEntry(ConfigSaved, ip))
  }

  /** Read line by line, `save_config` makes exactly the steps of `Retrieve`... */
  lemma {:induction false} SaveConfigFromActions(t: Trace, ip: string, creds: Credentials, outputDir: string, dev: HostScript)
    ensures SaveConfigFrom(t, ip, creds, outputDir, dev).actions
         == t.actions + Retrieve(ip, creds, outputDir, dev).actions
  {
    if dev.connect.ConnectFailed? {
    } else if dev.enable.Raised? {
    } else if dev.terminalLength.Failed? {
    } else if dev.showRunning.Failed? {
    } else if dev.write.Raised? {
    } else if dev.disconnect.Raised? {
    } else {
    }
  }

  /** ... logs exactly its lines ... */
  lemma {:induction false} SaveConfigFromLog(t: Trace, ip: string, creds: Credentials, outputDir: string, dev: HostScript)
    ensures SaveConfigFrom(t, ip, creds, outputDir, dev).log
         == t.log + Retrieve(ip, creds, outputDir, dev).log
  {
    if dev.connect.ConnectFailed? {
    } else if dev.enable.Raised? {
    } else if dev.terminalLength.Failed? {
    } else if dev.showRunning.Failed? {
    } else if dev.write.Raised? {
    } else if dev.disconnect.Raised? {
    } else {
    }
  }

  /** ... and leaves exactly the files its writes leave. */
  lemma {:induction false} SaveConfigFromFiles(t: Trace, ip: string, creds: Credentials, outputDir: string, dev: HostScript)
    ensures SaveConfigFrom(t, ip, creds, outputDir, dev).files
         == ApplyWrites(t.files, Retrieve(ip, creds, outputDir, dev).writes)
  {
    if dev.connect.ConnectFailed? {
    } else if dev.enable.Raised? {
    } else if dev.terminalLength.Failed? {
    } else if dev.showRunning.Failed? {
    } else if dev.write.Raised? {
    } else if dev.disconnect.Raised? {
    } else {
    }
  }

  class Workstation {
    /** Path to content of every file the program can see. */
    var files: map<string, string>
    /** Every logging call made so far. */
    var log: seq<LogEntry>
    /** Every step started so far: session-library calls and file writes. */
    var actions: seq<Action>

    constructor (files: map<string, string>)
      ensures this.files == files && log == [] && actions == []
    {
      this.files := files;
      log := [];
      actions := [];
    }

    /** `save_config`: connect over SSH, then enable, disable paging, fetch the
        running configuration, write it stripped to `<ip>_config.txt` and
        disconnect. A caught connect error or any later exception is logged and
        ends the call normally; any other connect error escapes (`escaped`). */
    method SaveConfig(ip: string, creds: Credentials, outputDir: string, dev: HostScript)
      returns (escaped: bool)
      modifies this
      ensures Trace(files, log, actions)
           == SaveConfigFrom(Trace(old(files), old(log), old(actions)), ip, creds, outputDir, dev)
      ensures escaped <==> dev.connect.ConnectFailed? && !Caught(dev.connect.error)
    {
      log := log + [LogEntry(AttemptingSsh, ip)];
      actions := actions + [Connect(Params(ip, creds))];
      if dev.connect.ConnectFailed? {
        if Caught(dev.connect.error) {
          log := log + [LogEntry(SshFailed, ip)];
          return false;
        }
        return true;
      }
      var raised := true;
      label attempt: {
        log := log + [LogEntry(EnteringEnable, ip)];
        actions := actions + [Enable];
        if dev.enable.Raised? { break attempt; }
        log := log + [LogEntry(SettingTerminalLength, ip)];
        actions := actions + [SendCommand(TerminalLength, LibraryDefaults)];
        if dev.terminalLength.Failed? { break attempt; }
        log := log + [LogEntry(RetrievingConfig, ip)];
        actions := actions + [SendCommand(ShowRunningConfig, ShowRunOptions)];
        if dev.showRunning.Failed? { break attempt; }
        var runningConfig := dev.showRunning.text;
        var outputFile := PathJoin(outputDir, ip + "_config.txt");
        actions := actions + [WriteFile(outputFile)];
        if dev.write.Raised? { break attempt; }
        files := files[outputFile := Strip(runningConfig)];
        actions := actions + [Disconnect];
        if dev.disconnect.Raised? { break attempt; }
        log := log + [LogEntry(ConfigSaved, ip)];
        raised := false;
      }
      if raised {
        log := log + [LogEntry(RetrievalFailed, ip)];
      }
      return false;
    }

    /** The loop `for ip in ip_list: save_config(ip, ...)`: one call per
        address, in order, until an exception escapes one of them. */
    method RunBatch(ips: seq<string>, creds: Credentials, outputDir: string, oracle: Oracle)
      returns (escaped: bool)
      modifies this
      ensures var e := BatchRun(ips, creds, outputDir, oracle);
        && actions == old(actions) + e.actions
        && log == old(log) + e.log
        && files == ApplyWrites(old(files), e.writes)
        && escaped == e.escaped
    {
      ghost var effects := HostEffects(ips, creds, outputDir, oracle);
      escaped := false;
      var i := 0;
      while i < |ips| && !escaped
        invariant 0 <= i <= |ips|
        invariant var e := Sequence(effects[..i]);
          && actions == old(actions) + e.actions
          && log == old(log) + e.log
          && files == ApplyWrites(old(files), e.writes)
          && escaped == e.escaped
      {
        ghost var done := Sequence(effects[..i]);
        SequenceExtend(effects, i);
        ghost var before := Trace(files, log, actions);
        escaped := SaveConfig(ips[i], creds, outputDir, oracle(i));
        SaveConfigFromActions(before, ips[i], creds, outputDir, oracle(i));
        SaveConfigFromLog(before, ips[i], creds, outputDir, oracle(i));
        SaveConfigFromFiles(before, ips[i], creds, outputDir, oracle(i));
        RetrieveEscapedIff(ips[i], creds, outputDir, oracle(i));
        ApplyWritesAppend(old(files), done.writes, effects[i].writes);
        AppendAssociates(old(actions), done.actions, effects[i].actions);
        AppendAssociates(old(log), done.log, effects[i].log);
        i := i + 1;
      }
      if escaped {
        SequenceStops(effects, i - 1);
      } else {
        assert effects[..i] == effects;
      }
    }

    /** `main`: the usage check, the address list, then the loop over it with
        the configurations written under `configs`. The exit status is 2 for
        the usage error, 1 when an exception escapes, 0 otherwise. */
    method Run(args: Args, creds: Credentials, oracle: Oracle) returns (exitCode: int)
      modifies this
      ensures TargetList(args) == UsageError ==>
        exitCode == 2 && files == old(files) && log == old(log) && actions == old(actions)
      ensures TargetList(args).Resolved? ==>
        var e := BatchRun(TargetList(args).hosts, creds, OutputDir, oracle);
        && actions == old(actions) + e.actions
        && files == ApplyWrites(old(files), e.writes)
        && log == old(log) + Preamble(args, TargetList(args).hosts) + e.log
                  + (if e.escaped then [] else [LogEntry(RetrievalComplete, "")])
        && exitCode == (if e.escaped then 1 else 0)
    {
      var resolution := ResolveTargets(args);
      if resolution == UsageError {
        return 2;
      }
      if FileGiven(args) {
        log := log + [LogEntry(ReadingFile, args.file.value.path)];
      }
      var ipList := resolution.hosts;
      log := log + [LogEntry(ListingTargets, Join(ipList, ','))];
      ghost var before := log;
      assert before == old(log) + Preamble(args, ipList);
      var escaped := RunBatch(ipList, creds, OutputDir, oracle);
      ghost var e := BatchRun(ipList, creds, OutputDir, oracle);
      assert log == before + e.log;
      if escaped {
        return 1;
      }
      log := log + [LogEntry(RetrievalComplete, "")];
      return 0;
    }
  }
}
