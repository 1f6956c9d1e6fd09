/** What one call of `save_config` does to the world (switch_config_retrieval_tool.py:14-57),
    stated declaratively: the SSH session library is an oracle that, for each
    step, either answers or raises; the effect of the call is determined by the
    first step that raises. */
module Session {
  import opened Wrappers
  import opened Text

  /** Typed once by the operator, shared by every host of the run. */
  datatype Credentials = Credentials(username: string, password: string, enablePassword: string)

  /** `device_params`: the arguments of `ConnectHandler`. */
  datatype DeviceParams = DeviceParams(deviceType: string, host: string, username: string,
                                       password: string, secret: string)

  /** The session driver used for every switch; SSH is its transport. */
  const DeviceType: string := "dell_force10"

  function Params(ip: string, creds: Credentials): DeviceParams {
    DeviceParams(DeviceType, ip, creds.username, creds.password, creds.enablePassword)
  }

  /** The keyword arguments a `send_command` call passes; `None` leaves the
      argument to the library's default. */
  datatype SendOptions = SendOptions(expectString: Option<string>, stripPrompt: Option<bool>,
                                     stripCommand: Option<bool>, readTimeout: Option<nat>)

  const TerminalLength: string := "terminal length 0"
  const ShowRunningConfig: string := "show running-config"
  const LibraryDefaults: SendOptions := SendOptions(None, None, None, None)
  /** Wait for `#`, drop the echoed command and the trailing prompt, allow 60 seconds. */
  const ShowRunOptions: SendOptions := SendOptions(Some("#"), Some(true), Some(true), Some(60))

  /** A step the tool starts: a call into the session library or the file write. */
  datatype Action =
    | Connect(params: DeviceParams)
    | Enable
    | SendCommand(command: string, options: SendOptions)
    | WriteFile(path: string)
    | Disconnect

  /** What `ConnectHandler` may raise. The first three are the ones
      `save_config` catches; anything else escapes it. */
  datatype ConnectError = Timeout | AuthenticationFailed | OsError | OtherError

  predicate Caught(e: ConnectError) {
    e != OtherError
  }

  datatype ConnectResult = Connected | ConnectFailed(error: ConnectError)
  datatype StepResult = Completed | Raised
  /** What `send_command` does: returns its output, or raises. */
  datatype Reply = Answer(text: string) | Failed

  /** The oracle for one host: how each step of the retrieval turns out.
      `write` stands for opening and writing the output file. */
  datatype HostScript = HostScript(connect: ConnectResult, enable: StepResult,
                                   terminalLength: Reply, showRunning: Reply,
                                   write: StepResult, disconnect: StepResult)

  datatype Level = Info | Error

  /** Which logging call was made; the message text is not modelled. */
  datatype LogKind =
    | ReadingFile | ListingTargets | RetrievalComplete
    | AttemptingSsh | SshFailed | EnteringEnable | SettingTerminalLength
    | RetrievingConfig | ConfigSaved | RetrievalFailed

  function LevelOf(kind: LogKind): Level {
    if kind == SshFailed || kind == RetrievalFailed then Error else Info
  }

  /** A logging call and the host (or file) it names. */
  datatype LogEntry = LogEntry(kind: LogKind, subject: string)

  datatype FileWrite = FileWrite(path: string, content: string)

  /** What a piece of the run does: the steps it starts, the log lines it emits,
      the files it writes (in order), and whether an exception escaped it. */
  datatype Effect = Effect(actions: seq<Action>, log: seq<LogEntry>,
                           writes: seq<FileWrite>, escaped: bool)

  /** The filesystem after a sequence of writes: each replaces the whole file. */
  function ApplyWrites(files: map<string, string>, writes: seq<FileWrite>): map<string, string>
    decreases writes
  {
    if writes == [] then files
    else ApplyWrites(files[writes[0].path := writes[0].content], writes[1..])
  }

  /** POSIX `os.path.join(dir, name)` for two components. */
  function PathJoin(dir: string, name: string): string {
    if name != [] && name[0] == '/' then name
    else if dir == [] || dir[|dir| - 1] == '/' then dir + name
    else dir + "/" + name
  }

  function ConfigPath(outputDir: string, ip: string): string {
    PathJoin(outputDir, ip + "_config.txt")
  }

  /** The six steps of a retrieval, in the order the code takes them. */
  function Steps(ip: string, creds: Credentials, outputDir: string): seq<Action> {
    [Connect(Params(ip, creds)), Enable, SendCommand(TerminalLength, LibraryDefaults),
     SendCommand(ShowRunningConfig, ShowRunOptions), WriteFile(ConfigPath(outputDir, ip)), Disconnect]
  }

  /** The info lines logged just before steps 0 to 3. */
  function Announcements(ip: string): seq<LogEntry> {
    [LogEntry(AttemptingSsh, ip), LogEntry(EnteringEnable, ip),
     LogEntry(SettingTerminalLength, ip), LogEntry(RetrievingConfig, ip)]
  }

  /** Whether step `k` (numbered as in `Steps`) completes for this host. */
  predicate StepSucceeds(dev: HostScript, k: nat) {
    match k
    case 0 => dev.connect.Connected?
    case 1 => dev.enable.Completed?
    case 2 => dev.terminalLength.Answer?
    case 3 => dev.showRunning.Answer?
    case 4 => dev.write.Completed?
    case _ => dev.disconnect.Completed?
  }

  /** Connect, enable, both commands and the write complete: the file gets saved. */
  predicate SavesFile(dev: HostScript) {
    dev.connect.Connected? && dev.enable.Completed? && dev.terminalLength.Answer?
    && dev.showRunning.Answer? && dev.write.Completed?
  }

  /** The number of the first step that raises; 6 when all six complete. */
  function FirstFailure(dev: HostScript): (k: nat)
    ensures k <= 6
    ensures forall j :: 0 <= j < k ==> StepSucceeds(dev, j)
    ensures k < 6 ==> !StepSucceeds(dev, k)
  {
    if !dev.connect.Connected? then 0
    else if dev.enable.Raised? then 1
    else if dev.terminalLength.Failed? then 2
    else if dev.showRunning.Failed? then 3
    else if dev.write.Raised? then 4
    else if dev.disconnect.Raised? then 5
    else 6
  }

  /** The effect of `save_config(ip, ...)`: the steps up to and including the
      first that raises; the announcements of the steps reached; then "saved",
      the SSH error, the retrieval error, or nothing when the connect error
      escapes; and the configuration file once its write has completed. */
  function Retrieve(ip: string, creds: Credentials, outputDir: string, dev: HostScript): Effect {
    var k := FirstFailure(dev);
    var ran := Steps(ip, creds, outputDir)[..if k < 6 then k + 1 else 6];
    var announced := Announcements(ip)[..if k < 4 then k + 1 else 4];
    var escaped := k == 0 && !Caught(dev.connect.error);
    var closing :=
      if k == 6 then [LogEntry(ConfigSaved, ip)]
      else if k == 0 then (if escaped then [] else [LogEntry(SshFailed, ip)])
      else [LogEntry(RetrievalFailed, ip)];
    var writes := if k >= 5 then [FileWrite(ConfigPath(outputDir, ip), Strip(dev.showRunning.text))] else [];
    Effect(ran, announced + closing, writes, escaped)
  }

  predicate ErrorLogged(log: seq<LogEntry>) {
    exists i :: 0 <= i < |log| && LevelOf(log[i].kind) == Error
  }

  /** A caught connect failure (timeout, authentication, OS error): only the
      connect was attempted, the SSH error is logged, nothing is written, and
      `save_config` returns normally. */
  lemma ConnectFailureStops(ip: string, creds: Credentials, outputDir: string, dev: HostScript)
    requires dev.connect.ConnectFailed? && Caught(dev.connect.error)
    ensures var e := Retrieve(ip, creds, outputDir, dev);
      e.actions == [Connect(Params(ip, creds))] && e.writes == [] && !e.escaped
      && e.log == [LogEntry(AttemptingSsh, ip), LogEntry(SshFailed, ip)]
  {
  }

  /** Any other connect exception escapes `save_config` before anything is
      logged about it or written. */
  lemma UncaughtConnectEscapes(ip: string, creds: Credentials, outputDir: string, dev: HostScript)
    requires dev.connect.ConnectFailed? && !Caught(dev.connect.error)
    ensures var e := Retrieve(ip, creds, outputDir, dev);
      e.escaped && e.actions == [Connect(Params(ip, creds))] && e.writes == []
      && !ErrorLogged(e.log)
  {
  }

  /** `save_config` raises to its caller exactly on an uncaught connect error. */
  lemma RetrieveEscapedIff(ip: string, creds: Credentials, outputDir: string, dev: HostScript)
    ensures Retrieve(ip, creds, outputDir, dev).escaped
        <==> dev.connect.ConnectFailed? && !Caught(dev.connect.error)
  {
  }

  /** When every step completes: all six steps in order, the stripped
      configuration written to `<ip>_config.txt` in the output directory, and
      "saved" logged last with no error. */
  lemma RetrievalSucceeds(ip: string, creds: Credentials, outputDir: string, dev: HostScript)
    requires forall k :: 0 <= k < 6 ==> StepSucceeds(dev, k)
    ensures var e := Retrieve(ip, creds, outputDir, dev);
      e.actions == Steps(ip, creds, outputDir) && !e.escaped
      && e.writes == [FileWrite(ConfigPath(outputDir, ip), Strip(dev.showRunning.text))]
      && e.log[|e.log| - 1] == LogEntry(ConfigSaved, ip) && !ErrorLogged(e.log)
  {
    assert StepSucceeds(dev, 5);
    var e := Retrieve(ip, creds, outputDir, dev);
    assert |e.log| == 5;
    forall i | 0 <= i < 5 ensures LevelOf(e.log[i].kind) == Info {
      assert e.log[i] in Announcements(ip) + [LogEntry(ConfigSaved, ip)];
    }
  }

  /** A failure after connect (enable, either command, the write or the
      disconnect) skips every later step, disconnect included, logs the
      retrieval error and returns normally; a file exists only when the failing
      step was the disconnect. */
  lemma PostConnectFailure(ip: string, creds: Credentials, outputDir: string, dev: HostScript)
    requires dev.connect.Connected? && FirstFailure(dev) < 6
    ensures var e := Retrieve(ip, creds, outputDir, dev);
      && !e.escaped
      && e.actions == Steps(ip, creds, outputDir)[..FirstFailure(dev) + 1]
      && Disconnect !in e.actions[..|e.actions| - 1]
      && (e.actions[|e.actions| - 1] == Disconnect <==> FirstFailure(dev) == 5)
      && e.log[|e.log| - 1] == LogEntry(RetrievalFailed, ip)
      && (e.writes != [] <==> FirstFailure(dev) == 5)
  {
  }

  /** The steps started are always the first steps of `Steps`, in order. */
  lemma ActionsArePrefix(ip: string, creds: Credentials, outputDir: string, dev: HostScript)
    ensures var e := Retrieve(ip, creds, outputDir, dev);
      1 <= |e.actions| <= 6 && e.actions == Steps(ip, creds, outputDir)[..|e.actions|]
      && e.actions[0] == Connect(Params(ip, creds))
  {
  }

  /** The configuration file is written exactly when connect, enable, both
      commands and the write itself complete, whatever the disconnect does; it
      is the stripped output of `show running-config`, at the fixed path. */
  lemma WrittenIff(ip: string, creds: Credentials, outputDir: string, dev: HostScript)
    ensures var e := Retrieve(ip, creds, outputDir, dev);
      && |e.writes| <= 1
      && (e.writes != [] <==> SavesFile(dev))
      && (forall w | w in e.writes ::
            w.path == ConfigPath(outputDir, ip) && IsStripped(w.content)
            && w.content == Strip(dev.showRunning.text))
  {
  }

  /** An error is logged exactly when some step raised and the exception did not escape. */
  lemma ErrorLoggedIff(ip: string, creds: Credentials, outputDir: string, dev: HostScript)
    ensures var e := Retrieve(ip, creds, outputDir, dev);
      ErrorLogged(e.log) <==> FirstFailure(dev) < 6 && !e.escaped
  {
    var e := Retrieve(ip, creds, outputDir, dev);
    var k := FirstFailure(dev);
    assert forall i :: 0 <= i < |e.log| - 1 ==> e.log[i] in Announcements(ip);
    if ErrorLogged(e.log) {
      var i :| 0 <= i < |e.log| && LevelOf(e.log[i].kind) == Error;
      assert i == |e.log| - 1;
    }
    if k < 6 && !e.escaped {
      assert LevelOf(e.log[|e.log| - 1].kind) == Error;
    }
  }

  /** Retrieving the same host again with the same outcome leaves the same
      files: the write replaces the file, it never appends. */
  lemma RerunOverwrites(files: map<string, string>, ip: string, creds: Credentials,
                        outputDir: string, dev: HostScript)
    ensures var w := Retrieve(ip, creds, outputDir, dev).writes;
      ApplyWrites(ApplyWrites(files, w), w) == ApplyWrites(files, w)
  {
  }

  /** With the program's output directory, the file lands in `configs/` unless
      the address itself is an absolute path. */
  lemma ConfigPathInOutputDir(ip: string)
    requires ip == [] || ip[0] != '/'
    ensures ConfigPath("configs", ip) == "configs/" + ip + "_config.txt"
  {
  }
}
