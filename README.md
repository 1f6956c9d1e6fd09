# Switch configuration retrieval, modelled in Dafny

`switch_config_retrieval_tool.py` is a command-line tool. It reads switch
addresses from a `--file` CSV file and from a comma-separated `--ip` option,
connects to each switch over SSH, and saves each switch's running
configuration as `configs/<address>_config.txt`.

This project models the tool's core logic:

- **Building the address list** (`parse_ips_from_file` and the start of `main`). The module `Targets` defines the list as a function of the arguments. `ParseIpsFromFile` and `ResolveTargets` rebuild it by extending a list in place, as the code does.
- **`save_config` as a step machine.** The session library is an oracle (`HostScript`): each step either answers or raises. The steps are connect, enable, `terminal length 0`, `show running-config`, the file write, and disconnect.
  - The module `Session` gives the closed form (`Retrieve`): the steps run, the log lines, and the files written, all decided by the first step that raises.
  - The module `Tool` gives a line-by-line form (`SaveConfigFrom`).
  - Three lemmas prove the two forms agree.
- **The batch loop over the list** (module `Batch`). The loop runs one retrieval per address, and stops if an uncaught connect exception escapes.
- **The program state** (class `Tool.Workstation`): the files, the log and the steps started. `SaveConfig`, `RunBatch` and `Run` update these fields and are proved against the specification functions.

Python's `str.strip()`, `str.split(',')` and the join that undoes it are in module `Text`. `strip()` removes exactly the characters for which `str.isspace` is true.

## Model

| member | source | states |
|---|---|---|
| Text.Strip | switch_config_retrieval_tool.py:89 | `strip()` returns a string with no space at either end |
| Text.StripUnique | switch_config_retrieval_tool.py:89 | whatever all-space prefix and suffix surround a stripped middle, `strip()` returns exactly that middle |
| Text.StripCutsSpaces | switch_config_retrieval_tool.py:89 | `strip()` returns a slice of its input, with only spaces before and after it |
| Text.StripFixesStripped | switch_config_retrieval_tool.py:89 | stripping an already stripped string changes nothing (idempotence) |
| Text.StripEmptyIffAllSpace | switch_config_retrieval_tool.py:65 | a field's stripped form is empty (falsy) exactly when the field is all spaces |
| Text.JoinSplit | switch_config_retrieval_tool.py:87 | joining the pieces of `split(',')` with commas gives back the original string |
| Text.SplitJoin | switch_config_retrieval_tool.py:87 | splitting comma-free pieces joined by commas gives back the same pieces |
| Targets.ParseIpsFromFile | switch_config_retrieval_tool.py:60-66 | the list built row by row is the file entries: each non-blank field, stripped, in row and field order |
| Targets.ResolveTargets | switch_config_retrieval_tool.py:77-89 | the usage error when neither option is truthy; otherwise the file entries then the inline pieces, all stripped again |
| Targets.FileEntriesSurviveRestrip | switch_config_retrieval_tool.py:64-65 | every file entry is non-empty and already stripped, so the re-strip in `main` leaves the file part unchanged |
| Targets.RowEntriesExact | switch_config_retrieval_tool.py:65 | a row contributes exactly its fields that are not all spaces, stripped and in order |
| Targets.TargetsOrder | switch_config_retrieval_tool.py:80-89 | the address list is the file entries followed by the stripped inline pieces, in order, with no deduplication |
| Targets.InlineCount | switch_config_retrieval_tool.py:86-87 | `--ip` contributes one address more than its number of commas |
| Targets.EmptyInlinePieceKept | switch_config_retrieval_tool.py:87-89 | `--ip a,,b` gives `[a, "", b]`: an empty inline piece is kept |
| Targets.BlankFileFieldDropped | switch_config_retrieval_tool.py:65 | a file row `a, <blank>, b` gives `[a, b]`: a blank CSV field is dropped |
| Targets.DuplicatesKept | switch_config_retrieval_tool.py:86-89 | `--ip a,a` gives `[a, a]`: duplicates are not removed |
| Session.ConnectFailureStops | switch_config_retrieval_tool.py:27-32 | a caught connect error (timeout, authentication, OS error) starts only the connect, logs the SSH error, writes nothing and returns normally |
| Session.UncaughtConnectEscapes | switch_config_retrieval_tool.py:27-32 | any other connect exception escapes before any error is logged or anything is written |
| Session.RetrieveEscapedIff | switch_config_retrieval_tool.py:27-32 | `save_config` raises to its caller exactly on an uncaught connect error |
| Session.RetrievalSucceeds | switch_config_retrieval_tool.py:34-55 | when every step completes: all six steps in order, with the `show running-config` options, the stripped output written to `<ip>_config.txt`, "saved" logged last and no error logged |
| Session.PostConnectFailure | switch_config_retrieval_tool.py:34-57 | a failure after connect starts exactly the steps up to the failing one and skips every later step, disconnect included, logs the retrieval error and returns normally; a file exists only if the disconnect was the failing step |
| Session.ActionsArePrefix | switch_config_retrieval_tool.py:27-55 | the steps started are always a non-empty prefix of the six steps, starting with the connect |
| Session.WrittenIff | switch_config_retrieval_tool.py:50-52 | at most one file is written, exactly when connect, enable, both commands and the write complete; it is the stripped output at the fixed path |
| Session.ErrorLoggedIff | switch_config_retrieval_tool.py:27-57 | an error is logged exactly when some step raised and the exception did not escape |
| Session.RerunOverwrites | switch_config_retrieval_tool.py:51 | repeating a retrieval with the same outcome leaves the same files: a write replaces a file, it never appends |
| Session.ConfigPathInOutputDir | switch_config_retrieval_tool.py:50 | the file is `configs/<ip>_config.txt` unless the address is an absolute path |
| Batch.VisitsInOrder | switch_config_retrieval_tool.py:104-105 | with no uncaught connect error, `save_config` connects once per address in list order, and hosts that fail in a caught way do not stop the rest |
| Batch.EscapedIff | switch_config_retrieval_tool.py:104-105 | the loop raises exactly when some host raises an uncaught connect error |
| Batch.StopsAtEscape | switch_config_retrieval_tool.py:104-105 | an uncaught connect error at host `j` aborts the loop: hosts up to `j` were contacted in order, and none after it |
| Batch.Isolation | switch_config_retrieval_tool.py:104-105 | a host that saves its file, with no later host writing that path, leaves exactly its own stripped configuration there, whatever the other hosts did |
| Batch.DistinctHostsDistinctFiles | switch_config_retrieval_tool.py:50 | different addresses give different path strings under `configs` |
| Tool.SaveConfigFromActions | switch_config_retrieval_tool.py:14-57 | reading `save_config` line by line gives exactly the steps of the closed form |
| Tool.SaveConfigFromLog | switch_config_retrieval_tool.py:14-57 | ... exactly its logging calls |
| Tool.SaveConfigFromFiles | switch_config_retrieval_tool.py:14-57 | ... and exactly the files its writes leave |
| Tool.Workstation.SaveConfig | switch_config_retrieval_tool.py:14-57 | the new files, log and steps are those of the line-by-line reading; the call raises exactly on an uncaught connect error |
| Tool.Workstation.RunBatch | switch_config_retrieval_tool.py:104-105 | after the loop, the steps, log and files are the old ones extended by the batch's effect; it raises exactly when the batch does |
| Tool.Workstation.Run | switch_config_retrieval_tool.py:77-107 | a usage error exits with status 2 and changes nothing; otherwise the log is the file line (if any), the address-list line, then the batch's lines, then "complete" unless an exception escaped; the files are the batch's writes; the exit status is 1 on an escape, 0 otherwise |

## Left out

- Logging configuration, message text and timestamps (lines 9-12). Each logging call is modelled only by its kind and its level (info or error), plus what it names: the host, the file, or (for the address-list line) the list joined with commas rather than Python's list formatting.
- netmiko internals: `ConnectHandler`, `enable`, `send_command`, prompt matching and timeouts. The oracle `HostScript` decides each step's outcome. `send_command`'s keyword arguments are recorded, not interpreted.
- The CSV reader's quoting and dialect, and the reading of the file. Rows are given as sequences of fields, and errors from opening the file are not modelled.
- argparse (lines 69-75): the options arrive as `Args`, and `parser.error` is the exit status 2.
- The `input`/`getpass` credential prompts (lines 93-95). The credentials are a parameter.
- Creating the output directory and its log line (lines 97-102). These are file-system plumbing with no property of their own.
- Exceptions that are not `Exception`s (for example `KeyboardInterrupt`), and exceptions raised by logging calls.
- Paths: a file is identified by its exact path string, joined as POSIX `os.path.join` does; `..` components, case-insensitive file systems and Windows path joining are not modelled, so two different path strings may name the same file on a real system.
- Partial writes. The file write is one step that either replaces the whole file or raises before changing it.
- Transports and naming: the code connects over SSH only, does not discover a hostname, and names the file `<ip>_config.txt`. The model does the same.
- Whitespace: `Text.IsSpace` covers exactly the characters for which `str.isspace` is true. Strings are sequences of Unicode scalar values, and no encoding is modelled.
