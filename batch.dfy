/** The loop of `main` that calls `save_config` once per address
    (switch_config_retrieval_tool.py:104-105), stated as the effect of its
    first `k` iterations. */
module Batch {
  import opened Text
  import opened Session

  const NoEffect: Effect := Effect([], [], [], false)

  /** `a` followed by `b`, for an `a` that did not raise. */
  function Then(a: Effect, b: Effect): Effect {
    Effect(a.actions + b.actions, a.log + b.log, a.writes + b.writes, b.escaped)
  }

  /** The behaviour of the `i`-th call of `save_config` in the run. */
  type Oracle = nat -> HostScript

  /** True when the connect of the `j`-th host raises an exception that
      `save_config` does not catch. */
  predicate EscapesAt(oracle: Oracle, j: nat) {
    oracle(j).connect.ConnectFailed? && !Caught(oracle(j).connect.error)
  }

  /** Effects run one after another; an exception escaping one of them ends
      the run, so nothing after it happens. */
  function Sequence(effects: seq<Effect>): Effect {
    if effects == [] then NoEffect
    else
      var prev := Sequence(effects[..|effects| - 1]);
      if prev.escaped then prev else Then(prev, effects[|effects| - 1])
  }

  /** What each call of `save_config` in the loop does, in list order. */
  function HostEffects(ips: seq<string>, creds: Credentials, outputDir: string, oracle: Oracle): seq<Effect> {
    seq(|ips|, i requires 0 <= i < |ips| => Retrieve(ips[i], creds, outputDir, oracle(i)))
  }

  /** The effect of the whole loop `for ip in ip_list: save_config(ip, ...)`. */
  function BatchRun(ips: seq<string>, creds: Credentials, outputDir: string, oracle: Oracle): Effect {
    Sequence(HostEffects(ips, creds, outputDir, oracle))
  }

  /** The addresses of the connect attempts among `actions`, in order. */
  function ConnectedHosts(actions: seq<Action>): seq<string> {
    if actions == [] then []
    else (if actions[0].Connect? then [actions[0].params.host] else []) + ConnectedHosts(actions[1..])
  }

  lemma {:induction false} ConnectedHostsAppend(a: seq<Action>, b: seq<Action>)
    ensures ConnectedHosts(a + b) == ConnectedHosts(a) + ConnectedHosts(b)
  {
    if a == [] {
      assert a + b == b;
    } else {
      var head := if a[0].Connect? then [a[0].params.host] else [];
      assert (a + b)[0] == a[0] && (a + b)[1..] == a[1..] + b;
      ConnectedHostsAppend(a[1..], b);
      AppendAssociates(head, ConnectedHosts(a[1..]), ConnectedHosts(b));
    }
  }

  lemma {:induction false} NoConnectsHere(a: seq<Action>)
    requires forall i :: 0 <= i < |a| ==> !a[i].Connect?
    ensures ConnectedHosts(a) == []
  {
    if a != [] {
      NoConnectsHere(a[1..]);
    }
  }

  /** One call of `save_config` makes exactly one connect attempt, to its own address. */
  lemma RetrieveConnectsOnce(ip: string, creds: Credentials, outputDir: string, dev: HostScript)
    ensures ConnectedHosts(Retrieve(ip, creds, outputDir, dev).actions) == [ip]
  {
    var a := Retrieve(ip, creds, outputDir, dev).actions;
    ActionsArePrefix(ip, creds, outputDir, dev);
    assert forall i :: 1 <= i < |a| ==> !a[i].Connect?;
    assert a == [a[0]] + a[1..];
    ConnectedHostsAppend([a[0]], a[1..]);
    NoConnectsHere(a[1..]);
  }

  /** A run escapes exactly when one of its effects does. */
  lemma {:induction false} SequenceEscapedIff(effects: seq<Effect>)
    ensures Sequence(effects).escaped <==> exists j :: 0 <= j < |effects| && effects[j].escaped
  {
    if effects != [] {
      var n := |effects| - 1;
      SequenceEscapedIff(effects[..n]);
      assert forall j :: 0 <= j < n ==> effects[..n][j] == effects[j];
      if effects[n].escaped {
        assert exists j :: 0 <= j < |effects| && effects[j].escaped;
      }
    }
  }

  /** When nothing escapes, the connect attempts of the run are those of its
      effects, one after the other. */
  lemma {:induction false} SequenceHosts(effects: seq<Effect>, hosts: seq<string>)
    requires |hosts| == |effects|
    requires forall i :: 0 <= i < |effects| ==> !effects[i].escaped
    requires forall i :: 0 <= i < |effects| ==> ConnectedHosts(effects[i].actions) == [hosts[i]]
    ensures !Sequence(effects).escaped
    ensures ConnectedHosts(Sequence(effects).actions) == hosts
  {
    if effects != [] {
      var n := |effects| - 1;
      SequenceHosts(effects[..n], hosts[..n]);
      ConnectedHostsAppend(Sequence(effects[..n]).actions, effects[n].actions);
      assert hosts == hosts[..n] + [hosts[n]];
    }
  }

  /** One more effect after a prefix that did not escape is appended to it. */
  lemma SequenceExtend(effects: seq<Effect>, i: nat)
    requires i < |effects| && !Sequence(effects[..i]).escaped
    ensures Sequence(effects[..i + 1]) == Then(Sequence(effects[..i]), effects[i])
  {
    assert effects[..i + 1][..i] == effects[..i];
  }

  /** Once an effect escapes, the effects after it add nothing. */
  lemma {:induction false} SequenceStops(effects: seq<Effect>, j: nat)
    requires j < |effects| && Sequence(effects[..j + 1]).escaped
    ensures Sequence(effects) == Sequence(effects[..j + 1])
  {
    if j + 1 < |effects| {
      var n := |effects| - 1;
      assert effects[..n][..j + 1] == effects[..j + 1];
      SequenceStops(effects[..n], j);
    } else {
      assert effects[..j + 1] == effects;
    }
  }

  /** `save_config` is called once per address, in list order, as long as no
      connect error escapes: a host that fails in a caught way (at connect or
      at any later step) does not stop the ones after it. */
  lemma VisitsInOrder(ips: seq<string>, creds: Credentials, outputDir: string, oracle: Oracle)
    requires forall j :: 0 <= j < |ips| ==> !EscapesAt(oracle, j)
    ensures !BatchRun(ips, creds, outputDir, oracle).escaped
    ensures ConnectedHosts(BatchRun(ips, creds, outputDir, oracle).actions) == ips
  {
    var effects := HostEffects(ips, creds, outputDir, oracle);
    forall i | 0 <= i < |ips|
      ensures !effects[i].escaped && ConnectedHosts(effects[i].actions) == [ips[i]]
    {
      assert effects[i] == Retrieve(ips[i], creds, outputDir, oracle(i));
      assert !EscapesAt(oracle, i);
      RetrieveEscapedIff(ips[i], creds, outputDir, oracle(i));
      RetrieveConnectsOnce(ips[i], creds, outputDir, oracle(i));
    }
    SequenceHosts(effects, ips);
  }

  /** The run escapes exactly when some host raises an uncaught connect error. */
  lemma EscapedIff(ips: seq<string>, creds: Credentials, outputDir: string, oracle: Oracle)
    ensures BatchRun(ips, creds, outputDir, oracle).escaped
        <==> exists j :: 0 <= j < |ips| && EscapesAt(oracle, j)
  {
    var effects := HostEffects(ips, creds, outputDir, oracle);
    forall i | 0 <= i < |ips| ensures effects[i].escaped <==> EscapesAt(oracle, i) {
      RetrieveEscapedIff(ips[i], creds, outputDir, oracle(i));
    }
    SequenceEscapedIff(effects);
  }

  /** An uncaught connect error at host `j` aborts the batch: the hosts up to
      and including `j` were contacted in order, none after it. */
  lemma StopsAtEscape(ips: seq<string>, creds: Credentials, outputDir: string, oracle: Oracle, j: nat)
    requires j < |ips|
    requires EscapesAt(oracle, j)
    requires forall i :: 0 <= i < j ==> !EscapesAt(oracle, i)
    ensures var e := BatchRun(ips, creds, outputDir, oracle);
      e.escaped && ConnectedHosts(e.actions) == ips[..j + 1]
  {
    var effects := HostEffects(ips, creds, outputDir, oracle);
    var upTo := effects[..j + 1];
    assert upTo == HostEffects(ips[..j + 1], creds, outputDir, oracle);
    assert upTo[..j] == HostEffects(ips[..j], creds, outputDir, oracle);
    VisitsInOrder(ips[..j], creds, outputDir, oracle);
    UncaughtConnectEscapes(ips[j], creds, outputDir, oracle(j));
    RetrieveConnectsOnce(ips[j], creds, outputDir, oracle(j));
    ConnectedHostsAppend(Sequence(upTo[..j]).actions, upTo[j].actions);
    assert ips[..j + 1] == ips[..j] + [ips[j]];
    SequenceStops(effects, j);
  }

  lemma {:induction false} ApplyWritesAppend(files: map<string, string>, a: seq<FileWrite>, b: seq<FileWrite>)
    ensures ApplyWrites(files, a + b) == ApplyWrites(ApplyWrites(files, a), b)
    decreases a
  {
    if a == [] {
      assert a + b == b;
    } else {
      assert (a + b)[1..] == a[1..] + b;
      ApplyWritesAppend(files[a[0].path := a[0].content], a[1..], b);
    }
  }

  /** Writes to other paths leave a file as it is. */
  lemma {:induction false} ApplyWritesElsewhere(files: map<string, string>, writes: seq<FileWrite>, path: string)
    requires forall w | w in writes :: w.path != path
    requires path in files
    ensures path in ApplyWrites(files, writes) && ApplyWrites(files, writes)[path] == files[path]
    decreases writes
  {
    if writes != [] {
      ApplyWritesElsewhere(files[writes[0].path := writes[0].content], writes[1..], path);
    }
  }

  /** The last write to a path decides its content. */
  lemma {:induction false} SequenceKeepsWrite(files: map<string, string>, effects: seq<Effect>, i: nat, w: FileWrite)
    requires i < |effects|
    requires forall j :: 0 <= j < i ==> !effects[j].escaped
    requires effects[i].writes == [w]
    requires forall j, v :: i < j < |effects| && v in effects[j].writes ==> v.path != w.path
    ensures var final := ApplyWrites(files, Sequence(effects).writes);
      w.path in final && final[w.path] == w.content
  {
    var n := |effects| - 1;
    var prev := Sequence(effects[..n]);
    if n == i {
      SequenceEscapedIff(effects[..n]);
      ApplyWritesAppend(files, prev.writes, [w]);
    } else {
      SequenceKeepsWrite(files, effects[..n], i, w);
      if !prev.escaped {
        ApplyWritesAppend(files, prev.writes, effects[n].writes);
        ApplyWritesElsewhere(ApplyWrites(files, prev.writes), effects[n].writes, w.path);
      }
    }
  }

  /** Per-host isolation: when host `i` is reached and saves its configuration,
      and no later host uses the same file, the file holds what host `i`
      retrieved, whatever the other hosts did. */
  lemma Isolation(files: map<string, string>, ips: seq<string>, creds: Credentials,
                  outputDir: string, oracle: Oracle, i: nat)
    requires i < |ips|
    requires forall j :: 0 <= j < i ==> !EscapesAt(oracle, j)
    requires SavesFile(oracle(i))
    requires forall j :: i < j < |ips| ==> ConfigPath(outputDir, ips[j]) != ConfigPath(outputDir, ips[i])
    ensures var final := ApplyWrites(files, BatchRun(ips, creds, outputDir, oracle).writes);
      var path := ConfigPath(outputDir, ips[i]);
      path in final && final[path] == Strip(oracle(i).showRunning.text)
  {
    var effects := HostEffects(ips, creds, outputDir, oracle);
    forall j | 0 <= j < |ips|
      ensures (j < i ==> !effects[j].escaped)
      ensures |effects[j].writes| <= 1
      ensures forall v | v in effects[j].writes :: v.path == ConfigPath(outputDir, ips[j])
    {
      assert effects[j] == Retrieve(ips[j], creds, outputDir, oracle(j));
      assert j < i ==> !EscapesAt(oracle, j);
      RetrieveEscapedIff(ips[j], creds, outputDir, oracle(j));
      WrittenIff(ips[j], creds, outputDir, oracle(j));
    }
    WrittenIff(ips[i], creds, outputDir, oracle(i));
    var w := effects[i].writes[0];
    assert effects[i].writes == [w];
    SequenceKeepsWrite(files, effects, i, w);
  }

  /** With the program's output directory, different addresses give different
      path strings, so the path condition of `Isolation` is just "a different address". */
  lemma DistinctHostsDistinctFiles(a: string, b: string)
    requires a != b
    ensures ConfigPath("configs", a) != ConfigPath("configs", b)
  {
    var na, nb := a + "_config.txt", b + "_config.txt";
    assert na[..|a|] == a && nb[..|b|] == b;
    if na[0] != '/' && nb[0] != '/' {
      assert ConfigPath("configs", a)[8..] == na;
      assert ConfigPath("configs", b)[8..] == nb;
    }
  }
}
