/** The storage baremetal restarter (`pkg/rolling/restarters/storage_baremetal.go`):
    how it selects nodes and which remote command it launches to restart one.
    Launching the process and streaming its output are not modelled: a restart
    is the `Command` (tool and argv) it would hand to `exec.Command`. */
module Restarters {
  import opened GoTypes

  const DefaultStorageSystemdUnit: string := "ydb-server-storage.service"
  const InternalStorageSystemdUnit: string := "kikimr"

  /** The node fields the restarter reads; the other fields of
      `Ydb_Maintenance.Node` are not part of this model. */
  datatype Node = Node(nodeId: uint32, host: string, isStorage: bool)

  /** `StorageBaremetalOpts`: the user's remote-execution arguments and whether
      the internal systemd unit name is in use. */
  datatype StorageBaremetalOpts = StorageBaremetalOpts(sshArgs: seq<string>, kikimrStorageUnit: bool)

  /** A process to launch: the program and its arguments. */
  datatype Command = Command(tool: string, argv: seq<string>)

  /** The names of the supported remote-execution tools. */
  predicate IsSshTool(arg: string) {
    arg == "ssh" || arg == "pssh" || arg == "nssh"
  }

  /** `args` with every tool name removed, the rest in its original order. */
  function WithoutTools(args: seq<string>): seq<string> {
    if args == [] then []
    else WithoutTools(args[..|args| - 1]) + (if IsSshTool(args[|args| - 1]) then [] else [args[|args| - 1]])
  }

  /** How many entries of `args` are tool names. */
  function ToolCount(args: seq<string>): nat {
    if args == [] then 0
    else ToolCount(args[..|args| - 1]) + (if IsSshTool(args[|args| - 1]) then 1 else 0)
  }

  /** `args[k]` is the last tool name among the first `n` entries. */
  predicate LastToolBefore(args: seq<string>, n: int, k: int) {
    0 <= k < n <= |args| && IsSshTool(args[k]) &&
    forall j | k < j < n :: !IsSshTool(args[j])
  }

  /** `tool` is what `stripCommandFromArgs` must pick from `args`: the last tool
      name in them, or "ssh" when they name none. */
  predicate ChosenTool(args: seq<string>, tool: string) {
    ((forall i | 0 <= i < |args| :: !IsSshTool(args[i])) ==> tool == "ssh") &&
    ((exists i | 0 <= i < |args| :: IsSshTool(args[i])) ==>
      exists k | 0 <= k < |args| :: LastToolBefore(args, |args|, k) && tool == args[k])
  }

  /** `stripCommandFromArgs`: the tool to run and the arguments to pass it. */
  method StripCommandFromArgs(args: seq<string>) returns (command: string, remaining: seq<string>)
    ensures IsSshTool(command)
    ensures ChosenTool(args, command)
    ensures remaining == WithoutTools(args)
    ensures (forall i | 0 <= i < |args| :: !IsSshTool(args[i])) ==> remaining == args
  {
    remaining := [];
    command := "ssh";
    for i := 0 to |args|
      invariant IsSshTool(command)
      invariant remaining == WithoutTools(args[..i])
      invariant (forall j | 0 <= j < i :: !IsSshTool(args[j])) ==> command == "ssh" && remaining == args[..i]
      invariant (exists j | 0 <= j < i :: IsSshTool(args[j])) ==>
        exists k :: LastToolBefore(args, i, k) && command == args[k]
    {
      assert args[..i + 1][..i] == args[..i];
      if args[i] == "ssh" || args[i] == "pssh" || args[i] == "nssh" {
        command := args[i];
        assert LastToolBefore(args, i + 1, i);
      } else {
        remaining := remaining + [args[i]];
        if exists j | 0 <= j < i :: IsSshTool(args[j]) {
          var k :| LastToolBefore(args, i, k) && command == args[k];
          assert LastToolBefore(args, i + 1, k);
        }
      }
    }
    assert args[..|args|] == args;
  }

  /** Removing tool names drops exactly their occurrences. */
  lemma {:induction false} WithoutToolsLength(args: seq<string>)
    ensures |WithoutTools(args)| == |args| - ToolCount(args)
  {
    if args != [] {
      WithoutToolsLength(args[..|args| - 1]);
    }
  }

  /** No tool name is left, and every other argument keeps its multiplicity. */
  lemma {:induction false} WithoutToolsKeepsOthers(args: seq<string>)
    ensures forall i | 0 <= i < |WithoutTools(args)| :: !IsSshTool(WithoutTools(args)[i])
    ensures forall x :: !IsSshTool(x) ==> multiset(WithoutTools(args))[x] == multiset(args)[x]
  {
    if args != [] {
      var init, last := args[..|args| - 1], args[|args| - 1];
      WithoutToolsKeepsOthers(init);
      assert args == init + [last];
      assert multiset(args) == multiset(init) + multiset{last};
    }
  }

  /** Removal works piecewise, so the arguments kept stay in their relative order. */
  lemma {:induction false} WithoutToolsAppend(a: seq<string>, b: seq<string>)
    ensures WithoutTools(a + b) == WithoutTools(a) + WithoutTools(b)
    decreases |b|
  {
    if b == [] {
      assert a + b == a;
    } else {
      var b' := b[..|b| - 1];
      assert (a + b)[..|a + b| - 1] == a + b';
      WithoutToolsAppend(a, b');
    }
  }

  /** The shell command run on the host: restart `unit` if systemd is present. */
  function RemoteRestartCommand(unit: string): string {
    "(test -x /bin/systemctl && sudo systemctl restart " + unit + ")"
  }

  const RemoteCommandPrefix: string := "(test -x /bin/systemctl && sudo systemctl restart "

  /** Recover the unit name from a remote restart command, if it is one. */
  function UnitOfRemoteCommand(cmd: string): Option<string> {
    if |cmd| > |RemoteCommandPrefix| && cmd[..|RemoteCommandPrefix|] == RemoteCommandPrefix && cmd[|cmd| - 1] == ')'
    then Some(cmd[|RemoteCommandPrefix|..|cmd| - 1])
    else None
  }

  /** The remote command names its unit unambiguously. */
  lemma UnitOfRemoteRestartCommand(unit: string)
    ensures UnitOfRemoteCommand(RemoteRestartCommand(unit)) == Some(unit)
  {
  }

  /** `c` is the launch that restarts `unit` on `host` with the user's `sshArgs`:
      the tool chosen from them, then "run", the other arguments in order, and
      host and remote command in the order the tool expects ("ssh" takes the
      host first, "pssh" and "nssh" take it last). */
  predicate LaunchesRestart(c: Command, host: string, unit: string, sshArgs: seq<string>) {
    IsSshTool(c.tool) && ChosenTool(sshArgs, c.tool) &&
    |c.argv| == |WithoutTools(sshArgs)| + 3 &&
    c.argv[0] == "run" &&
    c.argv[1..|c.argv| - 2] == WithoutTools(sshArgs) &&
    (c.tool == "ssh" ==> c.argv[|c.argv| - 2] == host && c.argv[|c.argv| - 1] == RemoteRestartCommand(unit)) &&
    (c.tool != "ssh" ==> c.argv[|c.argv| - 2] == RemoteRestartCommand(unit) && c.argv[|c.argv| - 1] == host)
  }

  /** `restartNodeBySystemdUnit`, up to the launch: the command it would run. The
      "Supported ssh commands" error is never returned, since the tool always is
      one of the three. */
  method RestartNodeBySystemdUnit(node: Node, unitName: string, sshArgs: seq<string>) returns (r: Result<Command, string>)
    ensures r.Ok? && LaunchesRestart(r.value, node.host, unitName, sshArgs)
    ensures |r.value.argv| == |sshArgs| - ToolCount(sshArgs) + 3
  {
    var remoteRestartCommand := RemoteRestartCommand(unitName);
    var sshCommand, remainingSshArgs := StripCommandFromArgs(sshArgs);
    var fullSshArgs := ["run"];
    fullSshArgs := fullSshArgs + remainingSshArgs;
    if sshCommand == "ssh" {
      fullSshArgs := fullSshArgs + [node.host, remoteRestartCommand];
    } else if sshCommand == "nssh" || sshCommand == "pssh" {
      fullSshArgs := fullSshArgs + [remoteRestartCommand, node.host];
    } else {
      assert false;
      return Err("Supported ssh commands: ssh, pssh, nssh. Specified: " + sshCommand);
    }
    WithoutToolsLength(sshArgs);
    return Ok(Command(sshCommand, fullSshArgs));
  }

  /** `RestartNode`: the internal unit name when `kikimrStorageUnit` is set, the
      packaged one otherwise. */
  method RestartNode(opts: StorageBaremetalOpts, node: Node) returns (r: Result<Command, string>)
    ensures r.Ok?
    ensures opts.kikimrStorageUnit ==> LaunchesRestart(r.value, node.host, InternalStorageSystemdUnit, opts.sshArgs)
    ensures !opts.kikimrStorageUnit ==> LaunchesRestart(r.value, node.host, DefaultStorageSystemdUnit, opts.sshArgs)
  {
    var systemdUnitName := DefaultStorageSystemdUnit;
    if opts.kikimrStorageUnit {
      systemdUnitName := InternalStorageSystemdUnit;
    }
    r := RestartNodeBySystemdUnit(node, systemdUnitName, opts.sshArgs);
  }

  /** `Filter`: storage nodes of the whole cluster first, then the user's id or
      FQDN filter on those. Both helpers are not part of this model and are
      parameters. */
  function Filter<P>(
    spec: P,
    allNodes: seq<Node>,
    filterStorageNodes: seq<Node> -> seq<Node>,
    filterByNodeIdOrFqdn: (seq<Node>, P) -> seq<Node>): seq<Node>
  {
    filterByNodeIdOrFqdn(filterStorageNodes(allNodes), spec)
  }

  /** If the storage filter keeps only storage nodes of its input and the id/FQDN
      filter only nodes of its input, everything `Filter` selects is a storage
      node of the cluster. */
  lemma FilterSelectsStorageNodes<P>(
    spec: P,
    allNodes: seq<Node>,
    filterStorageNodes: seq<Node> -> seq<Node>,
    filterByNodeIdOrFqdn: (seq<Node>, P) -> seq<Node>)
    requires forall ns: seq<Node>, n: Node :: n in filterStorageNodes(ns) ==> n in ns && n.isStorage
    requires forall ns: seq<Node>, n: Node :: n in filterByNodeIdOrFqdn(ns, spec) ==> n in ns
    ensures forall n :: n in Filter(spec, allNodes, filterStorageNodes, filterByNodeIdOrFqdn) ==>
      n in allNodes && n.isStorage
  {
  }
}
