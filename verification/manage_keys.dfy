/** The operator's command-line tool: `add <KEY> <TYPE>` and `remove <KEY>`. */
module ManageKeys {
  import opened Wrappers
  import opened KeyStore

  /** How the process ends: its exit code and the lines it wrote. */
  datatype CliOutcome = CliOutcome(exitCode: int, stdout: seq<string>, stderr: seq<string>)

  const NoDatabaseUrl: string := "\U{274C}  Please set DATABASE_URL in your environment."
  const AddUsage: string := "Usage: manage-keys.js add <KEY> <TYPE>"
  const RemoveUsage: string := "Usage: manage-keys.js remove <KEY>"
  const CommandsUsage: string := "Commands: add, remove"
  const DbError: string := "DB error:"

  const AddedPrefix: string := "\U{2705} Added key: "
  const RemovedPrefix: string := "\U{1F5D1}\U{FE0F}  Removed key: "

  /** The confirmation of `add`: the key verbatim after the marker, then the type in parentheses. */
  function AddedLine(key: string, keyType: string): (line: string)
    ensures |line| == |AddedPrefix| + |key| + |keyType| + 8
    ensures line[..|AddedPrefix|] == AddedPrefix
    ensures line[|AddedPrefix|..|AddedPrefix| + |key|] == key
    ensures line[|line| - 1 - |keyType|..|line| - 1] == keyType && line[|line| - 1] == ')'
  {
    AddedPrefix + key + " (type=" + keyType + ")"
  }

  /** The confirmation of `remove`: the key verbatim after the marker, nothing after it. */
  function RemovedLine(key: string): (line: string)
    ensures |line| == |RemovedPrefix| + |key|
    ensures line[..|RemovedPrefix|] == RemovedPrefix && line[|RemovedPrefix|..] == key
  {
    RemovedPrefix + key
  }

  /** The `i`-th argument after the script name, if given. */
  function Arg(args: seq<string>, i: nat): (r: Option<string>)
    ensures r.Some? <==> i < |args|
    ensures r.Some? ==> r.value == args[i]
  {
    if i < |args| then Some(args[i]) else None
  }

  /**
   * The whole run: `args` are the words after the script name and
   * `databaseUrl` the environment variable. A missing database URL, a
   * usage error or an unknown command exits with 1 before any query.
   */
  method Run(table: KeyTable, databaseUrl: Option<string>, args: seq<string>, dbUp: bool)
    returns (out: CliOutcome)
    modifies table
    ensures out.exitCode == 0 || out.exitCode == 1
    ensures out.exitCode == 1 ==> out.stdout == []
    ensures !Truthy(databaseUrl) ==>
              out == CliOutcome(1, [], [NoDatabaseUrl]) && table.rows == old(table.rows)
    ensures Truthy(databaseUrl) && Arg(args, 0) == Some("add") ==>
              var key, keyType := Arg(args, 1), Arg(args, 2);
              if !Truthy(key) || !Truthy(keyType) then
                out == CliOutcome(1, [], [AddUsage]) && table.rows == old(table.rows)
              else if !dbUp then
                out == CliOutcome(1, [], [DbError]) && table.rows == old(table.rows)
              else
                && out == CliOutcome(0, [AddedLine(key.value, keyType.value)], [])
                && table.rows == Apply(old(table.rows), InsertIfAbsent(key.value, keyType.value))
    ensures Truthy(databaseUrl) && Arg(args, 0) == Some("remove") ==>
              var key := Arg(args, 1);
              if !Truthy(key) then
                out == CliOutcome(1, [], [RemoveUsage]) && table.rows == old(table.rows)
              else if !dbUp then
                out == CliOutcome(1, [], [DbError]) && table.rows == old(table.rows)
              else
                && out == CliOutcome(0, [RemovedLine(key.value)], [])
                && table.rows == Apply(old(table.rows), DeleteKey(key.value))
    ensures Truthy(databaseUrl) && Arg(args, 0) != Some("add") && Arg(args, 0) != Some("remove") ==>
              out == CliOutcome(1, [], [CommandsUsage]) && table.rows == old(table.rows)
  {
    if !Truthy(databaseUrl) {
      return CliOutcome(1, [], [NoDatabaseUrl]);
    }
    var cmd, key, keyType := Arg(args, 0), Arg(args, 1), Arg(args, 2);
    if cmd == Some("add") {
      if !Truthy(key) || !Truthy(keyType) {
        return CliOutcome(1, [], [AddUsage]);
      }
      var ok := table.Execute(InsertIfAbsent(key.value, keyType.value), dbUp);
      if !ok {
        return CliOutcome(1, [], [DbError]);
      }
      out := CliOutcome(0, [AddedLine(key.value, keyType.value)], []);
    } else if cmd == Some("remove") {
      if !Truthy(key) {
        return CliOutcome(1, [], [RemoveUsage]);
      }
      var ok := table.Execute(DeleteKey(key.value), dbUp);
      if !ok {
        return CliOutcome(1, [], [DbError]);
      }
      out := CliOutcome(0, [RemovedLine(key.value)], []);
    } else {
      out := CliOutcome(1, [], [CommandsUsage]);
    }
  }
}
