/** The alias store and the command handlers of the CLI: `save`, `edit`,
    `list`, `run` and the handler of the root command itself. The store is
    the process-wide `commands` bucket, held here as a map field that the
    handlers update in place. */
module Commands {
  import opened Text
  import opened Resolution

  /** Why a store operation failed. */
  datatype Error =
    | AliasNotFound  // `edit` of an alias that is not stored
    | KeyRequired    // the storage engine refuses the empty key

  datatype Status = Ok | Failed(error: Error)

  /** What the root command does with its arguments. */
  datatype RootAction = ShowHelp | Ran(outcome: Outcome)

  class AliasStore {
    /** The `commands` bucket: alias to command template. */
    var entries: map<string, string>

    /** The storage engine never holds an empty key. */
    ghost predicate Valid()
      reads this
    {
      "" !in entries
    }

    /** Opening the store at start-up: the `commands` bucket holds the
        aliases saved by earlier invocations (none on the first run, when
        the bucket is created empty). */
    constructor Open(saved: map<string, string>)
      requires "" !in saved
      ensures Valid() && entries == saved
    {
      entries := saved;
    }

    /** The bucket's `Put`: inserts or overwrites the entry for `alias`, and
        fails with "key required", changing nothing, for the empty alias. */
    method Put(alias: string, template: string) returns (st: Status)
      requires Valid()
      modifies this
      ensures Valid()
      ensures alias == "" ==> st == Failed(KeyRequired) && entries == old(entries)
      ensures alias != "" ==> st == Ok && entries == old(entries)[alias := template]
    {
      if alias == "" {
        return Failed(KeyRequired);
      }
      entries := entries[alias := template];
      return Ok;
    }

    /** `save <alias> <command...>`: stores the words after the alias joined
        with single spaces, overwriting an existing entry; every other alias
        keeps its template. */
    method Save(args: seq<string>) returns (st: Status)
      requires Valid() && |args| >= 2
      modifies this
      ensures Valid()
      ensures args[0] != "" ==> st == Ok && entries == old(entries)[args[0] := Join(args[1..], " ")]
      ensures args[0] == "" ==> st == Failed(KeyRequired) && entries == old(entries)
    {
      var alias := args[0];
      var command := Join(args[1..], " ");
      st := Put(alias, command);
    }

    /** `edit <alias> <new_command...>`: fails with "alias not found", creating
        nothing, when the alias is not stored; otherwise replaces its template
        with the words joined by single spaces and changes no other alias. */
    method Edit(args: seq<string>) returns (st: Status)
      requires Valid() && |args| >= 2
      modifies this
      ensures Valid()
      ensures args[0] !in old(entries) ==> st == Failed(AliasNotFound) && entries == old(entries)
      ensures args[0] in old(entries) ==> st == Ok && entries == old(entries)[args[0] := Join(args[1..], " ")]
    {
      var alias := args[0];
      var newCommand := Join(args[1..], " ");
      if alias !in entries {
        return Failed(AliasNotFound);
      }
      st := Put(alias, newCommand);
    }

    /** `list`: the stored pairs, in no particular order. */
    function List(): (pairs: set<(string, string)>)
      reads this
      ensures forall alias, template :: (alias, template) in pairs <==> alias in entries && entries[alias] == template
    {
      set alias | alias in entries :: (alias, entries[alias])
    }

    /** runCommand: looks the alias up, replaces `$1`, `$2`, ... by the
        arguments in ascending order, splits the result into fields and
        yields the program and its argument vector. */
    method RunCommand(alias: string, args: seq<string>) returns (o: Outcome)
      ensures o == Resolve(entries, alias, args)
    {
      if alias !in entries {
        return NotFound;
      }
      var command := entries[alias];
      var i := 0;
      while i < |args|
        invariant 0 <= i <= |args|
        invariant command == Placeholders.SubstituteAll(entries[alias], args[..i])
      {
        var placeholder := Placeholders.Placeholder(i + 1);
        command := ReplaceAll(command, placeholder, args[i]);
        assert args[..i + 1][..i] == args[..i];
        i := i + 1;
      }
      assert args[..i] == args;
      var cmdParts := Fields(command);
      if |cmdParts| == 0 {
        return EmptyCommand;
      }
      return Exec(cmdParts[0], cmdParts[1..]);
    }

    /** `run <alias> [args...]`. */
    method Run(args: seq<string>) returns (o: Outcome)
      requires |args| >= 1
      ensures o == Resolve(entries, args[0], args[1..])
    {
      o := RunCommand(args[0], args[1..]);
    }

    /** The root command's handler: when the CLI framework passes it
        arguments, it resolves them as `run` does (the first is the alias,
        the rest its arguments); without arguments it shows the help text. */
    method Root(args: seq<string>) returns (r: RootAction)
      ensures args == [] ==> r == ShowHelp
      ensures args != [] ==> r == Ran(Resolve(entries, args[0], args[1..]))
    {
      if |args| > 0 {
        var o := RunCommand(args[0], args[1..]);
        return Ran(o);
      }
      return ShowHelp;
    }
  }

  /** What a caller can conclude from the contracts above alone, for a
      sequence of invocations against one store. */
  method Scenarios() {
    var store := new AliasStore.Open(map[]);
    var st := store.Save(["g", "git", "status"]);
    assert ["g", "git", "status"][1..] == ["git", "status"];
    assert st == Ok && ("g", "git status") in store.List();

    st := store.Save(["g", "X"]);
    st := store.Save(["g", "Y"]);
    assert ["g", "Y"][1..] == ["Y"];
    assert store.entries["g"] == "Y";

    var empty := new AliasStore.Open(map[]);
    st := empty.Edit(["nope", "echo", "hi"]);
    assert st == Failed(AliasNotFound) && "nope" !in empty.entries;

    var o := store.Run(["nope"]);
    assert o == NotFound;

    var before := store.entries;
    st := store.Save(["e", "echo $1 $2"]);
    assert ["e", "echo $1 $2"][1..] == ["echo $1 $2"];
    o := store.Run(["e", "a", "b"]);
    assert ["e", "a", "b"][1..] == ["a", "b"];
    EchoBothArguments(before);
    assert o == Exec("echo", ["a", "b"]);
  }
}
