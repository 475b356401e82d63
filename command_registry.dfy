/**
 * DefaultCommandProvider: the console's own name-to-command table. Commands
 * are opaque values of a type parameter; a Java null result is None.
 */
module CommandRegistry {
  import opened Wrappers

  class DefaultCommandProvider<Command> {
    var commands: map<string, Command>

    constructor ()
      ensures commands == map[]
    {
      commands := map[];
    }

    /** Adds a command, replacing any earlier command of the same name. */
    method AddCommand(name: string, cmd: Command)
      modifies this
      ensures commands == old(commands)[name := cmd]
    {
      commands := commands[name := cmd];
    }

    /** Removes a command; every other entry stays as it was. */
    method RemoveCommand(cmdName: string)
      modifies this
      ensures commands == old(commands) - {cmdName}
    {
      commands := commands - {cmdName};
    }

    /** The names of the registered commands, as a set of its own. */
    method GetAvailableCommands() returns (names: set<string>)
      ensures names == commands.Keys
    {
      names := commands.Keys;
    }

    /** The command registered under commandName, or None. */
    method GetCommand(commandName: string) returns (cmd: Option<Command>)
      ensures cmd.Some? <==> commandName in commands
      ensures cmd.Some? ==> cmd.value == commands[commandName]
    {
      if commandName in commands {
        cmd := Some(commands[commandName]);
      } else {
        cmd := None;
      }
    }
  }

  /** A name added twice finds its second command; after its removal it is
      gone from the lookup and from the listed names, while a command added
      under another name is still found. */
  method ReplaceThenRemove<Command>(name: string, first: Command, second: Command, other: string, cmd: Command)
    returns (afterReplace: Option<Command>, afterRemove: Option<Command>, names: set<string>, otherFound: Option<Command>)
    requires other != name
    ensures afterReplace == Some(second)
    ensures afterRemove == None && name !in names && other in names
    ensures otherFound == Some(cmd)
  {
    var provider := new DefaultCommandProvider<Command>();
    provider.AddCommand(other, cmd);
    provider.AddCommand(name, first);
    provider.AddCommand(name, second);
    afterReplace := provider.GetCommand(name);
    provider.RemoveCommand(name);
    afterRemove := provider.GetCommand(name);
    names := provider.GetAvailableCommands();
    otherFound := provider.GetCommand(other);
  }
}
