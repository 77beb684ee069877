/**
 * HelpCommand: opens the help window, or shows the usage of one named
 * command from a fixed table.
 */
module HelpCommands {
  import opened Results
  import opened Text
  import opened Commands

  const CommandNotFound: string := "Unknown command! Use `help` to see available commands."
  const ShowingHelpMessage: string := "Opened help window."

  /**
   * COMMAND_HELP, keyed by command word. The words of add, edit and list come
   * from command classes that are not part of this model.
   */
  const CommandHelp: map<string, string> := map[
    "add" := "Usage: add n/NAME p/PHONE e/EMAIL a/ADDRESS [t/TAG]...\n"
      + "Adds a person to the address book.\nExample: "
      + "add n/John Doe p/98765432 e/johnd@example.com a/311, Clementi Ave 2, #02-25",
    "delete" := "Usage: delete [i/]INDEX\n"
      + "Deletes the person(s) identified by the index number(s) used in the displayed person list.\n"
      + "Parameters: INDEX (must be a positive integer)\n"
      + "Example: delete 1\n"
      + "For deleting multiple persons at once:\n"
      + "1. (Spaced format) Parameters: i/INDEX1 INDEX2 INDEX3 ... INDEXN "
      + "(Each INDEX must be a positive integer.)\n"
      + "Example: delete i/1 2 3 4 5\n"
      + "2. (Ranged format) Parameters: i/START_INDEX-END_INDEX "
      + "(START_INDEX and END_INDEX must be a positive integer.)\n"
      + "Example: delete i/9-99",
    "edit" := "Usage: edit INDEX "
      + "[n/NAME] [p/PHONE] [e/EMAIL] [a/ADDRESS] [t/TAG]\U{2026}\n"
      + "Edits the information of person identified by the index number\n"
      + "Example: edit 1 p/91234567 e/johndoe@example.com",
    "pin" := "Usage: pin INDEX\n"
      + "Pins the person identified in the index number.\n"
      + "Example: pin 1",
    "unpin" := "Usage: unpin INDEX\n"
      + "Unpins the person identified by the index number used "
      + "in the last person listing if they were pinned.\n"
      + "Example: unpin 1",
    "find" := "Usage: find [n/\"NAME\"] [p/\"PHONE\"] [e/\"EMAIL\"] "
      + "[a/\"ADDRESS\"] [t/\"TAG\"] \"KEYWORD\" [\"MORE_KEYWORDS\"]...\n"
      + "Finds all persons whose specified fields contain any of the given keywords (case-insensitive).\n"
      + "Use double quotation marks (\") around each input\n"
      + "Example: find n/\"Alice\" \"Bob\" p/\"98765432\" a/\"Bedok Central\" t/\"close friend\"",
    "note" := "Usage: note INDEX nt/NOTE\n"
      + "Changes the note of the person identified by the index number used in the displayed person list.\n"
      + "Example: note 1 nt/Does not like to be called",
    "viewnote" := "Usage: viewnote INDEX\n"
      + "Displays the note of the person identified by the index number used in the displayed person list.\n"
      + "Example: viewnote 2",
    "sort" := "Usage: sort [n/] [p/] [e/] [a/] [t/]\n"
      + "Sorts all persons by the specified attribute and displays them as a list.\n"
      + "Example: sort n/",
    "list" := "Usage: list\n"
      + "Lists all contacts in the address book.",
    "exit" := "Usage: exit\n"
      + "Exits the program.",
    "undo" := "Usage: undo\n"
      + "Undoes the last command\n",
    "redo" := "Usage: redo\n"
      + "Redoes the effect of last undo\n"
  ]

  /** The command words the table knows. */
  const CommandWords: seq<string> :=
    ["add", "delete", "edit", "pin", "unpin", "find", "note", "viewnote", "sort", "list", "exit", "undo", "redo"]

  /** The table holds exactly one entry per command word. */
  lemma CommandHelpKeys()
    ensures CommandHelp.Keys == set w | w in CommandWords
  {
  }

  /** A help command: no name, or the lower-cased name of a command. */
  datatype HelpCommand = HelpCommand(commandName: Option<string>)

  /** The no-argument constructor. */
  function GeneralHelp(): (c: HelpCommand)
    ensures c.commandName.None?
  {
    HelpCommand(None)
  }

  /** The named constructor: the name is lower-cased. */
  function NamedHelp(commandName: string): (c: HelpCommand)
    ensures c.commandName.Some? && |c.commandName.value| == |commandName|
    ensures forall i :: 0 <= i < |commandName| ==> c.commandName.value[i] == LowerChar(commandName[i])
  {
    HelpCommand(Some(ToLower(commandName)))
  }

  /** execute: never reads the model; opens the help window, or looks the name up in the table. */
  function Execute(c: HelpCommand): (r: CommandResult)
    ensures !r.exit
    ensures r.showHelp <==> c.commandName.None?
    ensures c.commandName.None? ==> r.feedbackToUser == ShowingHelpMessage
    ensures c.commandName.Some? && c.commandName.value in CommandHelp ==> r.feedbackToUser == CommandHelp[c.commandName.value]
    ensures c.commandName.Some? && c.commandName.value !in CommandHelp ==> r.feedbackToUser == CommandNotFound
  {
    match c.commandName
    case None => CommandResult(ShowingHelpMessage, true, false)
    case Some(name) =>
      if name in CommandHelp then Feedback(CommandHelp[name]) else Feedback(CommandNotFound)
  }

  /** Lower-casing is idempotent. */
  lemma {:induction false} ToLowerIdempotent(s: string)
    ensures ToLower(ToLower(s)) == ToLower(s)
  {
    if s != [] {
      ToLowerIdempotent(s[1..]);
    }
  }

  /** The case of the name never matters: a name and its lower-cased form get the same answer. */
  lemma HelpIgnoresCase(commandName: string)
    ensures Execute(NamedHelp(commandName)) == Execute(NamedHelp(ToLower(commandName)))
  {
    ToLowerIdempotent(commandName);
  }

  /** Every command word, in any case, gets its usage. */
  lemma HelpFindsEveryCommand(commandName: string)
    requires ToLower(commandName) in CommandWords
    ensures Execute(NamedHelp(commandName)).feedbackToUser == CommandHelp[ToLower(commandName)]
  {
    CommandHelpKeys();
  }
}

/** HelpCommandParser: the trimmed arguments name the command, if any. */
module HelpCommandParsers {
  import opened Results
  import opened Text
  import opened HelpCommands

  /** parse: never fails; blank arguments ask for the help window. */
  function ParseHelp(args: string): (c: HelpCommand)
    ensures Trim(args) == [] ==> c == GeneralHelp()
    ensures Trim(args) != [] ==> c == NamedHelp(Trim(args))
  {
    var trimmedArgs := Trim(args);
    if trimmedArgs == [] then GeneralHelp() else NamedHelp(trimmedArgs)
  }

  /** Only arguments made of characters trim removes ask for the help window. */
  lemma ParseHelpGeneral(args: string)
    ensures ParseHelp(args).commandName.None? <==> forall i :: 0 <= i < |args| ==> IsTrimmable(args[i])
  {
    TrimEmptyIff(args);
  }

  /** Leading and trailing spaces never change the command. */
  lemma ParseHelpIgnoresPadding(lead: string, args: string, trail: string)
    requires forall i :: 0 <= i < |lead| ==> IsTrimmable(lead[i])
    requires forall i :: 0 <= i < |trail| ==> IsTrimmable(trail[i])
    ensures ParseHelp(lead + args + trail) == ParseHelp(args)
  {
    TrimIgnoresPadding(lead, args, trail);
  }
}
