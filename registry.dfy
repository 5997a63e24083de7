/*
 * The command registry of source/cli.c: a `CliHeader` over a caller-supplied
 * array of `capacity` commands, the first `count` of them in strictly
 * ascending `strcmp` order.  The writeback sink and the command functions are
 * not called here: `RunHelp` and `Run` return the calls they make, in order,
 * as a list of `Effect`s.
 */
module Registry {
  import opened CStrings
  import opened CommandTable

  /** What a command runs: the built-in help listing, or a user function (by its identity). */
  datatype Handler = Help | User(id: nat)

  /** One call out of the registry: a string to the writeback sink, or a command function. */
  datatype Effect = Writeback(text: string) | Invoke(id: nat, userdata: nat)

  /** `CliRunResult`. */
  datatype RunResult = Ok | Unknown

  /** `SearchResult`: a match and its index, or the insertion point. */
  datatype SearchResult = SearchResult(found: bool, index: nat)

  /** The lines of the help listing, one pair of writes per command, in table order. */
  function Listing(s: seq<Entry<Handler>>): seq<Effect> {
    if s == [] then []
    else Listing(s[..|s| - 1]) + [Writeback("\n    "), Writeback(s[|s| - 1].name)]
  }

  /** Everything `run_help_command` writes for the table `s`. */
  function HelpWrites(s: seq<Entry<Handler>>): seq<Effect> {
    [Writeback("list of commands:")] + Listing(s) + [Writeback("\n")]
  }

  /** The calls `libcli_run` makes for a found command. */
  function Dispatch(handler: Handler, userdata: nat, s: seq<Entry<Handler>>): seq<Effect> {
    match handler
    case Help => HelpWrites(s)
    case User(f) => [Invoke(f, userdata)]
  }

  /** Write by write: the header, an indented line per command in table order, a final newline. */
  lemma {:induction false} HelpWritesLayout(s: seq<Entry<Handler>>)
    ensures |HelpWrites(s)| == 2 * |s| + 2
    ensures HelpWrites(s)[0] == Writeback("list of commands:")
    ensures forall i | 0 <= i < |s| ::
      HelpWrites(s)[2 * i + 1] == Writeback("\n    ") && HelpWrites(s)[2 * i + 2] == Writeback(s[i].name)
    ensures HelpWrites(s)[2 * |s| + 1] == Writeback("\n")
  {
    ListingLayout(s);
    var l := Listing(s);
    assert HelpWrites(s) == [Writeback("list of commands:")] + l + [Writeback("\n")];
    forall i | 0 <= i < |s|
      ensures HelpWrites(s)[2 * i + 1] == Writeback("\n    ") && HelpWrites(s)[2 * i + 2] == Writeback(s[i].name)
    {
      assert HelpWrites(s)[2 * i + 1] == l[2 * i] && HelpWrites(s)[2 * i + 2] == l[2 * i + 1];
    }
  }

  lemma {:induction false} ListingLayout(s: seq<Entry<Handler>>)
    ensures |Listing(s)| == 2 * |s|
    ensures forall i | 0 <= i < |s| ::
      Listing(s)[2 * i] == Writeback("\n    ") && Listing(s)[2 * i + 1] == Writeback(s[i].name)
  {
    if s != [] {
      var init := s[..|s| - 1];
      ListingLayout(init);
      forall i | 0 <= i < |s|
        ensures Listing(s)[2 * i] == Writeback("\n    ") && Listing(s)[2 * i + 1] == Writeback(s[i].name)
      {
        if i < |init| {
          assert init[i] == s[i];
        }
      }
    }
  }

  /** Only the command named `help` runs the help listing. */
  ghost predicate HelpReserved(s: seq<Entry<Handler>>) {
    forall i | 0 <= i < |s| :: s[i].handler == Help ==> s[i].name == "help"
  }

  /** Adding a command keeps `Help` reserved for `help`, unless the new command breaks the rule itself. */
  lemma HelpStaysReserved(s: seq<Entry<Handler>>, e: Entry<Handler>, t: seq<Entry<Handler>>)
    requires HelpReserved(s) && (e.handler == Help ==> e.name == "help")
    requires forall x :: x in t <==> x in s || x == e
    ensures HelpReserved(t)
  {
    forall i | 0 <= i < |t| && t[i] != e ensures t[i].handler == Help ==> t[i].name == "help" {
      assert t[i] in s;
      var j :| 0 <= j < |s| && s[j] == t[i];
    }
  }

  /** `CommandTable.Inserted` for this registry: the insertion also keeps `Help` reserved for `help`. */
  lemma InsertedReserved(a0: seq<Entry<Handler>>, index: nat, e: Entry<Handler>, count: nat)
    requires count < |a0| && Sorted(a0[..count], Ascending) && !Named(a0[..count], e.name)
    requires HelpReserved(a0[..count]) && (e.handler == Help ==> e.name == "help")
    requires index == Rank(a0[..count], e.name, Ascending)
    ensures (a0[..index] + [e] + a0[index..|a0| - 1])[..count + 1] == Added(a0[..count], e, Ascending)
    ensures Sorted((a0[..index] + [e] + a0[index..|a0| - 1])[..count + 1], Ascending)
    ensures HelpReserved((a0[..index] + [e] + a0[index..|a0| - 1])[..count + 1])
  {
    Inserted(a0, index, e, count, Ascending);
    HelpStaysReserved(a0[..count], e, (a0[..index] + [e] + a0[index..|a0| - 1])[..count + 1]);
  }

  /** `CliHeader`. */
  class Cli {
    const capacity: nat
    var count: nat
    const commands: array<Entry<Handler>>

    /**
     * The table is sorted within its capacity, and only `help` runs the help
     * listing: `dummy_help_command` is private to source/cli.c, so only
     * libcli_new can register it.
     */
    ghost predicate Valid()
      reads this, commands
    {
      && commands.Length == capacity && count <= capacity && Sorted(commands[..count], Ascending)
      && HelpReserved(commands[..count])
    }

    /** The registered commands, in table order. */
    ghost function Contents(): seq<Entry<Handler>>
      reads this, commands
      requires count <= commands.Length
    {
      commands[..count]
    }

    /**
     * libcli_new: a table over `commands`, of capacity `commandsSize`, with
     * the help command registered when there is room for it.
     */
    constructor (commandsSize: nat, commands: array<Entry<Handler>>)
      requires commands.Length == commandsSize
      modifies commands
      ensures Valid() && capacity == commandsSize && this.commands == commands
      ensures Contents() == if commandsSize >= 1 then [Entry("help", Help)] else []
    {
      capacity := commandsSize;
      count := 0;
      this.commands := commands;
      new;
      var _ := Add("help", Help);
    }

    /**
     * search: binary search for `name`.  It finds the entry of that name, or
     * else reports that there is none and returns the index where it belongs.
     */
    method Search(name: string) returns (result: SearchResult)
      requires Valid()
      ensures result.found ==> result.index < count && commands[result.index].name == name
      ensures !result.found ==> !Named(Contents(), name) && result.index == Rank(Contents(), name, Ascending)
    {
      ghost var s := Contents();
      var size := count;
      var left, right := 0, size;
      while left < right
        invariant 0 <= left <= right <= count && size == right - left
        invariant forall j | 0 <= j < left :: Precedes(s[j].name, name, Ascending)
        invariant forall j | right <= j < count :: Precedes(name, s[j].name, Ascending)
      {
        var mid := left + size / 2;
        assert commands[mid] == s[mid];
        var cmp := Strcmp(commands[mid].name, name);
        if cmp < 0 {
          forall j | left <= j < mid ensures Precedes(s[j].name, name, Ascending) {
            PrecedesTransitive(s[j].name, s[mid].name, name, Ascending);
          }
          left := mid + 1;
        } else if cmp > 0 {
          StrcmpAntisymmetric(s[mid].name, name);
          forall j | mid < j < right ensures Precedes(name, s[j].name, Ascending) {
            PrecedesTransitive(name, s[mid].name, s[j].name, Ascending);
          }
          right := mid;
        } else {
          return SearchResult(true, mid);
        }
        size := right - left;
      }
      InsertionPointIsRank(s, name, left, Ascending);
      return SearchResult(false, left);
    }

    /**
     * The insertion half of add_command: shift the entries from `index` up one
     * place and store `command` at `index`, its insertion point.
     */
    method Insert(index: nat, command: Entry<Handler>)
      requires Valid() && count < capacity
      requires !Named(Contents(), command.name) && index == Rank(Contents(), command.name, Ascending)
      requires command.handler == Help ==> command.name == "help"
      modifies this`count, commands
      ensures Valid()
      ensures count == old(count) + 1
      ensures commands[..] == old(commands[..index]) + [command] + old(commands[index..capacity - 1])
      ensures Contents() == Added(old(Contents()), command, Ascending)
    {
      ghost var a0 := commands[..];
      ghost var a1 := a0[..index] + [command] + a0[index..|a0| - 1];
      assert a0[..count] == Contents();
      InsertedReserved(a0, index, command, count);
      InsertAt(commands, index, command);
      assert commands[..] == a1;
      assert commands[..count + 1] == a1[..count + 1];
      count := count + 1;
    }

    /**
     * add_command: insert `name` at its place unless it is already there.
     * The caller has checked that there is room.
     */
    method AddCommand(name: string, handler: Handler) returns (added: bool)
      requires Valid() && count < capacity
      requires handler == Help ==> name == "help"
      modifies this`count, commands
      ensures Valid()
      ensures added <==> !Named(old(Contents()), name)
      ensures !added ==> count == old(count) && commands[..] == old(commands[..])
      ensures added ==> var i := Rank(old(Contents()), name, Ascending);
        && count == old(count) + 1
        && commands[..] == old(commands[..i]) + [Entry(name, handler)] + old(commands[i..capacity - 1])
        && Contents() == Added(old(Contents()), Entry(name, handler), Ascending)
    {
      var result := Search(name);
      if result.found {
        return false;
      }
      Insert(result.index, Entry(name, handler));
      added := true;
    }

    /** libcli_add: add `name` if there is room and it is not already registered. */
    method Add(name: string, handler: Handler) returns (added: bool)
      requires Valid()
      requires handler == Help ==> name == "help"
      modifies this`count, commands
      ensures Valid()
      ensures added <==> old(count) < capacity && !Named(old(Contents()), name)
      ensures !added ==> count == old(count) && commands[..] == old(commands[..])
      ensures added ==> var i := Rank(old(Contents()), name, Ascending);
        && count == old(count) + 1
        && commands[..] == old(commands[..i]) + [Entry(name, handler)] + old(commands[i..capacity - 1])
        && Contents() == Added(old(Contents()), Entry(name, handler), Ascending)
    {
      if count < capacity {
        added := AddCommand(name, handler);
      } else {
        added := false;
      }
    }

    /** run_help_command: the header line, then each command's name on its own indented line. */
    method RunHelp() returns (effects: seq<Effect>)
      requires Valid()
      ensures effects == HelpWrites(Contents())
    {
      effects := [Writeback("list of commands:")];
      var i := 0;
      while i < count
        invariant i <= count
        invariant effects == [Writeback("list of commands:")] + Listing(commands[..i])
      {
        var command := commands[i];
        effects := effects + [Writeback("\n    "), Writeback(command.name)];
        assert commands[..i + 1][..i] == commands[..i];
        i := i + 1;
      }
      effects := effects + [Writeback("\n")];
      assert commands[..i] == Contents();
    }

    /**
     * libcli_run: an unknown name runs nothing; a known one runs the help
     * listing or its own function, with `userdata`.
     */
    method Run(input: string, userdata: nat) returns (result: RunResult, effects: seq<Effect>)
      requires Valid()
      ensures result == Unknown <==> !Named(Contents(), input)
      ensures result == Unknown ==> effects == []
      ensures result == Ok ==> exists i | 0 <= i < count ::
        commands[i].name == input && effects == Dispatch(commands[i].handler, userdata, Contents())
    {
      var found := Search(input);
      if !found.found {
        return Unknown, [];
      }
      var command := commands[found.index];
      assert Contents()[found.index] == command;
      if command.handler == Help {
        effects := RunHelp();
      } else {
        effects := [Invoke(command.handler.id, userdata)];
      }
      result := Ok;
    }
  }
}
