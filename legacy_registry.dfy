/*
 * The earlier command registry of src/cli.c.  Its `search` compares
 * `strcmp(name, command->name)` where source/cli.c compares the other way
 * round, with the same branches, so its table is kept in strictly descending
 * `strcmp` order.  It registers no help command and `libcli_run` reports
 * nothing.  A command is the identity of its function; `Run` returns the call
 * it makes.
 */
module LegacyRegistry {
  import opened CStrings
  import opened CommandTable

  /** A call of a command function with the caller's `userdata`. */
  datatype Invocation = Invocation(id: nat, userdata: nat)

  datatype SearchResult = SearchResult(found: bool, index: nat)

  /** `CliHeader`. */
  class Cli {
    const capacity: nat
    var count: nat
    const commands: array<Entry<nat>>

    ghost predicate Valid()
      reads this, commands
    {
      commands.Length == capacity && count <= capacity && Sorted(commands[..count], Descending)
    }

    /** The registered commands, in table order. */
    ghost function Contents(): seq<Entry<nat>>
      reads this, commands
      requires count <= commands.Length
    {
      commands[..count]
    }

    /** libcli_new: an empty table over `commands`, of capacity `commandsSize`. */
    constructor (commandsSize: nat, commands: array<Entry<nat>>)
      requires commands.Length == commandsSize
      ensures Valid() && capacity == commandsSize && this.commands == commands
      ensures Contents() == []
    {
      capacity := commandsSize;
      count := 0;
      this.commands := commands;
    }

    /**
     * search: binary search for `name` in the descending table.  It finds the
     * entry of that name, or else reports that there is none and returns the
     * index where it belongs.
     */
    method Search(name: string) returns (result: SearchResult)
      requires Valid()
      ensures result.found ==> result.index < count && commands[result.index].name == name
      ensures !result.found ==> !Named(Contents(), name) && result.index == Rank(Contents(), name, Descending)
    {
      ghost var s := Contents();
      var size := count;
      var left, right := 0, size;
      while left < right
        invariant 0 <= left <= right <= count && size == right - left
        invariant forall j | 0 <= j < left :: Precedes(s[j].name, name, Descending)
        invariant forall j | right <= j < count :: Precedes(name, s[j].name, Descending)
      {
        var mid := left + size / 2;
        assert commands[mid] == s[mid];
        var cmp := Strcmp(name, commands[mid].name);
        if cmp < 0 {
          StrcmpAntisymmetric(name, s[mid].name);
          forall j | left <= j < mid ensures Precedes(s[j].name, name, Descending) {
            PrecedesTransitive(s[j].name, s[mid].name, name, Descending);
          }
          left := mid + 1;
        } else if cmp > 0 {
          forall j | mid < j < right ensures Precedes(name, s[j].name, Descending) {
            PrecedesTransitive(name, s[mid].name, s[j].name, Descending);
          }
          right := mid;
        } else {
          return SearchResult(true, mid);
        }
        size := right - left;
      }
      InsertionPointIsRank(s, name, left, Descending);
      return SearchResult(false, left);
    }

    /**
     * The insertion half of libcli_add: shift the entries from `index` up one
     * place and store `command` at `index`, its insertion point.
     */
    method Insert(index: nat, command: Entry<nat>)
      requires Valid() && count < capacity
      requires !Named(Contents(), command.name) && index == Rank(Contents(), command.name, Descending)
      modifies this`count, commands
      ensures Valid()
      ensures count == old(count) + 1
      ensures commands[..] == old(commands[..index]) + [command] + old(commands[index..capacity - 1])
      ensures Contents() == Added(old(Contents()), command, Descending)
    {
      ghost var a0 := commands[..];
      ghost var a1 := a0[..index] + [command] + a0[index..|a0| - 1];
      assert a0[..count] == Contents();
      Inserted(a0, index, command, count, Descending);
      InsertAt(commands, index, command);
      assert commands[..] == a1;
      assert commands[..count + 1] == a1[..count + 1];
      count := count + 1;
    }

    /**
     * libcli_add: refuse when the table is full (checked before searching) or
     * when `name` is already there; otherwise shift the tail right and insert.
     */
    method Add(name: string, command: nat) returns (added: bool)
      requires Valid()
      modifies this`count, commands
      ensures Valid()
      ensures added <==> old(count) < capacity && !Named(old(Contents()), name)
      ensures !added ==> count == old(count) && commands[..] == old(commands[..])
      ensures added ==> var i := Rank(old(Contents()), name, Descending);
        && count == old(count) + 1
        && commands[..] == old(commands[..i]) + [Entry(name, command)] + old(commands[i..capacity - 1])
        && Contents() == Added(old(Contents()), Entry(name, command), Descending)
    {
      if count >= capacity {
        return false;
      }
      var result := Search(name);
      if result.found {
        return false;
      }
      Insert(result.index, Entry(name, command));
      added := true;
    }

    /** libcli_run: call the function of the command named `input`, if there is one. */
    method Run(input: string, userdata: nat) returns (calls: seq<Invocation>)
      requires Valid()
      ensures !Named(Contents(), input) ==> calls == []
      ensures Named(Contents(), input) ==> exists i | 0 <= i < count ::
        commands[i].name == input && calls == [Invocation(commands[i].handler, userdata)]
    {
      var result := Search(input);
      if result.found {
        var command := commands[result.index];
        assert Contents()[result.index] == command;
        calls := [Invocation(command.handler, userdata)];
      } else {
        calls := [];
      }
    }
  }
}
