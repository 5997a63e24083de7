/**
 * source/parse.c: the in-place tokenizer.
 *
 * The `Parser` struct becomes a class; `parser_mark_argument`, `parser_read`
 * and `parser_write` become its methods.  Each `parse_*` state function
 * becomes a method that reads one character, acts on it exactly as the C
 * function does, and names the state function it tail-calls next (or the
 * status it returns); `Run` drives them from `parse_space` on.  Every state
 * method is proved to take the transition `Lexer.Feed` describes, so the whole
 * parse is proved against `Lexer.Lex`.
 *
 * The argument array holds offsets into the buffer where the C code stores
 * `char*` pointers into it.
 */
module Parse {
  import opened CStrings
  import opened Lexer

  /** What a state function does after its one read: tail-call another state, or return. */
  datatype Next = Continue(state: State) | Return(status: Status)

  /** `ParseResult` of include/cli/internal/parse.h. */
  datatype ParseResult = ParseResult(status: Status, argumentCount: nat)

  function Min(a: nat, b: nat): nat {
    if a < b then a else b
  }

  lemma Overwrite(w: seq<char>, c: char, rest: seq<char>)
    requires |rest| > 0
    ensures (w + rest)[|w| := c] == w + [c] + rest[1..]
  {
  }

  class Parser {
    const buffer: array<char>   // the input, rewritten in place
    var read: nat               // read head: offset of the next character to read
    var write: nat              // write head: offset of the next character to write
    const arguments: array<nat> // start offsets of the arguments found
    var argumentCount: nat
    const maxArguments: nat

    constructor (input: array<char>, arguments: array<nat>, maxArguments: nat)
      ensures buffer == input && this.arguments == arguments && this.maxArguments == maxArguments
      ensures read == 0 && write == 0 && argumentCount == 0
    {
      buffer := input;
      read, write := 0, 0;
      this.arguments := arguments;
      argumentCount := 0;
      this.maxArguments := maxArguments;
    }

    /**
     * The argument array once the arguments `Started(cfg)` have been begun:
     * the starts of the first `maxArguments` of them, the rest untouched.
     */
    ghost predicate Recorded(cfg: Config, oldArgs: seq<nat>)
      reads this, arguments
    {
      && maxArguments <= arguments.Length == |oldArgs|
      && argumentCount == Min(|Started(cfg)|, maxArguments)
      && arguments[..argumentCount] == Starts(Started(cfg))[..argumentCount]
      && arguments[argumentCount..] == oldArgs[argumentCount..]
    }

    /**
     * The parser part-way through the C string held in `orig`: `cfg` is the
     * machine after the characters before the read head, the write head has
     * produced `Written(cfg)` and has not passed the read head, and the buffer
     * from the write head on is as it was.
     */
    ghost predicate Tracks(cfg: Config, orig: seq<char>, oldArgs: seq<nat>)
      reads this, buffer, arguments
    {
      && NUL in orig && buffer.Length == |orig|
      && read <= |CString(orig)|
      && cfg == FeedAll(Start, CString(orig)[..read]) && WellFormed(cfg)
      && write == |Written(cfg)| <= read
      && buffer[..] == Written(cfg) + orig[write..]
      && Recorded(cfg, oldArgs)
    }

    /**
     * The parser after reading the terminating NUL in configuration `cfg`: the
     * read head rests on the NUL and the write head is past everything written,
     * including the NUL that ends an open argument.
     */
    ghost predicate Finished(cfg: Config, orig: seq<char>, oldArgs: seq<nat>)
      reads this, buffer, arguments
      requires NUL in orig
    {
      && read == |CString(orig)| && write == |Output(cfg)|
      && buffer.Length == |orig| && |Output(cfg)| <= |orig|
      && buffer[..] == Output(cfg) + orig[|Output(cfg)|..]
      && Recorded(cfg, oldArgs)
    }

    /**
     * What a state function achieved from `cfg` with the read head at `r0`:
     * either it read a character and now tracks the next configuration, or it
     * read the NUL and the parse is finished.
     */
    ghost predicate Stepped(cfg: Config, r0: nat, advanced: bool, orig: seq<char>, oldArgs: seq<nat>)
      reads this, buffer, arguments
      requires NUL in orig
    {
      var input := CString(orig);
      if advanced then
        r0 < |input| && read == r0 + 1 && Tracks(Feed(cfg, input[r0]), orig, oldArgs)
      else
        r0 == |input| && Finished(cfg, orig, oldArgs)
    }

    /** Under the read head is the next input character, or the NUL once the input is used up. */
    lemma ReadSeesInput(cfg: Config, orig: seq<char>, oldArgs: seq<nat>)
      requires Tracks(cfg, orig, oldArgs)
      ensures read < buffer.Length
      ensures buffer[read] == if read < |CString(orig)| then CString(orig)[read] else NUL
    {
      assert buffer[..][read] == orig[read];
    }

    /** Reading the character under the read head moves the machine one step along the input. */
    lemma Advances(cfg: Config, orig: seq<char>, r0: nat)
      requires NUL in orig && r0 < |CString(orig)|
      requires cfg == FeedAll(Start, CString(orig)[..r0])
      ensures FeedAll(Start, CString(orig)[..r0 + 1]) == Feed(cfg, CString(orig)[r0])
    {
      var input := CString(orig);
      assert input[..r0 + 1] == input[..r0] + [input[r0]];
      FeedAllSnoc(Start, input[..r0], input[r0]);
    }

    /** parser_mark_argument: record the write head as the start of an argument, while there is room. */
    method MarkArgument()
      requires argumentCount <= maxArguments <= arguments.Length
      modifies this`argumentCount, arguments
      ensures old(argumentCount) < maxArguments ==>
        argumentCount == old(argumentCount) + 1 && arguments[..] == old(arguments[..])[old(argumentCount) := write]
      ensures old(argumentCount) >= maxArguments ==>
        argumentCount == old(argumentCount) && arguments[..] == old(arguments[..])
    {
      if argumentCount < maxArguments {
        arguments[argumentCount] := write;
        argumentCount := argumentCount + 1;
      }
    }

    /** parser_read: the character under the read head, which moves on unless that character is the NUL. */
    method Read() returns (c: char)
      requires read < buffer.Length
      modifies this`read
      ensures c == buffer[old(read)]
      ensures read == if c == NUL then old(read) else old(read) + 1
    {
      c := buffer[read];
      if c != NUL {
        read := read + 1;
      }
    }

    /** parser_write: store `c` under the write head and move it on; it may not be ahead of the read head. */
    method Write(c: char)
      requires write <= read < buffer.Length
      modifies this`write, buffer
      ensures write == old(write) + 1
      ensures buffer[..] == old(buffer[..])[old(write) := c]
    {
      buffer[write] := c;
      write := write + 1;
    }

    /** The end of a step that read `c` and wrote `out` (nothing or one character). */
    lemma Stepping(cfg: Config, orig: seq<char>, oldArgs: seq<nat>, r0: nat, w0: nat, c: char)
      requires NUL in orig && r0 < |CString(orig)| && c == CString(orig)[r0]
      requires cfg == FeedAll(Start, CString(orig)[..r0]) && WellFormed(cfg)
      requires w0 == |Written(cfg)| <= r0 && read == r0 + 1 && buffer.Length == |orig|
      requires write == |Written(Feed(cfg, c))|
      requires write == w0 ==> buffer[..] == Written(cfg) + orig[w0..]
      requires write == w0 + 1 ==> buffer[..] == (Written(cfg) + orig[w0..])[w0 := Written(Feed(cfg, c))[w0]]
      requires Recorded(Feed(cfg, c), oldArgs)
      ensures Tracks(Feed(cfg, c), orig, oldArgs)
    {
      Advances(cfg, orig, r0);
      FeedEffects(cfg, c);
      if write == w0 + 1 {
        Overwrite(Written(cfg), Written(Feed(cfg, c))[w0], orig[w0..]);
        assert orig[w0..][1..] == orig[w0 + 1..];
      }
    }

    /** Marking an argument on leaving state Space records its start, while there is room. */
    lemma MarkRecords(cfg: Config, c: char, oldArgs: seq<nat>, count0: nat, args0: seq<nat>)
      requires WellFormed(cfg) && cfg.state == Space && Feed(cfg, c).state != Space
      requires maxArguments <= arguments.Length == |oldArgs| == |args0|
      requires count0 == Min(|Started(cfg)|, maxArguments)
      requires args0[..count0] == Starts(Started(cfg))[..count0] && args0[count0..] == oldArgs[count0..]
      requires write == |Written(cfg)|
      requires count0 < maxArguments ==> argumentCount == count0 + 1 && arguments[..] == args0[count0 := write]
      requires count0 >= maxArguments ==> argumentCount == count0 && arguments[..] == args0
      ensures Recorded(Feed(cfg, c), oldArgs)
    {
      FeedEffects(cfg, c);
      var starts := Starts(Started(Feed(cfg, c)));
      assert starts == Starts(Started(cfg)) + [write];
      if count0 < maxArguments {
        assert arguments[..argumentCount] == args0[..count0] + [write];
        assert starts[..argumentCount] == Starts(Started(cfg))[..count0] + [write];
      } else {
        assert starts[..argumentCount] == Starts(Started(cfg))[..count0];
      }
    }

    /** parse_slash: inside an argument, after a bare backslash. */
    method ParseSlash(ghost cfg: Config, ghost orig: seq<char>, ghost oldArgs: seq<nat>) returns (next: Next)
      requires Tracks(cfg, orig, oldArgs) && cfg.state == Slash
      modifies this`read, this`write, this`argumentCount, buffer, arguments
      ensures Stepped(cfg, old(read), next.Continue?, orig, oldArgs)
      ensures next.Continue? ==> next.state == Feed(cfg, CString(orig)[old(read)]).state
      ensures next.Return? ==> next.status == Finish(cfg).status
    {
      ghost var r0, w0 := read, write;
      ReadSeesInput(cfg, orig, oldArgs);
      var c := Read();
      if c == NUL {
        return Return(EofAfterSlash);
      } else {
        Write(c);
        next := Continue(Argument);
      }
      Stepping(cfg, orig, oldArgs, r0, w0, c);
    }

    /** parse_single_quote_slash: inside single quotes, after a backslash. */
    method ParseSingleQuoteSlash(ghost cfg: Config, ghost orig: seq<char>, ghost oldArgs: seq<nat>) returns (next: Next)
      requires Tracks(cfg, orig, oldArgs) && cfg.state == SingleQuoteSlash
      modifies this`read, this`write, this`argumentCount, buffer, arguments
      ensures Stepped(cfg, old(read), next.Continue?, orig, oldArgs)
      ensures next.Continue? ==> next.state == Feed(cfg, CString(orig)[old(read)]).state
      ensures next.Return? ==> next.status == Finish(cfg).status
    {
      ghost var r0, w0 := read, write;
      ReadSeesInput(cfg, orig, oldArgs);
      var c := Read();
      if c == NUL {
        return Return(EofAfterSlash);
      } else {
        Write(c);
        next := Continue(SingleQuote);
      }
      Stepping(cfg, orig, oldArgs, r0, w0, c);
    }

    /** parse_single_quote: inside single quotes. */
    method ParseSingleQuote(ghost cfg: Config, ghost orig: seq<char>, ghost oldArgs: seq<nat>) returns (next: Next)
      requires Tracks(cfg, orig, oldArgs) && cfg.state == SingleQuote
      modifies this`read, this`write, this`argumentCount, buffer, arguments
      ensures Stepped(cfg, old(read), next.Continue?, orig, oldArgs)
      ensures next.Continue? ==> next.state == Feed(cfg, CString(orig)[old(read)]).state
      ensures next.Return? ==> next.status == Finish(cfg).status
    {
      ghost var r0, w0 := read, write;
      ReadSeesInput(cfg, orig, oldArgs);
      var c := Read();
      if c == NUL {
        return Return(UnterminatedSingleQuote);
      } else if c == '\'' {
        next := Continue(Argument);
      } else if c == '\\' {
        next := Continue(SingleQuoteSlash);
      } else {
        Write(c);
        next := Continue(SingleQuote);
      }
      Stepping(cfg, orig, oldArgs, r0, w0, c);
    }

    /** parse_double_quote_slash: inside double quotes, after a backslash. */
    method ParseDoubleQuoteSlash(ghost cfg: Config, ghost orig: seq<char>, ghost oldArgs: seq<nat>) returns (next: Next)
      requires Tracks(cfg, orig, oldArgs) && cfg.state == DoubleQuoteSlash
      modifies this`read, this`write, this`argumentCount, buffer, arguments
      ensures Stepped(cfg, old(read), next.Continue?, orig, oldArgs)
      ensures next.Continue? ==> next.state == Feed(cfg, CString(orig)[old(read)]).state
      ensures next.Return? ==> next.status == Finish(cfg).status
    {
      ghost var r0, w0 := read, write;
      ReadSeesInput(cfg, orig, oldArgs);
      var c := Read();
      if c == NUL {
        return Return(EofAfterSlash);
      } else {
        Write(c);
        next := Continue(DoubleQuote);
      }
      Stepping(cfg, orig, oldArgs, r0, w0, c);
    }

    /** parse_double_quote: inside double quotes. */
    method ParseDoubleQuote(ghost cfg: Config, ghost orig: seq<char>, ghost oldArgs: seq<nat>) returns (next: Next)
      requires Tracks(cfg, orig, oldArgs) && cfg.state == DoubleQuote
      modifies this`read, this`write, this`argumentCount, buffer, arguments
      ensures Stepped(cfg, old(read), next.Continue?, orig, oldArgs)
      ensures next.Continue? ==> next.state == Feed(cfg, CString(orig)[old(read)]).state
      ensures next.Return? ==> next.status == Finish(cfg).status
    {
      ghost var r0, w0 := read, write;
      ReadSeesInput(cfg, orig, oldArgs);
      var c := Read();
      if c == NUL {
        return Return(UnterminatedDoubleQuote);
      } else if c == '"' {
        next := Continue(Argument);
      } else if c == '\\' {
        next := Continue(DoubleQuoteSlash);
      } else {
        Write(c);
        next := Continue(DoubleQuote);
      }
      Stepping(cfg, orig, oldArgs, r0, w0, c);
    }

    /** parse_argument: inside an argument, no special characters in effect. */
    method ParseArgument(ghost cfg: Config, ghost orig: seq<char>, ghost oldArgs: seq<nat>) returns (next: Next)
      requires Tracks(cfg, orig, oldArgs) && cfg.state == Argument
      modifies this`read, this`write, this`argumentCount, buffer, arguments
      ensures Stepped(cfg, old(read), next.Continue?, orig, oldArgs)
      ensures next.Continue? ==> next.state == Feed(cfg, CString(orig)[old(read)]).state
      ensures next.Return? ==> next.status == Finish(cfg).status
    {
      ghost var r0, w0 := read, write;
      ReadSeesInput(cfg, orig, oldArgs);
      var c := Read();
      if c == NUL {
        Write(NUL);
        Overwrite(Written(cfg), NUL, orig[w0..]);
        assert orig[w0..][1..] == orig[w0 + 1..];
        return Return(Success);
      } else if IsSpace(c) {
        Write(NUL);
        next := Continue(Space);
      } else if c == '\'' {
        next := Continue(SingleQuote);
      } else if c == '"' {
        next := Continue(DoubleQuote);
      } else if c == '\\' {
        next := Continue(Slash);
      } else {
        Write(c);
        next := Continue(Argument);
      }
      Stepping(cfg, orig, oldArgs, r0, w0, c);
    }

    /** parse_space: between arguments; the first character of an argument marks its start. */
    method ParseSpace(ghost cfg: Config, ghost orig: seq<char>, ghost oldArgs: seq<nat>) returns (next: Next)
      requires Tracks(cfg, orig, oldArgs) && cfg.state == Space
      modifies this`read, this`write, this`argumentCount, buffer, arguments
      ensures Stepped(cfg, old(read), next.Continue?, orig, oldArgs)
      ensures next.Continue? ==> next.state == Feed(cfg, CString(orig)[old(read)]).state
      ensures next.Return? ==> next.status == Finish(cfg).status
    {
      ghost var r0, w0, count0, args0 := read, write, argumentCount, arguments[..];
      ReadSeesInput(cfg, orig, oldArgs);
      var c := Read();
      if c == NUL {
        return Return(Success);
      }
      FeedEffects(cfg, c);
      if IsSpace(c) {
        next := Continue(Space);
      } else if c == '\\' {
        MarkArgument();
        MarkRecords(cfg, c, oldArgs, count0, args0);
        next := Continue(Slash);
      } else if c == '\'' {
        MarkArgument();
        MarkRecords(cfg, c, oldArgs, count0, args0);
        next := Continue(SingleQuote);
      } else if c == '"' {
        MarkArgument();
        MarkRecords(cfg, c, oldArgs, count0, args0);
        next := Continue(DoubleQuote);
      } else {
        MarkArgument();
        MarkRecords(cfg, c, oldArgs, count0, args0);
        Write(c);
        next := Continue(Argument);
      }
      Stepping(cfg, orig, oldArgs, r0, w0, c);
    }

    /** The tail call: enter the state function of `state`. */
    method Step(state: State, ghost cfg: Config, ghost orig: seq<char>, ghost oldArgs: seq<nat>) returns (next: Next)
      requires Tracks(cfg, orig, oldArgs) && cfg.state == state
      modifies this`read, this`write, this`argumentCount, buffer, arguments
      ensures Stepped(cfg, old(read), next.Continue?, orig, oldArgs)
      ensures next.Continue? ==> next.state == Feed(cfg, CString(orig)[old(read)]).state
      ensures next.Return? ==> next.status == Finish(cfg).status
    {
      match state {
        case Space => next := ParseSpace(cfg, orig, oldArgs);
        case Argument => next := ParseArgument(cfg, orig, oldArgs);
        case Slash => next := ParseSlash(cfg, orig, oldArgs);
        case SingleQuote => next := ParseSingleQuote(cfg, orig, oldArgs);
        case SingleQuoteSlash => next := ParseSingleQuoteSlash(cfg, orig, oldArgs);
        case DoubleQuote => next := ParseDoubleQuote(cfg, orig, oldArgs);
        case DoubleQuoteSlash => next := ParseDoubleQuoteSlash(cfg, orig, oldArgs);
      }
    }

    /**
     * parse_space and the state functions it tail-calls, as one loop over the
     * state.  Every state reads once before it writes, and reads past no NUL,
     * so the read head only moves forward and the loop ends at the NUL.
     */
    method Run() returns (status: Status)
      requires read == 0 && write == 0 && argumentCount == 0
      requires maxArguments <= arguments.Length && NUL in buffer[..]
      modifies this`read, this`write, this`argumentCount, buffer, arguments
      ensures status == Lex(CString(old(buffer[..]))).status
      ensures Finished(FeedAll(Start, CString(old(buffer[..]))), old(buffer[..]), old(arguments[..]))
    {
      ghost var orig, oldArgs := buffer[..], arguments[..];
      ghost var input := CString(orig);
      var state := Space;
      ghost var cfg := Start;
      assert input[..0] == [];
      while true
        invariant Tracks(cfg, orig, oldArgs) && state == cfg.state
        decreases |input| - read
      {
        ghost var r0 := read;
        assert cfg == FeedAll(Start, input[..r0]);
        var next := Step(state, cfg, orig, oldArgs);
        if next.Return? {
          WholeInput(input, r0, cfg);
          return next.status;
        }
        cfg := Feed(cfg, input[r0]);
        state := next.state;
      }
    }
  }

  /**
   * The header's rule that the write head never passes the read head holds at
   * every write.  After the last one it may not: on reading the NUL in an
   * argument, parse_argument writes the closing NUL at the write head while
   * the read head stays on the NUL.  When every character read was copied,
   * the write head ends one past the read head.  Parsing "a" ends with the
   * read head at 1 and the write head at 2.
   */
  method FinalWritePassesReadHead() returns (read: nat, write: nat)
    ensures read == 1 && write == 2
  {
    var buffer := new char[2]['a', NUL];
    var arguments := new nat[1];
    var parser := new Parser(buffer, arguments, 1);
    assert buffer[..] == ['a', NUL];
    assert CString(buffer[..]) == "a";
    assert FeedAll(Start, "a") == Config(Argument, [], "a") by {
      assert "a"[..0] == [];
    }
    var _ := parser.Run();
    read, write := parser.read, parser.write;
  }

  /**
   * When a character read was not copied, the closing NUL lands behind the
   * read head, over a character already read.  Parsing `"a"` (with its
   * quotes) ends with the read head at 3 and the write head at 2.
   */
  method FinalWriteBehindReadHead() returns (read: nat, write: nat)
    ensures read == 3 && write == 2
  {
    var buffer := new char[4]['"', 'a', '"', NUL];
    var arguments := new nat[1];
    var parser := new Parser(buffer, arguments, 1);
    assert buffer[..] == ['"', 'a', '"', NUL];
    assert CString(buffer[..]) == ['"', 'a', '"'];
    assert FeedAll(Start, ['"', 'a', '"']) == Config(Argument, [], "a") by {
      assert ['"', 'a', '"'][..2] == ['"', 'a'];
      assert ['"', 'a'][..1] == ['"'];
      assert ['"'][..0] == [];
      assert FeedAll(Start, ['"']) == Config(DoubleQuote, [], []);
      assert FeedAll(Start, ['"', 'a']) == Config(DoubleQuote, [], "a");
    }
    var _ := parser.Run();
    read, write := parser.read, parser.write;
  }

  /** Once the read head is at the NUL, the machine has consumed the whole input. */
  lemma WholeInput(input: string, r0: nat, cfg: Config)
    requires r0 == |input| && cfg == FeedAll(Start, input[..r0])
    ensures cfg == FeedAll(Start, input) && Finish(cfg) == Lex(input)
  {
    assert input[..r0] == input;
  }

  /**
   * libcli_parse: split the NUL-terminated `input` into arguments in place.
   * The status and the buffer are those of `Lex`; the first `maxArguments`
   * argument starts are recorded (later ones silently dropped, their
   * characters still copied), and on success each recorded offset denotes its
   * argument as a C string.
   */
  method LibcliParse(input: array<char>, arguments: array<nat>, maxArguments: nat) returns (result: ParseResult)
    requires NUL in input[..]
    requires maxArguments <= arguments.Length
    modifies input, arguments
    ensures var s := CString(old(input[..]));
      && result.status == Lex(s).status
      && result.argumentCount == Min(|Lex(s).tokens|, maxArguments) <= maxArguments
      && input[..] == Rewritten(s) + old(input[..])[|Rewritten(s)|..]
      && arguments[..result.argumentCount] == Starts(Lex(s).tokens)[..result.argumentCount]
      && arguments[result.argumentCount..] == old(arguments[..])[result.argumentCount..]
      && (result.status == Success ==> Denotes(input[..], arguments[..result.argumentCount], Lex(s).tokens))
  {
    var parser := new Parser(input, arguments, maxArguments);
    var status := parser.Run();
    result := ParseResult(status, parser.argumentCount);
    ghost var s := CString(old(input[..]));
    if status == Success {
      RecordedDenote(s, input[..], old(input[..]), arguments[..], result.argumentCount);
    }
  }

  /** On success the recorded offsets point at the arguments, read back as C strings. */
  lemma RecordedDenote(s: string, buf: seq<char>, orig: seq<char>, args: seq<nat>, count: nat)
    requires Lex(s).status == Success && NUL !in s
    requires |Rewritten(s)| <= |orig| && buf == Rewritten(s) + orig[|Rewritten(s)|..]
    requires count <= |Lex(s).tokens| && count <= |args|
    requires args[..count] == Starts(Lex(s).tokens)[..count]
    ensures Denotes(buf, args[..count], Lex(s).tokens)
  {
    var ts := Lex(s).tokens;
    var rest := orig[|Rewritten(s)|..];
    FeedAllNoNul(Start, s);
    FeedAllWellFormed(Start, s);
    RewrittenOnSuccess(s);
    assert buf == Join(ts) + rest;
    forall k | 0 <= k < count
      ensures args[..count][k] <= |buf| && NUL in buf[args[..count][k]..]
      ensures CStringAt(buf, args[..count][k]) == ts[k]
    {
      assert args[..count][k] == Starts(ts)[k];
      ReadBack(ts, k, rest);
    }
  }
}
