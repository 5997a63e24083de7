/*
 * The earlier tokenizer of source/cli_internal.c.  Its state functions make
 * the same transitions and the same writes as those of source/parse.c, so they
 * are proved against the same `Lexer` specification and drive the same
 * `Parse.Parser`; what differs is the result: every way of running out of
 * input is one `unexpected_eof`, and `libcli_parse` reports 0 arguments then.
 */
module CliInternal {
  import opened CStrings
  import opened Lexer
  import Parse

  /** The C enum `ParseResult`. */
  datatype ParseResult = Ok | UnexpectedEof

  /** What a state function does next: enter another state, or return. */
  datatype Next = Continue(state: State) | Return(result: ParseResult)

  /** The fine-grained status of the specification, as this file reports it. */
  function Collapse(status: Status): (r: ParseResult)
    ensures r == Ok <==> status == Success
  {
    if status == Success then Ok else UnexpectedEof
  }

  /** parse_slash: inside an argument, after a bare backslash. */
  method ParseSlash(p: Parse.Parser, ghost cfg: Config, ghost orig: seq<char>, ghost oldArgs: seq<nat>) returns (next: Next)
    requires p.Tracks(cfg, orig, oldArgs) && cfg.state == Slash
    modifies p`read, p`write, p`argumentCount, p.buffer, p.arguments
    ensures p.Stepped(cfg, old(p.read), next.Continue?, orig, oldArgs)
    ensures next.Continue? ==> next.state == Feed(cfg, CString(orig)[old(p.read)]).state
    ensures next.Return? ==> next.result == Collapse(Finish(cfg).status)
  {
    ghost var r0, w0 := p.read, p.write;
    p.ReadSeesInput(cfg, orig, oldArgs);
    var c := p.Read();
    if c == NUL {
      return Return(UnexpectedEof);
    } else {
      p.Write(c);
      next := Continue(Argument);
    }
    p.Stepping(cfg, orig, oldArgs, r0, w0, c);
  }

  /** parse_single_quote_slash: inside single quotes, after a backslash. */
  method ParseSingleQuoteSlash(p: Parse.Parser, ghost cfg: Config, ghost orig: seq<char>, ghost oldArgs: seq<nat>) returns (next: Next)
    requires p.Tracks(cfg, orig, oldArgs) && cfg.state == SingleQuoteSlash
    modifies p`read, p`write, p`argumentCount, p.buffer, p.arguments
    ensures p.Stepped(cfg, old(p.read), next.Continue?, orig, oldArgs)
    ensures next.Continue? ==> next.state == Feed(cfg, CString(orig)[old(p.read)]).state
    ensures next.Return? ==> next.result == Collapse(Finish(cfg).status)
  {
    ghost var r0, w0 := p.read, p.write;
    p.ReadSeesInput(cfg, orig, oldArgs);
    var c := p.Read();
    if c == NUL {
      return Return(UnexpectedEof);
    } else {
      p.Write(c);
      next := Continue(SingleQuote);
    }
    p.Stepping(cfg, orig, oldArgs, r0, w0, c);
  }

  /** parse_single_quote: inside single quotes. */
  method ParseSingleQuote(p: Parse.Parser, ghost cfg: Config, ghost orig: seq<char>, ghost oldArgs: seq<nat>) returns (next: Next)
    requires p.Tracks(cfg, orig, oldArgs) && cfg.state == SingleQuote
    modifies p`read, p`write, p`argumentCount, p.buffer, p.arguments
    ensures p.Stepped(cfg, old(p.read), next.Continue?, orig, oldArgs)
    ensures next.Continue? ==> next.state == Feed(cfg, CString(orig)[old(p.read)]).state
    ensures next.Return? ==> next.result == Collapse(Finish(cfg).status)
  {
    ghost var r0, w0 := p.read, p.write;
    p.ReadSeesInput(cfg, orig, oldArgs);
    var c := p.Read();
    if c == NUL {
      return Return(UnexpectedEof);
    } else if c == '\'' {
      next := Continue(Argument);
    } else if c == '\\' {
      next := Continue(SingleQuoteSlash);
    } else {
      p.Write(c);
      next := Continue(SingleQuote);
    }
    p.Stepping(cfg, orig, oldArgs, r0, w0, c);
  }

  /** parse_double_quote_slash: inside double quotes, after a backslash. */
  method ParseDoubleQuoteSlash(p: Parse.Parser, ghost cfg: Config, ghost orig: seq<char>, ghost oldArgs: seq<nat>) returns (next: Next)
    requires p.Tracks(cfg, orig, oldArgs) && cfg.state == DoubleQuoteSlash
    modifies p`read, p`write, p`argumentCount, p.buffer, p.arguments
    ensures p.Stepped(cfg, old(p.read), next.Continue?, orig, oldArgs)
    ensures next.Continue? ==> next.state == Feed(cfg, CString(orig)[old(p.read)]).state
    ensures next.Return? ==> next.result == Collapse(Finish(cfg).status)
  {
    ghost var r0, w0 := p.read, p.write;
    p.ReadSeesInput(cfg, orig, oldArgs);
    var c := p.Read();
    if c == NUL {
      return Return(UnexpectedEof);
    } else {
      p.Write(c);
      next := Continue(DoubleQuote);
    }
    p.Stepping(cfg, orig, oldArgs, r0, w0, c);
  }

  /** parse_double_quote: inside double quotes. */
  method ParseDoubleQuote(p: Parse.Parser, ghost cfg: Config, ghost orig: seq<char>, ghost oldArgs: seq<nat>) returns (next: Next)
    requires p.Tracks(cfg, orig, oldArgs) && cfg.state == DoubleQuote
    modifies p`read, p`write, p`argumentCount, p.buffer, p.arguments
    ensures p.Stepped(cfg, old(p.read), next.Continue?, orig, oldArgs)
    ensures next.Continue? ==> next.state == Feed(cfg, CString(orig)[old(p.read)]).state
    ensures next.Return? ==> next.result == Collapse(Finish(cfg).status)
  {
    ghost var r0, w0 := p.read, p.write;
    p.ReadSeesInput(cfg, orig, oldArgs);
    var c := p.Read();
    if c == NUL {
      return Return(UnexpectedEof);
    } else if c == '"' {
      next := Continue(Argument);
    } else if c == '\\' {
      next := Continue(DoubleQuoteSlash);
    } else {
      p.Write(c);
      next := Continue(DoubleQuote);
    }
    p.Stepping(cfg, orig, oldArgs, r0, w0, c);
  }

  /** parse_argument: inside an argument, no special characters in effect. */
  method ParseArgument(p: Parse.Parser, ghost cfg: Config, ghost orig: seq<char>, ghost oldArgs: seq<nat>) returns (next: Next)
    requires p.Tracks(cfg, orig, oldArgs) && cfg.state == Argument
    modifies p`read, p`write, p`argumentCount, p.buffer, p.arguments
    ensures p.Stepped(cfg, old(p.read), next.Continue?, orig, oldArgs)
    ensures next.Continue? ==> next.state == Feed(cfg, CString(orig)[old(p.read)]).state
    ensures next.Return? ==> next.result == Collapse(Finish(cfg).status)
  {
    ghost var r0, w0 := p.read, p.write;
    p.ReadSeesInput(cfg, orig, oldArgs);
    var c := p.Read();
    if c == NUL {
      p.Write(NUL);
      Parse.Overwrite(Written(cfg), NUL, orig[w0..]);
      assert orig[w0..][1..] == orig[w0 + 1..];
      return Return(Ok);
    } else if IsSpace(c) {
      p.Write(NUL);
      next := Continue(Space);
    } else if c == '\'' {
      next := Continue(SingleQuote);
    } else if c == '"' {
      next := Continue(DoubleQuote);
    } else if c == '\\' {
      next := Continue(Slash);
    } else {
      p.Write(c);
      next := Continue(Argument);
    }
    p.Stepping(cfg, orig, oldArgs, r0, w0, c);
  }

  /** parse_space: between arguments; the first character of an argument marks its start. */
  method ParseSpace(p: Parse.Parser, ghost cfg: Config, ghost orig: seq<char>, ghost oldArgs: seq<nat>) returns (next: Next)
    requires p.Tracks(cfg, orig, oldArgs) && cfg.state == Space
    modifies p`read, p`write, p`argumentCount, p.buffer, p.arguments
    ensures p.Stepped(cfg, old(p.read), next.Continue?, orig, oldArgs)
    ensures next.Continue? ==> next.state == Feed(cfg, CString(orig)[old(p.read)]).state
    ensures next.Return? ==> next.result == Collapse(Finish(cfg).status)
  {
    ghost var r0, w0, count0, args0 := p.read, p.write, p.argumentCount, p.arguments[..];
    p.ReadSeesInput(cfg, orig, oldArgs);
    var c := p.Read();
    if c == NUL {
      return Return(Ok);
    }
    FeedEffects(cfg, c);
    if IsSpace(c) {
      next := Continue(Space);
    } else if c == '\\' {
      p.MarkArgument();
      p.MarkRecords(cfg, c, oldArgs, count0, args0);
      next := Continue(Slash);
    } else if c == '\'' {
      p.MarkArgument();
      p.MarkRecords(cfg, c, oldArgs, count0, args0);
      next := Continue(SingleQuote);
    } else if c == '"' {
      p.MarkArgument();
      p.MarkRecords(cfg, c, oldArgs, count0, args0);
      next := Continue(DoubleQuote);
    } else {
      p.MarkArgument();
      p.MarkRecords(cfg, c, oldArgs, count0, args0);
      p.Write(c);
      next := Continue(Argument);
    }
    p.Stepping(cfg, orig, oldArgs, r0, w0, c);
  }

  /** The tail call: enter the state function of `state`. */
  method Step(p: Parse.Parser, state: State, ghost cfg: Config, ghost orig: seq<char>, ghost oldArgs: seq<nat>) returns (next: Next)
    requires p.Tracks(cfg, orig, oldArgs) && cfg.state == state
    modifies p`read, p`write, p`argumentCount, p.buffer, p.arguments
    ensures p.Stepped(cfg, old(p.read), next.Continue?, orig, oldArgs)
    ensures next.Continue? ==> next.state == Feed(cfg, CString(orig)[old(p.read)]).state
    ensures next.Return? ==> next.result == Collapse(Finish(cfg).status)
  {
    match state {
      case Space => next := ParseSpace(p, cfg, orig, oldArgs);
      case Argument => next := ParseArgument(p, cfg, orig, oldArgs);
      case Slash => next := ParseSlash(p, cfg, orig, oldArgs);
      case SingleQuote => next := ParseSingleQuote(p, cfg, orig, oldArgs);
      case SingleQuoteSlash => next := ParseSingleQuoteSlash(p, cfg, orig, oldArgs);
      case DoubleQuote => next := ParseDoubleQuote(p, cfg, orig, oldArgs);
      case DoubleQuoteSlash => next := ParseDoubleQuoteSlash(p, cfg, orig, oldArgs);
    }
  }

  /**
   * parse_space and the state functions it tail-calls, as one loop over the
   * state; the loop ends when a state function returns.
   */
  method Run(p: Parse.Parser) returns (result: ParseResult)
    requires p.read == 0 && p.write == 0 && p.argumentCount == 0
    requires p.maxArguments <= p.arguments.Length && NUL in p.buffer[..]
    modifies p`read, p`write, p`argumentCount, p.buffer, p.arguments
    ensures result == Collapse(Lex(CString(old(p.buffer[..]))).status)
    ensures p.Finished(FeedAll(Start, CString(old(p.buffer[..]))), old(p.buffer[..]), old(p.arguments[..]))
  {
    ghost var orig, oldArgs := p.buffer[..], p.arguments[..];
    ghost var input := CString(orig);
    var state := Space;
    ghost var cfg := Start;
    assert input[..0] == [];
    while true
      invariant p.Tracks(cfg, orig, oldArgs) && state == cfg.state
      decreases |input| - p.read
    {
      ghost var r0 := p.read;
      assert cfg == FeedAll(Start, input[..r0]);
      var next := Step(p, state, cfg, orig, oldArgs);
      if next.Return? {
        Parse.WholeInput(input, r0, cfg);
        return next.result;
      }
      cfg := Feed(cfg, input[r0]);
      state := next.state;
    }
  }

  /**
   * libcli_parse of source/cli_internal.c: the buffer is rewritten exactly as
   * by `Parse.LibcliParse`, and the same argument starts are recorded, but the
   * count returned is 0 whenever the input ends inside a quote or after a
   * backslash.
   */
  method LibcliParse(input: array<char>, arguments: array<nat>, maxArguments: nat) returns (count: nat)
    requires NUL in input[..]
    requires maxArguments <= arguments.Length
    modifies input, arguments
    ensures var s := CString(old(input[..]));
      var recorded := Parse.Min(|Lex(s).tokens|, maxArguments);
      && count == (if Lex(s).status == Success then recorded else 0)
      && input[..] == Rewritten(s) + old(input[..])[|Rewritten(s)|..]
      && arguments[..recorded] == Starts(Lex(s).tokens)[..recorded]
      && arguments[recorded..] == old(arguments[..])[recorded..]
      && (Lex(s).status == Success ==> Denotes(input[..], arguments[..count], Lex(s).tokens))
  {
    var parser := new Parse.Parser(input, arguments, maxArguments);
    var result := Run(parser);
    ghost var s := CString(old(input[..]));
    if result == Ok {
      count := parser.argumentCount;
      Parse.RecordedDenote(s, input[..], old(input[..]), arguments[..], count);
    } else {
      count := 0;
    }
  }
}
