/**
 * The tokenizer's specification: the character-level state machine of
 * source/parse.c (and source/cli_internal.c) stated as a step function over a
 * configuration, together with what it means for the rewritten buffer.
 *
 * `Lex(s)` is the outcome of parsing the C string `s` (the characters before
 * the terminating NUL): a status and the tokens begun, in order.  Each token
 * is the text copied for it, with quote delimiters and escaping backslashes
 * dropped.
 */
module Lexer {
  import opened CStrings

  /** One state per `parse_*` function of the C machine. */
  datatype State =
    | Space             // between arguments
    | Argument          // inside an argument, nothing special in effect
    | Slash             // inside an argument, after a bare '\'
    | SingleQuote       // inside '...'
    | SingleQuoteSlash  // inside '...', after a '\'
    | DoubleQuote       // inside "..."
    | DoubleQuoteSlash  // inside "...", after a '\'

  /** `ParseStatus` of include/cli/internal/parse.h. */
  datatype Status = Success | EofAfterSlash | UnterminatedDoubleQuote | UnterminatedSingleQuote

  /**
   * The machine after a prefix of the input: its state, the arguments already
   * closed by a NUL, and the characters copied so far for the open argument
   * (always empty in state Space).
   */
  datatype Config = Config(state: State, done: seq<string>, cur: string)

  /** The outcome of a whole parse: the status and every argument begun (marked). */
  datatype Lexed = Lexed(status: Status, tokens: seq<string>)

  const Start: Config := Config(Space, [], [])

  ghost predicate WellFormed(cfg: Config) {
    cfg.state == Space ==> cfg.cur == []
  }

  /** The transition a state function takes on reading the non-NUL character `c`. */
  function Feed(cfg: Config, c: char): Config {
    var Config(st, done, cur) := cfg;
    match st
    case Space =>
      if IsSpace(c) then cfg
      else if c == '\\' then Config(Slash, done, [])
      else if c == '\'' then Config(SingleQuote, done, [])
      else if c == '"' then Config(DoubleQuote, done, [])
      else Config(Argument, done, [c])
    case Argument =>
      if IsSpace(c) then Config(Space, done + [cur], [])
      else if c == '\'' then Config(SingleQuote, done, cur)
      else if c == '"' then Config(DoubleQuote, done, cur)
      else if c == '\\' then Config(Slash, done, cur)
      else Config(Argument, done, cur + [c])
    case Slash => Config(Argument, done, cur + [c])
    case SingleQuote =>
      if c == '\'' then Config(Argument, done, cur)
      else if c == '\\' then Config(SingleQuoteSlash, done, cur)
      else Config(SingleQuote, done, cur + [c])
    case SingleQuoteSlash => Config(SingleQuote, done, cur + [c])
    case DoubleQuote =>
      if c == '"' then Config(Argument, done, cur)
      else if c == '\\' then Config(DoubleQuoteSlash, done, cur)
      else Config(DoubleQuote, done, cur + [c])
    case DoubleQuoteSlash => Config(DoubleQuote, done, cur + [c])
  }

  /** The configuration after reading all of `s`, one character at a time. */
  function FeedAll(cfg: Config, s: string): Config
    decreases |s|
  {
    if s == [] then cfg else Feed(FeedAll(cfg, s[..|s| - 1]), s[|s| - 1])
  }

  /** The arguments begun so far: the closed ones and, outside state Space, the open one. */
  function Started(cfg: Config): seq<string> {
    if cfg.state == Space then cfg.done else cfg.done + [cfg.cur]
  }

  /** What each state function returns on reading the terminating NUL. */
  function Finish(cfg: Config): Lexed {
    var status :=
      match cfg.state
      case Space | Argument => Success
      case Slash | SingleQuoteSlash | DoubleQuoteSlash => EofAfterSlash
      case SingleQuote => UnterminatedSingleQuote
      case DoubleQuote => UnterminatedDoubleQuote;
    Lexed(status, Started(cfg))
  }

  function Lex(s: string): Lexed {
    Finish(FeedAll(Start, s))
  }

  /** The buffer image of closed arguments: each one followed by its NUL. */
  function Join(ts: seq<string>): seq<char>
    decreases |ts|
  {
    if ts == [] then [] else Join(ts[..|ts| - 1]) + ts[|ts| - 1] + [NUL]
  }

  /** The offset in `Join(ts)` at which each argument starts. */
  function Starts(ts: seq<string>): (r: seq<nat>)
    ensures |r| == |ts|
    decreases |ts|
  {
    if ts == [] then [] else Starts(ts[..|ts| - 1]) + [|Join(ts[..|ts| - 1])|]
  }

  /** What the write head has produced in a configuration. */
  function Written(cfg: Config): seq<char> {
    Join(cfg.done) + cfg.cur
  }

  /** What the write head has produced once the NUL is read: state Argument adds the closing NUL. */
  function Output(cfg: Config): seq<char> {
    if cfg.state == Argument then Written(cfg) + [NUL] else Written(cfg)
  }

  /** The characters a parse of `s` writes at the start of the buffer: never more than it reads. */
  function Rewritten(s: string): (r: seq<char>)
    ensures |r| <= |s| + 1
  {
    WrittenBounded(s);
    Output(FeedAll(Start, s))
  }

  /**
   * Every recorded offset points into `buf` at the C string of the matching
   * argument: what a caller reading `arguments[k]` as a `char*` sees.
   */
  ghost predicate Denotes(buf: seq<char>, offsets: seq<nat>, tokens: seq<string>) {
    && |offsets| <= |tokens|
    && forall k :: 0 <= k < |offsets| ==>
         offsets[k] <= |buf| && NUL in buf[offsets[k]..] && CStringAt(buf, offsets[k]) == tokens[k]
  }

  ghost predicate NoNul(ts: seq<string>) {
    forall k :: 0 <= k < |ts| ==> NUL !in ts[k]
  }

  // ---------------------------------------------------------------------------
  // Structure of the fold

  lemma {:induction false} FeedAllAppend(cfg: Config, s: string, t: string)
    ensures FeedAll(cfg, s + t) == FeedAll(FeedAll(cfg, s), t)
    decreases |t|
  {
    if t == [] {
      assert s + t == s;
    } else {
      assert (s + t)[..|s + t| - 1] == s + t[..|t| - 1];
      FeedAllAppend(cfg, s, t[..|t| - 1]);
    }
  }

  lemma FeedAllSnoc(cfg: Config, s: string, c: char)
    ensures FeedAll(cfg, s + [c]) == Feed(FeedAll(cfg, s), c)
  {
    assert (s + [c])[..|s|] == s;
  }

  lemma FeedAllCons(cfg: Config, c: char, t: string)
    ensures FeedAll(cfg, [c] + t) == FeedAll(Feed(cfg, c), t)
  {
    FeedAllAppend(cfg, [c], t);
    assert [c][..0] == [];
  }

  /** Every configuration the machine reaches keeps the open argument empty in state Space. */
  lemma {:induction false} FeedAllWellFormed(cfg: Config, s: string)
    requires WellFormed(cfg)
    ensures WellFormed(FeedAll(cfg, s))
    decreases |s|
  {
    if s != [] {
      FeedAllWellFormed(cfg, s[..|s| - 1]);
    }
  }

  /** Every character copied into an argument was read from the input, so no argument holds a NUL. */
  lemma {:induction false} FeedAllNoNul(cfg: Config, s: string)
    requires NoNul(cfg.done) && NUL !in cfg.cur && NUL !in s
    ensures var r := FeedAll(cfg, s); NoNul(r.done) && NUL !in r.cur
    decreases |s|
  {
    if s != [] {
      FeedAllNoNul(cfg, s[..|s| - 1]);
      assert s[|s| - 1] in s;
    }
  }

  /** Each step writes at most one character per character read: the write head never passes the read head. */
  lemma {:induction false} WrittenBounded(s: string)
    ensures |Written(FeedAll(Start, s))| <= |s|
    ensures |Output(FeedAll(Start, s))| <= |s| + 1
    decreases |s|
  {
    if s != [] {
      var p := s[..|s| - 1];
      WrittenBounded(p);
      FeedAllWellFormed(Start, p);
      FeedWrites(FeedAll(Start, p), s[|s| - 1]);
    }
  }

  /**
   * What one transition does to the write head and the argument starts: it
   * writes at most one character (the character read, or the NUL closing an
   * argument), and it records a start only when it leaves state Space.
   */
  lemma FeedEffects(cfg: Config, c: char)
    requires WellFormed(cfg)
    ensures var next := Feed(cfg, c);
      && WellFormed(next)
      && (Written(next) == Written(cfg)
          || Written(next) == Written(cfg) + [if cfg.state == Argument && IsSpace(c) then NUL else c])
      && (cfg.state == Space && next.state != Space ==>
            |Started(next)| == |Started(cfg)| + 1 && Starts(Started(next)) == Starts(Started(cfg)) + [|Written(cfg)|])
      && (!(cfg.state == Space && next.state != Space) ==>
            |Started(next)| == |Started(cfg)| && Starts(Started(next)) == Starts(Started(cfg)))
  {
    FeedWrites(cfg, c);
    FeedStarts(cfg, c);
  }

  /** The write-head half of FeedEffects. */
  lemma FeedWrites(cfg: Config, c: char)
    requires WellFormed(cfg)
    ensures var next := Feed(cfg, c);
      && WellFormed(next)
      && (Written(next) == Written(cfg)
          || Written(next) == Written(cfg) + [if cfg.state == Argument && IsSpace(c) then NUL else c])
  {
    var next := Feed(cfg, c);
    if cfg.state == Argument && IsSpace(c) {
      JoinSnoc(cfg.done, cfg.cur);
    } else if next.cur != cfg.cur {
      assert next.cur == cfg.cur + [c] && next.done == cfg.done;
    }
  }

  /** The argument-start half of FeedEffects. */
  lemma FeedStarts(cfg: Config, c: char)
    requires WellFormed(cfg)
    ensures var next := Feed(cfg, c);
      && (cfg.state == Space && next.state != Space ==>
            |Started(next)| == |Started(cfg)| + 1 && Starts(Started(next)) == Starts(Started(cfg)) + [|Written(cfg)|])
      && (!(cfg.state == Space && next.state != Space) ==>
            |Started(next)| == |Started(cfg)| && Starts(Started(next)) == Starts(Started(cfg)))
  {
    var next := Feed(cfg, c);
    if cfg.state == Space {
      if next.state != Space {
        assert next.done == cfg.done && Started(cfg) == cfg.done && Written(cfg) == Join(cfg.done);
        JoinSnoc(cfg.done, next.cur);
      } else {
        assert next == cfg;
      }
    } else if next.state == Space {
      assert Started(next) == Started(cfg);
    } else {
      assert next.done == cfg.done;
      JoinSnoc(cfg.done, cfg.cur);
      JoinSnoc(cfg.done, next.cur);
    }
  }

  // ---------------------------------------------------------------------------
  // The buffer image

  lemma JoinSnoc(ts: seq<string>, t: string)
    ensures Join(ts + [t]) == Join(ts) + t + [NUL]
    ensures Starts(ts + [t]) == Starts(ts) + [|Join(ts)|]
  {
    assert (ts + [t])[..|ts|] == ts;
  }

  lemma {:induction false} JoinAppend(a: seq<string>, b: seq<string>)
    ensures Join(a + b) == Join(a) + Join(b)
    decreases |b|
  {
    if b == [] {
      assert a + b == a;
    } else {
      var b' := b[..|b| - 1];
      assert a + b == (a + b') + [b[|b| - 1]];
      JoinAppend(a, b');
      JoinSnoc(a + b', b[|b| - 1]);
      JoinSnoc(b', b[|b| - 1]);
      assert b == b' + [b[|b| - 1]];
    }
  }

  lemma {:induction false} StartsAt(ts: seq<string>, k: nat)
    requires k < |ts|
    ensures |Starts(ts)| == |ts|
    ensures Starts(ts)[k] == |Join(ts[..k])|
    decreases |ts|
  {
    var init := ts[..|ts| - 1];
    if k < |ts| - 1 {
      StartsAt(init, k);
      assert init[..k] == ts[..k];
    } else {
      if |ts| > 1 { StartsAt(init, 0); }
      assert init == ts[..k];
    }
  }

  /**
   * Reading back the C string at the recorded start of the k-th argument gives
   * that argument: what `strcmp(expected, arguments[k])` relies on.
   */
  lemma ReadBack(ts: seq<string>, k: nat, rest: seq<char>)
    requires NoNul(ts) && k < |ts|
    ensures |Starts(ts)| == |ts| && Starts(ts)[k] <= |Join(ts) + rest|
    ensures NUL in (Join(ts) + rest)[Starts(ts)[k]..]
    ensures CStringAt(Join(ts) + rest, Starts(ts)[k]) == ts[k]
  {
    StartsAt(ts, k);
    var j, tail := JoinAround(ts, k, rest);
    CStringAtTerminated(j, ts[k], tail);
  }

  /** `Join(ts) + rest` seen around its k-th argument. */
  lemma JoinAround(ts: seq<string>, k: nat, rest: seq<char>) returns (j: seq<char>, tail: seq<char>)
    requires k < |ts|
    ensures j == Join(ts[..k])
    ensures Join(ts) + rest == j + ts[k] + [NUL] + tail
  {
    var before, after := ts[..k], ts[k + 1..];
    assert ts == (before + [ts[k]]) + after;
    JoinAppend(before + [ts[k]], after);
    JoinSnoc(before, ts[k]);
    j, tail := Join(before), Join(after) + rest;
  }

  /** On success the rewritten buffer is exactly the arguments, each NUL-terminated. */
  lemma RewrittenOnSuccess(s: string)
    requires Lex(s).status == Success
    ensures Rewritten(s) == Join(Lex(s).tokens)
  {
    var cfg := FeedAll(Start, s);
    FeedAllWellFormed(Start, s);
    if cfg.state == Argument {
      JoinSnoc(cfg.done, cfg.cur);
    }
  }
}
