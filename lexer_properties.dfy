/**
 * What the tokenizer promises, proved about its specification `Lexer.Lex`:
 * blank input, agreement with a naive whitespace split, quoting with escapes,
 * quotes that are transparent inside an argument, and the three lexical
 * failures.
 */
module LexerProperties {
  import opened CStrings
  import opened Lexer

  predicate Blank(s: string) {
    forall i :: 0 <= i < |s| ==> IsSpace(s[i])
  }

  /** Input without quote characters or backslashes. */
  predicate Plain(s: string) {
    forall i :: 0 <= i < |s| ==> s[i] != '\'' && s[i] != '"' && s[i] != '\\'
  }

  /** Length of the leading run of non-whitespace characters. */
  function WordEnd(s: string): (n: nat)
    ensures n <= |s|
    ensures forall i :: 0 <= i < n ==> !IsSpace(s[i])
    ensures n < |s| ==> IsSpace(s[n])
  {
    if s == [] || IsSpace(s[0]) then 0 else 1 + WordEnd(s[1..])
  }

  /** The naive split of `s` on runs of whitespace. */
  function Words(s: string): seq<string>
    decreases |s|
  {
    if s == [] then []
    else if IsSpace(s[0]) then Words(s[1..])
    else var n := WordEnd(s); [s[..n]] + Words(s[n..])
  }

  // ---------------------------------------------------------------------------
  // Blank input

  lemma {:induction false} BlankStaysInSpace(s: string)
    requires Blank(s)
    ensures FeedAll(Start, s) == Start
    decreases |s|
  {
    if s != [] {
      BlankStaysInSpace(s[..|s| - 1]);
    }
  }

  /** Empty or whitespace-only input parses successfully to no arguments. */
  lemma LexBlank(s: string)
    requires Blank(s)
    ensures Lex(s) == Lexed(Success, [])
    ensures Rewritten(s) == []
  {
    BlankStaysInSpace(s);
  }

  // ---------------------------------------------------------------------------
  // Plain input is split on whitespace

  lemma {:induction false} WordRun(done: seq<string>, w: string)
    requires w != [] && Plain(w)
    requires forall i :: 0 <= i < |w| ==> !IsSpace(w[i])
    ensures FeedAll(Config(Space, done, []), w) == Config(Argument, done, w)
    decreases |w|
  {
    var p := w[..|w| - 1];
    if p != [] {
      WordRun(done, p);
      assert w == p + [w[|w| - 1]];
    }
  }

  lemma {:induction false} WordsFrom(done: seq<string>, s: string)
    requires Plain(s)
    ensures Finish(FeedAll(Config(Space, done, []), s)) == Lexed(Success, done + Words(s))
    decreases |s|
  {
    if s != [] {
      var done', s', last := PlainStep(done, s);
      if !last {
        WordsFrom(done', s');
      }
    }
  }

  /**
   * One step of WordsFrom: a leading space is skipped, or a leading word is
   * read; the word either ends the input or is closed by the space after it.
   */
  lemma PlainStep(done: seq<string>, s: string) returns (done': seq<string>, s': string, last: bool)
    requires Plain(s) && s != []
    ensures Plain(s') && |s'| < |s|
    ensures last ==> Finish(FeedAll(Config(Space, done, []), s)) == Lexed(Success, done + Words(s))
    ensures !last ==> FeedAll(Config(Space, done, []), s) == FeedAll(Config(Space, done', []), s')
    ensures !last ==> done + Words(s) == done' + Words(s')
  {
    if IsSpace(s[0]) {
      done', s', last := done, s[1..], false;
      assert s == [s[0]] + s[1..];
      FeedAllCons(Config(Space, done, []), s[0], s[1..]);
    } else {
      var n := WordEnd(s);
      WordThenRest(done, s);
      WordsAfterWord(s);
      if n == |s| {
        done', s', last := done, [], true;
      } else {
        done', s', last := done + [s[..n]], s[n + 1..], false;
        assert done + ([s[..n]] + Words(s')) == done' + Words(s');
      }
    }
  }

  /** Words skips a leading whitespace character. */
  lemma WordsSkipSpace(r: string)
    requires r != [] && IsSpace(r[0])
    ensures Words(r) == Words(r[1..])
  {
  }

  /** Plain input that is one word from its first character is that one word. */
  lemma WordsOneWord(s: string)
    requires s != [] && !IsSpace(s[0]) && WordEnd(s) == |s|
    ensures Words(s) == [s]
  {
    assert Words(s) == [s[..|s|]] + Words(s[|s|..]);
    assert s[|s|..] == [] && s[..|s|] == s;
  }

  /** A leading word followed by whitespace is the first word; the rest are the words after the whitespace. */
  lemma WordsWordThenSpace(s: string)
    requires s != [] && !IsSpace(s[0]) && WordEnd(s) < |s|
    ensures Words(s) == [s[..WordEnd(s)]] + Words(s[WordEnd(s) + 1..])
  {
    var n := WordEnd(s);
    assert Words(s) == [s[..n]] + Words(s[n..]);
    WordsSkipSpace(s[n..]);
    assert s[n..][1..] == s[n + 1..];
  }

  lemma WordsAfterWord(s: string)
    requires s != [] && !IsSpace(s[0])
    ensures var n := WordEnd(s);
      && (n == |s| ==> Words(s) == [s])
      && (n < |s| ==> Words(s) == [s[..n]] + Words(s[n + 1..]))
  {
    if WordEnd(s) == |s| {
      WordsOneWord(s);
    } else {
      WordsWordThenSpace(s);
    }
  }

  /** The leading word of plain input, read from state Space, is one open argument. */
  lemma LeadingWord(done: seq<string>, s: string, n: nat)
    requires Plain(s) && s != [] && !IsSpace(s[0]) && n == WordEnd(s)
    ensures 0 < n && FeedAll(Config(Space, done, []), s[..n]) == Config(Argument, done, s[..n])
  {
    forall i | 0 <= i < n ensures s[..n][i] == s[i] { }
    WordRun(done, s[..n]);
  }

  /** Whitespace read inside an argument closes it and returns to state Space. */
  lemma SpaceCloses(cfg: Config, s: string, n: nat)
    requires n < |s| && IsSpace(s[n]) && FeedAll(cfg, s[..n]).state == Argument
    ensures FeedAll(cfg, s) == FeedAll(Config(Space, FeedAll(cfg, s[..n]).done + [FeedAll(cfg, s[..n]).cur], []), s[n + 1..])
  {
    assert s == s[..n] + ([s[n]] + s[n + 1..]);
    FeedAllAppend(cfg, s[..n], [s[n]] + s[n + 1..]);
    FeedAllCons(FeedAll(cfg, s[..n]), s[n], s[n + 1..]);
  }

  /** Plain input that is one word is read into one open argument. */
  lemma OneWordRun(done: seq<string>, s: string)
    requires Plain(s) && s != [] && !IsSpace(s[0]) && WordEnd(s) == |s|
    ensures FeedAll(Config(Space, done, []), s) == Config(Argument, done, s)
  {
    LeadingWord(done, s, |s|);
    assert s[..|s|] == s;
  }

  /** A leading word followed by whitespace is read into an argument and closed. */
  lemma WordThenSpaceRun(done: seq<string>, s: string)
    requires Plain(s) && s != [] && !IsSpace(s[0]) && WordEnd(s) < |s|
    ensures FeedAll(Config(Space, done, []), s) == FeedAll(Config(Space, done + [s[..WordEnd(s)]], []), s[WordEnd(s) + 1..])
  {
    var n := WordEnd(s);
    LeadingWord(done, s, n);
    SpaceCloses(Config(Space, done, []), s, n);
  }

  /** One step of WordsFrom: a leading word is read into an argument, closed by the space after it. */
  lemma WordThenRest(done: seq<string>, s: string)
    requires Plain(s) && s != [] && !IsSpace(s[0])
    ensures var n := WordEnd(s);
      && 0 < n
      && (n == |s| ==> FeedAll(Config(Space, done, []), s) == Config(Argument, done, s))
      && (n < |s| ==> FeedAll(Config(Space, done, []), s) == FeedAll(Config(Space, done + [s[..n]], []), s[n + 1..]))
  {
    LeadingWord(done, s, WordEnd(s));
    if WordEnd(s) == |s| {
      OneWordRun(done, s);
    } else {
      WordThenSpaceRun(done, s);
    }
  }

  /**
   * Input with no quotes or backslashes parses successfully to exactly its
   * whitespace-separated words, each written back NUL-terminated.
   */
  lemma LexWords(s: string)
    requires Plain(s)
    ensures Lex(s) == Lexed(Success, Words(s))
    ensures Rewritten(s) == Join(Words(s))
  {
    WordsFrom([], s);
    RewrittenOnSuccess(s);
  }

  // ---------------------------------------------------------------------------
  // Quoting

  function QuoteState(q: char): State {
    if q == '\'' then SingleQuote else DoubleQuote
  }

  function Unterminated(q: char): Status {
    if q == '\'' then UnterminatedSingleQuote else UnterminatedDoubleQuote
  }

  /** The body of a region quoted with `q`: no bare `q`, and every backslash has a character to escape. */
  predicate QuotedBody(s: string, q: char)
    decreases |s|
  {
    if s == [] then true
    else if s[0] == '\\' then |s| >= 2 && QuotedBody(s[2..], q)
    else s[0] != q && QuotedBody(s[1..], q)
  }

  /** The text a quoted body stands for: a backslash is dropped and the character after it kept. */
  function Unescape(s: string): string
    decreases |s|
  {
    if s == [] then []
    else if s[0] == '\\' && |s| >= 2 then [s[1]] + Unescape(s[2..])
    else [s[0]] + Unescape(s[1..])
  }

  /** Inside quotes, a backslash and the character after it copy that character. */
  lemma QuotedEscape(done: seq<string>, cur: string, q: char, x: char, rest: string)
    requires q == '\'' || q == '"'
    ensures FeedAll(Config(QuoteState(q), done, cur), ['\\', x] + rest)
         == FeedAll(Config(QuoteState(q), done, cur + [x]), rest)
  {
    var cfg := Config(QuoteState(q), done, cur);
    assert ['\\', x] + rest == ['\\'] + ([x] + rest);
    FeedAllCons(cfg, '\\', [x] + rest);
    FeedAllCons(Feed(cfg, '\\'), x, rest);
  }

  /** Inside quotes, any character but the closing quote and a backslash is copied. */
  lemma QuotedChar(done: seq<string>, cur: string, q: char, c: char, rest: string)
    requires q == '\'' || q == '"'
    requires c != q && c != '\\'
    ensures FeedAll(Config(QuoteState(q), done, cur), [c] + rest)
         == FeedAll(Config(QuoteState(q), done, cur + [c]), rest)
  {
    FeedAllCons(Config(QuoteState(q), done, cur), c, rest);
  }

  /** Inside either kind of quote, a quoted body is copied with its escapes resolved. */
  lemma {:induction false} QuotedRun(done: seq<string>, cur: string, q: char, s: string)
    requires q == '\'' || q == '"'
    requires QuotedBody(s, q)
    ensures FeedAll(Config(QuoteState(q), done, cur), s) == Config(QuoteState(q), done, cur + Unescape(s))
    decreases |s|
  {
    if s == [] {
      assert cur + Unescape(s) == cur;
    } else if s[0] == '\\' {
      assert s == ['\\', s[1]] + s[2..];
      QuotedEscape(done, cur, q, s[1], s[2..]);
      QuotedRun(done, cur + [s[1]], q, s[2..]);
      assert cur + Unescape(s) == cur + [s[1]] + Unescape(s[2..]);
    } else {
      assert s == [s[0]] + s[1..];
      QuotedChar(done, cur, q, s[0], s[1..]);
      QuotedRun(done, cur + [s[0]], q, s[1..]);
      assert cur + Unescape(s) == cur + [s[0]] + Unescape(s[1..]);
    }
  }

  /**
   * Quotes are transparent inside an argument: a quoted piece joins the
   * characters around it, and the delimiters are consumed but not copied.
   */
  lemma QuotesJoinArgument(done: seq<string>, cur: string, q: char, s: string)
    requires q == '\'' || q == '"'
    requires QuotedBody(s, q)
    ensures FeedAll(Config(Argument, done, cur), [q] + s + [q]) == Config(Argument, done, cur + Unescape(s))
  {
    var cfg := Config(Argument, done, cur);
    FeedAllCons(cfg, q, s + [q]);
    assert [q] + s + [q] == [q] + (s + [q]);
    FeedAllSnoc(Feed(cfg, q), s, q);
    QuotedRun(done, cur, q, s);
  }

  /** An open argument after the closed ones `done` starts where their image ends. */
  lemma OpenedStarts(done: seq<string>, cur: string)
    ensures Starts(Started(Config(Argument, done, cur))) == Starts(done) + [|Join(done)|]
  {
    JoinSnoc(done, cur);
  }

  /**
   * An argument that begins with a quote is begun at the quote: from between
   * arguments, a quoted region opens a new argument holding its text, and
   * that argument starts where the arguments before it end.
   */
  lemma QuoteOpensArgument(done: seq<string>, q: char, s: string)
    requires q == '\'' || q == '"'
    requires QuotedBody(s, q)
    ensures FeedAll(Config(Space, done, []), [q] + s + [q]) == Config(Argument, done, Unescape(s))
    ensures Starts(Started(FeedAll(Config(Space, done, []), [q] + s + [q]))) == Starts(done) + [|Join(done)|]
  {
    var cfg := Config(Space, done, []);
    FeedAllCons(cfg, q, s + [q]);
    assert [q] + s + [q] == [q] + (s + [q]);
    FeedAllSnoc(Feed(cfg, q), s, q);
    QuotedRun(done, [], q, s);
    OpenedStarts(done, Unescape(s));
  }

  /** A whole quoted input is one argument: the text between the quotes, escapes resolved. */
  lemma LexQuoted(q: char, s: string)
    requires q == '\'' || q == '"'
    requires QuotedBody(s, q)
    ensures Lex([q] + s + [q]) == Lexed(Success, [Unescape(s)])
  {
    QuoteOpensArgument([], q, s);
  }

  /** A quoted argument opened between arguments and closed by a space is one more closed argument. */
  lemma QuotedThenSpace(done: seq<string>, q: char, s: string, rest: string)
    requires q == '\'' || q == '"'
    requires QuotedBody(s, q)
    ensures FeedAll(Config(Space, done, []), ([q] + s + [q]) + [' '] + rest) == FeedAll(Config(Space, done + [Unescape(s)], []), rest)
  {
    var a := [q] + s + [q];
    assert a + [' '] + rest == a + ([' '] + rest);
    QuoteOpensArgument(done, q, s);
    FeedAllAppend(Config(Space, done, []), a, [' '] + rest);
    FeedAllCons(Config(Argument, done, Unescape(s)), ' ', rest);
  }

  /** Two quoted arguments separated by a space are read into the first, closed, and the second, open. */
  lemma TwoQuotedRun(q1: char, s1: string, q2: char, s2: string)
    requires q1 == '\'' || q1 == '"'
    requires q2 == '\'' || q2 == '"'
    requires QuotedBody(s1, q1) && QuotedBody(s2, q2)
    ensures FeedAll(Start, ([q1] + s1 + [q1]) + [' '] + ([q2] + s2 + [q2])) == Config(Argument, [Unescape(s1)], Unescape(s2))
  {
    QuotedThenSpace([], q1, s1, [q2] + s2 + [q2]);
    assert [] + [Unescape(s1)] == [Unescape(s1)];
    QuoteOpensArgument([Unescape(s1)], q2, s2);
  }

  /** Two quoted arguments separated by a space parse as those two arguments, escapes resolved. */
  lemma LexTwoQuoted(q1: char, s1: string, q2: char, s2: string)
    requires q1 == '\'' || q1 == '"'
    requires q2 == '\'' || q2 == '"'
    requires QuotedBody(s1, q1) && QuotedBody(s2, q2)
    ensures Lex(([q1] + s1 + [q1]) + [' '] + ([q2] + s2 + [q2])) == Lexed(Success, [Unescape(s1), Unescape(s2)])
  {
    TwoQuotedRun(q1, s1, q2, s2);
    assert [Unescape(s1)] + [Unescape(s2)] == [Unescape(s1), Unescape(s2)];
  }

  // ---------------------------------------------------------------------------
  // Bare escapes

  /**
   * Inside an argument, a backslash outside quotes is dropped and the
   * character after it is copied, even a quote, a backslash or whitespace.
   */
  lemma BareEscape(done: seq<string>, cur: string, x: char, rest: string)
    ensures FeedAll(Config(Argument, done, cur), ['\\', x] + rest) == FeedAll(Config(Argument, done, cur + [x]), rest)
  {
    assert ['\\', x] + rest == ['\\'] + ([x] + rest);
    FeedAllCons(Config(Argument, done, cur), '\\', [x] + rest);
    FeedAllCons(Config(Slash, done, cur), x, rest);
  }

  /** Between arguments, a bare backslash opens an argument that begins with the escaped character. */
  lemma BareEscapeOpens(done: seq<string>, x: char, rest: string)
    ensures FeedAll(Config(Space, done, []), ['\\', x] + rest) == FeedAll(Config(Argument, done, [x]), rest)
  {
    assert ['\\', x] + rest == ['\\'] + ([x] + rest);
    FeedAllCons(Config(Space, done, []), '\\', [x] + rest);
    FeedAllCons(Config(Slash, done, []), x, rest);
    assert Feed(Config(Slash, done, []), x) == Config(Argument, done, [x]);
  }

  /** Escaped quotes are copied as plain characters: `\'\"` is the one argument `'"`. */
  lemma LexEscapedQuotes()
    ensures Lex(['\\', '\'', '\\', '"']) == Lexed(Success, [['\'', '"']])
  {
    BareEscapeOpens([], '\'', ['\\', '"']);
    BareEscape([], ['\''], '"', []);
    assert ['\\', '\'', '\\', '"'] == ['\\', '\''] + ['\\', '"'];
    assert ['\\', '"'] == ['\\', '"'] + [];
    assert FeedAll(Start, ['\\', '\'', '\\', '"']) == Config(Argument, [], ['\'', '"']);
  }

  // ---------------------------------------------------------------------------
  // Lexical failures

  /**
   * A backslash followed by the end of the input fails with EofAfterSlash,
   * whether it is bare or inside either kind of quote.
   */
  lemma LexTrailingBackslash(p: string)
    requires FeedAll(Start, p).state in {Space, Argument, SingleQuote, DoubleQuote}
    ensures Lex(p + ['\\']).status == EofAfterSlash
  {
    FeedAllSnoc(Start, p, '\\');
  }

  /** The end of the input inside a quoted region fails with the matching unterminated-quote status. */
  lemma LexUnterminatedQuote(p: string, q: char, s: string)
    requires q == '\'' || q == '"'
    requires FeedAll(Start, p).state in {Space, Argument}
    requires QuotedBody(s, q)
    ensures Lex(p + [q] + s).status == Unterminated(q)
  {
    var cfg := FeedAll(Start, p);
    FeedAllSnoc(Start, p, q);
    FeedAllAppend(Start, p + [q], s);
    QuotedRun(cfg.done, if cfg.state == Space then [] else cfg.cur, q, s);
  }

  /** Lexical failures happen only inside an argument, so a failed parse has always begun one. */
  lemma FailureHasArgument(s: string)
    requires Lex(s).status != Success
    ensures |Lex(s).tokens| > 0
  {
    var cfg := FeedAll(Start, s);
    assert cfg.state != Space;
  }
}
