/** Splitting a configured command into arguments, quotes honoured. */
module SplitCommands {
  import opened Sequences
  import opened Options

  predicate IsQuote(c: char) { c == '"' || c == '\'' }

  /** What the pattern \s matches. */
  predicate IsSpace(c: char) {
    || '\t' <= c <= '\r'
    || c in {' ', '\U{00A0}', '\U{1680}', '\U{2028}', '\U{2029}', '\U{202F}', '\U{205F}', '\U{3000}', '\U{FEFF}'}
    || '\U{2000}' <= c <= '\U{200A}'
  }

  /** The arguments so far, the one being read, and the quote it is inside of. */
  datatype Scan = Scan(out: seq<string>, cur: string, quote: Option<char>)

  const BLANK := Scan([], "", None)

  function Finish(s: Scan): seq<string> {
    if s.cur == "" then s.out else s.out + [s.cur]
  }

  function Feed(s: Scan, c: char): Scan {
    if s.quote.Some? then
      if c == s.quote.value then s.(quote := None) else s.(cur := s.cur + [c])
    else if IsQuote(c) then s.(quote := Some(c))
    else if IsSpace(c) then Scan(Finish(s), "", None)
    else s.(cur := s.cur + [c])
  }

  function FeedAll(s: Scan, text: string): Scan
    decreases text
  {
    if text == "" then s else FeedAll(Feed(s, text[0]), text[1..])
  }

  function Split(command: string): seq<string> {
    Finish(FeedAll(BLANK, command))
  }

  method SplitCommand(command: string) returns (out: seq<string>)
    ensures out == Split(command)
  {
    out := [];
    var cur := "";
    var quote: Option<char> := None;
    for i := 0 to |command|
      invariant FeedAll(Scan(out, cur, quote), command[i..]) == FeedAll(BLANK, command)
    {
      var ch := command[i];
      assert command[i..][1..] == command[i + 1..];
      if quote.Some? {
        if ch == quote.value { quote := None; } else { cur := cur + [ch]; }
      } else if IsQuote(ch) {
        quote := Some(ch);
      } else if IsSpace(ch) {
        if cur != "" { out := out + [cur]; }
        cur := "";
      } else {
        cur := cur + [ch];
      }
    }
    if cur != "" { out := out + [cur]; }
  }

  // ---- the text, by its quotes ------------------------------------------------

  /** The quote a reader is inside of after a character. */
  function NextQuote(c: char, quote: Option<char>): Option<char> {
    if quote.Some? then (if c == quote.value then None else quote)
    else if IsQuote(c) then Some(c)
    else None
  }

  function QuoteAfter(text: string, quote: Option<char>): Option<char> {
    if text == "" then quote else QuoteAfter(text[1..], NextQuote(text[0], quote))
  }

  /** Whether a character is neither an active quote nor unquoted whitespace. */
  predicate Stays(c: char, quote: Option<char>) {
    if quote.Some? then c != quote.value else !IsQuote(c) && !IsSpace(c)
  }

  /** The text without the quotes that open or close and without unquoted whitespace. */
  function Erased(text: string, quote: Option<char>): string {
    if text == "" then ""
    else (if Stays(text[0], quote) then [text[0]] else "") + Erased(text[1..], NextQuote(text[0], quote))
  }

  /** Whether any whitespace is unquoted. */
  predicate HasGap(text: string, quote: Option<char>) {
    text != "" && ((quote.None? && IsSpace(text[0])) || HasGap(text[1..], NextQuote(text[0], quote)))
  }

  // ---- conservation -----------------------------------------------------------

  function Held(s: Scan): string { Flat(s.out) + s.cur }

  function Kept(c: char, quote: Option<char>): string {
    if Stays(c, quote) then [c] else ""
  }

  lemma FeedHolds(s: Scan, c: char)
    ensures Held(Feed(s, c)) == Held(s) + Kept(c, s.quote)
    ensures Feed(s, c).quote == NextQuote(c, s.quote)
  {
    FlatPush(s.out, s.cur);
    assert Held(s) + "" == Held(s);
    assert Flat(s.out) + (s.cur + [c]) == Held(s) + [c];
  }

  lemma {:induction false} FeedAllHolds(s: Scan, text: string)
    ensures Held(FeedAll(s, text)) == Held(s) + Erased(text, s.quote)
    ensures FeedAll(s, text).quote == QuoteAfter(text, s.quote)
    decreases text
  {
    if text == "" {
      assert Held(s) + "" == Held(s);
    } else {
      var c := text[0];
      FeedHolds(s, c);
      FeedAllHolds(Feed(s, c), text[1..]);
      Grouped(Held(s), Kept(c, s.quote), Erased(text[1..], NextQuote(c, s.quote)));
    }
  }

  ghost predicate NoneEmpty(parts: seq<string>) {
    forall i :: 0 <= i < |parts| ==> parts[i] != ""
  }

  lemma {:induction false} FeedAllNoneEmpty(s: Scan, text: string)
    requires NoneEmpty(s.out)
    ensures NoneEmpty(FeedAll(s, text).out)
    decreases text
  {
    if text != "" { FeedAllNoneEmpty(Feed(s, text[0]), text[1..]); }
  }

  /** For every command: the arguments put together are the command without its active quotes and
      unquoted whitespace, and none is empty. */
  lemma SplitConserves(command: string)
    ensures Flat(Split(command)) == Erased(command, None)
    ensures NoneEmpty(Split(command))
  {
    var s := FeedAll(BLANK, command);
    FeedAllHolds(BLANK, command);
    FeedAllNoneEmpty(BLANK, command);
    FlatPush(s.out, s.cur);
    assert Flat([]) + "" + Erased(command, None) == Erased(command, None);
    assert Flat(s.out) + "" == Flat(s.out);
  }

  // ---- where it splits --------------------------------------------------------

  lemma {:induction false} FeedAllConcat(s: Scan, a: string, b: string)
    ensures FeedAll(s, a + b) == FeedAll(FeedAll(s, a), b)
    decreases a
  {
    if a == "" {
      assert a + b == b;
    } else {
      assert (a + b)[1..] == a[1..] + b;
      FeedAllConcat(Feed(s, a[0]), a[1..], b);
    }
  }

  /** What has been put out plays no part in what follows. */
  lemma {:induction false} OutIsKept(out: seq<string>, s: Scan, text: string)
    ensures FeedAll(s.(out := out + s.out), text) == FeedAll(s, text).(out := out + FeedAll(s, text).out)
    decreases text
  {
    if text != "" {
      assert out + s.out + [s.cur] == out + (s.out + [s.cur]);
      assert Feed(s.(out := out + s.out), text[0]) == Feed(s, text[0]).(out := out + Feed(s, text[0]).out);
      OutIsKept(out, Feed(s, text[0]), text[1..]);
    }
  }

  /** Unquoted whitespace splits. */
  lemma SplitsAtSpace(a: string, space: char, b: string)
    requires QuoteAfter(a, None).None? && IsSpace(space)
    ensures Split(a + [space] + b) == Split(a) + Split(b)
  {
    var s := FeedAll(BLANK, a);
    FeedAllHolds(BLANK, a);
    FeedAllConcat(BLANK, a + [space], b);
    FeedAllConcat(BLANK, a, [space]);
    assert [space][1..] == "";
    assert FeedAll(s, [space]) == Scan(Split(a), "", None);
    assert Split(a) + [] == Split(a);
    OutIsKept(Split(a), BLANK, b);
    var r := FeedAll(BLANK, b);
    assert Split(a) + r.out + [r.cur] == Split(a) + (r.out + [r.cur]);
  }

  /** Nothing else does. */
  lemma {:induction false} OneArgument(s: Scan, text: string)
    requires !HasGap(text, s.quote)
    ensures FeedAll(s, text) == Scan(s.out, s.cur + Erased(text, s.quote), QuoteAfter(text, s.quote))
    decreases text
  {
    if text == "" {
      assert s.cur + "" == s.cur;
    } else {
      var c := text[0];
      FeedHolds(s, c);
      assert Feed(s, c).out == s.out && Feed(s, c).cur == s.cur + Kept(c, s.quote) by { assert s.cur + "" == s.cur; }
      OneArgument(Feed(s, c), text[1..]);
      Grouped(s.cur, Kept(c, s.quote), Erased(text[1..], NextQuote(c, s.quote)));
    }
  }

  lemma SplitsOnlyAtSpace(text: string)
    requires !HasGap(text, None)
    ensures Split(text) == if Erased(text, None) == "" then [] else [Erased(text, None)]
  {
    OneArgument(BLANK, text);
    assert "" + Erased(text, None) == Erased(text, None);
    assert [] + [Erased(text, None)] == [Erased(text, None)];
  }

  // ---- quoting and back -------------------------------------------------------

  function Wrap(arg: string, quote: char): string {
    [quote] + arg + [quote]
  }

  /** Each argument in its quote, joined with spaces. */
  function CommandLine(args: seq<string>, quotes: seq<char>): string
    requires |quotes| == |args|
  {
    if args == [] then ""
    else if |args| == 1 then Wrap(args[0], quotes[0])
    else Wrap(args[0], quotes[0]) + " " + CommandLine(args[1..], quotes[1..])
  }

  function NonEmpty(args: seq<string>): seq<string> {
    if args == [] then [] else (if args[0] == "" then [] else [args[0]]) + NonEmpty(args[1..])
  }

  lemma {:induction false} InsideQuotes(arg: string, quote: char)
    requires quote !in arg
    ensures Erased(arg + [quote], Some(quote)) == arg && QuoteAfter(arg + [quote], Some(quote)).None?
    ensures !HasGap(arg + [quote], Some(quote))
  {
    var text := arg + [quote];
    if arg == "" {
      assert text == [quote] && [quote][1..] == "";
    } else {
      assert text[1..] == arg[1..] + [quote];
      InsideQuotes(arg[1..], quote);
    }
  }

  lemma WrapSplits(arg: string, quote: char)
    requires IsQuote(quote) && quote !in arg
    ensures QuoteAfter(Wrap(arg, quote), None).None?
    ensures Split(Wrap(arg, quote)) == if arg == "" then [] else [arg]
  {
    InsideQuotes(arg, quote);
    var text := Wrap(arg, quote);
    assert text[1..] == arg + [quote] && text[0] == quote && !IsSpace(quote);
    assert Erased(text, None) == "" + Erased(arg + [quote], Some(quote)) && "" + arg == arg;
    SplitsOnlyAtSpace(text);
  }

  /** Wrapping each argument in a quote it lacks and joining with spaces is undone by splitting, but
      for empty arguments, which vanish. */
  lemma {:induction false} SplitUndoesQuoting(args: seq<string>, quotes: seq<char>)
    requires |quotes| == |args|
    requires forall i :: 0 <= i < |args| ==> IsQuote(quotes[i]) && quotes[i] !in args[i]
    ensures Split(CommandLine(args, quotes)) == NonEmpty(args)
    ensures NoneEmpty(args) <==> Split(CommandLine(args, quotes)) == args
  {
    NonEmptyOf(args);
    if args != [] {
      WrapSplits(args[0], quotes[0]);
      if |args| == 1 {
        assert NonEmpty(args[1..]) == [];
      } else {
        SplitsAtSpace(Wrap(args[0], quotes[0]), ' ', CommandLine(args[1..], quotes[1..]));
        SplitUndoesQuoting(args[1..], quotes[1..]);
      }
    }
  }

  lemma {:induction false} NonEmptyOf(args: seq<string>)
    ensures |NonEmpty(args)| <= |args| && NoneEmpty(NonEmpty(args))
    ensures NoneEmpty(args) <==> NonEmpty(args) == args
  {
    if args != [] {
      NonEmptyOf(args[1..]);
      assert args == [args[0]] + args[1..];
      if NoneEmpty(args) { assert NoneEmpty(args[1..]); }
    }
  }

  /** The characters that separate are those the pattern \s matches (sections 12.2 and 12.3 of ECMA-262), by
      their code points; the two quotes are U+0022 and U+0027. */
  lemma Separators(c: char)
    ensures IsSpace(c) <==> c as int in {
      0x09, 0x0A, 0x0B, 0x0C, 0x0D, 0x20, 0xA0, 0x1680, 0x2000, 0x2001, 0x2002, 0x2003, 0x2004, 0x2005, 0x2006,
      0x2007, 0x2008, 0x2009, 0x200A, 0x2028, 0x2029, 0x202F, 0x205F, 0x3000, 0xFEFF}
    ensures IsQuote(c) <==> c as int == 34 || c as int == 39
  {
  }
}
