/** The command splitter and its printer. */
module Args {

  // ---- splitArgs ----

  /** The variables of splitArgs' loop. */
  datatype Scan = Scan(out: seq<string>, cur: string, inQuote: bool, escape: bool)

  const Begin := Scan([], "", false, false)

  /** One rune. */
  function Feed(st: Scan, r: char): Scan {
    if st.escape then st.(cur := st.cur + [r], escape := false)
    else if r == '\\' then st.(escape := true)
    else if r == '"' then st.(inQuote := !st.inQuote)
    else if (r == ' ' || r == '\t') && !st.inQuote then
      if |st.cur| > 0 then st.(out := st.out + [st.cur], cur := "") else st
    else st.(cur := st.cur + [r])
  }

  function FeedAll(st: Scan, s: string): Scan
    decreases |s|
  {
    if s == "" then st else FeedAll(Feed(st, s[0]), s[1..])
  }

  datatype Result = Argv(args: seq<string>) | UnterminatedQuote | EmptyCommand

  function Flushed(st: Scan): seq<string> {
    if |st.cur| > 0 then st.out + [st.cur] else st.out
  }

  function Finish(st: Scan): Result {
    if st.inQuote then UnterminatedQuote
    else if Flushed(st) == [] then EmptyCommand
    else Argv(Flushed(st))
  }

  function SplitArgs(s: string): Result {
    Finish(FeedAll(Begin, s))
  }

  method SplitCommand(s: string) returns (r: Result)
    ensures r == SplitArgs(s)
  {
    var out: seq<string>, cur: string := [], "";
    var inQuote, escape := false, false;
    for i := 0 to |s|
      invariant FeedAll(Scan(out, cur, inQuote, escape), s[i..]) == FeedAll(Begin, s)
    {
      var r := s[i];
      assert s[i..][1..] == s[i + 1..];
      if escape {
        cur := cur + [r];
        escape := false;
        continue;
      }
      if r == '\\' {
        escape := true;
      } else if r == '"' {
        inQuote := !inQuote;
      } else if (r == ' ' || r == '\t') && !inQuote {
        if |cur| > 0 {
          out := out + [cur];
          cur := "";
        }
      } else {
        cur := cur + [r];
      }
    }
    if inQuote {
      return UnterminatedQuote;
    }
    if |cur| > 0 {
      out := out + [cur];
    }
    if |out| == 0 {
      return EmptyCommand;
    }
    return Argv(out);
  }

  lemma {:induction false} FeedConcat(st: Scan, s: string, t: string)
    ensures FeedAll(st, s + t) == FeedAll(FeedAll(st, s), t)
    decreases |s|
  {
    if s == "" {
      assert s + t == t;
    } else {
      FeedConcat(Feed(st, s[0]), s[1..], t);
      assert (s + t)[1..] == s[1..] + t;
    }
  }

  // ---- quoteArg and joinArgs ----

  /** strings.ReplaceAll for a one-character pattern. */
  function ReplaceAll(s: string, c: char, w: string): string {
    if s == "" then "" else (if s[0] == c then w else [s[0]]) + ReplaceAll(s[1..], c, w)
  }

  predicate NeedsQuotes(arg: string) {
    arg == "" || exists i :: 0 <= i < |arg| && arg[i] in " \t\"\\"
  }

  function QuoteArg(arg: string): string {
    if !NeedsQuotes(arg) then arg
    else "\"" + ReplaceAll(ReplaceAll(arg, '\\', "\\\\"), '"', "\\\"") + "\""
  }

  /** strings.Join */
  function Join(parts: seq<string>, sep: string): string {
    if parts == [] then "" else if |parts| == 1 then parts[0] else parts[0] + sep + Join(parts[1..], sep)
  }

  function Quoted(args: seq<string>): (qs: seq<string>)
    ensures |qs| == |args|
  {
    if args == [] then [] else [QuoteArg(args[0])] + Quoted(args[1..])
  }

  lemma {:induction false} QuotedAppend(args: seq<string>, arg: string)
    ensures Quoted(args + [arg]) == Quoted(args) + [QuoteArg(arg)]
  {
    if args == [] {
      assert args + [arg] == [arg];
    } else {
      QuotedAppend(args[1..], arg);
      assert (args + [arg])[1..] == args[1..] + [arg];
    }
  }

  function JoinArgs(args: seq<string>): string {
    Join(Quoted(args), " ")
  }

  method JoinCommand(args: seq<string>) returns (text: string)
    ensures text == JoinArgs(args)
  {
    var out := new string[|args|](_ => "");
    for i := 0 to |args|
      invariant out[..i] == Quoted(args[..i])
    {
      out[i] := QuoteArg(args[i]);
      QuotedAppend(args[..i], args[i]);
      assert args[..i] + [args[i]] == args[..i + 1];
      assert out[..i + 1] == out[..i] + [out[i]];
    }
    assert out[..] == out[..|args|] && args[..|args|] == args;
    text := Join(out[..], " ");
  }

  // ---- the two passes escape character by character ----

  function Escape(arg: string): string {
    if arg == "" then "" else (if arg[0] == '\\' || arg[0] == '"' then ['\\', arg[0]] else [arg[0]]) + Escape(arg[1..])
  }

  lemma {:induction false} ReplaceConcat(s: string, t: string, c: char, w: string)
    ensures ReplaceAll(s + t, c, w) == ReplaceAll(s, c, w) + ReplaceAll(t, c, w)
  {
    if s == "" {
      assert s + t == t;
    } else {
      ReplaceConcat(s[1..], t, c, w);
      var head := if s[0] == c then w else [s[0]];
      assert (s + t)[1..] == s[1..] + t && (s + t)[0] == s[0];
      var first, second := ReplaceAll(s[1..], c, w), ReplaceAll(t, c, w);
      assert head + (first + second) == head + first + second;
    }
  }

  lemma ReplaceQuoteIn(r: char)
    ensures ReplaceAll([r], '"', "\\\"") == if r == '"' then "\\\"" else [r]
    ensures ReplaceAll("\\\\", '"', "\\\"") == "\\\\"
  {
    assert [r][1..] == "";
    assert "\\\\"[1..] == "\\" && "\\"[1..] == "";
    assert ReplaceAll("\\", '"', "\\\"") == "\\" + ReplaceAll("", '"', "\\\"");
  }

  lemma {:induction false} TwoPassesEscape(arg: string)
    ensures ReplaceAll(ReplaceAll(arg, '\\', "\\\\"), '"', "\\\"") == Escape(arg)
  {
    if arg != "" {
      var head := if arg[0] == '\\' then "\\\\" else [arg[0]];
      ReplaceConcat(head, ReplaceAll(arg[1..], '\\', "\\\\"), '"', "\\\"");
      ReplaceQuoteIn(arg[0]);
      TwoPassesEscape(arg[1..]);
    }
  }

  // ---- splitting what was printed ----

  lemma {:induction false} FeedEscaped(st: Scan, arg: string)
    requires st.inQuote && !st.escape
    ensures FeedAll(st, Escape(arg)) == st.(cur := st.cur + arg)
    decreases |arg|
  {
    if arg == "" {
      assert st.cur + arg == st.cur;
    } else {
      var r, tail := arg[0], Escape(arg[1..]);
      var st' := st.(cur := st.cur + [r]);
      FeedEscaped(st', arg[1..]);
      assert st'.cur + arg[1..] == st.cur + arg;
      if r == '\\' || r == '"' {
        FeedConcat(st, ['\\', r], tail);
        assert ['\\', r][1..] == [r] && [r][1..] == "";
        assert FeedAll(st, ['\\', r]) == FeedAll(st.(escape := true), [r]);
      } else {
        assert ([r] + tail)[1..] == tail;
      }
    }
  }

  lemma {:induction false} FeedPlain(st: Scan, arg: string)
    requires !st.escape
    requires forall i :: 0 <= i < |arg| ==> arg[i] !in " \t\"\\"
    ensures FeedAll(st, arg) == st.(cur := st.cur + arg)
    decreases |arg|
  {
    if arg == "" {
      assert st.cur + arg == st.cur;
    } else {
      assert arg[0] !in " \t\"\\";
      FeedPlain(st.(cur := st.cur + [arg[0]]), arg[1..]);
      assert (st.cur + [arg[0]]) + arg[1..] == st.cur + arg;
    }
  }

  /** A printed argument adds exactly its characters to the current one. */
  lemma FeedQuoteArg(st: Scan, arg: string)
    requires !st.inQuote && !st.escape
    ensures FeedAll(st, QuoteArg(arg)) == st.(cur := st.cur + arg)
  {
    if !NeedsQuotes(arg) {
      FeedPlain(st, arg);
    } else {
      var q, st1 := "\"", st.(inQuote := true);
      TwoPassesEscape(arg);
      assert q[1..] == "";
      FeedConcat(st, q, Escape(arg));
      FeedEscaped(st1, arg);
      FeedConcat(st, q + Escape(arg), q);
      assert FeedAll(st1.(cur := st.cur + arg), q) == st.(cur := st.cur + arg);
    }
  }

  function NonEmpty(args: seq<string>): seq<string> {
    if args == [] then [] else (if args[0] == "" then [] else [args[0]]) + NonEmpty(args[1..])
  }

  lemma JoinFirst(args: seq<string>)
    requires args != []
    ensures JoinArgs(args) == if |args| == 1 then QuoteArg(args[0]) else QuoteArg(args[0]) + " " + JoinArgs(args[1..])
  {
    assert Quoted(args)[1..] == Quoted(args[1..]);
  }

  /** After a printed argument and a separator the scan is as before, with one argument more. */
  lemma FeedQuoteArgAndSpace(out: seq<string>, arg: string)
    ensures FeedAll(Scan(out, "", false, false), QuoteArg(arg) + " ") ==
            Scan(out + (if arg == "" then [] else [arg]), "", false, false)
  {
    var st := Scan(out, "", false, false);
    FeedQuoteArg(st, arg);
    FeedConcat(st, QuoteArg(arg), " ");
    assert "" + arg == arg;
    assert " "[1..] == "";
    assert FeedAll(st.(cur := arg), " ") == FeedAll(Feed(st.(cur := arg), ' '), "");
    assert arg == "" ==> out + [] == out;
  }

  lemma FeedOnly(out: seq<string>, arg: string)
    ensures var st := FeedAll(Scan(out, "", false, false), QuoteArg(arg));
            !st.inQuote && Flushed(st) == out + NonEmpty([arg])
  {
    FeedQuoteArg(Scan(out, "", false, false), arg);
    assert "" + arg == arg;
    assert [arg][1..] == [];
  }

  /** The first of several printed arguments, given what the others do. */
  lemma FeedFirst(out: seq<string>, arg: string, text: string, more: seq<string>)
    requires var first := if arg == "" then [] else [arg];
             var st := FeedAll(Scan(out + first, "", false, false), text);
             !st.inQuote && Flushed(st) == out + first + more
    ensures var st := FeedAll(Scan(out, "", false, false), QuoteArg(arg) + " " + text);
            !st.inQuote && Flushed(st) == out + ((if arg == "" then [] else [arg]) + more)
  {
    var first := if arg == "" then [] else [arg];
    FeedQuoteArgAndSpace(out, arg);
    FeedConcat(Scan(out, "", false, false), QuoteArg(arg) + " ", text);
    assert out + first + more == out + (first + more);
  }

  lemma {:induction false} FeedJoined(out: seq<string>, args: seq<string>)
    ensures var st := FeedAll(Scan(out, "", false, false), JoinArgs(args));
            !st.inQuote && Flushed(st) == out + NonEmpty(args)
    decreases |args|
  {
    if args != [] {
      JoinFirst(args);
    }
    if |args| == 1 {
      FeedOnly(out, args[0]);
      assert args == [args[0]];
    } else if 1 < |args| {
      var first := if args[0] == "" then [] else [args[0]];
      FeedJoined(out + first, args[1..]);
      FeedFirst(out, args[0], JoinArgs(args[1..]), NonEmpty(args[1..]));
    }
  }

  /** splitArgs undoes joinArgs, up to the empty arguments it cannot represent. */
  lemma SplitUndoesJoin(args: seq<string>)
    ensures SplitArgs(JoinArgs(args)) == if NonEmpty(args) == [] then EmptyCommand else Argv(NonEmpty(args))
  {
    FeedJoined([], args);
  }

  lemma {:induction false} NonEmptyOfNonEmpty(args: seq<string>)
    requires forall i :: 0 <= i < |args| ==> args[i] != ""
    ensures NonEmpty(args) == args
  {
    if args != [] {
      NonEmptyOfNonEmpty(args[1..]);
    }
  }

  lemma {:induction false} ScanNonEmpty(st: Scan, s: string)
    requires forall i :: 0 <= i < |st.out| ==> st.out[i] != ""
    ensures forall i :: 0 <= i < |FeedAll(st, s).out| ==> FeedAll(st, s).out[i] != ""
    decreases |s|
  {
    if s != "" {
      ScanNonEmpty(Feed(st, s[0]), s[1..]);
    }
  }

  predicate Plain(s: string) {
    forall i :: 0 <= i < |s| ==> s[i] !in " \t\"\\"
  }

  /** A space or a tab between two words separates them; any other ordinary character joins them. */
  lemma BlanksSeparate(v: string, r: char, w: string)
    requires v != "" && w != "" && Plain(v) && Plain(w) && r != '"' && r != '\\'
    ensures SplitArgs(v + [r] + w) == if r == ' ' || r == '\t' then Argv([v, w]) else Argv([v + [r] + w])
  {
    FeedPlain(Begin, v);
    assert "" + v == v;
    FeedConcat(Begin, v, [r]);
    assert [r][1..] == "";
    var st := Feed(Begin.(cur := v), r);
    assert FeedAll(Begin.(cur := v), [r]) == FeedAll(st, "");
    FeedConcat(Begin, v + [r], w);
    FeedPlain(st, w);
    assert [] + [v] + [w] == [v, w] && "" + w == w && [] + [v + [r] + w] == [v + [r] + w];
  }

  /** An argument is printed as it is exactly if it is not empty and has nothing to protect. */
  lemma PrintedPlainIff(arg: string)
    ensures QuoteArg(arg) == if arg != "" && Plain(arg) then arg else "\"" + Escape(arg) + "\""
  {
    TwoPassesEscape(arg);
  }

  /** splitArgs never yields an empty argument or an empty list. */
  lemma SplitIsNonEmpty(s: string)
    requires SplitArgs(s).Argv?
    ensures SplitArgs(s).args != [] && forall i :: 0 <= i < |SplitArgs(s).args| ==> SplitArgs(s).args[i] != ""
  {
    ScanNonEmpty(Begin, s);
  }

  /** Printing what was split and splitting again changes nothing. */
  lemma PrintingIsStable(s: string)
    requires SplitArgs(s).Argv?
    ensures SplitArgs(JoinArgs(SplitArgs(s).args)) == SplitArgs(s)
  {
    SplitIsNonEmpty(s);
    NonEmptyOfNonEmpty(SplitArgs(s).args);
    SplitUndoesJoin(SplitArgs(s).args);
  }

  // ---- the one-pass scan refines a definition in three passes ----

  datatype Token = Chr(c: char) | Esc(c: char) | Quo

  /** First pass: a backslash takes the next character with it; one at the very end is dropped. */
  function Lex(s: string): seq<Token>
    decreases |s|
  {
    if s == "" then []
    else if s[0] == '\\' then (if |s| == 1 then [] else [Esc(s[1])] + Lex(s[2..]))
    else [if s[0] == '"' then Quo else Chr(s[0])] + Lex(s[1..])
  }

  datatype Mark = Kept(c: char) | Separator

  /** Second pass: quotes go, and blanks outside them separate. */
  function Marks(ts: seq<Token>, inQuote: bool): seq<Mark> {
    if ts == [] then []
    else
      match ts[0]
      case Quo => Marks(ts[1..], !inQuote)
      case Esc(c) => [Kept(c)] + Marks(ts[1..], inQuote)
      case Chr(c) => [if (c == ' ' || c == '\t') && !inQuote then Separator else Kept(c)] + Marks(ts[1..], inQuote)
  }

  /** Whether a quote is open at the end. */
  predicate OpenAtEnd(ts: seq<Token>, inQuote: bool) {
    if ts == [] then inQuote else OpenAtEnd(ts[1..], if ts[0].Quo? then !inQuote else inQuote)
  }

  function Quotes(ts: seq<Token>): nat {
    if ts == [] then 0 else (if ts[0].Quo? then 1 else 0) + Quotes(ts[1..])
  }

  lemma {:induction false} OpenIffOdd(ts: seq<Token>, inQuote: bool)
    ensures OpenAtEnd(ts, inQuote) <==> (Quotes(ts) % 2 == 1) != inQuote
  {
    if ts != [] {
      OpenIffOdd(ts[1..], if ts[0].Quo? then !inQuote else inQuote);
    }
  }

  /** Third pass: the words between separators, empty ones included. */
  function Words(ms: seq<Mark>): (ws: seq<string>)
    ensures ws != []
  {
    if ms == [] then [""]
    else
      var ws := Words(ms[1..]);
      if ms[0].Separator? then [""] + ws else [[ms[0].c] + ws[0]] + ws[1..]
  }

  function ThreePasses(s: string): Result {
    var ts := Lex(s);
    var args := NonEmpty(Words(Marks(ts, false)));
    if OpenAtEnd(ts, false) then UnterminatedQuote else if args == [] then EmptyCommand else Argv(args)
  }

  /** The words still to come, the first of them already begun. */
  function Continue(cur: string, ws: seq<string>): seq<string>
    requires ws != []
  {
    [cur + ws[0]] + ws[1..]
  }

  lemma ContinueKept(cur: string, c: char, ms: seq<Mark>)
    ensures Continue(cur, Words([Kept(c)] + ms)) == Continue(cur + [c], Words(ms))
  {
    assert ([Kept(c)] + ms)[1..] == ms;
    assert cur + ([c] + Words(ms)[0]) == cur + [c] + Words(ms)[0];
  }

  lemma ContinueSeparator(cur: string, ms: seq<Mark>)
    ensures NonEmpty(Continue(cur, Words([Separator] + ms))) ==
            (if cur == "" then [] else [cur]) + NonEmpty(Continue("", Words(ms)))
  {
    var ws := Words(ms);
    assert ([Separator] + ms)[1..] == ms;
    assert cur + "" == cur && "" + ws[0] == ws[0];
    assert [ws[0]] + ws[1..] == ws;
    assert ([cur] + ws)[1..] == ws;
  }

  lemma LexFirst(s: string)
    requires s != "" && s[0] != '\\'
    ensures Lex(s)[0] == (if s[0] == '"' then Quo else Chr(s[0])) && Lex(s)[1..] == Lex(s[1..])
  {
  }

  /** One rune other than a backslash, in the scan and in the passes. */
  lemma RuneAgrees(st: Scan, r: char, ts: seq<Token>)
    requires !st.escape && r != '\\'
    ensures var t, st' := if r == '"' then Quo else Chr(r), Feed(st, r);
            && !st'.escape
            && OpenAtEnd([t] + ts, st.inQuote) == OpenAtEnd(ts, st'.inQuote)
            && st.out + NonEmpty(Continue(st.cur, Words(Marks([t] + ts, st.inQuote)))) ==
               st'.out + NonEmpty(Continue(st'.cur, Words(Marks(ts, st'.inQuote))))
  {
    var t, st' := if r == '"' then Quo else Chr(r), Feed(st, r);
    assert ([t] + ts)[1..] == ts;
    if r != '"' {
      var ms := Marks(ts, st.inQuote);
      if (r == ' ' || r == '\t') && !st.inQuote {
        ContinueSeparator(st.cur, ms);
        var first := if st.cur == "" then [] else [st.cur];
        assert st'.out == st.out + first && st'.cur == "";
        var others := NonEmpty(Continue("", Words(ms)));
        assert st.out + (first + others) == st.out + first + others;
      } else {
        ContinueKept(st.cur, r, ms);
      }
    }
  }

  lemma {:induction false} ScanAgrees(st: Scan, s: string)
    requires !st.escape
    ensures var end := FeedAll(st, s);
            && end.inQuote == OpenAtEnd(Lex(s), st.inQuote)
            && Flushed(end) == st.out + NonEmpty(Continue(st.cur, Words(Marks(Lex(s), st.inQuote))))
    decreases |s|
  {
    if s == "" {
      ScanAgreesAtEnd(st);
    } else if s[0] == '\\' {
      var st1 := st.(escape := true);
      assert FeedAll(st, s) == FeedAll(st1, s[1..]);
      if |s| == 1 {
        assert FeedAll(st1, s[1..]) == st1;
        ScanAgreesAtEnd(st);
      } else {
        EscapeAgrees(st, s);
        ScanAgrees(st.(cur := st.cur + [s[1]]), s[2..]);
      }
    } else {
      LexFirst(s);
      assert Lex(s) == [Lex(s)[0]] + Lex(s[1..]);
      RuneAgrees(st, s[0], Lex(s[1..]));
      ScanAgrees(Feed(st, s[0]), s[1..]);
    }
  }

  lemma ScanAgreesAtEnd(st: Scan)
    ensures Flushed(st) == st.out + NonEmpty(Continue(st.cur, Words(Marks([], st.inQuote))))
  {
    assert st.cur + "" == st.cur;
    assert [st.cur][1..] == [];
    assert NonEmpty([st.cur]) == if st.cur == "" then [] else [st.cur];
  }

  /** A backslash and the character after it. */
  lemma EscapeAgrees(st: Scan, s: string)
    requires !st.escape && 2 <= |s| && s[0] == '\\'
    ensures var st', ts := st.(cur := st.cur + [s[1]]), Lex(s[2..]);
            && FeedAll(st, s) == FeedAll(st', s[2..])
            && OpenAtEnd(Lex(s), st.inQuote) == OpenAtEnd(ts, st.inQuote)
            && Continue(st.cur, Words(Marks(Lex(s), st.inQuote))) == Continue(st'.cur, Words(Marks(ts, st.inQuote)))
  {
    assert s[1..][1..] == s[2..] && s[1..][0] == s[1];
    assert FeedAll(st, s) == FeedAll(st.(escape := true), s[1..]);
    assert Lex(s) == [Esc(s[1])] + Lex(s[2..]) && Lex(s)[1..] == Lex(s[2..]);
    ContinueKept(st.cur, s[1], Marks(Lex(s[2..]), st.inQuote));
  }

  /** A quote is left open exactly by an odd number of quotes that no backslash takes. */
  lemma UnterminatedIffOdd(s: string)
    ensures SplitArgs(s).UnterminatedQuote? <==> Quotes(Lex(s)) % 2 == 1
  {
    SplitIsThreePasses(s);
    OpenIffOdd(Lex(s), false);
  }

  /** For every text, splitArgs gives what the three passes give. */
  lemma SplitIsThreePasses(s: string)
    ensures SplitArgs(s) == ThreePasses(s)
  {
    ScanAgrees(Begin, s);
    var ws := Words(Marks(Lex(s), false));
    assert "" + ws[0] == ws[0];
    assert Continue("", ws) == ws;
  }
}
