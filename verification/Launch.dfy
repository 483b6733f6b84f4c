/** The launch path of warp-svc: the command is split, rewritten, printed, trimmed and split again. */
module Launch {
  import opened Bytes
  import opened Args

  // ---- strings.TrimSpace ----

  /** unicode.IsSpace */
  predicate IsSpace(r: char) {
    var c := r as int;
    || 9 <= c <= 13 || c == 0x20 || c == 0x85 || c == 0xA0 || c == 0x1680
    || 0x2000 <= c <= 0x200a || c == 0x2028 || c == 0x2029 || c == 0x202f || c == 0x205f || c == 0x3000
  }

  function TrimLeft(s: string): string {
    if s != "" && IsSpace(s[0]) then TrimLeft(s[1..]) else s
  }

  function TrimRight(s: string): (t: string)
    ensures t <= s
    ensures t != "" ==> !IsSpace(t[|t| - 1])
  {
    if s != "" && IsSpace(s[|s| - 1]) then TrimRight(s[..|s| - 1]) else s
  }

  function TrimSpace(s: string): string {
    TrimRight(TrimLeft(s))
  }

  predicate AllSpace(s: string) {
    forall i :: 0 <= i < |s| ==> IsSpace(s[i])
  }

  lemma {:induction false} TrimLeftSplits(s: string) returns (left: string)
    ensures s == left + TrimLeft(s) && AllSpace(left)
    ensures TrimLeft(s) != "" ==> !IsSpace(TrimLeft(s)[0])
  {
    left := "";
    if s != "" && IsSpace(s[0]) {
      left := TrimLeftSplits(s[1..]);
      left := [s[0]] + left;
    }
  }

  lemma {:induction false} TrimRightSplits(s: string) returns (right: string)
    ensures s == TrimRight(s) + right && AllSpace(right)
  {
    right := "";
    if s != "" && IsSpace(s[|s| - 1]) {
      right := TrimRightSplits(s[..|s| - 1]);
      right := right + [s[|s| - 1]];
    }
  }

  /** Only white space is trimmed, and all of it at both ends. */
  lemma TrimSpaceSplits(s: string) returns (left: string, right: string)
    ensures var t := TrimSpace(s);
            && s == left + t + right && AllSpace(left) && AllSpace(right)
            && (t != "" ==> !IsSpace(t[0]) && !IsSpace(t[|t| - 1]))
  {
    left := TrimLeftSplits(s);
    right := TrimRightSplits(TrimLeft(s));
  }

  // ---- prepareWarpExecutable ----

  /** filepath.Base: the last element of a path. */
  function Base(path: string): string
    decreases |path|
  {
    if path == "" then "."
    else if path[|path| - 1] == '/' then (if |path| == 1 then "/" else Base(path[..|path| - 1]))
    else LastElement(path)
  }

  function LastElement(path: string): (e: string)
    ensures '/' !in e
    ensures path != "" && path[|path| - 1] != '/' ==> e != ""
  {
    if path == "" || path[|path| - 1] == '/' then ""
    else LastElement(path[..|path| - 1]) + [path[|path| - 1]]
  }

  predicate HasName(path: string) {
    Base(path) != "." && Base(path) != "/" && Base(path) != ""
  }

  /** path.Join("/warp", base) for a base without slashes. */
  function Target(base: string): (t: string)
    ensures t != "" && t[0] == '/'
  {
    if base == ".." then "/" else "/warp/" + base
  }

  lemma {:induction false} LastElementOfJoin(dir: string, base: string)
    requires '/' !in base && (dir == "" || dir[|dir| - 1] == '/')
    ensures LastElement(dir + base) == base
    decreases |base|
  {
    if base == "" {
      assert dir + base == dir;
    } else {
      var n := |base| - 1;
      assert (dir + base)[..|dir + base| - 1] == dir + base[..n];
      LastElementOfJoin(dir, base[..n]);
      assert base == base[..n] + [base[n]];
    }
  }

  lemma {:induction false} LastElementSplits(path: string) returns (dir: string)
    ensures path == dir + LastElement(path) && (dir == "" || dir[|dir| - 1] == '/')
    decreases |path|
  {
    if path == "" || path[|path| - 1] == '/' {
      dir := path;
    } else {
      dir := LastElementSplits(path[..|path| - 1]);
    }
  }

  /** A name that Base finds is the last element of the path, trailing slashes aside. */
  lemma {:induction false} BaseSplits(path: string) returns (dir: string, slashes: string)
    requires HasName(path)
    ensures path == dir + Base(path) + slashes && (dir == "" || dir[|dir| - 1] == '/')
    ensures '/' !in Base(path) && forall i :: 0 <= i < |slashes| ==> slashes[i] == '/'
    decreases |path|
  {
    if path[|path| - 1] == '/' {
      dir, slashes := BaseSplits(path[..|path| - 1]);
      slashes := slashes + "/";
    } else {
      dir := LastElementSplits(path);
      slashes := "";
    }
  }

  lemma {:induction false} BaseOfSlashes(dir: string, base: string, slashes: string)
    requires base != "" && '/' !in base && (dir == "" || dir[|dir| - 1] == '/')
    requires forall i :: 0 <= i < |slashes| ==> slashes[i] == '/'
    ensures Base(dir + base + slashes) == base
    decreases |slashes|
  {
    var path := dir + base + slashes;
    if slashes == "" {
      LastElementOfJoin(dir, base);
      assert path == dir + base;
    } else {
      BaseOfSlashes(dir, base, slashes[..|slashes| - 1]);
      assert path[..|path| - 1] == dir + base + slashes[..|slashes| - 1];
    }
  }

  lemma {:induction false} BaseOfNothing(path: string)
    requires forall i :: 0 <= i < |path| ==> path[i] == '/'
    ensures Base(path) == if path == "" then "." else "/"
    decreases |path|
  {
    if 1 < |path| {
      BaseOfNothing(path[..|path| - 1]);
    }
  }

  /** Every last element but "." is a name, and a path of slashes has none. */
  lemma HasNameIff(dir: string, base: string, slashes: string)
    requires '/' !in base && (dir == "" || dir[|dir| - 1] == '/')
    requires forall i :: 0 <= i < |slashes| ==> slashes[i] == '/'
    requires base == "" ==> dir == ""
    ensures HasName(dir + base + slashes) <==> base != "" && base != "."
  {
    if base != "" {
      BaseOfSlashes(dir, base, slashes);
    } else {
      BaseOfNothing(slashes);
      assert dir + base + slashes == slashes;
    }
  }

  /** The executable keeps its name and moves to /warp; only ".." has no place there. */
  lemma TargetKeepsName(source: string)
    requires HasName(source)
    ensures var base := Base(source);
            if base == ".." then Target(base) == "/"
            else Target(base) == "/warp/" + base && Base(Target(base)) == base
  {
    var base := Base(source);
    var _, _ := BaseSplits(source);
    if base != ".." {
      LastElementOfJoin("/warp/", base);
    }
  }

  // ---- prepareWarpSvcCommand and StartWarpSvc ----

  datatype Prepared = Disabled | BadCommand(r: Result) | NotFound | Ready(text: string, source: string, target: string)

  /** resolve stands for exec.LookPath followed by filepath.Abs. */
  method PrepareWarpSvcCommand(raw: string, resolve: string -> Option<string>) returns (p: Prepared)
    ensures TrimSpace(raw) == "" <==> p.Disabled?
    ensures p.BadCommand? <==> TrimSpace(raw) != "" && !SplitArgs(TrimSpace(raw)).Argv?
    ensures p.BadCommand? ==> p.r == SplitArgs(TrimSpace(raw))
    ensures p.Ready? <==>
              && SplitArgs(TrimSpace(raw)).Argv? && TrimSpace(raw) != ""
              && resolve(SplitArgs(TrimSpace(raw)).args[0]).Some?
              && HasName(resolve(SplitArgs(TrimSpace(raw)).args[0]).value)
    ensures p.Ready? ==>
              var args := SplitArgs(TrimSpace(raw)).args;
              && resolve(args[0]) == Some(p.source)
              && p.target == Target(Base(p.source))
              && p.text == JoinArgs(args[0 := p.target])
  {
    var text := TrimSpace(raw);
    if text == "" {
      return Disabled;
    }
    var split := SplitCommand(text);
    if !split.Argv? {
      return BadCommand(split);
    }
    SplitIsNonEmpty(text);
    var parts := split.args;
    var found := resolve(parts[0]);
    if found.None? {
      return NotFound;
    }
    if !HasName(found.value) {
      return NotFound;
    }
    var target := Target(Base(found.value));
    parts := parts[0 := target];
    var joined := JoinCommand(parts);
    return Ready(joined, found.value, target);
  }

  /** The start of StartWarpSvc: None where the service is disabled. */
  function LaunchArgv(raw: string): Option<Result> {
    if TrimSpace(raw) == "" then None else Some(SplitArgs(TrimSpace(raw)))
  }

  // ---- when the rewrite is undone ----

  /** The argument is printed without quotes and ends in white space that is not a separator. */
  predicate LosesItsEnd(arg: string) {
    !NeedsQuotes(arg) && arg != "" && IsSpace(arg[|arg| - 1])
  }

  function Sum(args: seq<string>): nat {
    if args == [] then 0 else Sum(args[..|args| - 1]) + |args[|args| - 1]|
  }

  /** Characters the scan has kept. */
  function Kept(st: Scan): nat {
    Sum(st.out) + |st.cur|
  }

  lemma SumSnoc(args: seq<string>, arg: string)
    ensures Sum(args + [arg]) == Sum(args) + |arg|
  {
    assert (args + [arg])[..|args|] == args;
  }

  lemma FeedKeepsMore(st: Scan, r: char)
    ensures Kept(st) <= Kept(Feed(st, r))
    ensures r !in " \t\"\\" ==> Kept(Feed(st, r)) == Kept(st) + 1
  {
    SumSnoc(st.out, st.cur);
  }

  lemma {:induction false} FeedAllKeepsMore(st: Scan, s: string)
    ensures Kept(st) <= Kept(FeedAll(st, s))
    decreases |s|
  {
    if s != "" {
      FeedKeepsMore(st, s[0]);
      FeedAllKeepsMore(Feed(st, s[0]), s[1..]);
    }
  }

  lemma SplitSum(s: string)
    requires SplitArgs(s).Argv?
    ensures Sum(SplitArgs(s).args) == Kept(FeedAll(Begin, s))
  {
    var st := FeedAll(Begin, s);
    SumSnoc(st.out, st.cur);
  }

  /** Cutting an ordinary last character off changes what is split. */
  lemma ShorterTextSplitsDifferently(s: string, t: string)
    requires s != "" && s[|s| - 1] !in " \t\"\\" && t <= s[..|s| - 1]
    requires SplitArgs(s).Argv?
    ensures SplitArgs(t) != SplitArgs(s)
  {
    var init, r := s[..|s| - 1], s[|s| - 1];
    assert s == init + [r];
    FeedConcat(Begin, init, [r]);
    assert [r][1..] == "";
    FeedKeepsMore(FeedAll(Begin, init), r);
    assert init == t + init[|t|..];
    FeedConcat(Begin, t, init[|t|..]);
    FeedAllKeepsMore(FeedAll(Begin, t), init[|t|..]);
    SplitSum(s);
    if SplitArgs(t).Argv? {
      SplitSum(t);
    }
  }

  /** The first and last characters of a printed command. */
  lemma QuoteArgEnds(arg: string)
    ensures QuoteArg(arg) != ""
    ensures arg != "" && !IsSpace(arg[0]) ==> !IsSpace(QuoteArg(arg)[0])
    ensures IsSpace(QuoteArg(arg)[|QuoteArg(arg)| - 1]) <==> LosesItsEnd(arg)
    ensures LosesItsEnd(arg) ==> QuoteArg(arg)[|QuoteArg(arg)| - 1] !in " \t\"\\"
  {
  }

  lemma {:induction false} JoinEnds(args: seq<string>)
    requires args != []
    ensures var text, last := JoinArgs(args), QuoteArg(args[|args| - 1]);
            && last != "" && |last| <= |text|
            && text[|text| - 1] == last[|last| - 1] && QuoteArg(args[0]) <= text
    decreases |args|
  {
    JoinFirst(args);
    QuoteArgEnds(args[|args| - 1]);
    if 1 < |args| {
      JoinEnds(args[1..]);
    }
  }

  /** A printed command ends as its last argument does, and begins with no white space if its first does not. */
  lemma PrintedEnds(args: seq<string>)
    requires args != [] && args[0] != "" && !IsSpace(args[0][0])
    ensures var text, loses := JoinArgs(args), LosesItsEnd(args[|args| - 1]);
            && text != "" && !IsSpace(text[0])
            && (IsSpace(text[|text| - 1]) <==> loses)
            && (loses ==> text[|text| - 1] !in " \t\"\\")
  {
    JoinEnds(args);
    QuoteArgEnds(args[0]);
    QuoteArgEnds(args[|args| - 1]);
  }

  /** A text that begins with no white space is split as it is exactly if it ends with none either. */
  lemma LaunchOfText(text: string)
    requires text != "" && !IsSpace(text[0]) && SplitArgs(text).Argv?
    requires IsSpace(text[|text| - 1]) ==> text[|text| - 1] !in " \t\"\\"
    ensures LaunchArgv(text) == Some(SplitArgs(text)) <==> !IsSpace(text[|text| - 1])
  {
    assert TrimLeft(text) == text;
    if IsSpace(text[|text| - 1]) {
      assert TrimRight(text) <= text[..|text| - 1];
      ShorterTextSplitsDifferently(text, TrimRight(text));
    }
  }

  /**
   The argv that StartWarpSvc recovers is the one that was printed exactly when its last
   argument keeps its end, for every list of non-empty arguments whose first begins with no
   white space.
   */
  lemma LaunchUndoesJoinIff(args: seq<string>)
    requires args != [] && forall i :: 0 <= i < |args| ==> args[i] != ""
    requires !IsSpace(args[0][0])
    ensures LaunchArgv(JoinArgs(args)) == Some(Argv(args)) <==> !LosesItsEnd(args[|args| - 1])
  {
    assert SplitArgs(JoinArgs(args)) == Argv(args) by {
      NonEmptyOfNonEmpty(args);
      SplitUndoesJoin(args);
    }
    PrintedEnds(args);
    LaunchOfText(JoinArgs(args));
  }

  /** The launch rewrite keeps the meaning of the command, exactly under that condition. */
  lemma LaunchRewriteIff(raw: string, target: string)
    requires SplitArgs(TrimSpace(raw)).Argv?
    requires target != "" && target[0] == '/'
    ensures var args := SplitArgs(TrimSpace(raw)).args;
            && args != []
            && var args' := args[0 := target];
               LaunchArgv(JoinArgs(args')) == Some(Argv(args')) <==> !LosesItsEnd(args'[|args'| - 1])
  {
    SplitIsNonEmpty(TrimSpace(raw));
    LaunchUndoesJoinIff(SplitArgs(TrimSpace(raw)).args[0 := target]);
  }

  /** w "a(newline)": the quoted newline is lost by the second TrimSpace. */
  const Awkward := "w \"a\n\""

  lemma AwkwardTrims()
    ensures TrimSpace(Awkward) == Awkward
  {
    assert Awkward[0] == 'w' && Awkward[|Awkward| - 1] == '"';
  }

  /** A quoted argument of two ordinary characters. */
  lemma FeedQuotedPair(st: Scan, x: char, y: char)
    requires !st.inQuote && !st.escape && st.cur == ""
    requires x != '\\' && x != '"' && y != '\\' && y != '"'
    ensures FeedAll(st, ['"', x, y, '"']) == st.(cur := [x, y])
  {
    var s := ['"', x, y, '"'];
    assert s[1..] == [x, y, '"'] && [x, y, '"'][1..] == [y, '"'] && [y, '"'][1..] == ['"'] && ['"'][1..] == [];
    var st1 := st.(inQuote := true);
    assert FeedAll(st1.(cur := [x, y]), ['"']) == st.(cur := [x, y]);
    assert "" + [x] == [x] && [x] + [y] == [x, y];
    assert FeedAll(st1.(cur := [x]), [y, '"']) == st.(cur := [x, y]);
    assert FeedAll(st1, [x, y, '"']) == st.(cur := [x, y]);
  }

  lemma FeedWord()
    ensures FeedAll(Begin, "w ") == Scan(["w"], "", false, false)
  {
    FeedQuoteArgAndSpace([], "w");
    assert !NeedsQuotes("w") && QuoteArg("w") + " " == "w ";
    assert [] + ["w"] == ["w"];
  }

  lemma AwkwardSplits()
    ensures SplitArgs(Awkward) == Argv(["w", "a\n"])
  {
    FeedWord();
    FeedConcat(Begin, "w ", "\"a\n\"");
    FeedQuotedPair(Scan(["w"], "", false, false), 'a', '\n');
    assert Awkward == "w " + "\"a\n\"";
  }

  lemma AwkwardEnd()
    ensures LosesItsEnd("a\n")
  {
  }

  /** So the rewrite does not always keep the meaning: here is a command it changes. */
  lemma LaunchCanChangeArgv(target: string)
    requires target != "" && target[0] == '/'
    ensures SplitArgs(TrimSpace(Awkward)) == Argv(["w", "a\n"])
    ensures LaunchArgv(JoinArgs([target, "a\n"])) != Some(Argv([target, "a\n"]))
  {
    AwkwardTrims();
    AwkwardSplits();
    var args := [target, "a\n"];
    AwkwardEnd();
    assert !IsSpace(args[0][0]) && args[1] == "a\n";
    LaunchUndoesJoinIff(args);
  }
}
