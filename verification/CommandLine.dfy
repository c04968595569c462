/** Windows command lines: joining arguments into one line, and the C runtime's reading of it. */
module CommandLine {
  import opened Sequences

  function Slashes(n: nat): (s: string)
    ensures |s| == n && forall i :: 0 <= i < n ==> s[i] == '\\'
  {
    seq(n, _ => '\\')
  }

  predicate Blank(c: char) {
    c == ' ' || c == '\t'
  }

  // ---- Writing ----

  function ProgramText(arg: string): string {
    if arg == "" || ' ' in arg || '\t' in arg then "\"" + (arg + "\"") else arg
  }

  const VERTICAL_TAB: char := 11 as char

  predicate Plain(arg: string) {
    arg != "" && ' ' !in arg && '\t' !in arg && '\n' !in arg && VERTICAL_TAB !in arg && '"' !in arg
  }

  // The rest of a quoted argument, after `n` backslashes not yet written.
  function QuoteRest(s: string, n: nat): string {
    if s == "" then Slashes(2 * n) + "\""
    else if s[0] == '\\' then QuoteRest(s[1..], n + 1)
    else if s[0] == '"' then Slashes(2 * n + 1) + ("\"" + QuoteRest(s[1..], 0))
    else Slashes(n) + ([s[0]] + QuoteRest(s[1..], 0))
  }

  function Quoted(arg: string): string {
    if Plain(arg) then arg else "\"" + QuoteRest(arg, 0)
  }

  // Each argument after a space.
  function Arguments(args: seq<string>): string {
    if args == [] then "" else " " + (Quoted(args[0]) + Arguments(args[1..]))
  }

  function Joined(argv: seq<string>): string {
    if argv == [] then "" else ProgramText(argv[0]) + Arguments(argv[1..])
  }

  method Quote(before: string, arg: string) returns (line: string)
    ensures line == before + Quoted(arg)
  {
    hide Slashes;
    line := before;
    if Plain(arg) {
      line := line + arg;
      return;
    }
    line := line + "\"";
    Assoc(before, "\"", QuoteRest(arg, 0));
    var backslashes := 0;
    assert arg[0..] == arg;
    for i := 0 to |arg|
      invariant line + QuoteRest(arg[i..], backslashes) == before + Quoted(arg)
    {
      var c := arg[i];
      ghost var was, rest := line, arg[i..];
      assert rest[0] == c && rest[1..] == arg[i + 1..];
      if c == '\\' {
        backslashes := backslashes + 1;
      } else {
        ghost var escape := if c == '"' then Slashes(backslashes * 2 + 1) else Slashes(backslashes);
        if c == '"' {
          line := line + Slashes(backslashes * 2 + 1);
          line := line + "\"";
        } else {
          line := line + Slashes(backslashes);
          line := line + [c];
        }
        Assoc(was, escape, [c] + QuoteRest(rest[1..], 0));
        Assoc(was + escape, [c], QuoteRest(rest[1..], 0));
        backslashes := 0;
      }
    }
    assert arg[|arg|..] == "";
    Assoc(line, Slashes(backslashes * 2), "\"");
    line := line + Slashes(backslashes * 2);
    line := line + "\"";
  }

  method Join(argv: seq<string>) returns (line: string)
    ensures line == Joined(argv)
  {
    hide Quoted;
    line := "";
    for i := 0 to |argv|
      invariant i == 0 ==> line == ""
      invariant i > 0 ==> line + Arguments(argv[i..]) == Joined(argv)
    {
      var arg := argv[i];
      if i > 0 {
        ghost var was, rest := line, Arguments(argv[i + 1..]);
        assert argv[i..][0] == arg && argv[i..][1..] == argv[i + 1..];
        line := line + " ";
        Assoc(was, " ", Quoted(arg) + rest);
        Assoc(line, Quoted(arg), rest);
        line := Quote(line, arg);
      } else if arg == "" || ' ' in arg || '\t' in arg {
        line := line + "\"";
        line := line + arg;
        line := line + "\"";
        assert line == ProgramText(arg);
      } else {
        line := line + arg;
        assert line == ProgramText(arg);
      }
    }
    if argv != [] {
      assert argv[|argv|..] == [] && line + "" == line;
    }
  }

  // ---- Reading ----

  // The program name, up to a blank outside quotes, added to what was read of it; and what follows it.
  function ReadProgram(read: string, s: string, quoted: bool): (r: (string, string))
    ensures |r.1| <= |s|
    ensures '"' !in read ==> '"' !in r.0
    decreases |s|
  {
    if s == "" then (read, "")
    else if s[0] == '"' then ReadProgram(read, s[1..], !quoted)
    else if Blank(s[0]) && !quoted then (read, s)
    else ReadProgram(read + [s[0]], s[1..], quoted)
  }

  function SkipBlanks(s: string): (r: string)
    ensures |r| <= |s|
    ensures r != "" ==> !Blank(r[0])
  {
    if s != "" && Blank(s[0]) then SkipBlanks(s[1..]) else s
  }

  // How many backslashes a text begins with.
  function Leading(s: string): (n: nat)
    ensures n <= |s| && (n < |s| ==> s[n] != '\\')
  {
    if s == "" || s[0] != '\\' then 0 else 1 + Leading(s[1..])
  }

  // One argument, up to a blank outside quotes, added to what was read of it; and what follows it.
  function ReadArgument(read: string, s: string, quoted: bool): (r: (string, string))
    ensures |r.1| <= |s|
    ensures s != "" && !(Blank(s[0]) && !quoted) ==> |r.1| < |s|
    decreases |s|
  {
    var n := Leading(s);
    var u := s[n..];
    if u == "" then (read + Slashes(n), "")
    else if u[0] == '"' then
      if n % 2 == 1 then ReadArgument(read + Slashes(n / 2) + "\"", u[1..], quoted)
      else if quoted && |u| > 1 && u[1] == '"' then
                    ReadArgument(read + Slashes(n / 2) + "\"", u[2..], quoted)
      else ReadArgument(read + Slashes(n / 2), u[1..], !quoted)
    else if Blank(u[0]) && !quoted then (read + Slashes(n), u)
    else ReadArgument(read + Slashes(n) + [u[0]], u[1..], quoted)
  }

  function ReadArguments(s: string): seq<string>
    decreases |s|
  {
    var t := SkipBlanks(s);
    if t == "" then []
    else
      var (arg, rest) := ReadArgument("", t, false);
      [arg] + ReadArguments(rest)
  }

  function Read(line: string): seq<string> {
    var (program, rest) := ReadProgram("", line, false);
    [program] + ReadArguments(rest)
  }

  method Split(line: string) returns (args: seq<string>)
    ensures args == Read(line)
  {
    hide ReadArguments;
    var at := 0;
    var program, quoted := "", false;
    assert line[0..] == line;
    while at < |line|
      invariant 0 <= at <= |line|
      invariant ReadProgram("", line, false) == ReadProgram(program, line[at..], quoted)
    {
      var c := line[at];
      assert line[at..][0] == c && line[at..][1..] == line[at + 1..];
      if c == '"' {
        quoted := !quoted;
      } else if Blank(c) && !quoted {
        break;
      } else {
        program := program + [c];
      }
      at := at + 1;
    }
    assert (program, line[at..]) == ReadProgram("", line, false);
    var others := SplitArguments(line, at);
    return [program] + others;
  }

  method SplitArguments(line: string, start: nat) returns (args: seq<string>)
    requires start <= |line|
    ensures args == ReadArguments(line[start..])
  {
    hide SkipBlanks, ReadArgument;
    var at := start;
    args := [];
    while true
      invariant start <= at <= |line|
      invariant args + ReadArguments(line[at..]) == ReadArguments(line[start..])
      decreases |line| - at
    {
      ghost var s := line[at..];
      at := PastBlanks(line, at);
      if at == |line| {
        return;
      }
      var arg;
      arg, at := NextArgument(line, at);
      assert ReadArguments(s) == [arg] + ReadArguments(line[at..]);
      assert args + ([arg] + ReadArguments(line[at..])) == (args + [arg]) + ReadArguments(line[at..]);
      args := args + [arg];
    }
  }

  method PastBlanks(line: string, start: nat) returns (at: nat)
    requires start <= |line|
    ensures start <= at <= |line| && line[at..] == SkipBlanks(line[start..])
    ensures at < |line| ==> !Blank(line[at])
  {
    at := start;
    while at < |line| && Blank(line[at])
      invariant start <= at <= |line|
      invariant SkipBlanks(line[at..]) == SkipBlanks(line[start..])
    {
      assert line[at..][1..] == line[at + 1..];
      at := at + 1;
    }
  }

  method PastBackslashes(line: string, start: nat) returns (backslashes: nat, at: nat)
    requires start <= |line|
    ensures backslashes == Leading(line[start..])
    ensures at == start + backslashes <= |line| && line[at..] == line[start..][backslashes..]
  {
    at, backslashes := start, 0;
    while at < |line| && line[at] == '\\'
      invariant at == start + backslashes <= |line|
      invariant backslashes + Leading(line[at..]) == Leading(line[start..])
    {
      assert line[at..][1..] == line[at + 1..];
      backslashes := backslashes + 1;
      at := at + 1;
    }
  }

  // One turn of the reader, with the text after the backslashes named.
  lemma ReadTurn(read: string, s: string, u: string, quoted: bool)
    requires u == s[Leading(s)..]
    ensures var n := Leading(s);
            ReadArgument(read, s, quoted)
            == if u == "" then (read + Slashes(n), "")
               else if u[0] == '"' then
                 if n % 2 == 1 then ReadArgument(read + Slashes(n / 2) + "\"", u[1..], quoted)
                 else if quoted && |u| > 1 && u[1] == '"' then
                    ReadArgument(read + Slashes(n / 2) + "\"", u[2..], quoted)
                 else ReadArgument(read + Slashes(n / 2), u[1..], !quoted)
               else if Blank(u[0]) && !quoted then (read + Slashes(n), u)
               else ReadArgument(read + Slashes(n) + [u[0]], u[1..], quoted)
  {
    hide Leading, Slashes;
  }

  method NextArgument(line: string, start: nat) returns (arg: string, at: nat)
    requires start < |line| && !Blank(line[start])
    ensures start < at <= |line| && (arg, line[at..]) == ReadArgument("", line[start..], false)
  {
    hide Slashes, Leading, ReadArgument;
    at := start;
    arg := "";
    var quoted := false;
    while true
      invariant start <= at <= |line|
      invariant ReadArgument("", line[start..], false) == ReadArgument(arg, line[at..], quoted)
      decreases |line| - at
    {
      var backslashes;
      ghost var s := line[at..];
      backslashes, at := PastBackslashes(line, at);
      ghost var u := line[at..];
      ReadTurn(arg, s, u, quoted);
      if at == |line| {
        arg := arg + Slashes(backslashes);
        break;
      }
      var c := line[at];
      assert u[0] == c && u[1..] == line[at + 1..];
      if c == '"' {
        arg := arg + Slashes(backslashes / 2);
        at := at + 1;
        if backslashes % 2 == 1 {
          arg := arg + "\"";
        } else if quoted && at < |line| && line[at] == '"' {
          assert u[2..] == line[at + 1..];
          arg := arg + "\"";
          at := at + 1;
        } else {
          quoted := !quoted;
        }
      } else if Blank(c) && !quoted {
        arg := arg + Slashes(backslashes);
        break;
      } else {
        arg := arg + Slashes(backslashes);
        arg := arg + [c];
        at := at + 1;
      }
    }
    assert |line[at..]| < |line[start..]|;
  }

  // ---- Reading what was written ----

  // What may follow an argument: nothing, or a space or a tab.
  predicate Ends(rest: string) {
    rest == "" || rest[0] == ' ' || rest[0] == '\t'
  }

  lemma {:induction false} LeadingSlashes(n: nat, u: string)
    requires u == "" || u[0] != '\\'
    ensures Leading(Slashes(n) + u) == n && (Slashes(n) + u)[n..] == u
  {
    var s := Slashes(n) + u;
    if n == 0 {
      assert s == u;
    } else {
      assert s[1..] == Slashes(n - 1) + u;
      LeadingSlashes(n - 1, u);
    }
  }

  // One turn of the reader, past `n` backslashes.
  lemma ReadStep(read: string, n: nat, u: string, quoted: bool)
    requires u == "" || u[0] != '\\'
    ensures ReadArgument(read, Slashes(n) + u, quoted)
            == if u == "" then (read + Slashes(n), "")
               else if u[0] == '"' then
                 if n % 2 == 1 then ReadArgument(read + Slashes(n / 2) + "\"", u[1..], quoted)
                 else if quoted && |u| > 1 && u[1] == '"' then
                   ReadArgument(read + Slashes(n / 2) + "\"", u[2..], quoted)
                 else ReadArgument(read + Slashes(n / 2), u[1..], !quoted)
               else if (u[0] == ' ' || u[0] == '\t') && !quoted then (read + Slashes(n), u)
               else ReadArgument(read + Slashes(n) + [u[0]], u[1..], quoted)
  {
    LeadingSlashes(n, u);
    hide Leading, Slashes;
  }

  lemma NothingMore(read: string, rest: string)
    requires Ends(rest)
    ensures ReadArgument(read, rest, false) == (read, rest)
  {
    assert Slashes(0) + rest == rest && read + Slashes(0) == read;
    ReadStep(read, 0, rest, false);
  }

  // Backslashes held over, then the next character.
  lemma HeldOver(read: string, n: nat, s: string)
    requires s != ""
    ensures s[0] == '\\' ==> read + (Slashes(n + 1) + s[1..]) == read + (Slashes(n) + s)
    ensures (read + Slashes(n) + [s[0]]) + (Slashes(0) + s[1..]) == read + (Slashes(n) + s)
  {
    assert s == [s[0]] + s[1..];
    assert s[0] == '\\' ==> Slashes(n + 1) == Slashes(n) + [s[0]];
  }

  // Inside quotes: the argument comes back, with the backslashes held over.
  lemma {:induction false} QuotedReads(read: string, s: string, n: nat, rest: string)
    requires Ends(rest)
    ensures ReadArgument(read, QuoteRest(s, n) + rest, true) == (read + (Slashes(n) + s), rest)
    decreases |s|
  {
    hide Leading, Slashes, ReadArgument;
    if s == "" {
      var u := "\"" + rest;
      Assoc(Slashes(2 * n), "\"", rest);
      ReadStep(read, 2 * n, u, true);
      assert u[1..] == rest;
      NothingMore(read + Slashes(n), rest);
      assert Slashes(n) + s == Slashes(n);
    } else if s[0] == '\\' {
      QuotedReads(read, s[1..], n + 1, rest);
      HeldOver(read, n, s);
    } else {
      var written := QuoteRest(s[1..], 0);
      var escape := if s[0] == '"' then 2 * n + 1 else n;
      var u := [s[0]] + (written + rest);
      Assoc(Slashes(escape), [s[0]] + written, rest);
      Assoc([s[0]], written, rest);
      ReadStep(read, escape, u, true);
      assert u[1..] == written + rest;
      QuotedReads(read + Slashes(n) + [s[0]], s[1..], 0, rest);
      HeldOver(read, n, s);
    }
  }

  lemma FirstAndRest(u: string, rest: string)
    requires u != ""
    ensures (u + rest)[0] == u[0] && (u + rest)[1..] == u[1..] + rest && u == [u[0]] + u[1..]
  {}

  // Characters that mean nothing to the reader outside quotes, but for backslashes.
  predicate Unmarked(s: string) {
    forall i :: 0 <= i < |s| ==> !Blank(s[i]) && s[i] != '"'
  }

  // Without quotes: nothing in a plain argument means anything to the reader.
  lemma {:induction false} PlainReads(read: string, s: string, rest: string)
    requires Ends(rest) && Unmarked(s)
    ensures ReadArgument(read, s + rest, false) == (read + s, rest)
    decreases |s|
  {
    hide ReadArgument;
    var n := Leading(s);
    var u := s[n..];
    LeadingIsSlashes(s);
    hide Leading, Slashes;
    Assoc(Slashes(n), u, rest);
    Assoc(read, Slashes(n), u);
    ReadStep(read, n, u + rest, false);
    if u == "" {
      assert u + rest == rest && s == Slashes(n);
    } else {
      FirstAndRest(u, rest);
      PlainReads(read + Slashes(n) + [u[0]], u[1..], rest);
      Assoc(read + Slashes(n), [u[0]], u[1..]);
    }
  }

  lemma {:induction false} LeadingIsSlashes(s: string)
    ensures s == Slashes(Leading(s)) + s[Leading(s)..]
  {
    if s != "" && s[0] == '\\' {
      LeadingIsSlashes(s[1..]);
      assert s == [s[0]] + s[1..];
    }
  }

  lemma ArgumentReads(arg: string, rest: string)
    requires Ends(rest)
    ensures ReadArgument("", Quoted(arg) + rest, false) == (arg, rest)
    ensures Quoted(arg) != "" && !Blank(Quoted(arg)[0])
  {
    hide ReadArgument, Leading, Slashes;
    if Plain(arg) {
      assert Unmarked(arg) && arg[0] in arg;
      PlainReads("", arg, rest);
      assert "" + arg == arg;
    } else {
      var u := "\"" + (QuoteRest(arg, 0) + rest);
      NoSlashes("", u);
      Assoc("\"", QuoteRest(arg, 0), rest);
      ReadStep("", 0, u, false);
      assert u[1..] == QuoteRest(arg, 0) + rest;
      QuotedReads("", arg, 0, rest);
      NoSlashes("", arg);
    }
  }

  lemma NoSlashes(read: string, s: string)
    ensures Slashes(0) + s == s && "" + (Slashes(0) + s) == s && read + Slashes(0) == read
  {}

  lemma {:induction false} ArgumentsRead(args: seq<string>)
    ensures ReadArguments(Arguments(args)) == args
    ensures Ends(Arguments(args))
  {
    hide Quoted, ReadArgument;
    if args != [] {
      var rest := Arguments(args[1..]);
      var line := Arguments(args);
      ArgumentsRead(args[1..]);
      ArgumentReads(args[0], rest);
      assert line[1..] == Quoted(args[0]) + rest;
      assert SkipBlanks(line) == line[1..];
      assert args == [args[0]] + args[1..];
    }
  }

  // The program name, inside quotes or not.
  lemma {:induction false} ProgramReads(read: string, s: string, rest: string, quoted: bool)
    requires '"' !in s && Ends(rest)
    requires !quoted ==> ' ' !in s && '\t' !in s
    ensures ReadProgram(read, s + (if quoted then "\"" + rest else rest), quoted) == (read + s, rest)
    decreases |s|
  {
    var tail := if quoted then "\"" + rest else rest;
    if s == "" {
      assert s + tail == tail && read + s == read;
      assert quoted ==> tail[1..] == rest;
    } else {
      assert s[0] in s;
      ProgramReads(read + [s[0]], s[1..], rest, quoted);
      assert (s + tail)[1..] == s[1..] + tail;
      assert read + [s[0]] + s[1..] == read + s;
    }
  }

  lemma QuoteTurn(read: string, s: string, quoted: bool)
    requires s != "" && s[0] == '"'
    ensures ReadProgram(read, s, quoted) == ReadProgram(read, s[1..], !quoted)
  {}

  lemma ProgramTextReads(arg: string, rest: string)
    requires '"' !in arg && Ends(rest)
    ensures ReadProgram("", ProgramText(arg) + rest, false) == (arg, rest)
  {
    hide ReadProgram;
    assert "" + arg == arg;
    if arg == "" || ' ' in arg || '\t' in arg {
      var u := arg + ("\"" + rest);
      Assoc("\"", arg + "\"", rest);
      Assoc(arg, "\"", rest);
      ProgramReads("", arg, rest, true);
      QuoteTurn("", "\"" + u, false);
      assert ("\"" + u)[1..] == u;
    } else {
      ProgramReads("", arg, rest, false);
    }
  }

  // Joining and splitting gives the arguments back exactly when there is a program name and it has no double quote.
  lemma SplitOfJoin(argv: seq<string>)
    ensures Read(Joined(argv)) == argv <==> argv != [] && '"' !in argv[0]
  {
    hide ProgramText, ReadArguments, ReadProgram;
    if argv != [] && '"' !in argv[0] {
      ArgumentsRead(argv[1..]);
      ProgramTextReads(argv[0], Arguments(argv[1..]));
      assert argv == [argv[0]] + argv[1..];
    }
  }

  // So different argument lists make different command lines.
  lemma JoinInjective(a: seq<string>, b: seq<string>)
    requires a != [] && '"' !in a[0] && b != [] && '"' !in b[0]
    requires Joined(a) == Joined(b)
    ensures a == b
  {
    SplitOfJoin(a);
    SplitOfJoin(b);
  }

  // ---- No more is written than must be ----

  // An argument is written as it is exactly when it is not empty and holds no blank, line break, vertical tab or quote.
  lemma QuotedWhen(arg: string)
    ensures Quoted(arg) == arg
            <==> arg != "" && forall c :: c in arg ==> c != ' ' && c != '\t' && c != '\n' && c != 11 as char && c != '"'
  {
    if !Plain(arg) {
      QuoteRestLength(arg, 0);
    }
  }

  // The program name is put in quotes exactly when it is empty or holds a space or a tab.
  lemma ProgramTextWhen(arg: string)
    ensures ProgramText(arg) == (if arg != "" && forall c :: c in arg ==> c != ' ' && c != '\t' then arg
                                 else "\"" + arg + "\"")
  {
    assert "\"" + (arg + "\"") == "\"" + arg + "\"";
  }

  // How many backslashes quoting adds: one before each quote, and one for each backslash in a run that ends at a quote
  // or at the end.
  function Escapes(s: string, run: nat): nat {
    if s == "" then run
    else if s[0] == '\\' then Escapes(s[1..], run + 1)
    else if s[0] == '"' then run + 1 + Escapes(s[1..], 0)
    else Escapes(s[1..], 0)
  }

  lemma {:induction false} QuoteRestLength(s: string, n: nat)
    ensures |QuoteRest(s, n)| == n + |s| + 1 + Escapes(s, n)
    decreases |s|
  {
    if s != "" {
      QuoteRestLength(s[1..], if s[0] == '\\' then n + 1 else 0);
    }
  }

  // Otherwise it is two quotes and those backslashes longer; and without quotes or backslashes, just in quotes.
  lemma QuotedLength(arg: string)
    requires Quoted(arg) != arg
    ensures |Quoted(arg)| == |arg| + 2 + Escapes(arg, 0)
    ensures '"' !in arg && '\\' !in arg ==> Quoted(arg) == "\"" + arg + "\""
  {
    QuoteRestLength(arg, 0);
    if '"' !in arg && '\\' !in arg {
      NothingEscaped(arg);
      assert "\"" + (arg + "\"") == "\"" + arg + "\"";
    }
  }

  lemma {:induction false} NothingEscaped(s: string)
    requires '"' !in s && '\\' !in s
    ensures QuoteRest(s, 0) == s + "\""
  {
    if s != "" {
      assert s[0] in s && forall c :: c in s[1..] ==> c in s;
      NothingEscaped(s[1..]);
      assert s == [s[0]] + s[1..];
    }
  }

  // Between arguments stands one space.
  lemma JoinedStep(program: string, args: seq<string>, arg: string)
    ensures Joined([program]) == ProgramText(program)
    ensures Joined([program] + args + [arg]) == Joined([program] + args) + " " + Quoted(arg)
  {
    var argv := [program] + args;
    assert (argv + [arg])[1..] == args + [arg] && argv[1..] == args && [program][1..] == [];
    ArgumentsAppend(args, arg);
    assert ProgramText(program) + (Arguments(args) + (" " + Quoted(arg)))
           == ProgramText(program) + Arguments(args) + " " + Quoted(arg);
  }

  lemma {:induction false} ArgumentsAppend(args: seq<string>, arg: string)
    ensures Arguments(args + [arg]) == Arguments(args) + (" " + Quoted(arg))
  {
    hide Quoted;
    if args == [] {
      assert [] + [arg] == [arg] && Arguments([arg]) == " " + (Quoted(arg) + Arguments([]));
      assert [arg][1..] == [];
    } else {
      ArgumentsAppend(args[1..], arg);
      assert (args + [arg])[1..] == args[1..] + [arg];
      var head, rest, tail := Quoted(args[0]), Arguments(args[1..]), " " + Quoted(arg);
      Assoc(head, rest, tail);
      Assoc(" ", head + rest, tail);
    }
  }
}
