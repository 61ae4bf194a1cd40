/** Quoting of an argument vector into one `cmd.exe /d /s /c` command line. */
module WindowsCommandLauncher {
  import opened Text

  datatype Result<+T> = Ok(value: T) | Blocked(reason: Reason)

  datatype Reason = Newline | ShellMetacharacter | EmptyExecutable | InvalidExecutable

  predicate HasNewline(arg: string) {
    '\r' in arg || '\n' in arg
  }

  predicate HasMetacharacter(arg: string) {
    exists c :: c in arg && c in "|&<>^%"
  }

  predicate NeedsQuotes(arg: string) {
    exists c :: c in arg && (IsWhitespace(c) || c == '"')
  }

  /** Every quotation mark written twice. */
  function DoubleQuotes(s: string): string {
    if s == "" then ""
    else if s[0] == '"' then "\"\"" + DoubleQuotes(s[1..])
    else [s[0]] + DoubleQuotes(s[1..])
  }

  function QuoteArgument(arg: string): Result<string> {
    if |arg| == 0 then Ok("\"\"")
    else if HasNewline(arg) then Blocked(Newline)
    else if HasMetacharacter(arg) then Blocked(ShellMetacharacter)
    else if !NeedsQuotes(arg) then Ok(arg)
    else Ok("\"" + DoubleQuotes(arg) + "\"")
  }

  function QuoteAll(argv: seq<string>): Result<seq<string>> {
    if argv == [] then Ok([])
    else
      match QuoteArgument(argv[0])
      case Blocked(reason) => Blocked(reason)
      case Ok(first) =>
        match QuoteAll(argv[1..])
        case Blocked(reason) => Blocked(reason)
        case Ok(rest) => Ok([first] + rest)
  }

  predicate ValidExecutable(executable: string) {
    && (forall c :: c in executable ==> c !in "|&;<>()$`\"'\r\n")
    && Find(executable, "..") == -1
  }

  function BuildCommandLine(executable: string, args: seq<string>): Result<string> {
    if Trim(executable) == "" then Blocked(EmptyExecutable)
    else if !ValidExecutable(executable) then Blocked(InvalidExecutable)
    else
      match QuoteAll([executable] + args)
      case Blocked(reason) => Blocked(reason)
      case Ok(quoted) => Ok(Join(quoted, " "))
  }

  // A reader of such lines: split at the spaces that stand outside quotation marks, then
  // strip the outer marks of each piece and undouble the inner ones.

  /** `parts` with `p` written in front of its first piece. */
  function Prefix(p: string, parts: seq<string>): (r: seq<string>)
    requires parts != []
  {
    [p + parts[0]] + parts[1..]
  }

  lemma PrefixTwice(p: string, q: string, parts: seq<string>)
    requires parts != []
    ensures Prefix(p, Prefix(q, parts)) == Prefix(p + q, parts)
    ensures Prefix("", parts) == parts
  {
    assert p + (q + parts[0]) == (p + q) + parts[0];
    assert "" + parts[0] == parts[0];
  }

  function SplitUnquoted(s: string, quoted: bool): (parts: seq<string>)
    ensures parts != []
  {
    if s == "" then [""]
    else if s[0] == '"' then Prefix([s[0]], SplitUnquoted(s[1..], !quoted))
    else if s[0] == ' ' && !quoted then [""] + SplitUnquoted(s[1..], false)
    else Prefix([s[0]], SplitUnquoted(s[1..], quoted))
  }

  function Undouble(s: string): string {
    if s == "" then ""
    else if |s| >= 2 && s[0] == '"' && s[1] == '"' then "\"" + Undouble(s[2..])
    else [s[0]] + Undouble(s[1..])
  }

  function Unquote(piece: string): string {
    if |piece| >= 2 && piece[0] == '"' && piece[|piece| - 1] == '"'
    then Undouble(piece[1..|piece| - 1])
    else piece
  }

  function Tokenize(line: string): seq<string> {
    var pieces := SplitUnquoted(line, false);
    seq(|pieces|, i requires 0 <= i < |pieces| => Unquote(pieces[i]))
  }

  lemma {:induction false} UndoubleDoubled(s: string)
    ensures Undouble(DoubleQuotes(s)) == s
  {
    if s != "" {
      UndoubleDoubled(s[1..]);
      var d := DoubleQuotes(s);
      if s[0] == '"' {
        assert d[2..] == DoubleQuotes(s[1..]);
      } else {
        assert d[1..] == DoubleQuotes(s[1..]);
      }
    }
  }

  lemma UnquoteQuoted(arg: string)
    requires QuoteArgument(arg).Ok?
    ensures Unquote(QuoteArgument(arg).value) == arg
  {
    var q := QuoteArgument(arg).value;
    if |arg| == 0 {
    } else if NeedsQuotes(arg) {
      assert q[1..|q| - 1] == DoubleQuotes(arg);
      UndoubleDoubled(arg);
    } else {
      assert arg[0] in arg;
    }
  }

  /** Reading one character. */
  lemma ReadChar(c: char, rest: string, quoted: bool)
    ensures SplitUnquoted([c] + rest, quoted) ==
      (if c == '"' then Prefix([c], SplitUnquoted(rest, !quoted))
       else if c == ' ' && !quoted then [""] + SplitUnquoted(rest, false)
       else Prefix([c], SplitUnquoted(rest, quoted)))
  {
    assert ([c] + rest)[1..] == rest;
  }

  lemma DoubleFirst(c: char, s: string)
    ensures DoubleQuotes([c] + s) == (if c == '"' then "\"" + ("\"" + DoubleQuotes(s)) else [c] + DoubleQuotes(s))
  {
    assert ([c] + s)[1..] == s;
    assert "\"\"" + DoubleQuotes(s) == "\"" + ("\"" + DoubleQuotes(s));
  }

  /** Inside quotation marks the doubled text is passed over and the reader stays inside. */
  lemma {:induction false} SplitInsideQuotes(s: string, rest: string)
    ensures SplitUnquoted(DoubleQuotes(s) + rest, true) == Prefix(DoubleQuotes(s), SplitUnquoted(rest, true))
  {
    if s == "" {
      PrefixTwice("", "", SplitUnquoted(rest, true));
      assert "" + rest == rest;
    } else {
      SplitInsideQuotes(s[1..], rest);
      assert s == [s[0]] + s[1..];
      PassInside(s[0], s[1..], rest);
    }
  }

  lemma PassInside(c: char, s: string, rest: string)
    requires SplitUnquoted(DoubleQuotes(s) + rest, true) == Prefix(DoubleQuotes(s), SplitUnquoted(rest, true))
    ensures SplitUnquoted(DoubleQuotes([c] + s) + rest, true)
         == Prefix(DoubleQuotes([c] + s), SplitUnquoted(rest, true))
  {
    hide SplitUnquoted, Prefix, DoubleQuotes;
    var e, parts := DoubleQuotes(s), SplitUnquoted(rest, true);
    DoubleFirst(c, s);
    if c == '"' {
      Assoc("\"", "\"" + e, rest);
      Assoc("\"", e, rest);
      ReadChar('"', "\"" + (e + rest), true);
      ReadChar('"', e + rest, false);
      PrefixTwice("\"", e, parts);
      PrefixTwice("\"", "\"" + e, parts);
    } else {
      Assoc([c], e, rest);
      ReadChar(c, e + rest, true);
      PrefixTwice([c], e, parts);
    }
  }

  lemma {:induction false} SplitPlain(s: string, rest: string)
    requires !NeedsQuotes(s)
    ensures SplitUnquoted(s + rest, false) == Prefix(s, SplitUnquoted(rest, false))
  {
    PrefixTwice("", "", SplitUnquoted(rest, false));
    if s == "" {
      assert s + rest == rest;
    } else {
      PrefixTwice([s[0]], s[1..], SplitUnquoted(rest, false));
      assert [s[0]] + s[1..] == s;
      assert s[0] in s;
      assert forall c :: c in s[1..] ==> c in s;
      SplitPlain(s[1..], rest);
      assert (s + rest)[1..] == s[1..] + rest;
    }
  }

  lemma SplitPassesQuoted(arg: string, rest: string)
    ensures var q := "\"" + DoubleQuotes(arg) + "\"";
      SplitUnquoted(q + rest, false) == Prefix(q, SplitUnquoted(rest, false))
  {
    var d := DoubleQuotes(arg);
    var q := "\"" + d + "\"";
    SplitInsideQuotes(arg, "\"" + rest);
    hide DoubleQuotes;
    assert (q + rest)[1..] == d + ("\"" + rest);
    assert ("\"" + rest)[1..] == rest;
    assert SplitUnquoted("\"" + rest, true) == Prefix("\"", SplitUnquoted(rest, false));
    PrefixTwice(d, "\"", SplitUnquoted(rest, false));
    PrefixTwice("\"", d + "\"", SplitUnquoted(rest, false));
    assert "\"" + (d + "\"") == q;
  }

  /** A quoted argument is read as one piece, whatever follows it outside quotation marks. */
  lemma SplitPassesArgument(arg: string, rest: string)
    requires QuoteArgument(arg).Ok?
    ensures SplitUnquoted(QuoteArgument(arg).value + rest, false)
         == Prefix(QuoteArgument(arg).value, SplitUnquoted(rest, false))
  {
    if |arg| == 0 || NeedsQuotes(arg) {
      assert QuoteArgument(arg).value == "\"" + DoubleQuotes(arg) + "\"";
      SplitPassesQuoted(arg, rest);
    } else {
      SplitPlain(arg, rest);
    }
  }

  lemma {:induction false} QuoteAllEach(argv: seq<string>)
    requires QuoteAll(argv).Ok?
    ensures |QuoteAll(argv).value| == |argv|
    ensures forall i :: 0 <= i < |argv| ==> QuoteArgument(argv[i]) == Ok(QuoteAll(argv).value[i])
  {
    if argv != [] {
      QuoteAllEach(argv[1..]);
    }
  }

  lemma {:induction false} SplitJoined(argv: seq<string>, quoted: seq<string>)
    requires argv != [] && |quoted| == |argv|
    requires forall i :: 0 <= i < |argv| ==> QuoteArgument(argv[i]) == Ok(quoted[i])
    ensures SplitUnquoted(Join(quoted, " "), false) == quoted
    decreases |argv|
  {
    hide SplitUnquoted, QuoteArgument;
    var first := quoted[0];
    if |argv| == 1 {
      ReadOne(argv[0], first);
      assert quoted == [first];
    } else {
      SplitJoined(argv[1..], quoted[1..]);
      var rest := Join(quoted[1..], " ");
      ReadFirst(argv[0], first, rest);
      Assoc(first, " ", rest);
      assert quoted == [first] + quoted[1..];
    }
  }

  lemma ReadOne(arg: string, piece: string)
    requires QuoteArgument(arg) == Ok(piece)
    ensures SplitUnquoted(piece, false) == [piece]
  {
    SplitPassesArgument(arg, "");
    assert piece + "" == piece;
  }

  lemma ReadFirst(arg: string, piece: string, rest: string)
    requires QuoteArgument(arg) == Ok(piece)
    ensures SplitUnquoted(piece + (" " + rest), false) == [piece] + SplitUnquoted(rest, false)
  {
    SplitPassesArgument(arg, " " + rest);
    ReadChar(' ', rest, false);
    assert piece + "" == piece;
  }

  /** Reading the built command line gives back the executable and every argument. */
  lemma QuotingRoundTrip(executable: string, args: seq<string>)
    requires BuildCommandLine(executable, args).Ok?
    ensures Tokenize(BuildCommandLine(executable, args).value) == [executable] + args
  {
    var argv := [executable] + args;
    QuoteAllEach(argv);
    SplitJoined(argv, QuoteAll(argv).value);
    forall i | 0 <= i < |argv|
      ensures Unquote(QuoteAll(argv).value[i]) == argv[i]
    {
      UnquoteQuoted(argv[i]);
    }
  }

  /** Two accepted argument vectors with the same command line are the same vector. */
  lemma QuotingInjective(exe1: string, args1: seq<string>, exe2: string, args2: seq<string>)
    requires BuildCommandLine(exe1, args1).Ok? && BuildCommandLine(exe1, args1) == BuildCommandLine(exe2, args2)
    ensures exe1 == exe2 && args1 == args2
  {
    QuotingRoundTrip(exe1, args1);
    QuotingRoundTrip(exe2, args2);
    assert ([exe1] + args1)[1..] == args1;
    assert ([exe2] + args2)[1..] == args2;
  }

  predicate Acceptable(arg: string) {
    !HasNewline(arg) && !HasMetacharacter(arg)
  }

  lemma {:induction false} QuoteAllAccepts(argv: seq<string>)
    ensures QuoteAll(argv).Ok? <==> forall i :: 0 <= i < |argv| ==> Acceptable(argv[i])
  {
    if argv != [] {
      QuoteAllAccepts(argv[1..]);
      assert argv == [argv[0]] + argv[1..];
    }
  }

  /** None of these characters. */
  predicate Without(s: string, forbidden: string) {
    forall i :: 0 <= i < |s| ==> s[i] !in forbidden
  }

  lemma AcceptableIs(arg: string)
    ensures Acceptable(arg) <==> Without(arg, "\r\n|&<>^%")
  {
    if Acceptable(arg) {
      forall i | 0 <= i < |arg|
        ensures arg[i] !in "\r\n|&<>^%"
      {
        assert arg[i] in arg;
      }
    }
  }

  lemma ValidIs(executable: string)
    ensures ValidExecutable(executable) <==>
      Without(executable, "|&;<>()$`\"'\r\n") && forall i :: 0 <= i ==> !OccursAt(executable, "..", i)
  {
    FindFirst(executable, "..");
  }

  /** Exactly which argument vectors are accepted: an executable that is not blank, has none of the characters that mean
      something to the shell and no `..`, and arguments without line breaks and shell characters. */
  lemma BuildAcceptsExactly(executable: string, args: seq<string>)
    ensures BuildCommandLine(executable, args).Ok? <==>
      && Trim(executable) != "" && Without(executable, "|&;<>()$`\"'\r\n^%")
      && (forall i :: 0 <= i ==> !OccursAt(executable, "..", i))
      && forall k :: 0 <= k < |args| ==> Without(args[k], "\r\n|&<>^%")
  {
    BuildAccepts(executable, args);
    AcceptableIs(executable);
    ValidIs(executable);
    forall k | 0 <= k < |args|
      ensures Acceptable(args[k]) <==> Without(args[k], "\r\n|&<>^%")
    {
      AcceptableIs(args[k]);
    }
    hide BuildCommandLine, Acceptable, ValidExecutable, Trim;
  }

  lemma BuildAccepts(executable: string, args: seq<string>)
    ensures BuildCommandLine(executable, args).Ok?
       <==> Trim(executable) != "" && ValidExecutable(executable)
            && Acceptable(executable) && forall i :: 0 <= i < |args| ==> Acceptable(args[i])
  {
    var argv := [executable] + args;
    QuoteAllAccepts(argv);
    assert argv[1..] == args;
    if QuoteAll(argv).Ok? {
      forall i | 0 <= i < |args| ensures Acceptable(args[i]) { assert args[i] == argv[i + 1]; }
    }
  }

  /** An argument is quoted only where it has to be: empty, or with white space or a quote in it. */
  lemma QuotedExactly(arg: string)
    requires QuoteArgument(arg).Ok?
    ensures var piece := QuoteArgument(arg).value;
      if arg == "" || exists k :: 0 <= k < |arg| && (IsWhitespace(arg[k]) || arg[k] == '"')
      then |piece| >= 2 && piece[0] == '"' && piece[|piece| - 1] == '"'
      else piece == arg
  {
    if k :| 0 <= k < |arg| && (IsWhitespace(arg[k]) || arg[k] == '"') {
      assert arg[k] in arg;
    }
  }
}
