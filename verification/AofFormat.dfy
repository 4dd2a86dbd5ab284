/**
  The append only file as text (project/network/redis/redis-3.2/src/aof.c): what
  catAppendOnlyGenericCommand writes and what loadAppendOnlyFile makes of it, whole or
  cut off at any byte.  MULTI and EXEC are not given their meaning here.
*/
module AofFormat {
  import opened CInt
  import opened Decimal

  type Command = seq<string>

  const LINE: nat := 128   // the size of the loader's line buffer

  // --- encoding ------------------------------------------------------------------------

  function Head(mark: char, n: nat): string {
    [mark] + Show(n) + "\r\n"
  }

  function Bulk(a: string): string {
    Head('$', |a|) + a + "\r\n"
  }

  function Bulks(args: seq<string>): string {
    if args == [] then "" else Bulk(args[0]) + Bulks(args[1..])
  }

  function Encode(c: Command): string {
    Head('*', |c|) + Bulks(c)
  }

  function EncodeAll(cs: seq<Command>): string {
    if cs == [] then "" else Encode(cs[0]) + EncodeAll(cs[1..])
  }

  /** A command the server can hold: argc is an int, and lengths fit a long. */
  predicate Writable(c: Command) {
    0 < |c| <= INT_MAX && forall i :: 0 <= i < |c| ==> |c[i]| <= LONG_MAX
  }

  lemma Shift<T>(done: seq<T>, s: seq<T>)
    ensures s != [] ==> done + [s[0]] + s[1..] == done + s
    ensures s == [] ==> done + s == done
    ensures done == [] ==> done + s == s
  {
  }

  /** Cutting a concatenation, in the first or in the second part. */
  lemma Cut(a: string, b: string, p: nat)
    requires p <= |a + b|
    ensures p <= |a| ==> (a + b)[..p] == a[..p]
    ensures p >= |a| ==> (a + b)[..p] == a + b[..p - |a|]
  {
  }

  lemma BulksFrom(argv: Command, j: nat)
    requires j < |argv|
    ensures Bulks(argv[j..]) == Bulk(argv[j]) + Bulks(argv[j + 1..])
  {
    assert argv[j..][1..] == argv[j + 1..];
  }

  // The mark, the number and the end of line, as they are put together in a buffer
  method CatHead(dst: string, mark: char, n: nat) returns (r: string)
    ensures r == dst + Head(mark, n)
  {
    var buf := [mark] + Show(n);
    buf := buf + ['\r'];
    buf := buf + ['\n'];
    r := dst + buf;
    assert buf == Head(mark, n);
  }

  /** catAppendOnlyGenericCommand */
  method CatCommand(dst: string, argv: Command) returns (r: string)
    ensures r == dst + Encode(argv)
  {
    r := CatHead(dst, '*', |argv|);
    var j := 0;
    Regroup(dst, Head('*', |argv|), Bulks(argv));
    assert argv[0..] == argv;
    while j < |argv|
      invariant j <= |argv|
      invariant r + Bulks(argv[j..]) == dst + Encode(argv)
    {
      r := CatBulk(r, argv[j], Bulks(argv[j + 1..]));
      BulksFrom(argv, j);
      j := j + 1;
    }
    assert argv[j..] == [];
  }

  method CatBulk(dst: string, a: string, ghost more: string) returns (r: string)
    ensures r == dst + Bulk(a) && r + more == dst + (Bulk(a) + more)
  {
    r := CatHead(dst, '$', |a|);
    r := r + a;
    r := r + "\r\n";
    Regroup(dst, Head('$', |a|), a);
    Regroup(dst, Head('$', |a|) + a, "\r\n");
    Regroup(dst, Bulk(a), more);
  }

  // --- reading -------------------------------------------------------------------------

  /** How much fgets takes when it may take at most `max` characters. */
  function LineLength(rest: string, max: nat): (k: nat)
    ensures k <= |rest| && k <= max && (rest != [] && max > 0 ==> k > 0)
  {
    if rest == [] || max == 0 then 0
    else if rest[0] == '\n' then 1
    else 1 + LineLength(rest[1..], max - 1)
  }

  /** A line as fgets fills the buffer with it; empty for NULL. */
  function Line(rest: string): string {
    rest[..LineLength(rest, LINE - 1)]
  }

  function AfterLine(rest: string): string {
    rest[LineLength(rest, LINE - 1)..]
  }

  /** feof after that line: fgets came to the end while looking for more. */
  predicate AtEnd(rest: string) {
    AfterLine(rest) == "" && |Line(rest)| < LINE - 1 && '\n' !in Line(rest)
  }

  /** Either something was read, or reading ended: at the end of the file, badly, or for lack of memory. */
  datatype Reading<T> = Got(value: T, rest: string) | Short | ReadError | BadFormat | NoMemory

  function Fail<T, U>(r: Reading<T>): Reading<U>
    requires !r.Got?
  {
    match r
    case Short => Short
    case ReadError => ReadError
    case BadFormat => BadFormat
    case NoMemory => NoMemory
  }

  // Lines 686-708
  function ReadArg(rest: string): (r: Reading<string>)
    ensures r.Got? ==> |r.rest| < |rest|
  {
    if rest == [] then Short
    else if Line(rest)[0] != '$' then BadFormat
    else
      var len := Strtol(Line(rest)[1..]);
      var body := AfterLine(rest);
      if len < 0 then NoMemory
      else if len > 0 && |body| < len then Short
      else if |body| - len < 2 then Short
      else Got(body[..len], body[len + 2..])
  }

  /** `argc` more arguments after those in argv */
  function ReadArgs(argv: seq<string>, rest: string, argc: nat): (r: Reading<seq<string>>)
    ensures r.Got? ==> |r.rest| <= |rest| && |r.value| == |argv| + argc
    decreases argc
  {
    if argc == 0 then Got(argv, rest)
    else
      var a := ReadArg(rest);
      if a.Got? then ReadArgs(argv + [a.value], a.rest, argc - 1) else Fail(a)
  }

  // Lines 667-710, when the file has not come to its end
  function ReadCommand(rest: string): (r: Reading<Command>)
    ensures r.Got? ==> |r.rest| < |rest| && |r.value| > 0
  {
    var line := Line(rest);
    if line == [] || line[0] != '*' then BadFormat
    else if |line| == 1 || line[1] == '\0' then (if AtEnd(rest) then Short else ReadError)
    else
      var argc := Atoi(line[1..]);
      if argc < 1 then BadFormat else ReadArgs([], AfterLine(rest), argc)
  }

  /** How loading ends; `validUpTo` is where the file is cut. */
  datatype Outcome =
    | Loaded
    | Empty
    | Truncated(validUpTo: nat)
    | UnexpectedEnd
    | Unreadable
    | Malformed
    | Exhausted
    | UnknownCommand

  function OutcomeOf(r: Reading<Command>, at: nat, loadTruncated: bool): Outcome
    requires !r.Got?
  {
    match r
    case Short => if loadTruncated then Truncated(at) else UnexpectedEnd
    case ReadError => Unreadable
    case BadFormat => Malformed
    case NoMemory => Exhausted
  }

  /** What has been executed when loading ends. */
  datatype Load = Load(executed: seq<Command>, outcome: Outcome)

  // `rest` is the part of a file of this size that is still to be read
  function LoadFrom(executed: seq<Command>, rest: string, size: nat, known: string -> bool, loadTruncated: bool): Load
    requires |rest| <= size
    decreases |rest|
  {
    if rest == [] then Load(executed, Loaded)
    else
      var r := ReadCommand(rest);
      if !r.Got? then Load(executed, OutcomeOf(r, size - |rest|, loadTruncated))
      else if !known(r.value[0]) then Load(executed, UnknownCommand)
      else LoadFrom(executed + [r.value], r.rest, size, known, loadTruncated)
  }

  function LoadFile(file: string, known: string -> bool, loadTruncated: bool): Load {
    if file == [] then Load([], Empty) else LoadFrom([], file, |file|, known, loadTruncated)
  }

  // --- the loader's loops ----------------------------------------------------------------

  // One turn of the loop at line 685; `rest` is what the stream still holds
  method LoadArgument(rest: string) returns (r: Reading<string>)
    ensures r == ReadArg(rest)
  {
    if rest == [] {
      return Short;
    }
    var buf := Line(rest);
    if buf[0] != '$' {
      return BadFormat;
    }
    var len := Strtol(buf[1..]);
    if len < 0 {
      return NoMemory;
    }
    var body := AfterLine(rest);
    if len != 0 && |body| < len {
      return Short;
    }
    if |body[len..]| < 2 {
      return Short;
    }
    return Got(body[..len], body[len + 2..]);
  }

  method LoadArguments(stream: string, argc: nat) returns (r: Reading<seq<string>>)
    ensures r == ReadArgs([], stream, argc)
  {
    var rest, argv := stream, [];
    var j := 0;
    while j < argc
      invariant j <= argc
      invariant ReadArgs([], stream, argc) == ReadArgs(argv, rest, argc - j)
    {
      var a := LoadArgument(rest);
      if !a.Got? {
        return Fail(a);
      }
      argv := argv + [a.value];
      rest := a.rest;
      j := j + 1;
    }
    return Got(argv, rest);
  }

  // Lines 667-710
  method LoadCommand(rest: string) returns (r: Reading<Command>)
    requires rest != []
    ensures r == ReadCommand(rest)
  {
    var buf := Line(rest);
    if buf[0] != '*' {
      return BadFormat;
    }
    if |buf| == 1 || buf[1] == '\0' {
      return if AtEnd(rest) then Short else ReadError;
    }
    var argc := Atoi(buf[1..]);
    if argc < 1 {
      return BadFormat;
    }
    r := LoadArguments(AfterLine(rest), argc);
  }

  lemma LoadTurn(
    executed: seq<Command>, rest: string, size: nat, known: string -> bool, loadTruncated: bool, r: Reading<Command>)
    requires rest != [] && |rest| <= size && r == ReadCommand(rest)
    ensures LoadFrom(executed, rest, size, known, loadTruncated) ==
      if !r.Got? then Load(executed, OutcomeOf(r, size - |rest|, loadTruncated))
      else if !known(r.value[0]) then Load(executed, UnknownCommand)
      else LoadFrom(executed + [r.value], r.rest, size, known, loadTruncated)
  {
  }

  lemma AtMostTruncated(r: Reading<Command>, a: nat, b: nat, loadTruncated: bool)
    requires !r.Got? && (loadTruncated ==> a == b)
    ensures OutcomeOf(r, a, loadTruncated) == OutcomeOf(r, b, loadTruncated)
  {
  }

  /** loadAppendOnlyFile, with the commands it executes */
  method LoadAppendOnlyFile(file: string, known: string -> bool, loadTruncated: bool)
    returns (executed: seq<Command>, outcome: Outcome)
    ensures Load(executed, outcome) == LoadFile(file, known, loadTruncated)
  {
    executed := [];
    if |file| == 0 {
      return [], Empty;
    }
    var size, rest, validUpTo: nat := |file|, file, 0;
    ghost var goal := LoadFrom([], file, size, known, loadTruncated);
    while rest != []
      invariant |rest| <= size && (loadTruncated ==> validUpTo == size - |rest|)
      invariant goal == LoadFrom(executed, rest, size, known, loadTruncated)
      decreases |rest|
    {
      var r := LoadCommand(rest);
      LoadTurn(executed, rest, size, known, loadTruncated, r);
      if !r.Got? {
        AtMostTruncated(r, validUpTo, size - |rest|, loadTruncated);
        return executed, OutcomeOf(r, validUpTo, loadTruncated);
      }
      if !known(r.value[0]) {
        return executed, UnknownCommand;
      }
      executed := executed + [r.value];
      rest := r.rest;
      if loadTruncated {
        validUpTo := size - |rest|;
      }
    }
    return executed, Loaded;
  }

  // --- the round trip ---------------------------------------------------------------------

  lemma {:induction false} WholeLine(head: string, rest: string, max: nat)
    requires 0 < |head| <= max && head[|head| - 1] == '\n' && '\n' !in head[..|head| - 1]
    ensures LineLength(head + rest, max) == |head|
  {
    if |head| > 1 {
      assert head[0] in head[..|head| - 1];
      assert (head + rest)[1..] == head[1..] + rest;
      assert head[1..][..|head| - 2] == head[..|head| - 1][1..];
      WholeLine(head[1..], rest, max - 1);
    }
  }

  lemma {:induction false} CutLine(line: string, max: nat)
    requires |line| < max && '\n' !in line
    ensures LineLength(line, max) == |line|
  {
    if line != [] {
      CutLine(line[1..], max - 1);
    }
  }

  lemma ShowIsShort(n: nat)
    requires n <= LONG_MAX
    ensures |Show(n)| <= 20
  {
    assert Power(5) == 100_000;
    assert Power(10) == 10_000_000_000;
    assert Power(15) == 1_000_000_000_000_000;
    assert Power(20) == 100_000_000_000_000_000_000;
    ShowLength(n, LONG_MAX + 1, 20);
  }

  lemma HeadIsShort(mark: char, n: nat)
    requires n <= LONG_MAX && mark != '\n'
    ensures |Head(mark, n)| < LINE - 1 && |Head(mark, n)| == |Show(n)| + 3
    ensures Head(mark, n)[|Head(mark, n)| - 1] == '\n' && '\n' !in Head(mark, n)[..|Head(mark, n)| - 1]
  {
    ShowIsShort(n);
    assert Head(mark, n)[..|Head(mark, n)| - 1] == [mark] + Show(n) + "\r";
  }

  lemma ReadHead(mark: char, n: nat, rest: string)
    requires n <= LONG_MAX && mark != '\n'
    ensures Line(Head(mark, n) + rest) == Head(mark, n) && AfterLine(Head(mark, n) + rest) == rest
    ensures Read(Head(mark, n)[1..]) == n && Head(mark, n)[1] != '\0'
  {
    HeadIsShort(mark, n);
    WholeLine(Head(mark, n), rest, LINE - 1);
    assert Head(mark, n)[1..] == Show(n) + "\r\n";
    ReadShow(n, "\r\n");
  }

  /** A head that is cut off: all of it is one line, at the end of the file. */
  lemma ReadCutHead(mark: char, n: nat, p: nat)
    requires n <= LONG_MAX && mark != '\n' && 0 < p < |Head(mark, n)|
    ensures var s := Head(mark, n)[..p];
      && Line(s) == s && AfterLine(s) == "" && AtEnd(s) && s[0] == mark
      && 0 <= Read(s[1..]) <= n
      && (p > 1 ==> s[1] != '\0' && (n > 0 ==> Read(s[1..]) > 0))
  {
    var s := Head(mark, n)[..p];
    HeadIsShort(mark, n);
    assert s == Head(mark, n)[..|Head(mark, n)| - 1][..p];
    CutLine(s, LINE - 1);
    CutParts(mark, Show(n), p);
    if p > 1 {
      ReadCutNumber(n, p - 1, s[1..]);
    }
  }

  lemma CutParts(mark: char, digits: string, p: nat)
    requires 0 < p < |digits| + 3
    ensures var s := ([mark] + digits + "\r\n")[..p];
      && s[0] == mark && |s| == p
      && (p <= |digits| + 1 ==> s[1..] == digits[..p - 1])
      && (p == |digits| + 2 ==> s[1..] == digits + "\r")
  {
  }

  lemma ReadCutNumber(n: nat, k: nat, t: string)
    requires 0 < k <= |Show(n)| + 1
    requires if k <= |Show(n)| then t == Show(n)[..k] else t == Show(n) + "\r"
    ensures 0 <= Read(t) <= n && t[0] != '\0' && (n > 0 ==> Read(t) > 0)
  {
    if k > |Show(n)| {
      ReadShow(n, "\r");
    } else if n > 0 {
      ReadPrefix(n, k);
    } else {
      ReadShow(0, "");
      assert t == Show(0) + "";
    }
  }

  /** The two bytes after an argument are skipped, whatever they are. */
  lemma EndIsSkipped(a: string, end: string, rest: string)
    requires |a| <= LONG_MAX && |end| == 2
    ensures ReadArg(Head('$', |a|) + (a + end + rest)) == Got(a, rest)
  {
    var body := a + end + rest;
    ReadHead('$', |a|, body);
    assert body[..|a|] == a && body[|a| + 2..] == rest;
  }

  lemma ReadBulk(a: string, rest: string)
    requires |a| <= LONG_MAX
    ensures ReadArg(Bulk(a) + rest) == Got(a, rest)
  {
    var body := a + "\r\n" + rest;
    assert Bulk(a) + rest == Head('$', |a|) + body;
    EndIsSkipped(a, "\r\n", rest);
  }

  lemma ReadCutBulk(a: string, p: nat)
    requires |a| <= LONG_MAX && p < |Bulk(a)|
    ensures ReadArg(Bulk(a)[..p]) == Short
  {
    var h := |Head('$', |a|)|;
    if p >= h {
      var body := (a + "\r\n")[..p - h];
      assert Bulk(a) == Head('$', |a|) + (a + "\r\n");
      assert Bulk(a)[..p] == Head('$', |a|) + body;
      ReadHead('$', |a|, body);
    } else if p > 0 {
      assert Bulk(a)[..p] == Head('$', |a|)[..p];
      ReadCutHead('$', |a|, p);
    }
  }

  lemma {:induction false} ReadBulks(argv: seq<string>, args: seq<string>, rest: string)
    requires forall i :: 0 <= i < |args| ==> |args[i]| <= LONG_MAX
    ensures ReadArgs(argv, Bulks(args) + rest, |args|) == Got(argv + args, rest)
    decreases |args|
  {
    Shift(argv, args);
    if args == [] {
      Shift("", rest);
    } else {
      var more := Bulks(args[1..]) + rest;
      Regroup(Bulk(args[0]), Bulks(args[1..]), rest);
      ReadBulk(args[0], more);
      ReadBulks(argv + [args[0]], args[1..], rest);
    }
  }

  lemma ArgsNext(argv: seq<string>, rest: string, argc: nat, a: string, rest': string)
    requires argc > 0 && ReadArg(rest) == Got(a, rest')
    ensures ReadArgs(argv, rest, argc) == ReadArgs(argv + [a], rest', argc - 1)
  {
  }

  lemma ArgsEnd(argv: seq<string>, rest: string, argc: nat)
    requires argc > 0 && ReadArg(rest) == Short
    ensures ReadArgs(argv, rest, argc) == Short
  {
  }

  lemma CutBulks(args: seq<string>, p: nat)
    requires args != [] && p <= |Bulks(args)|
    ensures p <= |Bulk(args[0])| ==> Bulks(args)[..p] == Bulk(args[0])[..p]
    ensures p >= |Bulk(args[0])| ==> p - |Bulk(args[0])| <= |Bulks(args[1..])|
    ensures p >= |Bulk(args[0])| ==> Bulks(args)[..p] == Bulk(args[0]) + Bulks(args[1..])[..p - |Bulk(args[0])|]
  {
    Cut(Bulk(args[0]), Bulks(args[1..]), p);
  }

  lemma {:induction false} ReadCutBulks(argv: seq<string>, args: seq<string>, p: nat, s: string, argc: nat)
    requires argc == |args| && forall i :: 0 <= i < |args| ==> |args[i]| <= LONG_MAX
    requires p < |Bulks(args)| && s == Bulks(args)[..p]
    ensures ReadArgs(argv, s, argc) == Short
    decreases argc
  {
    CutBulks(args, p);
    var b := |Bulk(args[0])|;
    if p < b {
      ReadCutBulk(args[0], p);
      ArgsEnd(argv, s, argc);
    } else {
      var more := Bulks(args[1..])[..p - b];
      ReadBulk(args[0], more);
      ReadCutBulks(argv + [args[0]], args[1..], p - b, more, argc - 1);
      ArgsNext(argv, s, argc, args[0], more);
    }
  }

  /** A whole command is read back as it was. */
  lemma ReadEncoded(c: Command, rest: string)
    requires Writable(c)
    ensures ReadCommand(Encode(c) + rest) == Got(c, rest)
  {
    Regroup(Head('*', |c|), Bulks(c), rest);
    ReadHead('*', |c|, Bulks(c) + rest);
    ReadBulks([], c, rest);
    Shift([], c);
  }

  /** A command that is cut off is never taken for another one, nor for a format error. */
  lemma ReadCutCommand(c: Command, p: nat)
    requires Writable(c) && 0 < p < |Encode(c)|
    ensures ReadCommand(Encode(c)[..p]) == Short
  {
    var h := |Head('*', |c|)|;
    Cut(Head('*', |c|), Bulks(c), p);
    if p >= h {
      ReadHead('*', |c|, Bulks(c)[..p - h]);
      ReadCutBulks([], c, p - h, Bulks(c)[..p - h], |c|);
    } else {
      ReadCutHead('*', |c|, p);
    }
  }

  ghost predicate Loadable(cs: seq<Command>, known: string -> bool) {
    forall i :: 0 <= i < |cs| ==> Writable(cs[i]) && known(cs[i][0])
  }

  /** How many commands lie wholly within the first p bytes. */
  function Whole(cs: seq<Command>, p: nat): (n: nat)
    ensures n <= |cs|
  {
    if cs == [] || p < |Encode(cs[0])| then 0 else 1 + Whole(cs[1..], p - |Encode(cs[0])|)
  }

  /** ... which is what it says. */
  lemma {:induction false} WholeMeans(cs: seq<Command>, p: nat)
    ensures |EncodeAll(cs[..Whole(cs, p)])| <= p
    ensures Whole(cs, p) < |cs| ==> p < |EncodeAll(cs[..Whole(cs, p) + 1])|
  {
    if cs != [] && p >= |Encode(cs[0])| {
      var n := Whole(cs[1..], p - |Encode(cs[0])|);
      WholeMeans(cs[1..], p - |Encode(cs[0])|);
      assert cs[..n + 1][1..] == cs[1..][..n];
      assert n + 1 < |cs| ==> cs[..n + 2][1..] == cs[1..][..n + 1];
    } else if cs != [] {
      assert cs[..1][1..] == [];
    }
  }

  /** What loading should come to when p bytes of the log of cs are left to read. */
  function Expected(done: seq<Command>, cs: seq<Command>, p: nat, size: nat, loadTruncated: bool): Load
    requires p <= size
  {
    WholeMeans(cs, p);
    var n := Whole(cs, p);
    var end := |EncodeAll(cs[..n])|;
    Load(done + cs[..n],
         if p == end then Loaded else if loadTruncated then Truncated(size - (p - end)) else UnexpectedEnd)
  }

  lemma ExpectedNext(done: seq<Command>, cs: seq<Command>, p: nat, p': nat, size: nat, loadTruncated: bool)
    requires p <= size && cs != [] && p == |Encode(cs[0])| + p'
    ensures Expected(done, cs, p, size, loadTruncated) == Expected(done + [cs[0]], cs[1..], p', size, loadTruncated)
  {
    var n := Whole(cs[1..], p');
    assert cs[..n + 1][1..] == cs[1..][..n];
    assert done + cs[..n + 1] == done + [cs[0]] + cs[1..][..n];
  }

  lemma LoadNext(done: seq<Command>, c: Command, rest: string, text: string, size: nat, known: string -> bool,
                 loadTruncated: bool)
    requires Writable(c) && known(c[0]) && text == Encode(c) + rest && |text| <= size
    ensures LoadFrom(done, text, size, known, loadTruncated) ==
            LoadFrom(done + [c], rest, size, known, loadTruncated)
  {
    ReadEncoded(c, rest);
  }

  lemma LoadLast(
    done: seq<Command>, cs: seq<Command>, text: string, p: nat, size: nat, known: string -> bool, loadTruncated: bool)
    requires cs != [] && Writable(cs[0]) && 0 < p < |Encode(cs[0])| && p <= size
    requires p <= |EncodeAll(cs)| && text == EncodeAll(cs)[..p]
    ensures LoadFrom(done, text, size, known, loadTruncated) == Expected(done, cs, p, size, loadTruncated)
  {
    CutEncoded(cs, Encode(cs[0]), p);
    ReadCutCommand(cs[0], p);
    assert Whole(cs, p) == 0 && done + cs[..0] == done;
  }

  lemma CutEncoded(cs: seq<Command>, e: string, p: nat)
    requires cs != [] && e == Encode(cs[0]) && p <= |EncodeAll(cs)|
    ensures p < |e| ==> EncodeAll(cs)[..p] == e[..p]
    ensures p >= |e| ==> p - |e| <= |EncodeAll(cs[1..])| && EncodeAll(cs)[..p] == e + EncodeAll(cs[1..])[..p - |e|]
  {
    Cut(e, EncodeAll(cs[1..]), p);
  }

  lemma {:induction false} LoadCut(
    done: seq<Command>, cs: seq<Command>, text: string, p: nat, size: nat, known: string -> bool, loadTruncated: bool)
    requires Loadable(cs, known) && p <= |EncodeAll(cs)| && p <= size && text == EncodeAll(cs)[..p]
    ensures LoadFrom(done, text, size, known, loadTruncated) == Expected(done, cs, p, size, loadTruncated)
    decreases |cs|
  {
    if p == 0 {
      LoadNothing(done, cs, size, known, loadTruncated);
    } else if p < |Encode(cs[0])| {
      LoadLast(done, cs, text, p, size, known, loadTruncated);
    } else {
      var p' := p - |Encode(cs[0])|;
      CutEncoded(cs, Encode(cs[0]), p);
      var rest := EncodeAll(cs[1..])[..p'];
      LoadCut(done + [cs[0]], cs[1..], rest, p', size, known, loadTruncated);
      LoadNext(done, cs[0], rest, text, size, known, loadTruncated);
      ExpectedNext(done, cs, p, p', size, loadTruncated);
    }
  }

  lemma LoadNothing(done: seq<Command>, cs: seq<Command>, size: nat, known: string -> bool, loadTruncated: bool)
    ensures LoadFrom(done, EncodeAll(cs)[..0], size, known, loadTruncated) == Expected(done, cs, 0, size, loadTruncated)
  {
    assert Whole(cs, 0) == 0 && done + cs[..0] == done;
  }

  /** Loading the log of any commands executes exactly these. */
  lemma LoadEncoded(cs: seq<Command>, known: string -> bool, loadTruncated: bool)
    requires Loadable(cs, known) && cs != []
    ensures LoadFile(EncodeAll(cs), known, loadTruncated) == Load(cs, Loaded)
  {
    var log := EncodeAll(cs);
    Cut(log, "", |log|);
    LoadCut([], cs, log, |log|, |log|, known, loadTruncated);
    Shift("", log);
    AllWhole(cs);
  }

  lemma AllWhole(cs: seq<Command>)
    ensures var p := |EncodeAll(cs)|;
      Whole(cs, p) == |cs| && cs[..|cs|] == cs && forall t :: Expected([], cs, p, p, t) == Load(cs, Loaded)
  {
    var p := |EncodeAll(cs)|;
    WholeMeans(cs, p);
    EncodePrefix(cs, Whole(cs, p));
    Shift([], cs);
  }

  lemma {:induction false} EncodePrefix(cs: seq<Command>, n: nat)
    requires n <= |cs|
    ensures |EncodeAll(cs[..n])| <= |EncodeAll(cs)|
    ensures n < |cs| ==> |EncodeAll(cs[..n + 1])| <= |EncodeAll(cs)|
    ensures n == |cs| ==> cs[..n] == cs
  {
    if n > 0 {
      assert cs[..n][1..] == cs[1..][..n - 1];
      EncodePrefix(cs[1..], n - 1);
      assert n < |cs| ==> cs[..n + 1][1..] == cs[1..][..n];
    } else if cs != [] {
      assert cs[..1][1..] == [];
    }
  }

  /**
    Loading the log cut off at any byte executes exactly the commands that are wholly within, never
    reports a format error, and finds the end of the last of them.
  */
  lemma LoadTruncatedLog(cs: seq<Command>, p: nat, known: string -> bool)
    requires Loadable(cs, known) && 0 < p <= |EncodeAll(cs)|
    ensures var n := Whole(cs, p);
      LoadFile(EncodeAll(cs)[..p], known, true) ==
      Load(cs[..n], if p == |EncodeAll(cs[..n])| then Loaded else Truncated(|EncodeAll(cs[..n])|))
  {
    LoadCut([], cs, EncodeAll(cs)[..p], p, p, known, true);
  }

  /** What remains after the cut is the log of the commands executed, so that loading it again changes nothing. */
  lemma CutLogIsLog(cs: seq<Command>, p: nat)
    requires p <= |EncodeAll(cs)|
    ensures var n := Whole(cs, p);
      |EncodeAll(cs[..n])| <= p && EncodeAll(cs)[..p][..|EncodeAll(cs[..n])|] == EncodeAll(cs[..n])
  {
    var n := Whole(cs, p);
    WholeMeans(cs, p);
    EncodeSplit(cs, n);
  }

  lemma {:induction false} EncodeSplit(cs: seq<Command>, n: nat)
    requires n <= |cs|
    ensures EncodeAll(cs) == EncodeAll(cs[..n]) + EncodeAll(cs[n..])
  {
    if n == 0 {
      assert cs[..0] == [] && cs[0..] == cs;
    } else {
      EncodeSplit(cs[1..], n - 1);
      assert cs[..n][1..] == cs[1..][..n - 1] && cs[1..][n - 1..] == cs[n..];
      Regroup(Encode(cs[0]), EncodeAll(cs[1..][..n - 1]), EncodeAll(cs[n..]));
    }
  }

  // --- files that are not logs --------------------------------------------------------------------

  /** After a log comes whatever comes after it. */
  lemma {:induction false} LoadPast(
    done: seq<Command>, cs: seq<Command>, rest: string, size: nat, known: string -> bool, loadTruncated: bool)
    requires Loadable(cs, known) && |EncodeAll(cs) + rest| <= size
    ensures LoadFrom(done, EncodeAll(cs) + rest, size, known, loadTruncated) ==
            LoadFrom(done + cs, rest, size, known, loadTruncated)
    decreases |cs|
  {
    Shift(done, cs);
    if cs == [] {
      Shift("", rest);
    } else {
      var more := EncodeAll(cs[1..]) + rest;
      Regroup(Encode(cs[0]), EncodeAll(cs[1..]), rest);
      LoadNext(done, cs[0], more, EncodeAll(cs) + rest, size, known, loadTruncated);
      LoadPast(done + [cs[0]], cs[1..], rest, size, known, loadTruncated);
      assert done + [cs[0]] + cs[1..] == done + cs;
    }
  }

  /** What loading comes to when a log is followed by something that cannot be read as a command */
  lemma LoadStops(cs: seq<Command>, rest: string, known: string -> bool, loadTruncated: bool)
    requires Loadable(cs, known) && rest != [] && !ReadCommand(rest).Got?
    ensures LoadFile(EncodeAll(cs) + rest, known, loadTruncated) ==
            Load(cs, OutcomeOf(ReadCommand(rest), |EncodeAll(cs)|, loadTruncated))
  {
    var file := EncodeAll(cs) + rest;
    LoadPast([], cs, rest, |file|, known, loadTruncated);
    assert [] + cs == cs;
  }

  /** A line that does not begin a command is a format error, never a truncated log. */
  lemma GarbageIsMalformed(cs: seq<Command>, rest: string, known: string -> bool, loadTruncated: bool)
    requires Loadable(cs, known) && rest != [] && rest[0] != '*'
    ensures LoadFile(EncodeAll(cs) + rest, known, loadTruncated) == Load(cs, Malformed)
  {
    LoadStops(cs, rest, known, loadTruncated);
  }

  /** So is a command without arguments, */
  lemma NoArgumentsIsMalformed(cs: seq<Command>, rest: string, known: string -> bool, loadTruncated: bool)
    requires Loadable(cs, known)
    ensures LoadFile(EncodeAll(cs) + (Head('*', 0) + rest), known, loadTruncated) == Load(cs, Malformed)
  {
    ReadHead('*', 0, rest);
    LoadStops(cs, Head('*', 0) + rest, known, loadTruncated);
  }

  /** and an argument that does not begin with its length. */
  lemma BadArgumentIsMalformed(
    cs: seq<Command>, argc: nat, args: seq<string>, rest: string, known: string -> bool, loadTruncated: bool)
    requires Loadable(cs, known) && |args| < argc <= INT_MAX && rest != [] && rest[0] != '$'
    requires FitLong(args)
    ensures LoadFile(EncodeAll(cs) + (Head('*', argc) + (Bulks(args) + rest)), known, loadTruncated) ==
            Load(cs, Malformed)
  {
    var text := Bulks(args) + rest;
    ReadHead('*', argc, text);
    ReadSome([], args, rest, text, argc, Fail(ReadArg(rest)));
    LoadStops(cs, Head('*', argc) + text, known, loadTruncated);
  }

  /** A negative length cannot be allocated. */
  lemma NegativeLengthIsExhausted(
    cs: seq<Command>, argc: nat, args: seq<string>, rest: string, known: string -> bool, loadTruncated: bool)
    requires Loadable(cs, known) && |args| < argc <= INT_MAX && rest != [] && rest[0] == '$'
    requires Strtol(Line(rest)[1..]) < 0 && FitLong(args)
    ensures LoadFile(EncodeAll(cs) + (Head('*', argc) + (Bulks(args) + rest)), known, loadTruncated) ==
            Load(cs, Exhausted)
  {
    var text := Bulks(args) + rest;
    ReadHead('*', argc, text);
    ReadSome([], args, rest, text, argc, Fail(ReadArg(rest)));
    LoadStops(cs, Head('*', argc) + text, known, loadTruncated);
  }

  predicate FitLong(args: seq<string>) {
    forall i :: 0 <= i < |args| ==> |args[i]| <= LONG_MAX
  }

  /** Arguments that are there are read before the next one is looked at. */
  lemma {:induction false} ReadSome(
    argv: seq<string>, args: seq<string>, rest: string, text: string, argc: nat, failed: Reading<seq<string>>)
    requires |args| < argc && FitLong(args) && text == Bulks(args) + rest && Failed(rest, failed)
    ensures ReadArgs(argv, text, argc) == failed
    decreases |args|, 1
  {
    if args == [] {
      assert text == rest;
    } else {
      FirstBulk(args, args[0], args[1..], rest, text, Bulks(args[1..]) + rest);
      ReadOne(argv, args[0], args[1..], rest, text, Bulks(args[1..]) + rest, argc, failed);
    }
  }

  ghost predicate Failed(rest: string, failed: Reading<seq<string>>) {
    !ReadArg(rest).Got? && failed == Fail(ReadArg(rest))
  }

  lemma FirstBulk(args: seq<string>, a: string, more: seq<string>, rest: string, text: string, text': string)
    requires FitLong(args) && args != [] && a == args[0] && more == args[1..]
    requires text == Bulks(args) + rest && text' == Bulks(more) + rest
    ensures FitLong(more) && |a| <= LONG_MAX && text == Bulk(a) + text'
  {
    Regroup(Bulk(a), Bulks(more), rest);
  }

  lemma {:induction false} ReadOne(
    argv: seq<string>, a: string, more: seq<string>, rest: string, text: string, text': string, argc: nat,
    failed: Reading<seq<string>>)
    requires FitLong(more) && |a| <= LONG_MAX && text == Bulk(a) + text' && text' == Bulks(more) + rest
    requires |more| + 1 < argc && Failed(rest, failed)
    ensures ReadArgs(argv, text, argc) == failed
    decreases |more| + 1, 0
  {
    ReadSome(argv + [a], more, rest, text', argc - 1, failed);
    ArgsAfter(argv, a, text, text', argc, failed);
  }

  lemma ArgsAfter(argv: seq<string>, a: string, text: string, text': string, argc: nat, failed: Reading<seq<string>>)
    requires argc > 0 && |a| <= LONG_MAX && text == Bulk(a) + text' && ReadArgs(argv + [a], text', argc - 1) == failed
    ensures ReadArgs(argv, text, argc) == failed
  {
    ReadBulk(a, text');
  }

  /** A NUL after the mark is an error in reading, except at the very end. */
  lemma NulIsUnreadable(cs: seq<Command>, rest: string, known: string -> bool, loadTruncated: bool)
    requires Loadable(cs, known) && |rest| >= 2 && rest[0] == '*' && rest[1] == '\0'
    ensures LoadFile(EncodeAll(cs) + rest, known, loadTruncated) ==
      Load(cs, if !AtEnd(rest) then Unreadable else if loadTruncated then Truncated(|EncodeAll(cs)|) else UnexpectedEnd)
  {
    assert LineLength(rest, LINE - 1) == 1 + LineLength(rest[1..], LINE - 2);
    assert Line(rest)[0] == rest[0] && |Line(rest)| > 1 && Line(rest)[1] == rest[1];
    LoadStops(cs, rest, known, loadTruncated);
  }

  /** A command that is not known ends the loading: it is not executed, and nothing after it is. */
  lemma UnknownStops(cs: seq<Command>, c: Command, rest: string, known: string -> bool, loadTruncated: bool)
    requires Loadable(cs, known) && Writable(c) && !known(c[0])
    ensures LoadFile(EncodeAll(cs) + (Encode(c) + rest), known, loadTruncated) == Load(cs, UnknownCommand)
  {
    var text := Encode(c) + rest;
    LoadPast([], cs, text, |EncodeAll(cs) + text|, known, loadTruncated);
    assert [] + cs == cs;
    ReadEncoded(c, rest);
  }

  /** fgets takes at most 127 characters of a line. */
  lemma {:induction false} LongLine(rest: string, max: nat)
    requires max <= |rest| && '\n' !in rest[..max]
    ensures LineLength(rest, max) == max && (max == 127 ==> Line(rest) == rest[..127])
  {
    if max > 0 {
      assert rest[0] in rest[..max] && rest[1..][..max - 1] == rest[..max][1..];
      LongLine(rest[1..], max - 1);
    }
  }
}
