/**
 The text of the append only file: how a command is written, and how the file is
 read back line by line at startup.
 */
module AofCodec {
  import opened Wrappers

  type Byte = x: int | 0 <= x < 256

  type Command = seq<seq<Byte>>

  const CR: Byte := 13
  const LF: Byte := 10
  const STAR: Byte := 42
  const DOLLAR: Byte := 36
  const MINUS: Byte := 45
  const PLUS: Byte := 43
  const ZERO: Byte := 48

  /** The size of the line buffer of the loader, less the terminator fgets adds. */
  const LINE_MAX := 127
  const INT_MAX := 2147483647
  const LONG_MAX := 9223372036854775807

  const Crlf: seq<Byte> := [CR, LF]

  // ----- writing -----

  /** ll2string, for the lengths written here. */
  function Decimal(n: nat): seq<Byte> {
    if n < 10 then [ZERO + n] else Decimal(n / 10) + [ZERO + n % 10]
  }

  function Header(kind: Byte, n: nat): seq<Byte> { [kind] + Decimal(n) + Crlf }

  function EncodeArg(arg: seq<Byte>): seq<Byte> { Header(DOLLAR, |arg|) + (arg + Crlf) }

  function EncodeArgs(args: Command): seq<Byte>
    decreases |args|
  {
    if args == [] then [] else EncodeArg(args[0]) + EncodeArgs(args[1..])
  }

  /** A command as catAppendOnlyGenericCommand writes it. */
  function Encode(cmd: Command): seq<Byte> { Header(STAR, |cmd|) + EncodeArgs(cmd) }

  function EncodeAll(cmds: seq<Command>): seq<Byte>
    decreases |cmds|
  {
    if cmds == [] then [] else Encode(cmds[0]) + EncodeAll(cmds[1..])
  }

  /** What the C types of the counters can hold; a command has a name. */
  predicate Fits(cmd: Command) {
    1 <= |cmd| <= INT_MAX && forall i :: 0 <= i < |cmd| ==> |cmd[i]| <= LONG_MAX
  }

  // ----- reading -----

  predicate IsDigit(b: Byte) { ZERO <= b < ZERO + 10 }

  predicate IsSpace(b: Byte) { b == 32 || 9 <= b <= 13 }

  function Digits(s: seq<Byte>, acc: nat): nat
    decreases |s|
  {
    if s == [] || !IsDigit(s[0]) then acc else Digits(s[1..], acc * 10 + (s[0] - ZERO))
  }

  /** atoi and strtol: blanks, a sign, digits. */
  function ToInt(s: seq<Byte>): int
    decreases |s|
  {
    if s == [] then 0
    else if IsSpace(s[0]) then ToInt(s[1..])
    else if s[0] == MINUS then 0 - Digits(s[1..], 0)
    else if s[0] == PLUS then Digits(s[1..], 0)
    else Digits(s, 0)
  }

  /** How many bytes fgets takes: through the newline, but no more than fit. */
  function LineLength(s: seq<Byte>, room: nat): (n: nat)
    ensures n <= |s| && n <= room && (s != [] && room > 0 ==> n > 0)
    decreases room
  {
    if s == [] || room == 0 then 0 else if s[0] == LF then 1 else 1 + LineLength(s[1..], room - 1)
  }

  function Line(s: seq<Byte>): seq<Byte> { s[..LineLength(s, LINE_MAX)] }

  function AfterLine(s: seq<Byte>): seq<Byte> { s[LineLength(s, LINE_MAX)..] }

  datatype Read<T> =
    | Got(value: T, rest: seq<Byte>)
    | Short      // the file ended too early
    | Bad        // not the format
    | TooLarge   // a length that cannot be allocated
    | Unreadable // taken for a read error, though the file has not ended

  /** One argument: its length line, its bytes, a line end that is skipped unread. */
  function ReadArg(s: seq<Byte>): Read<seq<Byte>> {
    if s == [] then Short
    else
      var line, rest := Line(s), AfterLine(s);
      if line[0] != DOLLAR then Bad
      else
        var len := ToInt(line[1..]);
        if len < 0 then TooLarge
        else if |rest| < len then Short
        else if |rest| < len + 2 then Short
        else Got(rest[..len], rest[len + 2..])
  }

  function ReadArgs(s: seq<Byte>, n: nat): Read<Command>
    decreases n
  {
    if n == 0 then Got([], s)
    else
      match ReadArg(s)
      case Got(arg, rest) =>
        (match ReadArgs(rest, n - 1)
         case Got(args, rest') => Got([arg] + args, rest')
         case Short => Short
         case Bad => Bad
         case TooLarge => TooLarge
         case Unreadable => Unreadable)
      case Short => Short
      case Bad => Bad
      case TooLarge => TooLarge
      case Unreadable => Unreadable
  }

  /** fgets met the end of the file: it stopped neither at a newline nor because the buffer was full. */
  predicate HitsEnd(line: seq<Byte>, rest: seq<Byte>) {
    rest == [] && |line| < LINE_MAX && (line == [] || line[|line| - 1] != LF)
  }

  /** One command of a file that is not at its end. */
  function ReadCommand(s: seq<Byte>): Read<Command>
    requires s != []
  {
    var line, rest := Line(s), AfterLine(s);
    if line[0] != STAR then Bad
    else if |line| == 1 || line[1] == 0 then (if HitsEnd(line, rest) then Short else Unreadable)
    else
      var argc := ToInt(line[1..]);
      if argc < 1 then Bad else ReadArgs(rest, argc)
  }

  /** How loading ends: the commands run, and the offset of the end of the last one. */
  datatype Load = Loaded(cmds: seq<Command>, validUpTo: nat) | EmptyFile | UnexpectedEnd | FormatError | OutOfMemory | ReadError

  lemma {:induction false} ArgShrinks(s: seq<Byte>)
    requires ReadArg(s).Got?
    ensures |ReadArg(s).rest| < |s|
  {
  }

  lemma {:induction false} ArgsShrink(s: seq<Byte>, n: nat)
    requires ReadArgs(s, n).Got?
    ensures |ReadArgs(s, n).rest| <= |s|
    decreases n
  {
    if n > 0 {
      ArgShrinks(s);
      ArgsShrink(ReadArg(s).rest, n - 1);
    }
  }

  lemma {:induction false} CommandShrinks(s: seq<Byte>)
    requires s != [] && ReadCommand(s).Got?
    ensures |ReadCommand(s).rest| < |s|
  {
    ArgsShrink(AfterLine(s), ToInt(Line(s)[1..]));
  }

  /** The main loop, with what was read so far. */
  function LoadFrom(s: seq<Byte>, truncate: bool, done: seq<Command>, offset: nat): Load
    decreases |s|
  {
    if s == [] then Loaded(done, offset)
    else
      match ReadCommand(s)
      case Got(cmd, rest) =>
        CommandShrinks(s);
        LoadFrom(rest, truncate, done + [cmd], offset + |s| - |rest|)
      case Short => if truncate then Loaded(done, offset) else UnexpectedEnd
      case Bad => FormatError
      case TooLarge => OutOfMemory
      case Unreadable => ReadError
  }

  function LoadFile(s: seq<Byte>, truncate: bool): Load {
    if s == [] then EmptyFile else LoadFrom(s, truncate, [], 0)
  }

  // ----- the format, letter by letter -----

  /** A command is '*', the number of arguments and a line end; each argument is '$', its length, a line end, its bytes, a line end. */
  lemma {:induction false} FormatIs(cmd: Command)
    ensures Encode(cmd) == [42] + Decimal(|cmd|) + [13, 10] + EncodeArgs(cmd)
    ensures cmd != [] ==> EncodeArgs(cmd) == [36] + Decimal(|cmd[0]|) + [13, 10] + cmd[0] + [13, 10] + EncodeArgs(cmd[1..])
    ensures cmd == [] ==> EncodeArgs(cmd) == []
  {
    hide Decimal;
  }

  /** Numbers are written in base ten, with the digits '0' to '9' and no leading zero. */
  lemma {:induction false} DecimalIs(n: nat, d: nat)
    requires d < 10
    ensures Decimal(d) == [48 + d] && (n > 0 ==> Decimal(10 * n + d) == Decimal(n) + [48 + d])
  {
  }

  // ----- numbers -----

  lemma {:induction false} DecimalDigits(n: nat, t: seq<Byte>)
    ensures Digits(Decimal(n) + t, 0) == Digits(t, n)
  {
    if n < 10 {
      assert (Decimal(n) + t)[1..] == t;
    } else {
      DecimalDigits(n / 10, [ZERO + n % 10] + t);
      assert Decimal(n) + t == Decimal(n / 10) + ([ZERO + n % 10] + t);
      assert ([ZERO + n % 10] + t)[1..] == t;
    }
  }

  lemma {:induction false} DecimalStarts(n: nat)
    ensures |Decimal(n)| > 0 && IsDigit(Decimal(n)[0]) && (n > 0 ==> Decimal(n)[0] > ZERO)
    ensures forall i :: 0 <= i < |Decimal(n)| ==> IsDigit(Decimal(n)[i])
  {
    if n >= 10 { DecimalStarts(n / 10); }
  }

  function Pow10(k: nat): nat { if k == 0 then 1 else 10 * Pow10(k - 1) }

  lemma {:induction false} DecimalLength(n: nat, k: nat)
    requires k > 0 && n < Pow10(k)
    ensures |Decimal(n)| <= k
    decreases k
  {
    if n >= 10 { DecimalLength(n / 10, k - 1); }
  }

  lemma {:induction false} LengthBound(n: nat)
    requires n <= LONG_MAX
    ensures |Decimal(n)| <= 20
  {
    assert Pow10(10) == 10000000000 by { assert Pow10(5) == 100000; }
    assert Pow10(15) == 1000000000000000;
    assert Pow10(20) == 100000000000000000000;
    DecimalLength(n, 20);
  }

  lemma {:induction false} NumberRead(n: nat, t: seq<Byte>)
    requires t == [] || !IsDigit(t[0])
    ensures ToInt(Decimal(n) + t) == n
  {
    DecimalStarts(n);
    DecimalDigits(n, t);
    assert (Decimal(n) + t)[0] == Decimal(n)[0];
  }

  /** A line ends with the first line feed, or where 127 bytes or all are taken. */
  lemma {:induction false} LineIs(s: seq<Byte>)
    ensures var line := Line(s);
            && line + AfterLine(s) == s && |line| <= 127
            && (forall i :: 0 <= i < |line| - 1 ==> line[i] != 10)
            && (|line| == 127 || line == s || (line != [] && line[|line| - 1] == 10))
  {
    LineLengthIs(s, LINE_MAX);
    hide LineLength;
  }

  lemma {:induction false} LineLengthIs(s: seq<Byte>, room: nat)
    ensures var n := LineLength(s, room);
            && (forall i :: 0 <= i < n - 1 ==> s[i] != 10) && (n == room || n == |s| || (n > 0 && s[n - 1] == 10))
    decreases room
  {
    if s != [] && room > 0 && s[0] != LF {
      LineLengthIs(s[1..], room - 1);
      var n := LineLength(s, room);
      assert forall i :: 0 < i < n ==> s[i] == s[1..][i - 1];
    }
  }

  /** Blanks and a sign before the digits, and anything but a digit after them. */
  lemma {:induction false} NumberMeans(blanks: seq<Byte>, sign: seq<Byte>, n: nat, t: seq<Byte>)
    requires forall i :: 0 <= i < |blanks| ==> blanks[i] == 32 || 9 <= blanks[i] <= 13
    requires sign == [] || sign == [43] || sign == [45]
    requires t == [] || t[0] < 48 || t[0] > 57
    ensures ToInt(blanks + sign + Decimal(n) + t) == if sign == [45] then 0 - n else n
    decreases |blanks|
  {
    hide ToInt, Decimal, Digits;
    if blanks == [] {
      SignedRead(sign, n, t);
      assert blanks + sign + Decimal(n) + t == sign + Decimal(n) + t;
    } else {
      NumberMeans(blanks[1..], sign, n, t);
      BlankRead(blanks[0], blanks[1..] + sign + Decimal(n) + t);
      assert blanks + sign + Decimal(n) + t == [blanks[0]] + (blanks[1..] + sign + Decimal(n) + t);
    }
  }

  lemma {:induction false} BlankRead(b: Byte, t: seq<Byte>)
    requires b == 32 || 9 <= b <= 13
    ensures ToInt([b] + t) == ToInt(t)
  {
    assert ([b] + t)[1..] == t;
    hide Digits;
  }

  lemma {:induction false} SignedRead(sign: seq<Byte>, n: nat, t: seq<Byte>)
    requires sign == [] || sign == [43] || sign == [45]
    requires t == [] || t[0] < 48 || t[0] > 57
    ensures ToInt(sign + Decimal(n) + t) == if sign == [45] then 0 - n else n
  {
    NumberRead(n, t);
    DecimalDigits(n, t);
    assert Digits(t, n) == n;
    hide Digits, Decimal;
    var s := sign + Decimal(n) + t;
    if sign == [] { assert s == Decimal(n) + t; } else { assert s[0] == sign[0] && s[1..] == Decimal(n) + t; }
  }

  /** Where no number begins, zero is read. */
  lemma {:induction false} NotANumber(t: seq<Byte>)
    requires t == [] || t[0] < 48 || t[0] > 57
    ensures ToInt([43] + t) == 0 && ToInt([45] + t) == 0
    ensures t == [] || !(t[0] == 32 || 9 <= t[0] <= 13 || t[0] == 43 || t[0] == 45) ==> ToInt(t) == 0
  {
    assert ([43] + t)[1..] == t && ([45] + t)[1..] == t;
  }

  lemma {:induction false} DigitsGrow(s: seq<Byte>, acc: nat)
    ensures Digits(s, acc) >= acc
    decreases |s|
  {
    if s != [] && IsDigit(s[0]) { DigitsGrow(s[1..], acc * 10 + (s[0] - ZERO)); }
  }

  /** The beginning of a number is a number: not negative, and positive if it has the first digit of a positive one. */
  lemma {:induction false} PartialNumber(n: nat, t: seq<Byte>, p: seq<Byte>)
    requires p <= Decimal(n) + t
    ensures ToInt(p) >= 0 && (n > 0 && p != [] ==> ToInt(p) >= 1)
  {
    DecimalStarts(n);
    if p != [] {
      assert p[0] == (Decimal(n) + t)[0] == Decimal(n)[0];
      DigitsGrow(p[1..], p[0] - ZERO);
      assert Digits(p, 0) == Digits(p[1..], p[0] - ZERO);
    }
  }

  // ----- lines -----

  lemma {:induction false} LineEnds(h: seq<Byte>, t: seq<Byte>, room: nat)
    requires 0 < |h| <= room && h[|h| - 1] == LF && forall i :: 0 <= i < |h| - 1 ==> h[i] != LF
    ensures LineLength(h + t, room) == |h|
    decreases |h|
  {
    assert (h + t)[0] == h[0];
    if |h| > 1 {
      LineEnds(h[1..], t, room - 1);
      assert (h + t)[1..] == h[1..] + t;
    }
  }

  lemma {:induction false} LineCut(p: seq<Byte>, room: nat)
    requires |p| <= room && forall i :: 0 <= i < |p| ==> p[i] != LF
    ensures LineLength(p, room) == |p|
    decreases |p|
  {
    if p != [] { LineCut(p[1..], room - 1); }
  }

  lemma {:induction false} HeaderShape(kind: Byte, n: nat)
    requires n <= LONG_MAX && kind != LF
    ensures var h := Header(kind, n);
            && 3 < |h| <= 23 && h[0] == kind && h[1..] == Decimal(n) + Crlf && h[|h| - 1] == LF && h[1] != 0
            && forall i :: 0 <= i < |h| - 1 ==> h[i] != LF
  {
    LengthBound(n);
    DecimalStarts(n);
    var h, d := Header(kind, n), Decimal(n);
    assert h[1..] == d + Crlf;
    forall i | 0 <= i < |h| - 1 ensures h[i] != LF {
      if 0 < i <= |d| { assert h[i] == d[i - 1]; }
    }
    assert h[1] == d[0];
  }

  lemma {:induction false} HeaderRead(kind: Byte, n: nat, t: seq<Byte>)
    requires n <= LONG_MAX && kind != LF
    ensures var s := Header(kind, n) + t;
            Line(s) == Header(kind, n) && AfterLine(s) == t && ToInt(Line(s)[1..]) == n
  {
    HeaderShape(kind, n);
    LineEnds(Header(kind, n), t, LINE_MAX);
    NumberRead(n, Crlf);
  }

  /** A header cut short is read as one line, up to the end of the file. */
  lemma {:induction false} HeaderCut(kind: Byte, n: nat, p: seq<Byte>)
    requires n <= LONG_MAX && kind != LF && p != [] && p < Header(kind, n)
    ensures Line(p) == p && AfterLine(p) == [] && p[0] == kind
    ensures p[1..] <= Decimal(n) + Crlf && (|p| > 1 ==> p[1] != 0)
  {
    HeaderShape(kind, n);
    var h := Header(kind, n);
    assert forall i :: 0 <= i < |p| ==> p[i] == h[i];
    LineCut(p, LINE_MAX);
    assert p[1..] <= h[1..];
  }

  // ----- arguments and commands -----

  lemma {:induction false} ArgRead(arg: seq<Byte>, t: seq<Byte>)
    requires |arg| <= LONG_MAX
    ensures ReadArg(EncodeArg(arg) + t) == Got(arg, t)
  {
    hide Header, Line, AfterLine, ToInt;
    var body := arg + Crlf + t;
    assert EncodeArg(arg) + t == Header(DOLLAR, |arg|) + body;
    HeaderRead(DOLLAR, |arg|, body);
    HeaderShape(DOLLAR, |arg|);
    assert body[..|arg|] == arg && body[|arg| + 2..] == t;
  }

  lemma {:induction false} ArgsRead(args: Command, t: seq<Byte>)
    requires forall i :: 0 <= i < |args| ==> |args[i]| <= LONG_MAX
    ensures ReadArgs(EncodeArgs(args) + t, |args|) == Got(args, t)
    decreases |args|
  {
    hide ReadArg, EncodeArg;
    if args == [] {
      assert EncodeArgs(args) + t == t;
    } else {
      ArgRead(args[0], EncodeArgs(args[1..]) + t);
      assert EncodeArgs(args) + t == EncodeArg(args[0]) + (EncodeArgs(args[1..]) + t);
      ArgsRead(args[1..], t);
      assert [args[0]] + args[1..] == args;
    }
  }

  lemma {:induction false} CommandRead(cmd: Command, t: seq<Byte>)
    requires Fits(cmd)
    ensures Encode(cmd) + t != [] && ReadCommand(Encode(cmd) + t) == Got(cmd, t)
  {
    hide Header, Line, AfterLine, ToInt, ReadArgs, EncodeArgs;
    var body := EncodeArgs(cmd) + t;
    assert Encode(cmd) + t == Header(STAR, |cmd|) + body;
    HeaderRead(STAR, |cmd|, body);
    HeaderShape(STAR, |cmd|);
    ArgsRead(cmd, t);
  }

  // ----- what is cut short -----

  lemma {:induction false} ArgCut(arg: seq<Byte>, p: seq<Byte>)
    requires |arg| <= LONG_MAX && p < EncodeArg(arg)
    ensures ReadArg(p) == Short
  {
    hide Header, Line, AfterLine, ToInt;
    var h := Header(DOLLAR, |arg|);
    HeaderShape(DOLLAR, |arg|);
    if p != [] {
      if |p| < |h| {
        assert p < h by { assert h == EncodeArg(arg)[..|h|]; }
        HeaderCut(DOLLAR, |arg|, p);
        PartialNumber(|arg|, Crlf, p[1..]);
      } else {
        var rest := p[|h|..];
        assert p == h + rest by { assert h == EncodeArg(arg)[..|h|]; }
        HeaderRead(DOLLAR, |arg|, rest);
      }
    }
  }

  lemma {:induction false} ArgsCut(args: Command, p: seq<Byte>)
    requires (forall i :: 0 <= i < |args| ==> |args[i]| <= LONG_MAX) && p < EncodeArgs(args)
    ensures ReadArgs(p, |args|) == Short
    decreases |args|
  {
    hide ReadArg, EncodeArg;
    var e, all := EncodeArg(args[0]), EncodeArgs(args);
    if |p| < |e| {
      assert p < e by { assert e == all[..|e|]; }
      ArgCut(args[0], p);
    } else {
      var rest := p[|e|..];
      assert p == e + rest by { assert e == all[..|e|]; }
      assert rest < EncodeArgs(args[1..]) by { assert EncodeArgs(args[1..]) == all[|e|..]; }
      ArgRead(args[0], rest);
      ArgsCut(args[1..], rest);
    }
  }

  /** A command cut short anywhere after its first byte is recognised as cut short, never as another command or an error. */
  lemma {:induction false} CommandCut(cmd: Command, p: seq<Byte>)
    requires Fits(cmd) && p != [] && p < Encode(cmd)
    ensures ReadCommand(p) == Short
  {
    hide Header, Line, AfterLine, ToInt, ReadArgs, EncodeArgs;
    var h, all := Header(STAR, |cmd|), Encode(cmd);
    HeaderShape(STAR, |cmd|);
    if |p| < |h| {
      assert p < h by { assert h == all[..|h|]; }
      HeaderCut(STAR, |cmd|, p);
      PartialNumber(|cmd|, Crlf, p[1..]);
      if |p| > 1 { NoArgs(ToInt(p[1..])); }
    } else {
      var rest := p[|h|..];
      assert p == h + rest by { assert h == all[..|h|]; }
      HeaderRead(STAR, |cmd|, rest);
      assert rest < EncodeArgs(cmd) by { assert EncodeArgs(cmd) == all[|h|..]; }
      ArgsCut(cmd, rest);
    }
  }

  lemma {:induction false} NoArgs(n: nat)
    requires n >= 1
    ensures ReadArgs([], n) == Short
  {
  }

  // ----- whole files -----

  lemma {:induction false} EncodeAllAppend(a: seq<Command>, b: seq<Command>)
    ensures EncodeAll(a + b) == EncodeAll(a) + EncodeAll(b)
    decreases |a|
  {
    hide Encode;
    if a == [] {
      assert a + b == b;
    } else {
      EncodeAllAppend(a[1..], b);
      assert (a + b)[1..] == a[1..] + b;
    }
  }

  lemma {:induction false} LoadNext(cmd: Command, rest: seq<Byte>, truncate: bool, done: seq<Command>, offset: nat)
    requires Fits(cmd)
    ensures LoadFrom(Encode(cmd) + rest, truncate, done, offset) == LoadFrom(rest, truncate, done + [cmd], offset + |Encode(cmd)|)
  {
    hide Encode, ReadCommand;
    CommandRead(cmd, rest);
  }

  lemma {:induction false} EncodeAllSplits(cmds: seq<Command>, tail: seq<Byte>)
    ensures cmds == [] ==> EncodeAll(cmds) + tail == tail && |EncodeAll(cmds)| == 0
    ensures cmds != [] ==> EncodeAll(cmds) + tail == Encode(cmds[0]) + (EncodeAll(cmds[1..]) + tail)
                           && |EncodeAll(cmds)| == |Encode(cmds[0])| + |EncodeAll(cmds[1..])|
  {
    hide Encode;
  }

  lemma {:induction false} LoadTail(tail: seq<Byte>, truncate: bool, done: seq<Command>, offset: nat)
    requires tail == [] || ReadCommand(tail) == Short
    ensures LoadFrom(tail, truncate, done, offset) == if tail != [] && !truncate then UnexpectedEnd else Loaded(done, offset)
  {
    hide ReadCommand;
  }

  /** Reading on from a point where the given commands follow, complete, and then something cut short or nothing. */
  lemma {:induction false} LoadRest(cmds: seq<Command>, tail: seq<Byte>, truncate: bool, done: seq<Command>, offset: nat)
    requires (forall i :: 0 <= i < |cmds| ==> Fits(cmds[i])) && (tail == [] || ReadCommand(tail) == Short)
    ensures LoadFrom(EncodeAll(cmds) + tail, truncate, done, offset)
         == if tail != [] && !truncate then UnexpectedEnd else Loaded(done + cmds, offset + |EncodeAll(cmds)|)
    decreases |cmds|
  {
    hide Encode, EncodeAll, ReadCommand, LoadFrom, Fits;
    if cmds == [] {
      EncodeAllSplits(cmds, tail);
      assert done + cmds == done;
      LoadTail(tail, truncate, done, offset);
    } else {
      var rest := EncodeAll(cmds[1..]) + tail;
      EncodeAllSplits(cmds, tail);
      LoadNext(cmds[0], rest, truncate, done, offset);
      LoadRest(cmds[1..], tail, truncate, done + [cmds[0]], offset + |Encode(cmds[0])|);
      assert done + [cmds[0]] + cmds[1..] == done + cmds;
    }
  }

  /** Loading what was written gives the commands that were written. */
  lemma {:induction false} LoadIsInverse(cmds: seq<Command>, truncate: bool)
    requires cmds != [] && forall i :: 0 <= i < |cmds| ==> Fits(cmds[i])
    ensures LoadFile(EncodeAll(cmds), truncate) == Loaded(cmds, |EncodeAll(cmds)|)
  {
    hide ReadCommand;
    CommandRead(cmds[0], EncodeAll(cmds[1..]));
    LoadRest(cmds, [], truncate, [], 0);
    assert EncodeAll(cmds) + [] == EncodeAll(cmds) && [] + cmds == cmds;
  }

  /** k commands of the list fit into the prefix, and no more. */
  ghost predicate Complete(cmds: seq<Command>, p: seq<Byte>, k: nat) {
    && k <= |cmds| && |EncodeAll(cmds[..k])| <= |p|
    && (k < |cmds| ==> |p| < |EncodeAll(cmds[..k + 1])|)
  }

  lemma {:induction false} PrefixSplits(cmds: seq<Command>, p: seq<Byte>, k: nat)
    requires p <= EncodeAll(cmds) && Complete(cmds, p, k)
    ensures var done := EncodeAll(cmds[..k]);
            p == done + p[|done|..] && (p[|done|..] == [] || (k < |cmds| && p[|done|..] < Encode(cmds[k])))
  {
    hide Encode;
    var done, tail := EncodeAll(cmds[..k]), p[|EncodeAll(cmds[..k])|..];
    EncodeAllAppend(cmds[..k], cmds[k..]);
    assert cmds[..k] + cmds[k..] == cmds;
    assert p[..|done|] == done by { assert EncodeAll(cmds)[..|done|] == done; }
    assert k == |cmds| ==> cmds[..k] == cmds;
    if tail != [] {
      assert cmds[..k + 1] == cmds[..k] + [cmds[k]];
      EncodeAllAppend(cmds[..k], [cmds[k]]);
      assert EncodeAll([cmds[k]]) == Encode(cmds[k]) + EncodeAll([]) == Encode(cmds[k]);
      assert EncodeAll(cmds[k..]) == Encode(cmds[k]) + EncodeAll(cmds[k..][1..]);
      assert tail <= EncodeAll(cmds[k..]) by { assert EncodeAll(cmds)[|done|..] == EncodeAll(cmds[k..]); }
    }
  }

  /**
   Loading any non-empty prefix of what was written gives exactly the commands that
   are complete in it, and the offset where the last of them ends; without
   aof-load-truncated it is refused unless the prefix ends between two commands.
   */
  lemma {:induction false} LoadOfPrefix(cmds: seq<Command>, p: seq<Byte>, k: nat, truncate: bool)
    requires (forall i :: 0 <= i < |cmds| ==> Fits(cmds[i])) && p <= EncodeAll(cmds) && p != [] && Complete(cmds, p, k)
    ensures LoadFile(p, truncate)
         == if !truncate && |p| > |EncodeAll(cmds[..k])| then UnexpectedEnd else Loaded(cmds[..k], |EncodeAll(cmds[..k])|)
  {
    hide Encode, EncodeAll, ReadCommand, LoadFrom;
    PrefixSplits(cmds, p, k);
    var done := EncodeAll(cmds[..k]);
    var tail := p[|done|..];
    if tail != [] { CommandCut(cmds[k], tail); }
    LoadRest(cmds[..k], tail, truncate, [], 0);
    assert [] + cmds[..k] == cmds[..k];
  }

  // ----- the loops -----

  /** catAppendOnlyGenericCommand. */
  method CatGenericCommand(dst: seq<Byte>, argv: Command) returns (r: seq<Byte>)
    ensures r == dst + Encode(argv)
  {
    r := dst + Header(STAR, |argv|);
    var j := 0;
    while j < |argv|
      invariant 0 <= j <= |argv|
      invariant r + EncodeArgs(argv[j..]) == dst + Encode(argv)
    {
      assert argv[j..][1..] == argv[j + 1..];
      assert r + EncodeArgs(argv[j..]) == r + EncodeArg(argv[j]) + EncodeArgs(argv[j + 1..]);
      ghost var before := r;
      r := r + Header(DOLLAR, |argv[j]|);
      r := r + argv[j];
      r := r + Crlf;
      assert r == before + EncodeArg(argv[j]);
      j := j + 1;
    }
  }

  /** The loop over the arguments of a command. */
  method ReadArguments(file: seq<Byte>, argc: nat) returns (r: Read<Command>)
    ensures r == ReadArgs(file, argc)
  {
    hide ReadArg;
    var s, args, j := file, [], 0;
    PrependNothing(ReadArgs(file, argc));
    while j < argc
      invariant 0 <= j <= argc && |args| == j
      invariant ReadArgs(file, argc) == Prepend(args, ReadArgs(s, argc - j))
    {
      var arg := ReadArg(s);
      match arg {
        case Got(_, _) =>
        case Short => return Short;
        case Bad => return Bad;
        case TooLarge => return TooLarge;
        case Unreadable => return Unreadable;
      }
      assert forall more :: args + ([arg.value] + more) == (args + [arg.value]) + more;
      args, s, j := args + [arg.value], arg.rest, j + 1;
    }
    assert args + [] == args;
    return Got(args, s);
  }

  lemma {:induction false} PrependNothing(r: Read<Command>)
    ensures Prepend([], r) == r
  {
    if r.Got? { assert [] + r.value == r.value; }
  }

  ghost function Prepend(args: Command, r: Read<Command>): Read<Command> {
    if r.Got? then Got(args + r.value, r.rest) else r
  }

  /** loadAppendOnlyFile, up to running the commands. */
  method LoadAppendOnlyFile(file: seq<Byte>, truncate: bool) returns (r: Load)
    ensures r == LoadFile(file, truncate)
  {
    hide ReadCommand;
    if file == [] { return EmptyFile; }
    var s, cmds, validUpTo: nat := file, [], 0;
    while s != []
      invariant LoadFile(file, truncate) == LoadFrom(s, truncate, cmds, validUpTo)
      decreases |s|
    {
      match ReadCommand(s)
      case Got(cmd, rest) =>
        CommandShrinks(s);
        validUpTo := validUpTo + |s| - |rest|;
        cmds, s := cmds + [cmd], rest;
      case Short => return if truncate then Loaded(cmds, validUpTo) else UnexpectedEnd;
      case Bad => return FormatError;
      case TooLarge => return OutOfMemory;
      case Unreadable => return ReadError;
    }
    return Loaded(cmds, validUpTo);
  }
}
