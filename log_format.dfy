/** The pure part of `Logger.log`: the file's base name taken from the
    `#file` path, the decimal rendering of the `#line` number, and the
    two-line text that is handed to a sink. */
module LogFormat {
  import opened LogLevels

  const Separator: char := '/'

  // ---------------------------------------------------------------------------
  // Path components and the base name
  // ---------------------------------------------------------------------------

  /** `s.components(separatedBy: "/")`: the pieces between separators, in
      order. There is always at least one piece (the empty string gives `[""]`,
      and a leading or trailing separator gives an empty first or last piece),
      and no piece holds a separator. Strings are sequences of scalars here,
      and every `/` scalar separates. */
  function Components(s: string): (parts: seq<string>)
    ensures |parts| >= 1
    ensures forall i :: 0 <= i < |parts| ==> Separator !in parts[i]
    decreases |s|
  {
    if s == [] then [[]]
    else
      var rest := Components(s[1..]);
      if s[0] == Separator then [[]] + rest
      else [[s[0]] + rest[0]] + rest[1..]
  }

  /** Puts the pieces back together with a separator between neighbours. */
  function Join(parts: seq<string>): string
    decreases |parts|
  {
    if |parts| == 0 then []
    else if |parts| == 1 then parts[0]
    else parts[0] + [Separator] + Join(parts[1..])
  }

  /** Splitting loses nothing: joining the components gives the path back. */
  lemma {:induction false} JoinComponents(s: string)
    ensures Join(Components(s)) == s
    decreases |s|
  {
    if s != [] {
      var rest := Components(s[1..]);
      JoinComponents(s[1..]);
      if s[0] == Separator {
        assert Components(s) == [[]] + rest;
        assert s == [] + [Separator] + s[1..];
      } else {
        var parts := [[s[0]] + rest[0]] + rest[1..];
        assert Components(s) == parts;
        if |rest| == 1 {
          assert Join(parts) == [s[0]] + rest[0];
        } else {
          assert parts[1..] == rest[1..];
          assert Join(parts) == [s[0]] + rest[0] + [Separator] + Join(rest[1..]);
          assert Join(rest) == rest[0] + [Separator] + Join(rest[1..]);
        }
        assert s == [s[0]] + s[1..];
      }
    }
  }

  /** Joining with one more piece at the end puts a separator before it. */
  lemma {:induction false} JoinSnoc(parts: seq<string>, last: string)
    requires |parts| >= 1
    ensures Join(parts + [last]) == Join(parts) + [Separator] + last
    decreases |parts|
  {
    if |parts| == 1 {
      assert parts + [last] == [parts[0], last];
    } else {
      assert (parts + [last])[1..] == parts[1..] + [last];
      JoinSnoc(parts[1..], last);
    }
  }

  /** `file.components(separatedBy: "/").last ?? ""`. The fallback is never
      taken, because there is always a last component. */
  function BaseName(file: string): string {
    var parts := Components(file);
    if |parts| == 0 then [] else parts[|parts| - 1]
  }

  /** The base name holds no separator, ends the path, and is either the whole
      path or preceded by a separator. */
  lemma BaseNameIsLastSegment(file: string)
    ensures Separator !in BaseName(file)
    ensures |BaseName(file)| <= |file|
    ensures file[|file| - |BaseName(file)|..] == BaseName(file)
    ensures |BaseName(file)| == |file| || file[|file| - |BaseName(file)| - 1] == Separator
  {
    var parts := Components(file);
    var n := |parts|;
    var last := parts[n - 1];
    assert BaseName(file) == last;
    JoinComponents(file);
    if n > 1 {
      assert parts == parts[..n - 1] + [last];
      JoinSnoc(parts[..n - 1], last);
      SegmentAfterSeparator(file, Join(parts[..n - 1]), last);
    }
  }

  /** The piece after the last separator ends the path, right after that separator. */
  lemma SegmentAfterSeparator(file: string, head: string, last: string)
    requires file == head + [Separator] + last
    ensures file[|file| - |last|..] == last
    ensures file[|file| - |last| - 1] == Separator
  {
  }

  /** Conversely, a separator-free suffix that starts the path or follows a
      separator is the base name: the base name is the unique such suffix. */
  lemma BaseNameUnique(file: string, dir: string, name: string)
    requires file == dir + name
    requires Separator !in name
    requires dir == [] || dir[|dir| - 1] == Separator
    ensures BaseName(file) == name
  {
    BaseNameIsLastSegment(file);
    var b := BaseName(file);
    SuffixLengthBound(file, b, name);
    assert |dir| == 0 || file[|dir| - 1] == Separator;
    SuffixLengthBound(file, name, b);
    assert b == file[|file| - |b|..] == name;
  }

  /** If the suffix `x` of `file` starts the path or follows a separator, a
      longer suffix `y` takes that separator in. */
  lemma SuffixLengthBound(file: string, x: string, y: string)
    requires |x| <= |file| && file[|file| - |x|..] == x
    requires |y| <= |file| && file[|file| - |y|..] == y
    requires |x| == |file| || file[|file| - |x| - 1] == Separator
    ensures |y| <= |x| || Separator in y
  {
  }

  /** A path with no separator is its own base name. */
  lemma BaseNameOfPlainName(file: string)
    requires Separator !in file
    ensures BaseName(file) == file
  {
    BaseNameUnique(file, [], file);
  }

  /** The empty path, and a path ending in a separator, have an empty base name. */
  lemma BaseNameEmpty(file: string)
    requires file == [] || file[|file| - 1] == Separator
    ensures BaseName(file) == []
  {
    BaseNameUnique(file, file, []);
  }

  // ---------------------------------------------------------------------------
  // Decimal rendering of the line number (`\(line)` for an `Int`)
  // ---------------------------------------------------------------------------

  predicate IsDigit(c: char) {
    '0' <= c <= '9'
  }

  predicate AllDigits(s: string) {
    forall i :: 0 <= i < |s| ==> IsDigit(s[i])
  }

  function DigitChar(d: nat): (c: char)
    requires d < 10
    ensures IsDigit(c)
    ensures c as int - '0' as int == d
  {
    ('0' as int + d) as char
  }

  /** The decimal digits of `n`: never empty, and without a leading zero
      unless `n` is zero itself. */
  function NatToDecimal(n: nat): (r: string)
    ensures |r| >= 1 && AllDigits(r)
    ensures r[0] == '0' ==> n == 0 && |r| == 1
    decreases n
  {
    if n < 10 then [DigitChar(n)] else NatToDecimal(n / 10) + [DigitChar(n % 10)]
  }

  /** The value a string of decimal digits denotes. */
  function DecimalValue(s: string): nat
    requires AllDigits(s)
    decreases |s|
  {
    if s == [] then 0
    else DecimalValue(s[..|s| - 1]) * 10 + (s[|s| - 1] as int - '0' as int)
  }

  /** Reading the digits back gives the number that was rendered. */
  lemma {:induction false} NatToDecimalRoundTrip(n: nat)
    ensures DecimalValue(NatToDecimal(n)) == n
    decreases n
  {
    if n >= 10 {
      var r := NatToDecimal(n);
      NatToDecimalRoundTrip(n / 10);
      assert r[..|r| - 1] == NatToDecimal(n / 10);
    }
  }

  /** A Swift `Int` as string interpolation writes it: a minus sign for a
      negative number, then the digits of its magnitude. */
  function IntToDecimal(i: int): string {
    if i < 0 then "-" + NatToDecimal(-i) else NatToDecimal(i)
  }

  /** A rendered number: an optional minus sign and at least one digit. */
  predicate IsIntLiteral(s: string) {
    if |s| > 0 && s[0] == '-' then |s| > 1 && AllDigits(s[1..])
    else |s| > 0 && AllDigits(s)
  }

  function IntValue(s: string): int
    requires IsIntLiteral(s)
  {
    if s[0] == '-' then 0 - DecimalValue(s[1..]) else DecimalValue(s)
  }

  /** The rendering is a well-formed literal that reads back to the same
      number, so two different line numbers never render alike. */
  lemma IntToDecimalRoundTrip(i: int)
    ensures IsIntLiteral(IntToDecimal(i))
    ensures IntValue(IntToDecimal(i)) == i
    ensures '\n' !in IntToDecimal(i)
  {
    if i < 0 {
      assert IntToDecimal(i)[1..] == NatToDecimal(-i);
      NatToDecimalRoundTrip(-i);
    } else {
      NatToDecimalRoundTrip(i);
    }
  }

  // ---------------------------------------------------------------------------
  // The two-line log text
  // ---------------------------------------------------------------------------

  /** First line: `<fileName>[<line>] - <function>`. */
  function Header(fileName: string, line: int, functionName: string): string {
    fileName + "[" + IntToDecimal(line) + "] - " + functionName
  }

  /** Second line: `<icon>: <message>`. */
  function Body(level: LogLevel, message: string): string {
    level.Icon() + ": " + message
  }

  /** The text `log` hands to a sink. */
  function Format(fileName: string, line: int, functionName: string, level: LogLevel, message: string): string {
    Header(fileName, line, functionName) + "\n" + Body(level, message)
  }

  /** When the file name, the function name and the message hold no line
      break, the text has exactly two lines: its only line break sits right
      after the header. */
  lemma FormatHasTwoLines(fileName: string, line: int, functionName: string, level: LogLevel, message: string)
    requires '\n' !in fileName && '\n' !in functionName && '\n' !in message
    ensures var r := Format(fileName, line, functionName, level, message);
            var k := |Header(fileName, line, functionName)|;
            k < |r| && r[k] == '\n' &&
            r[..k] == Header(fileName, line, functionName) &&
            r[k + 1..] == Body(level, message) &&
            forall i :: 0 <= i < |r| && r[i] == '\n' ==> i == k
  {
  }

  /** For one call site, the text determines the level and the message: a
      different level or message never produces the same line. */
  lemma FormatDeterminesLevelAndMessage(fileName: string, line: int, functionName: string,
                                        level1: LogLevel, message1: string,
                                        level2: LogLevel, message2: string)
    requires Format(fileName, line, functionName, level1, message1)
          == Format(fileName, line, functionName, level2, message2)
    ensures level1 == level2 && message1 == message2
  {
    var h := Header(fileName, line, functionName) + "\n";
    var r := Format(fileName, line, functionName, level1, message1);
    assert r == h + Body(level1, message1) == h + Body(level2, message2);
    assert Body(level1, message1) == r[|h|..] == Body(level2, message2);
    IconsDistinct(level1, level2);
    assert level1.Icon()[0] == Body(level1, message1)[0] == Body(level2, message2)[0] == level2.Icon()[0];
    var n := |level1.Icon()| + 2;
    assert message1 == Body(level1, message1)[n..] == Body(level2, message2)[n..] == message2;
  }

  /** An example of the output format: an `error` message "hello" from
      `doThing()` at line 42 of `/x/y/Z.swift`. */
  lemma FormatExample(file: string)
    requires file == "/x/y/Z.swift"
    ensures Format(BaseName(file), 42, "doThing()", Error, "hello")
         == "Z.swift[42] - doThing()\n\U{1F4DB}: hello"
  {
    BaseNameUnique(file, "/x/y/", "Z.swift");
    assert NatToDecimal(42) == "42";
    var h := Header("Z.swift", 42, "doThing()");
    assert h == "Z.swift[42] - doThing()";
    var b := Body(Error, "hello");
    assert b == "\U{1F4DB}: hello";
  }

  /** The base-name examples: a nested path, a bare file name, the empty path. */
  lemma BaseNameExamples()
    ensures BaseName("/a/b/c/File.ext") == "File.ext"
    ensures BaseName("File.ext") == "File.ext"
    ensures BaseName("") == ""
  {
    BaseNameUnique("/a/b/c/File.ext", "/a/b/c/", "File.ext");
    BaseNameOfPlainName("File.ext");
  }
}
