/** `metadata.txt`: one writer and three readers. */
module Metadata {
  import opened Decimal
  import opened Outcomes
  import Utf8

  /** Modification time in seconds and length in bytes: what decides whether a file changed. */
  datatype Stamp = Stamp(mtime: U64, size: U64)

  function Format(path: string, stamp: Stamp, groups: U64): string {
    path + "\n" + StampText(stamp, Print(groups) + "\n")
  }

  function StampText(stamp: Stamp, rest: string): string {
    Print(stamp.mtime) + "\n" + (Print(stamp.size) + "\n" + rest)
  }

  function IndexOf(s: string, c: char): (r: Option<nat>)
    ensures r.Some? ==> r.value < |s|
  {
    if s == [] then None
    else if s[0] == c then Some(0)
    else
      var rest := IndexOf(s[1..], c);
      if rest.None? then None else Some(rest.value + 1)
  }

  function StripCr(line: string): string {
    if line != [] && line[|line| - 1] == '\r' then line[..|line| - 1] else line
  }

  /** `str::lines`: a line ends at `\n` or `\r\n`; a last line without `\n` is kept as it is. */
  function Lines(s: string): seq<string> {
    if s == [] then [] else
      match IndexOf(s, '\n')
      case None => [s]
      case Some(i) => [StripCr(s[..i])] + Lines(s[i + 1..])
  }

  function ParseLine(line: string): Option<U64> {
    ParseU64(Utf8.Encode(line))
  }

  /** The staleness check's reader; `None` is the old format with fewer than three lines, and a
      number that does not parse counts as 0. */
  function ReadStamp(contents: string): Option<Stamp> {
    var lines := Lines(contents);
    if |lines| < 3 then None
    else Some(Stamp(ParseLine(lines[1]).GetOr(0), ParseLine(lines[2]).GetOr(0)))
  }

  /** The first line: where the query engine and the orphan check find the data file's path. */
  function ReadPath(contents: string): Option<string> {
    var lines := Lines(contents);
    if lines == [] then None else Some(lines[0])
  }

  /** The fourth line, when there is one and it is a number. */
  function ReadGroupCount(contents: string): Option<U64> {
    var lines := Lines(contents);
    if |lines| < 4 then None else ParseLine(lines[3])
  }

  predicate OneLinePath(path: string) {
    '\n' !in path && (path == [] || path[|path| - 1] != '\r')
  }

  lemma {:induction false} IndexOfAt(a: string, c: char, b: string)
    requires c !in a
    ensures IndexOf(a + [c] + b, c) == Some(|a|)
  {
    if a != [] {
      assert (a + [c] + b)[1..] == a[1..] + [c] + b;
      IndexOfAt(a[1..], c, b);
    }
  }

  lemma FirstLine(line: string, rest: string)
    requires '\n' !in line
    ensures Lines(line + "\n" + rest) == [StripCr(line)] + Lines(rest)
  {
    var s := line + ['\n'] + rest;
    IndexOfAt(line, '\n', rest);
    assert s[..|line|] == line && s[|line| + 1..] == rest;
  }

  /** How text falls into lines: with these rules the lines of every string are fixed. */
  lemma LineRules(line: string, rest: string)
    requires '\n' !in line
    ensures Lines("") == []
    ensures line != "" ==> Lines(line) == [line]
    ensures Lines(line + "\n" + rest)
         == [if line != "" && line[|line| - 1] == '\r' then line[..|line| - 1] else line] + Lines(rest)
  {
    FirstLine(line, rest);
    NoIndex(line, '\n');
  }

  lemma {:induction false} NoIndex(s: string, c: char)
    requires c !in s
    ensures IndexOf(s, c) == None
  {
    if s != [] {
      NoIndex(s[1..], c);
    }
  }

  /** The text that is written. */
  lemma FormatText(path: string, stamp: Stamp, groups: U64)
    ensures Format(path, stamp, groups)
         == path + "\n" + Print(stamp.mtime) + "\n" + Print(stamp.size) + "\n" + Print(groups) + "\n"
  {
  }

  /** What each reader finds in any text. */
  lemma ReadersMeaning(contents: string)
    ensures var lines := Lines(contents);
            && (ReadPath(contents).Some? <==> lines != [])
            && (lines != [] ==> ReadPath(contents) == Some(lines[0]))
            && (ReadStamp(contents).Some? <==> |lines| >= 3)
            && (|lines| >= 3 ==>
                var mtime, size := ParseU64(Utf8.Encode(lines[1])).GetOr(0), ParseU64(Utf8.Encode(lines[2])).GetOr(0);
                ReadStamp(contents) == Some(Stamp(mtime, size)))
            && ReadGroupCount(contents) == if |lines| < 4 then None else ParseU64(Utf8.Encode(lines[3]))
  {
  }

  lemma NumberLine(n: U64, rest: string)
    ensures Lines(Print(n) + "\n" + rest) == [Print(n)] + Lines(rest)
    ensures ParseLine(Print(n)) == Some(n)
  {
    var digits := Print(n);
    assert IsDigit(digits[|digits| - 1]);
    assert forall c :: c in digits ==> IsDigit(c);
    FirstLine(digits, rest);
    ParsePrint(n);
  }

  lemma StampLines(stamp: Stamp, rest: string)
    ensures Lines(StampText(stamp, rest)) == [Print(stamp.mtime), Print(stamp.size)] + Lines(rest)
  {
    NumberLine(stamp.mtime, Print(stamp.size) + "\n" + rest);
    NumberLine(stamp.size, rest);
  }

  lemma LastLine(n: U64)
    ensures Lines(Print(n) + "\n") == [Print(n)]
  {
    assert Print(n) + "\n" == Print(n) + "\n" + [];
    NumberLine(n, []);
  }

  lemma FormatLines(path: string, stamp: Stamp, groups: U64)
    requires OneLinePath(path)
    ensures Lines(Format(path, stamp, groups)) == [path, Print(stamp.mtime), Print(stamp.size), Print(groups)]
  {
    var last := Print(groups) + "\n";
    assert Lines(path + "\n" + StampText(stamp, last)) == [path] + Lines(StampText(stamp, last)) by {
      FirstLine(path, StampText(stamp, last));
    }
    StampLines(stamp, last);
    LastLine(groups);
  }

  /** The staleness check reads back the exact stamp and the engine the exact path and count. */
  lemma RoundTrip(path: string, stamp: Stamp, groups: U64)
    requires OneLinePath(path)
    ensures ReadStamp(Format(path, stamp, groups)) == Some(stamp)
    ensures ReadPath(Format(path, stamp, groups)) == Some(path)
    ensures ReadGroupCount(Format(path, stamp, groups)) == Some(groups)
  {
    FormatLines(path, stamp, groups);
    ParsePrint(stamp.mtime);
    ParsePrint(stamp.size);
    ParsePrint(groups);
  }

  lemma {:induction false} IndexOfFirst(s: string, c: char)
    requires c in s
    ensures IndexOf(s, c).Some?
  {
    if s[0] != c {
      IndexOfFirst(s[1..], c);
    }
  }

  /** The path comes back exactly when it has no line feed and does not end in a carriage return. */
  lemma PathReadBackIff(path: string, stamp: Stamp, groups: U64)
    ensures ReadPath(Format(path, stamp, groups)) == Some(path) <==> OneLinePath(path)
  {
    var numbers := StampText(stamp, Print(groups) + "\n");
    var contents := Format(path, stamp, groups);
    if '\n' in path {
      IndexOfFirst(path, '\n');
      IndexOfPrefix(path, '\n', "\n" + numbers);
      assert contents == path + ("\n" + numbers);
    } else {
      FirstLine(path, numbers);
    }
  }

  lemma {:induction false} IndexOfPrefix(a: string, c: char, b: string)
    requires c in a
    ensures IndexOf(a + b, c) == IndexOf(a, c)
  {
    if a[0] != c {
      assert (a + b)[1..] == a[1..] + b;
      IndexOfPrefix(a[1..], c, b);
    }
  }

  /** A legacy three-line file still yields path and stamp, and no row-group count. */
  lemma LegacyFile(path: string, stamp: Stamp)
    requires OneLinePath(path)
    ensures var contents := path + "\n" + StampText(stamp, []);
            && ReadPath(contents) == Some(path) && ReadStamp(contents) == Some(stamp)
            && ReadGroupCount(contents) == None
  {
    var contents := path + "\n" + StampText(stamp, []);
    FirstLine(path, StampText(stamp, []));
    StampLines(stamp, []);
    NumberLine(stamp.mtime, []);
    NumberLine(stamp.size, []);
    assert Lines(contents) == [path, Print(stamp.mtime), Print(stamp.size)];
  }
}
