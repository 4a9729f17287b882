/**
 Path conversion, quoting and escaping helpers used when driving GCC from
 MSBuild, and the parser for the make-style dependency files (`.d`) that
 GCC and the Java dependency tool write.

 GCC escapes a space inside a file name as `\ ` and a backslash as `\\`;
 names are separated by unescaped spaces and a line that continues on the
 next one ends in ` \`.
 */
module GccUtilities {
  import opened Text

  // ---------------------------------------------------------------------------
  // Escaping
  // ---------------------------------------------------------------------------

  /** `Escape`: first every `\` is doubled, then every space gets a `\` in front. */
  function Escape(input: string): string {
    ReplaceAll(ReplaceAll(input, "\\", "\\\\"), " ", "\\ ")
  }

  /** `Unescape`: first every `\\` (scanning left to right) becomes `\`,
      then every `\ ` becomes a space. */
  function Unescape(input: string): string {
    ReplaceAll(ReplaceAll(input, "\\\\", "\\"), "\\ ", " ")
  }

  /** What `Escape` makes of one character */
  function EscapeChar(c: char): string {
    if c == '\\' then "\\\\" else if c == ' ' then "\\ " else [c]
  }

  /** `Escape` read character by character */
  function EscapedChars(s: string): string {
    if s == [] then [] else EscapeChar(s[0]) + EscapedChars(s[1..])
  }

  /** Every occurrence of `c` replaced by `rep`, character by character */
  function Expand(s: string, c: char, rep: string): string {
    if s == [] then [] else (if s[0] == c then rep else [s[0]]) + Expand(s[1..], c, rep)
  }

  /** A one-character pattern is replaced character by character. */
  lemma {:induction false} ReplaceAllOneChar(s: string, c: char, rep: string)
    ensures ReplaceAll(s, [c], rep) == Expand(s, c, rep)
  {
    if s != [] {
      ReplaceAllOneChar(s[1..], c, rep);
    }
  }

  lemma {:induction false} ExpandAppend(x: string, y: string, c: char, rep: string)
    ensures Expand(x + y, c, rep) == Expand(x, c, rep) + Expand(y, c, rep)
  {
    if x != [] {
      assert (x + y)[1..] == x[1..] + y;
      ExpandAppend(x[1..], y, c, rep);
    } else {
      assert x + y == y;
    }
  }

  /** The two passes of `Escape` amount to escaping each character on its own. */
  lemma {:induction false} EscapeIsPerChar(s: string)
    ensures Escape(s) == EscapedChars(s)
  {
    ReplaceAllOneChar(s, '\\', "\\\\");
    ReplaceAllOneChar(Expand(s, '\\', "\\\\"), ' ', "\\ ");
    ExpandTwice(s);
  }

  lemma {:induction false} ExpandTwice(s: string)
    ensures Expand(Expand(s, '\\', "\\\\"), ' ', "\\ ") == EscapedChars(s)
  {
    if s != [] {
      var head := if s[0] == '\\' then "\\\\" else [s[0]];
      assert Expand(s, '\\', "\\\\") == head + Expand(s[1..], '\\', "\\\\");
      ExpandAppend(head, Expand(s[1..], '\\', "\\\\"), ' ', "\\ ");
      ExpandTwice(s[1..]);
    }
  }

  /** After `Escape`, every space stands right behind a backslash. */
  lemma {:induction false} EscapedSpacesAreEscaped(s: string)
    ensures forall i | 0 <= i < |EscapedChars(s)| && EscapedChars(s)[i] == ' ' :: i > 0 && EscapedChars(s)[i - 1] == '\\'
  {
    if s != [] {
      EscapedSpacesAreEscaped(s[1..]);
      var h, t := EscapeChar(s[0]), EscapedChars(s[1..]);
      assert EscapedChars(s) == h + t;
      forall i | 0 <= i < |h + t| && (h + t)[i] == ' '
        ensures i > 0 && (h + t)[i - 1] == '\\'
      {
        if i >= |h| {
          assert (h + t)[i] == t[i - |h|];
          if i - |h| > 0 {
            assert (h + t)[i - 1] == t[i - |h| - 1];
          }
        }
      }
    }
  }

  /** `Escape` read character by character, with only the spaces escaped */
  function SpacesEscaped(s: string): string {
    Expand(s, ' ', "\\ ")
  }

  /** The first pass of `Unescape` undoes the doubled backslashes of `Escape`. */
  lemma {:induction false} CollapseDoubledBackslashes(s: string)
    ensures ReplaceAll(EscapedChars(s), "\\\\", "\\") == SpacesEscaped(s)
  {
    if s != [] {
      CollapseDoubledBackslashes(s[1..]);
      CollapseEscapedChar(s[0], EscapedChars(s[1..]));
    }
  }

  /** The first pass of `Unescape` on one escaped character: a doubled
      backslash collapses, anything else is kept. */
  lemma CollapseEscapedChar(c: char, t: string)
    ensures ReplaceAll(EscapeChar(c) + t, "\\\\", "\\") == (if c == ' ' then "\\ " else [c]) + ReplaceAll(t, "\\\\", "\\")
  {
    if c == '\\' {
      assert (EscapeChar(c) + t)[..2] == "\\\\";
      assert (EscapeChar(c) + t)[2..] == t;
    } else if c == ' ' {
      var u := EscapeChar(c) + t;
      assert u[1] == ' ';
      ReplaceAllNoMatchAtHead(u, "\\\\", "\\");
      assert u[1..] == [' '] + t;
      ReplaceAllNoMatchAtHead([' '] + t, "\\\\", "\\");
      assert ([' '] + t)[1..] == t;
    } else {
      var u := [c] + t;
      assert !StartsWith(u, "\\\\") by {
        assert u[0] == c;
      }
      ReplaceAllNoMatchAtHead(u, "\\\\", "\\");
      assert u[1..] == t;
    }
  }

  /** The second pass of `Unescape` undoes the escaped spaces. */
  lemma {:induction false} UnescapeSpaces(s: string)
    ensures ReplaceAll(SpacesEscaped(s), "\\ ", " ") == s
  {
    if s != [] {
      var t := SpacesEscaped(s[1..]);
      UnescapeSpaces(s[1..]);
      if s[0] == ' ' {
        assert SpacesEscaped(s) == "\\ " + t;
        assert ("\\ " + t)[..2] == "\\ ";
        assert ("\\ " + t)[2..] == t;
      } else {
        assert SpacesEscaped(s) == [s[0]] + t;
        assert t == [] || t[0] != ' ' by {
          if s[1..] != [] {
            assert t == (if s[1] == ' ' then "\\ " else [s[1]]) + SpacesEscaped(s[2..]);
          }
        }
        assert |[s[0]] + t| < 2 || ([s[0]] + t)[1] != ' ';
        ReplaceAllNoMatchAtHead([s[0]] + t, "\\ ", " ");
        assert ([s[0]] + t)[1..] == t;
      }
      assert [s[0]] + s[1..] == s;
    }
  }

  /** Round trip: `Unescape` undoes `Escape` on every string. */
  lemma UnescapeEscape(s: string)
    ensures Unescape(Escape(s)) == s
  {
    EscapeIsPerChar(s);
    CollapseDoubledBackslashes(s);
    UnescapeSpaces(s);
  }

  /** `Escape` adds exactly one character per backslash and per space. */
  lemma {:induction false} EscapeLength(s: string)
    ensures |Escape(s)| == |s| + Count(s, '\\') + Count(s, ' ')
  {
    EscapeIsPerChar(s);
    EscapedCharsLength(s);
  }

  lemma {:induction false} EscapedCharsLength(s: string)
    ensures |EscapedChars(s)| == |s| + Count(s, '\\') + Count(s, ' ')
  {
    if s != [] {
      EscapedCharsLength(s[1..]);
    }
  }

  // ---------------------------------------------------------------------------
  // Quoting and path conversion
  // ---------------------------------------------------------------------------

  /** The characters that make a command-line argument need quotes */
  predicate NeedsQuotes(arg: string) {
    ' ' in arg || '\t' in arg || ';' in arg || '&' in arg
  }

  /** `QuoteIfNeeded`: an argument already starting with a double quote, or
      holding none of space, tab, `;` and `&`, is returned as it is; any
      other is wrapped in double quotes. */
  function QuoteIfNeeded(arg: string): (r: string)
    ensures r == arg || r == "\"" + arg + "\""
    ensures r == arg <==> StartsWith(arg, "\"") || !NeedsQuotes(arg)
    ensures StartsWith(r, "\"") || !NeedsQuotes(r)
  {
    if StartsWith(arg, "\"") then arg
    else if !NeedsQuotes(arg) then arg
    else "\"" + arg + "\""
  }

  /** Quoting twice is quoting once. */
  lemma QuoteIfNeededIdempotent(arg: string)
    ensures QuoteIfNeeded(QuoteIfNeeded(arg)) == QuoteIfNeeded(arg)
  {
  }

  /** `ConvertPathWindowsToPosix`: backslashes become slashes, then the
      path is quoted if needed. */
  function ConvertPathWindowsToPosix(path: string): (r: string)
    ensures '\\' !in r
    ensures var slashed := ReplaceChar(path, '\\', '/');
      && (r == slashed || r == "\"" + slashed + "\"")
      && (r == slashed <==> StartsWith(slashed, "\"") || !NeedsQuotes(slashed))
  {
    QuoteIfNeeded(ReplaceChar(path, '\\', '/'))
  }

  /** `ConvertPathWindowsToGccDependency`: backslashes become slashes, then
      the path is escaped. */
  function ConvertPathWindowsToGccDependency(path: string): (r: string)
    ensures Unescape(r) == ReplaceChar(path, '\\', '/')
    ensures |r| == |path| + Count(ReplaceChar(path, '\\', '/'), ' ')
  {
    var slashed := ReplaceChar(path, '\\', '/');
    UnescapeEscape(slashed);
    EscapeLength(slashed);
    NoCountOfAbsent(slashed, '\\');
    Escape(slashed)
  }

  lemma {:induction false} NoCountOfAbsent(s: string, c: char)
    requires c !in s
    ensures Count(s, c) == 0
  {
    if s != [] {
      NoCountOfAbsent(s[1..], c);
    }
  }

  /** `ConvertPathPosixToWindows`: slashes become backslashes, then each
      `\\` (scanning left to right) is collapsed to one `\`. */
  function ConvertPathPosixToWindows(path: string): (r: string)
    ensures '/' !in r
    ensures |r| <= |path|
  {
    var slashed := ReplaceChar(path, '/', '\\');
    ReplaceAllKeepsOut(slashed, "\\\\", "\\", '/');
    ReplaceAllShrinks(slashed, "\\\\", "\\");
    ReplaceAll(slashed, "\\\\", "\\")
  }

  // ---------------------------------------------------------------------------
  // Dependency files
  // ---------------------------------------------------------------------------

  /** The character at `j` is a space that no backslash escapes: it ends a file name. */
  predicate UnescapedSpaceAt(line: string, j: int) {
    0 <= j < |line| && line[j] == ' ' && (j == 0 || line[j - 1] != '\\')
  }

  /** The first unescaped space at or after `from`, or the end of the line */
  function EndOfFilenameFrom(line: string, from: nat): (e: nat)
    requires from <= |line|
    ensures from <= e <= |line|
    ensures forall j | from <= j < e :: !UnescapedSpaceAt(line, j)
    ensures e < |line| ==> UnescapedSpaceAt(line, e)
    decreases |line| - from
  {
    if from == |line| || UnescapedSpaceAt(line, from) then from else EndOfFilenameFrom(line, from + 1)
  }

  /** Where the first file name of `line` ends */
  function EndOfFilename(line: string): nat {
    EndOfFilenameFrom(line, 0)
  }

  /** The end of the first file name is the only index with no unescaped
      space before it and an unescaped space (or the end of the line) at it. */
  lemma EndOfFilenameUnique(line: string, e: nat)
    requires e <= |line|
    requires forall j | 0 <= j < e :: !UnescapedSpaceAt(line, j)
    requires e < |line| ==> UnescapedSpaceAt(line, e)
    ensures EndOfFilename(line) == e
  {
  }

  /** The file names of a line, as the loop of `ParseDependencyLine` takes
      them: up to the first unescaped space, unescaped and converted to a
      Windows path, blank names skipped, the rest of the line trimmed. */
  function LineDependencies(line: string): seq<string>
    decreases |line|
  {
    if IsBlank(line) then []
    else
      var end := EndOfFilename(line);
      NameDependency(line[..end]) + (if end == |line| then [] else LineDependencies(Trim(line[end + 1..])))
  }

  /** What one file name of a dependency line contributes: nothing when it is
      blank, else the name unescaped and converted to a Windows path */
  function NameDependency(name: string): seq<string> {
    if IsBlank(name) then [] else [ConvertPathPosixToWindows(Unescape(name))]
  }

  /** One step of the loop of `ParseDependencyLine`: the first name, then the rest of the line */
  lemma LineDependenciesStep(line: string, end: nat)
    requires !IsBlank(line) && end == EndOfFilename(line) && end < |line|
    ensures LineDependencies(line) == NameDependency(line[..end]) + LineDependencies(Trim(line[end + 1..]))
  {
  }

  /** The last step of that loop: a line with no unescaped space is one name */
  lemma LineDependenciesLast(line: string)
    requires !IsBlank(line) && EndOfFilename(line) == |line|
    ensures LineDependencies(line) == NameDependency(line)
  {
    assert line[..|line|] == line;
  }

  /** A file name as a dependency line holds it: not empty, no white space
      at either end, no space left unescaped, and no trailing backslash
      that would escape the space after it */
  predicate PlainName(name: string) {
    && name != []
    && !IsWhiteSpace(name[0]) && !IsWhiteSpace(name[|name| - 1])
    && name[|name| - 1] != '\\'
    && forall j | 0 <= j < |name| :: !UnescapedSpaceAt(name, j)
  }

  /** File names written on one line, separated by single spaces */
  function JoinNames(names: seq<string>): string
    decreases |names|
  {
    if names == [] then ""
    else if |names| == 1 then names[0]
    else names[0] + " " + JoinNames(names[1..])
  }

  /** Each name unescaped and converted to a Windows path */
  function ConvertedNames(names: seq<string>): seq<string>
    decreases |names|
  {
    if names == [] then [] else [ConvertPathPosixToWindows(Unescape(names[0]))] + ConvertedNames(names[1..])
  }

  /** A joined line starts with its first name's first character and ends
      with its last name's last character. */
  lemma {:induction false} JoinNamesEnds(names: seq<string>)
    requires names != [] && forall i | 0 <= i < |names| :: names[i] != []
    ensures var line := JoinNames(names);
      && line != []
      && line[0] == names[0][0]
      && line[|line| - 1] == names[|names| - 1][|names[|names| - 1]| - 1]
    decreases |names|
  {
    if |names| > 1 {
      JoinNamesEnds(names[1..]);
    }
  }

  /** Trimming a string with no white space at its ends keeps it. */
  lemma TrimKeeps(s: string)
    requires s != [] && !IsWhiteSpace(s[0]) && !IsWhiteSpace(s[|s| - 1])
    ensures Trim(s) == s
  {
    assert TrimStart(s) == s;
    assert TrimEnd(s) == s;
  }

  /** The first file name of a joined line ends at the space after it. */
  lemma FirstNameEnds(names: seq<string>)
    requires |names| > 1 && PlainName(names[0])
    ensures var line := JoinNames(names);
      && EndOfFilename(line) == |names[0]| < |line|
      && line[..|names[0]|] == names[0]
      && line[|names[0]| + 1..] == JoinNames(names[1..])
  {
    var line := JoinNames(names);
    var n := |names[0]|;
    assert line == names[0] + " " + JoinNames(names[1..]);
    forall j | 0 <= j < n
      ensures !UnescapedSpaceAt(line, j)
    {
      assert line[j] == names[0][j] && (j == 0 || line[j - 1] == names[0][j - 1]);
      assert !UnescapedSpaceAt(names[0], j);
    }
    assert line[n] == ' ' && line[n - 1] == names[0][n - 1];
    EndOfFilenameUnique(line, n);
    assert line[..n] == names[0];
    assert line[n + 1..] == JoinNames(names[1..]);
  }

  /** Round trip: the loop of `ParseDependencyLine` reads the names of a
      line written as names separated by single spaces back one by one,
      in order, each unescaped and converted to a Windows path. */
  lemma {:induction false} LineDependenciesOfJoin(names: seq<string>)
    requires forall i | 0 <= i < |names| :: PlainName(names[i])
    ensures LineDependencies(JoinNames(names)) == ConvertedNames(names)
    decreases |names|
  {
    if names == [] {
    } else if |names| == 1 {
      LineDependenciesOfOne(names[0]);
      assert names[1..] == [];
    } else {
      LineDependenciesOfJoin(names[1..]);
      LineDependenciesOfFirst(names);
    }
  }

  /** A line of one name gives that name. */
  lemma LineDependenciesOfOne(name: string)
    requires PlainName(name)
    ensures LineDependencies(name) == NameDependency(name) == [ConvertPathPosixToWindows(Unescape(name))]
  {
    assert !IsBlank(name) by { assert !IsWhiteSpace(name[0]); }
    EndOfFilenameUnique(name, |name|);
    LineDependenciesLast(name);
  }

  /** A joined line gives its first name, then what the rest of the names give. */
  lemma {:induction false} LineDependenciesOfFirst(names: seq<string>)
    requires |names| > 1 && forall i | 0 <= i < |names| :: PlainName(names[i])
    ensures LineDependencies(JoinNames(names)) == NameDependency(names[0]) + LineDependencies(JoinNames(names[1..]))
    ensures NameDependency(names[0]) == [ConvertPathPosixToWindows(Unescape(names[0]))]
  {
    var line := JoinNames(names);
    var rest := JoinNames(names[1..]);
    FirstNameEnds(names);
    JoinNamesEnds(names[1..]);
    TrimKeeps(rest);
    assert !IsBlank(line) by { assert line[0] == names[0][0]; }
    assert !IsBlank(names[0]) by { assert !IsWhiteSpace(names[0][0]); }
    LineDependenciesStep(line, |names[0]|);
  }

  /** No string of a list holds a `/`. */
  predicate NoSlashes(paths: seq<string>) {
    forall i | 0 <= i < |paths| :: '/' !in paths[i]
  }

  /** Every dependency read from a line is a Windows path: no `/` is left. */
  lemma {:induction false} LineDependenciesWindowsPaths(line: string)
    ensures NoSlashes(LineDependencies(line))
    decreases |line|
  {
    if !IsBlank(line) {
      var end := EndOfFilename(line);
      var first := NameDependency(line[..end]);
      assert NoSlashes(first);
      if end < |line| {
        var rest := Trim(line[end + 1..]);
        LineDependenciesWindowsPaths(rest);
        LineDependenciesStep(line, end);
        NoSlashesAppend(first, LineDependencies(rest));
      } else {
        LineDependenciesLast(line);
        assert line[..end] == line;
      }
    }
  }

  lemma NoSlashesAppend(a: seq<string>, b: seq<string>)
    requires NoSlashes(a) && NoSlashes(b)
    ensures NoSlashes(a + b)
  {
    assert forall i | 0 <= i < |a + b| :: (a + b)[i] == if i < |a| then a[i] else b[i - |a|];
  }

  /** Drops the one trailing backslash that marks a continued line */
  function DropContinuation(line: string): string {
    if EndsWith(line, "\\") then line[..|line| - 1] else line
  }

  /** What `ParseDependencyLine` appends for `line` */
  function DependencyLine(line: string): seq<string> {
    if IsBlank(line) then [] else LineDependencies(DropContinuation(line))
  }

  /** `ParseDependencyLine` on a line of names, with or without the
      trailing backslash of a continued line, appends exactly those names,
      converted, in order. */
  lemma {:induction false} DependencyLineOfJoin(names: seq<string>)
    requires forall i | 0 <= i < |names| :: PlainName(names[i])
    ensures DependencyLine(JoinNames(names)) == ConvertedNames(names)
    ensures DependencyLine(JoinNames(names) + "\\") == ConvertedNames(names)
  {
    var line := JoinNames(names);
    LineDependenciesOfJoin(names);
    JoinedLineShape(names);
    ContinuedLine(line);
  }

  /** A joined line is blank only when empty, and never ends with a backslash. */
  lemma {:induction false} JoinedLineShape(names: seq<string>)
    requires forall i | 0 <= i < |names| :: PlainName(names[i])
    ensures var line := JoinNames(names);
      && (IsBlank(line) <==> names == [])
      && DropContinuation(line) == line
  {
    var line := JoinNames(names);
    if names == [] {
      assert line == [];
    } else {
      var last := names[|names| - 1];
      var lastChar := last[|last| - 1];
      assert line != [] && !IsWhiteSpace(line[0]) && line[|line| - 1] == lastChar && lastChar != '\\' by {
        JoinNamesEnds(names);
        assert PlainName(names[0]) && PlainName(last);
      }
      LineShape(line, lastChar);
    }
  }

  /** A line that starts with a character other than white space and ends
      with one other than a backslash is not blank and is not continued. */
  lemma LineShape(line: string, lastChar: char)
    requires line != [] && !IsWhiteSpace(line[0])
    requires line[|line| - 1] == lastChar && lastChar != '\\'
    ensures !IsBlank(line) && DropContinuation(line) == line
  {
    assert line[|line| - 1..] != "\\" by {
      assert line[|line| - 1..][0] == lastChar;
    }
  }

  /** The backslash that continues a line is dropped, whatever comes before it. */
  lemma ContinuedLine(line: string)
    ensures !IsBlank(line + "\\") && DropContinuation(line + "\\") == line
  {
    var continued := line + "\\";
    assert continued[|continued| - 1] == '\\';
    assert continued[..|line|] == line;
  }

  /** No dependency a line adds holds a `/`. */
  lemma DependencyLineWindowsPaths(line: string)
    ensures NoSlashes(DependencyLine(line))
  {
    if !IsBlank(line) {
      LineDependenciesWindowsPaths(DropContinuation(line));
    }
  }

  /** The separators of the entries of a dependency file, in the order
      `String.Split` tries them at each position */
  const Separators: seq<string> := [": \\", " \\", ": "]

  /** `Environment.NewLine` on the Windows host the build runs on */
  const NewLine: string := "\r\n"

  /** The length of the first separator `s` starts with, or 0 */
  function SeparatorAt(s: string): nat {
    if StartsWith(s, Separators[0]) then |Separators[0]|
    else if StartsWith(s, Separators[1]) then |Separators[1]|
    else if StartsWith(s, Separators[2]) then |Separators[2]|
    else 0
  }

  /** `String.Split(string[], None)`: `current` is the entry read so far */
  function SplitOn(s: string, current: string): (r: seq<string>)
    ensures r != []
    decreases |s|
  {
    if s == [] then [current]
    else
      var n := SeparatorAt(s);
      if n > 0 then [current] + SplitOn(s[n..], "") else SplitOn(s[1..], current + [s[0]])
  }

  /** `StringSplitOptions.RemoveEmptyEntries` */
  function RemoveEmpty(entries: seq<string>): (r: seq<string>)
    ensures forall i | 0 <= i < |r| :: r[i] != [] && r[i] in entries
  {
    if entries == [] then []
    else (if entries[0] == [] then [] else [entries[0]]) + RemoveEmpty(entries[1..])
  }

  /** The non-empty entries of a dependency file, once its line breaks are gone */
  function Entries(contents: string): seq<string> {
    RemoveEmpty(SplitOn(ReplaceAll(contents, NewLine, ""), ""))
  }

  /** An entry with any `: ` and ` \` removed, then trimmed */
  function CleanEntry(entry: string): string {
    Trim(ReplaceAll(ReplaceAll(entry, ": ", ""), " \\", ""))
  }

  /** The output file `Parse` records: only the first entry can name it. */
  function OutputFileOf(entries: seq<string>): Option<string> {
    if entries != [] && !IsBlank(CleanEntry(entries[0])) then Some(Unescape(CleanEntry(entries[0])))
    else None
  }

  /** The dependencies `Parse` records: those of every entry after the first */
  function DependenciesOf(entries: seq<string>): seq<string> {
    if |entries| <= 1 then []
    else DependenciesOf(entries[..|entries| - 1]) + DependencyLine(CleanEntry(entries[|entries| - 1]))
  }

  /** What entry `i` adds to the dependencies: nothing for the first entry */
  function EntryDependencies(entries: seq<string>, i: nat): seq<string>
    requires i < |entries|
  {
    if i == 0 then [] else DependencyLine(CleanEntry(entries[i]))
  }

  /** One step of the loop of `Parse` */
  lemma DependenciesOfStep(entries: seq<string>, i: nat)
    requires i < |entries|
    ensures DependenciesOf(entries[..i + 1]) == DependenciesOf(entries[..i]) + EntryDependencies(entries, i)
  {
    assert entries[..i + 1][..i] == entries[..i];
  }

  /** No dependency `Parse` records holds a `/`: all are Windows paths. */
  lemma {:induction false} DependenciesWindowsPaths(entries: seq<string>)
    ensures NoSlashes(DependenciesOf(entries))
    decreases |entries|
  {
    if |entries| > 1 {
      var init := entries[..|entries| - 1];
      DependenciesWindowsPaths(init);
      DependencyLineWindowsPaths(CleanEntry(entries[|entries| - 1]));
      NoSlashesAppend(DependenciesOf(init), DependencyLine(CleanEntry(entries[|entries| - 1])));
    }
  }

  /** The loop of `Parse` keeps its invariant: entry `i`'s dependencies are
      appended to those of the entries before it. */
  lemma ParseStep(start: seq<string>, before: seq<string>, after: seq<string>, entries: seq<string>, i: nat)
    requires i < |entries|
    requires before == start + DependenciesOf(entries[..i])
    requires after == before + EntryDependencies(entries, i)
    ensures after == start + DependenciesOf(entries[..i + 1])
  {
    DependenciesOfStep(entries, i);
    AppendAssoc(start, DependenciesOf(entries[..i]), EntryDependencies(entries, i));
  }

  /** `DependencyParser`: the output file and the dependencies read from one
      dependency file. `outputFile` is `None` while it is the default, empty
      task item. */
  class DependencyParser {
    var outputFile: Option<string>
    var dependencies: seq<string>

    /** Reads the file's contents (`File.ReadAllText` is not modelled) */
    constructor (contents: string)
      ensures outputFile == OutputFileOf(Entries(contents))
      ensures dependencies == DependenciesOf(Entries(contents))
    {
      outputFile := None;
      dependencies := [];
      new;
      Parse(contents);
    }

    /** `Parse`: entry 0, if not blank, is the output file; every later
        non-blank entry goes to `ParseDependencyLine`. */
    method Parse(contents: string)
      modifies this
      ensures outputFile == if OutputFileOf(Entries(contents)).Some? then OutputFileOf(Entries(contents)) else old(outputFile)
      ensures dependencies == old(dependencies) + DependenciesOf(Entries(contents))
    {
      var text := ReplaceAll(contents, NewLine, "");
      var entries := RemoveEmpty(SplitOn(text, ""));
      var i := 0;
      while i < |entries|
        invariant 0 <= i <= |entries|
        invariant outputFile == if i > 0 && OutputFileOf(entries).Some? then OutputFileOf(entries) else old(outputFile)
        invariant dependencies == old(dependencies) + DependenciesOf(entries[..i])
      {
        ghost var before := dependencies;
        ParseEntry(entries, i);
        ParseStep(old(dependencies), before, dependencies, entries, i);
        i := i + 1;
      }
      TakeAll(entries);
    }

    /** The body of the loop of `Parse` for entry `i`: the entry without its
        `: ` and ` \` separators and trimmed; if that is not blank, entry 0
        names the output file and any later one is a dependency line. */
    method ParseEntry(entries: seq<string>, i: nat)
      requires i < |entries|
      modifies this
      ensures outputFile == if i == 0 && OutputFileOf(entries).Some? then OutputFileOf(entries) else old(outputFile)
      ensures dependencies == old(dependencies) + EntryDependencies(entries, i)
    {
      var line := CleanEntry(entries[i]);
      if !IsBlank(line) {
        if i == 0 {
          outputFile := Some(Unescape(line));
        } else {
          ParseDependencyLine(line);
        }
      }
    }

    /** `ParseDependencyLine`: appends the line's file names, in order. */
    method ParseDependencyLine(line: string)
      modifies this
      ensures outputFile == old(outputFile)
      ensures dependencies == old(dependencies) + DependencyLine(line)
    {
      if IsBlank(line) {
        return;
      }
      var rest := DropContinuation(line);
      assert dependencies + LineDependencies(rest) == old(dependencies) + DependencyLine(line);
      // the source calls `line.Trim()` here and discards the result
      while |rest| > 0 && !IsBlank(rest)
        invariant outputFile == old(outputFile)
        invariant dependencies + LineDependencies(rest) == old(dependencies) + DependencyLine(line)
        decreases |rest|
      {
        ghost var before := dependencies;
        var end := AppendFirstName(rest);
        if end == |rest| {
          LineDependenciesLast(rest);
          break;
        }
        ghost var name := rest[..end];
        LineDependenciesStep(rest, end);
        rest := Trim(rest[end + 1..]);
        AppendAssoc(before, NameDependency(name), LineDependencies(rest));
      }
    }

    /** One pass of the loop of `ParseDependencyLine`: finds the end of the
        first file name and appends that name unless it is blank. */
    method AppendFirstName(rest: string) returns (end: nat)
      modifies this
      ensures end == EndOfFilename(rest) && end <= |rest|
      ensures outputFile == old(outputFile)
      ensures dependencies == old(dependencies) + NameDependency(rest[..end])
    {
      end := FindEndOfFilename(rest);
      var filename := rest[..end];
      if !IsBlank(filename) {
        dependencies := dependencies + [ConvertPathPosixToWindows(Unescape(filename))];
      }
    }

    /** `FindEndOfFilename`: scans for the first space not escaped by the
        character before it, tracking the escape with a flag. */
    static method FindEndOfFilename(line: string) returns (e: nat)
      ensures e <= |line|
      ensures forall j | 0 <= j < e :: !UnescapedSpaceAt(line, j)
      ensures e < |line| ==> line[e] == ' ' && (e == 0 || line[e - 1] != '\\')
      ensures e == EndOfFilename(line)
    {
      var i := 0;
      var escapedSequence := false;
      while i < |line|
        invariant 0 <= i <= |line|
        invariant escapedSequence == (i > 0 && line[i - 1] == '\\')
        invariant forall j | 0 <= j < i :: !UnescapedSpaceAt(line, j)
      {
        if line[i] == '\\' {
          escapedSequence := true;
        } else if line[i] == ' ' && !escapedSequence {
          break;
        } else if escapedSequence {
          escapedSequence := false;
        }
        i := i + 1;
      }
      e := i;
      EndOfFilenameUnique(line, e);
    }
  }
}
