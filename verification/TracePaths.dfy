/** The names of the per-process trace files: ConfigReader.ExpandPlaceholders in the profiler, and the
    glob and merged path with which NdjsonMerger finds them again.

    `FindsEveryProcess` says exactly for which templates the tool finds each process's file, and
    `MergedIff` when it would take its own merged file for one. */
module TracePaths {
  const SESSION_ID := "{sessionId}"
  const PID := "{pid}"

  // ---- Replacing ----

  predicate StartsWith(s: string, pattern: string) {
    |pattern| <= |s| && s[..|pattern|] == pattern
  }

  /** Every occurrence from left to right, not looking again into what was put in. */
  function ReplaceAll(s: string, pattern: string, text: string): string
    requires pattern != ""
  {
    if s == "" then ""
    else if StartsWith(s, pattern) then text + ReplaceAll(s[|pattern|..], pattern, text)
    else [s[0]] + ReplaceAll(s[1..], pattern, text)
  }

  /** The first occurrence at or after `from`, or the length of `s`. */
  function Find(s: string, pattern: string, from: nat): (pos: nat)
    requires from <= |s| && pattern != ""
    ensures from <= pos <= |s|
    ensures pos < |s| ==> StartsWith(s[pos..], pattern)
    ensures forall i :: from <= i < pos ==> !StartsWith(s[i..], pattern)
    decreases |s| - from
  {
    if from == |s| || StartsWith(s[from..], pattern) then from else Find(s, pattern, from + 1)
  }

  lemma {:induction false} SkipTo(s: string, pattern: string, text: string, from: nat, pos: nat)
    requires pattern != "" && from <= pos <= |s|
    requires forall i :: from <= i < pos ==> !StartsWith(s[i..], pattern)
    ensures ReplaceAll(s[from..], pattern, text) == s[from..pos] + ReplaceAll(s[pos..], pattern, text)
    decreases pos - from
  {
    if from < pos {
      SkipTo(s, pattern, text, from + 1, pos);
      assert s[from..][1..] == s[from + 1..];
      OneBefore(s, from, pos, ReplaceAll(s[pos..], pattern, text));
    }
  }

  lemma OneBefore(s: string, from: nat, pos: nat, rest: string)
    requires from < pos <= |s|
    ensures [s[from]] + (s[from + 1..pos] + rest) == s[from..pos] + rest
  {
  }

  /** The first occurrence is replaced and the same done with what follows it; without one nothing changes. */
  lemma ReplacesFirst(pattern: string, text: string, before: string, after: string)
    requires pattern != ""
    requires forall i, end :: 0 <= i < |before| && i + |pattern| == end <= |before + pattern + after| ==>
               (before + pattern + after)[i..end] != pattern
    ensures ReplaceAll(before + pattern + after, pattern, text) == before + text + ReplaceAll(after, pattern, text)
    ensures ReplaceAll(before, pattern, text) == before
  {
    var s := before + pattern + after;
    assert s[|before|..][..|pattern|] == pattern;
    forall i | 0 <= i < |before| ensures !StartsWith(s[i..], pattern) && !StartsWith(before[i..], pattern) {
      if i + |pattern| <= |s| {
        assert s[i..][..|pattern|] == s[i..i + |pattern|];
      }
      if i + |pattern| <= |before| {
        assert before[i..][..|pattern|] == s[i..i + |pattern|];
      }
    }
    SkipTo(s, pattern, text, 0, |before|);
    assert s[0..] == s && s[|before|..][|pattern|..] == after;
    assert s[0..|before|] == before;
    SkipTo(before, pattern, text, 0, |before|);
    assert before[0..] == before && before[0..|before|] == before;
  }

  lemma Boundary(a: string, text: string, b: string)
    ensures (a + text + b)[|a| + |text|..] == b && (a + text + b)[..|a| + |text|] == a + text
  {
  }

  lemma Glue(s: string, from: nat, pos: nat, text: string, rest: string)
    requires from <= pos <= |s|
    ensures s[..from] + (s[from..pos] + (text + rest)) == (s[..pos] + text) + rest
  {
  }

  /** One replacement at `pos` moves the boundary between the finished part and the rest. */
  lemma ReplaceOne(s: string, pattern: string, text: string, from: nat, pos: nat)
    requires pattern != "" && from <= pos < |s| && StartsWith(s[pos..], pattern)
    requires forall i :: from <= i < pos ==> !StartsWith(s[i..], pattern)
    ensures pos + |pattern| <= |s|
    ensures var t := s[..pos] + text + s[pos + |pattern|..];
            s[..from] + ReplaceAll(s[from..], pattern, text)
            == t[..pos + |text|] + ReplaceAll(t[pos + |text|..], pattern, text)
  {
    var rest := s[pos + |pattern|..];
    SkipTo(s, pattern, text, from, pos);
    assert s[pos..][|pattern|..] == rest;
    Glue(s, from, pos, text, ReplaceAll(rest, pattern, text));
    Boundary(s[..pos], text, rest);
  }

  /** One of the two loops of ExpandPlaceholders, replacing inside the string. */
  method Replace(path: string, pattern: string, text: string) returns (result: string)
    requires pattern != ""
    ensures result == ReplaceAll(path, pattern, text)
  {
    result := path;
    ghost var from: nat := 0;
    var pos := Find(result, pattern, 0);
    while pos < |result|
      invariant from <= |result| && pos == Find(result, pattern, from)
      invariant ReplaceAll(path, pattern, text) == result[..from] + ReplaceAll(result[from..], pattern, text)
      decreases |result| - pos
    {
      ReplaceOne(result, pattern, text, from, pos);
      result := result[..pos] + text + result[pos + |pattern|..];
      from := pos + |text|;
      pos := Find(result, pattern, pos + |text|);
    }
    SkipTo(result, pattern, text, from, pos);
    assert result[..from] + (result[from..pos] + "") == result;
  }

  /** std::to_string of a process id. */
  function Decimal(n: nat): (s: string)
    ensures s != "" && forall i :: 0 <= i < |s| ==> '0' <= s[i] <= '9'
  {
    if n < 10 then [Digit(n)] else Decimal(n / 10) + [Digit(n % 10)]
  }

  function Digit(d: nat): char
    requires d < 10
  {
    '0' + d as char
  }

  /** The number that decimal digits stand for. */
  function Number(s: string): int {
    if s == "" then 0 else Number(s[..|s| - 1]) * 10 + (s[|s| - 1] as int - '0' as int)
  }

  /** The digits of a number, read back, are the number, and there is no digit too many. */
  lemma {:induction false} DecimalReads(n: nat)
    ensures Number(Decimal(n)) == n
    ensures n > 0 ==> Decimal(n)[0] != '0'
    ensures n == 0 ==> Decimal(n) == "0"
  {
    if n >= 10 {
      DecimalReads(n / 10);
      assert Decimal(n)[..|Decimal(n)| - 1] == Decimal(n / 10);
    }
  }

  function Expanded(path: string, sessionId: string, pid: nat): string {
    ReplaceAll(ReplaceAll(path, SESSION_ID, sessionId), PID, Decimal(pid))
  }

  method ExpandPlaceholders(path: string, sessionId: string, pid: nat) returns (result: string)
    ensures result == Expanded(path, sessionId, pid)
  {
    result := Replace(path, SESSION_ID, sessionId);
    result := Replace(result, PID, Decimal(pid));
  }

  // ---- The tool's side ----

  function Separator(c: char): bool {
    c == '_' || c == '-'
  }

  /** Without the placeholder at `at`, and without one separator beside it. */
  function CutOut(path: string, at: nat): string
    requires at + |PID| <= |path|
  {
    if 0 < at && Separator(path[at - 1]) then path[..at - 1] + path[at + |PID|..]
    else if at + |PID| < |path| && Separator(path[at + |PID|]) then path[..at] + path[at + |PID| + 1..]
    else path[..at] + path[at + |PID|..]
  }

  /** ComputeMergedPath. */
  function MergedPath(template: string, sessionId: string): string {
    var path := ReplaceAll(template, SESSION_ID, sessionId);
    var at := Find(path, PID, 0);
    if at == |path| then path else CutOut(path, at)
  }

  function GlobPattern(template: string, sessionId: string): string {
    ReplaceAll(ReplaceAll(template, SESSION_ID, sessionId), PID, "*")
  }

  /** File name matching with `*` and `?`. */
  predicate GlobMatch(pattern: string, name: string)
    decreases |pattern|, |name|
  {
    if pattern == "" then name == ""
    else if pattern[0] == '*' then GlobMatch(pattern[1..], name) || (name != "" && GlobMatch(pattern, name[1..]))
    else name != "" && (pattern[0] == '?' || pattern[0] == name[0]) && GlobMatch(pattern[1..], name[1..])
  }

  /** The position after the last slash. */
  function FileStart(path: string): (k: nat)
    ensures k <= |path| && '/' !in path[k..]
    ensures 0 < k ==> path[k - 1] == '/'
  {
    if path == "" || path[|path| - 1] == '/' then |path|
    else
      var k := FileStart(path[..|path| - 1]);
      assert forall i :: k <= i < |path| - 1 ==> path[i] == path[..|path| - 1][k..][i - k];
      k
  }

  function DirectoryName(path: string): string {
    if FileStart(path) <= 1 then path[..FileStart(path)] else path[..FileStart(path) - 1]
  }

  function FileName(path: string): string {
    path[FileStart(path)..]
  }

  function Upper(c: char): char {
    if 'a' <= c <= 'z' then c - 'a' + 'A' else c
  }

  predicate EqualIgnoreCase(a: string, b: string) {
    |a| == |b| && forall i :: 0 <= i < |a| ==> Upper(a[i]) == Upper(b[i])
  }

  /** FindSessionOutputFiles keeps a file of the directory if it matches and is not the merged file. */
  predicate IsProcessFile(template: string, sessionId: string, file: string) {
    var glob := GlobPattern(template, sessionId);
    && DirectoryName(file) == DirectoryName(glob) != ""
    && GlobMatch(FileName(glob), FileName(file))
    && !EqualIgnoreCase(file, MergedPath(template, sessionId))
  }

  /** A path is its directory, a slash and its file name, in which there is no slash. */
  lemma DirectoryAndName(path: string)
    ensures '/' !in FileName(path)
    ensures var dir := DirectoryName(path);
            if '/' !in path then dir == "" && path == FileName(path)
            else if '/' !in path[1..] then dir == "/" && path == "/" + FileName(path)
            else path == dir + "/" + FileName(path)
  {
    var k := FileStart(path);
    assert path == path[..k] + path[k..];
    if 1 < k {
      assert path[1..][k - 2] == '/';
      assert path[..k] == path[..k - 1] + "/";
    } else if k == 1 {
      assert path[..1] == "/";
    }
  }

  /** Only letters from a to z differ from other characters in case alone. */
  lemma SameLetterIff(a: char, b: char)
    ensures EqualIgnoreCase([a], [b])
       <==> || a == b
            || ('a' <= a <= 'z' && b as int == a as int - 32)
            || ('a' <= b <= 'z' && a as int == b as int - 32)
  {
    assert [a][0] == a && [b][0] == b;
  }

  // ---- The glob matches ----

  lemma {:induction false} StarSkips(pattern: string, text: string, name: string)
    requires GlobMatch(pattern, name)
    ensures GlobMatch("*" + pattern, text + name)
  {
    assert ("*" + pattern)[1..] == pattern;
    if text == "" {
      assert text + name == name;
    } else {
      StarSkips(pattern, text[1..], name);
      assert (text + name)[1..] == text[1..] + name;
    }
  }

  /** Whatever replaces a placeholder is matched by the `*` in its place. */
  lemma {:induction false} GlobMatches(s: string, pattern: string, text: string)
    requires pattern != ""
    ensures GlobMatch(ReplaceAll(s, pattern, "*"), ReplaceAll(s, pattern, text))
  {
    if s == "" {
    } else if StartsWith(s, pattern) {
      GlobMatches(s[|pattern|..], pattern, text);
      StarSkips(ReplaceAll(s[|pattern|..], pattern, "*"), text, ReplaceAll(s[|pattern|..], pattern, text));
    } else {
      GlobMatches(s[1..], pattern, text);
    }
  }

  predicate Literal(s: string) {
    '*' !in s && '?' !in s
  }

  /** Without wildcards a pattern matches itself and nothing else. */
  lemma {:induction false} LiteralMatch(pattern: string, name: string)
    requires Literal(pattern)
    ensures GlobMatch(pattern, name) <==> pattern == name
    decreases |pattern|
  {
    if pattern != "" && name != "" {
      LiteralMatch(pattern[1..], name[1..]);
      assert pattern == [pattern[0]] + pattern[1..] && name == [name[0]] + name[1..];
    }
  }

  /** A leading star matches any beginning. */
  lemma {:induction false} StarMatch(pattern: string, name: string)
    ensures GlobMatch("*" + pattern, name) <==> exists k :: 0 <= k <= |name| && GlobMatch(pattern, name[k..])
    decreases |name|
  {
    assert ("*" + pattern)[1..] == pattern && name[0..] == name;
    if name != "" {
      StarMatch(pattern, name[1..]);
      forall k | 0 <= k <= |name| - 1 ensures name[1..][k..] == name[k + 1..] {
      }
      if k :| 0 <= k <= |name| && GlobMatch(pattern, name[k..]) {
        if 0 < k {
          assert name[1..][k - 1..] == name[k..];
        }
      }
    }
  }

  /** `name` begins with `before`, ends with `after`, and is long enough for both. */
  predicate Between(before: string, after: string, name: string) {
    |before| + |after| <= |name| && name[..|before|] == before && name[|name| - |after|..] == after
  }

  lemma BetweenNext(before: string, after: string, name: string)
    requires before != "" && name != ""
    ensures Between(before, after, name) <==> before[0] == name[0] && Between(before[1..], after, name[1..])
  {
    if |before| + |after| <= |name| {
      assert name[1..][|name| - 1 - |after|..] == name[|name| - |after|..];
      assert name[..|before|] == [name[0]] + name[1..][..|before| - 1];
      assert before == [before[0]] + before[1..];
    }
  }

  lemma EndsMatch(after: string, name: string)
    requires Literal(after)
    ensures GlobMatch("*" + after, name) <==> Between("", after, name)
  {
    StarMatch(after, name);
    if |after| <= |name| {
      LiteralMatch(after, name[|name| - |after|..]);
    }
    forall k | 0 <= k <= |name| && GlobMatch(after, name[k..]) ensures k == |name| - |after| && after == name[k..] {
      LiteralMatch(after, name[k..]);
    }
  }

  /** What the tool's glob matches when one process id stands in a file name: exactly the names with the
      template's beginning and its end. */
  lemma {:induction false} OneStarMatch(before: string, after: string, name: string)
    requires Literal(before) && Literal(after)
    ensures GlobMatch(before + ("*" + after), name) <==> Between(before, after, name)
    decreases |before|
  {
    if before == "" {
      assert before + ("*" + after) == "*" + after;
      EndsMatch(after, name);
    } else if name != "" {
      assert (before + ("*" + after))[1..] == before[1..] + ("*" + after);
      OneStarMatch(before[1..], after, name[1..]);
      BetweenNext(before, after, name);
    }
  }

  // ---- Directory and file name ----

  lemma {:induction false} NoSlash(s: string, pattern: string, text: string)
    requires pattern != "" && '/' !in s && '/' !in text
    ensures '/' !in ReplaceAll(s, pattern, text)
  {
    if s == "" {
    } else if StartsWith(s, pattern) {
      NoSlash(s[|pattern|..], pattern, text);
    } else {
      NoSlash(s[1..], pattern, text);
    }
  }

  lemma {:induction false} FileStartAt(directory: string, file: string)
    requires '/' !in file && (directory == "" || directory[|directory| - 1] == '/')
    ensures FileStart(directory + file) == |directory|
    decreases |file|
  {
    if file == "" {
      assert directory + file == directory;
    } else {
      var path := directory + file;
      assert path[|path| - 1] == file[|file| - 1];
      assert path[..|path| - 1] == directory + file[..|file| - 1];
      FileStartAt(directory, file[..|file| - 1]);
    }
  }

  lemma Apart(directory: string, file: string)
    ensures (directory + file)[..|directory|] == directory && (directory + file)[|directory|..] == file
  {
  }

  /** Replacing a placeholder that only occurs in the file name leaves the directory alone. */
  lemma InFileName(path: string, text: string)
    requires FileStart(path) <= Find(path, PID, 0) && '/' !in text
    ensures var start, replaced := FileStart(path), ReplaceAll(path, PID, text);
            && FileStart(replaced) == start <= |replaced|
            && replaced[..start] == path[..start]
            && replaced[start..] == ReplaceAll(path[start..], PID, text)
  {
    var start := FileStart(path);
    var file := ReplaceAll(path[start..], PID, text);
    assert path[0..] == path && path[0..start] == path[..start];
    SkipTo(path, PID, text, 0, start);
    NoSlash(path[start..], PID, text);
    FileStartAt(path[..start], file);
    Apart(path[..start], file);
  }

  // ---- The merged file is not one of them ----

  function Count(s: string, c: char): nat {
    if s == "" then 0 else (if s[0] == c then 1 else 0) + Count(s[1..], c)
  }

  lemma {:induction false} CountAppend(a: string, b: string, c: char)
    ensures Count(a + b, c) == Count(a, c) + Count(b, c)
  {
    if a == "" {
      assert a + b == b;
    } else {
      assert (a + b)[1..] == a[1..] + b;
      CountAppend(a[1..], b, c);
    }
  }

  lemma {:induction false} CountNone(s: string, c: char)
    requires c !in s
    ensures Count(s, c) == 0
  {
    if s != "" {
      CountNone(s[1..], c);
    }
  }

  function Occurrences(s: string): nat {
    if s == "" then 0
    else if StartsWith(s, PID) then 1 + Occurrences(s[|PID|..])
    else Occurrences(s[1..])
  }

  lemma CountPid(rest: string)
    ensures Count(PID + rest, '{') == 1 + Count(rest, '{')
  {
    CountAppend(PID, rest, '{');
    CountAppend("{", "pid}", '{');
    CountNone("pid}", '{');
    assert Count("{", '{') == 1 + Count("", '{');
    assert "{" + "pid}" == PID;
  }

  /** Every placeholder takes its brace with it. */
  lemma {:induction false} BracesLeft(s: string, text: string)
    requires '{' !in text
    ensures Count(ReplaceAll(s, PID, text), '{') + Occurrences(s) == Count(s, '{')
  {
    if s == "" {
    } else if StartsWith(s, PID) {
      var rest := s[|PID|..];
      BracesLeft(rest, text);
      assert s == PID + rest;
      CountPid(rest);
      CountAppend(text, ReplaceAll(rest, PID, text), '{');
      CountNone(text, '{');
    } else {
      BracesLeft(s[1..], text);
      var replaced := ReplaceAll(s[1..], PID, text);
      assert ([s[0]] + replaced)[1..] == replaced;
    }
  }

  lemma {:induction false} LengthLeft(s: string, text: string)
    ensures |ReplaceAll(s, PID, text)| == |s| + (|text| - 5) * Occurrences(s)
  {
    if s == "" {
    } else if StartsWith(s, PID) {
      LengthLeft(s[|PID|..], text);
    } else {
      LengthLeft(s[1..], text);
    }
  }

  lemma {:induction false} OccursIff(s: string, from: nat)
    requires from <= |s|
    ensures Occurrences(s[from..]) > 0 <==> Find(s, PID, from) < |s|
    decreases |s| - from
  {
    if from < |s| {
      assert s[from..][1..] == s[from + 1..];
      if !StartsWith(s[from..], PID) {
        OccursIff(s, from + 1);
      }
    }
  }

  /** Without the placeholder and one separator on either side. */
  lemma WithoutPid(before: string, after: string)
    ensures var path := before + (PID + after);
            && Count(path, '{') == Count(before, '{') + 1 + Count(after, '{')
            && |path| == |before| + 5 + |after|
            && Count(before + after, '{') == Count(before, '{') + Count(after, '{')
  {
    CountAppend(before, PID + after, '{');
    CountPid(after);
    CountAppend(before, after, '{');
  }

  lemma WithoutLast(s: string)
    requires s != "" && Separator(s[|s| - 1])
    ensures Count(s[..|s| - 1], '{') == Count(s, '{')
  {
    var front, last := s[..|s| - 1], s[|s| - 1];
    assert s == front + [last];
    CountAppend(front, [last], '{');
    CountNone([last], '{');
  }

  lemma CutWeighs(path: string, at: nat)
    requires at < |path| && StartsWith(path[at..], PID)
    ensures Count(CutOut(path, at), '{') + 1 == Count(path, '{') && |CutOut(path, at)| + 5 <= |path|
  {
    var before, after := path[..at], path[at + |PID|..];
    assert path == before + (PID + after);
    WithoutPid(before, after);
    if 0 < at && Separator(path[at - 1]) {
      WithoutLast(before);
      assert before[..at - 1] == path[..at - 1];
      CountAppend(path[..at - 1], after, '{');
    } else if at + |PID| < |path| && Separator(path[at + |PID|]) {
      assert after[1..] == path[at + |PID| + 1..];
      CountAppend(before, after[1..], '{');
    }
  }

  lemma MergedWeighs(template: string, sessionId: string)
    ensures var path := ReplaceAll(template, SESSION_ID, sessionId);
            var merged := MergedPath(template, sessionId);
            if Find(path, PID, 0) == |path| then merged == path
            else Count(merged, '{') + 1 == Count(path, '{') && |merged| + 5 <= |path|
  {
    var path := ReplaceAll(template, SESSION_ID, sessionId);
    if Find(path, PID, 0) < |path| {
      CutWeighs(path, Find(path, PID, 0));
    }
  }

  lemma {:induction false} CaseKeepsBraces(a: string, b: string)
    requires EqualIgnoreCase(a, b)
    ensures Count(a, '{') == Count(b, '{')
  {
    if a != "" {
      CaseKeepsBraces(a[1..], b[1..]);
    }
  }

  // ---- A placeholder in the directory ----

  predicate Directory(d: string) {
    d == "" || d[|d| - 1] == '/'
  }

  /** No placeholder straddles a slash. */
  lemma StartsInside(d: string, f: string)
    requires d != "" && Directory(d) && StartsWith(d + f, PID)
    ensures |PID| < |d| && StartsWith(d, PID)
  {
    assert forall i :: 0 <= i < |PID| ==> (d + f)[..|PID|][i] == (d + f)[i] == PID[i] != '/';
    assert (d + f)[|d| - 1] == '/';
    assert d[..|PID|] == (d + f)[..|PID|];
  }

  lemma {:induction false} ReplacesApart(d: string, f: string, text: string)
    requires Directory(d)
    ensures ReplaceAll(d + f, PID, text) == ReplaceAll(d, PID, text) + ReplaceAll(f, PID, text)
    ensures d != "" ==> ReplaceAll(d, PID, text) != "" && Directory(ReplaceAll(d, PID, text))
    decreases |d|
  {
    if d == "" {
      assert d + f == f;
    } else if StartsWith(d + f, PID) {
      StartsInside(d, f);
      assert (d + f)[|PID|..] == d[|PID|..] + f;
      ReplacesApart(d[|PID|..], f, text);
    } else {
      if |PID| <= |d| {
        assert (d + f)[..|PID|] == d[..|PID|];
      }
      assert (d + f)[1..] == d[1..] + f;
      ReplacesApart(d[1..], f, text);
    }
  }

  lemma ReplacedDirectory(path: string, text: string)
    requires '/' !in text
    ensures var d, replaced := ReplaceAll(path[..FileStart(path)], PID, text), ReplaceAll(path, PID, text);
            |d| <= |replaced| && FileStart(replaced) == |d| && replaced[..|d|] == d
  {
    var d, f := path[..FileStart(path)], path[FileStart(path)..];
    assert path == d + f;
    ReplacesApart(d, f, text);
    NoSlash(f, PID, text);
    FileStartAt(ReplaceAll(d, PID, text), ReplaceAll(f, PID, text));
  }

  lemma NoDirectory(path: string, text: string)
    requires FileStart(path) == 0 && '/' !in text
    ensures DirectoryName(ReplaceAll(path, PID, text)) == ""
  {
    ReplacedDirectory(path, text);
  }

  lemma DirectoryStars(path: string)
    ensures Count(DirectoryName(path), '*') == Count(path[..FileStart(path)], '*')
  {
    var start := FileStart(path);
    if 1 < start {
      assert path[..start] == path[..start - 1] + "/";
      CountAppend(path[..start - 1], "/", '*');
      CountNone("/", '*');
    }
  }

  /** The glob's stars, the process's digits: text for text what stands in a placeholder's place. */
  lemma {:induction false} StarsPut(s: string, text: string, stars: nat)
    requires Count(text, '*') == stars <= 1
    ensures Count(ReplaceAll(s, PID, text), '*') == Count(s, '*') + if stars == 1 then Occurrences(s) else 0
  {
    if s == "" {
    } else if StartsWith(s, PID) {
      var rest := s[|PID|..];
      StarsPut(rest, text, stars);
      assert s == PID + rest;
      CountNone(PID, '*');
      CountAppend(PID, rest, '*');
      CountAppend(text, ReplaceAll(rest, PID, text), '*');
    } else {
      StarsPut(s[1..], text, stars);
      var replaced := ReplaceAll(s[1..], PID, text);
      assert ([s[0]] + replaced)[1..] == replaced;
    }
  }

  lemma OccursInDirectory(path: string, i: nat)
    requires i < FileStart(path) && StartsWith(path[i..], PID)
    ensures Occurrences(path[..FileStart(path)]) > 0
  {
    var d, f := path[..FileStart(path)], path[FileStart(path)..];
    assert path[i..] == d[i..] + f;
    StartsInside(d[i..], f);
    SomethingToReplace(d);
  }

  /** The glob looks for the trace in a directory with a star in its name. */
  lemma OtherDirectory(path: string, digits: string)
    requires Find(path, PID, 0) < FileStart(path) && '/' !in digits && '*' !in digits
    ensures DirectoryName(ReplaceAll(path, PID, digits)) != DirectoryName(ReplaceAll(path, PID, "*"))
  {
    var d := path[..FileStart(path)];
    OccursInDirectory(path, Find(path, PID, 0));
    CountNone(digits, '*');
    assert Count("*", '*') == 1 + Count("", '*');
    StarsPut(d, digits, 0);
    StarsPut(d, "*", 1);
    ReplacedDirectory(path, digits);
    ReplacedDirectory(path, "*");
    DirectoryStars(ReplaceAll(path, PID, digits));
    DirectoryStars(ReplaceAll(path, PID, "*"));
  }

  /** One placeholder: the process id is longer than what the merged name has in its place.  More
      than one: the merged name still has the others. */
  lemma NotMerged(path: string, own: string, merged: string, k: nat, digits: nat)
    requires 0 < k && 0 < digits
    requires |own| == |path| + (digits - 5) * k && Count(own, '{') + k == Count(path, '{')
    requires |merged| + 5 <= |path| && Count(merged, '{') + 1 == Count(path, '{')
    ensures !EqualIgnoreCase(own, merged)
  {
    if EqualIgnoreCase(own, merged) {
      CaseKeepsBraces(own, merged);
    }
  }

  lemma NothingToReplace(path: string, text: string)
    requires Find(path, PID, 0) == |path|
    ensures ReplaceAll(path, PID, text) == path
  {
    SkipTo(path, PID, text, 0, |path|);
    assert path[0..] == path && path[0..|path|] == path && path[|path|..] == "";
  }

  lemma SomethingToReplace(path: string)
    ensures Occurrences(path) > 0 <==> Find(path, PID, 0) < |path|
  {
    OccursIff(path, 0);
    assert path[0..] == path;
  }

  /** A process's own file is the merged file exactly when the template has no `{pid}`. */
  lemma MergedIff(template: string, sessionId: string, pid: nat)
    ensures var path := ReplaceAll(template, SESSION_ID, sessionId);
            EqualIgnoreCase(Expanded(template, sessionId, pid), MergedPath(template, sessionId))
            <==> Find(path, PID, 0) == |path|
  {
    var path := ReplaceAll(template, SESSION_ID, sessionId);
    MergedWeighs(template, sessionId);
    if Find(path, PID, 0) == |path| {
      NothingToReplace(path, Decimal(pid));
    } else {
      OwnIsNot(path, Decimal(pid), MergedPath(template, sessionId));
    }
  }

  lemma OwnIsNot(path: string, digits: string, merged: string)
    requires Find(path, PID, 0) < |path| && digits != "" && '{' !in digits
    requires |merged| + 5 <= |path| && Count(merged, '{') + 1 == Count(path, '{')
    ensures !EqualIgnoreCase(ReplaceAll(path, PID, digits), merged)
  {
    SomethingToReplace(path);
    BracesLeft(path, digits);
    LengthLeft(path, digits);
    NotMerged(path, ReplaceAll(path, PID, digits), merged, Occurrences(path), |digits|);
  }

  lemma SameDirectory(a: string, b: string)
    requires 0 < FileStart(a) == FileStart(b) && a[..FileStart(a)] == b[..FileStart(b)]
    ensures DirectoryName(a) == DirectoryName(b) != ""
  {
    var start := FileStart(a);
    assert a[..start - 1] == a[..start][..start - 1] && b[..start - 1] == b[..start][..start - 1];
  }

  /** The tool looks in the right directory, for a pattern that fits. */
  lemma Listed(path: string, pid: nat)
    requires 0 < FileStart(path) <= Find(path, PID, 0)
    ensures var glob, own := ReplaceAll(path, PID, "*"), ReplaceAll(path, PID, Decimal(pid));
            DirectoryName(own) == DirectoryName(glob) != "" && GlobMatch(FileName(glob), FileName(own))
  {
    InFileName(path, "*");
    InFileName(path, Decimal(pid));
    GlobMatches(path[FileStart(path)..], PID, Decimal(pid));
    SameDirectory(ReplaceAll(path, PID, Decimal(pid)), ReplaceAll(path, PID, "*"));
  }

  // ---- Main results ----

  /** Of the separators beside the placeholder the one before it goes, or else the one after it. */
  lemma CutSpells(before: string, after: string)
    ensures var cut := CutOut(before + (PID + after), |before|);
            if before != "" && Separator(before[|before| - 1]) then cut == before[..|before| - 1] + after
            else if after != "" && Separator(after[0]) then cut == before + after[1..]
            else cut == before + after
  {
    Around(before, PID, after);
  }

  lemma TwoSeparators(c: char)
    ensures Separator(c) <==> c in "_-"
  {
  }

  /** The merged name is the template's without its first `{pid}` and without one separator beside it,
      the one before it if there is one. */
  lemma MergedDropsPid(template: string, sessionId: string, before: string, after: string)
    requires ReplaceAll(template, SESSION_ID, sessionId) == before + (PID + after)
    requires |before| == Find(before + (PID + after), PID, 0)
    ensures MergedPath(template, sessionId)
         == if before != "" && before[|before| - 1] in "_-" then before[..|before| - 1] + after
            else if after != "" && after[0] in "_-" then before + after[1..]
            else before + after
  {
    CutSpells(before, after);
    if before != "" {
      TwoSeparators(before[|before| - 1]);
    }
    if after != "" {
      TwoSeparators(after[0]);
    }
  }

  lemma Around(before: string, middle: string, after: string)
    ensures var path, rest := before + (middle + after), |before| + |middle|;
            && path[..|before|] == before && path[rest..] == after
            && (before != "" ==> path[|before| - 1] == before[|before| - 1]
                                 && path[..|before| - 1] == before[..|before| - 1])
            && (after != "" ==> path[rest] == after[0] && path[rest + 1..] == after[1..])
  {
  }

  /** The tool finds a process's own trace exactly when the template, its session id filled in, has the
      placeholder, and has it nowhere but in the file name below some directory. */
  lemma FindsEveryProcess(template: string, sessionId: string, pid: nat)
    ensures var path := ReplaceAll(template, SESSION_ID, sessionId);
            IsProcessFile(template, sessionId, Expanded(template, sessionId, pid))
            <==> 0 < FileStart(path) <= Find(path, PID, 0) < |path|
  {
    var path := ReplaceAll(template, SESSION_ID, sessionId);
    if FileStart(path) == 0 {
      NoDirectory(path, "*");
    } else if Find(path, PID, 0) < FileStart(path) {
      OtherDirectory(path, Decimal(pid));
    } else {
      Listed(path, pid);
      MergedIff(template, sessionId, pid);
    }
  }

  lemma {:induction false} ReplacedDiffers(s: string, a: string, b: string)
    requires |a| == |b| && a != b && Occurrences(s) > 0
    ensures ReplaceAll(s, PID, a) != ReplaceAll(s, PID, b)
  {
    if StartsWith(s, PID) {
      var x, y := ReplaceAll(s[|PID|..], PID, a), ReplaceAll(s[|PID|..], PID, b);
      assert (a + x)[..|a|] == a && (b + y)[..|b|] == b;
    } else {
      ReplacedDiffers(s[1..], a, b);
      var x, y := ReplaceAll(s[1..], PID, a), ReplaceAll(s[1..], PID, b);
      assert ([s[0]] + x)[1..] == x && ([s[0]] + y)[1..] == y;
    }
  }

  lemma {:induction false} DecimalDiffers(m: nat, n: nat)
    requires m != n
    ensures Decimal(m) != Decimal(n)
  {
    if Decimal(m) == Decimal(n) {
      if 10 <= m && 10 <= n {
        var a, b := Decimal(m / 10), Decimal(n / 10);
        assert (a + [Digit(m % 10)])[|a|] == Digit(m % 10) && (b + [Digit(n % 10)])[|b|] == Digit(n % 10);
        assert (a + [Digit(m % 10)])[..|a|] == a && (b + [Digit(n % 10)])[..|b|] == b;
        if m / 10 != n / 10 {
          DecimalDiffers(m / 10, n / 10);
        }
      }
    }
  }

  /** No two processes write to the same file, unless the template gives every process one. */
  lemma OwnFiles(template: string, sessionId: string, m: nat, n: nat)
    requires m != n
    ensures var path := ReplaceAll(template, SESSION_ID, sessionId);
            Expanded(template, sessionId, m) != Expanded(template, sessionId, n) <==> Find(path, PID, 0) < |path|
  {
    var path := ReplaceAll(template, SESSION_ID, sessionId);
    SomethingToReplace(path);
    if Find(path, PID, 0) == |path| {
      NothingToReplace(path, Decimal(m));
      NothingToReplace(path, Decimal(n));
    } else if |Decimal(m)| == |Decimal(n)| {
      DecimalDiffers(m, n);
      ReplacedDiffers(path, Decimal(m), Decimal(n));
    } else {
      LengthLeft(path, Decimal(m));
      LengthLeft(path, Decimal(n));
      LengthsDiffer(|Decimal(m)| - 5, |Decimal(n)| - 5, Occurrences(path));
    }
  }

  lemma LengthsDiffer(a: int, b: int, k: nat)
    requires a != b && 0 < k
    ensures a * k != b * k
  {
    assert a * k - b * k == (a - b) * k;
  }
}
