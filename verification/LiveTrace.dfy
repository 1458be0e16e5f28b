/** The live trace: what polls of a growing file add to the table. */
module LiveTrace {
  import opened Text
  import opened CsvExport

  // ---------------------------------------------------------------------------------------------
  // A file of whole lines
  // ---------------------------------------------------------------------------------------------

  predicate NoLineEnds(lines: seq<string>) {
    forall i :: 0 <= i < |lines| ==> '\n' !in lines[i]
  }

  lemma UnlinesFirst(lines: seq<string>, rest: string)
    requires lines != []
    ensures Unlines(lines) + rest == lines[0] + ['\n'] + (Unlines(lines[1..]) + rest)
  {
    var a, b := lines[0] + ['\n'], Unlines(lines[1..]);
    assert (a + b) + rest == a + (b + rest);
  }

  lemma FirstThenRest(s: seq<string>, t: seq<string>)
    requires s != []
    ensures s + t == [s[0]] + (s[1..] + t)
  {
  }

  lemma {:induction false} SplitUnlines(lines: seq<string>, rest: string)
    requires NoLineEnds(lines)
    ensures Split(Unlines(lines) + rest, '\n') == lines + Split(rest, '\n')
  {
    if lines == [] {
      assert "" + rest == rest;
    } else {
      UnlinesFirst(lines, rest);
      SplitFirst(lines[0], '\n', Unlines(lines[1..]) + rest);
      SplitUnlines(lines[1..], rest);
      FirstThenRest(lines, Split(rest, '\n'));
    }
  }

  lemma SplitFile(lines: seq<string>)
    requires NoLineEnds(lines)
    ensures Split(Unlines(lines), '\n') == lines + [""]
  {
    SplitUnlines(lines, "");
    assert Unlines(lines) + "" == Unlines(lines);
  }

  // ---------------------------------------------------------------------------------------------
  // Live polling: incremental equals batch
  // ---------------------------------------------------------------------------------------------

  /** The lines added so far, and one more unless it is blank, was seen before, or cannot be read. */
  function Add(readable: string -> bool, seen: set<string>, added: seq<string>, line: string): seq<string> {
    if line == "" || line in seen || line in added || !readable(line) then added else added + [line]
  }

  /** The lines a poll adds: trimmed lines not seen before that can be read, each one once. */
  function Fresh(readable: string -> bool, seen: set<string>, lines: seq<string>): seq<string> {
    if lines == [] then []
    else Add(readable, seen, Fresh(readable, seen, lines[..|lines| - 1]), Trim(lines[|lines| - 1]))
  }

  predicate Occurs(lines: seq<string>, s: string) {
    exists k :: 0 <= k < |lines| && Trim(lines[k]) == s
  }

  lemma FreshAppendOne(readable: string -> bool, seen: set<string>, lines: seq<string>, raw: string)
    ensures Fresh(readable, seen, lines + [raw]) == Add(readable, seen, Fresh(readable, seen, lines), Trim(raw))
  {
    assert (lines + [raw])[..|lines|] == lines;
  }

  /** What a poll adds: each readable line not seen before, exactly once. */
  lemma {:induction false} FreshIsExact(readable: string -> bool, seen: set<string>, lines: seq<string>)
    ensures var f := Fresh(readable, seen, lines); forall i, j :: 0 <= i < j < |f| ==> f[i] != f[j]
    ensures forall s :: s in Fresh(readable, seen, lines) <==>
                          s != "" && s !in seen && readable(s) && Occurs(lines, s)
  {
    if lines != [] {
      var front, raw := lines[..|lines| - 1], lines[|lines| - 1];
      FreshIsExact(readable, seen, front);
      assert lines == front + [raw];
      FreshAppendOne(readable, seen, front, raw);
      forall s ensures Occurs(lines, s) <==> Trim(raw) == s || Occurs(front, s) {
        if k :| 0 <= k < |lines| && Trim(lines[k]) == s { assert k < |front| ==> front[k] == lines[k]; }
        if k :| 0 <= k < |front| && Trim(front[k]) == s { assert lines[k] == front[k]; }
        assert lines[|lines| - 1] == raw;
      }
    }
  }

  /** The first line that trims to s. */
  function FirstIndex(lines: seq<string>, s: string): nat {
    if lines == [] || Trim(lines[0]) == s then 0 else 1 + FirstIndex(lines[1..], s)
  }

  lemma {:induction false} FirstIndexAppend(lines: seq<string>, raw: string, s: string)
    ensures FirstIndex(lines + [raw], s) ==
            if FirstIndex(lines, s) < |lines| then FirstIndex(lines, s)
            else if Trim(raw) == s then |lines| else |lines| + 1
    ensures FirstIndex(lines, s) < |lines| <==> Occurs(lines, s)
    ensures FirstIndex(lines, s) <= |lines|
  {
    if lines == [] {
      assert [] + [raw] == [raw];
    } else {
      assert (lines + [raw])[1..] == lines[1..] + [raw];
      FirstIndexAppend(lines[1..], raw, s);
      if k :| 0 <= k < |lines| && Trim(lines[k]) == s {
        assert k > 0 ==> lines[1..][k - 1] == lines[k];
      }
      if k :| 0 <= k < |lines[1..]| && Trim(lines[1..][k]) == s {
        assert lines[k + 1] == lines[1..][k];
      }
    }
  }

  /** They are added in the order of their first occurrence. */
  lemma {:induction false} FreshInOrder(readable: string -> bool, seen: set<string>, lines: seq<string>)
    ensures var f := Fresh(readable, seen, lines);
            forall i, j :: 0 <= i < j < |f| ==> FirstIndex(lines, f[i]) < FirstIndex(lines, f[j])
  {
    if lines != [] {
      var front, raw := lines[..|lines| - 1], lines[|lines| - 1];
      assert lines == front + [raw];
      FreshInOrder(readable, seen, front);
      FreshAppendOne(readable, seen, front, raw);
      FreshIsExact(readable, seen, front);
      var f, g := Fresh(readable, seen, lines), Fresh(readable, seen, front);
      forall i | 0 <= i < |f|
        ensures FirstIndex(lines, f[i]) == if i < |g| then FirstIndex(front, g[i]) else |front|
        ensures i < |g| ==> FirstIndex(front, g[i]) < |front|
      {
        FirstIndexAppend(front, raw, f[i]);
        if i < |g| { assert g[i] in g; }
      }
    }
  }

  lemma AddSplits(readable: string -> bool, seen: set<string>, a: seq<string>, b: seq<string>, line: string)
    ensures Add(readable, seen, a + b, line) == a + Add(readable, seen + SetOf(a), b, line)
  {
    assert line in a + b <==> line in a || line in b;
    assert (a + b) + [line] == a + (b + [line]);
  }

  /** Reading more lines after some is reading them with the first ones seen. */
  lemma {:induction false} FreshSplits(readable: string -> bool, seen: set<string>, a: seq<string>, b: seq<string>)
    ensures Fresh(readable, seen, a + b) ==
            Fresh(readable, seen, a) + Fresh(readable, seen + SetOf(Fresh(readable, seen, a)), b)
    decreases |b|
  {
    if b == [] {
      assert a + b == a;
    } else {
      var n, first := |b| - 1, Fresh(readable, seen, a);
      FreshSplits(readable, seen, a, b[..n]);
      assert a + b == (a + b[..n]) + [b[n]] && b == b[..n] + [b[n]];
      FreshAppendOne(readable, seen, a + b[..n], b[n]);
      FreshAppendOne(readable, seen + SetOf(first), b[..n], b[n]);
      AddSplits(readable, seen, first, Fresh(readable, seen + SetOf(first), b[..n]), Trim(b[n]));
    }
  }

  function SetOf(lines: seq<string>): set<string> {
    set line | line in lines
  }

  lemma {:induction false} SeenAddsNothing(readable: string -> bool, seen: set<string>, lines: seq<string>)
    requires forall s :: Occurs(lines, s) && readable(s) && s != "" ==> s in seen
    ensures Fresh(readable, seen, lines) == []
  {
    if lines != [] {
      var n := |lines| - 1;
      forall s | Occurs(lines[..n], s) ensures Occurs(lines, s) {
        var k :| 0 <= k < n && Trim(lines[..n][k]) == s;
        assert lines[k] == lines[..n][k];
      }
      SeenAddsNothing(readable, seen, lines[..n]);
      assert Occurs(lines, Trim(lines[n]));
    }
  }

  /** Once all fresh lines are seen, reading the same lines again adds nothing. */
  lemma FreshTwice(readable: string -> bool, seen: set<string>, lines: seq<string>)
    ensures Fresh(readable, seen + SetOf(Fresh(readable, seen, lines)), lines) == []
  {
    FreshIsExact(readable, seen, lines);
    SeenAddsNothing(readable, seen + SetOf(Fresh(readable, seen, lines)), lines);
  }

  /** The lines the polls of a series of file contents add in all. */
  function PollAll(readable: string -> bool, seen: set<string>, contents: seq<string>): seq<string> {
    if contents == [] then []
    else
      var front := PollAll(readable, seen, contents[..|contents| - 1]);
      front + Fresh(readable, seen + SetOf(front), Split(contents[|contents| - 1], '\n'))
  }

  /** The contents of a file over time, as lines: each a continuation of the one before by whole lines. */
  ghost predicate GrowsByLines(files: seq<seq<string>>) {
    forall i :: 0 <= i < |files| ==> NoLineEnds(files[i]) && ContinuesBefore(files, i)
  }

  predicate ContinuesBefore(files: seq<seq<string>>, i: nat)
    requires i < |files|
  {
    i == 0 || files[i - 1] <= files[i]
  }

  function Contents(files: seq<seq<string>>): (contents: seq<string>)
    ensures |contents| == |files|
  {
    seq(|files|, i requires 0 <= i < |files| => Unlines(files[i]))
  }

  lemma FreshOfFile(readable: string -> bool, seen: set<string>, lines: seq<string>)
    requires NoLineEnds(lines)
    ensures Fresh(readable, seen, Split(Unlines(lines), '\n')) == Fresh(readable, seen, lines)
  {
    SplitFile(lines);
    FreshAppendOne(readable, seen, lines, "");
  }

  /** A poll of a longer file adds what the longer file has on top. */
  lemma PollGrown(readable: string -> bool, before: seq<string>, last: seq<string>)
    requires before <= last
    ensures Fresh(readable, {}, before) + Fresh(readable, SetOf(Fresh(readable, {}, before)), last) ==
            Fresh(readable, {}, last)
  {
    var added, first := last[|before|..], Fresh(readable, {}, before);
    var seen := SetOf(first);
    assert last == before + added && {} + seen == seen && seen + SetOf([]) == seen;
    FreshSplits(readable, {}, before, added);
    FreshSplits(readable, seen, before, added);
    AllSeen(readable, before, first);
    NothingBefore(Fresh(readable, seen, added));
  }

  lemma NothingBefore(lines: seq<string>)
    ensures [] + lines == lines
  {
  }

  lemma PollAllAppend(readable: string -> bool, seen: set<string>, contents: seq<string>, content: string)
    ensures PollAll(readable, seen, contents + [content]) ==
            PollAll(readable, seen, contents) +
            Fresh(readable, seen + SetOf(PollAll(readable, seen, contents)), Split(content, '\n'))
  {
    assert (contents + [content])[..|contents|] == contents;
  }

  /**
   Polling a file that grows by whole lines adds, over all polls, exactly the lines that one poll of the
   last content adds.
   */
  lemma {:induction false} PollsEqualOnePoll(readable: string -> bool, files: seq<seq<string>>)
    requires files != [] && GrowsByLines(files)
    ensures PollAll(readable, {}, Contents(files)) == Fresh(readable, {}, files[|files| - 1])
    ensures PollAll(readable, {}, Contents(files)) == PollAll(readable, {}, [Unlines(files[|files| - 1])])
  {
    var n := |files| - 1;
    OneFilePoll(readable, files[n]);
    TextsLast(files);
    if n == 0 {
      assert [] + [Unlines(files[0])] == [Unlines(files[0])];
    } else {
      GrowsBefore(files);
      PollsEqualOnePoll(readable, files[..n]);
      PollLast(readable, Contents(files[..n]), files[n - 1], files[n]);
    }
  }

  lemma TextsLast(files: seq<seq<string>>)
    requires files != []
    ensures Contents(files) == Contents(files[..|files| - 1]) + [Unlines(files[|files| - 1])]
  {
  }

  lemma OneFilePoll(readable: string -> bool, lines: seq<string>)
    requires NoLineEnds(lines)
    ensures PollAll(readable, {}, [Unlines(lines)]) == Fresh(readable, {}, lines)
  {
    FreshOfFile(readable, {}, lines);
    OnePoll(readable, Unlines(lines));
  }

  lemma GrowsBefore(files: seq<seq<string>>)
    requires |files| > 1 && GrowsByLines(files)
    ensures GrowsByLines(files[..|files| - 1]) && files[|files| - 2] <= files[|files| - 1]
  {
    var n := |files| - 1;
    forall i | 0 <= i < n ensures NoLineEnds(files[..n][i]) && ContinuesBefore(files[..n], i) {
      assert NoLineEnds(files[i]) && ContinuesBefore(files, i);
    }
    assert ContinuesBefore(files, n);
  }

  lemma PollLast(readable: string -> bool, contents: seq<string>, before: seq<string>, last: seq<string>)
    requires PollAll(readable, {}, contents) == Fresh(readable, {}, before) && before <= last && NoLineEnds(last)
    ensures PollAll(readable, {}, contents + [Unlines(last)]) == Fresh(readable, {}, last)
  {
    PollAllAppend(readable, {}, contents, Unlines(last));
    PollNext(readable, before, last);
  }

  lemma PollNext(readable: string -> bool, before: seq<string>, last: seq<string>)
    requires before <= last && NoLineEnds(last)
    ensures var added := Fresh(readable, {}, before);
            added + Fresh(readable, {} + SetOf(added), Split(Unlines(last), '\n')) == Fresh(readable, {}, last)
  {
    var added := Fresh(readable, {}, before);
    assert {} + SetOf(added) == SetOf(added);
    FreshOfFile(readable, SetOf(added), last);
    PollGrown(readable, before, last);
  }

  lemma OnePoll(readable: string -> bool, content: string)
    ensures PollAll(readable, {}, [content]) == Fresh(readable, {}, Split(content, '\n'))
  {
    PollAllAppend(readable, {}, [], content);
    assert [] + [content] == [content];
    assert PollAll(readable, {}, []) == [];
    assert {} + SetOf([]) == {};
  }

  // ---------------------------------------------------------------------------------------------
  // Polling a file while a line is being written
  // ---------------------------------------------------------------------------------------------

  function Without(lines: seq<string>, t: string): seq<string> {
    if lines == [] then []
    else
      var front, last := lines[..|lines| - 1], lines[|lines| - 1];
      if last == t then Without(front, t) else Without(front, t) + [last]
  }

  lemma WithoutAppend(lines: seq<string>, last: string, t: string)
    ensures Without(lines + [last], t) == if last == t then Without(lines, t) else Without(lines, t) + [last]
  {
    assert (lines + [last])[..|lines|] == lines;
  }

  lemma {:induction false} WithoutHas(lines: seq<string>, t: string, s: string)
    ensures s in Without(lines, t) <==> s in lines && s != t
  {
    if lines != [] {
      var front, last := lines[..|lines| - 1], lines[|lines| - 1];
      WithoutHas(front, t, s);
      assert lines == front + [last];
    }
  }

  lemma {:induction false} WithoutFirst(t: string, rest: seq<string>)
    requires t !in rest
    ensures Without([t] + rest, t) == rest
  {
    if rest == [] {
      assert [t] + rest == [t] && [t][..0] == [];
    } else {
      var front, last := rest[..|rest| - 1], rest[|rest| - 1];
      assert rest == front + [last] && [t] + rest == ([t] + front) + [last];
      WithoutFirst(t, front);
      WithoutAppend([t] + front, last, t);
    }
  }

  lemma AddWithMoreSeen(readable: string -> bool, seen: set<string>, t: string, added: seq<string>, line: string)
    ensures Add(readable, seen + {t}, Without(added, t), line) == Without(Add(readable, seen, added, line), t)
  {
    WithoutHas(added, t, line);
    WithoutAppend(added, line, t);
  }

  /** With one more line seen, a poll adds the same lines but that one. */
  lemma {:induction false} FreshWithMoreSeen(readable: string -> bool, seen: set<string>, t: string, lines: seq<string>)
    ensures Fresh(readable, seen + {t}, lines) == Without(Fresh(readable, seen, lines), t)
  {
    if lines != [] {
      var n := |lines| - 1;
      FreshWithMoreSeen(readable, seen, t, lines[..n]);
      AddWithMoreSeen(readable, seen, t, Fresh(readable, seen, lines[..n]), Trim(lines[n]));
    }
  }

  /** Adding a line of a poll before the others gives the same lines exactly if it comes first anyway. */
  lemma MovedToFront(lines: seq<string>, t: string)
    requires forall i, j :: 0 <= i < j < |lines| ==> lines[i] != lines[j]
    ensures [t] + Without(lines, t) == lines <==> lines != [] && lines[0] == t
  {
    if lines != [] && lines[0] == t {
      assert lines == [t] + lines[1..];
      WithoutFirst(t, lines[1..]);
    }
  }

  /** What two polls add, the first of them while the file ends in a line without its line end. */
  lemma HalfLineAdds(readable: string -> bool, lines: seq<string>, tail: string, rest: string)
    requires NoLineEnds(lines) && '\n' !in tail
    ensures var seen := SetOf(Fresh(readable, {}, lines));
            var added := Add(readable, {}, Fresh(readable, {}, lines), Trim(tail));
            && Fresh(readable, {}, Split(Unlines(lines) + tail, '\n')) == added
            && Fresh(readable, {}, Split(Unlines(lines) + rest, '\n')) ==
               Fresh(readable, {}, lines) + Fresh(readable, seen, Split(rest, '\n'))
            && Fresh(readable, SetOf(added), Split(Unlines(lines) + rest, '\n')) ==
               Fresh(readable, SetOf(added), Split(rest, '\n'))
  {
    var first := Fresh(readable, {}, lines);
    var added := Add(readable, {}, first, Trim(tail));
    SplitUnlines(lines, tail);
    SplitSingle(tail);
    FreshAppendOne(readable, {}, lines, tail);
    SplitUnlines(lines, rest);
    FreshSplits(readable, {}, lines, Split(rest, '\n'));
    assert {} + SetOf(first) == SetOf(first);
    FreshSplits(readable, SetOf(added), lines, Split(rest, '\n'));
    AllSeen(readable, lines, added);
    assert SetOf(added) + SetOf([]) == SetOf(added);
  }

  lemma AllSeen(readable: string -> bool, lines: seq<string>, added: seq<string>)
    requires Fresh(readable, {}, lines) <= added
    ensures Fresh(readable, SetOf(added), lines) == []
  {
    var first := Fresh(readable, {}, lines);
    FreshIsExact(readable, {}, lines);
    forall s | Occurs(lines, s) && readable(s) && s != "" ensures s in SetOf(added) {
      assert s in first;
      var k :| 0 <= k < |first| && first[k] == s;
      assert added[k] == s;
    }
    SeenAddsNothing(readable, SetOf(added), lines);
  }

  /** Adding t, and then the lines that are still fresh, gives the fresh lines exactly if t does no harm. */
  lemma EarlyLine(readable: string -> bool, first: seq<string>, t: string, lines: seq<string>)
    ensures var added, more := Add(readable, {}, first, t), Fresh(readable, SetOf(first), lines);
            added + Fresh(readable, SetOf(added), lines) == first + more
            <==> t == "" || !readable(t) || t in SetOf(first) || (more != [] && more[0] == t)
  {
    assert t in SetOf(first) <==> t in first;
    if t != "" && readable(t) && t !in first {
      var more := Fresh(readable, SetOf(first), lines);
      assert SetOf(first + [t]) == SetOf(first) + {t};
      FreshWithMoreSeen(readable, SetOf(first), t, lines);
      FreshIsExact(readable, SetOf(first), lines);
      EarlyIsFirst(first, more, t);
    }
  }

  lemma EarlyIsFirst(first: seq<string>, more: seq<string>, t: string)
    requires forall i, j :: 0 <= i < j < |more| ==> more[i] != more[j]
    ensures first + [t] + Without(more, t) == first + more <==> more != [] && more[0] == t
  {
    MovedToFront(more, t);
    assert first + [t] + Without(more, t) == first + ([t] + Without(more, t));
    SameBehind(first, [t] + Without(more, t), more);
  }

  /**
   A poll while the last line is half-written, and one when it and perhaps more is complete, add what the second
   poll alone would add exactly if the half line is blank, cannot be read, was added before, or is the next
   line to be added anyway.
   */
  lemma HalfLineIsHarmlessIff(readable: string -> bool, lines: seq<string>, tail: string, rest: string)
    requires NoLineEnds(lines) && '\n' !in tail
    ensures var t, seen := Trim(tail), SetOf(Fresh(readable, {}, lines));
            var more := Fresh(readable, seen, Split(rest, '\n'));
            PollAll(readable, {}, [Unlines(lines) + tail, Unlines(lines) + rest]) ==
            PollAll(readable, {}, [Unlines(lines) + rest])
            <==> t == "" || !readable(t) || t in seen || (more != [] && more[0] == t)
  {
    HalfLinePolls(readable, lines, tail, rest);
    EarlyLine(readable, Fresh(readable, {}, lines), Trim(tail), Split(rest, '\n'));
  }

  lemma HalfLinePolls(readable: string -> bool, lines: seq<string>, tail: string, rest: string)
    requires NoLineEnds(lines) && '\n' !in tail
    ensures var first := Fresh(readable, {}, lines);
            var added := Add(readable, {}, first, Trim(tail));
            && PollAll(readable, {}, [Unlines(lines) + tail, Unlines(lines) + rest]) ==
               added + Fresh(readable, SetOf(added), Split(rest, '\n'))
            && PollAll(readable, {}, [Unlines(lines) + rest]) ==
               first + Fresh(readable, SetOf(first), Split(rest, '\n'))
  {
    HalfLineAdds(readable, lines, tail, rest);
    OnePoll(readable, Unlines(lines) + rest);
    TwoPolls(readable, Unlines(lines) + tail, Unlines(lines) + rest);
  }

  lemma SameBehind(a: seq<string>, b: seq<string>, c: seq<string>)
    ensures a + b == a + c <==> b == c
  {
    if a + b == a + c {
      assert (a + b)[|a|..] == b && (a + c)[|a|..] == c;
    }
  }

  /** A line caught while it was being written is kept: growth inside a line adds a row a single poll would not. */
  lemma PartialLineAddsRow(readable: string -> bool, line: string, longer: string)
    requires line < longer && CanPoll(readable, line) && CanPoll(readable, longer)
    ensures PollAll(readable, {}, [line, longer]) == [line, longer]
    ensures PollAll(readable, {}, [longer]) == [longer]
  {
    PollOneLine(readable, {}, line);
    PollOneLine(readable, {line}, longer);
    PollOneLine(readable, {}, longer);
    OnePoll(readable, line);
    OnePoll(readable, longer);
    TwoPolls(readable, line, longer);
    assert SetOf([line]) == {line};
  }

  lemma TwoPolls(readable: string -> bool, first: string, second: string)
    ensures var a := Fresh(readable, {}, Split(first, '\n'));
            PollAll(readable, {}, [first, second]) == a + Fresh(readable, SetOf(a), Split(second, '\n'))
  {
    OnePoll(readable, first);
    PollAllAppend(readable, {}, [first], second);
    assert [first] + [second] == [first, second];
    var a := Fresh(readable, {}, Split(first, '\n'));
    assert {} + SetOf(a) == SetOf(a);
  }

  predicate CanPoll(readable: string -> bool, line: string) {
    line != "" && Trimmed(line) && '\n' !in line && readable(line)
  }

  lemma PollOneLine(readable: string -> bool, seen: set<string>, line: string)
    requires CanPoll(readable, line) && line !in seen
    ensures Fresh(readable, seen, Split(line, '\n')) == [line]
  {
    SplitFirst(line, '\n', "");
    SplitSingle(line);
    TrimOfTrimmed(line);
    FreshAppendOne(readable, seen, [], line);
    assert [] + [line] == [line];
  }

  lemma {:induction false} SplitSingle(line: string)
    requires '\n' !in line
    ensures Split(line, '\n') == [line]
  {
    if line != "" {
      SplitSingle(line[1..]);
      assert line == [line[0]] + line[1..];
    }
  }
}
