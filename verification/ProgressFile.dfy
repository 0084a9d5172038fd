/** The progress file as text: one finished path per line, read back with white space stripped. */
module ProgressFile {
  /** What `str.isspace` accepts. */
  predicate IsSpace(c: char) {
    var n := c as int;
    9 <= n <= 13 || 28 <= n <= 32 || n == 0x85 || n == 0xA0 || n == 0x1680 || 0x2000 <= n <= 0x200A
    || n == 0x2028 || n == 0x2029 || n == 0x202F || n == 0x205F || n == 0x3000
  }

  /** Where reading a text file line by line breaks it; of a two-character break the second one only
      makes a line that is blank. */
  predicate IsBreak(c: char) {
    c == '\n' || c == '\r'
  }

  /** The lines of a text, without their breaks; the last one is what follows the last break. */
  function Split(text: string): (lines: seq<string>)
    ensures |lines| >= 1
  {
    if text == "" then [""]
    else if IsBreak(text[0]) then [""] + Split(text[1..])
    else var rest := Split(text[1..]); [[text[0]] + rest[0]] + rest[1..]
  }

  function StripLeft(s: string): string {
    if s != "" && IsSpace(s[0]) then StripLeft(s[1..]) else s
  }

  function StripRight(s: string): string {
    if s != "" && IsSpace(s[|s| - 1]) then StripRight(s[..|s| - 1]) else s
  }

  function Strip(s: string): string {
    StripRight(StripLeft(s))
  }

  /** The nonblank lines, stripped, in order. */
  function Nonblank(lines: seq<string>): seq<string> {
    if lines == [] then []
    else (if Strip(lines[0]) == "" then [] else [Strip(lines[0])]) + Nonblank(lines[1..])
  }

  /** What the progress file `text` records. */
  function Entries(text: string): seq<string> {
    Nonblank(Split(text))
  }

  /** The set of finished jobs, collected line by line. */
  method ReadProgressFile(text: string) returns (finished: set<string>)
    ensures forall p :: p in finished <==> p in Entries(text)
  {
    finished := {};
    var lines := Split(text);
    for k := 0 to |lines|
      invariant forall p :: p in finished || p in Nonblank(lines[k..]) <==> p in Entries(text)
    {
      assert lines[k..][1..] == lines[k + 1..];
      var line := Strip(lines[k]);
      if line != "" {
        finished := finished + {line};
      }
    }
    assert lines[|lines|..] == [];
  }

  /** The text after one more finished path is appended. */
  function Record(text: string, path: string): string {
    text + path + "\n"
  }

  /** Nothing is pending on the last line. */
  ghost predicate Closed(text: string) {
    text == "" || IsBreak(text[|text| - 1])
  }

  /** A path that its own line gives back. */
  predicate Clean(path: string) {
    path != "" && !IsSpace(path[0]) && !IsSpace(path[|path| - 1]) && forall c :: c in path ==> !IsBreak(c)
  }

  /** An empty line in front changes neither the last line nor what comes after it. */
  lemma EmptyFirst(rest: seq<string>, more: seq<string>)
    requires |rest| >= 1
    ensures ([""] + rest)[|rest|] == rest[|rest| - 1]
    ensures ([""] + rest)[..|rest|] + more == [""] + (rest[..|rest| - 1] + more)
  {
    assert ([""] + rest)[..|rest|] == [""] + rest[..|rest| - 1];
  }

  /** Lengthening the first of several lines changes neither the last line nor what comes after it. */
  lemma LongerFirst(c: char, rest: seq<string>, more: seq<string>)
    requires |rest| >= 2
    ensures var longer, whole := [[c] + rest[0]] + rest[1..], rest[..|rest| - 1] + more;
            && longer[|rest| - 1] == rest[|rest| - 1]
            && longer[..|rest| - 1] + more == [[c] + whole[0]] + whole[1..]
  {
    var longer, whole := [[c] + rest[0]] + rest[1..], rest[..|rest| - 1] + more;
    assert longer[..|rest| - 1] == [[c] + rest[0]] + rest[1..|rest| - 1];
    assert whole[1..] == rest[1..|rest| - 1] + more;
  }

  /** A nonempty closed text has a line before the last break. */
  lemma LastLineOf(a: string, b: string)
    requires a != "" && Closed(a)
    ensures |Split(a)| >= 2
  {
    if |a| > 1 && !IsBreak(a[0]) {
      assert a[1..][|a[1..]| - 1] == a[|a| - 1];
      LastLineOf(a[1..], b);
    }
  }

  lemma {:induction false} SplitAppend(a: string, b: string)
    requires Closed(a)
    ensures Split(a)[|Split(a)| - 1] == ""
    ensures Split(a + b) == Split(a)[..|Split(a)| - 1] + Split(b)
  {
    if a == "" {
      assert a + b == b;
    } else {
      assert (a + b)[1..] == a[1..] + b;
      if |a| > 1 {
        assert a[1..][|a[1..]| - 1] == a[|a| - 1];
      }
      assert Closed(a[1..]);
      SplitAppend(a[1..], b);
      if IsBreak(a[0]) {
        EmptyFirst(Split(a[1..]), Split(b));
      } else {
        LastLineOf(a[1..], b);
        LongerFirst(a[0], Split(a[1..]), Split(b));
      }
    }
  }

  lemma {:induction false} SplitOneLine(p: string)
    requires forall c :: c in p ==> !IsBreak(c)
    ensures Split(p) == [p] && Split(p + "\n") == [p, ""]
  {
    if p == "" {
      assert p + "\n" == "\n" && "\n"[1..] == "";
    } else {
      assert (p + "\n")[1..] == p[1..] + "\n";
      assert forall c :: c in p[1..] ==> c in p;
      SplitOneLine(p[1..]);
      assert [p[0]] + p[1..] == p;
    }
  }

  lemma {:induction false} NonblankAppend(a: seq<string>, b: seq<string>)
    ensures Nonblank(a + b) == Nonblank(a) + Nonblank(b)
  {
    if a == [] {
      assert a + b == b;
    } else {
      assert (a + b)[1..] == a[1..] + b;
      NonblankAppend(a[1..], b);
    }
  }

  lemma CleanStrips(p: string)
    requires Clean(p)
    ensures Strip(p) == p
  {
  }

  /** What a recorded path adds to a closed file does not depend on what the file held before. */
  lemma RecordAdds(text: string, path: string)
    requires Closed(text)
    ensures Entries(Record(text, path)) == Entries(text) + Entries(Record("", path))
  {
    var line := path + "\n";
    assert Record(text, path) == text + line && Record("", path) == line;
    SplitAppend(text, line);
    var lines := Split(text);
    assert Nonblank([""]) == [] by {
      assert [""][1..] == [];
    }
    hide Nonblank, Split;
    assert lines == lines[..|lines| - 1] + [""];
    NonblankAppend(lines[..|lines| - 1], Split(line));
    NonblankAppend(lines[..|lines| - 1], [""]);
  }

  /** Recording a clean path adds exactly that entry, at the end, and leaves the file ready for the next. */
  lemma RecordAppends(text: string, path: string)
    requires Closed(text) && Clean(path)
    ensures Entries(Record(text, path)) == Entries(text) + [path]
    ensures Closed(Record(text, path))
  {
    RecordAdds(text, path);
    assert Record("", path) == path + "\n";
    SplitOneLine(path);
    CleanStrips(path);
    assert [path, ""][1..] == [""];
    assert Nonblank([""]) == [] && Nonblank([path, ""]) == [path];
  }

  lemma {:induction false} LinesHaveNoBreaks(text: string)
    ensures forall l, c :: l in Split(text) && c in l ==> !IsBreak(c)
  {
    if text != "" {
      LinesHaveNoBreaks(text[1..]);
      var rest := Split(text[1..]);
      assert rest[0] in rest && forall l :: l in rest[1..] ==> l in rest;
    }
  }

  lemma {:induction false} StripLeftClean(s: string)
    ensures var t := StripLeft(s); (t == "" || !IsSpace(t[0])) && forall c :: c in t ==> c in s
  {
    if s != "" && IsSpace(s[0]) {
      StripLeftClean(s[1..]);
    }
  }

  lemma {:induction false} StripRightClean(s: string)
    ensures var t := StripRight(s); t <= s && (t == "" || !IsSpace(t[|t| - 1]))
  {
    if s != "" && IsSpace(s[|s| - 1]) {
      StripRightClean(s[..|s| - 1]);
    }
  }

  lemma {:induction false} NonblankClean(lines: seq<string>)
    requires forall l, c :: l in lines && c in l ==> !IsBreak(c)
    ensures forall e :: e in Nonblank(lines) ==> Clean(e)
  {
    if lines != [] {
      NonblankClean(lines[1..]);
      assert lines[0] in lines;
      StripLeftClean(lines[0]);
      StripRightClean(StripLeft(lines[0]));
    }
  }

  lemma SameTail(a: seq<string>, b: seq<string>, c: seq<string>)
    requires a + b == a + c
    ensures b == c
  {
    assert (a + b)[|a|..] == b && (a + c)[|a|..] == c;
  }

  /** A path written to a progress file is found there again, as one more entry, exactly when it is clean: nonempty,
      on one line, and without white space around it. */
  lemma RecordedIffClean(text: string, path: string)
    requires Closed(text)
    ensures Entries(Record(text, path)) == Entries(text) + [path] <==> Clean(path)
  {
    hide Clean;
    RecordAdds(text, path);
    if Clean(path) {
      RecordAppends(text, path);
    }
    LinesHaveNoBreaks(Record("", path));
    NonblankClean(Split(Record("", path)));
    if Entries(Record(text, path)) == Entries(text) + [path] {
      SameTail(Entries(text), Entries(Record("", path)), [path]);
      assert path in [path];
    }
  }
}
