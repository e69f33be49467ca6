/**
 * scripts/python/json_log/modules/parse/Parser.py: extraction of the sections
 * of a log file that lie between a begin-mark line and an end-mark line. The
 * file's lines (with their line breaks) are the content; reading the file is
 * not part of this model.
 */
module Parser {
  import opened Wrappers

  /** Python's `str.isspace` for one character. */
  predicate IsWhitespace(ch: char)
  {
    ch == ' ' || ('\t' <= ch <= '\r') || ('\U{001C}' <= ch <= '\U{001F}') ||
    ch == '\U{0085}' || ch == '\U{00A0}' || ch == '\U{1680}' ||
    ('\U{2000}' <= ch <= '\U{200A}') || ch == '\U{2028}' || ch == '\U{2029}' ||
    ch == '\U{202F}' || ch == '\U{205F}' || ch == '\U{3000}'
  }

  /** s without its leading whitespace. */
  function StripLeading(s: string): (r: string)
    ensures |r| <= |s|
  {
    if s != [] && IsWhitespace(s[0]) then StripLeading(s[1..]) else s
  }

  /** Only whitespace is dropped from the front, and what is left does not start with whitespace. */
  lemma {:induction false} StripLeadingFacts(s: string)
    ensures StripLeading(s) == s[|s| - |StripLeading(s)|..]
    ensures StripLeading(s) == [] || !IsWhitespace(StripLeading(s)[0])
    ensures forall i :: 0 <= i < |s| - |StripLeading(s)| ==> IsWhitespace(s[i])
  {
    if s != [] && IsWhitespace(s[0]) {
      StripLeadingFacts(s[1..]);
      forall i | 1 <= i < |s| - |StripLeading(s)|
        ensures IsWhitespace(s[i])
      {
        assert s[i] == s[1..][i - 1];
      }
    }
  }

  /** s without its trailing whitespace. */
  function StripTrailing(s: string): (r: string)
    ensures |r| <= |s|
  {
    if s != [] && IsWhitespace(s[|s| - 1]) then StripTrailing(s[..|s| - 1]) else s
  }

  /** Only whitespace is dropped from the back, and what is left does not end with whitespace. */
  lemma {:induction false} StripTrailingFacts(s: string)
    ensures StripTrailing(s) == s[..|StripTrailing(s)|]
    ensures StripTrailing(s) == [] || !IsWhitespace(StripTrailing(s)[|StripTrailing(s)| - 1])
    ensures forall i :: |StripTrailing(s)| <= i < |s| ==> IsWhitespace(s[i])
  {
    if s != [] && IsWhitespace(s[|s| - 1]) {
      StripTrailingFacts(s[..|s| - 1]);
    }
  }

  /** Python's `str.strip()`: s without whitespace at either end. */
  function Strip(s: string): (r: string)
  {
    StripTrailing(StripLeading(s))
  }

  /** The number of leading whitespace characters of s. */
  function StripStart(s: string): (a: nat)
    ensures a <= |s| - |Strip(s)|
  {
    |s| - |StripLeading(s)|
  }

  /** The stripped line is the slice of s between its outer whitespace, and stripping again changes nothing. */
  lemma StripFacts(s: string)
    ensures Strip(s) == s[StripStart(s)..StripStart(s) + |Strip(s)|]
    ensures forall i :: 0 <= i < StripStart(s) ==> IsWhitespace(s[i])
    ensures forall i :: StripStart(s) + |Strip(s)| <= i < |s| ==> IsWhitespace(s[i])
    ensures Strip(s) == [] || (!IsWhitespace(Strip(s)[0]) && !IsWhitespace(Strip(s)[|Strip(s)| - 1]))
    ensures Strip(Strip(s)) == Strip(s)
  {
    var l := StripLeading(s);
    var r := StripTrailing(l);
    var a := |s| - |l|;
    StripLeadingFacts(s);
    StripTrailingFacts(l);
    assert r == s[a..a + |r|];
    forall i | a + |r| <= i < |s|
      ensures IsWhitespace(s[i])
    {
      assert s[i] == l[i - a];
    }
    if r != [] {
      assert r[0] == l[0];
      assert StripLeading(r) == r;
      StripTrailingFacts(r);
      assert StripTrailing(r) == r;
    }
  }

  /** Python's `pat in s`: pat occurs in s as a contiguous piece. */
  predicate Contains(s: string, pat: string)
  {
    pat <= s || (s != [] && Contains(s[1..], pat))
  }

  /** A piece of s is no longer than s. */
  lemma {:induction false} ContainsLength(s: string, pat: string)
    ensures Contains(s, pat) ==> |pat| <= |s|
  {
    if s != [] {
      ContainsLength(s[1..], pat);
    }
  }

  /** What a scan from some line collects: the kept lines, and the index of the end-mark line it stopped at. */
  datatype Scan = Scan(lines: seq<string>, endAt: Option<nat>)

  /** pre collected before the scan s. */
  function After(pre: seq<string>, s: Scan): Scan
  {
    Scan(pre + s.lines, s.endAt)
  }

  /** Line m is kept in a section: it is not a bare line break and holds no end mark. */
  predicate Kept(c: seq<string>, end: string, m: int)
    requires 0 <= m < |c|
  {
    c[m] != "\n" && !Contains(c[m], end)
  }

  /**
   * The inner loop of `get_section` started at line j: the stripped kept
   * lines up to the first end-mark line, and that line's index.
   */
  function SectionFrom(c: seq<string>, end: string, j: nat): (s: Scan)
    ensures s.endAt.Some? ==> j <= s.endAt.value < |c| && Contains(c[s.endAt.value], end)
    decreases |c| - j
  {
    if j >= |c| then Scan([], None)
    else if Contains(c[j], end) then Scan([], Some(j))
    else
      var rest := SectionFrom(c, end, j + 1);
      if c[j] != "\n" then After([Strip(c[j])], rest) else rest
  }

  /** The inner loop stops at the first end-mark line from j on, and runs to the last line when there is none. */
  lemma {:induction false} SectionFromEnds(c: seq<string>, end: string, j: nat)
    ensures SectionFrom(c, end, j).endAt.Some? ==>
      (forall m :: j <= m < SectionFrom(c, end, j).endAt.value ==> !Contains(c[m], end))
    ensures SectionFrom(c, end, j).endAt.None? ==> (forall m :: j <= m < |c| ==> !Contains(c[m], end))
    decreases |c| - j
  {
    if j < |c| && !Contains(c[j], end) {
      SectionFromEnds(c, end, j + 1);
    }
  }

  /**
   * The outer loop of `get_section` started at line i: at each begin-mark
   * line the inner loop runs; the scan stops at the first end mark the inner
   * loop meets, and an inner loop that meets none lets the outer loop go on
   * with what it has collected.
   */
  function ScanFrom(c: seq<string>, beg: string, end: string, i: nat): (s: Scan)
    ensures s.endAt.Some? ==> i < s.endAt.value < |c| && Contains(c[s.endAt.value], end)
    decreases |c| - i
  {
    if i >= |c| then Scan([], None)
    else if Contains(c[i], beg) then
      var body := SectionFrom(c, end, i + 1);
      if body.endAt.Some? then body else After(body.lines, ScanFrom(c, beg, end, i + 1))
    else ScanFrom(c, beg, end, i + 1)
  }

  /** One step of the outer loop, with pre collected before line i. */
  lemma ScanFromStep(c: seq<string>, beg: string, end: string, i: nat, pre: seq<string>)
    requires i < |c|
    ensures var body := SectionFrom(c, end, i + 1);
      After(pre, ScanFrom(c, beg, end, i)) ==
        if !Contains(c[i], beg) then After(pre, ScanFrom(c, beg, end, i + 1))
        else if body.endAt.Some? then Scan(pre + body.lines, body.endAt)
        else After(pre + body.lines, ScanFrom(c, beg, end, i + 1))
  {
    var body := SectionFrom(c, end, i + 1);
    var rest := ScanFrom(c, beg, end, i + 1);
    assert pre + (body.lines + rest.lines) == (pre + body.lines) + rest.lines;
  }

  /** What `get_section` returns: `(-1, -1)`, or the collected lines and the next position. */
  datatype Section = NoSection | Section(lines: seq<string>, pos: int)

  /**
   * `get_section(beg, end, pos)`: the lines collected from pos on, and the
   * index of the end-mark line (pos itself when no end mark was met);
   * `(-1, -1)` whenever nothing was collected.
   */
  function GetSectionOf(c: seq<string>, beg: string, end: string, pos: nat): (r: Section)
    ensures r.Section? ==> r.lines != []
    ensures r.Section? ==> r.pos == pos || (pos < r.pos < |c| && Contains(c[r.pos], end))
  {
    var s := ScanFrom(c, beg, end, pos);
    if s.lines == [] then NoSection
    else Section(s.lines, if s.endAt.Some? then s.endAt.value else pos)
  }

  /** Some begin-mark line at or after i has an end-mark line after it. */
  predicate ClosedSectionFrom(c: seq<string>, beg: string, end: string, i: int)
  {
    exists b, e :: i <= b < e < |c| && b >= 0 && Contains(c[b], beg) && Contains(c[e], end)
  }

  /** The scan from i stops at an end mark exactly when some begin-mark line from i on has an end-mark line after it. */
  lemma {:induction false} ScanFromEndsIff(c: seq<string>, beg: string, end: string, i: nat)
    ensures ScanFrom(c, beg, end, i).endAt.Some? <==> ClosedSectionFrom(c, beg, end, i)
    decreases |c| - i
  {
    if i < |c| {
      ScanFromEndsIff(c, beg, end, i + 1);
      var body := SectionFrom(c, end, i + 1);
      SectionFromEnds(c, end, i + 1);
      if Contains(c[i], beg) && body.endAt.Some? {
        assert Contains(c[i], beg) && Contains(c[body.endAt.value], end);
      } else {
        forall b, e | i <= b < e < |c| && b >= 0 && Contains(c[b], beg) && Contains(c[e], end)
          ensures i + 1 <= b
        {
        }
        assert ClosedSectionFrom(c, beg, end, i) ==> ClosedSectionFrom(c, beg, end, i + 1);
      }
    }
  }

  /** Line m comes after a begin-mark line at or after i. */
  predicate BeginBefore(c: seq<string>, beg: string, i: int, m: int)
  {
    exists b :: i <= b < m && 0 <= b < |c| && Contains(c[b], beg)
  }

  /** line is a kept line from j on, stripped. */
  predicate KeptLine(c: seq<string>, end: string, j: int, line: string)
  {
    exists m :: j <= m < |c| && 0 <= m && Kept(c, end, m) && line == Strip(c[m])
  }

  /** line is a kept line that comes after a begin-mark line at or after i, stripped. */
  predicate CollectedLine(c: seq<string>, beg: string, end: string, i: int, line: string)
  {
    exists m :: i < m < |c| && 0 <= m && Kept(c, end, m) && BeginBefore(c, beg, i, m) && line == Strip(c[m])
  }

  /** Every line the inner loop collects from j is a kept line from j on, stripped. */
  lemma {:induction false} SectionFromLines(c: seq<string>, end: string, j: nat)
    ensures forall line :: line in SectionFrom(c, end, j).lines ==> KeptLine(c, end, j, line)
    decreases |c| - j
  {
    if j < |c| && !Contains(c[j], end) {
      SectionFromLines(c, end, j + 1);
      forall line | line in SectionFrom(c, end, j).lines
        ensures KeptLine(c, end, j, line)
      {
        if c[j] != "\n" && line == Strip(c[j]) {
          assert Kept(c, end, j);
        } else {
          assert KeptLine(c, end, j + 1, line);
        }
      }
    }
  }

  /** A begin-mark line at i precedes every line after it. */
  lemma CollectedAfterBegin(c: seq<string>, beg: string, end: string, i: nat, line: string)
    requires i < |c| && Contains(c[i], beg)
    requires KeptLine(c, end, i + 1, line)
    ensures CollectedLine(c, beg, end, i, line)
  {
    var m :| i + 1 <= m < |c| && 0 <= m && Kept(c, end, m) && line == Strip(c[m]);
    assert BeginBefore(c, beg, i, m);
  }

  /** A line collected from i + 1 is collected from i. */
  lemma CollectedWidens(c: seq<string>, beg: string, end: string, i: nat, line: string)
    requires CollectedLine(c, beg, end, i + 1, line)
    ensures CollectedLine(c, beg, end, i, line)
  {
    var m :| i + 1 < m < |c| && 0 <= m && Kept(c, end, m) && BeginBefore(c, beg, i + 1, m) && line == Strip(c[m]);
    var b :| i + 1 <= b < m && 0 <= b < |c| && Contains(c[b], beg);
    assert BeginBefore(c, beg, i, m);
  }

  /**
   * Every line `get_section` collects from i is a kept line that comes
   * strictly after a begin-mark line at or after i, stripped.
   */
  lemma {:induction false} ScanFromLines(c: seq<string>, beg: string, end: string, i: nat)
    ensures forall line :: line in ScanFrom(c, beg, end, i).lines ==> CollectedLine(c, beg, end, i, line)
    decreases |c| - i
  {
    if i < |c| {
      ScanFromLines(c, beg, end, i + 1);
      SectionFromLines(c, end, i + 1);
      var body := SectionFrom(c, end, i + 1).lines;
      forall line | line in ScanFrom(c, beg, end, i).lines
        ensures CollectedLine(c, beg, end, i, line)
      {
        if Contains(c[i], beg) && line in body {
          CollectedAfterBegin(c, beg, end, i, line);
        } else {
          CollectedWidens(c, beg, end, i, line);
        }
      }
    }
  }

  /** Lines before pos play no part in `get_section(beg, end, pos)`. */
  lemma IgnoresLinesBefore(c1: seq<string>, c2: seq<string>, beg: string, end: string, pos: nat)
    requires |c1| == |c2|
    requires forall m :: pos <= m < |c1| ==> c1[m] == c2[m]
    ensures GetSectionOf(c1, beg, end, pos) == GetSectionOf(c2, beg, end, pos)
  {
    ScanFromLocal(c1, c2, beg, end, pos, pos);
  }

  lemma {:induction false} SectionFromLocal(c1: seq<string>, c2: seq<string>, end: string, pos: nat, j: nat)
    requires |c1| == |c2| && pos <= j
    requires forall m :: pos <= m < |c1| ==> c1[m] == c2[m]
    ensures SectionFrom(c1, end, j) == SectionFrom(c2, end, j)
    decreases |c1| - j
  {
    if j < |c1| {
      SectionFromLocal(c1, c2, end, pos, j + 1);
    }
  }

  lemma {:induction false} ScanFromLocal(c1: seq<string>, c2: seq<string>, beg: string, end: string, pos: nat, i: nat)
    requires |c1| == |c2| && pos <= i
    requires forall m :: pos <= m < |c1| ==> c1[m] == c2[m]
    ensures ScanFrom(c1, beg, end, i) == ScanFrom(c2, beg, end, i)
    decreases |c1| - i
  {
    if i < |c1| {
      ScanFromLocal(c1, c2, beg, end, pos, i + 1);
      SectionFromLocal(c1, c2, end, pos, i + 1);
      var line := c1[i];
      assert c2[i] == line;
      var body := SectionFrom(c1, end, i + 1);
      var rest := ScanFrom(c1, beg, end, i + 1);
      assert ScanFrom(c1, beg, end, i) == if Contains(line, beg) then (if body.endAt.Some? then body else After(body.lines, rest)) else rest;
      assert ScanFrom(c2, beg, end, i) == if Contains(line, beg) then (if body.endAt.Some? then body else After(body.lines, rest)) else rest;
    }
  }

  /** What `get_all_sections` does: it stops at the first `-1`, or it repeats one section forever. */
  datatype Sections = Sections(found: seq<seq<string>>) | Endless(found: seq<seq<string>>, repeated: seq<string>)

  /** pre found before the outcome s. */
  function Following(pre: seq<seq<string>>, s: Sections): Sections
  {
    match s
    case Sections(f) => Sections(pre + f)
    case Endless(f, rep) => Endless(pre + f, rep)
  }

  /**
   * `get_all_sections` continued from pos: each found section is appended
   * and the scan resumes at the returned position. When `get_section` hands
   * back pos itself, every later call returns the same section again and the
   * source's loop never ends; the outcome is then Endless with the sections
   * found before and the one appended forever.
   */
  function AllSectionsFrom(c: seq<string>, beg: string, end: string, pos: nat): (r: Sections)
    ensures forall k :: 0 <= k < |r.found| ==> r.found[k] != []
    ensures r.Endless? ==> r.repeated != []
    decreases |c| - pos
  {
    match GetSectionOf(c, beg, end, pos)
    case NoSection => Sections([])
    case Section(lines, next) =>
      if next == pos then Endless([], lines)
      else Following([lines], AllSectionsFrom(c, beg, end, next))
  }

  /** One step of `get_all_sections`, with pre found before pos. */
  lemma AllSectionsStep(c: seq<string>, beg: string, end: string, pos: nat, pre: seq<seq<string>>)
    ensures GetSectionOf(c, beg, end, pos).NoSection? ==>
      Following(pre, AllSectionsFrom(c, beg, end, pos)) == Sections(pre)
    ensures GetSectionOf(c, beg, end, pos).Section? && GetSectionOf(c, beg, end, pos).pos == pos ==>
      Following(pre, AllSectionsFrom(c, beg, end, pos)) == Endless(pre, GetSectionOf(c, beg, end, pos).lines)
    ensures GetSectionOf(c, beg, end, pos).Section? && GetSectionOf(c, beg, end, pos).pos != pos ==>
      Following(pre, AllSectionsFrom(c, beg, end, pos)) ==
        Following(pre + [GetSectionOf(c, beg, end, pos).lines], AllSectionsFrom(c, beg, end, GetSectionOf(c, beg, end, pos).pos))
  {
    var r := GetSectionOf(c, beg, end, pos);
    if r.NoSection? {
      assert pre + [] == pre;
    } else if r.pos != pos {
      var rest := AllSectionsFrom(c, beg, end, r.pos);
      assert pre + ([r.lines] + rest.found) == (pre + [r.lines]) + rest.found;
    } else {
      assert pre + [] == pre;
    }
  }

  /** Every begin-mark line from pos on has an end-mark line after it. */
  predicate Closed(c: seq<string>, beg: string, end: string, pos: int)
  {
    forall b :: pos <= b < |c| && 0 <= b && Contains(c[b], beg) ==> exists e :: b < e < |c| && Contains(c[e], end)
  }

  /** When every begin mark from pos on is closed, a scan that collected something stopped at an end mark. */
  lemma ClosedScanEnds(c: seq<string>, beg: string, end: string, pos: nat)
    requires Closed(c, beg, end, pos)
    requires ScanFrom(c, beg, end, pos).lines != []
    ensures ScanFrom(c, beg, end, pos).endAt.Some?
  {
    var ls := ScanFrom(c, beg, end, pos).lines;
    ScanFromLines(c, beg, end, pos);
    assert ls[0] in ls;
    var m :| pos < m < |c| && 0 <= m && Kept(c, end, m) && BeginBefore(c, beg, pos, m) && ls[0] == Strip(c[m]);
    var b :| pos <= b < m && 0 <= b < |c| && Contains(c[b], beg);
    var e :| b < e < |c| && Contains(c[e], end);
    assert ClosedSectionFrom(c, beg, end, pos);
    ScanFromEndsIff(c, beg, end, pos);
  }

  /** When every begin mark is closed, `get_all_sections` terminates. */
  lemma {:induction false} AllSectionsTerminate(c: seq<string>, beg: string, end: string, pos: nat)
    requires Closed(c, beg, end, pos)
    ensures AllSectionsFrom(c, beg, end, pos).Sections?
    decreases |c| - pos
  {
    var r := GetSectionOf(c, beg, end, pos);
    if r.Section? {
      ClosedScanEnds(c, beg, end, pos);
      assert r.pos > pos;
      AllSectionsTerminate(c, beg, end, r.pos);
    }
  }

  /** A section whose only line is blank is `(-1, -1)`, as if there were none. */
  lemma BlankSectionIsNone()
    ensures GetSectionOf(["BEG\n", "\n", "END\n"], "BEG", "END", 0) == NoSection
  {
    var c := ["BEG\n", "\n", "END\n"];
    assert Contains(c[0], "BEG") && Contains(c[2], "END") && !Contains(c[1], "END");
    assert SectionFrom(c, "END", 1) == Scan([], Some(2));
  }

  lemma ExampleMarks()
    ensures Contains("BEG\n", "BEG") && Contains("END\n", "END")
    ensures !Contains("a\n", "END") && !Contains("b\n", "END") && !Contains("END\n", "BEG")
  {
    ContainsLength("D\n", "BEG");
    assert "END\n"[1..] == "ND\n" && "ND\n"[1..] == "D\n";
    assert !("BEG" <= "END\n") by {
      assert "END\n"[0] != "BEG"[0];
    }
    assert !("BEG" <= "ND\n") by {
      assert "ND\n"[0] != "BEG"[0];
    }
  }

  lemma ExampleStrips()
    ensures Strip("a\n") == "a" && Strip("b\n") == "b"
  {
    assert StripLeading("a\n") == "a\n";
    assert StripLeading("b\n") == "b\n";
  }

  /** Two closed sections are found in file order, each line stripped. */
  lemma TwoSectionsInOrder()
    ensures AllSectionsFrom(["BEG\n", "a\n", "END\n", "BEG\n", "b\n", "END\n"], "BEG", "END", 0) == Sections([["a"], ["b"]])
  {
    var c := ["BEG\n", "a\n", "END\n", "BEG\n", "b\n", "END\n"];
    ExampleMarks();
    ExampleStrips();
    assert SectionFrom(c, "END", 1) == Scan(["a"], Some(2));
    assert SectionFrom(c, "END", 4) == Scan(["b"], Some(5));
    assert ScanFrom(c, "BEG", "END", 0) == Scan(["a"], Some(2));
    assert ScanFrom(c, "BEG", "END", 2) == Scan(["b"], Some(5));
    assert ScanFrom(c, "BEG", "END", 5) == Scan([], None);
    assert AllSectionsFrom(c, "BEG", "END", 5) == Sections([]);
    assert AllSectionsFrom(c, "BEG", "END", 2) == Sections([["b"]]);
  }

  /** A begin mark with no end mark after it hands back the same position, so `get_all_sections` never stops. */
  lemma UnclosedSectionRepeats()
    ensures AllSectionsFrom(["BEG\n", "a\n"], "BEG", "END", 0) == Endless([], ["a"])
  {
    var c := ["BEG\n", "a\n"];
    assert Contains(c[0], "BEG") && !Contains(c[1], "END") && !Contains(c[1], "BEG");
    assert Strip(c[1]) == "a";
    assert GetSectionOf(c, "BEG", "END", 0) == Section(["a"], 0);
  }

  /** The inner loop from j collects something when a kept line m comes before any end mark. */
  lemma {:induction false} SectionFromCollects(c: seq<string>, end: string, j: nat, m: nat)
    requires j <= m < |c| && Kept(c, end, m)
    requires forall e :: j <= e < m ==> !Contains(c[e], end)
    ensures SectionFrom(c, end, j).lines != []
    decreases m - j
  {
    if j < m {
      SectionFromCollects(c, end, j + 1, m);
    }
  }

  /**
   * The outer loop from i collects something when a begin-mark line b from
   * i on is followed by a kept line m, and no begin mark from i on is
   * followed by an end mark.
   */
  lemma {:induction false} ScanFromCollects(c: seq<string>, beg: string, end: string, i: nat, b: nat, m: nat)
    requires i <= b < m < |c| && Contains(c[b], beg) && Kept(c, end, m)
    requires !ClosedSectionFrom(c, beg, end, i)
    ensures ScanFrom(c, beg, end, i).lines != []
    decreases b - i
  {
    if Contains(c[i], beg) {
      var body := SectionFrom(c, end, i + 1);
      if body.endAt.Some? {
        assert ClosedSectionFrom(c, beg, end, i);
      } else if i == b {
        SectionFromEnds(c, end, i + 1);
        SectionFromCollects(c, end, i + 1, m);
      } else {
        ScanFromCollects(c, beg, end, i + 1, b, m);
      }
    } else {
      ScanFromCollects(c, beg, end, i + 1, b, m);
    }
  }

  /**
   * `get_all_sections` never ends when a begin-mark line from pos on is
   * followed by a kept line and no begin mark from pos on is followed by an
   * end mark: the first `get_section` call collects lines and hands back pos.
   */
  lemma UnclosedSectionLoops(c: seq<string>, beg: string, end: string, pos: nat, b: nat, m: nat)
    requires pos <= b < m < |c| && Contains(c[b], beg) && Kept(c, end, m)
    requires !ClosedSectionFrom(c, beg, end, pos)
    ensures AllSectionsFrom(c, beg, end, pos).Endless?
    ensures AllSectionsFrom(c, beg, end, pos).found == []
  {
    ScanFromEndsIff(c, beg, end, pos);
    ScanFromCollects(c, beg, end, pos, b, m);
  }

  class Parser {
    /** The lines of the log file, each with its line break. */
    var content: seq<string>

    /** `Parser(fpath)` once the file has been read into its lines. */
    constructor (lines: seq<string>)
      ensures content == lines
    {
      content := lines;
    }

    /**
     * The inner loop of `get_section`: from line j on, the stripped kept
     * lines up to the first end-mark line, and that line's index.
     */
    method CollectSection(end: string, j: nat) returns (taken: seq<string>, endAt: Option<nat>)
      ensures Scan(taken, endAt) == SectionFrom(content, end, j)
    {
      taken := [];
      endAt := None;
      var ids := j;
      while ids < |content|
        invariant j <= ids
        invariant After(taken, SectionFrom(content, end, ids)) == SectionFrom(content, end, j)
      {
        if content[ids] != "\n" && !Contains(content[ids], end) {
          taken := taken + [Strip(content[ids])];
        }
        if Contains(content[ids], end) {
          endAt := Some(ids);
          return;
        }
        ids := ids + 1;
      }
    }

    /** `get_section`: a loop over the lines from pos and, at each begin-mark line, the inner loop over the lines after it. */
    method GetSection(beg: string, end: string, pos: nat) returns (r: Section)
      ensures r == GetSectionOf(content, beg, end, pos)
    {
      var foundSec: seq<string> := [];
      var at: nat := pos;
      ghost var stop: Option<nat> := None;
      var idl := pos;
      while idl < |content|
        invariant pos <= idl && at == pos && stop == None
        invariant After(foundSec, ScanFrom(content, beg, end, idl)) == ScanFrom(content, beg, end, pos)
        decreases |content| - idl
      {
        ScanFromStep(content, beg, end, idl, foundSec);
        if Contains(content[idl], beg) {
          var taken, endAt := CollectSection(end, idl + 1);
          foundSec := foundSec + taken;
          if endAt.Some? {
            at, stop := endAt.value, endAt;
            break;
          }
        }
        idl := idl + 1;
      }
      assert ScanFrom(content, beg, end, pos) == Scan(foundSec, stop);
      if foundSec != [] {
        r := Section(foundSec, at);
      } else {
        r := NoSection;
      }
    }

    /** `get_all_sections`: calls `get_section` from position 0 on until it returns `-1`. */
    method GetAllSections(beg: string, end: string) returns (r: Sections)
      ensures r == AllSectionsFrom(content, beg, end, 0)
    {
      var pos: nat := 0;
      var finalResults: seq<seq<string>> := [];
      while true
        invariant pos <= |content|
        invariant Following(finalResults, AllSectionsFrom(content, beg, end, pos)) == AllSectionsFrom(content, beg, end, 0)
        decreases |content| - pos
      {
        var result := GetSection(beg, end, pos);
        AllSectionsStep(content, beg, end, pos, finalResults);
        if result.NoSection? {
          r := Sections(finalResults);
          return;
        }
        if result.pos == pos {
          r := Endless(finalResults, result.lines);
          return;
        }
        finalResults := finalResults + [result.lines];
        pos := result.pos;
      }
    }
  }
}
