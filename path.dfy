/**
 * src/path.cpp: path helpers.
 *
 * `get_basename` and `join_path` are string functions. `make_path` replaces
 * every separator by a space, splits the result into words the way a
 * `std::stringstream` extracts them, and calls `mkdir` on every cumulative
 * prefix `w0 + sep`, `w0 + sep + w1 + sep`, ...; the model returns the list
 * of directories handed to `mkdir` instead of creating them.
 */
module Path {
  /** The path separator of `get_basename` and `join_path`. */
  const Sep: char := '/'

  /** `std::string::rfind(c)`: the index of the last c in s, or -1 for `npos`. */
  function RFind(s: string, c: char): (i: int)
    ensures -1 <= i < |s|
    ensures i >= 0 ==> s[i] == c
    ensures forall j :: i < j < |s| ==> s[j] != c
  {
    if s == [] then -1
    else if s[|s| - 1] == c then |s| - 1
    else RFind(s[..|s| - 1], c)
  }

  /** `get_basename`: what follows the last '/', or "" when there is none. */
  function GetBasename(s: string): (b: string)
    ensures b != "" ==> |b| < |s| && b == s[|s| - |b|..]
    ensures forall k :: 0 <= k < |b| ==> b[k] != Sep
  {
    var i := RFind(s, Sep);
    if i != -1 then s[i + 1..] else ""
  }

  /**
   * The basename has no '/'. When s has a '/', s is some directory part, a
   * '/' and the basename; when it has none the basename is "" (not s). A
   * path ending in '/' has the empty basename.
   */
  lemma GetBasenameFacts(s: string)
    ensures Sep !in GetBasename(s)
    ensures Sep in s ==> exists d :: s == d + [Sep] + GetBasename(s)
    ensures Sep !in s ==> GetBasename(s) == ""
    ensures |s| > 0 && s[|s| - 1] == Sep ==> GetBasename(s) == ""
  {
    var i := RFind(s, Sep);
    if i != -1 {
      assert s == s[..i] + [Sep] + s[i + 1..];
    }
  }

  /** The basename of d + "/" + b is b, for any b without '/'. */
  lemma BasenameOfChild(d: string, b: string)
    requires Sep !in b
    ensures GetBasename(d + [Sep] + b) == b
  {
    var s := d + [Sep] + b;
    var i := RFind(s, Sep);
    assert s[|d|] == Sep;
    assert i == |d|;
    assert s[i + 1..] == b;
  }

  /** a without one trailing '/'. */
  function DropTrailingSep(a: string): string
  {
    if |a| > 0 && a[|a| - 1] == Sep then a[..|a| - 1] else a
  }

  /** b without one leading '/'. */
  function DropLeadingSep(b: string): string
  {
    if |b| > 0 && b[0] == Sep then b[1..] else b
  }

  /**
   * `join_path`: a and b with one '/' between them, added when neither has
   * one at the seam and removed when both have one. `b[0]` of an empty b
   * reads the terminating NUL, which is not a separator; `a.back()` needs a
   * non-empty a.
   */
  function JoinPath(a: string, b: string): (r: string)
    requires |a| > 0
    ensures r == DropTrailingSep(a) + [Sep] + DropLeadingSep(b)
  {
    var finalA := a[|a| - 1];
    var beginB := if |b| > 0 then b[0] else '\0';
    if finalA != Sep && beginB != Sep then a + [Sep] + b
    else if finalA == Sep && beginB == Sep then
      assert b == [Sep] + b[1..];
      a[..|a| - 1] + b
    else if finalA == Sep then
      assert a == a[..|a| - 1] + [Sep];
      a + b
    else
      assert b == [Sep] + b[1..];
      a + b
  }

  /** The joined length: one more than |a| + |b| with no separator at the seam, one less with two, and |a| + |b| with one. */
  lemma JoinPathLength(a: string, b: string)
    requires |a| > 0
    ensures var finalSep, beginSep := a[|a| - 1] == Sep, |b| > 0 && b[0] == Sep;
      |JoinPath(a, b)| == |a| + |b| + (if !finalSep && !beginSep then 1 else if finalSep && beginSep then -1 else 0)
  {
  }

  /** Joining a child without '/' and taking the basename gives the child back. */
  lemma BasenameOfJoinPath(a: string, b: string)
    requires |a| > 0 && Sep !in b
    ensures GetBasename(JoinPath(a, b)) == b
  {
    assert DropLeadingSep(b) == b;
    BasenameOfChild(DropTrailingSep(a), b);
  }

  /** The characters a `std::stringstream` skips between words (`isspace` in the C locale). */
  predicate IsSpace(c: char)
  {
    c == ' ' || c == '\t' || c == '\n' || c == '\U{000B}' || c == '\U{000C}' || c == '\r'
  }

  /** `std::replace(path, sep, ' ')`. */
  function Replaced(s: string, sep: char): (r: string)
    ensures |r| == |s|
  {
    seq(|s|, i requires 0 <= i < |s| => if s[i] == sep then ' ' else s[i])
  }

  /** The number of leading non-space characters of s. */
  function WordLength(s: string): (n: nat)
    ensures n <= |s|
  {
    if s == [] || IsSpace(s[0]) then 0 else 1 + WordLength(s[1..])
  }

  /** The words of s, as repeated `ss >> temp` extracts them: leading spaces skipped, then the longest run of non-spaces. */
  function Words(s: string): seq<string>
    decreases |s|
  {
    if s == [] then []
    else if IsSpace(s[0]) then Words(s[1..])
    else [s[..WordLength(s)]] + Words(s[WordLength(s)..])
  }

  /** A run of non-spaces from j that stops at k, at a space or at the end, is the word at j. */
  lemma {:induction false} WordLengthAt(s: string, j: int, k: int)
    requires 0 <= j <= k <= |s|
    requires forall t :: j <= t < k ==> !IsSpace(s[t])
    requires k == |s| || IsSpace(s[k])
    ensures WordLength(s[j..]) == k - j
    decreases k - j
  {
    if j < k {
      WordLengthAt(s, j + 1, k);
      assert s[j..][1..] == s[j + 1..];
    }
  }

  /** Every word is non-empty and holds no space. */
  lemma {:induction false} WordsAreWords(s: string)
    ensures forall i :: 0 <= i < |Words(s)| ==> |Words(s)[i]| > 0 && forall c :: c in Words(s)[i] ==> !IsSpace(c)
    decreases |s|
  {
    if s != [] {
      if IsSpace(s[0]) {
        WordsAreWords(s[1..]);
      } else {
        var n := WordLength(s);
        WordsAreWords(s[n..]);
        WordHasNoSpace(s);
      }
    }
  }

  /** The leading word holds no space. */
  lemma {:induction false} WordHasNoSpace(s: string)
    ensures forall c :: c in s[..WordLength(s)] ==> !IsSpace(c)
  {
    if s != [] && !IsSpace(s[0]) {
      WordHasNoSpace(s[1..]);
      assert s[..WordLength(s)] == [s[0]] + s[1..][..WordLength(s[1..])];
    }
  }

  /** The words separated by single spaces. */
  function Unwords(ws: seq<string>): string
  {
    if ws == [] then ""
    else if |ws| == 1 then ws[0]
    else ws[0] + " " + Unwords(ws[1..])
  }

  /** The words of a word w followed by nothing or by a space are w and the words after it. */
  lemma LeadingWord(w: string, t: string)
    requires |w| > 0 && forall c :: c in w ==> !IsSpace(c)
    requires t == [] || IsSpace(t[0])
    ensures Words(w + t) == [w] + Words(t)
  {
    var s := w + t;
    WordLengthAt(s, 0, |w|);
    assert s[0..] == s;
    assert s[..|w|] == w && s[|w|..] == t;
  }

  /** Splitting words joined by spaces gives the words back. */
  lemma {:induction false} WordsOfUnwords(ws: seq<string>)
    requires forall i :: 0 <= i < |ws| ==> |ws[i]| > 0 && forall c :: c in ws[i] ==> !IsSpace(c)
    ensures Words(Unwords(ws)) == ws
  {
    if |ws| == 1 {
      LeadingWord(ws[0], []);
      assert ws[0] + [] == ws[0];
    } else if |ws| > 1 {
      var rest := " " + Unwords(ws[1..]);
      WordsOfUnwords(ws[1..]);
      LeadingWord(ws[0], rest);
      assert ws[0] + " " + Unwords(ws[1..]) == ws[0] + rest;
      assert Words(rest) == Words(Unwords(ws[1..])) by {
        assert rest[1..] == Unwords(ws[1..]);
      }
    }
  }

  /** w0 + sep + w1 + sep + ... + wn + sep. */
  function Joined(ws: seq<string>, sep: char): string
  {
    if ws == [] then "" else Joined(ws[..|ws| - 1], sep) + ws[|ws| - 1] + [sep]
  }

  /** The directories `make_path` creates, in order: the cumulative prefixes of its words, each closed by sep. */
  function Prefixes(ws: seq<string>, sep: char): (ps: seq<string>)
    ensures |ps| == |ws|
  {
    seq(|ws|, k requires 0 <= k < |ws| => Joined(ws[..k + 1], sep))
  }

  /** Every prefix ends in sep and extends the one before it by the next word and sep. */
  lemma PrefixesFacts(ws: seq<string>, sep: char)
    ensures forall k :: 0 <= k < |ws| ==> |Prefixes(ws, sep)[k]| > 0 && Prefixes(ws, sep)[k][|Prefixes(ws, sep)[k]| - 1] == sep
    ensures |ws| > 0 ==> Prefixes(ws, sep)[0] == ws[0] + [sep]
    ensures forall k :: 0 < k < |ws| ==> Prefixes(ws, sep)[k] == Prefixes(ws, sep)[k - 1] + ws[k] + [sep]
  {
    forall k | 0 < k < |ws|
      ensures Prefixes(ws, sep)[k] == Prefixes(ws, sep)[k - 1] + ws[k] + [sep]
    {
      assert ws[..k + 1][..k] == ws[..k];
    }
    if |ws| > 0 {
      assert ws[..1][..0] == [] && ws[..1][0] == ws[0];
      assert Joined(ws[..1], sep) == "" + ws[0] + [sep];
    }
  }

  /** The directories `make_path(path, sep)` hands to `mkdir`. */
  function MakePathDirs(path: string, sep: char): seq<string>
  {
    Prefixes(Words(Replaced(path, sep)), sep)
  }

  /** `std::replace(path.begin(), path.end(), sep, ' ')`, one character at a time. */
  method ReplaceSep(path: string, sep: char) returns (r: string)
    ensures r == Replaced(path, sep)
  {
    r := path;
    for i := 0 to |r|
      invariant |r| == |path|
      invariant forall j :: 0 <= j < |path| ==> r[j] == if j < i && path[j] == sep then ' ' else path[j]
    {
      if r[i] == sep {
        r := r[i := ' '];
      }
    }
  }

  /** One `ss >> temp` from position i: skip the spaces, then read up to the next space; ok is false at the end of the stream. */
  method Extract(s: string, i: int) returns (ok: bool, word: string, next: int)
    requires 0 <= i <= |s|
    ensures i <= next <= |s|
    ensures !ok ==> Words(s[i..]) == []
    ensures ok ==> next > i && Words(s[i..]) == [word] + Words(s[next..])
  {
    var j := i;
    while j < |s| && IsSpace(s[j])
      invariant i <= j <= |s|
      invariant Words(s[j..]) == Words(s[i..])
    {
      assert s[j..][1..] == s[j + 1..];
      j := j + 1;
    }
    if j == |s| {
      return false, "", j;
    }
    var k := j;
    while k < |s| && !IsSpace(s[k])
      invariant j <= k <= |s|
      invariant forall t :: j <= t < k ==> !IsSpace(s[t])
    {
      k := k + 1;
    }
    WordLengthAt(s, j, k);
    assert s[j..][..k - j] == s[j..k] && s[j..][k - j..] == s[k..];
    ok, word, next := true, s[j..k], k;
  }

  /** `while (ss >> temp) separated_path.push_back(temp)`. */
  method SplitWords(s: string) returns (words: seq<string>)
    ensures words == Words(s)
  {
    words := [];
    var i := 0;
    assert s[0..] == s;
    while true
      invariant 0 <= i <= |s|
      invariant words + Words(s[i..]) == Words(s)
      decreases |s| - i
    {
      var ok, word, next := Extract(s, i);
      if !ok {
        break;
      }
      words := words + [word];
      i := next;
    }
  }

  /** `make_path`: the directories it creates, in creation order. */
  method MakePath(path: string, sep: char) returns (created: seq<string>)
    ensures created == MakePathDirs(path, sep)
  {
    var replaced := ReplaceSep(path, sep);
    var separatedPath := SplitWords(replaced);
    var reconstructedPath := "";
    created := [];
    for i := 0 to |separatedPath|
      invariant reconstructedPath == Joined(separatedPath[..i], sep)
      invariant |created| == i
      invariant forall k :: 0 <= k < i ==> created[k] == Joined(separatedPath[..k + 1], sep)
    {
      assert separatedPath[..i + 1][..i] == separatedPath[..i];
      reconstructedPath := reconstructedPath + separatedPath[i] + [sep];
      created := created + [reconstructedPath];
    }
  }

  /** Every directory `make_path` creates is relative: it starts with a character that is neither sep nor a space. */
  lemma MakePathDirsRelative(path: string, sep: char)
    ensures forall k :: 0 <= k < |MakePathDirs(path, sep)| ==>
      |MakePathDirs(path, sep)[k]| > 0 && MakePathDirs(path, sep)[k][0] != sep && !IsSpace(MakePathDirs(path, sep)[k][0])
  {
    var r := Replaced(path, sep);
    var ws := Words(r);
    WordsAreWords(r);
    if |ws| > 0 {
      assert ws[0][0] in ws[0];
      WordsComeFrom(r, sep, 0);
    }
    forall k | 0 <= k < |ws|
      ensures |Prefixes(ws, sep)[k]| > 0 && Prefixes(ws, sep)[k][0] == ws[0][0]
    {
      JoinedStartsWithFirst(ws[..k + 1], sep);
    }
  }

  /** A non-empty join starts with the first character of its first word. */
  lemma {:induction false} JoinedStartsWithFirst(ws: seq<string>, sep: char)
    requires |ws| > 0 && |ws[0]| > 0
    ensures |Joined(ws, sep)| > 0 && Joined(ws, sep)[0] == ws[0][0]
  {
    if |ws| > 1 {
      JoinedStartsWithFirst(ws[..|ws| - 1], sep);
    }
  }

  /** No word of a replaced path contains sep, since every sep became a space. */
  lemma WordsComeFrom(r: string, sep: char, k: int)
    requires forall i :: 0 <= i < |r| ==> r[i] != sep || IsSpace(r[i])
    requires 0 <= k < |Words(r)|
    ensures sep !in Words(r)[k]
  {
    WordsCharsFrom(r);
    WordsAreWords(r);
    forall c | c in Words(r)[k]
      ensures c != sep
    {
      assert c in r;
      var i :| 0 <= i < |r| && r[i] == c;
      assert !IsSpace(c);
    }

  }

  /** Every character of a word is a non-space character of the string. */
  lemma {:induction false} WordsCharsFrom(s: string)
    ensures forall k, c :: 0 <= k < |Words(s)| && c in Words(s)[k] ==> c in s
    decreases |s|
  {
    if s != [] {
      var n := if IsSpace(s[0]) then 1 else WordLength(s);
      WordsCharsFrom(s[n..]);
      forall k, c | 0 <= k < |Words(s)| && c in Words(s)[k]
        ensures c in s
      {
        if IsSpace(s[0]) {
          assert c in s[1..];
        } else if k == 0 {
          assert c in s[..n];
        } else {
          assert Words(s)[k] == Words(s[n..])[k - 1];
          assert c in s[n..];
        }
      }
    }
  }

  /** A leading separator is dropped: `make_path("/a/b")` creates the same directories as `make_path("a/b")`. */
  lemma MakePathDropsLeadingSep(path: string, sep: char)
    ensures MakePathDirs([sep] + path, sep) == MakePathDirs(path, sep)
  {
    var r := Replaced([sep] + path, sep);
    assert r == " " + Replaced(path, sep);
    assert r[1..] == Replaced(path, sep);
  }

  /** The path s0 sep s1 sep ... sn. */
  function SepJoined(ws: seq<string>, sep: char): string
  {
    if ws == [] then ""
    else if |ws| == 1 then ws[0]
    else ws[0] + [sep] + SepJoined(ws[1..], sep)
  }

  /** Replacing sep by spaces in segments joined by sep joins them by spaces, when no segment holds sep. */
  lemma {:induction false} ReplacedSepJoined(ws: seq<string>, sep: char)
    requires forall i :: 0 <= i < |ws| ==> sep !in ws[i]
    ensures Replaced(SepJoined(ws, sep), sep) == Unwords(ws)
  {
    if |ws| == 1 {
      assert Replaced(ws[0], sep) == ws[0];
    } else if |ws| > 1 {
      ReplacedSepJoined(ws[1..], sep);
      ReplacedConcat(ws[0], [sep] + SepJoined(ws[1..], sep), sep);
      ReplacedConcat([sep], SepJoined(ws[1..], sep), sep);
      assert Replaced(ws[0], sep) == ws[0];
      assert ws[0] + [sep] + SepJoined(ws[1..], sep) == ws[0] + ([sep] + SepJoined(ws[1..], sep));
      assert ws[0] + " " + Unwords(ws[1..]) == ws[0] + (" " + Unwords(ws[1..]));
    }
  }

  /** Replacing works character by character, so it distributes over concatenation. */
  lemma ReplacedConcat(a: string, b: string, sep: char)
    ensures Replaced(a + b, sep) == Replaced(a, sep) + Replaced(b, sep)
  {
  }

  /** `make_path` on segments s0 / s1 / ... / sn (non-empty, without sep or spaces) creates s0/, s0/s1/, ..., s0/.../sn/. */
  lemma MakePathOfSegments(ws: seq<string>, sep: char)
    requires forall i :: 0 <= i < |ws| ==> |ws[i]| > 0 && sep !in ws[i] && forall c :: c in ws[i] ==> !IsSpace(c)
    ensures MakePathDirs(SepJoined(ws, sep), sep) == Prefixes(ws, sep)
  {
    ReplacedSepJoined(ws, sep);
    WordsOfUnwords(ws);
  }
}
