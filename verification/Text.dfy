/** Splitting, joining and trimming of text, as Go's strings package does them. */
module Text {

  function Split(s: string, sep: char): (parts: seq<string>)
    ensures parts != []
  {
    if s == [] then [""]
    else
      var rest := Split(s[1..], sep);
      if s[0] == sep then [""] + rest else [[s[0]] + rest[0]] + rest[1..]
  }

  function Join(parts: seq<string>, sep: char): string
    requires parts != []
  {
    if |parts| == 1 then parts[0] else parts[0] + [sep] + Join(parts[1..], sep)
  }

  /** Splitting distributes over a separator. */
  lemma {:induction false} SplitAt(a: string, b: string, sep: char)
    ensures Split(a + [sep] + b, sep) == Split(a, sep) + Split(b, sep)
  {
    var s := a + [sep] + b;
    if a == [] {
      assert s[1..] == b;
    } else {
      assert s[1..] == a[1..] + [sep] + b;
      SplitAt(a[1..], b, sep);
    }
  }

  lemma {:induction false} SplitPlain(s: string, sep: char)
    requires sep !in s
    ensures Split(s, sep) == [s]
  {
    if s != [] {
      SplitPlain(s[1..], sep);
      assert [s[0]] + s[1..] == s;
    }
  }

  /** Parts without the separator survive being joined and split again. */
  lemma {:induction false} SplitJoin(parts: seq<string>, sep: char)
    requires parts != [] && forall p :: p in parts ==> sep !in p
    ensures Split(Join(parts, sep), sep) == parts
  {
    SplitPlain(parts[0], sep);
    if |parts| > 1 {
      SplitJoin(parts[1..], sep);
      SplitAt(parts[0], Join(parts[1..], sep), sep);
      assert [parts[0]] + parts[1..] == parts;
    }
  }

  /** What is cut short behind a joined part, or within one, splits into the parts up to there. */
  lemma {:induction false} SplitPrefix(parts: seq<string>, sep: char, p: nat) returns (m: nat, q: nat)
    requires parts != [] && (forall part :: part in parts ==> sep !in part) && p < |Join(parts, sep)|
    ensures m < |parts| && q <= |parts[m]| && (m < |parts| - 1 || q < |parts[m]|)
    ensures Split(Join(parts, sep)[..p], sep) == parts[..m] + [parts[m][..q]]
  {
    var first, s := parts[0], Join(parts, sep)[..p];
    if p <= |first| {
      m, q := 0, p;
      assert s == first[..p] && first in parts;
      SplitPlain(s, sep);
    } else {
      m, q := SplitPrefix(parts[1..], sep, p - |first| - 1);
      assert s == first + [sep] + Join(parts[1..], sep)[..p - |first| - 1];
      SplitPlain(first, sep);
      SplitAt(first, Join(parts[1..], sep)[..p - |first| - 1], sep);
      m := m + 1;
    }
  }

  predicate IsSpace(c: char) {
    || '\t' <= c <= '\r' || c == ' ' || c == '\U{85}' || c == '\U{A0}' || c == '\U{1680}'
    || '\U{2000}' <= c <= '\U{200A}' || c == '\U{2028}' || c == '\U{2029}' || c == '\U{202F}'
    || c == '\U{205F}' || c == '\U{3000}'
  }

  function TrimSpace(s: string): string {
    if s == [] then s
    else if IsSpace(s[0]) then TrimSpace(s[1..])
    else if IsSpace(s[|s| - 1]) then TrimSpace(s[..|s| - 1])
    else s
  }

  /** The code points that Go takes for white space. */
  ghost predicate White(c: char) {
    var n := c as int;
    || n in {9, 10, 11, 12, 13, 0x20, 0x85, 0xA0, 0x1680, 0x2028, 0x2029, 0x202F, 0x205F, 0x3000}
    || n in {0x2000, 0x2001, 0x2002, 0x2003, 0x2004, 0x2005, 0x2006, 0x2007, 0x2008, 0x2009, 0x200A}
  }

  lemma SpaceIsWhite(c: char)
    ensures IsSpace(c) <==> White(c)
  {
  }

  /** What is left is the middle, from the first to the last character that is not white. */
  lemma {:induction false} TrimSpaceIsMiddle(s: string) returns (i: nat, j: nat)
    ensures i <= j <= |s| && TrimSpace(s) == s[i..j]
    ensures forall k :: 0 <= k < |s| && (k < i || k >= j) ==> White(s[k])
    ensures i < j ==> !White(s[i]) && !White(s[j - 1])
    decreases |s|
  {
    if s != [] {
      SpaceIsWhite(s[0]);
      SpaceIsWhite(s[|s| - 1]);
    }
    i, j := 0, |s|;
    if s != [] && IsSpace(s[0]) {
      i, j := TrimSpaceIsMiddle(s[1..]);
      assert s[1..][i..j] == s[i + 1..j + 1];
      i, j := i + 1, j + 1;
    } else if s != [] && IsSpace(s[|s| - 1]) {
      i, j := TrimSpaceIsMiddle(s[..|s| - 1]);
      assert s[..|s| - 1][i..j] == s[i..j];
    } else {
      assert s[0..|s|] == s;
    }
  }

  predicate Trimmed(s: string) {
    s == "" || (!IsSpace(s[0]) && !IsSpace(s[|s| - 1]))
  }

  function Trims(parts: seq<string>): set<string> {
    set p | p in parts :: TrimSpace(p)
  }

  function Lines(text: string): set<string> {
    Trims(Split(text, '\n'))
  }

  lemma TrimsConcat(a: seq<string>, b: seq<string>)
    ensures Trims(a + b) == Trims(a) + Trims(b)
  {
    assert forall p :: p in a + b <==> p in a || p in b;
  }

  lemma LinesEmpty()
    ensures Lines("") == {""}
  {
    assert [""][0] == "" && TrimSpace("") == "";
  }

  lemma SplitLine(head: string, line: string)
    requires '\n' !in line
    ensures Split(head + "\n", '\n') == Split(head, '\n') + [""]
    ensures Split(head + "\n" + line + "\n", '\n') == Split(head, '\n') + [line, ""]
  {
    SplitPlain(line, '\n');
    SplitAt(line, "", '\n');
    assert line + ['\n'] + "" == line + "\n";
    SplitAt(head, "", '\n');
    assert head + ['\n'] + "" == head + "\n";
    SplitAt(head, line + "\n", '\n');
    assert head + ['\n'] + (line + "\n") == head + "\n" + line + "\n";
  }

  lemma TrimsLine(line: string)
    requires Trimmed(line)
    ensures Trims([line, ""]) == {line, ""}
  {
    assert [line, ""][0] == line && [line, ""][1] == "";
    assert TrimSpace(line) == line && TrimSpace("") == "";
  }

  /** Appending one more line to a text that is empty or ends a line adds exactly that line. */
  lemma LinesAppend(text: string, line: string)
    requires text == "" || text[|text| - 1] == '\n'
    requires '\n' !in line && Trimmed(line)
    ensures Lines(text + line + "\n") == Lines(text) + {line, ""}
  {
    TrimsLine(line);
    LinesEmpty();
    if text == "" {
      SplitPlain(line, '\n');
      SplitAt(line, "", '\n');
      assert text + line + "\n" == line + ['\n'] + "";
    } else {
      var head := text[..|text| - 1];
      assert text == head + "\n";
      SplitLine(head, line);
      TrimsConcat(Split(head, '\n'), [""]);
      TrimsConcat(Split(head, '\n'), [line, ""]);
    }
  }
}
