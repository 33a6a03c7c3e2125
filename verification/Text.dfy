/**
 The string operations that the report parser relies on (src/analysis/markdownParser.ts):
 trimming, splitting at line feeds and recognising a header line.
 */
module Text {
  import opened Sequences

  // ---------- white space ----------

  /** The characters that trim() removes and that \s matches. */
  predicate IsSpace(c: char) {
    || c in "\t\n\U{000b}\U{000c}\r \U{00a0}\U{1680}\U{2028}\U{2029}\U{202f}\U{205f}\U{3000}\U{feff}"
    || '\U{2000}' <= c <= '\U{200a}'
  }

  /** White space and line terminators by code point, as ECMA-262 lists them in sections 12.2 and 12.3. */
  lemma {:induction false} SpaceCodes(c: char)
    ensures IsSpace(c) <==> c as int in {0x9, 0xa, 0xb, 0xc, 0xd, 0x20, 0xa0, 0x1680, 0x2000, 0x2001, 0x2002, 0x2003, 0x2004,
                                         0x2005, 0x2006, 0x2007, 0x2008, 0x2009, 0x200a, 0x2028, 0x2029, 0x202f, 0x205f,
                                         0x3000, 0xfeff}
    ensures IsLineTerminator(c) <==> c as int in {0xa, 0xd, 0x2028, 0x2029}
  {
  }

  /** The characters that a dot in a pattern does not match. */
  predicate IsLineTerminator(c: char) {
    c in "\n\r\U{2028}\U{2029}"
  }

  function TrimStart(s: string): string {
    if s != "" && IsSpace(s[0]) then TrimStart(s[1..]) else s
  }

  function TrimEnd(s: string): string {
    if s != "" && IsSpace(Last(s)) then TrimEnd(Init(s)) else s
  }

  function Trim(s: string): string {
    TrimEnd(TrimStart(s))
  }

  /** Neither end is white space. */
  predicate Trimmed(s: string) {
    s == "" || (!IsSpace(s[0]) && !IsSpace(Last(s)))
  }

  lemma {:induction false} TrimEndKeepsStart(s: string)
    ensures TrimEnd(s) <= s
    ensures TrimEnd(s) != "" ==> !IsSpace(Last(TrimEnd(s)))
    decreases |s|
  {
    if s != "" && IsSpace(Last(s)) {
      TrimEndKeepsStart(Init(s));
    }
  }

  lemma {:induction false} TrimStartIsDone(s: string)
    ensures TrimStart(s) != "" ==> !IsSpace(TrimStart(s)[0])
    decreases |s|
  {
    if s != "" && IsSpace(s[0]) {
      TrimStartIsDone(s[1..]);
    }
  }

  lemma {:induction false} TrimIsTrimmed(s: string)
    ensures Trimmed(Trim(s))
    ensures Trimmed(s) ==> Trim(s) == s
  {
    TrimStartIsDone(s);
    TrimEndKeepsStart(TrimStart(s));
  }

  /** Leading white space does not matter to trim. */
  lemma {:induction false} TrimAbsorbsLeadingSpace(c: char, s: string)
    requires IsSpace(c)
    ensures Trim([c] + s) == Trim(s)
  {
    assert ([c] + s)[1..] == s;
  }

  /** Trailing white space does not matter to trim. */
  lemma {:induction false} TrimAbsorbsTrailingSpace(s: string, c: char)
    requires IsSpace(c)
    ensures Trim(s + [c]) == Trim(s)
    decreases |s|
  {
    if s == "" {
      assert (s + [c])[1..] == "";
    } else if IsSpace(s[0]) {
      assert (s + [c])[1..] == s[1..] + [c];
      TrimAbsorbsTrailingSpace(s[1..], c);
    } else {
      assert Init(s + [c]) == s;
    }
  }

  lemma {:induction false} TrimAbsorbsLeadingSpaces(spaces: string, s: string)
    requires forall c :: c in spaces ==> IsSpace(c)
    ensures Trim(spaces + s) == Trim(s)
    decreases |spaces|
  {
    if spaces == "" {
      assert spaces + s == s;
    } else {
      assert spaces + s == [spaces[0]] + (spaces[1..] + s);
      TrimAbsorbsLeadingSpace(spaces[0], spaces[1..] + s);
      TrimAbsorbsLeadingSpaces(spaces[1..], s);
    }
  }

  lemma {:induction false} TrimAbsorbsTrailingSpaces(s: string, spaces: string)
    requires AllSpace(spaces)
    ensures Trim(s + spaces) == Trim(s)
    decreases |spaces|
  {
    hide IsSpace;
    if spaces == "" {
      assert s + spaces == s;
    } else {
      assert s + spaces == (s + Init(spaces)) + [Last(spaces)];
      TrimAbsorbsTrailingSpace(s + Init(spaces), Last(spaces));
      TrimAbsorbsTrailingSpaces(s, Init(spaces));
    }
  }

  ghost predicate AllSpace(s: string) {
    forall c :: c in s ==> IsSpace(c)
  }

  lemma {:induction false} TrimStartSplits(s: string) returns (u: string)
    ensures AllSpace(u) && s == u + TrimStart(s)
    decreases |s|
  {
    hide IsSpace;
    if s != "" && IsSpace(s[0]) {
      u := TrimStartSplits(s[1..]);
      u := [s[0]] + u;
    } else {
      u := "";
    }
  }

  lemma {:induction false} TrimEndSplits(s: string) returns (v: string)
    ensures AllSpace(v) && s == TrimEnd(s) + v
    decreases |s|
  {
    hide IsSpace;
    if s != "" && IsSpace(Last(s)) {
      v := TrimEndSplits(Init(s));
      v := v + [Last(s)];
    } else {
      v := "";
    }
  }

  /** Trimming takes away white space at both ends, and nothing else can be the result. */
  lemma {:induction false} TrimIff(s: string, t: string)
    ensures t == Trim(s) <==> Trimmed(t) && exists u, v :: AllSpace(u) && AllSpace(v) && s == u + t + v
  {
    hide IsSpace;
    TrimIsTrimmed(s);
    var u := TrimStartSplits(s);
    var v := TrimEndSplits(TrimStart(s));
    assert s == u + Trim(s) + v;
    if u', v' :| Trimmed(t) && AllSpace(u') && AllSpace(v') && s == u' + t + v' {
      assert s == u' + (t + v');
      TrimAbsorbsLeadingSpaces(u', t + v');
      TrimAbsorbsTrailingSpaces(t, v');
      TrimIsTrimmed(t);
    }
  }

  // ---------- lines ----------

  function Join(lines: seq<string>): string {
    if lines == [] then ""
    else if |lines| == 1 then lines[0]
    else Join(Init(lines)) + "\n" + Last(lines)
  }

  /** The lines of a text; a line feed at the end opens an empty last line. */
  function Split(s: string): (lines: seq<string>)
    ensures lines != []
  {
    if s == "" then [""] else AddLast(Split(Init(s)), Last(s))
  }

  function AddLast(lines: seq<string>, d: char): seq<string>
    requires lines != []
  {
    if d == '\n' then lines + [""] else Init(lines) + [Last(lines) + [d]]
  }

  lemma {:induction false} SplitAtLastLine(s: string, line: string)
    requires '\n' !in line
    ensures Split(s + "\n" + line) == Split(s) + [line]
    decreases |line|
  {
    var whole := s + "\n" + line;
    if line == "" {
      assert whole == s + "\n";
      assert Init(whole) == s && Last(whole) == '\n';
    } else {
      assert Init(whole) == s + "\n" + Init(line);
      SplitAtLastLine(s, Init(line));
      assert Init(Split(s) + [Init(line)]) == Split(s);
      assert Last(line) in line && Last(whole) == Last(line);
      assert Init(line) + [Last(line)] == line;
    }
  }

  lemma {:induction false} SplitOneLine(line: string)
    requires '\n' !in line
    ensures Split(line) == [line]
    decreases |line|
  {
    if line != "" {
      SplitOneLine(Init(line));
      assert Last(line) in line;
      assert Init(line) + [Last(line)] == line;
      assert Init([Init(line)]) == [];
    }
  }

  /** Splitting undoes joining, for lines that contain no line feed. */
  lemma {:induction false} SplitOfJoin(lines: seq<string>)
    requires lines != [] && forall line :: line in lines ==> '\n' !in line
    ensures Split(Join(lines)) == lines
    decreases |lines|
  {
    assert Last(lines) in lines;
    if |lines| == 1 {
      SplitOneLine(lines[0]);
    } else {
      SplitOfJoin(Init(lines));
      SplitAtLastLine(Join(Init(lines)), Last(lines));
    }
  }

  lemma {:induction false} LinesHaveNoLineFeed(s: string)
    ensures forall line :: line in Split(s) ==> '\n' !in line
    decreases |s|
  {
    if s != "" {
      LinesHaveNoLineFeed(Init(s));
      var lines := Split(Init(s));
      assert Last(lines) in lines;
    }
  }

  lemma {:induction false} JoinOfSplit(s: string)
    ensures Join(Split(s)) == s
    decreases |s|
  {
    if s != "" {
      var lines := Split(Init(s));
      JoinOfSplit(Init(s));
      if Last(s) == '\n' {
        assert Init(lines + [""]) == lines;
      } else {
        var longer := Init(lines) + [Last(lines) + [Last(s)]];
        assert Init(longer) == Init(lines) && Last(longer) == Last(lines) + [Last(s)];
      }
      assert s == Init(s) + [Last(s)];
    }
  }

  /** Splitting a text at line feeds yields the one non-empty list of lines without line feeds that joining makes the text again. */
  lemma {:induction false} SplitIff(s: string, lines: seq<string>)
    ensures lines == Split(s) <==> lines != [] && (forall line :: line in lines ==> '\n' !in line) && Join(lines) == s
  {
    JoinOfSplit(s);
    LinesHaveNoLineFeed(s);
    if lines != [] && (forall line :: line in lines ==> '\n' !in line) && Join(lines) == s {
      SplitOfJoin(lines);
    }
  }

  /** Joining puts a line feed between any two neighbours and nothing else. */
  lemma {:induction false} JoinOfParts(a: seq<string>, b: seq<string>)
    requires a != [] && b != []
    ensures Join(a + b) == Join(a) + "\n" + Join(b)
    decreases |b|
  {
    if |b| == 1 {
      assert Init(a + b) == a;
    } else {
      assert Init(a + b) == a + Init(b) && Last(a + b) == Last(b);
      JoinOfParts(a, Init(b));
    }
  }

  /** How a character in front of a text changes its lines. */
  lemma {:induction false} SplitAfterFirst(c: char, s: string)
    ensures Split([c] + s) == AddFirst(c, Split(s))
    decreases |s|
  {
    var whole := [c] + s;
    if s == "" {
      assert whole == [c] && Init(whole) == "" && Last(whole) == c;
      assert Split([c]) == AddLast([""], c);
      assert "" + [c] == [c] + "";
      assert Init([""]) == [] && [""][1..] == [];
    } else {
      var init, d := Init(s), Last(s);
      var lines := Split(init);
      assert Init(whole) == [c] + init && Last(whole) == d;
      SplitAfterFirst(c, init);
      assert Split(whole) == AddLast(Split([c] + init), d) && Split(s) == AddLast(lines, d);
      hide Split;
      AddFirstThenLast(c, lines, d);
    }
  }

  function AddFirst(c: char, lines: seq<string>): seq<string>
    requires lines != []
  {
    if c == '\n' then [""] + lines else [[c] + lines[0]] + lines[1..]
  }

  lemma {:induction false} AddFirstThenLast(c: char, lines: seq<string>, d: char)
    requires lines != []
    ensures AddLast(AddFirst(c, lines), d) == AddFirst(c, AddLast(lines, d))
  {
    var left, right := AddLast(AddFirst(c, lines), d), AddFirst(c, AddLast(lines, d));
    if d != '\n' {
      if c == '\n' {
        assert Init([""] + lines) == [""] + Init(lines);
      } else if |lines| == 1 {
        assert [c] + (lines[0] + [d]) == ([c] + lines[0]) + [d];
        assert left == [([c] + lines[0]) + [d]] && right == [[c] + (lines[0] + [d])];
      } else {
        assert Init([[c] + lines[0]] + lines[1..]) == [[c] + lines[0]] + Init(lines)[1..];
        assert left == right;
      }
    }
  }
}
