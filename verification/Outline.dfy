/**
 The meaning of a Markdown outline (src/analysis/markdownParser.ts), apart from how the parser
 builds it: header lines, the entries they open, and the forest that the header levels describe.
 */
module Outline {
  import opened Sequences
  import opened Text

  // ---------- lines ----------

  datatype Line = Header(level: nat, title: string) | Plain

  function HashRun(s: string): nat {
    if s != "" && s[0] == '#' then 1 + HashRun(s[1..]) else 0
  }

  /**
   A trimmed line is a header if it is one to six hashes, white space, and a title without a line
   terminator.
   */
  function Classify(line: string): Line {
    var trimmed := Trim(line);
    var level := HashRun(trimmed);
    HashRunIsPrefix(trimmed);
    if 1 <= level <= 6 && level < |trimmed| && IsSpace(trimmed[level]) then
      var title := TrimStart(trimmed[level..]);
      if exists c :: c in title && IsLineTerminator(c) then Plain else Header(level, title)
    else
      Plain
  }

  lemma {:induction false} HashRunIsPrefix(s: string)
    ensures HashRun(s) <= |s|
    ensures forall i :: 0 <= i < HashRun(s) ==> s[i] == '#'
    ensures HashRun(s) < |s| ==> s[HashRun(s)] != '#'
  {
    if s != "" && s[0] == '#' {
      HashRunIsPrefix(s[1..]);
      assert forall i :: 1 <= i < |s| ==> s[i] == s[1..][i - 1];
    }
  }

  // ---------- entries ----------

  datatype Entry = Entry(level: nat, title: string, content: string)

  /** How many lines come before the first header. */
  function TextRun(lines: seq<string>): (n: nat)
    ensures n <= |lines|
  {
    if lines != [] && Classify(lines[0]).Plain? then 1 + TextRun(lines[1..]) else 0
  }

  /** One entry per header, in order; its content is the trimmed text up to the next header. */
  function Entries(lines: seq<string>): seq<Entry> {
    if lines == [] then []
    else
      match Classify(lines[0])
      case Plain => Entries(lines[1..])
      case Header(level, title) =>
        [Entry(level, title, Trim(Join(lines[1..][..TextRun(lines[1..])])))] + Entries(lines[1..])
  }

  // ---------- forests ----------

  datatype Tree = Tree(entry: Entry, children: seq<Tree>)

  /** Where the subtree that starts at the front of `es` ends: at the next entry no deeper than `level`. */
  function SubtreeEnd(es: seq<Entry>, level: nat): (n: nat)
    ensures n <= |es|
    ensures forall i :: 0 <= i < n ==> es[i].level > level
    ensures n < |es| ==> es[n].level <= level
  {
    if es != [] && es[0].level > level then 1 + SubtreeEnd(es[1..], level) else 0
  }

  /** The forest described by the levels. */
  function Forest(es: seq<Entry>): seq<Tree>
    decreases |es|
  {
    if es == [] then []
    else
      var rest := es[1..];
      var n := SubtreeEnd(rest, es[0].level);
      [Tree(es[0], Forest(rest[..n]))] + Forest(rest[n..])
  }

  function Preorder(f: seq<Tree>): seq<Entry> {
    if f == [] then [] else [f[0].entry] + Preorder(f[0].children) + Preorder(f[1..])
  }

  /** Every child is deeper than its parent (roots are deeper than `floor`), and sibling levels never increase. */
  ghost predicate WellNested(f: seq<Tree>, floor: int) {
    f == [] ||
    (&& f[0].entry.level > floor
     && (|f| > 1 ==> f[1].entry.level <= f[0].entry.level)
     && WellNested(f[0].children, f[0].entry.level)
     && WellNested(f[1..], floor))
  }

  lemma {:induction false} PreorderOfCons(t: Tree, f: seq<Tree>)
    ensures Preorder([t] + f) == [t.entry] + Preorder(t.children) + Preorder(f)
  {
    assert ([t] + f)[1..] == f;
  }

  lemma {:induction false} WellNestedCons(t: Tree, f: seq<Tree>, floor: int)
    ensures WellNested([t] + f, floor) <==>
            && t.entry.level > floor && (f != [] ==> f[0].entry.level <= t.entry.level)
            && WellNested(t.children, t.entry.level) && WellNested(f, floor)
  {
    assert ([t] + f)[1..] == f;
  }

  lemma {:induction false} ForestUnfolds(es: seq<Entry>)
    requires es != []
    ensures var n := SubtreeEnd(es[1..], es[0].level);
            && Forest(es) == [Tree(es[0], Forest(es[1..][..n]))] + Forest(es[1..][n..])
            && (n < |es[1..]| ==> Forest(es[1..][n..]) != [] && Forest(es[1..][n..])[0].entry == es[1..][n])
            && (n == |es[1..]| ==> Forest(es[1..][n..]) == [])
  {
  }

  lemma {:induction false} PreorderOfSubtree(es: seq<Entry>, n: nat)
    requires es != [] && n == SubtreeEnd(es[1..], es[0].level)
    requires Preorder(Forest(es[1..][..n])) == es[1..][..n]
    requires Preorder(Forest(es[1..][n..])) == es[1..][n..]
    ensures Preorder(Forest(es)) == es
  {
    hide *;
    var rest := es[1..];
    ForestUnfolds(es);
    PreorderOfCons(Tree(es[0], Forest(rest[..n])), Forest(rest[n..]));
    assert es == [es[0]] + rest[..n] + rest[n..];
  }

  lemma {:induction false} PreorderOfForest(es: seq<Entry>)
    ensures Preorder(Forest(es)) == es
    decreases |es|
  {
    if es != [] {
      var rest := es[1..];
      var n := SubtreeEnd(rest, es[0].level);
      PreorderOfForest(rest[..n]);
      PreorderOfForest(rest[n..]);
      PreorderOfSubtree(es, n);
    }
  }

  lemma {:induction false} ForestIsWellNested(es: seq<Entry>, floor: int)
    requires forall i :: 0 <= i < |es| ==> es[i].level > floor
    ensures WellNested(Forest(es), floor)
    decreases |es|
  {
    if es != [] {
      var rest := es[1..];
      var n := SubtreeEnd(rest, es[0].level);
      ForestUnfolds(es);
      hide Forest;
      hide WellNested;
      ForestIsWellNested(rest[..n], es[0].level);
      ForestIsWellNested(rest[n..], floor);
      WellNestedCons(Tree(es[0], Forest(rest[..n])), Forest(rest[n..]), floor);
    }
  }

  lemma {:induction false} DescendantsAreDeeper(f: seq<Tree>, floor: int)
    requires WellNested(f, floor)
    ensures forall i :: 0 <= i < |Preorder(f)| ==> Preorder(f)[i].level > floor
  {
    if f != [] {
      DescendantsAreDeeper(f[0].children, f[0].entry.level);
      DescendantsAreDeeper(f[1..], floor);
    }
  }

  lemma {:induction false} SubtreeEndIsFirst(deep: seq<Entry>, rest: seq<Entry>, level: nat)
    requires forall i :: 0 <= i < |deep| ==> deep[i].level > level
    requires rest != [] ==> rest[0].level <= level
    ensures SubtreeEnd(deep + rest, level) == |deep|
  {
    assert rest != [] ==> (deep + rest)[|deep|] == rest[0];
  }

  /** A well-nested forest is determined by its preorder. */
  lemma {:induction false} ForestOfPreorder(f: seq<Tree>, floor: int)
    requires WellNested(f, floor)
    ensures Forest(Preorder(f)) == f
  {
    if f != [] {
      var t, tail := f[0], f[1..];
      ForestOfPreorder(t.children, t.entry.level);
      ForestOfPreorder(tail, floor);
      DescendantsAreDeeper(t.children, t.entry.level);
      FirstOfPreorder(tail);
      assert f == [t] + tail;
      hide Forest;
      ForestOfCons(t, tail);
    }
  }

  lemma {:induction false} FirstOfPreorder(f: seq<Tree>)
    ensures f == [] ==> Preorder(f) == []
    ensures f != [] ==> Preorder(f) != [] && Preorder(f)[0] == f[0].entry
  {
  }

  lemma {:induction false} ForestOfCons(t: Tree, tail: seq<Tree>)
    requires Forest(Preorder(t.children)) == t.children && Forest(Preorder(tail)) == tail
    requires forall i :: 0 <= i < |Preorder(t.children)| ==> Preorder(t.children)[i].level > t.entry.level
    requires Preorder(tail) != [] ==> Preorder(tail)[0].level <= t.entry.level
    ensures Forest(Preorder([t] + tail)) == [t] + tail
  {
    hide Forest;
    hide Preorder;
    hide SubtreeEnd;
    var deep, rest := Preorder(t.children), Preorder(tail);
    PreorderOfCons(t, tail);
    var es := [t.entry] + deep + rest;
    assert es[1..] == deep + rest;
    SubtreeEndIsFirst(deep, rest, t.entry.level);
    ForestUnfolds(es);
    assert (deep + rest)[..|deep|] == deep && (deep + rest)[|deep|..] == rest;
  }

  /** Main result: `Forest` yields the one well-nested forest with the given preorder. */
  lemma {:induction false} ForestIsUnique(es: seq<Entry>, f: seq<Tree>)
    requires forall i :: 0 <= i < |es| ==> es[i].level > 0
    ensures WellNested(f, 0) && Preorder(f) == es <==> f == Forest(es)
  {
    PreorderOfForest(es);
    ForestIsWellNested(es, 0);
    if WellNested(f, 0) && Preorder(f) == es {
      ForestOfPreorder(f, 0);
    }
  }

  // ---------- what is parsed, line by line ----------

  /** Trimmed, the line is `level` hashes, white space, and the title up to the end of the line. */
  ghost predicate IsHeader(line: string, level: nat, title: string) {
    && 1 <= level <= 6
    && title != "" && !IsSpace(title[0]) && (forall c :: c in title ==> !IsLineTerminator(c))
    && exists space :: space != "" && AllSpace(space) && Trim(line) == Hashes(level) + space + title
  }

  lemma {:induction false} TrimStartOfSpace(space: string, s: string)
    requires AllSpace(space) && s != "" && !IsSpace(s[0])
    ensures TrimStart(space + s) == s
    decreases |space|
  {
    if space == "" {
      assert space + s == s;
    } else {
      assert (space + s)[1..] == space[1..] + s;
      TrimStartOfSpace(space[1..], s);
    }
  }

  lemma {:induction false} TrimStartOfNonEmpty(s: string)
    requires s != "" && !IsSpace(Last(s))
    ensures TrimStart(s) != ""
    decreases |s|
  {
    if IsSpace(s[0]) {
      TrimStartOfNonEmpty(s[1..]);
    }
  }

  /** A line is classified as a header exactly if it is one. */
  lemma {:induction false} ClassifyIff(line: string, level: nat, title: string)
    ensures Classify(line) == Header(level, title) <==> IsHeader(line, level, title)
  {
    hide IsSpace;
    hide IsLineTerminator;
    hide Trim;
    hide TrimStart;
    var trimmed := Trim(line);
    TrimIsTrimmed(line);
    HashRunIsPrefix(trimmed);
    if Classify(line) == Header(level, title) {
      HeaderHasForm(trimmed, level, title);
    }
    if IsHeader(line, level, title) {
      var space :| space != "" && AllSpace(space) && trimmed == Hashes(level) + space + title;
      FormIsHeader(trimmed, level, space, title);
    }
  }

  lemma {:induction false} HeaderHasForm(trimmed: string, level: nat, title: string)
    requires Trimmed(trimmed) && level == HashRun(trimmed) < |trimmed| && IsSpace(trimmed[level])
    requires title == TrimStart(trimmed[level..])
    ensures title != "" && !IsSpace(title[0])
    ensures exists space :: space != "" && AllSpace(space) && trimmed == Hashes(level) + space + title
  {
    hide IsSpace;
    HashRunIsPrefix(trimmed);
    var rest := trimmed[level..];
    TrimStartOfNonEmpty(rest);
    TrimStartIsDone(rest);
    var space := TrimStartSplits(rest);
    assert space == "" ==> rest == title;
    assert trimmed[..level] == Hashes(level);
    assert trimmed == trimmed[..level] + rest;
    assert trimmed == Hashes(level) + space + title;
  }

  lemma {:induction false} FormIsHeader(trimmed: string, level: nat, space: string, title: string)
    requires space != "" && AllSpace(space) && title != "" && !IsSpace(title[0])
    requires trimmed == Hashes(level) + space + title
    ensures HashRun(trimmed) == level < |trimmed| && IsSpace(trimmed[level])
    ensures TrimStart(trimmed[level..]) == title
  {
    var rest := space + title;
    assert trimmed == Hashes(level) + rest && trimmed[level..] == rest && rest[0] == space[0];
    assert !IsSpace('#');
    hide IsSpace;
    HashRunOfHeader(level, rest);
    TrimStartOfSpace(space, title);
  }

  /** The numbers of the header lines, in order. */
  ghost predicate AreHeads(heads: seq<nat>, lines: seq<string>) {
    && (forall i, j :: 0 <= i < j < |heads| ==> heads[i] < heads[j])
    && (forall h :: h in heads <==> 0 <= h < |lines| && IsHead(lines[h]))
  }

  ghost predicate IsHead(line: string) {
    exists level, title :: IsHeader(line, level, title)
  }

  /** The entry of header number k: level and title of its line, and the text up to the next header or the end. */
  ghost predicate IsEntryAt(e: Entry, heads: seq<nat>, lines: seq<string>, k: nat)
    requires k < |heads|
  {
    && var stop := if k + 1 < |heads| then heads[k + 1] else |lines|;
    && heads[k] < stop <= |lines|
    && IsHeader(lines[heads[k]], e.level, e.title)
    && e.content == Trim(Join(lines[heads[k] + 1..stop]))
  }

  lemma {:induction false} HeadIff(line: string)
    ensures IsHead(line) <==> Classify(line).Header?
  {
    if Classify(line).Header? {
      ClassifyIff(line, Classify(line).level, Classify(line).title);
    }
    if level, title :| IsHeader(line, level, title) {
      ClassifyIff(line, level, title);
    }
  }

  /** The heads of a text whose first line is followed by a text with the heads `tail`. */
  function HeadsBefore(isHead: bool, tail: seq<nat>): (heads: seq<nat>)
    ensures |heads| == |tail| + (if isHead then 1 else 0) && (isHead ==> heads[0] == 0)
    ensures forall k :: 0 <= k < |tail| ==> heads[if isHead then k + 1 else k] == tail[k] + 1
  {
    (if isHead then [0] else []) + seq(|tail|, k requires 0 <= k < |tail| => tail[k] + 1)
  }

  lemma {:induction false} HeadsBeforeMembers(isHead: bool, tail: seq<nat>)
    ensures forall h :: h in HeadsBefore(isHead, tail) <==> (isHead && h == 0) || (h > 0 && h - 1 in tail)
  {
    var heads := HeadsBefore(isHead, tail);
    forall h | h > 0 && h - 1 in tail ensures h in heads {
      var k :| 0 <= k < |tail| && tail[k] == h - 1;
      assert heads[if isHead then k + 1 else k] == h;
    }
  }

  lemma {:induction false} HeadsBeforeAre(lines: seq<string>, tail: seq<nat>)
    requires lines != [] && AreHeads(tail, lines[1..])
    ensures AreHeads(HeadsBefore(IsHead(lines[0]), tail), lines)
  {
    hide IsHead;
    hide HeadsBefore;
    var first := IsHead(lines[0]);
    HeadsBeforeMembers(first, tail);
    var heads := HeadsBefore(first, tail);
    var d := if first then 1 else 0;
    forall i, j | 0 <= i < j < |heads| ensures heads[i] < heads[j] {
      assert heads[j] == tail[j - d] + 1 && (i >= d ==> heads[i] == tail[i - d] + 1);
    }
    forall h ensures h in heads <==> 0 <= h < |lines| && IsHead(lines[h]) {
      if 0 < h < |lines| {
        assert lines[h] == lines[1..][h - 1];
      }
    }
  }

  /** An entry keeps its lines when a line is put in front. */
  lemma {:induction false} EntryShifts(e: Entry, lines: seq<string>, tail: seq<nat>, k: nat, first: bool)
    requires lines != [] && k < |tail| && IsEntryAt(e, tail, lines[1..], k)
    ensures IsEntryAt(e, HeadsBefore(first, tail), lines, if first then k + 1 else k)
  {
    hide IsHeader;
    hide HeadsBefore;
    hide Trim;
    hide Join;
    var heads := HeadsBefore(first, tail);
    var j := if first then k + 1 else k;
    var stop := if k + 1 < |tail| then tail[k + 1] else |lines[1..]|;
    assert heads[j] == tail[k] + 1;
    assert j + 1 < |heads| ==> heads[j + 1] == tail[k + 1] + 1;
    LinesShift(lines, tail[k], stop);
  }

  lemma {:induction false} LinesShift(lines: seq<string>, head: nat, stop: nat)
    requires lines != [] && head < stop <= |lines| - 1
    ensures lines[head + 1] == lines[1..][head] && lines[head + 2..stop + 1] == lines[1..][head + 1..stop]
  {
    var x, y := lines[head + 2..stop + 1], lines[1..][head + 1..stop];
    assert |x| == |y| && forall i :: 0 <= i < |x| ==> x[i] == y[i];
  }

  /** Main result on lines: one entry per header line, with the text up to the next one. */
  lemma {:induction false} EntriesAre(lines: seq<string>) returns (heads: seq<nat>)
    ensures AreHeads(heads, lines) && |Entries(lines)| == |heads|
    ensures TextRun(lines) == if heads == [] then |lines| else heads[0]
    ensures forall k :: 0 <= k < |heads| ==> IsEntryAt(Entries(lines)[k], heads, lines, k)
    decreases |lines|
  {
    hide *;
    if lines == [] {
      heads := [];
      NoHeads();
    } else {
      var tail := EntriesAre(lines[1..]);
      heads := HeadsBefore(IsHead(lines[0]), tail);
      HeadsBeforeAre(lines, tail);
      HeadIff(lines[0]);
      EntriesUnfold(lines);
      TextRunUnfolds(lines);
      forall k | 0 <= k < |heads| ensures IsEntryAt(Entries(lines)[k], heads, lines, k) {
        if !IsHead(lines[0]) {
          EntryShifts(Entries(lines)[k], lines, tail, k, false);
        } else if k > 0 {
          EntryShifts(Entries(lines)[k], lines, tail, k - 1, true);
        } else {
          FirstEntry(lines, tail);
        }
      }
    }
  }

  lemma {:induction false} NoHeads()
    ensures AreHeads([], []) && Entries([]) == [] && TextRun([]) == 0
  {
  }

  lemma {:induction false} TextRunUnfolds(lines: seq<string>)
    requires lines != []
    ensures TextRun(lines) == if Classify(lines[0]).Plain? then 1 + TextRun(lines[1..]) else 0
  {
    hide Classify;
  }

  lemma {:induction false} FirstEntry(lines: seq<string>, tail: seq<nat>)
    requires lines != [] && IsHead(lines[0])
    requires TextRun(lines[1..]) == if tail == [] then |lines[1..]| else tail[0]
    ensures Entries(lines) != [] && IsEntryAt(Entries(lines)[0], HeadsBefore(true, tail), lines, 0)
  {
    HeadIff(lines[0]);
    EntriesUnfold(lines);
    ClassifyIff(lines[0], Classify(lines[0]).level, Classify(lines[0]).title);
    hide Classify;
    hide IsHeader;
    hide IsHead;
    var run := TextRun(lines[1..]);
    var heads := HeadsBefore(true, tail);
    assert heads[0] == 0 && (tail != [] ==> heads[1] == tail[0] + 1);
    assert lines[1..][..run] == lines[1..run + 1];
  }

  // ---------- parsing and printing ----------

  /** What the parser computes. */
  function Parse(content: string): seq<Tree> {
    Forest(Entries(Split(content)))
  }

  function Hashes(n: nat): (s: string)
    ensures |s| == n && forall i :: 0 <= i < n ==> s[i] == '#'
  {
    seq(n, _ => '#')
  }

  function HeaderLine(e: Entry): string {
    Hashes(e.level) + " " + e.title
  }

  function EntryLines(e: Entry): seq<string> {
    [HeaderLine(e)] + if e.content == "" then [] else Split(e.content)
  }

  function PrintLines(es: seq<Entry>): seq<string> {
    if es == [] then [] else EntryLines(es[0]) + PrintLines(es[1..])
  }

  function Print(f: seq<Tree>): string {
    Join(PrintLines(Preorder(f)))
  }

  /** An entry that a parser can have produced. */
  ghost predicate Printable(e: Entry) {
    && 1 <= e.level <= 6
    && e.title != "" && Trimmed(e.title)
    && (forall c :: c in e.title ==> !IsLineTerminator(c))
    && Trimmed(e.content)
    && (forall line :: line in Split(e.content) ==> Classify(line).Plain?)
  }

  ghost predicate AllPrintable(es: seq<Entry>) {
    forall e :: e in es ==> Printable(e)
  }

  lemma {:induction false} HashRunOfHeader(n: nat, rest: string)
    requires rest == "" || rest[0] != '#'
    ensures HashRun(Hashes(n) + rest) == n
    decreases n
  {
    var s := Hashes(n) + rest;
    if n == 0 {
      assert s == rest;
    } else {
      assert s[1..] == Hashes(n - 1) + rest;
      HashRunOfHeader(n - 1, rest);
    }
  }

  lemma {:induction false} ClassifyHeaderLine(e: Entry)
    requires Printable(e)
    ensures Classify(HeaderLine(e)) == Header(e.level, e.title)
  {
    HeaderLineIsTrimmed(e);
    var rest := " " + e.title;
    assert HeaderLine(e) == Hashes(e.level) + rest;
    hide HeaderLine;
    HashRunOfHeader(e.level, rest);
    assert (Hashes(e.level) + rest)[e.level..] == rest;
    assert rest[1..] == e.title;
    assert TrimStart(rest) == e.title;
    hide TrimStart;
    hide HashRun;
  }

  lemma {:induction false} HeaderLineIsTrimmed(e: Entry)
    requires Printable(e)
    ensures Trim(HeaderLine(e)) == HeaderLine(e)
  {
    var line := HeaderLine(e);
    assert Last(line) == Last(e.title) && line[0] == '#';
    TrimIsTrimmed(line);
  }

  lemma {:induction false} HeaderLineHasNoLineFeed(e: Entry)
    requires Printable(e)
    ensures '\n' !in HeaderLine(e)
  {
  }

  lemma {:induction false} TextRunThenHeader(texts: seq<string>, rest: seq<string>)
    requires forall line :: line in texts ==> Classify(line).Plain?
    requires rest != [] ==> Classify(rest[0]).Header?
    ensures TextRun(texts + rest) == |texts|
    ensures Entries(texts + rest) == Entries(rest)
    decreases |texts|
  {
    if texts == [] {
      assert texts + rest == rest;
    } else {
      assert (texts + rest)[1..] == texts[1..] + rest;
      assert texts[0] in texts;
      TextRunThenHeader(texts[1..], rest);
    }
  }

  lemma {:induction false} EntriesOfPrintedLines(es: seq<Entry>)
    requires AllPrintable(es)
    ensures Entries(PrintLines(es)) == es
    ensures PrintLines(es) != [] ==> Classify(PrintLines(es)[0]).Header?
    ensures forall line :: line in PrintLines(es) ==> '\n' !in line
    decreases |es|
  {
    hide *;
    PrintLinesUnfold(es);
    if es != [] {
      var e, rest, lines := es[0], PrintLines(es[1..]), PrintLines(es);
      var texts := if e.content == "" then [] else Split(e.content);
      AllPrintableSplits(es);
      EntriesOfPrintedLines(es[1..]);
      HeaderLineHasNoLineFeed(e);
      LinesHaveNoLineFeed(e.content);
      EntriesOfOnePrinted(e, texts, rest, lines);
      assert es == [e] + es[1..];
    }
  }

  lemma {:induction false} PrintLinesUnfold(es: seq<Entry>)
    ensures es == [] ==> PrintLines(es) == [] && Entries([]) == []
    ensures es != [] ==>
              var lines, texts := PrintLines(es), if es[0].content == "" then [] else Split(es[0].content);
              && lines == [HeaderLine(es[0])] + texts + PrintLines(es[1..])
              && lines[0] == HeaderLine(es[0]) && lines[1..] == texts + PrintLines(es[1..])
  {
    hide HeaderLine;
    hide Split;
  }

  lemma {:induction false} AllPrintableSplits(es: seq<Entry>)
    requires es != [] && AllPrintable(es)
    ensures Printable(es[0]) && AllPrintable(es[1..])
  {
    hide Printable;
    assert es[0] in es;
  }

  lemma {:induction false} EntriesOfOnePrinted(e: Entry, texts: seq<string>, rest: seq<string>, lines: seq<string>)
    requires Printable(e) && texts == if e.content == "" then [] else Split(e.content)
    requires rest != [] ==> Classify(rest[0]).Header?
    requires lines != [] && lines[0] == HeaderLine(e) && lines[1..] == texts + rest
    ensures Entries(lines) == [e] + Entries(rest)
    ensures Classify(lines[0]).Header?
  {
    hide *;
    PrintedContent(e, texts);
    ClassifyHeaderLine(e);
    TextRunThenHeader(texts, rest);
    EntriesUnfold(lines);
    assert (texts + rest)[..|texts|] == texts;
  }

  lemma {:induction false} PrintedContent(e: Entry, texts: seq<string>)
    requires Printable(e) && texts == if e.content == "" then [] else Split(e.content)
    ensures Trim(Join(texts)) == e.content
    ensures forall line :: line in texts ==> Classify(line).Plain?
  {
    hide Classify;
    JoinOfSplit(e.content);
    TrimIsTrimmed(e.content);
  }

  lemma {:induction false} EntriesUnfold(lines: seq<string>)
    requires lines != []
    ensures match Classify(lines[0])
            case Plain => Entries(lines) == Entries(lines[1..])
            case Header(level, title) =>
              Entries(lines) ==
              [Entry(level, title, Trim(Join(lines[1..][..TextRun(lines[1..])])))] + Entries(lines[1..])
  {
  }

  /** Round trip: every well-nested forest of printable entries survives printing and parsing. */
  lemma {:induction false} ParseOfPrint(f: seq<Tree>)
    requires WellNested(f, 0) && AllPrintable(Preorder(f))
    ensures Parse(Print(f)) == f
  {
    var es := Preorder(f);
    EntriesOfPrintedLines(es);
    if es == [] {
      assert Split("") == [""] && Entries([""]) == [];
    } else {
      SplitOfJoin(PrintLines(es));
    }
    ForestOfPreorder(f, 0);
  }

  // ---------- what a parse can yield ----------

  ghost predicate AllPlain(lines: seq<string>) {
    forall i :: 0 <= i < |lines| ==> Classify(lines[i]).Plain?
  }

  lemma {:induction false} ClassifyIgnoresSpace(c: char, line: string)
    requires IsSpace(c)
    ensures Classify([c] + line) == Classify(line) == Classify(line + [c])
  {
    TrimAbsorbsLeadingSpace(c, line);
    TrimAbsorbsTrailingSpace(line, c);
  }

  lemma {:induction false} PlainWithoutFirst(c: char, lines: seq<string>)
    requires lines != [] && IsSpace(c) && AllPlain(AddFirst(c, lines))
    ensures AllPlain(lines)
  {
    hide Classify;
    ClassifyIgnoresSpace(c, lines[0]);
    var longer := AddFirst(c, lines);
    forall i | 0 <= i < |lines| ensures Classify(lines[i]).Plain? {
      if c == '\n' {
        assert longer[i + 1] == lines[i];
      } else {
        assert longer[i] == if i == 0 then [c] + lines[0] else lines[i];
      }
    }
  }

  lemma {:induction false} PlainWithoutLast(lines: seq<string>, c: char)
    requires lines != [] && IsSpace(c) && AllPlain(AddLast(lines, c))
    ensures AllPlain(lines)
  {
    hide Classify;
    ClassifyIgnoresSpace(c, Last(lines));
    var longer := AddLast(lines, c);
    forall i | 0 <= i < |lines| ensures Classify(lines[i]).Plain? {
      assert longer[i] == if c != '\n' && i == |lines| - 1 then lines[i] + [c] else lines[i];
    }
  }

  /** Trimming a text without header lines leaves no header line. */
  lemma {:induction false} PlainAfterTrimStart(s: string)
    requires AllPlain(Split(s))
    ensures AllPlain(Split(TrimStart(s)))
    decreases |s|
  {
    hide AllPlain;
    if s != "" && IsSpace(s[0]) {
      assert s == [s[0]] + s[1..];
      SplitAfterFirst(s[0], s[1..]);
      PlainWithoutFirst(s[0], Split(s[1..]));
      PlainAfterTrimStart(s[1..]);
    }
  }

  lemma {:induction false} PlainAfterTrimEnd(s: string)
    requires AllPlain(Split(s))
    ensures AllPlain(Split(TrimEnd(s)))
    decreases |s|
  {
    hide AllPlain;
    if s != "" && IsSpace(Last(s)) {
      PlainWithoutLast(Split(Init(s)), Last(s));
      PlainAfterTrimEnd(Init(s));
    }
  }

  lemma {:induction false} ContentIsPlain(texts: seq<string>)
    requires AllPlain(texts) && forall line :: line in texts ==> '\n' !in line
    ensures Trimmed(Trim(Join(texts))) && AllPlain(Split(Trim(Join(texts))))
  {
    assert Classify("").Plain?;
    assert AllPlain(Split(Join(texts))) by {
      if texts != [] {
        SplitOfJoin(texts);
      }
    }
    TrimIsTrimmed(Join(texts));
    PlainAfterTrimStart(Join(texts));
    PlainAfterTrimEnd(TrimStart(Join(texts)));
  }

  lemma {:induction false} TrimStartKeepsEnd(s: string)
    requires s != "" && !IsSpace(Last(s))
    ensures TrimStart(s) != "" && Last(TrimStart(s)) == Last(s)
    decreases |s|
  {
    if IsSpace(s[0]) {
      TrimStartKeepsEnd(s[1..]);
    }
  }

  lemma {:induction false} HeaderIsPrintable(line: string, content: string)
    requires Classify(line).Header?
    requires Trimmed(content) && AllPlain(Split(content))
    ensures Printable(Entry(Classify(line).level, Classify(line).title, content))
  {
    var trimmed := Trim(line);
    TrimIsTrimmed(line);
    HashRunIsPrefix(trimmed);
    var tail := trimmed[HashRun(trimmed)..];
    assert Last(tail) == Last(trimmed);
    TrimStartKeepsEnd(tail);
    TrimStartIsDone(tail);
    hide TrimStart;
    hide Trim;
    hide HashRun;
  }

  lemma {:induction false} LeadingTextIsPlain(lines: seq<string>)
    ensures AllPlain(lines[..TextRun(lines)])
    decreases |lines|
  {
    hide Classify;
    if lines != [] && Classify(lines[0]).Plain? {
      LeadingTextIsPlain(lines[1..]);
      var n := TextRun(lines[1..]);
      assert lines[..n + 1] == [lines[0]] + lines[1..][..n];
    }
  }

  lemma {:induction false} EntriesArePrintable(lines: seq<string>)
    requires forall line :: line in lines ==> '\n' !in line
    ensures AllPrintable(Entries(lines))
    decreases |lines|
  {
    if lines != [] {
      hide Classify;
      hide TextRun;
      hide Entries;
      var rest := lines[1..];
      EntriesArePrintable(rest);
      EntriesUnfold(lines);
      if Classify(lines[0]).Header? {
        var texts := rest[..TextRun(rest)];
        LeadingTextIsPlain(rest);
        ContentIsPlain(texts);
        HeaderIsPrintable(lines[0], Trim(Join(texts)));
      }
    }
  }

  /** Every text whatever parses to a well-nested forest of printable entries. */
  lemma {:induction false} ParseIsPrintable(content: string)
    ensures WellNested(Parse(content), 0) && AllPrintable(Preorder(Parse(content)))
  {
    var es := Entries(Split(content));
    LinesHaveNoLineFeed(content);
    EntriesArePrintable(Split(content));
    PreorderOfForest(es);
    forall i | 0 <= i < |es| ensures es[i].level > 0 {
      assert es[i] in es;
    }
    ForestIsWellNested(es, 0);
  }

  /** The forests that can be parsed are exactly the well-nested ones with printable entries. */
  lemma {:induction false} ParseableIff(f: seq<Tree>)
    ensures (exists content :: Parse(content) == f) <==> WellNested(f, 0) && AllPrintable(Preorder(f))
  {
    if content :| Parse(content) == f {
      ParseIsPrintable(content);
    }
    if WellNested(f, 0) && AllPrintable(Preorder(f)) {
      ParseOfPrint(f);
    }
  }

  /**
   Main result on parsing, with nothing but lines on the other side: the parse is well nested, and its
   preorder has one entry per header line, carrying level, title and the text up to the next one.
   */
  lemma {:induction false} ParseMeaning(content: string) returns (heads: seq<nat>)
    ensures var lines, es := Split(content), Preorder(Parse(content));
            && WellNested(Parse(content), 0)
            && AreHeads(heads, lines) && |es| == |heads|
            && forall k :: 0 <= k < |heads| ==> IsEntryAt(es[k], heads, lines, k)
  {
    ParseIsPrintable(content);
    hide *;
    heads := EntriesAre(Split(content));
    PreorderOfParse(content);
  }

  lemma {:induction false} PreorderOfParse(content: string)
    ensures Preorder(Parse(content)) == Entries(Split(content))
  {
    PreorderOfForest(Entries(Split(content)));
  }

  /** Printing a parse and parsing again changes nothing. */
  lemma {:induction false} ParseIsStable(content: string)
    ensures Parse(Print(Parse(content))) == Parse(content)
  {
    ParseIsPrintable(content);
    ParseOfPrint(Parse(content));
  }
}
