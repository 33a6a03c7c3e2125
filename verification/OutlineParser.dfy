/**
 The outline parser itself (src/analysis/markdownParser.ts): one pass over the lines with a stack
 of open sections, which appends text to the current section and new sections to their parents
 in place.
 */
module OutlineParser {
  import opened Sequences
  import opened Text
  import opened Outline
  import opened OutlineLevels

  class Section {
    const title: string
    const level: nat
    var content: string
    var subsections: seq<Section>

    constructor (title: string, level: nat)
      ensures this.title == title && this.level == level && content == "" && subsections == []
    {
      this.title := title;
      this.level := level;
      content := "";
      subsections := [];
    }
  }

  /**
   The sections `ss` carry exactly the forest `f`, and the objects that do so are, in preorder,
   nodes[lo], nodes[lo + 1], and so on.
   */
  ghost predicate Represents(ss: seq<Section>, f: seq<Tree>, nodes: seq<Section>, lo: nat)
    reads nodes
    decreases f
  {
    if f == [] then ss == []
    else
      && ss != []
      && lo + |Preorder(f)| <= |nodes|
      && ss[0] == nodes[lo]
      && f[0].entry == Entry(nodes[lo].level, nodes[lo].title, nodes[lo].content)
      && Represents(nodes[lo].subsections, f[0].children, nodes, lo + 1)
      && Represents(ss[1..], f[1..], nodes, lo + 1 + |Preorder(f[0].children)|)
  }

  // ---------- the links between sections ----------

  function Levels(es: seq<Entry>): (levels: seq<nat>)
    ensures |levels| == |es| && forall i :: 0 <= i < |es| ==> levels[i] == es[i].level
  {
    seq(|es|, i requires 0 <= i < |es| => es[i].level)
  }

  function Pick(nodes: seq<Section>, ks: seq<nat>): (ss: seq<Section>)
    requires forall i :: 0 <= i < |ks| ==> ks[i] < |nodes|
    ensures |ss| == |ks| && forall i :: 0 <= i < |ks| ==> ss[i] == nodes[ks[i]]
  {
    seq(|ks|, i requires 0 <= i < |ks| => nodes[ks[i]])
  }

  /** Every section lists exactly its children, in order, and `roots` lists the top-level ones. */
  ghost predicate Linked(nodes: seq<Section>, roots: seq<Section>, levels: seq<nat>)
    reads nodes`subsections
  {
    && |nodes| == |levels|
    && roots == Pick(nodes, Kids(levels, 0, |levels|, -1))
    && forall k :: 0 <= k < |nodes| ==> nodes[k].subsections == Pick(nodes, Kids(levels, 0, |levels|, k))
  }

  ghost predicate Carries(node: Section, e: Entry)
    reads node`content
  {
    e == Entry(node.level, node.title, node.content)
  }

  lemma {:induction false} RepresentsCons(ss: seq<Section>, t: Tree, f: seq<Tree>, nodes: seq<Section>, lo: nat)
    requires lo + |Preorder([t] + f)| <= |nodes| && lo < |nodes| && Carries(nodes[lo], t.entry)
    requires Represents(nodes[lo].subsections, t.children, nodes, lo + 1)
    requires Represents(ss, f, nodes, lo + 1 + |Preorder(t.children)|)
    ensures Represents([nodes[lo]] + ss, [t] + f, nodes, lo)
  {
    hide Preorder;
    assert ([t] + f)[1..] == f && ([nodes[lo]] + ss)[1..] == ss;
  }

  /** The first subtree of a segment. */
  lemma {:induction false} SegmentFirst(es: seq<Entry>, p: int, lo: nat, hi: nat) returns (end: nat)
    requires IsSegment(Levels(es), p, lo, hi) && lo < hi
    ensures lo < end <= hi
    ensures IsSegment(Levels(es), lo, lo + 1, end) && IsSegment(Levels(es), p, end, hi)
    ensures Forest(es[lo..hi]) == [Tree(es[lo], Forest(es[lo + 1..end]))] + Forest(es[end..hi])
    ensures Kids(Levels(es), lo, hi, p) == [lo] + Kids(Levels(es), end, hi, p)
    ensures Kids(Levels(es), 0, |es|, lo) == Kids(Levels(es), lo + 1, end, lo)
  {
    hide Forest;
    hide Kids;
    var segment := es[lo..hi];
    var n := SubtreeEnd(segment[1..], segment[0].level);
    end := lo + 1 + n;
    SegmentSlices(es, lo, end, hi);
    forall j | lo < j < end ensures Levels(es)[j] > Levels(es)[lo] {
      assert segment[1..][j - lo - 1] == es[j];
    }
    ForestUnfolds(segment);
    SegmentParts(Levels(es), p, lo, end, hi);
    KidsOfSegment(Levels(es), p, lo, end, hi);
  }

  lemma {:induction false} SegmentSlices(es: seq<Entry>, lo: nat, end: nat, hi: nat)
    requires lo < end <= hi <= |es|
    ensures var rest := es[lo..hi][1..];
            && es[lo..hi][0] == es[lo]
            && rest[..end - lo - 1] == es[lo + 1..end] && rest[end - lo - 1..] == es[end..hi]
            && (end < hi ==> rest[end - lo - 1] == es[end])
            && (forall j :: lo < j < end ==> rest[j - lo - 1] == es[j])
  {
  }

  /** Sections linked by parenthood represent the forest that the levels describe. */
  lemma {:induction false} LinkedRepresents(
    nodes: seq<Section>, roots: seq<Section>, es: seq<Entry>, p: int, lo: nat, hi: nat)
    requires Linked(nodes, roots, Levels(es)) && |nodes| == |es|
    requires forall k :: 0 <= k < |es| ==> Carries(nodes[k], es[k])
    requires IsSegment(Levels(es), p, lo, hi)
    ensures Represents(Pick(nodes, Kids(Levels(es), lo, hi, p)), Forest(es[lo..hi]), nodes, lo)
    decreases hi - lo
  {
    hide *;
    SegmentBounds(es, p, lo, hi);
    if lo == hi {
      EmptySegment(nodes, es, p, lo);
    } else {
      var end := SegmentFirst(es, p, lo, hi);
      LinkedRepresents(nodes, roots, es, lo, lo + 1, end);
      LinkedRepresents(nodes, roots, es, p, end, hi);
      LinkedAt(nodes, roots, es, lo);
      PreorderOfForest(es[lo..hi]);
      PreorderOfForest(es[lo + 1..end]);
      PickFirst(nodes, lo, Kids(Levels(es), end, hi, p));
      RepresentsCons(Pick(nodes, Kids(Levels(es), end, hi, p)),
                     Tree(es[lo], Forest(es[lo + 1..end])), Forest(es[end..hi]), nodes, lo);
    }
  }

  lemma {:induction false} SegmentBounds(es: seq<Entry>, p: int, lo: nat, hi: nat)
    requires IsSegment(Levels(es), p, lo, hi)
    ensures lo <= hi <= |es|
  {
  }

  lemma {:induction false} EmptySegment(nodes: seq<Section>, es: seq<Entry>, p: int, lo: nat)
    requires lo <= |es| == |nodes|
    ensures Represents(Pick(nodes, Kids(Levels(es), lo, lo, p)), Forest(es[lo..lo]), nodes, lo)
  {
    assert Pick(nodes, Kids(Levels(es), lo, lo, p)) == [];
  }

  lemma {:induction false} LinkedAt(nodes: seq<Section>, roots: seq<Section>, es: seq<Entry>, k: nat)
    requires Linked(nodes, roots, Levels(es)) && k < |es|
    requires forall k :: 0 <= k < |es| ==> Carries(nodes[k], es[k])
    ensures |nodes| == |es| && Carries(nodes[k], es[k])
    ensures nodes[k].subsections == Pick(nodes, Kids(Levels(es), 0, |es|, k))
  {
  }

  lemma {:induction false} PickFirst(nodes: seq<Section>, k: nat, ks: seq<nat>)
    requires k < |nodes| && forall i :: 0 <= i < |ks| ==> ks[i] < |nodes|
    ensures Pick(nodes, [k] + ks) == [nodes[k]] + Pick(nodes, ks)
  {
  }

  // ---------- entries, line by line ----------

  /** The lines after the last header. */
  function TrailingText(lines: seq<string>): seq<string> {
    if lines == [] || Classify(Last(lines)).Header? then [] else TrailingText(Init(lines)) + [Last(lines)]
  }

  lemma {:induction false} TextRunWith(lines: seq<string>, line: string)
    ensures Classify(line).Header? || TextRun(lines) < |lines| ==> TextRun(lines + [line]) == TextRun(lines)
    ensures Classify(line).Plain? && TextRun(lines) == |lines| ==> TextRun(lines + [line]) == |lines| + 1
    decreases |lines|
  {
    hide Classify;
    if lines == [] {
      assert lines + [line] == [line] && [line][1..] == [];
    } else {
      assert (lines + [line])[1..] == lines[1..] + [line] && (lines + [line])[0] == lines[0];
      TextRunWith(lines[1..], line);
    }
  }

  lemma {:induction false} NoEntriesIff(lines: seq<string>)
    ensures Entries(lines) == [] <==> TextRun(lines) == |lines|
    decreases |lines|
  {
    hide Classify;
    if lines != [] {
      NoEntriesIff(lines[1..]);
    }
  }

  /** The trailing text does not depend on lines before the last header. */
  lemma {:induction false} TrailingTextOfTail(lines: seq<string>)
    requires lines != []
    ensures TextRun(lines[1..]) < |lines| - 1 ==> TrailingText(lines) == TrailingText(lines[1..])
    ensures TextRun(lines[1..]) == |lines| - 1 && Classify(lines[0]).Header? ==> TrailingText(lines) == lines[1..]
    decreases |lines|
  {
    hide Classify;
    var init, last := Init(lines), Last(lines);
    if |lines| == 1 {
      assert TrailingText(init) == [];
    } else {
      TrailingTextOfTail(init);
      assert Init(lines[1..]) == init[1..] && lines[1..] == init[1..] + [last];
      TextRunWith(init[1..], last);
    }
  }

  /** A header line opens an entry with no content yet. */
  lemma {:induction false} EntriesWithHeader(lines: seq<string>, line: string)
    requires Classify(line).Header?
    ensures Entries(lines + [line]) == Entries(lines) + [Entry(Classify(line).level, Classify(line).title, "")]
    decreases |lines|
  {
    hide Classify;
    var all := lines + [line];
    if lines == [] {
      assert all == [line] && all[1..] == [] && TextRun([]) == 0 && Trim("") == "";
    } else {
      assert all[1..] == lines[1..] + [line];
      EntriesWithHeader(lines[1..], line);
      TextRunWith(lines[1..], line);
      assert all[1..][..TextRun(lines[1..])] == lines[1..][..TextRun(lines[1..])];
    }
  }

  /** Any other line extends the content of the last entry, if there is one. */
  lemma {:induction false} EntriesWithText(lines: seq<string>, line: string)
    requires Classify(line).Plain?
    ensures var before, after := Entries(lines), Entries(lines + [line]);
            if before == [] then after == []
            else
              && Last(before).content == Trim(Join(TrailingText(lines)))
              && after == Init(before) + [Entry(Last(before).level, Last(before).title, Trim(Join(TrailingText(lines + [line]))))]
    decreases |lines|
  {
    hide Classify;
    hide Entries;
    hide TextRun;
    hide TrailingText;
    hide Trim;
    hide Join;
    TrailingTextUnfolds(lines, line);
    if lines == [] {
      NoEntries(lines, line);
    } else {
      var rest := lines[1..];
      EntriesWithText(rest, line);
      TrailingTextOfTail(lines);
      NoEntriesIff(rest);
      TextRunWith(rest, line);
      EntriesUnfold(lines);
      EntriesUnfold(lines + [line]);
      assert (lines + [line])[1..] == rest + [line] && (lines + [line])[0] == lines[0];
      assert (rest + [line])[..TextRun(rest)] == rest[..TextRun(rest)];
      assert (rest + [line])[..|rest| + 1] == rest + [line] && rest[..|rest|] == rest;
      TrailingTextUnfolds(rest, line);
    }
  }

  lemma {:induction false} TrailingTextUnfolds(lines: seq<string>, line: string)
    requires Classify(line).Plain?
    ensures TrailingText(lines + [line]) == TrailingText(lines) + [line]
  {
    assert Init(lines + [line]) == lines;
  }

  lemma {:induction false} NoEntries(lines: seq<string>, line: string)
    requires lines == [] && Classify(line).Plain?
    ensures Entries(lines) == [] && Entries(lines + [line]) == []
  {
    assert (lines + [line])[1..] == [];
  }

  // ---------- the stack of open sections ----------

  /** The chain of ancestors of the last entry, outermost first, ending with that entry. */
  ghost predicate IsOpenChain(levels: seq<nat>, open: seq<nat>) {
    && (levels == [] <==> open == [])
    && (forall k :: 0 <= k < |open| ==> open[k] < |levels|)
    && (open != [] ==> Last(open) == |levels| - 1 && ParentOf(levels, open[0]) == -1)
    && (forall k :: 0 < k < |open| ==> ParentOf(levels, open[k]) == open[k - 1])
  }

  ghost predicate IsStack(stack: seq<Section>, open: seq<nat>, nodes: seq<Section>) {
    |stack| == |open| && forall k :: 0 <= k < |open| ==> open[k] < |nodes| && stack[k] == nodes[open[k]]
  }

  /** After closing `open` down to a proper prefix, the nearest smaller level is still found at its end. */
  lemma {:induction false} NearestAfterPop(levels: seq<nat>, open: seq<nat>, n: nat, level: nat)
    requires IsOpenChain(levels, open) && 0 < n <= |open| && levels[open[n - 1]] >= level
    requires Nearest(levels, |levels| - 1, level) == Nearest(levels, open[n - 1], level)
    ensures Nearest(levels, |levels| - 1, level) == Nearest(levels, if n == 1 then -1 else open[n - 2], level)
  {
    var top := open[n - 1];
    NearestSkips(levels, top, ParentOf(levels, top), level);
  }

  /** The chain after an entry whose parent is found at position n - 1 of the old chain. */
  lemma {:induction false} ChainAfterAppend(levels: seq<nat>, open: seq<nat>, n: nat, level: nat)
    requires IsOpenChain(levels, open) && n <= |open|
    requires Nearest(levels, |levels| - 1, level) == if n == 0 then -1 else open[n - 1]
    ensures IsOpenChain(levels + [level], open[..n] + [|levels|])
  {
    hide ParentOf;
    hide Nearest;
    var longer, chain := levels + [level], open[..n] + [|levels|];
    ParentOfNew(levels, level);
    forall k | 0 <= k < n ensures ParentOf(longer, chain[k]) == ParentOf(levels, open[k]) {
      ParentInPrefix(levels, [level], open[k]);
    }
  }

  lemma {:induction false} ParentOfNew(levels: seq<nat>, level: nat)
    ensures ParentOf(levels + [level], |levels|) == Nearest(levels, |levels| - 1, level)
  {
    NearestInPrefix(levels, [level], |levels| - 1, level);
  }

  lemma {:induction false} ParentInPrefix(levels: seq<nat>, more: seq<nat>, k: nat)
    requires k < |levels|
    ensures ParentOf(levels + more, k) == ParentOf(levels, k)
  {
    NearestInPrefix(levels, more, k as int - 1, levels[k]);
  }

  lemma {:induction false} PickFromMore(nodes: seq<Section>, more: seq<Section>, ks: seq<nat>)
    requires forall i :: 0 <= i < |ks| ==> ks[i] < |nodes|
    ensures Pick(nodes + more, ks) == Pick(nodes, ks)
  {
  }

  /** What each child list must be once a new entry has been linked in. */
  lemma {:induction false} ChildrenAfterAppend(nodes: seq<Section>, node: Section, levels: seq<nat>, level: nat, k: int)
    requires |nodes| == |levels|
    ensures Pick(nodes + [node], Kids(levels + [level], 0, |levels| + 1, k)) ==
            Pick(nodes, Kids(levels, 0, |levels|, k)) +
            if Nearest(levels, |levels| - 1, level) == k then [node] else []
  {
    KidsAfterAppend(levels, level, k);
    PickFromMore(nodes, [node], Kids(levels, 0, |levels|, k));
  }

  lemma {:induction false} ChildListsAfterAppend(nodes: seq<Section>, node: Section, levels: seq<nat>, level: nat)
    requires |nodes| == |levels|
    ensures forall k :: -1 <= k < |nodes| ==>
              Pick(nodes + [node], Kids(levels + [level], 0, |levels| + 1, k)) ==
              Pick(nodes, Kids(levels, 0, |levels|, k)) +
              if Nearest(levels, |levels| - 1, level) == k then [node] else []
    ensures Pick(nodes + [node], Kids(levels + [level], 0, |levels| + 1, |levels|)) == []
  {
    hide *;
    forall k | -1 <= k < |nodes| ensures
      Pick(nodes + [node], Kids(levels + [level], 0, |levels| + 1, k)) ==
      Pick(nodes, Kids(levels, 0, |levels|, k)) +
      if Nearest(levels, |levels| - 1, level) == k then [node] else []
    {
      ChildrenAfterAppend(nodes, node, levels, level, k);
    }
    NoChildrenYet(levels, level);
  }

  lemma {:induction false} NoChildrenYet(levels: seq<nat>, level: nat)
    ensures Kids(levels + [level], 0, |levels| + 1, |levels|) == []
  {
    NoKids(levels + [level], 0, |levels| + 1, |levels|);
  }

  /** List a new section with its parent, or as a root if there is none. */
  method Attach(newSection: Section, sections: seq<Section>, parent: Section?,
                ghost nodes: seq<Section>, ghost levels: seq<nat>)
    returns (sections': seq<Section>)
    requires Linked(nodes, sections, levels) && IsDistinct(nodes)
    requires forall k :: 0 <= k < |nodes| ==> nodes[k] != newSection
    requires var p := Nearest(levels, |levels| - 1, newSection.level);
             if p < 0 then parent == null else parent == nodes[p]
    requires newSection.subsections == []
    modifies (if parent == null then {} else {parent})`subsections
    ensures Linked(nodes + [newSection], sections', levels + [newSection.level])
  {
    hide Nearest;
    hide Kids;
    hide Pick;
    ghost var level, all := newSection.level, nodes + [newSection];
    ghost var p := Nearest(levels, |levels| - 1, level);
    ChildListsAfterAppend(nodes, newSection, levels, level);
    if parent == null {
      sections' := sections + [newSection];
    } else {
      sections' := sections;
      parent.subsections := parent.subsections + [newSection];
    }
    forall k | 0 <= k < |all| ensures all[k].subsections == Pick(all, Kids(levels + [level], 0, |levels| + 1, k)) {
      if k < |nodes| {
        assert all[k] == nodes[k];
        assert nodes[k].subsections == old(nodes[k].subsections) + if k == p then [newSection] else [];
      }
    }
  }

  /** Close the sections that are not above the new one, and list it with its parent or as a root. */
  method AddSection(newSection: Section, sections: seq<Section>, stack: seq<Section>,
                    ghost nodes: seq<Section>, ghost levels: seq<nat>, ghost open: seq<nat>)
    returns (sections': seq<Section>, stack': seq<Section>, ghost open': seq<nat>)
    requires Linked(nodes, sections, levels) && IsDistinct(nodes) && |nodes| == |levels|
    requires forall k :: 0 <= k < |nodes| ==> nodes[k].level == levels[k] && nodes[k] != newSection
    requires IsOpenChain(levels, open) && IsStack(stack, open, nodes)
    requires newSection.subsections == []
    modifies nodes`subsections
    ensures Linked(nodes + [newSection], sections', levels + [newSection.level])
    ensures IsOpenChain(levels + [newSection.level], open') && IsStack(stack', open', nodes + [newSection])
  {
    hide IsOpenChain;
    hide IsStack;
    hide Linked;
    hide IsDistinct;
    hide Nearest;
    var level := newSection.level;
    ghost var parent := Nearest(levels, |levels| - 1, level);
    sections', stack' := sections, stack;
    StackEntries(stack, open, nodes, levels);
    while |stack'| > 0 && stack'[|stack'| - 1].level >= level
      invariant |stack'| <= |stack| && stack' == stack[..|stack'|]
      invariant Linked(nodes, sections, levels) && newSection.subsections == []
      invariant parent == Nearest(levels, if |stack'| == 0 then -1 else open[|stack'| - 1], level)
    {
      NearestAfterPop(levels, open, |stack'|, level);
      stack' := stack'[..|stack'| - 1];
    }
    var n := |stack'|;
    ChainAfterAppend(levels, open, n, level);
    open' := open[..n] + [|levels|];
    sections' := Attach(newSection, sections, if n == 0 then null else stack'[n - 1], nodes, levels);
    StackAfterAppend(stack, open, nodes, n, newSection);
    stack' := stack' + [newSection];
  }

  lemma {:induction false} StackEntries(stack: seq<Section>, open: seq<nat>, nodes: seq<Section>, levels: seq<nat>)
    requires IsOpenChain(levels, open) && IsStack(stack, open, nodes) && |nodes| == |levels|
    requires forall k :: 0 <= k < |nodes| ==> nodes[k].level == levels[k]
    ensures |stack| == |open| && (if open == [] then levels == [] else Last(open) == |levels| - 1)
    ensures forall k :: 0 <= k < |open| ==>
              open[k] < |levels| && stack[k] == nodes[open[k]] && stack[k].level == levels[open[k]]
  {
  }

  lemma {:induction false} StackAfterAppend(stack: seq<Section>, open: seq<nat>, nodes: seq<Section>, n: nat, node: Section)
    requires IsStack(stack, open, nodes) && n <= |stack|
    ensures n <= |open| && IsStack(stack[..n] + [node], open[..n] + [|nodes|], nodes + [node])
  {
  }

  // ---------- the text of the current section ----------

  /** The text as it is collected: empty lines at the front are not kept. */
  function Collect(texts: seq<string>): string {
    if texts == [] then ""
    else if Collect(Init(texts)) != "" then Collect(Init(texts)) + "\n" + Last(texts)
    else Last(texts)
  }

  /** Up to line feeds at the front, the collected text is the joined lines. */
  lemma {:induction false} JoinIsCollect(texts: seq<string>) returns (feeds: string)
    ensures Join(texts) == feeds + Collect(texts)
    ensures forall c :: c in feeds ==> c == '\n'
    decreases |texts|
  {
    feeds := "";
    if |texts| > 1 {
      feeds := JoinIsCollect(Init(texts));
      if Collect(Init(texts)) == "" {
        assert Join(Init(texts)) == feeds;
        feeds := feeds + "\n";
      }
    }
  }

  lemma {:induction false} CollectTrims(texts: seq<string>)
    ensures Trim(Collect(texts)) == Trim(Join(texts))
  {
    var feeds := JoinIsCollect(texts);
    TrimAbsorbsLeadingSpaces(feeds, Collect(texts));
  }

  /** The sections created so far carry the entries so far; the text of the last one is still being collected. */
  ghost predicate Tracks(nodes: seq<Section>, es: seq<Entry>, lines: seq<string>)
    reads nodes`content
  {
    && es == Entries(lines) && |nodes| == |es|
    && (forall k :: 0 <= k < |es| ==> nodes[k].title == es[k].title && nodes[k].level == es[k].level)
    && (forall k :: 0 <= k < |es| - 1 ==> nodes[k].content == es[k].content)
    && (es != [] ==> Last(nodes).content == Collect(TrailingText(lines)))
  }

  lemma {:induction false} LastContent(lines: seq<string>)
    requires Entries(lines) != []
    ensures Last(Entries(lines)).content == Trim(Join(TrailingText(lines)))
  {
    assert Classify("").Plain?;
    EntriesWithText(lines, "");
  }

  /** Trim the text of the section that is being closed. */
  method CloseSection(current: Section?, ghost nodes: seq<Section>, ghost es: seq<Entry>, ghost lines: seq<string>)
    requires Tracks(nodes, es, lines) && IsDistinct(nodes)
    requires if nodes == [] then current == null else current == Last(nodes)
    modifies (if current == null then {} else {current})`content
    ensures es == Entries(lines) && |nodes| == |es|
    ensures forall k :: 0 <= k < |es| ==> Carries(nodes[k], es[k])
  {
    hide Trim;
    hide Join;
    hide Collect;
    hide TrailingText;
    hide Entries;
    if current != null {
      LastContent(lines);
      CollectTrims(TrailingText(lines));
      current.content := Trim(current.content);
    }
  }

  /** Add a line to the text of the current section. */
  method AppendLine(current: Section?, line: string, ghost nodes: seq<Section>, ghost es: seq<Entry>, ghost lines: seq<string>)
    requires Classify(line).Plain?
    requires Tracks(nodes, es, lines) && IsDistinct(nodes)
    requires if nodes == [] then current == null else current == Last(nodes)
    modifies (if current == null then {} else {current})`content
    ensures Tracks(nodes, Entries(lines + [line]), lines + [line])
    ensures Levels(Entries(lines + [line])) == Levels(es)
  {
    hide Classify;
    hide Trim;
    hide Join;
    hide Entries;
    EntriesWithText(lines, line);
    TrailingTextUnfolds(lines, line);
    if current != null {
      assert Init(TrailingText(lines) + [line]) == TrailingText(lines);
      if current.content != "" {
        current.content := current.content + "\n" + line;
      } else {
        current.content := line;
      }
    }
  }

  lemma {:induction false} TracksHeader(nodes: seq<Section>, node: Section, es: seq<Entry>, lines: seq<string>, line: string)
    requires es == Entries(lines) && |nodes| == |es|
    requires forall k :: 0 <= k < |es| ==> Carries(nodes[k], es[k])
    requires Classify(line).Header?
    requires Carries(node, Entry(Classify(line).level, Classify(line).title, ""))
    ensures Tracks(nodes + [node], Entries(lines + [line]), lines + [line])
    ensures Levels(Entries(lines + [line])) == Levels(es) + [node.level]
  {
    hide Classify;
    hide Entries;
    EntriesWithHeader(lines, line);
    assert Last(lines + [line]) == line;
    assert TrailingText(lines + [line]) == [];
  }

  // ---------- the parser ----------

  /**
   Main result: the sections built in place represent the parse of the text, one new object per
   header, none of them shared.
   */
  method ParseMarkdownSections(content: string) returns (sections: seq<Section>, ghost nodes: seq<Section>)
    ensures forall k :: 0 <= k < |nodes| ==> fresh(nodes[k])
    ensures IsDistinct(nodes) && |nodes| == |Preorder(Parse(content))|
    ensures Represents(sections, Parse(content), nodes, 0)
  {
    hide Classify;
    hide Entries;
    hide Forest;
    hide Linked;
    hide Tracks;
    hide IsOpenChain;
    hide Represents;
    var lines := Split(content);
    var stack: seq<Section> := [];
    var current: Section? := null;
    ghost var open: seq<nat> := [];
    ghost var es: seq<Entry> := [];
    sections, nodes := [], [];
    NothingParsed();
    for i := 0 to |lines|
      invariant IsDistinct(nodes) && forall k :: 0 <= k < |nodes| ==> fresh(nodes[k])
      invariant if nodes == [] then current == null else current == Last(nodes)
      invariant Tracks(nodes, es, lines[..i])
      invariant Linked(nodes, sections, Levels(es))
      invariant IsOpenChain(Levels(es), open) && IsStack(stack, open, nodes)
    {
      assert lines[..i + 1] == lines[..i] + [lines[i]];
      match Classify(lines[i])
      case Header(level, title) =>
        CloseSection(current, nodes, es, lines[..i]);
        var newSection := new Section(title, level);
        sections, stack, open := AddSection(newSection, sections, stack, nodes, Levels(es), open);
        TracksHeader(nodes, newSection, es, lines[..i], lines[i]);
        current := newSection;
        nodes := nodes + [newSection];
        es := Entries(lines[..i + 1]);
      case Plain =>
        AppendLine(current, lines[i], nodes, es, lines[..i]);
        es := Entries(lines[..i + 1]);
    }
    assert lines[..|lines|] == lines;
    CloseSection(current, nodes, es, lines);
    RepresentsParse(nodes, sections, es);
    PreorderOfForest(es);
  }

  lemma {:induction false} NothingParsed()
    ensures Tracks([], [], []) && Linked([], [], Levels([])) && IsOpenChain(Levels([]), [])
  {
  }

  lemma {:induction false} RepresentsParse(nodes: seq<Section>, sections: seq<Section>, es: seq<Entry>)
    requires Linked(nodes, sections, Levels(es)) && |nodes| == |es|
    requires forall k :: 0 <= k < |es| ==> Carries(nodes[k], es[k])
    ensures Represents(sections, Forest(es), nodes, 0)
  {
    hide Forest;
    hide Represents;
    LinkedRepresents(nodes, sections, es, -1, 0, |es|);
    assert es[0..|es|] == es;
  }
}
