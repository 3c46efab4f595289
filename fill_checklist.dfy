/** The checklist-text processing of checksupport/fill_checklist.py: deciding
    which kind of checklist a text is, turning its lines into sections of
    items, and tidying the answer the language model gives for one item.

    Each parser is specified by a fold over the lines (`PrismaFold`,
    `CustomFold`, `GenericFold`: the state after the given lines, one `Step`
    per line) and implemented by a method whose loop keeps its variables
    equal to the fold of the lines seen so far. What the parsers promise is
    proved about the folds against independent descriptions of the result
    (the items the lines give, the header lines), in the lemmas that follow
    each parser. */
module FillChecklist {
  import opened PyStr

  datatype ChecklistType = Prisma | Stard | Consort | Custom | Generic

  /** A checklist item: the PRISMA parser emits bare strings, the other two a
      text with the instruction for answering it. */
  datatype Item = Plain(text: string) | Instructed(text: string, instruction: string)

  datatype Section = Section(name: string, items: seq<Item>, guidance: string)

  const SectionGuidance: string := "Extract information related to this section from the manuscript."
  const DefaultInstruction: string := "Answer based on the manuscript text."
  const DefaultSection: string := "General"
  /** "Information not found in the provided text snippet." (written in two
      pieces so that the verifier sees its first and last characters) */
  const NotFoundAnswer: string := "Information" + " not found in the provided text snippet."

  /** `content.split('\n')` */
  function Lines(content: string): seq<string>
  {
    SplitOn(content, '\n')
  }

  /** The lines hold no line break, and joining them with line breaks gives
      back the text. */
  lemma {:induction false} LinesFacts(content: string)
    ensures |Lines(content)| >= 1 && Join(Lines(content), '\n') == content
    ensures forall k :: 0 <= k < |Lines(content)| ==> '\n' !in Lines(content)[k]
  {
    JoinSplit(content, '\n');
    SplitOnSeparatorFree(content, '\n');
  }

  /** Every item of the sections, section by section, in order. */
  function AllItems(sections: seq<Section>): seq<Item>
  {
    if |sections| == 0 then [] else AllItems(sections[..|sections| - 1]) + sections[|sections| - 1].items
  }

  function SectionNames(sections: seq<Section>): (names: seq<string>)
    ensures |names| == |sections|
    ensures forall k :: 0 <= k < |sections| ==> names[k] == sections[k].name
  {
    seq(|sections|, k requires 0 <= k < |sections| => sections[k].name)
  }

  lemma {:induction false} AllItemsAppend(sections: seq<Section>, s: Section)
    ensures AllItems(sections + [s]) == AllItems(sections) + s.items
  {
    assert (sections + [s])[..|sections|] == sections;
  }

  // =========================================================== detection

  predicate Mentions(content: string, word: string)
  {
    Contains(Lower(content), word)
  }

  /** The marks of a custom checklist: a `::` separator, or more than five `#`. */
  predicate HasCustomMarks(content: string)
  {
    Contains(content, "::") || Count(content, '#') > 5
  }

  /** `detect_checklist_type`: total, with PRISMA before STARD before CONSORT
      before custom, and generic for everything else. */
  function DetectType(content: string): (t: ChecklistType)
    ensures t == Prisma <==>
      Mentions(content, "prisma") && (Mentions(content, "systematic review") || Mentions(content, "meta-analysis"))
    ensures t == Stard <==> t != Prisma && Mentions(content, "stard") && Mentions(content, "diagnostic accuracy")
    ensures t == Consort <==> t !in {Prisma, Stard} && Mentions(content, "consort") && Mentions(content, "randomized")
    ensures t == Custom <==> t !in {Prisma, Stard, Consort} && HasCustomMarks(content)
  {
    var lower := Lower(content);
    if Contains(lower, "prisma") && (Contains(lower, "systematic review") || Contains(lower, "meta-analysis")) then Prisma
    else if Contains(lower, "stard") && Contains(lower, "diagnostic accuracy") then Stard
    else if Contains(lower, "consort") && Contains(lower, "randomized") then Consort
    else if Contains(content, "::") || Count(content, '#') > 5 then Custom
    else Generic
  }

  /** The classification does not depend on letter case: the keyword tests
      look at the lower-cased text, and `::` and `#` have no case. */
  lemma {:induction false} DetectTypeIgnoresCase(content: string)
    ensures DetectType(Lower(content)) == DetectType(content)
  {
    LowerIdempotent(content);
    ContainsIgnoresCase(content, "::");
    CountIgnoresCase(content, '#');
  }

  // ================================================ PRISMA header test

  /** `\s+` followed by each of `words` in turn, at the start of `s`. A run of
      whitespace before a word that starts with a letter can only match when
      it is taken whole, so the run is dropped with `TrimLeft`. */
  predicate SpacedWords(s: string, words: seq<string>)
    decreases |words|
  {
    words == [] ||
    (|s| > 0 && IsSpace(s[0]) &&
     var t := TrimLeft(s);
     StartsWith(t, words[0]) && SpacedWords(t[|words[0]|..], words[1..]))
  }

  /** `Title\s+and\s+Abstract` matches the lower-cased `s` at position `i`. */
  predicate TitleAndAbstractAt(s: string, i: int)
  {
    0 <= i && OccursAt(s, "title", i) && SpacedWords(s[i + 5..], ["and", "abstract"])
  }

  /** `re.search` of the six PRISMA section patterns, ignoring case. */
  predicate IsPrismaHeader(line: string)
  {
    var l := Lower(line);
    (exists i :: 0 <= i <= |l| && TitleAndAbstractAt(l, i)) ||
    Contains(l, "introduction") || Contains(l, "methods") || Contains(l, "results") ||
    Contains(l, "discussion") || Contains(l, "funding")
  }

  /** A raw line that the PRISMA parser treats as a section header. */
  predicate IsPrismaHeaderLine(raw: string)
  {
    var line := Strip(raw);
    line != [] && IsPrismaHeader(line)
  }

  // ====================================== line kinds of PRISMA and generic

  /** What a line is to the PRISMA and generic parsers: blank, a section
      header (named by the stripped line), or the source of one item. */
  datatype LineKind = Blank | Header(name: string) | Entry(item: Item)

  /** The name of a header line. */
  function HeaderName(kind: LineKind): seq<string>
  {
    if kind.Header? then [kind.name] else []
  }

  /** The item of an item line. */
  function EntryItem(kind: LineKind): seq<Item>
  {
    if kind.Entry? then [kind.item] else []
  }

  /** The names of the header lines, in order. */
  function HeaderNames(kinds: seq<LineKind>): seq<string>
  {
    if |kinds| == 0 then [] else HeaderNames(kinds[..|kinds| - 1]) + HeaderName(kinds[|kinds| - 1])
  }

  /** The items of the item lines, in order. */
  function EntryItems(kinds: seq<LineKind>): seq<Item>
  {
    if |kinds| == 0 then [] else EntryItems(kinds[..|kinds| - 1]) + EntryItem(kinds[|kinds| - 1])
  }

  /** Every item listed by `EntryItems` comes from an item line. */
  lemma {:induction false} EntryItemsFromEntries(kinds: seq<LineKind>)
    ensures forall x :: x in EntryItems(kinds) ==> exists j :: 0 <= j < |kinds| && kinds[j] == Entry(x)
  {
    if |kinds| > 0 {
      var init := kinds[..|kinds| - 1];
      EntryItemsFromEntries(init);
      forall x | x in EntryItems(kinds) ensures exists j :: 0 <= j < |kinds| && kinds[j] == Entry(x) {
        if x in EntryItems(init) {
          var j :| 0 <= j < |init| && init[j] == Entry(x);
          assert kinds[j] == Entry(x);
        } else {
          assert kinds[|kinds| - 1] == Entry(x);
        }
      }
    }
  }

  /** The items of the lines from `a` on: those up to the last line, then the
      last line's. */
  lemma {:induction false} EntryItemsTail(kinds: seq<LineKind>, a: nat)
    requires a < |kinds|
    ensures EntryItems(kinds[a..]) == EntryItems(kinds[..|kinds| - 1][a..]) + EntryItem(kinds[|kinds| - 1])
  {
    var n := |kinds| - 1;
    var rest := kinds[a..];
    assert rest[..|rest| - 1] == kinds[..n][a..];
    assert rest[|rest| - 1] == kinds[n];
  }

  /** The position of the last header line. */
  function LastHeader(kinds: seq<LineKind>): (r: Option<nat>)
    ensures r.Some? ==> r.value < |kinds| && kinds[r.value].Header?
  {
    if |kinds| == 0 then None
    else if kinds[|kinds| - 1].Header? then Some(|kinds| - 1)
    else LastHeader(kinds[..|kinds| - 1])
  }

  /** `LastHeader` finds the last header line, and fails only when there is
      none. */
  lemma {:induction false} LastHeaderFacts(kinds: seq<LineKind>)
    ensures LastHeader(kinds).None? <==> forall j :: 0 <= j < |kinds| ==> !kinds[j].Header?
    ensures LastHeader(kinds).Some? ==> forall j :: LastHeader(kinds).value < j < |kinds| ==> !kinds[j].Header?
  {
    if |kinds| > 0 {
      var init := kinds[..|kinds| - 1];
      LastHeaderFacts(init);
      assert forall j :: 0 <= j < |init| ==> init[j] == kinds[j];
    }
  }

  // ====================================================== PRISMA parser

  /** The item a non-header line gives once a section is open: the text after
      the first `#`, stripped, or else the line itself. */
  function PrismaItemOf(line: string): Item
  {
    if Contains(line, "#") then Plain(Strip(SplitOnce(line, "#")[1])) else Plain(line)
  }

  /** The item of a `#` line is what follows its first `#`, stripped. */
  lemma {:induction false} PrismaItemOfFacts(line: string)
    ensures PrismaItemOf(line).Plain?
    ensures !Contains(line, "#") ==> PrismaItemOf(line).text == line
    ensures Contains(line, "#") ==>
      var k := Find(line, "#").value;
      line[k] == '#' && PrismaItemOf(line).text == Strip(line[k + 1..])
  {
    FindFirst(line, "#");
    if Contains(line, "#") {
      var k := Find(line, "#").value;
      assert line[k..k + 1][0] == line[k];
    }
  }

  /** How the PRISMA loop reads one raw line. */
  function PrismaKind(raw: string): LineKind
  {
    var line := Strip(raw);
    if line == [] then Blank
    else if IsPrismaHeader(line) then Header(line)
    else Entry(PrismaItemOf(line))
  }

  /** A line is blank exactly when it is all whitespace, and a header exactly
      when it passes the header test once stripped; a header is named by the
      stripped line. */
  lemma {:induction false} PrismaKindFacts(raw: string)
    ensures PrismaKind(raw) == Blank <==> AllSpace(raw)
    ensures PrismaKind(raw).Header? <==> IsPrismaHeaderLine(raw)
    ensures PrismaKind(raw).Header? ==> PrismaKind(raw).name == Strip(raw) && PrismaKind(raw).name != []
    ensures PrismaKind(raw).Entry? ==> PrismaKind(raw).item.Plain?
  {
    StripEmpty(raw);
  }

  function PrismaKinds(lines: seq<string>): (kinds: seq<LineKind>)
    ensures |kinds| == |lines|
  {
    if |lines| == 0 then [] else PrismaKinds(lines[..|lines| - 1]) + [PrismaKind(lines[|lines| - 1])]
  }

  lemma {:induction false} PrismaKindsSnoc(lines: seq<string>, i: nat)
    requires i < |lines|
    ensures PrismaKinds(lines[..i + 1]) == PrismaKinds(lines[..i]) + [PrismaKind(lines[i])]
  {
    assert lines[..i + 1][..i] == lines[..i];
  }

  datatype PrismaState = PrismaState(sections: seq<Section>, current: Option<string>)

  /** `sections[-1]["items"].append(item)`, guarded by `if sections:`. */
  function AppendToLast(sections: seq<Section>, item: Item): (r: seq<Section>)
    ensures |r| == |sections|
    ensures |sections| > 0 ==> AllItems(r) == AllItems(sections) + [item]
  {
    if |sections| == 0 then sections
    else
      var n := |sections| - 1;
      var r := sections[..n] + [sections[n].(items := sections[n].items + [item])];
      assert sections[..n] + [sections[n]] == sections;
      AllItemsAppend(sections[..n], sections[n]);
      AllItemsAppend(sections[..n], r[n]);
      assert r[..n] == sections[..n];
      r
  }

  /** Adding an item renames nothing. */
  lemma {:induction false} AppendToLastNames(sections: seq<Section>, item: Item)
    ensures SectionNames(AppendToLast(sections, item)) == SectionNames(sections)
  {
  }

  /** One pass of the PRISMA loop. `current` is `current_section`; it is only
      ever set to a non-blank line, so Python's truth test on it is `Some?`. */
  function PrismaStep(st: PrismaState, kind: LineKind): PrismaState
  {
    match kind
    case Blank => st
    case Header(name) => PrismaState(st.sections + [Section(name, [], SectionGuidance)], Some(name))
    case Entry(item) => if st.current.Some? then st.(sections := AppendToLast(st.sections, item)) else st
  }

  function PrismaFold(kinds: seq<LineKind>): PrismaState
  {
    if |kinds| == 0 then PrismaState([], None)
    else PrismaStep(PrismaFold(kinds[..|kinds| - 1]), kinds[|kinds| - 1])
  }

  /** `process_prisma_checklist` */
  function PrismaChecklist(content: string): seq<Section>
  {
    PrismaFold(PrismaKinds(Lines(content))).sections
  }

  /** The position of the first header line. */
  function FirstHeader(kinds: seq<LineKind>): (r: Option<nat>)
    ensures r.Some? ==> r.value < |kinds|
  {
    if |kinds| == 0 then None
    else
      match FirstHeader(kinds[..|kinds| - 1])
      case Some(k) => Some(k)
      case None => if kinds[|kinds| - 1].Header? then Some(|kinds| - 1) else None
  }

  /** `FirstHeader` finds the first header line, and fails only when there is
      none. */
  lemma {:induction false} FirstHeaderFacts(kinds: seq<LineKind>)
    ensures var r := FirstHeader(kinds);
      && (r.None? <==> forall j :: 0 <= j < |kinds| ==> !kinds[j].Header?)
      && (r.Some? ==> r.value < |kinds| && kinds[r.value].Header? &&
                      forall j :: 0 <= j < r.value ==> !kinds[j].Header?)
  {
    if |kinds| > 0 {
      var init := kinds[..|kinds| - 1];
      FirstHeaderFacts(init);
      assert forall j :: 0 <= j < |init| ==> init[j] == kinds[j];
    }
  }

  /** The fold adds one section per header, named by it, in order. */
  lemma {:induction false} PrismaFoldNames(kinds: seq<LineKind>)
    ensures SectionNames(PrismaFold(kinds).sections) == HeaderNames(kinds)
  {
    if |kinds| > 0 {
      var n := |kinds| - 1;
      var st0 := PrismaFold(kinds[..n]);
      PrismaFoldNames(kinds[..n]);
      if kinds[n].Header? {
        var s := Section(kinds[n].name, [], SectionGuidance);
        assert SectionNames(st0.sections + [s]) == SectionNames(st0.sections) + [kinds[n].name];
      } else if kinds[n].Entry? {
        AppendToLastNames(st0.sections, kinds[n].item);
      }
    }
  }

  /** Before the first header `current` is unset and there is no section;
      after it there is one. */
  lemma {:induction false} PrismaFoldBeforeHeader(kinds: seq<LineKind>)
    ensures var st := PrismaFold(kinds);
      && (st.current.None? <==> FirstHeader(kinds).None?)
      && (FirstHeader(kinds).None? ==> st.sections == [])
      && (FirstHeader(kinds).Some? ==> |st.sections| > 0)
  {
    if |kinds| > 0 {
      PrismaFoldBeforeHeader(kinds[..|kinds| - 1]);
    }
  }

  /** The items of the item lines that come after some header, in order. */
  function OpenEntryItems(kinds: seq<LineKind>): seq<Item>
  {
    if |kinds| == 0 then []
    else
      var init := kinds[..|kinds| - 1];
      OpenEntryItems(init) + (if FirstHeader(init).Some? then EntryItem(kinds[|kinds| - 1]) else [])
  }

  /** Before the first header nothing is open; after it, the open items are
      those of the item lines that follow it. */
  predicate OpenEntryItemsFact(kinds: seq<LineKind>)
  {
    match FirstHeader(kinds)
    case None => OpenEntryItems(kinds) == []
    case Some(k) => k < |kinds| && OpenEntryItems(kinds) == EntryItems(kinds[k + 1..])
  }

  /** Those are the items of the item lines after the first header. */
  lemma {:induction false} OpenEntryItemsAfterFirstHeader(kinds: seq<LineKind>)
    ensures OpenEntryItemsFact(kinds)
  {
    if |kinds| > 0 {
      OpenEntryItemsAfterFirstHeader(kinds[..|kinds| - 1]);
      OpenEntryItemsStep(kinds);
    }
  }

  /** One more line keeps `OpenEntryItemsFact`. */
  lemma {:induction false} OpenEntryItemsStep(kinds: seq<LineKind>)
    requires |kinds| > 0 && OpenEntryItemsFact(kinds[..|kinds| - 1])
    ensures OpenEntryItemsFact(kinds)
  {
    var n := |kinds| - 1;
    match FirstHeader(kinds[..n])
    case Some(k) =>
      assert FirstHeader(kinds) == Some(k);
      OpenEntryItemsAfterOpen(kinds, k);
    case None =>
      assert OpenEntryItems(kinds) == [];
      if kinds[n].Header? {
        assert FirstHeader(kinds) == Some(n);
        assert kinds[n + 1..] == [];
      } else {
        assert FirstHeader(kinds) == None;
      }
  }

  /** An item line after the first header adds its item. */
  lemma {:induction false} OpenEntryItemsAfterOpen(kinds: seq<LineKind>, k: nat)
    requires |kinds| > 0 && FirstHeader(kinds[..|kinds| - 1]) == Some(k)
    requires OpenEntryItems(kinds[..|kinds| - 1]) == EntryItems(kinds[..|kinds| - 1][k + 1..])
    ensures OpenEntryItems(kinds) == EntryItems(kinds[k + 1..])
  {
    var n := |kinds| - 1;
    var rest := kinds[k + 1..];
    assert rest[..|rest| - 1] == kinds[..n][k + 1..];
    assert rest[|rest| - 1] == kinds[n];
  }

  /** The fold collects exactly the items of the item lines that come after
      a header. */
  lemma {:induction false} PrismaFoldItems(kinds: seq<LineKind>)
    ensures AllItems(PrismaFold(kinds).sections) == OpenEntryItems(kinds)
  {
    if |kinds| > 0 {
      var n := |kinds| - 1;
      var init := kinds[..n];
      PrismaFoldItems(init);
      PrismaFoldBeforeHeader(init);
      PrismaStepItems(PrismaFold(init), kinds[n]);
    }
  }

  /** One pass of the PRISMA loop adds the line's item when a section is
      open, and nothing otherwise. */
  lemma {:induction false} PrismaStepItems(st: PrismaState, kind: LineKind)
    requires st.current.Some? ==> |st.sections| > 0
    ensures AllItems(PrismaStep(st, kind).sections) == AllItems(st.sections) + (if st.current.Some? then EntryItem(kind) else [])
  {
    if kind.Header? {
      AllItemsAppend(st.sections, Section(kind.name, [], SectionGuidance));
    }
  }

  /** What `process_prisma_checklist` promises: one section per header line,
      named by that line and in the same order; no section at all when there
      is no header; in order, one item per non-blank non-header line after
      the first header, the lines before it being dropped; and each header's
      section holds the items of the lines up to the next header. */
  lemma {:induction false} PrismaChecklistFacts(content: string)
    ensures PrismaFacts(PrismaKinds(Lines(content)), PrismaChecklist(content))
  {
    PrismaFoldFacts(PrismaKinds(Lines(content)));
  }

  /** One section per header line, named by that line and in the same order;
      no section at all when there is no header; in order, one item per item
      line after the first header; and each header's section holds exactly
      the items of the lines between it and the next header. */
  predicate PrismaFacts(kinds: seq<LineKind>, sections: seq<Section>)
  {
    && sections == PrismaSections(kinds)
    && SectionNames(sections) == HeaderNames(kinds)
    && (FirstHeader(kinds).None? ==> sections == [])
    && (FirstHeader(kinds).Some? ==> AllItems(sections) == EntryItems(kinds[FirstHeader(kinds).value + 1..]))
  }

  lemma {:induction false} PrismaFoldFacts(kinds: seq<LineKind>)
    ensures PrismaFacts(kinds, PrismaFold(kinds).sections)
  {
    PrismaFoldNames(kinds);
    PrismaFoldBeforeHeader(kinds);
    PrismaFoldItems(kinds);
    OpenEntryItemsAfterFirstHeader(kinds);
    PrismaFoldCut(kinds);
  }

  /** The PRISMA sections described by cutting the text at its header lines:
      the part from the last header line on is a section named by that line,
      holding the items of the lines after it; the part before it is cut in
      the same way, and what comes before the first header is dropped. */
  function PrismaSections(kinds: seq<LineKind>): seq<Section>
    decreases |kinds|
  {
    match LastHeader(kinds)
    case None => []
    case Some(h) => PrismaSections(kinds[..h]) + [Section(kinds[h].name, EntryItems(kinds[h + 1..]), SectionGuidance)]
  }

  /** Appending to the last section changes that section only. */
  lemma {:induction false} AppendToLastOf(sections: seq<Section>, s: Section, item: Item)
    ensures AppendToLast(sections + [s], item) == sections + [s.(items := s.items + [item])]
  {
    var t := sections + [s];
    assert t[..|sections|] == sections;
    assert t[|sections|] == s;
  }

  /** The PRISMA loop state after `kinds` is the cut description of them,
      and a section is open exactly when a header has been seen. */
  predicate PrismaCut(kinds: seq<LineKind>, st: PrismaState)
  {
    st.sections == PrismaSections(kinds) && (st.current.Some? <==> LastHeader(kinds).Some?)
  }

  lemma {:induction false} PrismaFoldCut(kinds: seq<LineKind>)
    ensures PrismaCut(kinds, PrismaFold(kinds))
  {
    if |kinds| > 0 {
      PrismaFoldCut(kinds[..|kinds| - 1]);
      PrismaStepCut(kinds);
    }
  }

  /** One pass of the PRISMA loop keeps `PrismaCut`. */
  lemma {:induction false} PrismaStepCut(kinds: seq<LineKind>)
    requires |kinds| > 0
    requires PrismaCut(kinds[..|kinds| - 1], PrismaFold(kinds[..|kinds| - 1]))
    ensures PrismaCut(kinds, PrismaFold(kinds))
  {
    var n := |kinds| - 1;
    if kinds[n].Header? {
      PrismaStepHeader(kinds);
    } else if LastHeader(kinds[..n]).Some? {
      PrismaStepOpen(kinds, LastHeader(kinds[..n]).value);
    } else {
      assert LastHeader(kinds) == None;
    }
  }

  /** A header line adds an empty section named by it. */
  lemma {:induction false} PrismaStepHeader(kinds: seq<LineKind>)
    requires |kinds| > 0 && kinds[|kinds| - 1].Header?
    requires PrismaCut(kinds[..|kinds| - 1], PrismaFold(kinds[..|kinds| - 1]))
    ensures PrismaCut(kinds, PrismaFold(kinds))
  {
    var n := |kinds| - 1;
    var s := Section(kinds[n].name, [], SectionGuidance);
    assert LastHeader(kinds) == Some(n);
    assert kinds[n + 1..] == [];
    assert PrismaSections(kinds) == PrismaSections(kinds[..n]) + [s];
    assert PrismaFold(kinds).sections == PrismaFold(kinds[..n]).sections + [s];
  }

  /** Once a header has been seen, another line adds its item, if any, to
      the last section. */
  lemma {:induction false} PrismaStepOpen(kinds: seq<LineKind>, h: nat)
    requires |kinds| > 0 && !kinds[|kinds| - 1].Header?
    requires LastHeader(kinds[..|kinds| - 1]) == Some(h)
    requires PrismaCut(kinds[..|kinds| - 1], PrismaFold(kinds[..|kinds| - 1]))
    ensures PrismaCut(kinds, PrismaFold(kinds))
  {
    var n := |kinds| - 1;
    var init := kinds[..n];
    var last := kinds[n];
    var before := PrismaSections(init[..h]);
    var s := Section(init[h].name, EntryItems(init[h + 1..]), SectionGuidance);
    assert LastHeader(kinds) == Some(h);
    assert kinds[..h] == init[..h];
    EntryItemsTail(kinds, h + 1);
    assert PrismaSections(kinds) == before + [s.(items := s.items + EntryItem(last))];
    assert PrismaFold(init).sections == before + [s];
    if last.Entry? {
      AppendToLastOf(before, s, last.item);
    } else {
      assert s.(items := s.items + []) == s;
    }
  }

  /** Unlike the other two parsers, the PRISMA parser can emit a section with
      no items: a header on the last line opens one. */
  lemma {:induction false} PrismaHeaderLastOpensEmptySection(kinds: seq<LineKind>)
    requires |kinds| > 0 && kinds[|kinds| - 1].Header?
    ensures var sections := PrismaFold(kinds).sections;
      |sections| > 0 && sections[|sections| - 1] == Section(kinds[|kinds| - 1].name, [], SectionGuidance)
  {
  }

  lemma {:induction false} PrismaFoldSnoc(kinds: seq<LineKind>, kind: LineKind)
    ensures PrismaFold(kinds + [kind]) == PrismaStep(PrismaFold(kinds), kind)
  {
    assert (kinds + [kind])[..|kinds|] == kinds;
  }

  /** `process_prisma_checklist`, as the loop it is. */
  method ProcessPrismaChecklist(content: string) returns (sections: seq<Section>)
    ensures sections == PrismaChecklist(content)
    ensures PrismaFacts(PrismaKinds(Lines(content)), sections)
  {
    var lines := Lines(content);
    sections := [];
    var current: Option<string> := None;
    ghost var kinds: seq<LineKind> := [];
    var i := 0;
    while i < |lines|
      invariant 0 <= i <= |lines|
      invariant kinds == PrismaKinds(lines[..i])
      invariant PrismaState(sections, current) == PrismaFold(kinds)
    {
      PrismaKindsSnoc(lines, i);
      PrismaFoldSnoc(kinds, PrismaKind(lines[i]));
      kinds := kinds + [PrismaKind(lines[i])];
      var line := Strip(lines[i]);
      if line == [] {
        assert PrismaKind(lines[i]) == Blank;
      } else if IsPrismaHeader(line) {
        assert PrismaKind(lines[i]) == Header(line);
        current := Some(line);
        sections := sections + [Section(line, [], SectionGuidance)];
      } else if current.Some? && Contains(line, "#") {
        assert PrismaKind(lines[i]) == Entry(PrismaItemOf(line));
        var itemText := Strip(SplitOnce(line, "#")[1]);
        sections := AppendToLast(sections, Plain(itemText));
      } else if current.Some? {
        assert PrismaKind(lines[i]) == Entry(PrismaItemOf(line));
        sections := AppendToLast(sections, Plain(line));
      } else {
        assert PrismaKind(lines[i]) == Entry(PrismaItemOf(line));
      }
      i := i + 1;
    }
    assert lines[..i] == lines;
    PrismaFoldFacts(kinds);
  }

  // ============================================ custom and generic parsers

  /** The loop variables `sections`, `current_section` and `items` of the
      custom and generic parsers. */
  datatype FoldState = FoldState(sections: seq<Section>, current: string, items: seq<Item>)

  const Start: FoldState := FoldState([], DefaultSection, [])

  /** The closing `if items:` that adds the last section. */
  function Flush(st: FoldState): (sections: seq<Section>)
    ensures AllItems(sections) == AllItems(st.sections) + st.items
  {
    if |st.items| > 0 then
      AllItemsAppend(st.sections, Section(st.current, st.items, SectionGuidance));
      st.sections + [Section(st.current, st.items, SectionGuidance)]
    else st.sections
  }

  /** A section of those items, or none when there are no items. */
  function Piece(name: string, items: seq<Item>): seq<Section>
  {
    if items == [] then [] else [Section(name, items, SectionGuidance)]
  }

  /** The closing flush adds the open items as a section. */
  lemma {:induction false} FlushIsPiece(st: FoldState)
    ensures Flush(st) == st.sections + Piece(st.current, st.items)
  {
  }

  /** A section name is the default one or one of `names`. */
  predicate NamedBy(name: string, names: seq<string>)
  {
    name == DefaultSection || name in names
  }

  predicate AllNamedBy(sections: seq<Section>, names: seq<string>)
  {
    forall k :: 0 <= k < |sections| ==> NamedBy(sections[k].name, names)
  }

  predicate NoEmptySection(sections: seq<Section>)
  {
    forall k :: 0 <= k < |sections| ==> |sections[k].items| > 0
  }

  /** Names stay acceptable when more names are allowed. */
  lemma {:induction false} AllNamedByGrows(sections: seq<Section>, names: seq<string>, more: seq<string>)
    requires AllNamedBy(sections, names)
    ensures AllNamedBy(sections, names + more)
  {
    forall k | 0 <= k < |sections| ensures NamedBy(sections[k].name, names + more) {
      assert NamedBy(sections[k].name, names);
    }
  }

  /** A section with an acceptable name can be added. */
  lemma {:induction false} AllNamedByAdd(sections: seq<Section>, s: Section, names: seq<string>)
    requires AllNamedBy(sections, names) && NamedBy(s.name, names)
    ensures AllNamedBy(sections + [s], names)
  {
    var r := sections + [s];
    forall k | 0 <= k < |r| ensures NamedBy(r[k].name, names) {
      if k < |sections| { assert r[k] == sections[k]; }
    }
  }

  /** The closing flush keeps sections non-empty and named as they were. */
  lemma {:induction false} FlushKeeps(st: FoldState, names: seq<string>)
    requires NoEmptySection(st.sections)
    requires AllNamedBy(st.sections, names) && NamedBy(st.current, names)
    ensures NoEmptySection(Flush(st)) && AllNamedBy(Flush(st), names)
  {
    if |st.items| > 0 {
      AllNamedByAdd(st.sections, Section(st.current, st.items, SectionGuidance), names);
    }
  }

  // ------------------------------------------------------ custom parser

  /** Lines the custom parser skips (after stripping). */
  predicate CustomSkipped(line: string)
  {
    line == [] || StartsWith(line, "#")
  }

  /** The item a kept line gives: with `::`, the stripped text before and
      after its first `::`; without, the line and the default instruction. */
  function CustomItemOf(line: string): Item
  {
    if Contains(line, "::") then
      var parts := SplitOnce(line, "::");
      Instructed(Strip(parts[0]), Strip(parts[1]))
    else Instructed(line, DefaultInstruction)
  }

  /** The item of a `::` line is cut at the first `::`. */
  lemma {:induction false} CustomItemOfFacts(line: string)
    ensures !Contains(line, "::") ==> CustomItemOf(line) == Instructed(line, DefaultInstruction)
    ensures Contains(line, "::") ==>
      var k := Find(line, "::").value;
      k + 2 <= |line| && line[k..k + 2] == "::" &&
      CustomItemOf(line) == Instructed(Strip(line[..k]), Strip(line[k + 2..]))
  {
    FindFirst(line, "::");
  }

  /** A `::` line whose item text has a `:` with fewer than 30 characters
      before it opens a new section. */
  predicate OpensSection(line: string)
  {
    Contains(line, "::") &&
    var text := Strip(SplitOnce(line, "::")[0]);
    Contains(text, ":") && |SplitOnce(text, ":")[0]| < 30
  }

  /** The name of the section such a line opens: the text before the `:`. */
  function OpenedName(line: string): string
    requires OpensSection(line)
  {
    Strip(SplitOnce(Strip(SplitOnce(line, "::")[0]), ":")[0])
  }

  /** What a line is to the custom parser: skipped, or kept with its item and,
      when it opens a section, the section's name. */
  datatype CustomLine = Skipped | Kept(item: Item, opens: Option<string>)

  /** How the custom loop reads one raw line. */
  function CustomKind(raw: string): CustomLine
  {
    var line := Strip(raw);
    if CustomSkipped(line) then Skipped
    else Kept(CustomItemOf(line), if OpensSection(line) then Some(OpenedName(line)) else None)
  }

  /** Blank lines and `#` lines are skipped; every other line gives one item
      whose text is a stripped piece of the line. */
  lemma {:induction false} CustomKindFacts(raw: string)
    ensures CustomKind(raw).Skipped? <==> AllSpace(raw) || StartsWith(Strip(raw), "#")
    ensures CustomKind(raw).Kept? ==>
      && CustomKind(raw).item.Instructed?
      && IsStripped(CustomKind(raw).item.text)
      && Contains(Strip(raw), CustomKind(raw).item.text)
  {
    StripEmpty(raw);
    var line := Strip(raw);
    if CustomKind(raw).Kept? {
      CustomItemOfFacts(line);
      if Contains(line, "::") {
        var k := Find(line, "::").value;
        var j := StripOfPrefixOccurs(line, k);
        ContainsAt(line, Strip(line[..k]), j);
      } else {
        assert OccursAt(line, line, 0);
        ContainsAt(line, line, 0);
      }
    }
  }

  function CustomKinds(lines: seq<string>): (kinds: seq<CustomLine>)
    ensures |kinds| == |lines|
  {
    if |lines| == 0 then [] else CustomKinds(lines[..|lines| - 1]) + [CustomKind(lines[|lines| - 1])]
  }

  lemma {:induction false} CustomKindsSnoc(lines: seq<string>, i: nat)
    requires i < |lines|
    ensures CustomKinds(lines[..i + 1]) == CustomKinds(lines[..i]) + [CustomKind(lines[i])]
  {
    assert lines[..i + 1][..i] == lines[..i];
  }

  /** One pass of the custom loop. The previous section is added only when it
      has items and a non-empty name (`if items and current_section`); when
      the name is empty its items stay and go to the next section. */
  function CustomStep(st: FoldState, kind: CustomLine): FoldState
  {
    match kind
    case Skipped => st
    case Kept(item, None) => st.(items := st.items + [item])
    case Kept(item, Some(name)) =>
      var st' := if |st.items| > 0 && st.current != [] then
                   FoldState(st.sections + [Section(st.current, st.items, SectionGuidance)], name, [])
                 else st.(current := name);
      st'.(items := st'.items + [item])
  }

  function CustomFold(kinds: seq<CustomLine>): FoldState
  {
    if |kinds| == 0 then Start
    else CustomStep(CustomFold(kinds[..|kinds| - 1]), kinds[|kinds| - 1])
  }

  lemma {:induction false} CustomFoldSnoc(kinds: seq<CustomLine>, kind: CustomLine)
    ensures CustomFold(kinds + [kind]) == CustomStep(CustomFold(kinds), kind)
  {
    assert (kinds + [kind])[..|kinds|] == kinds;
  }

  /** `process_custom_checklist` */
  function CustomChecklist(content: string): seq<Section>
  {
    Flush(CustomFold(CustomKinds(Lines(content))))
  }

  /** The item of a kept line. */
  function KeptItem(kind: CustomLine): seq<Item>
  {
    if kind.Kept? then [kind.item] else []
  }

  /** For a kept line, whether it opens a section. */
  function OpenFlag(kind: CustomLine): seq<bool>
  {
    if kind.Kept? then [kind.opens.Some?] else []
  }

  /** The name of the section a line opens. */
  function OpenerName(kind: CustomLine): seq<string>
  {
    if kind.Kept? && kind.opens.Some? then [kind.opens.value] else []
  }

  /** The items of the kept lines, one per line, in order. */
  function KeptItems(kinds: seq<CustomLine>): seq<Item>
  {
    if |kinds| == 0 then [] else KeptItems(kinds[..|kinds| - 1]) + KeptItem(kinds[|kinds| - 1])
  }

  /** For each item of `KeptItems`, whether its line opens a section. */
  function OpenFlags(kinds: seq<CustomLine>): seq<bool>
  {
    if |kinds| == 0 then [] else OpenFlags(kinds[..|kinds| - 1]) + OpenFlag(kinds[|kinds| - 1])
  }

  /** The names the section-opening lines give, in order. */
  function OpenerNames(kinds: seq<CustomLine>): seq<string>
  {
    if |kinds| == 0 then [] else OpenerNames(kinds[..|kinds| - 1]) + OpenerName(kinds[|kinds| - 1])
  }

  /** Section `k > 0` starts at the item of a section-opening line. */
  predicate StartsAtOpeners(sections: seq<Section>, opens: seq<bool>)
  {
    forall k :: 0 < k < |sections| ==>
      |AllItems(sections[..k])| < |opens| && opens[|AllItems(sections[..k])|]
  }

  /** One pass of the custom loop adds the line's item, if any, after the
      items already collected. */
  lemma {:induction false} CustomStepItems(st: FoldState, kind: CustomLine)
    ensures var st' := CustomStep(st, kind);
      AllItems(st'.sections) + st'.items == AllItems(st.sections) + st.items + KeptItem(kind)
  {
    match kind
    case Skipped =>
    case Kept(item, None) =>
    case Kept(item, Some(name)) =>
      if |st.items| > 0 && st.current != [] {
        AllItemsAppend(st.sections, Section(st.current, st.items, SectionGuidance));
      }
  }

  /** The items of the fold, in its sections and then its open list, are the
      items of the kept lines. */
  lemma {:induction false} CustomFoldItems(kinds: seq<CustomLine>)
    ensures var st := CustomFold(kinds); AllItems(st.sections) + st.items == KeptItems(kinds)
  {
    if |kinds| > 0 {
      var n := |kinds| - 1;
      CustomFoldItems(kinds[..n]);
      CustomStepItems(CustomFold(kinds[..n]), kinds[n]);
    }
  }

  /** The fold only ever adds a section that has items. */
  lemma {:induction false} CustomFoldNonEmpty(kinds: seq<CustomLine>)
    ensures NoEmptySection(CustomFold(kinds).sections)
  {
    if |kinds| > 0 {
      CustomFoldNonEmpty(kinds[..|kinds| - 1]);
    }
  }

  /** The fold names its sections "General" or by a section-opening line. */
  lemma {:induction false} CustomFoldNames(kinds: seq<CustomLine>)
    ensures var st := CustomFold(kinds);
      AllNamedBy(st.sections, OpenerNames(kinds)) && NamedBy(st.current, OpenerNames(kinds))
  {
    if |kinds| > 0 {
      var n := |kinds| - 1;
      CustomFoldNames(kinds[..n]);
      CustomStepNames(CustomFold(kinds[..n]), kinds[n], OpenerNames(kinds[..n]));
    }
  }

  /** One pass of the custom loop names what it adds "General" or by a
      section-opening line. */
  lemma {:induction false} CustomStepNames(st: FoldState, kind: CustomLine, names: seq<string>)
    requires AllNamedBy(st.sections, names) && NamedBy(st.current, names)
    ensures var st' := CustomStep(st, kind); var names' := names + OpenerName(kind);
      AllNamedBy(st'.sections, names') && NamedBy(st'.current, names')
  {
    var names' := names + OpenerName(kind);
    AllNamedByGrows(st.sections, names, OpenerName(kind));
    assert NamedBy(st.current, names');
    if kind.Kept? && kind.opens.Some? && |st.items| > 0 && st.current != [] {
      AllNamedByAdd(st.sections, Section(st.current, st.items, SectionGuidance), names');
    }
  }

  /** Without section-opening lines no kept line is flagged as one. */
  lemma {:induction false} NoOpenerNoFlag(kinds: seq<CustomLine>)
    ensures OpenerNames(kinds) == [] ==> forall j :: 0 <= j < |OpenFlags(kinds)| ==> !OpenFlags(kinds)[j]
  {
    if |kinds| > 0 {
      NoOpenerNoFlag(kinds[..|kinds| - 1]);
    }
  }

  /** Every section but the first starts at a section-opening line, and so
      does the open list once a section has been added; `opens` are the flags
      of the items seen so far. */
  predicate Boundaries(st: FoldState, opens: seq<bool>)
  {
    && |AllItems(st.sections)| + |st.items| == |opens|
    && (|st.sections| > 0 ==> |st.items| > 0 && opens[|AllItems(st.sections)|])
    && StartsAtOpeners(st.sections, opens)
  }

  /** Flags of later items leave the earlier boundaries in place. */
  lemma {:induction false} StartsAtOpenersGrows(sections: seq<Section>, opens: seq<bool>, more: seq<bool>)
    requires StartsAtOpeners(sections, opens)
    ensures StartsAtOpeners(sections, opens + more)
  {
  }

  /** Adding a section that starts at a flagged item keeps the boundaries. */
  lemma {:induction false} StartsAtOpenersAdd(sections: seq<Section>, s: Section, opens: seq<bool>)
    requires StartsAtOpeners(sections, opens)
    requires |sections| > 0 ==> |AllItems(sections)| < |opens| && opens[|AllItems(sections)|]
    ensures StartsAtOpeners(sections + [s], opens)
  {
    var r := sections + [s];
    assert r[..|sections|] == sections;
    forall k | 0 < k < |r|
      ensures |AllItems(r[..k])| < |opens| && opens[|AllItems(r[..k])|]
    {
      if k < |sections| {
        assert r[..k] == sections[..k];
      }
    }
  }

  /** One pass of the custom loop keeps the boundaries. */
  lemma {:induction false} CustomStepBoundaries(st: FoldState, kind: CustomLine, opens: seq<bool>)
    requires Boundaries(st, opens)
    ensures Boundaries(CustomStep(st, kind), opens + OpenFlag(kind))
  {
    var opens' := opens + OpenFlag(kind);
    StartsAtOpenersGrows(st.sections, opens, OpenFlag(kind));
    CustomStepItems(st, kind);
    match kind
    case Skipped =>
      assert opens' == opens;
    case Kept(item, None) =>
    case Kept(item, Some(name)) =>
      if |st.items| > 0 && st.current != [] {
        var s := Section(st.current, st.items, SectionGuidance);
        AllItemsAppend(st.sections, s);
        StartsAtOpenersAdd(st.sections, s, opens');
        assert opens'[|AllItems(st.sections + [s])|] == opens'[|opens|];
      }
  }

  lemma {:induction false} CustomFoldBoundaries(kinds: seq<CustomLine>)
    ensures Boundaries(CustomFold(kinds), OpenFlags(kinds))
  {
    if |kinds| > 0 {
      var n := |kinds| - 1;
      CustomFoldBoundaries(kinds[..n]);
      CustomStepBoundaries(CustomFold(kinds[..n]), kinds[n], OpenFlags(kinds[..n]));
    }
  }

  /** The closing flush keeps the boundaries. */
  lemma {:induction false} FlushBoundaries(st: FoldState, opens: seq<bool>)
    requires Boundaries(st, opens)
    ensures StartsAtOpeners(Flush(st), opens)
  {
    if |st.items| > 0 {
      StartsAtOpenersAdd(st.sections, Section(st.current, st.items, SectionGuidance), opens);
    }
  }

  /** Without any flagged item there is at most one section. */
  lemma {:induction false} NoFlagOneSection(sections: seq<Section>, opens: seq<bool>)
    requires StartsAtOpeners(sections, opens)
    ensures (forall j :: 0 <= j < |opens| ==> !opens[j]) ==> |sections| <= 1
  {
    if |sections| > 1 {
      var j := |AllItems(sections[..1])|;
      assert j < |opens| && opens[j];
    }
  }

  /** What `process_custom_checklist` promises: every kept line gives exactly
      one item and the sections hold them all, in input order; no section is
      empty; every section is named "General" or by a section-opening line; a
      section after the first starts at the item of a section-opening line;
      without such lines there is at most the one "General" section; and the
      sections are the pieces of the text cut before exactly those
      section-opening lines that have an item before them and follow a
      non-empty section name, each named by the last section name in force
      at its end. */
  predicate CustomFacts(kinds: seq<CustomLine>, sections: seq<Section>)
  {
    && sections == CustomSections(kinds)
    && AllItems(sections) == KeptItems(kinds)
    && NoEmptySection(sections)
    && AllNamedBy(sections, OpenerNames(kinds))
    && StartsAtOpeners(sections, OpenFlags(kinds))
    && (OpenerNames(kinds) == [] ==> |sections| <= 1)
  }

  lemma {:induction false} CustomChecklistFacts(content: string)
    ensures CustomFacts(CustomKinds(Lines(content)), CustomChecklist(content))
  {
    CustomFoldFacts(CustomKinds(Lines(content)));
  }

  /** `CustomChecklistFacts`, for any classification of the lines. */
  lemma {:induction false} CustomFoldFacts(kinds: seq<CustomLine>)
    ensures CustomFacts(kinds, Flush(CustomFold(kinds)))
  {
    var st := CustomFold(kinds);
    CustomFoldItems(kinds);
    CustomFoldNonEmpty(kinds);
    CustomFoldNames(kinds);
    CustomFoldBoundaries(kinds);
    FlushBoundaries(st, OpenFlags(kinds));
    FlushKeeps(st, OpenerNames(kinds));
    NoOpenerNoFlag(kinds);
    NoFlagOneSection(Flush(st), OpenFlags(kinds));
    CustomFoldCut(kinds);
    FlushIsPiece(st);
  }

  /** The section name in force after `kinds`: that of the last
      section-opening line, or "General" before any. */
  function CurrentName(kinds: seq<CustomLine>): string
  {
    if |kinds| == 0 then DefaultSection
    else
      var last := kinds[|kinds| - 1];
      if last.Kept? && last.opens.Some? then last.opens.value else CurrentName(kinds[..|kinds| - 1])
  }

  /** A section-opening line after `prefix` ends the open section when some
      item comes before it and the name in force is not empty. */
  predicate CutsBefore(prefix: seq<CustomLine>, kind: CustomLine)
  {
    kind.Kept? && kind.opens.Some? && KeptItems(prefix) != [] && CurrentName(prefix) != []
  }

  /** The position of the last line that ends a section. */
  function LastCut(kinds: seq<CustomLine>): (r: Option<nat>)
    ensures r.Some? ==> r.value < |kinds|
  {
    if |kinds| == 0 then None
    else if CutsBefore(kinds[..|kinds| - 1], kinds[|kinds| - 1]) then Some(|kinds| - 1)
    else LastCut(kinds[..|kinds| - 1])
  }

  /** For each line, whether it ends a section. */
  function CutFlags(kinds: seq<CustomLine>): (flags: seq<bool>)
    ensures |flags| == |kinds|
  {
    if |kinds| == 0 then []
    else CutFlags(kinds[..|kinds| - 1]) + [CutsBefore(kinds[..|kinds| - 1], kinds[|kinds| - 1])]
  }

  /** The flag of line `j` is the test on that line and the lines before it. */
  lemma {:induction false} CutFlagsAt(kinds: seq<CustomLine>, j: nat)
    requires j < |kinds|
    ensures CutFlags(kinds)[j] == CutsBefore(kinds[..j], kinds[j])
  {
    var n := |kinds| - 1;
    if j < n {
      CutFlagsAt(kinds[..n], j);
      assert kinds[..n][..j] == kinds[..j];
    }
  }

  /** `LastCut` finds the last line that ends a section, and fails only when
      there is none. */
  lemma LastCutFacts(kinds: seq<CustomLine>)
    ensures LastCut(kinds).None? <==> forall j :: 0 <= j < |kinds| ==> !CutFlags(kinds)[j]
    ensures LastCut(kinds).Some? ==>
      CutFlags(kinds)[LastCut(kinds).value] && forall j :: LastCut(kinds).value < j < |kinds| ==> !CutFlags(kinds)[j]
  {
    LastCutIsLastSet(kinds);
    LastSetFacts(CutFlags(kinds));
  }

  /** The position of the last set flag. */
  function LastSet(flags: seq<bool>): (r: Option<nat>)
    ensures r.Some? ==> r.value < |flags|
  {
    if |flags| == 0 then None
    else if flags[|flags| - 1] then Some(|flags| - 1)
    else LastSet(flags[..|flags| - 1])
  }

  lemma {:induction false} LastSetFacts(flags: seq<bool>)
    ensures LastSet(flags).None? <==> forall j :: 0 <= j < |flags| ==> !flags[j]
    ensures LastSet(flags).Some? ==>
      flags[LastSet(flags).value] && forall j :: LastSet(flags).value < j < |flags| ==> !flags[j]
  {
    if |flags| > 0 {
      var n := |flags| - 1;
      LastSetFacts(flags[..n]);
      if !flags[n] {
        assert forall j :: 0 <= j < n ==> flags[..n][j] == flags[j];
      }
    }
  }

  lemma {:induction false} LastCutIsLastSet(kinds: seq<CustomLine>)
    ensures LastCut(kinds) == LastSet(CutFlags(kinds))
  {
    if |kinds| > 0 {
      var n := |kinds| - 1;
      var flags := CutFlags(kinds);
      assert flags == CutFlags(kinds[..n]) + [CutsBefore(kinds[..n], kinds[n])];
      assert flags[..n] == CutFlags(kinds[..n]);
      LastCutIsLastSet(kinds[..n]);
    }
  }

  /** The custom sections described by cutting the text before each line
      that ends a section: the part from the last such line on is a section
      of its items, named by the name in force at the end; the part before
      it is cut in the same way; with no such line, all items form one
      section, unless there are none. */
  function CustomSections(kinds: seq<CustomLine>): seq<Section>
    decreases |kinds|
  {
    match LastCut(kinds)
    case None => Piece(CurrentName(kinds), KeptItems(kinds))
    case Some(h) => CustomSections(kinds[..h]) + Piece(CurrentName(kinds), KeptItems(kinds[h..]))
  }

  /** The items of the lines from `a` on: those up to the last line, then the
      last line's. */
  lemma {:induction false} KeptItemsTail(kinds: seq<CustomLine>, a: nat)
    requires a < |kinds|
    ensures KeptItems(kinds[a..]) == KeptItems(kinds[..|kinds| - 1][a..]) + KeptItem(kinds[|kinds| - 1])
  {
    var n := |kinds| - 1;
    var rest := kinds[a..];
    assert rest[..|rest| - 1] == kinds[..n][a..];
    assert rest[|rest| - 1] == kinds[n];
  }

  /** The custom loop state after `kinds`: the name in force, and, split at
      the last line that ended a section, the sections before it and the
      items from it on. */
  predicate CustomCut(kinds: seq<CustomLine>, st: FoldState)
  {
    && st.current == CurrentName(kinds)
    && match LastCut(kinds)
       case None => st.sections == [] && st.items == KeptItems(kinds)
       case Some(h) => st.sections == CustomSections(kinds[..h]) && st.items == KeptItems(kinds[h..]) && st.items != []
  }

  lemma {:induction false} CustomFoldCut(kinds: seq<CustomLine>)
    ensures CustomCut(kinds, CustomFold(kinds))
  {
    if |kinds| > 0 {
      var init := kinds[..|kinds| - 1];
      CustomFoldCut(init);
      CustomFoldItems(init);
      CustomStepCut(kinds);
    }
  }

  /** One pass of the custom loop keeps `CustomCut`. */
  lemma {:induction false} CustomStepCut(kinds: seq<CustomLine>)
    requires |kinds| > 0
    requires var st := CustomFold(kinds[..|kinds| - 1]);
      CustomCut(kinds[..|kinds| - 1], st) && AllItems(st.sections) + st.items == KeptItems(kinds[..|kinds| - 1])
    ensures CustomCut(kinds, CustomFold(kinds))
  {
    var n := |kinds| - 1;
    var st := CustomFold(kinds[..n]);
    assert |st.items| > 0 <==> KeptItems(kinds[..n]) != [] by {
      assert |AllItems(st.sections) + st.items| == |KeptItems(kinds[..n])|;
    }
    if CutsBefore(kinds[..n], kinds[n]) {
      CustomStepCutting(kinds);
    } else if LastCut(kinds[..n]).Some? {
      CustomStepOpen(kinds, LastCut(kinds[..n]).value);
    } else {
      assert LastCut(kinds) == None;
    }
  }

  /** A line that ends a section closes the open items into one and starts
      the next section with its own item. */
  lemma {:induction false} CustomStepCutting(kinds: seq<CustomLine>)
    requires |kinds| > 0 && CutsBefore(kinds[..|kinds| - 1], kinds[|kinds| - 1])
    requires var st := CustomFold(kinds[..|kinds| - 1]);
      CustomCut(kinds[..|kinds| - 1], st) && |st.items| > 0
    ensures CustomCut(kinds, CustomFold(kinds))
  {
    var n := |kinds| - 1;
    var init := kinds[..n];
    var last := kinds[n];
    var st := CustomFold(init);
    assert LastCut(kinds) == Some(n);
    assert kinds[..n] == init;
    assert kinds[n..] == [last] && [last][..0] == [];
    assert KeptItems(kinds[n..]) == [last.item];
    assert CustomSections(init) == st.sections + Piece(st.current, st.items);
    assert CustomFold(kinds) == FoldState(st.sections + Piece(st.current, st.items), last.opens.value, [last.item]);
  }

  /** Any other line adds its item, if any, to the open items, and a
      section-opening line sets the name in force. */
  lemma {:induction false} CustomStepOpen(kinds: seq<CustomLine>, h: nat)
    requires |kinds| > 0 && !CutsBefore(kinds[..|kinds| - 1], kinds[|kinds| - 1])
    requires LastCut(kinds[..|kinds| - 1]) == Some(h)
    requires var st := CustomFold(kinds[..|kinds| - 1]);
      CustomCut(kinds[..|kinds| - 1], st) && (|st.items| > 0 <==> KeptItems(kinds[..|kinds| - 1]) != [])
    ensures CustomCut(kinds, CustomFold(kinds))
  {
    var n := |kinds| - 1;
    var init := kinds[..n];
    var last := kinds[n];
    var st := CustomFold(init);
    assert LastCut(kinds) == Some(h);
    assert kinds[..h] == init[..h];
    KeptItemsTail(kinds, h);
    assert st.items != [];
    var st' := CustomFold(kinds);
    assert st' == CustomStep(st, last);
    assert st'.sections == st.sections && st'.items == st.items + KeptItem(last) by {
      if last.Kept? && last.opens.Some? {
        assert st.current == [];
      }
    }
  }

  /** `process_custom_checklist`, as the loop it is. */
  method ProcessCustomChecklist(content: string) returns (sections: seq<Section>)
    ensures sections == CustomChecklist(content)
    ensures CustomFacts(CustomKinds(Lines(content)), sections)
  {
    var lines := Lines(content);
    sections := [];
    var currentSection := DefaultSection;
    var items: seq<Item> := [];
    ghost var kinds: seq<CustomLine> := [];
    var i := 0;
    while i < |lines|
      invariant 0 <= i <= |lines|
      invariant kinds == CustomKinds(lines[..i])
      invariant FoldState(sections, currentSection, items) == CustomFold(kinds)
    {
      CustomKindsSnoc(lines, i);
      CustomFoldSnoc(kinds, CustomKind(lines[i]));
      kinds := kinds + [CustomKind(lines[i])];
      var line := Strip(lines[i]);
      if CustomSkipped(line) {
        assert CustomKind(lines[i]) == Skipped;
      } else {
        if Contains(line, "::") {
          var parts := SplitOnce(line, "::");
          var itemText, instruction := Strip(parts[0]), Strip(parts[1]);
          if Contains(itemText, ":") && |SplitOnce(itemText, ":")[0]| < 30 {
            var sectionName := Strip(SplitOnce(itemText, ":")[0]);
            assert CustomKind(lines[i]) == Kept(Instructed(itemText, instruction), Some(sectionName));
            if |items| > 0 && currentSection != [] {
              sections := sections + [Section(currentSection, items, SectionGuidance)];
              items := [];
            }
            currentSection := sectionName;
          } else {
            assert CustomKind(lines[i]) == Kept(Instructed(itemText, instruction), None);
          }
          items := items + [Instructed(itemText, instruction)];
        } else {
          assert CustomKind(lines[i]) == Kept(Instructed(line, DefaultInstruction), None);
          items := items + [Instructed(line, DefaultInstruction)];
        }
      }
      i := i + 1;
    }
    assert lines[..i] == lines;
    if |items| > 0 {
      sections := sections + [Section(currentSection, items, SectionGuidance)];
    }
    CustomFoldFacts(kinds);
  }

  // ----------------------------------------------------- generic parser

  /** A header of the generic parser (for a stripped, non-blank line): all
      upper case, or ending in `:`, or shorter than 50 characters with a
      title-case first word. */
  predicate IsGenericHeader(line: string)
    requires !AllSpace(line)
  {
    IsUpper(line) || EndsWith(line, ":") || (|line| < 50 && IsTitle(FirstWord(line)))
  }

  /** How the generic loop reads one raw line. */
  function GenericKind(raw: string): LineKind
  {
    var line := Strip(raw);
    if line == [] then Blank
    else if IsGenericHeader(line) then Header(line)
    else Entry(Instructed(line, DefaultInstruction))
  }

  /** A line is blank exactly when it is all whitespace; an item line gives
      its stripped text, which is never blank and never a header, with the
      default instruction. */
  lemma {:induction false} GenericKindFacts(raw: string)
    ensures GenericKind(raw) == Blank <==> AllSpace(raw)
    ensures GenericKind(raw).Header? <==> Strip(raw) != [] && IsGenericHeader(Strip(raw))
    ensures GenericKind(raw).Header? ==> GenericKind(raw).name == Strip(raw)
    ensures match GenericKind(raw)
      case Entry(item) =>
        && item.Instructed? && item.text == Strip(raw) && item.instruction == DefaultInstruction
        && item.text != [] && IsStripped(item.text) && !IsGenericHeader(item.text)
      case _ => true
  {
    StripEmpty(raw);
  }

  function GenericKinds(lines: seq<string>): (kinds: seq<LineKind>)
    ensures |kinds| == |lines|
  {
    if |lines| == 0 then [] else GenericKinds(lines[..|lines| - 1]) + [GenericKind(lines[|lines| - 1])]
  }

  lemma {:induction false} GenericKindsSnoc(lines: seq<string>, i: nat)
    requires i < |lines|
    ensures GenericKinds(lines[..i + 1]) == GenericKinds(lines[..i]) + [GenericKind(lines[i])]
  {
    assert lines[..i + 1][..i] == lines[..i];
  }

  /** One pass of the generic loop. */
  function GenericStep(st: FoldState, kind: LineKind): FoldState
  {
    match kind
    case Blank => st
    case Header(name) =>
      if |st.items| > 0 then FoldState(st.sections + [Section(st.current, st.items, SectionGuidance)], name, [])
      else st.(current := name)
    case Entry(item) => st.(items := st.items + [item])
  }

  function GenericFold(kinds: seq<LineKind>): FoldState
  {
    if |kinds| == 0 then Start
    else GenericStep(GenericFold(kinds[..|kinds| - 1]), kinds[|kinds| - 1])
  }

  lemma {:induction false} GenericFoldSnoc(kinds: seq<LineKind>, kind: LineKind)
    ensures GenericFold(kinds + [kind]) == GenericStep(GenericFold(kinds), kind)
  {
    assert (kinds + [kind])[..|kinds|] == kinds;
  }

  /** `process_generic_checklist` */
  function GenericChecklist(content: string): seq<Section>
  {
    Flush(GenericFold(GenericKinds(Lines(content))))
  }

  /** The items of the fold, in its sections and then its open list, are the
      items of the item lines. */
  lemma {:induction false} GenericFoldItems(kinds: seq<LineKind>)
    ensures var st := GenericFold(kinds); AllItems(st.sections) + st.items == EntryItems(kinds)
  {
    if |kinds| > 0 {
      var n := |kinds| - 1;
      GenericFoldItems(kinds[..n]);
      GenericStepItems(GenericFold(kinds[..n]), kinds[n]);
    }
  }

  /** One pass of the generic loop adds the line's item, if any, after the
      items already collected. */
  lemma {:induction false} GenericStepItems(st: FoldState, kind: LineKind)
    ensures var st' := GenericStep(st, kind);
      AllItems(st'.sections) + st'.items == AllItems(st.sections) + st.items + EntryItem(kind)
  {
    if kind.Header? && |st.items| > 0 {
      AllItemsAppend(st.sections, Section(st.current, st.items, SectionGuidance));
    }
  }

  /** The fold only ever adds a section that has items. */
  lemma {:induction false} GenericFoldNonEmpty(kinds: seq<LineKind>)
    ensures NoEmptySection(GenericFold(kinds).sections)
  {
    if |kinds| > 0 {
      GenericFoldNonEmpty(kinds[..|kinds| - 1]);
    }
  }

  /** The fold names its sections "General" or by a header line. */
  lemma {:induction false} GenericFoldNames(kinds: seq<LineKind>)
    ensures var st := GenericFold(kinds);
      AllNamedBy(st.sections, HeaderNames(kinds)) && NamedBy(st.current, HeaderNames(kinds))
  {
    if |kinds| > 0 {
      var n := |kinds| - 1;
      GenericFoldNames(kinds[..n]);
      GenericStepNames(GenericFold(kinds[..n]), kinds[n], HeaderNames(kinds[..n]));
    }
  }

  /** One pass of the generic loop names what it adds "General" or by a
      header line. */
  lemma {:induction false} GenericStepNames(st: FoldState, kind: LineKind, names: seq<string>)
    requires AllNamedBy(st.sections, names) && NamedBy(st.current, names)
    ensures var st' := GenericStep(st, kind); var names' := names + HeaderName(kind);
      AllNamedBy(st'.sections, names') && NamedBy(st'.current, names')
  {
    var names' := names + HeaderName(kind);
    AllNamedByGrows(st.sections, names, HeaderName(kind));
    assert NamedBy(st.current, names');
    if kind.Header? && |st.items| > 0 {
      AllNamedByAdd(st.sections, Section(st.current, st.items, SectionGuidance), names');
    }
  }

  /** What `process_generic_checklist` promises: the sections hold, in order,
      one item per non-blank non-header line; no section is empty; every
      section is named "General" or by a header line; and the items of the
      lines between two header lines (or before the first) form one section,
      named by the header before them ("General" before the first), unless
      there are none. */
  predicate GenericFacts(kinds: seq<LineKind>, sections: seq<Section>)
  {
    && sections == GenericSections(kinds)
    && AllItems(sections) == EntryItems(kinds)
    && NoEmptySection(sections)
    && AllNamedBy(sections, HeaderNames(kinds))
  }

  lemma {:induction false} GenericChecklistFacts(content: string)
    ensures GenericFacts(GenericKinds(Lines(content)), GenericChecklist(content))
  {
    GenericFoldFacts(GenericKinds(Lines(content)));
  }

  /** `GenericChecklistFacts`, for any classification of the lines. */
  lemma {:induction false} GenericFoldFacts(kinds: seq<LineKind>)
    ensures GenericFacts(kinds, Flush(GenericFold(kinds)))
  {
    var st := GenericFold(kinds);
    GenericFoldItems(kinds);
    GenericFoldNonEmpty(kinds);
    GenericFoldNames(kinds);
    FlushKeeps(st, HeaderNames(kinds));
    GenericFoldCut(kinds);
    FlushIsPiece(st);
  }

  /** The generic sections described by cutting the text at its header
      lines: the part after the last header line gives a section named by
      that line, with the items of those lines, unless there are none; the
      part before it is cut in the same way; with no header line, all items
      form one section "General". */
  function GenericSections(kinds: seq<LineKind>): seq<Section>
    decreases |kinds|
  {
    match LastHeader(kinds)
    case None => Piece(DefaultSection, EntryItems(kinds))
    case Some(h) => GenericSections(kinds[..h]) + Piece(kinds[h].name, EntryItems(kinds[h + 1..]))
  }

  /** The generic loop state after `kinds`: the sections of the lines before
      the last header, that header's name, and the items after it. */
  predicate GenericCut(kinds: seq<LineKind>, st: FoldState)
  {
    match LastHeader(kinds)
    case None => st == FoldState([], DefaultSection, EntryItems(kinds))
    case Some(h) => st == FoldState(GenericSections(kinds[..h]), kinds[h].name, EntryItems(kinds[h + 1..]))
  }

  lemma {:induction false} GenericFoldCut(kinds: seq<LineKind>)
    ensures GenericCut(kinds, GenericFold(kinds))
  {
    if |kinds| > 0 {
      GenericFoldCut(kinds[..|kinds| - 1]);
      GenericStepCut(kinds);
    }
  }

  /** One pass of the generic loop keeps `GenericCut`. */
  lemma {:induction false} GenericStepCut(kinds: seq<LineKind>)
    requires |kinds| > 0
    requires GenericCut(kinds[..|kinds| - 1], GenericFold(kinds[..|kinds| - 1]))
    ensures GenericCut(kinds, GenericFold(kinds))
  {
    var n := |kinds| - 1;
    if kinds[n].Header? {
      GenericStepHeader(kinds);
    } else if LastHeader(kinds[..n]).Some? {
      GenericStepOpen(kinds, LastHeader(kinds[..n]).value);
    } else {
      assert LastHeader(kinds) == None;
    }
  }

  /** A header line closes the open items into a section and opens its own. */
  lemma {:induction false} GenericStepHeader(kinds: seq<LineKind>)
    requires |kinds| > 0 && kinds[|kinds| - 1].Header?
    requires GenericCut(kinds[..|kinds| - 1], GenericFold(kinds[..|kinds| - 1]))
    ensures GenericCut(kinds, GenericFold(kinds))
  {
    var n := |kinds| - 1;
    var st := GenericFold(kinds[..n]);
    assert LastHeader(kinds) == Some(n);
    assert kinds[n + 1..] == [];
    assert GenericSections(kinds[..n]) == st.sections + Piece(st.current, st.items);
    assert GenericFold(kinds) == FoldState(st.sections + Piece(st.current, st.items), kinds[n].name, []);
  }

  /** After a header, another line adds its item, if any, to the open items. */
  lemma {:induction false} GenericStepOpen(kinds: seq<LineKind>, h: nat)
    requires |kinds| > 0 && !kinds[|kinds| - 1].Header?
    requires LastHeader(kinds[..|kinds| - 1]) == Some(h)
    requires GenericCut(kinds[..|kinds| - 1], GenericFold(kinds[..|kinds| - 1]))
    ensures GenericCut(kinds, GenericFold(kinds))
  {
    var n := |kinds| - 1;
    assert LastHeader(kinds) == Some(h);
    assert kinds[..h] == kinds[..n][..h];
    EntryItemsTail(kinds, h + 1);
  }

  /** The classification of line `j` is that of the line. */
  lemma {:induction false} GenericKindsAt(lines: seq<string>, j: nat)
    requires j < |lines|
    ensures GenericKinds(lines)[j] == GenericKind(lines[j])
  {
    var n := |lines| - 1;
    var init := GenericKinds(lines[..n]);
    assert GenericKinds(lines) == init + [GenericKind(lines[n])];
    if j < n {
      GenericKindsAt(lines[..n], j);
      assert lines[..n][j] == lines[j];
      assert GenericKinds(lines)[j] == init[j];
    }
  }

  /** Every item of a generic checklist is a non-blank, stripped line of the
      text that is not a header, with the default instruction. */
  lemma {:induction false} GenericItemsAreNotHeaders(content: string)
    ensures forall x :: x in AllItems(GenericChecklist(content)) ==>
      && x.Instructed? && x.instruction == DefaultInstruction
      && x.text != [] && IsStripped(x.text) && !IsGenericHeader(x.text)
      && exists j :: 0 <= j < |Lines(content)| && x.text == Strip(Lines(content)[j])
  {
    var lines := Lines(content);
    var kinds := GenericKinds(lines);
    GenericChecklistFacts(content);
    assert AllItems(GenericChecklist(content)) == EntryItems(kinds);
    EntryItemsFromEntries(kinds);
    forall x | x in EntryItems(kinds)
      ensures && x.Instructed? && x.instruction == DefaultInstruction
              && x.text != [] && IsStripped(x.text) && !IsGenericHeader(x.text)
              && exists j :: 0 <= j < |lines| && x.text == Strip(lines[j])
    {
      var j :| 0 <= j < |kinds| && kinds[j] == Entry(x);
      GenericKindsAt(lines, j);
      GenericKindFacts(lines[j]);
    }
  }

  /** `process_generic_checklist`, as the loop it is. */
  method ProcessGenericChecklist(content: string) returns (sections: seq<Section>)
    ensures sections == GenericChecklist(content)
    ensures GenericFacts(GenericKinds(Lines(content)), sections)
  {
    var lines := Lines(content);
    sections := [];
    var currentSection := DefaultSection;
    var items: seq<Item> := [];
    ghost var kinds: seq<LineKind> := [];
    var i := 0;
    while i < |lines|
      invariant 0 <= i <= |lines|
      invariant kinds == GenericKinds(lines[..i])
      invariant FoldState(sections, currentSection, items) == GenericFold(kinds)
    {
      GenericKindsSnoc(lines, i);
      GenericFoldSnoc(kinds, GenericKind(lines[i]));
      kinds := kinds + [GenericKind(lines[i])];
      var line := Strip(lines[i]);
      if line == [] {
        assert GenericKind(lines[i]) == Blank;
      } else {
        if IsGenericHeader(line) {
          assert GenericKind(lines[i]) == Header(line);
          if |items| > 0 {
            sections := sections + [Section(currentSection, items, SectionGuidance)];
            items := [];
          }
          currentSection := line;
        } else {
          assert GenericKind(lines[i]) == Entry(Instructed(line, DefaultInstruction));
          items := items + [Instructed(line, DefaultInstruction)];
        }
      }
      i := i + 1;
    }
    assert lines[..i] == lines;
    if |items| > 0 {
      sections := sections + [Section(currentSection, items, SectionGuidance)];
    }
    GenericFoldFacts(kinds);
  }

  /** `process_stard_checklist`: STARD text is parsed as generic text. */
  method ProcessStardChecklist(content: string) returns (sections: seq<Section>)
    ensures sections == GenericChecklist(content)
  {
    sections := ProcessGenericChecklist(content);
  }

  /** `process_consort_checklist`: CONSORT text is parsed as generic text. */
  method ProcessConsortChecklist(content: string) returns (sections: seq<Section>)
    ensures sections == GenericChecklist(content)
  {
    sections := ProcessGenericChecklist(content);
  }

  // ============================================================ routing

  /** `process_checklist_content`: only PRISMA and custom text have parsers of
      their own, and only the PRISMA parser can yield an empty section. */
  method ProcessChecklistContent(content: string) returns (sections: seq<Section>)
    ensures DetectType(content) == Prisma ==> sections == PrismaChecklist(content)
    ensures DetectType(content) == Custom ==> sections == CustomChecklist(content)
    ensures DetectType(content) in {Stard, Consort, Generic} ==> sections == GenericChecklist(content)
    ensures DetectType(content) != Prisma ==> NoEmptySection(sections)
  {
    var checklistType := DetectType(content);
    if checklistType == Prisma {
      sections := ProcessPrismaChecklist(content);
    } else if checklistType == Stard {
      sections := ProcessStardChecklist(content);
      GenericChecklistFacts(content);
    } else if checklistType == Consort {
      sections := ProcessConsortChecklist(content);
      GenericChecklistFacts(content);
    } else if checklistType == Custom {
      sections := ProcessCustomChecklist(content);
    } else {
      sections := ProcessGenericChecklist(content);
    }
  }

  // ===================================================== answer cleanup

  /** The cleanup in `generate_item_answer` of the model's `response` text:
      strip it; when it is empty or starts with "answer:" in any case, keep
      what follows its first `:`, stripped; fall back to the not-found text
      when nothing is left. */
  function CleanAnswer(reply: string): (answer: string)
    ensures answer != [] && IsStripped(answer)
  {
    var s := Strip(reply);
    var parts := SplitOnce(s, ":");
    var s' := if s == [] || StartsWith(Lower(s), "answer:") then Strip(parts[|parts| - 1]) else s;
    if s' == [] then NotFoundAnswer else s'
  }

  /** A reply whose stripped text does not start with "answer:" is kept as
      stripped, or replaced by the not-found text when blank. */
  lemma {:induction false} CleanAnswerUnprefixed(reply: string)
    requires !StartsWith(Lower(Strip(reply)), "answer:")
    ensures CleanAnswer(reply) == if AllSpace(reply) then NotFoundAnswer else Strip(reply)
  {
    StripEmpty(reply);
  }

  /** In a text that starts with "answer:" in any case, the first `:` is the
      seventh character. */
  lemma {:induction false} FirstColonAfterAnswer(s: string)
    requires StartsWith(Lower(s), "answer:")
    ensures Find(s, ":") == Some(6)
  {
    var l := Lower(s);
    assert l[..7] == "answer:";
    forall j | 0 <= j < 6 ensures !OccursAt(s, ":", j) {
      assert l[j] != ':';
    }
    assert s[6] == ':' by { assert LowerChar(s[6]) == ':'; }
    assert OccursAt(s, ":", 6);
    FindFirst(s, ":");
  }

  /** A reply whose stripped text starts with "answer:" in any case loses
      exactly those seven characters, and the rest is stripped. */
  lemma {:induction false} CleanAnswerPrefixed(reply: string)
    requires StartsWith(Lower(Strip(reply)), "answer:")
    ensures var rest := Strip(reply)[7..];
      CleanAnswer(reply) == if AllSpace(rest) then NotFoundAnswer else Strip(rest)
  {
    var s := Strip(reply);
    FirstColonAfterAnswer(s);
    StripEmpty(s[7..]);
  }

  /** The answer is the not-found text or a piece of the reply. */
  lemma {:induction false} CleanAnswerFromReply(reply: string)
    ensures CleanAnswer(reply) == NotFoundAnswer || Contains(reply, CleanAnswer(reply))
  {
    var s := Strip(reply);
    if StartsWith(Lower(s), "answer:") {
      CleanAnswerPrefixed(reply);
      StripOfPieceOccurs(reply, 7);
    } else {
      CleanAnswerUnprefixed(reply);
      StripOfPieceOccurs(reply, 0);
      assert s[0..] == s;
      StripIdempotent(reply);
    }
  }
}
