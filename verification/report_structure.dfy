/**
 * The section parser and metric extractor (`ResponseModel.parse_report_structure`): the
 * heading matches of the report become sections whose content runs to the next heading of
 * the same or a higher level; sections are checked for shallowness, their titles are
 * matched against a topic vocabulary, and data points and citations are counted.
 */
module ReportStructure {
  import opened Wrappers
  import opened Chars
  import opened Text
  import opened Regex

  /** `ReportSection`: a heading's title, the stripped text under it, and its level. */
  datatype Section = Section(title: string, content: string, level: nat)

  /** `ReportMetrics`, as the parser leaves it. */
  datatype ReportMetrics = ReportMetrics(
    totalLength: nat,
    sectionsCount: nat,
    shallowSections: seq<string>,
    missingSections: seq<string>,
    dataPointCount: nat,
    sourcesCount: nat)

  /** What the parser stores next to the report: its metrics and its sections. */
  datatype Structure = Structure(sections: seq<Section>, metrics: ReportMetrics)

  const NoHeadingsWarning: string := "No proper headings found in the report"

  const SubsectionSuffix: string := " (subsection)"

  /** The required topics a section title is matched against. */
  const TopicVocabulary: seq<string> := [
    "executive summary", "company overview", "business model", "revenue streams",
    "products", "services", "market analysis", "competitive landscape",
    "financial", "leadership", "organizational structure", "company culture",
    "technology", "innovation", "marketing", "sales strategy",
    "recent news", "developments", "industry trends", "future outlook",
    "risk assessment", "sources", "citations"]

  // ---------------------------------------------------------------- section boundaries

  /** Heading matches laid out as `re.finditer` returns them: each within the text, in order, on separate lines. */
  predicate Ordered(v: string, hs: seq<HeadingMatch>) {
    && (forall i :: 0 <= i < |hs| ==>
          1 <= hs[i].level && hs[i].start + hs[i].level < hs[i].titleStart < hs[i].end <= |v|)
    && (forall i, j :: 0 <= i < j < |hs| ==> hs[i].end < hs[j].start)
  }

  /** Index of the first heading at or after `j` whose level is at most `level`, or `|hs|`. */
  function NextBoundary(hs: seq<HeadingMatch>, level: nat, j: nat): (b: nat)
    requires j <= |hs|
    ensures j <= b <= |hs|
    ensures b < |hs| ==> hs[b].level <= level
    ensures forall k :: j <= k < b ==> hs[k].level > level
    decreases |hs| - j
  {
    if j == |hs| then |hs|
    else if hs[j].level <= level then j
    else NextBoundary(hs, level, j + 1)
  }

  /**
   * Where the content of the `i`-th section ends: the start of the first later heading of the
   * same or a higher level (a level number at most its own), or the end of the text.
   */
  function SectionEnd(v: string, hs: seq<HeadingMatch>, i: nat): (e: nat)
    requires Ordered(v, hs) && i < |hs|
    ensures hs[i].end < e || e == hs[i].end == |v|
    ensures e <= |v|
  {
    var b := NextBoundary(hs, hs[i].level, i + 1);
    if b < |hs| then hs[b].start else |v|
  }

  /** The `i`-th section: its title is group 2 of the heading, its content the stripped text under it. */
  function SectionAt(v: string, hs: seq<HeadingMatch>, i: nat): (s: Section)
    requires Ordered(v, hs) && i < |hs|
    ensures s.level == hs[i].level >= 1
    ensures s.title == v[hs[i].titleStart..hs[i].end] && s.title != []
  {
    Section(v[hs[i].titleStart..hs[i].end], Strip(v[hs[i].end..SectionEnd(v, hs, i)]), hs[i].level)
  }

  function SectionsOf(v: string, hs: seq<HeadingMatch>): (secs: seq<Section>)
    requires Ordered(v, hs)
    ensures |secs| == |hs|
  {
    seq(|hs|, i requires 0 <= i < |hs| => SectionAt(v, hs, i))
  }

  /** The sections of a report, one per heading match, in text order. */
  function Sections(v: string): (secs: seq<Section>)
    ensures |secs| == Count(HeadingLine, v)
  {
    SectionsOf(v, Headings(v))
  }

  /** The inner `for j ... break` scan that finds where section `i` ends. */
  method FindSectionEnd(v: string, hs: seq<HeadingMatch>, i: nat) returns (endPos: nat)
    requires Ordered(v, hs) && i < |hs|
    ensures endPos == SectionEnd(v, hs, i)
  {
    endPos := |v|;
    for j := i + 1 to |hs|
      invariant forall k :: i + 1 <= k < j ==> hs[k].level > hs[i].level
    {
      if hs[j].level <= hs[i].level {
        endPos := hs[j].start;
        break;
      }
    }
  }

  /** One iteration of the parser's loop: the level, title, end and stripped content of heading `i`. */
  method ReadSection(v: string, hs: seq<HeadingMatch>, i: nat) returns (section: Section)
    requires Ordered(v, hs) && i < |hs|
    ensures section == SectionAt(v, hs, i)
  {
    var level := hs[i].level;
    var title := v[hs[i].titleStart..hs[i].end];
    var endPos := FindSectionEnd(v, hs, i);
    var content := Strip(v[hs[i].end..endPos]);
    section := Section(title, content, level);
  }

  /** A deeper heading after heading `i`, with only deeper ones between, lies wholly inside section `i`'s span. */
  lemma NestedWithin(v: string, hs: seq<HeadingMatch>, i: nat, j: nat)
    requires Ordered(v, hs) && i < j < |hs|
    requires forall k :: i < k <= j ==> hs[k].level > hs[i].level
    ensures hs[i].end < hs[j].start && hs[j].start + hs[j].level < SectionEnd(v, hs, i)
    ensures hs[j].end <= SectionEnd(v, hs, i)
  {
    var b := NextBoundary(hs, hs[i].level, i + 1);
    assert j < b;
    if b < |hs| {
      assert hs[j].end < hs[b].start;
    }
  }

  /** Such a nested heading keeps its `#` markers inside the parent section's content. */
  lemma NestedHeadingKept(v: string, hs: seq<HeadingMatch>, i: nat, j: nat)
    requires Ordered(v, hs) && i < j < |hs| && HeadingShape(v, hs[j])
    requires forall k :: i < k <= j ==> hs[k].level > hs[i].level
    ensures Contains(SectionAt(v, hs, i).content, v[hs[j].start..hs[j].start + hs[j].level])
  {
    NestedWithin(v, hs, i, j);
    assert !IsSpace('#');
    StripKeepsStretch(v, hs[i].end, SectionEnd(v, hs, i), hs[j].start, hs[j].level);
  }

  // ---------------------------------------------------------------- shallow sections

  /** What one section adds to `shallow_sections`: its title, its title marked as a subsection, or nothing. */
  function ShallowFlag(s: Section): (r: seq<string>)
    ensures |r| <= 1
  {
    if s.level == 1 && |s.content| < 800 then [s.title]
    else if s.level == 2 && |s.content| < 500 then [s.title + SubsectionSuffix]
    else []
  }

  /** `shallow_sections` after the parser has looked at `secs`. */
  function ShallowFlags(secs: seq<Section>): (r: seq<string>)
    ensures |r| <= |secs|
  {
    if secs == [] then [] else ShallowFlags(secs[..|secs| - 1]) + ShallowFlag(secs[|secs| - 1])
  }

  /** The flags follow section order: the flags of a concatenation are the flags of each part, in turn. */
  lemma {:induction false} ShallowFlagsAppend(a: seq<Section>, b: seq<Section>)
    ensures ShallowFlags(a + b) == ShallowFlags(a) + ShallowFlags(b)
    decreases |b|
  {
    if b != [] {
      var b' := b[..|b| - 1];
      assert (a + b)[..|a + b| - 1] == a + b';
      assert (a + b)[|a + b| - 1] == b[|b| - 1];
      ShallowFlagsAppend(a, b');
      assert ShallowFlags(b) == ShallowFlags(b') + ShallowFlag(b[|b| - 1]);
      assert ShallowFlags(a + b) == ShallowFlags(a + b') + ShallowFlag(b[|b| - 1]);
    } else {
      assert a + b == a;
    }
  }

  /** Exactly the short level-1 and level-2 sections are flagged; deeper sections never are. */
  lemma {:induction false} ShallowFlagsMembers(secs: seq<Section>, f: string)
    ensures f in ShallowFlags(secs) <==> exists i :: 0 <= i < |secs| && ShallowFlag(secs[i]) == [f]
  {
    if secs != [] {
      var init := secs[..|secs| - 1];
      ShallowFlagsMembers(init, f);
      assert forall i :: 0 <= i < |init| ==> init[i] == secs[i];
    }
  }

  // ---------------------------------------------------------------- topic matching

  /** `any(part in title for part in parts)` */
  predicate AnyPartIn(parts: seq<string>, title: string) {
    parts != [] && (Contains(title, parts[0]) || AnyPartIn(parts[1..], title))
  }

  /** `required in title or any(part in title for part in required.split())`, for a title already in lower case. */
  predicate TopicMatches(required: string, title: string) {
    Contains(title, required) || AnyPartIn(Words(required), title)
  }

  /** `AnyPartIn` holds exactly when one of the parts occurs. */
  lemma {:induction false} AnyPartInExists(parts: seq<string>, title: string)
    ensures AnyPartIn(parts, title) <==> exists k :: 0 <= k < |parts| && Contains(title, parts[k])
  {
    if parts != [] {
      AnyPartInExists(parts[1..], title);
      assert forall k :: 1 <= k < |parts| ==> parts[k] == parts[1..][k - 1];
    }
  }

  /** A phrase with a word matches exactly when one of its words occurs: the whole-phrase test adds nothing. */
  lemma WholePhraseSubsumed(required: string, title: string)
    requires Words(required) != []
    ensures TopicMatches(required, title) <==> AnyPartIn(Words(required), title)
  {
    if Contains(title, required) {
      FirstWordOccurs(required);
      ContainsTransitive(title, required, Words(required)[0]);
      AnyPartInExists(Words(required), title);
    }
  }

  /** For every topic of the vocabulary the whole-phrase test adds nothing to the per-word test. */
  lemma VocabularyWordTest(title: string, k: nat)
    requires k < |TopicVocabulary|
    ensures TopicMatches(TopicVocabulary[k], title) <==> AnyPartIn(Words(TopicVocabulary[k]), title)
  {
    WordsNonEmpty(TopicVocabulary[k], 0);
    WholePhraseSubsumed(TopicVocabulary[k], title);
  }

  /** Index of the first vocabulary entry from `i` on that matches `title`, or `|vocab|`. */
  function TopicIndex(vocab: seq<string>, title: string, i: nat): (r: nat)
    requires i <= |vocab|
    ensures i <= r <= |vocab|
    decreases |vocab| - i
  {
    if i == |vocab| then |vocab|
    else if TopicMatches(vocab[i], title) then i
    else TopicIndex(vocab, title, i + 1)
  }

  /** `TopicIndex` is the first match: the entry there matches, and none before it does. */
  lemma {:induction false} TopicIndexIsFirst(vocab: seq<string>, title: string, i: nat)
    requires i <= |vocab|
    ensures TopicIndex(vocab, title, i) < |vocab| ==> TopicMatches(vocab[TopicIndex(vocab, title, i)], title)
    ensures forall k :: i <= k < TopicIndex(vocab, title, i) ==> !TopicMatches(vocab[k], title)
    decreases |vocab| - i
  {
    if i < |vocab| && !TopicMatches(vocab[i], title) {
      TopicIndexIsFirst(vocab, title, i + 1);
    }
  }

  /** The topic a section title records: the first vocabulary entry it matches, if any. */
  function TopicOf(vocab: seq<string>, title: string): (r: set<string>)
    ensures |r| <= 1
    ensures forall t :: t in r ==> t in vocab
  {
    var i := TopicIndex(vocab, Lower(title), 0);
    if i < |vocab| then {vocab[i]} else {}
  }

  /** `found_sections` after the titles of `secs` have been matched. */
  function FoundTopics(vocab: seq<string>, secs: seq<Section>): (r: set<string>)
    ensures forall t :: t in r ==> t in vocab
  {
    if secs == [] then {} else FoundTopics(vocab, secs[..|secs| - 1]) + TopicOf(vocab, secs[|secs| - 1].title)
  }

  /** Each section records at most one topic, so no more topics are found than there are sections. */
  lemma {:induction false} FoundTopicsBound(vocab: seq<string>, secs: seq<Section>)
    ensures |FoundTopics(vocab, secs)| <= |secs|
  {
    if secs != [] {
      var init := secs[..|secs| - 1];
      FoundTopicsBound(vocab, init);
      var a := FoundTopics(vocab, init);
      var b := TopicOf(vocab, secs[|secs| - 1].title);
      assert |a + b| <= |a| + |b| by {
        if b != {} {
          var t :| t in b;
          assert b == {t};
        }
      }
    }
  }

  /** The inner loop over the vocabulary: the index of the first entry a title matches, or `|vocab|`. */
  method FirstTopic(vocab: seq<string>, title: string) returns (idx: nat)
    ensures idx == TopicIndex(vocab, title, 0)
  {
    idx := |vocab|;
    for r := 0 to |vocab|
      invariant TopicIndex(vocab, title, 0) == TopicIndex(vocab, title, r)
    {
      if TopicMatches(vocab[r], title) {
        idx := r;
        break;
      }
    }
  }

  lemma FoundTopicsStep(vocab: seq<string>, secs: seq<Section>, s: nat)
    requires s < |secs|
    ensures FoundTopics(vocab, secs[..s + 1]) == FoundTopics(vocab, secs[..s]) + TopicOf(vocab, secs[s].title)
  {
    assert secs[..s + 1][..s] == secs[..s];
  }

  /** The nested loop over sections and vocabulary that fills `found_sections`. */
  method MatchTopics(vocab: seq<string>, secs: seq<Section>) returns (found: set<string>)
    ensures found == FoundTopics(vocab, secs)
  {
    found := {};
    for s := 0 to |secs|
      invariant found == FoundTopics(vocab, secs[..s])
    {
      FoundTopicsStep(vocab, secs, s);
      var idx := FirstTopic(vocab, Lower(secs[s].title));
      if idx < |vocab| {
        found := found + {vocab[idx]};
      }
    }
    assert secs[..|secs|] == secs;
  }

  /** `[s for s in vocab if s not in found]` */
  function MissingFrom(vocab: seq<string>, found: set<string>): (r: seq<string>)
    ensures |r| <= |vocab|
    ensures forall t :: t in r <==> t in vocab && t !in found
  {
    if vocab == [] then []
    else MissingFrom(vocab[..|vocab| - 1], found) + (if vocab[|vocab| - 1] in found then [] else [vocab[|vocab| - 1]])
  }

  /** `r` is the subsequence of `vocab` at the increasing positions `idx`. */
  predicate PickedAt(vocab: seq<string>, r: seq<string>, idx: seq<nat>) {
    && |idx| == |r|
    && (forall k :: 0 <= k < |idx| ==> idx[k] < |vocab| && vocab[idx[k]] == r[k])
    && (forall j, k :: 0 <= j < k < |idx| ==> idx[j] < idx[k])
  }

  /** Positions picked from the front of `vocab`, possibly followed by its last entry, are picked from `vocab`. */
  lemma PickedExtend(vocab: seq<string>, r: seq<string>, idx: seq<nat>, last: bool)
    requires vocab != [] && PickedAt(vocab[..|vocab| - 1], r, idx)
    ensures last ==> PickedAt(vocab, r + [vocab[|vocab| - 1]], idx + [|vocab| - 1])
    ensures !last ==> PickedAt(vocab, r, idx)
  {
    var n := |vocab| - 1;
    forall k | 0 <= k < |idx| ensures vocab[idx[k]] == r[k] {
      assert vocab[..n][idx[k]] == r[k];
    }
  }

  /** The missing topics keep vocabulary order: they are the entries at increasing positions of `vocab`. */
  lemma {:induction false} MissingInOrder(vocab: seq<string>, found: set<string>) returns (idx: seq<nat>)
    ensures PickedAt(vocab, MissingFrom(vocab, found), idx)
    decreases |vocab|
  {
    if vocab == [] {
      idx := [];
    } else {
      var n := |vocab| - 1;
      var front := MissingInOrder(vocab[..n], found);
      var before := MissingFrom(vocab[..n], found);
      PickedExtend(vocab, before, front, vocab[n] !in found);
      if vocab[n] in found {
        idx := front;
        assert MissingFrom(vocab, found) == before;
      } else {
        idx := front + [n];
        assert MissingFrom(vocab, found) == before + [vocab[n]];
      }
    }
  }

  /** The topics missing among the first `i` vocabulary entries are the first missing topics. */
  lemma {:induction false} MissingPrefix(vocab: seq<string>, found: set<string>, i: nat)
    requires i <= |vocab|
    ensures MissingFrom(vocab[..i], found) <= MissingFrom(vocab, found)
    decreases |vocab|
  {
    if i == |vocab| {
      assert vocab[..i] == vocab;
    } else {
      var n := |vocab| - 1;
      var front := MissingFrom(vocab[..n], found);
      assert MissingFrom(vocab[..i], found) <= front by {
        MissingPrefix(vocab[..n], found, i);
        assert vocab[..n][..i] == vocab[..i];
      }
      assert front <= MissingFrom(vocab, found);
    }
  }

  predicate Distinct(vocab: seq<string>) {
    forall i, j :: 0 <= i < j < |vocab| ==> vocab[i] != vocab[j]
  }

  /** The entries of `vocab` as a set. */
  function Members(vocab: seq<string>): (r: set<string>)
    ensures forall t :: t in r <==> t in vocab
  {
    if vocab == [] then {} else Members(vocab[..|vocab| - 1]) + {vocab[|vocab| - 1]}
  }

  /** Over a vocabulary without repeats, the missing topics and the found ones partition it. */
  lemma {:induction false} MissingCount(vocab: seq<string>, found: set<string>)
    requires Distinct(vocab)
    ensures |MissingFrom(vocab, found)| + |found * Members(vocab)| == |vocab|
  {
    if vocab != [] {
      var init := vocab[..|vocab| - 1];
      var x := vocab[|vocab| - 1];
      MissingCount(init, found);
      var a := found * Members(init);
      assert x !in Members(init);
      if x in found {
        assert found * Members(vocab) == a + {x};
      } else {
        assert found * Members(vocab) == a;
      }
    }
  }

  lemma VocabularyDistinct()
    ensures Distinct(TopicVocabulary)
  {
    var v := TopicVocabulary;
    forall i, j | 0 <= i < j < |v| ensures v[i] != v[j] {
      assert |v[i]| != |v[j]| || v[i][0] != v[j][0] || v[i][1] != v[j][1];
    }
  }

  // ---------------------------------------------------------------- the parser

  /** Markdown links plus `Source:`, `According to ` and `cited by ` citations, each family counted on its own. */
  function SourcesCount(v: string): nat {
    Count(MarkdownLink, v) + Count(SourceLabel, v) + Count(AccordingTo, v) + Count(CitedBy, v)
  }

  /** What `parse_report_structure` stores for the report `v`; nothing for an empty report. */
  function Analyse(v: string): (r: Option<Structure>)
    ensures r.None? <==> v == []
    ensures r.Some? ==>
      && r.value.metrics.totalLength == |v|
      && |r.value.sections| == r.value.metrics.sectionsCount == Count(HeadingLine, v)
  {
    if v == [] then None
    else if Headings(v) == [] then
      Some(Structure([], ReportMetrics(|v|, 0, [], [NoHeadingsWarning], 0, 0)))
    else
      var secs := Sections(v);
      Some(Structure(secs, ReportMetrics(
        |v|, |secs|, ShallowFlags(secs),
        MissingFrom(TopicVocabulary, FoundTopics(TopicVocabulary, secs)),
        Count(DataPoint, v), SourcesCount(v))))
  }

  /**
   * The loop of `parse_report_structure` over the heading matches: it builds each section
   * and appends the shallow ones to `shallow_sections` as it goes.
   */
  method CollectSections(v: string, hs: seq<HeadingMatch>) returns (sections: seq<Section>, shallow: seq<string>)
    requires Ordered(v, hs)
    ensures |sections| == |hs| && forall k :: 0 <= k < |hs| ==> sections[k] == SectionAt(v, hs, k)
    ensures shallow == ShallowFlags(sections)
  {
    sections := [];
    shallow := [];
    for i := 0 to |hs|
      invariant |sections| == i
      invariant forall k :: 0 <= k < i ==> sections[k] == SectionAt(v, hs, k)
      invariant shallow == ShallowFlags(sections)
    {
      var section := ReadSection(v, hs, i);
      assert (sections + [section])[..|sections|] == sections;
      sections := sections + [section];
      if section.level == 1 && |section.content| < 800 {
        shallow := shallow + [section.title];
      } else if section.level == 2 && |section.content| < 500 {
        shallow := shallow + [section.title + SubsectionSuffix];
      }
    }
  }

  /** `parse_report_structure`: the sections and shallow flags, then the counts and the topic match. */
  method ParseReportStructure(v: string) returns (r: Option<Structure>)
    ensures r == Analyse(v)
  {
    if v == [] {
      return None;
    }
    var hs := Headings(v);
    if hs == [] {
      return Some(Structure([], ReportMetrics(|v|, 0, [], [NoHeadingsWarning], 0, 0)));
    }
    var sections, shallow := CollectSections(v, hs);
    assert sections == Sections(v);
    var found := MatchTopics(TopicVocabulary, sections);
    var missing := MissingFrom(TopicVocabulary, found);
    r := Some(Structure(sections, ReportMetrics(|v|, |hs|, shallow, missing, Count(DataPoint, v), SourcesCount(v))));
  }

  // ---------------------------------------------------------------- properties

  /** A report without headings has no sections and is reported as lacking headings. */
  lemma NoHeadingsResult(v: string)
    requires v != [] && Count(HeadingLine, v) == 0
    ensures Analyse(v) == Some(Structure([], ReportMetrics(|v|, 0, [], [NoHeadingsWarning], 0, 0)))
  {
  }

  /**
   * The title of heading `i` starts after the whole whitespace run that follows its `#` run
   * (Python's greedy `\s+`), so it starts with a non-whitespace character; only when that run
   * reaches the end of the text does `\s+` give characters back. No other heading shape at the
   * same place has a later title start.
   */
  lemma TitleStart(v: string, i: nat)
    requires i < |Headings(v)|
    ensures WhitespaceEnd(v, Headings(v)[i]) < |v| ==>
      Headings(v)[i].titleStart == WhitespaceEnd(v, Headings(v)[i]) && !IsSpace(v[Headings(v)[i].titleStart])
    ensures forall m: HeadingMatch :: m.start == Headings(v)[i].start && HeadingShape(v, m) ==>
      m.titleStart <= Headings(v)[i].titleStart
  {
    MatchedTitle(v, Headings(v)[i]);
  }

  /** Each section's level is the full length of its `#` run, and its title is the rest of its heading line. */
  lemma SectionHeading(v: string, i: nat)
    requires i < |Sections(v)|
    ensures Sections(v)[i].level == Run(v, Headings(v)[i].start, Hash)
    ensures Sections(v)[i].title == v[Headings(v)[i].titleStart..Headings(v)[i].end]
    ensures '\n' !in Sections(v)[i].title
    ensures Headings(v)[i].end == |v| || v[Headings(v)[i].end] == '\n'
  {
    ShapeBounds(v, Headings(v)[i]);
  }

  /**
   * A section's title is what follows the whole whitespace run after its `#` run, so it starts
   * with a non-whitespace character, unless that run reaches the end of the text.
   */
  lemma SectionTitle(v: string, i: nat)
    requires i < |Sections(v)|
    ensures Sections(v)[i].title != []
    ensures WhitespaceEnd(v, Headings(v)[i]) < |v| ==>
      Headings(v)[i].titleStart == WhitespaceEnd(v, Headings(v)[i]) && !IsSpace(Sections(v)[i].title[0])
  {
    TitleStart(v, i);
    SectionHeading(v, i);
  }

  /** No level clamp: `'#' * n + " T"` yields one section of level `n`, titled `T`. */
  lemma LevelNotClamped(n: nat)
    requires n >= 1
    ensures Sections(Hashes(n) + " T") == [Section("T", [], n)]
  {
    var v := Hashes(n) + " T";
    HeadingOfHashes(n);
    FirstHeading(v);
    var hs := Headings(v);
    assert v[n + 1..n + 2] == "T";
    assert hs[0].end == |v|;
    assert |hs| > 1 ==> hs[0].end < hs[1].start;
    assert |hs| == 1;
  }

  /** With a vocabulary without repeats, each section can account for at most one topic no longer missing. */
  lemma MissingAtLeast(vocab: seq<string>, secs: seq<Section>)
    requires Distinct(vocab)
    ensures |MissingFrom(vocab, FoundTopics(vocab, secs))| >= |vocab| - |secs|
  {
    var found := FoundTopics(vocab, secs);
    MissingCount(vocab, found);
    FoundTopicsBound(vocab, secs);
    assert found * Members(vocab) == found;
  }

  /** The report lists at least `23 - sections_count` missing topics. */
  lemma ReportMissingAtLeast(v: string)
    requires Count(HeadingLine, v) > 0
    ensures |Analyse(v).value.metrics.missingSections| >= |TopicVocabulary| - Count(HeadingLine, v)
  {
    VocabularyDistinct();
    MissingAtLeast(TopicVocabulary, Sections(v));
  }
}
