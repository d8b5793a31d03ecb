/**
 * The quality gate (`validate_company_report`): nine threshold rules, evaluated in a fixed
 * order, each contributing at most one deficiency message; the result is accepted when
 * none fails, and otherwise sent back with a retry request listing the deficiencies.
 */
module ReportGate {
  import opened Wrappers
  import opened Chars
  import opened Text
  import opened Regex
  import opened ReportStructure

  /** The gate's outcome: keep the result, or raise a retry carrying a message for the generator. */
  datatype Verdict = Accept | Retry(message: string)

  /** The rules, named after what they measure. */
  datatype Rule =
    | Length | SectionCount | TopicCoverage | ShallowLimit | DataPoints
    | Sources | HeadingVariety | ListUsage | EmphasisUsage

  /** The order in which the rules are checked and their messages listed. */
  const RuleOrder: seq<Rule> :=
    [Length, SectionCount, TopicCoverage, ShallowLimit, DataPoints, Sources, HeadingVariety, ListUsage, EmphasisUsage]

  function RuleIndex(r: Rule): (i: nat)
    ensures i < |RuleOrder| && RuleOrder[i] == r
  {
    match r
    case Length => 0
    case SectionCount => 1
    case TopicCoverage => 2
    case ShallowLimit => 3
    case DataPoints => 4
    case Sources => 5
    case HeadingVariety => 6
    case ListUsage => 7
    case EmphasisUsage => 8
  }

  /** The topics whose presence anywhere in the lower-cased report the gate counts. */
  const CriticalTopics: seq<string> := [
    "executive summary", "company overview", "business model", "revenue streams",
    "products", "services", "market analysis", "competitive landscape",
    "financial", "leadership", "organizational structure", "company culture",
    "technology", "innovation", "marketing", "sales strategy",
    "recent news", "developments", "industry trends", "future outlook",
    "risk assessment", "sources", "citations", "job listings"]

  const EmptyReportRequest: string := "Please generate a comprehensive business report for the company."

  const RetryHeaderLine: string := "Please improve the company report by addressing these issues:"

  /** Everything the rules look at: six values from the metrics, three measured on the report. */
  datatype Measurements = Measurements(
    totalLength: nat,
    sectionsCount: nat,
    topicsFound: nat,
    shallowSections: seq<string>,
    dataPointCount: nat,
    sourcesCount: nat,
    headingVariety: nat,
    listItems: nat,
    emphasisSpans: nat)

  /** The reduced metrics the gate computes itself when the parser left none. */
  function FallbackMetrics(report: string): (m: ReportMetrics)
    ensures m.shallowSections == [] && m.missingSections == []
    ensures m.totalLength == |report| && m.sectionsCount == Count(HeadingLine, report)
  {
    ReportMetrics(|report|, Count(HeadingLine, report), [], [],
      Count(BriefDataPoint, report), Count(MarkdownLink, report) + Count(SourceLabel, report))
  }

  /** The metrics in force: the parser's when present, the fallback otherwise. */
  function MetricsInForce(report: string, metrics: Option<ReportMetrics>): ReportMetrics {
    if metrics.Some? then metrics.value else FallbackMetrics(report)
  }

  /** What the rules are applied to. */
  function Measure(report: string, metrics: ReportMetrics): (m: Measurements)
    ensures m.topicsFound <= |CriticalTopics|
  {
    Measurements(
      metrics.totalLength, metrics.sectionsCount,
      CountPresent(CriticalTopics, Lower(report)),
      metrics.shallowSections, metrics.dataPointCount, metrics.sourcesCount,
      |HeadingLevels(report)|, Count(ListItem, report), Count(Emphasis, report))
  }

  /** The thresholds. */
  predicate Fails(r: Rule, m: Measurements) {
    match r
    case Length => m.totalLength < 15000
    case SectionCount => m.sectionsCount < 15
    case TopicCoverage => m.topicsFound < 15
    case ShallowLimit => |m.shallowSections| > 1
    case DataPoints => m.dataPointCount < 30
    case Sources => m.sourcesCount < 15
    case HeadingVariety => m.headingVariety < 3
    case ListUsage => m.listItems < 10
    case EmphasisUsage => m.emphasisSpans < 15
  }

  const LengthHead: string := "The report is too brief at only "
  const SectionCountHead: string := "The report has only "
  const TopicCoverageHead: string := "The report only covers "
  const ShallowLimitHead: string := "These sections have insufficient content: "
  const DataPointsHead: string := "The report contains only "
  const SourcesHead: string := "The report cites only "
  const HeadingVarietyHead: string := "The report lacks structural depth. Please use at least 3 different heading levels (# for main sections, ## for subsections, ### for sub-subsections)."
  const ListUsageHead: string := "The report lacks lists for organized information. Please use at least 10 bulleted or numbered lists to present information clearly."
  const EmphasisUsageHead: string := "The report lacks emphasis formatting. Please use bold and italic formatting to highlight at least 15 key points or important information."

  const LengthTail: string := " characters. Please expand it to at least 15,000 characters with detailed information across all required sections."
  const SectionCountTail: string := " sections. Please structure it with at least 15 major sections as specified in the requirements."
  const TopicCoverageTail: string := " of the required topic areas. Please ensure your report covers at least 15 of the required sections with detailed content."
  const ShallowLimitTail: string := ". Please expand each with detailed analysis of at least 800 characters per major section."
  const DataPointsTail: string := " quantitative data points. Please include at least 30 specific figures, percentages, or metrics to support your analysis."
  const SourcesTail: string := " sources. Please include at least 15 specific sources with links to support your findings."

  /** The text before the measured value in a rule's message. */
  function MessageHead(r: Rule): string {
    match r
    case Length => LengthHead
    case SectionCount => SectionCountHead
    case TopicCoverage => TopicCoverageHead
    case ShallowLimit => ShallowLimitHead
    case DataPoints => DataPointsHead
    case Sources => SourcesHead
    case HeadingVariety => HeadingVarietyHead
    case ListUsage => ListUsageHead
    case EmphasisUsage => EmphasisUsageHead
  }

  /** The text after the measured value in a rule's message. */
  function MessageTail(r: Rule): string {
    match r
    case Length => LengthTail
    case SectionCount => SectionCountTail
    case TopicCoverage => TopicCoverageTail
    case ShallowLimit => ShallowLimitTail
    case DataPoints => DataPointsTail
    case Sources => SourcesTail
    case HeadingVariety => ""
    case ListUsage => ""
    case EmphasisUsage => ""
  }

  /** The rules whose message reports a count. */
  predicate Numeric(r: Rule) {
    r in {Length, SectionCount, TopicCoverage, DataPoints, Sources}
  }

  /** The count a numeric rule reports. */
  function Reported(r: Rule, m: Measurements): nat
    requires Numeric(r)
  {
    match r
    case Length => m.totalLength
    case SectionCount => m.sectionsCount
    case TopicCoverage => m.topicsFound
    case DataPoints => m.dataPointCount
    case Sources => m.sourcesCount
  }

  /** The deficiency message of a rule: its fixed text with the measured value filled in. */
  function Message(r: Rule, m: Measurements): string {
    if Numeric(r) then MessageHead(r) + NatToString(Reported(r, m)) + MessageTail(r)
    else if r == ShallowLimit then MessageHead(r) + Join(", ", m.shallowSections) + MessageTail(r)
    else MessageHead(r)
  }

  /** The rule itself when it fails, nothing otherwise. */
  function Pick(r: Rule, m: Measurements): seq<Rule> {
    if Fails(r, m) then [r] else []
  }

  /** The failing rules among `rules`, in their order. */
  function Failing(m: Measurements, rules: seq<Rule>): (f: seq<Rule>)
    ensures |f| <= |rules|
  {
    if rules == [] then [] else Failing(m, rules[..|rules| - 1]) + Pick(rules[|rules| - 1], m)
  }

  /** The message of each rule in `rs`. */
  function Messages(rs: seq<Rule>, m: Measurements): seq<string> {
    MapRules(MessageOf(m), rs)
  }

  function MessageOf(m: Measurements): Rule -> string {
    r => Message(r, m)
  }

  /** `f` of each rule in `rs`. */
  function MapRules(f: Rule -> string, rs: seq<Rule>): seq<string> {
    seq(|rs|, i requires 0 <= i < |rs| => f(rs[i]))
  }

  /** The failing rules among the six that read the metrics, in the order they are checked. */
  function ContentFailures(m: Measurements): seq<Rule> {
    Pick(Length, m) + Pick(SectionCount, m) + Pick(TopicCoverage, m)
      + Pick(ShallowLimit, m) + Pick(DataPoints, m) + Pick(Sources, m)
  }

  /** The failing rules among the three markdown-formatting checks, in the order they are checked. */
  function FormattingFailures(m: Measurements): seq<Rule> {
    Pick(HeadingVariety, m) + Pick(ListUsage, m) + Pick(EmphasisUsage, m)
  }

  /** The rules the gate finds failing, in the order it checks them. */
  function FailingRules(m: Measurements): seq<Rule> {
    ContentFailures(m) + FormattingFailures(m)
  }

  /** The deficiency messages the gate collects: one per failing rule, in rule order. */
  function Issues(m: Measurements): seq<string> {
    Messages(FailingRules(m), m)
  }

  /** `"- " + issue` for each issue. */
  function Bullets(issues: seq<string>): (r: seq<string>)
    ensures |r| == |issues|
    ensures forall i :: 0 <= i < |issues| ==> r[i] == "- " + issues[i]
  {
    if issues == [] then [] else ["- " + issues[0]] + Bullets(issues[1..])
  }

  /** The retry request: the fixed header, a blank line, then one bullet per issue. */
  function RetryMessage(issues: seq<string>): string {
    RetryHeaderLine + "\n\n" + Join("\n", Bullets(issues))
  }

  /** The verdict for a list of issues. */
  function Decide(issues: seq<string>): (v: Verdict)
    ensures v == Accept <==> issues == []
  {
    if issues == [] then Accept else Retry(RetryMessage(issues))
  }

  /** `validate_company_report` */
  method ValidateCompanyReport(report: string, metrics: Option<ReportMetrics>) returns (verdict: Verdict, issues: seq<string>)
    ensures report == [] ==> verdict == Retry(EmptyReportRequest) && issues == []
    ensures report != [] ==>
      && issues == Issues(Measure(report, MetricsInForce(report, metrics)))
      && verdict == Decide(issues)
  {
    if report == [] {
      return Retry(EmptyReportRequest), [];
    }
    var m := TakeMeasurements(report, metrics);
    issues := CheckRules(m);
    if issues != [] {
      verdict := Retry(RetryMessage(issues));
    } else {
      verdict := Accept;
    }
  }

  /** The metrics in force (computing the fallback when there are none) and the three counts taken on the report. */
  method TakeMeasurements(report: string, metrics: Option<ReportMetrics>) returns (m: Measurements)
    ensures m == Measure(report, MetricsInForce(report, metrics))
  {
    var mt: ReportMetrics;
    if metrics.None? {
      var contentLength := |report|;
      var headings := Count(HeadingLine, report);
      var dataPoints := Count(BriefDataPoint, report);
      var sources := Count(MarkdownLink, report) + Count(SourceLabel, report);
      mt := ReportMetrics(contentLength, headings, [], [], dataPoints, sources);
    } else {
      mt := metrics.value;
    }
    // Taken here rather than between the checks: they have no side effects, so the
    // order changes nothing.
    var found := CountPhrasesPresent(CriticalTopics, Lower(report));
    var variety := |HeadingLevels(report)|;
    var lists := Count(ListItem, report);
    var emphasis := Count(Emphasis, report);
    m := Measurements(
      mt.totalLength, mt.sectionsCount, found, mt.shallowSections,
      mt.dataPointCount, mt.sourcesCount, variety, lists, emphasis);
  }

  /** The nine checks in order, each appending its message when its threshold is missed. */
  method CheckRules(m: Measurements) returns (issues: seq<string>)
    ensures issues == Issues(m)
  {
    issues := CheckContent(m);
    var formatting := CheckFormatting(m);
    MessagesAppend(ContentFailures(m), FormattingFailures(m), m);
    issues := issues + formatting;
  }

  /** Checks 1 to 6: length, sections, topic coverage, shallow sections, data points, sources. */
  method CheckContent(m: Measurements) returns (issues: seq<string>)
    ensures issues == Messages(ContentFailures(m), m)
  {
    issues := [];
    ghost var failing := Pick(Length, m);
    if m.totalLength < 15000 {
      issues := issues + [Message(Length, m)];
    }
    assert issues == Messages(failing, m);
    IssueStep(failing, SectionCount, m);
    if m.sectionsCount < 15 {
      issues := issues + [Message(SectionCount, m)];
    }
    failing := failing + Pick(SectionCount, m);
    assert issues == Messages(failing, m);
    IssueStep(failing, TopicCoverage, m);
    if m.topicsFound < 15 {
      issues := issues + [Message(TopicCoverage, m)];
    }
    failing := failing + Pick(TopicCoverage, m);
    assert issues == Messages(failing, m);
    IssueStep(failing, ShallowLimit, m);
    if |m.shallowSections| > 1 {
      issues := issues + [Message(ShallowLimit, m)];
    }
    failing := failing + Pick(ShallowLimit, m);
    assert issues == Messages(failing, m);
    IssueStep(failing, DataPoints, m);
    if m.dataPointCount < 30 {
      issues := issues + [Message(DataPoints, m)];
    }
    failing := failing + Pick(DataPoints, m);
    assert issues == Messages(failing, m);
    IssueStep(failing, Sources, m);
    if m.sourcesCount < 15 {
      issues := issues + [Message(Sources, m)];
    }
    failing := failing + Pick(Sources, m);
    assert issues == Messages(failing, m);
  }

  /** Checks 7 to 9: heading variety, lists, emphasis. */
  method CheckFormatting(m: Measurements) returns (issues: seq<string>)
    ensures issues == Messages(FormattingFailures(m), m)
  {
    issues := [];
    ghost var failing := Pick(HeadingVariety, m);
    if m.headingVariety < 3 {
      issues := issues + [Message(HeadingVariety, m)];
    }
    assert issues == Messages(failing, m);
    IssueStep(failing, ListUsage, m);
    if m.listItems < 10 {
      issues := issues + [Message(ListUsage, m)];
    }
    failing := failing + Pick(ListUsage, m);
    assert issues == Messages(failing, m);
    IssueStep(failing, EmphasisUsage, m);
    if m.emphasisSpans < 15 {
      issues := issues + [Message(EmphasisUsage, m)];
    }
    failing := failing + Pick(EmphasisUsage, m);
    assert issues == Messages(failing, m);
  }

  // ---------------------------------------------------------------- properties of the issue list

  lemma FailingSnoc(m: Measurements, rules: seq<Rule>, r: Rule)
    ensures Failing(m, rules + [r]) == Failing(m, rules) + Pick(r, m)
  {
    assert (rules + [r])[..|rules|] == rules;
  }

  lemma MapRulesAppend(f: Rule -> string, a: seq<Rule>, b: seq<Rule>)
    ensures MapRules(f, a + b) == MapRules(f, a) + MapRules(f, b)
  {
    var whole := MapRules(f, a + b);
    var parts := MapRules(f, a) + MapRules(f, b);
    forall i | 0 <= i < |whole| ensures whole[i] == parts[i] {
      if i >= |a| {
        assert (a + b)[i] == b[i - |a|];
      }
    }
  }

  lemma MessagesAppend(a: seq<Rule>, b: seq<Rule>, m: Measurements)
    ensures Messages(a + b, m) == Messages(a, m) + Messages(b, m)
  {
    MapRulesAppend(MessageOf(m), a, b);
  }

  lemma MessagesSnoc(rs: seq<Rule>, r: Rule, m: Measurements)
    ensures Messages(rs + [r], m) == Messages(rs, m) + [Message(r, m)]
  {
    MapRulesAppend(MessageOf(m), rs, [r]);
  }

  /** Checking one more rule appends its message exactly when it fails. */
  lemma IssueStep(rs: seq<Rule>, r: Rule, m: Measurements)
    ensures Messages(rs + Pick(r, m), m) == Messages(rs, m) + (if Fails(r, m) then [Message(r, m)] else [])
  {
    if Fails(r, m) {
      MessagesSnoc(rs, r, m);
    } else {
      assert rs + Pick(r, m) == rs;
    }
  }

  lemma FailingPrefix(m: Measurements, k: nat)
    requires k < |RuleOrder|
    ensures Failing(m, RuleOrder[..k + 1]) == Failing(m, RuleOrder[..k]) + Pick(RuleOrder[k], m)
  {
    assert RuleOrder[..k + 1] == RuleOrder[..k] + [RuleOrder[k]];
    FailingSnoc(m, RuleOrder[..k], RuleOrder[k]);
  }

  /** Checking the six content rules one after another finds the content failures. */
  lemma FailingContent(m: Measurements)
    ensures Failing(m, RuleOrder[..6]) == ContentFailures(m)
  {
    assert RuleOrder[..0] == [];
    FailingPrefix(m, 0);
    assert Failing(m, RuleOrder[..1]) == Pick(Length, m);
    FailingPrefix(m, 1);
    FailingPrefix(m, 2);
    FailingPrefix(m, 3);
    FailingPrefix(m, 4);
    FailingPrefix(m, 5);
  }

  /** Checking the rules of `RuleOrder` one after another finds the gate's failing rules. */
  lemma FailingInRuleOrder(m: Measurements)
    ensures Failing(m, RuleOrder) == FailingRules(m)
  {
    var c := RuleOrder[..6];
    FailingContent(m);
    FailingSnoc(m, c, HeadingVariety);
    FailingSnoc(m, c + [HeadingVariety], ListUsage);
    FailingSnoc(m, c + [HeadingVariety] + [ListUsage], EmphasisUsage);
    assert c + [HeadingVariety] + [ListUsage] + [EmphasisUsage] == RuleOrder;
    assert ContentFailures(m) + Pick(HeadingVariety, m) + Pick(ListUsage, m) + Pick(EmphasisUsage, m) == FailingRules(m);
  }

  /** A rule is listed as failing exactly when it is among the rules checked and fails. */
  lemma {:induction false} FailingMembers(m: Measurements, rules: seq<Rule>, r: Rule)
    ensures r in Failing(m, rules) <==> r in rules && Fails(r, m)
  {
    if rules != [] {
      var init := rules[..|rules| - 1];
      FailingMembers(m, init, r);
      assert rules == init + [rules[|rules| - 1]];
    }
  }

  /** The failing rules keep the relative order of the rules checked. */
  lemma {:induction false} FailingOrdered(m: Measurements, rules: seq<Rule>)
    requires forall i, j :: 0 <= i < j < |rules| ==> RuleIndex(rules[i]) < RuleIndex(rules[j])
    ensures forall i, j :: 0 <= i < j < |Failing(m, rules)| ==>
      RuleIndex(Failing(m, rules)[i]) < RuleIndex(Failing(m, rules)[j])
  {
    if rules != [] {
      var init := rules[..|rules| - 1];
      var last := rules[|rules| - 1];
      FailingOrdered(m, init);
      var f := Failing(m, init);
      forall r | r in f ensures RuleIndex(r) < RuleIndex(last) {
        FailingMembers(m, init, r);
      }
    }
  }

  /** A rule is among the gate's failing rules exactly when it fails. */
  lemma FailingRulesIff(m: Measurements)
    ensures forall r :: Fails(r, m) <==> r in FailingRules(m)
  {
    FailingInRuleOrder(m);
    forall r ensures r in Failing(m, RuleOrder) <==> Fails(r, m) {
      FailingMembers(m, RuleOrder, r);
    }
  }

  /** The gate's issues come from failing rules only, one message per failing rule, in rule order. */
  lemma IssuesInRuleOrder(m: Measurements)
    ensures |Issues(m)| == |FailingRules(m)|
    ensures forall i :: 0 <= i < |FailingRules(m)| ==>
      Fails(FailingRules(m)[i], m) && Issues(m)[i] == Message(FailingRules(m)[i], m)
    ensures forall i, j :: 0 <= i < j < |FailingRules(m)| ==>
      RuleIndex(FailingRules(m)[i]) < RuleIndex(FailingRules(m)[j])
    ensures forall r :: Fails(r, m) <==> r in FailingRules(m)
  {
    FailingInRuleOrder(m);
    FailingOrdered(m, RuleOrder);
    FailingRulesIff(m);
  }

  /** The result is accepted exactly when no rule fails. */
  lemma AcceptIffNoRuleFails(m: Measurements)
    ensures Decide(Issues(m)) == Accept <==> forall r :: !Fails(r, m)
  {
    IssuesInRuleOrder(m);
  }

  /** When only rule `r` fails, the issue list is exactly its message. */
  lemma SingleShortfall(m: Measurements, r: Rule)
    requires Fails(r, m)
    requires forall q :: q != r ==> !Fails(q, m)
    ensures Issues(m) == [Message(r, m)]
  {
    assert FailingRules(m) == [r];
  }

  /** Measurements exactly at every threshold: all lower bounds met, one shallow section. */
  const AtThresholds: Measurements := Measurements(15000, 15, 15, ["Overview"], 30, 15, 3, 10, 15)

  /** The threshold measurements with rule `r` one step short: one below its bound, or a second shallow section. */
  function OneShort(r: Rule): Measurements {
    var b := AtThresholds;
    match r
    case Length => b.(totalLength := 14999)
    case SectionCount => b.(sectionsCount := 14)
    case TopicCoverage => b.(topicsFound := 14)
    case ShallowLimit => b.(shallowSections := ["Overview", "History"])
    case DataPoints => b.(dataPointCount := 29)
    case Sources => b.(sourcesCount := 14)
    case HeadingVariety => b.(headingVariety := 2)
    case ListUsage => b.(listItems := 9)
    case EmphasisUsage => b.(emphasisSpans := 14)
  }

  /** The boundary values pass, and one step short of any threshold fails exactly that rule. */
  lemma ThresholdsAreExact(r: Rule)
    ensures Issues(AtThresholds) == []
    ensures Issues(OneShort(r)) == [Message(r, OneShort(r))]
  {
    assert FailingRules(AtThresholds) == [];
    SingleShortfall(OneShort(r), r);
  }

  // ---------------------------------------------------------------- fallback metrics

  /** Without parser metrics the shallow rule cannot fire, and the sections counted are the heading lines. */
  lemma FallbackNeverShallow(report: string)
    ensures !Fails(ShallowLimit, Measure(report, FallbackMetrics(report)))
    ensures Measure(report, FallbackMetrics(report)).sectionsCount == Count(HeadingLine, report)
  {
  }

  /** A report where `^(#+)\s+` never matches has no heading levels, so it fails the heading-variety rule. */
  lemma NoMarkersFailsVariety(report: string, metrics: ReportMetrics)
    requires Count(HeadingMarker, report) == 0
    ensures HeadingLevels(report) == {}
    ensures Fails(HeadingVariety, Measure(report, metrics))
  {
    assert Spans(HeadingMarker, report) == [];
  }

  /** Under the fallback, a report where `^#+\s+.+$` never matches counts no sections and fails the section-count rule. */
  lemma NoHeadingLinesFailsSections(report: string)
    requires Count(HeadingLine, report) == 0
    ensures Measure(report, FallbackMetrics(report)).sectionsCount == 0
    ensures Fails(SectionCount, Measure(report, FallbackMetrics(report)))
  {
    FallbackNeverShallow(report);
  }

  /** A report without a `#` fails both the section-count rule (under the fallback) and the heading-variety rule. */
  lemma NoHeadingsFails(report: string, metrics: ReportMetrics)
    requires '#' !in report
    ensures Fails(HeadingVariety, Measure(report, metrics))
    ensures Fails(SectionCount, Measure(report, FallbackMetrics(report)))
  {
    NoHashNoHeadings(report);
    NoMarkersFailsVariety(report, metrics);
    NoHeadingLinesFailsSections(report);
  }

  // ---------------------------------------------------------------- messages

  /** A count printed between two fixed texts reads back from between them. */
  lemma ReadsBack(head: string, n: nat, tail: string)
    ensures var msg := head + NatToString(n) + tail;
      && |head| + |tail| < |msg|
      && msg[..|head|] == head
      && msg[|head|..|msg| - |tail|] == NatToString(n)
      && DecimalValue(msg[|head|..|msg| - |tail|]) == n
  {
    var msg := head + NatToString(n) + tail;
    assert msg[|head|..|msg| - |tail|] == NatToString(n);
    DecimalValueOfNatToString(n);
  }

  /** A numeric rule's message carries the measured count, which reads back from between its fixed parts. */
  lemma MessageReadsBack(r: Rule, m: Measurements)
    requires Numeric(r)
    ensures |MessageHead(r)| + |MessageTail(r)| < |Message(r, m)|
    ensures Message(r, m)[..|MessageHead(r)|] == MessageHead(r)
    ensures DecimalValue(Message(r, m)[|MessageHead(r)|..|Message(r, m)| - |MessageTail(r)|]) == Reported(r, m)
  {
    ReadsBack(MessageHead(r), Reported(r, m), MessageTail(r));
  }

  /** The shallow-sections message names every shallow section. */
  lemma ShallowMessageNamesAll(m: Measurements, i: nat)
    requires i < |m.shallowSections|
    ensures Contains(Message(ShallowLimit, m), m.shallowSections[i])
  {
    var j := Join(", ", m.shallowSections);
    var msg := Message(ShallowLimit, m);
    JoinContains(", ", m.shallowSections, i);
    assert msg == ShallowLimitHead + j + ShallowLimitTail;
    assert LitAt(msg, |ShallowLimitHead|, j);
    ContainsTransitive(msg, j, m.shallowSections[i]);
  }

  /** After a header and its blank line, a request splits into one bullet line per issue. */
  lemma RequestSplits(header: string, issues: seq<string>)
    requires issues != []
    requires forall i :: 0 <= i < |issues| ==> '\n' !in issues[i]
    ensures (header + "\n\n" + Join("\n", Bullets(issues)))[..|header| + 2] == header + "\n\n"
    ensures Lines((header + "\n\n" + Join("\n", Bullets(issues)))[|header| + 2..]) == Bullets(issues)
  {
    var bs := Bullets(issues);
    forall i | 0 <= i < |bs| ensures '\n' !in bs[i] {
      assert bs[i] == "- " + issues[i];
    }
    LinesOfJoin(bs);
    var s := header + "\n\n" + Join("\n", bs);
    assert s[|header| + 2..] == Join("\n", bs);
  }

  /** After the header and its blank line, a retry request splits into one bullet line per issue. */
  lemma RetryMessageLines(issues: seq<string>)
    requires issues != []
    requires forall i :: 0 <= i < |issues| ==> '\n' !in issues[i]
    ensures RetryMessage(issues)[..|RetryHeaderLine| + 2] == RetryHeaderLine + "\n\n"
    ensures Lines(RetryMessage(issues)[|RetryHeaderLine| + 2..]) == Bullets(issues)
  {
    RequestSplits(RetryHeaderLine, issues);
  }
}
