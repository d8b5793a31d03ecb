/**
 * The report annotator (`validate_report`): an empty report is replaced by a placeholder;
 * any other report is kept and, after it, up to six advisory notes are appended, one per
 * check that finds the report lacking. Each check reads the text as the earlier checks
 * left it, notes included.
 */
module Advisory {
  import opened Chars
  import opened Text
  import opened Regex

  const NoReportText: string := "No detailed report available."

  const BriefNote: string := "\n\n**Note: This report has been automatically flagged as potentially too brief. A comprehensive business report should contain detailed information across multiple business aspects.**"
  const StructureNote: string := "\n\n**Note: This report appears to lack proper section structure. A comprehensive report should be organized into multiple clearly defined sections.**"
  const TopicsNote: string := "\n\n**Note: This report may be missing important business analysis sections. A comprehensive report should cover multiple aspects of business operations and strategy.**"
  const DataNote: string := "\n\n**Note: This report may lack sufficient quantitative data points such as percentages, financial figures, or market metrics.**"
  const SourcesNote: string := "\n\n**Note: This report contains few citations or sources. A comprehensive report should cite multiple reliable sources to support its findings.**"
  const ComparisonNote: string := "\n\n**Note: This report may lack sufficient comparative analysis against competitors or industry benchmarks.**"

  /** The topics searched for (as plain substrings) in the lower-cased text. */
  const AdvisoryTopics: seq<string> := [
    "executive summary", "company overview", "product", "service",
    "market analysis", "competitive", "financial", "leadership",
    "marketing", "technology", "innovation", "risk", "future", "sources"]

  /** The six checks, named after what they look for. */
  datatype Check = Brief | Structure | Topics | Data | Sources | Comparison

  /** The order in which the checks run. */
  const CheckOrder: seq<Check> := [Brief, Structure, Topics, Data, Sources, Comparison]

  function CheckIndex(c: Check): (i: nat)
    ensures i < |CheckOrder| && CheckOrder[i] == c
  {
    match c
    case Brief => 0
    case Structure => 1
    case Topics => 2
    case Data => 3
    case Sources => 4
    case Comparison => 5
  }

  function Note(c: Check): string {
    match c
    case Brief => BriefNote
    case Structure => StructureNote
    case Topics => TopicsNote
    case Data => DataNote
    case Sources => SourcesNote
    case Comparison => ComparisonNote
  }

  /** Whether check `c` finds the text `v` lacking. */
  predicate NoteNeeded(c: Check, v: string) {
    match c
    case Brief => |v| < 15000
    case Structure => Count(HeadingLine, v) < 5
    case Topics => CountPresent(AdvisoryTopics, Lower(v)) < 7
    case Data => Count(BriefDataPoint, v) < 10
    case Sources => Count(MarkdownLink, v) + Count(SourceLabel, v) < 5
    case Comparison => !Search(Comparative, v)
  }

  /** What check `c` leaves of the text `t`: `t` with the note of `c` appended when `t` is lacking. */
  function Step(c: Check, t: string): string {
    if NoteNeeded(c, t) then t + Note(c) else t
  }

  /**
   * What `validate_report` returns: the placeholder for an empty report; otherwise the six
   * checks in turn, each on the text the one before it left.
   */
  function Validated(v: string): string {
    if v == [] then NoReportText
    else Step(Comparison, Step(Sources, Step(Data, Step(Topics, Step(Structure, Step(Brief, v))))))
  }

  /** `validate_report` */
  method ValidateReport(v: string) returns (r: string)
    ensures r == Validated(v)
  {
    if v == [] {
      return NoReportText;
    }
    r := v;
    r := Annotate(Brief, r);
    r := Annotate(Structure, r);
    r := Annotate(Topics, r);
    r := Annotate(Data, r);
    r := Annotate(Sources, r);
    r := Annotate(Comparison, r);
  }

  /** One of the six checks of `validate_report`: append the note of `c` when `r` is lacking. */
  method Annotate(c: Check, r: string) returns (r': string)
    ensures r' == Step(c, r)
  {
    r' := r;
    match c {
      case Brief =>
        if |r| < 15000 {
          r' := r + BriefNote;
        }
      case Structure =>
        var headings := Count(HeadingLine, r);
        if headings < 5 {
          r' := r + StructureNote;
        }
      case Topics =>
        var found := CountPhrasesPresent(AdvisoryTopics, Lower(r));
        if found < 7 {
          r' := r + TopicsNote;
        }
      case Data =>
        var dataPoints := Count(BriefDataPoint, r);
        if dataPoints < 10 {
          r' := r + DataNote;
        }
      case Sources =>
        var sources := Count(MarkdownLink, r) + Count(SourceLabel, r);
        if sources < 5 {
          r' := r + SourcesNote;
        }
      case Comparison =>
        if !Search(Comparative, r) {
          r' := r + ComparisonNote;
        }
    }
  }

  // ---------------------------------------------------------------- which notes are appended

  /** The text after applying `step` for each of `checks` in order, each on the text the previous ones left. */
  function RunWith(step: (Check, string) -> string, v: string, checks: seq<Check>): string {
    if checks == [] then v else step(checks[|checks| - 1], RunWith(step, v, checks[..|checks| - 1]))
  }

  /** The text after running `checks` in order on `v`. */
  function Run(v: string, checks: seq<Check>): string {
    RunWith(Step, v, checks)
  }

  /** The notes of `checks`, one after another. */
  function NotesText(checks: seq<Check>): string {
    if checks == [] then [] else NotesText(checks[..|checks| - 1]) + Note(checks[|checks| - 1])
  }

  /**
   * The checks among `checks` that fire when run in order, where whether check `c` fires
   * depends, through `fires`, on the checks that fired before it.
   */
  function FiredBy(fires: (Check, seq<Check>) -> bool, checks: seq<Check>): (f: seq<Check>)
    ensures |f| <= |checks|
  {
    if checks == [] then []
    else
      var f := FiredBy(fires, checks[..|checks| - 1]);
      var c := checks[|checks| - 1];
      if fires(c, f) then f + [c] else f
  }

  /** Check `c` appends its note when the report followed by the notes already appended is lacking. */
  function Fires(v: string): (Check, seq<Check>) -> bool {
    (c: Check, f: seq<Check>) => NoteNeeded(c, v + NotesText(f))
  }

  /** The checks whose notes `validate_report` appends to `v`, in order. */
  function Fired(v: string): seq<Check> {
    FiredBy(Fires(v), CheckOrder)
  }

  // ---------------------------------------------------------------- properties

  lemma AppendAssoc(a: string, b: string, c: string)
    ensures (a + b) + c == a + (b + c)
  {
  }

  lemma RunSnoc(step: (Check, string) -> string, v: string, checks: seq<Check>, c: Check)
    ensures RunWith(step, v, checks + [c]) == step(c, RunWith(step, v, checks))
  {
    assert (checks + [c])[..|checks|] == checks;
  }

  /** Six checks run one after another, each on what the previous left. */
  lemma RunSix(step: (Check, string) -> string, v: string, a: Check, b: Check, c: Check, d: Check, e: Check, f: Check)
    ensures RunWith(step, v, [a, b, c, d, e, f]) == step(f, step(e, step(d, step(c, step(b, step(a, v))))))
  {
    RunSnoc(step, v, [], a);
    assert [] + [a] == [a];
    RunSnoc(step, v, [a], b);
    assert [a] + [b] == [a, b];
    RunSnoc(step, v, [a, b], c);
    assert [a, b] + [c] == [a, b, c];
    RunSnoc(step, v, [a, b, c], d);
    assert [a, b, c] + [d] == [a, b, c, d];
    RunSnoc(step, v, [a, b, c, d], e);
    assert [a, b, c, d] + [e] == [a, b, c, d, e];
    RunSnoc(step, v, [a, b, c, d, e], f);
    assert [a, b, c, d, e] + [f] == [a, b, c, d, e, f];
  }

  /** `validate_report` runs the checks of `CheckOrder`, in that order. */
  lemma ValidatedRun(v: string)
    requires v != []
    ensures Validated(v) == Run(v, CheckOrder)
  {
    RunSix(Step, v, Brief, Structure, Topics, Data, Sources, Comparison);
  }

  /** Running checks leaves the text followed by the notes of the checks that fired, in order. */
  lemma {:induction false} RunFired(v: string, checks: seq<Check>)
    ensures Run(v, checks) == v + NotesText(FiredBy(Fires(v), checks))
  {
    if checks == [] {
      assert v + NotesText([]) == v;
    } else {
      var init := checks[..|checks| - 1];
      var c := checks[|checks| - 1];
      RunFired(v, init);
      var fired := FiredBy(Fires(v), init);
      assert (fired + [c])[..|fired|] == fired;
      AppendAssoc(v, NotesText(fired), Note(c));
    }
  }

  /** A non-empty report comes back followed by the notes of the checks that fired. */
  lemma ValidatedNotes(v: string)
    requires v != []
    ensures Validated(v) == v + NotesText(Fired(v))
  {
    ValidatedRun(v);
    RunFired(v, CheckOrder);
  }

  /** A check fires exactly when it is among the checks run and `fires` holds for it after the checks before it. */
  lemma {:induction false} FiredByMembers(fires: (Check, seq<Check>) -> bool, checks: seq<Check>, c: Check)
    ensures c in FiredBy(fires, checks) <==>
      exists i :: 0 <= i < |checks| && checks[i] == c && fires(c, FiredBy(fires, checks[..i]))
  {
    if checks != [] {
      var init := checks[..|checks| - 1];
      var n := |checks| - 1;
      FiredByMembers(fires, init, c);
      if c in FiredBy(fires, checks) {
        if c in FiredBy(fires, init) {
          var i :| 0 <= i < |init| && init[i] == c && fires(c, FiredBy(fires, init[..i]));
          assert checks[..i] == init[..i];
        } else {
          assert checks[..n] == init;
        }
      } else {
        forall i | 0 <= i < |checks| && checks[i] == c
          ensures !fires(c, FiredBy(fires, checks[..i]))
        {
          if i < n {
            assert checks[..i] == init[..i];
          } else {
            assert checks[..n] == init;
          }
        }
      }
    }
  }

  /** The checks that fire keep the order in which the checks run. */
  lemma {:induction false} FiredByOrdered(fires: (Check, seq<Check>) -> bool, checks: seq<Check>)
    requires forall i, j :: 0 <= i < j < |checks| ==> CheckIndex(checks[i]) < CheckIndex(checks[j])
    ensures forall i, j :: 0 <= i < j < |FiredBy(fires, checks)| ==>
      CheckIndex(FiredBy(fires, checks)[i]) < CheckIndex(FiredBy(fires, checks)[j])
  {
    if checks != [] {
      var init := checks[..|checks| - 1];
      var last := checks[|checks| - 1];
      FiredByOrdered(fires, init);
      forall c | c in FiredBy(fires, init) ensures CheckIndex(c) < CheckIndex(last) {
        FiredByMembers(fires, init, c);
      }
    }
  }

  /** A non-empty report is kept in full, at the front of the result. */
  lemma ReportKept(v: string)
    requires v != []
    ensures Validated(v)[..|v|] == v
  {
    ValidatedNotes(v);
  }

  /** Each note is appended at most once, and the notes keep the order in which the checks run. */
  lemma NotesInCheckOrder(v: string)
    ensures forall i, j :: 0 <= i < j < |Fired(v)| ==> CheckIndex(Fired(v)[i]) < CheckIndex(Fired(v)[j])
  {
    FiredByOrdered(Fires(v), CheckOrder);
  }

  /** The brevity note is added exactly when the report itself is under 15000 characters. */
  lemma BriefNoteIff(v: string)
    ensures Brief in Fired(v) <==> |v| < 15000
  {
    FiredByMembers(Fires(v), CheckOrder, Brief);
    assert CheckOrder[..0] == [];
    assert v + NotesText([]) == v;
  }

  /** A check that occurs once in the run fires exactly when `fires` holds for it after the checks before it. */
  lemma FiredAt(fires: (Check, seq<Check>) -> bool, checks: seq<Check>, i: nat)
    requires i < |checks|
    requires forall j :: 0 <= j < |checks| && j != i ==> checks[j] != checks[i]
    ensures checks[i] in FiredBy(fires, checks) <==> fires(checks[i], FiredBy(fires, checks[..i]))
  {
    FiredByMembers(fires, checks, checks[i]);
  }

  /** Notes only lengthen the text, so a comparative phrase already in the report suppresses the comparison note. */
  lemma ComparisonNoteSuppressed(v: string)
    requires Search(Comparative, v)
    ensures Comparison !in Fired(v)
  {
    FiredAt(Fires(v), CheckOrder, 5);
    var x := NotesText(FiredBy(Fires(v), CheckOrder[..5]));
    ComparativeExtend(v, x);
    assert !NoteNeeded(Comparison, v + x);
  }

  /** Likewise, a report naming at least seven of the topics never gets the topic note. */
  lemma TopicsNoteSuppressed(v: string)
    requires CountPresent(AdvisoryTopics, Lower(v)) >= 7
    ensures Topics !in Fired(v)
  {
    FiredAt(Fires(v), CheckOrder, 2);
    var x := NotesText(FiredBy(Fires(v), CheckOrder[..2]));
    LowerAppend(v, x);
    CountPresentExtend(AdvisoryTopics, Lower(v), Lower(x));
    assert !NoteNeeded(Topics, v + x);
  }

  /** The result is never empty. */
  lemma ValidatedNonEmpty(v: string)
    ensures Validated(v) != []
    ensures v == [] ==> Validated(v) == NoReportText
  {
  }
}
