/**
 * The regular expressions of the report checks, each written out as a matcher that
 * returns where a match starting at a given position ends, with the semantics of
 * Python's `re` engine: alternatives are tried left to right and the first that
 * matches wins, greedy repeats give back one character at a time, lazy `.*?` grows
 * one non-newline character at a time. `Spans` is `re.findall`/`re.finditer`: the
 * leftmost match, then the search resumes where it ended.
 */
module Regex {
  import opened Wrappers
  import opened Chars
  import opened Text

  /** `^` under re.MULTILINE. */
  predicate AtLineStart(v: string, p: nat) {
    p == 0 || (p <= |v| && v[p - 1] == '\n')
  }

  /** `\b` at position `i`. */
  predicate WordBoundary(v: string, i: nat)
    requires i <= |v|
  {
    (i > 0 && IsWord(v[i - 1])) != (i < |v| && IsWord(v[i]))
  }

  /** The literal `lit` (lower case) at `p`, compared under re.IGNORECASE. */
  predicate FoldLitAt(v: string, p: nat, lit: string) {
    p + |lit| <= |v| && forall k :: 0 <= k < |lit| ==> FoldEq(v[p + k], lit[k])
  }

  /** `\d{n}` at `p`. */
  predicate DigitsAt(v: string, p: nat, n: nat) {
    p + n <= |v| && forall k :: p <= k < p + n ==> IsDigit(v[k])
  }

  /** The first of two alternatives that matches. */
  function Or(a: Option<nat>, b: Option<nat>): Option<nat> {
    if a.Some? then a else b
  }

  // ---------------------------------------------------------------- lazy `.*?X`

  /** The token that ends a lazy `.*?`: a literal, or the class `[\.,]`. */
  datatype Close = Literal(text: string) | PeriodOrComma

  predicate ValidClose(c: Close) {
    c.Literal? ==> c.text != []
  }

  function CloseEnd(v: string, j: nat, c: Close): (r: Option<nat>)
    requires j <= |v| && ValidClose(c)
    ensures r.Some? ==> j < r.value <= |v|
  {
    match c
    case Literal(t) => if LitAt(v, j, t) then Some(j + |t|) else None
    case PeriodOrComma => if j < |v| && (v[j] == '.' || v[j] == ',') then Some(j + 1) else None
  }

  /** End of `.*?X` matched from `j`: the first `X` reachable without crossing a newline. */
  function LazyTo(v: string, j: nat, c: Close): (r: Option<nat>)
    requires j <= |v| && ValidClose(c)
    ensures r.Some? ==> j < r.value <= |v|
    decreases |v| - j
  {
    var e := CloseEnd(v, j, c);
    if e.Some? then e
    else if j < |v| && v[j] != '\n' then LazyTo(v, j + 1, c)
    else None
  }

  /** End of `.*?\]\(.*?\)` matched from `j`; the outer `.*?` grows while the inner part fails. */
  function LinkTail(v: string, j: nat): (r: Option<nat>)
    requires j <= |v|
    ensures r.Some? ==> j < r.value <= |v|
    decreases |v| - j
  {
    var inner := if LitAt(v, j, "](") then LazyTo(v, j + 2, Literal(")")) else None;
    if inner.Some? then inner
    else if j < |v| && v[j] != '\n' then LinkTail(v, j + 1)
    else None
  }

  // ---------------------------------------------------------------- data points

  /** `\d+` followed by `lit` under IGNORECASE (`\d+%`, `\d+M`, `\d+ million`, ...). */
  function DigitsThen(v: string, p: nat, lit: string): (r: Option<nat>)
    requires p <= |v|
    ensures r.Some? ==> p < r.value <= |v|
  {
    var d := Run(v, p, Digit);
    if d > 0 && FoldLitAt(v, p + d, lit) then Some(p + d + |lit|) else None
  }

  /** `\$\d+` */
  function DollarAmount(v: string, p: nat): (r: Option<nat>)
    requires p <= |v|
    ensures r.Some? ==> p < r.value <= |v|
  {
    if LitAt(v, p, "$") && Run(v, p + 1, Digit) > 0 then Some(p + 1 + Run(v, p + 1, Digit)) else None
  }

  /** `\d+\.\d+` */
  function DecimalNumber(v: string, p: nat): (r: Option<nat>)
    requires p <= |v|
    ensures r.Some? ==> p < r.value <= |v|
  {
    var d := Run(v, p, Digit);
    if d > 0 && LitAt(v, p + d, ".") && Run(v, p + d + 1, Digit) > 0
    then Some(p + d + 1 + Run(v, p + d + 1, Digit))
    else None
  }

  /** `approx\w* \d+` under IGNORECASE */
  function Approximation(v: string, p: nat): (r: Option<nat>)
    requires p <= |v|
    ensures r.Some? ==> p < r.value <= |v|
  {
    if !FoldLitAt(v, p, "approx") then None
    else
      var w := Run(v, p + 6, Word);
      if LitAt(v, p + 6 + w, " ") && Run(v, p + 7 + w, Digit) > 0
      then Some(p + 7 + w + Run(v, p + 7 + w, Digit))
      else None
  }

  /** `\d{4}(?:-\d{2}){2}` */
  function IsoDate(v: string, p: nat): (r: Option<nat>)
    requires p <= |v|
    ensures r.Some? ==> p < r.value <= |v|
  {
    if DigitsAt(v, p, 4) && LitAt(v, p + 4, "-") && DigitsAt(v, p + 5, 2)
       && LitAt(v, p + 7, "-") && DigitsAt(v, p + 8, 2)
    then Some(p + 10)
    else None
  }

  /** The number of consecutive `,\d{3}` groups starting at `i`. */
  function Groups(v: string, i: nat): (g: nat)
    requires i <= |v|
    ensures i + 4 * g <= |v|
    decreases |v| - i
  {
    if LitAt(v, i, ",") && DigitsAt(v, i + 1, 3) then 1 + Groups(v, i + 4) else 0
  }

  /**
   * `\b\d{1,3}(?:,\d{3})+\b`. The leading digit run must have one to three digits; the
   * group repeat backs off by one group when the final `\b` fails, which succeeds
   * whenever a group is left, because the character after it is a comma.
   */
  function ThousandsNumber(v: string, p: nat): (r: Option<nat>)
    requires p <= |v|
    ensures r.Some? ==> p < r.value <= |v|
  {
    var d := Run(v, p, Digit);
    var g := Groups(v, p + d);
    if !WordBoundary(v, p) || d < 1 || d > 3 || g == 0 then None
    else if WordBoundary(v, p + d + 4 * g) then Some(p + d + 4 * g)
    else if g >= 2 then Some(p + d + 4 * (g - 1))
    else None
  }

  /** `\d+%|\$\d+|\d+M|\d+B|\d+K|\d+ million|\d+ billion|\d+\.\d+|approx\w* \d+|\d{4}(?:-\d{2}){2}|\b\d{1,3}(?:,\d{3})+\b` */
  function DataPointAt(v: string, p: nat): (r: Option<nat>)
    requires p <= |v|
    ensures r.Some? ==> p < r.value <= |v|
  {
    Or(DigitsThen(v, p, "%"), Or(DollarAmount(v, p), Or(DigitsThen(v, p, "m"),
    Or(DigitsThen(v, p, "b"), Or(DigitsThen(v, p, "k"), Or(DigitsThen(v, p, " million"),
    Or(DigitsThen(v, p, " billion"), Or(DecimalNumber(v, p), Or(Approximation(v, p),
    Or(IsoDate(v, p), ThousandsNumber(v, p)))))))))))
  }

  /** `\d+%|\$\d+|\d+ million|\d+ billion|\d+\.\d+|approx\w* \d+` */
  function BriefDataPointAt(v: string, p: nat): (r: Option<nat>)
    requires p <= |v|
    ensures r.Some? ==> p < r.value <= |v|
  {
    Or(DigitsThen(v, p, "%"), Or(DollarAmount(v, p), Or(DigitsThen(v, p, " million"),
    Or(DigitsThen(v, p, " billion"), Or(DecimalNumber(v, p), Approximation(v, p))))))
  }

  // ---------------------------------------------------------------- headings

  /** One match of `^(#+)\s+(.+)$`: group 1 is `v[start..start + level]`, group 2 `v[titleStart..end]`. */
  datatype HeadingMatch = HeadingMatch(start: nat, level: nat, titleStart: nat, end: nat)

  /** What any match of `^(#+)\s+(.+)$` (re.MULTILINE) looks like. */
  predicate HeadingShape(v: string, m: HeadingMatch) {
    && 1 <= m.level
    && m.start + m.level < m.titleStart < m.end <= |v|
    && AtLineStart(v, m.start)
    && (forall k :: m.start <= k < m.start + m.level ==> v[k] == '#')
    && (forall k :: m.start + m.level <= k < m.titleStart ==> IsSpace(v[k]))
    && (forall k :: m.titleStart <= k < m.end ==> v[k] != '\n')
    && (m.end == |v| || v[m.end] == '\n')
  }

  /** `#` * h, whitespace of length k and a non-empty rest of the line make a heading shape. */
  lemma TitleShape(v: string, p: nat, h: nat, k: nat)
    requires 1 <= h && 1 <= k && p + h + k <= |v| && AtLineStart(v, p)
    requires forall i :: p <= i < p + h ==> v[i] == '#'
    requires forall i :: p + h <= i < p + h + k ==> IsSpace(v[i])
    requires Run(v, p + h + k, NotNewline) > 0
    ensures HeadingShape(v, HeadingMatch(p, h, p + h + k, p + h + k + Run(v, p + h + k, NotNewline)))
  {
    RunAll(v, p + h + k, NotNewline);
  }

  /**
   * `(.+)$` after `#` * h and a `\s+` of length k. When `.+` finds nothing the whitespace
   * run gives back one character and `.+` is tried again there.
   */
  function TitleAfter(v: string, p: nat, h: nat, k: nat): (r: Option<HeadingMatch>)
    requires 1 <= h && 1 <= k && p + h + k <= |v| && AtLineStart(v, p)
    requires forall i :: p <= i < p + h ==> v[i] == '#'
    requires forall i :: p + h <= i < p + h + k ==> IsSpace(v[i])
    ensures r.Some? ==> r.value.start == p && r.value.level == h && HeadingShape(v, r.value)
    ensures Run(v, p + h + k, NotNewline) > 0 ==>
      r == Some(HeadingMatch(p, h, p + h + k, p + h + k + Run(v, p + h + k, NotNewline)))
    ensures r.Some? ==> r.value.titleStart <= p + h + k
    ensures r.Some? ==> forall j :: r.value.titleStart < j <= p + h + k ==> Run(v, j, NotNewline) == 0
    ensures r.None? ==> forall j :: p + h < j <= p + h + k ==> Run(v, j, NotNewline) == 0
    decreases k
  {
    var t := Run(v, p + h + k, NotNewline);
    if t > 0 then TitleShape(v, p, h, k); Some(HeadingMatch(p, h, p + h + k, p + h + k + t))
    else if k > 1 then TitleAfter(v, p, h, k - 1)
    else None
  }

  /**
   * What any heading shape starting at `p` is made of: the full `#` run, a title start
   * inside the whitespace run after it, and a title character there.
   */
  lemma ShapeBounds(v: string, m: HeadingMatch)
    requires HeadingShape(v, m)
    ensures m.level == Run(v, m.start, Hash)
    ensures m.titleStart <= m.start + m.level + Run(v, m.start + m.level, Space)
    ensures Run(v, m.titleStart, NotNewline) > 0
  {
    RunAtLeast(v, m.start, m.level, Hash);
    RunAll(v, m.start, Hash);
    assert v[m.start + m.level] != '#' by {
      assert IsSpace(v[m.start + m.level]);
    }
    RunAtLeast(v, m.start + m.level, m.titleStart - m.start - m.level, Space);
    RunPositive(v, m.titleStart, NotNewline);
  }

  /** `ShapeBounds` for every heading shape starting at `p`. */
  lemma ShapesAt(v: string, p: nat)
    ensures forall m: HeadingMatch :: m.start == p && HeadingShape(v, m) ==>
      && m.level == Run(v, p, Hash) >= 1
      && m.titleStart <= p + m.level + Run(v, p + m.level, Space)
      && Run(v, m.titleStart, NotNewline) > 0
  {
    forall m: HeadingMatch | m.start == p && HeadingShape(v, m)
      ensures m.titleStart <= p + m.level + Run(v, p + m.level, Space) && Run(v, m.titleStart, NotNewline) > 0
      ensures m.level == Run(v, p, Hash)
    {
      ShapeBounds(v, m);
    }
  }

  /** Where `^` fails, or `#+` or `\s+` matches nothing, no heading shape starts at `p`. */
  lemma NoShapeAt(v: string, p: nat)
    requires p <= |v|
    requires !AtLineStart(v, p) || Run(v, p, Hash) == 0 || Run(v, p + Run(v, p, Hash), Space) == 0
    ensures forall m: HeadingMatch :: m.start == p ==> !HeadingShape(v, m)
  {
    ShapesAt(v, p);
  }

  /** Where the marker and the whitespace match, `TitleAfter` yields the match with the longest `\s+`. */
  lemma TitleAfterIsLongest(v: string, p: nat, h: nat, w: nat)
    requires 1 <= h && 1 <= w && p + h + w <= |v| && AtLineStart(v, p)
    requires h == Run(v, p, Hash) && w == Run(v, p + h, Space)
    requires forall i :: p <= i < p + h ==> v[i] == '#'
    requires forall i :: p + h <= i < p + h + w ==> IsSpace(v[i])
    ensures var r := TitleAfter(v, p, h, w);
      && (r.None? ==> forall m: HeadingMatch :: m.start == p ==> !HeadingShape(v, m))
      && (r.Some? ==> forall m: HeadingMatch :: m.start == p && HeadingShape(v, m) ==> m.titleStart <= r.value.titleStart)
      && (p + h + w < |v| ==> r.Some? && r.value.titleStart == p + h + w)
  {
    ShapesAt(v, p);
    if p + h + w < |v| {
      assert IsSpace('\n');
      RunPositive(v, p + h + w, NotNewline);
    }
  }

  /**
   * The match of `^(#+)\s+(.+)$` starting at `p`, if any. It is the one Python returns: of
   * all heading shapes at `p`, the one whose `\s+` is longest, and there is none only when
   * no heading shape starts at `p`.
   */
  function HeadingAt(v: string, p: nat): (r: Option<HeadingMatch>)
    requires p <= |v|
    ensures r.Some? ==> r.value.start == p && HeadingShape(v, r.value)
    ensures r.None? ==> forall m: HeadingMatch :: m.start == p ==> !HeadingShape(v, m)
    ensures r.Some? ==> forall m: HeadingMatch :: m.start == p && HeadingShape(v, m) ==> m.titleStart <= r.value.titleStart
    ensures r.Some? && p + Run(v, p, Hash) + Run(v, p + Run(v, p, Hash), Space) < |v| ==>
      r.value.titleStart == p + Run(v, p, Hash) + Run(v, p + Run(v, p, Hash), Space)
  {
    var h := Run(v, p, Hash);
    var w := Run(v, p + h, Space);
    if !AtLineStart(v, p) || h == 0 || w == 0 then
      NoShapeAt(v, p);
      None
    else
      RunAll(v, p, Hash);
      RunAll(v, p + h, Space);
      TitleAfterIsLongest(v, p, h, w);
      TitleAfter(v, p, h, w)
  }

  /** Where the whitespace run after the `#` run of a heading at `m.start` ends. */
  function WhitespaceEnd(v: string, m: HeadingMatch): (q: nat)
    requires m.start + m.level <= |v|
    ensures m.start + m.level <= q <= |v|
    ensures q < |v| ==> !IsSpace(v[q])
  {
    m.start + m.level + Run(v, m.start + m.level, Space)
  }

  /**
   * What the match returned at a heading's start says about its title: it starts after the
   * whole whitespace run, on a non-whitespace character, unless that run reaches the end of
   * the text, and no other heading shape there has a later title start.
   */
  lemma MatchedTitle(v: string, m: HeadingMatch)
    requires m.start <= |v| && HeadingAt(v, m.start) == Some(m)
    ensures WhitespaceEnd(v, m) < |v| ==> m.titleStart == WhitespaceEnd(v, m) && !IsSpace(v[WhitespaceEnd(v, m)])
    ensures forall m': HeadingMatch :: m'.start == m.start && HeadingShape(v, m') ==> m'.titleStart <= m.titleStart
  {
    ShapeBounds(v, m);
  }

  /** `^(#+)\s+`: the end of the marker run and the whitespace after it. */
  function HeadingMarkerAt(v: string, p: nat): (r: Option<nat>)
    requires p <= |v|
    ensures r.Some? ==> p < r.value <= |v| && Run(v, p, Hash) >= 1
  {
    var h := Run(v, p, Hash);
    var w := Run(v, p + h, Space);
    if AtLineStart(v, p) && h > 0 && w > 0 then Some(p + h + w) else None
  }

  // ---------------------------------------------------------------- lists, emphasis, citations

  /** `^\s*[\*\-\+]\s+|^\s*\d+\.\s+` */
  function ListItemAt(v: string, p: nat): (r: Option<nat>)
    requires p <= |v|
    ensures r.Some? ==> p < r.value <= |v|
  {
    if !AtLineStart(v, p) then None
    else
      var q := p + Run(v, p, Space);
      var bullet :=
        if q < |v| && (v[q] == '*' || v[q] == '-' || v[q] == '+') && Run(v, q + 1, Space) > 0
        then Some(q + 1 + Run(v, q + 1, Space)) else None;
      var d := Run(v, q, Digit);
      var numbered :=
        if d > 0 && LitAt(v, q + d, ".") && Run(v, q + d + 1, Space) > 0
        then Some(q + d + 1 + Run(v, q + d + 1, Space)) else None;
      Or(bullet, numbered)
  }

  /** `\*\*.*?\*\*|\*.*?\*|__.*?__|_.*?_` */
  function EmphasisAt(v: string, p: nat): (r: Option<nat>)
    requires p <= |v|
    ensures r.Some? ==> p < r.value <= |v|
  {
    Or(if LitAt(v, p, "**") then LazyTo(v, p + 2, Literal("**")) else None,
    Or(if LitAt(v, p, "*") then LazyTo(v, p + 1, Literal("*")) else None,
    Or(if LitAt(v, p, "__") then LazyTo(v, p + 2, Literal("__")) else None,
       if LitAt(v, p, "_") then LazyTo(v, p + 1, Literal("_")) else None)))
  }

  /** `\[.*?\]\(.*?\)` */
  function MarkdownLinkAt(v: string, p: nat): (r: Option<nat>)
    requires p <= |v|
    ensures r.Some? ==> p < r.value <= |v|
  {
    if LitAt(v, p, "[") then LinkTail(v, p + 1) else None
  }

  /** `<tag>.*?[\.,]` under IGNORECASE, for the tags `Source:`, `According to `, `cited by `. */
  function LabelledCitationAt(v: string, p: nat, tag: string): (r: Option<nat>)
    requires p <= |v|
    ensures r.Some? ==> p < r.value <= |v|
  {
    if FoldLitAt(v, p, tag) then LazyTo(v, p + |tag|, PeriodOrComma) else None
  }

  const ComparativePhrases: seq<string> :=
    ["compared to", "versus", "competition", "competitors", "market share", "industry average"]

  /** The first of `phrases` that matches at `p` under IGNORECASE. */
  function FirstPhraseAt(v: string, p: nat, phrases: seq<string>): (r: Option<nat>)
    requires p <= |v|
    requires forall i :: 0 <= i < |phrases| ==> phrases[i] != []
    ensures r.Some? ==> p < r.value <= |v|
  {
    if phrases == [] then None
    else if FoldLitAt(v, p, phrases[0]) then Some(p + |phrases[0]|)
    else FirstPhraseAt(v, p, phrases[1..])
  }

  // ---------------------------------------------------------------- findall

  /** The regular expressions of the report checks. */
  datatype Pattern =
    | HeadingLine      // ^#+\s+.+$               (MULTILINE)
    | HeadingMarker    // ^(#+)\s+                (MULTILINE)
    | DataPoint        // the eleven-way data-point family
    | BriefDataPoint   // the six-way data-point family
    | MarkdownLink     // \[.*?\]\(.*?\)
    | SourceLabel      // Source:.*?[\.,]         (IGNORECASE)
    | AccordingTo      // According to .*?[\.,]   (IGNORECASE)
    | CitedBy          // cited by .*?[\.,]       (IGNORECASE)
    | ListItem         // ^\s*[\*\-\+]\s+|^\s*\d+\.\s+   (MULTILINE)
    | Emphasis         // \*\*.*?\*\*|\*.*?\*|__.*?__|_.*?_
    | Comparative      // compared to|versus|competition|competitors|market share|industry average (IGNORECASE)

  /** Where the match of `pat` that starts at `p` ends, if one does. No pattern matches the empty string. */
  function MatchEnd(pat: Pattern, v: string, p: nat): (r: Option<nat>)
    requires p <= |v|
    ensures r.Some? ==> p < r.value <= |v|
  {
    match pat
    case HeadingLine => (var m := HeadingAt(v, p); if m.Some? then Some(m.value.end) else None)
    case HeadingMarker => HeadingMarkerAt(v, p)
    case DataPoint => DataPointAt(v, p)
    case BriefDataPoint => BriefDataPointAt(v, p)
    case MarkdownLink => MarkdownLinkAt(v, p)
    case SourceLabel => LabelledCitationAt(v, p, "source:")
    case AccordingTo => LabelledCitationAt(v, p, "according to ")
    case CitedBy => LabelledCitationAt(v, p, "cited by ")
    case ListItem => ListItemAt(v, p)
    case Emphasis => EmphasisAt(v, p)
    case Comparative => FirstPhraseAt(v, p, ComparativePhrases)
  }

  /** For every position `q` of `v`, where the match of `pat` starting at `q` ends, if one does. */
  function MatchTable(pat: Pattern, v: string): (t: seq<Option<nat>>)
    ensures |t| == |v|
    ensures forall q :: 0 <= q < |v| ==> t[q] == MatchEnd(pat, v, q)
    ensures ValidTable(t)
  {
    seq(|v|, q requires 0 <= q < |v| => MatchEnd(pat, v, q))
  }

  /** A match table: every match starting at `q` is non-empty and ends within the text. */
  predicate ValidTable(t: seq<Option<nat>>) {
    forall q :: 0 <= q < |t| && t[q].Some? ==> q < t[q].value <= |t|
  }

  /** One match: `v[start..end]`. */
  datatype Span = Span(start: nat, end: nat)

  /**
   * `re.finditer` from position `p`, over the match table `t` of a pattern: the matches are
   * ordered and do not overlap, and each is the match the table gives at its start.
   */
  function Scan(t: seq<Option<nat>>, p: nat): (r: seq<Span>)
    requires ValidTable(t) && p <= |t|
    ensures forall k :: 0 <= k < |r| ==>
      p <= r[k].start < r[k].end <= |t| && t[r[k].start] == Some(r[k].end)
    ensures forall j, k :: 0 <= j < k < |r| ==> r[j].end <= r[k].start
    decreases |t| - p
  {
    if p == |t| then []
    else if t[p].None? then Scan(t, p + 1)
    else [Span(p, t[p].value)] + Scan(t, t[p].value)
  }

  /** The scan skips no match: every position from `p` where a match starts lies inside a found match. */
  lemma {:induction false} ScanCovers(t: seq<Option<nat>>, p: nat, q: nat) returns (k: nat)
    requires ValidTable(t) && p <= q < |t| && t[q].Some?
    ensures k < |Scan(t, p)| && Scan(t, p)[k].start <= q < Scan(t, p)[k].end
    decreases |t| - p
  {
    var rest := if t[p].None? then p + 1 else t[p].value;
    if t[p].Some? && q < rest {
      k := 0;
    } else {
      var k' := ScanCovers(t, rest, q);
      k := if t[p].None? then k' else k' + 1;
    }
  }

  /** `re.finditer(pat, v)` as spans of `v`: ordered, non-overlapping, each a match at its start. */
  function Spans(pat: Pattern, v: string): (r: seq<Span>)
    ensures forall k :: 0 <= k < |r| ==>
      r[k].start < r[k].end <= |v| && MatchEnd(pat, v, r[k].start) == Some(r[k].end)
    ensures forall j, k :: 0 <= j < k < |r| ==> r[j].end <= r[k].start
  {
    Scan(MatchTable(pat, v), 0)
  }

  /** `re.finditer` misses no match: any position where `pat` matches lies inside a found span. */
  lemma {:induction false} SpansCover(pat: Pattern, v: string, q: nat) returns (k: nat)
    requires q < |v| && MatchEnd(pat, v, q).Some?
    ensures k < |Spans(pat, v)| && Spans(pat, v)[k].start <= q < Spans(pat, v)[k].end
  {
    k := ScanCovers(MatchTable(pat, v), 0, q);
  }

  /** `len(re.findall(pat, v))` */
  function Count(pat: Pattern, v: string): nat {
    |Spans(pat, v)|
  }

  /** `re.search(pat, v) is not None` */
  predicate Search(pat: Pattern, v: string) {
    Spans(pat, v) != []
  }

  /** `re.search` finds a pattern that matches anywhere. */
  lemma {:induction false} SearchFindsMatch(pat: Pattern, v: string, q: nat)
    requires q < |v| && MatchEnd(pat, v, q).Some?
    ensures Search(pat, v)
  {
    var k := SpansCover(pat, v, q);
  }

  /** The heading match behind one span of `HeadingLine`. */
  function HeadingOfSpan(v: string, s: Span): (m: HeadingMatch)
    requires s.start <= |v| && MatchEnd(HeadingLine, v, s.start) == Some(s.end)
    ensures Some(m) == HeadingAt(v, s.start) && m.start == s.start && m.end == s.end
    ensures HeadingShape(v, m)
  {
    HeadingAt(v, s.start).value
  }

  /** `list(re.finditer(r'^(#+)\s+(.+)$', v, re.MULTILINE))`: ordered matches, each on its own line. */
  function Headings(v: string): (hs: seq<HeadingMatch>)
    ensures |hs| == Count(HeadingLine, v)
    ensures forall i :: 0 <= i < |hs| ==> HeadingShape(v, hs[i]) && Some(hs[i]) == HeadingAt(v, hs[i].start)
    ensures forall i, j :: 0 <= i < j < |hs| ==> hs[i].end < hs[j].start
  {
    var sp := Spans(HeadingLine, v);
    seq(|sp|, i requires 0 <= i < |sp| => HeadingOfSpan(v, sp[i]))
  }

  /** A table with no match from `p` on gives no spans. */
  lemma {:induction false} ScanNone(t: seq<Option<nat>>, p: nat)
    requires ValidTable(t) && p <= |t|
    requires forall q :: p <= q < |t| ==> t[q].None?
    ensures Scan(t, p) == []
    decreases |t| - p
  {
    if p < |t| {
      ScanNone(t, p + 1);
    }
  }

  /** A match at the very start of the text is the first one found. */
  lemma ScanFirst(t: seq<Option<nat>>, p: nat)
    requires ValidTable(t) && p < |t| && t[p].Some?
    ensures Scan(t, p) != [] && Scan(t, p)[0] == Span(p, t[p].value)
  {
  }

  /** A text without `#` has no heading lines and no heading markers. */
  lemma NoHashNoHeadings(v: string)
    requires '#' !in v
    ensures Count(HeadingLine, v) == 0 && Count(HeadingMarker, v) == 0
    ensures Headings(v) == [] && HeadingLevels(v) == {}
  {
    forall pat | pat == HeadingLine || pat == HeadingMarker
      ensures Spans(pat, v) == []
    {
      var t := MatchTable(pat, v);
      forall q | 0 <= q < |t| ensures t[q].None? {
        assert v[q] in v;
        assert Run(v, q, Hash) == 0;
      }
      ScanNone(t, 0);
    }
  }

  /** A heading on the first line is the first heading found. */
  lemma FirstHeading(v: string)
    requires HeadingAt(v, 0).Some?
    ensures Headings(v) != [] && Headings(v)[0] == HeadingAt(v, 0).value
  {
    ScanFirst(MatchTable(HeadingLine, v), 0);
  }

  /** `n` heading markers: `'#' * n`. */
  function Hashes(n: nat): (r: string)
    ensures |r| == n && forall k :: 0 <= k < n ==> r[k] == '#'
  {
    if n == 0 then [] else Hashes(n - 1) + "#"
  }

  /** A line of `n` hashes, a space and a one-letter title is a heading of level `n`, however large `n` is. */
  lemma HeadingOfHashes(n: nat)
    requires n >= 1
    ensures HeadingAt(Hashes(n) + " T", 0) == Some(HeadingMatch(0, n, n + 1, n + 2))
  {
    var v := Hashes(n) + " T";
    assert v[n] == ' ' && v[n + 1] == 'T';
    RunAll(v, 0, Hash);
    assert Run(v, 0, Hash) == n;
    assert Run(v, n, Space) == 1;
    assert Run(v, n + 1, NotNewline) == 1;
  }

  /** An occurrence of one of `phrases` at `p` is still one after text is appended. */
  lemma {:induction false} FirstPhraseAtExtend(v: string, x: string, p: nat, phrases: seq<string>)
    requires p <= |v|
    requires forall i :: 0 <= i < |phrases| ==> phrases[i] != []
    requires FirstPhraseAt(v, p, phrases).Some?
    ensures FirstPhraseAt(v + x, p, phrases).Some?
  {
    if !FoldLitAt(v, p, phrases[0]) {
      FirstPhraseAtExtend(v, x, p, phrases[1..]);
    }
  }

  /** Once a comparative phrase is present, appending text keeps it present. */
  lemma ComparativeExtend(v: string, x: string)
    requires Search(Comparative, v)
    ensures Search(Comparative, v + x)
  {
    var q := Spans(Comparative, v)[0].start;
    FirstPhraseAtExtend(v, x, q, ComparativePhrases);
    SearchFindsMatch(Comparative, v + x, q);
  }

  /** `set(len(h) for h in re.findall(r'^(#+)\s+', v, re.MULTILINE))` */
  function HeadingLevels(v: string): set<nat> {
    var sp := Spans(HeadingMarker, v);
    set k | 0 <= k < |sp| :: Run(v, sp[k].start, Hash)
  }
}
