# Company report quality control, in Dafny

This project models the report quality-control engine of the company research agent. The agent asks a language model for a structured company record whose `report` field is a long markdown business report. Four pieces of deterministic code check that record:

- **Field normalisers** (`parse_news`, `parse_personnel`, `parse_jobs`) coerce loosely shaped model output into lists of records:
  - a bare news string becomes a one-item list;
  - `"Name - Role"` strings are split on `" - "`;
  - objects are cut down to their known keys.
- **Advisory annotator** (`validate_report`) never rejects a report:
  - an empty report becomes a placeholder;
  - otherwise up to six fixed "Note" paragraphs are appended, one per check that finds the text lacking. Each check reads the text as the checks before it left it.
- **Section parser and metric extractor** (`parse_report_structure`):
  - every heading line `^(#+)\s+(.+)$` becomes a section whose content runs to the next heading of the same or a higher level, then is stripped;
  - short level-1 and level-2 sections are flagged as shallow;
  - data points and citations are counted by families of regular expressions;
  - section titles are matched against a 23-entry topic vocabulary to list the missing topics.
- **Quality gate** (`validate_company_report`) applies nine threshold rules in a fixed order and collects one deficiency message per failing rule. No deficiency means the result is accepted; otherwise the model is asked to retry with a fixed header followed by a bulleted list of the deficiencies. An empty report gets its own retry request. When the parser left no metrics, the gate computes a reduced set itself.

Modules:

| module | file | what it holds |
|---|---|---|
| `Wrappers` | wrappers.dfy | `Option` |
| `Chars` | chars.dfy | the character classes of Python's `re`, `str.isspace()`, `str.lower()` and case-insensitive matching |
| `Text` | text.dfy | `in`, `strip()`, `split()`, `join`, `str(n)`, and the phrase-counting loop |
| `Regex` | regex.dfy | one hand-written matcher per regular expression, and `re.finditer`/`re.findall`/`re.search` as a leftmost, non-overlapping scan over them |
| `ReportStructure` | report_structure.dfy | the section parser and metric extractor |
| `Advisory` | advisory.dfy | the advisory annotator |
| `FieldNormalisers` | field_normalisers.dfy | the three field normalisers over a JSON-like `Value` |
| `ReportGate` | report_gate.dfy | the quality gate, with its outcome as a `Verdict` (`Accept` or `Retry(message)`) |

Where the code loops, the model is a method with a loop proved against a specification function. This covers the section loop with its inner `for j … break` scan, the topic loops, the phrase-counting loop, the step-by-step annotation and the rule-by-rule collection of issues. The normalisers are pure comprehensions and are modelled as functions.

Two behaviours of the code worth noting:

- Heading levels are not limited to 1..6: the level is the full length of the `#` run (see `ReportStructure.LevelNotClamped`).
- `shallow_sections` and `missing_sections` are ordered lists, not sets: shallow titles come in section order and missing topics in vocabulary order.

## Model

| member | source | states |
|---|---|---|
| ReportGate.ValidateCompanyReport | src/validators/report_validators.py:5-96 | An empty report gets the fixed "Please generate a comprehensive business report…" retry and no issues. Any other report gets the issue list of the nine rules, applied to the metrics in force; it is accepted exactly when that list is empty, and otherwise retried with the assembled request. |
| ReportGate.TakeMeasurements | src/validators/report_validators.py:11-27 | Uses the parser's metrics when present and the reduced fallback otherwise. Adds the topic count over the lowered report, the heading-level variety, the list items and the emphasis spans. |
| ReportGate.FallbackMetrics | src/validators/report_validators.py:12-27 | Without parser metrics: the total length is the report length and the section count is the number of heading lines. The shallow and missing lists are empty. |
| ReportGate.Measure | src/validators/report_validators.py:50-55 | The topic count is at most the 24 critical phrases. |
| ReportGate.CheckRules | src/validators/report_validators.py:30-89 | The issues collected by the nine checks in order are the gate's issue list. |
| ReportGate.CheckContent | src/validators/report_validators.py:30-74 | Checks 1-6 append one message per failing content rule, in order. |
| ReportGate.CheckFormatting | src/validators/report_validators.py:76-89 | Checks 7-9 append one message per failing formatting rule, in order. |
| ReportGate.Fails | src/validators/report_validators.py:33-88 | Definition of the nine thresholds: length < 15000, sections < 15, topics found < 15, more than 1 shallow section, data points < 30, sources < 15, fewer than 3 heading levels, fewer than 10 list items, fewer than 15 emphasis spans. |
| ReportGate.Message | src/validators/report_validators.py:34-89 | Definition of each rule's message: its fixed text with the measured count (`str(n)`) or the `", "`-joined shallow titles filled in. The three formatting messages have no count. |
| ReportGate.Issues | src/validators/report_validators.py:30-89 | Definition of `critical_issues`: the message of each failing rule, in the order the rules are checked. |
| ReportGate.FailingInRuleOrder | src/validators/report_validators.py:30-89 | Checking the rules one by one in the fixed order finds exactly the gate's failing rules. |
| ReportGate.FailingMembers | src/validators/report_validators.py:30-89 | A rule is listed as failing if and only if it is among the rules checked and misses its threshold. |
| ReportGate.FailingOrdered | src/validators/report_validators.py:30-89 | The failing rules keep the order in which the rules are checked. |
| ReportGate.FailingRulesIff | src/validators/report_validators.py:30-89 | A rule is among the gate's failing rules if and only if it misses its threshold. |
| ReportGate.IssuesInRuleOrder | src/validators/report_validators.py:30-89 | One issue per failing rule and none for a passing rule. Each issue is its rule's message, in rule order (length, sections, topics, shallow, data points, sources, heading variety, lists, emphasis). |
| ReportGate.AcceptIffNoRuleFails | src/validators/report_validators.py:91-96 | The result is accepted if and only if no rule fails. |
| ReportGate.Decide | src/validators/report_validators.py:92-96 | The verdict is `Accept` if and only if the issue list is empty. |
| ReportGate.SingleShortfall | src/validators/report_validators.py:30-89 | When exactly one rule fails, the issue list is exactly that rule's message. The rules are independent. |
| ReportGate.ThresholdsAreExact | src/validators/report_validators.py:33-88 | Measurements exactly at every bound pass: length 15000, 15 sections, 15 topics, one shallow section, 30 data points, 15 sources, 3 heading levels, 10 list items, 15 emphasis spans. One below any lower bound, or a second shallow section, fails exactly that rule. |
| ReportGate.FallbackNeverShallow | src/validators/report_validators.py:12-27 | Under the fallback metrics the shallow rule never fires, and the section count is the number of heading lines. |
| ReportGate.NoMarkersFailsVariety | src/validators/report_validators.py:77-81 | When `^(#+)\s+` matches nowhere, the set of heading levels is empty, so the heading-variety rule fails whatever the other metrics are. |
| ReportGate.NoHeadingLinesFailsSections | src/validators/report_validators.py:14-37 | Under the fallback metrics, when `^#+\s+.+$` matches nowhere, the section count is 0 and the section-count rule fails. |
| ReportGate.NoHeadingsFails | src/validators/report_validators.py:77-81 | A report without `#` has heading-level variety 0, so the variety rule fails whatever the metrics. Under the fallback, the section-count rule fails too. |
| ReportGate.MessageReadsBack | src/validators/report_validators.py:33-74 | Each numeric message is its fixed opening, the measured count and its fixed ending. The digits between them read back as the measured count (length, sections, topics found, data points, sources). |
| ReportGate.ShallowMessageNamesAll | src/validators/report_validators.py:63-64 | The shallow-sections message names every shallow section title. |
| ReportGate.RetryMessage | src/validators/report_validators.py:93 | Definition of the retry request: the fixed header line, a blank line, then `"\n".join` of one `"- " + issue` bullet per issue. |
| ReportGate.Bullets | src/validators/report_validators.py:93 | One bullet per issue: the issue prefixed with `"- "`, in order. |
| ReportGate.RetryMessageLines | src/validators/report_validators.py:92-94 | For single-line issues, the retry request is the fixed header and a blank line. After them, its lines are exactly one `"- "` bullet per issue, in order. |
| Text.CountPhrasesPresent | src/validators/report_validators.py:50-55 | The counting loop finds how many of the phrases occur in the text, at most the number of phrases. The same loop appears at src/models/response_model.py:88-91. |
| Text.DecimalValueOfNatToString | src/validators/report_validators.py:34 | The decimal text of a count reads back as that count. |
| Regex.Count | src/models/response_model.py:77-78 | Definition of `len(re.findall(pat, v))`: the number of matches `finditer` reports. |
| Regex.Spans | src/models/response_model.py:131-132 | `finditer` gives matches that are ordered and non-overlapping, each the pattern's match at its start. |
| Regex.SpansCover | src/models/response_model.py:131-132 | `finditer` misses no match: any position where the pattern matches lies inside a found match. |
| Regex.SearchFindsMatch | src/models/response_model.py:107 | `re.search` succeeds whenever the pattern matches somewhere. |
| Regex.HeadingAt | src/models/response_model.py:131 | The match Python returns at a position. It has the heading shape: a line start, a `#` run, whitespace, then a non-empty title running to the end of its line. Since `\s+` also crosses newlines, the title may start on a later line: `"#\n## B"` is one level-1 heading titled `"## B"`. Of all heading shapes there, it has the longest `\s+`. When the whitespace run after the `#` run does not reach the end of the text, the title starts right after that run. There is no match only when no heading shape starts there. |
| Regex.TitleAfter | src/models/response_model.py:131 | The title part `(.+)$` after a `\s+` of length k. When a title character follows the k whitespace characters, the title starts there and runs to the end of the line. Otherwise the whitespace gives back characters, and every later start it skipped has no title character. The result has the heading shape with the given level. |
| Regex.TitleShape | src/models/response_model.py:131 | A `#` run at a line start, then whitespace, then a non-empty rest of the line, is a heading shape. |
| Regex.ShapeBounds | src/models/response_model.py:131 | Every heading shape takes the whole `#` run at its start as its level. Its title starts inside the whitespace run that follows, on a character that is not a newline. |
| Regex.NoShapeAt | src/models/response_model.py:131 | No heading shape starts away from a line start, without a `#` run, or with no whitespace after the `#` run. |
| Regex.TitleAfterIsLongest | src/models/response_model.py:131 | The title found after the full whitespace run is the match with the longest `\s+`. When it finds none, no heading shape starts there. |
| Regex.WhitespaceEnd | src/models/response_model.py:131 | The end of the whitespace run after a heading's `#` run is followed by a non-whitespace character or the end of the text. |
| Regex.MatchedTitle | src/models/response_model.py:131 | For the match Python returns, the title starts at the end of the whitespace run, on a non-whitespace character, unless that run reaches the end of the text. No other heading shape at the same place has a later title start. |
| Regex.Headings | src/models/response_model.py:131-132 | One heading match per heading line, each of heading shape, ordered, each ending before the next starts. |
| Regex.HeadingLevels | src/validators/report_validators.py:77-78 | Definition of the heading-level set: the length of the `#` run of each `^(#+)\s+` match, as a set. |
| Regex.NoHashNoHeadings | src/validators/report_validators.py:77-78 | In a text without `#`, neither `^#+\s+.+$` nor `^(#+)\s+` matches anywhere, so there are no headings and no heading levels. |
| Regex.HeadingOfHashes | src/models/response_model.py:146 | `n` hashes, a space and a title form a heading of level `n` for every `n >= 1`. |
| Regex.ComparativeExtend | src/models/response_model.py:107 | Once a comparative phrase is present, appending text keeps it present. |
| ReportStructure.ParseReportStructure | src/models/response_model.py:112-202 | The parser stores exactly what `Analyse` describes. |
| ReportStructure.Analyse | src/models/response_model.py:116-143 | Nothing is stored for an empty report. Otherwise the total length is the report's length, and the section count equals both the number of sections and the number of heading lines. |
| ReportStructure.NoHeadingsResult | src/models/response_model.py:135-140 | A non-empty report without headings gets no sections, zero counts, and exactly `["No proper headings found in the report"]` as missing sections. |
| ReportStructure.Sections | src/models/response_model.py:143-162 | One section per heading line. |
| ReportStructure.CollectSections | src/models/response_model.py:145-168 | The loop builds section `k` from heading `k`, for every `k`. Its shallow list is the shallow flags of those sections. |
| ReportStructure.ReadSection | src/models/response_model.py:145-161 | One loop iteration builds the section of heading `i`. |
| ReportStructure.FindSectionEnd | src/models/response_model.py:150-158 | The `for j … break` scan ends section `i` where `SectionEnd` says. |
| ReportStructure.NextBoundary | src/models/response_model.py:150-158 | Finds the first later heading whose level is at most the given one. Every heading it skips is strictly deeper. |
| ReportStructure.SectionEnd | src/models/response_model.py:150-158 | A section ends after its heading line, or at the end of the text, and within the text. |
| ReportStructure.SectionAt | src/models/response_model.py:146-161 | A section's level is the heading's `#` count, at least 1. Its title is the heading's non-empty group 2. |
| ReportStructure.SectionHeading | src/models/response_model.py:146-147 | A section's level is the full `#` run at its heading, and its title is what `(.+)$` matched after the whitespace; the whitespace may cross newlines, so the title may start on a later line. The title holds no newline and ends at a newline or the end of the text. |
| ReportStructure.TitleStart | src/models/response_model.py:131 | Each heading found in a report has its title start after the whole whitespace run that follows its `#` run, unless that run reaches the end of the text. No other heading shape at the same place starts its title later. |
| ReportStructure.SectionTitle | src/models/response_model.py:146-147 | A section's title is never empty. Unless the whitespace after the `#` run reaches the end of the text, the title starts right after that whitespace, with a non-whitespace character. |
| ReportStructure.LevelNotClamped | src/models/response_model.py:146 | `'#' * n + " T"` yields one section of level `n` titled `T`, for every `n >= 1`. |
| ReportStructure.NestedWithin | src/models/response_model.py:150-158 | A deeper heading after heading `i`, with only deeper headings in between, lies wholly inside section `i`'s span: it starts after heading `i`'s line ends, and its whole heading line ends no later than the section does. |
| ReportStructure.NestedHeadingKept | src/models/response_model.py:150-160 | Such a nested heading's `#` markers stay in the parent section's stripped content. |
| ReportStructure.ShallowFlag | src/models/response_model.py:164-168 | Definition of what one section adds to `shallow_sections`: its title when it is level 1 with under 800 characters of content, its title with `" (subsection)"` when it is level 2 with under 500, otherwise nothing. At most one entry. |
| ReportStructure.ShallowFlagsAppend | src/models/response_model.py:164-168 | The shallow flags follow section order. |
| ReportStructure.ShallowFlagsMembers | src/models/response_model.py:164-168 | A title is flagged if and only if some section flags it. That happens for a level-1 section under 800 characters (its title) or a level-2 section under 500 (its title plus `" (subsection)"`); deeper sections are never flagged. |
| ReportStructure.SourcesCount | src/models/response_model.py:175-176 | Definition of `sources_count`: the matches of the markdown-link, `Source:`, `According to` and `cited by` patterns, each family counted on its own and added up. |
| ReportStructure.TopicMatches | src/models/response_model.py:192 | Definition of the topic test on a lower-cased title: the whole entry occurs in it, or one of the entry's words does. |
| ReportStructure.AnyPartInExists | src/models/response_model.py:192 | The `any(...)` test holds if and only if one of the parts occurs in the title. |
| ReportStructure.WholePhraseSubsumed | src/models/response_model.py:192 | For a phrase with a word, the topic test holds if and only if one of its words occurs in the title, so the whole-phrase test adds nothing. |
| ReportStructure.VocabularyWordTest | src/models/response_model.py:192 | For every topic of the vocabulary, the topic test holds if and only if one of the topic's words occurs in the title. |
| ReportStructure.TopicIndexIsFirst | src/models/response_model.py:191-194 | The recorded entry matches the title and no earlier entry does: the first hit wins. |
| ReportStructure.TopicOf | src/models/response_model.py:189-194 | A section records at most one topic, and only a vocabulary entry. |
| ReportStructure.FirstTopic | src/models/response_model.py:191-194 | The inner loop with `break` finds the first matching vocabulary entry. |
| ReportStructure.MatchTopics | src/models/response_model.py:188-194 | The nested loop's set of found topics is `FoundTopics`. |
| ReportStructure.FoundTopics | src/models/response_model.py:188-194 | Only vocabulary entries are found. |
| ReportStructure.FoundTopicsBound | src/models/response_model.py:188-194 | No more topics are found than there are sections. |
| ReportStructure.MissingFrom | src/models/response_model.py:196 | A topic is missing if and only if it is in the vocabulary and was not found. There are never more missing topics than vocabulary entries. |
| ReportStructure.MissingInOrder | src/models/response_model.py:196 | The missing topics are a subsequence of the vocabulary: each one is the vocabulary entry at a position, and those positions increase. |
| ReportStructure.MissingPrefix | src/models/response_model.py:196 | The topics missing among the first i vocabulary entries are a prefix of all the missing topics, so the list follows vocabulary order. |
| ReportStructure.MissingCount | src/models/response_model.py:196 | Over a vocabulary without repeats, the missing and the found topics partition it. |
| ReportStructure.VocabularyDistinct | src/models/response_model.py:179-186 | The 23 vocabulary entries are distinct. |
| ReportStructure.MissingAtLeast | src/models/response_model.py:188-196 | At least `|vocab| - |sections|` topics are missing. |
| ReportStructure.ReportMissingAtLeast | src/models/response_model.py:179-196 | A report with headings lists at least `23 - sections_count` missing topics. |
| Advisory.ValidateReport | src/models/response_model.py:65-110 | The validator returns `Validated(v)`: the placeholder for an empty report, otherwise the six checks in turn, each on the text the previous one left. |
| Advisory.NoteNeeded | src/models/response_model.py:73-107 | Definition of the six advisory thresholds: under 15000 characters, under 5 heading lines, under 7 of the 14 topics, under 10 data points, under 5 links and `Source:` citations, no comparative phrase. |
| Advisory.Annotate | src/models/response_model.py:72-108 | One check appends its fixed note exactly when the current text misses that check's threshold. |
| Advisory.ValidatedRun | src/models/response_model.py:72-108 | The checks run in the fixed order brevity, structure, topics, data, sources, comparison. |
| Advisory.RunFired | src/models/response_model.py:72-108 | Running checks leaves the input followed by the notes of the checks that fired, in order. |
| Advisory.ValidatedNotes | src/models/response_model.py:69-110 | A non-empty report comes back followed only by the notes of the checks that fired. |
| Advisory.ReportKept | src/models/response_model.py:69-110 | A non-empty report is a prefix of the result. |
| Advisory.FiredByMembers | src/models/response_model.py:72-108 | A check fires if and only if it runs and finds the text lacking, where the text is the report plus the notes already appended. |
| Advisory.FiredByOrdered | src/models/response_model.py:72-108 | The checks that fire keep the order in which the checks run. |
| Advisory.NotesInCheckOrder | src/models/response_model.py:72-108 | Each note is appended at most once, and the notes come in check order. |
| Advisory.BriefNoteIff | src/models/response_model.py:73-74 | The "too brief" note is added if and only if the report is under 15000 characters. |
| Advisory.TopicsNoteSuppressed | src/models/response_model.py:82-94 | A report naming at least seven topics never gets the topic note, even after earlier notes. |
| Advisory.ComparisonNoteSuppressed | src/models/response_model.py:106-108 | A report with a comparative phrase never gets the comparison note. |
| Advisory.ValidatedNonEmpty | src/models/response_model.py:69-70 | The result is never empty; an empty report becomes `"No detailed report available."`. |
| Text.Words | src/models/response_model.py:192 | Definition of `str.split()`: the maximal runs of non-whitespace characters, in order. |
| Text.Strip | src/models/response_model.py:160 | The stripped content is a slice of the text after its leading whitespace, and starts and ends with a non-whitespace character. |
| Text.StripRemovesOnlySpace | src/models/response_model.py:160 | Everything `strip()` removes, at either end, is whitespace. |
| Text.StripKeepsNonSpace | src/models/response_model.py:160 | Every non-whitespace character survives `strip()`. |
| FieldNormalisers.ParseNews | src/models/response_model.py:35-41 | A string becomes one news record with the headline, today's date and an empty link. Any other value is passed on unchanged. |
| FieldNormalisers.ParsePersonnel | src/models/response_model.py:43-52 | Values other than a non-empty list starting with an object or a string pass unchanged. It fails with `AttributeError` if and only if such a list holds an element of the other kind. |
| FieldNormalisers.ParseJobs | src/models/response_model.py:54-63 | Values other than a non-empty list starting with an object or a string pass unchanged. It fails if and only if a list starting with an object holds a non-object. |
| FieldNormalisers.Split | src/models/response_model.py:51 | Definition of `s.split(sep)`: the pieces between the non-overlapping occurrences of `sep`, found from the left. There is always at least one piece. |
| FieldNormalisers.SplitJoin | src/models/response_model.py:51 | `split(" - ")` pieces joined with the separator give the string back. |
| FieldNormalisers.SplitPiecesFree | src/models/response_model.py:51 | No piece of the split contains the separator. |
| FieldNormalisers.SplitSingle | src/models/response_model.py:51 | The split has one piece if and only if the separator is absent, and that piece is then the whole string. |
| FieldNormalisers.SplitFirstTwoFound | src/models/response_model.py:51 | When the separator occurs, the split has at least two pieces. The string starts with the first piece, the separator and the second piece, and that prefix ends at the end of the string or at another separator. |
| FieldNormalisers.SplitAtFirstAndNext | src/models/response_model.py:51 | When the separator occurs, the first piece is as long as the position of its first occurrence. No occurrence starts inside the first piece, or from just after that separator to the end of the second piece, so the second piece runs to the next occurrence. |
| FieldNormalisers.SplitFirstTwo | src/models/response_model.py:51 | The first piece is the text before the first separator, and no occurrence of the separator starts inside it. The second piece follows that separator and runs to the next one or the end, and no occurrence starts between that separator and the end of the second piece. |
| FieldNormalisers.NameRoleSplit | src/models/response_model.py:51 | Without `" - "`, the name is the whole string and the role is empty. With it, the string starts with name, separator and role. No `" - "` starts inside the name, the name ends at the first one, and the role runs to the next one or the end, with no `" - "` starting before the role ends. |
| FieldNormalisers.PersonnelFromStrings | src/models/response_model.py:49-51 | A list of strings becomes one `{name, role}` record per string, in order. |
| FieldNormalisers.RecordsFromDicts | src/models/response_model.py:46-59 | A list of objects keeps exactly the known keys in each, missing ones read as `""`, in order. |
| FieldNormalisers.JobsFromStrings | src/models/response_model.py:60-62 | A list starting with a string becomes one job per element: titled with it, with empty description and link. |
| FieldNormalisers.RecordsKept | src/models/response_model.py:46-59 | A list of records with exactly the known keys is passed on as it is. |
| FieldNormalisers.PersonnelIdempotent | src/models/response_model.py:43-52 | Whenever normalising personnel succeeds, normalising its result again gives the same result. |
| FieldNormalisers.JobsIdempotent | src/models/response_model.py:54-63 | Whenever normalising job openings succeeds, normalising its result again gives the same result. |
| FieldNormalisers.NewsIdempotent | src/models/response_model.py:35-41 | Normalising news twice gives what normalising once gives. |

## Left out

- The agent loop and its retry counter belong to the agent library (`ModelRetry`, `RunContext`), which is not part of this model. The gate's raise becomes the `Retry(message)` verdict; an accepted result is `Accept`, and the record itself is not carried.
- Pydantic plumbing is not modelled: the `info.data` dictionary the parser writes into, the `report_metrics` attribute and dictionary access to metrics. The parser returns its sections and metrics as a value. The gate takes the metrics as an `Option<ReportMetrics>`; missing keys in the fallback dictionary cannot arise there.
- The gate's `'shallow_sections' in metrics` guards always hold in the model, because its metrics record always has that field. The `"multiple sections"` fallback text is therefore unreachable and is not modelled.
- The wall-clock date in `parse_news` is the `today` parameter.
- The validators' declaration order (annotation before parsing) is left to the caller: `Analyse` takes whichever text it is given.
- `\d` and `\w` match ASCII characters only. Python also accepts other Unicode digits and letters. `\s` and `strip()` use the full `str.isspace()` set.
- Chars.Lower: maps only the characters whose lower case contains an ASCII letter and keeps every other character. Every search in lowered text is for an ASCII phrase, so the counts are unaffected.
- Regex.DataPointAt, Regex.BriefDataPointAt, Regex.ListItemAt, Regex.EmphasisAt, Regex.MarkdownLinkAt, Regex.LabelledCitationAt: their contracts state only that a match is non-empty and lies within the text. Each body follows its regular expression alternative by alternative. No general regular-expression engine is modelled.
- Floating-point numbers are not among the JSON-like values. A float behaves like any other value that is neither an object nor a string (as `Int` does in the model): it is left unchanged at top level or as the first element. It raises AttributeError inside a list that starts with an object (both `parse_personnel` and `parse_jobs`) or with a string (`parse_personnel` only; `parse_jobs` keeps it as the title). Object key order is not modelled (objects are maps).
- The remaining files of the repository are not part of this model: the actor entry point, tool wrappers, prompt text and API-key helper.
