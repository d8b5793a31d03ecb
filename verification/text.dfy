/**
 * String helpers the report checks share: Python's `in`, `strip()`, `split()`,
 * `"\n".join(...)`, `str(int)`, and the counting loop over a phrase list.
 */
module Text {
  import opened Chars

  /** `w` occurs in `s` starting at position `k`. */
  predicate LitAt(s: string, k: nat, w: string) {
    k + |w| <= |s| && s[k..k + |w|] == w
  }

  /** Python's `w in s` for two strings. */
  predicate Contains(s: string, w: string) {
    exists k: nat | k <= |s| :: LitAt(s, k, w)
  }

  lemma ContainsAt(s: string, k: nat, w: string)
    requires LitAt(s, k, w)
    ensures Contains(s, w)
  {
  }

  /** An occurrence survives appending text: the text searched by a check only grows. */
  lemma ContainsExtend(s: string, x: string, w: string)
    requires Contains(s, w)
    ensures Contains(s + x, w)
  {
    var k: nat :| k <= |s| && LitAt(s, k, w);
    assert (s + x)[k..k + |w|] == s[k..k + |w|];
    ContainsAt(s + x, k, w);
  }

  /** An occurrence of an occurrence is an occurrence. */
  lemma ContainsTransitive(s: string, u: string, w: string)
    requires Contains(s, u) && Contains(u, w)
    ensures Contains(s, w)
  {
    var k: nat :| k <= |s| && LitAt(s, k, u);
    var j: nat :| j <= |u| && LitAt(u, j, w);
    forall m | 0 <= m < |w| ensures s[k + j + m] == w[m] {
      assert s[k + j + m] == u[j + m];
    }
    assert s[k + j..k + j + |w|] == w;
    ContainsAt(s, k + j, w);
  }

  /** The character classes a regular-expression run can range over. */
  datatype Class = Digit | Word | Space | NonSpace | Hash | NotNewline

  predicate InClass(c: char, cls: Class) {
    match cls
    case Digit => IsDigit(c)
    case Word => IsWord(c)
    case Space => IsSpace(c)
    case NonSpace => !IsSpace(c)
    case Hash => c == '#'
    case NotNewline => c != '\n'
  }

  /** Length of the longest run of `cls` characters starting at `p` (a greedy `[cls]*`). */
  function Run(s: string, p: nat, cls: Class): (n: nat)
    requires p <= |s|
    ensures p + n <= |s|
    ensures p + n < |s| ==> !InClass(s[p + n], cls)
    decreases |s| - p
  {
    if p < |s| && InClass(s[p], cls) then 1 + Run(s, p + 1, cls) else 0
  }

  /** A run starting on a character of the class is not empty. */
  lemma RunPositive(s: string, p: nat, cls: Class)
    requires p < |s| && InClass(s[p], cls)
    ensures Run(s, p, cls) >= 1
  {
  }

  /** Every character of the run belongs to the class. */
  lemma {:induction false} RunAll(s: string, p: nat, cls: Class)
    requires p <= |s|
    ensures forall k :: p <= k < p + Run(s, p, cls) ==> InClass(s[k], cls)
    decreases |s| - p
  {
    if p < |s| && InClass(s[p], cls) {
      RunAll(s, p + 1, cls);
    }
  }

  /** A stretch of `n` characters of the class from `p` makes the run at least `n` long. */
  lemma {:induction false} RunAtLeast(s: string, p: nat, n: nat, cls: Class)
    requires p + n <= |s|
    requires forall k :: p <= k < p + n ==> InClass(s[k], cls)
    ensures Run(s, p, cls) >= n
    decreases n
  {
    if n > 0 {
      RunAtLeast(s, p + 1, n - 1, cls);
    }
  }

  /** Number of whitespace characters at the end of `s`. */
  function TrailingSpaces(s: string): (n: nat)
    ensures n <= |s|
    ensures forall k :: |s| - n <= k < |s| ==> IsSpace(s[k])
    ensures n < |s| ==> !IsSpace(s[|s| - 1 - n])
  {
    if s != [] && IsSpace(s[|s| - 1]) then 1 + TrailingSpaces(s[..|s| - 1]) else 0
  }

  /**
   * Python's `s.strip()`: the slice of `s` that starts after its leading whitespace and
   * ends before its trailing whitespace.
   */
  function Strip(s: string): (r: string)
    ensures |r| <= |s|
    ensures Run(s, 0, Space) + |r| <= |s|
    ensures r == s[Run(s, 0, Space)..Run(s, 0, Space) + |r|]
    ensures r == [] || (!IsSpace(r[0]) && !IsSpace(r[|r| - 1]))
  {
    var t := s[Run(s, 0, Space)..];
    t[..|t| - TrailingSpaces(t)]
  }

  /** `strip()` removes only whitespace, from both ends. */
  lemma StripRemovesOnlySpace(s: string)
    ensures forall k :: 0 <= k < Run(s, 0, Space) ==> IsSpace(s[k])
    ensures forall k :: Run(s, 0, Space) + |Strip(s)| <= k < |s| ==> IsSpace(s[k])
  {
    RunAll(s, 0, Space);
  }

  /** Every non-whitespace character of `s` lies in `Strip(s)`, at offset `Run(s, 0, Space)`. */
  lemma {:induction false} StripKeepsNonSpace(s: string, k: nat)
    requires k < |s| && !IsSpace(s[k])
    ensures Run(s, 0, Space) <= k < Run(s, 0, Space) + |Strip(s)|
  {
    RunAll(s, 0, Space);
  }

  lemma SliceOfSlice(s: string, a: nat, b: nat, c: nat, d: nat)
    requires a <= b <= |s| && c <= d <= b - a
    ensures s[a..b][c..d] == s[a + c..a + d]
  {
    assert forall k :: 0 <= k < d - c ==> s[a..b][c..d][k] == s[a + c..a + d][k];
  }

  /** A slice of `s` that starts and ends on non-whitespace characters survives `strip()`. */
  lemma StripKeepsSlice(s: string, i: nat, n: nat)
    requires 1 <= n && i + n <= |s| && !IsSpace(s[i]) && !IsSpace(s[i + n - 1])
    ensures Contains(Strip(s), s[i..i + n])
  {
    StripKeepsNonSpace(s, i);
    StripKeepsNonSpace(s, i + n - 1);
    var l := Run(s, 0, Space);
    var c := Strip(s);
    assert c[i - l..i - l + n] == s[i..i + n];
    ContainsAt(c, i - l, s[i..i + n]);
  }

  /** The same, for a stretch `v[s..s + n]` of a text whose slice `v[a..e]` gets stripped. */
  lemma StripKeepsStretch(v: string, a: nat, e: nat, s: nat, n: nat)
    requires 1 <= n && a <= s && s + n <= e <= |v| && !IsSpace(v[s]) && !IsSpace(v[s + n - 1])
    ensures Contains(Strip(v[a..e]), v[s..s + n])
  {
    SliceOfSlice(v, a, e, s - a, s - a + n);
    StripKeepsSlice(v[a..e], s - a, n);
  }

  /** Python's `sep.join(items)`. */
  function Join(sep: string, items: seq<string>): string {
    if items == [] then [] else if |items| == 1 then items[0] else items[0] + sep + Join(sep, items[1..])
  }

  /** Joining an item in front of a non-empty list puts one separator between. */
  lemma JoinCons(sep: string, x: string, rest: seq<string>)
    requires rest != []
    ensures Join(sep, [x] + rest) == x + sep + Join(sep, rest)
  {
    assert ([x] + rest)[1..] == rest;
  }

  /** Every item occurs in the joined string. */
  lemma {:induction false} JoinContains(sep: string, items: seq<string>, i: nat)
    requires i < |items|
    ensures Contains(Join(sep, items), items[i])
    decreases |items|
  {
    var s := Join(sep, items);
    if |items| == 1 {
      assert LitAt(s, 0, items[0]);
    } else {
      var rest := Join(sep, items[1..]);
      assert s == items[0] + sep + rest;
      if i == 0 {
        assert LitAt(s, 0, items[0]);
      } else {
        JoinContains(sep, items[1..], i - 1);
        assert LitAt(s, |items[0]| + |sep|, rest);
        ContainsTransitive(s, rest, items[i]);
      }
    }
  }

  /** Index of the first `c` in `s`, or `|s|`. */
  function IndexOf(s: string, c: char): (i: nat)
    ensures i <= |s|
    ensures i < |s| ==> s[i] == c
    ensures forall k :: 0 <= k < i ==> s[k] != c
  {
    if s == [] then 0 else if s[0] == c then 0 else 1 + IndexOf(s[1..], c)
  }

  /** Python's `s.split("\n")`. */
  function Lines(s: string): (r: seq<string>)
    ensures |r| >= 1
    decreases |s|
  {
    var i := IndexOf(s, '\n');
    if i == |s| then [s] else [s[..i]] + Lines(s[i + 1..])
  }

  /** Splitting a newline-join of newline-free lines gives the lines back. */
  lemma {:induction false} LinesOfJoin(items: seq<string>)
    requires items != []
    requires forall i :: 0 <= i < |items| ==> '\n' !in items[i]
    ensures Lines(Join("\n", items)) == items
  {
    var s := Join("\n", items);
    if |items| == 1 {
      assert IndexOf(s, '\n') == |s|;
    } else {
      var rest := Join("\n", items[1..]);
      assert s == items[0] + "\n" + rest;
      assert IndexOf(s, '\n') == |items[0]| by {
        assert s[|items[0]|] == '\n';
        forall k | 0 <= k < |items[0]| ensures s[k] != '\n' {
          assert s[k] == items[0][k];
        }
      }
      assert s[..|items[0]|] == items[0];
      assert s[|items[0]| + 1..] == rest;
      LinesOfJoin(items[1..]);
    }
  }

  function DigitChar(d: nat): (c: char)
    requires d < 10
    ensures IsDigit(c)
  {
    "0123456789"[d]
  }

  /** Python's `str(n)` for a non-negative integer: its decimal digits, no leading zero. */
  function NatToString(n: nat): (r: string)
    ensures |r| >= 1
    ensures forall k :: 0 <= k < |r| ==> IsDigit(r[k])
    ensures n > 0 ==> r[0] != '0'
    decreases n
  {
    if n < 10 then [DigitChar(n)] else NatToString(n / 10) + [DigitChar(n % 10)]
  }

  /** The value of a string of decimal digits. */
  function DecimalValue(s: string): nat
    requires forall k :: 0 <= k < |s| ==> IsDigit(s[k])
  {
    if s == [] then 0 else 10 * DecimalValue(s[..|s| - 1]) + DigitValue(s[|s| - 1])
  }

  function DigitValue(c: char): (d: nat)
    requires IsDigit(c)
    ensures d < 10
  {
    if c == '0' then 0 else if c == '1' then 1 else if c == '2' then 2 else if c == '3' then 3
    else if c == '4' then 4 else if c == '5' then 5 else if c == '6' then 6 else if c == '7' then 7
    else if c == '8' then 8 else 9
  }

  /** The number printed into a deficiency message reads back as the measured value. */
  lemma {:induction false} DecimalValueOfNatToString(n: nat)
    ensures DecimalValue(NatToString(n)) == n
  {
    var r := NatToString(n);
    if n >= 10 {
      DecimalValueOfNatToString(n / 10);
      assert r[..|r| - 1] == NatToString(n / 10);
    }
  }

  /** Python's `s[p:].split()`: the maximal runs of non-whitespace characters from `p` on, in order. */
  function WordsFrom(s: string, p: nat): seq<string>
    requires p <= |s|
    decreases |s| - p
  {
    var l := p + Run(s, p, Space);
    if l == |s| then []
    else
      var w := Run(s, l, NonSpace);
      [s[l..l + w]] + WordsFrom(s, l + w)
  }

  /** Python's `s.split()`. */
  function Words(s: string): seq<string> {
    WordsFrom(s, 0)
  }

  /** The head and tail of a list built by putting `x` in front. */
  lemma ConsParts(x: string, rest: seq<string>)
    ensures ([x] + rest)[0] == x && ([x] + rest)[1..] == rest
  {
  }

  /** A non-empty `WordsFrom(s, p)` starts with the non-empty word `s[l..l + w]`, at or after `p`. */
  lemma WordsHead(s: string, p: nat) returns (l: nat, w: nat)
    requires p <= |s| && WordsFrom(s, p) != []
    ensures p <= l < l + w <= |s|
    ensures WordsFrom(s, p) == [s[l..l + w]] + WordsFrom(s, l + w)
  {
    l := p + Run(s, p, Space);
    w := Run(s, l, NonSpace);
    assert l < |s| && !InClass(s[l], Space);
    RunPositive(s, l, NonSpace);
  }

  /** The first word of `s` is a non-empty stretch of `s`, so it occurs in `s`. */
  lemma FirstWordOccurs(s: string)
    requires Words(s) != []
    ensures Words(s)[0] != [] && Contains(s, Words(s)[0])
  {
    var l, w := WordsHead(s, 0);
    ConsParts(s[l..l + w], WordsFrom(s, l + w));
    ContainsAt(s, l, s[l..l + w]);
  }

  /** A string with a non-whitespace character has at least one word. */
  lemma {:induction false} WordsNonEmpty(s: string, k: nat)
    requires k < |s| && !IsSpace(s[k])
    ensures Words(s) != []
  {
    RunAll(s, 0, Space);
  }

  /** How many of `phrases` occur in `text` (each phrase counted once, duplicates counted again). */
  function CountPresent(phrases: seq<string>, text: string): (n: nat)
    ensures n <= |phrases|
  {
    if phrases == [] then 0
    else CountPresent(phrases[..|phrases| - 1], text) + (if Contains(text, phrases[|phrases| - 1]) then 1 else 0)
  }

  /** Appending text never lowers the number of phrases found. */
  lemma {:induction false} CountPresentExtend(phrases: seq<string>, text: string, x: string)
    ensures CountPresent(phrases, text) <= CountPresent(phrases, text + x)
  {
    if phrases != [] {
      CountPresentExtend(phrases[..|phrases| - 1], text, x);
      if Contains(text, phrases[|phrases| - 1]) {
        ContainsExtend(text, x, phrases[|phrases| - 1]);
      }
    }
  }

  /** The counting loop of `validate_company_report` and `validate_report`: `for section in phrases: if re.search(section, text): found += 1`. */
  method CountPhrasesPresent(phrases: seq<string>, text: string) returns (found: nat)
    ensures found == CountPresent(phrases, text)
    ensures found <= |phrases|
  {
    found := 0;
    for i := 0 to |phrases|
      invariant found == CountPresent(phrases[..i], text)
    {
      if Contains(text, phrases[i]) {
        found := found + 1;
      }
      assert phrases[..i + 1][..i] == phrases[..i];
    }
    assert phrases[..|phrases|] == phrases;
  }
}
