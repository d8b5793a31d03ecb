/**
 * The field validators that run before the record's own fields are checked:
 * `parse_news`, `parse_personnel` and `parse_jobs` coerce loosely shaped model output
 * (a bare string, a list of strings, a list of objects) into lists of records.
 * They work on JSON-like values; anything they do not recognise is passed on unchanged.
 */
module FieldNormalisers {
  import opened Text

  /** A JSON-like value as the validators receive it. */
  datatype Value =
    | Str(s: string)
    | Int(i: int)
    | Bool(b: bool)
    | Null
    | List(items: seq<Value>)
    | Dict(entries: map<string, Value>)

  /** A validator's result: the value passed on, or the `AttributeError` Python raises. */
  datatype Outcome = Normalised(value: Value) | AttributeError

  /** The separator between a person's name and role. */
  const Separator: string := " - "

  const PersonKeys: seq<string> := ["name", "role"]
  const JobKeys: seq<string> := ["title", "description", "link"]

  // ---------------------------------------------------------------- Python's str.split(sep)

  /** The first position at or after `k` where `sep` occurs in `s`, or `|s|`. */
  function FindFrom(s: string, sep: string, k: nat): (i: nat)
    requires sep != [] && k <= |s|
    ensures k <= i <= |s|
    ensures i < |s| ==> i + |sep| <= |s|
    decreases |s| - k
  {
    if k + |sep| > |s| then |s|
    else if s[k..k + |sep|] == sep then k
    else FindFrom(s, sep, k + 1)
  }

  /** `FindFrom` finds the first occurrence at or after `k`, and reports `|s|` only when there is none. */
  lemma {:induction false} FindFromSpec(s: string, sep: string, k: nat)
    requires sep != [] && k <= |s|
    ensures var i := FindFrom(s, sep, k);
      && (i < |s| ==> LitAt(s, i, sep))
      && (forall j: nat :: k <= j < i ==> !LitAt(s, j, sep))
      && (i == |s| ==> forall j: nat :: k <= j ==> !LitAt(s, j, sep))
    decreases |s| - k
  {
    if k + |sep| <= |s| && s[k..k + |sep|] != sep {
      FindFromSpec(s, sep, k + 1);
    }
  }

  /** Python's `s.split(sep)`: the pieces between the non-overlapping occurrences of `sep`, from the left. */
  function Split(s: string, sep: string): (r: seq<string>)
    requires sep != []
    ensures |r| >= 1
    decreases |s|
  {
    var i := FindFrom(s, sep, 0);
    if i == |s| then [s] else [s[..i]] + Split(s[i + |sep|..], sep)
  }

  /** One step of the split, at the first separator `i`. */
  lemma SplitStep(s: string, sep: string, i: nat)
    requires sep != [] && i == FindFrom(s, sep, 0)
    ensures i == |s| ==> Split(s, sep) == [s]
    ensures i < |s| ==> Split(s, sep) == [s[..i]] + Split(s[i + |sep|..], sep)
  {
  }

  /** An occurrence that ends within a prefix is an occurrence in the prefix. */
  lemma LitAtPrefix(s: string, i: nat, j: nat, sep: string)
    requires j + |sep| <= i <= |s|
    ensures LitAt(s[..i], j, sep) <==> LitAt(s, j, sep)
  {
    assert s[..i][j..j + |sep|] == s[j..j + |sep|];
  }

  /** A position `FindFrom` reports below `|s|` holds an occurrence. */
  lemma FindFromFound(s: string, sep: string, k: nat)
    requires sep != [] && k <= |s| && FindFrom(s, sep, k) < |s|
    ensures LitAt(s, FindFrom(s, sep, k), sep)
  {
    FindFromSpec(s, sep, k);
  }

  /** The split has one piece exactly when the separator does not occur. */
  lemma SplitSingle(s: string, sep: string)
    requires sep != []
    ensures |Split(s, sep)| == 1 <==> !Contains(s, sep)
    ensures !Contains(s, sep) ==> Split(s, sep) == [s]
  {
    var i := FindFrom(s, sep, 0);
    FindFromSpec(s, sep, 0);
    SplitStep(s, sep, i);
    if i < |s| {
      ContainsAt(s, i, sep);
    } else {
      assert !Contains(s, sep);
    }
  }

  /** A string cut around an occurrence of `sep` at `i`. */
  lemma CutAt(s: string, sep: string, i: nat)
    requires LitAt(s, i, sep)
    ensures s == s[..i] + sep + s[i + |sep|..]
  {
    assert s == s[..i] + s[i..i + |sep|] + s[i + |sep|..];
  }

  lemma PrefixThrough(a: string, b: string, c: string, j: nat)
    requires j <= |c|
    ensures (a + b + c)[..|a| + |b| + j] == a + b + c[..j]
  {
  }

  /** The pieces joined with the separator give the string back. */
  lemma {:induction false} SplitJoin(s: string, sep: string)
    requires sep != []
    ensures Join(sep, Split(s, sep)) == s
    decreases |s|
  {
    var i := FindFrom(s, sep, 0);
    if i < |s| {
      FindFromSpec(s, sep, 0);
      var tail := s[i + |sep|..];
      var rest := Split(tail, sep);
      SplitStep(s, sep, i);
      SplitJoin(tail, sep);
      JoinCons(sep, s[..i], rest);
      CutAt(s, sep, i);
    }
  }

  /** No piece contains the separator. */
  lemma {:induction false} SplitPiecesFree(s: string, sep: string)
    requires sep != []
    ensures forall k :: 0 <= k < |Split(s, sep)| ==> !Contains(Split(s, sep)[k], sep)
    decreases |s|
  {
    var i := FindFrom(s, sep, 0);
    FindFromSpec(s, sep, 0);
    var head := s[..i];
    assert !Contains(head, sep) by {
      forall j: nat | j <= |head| ensures !LitAt(head, j, sep) {
        if j + |sep| <= |head| {
          LitAtPrefix(s, i, j, sep);
        }
      }
    }
    SplitStep(s, sep, i);
    if i < |s| {
      SplitPiecesFree(s[i + |sep|..], sep);
    }
  }

  // ---------------------------------------------------------------- records

  /** Python's `x.get(key, "")` on an object. */
  function Get(entries: map<string, Value>, key: string): Value {
    if key in entries then entries[key] else Str("")
  }

  /** An object cut down to `keys`, each read with `get(key, "")`. */
  function KeepKnown(keys: seq<string>, entries: map<string, Value>): map<string, Value> {
    map k | k in keys :: Get(entries, k)
  }

  /** `p.split(" - ")[0]` */
  function NameOf(p: string): string {
    Split(p, Separator)[0]
  }

  /** `p.split(" - ")[1] if " - " in p else ""` */
  function RoleOf(p: string): string {
    if Contains(p, Separator) then SplitSingle(p, Separator); Split(p, Separator)[1] else ""
  }

  function Person(p: string): Value {
    Dict(map["name" := Str(NameOf(p)), "role" := Str(RoleOf(p))])
  }

  function Job(j: Value): Value {
    Dict(map["title" := j, "description" := Str(""), "link" := Str("")])
  }

  predicate AllDicts(xs: seq<Value>) {
    forall i :: 0 <= i < |xs| ==> xs[i].Dict?
  }

  predicate AllStrs(xs: seq<Value>) {
    forall i :: 0 <= i < |xs| ==> xs[i].Str?
  }

  /** A non-empty list whose first element is an object. */
  predicate DictsFirst(v: Value) {
    v.List? && |v.items| > 0 && v.items[0].Dict?
  }

  /** A non-empty list whose first element is a string. */
  predicate StrsFirst(v: Value) {
    v.List? && |v.items| > 0 && v.items[0].Str?
  }

  // ---------------------------------------------------------------- the validators

  /** `parse_news`; `today` stands for the current UTC date as `YYYY-MM-DD`. */
  function ParseNews(v: Value, today: string): (r: Value)
    ensures !v.Str? ==> r == v
    ensures v.Str? ==>
      && r.List? && |r.items| == 1 && r.items[0].Dict?
      && r.items[0].entries.Keys == {"headline", "date", "link"}
      && r.items[0].entries["headline"] == v
      && r.items[0].entries["date"] == Str(today)
      && r.items[0].entries["link"] == Str("")
  {
    if v.Str? then List([Dict(map["headline" := v, "date" := Str(today), "link" := Str("")])]) else v
  }

  /** `parse_personnel` */
  function ParsePersonnel(v: Value): (r: Outcome)
    ensures !DictsFirst(v) && !StrsFirst(v) ==> r == Normalised(v)
    ensures r.AttributeError? <==>
      (DictsFirst(v) && !AllDicts(v.items)) || (StrsFirst(v) && !AllStrs(v.items))
  {
    if DictsFirst(v) then
      if AllDicts(v.items) then
        Normalised(List(seq(|v.items|, i requires 0 <= i < |v.items| && v.items[i].Dict? =>
          Dict(KeepKnown(PersonKeys, v.items[i].entries)))))
      else AttributeError
    else if StrsFirst(v) then
      if AllStrs(v.items) then
        Normalised(List(seq(|v.items|, i requires 0 <= i < |v.items| && v.items[i].Str? =>
          Person(v.items[i].s))))
      else AttributeError
    else Normalised(v)
  }

  /** `parse_jobs` */
  function ParseJobs(v: Value): (r: Outcome)
    ensures !DictsFirst(v) && !StrsFirst(v) ==> r == Normalised(v)
    ensures r.AttributeError? <==> DictsFirst(v) && !AllDicts(v.items)
  {
    if DictsFirst(v) then
      if AllDicts(v.items) then
        Normalised(List(seq(|v.items|, i requires 0 <= i < |v.items| && v.items[i].Dict? =>
          Dict(KeepKnown(JobKeys, v.items[i].entries)))))
      else AttributeError
    else if StrsFirst(v) then
      Normalised(List(seq(|v.items|, i requires 0 <= i < |v.items| => Job(v.items[i]))))
    else Normalised(v)
  }

  // ---------------------------------------------------------------- properties

  /** An occurrence in a suffix is an occurrence in the whole string, shifted. */
  lemma LitAtShift(s: string, m: nat, sep: string, j: nat)
    requires m <= |s| && LitAt(s[m..], j, sep)
    ensures LitAt(s, m + j, sep)
  {
    forall k | 0 <= k < |sep| ensures s[m + j + k] == sep[k] {
      assert s[m..][j..j + |sep|][k] == s[m + j + k];
    }
    assert s[m + j..m + j + |sep|] == sep;
  }

  /** The text up to the end of the second piece, when the first ends at a separator at `i`. */
  lemma PrefixOfCut(s: string, sep: string, i: nat, j: nat)
    requires LitAt(s, i, sep) && j <= |s| - i - |sep|
    ensures s[..i + |sep| + j] == s[..i] + sep + s[i + |sep|..][..j]
  {
    CutAt(s, sep, i);
    PrefixThrough(s[..i], sep, s[i + |sep|..], j);
  }

  /** The second piece is the text after the first separator, up to the next one. */
  lemma SecondPiece(s: string, sep: string, i: nat, j: nat)
    requires sep != [] && i == FindFrom(s, sep, 0) && i < |s|
    requires j == FindFrom(s[i + |sep|..], sep, 0)
    ensures Split(s, sep)[1] == s[i + |sep|..][..j]
  {
    var tail := s[i + |sep|..];
    SplitStep(s, sep, i);
    SplitStep(tail, sep, j);
    ConsParts(s[..i], Split(tail, sep));
    ConsParts(tail[..j], if j == |tail| then [] else Split(tail[j + |sep|..], sep));
    assert Split(s, sep)[1] == Split(tail, sep)[0];
  }

  /** Where a suffix from `m` has the end or an occurrence at `j`, the whole text has one at `m + j`. */
  lemma NextSeparator(s: string, sep: string, m: nat, j: nat)
    requires m + j <= |s|
    requires m + j < |s| ==> LitAt(s[m..], j, sep)
    ensures m + j == |s| || LitAt(s, m + j, sep)
  {
    if m + j < |s| {
      LitAtShift(s, m, sep, j);
    }
  }

  /** Two pieces cut at an occurrence at `i`, the second running `j` characters, and what follows them. */
  lemma FirstTwoOf(s: string, sep: string, i: nat, j: nat, parts: seq<string>)
    requires LitAt(s, i, sep) && j <= |s| - i - |sep|
    requires j < |s| - i - |sep| ==> LitAt(s[i + |sep|..], j, sep)
    requires |parts| >= 2 && parts[0] == s[..i] && parts[1] == s[i + |sep|..][..j]
    ensures |parts[0]| + |sep| + |parts[1]| <= |s|
    ensures s[..|parts[0]| + |sep| + |parts[1]|] == parts[0] + sep + parts[1]
    ensures |parts[0]| + |sep| + |parts[1]| == |s| || LitAt(s, |parts[0]| + |sep| + |parts[1]|, sep)
  {
    PrefixOfCut(s, sep, i, j);
    NextSeparator(s, sep, i + |sep|, j);
  }

  /** With a separator in `s`, the first two pieces and the separator between them start `s`. */
  lemma SplitFirstTwoFound(s: string, sep: string)
    requires sep != [] && FindFrom(s, sep, 0) < |s|
    ensures |Split(s, sep)| >= 2
    ensures |Split(s, sep)[0]| + |sep| + |Split(s, sep)[1]| <= |s|
    ensures s[..|Split(s, sep)[0]| + |sep| + |Split(s, sep)[1]|] == Split(s, sep)[0] + sep + Split(s, sep)[1]
    ensures |Split(s, sep)[0]| + |sep| + |Split(s, sep)[1]| == |s|
      || LitAt(s, |Split(s, sep)[0]| + |sep| + |Split(s, sep)[1]|, sep)
  {
    var i := FindFrom(s, sep, 0);
    var tail := s[i + |sep|..];
    var j := FindFrom(tail, sep, 0);
    var parts := Split(s, sep);
    assert |parts| >= 2 && parts[0] == s[..i] && parts[1] == tail[..j] by {
      SplitStep(s, sep, i);
      ConsParts(s[..i], Split(tail, sep));
      SecondPiece(s, sep, i, j);
    }
    assert LitAt(s, i, sep) && (j < |tail| ==> LitAt(tail, j, sep)) by {
      FindFromFound(s, sep, 0);
      if j < |tail| {
        FindFromFound(tail, sep, 0);
      }
    }
    FirstTwoOf(s, sep, i, j, parts);
    assert |parts[0]| + |sep| + |parts[1]| == i + |sep| + j;
  }

  /** An occurrence in the suffix from `m` is exactly an occurrence in `s`, `m` positions later. */
  lemma LitAtSuffix(s: string, m: nat, sep: string, j: nat)
    requires m <= |s|
    ensures LitAt(s[m..], j, sep) <==> LitAt(s, m + j, sep)
  {
    if m + j + |sep| <= |s| {
      assert s[m..][j..j + |sep|] == s[m + j..m + j + |sep|];
    }
  }

  /** No occurrence before `FindFrom(s, sep, 0)`. */
  lemma NoneBeforeFirst(s: string, sep: string)
    requires sep != []
    ensures forall j :: 0 <= j < FindFrom(s, sep, 0) ==> !LitAt(s, j, sep)
  {
    FindFromSpec(s, sep, 0);
  }

  /** Occurrence-free stretches of the suffix from `m` are occurrence-free in `s`, shifted by `m`. */
  lemma NoneShifted(s: string, m: nat, sep: string, k: nat)
    requires m <= |s|
    requires forall j :: 0 <= j < k ==> !LitAt(s[m..], j, sep)
    ensures forall j :: m <= j < m + k ==> !LitAt(s, j, sep)
  {
    forall j | m <= j < m + k ensures !LitAt(s, j, sep) {
      LitAtSuffix(s, m, sep, j - m);
    }
  }

  /**
   * With a separator in `s`, the first piece ends at the first occurrence of the separator,
   * and the second piece ends at the next occurrence that starts after it: no occurrence
   * starts inside the first piece, nor between the first separator and the end of the second piece.
   */
  lemma SplitAtFirstAndNext(s: string, sep: string)
    requires sep != [] && FindFrom(s, sep, 0) < |s|
    ensures |Split(s, sep)| >= 2
    ensures |Split(s, sep)[0]| == FindFrom(s, sep, 0)
    ensures forall j :: 0 <= j < |Split(s, sep)[0]| ==> !LitAt(s, j, sep)
    ensures forall j :: |Split(s, sep)[0]| + |sep| <= j < |Split(s, sep)[0]| + |sep| + |Split(s, sep)[1]| ==>
      !LitAt(s, j, sep)
  {
    var i := FindFrom(s, sep, 0);
    var m := i + |sep|;
    var tail := s[m..];
    var k := FindFrom(tail, sep, 0);
    var parts := Split(s, sep);
    assert |parts| >= 2 && parts[0] == s[..i] && parts[1] == tail[..k] by {
      SplitStep(s, sep, i);
      ConsParts(s[..i], Split(tail, sep));
      SecondPiece(s, sep, i, k);
    }
    NoneBeforeFirst(s, sep);
    NoneBeforeFirst(tail, sep);
    NoneShifted(s, m, sep, k);
    assert |parts[0]| == i && |parts[1]| == k;
  }

  /**
   * The first piece of a split is the text before the first separator; when there is a
   * separator, the second piece follows it and runs up to the next separator or the end.
   */
  lemma SplitFirstTwo(s: string, sep: string)
    requires sep != []
    ensures !Contains(s, sep) ==> Split(s, sep) == [s]
    ensures Contains(s, sep) ==>
      |Split(s, sep)| >= 2 &&
      var n := |Split(s, sep)[0]| + |sep| + |Split(s, sep)[1]|;
      && n <= |s|
      && s[..n] == Split(s, sep)[0] + sep + Split(s, sep)[1]
      && (n == |s| || LitAt(s, n, sep))
    ensures forall j :: 0 <= j < |Split(s, sep)[0]| ==> !LitAt(s, j, sep)
    ensures Contains(s, sep) ==>
      && |Split(s, sep)| >= 2
      && forall j :: |Split(s, sep)[0]| + |sep| <= j < |Split(s, sep)[0]| + |sep| + |Split(s, sep)[1]| ==>
           !LitAt(s, j, sep)
  {
    SplitSingle(s, sep);
    var i := FindFrom(s, sep, 0);
    SplitStep(s, sep, i);
    if i < |s| {
      SplitFirstTwoFound(s, sep);
      SplitAtFirstAndNext(s, sep);
    } else {
      NoneBeforeFirst(s, sep);
    }
  }

  /** The name is the text before the first separator and the role the text after it, up to the next one. */
  lemma NameRoleSplit(p: string)
    ensures !Contains(NameOf(p), Separator) && !Contains(RoleOf(p), Separator)
    ensures !Contains(p, Separator) ==> NameOf(p) == p && RoleOf(p) == ""
    ensures Contains(p, Separator) ==>
      var n := |NameOf(p)| + |Separator| + |RoleOf(p)|;
      && n <= |p|
      && p[..n] == NameOf(p) + Separator + RoleOf(p)
      && (n == |p| || LitAt(p, n, Separator))
    ensures forall j :: 0 <= j < |NameOf(p)| ==> !LitAt(p, j, Separator)
    ensures Contains(p, Separator) ==>
      forall j :: |NameOf(p)| + |Separator| <= j < |NameOf(p)| + |Separator| + |RoleOf(p)| ==>
        !LitAt(p, j, Separator)
  {
    SplitPiecesFree(p, Separator);
    SplitFirstTwo(p, Separator);
  }

  /** A list of strings becomes one name/role record per string, in order. */
  lemma PersonnelFromStrings(v: Value)
    requires StrsFirst(v) && AllStrs(v.items)
    ensures ParsePersonnel(v).Normalised?
    ensures var r := ParsePersonnel(v).value;
      && r.List? && |r.items| == |v.items|
      && forall i :: 0 <= i < |v.items| ==>
        && r.items[i].Dict?
        && r.items[i].entries.Keys == {"name", "role"}
        && r.items[i].entries["name"] == Str(NameOf(v.items[i].s))
        && r.items[i].entries["role"] == Str(RoleOf(v.items[i].s))
  {
  }

  /** A list of objects keeps, in each, exactly the known keys, missing ones read as `""`. */
  lemma RecordsFromDicts(v: Value, keys: seq<string>)
    requires DictsFirst(v) && AllDicts(v.items)
    requires keys == PersonKeys || keys == JobKeys
    ensures var r := if keys == PersonKeys then ParsePersonnel(v) else ParseJobs(v);
      && r.Normalised? && r.value.List? && |r.value.items| == |v.items|
      && forall i :: 0 <= i < |v.items| ==>
        && r.value.items[i].Dict?
        && r.value.items[i].entries.Keys == set k | k in keys
        && forall k :: k in keys ==>
          r.value.items[i].entries[k] == (if k in v.items[i].entries then v.items[i].entries[k] else Str(""))
  {
  }

  /** A list of strings becomes one job per string, titled with it, with empty description and link. */
  lemma JobsFromStrings(v: Value)
    requires StrsFirst(v)
    ensures ParseJobs(v).Normalised?
    ensures var r := ParseJobs(v).value;
      && r.List? && |r.items| == |v.items|
      && forall i :: 0 <= i < |v.items| ==>
        && r.items[i].Dict?
        && r.items[i].entries.Keys == {"title", "description", "link"}
        && r.items[i].entries["title"] == v.items[i]
        && r.items[i].entries["description"] == Str("")
        && r.items[i].entries["link"] == Str("")
  {
  }

  /** Cutting an object down to the keys it already has, and only those, leaves it as it is. */
  lemma KeepKnownFixed(keys: seq<string>, entries: map<string, Value>)
    requires entries.Keys == set k | k in keys
    ensures KeepKnown(keys, entries) == entries
  {
  }

  /** A normalised list is a list of objects that have exactly `keys`. */
  predicate Records(r: Value, keys: seq<string>) {
    && r.List? && |r.items| > 0 && AllDicts(r.items)
    && forall i :: 0 <= i < |r.items| ==> r.items[i].entries.Keys == set k | k in keys
  }

  /** A list of records with exactly `keys` is passed on as it is by the matching validator. */
  lemma RecordsKept(r: Value, keys: seq<string>)
    requires Records(r, keys)
    requires keys == PersonKeys || keys == JobKeys
    ensures (if keys == PersonKeys then ParsePersonnel(r) else ParseJobs(r)) == Normalised(r)
  {
    var out := if keys == PersonKeys then ParsePersonnel(r) else ParseJobs(r);
    forall i | 0 <= i < |r.items| ensures out.value.items[i] == r.items[i] {
      KeepKnownFixed(keys, r.items[i].entries);
    }
    assert out.value.items == r.items;
  }

  /** Normalising personnel twice gives what normalising once gives. */
  lemma PersonnelIdempotent(v: Value)
    requires ParsePersonnel(v).Normalised?
    ensures ParsePersonnel(ParsePersonnel(v).value) == ParsePersonnel(v)
  {
    if DictsFirst(v) || StrsFirst(v) {
      var r := ParsePersonnel(v).value;
      assert PersonKeys == ["name", "role"];
      assert (set k | k in PersonKeys) == {"name", "role"};
      assert Records(r, PersonKeys);
      RecordsKept(r, PersonKeys);
    }
  }

  /** Normalising job openings twice gives what normalising once gives. */
  lemma JobsIdempotent(v: Value)
    requires ParseJobs(v).Normalised?
    ensures ParseJobs(ParseJobs(v).value) == ParseJobs(v)
  {
    if DictsFirst(v) || StrsFirst(v) {
      var r := ParseJobs(v).value;
      assert JobKeys == ["title", "description", "link"];
      assert (set k | k in JobKeys) == {"title", "description", "link"};
      assert Records(r, JobKeys);
      RecordsKept(r, JobKeys);
    }
  }

  /** Normalising news twice gives what normalising once gives: a wrapped string is a list and stays as it is. */
  lemma NewsIdempotent(v: Value, today: string)
    ensures ParseNews(ParseNews(v, today), today) == ParseNews(v, today)
  {
  }
}
