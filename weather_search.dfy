/** The query pre-correction of supabase/functions/weather-search/index.ts,
    run before the query is handed to the language model: a query that is
    a known airport or station code becomes that code's city name;
    otherwise the first known typo contained in the query is replaced,
    case-insensitively, wherever it occurs. */
module WeatherSearch {
  import opened Text
  import opened Wrappers

  /** The handler's local code table, in declaration order. */
  const CodeTable: seq<(string, string)> := [
    ("DEL", "Delhi"), ("BOM", "Mumbai"), ("MAA", "Chennai"), ("CCU", "Kolkata"),
    ("BLR", "Bangalore"), ("HYD", "Hyderabad"), ("VTZ", "Visakhapatnam"),
    ("VSKP", "Visakhapatnam"), ("NDLS", "New Delhi"), ("NYC", "New York"),
    ("LAX", "Los Angeles"), ("LHR", "London"), ("CDG", "Paris"), ("GOI", "Goa")
  ]

  /** The handler's local typo table, in declaration order. */
  const TypoTable: seq<(string, string)> := [
    ("dilli", "Delhi"), ("delhhi", "Delhi"), ("dehli", "Delhi"),
    ("vizag", "Visakhapatnam"), ("bombay", "Mumbai"),
    ("banglore", "Bangalore"), ("bengaluru", "Bangalore"),
    ("kolkatta", "Kolkata"), ("calcutta", "Kolkata")
  ]

  /** Typo keys are non-empty runs of lower-case ASCII letters, so that
      `new RegExp(typo, 'gi')` matches the key itself and nothing else. */
  predicate LetterKeys(typos: seq<(string, string)>) {
    forall k :: 0 <= k < |typos| ==>
      |typos[k].0| > 0 && forall c :: c in typos[k].0 ==> 'a' <= c <= 'z'
  }

  lemma TypoTableKeys()
    ensures LetterKeys(TypoTable)
  {
  }

  /** `table[key]` on an object literal: the value of the last entry with
      that key, or `undefined`. */
  function Lookup(table: seq<(string, string)>, key: string): (r: Option<string>)
    ensures r.Some? <==> exists k :: 0 <= k < |table| && table[k].0 == key
    ensures r.Some? ==> exists k :: 0 <= k < |table| && table[k] == (key, r.value)
    decreases |table|
  {
    if table == [] then None
    else if table[|table| - 1].0 == key then Some(table[|table| - 1].1)
    else
      var r := Lookup(table[..|table| - 1], key);
      assert forall k :: 0 <= k < |table| - 1 ==> table[..|table| - 1][k] == table[k];
      r
  }

  // ---------------------------------------------------------------------
  // processedQuery.replace(new RegExp(typo, 'gi'), correct)
  // ---------------------------------------------------------------------

  /** Whether `key` matches `s` at position `i`, ignoring ASCII case. */
  predicate MatchesAt(s: string, key: string, i: nat) {
    i + |key| <= |s| && forall k :: 0 <= k < |key| ==> LowerChar(s[i + k]) == LowerChar(key[k])
  }

  /** A global case-insensitive replacement of a literal key: scanning left
      to right, each match is replaced and the scan resumes after it;
      elsewhere one character is kept and the scan advances by one. */
  function ReplaceAllCI(s: string, key: string, replacement: string): string
    requires |key| > 0
    decreases |s|
  {
    if |s| < |key| then s
    else if MatchesAt(s, key, 0) then replacement + ReplaceAllCI(s[|key|..], key, replacement)
    else [s[0]] + ReplaceAllCI(s[1..], key, replacement)
  }

  /** The position of the leftmost match at or after `from`. */
  function LeftmostMatch(s: string, key: string, from: nat): (r: Option<nat>)
    requires from <= |s|
    ensures r.Some? ==> from <= r.value && MatchesAt(s, key, r.value)
    ensures r.Some? ==> forall j :: from <= j < r.value ==> !MatchesAt(s, key, j)
    ensures r.None? ==> forall j :: from <= j <= |s| ==> !MatchesAt(s, key, j)
    decreases |s| - from
  {
    if MatchesAt(s, key, from) then Some(from)
    else if from == |s| then None
    else LeftmostMatch(s, key, from + 1)
  }

  /** Dropping the first character moves every match one place left. */
  lemma MatchShift(s: string, key: string, j: nat)
    requires |s| >= 1
    ensures MatchesAt(s[1..], key, j) <==> MatchesAt(s, key, j + 1)
  {
  }

  /** Without a match the text is left as it is. */
  lemma {:induction false} ReplaceWithoutMatch(s: string, key: string, replacement: string)
    requires |key| > 0
    requires forall j :: 0 <= j <= |s| ==> !MatchesAt(s, key, j)
    ensures ReplaceAllCI(s, key, replacement) == s
    decreases |s|
  {
    if |s| >= |key| {
      var t := s[1..];
      forall j | 0 <= j <= |t|
        ensures !MatchesAt(t, key, j)
      {
        MatchShift(s, key, j);
      }
      ReplaceWithoutMatch(t, key, replacement);
      assert s == [s[0]] + t;
    }
  }

  /** Everything before the leftmost match is kept, the match itself is
      replaced, and the scan goes on after it. */
  lemma {:induction false} ReplaceAtLeftmost(s: string, key: string, replacement: string, i: nat)
    requires |key| > 0
    requires MatchesAt(s, key, i)
    requires forall j :: 0 <= j < i ==> !MatchesAt(s, key, j)
    ensures ReplaceAllCI(s, key, replacement)
      == s[..i] + replacement + ReplaceAllCI(s[i + |key|..], key, replacement)
    decreases i, 1
  {
    if i == 0 {
      ReplaceAtStart(s, key, replacement);
    } else {
      ReplaceAfterFirst(s, key, replacement, i);
    }
  }

  /** The step of the induction: a non-matching first character is kept
      and the leftmost match lies one place further in the rest. */
  lemma {:induction false} ReplaceAfterFirst(s: string, key: string, replacement: string, i: nat)
    requires |key| > 0 && i > 0
    requires MatchesAt(s, key, i)
    requires forall j :: 0 <= j < i ==> !MatchesAt(s, key, j)
    ensures ReplaceAllCI(s, key, replacement)
      == s[..i] + replacement + ReplaceAllCI(s[i + |key|..], key, replacement)
    decreases i, 0
  {
    var t := s[1..];
    LeftmostShift(s, key, i);
    ReplaceAtLeftmost(t, key, replacement, i - 1);
    KeptThenLeftmost(s, key, replacement, i);
  }

  /** Putting the kept first character in front of the rest's rewrite. */
  lemma KeptThenLeftmost(s: string, key: string, replacement: string, i: nat)
    requires |key| > 0 && 0 < i && i + |key| <= |s| && !MatchesAt(s, key, 0)
    requires ReplaceAllCI(s[1..], key, replacement)
      == s[1..][..i - 1] + replacement + ReplaceAllCI(s[1..][i - 1 + |key|..], key, replacement)
    ensures ReplaceAllCI(s, key, replacement)
      == s[..i] + replacement + ReplaceAllCI(s[i + |key|..], key, replacement)
  {
    var t := s[1..];
    ReplaceKeepsFirst(s, key, replacement);
    PrependKept(s, i, replacement, ReplaceAllCI(t, key, replacement),
      ReplaceAllCI(s, key, replacement), ReplaceAllCI(t[i - 1 + |key|..], key, replacement));
    assert t[i - 1 + |key|..] == s[i + |key|..];
  }

  /** The leftmost match, seen from the second character on. */
  lemma LeftmostShift(s: string, key: string, i: nat)
    requires i > 0 && MatchesAt(s, key, i)
    requires forall j :: 0 <= j < i ==> !MatchesAt(s, key, j)
    ensures MatchesAt(s[1..], key, i - 1)
    ensures forall j :: 0 <= j < i - 1 ==> !MatchesAt(s[1..], key, j)
  {
    MatchShift(s, key, i - 1);
    forall j | 0 <= j < i - 1
      ensures !MatchesAt(s[1..], key, j)
    {
      MatchShift(s, key, j);
    }
  }

  lemma ReplaceAtStart(s: string, key: string, replacement: string)
    requires |key| > 0 && MatchesAt(s, key, 0)
    ensures ReplaceAllCI(s, key, replacement)
      == s[..0] + replacement + ReplaceAllCI(s[|key|..], key, replacement)
  {
    assert s[..0] + replacement == replacement;
  }

  lemma ReplaceKeepsFirst(s: string, key: string, replacement: string)
    requires |key| > 0 && |key| <= |s| && !MatchesAt(s, key, 0)
    ensures ReplaceAllCI(s, key, replacement) == [s[0]] + ReplaceAllCI(s[1..], key, replacement)
  {
  }

  /** Keeping the first character in front of the rest's rewrite. */
  lemma PrependKept(s: string, i: nat, middle: string, inner: string, whole: string, rest: string)
    requires 0 < i <= |s|
    requires inner == s[1..][..i - 1] + middle + rest && whole == [s[0]] + inner
    ensures whole == s[..i] + middle + rest
  {
    assert s[..i] == [s[0]] + s[1..][..i - 1];
  }

  // ---------------------------------------------------------------------
  // The decision and the rewritten query
  // ---------------------------------------------------------------------

  /** The first typo key, at or after `from` in table order, that the
      lower-cased trimmed query contains. */
  function FirstTypo(typos: seq<(string, string)>, lower: string, from: nat): (r: Option<nat>)
    requires from <= |typos|
    ensures r.Some? ==> from <= r.value < |typos| && Contains(lower, typos[r.value].0)
    ensures r.Some? ==> forall j :: from <= j < r.value ==> !Contains(lower, typos[j].0)
    ensures r.None? ==> forall j :: from <= j < |typos| ==> !Contains(lower, typos[j].0)
    decreases |typos| - from
  {
    if from == |typos| then None
    else if Contains(lower, typos[from].0) then Some(from)
    else FirstTypo(typos, lower, from + 1)
  }

  /** Which branch of the pre-correction applies. */
  datatype Rewrite = ByCode(name: string) | ByTypo(index: nat) | Unchanged

  /** The code check first (`locationCodes[upperQuery]` is truthy when the
      key is present with a non-empty name); only on a miss the typo scan. */
  function Decide(codes: seq<(string, string)>, typos: seq<(string, string)>, query: string): (r: Rewrite)
    ensures r.ByTypo? ==> r.index < |typos|
  {
    var hit := Lookup(codes, Trim(ToUpper(query)));
    if hit.Some? && hit.value != "" then ByCode(hit.value)
    else match FirstTypo(typos, Trim(ToLower(query)), 0)
      case Some(k) => ByTypo(k)
      case None => Unchanged
  }

  /** The value `processedQuery` ends with. */
  function Processed(codes: seq<(string, string)>, typos: seq<(string, string)>, query: string): string
    requires LetterKeys(typos)
  {
    match Decide(codes, typos, query)
    case ByCode(name) => name
    case ByTypo(k) => ReplaceAllCI(query, typos[k].0, typos[k].1)
    case Unchanged => query
  }

  /** Lines 40-55 of the handler, over its two tables: `processedQuery`
      starts as the query, is replaced by the code's name on a code hit,
      and otherwise is rewritten by the first contained typo key, after
      which the loop stops. */
  method PreCorrect(query: string) returns (processedQuery: string)
    ensures processedQuery == Processed(CodeTable, TypoTable, query)
  {
    TypoTableKeys();
    processedQuery := PreCorrectWith(CodeTable, TypoTable, query);
  }

  /** The same block for any code and typo table. */
  method PreCorrectWith(codes: seq<(string, string)>, typos: seq<(string, string)>, query: string)
    returns (processedQuery: string)
    requires LetterKeys(typos)
    ensures processedQuery == Processed(codes, typos, query)
  {
    processedQuery := query;
    var upperQuery := Trim(ToUpper(query));
    var hit := Lookup(codes, upperQuery);
    if hit.Some? && hit.value != "" {
      processedQuery := hit.value;
    } else {
      processedQuery := ApplyFirstTypo(typos, processedQuery, Trim(ToLower(query)));
    }
  }

  /** The typo loop: the first key contained in `lowerQuery` is replaced
      throughout `processedQuery`, and the loop breaks. */
  method ApplyFirstTypo(typos: seq<(string, string)>, processedQuery: string, lowerQuery: string)
    returns (result: string)
    requires LetterKeys(typos)
    ensures result == match FirstTypo(typos, lowerQuery, 0)
      case Some(k) => ReplaceAllCI(processedQuery, typos[k].0, typos[k].1)
      case None => processedQuery
  {
    result := processedQuery;
    var i := 0;
    while i < |typos|
      invariant 0 <= i <= |typos|
      invariant forall j :: 0 <= j < i ==> !Contains(lowerQuery, typos[j].0)
      invariant result == processedQuery
    {
      var (typo, correct) := typos[i];
      if Contains(lowerQuery, typo) {
        FirstTypoIs(typos, lowerQuery, i);
        result := ReplaceAllCI(result, typo, correct);
        break;
      }
      i := i + 1;
    }
    if i == |typos| {
      FirstTypoNone(typos, lowerQuery);
    }
  }

  /** The first contained key is the one `FirstTypo` finds. */
  lemma FirstTypoIs(typos: seq<(string, string)>, lower: string, k: nat)
    requires k < |typos| && Contains(lower, typos[k].0)
    requires forall j :: 0 <= j < k ==> !Contains(lower, typos[j].0)
    ensures FirstTypo(typos, lower, 0) == Some(k)
  {
  }

  lemma FirstTypoNone(typos: seq<(string, string)>, lower: string)
    requires forall j :: 0 <= j < |typos| ==> !Contains(lower, typos[j].0)
    ensures FirstTypo(typos, lower, 0) == None
  {
  }

  // ---------------------------------------------------------------------
  // What the pre-correction guarantees
  // ---------------------------------------------------------------------

  /** A code hit gives exactly the code's name, whatever typos the query
      contains. */
  lemma CodeHitWins(codes: seq<(string, string)>, typos: seq<(string, string)>, query: string, name: string)
    requires LetterKeys(typos)
    requires Lookup(codes, Trim(ToUpper(query))) == Some(name) && name != ""
    ensures Processed(codes, typos, query) == name
    ensures Decide(codes, typos, query) == ByCode(name)
  {
  }

  /** On a code miss, the first key in table order that the lower-cased
      trimmed query contains decides the rewrite, and no other key is
      applied. */
  lemma FirstTypoApplies(codes: seq<(string, string)>, typos: seq<(string, string)>, query: string, k: nat)
    requires LetterKeys(typos)
    requires var hit := Lookup(codes, Trim(ToUpper(query))); !(hit.Some? && hit.value != "")
    requires k < |typos| && Contains(Trim(ToLower(query)), typos[k].0)
    requires forall j :: 0 <= j < k ==> !Contains(Trim(ToLower(query)), typos[j].0)
    ensures Decide(codes, typos, query) == ByTypo(k)
    ensures Processed(codes, typos, query) == ReplaceAllCI(query, typos[k].0, typos[k].1)
  {
    var f := FirstTypo(typos, Trim(ToLower(query)), 0);
    assert f.Some?;
    if f.value < k {
    } else if f.value > k {
    }
  }

  /** When neither a code nor a typo matches, the query is passed on
      unchanged. */
  lemma NoMatchUnchanged(codes: seq<(string, string)>, typos: seq<(string, string)>, query: string)
    requires LetterKeys(typos)
    requires var hit := Lookup(codes, Trim(ToUpper(query))); !(hit.Some? && hit.value != "")
    requires forall j :: 0 <= j < |typos| ==> !Contains(Trim(ToLower(query)), typos[j].0)
    ensures Processed(codes, typos, query) == query
  {
  }

  /** Which branch applies does not depend on the letter case of the
      query. */
  lemma DecideIgnoresCase(codes: seq<(string, string)>, typos: seq<(string, string)>, q1: string, q2: string)
    requires ToLower(q1) == ToLower(q2)
    ensures Decide(codes, typos, q1) == Decide(codes, typos, q2)
  {
    SameLowerSameUpper(q1, q2);
  }

  /** The two trims of an empty tail and head: the trimmed text is a
      stretch of the original. */
  lemma {:induction false} TrimIsStretch(s: string)
    ensures exists lo, hi :: 0 <= lo <= hi <= |s| && Trim(s) == s[lo..hi]
  {
    var a := TrimStart(s);
    var lo := |s| - |a|;
    assert a == s[lo..];
    var b := TrimEnd(a);
    assert b == a[..|b|];
    assert a[..|b|] == s[lo..lo + |b|];
    assert Trim(s) == s[lo..lo + |b|];
  }

  lemma {:induction false} ContainsInStretch(s: string, t: string, lo: nat, hi: nat)
    requires lo <= hi <= |s| && Contains(s[lo..hi], t)
    ensures Contains(s, t)
  {
    var w := s[lo..hi];
    var i :| 0 <= i <= |w| && IsPrefix(t, w[i..]);
    assert |t| <= |w| - i;
    forall k | 0 <= k < |t|
      ensures s[lo + i..][k] == t[k]
    {
      assert w[i..][..|t|][k] == t[k];
    }
    assert s[lo + i..][..|t|] == t;
    ContainsAt(s, t, lo + i);
  }

  lemma {:induction false} LowerOfLetterKey(key: string)
    requires forall c :: c in key ==> 'a' <= c <= 'z'
    ensures ToLower(key) == key
  {
    forall i | 0 <= i < |key|
      ensures ToLower(key)[i] == key[i]
    {
      assert key[i] in key;
    }
  }

  lemma {:induction false} MatchFromContains(query: string, key: string)
    requires |key| > 0 && forall c :: c in key ==> 'a' <= c <= 'z'
    requires Contains(ToLower(query), key)
    ensures LeftmostMatch(query, key, 0).Some?
  {
    var i :| 0 <= i <= |ToLower(query)| && IsPrefix(key, ToLower(query)[i..]);
    LowerOfLetterKey(key);
    forall k | 0 <= k < |key|
      ensures LowerChar(query[i + k]) == LowerChar(key[k])
    {
      assert ToLower(query)[i..][..|key|][k] == key[k] == ToLower(key)[k];
    }
    assert MatchesAt(query, key, i);
  }

  /** A letter key found in the lower-cased trimmed query is found, ignoring
      case, in the query itself. */
  lemma {:induction false} KeyInQuery(query: string, key: string)
    requires |key| > 0 && forall c :: c in key ==> 'a' <= c <= 'z'
    requires Contains(Trim(ToLower(query)), key)
    ensures LeftmostMatch(query, key, 0).Some?
  {
    var lower := ToLower(query);
    TrimIsStretch(lower);
    var lo, hi :| 0 <= lo <= hi <= |lower| && Trim(lower) == lower[lo..hi];
    ContainsInStretch(lower, key, lo, hi);
    MatchFromContains(query, key);
  }

  /** The typo rewrite really fires on the untrimmed original query: a
      letter key found in the lower-cased trimmed query matches the query
      itself, ignoring case, and the text before its leftmost match is
      kept while that match becomes the corrected name. */
  lemma {:induction false} LetterKeyReplaced(query: string, key: string, replacement: string)
    requires |key| > 0 && forall c :: c in key ==> 'a' <= c <= 'z'
    requires Contains(Trim(ToLower(query)), key)
    ensures LeftmostMatch(query, key, 0).Some?
    ensures var i := LeftmostMatch(query, key, 0).value;
      ReplaceAllCI(query, key, replacement) == query[..i] + replacement + ReplaceAllCI(query[i + |key|..], key, replacement)
  {
    KeyInQuery(query, key);
    ReplaceLeftmostFound(query, key, replacement);
  }

  /** The same, with the match position left to the search. */
  lemma {:induction false} ReplaceLeftmostFound(query: string, key: string, replacement: string)
    requires |key| > 0 && LeftmostMatch(query, key, 0).Some?
    ensures var i := LeftmostMatch(query, key, 0).value;
      ReplaceAllCI(query, key, replacement) == query[..i] + replacement + ReplaceAllCI(query[i + |key|..], key, replacement)
  {
    var i := LeftmostMatch(query, key, 0).value;
    ReplaceAtFound(query, key, replacement, i);
  }

  /** The leftmost match found by the search is the one replaced. */
  lemma {:induction false} ReplaceAtFound(query: string, key: string, replacement: string, i: nat)
    requires |key| > 0 && LeftmostMatch(query, key, 0) == Some(i)
    ensures ReplaceAllCI(query, key, replacement) == query[..i] + replacement + ReplaceAllCI(query[i + |key|..], key, replacement)
  {
    assert MatchesAt(query, key, i);
    assert forall j :: 0 <= j < i ==> !MatchesAt(query, key, j);
    ReplaceAtLeftmost(query, key, replacement, i);
  }

  /** On the typo branch the result is the typo key replaced throughout
      the original query, and the key is contained in the lower-cased
      trimmed query. */
  lemma ProcessedByTypo(codes: seq<(string, string)>, typos: seq<(string, string)>, query: string, k: nat)
    requires LetterKeys(typos)
    requires Decide(codes, typos, query) == ByTypo(k)
    ensures Processed(codes, typos, query) == ReplaceAllCI(query, typos[k].0, typos[k].1)
    ensures Contains(Trim(ToLower(query)), typos[k].0)
  {
  }

  // ---------------------------------------------------------------------
  // Examples
  // ---------------------------------------------------------------------

  lemma DilliLower()
    ensures ToLower("DILLI weather") == "dilli weather"
    ensures ToLower("dilli weather") == "dilli weather"
  {
  }

  lemma DilliTrimmed()
    ensures Trim("dilli weather") == "dilli weather"
  {
    TrimKeepsEnds("dilli weather");
  }

  lemma DilliContained()
    ensures Contains("dilli weather", "dilli")
  {
    ContainsAt("dilli weather", "dilli", 0);
  }

  lemma DilliUpper()
    ensures ToUpper("dilli weather") == "DILLI WEATHER"
  {
  }

  lemma DilliUpperTrimmed()
    ensures Trim("DILLI WEATHER") == "DILLI WEATHER"
  {
    TrimKeepsEnds("DILLI WEATHER");
  }

  lemma DilliNoCode()
    ensures Lookup(CodeTable, "DILLI WEATHER") == None
  {
  }

  /** "DILLI weather" and "dilli weather" both take the `dilli` rewrite,
      the first entry of the typo table, and become "Delhi weather". */
  lemma DilliRewrite()
    ensures Decide(CodeTable, TypoTable, "dilli weather") == ByTypo(0)
    ensures Decide(CodeTable, TypoTable, "DILLI weather") == ByTypo(0)
  {
    DilliLower();
    DilliTrimmed();
    DilliContained();
    DilliUpper();
    DilliUpperTrimmed();
    DilliNoCode();
    DecideIgnoresCase(CodeTable, TypoTable, "DILLI weather", "dilli weather");
  }

  lemma WeatherHasNoDilli(rest: string)
    requires rest == " weather"
    ensures forall j :: 0 <= j <= |rest| ==> !MatchesAt(rest, "dilli", j)
  {
    forall j | 0 <= j <= |rest|
      ensures !MatchesAt(rest, "dilli", j)
    {
      if j + 5 <= |rest| {
        assert LowerChar(rest[j + 1]) != LowerChar("dilli"[1]);
      }
    }
  }

  /** A match of the key followed by text with no match becomes the
      replacement followed by that text. */
  lemma {:induction false} ReplaceLeadingKey(query: string, key: string, replacement: string, rest: string)
    requires |key| > 0 && MatchesAt(query, key, 0) && query[|key|..] == rest
    requires forall j :: 0 <= j <= |rest| ==> !MatchesAt(rest, key, j)
    ensures ReplaceAllCI(query, key, replacement) == replacement + rest
  {
    ReplaceAtStart(query, key, replacement);
    ReplaceWithoutMatch(rest, key, replacement);
    assert query[..0] + replacement == replacement;
  }

  /** The key at the very start is replaced and nothing after it matches. */
  lemma DilliReplaced(query: string)
    requires query == "DILLI weather" || query == "dilli weather"
    ensures ReplaceAllCI(query, "dilli", "Delhi") == "Delhi weather"
  {
    var rest := query[5..];
    assert rest == " weather";
    WeatherHasNoDilli(rest);
    assert MatchesAt(query, "dilli", 0);
    ReplaceLeadingKey(query, "dilli", "Delhi", rest);
  }

  /** Both spellings reach the model as "Delhi weather". */
  lemma DilliWeather(query: string)
    requires query == "DILLI weather" || query == "dilli weather"
    ensures Processed(CodeTable, TypoTable, query) == "Delhi weather"
  {
    TypoTableKeys();
    DilliRewrite();
    DilliReplaced(query);
  }
}
