/** The autocomplete resolver of src/data/locationCodes.ts.

    A query is matched against the code table in three tiers, in this
    order: codes starting with the upper-cased query (score 0), typo keys
    starting with the trimmed lower-case query (score 1), and location
    names containing it (score 2 plus an edit distance). The candidates
    are then stably sorted by score, cut to five and stripped of their
    score. Both tables are sequences in declaration order, which is the
    order `Object.entries` and `Object.values` visit them in. */
module LocationCodes {
  import opened Text
  import opened EditDistance

  datatype Kind = Airport | Railway | City

  /** One `[code, location]` entry of the code table. */
  datatype CodeEntry = CodeEntry(code: string, name: string, country: string, kind: Kind)

  /** What the caller receives: `{ label, value, type }`. The field
      `caption` holds the source's `label`, a reserved word in Dafny. */
  datatype Suggestion = Suggestion(caption: string, value: string, kind: Kind)

  /** What the three tiers push: a suggestion with its ranking score. */
  datatype Candidate = Candidate(caption: string, value: string, kind: Kind, score: nat)

  const LocationCodeTable: seq<CodeEntry> := [
    CodeEntry("DEL", "Delhi", "India", Airport),
    CodeEntry("BOM", "Mumbai", "India", Airport),
    CodeEntry("MAA", "Chennai", "India", Airport),
    CodeEntry("CCU", "Kolkata", "India", Airport),
    CodeEntry("BLR", "Bangalore", "India", Airport),
    CodeEntry("HYD", "Hyderabad", "India", Airport),
    CodeEntry("AMD", "Ahmedabad", "India", Airport),
    CodeEntry("PNQ", "Pune", "India", Airport),
    CodeEntry("GOI", "Goa", "India", Airport),
    CodeEntry("COK", "Kochi", "India", Airport),
    CodeEntry("VTZ", "Visakhapatnam", "India", Airport),
    CodeEntry("VSKP", "Visakhapatnam", "India", Railway),
    CodeEntry("NDLS", "New Delhi", "India", Railway),
    CodeEntry("BCT", "Mumbai Central", "India", Railway),
    CodeEntry("MAS", "Chennai Central", "India", Railway),
    CodeEntry("HWH", "Howrah", "India", Railway),
    CodeEntry("SBC", "Bangalore City", "India", Railway),
    CodeEntry("NYC", "New York", "USA", Airport),
    CodeEntry("LAX", "Los Angeles", "USA", Airport),
    CodeEntry("ORD", "Chicago", "USA", Airport),
    CodeEntry("DFW", "Dallas", "USA", Airport),
    CodeEntry("ATL", "Atlanta", "USA", Airport),
    CodeEntry("MIA", "Miami", "USA", Airport),
    CodeEntry("SEA", "Seattle", "USA", Airport),
    CodeEntry("SFO", "San Francisco", "USA", Airport),
    CodeEntry("BOS", "Boston", "USA", Airport),
    CodeEntry("LAS", "Las Vegas", "USA", Airport),
    CodeEntry("LHR", "London", "UK", Airport),
    CodeEntry("CDG", "Paris", "France", Airport),
    CodeEntry("FRA", "Frankfurt", "Germany", Airport),
    CodeEntry("AMS", "Amsterdam", "Netherlands", Airport),
    CodeEntry("MAD", "Madrid", "Spain", Airport),
    CodeEntry("FCO", "Rome", "Italy", Airport),
    CodeEntry("HKG", "Hong Kong", "Hong Kong", Airport),
    CodeEntry("SIN", "Singapore", "Singapore", Airport),
    CodeEntry("NRT", "Tokyo", "Japan", Airport),
    CodeEntry("ICN", "Seoul", "South Korea", Airport),
    CodeEntry("BKK", "Bangkok", "Thailand", Airport),
    CodeEntry("DXB", "Dubai", "UAE", Airport)
  ]

  /** Common misspellings and alternate names, `[typo, correct]`. */
  const TypoMap: seq<(string, string)> := [
    ("dilli", "Delhi"),
    ("delhhi", "Delhi"),
    ("dehli", "Delhi"),
    ("mumbai", "Mumbai"),
    ("bombay", "Mumbai"),
    ("vizag", "Visakhapatnam"),
    ("banglore", "Bangalore"),
    ("bengaluru", "Bangalore"),
    ("kolkatta", "Kolkata"),
    ("calcutta", "Kolkata"),
    ("madras", "Chennai"),
    ("newyork", "New York"),
    ("losangeles", "Los Angeles")
  ]

  /** `query.toLowerCase().trim()` */
  function Normalize(query: string): string {
    Trim(ToLower(query))
  }

  // ---------------------------------------------------------------------
  // Tier 1: code prefix hits
  // ---------------------------------------------------------------------

  function CodeCandidate(e: CodeEntry): Candidate {
    Candidate(e.name + ", " + e.country + " (" + e.code + ")", e.name, e.kind, 0)
  }

  /** The code-tier candidates, in table order: one per entry whose code
      starts with `upper`, all scored 0. */
  function CodeTier(codes: seq<CodeEntry>, upper: string): (r: seq<Candidate>)
    ensures |r| <= |codes|
    ensures forall k :: 0 <= k < |r| ==> r[k].score == 0
    decreases |codes|
  {
    if codes == [] then []
    else
      var e := codes[|codes| - 1];
      CodeTier(codes[..|codes| - 1], upper) + (if IsPrefix(upper, e.code) then [CodeCandidate(e)] else [])
  }

  // ---------------------------------------------------------------------
  // Tier 2: typo key prefix hits
  // ---------------------------------------------------------------------

  function TypoCandidate(correct: string): Candidate {
    Candidate(correct, correct, City, 1)
  }

  /** The typo-tier candidates, in table order: one per key starting with
      `normalized`, labelled and valued by the corrected name, of type
      city, scored 1. */
  function TypoTier(typos: seq<(string, string)>, normalized: string): (r: seq<Candidate>)
    ensures |r| <= |typos|
    ensures forall k :: 0 <= k < |r| ==> r[k].score == 1 && r[k].kind == City && r[k].caption == r[k].value
    decreases |typos|
  {
    if typos == [] then []
    else
      var t := typos[|typos| - 1];
      TypoTier(typos[..|typos| - 1], normalized) + (if IsPrefix(normalized, t.0) then [TypoCandidate(t.1)] else [])
  }

  // ---------------------------------------------------------------------
  // Tier 3: name substring hits
  // ---------------------------------------------------------------------

  /** The score of a name containing the query: 2 plus the edit distance
      between the query and the name's first |query| characters. It lies
      between 2 and 2 + |query|, and is 2 exactly when the name starts with
      the query. */
  function NameScore(normalized: string, name: string): (score: nat)
    requires Contains(ToLower(name), normalized)
    ensures 2 <= score <= 2 + |normalized|
    ensures score == 2 <==> IsPrefix(normalized, ToLower(name))
  {
    var lower := ToLower(name);
    ContainsLength(lower, normalized);
    var head := lower[..|normalized|];
    DistanceAtMostLonger(normalized, head);
    DistanceZeroIffEqual(normalized, head);
    Distance(normalized, head) + 2
  }

  function NameCandidate(e: CodeEntry, normalized: string): Candidate
    requires Contains(ToLower(e.name), normalized)
  {
    Candidate(e.name + ", " + e.country, e.name, e.kind, NameScore(normalized, e.name))
  }

  /** The name-tier candidates, in table order: one per entry whose
      lower-cased name contains `normalized`, each scored in
      [2, 2 + |normalized|]. */
  function NameTier(codes: seq<CodeEntry>, normalized: string): (r: seq<Candidate>)
    ensures |r| <= |codes|
    ensures forall k :: 0 <= k < |r| ==> 2 <= r[k].score <= 2 + |normalized|
    decreases |codes|
  {
    if codes == [] then []
    else
      var e := codes[|codes| - 1];
      NameTier(codes[..|codes| - 1], normalized)
        + (if Contains(ToLower(e.name), normalized) then [NameCandidate(e, normalized)] else [])
  }

  /** Everything the three loops push, in push order. */
  function Candidates(codes: seq<CodeEntry>, typos: seq<(string, string)>, query: string): seq<Candidate> {
    CodeTier(codes, ToUpper(query)) + TypoTier(typos, Normalize(query)) + NameTier(codes, Normalize(query))
  }

  // ---------------------------------------------------------------------
  // The pipeline: stable sort by score, first five, drop the score
  // ---------------------------------------------------------------------

  predicate Sorted(s: seq<Candidate>) {
    forall i, j :: 0 <= i < j < |s| ==> s[i].score <= s[j].score
  }

  /** Insertion in front of the first element scored at least as high, so
      that `x` precedes equal scores that come after it in the input. */
  function Insert(x: Candidate, s: seq<Candidate>): seq<Candidate> {
    if s == [] || x.score <= s[0].score then [x] + s else [s[0]] + Insert(x, s[1..])
  }

  /** `Array.prototype.sort` with comparator `a.score - b.score`, which is
      stable: insertion sort from the back. */
  function SortByScore(s: seq<Candidate>): seq<Candidate> {
    if s == [] then [] else Insert(s[0], SortByScore(s[1..]))
  }

  /** The candidates of one score, in their order. */
  function WithScore(s: seq<Candidate>, k: nat): seq<Candidate> {
    if s == [] then [] else (if s[0].score == k then [s[0]] else []) + WithScore(s[1..], k)
  }

  function Take(s: seq<Candidate>, n: nat): (r: seq<Candidate>)
    ensures |r| == if |s| <= n then |s| else n
    ensures r == s[..|r|]
  {
    if |s| <= n then s else s[..n]
  }

  function Project(s: seq<Candidate>): (r: seq<Suggestion>)
    ensures |r| == |s|
    ensures forall i :: 0 <= i < |s| ==> r[i] == Suggestion(s[i].caption, s[i].value, s[i].kind)
  {
    seq(|s|, i requires 0 <= i < |s| => Suggestion(s[i].caption, s[i].value, s[i].kind))
  }

  /** `.sort(...).slice(0, 5).map(...)` */
  function Finalize(candidates: seq<Candidate>): seq<Suggestion> {
    Project(Take(SortByScore(candidates), 5))
  }

  // ---------------------------------------------------------------------
  // What the pipeline guarantees
  // ---------------------------------------------------------------------

  predicate AllAtLeast(s: seq<Candidate>, m: nat) {
    forall i :: 0 <= i < |s| ==> s[i].score >= m
  }

  lemma {:induction false} InsertAtLeast(x: Candidate, s: seq<Candidate>, m: nat)
    requires AllAtLeast(s, m) && x.score >= m
    ensures AllAtLeast(Insert(x, s), m)
  {
    if s != [] && x.score > s[0].score {
      InsertAtLeast(x, s[1..], m);
    }
  }

  lemma {:induction false} SortAtLeast(s: seq<Candidate>, m: nat)
    requires AllAtLeast(s, m)
    ensures AllAtLeast(SortByScore(s), m)
  {
    if s != [] {
      SortAtLeast(s[1..], m);
      InsertAtLeast(s[0], SortByScore(s[1..]), m);
    }
  }

  lemma {:induction false} InsertSorted(x: Candidate, s: seq<Candidate>)
    requires Sorted(s)
    ensures Sorted(Insert(x, s))
  {
    if s != [] && x.score > s[0].score {
      InsertSorted(x, s[1..]);
      InsertAtLeast(x, s[1..], s[0].score);
    }
  }

  lemma {:induction false} InsertPermutes(x: Candidate, s: seq<Candidate>)
    ensures multiset(Insert(x, s)) == multiset(s) + multiset{x}
  {
    if s != [] && x.score > s[0].score {
      InsertPermutes(x, s[1..]);
      assert s == [s[0]] + s[1..];
    }
  }

  /** The sort neither loses nor adds a candidate. */
  lemma {:induction false} SortByScorePermutes(s: seq<Candidate>)
    ensures multiset(SortByScore(s)) == multiset(s)
  {
    if s != [] {
      SortByScorePermutes(s[1..]);
      InsertPermutes(s[0], SortByScore(s[1..]));
      assert s == [s[0]] + s[1..];
    }
  }

  /** The sort orders the candidates by non-decreasing score. */
  lemma {:induction false} SortByScoreSorted(s: seq<Candidate>)
    ensures Sorted(SortByScore(s))
  {
    if s != [] {
      SortByScoreSorted(s[1..]);
      InsertSorted(s[0], SortByScore(s[1..]));
    }
  }

  lemma WithScoreCons(y: Candidate, r: seq<Candidate>, k: nat)
    ensures WithScore([y] + r, k) == (if y.score == k then [y] else []) + WithScore(r, k)
  {
    assert ([y] + r)[0] == y && ([y] + r)[1..] == r;
  }

  lemma {:induction false} InsertWithScore(x: Candidate, s: seq<Candidate>, k: nat)
    ensures WithScore(Insert(x, s), k) == (if x.score == k then [x] else []) + WithScore(s, k)
  {
    if s == [] || x.score <= s[0].score {
      WithScoreCons(x, s, k);
    } else {
      var r := Insert(x, s[1..]);
      InsertWithScore(x, s[1..], k);
      WithScoreCons(s[0], r, k);
      WithScoreCons(s[0], s[1..], k);
      assert s == [s[0]] + s[1..];
    }
  }

  /** The sort is stable: the candidates of any one score keep their
      relative order. Together with sortedness and the multiset equality
      this fixes the sort's output completely. */
  lemma {:induction false} SortByScoreStable(s: seq<Candidate>, k: nat)
    ensures WithScore(SortByScore(s), k) == WithScore(s, k)
  {
    if s != [] {
      SortByScoreStable(s[1..], k);
      InsertWithScore(s[0], SortByScore(s[1..]), k);
    }
  }

  lemma InsertAtFront(x: Candidate, t: seq<Candidate>)
    requires AllAtLeast(t, x.score)
    ensures Insert(x, t) == [x] + t
  {
  }

  /** The head of a sorted run scored no higher than the rest is scored no
      higher than the tail of the run followed by the rest. */
  lemma HeadAtMost(a: seq<Candidate>, u: seq<Candidate>, m: nat)
    requires |a| > 0 && Sorted(a)
    requires a[0].score <= m && AllAtLeast(u, m)
    ensures AllAtLeast(a[1..] + u, a[0].score)
  {
    var t := a[1..] + u;
    forall i | 0 <= i < |t|
      ensures t[i].score >= a[0].score
    {
      if i < |a| - 1 {
        assert t[i] == a[i + 1];
      } else {
        assert t[i] == u[i - (|a| - 1)];
      }
    }
  }

  /** The tail of a sorted run scored at most `m` is one too. */
  lemma RunTail(a: seq<Candidate>, m: nat)
    requires |a| > 0 && Sorted(a)
    requires forall i :: 0 <= i < |a| ==> a[i].score <= m
    ensures Sorted(a[1..])
    ensures forall i :: 0 <= i < |a| - 1 ==> a[1..][i].score <= m
  {
    var rest := a[1..];
    assert forall i :: 0 <= i < |rest| ==> rest[i] == a[i + 1];
  }

  /** A sorted run whose scores are all at most those of the rest stays
      in front, unchanged, and only the rest is reordered. */
  lemma {:induction false} SortKeepsLowerRun(a: seq<Candidate>, b: seq<Candidate>, m: nat)
    requires Sorted(a)
    requires forall i :: 0 <= i < |a| ==> a[i].score <= m
    requires AllAtLeast(b, m)
    ensures SortByScore(a + b) == a + SortByScore(b)
  {
    if a == [] {
      assert a + b == b;
    } else {
      var rest := a[1..];
      assert (a + b)[0] == a[0] && (a + b)[1..] == rest + b;
      RunTail(a, m);
      SortKeepsLowerRun(rest, b, m);
      SortAtLeast(b, m);
      HeadAtMost(a, SortByScore(b), m);
      InsertAtFront(a[0], rest + SortByScore(b));
      calc {
        SortByScore(a + b);
        Insert(a[0], SortByScore(rest + b));
        Insert(a[0], rest + SortByScore(b));
        [a[0]] + (rest + SortByScore(b));
        { assert a == [a[0]] + rest; }
        a + SortByScore(b);
      }
    }
  }

  /** The ranked list is the code hits, then the typo hits, each in table
      order, then the name hits stably sorted by score; the result is its
      first five entries without scores, and those are in non-decreasing
      score order. So every name hit ranks after every code and typo hit. */
  lemma RankedTiers(codes: seq<CodeEntry>, typos: seq<(string, string)>, query: string)
    ensures var front := CodeTier(codes, ToUpper(query)) + TypoTier(typos, Normalize(query));
      SortByScore(Candidates(codes, typos, query)) == front + SortByScore(NameTier(codes, Normalize(query)))
    ensures Finalize(Candidates(codes, typos, query))
      == Project(Take(CodeTier(codes, ToUpper(query)) + TypoTier(typos, Normalize(query))
                      + SortByScore(NameTier(codes, Normalize(query))), 5))
    ensures Sorted(Take(SortByScore(Candidates(codes, typos, query)), 5))
  {
    var c := CodeTier(codes, ToUpper(query));
    var t := TypoTier(typos, Normalize(query));
    var n := NameTier(codes, Normalize(query));
    assert forall j | 0 <= j < |n| :: n[j].score >= 2;
    SortKeepsLowerRun(c + t, n, 2);
    SortByScoreSorted(Candidates(codes, typos, query));
  }

  /** A code-tier candidate exists exactly for each entry whose code
      starts with `upper`; its value is the location name and its label
      "Name, Country (CODE)". */
  lemma {:induction false} CodeTierMembers(codes: seq<CodeEntry>, upper: string, x: Candidate)
    ensures x in CodeTier(codes, upper) <==>
      exists k :: 0 <= k < |codes| && IsPrefix(upper, codes[k].code) && x == CodeCandidate(codes[k])
    decreases |codes|
  {
    if codes != [] {
      var init := codes[..|codes| - 1];
      CodeTierMembers(init, upper, x);
      assert forall k | 0 <= k < |init| :: init[k] == codes[k];
    }
  }

  /** A typo-tier candidate exists exactly for each typo key starting with
      `normalized`, and it carries the corrected name. */
  lemma {:induction false} TypoTierMembers(typos: seq<(string, string)>, normalized: string, x: Candidate)
    ensures x in TypoTier(typos, normalized) <==>
      exists k :: 0 <= k < |typos| && IsPrefix(normalized, typos[k].0) && x == TypoCandidate(typos[k].1)
    decreases |typos|
  {
    if typos != [] {
      var init := typos[..|typos| - 1];
      TypoTierMembers(init, normalized, x);
      assert forall k | 0 <= k < |init| :: init[k] == typos[k];
    }
  }

  /** A name-tier candidate exists exactly for each entry whose lower-cased
      name contains `normalized`. */
  lemma {:induction false} NameTierMembers(codes: seq<CodeEntry>, normalized: string, x: Candidate)
    ensures x in NameTier(codes, normalized) <==>
      exists k :: 0 <= k < |codes| && Contains(ToLower(codes[k].name), normalized)
        && x == NameCandidate(codes[k], normalized)
    decreases |codes|
  {
    if codes != [] {
      var init := codes[..|codes| - 1];
      NameTierMembers(init, normalized, x);
      assert forall k | 0 <= k < |init| :: init[k] == codes[k];
    }
  }

  /** When the first entry is a code hit, it is the first candidate. */
  lemma {:induction false} CodeTierFirst(codes: seq<CodeEntry>, upper: string)
    requires |codes| > 0 && IsPrefix(upper, codes[0].code)
    ensures |CodeTier(codes, upper)| > 0 && CodeTier(codes, upper)[0] == CodeCandidate(codes[0])
    decreases |codes|
  {
    if |codes| > 1 {
      CodeTierFirst(codes[..|codes| - 1], upper);
    }
  }

  /** When the first entry is a name hit, it is the first name candidate. */
  lemma {:induction false} NameTierFirst(codes: seq<CodeEntry>, normalized: string)
    requires |codes| > 0 && Contains(ToLower(codes[0].name), normalized)
    ensures |NameTier(codes, normalized)| > 0 && NameTier(codes, normalized)[0] == NameCandidate(codes[0], normalized)
    decreases |codes|
  {
    if |codes| > 1 {
      NameTierFirst(codes[..|codes| - 1], normalized);
    }
  }

  /** Every candidate of every tier is ranked: the sort drops nothing and
      nothing removes candidates with a value already seen. */
  lemma EveryCandidateRanked(codes: seq<CodeEntry>, typos: seq<(string, string)>, query: string, x: Candidate)
    requires x in Candidates(codes, typos, query)
    ensures x in SortByScore(Candidates(codes, typos, query))
  {
    var c := Candidates(codes, typos, query);
    SortByScorePermutes(c);
    assert x in multiset(c);
  }

  /** The resolver reads the query only through its upper-cased and its
      lower-cased trimmed forms, so queries that differ only in letter
      case have the same length and the same candidates. */
  lemma CandidatesIgnoreCase(codes: seq<CodeEntry>, typos: seq<(string, string)>, q1: string, q2: string)
    requires ToLower(q1) == ToLower(q2)
    ensures |q1| == |q2|
    ensures Candidates(codes, typos, q1) == Candidates(codes, typos, q2)
  {
    SameLowerSameUpper(q1, q2);
  }

  /** With no entry hitting, the code tier is empty. */
  lemma {:induction false} CodeTierNone(codes: seq<CodeEntry>, upper: string)
    requires forall j :: 0 <= j < |codes| ==> !IsPrefix(upper, codes[j].code)
    ensures CodeTier(codes, upper) == []
    decreases |codes|
  {
    if codes != [] {
      var init := codes[..|codes| - 1];
      assert forall j :: 0 <= j < |init| ==> init[j] == codes[j];
      CodeTierNone(init, upper);
    }
  }

  /** With entry k the only one hitting, the code tier is its candidate. */
  lemma {:induction false} CodeTierSole(codes: seq<CodeEntry>, upper: string, k: nat)
    requires k < |codes| && IsPrefix(upper, codes[k].code)
    requires forall j :: 0 <= j < |codes| && j != k ==> !IsPrefix(upper, codes[j].code)
    ensures CodeTier(codes, upper) == [CodeCandidate(codes[k])]
    decreases |codes|
  {
    var init := codes[..|codes| - 1];
    assert forall j :: 0 <= j < |init| ==> init[j] == codes[j];
    if k == |codes| - 1 {
      CodeTierNone(init, upper);
    } else {
      CodeTierSole(init, upper, k);
    }
  }

  /** With no key hitting, the typo tier is empty. */
  lemma {:induction false} TypoTierNone(typos: seq<(string, string)>, normalized: string)
    requires forall j :: 0 <= j < |typos| ==> !IsPrefix(normalized, typos[j].0)
    ensures TypoTier(typos, normalized) == []
    decreases |typos|
  {
    if typos != [] {
      var init := typos[..|typos| - 1];
      assert forall j :: 0 <= j < |init| ==> init[j] == typos[j];
      TypoTierNone(init, normalized);
    }
  }

  /** With key k the only one hitting, the typo tier is its correction. */
  lemma {:induction false} TypoTierSole(typos: seq<(string, string)>, normalized: string, k: nat)
    requires k < |typos| && IsPrefix(normalized, typos[k].0)
    requires forall j :: 0 <= j < |typos| && j != k ==> !IsPrefix(normalized, typos[j].0)
    ensures TypoTier(typos, normalized) == [TypoCandidate(typos[k].1)]
    decreases |typos|
  {
    var init := typos[..|typos| - 1];
    assert forall j :: 0 <= j < |init| ==> init[j] == typos[j];
    if k == |typos| - 1 {
      TypoTierNone(init, normalized);
    } else {
      TypoTierSole(init, normalized, k);
    }
  }

  /** A first candidate scored no higher than any other stays first. */
  lemma SortKeepsLowestFirst(s: seq<Candidate>)
    requires |s| > 0 && AllAtLeast(s, s[0].score)
    ensures |SortByScore(s)| > 0 && SortByScore(s)[0] == s[0]
  {
    SortAtLeast(s[1..], s[0].score);
    InsertAtFront(s[0], SortByScore(s[1..]));
  }

  /** A query that hits only the first entry's code and only one typo key,
      correcting to that entry's name, and that starts the entry's
      lower-cased name: the first three suggestions are the code hit, the
      typo correction and the name hit, all with the entry's name as
      value. No duplicate by value is removed. */
  lemma {:induction false} SoleHitsQuery(codes: seq<CodeEntry>, typos: seq<(string, string)>, query: string, t: nat)
    requires |codes| > 0 && IsPrefix(ToUpper(query), codes[0].code)
    requires forall j :: 1 <= j < |codes| ==> !IsPrefix(ToUpper(query), codes[j].code)
    requires IsPrefix(Normalize(query), ToLower(codes[0].name))
    requires t < |typos| && IsPrefix(Normalize(query), typos[t].0) && typos[t].1 == codes[0].name
    requires forall j :: 0 <= j < |typos| && j != t ==> !IsPrefix(Normalize(query), typos[j].0)
    ensures var r := Finalize(Candidates(codes, typos, query));
      && |r| >= 3
      && r[0] == Suggestion(CodeCandidate(codes[0]).caption, codes[0].name, codes[0].kind)
      && r[1] == Suggestion(codes[0].name, codes[0].name, City)
      && r[2] == Suggestion(codes[0].name + ", " + codes[0].country, codes[0].name, codes[0].kind)
  {
    var e := codes[0];
    var n := Normalize(query);
    SoleTiers(codes, typos, query, t);
    NameHitFirst(codes, n);
    var ranked := SortByScore(Candidates(codes, typos, query));
    assert ranked[2] == SortByScore(NameTier(codes, n))[0];
    TakeFive(ranked, 0);
    TakeFive(ranked, 1);
    TakeFive(ranked, 2);
  }

  /** Under the hypotheses of `SoleHitsQuery`, the ranked list is the code
      hit, then the typo correction, then the sorted name hits. */
  lemma {:induction false} SoleTiers(codes: seq<CodeEntry>, typos: seq<(string, string)>, query: string, t: nat)
    requires |codes| > 0 && IsPrefix(ToUpper(query), codes[0].code)
    requires forall j :: 1 <= j < |codes| ==> !IsPrefix(ToUpper(query), codes[j].code)
    requires t < |typos| && IsPrefix(Normalize(query), typos[t].0) && typos[t].1 == codes[0].name
    requires forall j :: 0 <= j < |typos| && j != t ==> !IsPrefix(Normalize(query), typos[j].0)
    ensures SortByScore(Candidates(codes, typos, query))
      == [CodeCandidate(codes[0]), TypoCandidate(codes[0].name)] + SortByScore(NameTier(codes, Normalize(query)))
  {
    var names := NameTier(codes, Normalize(query));
    var front := [CodeCandidate(codes[0]), TypoCandidate(codes[0].name)];
    SoleFront(codes, typos, query, t);
    assert |front| == 2 && front[0].score == 0 && front[1].score == 1;
    assert Sorted(front);
    assert forall j | 0 <= j < |names| :: names[j].score >= 2;
    SortKeepsLowerRun(front, names, 2);
  }

  /** The code tier and the typo tier each hold one candidate. */
  lemma {:induction false} SoleFront(codes: seq<CodeEntry>, typos: seq<(string, string)>, query: string, t: nat)
    requires |codes| > 0 && IsPrefix(ToUpper(query), codes[0].code)
    requires forall j :: 1 <= j < |codes| ==> !IsPrefix(ToUpper(query), codes[j].code)
    requires t < |typos| && IsPrefix(Normalize(query), typos[t].0) && typos[t].1 == codes[0].name
    requires forall j :: 0 <= j < |typos| && j != t ==> !IsPrefix(Normalize(query), typos[j].0)
    ensures Candidates(codes, typos, query)
      == [CodeCandidate(codes[0]), TypoCandidate(codes[0].name)] + NameTier(codes, Normalize(query))
  {
    var up := ToUpper(query);
    var n := Normalize(query);
    CodeTierSole(codes, up, 0);
    TypoTierSole(typos, n, t);
    assert CodeTier(codes, up) + TypoTier(typos, n) == [CodeCandidate(codes[0]), TypoCandidate(codes[0].name)];
  }

  /** An entry 0 whose lower-cased name starts with the query is the first
      name hit after the sort, scored 2. */
  lemma {:induction false} NameHitFirst(codes: seq<CodeEntry>, normalized: string)
    requires |codes| > 0 && IsPrefix(normalized, ToLower(codes[0].name))
    ensures var sorted := SortByScore(NameTier(codes, normalized));
      && |sorted| > 0
      && sorted[0] == Candidate(codes[0].name + ", " + codes[0].country, codes[0].name, codes[0].kind, 2)
  {
    ContainsAt(ToLower(codes[0].name), normalized, 0);
    NameTierFirst(codes, normalized);
    var names := NameTier(codes, normalized);
    assert names[0].score == 2;
    SortKeepsLowestFirst(names);
  }

  /** Entry i of the ranked list, for i below five, is suggestion i. */
  lemma TakeFive(ranked: seq<Candidate>, i: nat)
    requires i < |ranked| && i < 5
    ensures var r := Project(Take(ranked, 5));
      i < |r| && r[i] == Suggestion(ranked[i].caption, ranked[i].value, ranked[i].kind)
  {
  }

  /** No code but DEL starts with "DEL". */
  lemma DelCodeMisses(upper: string)
    requires upper == "DEL"
    ensures forall j :: 1 <= j < |LocationCodeTable| ==> !IsPrefix(upper, LocationCodeTable[j].code)
  {
    forall j | 1 <= j < |LocationCodeTable|
      ensures !IsPrefix(upper, LocationCodeTable[j].code)
    {
      var code := LocationCodeTable[j].code;
      assert code[0] != 'D' || code[1] != 'E';
    }
  }

  /** No typo key but "delhhi" starts with "del". */
  lemma DelTypoMisses(normalized: string)
    requires normalized == "del"
    ensures forall j :: 0 <= j < |TypoMap| && j != 1 ==> !IsPrefix(normalized, TypoMap[j].0)
  {
    forall j | 0 <= j < |TypoMap| && j != 1
      ensures !IsPrefix(normalized, TypoMap[j].0)
    {
      var key := TypoMap[j].0;
      assert key[0] != 'd' || key[1] != 'e' || key[2] != 'l';
    }
  }

  /** The table entries the query "del" meets. */
  lemma DelEntries()
    ensures LocationCodeTable[0] == CodeEntry("DEL", "Delhi", "India", Airport)
    ensures TypoMap[1] == ("delhhi", "Delhi")
  {
  }

  /** The normal forms of the query "del" and of the name "Delhi". */
  lemma DelForms()
    ensures ToUpper("del") == "DEL" && Normalize("del") == "del"
    ensures ToLower("Delhi") == "delhi"
  {
  }

  lemma DelLabels()
    ensures "Delhi" + ", " + "India" + " (" + "DEL" + ")" == "Delhi, India (DEL)"
    ensures "Delhi" + ", " + "India" == "Delhi, India"
  {
  }

  lemma DelMatches()
    ensures IsPrefix("DEL", "DEL") && IsPrefix("del", "delhhi") && IsPrefix("del", "delhi")
    ensures Contains("delhi", "del")
  {
    ContainsAt("delhi", "del", 0);
  }

  /** A query that is a prefix of the first entry's code and of its
      lower-cased name, and of some typo key correcting to that name: the
      first suggestion is that entry's code hit, and the ranked list also
      holds the typo correction and the name hit, all with the entry's name
      as value. No duplicate is removed. */
  lemma {:induction false} SharedNameQuery(codes: seq<CodeEntry>, typos: seq<(string, string)>, query: string, t: nat)
    requires |codes| > 0 && IsPrefix(ToUpper(query), codes[0].code)
    requires IsPrefix(Normalize(query), ToLower(codes[0].name))
    requires t < |typos| && IsPrefix(Normalize(query), typos[t].0) && typos[t].1 == codes[0].name
    ensures var r := Finalize(Candidates(codes, typos, query));
      |r| >= 1 && r[0] == Suggestion(CodeCandidate(codes[0]).caption, codes[0].name, codes[0].kind)
    ensures var ranked := SortByScore(Candidates(codes, typos, query));
      && CodeCandidate(codes[0]) in ranked
      && TypoCandidate(codes[0].name) in ranked
      && Candidate(codes[0].name + ", " + codes[0].country, codes[0].name, codes[0].kind, 2) in ranked
  {
    var e := codes[0];
    var n := Normalize(query);
    CodeTierFirst(codes, ToUpper(query));
    RankedTiers(codes, typos, query);
    CodeTierMembers(codes, ToUpper(query), CodeCandidate(e));
    EveryCandidateRanked(codes, typos, query, CodeCandidate(e));
    TypoTierMembers(typos, n, TypoCandidate(e.name));
    EveryCandidateRanked(codes, typos, query, TypoCandidate(e.name));
    ContainsAt(ToLower(e.name), n, 0);
    NameTierMembers(codes, n, NameCandidate(e, n));
    EveryCandidateRanked(codes, typos, query, NameCandidate(e, n));
  }

  /** The query "del" yields Delhi first, from the code DEL, and Delhi
      again from the typo "delhhi" and from the name. */
  lemma DelQuery()
    ensures var r := Finalize(Candidates(LocationCodeTable, TypoMap, "del"));
      && |r| >= 3
      && r[0] == Suggestion("Delhi, India (DEL)", "Delhi", Airport)
      && r[1] == Suggestion("Delhi", "Delhi", City)
      && r[2] == Suggestion("Delhi, India", "Delhi", Airport)
    ensures var ranked := SortByScore(Candidates(LocationCodeTable, TypoMap, "del"));
      && Candidate("Delhi, India (DEL)", "Delhi", Airport, 0) in ranked
      && Candidate("Delhi", "Delhi", City, 1) in ranked
      && Candidate("Delhi, India", "Delhi", Airport, 2) in ranked
  {
    DelEntries();
    DelForms();
    DelMatches();
    DelLabels();
    SharedNameQuery(LocationCodeTable, TypoMap, "del", 1);
    DelCodeMisses(ToUpper("del"));
    DelTypoMisses(Normalize("del"));
    SoleHitsQuery(LocationCodeTable, TypoMap, "del", 1);
  }

  // ---------------------------------------------------------------------
  // getLocationSuggestions
  // ---------------------------------------------------------------------

  /** The first loop: push a score-0 candidate for every code starting
      with `upper`. */
  method CollectCodeHits(codes: seq<CodeEntry>, upper: string) returns (hits: seq<Candidate>)
    ensures hits == CodeTier(codes, upper)
  {
    hits := [];
    for i := 0 to |codes|
      invariant hits == CodeTier(codes[..i], upper)
    {
      var e := codes[i];
      assert codes[..i + 1][..i] == codes[..i];
      if IsPrefix(upper, e.code) {
        hits := hits + [CodeCandidate(e)];
      }
    }
    assert codes[..|codes|] == codes;
  }

  /** The second loop: push a score-1 candidate for every typo key
      starting with `normalized`. */
  method CollectTypoHits(typos: seq<(string, string)>, normalized: string) returns (hits: seq<Candidate>)
    ensures hits == TypoTier(typos, normalized)
  {
    hits := [];
    for i := 0 to |typos|
      invariant hits == TypoTier(typos[..i], normalized)
    {
      var t := typos[i];
      assert typos[..i + 1][..i] == typos[..i];
      if IsPrefix(normalized, t.0) {
        hits := hits + [TypoCandidate(t.1)];
      }
    }
    assert typos[..|typos|] == typos;
  }

  /** The third loop: push a candidate for every name containing
      `normalized`, scored with the matrix computation of the distance. */
  method CollectNameHits(codes: seq<CodeEntry>, normalized: string) returns (hits: seq<Candidate>)
    ensures hits == NameTier(codes, normalized)
  {
    hits := [];
    for i := 0 to |codes|
      invariant hits == NameTier(codes[..i], normalized)
    {
      var e := codes[i];
      assert codes[..i + 1][..i] == codes[..i] && codes[..i + 1][i] == e;
      var locationName := ToLower(e.name);
      if Contains(locationName, normalized) {
        ContainsLength(locationName, normalized);
        var distance := LevenshteinDistance(normalized, locationName[..|normalized|]);
        assert distance + 2 == NameScore(normalized, e.name);
        hits := hits + [Candidate(e.name + ", " + e.country, e.name, e.kind, distance + 2)];
      }
    }
    assert codes[..|codes|] == codes;
  }

  /** `getLocationSuggestions`: a query of fewer than two characters,
      counted before trimming, gives no suggestions; otherwise the three
      tiers are collected in order and passed through the pipeline. */
  method GetLocationSuggestions(query: string) returns (r: seq<Suggestion>)
    ensures |query| < 2 ==> r == []
    ensures |query| >= 2 ==> r == Finalize(Candidates(LocationCodeTable, TypoMap, query))
    ensures |r| <= 5
  {
    if |query| < 2 {
      return [];
    }
    var normalized := Normalize(query);
    var upperQuery := ToUpper(query);
    var codeHits := CollectCodeHits(LocationCodeTable, upperQuery);
    var typoHits := CollectTypoHits(TypoMap, normalized);
    var nameHits := CollectNameHits(LocationCodeTable, normalized);
    var suggestions := codeHits + typoHits + nameHits;
    r := Project(Take(SortByScore(suggestions), 5));
  }
}
