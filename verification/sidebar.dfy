/** The prompt list of the application sidebar (components/app-sidebar.tsx): the
    prompt named by the current URL, the capped most-recent-first list it is added
    to, and the case-insensitive search over that list. */
module Sidebar {
  import opened Common

  /** The list never grows past this many entries by an addition. */
  const MaxRecentPrompts := 10

  /** The list the sidebar starts with. */
  const InitialRecentPrompts: seq<string> := [
    "best seo practices for e-commerce",
    "how to optimize content for featured snippets",
    "ai search engine ranking factors",
    "structured data for better visibility",
    "keyword research for ai search"
  ]

  lemma InitialRecentPromptsWellFormed()
    ensures |InitialRecentPrompts| == 5 <= MaxRecentPrompts
    ensures Distinct(InitialRecentPrompts)
    ensures forall i :: 0 <= i < |InitialRecentPrompts| ==> InitialRecentPrompts[i] != ""
  {
  }

  // ---------------------------------------------------------------------------
  // The prompt in the URL: /\/prompts\/([^/]+)/ then decodeURIComponent
  // ---------------------------------------------------------------------------

  const PromptsPrefix := "/prompts/"

  /** The pattern matches at `i`: the literal "/prompts/" followed by at least one
      character other than '/'. */
  predicate MatchesAt(path: string, i: int) {
    0 <= i && i + |PromptsPrefix| < |path|
    && path[i..i + |PromptsPrefix|] == PromptsPrefix
    && path[i + |PromptsPrefix|] != '/'
  }

  /** The end of the run of non-'/' characters that starts at `j`. */
  function SegmentEnd(path: string, j: nat): (e: nat)
    requires j <= |path|
    ensures j <= e <= |path|
    ensures forall k :: j <= k < e ==> path[k] != '/'
    ensures e < |path| ==> path[e] == '/'
    decreases |path| - j
  {
    if j == |path| || path[j] == '/' then j else SegmentEnd(path, j + 1)
  }

  /** The leftmost position at or after `from` where the pattern matches. */
  function FirstMatchFrom(path: string, from: nat): (r: Option<nat>)
    ensures r.None? ==> forall i :: from <= i ==> !MatchesAt(path, i)
    ensures r.Some? ==> from <= r.value && MatchesAt(path, r.value)
                        && forall i :: from <= i < r.value ==> !MatchesAt(path, i)
    decreases |path| - from
  {
    if from + |PromptsPrefix| >= |path| then None
    else if MatchesAt(path, from) then Some(from)
    else FirstMatchFrom(path, from + 1)
  }

  /** The capture group of the first match: the leftmost "/prompts/" that is followed
      by a non-'/' character, and then as many non-'/' characters as there are. */
  function ExtractPromptSegment(pathname: Option<string>): (r: Option<string>)
    ensures r.None? <==> pathname.None? || forall i :: !MatchesAt(pathname.value, i)
    ensures r.Some? ==>
              var path := pathname.value;
              exists i :: && MatchesAt(path, i)
                          && (forall k :: 0 <= k < i ==> !MatchesAt(path, k))
                          && r.value == path[i + |PromptsPrefix|..SegmentEnd(path, i + |PromptsPrefix|)]
    ensures r.Some? ==> |r.value| > 0 && forall k :: 0 <= k < |r.value| ==> r.value[k] != '/'
  {
    match pathname
    case None => None
    case Some(path) =>
      match FirstMatchFrom(path, 0)
      case None => None
      case Some(i) =>
        var start := i + |PromptsPrefix|;
        Some(path[start..SegmentEnd(path, start)])
  }

  /** The sidebar's own links have the form /prompts/{segment}/...; reading such a
      path back gives the segment, whatever follows it. */
  lemma ExtractFromPromptLink(segment: string, suffix: string)
    requires |segment| > 0 && forall k :: 0 <= k < |segment| ==> segment[k] != '/'
    requires |suffix| == 0 || suffix[0] == '/'
    ensures ExtractPromptSegment(Some(PromptsPrefix + segment + suffix)) == Some(segment)
  {
    var path := PromptsPrefix + segment + suffix;
    var n := |PromptsPrefix|;
    assert path[..n] == PromptsPrefix;
    assert path[n] == segment[0];
    assert MatchesAt(path, 0);
    var e := SegmentEnd(path, n);
    assert forall k :: n <= k < n + |segment| ==> path[k] == segment[k - n];
    assert n + |segment| < |path| ==> path[n + |segment|] == suffix[0];
    assert e == n + |segment|;
    assert path[n..e] == segment;
  }

  /** A pathname with no "/prompts/" in it names no prompt. */
  lemma NoPromptOutsidePromptPages(path: string)
    requires forall i :: !OccursAt(path, PromptsPrefix, i)
    ensures ExtractPromptSegment(Some(path)) == None
  {
    forall i | MatchesAt(path, i)
      ensures OccursAt(path, PromptsPrefix, i)
    {
    }
  }

  /** `currentPrompt`: the decoded capture group, or null. `decodeURIComponent` is
      passed in, uninterpreted. */
  function CurrentPrompt(pathname: Option<string>, decode: string -> string): (r: Option<string>)
    ensures r.Some? <==> ExtractPromptSegment(pathname).Some?
    ensures r.Some? ==> r.value == decode(ExtractPromptSegment(pathname).value)
  {
    match ExtractPromptSegment(pathname)
    case None => None
    case Some(segment) => Some(decode(segment))
  }

  // ---------------------------------------------------------------------------
  // Recent prompts
  // ---------------------------------------------------------------------------

  /** JavaScript truthiness of `currentPrompt`: null and the empty string are falsy. */
  predicate Truthy(current: Option<string>) {
    current.Some? && current.value != ""
  }

  /** The effect that records the current prompt: a truthy prompt not yet in the
      list goes to the front, and the list is cut to its first ten entries;
      otherwise the list is left as it is. */
  function AddCurrentPrompt(current: Option<string>, prev: seq<string>): (r: seq<string>)
    ensures !Truthy(current) || current.value in prev ==> r == prev
    ensures Truthy(current) && current.value !in prev ==>
              && |r| == Min(MaxRecentPrompts, |prev| + 1)
              && r[0] == current.value
              && r[1..] == prev[..|r| - 1]
  {
    if !Truthy(current) || current.value in prev then prev
    else ([current.value] + prev)[..Min(MaxRecentPrompts, |prev| + 1)]
  }

  /** After the effect a truthy current prompt is in the list, and the list is no
      longer than ten unless it already was. */
  lemma AddCurrentPromptBounds(current: Option<string>, prev: seq<string>)
    ensures var r := AddCurrentPrompt(current, prev);
            && (Truthy(current) ==> current.value in r)
            && |r| <= (if |prev| > MaxRecentPrompts then |prev| else MaxRecentPrompts)
            && (|prev| < MaxRecentPrompts ==> forall p :: p in prev ==> p in r)
  {
    var r := AddCurrentPrompt(current, prev);
    if Truthy(current) && current.value !in prev {
      assert r[0] == current.value;
      forall p | p in prev && |prev| < MaxRecentPrompts
        ensures p in r
      {
        var k :| 0 <= k < |prev| && prev[k] == p;
        assert r[k + 1] == r[1..][k];
      }
    }
  }

  /** When a new prompt arrives with the list full, exactly the oldest entry drops out. */
  lemma AddCurrentPromptEvictsOldest(current: Option<string>, prev: seq<string>)
    requires Truthy(current) && current.value !in prev && |prev| == MaxRecentPrompts
    ensures AddCurrentPrompt(current, prev) == [current.value] + prev[..|prev| - 1]
  {
  }

  /** Adding never introduces a duplicate. */
  lemma AddCurrentPromptKeepsDistinct(current: Option<string>, prev: seq<string>)
    requires Distinct(prev)
    ensures Distinct(AddCurrentPrompt(current, prev))
  {
    var r := AddCurrentPrompt(current, prev);
    if Truthy(current) && current.value !in prev {
      forall i, j | 0 <= i < j < |r|
        ensures r[i] != r[j]
      {
        assert r[j] == prev[j - 1];
        if i > 0 {
          assert r[i] == prev[i - 1];
        }
      }
    }
  }

  /** The effect re-runs whenever the list changes; its second run changes nothing,
      so it settles after one update. */
  lemma AddCurrentPromptIdempotent(current: Option<string>, prev: seq<string>)
    ensures AddCurrentPrompt(current, AddCurrentPrompt(current, prev)) == AddCurrentPrompt(current, prev)
  {
    if Truthy(current) && current.value !in prev {
      assert current.value in AddCurrentPrompt(current, prev) by {
        AddCurrentPromptBounds(current, prev);
      }
    }
  }

  /** The list after visiting the given pathnames in order, starting from the initial one. */
  function AfterVisits(pathnames: seq<Option<string>>, decode: string -> string): seq<string> {
    if |pathnames| == 0 then InitialRecentPrompts
    else AddCurrentPrompt(CurrentPrompt(pathnames[|pathnames| - 1], decode),
                          AfterVisits(pathnames[..|pathnames| - 1], decode))
  }

  /** Whatever pages are visited, the list holds at most ten prompts, none twice,
      none empty. */
  lemma {:induction false} AfterVisitsWellFormed(pathnames: seq<Option<string>>, decode: string -> string)
    ensures var r := AfterVisits(pathnames, decode);
            && |r| <= MaxRecentPrompts
            && Distinct(r)
            && forall i :: 0 <= i < |r| ==> r[i] != ""
  {
    if |pathnames| == 0 {
      InitialRecentPromptsWellFormed();
    } else {
      var init := pathnames[..|pathnames| - 1];
      var prev := AfterVisits(init, decode);
      var current := CurrentPrompt(pathnames[|pathnames| - 1], decode);
      AfterVisitsWellFormed(init, decode);
      AddCurrentPromptBounds(current, prev);
      AddCurrentPromptKeepsDistinct(current, prev);
      var r := AddCurrentPrompt(current, prev);
      if Truthy(current) && current.value !in prev {
        forall i | 0 <= i < |r|
          ensures r[i] != ""
        {
          if i > 0 {
            assert r[i] == prev[i - 1];
          }
        }
      }
    }
  }

  // ---------------------------------------------------------------------------
  // Search
  // ---------------------------------------------------------------------------

  /** `toLowerCase` on one character, for the ASCII letters. */
  function LowerChar(c: char): (r: char)
    ensures 'A' <= c <= 'Z' ==> r as int == c as int + 32
    ensures !('A' <= c <= 'Z') ==> r == c
  {
    if 'A' <= c <= 'Z' then (c as int + 32) as char else c
  }

  function Lower(s: string): (r: string)
    ensures |r| == |s|
    ensures forall i :: 0 <= i < |s| ==> r[i] == LowerChar(s[i])
  {
    if |s| == 0 then [] else [LowerChar(s[0])] + Lower(s[1..])
  }

  /** `sub` occurs in `s` starting at `i`. */
  predicate OccursAt(s: string, sub: string, i: int) {
    0 <= i && i + |sub| <= |s| && s[i..i + |sub|] == sub
  }

  /** `String.prototype.includes`. */
  function Includes(s: string, sub: string): (r: bool)
    ensures r <==> exists i :: OccursAt(s, sub, i)
    decreases |s|
  {
    if |sub| > |s| then false
    else if s[..|sub|] == sub then
      assert OccursAt(s, sub, 0);
      true
    else
      var rest := Includes(s[1..], sub);
      if rest then
        var i :| OccursAt(s[1..], sub, i);
        assert s[i + 1..i + 1 + |sub|] == s[1..][i..i + |sub|];
        assert OccursAt(s, sub, i + 1);
        true
      else
        assert !OccursAt(s, sub, 0);
        forall i | 1 <= i && OccursAt(s, sub, i)
          ensures OccursAt(s[1..], sub, i - 1)
        {
          assert s[1..][i - 1..i - 1 + |sub|] == s[i..i + |sub|];
        }
        false
  }

  /** The search predicate: `p.toLowerCase().includes(term.toLowerCase())`. */
  predicate MatchesSearch(term: string, p: string) {
    Includes(Lower(p), Lower(term))
  }

  /** `filteredPrompts`: the whole list for an empty search term, otherwise the
      prompts that contain the term ignoring case, in list order. */
  function FilterPrompts(term: string, prompts: seq<string>): (r: seq<string>)
    ensures term == "" ==> r == prompts
    ensures forall p :: p in r <==> p in prompts && (term == "" || MatchesSearch(term, p))
    ensures |r| <= |prompts|
  {
    if term == "" then prompts else Keep(term, prompts)
  }

  function Keep(term: string, prompts: seq<string>): (r: seq<string>)
    ensures forall p :: p in r <==> p in prompts && MatchesSearch(term, p)
    ensures |r| <= |prompts|
  {
    if |prompts| == 0 then []
    else (if MatchesSearch(term, prompts[0]) then [prompts[0]] else []) + Keep(term, prompts[1..])
  }

  /** The search keeps the list's order and drops entries without reordering them. */
  lemma {:induction false} KeepIsSubsequence(term: string, prompts: seq<string>)
    ensures IsSubsequence(Keep(term, prompts), prompts)
    decreases |prompts|
  {
    if |prompts| > 0 {
      KeepIsSubsequence(term, prompts[1..]);
      var rest := Keep(term, prompts[1..]);
      if MatchesSearch(term, prompts[0]) {
        assert ([prompts[0]] + rest)[1..] == rest;
      } else {
        assert [] + rest == rest;
        SubsequenceOfLonger(rest, prompts);
      }
    }
  }

  /** Each prompt the search keeps appears as often as in the list; the others not at all. */
  lemma {:induction false} KeepCounts(term: string, prompts: seq<string>, p: string)
    ensures multiset(Keep(term, prompts))[p] == if MatchesSearch(term, p) then multiset(prompts)[p] else 0
    decreases |prompts|
  {
    if |prompts| > 0 {
      var head := if MatchesSearch(term, prompts[0]) then [prompts[0]] else [];
      KeepCounts(term, prompts[1..], p);
      HeadTail(prompts);
      assert multiset(prompts) == multiset{prompts[0]} + multiset(prompts[1..]);
      assert multiset(Keep(term, prompts)) == multiset(head) + multiset(Keep(term, prompts[1..]));
    }
  }

  /** The search ignores case: terms that lower to the same string filter alike. */
  lemma FilterIgnoresCase(term1: string, term2: string, prompts: seq<string>)
    requires Lower(term1) == Lower(term2)
    ensures FilterPrompts(term1, prompts) == FilterPrompts(term2, prompts)
  {
    assert |term1| == |term2|;
    if term1 != "" {
      KeepSameSearch(term1, term2, prompts);
    }
  }

  lemma {:induction false} KeepSameSearch(term1: string, term2: string, prompts: seq<string>)
    requires Lower(term1) == Lower(term2)
    ensures Keep(term1, prompts) == Keep(term2, prompts)
    decreases |prompts|
  {
    if |prompts| > 0 {
      KeepSameSearch(term1, term2, prompts[1..]);
    }
  }

  /** The search keeps no duplicates when the list has none. */
  lemma {:induction false} KeepKeepsDistinct(term: string, prompts: seq<string>)
    requires Distinct(prompts)
    ensures Distinct(Keep(term, prompts))
    decreases |prompts|
  {
    if |prompts| > 0 {
      KeepKeepsDistinct(term, prompts[1..]);
      var rest := Keep(term, prompts[1..]);
      assert prompts[0] !in prompts[1..];
      assert prompts[0] !in rest;
    }
  }

  /** `filteredPrompts` is the list with the non-matching prompts struck out: the
      survivors keep their order and their multiplicity, and a list without
      duplicates yields one without duplicates. */
  lemma FilterPromptsIsSublist(term: string, prompts: seq<string>, p: string)
    ensures IsSubsequence(FilterPrompts(term, prompts), prompts)
    ensures multiset(FilterPrompts(term, prompts))[p]
         == if term == "" || MatchesSearch(term, p) then multiset(prompts)[p] else 0
    ensures Distinct(prompts) ==> Distinct(FilterPrompts(term, prompts))
  {
    if term == "" {
      SubsequenceOfItself(prompts);
    } else {
      KeepIsSubsequence(term, prompts);
      KeepCounts(term, prompts, p);
      if Distinct(prompts) {
        KeepKeepsDistinct(term, prompts);
      }
    }
  }
}
