/** The records of the prompt index and the list operations the index is built from:
    the `filter` that drops one prompt, the `find` that looks one up, and the
    newest-first stable sort that `storeAnalysis` applies after appending. */
module Records {
  import opened Common

  /** One entry of the index: the prompt text, the backend job id, and the
      creation time in milliseconds. */
  datatype Record = Record(prompt: string, requestId: string, timestamp: int)

  /** Most recent first: timestamps never increase along the list. */
  predicate NewestFirst(s: seq<Record>) {
    forall i, j :: 0 <= i < j < |s| ==> s[i].timestamp >= s[j].timestamp
  }

  /** The head of a newest-first list is at least as recent as everything after it. */
  lemma HeadIsNewest(s: seq<Record>)
    requires |s| > 0 && NewestFirst(s)
    ensures forall y :: y in s[1..] ==> s[0].timestamp >= y.timestamp
  {
    forall y | y in s[1..]
      ensures s[0].timestamp >= y.timestamp
    {
      var k :| 0 <= k < |s[1..]| && s[1..][k] == y;
      assert s[k + 1] == y;
    }
  }

  /** A record at least as recent as everything in a newest-first list may lead it. */
  lemma NewestFirstCons(x: Record, t: seq<Record>)
    requires NewestFirst(t)
    requires forall y :: y in t ==> x.timestamp >= y.timestamp
    ensures NewestFirst([x] + t)
  {
    forall i, j | 0 <= i < j < |[x] + t|
      ensures ([x] + t)[i].timestamp >= ([x] + t)[j].timestamp
    {
      assert ([x] + t)[j] == t[j - 1];
      if i == 0 {
        assert t[j - 1] in t;
      } else {
        assert ([x] + t)[i] == t[i - 1];
      }
    }
  }

  /** At most one record per prompt (exact string match). */
  predicate OnePerPrompt(s: seq<Record>) {
    forall i, j :: 0 <= i < j < |s| ==> s[i].prompt != s[j].prompt
  }

  /** Number of records whose prompt is `p`. */
  function CountPrompt(s: seq<Record>, p: string): nat {
    if |s| == 0 then 0
    else (if s[0].prompt == p then 1 else 0) + CountPrompt(s[1..], p)
  }

  lemma {:induction false} CountPromptAppend(a: seq<Record>, b: seq<Record>, p: string)
    ensures CountPrompt(a + b, p) == CountPrompt(a, p) + CountPrompt(b, p)
    decreases |a|
  {
    if |a| > 0 {
      assert (a + b)[1..] == a[1..] + b;
      CountPromptAppend(a[1..], b, p);
    } else {
      assert a + b == b;
    }
  }

  // ---------------------------------------------------------------------------
  // analyses.filter(a => a.prompt !== prompt)
  // ---------------------------------------------------------------------------

  /** The records whose prompt differs from `p`, in their original order.
      Each other record keeps its multiplicity; records for `p` are all gone. */
  function WithoutPrompt(s: seq<Record>, p: string): (r: seq<Record>)
    ensures forall x :: x in r <==> x in s && x.prompt != p
    ensures |r| <= |s|
  {
    if |s| == 0 then []
    else
      assert s == [s[0]] + s[1..];
      if s[0].prompt != p then [s[0]] + WithoutPrompt(s[1..], p)
      else WithoutPrompt(s[1..], p)
  }

  /** Every record for another prompt keeps its multiplicity. */
  lemma {:induction false} WithoutPromptMultiset(s: seq<Record>, p: string, x: Record)
    ensures multiset(WithoutPrompt(s, p))[x] == if x.prompt == p then 0 else multiset(s)[x]
    decreases |s|
  {
    if |s| > 0 {
      WithoutPromptMultiset(s[1..], p, x);
      HeadTail(s);
    }
  }

  lemma {:induction false} WithoutPromptAppend(a: seq<Record>, b: seq<Record>, p: string)
    ensures WithoutPrompt(a + b, p) == WithoutPrompt(a, p) + WithoutPrompt(b, p)
    decreases |a|
  {
    if |a| > 0 {
      assert (a + b)[0] == a[0];
      assert (a + b)[1..] == a[1..] + b;
      WithoutPromptAppend(a[1..], b, p);
    } else {
      assert a + b == b;
    }
  }

  /** Filtering keeps the surviving records in their original relative order. */
  lemma {:induction false} WithoutPromptIsSubsequence(s: seq<Record>, p: string)
    ensures IsSubsequence(WithoutPrompt(s, p), s)
    decreases |s|
  {
    if |s| > 0 {
      WithoutPromptIsSubsequence(s[1..], p);
      var r := WithoutPrompt(s, p);
      if s[0].prompt == p && |r| > 0 {
        assert r[0] in r;
        assert r[0] != s[0];
      }
    }
  }

  /** A list without records for `p` is left as it is. */
  lemma {:induction false} WithoutAbsentPrompt(s: seq<Record>, p: string)
    requires forall i :: 0 <= i < |s| ==> s[i].prompt != p
    ensures WithoutPrompt(s, p) == s
    decreases |s|
  {
    if |s| > 0 {
      WithoutAbsentPrompt(s[1..], p);
      HeadTail(s);
    }
  }

  lemma {:induction false} WithoutPromptKeepsNewestFirst(s: seq<Record>, p: string)
    requires NewestFirst(s)
    ensures NewestFirst(WithoutPrompt(s, p))
    decreases |s|
  {
    if |s| > 0 {
      WithoutPromptKeepsNewestFirst(s[1..], p);
      HeadIsNewest(s);
      HeadTail(s);
      WithoutPromptCons(s[0], s[1..], p);
      if s[0].prompt != p {
        NewestFirstCons(s[0], WithoutPrompt(s[1..], p));
      }
    }
  }

  lemma {:induction false} WithoutPromptKeepsOnePerPrompt(s: seq<Record>, p: string)
    requires OnePerPrompt(s)
    ensures OnePerPrompt(WithoutPrompt(s, p))
    decreases |s|
  {
    if |s| > 0 {
      WithoutPromptKeepsOnePerPrompt(s[1..], p);
      var rest := WithoutPrompt(s[1..], p);
      forall y | y in rest
        ensures s[0].prompt != y.prompt
      {
        var k :| 0 <= k < |s[1..]| && s[1..][k] == y;
        assert s[k + 1] == y;
      }
    }
  }

  // ---------------------------------------------------------------------------
  // [...list].sort((a, b) => b.timestamp - a.timestamp), a stable sort
  // ---------------------------------------------------------------------------

  /** Places `x` after every record at least as recent as it and before the first
      older one. On a newest-first list this is the stable insertion of a record
      that comes last in the input. */
  function Insert(t: seq<Record>, x: Record): (r: seq<Record>)
    ensures multiset(r) == multiset(t) + multiset{x}
    ensures |r| == |t| + 1
    decreases |t|
  {
    if |t| == 0 then [x]
    else if t[0].timestamp >= x.timestamp then
      assert t == [t[0]] + t[1..];
      [t[0]] + Insert(t[1..], x)
    else [x] + t
  }

  lemma {:induction false} InsertKeepsNewestFirst(t: seq<Record>, x: Record)
    requires NewestFirst(t)
    ensures NewestFirst(Insert(t, x))
    decreases |t|
  {
    if |t| > 0 && t[0].timestamp >= x.timestamp {
      InsertKeepsNewestFirst(t[1..], x);
      var rest := Insert(t[1..], x);
      HeadIsNewest(t);
      forall y | y in rest
        ensures t[0].timestamp >= y.timestamp
      {
        assert y in multiset(rest);
      }
      NewestFirstCons(t[0], rest);
    }
  }

  lemma {:induction false} InsertCountPrompt(t: seq<Record>, x: Record, q: string)
    ensures CountPrompt(Insert(t, x), q) == CountPrompt(t, q) + (if x.prompt == q then 1 else 0)
    decreases |t|
  {
    if |t| > 0 && t[0].timestamp >= x.timestamp {
      InsertCountPrompt(t[1..], x, q);
    }
  }

  /** Stable sort, most recent first. Equal timestamps keep their input order, as
      ECMAScript 2019 requires of `Array.prototype.sort`. */
  function SortNewestFirst(s: seq<Record>): (r: seq<Record>)
    ensures NewestFirst(r)
    ensures multiset(r) == multiset(s)
    ensures |r| == |s|
    decreases |s|
  {
    if |s| == 0 then []
    else
      var init := s[..|s| - 1];
      var last := s[|s| - 1];
      assert s == init + [last];
      InsertKeepsNewestFirst(SortNewestFirst(init), last);
      Insert(SortNewestFirst(init), last)
  }

  lemma {:induction false} SortCountPrompt(s: seq<Record>, q: string)
    ensures CountPrompt(SortNewestFirst(s), q) == CountPrompt(s, q)
    decreases |s|
  {
    if |s| > 0 {
      var init := s[..|s| - 1];
      var last := s[|s| - 1];
      assert s == init + [last];
      SortAppend(init, last);
      SortCountPrompt(init, q);
      InsertCountPrompt(SortNewestFirst(init), last, q);
      CountPromptAppend(init, [last], q);
      assert CountPrompt([last], q) == if last.prompt == q then 1 else 0 by {
        assert [last][1..] == [];
      }
    }
  }

  lemma SortAppend(a: seq<Record>, x: Record)
    ensures SortNewestFirst(a + [x]) == Insert(SortNewestFirst(a), x)
  {
    assert (a + [x])[..|a + [x]| - 1] == a;
  }

  /** Inserting a record no newer than anything in the list appends it. */
  lemma {:induction false} InsertOldest(t: seq<Record>, x: Record)
    requires forall i :: 0 <= i < |t| ==> t[i].timestamp >= x.timestamp
    ensures Insert(t, x) == t + [x]
    decreases |t|
  {
    if |t| > 0 {
      InsertOldest(t[1..], x);
      HeadTail(t);
    }
  }

  /** Sorting an already newest-first list changes nothing. */
  lemma {:induction false} SortFixesNewestFirst(s: seq<Record>)
    requires NewestFirst(s)
    ensures SortNewestFirst(s) == s
    decreases |s|
  {
    if |s| > 0 {
      var init := s[..|s| - 1];
      var last := s[|s| - 1];
      assert s == init + [last];
      assert NewestFirst(init);
      assert forall i :: 0 <= i < |init| ==> init[i].timestamp >= last.timestamp;
      SortAppend(init, last);
      SortFixesNewestFirst(init);
      InsertOldest(init, last);
    }
  }

  lemma SortIdempotent(s: seq<Record>)
    ensures SortNewestFirst(SortNewestFirst(s)) == SortNewestFirst(s)
  {
    SortFixesNewestFirst(SortNewestFirst(s));
  }

  /** The records stamped `ts`, in list order. */
  function AtTime(s: seq<Record>, ts: int): seq<Record> {
    if |s| == 0 then []
    else (if s[0].timestamp == ts then [s[0]] else []) + AtTime(s[1..], ts)
  }

  lemma {:induction false} AtTimeAppend(a: seq<Record>, b: seq<Record>, ts: int)
    ensures AtTime(a + b, ts) == AtTime(a, ts) + AtTime(b, ts)
    decreases |a|
  {
    if |a| > 0 {
      assert (a + b)[1..] == a[1..] + b;
      AtTimeAppend(a[1..], b, ts);
    } else {
      assert a + b == b;
    }
  }

  lemma {:induction false} NoneAtLaterTime(t: seq<Record>, ts: int)
    requires NewestFirst(t) && (|t| > 0 ==> t[0].timestamp < ts)
    ensures AtTime(t, ts) == []
    decreases |t|
  {
    if |t| > 0 {
      assert NewestFirst(t[1..]);
      NoneAtLaterTime(t[1..], ts);
    }
  }

  /** `y` itself when it is stamped `ts`, else nothing. */
  function AtTimeOne(y: Record, ts: int): seq<Record> {
    if y.timestamp == ts then [y] else []
  }

  lemma AtTimeCons(y: Record, rest: seq<Record>, ts: int)
    ensures AtTime([y] + rest, ts) == AtTimeOne(y, ts) + AtTime(rest, ts)
  {
    assert ([y] + rest)[0] == y;
    assert ([y] + rest)[1..] == rest;
  }

  /** Insertion puts `x` after every record with its timestamp. */
  lemma {:induction false} InsertAtTime(t: seq<Record>, x: Record, ts: int)
    requires NewestFirst(t)
    ensures AtTime(Insert(t, x), ts) == AtTime(t, ts) + AtTimeOne(x, ts)
    decreases |t|
  {
    if |t| > 0 && t[0].timestamp >= x.timestamp {
      assert NewestFirst(t[1..]);
      InsertAtTime(t[1..], x, ts);
      InsertAtTimeBehind(t, x, ts);
    } else {
      InsertAtTimeInFront(t, x, ts);
    }
  }

  lemma InsertAtTimeBehind(t: seq<Record>, x: Record, ts: int)
    requires |t| > 0 && t[0].timestamp >= x.timestamp
    requires AtTime(Insert(t[1..], x), ts) == AtTime(t[1..], ts) + AtTimeOne(x, ts)
    ensures AtTime(Insert(t, x), ts) == AtTime(t, ts) + AtTimeOne(x, ts)
  {
    var y := t[0];
    var rest := t[1..];
    assert Insert(t, x) == [y] + Insert(rest, x);
    AtTimeCons(y, Insert(rest, x), ts);
    assert AtTime(t, ts) == AtTimeOne(y, ts) + AtTime(rest, ts);
    AppendAssoc(AtTimeOne(y, ts), AtTime(rest, ts), AtTimeOne(x, ts));
  }

  lemma InsertAtTimeInFront(t: seq<Record>, x: Record, ts: int)
    requires NewestFirst(t)
    requires |t| > 0 ==> t[0].timestamp < x.timestamp
    ensures AtTime(Insert(t, x), ts) == AtTime(t, ts) + AtTimeOne(x, ts)
  {
    assert Insert(t, x) == [x] + t;
    AtTimeCons(x, t, ts);
    if x.timestamp == ts {
      NoneAtLaterTime(t, ts);
    } else {
      assert AtTime(t, ts) + [] == AtTime(t, ts);
    }
  }

  /** The sort is stable: records with equal timestamps keep their input order. */
  lemma {:induction false} SortIsStable(s: seq<Record>, ts: int)
    ensures AtTime(SortNewestFirst(s), ts) == AtTime(s, ts)
    decreases |s|
  {
    if |s| > 0 {
      var init := s[..|s| - 1];
      var last := s[|s| - 1];
      assert s == init + [last];
      SortAppend(init, last);
      SortIsStable(init, ts);
      InsertAtTime(SortNewestFirst(init), last, ts);
      AtTimeAppend(init, [last], ts);
      AtTimeCons(last, [], ts);
      assert [last] == [last] + [];
    }
  }

  /** The filter on a list with a known head: the head stays exactly when its prompt differs. */
  lemma WithoutPromptCons(y: Record, rest: seq<Record>, p: string)
    ensures WithoutPrompt([y] + rest, p)
         == if y.prompt == p then WithoutPrompt(rest, p) else [y] + WithoutPrompt(rest, p)
  {
    assert ([y] + rest)[0] == y;
    assert ([y] + rest)[1..] == rest;
  }

  /** A record newer than the head of the list goes in front of it. */
  lemma InsertBeforeOlder(t: seq<Record>, x: Record)
    requires |t| > 0 && t[0].timestamp < x.timestamp
    ensures Insert(t, x) == [x] + t
  {
  }

  /** A record no newer than the head goes somewhere after it. */
  lemma InsertAfterNewer(y: Record, t: seq<Record>, x: Record)
    requires y.timestamp >= x.timestamp
    ensures Insert([y] + t, x) == [y] + Insert(t, x)
  {
    assert ([y] + t)[1..] == t;
  }

  /** On a newest-first list, filtering a prompt out commutes with stable insertion. */
  lemma {:induction false} WithoutPromptOfInsert(t: seq<Record>, x: Record, p: string)
    requires NewestFirst(t)
    ensures WithoutPrompt(Insert(t, x), p)
         == if x.prompt == p then WithoutPrompt(t, p) else Insert(WithoutPrompt(t, p), x)
    decreases |t|
  {
    if |t| == 0 {
      WithoutPromptCons(x, [], p);
    } else if t[0].timestamp >= x.timestamp {
      var y, rest := t[0], t[1..];
      assert t == [y] + rest;
      InsertAfterNewer(y, rest, x);
      WithoutPromptCons(y, Insert(rest, x), p);
      WithoutPromptCons(y, rest, p);
      WithoutPromptOfInsert(rest, x, p);
      if x.prompt != p && y.prompt != p {
        InsertAfterNewer(y, WithoutPrompt(rest, p), x);
      }
    } else {
      InsertBeforeOlder(t, x);
      WithoutPromptCons(x, t, p);
      var w := WithoutPrompt(t, p);
      if x.prompt != p && |w| > 0 {
        // every record of t is older than x, so x stays first after filtering
        assert w[0] in w;
        var k :| 0 <= k < |t| && t[k] == w[0];
        assert t[0].timestamp >= t[k].timestamp;
        InsertBeforeOlder(w, x);
      }
    }
  }

  /** Filtering a prompt out commutes with the stable sort. */
  lemma {:induction false} WithoutPromptOfSort(s: seq<Record>, p: string)
    ensures WithoutPrompt(SortNewestFirst(s), p) == SortNewestFirst(WithoutPrompt(s, p))
    decreases |s|
  {
    if |s| > 0 {
      var init := s[..|s| - 1];
      var last := s[|s| - 1];
      assert s == init + [last];
      WithoutPromptOfSort(init, p);
      WithoutPromptOfInsert(SortNewestFirst(init), last, p);
      WithoutPromptAppend(init, [last], p);
      if last.prompt != p {
        assert WithoutPrompt([last], p) == [last];
        SortAppend(WithoutPrompt(init, p), last);
      } else {
        assert WithoutPrompt([last], p) == [];
        assert WithoutPrompt(init, p) + [] == WithoutPrompt(init, p);
      }
    }
  }

  lemma {:induction false} InsertKeepsOnePerPrompt(t: seq<Record>, x: Record)
    requires OnePerPrompt(t)
    requires forall y :: y in t ==> y.prompt != x.prompt
    ensures OnePerPrompt(Insert(t, x))
    decreases |t|
  {
    if |t| > 0 && t[0].timestamp >= x.timestamp {
      InsertKeepsOnePerPrompt(t[1..], x);
      var rest := Insert(t[1..], x);
      forall y | y in rest
        ensures t[0].prompt != y.prompt
      {
        assert y in multiset(rest);
        if y != x {
          var k :| 0 <= k < |t[1..]| && t[1..][k] == y;
          assert t[k + 1] == y;
        }
      }
    }
  }

  lemma {:induction false} SortKeepsOnePerPrompt(s: seq<Record>)
    requires OnePerPrompt(s)
    ensures OnePerPrompt(SortNewestFirst(s))
    decreases |s|
  {
    if |s| > 0 {
      var init := s[..|s| - 1];
      var last := s[|s| - 1];
      assert OnePerPrompt(init);
      SortKeepsOnePerPrompt(init);
      forall y | y in SortNewestFirst(init)
        ensures y.prompt != last.prompt
      {
        assert y in multiset(SortNewestFirst(init));
        var k :| 0 <= k < |init| && init[k] == y;
      }
      InsertKeepsOnePerPrompt(SortNewestFirst(init), last);
    }
  }

  // ---------------------------------------------------------------------------
  // analyses.find(a => a.prompt === prompt)
  // ---------------------------------------------------------------------------

  /** `i` is the position of the first record whose prompt is `p`. */
  predicate FirstMatch(s: seq<Record>, p: string, i: int) {
    0 <= i < |s| && s[i].prompt == p && forall j :: 0 <= j < i ==> s[j].prompt != p
  }

  lemma FirstMatchUnique(s: seq<Record>, p: string, i: int, k: int)
    requires FirstMatch(s, p, i) && FirstMatch(s, p, k)
    ensures i == k
  {
  }

  /** The first record whose prompt is `p`, or none when there is no such record. */
  function FindByPrompt(s: seq<Record>, p: string): (r: Option<Record>)
    ensures r.None? <==> forall i :: 0 <= i < |s| ==> s[i].prompt != p
    ensures r.Some? ==> exists i :: FirstMatch(s, p, i) && s[i] == r.value
    decreases |s|
  {
    if |s| == 0 then None
    else if s[0].prompt == p then
      assert FirstMatch(s, p, 0);
      Some(s[0])
    else
      var r := FindByPrompt(s[1..], p);
      assert r.Some? ==> exists i :: FirstMatch(s, p, i) && s[i] == r.value by {
        if r.Some? {
          var i :| FirstMatch(s[1..], p, i) && s[1..][i] == r.value;
          assert FirstMatch(s, p, i + 1);
        }
      }
      r
  }

  /** With one record per prompt, the first match is the only one. */
  lemma FindUniquePrompt(s: seq<Record>, p: string, x: Record)
    requires OnePerPrompt(s)
    requires x in s && x.prompt == p
    ensures FindByPrompt(s, p) == Some(x)
  {
    var k :| 0 <= k < |s| && s[k] == x;
    var r := FindByPrompt(s, p);
    var i :| FirstMatch(s, p, i) && s[i] == r.value;
    assert s[i].prompt == s[k].prompt;
  }
}
