/** The prompt -> job index kept under one `localStorage` key (lib/storage.ts).
    The browser storage is an explicit value: reads take it as a parameter and
    writes return the slot contents they leave behind. `Date.now()` is the `now`
    parameter. */
module AnalysisIndex {
  import opened Common
  import opened Records

  /** What `localStorage.getItem('prompt-analyses')` yields: null, the empty string,
      text that `JSON.parse` rejects, or a parsed array of records. */
  datatype Slot = Missing | Blank | Malformed | Parsed(records: seq<Record>)

  /** During server rendering there is no `window` and no `localStorage`. */
  datatype Env = ServerSide | Browser(slot: Slot)

  /** What a writing call leaves behind: the slot after `setItem` and the list the
      call returns; or the ReferenceError thrown by touching `localStorage` on the
      server. */
  datatype Written = Written(slot: Slot, updated: seq<Record>) | NoLocalStorage

  /** `getStoredAnalyses`: never fails on a missing, blank or malformed key; anything but
      a parsed array reads as empty. */
  function GetStoredAnalyses(env: Env): (r: seq<Record>)
    ensures env.ServerSide? ==> r == []
    ensures env.Browser? && !env.slot.Parsed? ==> r == []
    ensures env.Browser? && env.slot.Parsed? ==> r == env.slot.records
  {
    match env
    case ServerSide => []
    case Browser(slot) =>
      match slot
      case Parsed(records) => records
      case _ => []
  }

  /** The list logic of `storeAnalysis`: drop every record for `prompt`, append the
      new record, sort newest first. */
  function Upsert(analyses: seq<Record>, prompt: string, requestId: string, now: int): (r: seq<Record>)
    ensures NewestFirst(r)
    ensures |r| == |WithoutPrompt(analyses, prompt)| + 1
    ensures CountPrompt(r, prompt) == 1
    ensures Record(prompt, requestId, now) in r
    ensures forall x :: x in r && x.prompt == prompt ==> x == Record(prompt, requestId, now)
    ensures forall x: Record :: x.prompt != prompt ==> (x in r <==> x in analyses)
  {
    var entry := Record(prompt, requestId, now);
    var filtered := WithoutPrompt(analyses, prompt);
    var r := SortNewestFirst(filtered + [entry]);
    SortCountPrompt(filtered + [entry], prompt);
    CountPromptAppend(filtered, [entry], prompt);
    NoCountWithoutPrompt(analyses, prompt);
    assert forall x :: x in r <==> x in filtered + [entry] by {
      forall x ensures x in r <==> x in filtered + [entry] {
        assert x in r <==> x in multiset(r);
        assert x in filtered + [entry] <==> x in multiset(filtered + [entry]);
      }
    }
    r
  }

  /** `storeAnalysis` keeps every record for another prompt with its multiplicity,
      and holds exactly one record for the stored prompt: the new one. */
  lemma UpsertMultiset(analyses: seq<Record>, prompt: string, requestId: string, now: int, x: Record)
    ensures multiset(Upsert(analyses, prompt, requestId, now))[x]
         == if x.prompt != prompt then multiset(analyses)[x]
            else if x == Record(prompt, requestId, now) then 1
            else 0
  {
    var entry := Record(prompt, requestId, now);
    var filtered := WithoutPrompt(analyses, prompt);
    WithoutPromptMultiset(analyses, prompt, x);
    assert multiset(filtered + [entry]) == multiset(filtered) + multiset{entry};
    assert Upsert(analyses, prompt, requestId, now) == SortNewestFirst(filtered + [entry]);
  }

  /** If the loaded list has at most one record per prompt, so does the stored one. */
  lemma UpsertKeepsOnePerPrompt(analyses: seq<Record>, prompt: string, requestId: string, now: int)
    requires OnePerPrompt(analyses)
    ensures OnePerPrompt(Upsert(analyses, prompt, requestId, now))
  {
    var entry := Record(prompt, requestId, now);
    var filtered := WithoutPrompt(analyses, prompt);
    WithoutPromptKeepsOnePerPrompt(analyses, prompt);
    OnePerPromptAppend(filtered, entry);
    SortKeepsOnePerPrompt(filtered + [entry]);
  }

  lemma {:induction false} NoCountWithoutPrompt(s: seq<Record>, p: string)
    ensures CountPrompt(WithoutPrompt(s, p), p) == 0
    decreases |s|
  {
    if |s| > 0 {
      NoCountWithoutPrompt(s[1..], p);
      HeadTail(s);
      WithoutPromptCons(s[0], s[1..], p);
    }
  }

  lemma OnePerPromptAppend(s: seq<Record>, x: Record)
    requires OnePerPrompt(s)
    requires forall y :: y in s ==> y.prompt != x.prompt
    ensures OnePerPrompt(s + [x])
  {
    forall i, j | 0 <= i < j < |s + [x]|
      ensures (s + [x])[i].prompt != (s + [x])[j].prompt
    {
      if j == |s| {
        assert s[i] in s;
      }
    }
  }

  /** `storeAnalysis(prompt, requestId)` at time `now`. */
  function StoreAnalysis(env: Env, prompt: string, requestId: string, now: int): (w: Written)
    ensures w.NoLocalStorage? <==> env.ServerSide?
    ensures w.Written? ==> w.slot == Parsed(w.updated)
    ensures w.Written? ==> NewestFirst(w.updated)
    ensures w.Written? ==> CountPrompt(w.updated, prompt) == 1
    ensures w.Written? ==> forall x :: x in w.updated && x.prompt == prompt ==> x == Record(prompt, requestId, now)
    ensures w.Written? ==> Record(prompt, requestId, now) in w.updated
    ensures w.Written? ==> forall x: Record :: x.prompt != prompt ==> (x in w.updated <==> x in GetStoredAnalyses(env))
    ensures w.Written? && OnePerPrompt(GetStoredAnalyses(env)) ==> OnePerPrompt(w.updated)
  {
    match env
    case ServerSide => NoLocalStorage
    case Browser(_) =>
      var updated := Upsert(GetStoredAnalyses(env), prompt, requestId, now);
      assert OnePerPrompt(GetStoredAnalyses(env)) ==> OnePerPrompt(updated) by {
        if OnePerPrompt(GetStoredAnalyses(env)) {
          UpsertKeepsOnePerPrompt(GetStoredAnalyses(env), prompt, requestId, now);
        }
      }
      Written(Parsed(updated), updated)
  }

  /** `removeAnalysis(prompt)`. */
  function RemoveAnalysis(env: Env, prompt: string): (w: Written)
    ensures w.NoLocalStorage? <==> env.ServerSide?
    ensures w.Written? ==> w.slot == Parsed(w.updated)
    ensures w.Written? ==> forall x :: x in w.updated <==> x in GetStoredAnalyses(env) && x.prompt != prompt
    ensures w.Written? ==> IsSubsequence(w.updated, GetStoredAnalyses(env))
    ensures w.Written? && NewestFirst(GetStoredAnalyses(env)) ==> NewestFirst(w.updated)
    ensures w.Written? && OnePerPrompt(GetStoredAnalyses(env)) ==> OnePerPrompt(w.updated)
    ensures w.Written? && (forall i :: 0 <= i < |GetStoredAnalyses(env)| ==> GetStoredAnalyses(env)[i].prompt != prompt)
            ==> w.updated == GetStoredAnalyses(env)
  {
    match env
    case ServerSide => NoLocalStorage
    case Browser(_) =>
      var analyses := GetStoredAnalyses(env);
      var updated := WithoutPrompt(analyses, prompt);
      WithoutPromptIsSubsequence(analyses, prompt);
      assert NewestFirst(analyses) ==> NewestFirst(updated) by {
        if NewestFirst(analyses) { WithoutPromptKeepsNewestFirst(analyses, prompt); }
      }
      assert OnePerPrompt(analyses) ==> OnePerPrompt(updated) by {
        if OnePerPrompt(analyses) { WithoutPromptKeepsOnePerPrompt(analyses, prompt); }
      }
      assert (forall i :: 0 <= i < |analyses| ==> analyses[i].prompt != prompt) ==> updated == analyses by {
        if forall i :: 0 <= i < |analyses| ==> analyses[i].prompt != prompt {
          WithoutAbsentPrompt(analyses, prompt);
        }
      }
      Written(Parsed(updated), updated)
  }

  /** `getStoredRequestId(prompt)`: the job id of the first record for `prompt`;
      `null` when there is none, and also when that id is the empty string
      (`analysis?.requestId || null`). It only reads. */
  function GetStoredRequestId(env: Env, prompt: string): (r: Option<string>)
    ensures r.Some? ==> r.value != "" &&
                        exists i :: FirstMatch(GetStoredAnalyses(env), prompt, i)
                                    && GetStoredAnalyses(env)[i].requestId == r.value
    ensures r.None? <==> forall i :: FirstMatch(GetStoredAnalyses(env), prompt, i)
                                     ==> GetStoredAnalyses(env)[i].requestId == ""
  {
    var analyses := GetStoredAnalyses(env);
    var found := FindByPrompt(analyses, prompt);
    assert found.Some? ==> forall i :: FirstMatch(analyses, prompt, i) ==> analyses[i] == found.value by {
      if found.Some? {
        forall i | FirstMatch(analyses, prompt, i) ensures analyses[i] == found.value {
          var k :| FirstMatch(analyses, prompt, k) && analyses[k] == found.value;
          FirstMatchUnique(analyses, prompt, i, k);
        }
      }
    }
    match found
    case None => None
    case Some(analysis) => if analysis.requestId == "" then None else Some(analysis.requestId)
  }

  // ---------------------------------------------------------------------------
  // Properties relating several calls
  // ---------------------------------------------------------------------------

  /** In the browser, the next `getStoredAnalyses` after `storeAnalysis` reads back
      exactly the list the store returned. */
  lemma StoreReadsBack(env: Env, prompt: string, requestId: string, now: int)
    requires env.Browser?
    ensures StoreAnalysis(env, prompt, requestId, now).Written?
    ensures GetStoredAnalyses(Browser(StoreAnalysis(env, prompt, requestId, now).slot))
         == StoreAnalysis(env, prompt, requestId, now).updated
  {
  }

  /** In the browser, the next `getStoredAnalyses` after `removeAnalysis` reads back
      exactly the list the removal returned. */
  lemma RemoveReadsBack(env: Env, prompt: string)
    requires env.Browser?
    ensures RemoveAnalysis(env, prompt).Written?
    ensures GetStoredAnalyses(Browser(RemoveAnalysis(env, prompt).slot)) == RemoveAnalysis(env, prompt).updated
  {
  }

  /** The list logic behind `StoreTwiceLastWins`. */
  lemma UpsertTwice(analyses: seq<Record>, prompt: string, id1: string, t1: int, id2: string, t2: int)
    ensures Upsert(Upsert(analyses, prompt, id1, t1), prompt, id2, t2) == Upsert(analyses, prompt, id2, t2)
  {
    var filtered := WithoutPrompt(analyses, prompt);
    var first := SortNewestFirst(filtered + [Record(prompt, id1, t1)]);
    assert Upsert(analyses, prompt, id1, t1) == first;
    WithoutPromptTwice(analyses, prompt);
    OthersAfterUpsert(filtered, Record(prompt, id1, t1), prompt);
    SortAppend(SortNewestFirst(filtered), Record(prompt, id2, t2));
    SortIdempotent(filtered);
    SortAppend(filtered, Record(prompt, id2, t2));
    assert Upsert(first, prompt, id2, t2) == SortNewestFirst(WithoutPrompt(first, prompt) + [Record(prompt, id2, t2)]);
  }

  /** Storing `prompt` twice leaves what storing it once with the second id and
      time would have left: the last writer wins. */
  lemma StoreTwiceLastWins(env: Env, prompt: string, id1: string, t1: int, id2: string, t2: int)
    requires env.Browser?
    ensures StoreAnalysis(Browser(StoreAnalysis(env, prompt, id1, t1).slot), prompt, id2, t2)
         == StoreAnalysis(env, prompt, id2, t2)
  {
    UpsertTwice(GetStoredAnalyses(env), prompt, id1, t1, id2, t2);
  }

  lemma WithoutPromptTwice(s: seq<Record>, p: string)
    ensures WithoutPrompt(WithoutPrompt(s, p), p) == WithoutPrompt(s, p)
  {
    var w := WithoutPrompt(s, p);
    forall i | 0 <= i < |w| ensures w[i].prompt != p {
      assert w[i] in w;
    }
    WithoutAbsentPrompt(w, p);
  }

  /** Re-storing the same pair changes nothing but the refreshed timestamp: the
      result equals a single store at the later time, and agrees with the first
      store on every record other than the one for `prompt`. */
  lemma StoreIdempotent(env: Env, prompt: string, requestId: string, t1: int, t2: int)
    requires env.Browser?
    ensures StoreAnalysis(Browser(StoreAnalysis(env, prompt, requestId, t1).slot), prompt, requestId, t2)
         == StoreAnalysis(env, prompt, requestId, t2)
    ensures WithoutPrompt(StoreAnalysis(env, prompt, requestId, t1).updated, prompt)
         == WithoutPrompt(StoreAnalysis(env, prompt, requestId, t2).updated, prompt)
  {
    StoreTwiceLastWins(env, prompt, requestId, t1, requestId, t2);
    var analyses := GetStoredAnalyses(env);
    var filtered := WithoutPrompt(analyses, prompt);
    WithoutPromptTwice(analyses, prompt);
    assert Upsert(analyses, prompt, requestId, t1) == SortNewestFirst(filtered + [Record(prompt, requestId, t1)]);
    assert Upsert(analyses, prompt, requestId, t2) == SortNewestFirst(filtered + [Record(prompt, requestId, t2)]);
    OthersAfterUpsert(filtered, Record(prompt, requestId, t1), prompt);
    OthersAfterUpsert(filtered, Record(prompt, requestId, t2), prompt);
  }

  lemma OthersAfterUpsert(filtered: seq<Record>, entry: Record, prompt: string)
    requires entry.prompt == prompt
    requires filtered == WithoutPrompt(filtered, prompt)
    ensures WithoutPrompt(SortNewestFirst(filtered + [entry]), prompt) == SortNewestFirst(filtered)
  {
    WithoutPromptOfSort(filtered + [entry], prompt);
    WithoutPromptAppend(filtered, [entry], prompt);
    WithoutPromptCons(entry, [], prompt);
    assert filtered + [] == filtered;
  }

  /** Right after a store the lookup finds the stored id (or null for an empty id). */
  lemma LookupAfterStore(env: Env, prompt: string, requestId: string, now: int)
    requires env.Browser?
    ensures GetStoredRequestId(Browser(StoreAnalysis(env, prompt, requestId, now).slot), prompt)
         == if requestId == "" then None else Some(requestId)
  {
    var updated := StoreAnalysis(env, prompt, requestId, now).updated;
    var r := FindByPrompt(updated, prompt);
    assert Record(prompt, requestId, now) in updated;
    assert r.value in updated;
  }

  lemma FindOtherAfterUpsert(analyses: seq<Record>, prompt: string, requestId: string, now: int, other: string)
    requires OnePerPrompt(analyses)
    requires other != prompt
    ensures FindByPrompt(Upsert(analyses, prompt, requestId, now), other) == FindByPrompt(analyses, other)
  {
    var after := Upsert(analyses, prompt, requestId, now);
    UpsertKeepsOnePerPrompt(analyses, prompt, requestId, now);
    match FindByPrompt(analyses, other)
    case None =>
      forall i | 0 <= i < |after| ensures after[i].prompt != other {
        assert after[i] in after;
      }
    case Some(x) =>
      var k :| FirstMatch(analyses, other, k) && analyses[k] == x;
      assert x in analyses;
      FindUniquePrompt(after, other, x);
  }

  /** With one record per prompt, a store leaves every other prompt's lookup as it was. */
  lemma LookupOtherAfterStore(env: Env, prompt: string, requestId: string, now: int, other: string)
    requires env.Browser?
    requires OnePerPrompt(GetStoredAnalyses(env))
    requires other != prompt
    ensures GetStoredRequestId(Browser(StoreAnalysis(env, prompt, requestId, now).slot), other)
         == GetStoredRequestId(env, other)
  {
    FindOtherAfterUpsert(GetStoredAnalyses(env), prompt, requestId, now, other);
  }

  /** After a removal the prompt is no longer found. */
  lemma LookupAfterRemove(env: Env, prompt: string)
    requires env.Browser?
    ensures GetStoredRequestId(Browser(RemoveAnalysis(env, prompt).slot), prompt) == None
  {
    var updated := RemoveAnalysis(env, prompt).updated;
    forall i | 0 <= i < |updated| ensures updated[i].prompt != prompt {
      assert updated[i] in updated;
    }
  }

  // ---------------------------------------------------------------------------
  // Any sequence of stores and removals
  // ---------------------------------------------------------------------------

  /** One call against the index made by the rest of the application. */
  datatype IndexOp = Store(prompt: string, requestId: string, now: int) | Remove(prompt: string)

  function Apply(env: Env, op: IndexOp): Env {
    var w := match op
      case Store(p, id, now) => StoreAnalysis(env, p, id, now)
      case Remove(p) => RemoveAnalysis(env, p);
    match w
    case Written(slot, _) => Browser(slot)
    case NoLocalStorage => env
  }

  function Replay(env: Env, ops: seq<IndexOp>): Env
    decreases |ops|
  {
    if |ops| == 0 then env else Replay(Apply(env, ops[0]), ops[1..])
  }

  /** Starting from a well-formed list (an empty or missing store among them),
      every sequence of stores and removals leaves a list that is newest first
      and has at most one record per prompt. */
  lemma {:induction false} ReplayKeepsIndexWellFormed(env: Env, ops: seq<IndexOp>)
    requires NewestFirst(GetStoredAnalyses(env)) && OnePerPrompt(GetStoredAnalyses(env))
    ensures NewestFirst(GetStoredAnalyses(Replay(env, ops)))
    ensures OnePerPrompt(GetStoredAnalyses(Replay(env, ops)))
    decreases |ops|
  {
    if |ops| > 0 {
      ApplyKeepsIndexWellFormed(env, ops[0]);
      ReplayKeepsIndexWellFormed(Apply(env, ops[0]), ops[1..]);
    }
  }

  /** One store or removal keeps the list newest first with one record per prompt. */
  lemma ApplyKeepsIndexWellFormed(env: Env, op: IndexOp)
    requires NewestFirst(GetStoredAnalyses(env)) && OnePerPrompt(GetStoredAnalyses(env))
    ensures NewestFirst(GetStoredAnalyses(Apply(env, op)))
    ensures OnePerPrompt(GetStoredAnalyses(Apply(env, op)))
  {
    if env.Browser? {
      match op
      case Store(p, id, now) => StoreReadsBack(env, p, id, now);
      case Remove(p) => RemoveReadsBack(env, p);
    }
  }

  /** Storing "foo" into an empty index and then again with another id leaves the
      single record for the second id. */
  lemma StoreFooTwice(t1: int, t2: int)
    ensures StoreAnalysis(Browser(Missing), "foo", "r1", t1) == Written(Parsed([Record("foo", "r1", t1)]), [Record("foo", "r1", t1)])
    ensures StoreAnalysis(Browser(Parsed([Record("foo", "r1", t1)])), "foo", "r2", t2).updated == [Record("foo", "r2", t2)]
  {
    assert WithoutPrompt([Record("foo", "r1", t1)], "foo") == [];
    assert [] + [Record("foo", "r2", t2)] == [Record("foo", "r2", t2)];
  }

  /** Removing "foo" from [foo, bar] leaves [bar]. */
  lemma RemoveFoo(t1: int, t2: int)
    ensures RemoveAnalysis(Browser(Parsed([Record("foo", "r1", t1), Record("bar", "r2", t2)])), "foo").updated
         == [Record("bar", "r2", t2)]
  {
    var s := [Record("foo", "r1", t1), Record("bar", "r2", t2)];
    assert s[1..][1..] == [];
  }
}
