/** Small vocabulary shared by the prompt index, the API client and the sidebar. */
module Common {

  /** A JavaScript value that may be `null`/`undefined`. */
  datatype Option<+T> = None | Some(value: T)

  /** `sub` can be obtained from `s` by deleting elements, keeping the order of the rest.
      Greedy matching of the head of `sub` against the earliest equal element of `s`
      decides this exactly. */
  predicate IsSubsequence<T(==)>(sub: seq<T>, s: seq<T>)
    decreases |s|
  {
    if |sub| == 0 then true
    else if |s| == 0 then false
    else if sub[0] == s[0] then IsSubsequence(sub[1..], s[1..])
    else IsSubsequence(sub, s[1..])
  }

  lemma {:induction false} SubsequenceOfItself<T>(s: seq<T>)
    ensures IsSubsequence(s, s)
    decreases |s|
  {
    if |s| > 0 {
      SubsequenceOfItself(s[1..]);
    }
  }

  /** An element in front of `s` does not stop `sub` from being a subsequence. */
  lemma {:induction false} SubsequenceOfLonger<T>(sub: seq<T>, s: seq<T>)
    requires |s| > 0 && IsSubsequence(sub, s[1..])
    ensures IsSubsequence(sub, s)
    decreases |s|, 0
  {
    if |sub| > 0 && sub[0] == s[0] {
      SubsequenceDropHead(sub, s[1..]);
    }
  }

  /** Dropping the first element of a subsequence leaves a subsequence. */
  lemma {:induction false} SubsequenceDropHead<T>(sub: seq<T>, t: seq<T>)
    requires |sub| > 0 && IsSubsequence(sub, t)
    ensures IsSubsequence(sub[1..], t)
    decreases |t|, 1
  {
    if sub[0] == t[0] {
      SubsequenceOfLonger(sub[1..], t);
    } else {
      SubsequenceDropHead(sub, t[1..]);
      SubsequenceOfLonger(sub[1..], t);
    }
  }

  /** A non-empty sequence is its head followed by its tail. */
  lemma HeadTail<T>(s: seq<T>)
    requires |s| > 0
    ensures [s[0]] + s[1..] == s
  {
  }

  lemma AppendAssoc<T>(a: seq<T>, b: seq<T>, c: seq<T>)
    ensures a + (b + c) == (a + b) + c
  {
  }

  /** No value occurs twice. */
  predicate Distinct<T(==)>(s: seq<T>) {
    forall i, j :: 0 <= i < j < |s| ==> s[i] != s[j]
  }

  function Min(a: int, b: int): int {
    if a <= b then a else b
  }
}
