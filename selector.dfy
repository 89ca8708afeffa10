/** `getRandomQuizQuestions` of src/services/storageService.ts: every
    question of every set, paired with its set's id, in a shuffled order,
    optionally cut down to a prefix. */
module Selector {
  import opened Model
  import opened Seqs
  import opened Repository

  /** Where `slice(0, count)` stops on a list of length `n`: a non-negative
      count is clamped to `n`, a negative one counts back from the end and
      is clamped to 0. */
  function SliceEnd(n: nat, count: int): (e: nat)
    ensures e <= n
    ensures count >= 0 ==> e == if count < n then count else n
    ensures count < 0 ==> e == if n + count > 0 then n + count else 0
  {
    if count >= 0 then (if count < n then count else n)
    else if n + count > 0 then n + count else 0
  }

  lemma PrefixIsSubMultiset<T>(s: seq<T>, k: nat)
    requires k <= |s|
    ensures multiset(s[..k]) <= multiset(s)
  {
    assert s == s[..k] + s[k..];
  }

  /** The shuffled list, cut down by `count` as `count ? shuffled.slice(0, count)
      : shuffled` does; a count of 0 is falsy and, like no count, keeps the
      whole list. */
  function ShuffleAndTake<T>(all: seq<T>, count: Option<int>, picks: seq<nat>): (r: seq<T>)
    ensures |r| <= |all| && r == Shuffle(all, picks)[..|r|]
    ensures multiset(r) <= multiset(all)
    ensures (count.None? || count == Some(0)) ==> multiset(r) == multiset(all)
    ensures count.Some? && count.value > 0 ==> |r| == if count.value < |all| then count.value else |all|
    ensures count.Some? && count.value < 0 ==> |r| == if |all| + count.value > 0 then |all| + count.value else 0
    ensures NoDuplicates(all) ==> NoDuplicates(r)
  {
    var shuffled := Shuffle(all, picks);
    ShuffleIsPermutation(all, picks);
    var r := if count.None? || count.value == 0 then shuffled else shuffled[..SliceEnd(|shuffled|, count.value)];
    assert r == shuffled[..|r|];
    PrefixIsSubMultiset(shuffled, |r|);
    assert NoDuplicates(all) ==> NoDuplicates(r) by {
      if NoDuplicates(all) {
        SubMultisetNoDuplicates(r, all);
      }
    }
    r
  }

  /** `count` is `None` when the caller passes none; `picks` stands for the
      random draws of the shuffle. */
  function RandomQuizQuestions(sets: seq<QuizSet>, count: Option<int>, picks: seq<nat>): (r: seq<QuizItem>)
    ensures |Flatten(sets)| == 0 ==> r == []
    ensures |r| <= |Flatten(sets)| && r == Shuffle(Flatten(sets), picks)[..|r|]
    ensures multiset(r) <= multiset(Flatten(sets))
    ensures (count.None? || count == Some(0)) ==> multiset(r) == multiset(Flatten(sets))
    ensures count.Some? && count.value > 0 ==>
              |r| == if count.value < |Flatten(sets)| then count.value else |Flatten(sets)|
    ensures count.Some? && count.value < 0 ==>
              |r| == if |Flatten(sets)| + count.value > 0 then |Flatten(sets)| + count.value else 0
    ensures NoDuplicates(Flatten(sets)) ==> NoDuplicates(r)
  {
    var all := Flatten(sets);
    if |all| == 0 then [] else ShuffleAndTake(all, count, picks)
  }

  /** Every selected item is a question of a stored set, tagged with that set's id. */
  lemma SelectedItemsAreStored(sets: seq<QuizSet>, count: Option<int>, picks: seq<nat>, it: QuizItem)
    requires it in RandomQuizQuestions(sets, count, picks)
    ensures exists i :: 0 <= i < |sets| && sets[i].id == it.quizSetId && it.question in sets[i].questions
  {
    assert it in multiset(Flatten(sets));
  }

  /** Taking the first two of five distinct questions gives two distinct
      questions, whatever the shuffle did. */
  lemma TwoOfFive(sets: seq<QuizSet>, picks: seq<nat>)
    requires |Flatten(sets)| == 5 && NoDuplicates(Flatten(sets))
    ensures var r := RandomQuizQuestions(sets, Some(2), picks);
            |r| == 2 && r[0] != r[1]
  {
  }

  /** Without a count, every flattened question comes back exactly once. */
  lemma AllQuestionsOnce(sets: seq<QuizSet>, picks: seq<nat>, it: QuizItem)
    requires NoDuplicates(Flatten(sets))
    requires it in Flatten(sets)
    ensures multiset(RandomQuizQuestions(sets, None, picks))[it] == 1
  {
    NoDuplicatesMultiplicity(Flatten(sets), it);
  }
}
