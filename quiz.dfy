/** The quiz session: the order of the questions, the position in it, the
    four options of the current question, the score and whether the current
    question has been answered. Each user action (choosing the order, the
    answer, the next question, a new round) is one method call.

    Randomness is modelled by nondeterministic choice: a shuffle may produce
    any permutation and a sample any three distinct positions. */
module Quiz {
  import opened Poems
  import opened Ordering

  /** The two orders offered in the sidebar: "ID順" and "ランダム". */
  datatype Mode = ById | Random

  /** `sample` names three different positions of a pool of `n` strings:
      the possible outcomes of `random.sample(pool, 3)`. */
  predicate IsSample(sample: seq<nat>, n: nat) {
    && |sample| == 3
    && sample[0] < n && sample[1] < n && sample[2] < n
    && sample[0] != sample[1] && sample[0] != sample[2] && sample[1] != sample[2]
  }

  /** The strings at the sampled positions, in sample order. */
  function Picked(pool: seq<string>, sample: seq<nat>): seq<string>
    requires IsSample(sample, |pool|)
  {
    [pool[sample[0]], pool[sample[1]], pool[sample[2]]]
  }

  /** A draw takes three strings of the pool and, from a pool without
      repeats, three different ones. */
  lemma PickedFromPool(pool: seq<string>, sample: seq<nat>)
    requires IsSample(sample, |pool|)
    ensures |Picked(pool, sample)| == 3
    ensures forall x :: x in Picked(pool, sample) ==> x in pool
    ensures Distinct(pool) ==> Distinct(Picked(pool, sample))
  {
  }

  /** `shuffle` names each of the four positions of a list once: the possible
      outcomes of `random.shuffle` on a list of four. */
  predicate IsShuffle(shuffle: seq<nat>) {
    && |shuffle| == 4
    && shuffle[0] < 4 && shuffle[1] < 4 && shuffle[2] < 4 && shuffle[3] < 4
    && shuffle[0] != shuffle[1] && shuffle[0] != shuffle[2] && shuffle[0] != shuffle[3]
    && shuffle[1] != shuffle[2] && shuffle[1] != shuffle[3] && shuffle[2] != shuffle[3]
  }

  /** The four values of `s` rearranged: position `k` receives `s[shuffle[k]]`. */
  function Shuffled<T>(s: seq<T>, shuffle: seq<nat>): seq<T>
    requires |s| == 4 && IsShuffle(shuffle)
  {
    [s[shuffle[0]], s[shuffle[1]], s[shuffle[2]], s[shuffle[3]]]
  }

  /** Every position is sent somewhere: a shuffle is onto. */
  lemma ShuffleOnto(shuffle: seq<nat>, k: nat)
    requires IsShuffle(shuffle) && k < 4
    ensures exists j :: 0 <= j < 4 && shuffle[j] == k
  {
    if shuffle[0] != k && shuffle[1] != k && shuffle[2] != k {
      assert {shuffle[0], shuffle[1], shuffle[2]} <= {0, 1, 2, 3} - {k};
    }
  }

  /** Every value of `s` is still present after shuffling. */
  lemma ShuffledKeeps<T>(s: seq<T>, shuffle: seq<nat>, k: nat)
    requires |s| == 4 && IsShuffle(shuffle) && k < 4
    ensures s[k] in Shuffled(s, shuffle)
  {
    ShuffleOnto(shuffle, k);
    var j :| 0 <= j < 4 && shuffle[j] == k;
    assert Shuffled(s, shuffle)[j] == s[k];
  }

  /** Adding up four numbers in shuffled order gives the same total. */
  lemma ShuffleSum(h: seq<int>, shuffle: seq<nat>)
    requires |h| == 4 && IsShuffle(shuffle)
    ensures h[shuffle[0]] + h[shuffle[1]] + h[shuffle[2]] + h[shuffle[3]] == h[0] + h[1] + h[2] + h[3]
  {
  }

  /** One if `v` is `x`, else zero. */
  function Hit<T(==)>(v: T, x: T): nat {
    if v == x then 1 else 0
  }

  /** How often `x` occurs in a list of four. */
  lemma CountFour<T>(s: seq<T>, x: T)
    requires |s| == 4
    ensures multiset(s)[x] == Hit(s[0], x) + Hit(s[1], x) + Hit(s[2], x) + Hit(s[3], x)
  {
    assert s == [s[0], s[1], s[2], s[3]];
  }

  /** Shuffling rearranges the values and loses none: the result is a
      permutation of the input. */
  lemma ShuffledPermutes<T>(s: seq<T>, shuffle: seq<nat>)
    requires |s| == 4 && IsShuffle(shuffle)
    ensures multiset(Shuffled(s, shuffle)) == multiset(s)
  {
    var r := Shuffled(s, shuffle);
    forall x ensures multiset(r)[x] == multiset(s)[x] {
      var h := seq(4, k requires 0 <= k < 4 => Hit(s[k], x));
      CountFour(r, x);
      CountFour(s, x);
      ShuffleSum(h, shuffle);
    }
  }

  /** `options` is what option generation may produce for the question with
      id `qid`: the three decoys at the sampled positions of the pool and the
      correct second half, rearranged by `shuffle`. */
  predicate IsOptionList(corpus: seq<Poem>, qid: int, sample: seq<nat>, shuffle: seq<nat>,
                         options: seq<string>, correct: string) {
    && FindPoem(corpus, qid).Some?
    && correct == FindPoem(corpus, qid).value.lower
    && IsSample(sample, |DecoyPool(corpus, qid)|)
    && IsShuffle(shuffle)
    && options == Shuffled(Picked(DecoyPool(corpus, qid), sample) + [correct], shuffle)
  }

  /** Four options that are a permutation of the three decoys and the
      correct second half, the correct one among them. */
  lemma OptionListShape(corpus: seq<Poem>, qid: int, sample: seq<nat>, shuffle: seq<nat>,
                        options: seq<string>, correct: string)
    requires IsOptionList(corpus, qid, sample, shuffle, options, correct)
    ensures |options| == 4
    ensures multiset(options) == multiset(Picked(DecoyPool(corpus, qid), sample) + [correct])
    ensures correct in options
  {
    var all := Picked(DecoyPool(corpus, qid), sample) + [correct];
    ShuffledPermutes(all, shuffle);
    ShuffledKeeps(all, shuffle, 3);
  }

  /** Every option other than the correct one is the second half of a poem
      with a different id. */
  lemma DecoysFromOtherPoems(corpus: seq<Poem>, qid: int, sample: seq<nat>, shuffle: seq<nat>,
                             options: seq<string>, correct: string)
    requires IsOptionList(corpus, qid, sample, shuffle, options, correct)
    ensures forall o :: o in options && o != correct ==> exists p :: p in corpus && p.id != qid && p.lower == o
  {
    var pool := DecoyPool(corpus, qid);
    var all := Picked(pool, sample) + [correct];
    DecoyPoolMembers(corpus, qid);
    PickedFromPool(pool, sample);
    forall o | o in options && o != correct
      ensures exists p :: p in corpus && p.id != qid && p.lower == o
    {
      var j :| 0 <= j < 4 && options[j] == o;
      assert o == all[shuffle[j]] && shuffle[j] < 3;
      assert o == Picked(pool, sample)[shuffle[j]];
      assert o in pool;
    }
  }

  /** Three different positions of a pool without repeats, together with a
      value outside the pool, are four different values; any rearrangement
      of them keeps them different. */
  lemma PickedDistinct<T>(pool: seq<T>, sample: seq<nat>, extra: T, shuffle: seq<nat>)
    requires Distinct(pool) && extra !in pool
    requires IsSample(sample, |pool|) && IsShuffle(shuffle)
    ensures Distinct(Shuffled([pool[sample[0]], pool[sample[1]], pool[sample[2]], extra], shuffle))
  {
  }

  /** When no two poems share a second half, the four options are pairwise
      different. */
  lemma OptionsDistinct(corpus: seq<Poem>, qid: int, sample: seq<nat>, shuffle: seq<nat>,
                        options: seq<string>, correct: string)
    requires IsOptionList(corpus, qid, sample, shuffle, options, correct)
    requires DistinctLowers(corpus)
    ensures Distinct(options)
  {
    var pool := DecoyPool(corpus, qid);
    DecoyPoolDistinct(corpus, qid);
    PickedDistinct(pool, sample, correct, shuffle);
    assert Picked(pool, sample) + [correct] == [pool[sample[0]], pool[sample[1]], pool[sample[2]], correct];
  }

  /** When two poems share a second half, option generation can produce a
      repeated option: both copies may be drawn as decoys, or, when one of
      the two poems is the one asked, the other's copy may be drawn beside
      the correct answer. With `OptionsDistinct` this makes distinct second
      halves necessary and sufficient for distinct options. */
  lemma OptionsMayRepeat(corpus: seq<Poem>, qid: int)
    requires UniqueIds(corpus) && qid in Ids(corpus) && |corpus| >= 4
    requires !DistinctLowers(corpus)
    ensures exists sample, shuffle, options, correct ::
      IsOptionList(corpus, qid, sample, shuffle, options, correct) && !Distinct(options)
  {
    var i, j :| 0 <= i < j < |corpus| && corpus[i].lower == corpus[j].lower;
    DecoyPoolSize(corpus, qid);
    if corpus[i].id != qid && corpus[j].id != qid {
      TwoDecoysRepeat(corpus, qid, i, j);
    } else if corpus[i].id == qid {
      DecoyRepeatsCorrect(corpus, qid, i, j);
    } else {
      DecoyRepeatsCorrect(corpus, qid, j, i);
    }
  }

  /** Two poems other than the one asked that share a second half can both
      be drawn as decoys. */
  lemma TwoDecoysRepeat(corpus: seq<Poem>, qid: int, i: nat, j: nat)
    requires i < j < |corpus| && corpus[i].id != qid && corpus[j].id != qid
    requires corpus[i].lower == corpus[j].lower
    requires FindPoem(corpus, qid).Some? && |DecoyPool(corpus, qid)| >= 3
    ensures exists sample, shuffle, options, correct ::
      IsOptionList(corpus, qid, sample, shuffle, options, correct) && !Distinct(options)
  {
    var x, y := DecoyPoolPair(corpus, qid, i, j);
    var sample := SampleWith(x, y, |DecoyPool(corpus, qid)|);
    RepeatedDraw(corpus, qid, sample, 1);
  }

  /** A poem that shares its second half with the poem asked (poem `k`) can
      be drawn as a decoy beside the correct answer. */
  lemma DecoyRepeatsCorrect(corpus: seq<Poem>, qid: int, k: nat, other: nat)
    requires UniqueIds(corpus) && k < |corpus| && other < |corpus| && k != other
    requires corpus[k].id == qid && corpus[k].lower == corpus[other].lower
    requires |DecoyPool(corpus, qid)| >= 3
    ensures exists sample, shuffle, options, correct ::
      IsOptionList(corpus, qid, sample, shuffle, options, correct) && !Distinct(options)
  {
    assert Ids(corpus)[k] != Ids(corpus)[other];
    FindPoemUnique(corpus, k);
    var x := DecoyPoolAt(corpus, qid, other);
    var sample := SampleWith(x, if x == 0 then 1 else 0, |DecoyPool(corpus, qid)|);
    RepeatedDraw(corpus, qid, sample, 3);
  }

  /** Two different positions of a pool of at least three extend to a
      possible draw of three that starts with them. */
  lemma SampleWith(x: nat, y: nat, n: nat) returns (sample: seq<nat>)
    requires x < n && y < n && x != y && n >= 3
    ensures IsSample(sample, n) && sample[0] == x && sample[1] == y
  {
    var z: nat := if x != 0 && y != 0 then 0 else if x != 1 && y != 1 then 1 else 2;
    sample := [x, y, z];
  }

  /** Four values with a repeat keep a repeat after any shuffle. */
  lemma ShuffledRepeats<T>(s: seq<T>, shuffle: seq<nat>, same: nat)
    requires |s| == 4 && IsShuffle(shuffle) && 0 < same < 4 && s[0] == s[same]
    ensures !Distinct(Shuffled(s, shuffle))
  {
    ShuffleOnto(shuffle, 0);
    ShuffleOnto(shuffle, same);
    var a :| 0 <= a < 4 && shuffle[a] == 0;
    var b :| 0 <= b < 4 && shuffle[b] == same;
    assert a != b && Shuffled(s, shuffle)[a] == Shuffled(s, shuffle)[b];
  }

  /** A draw whose first decoy equals the second decoy (`same == 1`) or the
      correct answer (`same == 3`) yields a repeated option whatever the
      shuffle, and such a draw is possible. */
  lemma RepeatedDraw(corpus: seq<Poem>, qid: int, sample: seq<nat>, same: nat)
    requires FindPoem(corpus, qid).Some?
    requires IsSample(sample, |DecoyPool(corpus, qid)|) && (same == 1 || same == 3)
    requires same == 1 ==> DecoyPool(corpus, qid)[sample[0]] == DecoyPool(corpus, qid)[sample[1]]
    requires same == 3 ==> DecoyPool(corpus, qid)[sample[0]] == FindPoem(corpus, qid).value.lower
    ensures forall shuffle, options, correct ::
      IsOptionList(corpus, qid, sample, shuffle, options, correct) ==> !Distinct(options)
    ensures exists sample', shuffle, options, correct ::
      IsOptionList(corpus, qid, sample', shuffle, options, correct) && !Distinct(options)
  {
    forall shuffle, options, correct | IsOptionList(corpus, qid, sample, shuffle, options, correct)
      ensures !Distinct(options)
    {
      var all := Picked(DecoyPool(corpus, qid), sample) + [correct];
      ShuffledRepeats(all, shuffle, same);
    }
    var correct := FindPoem(corpus, qid).value.lower;
    var shuffle: seq<nat> := [0, 1, 2, 3];
    assert IsShuffle(shuffle);
    var options := Shuffled(Picked(DecoyPool(corpus, qid), sample) + [correct], shuffle);
    assert IsOptionList(corpus, qid, sample, shuffle, options, correct);
  }

  /** A question order chosen by initialisation holds every id of the corpus
      exactly once and nothing else. */
  lemma OrderCoversCorpus(order: seq<int>, corpus: seq<Poem>)
    requires UniqueIds(corpus)
    requires multiset(order) == multiset(Ids(corpus))
    ensures |order| == |corpus|
    ensures Distinct(order)
    ensures forall k :: 0 <= k < |corpus| ==> corpus[k].id in order
    ensures forall x :: x in order ==> FindPoem(corpus, x).Some?
  {
    assert |order| == |multiset(order)| == |Ids(corpus)|;
    DistinctPermutation(Ids(corpus), order);
    forall k | 0 <= k < |corpus| ensures corpus[k].id in order {
      assert Ids(corpus)[k] in multiset(Ids(corpus));
    }
    forall x | x in order ensures x in Ids(corpus) {
      assert x in multiset(order);
    }
  }

  /** The question order for mode `m`: every id of the corpus, shuffled
      into any order in random mode and sorted ascending in ID order. */
  method ChooseOrder(corpus: seq<Poem>, m: Mode) returns (order: seq<int>)
    ensures multiset(order) == multiset(Ids(corpus))
    ensures m == ById ==> Ascending(order)
    ensures m == ById && UniqueIds(corpus) ==> StrictlyAscending(order)
  {
    var ids := Ids(corpus);
    if m == Random {
      order :| multiset(order) == multiset(ids);
    } else {
      SortAscending(ids);
      if UniqueIds(corpus) {
        SortDistinctIsStrict(ids);
      }
      order := Sort(ids);
    }
  }

  /** The order of an ID-order round is the ids of the corpus sorted
      ascending, and no other arrangement qualifies. */
  lemma ByIdOrderIsSorted(order: seq<int>, corpus: seq<Poem>)
    requires UniqueIds(corpus)
    requires IsOrderOf(order, corpus) && StrictlyAscending(order)
    ensures order == Sort(Ids(corpus))
  {
    SortDistinctIsStrict(Ids(corpus));
    StrictOrderUnique(order, Sort(Ids(corpus)));
  }

  /** Option generation for the question with id `qid`: the correct second
      half and three decoys sampled from the second halves of all other
      poems, shuffled together. Fails (`random.sample` raises) exactly when
      fewer than three other poems exist. */
  method GenerateOptions(corpus: seq<Poem>, qid: int)
    returns (ok: bool, options: seq<string>, correct: string, ghost sample: seq<nat>, ghost shuffle: seq<nat>)
    requires UniqueIds(corpus)
    requires qid in Ids(corpus)
    ensures ok <==> |corpus| >= 4
    ensures ok ==> IsOptionList(corpus, qid, sample, shuffle, options, correct)
  {
    correct := FindPoem(corpus, qid).value.lower;
    var pool := DecoyPool(corpus, qid);
    DecoyPoolSize(corpus, qid);
    if |pool| < 3 {
      return false, [], correct, [], [];
    }
    assert IsSample([0, 1, 2], |pool|);
    var drawn: seq<nat> :| IsSample(drawn, |pool|);
    assert IsShuffle([0, 1, 2, 3]);
    var order: seq<nat> :| IsShuffle(order);
    options := Shuffled(Picked(pool, drawn) + [correct], order);
    ok, sample, shuffle := true, drawn, order;
  }

  /** `order` lists every id of the corpus, each as often as the corpus has it. */
  predicate IsOrderOf(order: seq<int>, corpus: seq<Poem>) {
    multiset(order) == multiset(Ids(corpus))
  }

  /** Every id the order lists belongs to a poem of the corpus. */
  lemma OrderedIdsExist(order: seq<int>, corpus: seq<Poem>, i: nat)
    requires IsOrderOf(order, corpus) && i < |order|
    ensures order[i] in Ids(corpus)
  {
    assert order[i] in multiset(order);
  }

  /** The options held for the question at `index` are a possible outcome of
      option generation for it. */
  ghost predicate CurrentOptions(corpus: seq<Poem>, order: seq<int>, index: nat,
                                 options: Option<seq<string>>, correct: Option<string>,
                                 sample: seq<nat>, shuffle: seq<nat>)
  {
    options.Some? ==>
      index < |order| && correct.Some? &&
      IsOptionList(corpus, order[index], sample, shuffle, options.value, correct.value)
  }

  class QuizSession {
    /** The poems, loaded once and never changed. */
    const corpus: seq<Poem>

    /** The chosen order; None until the quiz is first initialised. */
    var mode: Option<Mode>
    /** The ids of the poems in the order they are asked. */
    var questionList: seq<int>
    /** Position of the current question; `|questionList|` when done. */
    var index: nat
    var score: nat
    var isAnswered: bool
    /** The four options of the current question, once generated. */
    var options: Option<seq<string>>
    /** The second half of the question the options were generated for. */
    var correctAnswer: Option<string>
    /** The option the user submitted for the current question. */
    var userLastAnswer: Option<string>
    /** The positions in the decoy pool the current options were drawn from. */
    ghost var sample: seq<nat>
    /** The rearrangement that put the current options in their order. */
    ghost var shuffle: seq<nat>

    ghost predicate Valid()
      reads this
    {
      && |corpus| > 0 && UniqueIds(corpus)
      && (mode.None? ==>
            questionList == [] && index == 0 && score == 0 && !isAnswered &&
            options.None? && userLastAnswer.None?)
      && (mode.Some? ==> IsOrderOf(questionList, corpus))
      && (mode == Some(ById) ==> Ascending(questionList))
      && index <= |questionList|
      && score <= index + (if isAnswered then 1 else 0)
      && (isAnswered ==>
            options.Some? && userLastAnswer.Some? && userLastAnswer.value in options.value)
      && (!isAnswered ==> userLastAnswer.None?)
      && (options.Some? ==> index < |questionList| && correctAnswer.Some?)
      && CurrentOptions(corpus, questionList, index, options, correctAnswer, sample, shuffle)
    }

    /** In ID order the question list stays strictly ascending for the whole
        round, answered or not: it is the sorted list of the poem ids. */
    lemma IdOrderStaysSorted()
      requires Valid() && mode == Some(ById)
      ensures StrictlyAscending(questionList)
      ensures questionList == Sort(Ids(corpus))
    {
      OrderCoversCorpus(questionList, corpus);
      ByIdOrderIsSorted(questionList, corpus);
    }

    /** The state right after (re)initialisation with mode `m`. */
    ghost predicate Started(m: Mode)
      reads this
    {
      && mode == Some(m)
      && index == 0 && score == 0 && !isAnswered
      && options.None? && userLastAnswer.None?
      && IsOrderOf(questionList, corpus)
      && (m == ById ==> StrictlyAscending(questionList))
    }

    /** A session over a loaded, non-empty corpus, before any order is chosen. */
    constructor (corpus: seq<Poem>)
      requires |corpus| > 0 && UniqueIds(corpus)
      ensures Valid() && this.corpus == corpus
      ensures mode.None? && correctAnswer.None?
    {
      this.corpus := corpus;
      mode := None;
      questionList := [];
      index, score, isAnswered := 0, 0, false;
      options, correctAnswer, userLastAnswer := None, None, None;
      sample, shuffle := [], [];
    }

    /** Builds the question order from every poem id, shuffled in random
        mode and ascending otherwise, and resets the round. The correct
        answer of an earlier question is left as it was. */
    method Initialize(m: Mode)
      requires |corpus| > 0 && UniqueIds(corpus)
      modifies this`mode, this`questionList, this`index, this`score, this`isAnswered, this`options, this`userLastAnswer
      ensures Valid() && Started(m)
      ensures correctAnswer == old(correctAnswer)
    {
      var order := ChooseOrder(corpus, m);
      assert m == ById ==> Ascending(order);
      mode, questionList := Some(m), order;
      index, score, isAnswered := 0, 0, false;
      options, userLastAnswer := None, None;
    }

    /** The order chosen in the sidebar: the quiz is initialised on the first
        run and whenever the choice differs from the current mode. */
    method SelectMode(m: Mode)
      requires Valid()
      modifies this
      ensures Valid() && mode == Some(m)
      ensures old(mode) == Some(m) ==> unchanged(this)
      ensures old(mode) != Some(m) ==> Started(m) && correctAnswer == old(correctAnswer)
    {
      if mode.None? || mode.value != m {
        Initialize(m);
      }
    }

    /** The poem asked about at the current position. */
    method CurrentPoem() returns (p: Poem)
      requires Valid() && index < |questionList|
      ensures p in corpus && p.id == questionList[index]
    {
      OrderedIdsExist(questionList, corpus, index);
      p := FindPoem(corpus, questionList[index]).value;
    }

    /** Generates the options of the current question if it has none yet:
        the correct second half and three decoys sampled from the second
        halves of all other poems, shuffled together. Returns false, changing
        nothing, when fewer than three other poems exist (`random.sample`
        then raises). Once generated, the options stay until the next
        question. */
    method EnsureOptions() returns (ok: bool)
      requires Valid() && mode.Some?
      modifies this`options, this`correctAnswer, this`sample, this`shuffle
      ensures Valid()
      ensures ok <==> old(options).Some? || index == |questionList| || |corpus| >= 4
      ensures old(options).Some? || index == |questionList| || !ok ==>
        options == old(options) && correctAnswer == old(correctAnswer)
      ensures ok && index < |questionList| ==> options.Some?
      ensures options.Some? ==>
        |options.value| == 4 && correctAnswer.Some? && correctAnswer.value in options.value &&
        correctAnswer == Some(FindPoem(corpus, questionList[index]).value.lower)
    {
      ok := true;
      if index < |questionList| && options.None? {
        var qid := questionList[index];
        OrderedIdsExist(questionList, corpus, index);
        var generated, correct;
        ghost var drawn, order;
        ok, generated, correct, drawn, order := GenerateOptions(corpus, qid);
        if ok {
          options, correctAnswer, sample, shuffle := Some(generated), Some(correct), drawn, order;
        }
      }
      if options.Some? {
        ShuffledKeeps(Picked(DecoyPool(corpus, questionList[index]), sample) + [correctAnswer.value], shuffle, 3);
      }
    }

    /** The "answer" button, shown only while the question is unanswered:
        records the choice and adds one point exactly when it is correct. */
    method Submit(choice: string)
      requires Valid() && !isAnswered && options.Some? && choice in options.value
      modifies this`userLastAnswer, this`isAnswered, this`score
      ensures Valid() && isAnswered && userLastAnswer == Some(choice)
      ensures score == old(score) + (if Some(choice) == correctAnswer then 1 else 0)
    {
      userLastAnswer := Some(choice);
      isAnswered := true;
      if Some(choice) == correctAnswer {
        score := score + 1;
      }
    }

    /** The "next question" button, shown only once the question is
        answered: moves one question on and drops the options and the
        submitted answer. */
    method Next()
      requires Valid() && isAnswered
      modifies this`index, this`isAnswered, this`options, this`userLastAnswer
      ensures Valid()
      ensures index == old(index) + 1 && !isAnswered
      ensures options.None? && userLastAnswer.None?
    {
      assert index < |questionList| && score <= index + 1;
      index := index + 1;
      isAnswered := false;
      options := None;
      userLastAnswer := None;
    }

    /** The final score, shown once every question has been asked. */
    method FinalScore() returns (points: nat, total: nat)
      requires Valid() && mode.Some? && index == |questionList|
      ensures points == score && total == |corpus|
      ensures points <= total
    {
      OrderCoversCorpus(questionList, corpus);
      points, total := score, |questionList|;
    }

    /** The "try again" button on the final screen: a new round in the same
        mode. */
    method Retry()
      requires Valid() && mode.Some? && index == |questionList|
      modifies this
      ensures Valid() && Started(old(mode).value)
      ensures correctAnswer == old(correctAnswer)
    {
      Initialize(mode.value);
    }
  }

  /** Starting the app: a missing corpus file or an empty corpus shows an
      error and no quiz; otherwise a fresh session over the corpus. */
  method Launch(loaded: Option<seq<Poem>>) returns (session: QuizSession?)
    requires loaded.Some? ==> UniqueIds(loaded.value)
    ensures session != null <==> loaded.Some? && loaded.value != []
    ensures session != null ==>
      fresh(session) && session.Valid() && session.corpus == loaded.value && session.mode.None?
  {
    if loaded.Some? && loaded.value != [] {
      session := new QuizSession(loaded.value);
    } else {
      session := null;
    }
  }
}
