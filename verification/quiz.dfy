/** The question builder of `generatePhotoQuizQuestion` (src/App.tsx:187-235),
    after its size guard. The four `Math.random` uses (choosing the target
    and the two shuffles of distractor pools, then the shuffle of the
    options) are drawn from an explicit oracle. */
module Quiz {
  import opened Seqs
  import opened Text
  import opened Species
  import opened Shuffle

  /** `quizQuestion.bird`: the target's display name and photo URL. */
  datatype Target = Target(name: string, url: Option<string>)

  /** `quizQuestion`: the target and the answer options, in display order. */
  datatype Question = Question(target: Target, options: seq<string>)

  /** The raw oracle values one question consumes: the target draw, then the
      values for the shuffles of the smart pool, the random pool and the
      options, in the order the source makes them. */
  datatype QuizDraws = QuizDraws(target: nat, smart: seq<nat>, random: seq<nat>, options: seq<nat>)

  /** `birds[Math.floor(Math.random() * birds.length)]`: the target draw
      reduced below the length of the list. */
  function Drawn(birds: seq<Bird>, d: QuizDraws): (b: Bird)
    requires |birds| > 0
    ensures b in birds
    ensures d.target < |birds| ==> b == birds[d.target]
  {
    birds[d.target % |birds|]
  }

  /** `getLastName(b.preferred_common_name || b.name)`. */
  function TrailingWord(b: Bird): string
  {
    GetLastName(DisplayName(b))
  }

  /** `otherBirds`: every entry whose id differs from the target's. */
  function Others(birds: seq<Bird>, target: Bird): (r: seq<Bird>)
    ensures !HasId(r, target.id)
    ensures forall b :: b in r <==> b in birds && b.id != target.id
    ensures forall b :: b in birds && b.id != target.id ==> multiset(r)[b] == multiset(birds)[b]
  {
    WithoutId(birds, target.id)
  }

  /** `smartMatches`: the other birds sharing the target's trailing word. */
  function SmartPool(birds: seq<Bird>, target: Bird): (r: seq<Bird>)
    ensures forall b :: b in r ==> TrailingWord(b) == TrailingWord(target)
  {
    Filter(Others(birds, target), (b: Bird) => TrailingWord(b) == TrailingWord(target))
  }

  /** `randomMatches`: the other birds with a different trailing word. */
  function RandomPool(birds: seq<Bird>, target: Bird): (r: seq<Bird>)
    ensures forall b :: b in r ==> TrailingWord(b) != TrailingWord(target)
  {
    Filter(Others(birds, target), (b: Bird) => TrailingWord(b) != TrailingWord(target))
  }

  /** The two pools split the other birds between them. */
  lemma PoolsPartitionOthers(birds: seq<Bird>, target: Bird)
    ensures multiset(SmartPool(birds, target)) + multiset(RandomPool(birds, target)) == multiset(Others(birds, target))
    ensures |SmartPool(birds, target)| + |RandomPool(birds, target)| == |Others(birds, target)|
  {
    FilterPartition(Others(birds, target),
      (b: Bird) => TrailingWord(b) == TrailingWord(target),
      (b: Bird) => TrailingWord(b) != TrailingWord(target));
  }

  /** `numOptions`: three wrong answers, or fewer when the list is small. */
  function DistractorCount(birds: seq<Bird>, target: Bird): nat
  {
    Min(3, |Others(birds, target)|)
  }

  /** Steps 5 and 6: up to `k` from `smart`, then as many from `random` as are
      still needed. The result is the first `min(k, |smart|)` of `smart`
      followed by the first of `random`. */
  function PickDistractors(smart: seq<Bird>, random: seq<Bird>, k: nat): (r: seq<Bird>)
    ensures |r| == Min(k, |smart| + |random|)
    ensures multiset(r) <= multiset(smart) + multiset(random)
    ensures forall i :: 0 <= i < Min(k, |smart|) ==> r[i] == smart[i]
    ensures forall i :: Min(k, |smart|) <= i < |r| ==> r[i] == random[i - Min(k, |smart|)]
  {
    var smartToAdd := Take(smart, k);
    var randomNeeded := k - |smartToAdd|;
    if randomNeeded > 0 then smartToAdd + Take(random, randomNeeded)
    else smartToAdd
  }

  /** `wrongAnswers`: exactly `numOptions` distinct entries of the other birds
      (no entry twice, none with the target's id). The first
      `min(numOptions, |smart pool|)` share the target's trailing word and
      the rest do not, so a bird with a different trailing word is only
      taken once every bird sharing it has been. */
  function Distractors(birds: seq<Bird>, target: Bird, d: QuizDraws): (r: seq<Bird>)
    ensures |r| == DistractorCount(birds, target)
    ensures multiset(r) <= multiset(Others(birds, target))
    ensures forall b :: b in r ==> b.id != target.id
    ensures forall i :: 0 <= i < |r| ==>
      (TrailingWord(r[i]) == TrailingWord(target) <==> i < Min(|r|, |SmartPool(birds, target)|))
    ensures (exists b :: b in r && TrailingWord(b) != TrailingWord(target)) ==>
      multiset(SmartPool(birds, target)) <= multiset(r)
  {
    var smart := ShuffleBy(SmartPool(birds, target), d.smart);
    var random := ShuffleBy(RandomPool(birds, target), d.random);
    PoolsPartitionOthers(birds, target);
    PickFacts(Others(birds, target), SmartPool(birds, target), RandomPool(birds, target),
      smart, random, target.id, TrailingWord(target));
    PickDistractors(smart, random, DistractorCount(birds, target))
  }

  /** The facts behind `Distractors`, over the pools as plain sequences. */
  lemma PickFacts(others: seq<Bird>, smartPool: seq<Bird>, randomPool: seq<Bird>,
                  smart: seq<Bird>, random: seq<Bird>, id: Id, w: string)
    requires multiset(smart) == multiset(smartPool) && multiset(random) == multiset(randomPool)
    requires multiset(smartPool) + multiset(randomPool) == multiset(others)
    requires forall b :: b in smartPool ==> TrailingWord(b) == w
    requires forall b :: b in randomPool ==> TrailingWord(b) != w
    requires !HasId(others, id)
    ensures var r := PickDistractors(smart, random, Min(3, |others|));
      && |r| == Min(3, |others|)
      && multiset(r) <= multiset(others)
      && (forall b :: b in r ==> b.id != id)
      && (forall i :: 0 <= i < |r| ==> (TrailingWord(r[i]) == w <==> i < Min(|r|, |smartPool|)))
      && ((exists b :: b in r && TrailingWord(b) != w) ==> multiset(smartPool) <= multiset(r))
  {
    var k := Min(3, |others|);
    var r := PickDistractors(smart, random, k);
    assert |smart| == |smartPool| by {
      assert |multiset(smart)| == |multiset(smartPool)|;
    }
    SameElements(smart, smartPool);
    SameElements(random, randomPool);
    PickFromPools(smart, random, others, k);
    PickByTrailingWord(smart, random, k, w);
    PickOtherWordLate(smart, random, k, w);
    PickSmartFirst(smart, random, k);
    assert forall b :: b in r ==> b in multiset(others);
  }

  /** Sequences with the same multiset have the same elements. */
  lemma SameElements(a: seq<Bird>, b: seq<Bird>)
    requires multiset(a) == multiset(b)
    ensures forall x :: x in a <==> x in b
  {
    assert forall x :: x in a <==> x in multiset(a);
  }

  /** Picking `k` from two pools that together make up `others` (at least `k`
      long) picks exactly `k`, none of them twice. */
  lemma PickFromPools(smart: seq<Bird>, random: seq<Bird>, others: seq<Bird>, k: nat)
    requires multiset(smart) + multiset(random) == multiset(others)
    requires k <= |others|
    ensures |PickDistractors(smart, random, k)| == k
    ensures multiset(PickDistractors(smart, random, k)) <= multiset(others)
  {
    assert |multiset(smart) + multiset(random)| == |multiset(others)|;
  }

  /** When the first pool shares the trailing word `w` and the second does
      not, the picked sequence shares it exactly on its first
      `min(|r|, |smart|)` positions. */
  lemma PickByTrailingWord(smart: seq<Bird>, random: seq<Bird>, k: nat, w: string)
    requires forall b :: b in smart ==> TrailingWord(b) == w
    requires forall b :: b in random ==> TrailingWord(b) != w
    ensures var r := PickDistractors(smart, random, k);
      forall i :: 0 <= i < |r| ==> (TrailingWord(r[i]) == w <==> i < Min(|r|, |smart|))
  {
    var r := PickDistractors(smart, random, k);
    var s := Min(k, |smart|);
    forall i | 0 <= i < |r|
      ensures TrailingWord(r[i]) == w <==> i < s
    {
      if i < s {
        assert r[i] == smart[i];
      } else {
        assert r[i] == random[i - s];
      }
    }
  }

  /** So a picked bird with another trailing word means the first pool was
      exhausted. */
  lemma PickOtherWordLate(smart: seq<Bird>, random: seq<Bird>, k: nat, w: string)
    requires forall b :: b in smart ==> TrailingWord(b) == w
    requires forall b :: b in random ==> TrailingWord(b) != w
    ensures var r := PickDistractors(smart, random, k);
      (exists b :: b in r && TrailingWord(b) != w) ==> |r| > |smart|
  {
    var r := PickDistractors(smart, random, k);
    PickByTrailingWord(smart, random, k, w);
    if exists b :: b in r && TrailingWord(b) != w {
      var b :| b in r && TrailingWord(b) != w;
      var i :| 0 <= i < |r| && r[i] == b;
    }
  }

  /** Picking more than the first pool holds takes all of the first pool. */
  lemma PickSmartFirst(smart: seq<Bird>, random: seq<Bird>, k: nat)
    ensures var r := PickDistractors(smart, random, k);
      |r| > |smart| ==> multiset(smart) <= multiset(r)
  {
    var r := PickDistractors(smart, random, k);
    if |r| > |smart| {
      assert r[..|smart|] == smart;
      assert r == r[..|smart|] + r[|smart|..];
    }
  }

  /** `wrongAnswers.map(b => b.preferred_common_name || b.name)`. */
  function Names(s: seq<Bird>): (r: seq<string>)
    ensures |r| == |s|
    ensures forall i :: 0 <= i < |s| ==> r[i] == DisplayName(s[i])
  {
    seq(|s|, i requires 0 <= i < |s| => DisplayName(s[i]))
  }

  /** Steps 1 to 7: the question for the drawn target. Its options are the
      distractors' names and the target's name, shuffled: one more than the
      number of distractors, and the target's name among them. */
  function BuildQuestion(birds: seq<Bird>, d: QuizDraws): (q: Question)
    requires |birds| > 0
    ensures q.target == Target(DisplayName(Drawn(birds, d)), PhotoUrl(Drawn(birds, d)))
    ensures |q.options| == DistractorCount(birds, Drawn(birds, d)) + 1
    ensures q.target.name in q.options
    ensures multiset(q.options) == multiset(Names(Distractors(birds, Drawn(birds, d), d))) + multiset{q.target.name}
  {
    var target := Drawn(birds, d);
    var correctName := DisplayName(target);
    var options := Names(Distractors(birds, target, d)) + [correctName];
    var finalOptions := ShuffleBy(options, d.options);
    assert correctName in multiset(finalOptions);
    Question(Target(correctName, PhotoUrl(target)), finalOptions)
  }

  /** With unique identifiers, a question over `n` birds has `min(4, n)`
      options. */
  lemma OptionCountUniqueIds(birds: seq<Bird>, d: QuizDraws)
    requires |birds| > 0 && UniqueIds(birds)
    ensures |BuildQuestion(birds, d).options| == Min(4, |birds|)
  {
    WithoutIdUnique(birds, d.target % |birds|);
  }

  /** The pools when the other birds are exactly `x` and `y`. */
  lemma PoolsOfTwo(birds: seq<Bird>, target: Bird, x: Bird, y: Bird)
    requires Others(birds, target) == [x, y]
    ensures SmartPool(birds, target) ==
      (if TrailingWord(x) == TrailingWord(target) then [x] else [])
      + (if TrailingWord(y) == TrailingWord(target) then [y] else [])
    ensures RandomPool(birds, target) ==
      (if TrailingWord(x) != TrailingWord(target) then [x] else [])
      + (if TrailingWord(y) != TrailingWord(target) then [y] else [])
  {
    var same := (b: Bird) => TrailingWord(b) == TrailingWord(target);
    var differ := (b: Bird) => TrailingWord(b) != TrailingWord(target);
    assert [x, y] == [x] + [y] && [y] == [y] + [];
    FilterCons(x, [y], same);
    FilterCons(y, [], same);
    FilterCons(x, [y], differ);
    FilterCons(y, [], differ);
  }

  /** The target's name can be the correct answer twice: two records with
      different ids and the same display name give a two-option question
      whose options are both that name. */
  lemma DuplicateDisplayNames(a: Bird, b: Bird, d: QuizDraws)
    requires a.id != b.id && DisplayName(a) == DisplayName(b)
    requires d.target == 0
    ensures var q := BuildQuestion([a, b], d);
      q.target.name == DisplayName(a) && q.options == [DisplayName(a), DisplayName(a)]
  {
    TwoBirdDistractors(a, b, d);
    OptionsOfOneDistractor([a, b], d, b);
  }

  /** A question whose one distractor has the target's display name offers
      that name twice. */
  lemma OptionsOfOneDistractor(birds: seq<Bird>, d: QuizDraws, x: Bird)
    requires |birds| > 0 && Distractors(birds, Drawn(birds, d), d) == [x]
    requires DisplayName(x) == DisplayName(Drawn(birds, d))
    ensures BuildQuestion(birds, d).options == [DisplayName(x), DisplayName(x)]
  {
    NamesOfOne(Distractors(birds, Drawn(birds, d), d), x);
    OptionsOfTwo(BuildQuestion(birds, d).options, Names(Distractors(birds, Drawn(birds, d), d)), DisplayName(x));
  }

  /** The names of a one-bird list. */
  lemma NamesOfOne(s: seq<Bird>, x: Bird)
    requires s == [x]
    ensures Names(s) == [DisplayName(x)]
  {
  }

  /** Two options whose multiset is two copies of `n` are `n` twice. */
  lemma OptionsOfTwo(options: seq<string>, names: seq<string>, n: string)
    requires names == [n] && multiset(options) == multiset(names) + multiset{n}
    ensures options == [n, n]
  {
    assert |options| == |multiset(options)| == 2;
    assert options[0] in multiset(options) && options[1] in multiset(options);
  }

  /** With two birds, the other one is the only distractor. */
  lemma TwoBirdDistractors(a: Bird, b: Bird, d: QuizDraws)
    requires a.id != b.id
    requires d.target == 0
    ensures Distractors([a, b], a, d) == [b]
    ensures DistractorCount([a, b], a) == 1
  {
    TwoBirdOthers(a, b);
    DistractorsOfOne([a, b], a, d, b);
  }

  /** When the target leaves one other bird, that bird is the distractor. */
  lemma DistractorsOfOne(birds: seq<Bird>, target: Bird, d: QuizDraws, x: Bird)
    requires Others(birds, target) == [x]
    ensures Distractors(birds, target, d) == [x]
  {
    OneOfOne(Distractors(birds, target, d), Others(birds, target), x);
  }

  /** One element drawn from `[x]` is `x`. */
  lemma OneOfOne(r: seq<Bird>, others: seq<Bird>, x: Bird)
    requires others == [x] && |r| == Min(3, |others|) && multiset(r) <= multiset(others)
    ensures r == [x]
  {
    assert r[0] in multiset(others);
  }

  /** With two birds of distinct ids, the other birds of the first are the
      second. */
  lemma TwoBirdOthers(a: Bird, b: Bird)
    requires a.id != b.id
    ensures Others([a, b], a) == [b]
  {
    WithoutIdKeep(b, [], [], a.id);
    WithoutIdDrop(a, [b], [b], a.id);
  }

  /** The trailing words of the three example names. */
  lemma ExampleTrailingWords()
    ensures GetLastName("Sokoke Pipit") == "Pipit"
    ensures GetLastName("Amani Sunbird") == "Sunbird"
    ensures GetLastName("Taita Sunbird") == "Sunbird"
  {
    PipitWord();
    AmaniWord();
    TaitaWord();
  }

  /** The facts about single example names are kept in lemmas of their own:
      each is a short proof on its own, while together with the facts about
      `Distractors` and `BuildQuestion` in scope they become costly. */
  lemma PipitWord()
    ensures GetLastName("Sokoke Pipit") == "Pipit"
  {
    GetLastNameAfterSpace("Sokoke", "Pipit");
    assert "Sokoke Pipit" == "Sokoke" + " " + "Pipit";
  }

  lemma AmaniWord()
    ensures GetLastName("Amani Sunbird") == "Sunbird"
  {
    GetLastNameAfterSpace("Amani", "Sunbird");
    assert "Amani Sunbird" == "Amani" + " " + "Sunbird";
  }

  lemma TaitaWord()
    ensures GetLastName("Taita Sunbird") == "Sunbird"
  {
    GetLastNameAfterSpace("Taita", "Sunbird");
    assert "Taita Sunbird" == "Taita" + " " + "Sunbird";
  }

  /** Three birds with distinct ids, the drawn target sharing its trailing
      word with the third bird only: the third bird is the smart pick, the
      first the random one, and the options are the three names. */
  lemma ThreeBirdQuestion(first: Bird, target: Bird, third: Bird, d: QuizDraws)
    requires first.id != target.id && target.id != third.id && first.id != third.id
    requires TrailingWord(target) == TrailingWord(third) && TrailingWord(first) != TrailingWord(target)
    requires d.target == 1
    ensures SmartPool([first, target, third], target) == [third]
    ensures RandomPool([first, target, third], target) == [first]
    ensures multiset(BuildQuestion([first, target, third], d).options)
      == multiset{DisplayName(first), DisplayName(target), DisplayName(third)}
  {
    ThreeBirdPools(first, target, third);
    ThreeBirdDistractors(first, target, third, d);
    ThreeBirdOptions(first, target, third, d);
  }

  /** The pools of the three-bird example. */
  lemma ThreeBirdPools(first: Bird, target: Bird, third: Bird)
    requires first.id != target.id && target.id != third.id
    requires TrailingWord(target) == TrailingWord(third) && TrailingWord(first) != TrailingWord(target)
    ensures Others([first, target, third], target) == [first, third]
    ensures SmartPool([first, target, third], target) == [third]
    ensures RandomPool([first, target, third], target) == [first]
  {
    ThreeBirdOthers(first, target, third);
    PoolsOfTwo([first, target, third], target, first, third);
  }

  /** The options of the three-bird example, once its distractors are known. */
  lemma ThreeBirdOptions(first: Bird, target: Bird, third: Bird, d: QuizDraws)
    requires d.target == 1
    requires Distractors([first, target, third], target, d) == [third, first]
    ensures multiset(BuildQuestion([first, target, third], d).options)
      == multiset{DisplayName(first), DisplayName(target), DisplayName(third)}
  {
    OptionsOfTwoDistractors([first, target, third], d, third, first);
  }

  /** A question with the two distractors `x` and `y` offers their names and
      the target's, once each. */
  lemma OptionsOfTwoDistractors(birds: seq<Bird>, d: QuizDraws, x: Bird, y: Bird)
    requires |birds| > 0 && Distractors(birds, Drawn(birds, d), d) == [x, y]
    ensures multiset(BuildQuestion(birds, d).options)
      == multiset{DisplayName(y), DisplayName(Drawn(birds, d)), DisplayName(x)}
  {
    var names := Names(Distractors(birds, Drawn(birds, d), d));
    NamesOfTwo(Distractors(birds, Drawn(birds, d), d), x, y);
    OptionsOfThree(BuildQuestion(birds, d).options, names,
      DisplayName(y), DisplayName(Drawn(birds, d)), DisplayName(x));
  }

  /** The names of a two-bird list. */
  lemma NamesOfTwo(s: seq<Bird>, x: Bird, y: Bird)
    requires s == [x, y]
    ensures Names(s) == [DisplayName(x), DisplayName(y)]
  {
  }

  /** Two names plus a third make the multiset of the three. */
  lemma OptionsOfThree(options: seq<string>, names: seq<string>, a: string, b: string, c: string)
    requires names == [c, a] && multiset(options) == multiset(names) + multiset{b}
    ensures multiset(options) == multiset{a, b, c}
  {
  }

  /** With three birds of distinct ids, the other birds of the middle one are
      the outer two. */
  lemma ThreeBirdOthers(first: Bird, target: Bird, third: Bird)
    requires first.id != target.id && target.id != third.id
    ensures Others([first, target, third], target) == [first, third]
  {
    var id := target.id;
    WithoutIdKeep(third, [], [], id);
    WithoutIdDrop(target, [third], [third], id);
    WithoutIdKeep(first, [target, third], [third], id);
  }

  /** The distractors of the three-bird example: the smart pick, then the
      random one. */
  lemma ThreeBirdDistractors(first: Bird, target: Bird, third: Bird, d: QuizDraws)
    requires Others([first, target, third], target) == [first, third]
    requires SmartPool([first, target, third], target) == [third]
    requires TrailingWord(target) == TrailingWord(third) && TrailingWord(first) != TrailingWord(target)
    requires d.target == 1
    ensures Distractors([first, target, third], target, d) == [third, first]
  {
    DistractorsOfTwo([first, target, third], target, d, first, third);
  }

  /** When the target leaves `x` and `y`, and only `y` shares its trailing
      word, the distractors are `y` then `x`. */
  lemma DistractorsOfTwo(birds: seq<Bird>, target: Bird, d: QuizDraws, x: Bird, y: Bird)
    requires Others(birds, target) == [x, y] && SmartPool(birds, target) == [y]
    requires TrailingWord(target) == TrailingWord(y) && TrailingWord(x) != TrailingWord(target)
    ensures Distractors(birds, target, d) == [y, x]
  {
    var r := Distractors(birds, target, d);
    TwoOfTwo(r, Others(birds, target), x, y, TrailingWord(target), TrailingWord(r[0]), TrailingWord(r[1]),
      TrailingWord(x), TrailingWord(y));
  }

  /** Two elements drawn from `[x, y]`, told apart by their trailing words
      `w0` and `w1`, are `y` then `x`. The trailing words are passed as plain
      strings, so the proof does not unfold `TrailingWord`. */
  lemma TwoOfTwo(r: seq<Bird>, others: seq<Bird>, x: Bird, y: Bird, w: string, w0: string, w1: string, wx: string, wy: string)
    requires others == [x, y] && |r| == 2 && multiset(r) <= multiset(others)
    requires w0 == w && w1 != w && wy == w && wx != w
    requires (r[0] == x ==> w0 == wx) && (r[0] == y ==> w0 == wy)
    requires (r[1] == x ==> w1 == wx) && (r[1] == y ==> w1 == wy)
    ensures r == [y, x]
  {
    assert r[0] in multiset(others) && r[1] in multiset(others);
  }

  /** The three-bird example with its own names: with the Amani Sunbird
      drawn, the options are the three names once each. */
  lemma SunbirdExample(pipit: Bird, amani: Bird, taita: Bird, d: QuizDraws)
    requires pipit.commonName == Some("Sokoke Pipit")
    requires amani.commonName == Some("Amani Sunbird")
    requires taita.commonName == Some("Taita Sunbird")
    requires pipit.id != amani.id && amani.id != taita.id && pipit.id != taita.id
    requires d.target == 1
    ensures multiset(BuildQuestion([pipit, amani, taita], d).options)
      == multiset{"Sokoke Pipit", "Amani Sunbird", "Taita Sunbird"}
  {
    ExampleTrailingWords();
    ThreeBirdQuestion(pipit, amani, taita, d);
  }
}
