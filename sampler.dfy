/**
 * `prepareWeightedArray` and `randomShuffle`: a column of `neededLength`
 * (or more) draws from weighted choices, made of copies proportional to the
 * weights, padded with random picks and shuffled with Fisher-Yates.
 *
 * Weights are divided by the smallest defined weight `m` in the source; the
 * model keeps each normalised weight as the exact ratio `w / m` (a part
 * together with `m`) and works with `m` times the total, so every quotient
 * below is an integer one. Each `Math.random()` draw is a raw natural number
 * from an oracle, reduced modulo the range it is scaled to.
 */
module Sampler {
  import opened Wrappers
  import opened Parts

  /** An element of the output: `{...part, weight: w / m}`, or undefined (an empty choice list indexed). */
  datatype Drawn = Drawn(part: Part, minWeight: Option<pos>) | Missing

  /** The random draws one call consumes: those of the padding loop and those of the shuffle. */
  datatype Draws = Draws(fill: nat -> nat, shuffle: nat -> nat)

  /** The `reduce` for the smallest defined weight; None stands for its Infinity start value. */
  function MinWeight(cs: seq<Part>): (m: Option<pos>)
    ensures m.None? <==> forall i :: 0 <= i < |cs| ==> cs[i].weight.None?
    ensures m.Some? ==> exists i :: 0 <= i < |cs| && cs[i].weight == m
    ensures m.Some? ==> forall i :: 0 <= i < |cs| && cs[i].weight.Some? ==> m.value <= cs[i].weight.value
  {
    if cs == [] then None
    else
      var prefix := cs[..|cs| - 1];
      var rest := MinWeight(prefix);
      assert forall i :: 0 <= i < |prefix| ==> prefix[i] == cs[i];
      var w := cs[|cs| - 1].weight;
      if w.Some? && (rest.None? || w.value < rest.value) then w else rest
  }

  /**
   * `m` times the source's `totalWeight`: each defined weight counts with its
   * value, each missing weight counts as `m` (the `|| 1` of the source).
   */
  function ScaledTotal(cs: seq<Part>, m: nat): nat
  {
    if cs == [] then 0
    else ScaledTotal(cs[..|cs| - 1], m) + (if cs[|cs| - 1].weight.Some? then cs[|cs| - 1].weight.value else m)
  }

  lemma {:induction false} ScaledTotalCoversWeight(cs: seq<Part>, m: nat, i: nat)
    requires i < |cs| && cs[i].weight.Some?
    ensures ScaledTotal(cs, m) >= cs[i].weight.value
  {
    if i < |cs| - 1 {
      assert cs[..|cs| - 1][i] == cs[i];
      ScaledTotalCoversWeight(cs[..|cs| - 1], m, i);
    }
  }

  /**
   * How many copies of choice `i` the source pushes: `floor(w/m * scale)`
   * with `scale = max(N / totalWeight, 1)`; that is `w*N div D` when
   * `N*m >= D` and `w div m` otherwise, `D` being the scaled total. A choice
   * without weight gets none.
   */
  function Copies(cs: seq<Part>, i: nat, neededLength: nat): nat
    requires i < |cs|
  {
    match MinWeight(cs)
    case None => 0
    case Some(m) =>
      match cs[i].weight
      case None => 0
      case Some(w) =>
        ScaledTotalCoversWeight(cs, m, i);
        ScaledCopies(w, neededLength, m, ScaledTotal(cs, m))
  }

  /** `floor(w/m * scale)` for a choice of weight `w`, smallest weight `m` and scaled total `d`. */
  function ScaledCopies(w: nat, neededLength: nat, m: pos, d: pos): nat
  {
    NatProduct(w, neededLength);
    if neededLength * m >= d then w * neededLength / d else w / m
  }

  /** Without clamping, the copies times the scaled total stay below `neededLength` times the weight. */
  lemma ScaledCopiesBelow(w: nat, neededLength: nat, m: pos, d: pos)
    requires neededLength * m >= d
    ensures d * ScaledCopies(w, neededLength, m, d) <= neededLength * w
  {
    var p := w * neededLength;
    NatProduct(w, neededLength);
    MulDivBelow(p, d);
    MulComm(w, neededLength);
  }

  lemma MulComm(a: nat, b: nat)
    ensures a * b == b * a
  {
  }

  lemma NatProduct(a: nat, b: nat)
    ensures a * b >= 0
  {
  }

  /** The normalised choices `adjustedChoices`. */
  function Normalized(cs: seq<Part>): (r: seq<Drawn>)
    ensures |r| == |cs|
  {
    seq(|cs|, i requires 0 <= i < |cs| => Drawn(cs[i], MinWeight(cs)))
  }

  function Repeat<T>(x: T, count: nat): (r: seq<T>)
    ensures |r| == count && forall k :: 0 <= k < count ==> r[k] == x
  {
    seq(count, _ => x)
  }

  /** The nested loops before padding, over the first `k` choices. */
  function BaseOf(cs: seq<Part>, neededLength: nat, k: nat): seq<Drawn>
    requires k <= |cs|
  {
    if k == 0 then []
    else BaseOf(cs, neededLength, k - 1) + Repeat(Normalized(cs)[k - 1], Copies(cs, k - 1, neededLength))
  }

  /** The total number of copies of the first `k` choices. */
  function SumCopies(cs: seq<Part>, neededLength: nat, k: nat): nat
    requires k <= |cs|
  {
    if k == 0 then 0 else SumCopies(cs, neededLength, k - 1) + Copies(cs, k - 1, neededLength)
  }

  /** `adjustedChoices[Math.floor(Math.random() * adjustedChoices.length)]`. */
  function Pick(adjusted: seq<Drawn>, draw: nat): Drawn
  {
    if |adjusted| == 0 then Missing else adjusted[draw % |adjusted|]
  }

  /** The padding loop from its `j`-th draw on. */
  function PadFrom(s: seq<Drawn>, adjusted: seq<Drawn>, neededLength: nat, fill: nat -> nat, j: nat): seq<Drawn>
    decreases neededLength - |s|
  {
    if |s| >= neededLength then s
    else PadFrom(s + [Pick(adjusted, fill(j))], adjusted, neededLength, fill, j + 1)
  }

  function Swap<T>(s: seq<T>, i: nat, j: nat): (r: seq<T>)
    requires i < |s| && j < |s|
    ensures |r| == |s|
  {
    s[i := s[j]][j := s[i]]
  }

  /**
   * The Fisher-Yates loop of `randomShuffle` from its `j`-th step on: with
   * `c = |s| - j` elements still unfixed, position `c - 1` is swapped with a
   * drawn position below `c`.
   */
  function ShuffleFrom<T>(s: seq<T>, shuffle: nat -> nat, j: nat): seq<T>
    requires j <= |s|
    decreases |s| - j
  {
    if j == |s| then s
    else
      var c := |s| - j;
      ShuffleFrom(Swap(s, c - 1, shuffle(j) % c), shuffle, j + 1)
  }

  /** The column `prepareWeightedArray(cs, neededLength)` returns. */
  function Sample(cs: seq<Part>, neededLength: nat, draws: Draws): seq<Drawn>
  {
    var padded := PadFrom(BaseOf(cs, neededLength, |cs|), Normalized(cs), neededLength, draws.fill, 0);
    ShuffleFrom(padded, draws.shuffle, 0)
  }

  /** `randomShuffle(arr)`: shuffles in place; null stands for an argument that is not an array. */
  method RandomShuffle<T>(arr: array?<T>, shuffle: nat -> nat)
    modifies arr
    ensures arr != null ==> arr[..] == ShuffleFrom(old(arr[..]), shuffle, 0)
  {
    if arr == null {
      return;
    }
    var currentIndex := arr.Length;
    while currentIndex != 0
      invariant 0 <= currentIndex <= arr.Length
      invariant ShuffleFrom(arr[..], shuffle, arr.Length - currentIndex) == ShuffleFrom(old(arr[..]), shuffle, 0)
    {
      var randomIndex := shuffle(arr.Length - currentIndex) % currentIndex;
      currentIndex := currentIndex - 1;
      ghost var before := arr[..];
      arr[currentIndex], arr[randomIndex] := arr[randomIndex], arr[currentIndex];
      assert arr[..] == Swap(before, currentIndex, randomIndex);
    }
  }

  /** `prepareWeightedArray(weightedChoices, neededLength)`. */
  method PrepareWeightedArray(weightedChoices: seq<Part>, neededLength: nat, draws: Draws) returns (ret: seq<Drawn>)
    ensures ret == Sample(weightedChoices, neededLength, draws)
  {
    var adjustedChoices := Normalized(weightedChoices);
    var acc: seq<Drawn> := [];
    for i := 0 to |adjustedChoices|
      invariant acc == BaseOf(weightedChoices, neededLength, i)
    {
      var choice := adjustedChoices[i];
      var count := Copies(weightedChoices, i, neededLength);
      for ii := 0 to count
        invariant acc == BaseOf(weightedChoices, neededLength, i) + Repeat(choice, ii)
      {
        acc := acc + [choice];
      }
    }
    var j := 0;
    while |acc| < neededLength
      invariant PadFrom(acc, adjustedChoices, neededLength, draws.fill, j) ==
                PadFrom(BaseOf(weightedChoices, neededLength, |weightedChoices|), adjustedChoices, neededLength, draws.fill, 0)
      decreases neededLength - |acc|
    {
      acc := acc + [Pick(adjustedChoices, draws.fill(j))];
      j := j + 1;
    }
    var arr := new Drawn[|acc|](k requires 0 <= k < |acc| => acc[k]);
    assert arr[..] == acc;
    RandomShuffle(arr, draws.shuffle);
    ret := arr[..];
  }

  lemma SwapPermutes<T>(s: seq<T>, i: nat, j: nat)
    requires i < |s| && j < |s|
    ensures multiset(Swap(s, i, j)) == multiset(s)
  {
    var t := s[i := s[j]];
    assert multiset(t) == multiset(s) - multiset{s[i]} + multiset{s[j]};
    assert t[j] == (if i == j then s[j] else s[j]);
  }

  /** Each shuffle step only exchanges two positions, so the shuffle permutes. */
  lemma ShufflePermutes<T>(s: seq<T>, shuffle: nat -> nat, j: nat)
    requires j <= |s|
    ensures |ShuffleFrom(s, shuffle, j)| == |s|
    ensures multiset(ShuffleFrom(s, shuffle, j)) == multiset(s)
  {
    ShuffleLength(s, shuffle, j);
    ShuffleMultiset(s, shuffle, j);
  }

  lemma {:induction false} ShuffleLength<T>(s: seq<T>, shuffle: nat -> nat, j: nat)
    requires j <= |s|
    ensures |ShuffleFrom(s, shuffle, j)| == |s|
    decreases |s| - j
  {
    if j < |s| {
      var c := |s| - j;
      ShuffleLength(Swap(s, c - 1, shuffle(j) % c), shuffle, j + 1);
    }
  }

  lemma {:induction false} ShuffleMultiset<T>(s: seq<T>, shuffle: nat -> nat, j: nat)
    requires j <= |s|
    ensures multiset(ShuffleFrom(s, shuffle, j)) == multiset(s)
    decreases |s| - j
  {
    if j < |s| {
      var c := |s| - j;
      var r := shuffle(j) % c;
      SwapPermutes(s, c - 1, r);
      ShuffleMultiset(Swap(s, c - 1, r), shuffle, j + 1);
    }
  }

  /** Padding keeps what is there and adds picks until the length is reached. */
  lemma {:induction false} PadFacts(s: seq<Drawn>, adjusted: seq<Drawn>, neededLength: nat, fill: nat -> nat, j: nat)
    ensures |PadFrom(s, adjusted, neededLength, fill, j)| == if |s| >= neededLength then |s| else neededLength
    ensures PadFrom(s, adjusted, neededLength, fill, j)[..|s|] == s
    ensures |adjusted| > 0 ==> forall k :: |s| <= k < |PadFrom(s, adjusted, neededLength, fill, j)| ==>
              PadFrom(s, adjusted, neededLength, fill, j)[k] in adjusted
    decreases neededLength - |s|
  {
    if |s| < neededLength {
      var s' := s + [Pick(adjusted, fill(j))];
      PadFacts(s', adjusted, neededLength, fill, j + 1);
      var r := PadFrom(s', adjusted, neededLength, fill, j + 1);
      assert r[..|s'|][..|s|] == s;
      assert r[..|s|] == s;
    }
  }

  lemma {:induction false} BaseLength(cs: seq<Part>, neededLength: nat, k: nat)
    requires k <= |cs|
    ensures |BaseOf(cs, neededLength, k)| == SumCopies(cs, neededLength, k)
  {
    if k > 0 {
      BaseLength(cs, neededLength, k - 1);
    }
  }

  /**
   * The column is as long as the copies, or `neededLength` if that is more:
   * never shorter than `neededLength`, and longer when the copies are.
   */
  lemma SampleLength(cs: seq<Part>, neededLength: nat, draws: Draws)
    ensures |Sample(cs, neededLength, draws)| ==
              if SumCopies(cs, neededLength, |cs|) >= neededLength then SumCopies(cs, neededLength, |cs|) else neededLength
    ensures |Sample(cs, neededLength, draws)| >= neededLength
  {
    var base := BaseOf(cs, neededLength, |cs|);
    BaseLength(cs, neededLength, |cs|);
    PadFacts(base, Normalized(cs), neededLength, draws.fill, 0);
    ShufflePermutes(PadFrom(base, Normalized(cs), neededLength, draws.fill, 0), draws.shuffle, 0);
  }

  lemma MulDivBelow(x: nat, d: nat)
    requires d > 0
    ensures d * (x / d) <= x
  {
  }

  lemma Distribute(a: nat, b: nat, c: nat)
    ensures a * (b + c) == a * b + a * c
  {
  }

  /** The copies of one choice, times the scaled total, stay below `neededLength` times its weight. */
  lemma ScaledCopiesStep(cs: seq<Part>, neededLength: nat, m: pos, i: nat)
    requires MinWeight(cs) == Some(m) && neededLength * m >= ScaledTotal(cs, m)
    requires i < |cs|
    ensures ScaledTotal(cs, m) * Copies(cs, i, neededLength) <= neededLength * (if cs[i].weight.Some? then cs[i].weight.value else m)
  {
    var d := ScaledTotal(cs, m);
    if cs[i].weight.Some? {
      var w := cs[i].weight.value;
      ScaledTotalCoversWeight(cs, m, i);
      assert Copies(cs, i, neededLength) == ScaledCopies(w, neededLength, m, d);
      ScaledCopiesBelow(w, neededLength, m, d);
    }
  }

  lemma {:induction false} ScaledCopiesBound(cs: seq<Part>, neededLength: nat, m: pos, k: nat)
    requires MinWeight(cs) == Some(m) && neededLength * m >= ScaledTotal(cs, m)
    requires k <= |cs|
    ensures ScaledTotal(cs, m) * SumCopies(cs, neededLength, k) <= neededLength * ScaledTotal(cs[..k], m)
  {
    if k > 0 {
      var d := ScaledTotal(cs, m);
      ScaledCopiesBound(cs, neededLength, m, k - 1);
      ScaledCopiesStep(cs, neededLength, m, k - 1);
      assert cs[..k][..k - 1] == cs[..k - 1];
      var v := if cs[k - 1].weight.Some? then cs[k - 1].weight.value else m;
      var before := ScaledTotal(cs[..k - 1], m);
      assert ScaledTotal(cs[..k], m) == before + v;
      var a := SumCopies(cs, neededLength, k - 1);
      var c := Copies(cs, k - 1, neededLength);
      Distribute(d, a, c);
      Distribute(neededLength, before, v);
    }
  }

  /**
   * When `neededLength` is at least the total normalised weight (so the scale
   * does not clamp to 1), or no choice has a weight, the column has exactly
   * `neededLength` elements.
   */
  lemma ExactLengthWhenScaled(cs: seq<Part>, neededLength: nat, draws: Draws)
    requires MinWeight(cs).None? || neededLength * MinWeight(cs).value >= ScaledTotal(cs, MinWeight(cs).value)
    ensures |Sample(cs, neededLength, draws)| == neededLength
  {
    SampleLength(cs, neededLength, draws);
    match MinWeight(cs)
    case None =>
      NoWeightNoCopies(cs, neededLength, |cs|);
    case Some(m) =>
      ScaledCopiesBound(cs, neededLength, m, |cs|);
      assert cs[..|cs|] == cs;
      var d := ScaledTotal(cs, m);
      var w :| 0 <= w < |cs| && cs[w].weight == Some(m);
      ScaledTotalCoversWeight(cs, m, w);
      CancelAtMost(SumCopies(cs, neededLength, |cs|), neededLength, d);
  }

  lemma {:induction false} NoWeightNoCopies(cs: seq<Part>, neededLength: nat, k: nat)
    requires MinWeight(cs).None? && k <= |cs|
    ensures SumCopies(cs, neededLength, k) == 0
  {
    if k > 0 {
      NoWeightNoCopies(cs, neededLength, k - 1);
    }
  }

  lemma BaseElements(cs: seq<Part>, neededLength: nat, k: nat)
    requires k <= |cs|
    ensures forall x :: x in BaseOf(cs, neededLength, k) ==> x in Normalized(cs)
    ensures forall i :: 0 <= i < k ==>
              multiset(BaseOf(cs, neededLength, k))[Normalized(cs)[i]] >= Copies(cs, i, neededLength)
  {
    BaseMembers(cs, neededLength, k);
    BaseCounts(cs, neededLength, k);
  }

  lemma {:induction false} BaseMembers(cs: seq<Part>, neededLength: nat, k: nat)
    requires k <= |cs|
    ensures forall x :: x in BaseOf(cs, neededLength, k) ==> x in Normalized(cs)
  {
    if k > 0 {
      BaseMembers(cs, neededLength, k - 1);
    }
  }

  lemma {:induction false} BaseCounts(cs: seq<Part>, neededLength: nat, k: nat)
    requires k <= |cs|
    ensures forall i :: 0 <= i < k ==>
              multiset(BaseOf(cs, neededLength, k))[Normalized(cs)[i]] >= Copies(cs, i, neededLength)
  {
    if k > 0 {
      BaseCounts(cs, neededLength, k - 1);
      var y := Normalized(cs)[k - 1];
      var count := Copies(cs, k - 1, neededLength);
      var rep := Repeat(y, count);
      RepeatCount(y, count);
      assert multiset(BaseOf(cs, neededLength, k)) == multiset(BaseOf(cs, neededLength, k - 1)) + multiset(rep);
    }
  }

  lemma {:induction false} RepeatCount<T>(y: T, count: nat)
    ensures multiset(Repeat(y, count))[y] == count
    ensures forall x :: x != y ==> multiset(Repeat(y, count))[x] == 0
  {
    if count > 0 {
      assert Repeat(y, count) == Repeat(y, count - 1) + [y];
      RepeatCount(y, count - 1);
    }
  }

  /**
   * Every element of the column is one of the normalised choices, and each
   * weighted choice occurs at least as often as its copy count.
   */
  lemma SampleElements(cs: seq<Part>, neededLength: nat, draws: Draws)
    requires |cs| > 0
    ensures forall x :: x in Sample(cs, neededLength, draws) ==> x in Normalized(cs)
    ensures forall i :: 0 <= i < |cs| ==>
              multiset(Sample(cs, neededLength, draws))[Drawn(cs[i], MinWeight(cs))] >= Copies(cs, i, neededLength)
  {
    var base := BaseOf(cs, neededLength, |cs|);
    var padded := PadFrom(base, Normalized(cs), neededLength, draws.fill, 0);
    BaseElements(cs, neededLength, |cs|);
    PadFacts(base, Normalized(cs), neededLength, draws.fill, 0);
    ShufflePermutes(padded, draws.shuffle, 0);
    assert padded == base + padded[|base|..];
    assert multiset(padded) == multiset(base) + multiset(padded[|base|..]);
    forall x | x in Sample(cs, neededLength, draws)
      ensures x in Normalized(cs)
    {
      assert x in multiset(padded);
      if x !in base {
        var k :| 0 <= k < |padded| && padded[k] == x;
      }
    }
  }

  lemma {:induction false} ScaledTotalUniform(cs: seq<Part>, w: pos, m: nat)
    requires forall i :: 0 <= i < |cs| ==> cs[i].weight == Some(w)
    ensures ScaledTotal(cs, m) == |cs| * w
  {
    if cs != [] {
      ScaledTotalUniform(cs[..|cs| - 1], w, m);
    }
  }

  lemma MulAtLeast(a: int, d: nat)
    requires a >= 1
    ensures a * d >= d
  {
    assert a * d == (a - 1) * d + d;
    NatProduct(a - 1, d);
  }

  lemma SubMul(a: int, b: int, d: int)
    ensures a * d - b * d == (a - b) * d
  {
  }

  /** Euclidean division is determined by quotient and remainder. */
  lemma DivUnique(x: nat, d: nat, q: nat, r: nat)
    requires d > 0 && r < d && x == q * d + r
    ensures x / d == q
  {
    var q' := x / d;
    var r' := x % d;
    assert x == q' * d + r';
    SubMul(q, q', d);
    SubMul(q', q, d);
    if q > q' {
      MulAtLeast(q - q', d);
    } else if q' > q {
      MulAtLeast(q' - q, d);
    }
  }

  lemma CancelAtMost(s: nat, n: nat, d: nat)
    requires d > 0 && d * s <= n * d
    ensures s <= n
  {
    if s > n {
      assert d * s == s * d;
      SubMul(s, n, d);
      MulAtLeast(s - n, d);
    }
  }

  lemma MulDivCancel(q: nat, d: nat)
    requires d > 0
    ensures q * d / d == q
  {
    DivUnique(q * d, d, q, 0);
  }

  lemma UniformBase(cs: seq<Part>, neededLength: nat, q: nat, k: nat)
    requires k <= |cs|
    requires forall i :: 0 <= i < |cs| ==> Copies(cs, i, neededLength) == q
    ensures forall x :: multiset(BaseOf(cs, neededLength, k))[x] == q * multiset(Normalized(cs)[..k])[x]
  {
    BaseIsRepeatEach(cs, neededLength, q, k);
    forall x
      ensures multiset(RepeatEach(Normalized(cs), q, k))[x] == q * multiset(Normalized(cs)[..k])[x]
    {
      RepeatEachCount(Normalized(cs), q, k, x);
    }
  }

  /** The first `k` elements of `ys`, each repeated `q` times. */
  function RepeatEach<T>(ys: seq<T>, q: nat, k: nat): seq<T>
    requires k <= |ys|
  {
    if k == 0 then [] else RepeatEach(ys, q, k - 1) + Repeat(ys[k - 1], q)
  }

  lemma {:induction false} BaseIsRepeatEach(cs: seq<Part>, neededLength: nat, q: nat, k: nat)
    requires k <= |cs|
    requires forall i :: 0 <= i < |cs| ==> Copies(cs, i, neededLength) == q
    ensures BaseOf(cs, neededLength, k) == RepeatEach(Normalized(cs), q, k)
  {
    if k > 0 {
      BaseIsRepeatEach(cs, neededLength, q, k - 1);
      assert Copies(cs, k - 1, neededLength) == q;
    }
  }

  lemma {:induction false} RepeatEachCount<T>(ys: seq<T>, q: nat, k: nat, x: T)
    requires k <= |ys|
    ensures multiset(RepeatEach(ys, q, k))[x] == q * multiset(ys[..k])[x]
  {
    RepeatEachTimes(ys, q, k, x);
    TimesIsProduct(q, multiset(ys[..k])[x]);
  }

  /** `q` added `n` times. */
  function Times(q: nat, n: nat): nat
  {
    if n == 0 then 0 else Times(q, n - 1) + q
  }

  lemma {:induction false} TimesIsProduct(q: nat, n: nat)
    ensures Times(q, n) == q * n
  {
    if n > 0 {
      TimesIsProduct(q, n - 1);
      Distribute(q, n - 1, 1);
    }
  }

  lemma {:induction false} RepeatEachTimes<T>(ys: seq<T>, q: nat, k: nat, x: T)
    requires k <= |ys|
    ensures multiset(RepeatEach(ys, q, k))[x] == Times(q, multiset(ys[..k])[x])
  {
    if k > 0 {
      RepeatEachTimes(ys, q, k - 1, x);
      RepeatEachStep(ys, q, k, x);
      SliceCountStep(ys, k, x);
    }
  }

  lemma RepeatEachStep<T>(ys: seq<T>, q: nat, k: nat, x: T)
    requires 0 < k <= |ys|
    ensures multiset(RepeatEach(ys, q, k))[x] == multiset(RepeatEach(ys, q, k - 1))[x] + (if ys[k - 1] == x then q else 0)
  {
    var y := ys[k - 1];
    CountAppend(RepeatEach(ys, q, k - 1), Repeat(y, q), x);
    RepeatCount(y, q);
  }

  lemma SliceCountStep<T>(ys: seq<T>, k: nat, x: T)
    requires 0 < k <= |ys|
    ensures multiset(ys[..k])[x] == multiset(ys[..k - 1])[x] + (if ys[k - 1] == x then 1 else 0)
  {
    assert ys[..k] == ys[..k - 1] + [ys[k - 1]];
    CountAppend(ys[..k - 1], [ys[k - 1]], x);
  }


  lemma CountAppend<T>(a: seq<T>, b: seq<T>, x: T)
    ensures multiset(a + b)[x] == multiset(a)[x] + multiset(b)[x]
  {
  }



  lemma {:induction false} UniformSumCopies(cs: seq<Part>, neededLength: nat, q: nat, k: nat)
    requires k <= |cs|
    requires forall i :: 0 <= i < |cs| ==> Copies(cs, i, neededLength) == q
    ensures SumCopies(cs, neededLength, k) == q * k
  {
    if k > 0 {
      UniformSumCopies(cs, neededLength, q, k - 1);
      Distribute(q, k - 1, 1);
    }
  }

  /** With all weights `w` and `q * n` needed for `n` choices, the scaled total is `n * w` and there is no clamping. */
  lemma UniformShare(w: pos, q: nat, n: nat)
    requires q >= 1 && n >= 1
    ensures n * w > 0 && (q * n) * w >= n * w
    ensures ScaledCopies(w, q * n, w, n * w) == q
  {
    MulAtLeast(n, w);
    MulAtLeast(q, n * w);
    assert (q * n) * w == q * (n * w);
    assert w * (q * n) == q * (n * w);
    MulDivCancel(q, n * w);
  }

  lemma UniformCopies(cs: seq<Part>, w: pos, q: nat)
    requires |cs| > 0 && q >= 1
    requires forall i :: 0 <= i < |cs| ==> cs[i].weight == Some(w)
    ensures forall i :: 0 <= i < |cs| ==> Copies(cs, i, q * |cs|) == q
  {
    var m := MinWeight(cs).value;
    var i0 :| 0 <= i0 < |cs| && cs[i0].weight == Some(m);
    assert m == w;
    ScaledTotalUniform(cs, w, w);
    UniformShare(w, q, |cs|);
  }

  /**
   * With all weights equal and `neededLength = q * n` for `n` choices and
   * `q >= 1`, every choice gets exactly `q` copies, no padding is drawn, and
   * the column holds each choice `q` times per occurrence in the input.
   */
  lemma EqualWeightsExactCopies(cs: seq<Part>, w: pos, q: nat, draws: Draws)
    requires |cs| > 0 && q >= 1
    requires forall i :: 0 <= i < |cs| ==> cs[i].weight == Some(w)
    ensures forall i :: 0 <= i < |cs| ==> Copies(cs, i, q * |cs|) == q
    ensures |BaseOf(cs, q * |cs|, |cs|)| == q * |cs|
    ensures forall x :: multiset(Sample(cs, q * |cs|, draws))[x] == q * multiset(Normalized(cs))[x]
  {
    var n := |cs|;
    var need := q * n;
    UniformCopies(cs, w, q);
    UniformBase(cs, need, q, n);
    assert Normalized(cs)[..n] == Normalized(cs);
    var base := BaseOf(cs, need, n);
    UniformSumCopies(cs, need, q, n);
    BaseLength(cs, need, n);
    assert PadFrom(base, Normalized(cs), need, draws.fill, 0) == base;
    ShufflePermutes(base, draws.shuffle, 0);
  }

  /**
   * Below the total the scale clamps to 1: weights 60, 30 and 10 with
   * `neededLength` 5 give 6 + 3 + 1 copies, a column of 10.
   */
  lemma ClampedScaleExample(draws: Draws)
    ensures |Sample([Part("A", Some(60)), Part("B", Some(30)), Part("C", Some(10))], 5, draws)| == 10
  {
    var cs := [Part("A", Some(60)), Part("B", Some(30)), Part("C", Some(10))];
    assert MinWeight(cs[..1]) == Some(60);
    assert MinWeight(cs[..2]) == Some(30);
    assert MinWeight(cs) == Some(10);
    assert ScaledTotal(cs, 10) == 100 by {
      assert ScaledTotal(cs[..1], 10) == 60;
      assert ScaledTotal(cs[..2], 10) == 90;
    }
    assert Copies(cs, 0, 5) == 6;
    assert Copies(cs, 1, 5) == 3;
    assert Copies(cs, 2, 5) == 1;
    assert SumCopies(cs, 5, 3) == 10;
    SampleLength(cs, 5, draws);
  }
}
