/**
 * The run-length code of the save files: a sequence is written as
 * (count, value) pairs, one pair per maximal block of equal values.
 */
module RunLength {

  /** One (count, value) pair of a save file. */
  datatype Span<T> = Span(count: int, value: T)

  function Repeat<T>(x: T, n: nat): (s: seq<T>)
    ensures |s| == n && forall i :: 0 <= i < n ==> s[i] == x
  {
    seq(n, _ => x)
  }

  /** No pair has a negative count. */
  predicate NonNegative<T>(runs: seq<Span<T>>)
  {
    forall i :: 0 <= i < |runs| ==> runs[i].count >= 0
  }

  /** The number of values the pairs stand for. */
  function Total<T>(runs: seq<Span<T>>): (n: int)
    ensures NonNegative(runs) ==> n >= 0
  {
    if runs == [] then 0 else Total(runs[..|runs| - 1]) + runs[|runs| - 1].count
  }

  /** Decoding: each pair becomes `count` copies of its value, in order. */
  function Expand<T>(runs: seq<Span<T>>): (s: seq<T>)
    requires NonNegative(runs)
    ensures |s| == Total(runs)
  {
    if runs == [] then []
    else
      var last := runs[|runs| - 1];
      Expand(runs[..|runs| - 1]) + Repeat(last.value, last.count)
  }

  /**
   * Encoding, one value at a time from the left as the save loops do: a
   * value equal to the last pair's value lengthens that pair, any other
   * value starts a new pair of count 1.
   */
  function Compress<T(==)>(s: seq<T>): (runs: seq<Span<T>>)
    ensures |runs| <= |s| && (runs == [] <==> s == [])
    ensures s != [] ==> runs[|runs| - 1].value == s[|s| - 1]
  {
    if s == [] then []
    else
      var init := Compress(s[..|s| - 1]);
      var x := s[|s| - 1];
      if init != [] && init[|init| - 1].value == x then
        init[..|init| - 1] + [Span(init[|init| - 1].count + 1, x)]
      else
        init + [Span(1, x)]
  }

  /**
   * What the save format promises: every count is at least 1, and two
   * neighbouring pairs never carry the same value.
   */
  predicate Canonical<T(==)>(runs: seq<Span<T>>)
  {
    (forall i :: 0 <= i < |runs| ==> runs[i].count >= 1) &&
    (forall i :: 0 <= i < |runs| - 1 ==> runs[i].value != runs[i + 1].value)
  }

  lemma TotalAppend<T>(runs: seq<Span<T>>, r: Span<T>)
    ensures Total(runs + [r]) == Total(runs) + r.count
  {
    assert (runs + [r])[..|runs|] == runs;
  }

  lemma ExpandAppend<T>(runs: seq<Span<T>>, r: Span<T>)
    requires NonNegative(runs) && r.count >= 0
    ensures NonNegative(runs + [r])
    ensures Expand(runs + [r]) == Expand(runs) + Repeat(r.value, r.count)
  {
    assert (runs + [r])[..|runs|] == runs;
  }

  /** The encoding is canonical, covers every value, and decodes back to the input. */
  lemma {:induction false} CompressRoundTrip<T>(s: seq<T>)
    ensures Canonical(Compress(s)) && NonNegative(Compress(s))
    ensures Total(Compress(s)) == |s|
    ensures Expand(Compress(s)) == s
    decreases |s|
  {
    if s != [] {
      CompressRoundTrip(s[..|s| - 1]);
      CompressKeepsRoundTrip(s);
    }
  }

  /** One step of the encoding keeps it canonical and decoding back to what it has read. */
  lemma {:induction false} CompressKeepsRoundTrip<T>(s: seq<T>)
    requires s != []
    requires var init := Compress(s[..|s| - 1]);
      Canonical(init) && NonNegative(init) && Total(init) == |s| - 1 && Expand(init) == s[..|s| - 1]
    ensures Canonical(Compress(s)) && NonNegative(Compress(s))
    ensures Total(Compress(s)) == |s|
    ensures Expand(Compress(s)) == s
  {
    var front, x := s[..|s| - 1], s[|s| - 1];
    var init := Compress(front);
    if init != [] && init[|init| - 1].value == x {
      assert Compress(s) == init[..|init| - 1] + [Span(init[|init| - 1].count + 1, x)];
      LengthenLast(init, x);
    } else {
      assert Compress(s) == init + [Span(1, x)];
      StartNew(init, x);
    }
    SplitLast(s);
  }

  /** A non-empty sequence is its front followed by its last element. */
  lemma SplitLast<T>(s: seq<T>)
    requires s != []
    ensures s[..|s| - 1] + [s[|s| - 1]] == s
  {
  }

  /** A value equal to the last pair's lengthens it, keeping the code canonical. */
  lemma LengthenLast<T>(init: seq<Span<T>>, x: T)
    requires Canonical(init) && NonNegative(init)
    requires init != [] && init[|init| - 1].value == x
    ensures Canonical(init[..|init| - 1] + [Span(init[|init| - 1].count + 1, x)]) && NonNegative(init[..|init| - 1] + [Span(init[|init| - 1].count + 1, x)])
    ensures Total(init[..|init| - 1] + [Span(init[|init| - 1].count + 1, x)]) == Total(init) + 1
    ensures Expand(init[..|init| - 1] + [Span(init[|init| - 1].count + 1, x)]) == Expand(init) + [x]
  {
    LengthenCanonical(init, x);
    LengthenTotal(init, x);
    LengthenExpand(init, x);
  }

  lemma LengthenCanonical<T>(init: seq<Span<T>>, x: T)
    requires Canonical(init) && NonNegative(init)
    requires init != [] && init[|init| - 1].value == x
    ensures Canonical(init[..|init| - 1] + [Span(init[|init| - 1].count + 1, x)]) && NonNegative(init[..|init| - 1] + [Span(init[|init| - 1].count + 1, x)])
  {
    FrontCanonical(init);
    AppendCanonical(init[..|init| - 1], Span(init[|init| - 1].count + 1, x));
  }

  lemma LengthenTotal<T>(init: seq<Span<T>>, x: T)
    requires Canonical(init) && NonNegative(init)
    requires init != [] && init[|init| - 1].value == x
    ensures Total(init[..|init| - 1] + [Span(init[|init| - 1].count + 1, x)]) == Total(init) + 1
  {
    var butLast, last := init[..|init| - 1], init[|init| - 1];
    SplitLast(init);
    TotalAppend(butLast, last);
    TotalAppend(butLast, Span(last.count + 1, x));
  }

  lemma LengthenExpand<T>(init: seq<Span<T>>, x: T)
    requires NonNegative(init)
    requires init != [] && init[|init| - 1].value == x
    ensures NonNegative(init[..|init| - 1] + [Span(init[|init| - 1].count + 1, x)])
    ensures Expand(init[..|init| - 1] + [Span(init[|init| - 1].count + 1, x)]) == Expand(init) + [x]
  {
    var butLast, last := init[..|init| - 1], init[|init| - 1];
    FrontNonNegative(init);
    SplitLast(init);
    assert last == Span(last.count, x);
    GrowLastRun(butLast, x, last.count);
  }

  /** Lengthening the last run by one adds one more copy of its value at the end. */
  lemma GrowLastRun<T>(runs: seq<Span<T>>, x: T, count: nat)
    requires NonNegative(runs)
    ensures NonNegative(runs + [Span(count, x)]) && NonNegative(runs + [Span(count + 1, x)])
    ensures Expand(runs + [Span(count + 1, x)]) == Expand(runs + [Span(count, x)]) + [x]
  {
    ExpandAppend(runs, Span(count, x));
    ExpandAppend(runs, Span(count + 1, x));
    RepeatGrow(x, count);
    AppendAssociates(Expand(runs), Repeat(x, count), [x]);
  }

  lemma FrontNonNegative<T>(runs: seq<Span<T>>)
    requires NonNegative(runs) && runs != []
    ensures NonNegative(runs[..|runs| - 1]) && runs[|runs| - 1].count >= 0
  {
    assert forall i :: 0 <= i < |runs| - 1 ==> runs[..|runs| - 1][i] == runs[i];
  }

  /** Dropping the last pair keeps the code canonical, and the new last pair differs from the dropped one. */
  lemma FrontCanonical<T>(runs: seq<Span<T>>)
    requires Canonical(runs) && NonNegative(runs) && runs != []
    ensures var front := runs[..|runs| - 1];
      Canonical(front) && NonNegative(front) &&
      (front == [] || front[|front| - 1].value != runs[|runs| - 1].value)
  {
    var front := runs[..|runs| - 1];
    assert forall i :: 0 <= i < |front| ==> front[i] == runs[i];
  }

  lemma AppendAssociates<T>(a: seq<T>, b: seq<T>, c: seq<T>)
    ensures a + (b + c) == (a + b) + c
  {
  }

  lemma RepeatGrow<T>(x: T, n: nat)
    ensures Repeat(x, n + 1) == Repeat(x, n) + [x]
  {
  }

  /** A value different from the last pair's starts a new pair of count 1. */
  lemma StartNew<T>(init: seq<Span<T>>, x: T)
    requires Canonical(init) && NonNegative(init)
    requires init == [] || init[|init| - 1].value != x
    ensures Canonical(init + [Span(1, x)]) && NonNegative(init + [Span(1, x)])
    ensures Total(init + [Span(1, x)]) == Total(init) + 1
    ensures Expand(init + [Span(1, x)]) == Expand(init) + [x]
  {
    AppendCanonical(init, Span(1, x));
    TotalAppend(init, Span(1, x));
    ExpandAppend(init, Span(1, x));
    RepeatOne(x);
  }

  /** A pair with a positive count and a value unlike the last pair's keeps the code canonical. */
  lemma AppendCanonical<T>(runs: seq<Span<T>>, r: Span<T>)
    requires Canonical(runs) && r.count >= 1
    requires runs == [] || runs[|runs| - 1].value != r.value
    ensures Canonical(runs + [r])
  {
    var longer := runs + [r];
    forall i | 0 <= i < |longer|
      ensures longer[i].count >= 1
    {
      if i < |runs| {
        assert longer[i] == runs[i];
      }
    }
    forall i | 0 <= i < |longer| - 1
      ensures longer[i].value != longer[i + 1].value
    {
      assert longer[i] == runs[i];
      if i + 1 < |runs| {
        assert longer[i + 1] == runs[i + 1];
      }
    }
  }

  lemma RepeatOne<T>(x: T)
    ensures Repeat(x, 1) == [x]
  {
  }

  /** Decoding a prefix of the pairs gives a prefix of the values. */
  lemma {:induction false} ExpandPrefix<T>(runs: seq<Span<T>>, k: nat)
    requires NonNegative(runs) && k <= |runs|
    ensures NonNegative(runs[..k]) && Total(runs[..k]) <= Total(runs)
    ensures Expand(runs[..k]) == Expand(runs)[..Total(runs[..k])]
    decreases |runs|
  {
    if k < |runs| {
      var init := runs[..|runs| - 1];
      assert init[..k] == runs[..k];
      ExpandPrefix(init, k);
      assert runs[|runs| - 1].count >= 0;
      assert Expand(runs) == Expand(init) + Repeat(runs[|runs| - 1].value, runs[|runs| - 1].count);
    } else {
      assert runs[..k] == runs;
    }
  }

  /** Each pair adds its count to the running total. */
  lemma TotalStep<T>(runs: seq<Span<T>>, k: nat)
    requires k < |runs|
    ensures Total(runs[..k + 1]) == Total(runs[..k]) + runs[k].count
  {
    assert runs[..k + 1] == runs[..k] + [runs[k]];
    TotalAppend(runs[..k], runs[k]);
  }

  /** Pairs with non-negative counts never decrease the running total. */
  lemma {:induction false} TotalMonotone<T>(runs: seq<Span<T>>, j: nat, k: nat)
    requires NonNegative(runs) && j <= k <= |runs|
    ensures Total(runs[..j]) <= Total(runs[..k])
    decreases k - j
  {
    if j < k {
      TotalStep(runs, j);
      TotalMonotone(runs, j + 1, k);
    }
  }

  /** Decoding one more pair appends its copies. */
  lemma ExpandStep<T>(runs: seq<Span<T>>, k: nat)
    requires NonNegative(runs) && k < |runs|
    ensures NonNegative(runs[..k]) && NonNegative(runs[..k + 1])
    ensures Expand(runs[..k + 1]) == Expand(runs[..k]) + Repeat(runs[k].value, runs[k].count)
  {
    assert runs[..k + 1] == runs[..k] + [runs[k]];
    ExpandAppend(runs[..k], runs[k]);
  }

  /** One more value, seen by the save loop: the running pair grows or a new one starts. */
  lemma CompressStep<T>(s: seq<T>, n: nat)
    requires 0 < n < |s|
    ensures var init := Compress(s[..n]);
      Compress(s[..n + 1]) ==
        if init[|init| - 1].value == s[n] then init[..|init| - 1] + [Span(init[|init| - 1].count + 1, s[n])]
        else init + [Span(1, s[n])]
  {
    assert s[..n + 1][..n] == s[..n];
  }

  /** Pair k decodes to the values from the running total before it, all equal to its value. */
  lemma ExpandRun<T>(runs: seq<Span<T>>, k: nat)
    requires NonNegative(runs) && k < |runs|
    ensures Total(runs[..k + 1]) == Total(runs[..k]) + runs[k].count <= Total(runs)
    ensures forall i :: Total(runs[..k]) <= i < Total(runs[..k]) + runs[k].count ==> Expand(runs)[i] == runs[k].value
  {
    ExpandPrefix(runs, k + 1);
    TotalStep(runs, k);
    ExpandStep(runs, k);
    var start := Total(runs[..k]);
    forall i | start <= i < start + runs[k].count
      ensures Expand(runs)[i] == runs[k].value
    {
      assert Expand(runs)[i] == Expand(runs[..k + 1])[i];
      assert Expand(runs[..k + 1])[i] == Repeat(runs[k].value, runs[k].count)[i - start];
    }
  }

  /**
   * The save loop's step, on its own variables: with the pairs written so
   * far and the pending (count, last), one more value either lengthens the
   * pending pair or writes it and starts a new one.
   */
  lemma CompressExtend<T>(s: seq<T>, n: nat, runs: seq<Span<T>>, count: int, last: T)
    requires 0 < n < |s| && Compress(s[..n]) == runs + [Span(count, last)]
    ensures Compress(s[..n + 1]) ==
      if s[n] != last then (runs + [Span(count, last)]) + [Span(1, s[n])] else runs + [Span(count + 1, last)]
  {
    CompressStep(s, n);
    var init := runs + [Span(count, last)];
    assert init[..|init| - 1] == runs;
  }

}
