/**
 * The Dataset object of nn/dataset.js: the shaped data rows in an array that
 * the shuffle permutes in place, the tokeniser's two caches, the cursor and
 * the cached input and output sizes.  Every method is proved against the
 * pure specification in Tokens, DatasetPipeline or this module.
 *
 * Math.random is an oracle `rand` read at a running draw counter; the DOM,
 * fetch and console output are not modelled.
 */
module Datasets {
  import opened Wrappers
  import opened Tokens
  import opened DatasetPipeline

  // ---------------------------------------------------------------------
  // Fisher-Yates with positions (nn/dataset.js:171-178)

  /** Math.random's promise: every draw lies in [0, 1). */
  ghost predicate Unit(rand: nat -> real) {
    forall k :: 0.0 <= rand(k) < 1.0
  }

  /** `Math.floor(r * (i + 1))` for a draw r in [0, 1): a position from 0 to i. */
  function Pick(r: real, i: nat): (j: nat)
    requires 0.0 <= r < 1.0
    ensures j <= i
  {
    var n := (i + 1) as real;
    assert r * n < n by {
      assert n - r * n == (1.0 - r) * n;
    }
    (r * n).Floor
  }

  /** The draws a shuffle of n rows makes: one per position from n - 1 down to 1. */
  function Draws(n: nat): nat {
    if n == 0 then 0 else n - 1
  }

  /**
   * One round of nn/dataset.js:174-176: rows i and j learn each other's
   * position and change places, so each ends up knowing where it now is.
   */
  function SwapStep(s: seq<Sample>, i: nat, j: nat): (r: seq<Sample>)
    requires j <= i < |s|
    ensures |r| == |s|
  {
    s[i := s[j].(index := Some(i))][j := s[i].(index := Some(j))]
  }

  /**
   * Positions drawn for the rounds of a shuffle of n rows: the round t-th
   * from the end is the one of position n - 1 - t and may pick any
   * position up to it.
   */
  ghost predicate ValidPicks(n: nat, js: seq<int>) {
    |js| <= Draws(n) && forall t :: 0 <= t < |js| ==> 0 <= js[t] <= n - 1 - t
  }

  /** The positions shuffleData draws, round t from the draw rand(d + t). */
  function Picks(n: nat, rand: nat -> real, d: nat): (js: seq<int>)
    requires Unit(rand)
    ensures |js| == Draws(n) && ValidPicks(n, js)
  {
    var js := seq(Draws(n), t requires 0 <= t < Draws(n) => Pick(rand(d + t), n - 1 - t));
    forall t | 0 <= t < |js| ensures 0 <= js[t] <= n - 1 - t {
      assert js[t] == Pick(rand(d + t), n - 1 - t);
    }
    js
  }

  /** The rounds of the shuffle for the picks js, from the last position down. */
  function ShuffledBy(s: seq<Sample>, js: seq<int>): (r: seq<Sample>)
    requires ValidPicks(|s|, js)
    ensures |r| == |s|
    decreases |js|
  {
    if js == [] then s
    else
      var prev := js[..|js| - 1];
      assert ValidPicks(|s|, prev);
      SwapStep(ShuffledBy(s, prev), |s| - |js|, js[|js| - 1])
  }

  /** A position drawn within range for the next round extends valid picks. */
  lemma {:induction false} ValidPicksPush(n: nat, js: seq<int>, j: int)
    requires ValidPicks(n, js) && |js| < Draws(n) && 0 <= j <= n - 1 - |js|
    ensures ValidPicks(n, js + [j])
  {
    var next := js + [j];
    forall t | 0 <= t < |next| ensures 0 <= next[t] <= n - 1 - t {
      if t < |js| {
        assert next[t] == js[t];
      }
    }
  }

  /** One more round: the unfolding a loop needs. */
  lemma {:induction false} ShuffledByPush(s: seq<Sample>, js: seq<int>, j: int)
    requires ValidPicks(|s|, js) && ValidPicks(|s|, js + [j]) && |js| < Draws(|s|) && 0 <= j <= |s| - 1 - |js|
    ensures ShuffledBy(s, js + [j]) == SwapStep(ShuffledBy(s, js), |s| - 1 - |js|, j)
  {
    assert (js + [j])[..|js|] == js;
  }

  /** shuffleData: every round, with the positions Math.random draws. */
  function Shuffle(s: seq<Sample>, rand: nat -> real, d: nat): (r: seq<Sample>)
    requires Unit(rand)
    ensures |r| == |s|
  {
    ShuffledBy(s, Picks(|s|, rand, d))
  }

  /** A row without its position. */
  function Erase(s: seq<Sample>): (r: seq<Sample>)
    ensures |r| == |s| && forall k :: 0 <= k < |s| ==> r[k] == s[k].(index := None)
  {
    seq(|s|, k requires 0 <= k < |s| => s[k].(index := None))
  }

  /** Every row that knows a position is at that position. */
  ghost predicate InPlace(s: seq<Sample>) {
    forall p :: 0 <= p < |s| && s[p].index.Some? ==> s[p].index.value == p
  }

  lemma SwapMultiset<T>(s: seq<T>, i: nat, j: nat)
    requires i < |s| && j < |s|
    ensures multiset(s[i := s[j]][j := s[i]]) == multiset(s)
  {
  }

  lemma SwapStepErase(s: seq<Sample>, i: nat, j: nat)
    requires j <= i < |s|
    ensures Erase(SwapStep(s, i, j)) == Erase(s)[i := Erase(s)[j]][j := Erase(s)[i]]
  {
  }

  /** One round moves rows, apart from the positions they record, without adding or losing any. */
  lemma SwapStepPermutes(s: seq<Sample>, i: nat, j: nat)
    requires j <= i < |s|
    ensures multiset(Erase(SwapStep(s, i, j))) == multiset(Erase(s))
  {
    SwapStepErase(s, i, j);
    SwapMultiset(Erase(s), i, j);
  }

  /** Apart from the positions they record, the shuffled rows are the rows, each as often, whatever the picks. */
  lemma {:induction false} ShuffledPermutes(s: seq<Sample>, js: seq<int>)
    requires ValidPicks(|s|, js)
    ensures multiset(Erase(ShuffledBy(s, js))) == multiset(Erase(s))
    decreases |js|
  {
    if js != [] {
      var prev := js[..|js| - 1];
      assert ValidPicks(|s|, prev);
      ShuffledPermutes(s, prev);
      SwapStepPermutes(ShuffledBy(s, prev), |s| - |js|, js[|js| - 1]);
    }
  }

  /** After the rounds of js the last |js| rows know their positions. */
  lemma {:induction false} ShuffledPositions(s: seq<Sample>, js: seq<int>)
    requires ValidPicks(|s|, js)
    ensures forall p :: |s| - |js| <= p < |s| ==> ShuffledBy(s, js)[p].index == Some(p)
    decreases |js|
  {
    if js != [] {
      var prev := js[..|js| - 1];
      assert ValidPicks(|s|, prev);
      ShuffledPositions(s, prev);
      var before := ShuffledBy(s, prev);
      var i, j := |s| - |js|, js[|js| - 1];
      var r := SwapStep(before, i, j);
      assert r == ShuffledBy(s, js);
      forall p | i <= p < |s| ensures r[p].index == Some(p) {
        if p != i && p != j {
          assert r[p] == before[p];
        }
      }
    }
  }

  /** No round moves a row that knew its position away from it. */
  lemma {:induction false} ShuffledInPlace(s: seq<Sample>, js: seq<int>)
    requires ValidPicks(|s|, js) && InPlace(s)
    ensures InPlace(ShuffledBy(s, js))
    decreases |js|
  {
    if js != [] {
      var prev := js[..|js| - 1];
      assert ValidPicks(|s|, prev);
      ShuffledInPlace(s, prev);
      var before := ShuffledBy(s, prev);
      var i, j := |s| - |js|, js[|js| - 1];
      var r := SwapStep(before, i, j);
      assert r == ShuffledBy(s, js);
      forall p | 0 <= p < |r| && r[p].index.Some? ensures r[p].index.value == p {
        if p != i && p != j {
          assert r[p] == before[p];
        }
      }
    }
  }

  /** Rows that are the same apart from their positions are shaped alike. */
  lemma ShapedPermuted(a: seq<Sample>, b: seq<Sample>, w: nat)
    requires forall p :: 0 <= p < |a| ==> Shaped(a[p], w)
    requires multiset(Erase(b)) == multiset(Erase(a))
    ensures forall p :: 0 <= p < |b| ==> Shaped(b[p], w)
  {
    forall p | 0 <= p < |b| ensures Shaped(b[p], w) {
      assert Erase(b)[p] in multiset(Erase(a));
      var q :| 0 <= q < |a| && Erase(a)[q] == Erase(b)[p];
      assert Shaped(a[q], w);
    }
  }

  /**
   * The data after processRawData: one row per line with at least four
   * digits in its field, each shaped for training with inputs of one width,
   * and every row but perhaps the first knowing its position.
   */
  lemma ProcessedData(text: string, st: TokenState, rand: nat -> real, d: nat)
    requires Consistent(st) && Unit(rand)
    ensures var rows := TokeniseRows(st, Fields(text)).0;
            var data := Shuffle(Process(rows), rand, d);
            var w := Width(MaxLength(LongRows(rows)));
            && |data| == |LongRows(rows)|
            && InPlace(data)
            && forall p :: 0 <= p < |data| ==> Shaped(data[p], w) && (p > 0 ==> data[p].index == Some(p))
  {
    var rows := TokeniseRows(st, Fields(text)).0;
    var samples := Process(rows);
    var w := Width(MaxLength(LongRows(rows)));
    TokensAtMostNine(st, Fields(text));
    ProcessRanges(rows);
    ProcessSpec(rows);
    var js := Picks(|samples|, rand, d);
    ShuffledPermutes(samples, js);
    ShuffledPositions(samples, js);
    assert InPlace(samples);
    ShuffledInPlace(samples, js);
    ShapedPermuted(samples, ShuffledBy(samples, js), w);
  }

  // ---------------------------------------------------------------------
  // The cursor and the one-hot target (nn/dataset.js:125-127,153-158)

  /** nextIndex: the cursor after c in data of n rows, always a position of the data. */
  function Next(c: nat, n: nat): (r: nat)
    requires n > 0
    ensures r < n
  {
    (c + 1) % n
  }

  /** From a position of the data the cursor moves one on, and from the last back to the first. */
  lemma NextWraps(c: nat, n: nat)
    requires c < n
    ensures Next(c, n) == if c + 1 == n then 0 else c + 1
  {
  }

  /** nextIndex, k times. */
  function Advance(c: nat, n: nat, k: nat): (r: nat)
    requires n > 0
    decreases k
  {
    if k == 0 then c else Next(Advance(c, n, k - 1), n)
  }

  /**
   * From a position c, k <= n calls of nextIndex visit c + k, wrapping past
   * the end; so n calls bring the cursor back to c.
   */
  lemma {:induction false} AdvanceWraps(c: nat, n: nat, k: nat)
    requires c < n && k <= n
    ensures Advance(c, n, k) == if c + k < n then c + k else c + k - n
    decreases k
  {
    if k > 0 {
      AdvanceWraps(c, n, k - 1);
      NextWraps(Advance(c, n, k - 1), n);
    }
  }

  /**
   * getOutputArray: `new Array(size).fill(0)` with 1 written at `index`.
   * Writing past the end grows the array, the new places in between being
   * holes (None); a negative index is not an array element and changes
   * nothing.
   */
  function OneHot(size: nat, index: int): (r: seq<Option<real>>)
    ensures |r| == if index >= size then index + 1 else size
    ensures forall k :: 0 <= k < |r| ==>
              r[k] == if k == index then Some(1.0) else if k < size then Some(0.0) else None
  {
    var n := if index >= size then index + 1 else size;
    seq(n, k requires 0 <= k < n => if k == index then Some(1.0) else if k < size then Some(0.0) else None)
  }

  /** Within the size, exactly one place holds 1 and the others 0. */
  lemma OneHotIsOneHot(size: nat, index: nat)
    requires index < size
    ensures var r := OneHot(size, index);
            && |r| == size
            && (forall k :: 0 <= k < size ==> r[k].Some?)
            && (forall k :: 0 <= k < size ==> (r[k] == Some(1.0) <==> k == index))
  {
  }

  /** The largest output: `Math.max(...outputs)`. */
  function MaxOutput(s: seq<Sample>): (m: int)
    requires s != []
    ensures forall k :: 0 <= k < |s| ==> s[k].output <= m
    ensures exists k :: 0 <= k < |s| && s[k].output == m
    decreases |s|
  {
    if |s| == 1 then s[0].output
    else
      var m := MaxOutput(s[..|s| - 1]);
      assert forall k :: 0 <= k < |s| - 1 ==> s[k] == s[..|s| - 1][k];
      if s[|s| - 1].output > m then s[|s| - 1].output else m
  }

  // ---------------------------------------------------------------------
  // The object

  class Dataset {
    var data: array<Sample>
    var tokenMap: map<char, int>
    var tokensUsed: set<int>
    var currentIndex: nat
    var inputSize: Option<nat>
    var outputSize: Option<int>

    /** nn/dataset.js:19-26 */
    constructor ()
      ensures data.Length == 0 && tokenMap == map[] && tokensUsed == {} && currentIndex == 0
      ensures inputSize == None && outputSize == None
      ensures Consistent(Caches())
    {
      data := new Sample[0];
      tokenMap, tokensUsed := map[], {};
      currentIndex := 0;
      inputSize, outputSize := None, None;
    }

    /** The tokeniser's caches. */
    function Caches(): TokenState
      reads this
    {
      TokenState(tokenMap, tokensUsed)
    }

    /** nn/dataset.js:85-103 -- tokenise(chars), updating the caches in place. */
    method Tokenise(chars: string) returns (tokens: seq<int>)
      modifies this`tokenMap, this`tokensUsed
      ensures (tokens, Caches()) == TokeniseAll(old(Caches()), chars)
    {
      ghost var st0 := Caches();
      tokens := [];
      var i := 0;
      while i < |chars|
        invariant 0 <= i <= |chars|
        invariant (tokens, Caches()) == TokeniseAll(st0, chars[..i])
      {
        TokeniseAllPush(st0, chars, i);
        var c := chars[i];
        ghost var st := Caches();
        ghost var step := Token(st, c);
        if c in tokenMap {
          assert tokenMap[c := tokenMap[c]] == tokenMap;
        } else {
          if IsDigit(c) {
            tokenMap := tokenMap[c := DigitValue(c)];
          } else {
            var n := -1;
            while n in tokensUsed
              invariant Caches() == st && NextFree(tokensUsed, n) == step.0
              decreases |UsedUpTo(tokensUsed, n)|
            {
              UsedUpToShrinks(tokensUsed, n);
              n := n - 1;
            }
            assert n == NextFree(tokensUsed, n);
            tokenMap := tokenMap[c := n];
          }
        }
        tokensUsed := tokensUsed + {tokenMap[c]};
        tokens := tokens + [tokenMap[c]];
        assert Caches() == step.1;
        i := i + 1;
      }
      assert chars[..i] == chars;
    }

    /** nn/dataset.js:46 -- tokenise on the field of each line in turn. */
    method TokeniseLines(lines: seq<string>) returns (rows: seq<seq<int>>)
      modifies this`tokenMap, this`tokensUsed
      ensures (rows, Caches()) == TokeniseRows(old(Caches()), lines)
    {
      ghost var st0 := Caches();
      rows := [];
      var i := 0;
      while i < |lines|
        invariant 0 <= i <= |lines|
        invariant (rows, Caches()) == TokeniseRows(st0, lines[..i])
      {
        TokeniseRowsPush(st0, lines, i);
        var row := Tokenise(lines[i]);
        rows := rows + [row];
        i := i + 1;
      }
      assert lines[..i] == lines;
    }

    /**
     * nn/dataset.js:171-178 -- shuffleData: for i from the last position
     * down to 1, a position j from 0 to i is drawn, the two rows record
     * each other's position and change places.
     */
    method ShuffleData(rand: nat -> real, d: nat) returns (d': nat)
      requires Unit(rand)
      modifies data
      ensures data[..] == Shuffle(old(data[..]), rand, d) && d' == d + Draws(data.Length)
    {
      ghost var s0 := data[..];
      ghost var all := Picks(data.Length, rand, d);
      ghost var js: seq<int> := [];
      var i := data.Length - 1;
      d' := d;
      while i > 0
        invariant -1 <= i < data.Length && (data.Length > 0 ==> i >= 0)
        invariant |js| == data.Length - 1 - i <= Draws(data.Length) && d' == d + |js|
        invariant js == all[..|js|]
        invariant ValidPicks(data.Length, js) && data[..] == ShuffledBy(s0, js)
      {
        var j := Pick(rand(d'), i);
        assert j == all[|js|];
        assert js + [j] == all[..|js| + 1];
        ValidPicksPush(data.Length, js, j);
        ShuffledByPush(s0, js, j);
        Swap(i, j);
        js := js + [j];
        d' := d' + 1;
        i := i - 1;
      }
      assert js == all;
    }

    /** One round of shuffleData (nn/dataset.js:174-176): rows i and j record each other's position and change places. */
    method Swap(i: nat, j: nat)
      requires j <= i < data.Length
      modifies data
      ensures data[..] == SwapStep(old(data[..]), i, j)
    {
      var a, b := data[i], data[j];
      data[i] := b.(index := Some(i));
      data[j] := a.(index := Some(j));
    }

    /**
     * nn/dataset.js:42-83 -- processRawData(text), with lines 55 and 72 as
     * intended: the fields tokenised, shaped into samples, stored as the
     * new data and shuffled.
     */
    method ProcessRawData(text: string, rand: nat -> real, d: nat) returns (d': nat)
      requires Unit(rand)
      modifies this`data, this`tokenMap, this`tokensUsed
      ensures fresh(data)
      ensures var r := TokeniseRows(old(Caches()), Fields(text));
              && Caches() == r.1
              && data[..] == Shuffle(Process(r.0), rand, d)
              && d' == d + Draws(data.Length)
    {
      var rows := TokeniseLines(Fields(text));
      var samples := Process(rows);
      data := new Sample[|samples|](k requires 0 <= k < |samples| => samples[k]);
      assert data[..] == samples;
      d' := ShuffleData(rand, d);
    }

    /** nn/dataset.js:125-127 -- nextIndex on a non-empty dataset. */
    method NextIndex()
      requires data.Length > 0
      modifies this`currentIndex
      ensures currentIndex == Next(old(currentIndex), data.Length)
    {
      currentIndex := (currentIndex + 1) % data.Length;
    }

    /** nn/dataset.js:129-134 -- getInputSize: the first row's input length, cached; None where the source throws on empty data. */
    method GetInputSize() returns (size: Option<nat>)
      modifies this`inputSize
      ensures old(inputSize).Some? ==> size == old(inputSize) && inputSize == old(inputSize)
      ensures old(inputSize).None? ==>
                size == (if data.Length == 0 then None else Some(|data[0].input|))
                && inputSize == size
    {
      if inputSize.None? {
        if data.Length == 0 {
          return None;
        }
        inputSize := Some(|data[0].input|);
      }
      size := inputSize;
    }

    /** nn/dataset.js:136-141 -- getOutputSize: one more than the largest output, cached. */
    method GetOutputSize() returns (size: int)
      requires outputSize.Some? || data.Length > 0
      modifies this`outputSize
      ensures old(outputSize).Some? ==> size == old(outputSize).value && outputSize == old(outputSize)
      ensures old(outputSize).None? ==>
                && (forall k :: 0 <= k < data.Length ==> data[k].output < size)
                && (exists k :: 0 <= k < data.Length && data[k].output == size - 1)
                && outputSize == Some(size)
    {
      if outputSize.None? {
        outputSize := Some(MaxOutput(data[..]) + 1);
      }
      size := outputSize.value;
    }

    /**
     * nn/dataset.js:153-158 -- getOutputArray(index); None where
     * `new Array(size)` throws: a negative size, or an uncached size on
     * empty data, which the source computes as -Infinity.
     */
    method GetOutputArray(index: int) returns (arr: Option<seq<Option<real>>>)
      modifies this`outputSize
      ensures old(outputSize).None? && data.Length == 0 ==> arr == None && outputSize == None
      ensures old(outputSize).Some? || data.Length > 0 ==>
                && outputSize.Some?
                && arr == if outputSize.value < 0 then None else Some(OneHot(outputSize.value, index))
    {
      if outputSize.None? && data.Length == 0 {
        return None;
      }
      var size := GetOutputSize();
      if size < 0 {
        return None;
      }
      arr := Some(OneHot(size, index));
    }

    /** nn/dataset.js:106-108 -- setError(index, error): only that row changes, and only its error. */
    method SetError(index: nat, error: real)
      requires index < data.Length
      modifies data
      ensures data[..] == old(data[..])[index := old(data[index]).(error := Some(error))]
      ensures GetError(index) == Some(error)
    {
      data[index] := data[index].(error := Some(error));
    }

    /** nn/dataset.js:110-112 -- getError(index): None until an error is set. */
    function GetError(index: nat): (e: Option<real>)
      requires index < data.Length
      reads this, data
    {
      data[index].error
    }
  }
}
