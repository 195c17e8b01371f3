/**
 * The memoised tokeniser of nn/dataset.js:85-103 as a pure specification:
 * a digit stands for its value, every other character for a negative number
 * chosen the first time the character is seen and remembered from then on.
 * The Dataset class runs the same steps in place and is proved equal to
 * TokeniseAll.
 */
module Tokens {

  /** The two caches of the Dataset: tokenMap (char to token) and tokensUsed. */
  datatype TokenState = TokenState(tokenMap: map<char, int>, used: set<int>)

  const EMPTY: TokenState := TokenState(map[], {})

  /** `parseInt(char)` is a number, not NaN, exactly for the ASCII digits. */
  predicate IsDigit(c: char) {
    '0' <= c <= '9'
  }

  function DigitValue(c: char): (v: int)
    requires IsDigit(c)
    ensures 0 <= v <= 9
  {
    c as int - '0' as int
  }

  /** Distinct digits have distinct values. */
  lemma DigitValueInjective(c: char, e: char)
    requires IsDigit(c) && IsDigit(e) && c != e
    ensures DigitValue(c) != DigitValue(e)
  {
  }

  /** The integers of `used` that are at most `n`. */
  function UsedUpTo(used: set<int>, n: int): set<int> {
    set k | k in used && k <= n
  }

  lemma UsedUpToShrinks(used: set<int>, n: int)
    requires n in used
    ensures |UsedUpTo(used, n - 1)| < |UsedUpTo(used, n)|
  {
    assert UsedUpTo(used, n - 1) == UsedUpTo(used, n) - {n};
  }

  /**
   * The search of nn/dataset.js:94-97 from `from` downwards: the largest
   * integer not above `from` that is not yet used.
   */
  function NextFree(used: set<int>, from: int): (n: int)
    ensures n <= from && n !in used
    ensures forall k :: n < k <= from ==> k in used
    decreases |UsedUpTo(used, from)|
  {
    if from in used then
      UsedUpToShrinks(used, from);
      NextFree(used, from - 1)
    else from
  }

  /**
   * One character of nn/dataset.js:86-103: a character seen before keeps its
   * token; a new digit gets its value and a new non-digit the largest
   * negative integer not yet used.  Either way its token is marked used.
   */
  function Token(st: TokenState, c: char): (r: (int, TokenState))
  {
    var t :=
      if c in st.tokenMap then st.tokenMap[c]
      else if IsDigit(c) then DigitValue(c)
      else NextFree(st.used, -1);
    (t, TokenState(st.tokenMap[c := t], st.used + {t}))
  }

  /** tokenise(chars): the tokens of the characters in turn, and the caches after them. */
  function TokeniseAll(st: TokenState, cs: string): (r: (seq<int>, TokenState))
    ensures |r.0| == |cs|
    decreases |cs|
  {
    if cs == [] then ([], st)
    else
      var prev := TokeniseAll(st, cs[..|cs| - 1]);
      var step := Token(prev.1, cs[|cs| - 1]);
      (prev.0 + [step.0], step.1)
  }

  /** One more character: the unfolding a left-to-right loop needs. */
  lemma TokeniseAllPush(st: TokenState, cs: string, i: nat)
    requires i < |cs|
    ensures var prev := TokeniseAll(st, cs[..i]);
            var step := Token(prev.1, cs[i]);
            TokeniseAll(st, cs[..i + 1]) == (prev.0 + [step.0], step.1)
  {
    assert cs[..i + 1][..i] == cs[..i];
  }

  /**
   * The caches agree with the rules: digits map to their values, other
   * characters to negative numbers, every token in the map is marked used,
   * and no two characters share a token.
   */
  ghost predicate Consistent(st: TokenState) {
    && (forall c :: c in st.tokenMap && IsDigit(c) ==> st.tokenMap[c] == DigitValue(c))
    && (forall c :: c in st.tokenMap && !IsDigit(c) ==> st.tokenMap[c] < 0)
    && (forall c :: c in st.tokenMap ==> st.tokenMap[c] in st.used)
    && (forall c, e :: c in st.tokenMap && e in st.tokenMap && c != e ==> st.tokenMap[c] != st.tokenMap[e])
  }

  /** The map of `b` extends the map of `a`. */
  ghost predicate Extends(a: TokenState, b: TokenState) {
    forall c :: c in a.tokenMap ==> c in b.tokenMap && b.tokenMap[c] == a.tokenMap[c]
  }

  lemma EmptyConsistent()
    ensures Consistent(EMPTY)
  {
  }

  /**
   * One character keeps the caches consistent, remembers the character and
   * returns the token the map now holds for it.
   */
  lemma TokenKeeps(st: TokenState, c: char)
    requires Consistent(st)
    ensures var (t, st') := Token(st, c);
            Consistent(st') && Extends(st, st') && c in st'.tokenMap && st'.tokenMap[c] == t
  {
    var (t, st') := Token(st, c);
    if c !in st.tokenMap {
      forall e | e in st.tokenMap ensures st.tokenMap[e] != t {
        if IsDigit(c) && IsDigit(e) {
          DigitValueInjective(c, e);
        }
      }
    }
  }

  /** Every token is the one map m holds for its character. */
  ghost predicate Memo(ts: seq<int>, cs: string, m: map<char, int>) {
    |ts| == |cs| && forall i :: 0 <= i < |cs| ==> cs[i] in m && ts[i] == m[cs[i]]
  }

  lemma ExtendsTrans(a: TokenState, b: TokenState, c: TokenState)
    requires Extends(a, b) && Extends(b, c)
    ensures Extends(a, c)
  {
  }

  lemma MemoExtends(ts: seq<int>, cs: string, a: TokenState, b: TokenState)
    requires Memo(ts, cs, a.tokenMap) && Extends(a, b)
    ensures Memo(ts, cs, b.tokenMap)
  {
  }

  lemma MemoPush(ts: seq<int>, cs: string, t: int, c: char, m: map<char, int>)
    requires Memo(ts, cs, m) && c in m && m[c] == t
    ensures Memo(ts + [t], cs + [c], m)
  {
    var ts', cs' := ts + [t], cs + [c];
    forall i | 0 <= i < |cs'| ensures cs'[i] in m && ts'[i] == m[cs'[i]] {
      if i < |cs| {
        assert cs'[i] == cs[i] && ts'[i] == ts[i];
      }
    }
  }

  /**
   * tokenise: one token per character, each the token the final map holds
   * for that character; the caches stay consistent and earlier entries stay.
   */
  lemma {:induction false} TokeniseAllSpec(st: TokenState, cs: string)
    requires Consistent(st)
    ensures var r := TokeniseAll(st, cs);
            Consistent(r.1) && Extends(st, r.1) && Memo(r.0, cs, r.1.tokenMap)
    decreases |cs|
  {
    if cs != [] {
      var p, c := cs[..|cs| - 1], cs[|cs| - 1];
      TokeniseAllSpec(st, p);
      var prev := TokeniseAll(st, p);
      TokenKeeps(prev.1, c);
      var step := Token(prev.1, c);
      assert TokeniseAll(st, cs) == (prev.0 + [step.0], step.1);
      ExtendsTrans(st, prev.1, step.1);
      MemoExtends(prev.0, p, prev.1, step.1);
      MemoPush(prev.0, p, step.0, c, step.1.tokenMap);
      assert p + [c] == cs;
    }
  }

  /**
   * The memo at work: two characters get the same token exactly when they
   * are the same character; a token is non-negative exactly for a digit,
   * and then it is the digit's value.
   */
  lemma TokensMemoised(st: TokenState, cs: string)
    requires Consistent(st)
    ensures var ts := TokeniseAll(st, cs).0;
            && (forall i, j :: 0 <= i < |cs| && 0 <= j < |cs| ==> (ts[i] == ts[j] <==> cs[i] == cs[j]))
            && (forall i :: 0 <= i < |cs| ==> (ts[i] >= 0 <==> IsDigit(cs[i])))
            && (forall i :: 0 <= i < |cs| && IsDigit(cs[i]) ==> ts[i] == DigitValue(cs[i]))
  {
    TokeniseAllSpec(st, cs);
    var (ts, st') := TokeniseAll(st, cs);
    assert Memo(ts, cs, st'.tokenMap);
  }

  /** A new non-digit gets -1 if it is free, and otherwise the next free number below. */
  lemma NewSymbolToken(st: TokenState, c: char)
    requires c !in st.tokenMap && !IsDigit(c)
    ensures var t := Token(st, c).0;
            t < 0 && t !in st.used && forall k :: t < k < 0 ==> k in st.used
  {
  }

  /** nn/dataset.js:46 -- tokenise on each line in turn, the caches carried from one to the next. */
  function TokeniseRows(st: TokenState, lines: seq<string>): (r: (seq<seq<int>>, TokenState))
    ensures |r.0| == |lines|
    decreases |lines|
  {
    if lines == [] then ([], st)
    else
      var prev := TokeniseRows(st, lines[..|lines| - 1]);
      var row := TokeniseAll(prev.1, lines[|lines| - 1]);
      (prev.0 + [row.0], row.1)
  }

  lemma TokeniseRowsPush(st: TokenState, lines: seq<string>, i: nat)
    requires i < |lines|
    ensures var prev := TokeniseRows(st, lines[..i]);
            var row := TokeniseAll(prev.1, lines[i]);
            TokeniseRows(st, lines[..i + 1]) == (prev.0 + [row.0], row.1)
  {
    assert lines[..i + 1][..i] == lines[..i];
  }

  /** Every line's tokens are the ones map m holds for its characters. */
  ghost predicate MemoRows(rows: seq<seq<int>>, lines: seq<string>, m: map<char, int>) {
    |rows| == |lines| && forall k :: 0 <= k < |lines| ==> Memo(rows[k], lines[k], m)
  }

  lemma MemoRowsPush(rows: seq<seq<int>>, lines: seq<string>, row: seq<int>, line: string, a: TokenState, b: TokenState)
    requires MemoRows(rows, lines, a.tokenMap) && Extends(a, b) && Memo(row, line, b.tokenMap)
    ensures MemoRows(rows + [row], lines + [line], b.tokenMap)
  {
    forall k | 0 <= k < |lines| ensures Memo(rows[k], lines[k], b.tokenMap) {
      MemoExtends(rows[k], lines[k], a, b);
    }
    var rows', lines' := rows + [row], lines + [line];
    forall k | 0 <= k < |lines'| ensures Memo(rows'[k], lines'[k], b.tokenMap) {
      if k < |lines| {
        assert rows'[k] == rows[k] && lines'[k] == lines[k];
      }
    }
  }

  /**
   * The memo holds across lines too: every token of every line is the token
   * the final map holds for its character, so a character gets one token
   * throughout the data.
   */
  lemma {:induction false} TokeniseRowsSpec(st: TokenState, lines: seq<string>)
    requires Consistent(st)
    ensures var r := TokeniseRows(st, lines);
            Consistent(r.1) && Extends(st, r.1) && MemoRows(r.0, lines, r.1.tokenMap)
    decreases |lines|
  {
    if lines != [] {
      var p, line := lines[..|lines| - 1], lines[|lines| - 1];
      TokeniseRowsSpec(st, p);
      var prev := TokeniseRows(st, p);
      TokeniseAllSpec(prev.1, line);
      var last := TokeniseAll(prev.1, line);
      MemoRowsPush(prev.0, p, last.0, line, prev.1, last.1);
      assert p + [line] == lines;
    }
  }

  /** No token of any row is above 9. */
  ghost predicate AtMostNine(rows: seq<seq<int>>) {
    forall k, v :: 0 <= k < |rows| && v in rows[k] ==> v <= 9
  }

  /** Tokens are digit values or negative, so none is above 9. */
  lemma TokensAtMostNine(st: TokenState, lines: seq<string>)
    requires Consistent(st)
    ensures AtMostNine(TokeniseRows(st, lines).0)
  {
    TokeniseRowsSpec(st, lines);
    var (rows, st') := TokeniseRows(st, lines);
    forall k, v | 0 <= k < |rows| && v in rows[k] ensures v <= 9 {
      var i :| 0 <= i < |rows[k]| && rows[k][i] == v;
      assert Memo(rows[k], lines[k], st'.tokenMap);
      var c := lines[k][i];
      if IsDigit(c) {
        assert v == DigitValue(c);
      }
    }
  }
}
