/**
 * The pure part of nn/dataset.js: splitting the raw text into fields
 * (nn/dataset.js:44-46) and shaping token rows into samples
 * (nn/dataset.js:48-78).  Tokenising between the two is specified in module
 * Tokens and runs in place in the Dataset class, as does the shuffle after them.
 */
module DatasetPipeline {
  import opened Wrappers
  import Tokens

  // nn/dataset.js:13-16
  const PADDING_VALUE: int := 10
  const MINIMUM_TOTAL_SIZE: nat := 4
  const MAXIMUM_INPUT_SIZE: nat := 4
  const MAXIMUM_INPUT_VALUE: real := 10.0

  // ---------------------------------------------------------------------
  // Text into fields (nn/dataset.js:44-46)

  /**
   * String.prototype.split with a non-empty separator: the pieces between
   * the leftmost non-overlapping occurrences of `sep`.
   */
  function Split(s: string, sep: string): (r: seq<string>)
    requires sep != []
    ensures |r| >= 1
    decreases |s|
  {
    if |s| < |sep| then [s]
    else if s[..|sep|] == sep then [[]] + Split(s[|sep|..], sep)
    else
      var rest := Split(s[1..], sep);
      [[s[0]] + rest[0]] + rest[1..]
  }

  /** Array.prototype.join: the pieces with `sep` between neighbours. */
  function Join(pieces: seq<string>, sep: string): (r: string)
    decreases |pieces|
  {
    if pieces == [] then []
    else if |pieces| == 1 then pieces[0]
    else pieces[0] + sep + Join(pieces[1..], sep)
  }

  /** Joining the pieces of a split with the same separator gives the text back. */
  lemma {:induction false} SplitJoin(s: string, sep: string)
    requires sep != []
    ensures Join(Split(s, sep), sep) == s
    decreases |s|
  {
    if |s| < |sep| {
    } else if s[..|sep|] == sep {
      var rest := Split(s[|sep|..], sep);
      SplitJoin(s[|sep|..], sep);
      assert Split(s, sep) == [[]] + rest;
      assert Split(s, sep)[1..] == rest;
      assert s == s[..|sep|] + s[|sep|..];
    } else {
      var rest := Split(s[1..], sep);
      SplitJoin(s[1..], sep);
      var r := Split(s, sep);
      assert r == [[s[0]] + rest[0]] + rest[1..];
      if |rest| == 1 {
        assert Join(r, sep) == [s[0]] + rest[0];
      } else {
        assert r[1..] == rest[1..];
        assert Join(rest, sep) == rest[0] + sep + Join(rest[1..], sep);
        assert Join(r, sep) == [s[0]] + rest[0] + sep + Join(rest[1..], sep);
      }
      assert s == [s[0]] + s[1..];
    }
  }

  /** With a one-character separator no piece contains it, and there is one piece more than there are separators. */
  lemma {:induction false} SplitOnChar(s: string, c: char)
    ensures var r := Split(s, [c]);
            && (forall k :: 0 <= k < |r| ==> c !in r[k])
            && (c in s <==> |r| >= 2)
    decreases |s|
  {
    if |s| >= 1 {
      if s[..1] == [c] {
        SplitOnChar(s[1..], c);
      } else {
        SplitOnChar(s[1..], c);
        var rest := Split(s[1..], [c]);
        var r := Split(s, [c]);
        assert r == [[s[0]] + rest[0]] + rest[1..];
        forall k | 0 <= k < |r| ensures c !in r[k] {
          if k > 0 {
            assert r[k] == rest[k];
          }
        }
        assert s == [s[0]] + s[1..];
      }
    }
  }

  /** `row !== '' && row.indexOf(';') !== -1` */
  predicate HasField(line: string) {
    line != [] && ';' in line
  }

  /** The position of the first c in s. */
  function IndexOf(s: string, c: char): (i: nat)
    requires c in s
    ensures i < |s| && s[i] == c && c !in s[..i]
    decreases |s|
  {
    if s[0] == c then 0
    else
      assert c in s[1..] by {
        assert s == [s[0]] + s[1..];
      }
      var j := IndexOf(s[1..], c);
      assert s[..j + 1] == [s[0]] + s[1..][..j];
      j + 1
  }

  /** Splitting on one character: the text before its first occurrence, then the split of what follows. */
  lemma {:induction false} SplitFirst(s: string, c: char)
    ensures c !in s ==> Split(s, [c]) == [s]
    ensures c in s ==> Split(s, [c]) == [s[..IndexOf(s, c)]] + Split(s[IndexOf(s, c) + 1..], [c])
    decreases |s|
  {
    if |s| >= 1 && s[..1] != [c] {
      var t := s[1..];
      SplitFirst(t, c);
      var rest := Split(t, [c]);
      assert Split(s, [c]) == [[s[0]] + rest[0]] + rest[1..];
      assert s == [s[0]] + t;
      if c in s {
        assert c in t;
        var j := IndexOf(t, c);
        assert IndexOf(s, c) == j + 1;
        assert s[..j + 1] == [s[0]] + t[..j];
        assert s[j + 2..] == t[j + 1..];
      } else {
        assert rest == [t];
      }
    } else if |s| >= 1 {
      assert s[0] == s[..1][0] == c;
    }
  }

  /**
   * `row.split(';')[1]`: the text right after the first ';', up to the next
   * ';' or the end of the line.
   */
  function Field(line: string): (f: string)
    requires HasField(line)
    ensures ';' !in f
    ensures var i := IndexOf(line, ';');
            && i + 1 + |f| <= |line| && line[i + 1..i + 1 + |f|] == f
            && (i + 1 + |f| == |line| || line[i + 1 + |f|] == ';')
  {
    SplitOnChar(line, ';');
    SplitFirst(line, ';');
    var i := IndexOf(line, ';');
    var t := line[i + 1..];
    SplitFirst(t, ';');
    assert ';' in t ==> line[i + 1 + IndexOf(t, ';')] == t[IndexOf(t, ';')];
    assert line[i + 1..i + 1 + |t|] == t;
    Split(line, ";")[1]
  }

  /** nn/dataset.js:44-46 up to tokenising: the field of every line that has one, in order. */
  function Fields(text: string): seq<string> {
    FieldsOf(Split(text, "\r\n"))
  }

  function FieldsOf(lines: seq<string>): (r: seq<string>)
    ensures |r| <= |lines|
    ensures forall k :: 0 <= k < |r| ==> ';' !in r[k]
    decreases |lines|
  {
    if lines == [] then []
    else
      var prev := FieldsOf(lines[..|lines| - 1]);
      var last := lines[|lines| - 1];
      if HasField(last) then prev + [Field(last)] else prev
  }

  /** A line contributes a field exactly when it is non-empty and holds a ';'. */
  lemma {:induction false} FieldsOfCount(lines: seq<string>)
    ensures |FieldsOf(lines)| == |set k | 0 <= k < |lines| && HasField(lines[k])|
    decreases |lines|
  {
    if lines != [] {
      var p := lines[..|lines| - 1];
      FieldsOfCount(p);
      var before := set k | 0 <= k < |p| && HasField(p[k]);
      var after := set k | 0 <= k < |lines| && HasField(lines[k]);
      if HasField(lines[|lines| - 1]) {
        assert after == before + {|lines| - 1};
      } else {
        assert after == before;
      }
    }
  }

  // ---------------------------------------------------------------------
  // Token rows into samples (nn/dataset.js:48-78)

  /** nn/dataset.js:49 -- the row without its negative (non-digit) tokens. */
  function NonNegative(row: seq<int>): (r: seq<int>)
    ensures |r| <= |row|
    ensures forall v :: v in r <==> v in row && v >= 0
    ensures forall v :: multiset(r)[v] == if v >= 0 then multiset(row)[v] else 0
    decreases |row|
  {
    if row == [] then []
    else
      var prev := NonNegative(row[..|row| - 1]);
      var v := row[|row| - 1];
      assert row == row[..|row| - 1] + [v];
      if v >= 0 then prev + [v] else prev
  }

  /** Filtering keeps the order: the tokens of a + b are those of a, then those of b. */
  lemma {:induction false} NonNegativeConcat(a: seq<int>, b: seq<int>)
    ensures NonNegative(a + b) == NonNegative(a) + NonNegative(b)
    decreases |b|
  {
    if b == [] {
      assert a + b == a;
    } else {
      var n := |b| - 1;
      NonNegativeConcat(a, b[..n]);
      assert (a + b)[..|a + b| - 1] == a + b[..n];
    }
  }

  /** nn/dataset.js:49,52 -- the rows with at least MINIMUM_TOTAL_SIZE non-negative tokens, cleaned. */
  function LongRows(rows: seq<seq<int>>): (r: seq<seq<int>>)
    ensures |r| <= |rows|
    ensures forall k :: 0 <= k < |r| ==> |r[k]| >= MINIMUM_TOTAL_SIZE && forall v :: v in r[k] ==> v >= 0
    decreases |rows|
  {
    if rows == [] then []
    else
      var prev := LongRows(rows[..|rows| - 1]);
      var row := NonNegative(rows[|rows| - 1]);
      if |row| >= MINIMUM_TOTAL_SIZE then prev + [row] else prev
  }

  /** x is the cleaned form of one of the rows and has at least MINIMUM_TOTAL_SIZE tokens. */
  ghost predicate CleanedFrom(rows: seq<seq<int>>, x: seq<int>) {
    exists k :: 0 <= k < |rows| && x == NonNegative(rows[k]) && |x| >= MINIMUM_TOTAL_SIZE
  }

  /** A cleaned row survives exactly when it has at least MINIMUM_TOTAL_SIZE tokens. */
  lemma {:induction false} LongRowsMembers(rows: seq<seq<int>>)
    ensures forall x :: x in LongRows(rows) <==> CleanedFrom(rows, x)
    decreases |rows|
  {
    if rows != [] {
      var p, last := rows[..|rows| - 1], rows[|rows| - 1];
      LongRowsMembers(p);
      var row := NonNegative(last);
      forall x ensures x in LongRows(rows) <==> CleanedFrom(rows, x) {
        if CleanedFrom(p, x) {
          var k :| 0 <= k < |p| && x == NonNegative(p[k]) && |x| >= MINIMUM_TOTAL_SIZE;
          assert rows[k] == p[k];
        }
        if CleanedFrom(rows, x) {
          var k :| 0 <= k < |rows| && x == NonNegative(rows[k]) && |x| >= MINIMUM_TOTAL_SIZE;
          if k < |p| {
            assert rows[k] == p[k];
            assert CleanedFrom(p, x);
          } else {
            assert x == row;
          }
        }
      }
    }
  }

  /** "shift data down 1 mod 10 (1->0, 0->9)" */
  function Shift(v: int): int {
    if v == 0 then 9 else v - 1
  }

  /** The inverse of the shift on the digits. */
  function Unshift(v: int): int {
    if v == 9 then 0 else v + 1
  }

  /** The shift permutes the digits 0..9: it stays in range and Unshift undoes it. */
  lemma ShiftIsDigitPermutation(v: int)
    requires 0 <= v <= 9
    ensures 0 <= Shift(v) <= 9 && Unshift(Shift(v)) == v && Shift(Unshift(v)) == v
    ensures Shift(v) == (v + 9) % 10
  {
  }

  /** nn/dataset.js:55 as intended: every token shifted down one, modulo 10. */
  function ShiftDown(row: seq<int>): (r: seq<int>)
    ensures |r| == |row| && forall k :: 0 <= k < |row| ==> r[k] == Shift(row[k])
  {
    seq(|row|, k requires 0 <= k < |row| => Shift(row[k]))
  }

  /** On a row of digits the shift stays among the digits and the inverse shift gives the row back, token by token. */
  lemma ShiftDownUndone(row: seq<int>)
    requires forall k :: 0 <= k < |row| ==> 0 <= row[k] <= 9
    ensures var r := ShiftDown(row);
            && |r| == |row|
            && forall k :: 0 <= k < |r| ==> 0 <= r[k] <= 9 && Unshift(r[k]) == row[k]
  {
    forall k | 0 <= k < |row| ensures 0 <= ShiftDown(row)[k] <= 9 && Unshift(ShiftDown(row)[k]) == row[k] {
      ShiftIsDigitPermutation(row[k]);
    }
  }

  /**
   * nn/dataset.js:55 as written: `filter` keeps the tokens for which the
   * shifted value is truthy, i.e. non-zero, and shifts none of them.
   */
  function DropOnes(row: seq<int>): (r: seq<int>)
    ensures |r| <= |row|
    decreases |row|
  {
    if row == [] then []
    else
      var prev := DropOnes(row[..|row| - 1]);
      var v := row[|row| - 1];
      if Shift(v) != 0 then prev + [v] else prev
  }

  /** As written, line 55 changes no token; it only deletes the 1s. */
  lemma {:induction false} DropOnesDeletes(row: seq<int>)
    ensures forall v :: v in DropOnes(row) <==> v in row && v != 1
    ensures 1 in row ==> |DropOnes(row)| < |row|
    decreases |row|
  {
    if row != [] {
      var p := row[..|row| - 1];
      DropOnesDeletes(p);
      assert row == p + [row[|row| - 1]];
    }
  }

  /** The input that shows it: a row 1 2 3 4 keeps three tokens, where the shift gives 0 1 2 3. */
  lemma DropOnesCounterexample()
    ensures DropOnes([1, 2, 3, 4]) == [2, 3, 4]
    ensures ShiftDown([1, 2, 3, 4]) == [0, 1, 2, 3]
  {
    assert [1, 2, 3, 4][..3] == [1, 2, 3];
    assert [1, 2, 3][..2] == [1, 2];
    assert [1, 2][..1] == [1];
  }

  /** `Math.max(...lengths)` over a non-empty list; 0 for none. */
  function MaxLength(rows: seq<seq<int>>): (m: nat)
    ensures forall k :: 0 <= k < |rows| ==> |rows[k]| <= m
    ensures rows != [] ==> exists k :: 0 <= k < |rows| && |rows[k]| == m
    decreases |rows|
  {
    if rows == [] then 0
    else
      var m := MaxLength(rows[..|rows| - 1]);
      var n := |rows[|rows| - 1]|;
      assert forall k :: 0 <= k < |rows| - 1 ==> rows[k] == rows[..|rows| - 1][k];
      if n > m then n else m
  }

  /** nn/dataset.js:59-62 -- PADDING_VALUE in front of the row up to length n. */
  function PadLeft(row: seq<int>, n: nat): (r: seq<int>)
    requires |row| <= n
    ensures |r| == n
    ensures forall k :: 0 <= k < n ==> r[k] == if k < n - |row| then PADDING_VALUE else row[k - (n - |row|)]
  {
    seq(n - |row|, _ => PADDING_VALUE) + row
  }

  /** JavaScript `s.slice(start)`: a negative start counts from the end, clamped at 0. */
  function JsSliceFrom(s: seq<int>, start: int): (r: seq<int>)
  {
    var b := if start < 0 then (if |s| + start < 0 then 0 else |s| + start)
             else if start > |s| then |s| else start;
    s[b..]
  }

  /** nn/dataset.js:72 as written: `input.slice(input.length - MAXIMUM_INPUT_SIZE)`. */
  function ResizeAsWritten(input: seq<int>): (r: seq<int>)
  {
    JsSliceFrom(input, |input| - MAXIMUM_INPUT_SIZE)
  }

  /** nn/dataset.js:72 as intended: the last n tokens, or all of them when there are fewer. */
  function LastUpTo(input: seq<int>, n: nat): (r: seq<int>)
    ensures |r| == if |input| < n then |input| else n
    ensures r == input[|input| - |r|..]
  {
    if |input| < n then input else input[|input| - n..]
  }

  /**
   * As written, line 72 keeps the last MAXIMUM_INPUT_SIZE tokens for every
   * input length except one: an input of 3 tokens is cut to its last token.
   */
  lemma ResizeAsWrittenAgrees(input: seq<int>)
    ensures ResizeAsWritten(input) == LastUpTo(input, MAXIMUM_INPUT_SIZE) <==> |input| != 3
    ensures |input| == 3 ==> ResizeAsWritten(input) == [input[2]]
  {
    if |input| == 3 {
      assert |ResizeAsWritten(input)| == 1;
    }
  }

  /** nn/dataset.js:77 -- each token divided by MAXIMUM_INPUT_VALUE. */
  function Normalise(input: seq<int>): (r: seq<real>)
    ensures |r| == |input| && forall k :: 0 <= k < |input| ==> r[k] * MAXIMUM_INPUT_VALUE == input[k] as real
  {
    seq(|input|, k requires 0 <= k < |input| => input[k] as real / MAXIMUM_INPUT_VALUE)
  }

  /**
   * A data row: its input and output (nn/dataset.js:65-68), the position the
   * last shuffle gave it (nn/dataset.js:174-175) and the error set on it
   * (nn/dataset.js:107); the latter two are `undefined` until set.
   */
  datatype Sample = Sample(input: seq<real>, output: int, index: Option<nat>, error: Option<real>)

  /** The number of input tokens a row padded to length m yields: up to four, one fewer than m. */
  function Width(m: nat): nat {
    if m == 0 then 0 else if m - 1 < MAXIMUM_INPUT_SIZE then m - 1 else MAXIMUM_INPUT_SIZE
  }

  /** nn/dataset.js:65-78 on one padded row: the last token is the output, up to four before it the input. */
  function MakeSample(padded: seq<int>): (s: Sample)
    requires |padded| >= 1
    ensures s.output == padded[|padded| - 1] && s.index == None && s.error == None
    ensures |s.input| == Width(|padded|)
    ensures forall j :: 0 <= j < |s.input| ==>
              s.input[j] == padded[|padded| - 1 - |s.input| + j] as real / MAXIMUM_INPUT_VALUE
  {
    var input := LastUpTo(padded[..|padded| - 1], MAXIMUM_INPUT_SIZE);
    Sample(Normalise(input), padded[|padded| - 1], None, None)
  }

  /** nn/dataset.js:55 on every row. */
  function ShiftAll(rows: seq<seq<int>>): (r: seq<seq<int>>)
    ensures |r| == |rows| && forall k :: 0 <= k < |rows| ==> r[k] == ShiftDown(rows[k])
  {
    seq(|rows|, k requires 0 <= k < |rows| => ShiftDown(rows[k]))
  }

  /** nn/dataset.js:48-78 after tokenising, with lines 55 and 72 as intended. */
  function Process(rows: seq<seq<int>>): (r: seq<Sample>)
  {
    var shifted := ShiftAll(LongRows(rows));
    var m := MaxLength(shifted);
    seq(|shifted|, k requires 0 <= k < |shifted| => MakeSample(PadLeft(shifted[k], m)))
  }

  /**
   * nn/dataset.js:65-78 on one padded row, as written: the output is the
   * last token (`row[-1]`, undefined for an empty row) and the input the
   * tokens before it, cut by line 72 as written and scaled.
   */
  function MakeSampleAsWritten(padded: seq<int>): (seq<real>, Option<int>)
  {
    if padded == [] then ([], None)
    else (Normalise(ResizeAsWritten(padded[..|padded| - 1])), Some(padded[|padded| - 1]))
  }

  /** nn/dataset.js:48-78 after tokenising, as written: lines 55 and 72 as the code has them. */
  function ProcessAsWritten(rows: seq<seq<int>>): (r: seq<(seq<real>, Option<int>)>)
    ensures |r| == |LongRows(rows)|
  {
    var kept := LongRows(rows);
    var dropped := seq(|kept|, k requires 0 <= k < |kept| => DropOnes(kept[k]));
    var m := MaxLength(dropped);
    seq(|dropped|, k requires 0 <= k < |dropped| => MakeSampleAsWritten(PadLeft(dropped[k], m)))
  }

  /**
   * The text "a;1111\r\nb;2345", tokenised: as written, the row 1 1 1 1
   * loses every token at line 55 and is padded to 10 10 10 10, so its
   * output is the padding value 10 and the largest output, and
   * getOutputSize, is 11, not a digit count; as intended the outputs are
   * the digits 0 and 4.
   */
  lemma ProcessAsWrittenSample()
    ensures ProcessAsWritten([[1, 1, 1, 1], [2, 3, 4, 5]]) == [([1.0], Some(PADDING_VALUE)), ([0.4], Some(5))]
    ensures var r := Process([[1, 1, 1, 1], [2, 3, 4, 5]]);
            |r| == 2 && r[0].output == 0 && r[1].output == 4
  {
    var rows := [[1, 1, 1, 1], [2, 3, 4, 5]];
    SampleRowsKept();
    SampleDropped();
    var dropped := seq(|rows|, k requires 0 <= k < |rows| => DropOnes(rows[k]));
    assert dropped == [[], [2, 3, 4, 5]];
    SampleAsWritten(dropped);
    ProcessSpec(rows);
  }

  lemma SampleRowsKept()
    ensures LongRows([[1, 1, 1, 1], [2, 3, 4, 5]]) == [[1, 1, 1, 1], [2, 3, 4, 5]]
  {
    var rows := [[1, 1, 1, 1], [2, 3, 4, 5]];
    assert rows[..1] == [[1, 1, 1, 1]];
    assert [[1, 1, 1, 1]][..0] == [];
    assert NonNegative([1, 1, 1, 1]) == [1, 1, 1, 1] by {
      assert [1, 1, 1, 1][..3] == [1, 1, 1];
      assert [1, 1, 1][..2] == [1, 1];
      assert [1, 1][..1] == [1];
    }
    assert NonNegative([2, 3, 4, 5]) == [2, 3, 4, 5] by {
      assert [2, 3, 4, 5][..3] == [2, 3, 4];
      assert [2, 3, 4][..2] == [2, 3];
      assert [2, 3][..1] == [2];
    }
  }

  lemma SampleDropped()
    ensures DropOnes([1, 1, 1, 1]) == [] && DropOnes([2, 3, 4, 5]) == [2, 3, 4, 5]
  {
    assert [1, 1, 1, 1][..3] == [1, 1, 1];
    assert [1, 1, 1][..2] == [1, 1];
    assert [1, 1][..1] == [1];
    assert [2, 3, 4, 5][..3] == [2, 3, 4];
    assert [2, 3, 4][..2] == [2, 3];
    assert [2, 3][..1] == [2];
  }

  lemma SampleAsWritten(dropped: seq<seq<int>>)
    requires dropped == [[], [2, 3, 4, 5]]
    ensures seq(2, k requires 0 <= k < 2 => MakeSampleAsWritten(PadLeft(dropped[k], MaxLength(dropped))))
            == [([1.0], Some(PADDING_VALUE)), ([0.4], Some(5))]
  {
    assert MaxLength(dropped) == 4 by {
      assert dropped[..1] == [[]];
    }
    SamplePadded();
    SampleFull();
  }

  lemma SamplePadded()
    ensures MakeSampleAsWritten(PadLeft([], 4)) == ([1.0], Some(PADDING_VALUE))
  {
    var padded := PadLeft([], 4);
    assert padded == [10, 10, 10, 10];
    assert padded[..3] == [10, 10, 10];
    assert ResizeAsWritten([10, 10, 10]) == [10];
    assert Normalise([10]) == [1.0];
  }

  lemma SampleFull()
    ensures MakeSampleAsWritten(PadLeft([2, 3, 4, 5], 4)) == ([0.4], Some(5))
  {
    var padded := PadLeft([2, 3, 4, 5], 4);
    assert padded == [2, 3, 4, 5];
    assert padded[..3] == [2, 3, 4];
    assert ResizeAsWritten([2, 3, 4]) == [4];
    assert Normalise([4]) == [0.4];
  }

  /**
   * The sample a cleaned row should give when every input is w tokens wide,
   * read straight off the row: the output is its last token shifted; input
   * j is the token w - j places before the last, shifted and divided by 10,
   * or the padding 10 / 10 = 1 where that place is in front of the row.
   */
  function Expected(row: seq<int>, w: nat): (s: Sample)
    requires row != []
  {
    Sample(seq(w, j requires 0 <= j < w =>
                 var p := |row| - 1 - w + j;
                 if p >= 0 then Shift(row[p]) as real / MAXIMUM_INPUT_VALUE else PADDING_VALUE as real / MAXIMUM_INPUT_VALUE),
           Shift(row[|row| - 1]), None, None)
  }

  /** Shifting keeps every row's length, so the longest row is as long as before. */
  lemma MaxLengthShifted(kept: seq<seq<int>>)
    ensures MaxLength(ShiftAll(kept)) == MaxLength(kept)
  {
    var shifted := ShiftAll(kept);
    if kept != [] {
      var a :| 0 <= a < |kept| && |kept[a]| == MaxLength(kept);
      var b :| 0 <= b < |shifted| && |shifted[b]| == MaxLength(shifted);
      assert |shifted[a]| == |kept[a]| && |shifted[b]| == |kept[b]|;
    }
  }

  /** One input of SampleOfRow: the padded place it is read from is the row's place p, or padding in front of it. */
  lemma {:induction false} SampleInputAt(row: seq<int>, m: nat, j: nat)
    requires MINIMUM_TOTAL_SIZE <= |row| <= m && j < Width(m)
    ensures MakeSample(PadLeft(ShiftDown(row), m)).input[j] == Expected(row, Width(m)).input[j]
  {
    var w := Width(m);
    var shifted := ShiftDown(row);
    var padded := PadLeft(shifted, m);
    var k := m - 1 - w + j;
    var p := |row| - 1 - w + j;
    var v := if p >= 0 then Shift(row[p]) else PADDING_VALUE;
    var sample := MakeSample(padded);
    assert |padded| == m && |sample.input| == w;
    assert padded[k] == v by {
      if p >= 0 {
        assert padded[k] == shifted[p];
      }
    }
    assert Expected(row, w).input[j] == v as real / MAXIMUM_INPUT_VALUE;
    assert sample.input[j] == padded[k] as real / MAXIMUM_INPUT_VALUE;
  }

  /** Padding, splitting, cutting and scaling one row gives the sample read straight off it. */
  lemma SampleOfRow(row: seq<int>, m: nat)
    requires MINIMUM_TOTAL_SIZE <= |row| <= m
    ensures MakeSample(PadLeft(ShiftDown(row), m)) == Expected(row, Width(m))
  {
    var s, e := MakeSample(PadLeft(ShiftDown(row), m)), Expected(row, Width(m));
    forall j | 0 <= j < Width(m) ensures s.input[j] == e.input[j] {
      SampleInputAt(row, m, j);
    }
    assert s.input == e.input;
  }

  /**
   * The samples: one per row with at least four non-negative tokens, in the
   * same order, each the sample read straight off its cleaned row, all with
   * inputs of the same width.
   */
  lemma ProcessSpec(rows: seq<seq<int>>)
    ensures var r, kept := Process(rows), LongRows(rows);
            && |r| == |kept|
            && forall k :: 0 <= k < |r| ==> r[k] == Expected(kept[k], Width(MaxLength(kept)))
  {
    var r, kept := Process(rows), LongRows(rows);
    var m := MaxLength(ShiftAll(kept));
    MaxLengthShifted(kept);
    forall k | 0 <= k < |r| ensures r[k] == Expected(kept[k], Width(m)) {
      SampleOfRow(kept[k], m);
    }
  }

  /** Read off a row of digits, every output is a digit and every input value lies in [0, 1]. */
  lemma ExpectedRanges(row: seq<int>, w: nat)
    requires row != [] && forall v :: v in row ==> 0 <= v <= 9
    ensures var s := Expected(row, w);
            && 0 <= s.output <= 9 && |s.input| == w
            && forall j :: 0 <= j < w ==> 0.0 <= s.input[j] <= 1.0
  {
    var s := Expected(row, w);
    assert row[|row| - 1] in row;
    forall j | 0 <= j < w ensures 0.0 <= s.input[j] <= 1.0 {
      var p := |row| - 1 - w + j;
      if p >= 0 {
        assert row[p] in row;
        assert 0 <= Shift(row[p]) <= 9;
        assert s.input[j] == Shift(row[p]) as real / MAXIMUM_INPUT_VALUE;
      } else {
        assert s.input[j] == PADDING_VALUE as real / MAXIMUM_INPUT_VALUE;
      }
    }
  }

  /**
   * A sample as training reads it: the output a digit, w inputs each in
   * [0, 1], and no error recorded yet.
   */
  ghost predicate Shaped(x: Sample, w: nat) {
    && 0 <= x.output <= 9 && |x.input| == w && x.error == None
    && forall j :: 0 <= j < w ==> 0.0 <= x.input[j] <= 1.0
  }

  /**
   * With tokens that are digits or negative, as tokenising makes them, every
   * output is a digit, every input value lies in [0, 1] and all inputs have
   * the same length.
   */
  lemma ProcessRanges(rows: seq<seq<int>>)
    requires Tokens.AtMostNine(rows)
    ensures var r, w := Process(rows), Width(MaxLength(LongRows(rows)));
            forall k :: 0 <= k < |r| ==> Shaped(r[k], w)
  {
    var r, kept := Process(rows), LongRows(rows);
    var w := Width(MaxLength(kept));
    ProcessSpec(rows);
    LongRowsMembers(rows);
    forall k | 0 <= k < |r| ensures Shaped(r[k], w) {
      assert kept[k] in kept;
      assert CleanedFrom(rows, kept[k]);
      var i :| 0 <= i < |rows| && kept[k] == NonNegative(rows[i]) && |kept[k]| >= MINIMUM_TOTAL_SIZE;
      ExpectedRanges(kept[k], w);
    }
  }

}
