/** The range-expression parser `parse_range(numbers, end=-1)`: it turns a compact
    description of column indices into an ordered list of integers.

      "A~B"        the integers A..B inclusive (`~` is looked for first)
      "BASE,+STEP" BASE, BASE+STEP, BASE+2*STEP, ... while the value is <= end
      "A,B,C"      the listed integers, in the given order
      "A"          the single integer A

    Python's exceptions become `Err` values: a token that `int` rejects, the
    assertion that `end >= 1` for the stepped form, and (where the source would
    loop forever) a stepped form whose step never moves past `end`. */
module RangeExpr {
  import opened Results
  import opened Integers

  datatype RangeError =
    | NotAnInteger(token: string)  // `int(token)` raises ValueError
    | EndRequired                  // the assertion `end >= 1` fails
    | EndlessStep                  // STEP <= 0 with BASE <= end: the source never returns

  /** `s.index(c)`: the position of the first occurrence of c. */
  function IndexOf(s: string, c: char): (i: nat)
    requires c in s
    ensures i < |s| && s[i] == c
  {
    if s[0] == c then 0 else IndexOf(s[1..], c) + 1
  }

  /** The position found is that of the first occurrence. */
  lemma {:induction false} IndexOfFirst(s: string, c: char)
    requires c in s
    ensures c !in s[..IndexOf(s, c)]
  {
    if s[0] != c {
      var j := IndexOf(s[1..], c);
      IndexOfFirst(s[1..], c);
      assert s[..j + 1] == [s[0]] + s[1..][..j];
    }
  }

  /** `s.count(c)` for a single character. */
  function Occurrences(s: string, c: char): nat {
    if s == [] then 0 else (if s[0] == c then 1 else 0) + Occurrences(s[1..], c)
  }

  lemma {:induction false} OccurrencesAppend(a: string, b: string, c: char)
    ensures Occurrences(a + b, c) == Occurrences(a, c) + Occurrences(b, c)
  {
    if a == [] {
      assert a + b == b;
    } else {
      assert (a + b)[1..] == a[1..] + b;
      OccurrencesAppend(a[1..], b, c);
    }
  }

  lemma {:induction false} OccurrencesAbsent(s: string, c: char)
    requires c !in s
    ensures Occurrences(s, c) == 0
  {
    if s != [] {
      assert forall x :: x in s[1..] ==> x in s;
      OccurrencesAbsent(s[1..], c);
    }
  }

  /** `s.split(c)`: the pieces between the occurrences of c, empty pieces included. */
  function SplitOn(s: string, c: char): (parts: seq<string>)
    ensures |parts| == Occurrences(s, c) + 1
    decreases |s|
  {
    if c !in s then
      OccurrencesAbsent(s, c);
      [s]
    else
      var i := IndexOf(s, c);
      IndexOfFirst(s, c);
      assert s == s[..i] + [c] + s[i + 1..];
      OccurrencesAppend(s[..i] + [c], s[i + 1..], c);
      OccurrencesAppend(s[..i], [c], c);
      OccurrencesAbsent(s[..i], c);
      [s[..i]] + SplitOn(s[i + 1..], c)
  }

  /** No piece of a split holds the separator. */
  lemma {:induction false} SplitOnPieces(s: string, c: char)
    ensures forall k :: 0 <= k < |SplitOn(s, c)| ==> c !in SplitOn(s, c)[k]
    decreases |s|
  {
    if c in s {
      var i := IndexOf(s, c);
      IndexOfFirst(s, c);
      SplitOnPieces(s[i + 1..], c);
      var tail := SplitOn(s[i + 1..], c);
      assert SplitOn(s, c) == [s[..i]] + tail;
      assert forall k :: 0 < k < |SplitOn(s, c)| ==> SplitOn(s, c)[k] == tail[k - 1];
    }
  }

  /** `c.join(parts)` */
  function JoinWith(parts: seq<string>, c: char): string
    requires parts != []
  {
    if |parts| == 1 then parts[0] else parts[0] + [c] + JoinWith(parts[1..], c)
  }

  /** Splitting at c and joining with c gives back the expression. */
  lemma {:induction false} JoinWithSplitOn(s: string, c: char)
    ensures JoinWith(SplitOn(s, c), c) == s
    decreases |s|
  {
    if c in s {
      var i := IndexOf(s, c);
      JoinWithSplitOn(s[i + 1..], c);
      assert s == s[..i] + [c] + s[i + 1..];
    }
  }

  /** `int(token)` with its failure as a RangeError. */
  function ToInt(token: string): (r: Result<int, RangeError>)
    ensures r.Ok? <==> ParseInt(token).Some?
    ensures r.Ok? ==> ParseInt(token) == Some(r.value)
    ensures r.Err? ==> r.error == NotAnInteger(token)
  {
    match ParseInt(token)
    case Some(n) => Ok(n)
    case None => Err(NotAnInteger(token))
  }

  /** `list(range(lo, hi + 1))` */
  function Interval(lo: int, hi: int): (r: seq<int>)
    ensures |r| == if lo <= hi then hi - lo + 1 else 0
    decreases hi - lo
  {
    if lo > hi then [] else [lo] + Interval(lo + 1, hi)
  }

  /** Element k of the interval is lo + k. */
  lemma {:induction false} IntervalValues(lo: int, hi: int)
    ensures forall k :: 0 <= k < |Interval(lo, hi)| ==> Interval(lo, hi)[k] == lo + k
    decreases hi - lo
  {
    if lo <= hi {
      IntervalValues(lo + 1, hi);
      var tail := Interval(lo + 1, hi);
      assert Interval(lo, hi) == [lo] + tail;
      assert forall k :: 0 < k < |Interval(lo, hi)| ==> Interval(lo, hi)[k] == tail[k - 1];
    }
  }

  /** What the `while base <= end` loop appends: the values base, base + step, ...
      up to end. */
  function Stepped(base: int, step: int, end: int): seq<int>
    requires step > 0
    decreases end - base
  {
    if base > end then [] else [base] + Stepped(base + step, step, end)
  }

  /** The progression is empty exactly when base is past end; otherwise it starts
      at base, goes up by step, stays at most end, and one more step passes end. */
  lemma {:induction false} SteppedShape(base: int, step: int, end: int)
    requires step > 0
    ensures var r := Stepped(base, step, end);
            && (base > end <==> r == [])
            && (r != [] ==> r[0] == base && r[|r| - 1] + step > end)
            && (forall k :: 0 <= k < |r| - 1 ==> r[k + 1] == r[k] + step)
            && (forall k :: 0 <= k < |r| ==> r[k] <= end)
    decreases end - base
  {
    if base <= end {
      SteppedShape(base + step, step, end);
      var r := Stepped(base, step, end);
      var q := Stepped(base + step, step, end);
      assert r == [base] + q;
      assert forall k :: 0 < k < |r| ==> r[k] == q[k - 1];
    }
  }

  /** Element k of the progression is base + k * step. */
  lemma {:induction false} SteppedAt(base: int, step: int, end: int, k: nat)
    requires step > 0
    requires k < |Stepped(base, step, end)|
    ensures Stepped(base, step, end)[k] == base + k * step
    decreases k
  {
    if k > 0 {
      var q := Stepped(base + step, step, end);
      assert Stepped(base, step, end) == [base] + q;
      SteppedAt(base + step, step, end, k - 1);
      assert k * step == (k - 1) * step + step;
    }
  }

  /** The closed form of the progression: element k is base + k * step, and the
      value after the last element, base + |r| * step, exceeds end. */
  lemma SteppedClosedForm(base: int, step: int, end: int)
    requires step > 0
    ensures var r := Stepped(base, step, end);
            && (forall k :: 0 <= k < |r| ==> r[k] == base + k * step)
            && base + |r| * step > end
  {
    var r := Stepped(base, step, end);
    SteppedShape(base, step, end);
    forall k | 0 <= k < |r| ensures r[k] == base + k * step {
      SteppedAt(base, step, end, k);
    }
    if r != [] {
      SteppedAt(base, step, end, |r| - 1);
      assert |r| * step == (|r| - 1) * step + step;
    }
  }

  /** The comma-list branch: `[int(num) for num in tokens]`, failing at the first
      token `int` rejects. */
  function ParseAll(tokens: seq<string>): Result<seq<int>, RangeError> {
    if tokens == [] then Ok([])
    else
      var n :- ToInt(tokens[0]);
      var rest :- ParseAll(tokens[1..]);
      Ok([n] + rest)
  }

  /** The list form succeeds exactly when every token is an integer, and then
      yields one integer per token, in order. */
  lemma {:induction false} ParseAllValues(tokens: seq<string>)
    ensures ParseAll(tokens).Ok? <==> forall k :: 0 <= k < |tokens| ==> ParseInt(tokens[k]).Some?
    ensures ParseAll(tokens).Ok? ==>
              |ParseAll(tokens).value| == |tokens|
              && forall k :: 0 <= k < |tokens| ==> ParseInt(tokens[k]) == Some(ParseAll(tokens).value[k])
  {
    if tokens != [] {
      ParseAllValues(tokens[1..]);
      assert forall k :: 1 <= k < |tokens| ==> tokens[1..][k - 1] == tokens[k];
    }
  }

  /** The list form fails with the first token that is not an integer. */
  lemma {:induction false} ParseAllFirstError(tokens: seq<string>, k: nat)
    requires k < |tokens| && ParseInt(tokens[k]).None?
    requires forall j :: 0 <= j < k ==> ParseInt(tokens[j]).Some?
    ensures ParseAll(tokens) == Err(NotAnInteger(tokens[k]))
  {
    if k > 0 {
      assert tokens[1..][k - 1] == tokens[k];
      assert forall j :: 0 <= j < k - 1 ==> tokens[1..][j] == tokens[j + 1];
      ParseAllFirstError(tokens[1..], k - 1);
    }
  }

  /** The meaning of `parse_range(numbers, end)`; `end` is -1 when the caller
      leaves it out. */
  function RangeOf(numbers: string, end: int): Result<seq<int>, RangeError> {
    if '~' in numbers then
      var i := IndexOf(numbers, '~');
      var fro :- ToInt(numbers[..i]);
      var to :- ToInt(numbers[i + 1..]);
      Ok(Interval(fro, to))
    else if ',' in numbers then
      if '+' in numbers then
        if end < 1 then Err(EndRequired)
        else
          var base :- ToInt(numbers[..IndexOf(numbers, ',')]);
          var step :- ToInt(numbers[IndexOf(numbers, '+') + 1..]);
          if step > 0 then Ok(Stepped(base, step, end))
          else if base > end then Ok([])
          else Err(EndlessStep)
      else ParseAll(SplitOn(numbers, ','))
    else
      var n :- ToInt(numbers);
      Ok([n])
  }

  /** `parse_range` as the source runs it: the interval and single-integer forms
      are computed directly, the stepped and list forms by appending in a loop. */
  method ParseRange(numbers: string, end: int) returns (r: Result<seq<int>, RangeError>)
    ensures r == RangeOf(numbers, end)
  {
    if '~' in numbers {
      var i := IndexOf(numbers, '~');
      var fro :- ToInt(numbers[..i]);
      var to :- ToInt(numbers[i + 1..]);
      return Ok(Interval(fro, to));
    } else if ',' in numbers {
      if '+' in numbers {
        if end < 1 {
          return Err(EndRequired);
        }
        var base :- ToInt(numbers[..IndexOf(numbers, ',')]);
        var step :- ToInt(numbers[IndexOf(numbers, '+') + 1..]);
        if step <= 0 && base <= end {
          // the source's loop would append base forever
          return Err(EndlessStep);
        }
        var data := AppendStepped(base, step, end);
        return Ok(data);
      } else {
        r := ParseTokens(SplitOn(numbers, ','));
      }
    } else {
      var n :- ToInt(numbers);
      return Ok([n]);
    }
  }

  /** The `while base <= end` loop of the stepped form. */
  method AppendStepped(base: int, step: int, end: int) returns (data: seq<int>)
    requires step > 0 || base > end
    ensures data == if step > 0 then Stepped(base, step, end) else []
  {
    var b := base;
    data := [];
    while b <= end
      invariant step > 0 ==> data + Stepped(b, step, end) == Stepped(base, step, end)
      invariant step <= 0 ==> data == [] && b > end
      decreases end - b
    {
      assert Stepped(b, step, end) == [b] + Stepped(b + step, step, end);
      assert data + [b] + Stepped(b + step, step, end) == data + ([b] + Stepped(b + step, step, end));
      data := data + [b];
      b := b + step;
    }
    assert data + [] == data;
  }

  /** The `for num in numbers.split(',')` loop of the list form. */
  method ParseTokens(tokens: seq<string>) returns (r: Result<seq<int>, RangeError>)
    ensures r == ParseAll(tokens)
  {
    var data: seq<int> := [];
    assert tokens[0..] == tokens;
    assert ParseAll(tokens).Ok? ==> data + ParseAll(tokens).value == ParseAll(tokens).value;
    for k := 0 to |tokens|
      invariant ParseAll(tokens[k..]).Ok? ==> ParseAll(tokens) == Ok(data + ParseAll(tokens[k..]).value)
      invariant ParseAll(tokens[k..]).Err? ==> ParseAll(tokens) == ParseAll(tokens[k..])
    {
      assert tokens[k..][0] == tokens[k] && tokens[k..][1..] == tokens[k + 1..];
      var num := ToInt(tokens[k]);
      if num.Err? {
        return Err(num.error);
      }
      assert ParseAll(tokens[k + 1..]).Ok? ==>
               data + ([num.value] + ParseAll(tokens[k + 1..]).value)
               == (data + [num.value]) + ParseAll(tokens[k + 1..]).value;
      data := data + [num.value];
    }
    assert tokens[|tokens|..] == [];
    assert data + [] == data;
    return Ok(data);
  }

  /** A `~` selects the interval form, even when the expression also holds a `,`:
      it succeeds exactly when both sides of the first `~` are integers, and does
      not depend on `end`. */
  lemma {:induction false} IntervalFormSucceeds(numbers: string, end: int)
    requires '~' in numbers
    ensures var i := IndexOf(numbers, '~');
            RangeOf(numbers, end).Ok?
            <==> ParseInt(numbers[..i]).Some? && ParseInt(numbers[i + 1..]).Some?
    ensures var i := IndexOf(numbers, '~');
            ParseInt(numbers[..i]).None? ==> RangeOf(numbers, end) == Err(NotAnInteger(numbers[..i]))
    ensures forall other :: RangeOf(numbers, other) == RangeOf(numbers, end)
  {
  }

  /** `A~B` yields exactly the consecutive integers A..B, and nothing when A > B. */
  lemma IntervalForm(numbers: string, end: int, lo: int, hi: int)
    requires '~' in numbers
    requires ParseInt(numbers[..IndexOf(numbers, '~')]) == Some(lo)
    requires ParseInt(numbers[IndexOf(numbers, '~') + 1..]) == Some(hi)
    ensures RangeOf(numbers, end).Ok?
    ensures var r := RangeOf(numbers, end).value;
            && (forall k :: 0 <= k < |r| ==> r[k] == lo + k)
            && (forall x :: x in r <==> lo <= x <= hi)
            && (lo > hi ==> r == [])
  {
    var r := RangeOf(numbers, end).value;
    IntervalValues(lo, hi);
    forall x | lo <= x <= hi ensures x in r {
      assert r[x - lo] == x;
    }
  }

  /** A second `~` ends up inside the right-hand bound, which `int` rejects. */
  lemma SecondTildeFails(numbers: string, end: int)
    requires '~' in numbers
    requires '~' in numbers[IndexOf(numbers, '~') + 1..]
    ensures RangeOf(numbers, end).Err?
  {
    var rest := numbers[IndexOf(numbers, '~') + 1..];
    ParseIntRejects(rest, IndexOf(rest, '~'));
  }

  /** `BASE,+STEP` with a positive STEP: the progression from BASE with difference
      STEP, every element at most `end`, and BASE + |r| * STEP past `end`. */
  lemma SteppedForm(numbers: string, end: int, base: int, step: int)
    requires '~' !in numbers && ',' in numbers && '+' in numbers
    requires end >= 1
    requires ParseInt(numbers[..IndexOf(numbers, ',')]) == Some(base)
    requires ParseInt(numbers[IndexOf(numbers, '+') + 1..]) == Some(step)
    requires step > 0
    ensures RangeOf(numbers, end) == Ok(Stepped(base, step, end))
    ensures var r := Stepped(base, step, end);
            && (r != [] <==> base <= end)
            && (forall k :: 0 <= k < |r| ==> r[k] == base + k * step && r[k] <= end)
            && base + |r| * step > end
  {
    SteppedValue(numbers, end, base, step);
    SteppedShape(base, step, end);
    SteppedClosedForm(base, step, end);
  }

  /** `BASE,+STEP` with a positive STEP and an `end` of at least 1 is `Stepped`. */
  lemma SteppedValue(numbers: string, end: int, base: int, step: int)
    requires '~' !in numbers && ',' in numbers && '+' in numbers
    requires end >= 1
    requires ParseInt(numbers[..IndexOf(numbers, ',')]) == Some(base)
    requires ParseInt(numbers[IndexOf(numbers, '+') + 1..]) == Some(step)
    requires step > 0
    ensures RangeOf(numbers, end) == Ok(Stepped(base, step, end))
  {
  }

  /** Whatever a successful `BASE,+STEP` expression with a positive STEP yields:
      `end` was at least 1, and the result is the progression from BASE up to
      `end`, stopping before the first element past it. */
  lemma SteppedResult(numbers: string, end: int, base: int, step: int, r: seq<int>)
    requires '~' !in numbers && ',' in numbers && '+' in numbers
    requires ParseInt(numbers[..IndexOf(numbers, ',')]) == Some(base)
    requires ParseInt(numbers[IndexOf(numbers, '+') + 1..]) == Some(step)
    requires step > 0
    requires RangeOf(numbers, end) == Ok(r)
    ensures end >= 1
    ensures r != [] <==> base <= end
    ensures forall k :: 0 <= k < |r| ==> r[k] == base + k * step && r[k] <= end
    ensures r != [] ==> r[|r| - 1] + step > end
  {
    if end < 1 {
      SteppedFormRequiresEnd(numbers, end);
      assert false;
    }
    SteppedValue(numbers, end, base, step);
    assert r == Stepped(base, step, end);
    SteppedShape(base, step, end);
    SteppedClosedForm(base, step, end);
  }

  /** The stepped form needs an `end` of at least 1; the default -1 fails. */
  lemma SteppedFormRequiresEnd(numbers: string, end: int)
    requires '~' !in numbers && ',' in numbers && '+' in numbers
    requires end < 1
    ensures RangeOf(numbers, end) == Err(EndRequired)
  {
  }

  /** With `end` at least 1, a BASE or STEP that `int` rejects makes the stepped
      form fail, naming that token; BASE is converted first. */
  lemma SteppedFormBadToken(numbers: string, end: int)
    requires '~' !in numbers && ',' in numbers && '+' in numbers
    requires end >= 1
    ensures var base := numbers[..IndexOf(numbers, ',')];
            ParseInt(base).None? ==> RangeOf(numbers, end) == Err(NotAnInteger(base))
    ensures var base, step := numbers[..IndexOf(numbers, ',')], numbers[IndexOf(numbers, '+') + 1..];
            ParseInt(base).Some? && ParseInt(step).None? ==> RangeOf(numbers, end) == Err(NotAnInteger(step))
  {
  }

  /** A STEP that is not positive gives nothing when BASE is already past `end`,
      and otherwise is the case where the source never returns. */
  lemma SteppedFormNonPositiveStep(numbers: string, end: int, base: int, step: int)
    requires '~' !in numbers && ',' in numbers && '+' in numbers
    requires end >= 1
    requires ParseInt(numbers[..IndexOf(numbers, ',')]) == Some(base)
    requires ParseInt(numbers[IndexOf(numbers, '+') + 1..]) == Some(step)
    requires step <= 0
    ensures RangeOf(numbers, end) == if base > end then Ok([]) else Err(EndlessStep)
  {
  }

  /** A comma list without `+` yields one integer per `,`-separated token, in the
      order given: one more than there are commas. */
  lemma ListForm(numbers: string, end: int)
    requires '~' !in numbers && ',' in numbers && '+' !in numbers
    ensures var tokens := SplitOn(numbers, ',');
            RangeOf(numbers, end).Ok? <==> forall k :: 0 <= k < |tokens| ==> ParseInt(tokens[k]).Some?
    ensures var tokens := SplitOn(numbers, ',');
            RangeOf(numbers, end).Ok? ==>
              var r := RangeOf(numbers, end).value;
              && |r| == Occurrences(numbers, ',') + 1
              && forall k :: 0 <= k < |r| ==> ParseInt(tokens[k]) == Some(r[k])
  {
    assert RangeOf(numbers, end) == ParseAll(SplitOn(numbers, ','));
    ParseAllValues(SplitOn(numbers, ','));
  }

  /** Without `~` and `,` the expression is a single integer. */
  lemma SingleForm(numbers: string, end: int)
    requires '~' !in numbers && ',' !in numbers
    ensures ParseInt(numbers).Some? ==> RangeOf(numbers, end) == Ok([ParseInt(numbers).value])
    ensures ParseInt(numbers).None? ==> RangeOf(numbers, end) == Err(NotAnInteger(numbers))
  {
  }

  /** The examples in the comments at the head of `parse_range`. */
  lemma IntervalExample()
    ensures RangeOf("1~3", -1) == Ok([1, 2, 3])
  {
    var s := "1~3";
    assert s[1..][0] == '~';
    assert IndexOf(s, '~') == 1;
    assert s[..1] == "1" && s[2..] == "3";
    ParseIntOfDecimal(1);
    ParseIntOfDecimal(3);
    assert Interval(1, 3) == [1, 2, 3];
  }

  lemma ListExample()
    ensures RangeOf("3,5,10", -1) == Ok([3, 5, 10])
  {
    var s := "3,5,10";
    assert s[1] == ',' && '~' !in s && '+' !in s;
    assert RangeOf(s, -1) == ParseAll(SplitOn(s, ','));
    ListExampleTokens();
    ListExampleValues();
  }

  lemma ListExampleTokens()
    ensures SplitOn("3,5,10", ',') == ["3", "5", "10"]
  {
    var s := "3,5,10";
    assert s[1..][0] == ',';
    assert IndexOf(s, ',') == 1;
    assert s[..1] == "3" && s[2..] == "5,10";
    assert "5,10"[1..][0] == ',';
    assert IndexOf("5,10", ',') == 1;
    assert "5,10"[..1] == "5" && "5,10"[2..] == "10";
    assert ',' !in "10";
  }

  lemma ListExampleValues()
    ensures ParseAll(["3", "5", "10"]) == Ok([3, 5, 10])
  {
    var tokens := ["3", "5", "10"];
    assert Decimal(10) == "10";
    ParseIntOfDecimal(3);
    ParseIntOfDecimal(5);
    ParseIntOfDecimal(10);
    ParseAllValues(tokens);
    var r := ParseAll(tokens).value;
    assert r == [3, 5, 10];
  }

  lemma SteppedExample()
    ensures RangeOf("1,+2", 6) == Ok([1, 3, 5])
    ensures RangeOf("1,+2", 5) == Ok([1, 3, 5])
  {
    var s := "1,+2";
    assert s[1..][0] == ',' && s[1..][1..][0] == '+';
    assert IndexOf(s, ',') == 1 && IndexOf(s, '+') == 2;
    assert s[..1] == "1" && s[3..] == "2";
    ParseIntOfDecimal(1);
    ParseIntOfDecimal(2);
    SteppedForm(s, 6, 1, 2);
    SteppedForm(s, 5, 1, 2);
    assert Stepped(7, 2, 6) == [] && Stepped(7, 2, 5) == [];
    assert Stepped(1, 2, 6) == [1, 3, 5];
    assert Stepped(1, 2, 5) == [1, 3, 5];
  }

  lemma SteppedExampleWithoutEnd()
    ensures RangeOf("1,+2", -1) == Err(EndRequired)
  {
  }

  lemma SingleExample()
    ensures RangeOf("7", -1) == Ok([7])
  {
    ParseIntOfDecimal(7);
  }
}
