/**
 * The "<column> <n>명 이상" query pattern of `_build_prompt` (src/qa_service.py:81),
 * `re.search(r"([가-힣A-Za-z0-9_]+)\s*([0-9]+)명\s*이상", query)`.
 *
 * After the first group, every remaining piece of the pattern is forced: `\s*`
 * must stop where the digits start, `[0-9]+` where '명' follows, and the second
 * `\s*` where "이상" follows, so backtracking can only move the end of the first
 * group. `TailAt` is that deterministic remainder; the search tries start
 * positions left to right and, at each, ends of the first group in the order the
 * quantifier dictates (longest first for the greedy `+` the code writes,
 * shortest first for a lazy `+?`).
 */
module Threshold {
  import opened Wrappers
  import opened PyText

  /** `[가-힣A-Za-z0-9_]` */
  predicate IsWordChar(c: char) {
    ('가' <= c <= '힣') || ('A' <= c <= 'Z') || ('a' <= c <= 'z') || IsAsciiDigit(c) || c == '_'
  }

  const Myeong: char := '명'
  const Isang: string := "이상"

  /** End of the longest run of whitespace starting at `i`. */
  function SpaceEnd(q: string, i: nat): (j: nat)
    requires i <= |q|
    ensures i <= j <= |q|
    ensures j < |q| ==> !IsSpace(q[j])
    decreases |q| - i
  {
    if i < |q| && IsSpace(q[i]) then SpaceEnd(q, i + 1) else i
  }

  lemma {:induction false} SpaceEndSpans(q: string, i: nat)
    requires i <= |q|
    ensures forall k :: i <= k < SpaceEnd(q, i) ==> IsSpace(q[k])
    decreases |q| - i
  {
    if i < |q| && IsSpace(q[i]) {
      SpaceEndSpans(q, i + 1);
    }
  }

  /** End of the longest run of ASCII digits starting at `i`. */
  function DigitEnd(q: string, i: nat): (j: nat)
    requires i <= |q|
    ensures i <= j <= |q|
    ensures j < |q| ==> !IsAsciiDigit(q[j])
    decreases |q| - i
  {
    if i < |q| && IsAsciiDigit(q[i]) then DigitEnd(q, i + 1) else i
  }

  lemma {:induction false} DigitEndSpans(q: string, i: nat)
    requires i <= |q|
    ensures forall k :: i <= k < DigitEnd(q, i) ==> IsAsciiDigit(q[k])
    decreases |q| - i
  {
    if i < |q| && IsAsciiDigit(q[i]) {
      DigitEndSpans(q, i + 1);
    }
  }

  /** End of the longest run of word characters starting at `i`. */
  function WordEnd(q: string, i: nat): (j: nat)
    requires i <= |q|
    ensures i <= j <= |q|
    ensures j < |q| ==> !IsWordChar(q[j])
    decreases |q| - i
  {
    if i < |q| && IsWordChar(q[i]) then WordEnd(q, i + 1) else i
  }

  lemma {:induction false} WordEndSpans(q: string, i: nat)
    requires i <= |q|
    ensures forall k :: i <= k < WordEnd(q, i) ==> IsWordChar(q[k])
    decreases |q| - i
  {
    if i < |q| && IsWordChar(q[i]) {
      WordEndSpans(q, i + 1);
    }
  }

  /**
   * The whole pattern matched with the first group at `q[p..e1]`, the digits at
   * `q[e2..e3]`, '명' at `e3` and "이상" at `e4`.
   */
  ghost predicate PatternAt(q: string, p: nat, e1: nat, e2: nat, e3: nat, e4: nat) {
    && p < e1 <= e2 < e3 < e4 && e4 + 2 <= |q|
    && (forall k :: p <= k < e1 ==> IsWordChar(q[k]))
    && (forall k :: e1 <= k < e2 ==> IsSpace(q[k]))
    && (forall k :: e2 <= k < e3 ==> IsAsciiDigit(q[k]))
    && q[e3] == Myeong
    && (forall k :: e3 + 1 <= k < e4 ==> IsSpace(q[k]))
    && q[e4..e4 + 2] == Isang
  }

  ghost predicate MatchesAt(q: string, p: nat, e1: nat) {
    exists e2: nat, e3: nat, e4: nat :: PatternAt(q, p, e1, e2, e3, e4)
  }

  /** The rest of the pattern after the first group ends at `e1`: the digit span, if it matches. */
  function TailAt(q: string, e1: nat): (r: Option<(nat, nat)>)
    requires e1 <= |q|
    ensures r.Some? ==> e1 <= r.value.0 < r.value.1 < |q|
  {
    var e2 := SpaceEnd(q, e1);
    var e3 := DigitEnd(q, e2);
    if e3 > e2 && e3 < |q| && q[e3] == Myeong then
      var e4 := SpaceEnd(q, e3 + 1);
      if e4 + 2 <= |q| && q[e4..e4 + 2] == Isang then Some((e2, e3)) else None
    else None
  }

  lemma {:induction false} SpaceEndAt(q: string, i: nat, j: nat)
    requires i <= j < |q|
    requires forall k :: i <= k < j ==> IsSpace(q[k])
    requires !IsSpace(q[j])
    ensures SpaceEnd(q, i) == j
    decreases j - i
  {
    if i < j {
      SpaceEndAt(q, i + 1, j);
    }
  }

  lemma {:induction false} DigitEndAt(q: string, i: nat, j: nat)
    requires i <= j < |q|
    requires forall k :: i <= k < j ==> IsAsciiDigit(q[k])
    requires !IsAsciiDigit(q[j])
    ensures DigitEnd(q, i) == j
    decreases j - i
  {
    if i < j {
      DigitEndAt(q, i + 1, j);
    }
  }

  /** What the tail found is a match: the digit span it reports, with "이상" after the spaces that follow '명'. */
  lemma TailAtSound(q: string, p: nat, e1: nat) returns (e2: nat, e3: nat, e4: nat)
    requires p < e1 <= |q|
    requires forall k :: p <= k < e1 ==> IsWordChar(q[k])
    requires TailAt(q, e1).Some?
    ensures TailAt(q, e1) == Some((e2, e3))
    ensures PatternAt(q, p, e1, e2, e3, e4)
  {
    e2 := SpaceEnd(q, e1);
    e3 := DigitEnd(q, e2);
    assert TailAt(q, e1) == Some((e2, e3));
    e4 := SpaceEnd(q, e3 + 1);
    assert q[e3] == Myeong && e4 + 2 <= |q| && q[e4..e4 + 2] == Isang;
    assert forall k :: e1 <= k < e2 ==> IsSpace(q[k]) by {
      SpaceEndSpans(q, e1);
    }
    assert forall k :: e2 <= k < e3 ==> IsAsciiDigit(q[k]) by {
      DigitEndSpans(q, e2);
    }
    assert forall k :: e3 + 1 <= k < e4 ==> IsSpace(q[k]) by {
      SpaceEndSpans(q, e3 + 1);
    }
    assert PatternAt(q, p, e1, e2, e3, e4);
  }

  /** The number the tail found is a run of digits. */
  lemma TailAtDigits(q: string, e1: nat)
    requires e1 <= |q| && TailAt(q, e1).Some?
    ensures var span := TailAt(q, e1).value;
            forall i :: 0 <= i < |q[span.0..span.1]| ==> IsAsciiDigit(q[span.0..span.1][i])
  {
    DigitEndSpans(q, SpaceEnd(q, e1));
  }

  lemma TailAtComplete(q: string, p: nat, e1: nat, e2: nat, e3: nat, e4: nat)
    requires PatternAt(q, p, e1, e2, e3, e4)
    ensures TailAt(q, e1) == Some((e2, e3))
  {
    SpaceEndAt(q, e1, e2);
    DigitEndAt(q, e2, e3);
    assert q[e4] == Isang[0];
    SpaceEndAt(q, e3 + 1, e4);
  }

  /** The deterministic tail is exactly the pattern: it succeeds iff some spans complete the match. */
  lemma TailAtIff(q: string, p: nat, e1: nat)
    requires p < e1 <= |q|
    requires forall k :: p <= k < e1 ==> IsWordChar(q[k])
    ensures TailAt(q, e1).Some? <==> MatchesAt(q, p, e1)
  {
    if TailAt(q, e1).Some? {
      var e2, e3, e4 := TailAtSound(q, p, e1);
    }
    if MatchesAt(q, p, e1) {
      var e2: nat, e3: nat, e4: nat :| PatternAt(q, p, e1, e2, e3, e4);
      TailAtComplete(q, p, e1, e2, e3, e4);
    }
  }

  // ------------------------------------------------------------- the search

  /** Ends `e, e-1, ..., p+1` of the first group, longest first (the greedy `+`). */
  function GreedyEnd(q: string, p: nat, e: nat): (r: Option<nat>)
    requires p <= e <= |q|
    ensures r.Some? ==> p < r.value <= e && TailAt(q, r.value).Some?
    ensures r.Some? ==> forall f :: r.value < f <= e ==> TailAt(q, f).None?
    ensures r.None? ==> forall f :: p < f <= e ==> TailAt(q, f).None?
    decreases e
  {
    if e <= p then None
    else if TailAt(q, e).Some? then Some(e)
    else GreedyEnd(q, p, e - 1)
  }

  /** Ends `e, e+1, ..., hi` of the first group, shortest first (a lazy `+?`). */
  function LazyEnd(q: string, e: nat, hi: nat): (r: Option<nat>)
    requires e <= hi + 1 && hi <= |q|
    ensures r.Some? ==> e <= r.value <= hi && TailAt(q, r.value).Some?
    ensures r.Some? ==> forall f :: e <= f < r.value ==> TailAt(q, f).None?
    ensures r.None? ==> forall f :: e <= f <= hi ==> TailAt(q, f).None?
    decreases hi + 1 - e
  {
    if e > hi then None
    else if TailAt(q, e).Some? then Some(e)
    else LazyEnd(q, e + 1, hi)
  }

  /** The end of the first group at start `p`, if the pattern matches there. */
  function EndAt(q: string, p: nat, lazy: bool): (r: Option<nat>)
    requires p < |q|
    ensures r.Some? ==> p < r.value <= WordEnd(q, p) && TailAt(q, r.value).Some?
    ensures r.None? ==> forall f :: p < f <= WordEnd(q, p) ==> TailAt(q, f).None?
    ensures r.Some? && lazy ==> forall f :: p < f < r.value ==> TailAt(q, f).None?
    ensures r.Some? && !lazy ==> forall f :: r.value < f <= WordEnd(q, p) ==> TailAt(q, f).None?
  {
    var w := WordEnd(q, p);
    if w == p then None
    else if lazy then LazyEnd(q, p + 1, w)
    else GreedyEnd(q, p, w)
  }

  /** `re.search`: the first start position `>= p` at which the pattern matches, with the group end. */
  function SearchFrom(q: string, p: nat, lazy: bool): (r: Option<(nat, nat)>)
    requires p <= |q|
    ensures r.Some? ==> p <= r.value.0 < |q| && EndAt(q, r.value.0, lazy) == Some(r.value.1)
    ensures r.Some? ==> forall s :: p <= s < r.value.0 ==> EndAt(q, s, lazy).None?
    ensures r.None? ==> forall s :: p <= s < |q| ==> EndAt(q, s, lazy).None?
    decreases |q| - p
  {
    if p == |q| then None
    else match EndAt(q, p, lazy)
      case Some(e1) => Some((p, e1))
      case None => SearchFrom(q, p + 1, lazy)
  }

  /** The column name and the minimum the query asks for. */
  datatype Threshold = Threshold(column: string, minValue: int)

  function ThresholdOf(q: string, lazy: bool): Option<Threshold> {
    match SearchFrom(q, 0, lazy)
    case None => None
    case Some((p, e1)) =>
      var span := TailAt(q, e1).value;
      TailAtDigits(q, e1);
      Some(Threshold(q[p..e1], DigitsValue(q[span.0..span.1])))
  }

  /** `re.search` with the pattern as the code writes it (greedy first group). */
  function GreedyThreshold(q: string): Option<Threshold> {
    ThresholdOf(q, false)
  }

  /** The pattern with a lazy first group, `([가-힣A-Za-z0-9_]+?)`. */
  function LazyThreshold(q: string): Option<Threshold> {
    ThresholdOf(q, true)
  }

  /** A start position at which the pattern matches with some first group. */
  ghost predicate MatchStartsAt(q: string, p: nat) {
    exists e1: nat :: MatchesAt(q, p, e1)
  }

  lemma EndAtIff(q: string, p: nat, lazy: bool)
    requires p < |q|
    ensures EndAt(q, p, lazy).Some? <==> MatchStartsAt(q, p)
    ensures EndAt(q, p, lazy).Some? ==> MatchesAt(q, p, EndAt(q, p, lazy).value)
  {
    var w := WordEnd(q, p);
    if EndAt(q, p, lazy).Some? {
      WordEndSpans(q, p);
      TailAtIff(q, p, EndAt(q, p, lazy).value);
    }
    if MatchStartsAt(q, p) {
      var e1: nat :| MatchesAt(q, p, e1);
      var e2: nat, e3: nat, e4: nat :| PatternAt(q, p, e1, e2, e3, e4);
      assert e1 <= w;
      TailAtComplete(q, p, e1, e2, e3, e4);
    }
  }

  /**
   * Both searches find a match exactly when the pattern occurs, at its leftmost
   * start, and what they return is a real match of the pattern.
   */
  lemma SearchIsLeftmostMatch(q: string, lazy: bool)
    ensures SearchFrom(q, 0, lazy).None? <==> forall p :: 0 <= p < |q| ==> !MatchStartsAt(q, p)
    ensures SearchFrom(q, 0, lazy).Some? ==>
      && MatchesAt(q, SearchFrom(q, 0, lazy).value.0, SearchFrom(q, 0, lazy).value.1)
      && forall p :: 0 <= p < SearchFrom(q, 0, lazy).value.0 ==> !MatchStartsAt(q, p)
  {
    forall p | 0 <= p < |q|
      ensures EndAt(q, p, lazy).Some? <==> MatchStartsAt(q, p)
    {
      EndAtIff(q, p, lazy);
    }
    if SearchFrom(q, 0, lazy).Some? {
      EndAtIff(q, SearchFrom(q, 0, lazy).value.0, lazy);
    }
  }

  /** A digit just before a number that starts the tail extends it. */
  lemma TailStepBack(q: string, e1: nat)
    requires 1 <= e1 <= |q| && IsAsciiDigit(q[e1 - 1])
    requires TailAt(q, e1).Some? && TailAt(q, e1).value.0 == e1
    ensures TailAt(q, e1 - 1).Some?
  {
    var d1 := TailAt(q, e1).value.1;
    SpaceEndAt(q, e1 - 1, e1 - 1);
    assert SpaceEnd(q, e1) == e1;
    assert DigitEnd(q, e1) == d1;
    assert DigitEnd(q, e1 - 1) == d1;
  }

  /**
   * The lazy search never takes a digit of the number into the column name: the
   * column does not end in a digit that the number directly follows (a
   * one-character column excepted, which the group needs).
   */
  lemma LazyKeepsWholeNumber(q: string)
    requires SearchFrom(q, 0, true).Some?
    ensures var m := SearchFrom(q, 0, true).value;
            m.1 - m.0 == 1 || !IsAsciiDigit(q[m.1 - 1]) || TailAt(q, m.1).value.0 > m.1
  {
    var m := SearchFrom(q, 0, true).value;
    var e1 := m.1;
    if e1 - m.0 > 1 && IsAsciiDigit(q[e1 - 1]) && TailAt(q, e1).value.0 == e1 {
      TailStepBack(q, e1);
      assert false;
    }
  }

  lemma {:induction false} WordEndAt(q: string, i: nat, j: nat)
    requires i <= j < |q|
    requires forall k :: i <= k < j ==> IsWordChar(q[k])
    requires !IsWordChar(q[j])
    ensures WordEnd(q, i) == j
    decreases j - i
  {
    if i < j {
      WordEndAt(q, i + 1, j);
    }
  }

  /** A query with no space between column and number. */
  const Unspaced: string := "진학수40명 이상"

  lemma UnspacedFacts()
    ensures |Unspaced| == 9
    ensures WordEnd(Unspaced, 0) == 6
    ensures TailAt(Unspaced, 1).None? && TailAt(Unspaced, 2).None?
    ensures TailAt(Unspaced, 3) == Some((3, 5))
    ensures TailAt(Unspaced, 4) == Some((4, 5))
    ensures TailAt(Unspaced, 5).None? && TailAt(Unspaced, 6).None?
  {
    var q := Unspaced;
    WordEndAt(q, 0, 6);
    SpaceEndAt(q, 1, 1);
    DigitEndAt(q, 1, 1);
    SpaceEndAt(q, 2, 2);
    DigitEndAt(q, 2, 2);
    SpaceEndAt(q, 3, 3);
    DigitEndAt(q, 3, 5);
    SpaceEndAt(q, 4, 4);
    DigitEndAt(q, 4, 5);
    SpaceEndAt(q, 5, 5);
    DigitEndAt(q, 5, 5);
    SpaceEndAt(q, 6, 7);
    DigitEndAt(q, 7, 7);
    assert q[7..9] == Isang;
  }

  /** The code's greedy group splits an unspaced number: "진학수40명 이상" asks for column "진학수4" at 0. */
  lemma GreedySplitsNumber()
    ensures GreedyThreshold(Unspaced) == Some(Threshold("진학수4", 0))
  {
    UnspacedFacts();
    assert EndAt(Unspaced, 0, false) == Some(4);
    assert SearchFrom(Unspaced, 0, false) == Some((0, 4));
    assert Unspaced[0..4] == "진학수4";
    assert Unspaced[4..5] == "0";
    assert DigitsValue("0") == 0 by {
      assert "0"[..0] == "";
    }
  }

  /** The lazy group reads the same query as column "진학수" at 40. */
  lemma LazyReadsWholeNumber()
    ensures LazyThreshold(Unspaced) == Some(Threshold("진학수", 40))
  {
    UnspacedFacts();
    assert LazyEnd(Unspaced, 3, 6) == Some(3);
    assert LazyEnd(Unspaced, 1, 6) == Some(3);
    assert EndAt(Unspaced, 0, true) == Some(3);
    assert SearchFrom(Unspaced, 0, true) == Some((0, 3));
    assert Unspaced[0..3] == "진학수";
    assert Unspaced[3..5] == "40";
    assert DigitsValue("40") == 40 by {
      assert "40"[..1] == "4";
      assert DigitsValue("4") == 4 by {
        assert "4"[..0] == "";
      }
    }
  }
}
