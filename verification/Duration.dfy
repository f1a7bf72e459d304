/** The parser for ISO 8601 durations (client/parser/duration.go): the designators of section 4.4.3.2 of ISO 8601:2004,
    with whole numbers only. */
module Duration {
  import opened Decimal
  import opened Model

  const MAX_INT := 0x7FFF_FFFF_FFFF_FFFF
  const DATE := "YMWD"
  const TIME := "HMS"

  datatype Duration = Duration(y: int, m: int, w: int, d: int, th: int, tm: int, ts: int)

  const ZERO := Duration(0, 0, 0, 0, 0, 0, 0)

  // ---- The grammar ----

  /** A number with its designator; nothing at all when the number is left out. */
  function Field(number: string, designator: char): string {
    if number == "" then "" else number + [designator]
  }

  function Fields(numbers: seq<string>, designators: string): string
    requires |numbers| == |designators|
  {
    if numbers == [] then "" else Field(numbers[0], designators[0]) + Fields(numbers[1..], designators[1..])
  }

  function Written(numbers: seq<string>, hasTime: bool): string
    requires |numbers| == 7
  {
    "P" + Fields(numbers[..4], DATE) + (if hasTime then "T" + Fields(numbers[4..], TIME) else "")
  }

  /** Seven numbers, each possibly left out, and the letter T whenever there is a time. */
  predicate Numbers(numbers: seq<string>, hasTime: bool) {
    && |numbers| == 7 && (forall i | 0 <= i < 7 :: AllDigits(numbers[i]))
    && (!hasTime ==> numbers[4] == numbers[5] == numbers[6] == "")
  }

  ghost predicate InGrammar(s: string) {
    exists numbers, hasTime :: Numbers(numbers, hasTime) && s == Written(numbers, hasTime)
  }

  // ---- Matching ----

  function DigitCount(s: string): (n: nat)
    ensures n <= |s| && AllDigits(s[..n]) && (n < |s| ==> !IsDigit(s[n]))
  {
    if s == [] || !IsDigit(s[0]) then 0
    else
      var n := 1 + DigitCount(s[1..]);
      assert forall i | 0 < i < n :: s[i] == s[1..][i - 1];
      n
  }

  /** The number at the start of s if the designator follows it, and what is left. */
  function TakeField(s: string, designator: char): (r: (string, string))
    ensures AllDigits(r.0) && s == Field(r.0, designator) + r.1
  {
    var n := DigitCount(s);
    if 0 < n < |s| && s[n] == designator then
      assert s == s[..n] + [designator] + s[n + 1..];
      (s[..n], s[n + 1..])
    else ("", s)
  }

  function TakeFields(s: string, designators: string): (r: (seq<string>, string))
    ensures |r.0| == |designators|
    ensures forall i | 0 <= i < |r.0| :: AllDigits(r.0[i])
    ensures s == Fields(r.0, designators) + r.1
  {
    if designators == "" then ([], s)
    else
      var (number, rest) := TakeField(s, designators[0]);
      var (numbers, left) := TakeFields(rest, designators[1..]);
      FieldsFirst(number, numbers, designators, left);
      ([number] + numbers, left)
  }

  lemma FieldsFirst(number: string, numbers: seq<string>, designators: string, rest: string)
    requires |numbers| + 1 == |designators|
    ensures Fields([number] + numbers, designators) + rest
            == Field(number, designators[0]) + (Fields(numbers, designators[1..]) + rest)
  {
    assert ([number] + numbers)[1..] == numbers;
  }

  /** The seven groups of the pattern, None when it does not match. */
  function Match(s: string): (groups: Option<seq<string>>)
    ensures groups.Some? ==> |groups.value| == 7 && forall i | 0 <= i < 7 :: AllDigits(groups.value[i])
  {
    if s == "" || s[0] != 'P' then None
    else
      var (date, rest) := TakeFields(s[1..], DATE);
      if rest == "" then Some(date + ["", "", ""])
      else if rest[0] != 'T' then None
      else
        var (time, left) := TakeFields(rest[1..], TIME);
        if left == "" then Some(date + time) else None
  }

  /** What follows cannot be taken for a number with this designator. */
  predicate NoField(s: string, designator: char) {
    var n := DigitCount(s);
    n == 0 || n == |s| || s[n] != designator
  }

  lemma DigitsCounted(number: string, rest: string)
    requires AllDigits(number) && (rest == "" || !IsDigit(rest[0]))
    ensures DigitCount(number + rest) == |number|
  {
    var s, n := number + rest, DigitCount(number + rest);
    assert forall i | 0 <= i < |number| :: s[i] == number[i];
    assert rest != "" ==> s[|number|] == rest[0];
    assert forall i | 0 <= i < n :: s[..n][i] == s[i];
  }

  /** Fields with other designators are not taken for a field with this one. */
  lemma {:induction false} OtherFields(numbers: seq<string>, designators: string, tail: string, c: char)
    requires |numbers| == |designators| && (forall i | 0 <= i < |numbers| :: AllDigits(numbers[i]))
    requires c !in designators && (forall i | 0 <= i < |designators| :: !IsDigit(designators[i]))
    requires tail == "" || (!IsDigit(tail[0]) && tail[0] != c)
    ensures NoField(Fields(numbers, designators) + tail, c)
  {
    hide Fields, DigitCount;
    if numbers == [] {
      NoFields(designators, tail);
      if tail != "" {
        FirstDigit(tail);
      }
    } else {
      var rest := Fields(numbers[1..], designators[1..]) + tail;
      assert numbers == [numbers[0]] + numbers[1..];
      FieldsFirst(numbers[0], numbers[1..], designators, tail);
      if numbers[0] == "" {
        OtherFields(numbers[1..], designators[1..], tail, c);
        assert "" + rest == rest;
      } else {
        var s := numbers[0] + ([designators[0]] + rest);
        assert Field(numbers[0], designators[0]) + rest == s;
        DigitsCounted(numbers[0], [designators[0]] + rest);
        assert s[|numbers[0]|] == designators[0];
      }
    }
  }

  lemma NoFields(designators: string, tail: string)
    requires designators == ""
    ensures Fields([], designators) + tail == tail
  {
  }

  lemma FirstDigit(s: string)
    requires s != "" && !IsDigit(s[0])
    ensures DigitCount(s) == 0
  {
  }

  lemma TakesField(number: string, c: char, rest: string)
    requires AllDigits(number) && !IsDigit(c) && (number == "" ==> NoField(rest, c))
    ensures TakeField(Field(number, c) + rest, c) == (number, rest)
  {
    if number == "" {
      assert Field(number, c) + rest == rest;
    } else {
      var s := number + ([c] + rest);
      assert Field(number, c) + rest == s;
      DigitsCounted(number, [c] + rest);
      assert s[..|number|] == number && s[|number|] == c && s[|number| + 1..] == rest;
    }
  }

  predicate DistinctLetters(designators: string) {
    && (forall i | 0 <= i < |designators| :: !IsDigit(designators[i]))
    && (forall i, j | 0 <= i < j < |designators| :: designators[i] != designators[j])
  }

  /** Fields are read back as they were written. */
  lemma {:induction false} TakesFields(numbers: seq<string>, designators: string, tail: string)
    requires |numbers| == |designators| && (forall i | 0 <= i < |numbers| :: AllDigits(numbers[i]))
    requires DistinctLetters(designators)
    requires tail == "" || (!IsDigit(tail[0]) && tail[0] !in designators)
    ensures TakeFields(Fields(numbers, designators) + tail, designators) == (numbers, tail)
  {
    if numbers == [] {
      assert Fields(numbers, designators) + tail == tail;
    } else {
      var rest := Fields(numbers[1..], designators[1..]) + tail;
      assert numbers == [numbers[0]] + numbers[1..];
      FieldsFirst(numbers[0], numbers[1..], designators, tail);
      OtherFields(numbers[1..], designators[1..], tail, designators[0]);
      TakesField(numbers[0], designators[0], rest);
      TakesFields(numbers[1..], designators[1..], tail);
    }
  }

  /** What is written according to the grammar matches, with the numbers it was written with as its groups. */
  lemma MatchesWritten(numbers: seq<string>, hasTime: bool)
    requires Numbers(numbers, hasTime)
    ensures Match(Written(numbers, hasTime)) == Some(numbers)
  {
    hide TakeFields, Fields;
    var tail := if hasTime then "T" + Fields(numbers[4..], TIME) else "";
    var s := Written(numbers, hasTime);
    assert s[1..] == Fields(numbers[..4], DATE) + tail;
    TakesFields(numbers[..4], DATE, tail);
    if hasTime {
      assert tail[1..] == Fields(numbers[4..], TIME) + "";
      TakesFields(numbers[4..], TIME, "");
      assert numbers == numbers[..4] + numbers[4..];
    } else {
      assert numbers == numbers[..4] + ["", "", ""];
    }
  }

  /** The pattern matches exactly the grammar. */
  lemma MatchesIffInGrammar(s: string)
    ensures Match(s).Some? <==> InGrammar(s)
  {
    if Match(s).Some? {
      MatchIsWritten(s);
    }
    if numbers, hasTime :| Numbers(numbers, hasTime) && s == Written(numbers, hasTime) {
      MatchesWritten(numbers, hasTime);
    }
  }

  lemma MatchIsWritten(s: string)
    requires Match(s).Some?
    ensures InGrammar(s)
  {
    hide TakeFields, Fields;
    var (date, rest) := TakeFields(s[1..], DATE);
    var numbers := Match(s).value;
    assert numbers[..4] == date;
    if rest == "" {
      assert Numbers(numbers, false) && s == Written(numbers, false);
    } else {
      assert numbers[4..] == TakeFields(rest[1..], TIME).0;
      assert rest == "T" + Fields(numbers[4..], TIME);
      assert s == "P" + Fields(date, DATE) + rest;
      assert Numbers(numbers, true) && s == Written(numbers, true);
    }
  }

  // ---- Parsing ----

  datatype Result = Parsed(duration: Duration) | NoMatch | NumberTooLarge

  function With(d: Duration, i: nat, val: int): Duration
    requires i < 7
  {
    match i
    case 0 => d.(y := val)
    case 1 => d.(m := val)
    case 2 => d.(w := val)
    case 3 => d.(d := val)
    case 4 => d.(th := val)
    case 5 => d.(tm := val)
    case _ => d.(ts := val)
  }

  function Get(d: Duration, i: nat): int
    requires i < 7
  {
    [d.y, d.m, d.w, d.d, d.th, d.tm, d.ts][i]
  }

  lemma WithGet(d: Duration, i: nat, val: int)
    requires i < 7
    ensures forall k | 0 <= k < 7 :: Get(With(d, i, val), k) == if k == i then val else Get(d, k)
  {
  }

  /** What a text is parsed to: nothing when it is not in the grammar, an error when a number is not a machine integer,
      and otherwise the duration with the numbers written in the text. */
  ghost predicate ParsedTo(from: string, r: Result) {
    && (r.NoMatch? <==> !InGrammar(from))
    && (r.NumberTooLarge? <==> Match(from).Some? && exists i :: 0 <= i < 7 && Value(Match(from).value[i]) > MAX_INT)
    && (r.Parsed? ==> Match(from).Some? && forall i | 0 <= i < 7 :: Get(r.duration, i) == Value(Match(from).value[i]))
  }

  method ParseISO8601(from: string) returns (r: Result)
    ensures ParsedTo(from, r)
  {
    hide Match, Value, InGrammar, With, Get;
    ZeroFields();
    MatchesIffInGrammar(from);
    var matched := Match(from);
    if matched.None? {
      return NoMatch;
    }
    var parts := matched.value;
    var d := ZERO;
    for i := 0 to 7
      invariant forall k | 0 <= k < i :: Value(parts[k]) <= MAX_INT && Get(d, k) == Value(parts[k])
      invariant forall k | i <= k < 7 :: Get(d, k) == 0
    {
      if parts[i] == "" {
        NothingIsZero();
        continue;
      }
      var val := Value(parts[i]);
      if val > MAX_INT {
        return NumberTooLarge;
      }
      WithGet(d, i, val);
      d := With(d, i, val);
    }
    return Parsed(d);
  }

  lemma ZeroFields()
    ensures forall k | 0 <= k < 7 :: Get(ZERO, k) == 0
  {
  }

  lemma NothingIsZero()
    ensures Value("") == 0
  {
  }

  /** The designator rendering of a duration, all fields written. */
  function Render(d: Duration): string
    requires forall i | 0 <= i < 7 :: 0 <= Get(d, i)
  {
    Written(seq(7, i requires 0 <= i < 7 => Itoa(Get(d, i))), true)
  }

  /** However a duration with machine integers is written, it is read back: numbers may be left out when zero and
      may have leading zeros. */
  lemma ReadsBack(numbers: seq<string>, hasTime: bool, d: Duration, r: Result)
    requires Numbers(numbers, hasTime) && forall i | 0 <= i < 7 :: Value(numbers[i]) == Get(d, i) <= MAX_INT
    requires ParsedTo(Written(numbers, hasTime), r)
    ensures r == Parsed(d)
  {
    hide Match, Value, Written, Get;
    MatchesWritten(numbers, hasTime);
    MatchesIffInGrammar(Written(numbers, hasTime));
    SameFields(r.duration, d);
  }

  /** A duration whose fields are non-negative machine integers is what its rendering is parsed to. */
  lemma RoundTrip(d: Duration, r: Result)
    requires (forall i | 0 <= i < 7 :: 0 <= Get(d, i) <= MAX_INT) && ParsedTo(Render(d), r)
    ensures r == Parsed(d)
  {
    hide Match, Value, Itoa, Written, Get;
    var numbers := seq(7, i requires 0 <= i < 7 => Itoa(Get(d, i)));
    forall i | 0 <= i < 7
      ensures Value(numbers[i]) == Get(d, i)
    {
      ValueOfItoa(Get(d, i));
    }
    ReadsBack(numbers, true, d, r);
  }

  // ---- Which letter stands for what ----

  /** One number only, at the i-th place. */
  function Only(number: string, i: nat, n: nat): (numbers: seq<string>)
    ensures |numbers| == n && forall k | 0 <= k < n :: numbers[k] == if k == i then number else ""
  {
    seq(n, k requires 0 <= k < n => if k == i then number else "")
  }

  lemma {:induction false} OnlyWritten(numbers: seq<string>, designators: string, number: string, i: nat)
    requires |numbers| == |designators| && number != ""
    requires forall k | 0 <= k < |numbers| :: numbers[k] == if k == i then number else ""
    ensures Fields(numbers, designators) == if i < |designators| then number + [designators[i]] else ""
    decreases |numbers|
  {
    if numbers != [] {
      if i == 0 {
        OnlyWritten(numbers[1..], designators[1..], number, |designators|);
      } else {
        OnlyWritten(numbers[1..], designators[1..], number, i - 1);
      }
    }
  }

  lemma OneNumber(number: string, i: nat, d: Duration, r: Result)
    requires i < 7 && AllDigits(number) && number != "" && Value(number) <= MAX_INT
    requires forall k | 0 <= k < 7 :: Get(d, k) == if k == i then Value(number) else 0
    requires ParsedTo(if i < 4 then "P" + number + [DATE[i]] else "PT" + number + [TIME[i - 4]], r)
    ensures r == Parsed(d)
  {
    hide Get, Value, Fields, Match, InGrammar;
    var numbers := Only(number, i, 7);
    OnlyWritten(numbers[..4], DATE, number, i);
    OnlyWritten(numbers[4..], TIME, number, if i < 4 then 3 else i - 4);
    NothingIsZero();
    OnlyText(numbers, number, i);
    ReadsBack(numbers, i >= 4, d, r);
  }

  lemma OnlyText(numbers: seq<string>, number: string, i: nat)
    requires |numbers| == 7 && i < 7
    requires Fields(numbers[..4], DATE) == if i < 4 then number + [DATE[i]] else ""
    requires Fields(numbers[4..], TIME) == if i < 4 then "" else number + [TIME[i - 4]]
    ensures Written(numbers, i >= 4)
            == if i < 4 then "P" + number + [DATE[i]] else "PT" + number + [TIME[i - 4]]
  {
    hide Fields;
    if i < 4 {
      assert "P" + (number + [DATE[i]]) + "" == "P" + number + [DATE[i]];
    } else {
      assert "P" + "" + ("T" + (number + [TIME[i - 4]])) == "PT" + number + [TIME[i - 4]];
    }
  }

  /** A number of years, months, weeks or days, or after a T of hours, minutes or seconds. */
  lemma LettersMean(number: string, r: Result)
    requires AllDigits(number) && number != "" && Value(number) <= MAX_INT
    ensures var n := Value(number);
            && (ParsedTo("P" + number + "Y", r) ==> r == Parsed(Duration(n, 0, 0, 0, 0, 0, 0)))
            && (ParsedTo("P" + number + "M", r) ==> r == Parsed(Duration(0, n, 0, 0, 0, 0, 0)))
            && (ParsedTo("P" + number + "W", r) ==> r == Parsed(Duration(0, 0, n, 0, 0, 0, 0)))
            && (ParsedTo("P" + number + "D", r) ==> r == Parsed(Duration(0, 0, 0, n, 0, 0, 0)))
            && (ParsedTo("PT" + number + "H", r) ==> r == Parsed(Duration(0, 0, 0, 0, n, 0, 0)))
            && (ParsedTo("PT" + number + "M", r) ==> r == Parsed(Duration(0, 0, 0, 0, 0, n, 0)))
            && (ParsedTo("PT" + number + "S", r) ==> r == Parsed(Duration(0, 0, 0, 0, 0, 0, n)))
  {
    hide ParsedTo, Value;
    LettersOf();
    var n := Value(number);
    var ds := [Duration(n, 0, 0, 0, 0, 0, 0), Duration(0, n, 0, 0, 0, 0, 0), Duration(0, 0, n, 0, 0, 0, 0),
               Duration(0, 0, 0, n, 0, 0, 0), Duration(0, 0, 0, 0, n, 0, 0), Duration(0, 0, 0, 0, 0, n, 0),
               Duration(0, 0, 0, 0, 0, 0, n)];
    var texts := ["P" + number + "Y", "P" + number + "M", "P" + number + "W", "P" + number + "D",
                  "PT" + number + "H", "PT" + number + "M", "PT" + number + "S"];
    forall i | 0 <= i < 7
      ensures ParsedTo(texts[i], r) ==> r == Parsed(ds[i])
    {
      if ParsedTo(texts[i], r) {
        OneNumber(number, i, ds[i], r);
      }
    }
    assert texts[0] == "P" + number + "Y" && texts[1] == "P" + number + "M" && texts[2] == "P" + number + "W";
    assert texts[3] == "P" + number + "D" && texts[4] == "PT" + number + "H" && texts[5] == "PT" + number + "M";
    assert texts[6] == "PT" + number + "S";
  }

  lemma LettersOf()
    ensures [DATE[0]] == "Y" && [DATE[1]] == "M" && [DATE[2]] == "W" && [DATE[3]] == "D"
    ensures [TIME[0]] == "H" && [TIME[1]] == "M" && [TIME[2]] == "S"
  {
  }

  lemma SameFields(a: Duration, b: Duration)
    requires forall i | 0 <= i < 7 :: Get(a, i) == Get(b, i)
    ensures a == b
  {
    assert Get(a, 0) == Get(b, 0) && Get(a, 1) == Get(b, 1) && Get(a, 2) == Get(b, 2) && Get(a, 3) == Get(b, 3);
    assert Get(a, 4) == Get(b, 4) && Get(a, 5) == Get(b, 5) && Get(a, 6) == Get(b, 6);
  }
}
