/** pkg/time_range.go: the text of a time range, its parser, and the durations it yields. */
module TimeRange {
  import opened Arith
  import opened Widths
  import opened Wrappers
  import opened Sums
  import opened Distributor
  import opened WrapFairness

  const SECOND := 1_000_000_000
  const INT64_END := 0x8000_0000_0000_0000

  datatype Item =
    | Single(d: int, weight: int)
    | Span(min: int, max: int, weight: int)

  datatype ParseError = EmptyText | BadNumber

  // ---------------------------------------------------------------- strconv and strings

  predicate IsDigit(c: char) { '0' <= c <= '9' }

  predicate AllDigits(s: string)
  {
    forall i :: 0 <= i < |s| ==> IsDigit(s[i])
  }

  /** The number the first n digits write. */
  function Value(s: string, n: nat): nat
    requires n <= |s| && AllDigits(s)
  {
    if n == 0 then 0 else 10 * Value(s, n - 1) + (s[n - 1] as int - '0' as int)
  }

  /** strconv.ParseInt(s, 10, 64) and strconv.Atoi: an optional sign, then digits, within int64. */
  function ParseInt(s: string): Option<int>
  {
    var signed := s != "" && (s[0] == '-' || s[0] == '+');
    var digits := if signed then s[1..] else s;
    if digits == "" || !AllDigits(digits) then None
    else
      var v := if signed && s[0] == '-' then 0 - Value(digits, |digits|) else Value(digits, |digits|);
      if -INT64_END <= v < INT64_END then Some(v) else None
  }

  /** Decimal: the last digit is the remainder by ten, the digits before it the quotient. */
  lemma DecimalDigits(s: string, n: nat)
    requires n <= |s| && AllDigits(s)
    ensures n == 0 ==> Value(s, n) == 0
    ensures n > 0 ==> Value(s, n) % 10 == s[n - 1] as int - '0' as int && Value(s, n) / 10 == Value(s, n - 1)
  {
    if n > 0 {
      assert IsDigit(s[n - 1]);
    }
  }

  /** The text is the number in decimal, with or without a sign. */
  predicate IsNumeral(s: string, v: int)
  {
    || (s != "" && AllDigits(s) && v == Value(s, |s|))
    || (|s| > 1 && s[0] == '+' && AllDigits(s[1..]) && v == Value(s[1..], |s| - 1))
    || (|s| > 1 && s[0] == '-' && AllDigits(s[1..]) && v == 0 - Value(s[1..], |s| - 1))
  }

  /** Exactly the numerals within int64 are accepted, as the numbers they write. */
  lemma ParseIntIff(s: string, v: int)
    ensures ParseInt(s) == Some(v) <==> IsNumeral(s, v) && -0x8000_0000_0000_0000 <= v < 0x8000_0000_0000_0000
  {
    if s != "" && AllDigits(s) {
      assert IsDigit(s[0]);
    }
  }

  /** strings.IndexByte */
  function IndexByte(s: string, c: char): (i: int)
    ensures -1 <= i < |s|
    ensures i >= 0 ==> s[i] == c && forall j :: 0 <= j < i ==> s[j] != c
    ensures i == -1 ==> c !in s
  {
    if s == "" then -1
    else if s[0] == c then 0
    else
      var i := IndexByte(s[1..], c);
      if i == -1 then -1 else i + 1
  }

  /** strings.Split with a one-byte separator */
  function Split(s: string, sep: char): (parts: seq<string>)
    ensures |parts| >= 1
  {
    var i := IndexByte(s, sep);
    if i == -1 then [s] else [s[..i]] + Split(s[i + 1..], sep)
  }

  // ---------------------------------------------------------------- the parser

  /** time.Duration(d) * time.Second in int64 */
  function Seconds(d: int): int
  {
    (d * SECOND + INT64_END) % (2 * INT64_END) - INT64_END
  }

  /** The product in nanoseconds, wrapped to int64. */
  lemma SecondsWrap(d: int)
    ensures -0x8000_0000_0000_0000 <= Seconds(d) < 0x8000_0000_0000_0000
    ensures (Seconds(d) - d * 1_000_000_000) % 0x1_0000_0000_0000_0000 == 0
  {
    var x, m := d * SECOND + INT64_END, 2 * INT64_END;
    assert x == m * (x / m) + x % m;
    assert Seconds(d) - d * 1_000_000_000 == m * (0 - x / m);
    ModAddMultiple(0, m, 0 - x / m);
  }

  function ParseTimes(raw: string, weight: int): Result<Item, ParseError>
  {
    var i := IndexByte(raw, '-');
    if i == -1 then
      match ParseInt(raw)
      case None => Err(BadNumber)
      case Some(d) => Ok(Single(Seconds(d), weight))
    else
      match (ParseInt(raw[..i]), ParseInt(raw[i + 1..]))
      case (Some(minD), Some(maxD)) => Ok(Span(Seconds(minD), Seconds(maxD), weight))
      case _ => Err(BadNumber)
  }

  /** newWeightedTimeRange; no weight reads as 0. */
  function ParseItem(raw: string): Result<Item, ParseError>
  {
    var i := IndexByte(raw, '=');
    if i == -1 then ParseTimes(raw, 0)
    else
      match ParseInt(raw[i + 1..])
      case None => Err(BadNumber)
      case Some(weight) => ParseTimes(raw[..i], weight)
  }

  type Parser = string -> Result<Item, ParseError>

  /** The items of the first n texts, or the first error. */
  function ParseItems(parse: Parser, texts: seq<string>, n: nat): (r: Result<seq<Item>, ParseError>)
    requires n <= |texts|
    ensures r.Ok? ==> |r.value| == n
  {
    if n == 0 then Ok([])
    else
      match ParseItems(parse, texts, n - 1)
      case Err(e) => Err(e)
      case Ok(items) =>
        match parse(texts[n - 1])
        case Err(e) => Err(e)
        case Ok(item) => Ok(items + [item])
  }

  // ---------------------------------------------------------------- the documented grammar

  /** 5 or 5-10, with or without =1, as strings of digits. */
  datatype Spec =
    | Fixed(d: string, weight: Option<string>)
    | Between(min: string, max: string, weight: Option<string>)

  /** Digits whose value is below the bound. */
  predicate IsNumber(s: string, bound: nat)
  {
    s != "" && AllDigits(s) && Value(s, |s|) < bound
  }

  /** Whole seconds that fit a duration. */
  predicate IsTime(s: string)
  {
    IsNumber(s, INT64_END / SECOND + 1)
  }

  predicate WellFormed(spec: Spec)
  {
    && (spec.weight.Some? ==> IsNumber(spec.weight.value, INT64_END))
    && match spec
       case Fixed(d, _) => IsTime(d)
       case Between(min, max, _) => IsTime(min) && IsTime(max)
  }

  function TimesText(spec: Spec): string
  {
    match spec
    case Fixed(d, _) => d
    case Between(min, max, _) => min + "-" + max
  }

  function Text(spec: Spec): string
  {
    if spec.weight.None? then TimesText(spec) else TimesText(spec) + "=" + spec.weight.value
  }

  /** The texts of the first n specs. */
  function Texts(specs: seq<Spec>, n: nat): (texts: seq<string>)
    requires n <= |specs|
    ensures |texts| == n && forall i :: 0 <= i < n ==> texts[i] == Text(specs[i])
  {
    if n == 0 then [] else Texts(specs, n - 1) + [Text(specs[n - 1])]
  }

  /** The first n texts with a separator between them. */
  function Joined(texts: seq<string>, sep: char, n: nat): string
    requires 1 <= n <= |texts|
  {
    if n == 1 then texts[0] else Joined(texts, sep, n - 1) + [sep] + texts[n - 1]
  }

  /** A list of the grammar. */
  function ListText(specs: seq<Spec>): string
    requires specs != []
  {
    Joined(Texts(specs, |specs|), ',', |specs|)
  }

  /** The range a text denotes. */
  function Denotes(spec: Spec): Item
    requires WellFormed(spec)
  {
    var weight := if spec.weight.None? then 0 else Value(spec.weight.value, |spec.weight.value|);
    match spec
    case Fixed(d, _) => Single(SECOND * Value(d, |d|), weight)
    case Between(min, max, _) => Span(SECOND * Value(min, |min|), SECOND * Value(max, |max|), weight)
  }

  lemma NumbersParse(s: string, bound: nat)
    requires IsNumber(s, bound) && bound <= INT64_END
    ensures ParseInt(s) == Some(Value(s, |s|))
  {
    assert IsDigit(s[0]);
  }

  lemma TimesParseToSeconds(s: string)
    requires IsTime(s)
    ensures ParseInt(s) == Some(Value(s, |s|)) && Seconds(Value(s, |s|)) == SECOND * Value(s, |s|)
  {
    NumbersParse(s, INT64_END / SECOND + 1);
  }

  /** The first occurrence of a byte that the left part does not contain. */
  lemma IndexOfJoined(left: string, c: char, right: string)
    requires c !in left
    ensures IndexByte(left + [c] + right, c) == |left|
  {
    var s := left + [c] + right;
    assert s[|left|] == c;
    assert forall j :: 0 <= j < |left| ==> s[j] == left[j];
  }

  /** Cutting at the first occurrence gives the two parts back. */
  lemma CutAtJoint(left: string, c: char, right: string)
    requires c !in left
    ensures var s := left + [c] + right;
            IndexByte(s, c) == |left| && s[..|left|] == left && s[|left| + 1..] == right
  {
    IndexOfJoined(left, c, right);
  }

  /** The text of a span, seen through the parser of its numbers. */
  lemma SpanText(min: string, max: string, weight: int, a: Option<int>, b: Option<int>)
    requires '-' !in min && a == ParseInt(min) && b == ParseInt(max)
    ensures ParseTimes(min + "-" + max, weight)
         == if a.Some? && b.Some? then Ok(Span(Seconds(a.value), Seconds(b.value), weight)) else Err(BadNumber)
  {
    CutAtJoint(min, '-', max);
  }

  /** The text of an item with a weight, likewise. */
  lemma WeightedText(times: string, w: string, weight: Option<int>)
    requires '=' !in times && weight == ParseInt(w)
    ensures ParseItem(times + "=" + w)
         == if weight.Some? then ParseTimes(times, weight.value) else Err(BadNumber)
  {
    CutAtJoint(times, '=', w);
  }

  lemma DigitsAvoid(s: string, c: char)
    requires AllDigits(s) && !IsDigit(c)
    ensures c !in s
  {
  }

  lemma FixedParses(d: string, weight: int)
    requires IsTime(d)
    ensures ParseTimes(d, weight) == Ok(Single(SECOND * Value(d, |d|), weight))
  {
    TimesParseToSeconds(d);
    DigitsAvoid(d, '-');
  }

  lemma BetweenParses(min: string, max: string, weight: int)
    requires IsTime(min) && IsTime(max)
    ensures ParseTimes(min + "-" + max, weight)
         == Ok(Span(SECOND * Value(min, |min|), SECOND * Value(max, |max|), weight))
  {
    TimesParseToSeconds(min);
    TimesParseToSeconds(max);
    DigitsAvoid(min, '-');
    SpanText(min, max, weight, Some(Value(min, |min|)), Some(Value(max, |max|)));
  }

  lemma TimesAvoid(spec: Spec, c: char)
    requires WellFormed(spec) && !IsDigit(c) && c != '-'
    ensures c !in TimesText(spec)
  {
    match spec
    case Fixed(d, _) => DigitsAvoid(d, c);
    case Between(min, max, _) =>
      DigitsAvoid(min, c);
      DigitsAvoid(max, c);
  }

  lemma TimesParse(spec: Spec, weight: int)
    requires WellFormed(spec)
    ensures ParseTimes(TimesText(spec), weight) == Ok(Denotes(spec).(weight := weight))
  {
    match spec
    case Fixed(d, _) => FixedParses(d, weight);
    case Between(min, max, _) => BetweenParses(min, max, weight);
  }

  lemma WeightSplitsOff(times: string, w: string)
    requires '=' !in times && IsNumber(w, INT64_END)
    ensures ParseItem(times + "=" + w) == ParseTimes(times, Value(w, |w|))
  {
    NumbersParse(w, INT64_END);
    WeightedText(times, w, Some(Value(w, |w|)));
  }

  /** Every text of the grammar parses to what it denotes. */
  lemma ItemParses(spec: Spec)
    requires WellFormed(spec)
    ensures ParseItem(Text(spec)) == Ok(Denotes(spec))
  {
    TimesParse(spec, Denotes(spec).weight);
    TimesAvoid(spec, '=');
    if spec.weight.Some? {
      WeightSplitsOff(TimesText(spec), spec.weight.value);
    }
  }

  lemma TextAvoidsComma(spec: Spec)
    requires WellFormed(spec)
    ensures ',' !in Text(spec) && Text(spec) != ""
  {
    TimesAvoid(spec, ',');
    if spec.weight.Some? {
      DigitsAvoid(spec.weight.value, ',');
    }
  }

  // ---------------------------------------------------------------- lists

  /** Splitting takes the part before the first separator off. */
  lemma SplitFirst(left: string, sep: char, rest: string)
    requires sep !in left
    ensures Split(left + [sep] + rest, sep) == [left] + Split(rest, sep)
  {
    var whole := left + [sep] + rest;
    IndexOfJoined(left, sep, rest);
    assert whole[..|left|] == left && whole[|left| + 1..] == rest;
  }

  /** Splitting at a separator that the last part does not contain. */
  lemma {:induction false} SplitAppend(s: string, sep: char, last: string)
    requires sep !in last
    ensures Split(s + [sep] + last, sep) == Split(s, sep) + [last]
    decreases |s|
  {
    var i := IndexByte(s, sep);
    if i == -1 {
      SplitFirst(s, sep, last);
      SplitWhole(last, sep);
    } else {
      var left, rest := s[..i], s[i + 1..];
      assert s == left + [sep] + rest;
      assert s + [sep] + last == left + [sep] + (rest + [sep] + last);
      SplitFirst(left, sep, rest);
      SplitFirst(left, sep, rest + [sep] + last);
      SplitAppend(rest, sep, last);
    }
  }

  lemma SplitWhole(s: string, sep: char)
    requires sep !in s
    ensures Split(s, sep) == [s]
  {
  }

  lemma SplitOneMore(s: string, sep: char, parts: seq<string>, n: nat)
    requires n < |parts| && Split(s, sep) == parts[..n] && sep !in parts[n]
    ensures Split(s + [sep] + parts[n], sep) == parts[..n + 1]
  {
    SplitAppend(s, sep, parts[n]);
  }

  /** Splitting undoes joining, for parts that are free of the separator. */
  lemma SplitJoined(parts: seq<string>, sep: char)
    requires parts != [] && forall i :: 0 <= i < |parts| ==> sep !in parts[i]
    ensures Split(Joined(parts, sep, |parts|), sep) == parts
  {
    SplitWhole(parts[0], sep);
    var n := 1;
    while n < |parts|
      invariant 1 <= n <= |parts| && Split(Joined(parts, sep, n), sep) == parts[..n]
    {
      SplitOneMore(Joined(parts, sep, n), sep, parts, n);
      n := n + 1;
    }
  }

  lemma {:induction false} JoinedIsNotEmpty(texts: seq<string>, sep: char, n: nat)
    requires 1 <= n <= |texts| && texts[0] != ""
    ensures Joined(texts, sep, n) != ""
  {
    if n > 1 {
      JoinedIsNotEmpty(texts, sep, n - 1);
    }
  }

  /** The items the first n specs denote. */
  function AllDenoted(specs: seq<Spec>, n: nat): (items: seq<Item>)
    requires n <= |specs| && forall i :: 0 <= i < n ==> WellFormed(specs[i])
    ensures |items| == n && forall i :: 0 <= i < n ==> items[i] == Denotes(specs[i])
  {
    if n == 0 then [] else AllDenoted(specs, n - 1) + [Denotes(specs[n - 1])]
  }

  /** Items that parse one by one parse as a list. */
  lemma {:induction false} ItemsParse(parse: Parser, texts: seq<string>, items: seq<Item>, n: nat)
    requires n <= |texts| && |items| == |texts|
    requires forall i :: 0 <= i < |texts| ==> parse(texts[i]) == Ok(items[i])
    ensures ParseItems(parse, texts, n) == Ok(items[..n])
  {
    if n > 0 {
      ItemsParse(parse, texts, items, n - 1);
      assert items[..n] == items[..n - 1] + [items[n - 1]];
    }
  }

  /** Every list of the grammar splits and parses to what it denotes. */
  lemma ListParses(specs: seq<Spec>)
    requires specs != [] && forall i :: 0 <= i < |specs| ==> WellFormed(specs[i])
    ensures var raw := ListText(specs); var texts := Split(raw, ',');
            raw != "" && ParseItems(ParseItem, texts, |texts|) == Ok(AllDenoted(specs, |specs|))
  {
    var n := |specs|;
    var texts, items := Texts(specs, n), AllDenoted(specs, n);
    forall i | 0 <= i < n ensures ',' !in texts[i] && texts[i] != "" && ParseItem(texts[i]) == Ok(items[i]) {
      TextAvoidsComma(specs[i]);
      ItemParses(specs[i]);
    }
    SplitJoined(texts, ',');
    JoinedIsNotEmpty(texts, ',', n);
    assert items[..n] == items;
    ItemsParse(ParseItem, texts, items, n);
  }

  lemma OneDigitParses(sign: char, c: char)
    requires IsDigit(c) && (sign == '+' || sign == '-')
    ensures ParseInt([sign, c]) == Some(if sign == '-' then '0' as int - c as int else c as int - '0' as int)
  {
    assert [sign, c][1..] == [c];
    assert Value([c], 0) == 0;
  }

  /** More than the grammar is accepted: signs, and with them negative weights. */
  lemma SignsAreAccepted()
    ensures ParseItem("+5" + "=" + "-1") == Ok(Single(5 * SECOND, -1))
  {
    var s := "+5" + "=" + "-1";
    IndexOfJoined("+5", '=', "-1");
    assert s[..2] == "+5" && s[3..] == "-1";
    OneDigitParses('+', '5');
    OneDigitParses('-', '1');
    assert "+5" == ['+', '5'] && "-1" == ['-', '1'];
    assert IndexByte("+5", '-') == -1;
  }

  // ---------------------------------------------------------------- exactly what is accepted

  /** The grammar with a sign allowed before each number, except a minus before the first. */
  predicate SignedForm(spec: Spec)
  {
    && (spec.weight.Some? ==> ParseInt(spec.weight.value).Some?)
    && match spec
       case Fixed(d, _) => ParseInt(d).Some? && '-' !in d
       case Between(min, max, _) => ParseInt(min).Some? && '-' !in min && ParseInt(max).Some?
  }

  lemma NumeralsAvoid(s: string, c: char)
    requires ParseInt(s).Some? && !IsDigit(c) && c != '-' && c != '+'
    ensures c !in s
  {
    if s[0] == '-' || s[0] == '+' {
      assert s == [s[0]] + s[1..];
      DigitsAvoid(s[1..], c);
    } else {
      DigitsAvoid(s, c);
    }
  }

  lemma SignedTimesParse(spec: Spec, weight: int)
    requires SignedForm(spec)
    ensures ParseTimes(TimesText(spec), weight).Ok? && '=' !in TimesText(spec)
  {
    match spec
    case Fixed(d, _) => NumeralsAvoid(d, '=');
    case Between(min, max, _) =>
      NumeralsAvoid(min, '=');
      NumeralsAvoid(max, '=');
      SpanText(min, max, weight, ParseInt(min), ParseInt(max));
  }

  lemma SignedFormsParse(spec: Spec)
    requires SignedForm(spec)
    ensures ParseItem(Text(spec)).Ok?
  {
    if spec.weight.None? {
      SignedTimesParse(spec, 0);
    } else {
      var times, w := TimesText(spec), spec.weight.value;
      SignedTimesParse(spec, ParseInt(w).value);
      WeightedText(times, w, ParseInt(w));
    }
  }

  lemma Rejoin(s: string, i: nat)
    requires i < |s|
    ensures s[..i] + [s[i]] + s[i + 1..] == s
  {
  }

  lemma AcceptedTimesHaveForm(raw: string, weight: int, w: Option<string>) returns (spec: Spec)
    requires ParseTimes(raw, weight).Ok? && (w.Some? ==> ParseInt(w.value).Some?)
    ensures SignedForm(spec) && TimesText(spec) == raw && spec.weight == w
  {
    var i := IndexByte(raw, '-');
    if i == -1 {
      spec := Fixed(raw, w);
    } else {
      spec := Between(raw[..i], raw[i + 1..], w);
      Rejoin(raw, i);
    }
  }

  lemma AcceptedItemsHaveForm(raw: string) returns (spec: Spec)
    requires ParseItem(raw).Ok?
    ensures SignedForm(spec) && Text(spec) == raw
  {
    var i := IndexByte(raw, '=');
    if i == -1 {
      spec := AcceptedTimesHaveForm(raw, 0, None);
    } else {
      var w := raw[i + 1..];
      spec := AcceptedTimesHaveForm(raw[..i], ParseInt(w).value, Some(w));
      Rejoin(raw, i);
    }
  }

  /** newWeightedTimeRange accepts exactly the texts of the grammar with signs. */
  lemma AcceptsIff(raw: string)
    ensures ParseItem(raw).Ok? <==> exists spec :: SignedForm(spec) && Text(spec) == raw
  {
    if ParseItem(raw).Ok? {
      var spec := AcceptedItemsHaveForm(raw);
      assert SignedForm(spec) && Text(spec) == raw;
    } else if spec :| SignedForm(spec) && Text(spec) == raw {
      SignedFormsParse(spec);
    }
  }

  // ---------------------------------------------------------------- the ranges in use

  /** Weight 0, which also stands for no weight, counts as 1. */
  function Weight(item: Item): int { if item.weight == 0 then 1 else item.weight }

  function Weights(items: seq<Item>): (w: seq<int>)
    ensures |w| == |items| && forall i :: 0 <= i < |w| ==> w[i] == Weight(items[i])
  {
    if items == [] then [] else Weights(items[..|items| - 1]) + [Weight(items[|items| - 1])]
  }

  /** rand.Int64N: any value from 0 below its argument. */
  ghost predicate IsRandom(rand: int -> int)
  {
    forall n :: n > 0 ==> 0 <= rand(n) < n
  }

  /** The width of the range fits an int64. */
  predicate Fits(item: Item)
  {
    item.Span? ==> item.max - item.min < INT64_END
  }

  /** Get of a single range. Int64N panics when the width overflows. */
  function Draw(item: Item, rand: int -> int): int
    requires Fits(item)
  {
    match item
    case Single(d, _) => d
    case Span(min, max, _) => if min >= max then min else rand(max - min) + min
  }

  ghost predicate Within(item: Item, d: int)
  {
    match item
    case Single(e, _) => d == e
    case Span(min, max, _) => if min >= max then d == min else min <= d < max
  }

  lemma DrawIsWithin(item: Item, rand: int -> int)
    requires IsRandom(rand) && Fits(item)
    ensures Within(item, Draw(item, rand))
  {
  }

  /** And any time of the range can be the one drawn. */
  lemma DrawCovers(item: Item, d: int) returns (rand: int -> int)
    requires Fits(item) && Within(item, d)
    ensures IsRandom(rand) && Draw(item, rand) == d
  {
    var width, place := if item.Span? then item.max - item.min else 0, if item.Span? then d - item.min else 0;
    rand := n => if n == width then place else 0;
  }

  lemma DenotedFits(spec: Spec)
    requires WellFormed(spec)
    ensures Fits(Denotes(spec))
  {
  }

  datatype TimeRangeError = Parse(e: ParseError) | NegativeTotal

  datatype TimeRange = One(item: Item) | Many(wrr: WeightedRoundRobin<Item>)

  lemma {:induction false} ErrorStays(parse: Parser, texts: seq<string>, m: nat, n: nat)
    requires m <= n <= |texts| && ParseItems(parse, texts, m).Err?
    ensures ParseItems(parse, texts, n) == ParseItems(parse, texts, m)
  {
    if m < n {
      ErrorStays(parse, texts, m, n - 1);
    }
  }

  /** The first loop of NewTimeRange. */
  method ParseAll(parse: Parser, ss: seq<string>) returns (r: Result<seq<Item>, ParseError>)
    ensures r == ParseItems(parse, ss, |ss|)
  {
    var trs: seq<Item> := [];
    var i := 0;
    while i < |ss|
      invariant 0 <= i <= |ss| && ParseItems(parse, ss, i) == Ok(trs)
    {
      var item := parse(ss[i]);
      if item.Err? {
        ErrorStays(parse, ss, i + 1, |ss|);
        return Err(item.error);
      }
      trs := trs + [item.value];
      i := i + 1;
    }
    return Ok(trs);
  }

  /** The second loop of NewTimeRange and the scheduler it starts. */
  method Schedule(trs: seq<Item>) returns (r: Result<TimeRange, TimeRangeError>)
    requires trs != []
    ensures if Sum(Weights(trs)) < 0 then r == Err(NegativeTotal)
            else r.Ok? && r.value.Many? && var wrr := r.value.wrr;
              wrr.Valid() && fresh(wrr.rr) && wrr.rr.next == 0 && wrr.w == Weights(trs) && wrr.names == trs
  {
    var rs := new WeightedResource<Item>[|trs|](_ => WeightedResource(trs[0], 0, 0));
    var total := 0;
    var i := 0;
    while i < |trs|
      invariant 0 <= i <= |trs|
      invariant forall k :: 0 <= k < i ==> rs[k] == WeightedResource(trs[k], Weight(trs[k]), 0)
      invariant total == SumTo(Weights(trs), i)
    {
      var weight := trs[i].weight;
      if weight == 0 {
        weight := 1;
      }
      rs[i] := WeightedResource(trs[i], weight, 0);
      total := total + weight;
      i := i + 1;
    }
    if total < 0 {
      return Err(NegativeTotal);
    }
    var wrr := new WeightedRoundRobin(rs, Weights(trs), trs);
    return Ok(Many(wrr));
  }

  /** Errors for the empty string and for the first item that does not parse; a negative total weight panics
      when the schedule is allocated. */
  method NewTimeRange(raw: string) returns (r: Result<TimeRange, TimeRangeError>)
    ensures raw == "" ==> r == Err(Parse(EmptyText))
    ensures raw != "" ==>
      var texts := Split(raw, ',');
      match ParseItems(ParseItem, texts, |texts|)
      case Err(e) => r == Err(Parse(e))
      case Ok(items) =>
        if |items| == 1 then r == Ok(One(items[0]))
        else if Sum(Weights(items)) < 0 then r == Err(NegativeTotal)
        else r.Ok? && r.value.Many? && var wrr := r.value.wrr;
          wrr.Valid() && fresh(wrr.rr) && wrr.rr.next == 0 && wrr.w == Weights(items) && wrr.names == items
  {
    if raw == "" {
      return Err(Parse(EmptyText));
    }
    var ss := Split(raw, ',');
    var parsed := ParseAll(ParseItem, ss);
    if parsed.Err? {
      return Err(Parse(parsed.error));
    }
    var trs := parsed.value;
    if |trs| == 1 {
      return Ok(One(trs[0]));
    }
    r := Schedule(trs);
  }

  lemma ServedNow(w: seq<int>, m: nat, next: nat)
    requires w != [] && 0 < Sum(w) && Uint32(Sum(w)) > 0 && next == m % TWO_TO_THE_32
    ensures ServedStream(w)(m) == Pick(w, next % Uint32(Sum(w)))
  {
  }

  /** Get of several ranges, the m-th call since the start (m from 1): a duration within the range the schedule
      serves at that call. */
  method GetMany(wrr: WeightedRoundRobin<Item>, rand: int -> int, ghost m: nat) returns (d: int)
    requires wrr.Valid() && wrr.w != [] && 0 < Sum(wrr.w) && Uint32(Sum(wrr.w)) > 0 && IsRandom(rand)
    requires forall i :: 0 <= i < |wrr.names| ==> Fits(wrr.names[i])
    requires m > 0 && wrr.rr.next == (m - 1) % TWO_TO_THE_32
    modifies wrr.rr
    ensures wrr.Valid() && wrr.rr.next == m % TWO_TO_THE_32
    ensures Within(wrr.names[ServedStream(wrr.w)(m)], d)
  {
    var item := wrr.Next();
    ServedNow(wrr.w, m, wrr.rr.next);
    d := Draw(item, rand);
    DrawIsWithin(item, rand);
  }

  lemma WeightsNonNegativeIff(items: seq<Item>, w: seq<int>)
    requires items != [] && w == Weights(items)
    ensures NonNegative(w) <==> forall k :: 0 <= k < |items| ==> items[k].weight >= 0
    ensures NonNegative(w) ==> 0 < w[0]
  {
    if NonNegative(w) {
      forall k | 0 <= k < |items| ensures items[k].weight >= 0 {
        assert w[k] == Weight(items[k]);
      }
    }
  }

  /** The schedule of several ranges is exact if and only if no weight is negative; 0 is no obstacle, being
      read as 1. */
  lemma ScheduleIsExactIff(items: seq<Item>)
    requires items != [] && 0 <= Sum(Weights(items))
    ensures TableIsExact(Weights(items)) <==> forall k :: 0 <= k < |items| ==> items[k].weight >= 0
  {
    ExactIffFirstIsPositive(Weights(items));
    WeightsNonNegativeIff(items, Weights(items));
  }

  /** If no weight is negative, any total-weight consecutive Gets before the counter wraps, or ever if the
      weights fit the wrap, use each range exactly its weight times. */
  lemma GetsAreFair(items: seq<Item>, first: nat, i: nat)
    requires items != [] && i < |items| && forall k :: 0 <= k < |items| ==> items[k].weight >= 0
    requires Sum(Weights(items)) < TWO_TO_THE_32
    requires first + Sum(Weights(items)) <= TWO_TO_THE_32 || FitsWrap(Weights(items))
    ensures 0 < Sum(Weights(items)) && Uint32(Sum(Weights(items))) > 0
    ensures Count(Window(ServedStream(Weights(items)), first, Sum(Weights(items))), i)
         == if items[i].weight == 0 then 1 else items[i].weight
  {
    FittingIsFair(Weights(items), first, i);
  }

  /** So every list of the grammar is served fairly. */
  lemma GrammarListIsFair(specs: seq<Spec>, first: nat, i: nat)
    requires i < |specs| && forall k :: 0 <= k < |specs| ==> WellFormed(specs[k])
    requires var w := Weights(AllDenoted(specs, |specs|));
             Sum(w) < TWO_TO_THE_32 && (first + Sum(w) <= TWO_TO_THE_32 || FitsWrap(w))
    ensures var w := Weights(AllDenoted(specs, |specs|));
            0 < Sum(w) && Uint32(Sum(w)) > 0
            && Count(Window(ServedStream(w), first, Sum(w)), i)
               == if Denotes(specs[i]).weight == 0 then 1 else Denotes(specs[i]).weight
  {
    GetsAreFair(AllDenoted(specs, |specs|), first, i);
  }
}
