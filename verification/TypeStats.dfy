/** Column type inference: the counters of src/schema.h, how pass 1 fills them, and select_type. */
module TypeStats {
  import opened Decimal
  import opened JsonTree

  datatype ColumnType = BigInt | Boolean | Id | Numeric | TimestampTz | Varchar

  datatype TypeCounts = TypeCounts(
    strings: nat, dateTimes: nat, numbers: nat, integers: nat, floating: nat,
    booleans: nat, nulls: nat, uuids: nat, maxLength: nat)

  const NoCounts := TypeCounts(0, 0, 0, 0, 0, 0, 0, 0, 0)

  type Statistics = map<string, TypeCounts>

  /** One scalar seen in a field while pass 1 visits a record. */
  datatype Observation = Observation(field: string, value: Json)

  predicate IsHex(c: char) {
    IsDigit(c) || 'A' <= c <= 'F' || 'a' <= c <= 'f'
  }

  predicate IsUuid(s: string) {
    |s| == 36 &&
    forall x :: 0 <= x < 36 ==>
      if x == 8 || x == 13 || x == 18 || x == 23 then s[x] == '-' else IsHex(s[x])
  }

  /** is_uuid, character by character. */
  method TestUuid(s: string) returns (result: bool)
    ensures result <==> IsUuid(s)
  {
    if |s| != 36 {
      return false;
    }
    var x := 0;
    while x < 36
      invariant x <= 36
      invariant forall k :: 0 <= k < x ==> if k in {8, 13, 18, 23} then s[k] == '-' else IsHex(s[k])
    {
      var c := s[x];
      if x == 8 || x == 13 || x == 18 || x == 23 {
        if c != '-' {
          return false;
        }
      } else {
        if c !in "0123456789ABCDEFabcdef" {
          return false;
        }
      }
      x := x + 1;
    }
    return true;
  }

  const DateTimeShape := "dddd-dd-ddTdd:dd:dd"

  /** A prefix of the form 2021-01-31T12:00:00, with T or a space in the middle. */
  predicate LooksLikeDateTime(s: string) {
    |s| >= |DateTimeShape| &&
    forall x :: 0 <= x < |DateTimeShape| ==>
      match DateTimeShape[x]
      case 'd' => IsDigit(s[x])
      case 'T' => s[x] == 'T' || s[x] == ' '
      case c => s[x] == c
  }

  predicate Digits(s: string, n: nat) {
    |s| == n && AllDigits(s)
  }

  /** The date and the time, between them T or a space, and anything after them. */
  lemma DateTimeIsPrefix(s: string, year: string, month: string, day: string, t: char, hour: string, minute: string,
                         second: string, rest: string)
    requires Digits(year, 4) && Digits(month, 2) && Digits(day, 2) && (t == 'T' || t == ' ')
    requires Digits(hour, 2) && Digits(minute, 2) && Digits(second, 2)
    requires s == year + "-" + month + "-" + day + [t] + hour + ":" + minute + ":" + second + rest
    ensures LooksLikeDateTime(s)
  {
  }

  lemma DateTimeHasParts(s: string)
    requires LooksLikeDateTime(s)
    ensures Digits(s[..4], 4) && Digits(s[5..7], 2) && Digits(s[8..10], 2) && (s[10] == 'T' || s[10] == ' ')
    ensures Digits(s[11..13], 2) && Digits(s[14..16], 2) && Digits(s[17..19], 2)
    ensures s == s[..4] + "-" + s[5..7] + "-" + s[8..10] + [s[10]] + s[11..13] + ":" + s[14..16] + ":" + s[17..19] + s[19..]
  {
  }

  function Counted(c: TypeCounts, v: Json): TypeCounts {
    match v
    case Null => c.(nulls := c.nulls + 1)
    case Bool(_) => c.(booleans := c.booleans + 1)
    case Int(_) => c.(numbers := c.numbers + 1, integers := c.integers + 1)
    case Dec(_) => c.(numbers := c.numbers + 1, floating := c.floating + 1)
    case Str(s) =>
      c.(strings := c.strings + 1,
         uuids := if IsUuid(s) then c.uuids + 1 else c.uuids,
         dateTimes := if LooksLikeDateTime(s) then c.dateTimes + 1 else c.dateTimes,
         maxLength := if |s| > c.maxLength then |s| else c.maxLength)
    case _ => c
  }

  function CountsAt(stats: Statistics, field: string): TypeCounts {
    if field in stats then stats[field] else NoCounts
  }

  function Noted(stats: Statistics, o: Observation): Statistics {
    stats[o.field := Counted(CountsAt(stats, o.field), o.value)]
  }

  function Tally(stats: Statistics, obs: seq<Observation>): Statistics
    decreases |obs|
  {
    if obs == [] then stats else Tally(Noted(stats, obs[0]), obs[1..])
  }

  lemma {:induction false} TallyAppend(stats: Statistics, a: seq<Observation>, b: seq<Observation>)
    ensures Tally(stats, a + b) == Tally(Tally(stats, a), b)
    decreases |a|
  {
    if a == [] {
      assert a + b == b;
    } else {
      assert (a + b)[0] == a[0] && (a + b)[1..] == a[1..] + b;
      TallyAppend(Noted(stats, a[0]), a[1..], b);
    }
  }

  lemma NotedOnce(stats: Statistics, field: string, v: Json)
    ensures Tally(stats, [Observation(field, v)]) == stats[field := Counted(CountsAt(stats, field), v)]
    ensures CountAll(CountsAt(stats, field), [v]) == Counted(CountsAt(stats, field), v)
  {
    assert [Observation(field, v)][1..] == [] && [v][1..] == [];
  }

  // ---- Order independence ---------------------------------------------------------------------

  lemma CountedCommutes(c: TypeCounts, v: Json, w: Json)
    ensures Counted(Counted(c, v), w) == Counted(Counted(c, w), v)
  {
  }

  lemma NotedCommutes(stats: Statistics, o: Observation, p: Observation)
    ensures Noted(Noted(stats, o), p) == Noted(Noted(stats, p), o)
  {
    var a, b := Noted(Noted(stats, o), p), Noted(Noted(stats, p), o);
    if o.field == p.field {
      CountedCommutes(CountsAt(stats, o.field), o.value, p.value);
      assert a == stats[o.field := Counted(Counted(CountsAt(stats, o.field), o.value), p.value)];
      assert b == stats[o.field := Counted(Counted(CountsAt(stats, o.field), p.value), o.value)];
    } else {
      assert CountsAt(Noted(stats, o), p.field) == CountsAt(stats, p.field);
      assert CountsAt(Noted(stats, p), o.field) == CountsAt(stats, o.field);
    }
  }

  lemma {:induction false} TallyFrontFirst(stats: Statistics, before: seq<Observation>, o: Observation, after: seq<Observation>)
    ensures Tally(stats, before + [o] + after) == Tally(stats, [o] + (before + after))
    decreases |before|
  {
    assert ([o] + (before + after))[1..] == before + after;
    if before == [] {
      assert before + [o] + after == [o] + (before + after);
    } else {
      var rest := before[1..];
      assert (before + [o] + after)[1..] == rest + [o] + after;
      TallyFrontFirst(Noted(stats, before[0]), rest, o, after);
      assert ([o] + (rest + after))[1..] == rest + after;
      NotedCommutes(stats, o, before[0]);
      assert (before + after)[1..] == rest + after;
    }
  }

  lemma TakeOut<T>(o: T, b: seq<T>) returns (before: seq<T>, after: seq<T>)
    requires o in multiset(b)
    ensures b == before + [o] + after
    ensures multiset(before + after) == multiset(b) - multiset{o}
  {
    var j :| 0 <= j < |b| && b[j] == o;
    before, after := b[..j], b[j + 1..];
    assert b == before + [o] + after;
  }

  /** Neither record order nor page boundaries change the statistics. */
  lemma {:induction false} TallyOrderIndependent(stats: Statistics, a: seq<Observation>, b: seq<Observation>)
    requires multiset(a) == multiset(b)
    ensures Tally(stats, a) == Tally(stats, b)
    decreases |a|
  {
    if a == [] {
      assert |multiset(b)| == 0;
    } else {
      var o, rest := a[0], a[1..];
      assert a == [o] + rest;
      var before, after := TakeOut(o, b);
      TallyFrontFirst(stats, before, o, after);
      TallyOrderIndependent(Noted(stats, o), rest, before + after);
      TallyFirst(stats, o, before + after);
    }
  }

  lemma TallyFirst(stats: Statistics, o: Observation, obs: seq<Observation>)
    ensures Tally(stats, [o] + obs) == Tally(Noted(stats, o), obs)
  {
    assert ([o] + obs)[1..] == obs;
  }

  // ---- What the counters of a field say -------------------------------------------------------

  function ValuesOf(obs: seq<Observation>, field: string): seq<Json> {
    if obs == [] then []
    else (if obs[0].field == field then [obs[0].value] else []) + ValuesOf(obs[1..], field)
  }

  function CountAll(c: TypeCounts, vals: seq<Json>): TypeCounts
    decreases |vals|
  {
    if vals == [] then c else CountAll(Counted(c, vals[0]), vals[1..])
  }

  lemma {:induction false} TallyAt(stats: Statistics, obs: seq<Observation>, field: string)
    ensures CountsAt(Tally(stats, obs), field) == CountAll(CountsAt(stats, field), ValuesOf(obs, field))
    ensures field in Tally(stats, obs) <==> field in stats || ValuesOf(obs, field) != []
    decreases |obs|
  {
    if obs != [] {
      TallyAt(Noted(stats, obs[0]), obs[1..], field);
      if obs[0].field == field {
        assert ([obs[0].value] + ValuesOf(obs[1..], field))[1..] == ValuesOf(obs[1..], field);
      } else {
        assert [] + ValuesOf(obs[1..], field) == ValuesOf(obs[1..], field);
      }
    }
  }

  lemma {:induction false} ValuesOfContains(obs: seq<Observation>, i: nat)
    requires i < |obs|
    ensures obs[i].value in ValuesOf(obs, obs[i].field)
  {
    if i > 0 {
      ValuesOfContains(obs[1..], i - 1);
    }
  }

  ghost predicate Consistent(c: TypeCounts) {
    c.integers + c.floating == c.numbers && c.uuids <= c.strings && c.dateTimes <= c.strings
  }

  predicate HasStr(vals: seq<Json>) {
    exists i :: 0 <= i < |vals| && vals[i].Str?
  }

  predicate HasNumber(vals: seq<Json>) {
    exists i :: 0 <= i < |vals| && vals[i].Number()
  }

  predicate HasBool(vals: seq<Json>) {
    exists i :: 0 <= i < |vals| && vals[i].Bool?
  }

  /** What counting vals on top of c guarantees. */
  ghost predicate CountsMean(c: TypeCounts, d: TypeCounts, vals: seq<Json>) {
    && (Consistent(c) ==> Consistent(d))
    && c.maxLength <= d.maxLength
    && (d.strings > c.strings <==> HasStr(vals)) && d.strings >= c.strings
    && (d.numbers > c.numbers <==> HasNumber(vals)) && d.numbers >= c.numbers
    && (d.booleans > c.booleans <==> HasBool(vals)) && d.booleans >= c.booleans
    && d.floating >= c.floating
    && d.strings - d.uuids >= c.strings - c.uuids
    && d.strings - d.dateTimes >= c.strings - c.dateTimes
    && forall i :: 0 <= i < |vals| ==>
      (vals[i].Dec? ==> d.floating > c.floating) &&
      (vals[i].Str? ==>
        |vals[i].s| <= d.maxLength &&
        (!IsUuid(vals[i].s) ==> d.strings - d.uuids > c.strings - c.uuids) &&
        (!LooksLikeDateTime(vals[i].s) ==> d.strings - d.dateTimes > c.strings - c.dateTimes))
  }

  lemma {:induction false} CountersTellKinds(c: TypeCounts, vals: seq<Json>)
    ensures CountsMean(c, CountAll(c, vals), vals)
    decreases |vals|
  {
    if vals != [] {
      var c1, rest := Counted(c, vals[0]), vals[1..];
      CountersTellKinds(c1, rest);
      assert vals == [vals[0]] + rest;
      assert HasStr(vals) <==> vals[0].Str? || HasStr(rest);
      assert HasNumber(vals) <==> vals[0].Number() || HasNumber(rest);
      assert HasBool(vals) <==> vals[0].Bool? || HasBool(rest);
    }
  }

  /** What one more value in a field means: other fields' counters stay, and those of this field tell its kind. */
  ghost predicate OneMore(before: Statistics, after: Statistics, field: string, v: Json) {
    && (forall f :: f != field ==> CountsAt(after, f) == CountsAt(before, f))
    && CountsMean(CountsAt(before, field), CountsAt(after, field), [v])
  }

  lemma NotedMeans(stats: Statistics, field: string, v: Json)
    ensures OneMore(stats, stats[field := Counted(CountsAt(stats, field), v)], field, v)
  {
    var after := stats[field := Counted(CountsAt(stats, field), v)];
    assert CountsAt(after, field) == Counted(CountsAt(stats, field), v);
    CountedMeans(CountsAt(stats, field), v);
    assert CountsMean(CountsAt(stats, field), CountsAt(after, field), [v]);
  }

  lemma CountedMeans(c: TypeCounts, v: Json)
    ensures CountsMean(c, Counted(c, v), [v])
  {
    assert CountAll(c, [v]) == Counted(c, v) by {
      assert [v][1..] == [];
    }
    CountersTellKinds(c, [v]);
  }

  // ---- Type selection -------------------------------------------------------------------------

  function SelectType(c: TypeCounts): ColumnType {
    if c.strings > 0 then
      if c.strings == c.uuids then Id
      else if c.strings == c.dateTimes then TimestampTz
      else Varchar
    else if c.numbers > 0 then
      if c.floating > 0 then Numeric else BigInt
    else if c.booleans > 0 then Boolean
    else Varchar
  }

  /** The value is of the kind that makes select_type choose the type; integers may be of any width. */
  predicate Suits(t: ColumnType, v: Json) {
    v.Null? ||
    match t
    case BigInt => v.Int?
    case Boolean => v.Bool?
    case Numeric => v.Number()
    case Id => v.Str? && IsUuid(v.s)
    case TimestampTz => v.Str? && LooksLikeDateTime(v.s)
    case Varchar => true
  }

  predicate OnlyStrings(vals: seq<Json>) {
    forall i :: 0 <= i < |vals| ==> vals[i].Str? || vals[i].Null?
  }

  /** What the values need for the type selected from them: only strings for uuids and times; otherwise a string, or
      not both numbers and booleans. */
  predicate OfOneKind(t: ColumnType, vals: seq<Json>) {
    if t in {Id, TimestampTz} then OnlyStrings(vals) else HasStr(vals) || !HasNumber(vals) || !HasBool(vals)
  }

  lemma OneValueSuits(c: TypeCounts, vals: seq<Json>, i: nat)
    requires CountsMean(NoCounts, c, vals) && Consistent(c)
    requires i < |vals| && vals[i].Scalar()
    requires OfOneKind(SelectType(c), vals)
    ensures Suits(SelectType(c), vals[i])
  {
    assert vals[i].Str? ==> HasStr(vals);
    assert vals[i].Number() ==> HasNumber(vals);
    assert vals[i].Bool? ==> HasBool(vals);
  }

  /** The selected type suits every scalar counted if and only if they are of one kind. */
  lemma SelectedTypeSuits(vals: seq<Json>)
    requires forall i :: 0 <= i < |vals| ==> vals[i].Scalar()
    ensures (forall i :: 0 <= i < |vals| ==> Suits(SelectType(CountAll(NoCounts, vals)), vals[i])) <==>
      OfOneKind(SelectType(CountAll(NoCounts, vals)), vals)
    ensures forall i :: 0 <= i < |vals| && vals[i].Str? ==> |vals[i].s| <= CountAll(NoCounts, vals).maxLength
  {
    var c := CountAll(NoCounts, vals);
    CountersTellKinds(NoCounts, vals);
    if !OfOneKind(SelectType(c), vals) {
      SomeValueDoesNot(c, vals);
    } else {
      forall i | 0 <= i < |vals|
        ensures Suits(SelectType(c), vals[i])
      {
        OneValueSuits(c, vals, i);
      }
    }
  }

  lemma SomeValueDoesNot(c: TypeCounts, vals: seq<Json>)
    requires CountsMean(NoCounts, c, vals) && !OfOneKind(SelectType(c), vals)
    ensures exists i :: 0 <= i < |vals| && !Suits(SelectType(c), vals[i])
  {
    if SelectType(c) in {Id, TimestampTz} {
      var i :| 0 <= i < |vals| && !vals[i].Str? && !vals[i].Null?;
      assert !Suits(SelectType(c), vals[i]);
    } else {
      var i :| 0 <= i < |vals| && vals[i].Bool?;
      assert !Suits(SelectType(c), vals[i]);
    }
  }

  // ---- The type by the kinds of the values -----------------------------------------------------

  predicate HasDec(vals: seq<Json>) {
    exists i :: 0 <= i < |vals| && vals[i].Dec?
  }

  /** Some string is no uuid. */
  predicate HasOther(vals: seq<Json>) {
    exists i :: 0 <= i < |vals| && vals[i].Str? && !IsUuid(vals[i].s)
  }

  /** Some string is no date and time. */
  predicate HasTimeless(vals: seq<Json>) {
    exists i :: 0 <= i < |vals| && vals[i].Str? && !LooksLikeDateTime(vals[i].s)
  }

  /** The greatest length of a string, if it is greater than n. */
  function Longest(vals: seq<Json>, n: nat): (m: nat)
    ensures m >= n && forall i :: 0 <= i < |vals| && vals[i].Str? ==> |vals[i].s| <= m
    ensures m == n || exists i :: 0 <= i < |vals| && vals[i].Str? && |vals[i].s| == m
    decreases |vals|
  {
    if vals == [] then n
    else
      var v, rest := vals[0], vals[1..];
      assert vals == [v] + rest;
      Longest(rest, if v.Str? && |v.s| > n then |v.s| else n)
  }

  lemma {:induction false} DecimalsCounted(c: TypeCounts, vals: seq<Json>)
    ensures
      var d := CountAll(c, vals);
      && d.floating >= c.floating && (d.floating > c.floating <==> HasDec(vals))
      && d.maxLength == Longest(vals, c.maxLength)
    decreases |vals|
  {
    if vals != [] {
      DecimalsCounted(Counted(c, vals[0]), vals[1..]);
      assert vals == [vals[0]] + vals[1..];
      assert HasDec(vals) <==> vals[0].Dec? || HasDec(vals[1..]);
    }
  }

  lemma {:induction false} OthersCounted(c: TypeCounts, vals: seq<Json>)
    ensures
      var d := CountAll(c, vals);
      d.strings - d.uuids >= c.strings - c.uuids && (d.strings - d.uuids > c.strings - c.uuids <==> HasOther(vals))
    decreases |vals|
  {
    if vals != [] {
      OthersCounted(Counted(c, vals[0]), vals[1..]);
      assert vals == [vals[0]] + vals[1..];
      assert HasOther(vals) <==> (vals[0].Str? && !IsUuid(vals[0].s)) || HasOther(vals[1..]);
    }
  }

  lemma {:induction false} TimelessCounted(c: TypeCounts, vals: seq<Json>)
    ensures
      var d := CountAll(c, vals);
      && d.strings - d.dateTimes >= c.strings - c.dateTimes
      && (d.strings - d.dateTimes > c.strings - c.dateTimes <==> HasTimeless(vals))
    decreases |vals|
  {
    if vals != [] {
      TimelessCounted(Counted(c, vals[0]), vals[1..]);
      assert vals == [vals[0]] + vals[1..];
      assert HasTimeless(vals) <==> (vals[0].Str? && !LooksLikeDateTime(vals[0].s)) || HasTimeless(vals[1..]);
    }
  }

  /** Uuids if all strings are, else times if all strings are, else text; without strings, numbers before booleans. */
  function TypeByKinds(vals: seq<Json>): ColumnType {
    if HasStr(vals) then (if !HasOther(vals) then Id else if !HasTimeless(vals) then TimestampTz else Varchar)
    else if HasNumber(vals) then (if HasDec(vals) then Numeric else BigInt)
    else if HasBool(vals) then Boolean
    else Varchar
  }

  lemma SelectedByKinds(vals: seq<Json>)
    ensures SelectType(CountAll(NoCounts, vals)) == TypeByKinds(vals)
    ensures CountAll(NoCounts, vals).maxLength == Longest(vals, 0)
  {
    CountersTellKinds(NoCounts, vals);
    DecimalsCounted(NoCounts, vals);
    OthersCounted(NoCounts, vals);
    TimelessCounted(NoCounts, vals);
  }
}
