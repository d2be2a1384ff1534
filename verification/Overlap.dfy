/** Co-active throughput of two telemetry series: interval extraction, the
    two-pointer merge, the fairness index and percentiles. Floats are reals. */
module Overlap {
  import opened Addresses

  datatype Mode = Bbr | Brutal

  /** A telemetry line; None is a number too large for a float. */
  datatype Line = Line(scenario: string, mode: Mode, timestamp: nat, rate: Option<real>, rtt: Option<real>, received: nat)

  datatype Sample = Sample(timestamp: nat, rate: real, rtt: real, received: nat)

  datatype Interval = Interval(start: int, end: int, rate: real, rtt: real)

  datatype LogError = InvalidSample | NotMonotonic | CounterBackwards

  // ---- Extraction ----

  /** Python's stable sort by timestamp. */
  function Inserted(x: Sample, s: seq<Sample>): (r: seq<Sample>)
    ensures multiset(r) == multiset{x} + multiset(s)
  {
    if s == [] || x.timestamp <= s[0].timestamp then [x] + s
    else
      assert s == [s[0]] + s[1..];
      [s[0]] + Inserted(x, s[1..])
  }

  function Sorted(s: seq<Sample>): (r: seq<Sample>)
    ensures multiset(r) == multiset(s)
  {
    if s == [] then []
    else
      assert s == [s[0]] + s[1..];
      Inserted(s[0], Sorted(s[1..]))
  }

  predicate Increasing(s: seq<Sample>) {
    forall i :: 0 < i < |s| ==> s[i - 1].timestamp < s[i].timestamp
  }

  predicate Ordered(s: seq<Sample>) {
    forall i :: 0 < i < |s| ==> s[i - 1].timestamp <= s[i].timestamp
  }

  predicate CountsUp(s: seq<Sample>) {
    forall i :: 0 < i < |s| ==> s[i - 1].received <= s[i].received
  }

  lemma {:induction false} InsertedOrdered(x: Sample, s: seq<Sample>)
    requires Ordered(s)
    ensures Ordered(Inserted(x, s)) && Inserted(x, s) != []
    ensures s != [] ==> Inserted(x, s)[0].timestamp == x.timestamp || Inserted(x, s)[0] == s[0]
  {
    if s != [] && x.timestamp > s[0].timestamp {
      InsertedOrdered(x, s[1..]);
    }
  }

  lemma {:induction false} SortedIsOrdered(s: seq<Sample>)
    ensures Ordered(Sorted(s))
  {
    if s != [] {
      SortedIsOrdered(s[1..]);
      InsertedOrdered(s[0], Sorted(s[1..]));
    }
  }

  function At(s: seq<Sample>, i: nat): Interval
    requires i + 1 < |s|
  {
    Interval(s[i].timestamp, s[i + 1].timestamp, s[i + 1].rate, s[i + 1].rtt)
  }

  function Between(s: seq<Sample>): seq<Interval> {
    if s == [] then [] else seq(|s| - 1, i requires 0 <= i < |s| - 1 => At(s, i))
  }

  /** The intervals of one series, from its samples in any order. */
  method ExtractIntervals(samples: seq<Sample>) returns (r: Result<seq<Interval>, LogError>)
    ensures r.Ok? <==> Increasing(Sorted(samples)) && CountsUp(Sorted(samples))
    ensures r.Ok? ==> r.value == Between(Sorted(samples)) && Chained(r.value)
    ensures r.Err? ==> if r.error == NotMonotonic then !Increasing(Sorted(samples))
                       else r.error == CounterBackwards && !CountsUp(Sorted(samples))
  {
    var s := Sorted(samples);
    hide Sorted;
    var result := [];
    var k := 1;
    while k < |s|
      invariant 1 <= k && (k <= |s| || k == 1)
      invariant forall i :: 0 < i < k && i < |s| ==> s[i - 1].timestamp < s[i].timestamp && s[i - 1].received <= s[i].received
      invariant |result| == k - 1
      invariant forall i :: 0 <= i < k - 1 ==> result[i] == At(s, i)
    {
      if s[k].timestamp <= s[k - 1].timestamp {
        return Err(NotMonotonic);
      }
      if s[k].received < s[k - 1].received {
        return Err(CounterBackwards);
      }
      result := result + [Interval(s[k - 1].timestamp, s[k].timestamp, s[k].rate, s[k].rtt)];
      k := k + 1;
    }
    BetweenChained(s);
    assert result == Between(s);
    return Ok(result);
  }

  /** Consecutive, non-empty intervals. */
  predicate Chained(a: seq<Interval>) {
    && (forall i :: 0 <= i < |a| ==> a[i].start < a[i].end)
    && (forall i :: 0 < i < |a| ==> a[i - 1].end == a[i].start)
  }

  lemma BetweenChained(s: seq<Sample>)
    requires Increasing(s)
    ensures Chained(Between(s)) && |Between(s)| == if s == [] then 0 else |s| - 1
    ensures |s| > 1 ==> Between(s)[0].start == s[0].timestamp && Between(s)[|s| - 2].end == s[|s| - 1].timestamp
  {
  }

  lemma {:induction false} Earlier(s: seq<Sample>, i: nat, j: nat)
    requires Ordered(s) && i <= j < |s|
    ensures s[i].timestamp <= s[j].timestamp
  {
    if i < j {
      Earlier(s, i, j - 1);
    }
  }

  /** The order of a log's lines does not matter: with distinct timestamps two
      orders of the same samples have the same sorted series. */
  lemma {:induction false} OrderIrrelevant(s: seq<Sample>, t: seq<Sample>)
    requires multiset(s) == multiset(t) && Increasing(s) && Ordered(t)
    ensures s == t
  {
    SameLength(s, t);
    if s != [] {
      SameFirst(s, t);
      WithoutFirst(s);
      WithoutFirst(t);
      assert Increasing(s[1..]) && Ordered(t[1..]);
      OrderIrrelevant(s[1..], t[1..]);
    }
  }

  lemma WithoutFirst(s: seq<Sample>)
    requires s != []
    ensures s == [s[0]] + s[1..] && multiset(s[1..]) == multiset(s) - multiset{s[0]}
  {
    assert s == [s[0]] + s[1..];
  }

  lemma SameLength(s: seq<Sample>, t: seq<Sample>)
    requires multiset(s) == multiset(t)
    ensures |s| == |t|
  {
    assert |multiset(s)| == |s| && |multiset(t)| == |t|;
  }

  lemma SameFirst(s: seq<Sample>, t: seq<Sample>)
    requires multiset(s) == multiset(t) && Increasing(s) && Ordered(t) && s != [] && t != []
    ensures s[0] == t[0]
  {
    assert s[0] in multiset(t) && t[0] in multiset(s);
    var i :| 0 <= i < |t| && t[i] == s[0];
    var j :| 0 <= j < |s| && s[j] == t[0];
    Earlier(t, 0, i);
    if j > 0 {
      Earlier(s, 1, j);
    }
  }

  lemma ShuffledSeries(s: seq<Sample>, t: seq<Sample>)
    requires multiset(s) == multiset(t) && Increasing(Sorted(s))
    ensures Sorted(s) == Sorted(t)
  {
    SortedIsOrdered(t);
    OrderIrrelevant(Sorted(s), Sorted(t));
  }

  // ---- A whole log ----

  datatype Key = Key(scenario: string, mode: Mode)

  predicate Valid(l: Line) {
    l.rate.Some? && l.rtt.Some? && l.rate.value >= 0.0 && l.rtt.value >= 0.0
  }

  function SampleOf(l: Line): Sample
    requires Valid(l)
  {
    Sample(l.timestamp, l.rate.value, l.rtt.value, l.received)
  }

  /** The samples of one series, in the log's order. */
  function Points(lines: seq<Line>, key: Key): seq<Sample>
    requires forall i :: 0 <= i < |lines| ==> Valid(lines[i])
  {
    if lines == [] then []
    else
      var last := lines[|lines| - 1];
      Points(lines[..|lines| - 1], key) + if Key(last.scenario, last.mode) == key then [SampleOf(last)] else []
  }

  ghost predicate GroupedAs(lines: seq<Line>, points: map<Key, seq<Sample>>) {
    && (forall i :: 0 <= i < |lines| ==> Valid(lines[i]))
    && (forall key :: Points(lines, key) == if key in points then points[key] else [])
    && (forall key :: key in points ==> points[key] != [])
  }

  lemma GroupedMore(lines: seq<Line>, points: map<Key, seq<Sample>>, l: Line)
    requires GroupedAs(lines, points) && Valid(l)
    ensures var key := Key(l.scenario, l.mode);
            GroupedAs(lines + [l], points[key := (if key in points then points[key] else []) + [SampleOf(l)]])
  {
    assert (lines + [l])[..|lines|] == lines;
  }

  predicate WellFormed(samples: seq<Sample>) {
    Increasing(Sorted(samples)) && CountsUp(Sorted(samples))
  }

  /** extract_intervals: every series' intervals, or an error just when a line or
      the order of a series is bad. */
  method ExtractLog(lines: seq<Line>) returns (r: Result<map<Key, seq<Interval>>, LogError>)
    ensures r == Err(InvalidSample) <==> exists i :: 0 <= i < |lines| && !Valid(lines[i])
    ensures (forall i :: 0 <= i < |lines| ==> Valid(lines[i])) ==>
              (r.Ok? <==> forall key :: WellFormed(Points(lines, key)))
    ensures r.Ok? ==> && (forall i :: 0 <= i < |lines| ==> Valid(lines[i]))
                      && forall key :: (key in r.value <==> Points(lines, key) != [])
                                       && (key in r.value ==> r.value[key] == Between(Sorted(Points(lines, key))))
  {
    hide Sorted, Between, Valid, Points, WellFormed;
    var points := GroupLines(lines);
    if points.Err? {
      return Err(points.error);
    }
    GroupsWellFormed(lines, points.value);
    r := ExtractPoints(points.value);
  }

  method GroupLines(lines: seq<Line>) returns (r: Result<map<Key, seq<Sample>>, LogError>)
    ensures r.Ok? ==> GroupedAs(lines, r.value)
    ensures r.Err? ==> r.error == InvalidSample && exists i :: 0 <= i < |lines| && !Valid(lines[i])
  {
    hide Valid, Points;
    var points: map<Key, seq<Sample>> := map[];
    NoPoints();
    for n := 0 to |lines|
      invariant GroupedAs(lines[..n], points)
    {
      var l := lines[n];
      if !Valid(l) {
        return Err(InvalidSample);
      }
      GroupedMore(lines[..n], points, l);
      assert lines[..n + 1] == lines[..n] + [l];
      var key := Key(l.scenario, l.mode);
      points := points[key := (if key in points then points[key] else []) + [SampleOf(l)]];
    }
    assert lines[..|lines|] == lines;
    return Ok(points);
  }

  method ExtractPoints(points: map<Key, seq<Sample>>) returns (r: Result<map<Key, seq<Interval>>, LogError>)
    ensures r.Ok? <==> forall key :: key in points ==> WellFormed(points[key])
    ensures r.Ok? ==> r.value.Keys == points.Keys && forall key :: key in points ==> r.value[key] == Between(Sorted(points[key]))
    ensures r.Err? ==> r.error != InvalidSample
  {
    hide Sorted, Between, WellFormed;
    var intervals: map<Key, seq<Interval>> := map[];
    var keys := points.Keys;
    while keys != {}
      invariant keys <= points.Keys && intervals.Keys == points.Keys - keys
      invariant forall key :: key in intervals ==>
                  WellFormed(points[key]) && intervals[key] == Between(Sorted(points[key]))
      decreases |keys|
    {
      var key :| key in keys;
      var result := ExtractSeries(points[key]);
      if result.Err? {
        return Err(result.error);
      }
      intervals := intervals[key := result.value];
      keys := keys - {key};
    }
    return Ok(intervals);
  }

  lemma NoPoints()
    ensures GroupedAs([], map[])
  {
  }

  lemma GroupsWellFormed(lines: seq<Line>, points: map<Key, seq<Sample>>)
    requires GroupedAs(lines, points)
    ensures (forall key :: key in points ==> WellFormed(points[key])) <==> forall key :: WellFormed(Points(lines, key))
  {
    hide Points, WellFormed, Valid;
    EmptyWellFormed();
    if forall key :: key in points ==> WellFormed(points[key]) {
      forall key ensures WellFormed(Points(lines, key)) {
        assert Points(lines, key) == if key in points then points[key] else [];
      }
    } else {
      var key :| key in points && !WellFormed(points[key]);
      assert Points(lines, key) == points[key];
    }
  }

  lemma EmptyWellFormed()
    ensures WellFormed([])
  {
  }

  method ExtractSeries(samples: seq<Sample>) returns (r: Result<seq<Interval>, LogError>)
    ensures r.Ok? <==> WellFormed(samples)
    ensures r.Ok? ==> r.value == Between(Sorted(samples))
    ensures r.Err? ==> r.error != InvalidSample
  {
    hide Sorted, Increasing, CountsUp, Between;
    r := ExtractIntervals(samples);
  }

  ghost predicate AllValid(lines: seq<Line>) {
    forall i :: 0 <= i < |lines| ==> Valid(lines[i])
  }

  lemma {:induction false} PointsConcat(a: seq<Line>, b: seq<Line>, key: Key)
    requires AllValid(a) && AllValid(b)
    ensures AllValid(a + b) && Points(a + b, key) == Points(a, key) + Points(b, key)
    decreases |b|
  {
    hide Valid, SampleOf;
    if b == [] {
      assert a + b == a;
    } else {
      assert (a + b)[..|a + b| - 1] == a + b[..|b| - 1];
      PointsConcat(a, b[..|b| - 1], key);
    }
  }

  /** Taking one occurrence of a line out of a log. */
  lemma TakenOut(t: seq<Line>, l: Line) returns (a: seq<Line>, b: seq<Line>)
    requires l in multiset(t)
    ensures t == a + [l] + b && multiset(a + b) == multiset(t) - multiset{l}
  {
    var i :| 0 <= i < |t| && t[i] == l;
    a, b := t[..i], t[i + 1..];
    assert t == a + [l] + b;
  }

  lemma PointsAround(a: seq<Line>, l: Line, b: seq<Line>, key: Key)
    requires AllValid(a + [l] + b)
    ensures AllValid(a + b) && Valid(l)
    ensures multiset(Points(a + [l] + b, key)) == multiset(Points(a + b, key)) + multiset(Points([l], key))
  {
    forall i | 0 <= i < |a| ensures Valid(a[i]) { assert a[i] == (a + [l] + b)[i]; }
    forall i | 0 <= i < |b| ensures Valid(b[i]) { assert b[i] == (a + [l] + b)[|a| + 1 + i]; }
    assert Valid((a + [l] + b)[|a|]);
    hide Points, Valid;
    PointsConcat(a, [l], key);
    PointsConcat(a + [l], b, key);
    PointsConcat(a, b, key);
  }

  lemma LastTaken(s: seq<Line>)
    requires s != []
    ensures s == s[..|s| - 1] + [s[|s| - 1]] + [] && s[|s| - 1] in multiset(s)
    ensures s[..|s| - 1] + [] == s[..|s| - 1] && multiset(s[..|s| - 1]) == multiset(s) - multiset{s[|s| - 1]}
  {
    assert s == s[..|s| - 1] + [s[|s| - 1]];
  }

  /** A log and the same log shuffled have the same samples in every series. */
  lemma {:induction false} ShuffledPoints(s: seq<Line>, t: seq<Line>, key: Key)
    requires multiset(s) == multiset(t) && AllValid(s) && AllValid(t)
    ensures multiset(Points(s, key)) == multiset(Points(t, key))
    decreases |s|
  {
    hide Points, Valid, AllValid;
    if s == [] {
      assert t == [] by { assert |multiset(t)| == |t| && |multiset(s)| == 0; }
    } else {
      LastTaken(s);
      var init, l := s[..|s| - 1], s[|s| - 1];
      var a, b := TakenOut(t, l);
      PointsAround(init, l, [], key);
      PointsAround(a, l, b, key);
      ShuffledPoints(init, a + b, key);
    }
  }

  /** What a log gives: an invalid line, a bad series, or the intervals of all series. */
  ghost predicate Accepted(lines: seq<Line>) {
    AllValid(lines) && forall key :: WellFormed(Points(lines, key))
  }

  /** The order of a log's lines does not matter: it is accepted in one order just
      when it is in another, with the same intervals for every series. */
  lemma ShuffledLog(s: seq<Line>, t: seq<Line>)
    requires multiset(s) == multiset(t)
    ensures Accepted(s) <==> Accepted(t)
    ensures Accepted(s) ==> forall key :: Between(Sorted(Points(s, key))) == Between(Sorted(Points(t, key)))
                                          && (Points(s, key) == [] <==> Points(t, key) == [])
  {
    if Accepted(s) {
      ShuffledAccepted(s, t);
    }
    if Accepted(t) {
      ShuffledAccepted(t, s);
    }
  }

  lemma ShuffledAccepted(s: seq<Line>, t: seq<Line>)
    requires multiset(s) == multiset(t) && Accepted(s)
    ensures Accepted(t)
    ensures forall key :: Sorted(Points(s, key)) == Sorted(Points(t, key)) && (Points(s, key) == [] <==> Points(t, key) == [])
  {
    forall i | 0 <= i < |t| ensures Valid(t[i]) {
      assert t[i] in multiset(s);
    }
    hide Sorted, Points, Valid, Increasing, CountsUp;
    forall key
      ensures WellFormed(Points(t, key))
      ensures Sorted(Points(s, key)) == Sorted(Points(t, key)) && (Points(s, key) == [] <==> Points(t, key) == [])
    {
      ShuffledPoints(s, t, key);
      assert WellFormed(Points(s, key));
      ShuffledSeries(Points(s, key), Points(t, key));
      SameEmptiness(Points(s, key), Points(t, key));
    }
  }

  lemma SameEmptiness(s: seq<Sample>, t: seq<Sample>)
    requires multiset(s) == multiset(t)
    ensures s == [] <==> t == []
  {
    assert |multiset(s)| == |s| && |multiset(t)| == |t|;
  }

  // ---- Sums over pairs of intervals ----

  function Max(x: int, y: int): int {
    if x < y then y else x
  }

  function Min(x: int, y: int): int {
    if x < y then x else y
  }

  /** The length of the intersection. */
  function Inter(x: Interval, y: Interval): int {
    Max(0, Min(x.end, y.end) - Max(x.start, y.start))
  }

  /** What the merge adds up: time, events and the bits of either side. */
  datatype Measure = Time | Events | Bits0 | Bits1

  function Value(m: Measure, x: Interval, y: Interval): real {
    match m
    case Time => Inter(x, y) as real
    case Events => if Inter(x, y) > 0 then 1.0 else 0.0
    case Bits0 => x.rate * (Inter(x, y) as real / 1000.0)
    case Bits1 => y.rate * (Inter(x, y) as real / 1000.0)
  }

  function Row(m: Measure, x: Interval, b: seq<Interval>): real {
    if b == [] then 0.0 else Value(m, x, b[0]) + Row(m, x, b[1..])
  }

  /** The sum over every pair: the definition the merge has to meet. */
  function Double(m: Measure, a: seq<Interval>, b: seq<Interval>): real {
    if a == [] then 0.0 else Row(m, a[0], b) + Double(m, a[1..], b)
  }

  lemma ApartIsZero(m: Measure, x: Interval, y: Interval)
    requires x.end <= y.start || y.end <= x.start
    ensures Value(m, x, y) == 0.0
  {
    assert Inter(x, y) == 0;
    assert x.rate * 0.0 == 0.0 && y.rate * 0.0 == 0.0;
  }

  lemma {:induction false} RowBehind(m: Measure, x: Interval, b: seq<Interval>)
    requires Chained(b) && (b == [] || x.end <= b[0].start)
    ensures Row(m, x, b) == 0.0
  {
    hide Value;
    if b != [] {
      ApartIsZero(m, x, b[0]);
      RowBehind(m, x, b[1..]);
    }
  }

  lemma {:induction false} NoColumns(m: Measure, a: seq<Interval>)
    ensures Double(m, a, []) == 0.0
  {
    if a != [] {
      NoColumns(m, a[1..]);
    }
  }

  function Column(m: Measure, a: seq<Interval>, y: Interval): real {
    if a == [] then 0.0 else Value(m, a[0], y) + Column(m, a[1..], y)
  }

  lemma {:induction false} ByColumns(m: Measure, a: seq<Interval>, b: seq<Interval>)
    requires b != []
    ensures Double(m, a, b) == Column(m, a, b[0]) + Double(m, a, b[1..])
  {
    hide Value;
    if a != [] {
      ByColumns(m, a[1..], b);
    }
  }

  lemma {:induction false} ColumnBehind(m: Measure, a: seq<Interval>, y: Interval)
    requires Chained(a) && (a == [] || y.end <= a[0].start)
    ensures Column(m, a, y) == 0.0
  {
    hide Value;
    if a != [] {
      ApartIsZero(m, a[0], y);
      ColumnBehind(m, a[1..], y);
    }
  }

  /** The merge's step: the interval that ends first meets no other. */
  lemma Peel(m: Measure, a: seq<Interval>, b: seq<Interval>)
    requires Chained(a) && Chained(b) && a != [] && b != []
    ensures Double(m, a, b) == Value(m, a[0], b[0])
              + if a[0].end <= b[0].end then Double(m, a[1..], b) else Double(m, a, b[1..])
  {
    hide Value;
    if a[0].end <= b[0].end {
      RowBehind(m, a[0], b[1..]);
    } else {
      ByColumns(m, a, b);
      ColumnBehind(m, a[1..], b[0]);
    }
  }

  datatype Merge = Merge(overlap: int, events: int, bits0: real, bits1: real, rtts0: seq<real>, rtts1: seq<real>)

  ghost predicate SumsTo(r: Merge, a: seq<Interval>, b: seq<Interval>, restA: seq<Interval>, restB: seq<Interval>) {
    && r.overlap as real + Double(Time, restA, restB) == Double(Time, a, b)
    && r.events as real + Double(Events, restA, restB) == Double(Events, a, b)
    && r.bits0 + Double(Bits0, restA, restB) == Double(Bits0, a, b)
    && r.bits1 + Double(Bits1, restA, restB) == Double(Bits1, a, b)
    && |r.rtts0| == |r.rtts1| == r.events
  }

  function Added(r: Merge, x: Interval, y: Interval): Merge {
    var start, end := Max(x.start, y.start), Min(x.end, y.end);
    if end <= start then r
    else
      var seconds := (end - start) as real / 1000.0;
      Merge(r.overlap + (end - start), r.events + 1, r.bits0 + x.rate * seconds, r.bits1 + y.rate * seconds,
            r.rtts0 + [x.rtt], r.rtts1 + [y.rtt])
  }

  lemma AddedValues(r: Merge, x: Interval, y: Interval)
    ensures var r' := Added(r, x, y);
            && r'.overlap as real == r.overlap as real + Value(Time, x, y)
            && r'.events as real == r.events as real + Value(Events, x, y)
            && r'.bits0 == r.bits0 + Value(Bits0, x, y) && r'.bits1 == r.bits1 + Value(Bits1, x, y)
  {
    if Min(x.end, y.end) <= Max(x.start, y.start) {
      ApartValues(x, y);
    }
  }

  lemma ApartValues(x: Interval, y: Interval)
    requires Inter(x, y) == 0
    ensures forall m :: Value(m, x, y) == 0.0
  {
    assert x.rate * 0.0 == 0.0 && y.rate * 0.0 == 0.0;
  }

  lemma MergeStep(r: Merge, a: seq<Interval>, b: seq<Interval>, i: nat, j: nat)
    requires Chained(a) && Chained(b) && i < |a| && j < |b| && SumsTo(r, a, b, a[i..], b[j..])
    ensures var r' := Added(r, a[i], b[j]);
            if a[i].end <= b[j].end then SumsTo(r', a, b, a[i + 1..], b[j..]) else SumsTo(r', a, b, a[i..], b[j + 1..])
  {
    var restA, restB := a[i..], b[j..];
    assert Chained(restA) && Chained(restB);
    assert restA[1..] == a[i + 1..] && restB[1..] == b[j + 1..] && restA[0] == a[i] && restB[0] == b[j];
    Peel(Time, restA, restB);
    Peel(Events, restA, restB);
    Peel(Bits0, restA, restB);
    Peel(Bits1, restA, restB);
    AddedValues(r, a[i], b[j]);
    hide Value, Double;
  }

  /** The two-pointer merge adds up exactly the double sums over all pairs. */
  method MergeIntervals(a: seq<Interval>, b: seq<Interval>) returns (r: Merge)
    requires Chained(a) && Chained(b)
    ensures r.overlap as real == Double(Time, a, b) && r.events as real == Double(Events, a, b)
    ensures r.bits0 == Double(Bits0, a, b) && r.bits1 == Double(Bits1, a, b)
    ensures |r.rtts0| == |r.rtts1| == r.events && r.overlap >= r.events >= 0
    ensures r.overlap > 0 ==> r.events > 0
    ensures Drawn(r.rtts0, a) && Drawn(r.rtts1, b)
  {
    hide Double, Chained, Value, SumsTo;
    Begin(a, b);
    var i, j := 0, 0;
    r := Merge(0, 0, 0.0, 0.0, [], []);
    assert a[0..] == a && b[0..] == b;
    while i < |a| && j < |b|
      invariant i <= |a| && j <= |b| && SumsTo(r, a, b, a[i..], b[j..]) && r.overlap >= r.events >= 0
      invariant (r.overlap > 0 ==> r.events > 0) && Drawn(r.rtts0, a) && Drawn(r.rtts1, b)
      decreases |a| - i + |b| - j
    {
      MergeStep(r, a, b, i, j);
      DrawnMore(r.rtts0, a, i);
      DrawnMore(r.rtts1, b, j);
      ghost var next := Added(r, a[i], b[j]);
      var start, end := Max(a[i].start, b[j].start), Min(a[i].end, b[j].end);
      if end > start {
        var seconds := (end - start) as real / 1000.0;
        r := Merge(r.overlap + (end - start), r.events + 1, r.bits0 + a[i].rate * seconds, r.bits1 + b[j].rate * seconds,
                   r.rtts0 + [a[i].rtt], r.rtts1 + [b[j].rtt]);
      }
      assert r == next;
      if a[i].end <= b[j].end {
        i := i + 1;
      } else {
        j := j + 1;
      }
    }
    Exhausted(r, a, b, i, j);
  }

  /** Samples of the chain's intervals. */
  ghost predicate Drawn(rtts: seq<real>, a: seq<Interval>) {
    forall k :: 0 <= k < |rtts| ==> RttOf(rtts[k], a)
  }

  ghost predicate RttOf(rtt: real, a: seq<Interval>) {
    exists i :: 0 <= i < |a| && rtt == a[i].rtt
  }

  lemma DrawnMore(rtts: seq<real>, a: seq<Interval>, i: nat)
    requires Drawn(rtts, a) && i < |a|
    ensures Drawn(rtts + [a[i].rtt], a)
  {
    assert RttOf(a[i].rtt, a);
  }

  lemma Begin(a: seq<Interval>, b: seq<Interval>)
    ensures SumsTo(Merge(0, 0, 0.0, 0.0, [], []), a, b, a, b)
  {
    hide Double;
  }

  lemma Exhausted(r: Merge, a: seq<Interval>, b: seq<Interval>, i: nat, j: nat)
    requires i <= |a| && j <= |b| && (i == |a| || j == |b|) && SumsTo(r, a, b, a[i..], b[j..])
    ensures r.overlap as real == Double(Time, a, b) && r.events as real == Double(Events, a, b)
    ensures r.bits0 == Double(Bits0, a, b) && r.bits1 == Double(Bits1, a, b)
    ensures |r.rtts0| == |r.rtts1| == r.events
  {
    forall m ensures Double(m, a[i..], b[j..]) == 0.0 {
      if i < |a| {
        assert b[j..] == [];
        NoColumns(m, a[i..]);
      }
    }
  }

  // ---- What the sums are ----

  /** A chain's whole span. */
  function Span(a: seq<Interval>): Interval
    requires a != []
  {
    Interval(a[0].start, a[|a| - 1].end, 0.0, 0.0)
  }

  lemma {:induction false} SpanPositive(a: seq<Interval>)
    requires Chained(a) && a != []
    ensures a[0].start < a[|a| - 1].end
  {
    if |a| > 1 {
      SpanPositive(a[1..]);
    }
  }

  lemma {:induction false} RowTelescopes(x: Interval, b: seq<Interval>)
    requires Chained(b) && b != []
    ensures Row(Time, x, b) == Inter(x, Span(b)) as real
  {
    if |b| == 1 {
      assert Row(Time, x, b[1..]) == 0.0;
    } else {
      RowTelescopes(x, b[1..]);
      SpanPositive(b[1..]);
      Split(x, b[0], Span(b[1..]), Span(b));
    }
  }

  lemma Split(x: Interval, left: Interval, right: Interval, whole: Interval)
    requires left.start <= left.end == right.start <= right.end
    requires whole.start == left.start && whole.end == right.end
    ensures Inter(x, left) + Inter(x, right) == Inter(x, whole)
    ensures Inter(left, x) + Inter(right, x) == Inter(whole, x)
  {
  }

  lemma {:induction false} DoubleTelescopes(a: seq<Interval>, b: seq<Interval>)
    requires Chained(a) && Chained(b) && a != [] && b != []
    ensures Double(Time, a, b) == Inter(Span(a), Span(b)) as real
  {
    hide Row;
    RowTelescopes(a[0], b);
    if |a| == 1 {
      assert Double(Time, a[1..], b) == 0.0;
    } else {
      DoubleTelescopes(a[1..], b);
      SpanPositive(a[1..]);
      Split(Span(b), a[0], Span(a[1..]), Span(a));
    }
  }

  /** The overlap of two series depends on their first and last samples only. */
  lemma OverlapOfSamples(s: seq<Sample>, t: seq<Sample>)
    requires |s| > 1 && |t| > 1 && Increasing(s) && Increasing(t)
    ensures Double(Time, Between(s), Between(t)) ==
            Max(0, Min(s[|s| - 1].timestamp, t[|t| - 1].timestamp) - Max(s[0].timestamp, t[0].timestamp)) as real
  {
    BetweenChained(s);
    BetweenChained(t);
    DoubleTelescopes(Between(s), Between(t));
  }

  predicate RatesIn(a: seq<Interval>, low: real, high: real) {
    forall i :: 0 <= i < |a| ==> low <= a[i].rate <= high
  }

  function Times(x: real, y: real): real {
    x * y
  }

  lemma TimesLaws(c: real, s: real, t: real)
    ensures Times(c, 0.0) == 0.0 && Times(0.0, c) == 0.0 && Times(1.0, c) == c
    ensures Times(c, s + t) == Times(c, s) + Times(c, t)
  {
  }

  lemma TimesRises(x: real, y: real, t: real)
    requires t >= 0.0 && x <= y
    ensures Times(x, t) <= Times(y, t)
  {
    assert (y - x) * t >= 0.0;
  }

  function Seconds(t: real): real {
    t / 1000.0
  }

  lemma ValueInTimes(x: Interval, y: Interval)
    ensures Value(Bits0, x, y) == Times(x.rate, Seconds(Value(Time, x, y)))
    ensures Value(Bits1, x, y) == Times(y.rate, Seconds(Value(Time, x, y)))
    ensures Value(Time, x, y) >= 0.0
  {
  }

  /** Bits that are at least, or at most, what this rate moves in this time. */
  predicate Within(low: real, high: real, bits: real, time: real) {
    Times(low, Seconds(time)) <= bits <= Times(high, Seconds(time))
  }

  lemma WithinSum(low: real, high: real, bits: real, time: real, bits': real, time': real)
    requires Within(low, high, bits, time) && Within(low, high, bits', time')
    ensures Within(low, high, bits + bits', time + time')
  {
    TimesLaws(low, Seconds(time), Seconds(time'));
    TimesLaws(high, Seconds(time), Seconds(time'));
    hide Times;
    assert Seconds(time + time') == Seconds(time) + Seconds(time');
  }

  lemma WithinNothing(low: real, high: real)
    ensures Within(low, high, 0.0, 0.0)
  {
    assert Seconds(0.0) == 0.0;
    TimesLaws(low, 0.0, 0.0);
    TimesLaws(high, 0.0, 0.0);
    hide Times;
  }

  lemma ValueBounds(m: Measure, x: Interval, y: Interval, low: real, high: real)
    requires (m == Bits0 && low <= x.rate <= high) || (m == Bits1 && low <= y.rate <= high)
    ensures Within(low, high, Value(m, x, y), Value(Time, x, y))
  {
    ValueInTimes(x, y);
    hide Times, Value;
    var rate := if m == Bits0 then x.rate else y.rate;
    TimesRises(low, rate, Seconds(Value(Time, x, y)));
    TimesRises(rate, high, Seconds(Value(Time, x, y)));
  }

  lemma {:induction false} RowBounds(m: Measure, x: Interval, b: seq<Interval>, low: real, high: real)
    requires (m == Bits0 && low <= x.rate <= high) || (m == Bits1 && RatesIn(b, low, high))
    ensures Within(low, high, Row(m, x, b), Row(Time, x, b))
  {
    hide Within, Value;
    if b == [] {
      WithinNothing(low, high);
    } else {
      ValueBounds(m, x, b[0], low, high);
      RowBounds(m, x, b[1..], low, high);
      WithinSum(low, high, Value(m, x, b[0]), Value(Time, x, b[0]), Row(m, x, b[1..]), Row(Time, x, b[1..]));
    }
  }

  /** Either side's bits are an average of its rates over the overlap: with every
      rate between two bounds, the bits are what the bounds move in that time. */
  lemma {:induction false} DoubleBounds(m: Measure, a: seq<Interval>, b: seq<Interval>, low: real, high: real)
    requires (m == Bits0 && RatesIn(a, low, high)) || (m == Bits1 && RatesIn(b, low, high))
    ensures Within(low, high, Double(m, a, b), Double(Time, a, b))
  {
    hide Within, Row;
    if a == [] {
      WithinNothing(low, high);
    } else {
      RowBounds(m, a[0], b, low, high);
      DoubleBounds(m, a[1..], b, low, high);
      WithinSum(low, high, Row(m, a[0], b), Row(Time, a[0], b), Double(m, a[1..], b), Double(Time, a[1..], b));
    }
  }

  /** The reported rate, bits by duration, is between the series' own rates. */
  lemma RateIsAnAverage(m: Measure, a: seq<Interval>, b: seq<Interval>, low: real, high: real, rate: real)
    requires (m == Bits0 && RatesIn(a, low, high)) || (m == Bits1 && RatesIn(b, low, high))
    requires Double(Time, a, b) > 0.0 && Times(rate, Seconds(Double(Time, a, b))) == Double(m, a, b)
    ensures low <= rate <= high
  {
    DoubleBounds(m, a, b, low, high);
    var t := Seconds(Double(Time, a, b));
    hide Double;
    if rate < low {
      TimesStrict(rate, low, t);
    }
    if rate > high {
      TimesStrict(high, rate, t);
    }
  }

  lemma TimesStrict(x: real, y: real, t: real)
    requires t > 0.0 && x < y
    ensures Times(x, t) < Times(y, t)
  {
    assert (y - x) * t > 0.0;
  }

  // ---- Fairness ----

  function Jain(x: real, y: real): real {
    var denominator := 2.0 * (x * x + y * y);
    if denominator != 0.0 then (x + y) * (x + y) / denominator else 0.0
  }

  lemma Square(x: real)
    ensures x * x >= 0.0 && (x * x == 0.0 <==> x == 0.0)
  {
    if x > 0.0 {
      TimesStrict(0.0, x, x);
    } else if x < 0.0 {
      TimesStrict(x, 0.0, -x);
      assert x * x == -(x * (-x));
    }
  }

  lemma Squares(x: real, y: real)
    requires x >= 0.0 && y >= 0.0
    ensures (x + y) * (x + y) == x * x + y * y + 2.0 * (x * y)
    ensures (x - y) * (x - y) == x * x + y * y - 2.0 * (x * y)
    ensures x * y >= 0.0 && (x * y == 0.0 <==> x == 0.0 || y == 0.0)
  {
  }

  lemma Ratio(n: real, d: real)
    requires d > 0.0
    ensures (n / d <= 1.0 <==> n <= d) && (n / d == 1.0 <==> n == d)
    ensures (n / d >= 0.5 <==> 2.0 * n >= d) && (n / d == 0.5 <==> 2.0 * n == d)
  {
    RatioTo(n, d, 1.0);
    RatioTo(n, d, 0.5);
  }

  lemma RatioTo(n: real, d: real, c: real)
    requires d > 0.0
    ensures (n / d <= c <==> n <= c * d) && (n / d == c <==> n == c * d)
  {
    var q := n / d;
    assert q * d == n;
    if q < c {
      assert (c - q) * d > 0.0;
    } else if q > c {
      assert (q - c) * d > 0.0;
    }
  }

  /** The index of two rates is in [1/2, 1], 1 just for equal rates and 1/2 just
      when one side is starved; with no traffic at all it is reported as 0. */
  lemma JainBounds(x: real, y: real)
    requires x >= 0.0 && y >= 0.0
    ensures if x == 0.0 && y == 0.0 then Jain(x, y) == 0.0
            else && 0.5 <= Jain(x, y) <= 1.0
                 && (Jain(x, y) == 1.0 <==> x == y)
                 && (Jain(x, y) == 0.5 <==> x == 0.0 || y == 0.0)
  {
    Square(x);
    Square(y);
    Square(x - y);
    Squares(x, y);
    var n, d := (x + y) * (x + y), 2.0 * (x * x + y * y);
    if d != 0.0 {
      Ratio(n, d);
      assert Jain(x, y) == n / d;
    }
  }

  // ---- Percentiles ----

  predicate Rising(s: seq<real>) {
    forall i, j :: 0 <= i <= j < |s| ==> s[i] <= s[j]
  }

  lemma RisingFrom(first: real, rest: seq<real>)
    requires Rising(rest) && forall y :: y in multiset(rest) ==> first <= y
    ensures Rising([first] + rest)
  {
    assert forall i :: 0 <= i < |rest| ==> rest[i] in multiset(rest);
  }

  function Put(x: real, s: seq<real>): (r: seq<real>)
    ensures multiset(r) == multiset{x} + multiset(s)
  {
    if s == [] || x <= s[0] then [x] + s
    else
      assert s == [s[0]] + s[1..];
      [s[0]] + Put(x, s[1..])
  }

  lemma {:induction false} PutRises(x: real, s: seq<real>)
    requires Rising(s)
    ensures Rising(Put(x, s))
  {
    if s == [] || x <= s[0] {
      RisingFrom(x, s);
    } else {
      PutRises(x, s[1..]);
      assert forall y :: y in multiset(s[1..]) ==> y in s[1..];
      RisingFrom(s[0], Put(x, s[1..]));
    }
  }

  /** Python's sorted. */
  function Ranked(s: seq<real>): (r: seq<real>)
    ensures Rising(r) && multiset(r) == multiset(s)
  {
    if s == [] then []
    else
      assert s == [s[0]] + s[1..];
      PutRises(s[0], Ranked(s[1..]));
      Put(s[0], Ranked(s[1..]))
  }

  function Ceiling(x: real): int {
    if x == x.Floor as real then x.Floor else x.Floor + 1
  }

  function Interpolated(s: seq<real>, position: real): real
    requires 0.0 <= position <= (|s| - 1) as real
  {
    var low, high := position.Floor, Ceiling(position);
    s[low] + (s[high] - s[low]) * (position - low as real)
  }

  function Position(n: nat, ratio: real): (r: real)
    requires 0.0 <= ratio <= 1.0
    ensures 0.0 <= r <= n as real
  {
    TimesRises(0.0, ratio, n as real);
    TimesRises(ratio, 1.0, n as real);
    n as real * ratio
  }

  lemma PositionRises(n: nat, p: real, q: real)
    requires 0.0 <= p <= q <= 1.0
    ensures Position(n, p) <= Position(n, q)
  {
    TimesRises(p, q, n as real);
  }

  lemma RankedLength(values: seq<real>)
    ensures |Ranked(values)| == |values|
  {
    assert |multiset(Ranked(values))| == |Ranked(values)| && |multiset(values)| == |values|;
  }

  function Percentile(values: seq<real>, ratio: real): real
    requires values != [] && 0.0 <= ratio <= 1.0
  {
    RankedLength(values);
    Interpolated(Ranked(values), Position(|values| - 1, ratio))
  }

  /** The values in any rising order. */
  ghost predicate RanksOf(s: seq<real>, values: seq<real>) {
    Rising(s) && multiset(s) == multiset(values)
  }

  /** A ratio that falls on rank k gives the value of that rank; one between two ranks divides
      the distance of their values in the same proportion. */
  lemma PercentileAt(values: seq<real>, s: seq<real>, ratio: real, k: nat, part: real)
    requires values != [] && 0.0 <= ratio <= 1.0 && RanksOf(s, values)
    requires 0.0 <= part < 1.0 && (|values| - 1) as real * ratio == k as real + part
    ensures |s| == |values| && k < |values| && (part > 0.0 ==> k + 1 < |values|)
    ensures Percentile(values, ratio) == if part == 0.0 then s[k] else s[k] + (s[k + 1] - s[k]) * part
  {
    hide Ranked, Interpolated, Position, Rising;
    RankedLength(values);
    OneRising(s, Ranked(values));
    PositionIs(|values| - 1, ratio);
    InterpolatedAt(s, Position(|values| - 1, ratio), k, part);
  }

  lemma PositionIs(n: nat, ratio: real)
    requires 0.0 <= ratio <= 1.0
    ensures Position(n, ratio) == n as real * ratio
  {
  }

  lemma InterpolatedAt(s: seq<real>, x: real, k: nat, part: real)
    requires s != [] && 0.0 <= x <= (|s| - 1) as real && x == k as real + part && 0.0 <= part < 1.0
    ensures k < |s| && (part > 0.0 ==> k + 1 < |s|)
    ensures Interpolated(s, x) == if part == 0.0 then s[k] else s[k] + (s[k + 1] - s[k]) * part
  {
    assert x.Floor == k;
  }

  lemma TailsSame(s: seq<real>, t: seq<real>)
    requires s != [] && t != [] && s[0] == t[0] && multiset(s) == multiset(t)
    ensures multiset(s[1..]) == multiset(t[1..])
  {
    assert s == [s[0]] + s[1..] && t == [t[0]] + t[1..];
    assert multiset(s[1..]) == multiset(s) - multiset{s[0]} && multiset(t[1..]) == multiset(t) - multiset{t[0]};
  }

  lemma SameLeast(s: seq<real>, t: seq<real>)
    requires s != [] && t != [] && Rising(s) && Rising(t) && multiset(s) == multiset(t)
    ensures s[0] == t[0]
  {
    assert s[0] in multiset(t) && t[0] in multiset(s);
    var i :| 0 <= i < |t| && t[i] == s[0];
    var j :| 0 <= j < |s| && s[j] == t[0];
  }

  /** There is one rising order of a multiset. */
  lemma {:induction false} OneRising(s: seq<real>, t: seq<real>)
    requires Rising(s) && Rising(t) && multiset(s) == multiset(t)
    ensures s == t
  {
    assert |multiset(s)| == |s| && |multiset(t)| == |t|;
    if s != [] {
      SameLeast(s, t);
      TailsSame(s, t);
      OneRising(s[1..], t[1..]);
      assert s == [s[0]] + s[1..] && t == [t[0]] + t[1..];
    }
  }

  lemma Weighted(low: real, high: real, v: real, w: real)
    requires low <= high && 0.0 <= v <= w <= 1.0
    ensures low <= low + (high - low) * v <= low + (high - low) * w <= high
  {
    TimesRises(0.0, v, high - low);
    TimesRises(v, w, high - low);
    TimesRises(w, 1.0, high - low);
  }

  lemma InterpolatedWithin(s: seq<real>, p: real)
    requires Rising(s) && 0.0 <= p <= (|s| - 1) as real
    ensures s[p.Floor] <= Interpolated(s, p) <= s[Ceiling(p)]
  {
    Weighted(s[p.Floor], s[Ceiling(p)], p - p.Floor as real, p - p.Floor as real);
  }

  /** Interpolation keeps the order of positions. */
  lemma InterpolatedRises(s: seq<real>, p: real, q: real)
    requires Rising(s) && 0.0 <= p <= q <= (|s| - 1) as real
    ensures Interpolated(s, p) <= Interpolated(s, q)
  {
    InterpolatedWithin(s, p);
    InterpolatedWithin(s, q);
    if p.Floor == q.Floor && Ceiling(p) == Ceiling(q) {
      Weighted(s[p.Floor], s[Ceiling(p)], p - p.Floor as real, q - q.Floor as real);
    } else if p.Floor == q.Floor {
      assert p == p.Floor as real;
      assert Ceiling(p) == p.Floor;
    }
    hide Interpolated;
  }

  /** The reported percentiles are ordered and within the samples' range. */
  lemma PercentilesOrdered(values: seq<real>, p: real, q: real)
    requires values != [] && 0.0 <= p <= q <= 1.0
    ensures Percentile(values, p) <= Percentile(values, q)
    ensures exists i, j :: 0 <= i < |values| && 0 <= j < |values|
                           && values[i] <= Percentile(values, p) && Percentile(values, q) <= values[j]
  {
    RankedLength(values);
    PositionRises(|values| - 1, p, q);
    hide Interpolated, Position, Ranked;
    var s := Ranked(values);
    var x, y := Position(|values| - 1, p), Position(|values| - 1, q);
    InterpolatedRises(s, x, y);
    InterpolatedWithin(s, x);
    InterpolatedWithin(s, y);
    Somewhere(values, x.Floor);
    Somewhere(values, Ceiling(y));
  }

  lemma Somewhere(values: seq<real>, k: nat)
    requires k < |Ranked(values)|
    ensures exists i :: 0 <= i < |values| && values[i] == Ranked(values)[k]
  {
    assert Ranked(values)[k] in multiset(values);
  }

  // ---- One scenario ----

  datatype Problem = MissingSeries | TooLittleOverlap(overlap: int)

  datatype Summary = Summary(duration: real, events: int, rate0: real, rate1: real, jain: real,
                             rtt0: (real, real), rtt1: (real, real))

  predicate Rates(a: seq<Interval>) {
    forall i :: 0 <= i < |a| ==> a[i].rate >= 0.0
  }

  lemma {:induction false} RatesBounded(a: seq<Interval>) returns (high: real)
    requires Rates(a)
    ensures RatesIn(a, 0.0, high)
  {
    high := 0.0;
    if a != [] {
      high := RatesBounded(a[1..]);
      high := if high < a[0].rate then a[0].rate else high;
      forall i | 0 <= i < |a| ensures 0.0 <= a[i].rate <= high {
        assert i > 0 ==> a[i] == a[1..][i - 1];
      }
    }
  }

  lemma NonNegative(m: Measure, a: seq<Interval>, b: seq<Interval>)
    requires (m == Bits0 && Rates(a)) || (m == Bits1 && Rates(b))
    ensures Double(m, a, b) >= 0.0
  {
    var high := RatesBounded(if m == Bits0 then a else b);
    DoubleBounds(m, a, b, 0.0, high);
    TimesLaws(Seconds(Double(Time, a, b)), 0.0, 0.0);
    hide Double, Times;
  }

  /** analyze's loop body; the command line asks for a minimum of at least 250 ms. */
  method AnalyzeScenario(a: seq<Interval>, b: seq<Interval>, minimum: int) returns (r: Result<Summary, Problem>)
    requires Chained(a) && Chained(b) && minimum > 0 && Rates(a) && Rates(b)
    ensures r == Err(MissingSeries) <==> a == [] || b == []
    ensures a != [] && b != [] ==> (r.Ok? <==> Inter(Span(a), Span(b)) >= minimum)
    ensures r.Ok? ==> && r.value.duration == Seconds(Double(Time, a, b)) && r.value.events > 0
                      && Times(r.value.rate0, r.value.duration) == Double(Bits0, a, b)
                      && Times(r.value.rate1, r.value.duration) == Double(Bits1, a, b)
                      && r.value.rate0 >= 0.0 && r.value.rate1 >= 0.0
                      && r.value.jain == Jain(r.value.rate0, r.value.rate1)
                      && r.value.rtt0.0 <= r.value.rtt0.1 && r.value.rtt1.0 <= r.value.rtt1.1
  {
    hide Chained, Double, Inter, Span, Jain, Percentile, Times;
    if a == [] || b == [] {
      return Err(MissingSeries);
    }
    var m := MergeIntervals(a, b);
    DoubleTelescopes(a, b);
    if m.overlap < minimum {
      return Err(TooLittleOverlap(m.overlap));
    }
    NonNegative(Bits0, a, b);
    NonNegative(Bits1, a, b);
    var duration := m.overlap as real / 1000.0;
    Quotient(m.bits0, duration);
    Quotient(m.bits1, duration);
    PercentilesOrdered(m.rtts0, 0.5, 0.95);
    PercentilesOrdered(m.rtts1, 0.5, 0.95);
    var rate0, rate1 := m.bits0 / duration, m.bits1 / duration;
    return Ok(Summary(duration, m.events, rate0, rate1, Jain(rate0, rate1),
                      (Percentile(m.rtts0, 0.5), Percentile(m.rtts0, 0.95)),
                      (Percentile(m.rtts1, 0.5), Percentile(m.rtts1, 0.95))));
  }

  lemma Quotient(bits: real, duration: real)
    requires bits >= 0.0 && duration > 0.0
    ensures bits / duration >= 0.0 && Times(bits / duration, duration) == bits
  {
  }
}
