/** The bus sampler's ring buffers, and the rates it derives from monotonic
    counters. */
module BusSampler {
  import opened Options

  // ---------------------------------------------------------------------
  // Rings and rates
  // ---------------------------------------------------------------------

  /** The newest depth values. */
  function Newest(depth: nat, values: seq<int>): seq<int> {
    if |values| <= depth then values else values[|values| - depth..]
  }

  function Ring(buffer: seq<int>, value: int, depth: nat): seq<int> {
    var longer := buffer + [value];
    if |longer| > depth then longer[|longer| - depth..] else longer
  }

  /** Pushing onto the newest values of a series gives the newest of the longer one. */
  lemma RingKeepsNewest(depth: nat, values: seq<int>, value: int)
    ensures Ring(Newest(depth, values), value, depth) == Newest(depth, values + [value])
  {
    if |values| > depth {
      assert (values[|values| - depth..] + [value])[1..] == (values + [value])[|values| + 1 - depth..];
    }
  }

  function NonNegativeDelta(prev: int, cur: int): (d: int)
    ensures d >= 0 && d >= cur - prev && (d == 0 || d == cur - prev)
  {
    if cur < prev then 0 else cur - prev
  }

  /** The counter readings a series had, a pass that could not read it left out. */
  function Known(readings: seq<Option<int>>): seq<int>
    decreases |readings|
  {
    if readings == [] then []
    else
      var last := readings[|readings| - 1];
      Known(readings[..|readings| - 1]) + if last.Some? then [last.value] else []
  }

  function LastOf(values: seq<int>): Option<int> {
    if values == [] then None else Some(values[|values| - 1])
  }

  /** One pass's rate: zero on a first or a failed reading. */
  function Rate(prev: Option<int>, reading: Option<int>): int {
    if prev.Some? && reading.Some? then NonNegativeDelta(prev.value, reading.value) else 0
  }

  function Rates(readings: seq<Option<int>>): (r: seq<int>)
    ensures |r| == |readings|
    decreases |readings|
  {
    if readings == [] then []
    else
      var init := readings[..|readings| - 1];
      Rates(init) + [Rate(LastOf(Known(init)), readings[|readings| - 1])]
  }

  function Sum(values: seq<int>): int
    decreases |values|
  {
    if values == [] then 0 else Sum(values[..|values| - 1]) + values[|values| - 1]
  }

  /** How much a counter grew over its readings, a reset counting for nothing. */
  function Growth(values: seq<int>): int
    decreases |values|
  {
    if |values| < 2 then 0
    else Growth(values[..|values| - 1]) + NonNegativeDelta(values[|values| - 2], values[|values| - 1])
  }

  /** The rates add up to the growth between known readings, so a pass that could
      not read the counter is caught up by the next that could. */
  lemma {:induction false} RatesSumToGrowth(readings: seq<Option<int>>)
    ensures Sum(Rates(readings)) == Growth(Known(readings))
    decreases |readings|
  {
    if readings != [] {
      var init, last := readings[..|readings| - 1], readings[|readings| - 1];
      RatesSumToGrowth(init);
      assert Rates(readings)[..|init|] == Rates(init);
      var known := Known(init);
      if last.Some? {
        assert (known + [last.value])[..|known|] == known;
      } else {
        assert Known(readings) == known;
      }
    }
  }

  /** Without a reset that is simply last minus first. */
  lemma {:induction false} SteadyGrowth(values: seq<int>)
    requires values != [] && forall i, j :: 0 <= i < j < |values| ==> values[i] <= values[j]
    ensures Growth(values) == values[|values| - 1] - values[0]
    decreases |values|
  {
    if |values| > 1 {
      SteadyGrowth(values[..|values| - 1]);
    }
  }

  // A failed server metric repeats its last sample; with none there is nothing to repeat.
  function Carried(readings: seq<Option<int>>): seq<int>
    decreases |readings|
  {
    if readings == [] then []
    else
      var init, last := Carried(readings[..|readings| - 1]), readings[|readings| - 1];
      if last.Some? then init + [last.value]
      else if init == [] then []
      else init + [init[|init| - 1]]
  }

  /** Every pass adds the last value known by then, and none does before there is one. */
  lemma {:induction false} CarriedIsLastKnown(readings: seq<Option<int>>)
    ensures LastOf(Carried(readings)) == LastOf(Known(readings))
    ensures readings != [] ==>
      Carried(readings) == Carried(readings[..|readings| - 1]) +
        (match LastOf(Known(readings)) case None => [] case Some(v) => [v])
    decreases |readings|
  {
    if readings != [] {
      CarriedIsLastKnown(readings[..|readings| - 1]);
    }
  }

  method RingOrCarry(buffer: seq<int>, value: int, ok: bool, depth: nat, ghost readings: seq<Option<int>>)
    returns (r: seq<int>)
    requires depth > 0 && buffer == Newest(depth, Carried(readings))
    ensures r == Newest(depth, Carried(readings + [if ok then Some(value) else None]))
  {
    ghost var next := readings + [if ok then Some(value) else None];
    assert next[..|readings|] == readings;
    var sample := value;
    if !ok {
      if |buffer| == 0 {
        return buffer;
      }
      sample := buffer[|buffer| - 1];
    }
    r := Ring(buffer, sample, depth);
    RingKeepsNewest(depth, Carried(readings), sample);
  }

  // ---------------------------------------------------------------------
  // One pass over a set of series
  // ---------------------------------------------------------------------

  /** What one pass has for a stream or a group: its metrics in column order, and
      its counter if it could be read. */
  datatype Sample = Sample(values: seq<int>, reading: Option<int>)

  /** A series' ring per metric, its ring of rates, the counter it last read. */
  datatype History = History(rings: seq<seq<int>>, rates: seq<int>, prev: Option<int>)

  function Blank(columns: nat): History {
    History(seq(columns, i => []), [], None)
  }

  function Find(histories: map<string, History>, key: string, columns: nat): History {
    if key in histories then histories[key] else Blank(columns)
  }

  function Pushed(depth: nat, h: History, s: Sample): History
    requires |h.rings| == |s.values|
  {
    History(seq(|h.rings|, i requires 0 <= i < |h.rings| => Ring(h.rings[i], s.values[i], depth)),
            Ring(h.rates, Rate(h.prev, s.reading), depth),
            if s.reading.Some? then s.reading else h.prev)
  }

  ghost predicate Shaped(columns: nat, histories: map<string, History>) {
    forall k :: k in histories ==> |histories[k].rings| == columns
  }

  predicate ShapedPass(columns: nat, samples: map<string, Sample>) {
    forall k :: k in samples ==> |samples[k].values| == columns
  }

  /** Every live series pushed once; every other one dropped. */
  function Recorded(depth: nat, columns: nat, histories: map<string, History>, samples: map<string, Sample>)
    : (r: map<string, History>)
    requires Shaped(columns, histories) && ShapedPass(columns, samples)
    ensures Shaped(columns, r)
  {
    map k | k in samples :: Pushed(depth, Find(histories, k, columns), samples[k])
  }

  // ---------------------------------------------------------------------
  // Any number of passes
  // ---------------------------------------------------------------------

  predicate Passes(columns: nat, passes: seq<map<string, Sample>>) {
    forall i :: 0 <= i < |passes| ==> ShapedPass(columns, passes[i])
  }

  function After(depth: nat, columns: nat, passes: seq<map<string, Sample>>): (r: map<string, History>)
    requires Passes(columns, passes)
    ensures Shaped(columns, r)
    decreases |passes|
  {
    if passes == [] then map[]
    else
      var init, last := passes[..|passes| - 1], passes[|passes| - 1];
      assert ShapedPass(columns, last);
      Recorded(depth, columns, After(depth, columns, init), last)
  }

  /** The samples of a series since it was last missing, oldest first. */
  function Since(passes: seq<map<string, Sample>>, key: string): seq<Sample>
    decreases |passes|
  {
    if passes == [] || key !in passes[|passes| - 1] then []
    else Since(passes[..|passes| - 1], key) + [passes[|passes| - 1][key]]
  }

  function Readings(samples: seq<Sample>): (r: seq<Option<int>>)
    ensures |r| == |samples| && forall i :: 0 <= i < |r| ==> r[i] == samples[i].reading
  {
    seq(|samples|, i requires 0 <= i < |samples| => samples[i].reading)
  }

  function Column(samples: seq<Sample>, c: nat): (r: seq<int>)
    requires forall i :: 0 <= i < |samples| ==> c < |samples[i].values|
    ensures |r| == |samples| && forall i :: 0 <= i < |r| ==> r[i] == samples[i].values[c]
  {
    seq(|samples|, i requires 0 <= i < |samples| => samples[i].values[c])
  }

  lemma {:induction false} SinceIsShaped(columns: nat, passes: seq<map<string, Sample>>, key: string)
    requires Passes(columns, passes)
    ensures forall i :: 0 <= i < |Since(passes, key)| ==> |Since(passes, key)[i].values| == columns
    decreases |passes|
  {
    if passes != [] && key in passes[|passes| - 1] {
      assert ShapedPass(columns, passes[|passes| - 1]);
      SinceIsShaped(columns, passes[..|passes| - 1], key);
    }
  }

  /** What one series' history is, in terms of its samples alone. */
  ghost predicate Describes(depth: nat, columns: nat, h: History, samples: seq<Sample>) {
    && (forall i :: 0 <= i < |samples| ==> |samples[i].values| == columns)
    && |h.rings| == columns
    && (forall c :: 0 <= c < columns ==> h.rings[c] == Newest(depth, Column(samples, c)))
    && h.rates == Newest(depth, Rates(Readings(samples)))
    && h.prev == LastOf(Known(Readings(samples)))
  }

  lemma PushDescribes(depth: nat, columns: nat, h: History, samples: seq<Sample>, s: Sample)
    requires Describes(depth, columns, h, samples) && |s.values| == columns
    ensures Describes(depth, columns, Pushed(depth, h, s), samples + [s])
  {
    var next := samples + [s];
    ReadingsGrow(samples, s);
    RingKeepsNewest(depth, Rates(Readings(samples)), Rate(h.prev, s.reading));
    hide Ring, Newest, Rates, Known, Rate;
    forall c | 0 <= c < columns ensures Pushed(depth, h, s).rings[c] == Newest(depth, Column(next, c)) {
      assert Column(next, c) == Column(samples, c) + [s.values[c]];
      RingKeepsNewest(depth, Column(samples, c), s.values[c]);
    }
  }

  lemma ReadingsGrow(samples: seq<Sample>, s: Sample)
    ensures var readings := Readings(samples);
            && Rates(Readings(samples + [s])) == Rates(readings) + [Rate(LastOf(Known(readings)), s.reading)]
            && LastOf(Known(Readings(samples + [s]))) == if s.reading.Some? then s.reading else LastOf(Known(readings))
  {
    assert Readings(samples + [s]) == Readings(samples) + [s.reading];
    assert Readings(samples + [s])[..|samples|] == Readings(samples);
  }

  /** After any passes, exactly the series of the last pass are kept, and each
      one's rings and rates are the newest values since it was last missing. */
  lemma {:induction false} SeriesAreTheNewestSamples(depth: nat, columns: nat, passes: seq<map<string, Sample>>, key: string)
    requires Passes(columns, passes)
    ensures key in After(depth, columns, passes) <==> passes != [] && key in passes[|passes| - 1]
    ensures key in After(depth, columns, passes) ==>
      Describes(depth, columns, After(depth, columns, passes)[key], Since(passes, key))
    decreases |passes|
  {
    if passes != [] && key in passes[|passes| - 1] {
      var init, last := passes[..|passes| - 1], passes[|passes| - 1];
      assert ShapedPass(columns, last);
      SeriesAreTheNewestSamples(depth, columns, init, key);
      var before := Find(After(depth, columns, init), key, columns);
      if key !in After(depth, columns, init) {
        assert forall c :: 0 <= c < columns ==> Newest(depth, Column([], c)) == [];
        assert Describes(depth, columns, before, []);
      }
      PushDescribes(depth, columns, before, Since(init, key), last[key]);
    }
  }

  /** While a series stays listed, the rates it reported sum to its counter's
      growth; with no more passes than the ring is deep, the ring holds them all. */
  lemma ReportedRatesAreTheGrowth(depth: nat, columns: nat, passes: seq<map<string, Sample>>, key: string)
    requires Passes(columns, passes) && key in After(depth, columns, passes)
    ensures var samples := Since(passes, key);
            |samples| <= depth ==>
              Sum(After(depth, columns, passes)[key].rates) == Growth(Known(Readings(samples)))
  {
    SeriesAreTheNewestSamples(depth, columns, passes, key);
    RatesSumToGrowth(Readings(Since(passes, key)));
  }

  // ---------------------------------------------------------------------
  // The sampler
  // ---------------------------------------------------------------------

  datatype GroupStat = GroupStat(name: string, consumers: int, pending: int, lag: int, oldestPending: int)

  datatype StreamStat = StreamStat(stream: string, length: int, groups: seq<GroupStat>)

  function GroupSeriesKey(stream: string, group: string): string {
    stream + ['\0'] + group
  }

  predicate NoNul(s: string) {
    forall i :: 0 <= i < |s| ==> s[i] != '\0'
  }

  /** One stream and one group per key: the separator occurs in neither name. */
  lemma GroupKeysAreDistinct(s: string, g: string, t: string, h: string)
    requires NoNul(s) && NoNul(t)
    ensures GroupSeriesKey(s, g) == GroupSeriesKey(t, h) <==> s == t && g == h
  {
    var a, b := GroupSeriesKey(s, g), GroupSeriesKey(t, h);
    if a == b {
      assert a[|s|] == '\0' && b[|t|] == '\0';
      assert forall i :: 0 <= i < |s| ==> a[i] != '\0';
      assert forall i :: 0 <= i < |t| ==> b[i] != '\0';
      assert |s| == |t|;
      assert s == a[..|s|] == b[..|t|] == t;
      assert g == a[|s| + 1..] == b[|t| + 1..] == h;
    }
  }

  /** The rows a pass lists: a stream once, a group once in its stream. */
  ghost predicate ProperRows(rows: seq<StreamStat>) {
    && (forall i, j :: 0 <= i < j < |rows| ==> rows[i].stream != rows[j].stream)
    && (forall i :: 0 <= i < |rows| ==> NoNul(rows[i].stream) && ProperGroups(rows[i].groups))
  }

  ghost predicate ProperGroups(groups: seq<GroupStat>) {
    forall i, j :: 0 <= i < j < |groups| ==> groups[i].name != groups[j].name
  }

  function Lookup(counters: map<string, int>, key: string): Option<int> {
    if key in counters then Some(counters[key]) else None
  }

  function StreamSample(row: StreamStat, published: map<string, int>): Sample {
    Sample([row.length], Lookup(published, row.stream))
  }

  function GroupSample(stream: string, g: GroupStat, consumed: map<string, int>): Sample {
    Sample([g.consumers, g.pending, g.lag, g.oldestPending], Lookup(consumed, GroupSeriesKey(stream, g.name)))
  }

  function StreamSamples(rows: seq<StreamStat>, published: map<string, int>): (r: map<string, Sample>)
    ensures ShapedPass(1, r)
    decreases |rows|
  {
    if rows == [] then map[]
    else
      var last := rows[|rows| - 1];
      StreamSamples(rows[..|rows| - 1], published)[last.stream := StreamSample(last, published)]
  }

  function GroupsOf(stream: string, groups: seq<GroupStat>, consumed: map<string, int>): (r: map<string, Sample>)
    ensures ShapedPass(4, r)
    decreases |groups|
  {
    if groups == [] then map[]
    else
      var last := groups[|groups| - 1];
      GroupsOf(stream, groups[..|groups| - 1], consumed)[
        GroupSeriesKey(stream, last.name) := GroupSample(stream, last, consumed)]
  }

  function GroupSamples(rows: seq<StreamStat>, consumed: map<string, int>): (r: map<string, Sample>)
    ensures ShapedPass(4, r)
    decreases |rows|
  {
    if rows == [] then map[]
    else
      var last := rows[|rows| - 1];
      GroupSamples(rows[..|rows| - 1], consumed) + GroupsOf(last.stream, last.groups, consumed)
  }

  lemma {:induction false} StreamKeys(rows: seq<StreamStat>, published: map<string, int>, key: string)
    ensures key in StreamSamples(rows, published) <==> exists i :: 0 <= i < |rows| && rows[i].stream == key
    decreases |rows|
  {
    if rows != [] {
      var n := |rows| - 1;
      StreamKeys(rows[..n], published, key);
      assert rows[n].stream == key ==> exists i :: 0 <= i < |rows| && rows[i].stream == key;
      if i :| 0 <= i < n && rows[..n][i].stream == key {
        assert rows[i].stream == key;
      }
      if i :| 0 <= i < n && rows[i].stream == key {
        assert rows[..n][i].stream == key;
      }
    }
  }

  lemma {:induction false} GroupKeys(stream: string, groups: seq<GroupStat>, consumed: map<string, int>, key: string)
    ensures key in GroupsOf(stream, groups, consumed) <==>
      exists i :: 0 <= i < |groups| && GroupSeriesKey(stream, groups[i].name) == key
    decreases |groups|
  {
    if groups != [] {
      var n := |groups| - 1;
      GroupKeys(stream, groups[..n], consumed, key);
      if i :| 0 <= i < n && GroupSeriesKey(stream, groups[..n][i].name) == key {
        assert GroupSeriesKey(stream, groups[i].name) == key;
      }
      if i :| 0 <= i < n && GroupSeriesKey(stream, groups[i].name) == key {
        assert GroupSeriesKey(stream, groups[..n][i].name) == key;
      }
    }
  }

  // No group of an earlier stream has a key of this one.
  lemma {:induction false} EarlierGroupsAreOthers(rows: seq<StreamStat>, consumed: map<string, int>, stream: string, group: string)
    requires NoNul(stream) && forall i :: 0 <= i < |rows| ==> NoNul(rows[i].stream) && rows[i].stream != stream
    ensures GroupSeriesKey(stream, group) !in GroupSamples(rows, consumed)
    decreases |rows|
  {
    if rows != [] {
      var last := rows[|rows| - 1];
      EarlierGroupsAreOthers(rows[..|rows| - 1], consumed, stream, group);
      GroupKeys(last.stream, last.groups, consumed, GroupSeriesKey(stream, group));
      forall i | 0 <= i < |last.groups| ensures GroupSeriesKey(last.stream, last.groups[i].name) != GroupSeriesKey(stream, group) {
        GroupKeysAreDistinct(last.stream, last.groups[i].name, stream, group);
      }
    }
  }

  lemma {:induction false} StreamIsSampled(rows: seq<StreamStat>, published: map<string, int>, i: nat)
    requires i < |rows| && forall a, b :: 0 <= a < b < |rows| ==> rows[a].stream != rows[b].stream
    ensures rows[i].stream in StreamSamples(rows, published)
    ensures StreamSamples(rows, published)[rows[i].stream] == StreamSample(rows[i], published)
    decreases |rows|
  {
    var n := |rows| - 1;
    if i < n {
      StreamIsSampled(rows[..n], published, i);
    }
  }

  lemma {:induction false} GroupIsSampled(rows: seq<StreamStat>, consumed: map<string, int>, i: nat, j: nat)
    requires ProperRows(rows) && i < |rows| && j < |rows[i].groups|
    ensures var key := GroupSeriesKey(rows[i].stream, rows[i].groups[j].name);
            && key in GroupSamples(rows, consumed)
            && GroupSamples(rows, consumed)[key] == GroupSample(rows[i].stream, rows[i].groups[j], consumed)
    decreases |rows|
  {
    hide GroupSample;
    var n := |rows| - 1;
    var last, g := rows[n], rows[i].groups[j];
    if i < n {
      assert ProperRows(rows[..n]);
      GroupIsSampled(rows[..n], consumed, i, j);
      GroupKeys(last.stream, last.groups, consumed, GroupSeriesKey(rows[i].stream, g.name));
      forall k | 0 <= k < |last.groups|
        ensures GroupSeriesKey(last.stream, last.groups[k].name) != GroupSeriesKey(rows[i].stream, g.name) {
        GroupKeysAreDistinct(last.stream, last.groups[k].name, rows[i].stream, g.name);
      }
    } else {
      GroupOfStream(last.stream, last.groups, consumed, j);
    }
  }

  lemma {:induction false} GroupOfStream(stream: string, groups: seq<GroupStat>, consumed: map<string, int>, j: nat)
    requires NoNul(stream) && ProperGroups(groups) && j < |groups|
    ensures GroupSeriesKey(stream, groups[j].name) in GroupsOf(stream, groups, consumed)
    ensures GroupsOf(stream, groups, consumed)[GroupSeriesKey(stream, groups[j].name)] == GroupSample(stream, groups[j], consumed)
    decreases |groups|
  {
    hide GroupSample;
    var n := |groups| - 1;
    if j < n {
      GroupOfStream(stream, groups[..n], consumed, j);
      GroupKeysAreDistinct(stream, groups[j].name, stream, groups[n].name);
    }
  }

  predicate EndsIn(ring: seq<int>, value: int) {
    ring != [] && ring[|ring| - 1] == value
  }

  /** After a pass each listed stream's rings end in that row's own numbers, and its
      counter is the one published for it. */
  lemma StreamRowIsNewest(depth: nat, was: map<string, History>, rows: seq<StreamStat>, published: map<string, int>, i: nat)
    requires depth > 0 && ProperRows(rows) && i < |rows| && Shaped(1, was)
    ensures var now := Recorded(depth, 1, was, StreamSamples(rows, published));
            && rows[i].stream in now
            && EndsIn(now[rows[i].stream].rings[0], rows[i].length)
            && (rows[i].stream in published ==> now[rows[i].stream].prev == Some(published[rows[i].stream]))
  {
    StreamIsSampled(rows, published, i);
    hide StreamSamples;
  }

  /** And each listed group's: consumers, pending, lag, oldest pending, with the
      counter consumed under its stream and name. */
  lemma GroupRowIsNewest(depth: nat, was: map<string, History>, rows: seq<StreamStat>, consumed: map<string, int>, i: nat, j: nat)
    requires depth > 0 && ProperRows(rows) && i < |rows| && j < |rows[i].groups| && Shaped(4, was)
    ensures var now := Recorded(depth, 4, was, GroupSamples(rows, consumed));
            var key, g := rows[i].stream + "\0" + rows[i].groups[j].name, rows[i].groups[j];
            && key in now && |now[key].rings| == 4
            && EndsIn(now[key].rings[0], g.consumers) && EndsIn(now[key].rings[1], g.pending)
            && EndsIn(now[key].rings[2], g.lag) && EndsIn(now[key].rings[3], g.oldestPending)
            && (key in consumed ==> now[key].prev == Some(consumed[key]))
  {
    GroupIsSampled(rows, consumed, i, j);
    assert rows[i].stream + "\0" + rows[i].groups[j].name == GroupSeriesKey(rows[i].stream, rows[i].groups[j].name);
    hide GroupSamples, GroupSeriesKey;
  }

  /** Mid-pass: the live series pushed, the rest as they were. */
  ghost predicate Midway(depth: nat, columns: nat, was: map<string, History>, now: map<string, History>,
                         live: map<string, Sample>)
  {
    && Shaped(columns, was) && ShapedPass(columns, live)
    && (forall k :: k in now <==> k in was || k in live)
    && (forall k :: k in live ==> now[k] == Pushed(depth, Find(was, k, columns), live[k]))
    && (forall k :: k in was && k !in live ==> now[k] == was[k])
  }

  lemma Unstarted(depth: nat, columns: nat, was: map<string, History>)
    requires Shaped(columns, was)
    ensures Midway(depth, columns, was, was, map[])
  {
  }

  class Sampler {
    const depth: nat
    var streamHist: map<string, History>
    var groupHist: map<string, History>

    constructor (depth: nat)
      ensures this.depth == depth && streamHist == map[] && groupHist == map[]
    {
      this.depth, streamHist, groupHist := depth, map[], map[];
    }

    /** One pass: the histories become exactly the listed rows' histories, each one
        sample longer. */
    method RecordStreamMetrics(rows: seq<StreamStat>, published: map<string, int>, consumed: map<string, int>)
      requires ProperRows(rows) && Shaped(1, streamHist) && Shaped(4, groupHist)
      modifies this
      ensures Shaped(1, streamHist) && Shaped(4, groupHist)
      ensures streamHist == Recorded(depth, 1, old(streamHist), StreamSamples(rows, published))
      ensures groupHist == Recorded(depth, 4, old(groupHist), GroupSamples(rows, consumed))
    {
      Unstarted(depth, 1, streamHist);
      Unstarted(depth, 4, groupHist);
      NoSamples(rows, published, consumed);
      hide *;
      var liveStreams: set<string>, liveGroups: set<string> := {}, {};
      for i := 0 to |rows|
        invariant liveStreams == StreamSamples(rows[..i], published).Keys
        invariant liveGroups == GroupSamples(rows[..i], consumed).Keys
        invariant Midway(depth, 1, old(streamHist), streamHist, StreamSamples(rows[..i], published))
        invariant Midway(depth, 4, old(groupHist), groupHist, GroupSamples(rows[..i], consumed))
      {
        var keys := RecordRow(rows, i, published, consumed, old(streamHist), old(groupHist));
        SampleKeysGrow(rows, i, published, consumed);
        liveStreams := liveStreams + {rows[i].stream};
        liveGroups := liveGroups + keys;
      }
      assert rows[..|rows|] == rows;
      streamHist := Prune(depth, 1, old(streamHist), streamHist, StreamSamples(rows, published), liveStreams);
      groupHist := Prune(depth, 4, old(groupHist), groupHist, GroupSamples(rows, consumed), liveGroups);
    }

    method RecordRow(rows: seq<StreamStat>, i: nat, published: map<string, int>, consumed: map<string, int>,
                     ghost streamsWere: map<string, History>, ghost groupsWere: map<string, History>)
      returns (keys: set<string>)
      requires i < |rows| && ProperRows(rows)
      requires Midway(depth, 1, streamsWere, streamHist, StreamSamples(rows[..i], published))
      requires Midway(depth, 4, groupsWere, groupHist, GroupSamples(rows[..i], consumed))
      modifies this
      ensures Midway(depth, 1, streamsWere, streamHist, StreamSamples(rows[..i + 1], published))
      ensures Midway(depth, 4, groupsWere, groupHist, GroupSamples(rows[..i + 1], consumed))
      ensures keys == GroupsOf(rows[i].stream, rows[i].groups, consumed).Keys
    {
      hide Midway;
      var row := rows[i];
      StreamKeys(rows[..i], published, row.stream);
      SamplesGrow(rows, i, published, consumed);
      hide StreamSamples, GroupSamples, StreamSample;
      streamHist := Push(depth, 1, streamsWere, streamHist, StreamSamples(rows[..i], published), row.stream,
                         StreamSample(row, published));
      keys := RecordGroups(row, consumed, rows[..i], groupsWere);
    }

    method RecordGroups(row: StreamStat, consumed: map<string, int>, ghost before: seq<StreamStat>,
                        ghost was: map<string, History>) returns (keys: set<string>)
      requires NoNul(row.stream) && ProperGroups(row.groups)
      requires forall i :: 0 <= i < |before| ==> NoNul(before[i].stream) && before[i].stream != row.stream
      requires Midway(depth, 4, was, groupHist, GroupSamples(before, consumed))
      modifies this`groupHist
      ensures keys == GroupsOf(row.stream, row.groups, consumed).Keys
      ensures Midway(depth, 4, was, groupHist, GroupSamples(before, consumed) + GroupsOf(row.stream, row.groups, consumed))
    {
      hide Midway, GroupSamples;
      keys := {};
      ghost var earlier := GroupSamples(before, consumed);
      assert earlier + GroupsOf(row.stream, row.groups[..0], consumed) == earlier;
      for j := 0 to |row.groups|
        invariant keys == GroupsOf(row.stream, row.groups[..j], consumed).Keys
        invariant Midway(depth, 4, was, groupHist, earlier + GroupsOf(row.stream, row.groups[..j], consumed))
      {
        var g := row.groups[j];
        var key := GroupSeriesKey(row.stream, g.name);
        ghost var live := GroupsOf(row.stream, row.groups[..j], consumed);
        assert row.groups[..j + 1][..j] == row.groups[..j];
        EarlierGroupsAreOthers(before, consumed, row.stream, g.name);
        NewGroupKey(row.stream, row.groups, consumed, j);
        groupHist := Push(depth, 4, was, groupHist, earlier + live, key, GroupSample(row.stream, g, consumed));
        keys := keys + {key};
        OverlayGrows(earlier, live, key, GroupSample(row.stream, g, consumed));
      }
      assert row.groups[..|row.groups|] == row.groups;
    }
  }

  lemma NoSamples(rows: seq<StreamStat>, published: map<string, int>, consumed: map<string, int>)
    ensures StreamSamples(rows[..0], published) == map[] && GroupSamples(rows[..0], consumed) == map[]
  {
  }

  lemma SamplesGrow(rows: seq<StreamStat>, i: nat, published: map<string, int>, consumed: map<string, int>)
    requires i < |rows|
    ensures StreamSamples(rows[..i + 1], published) ==
      StreamSamples(rows[..i], published)[rows[i].stream := StreamSample(rows[i], published)]
    ensures GroupSamples(rows[..i + 1], consumed) ==
      GroupSamples(rows[..i], consumed) + GroupsOf(rows[i].stream, rows[i].groups, consumed)
    ensures |StreamSample(rows[i], published).values| == 1
  {
    assert rows[..i + 1][..i] == rows[..i];
  }

  lemma SampleKeysGrow(rows: seq<StreamStat>, i: nat, published: map<string, int>, consumed: map<string, int>)
    requires i < |rows|
    ensures StreamSamples(rows[..i + 1], published).Keys == StreamSamples(rows[..i], published).Keys + {rows[i].stream}
    ensures GroupSamples(rows[..i + 1], consumed).Keys ==
      GroupSamples(rows[..i], consumed).Keys + GroupsOf(rows[i].stream, rows[i].groups, consumed).Keys
  {
    hide *;
    SamplesGrow(rows, i, published, consumed);
  }

  lemma OverlayGrows(earlier: map<string, Sample>, live: map<string, Sample>, key: string, s: Sample)
    ensures earlier + live[key := s] == (earlier + live)[key := s]
  {
  }

  lemma NewGroupKey(stream: string, groups: seq<GroupStat>, consumed: map<string, int>, j: nat)
    requires NoNul(stream) && ProperGroups(groups) && j < |groups|
    ensures GroupSeriesKey(stream, groups[j].name) !in GroupsOf(stream, groups[..j], consumed)
  {
    GroupKeys(stream, groups[..j], consumed, GroupSeriesKey(stream, groups[j].name));
    forall i | 0 <= i < j ensures GroupSeriesKey(stream, groups[i].name) != GroupSeriesKey(stream, groups[j].name) {
      GroupKeysAreDistinct(stream, groups[i].name, stream, groups[j].name);
    }
  }

  /** One series' turn: found or created, its rate taken, every ring pushed. */
  method Push(depth: nat, columns: nat, ghost was: map<string, History>, now: map<string, History>,
              ghost live: map<string, Sample>, key: string, s: Sample) returns (next: map<string, History>)
    requires Midway(depth, columns, was, now, live) && key !in live && |s.values| == columns
    ensures Midway(depth, columns, was, next, live[key := s])
  {
    var h := if key in now then now[key] else Blank(columns);
    assert h == Find(was, key, columns);
    var rate := 0;
    var prev := h.prev;
    if s.reading.Some? {
      if h.prev.Some? {
        rate := NonNegativeDelta(h.prev.value, s.reading.value);
      }
      prev := s.reading;
    }
    var rings := h.rings;
    for c := 0 to columns
      invariant |rings| == columns
      invariant forall d :: 0 <= d < c ==> rings[d] == Ring(h.rings[d], s.values[d], depth)
      invariant forall d :: c <= d < columns ==> rings[d] == h.rings[d]
    {
      rings := rings[c := Ring(rings[c], s.values[c], depth)];
    }
    next := now[key := History(rings, Ring(h.rates, rate, depth), prev)];
    assert rings == Pushed(depth, h, s).rings;
  }

  /** Dropping the history of every series the pass did not list. */
  method Prune(depth: nat, columns: nat, ghost was: map<string, History>, now: map<string, History>,
               ghost live: map<string, Sample>, liveKeys: set<string>) returns (kept: map<string, History>)
    requires Midway(depth, columns, was, now, live) && liveKeys == live.Keys
    ensures kept == Recorded(depth, columns, was, live)
  {
    kept := now;
    var remaining := now.Keys;
    while remaining != {}
      invariant remaining <= now.Keys
      invariant kept.Keys == set k | k in now.Keys && (k in liveKeys || k in remaining)
      invariant forall k :: k in kept ==> kept[k] == now[k]
    {
      ghost var _ := AKey(remaining);
      var k :| k in remaining;
      remaining := remaining - {k};
      if k !in liveKeys {
        kept := kept - {k};
      }
    }
  }

  lemma AKey(keys: set<string>) returns (k: string)
    requires keys != {}
    ensures k in keys
  {
    k :| k in keys;
  }
}
