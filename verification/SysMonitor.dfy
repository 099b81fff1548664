/** The background system state (scheduler/internal/sysmonitor/monitor.go): two writers
    that each load the shared snapshot, change a copy and store it, with nothing to keep
    them apart. */
module SysMonitor {
  import opened Common

  // ------------------------------------------------------------- one line

  datatype Ram = Ram(usedMB: int, totalMB: int)

  /** What the regular expressions match in one tegrastats line.  `readings` are the
      sensor temperatures in the order of the line; a sensor may occur twice. */
  datatype RawLine = RawLine(gpu: Option<real>, ram: Option<Ram>, power: Option<real>, readings: seq<(string, real)>)

  /** tegraFields: what one line reports, None where it does not. */
  datatype Temps = Temps(bySensor: map<string, real>, maxC: real)
  datatype Fields = Fields(gpu: Option<real>, ram: Option<Ram>, power: Option<real>, temps: Option<Temps>)

  /** The value the maximum starts from. */
  const LEAST_TEMP: real := -1000.0

  function BySensor(readings: seq<(string, real)>): map<string, real> {
    if readings == [] then map[]
    else
      var last := readings[|readings| - 1];
      BySensor(readings[..|readings| - 1])[last.0 := last.1]
  }

  function MaxReading(readings: seq<(string, real)>): real {
    if readings == [] then LEAST_TEMP
    else
      var rest, last := MaxReading(readings[..|readings| - 1]), readings[|readings| - 1].1;
      if last > rest then last else rest
  }

  function Parsed(raw: RawLine): Fields {
    Fields(raw.gpu, raw.ram, raw.power,
           if raw.readings == [] then None else Some(Temps(BySensor(raw.readings), MaxReading(raw.readings))))
  }

  /** parseTegrastatsLine, from the matches on. */
  method ParseTegrastatsLine(raw: RawLine) returns (f: Fields)
    ensures f == Parsed(raw)
    ensures f.gpu == raw.gpu && f.ram == raw.ram && f.power == raw.power && HoldsReadings(raw.readings, f.temps)
  {
    var temps: map<string, real> := map[];
    var maxTemp := LEAST_TEMP;
    for i := 0 to |raw.readings|
      invariant temps == BySensor(raw.readings[..i]) && maxTemp == MaxReading(raw.readings[..i])
      invariant i != 0 ==> temps != map[]
    {
      assert raw.readings[..i + 1][..i] == raw.readings[..i];
      var (sensor, value) := raw.readings[i];
      temps := temps[sensor := value];
      assert sensor in temps;
      if value > maxTemp {
        maxTemp := value;
      }
    }
    assert raw.readings[..|raw.readings|] == raw.readings;
    var found: Option<Temps> := None;
    if |temps| > 0 {
      found := Some(Temps(temps, maxTemp));
    }
    f := Fields(raw.gpu, raw.ram, raw.power, found);
    ParsedHoldsReadings(raw);
  }

  /** Reading i is the last one of its sensor. */
  predicate IsLatest(readings: seq<(string, real)>, i: nat)
    requires i < |readings|
  {
    forall j | i < j < |readings| :: readings[j].0 != readings[i].0
  }

  lemma {:induction false} MaxReadingBounds(readings: seq<(string, real)>)
    ensures LEAST_TEMP <= MaxReading(readings)
    ensures forall i | 0 <= i < |readings| :: readings[i].1 <= MaxReading(readings)
    ensures || MaxReading(readings) == LEAST_TEMP
            || exists i :: 0 <= i < |readings| && readings[i].1 == MaxReading(readings)
  {
    if readings != [] {
      var rest := readings[..|readings| - 1];
      MaxReadingBounds(rest);
      assert forall i | 0 <= i < |rest| :: rest[i] == readings[i];
    }
  }

  /** The map holds each sensor's last reading. */
  lemma {:induction false} BySensorIsLatest(readings: seq<(string, real)>, sensor: string)
    ensures sensor in BySensor(readings) <==> exists i :: 0 <= i < |readings| && readings[i].0 == sensor
    ensures sensor in BySensor(readings) ==>
              exists i :: 0 <= i < |readings| && readings[i] == (sensor, BySensor(readings)[sensor])
                  && IsLatest(readings, i)
  {
    if readings != [] {
      var n := |readings| - 1;
      var rest := readings[..n];
      BySensorIsLatest(rest, sensor);
      if readings[n].0 == sensor {
        assert IsLatest(readings, n) && readings[n] == (sensor, BySensor(readings)[sensor]);
      } else if sensor in BySensor(rest) {
        var i :| 0 <= i < |rest| && rest[i] == (sensor, BySensor(rest)[sensor]) && IsLatest(rest, i);
        assert readings[i] == rest[i];
        assert forall j | i < j < n :: readings[j] == rest[j];
        assert IsLatest(readings, i);
      }
    }
  }

  /** MaxTempC is never below any sensor's temperature. */
  lemma MaxCoversSensors(raw: RawLine)
    ensures Parsed(raw).temps.Some? ==>
              forall sensor | sensor in Parsed(raw).temps.value.bySensor ::
                Parsed(raw).temps.value.bySensor[sensor] <= Parsed(raw).temps.value.maxC
  {
    MaxReadingBounds(raw.readings);
    forall sensor | sensor in BySensor(raw.readings)
      ensures BySensor(raw.readings)[sensor] <= MaxReading(raw.readings)
    {
      BySensorIsLatest(raw.readings, sensor);
    }
  }

  /** A hottest reading, not below the start value, that is the last of its sensor. */
  predicate HottestAndLatest(readings: seq<(string, real)>, i: nat)
    requires i < |readings|
  {
    && IsLatest(readings, i) && LEAST_TEMP <= readings[i].1
    && forall j | 0 <= j < |readings| :: readings[j].1 <= readings[i].1
  }

  /** `t` is the highest of the readings. */
  ghost predicate IsHighest(readings: seq<(string, real)>, t: real) {
    && (exists i :: 0 <= i < |readings| && readings[i].1 == t)
    && forall i | 0 <= i < |readings| :: readings[i].1 <= t
  }

  /** MaxTempC is the highest reading across all sensors, as its comment says, exactly when
      some reading is not below -1000. */
  lemma MaxIsHighestIff(readings: seq<(string, real)>)
    requires readings != []
    ensures IsHighest(readings, MaxReading(readings))
            <==> exists i :: 0 <= i < |readings| && LEAST_TEMP <= readings[i].1
  {
    MaxReadingBounds(readings);
    if i :| 0 <= i < |readings| && LEAST_TEMP <= readings[i].1 {
      if MaxReading(readings) == LEAST_TEMP {
        assert readings[i].1 == MaxReading(readings);
      }
    }
  }

  /** A line that the sensor pattern matches and whose maximum is no reading at all. */
  lemma ColdLineHasNoHighest()
    ensures MaxReading([("cpu", -2000.0)]) == LEAST_TEMP && !IsHighest([("cpu", -2000.0)], LEAST_TEMP)
  {
    var readings: seq<(string, real)> := [("cpu", -2000.0)];
    var none: seq<(string, real)> := [];
    assert readings[..0] == none;
    assert readings[0].1 != LEAST_TEMP;
  }

  /** The snapshot shows MaxTempC among its sensors' temperatures exactly when a hottest
      reading of the line, not below -1000, is also the last one of its sensor. */
  lemma MaxIsSomeSensorIff(readings: seq<(string, real)>)
    requires readings != []
    ensures MaxReading(readings) in BySensor(readings).Values
            <==> exists i :: 0 <= i < |readings| && HottestAndLatest(readings, i)
  {
    MaxReadingBounds(readings);
    if MaxReading(readings) in BySensor(readings).Values {
      var sensor :| sensor in BySensor(readings) && BySensor(readings)[sensor] == MaxReading(readings);
      BySensorIsLatest(readings, sensor);
      var i :| 0 <= i < |readings| && readings[i] == (sensor, MaxReading(readings)) && IsLatest(readings, i);
      assert HottestAndLatest(readings, i);
    }
    if i: nat :| i < |readings| && HottestAndLatest(readings, i) {
      HottestIsMax(readings, i);
      LatestIsInMap(readings, i);
    }
  }

  /** A sensor that occurs twice and cools down: the maximum is no sensor's temperature. */
  lemma CooledSensorHidesMax()
    ensures var readings := [("cpu", 50.0), ("cpu", 40.0)];
            MaxReading(readings) == 50.0 && 50.0 !in BySensor(readings).Values
  {
    var readings: seq<(string, real)> := [("cpu", 50.0), ("cpu", 40.0)];
    var first: seq<(string, real)> := [("cpu", 50.0)];
    var none: seq<(string, real)> := [];
    assert readings[..1] == first && first[..0] == none;
    assert BySensor(first) == map["cpu" := 50.0];
    assert BySensor(readings) == map["cpu" := 40.0];
  }

  lemma HottestIsMax(readings: seq<(string, real)>, i: nat)
    requires i < |readings| && HottestAndLatest(readings, i)
    ensures MaxReading(readings) == readings[i].1
  {
    MaxReadingBounds(readings);
  }

  lemma LatestIsInMap(readings: seq<(string, real)>, i: nat)
    requires i < |readings| && IsLatest(readings, i)
    ensures readings[i].1 in BySensor(readings).Values
  {
    var sensor := readings[i].0;
    BySensorIsLatest(readings, sensor);
    var k :| 0 <= k < |readings| && readings[k] == (sensor, BySensor(readings)[sensor]) && IsLatest(readings, k);
    assert k == i;
    assert sensor in BySensor(readings).Keys;
  }

  /** What a line's temperatures say of its readings: there are some exactly if there is a
      reading; the map has exactly the line's sensors, each with its last reading; and the
      maximum is the highest reading if that is at least -1000, and -1000 if not. */
  ghost predicate HoldsReadings(readings: seq<(string, real)>, temps: Option<Temps>) {
    && (temps.Some? <==> readings != [])
    && (temps.Some? ==> MapHolds(readings, temps.value.bySensor) && MaxHolds(readings, temps.value.maxC))
  }

  ghost predicate MapHolds(readings: seq<(string, real)>, bySensor: map<string, real>) {
    && (forall sensor :: sensor in bySensor <==> exists i :: 0 <= i < |readings| && readings[i].0 == sensor)
    && (forall sensor | sensor in bySensor ::
          exists i :: 0 <= i < |readings| && readings[i] == (sensor, bySensor[sensor]) && IsLatest(readings, i))
  }

  ghost predicate MaxHolds(readings: seq<(string, real)>, maxC: real) {
    if exists i :: 0 <= i < |readings| && -1000.0 <= readings[i].1 then IsHighest(readings, maxC)
    else maxC == -1000.0
  }

  lemma ParsedHoldsReadings(raw: RawLine)
    ensures HoldsReadings(raw.readings, Parsed(raw).temps)
  {
    MaxReadingBounds(raw.readings);
    if raw.readings != [] {
      MaxIsHighestIff(raw.readings);
    }
    forall sensor
      ensures sensor in BySensor(raw.readings) <==> exists i :: 0 <= i < |raw.readings| && raw.readings[i].0 == sensor
      ensures sensor in BySensor(raw.readings) ==>
                exists i :: && 0 <= i < |raw.readings| && IsLatest(raw.readings, i)
                            && raw.readings[i] == (sensor, BySensor(raw.readings)[sensor])
    {
      BySensorIsLatest(raw.readings, sensor);
    }
  }

  // -------------------------------------------------------------- snapshots

  /** The part of State that tegrastats lines write. */
  datatype Telemetry = Telemetry(timestamp: int, gpuUtilPct: real, temps: map<string, real>, maxTempC: real,
                                 powerMW: real, ram: Ram, valid: bool)

  datatype State = State(tele: Telemetry, powerMode: string)

  /** A parsed line and the clock reading taken when it is merged. */
  datatype Line = Line(raw: RawLine, now: int)

  const ZERO := Telemetry(0, 0.0, map[], 0.0, 0.0, Ram(0, 0), false)

  /** The merge of applyTegrastatsLine: what a line does not mention is carried forward. */
  function Merge(prev: Telemetry, line: Line): Telemetry {
    var f := Parsed(line.raw);
    Telemetry(line.now,
              if f.gpu.Some? then f.gpu.value else prev.gpuUtilPct,
              if f.temps.Some? then f.temps.value.bySensor else prev.temps,
              if f.temps.Some? then f.temps.value.maxC else prev.maxTempC,
              if f.power.Some? then f.power.value else prev.powerMW,
              if f.ram.Some? then f.ram.value else prev.ram,
              true)
  }

  /** All lines merged one after the other. */
  function Fold(lines: seq<Line>): Telemetry {
    if lines == [] then ZERO else Merge(Fold(lines[..|lines| - 1]), lines[|lines| - 1])
  }

  /** Line i is the last one with a report, and says v. */
  ghost predicate ReportedLast<T(!new)>(report: Line -> Option<T>, lines: seq<Line>, v: T, i: nat)
    requires i < |lines|
  {
    report(lines[i]) == Some(v) && forall j | i < j < |lines| :: report(lines[j]).None?
  }

  /** `v` is what the last line with a report says, or the default if no line has one. */
  ghost predicate LastReport<T(!new)>(report: Line -> Option<T>, lines: seq<Line>, default: T, v: T) {
    || (v == default && forall i | 0 <= i < |lines| :: report(lines[i]).None?)
    || exists i: nat :: i < |lines| && ReportedLast(report, lines, v, i)
  }

  lemma OneMoreReport<T(!new)>(report: Line -> Option<T>, lines: seq<Line>, line: Line, default: T, v: T)
    requires LastReport(report, lines, default, v)
    ensures LastReport(report, lines + [line], default, if report(line).Some? then report(line).value else v)
  {
    var more := lines + [line];
    if report(line).Some? {
      assert ReportedLast(report, more, report(line).value, |lines|);
    } else if i: nat :| i < |lines| && ReportedLast(report, lines, v, i) {
      assert ReportedLast(report, more, v, i);
    }
  }

  function GpuOf(line: Line): Option<real> {
    line.raw.gpu
  }

  function RamOf(line: Line): Option<Ram> {
    line.raw.ram
  }

  function PowerOf(line: Line): Option<real> {
    line.raw.power
  }

  function TempsOf(line: Line): Option<Temps> {
    Parsed(line.raw).temps
  }

  /** Every value in a folded snapshot is the last one reported: lines that do not mention
      it carry it forward, and the map of temperatures and its maximum come from one line. */
  lemma {:induction false} FoldIsLatest(lines: seq<Line>)
    ensures LastReport(GpuOf, lines, 0.0, Fold(lines).gpuUtilPct)
    ensures LastReport(RamOf, lines, Ram(0, 0), Fold(lines).ram)
    ensures LastReport(PowerOf, lines, 0.0, Fold(lines).powerMW)
    ensures LastReport(TempsOf, lines, Temps(map[], 0.0), Temps(Fold(lines).temps, Fold(lines).maxTempC))
    ensures LastTemps(lines, Temps(Fold(lines).temps, Fold(lines).maxTempC))
    ensures Fold(lines).timestamp == if lines == [] then 0 else lines[|lines| - 1].now
  {
    if lines != [] {
      var rest, last := lines[..|lines| - 1], lines[|lines| - 1];
      FoldIsLatest(rest);
      assert lines == rest + [last];
      OneMoreReport(GpuOf, rest, last, 0.0, Fold(rest).gpuUtilPct);
      OneMoreReport(RamOf, rest, last, Ram(0, 0), Fold(rest).ram);
      OneMoreReport(PowerOf, rest, last, 0.0, Fold(rest).powerMW);
      OneMoreReport(TempsOf, rest, last, Temps(map[], 0.0), Temps(Fold(rest).temps, Fold(rest).maxTempC));
    }
    TempsAreOfReadings(lines, Temps(Fold(lines).temps, Fold(lines).maxTempC));
  }

  /** The temperatures are those of the last line that has readings, if there is one. */
  ghost predicate LastTemps(lines: seq<Line>, temps: Temps) {
    || (temps == Temps(map[], 0.0) && forall i | 0 <= i < |lines| :: lines[i].raw.readings == [])
    || exists i: nat :: i < |lines| && TempsFrom(lines, temps, i)
  }

  ghost predicate TempsFrom(lines: seq<Line>, temps: Temps, i: nat)
    requires i < |lines|
  {
    && HoldsReadings(lines[i].raw.readings, Some(temps))
    && forall j | i < j < |lines| :: lines[j].raw.readings == []
  }

  lemma TempsAreOfReadings(lines: seq<Line>, temps: Temps)
    requires LastReport(TempsOf, lines, Temps(map[], 0.0), temps)
    ensures LastTemps(lines, temps)
  {
    forall i | 0 <= i < |lines| ensures TempsOf(lines[i]).None? <==> lines[i].raw.readings == [] {
      ParsedHoldsReadings(lines[i].raw);
    }
    if i: nat :| i < |lines| && ReportedLast(TempsOf, lines, temps, i) {
      ParsedHoldsReadings(lines[i].raw);
      assert TempsFrom(lines, temps, i);
    }
  }

  /** The object, for writers that do not overlap. */
  class Monitor {
    var state: State

    constructor New()
      ensures state == State(ZERO, "")
    {
      state := State(ZERO, "");
    }

    method Current() returns (s: State)
      ensures s == state
    {
      s := state;
    }

    method ApplyTegrastatsLine(raw: RawLine, now: int)
      modifies this
      ensures state == State(Merge(old(state).tele, Line(raw, now)), old(state).powerMode)
      ensures if raw.readings == []
              then state.tele.temps == old(state).tele.temps && state.tele.maxTempC == old(state).tele.maxTempC
              else HoldsReadings(raw.readings, Some(Temps(state.tele.temps, state.tele.maxTempC)))
    {
      var fields := ParseTegrastatsLine(raw);
      var prev := Current();
      var next := prev.tele;
      next := next.(timestamp := now);
      next := next.(valid := true);
      if fields.gpu.Some? {
        next := next.(gpuUtilPct := fields.gpu.value);
      }
      if fields.ram.Some? {
        next := next.(ram := fields.ram.value);
      }
      if fields.power.Some? {
        next := next.(powerMW := fields.power.value);
      }
      if fields.temps.Some? {
        next := next.(temps := fields.temps.value.bySensor);
        next := next.(maxTempC := fields.temps.value.maxC);
      }
      state := prev.(tele := next);
    }

    /** `mode` is None if nvpmodel fails or its output is not understood. */
    method PollNvpmodel(mode: Option<string>)
      modifies this
      ensures state == if mode.Some? then State(old(state).tele, mode.value) else old(state)
    {
      if mode.None? {
        return;
      }
      var prev := Current();
      state := prev.(powerMode := mode.value);
    }
  }

  // ------------------------------------------------- the two writers interleaved

  datatype TegraWriter = TegraIdle | TegraLoaded(line: Line, prev: State, modesThen: nat)
  datatype NvpWriter = NvpIdle | NvpLoaded(mode: string, prev: State, linesThen: nat)

  /** The shared pointer, both writers, and the history.  `lines` are the lines stored so
      far and `modes` the modes stored so far; `linesThen` and `modesThen` say how many
      there were when the other writer loaded. */
  datatype Shared = Shared(
    current: State, tegra: TegraWriter, nvp: NvpWriter,
    lines: seq<Line>, modes: seq<string>, published: seq<State>,
    lineLost: bool,          // some store of nvpmodel's writer undid a line stored in its window
    modeLost: bool)          // some store of tegrastats' writer undid a mode stored in its window

  datatype Step = LoadForLine(line: Line) | StoreLine | LoadForMode(mode: string) | StoreMode

  const START := Shared(State(ZERO, ""), TegraIdle, NvpIdle, [], [], [State(ZERO, "")], false, false)

  predicate Enabled(s: Shared, step: Step) {
    match step
    case LoadForLine(_) => s.tegra.TegraIdle?
    case StoreLine => s.tegra.TegraLoaded?
    case LoadForMode(_) => s.nvp.NvpIdle?
    case StoreMode => s.nvp.NvpLoaded?
  }

  function Publish(s: Shared, next: State): Shared {
    s.(current := next, published := s.published + [next])
  }

  function Apply(s: Shared, step: Step): Shared
    requires Enabled(s, step)
  {
    match step
    case LoadForLine(line) => s.(tegra := TegraLoaded(line, s.current, |s.modes|))
    case StoreLine =>
      var next := State(Merge(s.tegra.prev.tele, s.tegra.line), s.tegra.prev.powerMode);
      Publish(s, next).(tegra := TegraIdle, lines := s.lines + [s.tegra.line],
                        modeLost := s.modeLost || s.tegra.modesThen < |s.modes|)
    case LoadForMode(mode) => s.(nvp := NvpLoaded(mode, s.current, |s.lines|))
    case StoreMode =>
      var next := State(s.nvp.prev.tele, s.nvp.mode);
      Publish(s, next).(nvp := NvpIdle, modes := s.modes + [s.nvp.mode],
                        lineLost := s.lineLost || s.nvp.linesThen < |s.lines|)
  }

  function Exec(s: Shared, steps: seq<Step>): Option<Shared> {
    if steps == [] then Some(s)
    else
      match Exec(s, steps[..|steps| - 1])
      case None => None
      case Some(t) =>
        var step := steps[|steps| - 1];
        if Enabled(t, step) then Some(Apply(t, step)) else None
  }

  // -------------------------------------------------------------- invariant

  ghost predicate Selection(kept: seq<nat>, n: nat) {
    && (forall i, j | 0 <= i < j < |kept| :: kept[i] < kept[j])
    && (forall i | 0 <= i < |kept| :: kept[i] < n)
  }

  function Selected(lines: seq<Line>, kept: seq<nat>): seq<Line>
    requires forall i | 0 <= i < |kept| :: kept[i] < |lines|
  {
    seq(|kept|, i requires 0 <= i < |kept| => lines[kept[i]])
  }

  /** `tele` is the fold of some subsequence of the lines. */
  ghost predicate FoldsSome(lines: seq<Line>, tele: Telemetry) {
    exists kept :: Selection(kept, |lines|) && tele == Fold(Selected(lines, kept))
  }

  ghost predicate Sound(s: Shared, snapshot: State) {
    FoldsSome(s.lines, snapshot.tele) && (snapshot.powerMode == "" || snapshot.powerMode in s.modes)
  }

  function LastMode(modes: seq<string>): string {
    if modes == [] then "" else modes[|modes| - 1]
  }

  ghost predicate Inv(s: Shared) {
    && s.published != [] && s.current == s.published[|s.published| - 1]
    && (forall i | 0 <= i < |s.published| :: Sound(s, s.published[i]))
    && (s.tegra.TegraLoaded? ==> Sound(s, s.tegra.prev) && s.tegra.modesThen <= |s.modes|)
    && (s.nvp.NvpLoaded? ==> Sound(s, s.nvp.prev) && s.nvp.linesThen <= |s.lines|)
    && Faithful(s)
  }

  /** As long as no store has undone a line, the snapshot is the full fold, and as long as
      none has undone a mode, it has the latest mode. */
  ghost predicate Faithful(s: Shared) {
    && (!s.lineLost ==>
          && s.current.tele == Fold(s.lines)
          && (s.tegra.TegraLoaded? ==> s.tegra.prev.tele == Fold(s.lines))
          && (s.nvp.NvpLoaded? && s.nvp.linesThen == |s.lines| ==> s.nvp.prev.tele == Fold(s.lines)))
    && (!s.modeLost ==>
          && s.current.powerMode == LastMode(s.modes)
          && (s.tegra.TegraLoaded? && s.tegra.modesThen == |s.modes| ==> s.tegra.prev.powerMode == LastMode(s.modes)))
  }

  lemma MoreLines(lines: seq<Line>, line: Line, tele: Telemetry)
    requires FoldsSome(lines, tele)
    ensures FoldsSome(lines + [line], tele)
    ensures FoldsSome(lines + [line], Merge(tele, line))
  {
    var kept: seq<nat> :| Selection(kept, |lines|) && tele == Fold(Selected(lines, kept));
    var more := lines + [line];
    assert Selected(more, kept) == Selected(lines, kept);
    assert Selection(kept, |more|);
    var kept': seq<nat> := kept + [|lines|];
    assert Selection(kept', |more|);
    assert Selected(more, kept') == Selected(lines, kept) + [line];
    assert (Selected(lines, kept) + [line])[..|kept|] == Selected(lines, kept);
  }

  lemma StepKeepsInv(s: Shared, step: Step)
    requires Inv(s) && Enabled(s, step)
    ensures Inv(Apply(s, step))
  {
    var t := Apply(s, step);
    StepKeepsFaithful(s, step);
    assert Sound(s, s.current) by {
      assert Sound(s, s.published[|s.published| - 1]);
    }
    forall snapshot | Sound(s, snapshot) ensures Sound(t, snapshot) {
      if step.StoreLine? {
        MoreLines(s.lines, s.tegra.line, snapshot.tele);
      }
    }
    if step.StoreLine? {
      MoreLines(s.lines, s.tegra.line, s.tegra.prev.tele);
    }
    forall i | 0 <= i < |t.published| ensures Sound(t, t.published[i]) {
      if i < |s.published| {
        assert Sound(s, s.published[i]);
      }
    }
  }

  lemma StepKeepsFaithful(s: Shared, step: Step)
    requires Faithful(s) && Enabled(s, step)
    requires s.tegra.TegraLoaded? ==> s.tegra.modesThen <= |s.modes|
    requires s.nvp.NvpLoaded? ==> s.nvp.linesThen <= |s.lines|
    ensures Faithful(Apply(s, step))
  {
    if step.StoreLine? {
      assert (s.lines + [s.tegra.line])[..|s.lines|] == s.lines;
    }
  }

  lemma {:induction false} RunKeepsInv(steps: seq<Step>, s: Shared)
    requires Exec(START, steps) == Some(s)
    ensures Inv(s)
  {
    if steps == [] {
      assert Selected([], []) == [];
      assert Selection([], 0);
    } else {
      var before := Exec(START, steps[..|steps| - 1]).value;
      RunKeepsInv(steps[..|steps| - 1], before);
      StepKeepsInv(before, steps[|steps| - 1]);
    }
  }

  // -------------------------------------------------------------- guarantees

  /** Under any interleaving of the two writers, every snapshot ever published has the
      telemetry of some subsequence of the lines stored so far, merged in order, and a
      power mode that is empty or was polled. */
  lemma SnapshotsFoldSomeLines(steps: seq<Step>, s: Shared, i: nat)
    requires Exec(START, steps) == Some(s) && i < |s.published|
    ensures exists kept :: Selection(kept, |s.lines|) && s.published[i].tele == Fold(Selected(s.lines, kept))
    ensures s.published[i].powerMode == "" || s.published[i].powerMode in s.modes
  {
    RunKeepsInv(steps, s);
    assert Sound(s, s.published[i]);
  }

  /** What any fold keeps: RAM figures of one line, temperatures under the maximum, and
      Valid exactly after at least one line. */
  lemma {:induction false} FoldFacts(lines: seq<Line>)
    ensures Fold(lines).ram == Ram(0, 0) || exists i :: 0 <= i < |lines| && lines[i].raw.ram == Some(Fold(lines).ram)
    ensures forall sensor | sensor in Fold(lines).temps :: Fold(lines).temps[sensor] <= Fold(lines).maxTempC
    ensures Fold(lines).valid <==> lines != []
  {
    if lines != [] {
      var n := |lines| - 1;
      FoldFacts(lines[..n]);
      MaxCoversSensors(lines[n].raw);
      if lines[n].raw.ram.None? && Fold(lines[..n]).ram != Ram(0, 0) {
        var i :| 0 <= i < n && lines[..n][i].raw.ram == Some(Fold(lines[..n]).ram);
        assert lines[i] == lines[..n][i];
      }
    }
  }

  /** Some field or sensor of the line was recognised. */
  predicate Recognised(line: Line) {
    line.raw.gpu.Some? || line.raw.ram.Some? || line.raw.power.Some? || line.raw.readings != []
  }

  ghost predicate SomeRecognised(lines: seq<Line>) {
    exists i :: 0 <= i < |lines| && Recognised(lines[i])
  }

  /** "False until the first successful parse": after some lines Valid says whether one of
      them was recognised exactly when there are no lines, or one was. */
  lemma ValidMeansRecognisedIff(lines: seq<Line>)
    ensures (Fold(lines).valid <==> SomeRecognised(lines)) <==> lines == [] || SomeRecognised(lines)
  {
    FoldFacts(lines);
  }

  /** The same for every snapshot published, under any interleaving, and the lines that it
      has merged. */
  lemma SnapshotValidIff(steps: seq<Step>, s: Shared, i: nat)
    requires Exec(START, steps) == Some(s) && i < |s.published|
    ensures exists kept ::
              && Selection(kept, |s.lines|) && s.published[i].tele == Fold(Selected(s.lines, kept))
              && ((s.published[i].tele.valid <==> SomeRecognised(Selected(s.lines, kept)))
                  <==> kept == [] || SomeRecognised(Selected(s.lines, kept)))
  {
    SnapshotsFoldSomeLines(steps, s, i);
    var kept: seq<nat> :| Selection(kept, |s.lines|) && s.published[i].tele == Fold(Selected(s.lines, kept));
    ValidMeansRecognisedIff(Selected(s.lines, kept));
    assert kept == [] <==> Selected(s.lines, kept) == [];
  }

  /** A line in which nothing is recognised makes the published state valid. */
  lemma UnrecognisedLineMakesValid(now: int) returns (steps: seq<Step>, s: Shared)
    ensures Exec(START, steps) == Some(s) && s.current.tele.valid && s.lines != [] && !SomeRecognised(s.lines)
  {
    var line := Line(RawLine(None, None, None, []), now);
    steps := [LoadForLine(line), StoreLine];
    var loaded := Apply(START, LoadForLine(line));
    s := Apply(loaded, StoreLine);
    assert steps[..1][..0] == [];
    assert Exec(START, steps[..1]) == Some(loaded);
  }

  /** In every published snapshot RAM used and total come from one line, and MaxTempC is
      at least every sensor's temperature. */
  lemma SnapshotsAreConsistent(steps: seq<Step>, s: Shared, i: nat)
    requires Exec(START, steps) == Some(s) && i < |s.published|
    ensures var tele := s.published[i].tele;
            && (tele.ram == Ram(0, 0) || exists k :: 0 <= k < |s.lines| && s.lines[k].raw.ram == Some(tele.ram))
            && (forall sensor | sensor in tele.temps :: tele.temps[sensor] <= tele.maxTempC)
  {
    SnapshotsFoldSomeLines(steps, s, i);
    var kept: seq<nat> :| Selection(kept, |s.lines|) && s.published[i].tele == Fold(Selected(s.lines, kept));
    FoldFacts(Selected(s.lines, kept));
    if s.published[i].tele.ram != Ram(0, 0) {
      var j :| 0 <= j < |kept| && Selected(s.lines, kept)[j].raw.ram == Some(s.published[i].tele.ram);
      assert s.lines[kept[j]].raw.ram == Some(s.published[i].tele.ram);
    }
  }

  // which schedules lose something

  function LoadsMode(step: Step): bool {
    step.LoadForMode?
  }

  function StoresMode(step: Step): bool {
    step.StoreMode?
  }

  function LoadsLine(step: Step): bool {
    step.LoadForLine?
  }

  function StoresLine(step: Step): bool {
    step.StoreLine?
  }

  /** Step i loads, step k is the store that belongs to it, and step j between them is a
      store of the other writer. */
  ghost predicate Overtaken(load: Step -> bool, other: Step -> bool, store: Step -> bool, steps: seq<Step>,
                            i: int, j: int, k: int) {
    && 0 <= i < j < k < |steps| && load(steps[i]) && other(steps[j]) && store(steps[k])
    && forall m | i < m < k :: !store(steps[m])
  }

  ghost predicate Overlap(load: Step -> bool, other: Step -> bool, store: Step -> bool, steps: seq<Step>) {
    exists i, j, k :: Overtaken(load, other, store, steps, i, j, k)
  }

  /** Step i loads and its store is still to come. */
  ghost predicate Open(load: Step -> bool, store: Step -> bool, steps: seq<Step>, i: int) {
    0 <= i < |steps| && load(steps[i]) && forall m | i < m < |steps| :: !store(steps[m])
  }

  ghost predicate Since(other: Step -> bool, steps: seq<Step>, i: int) {
    exists j :: i < j < |steps| && 0 <= j && other(steps[j])
  }

  /** A schedule with one more step overlaps if it did before, or if that step closes a
      window into which the other writer has stored. */
  lemma OneMoreOverlap(load: Step -> bool, other: Step -> bool, store: Step -> bool, steps: seq<Step>, x: Step)
    ensures Overlap(load, other, store, steps + [x])
            <==> Overlap(load, other, store, steps)
                 || (store(x) && exists i :: Open(load, store, steps, i) && Since(other, steps, i))
  {
    var more := steps + [x];
    if i, j, k :| Overtaken(load, other, store, more, i, j, k) {
      if k < |steps| {
        assert forall m | i < m < k :: more[m] == steps[m];
        assert Overtaken(load, other, store, steps, i, j, k);
      } else {
        assert forall m | i < m < |steps| :: more[m] == steps[m];
        assert Open(load, store, steps, i);
        assert steps[j] == more[j];
      }
    }
    if i, j, k :| Overtaken(load, other, store, steps, i, j, k) {
      assert Overtaken(load, other, store, more, i, j, k);
    }
    if store(x) && exists i :: Open(load, store, steps, i) && Since(other, steps, i) {
      var i :| Open(load, store, steps, i) && Since(other, steps, i);
      var j :| i < j < |steps| && 0 <= j && other(steps[j]);
      assert Overtaken(load, other, store, more, i, j, |steps|);
    }
  }

  lemma OneMoreOpen(load: Step -> bool, store: Step -> bool, steps: seq<Step>, x: Step, i: int)
    ensures Open(load, store, steps + [x], i)
            <==> if i == |steps| then load(x) else Open(load, store, steps, i) && !store(x)
  {
    var more := steps + [x];
    if 0 <= i < |steps| {
      assert more[i] == steps[i];
      assert forall m | i < m < |steps| :: more[m] == steps[m];
      assert more[|steps|] == x;
    }
  }

  lemma OneMoreSince(other: Step -> bool, steps: seq<Step>, x: Step, i: int)
    requires i < |steps|
    ensures Since(other, steps + [x], i) <==> Since(other, steps, i) || other(x)
  {
    var more := steps + [x];
    assert more[|steps|] == x;
    if j :| i < j < |steps| && 0 <= j && other(steps[j]) {
      assert other(more[j]);
    }
    if j :| i < j < |more| && 0 <= j && other(more[j]) {
      if j < |steps| {
        assert other(steps[j]);
      }
    }
  }

  /** The mode writer's side of a run: whether its window is open, whether a line was stored
      in it, and whether any closed window had one. */
  ghost predicate ModeWindows(steps: seq<Step>, s: Shared) {
    && (s.lineLost <==> Overlap(LoadsMode, StoresLine, StoresMode, steps))
    && (s.nvp.NvpLoaded? <==> exists i :: Open(LoadsMode, StoresMode, steps, i))
    && (s.nvp.NvpLoaded? ==> s.nvp.linesThen <= |s.lines|)
    && (forall i | Open(LoadsMode, StoresMode, steps, i) ::
          s.nvp.NvpLoaded? && (Since(StoresLine, steps, i) <==> s.nvp.linesThen < |s.lines|))
  }

  ghost predicate LineWindows(steps: seq<Step>, s: Shared) {
    && (s.modeLost <==> Overlap(LoadsLine, StoresMode, StoresLine, steps))
    && (s.tegra.TegraLoaded? <==> exists i :: Open(LoadsLine, StoresLine, steps, i))
    && (s.tegra.TegraLoaded? ==> s.tegra.modesThen <= |s.modes|)
    && (forall i | Open(LoadsLine, StoresLine, steps, i) ::
          s.tegra.TegraLoaded? && (Since(StoresMode, steps, i) <==> s.tegra.modesThen < |s.modes|))
  }

  lemma NextModeWindows(steps: seq<Step>, s: Shared, x: Step)
    requires ModeWindows(steps, s) && Enabled(s, x)
    ensures ModeWindows(steps + [x], Apply(s, x))
  {
    var more, t := steps + [x], Apply(s, x);
    OneMoreOverlap(LoadsMode, StoresLine, StoresMode, steps, x);
    forall i ensures Open(LoadsMode, StoresMode, more, i)
                     <==> if i == |steps| then LoadsMode(x) else Open(LoadsMode, StoresMode, steps, i) && !StoresMode(x)
    {
      OneMoreOpen(LoadsMode, StoresMode, steps, x, i);
    }
    forall i | Open(LoadsMode, StoresMode, more, i)
      ensures t.nvp.NvpLoaded? && (Since(StoresLine, more, i) <==> t.nvp.linesThen < |t.lines|)
    {
      if i < |steps| {
        OneMoreSince(StoresLine, steps, x, i);
      }
    }
    assert s.nvp.NvpLoaded? && !StoresMode(x) ==> exists i :: Open(LoadsMode, StoresMode, more, i) by {
      if s.nvp.NvpLoaded? && !StoresMode(x) {
        var i :| Open(LoadsMode, StoresMode, steps, i);
        assert Open(LoadsMode, StoresMode, more, i);
      }
    }
    assert LoadsMode(x) ==> Open(LoadsMode, StoresMode, more, |steps|);
  }

  lemma NextLineWindows(steps: seq<Step>, s: Shared, x: Step)
    requires LineWindows(steps, s) && Enabled(s, x)
    ensures LineWindows(steps + [x], Apply(s, x))
  {
    var more, t := steps + [x], Apply(s, x);
    OneMoreOverlap(LoadsLine, StoresMode, StoresLine, steps, x);
    forall i ensures Open(LoadsLine, StoresLine, more, i)
                     <==> if i == |steps| then LoadsLine(x) else Open(LoadsLine, StoresLine, steps, i) && !StoresLine(x)
    {
      OneMoreOpen(LoadsLine, StoresLine, steps, x, i);
    }
    forall i | Open(LoadsLine, StoresLine, more, i)
      ensures t.tegra.TegraLoaded? && (Since(StoresMode, more, i) <==> t.tegra.modesThen < |t.modes|)
    {
      if i < |steps| {
        OneMoreSince(StoresMode, steps, x, i);
      }
    }
    assert s.tegra.TegraLoaded? && !StoresLine(x) ==> exists i :: Open(LoadsLine, StoresLine, more, i) by {
      if s.tegra.TegraLoaded? && !StoresLine(x) {
        var i :| Open(LoadsLine, StoresLine, steps, i);
        assert Open(LoadsLine, StoresLine, more, i);
      }
    }
    assert LoadsLine(x) ==> Open(LoadsLine, StoresLine, more, |steps|);
  }

  lemma {:induction false} RunWindows(steps: seq<Step>, s: Shared)
    requires Exec(START, steps) == Some(s)
    ensures ModeWindows(steps, s) && LineWindows(steps, s)
  {
    if steps != [] {
      var front, x := steps[..|steps| - 1], steps[|steps| - 1];
      var before := Exec(START, front).value;
      RunWindows(front, before);
      NextModeWindows(front, before, x);
      NextLineWindows(front, before, x);
      assert steps == front + [x];
    }
  }

  /** A schedule in which no line is stored between the mode writer's load and its store
      leaves the snapshot the fold of all lines; one in which no mode is stored between the
      line writer's load and its store leaves it the last mode. */
  lemma NothingLostWithoutOverlap(steps: seq<Step>, s: Shared)
    requires Exec(START, steps) == Some(s)
    ensures !Overlap(LoadsMode, StoresLine, StoresMode, steps) ==> s.current.tele == Fold(s.lines)
    ensures !Overlap(LoadsLine, StoresMode, StoresLine, steps) ==> s.current.powerMode == LastMode(s.modes)
  {
    RunKeepsInv(steps, s);
    RunWindows(steps, s);
  }

  /** What a writer holds is what it loaded: the state that was current at its load. */
  lemma {:induction false} LoadedAt(steps: seq<Step>, s: Shared, i: nat)
    requires Exec(START, steps) == Some(s) && i < |steps|
    ensures Exec(START, steps[..i]).Some?
    ensures Open(LoadsLine, StoresLine, steps, i) ==>
              && s.tegra.TegraLoaded? && s.tegra.line == steps[i].line
              && s.tegra.prev == Exec(START, steps[..i]).value.current
    ensures Open(LoadsMode, StoresMode, steps, i) ==>
              && s.nvp.NvpLoaded? && s.nvp.mode == steps[i].mode
              && s.nvp.prev == Exec(START, steps[..i]).value.current
  {
    var front, x := steps[..|steps| - 1], steps[|steps| - 1];
    assert steps == front + [x];
    OneMoreOpen(LoadsLine, StoresLine, front, x, i);
    OneMoreOpen(LoadsMode, StoresMode, front, x, i);
    if i < |front| {
      LoadedAt(front, Exec(START, front).value, i);
      assert front[..i] == steps[..i];
    } else {
      assert steps[..i] == front;
    }
  }

  /** So a store puts back whatever the other writer has stored since its own load: storing a
      line restores the mode of that time, and storing a mode restores all else. */
  lemma StoreUndoesOthers(steps: seq<Step>, s: Shared, i: nat)
    requires Exec(START, steps) == Some(s) && i < |steps|
    ensures Exec(START, steps[..i]).Some?
    ensures var loaded := Exec(START, steps[..i]).value.current;
            && (Open(LoadsLine, StoresLine, steps, i) ==>
                  && Enabled(s, StoreLine)
                  && Apply(s, StoreLine).current == State(Merge(loaded.tele, steps[i].line), loaded.powerMode))
            && (Open(LoadsMode, StoresMode, steps, i) ==>
                  Enabled(s, StoreMode) && Apply(s, StoreMode).current == State(loaded.tele, steps[i].mode))
  {
    LoadedAt(steps, s, i);
  }

  /** Each load is followed at once by its own store. */
  ghost predicate WindowsApart(steps: seq<Step>) {
    forall i | 0 <= i < |steps| - 1 ::
      (steps[i].LoadForLine? ==> steps[i + 1].StoreLine?) && (steps[i].LoadForMode? ==> steps[i + 1].StoreMode?)
  }

  /** Load and store windows that never overlap lose nothing: the snapshot is the fold of
      all lines, with the last mode. */
  lemma ApartLosesNothing(steps: seq<Step>, s: Shared)
    requires Exec(START, steps) == Some(s) && WindowsApart(steps)
    ensures s.current == State(Fold(s.lines), LastMode(s.modes))
  {
    ApartSetsNoFlag(steps, s);
    RunKeepsInv(steps, s);
  }

  lemma {:induction false} ApartSetsNoFlag(steps: seq<Step>, s: Shared)
    requires Exec(START, steps) == Some(s) && WindowsApart(steps)
    ensures !s.lineLost && !s.modeLost
    ensures s.tegra.TegraLoaded? ==> steps != [] && steps[|steps| - 1].LoadForLine? && s.tegra.modesThen == |s.modes|
    ensures s.nvp.NvpLoaded? ==> steps != [] && steps[|steps| - 1].LoadForMode? && s.nvp.linesThen == |s.lines|
  {
    if steps != [] {
      var rest := steps[..|steps| - 1];
      assert forall i | 0 <= i < |rest| :: rest[i] == steps[i];
      ApartSetsNoFlag(rest, Exec(START, rest).value);
    }
  }

  // ------------------------------------------------------ what Valid promises

  /** The pending nvpmodel store holds a snapshot from before the first line. */
  predicate StaleStorePending(s: Shared) {
    s.nvp.NvpLoaded? && !s.nvp.prev.tele.valid
  }

  lemma {:induction false} ValidStays(s: Shared, steps: seq<Step>, t: Shared)
    requires s.current.tele.valid && !StaleStorePending(s) && Exec(s, steps) == Some(t)
    ensures t.current.tele.valid && !StaleStorePending(t)
  {
    if steps != [] {
      ValidStays(s, steps[..|steps| - 1], Exec(s, steps[..|steps| - 1]).value);
    }
  }

  lemma StaleStoreReverts(s: Shared) returns (steps: seq<Step>)
    requires StaleStorePending(s)
    ensures Exec(s, steps).Some? && !Exec(s, steps).value.current.tele.valid
  {
    steps := [StoreMode];
    assert steps[..0] == [] && Exec(s, steps[..0]) == Some(s);
  }

  ghost predicate StaysValid(s: Shared) {
    forall steps | Exec(s, steps).Some? :: Exec(s, steps).value.current.tele.valid
  }

  /** A valid snapshot stays valid in every continuation exactly when no nvpmodel store
      from before the first line is pending. */
  lemma ValidStaysIff(s: Shared)
    requires s.current.tele.valid
    ensures StaysValid(s) <==> !StaleStorePending(s)
  {
    if StaleStorePending(s) {
      var steps := StaleStoreReverts(s);
      assert !StaysValid(s);
    } else {
      forall steps | Exec(s, steps).Some? ensures Exec(s, steps).value.current.tele.valid {
        ValidStays(s, steps, Exec(s, steps).value);
      }
    }
  }

  /** It can happen: a mode writer that loads before the first line is stored, and stores
      after it, makes the state invalid again and undoes the line. */
  lemma ValidCanRevert(line: Line, mode: string) returns (steps: seq<Step>, before: Shared, after: Shared)
    ensures |steps| == 4 && Exec(START, steps[..3]) == Some(before) && before.current.tele.valid
    ensures Exec(START, steps) == Some(after) && !after.current.tele.valid && after.lines == [line] && after.lineLost
  {
    steps := [LoadForMode(mode), LoadForLine(line), StoreLine, StoreMode];
    var s1 := Apply(START, LoadForMode(mode));
    var s2 := Apply(s1, LoadForLine(line));
    before := Apply(s2, StoreLine);
    after := Apply(before, StoreMode);
    assert steps[..1][..0] == [] && steps[..2][..1] == steps[..1] && steps[..3][..2] == steps[..2];
    assert Exec(START, steps[..1]) == Some(s1);
    assert Exec(START, steps[..2]) == Some(s2);
    assert Exec(START, steps[..3]) == Some(before);
  }

  /** And a line writer that loads before a mode is stored, and stores after it, undoes it. */
  lemma ModeCanBeUndone(line: Line, mode: string) returns (steps: seq<Step>, after: Shared)
    requires mode != ""
    ensures Exec(START, steps) == Some(after) && after.modes == [mode] && after.current.powerMode == ""
  {
    steps := [LoadForLine(line), LoadForMode(mode), StoreMode, StoreLine];
    var s1 := Apply(START, LoadForLine(line));
    var s2 := Apply(s1, LoadForMode(mode));
    var s3 := Apply(s2, StoreMode);
    after := Apply(s3, StoreLine);
    assert steps[..1][..0] == [] && steps[..2][..1] == steps[..1] && steps[..3][..2] == steps[..2];
    assert Exec(START, steps[..1]) == Some(s1);
    assert Exec(START, steps[..2]) == Some(s2);
    assert Exec(START, steps[..3]) == Some(s3);
  }
}
