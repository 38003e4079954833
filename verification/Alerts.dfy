/**
 The alert engine of backend/internal/alertengine/engine.go: timed rules with cooldowns over live
 events, thresholds cached per company. Times are nanoseconds; Go's zero time is `None`.
 */
module Alerts {
  import opened Options
  import opened Bytes

  type Time = int

  const MINUTE: Time := 60_000_000_000
  const CACHE_TTL: Time := MINUTE
  const DEFAULT_SPEED_LIMIT := 80
  const DEFAULT_IDLE_MINUTES := 15

  datatype Kind = Overspeed | OverIdle | PowerCut | Temperature

  function Cooldown(kind: Kind): Time {
    if kind == Overspeed then 5 * MINUTE else 30 * MINUTE
  }

  datatype Event = Event(
    deviceId: int, companyId: int, speed: real, ignition: bool, voltage: Option<real>, temperature: Option<real>)

  datatype Rules = Rules(speedLimit: int, idleMinutes: int, loadedAt: Time)

  datatype DeviceState = DeviceState(
    idleSince: Option<Time>,
    lastOverspeed: Option<Time>, lastIdle: Option<Time>, lastPowerCut: Option<Time>, lastTemperature: Option<Time>)

  const FRESH := DeviceState(None, None, None, None, None)

  /** The zero time is so far back that every cooldown has passed. */
  predicate Cooled(now: Time, last: Option<Time>, cooldown: Time) {
    last.None? || now - last.value > cooldown
  }

  predicate Idling(e: Event) {
    e.ignition && e.speed <= 2.0
  }

  /** `time.Duration(minutes) * time.Minute`, which wraps at 64 bits. */
  function IdleThreshold(minutes: int): Time {
    Signed(Unsigned(minutes * MINUTE, 8), 8)
  }

  /** One event of one device with the thresholds in force, the time it is evaluated, and the alerts whose INSERT would succeed. */
  datatype Input = Input(event: Event, speedLimit: int, idleMinutes: int, now: Time, inserts: set<Kind>)

  predicate OverspeedTrigger(x: Input) {
    x.speedLimit > 0 && x.event.speed > x.speedLimit as real
  }

  predicate PowerCutTrigger(x: Input) {
    x.event.voltage.Some? && 0.0 < x.event.voltage.value < 21.5
  }

  predicate TemperatureTrigger(x: Input) {
    x.event.temperature.Some? && -14.0 <= x.event.temperature.value <= 0.0
  }

  predicate IdleTrigger(s: DeviceState, x: Input) {
    Idling(x.event) && s.idleSince.Some? && x.now - s.idleSince.value >= IdleThreshold(x.idleMinutes)
  }

  predicate Raises(s: DeviceState, x: Input, kind: Kind) {
    match kind
    case Overspeed => OverspeedTrigger(x) && Cooled(x.now, s.lastOverspeed, Cooldown(kind))
    case OverIdle => IdleTrigger(s, x) && Cooled(x.now, s.lastIdle, Cooldown(kind))
    case PowerCut => PowerCutTrigger(x) && Cooled(x.now, s.lastPowerCut, Cooldown(kind))
    case Temperature => TemperatureTrigger(x) && Cooled(x.now, s.lastTemperature, Cooldown(kind))
  }

  function NextState(s: DeviceState, x: Input): DeviceState {
    DeviceState(
      if !Idling(x.event) then None else if s.idleSince.None? then Some(x.now) else s.idleSince,
      if Raises(s, x, Overspeed) then Some(x.now) else s.lastOverspeed,
      if Raises(s, x, OverIdle) then Some(x.now) else s.lastIdle,
      if Raises(s, x, PowerCut) then Some(x.now) else s.lastPowerCut,
      if Raises(s, x, Temperature) then Some(x.now) else s.lastTemperature)
  }

  function If(raised: bool, kind: Kind): seq<Kind> {
    if raised then [kind] else []
  }

  function RaisedKinds(s: DeviceState, x: Input): seq<Kind> {
    If(Raises(s, x, Overspeed), Overspeed) + If(Raises(s, x, OverIdle), OverIdle) +
    If(Raises(s, x, PowerCut), PowerCut) + If(Raises(s, x, Temperature), Temperature)
  }

  /** The alerts among `kinds` that reach the table; those are also published. */
  function StoredKinds(kinds: seq<Kind>, inserts: set<Kind>): seq<Kind> {
    if kinds == [] then []
    else StoredKinds(kinds[..|kinds| - 1], inserts) + If(kinds[|kinds| - 1] in inserts, kinds[|kinds| - 1])
  }

  /** What one event leads to: the alerts the engine decides to raise, and those it gets stored and publishes. */
  datatype Output = Output(deviceId: int, raised: seq<Kind>, stored: seq<Kind>)

  function OutputOf(s: DeviceState, x: Input): Output {
    Output(x.event.deviceId, RaisedKinds(s, x), StoredKinds(RaisedKinds(s, x), x.inserts))
  }

  // ---------------------------------------------------------------------------
  // Thresholds

  /** A company's settings, zero when null. */
  datatype SettingsRow = SettingsRow(speedThresholdKmh: int, idleThresholdMinutes: int)

  /** The settings row of each company at each time, if it has one. */
  type Settings = (int, Time) -> Option<SettingsRow>

  /** One event as the engine meets it: the cache check, the start of a reload, the read, the evaluation. */
  datatype Tick = Tick(event: Event, check: Time, load: Time, read: Time, ok: bool, now: Time, inserts: set<Kind>)

  function EffectiveSpeed(row: Option<SettingsRow>): int {
    if row.Some? && row.value.speedThresholdKmh > 0 then row.value.speedThresholdKmh else DEFAULT_SPEED_LIMIT
  }

  function EffectiveIdle(row: Option<SettingsRow>): int {
    if row.Some? && row.value.idleThresholdMinutes > 0 then row.value.idleThresholdMinutes else DEFAULT_IDLE_MINUTES
  }

  function Reload(t: Tick, table: Settings): Rules {
    var row := if t.ok then table(t.event.companyId, t.read) else None;
    Rules(EffectiveSpeed(row), EffectiveIdle(row), t.load)
  }

  function Lookup(cache: map<int, Rules>, t: Tick, table: Settings): Rules {
    var c := t.event.companyId;
    if c in cache && t.check - cache[c].loadedAt < CACHE_TTL then cache[c] else Reload(t, table)
  }

  // ---------------------------------------------------------------------------
  // The engine object

  class Engine {
    var devices: map<int, DeviceState>
    var companies: map<int, Rules>

    constructor ()
      ensures devices == map[] && companies == map[]
    {
      devices, companies := map[], map[];
    }

    method RulesFor(t: Tick, table: Settings) returns (rules: Rules)
      modifies this`companies
      ensures rules == Lookup(old(companies), t, table)
      ensures companies == old(companies)[t.event.companyId := rules]
    {
      var c := t.event.companyId;
      if c in companies && t.check - companies[c].loadedAt < CACHE_TTL {
        return companies[c];
      }
      var speedLimit, idleMinutes := DEFAULT_SPEED_LIMIT, DEFAULT_IDLE_MINUTES;
      var row := if t.ok then table(c, t.read) else None;
      if row.Some? {
        var SettingsRow(speed, idle) := row.value;
        if speed > 0 {
          speedLimit := speed;
        }
        if idle > 0 {
          idleMinutes := idle;
        }
      }
      rules := Rules(speedLimit, idleMinutes, t.load);
      companies := companies[c := rules];
    }

    method StateOf(deviceId: int) returns (state: DeviceState)
      modifies this`devices
      ensures state == if deviceId in old(devices) then old(devices)[deviceId] else FRESH
      ensures devices == old(devices)[deviceId := state]
    {
      if deviceId !in devices {
        devices := devices[deviceId := FRESH];
      }
      state := devices[deviceId];
    }

    /** Applies the rule set to one live event and returns the alerts raised and stored, in order. */
    method Evaluate(t: Tick, table: Settings) returns (out: Output)
      modifies this
      ensures var rules := Lookup(old(companies), t, table);
              var x := Input(t.event, rules.speedLimit, rules.idleMinutes, t.now, t.inserts);
              var before := if t.event.deviceId in old(devices) then old(devices)[t.event.deviceId] else FRESH;
              companies == old(companies)[t.event.companyId := rules] &&
              devices == old(devices)[t.event.deviceId := NextState(before, x)] &&
              out == OutputOf(before, x)
    {
      hide Lookup, NextState, RaisedKinds, StoredKinds;
      var event := t.event;
      var rules := RulesFor(t, table);
      var state := StateOf(event.deviceId);
      var raised, stored;
      state, raised, stored := ApplyRules(state, Input(event, rules.speedLimit, rules.idleMinutes, t.now, t.inserts));
      devices := devices[event.deviceId := state];
      out := Output(event.deviceId, raised, stored);
    }
  }

  /** Stores an alert and publishes it if that succeeds. */
  method Raise(kind: Kind, inserts: set<Kind>, raised: seq<Kind>, stored: seq<Kind>)
    returns (raised': seq<Kind>, stored': seq<Kind>)
    requires stored == StoredKinds(raised, inserts)
    ensures raised' == raised + [kind] && stored' == StoredKinds(raised', inserts)
  {
    raised', stored' := raised + [kind], stored;
    assert raised'[..|raised|] == raised;
    if kind !in inserts {
      return;
    }
    stored' := stored + [kind];
  }

  /** The four rules, in the order of the program; each notes the time of its alert before the alert is stored. */
  method ApplyRules(before: DeviceState, x: Input)
    returns (state: DeviceState, raised: seq<Kind>, stored: seq<Kind>)
    ensures state == NextState(before, x) && raised == RaisedKinds(before, x)
    ensures stored == StoredKinds(raised, x.inserts)
  {
    hide IdleThreshold, Cooled, StoredKinds;
    var event, now := x.event, x.now;
    ghost var after := NextState(before, x);
    ghost var first, second, third :=
      Raises(before, x, Overspeed), Raises(before, x, OverIdle), Raises(before, x, PowerCut);
    state, raised, stored := before, [], [];
    NothingStored(x.inserts);
    if x.speedLimit > 0 && event.speed > x.speedLimit as real && Cooled(now, state.lastOverspeed, 5 * MINUTE) {
      state := state.(lastOverspeed := Some(now));
      raised, stored := Raise(Overspeed, x.inserts, raised, stored);
    }
    assert state == before.(lastOverspeed := after.lastOverspeed);
    assert raised == If(first, Overspeed);
    if event.ignition && event.speed <= 2.0 {
      if state.idleSince.None? {
        state := state.(idleSince := Some(now));
      } else if now - state.idleSince.value >= IdleThreshold(x.idleMinutes) && Cooled(now, state.lastIdle, 30 * MINUTE) {
        state := state.(lastIdle := Some(now));
        raised, stored := Raise(OverIdle, x.inserts, raised, stored);
      }
    } else {
      state := state.(idleSince := None);
    }
    assert state == after.(lastPowerCut := before.lastPowerCut, lastTemperature := before.lastTemperature);
    assert raised == If(first, Overspeed) + If(second, OverIdle);
    if event.voltage.Some? && event.voltage.value > 0.0 && event.voltage.value < 21.5 &&
       Cooled(now, state.lastPowerCut, 30 * MINUTE) {
      state := state.(lastPowerCut := Some(now));
      raised, stored := Raise(PowerCut, x.inserts, raised, stored);
    }
    assert state == after.(lastTemperature := before.lastTemperature);
    assert raised == If(first, Overspeed) + If(second, OverIdle) + If(third, PowerCut);
    if event.temperature.Some? && event.temperature.value >= -14.0 && event.temperature.value <= 0.0 &&
       Cooled(now, state.lastTemperature, 30 * MINUTE) {
      state := state.(lastTemperature := Some(now));
      raised, stored := Raise(Temperature, x.inserts, raised, stored);
    }
  }

  lemma NothingStored(inserts: set<Kind>)
    ensures StoredKinds([], inserts) == []
  {
  }

  // ---------------------------------------------------------------------------
  // Runs

  function StateAfter(xs: seq<Input>): DeviceState {
    if xs == [] then FRESH else NextState(StateAfter(xs[..|xs| - 1]), xs[|xs| - 1])
  }

  /** Whether an alert of this kind is raised at the `i`th event of a device. */
  predicate RaisedAt(xs: seq<Input>, i: nat, kind: Kind)
    requires i < |xs|
  {
    Raises(StateAfter(xs[..i]), xs[i], kind)
  }

  /** The cache after some ticks. */
  function CacheAfter(ticks: seq<Tick>, table: Settings): map<int, Rules> {
    if ticks == [] then map[]
    else
      var t, cache := ticks[|ticks| - 1], CacheAfter(ticks[..|ticks| - 1], table);
      cache[t.event.companyId := Lookup(cache, t, table)]
  }

  /** The events with the thresholds the cache gave them. */
  function Inputs(ticks: seq<Tick>, table: Settings): (xs: seq<Input>)
    ensures |xs| == |ticks|
  {
    if ticks == [] then []
    else
      var t, front := ticks[|ticks| - 1], ticks[..|ticks| - 1];
      var rules := Lookup(CacheAfter(front, table), t, table);
      Inputs(front, table) + [Input(t.event, rules.speedLimit, rules.idleMinutes, t.now, t.inserts)]
  }

  function DevicesAfter(xs: seq<Input>): map<int, DeviceState> {
    if xs == [] then map[]
    else
      var x, devices := xs[|xs| - 1], DevicesAfter(xs[..|xs| - 1]);
      devices[x.event.deviceId := NextState(StateIn(devices, x.event.deviceId), x)]
  }

  function StateIn(devices: map<int, DeviceState>, deviceId: int): DeviceState {
    if deviceId in devices then devices[deviceId] else FRESH
  }

  /** What the engine raises over a whole run, event by event. */
  function EngineRun(xs: seq<Input>): (out: seq<Output>)
    ensures |out| == |xs|
  {
    if xs == [] then []
    else
      var x, front := xs[|xs| - 1], xs[..|xs| - 1];
      EngineRun(front) + [OutputOf(StateIn(DevicesAfter(front), x.event.deviceId), x)]
  }

  /** Events without a device or a company are skipped before they reach the rules. */
  function Admitted(ticks: seq<Tick>): seq<Tick> {
    if ticks == [] then []
    else
      var t, front := ticks[|ticks| - 1], Admitted(ticks[..|ticks| - 1]);
      if t.event.deviceId == 0 || t.event.companyId == 0 then front else front + [t]
  }

  /** The event loop through the engine object. */
  method RunEngine(ticks: seq<Tick>, table: Settings) returns (out: seq<Output>)
    ensures out == EngineRun(Inputs(Admitted(ticks), table))
  {
    hide Lookup, NextState, OutputOf;
    var engine := new Engine();
    out := [];
    for i := 0 to |ticks|
      invariant fresh(engine)
      invariant engine.companies == CacheAfter(Admitted(ticks[..i]), table)
      invariant engine.devices == DevicesAfter(Inputs(Admitted(ticks[..i]), table))
      invariant out == EngineRun(Inputs(Admitted(ticks[..i]), table))
    {
      var t := ticks[i];
      assert ticks[..i + 1][..i] == ticks[..i];
      if t.event.deviceId == 0 || t.event.companyId == 0 {
        continue;
      }
      var o := engine.Evaluate(t, table);
      ghost var seen := Admitted(ticks[..i]);
      assert (seen + [t])[..|seen|] == seen;
      ghost var xs := Inputs(seen + [t], table);
      assert xs[..|seen|] == Inputs(seen, table);
      out := out + [o];
    }
    assert ticks[..|ticks|] == ticks;
  }
}
