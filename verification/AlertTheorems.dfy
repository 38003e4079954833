/** What the alert engine guarantees over whole runs. */
module AlertTheorems {
  import opened Options
  import opened Bytes
  import opened Alerts

  // ---------------------------------------------------------------------------
  // Greedy thinning

  /** A moment at which a condition may hold. */
  datatype Moment = Moment(at: Time, holds: bool)

  /** The last moment kept by greedy thinning: a moment is kept when none was kept within the cooldown before it. */
  function LastKept(ms: seq<Moment>, cooldown: Time): Option<Time> {
    if ms == [] then None
    else
      var m, last := ms[|ms| - 1], LastKept(ms[..|ms| - 1], cooldown);
      if m.holds && Cooled(m.at, last, cooldown) then Some(m.at) else last
  }

  predicate Kept(ms: seq<Moment>, i: nat, cooldown: Time)
    requires i < |ms|
  {
    ms[i].holds && Cooled(ms[i].at, LastKept(ms[..i], cooldown), cooldown)
  }

  predicate Chronological(ms: seq<Moment>) {
    forall i, j | 0 <= i < j < |ms| :: ms[i].at <= ms[j].at
  }

  /** The last kept time is the time of a kept moment, and none after it was kept. */
  lemma {:induction false} LastKeptIsLatest(ms: seq<Moment>, cooldown: Time) returns (k: int)
    ensures LastKept(ms, cooldown).None? ==> forall i | 0 <= i < |ms| :: !Kept(ms, i, cooldown)
    ensures LastKept(ms, cooldown).Some? ==>
              0 <= k < |ms| && Kept(ms, k, cooldown) && ms[k].at == LastKept(ms, cooldown).value &&
              forall i | k < i < |ms| :: !Kept(ms, i, cooldown)
    decreases |ms|
  {
    k := -1;
    if ms != [] {
      var n := |ms| - 1;
      var front := ms[..n];
      k := LastKeptIsLatest(front, cooldown);
      forall i | 0 <= i < n
        ensures Kept(ms, i, cooldown) == Kept(front, i, cooldown)
      {
        assert front[..i] == ms[..i];
      }
      if Kept(ms, n, cooldown) {
        k := n;
      }
    }
  }

  /** Any two kept moments are more than the cooldown apart. */
  lemma KeptApart(ms: seq<Moment>, cooldown: Time, i: nat, j: nat)
    requires Chronological(ms) && i < j < |ms| && Kept(ms, i, cooldown) && Kept(ms, j, cooldown)
    ensures ms[j].at - ms[i].at > cooldown
  {
    var front := ms[..j];
    var k := LastKeptIsLatest(front, cooldown);
    assert front[..i] == ms[..i];
    assert Kept(front, i, cooldown);
    assert i <= k;
  }

  /** A moment that holds but is not kept comes within the cooldown of an earlier kept one. */
  lemma DroppedIsCovered(ms: seq<Moment>, cooldown: Time, i: nat) returns (k: nat)
    requires i < |ms| && ms[i].holds && !Kept(ms, i, cooldown)
    ensures k < i && Kept(ms, k, cooldown) && ms[i].at - ms[k].at <= cooldown
  {
    var front := ms[..i];
    k := LastKeptIsLatest(front, cooldown);
    assert front[..k] == ms[..k];
  }

  /** A window of length `w` holds at most floor(w / cooldown) + 1 kept moments. */
  lemma WindowBound(ms: seq<Moment>, cooldown: Time, start: Time, w: Time, picks: seq<nat>)
    requires Chronological(ms) && cooldown > 0 && w >= 0
    requires forall i, j | 0 <= i < j < |picks| :: picks[i] < picks[j]
    requires forall i | 0 <= i < |picks| ::
               picks[i] < |ms| && Kept(ms, picks[i], cooldown) && start <= ms[picks[i]].at <= start + w
    ensures |picks| <= w / cooldown + 1
  {
    if |picks| > 0 {
      Spread(ms, cooldown, picks, |picks| - 1);
      var n := |picks| - 1;
      assert n * cooldown <= w;
      AtMostQuotient(n, cooldown, w);
    }
  }

  lemma AtMostQuotient(n: nat, c: int, w: int)
    requires c > 0 && w >= 0 && n * c <= w
    ensures n <= w / c
  {
    var q := w / c;
    assert w < (q + 1) * c;
    assert n > q ==> n * c >= (q + 1) * c;
  }

  lemma {:induction false} Spread(ms: seq<Moment>, cooldown: Time, picks: seq<nat>, n: nat)
    requires Chronological(ms) && n < |picks|
    requires forall i, j | 0 <= i < j < |picks| :: picks[i] < picks[j]
    requires forall i | 0 <= i < |picks| :: picks[i] < |ms| && Kept(ms, picks[i], cooldown)
    ensures ms[picks[n]].at - ms[picks[0]].at >= n * cooldown
  {
    hide Kept;
    if n > 0 {
      Spread(ms, cooldown, picks, n - 1);
      KeptApart(ms, cooldown, picks[n - 1], picks[n]);
    }
  }

  // ---------------------------------------------------------------------------
  // Idle runs

  /** The index of the first event of the idle run that ends the list, if it ends in one. */
  function IdleStart(xs: seq<Input>): Option<nat> {
    if xs == [] || !xs[|xs| - 1].event.ignition || xs[|xs| - 1].event.speed > 2.0 then None
    else
      var before := IdleStart(xs[..|xs| - 1]);
      if before.Some? then before else Some(|xs| - 1)
  }

  /** From event `j` to event `i` the ignition was on and the speed at most 2, and not so just before. */
  predicate IdleRun(xs: seq<Input>, j: nat, i: nat)
    requires i < |xs|
  {
    j <= i && (forall k | j <= k <= i :: xs[k].event.ignition && xs[k].event.speed <= 2.0) &&
    (j > 0 ==> !xs[j - 1].event.ignition || xs[j - 1].event.speed > 2.0)
  }

  lemma {:induction false} IdleStartIsRun(xs: seq<Input>)
    requires xs != []
    ensures Idling(xs[|xs| - 1].event) <==> IdleStart(xs).Some?
    ensures IdleStart(xs).Some? ==> IdleRun(xs, IdleStart(xs).value, |xs| - 1)
    decreases |xs|
  {
    var front := xs[..|xs| - 1];
    if front != [] {
      IdleStartIsRun(front);
    }
  }

  lemma RunIsUnique(xs: seq<Input>, j: nat, l: nat, i: nat)
    requires i < |xs| && IdleRun(xs, j, i) && IdleRun(xs, l, i)
    ensures j == l
  {
    if l > 0 {
      var before := xs[l - 1].event;
    }
    if j > 0 {
      var before := xs[j - 1].event;
    }
  }

  /** The engine remembers the time at which the current idle run began. */
  lemma {:induction false} IdleSinceIsStart(xs: seq<Input>)
    ensures match IdleStart(xs)
            case None => StateAfter(xs).idleSince == None
            case Some(j) => j < |xs| && StateAfter(xs).idleSince == Some(xs[j].now)
    decreases |xs|
  {
    hide Raises;
    if xs != [] {
      IdleSinceIsStart(xs[..|xs| - 1]);
    }
  }

  // ---------------------------------------------------------------------------
  // Cooldowns

  /** Whether the condition of an alert holds at event `i`, cooldown aside. */
  predicate Triggers(xs: seq<Input>, i: nat, kind: Kind)
    requires i < |xs|
  {
    match kind
    case Overspeed => xs[i].speedLimit > 0 && xs[i].event.speed > xs[i].speedLimit as real
    case OverIdle => exists j :: 0 <= j < i && IdleRun(xs, j, i) && xs[i].now - xs[j].now >= IdleThreshold(xs[i].idleMinutes)
    case PowerCut => xs[i].event.voltage.Some? && 0.0 < xs[i].event.voltage.value < 21.5
    case Temperature => xs[i].event.temperature.Some? && -14.0 <= xs[i].event.temperature.value <= 0.0
  }

  /** How long an alert of each kind silences the next: 5 minutes or 30, in nanoseconds. */
  function Quiet(kind: Kind): Time {
    match kind
    case Overspeed => 300_000_000_000
    case OverIdle => 1_800_000_000_000
    case PowerCut => 1_800_000_000_000
    case Temperature => 1_800_000_000_000
  }

  function Moments(xs: seq<Input>, kind: Kind): (ms: seq<Moment>)
    ensures |ms| == |xs|
  {
    seq(|xs|, i requires 0 <= i < |xs| => Moment(xs[i].now, Triggers(xs, i, kind)))
  }

  /** The idle condition the engine tests is the one stated on the events. */
  lemma IdleTriggerExact(xs: seq<Input>, i: nat)
    requires i < |xs|
    ensures IdleTrigger(StateAfter(xs[..i]), xs[i]) <==> Triggers(xs, i, OverIdle)
  {
    hide StateAfter, IdleThreshold;
    IdleSinceIsStart(xs[..i]);
    if i > 0 {
      IdleStartIsRun(xs[..i]);
    }
    if Idling(xs[i].event) && i > 0 {
      var start := IdleStart(xs[..i]);
      if start.Some? {
        var j := start.value;
        assert IdleRun(xs, j, i);
        forall l | 0 <= l < i && IdleRun(xs, l, i)
          ensures l == j
        {
          RunIsUnique(xs, j, l, i);
        }
      } else {
        forall l | 0 <= l < i
          ensures !IdleRun(xs, l, i)
        {
          assert !Idling(xs[i - 1].event);
        }
      }
    }
  }

  function LastRaise(s: DeviceState, kind: Kind): Option<Time> {
    match kind
    case Overspeed => s.lastOverspeed
    case OverIdle => s.lastIdle
    case PowerCut => s.lastPowerCut
    case Temperature => s.lastTemperature
  }

  lemma RaisesIsTriggerCooled(xs: seq<Input>, i: nat, kind: Kind)
    requires i < |xs|
    ensures RaisedAt(xs, i, kind) <==>
            Triggers(xs, i, kind) && Cooled(xs[i].now, LastRaise(StateAfter(xs[..i]), kind), Quiet(kind))
  {
    hide StateAfter, IdleThreshold;
    if kind == OverIdle {
      IdleTriggerExact(xs, i);
    }
  }

  lemma TriggersOfPrefix(xs: seq<Input>, n: nat, i: nat, kind: Kind)
    requires i < n <= |xs|
    ensures Triggers(xs[..n], i, kind) == Triggers(xs, i, kind)
  {
    hide IdleThreshold;
    var ys := xs[..n];
    if kind == OverIdle {
      forall j | 0 <= j < i
        ensures IdleRun(ys, j, i) == IdleRun(xs, j, i)
      {
        assert forall k | j <= k <= i :: ys[k] == xs[k];
      }
    }
  }

  lemma MomentsOfPrefix(xs: seq<Input>, n: nat, kind: Kind)
    requires n <= |xs|
    ensures Moments(xs[..n], kind) == Moments(xs, kind)[..n]
  {
    forall i | 0 <= i < n
      ensures Moments(xs[..n], kind)[i] == Moments(xs, kind)[..n][i]
    {
      TriggersOfPrefix(xs, n, i, kind);
    }
  }

  lemma {:induction false} LastRaiseIsLastKept(xs: seq<Input>, kind: Kind)
    ensures LastRaise(StateAfter(xs), kind) == LastKept(Moments(xs, kind), Quiet(kind))
    decreases |xs|
  {
    hide Triggers, Cooled, IdleTrigger, Quiet;
    if xs != [] {
      var n := |xs| - 1;
      LastRaiseIsLastKept(xs[..n], kind);
      MomentsOfPrefix(xs, n, kind);
      RaisesIsTriggerCooled(xs, n, kind);
    }
  }

  /** On one device's events: what is raised of each kind is exactly the greedy thinning of the events that trigger it. */
  lemma OwnThinning(xs: seq<Input>, i: nat, kind: Kind)
    requires i < |xs|
    ensures RaisedAt(xs, i, kind) <==> Kept(Moments(xs, kind), i, Quiet(kind))
  {
    hide Triggers, StateAfter, RaisedAt, LastKept, Cooled;
    RaisesIsTriggerCooled(xs, i, kind);
    LastRaiseIsLastKept(xs[..i], kind);
    MomentsOfPrefix(xs, i, kind);
  }

  /** The clock of a device's events never runs backwards. */
  predicate InOrder(xs: seq<Input>) {
    forall i, j | 0 <= i < j < |xs| :: xs[i].now <= xs[j].now
  }

  /** On one device's events: two raises are more than the cooldown apart; a silenced trigger is within it of an earlier one. */
  lemma OwnCooldown(xs: seq<Input>, kind: Kind)
    requires InOrder(xs)
    ensures forall i, j | 0 <= i < j < |xs| && RaisedAt(xs, i, kind) && RaisedAt(xs, j, kind) ::
              xs[j].now - xs[i].now > Quiet(kind)
    ensures forall i | 0 <= i < |xs| && Triggers(xs, i, kind) && !RaisedAt(xs, i, kind) ::
              exists k :: 0 <= k < i && RaisedAt(xs, k, kind) && xs[i].now - xs[k].now <= Quiet(kind)
  {
    hide Triggers, RaisedAt, Kept, Quiet;
    var ms := Moments(xs, kind);
    forall i, j | 0 <= i < j < |xs| && RaisedAt(xs, i, kind) && RaisedAt(xs, j, kind)
      ensures xs[j].now - xs[i].now > Quiet(kind)
    {
      OwnThinning(xs, i, kind);
      OwnThinning(xs, j, kind);
      KeptApart(ms, Quiet(kind), i, j);
    }
    forall i | 0 <= i < |xs| && Triggers(xs, i, kind) && !RaisedAt(xs, i, kind)
      ensures exists k :: 0 <= k < i && RaisedAt(xs, k, kind) && xs[i].now - xs[k].now <= Quiet(kind)
    {
      OwnThinning(xs, i, kind);
      var k := DroppedIsCovered(ms, Quiet(kind), i);
      OwnThinning(xs, k, kind);
    }
  }

  /** On one device's events: at most floor(w / cooldown) + 1 raises of one kind fall into any window of length `w`. */
  lemma OwnRate(xs: seq<Input>, kind: Kind, start: Time, w: Time, picks: seq<nat>)
    requires InOrder(xs) && w >= 0
    requires forall i, j | 0 <= i < j < |picks| :: picks[i] < picks[j]
    requires forall i | 0 <= i < |picks| ::
               picks[i] < |xs| && RaisedAt(xs, picks[i], kind) && start <= xs[picks[i]].now <= start + w
    ensures |picks| <= w / Quiet(kind) + 1
  {
    hide Triggers, RaisedAt, Kept;
    var ms := Moments(xs, kind);
    forall i | 0 <= i < |picks|
      ensures Kept(ms, picks[i], Quiet(kind))
    {
      OwnThinning(xs, picks[i], kind);
    }
    WindowBound(ms, Quiet(kind), start, w, picks);
  }

  /** On one device's events: when an idle alert is raised. */
  lemma OwnIdle(xs: seq<Input>, i: nat)
    requires InOrder(xs) && i < |xs|
    ensures RaisedAt(xs, i, OverIdle) <==>
            (exists j :: 0 <= j < i && IdleRun(xs, j, i) && xs[i].now - xs[j].now >= IdleThreshold(xs[i].idleMinutes)) &&
            (forall k | 0 <= k < i && RaisedAt(xs, k, OverIdle) :: xs[i].now - xs[k].now > 1_800_000_000_000)
  {
    hide RaisedAt, IdleThreshold, IdleRun;
    OwnCooldown(xs, OverIdle);
    if RaisedAt(xs, i, OverIdle) {
      RaisedTriggers(xs, i, OverIdle);
    }
    assert Quiet(OverIdle) == 1_800_000_000_000;
  }

  lemma RaisedTriggers(xs: seq<Input>, i: nat, kind: Kind)
    requires i < |xs| && RaisedAt(xs, i, kind)
    ensures Triggers(xs, i, kind)
  {
    RaisesIsTriggerCooled(xs, i, kind);
  }

  /** The threshold in force is the configured number of minutes up to 153722867 minutes; above, it wraps. */
  lemma ThresholdExact(minutes: int)
    requires 0 < minutes < 0x8000_0000
    ensures IdleThreshold(minutes) == minutes * 60_000_000_000 <==> minutes <= 153_722_867
    ensures -0x8000_0000_0000_0000 <= IdleThreshold(minutes) < 0x8000_0000_0000_0000
    ensures (minutes * 60_000_000_000 - IdleThreshold(minutes)) % 0x1_0000_0000_0000_0000 == 0
  {
    Pow256Values();
    var v := minutes * MINUTE;
    if minutes <= 153_722_867 {
      SignedUnsigned(v, 8);
    } else {
      assert v > 0x7FFF_FFFF_FFFF_FFFF;
      assert Signed(Unsigned(v, 8), 8) <= 0x7FFF_FFFF_FFFF_FFFF;
    }
  }

  // ---------------------------------------------------------------------------
  // Non-interference

  function OfDevice(xs: seq<Input>, d: int): seq<Input> {
    if xs == [] then []
    else
      var front := OfDevice(xs[..|xs| - 1], d);
      if xs[|xs| - 1].event.deviceId == d then front + [xs[|xs| - 1]] else front
  }

  function AlertsOf(out: seq<Output>, d: int): seq<Output> {
    if out == [] then []
    else
      var front := AlertsOf(out[..|out| - 1], d);
      if out[|out| - 1].deviceId == d then front + [out[|out| - 1]] else front
  }

  /** The state of a device depends on its own events only. */
  lemma {:induction false} DeviceStateIsOwn(xs: seq<Input>, d: int)
    ensures StateIn(DevicesAfter(xs), d) == StateAfter(OfDevice(xs, d))
    decreases |xs|
  {
    hide NextState;
    if xs != [] {
      var x, front := xs[|xs| - 1], xs[..|xs| - 1];
      DeviceStateIsOwn(front, d);
      var own := OfDevice(front, d);
      assert (own + [x])[..|own|] == own;
    }
  }

  lemma {:induction false} OwnEventsStay(xs: seq<Input>, d: int)
    ensures OfDevice(OfDevice(xs, d), d) == OfDevice(xs, d)
    decreases |xs|
  {
    if xs != [] {
      var x, front := xs[|xs| - 1], xs[..|xs| - 1];
      OwnEventsStay(front, d);
      var own := OfDevice(front, d);
      assert (own + [x])[..|own|] == own;
    }
  }

  /** What the engine raises for one device, among all others, is what it raises on that device's events alone. */
  lemma {:induction false} NonInterference(xs: seq<Input>, d: int)
    ensures AlertsOf(EngineRun(xs), d) == EngineRun(OfDevice(xs, d))
    decreases |xs|
  {
    hide RaisedKinds, DevicesAfter, StateIn, StateAfter;
    if xs != [] {
      var x, front := xs[|xs| - 1], xs[..|xs| - 1];
      NonInterference(front, d);
      assert EngineRun(xs)[..|xs| - 1] == EngineRun(front);
      if x.event.deviceId == d {
        var own := OfDevice(front, d);
        assert (own + [x])[..|own|] == own;
        DeviceStateIsOwn(front, d);
        DeviceStateIsOwn(own, d);
        OwnEventsStay(front, d);
      }
    }
  }

  // ---------------------------------------------------------------------------
  // The laws of the engine's output, with any number of devices

  /** At its `i`th event the device got an alert of this kind. */
  predicate Alerted(alerts: seq<Output>, i: nat, kind: Kind) {
    i < |alerts| && kind in alerts[i].raised
  }

  lemma {:induction false} OutputAt(xs: seq<Input>, i: nat)
    requires i < |xs|
    ensures EngineRun(xs)[i] == OutputOf(StateIn(DevicesAfter(xs[..i]), xs[i].event.deviceId), xs[i])
    decreases |xs|
  {
    hide RaisedKinds, DevicesAfter, StateIn;
    if i < |xs| - 1 {
      OutputAt(xs[..|xs| - 1], i);
      assert xs[..|xs| - 1][..i] == xs[..i];
    }
  }

  lemma RaisedKindsExact(s: DeviceState, x: Input, kind: Kind)
    ensures kind in RaisedKinds(s, x) <==> Raises(s, x, kind)
  {
    hide Raises;
  }

  lemma {:induction false} OwnEventsAreOwn(xs: seq<Input>, d: int)
    ensures forall x | x in OfDevice(xs, d) :: x in xs && x.event.deviceId == d
    decreases |xs|
  {
    if xs != [] {
      OwnEventsAreOwn(xs[..|xs| - 1], d);
    }
  }

  lemma {:induction false} AllOwn(own: seq<Input>, d: int)
    requires forall x | x in own :: x.event.deviceId == d
    ensures OfDevice(own, d) == own
    decreases |own|
  {
    if own != [] {
      assert own[|own| - 1] in own;
      AllOwn(own[..|own| - 1], d);
    }
  }

  /** What the engine puts out for a device at its `i`th event is what is raised on the device's own events. */
  lemma AlertsAreRaises(xs: seq<Input>, d: int, i: nat, kind: Kind)
    requires i < |OfDevice(xs, d)|
    ensures |AlertsOf(EngineRun(xs), d)| == |OfDevice(xs, d)|
    ensures Alerted(AlertsOf(EngineRun(xs), d), i, kind) <==> RaisedAt(OfDevice(xs, d), i, kind)
  {
    hide RaisedKinds, Raises, StateAfter, DevicesAfter, StateIn, OfDevice, AlertsOf, EngineRun;
    var own := OfDevice(xs, d);
    NonInterference(xs, d);
    OwnEventsAreOwn(xs, d);
    assert own[i] in own;
    OutputAt(own, i);
    DeviceStateIsOwn(own[..i], d);
    AllOwn(own[..i], d);
    RaisedKindsExact(StateAfter(own[..i]), own[i], kind);
  }

  lemma {:induction false} OwnInOrder(xs: seq<Input>, d: int)
    requires InOrder(xs)
    ensures InOrder(OfDevice(xs, d))
    decreases |xs|
  {
    if xs != [] {
      var n := |xs| - 1;
      var front, last := xs[..n], xs[n];
      OwnInOrder(front, d);
      OwnEventsAreOwn(front, d);
      forall x | x in OfDevice(front, d)
        ensures x.now <= last.now
      {
        var k :| 0 <= k < n && front[k] == x;
        assert xs[k] == x;
      }
    }
  }

  /** Events evaluated one after the other are in order, whatever was skipped. */
  lemma {:induction false} ClockInOrder(ticks: seq<Tick>, table: Settings)
    requires forall i, j | 0 <= i < j < |ticks| :: ticks[i].now <= ticks[j].now
    ensures InOrder(Inputs(Admitted(ticks), table))
    ensures forall x | x in Inputs(Admitted(ticks), table) :: exists i :: 0 <= i < |ticks| && x.now == ticks[i].now
    decreases |ticks|
  {
    hide Lookup, CacheAfter;
    if ticks != [] {
      var n := |ticks| - 1;
      var front, t := ticks[..n], ticks[n];
      ClockInOrder(front, table);
      var seen := Admitted(front);
      assert (seen + [t])[..|seen|] == seen;
      var xs, ys := Inputs(seen, table), Inputs(Admitted(ticks), table);
      assert xs <= ys && |ys| <= |xs| + 1;
      assert |ys| > |xs| ==> ys[|xs|].now == t.now;
      forall x | x in xs
        ensures x.now <= t.now && exists i :: 0 <= i < |ticks| && x.now == ticks[i].now
      {
        var i :| 0 <= i < n && x.now == front[i].now;
        assert ticks[i] == front[i];
      }
      forall x | x in ys
        ensures exists i :: 0 <= i < |ticks| && x.now == ticks[i].now
      {
        assert x in xs || x.now == ticks[n].now;
      }
    }
  }

  /** The alerts of each kind a device gets are exactly the greedy thinning of its events that trigger it. */
  lemma RaisesAreGreedyThinning(xs: seq<Input>, d: int, i: nat, kind: Kind)
    requires i < |OfDevice(xs, d)|
    ensures Alerted(AlertsOf(EngineRun(xs), d), i, kind) <==> Kept(Moments(OfDevice(xs, d), kind), i, Quiet(kind))
  {
    hide *;
    AlertsAreRaises(xs, d, i, kind);
    OwnThinning(OfDevice(xs, d), i, kind);
  }

  /** Two alerts of one kind are more than the cooldown apart; a silenced trigger is within it of an earlier alert. */
  lemma CooldownHolds(xs: seq<Input>, d: int, kind: Kind)
    requires InOrder(xs)
    ensures var own, alerts := OfDevice(xs, d), AlertsOf(EngineRun(xs), d);
            |alerts| == |own| &&
            (forall i, j | 0 <= i < j < |own| && Alerted(alerts, i, kind) && Alerted(alerts, j, kind) ::
               own[j].now - own[i].now > Quiet(kind)) &&
            (forall i | 0 <= i < |own| && Triggers(own, i, kind) && !Alerted(alerts, i, kind) ::
               exists k :: 0 <= k < i && Alerted(alerts, k, kind) && own[i].now - own[k].now <= Quiet(kind))
  {
    hide Triggers, RaisedAt, Alerted, Quiet, OfDevice, AlertsOf, EngineRun;
    var own, alerts := OfDevice(xs, d), AlertsOf(EngineRun(xs), d);
    NonInterference(xs, d);
    OwnInOrder(xs, d);
    OwnCooldown(own, kind);
    forall i | 0 <= i < |own|
      ensures Alerted(alerts, i, kind) <==> RaisedAt(own, i, kind)
    {
      AlertsAreRaises(xs, d, i, kind);
    }
  }

  /** At most floor(w / cooldown) + 1 alerts of one kind for one device fall into any window of length `w`. */
  lemma AlertRate(xs: seq<Input>, d: int, kind: Kind, start: Time, w: Time, picks: seq<nat>)
    requires InOrder(xs) && w >= 0
    requires forall i, j | 0 <= i < j < |picks| :: picks[i] < picks[j]
    requires forall i | 0 <= i < |picks| ::
               picks[i] < |OfDevice(xs, d)| && Alerted(AlertsOf(EngineRun(xs), d), picks[i], kind) &&
               start <= OfDevice(xs, d)[picks[i]].now <= start + w
    ensures |picks| <= w / Quiet(kind) + 1
  {
    hide RaisedAt, Alerted, Quiet, OfDevice, AlertsOf, EngineRun;
    OwnInOrder(xs, d);
    forall i | 0 <= i < |picks|
      ensures RaisedAt(OfDevice(xs, d), picks[i], kind)
    {
      AlertsAreRaises(xs, d, picks[i], kind);
    }
    OwnRate(OfDevice(xs, d), kind, start, w, picks);
  }

  /**
   A device gets an idle alert at an event exactly when it has been idling since an earlier event that
   began the run, for at least the threshold, and got no idle alert in the last 30 minutes.
   */
  lemma IdleExactness(xs: seq<Input>, d: int, i: nat)
    requires InOrder(xs) && i < |OfDevice(xs, d)|
    ensures var own, alerts := OfDevice(xs, d), AlertsOf(EngineRun(xs), d);
            Alerted(alerts, i, OverIdle) <==>
            (exists j :: 0 <= j < i && IdleRun(own, j, i) && own[i].now - own[j].now >= IdleThreshold(own[i].idleMinutes)) &&
            (forall k | 0 <= k < i && Alerted(alerts, k, OverIdle) :: own[i].now - own[k].now > 1_800_000_000_000)
  {
    hide RaisedAt, Alerted, IdleThreshold, IdleRun, OfDevice, AlertsOf, EngineRun;
    var own, alerts := OfDevice(xs, d), AlertsOf(EngineRun(xs), d);
    OwnInOrder(xs, d);
    OwnIdle(own, i);
    forall k | 0 <= k <= i
      ensures Alerted(alerts, k, OverIdle) <==> RaisedAt(own, k, OverIdle)
    {
      AlertsAreRaises(xs, d, k, OverIdle);
    }
  }

  // ---------------------------------------------------------------------------
  // Alerts whose INSERT fails

  /** At its `i`th event an alert of this kind for the device was stored and published. */
  predicate Stored(alerts: seq<Output>, i: nat, kind: Kind) {
    i < |alerts| && kind in alerts[i].stored
  }

  lemma {:induction false} StoredKindsExact(kinds: seq<Kind>, inserts: set<Kind>, kind: Kind)
    ensures kind in StoredKinds(kinds, inserts) <==> kind in kinds && kind in inserts
    decreases |kinds|
  {
    if kinds != [] {
      StoredKindsExact(kinds[..|kinds| - 1], inserts, kind);
    }
  }

  /** Of the alerts a device gets, those are stored whose INSERT succeeds. */
  lemma StoredIsInserted(xs: seq<Input>, d: int, i: nat, kind: Kind)
    requires i < |OfDevice(xs, d)|
    ensures var own, alerts := OfDevice(xs, d), AlertsOf(EngineRun(xs), d);
            |alerts| == |own| && (Stored(alerts, i, kind) <==> Alerted(alerts, i, kind) && kind in own[i].inserts)
  {
    hide RaisedKinds, StoredKinds, DevicesAfter, StateIn, OfDevice, AlertsOf, EngineRun;
    var own := OfDevice(xs, d);
    NonInterference(xs, d);
    OutputAt(own, i);
    StoredKindsExact(EngineRun(own)[i].raised, own[i].inserts, kind);
  }

  /** Event `i` is covered: an alert of this kind was stored there or not longer than the cooldown before. */
  ghost predicate Covered(own: seq<Input>, alerts: seq<Output>, i: nat, kind: Kind)
    requires i < |own|
  {
    exists k :: 0 <= k <= i && Stored(alerts, k, kind) && own[i].now - own[k].now <= Quiet(kind)
  }

  /**
   The engine notes the time of an alert before it stores it, so an alert whose INSERT fails silences
   the device as well. Every event whose condition holds is covered exactly if no INSERT fails for an
   alert that is raised.
   */
  lemma NoAlertIsLost(xs: seq<Input>, d: int, kind: Kind)
    requires InOrder(xs)
    ensures var own, alerts := OfDevice(xs, d), AlertsOf(EngineRun(xs), d);
            |alerts| == |own| &&
            ((forall i | 0 <= i < |own| && Triggers(own, i, kind) :: Covered(own, alerts, i, kind)) <==>
             (forall i | 0 <= i < |own| && Alerted(alerts, i, kind) :: kind in own[i].inserts))
  {
    hide Triggers, Alerted, Stored, Quiet, OfDevice, AlertsOf, EngineRun, InOrder;
    var own, alerts := OfDevice(xs, d), AlertsOf(EngineRun(xs), d);
    CooldownHolds(xs, d, kind);
    forall i | 0 <= i < |own|
      ensures Stored(alerts, i, kind) <==> Alerted(alerts, i, kind) && kind in own[i].inserts
    {
      StoredIsInserted(xs, d, i, kind);
    }
    forall i | 0 <= i < |own| && Alerted(alerts, i, kind)
      ensures Triggers(own, i, kind) && (Covered(own, alerts, i, kind) <==> kind in own[i].inserts)
    {
      AlertsAreRaises(xs, d, i, kind);
      RaisedTriggers(own, i, kind);
      PositiveCooldown(kind);
    }
    forall i | 0 <= i < |own| && Triggers(own, i, kind) && !Alerted(alerts, i, kind)
      ensures exists k :: 0 <= k < i && Alerted(alerts, k, kind) && own[i].now - own[k].now <= Quiet(kind)
    {
    }
  }

  lemma PositiveCooldown(kind: Kind)
    ensures Quiet(kind) > 0
  {
  }

  /** A silenced event has one alert that silences it, and is covered exactly if that one was stored. */
  lemma SilencedBy(xs: seq<Input>, d: int, i: nat, kind: Kind) returns (k: nat)
    requires InOrder(xs) && i < |OfDevice(xs, d)|
    requires Triggers(OfDevice(xs, d), i, kind) && !Alerted(AlertsOf(EngineRun(xs), d), i, kind)
    ensures var own, alerts := OfDevice(xs, d), AlertsOf(EngineRun(xs), d);
            k < i && Alerted(alerts, k, kind) && own[i].now - own[k].now <= Quiet(kind) &&
            (Covered(own, alerts, i, kind) <==> kind in own[k].inserts)
  {
    hide Triggers, Alerted, Stored, Quiet, OfDevice, AlertsOf, EngineRun;
    var own, alerts := OfDevice(xs, d), AlertsOf(EngineRun(xs), d);
    CooldownHolds(xs, d, kind);
    OwnInOrder(xs, d);
    k :| 0 <= k < i && Alerted(alerts, k, kind) && own[i].now - own[k].now <= Quiet(kind);
    StoredIsInserted(xs, d, k, kind);
    forall j | 0 <= j <= i && Stored(alerts, j, kind) && own[i].now - own[j].now <= Quiet(kind)
      ensures j == k
    {
      StoredIsInserted(xs, d, j, kind);
    }
  }

  /** Two speeding events a second apart, the first INSERT failing: neither leaves an alert. */
  lemma LostAlert(d: int, limit: int) returns (xs: seq<Input>)
    requires limit > 0
    ensures InOrder(xs) && |OfDevice(xs, d)| == 2 && Overspeed in OfDevice(xs, d)[1].inserts
    ensures var own, alerts := OfDevice(xs, d), AlertsOf(EngineRun(xs), d);
            Triggers(own, 0, Overspeed) && Triggers(own, 1, Overspeed) &&
            !Covered(own, alerts, 0, Overspeed) && !Covered(own, alerts, 1, Overspeed)
  {
    hide EngineRun, AlertsOf, Raises;
    var e := Event(d, 1, limit as real + 1.0, true, None, None);
    var x, y := Input(e, limit, 15, 0, {}), Input(e, limit, 15, 1_000_000_000, {Overspeed});
    xs := [x, y];
    var first := [x];
    assert xs[..1] == first && first[..0] == [];
    assert OfDevice(first, d) == first;
    assert OfDevice(xs, d) == xs;
    FirstIsRaised(xs);
    StoredIsInserted(xs, d, 0, Overspeed);
    StoredIsInserted(xs, d, 1, Overspeed);
    AlertsAreRaises(xs, d, 0, Overspeed);
    AlertsAreRaises(xs, d, 1, Overspeed);
    CooldownHolds(xs, d, Overspeed);
  }

  lemma FirstIsRaised(xs: seq<Input>)
    requires xs != [] && Triggers(xs, 0, Overspeed)
    ensures RaisedAt(xs, 0, Overspeed)
  {
    assert xs[..0] == [];
  }

  // ---------------------------------------------------------------------------
  // The cache between devices

  function TicksOf(ticks: seq<Tick>, d: int): seq<Tick> {
    if ticks == [] then []
    else
      var front := TicksOf(ticks[..|ticks| - 1], d);
      if ticks[|ticks| - 1].event.deviceId == d then front + [ticks[|ticks| - 1]] else front
  }

  /** Every read succeeds and the settings never change. */
  predicate Steady(ticks: seq<Tick>) {
    forall t | t in ticks :: t.ok
  }

  ghost predicate Constant(table: Settings) {
    forall c, t, u :: table(c, t) == table(c, u)
  }

  function SteadyInput(t: Tick, table: Settings): Input {
    var row := table(t.event.companyId, 0);
    Input(t.event, EffectiveSpeed(row), EffectiveIdle(row), t.now, t.inserts)
  }

  /** With constant settings, a cached entry is what a read would give. */
  lemma {:induction false} CacheIsCurrent(ticks: seq<Tick>, table: Settings, c: int)
    requires Steady(ticks) && Constant(table) && c in CacheAfter(ticks, table)
    ensures var rules, row := CacheAfter(ticks, table)[c], table(c, 0);
            rules.speedLimit == EffectiveSpeed(row) && rules.idleMinutes == EffectiveIdle(row)
    decreases |ticks|
  {
    hide EffectiveSpeed, EffectiveIdle;
    var t, front := ticks[|ticks| - 1], ticks[..|ticks| - 1];
    assert t in ticks && Steady(front);
    assert table(c, t.read) == table(c, 0);
    if c in CacheAfter(front, table) {
      CacheIsCurrent(front, table, c);
    }
  }

  lemma SteadyLookup(front: seq<Tick>, t: Tick, table: Settings)
    requires Steady(front) && t.ok && Constant(table)
    ensures var rules := Lookup(CacheAfter(front, table), t, table);
            Input(t.event, rules.speedLimit, rules.idleMinutes, t.now, t.inserts) == SteadyInput(t, table)
  {
    hide EffectiveSpeed, EffectiveIdle, CacheAfter;
    var c := t.event.companyId;
    assert table(c, t.read) == table(c, 0);
    if c in CacheAfter(front, table) {
      CacheIsCurrent(front, table, c);
    }
  }

  lemma {:induction false} SteadyTicksOf(ticks: seq<Tick>, d: int)
    requires Steady(ticks)
    ensures Steady(TicksOf(ticks, d))
    decreases |ticks|
  {
    if ticks != [] {
      assert ticks[|ticks| - 1] in ticks;
      SteadyTicksOf(ticks[..|ticks| - 1], d);
    }
  }

  lemma {:induction false} SteadyInputsOfDevice(ticks: seq<Tick>, table: Settings, d: int)
    requires Steady(ticks) && Constant(table)
    ensures OfDevice(Inputs(ticks, table), d) == Inputs(TicksOf(ticks, d), table)
    decreases |ticks|
  {
    hide Lookup, CacheAfter;
    if ticks != [] {
      var t, front := ticks[|ticks| - 1], ticks[..|ticks| - 1];
      assert t in ticks && Steady(front);
      SteadyInputsOfDevice(front, table, d);
      SteadyLookup(front, t, table);
      assert Inputs(ticks, table)[..|ticks| - 1] == Inputs(front, table);
      if t.event.deviceId == d {
        var own := TicksOf(front, d);
        SteadyTicksOf(front, d);
        assert (own + [t])[..|own|] == own;
        SteadyLookup(own, t, table);
      }
    }
  }

  /** With constant settings and working reads, running the engine on one device's events alone changes nothing for it. */
  lemma DeviceAlone(ticks: seq<Tick>, table: Settings, d: int)
    requires Steady(ticks) && Constant(table)
    ensures AlertsOf(EngineRun(Inputs(ticks, table)), d) == EngineRun(Inputs(TicksOf(ticks, d), table))
  {
    NonInterference(Inputs(ticks, table), d);
    SteadyInputsOfDevice(ticks, table, d);
  }

  // ---------------------------------------------------------------------------
  // Which thresholds are in force

  /** The speed limit a settings row asks for: 80 unless it names a positive one. */
  function SpeedIn(row: Option<SettingsRow>): int {
    match row
    case None => 80
    case Some(SettingsRow(speed, _)) => if speed > 0 then speed else 80
  }

  /** The minutes of idling a settings row asks for: 15 unless it names a positive number. */
  function IdleIn(row: Option<SettingsRow>): int {
    match row
    case None => 15
    case Some(SettingsRow(_, minutes)) => if minutes > 0 then minutes else 15
  }

  lemma EffectiveIs(row: Option<SettingsRow>)
    ensures EffectiveSpeed(row) == SpeedIn(row) && EffectiveIdle(row) == IdleIn(row)
  {
  }

  /** The event at which a company's thresholds were last read: the first of all, and the first a minute or more after the last. */
  function LoadedBy(ticks: seq<Tick>, c: int): Option<Tick> {
    if ticks == [] then None
    else
      var t, before := ticks[|ticks| - 1], LoadedBy(ticks[..|ticks| - 1], c);
      if t.event.companyId != c || (before.Some? && t.check - before.value.load < 60_000_000_000) then before else Some(t)
  }

  /** What that read gave; a failed one gives nothing. */
  function RowRead(t: Tick, table: Settings): Option<SettingsRow> {
    if t.ok then table(t.event.companyId, t.read) else None
  }

  lemma {:induction false} CacheExactly(ticks: seq<Tick>, table: Settings, c: int)
    ensures match LoadedBy(ticks, c)
            case None => c !in CacheAfter(ticks, table)
            case Some(t) =>
              t.event.companyId == c && c in CacheAfter(ticks, table) &&
              CacheAfter(ticks, table)[c] == Rules(SpeedIn(RowRead(t, table)), IdleIn(RowRead(t, table)), t.load)
    decreases |ticks|
  {
    hide SpeedIn, IdleIn, EffectiveSpeed, EffectiveIdle;
    if ticks != [] {
      CacheExactly(ticks[..|ticks| - 1], table, c);
      EffectiveIs(RowRead(ticks[|ticks| - 1], table));
    }
  }

  /** The thresholds used at every event are those of the last read for its company, whatever reads fail. */
  lemma ThresholdsExactly(ticks: seq<Tick>, table: Settings, i: nat)
    requires i < |ticks|
    ensures var x, loaded := Inputs(ticks, table)[i], LoadedBy(ticks[..i + 1], ticks[i].event.companyId);
            loaded.Some? && x.speedLimit == SpeedIn(RowRead(loaded.value, table)) &&
            x.idleMinutes == IdleIn(RowRead(loaded.value, table))
  {
    hide SpeedIn, IdleIn, Lookup;
    InputAt(ticks, table, i);
    assert ticks[..i + 1][..i] == ticks[..i];
    CacheExactly(ticks[..i + 1], table, ticks[i].event.companyId);
  }

  /** Only events of a device and a company are evaluated, and all of those. */
  lemma {:induction false} AdmittedExactly(ticks: seq<Tick>, t: Tick)
    ensures multiset(Admitted(ticks))[t] ==
            if t.event.deviceId != 0 && t.event.companyId != 0 then multiset(ticks)[t] else 0
    decreases |ticks|
  {
    if ticks != [] {
      var front, last := ticks[..|ticks| - 1], ticks[|ticks| - 1];
      AdmittedExactly(front, t);
      assert ticks == front + [last];
    }
  }

  // ---------------------------------------------------------------------------
  // Staleness

  /** The clock readings of a tick, in the order the program takes them. */
  predicate Ordered(t: Tick) {
    t.check <= t.load <= t.read <= t.now
  }

  /** Every cached entry is what the table held at some time not before the entry was dated. */
  lemma {:induction false} CacheComesFromTable(ticks: seq<Tick>, table: Settings, c: int) returns (read: Time)
    requires (forall t | t in ticks :: t.ok && Ordered(t)) && c in CacheAfter(ticks, table)
    ensures var rules := CacheAfter(ticks, table)[c];
            rules.loadedAt <= read && rules.speedLimit == EffectiveSpeed(table(c, read)) &&
            rules.idleMinutes == EffectiveIdle(table(c, read)) &&
            exists t :: t in ticks && read == t.read
    decreases |ticks|
  {
    hide EffectiveSpeed, EffectiveIdle;
    var t, front := ticks[|ticks| - 1], ticks[..|ticks| - 1];
    assert t in ticks;
    if c in CacheAfter(front, table) {
      read := CacheComesFromTable(front, table, c);
      assert exists u :: u in front && read == u.read;
    }
    if c == t.event.companyId && Lookup(CacheAfter(front, table), t, table) == Reload(t, table) {
      read := t.read;
    }
  }

  /** Every threshold used was in the table, or is the default for it, less than a minute before the cache was consulted. */
  lemma BoundedStaleness(ticks: seq<Tick>, table: Settings, i: nat) returns (read: Time)
    requires i < |ticks| && forall t | t in ticks :: t.ok && Ordered(t)
    ensures var x, row := Inputs(ticks, table)[i], table(ticks[i].event.companyId, read);
            x.speedLimit == SpeedIn(row) && x.idleMinutes == IdleIn(row)
    ensures ticks[i].check - read < 60_000_000_000
    ensures exists k :: 0 <= k <= i && read == ticks[k].read
  {
    hide EffectiveSpeed, EffectiveIdle, CacheAfter, SpeedIn, IdleIn;
    var t, front := ticks[i], ticks[..i];
    InputAt(ticks, table, i);
    var cache, c := CacheAfter(front, table), t.event.companyId;
    if c in cache && t.check - cache[c].loadedAt < CACHE_TTL {
      forall u | u in front
        ensures u.ok && Ordered(u)
      {
        assert u in ticks;
      }
      read := CacheComesFromTable(front, table, c);
      var u :| u in front && read == u.read;
      var k :| 0 <= k < i && front[k] == u;
      assert ticks[k] == u;
    } else {
      read := t.read;
      assert t in ticks;
    }
    EffectiveIs(table(c, read));
  }

  lemma {:induction false} InputAt(ticks: seq<Tick>, table: Settings, i: nat)
    requires i < |ticks|
    ensures var t := ticks[i];
            var rules := Lookup(CacheAfter(ticks[..i], table), t, table);
            Inputs(ticks, table)[i] == Input(t.event, rules.speedLimit, rules.idleMinutes, t.now, t.inserts)
    decreases |ticks|
  {
    hide Lookup, CacheAfter;
    if i < |ticks| - 1 {
      InputAt(ticks[..|ticks| - 1], table, i);
      assert ticks[..|ticks| - 1][..i] == ticks[..i];
    }
  }
}
