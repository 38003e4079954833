/**
 The command lifecycle read off the list of steps alone: which message the subscriber carries and to
 which session, what each session would acknowledge, and from that the exact status of every command.
 */
module CommandHistory {
  import opened Options
  import opened Commands

  // ---------------------------------------------------------------------------
  // The history

  /** The device a command was issued for. */
  function DeviceOfCommand(steps: seq<Step>, id: CommandId): Option<Imei> {
    if steps == [] then None
    else
      match steps[|steps| - 1]
      case Insert(imei, c) => if c == id then Some(imei) else DeviceOfCommand(steps[..|steps| - 1], id)
      case _ => DeviceOfCommand(steps[..|steps| - 1], id)
  }

  /** The messages published so far. */
  function Published(steps: seq<Step>): seq<Message> {
    if steps == [] then []
    else
      var front, last := steps[..|steps| - 1], steps[|steps| - 1];
      if last.Publish? && last.ok && DeviceOfCommand(front, last.id).Some?
      then Published(front) + [Message(DeviceOfCommand(front, last.id).value, last.id)]
      else Published(front)
  }

  /** How many of them the subscriber has received. */
  function Received(steps: seq<Step>): nat {
    if steps == [] then 0 else Received(steps[..|steps| - 1]) + if steps[|steps| - 1].Lookup? then 1 else 0
  }

  /** The device of a connection. */
  function DeviceOfSession(steps: seq<Step>, sess: SessionId): Option<Imei> {
    if steps == [] then None
    else
      match steps[|steps| - 1]
      case Connect(c, imei) => if c == sess then Some(imei) else DeviceOfSession(steps[..|steps| - 1], sess)
      case _ => DeviceOfSession(steps[..|steps| - 1], sess)
  }

  /** The connection a device is reached by: its latest, unless one of its connections has ended since. */
  function ReachedBy(steps: seq<Step>, imei: Imei): Option<SessionId> {
    if steps == [] then None
    else
      var front := steps[..|steps| - 1];
      match steps[|steps| - 1]
      case Connect(sess, i) => if i == imei then Some(sess) else ReachedBy(front, imei)
      case Disconnect(sess) => if DeviceOfSession(front, sess) == Some(imei) then None else ReachedBy(front, imei)
      case _ => ReachedBy(front, imei)
  }

  /** A command on its way to a session. */
  datatype Trip = Trip(id: CommandId, imei: Imei, sess: SessionId)

  /** What the subscriber is delivering: the last message received, if its device was reachable and the write succeeded. */
  function Carried(steps: seq<Step>): Option<Trip> {
    if steps == [] then None
    else
      var front := steps[..|steps| - 1];
      match steps[|steps| - 1]
      case Lookup =>
        if Received(front) >= |Published(front)| then None
        else
          var m := Published(front)[Received(front)];
          (match ReachedBy(front, m.imei)
           case Some(sess) => Some(Trip(m.id, m.imei, sess))
           case None => None)
      case Write(ok) => if ok then Carried(front) else None
      case Deliver(_) => None
      case _ => Carried(front)
  }

  /** The command a session's next response would be taken for. */
  function Slot(steps: seq<Step>, sess: SessionId): CommandId {
    if steps == [] then 0
    else
      var front := steps[..|steps| - 1];
      match steps[|steps| - 1]
      case Remember => (match Carried(front) case Some(t) => if t.sess == sess then t.id else Slot(front, sess) case None => Slot(front, sess))
      case Clear(s) => if s == sess then 0 else Slot(front, sess)
      case _ => Slot(front, sess)
  }

  /** The command a session is about to acknowledge: what its last response found in the slot. */
  function Answering(steps: seq<Step>, sess: SessionId): CommandId {
    if steps == [] then 0
    else
      var front := steps[..|steps| - 1];
      match steps[|steps| - 1]
      case Response(s) => if s == sess then Slot(front, sess) else Answering(front, sess)
      case Acknowledge(s, _) => if s == sess then 0 else Answering(front, sess)
      case _ => Answering(front, sess)
  }

  /** Step `i` acknowledges the command. */
  predicate Acknowledges(steps: seq<Step>, i: nat, id: CommandId)
    requires i < |steps|
  {
    steps[i].Acknowledge? && steps[i].ok && Answering(steps[..i], steps[i].sess) == id
  }

  /** Step `i` reports the command as delivered. */
  predicate Delivers(steps: seq<Step>, i: nat, id: CommandId)
    requires i < |steps|
  {
    steps[i] == Deliver(true) && Carried(steps[..i]).Some? && Carried(steps[..i]).value.id == id
  }

  // ---------------------------------------------------------------------------
  // The history is the state

  /** The state agrees with the history on one command, one device and one session. */
  ghost predicate CommandAgrees(s: State, steps: seq<Step>, id: CommandId) {
    match DeviceOfCommand(steps, id)
    case None => id !in s.rows
    case Some(imei) => id in s.rows && s.rows[id].imei == imei
  }

  ghost predicate QueueAgrees(s: State, steps: seq<Step>) {
    Received(steps) <= |Published(steps)| && s.queue == Published(steps)[Received(steps)..]
  }

  ghost predicate DeviceAgrees(s: State, steps: seq<Step>, imei: Imei) {
    match ReachedBy(steps, imei)
    case None => imei !in s.directory
    case Some(sess) => imei in s.directory && s.directory[imei] == sess
  }

  ghost predicate SubscriberAgrees(s: State, steps: seq<Step>) {
    match Carried(steps)
    case None => s.subscriber.Idle?
    case Some(t) => !s.subscriber.Idle? && t == Trip(s.subscriber.id, s.subscriber.imei, s.subscriber.sess)
  }

  ghost predicate SessionAgrees(s: State, steps: seq<Step>, sess: SessionId) {
    match DeviceOfSession(steps, sess)
    case None => sess !in s.sessions && Slot(steps, sess) == 0 && Answering(steps, sess) == 0
    case Some(imei) =>
      sess in s.sessions && s.sessions[sess].imei == imei && s.sessions[sess].lastCommand == Slot(steps, sess) &&
      Answering(steps, sess) == if s.sessions[sess].phase.Loaded? then s.sessions[sess].phase.id else 0
  }

  lemma {:induction false} CommandHistoryAgrees(states: seq<State>, steps: seq<Step>, n: nat, id: CommandId)
    requires Run(states, steps) && n < |states|
    ensures CommandAgrees(states[n], steps[..n], id)
  {
    if n > 0 {
      CommandHistoryAgrees(states, steps, n - 1, id);
      assert steps[..n][..n - 1] == steps[..n - 1];
      assert Enabled(states[n - 1], steps[n - 1]);
    }
  }

  lemma {:induction false} QueueHistoryAgrees(states: seq<State>, steps: seq<Step>, n: nat)
    requires Run(states, steps) && n < |states|
    ensures QueueAgrees(states[n], steps[..n])
  {
    if n > 0 {
      var front, last := steps[..n - 1], steps[n - 1];
      QueueHistoryAgrees(states, steps, n - 1);
      assert steps[..n][..n - 1] == front;
      assert Enabled(states[n - 1], last);
      if last.Publish? {
        CommandHistoryAgrees(states, steps, n - 1, last.id);
      }
    }
  }

  lemma {:induction false} DeviceHistoryAgrees(states: seq<State>, steps: seq<Step>, n: nat, imei: Imei)
    requires Run(states, steps) && n < |states|
    ensures DeviceAgrees(states[n], steps[..n], imei)
  {
    if n > 0 {
      var front, last := steps[..n - 1], steps[n - 1];
      DeviceHistoryAgrees(states, steps, n - 1, imei);
      assert steps[..n][..n - 1] == front;
      assert Enabled(states[n - 1], last);
      if last.Disconnect? {
        ConnectionsAgree(states, steps, n - 1, last.sess);
      }
    }
  }

  lemma {:induction false} ConnectionsAgree(states: seq<State>, steps: seq<Step>, n: nat, sess: SessionId)
    requires Run(states, steps) && n < |states|
    ensures match DeviceOfSession(steps[..n], sess)
            case None => sess !in states[n].sessions
            case Some(imei) => sess in states[n].sessions && states[n].sessions[sess].imei == imei
  {
    if n > 0 {
      ConnectionsAgree(states, steps, n - 1, sess);
      assert steps[..n][..n - 1] == steps[..n - 1];
      assert Enabled(states[n - 1], steps[n - 1]);
    }
  }

  lemma {:induction false} SubscriberHistoryAgrees(states: seq<State>, steps: seq<Step>, n: nat)
    requires Run(states, steps) && n < |states|
    ensures SubscriberAgrees(states[n], steps[..n])
  {
    if n > 0 {
      var s, front, last := states[n - 1], steps[..n - 1], steps[n - 1];
      SubscriberHistoryAgrees(states, steps, n - 1);
      assert steps[..n][..n - 1] == front;
      assert Enabled(s, last);
      if last.Lookup? {
        QueueHistoryAgrees(states, steps, n - 1);
        DeviceHistoryAgrees(states, steps, n - 1, s.queue[0].imei);
      }
    }
  }

  lemma {:induction false} SessionHistoryAgrees(states: seq<State>, steps: seq<Step>, n: nat, sess: SessionId)
    requires Run(states, steps) && n < |states|
    ensures SessionAgrees(states[n], steps[..n], sess)
  {
    hide Apply, Enabled, SessionAgrees, SubscriberAgrees;
    if n == 0 {
      NoSession(sess);
      assert steps[..0] == [];
    } else {
      SessionHistoryAgrees(states, steps, n - 1, sess);
      SubscriberHistoryAgrees(states, steps, n - 1);
      SlotsAreNotNegative(states, steps, n - 1, sess);
      SessionStep(states[n - 1], steps[..n - 1], steps[n - 1], sess);
      assert steps[..n] == steps[..n - 1] + [steps[n - 1]];
    }
  }

  lemma NoSession(sess: SessionId)
    ensures SessionAgrees(INITIAL, [], sess)
  {
  }

  lemma SessionStep(s: State, front: seq<Step>, step: Step, sess: SessionId)
    requires Enabled(s, step) && SessionAgrees(s, front, sess) && SubscriberAgrees(s, front)
    requires sess in s.sessions ==> s.sessions[sess].lastCommand >= 0
    ensures SessionAgrees(Apply(s, step), front + [step], sess)
  {
    hide Carried;
    assert (front + [step])[..|front|] == front;
  }

  lemma SlotsAreNotNegative(states: seq<State>, steps: seq<Step>, n: nat, sess: SessionId)
    requires Run(states, steps) && n < |states|
    ensures sess in states[n].sessions ==> states[n].sessions[sess].lastCommand >= 0
  {
    InvAlways(states, steps, n);
    assert HeldOk(states[n]);
  }

  // ---------------------------------------------------------------------------
  // What the history means

  /** The message received next goes to the connection its device is reached by, and to none if there is none. */
  lemma LookupFinds(states: seq<State>, steps: seq<Step>, i: nat)
    requires Run(states, steps) && i < |steps| && steps[i].Lookup?
    ensures Received(steps[..i]) < |Published(steps[..i])|
    ensures var m := Published(steps[..i])[Received(steps[..i])];
            states[i + 1].subscriber ==
              match ReachedBy(steps[..i], m.imei)
              case Some(sess) => Found(m.imei, m.id, sess)
              case None => Idle
  {
    hide Published, Received, ReachedBy;
    QueueHistoryAgrees(states, steps, i);
    assert Enabled(states[i], steps[i]);
    DeviceHistoryAgrees(states, steps, i, states[i].queue[0].imei);
  }

  /**
   The status of a command is exactly what the steps say: Acknowledged if one of them acknowledged it,
   else Delivered if one of them reported its delivery, else Sent; and it has a row if it was issued.
   */
  lemma {:induction false} StatusExactly(states: seq<State>, steps: seq<Step>, n: nat, id: CommandId)
    requires Run(states, steps) && n < |states|
    ensures id in states[n].rows <==> DeviceOfCommand(steps[..n], id).Some?
    ensures id in states[n].rows ==>
              states[n].rows[id].status ==
                if exists i :: 0 <= i < n && Acknowledges(steps, i, id) then Acknowledged
                else if exists i :: 0 <= i < n && Delivers(steps, i, id) then Delivered
                else Sent
    ensures id !in states[n].rows ==> forall i | 0 <= i < n :: !Acknowledges(steps, i, id) && !Delivers(steps, i, id)
  {
    hide Acknowledges, Delivers, DeviceOfCommand, Apply;
    CommandHistoryAgrees(states, steps, n, id);
    if n > 0 {
      StatusExactly(states, steps, n - 1, id);
      StatusStepExactly(states, steps, n - 1, id);
    }
  }

  /** What one step does to the row of a command. */
  lemma StatusStepExactly(states: seq<State>, steps: seq<Step>, i: nat, id: CommandId)
    requires Run(states, steps) && i < |steps|
    ensures id in states[i].rows ==>
              id in states[i + 1].rows &&
              states[i + 1].rows[id].status ==
                if Acknowledges(steps, i, id) then Acknowledged
                else if Delivers(steps, i, id) && states[i].rows[id].status == Sent then Delivered
                else states[i].rows[id].status
    ensures id !in states[i].rows ==>
              !Acknowledges(steps, i, id) && !Delivers(steps, i, id) &&
              (id in states[i + 1].rows ==> states[i + 1].rows[id].status == Sent)
  {
    hide Carried, Answering, Slot;
    var s, step := states[i], steps[i];
    assert Enabled(s, step);
    InvAlways(states, steps, i);
    if step.Acknowledge? {
      SessionHistoryAgrees(states, steps, i, step.sess);
      AcknowledgedHere(states, steps, i);
    } else if step.Deliver? {
      SubscriberHistoryAgrees(states, steps, i);
      assert SubscriberOk(s);
    }
  }

  /** Step `i` writes the command to the session's socket. */
  predicate Writes(steps: seq<Step>, i: nat, id: CommandId, sess: SessionId)
    requires i < |steps|
  {
    steps[i] == Write(true) && Carried(steps[..i]).Some? &&
    Carried(steps[..i]).value.id == id && Carried(steps[..i]).value.sess == sess
  }

  /** Step `i` sends the update that acknowledges the command, which may fail. */
  predicate Answers(steps: seq<Step>, i: nat, id: CommandId)
    requires i < |steps|
  {
    steps[i].Acknowledge? && Answering(steps[..i], steps[i].sess) == id
  }

  /** The writes and acknowledgements that the safety laws speak of are those of the steps. */
  lemma {:induction false} RecordsExactly(states: seq<State>, steps: seq<Step>, n: nat, id: CommandId, sess: SessionId)
    requires Run(states, steps) && n < |states|
    ensures (id, sess) in states[n].writes <==> exists i :: 0 <= i < n && Writes(steps, i, id, sess)
    ensures id in states[n].acks <==> exists i :: 0 <= i < n && Answers(steps, i, id)
  {
    hide Writes, Answers, Apply, Enabled;
    if n > 0 {
      RecordsExactly(states, steps, n - 1, id, sess);
      RecordStep(states, steps, n - 1, id, sess);
    }
  }

  lemma RecordStep(states: seq<State>, steps: seq<Step>, i: nat, id: CommandId, sess: SessionId)
    requires Run(states, steps) && i < |steps|
    ensures (id, sess) in states[i + 1].writes <==> (id, sess) in states[i].writes || Writes(steps, i, id, sess)
    ensures id in states[i + 1].acks <==> id in states[i].acks || Answers(steps, i, id)
  {
    hide Carried, Answering, Slot;
    var s, step := states[i], steps[i];
    assert Enabled(s, step);
    if step.Acknowledge? {
      SessionHistoryAgrees(states, steps, i, step.sess);
    } else if step.Write? {
      SubscriberHistoryAgrees(states, steps, i);
    }
  }

  // ---------------------------------------------------------------------------
  // A command that goes all the way

  /** The state a list of steps leads to from the beginning, if each is enabled in its turn. */
  function Play(steps: seq<Step>): Option<State> {
    if steps == [] then Some(INITIAL)
    else
      match Play(steps[..|steps| - 1])
      case None => None
      case Some(s) => if Enabled(s, steps[|steps| - 1]) then Some(Apply(s, steps[|steps| - 1])) else None
  }

  lemma {:induction false} PlayIsRun(steps: seq<Step>) returns (states: seq<State>)
    requires Play(steps).Some?
    ensures Run(states, steps) && Play(steps) == Some(states[|steps|])
    decreases |steps|
  {
    hide Apply, Enabled;
    if steps == [] {
      states := [INITIAL];
    } else {
      var front, last := steps[..|steps| - 1], steps[|steps| - 1];
      var before := PlayIsRun(front);
      states := before + [Play(steps).value];
      forall i | 0 <= i < |steps|
        ensures Enabled(states[i], steps[i]) && states[i + 1] == Apply(states[i], steps[i])
      {
        assert i < |front| ==> steps[i] == front[i] && states[i] == before[i] && states[i + 1] == before[i + 1];
      }
    }
  }

  lemma PlayOne(steps: seq<Step>, s: State, step: Step)
    requires Play(steps) == Some(s) && Enabled(s, step)
    ensures Play(steps + [step]) == Some(Apply(s, step))
  {
    hide Apply, Enabled;
    assert (steps + [step])[..|steps|] == steps;
  }

  /** Any command for any device can be issued, delivered and acknowledged. */
  lemma AcknowledgementHappens(imei: Imei, id: CommandId, sess: SessionId)
    returns (states: seq<State>, steps: seq<Step>)
    requires id > 0
    ensures Run(states, steps) && id in states[|steps|].rows && states[|steps|].rows[id] == Row(imei, Acknowledged)
  {
    hide Play;
    var s;
    s, steps := DeliveryHappens(imei, id, sess);
    PlayOne(steps, s, Deliver(true));
    var s1 := Apply(s, Deliver(true));
    steps := steps + [Deliver(true)];
    PlayOne(steps, s1, Response(sess));
    var s2 := Apply(s1, Response(sess));
    steps := steps + [Response(sess)];
    PlayOne(steps, s2, Acknowledge(sess, true));
    steps := steps + [Acknowledge(sess, true)];
    states := PlayIsRun(steps);
  }

  lemma DeliveryHappens(imei: Imei, id: CommandId, sess: SessionId) returns (s: State, steps: seq<Step>)
    requires id > 0
    ensures Play(steps) == Some(s) && s.subscriber == Stored(imei, id, sess)
    ensures s.rows == map[id := Row(imei, Sent)] && sess in s.sessions && s.sessions[sess] == Session(imei, id, Reading)
  {
    hide Play;
    s, steps := QueuedForConnected(imei, id, sess);
    PlayOne(steps, s, Lookup);
    steps, s := steps + [Lookup], Apply(s, Lookup);
    PlayOne(steps, s, Write(true));
    steps, s := steps + [Write(true)], Apply(s, Write(true));
    PlayOne(steps, s, Remember);
    steps, s := steps + [Remember], Apply(s, Remember);
  }

  lemma QueuedForConnected(imei: Imei, id: CommandId, sess: SessionId) returns (s: State, steps: seq<Step>)
    requires id > 0
    ensures Play(steps) == Some(s) && s.subscriber.Idle? && s.queue == [Message(imei, id)]
    ensures s.rows == map[id := Row(imei, Sent)] && imei in s.directory && s.directory[imei] == sess
    ensures sess in s.sessions && s.sessions[sess] == Session(imei, 0, Reading)
  {
    hide Play;
    PlayNothing();
    s, steps := INITIAL, [];
    PlayOne(steps, s, Insert(imei, id));
    steps, s := steps + [Insert(imei, id)], Apply(s, Insert(imei, id));
    PlayOne(steps, s, Publish(id, true));
    steps, s := steps + [Publish(id, true)], Apply(s, Publish(id, true));
    PlayOne(steps, s, Connect(sess, imei));
    steps, s := steps + [Connect(sess, imei)], Apply(s, Connect(sess, imei));
  }

  lemma PlayNothing()
    ensures Play([]) == Some(INITIAL)
  {
  }
}
