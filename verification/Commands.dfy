/**
 Remote commands: the row in device_commands, the subscriber goroutine that writes the command to
 a device socket, and the connection handlers that record the responses
 (backend/cmd/rudra-ingest/main.go and backend/internal/handler/legacy_handlers.go).
 Every shared access is its own atomic step, and steps of different goroutines interleave freely.
 */
module Commands {

  type Imei = string
  type CommandId = int
  type SessionId = int

  datatype Status = Sent | Delivered | Acknowledged

  function Rank(s: Status): nat {
    match s case Sent => 0 case Delivered => 1 case Acknowledged => 2
  }

  datatype Row = Row(imei: Imei, status: Status)

  /** Where a connection handler stands. */
  datatype Phase =
    | Reading                        // waiting for a frame
    | Loaded(id: CommandId)          // has read lastCommand, which was positive
    | Updated(id: CommandId)         // has sent the UPDATE, has not yet cleared lastCommand
    | Returned

  datatype Session = Session(imei: Imei, lastCommand: CommandId, phase: Phase)

  /** Where the subscriber goroutine stands with the message it is handling. */
  datatype Subscriber =
    | Idle
    | Found(imei: Imei, id: CommandId, sess: SessionId)
    | Written(imei: Imei, id: CommandId, sess: SessionId)
    | Stored(imei: Imei, id: CommandId, sess: SessionId)

  datatype Message = Message(imei: Imei, id: CommandId)

  datatype State = State(
    rows: map<CommandId, Row>,
    unpublished: set<CommandId>,     // requests between their INSERT and their publish
    queue: seq<Message>,
    sessions: map<SessionId, Session>,
    directory: map<Imei, SessionId>,
    subscriber: Subscriber,
    // history
    writes: set<(CommandId, SessionId)>,
    acks: seq<CommandId>)

  const INITIAL := State(map[], {}, [], map[], map[], Idle, {}, [])

  datatype Step =
    | Insert(imei: Imei, id: CommandId)                   // API: INSERT ... 'Sent'
    | Publish(id: CommandId, ok: bool)                    // API: publish to the subscriber
    | Connect(sess: SessionId, imei: Imei)                // handler: sessions.Store
    | Disconnect(sess: SessionId)                         // handler: deferred sessions.Delete
    | Response(sess: SessionId)                           // handler: lastCommand.Load
    | Acknowledge(sess: SessionId, ok: bool)              // handler: UPDATE ... 'Acknowledged'
    | Clear(sess: SessionId)                              // handler: lastCommand.Store(0)
    | Lookup                                              // subscriber: next message, sessions.Load
    | Write(ok: bool)                                     // subscriber: conn.Write
    | Remember                                            // subscriber: lastCommand.Store(id)
    | Deliver(ok: bool)                                   // subscriber: UPDATE ... 'Delivered'

  predicate Enabled(s: State, step: Step) {
    match step
    case Insert(_, id) => id > 0 && id !in s.rows
    case Publish(id, _) => id in s.unpublished && id in s.rows
    case Connect(sess, _) => sess !in s.sessions
    case Disconnect(sess) => sess in s.sessions && s.sessions[sess].phase == Reading
    case Response(sess) => sess in s.sessions && s.sessions[sess].phase == Reading
    case Acknowledge(sess, _) => sess in s.sessions && s.sessions[sess].phase.Loaded?
    case Clear(sess) => sess in s.sessions && s.sessions[sess].phase.Updated?
    case Lookup => s.subscriber.Idle? && s.queue != []
    case Write(_) => s.subscriber.Found?
    case Remember => s.subscriber.Written? && s.subscriber.sess in s.sessions
    case Deliver(_) => s.subscriber.Stored?
  }

  function Apply(s: State, step: Step): State
    requires Enabled(s, step)
  {
    match step
    case Insert(imei, id) =>
      s.(rows := s.rows[id := Row(imei, Sent)], unpublished := s.unpublished + {id})
    case Publish(id, ok) =>
      s.(unpublished := s.unpublished - {id},
         queue := if ok then s.queue + [Message(s.rows[id].imei, id)] else s.queue)
    case Connect(sess, imei) =>
      s.(sessions := s.sessions[sess := Session(imei, 0, Reading)], directory := s.directory[imei := sess])
    case Disconnect(sess) =>
      // the deferred delete is by IMEI: it also removes a newer connection of the same device
      var me := s.sessions[sess];
      s.(sessions := s.sessions[sess := me.(phase := Returned)], directory := s.directory - {me.imei})
    case Response(sess) =>
      var me := s.sessions[sess];
      if me.lastCommand > 0 then s.(sessions := s.sessions[sess := me.(phase := Loaded(me.lastCommand))]) else s
    case Acknowledge(sess, ok) =>
      var me := s.sessions[sess];
      var id := me.phase.id;
      s.(rows := if ok && id in s.rows then s.rows[id := s.rows[id].(status := Acknowledged)] else s.rows,
         sessions := s.sessions[sess := me.(phase := Updated(id))],
         acks := s.acks + [id])
    case Clear(sess) =>
      s.(sessions := s.sessions[sess := s.sessions[sess].(lastCommand := 0, phase := Reading)])
    case Lookup =>
      var m := s.queue[0];
      s.(queue := s.queue[1..],
         subscriber := if m.imei in s.directory then Found(m.imei, m.id, s.directory[m.imei]) else Idle)
    case Write(ok) =>
      var w := s.subscriber;
      if ok then s.(subscriber := Written(w.imei, w.id, w.sess), writes := s.writes + {(w.id, w.sess)})
      else s.(subscriber := Idle)
    case Remember =>
      var w := s.subscriber;
      s.(subscriber := Stored(w.imei, w.id, w.sess),
         sessions := s.sessions[w.sess := s.sessions[w.sess].(lastCommand := w.id)])
    case Deliver(ok) =>
      var id := s.subscriber.id;
      s.(subscriber := Idle,
         rows := if ok && id in s.rows && s.rows[id].status == Sent
                 then s.rows[id := s.rows[id].(status := Delivered)] else s.rows)
  }

  // ---------------------------------------------------------------------------
  // Runs

  /** Every state a run passes through. */
  ghost predicate Run(states: seq<State>, steps: seq<Step>) {
    |states| == |steps| + 1 && states[0] == INITIAL &&
    forall i | 0 <= i < |steps| :: Enabled(states[i], steps[i]) && states[i + 1] == Apply(states[i], steps[i])
  }

  // ---------------------------------------------------------------------------
  // The invariant

  /** Where a command id may still turn up: in a message, with the subscriber, or in a session. */
  ghost predicate Queued(s: State, id: CommandId) {
    exists i :: 0 <= i < |s.queue| && s.queue[i].id == id
  }

  ghost predicate WithSubscriber(s: State, id: CommandId) {
    (s.subscriber.Found? || s.subscriber.Written?) && s.subscriber.id == id
  }

  /** The session still holds the id for a response to come. */
  ghost predicate Held(s: State, sess: SessionId, id: CommandId) {
    sess in s.sessions && id > 0 &&
    (s.sessions[sess].phase == Loaded(id) || (s.sessions[sess].lastCommand == id && s.sessions[sess].phase != Updated(id)))
  }

  /** Messages carry the IMEI of their own command, and each command is in at most one message. */
  ghost predicate QueueOk(s: State) {
    (forall i | 0 <= i < |s.queue| :: s.queue[i].id in s.rows) &&
    (forall i | 0 <= i < |s.queue| :: s.rows[s.queue[i].id].imei == s.queue[i].imei && s.queue[i].id > 0) &&
    (forall i, j | 0 <= i < j < |s.queue| :: s.queue[i].id != s.queue[j].id) &&
    (forall i | 0 <= i < |s.queue| :: s.queue[i].id !in s.unpublished) &&
    (forall id | id in s.unpublished :: id in s.rows && id > 0)
  }

  /** Nobody holds the id or has acknowledged it. */
  ghost predicate Free(s: State, id: CommandId) {
    id !in s.acks && forall k :: !Held(s, k, id)
  }

  /** A command on its way to a session is in one place only. */
  ghost predicate InTransitOk(s: State) {
    (forall id | Queued(s, id) :: !WithSubscriber(s, id) && Free(s, id)) &&
    (forall id | WithSubscriber(s, id) :: Free(s, id)) &&
    (forall id | id in s.unpublished :: !WithSubscriber(s, id) && Free(s, id))
  }

  ghost predicate SubscriberOk(s: State) {
    (!s.subscriber.Idle? ==>
       s.subscriber.id > 0 && s.subscriber.id in s.rows && s.rows[s.subscriber.id].imei == s.subscriber.imei &&
       s.subscriber.sess in s.sessions && s.sessions[s.subscriber.sess].imei == s.subscriber.imei) &&
    (s.subscriber.Written? || s.subscriber.Stored? ==> (s.subscriber.id, s.subscriber.sess) in s.writes)
  }

  /** A held id was written to that very session, is held nowhere else, and is not acknowledged yet. */
  ghost predicate HeldOk(s: State) {
    (forall k, id | Held(s, k, id) :: (id, k) in s.writes && id !in s.acks) &&
    (forall k, l, id | Held(s, k, id) && Held(s, l, id) :: k == l) &&
    (forall k | k in s.sessions :: s.sessions[k].lastCommand >= 0) &&
    (forall k | k in s.sessions && s.sessions[k].phase.Loaded? :: s.sessions[k].phase.id > 0) &&
    (forall k | k in s.sessions && s.sessions[k].phase.Updated? :: s.sessions[k].phase.id in s.acks)
  }

  ghost predicate WritesOk(s: State) {
    forall id, k | (id, k) in s.writes ::
      id in s.rows && k in s.sessions && s.sessions[k].imei == s.rows[id].imei
  }

  /** No id is acknowledged twice, and each one was written to a session before. */
  ghost predicate AcksOk(s: State) {
    (forall i, j | 0 <= i < j < |s.acks| :: s.acks[i] != s.acks[j]) &&
    (forall i | 0 <= i < |s.acks| :: WrittenToOwnDevice(s, s.acks[i])) &&
    (forall id | id in s.rows && s.rows[id].status == Acknowledged :: id in s.acks)
  }

  ghost predicate WrittenToOwnDevice(s: State, id: CommandId) {
    id in s.rows && exists k :: (id, k) in s.writes && k in s.sessions && s.sessions[k].imei == s.rows[id].imei
  }

  /** Only sessions whose handler is still running can be looked up, under their own IMEI. */
  ghost predicate DirectoryOk(s: State) {
    forall imei | imei in s.directory ::
      s.directory[imei] in s.sessions && s.sessions[s.directory[imei]].imei == imei &&
      s.sessions[s.directory[imei]].phase != Returned
  }

  ghost predicate Inv(s: State) {
    QueueOk(s) && InTransitOk(s) && SubscriberOk(s) && HeldOk(s) && WritesOk(s) && AcksOk(s) && DirectoryOk(s)
  }

  lemma InvInitial()
    ensures Inv(INITIAL)
  {
  }

  // ---------------------------------------------------------------------------
  // Every step keeps the invariant

  /** Ids enter a session only through `Remember`, and leave it when acknowledged. */
  lemma HeldAfter(s: State, step: Step, k: SessionId, id: CommandId)
    requires Inv(s) && Enabled(s, step) && Held(Apply(s, step), k, id)
    ensures Held(s, k, id) || (step.Remember? && k == s.subscriber.sess && id == s.subscriber.id)
    ensures !(step.Acknowledge? && k == step.sess && id == s.sessions[k].phase.id)
  {
  }

  lemma QueuedAfter(s: State, step: Step, id: CommandId)
    requires Inv(s) && Enabled(s, step) && Queued(Apply(s, step), id)
    ensures Queued(s, id) || (step.Publish? && id == step.id)
    ensures !(step.Lookup? && id == s.queue[0].id)
  {
    var s' := Apply(s, step);
    var i :| 0 <= i < |s'.queue| && s'.queue[i].id == id;
    if step.Lookup? {
      assert s.queue[i + 1].id == id;
    } else if i < |s.queue| {
      assert s.queue[i].id == id;
    }
  }

  lemma UnpublishedAfter(s: State, step: Step, id: CommandId)
    requires Enabled(s, step) && id in Apply(s, step).unpublished
    ensures id in s.unpublished || (step.Insert? && id == step.id)
  {
  }

  lemma WithSubscriberAfter(s: State, step: Step, id: CommandId)
    requires Inv(s) && Enabled(s, step) && WithSubscriber(Apply(s, step), id)
    ensures WithSubscriber(s, id) || (step.Lookup? && id == s.queue[0].id)
    ensures !step.Remember?
  {
  }

  /** An id that was never issued is nowhere. */
  lemma UnissuedIsFree(s: State, id: CommandId)
    requires Inv(s) && id !in s.rows
    ensures !WithSubscriber(s, id) && Free(s, id)
  {
    forall k
      ensures !Held(s, k, id)
    {
      assert Held(s, k, id) ==> (id, k) in s.writes;
    }
  }

  /** An id that no session holds and nobody acknowledged stays so until the subscriber stores it. */
  lemma FreeStaysFree(s: State, step: Step, id: CommandId)
    requires Inv(s) && Enabled(s, step) && Free(s, id)
    requires step.Remember? ==> id != s.subscriber.id
    ensures Free(Apply(s, step), id)
  {
    var s' := Apply(s, step);
    forall k
      ensures !Held(s', k, id)
    {
      if Held(s', k, id) {
        HeldAfter(s, step, k, id);
      }
    }
    if step.Acknowledge? {
      assert Held(s, step.sess, s.sessions[step.sess].phase.id);
    }
  }

  lemma InTransitStep(s: State, step: Step)
    requires Inv(s) && Enabled(s, step)
    ensures InTransitOk(Apply(s, step))
  {
    hide Queued, WithSubscriber, Free, QueueOk, SubscriberOk, HeldOk, WritesOk, AcksOk, DirectoryOk, Apply;
    var s' := Apply(s, step);
    forall id | Queued(s', id)
      ensures !WithSubscriber(s', id) && Free(s', id)
    {
      QueuedAfter(s, step, id);
      if step.Remember? {
        AboutToStore(s);
      }
      if WithSubscriber(s', id) {
        WithSubscriberAfter(s, step, id);
      }
      FreeStaysFree(s, step, id);
    }
    forall id | id in s'.unpublished
      ensures !WithSubscriber(s', id) && Free(s', id)
    {
      UnpublishedAfter(s, step, id);
      if step.Insert? && id == step.id {
        UnissuedIsFree(s, id);
      }
      if step.Remember? {
        AboutToStore(s);
      }
      if WithSubscriber(s', id) {
        WithSubscriberAfter(s, step, id);
        if step.Lookup? {
          HeadIsPublished(s);
        }
      }
      FreeStaysFree(s, step, id);
    }
    forall id | WithSubscriber(s', id)
      ensures Free(s', id)
    {
      WithSubscriberAfter(s, step, id);
      if step.Lookup? {
        HeadIsQueued(s);
      }
      FreeStaysFree(s, step, id);
    }
  }

  lemma AboutToStore(s: State)
    requires Enabled(s, Remember)
    ensures WithSubscriber(s, s.subscriber.id)
  {
  }

  lemma HeadIsQueued(s: State)
    requires s.queue != []
    ensures Queued(s, s.queue[0].id)
  {
  }

  lemma HeadIsPublished(s: State)
    requires QueueOk(s) && s.queue != []
    ensures s.queue[0].id !in s.unpublished
  {
  }

  lemma QueueStep(s: State, step: Step)
    requires Inv(s) && Enabled(s, step)
    ensures QueueOk(Apply(s, step))
  {
    hide Queued, WithSubscriber, Free, Held, InTransitOk, SubscriberOk, HeldOk, WritesOk, AcksOk, DirectoryOk;
  }

  lemma SubscriberStep(s: State, step: Step)
    requires Inv(s) && Enabled(s, step)
    ensures SubscriberOk(Apply(s, step))
  {
    hide InTransitOk, HeldOk, WritesOk, AcksOk;
  }

  lemma WritesStep(s: State, step: Step)
    requires Inv(s) && Enabled(s, step)
    ensures WritesOk(Apply(s, step))
  {
    hide QueueOk, InTransitOk, HeldOk, AcksOk, DirectoryOk;
  }

  lemma DirectoryStep(s: State, step: Step)
    requires Inv(s) && Enabled(s, step)
    ensures DirectoryOk(Apply(s, step))
  {
    hide QueueOk, InTransitOk, SubscriberOk, HeldOk, WritesOk, AcksOk;
  }

  lemma HeldStep(s: State, step: Step)
    requires Inv(s) && Enabled(s, step)
    ensures HeldOk(Apply(s, step))
  {
    var s' := Apply(s, step);
    forall k, id | Held(s', k, id)
      ensures (id, k) in s'.writes && id !in s'.acks
    {
      HeldAfter(s, step, k, id);
      HeldIsWritten(s, step, k, id);
    }
    forall k, l, id | Held(s', k, id) && Held(s', l, id)
      ensures k == l
    {
      HeldAfter(s, step, k, id);
      HeldAfter(s, step, l, id);
      if step.Remember? {
        AboutToStore(s);
      }
    }
  }

  lemma HeldIsWritten(s: State, step: Step, k: SessionId, id: CommandId)
    requires Inv(s) && Enabled(s, step) && Held(Apply(s, step), k, id)
    ensures (id, k) in Apply(s, step).writes && id !in Apply(s, step).acks
  {
    HeldAfter(s, step, k, id);
    if step.Remember? {
      AboutToStore(s);
    }
    if step.Acknowledge? {
      assert Held(s, step.sess, s.sessions[step.sess].phase.id);
    }
  }

  /** Sessions, their devices and past writes are never forgotten. */
  lemma WrittenStays(s: State, step: Step, id: CommandId)
    requires Inv(s) && Enabled(s, step) && WrittenToOwnDevice(s, id)
    ensures WrittenToOwnDevice(Apply(s, step), id)
  {
    var s' := Apply(s, step);
    var k :| (id, k) in s.writes && k in s.sessions && s.sessions[k].imei == s.rows[id].imei;
    assert (id, k) in s'.writes && s'.sessions[k].imei == s'.rows[id].imei;
  }

  lemma AboutToAcknowledge(s: State, sess: SessionId, ok: bool)
    requires Inv(s) && Enabled(s, Acknowledge(sess, ok))
    ensures var id := s.sessions[sess].phase.id;
            id !in s.acks && WrittenToOwnDevice(s, id)
  {
    var id := s.sessions[sess].phase.id;
    assert Held(s, sess, id);
    assert (id, sess) in s.writes;
  }

  lemma AcksStep(s: State, step: Step)
    requires Inv(s) && Enabled(s, step)
    ensures AcksOk(Apply(s, step))
  {
    hide QueueOk, InTransitOk, SubscriberOk, HeldOk, WritesOk, DirectoryOk, WrittenToOwnDevice;
    var s' := Apply(s, step);
    if step.Acknowledge? {
      AboutToAcknowledge(s, step.sess, step.ok);
    }
    forall i | 0 <= i < |s'.acks|
      ensures WrittenToOwnDevice(s', s'.acks[i])
    {
      assert i < |s.acks| ==> s'.acks[i] == s.acks[i];
      WrittenStays(s, step, s'.acks[i]);
    }
  }

  lemma InvStep(s: State, step: Step)
    requires Inv(s) && Enabled(s, step)
    ensures Inv(Apply(s, step))
  {
    hide QueueOk, InTransitOk, SubscriberOk, HeldOk, WritesOk, AcksOk, DirectoryOk, Apply;
    QueueStep(s, step);
    InTransitStep(s, step);
    SubscriberStep(s, step);
    HeldStep(s, step);
    WritesStep(s, step);
    AcksStep(s, step);
    DirectoryStep(s, step);
  }

  lemma {:induction false} InvAlways(states: seq<State>, steps: seq<Step>, i: nat)
    requires Run(states, steps) && i < |states|
    ensures Inv(states[i])
  {
    hide Inv, Apply, Enabled;
    if i == 0 {
      InvInitial();
    } else {
      InvAlways(states, steps, i - 1);
      InvStep(states[i - 1], steps[i - 1]);
    }
  }

  // ---------------------------------------------------------------------------
  // What holds over every run

  /** A step never removes a command, never changes its device, and never moves its status back. */
  lemma StatusStep(s: State, step: Step, id: CommandId)
    requires Enabled(s, step) && id in s.rows
    ensures var s' := Apply(s, step);
            id in s'.rows && s'.rows[id].imei == s.rows[id].imei && Rank(s.rows[id].status) <= Rank(s'.rows[id].status)
  {
  }

  lemma {:induction false} StatusNeverMovesBack(states: seq<State>, steps: seq<Step>, i: nat, j: nat, id: CommandId)
    requires Run(states, steps) && i <= j < |states| && id in states[i].rows
    ensures id in states[j].rows && Rank(states[i].rows[id].status) <= Rank(states[j].rows[id].status)
    ensures states[j].rows[id].imei == states[i].rows[id].imei
    decreases j - i
  {
    hide Apply, Enabled;
    if i < j {
      StatusNeverMovesBack(states, steps, i, j - 1, id);
      StatusStep(states[j - 1], steps[j - 1], id);
    }
  }

  /** A session acknowledges only a command that was written to that very session and is not yet acknowledged. */
  lemma AcknowledgedHere(states: seq<State>, steps: seq<Step>, n: nat)
    requires Run(states, steps) && n < |steps| && steps[n].Acknowledge?
    ensures var s, sess := states[n], steps[n].sess;
            var id := s.sessions[sess].phase.id;
            (id, sess) in s.writes && id !in s.acks && id in s.rows && s.rows[id].imei == s.sessions[sess].imei
  {
    InvAlways(states, steps, n);
    assert Held(states[n], steps[n].sess, states[n].sessions[steps[n].sess].phase.id);
  }

  /**
   In every state of every run: no command was acknowledged twice, every acknowledged command was
   written before to a session of its own device, and every session that can be looked up is one
   whose handler has not returned.
   */
  lemma CommandSafety(states: seq<State>, steps: seq<Step>, n: nat)
    requires Run(states, steps) && n < |states|
    ensures var s := states[n];
            (forall i, j | 0 <= i < j < |s.acks| :: s.acks[i] != s.acks[j]) &&
            (forall id | id in s.acks || (id in s.rows && s.rows[id].status == Acknowledged) :: WrittenToOwnDevice(s, id)) &&
            (forall imei | imei in s.directory ::
               s.directory[imei] in s.sessions && s.sessions[s.directory[imei]].phase != Returned &&
               s.sessions[s.directory[imei]].imei == imei)
  {
    InvAlways(states, steps, n);
  }
}
