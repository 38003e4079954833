/**
 The WebSocket hub of backend/internal/websocket/hub.go as a state machine. The event loop visits
 the clients of a company one at a time; subscriptions and the sockets' writers run beside it.
 */
module Hub {
  import opened Options

  type ClientId = int
  type Company = int
  type Device = int
  type Data = seq<int>

  const CAPACITY := 256

  datatype Message = Message(company: Company, device: Device, data: Data)

  /** A client is created, registered once by its handler, and unregistered any number of times. */
  datatype Status = New | Registered | Gone

  datatype Client = Client(
    company: Company, status: Status, subscribed: set<Device>,
    queue: seq<Data>, closed: bool,
    // history
    closes: nat, sent: seq<Data>, taken: seq<Data>)

  /** No explicit subscription means every device of the company. */
  predicate IsSubscribed(c: Client, device: Device) {
    c.subscribed == {} || device in c.subscribed
  }

  /**
   The event loop: receiving from its channels, in the middle of a broadcast, blocked in its own send
   on the Unregister channel in the middle of one, or crashed.
   */
  datatype Loop =
    | Waiting
    | Broadcasting(msg: Message, remaining: set<ClientId>)
    | Sending(client: ClientId, rest: Loop)
    | Panicked

  /** A goroutine blocked in a send on the Unregister channel, which has no buffer. */
  datatype Offer = ByHandler(c: ClientId) | ByHub(c: ClientId)

  datatype State = State(
    clients: map<Company, set<ClientId>>, info: map<ClientId, Client>, offers: set<Offer>, loop: Loop)

  const INITIAL := State(map[], map[], {}, Waiting)

  datatype Step =
    | Create(c: ClientId, company: Company)
    | Subscribe(c: ClientId, devices: set<Device>)
    | Take(c: ClientId)                // the socket writer receives from Send
    | Leave(c: ClientId)               // a handler starts to send on Unregister
    | Register(c: ClientId)
    | Unregister(offer: Offer)         // the loop receives from Unregister
    | Start(msg: Message)              // a broadcast message arrives
    | Visit(c: ClientId)               // its loop reaches one client
    | Finish
    | Resume                           // the loop's own send has been received

  predicate Enabled(s: State, step: Step) {
    match step
    case Create(c, _) => c !in s.info
    case Subscribe(c, _) => c in s.info
    case Take(c) => c in s.info && s.info[c].queue != []
    case Register(c) => s.loop.Waiting? && c in s.info && s.info[c].status == New
    case Leave(c) => c in s.info
    case Unregister(o) => s.loop.Waiting? && o in s.offers && o.c in s.info
    case Start(_) => s.loop.Waiting?
    case Visit(c) => s.loop.Broadcasting? && c in s.loop.remaining && c in s.info
    case Finish => s.loop.Broadcasting? && s.loop.remaining == {}
    case Resume => s.loop.Sending? && ByHub(s.loop.client) !in s.offers
  }

  function Apply(s: State, step: Step): State
    requires Enabled(s, step)
  {
    match step
    case Create(c, company) => s.(info := s.info[c := Client(company, New, {}, [], false, 0, [], [])])
    case Subscribe(c, devices) =>
      s.(info := s.info[c := s.info[c].(subscribed := s.info[c].subscribed + devices)])
    case Take(c) =>
      var x := s.info[c];
      s.(info := s.info[c := x.(queue := x.queue[1..], taken := x.taken + [x.queue[0]])])
    case Register(c) => ApplyRegister(s, c)
    case Leave(c) => s.(offers := s.offers + {ByHandler(c)})
    case Unregister(o) => ApplyUnregister(s.(offers := s.offers - {o}), o.c)
    case Start(msg) =>
      if msg.company in s.clients then s.(loop := Broadcasting(msg, s.clients[msg.company])) else s
    case Visit(c) => ApplyVisit(s, c)
    case Finish => s.(loop := Waiting)
    case Resume => s.(loop := s.loop.rest)
  }

  function ApplyRegister(s: State, c: ClientId): State
    requires c in s.info
  {
    var x := s.info[c];
    var set0 := if x.company in s.clients then s.clients[x.company] else {};
    s.(clients := s.clients[x.company := set0 + {c}], info := s.info[c := x.(status := Registered)])
  }

  function ApplyUnregister(s: State, c: ClientId): State
    requires c in s.info
  {
    var x := s.info[c];
    if x.company !in s.clients || c !in s.clients[x.company] then s
    else
      var rest := s.clients[x.company] - {c};
      if x.closed then s.(loop := Panicked)
      else
        s.(clients := if rest == {} then s.clients - {x.company} else s.clients[x.company := rest],
           info := s.info[c := x.(status := Gone, closed := true, closes := x.closes + 1)])
  }

  /** One client of a broadcast: skip it, queue the message, or with a full buffer send on Unregister. */
  function ApplyVisit(s: State, c: ClientId): State
    requires s.loop.Broadcasting? && c in s.info
  {
    var x, msg := s.info[c], s.loop.msg;
    var next := s.(loop := Broadcasting(msg, s.loop.remaining - {c}));
    if !IsSubscribed(x, msg.device) then next
    else if x.closed then s.(loop := Panicked)
    else if |x.queue| < CAPACITY then
      next.(info := s.info[c := x.(queue := x.queue + [msg.data], sent := x.sent + [msg.data])])
    else s.(offers := s.offers + {ByHub(c)}, loop := Sending(c, next.loop))
  }

  ghost predicate Run(states: seq<State>, steps: seq<Step>) {
    |states| == |steps| + 1 && states[0] == INITIAL &&
    forall i | 0 <= i < |steps| :: Enabled(states[i], steps[i]) && states[i + 1] == Apply(states[i], steps[i])
  }

  // ---------------------------------------------------------------------------
  // Safety

  ghost predicate DirectoryOk(s: State) {
    (forall company | company in s.clients :: s.clients[company] != {}) &&
    (forall company, c | company in s.clients && c in s.clients[company] ::
       c in s.info && s.info[c].company == company && s.info[c].status == Registered) &&
    (forall c | c in s.info && s.info[c].status == Registered ::
       s.info[c].company in s.clients && c in s.clients[s.info[c].company])
  }

  ghost predicate ClientOk(x: Client) {
    (x.closed <==> x.status == Gone) && x.closes == (if x.closed then 1 else 0) &&
    x.sent == x.taken + x.queue && |x.queue| <= CAPACITY
  }

  ghost predicate LoopOk(s: State) {
    !s.loop.Panicked? &&
    (s.loop.Broadcasting? ==>
       s.loop.msg.company in s.clients && s.loop.remaining <= s.clients[s.loop.msg.company])
  }

  /** The hub goroutine has an offer outstanding exactly while it is blocked in it. */
  ghost predicate OffersOk(s: State) {
    forall c :: ByHub(c) in s.offers <==> s.loop.Sending? && s.loop.client == c
  }

  ghost predicate Inv(s: State) {
    DirectoryOk(s) && LoopOk(s) && OffersOk(s) && forall c | c in s.info :: ClientOk(s.info[c])
  }

  lemma InvStep(s: State, step: Step)
    requires Inv(s) && Enabled(s, step)
    ensures Inv(Apply(s, step))
  {
    DirectoryStep(s, step);
    LoopStep(s, step);
    OffersStep(s, step);
    forall c | c in Apply(s, step).info
      ensures ClientOk(Apply(s, step).info[c])
    {
      ClientStep(s, step, c);
    }
  }

  lemma DirectoryStep(s: State, step: Step)
    requires Inv(s) && Enabled(s, step)
    ensures DirectoryOk(Apply(s, step))
  {
    hide ApplyRegister, ApplyUnregister, ApplyVisit, DirectoryOk, LoopOk, ClientOk;
    match step {
      case Register(c) => RegisterKeepsDirectory(s, c);
      case Unregister(o) =>
        var s0 := s.(offers := s.offers - {o});
        OffersAside(s, s0);
        UnregisterKeepsDirectory(s0, o.c);
      case _ => OthersKeepDirectory(s, step);
    }
  }

  lemma OffersAside(s: State, t: State)
    requires DirectoryOk(s) && t == s.(offers := t.offers)
    ensures DirectoryOk(t)
  {
  }

  lemma OthersKeepDirectory(s: State, step: Step)
    requires DirectoryOk(s) && Enabled(s, step) && !step.Register? && !step.Unregister?
    ensures DirectoryOk(Apply(s, step))
  {
    var s' := Apply(s, step);
    OthersKeepClients(s, step);
    hide Apply, Enabled;
    forall c | c in s'.info && s'.info[c].status == Registered
      ensures s'.info[c].company in s'.clients && c in s'.clients[s'.info[c].company]
    {
      assert c in s.info && s.info[c].status == Registered;
    }
  }

  lemma OthersKeepClients(s: State, step: Step)
    requires Enabled(s, step) && !step.Register? && !step.Unregister?
    ensures var s' := Apply(s, step);
            s'.clients == s.clients &&
            (forall c | c in s.info ::
               c in s'.info && s'.info[c].company == s.info[c].company && s'.info[c].status == s.info[c].status) &&
            (forall c | c in s'.info && c !in s.info :: s'.info[c].status == New)
  {
    hide IsSubscribed;
  }

  lemma RegisterKeepsDirectory(s: State, c: ClientId)
    requires DirectoryOk(s) && c in s.info && s.info[c].status == New
    ensures DirectoryOk(ApplyRegister(s, c))
  {
    var s', home := ApplyRegister(s, c), s.info[c].company;
    assert c in s'.clients[home];
    forall company, d | company in s'.clients && d in s'.clients[company]
      ensures d in s'.info && s'.info[d].company == company && s'.info[d].status == Registered
    {
      assert d != c ==> company in s.clients && d in s.clients[company];
    }
  }

  lemma UnregisterKeepsDirectory(s: State, c: ClientId)
    requires DirectoryOk(s) && c in s.info
    ensures DirectoryOk(ApplyUnregister(s, c))
  {
    hide ClientOk;
    var s', home := ApplyUnregister(s, c), s.info[c].company;
    if home in s.clients && c in s.clients[home] && !s.info[c].closed {
      forall company, d | company in s'.clients && d in s'.clients[company]
        ensures d in s'.info && s'.info[d].company == company && s'.info[d].status == Registered
      {
        assert company in s.clients && d in s.clients[company] && d != c;
      }
      forall d | d in s'.info && s'.info[d].status == Registered
        ensures s'.info[d].company in s'.clients && d in s'.clients[s'.info[d].company]
      {
        assert d != c && s.info[d].status == Registered;
        assert d in s.clients[s.info[d].company] - {c};
      }
    }
  }

  lemma LoopStep(s: State, step: Step)
    requires Inv(s) && Enabled(s, step)
    ensures LoopOk(Apply(s, step))
  {
    hide IsSubscribed;
    if step.Visit? {
      assert ClientOk(s.info[step.c]);
      assert step.c in s.clients[s.loop.msg.company];
    } else if step.Unregister? {
      assert ClientOk(s.info[step.offer.c]);
    }
  }

  lemma OffersStep(s: State, step: Step)
    requires Inv(s) && Enabled(s, step)
    ensures OffersOk(Apply(s, step))
  {
    hide IsSubscribed, DirectoryOk;
    if step.Visit? || step.Unregister? {
      LoopStep(s, step);
    }
  }

  lemma ClientStep(s: State, step: Step, c: ClientId)
    requires Inv(s) && Enabled(s, step) && c in Apply(s, step).info
    ensures ClientOk(Apply(s, step).info[c])
  {
    hide IsSubscribed;
    if c in s.info {
      assert ClientOk(s.info[c]);
      var x := s.info[c];
      if step.Take? && step.c == c {
        assert x.taken + x.queue == (x.taken + [x.queue[0]]) + x.queue[1..];
      }
    }
  }

  lemma {:induction false} InvAlways(states: seq<State>, steps: seq<Step>, n: nat)
    requires Run(states, steps) && n < |states|
    ensures Inv(states[n])
  {
    hide Inv, Apply, Enabled;
    if n == 0 {
      InitialOk();
    } else {
      InvAlways(states, steps, n - 1);
      InvStep(states[n - 1], steps[n - 1]);
    }
  }

  lemma InitialOk()
    ensures Inv(INITIAL)
  {
  }

  /**
   In every run, with or without full buffers: nothing is sent on a closed channel or closes one twice
   (either would crash the loop), no company maps to an empty set, and what a client's writer has
   received followed by what is still queued is what the hub sent it, in order.
   */
  lemma HubSafety(states: seq<State>, steps: seq<Step>, n: nat)
    requires Run(states, steps) && n < |states|
    ensures var s := states[n];
            !s.loop.Panicked? &&
            (forall company | company in s.clients :: s.clients[company] != {}) &&
            (forall c | c in s.info ::
               s.info[c].closes <= 1 && s.info[c].sent == s.info[c].taken + s.info[c].queue)
  {
    InvAlways(states, steps, n);
    assert forall c | c in states[n].info :: ClientOk(states[n].info[c]);
  }

  /**
   Registering a client object again and then unregistering it crashes the loop exactly when the
   object had been unregistered before; the handler registers each object once.
   */
  lemma SecondRegistration(s: State, c: ClientId)
    requires Inv(s) && c in s.info
    ensures ApplyUnregister(ApplyRegister(s, c), c).loop.Panicked? <==> s.info[c].status == Gone
  {
    assert ClientOk(s.info[c]);
  }

  // ---------------------------------------------------------------------------
  // Delivery

  /** What a client is due, read off the steps alone: the message it is still to be asked about, and those it wanted. */
  datatype Account = Account(
    known: bool, registered: bool, subscribed: set<Device>, company: Company, pending: Option<Message>, data: seq<Data>)

  function Due(steps: seq<Step>, c: ClientId): Account {
    if steps == [] then Account(false, false, {}, 0, None, [])
    else DueNext(Due(steps[..|steps| - 1], c), steps[|steps| - 1], c)
  }

  function DueNext(e: Account, step: Step, c: ClientId): Account {
    match step
    case Create(d, company) => if d == c then Account(true, false, {}, company, None, []) else e
    case Subscribe(d, devices) => if d == c then e.(subscribed := e.subscribed + devices) else e
    case Register(d) => if d == c then e.(registered := true) else e
    case Unregister(o) => if o.c == c then e.(registered := false) else e
    case Start(msg) => e.(pending := if e.registered && msg.company == e.company then Some(msg) else None)
    case Visit(d) => if d == c then e.(pending := None, data := e.data + Wanted(e)) else e
    case _ => e
  }

  /** The pending message, if the client wants it as it is subscribed now. */
  function Wanted(e: Account): seq<Data> {
    if e.pending.Some? && (e.subscribed == {} || e.pending.value.device in e.subscribed) then [e.pending.value.data] else []
  }

  /** How many messages the client's writer has received. */
  function Takes(steps: seq<Step>, c: ClientId): nat {
    if steps == [] then 0
    else Takes(steps[..|steps| - 1], c) + if steps[|steps| - 1] == Take(c) then 1 else 0
  }

  ghost predicate Agrees(s: State, c: ClientId, e: Account, takes: nat) {
    (e.known <==> c in s.info) && (!e.known ==> !e.registered) &&
    (c in s.info ==>
       e.company == s.info[c].company && (e.registered <==> s.info[c].status == Registered) &&
       e.subscribed == s.info[c].subscribed && takes == |s.info[c].taken| &&
       (!s.loop.Sending? ==> Pending(s, c) == e.pending && s.info[c].sent == e.data)) &&
    (c !in s.info ==> takes == 0 && e.pending.None?)
  }

  /** The message of the current broadcast, as long as the loop has not reached this client. */
  function Pending(s: State, c: ClientId): Option<Message> {
    if s.loop.Broadcasting? && c in s.loop.remaining then Some(s.loop.msg) else None
  }

  lemma AgreesStep(s: State, step: Step, c: ClientId, e: Account, takes: nat)
    requires Inv(s) && Enabled(s, step) && Agrees(s, c, e, takes)
    ensures Agrees(Apply(s, step), c, DueNext(e, step, c), takes + if step == Take(c) then 1 else 0)
  {
    match step {
      case Start(msg) => hide ClientOk, LoopOk, OffersOk;
      case Visit(d) => AgreesVisit(s, d, c, e, takes);
      case Unregister(o) => AgreesUnregister(s, o, c, e, takes);
      case _ => hide ClientOk, IsSubscribed, DirectoryOk, Wanted;
    }
  }

  lemma AgreesVisit(s: State, d: ClientId, c: ClientId, e: Account, takes: nat)
    requires Inv(s) && Enabled(s, Visit(d)) && Agrees(s, c, e, takes)
    ensures Agrees(Apply(s, Visit(d)), c, DueNext(e, Visit(d), c), takes)
  {
    hide DirectoryOk, ClientOk, OffersOk;
    if c in s.info {
      assert s.info[c].sent + [] == s.info[c].sent;
    }
    LoopStep(s, Visit(d));
  }

  lemma AgreesUnregister(s: State, o: Offer, c: ClientId, e: Account, takes: nat)
    requires Inv(s) && Enabled(s, Unregister(o)) && Agrees(s, c, e, takes)
    ensures Agrees(Apply(s, Unregister(o)), c, DueNext(e, Unregister(o), c), takes)
  {
    hide OffersOk;
    LoopStep(s, Unregister(o));
    assert ClientOk(s.info[o.c]);
  }

  lemma {:induction false} AgreesAlways(states: seq<State>, steps: seq<Step>, c: ClientId, n: nat)
    requires Run(states, steps) && n < |states|
    ensures Agrees(states[n], c, Due(steps[..n], c), Takes(steps[..n], c))
  {
    hide Agrees, Inv, Apply, Enabled, DueNext;
    if n == 0 {
      NothingDue(c);
      assert steps[..0] == [];
    } else {
      AgreesAlways(states, steps, c, n - 1);
      InvAlways(states, steps, n - 1);
      AgreesStep(states[n - 1], steps[n - 1], c, Due(steps[..n - 1], c), Takes(steps[..n - 1], c));
      assert steps[..n][..n - 1] == steps[..n - 1];
    }
  }

  lemma NothingDue(c: ClientId)
    ensures Agrees(INITIAL, c, Due([], c), Takes([], c))
  {
  }

  /**
   Whenever the loop is waiting, which it never is again after a full buffer, each client has been
   sent exactly the messages of its company that were broadcast while it was registered and that it
   was subscribed to when the loop reached it, in order, and none was passed over.
   */
  lemma DeliveredExactly(states: seq<State>, steps: seq<Step>, c: ClientId, n: nat)
    requires Run(states, steps) && n < |states|
    requires states[n].loop.Waiting? && c in states[n].info
    ensures states[n].info[c].sent == Due(steps[..n], c).data && Due(steps[..n], c).pending == None
    ensures states[n].info[c].taken + states[n].info[c].queue == Due(steps[..n], c).data
  {
    hide Due;
    AgreesAlways(states, steps, c, n);
    HubSafety(states, steps, n);
  }

  /** The messages a client was subscribed to at the moment they were broadcast to its company. */
  function Announced(steps: seq<Step>, c: ClientId): seq<Data> {
    if steps == [] then []
    else
      var front, last := steps[..|steps| - 1], steps[|steps| - 1];
      Announced(front, c) + if last.Start? then Wanted(DueNext(Due(front, c), last, c)) else []
  }

  /** No change of subscription alters what the client wants of the broadcast under way. */
  ghost predicate Settled(steps: seq<Step>, c: ClientId) {
    forall i | 0 <= i < |steps| && steps[i].Subscribe? ::
      Wanted(DueNext(Due(steps[..i], c), steps[i], c)) == Wanted(Due(steps[..i], c))
  }

  lemma {:induction false} StartDecides(states: seq<State>, steps: seq<Step>, c: ClientId, n: nat)
    requires Run(states, steps) && Settled(steps, c) && n < |states|
    ensures var e := Due(steps[..n], c);
            Announced(steps[..n], c) == e.data + Wanted(e) && (!e.known ==> Announced(steps[..n], c) == [])
  {
    hide Apply, Wanted;
    if n == 0 {
      assert steps[..0] == [];
      NothingWanted(Due([], c));
    } else {
      StartDecides(states, steps, c, n - 1);
      AgreesAlways(states, steps, c, n - 1);
      var front, last := steps[..n - 1], steps[n - 1];
      assert steps[..n][..n - 1] == front;
      assert Enabled(states[n - 1], last);
      AnnouncedStep(Announced(front, c), Due(front, c), last, c);
    }
  }

  lemma NothingWanted(e: Account)
    requires e.pending.None?
    ensures Wanted(e) == []
  {
  }

  lemma AnnouncedStep(announced: seq<Data>, e: Account, step: Step, c: ClientId)
    requires announced == e.data + Wanted(e) && (!e.known ==> announced == [] && !e.registered)
    requires step.Subscribe? ==> Wanted(DueNext(e, step, c)) == Wanted(e)
    requires step.Start? ==> e.pending.None?
    requires step.Create? && step.c == c ==> !e.known
    ensures var f := DueNext(e, step, c);
            var more := if step.Start? then Wanted(f) else [];
            announced + more == f.data + Wanted(f) && (!f.known ==> announced + more == [])
  {
  }

  /** Then each client is sent exactly what it was subscribed to when it was broadcast, while it was registered, in order. */
  lemma DeliveredAsAnnounced(states: seq<State>, steps: seq<Step>, c: ClientId, n: nat)
    requires Run(states, steps) && Settled(steps, c) && n < |states|
    requires states[n].loop.Waiting? && c in states[n].info
    ensures states[n].info[c].sent == Announced(steps[..n], c)
  {
    hide Due, Announced, Settled;
    StartDecides(states, steps, c, n);
    DeliveredExactly(states, steps, c, n);
    var e := Due(steps[..n], c);
    assert e.data + [] == e.data;
  }

  // ---------------------------------------------------------------------------
  // One broadcast

  /** Between its start at step `i` and state `j` a broadcast is under way, and the client leaves its subscription alone. */
  ghost predicate OneBroadcast(states: seq<State>, steps: seq<Step>, c: ClientId, i: nat, j: nat) {
    Run(states, steps) && i < j < |states| && steps[i].Start? && c in states[i].info &&
    (forall k | i < k < j :: !states[k].loop.Waiting?) &&
    (forall k | i < k < j :: !(steps[k].Subscribe? && steps[k].c == c))
  }

  /** Meanwhile a client gets at most this message, and either has it or is still to be asked. */
  lemma {:induction false} Underway(states: seq<State>, steps: seq<Step>, c: ClientId, i: nat, j: nat)
    requires OneBroadcast(states, steps, c, i, j)
    ensures c in states[j].info
    ensures var e, f, msg := Due(steps[..i], c), Due(steps[..j], c), steps[i].msg;
            f.subscribed == e.subscribed &&
            f.data + Wanted(f) ==
            e.data + if e.registered && e.company == msg.company && (e.subscribed == {} || msg.device in e.subscribed) then [msg.data] else []
    decreases j
  {
    hide Apply;
    var e := Due(steps[..i], c);
    assert steps[..j][..j - 1] == steps[..j - 1];
    if j > i + 1 {
      Underway(states, steps, c, i, j - 1);
      StaysKnown(states[j - 1], steps[j - 1], c);
      assert Enabled(states[j - 1], steps[j - 1]);
    } else {
      StaysKnown(states[i], steps[i], c);
      assert Due(steps[..j], c).data == e.data;
    }
  }

  lemma StaysKnown(s: State, step: Step, c: ClientId)
    requires Enabled(s, step) && c in s.info
    ensures c in Apply(s, step).info
  {
    hide IsSubscribed;
  }

  /** A finished broadcast adds its message to what a client was sent exactly when it is due there. */
  lemma BroadcastReaches(states: seq<State>, steps: seq<Step>, c: ClientId, i: nat, j: nat)
    requires OneBroadcast(states, steps, c, i, j) && states[j].loop.Waiting?
    ensures c in states[j].info
    ensures var x, msg := states[i].info[c], steps[i].msg;
            states[j].info[c].sent == x.sent +
              if x.status == Registered && x.company == msg.company && (x.subscribed == {} || msg.device in x.subscribed)
              then [msg.data] else []
  {
    hide Due;
    Underway(states, steps, c, i, j);
    assert Enabled(states[i], steps[i]);
    DeliveredExactly(states, steps, c, i);
    DeliveredExactly(states, steps, c, j);
    AgreesAlways(states, steps, c, i);
  }

  /** An alert is broadcast with device 0. */
  const ALERT_DEVICE: Device := 0

  /** An alert reaches a registered client of its company exactly if the client has no explicit subscription, or one to device 0. */
  lemma AlertReaches(states: seq<State>, steps: seq<Step>, c: ClientId, i: nat, j: nat)
    requires OneBroadcast(states, steps, c, i, j) && states[j].loop.Waiting?
    requires steps[i].msg.device == ALERT_DEVICE && steps[i].msg.company == states[i].info[c].company
    requires states[i].info[c].status == Registered
    ensures c in states[j].info
    ensures var sub := states[i].info[c].subscribed;
            states[j].info[c].sent == states[i].info[c].sent + [steps[i].msg.data] <==> sub == {} || 0 in sub
  {
    BroadcastReaches(states, steps, c, i, j);
  }

  /** In a run without `Subscribe` steps no client has an explicit subscription. */
  lemma {:induction false} NobodySubscribes(states: seq<State>, steps: seq<Step>, n: nat)
    requires Run(states, steps) && n < |states| && forall i | 0 <= i < n :: !steps[i].Subscribe?
    ensures forall c | c in states[n].info :: states[n].info[c].subscribed == {}
  {
    hide IsSubscribed;
    if n > 0 {
      NobodySubscribes(states, steps, n - 1);
      assert Enabled(states[n - 1], steps[n - 1]);
    }
  }

  /**
   The program's handler discards what browsers send and never calls `Subscribe`: then every finished
   broadcast, alerts included, reaches every registered client of its company.
   */
  lemma EveryAlertArrives(states: seq<State>, steps: seq<Step>, c: ClientId, i: nat, j: nat)
    requires Run(states, steps) && forall k | 0 <= k < |steps| :: !steps[k].Subscribe?
    requires i < j < |states| && steps[i].Start? && states[j].loop.Waiting? && forall k | i < k < j :: !states[k].loop.Waiting?
    requires c in states[i].info && states[i].info[c].status == Registered
    requires states[i].info[c].company == steps[i].msg.company
    ensures c in states[j].info && states[j].info[c].sent == states[i].info[c].sent + [steps[i].msg.data]
  {
    hide Apply, Enabled;
    NobodySubscribes(states, steps, i);
    BroadcastReaches(states, steps, c, i, j);
  }

  // ---------------------------------------------------------------------------
  // Full buffers

  /** The loop reaches a client that wants the message and has 256 messages it was sent and has not received. */
  predicate Overflows(steps: seq<Step>, i: nat)
    requires i < |steps|
  {
    steps[i].Visit? &&
    var e := Due(steps[..i], steps[i].c);
    Wanted(e) != [] && |e.data| - Takes(steps[..i], steps[i].c) == 256
  }

  lemma VisitOverflows(states: seq<State>, steps: seq<Step>, i: nat)
    requires Run(states, steps) && i < |steps| && !states[i].loop.Sending?
    ensures states[i + 1].loop.Sending? <==> Overflows(steps, i)
  {
    hide Due, Takes, DirectoryOk, OffersOk;
    InvAlways(states, steps, i);
    var s, step := states[i], steps[i];
    assert Enabled(s, step);
    if step.Visit? {
      AgreesAlways(states, steps, step.c, i);
      VisitableClient(s, step.c);
      assert ClientOk(s.info[step.c]);
      hide ApplyVisit, Inv, IsSubscribed;
    }
  }

  /**
   The loop is blocked for good exactly when at some point it reached a subscribed client with a
   backlog of 256 messages; the steps alone decide it.
   */
  lemma {:induction false} StuckExactly(states: seq<State>, steps: seq<Step>, n: nat)
    requires Run(states, steps) && n < |states|
    ensures states[n].loop.Sending? <==> exists i :: 0 <= i < n && Overflows(steps, i)
  {
    hide Overflows, Enabled, Apply;
    if n > 0 {
      StuckExactly(states, steps, n - 1);
      if states[n - 1].loop.Sending? {
        StuckForever(states, steps, n - 1, n);
      } else {
        VisitOverflows(states, steps, n - 1);
      }
    }
  }

  /** What the clients can see of the hub. */
  ghost predicate Frozen(s: State, t: State) {
    t.loop == s.loop && t.clients == s.clients &&
    (forall c | c in s.info ::
       c in t.info && t.info[c].sent == s.info[c].sent && t.info[c].status == s.info[c].status &&
       t.info[c].closed == s.info[c].closed) &&
    (forall c | c in t.info && c !in s.info :: t.info[c].status == New)
  }

  lemma FrozenStep(s: State, step: Step)
    requires Inv(s) && Enabled(s, step) && s.loop.Sending?
    ensures Frozen(s, Apply(s, step))
  {
    hide IsSubscribed, DirectoryOk, ClientOk, LoopOk;
    assert ByHub(s.loop.client) in s.offers;
  }

  /**
   Nobody but the loop receives from Unregister, so once it sends there itself its offer stays
   outstanding: it sends nobody anything, admits nobody, and closes no channel, not even that of the
   client it meant to disconnect.
   */
  lemma {:induction false} StuckForever(states: seq<State>, steps: seq<Step>, i: nat, j: nat)
    requires Run(states, steps) && i <= j < |states| && states[i].loop.Sending?
    ensures Frozen(states[i], states[j])
    decreases j - i
  {
    hide Apply, Enabled, Inv;
    if i < j {
      StuckForever(states, steps, i, j - 1);
      InvAlways(states, steps, j - 1);
      FrozenStep(states[j - 1], steps[j - 1]);
    }
  }

  // ---------------------------------------------------------------------------
  // Runs that go wrong

  ghost predicate Reaches(states: seq<State>, steps: seq<Step>, s: State) {
    Run(states, steps) && states[|steps|] == s
  }

  /** One more step at the end of a run. */
  lemma Extend(states: seq<State>, steps: seq<Step>, s: State, step: Step)
    requires Reaches(states, steps, s) && Enabled(s, step)
    ensures Reaches(states + [Apply(s, step)], steps + [step], Apply(s, step))
  {
    hide Apply, Enabled;
    var states', steps' := states + [Apply(s, step)], steps + [step];
    forall i | 0 <= i < |steps'|
      ensures Enabled(states'[i], steps'[i]) && states'[i + 1] == Apply(states'[i], steps'[i])
    {
      assert i < |steps| ==> steps'[i] == steps[i] && states'[i] == states[i] && states'[i + 1] == states[i + 1];
    }
  }

  function Copies(d: Data, k: nat): (ds: seq<Data>)
    ensures |ds| == k
  {
    if k == 0 then [] else Copies(d, k - 1) + [d]
  }

  /** One registered client that was sent the message `k` times and has received none of it. */
  function Backlogged(c: ClientId, msg: Message, k: nat): State {
    var ds := Copies(msg.data, k);
    State(map[msg.company := {c}], map[c := Client(msg.company, Registered, {}, ds, false, 0, ds, [])], {}, Waiting)
  }

  lemma {:induction false} BacklogIsReachable(c: ClientId, msg: Message, k: nat)
    returns (states: seq<State>, steps: seq<Step>)
    requires k <= CAPACITY
    ensures Reaches(states, steps, Backlogged(c, msg, k))
  {
    hide Reaches, Enabled, Apply;
    if k == 0 {
      states, steps := Registration(c, msg.company);
      assert Backlogged(c, msg, 0) == Backlogged(c, Message(msg.company, 0, []), 0);
    } else {
      states, steps := BacklogIsReachable(c, msg, k - 1);
      var s0 := Backlogged(c, msg, k - 1);
      OneMore(c, msg, k - 1);
      var s1 := Apply(s0, Start(msg));
      Extend(states, steps, s0, Start(msg));
      states, steps := states + [s1], steps + [Start(msg)];
      var s2 := Apply(s1, Visit(c));
      Extend(states, steps, s1, Visit(c));
      states, steps := states + [s2], steps + [Visit(c)];
      Extend(states, steps, s2, Finish);
      states, steps := states + [Apply(s2, Finish)], steps + [Finish];
    }
  }

  lemma Registration(c: ClientId, company: Company) returns (states: seq<State>, steps: seq<Step>)
    ensures Reaches(states, steps, Backlogged(c, Message(company, 0, []), 0))
  {
    hide Reaches;
    states, steps := [INITIAL], [];
    assert Reaches(states, steps, INITIAL) by { Beginning(); }
    var s1 := Apply(INITIAL, Create(c, company));
    Extend(states, steps, INITIAL, Create(c, company));
    states, steps := states + [s1], steps + [Create(c, company)];
    Extend(states, steps, s1, Register(c));
    var s2 := Apply(s1, Register(c));
    var nobody: set<ClientId> := {};
    assert nobody + {c} == {c};
    assert s2.clients == map[company := {c}] && s2.info == map[c := s2.info[c]];
    states, steps := states + [s2], steps + [Register(c)];
  }

  lemma Beginning()
    ensures Reaches([INITIAL], [], INITIAL)
  {
  }

  /** A whole broadcast to a client whose buffer has room. */
  lemma OneMore(c: ClientId, msg: Message, k: nat)
    requires k < CAPACITY
    ensures var s0 := Backlogged(c, msg, k);
            Enabled(s0, Start(msg)) &&
            var s1 := Apply(s0, Start(msg));
            Enabled(s1, Visit(c)) &&
            var s2 := Apply(s1, Visit(c));
            Enabled(s2, Finish) && Apply(s2, Finish) == Backlogged(c, msg, k + 1)
  {
    var s1 := Apply(Backlogged(c, msg, k), Start(msg));
    assert s1.loop == Broadcasting(msg, {c});
    assert {c} - {c} == {};
  }

  /** A client that receives nothing blocks the loop with the 257th message, whatever the message. */
  lemma StuckIsReachable(c: ClientId, msg: Message) returns (states: seq<State>, steps: seq<Step>)
    ensures Run(states, steps) && states[|steps|].loop.Sending?
  {
    hide Run;
    states, steps := BacklogIsReachable(c, msg, CAPACITY);
    var s0 := Backlogged(c, msg, CAPACITY);
    var s1 := Apply(s0, Start(msg));
    Extend(states, steps, s0, Start(msg));
    states, steps := states + [s1], steps + [Start(msg)];
    Extend(states, steps, s1, Visit(c));
    states, steps := states + [Apply(s1, Visit(c))], steps + [Visit(c)];
  }

  /** A registered client that subscribed to some device other than 0 misses an alert of its company. */
  lemma AlertIsMissed(c: ClientId, company: Company, device: Device, data: Data)
    returns (states: seq<State>, steps: seq<Step>, i: nat)
    requires device != ALERT_DEVICE
    ensures OneBroadcast(states, steps, c, i, |steps|) && states[|steps|].loop.Waiting?
    ensures steps[i].msg == Message(company, ALERT_DEVICE, data)
    ensures states[i].info[c].company == company && states[i].info[c].status == Registered
    ensures c in states[|steps|].info && states[|steps|].info[c].sent == states[i].info[c].sent
  {
    hide Reaches;
    var msg := Message(company, ALERT_DEVICE, data);
    states, steps := Registration(c, company);
    var s0 := Backlogged(c, Message(company, 0, []), 0);
    var s1 := Apply(s0, Subscribe(c, {device}));
    Extend(states, steps, s0, Subscribe(c, {device}));
    states, steps := states + [s1], steps + [Subscribe(c, {device})];
    i := |steps|;
    var s2 := Apply(s1, Start(msg));
    assert s2.loop == Broadcasting(msg, {c});
    Extend(states, steps, s1, Start(msg));
    states, steps := states + [s2], steps + [Start(msg)];
    var s3 := Apply(s2, Visit(c));
    assert s3.loop == Broadcasting(msg, {}) by { assert {c} - {c} == {}; }
    Extend(states, steps, s2, Visit(c));
    states, steps := states + [s3], steps + [Visit(c)];
    Extend(states, steps, s3, Finish);
    states, steps := states + [Apply(s3, Finish)], steps + [Finish];
    assert Run(states, steps) by { RunOf(states, steps, Apply(s3, Finish)); }
  }

  lemma RunOf(states: seq<State>, steps: seq<Step>, s: State)
    requires Reaches(states, steps, s)
    ensures Run(states, steps) && states[|steps|] == s
  {
  }

  lemma NonEmpty(s: set<int>)
    requires s != {}
    ensures exists x :: x in s
  {
    assert (forall x :: x !in s) ==> s == {};
  }

  // ---------------------------------------------------------------------------
  // The hub object

  class EventLoop {
    var clients: map<Company, set<ClientId>>
    var info: map<ClientId, Client>

    ghost function View(): State
      reads this
    {
      State(clients, info, {}, Waiting)
    }

    constructor ()
      ensures View() == INITIAL
    {
      clients, info := map[], map[];
    }

    method OnRegister(c: ClientId)
      requires Enabled(View(), Register(c))
      modifies this
      ensures View() == Apply(old(View()), Register(c))
    {
      var company := info[c].company;
      if company !in clients {
        clients := clients[company := {}];
      }
      clients := clients[company := clients[company] + {c}];
      info := info[c := info[c].(status := Registered)];
    }

    method OnUnregister(c: ClientId)
      requires Inv(View()) && c in info
      modifies this
      ensures View() == Apply(old(View()).(offers := {ByHandler(c)}), Unregister(ByHandler(c)))
    {
      assert ClientOk(info[c]);
      var company := info[c].company;
      if company in clients {
        if c in clients[company] {
          clients := clients[company := clients[company] - {c}];
          info := info[c := info[c].(status := Gone, closed := true, closes := info[c].closes + 1)];
          if clients[company] == {} {
            clients := clients - {company};
          }
        }
      }
    }

    /** Visits the clients of the company in any order; stops where a full buffer makes the loop send to itself. */
    method OnBroadcast(msg: Message) returns (order: seq<ClientId>, stuck: bool)
      requires Inv(View())
      modifies this
      ensures forall c | c in order :: c in old(info)
      ensures old(View()).clients == clients
      ensures msg.company !in clients ==> order == [] && View() == old(View()) && !stuck
      ensures msg.company in clients ==>
                Visits(Apply(old(View()), Start(msg)), order).Some? &&
                var s := Visits(Apply(old(View()), Start(msg)), order).value;
                s.info == info && (if stuck then s.loop.Sending? else s.loop == Broadcasting(msg, {}))
    {
      hide ApplyVisit, Inv;
      order, stuck := [], false;
      if msg.company !in clients {
        return;
      }
      var remaining := clients[msg.company];
      ghost var s0 := Apply(View(), Start(msg));
      ghost var s := s0;
      StartKeepsInv(View(), msg);
      while remaining != {}
        invariant Visits(s0, order) == Some(s) && Inv(s)
        invariant s == State(clients, info, {}, Broadcasting(msg, remaining))
        invariant clients == old(clients) && info.Keys == old(info).Keys
        invariant forall c | c in order :: c in old(info)
        decreases remaining
      {
        NonEmpty(remaining);
        var c :| c in remaining;
        VisitableClient(s, c);
        VisitsSnoc(s0, order, c, s);
        s := ApplyVisit(s, c);
        order := order + [c];
        if IsSubscribed(info[c], msg.device) {
          if |info[c].queue| < CAPACITY {
            info := info[c := info[c].(queue := info[c].queue + [msg.data], sent := info[c].sent + [msg.data])];
          } else {
            stuck := true;
            return;
          }
        }
        remaining := remaining - {c};
      }
    }
  }

  /** The effect of visiting clients in the given order, as long as the loop keeps going. */
  function Visits(s: State, order: seq<ClientId>): Option<State> {
    if order == [] then Some(s)
    else
      var before, c := Visits(s, order[..|order| - 1]), order[|order| - 1];
      if before.Some? && Enabled(before.value, Visit(c)) then Some(ApplyVisit(before.value, c)) else None
  }

  lemma VisitsSnoc(s0: State, order: seq<ClientId>, c: ClientId, s: State)
    requires Visits(s0, order) == Some(s) && Enabled(s, Visit(c))
    ensures Visits(s0, order + [c]) == Some(ApplyVisit(s, c))
  {
    assert (order + [c])[..|order|] == order;
  }

  lemma StartKeepsInv(s: State, msg: Message)
    requires Inv(s) && s.loop.Waiting?
    ensures Inv(Apply(s, Start(msg)))
  {
    InvStep(s, Start(msg));
  }

  /** A client about to be visited is open; the visit's outcome by cases. */
  lemma VisitableClient(s: State, c: ClientId)
    requires Inv(s) && s.loop.Broadcasting? && c in s.loop.remaining
    ensures Enabled(s, Visit(c)) && Inv(ApplyVisit(s, c))
    ensures var x, msg := s.info[c], s.loop.msg;
            ApplyVisit(s, c) ==
              if !IsSubscribed(x, msg.device) then s.(loop := Broadcasting(msg, s.loop.remaining - {c}))
              else if |x.queue| < CAPACITY then
                s.(loop := Broadcasting(msg, s.loop.remaining - {c}),
                   info := s.info[c := x.(queue := x.queue + [msg.data], sent := x.sent + [msg.data])])
              else s.(offers := s.offers + {ByHub(c)},
                      loop := Sending(c, Broadcasting(msg, s.loop.remaining - {c})))
  {
    InvStep(s, Visit(c));
    assert ClientOk(s.info[c]);
  }

  // ---------------------------------------------------------------------------
  // Counting

  /** The clients registered and not unregistered since. */
  function Connected(s: State): set<ClientId> {
    set c | c in s.info && s.info[c].status == Registered
  }

  /** Summing the sizes company by company counts every connected client once. */
  method ConnectedCount(s: State) returns (count: nat)
    requires Inv(s)
    ensures count == |Connected(s)|
  {
    count := 0;
    var companies := s.clients.Keys;
    ghost var seen: set<ClientId> := {};
    EveryoneIsListed(s);
    while companies != {}
      invariant companies <= s.clients.Keys
      invariant seen == CountedBut(s, companies)
      invariant count == |seen|
      decreases companies
    {
      NonEmpty(companies);
      var company :| company in companies;
      CountCompany(s, companies, company);
      count := count + |s.clients[company]|;
      companies := companies - {company};
      seen := CountedBut(s, companies);
    }
    NoneLeft(s);
  }

  /** The connected clients of the companies already counted. */
  function CountedBut(s: State, companies: set<Company>): set<ClientId> {
    set c | c in s.info && s.info[c].status == Registered && s.info[c].company !in companies
  }

  lemma EveryoneIsListed(s: State)
    requires Inv(s)
    ensures CountedBut(s, s.clients.Keys) == {}
  {
    forall c | c in s.info && s.info[c].status == Registered
      ensures s.info[c].company in s.clients.Keys
    {
    }
    assert forall c :: c !in CountedBut(s, s.clients.Keys);
  }

  lemma NoneLeft(s: State)
    ensures CountedBut(s, {}) == Connected(s)
  {
  }

  lemma CountCompany(s: State, companies: set<Company>, company: Company)
    requires Inv(s) && company in companies && companies <= s.clients.Keys
    ensures |CountedBut(s, companies - {company})| == |CountedBut(s, companies)| + |s.clients[company]|
  {
    var before, more := CountedBut(s, companies), s.clients[company];
    forall c | c in CountedBut(s, companies - {company})
      ensures c in before + more
    {
      assert s.info[c].status == Registered;
    }
    forall c | c in before + more
      ensures c in CountedBut(s, companies - {company})
    {
      assert c in more ==> s.info[c].company == company;
    }
    assert CountedBut(s, companies - {company}) == before + more;
    forall c | c in more
      ensures c !in before
    {
      assert s.info[c].company == company;
    }
    assert before !! more;
  }
}
