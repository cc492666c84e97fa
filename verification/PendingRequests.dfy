/** The table of pending requests that a `MessageDispatcher` shares with its transport: who waits
    for which response, through registration, writing, delivery, time-out and clearing. Waiters are
    numbered in the order of their registrations. */
module PendingRequests {

  datatype RequestId = IntId(n: int) | StrId(s: string)

  type Response = string

  /** What a waiter's one-shot channel has seen: nothing yet, a response, the sender dropped, or the
      waiter itself gave up. */
  datatype Outcome = Waiting | Got(response: Response) | Closed | TimedOut

  datatype State = State(pending: map<RequestId, nat>, outcomes: seq<Outcome>)

  const INIT := State(map[], [])

  /** The steps of all tasks that share the table. `Write` is the payload leaving: it shows the
      requests `ids` to the peer. */
  datatype Step =
    | Register(id: RequestId)
    | Write(ids: set<RequestId>)
    | Deliver(id: RequestId, response: Response)
    | TimeOut(waiter: nat)
    | Clear

  // ---------- One step ----------

  /** A one-shot channel takes the first thing that happens to it. */
  function Resolve(outcomes: seq<Outcome>, w: nat, o: Outcome): seq<Outcome> {
    if w < |outcomes| && outcomes[w].Waiting? then outcomes[w := o] else outcomes
  }

  /** `HashMap::insert` drops the sender of an earlier request with the same id. */
  function Stored(s: State, id: RequestId): State {
    var outcomes := if id in s.pending then Resolve(s.outcomes, s.pending[id], Closed) else s.outcomes;
    State(s.pending[id := |outcomes|], outcomes + [Waiting])
  }

  function Delivered(s: State, id: RequestId, response: Response): State {
    if id in s.pending
    then State(s.pending - {id}, Resolve(s.outcomes, s.pending[id], Got(response)))
    else s
  }

  function CloseAll(outcomes: seq<Outcome>, dropped: set<nat>): seq<Outcome> {
    seq(|outcomes|, i requires 0 <= i < |outcomes| =>
      if i in dropped && outcomes[i].Waiting? then Closed else outcomes[i])
  }

  function Cleared(s: State): State {
    State(map[], CloseAll(s.outcomes, s.pending.Values))
  }

  function Next(s: State, step: Step): State {
    match step
    case Register(id) => Stored(s, id)
    case Write(_) => s
    case Deliver(id, response) => Delivered(s, id, response)
    case TimeOut(w) => s.(outcomes := Resolve(s.outcomes, w, TimedOut))
    case Clear => Cleared(s)
  }

  function Run(steps: seq<Step>): State {
    if steps == [] then INIT else Next(Run(steps[..|steps| - 1]), steps[|steps| - 1])
  }

  // ---------- The table object ----------

  class PendingTable {
    var pending: map<RequestId, nat>
    var outcomes: seq<Outcome>

    ghost function View(): State
      reads this
    {
      State(pending, outcomes)
    }

    constructor ()
      ensures View() == INIT
    {
      pending, outcomes := map[], [];
    }

    /** `store_pending_request` */
    method StorePendingRequest(id: RequestId) returns (w: nat)
      modifies this
      ensures View() == Next(old(View()), Register(id))
      ensures w == |old(outcomes)| && pending[id] == w && outcomes[w] == Waiting
    {
      if id in pending {
        outcomes := Resolve(outcomes, pending[id], Closed);
      }
      w := |outcomes|;
      outcomes := outcomes + [Waiting];
      pending := pending[id := w];
    }

    /** `pending_request_tx`, and sending the response to the waiter found: a response is taken at
        most once, and reported when nobody waits for it. */
    method DeliverResponse(id: RequestId, response: Response) returns (found: bool)
      modifies this
      ensures View() == Next(old(View()), Deliver(id, response))
      ensures found == (id in old(pending)) && id !in pending
    {
      found := id in pending;
      if found {
        var w := pending[id];
        pending := pending - {id};
        outcomes := Resolve(outcomes, w, Got(response));
      }
    }

    /** The clean-up when the server process exits. */
    method ClearAll()
      modifies this
      ensures View() == Next(old(View()), Clear) && pending == map[]
    {
      outcomes := CloseAll(outcomes, pending.Values);
      pending := map[];
    }

    /** `await_timeout` giving up: the entry stays in the table. */
    method GiveUp(w: nat)
      modifies this
      ensures View() == Next(old(View()), TimeOut(w)) && pending == old(pending)
    {
      outcomes := Resolve(outcomes, w, TimedOut);
    }
  }

  // ---------- The specification ----------

  function Registrations(steps: seq<Step>): nat {
    if steps == [] then 0
    else Registrations(steps[..|steps| - 1]) + if steps[|steps| - 1].Register? then 1 else 0
  }

  /** What a single step does to waiter `w` of request `id`, if it still waits. */
  function Effect(id: RequestId, w: nat, step: Step): Outcome {
    match step
    case Register(other) => if other == id then Closed else Waiting
    case Write(_) => Waiting
    case Deliver(other, response) => if other == id then Got(response) else Waiting
    case TimeOut(other) => if other == w then TimedOut else Waiting
    case Clear => Closed
  }

  /** The fate of a waiter, from the steps after its registration: the first step that affects it. */
  function Fate(id: RequestId, w: nat, later: seq<Step>): Outcome {
    if later == [] then Waiting
    else
      var before := Fate(id, w, later[..|later| - 1]);
      if before.Waiting? then Effect(id, w, later[|later| - 1]) else before
  }

  lemma RunSnoc(steps: seq<Step>, step: Step)
    ensures Run(steps + [step]) == Next(Run(steps), step)
    ensures Registrations(steps + [step]) == Registrations(steps) + if step.Register? then 1 else 0
  {
    assert (steps + [step])[..|steps|] == steps;
  }

  lemma FateSnoc(id: RequestId, w: nat, later: seq<Step>, step: Step)
    ensures Fate(id, w, later + [step]) ==
            if Fate(id, w, later).Waiting? then Effect(id, w, step) else Fate(id, w, later)
  {
    assert (later + [step])[..|later|] == later;
  }

  ghost predicate Sound(s: State) {
    && (forall id :: id in s.pending ==> s.pending[id] < |s.outcomes|)
    && (forall a, b :: a in s.pending && b in s.pending && s.pending[a] == s.pending[b] ==> a == b)
  }

  lemma NextIsSound(s: State, step: Step)
    requires Sound(s)
    ensures Sound(Next(s, step))
    ensures |Next(s, step).outcomes| == |s.outcomes| + if step.Register? then 1 else 0
  {
  }

  lemma {:induction false} RunIsSound(steps: seq<Step>)
    ensures Sound(Run(steps)) && |Run(steps).outcomes| == Registrations(steps)
  {
    if steps != [] {
      RunIsSound(steps[..|steps| - 1]);
      NextIsSound(Run(steps[..|steps| - 1]), steps[|steps| - 1]);
    }
  }

  /** How the state relates to a waiter's fate so far. */
  ghost predicate Tracks(s: State, id: RequestId, w: nat, fate: Outcome) {
    && w < |s.outcomes| && s.outcomes[w] == fate
    && (fate.Waiting? ==> id in s.pending && s.pending[id] == w)
    && (forall other :: other in s.pending && s.pending[other] == w ==> other == id)
  }

  lemma NextTracks(s: State, id: RequestId, w: nat, fate: Outcome, step: Step)
    requires Sound(s) && Tracks(s, id, w, fate)
    ensures Tracks(Next(s, step), id, w, if fate.Waiting? then Effect(id, w, step) else fate)
  {
    if step.Clear? && fate.Waiting? {
      assert id in s.pending;
      assert w in s.pending.Values;
    }
  }

  /** In every run and for every request: the waiter's channel holds exactly the first thing that
      happened to it after its registration. */
  lemma {:induction false} OutcomeIsFate(before: seq<Step>, id: RequestId, later: seq<Step>)
    ensures Tracks(Run(before + [Register(id)] + later), id, Registrations(before),
                   Fate(id, Registrations(before), later))
    decreases |later|
  {
    hide Run, Tracks, Fate, Next;
    var w := Registrations(before);
    if later == [] {
      assert before + [Register(id)] + later == before + [Register(id)];
      RunSnoc(before, Register(id));
      RunIsSound(before);
      NewWaiter(Run(before), id);
      FateOfNothing(id, w);
    } else {
      var front, last := later[..|later| - 1], later[|later| - 1];
      OutcomeIsFate(before, id, front);
      var steps := before + [Register(id)] + front;
      assert before + [Register(id)] + later == steps + [last];
      assert later == front + [last];
      RunSnoc(steps, last);
      RunIsSound(steps);
      FateSnoc(id, w, front, last);
      NextTracks(Run(steps), id, w, Fate(id, w, front), last);
    }
  }

  lemma NewWaiter(s: State, id: RequestId)
    requires Sound(s)
    ensures Tracks(Next(s, Register(id)), id, |s.outcomes|, Waiting)
  {
  }

  lemma FateOfNothing(id: RequestId, w: nat)
    ensures Fate(id, w, []) == Waiting
  {
  }

  // ---------- Consequences ----------

  /** Step `i` registered `id`, and no later step delivered it or cleared the table. */
  ghost predicate OpenSince(steps: seq<Step>, id: RequestId, i: nat) {
    && i < |steps| && steps[i] == Register(id)
    && forall k :: i < k < |steps| ==> !Removes(steps[k], id)
  }

  predicate Removes(step: Step, id: RequestId) {
    step.Clear? || (step.Deliver? && step.id == id)
  }

  lemma NextInTable(s: State, step: Step, id: RequestId)
    ensures id in Next(s, step).pending <==> step == Register(id) || (id in s.pending && !Removes(step, id))
  {
  }

  /** An id is in the table exactly when it was registered and neither delivered nor cleared since;
      a time-out in particular does not remove it. */
  lemma {:induction false} TableIsExact(steps: seq<Step>, id: RequestId)
    ensures id in Run(steps).pending <==> exists i :: OpenSince(steps, id, i)
  {
    if steps != [] {
      var n, front, last := |steps| - 1, steps[..|steps| - 1], steps[|steps| - 1];
      TableIsExact(front, id);
      NextInTable(Run(front), last, id);
      hide Next, Removes;
      if last == Register(id) {
        assert OpenSince(steps, id, n);
      } else if id in Run(front).pending && !Removes(last, id) {
        var i :| OpenSince(front, id, i);
        assert OpenSince(steps, id, i);
      }
      if i: nat :| OpenSince(steps, id, i) {
        assert i < n ==> OpenSince(front, id, i) && !Removes(steps[n], id);
      }
    }
  }

  lemma ResolvedStays(s: State, w: nat, step: Step)
    requires w < |s.outcomes| && !s.outcomes[w].Waiting?
    ensures w < |Next(s, step).outcomes| && Next(s, step).outcomes[w] == s.outcomes[w]
  {
  }

  /** Each waiter resolves at most once: no later step changes what it got. */
  lemma {:induction false} ResolvesOnce(steps: seq<Step>, more: seq<Step>, w: nat)
    requires w < |Run(steps).outcomes| && !Run(steps).outcomes[w].Waiting?
    ensures w < |Run(steps + more).outcomes| && Run(steps + more).outcomes[w] == Run(steps).outcomes[w]
    decreases |more|
  {
    if more == [] {
      assert steps + more == steps;
    } else {
      var front, last := more[..|more| - 1], more[|more| - 1];
      ResolvesOnce(steps, front, w);
      assert steps + more == (steps + front) + [last];
      RunSnoc(steps + front, last);
      ResolvedStays(Run(steps + front), w, last);
    }
  }

  lemma {:induction false} FateCause(id: RequestId, w: nat, later: seq<Step>)
    ensures Fate(id, w, later).Got? ==> Deliver(id, Fate(id, w, later).response) in later
  {
    if later != [] {
      FateCause(id, w, later[..|later| - 1]);
    }
  }

  /** A waiter only ever gets a response that was delivered under its own id, after it registered. */
  lemma NeverAnothersResponse(before: seq<Step>, id: RequestId, later: seq<Step>)
    ensures var o := Run(before + [Register(id)] + later).outcomes;
            && Registrations(before) < |o|
            && (o[Registrations(before)].Got? ==> Deliver(id, o[Registrations(before)].response) in later)
  {
    OutcomeIsFate(before, id, later);
    FateCause(id, Registrations(before), later);
  }

  // ---------- Registering before and after writing ----------

  /** Nothing in `later` but a delivery can affect the waiter. */
  ghost predicate Undisturbed(id: RequestId, w: nat, later: seq<Step>) {
    forall k :: 0 <= k < |later| ==> later[k] != Clear && later[k] != Register(id) && later[k] != TimeOut(w)
  }

  ghost predicate Delivers(later: seq<Step>, id: RequestId) {
    exists k :: 0 <= k < |later| && later[k].Deliver? && later[k].id == id
  }

  /** An undisturbed waiter is answered iff a response is delivered after its registration. */
  lemma {:induction false} AnsweredIffDeliveredAfter(id: RequestId, w: nat, later: seq<Step>)
    requires Undisturbed(id, w, later)
    ensures Fate(id, w, later).Got? <==> Delivers(later, id)
    ensures !Delivers(later, id) ==> Fate(id, w, later).Waiting?
  {
    if later != [] {
      var front, last := later[..|later| - 1], later[|later| - 1];
      AnsweredIffDeliveredAfter(id, w, front);
      if Delivers(front, id) {
        var k :| 0 <= k < |front| && front[k].Deliver? && front[k].id == id;
        assert later[k].Deliver? && later[k].id == id;
      }
      if last.Deliver? && last.id == id {
        assert later[|later| - 1].id == id;
      }
      if !Delivers(front, id) && !(last.Deliver? && last.id == id) {
        assert !Delivers(later, id);
      }
    }
  }

  /** A peer only answers requests it has been shown. */
  ghost predicate Causal(steps: seq<Step>) {
    forall d :: 0 <= d < |steps| && steps[d].Deliver? ==>
                  exists k :: 0 <= k < d && steps[k].Write? && steps[d].id in steps[k].ids
  }

  /** The four ways of sending, as the steps each performs in order. The server's batch builds its
      registrations before the write but performs them after it. */
  datatype Send = ClientSingle(id: RequestId) | ClientBatch(ids: seq<RequestId>)
                | ServerSingle(id: RequestId) | ServerBatch(ids: seq<RequestId>)

  function RegisterAll(ids: seq<RequestId>): seq<Step> {
    seq(|ids|, i requires 0 <= i < |ids| => Register(ids[i]))
  }

  function SetOf(ids: seq<RequestId>): set<RequestId> {
    set id | id in ids
  }

  function Program(send: Send): seq<Step> {
    match send
    case ClientSingle(id) => [Register(id), Write({id})]
    case ServerSingle(id) => [Register(id), Write({id})]
    case ClientBatch(ids) => RegisterAll(ids) + [Write(SetOf(ids))]
    case ServerBatch(ids) => [Write(SetOf(ids))] + RegisterAll(ids)
  }

  predicate Sends(send: Send, id: RequestId) {
    match send
    case ClientSingle(i) => i == id
    case ServerSingle(i) => i == id
    case ClientBatch(ids) => id in ids
    case ServerBatch(ids) => id in ids
  }

  /** Every send registers exactly the requests that it shows to the peer. */
  lemma SendsWhatItRegisters(send: Send, id: RequestId)
    ensures Sends(send, id) <==> Register(id) in Program(send)
    ensures Sends(send, id) <==>
            exists k :: 0 <= k < |Program(send)| && Program(send)[k].Write? && id in Program(send)[k].ids
  {
    var program := Program(send);
    match send
    case ClientSingle(i) =>
      assert program[0] == Register(i) && program[1].Write?;
    case ServerSingle(i) =>
      assert program[0] == Register(i) && program[1].Write?;
    case ClientBatch(ids) =>
      RegistersEach(ids, id);
      assert program[|ids|] == Write(SetOf(ids));
    case ServerBatch(ids) =>
      RegistersEach(ids, id);
      assert program[0] == Write(SetOf(ids));
  }

  lemma RegistersEach(ids: seq<RequestId>, id: RequestId)
    ensures |RegisterAll(ids)| == |ids| && forall k :: 0 <= k < |ids| ==> RegisterAll(ids)[k].Register?
    ensures Register(id) in RegisterAll(ids) <==> id in ids
  {
    if id in ids {
      var k :| 0 <= k < |ids| && ids[k] == id;
      assert RegisterAll(ids)[k] == Register(id);
    }
  }

  /** The steps of `program` occur in a run in their order, at positions `pos`, among steps of others. */
  ghost predicate Embeds(program: seq<Step>, steps: seq<Step>, pos: seq<nat>) {
    && |pos| == |program|
    && (forall k :: 0 <= k < |pos| ==> pos[k] < |steps| && steps[pos[k]] == program[k])
    && (forall a, b :: 0 <= a < b < |pos| ==> pos[a] < pos[b])
  }

  /** Position `r` registers `id`; position `k` writes it; each is the only one that does. */
  ghost predicate Only(steps: seq<Step>, id: RequestId, r: nat, k: nat) {
    && r < |steps| && steps[r] == Register(id)
    && k < |steps| && steps[k].Write? && id in steps[k].ids
    && (forall i :: 0 <= i < |steps| && steps[i] == Register(id) ==> i == r)
    && (forall i :: 0 <= i < |steps| && steps[i].Write? && id in steps[i].ids ==> i == k)
  }

  /** Except in a server's batch, every request is registered before its payload is written. */
  lemma RegisteredBeforeWritten(send: Send, steps: seq<Step>, pos: seq<nat>, id: RequestId, r: nat, k: nat)
    requires Embeds(Program(send), steps, pos) && Only(steps, id, r, k)
    requires Sends(send, id)
    ensures if send.ServerBatch? then k < r else r < k
  {
    var program := Program(send);
    match send
    case ClientBatch(ids) =>
      var i :| 0 <= i < |ids| && ids[i] == id;
      assert program[i] == Register(id) && program[|ids|] == Write(SetOf(ids));
      assert steps[pos[i]] == Register(id) && steps[pos[|ids|]] == Write(SetOf(ids));
    case ServerBatch(ids) =>
      var i :| 0 <= i < |ids| && ids[i] == id;
      assert program[i + 1] == Register(id) && program[0] == Write(SetOf(ids));
      assert steps[pos[i + 1]] == Register(id) && steps[pos[0]] == Write(SetOf(ids));
    case _ =>
      assert program[0] == Register(id) && program[1] == Write({id});
      assert steps[pos[0]] == Register(id) && steps[pos[1]] == Write({id});
  }

  /** The first response that is delivered under `id`. */
  ghost predicate FirstDelivery(later: seq<Step>, id: RequestId, response: Response) {
    exists d :: 0 <= d < |later| && later[d] == Deliver(id, response) && !Delivers(later[..d], id)
  }

  /** The response that an undisturbed waiter gets is the first one delivered after its registration. */
  lemma {:induction false} AnsweredWithFirst(id: RequestId, w: nat, later: seq<Step>, response: Response)
    requires Undisturbed(id, w, later)
    ensures Fate(id, w, later) == Got(response) <==> FirstDelivery(later, id, response)
  {
    AnsweredIffDeliveredAfter(id, w, later);
    if later != [] {
      var n, front, last := |later| - 1, later[..|later| - 1], later[|later| - 1];
      AnsweredWithFirst(id, w, front, response);
      AnsweredIffDeliveredAfter(id, w, front);
      assert forall d :: 0 <= d <= n ==> front[..d] == later[..d];
      hide Delivers;
      if FirstDelivery(front, id, response) {
        var d :| 0 <= d < |front| && front[d] == Deliver(id, response) && !Delivers(front[..d], id);
        assert later[d] == Deliver(id, response) && !Delivers(later[..d], id);
      }
      if d :| 0 <= d < |later| && later[d] == Deliver(id, response) && !Delivers(later[..d], id) {
        if d < n {
          assert front[d] == Deliver(id, response) && !Delivers(front[..d], id);
        }
      }
      if !Delivers(front, id) && last == Deliver(id, response) {
        assert later[n] == Deliver(id, response) && !Delivers(later[..n], id);
      }
    }
  }

  /** In any run: a waiter that nothing disturbs has a response iff one was delivered under its id
      after it registered, and waits on otherwise. */
  lemma WaiterAnsweredIff(steps: seq<Step>, id: RequestId, r: nat)
    requires r < |steps| && steps[r] == Register(id)
    requires Undisturbed(id, Registrations(steps[..r]), steps[r + 1..])
    ensures var o := Run(steps).outcomes;
            && Registrations(steps[..r]) < |o|
            && (o[Registrations(steps[..r])].Got? <==> Delivers(steps[r + 1..], id))
            && (!Delivers(steps[r + 1..], id) ==> o[Registrations(steps[..r])].Waiting?)
  {
    hide Run, Fate, Undisturbed, Delivers, Registrations;
    AnsweredIffDeliveredAfter(id, Registrations(steps[..r]), steps[r + 1..]);
    assert steps == steps[..r] + [Register(id)] + steps[r + 1..];
    OutcomeIsFate(steps[..r], id, steps[r + 1..]);
  }

  /** With a peer that answers only what it was shown: a client's sends and a server's single send have
      their response iff any was delivered, however quickly it came; a server's batch has it iff one
      was delivered after the batch got round to registering. */
  lemma ResponseFindsItsWaiterIff(send: Send, steps: seq<Step>, pos: seq<nat>, id: RequestId, r: nat, k: nat)
    requires Embeds(Program(send), steps, pos) && Only(steps, id, r, k) && Causal(steps)
    requires Sends(send, id)
    requires Undisturbed(id, Registrations(steps[..r]), steps[r + 1..])
    ensures Registrations(steps[..r]) < |Run(steps).outcomes|
    ensures Run(steps).outcomes[Registrations(steps[..r])].Got? <==>
            Delivers(if send.ServerBatch? then steps[r + 1..] else steps, id)
  {
    hide Run, Undisturbed, Program, Embeds, Registrations;
    RegisteredBeforeWritten(send, steps, pos, id, r, k);
    WaiterAnsweredIff(steps, id, r);
    if !send.ServerBatch? {
      DeliveredAfterRegistration(steps, id, r, k);
    }
  }

  lemma DeliveredAfterRegistration(steps: seq<Step>, id: RequestId, r: nat, k: nat)
    requires Only(steps, id, r, k) && Causal(steps) && r < k
    ensures Delivers(steps, id) <==> Delivers(steps[r + 1..], id)
  {
    var later := steps[r + 1..];
    if Delivers(steps, id) {
      var d :| 0 <= d < |steps| && steps[d].Deliver? && steps[d].id == id;
      assert d > k;
      assert later[d - r - 1] == steps[d];
    }
    if Delivers(later, id) {
      var d :| 0 <= d < |later| && later[d].Deliver? && later[d].id == id;
      assert steps[r + 1 + d] == later[d];
    }
  }

  /** The batch is written, a response comes at once, and then the batch registers. */
  function QuickAnswer(ids: seq<RequestId>, id: RequestId, response: Response): seq<Step> {
    [Write(SetOf(ids)), Deliver(id, response)] + RegisterAll(ids)
  }

  function BatchPositions(n: nat): seq<nat> {
    [0] + seq(n, k requires 0 <= k < n => k + 2)
  }

  lemma QuickAnswerSteps(ids: seq<RequestId>, id: RequestId, response: Response)
    ensures var steps := QuickAnswer(ids, id, response);
            && |steps| == |ids| + 2 && steps[0] == Write(SetOf(ids)) && steps[1] == Deliver(id, response)
            && forall k :: 2 <= k < |steps| ==> steps[k] == Register(ids[k - 2])
  {
  }

  lemma QuickAnswerEmbeds(ids: seq<RequestId>, id: RequestId, response: Response)
    ensures Embeds(Program(ServerBatch(ids)), QuickAnswer(ids, id, response), BatchPositions(|ids|))
  {
    var program, pos := Program(ServerBatch(ids)), BatchPositions(|ids|);
    QuickAnswerSteps(ids, id, response);
    hide QuickAnswer;
    assert |program| == |ids| + 1 && program[0] == Write(SetOf(ids));
    assert forall k :: 1 <= k < |program| ==> program[k] == Register(ids[k - 1]);
    assert forall k :: 1 <= k < |pos| ==> pos[k] == k + 1;
    hide Program, BatchPositions;
  }

  /** Any server batch can miss the response to any of its requests: it may come between the write and
      the registrations, and then the waiter is left waiting. */
  lemma ServerBatchCanMissAResponse(ids: seq<RequestId>, i: nat, response: Response)
    requires i < |ids| && forall a, b :: 0 <= a < b < |ids| ==> ids[a] != ids[b]
    ensures var steps := QuickAnswer(ids, ids[i], response);
            && Embeds(Program(ServerBatch(ids)), steps, BatchPositions(|ids|)) && Causal(steps)
            && |steps| == |ids| + 2 && Only(steps, ids[i], i + 2, 0) && Delivers(steps, ids[i])
            && Registrations(steps[..i + 2]) < |Run(steps).outcomes|
            && Run(steps).outcomes[Registrations(steps[..i + 2])] == Waiting
  {
    QuickAnswerEmbeds(ids, ids[i], response);
    QuickAnswerShape(ids, i, response);
    QuickAnswerLater(ids, i, response);
    hide *;
    WaiterAnsweredIff(QuickAnswer(ids, ids[i], response), ids[i], i + 2);
  }

  lemma QuickAnswerShape(ids: seq<RequestId>, i: nat, response: Response)
    requires i < |ids| && forall a, b :: 0 <= a < b < |ids| ==> ids[a] != ids[b]
    ensures var steps := QuickAnswer(ids, ids[i], response);
            && |steps| == |ids| + 2 && steps[i + 2] == Register(ids[i])
            && Causal(steps) && Only(steps, ids[i], i + 2, 0) && Delivers(steps, ids[i])
  {
    var id := ids[i];
    var steps := QuickAnswer(ids, id, response);
    QuickAnswerSteps(ids, id, response);
    assert id in SetOf(ids);
    hide QuickAnswer, SetOf;
    assert steps[1].Deliver? && steps[1].id == id && steps[0].Write? && id in steps[0].ids;
  }

  /** After its registration nothing concerns the waiter any more. */
  lemma QuickAnswerLater(ids: seq<RequestId>, i: nat, response: Response)
    requires i < |ids| && forall a, b :: 0 <= a < b < |ids| ==> ids[a] != ids[b]
    ensures var steps := QuickAnswer(ids, ids[i], response);
            && |steps| == |ids| + 2
            && Undisturbed(ids[i], Registrations(steps[..i + 2]), steps[i + 3..])
            && !Delivers(steps[i + 3..], ids[i])
  {
    var steps := QuickAnswer(ids, ids[i], response);
    QuickAnswerSteps(ids, ids[i], response);
    hide QuickAnswer, Registrations, SetOf;
    var later := steps[i + 3..];
    forall k | 0 <= k < |later| ensures later[k] == Register(ids[i + 1 + k]) {
      assert later[k] == steps[i + 3 + k];
    }
  }
}
