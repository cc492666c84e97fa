/** The acknowledged write path of the streamable HTTP client: any number of writers send payloads
    with a one-shot acknowledgement through a bounded channel to one worker, which posts them one
    after the other until it is cancelled or the channel closes. */
module AckedWrites {
  import Text

  const DEFAULT_CHANNEL_CAPACITY: nat := 64

  datatype PostResult = Posted | PostFailed(reason: string)

  /** One `write_str` call: the writer's number and its payload. */
  datatype Item = Item(writer: nat, payload: string)

  /** What the call returns: the POST's result, a failed send, or a dropped acknowledgement. */
  datatype Answer = Result(r: PostResult) | SendFailed | ChannelClosed

  datatype Worker = Idle | Busy(item: Item) | Stopped

  datatype Completion = Completion(item: Item, r: PostResult)

  /** `sending` are the calls waiting for room in the channel; `enqueued` and `posts` are the
      histories of items accepted by the channel and of bodies posted. */
  datatype State = State(
    submitted: map<nat, string>,
    sending: set<Item>,
    queue: seq<Item>,
    worker: Worker,
    cancelled: bool,
    answers: map<nat, Answer>,
    enqueued: seq<Item>,
    posts: seq<string>,
    completed: seq<Completion>)

  const INIT := State(map[], {}, [], Idle, false, map[], [], [], [])

  datatype Step =
    | Submit(writer: nat, payload: string)
    | Enqueue(writer: nat)
    | Receive
    | Finish(r: PostResult)
    | Cancel
    | Stop

  /** The body of the POST. */
  function Body(item: Item): string {
    Text.Trim(item.payload)
  }

  function Writers(items: set<Item>): set<nat> {
    set item | item in items :: item.writer
  }

  /** When the receiver goes, sends in progress fail and the acknowledgements of queued items are dropped. */
  function Abandoned(sending: set<Item>, queue: seq<Item>): map<nat, Answer> {
    var queued := Writers(set item | item in queue);
    map w | w in Writers(sending) + queued :: if w in queued then ChannelClosed else SendFailed
  }

  /** May the step happen now? The worker can take an item or notice its cancellation whenever it
      is idle; the channel reports that it is closed only once it is empty. */
  predicate Enabled(s: State, step: Step) {
    match step
    case Submit(w, _) => w !in s.submitted
    case Enqueue(w) =>
      && !s.worker.Stopped? && |s.queue| < DEFAULT_CHANNEL_CAPACITY
      && w in s.submitted && Item(w, s.submitted[w]) in s.sending
    case Receive => s.worker.Idle? && s.queue != []
    case Finish(_) => s.worker.Busy?
    case Cancel => true
    case Stop => s.worker.Idle? && (s.cancelled || (s.queue == [] && s.sending == {}))
  }

  function Next(s: State, step: Step): State
    requires Enabled(s, step)
  {
    match step
    case Submit(w, payload) =>
      var s' := s.(submitted := s.submitted[w := payload]);
      if s.worker.Stopped? then s'.(answers := s.answers[w := SendFailed])
      else s'.(sending := s.sending + {Item(w, payload)})
    case Enqueue(w) =>
      var item := Item(w, s.submitted[w]);
      s.(sending := s.sending - {item}, queue := s.queue + [item], enqueued := s.enqueued + [item])
    case Receive =>
      s.(queue := s.queue[1..], worker := Busy(s.queue[0]), posts := s.posts + [Body(s.queue[0])])
    case Finish(r) =>
      s.(worker := Idle, answers := s.answers[s.worker.item.writer := Result(r)],
         completed := s.completed + [Completion(s.worker.item, r)])
    case Cancel => s.(cancelled := true)
    case Stop =>
      s.(worker := Stopped, sending := {}, queue := [], answers := s.answers + Abandoned(s.sending, s.queue))
  }

  /** The states reached by the steps that were enabled when their turn came. */
  function Run(steps: seq<Step>): State {
    if steps == [] then INIT
    else
      var s := Run(steps[..|steps| - 1]);
      if Enabled(s, steps[|steps| - 1]) then Next(s, steps[|steps| - 1]) else s
  }

  // ---------- The channel and its worker, updated in place ----------

  /** The ghost fields are the histories; every method is one step, so the theorems below about
      `Run` hold of every order in which concurrent callers reach these methods. */
  class WritePath {
    var sending: set<Item>
    var queue: seq<Item>
    var worker: Worker
    var cancelled: bool
    var answers: map<nat, Answer>
    ghost var submitted: map<nat, string>
    ghost var enqueued: seq<Item>
    ghost var posts: seq<string>
    ghost var completed: seq<Completion>

    ghost function View(): State
      reads this
    {
      State(submitted, sending, queue, worker, cancelled, answers, enqueued, posts, completed)
    }

    constructor ()
      ensures View() == Run([])
    {
      sending, queue, worker, cancelled, answers := {}, [], Idle, false, map[];
      submitted, enqueued, posts, completed := map[], [], [], [];
    }

    /** `write_str`: the send fails at once if the worker is gone. */
    method Submit(w: nat, payload: string)
      requires Enabled(View(), Step.Submit(w, payload))
      modifies this
      ensures View() == Next(old(View()), Step.Submit(w, payload))
    {
      submitted := submitted[w := payload];
      if worker.Stopped? {
        answers := answers[w := SendFailed];
      } else {
        sending := sending + {Item(w, payload)};
      }
    }

    /** The channel has room and takes the item of a waiting send. */
    method Enqueue(item: Item)
      requires item.writer in submitted && submitted[item.writer] == item.payload
      requires Enabled(View(), Step.Enqueue(item.writer))
      modifies this
      ensures View() == Next(old(View()), Step.Enqueue(item.writer))
    {
      sending := sending - {item};
      queue, enqueued := queue + [item], enqueued + [item];
    }

    /** One turn of the worker's `select`: it stops if it sees the cancellation or a closed channel,
        else it starts to post the next item. */
    method Turn(seesCancel: bool) returns (running: bool)
      requires worker.Idle? && (seesCancel ==> cancelled) && (queue == [] && !seesCancel ==> sending == {})
      modifies this
      ensures running <==> !seesCancel && old(queue) != []
      ensures View() == Next(old(View()), if running then Receive else Step.Stop)
    {
      if seesCancel || queue == [] {
        answers := answers + Abandoned(sending, queue);
        worker, sending, queue := Stopped, {}, [];
        return false;
      }
      var item := queue[0];
      worker, queue, posts := Busy(item), queue[1..], posts + [Body(item)];
      return true;
    }

    /** The POST is over: its result goes to the waiting writer. */
    method Acknowledge(r: PostResult)
      requires worker.Busy?
      modifies this
      ensures View() == Next(old(View()), Finish(r))
    {
      completed := completed + [Completion(worker.item, r)];
      answers := answers[worker.item.writer := Result(r)];
      worker := Idle;
    }

    method Cancel()
      modifies this
      ensures View() == Next(old(View()), Step.Cancel)
    {
      cancelled := true;
    }
  }

  // ---------- The invariant ----------

  function InHand(worker: Worker): seq<Item> {
    if worker.Busy? then [worker.item] else []
  }

  function Items(completed: seq<Completion>): seq<Item> {
    seq(|completed|, i requires 0 <= i < |completed| => completed[i].item)
  }

  function Bodies(items: seq<Item>): seq<string> {
    seq(|items|, i requires 0 <= i < |items| => Body(items[i]))
  }

  /** The items the worker has received, in order. */
  function Taken(s: State): seq<Item> {
    Items(s.completed) + InHand(s.worker)
  }

  /** Order: what was posted is what was taken, and what was taken is the front of what was enqueued,
      the queue being the rest until the worker stops. */
  ghost predicate Fifo(s: State) {
    && s.posts == Bodies(Taken(s))
    && Taken(s) <= s.enqueued
    && (!s.worker.Stopped? ==> s.enqueued == Taken(s) + s.queue)
  }

  /** Every open call is in exactly one place, under its own payload, and has no answer yet. */
  ghost predicate Places(s: State) {
    && (forall item :: item in s.sending || item in s.queue || item in InHand(s.worker) ==>
          item.writer in s.submitted && s.submitted[item.writer] == item.payload && item.writer !in s.answers)
    && (forall item :: item in s.sending ==> item !in s.queue && item !in InHand(s.worker))
    && (forall item :: item in s.queue ==> item !in InHand(s.worker))
    && (forall i, j :: 0 <= i < j < |s.queue| ==> s.queue[i] != s.queue[j])
    && (s.worker.Stopped? ==> s.sending == {} && s.queue == [])
    && |s.queue| <= DEFAULT_CHANNEL_CAPACITY
  }

  /** No call is lost: each has an answer or a place. */
  ghost predicate Accounted(s: State) {
    && (forall w :: w in s.submitted ==>
          var item := Item(w, s.submitted[w]);
          w in s.answers || item in s.sending || item in s.queue || item in InHand(s.worker))
    && (forall w :: w in s.answers ==> w in s.submitted)
  }

  /** An acknowledged result is the result of posting the caller's own payload. */
  ghost predicate Honest(s: State) {
    && (forall c :: c in s.completed ==>
          c.item.writer in s.submitted && s.submitted[c.item.writer] == c.item.payload &&
          c.item.writer in s.answers && s.answers[c.item.writer] == Result(c.r))
    && (forall w :: w in s.answers && s.answers[w].Result? ==>
          w in s.submitted && Completion(Item(w, s.submitted[w]), s.answers[w].r) in s.completed)
  }

  /** Which error a call gets tells whether its payload had entered the channel. */
  ghost predicate Told(s: State) {
    && (forall item :: item in s.enqueued ==>
          item.writer in s.submitted && s.submitted[item.writer] == item.payload && item !in s.sending)
    && (forall w :: w in s.answers && w in s.submitted ==>
          && (s.answers[w].ChannelClosed? ==> Item(w, s.submitted[w]) in s.enqueued)
          && (s.answers[w].SendFailed? ==> Item(w, s.submitted[w]) !in s.enqueued))
  }

  lemma ReceiveKeepsFifo(s: State)
    requires Fifo(s) && Enabled(s, Receive)
    ensures Fifo(Next(s, Receive))
  {
    hide Body, Text.Trim;
    var s' := Next(s, Receive);
    assert Taken(s') == Taken(s) + [s.queue[0]];
    assert Bodies(Taken(s')) == Bodies(Taken(s)) + [Body(s.queue[0])];
    assert Taken(s) + s.queue == Taken(s') + s'.queue;
  }

  lemma NextKeepsFifo(s: State, step: Step)
    requires Fifo(s) && Enabled(s, step)
    ensures Fifo(Next(s, step))
  {
    hide Body, Text.Trim;
    var s' := Next(s, step);
    match step
    case Receive =>
      ReceiveKeepsFifo(s);
    case Enqueue(_) =>
      assert Taken(s') == Taken(s);
      assert Taken(s) + (s.queue + [s'.queue[|s.queue|]]) == (Taken(s) + s.queue) + [s'.queue[|s.queue|]];
    case _ =>
      assert Taken(s') == Taken(s);
  }

  lemma NextKeepsPlaces(s: State, step: Step)
    requires Places(s) && Accounted(s) && Enabled(s, step)
    ensures Places(Next(s, step))
  {
    hide Body, Text.Trim;
    match step
    case Enqueue(w) => EnqueueKeepsPlaces(s, w);
    case Receive => ReceiveKeepsPlaces(s);
    case _ =>
  }

  lemma EnqueueKeepsPlaces(s: State, w: nat)
    requires Places(s) && Enabled(s, Enqueue(w))
    ensures Places(Next(s, Enqueue(w)))
  {
    var s', item := Next(s, Enqueue(w)), Item(w, s.submitted[w]);
    assert forall x :: x in s'.queue <==> x in s.queue || x == item;
  }

  lemma ReceiveKeepsPlaces(s: State)
    requires Places(s) && Enabled(s, Receive)
    ensures Places(Next(s, Receive))
  {
    hide Body, Text.Trim;
    var s' := Next(s, Receive);
    assert s.queue == [s.queue[0]] + s'.queue;
    assert forall x :: x in s'.queue ==> x in s.queue;
    assert s.queue[0] !in s'.queue && s.queue[0] in s.queue;
  }

  lemma NextKeepsAccounted(s: State, step: Step)
    requires Places(s) && Accounted(s) && Enabled(s, step)
    ensures Accounted(Next(s, step))
  {
    hide Body, Text.Trim;
  }

  lemma NextKeepsHonest(s: State, step: Step)
    requires Places(s) && Accounted(s) && Honest(s) && Enabled(s, step)
    ensures Honest(Next(s, step))
  {
    hide Body, Text.Trim;
    if step.Finish? {
      FinishKeepsHonest(s, step.r);
    } else if step.Stop? {
      StopKeepsHonest(s);
    }
  }

  lemma StopKeepsHonest(s: State)
    requires Places(s) && Honest(s) && Enabled(s, Stop)
    ensures Honest(Next(s, Stop))
  {
    assert forall w :: w in Abandoned(s.sending, s.queue) ==>
                         w !in s.answers && !Abandoned(s.sending, s.queue)[w].Result?;
    hide Abandoned, Places;
  }

  lemma FinishKeepsHonest(s: State, r: PostResult)
    requires Places(s) && Honest(s) && Enabled(s, Finish(r))
    ensures Honest(Next(s, Finish(r)))
  {
    var s' := Next(s, Finish(r));
    assert s'.completed[|s.completed|] == Completion(s.worker.item, r);
    assert forall c :: c in s'.completed ==> c in s.completed || c == Completion(s.worker.item, r);
    assert s.worker.item in InHand(s.worker);
  }

  lemma NextKeepsTold(s: State, step: Step)
    requires Fifo(s) && Places(s) && Accounted(s) && Told(s) && Enabled(s, step)
    ensures Told(Next(s, step))
  {
    hide Body, Text.Trim, Taken, Bodies;
    match step
    case Enqueue(w) => EnqueueKeepsTold(s, w);
    case Stop => StopKeepsTold(s);
    case _ =>
  }

  lemma EnqueueKeepsTold(s: State, w: nat)
    requires Places(s) && Told(s) && Enabled(s, Enqueue(w))
    ensures Told(Next(s, Enqueue(w)))
  {
    var s', item := Next(s, Enqueue(w)), Item(w, s.submitted[w]);
    assert item in s.sending && item.writer !in s.answers;
    assert forall x :: x in s'.enqueued <==> x in s.enqueued || x == item;
    hide Places;
  }

  lemma StopKeepsTold(s: State)
    requires Fifo(s) && Places(s) && Told(s) && Enabled(s, Stop)
    ensures Told(Next(s, Stop))
  {
    hide Taken, Bodies;
    assert forall item :: item in s.queue ==> item in s.enqueued;
    forall w | w in Abandoned(s.sending, s.queue) && w in s.submitted
      ensures Abandoned(s.sending, s.queue)[w].ChannelClosed? ==> Item(w, s.submitted[w]) in s.enqueued
      ensures Abandoned(s.sending, s.queue)[w].SendFailed? ==> Item(w, s.submitted[w]) !in s.enqueued
    {
      assert w in Writers(s.sending) ==> Item(w, s.submitted[w]) in s.sending;
    }
    hide Abandoned, Fifo, Places;
  }

  lemma {:induction false} RunInvariant(steps: seq<Step>)
    ensures var s := Run(steps); Fifo(s) && Places(s) && Accounted(s) && Honest(s) && Told(s)
  {
    if steps != [] {
      var s, step := Run(steps[..|steps| - 1]), steps[|steps| - 1];
      RunInvariant(steps[..|steps| - 1]);
      hide Next, Fifo, Places, Accounted, Honest, Told;
      if Enabled(s, step) {
        NextKeepsFifo(s, step);
        NextKeepsPlaces(s, step);
        NextKeepsAccounted(s, step);
        NextKeepsHonest(s, step);
        NextKeepsTold(s, step);
      }
    }
  }

  // ---------- What every interleaving guarantees ----------

  /** The bodies posted are those of the first items enqueued, in order, none skipped or repeated. */
  lemma PostsAreAPrefix(steps: seq<Step>)
    ensures var s := Run(steps);
            |s.posts| <= |s.enqueued| && s.posts == Bodies(s.enqueued[..|s.posts|])
  {
    RunInvariant(steps);
    var s := Run(steps);
    assert s.enqueued[..|Taken(s)|] == Taken(s);
  }

  /** What is posted for an item is its payload without the white space around it, and nothing else. */
  lemma PostsAreTheTrimmedPayloads(steps: seq<Step>, i: nat)
    requires i < |Run(steps).posts|
    ensures var s := Run(steps);
            && i < |s.enqueued| && Text.IsTrimOf(s.posts[i], s.enqueued[i].payload)
            && s.enqueued[i].writer in s.submitted && s.submitted[s.enqueued[i].writer] == s.enqueued[i].payload
  {
    PostsAreAPrefix(steps);
    RunInvariant(steps);
    var s := Run(steps);
    hide Run, Text.IsTrimOf, Text.Trim;
    assert s.enqueued[i] in s.enqueued;
    Text.TrimIs(s.enqueued[i].payload);
  }

  /** An answer, once given, stays the writer's answer. */
  lemma AnswerIsFinal(s: State, step: Step, w: nat)
    requires Places(s) && Accounted(s) && Enabled(s, step) && w in s.answers
    ensures w in Next(s, step).answers && Next(s, step).answers[w] == s.answers[w]
  {
    hide Body, Text.Trim;
  }

  lemma {:induction false} AnswerNeverChanges(steps: seq<Step>, more: seq<Step>, w: nat)
    requires w in Run(steps).answers
    ensures w in Run(steps + more).answers && Run(steps + more).answers[w] == Run(steps).answers[w]
    decreases |more|
  {
    hide Next, Enabled;
    if more == [] {
      assert steps + more == steps;
    } else {
      var front, last := more[..|more| - 1], more[|more| - 1];
      AnswerNeverChanges(steps, front, w);
      assert (steps + more)[..|steps + more| - 1] == steps + front;
      RunInvariant(steps + front);
      if Enabled(Run(steps + front), last) {
        AnswerIsFinal(Run(steps + front), last, w);
      }
    }
  }

  /** A writer that is told a result is told the result of posting its own payload. */
  lemma ResultIsOwn(steps: seq<Step>, w: nat)
    requires var s := Run(steps); w in s.answers && s.answers[w].Result?
    ensures var s := Run(steps);
            w in s.submitted && Completion(Item(w, s.submitted[w]), s.answers[w].r) in s.completed
  {
    RunInvariant(steps);
  }

  /** Once the worker has stopped, every call has an answer; one whose payload was never posted
      has an error: its acknowledgement was dropped if the payload was in the channel, else its send
      failed. */
  lemma StoppedLeavesNobodyWaiting(steps: seq<Step>, w: nat)
    requires var s := Run(steps); s.worker.Stopped? && w in s.submitted
    ensures var s := Run(steps);
            && w in s.answers
            && ((forall c :: c in s.completed ==> c.item.writer != w) ==>
                  s.answers[w] == if Item(w, s.submitted[w]) in s.enqueued then ChannelClosed else SendFailed)
  {
    RunInvariant(steps);
    var s := Run(steps);
    hide Run;
    assert w in s.answers;
    if s.answers[w].Result? {
      assert Completion(Item(w, s.submitted[w]), s.answers[w].r) in s.completed;
    }
  }

  // ---------- Nothing gets stuck ----------

  lemma Snoc(steps: seq<Step>, step: Step)
    ensures var s := Run(steps); Run(steps + [step]) == if Enabled(s, step) then Next(s, step) else s
  {
    assert (steps + [step])[..|steps|] == steps;
  }

  /** A call of a writer is always taken note of; it fails at once iff the worker is gone. */
  lemma EveryCallIsTaken(steps: seq<Step>, w: nat, payload: string)
    requires w !in Run(steps).submitted
    ensures var before, s := Run(steps), Run(steps + [Submit(w, payload)]);
            && w in s.submitted && s.submitted[w] == payload
            && if before.worker.Stopped? then w in s.answers && s.answers[w] == SendFailed else w !in s.answers
  {
    RunInvariant(steps);
    Snoc(steps, Submit(w, payload));
  }

  /** What draining the channel does: the worker is idle, the channel empty, and everyone whose item was in
      it has the result `r`. */
  ghost predicate Drained(s: State, s': State, r: PostResult) {
    && s'.worker.Idle? && s'.queue == [] && s'.sending == s.sending && s'.submitted == s.submitted
    && forall item :: item in s.queue || item in InHand(s.worker) ==>
         item.writer in s'.answers && s'.answers[item.writer] == Result(r)
  }

  /** The worker takes the next item, or finishes the one in hand. */
  lemma WorkerStep(s: State, r: PostResult)
    requires Places(s) && !s.worker.Stopped? && (s.worker.Busy? || s.queue != [])
    ensures var step := if s.worker.Busy? then Finish(r) else Receive;
            && Enabled(s, step)
            && var s' := Next(s, step);
               && !s'.worker.Stopped? && s'.sending == s.sending && s'.submitted == s.submitted
               && (s.worker.Busy? ==>
                     && s'.worker.Idle? && s'.queue == s.queue
                     && s.worker.item.writer in s'.answers && s'.answers[s.worker.item.writer] == Result(r))
               && (s.worker.Idle? ==> s'.worker == Busy(s.queue[0]) && s'.queue == s.queue[1..])
  {
    hide Body, Text.Trim;
  }

  lemma {:induction false} Drain(steps: seq<Step>, r: PostResult) returns (more: seq<Step>)
    requires !Run(steps).worker.Stopped?
    ensures Drained(Run(steps), Run(steps + more), r)
    decreases 2 * |Run(steps).queue| + |InHand(Run(steps).worker)|
  {
    var s := Run(steps);
    RunInvariant(steps);
    hide Run, Next, Fifo, Accounted, Honest, Told;
    if s.worker.Idle? && s.queue == [] {
      more := [];
      assert steps + [] == steps;
    } else {
      WorkerStep(s, r);
      var step := if s.worker.Busy? then Finish(r) else Receive;
      hide Places, Enabled;
      Snoc(steps, step);
      var s1 := Run(steps + [step]);
      var rest := Drain(steps + [step], r);
      more := [step] + rest;
      assert steps + more == (steps + [step]) + rest;
      if s.worker.Busy? {
        AnswerNeverChanges(steps + [step], rest, s.worker.item.writer);
      } else {
        assert forall item :: item in s.queue ==> item in s1.queue || item in InHand(s1.worker);
      }
    }
  }

  /** From every reachable state, for every call without an answer and whatever the POST gives: the run can
      go on so that the call is told that result. No interleaving leaves a writer stuck. */
  lemma EveryWriterCanBeServed(steps: seq<Step>, w: nat, r: PostResult) returns (more: seq<Step>)
    requires w in Run(steps).submitted && w !in Run(steps).answers
    ensures var s := Run(steps + more); w in s.answers && s.answers[w] == Result(r)
  {
    hide *;
    RunInvariant(steps);
    var item := Item(w, Run(steps).submitted[w]);
    WaitsSomewhere(Run(steps), w);
    more := Drain(steps, r);
    DrainedMeans(Run(steps), Run(steps + more), r, item);
    if item in Run(steps).sending {
      var late := ServeWaiting(steps + more, w, r);
      assert (steps + more) + late == steps + (more + late);
      more := more + late;
    }
  }

  lemma WaitsSomewhere(s: State, w: nat)
    requires Places(s) && Accounted(s) && w in s.submitted && w !in s.answers
    ensures var item := Item(w, s.submitted[w]);
            !s.worker.Stopped? && (item in s.sending || item in s.queue || item in InHand(s.worker))
  {
  }

  lemma DrainedMeans(s: State, s': State, r: PostResult, item: Item)
    requires Drained(s, s', r)
    ensures s'.worker.Idle? && s'.queue == [] && s'.sending == s.sending && s'.submitted == s.submitted
    ensures item in s.queue || item in InHand(s.worker) ==>
              item.writer in s'.answers && s'.answers[item.writer] == Result(r)
  {
  }

  /** With an idle worker and an empty channel a waiting send is taken, posted and acknowledged. */
  lemma ServeWaiting(steps: seq<Step>, w: nat, r: PostResult) returns (more: seq<Step>)
    requires var s := Run(steps);
             s.worker.Idle? && s.queue == [] && w in s.submitted && Item(w, s.submitted[w]) in s.sending
    ensures var s := Run(steps + more); w in s.answers && s.answers[w] == Result(r)
  {
    hide Run, Body;
    more := [Enqueue(w), Receive, Finish(r)];
    Snoc(steps, Enqueue(w));
    Snoc(steps + [Enqueue(w)], Receive);
    Snoc(steps + [Enqueue(w)] + [Receive], Finish(r));
    assert steps + more == steps + [Enqueue(w)] + [Receive] + [Finish(r)];
  }

  /** Cancelling always ends the worker, after the POST in hand at the latest, and then everyone has an
      answer. */
  lemma CancellingEndsTheWorker(steps: seq<Step>, r: PostResult) returns (more: seq<Step>)
    ensures |more| <= 3 && var s := Run(steps + more);
            && s.worker.Stopped? && forall w :: w in s.submitted ==> w in s.answers
  {
    hide Run;
    more := [Finish(r), Cancel, Stop];
    Snoc(steps, Finish(r));
    Snoc(steps + [Finish(r)], Cancel);
    Snoc(steps + [Finish(r)] + [Cancel], Stop);
    assert steps + more == steps + [Finish(r)] + [Cancel] + [Stop];
    var s := Run(steps + more);
    forall w | w in s.submitted ensures w in s.answers {
      StoppedLeavesNobodyWaiting(steps + more, w);
    }
  }

  lemma CancelledStays(s: State, step: Step)
    requires Enabled(s, step)
    ensures s.cancelled ==> Next(s, step).cancelled
  {
  }

  /** As long as nobody cancels, a call made before the worker stopped never fails: what it is told is the
      result of its POST. */
  lemma {:induction false} WithoutCancellingNobodyFails(steps: seq<Step>, n: nat, w: nat)
    requires n <= |steps| && !Run(steps).cancelled
    requires w in Run(steps[..n]).submitted && !Run(steps[..n]).worker.Stopped?
    ensures w in Run(steps).submitted
    ensures w in Run(steps).answers ==> Run(steps).answers[w].Result?
    decreases |steps| - n
  {
    if n == |steps| {
      assert steps[..n] == steps;
      RunningMeansResults(steps);
    } else {
      var front, last := steps[..|steps| - 1], steps[|steps| - 1];
      assert steps == front + [last] && front[..n] == steps[..n];
      Snoc(front, last);
      hide Run;
      if Enabled(Run(front), last) {
        CancelledStays(Run(front), last);
        WithoutCancellingNobodyFails(front, n, w);
        NobodyFailsNext(Run(front), last, w);
      } else {
        WithoutCancellingNobodyFails(front, n, w);
      }
    }
  }

  lemma NobodyFailsNext(s: State, step: Step, w: nat)
    requires Enabled(s, step) && !s.cancelled && w in s.submitted && (w in s.answers ==> s.answers[w].Result?)
    ensures var s' := Next(s, step); w in s'.submitted && (w in s'.answers ==> s'.answers[w].Result?)
  {
    hide Body;
  }

  /** Errors are told only once the worker has stopped. */
  lemma {:induction false} RunningMeansResults(steps: seq<Step>)
    requires !Run(steps).worker.Stopped?
    ensures forall w :: w in Run(steps).answers ==> Run(steps).answers[w].Result?
  {
    if steps != [] {
      var front, last := steps[..|steps| - 1], steps[|steps| - 1];
      assert steps == front + [last];
      Snoc(front, last);
      hide Run;
      if Enabled(Run(front), last) {
        OnlyStoppingFails(Run(front), last);
      }
      hide Next, Enabled;
      RunningMeansResults(front);
    }
  }

  lemma OnlyStoppingFails(s: State, step: Step)
    requires Enabled(s, step) && !Next(s, step).worker.Stopped?
    ensures !s.worker.Stopped?
    ensures forall w :: w in Next(s, step).answers ==> w in s.answers || Next(s, step).answers[w].Result?
    ensures forall w :: w in Next(s, step).answers && w in s.answers && s.answers[w].Result? ==>
                          Next(s, step).answers[w].Result?
  {
    hide Body, Abandoned;
  }
}
