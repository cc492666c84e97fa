/** Assembling the reply to a batch: filter the requests, unzip their ids from their registration
    tasks, await the futures that exist, zip the results back with the ids. */
module BatchReplies {
  import opened Sequences
  import opened PendingRequests

  /** A message of a batch; notifications and responses are no requests. */
  datatype Message = Message(isRequest: bool, id: Option<RequestId>)

  /** One entry of the assembled reply. */
  datatype Reply = Answer(response: Response) | Failure(id: Option<RequestId>, cause: Outcome)

  // ---------- The pipeline ----------

  function Requests(messages: seq<Message>): seq<Message> {
    if messages == [] then []
    else (if messages[0].isRequest then [messages[0]] else []) + Requests(messages[1..])
  }

  function Ids(requests: seq<Message>): seq<Option<RequestId>> {
    seq(|requests|, i requires 0 <= i < |requests| => requests[i].id)
  }

  /** `filter_map`: the waiters of the requests that could be registered. */
  function Registered(tasks: seq<Option<nat>>): seq<nat> {
    if tasks == [] then [] else (if tasks[0].Some? then [tasks[0].value] else []) + Registered(tasks[1..])
  }

  function Min(a: nat, b: nat): nat {
    if a < b then a else b
  }

  function Zip<A, B>(a: seq<A>, b: seq<B>): seq<(A, B)> {
    seq(Min(|a|, |b|), i requires 0 <= i < Min(|a|, |b|) => (a[i], b[i]))
  }

  function ToReply(outcome: Outcome, id: Option<RequestId>): Reply {
    match outcome
    case Got(response) => Answer(response)
    case _ => Failure(id, outcome)
  }

  /** The entries of the reply, from the futures of the batch's requests and what became of each waiter. */
  function Assemble(messages: seq<Message>, tasks: seq<Option<nat>>, outcomes: seq<Outcome>): seq<Reply>
    requires forall k :: 0 <= k < |tasks| && tasks[k].Some? ==> tasks[k].value < |outcomes|
  {
    RegisteredIn(tasks, |outcomes|);
    var awaited := Registered(tasks);
    var results := seq(|awaited|, i requires 0 <= i < |awaited| => outcomes[awaited[i]]);
    var zipped := Zip(results, Ids(Requests(messages)));
    seq(|zipped|, i requires 0 <= i < |zipped| => ToReply(zipped[i].0, zipped[i].1))
  }

  lemma {:induction false} RegisteredIn(tasks: seq<Option<nat>>, n: nat)
    requires forall k :: 0 <= k < |tasks| && tasks[k].Some? ==> tasks[k].value < n
    ensures forall k :: 0 <= k < |Registered(tasks)| ==> Registered(tasks)[k] < n
  {
    if tasks != [] {
      RegisteredIn(tasks[1..], n);
    }
  }

  /** `store_pending_request_for_message`: a task exists for each request, and registers a waiter
      exactly when the request carries an id. */
  ghost predicate TasksOf(requests: seq<Message>, tasks: seq<Option<nat>>) {
    |tasks| == |requests| && forall i :: 0 <= i < |tasks| ==> (tasks[i].Some? <==> requests[i].id.Some?)
  }

  lemma {:induction false} RegisteredLength(tasks: seq<Option<nat>>)
    ensures |Registered(tasks)| <= |tasks|
    ensures |Registered(tasks)| == |tasks| <==> forall i :: 0 <= i < |tasks| ==> tasks[i].Some?
    ensures |Registered(tasks)| == |tasks| ==> forall i :: 0 <= i < |tasks| ==> tasks[i] == Some(Registered(tasks)[i])
  {
    if tasks != [] {
      RegisteredLength(tasks[1..]);
      assert forall i :: 0 < i < |tasks| ==> tasks[i] == tasks[1..][i - 1];
    }
  }

  /** The reply has one entry per request, entry `i` built from request `i`'s own waiter and id,
      iff every request of the batch carries an id. */
  lemma EntriesMatchIffAllHaveIds(messages: seq<Message>, tasks: seq<Option<nat>>, outcomes: seq<Outcome>)
    requires TasksOf(Requests(messages), tasks)
    requires forall k :: 0 <= k < |tasks| && tasks[k].Some? ==> tasks[k].value < |outcomes|
    ensures var requests, replies := Requests(messages), Assemble(messages, tasks, outcomes);
            && (|replies| == |requests| <==> forall i :: 0 <= i < |requests| ==> requests[i].id.Some?)
            && (|replies| == |requests| ==>
                  forall i :: 0 <= i < |requests| ==>
                    tasks[i].Some? && replies[i] == ToReply(outcomes[tasks[i].value], requests[i].id))
  {
    RegisteredLength(tasks);
    RegisteredIn(tasks, |outcomes|);
  }

  /** The requests of a batch, in order, and nothing else. */
  lemma {:induction false} RequestsAreTheRequests(messages: seq<Message>, m: Message)
    ensures m in Requests(messages) <==> m in messages && m.isRequest
    ensures multiset(Requests(messages))[m] == if m.isRequest then multiset(messages)[m] else 0
  {
    if messages != [] {
      RequestsAreTheRequests(messages[1..], m);
      assert messages == [messages[0]] + messages[1..];
    }
  }

  /** Request `i` of the batch registered at position `at[i]` of a run. */
  ghost predicate RegisteredAt(requests: seq<Message>, steps: seq<Step>, at: seq<nat>) {
    && |at| == |requests|
    && forall i :: 0 <= i < |at| ==>
         at[i] < |steps| && requests[i].id.Some? && steps[at[i]] == Register(requests[i].id.value)
  }

  function WaitersAt(steps: seq<Step>, at: seq<nat>): seq<Option<nat>>
    requires forall i :: 0 <= i < |at| ==> at[i] <= |steps|
  {
    seq(|at|, i requires 0 <= i < |at| => Some(Registrations(steps[..at[i]])))
  }

  /** In any run, whatever else happens to the table: entry `i` of the reply is a response that was
      delivered under request `i`'s id after it registered, or a failure that carries that id. */
  lemma BatchGetsItsOwnResponses(messages: seq<Message>, steps: seq<Step>, at: seq<nat>)
    requires RegisteredAt(Requests(messages), steps, at)
    ensures forall k :: 0 <= k < |at| ==> Registrations(steps[..at[k]]) < |Run(steps).outcomes|
    ensures var requests := Requests(messages);
            var replies := Assemble(messages, WaitersAt(steps, at), Run(steps).outcomes);
            && |replies| == |requests|
            && forall i :: 0 <= i < |replies| ==>
                 (match replies[i]
                  case Answer(r) => Deliver(requests[i].id.value, r) in steps[at[i] + 1..]
                  case Failure(id, _) => id == requests[i].id)
  {
    hide Run, Registrations, Requests, Assemble;
    var requests := Requests(messages);
    forall k | 0 <= k < |at|
      ensures Registrations(steps[..at[k]]) < |Run(steps).outcomes|
      ensures var o := Run(steps).outcomes[Registrations(steps[..at[k]])];
              o.Got? ==> Deliver(requests[k].id.value, o.response) in steps[at[k] + 1..]
    {
      var id := requests[k].id.value;
      assert steps == steps[..at[k]] + [Register(id)] + steps[at[k] + 1..];
      NeverAnothersResponse(steps[..at[k]], id, steps[at[k] + 1..]);
    }
    EntriesMatchIffAllHaveIds(messages, WaitersAt(steps, at), Run(steps).outcomes);
  }

  /** Entry `i` hands on the response its waiter got, as it is; if the waiter got none, it is a failure
      with the request's id and what happened instead. */
  lemma EntryIsFate(messages: seq<Message>, steps: seq<Step>, at: seq<nat>, i: nat)
    requires RegisteredAt(Requests(messages), steps, at) && i < |at|
    ensures forall k :: 0 <= k < |at| ==> Registrations(steps[..at[k]]) < |Run(steps).outcomes|
    ensures var request := Requests(messages)[i];
            var replies := Assemble(messages, WaitersAt(steps, at), Run(steps).outcomes);
            var fate := Fate(request.id.value, Registrations(steps[..at[i]]), steps[at[i] + 1..]);
            && i < |replies|
            && Reports(replies[i], fate, request.id)
  {
    hide Run, Registrations, Requests, Assemble, Fate, ToReply;
    BatchGetsItsOwnResponses(messages, steps, at);
    EntriesMatchIffAllHaveIds(messages, WaitersAt(steps, at), Run(steps).outcomes);
    var request := Requests(messages)[i];
    WaiterHasItsFate(steps, at[i], request.id.value);
    ReplyReports(Run(steps).outcomes[Registrations(steps[..at[i]])], request.id);
  }

  /** The reply that a request with this id and outcome is owed. */
  predicate Reports(reply: Reply, outcome: Outcome, id: Option<RequestId>) {
    match reply
    case Answer(response) => outcome == Got(response)
    case Failure(failed, cause) => !outcome.Got? && failed == id && cause == outcome
  }

  lemma ReplyReports(outcome: Outcome, id: Option<RequestId>)
    ensures Reports(ToReply(outcome, id), outcome, id)
  {
  }

  lemma WaiterHasItsFate(steps: seq<Step>, n: nat, id: RequestId)
    requires n < |steps| && steps[n] == Register(id)
    ensures var w := Registrations(steps[..n]);
            w < |Run(steps).outcomes| && Run(steps).outcomes[w] == Fate(id, w, steps[n + 1..])
  {
    hide Run, Registrations, Fate;
    assert steps == steps[..n] + [Register(id)] + steps[n + 1..];
    OutcomeIsFate(steps[..n], id, steps[n + 1..]);
  }

  /** A request that nothing disturbs is answered iff a response is delivered under its id after it
      registered, and then with the first such response. */
  lemma RequestIsAnsweredIff(messages: seq<Message>, steps: seq<Step>, at: seq<nat>, i: nat, response: Response)
    requires RegisteredAt(Requests(messages), steps, at) && i < |at|
    requires Undisturbed(Requests(messages)[i].id.value, Registrations(steps[..at[i]]), steps[at[i] + 1..])
    ensures forall k :: 0 <= k < |at| ==> Registrations(steps[..at[k]]) < |Run(steps).outcomes|
    ensures var id, later := Requests(messages)[i].id.value, steps[at[i] + 1..];
            var replies := Assemble(messages, WaitersAt(steps, at), Run(steps).outcomes);
            && i < |replies|
            && (replies[i].Answer? <==> Delivers(later, id))
            && (replies[i] == Answer(response) <==> FirstDelivery(later, id, response))
  {
    hide Run, Registrations, Requests, Assemble, Fate, Undisturbed, Delivers, FirstDelivery;
    EntryIsFate(messages, steps, at, i);
    var id, w, later := Requests(messages)[i].id.value, Registrations(steps[..at[i]]), steps[at[i] + 1..];
    AnsweredWithFirst(id, w, later, response);
    AnsweredIffDeliveredAfter(id, w, later);
  }
}
