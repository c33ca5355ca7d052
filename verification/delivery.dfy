/** One delivery attempt: recipients to inboxes, and a signed POST to each of them. */
module Delivery {
  import opened Texts

  /** `undefined` when an actor names no inbox at all. */
  type Inbox = Option<Text>

  /** How fetching an actor ends. */
  datatype Fetched = Actor(sharedInbox: Option<Text>, inbox: Option<Text>) | FetchFailed(message: Text)

  /** How a POST ends. */
  datatype Posted = Response(ok: bool, status: nat) | PostFailed(message: Text)

  /** What the network answers during one attempt: to the i-th fetch, of this actor, and to a POST of this
      activity to an inbox. */
  datatype World = World(fetch: (nat, Text) -> Fetched, post: (Text, Inbox) -> Posted)

  datatype ResolveError = ResolveError(id: Text, message: Text)

  datatype DeliveryResult = DeliveryResult(inbox: Inbox, ok: bool, status: Option<nat>, error: Option<Text>)

  const UNKNOWN_ERROR: Text := Ascii("unknown delivery error")

  /** The shared inbox if there is one. */
  function Target(actor: Fetched): Inbox
    requires actor.Actor?
  {
    if actor.sharedInbox.Some? then actor.sharedInbox else actor.inbox
  }

  // ---------------------------------------------------------------- resolveInboxes

  /** The distinct targets of the recipients, in order of first appearance. */
  function InboxesOf(recipients: seq<Text>, fetch: (nat, Text) -> Fetched): seq<Inbox> {
    if recipients == [] then []
    else
      var n := |recipients| - 1;
      var earlier, answer := InboxesOf(recipients[..n], fetch), fetch(n, recipients[n]);
      if answer.Actor? && Target(answer) !in earlier then earlier + [Target(answer)] else earlier
  }

  function ErrorsOf(recipients: seq<Text>, fetch: (nat, Text) -> Fetched): seq<ResolveError> {
    if recipients == [] then []
    else
      var n := |recipients| - 1;
      var answer := fetch(n, recipients[n]);
      ErrorsOf(recipients[..n], fetch)
      + if answer.FetchFailed? then [ResolveError(recipients[n], answer.message)] else []
  }

  method ResolveInboxes(recipients: seq<Text>, fetch: (nat, Text) -> Fetched)
    returns (inboxes: seq<Inbox>, errors: seq<ResolveError>)
    ensures inboxes == InboxesOf(recipients, fetch) && errors == ErrorsOf(recipients, fetch)
  {
    inboxes, errors := [], [];
    for i := 0 to |recipients|
      invariant inboxes == InboxesOf(recipients[..i], fetch) && errors == ErrorsOf(recipients[..i], fetch)
    {
      assert recipients[..i + 1][..i] == recipients[..i];
      var actor := fetch(i, recipients[i]);
      if actor.Actor? {
        if Target(actor) !in inboxes {
          inboxes := inboxes + [Target(actor)];
        }
      } else {
        errors := errors + [ResolveError(recipients[i], actor.message)];
      }
    }
    assert recipients[..|recipients|] == recipients;
  }

  /** The i-th recipient resolves to this inbox: its shared inbox, or its own if it names none. */
  ghost predicate ResolvesTo(recipients: seq<Text>, fetch: (nat, Text) -> Fetched, i: nat, x: Inbox) {
    i < |recipients| &&
    var actor := fetch(i, recipients[i]);
    actor.Actor? && x == if actor.sharedInbox.Some? then actor.sharedInbox else actor.inbox
  }

  ghost predicate Unresolved(recipients: seq<Text>, fetch: (nat, Text) -> Fetched, i: nat) {
    i < |recipients| && fetch(i, recipients[i]).FetchFailed?
  }

  ghost predicate Ascends(at: seq<nat>) {
    forall i, j :: 0 <= i < j < |at| ==> at[i] < at[j]
  }

  lemma ResolvesSnoc(front: seq<Text>, last: Text, fetch: (nat, Text) -> Fetched, i: nat, x: Inbox)
    requires i < |front|
    ensures ResolvesTo(front + [last], fetch, i, x) <==> ResolvesTo(front, fetch, i, x)
    ensures Unresolved(front + [last], fetch, i) <==> Unresolved(front, fetch, i)
  {
    assert (front + [last])[i] == front[i];
  }

  /** Every resolved recipient's inbox is there, once, where it first appears, and there is no other:
      `firsts` gives for each inbox the first recipient that resolves to it. */
  lemma {:induction false} InboxesMeaning(recipients: seq<Text>, fetch: (nat, Text) -> Fetched)
    returns (firsts: seq<nat>)
    ensures var inboxes := InboxesOf(recipients, fetch);
            && |firsts| == |inboxes| && Ascends(firsts)
            && (forall j :: 0 <= j < |firsts| ==> ResolvesTo(recipients, fetch, firsts[j], inboxes[j]))
            && (forall j, i :: 0 <= j < |firsts| && 0 <= i < firsts[j] ==>
                  !ResolvesTo(recipients, fetch, i, inboxes[j]))
            && (forall i: nat, x :: ResolvesTo(recipients, fetch, i, x) ==> x in inboxes)
  {
    firsts := [];
    if recipients != [] {
      var n := |recipients| - 1;
      var front, last := recipients[..n], recipients[n];
      assert recipients == front + [last];
      firsts := InboxesMeaning(front, fetch);
      forall i: nat, x | i < n ensures ResolvesTo(recipients, fetch, i, x) <==> ResolvesTo(front, fetch, i, x) {
        ResolvesSnoc(front, last, fetch, i, x);
      }
      if |InboxesOf(recipients, fetch)| > |firsts| {
        firsts := firsts + [n];
      }
    }
  }

  /** And each recipient that did not resolve gives one error, in order: `at` says which. */
  lemma {:induction false} ErrorsMeaning(recipients: seq<Text>, fetch: (nat, Text) -> Fetched) returns (at: seq<nat>)
    ensures var errors := ErrorsOf(recipients, fetch);
            && |at| == |errors| && Ascends(at)
            && (forall j :: 0 <= j < |at| ==>
                  && Unresolved(recipients, fetch, at[j])
                  && errors[j] == ResolveError(recipients[at[j]], fetch(at[j], recipients[at[j]]).message))
            && (forall i: nat :: Unresolved(recipients, fetch, i) ==> i in at)
  {
    at := [];
    if recipients != [] {
      var n := |recipients| - 1;
      var front, last := recipients[..n], recipients[n];
      assert recipients == front + [last];
      at := ErrorsMeaning(front, fetch);
      forall i: nat | i < n ensures Unresolved(recipients, fetch, i) <==> Unresolved(front, fetch, i) {
        ResolvesSnoc(front, last, fetch, i, None);
      }
      if Unresolved(recipients, fetch, n) {
        at := at + [n];
      }
    }
  }

  // ---------------------------------------------------------------- deliverActivity

  function ResultOf(inbox: Inbox, answer: Posted): DeliveryResult {
    match answer
    case Response(ok, status) => DeliveryResult(inbox, ok, Some(status), None)
    case PostFailed(message) => DeliveryResult(inbox, false, None, Some(message))
  }

  function ResultsOf(activity: Text, inboxes: seq<Inbox>, post: (Text, Inbox) -> Posted): seq<DeliveryResult> {
    seq(|inboxes|, i requires 0 <= i < |inboxes| => ResultOf(inboxes[i], post(activity, inboxes[i])))
  }

  /** Every inbox is tried, whatever happened at the others: a response is reported with its status, an
      exception with its message. */
  method DeliverActivity(activity: Text, inboxes: seq<Inbox>, post: (Text, Inbox) -> Posted)
    returns (results: seq<DeliveryResult>)
    ensures results == ResultsOf(activity, inboxes, post)
    ensures |results| == |inboxes|
    ensures forall i :: 0 <= i < |inboxes| ==>
              match post(activity, inboxes[i])
              case Response(ok, status) => results[i] == DeliveryResult(inboxes[i], ok, Some(status), None)
              case PostFailed(message) => results[i] == DeliveryResult(inboxes[i], false, None, Some(message))
  {
    results := [];
    for i := 0 to |inboxes|
      invariant results == ResultsOf(activity, inboxes[..i], post)
    {
      results := results + [ResultOf(inboxes[i], post(activity, inboxes[i]))];
    }
    assert inboxes[..|inboxes|] == inboxes;
  }

  // ---------------------------------------------------------------- the attempt as a whole

  /** `results.filter((r) => !r.ok)`. */
  function FailedDeliveries(results: seq<DeliveryResult>): seq<DeliveryResult> {
    if results == [] then []
    else (if results[0].ok then [] else [results[0]]) + FailedDeliveries(results[1..])
  }

  /** The error to remember, or nothing if the attempt succeeded. */
  function FailureOf(results: seq<DeliveryResult>, errors: seq<ResolveError>): Option<Text> {
    var failed := FailedDeliveries(results);
    if failed == [] && errors == [] then None
    else if failed != [] && failed[0].error.Some? then failed[0].error
    else if errors != [] then Some(errors[0].message)
    else Some(UNKNOWN_ERROR)
  }

  function Attempt(activity: Text, recipients: seq<Text>, world: World): Option<Text> {
    FailureOf(ResultsOf(activity, InboxesOf(recipients, world.fetch), world.post), ErrorsOf(recipients, world.fetch))
  }

  ghost predicate Accepts(world: World, activity: Text, x: Inbox) {
    var answer := world.post(activity, x);
    answer.Response? && answer.ok
  }

  /** The i-th recipient resolves, and its inbox accepts the activity. */
  ghost predicate Served(world: World, activity: Text, recipients: seq<Text>, i: nat) {
    exists x :: ResolvesTo(recipients, world.fetch, i, x) && Accepts(world, activity, x)
  }

  /** The first result that is not a success. */
  ghost predicate FirstFailed(results: seq<DeliveryResult>, k: nat) {
    k < |results| && !results[k].ok && forall i :: 0 <= i < k ==> results[i].ok
  }

  lemma {:induction false} FailedIs(results: seq<DeliveryResult>)
    ensures FailedDeliveries(results) == [] <==> forall i :: 0 <= i < |results| ==> results[i].ok
    ensures forall k: nat :: FirstFailed(results, k) ==>
              FailedDeliveries(results) != [] && FailedDeliveries(results)[0] == results[k]
  {
    if results != [] {
      FailedIs(results[1..]);
      assert forall i :: 0 < i < |results| ==> results[i] == results[1..][i - 1];
      forall k: nat | FirstFailed(results, k)
        ensures FailedDeliveries(results) != [] && FailedDeliveries(results)[0] == results[k]
      {
        if k > 0 {
          assert FirstFailed(results[1..], k - 1);
        }
      }
    }
  }

  /** What `InboxesMeaning` and `ErrorsMeaning` say of an attempt. */
  ghost predicate Resolved(recipients: seq<Text>, fetch: (nat, Text) -> Fetched, inboxes: seq<Inbox>, firsts: seq<nat>,
        at: seq<nat>)
  {
    && |firsts| == |inboxes|
    && (forall j :: 0 <= j < |firsts| ==> ResolvesTo(recipients, fetch, firsts[j], inboxes[j]))
    && (forall i: nat, x :: ResolvesTo(recipients, fetch, i, x) ==> x in inboxes)
    && (forall j :: 0 <= j < |at| ==> Unresolved(recipients, fetch, at[j]))
    && (forall i: nat :: Unresolved(recipients, fetch, i) ==> i in at)
  }

  lemma ResolvedNone(activity: Text, recipients: seq<Text>, world: World) returns (firsts: seq<nat>, at: seq<nat>)
    ensures var inboxes := InboxesOf(recipients, world.fetch);
            && Resolved(recipients, world.fetch, inboxes, firsts, at)
            && (Attempt(activity, recipients, world).None?
                <==> at == [] && forall k :: 0 <= k < |inboxes| ==> Accepts(world, activity, inboxes[k]))
  {
    var inboxes := InboxesOf(recipients, world.fetch);
    var results := ResultsOf(activity, inboxes, world.post);
    firsts := InboxesMeaning(recipients, world.fetch);
    at := ErrorsMeaning(recipients, world.fetch);
    FailedIs(results);
    assert forall k :: 0 <= k < |inboxes| ==> (results[k].ok <==> Accepts(world, activity, inboxes[k]));
  }

  /** An attempt succeeds exactly when every recipient resolves and every inbox accepts. */
  lemma AttemptSucceeds(activity: Text, recipients: seq<Text>, world: World)
    ensures Attempt(activity, recipients, world).None?
       <==> forall i: nat :: i < |recipients| ==> Served(world, activity, recipients, i)
  {
    var firsts, at := ResolvedNone(activity, recipients, world);
    var inboxes := InboxesOf(recipients, world.fetch);
    if forall i: nat :: i < |recipients| ==> Served(world, activity, recipients, i) {
      AllServed(activity, recipients, world, inboxes, firsts, at);
    }
    if Attempt(activity, recipients, world).None? {
      forall i: nat | i < |recipients| ensures Served(world, activity, recipients, i) {
        IsServed(activity, recipients, world, inboxes, firsts, at, i);
      }
    }
  }

  lemma IsServed(activity: Text, recipients: seq<Text>, world: World, inboxes: seq<Inbox>, firsts: seq<nat>,
        at: seq<nat>, i: nat)
    requires Resolved(recipients, world.fetch, inboxes, firsts, at) && at == [] && i < |recipients|
    requires forall k :: 0 <= k < |inboxes| ==> Accepts(world, activity, inboxes[k])
    ensures Served(world, activity, recipients, i)
  {
    assert !Unresolved(recipients, world.fetch, i);
    var actor := world.fetch(i, recipients[i]);
    var x := if actor.sharedInbox.Some? then actor.sharedInbox else actor.inbox;
    assert ResolvesTo(recipients, world.fetch, i, x);
    var k :| 0 <= k < |inboxes| && inboxes[k] == x;
  }

  lemma AllServed(activity: Text, recipients: seq<Text>, world: World, inboxes: seq<Inbox>, firsts: seq<nat>,
        at: seq<nat>)
    requires forall i: nat :: i < |recipients| ==> Served(world, activity, recipients, i)
    requires Resolved(recipients, world.fetch, inboxes, firsts, at)
    ensures at == [] && forall k :: 0 <= k < |inboxes| ==> Accepts(world, activity, inboxes[k])
  {
    assert forall i: nat :: Served(world, activity, recipients, i) ==> !Unresolved(recipients, world.fetch, i);
    assert at != [] ==> Unresolved(recipients, world.fetch, at[0]);
    forall k | 0 <= k < |inboxes| ensures Accepts(world, activity, inboxes[k]) {
      assert ResolvesTo(recipients, world.fetch, firsts[k], inboxes[k]);
      assert Served(world, activity, recipients, firsts[k]);
    }
  }

  /** The first inbox that does not accept. */
  ghost predicate FirstRefusal(world: World, activity: Text, inboxes: seq<Inbox>, k: nat) {
    k < |inboxes| && !Accepts(world, activity, inboxes[k])
    && forall i :: 0 <= i < k ==> Accepts(world, activity, inboxes[i])
  }

  ghost predicate FirstUnresolved(recipients: seq<Text>, fetch: (nat, Text) -> Fetched, i: nat) {
    Unresolved(recipients, fetch, i) && forall j: nat :: j < i ==> !Unresolved(recipients, fetch, j)
  }

  lemma RefusalIsFailure(activity: Text, inboxes: seq<Inbox>, world: World, k: nat)
    ensures FirstRefusal(world, activity, inboxes, k) <==> FirstFailed(ResultsOf(activity, inboxes, world.post), k)
  {
    var results := ResultsOf(activity, inboxes, world.post);
    assert forall i :: 0 <= i < |inboxes| ==> (results[i].ok <==> Accepts(world, activity, inboxes[i]));
  }

  /** What a failed attempt remembers: what the first refusing inbox threw, if it threw. */
  lemma RefusalRemembered(activity: Text, recipients: seq<Text>, world: World, k: nat)
    requires var inboxes := InboxesOf(recipients, world.fetch);
             FirstRefusal(world, activity, inboxes, k) && world.post(activity, inboxes[k]).PostFailed?
    ensures Attempt(activity, recipients, world)
         == Some(world.post(activity, InboxesOf(recipients, world.fetch)[k]).message)
  {
    var inboxes := InboxesOf(recipients, world.fetch);
    RefusalIsFailure(activity, inboxes, world, k);
    FailedIs(ResultsOf(activity, inboxes, world.post));
  }

  /** No inbox refused by throwing, or another one refused before it by answering. */
  ghost predicate NothingThrown(world: World, activity: Text, inboxes: seq<Inbox>) {
    forall k: nat :: FirstRefusal(world, activity, inboxes, k) ==> world.post(activity, inboxes[k]).Response?
  }

  lemma NothingToRemember(activity: Text, inboxes: seq<Inbox>, world: World)
    requires NothingThrown(world, activity, inboxes)
    ensures var failed := FailedDeliveries(ResultsOf(activity, inboxes, world.post));
            failed != [] ==> failed[0].error.None?
  {
    var results := ResultsOf(activity, inboxes, world.post);
    if FailedDeliveries(results) != [] {
      var k := LeastFailed(results);
      RefusalIsFailure(activity, inboxes, world, k);
      FailedIs(results);
    }
  }

  /** Otherwise why the first unresolved recipient was; and if there is none, that the error is not known. */
  lemma AttemptRemembers(activity: Text, recipients: seq<Text>, world: World)
    requires NothingThrown(world, activity, InboxesOf(recipients, world.fetch))
    ensures forall i: nat :: FirstUnresolved(recipients, world.fetch, i) ==>
              Attempt(activity, recipients, world) == Some(world.fetch(i, recipients[i]).message)
    ensures (forall i: nat :: !Unresolved(recipients, world.fetch, i)) && Attempt(activity, recipients, world).Some? ==>
              Attempt(activity, recipients, world) == Some(Ascii("unknown delivery error"))
  {
    var errors := ErrorsOf(recipients, world.fetch);
    var at := ErrorsMeaning(recipients, world.fetch);
    NothingToRemember(activity, InboxesOf(recipients, world.fetch), world);
    forall i: nat | FirstUnresolved(recipients, world.fetch, i)
      ensures errors != [] && errors[0].message == world.fetch(i, recipients[i]).message
    {
      assert i in at;
      assert Unresolved(recipients, world.fetch, at[0]) && at[0] == i;
    }
    assert at != [] ==> Unresolved(recipients, world.fetch, at[0]);
  }

  lemma {:induction false} LeastFailed(results: seq<DeliveryResult>) returns (k: nat)
    requires FailedDeliveries(results) != []
    ensures FirstFailed(results, k)
  {
    k := 0;
    if results[0].ok {
      k := LeastFailed(results[1..]);
      k := k + 1;
      assert results[k] == results[1..][k - 1];
      assert forall i :: 0 < i < k ==> results[i] == results[1..][i - 1];
    }
  }
}
