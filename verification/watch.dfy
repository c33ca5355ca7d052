/** `watch`: re-read on every change event, and drop whatever a later change has superseded. */
module WatchModel {
  import opened Texts

  datatype Delivery<V> = Delivery(generation: nat, value: V)

  /** The closure variables of one `watch` call, and every callback made so far. */
  datatype Watch<V> = Watch(generation: nat, disposed: bool, delivered: seq<Delivery<V>>)

  function Reread<V>(w: Watch<V>): Watch<V> {
    w.(generation := w.generation + 1)
  }

  function Resolve<V>(w: Watch<V>, myGeneration: nat, value: V): Watch<V> {
    if w.disposed || myGeneration != w.generation then w
    else w.(delivered := w.delivered + [Delivery(myGeneration, value)])
  }

  class Watcher<V> {
    const id: Text
    var generation: nat
    var disposed: bool
    var subscribed: bool
    var delivered: seq<Delivery<V>>

    ghost function View(): Watch<V>
      reads this
    {
      Watch(generation, disposed, delivered)
    }

    /** Subscribes, and issues the first read. */
    constructor (id: Text)
      ensures this.id == id && subscribed
      ensures View() == Reread(Watch(0, false, []))
    {
      this.id := id;
      generation, disposed, subscribed, delivered := 1, false, true, [];
    }

    /** The change listener; `issued` is the generation of the read it starts, if any. */
    method OnChange(eventId: Text) returns (issued: Option<nat>)
      modifies this`generation
      ensures View() == if subscribed && eventId == id then Reread(old(View())) else old(View())
      ensures issued == if subscribed && eventId == id then Some(generation) else None
    {
      if !subscribed || eventId != id {
        return None;
      }
      generation := generation + 1;
      issued := Some(generation);
    }

    /** A read has resolved. */
    method OnRead(myGeneration: nat, value: V)
      modifies this`delivered
      ensures View() == Resolve(old(View()), myGeneration, value)
    {
      if disposed || myGeneration != generation {
        return;
      }
      delivered := delivered + [Delivery(myGeneration, value)];
    }

    method Unsubscribe()
      modifies this`disposed, this`subscribed
      ensures !subscribed && View() == old(View()).(disposed := true)
    {
      disposed := true;
      subscribed := false;
    }
  }

  // ---------------------------------------------------------------- the watcher and its store

  /** A read takes its value from the store some time after it was issued, and resolves some time
      after that. */
  datatype Read<V> = Issued | Sampled(value: V)

  /** `value` is what the store holds under the id, and `unannounced` counts the writes that have
      changed it but not yet emitted their event. */
  datatype System<V> = System(value: V, unannounced: nat, watch: Watch<V>, inFlight: map<nat, Read<V>>,
                              failed: set<nat>)

  datatype Step<V> =
    | Write(value: V)
    | Emit
    | Announce
    | Sample(generation: nat)
    | Settle(generation: nat)
    | Fail(generation: nat)
    | Unsubscribe

  ghost predicate Enabled<V>(s: System<V>, step: Step<V>) {
    match step
    case Emit => s.unannounced > 0
    case Sample(g) => g in s.inFlight && s.inFlight[g].Issued?
    case Settle(g) => g in s.inFlight && s.inFlight[g].Sampled?
    case Fail(g) => g in s.inFlight
    case _ => true
  }

  /** A change event reaches the listener, unless it has been removed. */
  ghost function Notified<V>(s: System<V>): System<V> {
    if s.watch.disposed then s
    else s.(watch := Reread(s.watch), inFlight := s.inFlight[s.watch.generation + 1 := Issued])
  }

  ghost function Next<V>(s: System<V>, step: Step<V>): System<V>
    requires Enabled(s, step)
  {
    match step
    case Write(v) => s.(value := v, unannounced := s.unannounced + 1)
    case Emit => Notified(s.(unannounced := s.unannounced - 1))
    case Announce => Notified(s)
    case Sample(g) => s.(inFlight := s.inFlight[g := Sampled(s.value)])
    case Settle(g) => s.(watch := Resolve(s.watch, g, s.inFlight[g].value), inFlight := s.inFlight - {g})
    case Fail(g) => s.(inFlight := s.inFlight - {g}, failed := s.failed + {g})
    case Unsubscribe => s.(watch := s.watch.(disposed := true))
  }

  /** The moment `watch` returns, whatever writes are under way. */
  ghost predicate Started<V>(s: System<V>) {
    s.watch == Reread(Watch(0, false, [])) && s.inFlight == map[1 := Issued] && s.failed == {}
  }

  ghost predicate Increasing<V>(ds: seq<Delivery<V>>) {
    forall i, j :: 0 <= i < j < |ds| ==> ds[i].generation < ds[j].generation
  }

  /** What the newest read has seen, or delivered, is what the store holds, unless some write has
      yet to announce itself. */
  ghost predicate Fresh<V>(s: System<V>) {
    var g, ds := s.watch.generation, s.watch.delivered;
    s.unannounced == 0 && !s.watch.disposed ==>
      if g in s.inFlight then s.inFlight[g].Sampled? ==> s.inFlight[g].value == s.value
      else g in s.failed || (ds != [] && ds[|ds| - 1] == Delivery(g, s.value))
  }

  ghost predicate Consistent<V>(s: System<V>) {
    var g, ds := s.watch.generation, s.watch.delivered;
    && Increasing(ds)
    && (forall i :: 0 <= i < |ds| ==> ds[i].generation <= g && (g in s.inFlight ==> ds[i].generation < g))
    && (forall h :: h in s.inFlight || h in s.failed ==> h <= g)
    && (forall h :: h in s.inFlight ==> h !in s.failed)
    && Fresh(s)
  }

  lemma NotifiedKeeps<V>(s: System<V>)
    requires Consistent(s) || (s.unannounced == 0 && Consistent(s.(unannounced := 1)))
    ensures Consistent(Notified(s))
  {
  }

  lemma StepKeeps<V>(s: System<V>, step: Step<V>)
    requires Consistent(s) && Enabled(s, step)
    ensures Consistent(Next(s, step))
    ensures s.watch.delivered <= Next(s, step).watch.delivered
    ensures s.watch.disposed ==> Next(s, step).watch == s.watch
  {
    if step.Emit? {
      var quiet := s.(unannounced := s.unannounced - 1);
      assert quiet.(unannounced := s.unannounced) == s;
      NotifiedKeeps(quiet);
    }
  }

  ghost predicate IsRun<V>(s: System<V>, steps: seq<Step<V>>)
    decreases |steps|
  {
    steps != [] ==> Enabled(s, steps[0]) && IsRun(Next(s, steps[0]), steps[1..])
  }

  ghost function Exec<V>(s: System<V>, steps: seq<Step<V>>): System<V>
    requires IsRun(s, steps)
    decreases |steps|
  {
    if steps == [] then s else Exec(Next(s, steps[0]), steps[1..])
  }

  lemma {:induction false} RunKeeps<V>(s: System<V>, steps: seq<Step<V>>)
    requires Consistent(s) && IsRun(s, steps)
    ensures Consistent(Exec(s, steps))
    ensures s.watch.delivered <= Exec(s, steps).watch.delivered
    ensures s.watch.disposed ==> Exec(s, steps).watch == s.watch
    decreases |steps|
  {
    if steps != [] {
      StepKeeps(s, steps[0]);
      RunKeeps(Next(s, steps[0]), steps[1..]);
    }
  }

  /** Whatever order reads resolve in: generations are delivered in strictly increasing order, and
      once every read has settled with no write under way, the last value delivered is the one the
      store holds, unless the newest read itself failed or the caller has unsubscribed. */
  lemma WatchConverges<V>(s: System<V>, steps: seq<Step<V>>)
    requires Started(s) && IsRun(s, steps)
    ensures var t := Exec(s, steps);
            && Increasing(t.watch.delivered)
            && (t.inFlight == map[] && t.unannounced == 0 && !t.watch.disposed && t.watch.generation !in t.failed ==>
                  && t.watch.delivered != []
                  && t.watch.delivered[|t.watch.delivered| - 1] == Delivery(t.watch.generation, t.value))
  {
    RunKeeps(s, steps);
  }

  /** Nothing is delivered after unsubscribing, not even by reads already on their way. */
  lemma NothingAfterUnsubscribe<V>(s: System<V>, before: seq<Step<V>>, after: seq<Step<V>>)
    requires Started(s) && IsRun(s, before)
    requires IsRun(Next(Exec(s, before), Unsubscribe), after)
    ensures Exec(Next(Exec(s, before), Unsubscribe), after).watch.delivered == Exec(s, before).watch.delivered
  {
    RunKeeps(s, before);
    StepKeeps(Exec(s, before), Unsubscribe);
    RunKeeps(Next(Exec(s, before), Unsubscribe), after);
  }
}
