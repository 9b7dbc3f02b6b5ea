/**
  The capability probe and its cache: two globals under one lock, read by any number of threads
  while the binary that they describe may be replaced at any moment.

  Versions of the binary are numbered in the order of their installation.
 */
module ProbeCache {
  import opened Wrappers

  // What the file system and the binaries answer.
  datatype World = World(identity: nat -> int, answer: nat -> bool)

  // Where a call is. `start` is the version installed when it began.
  datatype Phase =
    | Started(start: nat)
    | Statted(start: nat, id: int)
    | Holding(start: nat, id: int)
    | Probed(start: nat, id: int, probe: bool)

  // A finished call, with the versions installed when it began and when it returned.
  datatype Call = Call(start: nat, end: nat, answer: bool)

  datatype State = State(
    current: nat,
    cachedId: int, cachedAnswer: bool,
    lock: Option<nat>,
    threads: map<nat, Phase>,
    calls: seq<Call>)

  datatype Event =
    | Replace                 // a new version is installed
    | Begin(t: nat)           // a call starts
    | Stat(t: nat)            // it reads the identity, without the lock
    | Acquire(t: nat)         // it takes the lock
    | Hit(t: nat)             // the identity is the cached one: return the cached answer
    | Probe(t: nat)           // it is not: run the binary that is installed now
    | Publish(t: nat)         // store the identity and the answer together, and return

  function Return(s: State, t: nat, answer: bool): State
    requires t in s.threads
  {
    s.(lock := None, threads := s.threads - {t}, calls := s.calls + [Call(s.threads[t].start, s.current, answer)])
  }

  // `None` when the event cannot happen.
  function Step(w: World, s: State, e: Event): Option<State> {
    match e
    case Replace => Some(s.(current := s.current + 1))
    case Begin(t) =>
      if t in s.threads then None else Some(s.(threads := s.threads[t := Started(s.current)]))
    case Stat(t) =>
      if t !in s.threads || !s.threads[t].Started? then None
      else Some(s.(threads := s.threads[t := Statted(s.threads[t].start, w.identity(s.current))]))
    case Acquire(t) =>
      if t !in s.threads || !s.threads[t].Statted? || s.lock.Some? then None
      else Some(s.(lock := Some(t), threads := s.threads[t := Holding(s.threads[t].start, s.threads[t].id)]))
    case Hit(t) =>
      if t !in s.threads || !s.threads[t].Holding? || s.threads[t].id != s.cachedId then None
      else Some(Return(s, t, s.cachedAnswer))
    case Probe(t) =>
      if t !in s.threads || !s.threads[t].Holding? || s.threads[t].id == s.cachedId then None
      else Some(s.(threads := s.threads[t := Probed(s.threads[t].start, s.threads[t].id, w.answer(s.current))]))
    case Publish(t) =>
      if t !in s.threads || !s.threads[t].Probed? then None
      else
        var p := s.threads[t];
        Some(Return(s.(cachedId := p.id, cachedAnswer := p.probe), t, p.probe))
  }

  function Run(w: World, s: State, events: seq<Event>): Option<State>
    decreases |events|
  {
    if events == [] then Some(s)
    else
      var s' := Step(w, s, events[0]);
      if s'.None? then None else Run(w, s'.value, events[1..])
  }

  // Import: the binary is probed at version `p`, then its identity is read at version `v`.
  function Imported(w: World, p: nat, v: nat): State {
    State(v, w.identity(v), w.answer(p), None, map[], [])
  }

  // The answer is that of a version installed at some moment between the call's start and return.
  ghost predicate Linearizable(w: World, c: Call) {
    exists v: nat :: c.start <= v <= c.end && w.answer(v) == c.answer
  }

  // Identities never recur.
  ghost predicate NeverRecurs(w: World) {
    forall a: nat, b: nat :: w.identity(a) == w.identity(b) ==> a == b
  }

  // `id` was read from a version no older than `start`, and `answer` is that of one no older again.
  ghost predicate Traced(w: World, start: nat, now: nat, id: int, answer: bool) {
    exists v: nat, p: nat :: start <= v <= p <= now && w.identity(v) == id && w.answer(p) == answer
  }

  ghost predicate Seen(w: World, start: nat, now: nat, id: int) {
    exists v: nat :: start <= v <= now && w.identity(v) == id
  }

  ghost predicate PhaseOk(w: World, now: nat, p: Phase) {
    && p.start <= now
    && (p.Statted? || p.Holding? ==> Seen(w, p.start, now, p.id))
    && (p.Probed? ==> Traced(w, p.start, now, p.id, p.probe))
  }

  ghost predicate Inv(w: World, s: State) {
    && Traced(w, 0, s.current, s.cachedId, s.cachedAnswer)
    && (forall t :: t in s.threads ==> PhaseOk(w, s.current, s.threads[t]))
    && (forall c :: c in s.calls ==> Linearizable(w, c))
    && (forall t :: t in s.threads && (s.threads[t].Holding? || s.threads[t].Probed?) ==> s.lock == Some(t))
  }

  lemma Later(w: World, now: nat, p: Phase)
    requires PhaseOk(w, now, p)
    ensures PhaseOk(w, now + 1, p)
  {
    if p.Statted? || p.Holding? {
      var v: nat :| p.start <= v <= now && w.identity(v) == p.id;
      assert p.start <= v <= now + 1;
    } else if p.Probed? {
      TracedLater(w, p.start, now, p.id, p.probe);
    }
  }

  lemma TracedLater(w: World, start: nat, now: nat, id: int, answer: bool)
    requires Traced(w, start, now, id, answer)
    ensures Traced(w, start, now + 1, id, answer)
  {
    var v: nat, p: nat :| start <= v <= p <= now && w.identity(v) == id && w.answer(p) == answer;
    assert start <= v <= p <= now + 1;
  }

  lemma TracedEarlier(w: World, start: nat, now: nat, id: int, answer: bool)
    requires Traced(w, start, now, id, answer)
    ensures Traced(w, 0, now, id, answer)
  {
    var v: nat, p: nat :| start <= v <= p <= now && w.identity(v) == id && w.answer(p) == answer;
    assert 0 <= v <= p <= now;
  }

  // A hit: the cached pair was published for the very version whose identity the call has read,
  // from a probe no older than it.
  lemma HitIsLinearizable(w: World, s: State, t: nat)
    requires NeverRecurs(w) && Inv(w, s) && t in s.threads && s.threads[t].Holding? && s.threads[t].id == s.cachedId
    ensures Linearizable(w, Call(s.threads[t].start, s.current, s.cachedAnswer))
  {
    var p := s.threads[t];
    var v: nat :| p.start <= v <= s.current && w.identity(v) == p.id;
    var u: nat, q: nat :| u <= q <= s.current && w.identity(u) == s.cachedId && w.answer(q) == s.cachedAnswer;
    assert u == v;
    assert p.start <= q <= s.current;
  }

  lemma PublishIsLinearizable(w: World, s: State, t: nat)
    requires Inv(w, s) && t in s.threads && s.threads[t].Probed?
    ensures Linearizable(w, Call(s.threads[t].start, s.current, s.threads[t].probe))
  {
    var p := s.threads[t];
    var v: nat, q: nat :| p.start <= v <= q <= s.current && w.identity(v) == p.id && w.answer(q) == p.probe;
    assert p.start <= q <= s.current;
  }

  lemma StepKeepsInv(w: World, s: State, e: Event)
    requires NeverRecurs(w) && Inv(w, s) && Step(w, s, e).Some?
    ensures Inv(w, Step(w, s, e).value)
  {
    var s' := Step(w, s, e).value;
    match e
    case Replace =>
      TracedLater(w, 0, s.current, s.cachedId, s.cachedAnswer);
      forall t | t in s.threads ensures PhaseOk(w, s'.current, s.threads[t]) { Later(w, s.current, s.threads[t]); }
    case Begin(t) =>
    case Stat(t) => assert Seen(w, s.threads[t].start, s.current, w.identity(s.current));
    case Acquire(t) =>
    case Hit(t) => HitIsLinearizable(w, s, t);
    case Probe(t) =>
      var p := s.threads[t];
      var v: nat :| p.start <= v <= s.current && w.identity(v) == p.id;
      assert Traced(w, p.start, s.current, p.id, w.answer(s.current));
    case Publish(t) =>
      PublishIsLinearizable(w, s, t);
      TracedEarlier(w, s.threads[t].start, s.current, s.threads[t].id, s.threads[t].probe);
  }

  lemma {:induction false} RunKeepsInv(w: World, s: State, events: seq<Event>)
    requires NeverRecurs(w) && Inv(w, s) && Run(w, s, events).Some?
    ensures Inv(w, Run(w, s, events).value)
    decreases |events|
  {
    if events != [] {
      StepKeepsInv(w, s, events[0]);
      RunKeepsInv(w, Step(w, s, events[0]).value, events[1..]);
    }
  }

  // The cache is linearizable over every interleaving of callers and replacements exactly when the
  // import-time probe and stat saw binaries that answer alike; in particular when no replacement
  // came between them.
  lemma LinearizableIffImportAgrees(w: World, p: nat, v: nat)
    requires NeverRecurs(w) && p <= v
    ensures (forall events, c ::
               Run(w, Imported(w, p, v), events).Some? && c in Run(w, Imported(w, p, v), events).value.calls ==>
                 Linearizable(w, c))
       <==> w.answer(p) == w.answer(v)
  {
    var s := Imported(w, p, v);
    if w.answer(p) == w.answer(v) {
      assert Traced(w, 0, v, s.cachedId, s.cachedAnswer)
        by { assert 0 <= v <= v <= v && w.answer(v) == s.cachedAnswer; }
      forall events, c | Run(w, s, events).Some? && c in Run(w, s, events).value.calls ensures Linearizable(w, c) {
        RunKeepsInv(w, s, events);
      }
    } else {
      StaleImport(w, p, v);
    }
  }

  // A replacement between the two import-time steps: the first call is served the old answer.
  lemma StaleImport(w: World, p: nat, v: nat)
    requires w.answer(p) != w.answer(v)
    ensures var events := [Begin(0), Stat(0), Acquire(0), Hit(0)];
      var r := Run(w, Imported(w, p, v), events);
      r.Some? && r.value.calls == [Call(v, v, w.answer(p))] && !Linearizable(w, Call(v, v, w.answer(p)))
  {
    var s0 := Imported(w, p, v);
    var s1 := Step(w, s0, Begin(0)).value;
    var s2 := Step(w, s1, Stat(0)).value;
    var s3 := Step(w, s2, Acquire(0)).value;
    var s4 := Step(w, s3, Hit(0)).value;
    var events := [Begin(0), Stat(0), Acquire(0), Hit(0)];
    assert events[1..] == [Stat(0), Acquire(0), Hit(0)];
    assert events[1..][1..] == [Acquire(0), Hit(0)] && events[1..][1..][1..] == [Hit(0)];
    assert [Hit(0)][1..] == [];
    assert Run(w, s3, [Hit(0)]) == Some(s4);
    assert Run(w, s2, [Acquire(0), Hit(0)]) == Some(s4);
    assert Run(w, s1, [Stat(0), Acquire(0), Hit(0)]) == Some(s4);
  }

  // The lock is held by the one call that is inside.
  predicate Exclusive(s: State) {
    forall t :: t in s.threads && (s.threads[t].Holding? || s.threads[t].Probed?) ==> s.lock == Some(t)
  }

  // Along the events no other identity is published and call `u` does not take the lock.
  predicate Undisturbed(w: World, s: State, events: seq<Event>, id: int, u: nat)
    decreases |events|
  {
    events != [] ==>
      && events[0] != Acquire(u)
      && (events[0].Publish? && events[0].t in s.threads && s.threads[events[0].t].Probed?
          ==> s.threads[events[0].t].id == id)
      && (Step(w, s, events[0]).Some? ==> Undisturbed(w, Step(w, s, events[0]).value, events[1..], id, u))
  }

  // The pair is cached, call `u` waits with the identity, and nobody is probing for it.
  predicate Served(s: State, id: int, answer: bool, u: nat, start: nat) {
    && s.cachedId == id && s.cachedAnswer == answer
    && u in s.threads && s.threads[u] == Statted(start, id)
    && forall t :: t in s.threads && s.threads[t].Probed? ==> s.threads[t].id != id
  }

  lemma {:induction false} StaysServed(w: World, s: State, events: seq<Event>, id: int, answer: bool, u: nat,
                                       start: nat)
    requires Served(s, id, answer, u, start) && Undisturbed(w, s, events, id, u) && Run(w, s, events).Some?
    ensures Served(Run(w, s, events).value, id, answer, u, start)
    decreases |events|
  {
    if events != [] {
      StaysServed(w, Step(w, s, events[0]).value, events[1..], id, answer, u, start);
    }
  }

  // Two calls that read the same changed identity cost one probe: whatever happens after one of
  // them has published, short of another identity being published, the other, when it gets the
  // lock, cannot probe and returns the published answer.
  lemma PublishedIdentityHits(w: World, s: State, t: nat, u: nat, events: seq<Event>)
    requires Exclusive(s) && Step(w, s, Publish(t)).Some? && t != u && u in s.threads && s.threads[u].Statted?
    requires s.threads[u].id == s.threads[t].id
    requires var s' := Step(w, s, Publish(t)).value;
      Undisturbed(w, s', events, s.threads[t].id, u) && Run(w, s', events).Some?
    ensures var s2 := Run(w, Step(w, s, Publish(t)).value, events).value;
      s2.lock.None? ==>
        && Step(w, s2, Acquire(u)).Some?
        && var held := Step(w, s2, Acquire(u)).value;
           && Step(w, held, Probe(u)).None? && Step(w, held, Hit(u)).Some?
           && Step(w, held, Hit(u)).value.calls == s2.calls + [Call(s.threads[u].start, s2.current, s.threads[t].probe)]
  {
    var p := s.threads[t];
    StaysServed(w, Step(w, s, Publish(t)).value, events, p.id, p.probe, u, s.threads[u].start);
  }
}
