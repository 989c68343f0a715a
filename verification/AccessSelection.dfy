/**
 * Choosing the access protocol: every driver in the registry judges the chip, the best judgement is
 * tried first, and what the first protocol said is what the user is told.
 */
module AccessSelection {
  import opened Errors

  const UNSUPPORTED := 0
  const POSSIBLE := 1
  const ANNOUNCED := 2

  /** A driver's judgement of this chip: a score, and why it is no better. */
  datatype Driver = Driver(score: nat, reason: Option<Error>)

  /**
   * What happens outside: when a stop is seen, what an attempt comes to after those before it, and
   * whether the application can be selected again after a refusal.
   */
  datatype Surroundings = Surroundings(
    registry: seq<Driver>,
    stops: (nat, nat) -> bool,
    outcome: seq<nat> -> Option<Error>,
    reselects: seq<nat> -> bool
  )

  datatype Verdict = Opened(driver: nat) | Refused(error: Error)

  datatype State = State(best: Error, attempted: bool, tried: seq<nat>, end: Option<Verdict>)

  /** The chip's own statement that the credentials do not open it. */
  predicate IsKeyVerdict(e: Error) {
    e == WrongKey || e == PaceFailed
  }

  function Visit(env: Surroundings, level: nat, i: nat, s: State): State
    requires i < |env.registry|
  {
    var d := env.registry[i];
    if env.stops(level, i) then s.(end := Some(Refused(Cancelled)))
    else if d.score != level then
      s.(best := if d.reason.Some? && s.best == NoAccessMethod then d.reason.value else s.best)
    else
      var tried := s.tried + [i];
      match env.outcome(tried)
      case None => s.(tried := tried, end := Some(Opened(i)))
      case Some(e) =>
        if e == Cancelled then s.(tried := tried, end := Some(Refused(e)))
        else
          var best := if !s.attempted && (s.best == NoAccessMethod || IsKeyVerdict(e)) then e else s.best;
          var gone := e == CardLost || e == Transport || !env.reselects(tried);
          State(best, true, tried, if gone then Some(Refused(best)) else None)
  }

  /** The states the search goes through from here on, this one first. */
  function Trace(env: Surroundings, level: nat, i: nat, s: State): (t: seq<State>)
    ensures t != [] && t[0] == s
    decreases level, |env.registry| - i
  {
    if s.end.Some? || level == UNSUPPORTED then [s]
    else if i >= |env.registry| then Trace(env, level - 1, 0, s)
    else [s] + Trace(env, level, i + 1, Visit(env, level, i, s))
  }

  function Last(env: Surroundings, level: nat, i: nat, s: State): State {
    var t := Trace(env, level, i, s);
    t[|t| - 1]
  }

  const START := State(NoAccessMethod, false, [], None)

  function Outcome(s: State): Verdict {
    if s.end.Some? then s.end.value else Refused(s.best)
  }

  lemma LastStep(env: Surroundings, level: nat, i: nat, s: State)
    requires i < |env.registry| && s.end.None? && level != UNSUPPORTED
    ensures
      var next := Visit(env, level, i, s);
      Last(env, level, i, s) == if next.end.Some? then next else Last(env, level, i + 1, next)
  {
    hide Visit;
    var next := Visit(env, level, i, s);
    var rest := Trace(env, level, i + 1, next);
    assert Trace(env, level, i, s) == [s] + rest;
  }

  /** The search, level by level and driver by driver. */
  method Authenticate(env: Surroundings) returns (v: Verdict, tried: seq<nat>)
    ensures v == Outcome(Last(env, ANNOUNCED, 0, START)) && tried == Last(env, ANNOUNCED, 0, START).tried
  {
    var best, attempted := NoAccessMethod, false;
    tried := [];
    var level := ANNOUNCED;
    while level >= POSSIBLE
      invariant 0 <= level <= ANNOUNCED
      invariant Last(env, ANNOUNCED, 0, START) == Last(env, level, 0, State(best, attempted, tried, None))
    {
      var i := 0;
      while i < |env.registry|
        invariant 0 <= i <= |env.registry|
        invariant Last(env, ANNOUNCED, 0, START) == Last(env, level, i, State(best, attempted, tried, None))
      {
        LastStep(env, level, i, State(best, attempted, tried, None));
        if env.stops(level, i) {
          return Refused(Cancelled), tried;
        }
        var d := env.registry[i];
        if d.score != level {
          if d.reason.Some? && best == NoAccessMethod {
            best := d.reason.value;
          }
        } else {
          tried := tried + [i];
          var e := env.outcome(tried);
          if e.None? {
            return Opened(i), tried;
          }
          if e.value == Cancelled {
            return Refused(Cancelled), tried;
          }
          if !attempted {
            if best == NoAccessMethod || IsKeyVerdict(e.value) {
              best := e.value;
            }
            attempted := true;
          }
          if e.value == CardLost || e.value == Transport || !env.reselects(tried) {
            return Refused(best), tried;
          }
        }
        i := i + 1;
      }
      level := level - 1;
    }
    v := Refused(best);
  }

  // ---- A pinned method ---------------------------------------------------------------------

  /** What a driver may say: a score on the scale, and a reason only when it does not support the chip. */
  predicate Judges(d: Driver) {
    d.score != UNSUPPORTED ==> d.score <= ANNOUNCED && d.reason == None
  }

  /** The same surroundings with one driver in the registry, and nobody to stop the search. */
  function Alone(env: Surroundings, i: nat): Surroundings
    requires i < |env.registry|
  {
    Surroundings([env.registry[i]], (level: nat, k: nat) => false,
                 (tried: seq<nat>) => env.outcome(seq(|tried|, _ => i)), (tried: seq<nat>) => true)
  }

  /** A verdict of that search, in terms of the whole registry. */
  function Named(v: Verdict, i: nat): Verdict {
    if v.Opened? then Opened(i) else v
  }

  /**
   * A method the user pinned is the only one attempted: what comes of it is what the search would come
   * to if that driver were all there is.
   */
  method AuthenticatePinned(env: Surroundings, i: Option<nat>) returns (v: Verdict, tried: seq<nat>)
    requires i.Some? ==> i.value < |env.registry|
    ensures |tried| <= 1 && forall j :: j in tried ==> i == Some(j)
    ensures v.Opened? ==> i == Some(v.driver) && tried == [v.driver] && env.outcome(tried) == None
    ensures tried != [] <==> i.Some? && env.registry[i.value].score != UNSUPPORTED
    ensures v.Refused? && tried != [] ==> env.outcome(tried) == Some(v.error)
    ensures i.None? ==> v == Refused(NoAccessMethod)
    ensures i.Some? && Judges(env.registry[i.value]) ==>
      var end := Last(Alone(env, i.value), ANNOUNCED, 0, START);
      v == Named(Outcome(end), i.value) && tried == seq(|end.tried|, _ => i.value)
  {
    if i.None? {
      return Refused(NoAccessMethod), [];
    }
    var d := env.registry[i.value];
    if Judges(d) {
      LonelySearch(env, i.value);
    }
    if d.score == UNSUPPORTED {
      return Refused(if d.reason.Some? then d.reason.value else NoAccessMethod), [];
    }
    tried := [i.value];
    var e := env.outcome(tried);
    v := if e.None? then Opened(i.value) else Refused(e.value);
  }

  /** The search over one driver: a visit at each level, and the attempt at the one it scored. */
  lemma LonelySearch(env: Surroundings, i: nat)
    requires i < |env.registry| && Judges(env.registry[i])
    ensures
      var d, end := env.registry[i], Last(Alone(env, i), ANNOUNCED, 0, START);
      if d.score == UNSUPPORTED then
        end.tried == [] && Outcome(end) == Refused(if d.reason.Some? then d.reason.value else NoAccessMethod)
      else
        |end.tried| == 1 && Outcome(end) == match env.outcome([i]) case None => Opened(0) case Some(e) => Refused(e)
  {
    var env1 := Alone(env, i);
    var s := Visit(env1, ANNOUNCED, 0, START);
    LastStep(env1, ANNOUNCED, 0, START);
    assert seq(|[0]|, _ => i) == [i];
    hide Trace;
    if s.end.None? {
      LastFrom(env1, ANNOUNCED, 1, s);
      LastStep(env1, POSSIBLE, 0, s);
      var t := Visit(env1, POSSIBLE, 0, s);
      if t.end.None? {
        LastFrom(env1, POSSIBLE, 1, t);
        LastFrom(env1, UNSUPPORTED, 0, t);
      }
    }
  }

  // ---- Which drivers are attempted, and in what order --------------------------------------

  /** The registry from here on, level by level. */
  function Order(registry: seq<Driver>, level: nat, i: nat): seq<nat>
    decreases level, |registry| - i
  {
    if level == UNSUPPORTED then []
    else if i >= |registry| then Order(registry, level - 1, 0)
    else (if registry[i].score == level then [i] else []) + Order(registry, level, i + 1)
  }

  predicate Before(registry: seq<Driver>, i: nat, j: nat) {
    i < |registry| && j < |registry| &&
    (registry[i].score > registry[j].score || (registry[i].score == registry[j].score && i < j))
  }

  predicate Remaining(registry: seq<Driver>, level: nat, i: nat, j: nat) {
    j < |registry| && registry[j].score > UNSUPPORTED
    && (registry[j].score < level || (registry[j].score == level && j >= i))
  }

  predicate Sorted(registry: seq<Driver>, order: seq<nat>) {
    forall a, b :: 0 <= a < b < |order| ==> Before(registry, order[a], order[b])
  }

  ghost predicate Lists(registry: seq<Driver>, level: nat, i: nat, order: seq<nat>) {
    forall j: nat :: j in order <==> Remaining(registry, level, i, j)
  }

  /**
   * That order is the supported drivers, every one of them and each once, sorted by falling score, and
   * drivers of one score in the order of the registry.
   */
  lemma {:induction false} OrderIsStableSort(registry: seq<Driver>, level: nat, i: nat)
    ensures Lists(registry, level, i, Order(registry, level, i)) && Sorted(registry, Order(registry, level, i))
    decreases level, |registry| - i
  {
    hide Lists, Sorted, Order;
    OrderStep(registry, level, i);
    if level == UNSUPPORTED {
      NothingRemains(registry, i);
    } else if i >= |registry| {
      OrderIsStableSort(registry, level - 1, 0);
      LevelDone(registry, level, i, Order(registry, level - 1, 0));
    } else {
      OrderIsStableSort(registry, level, i + 1);
      if registry[i].score == level {
        FirstInOrder(registry, level, i, Order(registry, level, i + 1));
      } else {
        SkippedInOrder(registry, level, i, Order(registry, level, i + 1));
      }
    }
  }

  /** The definition, one step of it at a time. */
  lemma OrderStep(registry: seq<Driver>, level: nat, i: nat)
    ensures Order(registry, level, i)
            == if level == UNSUPPORTED then []
               else if i >= |registry| then Order(registry, level - 1, 0)
               else if registry[i].score == level then [i] + Order(registry, level, i + 1)
               else Order(registry, level, i + 1)
  {
  }

  lemma NothingRemains(registry: seq<Driver>, i: nat)
    ensures Lists(registry, UNSUPPORTED, i, []) && Sorted(registry, [])
  {
  }

  lemma LevelDone(registry: seq<Driver>, level: nat, i: nat, rest: seq<nat>)
    requires level != UNSUPPORTED && i >= |registry| && Lists(registry, level - 1, 0, rest)
    ensures Lists(registry, level, i, rest)
  {
  }

  lemma SkippedInOrder(registry: seq<Driver>, level: nat, i: nat, rest: seq<nat>)
    requires i < |registry| && registry[i].score != level && Lists(registry, level, i + 1, rest)
    ensures Lists(registry, level, i, rest)
  {
  }

  lemma FirstInOrder(registry: seq<Driver>, level: nat, i: nat, rest: seq<nat>)
    requires i < |registry| && registry[i].score == level != UNSUPPORTED
    requires Lists(registry, level, i + 1, rest) && Sorted(registry, rest)
    ensures Lists(registry, level, i, [i] + rest) && Sorted(registry, [i] + rest)
  {
    var order := [i] + rest;
    forall a, b | 0 <= a < b < |order| ensures Before(registry, order[a], order[b]) {
      assert order[b] == rest[b - 1] && rest[b - 1] in rest;
      if a > 0 {
        assert order[a] == rest[a - 1];
      }
    }
  }

  /** One visit attempts the driver there or does not, and does not when its score is another. */
  lemma VisitTries(env: Surroundings, level: nat, i: nat, s: State)
    requires i < |env.registry| && s.end.None?
    ensures
      var next := Visit(env, level, i, s);
      var here := if env.registry[i].score == level then [i] else [];
      && (next.tried == s.tried + here || (next.tried == s.tried && next.end.Some?))
  {
  }

  /** The drivers attempted are a prefix of that order, and all of it when nothing ended the search. */
  lemma {:induction false} TriedIsPrefix(env: Surroundings, level: nat, i: nat, s: State)
    ensures
      var end := Last(env, level, i, s);
      var all := s.tried + Order(env.registry, level, i);
      && end.tried <= all
      && (end.end.None? ==> end.tried == all)
    decreases level, |env.registry| - i
  {
    hide Visit, Order, Trace, Last;
    OrderStep(env.registry, level, i);
    LastFrom(env, level, i, s);
    var rest := Order(env.registry, level, i + 1);
    if s.end.None? && level != UNSUPPORTED {
      if i >= |env.registry| {
        TriedIsPrefix(env, level - 1, 0, s);
      } else {
        VisitTries(env, level, i, s);
        LastStep(env, level, i, s);
        TriedIsPrefix(env, level, i + 1, Visit(env, level, i, s));
        assert s.tried + ([i] + rest) == s.tried + [i] + rest;
      }
    }
  }

  lemma LastFrom(env: Surroundings, level: nat, i: nat, s: State)
    ensures s.end.Some? || level == UNSUPPORTED ==> Last(env, level, i, s) == s
    ensures s.end.None? && level != UNSUPPORTED && i >= |env.registry| ==> Last(env, level, i, s) == Last(env, level - 1, 0, s)
  {
  }

  // ---- What the user is told ---------------------------------------------------------------

  /** A held error gives way to another. */
  predicate Replaced(a: State, b: State) {
    a.best != NoAccessMethod && b.best != a.best
  }

  /** Until the search ends, an attempt has been made exactly when a driver has been tried. */
  predicate Coherent(s: State) {
    s.end.None? ==> (s.attempted <==> s.tried != [])
  }

  /** One step never forgets an attempt, and replaces a held error only by the first attempt's verdict. */
  predicate StepFine(env: Surroundings, a: State, b: State) {
    && (a.attempted ==> b.attempted)
    && (Replaced(a, b) ==>
          && !a.attempted && b.attempted && a.tried == [] && |b.tried| == 1
          && IsKeyVerdict(b.best) && env.outcome(b.tried) == Some(b.best))
  }

  predicate AllFine(env: Surroundings, t: seq<State>) {
    forall k :: 0 < k < |t| ==> StepFine(env, t[k - 1], t[k])
  }

  lemma {:induction false} TraceSteps(env: Surroundings, level: nat, i: nat, s: State)
    requires Coherent(s)
    ensures
      AllFine(env, Trace(env, level, i, s))
    decreases level, |env.registry| - i
  {
    if s.end.None? && level != UNSUPPORTED {
      if i >= |env.registry| {
        TraceSteps(env, level - 1, 0, s);
        assert Trace(env, level, i, s) == Trace(env, level - 1, 0, s);
      } else {
        var next := Visit(env, level, i, s);
        TraceSteps(env, level, i + 1, next);
        assert StepFine(env, s, next);
        hide StepFine, Visit;
        var t, rest := Trace(env, level, i, s), Trace(env, level, i + 1, next);
        assert t == [s] + rest;
        forall k | 0 < k < |t| ensures StepFine(env, t[k - 1], t[k]) {
          assert t[k] == rest[k - 1];
          if k > 1 {
            assert t[k - 1] == rest[k - 2];
          }
        }
      }
    }
  }

  lemma {:induction false} AttemptedStays(env: Surroundings, t: seq<State>, j: nat, k: nat)
    requires AllFine(env, t)
    requires j <= k < |t| && t[j].attempted
    ensures t[k].attempted
    decreases k - j
  {
    if j < k {
      assert StepFine(env, t[j + 1 - 1], t[j + 1]);
      AttemptedStays(env, t, j + 1, k);
    }
  }

  /**
   * An error once held is replaced at most once in a whole search, and then only by what the first
   * driver attempted said about the key.
   */
  lemma HeldErrorReplacedOnce(env: Surroundings, j: nat, k: nat)
    requires j < k < |Trace(env, ANNOUNCED, 0, START)| - 1
    ensures
      var t := Trace(env, ANNOUNCED, 0, START);
      && !(Replaced(t[j], t[j + 1]) && Replaced(t[k], t[k + 1]))
      && (Replaced(t[k], t[k + 1]) ==>
            IsKeyVerdict(t[k + 1].best) && |t[k + 1].tried| == 1 && env.outcome(t[k + 1].tried) == Some(t[k + 1].best))
  {
    TraceSteps(env, ANNOUNCED, 0, START);
    var t := Trace(env, ANNOUNCED, 0, START);
    assert StepFine(env, t[j + 1 - 1], t[j + 1]) && StepFine(env, t[k + 1 - 1], t[k + 1]);
    if Replaced(t[j], t[j + 1]) {
      AttemptedStays(env, t, j + 1, k);
    }
  }

  // ---- When a search goes on ---------------------------------------------------------------

  /** After these attempts there is another: the last failed, the chip is there and can be selected again. */
  predicate GoesOn(env: Surroundings, tried: seq<nat>) {
    match env.outcome(tried)
    case None => false
    case Some(e) => e != Cancelled && e != CardLost && e != Transport && env.reselects(tried)
  }

  ghost predicate StopSeen(env: Surroundings) {
    exists level, i :: env.stops(level, i)
  }

  /** Every attempt but the last was one to go on after, and the last says how the search stands. */
  ghost predicate Accounted(env: Surroundings, s: State) {
    && (forall k :: 0 < k < |s.tried| ==> GoesOn(env, s.tried[..k]))
    && match s.end
       case None => s.tried == [] || GoesOn(env, s.tried)
       case Some(Opened(i)) => s.tried != [] && s.tried[|s.tried| - 1] == i && env.outcome(s.tried) == None
       case Some(Refused(e)) =>
         if s.tried == [] || GoesOn(env, s.tried) then e == Cancelled && StopSeen(env)
         else env.outcome(s.tried).Some? && (env.outcome(s.tried) == Some(Cancelled) ==> e == Cancelled)
  }

  lemma VisitAccounted(env: Surroundings, level: nat, i: nat, s: State)
    requires i < |env.registry| && s.end.None? && Accounted(env, s)
    ensures Accounted(env, Visit(env, level, i, s))
  {
    var next := Visit(env, level, i, s);
    forall k | 0 < k < |next.tried| ensures GoesOn(env, next.tried[..k]) {
      assert next.tried[..k] == if k < |s.tried| then s.tried[..k] else s.tried;
    }
  }

  lemma {:induction false} SearchAccounted(env: Surroundings, level: nat, i: nat, s: State)
    requires Accounted(env, s)
    ensures Accounted(env, Last(env, level, i, s))
    decreases level, |env.registry| - i
  {
    hide Trace, Last, Accounted, Visit;
    LastFrom(env, level, i, s);
    if s.end.None? && level != UNSUPPORTED {
      if i >= |env.registry| {
        SearchAccounted(env, level - 1, 0, s);
      } else {
        LastStep(env, level, i, s);
        VisitAccounted(env, level, i, s);
        SearchAccounted(env, level, i + 1, Visit(env, level, i, s));
      }
    }
  }

  /** A whole search: who was tried, in what order, and why it went no further. */
  lemma WholeSearch(env: Surroundings)
    ensures
      var end := Last(env, ANNOUNCED, 0, START);
      && end.tried <= Order(env.registry, ANNOUNCED, 0)
      && Sorted(env.registry, end.tried)
      && (end.end.None? ==> Lists(env.registry, ANNOUNCED, 0, end.tried))
      && Accounted(env, end)
  {
    SearchAccounted(env, ANNOUNCED, 0, START);
    hide Accounted;
    TriedIsPrefix(env, ANNOUNCED, 0, START);
    OrderIsStableSort(env.registry, ANNOUNCED, 0);
    var order, end := Order(env.registry, ANNOUNCED, 0), Last(env, ANNOUNCED, 0, START);
    assert [] + order == order;
    forall a, b | 0 <= a < b < |end.tried| ensures Before(env.registry, end.tried[a], end.tried[b]) {
      assert end.tried[a] == order[a] && end.tried[b] == order[b];
    }
  }

  // ---- Which error that is -----------------------------------------------------------------

  /** The first reason among these drivers that says more than that there is no method. */
  function FirstReason(registry: seq<Driver>): Option<Error> {
    if registry == [] then None
    else
      var earlier, d := FirstReason(registry[..|registry| - 1]), registry[|registry| - 1];
      if earlier.Some? then earlier
      else if d.score != ANNOUNCED && d.reason.Some? && d.reason.value != NoAccessMethod then d.reason
      else None
  }

  /** How many drivers stand before the first that the document announces. */
  function BeforeAnnounced(registry: seq<Driver>, i: nat): (n: nat)
    requires i <= |registry|
    ensures i <= n <= |registry|
    ensures forall j :: i <= j < n ==> registry[j].score != ANNOUNCED
    ensures n < |registry| ==> registry[n].score == ANNOUNCED
    decreases |registry| - i
  {
    if i == |registry| || registry[i].score == ANNOUNCED then i else BeforeAnnounced(registry, i + 1)
  }

  /** The reason that is held when the first attempt is made, or when there is none to make. */
  function Held(registry: seq<Driver>): Option<Error> {
    FirstReason(registry[..BeforeAnnounced(registry, 0)])
  }

  function OrNone(e: Option<Error>): Error {
    if e.Some? then e.value else NoAccessMethod
  }

  /** What the first attempt leaves to be told: what it said itself, when that is about the key or nothing was held. */
  function AfterFirst(held: Option<Error>, e: Error): Error {
    if held == None || e == WrongKey || e == PaceFailed then e else held.value
  }

  /** A search that has ended neither in an open chip nor in a stop. */
  predicate Failed(s: State) {
    !Outcome(s).Opened? && Outcome(s) != Refused(Cancelled)
  }

  /** Drivers that have been tried stay tried. */
  lemma {:induction false} TriedGrows(env: Surroundings, level: nat, i: nat, s: State)
    ensures s.tried <= Last(env, level, i, s).tried
    decreases level, |env.registry| - i
  {
    hide Trace, Last;
    LastFrom(env, level, i, s);
    if s.end.None? && level != UNSUPPORTED {
      if i >= |env.registry| {
        TriedGrows(env, level - 1, 0, s);
      } else {
        LastStep(env, level, i, s);
        TriedGrows(env, level, i + 1, Visit(env, level, i, s));
      }
    }
  }

  /** Once an attempt has been made and there is something to tell, it stays that. */
  lemma {:induction false} ToldStays(env: Surroundings, level: nat, i: nat, s: State)
    requires s.attempted && s.best != NoAccessMethod && (s.end.Some? && Failed(s) ==> Outcome(s) == Refused(s.best))
    ensures Failed(Last(env, level, i, s)) ==> Outcome(Last(env, level, i, s)) == Refused(s.best)
    decreases level, |env.registry| - i
  {
    hide Trace, Last;
    LastFrom(env, level, i, s);
    if s.end.None? && level != UNSUPPORTED {
      if i >= |env.registry| {
        ToldStays(env, level - 1, 0, s);
      } else {
        LastStep(env, level, i, s);
        ToldStays(env, level, i + 1, Visit(env, level, i, s));
      }
    }
  }

  /** One more driver whose reason may be the first. */
  lemma OneMoreReason(registry: seq<Driver>, i: nat)
    requires i < |registry|
    ensures FirstReason(registry[..i + 1])
            == if FirstReason(registry[..i]).Some? then FirstReason(registry[..i])
               else if registry[i].score != ANNOUNCED && registry[i].reason.Some? && registry[i].reason.value != NoAccessMethod
               then registry[i].reason else None
  {
    assert registry[..i + 1][..i] == registry[..i];
  }

  /** What a failed search that is about to make its first attempt, or none, ends with. */
  ghost predicate Tells(env: Surroundings, held: Option<Error>, end: State) {
    Failed(end) ==>
      if end.tried == [] then Outcome(end) == Refused(OrNone(held))
      else
        var first := env.outcome(end.tried[..1]);
        first.Some? && (first.value != NoAccessMethod ==> Outcome(end) == Refused(AfterFirst(held, first.value)))
  }

  /** Nothing has been attempted, and this is held. */
  predicate Waiting(s: State, held: Option<Error>) {
    s.end.None? && !s.attempted && s.tried == [] && s.best == OrNone(held) && held != Some(NoAccessMethod)
  }

  /** The first attempt decides what is told. */
  lemma FirstAttempt(env: Surroundings, level: nat, i: nat, s: State, held: Option<Error>)
    requires Waiting(s, held) && level != UNSUPPORTED && i < |env.registry| && env.registry[i].score == level
    ensures Tells(env, held, Last(env, level, i, s))
  {
    hide Trace, Last;
    LastStep(env, level, i, s);
    assert s.tried + [i] == [i];
    var next, end := Visit(env, level, i, s), Last(env, level, i, s);
    if !env.stops(level, i) {
      TriedGrows(env, level, i + 1, next);
      assert next.tried == [i] && next.tried <= end.tried;
      assert end.tried[..1] == [i];
      if next.end.None? && next.best != NoAccessMethod {
        ToldStays(env, level, i + 1, next);
      }
    }
  }

  /** Without a driver that is announced, no reason is left that has not been counted. */
  lemma {:induction false} AllCounted(registry: seq<Driver>, j: nat)
    requires FirstReason(registry) == None && j < |registry| && registry[j].score != ANNOUNCED
    ensures registry[j].reason == None || registry[j].reason == Some(NoAccessMethod)
    decreases |registry|
  {
    var n := |registry| - 1;
    if j < n {
      AllCounted(registry[..n], j);
    }
  }

  /** The second round of a search in which nothing was announced. */
  lemma {:induction false} SecondRound(env: Surroundings, i: nat, s: State)
    requires Waiting(s, FirstReason(env.registry)) && forall j :: 0 <= j < |env.registry| ==> env.registry[j].score != ANNOUNCED
    ensures Tells(env, FirstReason(env.registry), Last(env, POSSIBLE, i, s))
    decreases |env.registry| - i
  {
    hide Trace, Last, FirstReason;
    LastFrom(env, POSSIBLE, i, s);
    if i >= |env.registry| {
      LastFrom(env, UNSUPPORTED, 0, s);
    } else if env.registry[i].score == POSSIBLE {
      FirstAttempt(env, POSSIBLE, i, s, FirstReason(env.registry));
    } else {
      if FirstReason(env.registry) == None {
        AllCounted(env.registry, i);
      }
      LastStep(env, POSSIBLE, i, s);
      var next := Visit(env, POSSIBLE, i, s);
      if next.end.None? {
        SecondRound(env, i + 1, next);
      }
    }
  }

  /** The first round, up to the first driver that is announced. */
  lemma {:induction false} FirstRound(env: Surroundings, i: nat, s: State)
    requires i <= |env.registry| && Waiting(s, FirstReason(env.registry[..i]))
    requires forall j :: 0 <= j < i ==> env.registry[j].score != ANNOUNCED
    ensures Tells(env, FirstReason(env.registry[..BeforeAnnounced(env.registry, i)]), Last(env, ANNOUNCED, i, s))
    decreases |env.registry| - i
  {
    hide Trace, Last, FirstReason;
    LastFrom(env, ANNOUNCED, i, s);
    if i == |env.registry| {
      assert env.registry[..i] == env.registry;
      SecondRound(env, 0, s);
    } else if env.registry[i].score == ANNOUNCED {
      FirstAttempt(env, ANNOUNCED, i, s, FirstReason(env.registry[..i]));
    } else {
      OneMoreReason(env.registry, i);
      LastStep(env, ANNOUNCED, i, s);
      var next := Visit(env, ANNOUNCED, i, s);
      if next.end.None? {
        FirstRound(env, i + 1, next);
      }
    }
  }

  /**
   * What the user is told when no protocol opens the chip and nobody stops the search: what the first
   * attempt said, when that was about the key or nothing was held; otherwise the first reason that a driver
   * gave before it; and when there was no attempt, the first reason of all, or that there is no method.
   */
  lemma ToldError(env: Surroundings)
    ensures Tells(env, Held(env.registry), Last(env, ANNOUNCED, 0, START))
  {
    hide Trace, Last;
    assert env.registry[..0] == [];
    FirstRound(env, 0, START);
  }
}
