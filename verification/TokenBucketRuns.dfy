/** The critical sections of the token bucket emulator (warmup2.c) as atomic steps, and what holds
    in every run of the three threads. */
module TokenBucketRuns {
  import opened Basics

  /** Bucket depth, and the tokens each packet needs, in order of arrival. */
  datatype Input = Input(B: nat, need: seq<nat>)

  /** Every packet needs at least one token. */
  ghost predicate InputOk(p: Input) {
    forall i :: 0 <= i < |p.need| ==> p.need[i] >= 1
  }

  /** The shared variables. Queues hold packet numbers, newest first: packets enter in front and leave
      at the back. */
  datatype State = State(
    arrived: nat, packetDrop: nat, q1: seq<nat>, q2: seq<nat>, bottle: Option<nat>, served: seq<nat>,
    token: int, produced: nat, tokenDrop: nat, b: bool, tokenDone: bool, halted: bool)

  const INITIAL: State := State(0, 0, [], [], None, [], 0, 0, 0, false, false, false)

  function Oldest(q: seq<nat>): nat
    requires q != []
  {
    q[|q| - 1]
  }

  function ButOldest(q: seq<nat>): seq<nat>
    requires q != []
  {
    q[..|q| - 1]
  }

  /** The tokens packet x needs */
  function Need(p: Input, x: nat): nat {
    if x < |p.need| then p.need[x] else 0
  }

  /** The part the arrival and token threads share: one packet moves to Q2 if there are tokens for it. */
  function Release(p: Input, s: State): State {
    if s.q1 != [] && s.token >= Need(p, Oldest(s.q1)) then
      Forwarded(s.(token := s.token - Need(p, Oldest(s.q1))))
    else s
  }

  function Forwarded(s: State): State
    requires s.q1 != []
  {
    s.(q1 := ButOldest(s.q1), q2 := [Oldest(s.q1)] + s.q2, b := true)
  }

  /** One turn of the arrival thread: a packet that needs more tokens than the bucket holds is dropped. */
  function Arrive(p: Input, s: State): State {
    if Need(p, s.arrived) > p.B then Dropped(s) else Release(p, Joined(s))
  }

  function Dropped(s: State): State {
    s.(arrived := s.arrived + 1, packetDrop := s.packetDrop + 1)
  }

  function Joined(s: State): State {
    s.(arrived := s.arrived + 1, q1 := [s.arrived] + s.q1)
  }

  /** The token thread before the shared part. */
  function Produced(p: Input, s: State): State {
    var s1 := if s.token < p.B then s.(token := s.token + 1) else s.(tokenDrop := s.tokenDrop + 1);
    s1.(produced := s1.produced + 1)
  }

  /** One turn of the token thread. It ends when Q1 is empty and all packets have arrived. */
  function Tick(p: Input, s: State): State {
    Marked(p, Release(p, Produced(p, s)))
  }

  function Marked(p: Input, s: State): State {
    s.(tokenDone := s.q1 == [] && s.arrived == |p.need|)
  }

  /** The server's shutdown test */
  function Test(p: Input, s: State): State {
    s.(halted := s.q1 == [] && s.q2 == [] && s.arrived == |p.need|)
  }

  /** One turn of the server up to the service, and the turn after it */
  function Begin(p: Input, s: State): State {
    if s.q2 != [] then s.(bottle := Some(Oldest(s.q2)), q2 := ButOldest(s.q2)) else Test(p, s)
  }

  function Finish(p: Input, s: State): State {
    match s.bottle
    case None => s
    case Some(x) => Test(p, s.(served := [x] + s.served, bottle := None))
  }

  datatype Event = Arrival | Token | ServerBegin | ServerFinish

  predicate Enabled(p: Input, s: State, e: Event) {
    !s.halted &&
    match e
    case Arrival => s.arrived < |p.need|
    case Token => !s.tokenDone
    case ServerBegin => s.b && s.bottle.None?
    case ServerFinish => s.bottle.Some?
  }

  function Step(p: Input, s: State, e: Event): State {
    match e
    case Arrival => Arrive(p, s)
    case Token => Tick(p, s)
    case ServerBegin => Begin(p, s)
    case ServerFinish => Finish(p, s)
  }

  // ---- The invariant ----

  /** The packets among the first n that are not dropped, newest first. */
  function Accepted(p: Input, n: nat): seq<nat> {
    if n == 0 then [] else if Need(p, n - 1) <= p.B then [n - 1] + Accepted(p, n - 1) else Accepted(p, n - 1)
  }

  function InService(s: State): seq<nat> {
    match s.bottle case None => [] case Some(x) => [x]
  }

  /** The packets that have left Q1. */
  function Gone(s: State): seq<nat> {
    s.q2 + InService(s) + s.served
  }

  function Cost(p: Input, xs: seq<nat>): nat {
    if xs == [] then 0 else Need(p, xs[0]) + Cost(p, xs[1..])
  }

  /** The accepted packets are in the queues, in service or served, in order of arrival. */
  ghost predicate InOrder(p: Input, s: State) {
    && s.arrived <= |p.need| && s.q1 + Gone(s) == Accepted(p, s.arrived)
    && s.packetDrop + |Accepted(p, s.arrived)| == s.arrived
  }

  /** Tokens are conserved, fit the bucket, and are too few for the packet that waits. */
  ghost predicate Conforms(p: Input, s: State) {
    && 0 <= s.token <= p.B && s.produced == s.tokenDrop + s.token + Cost(p, Gone(s))
    && (s.q1 != [] ==> s.token < Need(p, Oldest(s.q1)))
  }

  ghost predicate FlagsOk(p: Input, s: State) {
    && (s.b <==> Gone(s) != [])
    && (s.tokenDone ==> s.q1 == [] && s.arrived == |p.need|)
    && (s.halted ==> s.q1 == [] && s.q2 == [] && s.bottle.None? && s.arrived == |p.need|)
  }

  ghost predicate Inv(p: Input, s: State) {
    InOrder(p, s) && Conforms(p, s) && FlagsOk(p, s)
  }

  lemma {:induction false} AcceptedFit(p: Input, n: nat)
    requires n <= |p.need|
    ensures forall x <- Accepted(p, n) :: x < n && Need(p, x) <= p.B
    ensures |Accepted(p, n)| <= n
  {
    if n > 0 { AcceptedFit(p, n - 1); }
  }

  /** In Q1 each packet fits the bucket and needs at least a token. */
  lemma Waiting(p: Input, s: State)
    requires InputOk(p) && InOrder(p, s)
    ensures forall x <- s.q1 :: 1 <= Need(p, x) <= p.B
  {
    AcceptedFit(p, s.arrived);
    forall x <- s.q1 ensures 1 <= Need(p, x) <= p.B {
      assert x in s.q1 + Gone(s);
    }
  }

  /** Moving the oldest packet keeps the order, and tokens change hands. */
  lemma ReleaseMoves(p: Input, s: State)
    requires s.q1 != []
    ensures var x, s' := Oldest(s.q1), Forwarded(s);
      s'.q1 + Gone(s') == s.q1 + Gone(s) && Gone(s') == [x] + Gone(s)
  {
    var x := Oldest(s.q1);
    assert s.q1 == ButOldest(s.q1) + [x];
  }

  /** A state in which the shared part runs. */
  ghost predicate Ready(p: Input, s: State) {
    && InOrder(p, s) && 0 <= s.token <= p.B && s.produced == s.tokenDrop + s.token + Cost(p, Gone(s))
    && (s.q1 != [] ==> s.token <= Need(p, Oldest(s.q1)) || |s.q1| == 1)
    && (s.b <==> Gone(s) != [])
  }

  lemma ReleaseTokens(p: Input, s: State)
    requires InputOk(p) && Ready(p, s) && s.q1 != [] && s.token >= Need(p, Oldest(s.q1))
    ensures Conforms(p, Release(p, s))
  {
    ReleaseMoves(p, s);
    Waiting(p, s);
    var s' := Release(p, s);
    assert Gone(s') == [Oldest(s.q1)] + Gone(s);
    assert s'.q1 != [] ==> Oldest(s'.q1) in s.q1;
  }

  lemma ReleaseKeeps(p: Input, s: State)
    requires InputOk(p) && Ready(p, s)
    ensures InOrder(p, Release(p, s)) && Conforms(p, Release(p, s))
    ensures Release(p, s).b <==> Gone(Release(p, s)) != []
  {
    if s.q1 != [] && s.token >= Need(p, Oldest(s.q1)) {
      ReleaseTokens(p, s);
      ReleaseMoves(p, s);
      assert Gone(Release(p, s)) == [Oldest(s.q1)] + Gone(s);
    }
  }

  lemma JoinedInOrder(p: Input, s: State)
    requires InOrder(p, s) && s.arrived < |p.need| && Need(p, s.arrived) <= p.B
    ensures InOrder(p, Joined(s)) && Gone(Joined(s)) == Gone(s)
  {
    var s1 := Joined(s);
    assert Gone(s1) == Gone(s);
    assert s1.q1 + Gone(s1) == [s.arrived] + (s.q1 + Gone(s));
  }

  lemma ArriveReady(p: Input, s: State)
    requires InputOk(p) && Inv(p, s) && s.arrived < |p.need| && Need(p, s.arrived) <= p.B
    ensures Ready(p, Joined(s)) && (Joined(s).tokenDone ==> s.tokenDone) && Joined(s).halted == s.halted
  {
    JoinedInOrder(p, s);
    assert s.q1 != [] ==> Oldest(Joined(s).q1) == Oldest(s.q1);
  }

  lemma ArriveFrom(p: Input, s: State)
    requires InputOk(p) && Ready(p, s) && !s.halted && !s.tokenDone
    ensures Inv(p, Release(p, s))
  {
    ReleaseKeeps(p, s);
  }

  lemma ArriveKeeps(p: Input, s: State)
    requires InputOk(p) && Inv(p, s) && Enabled(p, s, Arrival)
    ensures Inv(p, Arrive(p, s))
  {
    assert !s.tokenDone;
    if Need(p, s.arrived) <= p.B {
      ArriveReady(p, s);
      ArriveFrom(p, Joined(s));
      assert Arrive(p, s) == Release(p, Joined(s));
    } else {
      DroppedKeeps(p, s);
    }
  }

  lemma DroppedKeeps(p: Input, s: State)
    requires Inv(p, s) && s.arrived < |p.need| && Need(p, s.arrived) > p.B && !s.halted && !s.tokenDone
    ensures Inv(p, Dropped(s))
  {
    assert Gone(Dropped(s)) == Gone(s);
  }

  lemma TickReady(p: Input, s: State)
    requires InputOk(p) && Inv(p, s)
    ensures Ready(p, Produced(p, s)) && (Produced(p, s).tokenDrop > s.tokenDrop ==> s.q1 == [])
  {
    Waiting(p, s);
    assert s.q1 != [] ==> Oldest(s.q1) in s.q1;
    assert Gone(Produced(p, s)) == Gone(s);
  }

  lemma TickFrom(p: Input, s: State)
    requires InputOk(p) && Ready(p, s) && !s.halted
    ensures var s' := Release(p, s);
      Inv(p, s'.(tokenDone := s'.q1 == [] && s'.arrived == |p.need|)) && s'.tokenDrop == s.tokenDrop
  {
    ReleaseKeeps(p, s);
    DoneFlag(p, Release(p, s));
  }

  lemma DoneFlag(p: Input, s: State)
    requires InOrder(p, s) && Conforms(p, s) && (s.b <==> Gone(s) != []) && !s.halted
    ensures Inv(p, s.(tokenDone := s.q1 == [] && s.arrived == |p.need|))
  {
    assert Gone(s.(tokenDone := s.q1 == [] && s.arrived == |p.need|)) == Gone(s);
  }

  lemma TickKeeps(p: Input, s: State)
    requires InputOk(p) && Inv(p, s) && Enabled(p, s, Token)
    ensures Inv(p, Tick(p, s)) && (Tick(p, s).tokenDrop > s.tokenDrop ==> s.q1 == [])
  {
    TickReady(p, s);
    TickFrom(p, Produced(p, s));
  }

  lemma BeginKeeps(p: Input, s: State)
    requires InputOk(p) && Inv(p, s) && Enabled(p, s, ServerBegin)
    ensures Inv(p, Begin(p, s))
  {
    if s.q2 != [] {
      assert s.q2 == ButOldest(s.q2) + [Oldest(s.q2)];
    }
    assert Gone(Begin(p, s)) == Gone(s);
  }

  lemma FinishKeeps(p: Input, s: State)
    requires InputOk(p) && Inv(p, s) && Enabled(p, s, ServerFinish)
    ensures Inv(p, Finish(p, s))
  {
    assert Gone(Finish(p, s)) == Gone(s);
  }

  lemma StepKeeps(p: Input, s: State, e: Event)
    requires InputOk(p) && Inv(p, s) && Enabled(p, s, e)
    ensures Inv(p, Step(p, s, e))
  {
    match e
    case Arrival => ArriveKeeps(p, s);
    case Token => TickKeeps(p, s);
    case ServerBegin => BeginKeeps(p, s);
    case ServerFinish => FinishKeeps(p, s);
  }

  // ---- Runs ----

  /** A run: any interleaving of the threads' steps. */
  ghost predicate Run(p: Input, ss: seq<State>, es: seq<Event>) {
    && |ss| == |es| + 1 && ss[0] == INITIAL
    && forall i :: 0 <= i < |es| ==> Goes(p, ss[i], es[i], ss[i + 1])
  }

  ghost predicate Goes(p: Input, s: State, e: Event, s': State) {
    Enabled(p, s, e) && s' == Step(p, s, e)
  }

  lemma {:induction false} RunKeeps(p: Input, ss: seq<State>, es: seq<Event>, i: nat)
    requires InputOk(p) && Run(p, ss, es) && i < |ss|
    ensures Inv(p, ss[i])
  {
    if i > 0 {
      RunKeeps(p, ss, es, i - 1);
      assert Goes(p, ss[i - 1], es[i - 1], ss[i]);
      StepKeeps(p, ss[i - 1], es[i - 1]);
    }
  }

  /** Conformance: between any two points of a run the packets that leave Q1 take no more tokens than
      the bucket holds and the tokens that arrive meanwhile; tokens are neither lost nor made. */
  lemma SegmentConforms(p: Input, ss: seq<State>, es: seq<Event>, i: nat, j: nat)
    requires InputOk(p) && Run(p, ss, es) && i <= j < |ss|
    ensures Cost(p, Gone(ss[j])) - Cost(p, Gone(ss[i])) <= p.B + ss[j].produced - ss[i].produced
    ensures ss[j].produced == ss[j].tokenDrop + ss[j].token + Cost(p, Gone(ss[j])) && 0 <= ss[j].token <= p.B
  {
    RunKeeps(p, ss, es, i);
    RunKeeps(p, ss, es, j);
    DropsGrow(p, ss, es, i, j);
  }

  lemma {:induction false} DropsGrow(p: Input, ss: seq<State>, es: seq<Event>, i: nat, j: nat)
    requires Run(p, ss, es) && i <= j < |ss|
    ensures ss[i].tokenDrop <= ss[j].tokenDrop
    decreases j - i
  {
    if i < j {
      DropsGrow(p, ss, es, i, j - 1);
      assert Goes(p, ss[j - 1], es[j - 1], ss[j]);
    }
  }

  /** No token is dropped while a packet waits. */
  lemma NoWaste(p: Input, ss: seq<State>, es: seq<Event>, i: nat)
    requires InputOk(p) && Run(p, ss, es) && i < |es| && ss[i].q1 != []
    ensures ss[i + 1].tokenDrop == ss[i].tokenDrop && ss[i].token < Need(p, Oldest(ss[i].q1))
  {
    RunKeeps(p, ss, es, i);
    assert Goes(p, ss[i], es[i], ss[i + 1]);
    if es[i].Token? { TickKeeps(p, ss[i]); }
  }

  /** Every packet that has arrived is in exactly one place, and the places hold the accepted packets
      in order of arrival; when the server shuts down, all packets have been served or dropped, and
      they were served in order of arrival. */
  lemma Pipeline(p: Input, ss: seq<State>, es: seq<Event>, i: nat)
    requires InputOk(p) && Run(p, ss, es) && i < |ss|
    ensures ss[i].q1 + ss[i].q2 + InService(ss[i]) + ss[i].served == Accepted(p, ss[i].arrived)
    ensures ss[i].packetDrop + |ss[i].q1| + |ss[i].q2| + |InService(ss[i])| + |ss[i].served| == ss[i].arrived
    ensures ss[i].halted ==> ss[i].served == Accepted(p, |p.need|) && |ss[i].served| + ss[i].packetDrop == |p.need|
  {
    RunKeeps(p, ss, es, i);
    assert ss[i].q1 + ss[i].q2 + InService(ss[i]) + ss[i].served == ss[i].q1 + Gone(ss[i]);
  }

  // ---- Progress ----

  /** The tokens still missing for the packets in Q1. */
  function Missing(p: Input, s: State): int {
    if s.q1 == [] then 0 else Cost(p, s.q1) - s.token
  }

  /** An upper bound on the steps left once all packets have arrived. */
  function Rank(p: Input, s: State): int {
    Missing(p, s) + 3 * |s.q1| + 2 * |s.q2| + |InService(s)| + if s.halted then 0 else 1
  }

  lemma {:induction false} CostSplit(p: Input, a: seq<nat>, b: seq<nat>)
    ensures Cost(p, a + b) == Cost(p, a) + Cost(p, b)
  {
    if a == [] {
      assert a + b == b;
    } else {
      CostSplit(p, a[1..], b);
      assert (a + b)[1..] == a[1..] + b;
    }
  }

  lemma CostOldest(p: Input, q: seq<nat>)
    requires q != []
    ensures Cost(p, q) == Cost(p, ButOldest(q)) + Need(p, Oldest(q))
  {
    assert q == ButOldest(q) + [Oldest(q)];
    CostSplit(p, ButOldest(q), [Oldest(q)]);
  }

  /** While packets wait, each token brings them one token nearer; when none waits nothing is missing. */
  lemma TickHelps(p: Input, s: State)
    requires InputOk(p) && Inv(p, s)
    ensures Missing(p, s) >= 0 && (Missing(p, s) == 0 <==> s.q1 == [])
    ensures Enabled(p, s, Token) ==> Missing(p, Tick(p, s)) == if s.q1 == [] then 0 else Missing(p, s) - 1
    ensures Enabled(p, s, Token) ==> |Tick(p, s).q1| + |Tick(p, s).q2| == |s.q1| + |s.q2| && |Tick(p, s).q1| <= |s.q1|
  {
    if s.q1 != [] {
      Waiting(p, s);
      assert Oldest(s.q1) in s.q1;
      CostOldest(p, s.q1);
      if s.token + 1 == Need(p, Oldest(s.q1)) && |s.q1| > 1 { CostOldest(p, ButOldest(s.q1)); }
    }
  }

  lemma MissingStep(p: Input, s: State, e: Event, s': State)
    requires InputOk(p) && Inv(p, s) && s.arrived == |p.need| && Goes(p, s, e, s')
    ensures
      && s'.arrived == |p.need| && s'.produced == s.produced + (if e.Token? then 1 else 0)
      && Missing(p, s) >= 0 && Missing(p, s') ==
        if e.Token? && Missing(p, s) > 0 then Missing(p, s) - 1 else Missing(p, s)
  {
    TickHelps(p, s);
  }

  lemma {:induction false} MissingExact(p: Input, ss: seq<State>, es: seq<Event>, i: nat, j: nat)
    requires InputOk(p) && Run(p, ss, es) && i <= j < |ss| && ss[i].arrived == |p.need|
    ensures ss[j].arrived == |p.need| && ss[j].produced >= ss[i].produced
    ensures Missing(p, ss[j]) == Max(Missing(p, ss[i]) - (ss[j].produced - ss[i].produced), 0)
    decreases j - i
  {
    if i == j {
      MissingAt(p, ss, es, i);
    } else {
      MissingExact(p, ss, es, i, j - 1);
      MissingNext(p, ss, es, j - 1);
    }
  }

  lemma MissingAt(p: Input, ss: seq<State>, es: seq<Event>, i: nat)
    requires InputOk(p) && Run(p, ss, es) && i < |ss|
    ensures Missing(p, ss[i]) >= 0 && (Missing(p, ss[i]) == 0 <==> ss[i].q1 == [])
  {
    RunKeeps(p, ss, es, i);
    TickHelps(p, ss[i]);
  }

  lemma MissingNext(p: Input, ss: seq<State>, es: seq<Event>, i: nat)
    requires InputOk(p) && Run(p, ss, es) && i < |es| && ss[i].arrived == |p.need|
    ensures ss[i + 1].arrived == |p.need| && ss[i].produced <= ss[i + 1].produced <= ss[i].produced + 1
    ensures Missing(p, ss[i + 1]) == Max(Missing(p, ss[i]) - (ss[i + 1].produced - ss[i].produced), 0)
  {
    RunKeeps(p, ss, es, i);
    assert Goes(p, ss[i], es[i], ss[i + 1]);
    MissingStep(p, ss[i], es[i], ss[i + 1]);
  }

  function Max(a: int, b: int): int {
    if a < b then b else a
  }

  /** Once all packets have arrived, Q1 is empty as soon as, and no sooner than, the missing tokens have
      come. */
  lemma Drains(p: Input, ss: seq<State>, es: seq<Event>, i: nat, j: nat)
    requires InputOk(p) && Run(p, ss, es) && i <= j < |ss| && ss[i].arrived == |p.need|
    ensures ss[j].q1 == [] <==> ss[j].produced - ss[i].produced >= Missing(p, ss[i])
  {
    MissingExact(p, ss, es, i, j);
    MissingAt(p, ss, es, j);
  }

  /** A step that is not an idle turn of the token or server thread. */
  predicate Useful(s: State, e: Event) {
    match e
    case Arrival => true
    case Token => s.q1 != []
    case ServerBegin => s.q2 != [] || s.q1 == []
    case ServerFinish => true
  }

  lemma Stuck(p: Input, s: State)
    requires InputOk(p) && Inv(p, s) && s.arrived == |p.need|
    ensures (forall f :: !(Enabled(p, s, f) && Useful(s, f))) <==> s.halted || s.packetDrop == |p.need|
  {
    assert |s.q1 + Gone(s)| == |p.need| - s.packetDrop;
    if s.packetDrop == |p.need| {
      assert s.q1 == [] && Gone(s) == [];
    } else if !s.halted {
      if s.bottle.Some? {
        assert Enabled(p, s, ServerFinish) && Useful(s, ServerFinish);
      } else if s.q1 != [] {
        assert Enabled(p, s, Token) && Useful(s, Token);
      } else {
        assert Gone(s) != [];
        assert Enabled(p, s, ServerBegin) && Useful(s, ServerBegin);
      }
    }
  }

  /** Once all packets have arrived, every useful step lowers the rank and no step raises it. */
  lemma RankFalls(p: Input, s: State, e: Event)
    requires InputOk(p) && Inv(p, s) && s.arrived == |p.need|
    ensures Rank(p, s) >= 0
    ensures Enabled(p, s, e) ==> Rank(p, Step(p, s, e)) <= Rank(p, s) - if Useful(s, e) then 1 else 0
  {
    TickHelps(p, s);
  }

  // ---- Shutdown ----

  /** Some packet fits the bucket. */
  ghost predicate SomeFits(p: Input) {
    exists k :: 0 <= k < |p.need| && p.need[k] <= p.B
  }

  /** Packets are accepted as soon as one that fits the bucket has arrived. */
  lemma {:induction false} AcceptedSome(p: Input, n: nat)
    requires n <= |p.need|
    ensures Accepted(p, n) != [] <==> exists k :: 0 <= k < n && p.need[k] <= p.B
  {
    if n > 0 {
      AcceptedSome(p, n - 1);
      assert Need(p, n - 1) == p.need[n - 1];
    }
  }

  /** How many of the steps between points i and j were useful. */
  ghost function UsefulSteps(ss: seq<State>, es: seq<Event>, i: nat, j: nat): nat
    requires i <= j < |ss| == |es| + 1
    decreases j - i
  {
    if i == j then 0 else UsefulSteps(ss, es, i, j - 1) + if Useful(ss[j - 1], es[j - 1]) then 1 else 0
  }

  /** The server starts only once a packet has left Q1, so it has not shut down while none has. */
  lemma {:induction false} NotStarted(p: Input, ss: seq<State>, es: seq<Event>, i: nat)
    requires InputOk(p) && Run(p, ss, es) && i < |ss| && Gone(ss[i]) == []
    ensures !ss[i].halted
  {
    if i > 0 {
      RunKeeps(p, ss, es, i - 1);
      assert Goes(p, ss[i - 1], es[i - 1], ss[i]);
      GoneStays(p, ss[i - 1], es[i - 1]);
      NotStarted(p, ss, es, i - 1);
    }
  }

  lemma GoneGrows(p: Input, s: State, e: Event)
    requires Enabled(p, s, e)
    ensures |Gone(Step(p, s, e))| >= |Gone(s)|
  {
  }

  /** What has left Q1 stays gone, and until then the server has no step. */
  lemma GoneStays(p: Input, s: State, e: Event)
    requires Inv(p, s) && Enabled(p, s, e) && Gone(Step(p, s, e)) == []
    ensures Gone(s) == [] && !e.ServerBegin? && !e.ServerFinish?
  {
    GoneGrows(p, s, e);
    assert |Gone(s)| == 0 && |s.q2| == 0 && |InService(s)| == 0;
  }

  /** If no packet fits the bucket, no run ever shuts down. */
  lemma NeverShutsDown(p: Input, ss: seq<State>, es: seq<Event>, i: nat)
    requires InputOk(p) && Run(p, ss, es) && i < |ss| && !SomeFits(p)
    ensures !ss[i].halted
  {
    RunKeeps(p, ss, es, i);
    AcceptedSome(p, ss[i].arrived);
    assert |ss[i].q1 + Gone(ss[i])| == 0;
    NotStarted(p, ss, es, i);
  }

  lemma UsefulNext(p: Input, ss: seq<State>, es: seq<Event>, i: nat)
    requires InputOk(p) && Run(p, ss, es) && i < |es| && ss[i].arrived == |p.need|
    ensures ss[i + 1].arrived == |p.need|
    ensures Rank(p, ss[i + 1]) <= Rank(p, ss[i]) - if Useful(ss[i], es[i]) then 1 else 0
  {
    MissingNext(p, ss, es, i);
    RunKeeps(p, ss, es, i);
    assert Goes(p, ss[i], es[i], ss[i + 1]);
    RankFalls(p, ss[i], es[i]);
  }

  lemma {:induction false} FewUseful(p: Input, ss: seq<State>, es: seq<Event>, i: nat, j: nat)
    requires InputOk(p) && Run(p, ss, es) && i <= j < |ss| && ss[i].arrived == |p.need|
    ensures ss[j].arrived == |p.need| && UsefulSteps(ss, es, i, j) + Rank(p, ss[j]) <= Rank(p, ss[i])
    decreases j - i
  {
    if i < j {
      FewUseful(p, ss, es, i, j - 1);
      UsefulNext(p, ss, es, j - 1);
    }
  }

  /** Shutdown, over every run, once all packets have arrived: there are at most Rank more useful steps, and
      where none is left the server has shut down if and only if some packet of the input fits the bucket. */
  lemma Shutdown(p: Input, ss: seq<State>, es: seq<Event>, i: nat, j: nat)
    requires InputOk(p) && Run(p, ss, es) && i <= j < |ss| && ss[i].arrived == |p.need|
    ensures UsefulSteps(ss, es, i, j) <= Rank(p, ss[i])
    ensures (forall f :: !(Enabled(p, ss[j], f) && Useful(ss[j], f))) ==> (ss[j].halted <==> SomeFits(p))
    ensures ss[j].halted ==> forall f :: !Enabled(p, ss[j], f)
  {
    FewUseful(p, ss, es, i, j);
    RunKeeps(p, ss, es, j);
    RankFalls(p, ss[j], Token);
    Stuck(p, ss[j]);
    AcceptedSome(p, |p.need|);
    if !SomeFits(p) {
      NeverShutsDown(p, ss, es, j);
    } else {
      assert |Accepted(p, |p.need|)| > 0;
    }
  }

  lemma OneArrival(p: Input)
    requires |p.need| == 1
    ensures Run(p, [INITIAL, Arrive(p, INITIAL)], [Arrival]) && Arrive(p, INITIAL).arrived == 1
  {
  }

  /** A bucket of depth 1 and one packet that needs 2 tokens: the packet is dropped on arrival, and from then
      on nothing useful can happen although the server has not shut down. */
  lemma DroppedForever(p: Input, ss: seq<State>, es: seq<Event>, i: nat)
    requires p == Input(1, [2]) && Run(p, ss, es) && i < |ss|
    ensures !ss[i].halted
    ensures ss[i].arrived == 1 ==> forall f :: !(Enabled(p, ss[i], f) && Useful(ss[i], f))
    ensures Run(p, [INITIAL, Arrive(p, INITIAL)], [Arrival]) && Arrive(p, INITIAL).arrived == 1
  {
    OneArrival(p);
    assert !SomeFits(p);
    NeverShutsDown(p, ss, es, i);
    RunKeeps(p, ss, es, i);
    if ss[i].arrived == 1 {
      AcceptedSome(p, 1);
      Stuck(p, ss[i]);
    }
  }
}
