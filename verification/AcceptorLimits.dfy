/** The exact conditions under which Join and StopAccept of net/brpc/acceptor.cpp keep their promises. */
module AcceptorLimits {
  import opened Acceptor

  // ---- Runs in pieces ----

  lemma {:induction false} ExecConcat(s: State, a: seq<Action>, b: seq<Action>)
    ensures Exec(s, a + b) == Exec(Exec(s, a), b)
    decreases |a|
  {
    hide Step;
    if a == [] {
      assert a + b == b;
    } else {
      assert (a + b)[0] == a[0] && (a + b)[1..] == a[1..] + b;
      ExecConcat(Step(s, a[0]), a[1..], b);
    }
  }

  lemma ExecOne(s: State, a: Action)
    ensures Exec(s, [a]) == Step(s, a)
  {
    hide Step;
    assert [a][1..] == [];
    assert Exec(Step(s, a), []) == Step(s, a);
  }

  lemma ExecTwo(s: State, a: Action, b: Action)
    ensures Exec(s, [a, b]) == Step(Step(s, a), b)
  {
    hide Step, Exec;
    ExecOne(s, a);
    ExecOne(Step(s, a), b);
    assert [a, b] == [a] + [b];
    ExecConcat(s, [a], [b]);
  }

  lemma ExecFour(s: State, a: Action, b: Action, c: Action, d: Action)
    ensures Exec(s, [a, b, c, d]) == Step(Step(Step(Step(s, a), b), c), d)
  {
    hide Step, Exec;
    ExecTwo(s, a, b);
    ExecTwo(Step(Step(s, a), b), c, d);
    assert [a, b, c, d] == [a, b] + [c, d];
    ExecConcat(s, [a, b], [c, d]);
  }

  /** The descriptors that a run starts with, in order. */
  function Descriptors(run: seq<Action>): (ds: seq<int>) {
    if run == [] then []
    else (if run[0].Start? then [run[0].fd] else []) + Descriptors(run[1..])
  }

  lemma {:induction false} DescriptorsConcat(a: seq<Action>, b: seq<Action>)
    ensures Descriptors(a + b) == Descriptors(a) + Descriptors(b)
    decreases |a|
  {
    if a == [] {
      assert a + b == b;
    } else {
      assert (a + b)[0] == a[0] && (a + b)[1..] == a[1..] + b;
      DescriptorsConcat(a[1..], b);
    }
  }

  lemma {:induction false} SaneIff(run: seq<Action>)
    ensures Sane(run) <==> 0 !in Descriptors(run)
  {
    if run != [] {
      SaneIff(run[1..]);
      assert run == [run[0]] + run[1..];
    }
  }

  // ---- One round after another ----

  /** Nothing is going on: the acceptor can be started. */
  ghost predicate Clean(s: State) {
    && s.status in {Uninitialized, Ready} && s.conns == {} && s.sockets == map[]
    && s.handler.Quiet? && s.joiner.Away? && s.round + 1 !in s.stoppers
    && (forall r <- s.stoppers :: r <= s.round)
  }

  function StopRun(r: nat): (run: seq<Action>) { [StopMark, StopClose(r), StopList(r), StopEnd(r)] }

  /** A round without connections, from start to join. */
  function Round(fd: int, r: nat): (run: seq<Action>) {
    [Start(fd)] + StopRun(r) + [RecycleAcception, JoinEnter, JoinWake, JoinFinish]
  }

  /** The state of a running round with one accepted socket in the hands of the handler. */
  function Accepted(s: State, fd: int): (s': State) {
    State(Running, fd, s.round + 1, Listening, {}, map[s.nextId := Sock(s.round + 1, false)], s.nextId + 1,
          Holding(s.nextId), s.stoppers, Away)
  }

  function AcceptRun(fd: int): (run: seq<Action>) { [Start(fd), AcceptBegin, AcceptCreate, AcceptAddress] }

  lemma Accepts(s: State, fd: int)
    requires Clean(s) && fd >= 0
    ensures Exec(s, AcceptRun(fd)) == Accepted(s, fd)
  {
    ExecFour(s, Start(fd), AcceptBegin, AcceptCreate, AcceptAddress);
    hide Exec;
    var t := Step(Step(s, Start(fd)), AcceptBegin);
    assert t == State(Running, fd, s.round + 1, Listening, {}, map[], s.nextId, Looping, s.stoppers, Away);
  }

  /** StopAccept without connections, undisturbed. */
  lemma StopsAlone(s: State, r: nat)
    requires s.status.Running? && s.round == r && s.conns == {} && s.acception.Listening?
    ensures Exec(s, StopRun(r)) == s.(status := Stopping, acception := Failed, stoppers := s.stoppers[r := Stopped])
  {
    ExecFour(s, StopMark, StopClose(r), StopList(r), StopEnd(r));
    hide Exec;
    var t := Step(Step(s, StopMark), StopClose(r));
    assert t == s.(status := Stopping, acception := Failed, stoppers := s.stoppers[r := Closed]);
    assert Step(t, StopList(r)) == t.(stoppers := s.stoppers[r := Working({})]);
  }

  lemma CleanRound(s: State, fd: int)
    requires Clean(s) && fd > 0
    ensures var s' := Exec(s, Round(fd, s.round + 1)); Clean(s') && s'.round == s.round + 1
  {
    hide Exec;
    var r := s.round + 1;
    var s1 := Step(s, Start(fd));
    ExecOne(s, Start(fd));
    StopsAlone(s1, r);
    var s2 := s1.(status := Stopping, acception := Failed, stoppers := s1.stoppers[r := Stopped]);
    Joined(s2);
    ExecConcat(s, [Start(fd)], StopRun(r));
    ExecConcat(s, [Start(fd)] + StopRun(r), [RecycleAcception, JoinEnter, JoinWake, JoinFinish]);
  }

  lemma Joined(s: State)
    requires s.status.Stopping? && s.acception.Failed? && s.handler.Quiet? && s.conns == {} && s.joiner.Away?
    ensures Exec(s, [RecycleAcception, JoinEnter, JoinWake, JoinFinish]) ==
            s.(status := Ready, acception := Recycled, listenedFd := -1)
  {
    ExecFour(s, RecycleAcception, JoinEnter, JoinWake, JoinFinish);
  }

  // ---- Join ----

  /**
    A descriptor of 0 is accepted by Start but taken for "not listening" by Join: the wait ends
    at once, with a socket in the hands of the accept handler.
  */
  lemma DescriptorZeroEscapesJoin(s: State)
    requires Clean(s)
    ensures var s' := Exec(s, AcceptRun(0) + [JoinEnter, JoinWake]);
            s' == Accepted(s, 0).(joiner := Finishing) && s'.sockets != map[]
  {
    hide Exec;
    Accepts(s, 0);
    ExecConcat(s, AcceptRun(0), [JoinEnter, JoinWake]);
    ExecTwo(Accepted(s, 0), JoinEnter, JoinWake);
    assert s.nextId in Accepted(s, 0).sockets;
  }

  /** What JoinWaitsForAll concludes of one run. */
  predicate Waited(before: seq<Action>, after: seq<Action>) {
    var s := Exec(INIT, before);
    s.joiner.Finishing? ==>
      s.sockets == map[] && forall id <- Exec(s, after).sockets :: Exec(s, after).sockets[id].round > s.round
  }

  /** Join keeps its promise in every run that is started with these descriptors. */
  ghost predicate JoinHolds(ds: seq<int>) {
    forall before, after :: Descriptors(before) + Descriptors(after) == ds ==> Waited(before, after)
  }

  /** Rounds without connections up to the first descriptor of 0, which is then joined too early. */
  function JoinRefutation(ds: seq<int>, r: nat): (run: seq<Action>) {
    if ds == [] then []
    else if ds[0] == 0 then AcceptRun(0) + [JoinEnter, JoinWake]
    else if ds[0] < 0 then [Start(ds[0])] + JoinRefutation(ds[1..], r)
    else Round(ds[0], r) + JoinRefutation(ds[1..], r + 1)
  }

  function Starts(ds: seq<int>): (run: seq<Action>) {
    if ds == [] then [] else [Start(ds[0])] + Starts(ds[1..])
  }

  /** The starts that are left over after that. */
  function Leftover(ds: seq<int>): (rest: seq<int>) {
    if ds == [] || ds[0] == 0 then (if ds == [] then [] else ds[1..]) else Leftover(ds[1..])
  }

  lemma {:induction false} StartsDescriptors(ds: seq<int>)
    ensures Descriptors(Starts(ds)) == ds
  {
    if ds != [] {
      StartsDescriptors(ds[1..]);
      assert Starts(ds)[0] == Start(ds[0]) && Starts(ds)[1..] == Starts(ds[1..]);
      assert ds == [ds[0]] + ds[1..];
    }
  }

  lemma AcceptDescriptors(fd: int, more: seq<Action>)
    ensures Descriptors(AcceptRun(fd) + more) == [fd] + Descriptors(more)
  {
    DescriptorsConcat(AcceptRun(fd), more);
    DescriptorsConcat([Start(fd), AcceptBegin], [AcceptCreate, AcceptAddress]);
    assert AcceptRun(fd) == [Start(fd), AcceptBegin] + [AcceptCreate, AcceptAddress];
  }

  lemma NoStarts(a: Action, b: Action)
    requires !a.Start? && !b.Start?
    ensures Descriptors([a, b]) == [] && Descriptors([a]) == []
  {
    assert [a, b][1..] == [b] && [b][1..] == [] && [a][1..] == [];
    assert Descriptors([b]) == Descriptors([]);
  }

  lemma StopDescriptors(r: nat)
    ensures Descriptors(StopRun(r)) == []
  {
    DescriptorsConcat([StopMark, StopClose(r)], [StopList(r), StopEnd(r)]);
    NoStarts(StopMark, StopClose(r));
    NoStarts(StopList(r), StopEnd(r));
    assert StopRun(r) == [StopMark, StopClose(r)] + [StopList(r), StopEnd(r)];
  }

  lemma RoundDescriptors(fd: int, r: nat)
    ensures Descriptors(Round(fd, r)) == [fd]
  {
    hide Descriptors;
    StopDescriptors(r);
    DescriptorsConcat([Start(fd)], StopRun(r));
    DescriptorsConcat([Start(fd)] + StopRun(r), [RecycleAcception, JoinEnter, JoinWake, JoinFinish]);
    EndDescriptors(fd);
  }

  lemma EndDescriptors(fd: int)
    ensures Descriptors([Start(fd)]) == [fd]
    ensures Descriptors([RecycleAcception, JoinEnter, JoinWake, JoinFinish]) == []
    ensures Descriptors([JoinEnter, JoinWake]) == []
  {
    DescriptorsConcat([RecycleAcception, JoinEnter], [JoinWake, JoinFinish]);
    NoStarts(RecycleAcception, JoinEnter);
    NoStarts(JoinWake, JoinFinish);
    NoStarts(JoinEnter, JoinWake);
    assert [RecycleAcception, JoinEnter, JoinWake, JoinFinish] ==
           [RecycleAcception, JoinEnter] + [JoinWake, JoinFinish];
  }

  /** A Start with a negative descriptor does nothing. */
  lemma NegativeStart(s: State, fd: int, run: seq<Action>)
    requires fd < 0
    ensures Exec(s, [Start(fd)] + run) == Exec(s, run)
  {
    assert ([Start(fd)] + run)[1..] == run;
  }

  lemma {:induction false} JoinRefutes(s: State, ds: seq<int>)
    requires Clean(s) && 0 in ds
    ensures var s' := Exec(s, JoinRefutation(ds, s.round + 1)); s'.joiner.Finishing? && s'.sockets != map[]
    ensures Descriptors(JoinRefutation(ds, s.round + 1)) + Leftover(ds) == ds
    decreases |ds|
  {
    hide Exec, Step, Clean, Descriptors;
    assert ds == [ds[0]] + ds[1..];
    var r := s.round + 1;
    EndDescriptors(ds[0]);
    if ds[0] == 0 {
      DescriptorZeroEscapesJoin(s);
      AcceptDescriptors(0, [JoinEnter, JoinWake]);
    } else if ds[0] < 0 {
      NegativeStart(s, ds[0], JoinRefutation(ds[1..], r));
      JoinRefutes(s, ds[1..]);
      DescriptorsConcat([Start(ds[0])], JoinRefutation(ds[1..], r));
    } else {
      CleanRound(s, ds[0]);
      RoundDescriptors(ds[0], r);
      JoinRefutes(Exec(s, Round(ds[0], r)), ds[1..]);
      ExecConcat(s, Round(ds[0], r), JoinRefutation(ds[1..], r + 1));
      DescriptorsConcat(Round(ds[0], r), JoinRefutation(ds[1..], r + 1));
    }
  }

  /** Join keeps its promise in every interleaving exactly when no descriptor is 0. */
  lemma JoinHoldsIff(ds: seq<int>)
    ensures JoinHolds(ds) <==> 0 !in ds
  {
    hide Exec, Step;
    if 0 !in ds {
      forall before, after | Descriptors(before) + Descriptors(after) == ds ensures Waited(before, after) {
        SaneIff(before);
        SaneIff(after);
        if Exec(INIT, before).joiner.Finishing? {
          JoinWaitsForAll(before, after);
        }
      }
    } else {
      var before, after := JoinRefutation(ds, 1), Starts(Leftover(ds));
      JoinRefutes(INIT, ds);
      StartsDescriptors(Leftover(ds));
      assert !Waited(before, after);
    }
  }

  // ---- StopAccept ----

  /** What StopCaresForAll concludes of one run. */
  ghost predicate Cared(run: seq<Action>) {
    var s := Exec(INIT, run);
    forall r <- s.stoppers, id <- s.conns ::
      s.stoppers[r].Stopped? && id in s.sockets && s.sockets[id].round == r ==> CaredFor(s, id)
  }

  /** StopAccept keeps its promise in every run that is started with these descriptors. */
  ghost predicate StopHolds(ds: seq<int>) {
    forall run :: Descriptors(run) == ds ==> Cared(run)
  }

  /** Some start that counts follows a start with descriptor 0. */
  predicate Risky(ds: seq<int>) {
    exists i, j :: 0 <= i < j < |ds| && ds[i] == 0 && ds[j] >= 0
  }

  predicate Counts(ds: seq<int>) {
    exists j :: 0 <= j < |ds| && ds[j] >= 0
  }

  lemma RiskyFirst(ds: seq<int>)
    requires ds != []
    ensures Risky(ds) <==> (ds[0] == 0 && Counts(ds[1..])) || Risky(ds[1..])
  {
    if i, j :| 0 <= i < j < |ds| && ds[i] == 0 && ds[j] >= 0 {
      assert ds[1..][j - 1] == ds[j];
      if i > 0 {
        assert ds[1..][i - 1] == ds[i];
      }
    }
    if j :| 0 <= j < |ds[1..]| && ds[1..][j] >= 0 {
      assert ds[j + 1] >= 0;
    }
    if i, j :| 0 <= i < j < |ds[1..]| && ds[1..][i] == 0 && ds[1..][j] >= 0 {
      assert ds[i + 1] == 0 && ds[j + 1] >= 0;
    }
  }

  lemma CountsFirst(ds: seq<int>)
    requires ds != []
    ensures Counts(ds) <==> ds[0] >= 0 || Counts(ds[1..])
  {
    if j :| 0 <= j < |ds| && ds[j] >= 0 {
      assert j > 0 ==> ds[1..][j - 1] == ds[j];
    }
    if j :| 0 <= j < |ds[1..]| && ds[1..][j] >= 0 {
      assert ds[j + 1] >= 0;
    }
  }

  // The last round, whatever its descriptor.

  /** Sockets are numbered upwards. */
  ghost predicate Numbered(s: State) {
    && (forall id <- s.conns :: id < s.nextId)
    && (s.handler.Created? || s.handler.Holding? || s.handler.MustFail? ==> s.handler.id < s.nextId)
  }

  /** All sockets are of this round, which does not go back to running once it is being stopped. */
  ghost predicate LastRound(s: State) {
    && (s.round in s.stoppers ==> !s.status.Running?) && (forall r <- s.stoppers :: r <= s.round)
    && Numbered(s) && (forall id <- s.sockets :: s.sockets[id].round == s.round) && Stops(s)
  }

  lemma StepNumbered(s: State, a: Action)
    requires Numbered(s)
    ensures Numbered(Step(s, a))
  {
  }

  lemma StepRounds(s: State, a: Action)
    requires LastRound(s) && (a.Start? ==> a.fd < 0)
    ensures var s' := Step(s, a);
            && (s'.round in s'.stoppers ==> !s'.status.Running?) && (forall r <- s'.stoppers :: r <= s'.round)
            && (forall id <- s'.sockets :: s'.sockets[id].round == s'.round)
  {
    hide Stops, Numbered;
  }

  lemma StepStopsOnce(s: State, a: Action)
    requires LastRound(s) && (a.Start? ==> a.fd < 0)
    ensures Stops(Step(s, a))
  {
  }

  lemma {:induction false} RunLastRound(s: State, run: seq<Action>)
    requires LastRound(s) && !Counts(Descriptors(run))
    ensures LastRound(Exec(s, run))
    decreases |run|
  {
    hide Step;
    if run != [] {
      var a := run[0];
      if a.Start? {
        CountsFirst(Descriptors(run));
        assert Descriptors(run)[1..] == Descriptors(run[1..]);
      } else {
        assert Descriptors(run) == Descriptors(run[1..]);
      }
      StepNumbered(s, a);
      StepRounds(s, a);
      StepStopsOnce(s, a);
      hide Numbered, Stops;
      RunLastRound(Step(s, a), run[1..]);
    }
  }

  lemma Restarts(s: State, fd: int)
    requires Inv(s) && s.status in {Uninitialized, Ready} && fd >= 0
    ensures LastRound(Step(s, Start(fd)))
  {
    assert s.handler.Quiet? && s.sockets == map[];
  }

  /** From a state of the invariant, descriptors that are not risky keep the promise. */
  lemma {:induction false} RunCares(s: State, run: seq<Action>)
    requires Inv(s) && !Risky(Descriptors(run))
    ensures Stops(Exec(s, run))
    decreases |run|
  {
    hide Step, LifeCycle, Sockets, Stops, Joins, LastRound;
    if run == [] {
    } else {
      var a := run[0];
      if a.Start? {
        RiskyFirst(Descriptors(run));
        assert Descriptors(run)[1..] == Descriptors(run[1..]);
      } else {
        assert Descriptors(run) == Descriptors(run[1..]);
      }
      if a.Start? && a.fd == 0 && s.status in {Uninitialized, Ready} {
        Restarts(s, 0);
        RunLastRound(Step(s, a), run[1..]);
        LastRoundStops(Exec(Step(s, a), run[1..]));
      } else {
        if a.Start? && a.fd == 0 {
          IdleStart(s);
        } else {
          StepLifeCycle(s, a);
          StepSockets(s, a);
          StepStops(s, a);
          StepJoins(s, a);
        }
        RunCares(Step(s, a), run[1..]);
      }
    }
  }

  lemma LastRoundStops(s: State)
    requires LastRound(s)
    ensures Stops(s)
  {
  }

  lemma IdleStart(s: State)
    requires s.status !in {Uninitialized, Ready}
    ensures forall fd :: Step(s, Start(fd)) == s
  {
  }

  // A second start after descriptor 0.

  /** A connection that its round's StopAccept has forgotten, in an acceptor that runs. */
  predicate Forgotten(s: State) {
    && s.status.Running?
    && exists r, id :: r in s.stoppers && s.stoppers[r].Stopped? && id in s.conns && id in s.sockets
                       && s.sockets[id] == Sock(r, false) && s.handler != MustFail(id)
  }

  function EarlyEnd(r: nat): (run: seq<Action>) {
    AcceptRun(0) + StopRun(r) + [JoinEnter, JoinWake] + [JoinFinish]
  }

  /** StopAccept and Join are through while the accept handler holds a socket. */
  ghost predicate EndedEarly(s: State, r: nat, id: nat) {
    && s.status.Ready? && s.handler == Holding(id) && r in s.stoppers && s.stoppers[r].Stopped?
    && id in s.sockets && s.sockets[id] == Sock(r, false)
  }

  lemma EndsEarly(s: State)
    requires Clean(s)
    ensures EndedEarly(Exec(s, EarlyEnd(s.round + 1)), s.round + 1, s.nextId)
  {
    hide Exec;
    var r := s.round + 1;
    Accepts(s, 0);
    var s1 := Accepted(s, 0);
    StopsAlone(s1, r);
    var s2 := s1.(status := Stopping, acception := Failed, stoppers := s1.stoppers[r := Stopped]);
    ExecTwo(s2, JoinEnter, JoinWake);
    var s3 := s2.(joiner := Finishing);
    assert Step(Step(s2, JoinEnter), JoinWake) == s3;
    ExecOne(s3, JoinFinish);
    ExecConcat(s, AcceptRun(0), StopRun(r));
    ExecConcat(s, AcceptRun(0) + StopRun(r), [JoinEnter, JoinWake]);
    ExecConcat(s, AcceptRun(0) + StopRun(r) + [JoinEnter, JoinWake], [JoinFinish]);
  }

  /**
    With the descriptor 0 StopAccept and Join both come to an end while the accept handler holds
    a socket; after the next Start the handler enters it as if it belonged to the new round.
  */
  lemma DescriptorZeroEscapesStop(s: State, r: nat, id: nat, fd: int)
    requires EndedEarly(s, r, id) && fd >= 0
    ensures Forgotten(Exec(s, [Start(fd), AcceptInsert]))
  {
    ExecTwo(s, Start(fd), AcceptInsert);
    var s' := Step(Step(s, Start(fd)), AcceptInsert);
    assert r in s'.stoppers && id in s'.conns && s'.sockets[id] == Sock(r, false);
  }

  /** Starts with the descriptors in order, and what makes StopAccept fail if anything can. */
  function StopRefutation(ds: seq<int>, r: nat): (run: seq<Action>) {
    if ds == [] then []
    else if ds[0] == 0 then EarlyEnd(r) + LateEntry(ds[1..])
    else if ds[0] < 0 then [Start(ds[0])] + StopRefutation(ds[1..], r)
    else Round(ds[0], r) + StopRefutation(ds[1..], r + 1)
  }

  function LateEntry(ds: seq<int>): (run: seq<Action>) {
    if ds == [] then []
    else if ds[0] < 0 then [Start(ds[0])] + LateEntry(ds[1..])
    else [Start(ds[0]), AcceptInsert] + Starts(ds[1..])
  }

  lemma {:induction false} ForgottenStays(s: State, ds: seq<int>)
    requires Forgotten(s)
    ensures Exec(s, Starts(ds)) == s
  {
    hide Step, Forgotten;
    if ds != [] {
      assert Starts(ds)[0] == Start(ds[0]) && Starts(ds)[1..] == Starts(ds[1..]);
      assert s.status.Running? by { ForgottenRuns(s); }
      IdleStart(s);
      ForgottenStays(s, ds[1..]);
    }
  }

  lemma ForgottenRuns(s: State)
    requires Forgotten(s)
    ensures s.status.Running?
  {
  }

  lemma {:induction false} LateEntryForgets(s: State, r: nat, id: nat, ds: seq<int>)
    requires EndedEarly(s, r, id)
    ensures Counts(ds) ==> Forgotten(Exec(s, LateEntry(ds)))
    ensures Descriptors(LateEntry(ds)) == ds
    decreases |ds|
  {
    hide Exec, Step, EndedEarly, Forgotten, Descriptors, Counts;
    NothingCounts();
    if ds != [] {
      assert ds == [ds[0]] + ds[1..];
      CountsFirst(ds);
      EndDescriptors(ds[0]);
      if ds[0] < 0 {
        NegativeStart(s, ds[0], LateEntry(ds[1..]));
        LateEntryForgets(s, r, id, ds[1..]);
        DescriptorsConcat([Start(ds[0])], LateEntry(ds[1..]));
      } else {
        DescriptorZeroEscapesStop(s, r, id, ds[0]);
        var two := [Start(ds[0]), AcceptInsert];
        ForgottenStays(Exec(s, two), ds[1..]);
        ExecConcat(s, two, Starts(ds[1..]));
        DescriptorsConcat(two, Starts(ds[1..]));
        DescriptorsConcat([Start(ds[0])], [AcceptInsert]);
        NoStarts(AcceptInsert, AcceptInsert);
        assert two == [Start(ds[0])] + [AcceptInsert];
        StartsDescriptors(ds[1..]);
      }
    }
  }

  lemma NothingCounts()
    ensures !Counts([]) && Descriptors([]) == [] && !Risky([])
  {
  }

  lemma EarlyEndDescriptors(r: nat)
    ensures Descriptors(EarlyEnd(r)) == [0]
  {
    hide Descriptors;
    EndDescriptors(0);
    NoStarts(JoinFinish, JoinFinish);
    StopDescriptors(r);
    AcceptDescriptors(0, StopRun(r));
    DescriptorsConcat(AcceptRun(0) + StopRun(r), [JoinEnter, JoinWake]);
    DescriptorsConcat(AcceptRun(0) + StopRun(r) + [JoinEnter, JoinWake], [JoinFinish]);
  }

  lemma {:induction false} StopRefutes(s: State, ds: seq<int>)
    requires Clean(s)
    ensures Risky(ds) ==> Forgotten(Exec(s, StopRefutation(ds, s.round + 1)))
    ensures Descriptors(StopRefutation(ds, s.round + 1)) == ds
    decreases |ds|
  {
    hide Exec, Step, Clean, EndedEarly, Forgotten, Descriptors, Counts, Risky;
    NothingCounts();
    if ds != [] {
      var r := s.round + 1;
      assert ds == [ds[0]] + ds[1..];
      RiskyFirst(ds);
      EndDescriptors(ds[0]);
      if ds[0] == 0 {
        EndsEarly(s);
        EarlyEndDescriptors(r);
        LateEntryForgets(Exec(s, EarlyEnd(r)), r, s.nextId, ds[1..]);
        RiskyCounts(ds[1..]);
        ExecConcat(s, EarlyEnd(r), LateEntry(ds[1..]));
        DescriptorsConcat(EarlyEnd(r), LateEntry(ds[1..]));
      } else if ds[0] < 0 {
        NegativeStart(s, ds[0], StopRefutation(ds[1..], r));
        StopRefutes(s, ds[1..]);
        DescriptorsConcat([Start(ds[0])], StopRefutation(ds[1..], r));
      } else {
        CleanRound(s, ds[0]);
        RoundDescriptors(ds[0], r);
        StopRefutes(Exec(s, Round(ds[0], r)), ds[1..]);
        ExecConcat(s, Round(ds[0], r), StopRefutation(ds[1..], r + 1));
        DescriptorsConcat(Round(ds[0], r), StopRefutation(ds[1..], r + 1));
      }
    }
  }

  lemma RiskyCounts(ds: seq<int>)
    ensures Risky(ds) ==> Counts(ds)
  {
  }

  /**
    StopAccept keeps its promise in every interleaving exactly when no start with descriptor 0 is
    followed by another one that counts.
  */
  lemma StopHoldsIff(ds: seq<int>)
    ensures StopHolds(ds) <==> !Risky(ds)
  {
    hide Exec, Step;
    if !Risky(ds) {
      forall run | Descriptors(run) == ds ensures Cared(run) {
        RunCares(INIT, run);
      }
    } else {
      hide Risky;
      var run := StopRefutation(ds, 1);
      StopRefutes(INIT, ds);
      var s := Exec(INIT, run);
      var r, id :| r in s.stoppers && s.stoppers[r].Stopped? && id in s.conns && id in s.sockets
                   && s.sockets[id] == Sock(r, false) && s.handler != MustFail(id);
      assert !CaredFor(s, id);
      assert !Cared(run);
    }
  }

  // ---- Whose connections StopAccept touches ----

  /** A StopAccept has a live connection of another round on its list. */
  predicate Stray(s: State) {
    exists r, id :: r in s.stoppers && s.stoppers[r].Working? && id in s.stoppers[r].todo && id in s.sockets
                    && s.sockets[id].round != r
  }

  /** A StopAccept of an earlier round has not yet listed its connections. */
  predicate Unlisted(s: State) {
    exists r :: r in s.stoppers && s.stoppers[r].Closed?
  }

  /** Within the round: lists hold old numbers or connections of their own round, late listers are its own. */
  ghost predicate Own(s: State) {
    && Numbered(s) && (forall id <- s.sockets :: id < s.nextId && s.sockets[id].round == s.round)
    && (forall r <- s.stoppers :: s.stoppers[r].Closed? || s.stoppers[r].Marked? ==> r == s.round)
    && (forall r <- s.stoppers :: s.stoppers[r].Working? ==> Listed(s, r, s.stoppers[r].todo))
  }

  ghost predicate Listed(s: State, r: nat, todo: set<nat>) {
    forall id <- todo :: id < s.nextId && (id in s.sockets ==> r == s.round)
  }

  lemma StepOwn(s: State, a: Action)
    requires Own(s) && !a.Start?
    ensures Own(Step(s, a))
  {
    StepNumbered(s, a);
  }

  lemma {:induction false} RunOwn(s: State, run: seq<Action>)
    requires Own(s) && Descriptors(run) == []
    ensures Own(Exec(s, run))
    decreases |run|
  {
    hide Step, Own;
    if run != [] {
      assert !run[0].Start? && Descriptors(run) == Descriptors(run[1..]);
      StepOwn(s, run[0]);
      RunOwn(Step(s, run[0]), run[1..]);
    }
  }

  /** No list names a socket that has yet to be created; true of every reachable state. */
  ghost predicate Past(s: State) {
    Numbered(s) && forall r <- s.stoppers :: s.stoppers[r].Working? ==> forall id <- s.stoppers[r].todo :: id < s.nextId
  }

  lemma StepPast(s: State, a: Action)
    requires Past(s)
    ensures Past(Step(s, a))
  {
    StepNumbered(s, a);
  }

  lemma {:induction false} RunPast(s: State, run: seq<Action>)
    requires Past(s)
    ensures Past(Exec(s, run))
    decreases |run|
  {
    hide Step, Past;
    if run != [] {
      StepPast(s, run[0]);
      RunPast(Step(s, run[0]), run[1..]);
    }
  }

  /**
    A new round after any run: some interleaving of it lets a StopAccept of an earlier round list, and
    so fail, a connection of the new round, if and only if one has not listed its own when it starts.
  */
  lemma StraysIff(before: seq<Action>, fd: int)
    requires Sane(before) && fd > 0 && Exec(INIT, before).status in {Uninitialized, Ready}
    ensures (exists run :: Descriptors(run) == [] && Stray(Exec(Exec(INIT, before), [Start(fd)] + run)))
            <==> Unlisted(Exec(INIT, before))
  {
    hide Exec, Step;
    var s := Exec(INIT, before);
    RunKeepsInv(INIT, before);
    RunPast(INIT, before);
    if Unlisted(s) {
      Straying(s, fd);
    } else {
      forall run | Descriptors(run) == [] ensures !Stray(Exec(s, [Start(fd)] + run)) {
        ExecConcat(s, [Start(fd)], run);
        ExecOne(s, Start(fd));
        StartsOwn(s, fd);
        RunOwn(Step(s, Start(fd)), run);
        OwnIsNotStray(Exec(Step(s, Start(fd)), run));
      }
    }
  }

  lemma StartsOwn(s: State, fd: int)
    requires Inv(s) && Past(s) && s.status in {Uninitialized, Ready} && fd > 0 && !Unlisted(s)
    ensures Own(Step(s, Start(fd)))
  {
    assert s.handler.Quiet? && s.sockets == map[];
    assert forall r <- s.stoppers :: !s.stoppers[r].Closed? && !s.stoppers[r].Marked?;
  }

  lemma OwnIsNotStray(s: State)
    requires Own(s)
    ensures !Stray(s)
  {
  }

  lemma Straying(s: State, fd: int)
    requires Inv(s) && s.status in {Uninitialized, Ready} && fd > 0 && Unlisted(s)
    ensures exists run :: Descriptors(run) == [] && Stray(Exec(s, [Start(fd)] + run))
  {
    hide Exec;
    var r: nat :| r in s.stoppers && s.stoppers[r].Closed?;
    assert Clean(s) by { assert s.handler.Quiet? && s.sockets == map[]; }
    var run := [AcceptBegin, AcceptCreate, AcceptAddress] + [AcceptInsert, StopList(r)];
    assert [Start(fd)] + run == AcceptRun(fd) + [AcceptInsert, StopList(r)];
    Accepts(s, fd);
    ExecConcat(s, AcceptRun(fd), [AcceptInsert, StopList(r)]);
    var s1 := Accepted(s, fd);
    ExecTwo(s1, AcceptInsert, StopList(r));
    var s2 := s1.(conns := {s.nextId}, handler := Looping);
    assert Step(s1, AcceptInsert) == s2;
    var s3 := Step(s2, StopList(r));
    assert s3.stoppers[r] == Working({s.nextId}) && s.nextId in s3.sockets && r <= s.round;
    assert Stray(s3);
    StrayDescriptors(r);
  }

  lemma StrayDescriptors(r: nat)
    ensures Descriptors([AcceptBegin, AcceptCreate, AcceptAddress] + [AcceptInsert, StopList(r)]) == []
  {
    DescriptorsConcat([AcceptBegin, AcceptCreate, AcceptAddress], [AcceptInsert, StopList(r)]);
    DescriptorsConcat([AcceptBegin, AcceptCreate], [AcceptAddress]);
    NoStarts(AcceptBegin, AcceptCreate);
    NoStarts(AcceptAddress, AcceptAddress);
    NoStarts(AcceptInsert, StopList(r));
    assert [AcceptBegin, AcceptCreate, AcceptAddress] == [AcceptBegin, AcceptCreate] + [AcceptAddress];
  }

  /** And such a state is reached: Join does not wait for a StopAccept that has closed but not yet listed. */
  lemma UnlistedIsReached()
    ensures var before := [Start(5)] + [StopMark, StopClose(1)] + [RecycleAcception, JoinEnter, JoinWake, JoinFinish];
            Sane(before) && Exec(INIT, before).status.Ready? && Unlisted(Exec(INIT, before))
  {
    hide Exec;
    var first := [Start(5)] + [StopMark, StopClose(1)];
    ExecOne(INIT, Start(5));
    ExecConcat(INIT, [Start(5)], [StopMark, StopClose(1)]);
    var s1 := Step(INIT, Start(5));
    ExecTwo(s1, StopMark, StopClose(1));
    var s2 := Step(Step(s1, StopMark), StopClose(1));
    assert s2 == s1.(status := Stopping, acception := Failed, stoppers := map[1 := Closed]);
    Joined(s2);
    ExecConcat(INIT, first, [RecycleAcception, JoinEnter, JoinWake, JoinFinish]);
    assert 1 in s2.stoppers;
  }
}
