/**
  The shutdown protocol of net/brpc/acceptor.cpp as a state machine.  Each action is one critical
  section of the map mutex, or one socket operation outside it; actions of the accept handler, the
  stopping threads, the joiner and the socket recycler interleave in any order.  An action that is
  not enabled leaves the state alone.
*/
module Acceptor {

  datatype Status = Uninitialized | Ready | Running | Stopping

  /** The listening socket: its recycling waits until no handler runs on it. */
  datatype Acception = Absent | Listening | Failed | Recycled

  /** Where the accept handler is; from Holding on it keeps a reference to the new socket. */
  datatype Handler = Quiet | Looping | Created(id: nat) | Holding(id: nat) | MustFail(id: nat)

  /** A StopAccept that found the acceptor running, one per round. */
  datatype Stopper = Marked | Closed | Working(todo: set<nat>) | Stopped

  datatype Joiner = Away | Waiting | Finishing

  /** An accepted socket that has not been recycled; dead means failed or released. */
  datatype Sock = Sock(round: nat, dead: bool)

  datatype State = State(status: Status, listenedFd: int, round: nat, acception: Acception,
                         conns: set<nat>, sockets: map<nat, Sock>, nextId: nat,
                         handler: Handler, stoppers: map<nat, Stopper>, joiner: Joiner)

  datatype Action =
    | Start(fd: int)
    | StopMark | StopClose(r: nat) | StopList(r: nat) | StopOne(r: nat, id: nat) | StopEnd(r: nat)
    | AcceptBegin | AcceptCreate | AcceptAddress | AcceptInsert | AcceptFail | AcceptEnd
    | Die(id: nat) | Recycle(id: nat) | RecycleAcception
    | JoinEnter | JoinWake | JoinFinish

  const INIT := State(Uninitialized, -1, 0, Absent, {}, map[], 0, Quiet, map[], Away)

  function Kill(s: State, id: nat): (s': State) {
    if id in s.sockets then s.(sockets := s.sockets[id := s.sockets[id].(dead := true)]) else s
  }

  function Step(s: State, a: Action): (s': State) {
    match a
    case Start(fd) =>
      if fd >= 0 && s.status in {Uninitialized, Ready}
      then s.(status := Running, listenedFd := fd, round := s.round + 1, acception := Listening) else s
    case StopMark =>
      if s.status.Running? then s.(status := Stopping, stoppers := s.stoppers[s.round := Marked]) else s
    case StopClose(r) =>
      if r in s.stoppers && s.stoppers[r].Marked?
      then s.(acception := (if s.acception.Listening? then Failed else s.acception),
              stoppers := s.stoppers[r := Closed]) else s
    case StopList(r) =>
      if r in s.stoppers && s.stoppers[r].Closed? then s.(stoppers := s.stoppers[r := Working(s.conns)]) else s
    case StopOne(r, id) =>
      if r in s.stoppers && s.stoppers[r].Working? && id in s.stoppers[r].todo
      then Kill(s, id).(stoppers := s.stoppers[r := Working(s.stoppers[r].todo - {id})]) else s
    case StopEnd(r) =>
      if r in s.stoppers && s.stoppers[r] == Working({}) then s.(stoppers := s.stoppers[r := Stopped]) else s
    case AcceptBegin =>
      if s.handler.Quiet? && s.acception.Listening? then s.(handler := Looping) else s
    case AcceptCreate =>
      if s.handler.Looping?
      then s.(handler := Created(s.nextId), sockets := s.sockets[s.nextId := Sock(s.round, false)],
              nextId := s.nextId + 1) else s
    case AcceptAddress =>
      if s.handler.Created?
      then s.(handler := if s.handler.id in s.sockets then Holding(s.handler.id) else Looping) else s
    case AcceptInsert =>
      if s.handler.Holding?
      then s.(conns := s.conns + {s.handler.id},
              handler := if s.status.Running? then Looping else MustFail(s.handler.id)) else s
    case AcceptFail =>
      if s.handler.MustFail? then Kill(s, s.handler.id).(handler := Looping) else s
    case AcceptEnd =>
      if s.handler.Looping? then s.(handler := Quiet) else s
    case Die(id) => Kill(s, id)
    case Recycle(id) =>
      if id in s.sockets && s.sockets[id].dead && s.handler != Holding(id) && s.handler != MustFail(id)
      then s.(sockets := s.sockets - {id}, conns := s.conns - {id}) else s
    case RecycleAcception =>
      if s.acception.Failed? && s.handler.Quiet? then s.(acception := Recycled, listenedFd := -1) else s
    case JoinEnter =>
      if s.joiner.Away? && (s.status.Stopping? || s.status.Running?) then s.(joiner := Waiting) else s
    case JoinWake =>
      if s.joiner.Waiting? && !(s.listenedFd > 0 || s.conns != {}) then s.(joiner := Finishing) else s
    case JoinFinish =>
      if s.joiner.Finishing? then s.(status := Ready, joiner := Away) else s
  }

  function Exec(s: State, run: seq<Action>): (s': State)
    decreases |run|
  {
    if run == [] then s else Exec(Step(s, run[0]), run[1..])
  }

  /** Start is only given positive descriptors. */
  predicate Sane(run: seq<Action>) {
    forall a <- run :: a.Start? ==> a.fd != 0
  }

  // ---- The invariant ----

  function InHand(h: Handler): (ids: set<nat>) {
    if h.Created? || h.Holding? || h.MustFail? then {h.id} else {}
  }

  ghost predicate LifeCycle(s: State) {
    && (s.status in {Uninitialized, Ready} ==> !s.acception.Listening? && !s.acception.Failed?)
    && (s.acception.Listening? || s.acception.Failed? ==> s.listenedFd > 0)
    && (!s.handler.Quiet? ==> s.acception.Listening? || s.acception.Failed?)
    && (s.status.Running? ==> s.acception.Listening? && s.round !in s.stoppers)
    && (s.status.Stopping? ==> s.round in s.stoppers && !s.acception.Absent?)
    && (s.acception.Listening? && s.status.Stopping? ==> s.stoppers[s.round].Marked?)
    && (forall r <- s.stoppers :: r <= s.round)
    && (forall r <- s.stoppers ::
          s.stoppers[r].Marked? ==> r == s.round && s.status.Stopping? && s.acception.Listening?)
  }

  ghost predicate Sockets(s: State) {
    && s.conns <= s.sockets.Keys <= s.conns + InHand(s.handler)
    && (forall id <- s.sockets :: id < s.nextId && s.sockets[id].round <= s.round)
    && (s.handler.Created? ==> s.handler.id < s.nextId && s.handler.id !in s.conns)
    && (s.handler.Holding? ==> s.handler.id in s.sockets && s.handler.id !in s.conns)
    && (s.handler.MustFail? ==> s.handler.id in s.conns && s.status.Stopping?)
    && (forall id <- s.sockets :: id in InHand(s.handler) ==> s.sockets[id].round == s.round)
  }

  /** A connection of round r needs nothing more from that round's StopAccept. */
  predicate CaredFor(s: State, id: nat) {
    id in s.sockets && (s.sockets[id].dead || s.handler == MustFail(id))
  }

  /** Once StopAccept has listed the connections, each is on its list or cared for. */
  ghost predicate Stops(s: State) {
    forall r <- s.stoppers, id <- s.conns ::
      (s.stoppers[r].Working? || s.stoppers[r].Stopped?) && id in s.sockets && s.sockets[id].round == r ==>
        CaredFor(s, id) || (s.stoppers[r].Working? && id in s.stoppers[r].todo)
  }

  ghost predicate Joins(s: State) {
    && (s.status in {Uninitialized, Ready} ==> s.joiner.Away? && s.conns == {})
    && (s.joiner.Waiting? ==> s.status.Running? || s.status.Stopping?)
    && (s.joiner.Finishing? ==> s.conns == {} && s.acception.Recycled? && s.status.Stopping?)
  }

  ghost predicate Inv(s: State) {
    LifeCycle(s) && Sockets(s) && Stops(s) && Joins(s)
  }

  lemma StepLifeCycle(s: State, a: Action)
    requires Inv(s) && (a.Start? ==> a.fd != 0)
    ensures LifeCycle(Step(s, a))
  {
  }

  lemma StepSockets(s: State, a: Action)
    requires Inv(s) && (a.Start? ==> a.fd != 0)
    ensures Sockets(Step(s, a))
  {
    hide Stops;
  }

  lemma StepStops(s: State, a: Action)
    requires Inv(s) && (a.Start? ==> a.fd != 0)
    ensures Stops(Step(s, a))
  {
  }

  lemma StepJoins(s: State, a: Action)
    requires Inv(s) && (a.Start? ==> a.fd != 0)
    ensures Joins(Step(s, a))
  {
    hide Stops;
  }

  lemma {:induction false} RunKeepsInv(s: State, run: seq<Action>)
    requires Inv(s) && Sane(run)
    ensures Inv(Exec(s, run))
    decreases |run|
  {
    hide Step, LifeCycle, Sockets, Stops, Joins;
    if run != [] {
      assert run[0] in run && forall a <- run[1..] :: a in run;
      StepLifeCycle(s, run[0]);
      StepSockets(s, run[0]);
      StepStops(s, run[0]);
      StepJoins(s, run[0]);
      RunKeepsInv(Step(s, run[0]), run[1..]);
    }
  }

  // ---- What Join and StopAccept promise ----

  /** No connection of a round up to r is there, nor anything that could still add one. */
  ghost predicate Gone(s: State, r: nat) {
    && (forall id <- s.sockets :: s.sockets[id].round > r)
    && (!s.handler.Quiet? || s.acception.Listening? || s.acception.Failed? ==> s.round > r)
    && r <= s.round
  }

  lemma GoneStaysGone(s: State, a: Action, r: nat)
    requires Inv(s) && Gone(s, r)
    ensures Gone(Step(s, a), r)
  {
    hide Stops, Joins;
  }

  lemma {:induction false} GoneForever(s: State, run: seq<Action>, r: nat)
    requires Inv(s) && Sane(run) && Gone(s, r)
    ensures Gone(Exec(s, run), r)
    decreases |run|
  {
    hide Step, LifeCycle, Sockets, Stops, Joins, Gone;
    if run != [] {
      GoneStaysGone(s, run[0], r);
      assert run == [run[0]] + run[1..] && run[0] in run;
      RunKeepsInv(s, [run[0]]);
      assert [run[0]][1..] == [];
      assert Exec(s, [run[0]]) == Step(s, run[0]);
      GoneForever(Step(s, run[0]), run[1..], r);
    }
  }

  /**
    Join: in every interleaving, once its wait has ended, no connection of the round (or of an
    earlier one) exists, and none will, whatever happens later.
  */
  lemma JoinWaitsForAll(before: seq<Action>, after: seq<Action>)
    requires Sane(before) && Sane(after) && Exec(INIT, before).joiner.Finishing?
    ensures var s := Exec(INIT, before);
            s.sockets == map[] && forall id <- Exec(s, after).sockets :: Exec(s, after).sockets[id].round > s.round
  {
    RunKeepsInv(INIT, before);
    var s := Exec(INIT, before);
    assert s.sockets == map[];
    GoneForever(s, after, s.round);
  }

  /**
    StopAccept: when it has finished, every connection of its round still in the map has been
    failed or released, or is about to be failed by the accept handler that added it.
  */
  lemma StopCaresForAll(run: seq<Action>, r: nat, id: nat)
    requires Sane(run)
    requires var s := Exec(INIT, run);
             r in s.stoppers && s.stoppers[r].Stopped? && id in s.conns && id in s.sockets && s.sockets[id].round == r
    ensures CaredFor(Exec(INIT, run), id)
  {
    RunKeepsInv(INIT, run);
  }
}
