/**
  What one RPC does to the outside world, as a log of events; an auditor that replays the log
  attempt by attempt; and the accounting rule every step of the attempt protocol keeps.
*/
module RpcLedger {
  import opened Basics

  datatype Connection = Single | Pooled | Short | Unknown

  /** One attempt to send the request: Controller::Call. */
  datatype Call = Call(nretry: nat, needFeedback: bool, peer: Option<nat>, sock: Option<nat>)

  datatype Event =
    | Begun(attempt: nat)                             // the attempt became the current one
    | Selected(attempt: nat, server: nat)             // the balancer chose a server and wants feedback
    | Acquired(attempt: nat, sock: nat)               // a pooled or short socket was obtained
    | Responded(attempt: nat)                         // a response tagged with the attempt's id arrived
    | Closed(attempt: nat, sock: nat)                 // the private socket was set failed
    | Returned(attempt: nat, sock: nat)               // the pooled socket went back to its pool
    | Feedback(attempt: nat, server: nat, code: int)  // the balancer was told
    | Completed(attempt: nat, code: int)              // Call::OnComplete ran
    | Done                                            // the user's callback ran
    | Destroyed                                       // the correlation id was destroyed

  type Log = seq<Event>

  // ---- The auditor ----

  /** Where one attempt stands: what it owes the balancer, which private socket it holds. */
  datatype Audit = Unborn | Live(owes: Option<nat>, holds: Option<nat>) | Settled | Broken

  /** An attempt may only do one thing after another; all else breaks its account for good. */
  function Check(a: Audit, e: Event): (r: Audit) {
    match e
    case Responded(_) => a
    case Begun(_) => if a.Unborn? then Live(None, None) else Broken
    case Selected(_, s) => if a.Live? && a.owes.None? then a.(owes := Some(s)) else Broken
    case Acquired(_, q) => if a.Live? && a.holds.None? then a.(holds := Some(q)) else Broken
    case Closed(_, q) => if a.Live? && a.holds == Some(q) then a.(holds := None) else Broken
    case Returned(_, q) => if a.Live? && a.holds == Some(q) then a.(holds := None) else Broken
    case Feedback(_, s, _) => if a.Live? && a.owes == Some(s) then a.(owes := None) else Broken
    case Completed(_, _) => if a == Live(None, None) then Settled else Broken
    case _ => a
  }

  predicate About(e: Event, k: nat) { !e.Done? && !e.Destroyed? && e.attempt == k }

  function Replay(log: Log, k: nat): (a: Audit) {
    if log == [] then Unborn
    else
      var a, e := Replay(log[..|log| - 1], k), log[|log| - 1];
      if About(e, k) then Check(a, e) else a
  }

  lemma ReplayNext(log: Log, e: Event, k: nat)
    ensures Replay(log + [e], k) == if About(e, k) then Check(Replay(log, k), e) else Replay(log, k)
  {
    assert (log + [e])[..|log|] == log;
  }

  // ---- What a clean account means, by counting ----

  datatype Kind =
    | Begins | Completes
    | Selects(server: nat) | Feeds(server: nat)
    | Acquires(sock: nat) | Disposes(sock: nat)

  predicate Is(e: Event, kind: Kind) {
    match kind
    case Begins => e.Begun?
    case Selects(s) => e.Selected? && e.server == s
    case Feeds(s) => e.Feedback? && e.server == s
    case Acquires(q) => e.Acquired? && e.sock == q
    case Disposes(q) => (e.Closed? || e.Returned?) && e.sock == q
    case Completes => e.Completed?
  }

  /** How often an attempt did a thing. */
  function Times(log: Log, k: nat, kind: Kind): (n: nat) {
    if log == [] then 0
    else
      var e := log[|log| - 1];
      Times(log[..|log| - 1], k, kind) + if About(e, k) && Is(e, kind) then 1 else 0
  }

  /**
    An unbroken account: begun and completed at most once, in that order, every selection that
    asked for feedback answered for the same server and every private socket disposed of once, but
    for what the account still shows as open.
  */
  lemma {:induction false} CleanCounts(log: Log, k: nat, s: nat)
    requires Replay(log, k) != Broken
    ensures var a := Replay(log, k);
            && Times(log, k, Begins) == (if a.Unborn? then 0 else 1)
            && Times(log, k, Completes) == (if a.Settled? then 1 else 0)
            && Times(log, k, Selects(s)) ==
               Times(log, k, Feeds(s)) + (if a.Live? && a.owes == Some(s) then 1 else 0)
            && Times(log, k, Acquires(s)) ==
               Times(log, k, Disposes(s)) + (if a.Live? && a.holds == Some(s) then 1 else 0)
  {
    if log != [] {
      var e := log[|log| - 1];
      if Replay(log[..|log| - 1], k) != Broken {
        CleanCounts(log[..|log| - 1], k, s);
      }
    }
  }

  // ---- Completing an attempt ----

  predicate Private(conn: Connection) { conn.Pooled? || conn.Short? }

  /** The private socket of an attempt: only a pooled one that was answered is worth keeping. */
  function Disposal(conn: Connection, c: Call, code: int, responded: bool): (log: Log) {
    if c.sock.None? || !Private(conn) then []
    else if conn.Pooled? && (code == 0 || responded) then [Returned(c.nretry, c.sock.value)]
    else [Closed(c.nretry, c.sock.value)]
  }

  function Report(c: Call, code: int): (log: Log) {
    if c.needFeedback && c.peer.Some? then [Feedback(c.nretry, c.peer.value, code)] else []
  }

  /** Call::OnComplete: dispose of the socket, tell the balancer, and be done with the attempt. */
  function Completion(conn: Connection, c: Call, code: int, responded: bool): (log: Log) {
    Disposal(conn, c, code, responded) + Report(c, code) + [Completed(c.nretry, code)]
  }

  /**
    The world has heard of the end of an attempt: its completion and, with the same code, the
    balancer's feedback are logged, and its private socket went back to the pool if it was answered
    and was closed if it was not.
  */
  predicate Told(log: Log, conn: Connection, c: Call, code: int, responded: bool) {
    && Completed(c.nretry, code) in log
    && (c.needFeedback && c.peer.Some? ==> Feedback(c.nretry, c.peer.value, code) in log)
    && (c.sock.Some? ==>
          match conn
          case Pooled => if code == 0 || responded then Returned(c.nretry, c.sock.value) in log
                         else Closed(c.nretry, c.sock.value) in log
          case Short => Closed(c.nretry, c.sock.value) in log
          case Single => true
          case Unknown => true)
  }

  lemma CompletionTells(log: Log, conn: Connection, c: Call, code: int, responded: bool)
    ensures Told(log + Completion(conn, c, code, responded), conn, c, code, responded)
  {
    var d, r := Disposal(conn, c, code, responded), Report(c, code);
    var more := d + r + [Completed(c.nretry, code)];
    assert forall e <- d :: e in more;
    assert forall e <- r :: e in more;
    assert Completed(c.nretry, code) in more && forall e <- more :: e in log + more;
    if d != [] {
      assert d[0] in d;
    }
    if r != [] {
      assert r[0] in r;
    }
  }

  lemma ToldStays(log: Log, log': Log, conn: Connection, c: Call, code: int, responded: bool)
    requires log <= log' && Told(log, conn, c, code, responded)
    ensures Told(log', conn, c, code, responded)
  {
    assert forall e <- log :: e in log';
  }

  // ---- The books of a running RPC ----

  /** What the account of an attempt must show while `c` is open. */
  function Standing(conn: Connection, c: Call): (a: Audit) {
    Live(if c.needFeedback then c.peer else None, if Private(conn) then c.sock else None)
  }

  function Expected(conn: Connection, open: map<nat, Call>, top: int, k: nat): (a: Audit) {
    if k in open then Standing(conn, open[k]) else if k <= top then Settled else Unborn
  }

  /** Attempts up to `top` have begun, those in `open` are not finished, the others are settled. */
  ghost predicate Balanced(log: Log, conn: Connection, open: map<nat, Call>, top: int) {
    && (forall k <- open :: k <= top && open[k].nretry == k)
    && (forall k: nat :: Replay(log, k) == Expected(conn, open, top, k))
    && Done !in log && Destroyed !in log
  }

  /** A socket goes back to the pool only if its own attempt got a response. */
  ghost predicate PoolSafe(log: Log) {
    forall k: nat, q: nat :: Returned(k, q) in log ==> Responded(k) in log
  }

  /** One event of one attempt, and the standing it must leave that attempt in. */
  lemma Post(log: Log, conn: Connection, open: map<nat, Call>, top: int, e: Event, open': map<nat, Call>, top': int)
    requires Balanced(log, conn, open, top) && !e.Done? && !e.Destroyed?
    requires forall k <- open' :: k <= top' && open'[k].nretry == k
    requires forall k: nat :: k != e.attempt ==> Expected(conn, open', top', k) == Expected(conn, open, top, k)
    requires Check(Expected(conn, open, top, e.attempt), e) == Expected(conn, open', top', e.attempt)
    ensures Balanced(log + [e], conn, open', top')
  {
    hide Replay, Expected, Check;
    forall k: nat ensures Replay(log + [e], k) == Expected(conn, open', top', k) {
      ReplayNext(log, e, k);
    }
  }

  lemma BalancedNumbers(log: Log, conn: Connection, open: map<nat, Call>, top: int)
    requires Balanced(log, conn, open, top)
    ensures forall k <- open :: k <= top && open[k].nretry == k
  {
  }

  /** A change to an open call that its standing does not show. */
  lemma Restate(log: Log, conn: Connection, open: map<nat, Call>, top: int, k: nat, c: Call)
    requires Balanced(log, conn, open, top) && k in open && c.nretry == k
    requires Standing(conn, c) == Standing(conn, open[k])
    ensures Balanced(log, conn, open[k := c], top)
  {
    hide Replay, Standing;
    forall j: nat ensures Expected(conn, open[k := c], top, j) == Expected(conn, open, top, j) {
    }
  }

  lemma DisposeBalances(log: Log, conn: Connection, open: map<nat, Call>, top: int, k: nat, code: int, responded: bool)
    requires Balanced(log, conn, open, top) && k in open
    ensures Balanced(log + Disposal(conn, open[k], code, responded), conn, open[k := open[k].(sock := None)], top)
  {
    BalancedNumbers(log, conn, open, top);
    hide Balanced;
    var d, c := Disposal(conn, open[k], code, responded), open[k].(sock := None);
    if d == [] {
      assert log + d == log;
      Restate(log, conn, open, top, k, c);
    } else {
      Post(log, conn, open, top, d[0], open[k := c], top);
    }
  }

  lemma ReportBalances(log: Log, conn: Connection, open: map<nat, Call>, top: int, k: nat, code: int)
    requires Balanced(log, conn, open, top) && k in open
    ensures Balanced(log + Report(open[k], code), conn, open[k := open[k].(needFeedback := false)], top)
  {
    BalancedNumbers(log, conn, open, top);
    hide Balanced;
    var r, c := Report(open[k], code), open[k].(needFeedback := false);
    if r == [] {
      assert log + r == log;
      Restate(log, conn, open, top, k, c);
    } else {
      Post(log, conn, open, top, r[0], open[k := c], top);
    }
  }

  /** Completing an open attempt settles everything it owes. */
  lemma CompleteBalances(log: Log, conn: Connection, open: map<nat, Call>, top: int, k: nat, code: int, responded: bool)
    requires Balanced(log, conn, open, top) && k in open
    ensures Balanced(log + Completion(conn, open[k], code, responded), conn, open - {k}, top)
  {
    BalancedNumbers(log, conn, open, top);
    hide Balanced, Disposal;
    var c := open[k];
    var d, r := Disposal(conn, c, code, responded), Report(c, code);
    DisposeBalances(log, conn, open, top, k, code, responded);
    var open1 := open[k := c.(sock := None)];
    ReportBalances(log + d, conn, open1, top, k, code);
    var open2 := open1[k := open1[k].(needFeedback := false)];
    Post(log + d + r, conn, open2, top, Completed(k, code), open - {k}, top);
    assert log + d + r + [Completed(k, code)] == log + Completion(conn, c, code, responded);
  }

  /** A completion keeps the pool safe exactly when it returns no unanswered socket. */
  lemma CompletePoolSafe(log: Log, conn: Connection, c: Call, code: int, responded: bool)
    requires PoolSafe(log)
    ensures PoolSafe(log + Completion(conn, c, code, responded)) <==>
            (conn.Pooled? && c.sock.Some? && (code == 0 || responded) ==> Responded(c.nretry) in log)
  {
    var more := Completion(conn, c, code, responded);
    if conn.Pooled? && c.sock.Some? && (code == 0 || responded) {
      assert more[0] == Returned(c.nretry, c.sock.value) && more[0] in log + more;
      assert Responded(c.nretry) !in more;
    }
  }

  /** Events other than a return cannot spoil the pool. */
  lemma PoolSafeNext(log: Log, e: Event)
    requires !e.Returned?
    ensures PoolSafe(log) ==> PoolSafe(log + [e])
  {
  }

  lemma BegunStands(conn: Connection, c: Call)
    requires c.sock.None? && !c.needFeedback
    ensures Check(Unborn, Begun(c.nretry)) == Standing(conn, c)
  {
  }

  /** An attempt left open owes a server its feedback, or holds a private socket. */
  predicate Owes(lost: map<nat, Call>, k: nat, s: nat) {
    k in lost && lost[k].needFeedback && lost[k].peer == Some(s)
  }

  predicate Holds(conn: Connection, lost: map<nat, Call>, k: nat, q: nat) {
    k in lost && Private(conn) && lost[k].sock == Some(q)
  }

  /**
    What balanced books say of the attempts: every one up to `top` was begun once, and completed once
    unless it is left open; feedback matches selections server by server, and private sockets were
    disposed of as often as obtained, but for what the ones left open show; and the callback has not
    run yet.
  */
  lemma SettledLaws(log: Log, conn: Connection, lost: map<nat, Call>, top: int)
    requires Balanced(log, conn, lost, top)
    ensures forall k: nat :: Times(log, k, Begins) == (if k <= top then 1 else 0)
    ensures forall k: nat :: Times(log, k, Completes) == (if k <= top && k !in lost then 1 else 0)
    ensures forall k: nat, s: nat ::
              Times(log, k, Selects(s)) == Times(log, k, Feeds(s)) + if Owes(lost, k, s) then 1 else 0
    ensures forall k: nat, q: nat ::
              Times(log, k, Acquires(q)) == Times(log, k, Disposes(q)) + if Holds(conn, lost, k, q) then 1 else 0
    ensures Done !in log && Destroyed !in log
  {
    hide Times, Replay;
    forall k: nat
      ensures Times(log, k, Begins) == (if k <= top then 1 else 0)
      ensures Times(log, k, Completes) == (if k <= top && k !in lost then 1 else 0)
    {
      assert Replay(log, k) == Expected(conn, lost, top, k);
      CleanCounts(log, k, 0);
    }
    forall k: nat, s: nat
      ensures Times(log, k, Selects(s)) == Times(log, k, Feeds(s)) + if Owes(lost, k, s) then 1 else 0
    {
      assert Replay(log, k) == Expected(conn, lost, top, k);
      CleanCounts(log, k, s);
    }
    forall k: nat, q: nat
      ensures Times(log, k, Acquires(q)) == Times(log, k, Disposes(q)) + if Holds(conn, lost, k, q) then 1 else 0
    {
      assert Replay(log, k) == Expected(conn, lost, top, k);
      CleanCounts(log, k, q);
    }
  }
}
