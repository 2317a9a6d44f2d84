/**
  The attempt protocol of one client RPC: net/brpc/controller.cpp and Channel::CallMethod.

  All events of an RPC are serialised by the lock of its correlation id, so they are delivered one
  at a time.  What the balancer, the sockets, the allocator and a custom retry policy answer is
  given from outside: per attempt for sending, per event for the rest.
*/
module Rpc {
  import opened Basics
  import opened RpcLedger

  const EINVAL := 22
  const ENOMEM := 12
  const EHOSTDOWN := 112
  const ECANCELED := 125
  const EBACKUPREQUEST := 1007
  const ERPCTIMEDOUT := 1008
  const UNSET_MAGIC_NUM := -123456789
  const MAX_RETRY_COUNT := 1000

  const ENOENT := 2
  const EPIPE := 32
  const ENODATA := 61
  const ECONNRESET := 104
  const ETIMEDOUT := 110
  const ECONNREFUSED := 111
  const EFAILEDSOCKET := 1009
  const EOVERCROWDED := 1011
  const EEOF := 1014
  const EH2RUNOUTSTREAMS := 1017
  const ELOGOFF := 2003
  const ELIMIT := 2004

  /** RpcRetryPolicy::DoRetry: broken, refused or overloaded connections. */
  predicate DefaultRetry(code: int) {
    code in {2, 32, 61, 104, 110, 111, 112, 1009, 1011, 1014, 1017, 2003, 2004}
  }

  /** By name; and what has its own meaning here, or is no error at all, is never retried by default. */
  lemma DefaultRetryCodes(code: int)
    ensures DefaultRetry(code) <==>
            || code == EFAILEDSOCKET || code == EEOF || code == EHOSTDOWN || code == ELOGOFF || code == ETIMEDOUT
            || code == ELIMIT || code == ENOENT || code == EPIPE || code == ECONNREFUSED || code == ECONNRESET
            || code == ENODATA || code == EOVERCROWDED || code == EH2RUNOUTSTREAMS
    ensures code in {0, ERPCTIMEDOUT, ECANCELED, EBACKUPREQUEST, EINVAL, ENOMEM} ==> !DefaultRetry(code)
  {
  }

  function ClampedRetry(own: int, option: int): (n: nat)
    requires own <= MAX_RETRY_COUNT
    ensures n <= MAX_RETRY_COUNT
    ensures own != UNSET_MAGIC_NUM && own >= 0 ==> n == own
    ensures own == UNSET_MAGIC_NUM && 0 <= option <= MAX_RETRY_COUNT ==> n == option
    ensures own == UNSET_MAGIC_NUM && option > MAX_RETRY_COUNT ==> n == MAX_RETRY_COUNT
    ensures (own != UNSET_MAGIC_NUM && own < 0) || (own == UNSET_MAGIC_NUM && option < 0) ==> n == 0
  {
    var v := if own != UNSET_MAGIC_NUM then own else if option > MAX_RETRY_COUNT then MAX_RETRY_COUNT else option;
    if v < 0 then 0 else v
  }

  /**
    Answers from outside while one event is handled: a custom policy's word, whether the list of
    excluded servers or the copy of the call could not be allocated, and the timer's error.
  */
  datatype Luck = Luck(retry: bool, noMemory: bool, noCall: bool, timerErr: int)

  /** Answers from outside while one attempt is sent; an error of 0 is success. */
  datatype Sending = Sending(selectErr: int, server: nat, wantsFeedback: bool,
                             sockErr: int, sock: nat, authErr: int, packErr: int, luck: Luck)

  datatype Timer = Off | Backup | Deadline

  datatype Input =
    | Response(attempt: nat, code: int, luck: Luck)
    | SocketError(attempt: nat, code: int, luck: Luck)
    | BackupTimer(luck: Luck)
    | Timeout(luck: Luck)
    | Cancel(luck: Luck)

  /** Events the outside world can raise: ids lie in the reserved range of 2 + maxRetry. */
  predicate PossibleFor(maxRetry: nat, i: Input) {
    i.Response? || i.SocketError? ==> i.attempt <= maxRetry
  }

  /** The events delivered so far. */
  class Trace {
    var events: seq<Input>

    constructor ()
      ensures events == []
    {
      events := [];
    }
  }

  class Controller {
    const trace: Trace
    const cid: nat  // the correlation id; attempt k is known as cid + k + 1
    const maxRetry: nat
    const conn: Connection
    const single: bool
    const custom: bool     // a retry policy was given
    const async: bool      // a done callback was given
    const timed: bool      // there is a deadline
    const world: nat -> Sending

    var cur: Call
    var unf: Option<Call>
    var err: int
    var timer: Timer
    var backupArmed: bool  // the one backup timer has not fired yet
    var ended: bool
    var checkFailed: bool  // the CHECK_EQ before a retry was violated
    var overwritten: bool  // the CHECK before a backup request was violated
    var log: Log
    ghost var lost: map<nat, Call>  // backed-up attempts that were overwritten, and are never completed

    function Id(k: nat): (id: nat)
      ensures cid < id
    {
      cid + k + 1
    }

    ghost function Open(): map<nat, Call>
      reads `cur, `unf, `lost
    {
      lost + (if unf.Some? then map[unf.value.nretry := unf.value] else map[]) + map[cur.nretry := cur]
    }

    ghost predicate Bounded()
      reads `cur, `unf, `lost, `overwritten
    {
      && cur.nretry <= maxRetry && (unf.Some? ==> unf.value.nretry < cur.nretry)
      && (forall k <- lost :: k < cur.nretry && (unf.Some? ==> k < unf.value.nretry))
      && (overwritten <==> lost != map[])
    }

    lemma BackedUpIsOlder()
      requires Bounded()
      ensures unf.Some? ==> unf.value.nretry < cur.nretry
    {
    }

    /** The RPC runs, and its books balance. */
    ghost predicate Live()
      reads this
    {
      && !ended && Bounded()
      && Balanced(log, conn, Open(), cur.nretry)
      && (!checkFailed ==> PoolSafe(log))
    }

    /** Nobody holds the id: the next event may come. */
    ghost predicate Idle()
      reads this
    {
      Live() && err == 0
    }

    function Tail(): (t: Log)
      ensures |t| >= 1
    {
      (if async then [Done] else []) + [Destroyed]
    }

    /** Everything was settled, then the callback ran and the id was destroyed, each once. */
    ghost predicate Over()
      reads this
    {
      && ended && timer == Off && unf.None? && cur.nretry <= maxRetry
      && |Tail()| <= |log| && log[|log| - |Tail()|..] == Tail()
      && Balanced(log[..|log| - |Tail()|], conn, lost, cur.nretry)
      && (!checkFailed ==> PoolSafe(log)) && (overwritten <==> lost != map[])
    }

    /** The id belongs to the whole RPC, to the current attempt, or to the backed-up one. */
    predicate Addressed(id: nat)
      reads this
    {
      id == cid || id == Id(cur.nretry) || (unf.Some? && id == Id(unf.value.nretry))
    }

    /** A completion is a success or an answer only through a logged response of the same attempt. */
    ghost predicate Honest(id: nat, responded: bool)
      reads this
    {
      && (err == 0 ==> responded)
      && (responded ==> id > cid && Responded(id - cid - 1) in log)
    }

    /** Call::OnComplete; `open` are the attempts whose accounts are open before it. */
    method OnComplete(c: Call, code: int, responded: bool, ghost open: map<nat, Call>)
      requires c.nretry in open && open[c.nretry] == c && Balanced(log, conn, open, cur.nretry)
      requires !checkFailed ==> PoolSafe(log) && (code == 0 || responded ==> Responded(c.nretry) in log)
      modifies `log
      ensures log == old(log) + Completion(conn, c, code, responded) && Told(log, conn, c, code, responded)
      ensures Balanced(log, conn, open - {c.nretry}, cur.nretry)
      ensures !checkFailed ==> PoolSafe(log)
    {
      hide Balanced, PoolSafe;
      CompleteBalances(log, conn, open, cur.nretry, c.nretry, code, responded);
      CompletionTells(log, conn, c, code, responded);
      if !checkFailed {
        CompletePoolSafe(log, conn, c, code, responded);
      }
      ghost var before := log;
      if c.sock.Some? {
        if conn.Pooled? && (code == 0 || responded) {
          log := log + [Returned(c.nretry, c.sock.value)];
        } else if conn.Pooled? || conn.Short? {
          log := log + [Closed(c.nretry, c.sock.value)];
        }
      }
      if c.needFeedback && c.peer.Some? {
        log := log + [Feedback(c.nretry, c.peer.value, code)];
      }
      log := log + [Completed(c.nretry, code)];
      assert log == before + Completion(conn, c, code, responded);
    }

    method EndRPC(id: nat, responded: bool)
      requires Live() && Addressed(id) && Honest(id, responded)
      modifies this
      ensures Over() && ended && unf == None && err == old(err) && cur.nretry == old(cur.nretry)
      ensures checkFailed == old(checkFailed) && backupArmed == old(backupArmed)
      ensures overwritten == old(overwritten) && lost == old(lost)
      ensures log == old(log) + old(Settlement(id, responded)) + Tail()
      ensures Closes(id, responded, old(cur), old(unf), err)
    {
      hide Balanced, PoolSafe, Completion, Told;
      timer := Off;
      ghost var c, u := cur, unf;
      CompleteOpen(id, responded);
      ghost var told := log;
      cur := cur.(sock := None);
      Finish();
      ClosesStays(told, id, responded, c, u, err);
    }

    /** Every attempt that was open has been told: the one whose event ended the RPC with its own code. */
    ghost predicate ClosesIn(told: Log, id: nat, responded: bool, c: Call, u: Option<Call>, code: int) {
      if id == cid || id == Id(c.nretry) then
        && Told(told, conn, c, code, responded)
        && (u.Some? ==> Told(told, conn, u.value, if code == 0 then EBACKUPREQUEST else code, false))
      else
        Told(told, conn, c, ECANCELED, false) && (u.Some? ==> Told(told, conn, u.value, code, responded))
    }

    ghost predicate Closes(id: nat, responded: bool, c: Call, u: Option<Call>, code: int)
      reads `log
    {
      ClosesIn(log, id, responded, c, u, code)
    }

    lemma ClosesStays(told: Log, id: nat, responded: bool, c: Call, u: Option<Call>, code: int)
      requires told <= log && ClosesIn(told, id, responded, c, u, code)
      ensures Closes(id, responded, c, u, code)
    {
      hide Told;
      forall d: Call, e, r | Told(told, conn, d, e, r) ensures Told(log, conn, d, e, r) {
        ToldStays(told, log, conn, d, e, r);
      }
    }

    /** Completes the attempts still open, the one that ended the RPC last. */
    method CompleteOpen(id: nat, responded: bool)
      requires Live() && Addressed(id) && Honest(id, responded)
      modifies `log, `unf
      ensures log == old(log) + old(Settlement(id, responded)) && unf == None
      ensures Closes(id, responded, cur, old(unf), err)
      ensures Balanced(log, conn, lost, cur.nretry) && (!checkFailed ==> PoolSafe(log))
    {
      hide Balanced, PoolSafe, Completion, Told;
      ghost var open, before := Open(), log;
      if id == cid || id == Id(cur.nretry) {
        if unf.Some? {
          var c, code := unf.value, if err == 0 then EBACKUPREQUEST else err;
          OnComplete(c, code, false, open);
          open := open - {unf.value.nretry};
          unf := None;
          ghost var told := log;
          OnComplete(cur, err, responded, open);
          ToldStays(told, log, conn, c, code, false);
        } else {
          OnComplete(cur, err, responded, open);
        }
        open := open - {cur.nretry};
      } else {
        assert unf.Some?;                   // CHECK: a previous non-backup request responded
        OnComplete(cur, ECANCELED, false, open);
        ghost var told := log;
        open := open - {cur.nretry};
        assert Id(unf.value.nretry) == id;  // CHECK: and it is the backed-up one
        OnComplete(unf.value, err, responded, open);
        ToldStays(told, log, conn, cur, ECANCELED, false);
        open := open - {unf.value.nretry};
        unf := None;
      }
      assert open == lost;
    }

    /** What EndRPC reports for the attempts still open. */
    function Settlement(id: nat, responded: bool): (t: Log)
      requires Addressed(id)
      reads this
    {
      if id == cid || id == Id(cur.nretry) then
        (if unf.Some? then Completion(conn, unf.value, if err == 0 then EBACKUPREQUEST else err, false) else [])
        + Completion(conn, cur, err, responded)
      else
        Completion(conn, cur, ECANCELED, false) + Completion(conn, unf.value, err, responded)
    }

    /** The end of EndRPC: run the callback, destroy the id. */
    method Finish()
      requires Balanced(log, conn, lost, cur.nretry) && (!checkFailed ==> PoolSafe(log))
      requires (overwritten <==> lost != map[]) && !ended && timer == Off && unf.None? && cur.nretry <= maxRetry
      modifies `log, `ended
      ensures Over() && log == old(log) + Tail()
    {
      hide Balanced;
      if async {
        log := log + [Done];
      }
      log := log + [Destroyed];
      ended := true;
      assert log == old(log) + Tail();
      assert log[..|log| - |Tail()|] == old(log);
    }

    // ---- Deciding what an event means ----

    predicate RetryOf(code: int, luck: Luck) {
      if custom then luck.retry else DefaultRetry(code)
    }

    predicate DoRetry(luck: Luck)
      reads this
    {
      RetryOf(err, luck)
    }

    /** A backup request comes as far as its CHECK. */
    predicate Backs(luck: Luck) {
      (timed ==> luck.timerErr == 0) && (single || !luck.noMemory)
    }

    /** Going on after attempt k failed with a code overwrites a backed-up attempt, here or further on. */
    predicate Overwrites(k: nat, backedUp: bool, code: int, luck: Luck)
      decreases maxRetry - k, 0
    {
      && k < maxRetry
      && if code == EBACKUPREQUEST then Backs(luck) && (backedUp || (!luck.noCall && SendOverwrites(k + 1, true)))
         else RetryOf(code, luck) && (single || !luck.noMemory) && SendOverwrites(k + 1, backedUp)
    }

    /** Sending attempt k fails, and what follows overwrites a backed-up attempt. */
    predicate SendOverwrites(k: nat, backedUp: bool)
      decreases maxRetry - k, 1
    {
      SendError(world(k)) != 0 && Overwrites(k, backedUp, SendError(world(k)), world(k).luck)
    }

    lemma OverwritesUnfolded(k: nat, backedUp: bool, code: int, luck: Luck)
      ensures Overwrites(k, backedUp, code, luck) <==>
              && k < maxRetry
              && if code == EBACKUPREQUEST
                 then Backs(luck) && (backedUp || (!luck.noCall && SendOverwrites(k + 1, true)))
                 else RetryOf(code, luck) && (single || !luck.noMemory) && SendOverwrites(k + 1, backedUp)
    {
      hide Controller.SendOverwrites;
    }

    /** No send fails with the code of a backup request. */
    ghost predicate Tame() { forall k: nat :: SendError(world(k)) != EBACKUPREQUEST }

    /** While the backup timer is armed no attempt is backed up. */
    predicate Paired()
      reads `unf, `backupArmed
    {
      unf.Some? ==> !backupArmed
    }

    /** Then only a backup code that meets a backed-up attempt overwrites one. */
    lemma {:induction false} TameSendsKeep(k: nat, backedUp: bool)
      requires Tame()
      ensures !SendOverwrites(k, backedUp)
      decreases maxRetry - k
    {
      hide Controller.SendError, Controller.RetryOf, Controller.Backs;
      if k < maxRetry {
        TameSendsKeep(k + 1, backedUp);
      }
    }

    lemma TameKeeps(k: nat, backedUp: bool, code: int, luck: Luck)
      requires Tame() && (code == EBACKUPREQUEST ==> !backedUp)
      ensures !Overwrites(k, backedUp, code, luck)
    {
      hide Controller.Overwrites, Controller.SendOverwrites, Controller.Tame;
      OverwritesUnfolded(k, backedUp, code, luck);
      TameSendsKeep(k + 1, backedUp);
      TameSendsKeep(k + 1, true);
    }

    /** The flag and the attempts lost, after something that overwrites or does not. */
    ghost predicate Strands(overwrites: bool, flag: bool, before: map<nat, Call>)
      reads `overwritten, `lost
    {
      && (overwritten <==> flag || overwrites)
      && if overwrites then forall k <- before :: k in lost && lost[k] == before[k] else lost == before
    }

    /** Events of superseded attempts, and failures of the backed-up one. */
    predicate Intercepted(id: nat)
      reads this
    {
      id != cid && id != Id(cur.nretry) && !(unf.Some? && id == Id(unf.value.nretry) && err == 0)
    }

    predicate Exhausted()
      reads this
    {
      (err == 0 && !custom) || cur.nretry >= maxRetry
    }

    predicate Backups()
      reads this
    {
      !Exhausted() && err == EBACKUPREQUEST
    }

    predicate Retries(luck: Luck)
      reads this
    {
      !Exhausted() && err != EBACKUPREQUEST && DoRetry(luck)
    }

    /** A new attempt was begun and has neither server nor socket yet. */
    ghost predicate Fresh()
      reads `cur, `unf, `lost, `overwritten, `ended, `log, `checkFailed
    {
      && !ended && Bounded() && cur.sock.None?
      && Balanced(log, conn, Open()[cur.nretry := cur.(needFeedback := false)], cur.nretry)
      && (!checkFailed ==> PoolSafe(log))
    }

    /** `++nretry`, with `open` the accounts left open so far. */
    method NextAttempt(ghost open: map<nat, Call>)
      requires Balanced(log, conn, open, cur.nretry) && cur.sock.None?
      requires !checkFailed ==> PoolSafe(log)
      modifies `cur, `log
      ensures cur == old(cur).(nretry := old(cur.nretry) + 1) && log == old(log) + [Begun(cur.nretry)]
      ensures Balanced(log, conn, open[cur.nretry := cur.(needFeedback := false)], cur.nretry)
      ensures !checkFailed ==> PoolSafe(log)
    {
      BalancedNumbers(log, conn, open, cur.nretry);
      hide Balanced, Check;
      cur := cur.(nretry := cur.nretry + 1);
      var next := cur.(needFeedback := false);
      assert Check(Unborn, Begun(cur.nretry)) == Standing(conn, next) by { BegunStands(conn, next); }
      Post(log, conn, open, cur.nretry - 1, Begun(cur.nretry), open[cur.nretry := next], cur.nretry);
      log := log + [Begun(cur.nretry)];
    }

    /**
      What follows from an error with which the RPC as a whole or its current attempt c comes back,
      while u is backed up.  Without retries left, or if the code is not one to go on with, the RPC
      ends with it and every open attempt is told.  A backup code sends a backup request; a code the
      policy retries completes the attempt with it and sends the next one.
    */
    ghost predicate Sequel(c: Call, u: Option<Call>, code: int, luck: Luck, responded: bool)
      reads `ended, `err, `cur, `log
    {
      if (code == 0 && !custom) || c.nretry >= maxRetry || (code != EBACKUPREQUEST && !RetryOf(code, luck)) then
        ended && err == code && Closes(cid, responded, c, u, code)
      else if code == EBACKUPREQUEST then
        if Backs(luck) && !luck.noCall then cur.nretry > c.nretry
        else ended && err == (if timed && luck.timerErr != 0 then luck.timerErr else ENOMEM)
             && Told(log, conn, c, err, responded)
      else
        if single || !luck.noMemory then cur.nretry > c.nretry && Told(log, conn, c, code, responded)
        else ended && err == ENOMEM && Told(log, conn, c, err, responded)
    }

    /**
      OnVersionedRPCReturned: the heart of the protocol.  An intercepted event leaves the current
      attempt alone and restores the error code; any other one ends the RPC, or starts the next
      attempt.
    */
    method OnVersionedRPCReturned(id: nat, responded: bool, saved: int, luck: Luck)
      requires Live() && Honest(id, responded)
      modifies this
      ensures Over() || (Live() && err == if old(Intercepted(id)) then saved else 0)
      ensures old(Intercepted(id)) ==>
                && !ended && cur == old(cur) && timer == old(timer) && checkFailed == old(checkFailed)
                && if old(unf.Some? && id == Id(unf.value.nretry))
                   then unf == None && log == old(log) + Completion(conn, old(unf).value, old(err), responded)
                   else unf == old(unf) && log == old(log)
      ensures old(!Intercepted(id) && (Exhausted() || (err != EBACKUPREQUEST && !DoRetry(luck)))) ==>
                ended && err == old(err) && log == old(log) + old(Settlement(id, responded)) + Tail()
      ensures ended && err == 0 ==> old(err) == 0
      ensures checkFailed <==> old(checkFailed || (!Intercepted(id) && Retries(luck) && id != Id(cur.nretry)))
      ensures old(!Intercepted(id) && Retries(luck)) && !single && luck.noMemory ==> ended && err == ENOMEM
      ensures old(!Intercepted(id) && Retries(luck)) && (single || !luck.noMemory) ==>
                && cur.nretry > old(cur.nretry) && (ended ==> err != 0)
                && old(log) + Completion(conn, old(cur), old(err), responded) + [Begun(old(cur.nretry) + 1)] <= log
      ensures old(!Intercepted(id) && Retries(luck)) && (single || !luck.noMemory)
                && SendError(world(old(cur.nretry) + 1)) == 0 ==>
                !ended && cur == Sent(old(cur.nretry) + 1) && unf == old(unf)
      ensures Strands(old(!Intercepted(id) && !Exhausted() && Overwrites(cur.nretry, unf.Some?, err, luck)),
                      old(overwritten), old(lost))
      ensures old(!Intercepted(id) && Backups() && unf.Some?) && Backs(luck) ==>
                old(unf).value.nretry in lost && lost[old(unf).value.nretry] == old(unf).value
      ensures old(!Intercepted(id) && Backups()) ==>
                if Backs(luck) && !luck.noCall then cur.nretry > old(cur.nretry)
                else ended && (err == ENOMEM || (timed && err == luck.timerErr))
      ensures old(!Intercepted(id) && Backups()) && Backs(luck) && !luck.noCall
                && SendError(world(old(cur.nretry) + 1)) == 0 ==>
                !ended && cur == Sent(old(cur.nretry) + 1) && unf == Some(old(cur))
      ensures old(id == cid || id == Id(cur.nretry)) ==> Sequel(old(cur), old(unf), old(err), luck, responded)
      ensures old(Intercepted(id) && unf.Some? && id == Id(unf.value.nretry)) ==>
                Told(log, conn, old(unf).value, old(err), responded)
      ensures old(!Intercepted(id) && Exhausted()) ==> Closes(id, responded, old(cur), old(unf), err)
      ensures old(!Intercepted(id) && err != EBACKUPREQUEST && !DoRetry(luck)) ==>
                Closes(id, responded, old(cur), old(unf), err)
      ensures cur.nretry >= old(cur.nretry) && old(log) <= log && (backupArmed ==> old(backupArmed))
      ensures Tame() && old(Paired() && err != EBACKUPREQUEST) ==> Paired()
      decreases maxRetry - cur.nretry, 0
    {
      hide Balanced, PoolSafe, Completion, DefaultRetry, Controller.Overwrites, Controller.SendOverwrites,
           Controller.Open, Controller.Bounded, Controller.Over, Controller.Sent, Controller.SendError, Controller.Tame;
      OverwritesUnfolded(cur.nretry, unf.Some?, err, luck);
      if id != cid && id != Id(cur.nretry) {
        if unf.Some? && Id(unf.value.nretry) == id && err != 0 {
          DropUnfinished(responded);
          err := saved;
          return;
        } else if !(unf.Some? && Id(unf.value.nretry) == id) {
          err := saved;
          return;
        }
      }
      if (err == 0 && !custom) || cur.nretry >= maxRetry {
        EndRPC(id, responded);
        return;
      }
      if err == EBACKUPREQUEST {
        StartBackup(id, responded, luck);
        return;
      }
      if DoRetry(luck) {
        if id != Id(cur.nretry) {
          checkFailed := true;
        }
        Retry(id, responded, luck);
        return;
      }
      EndRPC(id, responded);
    }

    /** A failed backed-up attempt is completed; the current one goes on. */
    method DropUnfinished(responded: bool)
      requires Live() && unf.Some? && err != 0
      requires responded ==> Responded(unf.value.nretry) in log
      modifies `unf, `log
      ensures Live() && unf == None && log == old(log) + Completion(conn, old(unf).value, err, responded)
      ensures Told(log, conn, old(unf).value, err, responded)
    {
      hide Balanced, PoolSafe, Completion;
      ghost var open := Open();
      OnComplete(unf.value, err, responded, open);
      ghost var k := unf.value.nretry;
      unf := None;
      assert Open() == open - {k};
    }

    /**
      The backup branch: the current attempt is set aside unfinished and the next one is sent.  An
      attempt set aside before is overwritten, which is what the CHECK is there to notice.
    */
    method StartBackup(id: nat, responded: bool, luck: Luck)
      requires Live() && Honest(id, responded) && err == EBACKUPREQUEST && cur.nretry < maxRetry
      requires id == cid || id == Id(cur.nretry)
      modifies this
      ensures Over() || Idle()
      ensures ended ==> err != 0
      ensures checkFailed == old(checkFailed) && cur.nretry >= old(cur.nretry)
      ensures if Backs(luck) && !luck.noCall
              then cur.nretry > old(cur.nretry) && old(log) + [Begun(old(cur.nretry) + 1)] <= log
              else
                && ended && cur.nretry == old(cur.nretry)
                && err == (if timed && luck.timerErr != 0 then luck.timerErr else ENOMEM)
                && Told(log, conn, old(cur), err, responded)
      ensures Strands(old(Overwrites(cur.nretry, unf.Some?, EBACKUPREQUEST, luck)), old(overwritten), old(lost))
      ensures old(unf.Some?) && Backs(luck) ==>
                old(unf).value.nretry in lost && lost[old(unf).value.nretry] == old(unf).value
      ensures Backs(luck) && !luck.noCall && SendError(world(old(cur.nretry) + 1)) == 0 ==>
                !ended && cur == Sent(old(cur.nretry) + 1) && unf == Some(old(cur))
      ensures old(log) <= log && (backupArmed ==> old(backupArmed))
      decreases maxRetry - cur.nretry - 1, 4
    {
      hide Balanced, PoolSafe, Completion, Controller.Overwrites, Controller.SendOverwrites,
           Controller.Open, Controller.Bounded, Controller.Over, Controller.Sent, Controller.SendError,
           Controller.Settlement;
      OverwritesUnfolded(cur.nretry, unf.Some?, EBACKUPREQUEST, luck);
      if timed {
        if luck.timerErr != 0 {
          err := luck.timerErr;
          EndRPC(id, responded);
          return;
        }
        timer := Deadline;
      }
      if !single && luck.noMemory {
        err := ENOMEM;
        EndRPC(id, responded);
        return;
      }
      Overwrite();
      if luck.noCall {
        err := ENOMEM;
        EndRPC(id, responded);
        return;
      }
      SetAside();
    }

    /** The current attempt becomes the backed-up one and the next is sent. */
    method SetAside()
      requires Live() && unf.None? && cur.nretry < maxRetry
      modifies this
      ensures Over() || Idle()
      ensures ended ==> err != 0
      ensures checkFailed == old(checkFailed) && cur.nretry > old(cur.nretry)
      ensures old(log) + [Begun(old(cur.nretry) + 1)] <= log
      ensures Strands(SendOverwrites(old(cur.nretry) + 1, true), old(overwritten), old(lost))
      ensures SendError(world(old(cur.nretry) + 1)) == 0 ==>
                !ended && cur == Sent(old(cur.nretry) + 1) && unf == Some(old(cur))
      ensures backupArmed ==> old(backupArmed)
      decreases maxRetry - cur.nretry - 1, 3
    {
      hide Balanced, PoolSafe, Controller.SendOverwrites,
           Controller.Over, Controller.Sent, Controller.SendError, Controller.Settlement;
      ghost var open := Open();
      unf := Some(cur);
      cur := Call(cur.nretry, false, None, None);
      NextAttempt(open);
      assert Open()[cur.nretry := cur.(needFeedback := false)] == open[cur.nretry := cur];
      IssueRPC();
    }

    /** CHECK: only one backup request; if it fails, the pointer to the old one is written over all the same. */
    method Overwrite()
      requires Live()
      modifies `unf, `overwritten, `lost
      ensures Live() && unf == None && overwritten == old(overwritten || unf.Some?)
      ensures lost == if old(unf).Some? then old(lost)[old(unf).value.nretry := old(unf).value] else old(lost)
      ensures forall k <- old(lost) :: k in lost && lost[k] == old(lost)[k]
    {
      hide Balanced, PoolSafe;
      ghost var open := Open();
      if unf.Some? {
        overwritten := true;
        lost := lost[unf.value.nretry := unf.value];
        assert unf.value.nretry in lost;
        unf := None;
      }
      assert Open() == open;
    }

    /** The retry branch: the current attempt is completed with its error and the next one is sent. */
    method Retry(id: nat, responded: bool, luck: Luck)
      requires Live() && Addressed(id) && Honest(id, responded) && cur.nretry < maxRetry
      requires id != Id(cur.nretry) ==> checkFailed
      modifies this
      ensures Over() || Idle()
      ensures ended ==> err != 0
      ensures checkFailed == old(checkFailed) && cur.nretry >= old(cur.nretry)
      ensures single || !luck.noMemory ==>
                && cur.nretry > old(cur.nretry)
                && old(log) + Completion(conn, old(cur), old(err), responded) + [Begun(old(cur.nretry) + 1)] <= log
      ensures !single && luck.noMemory ==> ended && err == ENOMEM && cur.nretry == old(cur.nretry)
      ensures !single && luck.noMemory && old(id == cid || id == Id(cur.nretry)) ==>
                Told(log, conn, old(cur), err, responded)
      ensures single || !luck.noMemory ==> Told(log, conn, old(cur), old(err), responded)
      ensures (single || !luck.noMemory) && SendError(world(old(cur.nretry) + 1)) == 0 ==>
                !ended && cur == Sent(old(cur.nretry) + 1) && unf == old(unf)
      ensures Strands(old((single || !luck.noMemory) && SendOverwrites(cur.nretry + 1, unf.Some?)),
                      old(overwritten), old(lost))
      ensures old(log) <= log && (backupArmed ==> old(backupArmed))
      ensures Tame() && old(Paired()) ==> Paired()
      decreases maxRetry - cur.nretry - 1, 3
    {
      hide Balanced, PoolSafe, Completion, Controller.SendOverwrites,
           Controller.Open, Controller.Fresh, Controller.Over, Controller.Sent, Controller.SendError,
           Controller.Settlement, Controller.Tame;
      if !single && luck.noMemory {
        err := ENOMEM;
        EndRPC(id, responded);
        return;
      }
      Replace(responded);
      ghost var told := log;
      IssueRPC();
      ToldStays(told, log, conn, old(cur), old(err), responded);
    }

    /** The current attempt is completed and makes way for the next. */
    method Replace(responded: bool)
      requires Live() && cur.nretry < maxRetry
      requires !checkFailed ==> (err == 0 || responded ==> Responded(cur.nretry) in log)
      modifies `cur, `log
      ensures Fresh() && cur.nretry == old(cur.nretry) + 1
      ensures log == old(log) + Completion(conn, old(cur), err, responded) + [Begun(cur.nretry)]
      ensures Told(log, conn, old(cur), err, responded)
    {
      hide Balanced, PoolSafe, Completion, Told;
      ghost var open := Open();
      OnComplete(cur, err, responded, open);
      ghost var told := log;
      cur := cur.(sock := None);
      open := open - {cur.nretry};
      NextAttempt(open);
      ToldStays(told, log, conn, old(cur), err, responded);
      assert Open()[cur.nretry := cur.(needFeedback := false)] == open[cur.nretry := cur.(needFeedback := false)];
    }

    method HandleSendFailed(luck: Luck)
      requires Live() && err != 0
      modifies this
      ensures Over() || Idle()
      ensures ended ==> err != 0
      ensures checkFailed == old(checkFailed) && cur.nretry >= old(cur.nretry)
      ensures cur.nretry == old(cur.nretry) ==>
                && ended
                && (err == old(err) || err == ENOMEM || (old(err) == EBACKUPREQUEST && timed && err == luck.timerErr))
      ensures Strands(old(Overwrites(cur.nretry, unf.Some?, err, luck)), old(overwritten), old(lost))
      ensures old(log) <= log && (backupArmed ==> old(backupArmed))
      ensures Tame() && old(Paired() && err != EBACKUPREQUEST) ==> Paired()
      decreases maxRetry - cur.nretry, 1
    {
      hide Balanced, PoolSafe, Completion, Controller.Overwrites, Controller.SendOverwrites, Controller.Tame;
      OverwritesUnfolded(cur.nretry, unf.Some?, err, luck);
      OnVersionedRPCReturned(Id(cur.nretry), false, err, luck);
    }

    /** A bare attempt takes the server the balancer chose, which may want feedback. */
    method SelectServer(w: Sending)
      requires Live() && !cur.needFeedback && cur.sock.None?
      modifies `cur, `log
      ensures Live() && cur.sock.None? && cur.nretry == old(cur.nretry) && old(log) <= log
      ensures cur.peer == Some(w.server) && cur.needFeedback == (!single && w.wantsFeedback)
      ensures cur.needFeedback ==> Selected(cur.nretry, w.server) in log
    {
      hide Balanced, PoolSafe;
      ghost var open := Open();
      var c := cur.(peer := Some(w.server), needFeedback := !single && w.wantsFeedback);
      BalancedNumbers(log, conn, open, cur.nretry);
      if c.needFeedback {
        Post(log, conn, open, cur.nretry, Selected(cur.nretry, w.server), open[cur.nretry := c], cur.nretry);
        PoolSafeNext(log, Selected(cur.nretry, w.server));
        log := log + [Selected(cur.nretry, w.server)];
      } else {
        Restate(log, conn, open, cur.nretry, cur.nretry, c);
      }
      cur := c;
      assert Open() == open[cur.nretry := c];
    }

    method UseMainSocket(server: nat)
      requires Live() && conn.Single?
      modifies `cur
      ensures Live() && cur == old(cur).(sock := Some(server))
    {
      hide Balanced, PoolSafe;
      ghost var open := Open();
      var c := cur.(sock := Some(server));
      Restate(log, conn, open, cur.nretry, cur.nretry, c);
      cur := c;
      assert Open() == open[cur.nretry := c];
    }

    /** GetPooledSocket and GetShortSocket. */
    method AcquireSocket(w: Sending)
      requires Live() && Private(conn) && cur.sock.None?
      modifies `cur, `log
      ensures Live() && cur == old(cur).(sock := Some(w.sock)) && log == old(log) + [Acquired(cur.nretry, w.sock)]
    {
      hide Balanced, PoolSafe;
      ghost var open := Open();
      var c := cur.(sock := Some(w.sock));
      BalancedNumbers(log, conn, open, cur.nretry);
      Post(log, conn, open, cur.nretry, Acquired(cur.nretry, w.sock), open[cur.nretry := c], cur.nretry);
      PoolSafeNext(log, Acquired(cur.nretry, w.sock));
      log := log + [Acquired(cur.nretry, w.sock)];
      cur := c;
      assert Open() == open[cur.nretry := c];
    }

    /** The first thing that goes wrong while sending an attempt, 0 if nothing does. */
    function SendError(w: Sending): (code: int)
      ensures code == 0 <==>
              && w.selectErr == 0 && w.authErr == 0 && w.packErr == 0
              && !conn.Unknown? && (conn.Pooled? || conn.Short? ==> w.sockErr == 0)
      ensures code in {0, w.selectErr, EHOSTDOWN, EINVAL, w.sockErr, w.authErr, w.packErr}
    {
      if w.selectErr != 0 then (if single then EHOSTDOWN else w.selectErr)
      else if conn.Unknown? then EINVAL
      else if Private(conn) && w.sockErr != 0 then w.sockErr
      else if w.authErr != 0 then w.authErr
      else w.packErr
    }

    /** The current call once attempt k is on its way. */
    function Sent(k: nat): (c: Call) {
      var w := world(k);
      Call(k, !single && w.wantsFeedback, Some(w.server), Some(if conn.Single? then w.server else w.sock))
    }

    /** IssueRPC: choose a server, get a socket, authenticate, pack, write, and unlock the id. */
    method IssueRPC()
      requires Fresh()
      modifies this
      ensures Over() || Idle()
      ensures ended ==> err != 0
      ensures checkFailed == old(checkFailed) && cur.nretry >= old(cur.nretry)
      ensures SendError(world(old(cur.nretry))) == 0 ==>
                !ended && cur == Sent(old(cur.nretry)) && unf == old(unf) && timer == old(timer)
                && backupArmed == old(backupArmed) && Equipped(world(old(cur.nretry)))
      ensures !ended && cur.nretry == old(cur.nretry) ==> SendError(world(cur.nretry)) == 0 && cur == Sent(cur.nretry)
      ensures ended && cur.nretry == old(cur.nretry) ==>
                var e := SendError(world(cur.nretry));
                err == e || err == ENOMEM || (e == EBACKUPREQUEST && timed && err == world(cur.nretry).luck.timerErr)
      ensures Strands(old(SendOverwrites(cur.nretry, unf.Some?)), old(overwritten), old(lost))
      ensures old(log) <= log && (backupArmed ==> old(backupArmed))
      ensures Tame() && old(Paired()) ==> Paired()
      decreases maxRetry - cur.nretry, 2
    {
      hide Balanced, PoolSafe, Controller.Overwrites,
           Controller.Over, Controller.Sent;
      var w := world(cur.nretry);
      ghost var open := Open()[cur.nretry := cur.(needFeedback := false)];
      err := 0;
      cur := cur.(needFeedback := false);
      assert Open() == open;
      var code := Prepare(w);
      if code != 0 {
        err := code;
        HandleSendFailed(w.luck);
      }
    }

    /** The current attempt has its server, which gets feedback if it wants some, and its socket. */
    ghost predicate Equipped(w: Sending)
      reads `cur, `log
    {
      && cur.peer == Some(w.server) && cur.sock.Some?
      && (!single && w.wantsFeedback ==> cur.needFeedback && Selected(cur.nretry, w.server) in log)
      && (conn.Pooled? || conn.Short? ==> cur.sock == Some(w.sock) && Acquired(cur.nretry, w.sock) in log)
    }

    /** The part of IssueRPC that can fail, up to the write. */
    method Prepare(w: Sending) returns (code: int)
      requires Idle() && !cur.needFeedback && cur.sock.None? && w == world(cur.nretry)
      modifies `cur, `log
      ensures Idle() && code == SendError(w) && cur.nretry == old(cur.nretry) && old(log) <= log
      ensures code == 0 ==> cur == Sent(cur.nretry) && Equipped(w)
    {
      hide Balanced, PoolSafe;
      if w.selectErr != 0 {
        return if single then EHOSTDOWN else w.selectErr;
      }
      SelectServer(w);
      if conn.Single? {
        UseMainSocket(w.server);
      } else if conn.Unknown? {
        return EINVAL;
      } else {
        if w.sockErr != 0 {
          return w.sockErr;
        }
        AcquireSocket(w);
      }
      if w.authErr != 0 {
        return w.authErr;
      }
      code := w.packErr;
    }

    // ---- The RPC from call to end ----

    constructor (cid: nat, ownRetry: int, optionRetry: int, conn: Connection, single: bool,
                 custom: bool, async: bool, timed: bool, world: nat -> Sending)
      requires ownRetry <= MAX_RETRY_COUNT
      ensures this.cid == cid && this.maxRetry == ClampedRetry(ownRetry, optionRetry) && this.conn == conn
      ensures this.single == single && this.custom == custom && this.async == async
      ensures this.timed == timed && this.world == world
      ensures cur == Call(0, false, None, None) && unf == None && err == 0 && timer == Off
      ensures !backupArmed && !ended && !checkFailed && !overwritten && log == [] && lost == map[]
      ensures fresh(trace) && trace.events == []
    {
      this.cid, this.maxRetry, this.conn, this.single := cid, ClampedRetry(ownRetry, optionRetry), conn, single;
      this.custom, this.async, this.timed, this.world := custom, async, timed, world;
      trace := new Trace();
      cur, unf, err, timer := Call(0, false, None, None), None, 0, Off;
      backupArmed, ended, checkFailed, overwritten, log, lost := false, false, false, false, [], map[];
    }

    predicate StartOverwrites(setupErr: int, backupFirst: bool, luck: Luck) {
      if setupErr != 0 then Overwrites(0, false, setupErr, luck)
      else if (backupFirst || timed) && luck.timerErr != 0 then Overwrites(0, false, luck.timerErr, luck)
      else SendOverwrites(0, false)
    }

    lemma TameStart(setupErr: int, backupFirst: bool, luck: Luck)
      requires Tame()
      ensures !StartOverwrites(setupErr, backupFirst, luck)
    {
      hide Controller.Overwrites, Controller.SendOverwrites, Controller.Tame;
      TameKeeps(0, false, setupErr, luck);
      TameKeeps(0, false, luck.timerErr, luck);
      TameSendsKeep(0, false);
    }

    /** The sending half of CallMethod: set-up failures, the first timer, the first attempt. */
    method Start(setupErr: int, backupFirst: bool, luck: Luck)
      requires cur == Call(0, false, None, None) && unf == None && err == 0 && timer == Off
      requires !backupArmed && !ended && !checkFailed && !overwritten && log == [] && lost == map[]
      modifies this
      ensures Over() || Idle()
      ensures ended ==> err != 0
      ensures !checkFailed && [Begun(0)] <= log
      ensures overwritten <==> StartOverwrites(setupErr, backupFirst, luck)
      ensures Tame() && EBACKUPREQUEST !in {setupErr, luck.timerErr} ==> Paired()
      ensures setupErr == 0 && (backupFirst || timed ==> luck.timerErr == 0) && SendError(world(0)) == 0 ==>
                !ended && cur == Sent(0) && unf == None && backupArmed == backupFirst
                && timer == (if backupFirst then Backup else if timed then Deadline else Off)
    {
      log := [Begun(0)];
      BegunStands(conn, cur);
      forall k: nat ensures Replay(log, k) == Expected(conn, map[0 := cur], 0, k) {
        ReplayNext([], Begun(0), k);
        assert [] + [Begun(0)] == log;
      }
      assert Open() == map[0 := cur];
      hide Balanced, PoolSafe, Replay, Controller.Overwrites, Controller.SendOverwrites, Controller.Tame;
      if setupErr != 0 {
        err := setupErr;
        HandleSendFailed(luck);
        return;
      }
      if backupFirst || timed {
        if luck.timerErr != 0 {
          err := luck.timerErr;
          HandleSendFailed(luck);
          return;
        }
        timer, backupArmed := if backupFirst then Backup else Deadline, backupFirst;
      }
      assert Open() == Open()[cur.nretry := cur.(needFeedback := false)];
      IssueRPC();
    }

    predicate Possible(i: Input) { PossibleFor(maxRetry, i) }

    /** A success that ends the RPC: of the current or the backed-up attempt, and not sent back. */
    predicate Wins(i: Input)
      reads this
    {
      && i.Response? && i.code == 0
      && (i.attempt == cur.nretry || (unf.Some? && i.attempt == unf.value.nretry))
      && !(custom && i.luck.retry && cur.nretry < maxRetry)
    }

    /** A custom policy retries a timeout, a cancellation, or a success of the backed-up attempt. */
    predicate Misfires(i: Input)
      reads this
    {
      && custom && i.luck.retry && cur.nretry < maxRetry
      && (i.Cancel? || (i.Timeout? && timer.Deadline?)
          || (i.Response? && i.code == 0 && unf.Some? && i.attempt == unf.value.nretry))
    }

    /** The code and luck with which an event that is not intercepted is decided; None if it is dropped before. */
    function Decided(i: Input): (d: Option<(int, Luck)>)
      reads this
    {
      match i
      case Response(k, code, luck) =>
        if k == cur.nretry || (unf.Some? && k == unf.value.nretry && code == 0) then Some((code, luck)) else None
      case SocketError(k, code, luck) =>
        if k == cur.nretry then Some((if code == 0 then -1 else code, luck)) else None
      case BackupTimer(luck) => if backupArmed then Some((EBACKUPREQUEST, luck)) else None
      case Timeout(luck) => if timer.Deadline? then Some((ERPCTIMEDOUT, luck)) else None
      case Cancel(luck) => Some((ECANCELED, luck))
    }

    /**
      An event overwrites the backed-up attempt: a backup code comes in, from the timer, a peer or a
      socket, while an attempt is backed up and retries are left; or the sends that follow do so.
    */
    predicate Clashes(i: Input)
      reads this
    {
      var d := Decided(i);
      d.Some? && (custom || d.value.0 != 0) && Overwrites(cur.nretry, unf.Some?, d.value.0, d.value.1)
    }

    /** An event is a reason to send a backup request, and that can be done. */
    predicate StartsBackup(i: Input)
      reads this
    {
      var d := Decided(i);
      && d.Some? && d.value.0 == EBACKUPREQUEST && cur.nretry < maxRetry
      && Backs(d.value.1) && !d.value.1.noCall && SendError(world(cur.nretry + 1)) == 0
    }

    /** Neither peer nor socket reports the code of a backup request. */
    predicate Plain(i: Input) {
      i.Response? || i.SocketError? ==> i.code != EBACKUPREQUEST
    }

    lemma PlainKeeps(i: Input)
      requires Tame() && Paired() && Plain(i)
      ensures !Clashes(i)
    {
      hide Controller.Overwrites, Controller.Tame;
      var d := Decided(i);
      if d.Some? {
        TameKeeps(cur.nretry, unf.Some?, d.value.0, d.value.1);
      }
    }

    predicate Superseded(i: Input)
      reads this
    {
      (i.Response? || i.SocketError?) && i.attempt != cur.nretry && !(unf.Some? && i.attempt == unf.value.nretry)
    }

    /**
      One event of a running RPC.  It ends the RPC with code 0 exactly when a live attempt
      succeeds; events of superseded attempts change nothing; the backup timer finding no retries
      left ends the RPC, and finding some sends the backup request.  The CHECK before a retry fails
      exactly when a custom policy misfires, the one before a backup request exactly on a clash.
    */
    method Deliver(i: Input)
      requires Idle() && Possible(i)
      modifies this, trace
      ensures trace.events == old(trace.events) + [i]
      ensures Over() || Idle()
      ensures ended && err == 0 <==> old(Wins(i))
      ensures old(Superseded(i)) ==>
                && !ended && cur == old(cur) && unf == old(unf)
                && log == old(log) + if i.Response? then [Responded(i.attempt)] else []
      ensures i.BackupTimer? && old(backupArmed) && old(cur.nretry) >= maxRetry ==> ended && err == EBACKUPREQUEST
      ensures i.BackupTimer? && old(backupArmed) ==> Sequel(old(cur), old(unf), EBACKUPREQUEST, i.luck, false)
      ensures i.Timeout? && old(timer.Deadline?) ==> Sequel(old(cur), old(unf), ERPCTIMEDOUT, i.luck, false)
      ensures i.Cancel? ==> Sequel(old(cur), old(unf), ECANCELED, i.luck, false)
      ensures i.Timeout? && old(timer.Deadline?) && !(custom && i.luck.retry && old(cur.nretry) < maxRetry) ==>
                ended && err == ERPCTIMEDOUT
      ensures i.Cancel? && !(custom && i.luck.retry && old(cur.nretry) < maxRetry) ==> ended && err == ECANCELED
      ensures (i.Timeout? && !old(timer.Deadline?)) || (i.BackupTimer? && !old(backupArmed)) ==>
                !ended && cur == old(cur) && unf == old(unf) && log == old(log)
      ensures i.Response? && i.attempt == old(cur.nretry) ==> Sequel(old(cur), old(unf), i.code, i.luck, true)
      ensures i.SocketError? && i.attempt == old(cur.nretry) ==>
                Sequel(old(cur), old(unf), if i.code == 0 then -1 else i.code, i.luck, false)
      ensures i.Response? && old(unf.Some? && i.attempt == unf.value.nretry) ==>
                Late(old(cur), old(unf).value, i.code, i.luck)
      ensures i.SocketError? && old(unf.Some? && i.attempt == unf.value.nretry) ==>
                && !ended && cur == old(cur) && unf == None
                && Told(log, conn, old(unf).value, if i.code == 0 then -1 else i.code, false)
      ensures checkFailed <==> old(checkFailed || Misfires(i))
      ensures Strands(old(Clashes(i)), old(overwritten), old(lost))
      ensures old(StartsBackup(i)) ==>
                && !ended && cur == Sent(old(cur.nretry) + 1) && unf == Some(old(cur))
                && (old(unf).Some? ==> old(unf).value.nretry in lost && lost[old(unf).value.nretry] == old(unf).value)
      ensures cur.nretry >= old(cur.nretry) && old(log) <= log
      ensures Tame() && old(Paired()) && Plain(i) ==> Paired() && lost == old(lost)
    {
      hide Balanced, PoolSafe, Completion, Controller.Overwrites, Controller.SendOverwrites,
           Controller.Open, Controller.Bounded, Controller.Over, Controller.Sent, Controller.SendError, Controller.Tame,
           Controller.Sequel, Controller.Late, Told;
      BackedUpIsOlder();
      trace.events := trace.events + [i];
      if Tame() && Paired() && Plain(i) {
        PlainKeeps(i);
      }
      match i {
        case Response(k, code, luck) => OnResponse(k, code, luck);
        case SocketError(k, code, luck) => HandleSocketFailed(Id(k), code, luck);
        case BackupTimer(luck) => Signal(i);
        case Timeout(luck) => Signal(i);
        case Cancel(luck) => Signal(i);
      }
    }

    /** HandleBackupRequest, HandleTimeout and StartCancel: errors for the RPC as a whole. */
    method Signal(i: Input)
      requires Idle() && (i.BackupTimer? || i.Timeout? || i.Cancel?)
      modifies this
      ensures Over() || Idle()
      ensures ended ==> err != 0
      ensures match i
              case BackupTimer(luck) => old(backupArmed) ==> Sequel(old(cur), old(unf), EBACKUPREQUEST, luck, false)
              case Timeout(luck) => old(timer.Deadline?) ==> Sequel(old(cur), old(unf), ERPCTIMEDOUT, luck, false)
              case Cancel(luck) => Sequel(old(cur), old(unf), ECANCELED, luck, false)
      ensures i.BackupTimer? && old(backupArmed) && old(cur.nretry) >= maxRetry ==> ended && err == EBACKUPREQUEST
      ensures i.Timeout? && old(timer.Deadline?) && !(custom && i.luck.retry && old(cur.nretry) < maxRetry) ==>
                ended && err == ERPCTIMEDOUT
      ensures i.Cancel? && !(custom && i.luck.retry && old(cur.nretry) < maxRetry) ==> ended && err == ECANCELED
      ensures (i.Timeout? && !old(timer.Deadline?)) || (i.BackupTimer? && !old(backupArmed)) ==>
                !ended && cur == old(cur) && unf == old(unf) && log == old(log)
      ensures checkFailed <==> old(checkFailed || Misfires(i))
      ensures Strands(old(Clashes(i)), old(overwritten), old(lost))
      ensures old(StartsBackup(i)) ==>
                && !ended && cur == Sent(old(cur.nretry) + 1) && unf == Some(old(cur))
                && (old(unf).Some? ==> old(unf).value.nretry in lost && lost[old(unf).value.nretry] == old(unf).value)
      ensures cur.nretry >= old(cur.nretry) && old(log) <= log
      ensures Tame() && old(Paired()) ==> Paired()
    {
      hide Balanced, PoolSafe, Completion, Controller.Overwrites, Controller.SendOverwrites,
           Controller.Open, Controller.Bounded, Controller.Over, Controller.Sent, Controller.SendError, Controller.Tame,
           Controller.Sequel, Told;
      match i {
        case BackupTimer(luck) =>
          if backupArmed {
            backupArmed := false;
            HandleSocketFailed(cid, EBACKUPREQUEST, luck);
          }
        case Timeout(luck) =>
          if timer.Deadline? {
            HandleSocketFailed(cid, ERPCTIMEDOUT, luck);
          }
        case Cancel(luck) => HandleSocketFailed(cid, ECANCELED, luck);
      }
    }

    /**
      What follows when the backed-up attempt u is answered while c is current: a failure is told and
      c goes on; a success that is not sent back ends the RPC, and c is told that it was cancelled.
    */
    ghost predicate Late(c: Call, u: Call, code: int, luck: Luck)
      reads `ended, `err, `cur, `unf, `log
    {
      if code != 0 then !ended && cur == c && unf == None && Told(log, conn, u, code, true)
      else if custom && luck.retry && c.nretry < maxRetry then true
      else ended && err == 0 && Told(log, conn, c, ECANCELED, false) && Told(log, conn, u, 0, true)
    }

    /** ControllerPrivateAccessor::OnResponse, after the response's own code has been set. */
    method OnResponse(k: nat, code: int, luck: Luck)
      requires Idle()
      modifies this
      ensures Over() || Idle()
      ensures ended && err == 0 <==> old(Wins(Response(k, code, luck)))
      ensures old(Superseded(Response(k, code, luck))) ==>
                !ended && cur == old(cur) && unf == old(unf) && log == old(log) + [Responded(k)]
      ensures k == old(cur.nretry) ==> Sequel(old(cur), old(unf), code, luck, true)
      ensures old(unf.Some? && k == unf.value.nretry) ==> Late(old(cur), old(unf).value, code, luck)
      ensures checkFailed <==> old(checkFailed || Misfires(Response(k, code, luck)))
      ensures Strands(old(Clashes(Response(k, code, luck))), old(overwritten), old(lost))
      ensures old(StartsBackup(Response(k, code, luck))) ==>
                && !ended && cur == Sent(old(cur.nretry) + 1) && unf == Some(old(cur))
                && (old(unf).Some? ==> old(unf).value.nretry in lost && lost[old(unf).value.nretry] == old(unf).value)
      ensures cur.nretry >= old(cur.nretry) && old(log) <= log
      ensures Tame() && old(Paired()) && code != EBACKUPREQUEST ==> Paired()
    {
      hide Balanced, PoolSafe, Completion, Controller.Overwrites, Controller.SendOverwrites,
           Controller.Open, Controller.Bounded, Controller.Over, Controller.Sent, Controller.SendError,
           Controller.Settlement, DefaultRetry, Controller.Tame, Controller.Strands, Controller.Backs,
           Controller.Sequel, Told;
      OverwritesUnfolded(cur.nretry, unf.Some?, code, luck);
      BackedUpIsOlder();
      var saved := err;
      NoteResponse(k);
      if code != 0 {
        err := code;
      }
      OnVersionedRPCReturned(Id(k), true, saved, luck);
    }

    /** HandleSocketFailed: an error tagged with an attempt's id, or with that of the whole RPC. */
    method HandleSocketFailed(id: nat, code: int, luck: Luck)
      requires Idle() && id >= cid
      requires id == cid ==> code in {EBACKUPREQUEST, ERPCTIMEDOUT, ECANCELED}
      modifies this
      ensures Over() || Idle()
      ensures ended ==> err != 0
      ensures old(id != cid && id != Id(cur.nretry) && !(unf.Some? && id == Id(unf.value.nretry))) ==>
                !ended && cur == old(cur) && unf == old(unf) && log == old(log)
      ensures id == cid && old(cur.nretry) >= maxRetry ==> ended && err == code
      ensures id == cid && code != EBACKUPREQUEST && !(custom && luck.retry && old(cur.nretry) < maxRetry) ==>
                ended && err == code
      ensures old(id == cid || id == Id(cur.nretry)) ==>
                Sequel(old(cur), old(unf), if code == 0 then -1 else code, luck, false)
      ensures old(id != cid && id != Id(cur.nretry) && unf.Some? && id == Id(unf.value.nretry)) ==>
                && !ended && cur == old(cur) && unf == None
                && Told(log, conn, old(unf).value, if code == 0 then -1 else code, false)
      ensures checkFailed <==>
              old(checkFailed || (custom && luck.retry && id == cid && code != EBACKUPREQUEST && cur.nretry < maxRetry))
      ensures Strands(old((id == cid || id == Id(cur.nretry))
                          && Overwrites(cur.nretry, unf.Some?, if code == 0 then -1 else code, luck)),
                      old(overwritten), old(lost))
      ensures old((id == cid || id == Id(cur.nretry)) && cur.nretry < maxRetry) && code == EBACKUPREQUEST
                && Backs(luck) && !luck.noCall && SendError(world(old(cur.nretry) + 1)) == 0 ==>
                && !ended && cur == Sent(old(cur.nretry) + 1) && unf == Some(old(cur))
                && (old(unf).Some? ==> old(unf).value.nretry in lost && lost[old(unf).value.nretry] == old(unf).value)
      ensures cur.nretry >= old(cur.nretry) && old(log) <= log
      ensures Tame() && old(Paired()) && (code == EBACKUPREQUEST ==> !old(backupArmed)) ==> Paired()
      ensures backupArmed ==> old(backupArmed)
    {
      hide Balanced, PoolSafe, Completion, Controller.Overwrites, Controller.SendOverwrites,
           Controller.Open, Controller.Bounded, Controller.Over, Controller.Sent, Controller.SendError,
           Controller.Settlement, Controller.Tame, Controller.Sequel, Controller.Closes, Told;
      OverwritesUnfolded(cur.nretry, unf.Some?, if code == 0 then -1 else code, luck);
      var saved := err;
      err := if code == 0 then -1 else code;
      OnVersionedRPCReturned(id, false, saved, luck);
    }

    /** A response was received; that alone changes no account. */
    method NoteResponse(k: nat)
      requires Live()
      modifies `log
      ensures Live() && log == old(log) + [Responded(k)]
    {
      hide PoolSafe;
      forall j: nat ensures Replay(log + [Responded(k)], j) == Replay(log, j) {
        ReplayNext(log, Responded(k), j);
      }
      PoolSafeNext(log, Responded(k));
      log := log + [Responded(k)];
    }

    /**
      Every run: whatever the world answers and whichever events come, in any order.  When the RPC
      is over, every attempt from the first to the last has been begun once and completed once,
      before the callback; the callback and the destruction of the id are the last two events and
      the only ones of their kind; selections and feedback match, private sockets were disposed of
      once, and with the default policy no CHECK fails and only answered ones return to the pool.
    */
    method Run(inputs: seq<Input>) returns (n: nat)
      requires Idle() && forall i <- inputs :: Possible(i)
      modifies this, trace
      ensures n <= |inputs| && trace.events == old(trace.events) + inputs[..n] && (n == |inputs| || ended)
      ensures Over() || Idle()
      ensures ended ==> Lawful(log[..|log| - |Tail()|], cur.nretry, lost) && log[|log| - |Tail()|..] == Tail()
      ensures Tame() && old(Paired()) && (forall i <- inputs :: Plain(i)) ==> lost == old(lost)
      ensures (lost == map[] <==> !overwritten) && forall k <- old(lost) :: k in lost && lost[k] == old(lost)[k]
      ensures !custom && !old(checkFailed) ==> !checkFailed && PoolSafe(log)
      ensures ended && err == 0 ==> exists i <- inputs :: i.Response? && i.code == 0
      ensures cur.nretry <= maxRetry && old(log) <= log
    {
      hide Balanced, PoolSafe, Times;
      n := 0;
      while n < |inputs| && !ended
        invariant 0 <= n <= |inputs| && (Over() || Idle()) && trace.events == old(trace.events) + inputs[..n]
        invariant !custom && !old(checkFailed) ==> !checkFailed
        invariant ended && err == 0 ==> exists i <- inputs :: i.Response? && i.code == 0
        invariant cur.nretry <= maxRetry && old(log) <= log
        invariant forall k <- old(lost) :: k in lost && lost[k] == old(lost)[k]
        invariant Tame() && old(Paired()) && (forall i <- inputs :: Plain(i)) ==> Paired() && lost == old(lost)
      {
        Deliver(inputs[n]);
        assert inputs[..n + 1] == inputs[..n] + [inputs[n]];
        n := n + 1;
      }
      if ended {
        OverIsLawful();
      }
    }

    lemma OverIsLawful()
      requires Over()
      ensures Lawful(log[..|log| - |Tail()|], cur.nretry, lost)
    {
      hide Times;
      SettledLaws(log[..|log| - |Tail()|], conn, lost, cur.nretry);
    }

    /**
      Every attempt was begun once and completed once, feedback matches selections and disposals match
      acquisitions, but for the attempts lost: those were never completed and still owe what they owed.
    */
    ghost predicate Lawful(history: Log, top: nat, lost: map<nat, Call>) {
      && (forall k: nat :: Times(history, k, Begins) == (if k <= top then 1 else 0))
      && (forall k: nat :: Times(history, k, Completes) == (if k <= top && k !in lost then 1 else 0))
      && (forall k: nat, s: nat ::
            Times(history, k, Selects(s)) == Times(history, k, Feeds(s)) + if Owes(lost, k, s) then 1 else 0)
      && (forall k: nat, q: nat ::
            Times(history, k, Acquires(q)) == Times(history, k, Disposes(q)) + if Holds(conn, lost, k, q) then 1 else 0)
      && Done !in history && Destroyed !in history
    }

    /** The ids of all attempts are distinct and lie inside the range reserved by CallMethod. */
    lemma IdsReserved(j: nat, k: nat)
      requires j <= maxRetry && k <= maxRetry
      ensures cid < Id(k) < cid + (2 + maxRetry)
      ensures Id(j) == Id(k) ==> j == k
    {
    }
  }

  /**
    A whole RPC: set up, started and fed with any events.  However it ends, inside the call or
    later, its log is lawful; if nothing ends it, it is waiting for the next event.
  */
  method CallMethod(cid: nat, ownRetry: int, optionRetry: int, conn: Connection, single: bool,
                    custom: bool, async: bool, timed: bool, world: nat -> Sending,
                    setupErr: int, backupFirst: bool, luck: Luck, inputs: seq<Input>)
    returns (c: Controller, n: nat)
    requires ownRetry <= MAX_RETRY_COUNT
    requires forall i <- inputs :: PossibleFor(ClampedRetry(ownRetry, optionRetry), i)
    ensures fresh(c) && c.maxRetry == ClampedRetry(ownRetry, optionRetry) && c.cid == cid
    ensures n <= |inputs| && c.trace.events == inputs[..n] && (n == |inputs| || c.ended)
    ensures c.Over() || c.Idle()
    ensures c.ended ==> |c.Tail()| <= |c.log| && c.log[|c.log| - |c.Tail()|..] == c.Tail()
    ensures c.ended ==> c.Lawful(c.log[..|c.log| - |c.Tail()|], c.cur.nretry, c.lost) && c.cur.nretry <= c.maxRetry
    ensures c.ended && c.err == 0 ==> exists i <- inputs :: i.Response? && i.code == 0
    ensures !custom ==> !c.checkFailed && PoolSafe(c.log)
    ensures c.lost == map[] <==> !c.overwritten
    ensures c.Tame() && EBACKUPREQUEST !in {setupErr, luck.timerErr} && (forall i <- inputs :: c.Plain(i)) ==>
              c.lost == map[]
  {
    hide Balanced, PoolSafe, Times, Controller.Lawful, Controller.Tame, Controller.StartOverwrites;
    c := new Controller(cid, ownRetry, optionRetry, conn, single, custom, async, timed, world);
    if c.Tame() {
      c.TameStart(setupErr, backupFirst, luck);
    }
    c.Start(setupErr, backupFirst, luck);
    n := 0;
    if c.ended {
      c.OverIsLawful();
    } else {
      n := c.Run(inputs);
    }
  }

  /** The CHECK on retried ids can fail: a custom policy that retries a cancellation is enough. */
  method RetriedCancellation() returns (c: Controller)
    ensures fresh(c) && c.checkFailed && c.custom
  {
    hide Balanced, PoolSafe;
    var luck := Luck(true, false, false, 0);
    c := new Controller(0, 3, 0, Single, true, true, false, false, k => Sending(0, 0, false, 0, 0, 0, 0, luck));
    c.Start(0, false, luck);
    c.Deliver(Cancel(luck));
  }

  const FAIR := Luck(false, false, false, 0)

  /** Every attempt can be sent, to server 7, which wants feedback. */
  function Willing(k: nat): (w: Sending) { Sending(0, 7, true, 0, k, 0, 0, FAIR) }

  /** A backup request is under way: the timer fired, and the first attempt is set aside. */
  method BackedUp() returns (c: Controller)
    ensures fresh(c) && fresh(c.trace) && c.Idle()
    ensures !c.custom && !c.single && !c.timed && c.maxRetry == 3 && c.conn.Pooled?
    ensures forall k: nat :: c.world(k) == Willing(k)
    ensures c.cur == Call(1, true, Some(7), Some(1)) && c.unf == Some(Call(0, true, Some(7), Some(0)))
    ensures !c.checkFailed && c.lost == map[] && c.cid == 0
  {
    hide Balanced, PoolSafe, Completion, Controller.Overwrites, Controller.SendOverwrites;
    c := new Controller(0, 3, 0, Pooled, false, false, true, false, Willing);
    Unharmed(c, 0);
    c.Start(0, true, FAIR);
    Unharmed(c, 1);
    c.Deliver(BackupTimer(FAIR));
  }

  lemma Unharmed(c: Controller, k: nat)
    requires !c.single && c.conn.Pooled? && forall j: nat :: c.world(j) == Willing(j)
    ensures c.SendError(c.world(k)) == 0 && !c.SendOverwrites(k, false) && !c.SendOverwrites(k, true)
  {
  }

  /**
    The CHECK on backup requests can fail with the default policy: while the first attempt is backed
    up, the peer answers the second with the code of a backup request.  The RPC then succeeds, and
    the first attempt was begun, was never completed, and never gave the balancer its feedback.
  */
  method OverwrittenBackup() returns (c: Controller)
    ensures fresh(c) && !c.custom && c.overwritten && !c.checkFailed && c.ended && c.err == 0
    ensures |c.Tail()| <= |c.log|
    ensures var history := c.log[..|c.log| - |c.Tail()|];
            && Times(history, 0, Begins) == 1 && Times(history, 0, Completes) == 0
            && Times(history, 0, Selects(7)) == Times(history, 0, Feeds(7)) + 1
  {
    hide Balanced, PoolSafe, Times, Completion, Controller.Overwrites, Controller.SendOverwrites;
    c := BackedUp();
    Unharmed(c, 2);
    c.Deliver(Response(1, EBACKUPREQUEST, FAIR));
    c.Deliver(Response(2, 0, FAIR));
    c.OverIsLawful();
    assert Owes(c.lost, 0, 7);
  }
}
