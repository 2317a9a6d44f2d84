/**
  Cutting, verifying and dispatching messages of one connection: net/brpc/input_messenger.cpp.
  Parsers, verifiers and the operating system answer from scripts, so that a claim for every script
  is a claim for every behaviour of theirs.
*/
module InputMessenger {
  import opened Basics

  const BAIDU_STD := 1

  datatype Handler = Handler(parse: bool, process: bool, verify: bool)

  datatype Verdict = Ok | NotEnough | TryOthers | Critical

  /** What one parser says, the bytes it takes, and what becomes of the message it cut, if it cut one. */
  datatype Answer = Answer(verdict: Verdict, eaten: nat, message: bool, genuine: bool, progressive: bool)

  /** What one read says: bytes (none at the end of the stream), or why there are none. */
  datatype Read = Bytes(n: nat) | Interrupted | WouldBlock(more: bool) | Broken

  datatype Auth = Unknown | Accepted | Rejected

  datatype Fate = Held | Launched | Destroyed

  /** A message handed to its process function, and whether the peer was authenticated by then. */
  datatype Launch = Launch(id: nat, accepted: bool)

  function Next(script: seq<Answer>): (a: Answer) {
    if script == [] then Answer(NotEnough, 0, false, false, false) else script[0]
  }

  function Rest<T>(s: seq<T>): (r: seq<T>) { if s == [] then s else s[1..] }

  /** Asking handlers in some order until one does not pass: its answer, its index and the script left. */
  function Asked(script: seq<Answer>, order: seq<nat>): (r: (Answer, Option<nat>, seq<Answer>))
    ensures r.0.verdict == Ok ==> |r.2| < |script|
    decreases |order|
  {
    if order == [] then (Answer(TryOthers, 0, false, false, false), None, script)
    else if Next(script).verdict != TryOthers then (Next(script), Some(order[0]), Rest(script))
    else Asked(Rest(script), order[1..])
  }

  /** The handlers with a parser from i on, but for the one asked first. */
  function Others(handlers: seq<Handler>, first: int, i: nat): (order: seq<nat>)
    requires i <= |handlers|
    ensures forall k :: 0 <= k < |order| ==> i <= order[k] < |handlers|
    decreases |handlers| - i
  {
    if i == |handlers| then []
    else (if i == first || !handlers[i].parse then [] else [i]) + Others(handlers, first, i + 1)
  }

  predicate Usable(handlers: seq<Handler>, i: int) {
    0 <= i < |handlers| && handlers[i].parse
  }

  /** Who is asked, in which order: the preferred handler, then all others by index. */
  function Order(handlers: seq<Handler>, preferred: int): (order: seq<nat>)
    ensures forall k :: 0 <= k < |order| ==> order[k] < |handlers|
  {
    (if Usable(handlers, preferred) then [preferred] else []) + Others(handlers, preferred, 0)
  }

  lemma {:induction false} OthersMeans(handlers: seq<Handler>, first: int, i: nat)
    requires i <= |handlers|
    ensures var order := Others(handlers, first, i);
            && (forall x: nat :: x in order <==> i <= x != first && Usable(handlers, x))
            && (forall j, k :: 0 <= j < k < |order| ==> order[j] < order[k])
    decreases |handlers| - i
  {
    if i < |handlers| {
      OthersMeans(handlers, first, i + 1);
    }
  }

  /** Every handler with a parser is asked once, the preferred one first and the others by rising index. */
  lemma OrderMeans(handlers: seq<Handler>, preferred: int)
    ensures var order := Order(handlers, preferred);
            && (forall x: nat :: x in order <==> Usable(handlers, x))
            && (Usable(handlers, preferred) ==> order != [] && order[0] == preferred)
            && (forall j, k :: 0 <= j < k < |order| ==>
                  order[k] != preferred && (order[j] != preferred ==> order[j] < order[k]))
  {
    OthersMeans(handlers, preferred, 0);
    var others := Others(handlers, preferred, 0);
    assert forall k :: 0 <= k < |others| ==> others[k] in others;
    hide Others;
  }

  /** The moving average over a window of ten messages. */
  function Averaged(avg: nat, size: nat): (r: nat)
    ensures avg != 0 ==> 10 * r <= 9 * avg + size < 10 * r + 10
  {
    if avg != 0 then (avg * 9 + size) / 10 else size
  }

  function Average(sizes: seq<nat>): (r: nat) {
    if sizes == [] then 0 else Averaged(Average(sizes[..|sizes| - 1]), sizes[|sizes| - 1])
  }

  /** How much to read at once: sixteen average messages, within limits. */
  function OnceRead(avg: nat): (n: nat)
    ensures 4096 <= n <= 524288 && (4096 <= 16 * avg <= 524288 ==> n == 16 * avg)
  {
    if avg * 16 < 4096 then 4096 else if avg * 16 > 524288 then 524288 else avg * 16
  }

  /** Where cutting stands: the answers to come and the handler to ask first. */
  datatype Place = Place(script: seq<Answer>, preferred: int)

  /** One cut: the answer, who gave it, and where cutting stands if it goes on. */
  function Cut(handlers: seq<Handler>, client: bool, p: Place): (r: (Answer, Option<nat>, Place))
    ensures r.0.verdict == Ok ==> |r.2.script| < |p.script|
  {
    if client && p.preferred != BAIDU_STD && Usable(handlers, p.preferred) && Next(p.script).verdict == TryOthers
    then (Answer(Critical, 0, false, false, false), None, Place(Rest(p.script), p.preferred))
    else
      var r := Asked(p.script, Order(handlers, p.preferred));
      (r.0, r.1, Place(r.2, if r.1.Some? then r.1.value else p.preferred))
  }

  /** Where n cuts in a row lead. */
  function After(handlers: seq<Handler>, client: bool, p: Place, n: nat): (q: Place) {
    if n == 0 then p else Cut(handlers, client, After(handlers, client, p, n - 1)).2
  }

  function Answers(handlers: seq<Handler>, client: bool, p: Place, n: nat): (s: seq<Answer>)
    ensures |s| == n
  {
    if n == 0 then []
    else Answers(handlers, client, p, n - 1) + [Cut(handlers, client, After(handlers, client, p, n - 1)).0]
  }

  predicate IsOk(a: Answer) { a.verdict == Ok }

  predicate IsMessage(a: Answer) { a.verdict == Ok && a.message }

  /** Reads that do not end the loop by themselves. */
  predicate GoesOn(r: Read) { r.Interrupted? || (r.WouldBlock? && r.more) || (r.Bytes? && r.n > 0) }

  predicate IsBytes(r: Read) { r.Bytes? }

  /** The bytes that come in when every read takes so many at most. */
  function Incoming(stream: seq<Read>, limit: nat): (n: nat) {
    if stream == [] then 0
    else
      var r := stream[|stream| - 1];
      Incoming(stream[..|stream| - 1], limit) + if r.Bytes? then Min(r.n, limit) else 0
  }

  /** For every message cut, in order, whether its handler verifies and what became of it; and the launches. */
  datatype History = History(verifying: seq<bool>, fates: seq<Fate>, launches: seq<Launch>)

  ghost predicate OneFate(h: History, last: Option<nat>) {
    && |h.verifying| == |h.fates| && (last.Some? ==> last.value < |h.fates|)
    && forall id :: 0 <= id < |h.fates| ==> (h.fates[id] == Held <==> last == Some(id))
  }

  predicate IsLaunch(h: History, l: Launch) {
    && l.id < |h.fates| && |h.verifying| == |h.fates|
    && h.fates[l.id] == Launched && (h.verifying[l.id] ==> l.accepted)
  }

  /** Launches are of launched messages, authenticated if need be, in the order of cutting, before any held. */
  ghost predicate InOrder(h: History, last: Option<nat>) {
    && (forall k :: 0 <= k < |h.launches| ==> IsLaunch(h, h.launches[k]))
    && (forall j, k :: 0 <= j < k < |h.launches| ==> h.launches[j].id < h.launches[k].id)
    && (forall k :: 0 <= k < |h.launches| && last.Some? ==> h.launches[k].id < last.value)
  }

  ghost predicate HasLaunch(h: History, id: nat) {
    exists k :: 0 <= k < |h.launches| && h.launches[k].id == id
  }

  ghost predicate NoneForgotten(h: History) {
    forall id :: 0 <= id < |h.fates| && h.fates[id] == Launched ==> HasLaunch(h, id)
  }

  /** Every message has one fate and launches follow the order of cutting. */
  ghost predicate Orderly(h: History, last: Option<nat>) {
    OneFate(h, last) && InOrder(h, last) && NoneForgotten(h)
  }

  /** Nothing decided is ever undone. */
  ghost predicate Grows(h: History, h': History) {
    && h.launches <= h'.launches && h.verifying <= h'.verifying && |h.fates| <= |h'.fates|
    && forall id :: 0 <= id < |h.fates| && h.fates[id] != Held ==> h'.fates[id] == h.fates[id]
  }

  lemma GrowsOn(a: History, b: History, c: History)
    requires Grows(a, b) && Grows(b, c)
    ensures Grows(a, c)
  {
  }

  /** What the last message cut is, and what has become of it. */
  predicate Newest(h: History, verify: bool, fate: Fate) {
    |h.verifying| == |h.fates| > 0 && h.verifying[|h.fates| - 1] == verify && h.fates[|h.fates| - 1] == fate
  }

  function LaunchHeld(h: History, id: nat, accepted: bool): (h': History)
    requires id < |h.fates|
  {
    History(h.verifying, h.fates[id := Launched], h.launches + [Launch(id, accepted)])
  }

  function Enter(h: History, verify: bool, fate: Fate, accepted: bool): (h': History) {
    History(h.verifying + [verify], h.fates + [fate],
            if fate == Launched then h.launches + [Launch(|h.fates|, accepted)] else h.launches)
  }

  lemma LaunchHeldKeeps(h: History, id: nat, accepted: bool)
    requires Orderly(h, Some(id)) && (h.verifying[id] ==> accepted)
    ensures Orderly(LaunchHeld(h, id, accepted), None)
  {
    var h' := LaunchHeld(h, id, accepted);
    assert InOrder(h', None) by { hide HasLaunch; }
    forall i | 0 <= i < |h'.fates| && h'.fates[i] == Launched ensures HasLaunch(h', i) {
      MoreLaunches(h, h', i);
      assert h'.launches[|h.launches|].id == id;
    }
  }

  lemma MoreLaunches(h: History, h': History, id: nat)
    requires h.launches <= h'.launches
    ensures HasLaunch(h, id) ==> HasLaunch(h', id)
  {
    if HasLaunch(h, id) {
      var k :| 0 <= k < |h.launches| && h.launches[k].id == id;
      assert h'.launches[k] == h.launches[k];
    }
  }

  lemma EnterKeeps(h: History, verify: bool, fate: Fate, accepted: bool)
    requires Orderly(h, None) && (verify && fate == Launched ==> accepted)
    ensures Orderly(Enter(h, verify, fate, accepted), if fate == Held then Some(|h.fates|) else None)
  {
    var h' := Enter(h, verify, fate, accepted);
    var last := if fate == Held then Some(|h.fates|) else None;
    assert OneFate(h', last) by { hide HasLaunch, IsLaunch; }
    EnterInOrder(h, verify, fate, accepted);
    forall i | 0 <= i < |h'.fates| && h'.fates[i] == Launched ensures HasLaunch(h', i) {
      hide InOrder, IsLaunch;
      if i < |h.fates| {
        assert h.fates[i] == Launched;
        MoreLaunches(h, h', i);
      } else {
        assert h'.launches[|h.launches|].id == i;
      }
    }
  }

  lemma EnterInOrder(h: History, verify: bool, fate: Fate, accepted: bool)
    requires Orderly(h, None) && (verify && fate == Launched ==> accepted)
    ensures InOrder(Enter(h, verify, fate, accepted), if fate == Held then Some(|h.fates|) else None)
  {
    hide NoneForgotten;
    var h' := Enter(h, verify, fate, accepted);
    forall k | 0 <= k < |h.launches| ensures IsLaunch(h', h.launches[k]) {
      assert IsLaunch(h, h.launches[k]);
    }
  }

  class Connection {
    const handlers: seq<Handler>
    const client: bool
    var script: seq<Answer>
    var input: seq<Read>
    var unread: nat
    var avg: nat
    var pending: nat
    var preferred: int
    var auth: Auth
    var failed: bool
    var cut: nat            // messages so far; each goes by its number
    var last: Option<nat>

    ghost var history: History
    ghost var sizes: seq<nat>   // the message sizes recorded
    ghost var received: nat     // bytes read in all
    ghost var lost: nat         // bytes that a failing cut took
    ghost var rounds: nat       // how often the buffer was cut empty of messages

    constructor (handlers: seq<Handler>, client: bool, preferred: int, script: seq<Answer>, input: seq<Read>)
      ensures Accounted() && Dispatched() && last == None && cut == 0 && !failed && auth == Unknown
      ensures this.handlers == handlers && this.client == client && this.preferred == preferred
      ensures this.script == script && this.input == input
    {
      this.handlers, this.client, this.preferred, this.script, this.input := handlers, client, preferred, script, input;
      unread, avg, pending, auth, failed, cut, last := 0, 0, 0, Unknown, false, 0, None;
      history, sizes, received, lost, rounds := History([], [], []), [], 0, 0, 0;
    }

    /** Every byte read is unread, in a recorded size, in the size being added up, or lost to a failure. */
    ghost predicate Accounted()
      reads `received, `unread, `sizes, `pending, `lost, `failed, `avg
    {
      && received == unread + Sum(sizes) + pending + lost && (!failed ==> lost == 0)
      && avg == Average(sizes)
    }

    /** The history is orderly, and what is held has been verified if it had to be. */
    ghost predicate Dispatched()
      reads `history, `last, `cut, `auth, `failed
    {
      && Orderly(history, last) && |history.fates| == cut
      && (last.Some? && history.verifying[last.value] ==> auth == Accepted)
      && (!failed ==> auth != Rejected)
    }

    /** A parser is asked; what it eats is gone from the buffer whatever it says. */
    method Parse() returns (a: Answer)
      modifies `script, `unread
      ensures a == Next(old(script)) && script == Rest(old(script))
      ensures unread <= old(unread)
    {
      a := Next(script);
      script := Rest(script);
      unread := unread - if a.eaten < unread then a.eaten else unread;
    }

    /** Asks the parsers in the order of their index, but for one. */
    method AskOthers(first: int) returns (a: Answer, index: nat)
      modifies `script, `unread, `preferred
      ensures unread <= old(unread)
      ensures var r := Asked(old(script), Others(handlers, first, 0));
              && a == r.0 && script == r.2
              && (a.verdict == Ok || a.verdict == NotEnough ==> r.1 == Some(index) && preferred == index < |handlers|)
    {
      hide Next, Rest;
      index := 8888;
      for i := 0 to |handlers|
        invariant unread <= old(unread)
        invariant Asked(script, Others(handlers, first, i)) == Asked(old(script), Others(handlers, first, 0))
      {
        if i == first || !handlers[i].parse {
          assert Others(handlers, first, i) == Others(handlers, first, i + 1);
          continue;
        }
        ghost var order := Others(handlers, first, i);
        assert order[0] == i && order[1..] == Others(handlers, first, i + 1);
        a := Parse();
        if a.verdict == Ok || a.verdict == NotEnough {
          preferred := i;
          index := i;
          return;
        } else if a.verdict != TryOthers {
          return;
        }
      }
      a := Answer(TryOthers, 0, false, false, false);
    }

    /** Takes the first handler that does not pass; a client sticks to its protocol, baidu_std apart. */
    method CutInputMessage() returns (a: Answer, index: nat)
      modifies `script, `unread, `preferred
      ensures unread <= old(unread)
      ensures var r := Cut(handlers, client, old(Place(script, preferred)));
              && a == r.0 && script == r.2.script
              && (a.verdict == Ok || a.verdict == NotEnough ==>
                    r.1 == Some(index) && r.2.preferred == preferred == index < |handlers|)
      ensures client && old(preferred) != 1 && Usable(handlers, old(preferred)) ==>
                && script == Rest(old(script))
                && (if Next(old(script)).verdict == TryOthers then a.verdict == Critical else a == Next(old(script)))
    {
      hide Next, Rest;
      var first := preferred;
      index := 8888;
      ghost var order := Order(handlers, first);
      if Usable(handlers, first) {
        assert order[0] == first && order[1..] == Others(handlers, first, 0);
        a := Parse();
        if a.verdict == Ok || a.verdict == NotEnough {
          index := first;
          return;
        } else if a.verdict != TryOthers {
          return;
        }
        if client && first != BAIDU_STD {
          a := Answer(Critical, 0, false, false, false);
          return;
        }
        preferred := -1;
      } else {
        assert order == Others(handlers, first, 0);
      }
      a, index := AskOthers(first);
    }

    /** QueueMessage on the message held, if any; started in a thread or run on the spot. */
    method LaunchLast()
      requires Dispatched()
      modifies `last, `history
      ensures Dispatched() && last == None && Grows(old(history), history)
    {
      if last.Some? {
        LaunchHeldKeeps(history, last.value, auth == Accepted);
        history := LaunchHeld(history, last.value, auth == Accepted);
        last := None;
      }
    }

    /** A message just cut: launch the one before it, verify it if need be, and hold or launch it. */
    method Dispatch(a: Answer, index: nat) returns (stop: bool)
      requires Dispatched() && !failed && index < |handlers|
      modifies `cut, `last, `history, `auth, `failed
      ensures Dispatched() && cut == old(cut) + 1 && Grows(old(history), history)
      ensures var h := handlers[index];
              var rejected := h.process && h.verify && old(auth) == Unknown && !a.genuine;
              && stop == failed == rejected
              && (h.process && h.verify ==> auth == if rejected then Rejected else Accepted)
              && Newest(history, h.verify, if !h.process || rejected then Destroyed
                                           else if a.progressive then Launched else Held)
    {
      hide Orderly, Grows, Newest;
      stop := false;
      LaunchLast();
      ghost var h := history;
      if !handlers[index].process {
        Settle(handlers[index].verify, Destroyed);
        GrowsOn(old(history), h, history);
        return;
      }
      if handlers[index].verify {
        if auth == Unknown {
          if a.genuine {
            auth := Accepted;
          } else {
            auth := Rejected;
            failed := true;
            Settle(true, Destroyed);
            GrowsOn(old(history), h, history);
            return true;
          }
        } else {
          assert auth == Accepted;
        }
      }
      if !a.progressive {
        Settle(handlers[index].verify, Held);
      } else {
        Settle(handlers[index].verify, Launched);
      }
      GrowsOn(old(history), h, history);
    }

    /** Enters the next message, with what becomes of it. */
    method Settle(verify: bool, fate: Fate)
      requires Dispatched() && last == None && (verify && fate != Destroyed ==> auth == Accepted)
      modifies `cut, `last, `history
      ensures Dispatched() && cut == old(cut) + 1 && (last.Some? <==> fate == Held) && Grows(old(history), history)
      ensures Newest(history, verify, fate)
    {
      hide InOrder, NoneForgotten;
      EnterKeeps(history, verify, fate, auth == Accepted);
      history := Enter(history, verify, fate, auth == Accepted);
      if fate == Held {
        last := Some(cut);
      }
      cut := cut + 1;
    }

    /** A cut is done: what it took, and what was taken before it, is the size of one message. */
    method Record(before: nat)
      requires received == before + Sum(sizes) + pending + lost && unread <= before && avg == Average(sizes)
      modifies `pending, `sizes, `avg
      ensures sizes == old(sizes) + [old(pending) + (before - unread)] && pending == 0
      ensures received == unread + Sum(sizes) + lost && avg == Average(sizes)
    {
      pending := pending + (before - unread);
      Recorded(sizes, pending);
      sizes := sizes + [pending];
      avg := Averaged(avg, pending);
      pending := 0;
    }

    /** The n cuts since p all gave a message or nothing to process, each size was recorded and each message counted. */
    ghost predicate HasCut(p: Place, n: nat, sizes0: nat, cut0: nat)
      reads `script, `preferred, `sizes, `cut
    {
      && Place(script, preferred) == After(handlers, client, p, n)
      && (forall k :: 0 <= k < n ==> Answers(handlers, client, p, n)[k].verdict == Ok)
      && |sizes| == sizes0 + n && cut == cut0 + Number(Answers(handlers, client, p, n), IsMessage)
    }

    /** The n cuts since p, after the last of them. */
    ghost predicate HasEnded(p: Place, n: nat, sizes0: nat, cut0: nat)
      reads `sizes, `cut, `failed, `auth
    {
      var s := Answers(handlers, client, p, n);
      && n > 0 && (forall k :: 0 <= k < n - 1 ==> s[k].verdict == Ok)
      && (failed <==> s[n - 1].verdict != NotEnough)
      && (s[n - 1].verdict == Ok ==> auth == Rejected && s[n - 1].message)
      && |sizes| == sizes0 + Number(s, IsOk) && cut == cut0 + Number(s, IsMessage)
    }

    /** Cuts once and deals with the answer. */
    method CutNext(ghost p: Place, ghost n: nat, ghost sizes0: nat, ghost cut0: nat) returns (more: bool)
      requires Dispatched() && Accounted() && !failed && HasCut(p, n, sizes0, cut0)
      modifies this
      ensures Dispatched() && Accounted() && Grows(old(history), history)
      ensures input == old(input) && received == old(received) && rounds == old(rounds)
      ensures more ==> !failed && HasCut(p, n + 1, sizes0, cut0) && |script| < |old(script)|
      ensures !more ==> HasEnded(p, n + 1, sizes0, cut0)
    {
      hide Orderly, Grows, Newest, Cut, Average, Averaged, Sum, Number, Answers, After;
      NoGrowth(history);
      OneMoreCut(handlers, client, p, n);
      var size := unread;
      var a, index := CutInputMessage();
      if a.verdict == NotEnough {
        pending := pending + (size - unread);
        return false;
      } else if a.verdict != Ok {
        lost := size - unread;
        failed := true;
        return false;
      }
      Record(size);
      if a.message {
        var stop := Dispatch(a, index);
        return !stop;
      }
      more := true;
    }

    /**
      Cuts messages until the buffer holds no whole one, or the connection is given up: on an answer that is
      neither, or on a message that is not genuine.
    */
    method CutAll() returns (stop: bool, ghost n: nat)
      requires Dispatched() && Accounted() && !failed
      modifies this
      ensures Dispatched() && Accounted() && Grows(old(history), history) && stop == failed
      ensures input == old(input) && received == old(received) && rounds == old(rounds) + 1
      ensures HasEnded(old(Place(script, preferred)), n, |old(sizes)|, old(cut))
    {
      hide Grows, Connection.Dispatched, Connection.Accounted, Cut;
      NoGrowth(history);
      n := 0;
      ghost var p := Place(script, preferred);
      var more := true;
      while more
        invariant Dispatched() && Accounted() && Grows(old(history), history)
        invariant input == old(input) && received == old(received) && rounds == old(rounds)
        invariant if more then !failed && HasCut(p, n, |old(sizes)|, old(cut))
                  else HasEnded(p, n, |old(sizes)|, old(cut))
        decreases more, |script|
      {
        ghost var h := history;
        more := CutNext(p, n, |old(sizes)|, old(cut));
        n := n + 1;
        GrowsOn(old(history), h, history);
      }
      stop := failed;
      rounds := rounds + 1;
    }

    /** All the reads so far went on; each that brought bytes was taken in part or whole and followed by cutting. */
    ghost predicate HasRead(stream: seq<Read>, k: nat, received0: nat, rounds0: nat)
      reads `input, `received, `rounds
    {
      && k <= |stream| && input == stream[k..]
      && Incoming(stream[..k], 4096) <= received - received0 <= Incoming(stream[..k], 524288)
      && rounds == rounds0 + Number(stream[..k], IsBytes)
    }

    /** One read, and the cutting after it. */
    method ReadOnce(ghost stream: seq<Read>, ghost k: nat, ghost received0: nat, ghost rounds0: nat)
      returns (more: bool)
      requires Dispatched() && Accounted() && !failed && k < |stream| && HasRead(stream, k, received0, rounds0)
      modifies this
      ensures Dispatched() && Accounted() && Grows(old(history), history)
      ensures HasRead(stream, k + 1, received0, rounds0)
      ensures if failed then !more && (stream[k].Broken? || stream[k].Bytes?)
              else !stream[k].Broken? && (more <==> GoesOn(stream[k]))
    {
      hide Orderly, Grows, Average, Sum, Number, Averaged, Connection.HasEnded, Incoming;
      NoGrowth(history);
      OneMoreRead(stream, k);
      var once := OnceRead(avg);
      var r := input[0];
      input := input[1..];
      if r.Interrupted? || (r.WouldBlock? && r.more) {
        return true;
      }
      if !r.Bytes? {
        failed := r.Broken?;
        return false;
      }
      var n := if r.n < once then r.n else once;
      received := received + n;
      unread := unread + n;
      var stop, _ := CutAll();
      more := !stop && n != 0;
    }

    /**
      Reads and cuts until the stream ends, fails or has nothing for now; the message held is launched on
      every way out.  The k reads made are the next ones, and all but the last go on.
    */
    method OnNewMessages() returns (ghost k: nat)
      requires Dispatched() && Accounted() && !failed
      modifies this
      ensures Dispatched() && Accounted() && Grows(old(history), history) && last == None
      ensures forall id :: 0 <= id < cut ==>
                (history.fates[id] == Launched && HasLaunch(history, id))
                || (history.fates[id] == Destroyed && !HasLaunch(history, id))
      ensures HasRead(old(input), k, old(received), old(rounds))
      ensures forall j :: 0 <= j < k - 1 ==> GoesOn(old(input)[j])
      ensures failed ==> k > 0 && (old(input)[k - 1].Broken? || old(input)[k - 1].Bytes?)
      ensures !failed ==> if k > 0 && !GoesOn(old(input)[k - 1]) then !old(input)[k - 1].Broken? else input == []
    {
      hide Orderly, Grows, Connection.Accounted, Number, Incoming, GoesOn;
      NoGrowth(history);
      k := 0;
      ghost var stream := input;
      var more := true;
      NoReads(stream);
      while more && input != []
        invariant Dispatched() && Accounted() && Grows(old(history), history)
        invariant HasRead(stream, k, old(received), old(rounds))
        invariant forall j :: 0 <= j < k - 1 ==> GoesOn(stream[j])
        invariant more ==> !failed && (k > 0 ==> GoesOn(stream[k - 1]))
        invariant failed ==> k > 0 && (stream[k - 1].Broken? || stream[k - 1].Bytes?)
        invariant !more && !failed ==> k > 0 && !GoesOn(stream[k - 1]) && !stream[k - 1].Broken?
        decreases more, |input|
      {
        ghost var h := history;
        more := ReadOnce(stream, k, old(received), old(rounds));
        k := k + 1;
        GrowsOn(old(history), h, history);
      }
      ghost var h := history;
      LaunchLast();
      GrowsOn(old(history), h, history);
      Settled(history);
    }
  }

  lemma NoReads(stream: seq<Read>)
    ensures stream[0..] == stream && Number(stream[..0], IsBytes) == 0
    ensures forall limit: nat :: Incoming(stream[..0], limit) == 0
  {
  }

  lemma OneMoreRead(stream: seq<Read>, k: nat)
    requires k < |stream|
    ensures stream[k..][0] == stream[k] && stream[k..][1..] == stream[k + 1..]
    ensures Number(stream[..k + 1], IsBytes) == Number(stream[..k], IsBytes) + if stream[k].Bytes? then 1 else 0
    ensures forall limit: nat ::
              Incoming(stream[..k + 1], limit) ==
              Incoming(stream[..k], limit) + if stream[k].Bytes? then Min(stream[k].n, limit) else 0
  {
    assert stream[..k + 1] == stream[..k] + [stream[k]] && stream[..k + 1][..k] == stream[..k];
    NumberMore(stream[..k], IsBytes, stream[k]);
  }

  /** One answer more, after n that were all messages or nothing to process. */
  lemma OneMoreCut(handlers: seq<Handler>, client: bool, p: Place, n: nat)
    requires forall k :: 0 <= k < n ==> Answers(handlers, client, p, n)[k].verdict == Ok
    ensures var s, a := Answers(handlers, client, p, n), Cut(handlers, client, After(handlers, client, p, n)).0;
            var s' := Answers(handlers, client, p, n + 1);
            && s' == s + [a] && Number(s', IsOk) == n + (if IsOk(a) then 1 else 0)
            && Number(s', IsMessage) == Number(s, IsMessage) + (if IsMessage(a) then 1 else 0)
            && After(handlers, client, p, n + 1) == Cut(handlers, client, After(handlers, client, p, n)).2
  {
    hide Cut, Number;
    var s, a := Answers(handlers, client, p, n), Cut(handlers, client, After(handlers, client, p, n)).0;
    NumberAll(s, IsOk);
    NumberMore(s, IsOk, a);
    NumberMore(s, IsMessage, a);
  }

  lemma Settled(h: History)
    requires Orderly(h, None)
    ensures forall id :: 0 <= id < |h.fates| ==>
              (h.fates[id] == Launched && HasLaunch(h, id)) || (h.fates[id] == Destroyed && !HasLaunch(h, id))
  {
    forall id | 0 <= id < |h.fates|
      ensures (h.fates[id] == Launched && HasLaunch(h, id)) || (h.fates[id] == Destroyed && !HasLaunch(h, id))
    {
      if HasLaunch(h, id) {
        var k :| 0 <= k < |h.launches| && h.launches[k].id == id;
        assert IsLaunch(h, h.launches[k]);
      }
    }
  }

  lemma NoGrowth(h: History)
    ensures Grows(h, h)
  {
  }

  lemma Recorded(sizes: seq<nat>, size: nat)
    ensures Sum(sizes + [size]) == Sum(sizes) + size
    ensures Average(sizes + [size]) == Averaged(Average(sizes), size)
  {
    SumMore(sizes, size);
    assert (sizes + [size])[..|sizes|] == sizes;
  }

  /** The average stays between the smallest and the largest message. */
  lemma {:induction false} AverageWithin(sizes: seq<nat>, low: nat, high: nat)
    requires sizes != [] && forall k :: 0 <= k < |sizes| ==> low <= sizes[k] <= high
    ensures low <= Average(sizes) <= high
  {
    if |sizes| > 1 {
      AverageWithin(sizes[..|sizes| - 1], low, high);
    }
  }

  /** The answer taken is the first that is not a pass; every handler before it in the order passed. */
  lemma {:induction false} AskedIsFirst(script: seq<Answer>, order: seq<nat>) returns (k: nat)
    ensures k <= |order| && k <= |script| && forall j :: 0 <= j < k ==> script[j].verdict == TryOthers
    ensures var r := Asked(script, order);
            if k == |order| then r.0.verdict == TryOthers && r.2 == script[k..]
            else
              && r.1 == Some(order[k]) && r.0.verdict != TryOthers
              && r.0 == Next(script[k..]) && r.2 == Rest(script[k..])
    decreases |order|
  {
    if order == [] || Next(script).verdict != TryOthers {
      k := 0;
      assert script[0..] == script;
    } else {
      var m := AskedIsFirst(script[1..], order[1..]);
      k := m + 1;
      assert script[1..][m..] == script[k..];
      forall j | 0 <= j < k ensures script[j].verdict == TryOthers {
        assert j > 0 ==> script[j] == script[1..][j - 1];
      }
    }
  }
}
