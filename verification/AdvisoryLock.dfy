/**
 * The lock instance itself (src/advisory_lock.rs) as imperative code: `acquire`
 * with its retry loop, `release`, and `with_lock`, over one session of the
 * server modelled in LeaderElection.
 */
module AdvisoryLocks {
  import opened Options
  import opened LeaderElection

  datatype LockError =
    | ConnectionError
    | LockAcquisitionTimeout
    | LockAcquisitionFailed
    | LockReleaseError
    | ValidationError
    | ConcurrentAcquisitionInProgress
    | StaleFencingToken
    | OperationFailed

  datatype Guard = Guard(lockId: int, fencingToken: nat)

  /** How one attempt ends; `executed` tells whether the server handled the request all the same. */
  datatype Ending = Replied | DbError(executed: bool) | Timeout(executed: bool)

  /** How an unlock request ends: confirmed, not handled, or handled with the reply lost. */
  datatype Ack = Confirmed | NotHandled | Unseen

  /** One attempt: the lock as other sessions have left it by then, and how the attempt ends. */
  datatype Attempt = Attempt(found: Server, ending: Ending)

  /** The lock as this session finds it; others cannot change it while this session holds it. */
  function Meanwhile(server: Server, me: nat, found: Server): Server {
    if server.owner == Some(me) then server else found
  }

  /** Other sessions never take the lock on behalf of this one. */
  predicate Plausible(me: nat, attempts: seq<Attempt>) {
    forall a :: a in attempts ==> a.found.owner != Some(me) && (a.found.owner.Some? <==> a.found.count > 0)
  }

  /** The specification of the retry loop: final server and result (None for success). */
  function RetryLoop(server: Server, me: nat, attempts: seq<Attempt>): (Server, Option<LockError>)
    decreases |attempts|
  {
    if |attempts| == 0 then (server, Some(LockAcquisitionFailed))
    else
      var s := Meanwhile(server, me, attempts[0].found);
      match attempts[0].ending
      case Replied =>
        if Grants(s, me) then (Lock(s, me), None) else RetryLoop(s, me, attempts[1..])
      case DbError(executed) =>
        var t := if executed then Lock(s, me) else s;
        if |attempts| == 1 then (t, Some(LockAcquisitionFailed)) else RetryLoop(t, me, attempts[1..])
      case Timeout(executed) =>
        var t := if executed then Lock(s, me) else s;
        if |attempts| == 1 then (t, Some(LockAcquisitionTimeout)) else RetryLoop(t, me, attempts[1..])
  }

  /** Grants the server handed out in attempts whose reply was never read. */
  ghost predicate EveryReplyRead(attempts: seq<Attempt>) {
    forall i :: 0 <= i < |attempts| ==>
      attempts[i].ending != DbError(true) && attempts[i].ending != Timeout(true)
  }

  /** Success means holding the lock once more than before, plus once per grant that went unread. */
  lemma {:induction false} RetryLoopCounts(server: Server, me: nat, attempts: seq<Attempt>)
    requires (server.owner.Some? <==> server.count > 0) && Plausible(me, attempts)
    ensures var loop := RetryLoop(server, me, attempts);
      var s, e := loop.0, loop.1;
      && (s.owner.Some? <==> s.count > 0)
      && HoldCount(s, me) >= HoldCount(server, me) + (if e.None? then 1 else 0)
      && (EveryReplyRead(attempts) ==> HoldCount(s, me) == HoldCount(server, me) + (if e.None? then 1 else 0))
      && (HoldCount(server, me) > 0 && attempts != [] && attempts[0].ending == Replied ==> e.None?)
    decreases |attempts|
  {
    if attempts != [] {
      var s := Meanwhile(server, me, attempts[0].found);
      match attempts[0].ending
      case Replied =>
        RetryLoopCounts(s, me, attempts[1..]);
      case DbError(executed) =>
        RetryLoopCounts(if executed then Lock(s, me) else s, me, attempts[1..]);
      case Timeout(executed) =>
        RetryLoopCounts(if executed then Lock(s, me) else s, me, attempts[1..]);
    }
  }

  /** The lock as the loop finds it in an attempt, when no earlier attempt succeeded. */
  ghost function FoundIn(server: Server, me: nat, attempts: seq<Attempt>, i: nat): Server
    requires i < |attempts|
    decreases |attempts|
  {
    var s := Meanwhile(server, me, attempts[0].found);
    if i == 0 then s else FoundIn(Tried(s, me, attempts[0].ending), me, attempts[1..], i - 1)
  }

  /** An attempt whose reply is read and grants the lock. */
  ghost predicate Succeeds(server: Server, me: nat, attempts: seq<Attempt>, i: nat) {
    && i < |attempts| && attempts[i].ending.Replied?
    && (FoundIn(server, me, attempts, i).owner.None? || FoundIn(server, me, attempts, i).owner == Some(me))
  }

  /**
   * The loop fails exactly when no attempt succeeds; it reports a timeout exactly when
   * the last attempt timed out, and otherwise that acquisition failed.
   */
  lemma {:induction false} RetryLoopErrors(server: Server, me: nat, attempts: seq<Attempt>)
    ensures var e := RetryLoop(server, me, attempts).1;
      && (e.None? <==> exists i: nat :: Succeeds(server, me, attempts, i))
      && (e.Some? ==> e.value == if attempts != [] && attempts[|attempts| - 1].ending.Timeout? then LockAcquisitionTimeout
                                 else LockAcquisitionFailed)
    decreases |attempts|
  {
    if attempts != [] {
      var t := Tried(Meanwhile(server, me, attempts[0].found), me, attempts[0].ending);
      RetryLoopErrors(t, me, attempts[1..]);
      forall i: nat | i + 1 < |attempts|
        ensures Succeeds(server, me, attempts, i + 1) <==> Succeeds(t, me, attempts[1..], i)
      {
      }
      if i: nat :| Succeeds(t, me, attempts[1..], i) {
        assert Succeeds(server, me, attempts, i + 1);
      }
      if i: nat :| Succeeds(server, me, attempts, i) {
        assert i > 0 ==> Succeeds(t, me, attempts[1..], i - 1);
      }
      if attempts[0].ending.Replied? && RetryLoop(server, me, attempts).1.None? && !Succeeds(server, me, attempts, 0) {
        assert exists i: nat :: Succeeds(t, me, attempts[1..], i);
      }
    }
  }

  // ------------------------------------- the loop is a run of the protocol

  /** The protocol steps that one attempt of replica `r` consists of. */
  ghost function OwnSteps(r: nat, a: Attempt): seq<Step> {
    match a.ending
    case Replied => [ServerAnswers(r), ClientReads(r)]
    case DbError(executed) => if executed then [ServerAnswers(r), AttemptErrors(r)] else [AttemptErrors(r)]
    case Timeout(executed) => if executed then [ServerAnswers(r), TimesOut(r)] else [TimesOut(r)]
  }

  lemma AfterOne(s: State, step: Step)
    requires CanStep(s, step)
    ensures After(s, [step]) == Some(Next(s, step))
  {
    assert [step][..0] == [];
  }

  lemma {:induction false} AfterConcat(s: State, a: seq<Step>, b: seq<Step>)
    requires After(s, a).Some?
    ensures After(s, a + b) == After(After(s, a).value, b)
    decreases |b|
  {
    if b == [] {
      assert a + b == a;
    } else {
      AfterConcat(s, a, b[..|b| - 1]);
      assert (a + b)[..|a + b| - 1] == a + b[..|b| - 1];
    }
  }

  lemma AfterTwo(s: State, first: Step, second: Step)
    requires CanStep(s, first) && CanStep(Next(s, first), second)
    ensures After(s, [first, second]) == Some(Next(Next(s, first), second))
  {
    AfterOne(s, first);
    AfterOne(Next(s, first), second);
    AfterConcat(s, [first], [second]);
    assert [first] + [second] == [first, second];
  }

  ghost predicate Waiting(s: State, r: nat, left: nat) {
    && r < |s.replicas| && s.replicas[r].live
    && s.replicas[r].phase.Attempting? && s.replicas[r].phase.reply.Pending?
    && s.replicas[r].phase.attempt + left == s.replicas[r].maxRetries + 1
  }

  ghost predicate Ended(s: State, r: nat, client: Client) {
    r < |s.replicas| && s.replicas[r].live && s.replicas[r].phase.Idle?
    && s.replicas[r].client == client.(acquiring := false)
  }

  /** What one attempt makes of the lock. */
  function Tried(server: Server, me: nat, ending: Ending): Server {
    if ending == DbError(false) || ending == Timeout(false) then server else Lock(server, me)
  }

  lemma OneAttempt(s: State, r: nat, a: Attempt, left: nat)
    requires Waiting(s, r, left) && left > 0
    ensures After(s, OwnSteps(r, a)).Some?
    ensures var t := After(s, OwnSteps(r, a)).value;
      t.server == Tried(s.server, r, a.ending)
      && (if a.ending.Replied? && Grants(s.server, r) then Ended(t, r, Granted(s.replicas[r].client))
          else if left == 1 then Ended(t, r, s.replicas[r].client)
          else Waiting(t, r, left - 1) && t.replicas[r].client == s.replicas[r].client)
  {
    var last := match a.ending
      case Replied => ClientReads(r)
      case DbError(_) => AttemptErrors(r)
      case Timeout(_) => TimesOut(r);
    if a.ending == DbError(false) || a.ending == Timeout(false) {
      AfterOne(s, last);
    } else {
      AfterTwo(s, ServerAnswers(r), last);
    }
  }

  lemma OtherStep(s: State, r: nat, step: Step)
    requires r < |s.replicas| && CanStep(s, step) && step.r != r
    ensures var t := Next(s, step);
      |t.replicas| == |s.replicas| && t.replicas[r] == s.replicas[r]
      && (s.server.owner == Some(r) ==> t.server == s.server)
  {
  }

  /** Steps of other replicas leave this one alone, and the lock too while it holds it. */
  lemma {:induction false} OthersOnly(s: State, r: nat, steps: seq<Step>)
    requires r < |s.replicas| && After(s, steps).Some?
    requires forall step :: step in steps ==> step.r != r
    ensures var t := After(s, steps).value;
      |t.replicas| == |s.replicas| && t.replicas[r] == s.replicas[r]
      && (s.server.owner == Some(r) ==> t.server == s.server)
    decreases |steps|
  {
    if steps != [] {
      var last := steps[|steps| - 1];
      assert last in steps;
      OthersOnly(s, r, steps[..|steps| - 1]);
      OtherStep(After(s, steps[..|steps| - 1]).value, r, last);
    }
  }

  /**
   * What the loop is told about each attempt comes from steps of other replicas
   * between the attempts: `others[i]` runs before attempt `i`.
   */
  ghost predicate Environment(s: State, r: nat, attempts: seq<Attempt>, others: seq<seq<Step>>)
    decreases |attempts|
  {
    |others| == |attempts| && (attempts != [] ==>
      && (forall step :: step in others[0] ==> step.r != r)
      && After(s, others[0]).Some?
      && After(s, others[0]).value.server == Meanwhile(s.server, r, attempts[0].found)
      && var t := After(After(s, others[0]).value, OwnSteps(r, attempts[0]));
         t.Some? && Waiting(t.value, r, |attempts| - 1) ==> Environment(t.value, r, attempts[1..], others[1..]))
  }

  /** The retry loop, whatever happens around it, is a run of the protocol with the same outcome. */
  lemma {:induction false} RetryLoopIsRun(s: State, r: nat, attempts: seq<Attempt>, others: seq<seq<Step>>)
    returns (steps: seq<Step>)
    requires attempts != [] && Waiting(s, r, |attempts|) && Environment(s, r, attempts, others)
    ensures After(s, steps).Some?
    ensures var t, loop := After(s, steps).value, RetryLoop(s.server, r, attempts);
      t.server == loop.0
      && Ended(t, r, if loop.1.None? then Granted(s.replicas[r].client) else s.replicas[r].client)
    decreases |attempts|
  {
    OthersOnly(s, r, others[0]);
    var s1 := After(s, others[0]).value;
    OneAttempt(s1, r, attempts[0], |attempts|);
    AfterConcat(s, others[0], OwnSteps(r, attempts[0]));
    steps := others[0] + OwnSteps(r, attempts[0]);
    var t := After(s, steps).value;
    if Waiting(t, r, |attempts| - 1) && |attempts| > 1 && t.replicas[r].phase.Attempting? {
      var more := RetryLoopIsRun(t, r, attempts[1..], others[1..]);
      AfterConcat(s, steps, more);
      steps := steps + more;
    }
  }

  /** Releasing the current guard is a run of the protocol with the effect of `release`, however the request ends. */
  lemma ReleaseIsRun(s: State, r: nat, ack: Ack) returns (steps: seq<Step>)
    requires r < |s.replicas| && s.replicas[r].live && s.replicas[r].phase.Idle?
    ensures After(s, steps).Some?
    ensures var t := After(s, steps).value;
      && t.server == (if ack.NotHandled? then s.server else Unlock(s.server, r))
      && |t.replicas| == |s.replicas|
      && t.replicas[r].client == (if ack.Confirmed? then Released(s.replicas[r].client) else s.replicas[r].client)
  {
    var first, second := BeginRelease(r, true, s.replicas[r].client.epoch), ServerUnlocks(r);
    if ack.NotHandled? {
      AfterTwo(s, first, ReleaseErrors(r));
      steps := [first, ReleaseErrors(r)];
    } else {
      var third := if ack.Confirmed? then ReleaseReturns(r) else ReleaseErrors(r);
      AfterTwo(s, first, second);
      AfterOne(Next(Next(s, first), second), third);
      AfterConcat(s, [first, second], [third]);
      steps := [first, second] + [third];
    }
  }

  /** One database session. */
  class Connection {
    var server: Server
    const me: nat

    constructor (me: nat)
      ensures this.me == me && server == Server(None, 0)
    {
      this.me := me;
      server := Server(None, 0);
    }
  }

  class AdvisoryLock {
    const lockId: int
    const maxRetries: nat
    var acquiring: bool
    var held: bool
    var epoch: nat

    constructor (lockId: int, maxRetries: nat)
      ensures this.lockId == lockId && this.maxRetries == maxRetries && View() == Client(false, false, 0)
    {
      this.lockId, this.maxRetries := lockId, maxRetries;
      acquiring, held, epoch := false, false, 0;
    }

    function View(): Client
      reads this
    {
      Client(acquiring, held, epoch)
    }

    /** `is_current`: true exactly for the token of the latest grant, until it is released. */
    method IsCurrentToken(token: nat) returns (r: bool)
      ensures r <==> IsCurrent(View(), token)
    {
      r := held && epoch == token;
    }

    method Acquire(conn: Connection, valid: bool, world: seq<Attempt>) returns (r: Result<Guard, LockError>)
      requires |world| >= maxRetries
      modifies this, conn
      ensures old(acquiring) ==>
        r == Err(ConcurrentAcquisitionInProgress) && View() == old(View()) && conn.server == old(conn.server)
      ensures !old(acquiring) && !valid ==>
        r == Err(ConnectionError) && View() == old(View()) && conn.server == old(conn.server)
      ensures !old(acquiring) && valid ==>
        var loop := RetryLoop(old(conn.server), conn.me, world[..maxRetries]);
        && conn.server == loop.0
        && (if loop.1.Some? then r == Err(loop.1.value) && View() == old(View())
            else r == Ok(Guard(lockId, epoch)) && View() == Granted(old(View())))
      ensures r.Ok? ==>
        IsCurrent(View(), r.value.fencingToken) && forall token: nat :: token <= old(epoch) ==> Retired(View(), token)
    {
      if acquiring {
        return Err(ConcurrentAcquisitionInProgress);
      }
      acquiring := true;
      r := AcquireInner(conn, valid, world[..maxRetries]);
      acquiring := false;
    }

    method AcquireInner(conn: Connection, valid: bool, attempts: seq<Attempt>) returns (r: Result<Guard, LockError>)
      modifies `held, `epoch, conn
      ensures !valid ==> r == Err(ConnectionError) && View() == old(View()) && conn.server == old(conn.server)
      ensures valid ==>
        var loop := RetryLoop(old(conn.server), conn.me, attempts);
        && conn.server == loop.0
        && (if loop.1.Some? then r == Err(loop.1.value) && View() == old(View())
            else r == Ok(Guard(lockId, epoch)) && View() == Granted(old(View())))
    {
      if !valid {
        return Err(ConnectionError);
      }
      for i := 0 to |attempts|
        invariant View() == old(View())
        invariant RetryLoop(conn.server, conn.me, attempts[i..]) == RetryLoop(old(conn.server), conn.me, attempts)
      {
        assert attempts[i..][0] == attempts[i] && attempts[i..][1..] == attempts[i + 1..];
        conn.server := Meanwhile(conn.server, conn.me, attempts[i].found);
        match attempts[i].ending
        case Replied =>
          var acquired := Grants(conn.server, conn.me);
          conn.server := Lock(conn.server, conn.me);
          if acquired {
            held := true;
            epoch := epoch + 1;
            return Ok(Guard(lockId, epoch));
          }
        case DbError(executed) =>
          if executed {
            conn.server := Lock(conn.server, conn.me);
          }
          if i + 1 == |attempts| {
            return Err(LockAcquisitionFailed);
          }
        case Timeout(executed) =>
          if executed {
            conn.server := Lock(conn.server, conn.me);
          }
          if i + 1 == |attempts| {
            return Err(LockAcquisitionTimeout);
          }
      }
      assert attempts[|attempts|..] == [];
      r := Err(LockAcquisitionFailed);
    }

    method Release(conn: Connection, guard: Guard, ack: Ack) returns (r: Result<(), LockError>)
      modifies `held, conn
      ensures r.Err? ==> View() == old(View())
      ensures guard.lockId != lockId ==> r == Err(ValidationError) && conn.server == old(conn.server)
      ensures guard.lockId == lockId && guard.fencingToken != epoch ==>
        r == Err(StaleFencingToken) && conn.server == old(conn.server)
      ensures guard == Guard(lockId, epoch) ==>
        && r == (if ack.Confirmed? then Ok(()) else Err(LockReleaseError))
        && conn.server == (if ack.NotHandled? then old(conn.server) else Unlock(old(conn.server), conn.me))
        && (ack.Confirmed? ==> View() == Released(old(View())))
      ensures r.Ok? ==> forall token: nat :: !IsCurrent(View(), token)
    {
      if guard.lockId != lockId {
        return Err(ValidationError);
      }
      if guard.fencingToken != epoch {
        return Err(StaleFencingToken);
      }
      if !ack.NotHandled? {
        conn.server := Unlock(conn.server, conn.me);
      }
      if !ack.Confirmed? {
        return Err(LockReleaseError);
      }
      held := false;
      r := Ok(());
    }

    /**
     * `with_lock`. Entered without the lock, and with every reply read, it leaves
     * the server without it unless the unlock was never handled, whatever the
     * operation returned; a result without error means the lock is let go.
     */
    method WithLock(conn: Connection, valid: bool, world: seq<Attempt>, operation: Result<(), LockError>, ack: Ack)
      returns (r: Result<(), LockError>)
      requires |world| >= maxRetries && Plausible(conn.me, world)
      requires conn.server.owner.Some? <==> conn.server.count > 0
      modifies this, conn
      ensures acquiring == old(acquiring)
      ensures !old(held) && HoldCount(old(conn.server), conn.me) == 0 && EveryReplyRead(world) && !ack.NotHandled? ==>
        HoldCount(conn.server, conn.me) == 0 && (ack.Confirmed? ==> !held)
      ensures r.Ok? ==> operation.Ok? && epoch == old(epoch) + 1 && !held
      ensures epoch == old(epoch) + 1 && operation.Err? ==> r == operation
      ensures epoch == old(epoch) || epoch == old(epoch) + 1
      ensures epoch == old(epoch) ==> r.Err? && View() == old(View())
      ensures old(acquiring) ==> r == Err(ConcurrentAcquisitionInProgress)
      ensures !old(acquiring) && !valid ==> r == Err(ConnectionError)
      ensures !old(acquiring) && valid ==>
        var error := RetryLoop(old(conn.server), conn.me, world[..maxRetries]).1;
        r == if error.Some? then Err(error.value) else if operation.Err? then operation
             else if ack.Confirmed? then Ok(()) else Err(LockReleaseError)
    {
      var guard := Acquire(conn, valid, world);
      RetryLoopCounts(old(conn.server), conn.me, world[..maxRetries]);
      assert View() == if guard.Ok? then Granted(old(View())) else old(View());
      assert EveryReplyRead(world) ==> EveryReplyRead(world[..maxRetries]);
      if guard.Err? {
        return Err(guard.error);
      }
      var released := Release(conn, guard.value, ack);
      r := if operation.Err? then operation else released;
    }
  }
}
