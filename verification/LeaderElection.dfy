/**
 * Leader election over a reentrant session lock (src/advisory_lock.rs): any
 * number of replicas, each with one lock instance on one database session,
 * interleaving with the server, with client timeouts, late grants and lost
 * sessions.
 */
module LeaderElection {
  import opened Options

  /** The in-process part of a lock instance: its three atomics. */
  datatype Client = Client(acquiring: bool, held: bool, epoch: nat)

  /** `is_current`. */
  predicate IsCurrent(c: Client, token: nat) { c.held && c.epoch == token }

  /** A grant was read: both stores of a successful acquisition, as one step. */
  function Granted(c: Client): Client { c.(held := true, epoch := c.epoch + 1) }

  function Released(c: Client): Client { c.(held := false) }

  datatype Reply = Pending | Answered(granted: bool)

  /** Where the calls on an instance are; the connection is borrowed exclusively, so there is one. */
  datatype Phase =
    | Idle
    | Validating
    | Attempting(attempt: nat, reply: Reply)
    | Unlocking
    | Unlocked

  /**
   * `late` counts requests the client stopped waiting for and the server has
   * not handled. Two history variables: `stray` counts grants in this session that
   * no current guard stands for, and `undone` says that the server has released
   * what the client still believes to hold, because the reply was lost.
   */
  datatype Replica = Replica(client: Client, phase: Phase, maxRetries: nat, live: bool, late: nat, stray: nat,
                             undone: bool)

  /** The server's record of the lock: owning session and its reentrancy count. */
  datatype Server = Server(owner: Option<nat>, count: nat)

  datatype State = State(server: Server, replicas: seq<Replica>)

  // -------------------------------------------------------------- the server

  /** `pg_try_advisory_lock`: granted when free or already ours. */
  predicate Grants(server: Server, r: nat) { server.owner.None? || server.owner == Some(r) }

  function Lock(server: Server, r: nat): Server {
    if Grants(server, r) then Server(Some(r), server.count + 1) else server
  }

  /** `pg_advisory_unlock`: undoes one level, or only warns when the session does not hold the lock. */
  function Unlock(server: Server, r: nat): Server {
    if server.owner != Some(r) then server
    else if server.count <= 1 then Server(None, 0)
    else server.(count := server.count - 1)
  }

  function EndSession(server: Server, r: nat): Server {
    if server.owner == Some(r) then Server(None, 0) else server
  }

  /** How many times the session of `r` holds the lock. */
  function HoldCount(server: Server, r: nat): nat {
    if server.owner == Some(r) then server.count else 0
  }

  // --------------------------------------------------------------- the steps

  datatype Step =
    | BeginAcquire(r: nat)
    | Validated(r: nat, ok: bool)
    | ServerAnswers(r: nat)
    | ClientReads(r: nat)
    | AttemptErrors(r: nat)
    | TimesOut(r: nat)
    | LateAnswer(r: nat)
    | BeginRelease(r: nat, sameLock: bool, token: nat)
    | ServerUnlocks(r: nat)
    | ReleaseReturns(r: nat)
    | ReleaseErrors(r: nat)
    | SessionEnds(r: nat)

  ghost predicate CanStep(s: State, step: Step) {
    step.r < |s.replicas| &&
    var p := s.replicas[step.r];
    match step
    case BeginAcquire(_) => true
    case Validated(_, ok) => p.phase.Validating? && (ok ==> p.live)
    case ServerAnswers(_) => p.live && p.phase.Attempting? && p.phase.reply.Pending?
    case ClientReads(_) => p.phase.Attempting? && p.phase.reply.Answered?
    case AttemptErrors(_) => p.phase.Attempting?
    case TimesOut(_) => p.phase.Attempting?
    case LateAnswer(_) => p.live && p.late > 0
    case BeginRelease(_, _, _) => p.phase.Idle?
    case ServerUnlocks(_) => p.live && p.phase.Unlocking?
    case ReleaseReturns(_) => p.phase.Unlocked?
    case ReleaseErrors(_) => p.phase.Unlocking? || p.phase.Unlocked?
    case SessionEnds(_) => p.live
  }

  /** The acquire call ends without the lock. */
  function GiveUp(p: Replica): Replica {
    p.(phase := Idle, client := p.client.(acquiring := false))
  }

  /** An attempt was denied, failed or timed out: try again unless it was the last. */
  function NextAttempt(p: Replica, attempt: nat): Replica {
    if attempt < p.maxRetries then p.(phase := Attempting(attempt + 1, Pending)) else GiveUp(p)
  }

  /** A reply the client will never read; a grant in it stays behind on the server. */
  function Abandon(p: Replica, reply: Reply): Replica {
    if reply == Answered(true) && p.live then p.(stray := p.stray + 1) else p
  }

  ghost function Next(s: State, step: Step): State
    requires CanStep(s, step)
  {
    var r := step.r;
    var p := s.replicas[r];
    match step
    case BeginAcquire(_) =>
      // A second call while one is in flight is refused by the `acquiring` flag.
      if p.client.acquiring || !p.phase.Idle? then s
      else Put(s, r, p.(phase := Validating, client := p.client.(acquiring := true)))
    case Validated(_, ok) =>
      Put(s, r, if ok && p.maxRetries > 0 then p.(phase := Attempting(1, Pending)) else GiveUp(p))
    case ServerAnswers(_) =>
      State(Lock(s.server, r),
            s.replicas[r := p.(phase := Attempting(p.phase.attempt, Answered(Grants(s.server, r))))])
    case ClientReads(_) =>
      Put(s, r,
          if p.phase.reply.granted then
            GiveUp(p).(client := Granted(p.client).(acquiring := false), undone := false,
                       stray := if p.client.held && !p.undone && p.live then p.stray + 1 else p.stray)
          else NextAttempt(p, p.phase.attempt))
    case AttemptErrors(_) =>
      Put(s, r, NextAttempt(Abandon(p, p.phase.reply), p.phase.attempt))
    case TimesOut(_) =>
      var q := Abandon(p, p.phase.reply);
      Put(s, r, NextAttempt(if p.phase.reply.Pending? && p.live then q.(late := q.late + 1) else q, p.phase.attempt))
    case LateAnswer(_) =>
      State(Lock(s.server, r),
            s.replicas[r := p.(late := p.late - 1, stray := if Grants(s.server, r) then p.stray + 1 else p.stray)])
    case BeginRelease(_, sameLock, token) =>
      if !sameLock || token != p.client.epoch then s else Put(s, r, p.(phase := Unlocking))
    case ServerUnlocks(_) =>
      State(Unlock(s.server, r),
            s.replicas[r := p.(phase := Unlocked,
                               stray := if (!p.client.held || p.undone) && p.stray > 0 then p.stray - 1 else p.stray)])
    case ReleaseReturns(_) =>
      Put(s, r, p.(phase := Idle, client := Released(p.client), undone := false))
    case ReleaseErrors(_) =>
      // The reply may be lost after the server has handled the request.
      Put(s, r, p.(phase := Idle, undone := p.undone || (p.phase.Unlocked? && p.client.held)))
    case SessionEnds(_) =>
      State(EndSession(s.server, r), s.replicas[r := p.(live := false, late := 0, stray := 0)])
  }

  function Put(s: State, r: nat, p: Replica): State
    requires r < |s.replicas|
  {
    s.(replicas := s.replicas[r := p])
  }

  /** Fresh instances on fresh sessions, with any retry limits. */
  ghost predicate Initial(s: State) {
    && s.server == Server(None, 0)
    && forall r :: 0 <= r < |s.replicas| ==>
         s.replicas[r] == Replica(Client(false, false, 0), Idle, s.replicas[r].maxRetries, true, 0, 0, false)
  }

  /** The state a schedule leads to, if each of its steps is possible. */
  ghost function After(init: State, steps: seq<Step>): Option<State>
    decreases |steps|
  {
    if |steps| == 0 then Some(init)
    else
      match After(init, steps[..|steps| - 1])
      case None => None
      case Some(s) => if CanStep(s, steps[|steps| - 1]) then Some(Next(s, steps[|steps| - 1])) else None
  }

  // ----------------------------------------------------------- the invariant

  /** The hold count the server must have for this replica. */
  function Expected(p: Replica): nat {
    (if p.client.held && !p.undone && !p.phase.Unlocked? then 1 else 0)
    + (if p.phase.Attempting? && p.phase.reply == Answered(true) then 1 else 0)
    + p.stray
  }

  ghost predicate ReplicaOk(server: Server, r: nat, p: Replica) {
    && (p.client.acquiring <==> p.phase.Validating? || p.phase.Attempting?)
    && HoldCount(server, r) == (if p.live then Expected(p) else 0)
    && (p.phase.Attempting? ==> 1 <= p.phase.attempt <= p.maxRetries)
  }

  ghost predicate Inv(s: State) {
    && (s.server.owner.Some? <==> s.server.count > 0)
    && forall r :: 0 <= r < |s.replicas| ==> ReplicaOk(s.server, r, s.replicas[r])
  }

  lemma StepKeepsInv(s: State, step: Step)
    requires Inv(s) && CanStep(s, step)
    ensures Inv(Next(s, step))
  {
    var r := step.r;
    var p := s.replicas[r];
    var s' := Next(s, step);
    assert ReplicaOk(s.server, r, p);
    assert ReplicaOk(s'.server, r, s'.replicas[r]);
    forall q | 0 <= q < |s'.replicas| ensures ReplicaOk(s'.server, q, s'.replicas[q]) {
      assert ReplicaOk(s.server, q, s.replicas[q]);
    }
  }

  lemma {:induction false} InvariantAlways(init: State, steps: seq<Step>)
    requires Initial(init) && After(init, steps).Some?
    ensures Inv(After(init, steps).value)
    decreases |steps|
  {
    if steps != [] {
      InvariantAlways(init, steps[..|steps| - 1]);
      StepKeepsInv(After(init, steps[..|steps| - 1]).value, steps[|steps| - 1]);
    }
  }

  // ------------------------------------------------------------------ safety

  /** Believes it leads, on a session that is alive, and the server has not undone it yet. */
  ghost predicate Leads(p: Replica) { p.client.held && p.live && !p.phase.Unlocked? && !p.undone }

  /** At most one replica leads, in every state of every schedule. */
  lemma AtMostOneLeader(init: State, steps: seq<Step>, q: nat, r: nat)
    requires Initial(init) && After(init, steps).Some?
    requires var s := After(init, steps).value;
      q < |s.replicas| && r < |s.replicas| && Leads(s.replicas[q]) && Leads(s.replicas[r])
    ensures q == r
  {
    InvariantAlways(init, steps);
    var s := After(init, steps).value;
    assert ReplicaOk(s.server, q, s.replicas[q]) && ReplicaOk(s.server, r, s.replicas[r]);
  }

  /** No release of this replica has returned a database error. */
  ghost predicate NoFailedRelease(steps: seq<Step>, r: nat) {
    forall step :: step in steps ==> !(step.ReleaseErrors? && step.r == r)
  }

  lemma StepLeavesUndone(s: State, step: Step, r: nat)
    requires CanStep(s, step) && !(step.ReleaseErrors? && step.r == r)
    requires r < |s.replicas| ==> !s.replicas[r].undone
    ensures r < |Next(s, step).replicas| ==> !Next(s, step).replicas[r].undone
  {
  }

  /** Only a failed release can leave a belief that the server has already undone. */
  lemma {:induction false} UndoneOnlyByFailedRelease(init: State, steps: seq<Step>, r: nat)
    requires Initial(init) && After(init, steps).Some? && NoFailedRelease(steps, r)
    ensures r < |After(init, steps).value.replicas| ==> !After(init, steps).value.replicas[r].undone
    decreases |steps|
  {
    if steps != [] {
      assert steps[|steps| - 1] in steps;
      UndoneOnlyByFailedRelease(init, steps[..|steps| - 1], r);
      StepLeavesUndone(After(init, steps[..|steps| - 1]).value, steps[|steps| - 1], r);
    }
  }

  /**
   * As long as no release has failed, at most one replica has `held` set on a live
   * session outside the tail of `release`.
   */
  lemma AtMostOneHolder(init: State, steps: seq<Step>, q: nat, r: nat)
    requires Initial(init) && After(init, steps).Some? && NoFailedRelease(steps, q) && NoFailedRelease(steps, r)
    requires var s := After(init, steps).value;
      && q < |s.replicas| && s.replicas[q].client.held && s.replicas[q].live && !s.replicas[q].phase.Unlocked?
      && r < |s.replicas| && s.replicas[r].client.held && s.replicas[r].live && !s.replicas[r].phase.Unlocked?
    ensures q == r
  {
    UndoneOnlyByFailedRelease(init, steps, q);
    UndoneOnlyByFailedRelease(init, steps, r);
    AtMostOneLeader(init, steps, q, r);
  }

  /** A replica that believes it leads is recorded by the server exactly while its session lives. */
  lemma BelievedLeaderIsRecordedIffLive(init: State, steps: seq<Step>, r: nat)
    requires Initial(init) && After(init, steps).Some?
    requires var s := After(init, steps).value;
      r < |s.replicas| && s.replicas[r].client.held && !s.replicas[r].phase.Unlocked? && !s.replicas[r].undone
    ensures var s := After(init, steps).value;
      s.server.owner == Some(r) && s.server.count >= 1 <==> s.replicas[r].live
  {
    InvariantAlways(init, steps);
    var s := After(init, steps).value;
    assert ReplicaOk(s.server, r, s.replicas[r]);
  }

  // ---------------------------------------------------------- fencing tokens

  lemma StepKeepsReplicas(s: State, step: Step)
    requires CanStep(s, step)
    ensures |Next(s, step).replicas| == |s.replicas|
  {
  }

  lemma {:induction false} ReplicasKept(init: State, steps: seq<Step>)
    requires After(init, steps).Some?
    ensures |After(init, steps).value.replicas| == |init.replicas|
    decreases |steps|
  {
    if steps != [] {
      ReplicasKept(init, steps[..|steps| - 1]);
      StepKeepsReplicas(After(init, steps[..|steps| - 1]).value, steps[|steps| - 1]);
    }
  }

  lemma {:induction false} PrefixPossible(init: State, steps: seq<Step>, n: nat)
    requires n <= |steps| && After(init, steps).Some?
    ensures After(init, steps[..n]).Some?
    ensures |After(init, steps[..n]).value.replicas| == |init.replicas|
    decreases |steps|
  {
    if n == |steps| {
      assert steps[..n] == steps;
      ReplicasKept(init, steps);
    } else {
      PrefixPossible(init, steps[..|steps| - 1], n);
      assert steps[..|steps| - 1][..n] == steps[..n];
    }
  }

  /** Issued and no longer current: superseded by a later token, or released. */
  ghost predicate Retired(c: Client, token: nat) {
    token <= c.epoch && !IsCurrent(c, token)
  }

  lemma StepKeepsTokens(s: State, step: Step, r: nat, token: nat)
    requires CanStep(s, step) && r < |s.replicas|
    ensures s.replicas[r].client.epoch <= Next(s, step).replicas[r].client.epoch
    ensures Retired(s.replicas[r].client, token) ==> Retired(Next(s, step).replicas[r].client, token)
  {
  }

  /** Once released or superseded, a token is never current again, and epochs never go back. */
  lemma {:induction false} RetiredForever(init: State, steps: seq<Step>, n: nat, r: nat, token: nat)
    requires n <= |steps| && After(init, steps).Some? && r < |init.replicas|
    ensures After(init, steps[..n]).Some? && r < |After(init, steps[..n]).value.replicas|
    ensures r < |After(init, steps).value.replicas|
    ensures var c, d := After(init, steps[..n]).value.replicas[r].client, After(init, steps).value.replicas[r].client;
      && c.epoch <= d.epoch
      && (Retired(c, token) ==> Retired(d, token))
    decreases |steps|
  {
    PrefixPossible(init, steps, n);
    PrefixPossible(init, steps, |steps|);
    assert steps[..|steps|] == steps;
    if n < |steps| {
      var prefix := steps[..|steps| - 1];
      assert prefix[..n] == steps[..n];
      RetiredForever(init, prefix, n, r, token);
      StepKeepsTokens(After(init, prefix).value, steps[|steps| - 1], r, token);
    }
  }

  /** A grant issues the next token, so tokens of one instance strictly increase over any schedule. */
  lemma TokensIncrease(init: State, steps: seq<Step>, i: nat, r: nat)
    requires i + 1 < |steps| && r < |init.replicas| && After(init, steps).Some?
    requires steps[i] == ClientReads(r) && steps[|steps| - 1] == ClientReads(r)
    ensures After(init, steps[..i + 1]).Some? && r < |After(init, steps[..i + 1]).value.replicas|
    ensures After(init, steps[..|steps| - 1]).Some? && r < |After(init, steps[..|steps| - 1]).value.replicas|
    ensures r < |After(init, steps).value.replicas|
    ensures var first, before, now := After(init, steps[..i + 1]).value.replicas[r],
                After(init, steps[..|steps| - 1]).value.replicas[r], After(init, steps).value.replicas[r];
      before.phase == Attempting(before.phase.attempt, Answered(true)) ==>
        first.client.epoch < now.client.epoch && IsCurrent(now.client, now.client.epoch)
  {
    var prefix := steps[..|steps| - 1];
    PrefixPossible(init, steps, |steps| - 1);
    PrefixPossible(init, steps, |steps|);
    assert steps[..|steps|] == steps;
    RetiredForever(init, prefix, i + 1, r, 0);
    assert prefix[..i + 1] == steps[..i + 1];
  }

  /** Releasing a foreign or stale guard changes nothing, in the process or on the server. */
  lemma BadReleaseIsHarmless(s: State, r: nat, sameLock: bool, token: nat)
    requires CanStep(s, BeginRelease(r, sameLock, token))
    requires !sameLock || token != s.replicas[r].client.epoch
    ensures Next(s, BeginRelease(r, sameLock, token)) == s
  {
  }

  // ------------------------------------------------------------ stray grants

  /** No grant and no unlock goes unread, and the lock is never taken twice. */
  ghost predicate CleanStep(s: State, step: Step) {
    CanStep(s, step) &&
    var p := s.replicas[step.r];
    match step
    case BeginAcquire(_) => !p.client.held
    case TimesOut(_) => false
    case AttemptErrors(_) => p.phase.reply != Answered(true)
    case ReleaseErrors(_) => p.phase.Unlocking?
    case _ => true
  }

  ghost predicate CleanRun(init: State, steps: seq<Step>)
    decreases |steps|
  {
    |steps| == 0 ||
    (CleanRun(init, steps[..|steps| - 1])
     && After(init, steps[..|steps| - 1]).Some?
     && CleanStep(After(init, steps[..|steps| - 1]).value, steps[|steps| - 1]))
  }

  ghost predicate NoStray(p: Replica) {
    p.stray == 0 && p.late == 0 && !p.undone && (p.phase.Attempting? || p.phase.Validating? ==> !p.client.held)
  }

  lemma {:induction false} CleanRunHasNoStray(init: State, steps: seq<Step>)
    requires Initial(init) && CleanRun(init, steps)
    ensures After(init, steps).Some?
    ensures var s := After(init, steps).value; forall r :: 0 <= r < |s.replicas| ==> NoStray(s.replicas[r])
    decreases |steps|
  {
    if steps != [] {
      CleanRunHasNoStray(init, steps[..|steps| - 1]);
      var s := After(init, steps[..|steps| - 1]).value;
      assert NoStray(s.replicas[steps[|steps| - 1].r]);
    }
  }

  /** In a clean run, between calls on a live session, the server count is 1 when held and 0 otherwise. */
  lemma CleanCountIsOneIffHeld(init: State, steps: seq<Step>, r: nat)
    requires Initial(init) && CleanRun(init, steps)
    ensures After(init, steps).Some?
    ensures var s := After(init, steps).value;
      r < |s.replicas| && s.replicas[r].live && s.replicas[r].phase.Idle? ==>
        HoldCount(s.server, r) == if s.replicas[r].client.held then 1 else 0
  {
    CleanRunHasNoStray(init, steps);
    InvariantAlways(init, steps);
    var s := After(init, steps).value;
    if r < |s.replicas| {
      assert NoStray(s.replicas[r]) && ReplicaOk(s.server, r, s.replicas[r]);
    }
  }

  /** A completed release leaves the server holding exactly the stray grants: the lock is free iff there are none. */
  lemma ReleaseFreesIffNoStray(init: State, steps: seq<Step>, r: nat)
    requires Initial(init) && After(init, steps).Some?
    requires CanStep(After(init, steps).value, ReleaseReturns(r)) && After(init, steps).value.replicas[r].live
    ensures var s := Next(After(init, steps).value, ReleaseReturns(r));
      !s.replicas[r].client.held
      && HoldCount(s.server, r) == s.replicas[r].stray
      && (s.server.owner == Some(r) <==> s.replicas[r].stray > 0)
  {
    InvariantAlways(init, steps);
    var s := After(init, steps).value;
    assert ReplicaOk(s.server, r, s.replicas[r]);
    StepKeepsInv(s, ReleaseReturns(r));
  }

  /** What the caller of one instance can see to: no attempt timed out or errored, and it acquired only when not holding. */
  ghost predicate Careful(init: State, steps: seq<Step>, r: nat)
    decreases |steps|
  {
    |steps| == 0 ||
    (var before, last := steps[..|steps| - 1], steps[|steps| - 1];
     && Careful(init, before, r)
     && (last.r == r ==>
          && !last.TimesOut? && !last.AttemptErrors?
          && (last.BeginAcquire? && After(init, before).Some? && r < |After(init, before).value.replicas| ==>
                !After(init, before).value.replicas[r].client.held)))
  }

  ghost predicate NothingStray(p: Replica) {
    p.stray == 0 && p.late == 0 && (p.phase.Attempting? || p.phase.Validating? ==> !p.client.held)
  }

  lemma {:induction false} CarefulHasNoStray(init: State, steps: seq<Step>, r: nat)
    requires Initial(init) && After(init, steps).Some? && Careful(init, steps, r)
    ensures r < |After(init, steps).value.replicas| ==> NothingStray(After(init, steps).value.replicas[r])
    decreases |steps|
  {
    if steps != [] {
      CarefulHasNoStray(init, steps[..|steps| - 1], r);
    }
  }

  /** For such a caller a completed `release` frees the lock, whatever others do. */
  lemma CarefulReleaseFrees(init: State, steps: seq<Step>, r: nat)
    requires Initial(init) && After(init, steps).Some? && Careful(init, steps, r)
    requires CanStep(After(init, steps).value, ReleaseReturns(r)) && After(init, steps).value.replicas[r].live
    ensures Next(After(init, steps).value, ReleaseReturns(r)).server.owner != Some(r)
  {
    CarefulHasNoStray(init, steps, r);
    ReleaseFreesIffNoStray(init, steps, r);
  }

  // ------------------------------------------------- what the code does not give

  lemma Then(init: State, steps: seq<Step>, step: Step)
    requires After(init, steps).Some? && CanStep(After(init, steps).value, step)
    ensures After(init, steps + [step]) == Some(Next(After(init, steps).value, step))
  {
    assert (steps + [step])[..|steps|] == steps;
  }

  /** An idle replica with a live session can take the lock whenever the server would grant it. */
  lemma CanAcquire(init: State, steps: seq<Step>, r: nat) returns (more: seq<Step>)
    requires Initial(init) && After(init, steps).Some?
    requires var s := After(init, steps).value;
      r < |s.replicas| && s.replicas[r].phase.Idle? && s.replicas[r].live && s.replicas[r].maxRetries > 0
      && Grants(s.server, r)
    ensures After(init, more).Some?
    ensures var s, t := After(init, steps).value, After(init, more).value;
      && t.server == Lock(s.server, r)
      && |t.replicas| == |s.replicas|
      && t.replicas[r].client == Granted(s.replicas[r].client) && t.replicas[r].live && t.replicas[r].phase.Idle?
      && !t.replicas[r].undone
      && (forall q :: 0 <= q < |s.replicas| && q != r ==> t.replicas[q] == s.replicas[q])
  {
    InvariantAlways(init, steps);
    var s := After(init, steps).value;
    assert ReplicaOk(s.server, r, s.replicas[r]);
    Then(init, steps, BeginAcquire(r));
    more := steps + [BeginAcquire(r)];
    Then(init, more, Validated(r, true));
    more := more + [Validated(r, true)];
    Then(init, more, ServerAnswers(r));
    more := more + [ServerAnswers(r)];
    Then(init, more, ClientReads(r));
    more := more + [ClientReads(r)];
  }

  /**
   * `is_current` does not notice a lost session: from any state in which a
   * replica leads between calls, there is a continuation in which its token is
   * still current although another replica leads.
   */
  lemma LostLeaderStillCurrent(init: State, steps: seq<Step>, q: nat, r: nat) returns (more: seq<Step>)
    requires Initial(init) && After(init, steps).Some? && q != r
    requires var s := After(init, steps).value;
      && q < |s.replicas| && r < |s.replicas| && Leads(s.replicas[q])
      && s.replicas[r].phase.Idle? && s.replicas[r].live && s.replicas[r].maxRetries > 0
    ensures After(init, more).Some?
    ensures var s, t := After(init, steps).value, After(init, more).value;
      && |t.replicas| == |s.replicas|
      && IsCurrent(t.replicas[q].client, s.replicas[q].client.epoch)
      && Leads(t.replicas[r]) && t.server.owner == Some(r)
  {
    InvariantAlways(init, steps);
    var s := After(init, steps).value;
    assert ReplicaOk(s.server, q, s.replicas[q]);
    Then(init, steps, SessionEnds(q));
    more := CanAcquire(init, steps + [SessionEnds(q)], r);
  }

  /**
   * A timeout can leave the lock behind: when the first attempt is granted but
   * times out, a successful retry followed by `release` leaves the server
   * holding the lock for a replica that no longer believes it leads.
   */
  lemma TimeoutLeavesLockBehind(init: State, r: nat) returns (steps: seq<Step>)
    requires Initial(init) && r < |init.replicas| && init.replicas[r].maxRetries >= 2
    ensures After(init, steps).Some?
    ensures var s := After(init, steps).value;
      r < |s.replicas| && !s.replicas[r].client.held && s.replicas[r].phase.Idle? && s.server == Server(Some(r), 1)
  {
    steps := [];
    Then(init, steps, BeginAcquire(r));
    steps := steps + [BeginAcquire(r)];
    Then(init, steps, Validated(r, true));
    steps := steps + [Validated(r, true)];
    Then(init, steps, ServerAnswers(r));
    steps := steps + [ServerAnswers(r)];
    Then(init, steps, TimesOut(r));
    steps := steps + [TimesOut(r)];
    Then(init, steps, ServerAnswers(r));
    steps := steps + [ServerAnswers(r)];
    Then(init, steps, ClientReads(r));
    steps := steps + [ClientReads(r)];
    Then(init, steps, BeginRelease(r, true, 1));
    steps := steps + [BeginRelease(r, true, 1)];
    Then(init, steps, ServerUnlocks(r));
    steps := steps + [ServerUnlocks(r)];
    Then(init, steps, ReleaseReturns(r));
    steps := steps + [ReleaseReturns(r)];
  }

  /**
   * A failed release can leave a false belief: when the server unlocks but the
   * reply is lost, the token of an idle leader stays current on a live session
   * although another replica leads.
   */
  lemma LostReplyKeepsBelief(init: State, steps: seq<Step>, q: nat, r: nat) returns (more: seq<Step>)
    requires Initial(init) && After(init, steps).Some? && q != r
    requires var s := After(init, steps).value;
      && q < |s.replicas| && r < |s.replicas| && Leads(s.replicas[q]) && s.replicas[q].phase.Idle?
      && s.replicas[q].stray == 0
      && s.replicas[r].phase.Idle? && s.replicas[r].live && s.replicas[r].maxRetries > 0
    ensures After(init, more).Some?
    ensures var s, t := After(init, steps).value, After(init, more).value;
      && |t.replicas| == |s.replicas|
      && IsCurrent(t.replicas[q].client, s.replicas[q].client.epoch) && t.replicas[q].live && t.replicas[q].phase.Idle?
      && Leads(t.replicas[r]) && t.server.owner == Some(r)
  {
    InvariantAlways(init, steps);
    var s := After(init, steps).value;
    assert ReplicaOk(s.server, q, s.replicas[q]);
    Then(init, steps, BeginRelease(q, true, s.replicas[q].client.epoch));
    more := steps + [BeginRelease(q, true, s.replicas[q].client.epoch)];
    Then(init, more, ServerUnlocks(q));
    more := more + [ServerUnlocks(q)];
    Then(init, more, ReleaseErrors(q));
    more := more + [ReleaseErrors(q)];
    more := CanAcquire(init, more, r);
  }
}
