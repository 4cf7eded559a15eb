/** The retry envelope around serializable transactions, and the nested calls that join one. */
module Retry {
  import opened Json

  /** What an operation does to the state it sees: new state and value, or an error. */
  datatype Attempted<S, R> = Commits(state: S, value: R) | Raises

  /** How one attempt goes: a serialization failure (SQLSTATE 40001) or another database error
      rolls it back; an answer may be lost after the commit. */
  datatype Weather = Calm | Conflict | Broken | AnswerLost

  /** Attempt number i: what other clients commit before it, and how it goes. */
  datatype Circumstance<!S> = Circumstance(others: S -> S, weather: Weather)

  datatype Answer<R> = Done(value: R) | SerializationError | OtherError | NotTotal

  datatype Ending<S, R> = Ending(state: S, answer: Answer<R>, attempts: int, commits: int)

  const MAX_RETRIES := 8

  /** The state after the other clients' commits before n attempts from number i. */
  function Environment<S>(script: nat -> Circumstance<S>, s: S, i: nat, n: nat): S
    decreases n
  {
    if n == 0 then s else Environment(script, script(i).others(s), i + 1, n - 1)
  }

  /** One attempt in its circumstance, on the state it sees. */
  function AttemptOnce<S, R>(op: S -> Attempted<S, R>, weather: Weather, seen: S, n: nat): Ending<S, R> {
    match weather
    case Conflict => Ending(seen, SerializationError, n, 0)
    case Broken => Ending(seen, OtherError, n, 0)
    case Calm =>
      (match op(seen)
       case Raises => Ending(seen, OtherError, n, 0)
       case Commits(t, v) => Ending(t, Done(v), n, 1))
    case AnswerLost =>
      (match op(seen)
       case Raises => Ending(seen, OtherError, n, 0)
       case Commits(t, v) => Ending(t, OtherError, n, 1))
  }

  /** The first attempt from i that is not a serialization failure, or the last one allowed. */
  function Envelope<S, R>(op: S -> Attempted<S, R>, script: nat -> Circumstance<S>, s: S, i: nat, retries: nat): Ending<S, R>
    requires i < retries
    decreases retries - i
  {
    var once := AttemptOnce(op, script(i).weather, script(i).others(s), i + 1);
    if once.answer == SerializationError && i + 1 < retries then Envelope(op, script, once.state, i + 1, retries)
    else once
  }

  /** The envelope makes a bounded number of attempts, each but the last a serialization failure;
      it commits at most once; it leaves what the other clients left, or exactly one application
      of the operation to it; and it never gives the non-total answer. */
  lemma {:induction false} EnvelopeIsSound<S, R>(op: S -> Attempted<S, R>, script: nat -> Circumstance<S>, s: S, i: nat, retries: nat)
    requires i < retries
    ensures var e := Envelope(op, script, s, i, retries);
      && i < e.attempts <= retries && e.commits <= 1 && !e.answer.NotTotal?
      && (forall j | i <= j < e.attempts - 1 :: script(j).weather == Conflict)
      && (var seen := Environment(script, s, i, e.attempts - i);
          && (e.commits == 0 ==> e.state == seen)
          && (e.commits == 1 ==> op(seen).Commits? && e.state == op(seen).state)
          && (e.answer.Done? ==> e.commits == 1 && e.answer.value == op(seen).value))
      && (e.answer.SerializationError? <==> e.attempts == retries && script(retries - 1).weather == Conflict)
    decreases retries - i
  {
    var once := AttemptOnce(op, script(i).weather, script(i).others(s), i + 1);
    assert Environment(script, s, i, 1) == script(i).others(s);
    if once.answer == SerializationError && i + 1 < retries {
      EnvelopeIsSound(op, script, once.state, i + 1, retries);
    }
  }

  /** Attempt j is the first that is no serialization failure, it is calm, and the operation
      commits on the state it sees. */
  ghost predicate GetsThroughAt<S, R>(op: S -> Attempted<S, R>, script: nat -> Circumstance<S>, s: S, i: nat, j: nat)
    requires i <= j
  {
    && (forall k | i <= k < j :: script(k).weather == Conflict)
    && script(j).weather == Calm && op(Environment(script, s, i, j + 1 - i)).Commits?
  }

  lemma ThroughLater<S, R>(op: S -> Attempted<S, R>, script: nat -> Circumstance<S>, s: S, i: nat, j: nat)
    requires i < j && script(i).weather == Conflict
    ensures GetsThroughAt(op, script, s, i, j) <==> GetsThroughAt(op, script, script(i).others(s), i + 1, j)
  {
    assert Environment(script, s, i, j + 1 - i) == Environment(script, script(i).others(s), i + 1, j - i);
  }

  /** The caller gets its value exactly when some attempt within the bound gets through. */
  lemma {:induction false} SucceedsExactly<S, R>(op: S -> Attempted<S, R>, script: nat -> Circumstance<S>, s: S, i: nat, retries: nat)
    requires i < retries
    ensures Envelope(op, script, s, i, retries).answer.Done? <==> exists j :: i <= j < retries && GetsThroughAt(op, script, s, i, j)
    decreases retries - i
  {
    var seen := script(i).others(s);
    assert Environment(script, s, i, 1) == seen;
    if script(i).weather == Conflict {
      assert !GetsThroughAt(op, script, s, i, i);
      if i + 1 < retries {
        SucceedsExactly(op, script, seen, i + 1, retries);
        var next := i + 1;
        if j :| next <= j < retries && GetsThroughAt(op, script, seen, next, j) { ThroughLater(op, script, s, i, j); }
        if j :| i <= j < retries && GetsThroughAt(op, script, s, i, j) { ThroughLater(op, script, s, i, j); }
      }
    } else if Envelope(op, script, s, i, retries).answer.Done? {
      assert GetsThroughAt(op, script, s, i, i);
    }
  }

  /** A committed state and, while a transaction is open, its working state. */
  class Memory<S(!new), R(!new)> {
    var committed: S
    var active: Option<S>
    ghost var attempts: nat
    ghost var commits: nat

    constructor (s: S)
      ensures committed == s && active == None && attempts == 0 && commits == 0
    {
      committed, active, attempts, commits := s, None, 0, 0;
    }

    /** One attempt: open, operate, commit or roll back. */
    method Attempt(op: S -> Attempted<S, R>, weather: Weather) returns (answer: Answer<R>)
      requires active.None?
      modifies this
      ensures active.None? && attempts == old(attempts) + 1
      ensures Ending(committed, answer, attempts, commits - old(commits)) == AttemptOnce(op, weather, old(committed), attempts)
    {
      attempts := attempts + 1;
      active := Some(committed);
      if weather == Conflict || weather == Broken {
        active := None;
        return if weather == Conflict then SerializationError else OtherError;
      }
      var outcome := op(active.value);
      active := None;
      if outcome.Raises? { return OtherError; }
      committed, commits := outcome.state, commits + 1;
      answer := if weather == Calm then Done(outcome.value) else OtherError;
    }

    /** The envelope. Inside an open transaction the operation runs once on the working state:
        no attempt, no commit and no retry of its own. */
    method RetryOperation(op: S -> Attempted<S, R>, script: nat -> Circumstance<S>, retries: nat) returns (answer: Answer<R>)
      requires 1 <= retries <= MAX_RETRIES
      modifies this
      ensures old(active).Some? ==>
        && committed == old(committed) && commits == old(commits) && attempts == old(attempts)
        && (match op(old(active.value))
            case Raises => active == old(active) && answer == OtherError
            case Commits(t, v) => active == Some(t) && answer == Done(v))
      ensures old(active).None? ==>
        && active.None?
        && Ending(committed, answer, attempts - old(attempts), commits - old(commits))
             == Envelope(op, script, old(committed), 0, retries)
    {
      if active.Some? {
        match op(active.value) {
          case Raises => return OtherError;
          case Commits(t, v) =>
            active := Some(t);
            return Done(v);
        }
      }
      answer := NotTotal;
      var attempt, settled := 0, false;
      while attempt < retries && !settled
        invariant active.None? && attempt <= retries && (!settled ==> attempt < retries)
        invariant attempts == old(attempts) + attempt
        invariant !settled ==> commits == old(commits)
        invariant !settled ==> Envelope(op, script, old(committed), 0, retries) == Envelope(op, script, committed, attempt, retries)
        invariant settled ==>
          Ending(committed, answer, attempt, commits - old(commits)) == Envelope(op, script, old(committed), 0, retries)
      {
        committed := script(attempt).others(committed);
        answer := Attempt(op, script(attempt).weather);
        settled := answer != SerializationError || attempt + 1 == retries;
        attempt := attempt + 1;
      }
    }

    /** Two appends inside one transaction, as a report nests its insert: both or neither. */
    method Nested(first: S -> Attempted<S, R>, second: S -> Attempted<S, R>, script: nat -> Circumstance<S>, retries: nat)
      returns (answer: Answer<R>)
      requires active.None? && 1 <= retries <= MAX_RETRIES
      modifies this
      ensures active.None? && attempts == old(attempts) && commits <= old(commits) + 1
      ensures match first(old(committed))
        case Raises => committed == old(committed) && answer == OtherError && commits == old(commits)
        case Commits(s, _) =>
          (match second(s)
           case Raises => committed == old(committed) && answer == OtherError && commits == old(commits)
           case Commits(t, v) => committed == t && answer == Done(v) && commits == old(commits) + 1)
    {
      active := Some(committed);
      answer := RetryOperation(first, script, retries);
      if answer.Done? { answer := RetryOperation(second, script, retries); }
      if answer.Done? { committed, commits := active.value, commits + 1; }
      active := None;
    }
  }
}
