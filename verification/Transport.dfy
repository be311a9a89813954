/** isabelle-lsp/src/main.rs, `BridgeTransport::request`: one line out, the matching reply back, and
    at most one retry on a fresh connection.

    The connection lock is held for one attempt and released between attempts, so an attempt is one
    atomic step and attempts of different requests interleave freely.  Requests are numbered in the
    order in which they take their identifiers. */
module Transport {
  import opened Protocol
  import opened MessageIds

  /** A line arriving from the bridge.  `answers` names the request it was produced for. */
  datatype Incoming = Reply(message: Message, answers: nat) | Garbage

  datatype Ending = EndOfFile | IoFailure | Expired

  datatype SendResult = Sent | SendFailed | SendExpired

  /** What the environment does during one attempt: whether a needed connection can be made, how
      the write goes, which lines arrive, and what happens if none of them settles the matter. */
  datatype Script = Script(connects: bool, send: SendResult, replies: seq<Incoming>, ending: Ending)

  datatype BridgeError = Io | Timeout | Eof | InvalidResponse

  datatype Result = Ok(message: Message, answers: nat) | Err(error: BridgeError)

  datatype Outcome = Matched(message: Message, answers: nat) | Garbled | Broken(ending: Ending)

  datatype Verdict = Done(result: Result) | Retry

  datatype Write = Write(request: nat, connection: nat)

  /** `slot` is the open connection, `connects` the number of connections ever made. */
  datatype State = State(slot: Option<nat>, connects: nat, writes: seq<Write>)

  function Broke(e: Ending): BridgeError {
    match e
    case EndOfFile => Eof
    case IoFailure => Io
    case Expired => Timeout
  }

  /** Skip replies that carry another identifier. */
  function Scan(id: string, replies: seq<Incoming>, ending: Ending): Outcome {
    if replies == [] then Broken(ending)
    else match replies[0]
      case Garbage => Garbled
      case Reply(m, a) => if m.id == id then Matched(m, a) else Scan(id, replies[1..], ending)
  }

  function Exchange(id: string, script: Script): Outcome {
    match script.send
    case Sent => Scan(id, script.replies, script.ending)
    case SendFailed => Broken(IoFailure)
    case SendExpired => Broken(Expired)
  }

  /** One locked attempt, the first or the second of request `r`. */
  function Attempt(s: State, r: nat, second: bool, script: Script): (State, Verdict) {
    if s.slot.None? && !script.connects then (s, Done(Err(Io)))
    else
      var c := if s.slot.Some? then s.slot.value else s.connects;
      var open := State(Some(c), if s.slot.Some? then s.connects else s.connects + 1, s.writes + [Write(r, c)]);
      match Exchange(IdOfRequest(r), script)
      case Matched(m, a) => (open, Done(Ok(m, a)))
      case Garbled => (open, Done(Err(InvalidResponse)))
      case Broken(e) => (open.(slot := None), if second then Done(Err(Broke(e))) else Retry)
  }

  // ---------------------------------------------------------------------------------------------
  // The transport object
  // ---------------------------------------------------------------------------------------------

  /** An attempt of another task. */
  datatype Other = Other(number: nat, second: bool, script: Script)

  /** What other tasks do while one waits: identifiers they take, attempts they make. */
  datatype Interlude = Interlude(ids: nat, attempts: seq<Other>)

  class BridgeTransport {
    var nextId: nat
    var connection: Option<nat>
    var connects: nat
    ghost var issued: nat
    ghost var state: State

    ghost predicate Valid()
      reads this
    {
      nextId == (1 + issued) % U64 && state.slot == connection && state.connects == connects
    }

    constructor ()
      ensures Valid() && issued == 0 && state == State(None, 0, [])
    {
      nextId, connection, connects := 1, None, 0;
      issued := 0;
      state := State(None, 0, []);
    }

    method NextMessageId() returns (id: string)
      requires Valid()
      modifies this
      ensures Valid() && issued == old(issued) + 1 && state == old(state)
      ensures id == IdOfRequest(old(issued))
    {
      id := MessageId(nextId);
      nextId := if nextId + 1 == U64 then 0 else nextId + 1;
      issued := issued + 1;
    }

    /** Write the line and read until the matching reply, garbage, or the end. */
    method Talk(id: string, script: Script) returns (outcome: Outcome)
      ensures outcome == Exchange(id, script)
    {
      match script.send {
        case SendFailed => return Broken(IoFailure);
        case SendExpired => return Broken(Expired);
        case Sent =>
      }
      var i := 0;
      while i < |script.replies|
        invariant 0 <= i <= |script.replies|
        invariant Scan(id, script.replies, script.ending) == Scan(id, script.replies[i..], script.ending)
      {
        match script.replies[i] {
          case Garbage => return Garbled;
          case Reply(m, a) =>
            if m.id == id {
              return Matched(m, a);
            }
        }
        assert script.replies[i..][1..] == script.replies[i + 1..];
        i := i + 1;
      }
      return Broken(script.ending);
    }

    /** One attempt of request `r` while it holds the lock. */
    method AttemptOnce(id: string, ghost r: nat, second: bool, script: Script) returns (verdict: Verdict)
      requires Valid() && id == IdOfRequest(r)
      modifies this`connection, this`connects, this`state
      ensures Valid() && (state, verdict) == Attempt(old(state), r, second, script)
    {
      ghost var next := Attempt(state, r, second, script);
      if connection.None? {
        if !script.connects {
          return Done(Err(Io));
        }
        connection, connects := Some(connects), connects + 1;
      }
      var outcome := Talk(id, script);
      state := next.0;
      match outcome {
        case Matched(m, a) => return Done(Ok(m, a));
        case Garbled => return Done(Err(InvalidResponse));
        case Broken(e) =>
          connection := None;
          return if second then Done(Err(Broke(e))) else Retry;
      }
    }

    /** `scripts` are the environment's behaviours for the two attempts, `before` and `between` what
        other tasks do while this one waits for the lock. */
    method Request(scripts: (Script, Script), before: Interlude, between: Interlude)
      returns (result: Result, ghost r: nat)
      requires Valid()
      modifies this
      ensures Valid() && r == old(issued) < issued
      ensures
        var first := Attempt(Meanwhile(old(state), before.attempts), r, false, scripts.0);
        if first.1.Done? then state == first.0 && result == first.1.result
        else
          var again := Attempt(Meanwhile(first.0, between.attempts), r, true, scripts.1);
          again.1.Done? && state == again.0 && result == again.1.result
    {
      r := issued;
      ghost var first := Attempt(Meanwhile(state, before.attempts), r, false, scripts.0);
      var id := NextMessageId();
      for attempt := 0 to 2
        invariant Valid() && r < issued && id == IdOfRequest(r) && attempt < 2
        invariant attempt == 0 ==> state == old(state)
        invariant attempt == 1 ==> first == (state, Retry)
      {
        OtherTasks(if attempt == 0 then before else between);
        var verdict := AttemptOnce(id, r, attempt == 1, if attempt == 0 then scripts.0 else scripts.1);
        if verdict.Done? {
          return verdict.result, r;
        }
      }
      assert false;
    }

    /** Other tasks take identifiers and make attempts of their own, in any number. */
    method OtherTasks(interlude: Interlude)
      requires Valid()
      modifies this
      ensures Valid() && issued == old(issued) + interlude.ids
      ensures state == Meanwhile(old(state), interlude.attempts)
    {
      for i := 0 to interlude.ids
        invariant Valid() && issued == old(issued) + i && state == old(state)
      {
        var _ := NextMessageId();
      }
      var attempts := interlude.attempts;
      for i := 0 to |attempts|
        invariant Valid() && issued == old(issued) + interlude.ids
        invariant state == Meanwhile(old(state), attempts[..i])
      {
        assert attempts[..i + 1][..i] == attempts[..i];
        var other := attempts[i];
        var _ := AttemptOnce(IdOfRequest(other.number), other.number, other.second, other.script);
      }
      assert attempts[..|attempts|] == attempts;
    }
  }

  /** The state after other tasks' attempts. */
  function Meanwhile(s: State, others: seq<Other>): State {
    if others == [] then s
    else
      var n := |others| - 1;
      Attempt(Meanwhile(s, others[..n]), others[n].number, others[n].second, others[n].script).0
  }
}
