/** The request/reply channel of `apps/cli/src/client.rs`: one response per request, with pushed frames
    interleaved on the same connection. */
module Client {
  import opened Results

  /** The frames a host sends, by variant; `body` is what they carry. */
  datatype Response =
    | Event(body: string)
    | SessionsChanged(body: string)
    | ScheduleRunsChanged(body: string)
    | TermOutput(body: string)
    | TermGapped(body: string)
    | TermExited(body: string)
    | SessionHealth(body: string)
    | Events(body: string)
    | Sessions(body: string)
    | HelloAck(body: string)
    | OtherReply(body: string)

  /** Unsolicited live traffic; the variant alone decides. */
  predicate IsPush(r: Response) {
    r.Event? || r.SessionsChanged? || r.ScheduleRunsChanged? || r.TermOutput? || r.TermGapped? ||
    r.TermExited? || r.SessionHealth?
  }

  /** What one receive yields: a frame, or why there is none. */
  datatype Incoming =
    | Frame(response: Response)
    | Undecodable
    | TransportError
    | Closed
    | TimedOut

  datatype Failure = EncodeFailed | SendTimedOut | SendFailed | ReceiveTimedOut | ReceiveFailed | HostClosed | BadReply

  datatype Sending = Sent | NotEncodable | NotInTime | Refused

  function FailureOf(i: Incoming): Failure
    requires !i.Frame?
  {
    match i
    case Undecodable => BadReply
    case TransportError => ReceiveFailed
    case Closed => HostClosed
    case TimedOut => ReceiveTimedOut
  }

  /** How a call ended, the pushes it handed out, and what is left to receive. */
  datatype Outcome = Outcome(result: Result<Response, Failure>, pushed: seq<Response>, left: seq<Incoming>)

  /** Receive until a frame that is no push; a stream that has run dry times the wait out. */
  function Receive(inbox: seq<Incoming>): Outcome {
    if inbox == [] then Outcome(Err(ReceiveTimedOut), [], [])
    else if !inbox[0].Frame? then Outcome(Err(FailureOf(inbox[0])), [], inbox[1..])
    else if IsPush(inbox[0].response) then
      var rest := Receive(inbox[1..]);
      rest.(pushed := [inbox[0].response] + rest.pushed)
    else Outcome(Ok(inbox[0].response), [], inbox[1..])
  }

  function Call(sending: Sending, inbox: seq<Incoming>): Outcome {
    match sending
    case NotEncodable => Outcome(Err(EncodeFailed), [], inbox)
    case NotInTime => Outcome(Err(SendTimedOut), [], inbox)
    case Refused => Outcome(Err(SendFailed), [], inbox)
    case Sent => Receive(inbox)
  }

  class Client {
    /** Everything the host will have sent on this connection and we have not yet received. */
    var inbox: seq<Incoming>
    /** What `on_push` has been given, over all calls. */
    var pushLog: seq<Response>

    constructor (inbox: seq<Incoming>)
      ensures this.inbox == inbox && pushLog == []
    {
      this.inbox := inbox;
      pushLog := [];
    }

    method OnPush(r: Response)
      modifies this`pushLog
      ensures pushLog == old(pushLog) + [r]
    {
      pushLog := pushLog + [r];
    }

    method RecvFrame() returns (r: Result<Response, Failure>)
      modifies this`inbox
      ensures if old(inbox) == [] then r == Err(ReceiveTimedOut) && inbox == []
              else inbox == old(inbox)[1..] &&
                   r == if old(inbox)[0].Frame? then Ok(old(inbox)[0].response) else Err(FailureOf(old(inbox)[0]))
    {
      if inbox == [] {
        return Err(ReceiveTimedOut);
      }
      var next := inbox[0];
      inbox := inbox[1..];
      r := if next.Frame? then Ok(next.response) else Err(FailureOf(next));
    }

    method CallWithin(sending: Sending) returns (r: Result<Response, Failure>)
      modifies this
      ensures var o := Call(sending, old(inbox)); r == o.result && inbox == o.left && pushLog == old(pushLog) + o.pushed
    {
      match sending {
        case NotEncodable => return Err(EncodeFailed);
        case NotInTime => return Err(SendTimedOut);
        case Refused => return Err(SendFailed);
        case Sent =>
      }
      ghost var whole := Receive(inbox);
      while true
        invariant var o := Receive(inbox);
                  whole.result == o.result && whole.left == o.left && old(pushLog) + whole.pushed == pushLog + o.pushed
        decreases |inbox|
      {
        if inbox == [] {
          return Err(ReceiveTimedOut);
        }
        var frame := RecvFrame();
        if frame.Err? {
          return frame;
        }
        if IsPush(frame.value) {
          OnPush(frame.value);
          continue;
        }
        return frame;
      }
    }
  }

  // ---------- Against a host that answers in order ----------

  /** What the host sends around one reply: any pushes, then the reply itself. */
  datatype Turn = Turn(pushes: seq<Response>, reply: Response)

  /** The frames that answer a request, by variant. */
  predicate IsReply(r: Response) { r.Events? || r.Sessions? || r.HelloAck? || r.OtherReply? }

  predicate IsTurn(t: Turn) {
    IsReply(t.reply) && forall i :: 0 <= i < |t.pushes| ==> !IsReply(t.pushes[i])
  }

  predicate AreTurns(ts: seq<Turn>) { forall i :: 0 <= i < |ts| ==> IsTurn(ts[i]) }

  function Frames(rs: seq<Response>): seq<Incoming> {
    if rs == [] then [] else [Frame(rs[0])] + Frames(rs[1..])
  }

  /** The connection's whole traffic: the turns, then whatever comes after. */
  function Traffic(ts: seq<Turn>, tail: seq<Incoming>): seq<Incoming> {
    if ts == [] then tail else Frames(ts[0].pushes) + [Frame(ts[0].reply)] + Traffic(ts[1..], tail)
  }

  /** `n` calls in a row, each sent without trouble. */
  function Calls(inbox: seq<Incoming>, n: nat): seq<Outcome>
    decreases n
  {
    if n == 0 then []
    else
      var o := Receive(inbox);
      [o] + Calls(o.left, n - 1)
  }

  lemma {:induction false} ReceiveTurn(pushes: seq<Response>, reply: Response, rest: seq<Incoming>)
    requires IsTurn(Turn(pushes, reply))
    ensures Receive(Frames(pushes) + [Frame(reply)] + rest) == Outcome(Ok(reply), pushes, rest)
    decreases |pushes|
  {
    var inbox := Frames(pushes) + [Frame(reply)] + rest;
    if pushes == [] {
      assert inbox[1..] == rest;
    } else {
      assert !IsReply(pushes[0]);
      assert inbox[1..] == Frames(pushes[1..]) + [Frame(reply)] + rest;
      ReceiveTurn(pushes[1..], reply, rest);
    }
  }

  /** The k-th call returns the k-th reply, and hands out exactly the pushes queued before it. */
  lemma {:induction false} CallsMatchReplies(ts: seq<Turn>, tail: seq<Incoming>, n: nat, k: nat)
    requires AreTurns(ts) && k < n <= |ts|
    ensures |Calls(Traffic(ts, tail), n)| == n
    ensures Calls(Traffic(ts, tail), n)[k] == Outcome(Ok(ts[k].reply), ts[k].pushes, Traffic(ts[k + 1..], tail))
    decreases k
  {
    CallsCount(Traffic(ts, tail), n);
    assert IsTurn(ts[0]);
    ReceiveTurn(ts[0].pushes, ts[0].reply, Traffic(ts[1..], tail));
    if k > 0 {
      CallsMatchReplies(ts[1..], tail, n - 1, k - 1);
      assert ts[1..][k..] == ts[k + 1..];
    }
  }

  lemma {:induction false} CallsCount(inbox: seq<Incoming>, n: nat)
    ensures |Calls(inbox, n)| == n
    decreases n
  {
    if n > 0 { CallsCount(Receive(inbox).left, n - 1); }
  }

  // ---------- Against any host ----------

  /** A request that does not go out takes nothing off the connection, and says what went wrong. */
  lemma UnsentTakesNothing(sending: Sending, inbox: seq<Incoming>)
    ensures var o := Call(sending, inbox);
            && (sending == Sent ==> o == Receive(inbox))
            && (sending != Sent ==> o.pushed == [] && o.left == inbox)
            && (sending == NotEncodable ==> o.result == Err(EncodeFailed))
            && (sending == NotInTime ==> o.result == Err(SendTimedOut))
            && (sending == Refused ==> o.result == Err(SendFailed))
  {
  }

  function Handed(o: Outcome): seq<Incoming> {
    Frames(o.pushed) + (if o.result.Ok? then [Frame(o.result.value)] else [])
  }

  /** The receive failed at the one item that is neither push nor reply, or the stream had run dry. */
  ghost predicate FailedAfterPushes(inbox: seq<Incoming>, o: Outcome)
    requires o.result.Err?
  {
    || (inbox == Frames(o.pushed) && o.left == [] && o.result.error == ReceiveTimedOut)
    || exists bad :: IsLostItem(inbox, o, bad)
  }

  predicate IsLostItem(inbox: seq<Incoming>, o: Outcome, bad: Incoming)
    requires o.result.Err?
  {
    && inbox == Frames(o.pushed) + [bad] + o.left
    && match bad
       case Frame(_) => false
       case Undecodable => o.result.error == BadReply
       case TransportError => o.result.error == ReceiveFailed
       case Closed => o.result.error == HostClosed
       case TimedOut => o.result.error == ReceiveTimedOut
  }

  /** Whatever the host sent, a call takes a prefix of the traffic: its pushes and then one reply, or its
      pushes and the one item it failed on. Nothing is lost, reordered or handed out twice. */
  lemma {:induction false} CallConserves(inbox: seq<Incoming>)
    ensures var o := Receive(inbox);
            && (forall i :: 0 <= i < |o.pushed| ==> !IsReply(o.pushed[i]))
            && (o.result.Ok? ==> IsReply(o.result.value) && Handed(o) + o.left == inbox)
            && (o.result.Err? ==> FailedAfterPushes(inbox, o))
    decreases |inbox|
  {
    if inbox != [] {
      var o, rest := Receive(inbox), Receive(inbox[1..]);
      assert inbox == [inbox[0]] + inbox[1..];
      if inbox[0].Frame? && IsPush(inbox[0].response) {
        CallConserves(inbox[1..]);
        assert o.pushed[1..] == rest.pushed;
        if bad :| rest.result.Err? && IsLostItem(inbox[1..], rest, bad) { assert IsLostItem(inbox, o, bad); }
      } else if !inbox[0].Frame? {
        assert IsLostItem(inbox, o, inbox[0]);
      }
    }
  }
}
