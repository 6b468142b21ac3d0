/** TTS-0006 client session order: what may be called when, and what it takes to finish. */
module Session {
  import opened Wrappers
  import opened ResponseTracker

  datatype State = Ready | AwaitingReplyHeader | AwaitingResponses | MustSendReply | Closing | Complete | Failed

  /** The parties and requests of one exchange. */
  datatype Exchange = Exchange(origin: Identity, destination: Identity, outstanding: seq<Request>)

  datatype Snapshot = Snapshot(state: State, completed: seq<Completed>)

  datatype Call =
    | InitialSent
    | ReplyHeader(origin: Identity, destination: Identity)
    | Responses(items: seq<Item>)
    | FinalReplySent
    | Closed

  predicate NeedsFinalReply(o: seq<Request>) {
    exists i :: 0 <= i < |o| && RequiresReturnBundle(o[i].kind)
  }

  /** One call on a session value: the next value and the error reported, if any. */
  function Step(x: Exchange, s: Snapshot, call: Call): (r: (Snapshot, Option<Error>))
    requires Named(x.outstanding, s.completed)
    ensures Named(x.outstanding, r.0.completed)
  {
    var failed := s.(state := Failed);
    match call
    case InitialSent =>
      if s.state != Ready then (failed, Some(UnexpectedResponse))
      else (s.(state := AwaitingReplyHeader), None)
    case ReplyHeader(origin, destination) =>
      if s.state != AwaitingReplyHeader then (failed, Some(UnexpectedResponse))
      else if origin != x.destination then (failed, Some(WrongReplyOrigin))
      else if destination != x.origin then (failed, Some(WrongReplyDestination))
      else (s.(state := if |s.completed| == |x.outstanding| then Closing else AwaitingResponses), None)
    case Responses(items) =>
      if s.state != AwaitingResponses then (failed, Some(UnexpectedResponse))
      else
        var (completed, error) := ObserveAll(x.outstanding, s.completed, items);
        if error.Some? then (Snapshot(Failed, completed), error)
        else if |completed| != |x.outstanding| then (s.(completed := completed), None)
        else (Snapshot(if NeedsFinalReply(x.outstanding) then MustSendReply else Closing, completed), None)
    case FinalReplySent =>
      if s.state != MustSendReply then (failed, Some(UnexpectedResponse))
      else (s.(state := Closing), None)
    case Closed =>
      if s.state == Closing then (s.(state := Complete), None)
      else if |s.completed| == |x.outstanding| then (failed, Some(UnexpectedResponse))
      else (failed, Some(Incomplete(|x.outstanding|, |s.completed|)))
  }

  class ClientSession {
    var state: State
    const tracker: Tracker

    constructor (tracker: Tracker)
      requires tracker.Valid()
      ensures this.tracker == tracker && state == Ready
    {
      this.tracker := tracker;
      state := Ready;
    }

    ghost function Value(): Snapshot
      reads this, tracker
    {
      Snapshot(state, tracker.completed)
    }

    ghost function Terms(): Exchange
    {
      Exchange(tracker.origin, tracker.destination, tracker.outstanding)
    }

    method Initial() returns (error: Option<Error>)
      requires tracker.Valid()
      modifies this
      ensures (Value(), error) == Step(Terms(), old(Value()), InitialSent)
    {
      if state != Ready { state := Failed; return Some(UnexpectedResponse); }
      state := AwaitingReplyHeader;
      return None;
    }

    method ReplyHeaderReceived(origin: Identity, destination: Identity) returns (error: Option<Error>)
      requires tracker.Valid()
      modifies this
      ensures (Value(), error) == Step(Terms(), old(Value()), ReplyHeader(origin, destination))
    {
      if state != AwaitingReplyHeader { state := Failed; return Some(UnexpectedResponse); }
      if origin != tracker.destination { state := Failed; return Some(WrongReplyOrigin); }
      if destination != tracker.origin { state := Failed; return Some(WrongReplyDestination); }
      if tracker.IsComplete() { state := Closing; } else { state := AwaitingResponses; }
      return None;
    }

    method ResponsesReceived(items: seq<Item>) returns (error: Option<Error>)
      requires tracker.Valid()
      modifies this, tracker`completed
      ensures tracker.Valid()
      ensures (Value(), error) == Step(Terms(), old(Value()), Responses(items))
    {
      if state != AwaitingResponses { state := Failed; return Some(UnexpectedResponse); }
      error := tracker.ObserveResponses(items);
      if error.Some? { state := Failed; return; }
      if tracker.IsComplete() {
        var needed := false;
        for i := 0 to |tracker.outstanding|
          invariant needed == exists k :: 0 <= k < i && RequiresReturnBundle(tracker.outstanding[k].kind)
        {
          if RequiresReturnBundle(tracker.outstanding[i].kind) { needed := true; }
        }
        state := if needed then MustSendReply else Closing;
      }
    }

    method FinalReply() returns (error: Option<Error>)
      requires tracker.Valid()
      modifies this
      ensures (Value(), error) == Step(Terms(), old(Value()), FinalReplySent)
    {
      if state != MustSendReply { state := Failed; return Some(UnexpectedResponse); }
      state := Closing;
      return None;
    }

    method Close() returns (error: Option<Error>)
      requires tracker.Valid()
      modifies this
      ensures (Value(), error) == Step(Terms(), old(Value()), Closed)
    {
      if state == Closing { state := Complete; return None; }
      state := Failed;
      if tracker.IsComplete() { return Some(UnexpectedResponse); }
      return Some(Incomplete(|tracker.outstanding|, |tracker.completed|));
    }
  }

  // Whole runs.

  function Run(x: Exchange, s: Snapshot, calls: seq<Call>): Snapshot
    requires Named(x.outstanding, s.completed)
    decreases |calls|
  {
    if calls == [] then s else Run(x, Step(x, s, calls[0]).0, calls[1..])
  }

  const Start := Snapshot(Ready, [])

  /** From `c` on: batches of responses until every request is answered, then the closing calls. */
  predicate Answering(x: Exchange, c: seq<Completed>, calls: seq<Call>)
    requires Named(x.outstanding, c)
    decreases |calls|
  {
    if |c| == |x.outstanding| then
      calls == (if NeedsFinalReply(x.outstanding) then [FinalReplySent] else []) + [Closed]
    else
      && calls != [] && calls[0].Responses?
      && ObserveAll(x.outstanding, c, calls[0].items).1 == None
      && Answering(x, ObserveAll(x.outstanding, c, calls[0].items).0, calls[1..])
  }

  /** The one shape of a finished conversation. */
  predicate Conversation(x: Exchange, calls: seq<Call>) {
    && |calls| >= 2
    && calls[0] == InitialSent
    && calls[1] == ReplyHeader(x.destination, x.origin)
    && Answering(x, [], calls[2..])
  }

  lemma {:induction false} FailedForever(x: Exchange, s: Snapshot, calls: seq<Call>)
    requires Named(x.outstanding, s.completed) && s.state == Failed
    ensures Run(x, s, calls).state == Failed
    decreases |calls|
  {
    if calls != [] {
      FailedForever(x, Step(x, s, calls[0]).0, calls[1..]);
    }
  }

  /** Nothing may follow the end: every later call is refused and the session is lost. */
  lemma NothingAfterComplete(x: Exchange, s: Snapshot, calls: seq<Call>)
    requires Named(x.outstanding, s.completed) && s.state == Complete && calls != []
    ensures Step(x, s, calls[0]).1.Some? && Run(x, s, calls).state == Failed
  {
    FailedForever(x, Step(x, s, calls[0]).0, calls[1..]);
  }

  lemma ClosingMeans(x: Exchange, s: Snapshot, calls: seq<Call>)
    requires Named(x.outstanding, s.completed) && s.state == Closing
    ensures Run(x, s, calls).state == Complete <==> calls == [Closed]
  {
    if calls != [] {
      var next := Step(x, s, calls[0]).0;
      if calls[0] == Closed {
        if calls[1..] != [] { NothingAfterComplete(x, next, calls[1..]); }
      } else {
        FailedForever(x, next, calls[1..]);
      }
    }
  }

  lemma MustReplyMeans(x: Exchange, s: Snapshot, calls: seq<Call>)
    requires Named(x.outstanding, s.completed) && s.state == MustSendReply
    ensures Run(x, s, calls).state == Complete <==> calls == [FinalReplySent, Closed]
  {
    if calls != [] {
      var next := Step(x, s, calls[0]).0;
      if calls[0] == FinalReplySent {
        ClosingMeans(x, next, calls[1..]);
        assert calls == [calls[0]] + calls[1..];
      } else {
        FailedForever(x, next, calls[1..]);
      }
    }
  }

  lemma {:induction false} AnsweringMeans(x: Exchange, s: Snapshot, calls: seq<Call>)
    requires Named(x.outstanding, s.completed) && s.state == AwaitingResponses
    requires |s.completed| != |x.outstanding|
    ensures Run(x, s, calls).state == Complete <==> Answering(x, s.completed, calls)
    decreases |calls|
  {
    if calls != [] {
      var next := Step(x, s, calls[0]).0;
      var rest := calls[1..];
      if next.state == AwaitingResponses {
        AnsweringMeans(x, next, rest);
      } else if next.state == MustSendReply {
        MustReplyMeans(x, next, rest);
      } else if next.state == Closing {
        ClosingMeans(x, next, rest);
      } else {
        FailedForever(x, next, rest);
      }
    }
  }

  /** A run ends in Complete exactly when it is a conversation: no shorter, no longer, no other order. */
  lemma CompleteExactly(x: Exchange, calls: seq<Call>)
    ensures Run(x, Start, calls).state == Complete <==> Conversation(x, calls)
  {
    if |calls| >= 2 {
      var one := Step(x, Start, calls[0]).0;
      var two := Step(x, one, calls[1]).0;
      assert calls[1..][0] == calls[1] && calls[1..][1..] == calls[2..];
      assert Run(x, Start, calls) == Run(x, two, calls[2..]);
      var rest := calls[2..];
      if two.state == AwaitingResponses {
        AnsweringMeans(x, two, rest);
      } else if two.state == Closing {
        assert x.outstanding == [];
        ClosingMeans(x, two, rest);
      } else {
        FailedForever(x, two, rest);
      }
    } else if |calls| == 1 {
      assert Run(x, Start, calls) == Step(x, Start, calls[0]).0;
    }
  }

  /** Every response item of a run, in order. */
  function Items(calls: seq<Call>): seq<Item> {
    if calls == [] then []
    else (if calls[0].Responses? then calls[0].items else []) + Items(calls[1..])
  }

  lemma {:induction false} AnsweringObserves(x: Exchange, c: seq<Completed>, calls: seq<Call>)
    requires Named(x.outstanding, c) && Answering(x, c, calls)
    ensures var (all, error) := ObserveAll(x.outstanding, c, Items(calls));
            error == None && |all| == |x.outstanding|
    decreases |calls|
  {
    if |c| == |x.outstanding| {
      if NeedsFinalReply(x.outstanding) {
        assert calls == [FinalReplySent, Closed] && calls[1..] == [Closed];
      }
      assert [Closed][1..] == [];
      assert Items([Closed]) == [];
    } else {
      var next := ObserveAll(x.outstanding, c, calls[0].items).0;
      AnsweringObserves(x, next, calls[1..]);
      ObserveAppend(x.outstanding, c, calls[0].items, Items(calls[1..]));
    }
  }

  lemma {:induction false} ObservedCount(o: seq<Request>, c: seq<Completed>, items: seq<Item>)
    requires Named(o, c) && ObserveAll(o, c, items).1 == None
    ensures |ObserveAll(o, c, items).0| == |c| + |items|
    decreases |items|
  {
    if items != [] {
      ObservedCount(o, Observe(o, c, items[0]).value, items[1..]);
    }
  }

  /** A finished session carried exactly one response for each request. */
  lemma CompleteAnswersAll(x: Exchange, calls: seq<Call>)
    requires Run(x, Start, calls).state == Complete
    ensures OneEach(x.outstanding, Items(calls)) && |Items(calls)| == |x.outstanding|
    ensures DistinctKeys(x.outstanding)
    ensures forall k :: 0 <= k < |x.outstanding| ==> KeyOf(x.outstanding[k]) in AnswersOf(Items(calls))
  {
    CompleteExactly(x, calls);
    assert calls[1..][1..] == calls[2..];
    assert Items(calls) == Items(calls[2..]) by {
      assert Items(calls) == [] + Items(calls[1..]);
      assert Items(calls[1..]) == [] + Items(calls[2..]);
    }
    AnsweringObserves(x, [], calls[2..]);
    ObservedCount(x.outstanding, [], Items(calls));
    RunMeaning(x.outstanding, Items(calls));
    CompleteMeans(x.outstanding, Items(calls));
  }
}
