/** The middleware that limits request bodies: what reaches the client, for every inner application. */
module BodyLimit {
  import opened Wrappers
  import opened DecimalText
  import opened Utf8

  /** What the host delivers. */
  datatype Request = Request(body: seq<Byte>) | OtherRequest(kind: string)

  /** What is sent towards the client. */
  datatype Message =
    | Start(status: int, headers: seq<(string, string)>)
    | Body(body: seq<Byte>, more: bool)
    | OtherMessage(kind: string)

  /** One thing the inner application does through the middleware. */
  datatype Action = Receive(request: Request) | Send(message: Message)

  /** How the inner application ends: it returns, an Exception escapes it, or it is torn down by
      something that is not an Exception, as when its task is cancelled. */
  datatype Ending = Returns | Raises(error: string) | TornDown(cause: string)

  datatype ContentLength = Absent | Unparsable | Declared(length: int)

  const BAD_REQUEST := 400
  const TOO_LARGE := 413

  // ---------------------------------------------------------------- the middleware's own responses

  /** The JSON object with one member; the detail needs no escapes. */
  function Detail(detail: string): seq<Byte> {
    Encode("{\"detail\": \"" + detail + "\"}")
  }

  function JsonResponse(status: int, body: seq<Byte>): seq<Message> {
    [Start(status, [("content-type", "application/json"), ("content-length", Natural(|body|))]), Body(body, false)]
  }

  function TooLargeResponse(maxBytes: nat): seq<Message> {
    JsonResponse(TOO_LARGE, Detail("request body exceeds " + Natural(maxBytes) + " byte limit"))
  }

  const BAD_LENGTH: seq<Message> := JsonResponse(BAD_REQUEST, Detail("invalid content-length header"))

  // ---------------------------------------------------------------- one request

  datatype Flags = Flags(received: nat, tooLarge: bool, responseStarted: bool)

  function AfterReceive(f: Flags, maxBytes: nat, r: Request): Flags {
    if r.Request? then
      f.(received := f.received + |r.body|, tooLarge := f.tooLarge || f.received + |r.body| > maxBytes)
    else f
  }

  /** What reaches the client of one message the inner application sends. */
  function Passed(f: Flags, maxBytes: nat, m: Message): seq<Message> {
    if m.Start? && f.tooLarge then TooLargeResponse(maxBytes)
    else if m.Body? && f.tooLarge then []
    else [m]
  }

  function FlagsAfter(trace: seq<Action>, maxBytes: nat): Flags {
    if trace == [] then Flags(0, false, false)
    else
      var f := FlagsAfter(trace[..|trace| - 1], maxBytes);
      match trace[|trace| - 1]
      case Receive(r) => AfterReceive(f, maxBytes, r)
      case Send(m) => if m.Start? then f.(responseStarted := true) else f
  }

  function Relayed(trace: seq<Action>, maxBytes: nat): seq<Message> {
    if trace == [] then []
    else
      var k := |trace| - 1;
      var before := Relayed(trace[..k], maxBytes);
      if trace[k].Send? then before + Passed(FlagsAfter(trace[..k], maxBytes), maxBytes, trace[k].message) else before
  }

  /** Everything the client gets, unless the inner application is torn down. */
  function Output(trace: seq<Action>, maxBytes: nat): seq<Message> {
    var f, relayed := FlagsAfter(trace, maxBytes), Relayed(trace, maxBytes);
    if f.tooLarge && !f.responseStarted then relayed + TooLargeResponse(maxBytes) else relayed
  }

  /** The closures over one request, and what has been sent to the client. */
  class Limiter {
    const maxBytes: nat
    var received: nat
    var tooLarge: bool
    var responseStarted: bool
    var client: seq<Message>

    constructor (maxBytes: nat)
      ensures this.maxBytes == maxBytes && client == [] && Now() == Flags(0, false, false)
    {
      this.maxBytes, received, tooLarge, responseStarted, client := maxBytes, 0, false, false, [];
    }

    ghost function Now(): Flags
      reads this
    {
      Flags(received, tooLarge, responseStarted)
    }

    method SendJson(status: int, body: seq<Byte>)
      modifies this
      ensures Now() == old(Now()) && client == old(client) + JsonResponse(status, body)
    {
      client := client + [Start(status, [("content-type", "application/json"), ("content-length", Natural(|body|))])];
      client := client + [Body(body, false)];
    }

    method SendTooLarge()
      modifies this
      ensures Now() == old(Now()) && client == old(client) + TooLargeResponse(maxBytes)
    {
      SendJson(TOO_LARGE, Detail("request body exceeds " + Natural(maxBytes) + " byte limit"));
    }

    method LimitedReceive(message: Request)
      modifies this
      ensures Now() == AfterReceive(old(Now()), maxBytes, message) && client == old(client)
    {
      if message.Request? {
        received := received + |message.body|;
        if received > maxBytes {
          tooLarge := true;
        }
      }
    }

    method GuardedSend(message: Message)
      modifies this
      ensures client == old(client) + Passed(old(Now()), maxBytes, message)
      ensures Now() == if message.Start? then old(Now()).(responseStarted := true) else old(Now())
    {
      if message.Start? {
        responseStarted := true;
        if tooLarge {
          SendTooLarge();
          return;
        }
      }
      if tooLarge && message.Body? {
        return;
      }
      client := client + [message];
    }

    /** Runs the inner application, whatever it does. */
    method Run(trace: seq<Action>, ending: Ending) returns (result: Ending)
      requires client == [] && Now() == Flags(0, false, false)
      modifies this
      ensures client == if ending.TornDown? then Relayed(trace, maxBytes) else Output(trace, maxBytes)
      ensures result == if FlagsAfter(trace, maxBytes).tooLarge && !ending.TornDown? then Returns else ending
    {
      hide Passed, AfterReceive, TooLargeResponse;
      for i := 0 to |trace|
        invariant Now() == FlagsAfter(trace[..i], maxBytes) && client == Relayed(trace[..i], maxBytes)
      {
        assert trace[..i + 1][..i] == trace[..i];
        match trace[i]
        case Receive(r) => LimitedReceive(r);
        case Send(m) => GuardedSend(m);
      }
      assert trace[..|trace|] == trace;
      if ending.TornDown? { return ending; }
      if ending.Raises? {
        if !tooLarge { return ending; }
        if !responseStarted {
          SendTooLarge();
          return Returns;
        }
      }
      if tooLarge && !responseStarted {
        SendTooLarge();
      }
      return Returns;
    }
  }

  /** A scope that is not http passes through; a bad or too large content-length is answered at once. */
  method Call(isHttp: bool, contentLength: ContentLength, maxBytes: nat, trace: seq<Action>, ending: Ending)
    returns (client: seq<Message>, result: Ending)
    ensures !isHttp ==> client == Sends(trace) && result == ending
    ensures isHttp && contentLength.Unparsable? ==> client == BAD_LENGTH && result == Returns
    ensures isHttp && contentLength.Declared? && contentLength.length > maxBytes ==>
              client == TooLargeResponse(maxBytes) && result == Returns
    ensures isHttp && (contentLength.Absent? || (contentLength.Declared? && contentLength.length <= maxBytes)) ==>
              client == (if ending.TornDown? then Relayed(trace, maxBytes) else Output(trace, maxBytes))
              && result == if Total(trace) > maxBytes && !ending.TornDown? then Returns else ending
  {
    hide Output, Relayed, TooLargeResponse, Detail, FlagsAfter, Total;
    if !isHttp { return Sends(trace), ending; }
    var limiter := new Limiter(maxBytes);
    if contentLength.Unparsable? {
      limiter.SendJson(BAD_REQUEST, Detail("invalid content-length header"));
      return limiter.client, Returns;
    }
    if contentLength.Declared? && contentLength.length > maxBytes {
      limiter.SendTooLarge();
      return limiter.client, Returns;
    }
    result := limiter.Run(trace, ending);
    client := limiter.client;
    FlagsMean(trace, maxBytes);
  }

  // ---------------------------------------------------------------- read off the inner application's own trace

  /** The request bytes the inner application was handed. */
  function Total(trace: seq<Action>): nat {
    if trace == [] then 0
    else
      var a := trace[|trace| - 1];
      Total(trace[..|trace| - 1]) + (if a.Receive? && a.request.Request? then |a.request.body| else 0)
  }

  /** What the inner application sent. */
  function Sends(trace: seq<Action>): seq<Message> {
    if trace == [] then []
    else
      var before, a := Sends(trace[..|trace| - 1]), trace[|trace| - 1];
      if a.Send? then before + [a.message] else before
  }

  function Starts(ms: seq<Message>): nat {
    if ms == [] then 0 else Starts(ms[..|ms| - 1]) + (if ms[|ms| - 1].Start? then 1 else 0)
  }

  /** The messages left after dropping response starts and bodies. */
  function Others(ms: seq<Message>): seq<Message> {
    if ms == [] then []
    else
      var before, m := Others(ms[..|ms| - 1]), ms[|ms| - 1];
      if m.OtherMessage? then before + [m] else before
  }

  /** How many actions come before the receive that crosses the limit. */
  function Cut(trace: seq<Action>, maxBytes: nat): (k: nat)
    ensures k <= |trace|
  {
    if trace == [] || Total(trace) <= maxBytes then |trace| else Cut(trace[..|trace| - 1], maxBytes)
  }

  /** The cut is the one receive that takes the total over the limit. */
  lemma {:induction false} CutCrosses(trace: seq<Action>, maxBytes: nat, k: nat)
    requires k < |trace|
    ensures k == Cut(trace, maxBytes) <==> Total(trace[..k]) <= maxBytes < Total(trace[..k + 1])
  {
    var n := |trace| - 1;
    TotalGrows(trace, k); TotalGrows(trace, k + 1);
    if k < n {
      CutCrosses(trace[..n], maxBytes, k);
      assert trace[..n][..k] == trace[..k] && trace[..n][..k + 1] == trace[..k + 1];
      TotalGrows(trace[..n], k + 1);
    } else {
      assert trace[..k + 1] == trace;
    }
  }

  lemma {:induction false} TotalGrows(trace: seq<Action>, k: nat)
    requires k <= |trace|
    ensures Total(trace[..k]) <= Total(trace)
  {
    if k < |trace| {
      TotalGrows(trace[..|trace| - 1], k);
      assert trace[..|trace| - 1][..k] == trace[..k];
    } else {
      assert trace[..k] == trace;
    }
  }

  lemma {:induction false} FlagsMean(trace: seq<Action>, maxBytes: nat)
    ensures FlagsAfter(trace, maxBytes) == Flags(Total(trace), Total(trace) > maxBytes, Starts(Sends(trace)) > 0)
  {
    if trace != [] {
      var k := |trace| - 1;
      FlagsMean(trace[..k], maxBytes);
      if trace[k].Send? { StartsAppend(Sends(trace[..k]), trace[k].message); }
    }
  }

  lemma StartsAppend(ms: seq<Message>, m: Message)
    ensures Starts(ms + [m]) == Starts(ms) + (if m.Start? then 1 else 0)
    ensures Others(ms + [m]) == if m.OtherMessage? then Others(ms) + [m] else Others(ms)
  {
    assert (ms + [m])[..|ms|] == ms;
  }

  lemma {:induction false} StartsConcat(ms: seq<Message>, ns: seq<Message>)
    ensures Starts(ms + ns) == Starts(ms) + Starts(ns)
    decreases |ns|
  {
    if ns == [] {
      assert ms + ns == ms;
    } else {
      var k := |ns| - 1;
      assert ms + ns == (ms + ns[..k]) + [ns[k]];
      StartsConcat(ms, ns[..k]);
      StartsAppend(ms + ns[..k], ns[k]);
    }
  }

  lemma TooLargeHasOneStart(maxBytes: nat)
    ensures Starts(TooLargeResponse(maxBytes)) == 1 && |TooLargeResponse(maxBytes)| == 2
  {
    hide Detail, Natural;
    var r := TooLargeResponse(maxBytes);
    StartsAppend([], r[0]); StartsAppend([r[0]], r[1]);
    assert r == [r[0]] + [r[1]] && [r[0]] == [] + [r[0]];
  }

  // ---------------------------------------------------------------- theorems

  /** The client gets as many response starts as the inner application sends, or one if it sends none
      and the limit was crossed: at most one whenever the inner application sends at most one. */
  lemma StartsReachingClient(trace: seq<Action>, maxBytes: nat)
    ensures Starts(Output(trace, maxBytes)) ==
            if Starts(Sends(trace)) == 0 && Total(trace) > maxBytes then 1 else Starts(Sends(trace))
  {
    hide TooLargeResponse, FlagsAfter, Total, Sends, Starts, Relayed;
    RelayedStarts(trace, maxBytes);
    FlagsMean(trace, maxBytes);
    TooLargeHasOneStart(maxBytes);
    StartsConcat(Relayed(trace, maxBytes), TooLargeResponse(maxBytes));
    assert Relayed(trace, maxBytes) + [] == Relayed(trace, maxBytes);
  }

  /** Through the middleware alone go as many response starts as the inner application sends; so when it
      is torn down before its start, no response is made up for it. */
  lemma {:induction false} RelayedStarts(trace: seq<Action>, maxBytes: nat)
    ensures Starts(Relayed(trace, maxBytes)) == Starts(Sends(trace))
  {
    hide TooLargeResponse, FlagsAfter;
    if trace != [] {
      var k := |trace| - 1;
      RelayedStarts(trace[..k], maxBytes);
      if trace[k].Send? {
        var m := trace[k].message;
        var passed := Passed(FlagsAfter(trace[..k], maxBytes), maxBytes, m);
        StartsAppend(Sends(trace[..k]), m);
        StartsConcat(Relayed(trace[..k], maxBytes), passed);
        TooLargeHasOneStart(maxBytes);
        StartsAppend([], m);
        assert [m] == [] + [m];
      }
    }
  }

  /** While the limit is not crossed the client gets just what the inner application sent. */
  lemma {:induction false} NeverCrossed(trace: seq<Action>, maxBytes: nat)
    requires Total(trace) <= maxBytes
    ensures Output(trace, maxBytes) == Relayed(trace, maxBytes) == Sends(trace)
  {
    hide TooLargeResponse;
    FlagsMean(trace, maxBytes);
    if trace != [] {
      NeverCrossed(trace[..|trace| - 1], maxBytes);
      FlagsMean(trace[..|trace| - 1], maxBytes);
    }
  }

  /** What the client gets of messages sent after the crossing. */
  function Swapped(ms: seq<Message>, maxBytes: nat): seq<Message> {
    if ms == [] then []
    else
      var before, m := Swapped(ms[..|ms| - 1], maxBytes), ms[|ms| - 1];
      if m.Start? then before + TooLargeResponse(maxBytes) else if m.Body? then before else before + [m]
  }

  lemma {:induction false} SwappedMeans(ms: seq<Message>, maxBytes: nat)
    ensures Starts(ms) == 0 ==> Swapped(ms, maxBytes) == Others(ms)
    ensures Starts(ms) == 1 && Others(ms) == [] ==> Swapped(ms, maxBytes) == TooLargeResponse(maxBytes)
    ensures |Swapped(ms, maxBytes)| == 2 * Starts(ms) + |Others(ms)|
  {
    hide TooLargeResponse;
    TooLargeHasOneStart(maxBytes);
    if ms != [] { SwappedMeans(ms[..|ms| - 1], maxBytes); }
  }

  lemma LastOfRest(trace: seq<Action>, k: nat)
    requires k < |trace|
    ensures var n := |trace| - 1;
            && trace[..n][..k] == trace[..k] && trace[..n][k..] == trace[k..][..n - k]
            && |trace[k..]| == n - k + 1 && trace[k..][n - k] == trace[n]
  {
  }

  lemma {:induction false} SendsSplit(trace: seq<Action>, k: nat)
    requires k <= |trace|
    ensures Sends(trace) == Sends(trace[..k]) + Sends(trace[k..])
  {
    if k == |trace| {
      assert trace[..k] == trace && trace[k..] == [];
    } else {
      var n := |trace| - 1;
      SendsSplit(trace[..n], k);
      LastOfRest(trace, k);
    }
  }

  /** A trace that ends with a receive sends nothing in its last action. */
  lemma NothingSentLast(trace: seq<Action>)
    ensures trace != [] && trace[|trace| - 1].Receive? ==> Sends(trace[|trace| - 1..]) == []
  {
    if trace != [] {
      var n := |trace| - 1;
      assert trace[n..] == [trace[n]] && trace[n..][..0] == [];
    }
  }

  lemma SwappedNothing(maxBytes: nat)
    ensures Swapped([], maxBytes) == []
  {
  }

  lemma SwappedFurther(before: seq<Message>, rest: seq<Message>, f: Flags, m: Message, maxBytes: nat)
    requires f.tooLarge
    ensures before + Swapped(rest, maxBytes) + Passed(f, maxBytes, m) == before + Swapped(rest + [m], maxBytes)
  {
    hide TooLargeResponse, Swapped;
    var s := Swapped(rest, maxBytes);
    SwappedAppend(rest, m, maxBytes);
    if m.Start? {
      Associative(before, s, TooLargeResponse(maxBytes));
    } else if m.Body? {
      assert before + s + [] == before + s;
    } else {
      Associative(before, s, [m]);
    }
  }

  lemma Associative(a: seq<Message>, b: seq<Message>, c: seq<Message>)
    ensures a + b + c == a + (b + c)
  {
  }

  lemma CutStep(trace: seq<Action>, maxBytes: nat)
    requires Total(trace) > maxBytes
    ensures var n := |trace| - 1;
            && n >= 0
            && (Total(trace[..n]) <= maxBytes ==> Cut(trace, maxBytes) == n && trace[n].Receive?)
            && (Total(trace[..n]) > maxBytes ==> Cut(trace, maxBytes) == Cut(trace[..n], maxBytes))
  {
  }

  lemma RelayedStep(trace: seq<Action>, maxBytes: nat)
    requires trace != []
    ensures var n := |trace| - 1;
            Relayed(trace, maxBytes) ==
            if trace[n].Send? then
              Relayed(trace[..n], maxBytes) + Passed(FlagsAfter(trace[..n], maxBytes), maxBytes, trace[n].message)
            else Relayed(trace[..n], maxBytes)
  {
    hide Passed, FlagsAfter;
  }

  lemma RestSends(trace: seq<Action>, k: nat)
    requires k < |trace|
    ensures var n := |trace| - 1;
            Sends(trace[k..]) ==
            if trace[n].Send? then Sends(trace[..n][k..]) + [trace[n].message] else Sends(trace[..n][k..])
  {
    LastOfRest(trace, k);
  }

  /** When the last action crosses, nothing has been swapped yet. */
  lemma RelayedAtCut(trace: seq<Action>, maxBytes: nat)
    requires trace != [] && Total(trace) > maxBytes && Total(trace[..|trace| - 1]) <= maxBytes
    ensures var n := |trace| - 1;
            Cut(trace, maxBytes) == n
            && Relayed(trace, maxBytes) == Sends(trace[..n]) + Swapped(Sends(trace[n..]), maxBytes)
  {
    CutStep(trace, maxBytes);
    hide FlagsAfter, Starts, Total, Cut, Relayed, Sends, Swapped, Passed, Output;
    RelayedStep(trace, maxBytes);
    NeverCrossed(trace[..|trace| - 1], maxBytes);
    NothingSentLast(trace);
    SwappedNothing(maxBytes);
  }

  /** One more action after the crossing. */
  lemma RelayedAfterCut(trace: seq<Action>, maxBytes: nat, k: nat)
    requires k < |trace| && FlagsAfter(trace[..|trace| - 1], maxBytes).tooLarge
    requires Relayed(trace[..|trace| - 1], maxBytes) ==
             Sends(trace[..k]) + Swapped(Sends(trace[..|trace| - 1][k..]), maxBytes)
    ensures Relayed(trace, maxBytes) == Sends(trace[..k]) + Swapped(Sends(trace[k..]), maxBytes)
  {
    hide FlagsAfter, Relayed, Sends, Swapped, Passed;
    var n := |trace| - 1;
    RelayedStep(trace, maxBytes);
    RestSends(trace, k);
    if trace[n].Send? {
      SwappedFurther(Sends(trace[..k]), Sends(trace[..n][k..]), FlagsAfter(trace[..n], maxBytes), trace[n].message,
                     maxBytes);
    }
  }

  /** Around the crossing: what came before went through, what came after is swapped. */
  lemma {:induction false} RelayedAroundCut(trace: seq<Action>, maxBytes: nat)
    requires Total(trace) > maxBytes
    ensures var k := Cut(trace, maxBytes);
            Relayed(trace, maxBytes) == Sends(trace[..k]) + Swapped(Sends(trace[k..]), maxBytes)
    decreases |trace|
  {
    CutStep(trace, maxBytes);
    hide FlagsAfter, Starts, Total, Cut, Relayed, Sends, Swapped;
    var n, k := |trace| - 1, Cut(trace, maxBytes);
    if Total(trace[..n]) <= maxBytes {
      RelayedAtCut(trace, maxBytes);
    } else {
      FlagsMean(trace[..n], maxBytes);
      RelayedAroundCut(trace[..n], maxBytes);
      assert trace[..n][..k] == trace[..k];
      RelayedAfterCut(trace, maxBytes, k);
    }
  }

  lemma SwappedAppend(ms: seq<Message>, m: Message, maxBytes: nat)
    ensures Swapped(ms + [m], maxBytes) ==
            var before := Swapped(ms, maxBytes);
            if m.Start? then before + TooLargeResponse(maxBytes) else if m.Body? then before else before + [m]
  {
    assert (ms + [m])[..|ms|] == ms;
  }

  /** Crossed once the response has started: what was sent before the crossing gets through, and of the
      rest only messages that are neither starts nor bodies, with no 413 injected, exactly when no
      further start is sent. */
  lemma CrossedAfterStart(trace: seq<Action>, maxBytes: nat)
    requires Total(trace) > maxBytes && Starts(Sends(trace[..Cut(trace, maxBytes)])) >= 1
    ensures var k := Cut(trace, maxBytes);
            Output(trace, maxBytes) == Sends(trace[..k]) + Others(Sends(trace[k..])) <==> Starts(Sends(trace[k..])) == 0
  {
    hide TooLargeResponse, FlagsAfter, Starts, Total, Sends, Relayed, Others, Swapped;
    var k := Cut(trace, maxBytes);
    FlagsMean(trace, maxBytes);
    RelayedAroundCut(trace, maxBytes);
    SwappedMeans(Sends(trace[k..]), maxBytes);
    SendsSplit(trace, k);
    StartsConcat(Sends(trace[..k]), Sends(trace[k..]));
  }

  /** Crossed before any response start: the client gets exactly one complete 413 just when the inner
      application starts at most one response, had sent nothing yet, and sends nothing else but bodies. */
  lemma CrossedBeforeStart(trace: seq<Action>, maxBytes: nat)
    requires Total(trace) > maxBytes && Starts(Sends(trace[..Cut(trace, maxBytes)])) == 0
    ensures var k := Cut(trace, maxBytes);
            Output(trace, maxBytes) == TooLargeResponse(maxBytes) <==>
              Starts(Sends(trace)) <= 1 && Sends(trace[..k]) == [] && Others(Sends(trace[k..])) == []
  {
    hide TooLargeResponse, FlagsAfter, Starts, Total, Sends, Relayed, Others, Swapped;
    var k := Cut(trace, maxBytes);
    FlagsMean(trace, maxBytes);
    TooLargeHasOneStart(maxBytes);
    RelayedAroundCut(trace, maxBytes);
    SwappedMeans(Sends(trace[k..]), maxBytes);
    SendsSplit(trace, k);
    StartsConcat(Sends(trace[..k]), Sends(trace[k..]));
  }

  /** A response of two messages: a start with the content type and the length of the body, as a
      numeral, and that body, a JSON object with this one text. */
  ghost predicate IsComplete(r: seq<Message>, status: int, detail: string) {
    && |r| == 2
    && r[1].Body? && !r[1].more && Decode(r[1].body) == Some("{\"detail\": \"" + detail + "\"}")
    && r[0] == Start(status, [("content-type", "application/json"), ("content-length", Natural(|r[1].body|))])
  }

  /** The 413 is complete, and names the limit. */
  lemma TooLargeIsComplete(maxBytes: nat)
    ensures IsComplete(TooLargeResponse(maxBytes), 413, "request body exceeds " + Natural(maxBytes) + " byte limit")
  {
    var detail := "request body exceeds " + Natural(maxBytes) + " byte limit";
    DecodeInverse(Detail(detail), "{\"detail\": \"" + detail + "\"}");
    hide Encode, Decode, Natural;
  }

  /** So is the 400. */
  lemma BadLengthIsComplete()
    ensures IsComplete(BAD_LENGTH, 400, "invalid content-length header")
  {
    var detail := "invalid content-length header";
    DecodeInverse(Detail(detail), "{\"detail\": \"" + detail + "\"}");
    hide Encode, Decode, Natural;
  }
}
