/**
 * One client connection of the coordinator: bytes arrive in chunks, as TCP delivers them, and are
 * parsed and dispatched by handle_db_requests, which carries an incomplete tail over to the next
 * chunk.
 */
module Connection {
  import opened CommandParser
  import opened ParserFacts
  import KeyValue
  import Resp

  // ----- parsing a whole buffer

  /** Why parse_db_requests stopped. */
  datatype Stop = Finished | SyntaxError | Partial

  /** The commands parsed, the position behind the last of them, and the reason for stopping there. */
  datatype Batch = Batch(cmds: seq<Request>, parsed: nat, stop: Stop)

  function ParseAll(d: string, i: nat): (b: Batch)
    requires i <= |d|
    ensures i <= b.parsed <= |d|
    ensures b.stop.Finished? <==> b.parsed == |d|
    decreases |d| - i
  {
    if i == |d| then Batch([], i, Finished)
    else
      match ReadCommand(d, i)
      case Ok(c, j) => var b := ParseAll(d, j); b.(cmds := [c] + b.cmds)
      case Syntax => Batch([], i, SyntaxError)
      case Incomplete => Batch([], i, Partial)
  }

  // ----- what a whole buffer holds

  /** The commands stand one behind the other, from i to e. */
  ghost predicate Chain(d: string, i: nat, cmds: seq<Request>, e: nat)
    decreases |cmds|
  {
    && i <= |d|
    && if cmds == [] then e == i
       else exists j: nat :: ReadCommand(d, i) == Ok(cmds[0], j) && Chain(d, j, cmds[1..], e)
  }

  /** No command stands at e, for the given reason. */
  ghost predicate EndsThere(d: string, e: nat, stop: Stop) {
    && e <= |d|
    && match stop
       case Finished => e == |d|
       case SyntaxError => e < |d| && ReadCommand(d, e).Syntax?
       case Partial => e < |d| && ReadCommand(d, e).Incomplete?
  }

  lemma {:induction false} ParseAllChains(d: string, i: nat)
    requires i <= |d|
    ensures var b := ParseAll(d, i); Chain(d, i, b.cmds, b.parsed) && EndsThere(d, b.parsed, b.stop)
    decreases |d| - i
  {
    hide ReadCommand;
    if i == |d| {
    } else {
      var c := ReadCommand(d, i);
      if c.Ok? {
        ParseAllChains(d, c.next);
        var b := ParseAll(d, c.next);
        assert ([c.value] + b.cmds)[1..] == b.cmds;
      }
    }
  }

  lemma {:induction false} ChainIsParseAll(d: string, i: nat, cmds: seq<Request>, e: nat, stop: Stop)
    requires Chain(d, i, cmds, e) && EndsThere(d, e, stop)
    ensures ParseAll(d, i) == Batch(cmds, e, stop)
    decreases |cmds|
  {
    hide ReadCommand;
    if cmds == [] {
    } else {
      var j: nat :| ReadCommand(d, i) == Ok(cmds[0], j) && Chain(d, j, cmds[1..], e);
      ChainIsParseAll(d, j, cmds[1..], e, stop);
      assert cmds == [cmds[0]] + cmds[1..];
    }
  }

  /** A buffer is read as the one chain of commands behind which none stands. */
  lemma {:induction false} ParsedExactly(d: string, i: nat, cmds: seq<Request>, e: nat, stop: Stop)
    requires i <= |d|
    ensures ParseAll(d, i) == Batch(cmds, e, stop) <==> Chain(d, i, cmds, e) && EndsThere(d, e, stop)
  {
    ParseAllChains(d, i);
    if Chain(d, i, cmds, e) && EndsThere(d, e, stop) {
      ChainIsParseAll(d, i, cmds, e, stop);
    }
  }

  // ----- a connection

  /** Waiting for more bytes, with the bytes left over; or read no more. */
  datatype State = Open(left: string) | Closed

  function AfterBatch(d: string, b: Batch): State
    requires b.parsed <= |d|
  {
    match b.stop
    case Finished => Open("")
    case Partial => Open(d[b.parsed..])
    case SyntaxError => Closed
  }

  /**
   * One call of handle_db_requests: with the bytes of a chunk, or for a read that failed. A client can
   * be disconnected at any time, by itself or behind an ERROR reply to one of its commands; `stays` says
   * whether it is still connected when the call asks for more bytes.
   */
  datatype Arrival = Chunk(bytes: string, stays: bool) | Failed

  /** The new state and the commands dispatched. */
  function Feed(st: State, arrival: Arrival): (State, seq<Request>) {
    if st.Closed? then (st, [])
    else if arrival.Failed? then (Closed, [])
    else
      var d := st.left + arrival.bytes;
      var b := ParseAll(d, 0);
      (if arrival.stays then AfterBatch(d, b) else Closed, b.cmds)
  }

  /** All the calls for one connection. */
  function FeedAll(st: State, arrivals: seq<Arrival>): (State, seq<Request>) {
    if arrivals == [] then (st, [])
    else
      var (st', cmds) := FeedAll(st, arrivals[..|arrivals| - 1]);
      var (st'', more) := Feed(st', arrivals[|arrivals| - 1]);
      (st'', cmds + more)
  }

  /** The client has been disconnected, or a read has failed. */
  predicate Lost(arrivals: seq<Arrival>) {
    arrivals != [] &&
    (Lost(arrivals[..|arrivals| - 1]) || arrivals[|arrivals| - 1].Failed? || !arrivals[|arrivals| - 1].stays)
  }

  /** The bytes read until then. */
  function Received(arrivals: seq<Arrival>): string {
    if arrivals == [] then ""
    else
      var before := Received(arrivals[..|arrivals| - 1]);
      if Lost(arrivals[..|arrivals| - 1]) || arrivals[|arrivals| - 1].Failed? then before
      else before + arrivals[|arrivals| - 1].bytes
  }

  // ----- chunk invariance

  /** Parsing from a position of a buffer is parsing the rest of it. */
  lemma {:induction false} ParseShift(d: string, k: nat, i: nat)
    requires k + i <= |d|
    ensures ParseAll(d, k + i) ==
            var b := ParseAll(d[k..], i); Batch(b.cmds, k + b.parsed, b.stop)
    decreases |d| - i
  {
    hide ReadCommand;
    var s := d[k..];
    if i == |s| {
    } else {
      CommandCarries(d, k, s, true, i);
      var c := ReadCommand(s, i);
      if c.Ok? {
        ParseShift(d, k, c.next);
      }
    }
  }

  /** More bytes: the commands parsed so far stay, and parsing goes on where it stopped. */
  lemma {:induction false} ParseExtension(d: string, e: string, i: nat)
    requires i <= |d|
    ensures var b := ParseAll(d, i);
      ParseAll(d + e, i) ==
        if b.stop.SyntaxError? then b
        else var c := ParseAll(d + e, b.parsed); Batch(b.cmds + c.cmds, c.parsed, c.stop)
    decreases |d| - i
  {
    hide ReadCommand;
    var w := d + e;
    if i == |d| {
    } else {
      CommandCarries(w, 0, d, false, i);
      var c := ReadCommand(d, i);
      if c.Ok? {
        ParseExtension(d, e, c.next);
        var b := ParseAll(d, c.next);
        assert forall rest: seq<Request> :: [c.value] + (b.cmds + rest) == ([c.value] + b.cmds) + rest;
      }
    }
  }

  /** One more chunk keeps the dispatched commands and the leftover those of the whole stream. */
  lemma {:induction false} FeedStep(stream: string, chunk: string)
    ensures var b := ParseAll(stream, 0);
            var b' := ParseAll(stream + chunk, 0);
            var (st, more) := Feed(AfterBatch(stream, b), Chunk(chunk, true));
            st == AfterBatch(stream + chunk, b') && b.cmds + more == b'.cmds
  {
    hide ParseAll;
    var b := ParseAll(stream, 0);
    var w := stream + chunk;
    ParseExtension(stream, chunk, 0);
    if b.stop.SyntaxError? {
      assert b.cmds + [] == b.cmds;
    } else {
      var left := if b.stop.Partial? then stream[b.parsed..] else "";
      assert left == stream[b.parsed..];
      assert w[b.parsed..] == left + chunk;
      ParseShift(w, b.parsed, 0);
      var c := ParseAll(left + chunk, 0);
      assert w[b.parsed + c.parsed..] == (left + chunk)[c.parsed..];
    }
  }

  lemma FeedLast(stream: string, chunk: string)
    ensures var b := ParseAll(stream, 0);
            var b' := ParseAll(stream + chunk, 0);
            var (st, more) := Feed(AfterBatch(stream, b), Chunk(chunk, false));
            st == Closed && b.cmds + more == b'.cmds
  {
    FeedStep(stream, chunk);
    hide ParseAll;
  }

  /**
   * However a byte stream is cut into chunks, and whenever the client is disconnected: exactly the
   * commands of all the bytes received, up to their first syntax error or incomplete tail, are
   * dispatched, and the tail is what is carried over. Reading is over iff there is a syntax error or the
   * client is lost.
   */
  lemma {:induction false} ChunkInvariance(arrivals: seq<Arrival>)
    ensures var stream := Received(arrivals);
            var whole := ParseAll(stream, 0);
            FeedAll(Open(""), arrivals) == (if Lost(arrivals) then Closed else AfterBatch(stream, whole), whole.cmds)
    ensures var stream := Received(arrivals);
            var (st, cmds) := FeedAll(Open(""), arrivals);
            exists e: nat, stop :: Chain(stream, 0, cmds, e) && EndsThere(stream, e, stop) &&
                                   st == if Lost(arrivals) || stop.SyntaxError? then Closed else Open(stream[e..])
    decreases |arrivals|
  {
    hide ParseAll, Feed, Chain, EndsThere;
    ParseAllChains(Received(arrivals), 0);
    Leftover(Received(arrivals));
    if arrivals == [] {
      ParseNothing();
    } else {
      var front, last := arrivals[..|arrivals| - 1], arrivals[|arrivals| - 1];
      ChunkInvariance(front);
      var stream := Received(front);
      if Lost(front) || last.Failed? {
        FeedNothing(if Lost(front) then Closed else AfterBatch(stream, ParseAll(stream, 0)), last);
        assert ParseAll(stream, 0).cmds + [] == ParseAll(stream, 0).cmds;
      } else if last.stays {
        FeedStep(stream, last.bytes);
      } else {
        FeedLast(stream, last.bytes);
      }
    }
  }

  lemma Leftover(stream: string)
    ensures var b := ParseAll(stream, 0);
            AfterBatch(stream, b) == if b.stop.SyntaxError? then Closed else Open(stream[b.parsed..])
  {
    hide ParseAll;
  }

  /** What has been dispatched of a stream, and what is left of it. */
  lemma {:induction false} Stands(stream: string)
    ensures var b := ParseAll(stream, 0);
            Chain(stream, 0, b.cmds, b.parsed) && EndsThere(stream, b.parsed, b.stop) && b.parsed <= |stream|
            && AfterBatch(stream, b) == if b.stop.SyntaxError? then Closed else Open(stream[b.parsed..])
  {
    hide ParseAll, Chain, EndsThere;
    ParseAllChains(stream, 0);
    Leftover(stream);
  }

  lemma FeedNothing(st: State, arrival: Arrival)
    requires st.Closed? || arrival.Failed?
    ensures Feed(st, arrival) == (Closed, [])
  {
  }

  lemma ParseNothing()
    ensures ParseAll("", 0) == Batch([], 0, Finished)
  {
  }

  /** Two ways of cutting the same bytes dispatch the same commands, and leave the same state unless one client is lost. */
  lemma SameStreamSameCommands(a: seq<Arrival>, b: seq<Arrival>)
    requires Received(a) == Received(b)
    ensures FeedAll(Open(""), a).1 == FeedAll(Open(""), b).1
    ensures Lost(a) == Lost(b) ==> FeedAll(Open(""), a).0 == FeedAll(Open(""), b).0
  {
    ChunkInvariance(a);
    ChunkInvariance(b);
  }

  // ----- pipelining

  /** A request as a client prints it. */
  datatype Line =
    | GetLine(keys: seq<string>)
    | SetLine(key: string, tokens: seq<string>)
    | DelLine(keys: seq<string>)

  ghost predicate Sendable(l: Line) {
    match l
    case GetLine(keys) => keys != [] && Printable(keys)
    case SetLine(key, tokens) => tokens != [] && Printable([key] + tokens)
    case DelLine(keys) => keys != [] && Printable(keys)
  }

  function Printed(l: Line): string {
    match l
    case GetLine(keys) => Resp.EncodeArray(["GET"] + keys)
    case SetLine(key, tokens) => Resp.EncodeArray(["SET"] + ([key] + tokens))
    case DelLine(keys) => Resp.EncodeArray(["DEL"] + keys)
  }

  function Meant(l: Line): Request
    requires Sendable(l)
  {
    match l
    case GetLine(keys) => Get(Resp.Join(keys))
    case SetLine(key, tokens) => Update(KeyValue.Set(key, Resp.Join(tokens)))
    case DelLine(keys) => Update(KeyValue.Del(keys))
  }

  function PrintedAll(ls: seq<Line>): string {
    if ls == [] then "" else Printed(ls[0]) + PrintedAll(ls[1..])
  }

  function MeantAll(ls: seq<Line>): (rs: seq<Request>)
    requires forall i :: 0 <= i < |ls| ==> Sendable(ls[i])
    ensures |rs| == |ls| && forall i :: 0 <= i < |ls| ==> rs[i] == Meant(ls[i])
  {
    if ls == [] then [] else [Meant(ls[0])] + MeantAll(ls[1..])
  }

  lemma LineRoundTrip(l: Line, rest: string)
    requires Sendable(l)
    ensures ReadCommand(Printed(l) + rest, 0) == Ok(Meant(l), |Printed(l)|)
  {
    match l
    case GetLine(keys) => GetRoundTrip(keys, rest);
    case SetLine(key, tokens) => SetRoundTrip(key, tokens, rest);
    case DelLine(keys) => DelRoundTrip(keys, rest);
  }

  /** Printed requests sent in one go are read as all of them, in order, whatever follows them. */
  lemma {:induction false} PipelineRoundTrip(ls: seq<Line>, rest: string)
    requires forall i :: 0 <= i < |ls| ==> Sendable(ls[i])
    ensures var c := ParseAll(rest, 0);
            ParseAll(PrintedAll(ls) + rest, 0) == Batch(MeantAll(ls) + c.cmds, |PrintedAll(ls)| + c.parsed, c.stop)
    decreases |ls|
  {
    hide ReadCommand, Printed, Meant, Sendable;
    if ls == [] {
      assert PrintedAll(ls) + rest == rest;
      assert MeantAll(ls) + ParseAll(rest, 0).cmds == ParseAll(rest, 0).cmds;
    } else {
      var head, tail := Printed(ls[0]), PrintedAll(ls[1..]);
      var d := head + (tail + rest);
      LineRoundTrip(ls[0], tail + rest);
      PipelineRoundTrip(ls[1..], rest);
      ParseShift(d, |head|, 0);
      assert d[|head|..] == tail + rest;
      assert PrintedAll(ls) + rest == d;
      var c := ParseAll(rest, 0);
      assert [Meant(ls[0])] + (MeantAll(ls[1..]) + c.cmds) == MeantAll(ls) + c.cmds;
      NonEmptyLine(ls[0], tail + rest);
    }
  }

  lemma NonEmptyLine(l: Line, rest: string)
    requires Sendable(l)
    ensures |Printed(l)| > 0
  {
    LineRoundTrip(l, rest);
    hide Printed, Meant, Sendable;
  }

  /** A client that sends printed requests, cut into any chunks, has exactly those dispatched, in order. */
  lemma {:induction false} PipelineIsDispatched(ls: seq<Line>, arrivals: seq<Arrival>)
    requires forall i :: 0 <= i < |ls| ==> Sendable(ls[i])
    requires Received(arrivals) == PrintedAll(ls)
    ensures FeedAll(Open(""), arrivals) == (if Lost(arrivals) then Closed else Open(""), MeantAll(ls))
  {
    ChunkInvariance(arrivals);
    PipelineRoundTrip(ls, "");
    ParseNothing();
    assert PrintedAll(ls) + "" == PrintedAll(ls) && MeantAll(ls) + [] == MeantAll(ls);
  }

  // ----- the methods

  /** parse_db_requests: reads commands until the end of the buffer or the first error. */
  method ParseDbRequests(data: string) returns (cmds: seq<Request>, bytesParsed: nat, stop: Stop)
    ensures Batch(cmds, bytesParsed, stop) == ParseAll(data, 0)
    ensures Chain(data, 0, cmds, bytesParsed) && EndsThere(data, bytesParsed, stop)
  {
    ParseAllChains(data, 0);
    hide ReadCommand;
    var parser := new Parser(data);
    cmds, bytesParsed := [], 0;
    ghost var all := ParseAll(data, 0);
    assert [] + all.cmds == all.cmds;
    while parser.idx != |parser.data|
      invariant parser.Valid() && fresh(parser) && parser.data == data && bytesParsed == parser.idx
      invariant var b := ParseAll(data, parser.idx); all == Batch(cmds + b.cmds, b.parsed, b.stop)
      decreases |data| - parser.idx
    {
      var cmd := parser.ReadCommandHere();
      if cmd.Syntax? {
        assert cmds + [] == cmds;
        return cmds, bytesParsed, SyntaxError;
      }
      if cmd.Incomplete? {
        assert cmds + [] == cmds;
        return cmds, bytesParsed, Partial;
      }
      ghost var rest := ParseAll(data, cmd.next).cmds;
      assert cmds + ([cmd.value] + rest) == (cmds + [cmd.value]) + rest;
      bytesParsed := parser.idx;
      cmds := cmds + [cmd.value];
    }
    assert cmds + [] == cmds;
    stop := Finished;
  }

  /** The coordinator's side of a client connection. `received`, `dispatched` and `lost` are history. */
  class ClientConnection {
    var state: State
    ghost var received: string
    ghost var dispatched: seq<Request>
    ghost var lost: bool

    /** The dispatched commands are those of all the bytes received. */
    ghost predicate Valid()
      reads this
    {
      var whole := ParseAll(received, 0);
      dispatched == whole.cmds && state == if lost then Closed else AfterBatch(received, whole)
    }

    constructor ()
      ensures Valid() && received == "" && dispatched == [] && !lost
    {
      state, received, dispatched, lost := Open(""), "", [], false;
      new;
      ParseNothing();
    }

    /** handle_db_requests: called for each read while the connection is open. */
    method HandleDbRequests(arrival: Arrival) returns (cmds: seq<Request>)
      requires Valid() && state.Open?
      modifies this
      ensures Valid()
      ensures received == old(received) + (if arrival.Failed? then "" else arrival.bytes)
      ensures dispatched == old(dispatched) + cmds
      ensures lost <==> arrival.Failed? || !arrival.stays
      ensures (state, cmds) == Feed(old(state), arrival)
      ensures exists e: nat, stop :: Chain(received, 0, dispatched, e) && EndsThere(received, e, stop) &&
                                     state == if lost || stop.SyntaxError? then Closed else Open(received[e..])
    {
      hide Chain, EndsThere, ParseAll;
      Stands(received + (if arrival.Failed? then "" else arrival.bytes));
      if arrival.Failed? {
        state, lost, cmds := Closed, true, [];
        return;
      }
      FeedStep(received, arrival.bytes);
      var data := state.left + arrival.bytes;
      var parsed, stop;
      cmds, parsed, stop := ParseDbRequests(data);
      dispatched := dispatched + cmds;
      received := received + arrival.bytes;
      match stop {
        case Finished => state := Open("");
        case Partial => state := Open(data[parsed..]);
        case SyntaxError => state := Closed;
      }
      if !arrival.stays {
        state, lost := Closed, true;
      }
    }
  }
}
