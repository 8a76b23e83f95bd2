/** The incremental RESP parser (command_parser.cpp): what it reads, and the cursor that reads it. */
module CommandParser {
  import opened KeyValue
  import opened Text
  import Resp

  /** What a client asks for. */
  datatype Request = Get(key: string) | Update(cmd: Command)

  /** The outcome of reading at a position: a value and the position behind it, or one of the two errors. */
  datatype Parsed<+T> =
    | Ok(value: T, next: nat)
    | Syntax
    | Incomplete
  {
    predicate IsFailure() {
      !Ok?
    }

    function PropagateFailure<U>(): Parsed<U>
      requires IsFailure()
    {
      if Syntax? then Parsed<U>.Syntax else Parsed<U>.Incomplete
    }

    function Extract(): (T, nat)
      requires Ok?
    {
      (value, next)
    }
  }

  /** LONG_MAX: std::stol refuses anything larger. */
  const LONG_MAX := 0x7FFF_FFFF_FFFF_FFFF

  // ----- what is read at a position

  function ReadExact(d: string, i: nat, c: char): (r: Parsed<()>)
    requires i <= |d|
    ensures r.Ok? ==> i < r.next <= |d|
  {
    if i == |d| then Incomplete else if d[i] != c then Syntax else Ok((), i + 1)
  }

  function ReadSeparator(d: string, i: nat): (r: Parsed<()>)
    requires i <= |d|
    ensures r.Ok? ==> i < r.next <= |d|
  {
    var (_, j) :- ReadExact(d, i, '\r');
    ReadExact(d, j, '\n')
  }

  /** The first position from i on that holds no digit. */
  function DigitsEnd(d: string, i: nat): (e: nat)
    requires i <= |d|
    ensures i <= e <= |d|
    ensures AllDigits(d[i..e]) && (e < |d| ==> !IsDigit(d[e]))
    decreases |d| - i
  {
    if i < |d| && IsDigit(d[i]) then
      var e := DigitsEnd(d, i + 1);
      assert d[i..e] == [d[i]] + d[i + 1..e];
      e
    else i
  }

  /** A number is known only once a character behind it has arrived. */
  function ReadNumber(d: string, i: nat): (r: Parsed<nat>)
    requires i <= |d|
    ensures r.Ok? ==> i < r.next <= |d| && r.value <= LONG_MAX
  {
    var e := DigitsEnd(d, i);
    if e == |d| then Incomplete
    else if e == i || Value(d[i..e]) > LONG_MAX then Syntax
    else Ok(Value(d[i..e]), e)
  }

  function ReadBytes(d: string, i: nat, n: nat): (r: Parsed<string>)
    requires i <= |d|
    ensures r.Ok? ==> i <= r.next <= |d|
  {
    if i + n > |d| then Incomplete else Ok(d[i..i + n], i + n)
  }

  function ReadBulk(d: string, i: nat): (r: Parsed<string>)
    requires i <= |d|
    ensures r.Ok? ==> i < r.next <= |d|
  {
    var (_, a) :- ReadExact(d, i, '$');
    var (n, b) :- ReadNumber(d, a);
    var (_, c) :- ReadSeparator(d, b);
    ReadBytes(d, c, n)
  }

  /** A bulk string and the separator behind it. */
  function ReadToken(d: string, i: nat): (r: Parsed<string>)
    requires i <= |d|
    ensures r.Ok? ==> i < r.next <= |d|
  {
    var (s, a) :- ReadBulk(d, i);
    var (_, b) :- ReadSeparator(d, a);
    Ok(s, b)
  }

  function ReadTokens(d: string, i: nat, k: nat): (r: Parsed<seq<string>>)
    requires i <= |d|
    ensures r.Ok? ==> i <= r.next <= |d| && |r.value| == k
    decreases k
  {
    if k == 0 then Ok([], i)
    else
      var (t, a) :- ReadToken(d, i);
      var (ts, b) :- ReadTokens(d, a, k - 1);
      Ok([t] + ts, b)
  }

  /** Tokens as one text, joined by spaces. */
  function JoinAll(r: Parsed<seq<string>>): Parsed<string>
    requires r.Ok? ==> r.value != []
  {
    var (ts, n) :- r;
    Ok(Resp.Join(ts), n)
  }

  /** How many arguments are read: the declared count, but never fewer than one. */
  function AtLeastOne(n: int): nat {
    if n < 1 then 1 else n
  }

  /** The arguments behind the verb, for a declared element count. */
  function ReadArguments(verb: string, count: nat, d: string, i: nat): (r: Parsed<Request>)
    requires i <= |d|
    ensures r.Ok? ==> i <= r.next <= |d|
  {
    if verb == "GET" then
      if count == 0 then Syntax else
        var (key, a) :- JoinAll(ReadTokens(d, i, AtLeastOne(count - 1)));
        Ok(Get(key), a)
    else if verb == "SET" then
      if count < 2 then Syntax else
        var (key, a) :- ReadToken(d, i);
        var (value, b) :- JoinAll(ReadTokens(d, a, AtLeastOne(count - 2)));
        Ok(Update(Set(key, value)), b)
    else if verb == "DEL" then
      if count == 0 then Syntax else
        var (ts, a) :- ReadTokens(d, i, AtLeastOne(count - 1));
        Ok(Update(Del(ts)), a)
    else Syntax
  }

  /** The array head: its element count. */
  function ReadHead(d: string, i: nat): (r: Parsed<nat>)
    requires i <= |d|
    ensures r.Ok? ==> i < r.next <= |d|
  {
    var (_, a) :- ReadExact(d, i, '*');
    var (count, b) :- ReadNumber(d, a);
    var (_, c) :- ReadSeparator(d, b);
    Ok(count, c)
  }

  /** The first bulk string must name a known command; only then is its separator looked at. */
  function ReadVerb(d: string, i: nat): (r: Parsed<string>)
    requires i <= |d|
    ensures r.Ok? ==> i < r.next <= |d|
  {
    var (s, a) :- ReadBulk(d, i);
    if s == "GET" || s == "SET" || s == "DEL" then
      var (_, b) :- ReadSeparator(d, a);
      Ok(s, b)
    else Syntax
  }

  function ReadCommand(d: string, i: nat): (r: Parsed<Request>)
    requires i <= |d|
    ensures r.Ok? ==> i < r.next <= |d|
  {
    var (count, a) :- ReadHead(d, i);
    var (verb, b) :- ReadVerb(d, a);
    ReadArguments(verb, count, d, b)
  }

  /** Tokens already read in front of the outcome for the others. */
  function Prepend(done: seq<string>, r: Parsed<seq<string>>): Parsed<seq<string>> {
    match r
    case Ok(ts, n) => Ok(done + ts, n)
    case Syntax => Syntax
    case Incomplete => Incomplete
  }

  lemma PrependNothing(r: Parsed<seq<string>>)
    ensures Prepend([], r) == r
  {
    if r.Ok? {
      assert [] + r.value == r.value;
    }
  }

  lemma {:induction false} PrependStep(done: seq<string>, d: string, i: nat, k: nat)
    requires i <= |d| && k > 0
    ensures var t := ReadToken(d, i);
      Prepend(done, ReadTokens(d, i, k)) ==
      match t
      case Ok(s, a) => Prepend(done + [s], ReadTokens(d, a, k - 1))
      case Syntax => Syntax
      case Incomplete => Incomplete
  {
    var t := ReadToken(d, i);
    if t.Ok? {
      var r := ReadTokens(d, t.next, k - 1);
      if r.Ok? {
        assert done + ([t.value] + r.value) == done + [t.value] + r.value;
      }
    }
  }

  lemma PrependEnd(done: seq<string>, d: string, i: nat)
    requires i <= |d|
    ensures Prepend(done, ReadTokens(d, i, 0)) == Ok(done, i)
  {
    assert done + [] == done;
  }

  /** command_parser: a buffer and a cursor. A method that fails leaves the cursor where it failed. */
  class Parser {
    const data: string
    var idx: nat

    ghost predicate Valid()
      reads this
    {
      idx <= |data|
    }

    constructor (data: string)
      ensures Valid() && this.data == data && idx == 0
    {
      this.data := data;
      idx := 0;
    }

    method PeekChar() returns (r: Parsed<char>)
      requires Valid()
      ensures r == if idx == |data| then Incomplete else Ok(data[idx], idx)
    {
      if data == "" {
        return Incomplete;
      } else if idx == |data| {
        return Incomplete;
      }
      return Ok(data[idx], idx);
    }

    method ReadChar() returns (r: Parsed<char>)
      requires Valid()
      modifies this
      ensures Valid()
      ensures r == if old(idx) == |data| then Incomplete else Ok(data[old(idx)], old(idx) + 1)
      ensures r.Ok? ==> idx == r.next
    {
      var p := PeekChar();
      if p.IsFailure() {
        return p;
      }
      idx := idx + 1;
      return Ok(p.value, idx);
    }

    method ExpectChar(c: char) returns (r: Parsed<()>)
      requires Valid()
      modifies this
      ensures Valid() && r == ReadExact(data, old(idx), c)
      ensures r.Ok? ==> idx == r.next
    {
      var p := ReadChar();
      if p.IsFailure() {
        return p.PropagateFailure<()>();
      }
      if p.value != c {
        return Syntax;
      }
      return Ok((), idx);
    }

    method ExpectSeparator() returns (r: Parsed<()>)
      requires Valid()
      modifies this
      ensures Valid() && r == ReadSeparator(data, old(idx))
      ensures r.Ok? ==> idx == r.next
    {
      r := ExpectChar('\r');
      if r.Ok? {
        r := ExpectChar('\n');
      }
    }

    /** Collects digits until another character shows up, then converts them. */
    method ReadNumElem() returns (r: Parsed<nat>)
      requires Valid()
      modifies this
      ensures Valid() && r == ReadNumber(data, old(idx))
      ensures r.Ok? ==> idx == r.next
    {
      var num := "";
      ghost var start := idx;
      var ch := PeekChar();
      if ch.IsFailure() {
        return Incomplete;
      }
      while IsDigit(ch.value)
        invariant start <= idx < |data| && ch == Ok(data[idx], idx)
        invariant num == data[start..idx]
        invariant DigitsEnd(data, idx) == DigitsEnd(data, start)
        decreases |data| - idx
      {
        var c := ReadChar();
        num := num + [ch.value];
        ch := PeekChar();
        if ch.IsFailure() {
          return Incomplete;
        }
      }
      if num == "" {
        return Syntax;
      }
      assert AllDigits(num);
      var n := Value(num);
      if n > LONG_MAX {
        return Syntax;
      }
      return Ok(n, idx);
    }

    method ReadBulkString() returns (r: Parsed<string>)
      requires Valid()
      modifies this
      ensures Valid() && r == ReadBulk(data, old(idx))
      ensures r.Ok? ==> idx == r.next
    {
      var a := ExpectChar('$');
      if a.IsFailure() {
        return a.PropagateFailure<string>();
      }
      var n := ReadNumElem();
      if n.IsFailure() {
        return n.PropagateFailure<string>();
      }
      var b := ExpectSeparator();
      if b.IsFailure() {
        return b.PropagateFailure<string>();
      }
      var text := "";
      ghost var start := idx;
      var i := 0;
      while i < n.value
        invariant 0 <= i <= n.value && idx == start + i <= |data|
        invariant text == data[start..idx]
      {
        var c := ReadChar();
        if c.IsFailure() {
          return Incomplete;
        }
        text := text + [c.value];
        i := i + 1;
      }
      return Ok(text, idx);
    }

    method ReadTokenHere() returns (r: Parsed<string>)
      requires Valid()
      modifies this
      ensures Valid() && r == ReadToken(data, old(idx))
      ensures r.Ok? ==> idx == r.next
    {
      var s := ReadBulkString();
      if s.IsFailure() {
        return s;
      }
      var b := ExpectSeparator();
      if b.IsFailure() {
        return b.PropagateFailure<string>();
      }
      return Ok(s.value, idx);
    }

    /** Appends the strings of the indices from `from` up to the count, each behind a space. */
    method ReadJoinedRest(text: string, from: nat, count: nat, ghost done: seq<string>) returns (r: Parsed<string>)
      requires Valid() && done != [] && text == Resp.Join(done)
      modifies this
      ensures Valid()
      ensures r == JoinAll(Prepend(done, ReadTokens(data, old(idx), if from < count then count - from else 0)))
      ensures r.Ok? ==> idx == r.next
    {
      ghost var all := Prepend(done, ReadTokens(data, idx, if from < count then count - from else 0));
      var text := text;
      ghost var done := done;
      var i := from;
      while i < count
        invariant from <= i && (i <= count || i == from) && Valid() && done != []
        invariant Prepend(done, ReadTokens(data, idx, if i < count then count - i else 0)) == all
        invariant text == Resp.Join(done)
        decreases count - i
      {
        PrependStep(done, data, idx, count - i);
        var next := ReadTokenHere();
        if next.IsFailure() {
          return next;
        }
        text := text + " " + next.value;
        assert (done + [next.value])[..|done|] == done;
        done := done + [next.value];
        i := i + 1;
      }
      assert done + [] == done;
      return Ok(text, idx);
    }

    /** GET and SET: a first string, then the others joined by spaces while the index is below the count. */
    method ReadJoined(from: nat, count: nat) returns (r: Parsed<string>)
      requires Valid()
      modifies this
      ensures Valid()
      ensures r == JoinAll(ReadTokens(data, old(idx), AtLeastOne(count - from + 1)))
      ensures r.Ok? ==> idx == r.next
    {
      hide ReadToken, ReadTokens;
      PrependNothing(ReadTokens(data, idx, AtLeastOne(count - from + 1)));
      PrependStep([], data, idx, AtLeastOne(count - from + 1));
      var first := ReadTokenHere();
      if first.IsFailure() {
        return first;
      }
      assert [] + [first.value] == [first.value];
      r := ReadJoinedRest(first.value, from, count, [first.value]);
    }

    method ReadKeys(count: nat) returns (r: Parsed<seq<string>>)
      requires Valid()
      modifies this
      ensures Valid() && r == ReadTokens(data, old(idx), AtLeastOne(count - 1))
      ensures r.Ok? ==> idx == r.next
    {
      hide ReadToken, ReadTokens, Prepend;
      ghost var all := ReadTokens(data, idx, AtLeastOne(count - 1));
      PrependNothing(all);
      PrependStep([], data, idx, AtLeastOne(count - 1));
      var first := ReadTokenHere();
      if first.IsFailure() {
        return first.PropagateFailure<seq<string>>();
      }
      var keys := [first.value];
      assert [] + [first.value] == keys;
      var i := 2;
      while i < count
        invariant 2 <= i && (i <= count || i == 2) && Valid()
        invariant Prepend(keys, ReadTokens(data, idx, if i < count then count - i else 0)) == all
        decreases count - i
      {
        PrependStep(keys, data, idx, count - i);
        var next := ReadTokenHere();
        if next.IsFailure() {
          return next.PropagateFailure<seq<string>>();
        }
        keys := keys + [next.value];
        i := i + 1;
      }
      PrependEnd(keys, data, idx);
      return Ok(keys, idx);
    }

    method ReadCommandHere() returns (r: Parsed<Request>)
      requires Valid()
      modifies this
      ensures Valid() && r == ReadCommand(data, old(idx))
      ensures r.Ok? ==> idx == r.next
    {
      var a := ExpectChar('*');
      if a.IsFailure() {
        return a.PropagateFailure<Request>();
      }
      var count := ReadNumElem();
      if count.IsFailure() {
        return count.PropagateFailure<Request>();
      }
      a := ExpectSeparator();
      if a.IsFailure() {
        return a.PropagateFailure<Request>();
      }
      var verb := ReadBulkString();
      if verb.IsFailure() {
        return verb.PropagateFailure<Request>();
      }
      if verb.value != "GET" && verb.value != "SET" && verb.value != "DEL" {
        return Syntax;
      }
      a := ExpectSeparator();
      if a.IsFailure() {
        return a.PropagateFailure<Request>();
      }
      r := ReadArgumentsHere(verb.value, count.value);
    }

    method ReadArgumentsHere(verb: string, count: nat) returns (r: Parsed<Request>)
      requires Valid()
      requires verb == "GET" || verb == "SET" || verb == "DEL"
      modifies this
      ensures Valid() && r == ReadArguments(verb, count, data, old(idx))
      ensures r.Ok? ==> idx == r.next
    {
      if verb == "GET" {
        if count == 0 {
          return Syntax;
        }
        var key := ReadJoined(2, count);
        if key.IsFailure() {
          return key.PropagateFailure<Request>();
        }
        return Ok(Get(key.value), idx);
      } else if verb == "SET" {
        if count < 2 {
          return Syntax;
        }
        var key := ReadTokenHere();
        if key.IsFailure() {
          return key.PropagateFailure<Request>();
        }
        var value := ReadJoined(3, count);
        if value.IsFailure() {
          return value.PropagateFailure<Request>();
        }
        return Ok(Update(Set(key.value, value.value)), idx);
      } else {
        if count == 0 {
          return Syntax;
        }
        var keys := ReadKeys(count);
        if keys.IsFailure() {
          return keys.PropagateFailure<Request>();
        }
        return Ok(Update(Del(keys.value)), idx);
      }
    }
  }
}
