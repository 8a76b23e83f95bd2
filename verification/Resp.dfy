/** RESP arrays of bulk strings, and the reply that GET builds from a stored value. */
module Resp {
  import opened Sequences
  import opened Text

  function EncodeBulk(s: string): string {
    "$" + Decimal(|s|) + SEPARATOR + s + SEPARATOR
  }

  function EncodeBulks(ts: seq<string>): string {
    if ts == [] then "" else EncodeBulks(ts[..|ts| - 1]) + EncodeBulk(ts[|ts| - 1])
  }

  function EncodeArray(ts: seq<string>): string {
    "*" + Decimal(|ts|) + SEPARATOR + EncodeBulks(ts)
  }

  /** Where the first space is; the length if there is none. */
  function FirstSpace(v: string): (i: nat)
    ensures i <= |v| && (forall j :: 0 <= j < i ==> v[j] != ' ')
    ensures i < |v| ==> v[i] == ' '
  {
    if v == "" || v[0] == ' ' then 0 else 1 + FirstSpace(v[1..])
  }

  /** Reading lines delimited by spaces until the end: a trailing delimiter opens no further line. */
  function Split(v: string): seq<string> {
    if v == "" then [] else
      var i := FirstSpace(v);
      if i == |v| then [v] else [v[..i]] + Split(v[i + 1..])
  }

  /** Tokens joined by one space, as the parser stores GET keys and SET values. */
  function Join(ts: seq<string>): string
    requires ts != []
  {
    if |ts| == 1 then ts[0] else Join(ts[..|ts| - 1]) + " " + ts[|ts| - 1]
  }

  function EncodeResult(value: string): string {
    EncodeArray(Split(value))
  }

  lemma EncodeOne(t: string)
    ensures EncodeArray([t]) == ("*" + Decimal(1) + "\r\n") + ("$" + Decimal(|t|) + "\r\n" + t + "\r\n")
  {
    assert [t][..0] == [];
    hide Decimal;
    assert EncodeBulks([t]) == EncodeBulks([t][..0]) + EncodeBulk(t);
    assert EncodeBulks([]) == "";
    assert "" + EncodeBulk(t) == EncodeBulk(t);
  }

  predicate NoSpace(t: string) {
    forall i :: 0 <= i < |t| ==> t[i] != ' '
  }

  lemma SplitEmpty()
    ensures Split("") == []
  {
  }

  /** One getline moves the first token over. */
  lemma SplitStep(done: seq<string>, rest: string)
    requires rest != ""
    ensures var i := FirstSpace(rest);
            done + Split(rest) ==
            (done + [rest[..i]]) + Split(if i == |rest| then "" else rest[i + 1..])
  {
    var i := FirstSpace(rest);
    if i == |rest| {
      assert Split(rest) == [rest] && Split("") == [];
      assert rest[..i] == rest;
    } else {
      assert Split(rest) == [rest[..i]] + Split(rest[i + 1..]);
    }
    hide *;
    if i == |rest| {
      assert (done + [rest]) + [] == done + [rest];
    } else {
      Regroup(done, [rest[..i]], Split(rest[i + 1..]));
    }
  }

  /** participant::get_handler_t::encode_result: one getline per round. */
  method BuildResult(value: string) returns (r: string)
    ensures r == EncodeResult(value)
  {
    hide Split, FirstSpace, EncodeBulk;
    var rest, count, ret := value, 0, "";
    SplitEmpty();
    ghost var done: seq<string> := [];
    while rest != ""
      invariant done + Split(rest) == Split(value)
      invariant count == |done| && ret == EncodeBulks(done)
      decreases |rest|
    {
      var i := FirstSpace(rest);
      var token := rest[..i];
      SplitStep(done, rest);
      rest := if i == |rest| then "" else rest[i + 1..];
      count := count + 1;
      ret := ret + EncodeBulk(token);
      assert (done + [token])[..|done|] == done;
      done := done + [token];
    }
    assert done + Split(rest) == done;
    r := "*" + Decimal(count) + SEPARATOR + ret;
  }

  // ----- SET then GET: joining tokens and splitting the stored value

  lemma {:induction false} FirstSpaceIn(t: string, rest: string)
    requires NoSpace(t) && (rest == "" || rest[0] == ' ')
    ensures FirstSpace(t + rest) == |t|
  {
    if t == "" {
      assert t + rest == rest;
    } else {
      assert (t + rest)[1..] == t[1..] + rest;
      FirstSpaceIn(t[1..], rest);
    }
  }

  lemma SplitFirst(t: string, rest: string)
    requires NoSpace(t)
    ensures Split(t + " " + rest) == [t] + Split(rest)
  {
    var v := t + " " + rest;
    assert v == t + (" " + rest);
    FirstSpaceIn(t, " " + rest);
    assert v[..|t|] == t && v[|t| + 1..] == rest;
  }

  predicate NoSpaces(ts: seq<string>) {
    forall i :: 0 <= i < |ts| ==> NoSpace(ts[i])
  }

  lemma JoinTail(ts: seq<string>, rest: string)
    requires |ts| > 1
    ensures Join(ts) + " " + rest == Join(ts[..|ts| - 1]) + " " + (ts[|ts| - 1] + " " + rest)
  {
    var front, last := Join(ts[..|ts| - 1]), ts[|ts| - 1];
    JoinLast(ts);
    hide Join;
    Spaced(front, last, rest);
  }

  lemma Spaced(a: string, b: string, c: string)
    ensures a + " " + b + " " + c == a + " " + (b + " " + c)
  {
  }

  lemma JoinOne(ts: seq<string>)
    requires ts != []
    ensures |ts| == 1 ==> Join(ts) == ts[0]
  {
  }

  /** A value of tokens followed by a space splits into exactly those tokens, then the rest. */
  lemma {:induction false} SplitJoinedPrefix(ts: seq<string>, rest: string)
    requires ts != [] && NoSpaces(ts)
    ensures Split(Join(ts) + " " + rest) == ts + Split(rest)
    decreases |ts|
  {
    hide Split, FirstSpace, Join;
    var n := |ts| - 1;
    var front, last := ts[..n], ts[n];
    JoinOne(ts);
    SplitFirst(last, rest);
    assert ts == front + [last];
    if n == 0 {
    } else {
      var tail := last + " " + rest;
      SplitJoinedPrefix(front, tail);
      JoinTail(ts, rest);
      Regroup(front, [last], Split(rest));
    }
  }

  lemma SplitOne(t: string)
    requires NoSpace(t)
    ensures Split(t) == if t == "" then [] else [t]
  {
    assert t + "" == t;
    FirstSpaceIn(t, "");
  }

  /** Splitting a joined value gives back the tokens, except that an empty last token is dropped. */
  lemma {:induction false} SplitOfJoin(ts: seq<string>)
    requires ts != [] && NoSpaces(ts)
    ensures Split(Join(ts)) == if ts[|ts| - 1] == "" then ts[..|ts| - 1] else ts
  {
    hide Split, FirstSpace, Join, NoSpace;
    var n := |ts| - 1;
    var front, last := ts[..n], ts[n];
    SplitOne(last);
    assert ts == front + [last];
    if n == 0 {
      JoinOne(ts);
    } else {
      JoinLast(ts);
      SplitJoinedPrefix(front, last);
      if last == "" {
        assert front + [] == front;
      }
    }
  }

  lemma JoinLast(ts: seq<string>)
    requires |ts| > 1
    ensures Join(ts) == Join(ts[..|ts| - 1]) + " " + ts[|ts| - 1]
  {
  }

  lemma {:induction false} SplitHasNoSpaces(v: string, i: nat)
    requires i < |Split(v)|
    ensures NoSpace(Split(v)[i])
    decreases |v|
  {
    var k := FirstSpace(v);
    if k == |v| || i == 0 {
    } else {
      SplitHasNoSpaces(v[k + 1..], i - 1);
    }
  }

  /** A GET after a SET replies with exactly the tokens iff none holds a space and the last is not empty. */
  lemma {:induction false} SetThenGet(ts: seq<string>)
    requires ts != []
    ensures Split(Join(ts)) == ts <==>
            NoSpaces(ts) && ts[|ts| - 1] != ""
  {
    if NoSpaces(ts) {
      SplitOfJoin(ts);
    } else if Split(Join(ts)) == ts {
      forall i | 0 <= i < |ts| ensures NoSpace(ts[i]) {
        SplitHasNoSpaces(Join(ts), i);
      }
    }
  }
}
