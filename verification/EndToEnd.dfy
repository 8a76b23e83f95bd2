/** From the bytes of a SET to the bytes of the reply to a later GET. */
module EndToEnd {
  import opened KeyValue
  import opened Text
  import opened Resp
  import opened CommandParser
  import opened ParserFacts
  import Participants

  /** An array of bulk strings determines its strings. */
  lemma EncodeArrayIsInjective(a: seq<string>, b: seq<string>)
    requires Printable(a) && Printable(b) && EncodeArray(a) == EncodeArray(b)
    ensures a == b
  {
    var d := EncodeArray(a);
    ArrayReadsBack(d, a);
    ArrayReadsBack(d, b);
  }

  lemma {:induction false} ArrayReadsBack(d: string, ts: seq<string>)
    requires Printable(ts) && d == EncodeArray(ts)
    ensures ReadHead(d, 0).Ok? && ReadHead(d, 0).value == |ts|
    ensures ReadTokens(d, ReadHead(d, 0).next, |ts|) == Ok(ts, |d|)
  {
    hide ReadHead, ReadTokens, EncodeBulks, EncodeArray, Decimal, Head, At;
    var head := Head("*", |ts|);
    ArrayParts(ts);
    AtAll(d);
    AtParts(d, 0, head, EncodeBulks(ts));
    HeadReads(d, |ts|);
    TokensRoundTrip(d, |head|, ts);
  }

  lemma ArrayParts(ts: seq<string>)
    ensures EncodeArray(ts) == Head("*", |ts|) + EncodeBulks(ts)
  {
    hide Decimal, EncodeBulks;
  }

  lemma AtAll(d: string)
    ensures At(d, 0, d)
  {
  }

  lemma HeadReads(d: string, n: nat)
    requires n <= LONG_MAX && At(d, 0, Head("*", n))
    ensures ReadHead(d, 0) == Ok(n, |Head("*", n)|)
  {
    hide ReadExact, ReadNumber, ReadSeparator, Decimal;
    HeadRoundTrip(d, 0, "*", n);
  }

  lemma {:induction false} SplitBounded(v: string)
    ensures |Split(v)| <= |v|
    ensures forall i :: 0 <= i < |Split(v)| ==> |Split(v)[i]| <= |v|
    decreases |v|
  {
    var k := FirstSpace(v);
    if k >= |v| {
    } else {
      assert Split(v) == [v[..k]] + Split(v[k + 1..]);
      hide Split, FirstSpace;
      SplitBounded(v[k + 1..]);
    }
  }

  /**
   * The bytes of SET key t1 ... tn, whatever follows them, are read as one command; on the store
   * it leaves, GET key replies with the array of exactly t1 ... tn iff no token holds a space and
   * the last one is not empty.
   */
  lemma {:induction false} SetThenGetReply(key: string, tokens: seq<string>, rest: string, st: Store)
    requires tokens != [] && Printable([key] + tokens) && |Join(tokens)| < LONG_MAX
    ensures var r := ReadCommand(EncodeArray(["SET"] + ([key] + tokens)) + rest, 0);
      && r.Ok? && r.value.Update?
      && (Participants.GetReply(Apply(r.value.cmd, st), key) == EncodeArray(tokens) <==>
          NoSpaces(tokens) && tokens[|tokens| - 1] != "")
  {
    SetRoundTrip(key, tokens, rest);
    hide ReadCommand, EncodeArray, Split, Join, NoSpaces;
    PrintableTail(key, tokens);
    SplitBounded(Join(tokens));
    SetThenGet(tokens);
    if EncodeArray(Split(Join(tokens))) == EncodeArray(tokens) {
      EncodeArrayIsInjective(Split(Join(tokens)), tokens);
    }
  }
}
