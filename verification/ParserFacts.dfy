/**
 * The parser looks at nothing but the bytes of the command it reads: what stands before them, and
 * what arrives behind them, changes neither a success nor a syntax error.
 */
module ParserFacts {
  import opened KeyValue
  import opened Text
  import opened Resp
  import opened Sequences
  import opened CommandParser

  /** The buffer w holds the bytes d from position k on; `last` says that it ends with them. */
  ghost predicate Embeds(w: string, k: nat, d: string, last: bool) {
    && k + |d| <= |w|
    && (last ==> k + |d| == |w|)
    && forall i :: 0 <= i < |d| ==> w[k + i] == d[i]
  }

  /** The outcome r of reading d, and the outcome r' of reading it inside a longer buffer. */
  ghost predicate Carries<T>(r: Parsed<T>, r': Parsed<T>, k: nat, last: bool) {
    && (r.Ok? ==> r' == Ok(r.value, k + r.next))
    && (r.Syntax? ==> r'.Syntax?)
    && (r.Incomplete? && last ==> r'.Incomplete?)
  }

  lemma ExactCarries(w: string, k: nat, d: string, last: bool, i: nat, c: char)
    requires Embeds(w, k, d, last) && i <= |d|
    ensures Carries(ReadExact(d, i, c), ReadExact(w, k + i, c), k, last)
  {
  }

  lemma SeparatorCarries(w: string, k: nat, d: string, last: bool, i: nat)
    requires Embeds(w, k, d, last) && i <= |d|
    ensures Carries(ReadSeparator(d, i), ReadSeparator(w, k + i), k, last)
  {
    ExactCarries(w, k, d, last, i, '\r');
    var a := ReadExact(d, i, '\r');
    if a.Ok? {
      ExactCarries(w, k, d, last, a.next, '\n');
    }
  }

  lemma {:induction false} DigitsEndCarries(w: string, k: nat, d: string, last: bool, i: nat)
    requires Embeds(w, k, d, last) && i <= |d|
    ensures var e := DigitsEnd(d, i);
            e < |d| || last ==> DigitsEnd(w, k + i) == k + e
    decreases |d| - i
  {
    if i >= |d| {
    } else {
      if IsDigit(d[i]) {
        DigitsEndCarries(w, k, d, last, i + 1);
      }
    }
  }

  lemma NumberCarries(w: string, k: nat, d: string, last: bool, i: nat)
    requires Embeds(w, k, d, last) && i <= |d|
    ensures Carries(ReadNumber(d, i), ReadNumber(w, k + i), k, last)
  {
    var e := DigitsEnd(d, i);
    DigitsEndCarries(w, k, d, last, i);
    assert w[k + i..k + e] == d[i..e];
  }

  lemma BytesCarries(w: string, k: nat, d: string, last: bool, i: nat, n: nat)
    requires Embeds(w, k, d, last) && i <= |d|
    ensures Carries(ReadBytes(d, i, n), ReadBytes(w, k + i, n), k, last)
  {
    if i + n <= |d| {
      assert w[k + i..k + i + n] == d[i..i + n];
    }
  }

  lemma BulkCarries(w: string, k: nat, d: string, last: bool, i: nat)
    requires Embeds(w, k, d, last) && i <= |d|
    ensures Carries(ReadBulk(d, i), ReadBulk(w, k + i), k, last)
  {
    hide ReadExact, ReadNumber, ReadSeparator, ReadBytes, Embeds;
    ExactCarries(w, k, d, last, i, '$');
    var a := ReadExact(d, i, '$');
    if a.Ok? {
      NumberCarries(w, k, d, last, a.next);
      var n := ReadNumber(d, a.next);
      if n.Ok? {
        SeparatorCarries(w, k, d, last, n.next);
        var b := ReadSeparator(d, n.next);
        if b.Ok? {
          BytesCarries(w, k, d, last, b.next, n.value);
        }
      }
    }
  }

  lemma TokenCarries(w: string, k: nat, d: string, last: bool, i: nat)
    requires Embeds(w, k, d, last) && i <= |d|
    ensures Carries(ReadToken(d, i), ReadToken(w, k + i), k, last)
  {
    hide ReadBulk, ReadSeparator, Embeds;
    BulkCarries(w, k, d, last, i);
    var s := ReadBulk(d, i);
    if s.Ok? {
      SeparatorCarries(w, k, d, last, s.next);
    }
  }

  lemma {:induction false} TokensCarries(w: string, k: nat, d: string, last: bool, i: nat, n: nat)
    requires Embeds(w, k, d, last) && i <= |d|
    ensures Carries(ReadTokens(d, i, n), ReadTokens(w, k + i, n), k, last)
    decreases n
  {
    hide ReadToken;
    if n == 0 {
    } else {
      TokenCarries(w, k, d, last, i);
      var t := ReadToken(d, i);
      if t.Ok? {
        TokensCarries(w, k, d, last, t.next, n - 1);
      }
    }
  }

  lemma ArgumentsCarries(verb: string, count: nat, w: string, k: nat, d: string, last: bool, i: nat)
    requires Embeds(w, k, d, last) && i <= |d|
    ensures Carries(ReadArguments(verb, count, d, i), ReadArguments(verb, count, w, k + i), k, last)
  {
    hide ReadToken, ReadTokens;
    if verb == "SET" {
      TokenCarries(w, k, d, last, i);
      var key := ReadToken(d, i);
      if key.Ok? {
        TokensCarries(w, k, d, last, key.next, AtLeastOne(count - 2));
      }
    } else {
      TokensCarries(w, k, d, last, i, AtLeastOne(count - 1));
    }
  }

  lemma HeadCarries(w: string, k: nat, d: string, last: bool, i: nat)
    requires Embeds(w, k, d, last) && i <= |d|
    ensures Carries(ReadHead(d, i), ReadHead(w, k + i), k, last)
  {
    hide ReadExact, ReadNumber, ReadSeparator, Embeds;
    ExactCarries(w, k, d, last, i, '*');
    var a := ReadExact(d, i, '*');
    if a.Ok? {
      NumberCarries(w, k, d, last, a.next);
      var n := ReadNumber(d, a.next);
      if n.Ok? {
        SeparatorCarries(w, k, d, last, n.next);
      }
    }
  }

  lemma VerbCarries(w: string, k: nat, d: string, last: bool, i: nat)
    requires Embeds(w, k, d, last) && i <= |d|
    ensures Carries(ReadVerb(d, i), ReadVerb(w, k + i), k, last)
  {
    hide ReadBulk, ReadSeparator, Embeds;
    BulkCarries(w, k, d, last, i);
    var s := ReadBulk(d, i);
    if s.Ok? {
      SeparatorCarries(w, k, d, last, s.next);
    }
  }

  lemma CommandCarries(w: string, k: nat, d: string, last: bool, i: nat)
    requires Embeds(w, k, d, last) && i <= |d|
    ensures Carries(ReadCommand(d, i), ReadCommand(w, k + i), k, last)
  {
    hide ReadHead, ReadVerb, ReadArguments;
    HeadCarries(w, k, d, last, i);
    var n := ReadHead(d, i);
    if n.Ok? {
      VerbCarries(w, k, d, last, n.next);
      var v := ReadVerb(d, n.next);
      if v.Ok? {
        ArgumentsCarries(v.value, n.value, w, k, d, last, v.next);
      }
    }
  }

  // ----- the main facts about one command

  /** More bytes change neither a command nor a syntax error. */
  lemma StableUnderExtension(d: string, e: string)
    ensures ReadCommand(d, 0).Ok? ==> ReadCommand(d + e, 0) == ReadCommand(d, 0)
    ensures ReadCommand(d, 0).Syntax? ==> ReadCommand(d + e, 0).Syntax?
  {
    CommandCarries(d + e, 0, d, false, 0);
  }

  /** Every proper prefix of a command asks for more bytes, and reads no command. */
  lemma {:induction false} ProperPrefixIsIncomplete(d: string, n: nat)
    requires ReadCommand(d, 0).Ok? && n < ReadCommand(d, 0).next
    ensures ReadCommand(d[..n], 0).Incomplete?
  {
    StableUnderExtension(d[..n], d[n..]);
    assert d[..n] + d[n..] == d;
  }

  // ----- round trip

  /** The bytes s stand at position i of d. */
  ghost predicate At(d: string, i: nat, s: string) {
    i + |s| <= |d| && d[i..i + |s|] == s
  }

  lemma AtParts(d: string, i: nat, a: string, b: string)
    requires At(d, i, a + b)
    ensures At(d, i, a) && At(d, i + |a|, b)
  {
    assert d[i..i + |a|] == d[i..i + |a + b|][..|a|];
    assert d[i + |a|..i + |a| + |b|] == d[i..i + |a + b|][|a|..];
  }

  lemma {:induction false} DigitsEndAt(d: string, i: nat, e: nat)
    requires i <= e < |d| && AllDigits(d[i..e]) && !IsDigit(d[e])
    ensures DigitsEnd(d, i) == e
    decreases e - i
  {
    if i < e {
      assert IsDigit(d[i..e][0]);
      assert d[i + 1..e] == d[i..e][1..];
      DigitsEndAt(d, i + 1, e);
    }
  }

  lemma NumberRoundTrip(d: string, i: nat, n: nat)
    requires n <= LONG_MAX && At(d, i, Decimal(n))
    requires i + |Decimal(n)| < |d| && !IsDigit(d[i + |Decimal(n)|])
    ensures ReadNumber(d, i) == Ok(n, i + |Decimal(n)|)
  {
    DigitsEndAt(d, i, i + |Decimal(n)|);
    ValueOfDecimal(n);
  }

  lemma SeparatorRoundTrip(d: string, i: nat)
    requires At(d, i, SEPARATOR)
    ensures ReadSeparator(d, i) == Ok((), i + 2)
  {
    assert d[i..i + 2][0] == '\r' && d[i..i + 2][1] == '\n';
  }

  /** A sign, a length and a separator: the head of an array or of a bulk string. */
  function Head(sign: string, n: nat): string {
    sign + Decimal(n) + SEPARATOR
  }

  lemma HeadRoundTrip(d: string, i: nat, sign: string, n: nat)
    requires |sign| == 1 && n <= LONG_MAX && At(d, i, Head(sign, n))
    ensures var e := i + 1 + |Decimal(n)|;
            && e + 2 <= |d| && e + 2 == i + |Head(sign, n)|
            && ReadExact(d, i, sign[0]) == Ok((), i + 1)
            && ReadNumber(d, i + 1) == Ok(n, e)
            && ReadSeparator(d, e) == Ok((), e + 2)
  {
    hide Decimal, ReadNumber;
    AtParts(d, i, sign + Decimal(n), SEPARATOR);
    AtParts(d, i, sign, Decimal(n));
    assert d[i..i + 1][0] == sign[0];
    var e := i + 1 + |Decimal(n)|;
    SeparatorRoundTrip(d, e);
    assert d[e] == '\r';
    NumberRoundTrip(d, i + 1, n);
  }

  lemma TokenRoundTrip(d: string, i: nat, s: string)
    requires |s| <= LONG_MAX && At(d, i, EncodeBulk(s))
    ensures ReadToken(d, i) == Ok(s, i + |EncodeBulk(s)|)
    ensures ReadBulk(d, i) == Ok(s, i + |EncodeBulk(s)| - 2)
    ensures i + |EncodeBulk(s)| <= |d| && ReadSeparator(d, i + |EncodeBulk(s)| - 2) == Ok((), i + |EncodeBulk(s)|)
  {
    hide ReadNumber, ReadSeparator, ReadExact, Decimal;
    var head := Head("$", |s|);
    assert EncodeBulk(s) == head + s + SEPARATOR;
    AtParts(d, i, head + s, SEPARATOR);
    AtParts(d, i, head, s);
    HeadRoundTrip(d, i, "$", |s|);
    SeparatorRoundTrip(d, i + |head + s|);
  }

  lemma {:induction false} EncodeBulksCons(ts: seq<string>)
    requires ts != []
    ensures EncodeBulks(ts) == EncodeBulk(ts[0]) + EncodeBulks(ts[1..])
    decreases |ts|
  {
    var n := |ts| - 1;
    var tail := ts[1..];
    if n == 0 {
      assert ts[..0] == [] && tail == [];
      assert EncodeBulks(ts) == "" + EncodeBulk(ts[0]);
    } else {
      EncodeBulksCons(ts[..n]);
      assert ts[..n][1..] == tail[..n - 1] && tail[n - 1] == ts[n];
      assert EncodeBulks(tail) == EncodeBulks(tail[..n - 1]) + EncodeBulk(ts[n]);
      Regroup(EncodeBulk(ts[0]), EncodeBulks(tail[..n - 1]), EncodeBulk(ts[n]));
    }
  }

  lemma EncodeNothing()
    ensures EncodeBulks([]) == ""
  {
  }

  ghost predicate Printable(ts: seq<string>) {
    |ts| < LONG_MAX && forall i :: 0 <= i < |ts| ==> |ts[i]| <= LONG_MAX
  }

  lemma {:induction false} TokensRoundTrip(d: string, i: nat, ts: seq<string>)
    requires Printable(ts) && At(d, i, EncodeBulks(ts))
    ensures ReadTokens(d, i, |ts|) == Ok(ts, i + |EncodeBulks(ts)|)
    decreases |ts|
  {
    EncodeNothing();
    hide ReadToken, EncodeBulk, EncodeBulks, At;
    if ts == [] {
    } else {
      EncodeBulksCons(ts);
      var t, tail := ts[0], ts[1..];
      AtParts(d, i, EncodeBulk(t), EncodeBulks(tail));
      TokenRoundTrip(d, i, t);
      TokensRoundTrip(d, i + |EncodeBulk(t)|, tail);
      assert [t] + tail == ts;
    }
  }

  /** Head and verb of an encoded command; the arguments stand behind them. */
  lemma VerbRoundTrip(d: string, verb: string, args: seq<string>)
    requires verb == "GET" || verb == "SET" || verb == "DEL"
    requires |args| + 1 <= LONG_MAX && At(d, 0, EncodeArray([verb] + args))
    ensures var i := |Head("*", 1 + |args|)| + |EncodeBulk(verb)|;
            && At(d, i, EncodeBulks(args))
            && i + |EncodeBulks(args)| == |EncodeArray([verb] + args)|
            && ReadCommand(d, 0) == ReadArguments(verb, 1 + |args|, d, i)
  {
    hide ReadExact, ReadNumber, ReadSeparator, ReadBulk, ReadToken, ReadArguments, EncodeBulks, EncodeBulk, Decimal, At;
    var all := [verb] + args;
    EncodeBulksCons(all);
    assert all[1..] == args;
    var head := Head("*", 1 + |args|);
    assert EncodeArray(all) == head + EncodeBulks(all);
    AtParts(d, 0, head, EncodeBulks(all));
    HeadRoundTrip(d, 0, "*", 1 + |args|);
    assert ReadHead(d, 0) == Ok(1 + |args|, |head|);
    AtParts(d, |head|, EncodeBulk(verb), EncodeBulks(args));
    TokenRoundTrip(d, |head|, verb);
    assert ReadVerb(d, |head|) == Ok(verb, |head| + |EncodeBulk(verb)|);
  }

  lemma AtStart(s: string, rest: string)
    ensures At(s + rest, 0, s)
  {
  }

  /** A printed GET, followed by anything, reads back with its keys joined, and no byte more is read. */
  lemma GetRoundTrip(keys: seq<string>, rest: string)
    requires keys != [] && Printable(keys)
    ensures ReadCommand(EncodeArray(["GET"] + keys) + rest, 0) ==
            Ok(Get(Join(keys)), |EncodeArray(["GET"] + keys)|)
  {
    hide ReadTokens, ReadCommand, EncodeArray, EncodeBulks, EncodeBulk, Decimal, At;
    var enc := EncodeArray(["GET"] + keys);
    AtStart(enc, rest);
    VerbRoundTrip(enc + rest, "GET", keys);
    TokensRoundTrip(enc + rest, |Head("*", 1 + |keys|)| + |EncodeBulk("GET")|, keys);
  }

  lemma {:induction false} DelRoundTrip(keys: seq<string>, rest: string)
    requires keys != [] && Printable(keys)
    ensures ReadCommand(EncodeArray(["DEL"] + keys) + rest, 0) ==
            Ok(Update(Del(keys)), |EncodeArray(["DEL"] + keys)|)
  {
    hide ReadTokens, ReadCommand, EncodeArray, EncodeBulks, EncodeBulk, Decimal, At;
    var enc := EncodeArray(["DEL"] + keys);
    AtStart(enc, rest);
    VerbRoundTrip(enc + rest, "DEL", keys);
    TokensRoundTrip(enc + rest, |Head("*", 1 + |keys|)| + |EncodeBulk("DEL")|, keys);
  }

  lemma PrintableTail(key: string, tokens: seq<string>)
    requires Printable([key] + tokens)
    ensures ([key] + tokens)[0] == key && ([key] + tokens)[1..] == tokens
    ensures |key| <= LONG_MAX && Printable(tokens)
  {
    assert ([key] + tokens)[0] == key;
    assert forall j :: 0 <= j < |tokens| ==> tokens[j] == ([key] + tokens)[j + 1];
  }

  lemma SetArguments(d: string, i: nat, key: string, a: nat, tokens: seq<string>, b: nat)
    requires i <= |d| && a <= |d| && tokens != []
    requires ReadToken(d, i) == Ok(key, a) && ReadTokens(d, a, |tokens|) == Ok(tokens, b)
    ensures ReadArguments("SET", 2 + |tokens|, d, i) == Ok(Update(Set(key, Join(tokens))), b)
  {
    hide ReadToken, ReadTokens, Join;
  }

  /** The arguments of a SET: the key, then the tokens of the value. */
  lemma SetArgumentsRoundTrip(d: string, i: nat, key: string, tokens: seq<string>)
    requires tokens != [] && Printable([key] + tokens) && At(d, i, EncodeBulks([key] + tokens))
    ensures ReadArguments("SET", 2 + |tokens|, d, i) ==
            Ok(Update(Set(key, Join(tokens))), i + |EncodeBulks([key] + tokens)|)
  {
    var args := [key] + tokens;
    PrintableTail(key, tokens);
    hide EncodeBulk, EncodeBulks, At, ReadArguments, ReadToken, ReadTokens, Join, Printable;
    EncodeBulksCons(args);
    AtParts(d, i, EncodeBulk(key), EncodeBulks(tokens));
    TokenRoundTrip(d, i, key);
    var a := i + |EncodeBulk(key)|;
    TokensRoundTrip(d, a, tokens);
    SetArguments(d, i, key, a, tokens, a + |EncodeBulks(tokens)|);
  }

  lemma SetRoundTrip(key: string, tokens: seq<string>, rest: string)
    requires tokens != [] && Printable([key] + tokens)
    ensures ReadCommand(EncodeArray(["SET"] + ([key] + tokens)) + rest, 0) ==
            Ok(Update(Set(key, Join(tokens))), |EncodeArray(["SET"] + ([key] + tokens))|)
  {
    hide ReadArguments, ReadCommand, EncodeArray, EncodeBulks, EncodeBulk, Decimal, At;
    var args := [key] + tokens;
    var enc := EncodeArray(["SET"] + args);
    AtStart(enc, rest);
    VerbRoundTrip(enc + rest, "SET", args);
    SetArgumentsRoundTrip(enc + rest, |Head("*", 1 + |args|)| + |EncodeBulk("SET")|, key, tokens);
  }
}
