/**
 * The commands as a grammar over bytes, and the bytes that break it, both without reference to the
 * parser. The parser reads exactly the commands, and calls exactly the broken ones syntax errors.
 */
module Grammar {
  import opened KeyValue
  import opened Text
  import opened CommandParser
  import Resp

  // ----- the grammar, with where each part starts and ends

  predicate Byte(d: string, i: nat, c: char) {
    i < |d| && d[i] == c
  }

  predicate WrongByte(d: string, i: nat, c: char) {
    i < |d| && d[i] != c
  }

  predicate Separator(d: string, i: nat) {
    Byte(d, i, '\r') && Byte(d, i + 1, '\n')
  }

  predicate WrongSeparator(d: string, i: nat) {
    WrongByte(d, i, '\r') || (Byte(d, i, '\r') && WrongByte(d, i + 1, '\n'))
  }

  /** The digits from i on end at e, where another character stands. */
  ghost predicate DigitsTo(d: string, i: nat, e: nat) {
    && i <= e < |d| && (forall j :: i <= j < e ==> '0' <= d[j] <= '9') && !('0' <= d[e] <= '9')
  }

  ghost predicate Number(d: string, i: nat, n: nat, e: nat) {
    DigitsTo(d, i, e) && i < e && Value(d[i..e]) == n && n <= LONG_MAX
  }

  /** No digit, or a number that does not fit. */
  ghost predicate WrongNumber(d: string, i: nat) {
    exists e: nat :: DigitsTo(d, i, e) && (e == i || Value(d[i..e]) > LONG_MAX)
  }

  /** A sign and a number. */
  ghost predicate Signed(d: string, i: nat, c: char, n: nat, e: nat) {
    Byte(d, i, c) && Number(d, i + 1, n, e)
  }

  /** A wrong sign, a wrong number, or a wrong separator behind it. */
  ghost predicate WrongSigned(d: string, i: nat, c: char) {
    || WrongByte(d, i, c)
    || (Byte(d, i, c) && WrongNumber(d, i + 1))
    || (exists n: nat, b: nat :: Signed(d, i, c, n, b) && WrongSeparator(d, b))
  }

  /** A dollar sign, a length, a separator, and as many bytes. */
  ghost predicate Bulk(d: string, i: nat, s: string, e: nat) {
    exists n: nat, b: nat :: Signed(d, i, '$', n, b) && Separator(d, b) && e == b + 2 + n <= |d| && s == d[b + 2..e]
  }

  ghost predicate WrongBulk(d: string, i: nat) {
    WrongSigned(d, i, '$')
  }

  ghost predicate Token(d: string, i: nat, s: string, e: nat) {
    e >= 2 && Bulk(d, i, s, e - 2) && Separator(d, e - 2)
  }

  ghost predicate WrongToken(d: string, i: nat) {
    WrongBulk(d, i) || exists s, b: nat :: Bulk(d, i, s, b) && WrongSeparator(d, b)
  }

  ghost predicate Tokens(d: string, i: nat, ts: seq<string>, e: nat)
    decreases |ts|
  {
    if ts == [] then e == i else exists a: nat :: Token(d, i, ts[0], a) && Tokens(d, a, ts[1..], e)
  }

  /** One of the first k tokens is wrong. */
  ghost predicate WrongTokens(d: string, i: nat, k: nat)
    decreases k
  {
    k > 0 && (WrongToken(d, i) || exists t, a: nat :: Token(d, i, t, a) && WrongTokens(d, a, k - 1))
  }

  /** The smallest element count that a verb takes. */
  function Smallest(verb: string): nat {
    if verb == "SET" then 2 else 1
  }

  /** How many strings stand behind a verb: one fewer than declared, but a key, and a value for SET. */
  function Strings(verb: string, count: nat): nat {
    if verb == "SET" then if count < 3 then 2 else count - 1
    else if count < 2 then 1 else count - 1
  }

  predicate IsVerb(verb: string) {
    verb == "GET" || verb == "SET" || verb == "DEL"
  }

  function Meaning(verb: string, ts: seq<string>): Request
    requires |ts| > Smallest(verb) - 1
  {
    if verb == "GET" then Get(Resp.Join(ts))
    else if verb == "SET" then Update(Set(ts[0], Resp.Join(ts[1..])))
    else Update(Del(ts))
  }

  /** The array head: its element count. */
  ghost predicate Head(d: string, i: nat, count: nat, e: nat) {
    e >= 2 && Signed(d, i, '*', count, e - 2) && Separator(d, e - 2)
  }

  ghost predicate WrongHead(d: string, i: nat) {
    WrongSigned(d, i, '*')
  }

  ghost predicate Command(d: string, i: nat, r: Request, e: nat) {
    exists count: nat, a: nat, verb, b: nat, ts ::
      && Head(d, i, count, a) && Token(d, a, verb, b) && Tokens(d, b, ts, e)
      && IsVerb(verb) && count >= Smallest(verb) && |ts| == Strings(verb, count) && r == Meaning(verb, ts)
  }

  /**
   * A wrong sign, no number, a wrong separator, an unknown verb, or too small a count. An unknown verb is
   * wrong whatever stands behind it.
   */
  ghost predicate WrongCommand(d: string, i: nat) {
    || WrongHead(d, i)
    || (exists count: nat, a: nat :: Head(d, i, count, a) && WrongBulk(d, a))
    || (exists count: nat, a: nat, verb, b: nat ::
          && Head(d, i, count, a) && Bulk(d, a, verb, b)
          && (!IsVerb(verb) || WrongSeparator(d, b)))
    || (exists count: nat, a: nat, verb, b: nat ::
          && Head(d, i, count, a) && Token(d, a, verb, b) && IsVerb(verb)
          && (count < Smallest(verb) || WrongTokens(d, b, Strings(verb, count))))
  }

  // ----- the parser against it, part by part

  lemma ExactIff(d: string, i: nat, c: char)
    requires i <= |d|
    ensures ReadExact(d, i, c).Ok? <==> Byte(d, i, c)
    ensures ReadExact(d, i, c).Ok? ==> ReadExact(d, i, c).next == i + 1
    ensures ReadExact(d, i, c).Syntax? <==> WrongByte(d, i, c)
  {
  }

  lemma SeparatorIff(d: string, i: nat)
    requires i <= |d|
    ensures ReadSeparator(d, i).Ok? <==> Separator(d, i)
    ensures ReadSeparator(d, i).Ok? ==> ReadSeparator(d, i).next == i + 2
    ensures ReadSeparator(d, i).Syntax? <==> WrongSeparator(d, i)
  {
  }

  lemma DigitsAre(d: string, i: nat, e: nat)
    requires i <= |d|
    ensures DigitsTo(d, i, e) <==> e == DigitsEnd(d, i) && e < |d|
  {
    var f := DigitsEnd(d, i);
    assert forall j :: i <= j < f ==> IsDigit(d[j]) by {
      assert forall j :: i <= j < f ==> d[j] == d[i..f][j - i];
    }
  }

  lemma NumberIff(d: string, i: nat, n: nat, e: nat)
    requires i <= |d|
    ensures Number(d, i, n, e) <==> ReadNumber(d, i) == Ok(n, e)
    ensures WrongNumber(d, i) <==> ReadNumber(d, i).Syntax?
  {
    DigitsAre(d, i, e);
    var f := DigitsEnd(d, i);
    DigitsAre(d, i, f);
    if WrongNumber(d, i) {
      var x: nat :| DigitsTo(d, i, x) && (x == i || Value(d[i..x]) > LONG_MAX);
      DigitsAre(d, i, x);
    }
  }

  lemma {:induction false} SignedIff(d: string, i: nat, c: char, n: nat, e: nat)
    requires i <= |d|
    ensures Signed(d, i, c, n, e) <==> ReadExact(d, i, c).Ok? && ReadNumber(d, i + 1) == Ok(n, e)
  {
    ExactIff(d, i, c);
    if i < |d| {
      NumberIff(d, i + 1, n, e);
    }
    hide ReadExact, ReadNumber, Number;
  }

  lemma {:induction false} WrongSignedIff(d: string, i: nat, c: char)
    requires i <= |d|
    ensures WrongSigned(d, i, c) <==>
              || ReadExact(d, i, c).Syntax?
              || (ReadExact(d, i, c).Ok? &&
                  (|| ReadNumber(d, i + 1).Syntax?
                   || (ReadNumber(d, i + 1).Ok? && ReadSeparator(d, ReadNumber(d, i + 1).next).Syntax?)))
  {
    ExactIff(d, i, c);
    hide ReadExact, ReadNumber, ReadSeparator, WrongNumber, Signed, WrongSeparator;
    forall n: nat, b: nat ensures Signed(d, i, c, n, b) <==> ReadExact(d, i, c).Ok? && ReadNumber(d, i + 1) == Ok(n, b) {
      SignedIff(d, i, c, n, b);
    }
    if i < |d| {
      NumberIff(d, i + 1, 0, 0);
      var r := ReadNumber(d, i + 1);
      if r.Ok? {
        SeparatorIff(d, r.next);
        assert ReadExact(d, i, c).Ok? ==> Signed(d, i, c, r.value, r.next);
      }
    }
  }

  lemma {:induction false} BulkIff(d: string, i: nat, s: string, e: nat)
    requires i <= |d|
    ensures Bulk(d, i, s, e) <==> ReadBulk(d, i) == Ok(s, e)
    ensures WrongBulk(d, i) <==> ReadBulk(d, i).Syntax?
  {
    WrongSignedIff(d, i, '$');
    ExactIff(d, i, '$');
    hide ReadExact, ReadNumber, ReadSeparator, Signed, WrongSigned, Separator;
    forall n: nat, b: nat ensures Signed(d, i, '$', n, b) <==> ReadExact(d, i, '$').Ok? && ReadNumber(d, i + 1) == Ok(n, b) {
      SignedIff(d, i, '$', n, b);
    }
    if ReadExact(d, i, '$').Ok? {
      var r := ReadNumber(d, i + 1);
      if r.Ok? {
        SeparatorIff(d, r.next);
        assert Signed(d, i, '$', r.value, r.next);
      }
    }
  }

  lemma {:induction false} HeadIff(d: string, i: nat, count: nat, e: nat)
    requires i <= |d|
    ensures Head(d, i, count, e) <==> ReadHead(d, i) == Ok(count, e)
    ensures WrongHead(d, i) <==> ReadHead(d, i).Syntax?
  {
    WrongSignedIff(d, i, '*');
    ExactIff(d, i, '*');
    hide ReadExact, ReadNumber, ReadSeparator, Signed, WrongSigned, Separator;
    forall n: nat, b: nat ensures Signed(d, i, '*', n, b) <==> ReadExact(d, i, '*').Ok? && ReadNumber(d, i + 1) == Ok(n, b) {
      SignedIff(d, i, '*', n, b);
    }
    if ReadExact(d, i, '*').Ok? {
      var r := ReadNumber(d, i + 1);
      if r.Ok? {
        SeparatorIff(d, r.next);
      }
    }
  }

  lemma {:induction false} TokenIff(d: string, i: nat, s: string, e: nat)
    requires i <= |d|
    ensures Token(d, i, s, e) <==> ReadToken(d, i) == Ok(s, e)
    ensures WrongToken(d, i) <==> ReadToken(d, i).Syntax?
  {
    hide ReadBulk, ReadSeparator, Bulk, WrongBulk, Separator, WrongSeparator;
    forall t, b: nat ensures Bulk(d, i, t, b) <==> ReadBulk(d, i) == Ok(t, b) {
      BulkIff(d, i, t, b);
    }
    BulkIff(d, i, "", 0);
    var r := ReadBulk(d, i);
    if r.Ok? {
      assert Bulk(d, i, r.value, r.next);
      SeparatorIff(d, r.next);
    }
  }

  lemma {:induction false} TokensIff(d: string, i: nat, ts: seq<string>, e: nat)
    requires i <= |d|
    ensures Tokens(d, i, ts, e) <==> ReadTokens(d, i, |ts|) == Ok(ts, e)
    decreases |ts|
  {
    hide ReadToken, Token;
    if ts == [] {
    } else {
      forall a: nat ensures Token(d, i, ts[0], a) <==> ReadToken(d, i) == Ok(ts[0], a) {
        TokenIff(d, i, ts[0], a);
      }
      var r := ReadToken(d, i);
      if r.Ok? {
        TokensIff(d, r.next, ts[1..], e);
        assert ts == [ts[0]] + ts[1..];
      }
    }
  }

  lemma {:induction false} WrongTokensIff(d: string, i: nat, k: nat)
    requires i <= |d|
    ensures WrongTokens(d, i, k) <==> ReadTokens(d, i, k).Syntax?
    decreases k
  {
    hide ReadToken, Token, WrongToken;
    if k == 0 {
    } else {
      forall t, a: nat ensures Token(d, i, t, a) <==> ReadToken(d, i) == Ok(t, a) {
        TokenIff(d, i, t, a);
      }
      TokenIff(d, i, "", 0);
      var r := ReadToken(d, i);
      if r.Ok? {
        assert Token(d, i, r.value, r.next);
        WrongTokensIff(d, r.next, k - 1);
      }
    }
  }

  lemma {:induction false} VerbIff(d: string, i: nat, verb: string, e: nat)
    requires i <= |d|
    ensures Token(d, i, verb, e) && IsVerb(verb) <==> ReadVerb(d, i) == Ok(verb, e)
    ensures ReadVerb(d, i).Syntax? <==>
              WrongBulk(d, i) || exists v, b: nat :: Bulk(d, i, v, b) && (!IsVerb(v) || WrongSeparator(d, b))
  {
    hide ReadBulk, ReadSeparator, Bulk, WrongBulk, Separator, WrongSeparator;
    forall t, b: nat ensures Bulk(d, i, t, b) <==> ReadBulk(d, i) == Ok(t, b) {
      BulkIff(d, i, t, b);
    }
    BulkIff(d, i, "", 0);
    var r := ReadBulk(d, i);
    if r.Ok? {
      assert Bulk(d, i, r.value, r.next);
      SeparatorIff(d, r.next);
    }
  }

  /** The arguments behind a known verb. */
  lemma {:induction false} ArgumentsIff(verb: string, count: nat, d: string, i: nat, r: Request, e: nat)
    requires i <= |d| && IsVerb(verb)
    ensures ReadArguments(verb, count, d, i) == Ok(r, e) <==>
              count >= Smallest(verb) &&
              exists ts :: Tokens(d, i, ts, e) && |ts| == Strings(verb, count) && r == Meaning(verb, ts)
    ensures ReadArguments(verb, count, d, i).Syntax? <==>
              count < Smallest(verb) || WrongTokens(d, i, Strings(verb, count))
  {
    var k := Strings(verb, count);
    ArgumentsAreTokens(verb, count, d, i);
    WrongTokensIff(d, i, k);
    hide ReadArguments, ReadTokens, Tokens, WrongTokens, Meaning, Strings, Smallest;
    forall ts, x: nat | |ts| == k ensures Tokens(d, i, ts, x) <==> ReadTokens(d, i, k) == Ok(ts, x) {
      TokensIff(d, i, ts, x);
    }
    if ReadTokens(d, i, k).Ok? {
      assert Tokens(d, i, ReadTokens(d, i, k).value, ReadTokens(d, i, k).next);
    }
  }

  /** What the three ways of reading arguments have in common: so many tokens, then their meaning. */
  lemma {:induction false} ArgumentsAreTokens(verb: string, count: nat, d: string, i: nat)
    requires i <= |d| && IsVerb(verb)
    ensures Strings(verb, count) >= Smallest(verb)
    ensures ReadArguments(verb, count, d, i) ==
            if count < Smallest(verb) then Parsed<Request>.Syntax
            else match ReadTokens(d, i, Strings(verb, count))
                 case Ok(ts, e) => Ok(Meaning(verb, ts), e)
                 case Syntax => Syntax
                 case Incomplete => Incomplete
  {
    hide ReadToken, Resp.Join;
    var k := Strings(verb, count);
    if verb == "SET" && count >= 2 {
      var t := ReadToken(d, i);
      if t.Ok? {
        var more := ReadTokens(d, t.next, k - 1);
        if more.Ok? {
          assert ([t.value] + more.value)[1..] == more.value;
        }
      }
    }
  }

  // ----- the main results

  /** The parser reads a command, and up to a position, iff one stands there and ends there. */
  lemma {:induction false} CommandIff(d: string, i: nat, r: Request, e: nat)
    requires i <= |d|
    ensures ReadCommand(d, i) == Ok(r, e) <==> Command(d, i, r, e)
  {
    hide ReadHead, ReadVerb, ReadArguments, Head, Token, Tokens, IsVerb, Meaning, Strings, Smallest;
    var h := ReadHead(d, i);
    forall n: nat, a: nat ensures Head(d, i, n, a) <==> h == Ok(n, a) {
      HeadIff(d, i, n, a);
    }
    if h.Ok? {
      var v := ReadVerb(d, h.next);
      forall verb, b: nat ensures Token(d, h.next, verb, b) && IsVerb(verb) <==> v == Ok(verb, b) {
        VerbIff(d, h.next, verb, b);
      }
      assert Head(d, i, h.value, h.next);
      if v.Ok? {
        assert Token(d, h.next, v.value, v.next) && IsVerb(v.value);
        ArgumentsIff(v.value, h.value, d, v.next, r, e);
      }
    }
  }

  /** The parser calls the bytes at a position a syntax error iff they are wrong there. */
  lemma {:induction false} SyntaxIff(d: string, i: nat)
    requires i <= |d|
    ensures ReadCommand(d, i).Syntax? <==> WrongCommand(d, i)
  {
    hide ReadHead, ReadVerb, ReadArguments, Head, WrongHead, Token, Bulk, WrongBulk, IsVerb, Strings, Smallest;
    hide WrongSeparator, WrongTokens;
    var h := ReadHead(d, i);
    forall n: nat, a: nat ensures Head(d, i, n, a) <==> h == Ok(n, a) {
      HeadIff(d, i, n, a);
    }
    HeadIff(d, i, 0, 0);
    if h.Ok? {
      var v := ReadVerb(d, h.next);
      forall verb, b: nat ensures Token(d, h.next, verb, b) && IsVerb(verb) <==> v == Ok(verb, b) {
        VerbIff(d, h.next, verb, b);
      }
      VerbIff(d, h.next, "", 0);
      assert Head(d, i, h.value, h.next);
      if v.Ok? {
        assert Token(d, h.next, v.value, v.next) && IsVerb(v.value);
        ArgumentsIff(v.value, h.value, d, v.next, Get(""), 0);
      }
    }
  }
}
