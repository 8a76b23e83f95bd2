/** The orders that std::map, std::set and leveldb iterate in. */
module Ordering {

  /** The first element of a std::set of ids. */
  function Least(s: set<nat>): (k: nat)
    requires s != {}
    ensures k in s && forall j :: j in s ==> k <= j
  {
    LeastExists(s);
    var k :| k in s && forall j :: j in s ==> k <= j;
    k
  }

  lemma {:induction false} LeastOf(s: set<nat>) returns (k: nat)
    requires s != {}
    ensures k in s && forall j :: j in s ==> k <= j
  {
    k :| k in s;
    var t := s - {k};
    assert forall j :: j in s <==> j == k || j in t;
    if t == {} {
    } else {
      var y := LeastOf(t);
      k := if k <= y then k else y;
    }
  }

  lemma LeastExists(s: set<nat>)
    requires s != {}
    ensures exists k :: k in s && forall j :: j in s ==> k <= j
  {
    var k := LeastOf(s);
  }

  /** Lexicographic order on strings, the order in which leveldb stores keys. */
  predicate LexLeq(a: string, b: string) {
    a == [] || (b != [] && (a[0] < b[0] || (a[0] == b[0] && LexLeq(a[1..], b[1..]))))
  }

  lemma LexTotal(a: string, b: string)
    ensures LexLeq(a, b) || LexLeq(b, a)
  {
  }

  lemma LexAntisymmetric(a: string, b: string)
    requires LexLeq(a, b) && LexLeq(b, a)
    ensures a == b
  {
    if a == [] {
    } else {
      LexAntisymmetric(a[1..], b[1..]);
      assert a == [a[0]] + a[1..] && b == [b[0]] + b[1..];
    }
  }

  lemma LexTransitive(a: string, b: string, c: string)
    requires LexLeq(a, b) && LexLeq(b, c)
    ensures LexLeq(a, c)
  {
  }

  lemma {:induction false} LeastKeyOf(s: set<string>) returns (k: string)
    requires s != {}
    ensures k in s && forall j :: j in s ==> LexLeq(k, j)
  {
    k :| k in s;
    var t := s - {k};
    assert forall j :: j in s <==> j == k || j in t;
    LexTotal(k, k);
    if t == {} {
    } else {
      var y := LeastKeyOf(t);
      LexTotal(k, y);
      var least := if LexLeq(k, y) then k else y;
      forall j | j in t ensures LexLeq(least, j) {
        if least == k {
          LexTransitive(k, y, j);
        }
      }
      k := least;
    }
  }

  lemma LeastKeyExists(s: set<string>)
    requires s != {}
    ensures exists k :: k in s && forall j :: j in s ==> LexLeq(k, j)
  {
    var k := LeastKeyOf(s);
  }

  /** The key a leveldb iterator is on after SeekToFirst. */
  function LeastKey(s: set<string>): (k: string)
    requires s != {}
    ensures k in s && forall j :: j in s ==> LexLeq(k, j)
  {
    LeastKeyExists(s);
    assert forall a, b | a in s && b in s && (forall j :: j in s ==> LexLeq(a, j)) && (forall j :: j in s ==>
        LexLeq(b, j)) :: a == b by {
      forall a, b | a in s && b in s && (forall j :: j in s ==> LexLeq(a, j)) && (forall j :: j in s ==> LexLeq(b, j))
        ensures a == b
      {
        LexAntisymmetric(a, b);
      }
    }
    var k :| k in s && forall j :: j in s ==> LexLeq(k, j);
    k
  }
}
