/**
 * A round of calls over participants_: the loop asks member after member and erases those that do not
 * stay, while its iterator stands behind the ones that do.
 */
module Rounds {
  import opened Participants
  import opened Protocol

  /** The labels of a round. */
  function CallsOf(os: seq<Outcome>): seq<Label> {
    seq(|os|, i requires 0 <= i < |os| => Call(os[i]))
  }

  lemma CallsOn(ls: seq<Label>, os: seq<Outcome>, o: Outcome)
    ensures ls + CallsOf(os + [o]) == ls + CallsOf(os) + [Call(o)]
  {
  }

  /** `was` before the round; |keep| members have been called, and keep says which of them stay. */
  ghost predicate Kept(was: seq<Addr>, now: seq<Addr>, i: nat, keep: seq<bool>) {
    && |keep| <= |was| && i <= |now|
    && now[i..] == was[|keep|..]
    && (forall j :: 0 <= j < |keep| ==> (was[j] in now[..i] <==> keep[j]))
    && (forall a :: a in now[..i] ==> a in was[..|keep|])
  }

  lemma KeptFirst(was: seq<Addr>)
    ensures Kept(was, was, 0, [])
  {
  }

  lemma {:induction false} KeptOn(was: seq<Addr>, now: seq<Addr>, i: nat, keep: seq<bool>)
    requires Kept(was, now, i, keep) && i < |now| && Ascending(was)
    ensures |keep| < |was| && now[i] == was[|keep|]
    ensures Kept(was, now, i + 1, keep + [true])
    ensures Kept(was, Erase(now, i), i, keep + [false])
  {
    var m := |keep|;
    assert now[i..][0] == now[i] && was[m..][0] == was[m];
    assert now[i + 1..] == now[i..][1..] == was[m + 1..];
    assert now[..i + 1] == now[..i] + [now[i]] && was[..m + 1] == was[..m] + [was[m]];
    assert Erase(now, i)[i..] == now[i + 1..] && Erase(now, i)[..i] == now[..i];
    assert forall j :: 0 <= j < m ==> was[j] != was[m];
    assert was[m] !in was[..m];
  }

  /** Behind the round, or where it is broken off: who is left. */
  lemma {:induction false} KeptLast(was: seq<Addr>, now: seq<Addr>, i: nat, keep: seq<bool>)
    requires Kept(was, now, i, keep) && Ascending(was)
    ensures forall j :: 0 <= j < |was| ==> (was[j] in now <==> j >= |keep| || keep[j])
    ensures forall a :: a in now ==> a in was
    ensures i == |now| <==> |keep| == |was|
  {
    assert now == now[..i] + now[i..] && was == was[..|keep|] + was[|keep|..];
    forall j | 0 <= j < |was| ensures was[j] in now <==> j >= |keep| || keep[j] {
      if j >= |keep| {
        assert was[j] == was[|keep|..][j - |keep|];
      } else {
        assert was[j] !in was[|keep|..];
      }
    }
  }

  /** Where a call executed its handler f has run once, and nowhere else. */
  ghost predicate Touched(was: seq<Addr>, os: seq<Outcome>, f: Node -> Node, nodes: map<Addr, Node>,
                          nodes': map<Addr, Node>) {
    && |os| <= |was| && nodes'.Keys == nodes.Keys
    && (forall j :: 0 <= j < |os| && was[j] in nodes ==>
          nodes'[was[j]] == if os[j].Done? || os[j].Lost? then f(nodes[was[j]]) else nodes[was[j]])
    && (forall a :: a in nodes && a !in was[..|os|] ==> nodes'[a] == nodes[a])
  }

  lemma TouchedFirst(was: seq<Addr>, f: Node -> Node, nodes: map<Addr, Node>)
    ensures Touched(was, [], f, nodes, nodes)
  {
  }

  lemma {:induction false} TouchedOn(was: seq<Addr>, os: seq<Outcome>, f: Node -> Node, nodes: map<Addr, Node>,
                                     nodes1: map<Addr, Node>, o: Outcome, nodes2: map<Addr, Node>)
    requires Touched(was, os, f, nodes, nodes1) && |os| < |was| && Ascending(was) && was[|os|] in nodes
    requires nodes2 == if o.Done? || o.Lost? then nodes1[was[|os|] := f(nodes1[was[|os|]])] else nodes1
    ensures nodes1[was[|os|]] == nodes[was[|os|]]
    ensures Touched(was, os + [o], f, nodes, nodes2)
  {
    var m := |os|;
    assert was[..m + 1] == was[..m] + [was[m]];
    assert was[m] !in was[..m];
  }

  /** A round under way: who has been called so far, who of them stays, and what the calls did. */
  ghost predicate Round(was: seq<Addr>, now: seq<Addr>, i: nat, keep: seq<bool>, os: seq<Outcome>, f: Node -> Node,
                        nodes: map<Addr, Node>, nodes': map<Addr, Node>) {
    && Ascending(was) && |keep| == |os|
    && Kept(was, now, i, keep) && Touched(was, os, f, nodes, nodes')
  }

  lemma RoundFirst(was: seq<Addr>, f: Node -> Node, nodes: map<Addr, Node>)
    requires Ascending(was)
    ensures Round(was, was, 0, [], [], f, nodes, nodes)
  {
    KeptFirst(was);
    TouchedFirst(was, f, nodes);
  }

  /** Whom the iterator is on: a member not called before, in the state it had before the round. */
  lemma {:induction false} RoundAt(was: seq<Addr>, now: seq<Addr>, i: nat, keep: seq<bool>, os: seq<Outcome>, f: Node -> Node,
                                   nodes: map<Addr, Node>, nodes1: map<Addr, Node>)
    requires Round(was, now, i, keep, os, f, nodes, nodes1) && i < |now| && now[i] in nodes1
    ensures |os| < |was| && now[i] == was[|os|] && now[i] in nodes && nodes1[now[i]] == nodes[now[i]]
  {
    KeptOn(was, now, i, keep);
    TouchedOn(was, os, f, nodes, nodes1, Dropped, nodes1);
  }

  lemma {:induction false} RoundOn(was: seq<Addr>, now: seq<Addr>, i: nat, keep: seq<bool>, os: seq<Outcome>, f: Node -> Node,
                                   nodes: map<Addr, Node>, nodes1: map<Addr, Node>, o: Outcome, nodes2: map<Addr, Node>)
    requires Round(was, now, i, keep, os, f, nodes, nodes1) && i < |now| && now[i] in nodes1
    requires nodes2 == if o.Done? || o.Lost? then nodes1[now[i] := f(nodes1[now[i]])] else nodes1
    ensures Round(was, now, i + 1, keep + [true], os + [o], f, nodes, nodes2)
    ensures Round(was, Erase(now, i), i, keep + [false], os + [o], f, nodes, nodes2)
  {
    KeptOn(was, now, i, keep);
    TouchedOn(was, os, f, nodes, nodes1, o, nodes2);
    hide Kept, Touched, Ascending, Erase;
  }

  lemma {:induction false} RoundLast(was: seq<Addr>, now: seq<Addr>, i: nat, keep: seq<bool>, os: seq<Outcome>, f: Node -> Node,
                                     nodes: map<Addr, Node>, nodes': map<Addr, Node>)
    requires Round(was, now, i, keep, os, f, nodes, nodes')
    ensures |keep| == |os| <= |was| && Touched(was, os, f, nodes, nodes')
    ensures forall j :: 0 <= j < |was| ==> (was[j] in now <==> j >= |os| || keep[j])
    ensures forall a :: a in now ==> a in was
    ensures i == |now| <==> |os| == |was|
  {
    KeptLast(was, now, i, keep);
  }

  ghost predicate SomeRefused(os: seq<Outcome>) {
    exists j :: 0 <= j < |os| && os[j].Refused?
  }

  ghost predicate SomePrepared(os: seq<Outcome>) {
    exists j :: 0 <= j < |os| && os[j].Done?
  }

  /** Member j of a COMMIT round was reached, and its handler answered. */
  ghost predicate Answers(was: seq<Addr>, os: seq<Outcome>, nodes: map<Addr, Node>, id: nat, j: nat) {
    j < |was| && j < |os| && was[j] in nodes && os[j].Done? && CommitAnswer(nodes[was[j]], id).Answer?
  }

  lemma AnswersOn(was: seq<Addr>, os: seq<Outcome>, nodes: map<Addr, Node>, id: nat, o: Outcome)
    requires |os| < |was| && was[|os|] in nodes
    ensures forall j: nat :: j < |os| ==> (Answers(was, os + [o], nodes, id, j) <==> Answers(was, os, nodes, id, j))
    ensures Answers(was, os + [o], nodes, id, |os|) <==> o.Done? && CommitAnswer(nodes[was[|os|]], id).Answer?
  {
    hide CommitAnswer;
  }

  /** ret is the first text among the answers that is not empty; it is empty if they all are. */
  ghost predicate FirstText(was: seq<Addr>, os: seq<Outcome>, nodes: map<Addr, Node>, id: nat, ret: string) {
    if ret == "" then
      forall j: nat :: Answers(was, os, nodes, id, j) ==> CommitAnswer(nodes[was[j]], id).text == ""
    else
      exists j: nat ::
        && Answers(was, os, nodes, id, j) && CommitAnswer(nodes[was[j]], id).text == ret
        && forall k: nat :: k < j && Answers(was, os, nodes, id, k) ==> CommitAnswer(nodes[was[k]], id).text == ""
  }

  lemma FirstTextNone(was: seq<Addr>, nodes: map<Addr, Node>, id: nat)
    ensures FirstText(was, [], nodes, id, "")
  {
  }

  lemma {:induction false} FirstTextOn(was: seq<Addr>, os: seq<Outcome>, nodes: map<Addr, Node>, id: nat,
                                       ret: string, o: Outcome)
    requires FirstText(was, os, nodes, id, ret) && |os| < |was| && was[|os|] in nodes
    ensures var answer := CommitAnswer(nodes[was[|os|]], id);
            FirstText(was, os + [o], nodes, id,
                      if ret == "" && o.Done? && answer.Answer? then answer.text else ret)
  {
    hide CommitAnswer;
    var more := os + [o];
    var m := |os|;
    assert forall j: nat :: j < m ==> (Answers(was, more, nodes, id, j) <==> Answers(was, os, nodes, id, j));
    assert forall j: nat :: Answers(was, more, nodes, id, j) ==> j <= m;
    assert forall j: nat :: Answers(was, os, nodes, id, j) ==> j < m;
    if ret != "" {
      var j: nat :|
        && Answers(was, os, nodes, id, j) && CommitAnswer(nodes[was[j]], id).text == ret
        && forall k: nat :: k < j && Answers(was, os, nodes, id, k) ==> CommitAnswer(nodes[was[k]], id).text == "";
      assert Answers(was, more, nodes, id, j);
    } else {
      var answer := CommitAnswer(nodes[was[m]], id);
      if o.Done? && answer.Answer? && answer.text != "" {
        assert Answers(was, more, nodes, id, m);
      }
    }
  }
}
