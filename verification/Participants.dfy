/** A participant: its RPC handlers as functions on its state, and the class that runs them. */
module Participants {
  import opened KeyValue
  import opened Ordering
  import Resp
  import Snapshot
  import Text

  /**
   * The state of one participant. `pending` is the ordered set of prepared commands keyed by id.
   * `applied` is history: the commands applied so far, with their ids, in order.
   */
  datatype Node = Node(
    next: nat,
    pending: map<nat, Command>,
    store: Store,
    applied: seq<(nat, Command)>)

  // ----- the handlers as functions

  /** PREPARE_SET and PREPARE_DEL: inserting an id that is already there changes nothing. */
  function Prepare(n: Node, id: nat, c: Command): Node {
    n.(pending := if id in n.pending then n.pending else n.pending[id := c])
  }

  datatype CommitResult =
    | Answer(text: string)
    | Throws     // the handler throws and the server goes down
    | Undefined  // begin() of an empty set is dereferenced

  function CommitAnswer(n: Node, id: nat): CommitResult {
    if n.next > id then Answer("")
    else if n.next < id then Throws
    else if n.pending == map[] then Undefined
    else
      var first := Least(n.pending.Keys);
      if first != n.next then Throws else Answer(Reply(n.pending[first], n.store))
  }

  /** Whether COMMIT(id) applies a command: the id is current and heads the pending set. */
  predicate Applies(n: Node, id: nat) {
    n.next == id && n.pending != map[] && Least(n.pending.Keys) == id
  }

  function Commit(n: Node, id: nat): Node {
    if Applies(n, id) then
      Node(id + 1, n.pending - {id}, Apply(n.pending[id], n.store), n.applied + [(id, n.pending[id])])
    else n
  }

  function DropFirst(pending: map<nat, Command>): map<nat, Command> {
    if pending == map[] then pending else pending - {Least(pending.Keys)}
  }

  function Abort(n: Node, id: nat): Node {
    if n.next == id then n.(pending := DropFirst(n.pending), next := n.next + 1)
    else if id > n.next then n.(next := id + 1)
    else n
  }

  function SetNextId(n: Node, v: nat): Node {
    n.(next := v)
  }

  function Recover(n: Node, data: string, dels: set<string>): Node {
    n.(store := Snapshot.Recover(data, dels, n.store).store)
  }

  function GetReply(st: Store, key: string): string {
    Resp.EncodeResult(if key in st then st[key] else "nil")
  }

  // ----- facts about the handlers

  /** A COMMIT that is repeated leaves the participant as it is. */
  lemma RepeatedCommitIsIdempotent(n: Node, id: nat)
    ensures Commit(Commit(n, id), id) == Commit(n, id)
    ensures Applies(n, id) ==> CommitAnswer(Commit(n, id), id) == Answer("")
  {
    if Applies(n, id) {
      assert id in n.pending;
    }
  }

  /** The commit handler answers a fresh id exactly when it applies the command. */
  lemma CommitAnswersIffApplied(n: Node, id: nat)
    ensures CommitAnswer(n, id).Answer? && n.next == id <==> Applies(n, id)
    ensures !CommitAnswer(n, id).Answer? ==> Commit(n, id) == n
  {
  }

  /** What a GET of an absent key replies. */
  lemma NilReply()
    ensures Resp.EncodeResult("nil") == "*1\r\n$3\r\nnil\r\n"
    ensures forall st: Store, key :: key !in st ==> GetReply(st, key) == "*1\r\n$3\r\nnil\r\n"
  {
    Resp.SplitOne("nil");
    Resp.EncodeOne("nil");
    Text.DecimalOne(1);
    Text.DecimalOne(3);
  }

  /** An ABORT of the current id leaves nothing pending behind, if nothing else was. */
  lemma AbortRemoves(n: Node, id: nat)
    requires n.next == id && forall j :: j in n.pending ==> j == id
    ensures Abort(n, id).pending == map[] && Abort(n, id).next == id + 1
  {
    if n.pending != map[] {
      var k :| k in n.pending;
      assert n.pending.Keys == {id};
    }
  }

  lemma PresentStep(keys: seq<string>, i: nat, st: Store)
    requires i < |keys|
    ensures KeySet(keys[..i + 1]) == KeySet(keys[..i]) + {keys[i]}
    ensures Present(keys[..i + 1], st) ==
            Present(keys[..i], st) + if keys[i] in st && keys[i] !in keys[..i] then 1 else 0
  {
    var front := keys[..i];
    assert keys[..i + 1] == front + [keys[i]];
    assert KeySet(front + [keys[i]]) == KeySet(front) + {keys[i]};
    var a, b := KeySet(front) * st.Keys, (KeySet(front) + {keys[i]}) * st.Keys;
    if keys[i] in st && keys[i] !in front {
      assert b == a + {keys[i]};
    } else {
      assert b == a;
    }
  }

  /** The store, and the count of keys found, after the first i deletions of a DEL. */
  ghost function Left(keys: seq<string>, i: nat, st: Store): Store
    requires i <= |keys|
  {
    st - KeySet(keys[..i])
  }

  ghost function Found(keys: seq<string>, i: nat, st: Store): nat
    requires i <= |keys|
  {
    Present(keys[..i], st)
  }

  lemma DelStep(keys: seq<string>, i: nat, st: Store)
    requires i < |keys|
    ensures Left(keys, i + 1, st) == Left(keys, i, st) - {keys[i]}
    ensures Found(keys, i + 1, st) == Found(keys, i, st) + if keys[i] in Left(keys, i, st) then 1 else 0
  {
    PresentStep(keys, i, st);
    assert keys[i] in KeySet(keys[..i]) <==> keys[i] in keys[..i];
    hide KeySet, Present;
    RemoveOne(st, KeySet(keys[..i]), keys[i]);
  }

  lemma RemoveOne(st: Store, gone: set<string>, k: string)
    ensures st - (gone + {k}) == st - gone - {k}
    ensures k in st - gone <==> k in st && k !in gone
  {
  }

  lemma DelEnds(keys: seq<string>, st: Store)
    ensures Left(keys, 0, st) == st && Found(keys, 0, st) == 0
    ensures Left(keys, |keys|, st) == st - KeySet(keys) && Found(keys, |keys|, st) == Present(keys, st)
  {
    assert KeySet(keys[..0]) == {};
    assert keys[..|keys|] == keys;
  }

  lemma DelDoes(keys: seq<string>, st: Store)
    ensures Left(keys, 0, st) == st && Found(keys, 0, st) == 0
    ensures Left(keys, |keys|, st) == Apply(Del(keys), st) == st - (set k | k in keys)
    ensures var n := Found(keys, |keys|, st);
      && n == |set k | k in keys && k in st|
      && Reply(Del(keys), st) == if n == 0 then "-ERROR\r\n" else ":" + Text.Decimal(n) + "\r\n"
  {
    ReplyText(Del(keys), st);
    assert KeySet(keys) * st.Keys == set k | k in keys && k in st;
    DelEnds(keys, st);
    hide Left, Found, Reply, Text.Decimal;
  }

  lemma {:induction false} CommitCases(n: Node, id: nat)
    ensures id < n.next ==> CommitAnswer(n, id) == Answer("") && Commit(n, id) == n
    ensures n.next < id ==> CommitAnswer(n, id) == Throws && Commit(n, id) == n
    ensures n.next == id && n.pending == map[] ==> CommitAnswer(n, id) == Undefined && Commit(n, id) == n
    ensures n.next == id && n.pending != map[] ==>
              var first := Least(n.pending.Keys);
              && first in n.pending && (forall j :: j in n.pending ==> first <= j)
              && if first != id then CommitAnswer(n, id) == Throws && Commit(n, id) == n
                 else
                   && CommitAnswer(n, id) == Answer(Reply(n.pending[id], n.store))
                   && Commit(n, id) == Node(id + 1, n.pending - {id}, Apply(n.pending[id], n.store),
                                            n.applied + [(id, n.pending[id])])
  {
    hide Reply, Apply;
  }

  /** The participant server. The mutex makes each handler one atomic step. */
  class Participant {
    var nextId: nat
    var dbRequests: map<nat, Command>
    var db: Store
    ghost var applied: seq<(nat, Command)>

    ghost function View(): Node
      reads this
    {
      Node(nextId, dbRequests, db, applied)
    }

    constructor (storage: Store)
      ensures View() == Node(0, map[], storage, [])
    {
      nextId, dbRequests, db, applied := 0, map[], storage, [];
    }

    method HandleGet(key: string) returns (r: string)
      ensures r == GetReply(db, key)
      ensures key !in db ==> r == "*1\r\n$3\r\nnil\r\n"
    {
      NilReply();
      if key in db {
        r := Resp.BuildResult(db[key]);
      } else {
        r := Resp.BuildResult("nil");
      }
    }

    /** PREPARE_SET and PREPARE_DEL. Logging comes first; if it throws, nothing changes. */
    method HandlePrepare(id: nat, c: Command, logged: bool) returns (ok: bool)
      modifies this
      ensures ok == logged
      ensures View() == if logged then Prepare(old(View()), id, c) else old(View())
      ensures logged && id !in old(dbRequests) ==> dbRequests == old(dbRequests)[id := c]
      ensures !logged || id in old(dbRequests) ==> dbRequests == old(dbRequests)
      ensures nextId == old(nextId) && db == old(db) && applied == old(applied)
    {
      if !logged {
        return false;
      }
      if id !in dbRequests {
        dbRequests := dbRequests[id := c];
      }
      ok := true;
    }

    method HandleSet(key: string, value: string) returns (r: string)
      modifies this`db
      ensures db == Apply(Set(key, value), old(db)) && r == Reply(Set(key, value), old(db))
      ensures db == old(db)[key := value] && r == "+OK\r\n"
    {
      db := db[key := value];
      r := OK_REPLY;
    }

    /** Deletes key by key, counting the keys that were there when their turn came. */
    method HandleDel(keys: seq<string>) returns (r: string)
      modifies this`db
      ensures db == Apply(Del(keys), old(db)) && r == Reply(Del(keys), old(db))
      ensures db == old(db) - (set k | k in keys)
      ensures var n := |set k | k in keys && k in old(db)|;
              r == if n == 0 then "-ERROR\r\n" else ":" + Text.Decimal(n) + "\r\n"
    {
      ReplyText(Del(keys), db);
      var count := 0;
      var i := 0;
      ghost var was := db;
      DelDoes(keys, was);
      hide Left, Found, Apply, Reply, Text.Decimal;
      while i < |keys|
        invariant 0 <= i <= |keys|
        invariant db == Left(keys, i, was) && count == Found(keys, i, was)
      {
        DelStep(keys, i, was);
        var exists_ := keys[i] in db;
        db := db - {keys[i]};
        if exists_ {
          count := count + 1;
        }
        i := i + 1;
      }
      if count == 0 {
        return ERROR_REPLY;
      }
      r := ":" + Text.Decimal(count) + Text.SEPARATOR;
    }

    /** COMMIT. An id that is neither passed nor current-and-first is an error, and changes nothing. */
    method HandleCommit(id: nat) returns (r: CommitResult)
      modifies this
      ensures r == CommitAnswer(old(View()), id)
      ensures View() == Commit(old(View()), id)
      ensures id < old(nextId) ==> r == Answer("") && View() == old(View())
      ensures old(nextId) < id ==> r == Throws && View() == old(View())
      ensures old(nextId) == id ==>
                if forall j :: j in old(dbRequests) ==> id < j then
                  View() == old(View()) && r == if old(dbRequests) == map[] then Undefined else Throws
                else if exists j :: j in old(dbRequests) && j < id then
                  View() == old(View()) && r == Throws
                else
                  && nextId == id + 1 && dbRequests == old(dbRequests) - {id}
                  && applied == old(applied) + [(id, old(dbRequests)[id])]
                  && db == Apply(old(dbRequests)[id], old(db)) && r == Answer(Reply(old(dbRequests)[id], old(db)))
    {
      CommitCases(View(), id);
      hide Commit, CommitAnswer, Reply, Apply, Least;
      if nextId > id {
        return Answer("");
      }
      if nextId < id {
        return Throws;
      }
      if dbRequests == map[] {
        return Undefined;
      }
      var first := Least(dbRequests.Keys);
      if first != nextId {
        return Throws;
      }
      nextId := nextId + 1;
      var text;
      match dbRequests[first] {
        case Set(key, value) => text := HandleSet(key, value);
        case Del(keys) => text := HandleDel(keys);
      }
      applied := applied + [(id, dbRequests[first])];
      dbRequests := dbRequests - {first};
      r := Answer(text);
    }

    method HandleAbort(id: nat) returns (ok: bool)
      modifies this
      ensures ok && View() == Abort(old(View()), id)
      ensures old(nextId) != id ==>
                dbRequests == old(dbRequests) && nextId == if old(nextId) < id then id + 1 else old(nextId)
      ensures old(nextId) == id ==> nextId == id + 1
      ensures old(nextId) == id && old(dbRequests) == map[] ==> dbRequests == map[]
      ensures old(nextId) == id && old(dbRequests) != map[] ==>
                exists k :: k in old(dbRequests) && (forall j :: j in old(dbRequests) ==> k <= j) &&
                            dbRequests == old(dbRequests) - {k}
      ensures db == old(db) && applied == old(applied)
    {
      ok := true;
      if nextId != id {
        if id > nextId {
          nextId := id + 1;
        }
        return;
      }
      if dbRequests != map[] {
        dbRequests := dbRequests - {Least(dbRequests.Keys)};
      }
      nextId := nextId + 1;
    }

    method HandleSetNextId(v: nat)
      modifies this
      ensures View() == SetNextId(old(View()), v)
      ensures nextId == v && dbRequests == old(dbRequests) && db == old(db) && applied == old(applied)
    {
      nextId := v;
    }

    /** GET_SNAPSHOT: walks the store in key order. */
    method HandleGetSnapshot() returns (data: string)
      ensures data == Snapshot.Encode(db)
    {
      Snapshot.EncodeNone();
      hide Snapshot.Encode, Snapshot.EncodePair;
      data := "";
      var rest := db;
      assert "" + Snapshot.Encode(db) == Snapshot.Encode(db);
      while rest != map[]
        invariant data + Snapshot.Encode(rest) == Snapshot.Encode(db)
        decreases |rest|
      {
        var k := LeastKey(rest.Keys);
        Snapshot.EncodePeel(data, rest);
        data := data + Snapshot.EncodePair(k, rest[k]);
        assert |rest - {k}| < |rest| by {
          assert (rest - {k}).Keys == rest.Keys - {k};
        }
        rest := rest - {k};
      }
      assert data + "" == data;
    }

    method DeleteKeys(delKeys: set<string>)
      modifies this`db
      ensures db == old(db) - delKeys
    {
      var todo := delKeys;
      while todo != {}
        invariant todo <= delKeys && db == old(db) - (delKeys - todo)
        decreases |todo|
      {
        var key := LeastKey(todo);
        db := db - {key};
        todo := todo - {key};
      }
      assert delKeys - todo == delKeys;
    }

    /** RECOVER: the deletions, then a byte cursor over the snapshot. False on truncated length bytes. */
    method HandleRecover(data: string, delKeys: set<string>) returns (r: Snapshot.Installed)
      modifies this`db
      ensures r == Snapshot.Recover(data, delKeys, old(db))
      ensures View() == Recover(old(View()), data, delKeys)
    {
      DeleteKeys(delKeys);
      ghost var start := db;
      var i := 0;
      while i < |data|
        invariant Snapshot.Install(data, i, db) == Snapshot.Install(data, 0, start)
      {
        var key := Snapshot.ReadItem(data, i);
        if key.Missing? {
          return Snapshot.Malformed(db);
        }
        if key.Overrun? {
          return Snapshot.Undefined(db);
        }
        i := key.after;
        var value := Snapshot.ReadItem(data, i);
        if value.Missing? {
          return Snapshot.Malformed(db);
        }
        if value.Overrun? {
          return Snapshot.Undefined(db);
        }
        i := value.after;
        db := db[key.item := value.item];
      }
      r := Snapshot.Recovered(db);
    }
  }
}
