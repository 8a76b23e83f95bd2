/** The snapshot of a store as bytes, and its installation on another store (participant.cpp). */
module Snapshot {
  import opened KeyValue
  import Ordering

  /** The largest item length that the two signed length bytes can carry. */
  const LIMIT := 32767

  predicate Fits(s: string) {
    |s| <= LIMIT
  }

  predicate SmallStore(st: Store) {
    forall k :: k in st ==> Fits(k) && Fits(st[k])
  }

  predicate SmallCommand(c: Command) {
    c.Set? ==> Fits(c.key) && Fits(c.value)
  }

  /** static_cast<short>: the low 16 bits read as a signed number. */
  function ToShort(n: nat): (v: int)
    ensures -32768 <= v <= 32767
    ensures n <= LIMIT ==> v == n
  {
    var m := n % 65536;
    if m < 32768 then m else m - 65536
  }

  // ----- encoding

  /** Two length bytes, low byte first, and the bytes themselves. */
  function EncodeItem(s: string): (bs: string)
    ensures |bs| == 2 + |s| && bs[2..] == s
  {
    [(|s| % 256) as char, (|s| / 256 % 256) as char] + s
  }

  function EncodePair(k: string, v: string): (bs: string)
    ensures |bs| == 4 + |k| + |v|
  {
    EncodeItem(k) + EncodeItem(v)
  }

  lemma EncodePeel(pre: string, st: Store)
    requires st != map[]
    ensures var k := Ordering.LeastKey(st.Keys);
            pre + Encode(st) == pre + EncodePair(k, st[k]) + Encode(st - {k})
  {
  }

  /** The pairs of a store in key order, as a leveldb iterator lists them. */
  function Encode(st: Store): string {
    if st == map[] then "" else
      var k := Ordering.LeastKey(st.Keys);
      EncodePair(k, st[k]) + Encode(st - {k})
  }

  lemma EncodeNone()
    ensures Encode(map[]) == ""
  {
  }

  // ----- installing

  datatype ItemResult =
    | Item(item: string, after: nat)  // the item and the position behind it
    | Missing                         // the length bytes are cut off: the handler returns false
    | Overrun                         // the length is negative or reaches past the end: undefined in the source

  /** The item whose length bytes are at position i. */
  function ReadItem(data: string, i: nat): (r: ItemResult)
    ensures r.Item? ==> i + 2 <= r.after <= |data| && r.item == data[i + 2..r.after] && Fits(r.item)
  {
    if i + 1 >= |data| then Missing else
      var size := ToShort(data[i] as int % 256 + 256 * (data[i + 1] as int % 256));
      if size < 0 || i + 2 + size > |data| then Overrun else Item(data[i + 2..i + 2 + size], i + 2 + size)
  }

  /** How installing ends, and the store it leaves behind. */
  datatype Installed = Recovered(store: Store) | Malformed(store: Store) | Undefined(store: Store)

  /** Puts every pair from position i on into the store, stopping at the first malformed one. */
  function Install(data: string, i: nat, st: Store): Installed
    decreases |data| - i
  {
    if i >= |data| then Recovered(st) else
      var key := ReadItem(data, i);
      if key.Missing? then Malformed(st)
      else if key.Overrun? then Undefined(st)
      else
        var value := ReadItem(data, key.after);
        if value.Missing? then Malformed(st)
        else if value.Overrun? then Undefined(st)
        else Install(data, value.after, st[key.item := value.item])
  }

  /** RECOVER: first the deletions, then the snapshot. */
  function Recover(data: string, dels: set<string>, st: Store): Installed {
    Install(data, 0, st - dels)
  }

  // ----- round trip

  lemma ReadEncodedItem(pre: string, s: string, rest: string)
    requires Fits(s)
    ensures ReadItem(pre + EncodeItem(s) + rest, |pre|) == Item(s, |pre| + 2 + |s|)
  {
    var d := pre + EncodeItem(s) + rest;
    assert |s| % 256 + 256 * (|s| / 256 % 256) == |s|;
    assert d[|pre|] == EncodeItem(s)[0] && d[|pre| + 1] == EncodeItem(s)[1];
    assert d[|pre| + 2..|pre| + 2 + |s|] == s;
  }

  lemma {:induction false} InstallEncodedPair(pre: string, k: string, v: string, rest: string, st: Store)
    requires Fits(k) && Fits(v)
    ensures var d := pre + EncodePair(k, v) + rest;
            Install(d, |pre|, st) == Install(d, |pre + EncodePair(k, v)|, st[k := v])
  {
    var d := pre + EncodePair(k, v) + rest;
    assert d == pre + EncodeItem(k) + (EncodeItem(v) + rest);
    ReadEncodedItem(pre, k, EncodeItem(v) + rest);
    assert d == (pre + EncodeItem(k)) + EncodeItem(v) + rest;
    ReadEncodedItem(pre + EncodeItem(k), v, rest);
  }

  lemma OverlayPeel(st: Store, snap: Store, k: string)
    requires k in snap
    ensures st[k := snap[k]] + (snap - {k}) == st + snap
  {
  }

  lemma {:induction false} InstallEncoded(pre: string, snap: Store, st: Store)
    requires SmallStore(snap)
    ensures Install(pre + Encode(snap), |pre|, st) == Recovered(st + snap)
    decreases |snap|
  {
    if snap == map[] {
      assert st + snap == st;
    } else {
      var k := Ordering.LeastKey(snap.Keys);
      var v := snap[k];
      var rest := snap - {k};
      EncodePeel(pre, snap);
      InstallEncodedPair(pre, k, v, Encode(rest), st);
      InstallEncoded(pre + EncodePair(k, v), rest, st[k := v]);
      OverlayPeel(st, snap, k);
    }
  }

  /** RECOVER of a snapshot leaves the target minus the deletions, overlaid by the snapshotted store. */
  lemma {:induction false} RecoverRoundTrip(snap: Store, dels: set<string>, st: Store)
    requires SmallStore(snap)
    ensures Recover(Encode(snap), dels, st) == Recovered((st - dels) + snap)
  {
    InstallEncoded("", snap, st - dels);
    assert "" + Encode(snap) == Encode(snap);
  }

  /** RECOVER makes the target equal to the donor iff each surplus key of the target is deleted. */
  lemma {:induction false} RecoverIsExactIff(snap: Store, dels: set<string>, st: Store)
    requires SmallStore(snap)
    ensures Recover(Encode(snap), dels, st) == Recovered(snap) <==> st.Keys <= snap.Keys + dels
  {
    RecoverRoundTrip(snap, dels, st);
    var r := (st - dels) + snap;
    if st.Keys <= snap.Keys + dels {
      assert r.Keys == snap.Keys;
      assert r == snap;
    } else {
      var k :| k in st && k !in snap && k !in dels;
      assert k in r;
    }
  }

  lemma {:induction false} InstallKeepsSmall(data: string, i: nat, st: Store)
    requires SmallStore(st)
    ensures SmallStore(Install(data, i, st).store)
    decreases |data| - i
  {
    if i >= |data| {
    } else {
      var key := ReadItem(data, i);
      if key.Item? {
        var value := ReadItem(data, key.after);
        if value.Item? {
          InstallKeepsSmall(data, value.after, st[key.item := value.item]);
        }
      }
    }
  }

  /** A snapshot can be restored on an empty store exactly when no key or value is over the limit. */
  lemma {:induction false} RestorableIffSmall(snap: Store)
    ensures Recover(Encode(snap), {}, map[]) == Recovered(snap) <==> SmallStore(snap)
  {
    var none: Store := map[];
    assert none - {} == none;
    if SmallStore(snap) {
      RecoverRoundTrip(snap, {}, none);
      assert (none - {}) + snap == snap;
    } else {
      InstallKeepsSmall(Encode(snap), 0, none);
    }
  }

  // ----- arbitrary bytes

  type Pair = (string, string)

  function EncodePairs(ps: seq<Pair>): string {
    if ps == [] then "" else EncodePair(ps[0].0, ps[0].1) + EncodePairs(ps[1..])
  }

  /** The store after putting the pairs one after the other. */
  function PutAll(st: Store, ps: seq<Pair>): Store
    decreases |ps|
  {
    if ps == [] then st else PutAll(st[ps[0].0 := ps[0].1], ps[1..])
  }

  /** Breaks off in front of the length bytes of a value, or between two length bytes. */
  ghost predicate CutOff(tail: string) {
    || |tail| == 1
    || exists k, rest :: Fits(k) && tail == EncodeItem(k) + rest && |rest| <= 1
  }

  /** Starts with a length that is negative as a short, or reaches past the end. */
  predicate Overruns(tail: string) {
    |tail| >= 2 && var n := tail[0] as int + 256 * tail[1] as int; n > 32767 || 2 + n > |tail|
  }

  ghost predicate Broken(tail: string) {
    Overruns(tail) || exists k, rest :: Fits(k) && tail == EncodeItem(k) + rest && Overruns(rest)
  }

  predicate Bytes(data: string) {
    forall i :: 0 <= i < |data| ==> data[i] < 256 as char
  }

  /** The bytes are whole pairs and a tail; all of the pairs are in r, and it says what the tail is. */
  ghost predicate Reads(data: string, st: Store, ps: seq<Pair>, tail: string, r: Installed) {
    && data == EncodePairs(ps) + tail
    && (forall i :: 0 <= i < |ps| ==> Fits(ps[i].0) && Fits(ps[i].1))
    && r.store == PutAll(st, ps)
    && match r
       case Recovered(_) => tail == ""
       case Malformed(_) => CutOff(tail)
       case Undefined(_) => Broken(tail)
  }

  lemma LengthBytes(a: nat, b: nat)
    requires a < 256 && b < 256
    ensures (a + 256 * b) % 256 == a && (a + 256 * b) / 256 % 256 == b
  {
  }

  /** An item that is read is an encoded one. */
  lemma {:induction false} ReadIsEncoded(data: string, i: nat)
    requires Bytes(data) && i <= |data|
    ensures var r := ReadItem(data, i);
            match r
            case Item(item, after) =>
              Fits(item) && i + 2 <= after <= |data| && data[i..] == EncodeItem(item) + data[after..]
            case Missing => |data[i..]| <= 1
            case Overrun => Overruns(data[i..])
  {
    if i + 1 < |data| {
      var a, b := data[i] as int, data[i + 1] as int;
      var r := ReadItem(data, i);
      if r.Item? {
        assert a < 256 && b < 256 && |r.item| == a + 256 * b;
        LengthBytes(a, b);
        assert data[i..] == [data[i], data[i + 1]] + data[i + 2..];
        assert data[i + 2..] == r.item + data[r.after..];
      }
    }
  }

  lemma ReadsOn(k: string, v: string, rest: string, st: Store, ps: seq<Pair>, tail: string, r: Installed)
    requires Fits(k) && Fits(v) && Reads(rest, st[k := v], ps, tail, r)
    ensures Reads(EncodeItem(k) + EncodeItem(v) + rest, st, [(k, v)] + ps, tail, r)
  {
    var all := [(k, v)] + ps;
    assert all[1..] == ps;
    hide CutOff, Broken, EncodeItem;
    assert EncodePairs(all) + tail == EncodeItem(k) + EncodeItem(v) + (EncodePairs(ps) + tail);
  }

  lemma ReadsTail(tail: string, st: Store, r: Installed)
    requires r.store == st
    requires if r.Recovered? then tail == "" else if r.Malformed? then CutOff(tail) else Broken(tail)
    ensures Reads(tail, st, [], tail, r)
  {
    hide CutOff, Broken;
    assert EncodePairs([]) + tail == tail;
  }

  lemma CutAtOnce(tail: string)
    ensures |tail| == 1 ==> CutOff(tail)
    ensures Overruns(tail) ==> Broken(tail)
  {
  }

  lemma CutBehind(k: string, rest: string)
    requires Fits(k)
    ensures |rest| <= 1 ==> CutOff(EncodeItem(k) + rest)
    ensures Overruns(rest) ==> Broken(EncodeItem(k) + rest)
  {
    hide EncodeItem, Overruns;
  }

  lemma {:induction false} InstallReads(data: string, i: nat, st: Store) returns (ps: seq<Pair>, tail: string)
    requires Bytes(data) && i <= |data|
    ensures Reads(data[i..], st, ps, tail, Install(data, i, st))
    decreases |data| - i
  {
    hide Reads, EncodeItem, ReadItem, CutOff, Bytes, Overruns;
    ps, tail := [], data[i..];
    CutAtOnce(tail);
    if i < |data| {
      var key := ReadItem(data, i);
      ReadIsEncoded(data, i);
      if key.Item? {
        var value := ReadItem(data, key.after);
        ReadIsEncoded(data, key.after);
        CutBehind(key.item, data[key.after..]);
        if value.Item? {
          ps, tail := InstallReads(data, value.after, st[key.item := value.item]);
          ReadsOn(key.item, value.item, data[value.after..], st, ps, tail, Install(data, i, st));
          assert data[i..] == EncodeItem(key.item) + EncodeItem(value.item) + data[value.after..];
          ps := [(key.item, value.item)] + ps;
          return;
        }
      }
    }
    ReadsTail(data[i..], st, Install(data, i, st));
  }

  lemma {:induction false} KeyIsRead(pre: string, k: string, rest: string, st: Store)
    requires Fits(k)
    ensures var d := pre + (EncodeItem(k) + rest);
      && (|rest| <= 1 ==> Install(d, |pre|, st) == Malformed(st))
      && (Overruns(rest) && Bytes(rest) ==> Install(d, |pre|, st) == Undefined(st))
  {
    var d := pre + (EncodeItem(k) + rest);
    assert d == pre + EncodeItem(k) + rest == (pre + EncodeItem(k)) + rest;
    ReadEncodedItem(pre, k, rest);
    if Overruns(rest) && Bytes(rest) {
      OverrunIsRead(pre + EncodeItem(k), rest);
    }
    hide EncodeItem, Overruns;
  }

  lemma {:induction false} TailEnds(pre: string, tail: string, st: Store)
    ensures var r := Install(pre + tail, |pre|, st);
      && (tail == "" ==> r == Recovered(st))
      && (Bytes(tail) && CutOff(tail) ==> r == Malformed(st))
      && (Bytes(tail) && Broken(tail) ==> r == Undefined(st))
  {
    if Bytes(tail) && Overruns(tail) {
      OverrunIsRead(pre, tail);
    } else if Bytes(tail) && Broken(tail) {
      var k, rest :| Fits(k) && tail == EncodeItem(k) + rest && Overruns(rest);
      assert Bytes(rest) by {
        assert rest == tail[2 + |k|..];
      }
      hide Install, EncodeItem, Overruns, CutOff;
      KeyIsRead(pre, k, rest, st);
    }
    if CutOff(tail) && |tail| != 1 {
      var k, rest :| Fits(k) && tail == EncodeItem(k) + rest && |rest| <= 1;
      hide Install, EncodeItem, Overruns;
      KeyIsRead(pre, k, rest, st);
    }
  }

  lemma OverrunIsRead(pre: string, tail: string)
    requires Overruns(tail) && Bytes(tail)
    ensures ReadItem(pre + tail, |pre|) == Overrun
  {
    var d := pre + tail;
    assert d[|pre|] == tail[0] && d[|pre| + 1] == tail[1];
  }

  lemma {:induction false} ReadsInstalled(pre: string, data: string, st: Store, ps: seq<Pair>, tail: string, r: Installed)
    requires Bytes(data) && Reads(data, st, ps, tail, r)
    ensures Install(pre + data, |pre|, st) == r
    decreases |ps|
  {
    hide CutOff, Broken, Install, EncodeItem;
    assert Bytes(tail) by {
      assert tail == data[|EncodePairs(ps)|..];
    }
    if ps == [] {
      assert data == tail;
      TailEnds(pre, tail, st);
    } else {
      var (k, v) := ps[0];
      var rest := EncodePairs(ps[1..]) + tail;
      assert pre + data == pre + EncodePair(k, v) + rest == (pre + EncodePair(k, v)) + rest;
      assert Bytes(rest) by {
        assert rest == data[|EncodePair(k, v)|..];
      }
      InstallEncodedPair(pre, k, v, rest, st);
      ReadsInstalled(pre + EncodePair(k, v), rest, st[k := v], ps[1..], tail, r);
    }
  }

  /**
   * Whatever the bytes: RECOVER deletes, puts the whole pairs in front, the later over the earlier, and tells
   * a snapshot that ends behind them from one that is cut off and from one with a broken length.
   */
  lemma {:induction false} RecoverReads(data: string, dels: set<string>, st: Store, r: Installed)
    requires Bytes(data)
    ensures Recover(data, dels, st) == r <==> exists ps, tail :: Reads(data, st - dels, ps, tail, r)
  {
    hide Reads, Bytes, Install;
    var ps, tail := InstallReads(data, 0, st - dels);
    assert data[0..] == data && "" + data == data;
    if ps, tail :| Reads(data, st - dels, ps, tail, r) {
      ReadsInstalled("", data, st - dels, ps, tail, r);
    }
  }
}
