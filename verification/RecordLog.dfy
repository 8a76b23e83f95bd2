/** The coordinator's record log: its 9-byte format, its replay and its compaction (record.cpp). */
module RecordLog {

  type byte = b: int | 0 <= b < 256
  type uint8 = v: int | 0 <= v < 0x100
  type uint32 = v: int | 0 <= v < 0x1_0000_0000

  const UNRESOLVED: uint8 := 0
  const COMMIT: uint8 := 1
  const ABORT: uint8 := 2
  const COMMIT_DONE: uint8 := 3
  const ABORT_DONE: uint8 := 4

  const RECORD_SIZE := 9

  /** Ids are kept unbounded here: Fits says when a record has the width of the source's fields. */
  datatype Record = Record(status: uint8, id: nat, next: nat) {
    predicate Done() {
      status == COMMIT_DONE || status == ABORT_DONE
    }

    predicate Fits() {
      id < 0x1_0000_0000 && next < 0x1_0000_0000
    }
  }

  // ----- replaying a log of records

  /** What one record does to the map of unfinished records. */
  function Absorb(m: map<nat, Record>, r: Record): map<nat, Record> {
    if r.Done() then m - {r.id} else m[r.id := r]
  }

  /** The map of unfinished records that reading a log from its start builds. */
  function Replay(log: seq<Record>): map<nat, Record> {
    if log == [] then map[] else Absorb(Replay(log[..|log| - 1]), log[|log| - 1])
  }

  /** The next id that reading a log ends with; 0 for an empty log. */
  function LastNext(log: seq<Record>): nat {
    if log == [] then 0 else log[|log| - 1].next
  }

  /** The log file after one more record: a DONE record that empties the map truncates the file. */
  function Appended(log: seq<Record>, m: map<nat, Record>, r: Record): seq<Record> {
    if r.Done() && Absorb(m, r) == map[] then [r] else log + [r]
  }

  /** Replay keeps exactly the last record of each id, and only if it is not a DONE record. */
  lemma {:induction false} ReplayIsLastRecord(log: seq<Record>, id: nat, r: Record)
    ensures (id in Replay(log) && Replay(log)[id] == r) <==>
            exists k :: 0 <= k < |log| && log[k] == r && r.id == id && !r.Done() &&
                        forall j :: k < j < |log| ==> log[j].id != id
  {
    if log == [] {
    } else {
      var n := |log| - 1;
      var front := log[..n];
      ReplayIsLastRecord(front, id, r);
      if log[n].id == id {
        assert (id in Replay(log) && Replay(log)[id] == r) <==> (log[n] == r && !r.Done());
      } else {
        assert (id in Replay(log) && Replay(log)[id] == r) <==> (id in Replay(front) && Replay(front)[id] == r);
        if k :| 0 <= k < |log| && log[k] == r && r.id == id && !r.Done() && forall j :: k < j < |log| ==>
            log[j].id != id {
          assert front[k] == r;
          assert forall j :: k < j < n ==> front[j].id == log[j].id;
        }
        if k :| 0 <= k < n && front[k] == r && r.id == id && !r.Done() && forall j :: k < j < n ==> front[j].id != id {
          assert log[k] == r;
          assert forall j :: k < j < |log| ==> log[j].id != id;
        }
      }
    }
  }

  /** Appending a record, with or without compaction, keeps replay equal to the map in memory. */
  lemma ReplayAppended(log: seq<Record>, m: map<nat, Record>, r: Record)
    requires Replay(log) == m
    ensures Replay(Appended(log, m, r)) == Absorb(m, r)
    ensures LastNext(Appended(log, m, r)) == r.next
  {
    if r.Done() && Absorb(m, r) == map[] {
      assert Replay([r][..0]) == map[];
      assert Replay([r]) == Absorb(map[], r);
    } else {
      assert (log + [r])[..|log|] == log;
    }
  }

  /** The file and the map after a whole sequence of calls of log. */
  function LogAll(log: seq<Record>, m: map<nat, Record>, rs: seq<Record>): (seq<Record>, map<nat, Record>)
    decreases |rs|
  {
    if rs == [] then (log, m) else LogAll(Appended(log, m, rs[0]), Absorb(m, rs[0]), rs[1..])
  }

  /** Log replay refines memory after any number of log calls. */
  lemma {:induction false} ReplayRefinesMemory(log: seq<Record>, m: map<nat, Record>, rs: seq<Record>)
    requires Replay(log) == m
    ensures Replay(LogAll(log, m, rs).0) == LogAll(log, m, rs).1
    ensures rs != [] ==> LastNext(LogAll(log, m, rs).0) == rs[|rs| - 1].next
    decreases |rs|
  {
    if rs == [] {
    } else {
      ReplayAppended(log, m, rs[0]);
      ReplayRefinesMemory(Appended(log, m, rs[0]), Absorb(m, rs[0]), rs[1..]);
    }
  }

  /** Compaction never loses an unfinished record: the map does not depend on it. */
  lemma {:induction false} CompactionIsInvisible(log: seq<Record>, m: map<nat, Record>, rs: seq<Record>)
    requires Replay(log) == m
    ensures LogAll(log, m, rs).1 == Replay(log + rs)
    decreases |rs|
  {
    if rs == [] {
      assert log + rs == log;
    } else {
      ReplayAppended(log, m, rs[0]);
      CompactionIsInvisible(Appended(log, m, rs[0]), Absorb(m, rs[0]), rs[1..]);
      assert Replay(log + [rs[0]]) == Absorb(m, rs[0]) by {
        assert (log + [rs[0]])[..|log|] == log;
      }
      ReplayExtends(Appended(log, m, rs[0]), log + [rs[0]], rs[1..]);
      assert log + [rs[0]] + rs[1..] == log + rs;
    }
  }

  lemma {:induction false} ReplayExtends(a: seq<Record>, b: seq<Record>, rs: seq<Record>)
    requires Replay(a) == Replay(b)
    ensures Replay(a + rs) == Replay(b + rs)
    decreases |rs|
  {
    if rs == [] {
      assert a + rs == a && b + rs == b;
    } else {
      var n := |rs| - 1;
      ReplayExtends(a, b, rs[..n]);
      assert (a + rs)[..|a + rs| - 1] == a + rs[..n];
      assert (b + rs)[..|b + rs| - 1] == b + rs[..n];
    }
  }

  // ----- the byte format

  /** The number that little-endian bytes stand for. */
  function LittleEndian(bs: seq<byte>): nat {
    if bs == [] then 0 else bs[0] + 256 * LittleEndian(bs[1..])
  }

  lemma LittleEndian4(bs: seq<byte>)
    requires |bs| == 4
    ensures LittleEndian(bs) == bs[0] as int + 256 * bs[1] as int + 65536 * bs[2] as int + 16777216 * bs[3] as int
  {
    assert LittleEndian(bs[1..]) == bs[1] as int + 256 * LittleEndian(bs[1..][1..]);
    assert LittleEndian(bs[2..]) == bs[2] as int + 256 * LittleEndian(bs[2..][1..]);
    assert LittleEndian(bs[3..]) == bs[3] as int + 256 * LittleEndian(bs[3..][1..]);
    assert bs[1..][1..] == bs[2..] && bs[2..][1..] == bs[3..] && bs[3..][1..] == [];
  }

  method EncodeUint8(binary: seq<byte>, val: uint8) returns (r: seq<byte>)
    ensures r == binary + [val]
  {
    r := binary + [val];
  }

  method EncodeUint32(binary: seq<byte>, val: uint32) returns (r: seq<byte>)
    ensures |r| == |binary| + 4 && r[..|binary|] == binary
    ensures LittleEndian(r[|binary|..]) == val
  {
    r := binary + [val % 256];
    r := r + [val / 256 % 256];
    r := r + [val / 65536 % 256];
    r := r + [val / 16777216 % 256];
    LittleEndian4(r[|binary|..]);
    assert val == val % 256 + 256 * (val / 256 % 256) + 65536 * (val / 65536 % 256) + 16777216 * (val / 16777216 % 256) by {
      assert val / 65536 == val / 256 / 256;
      assert val / 16777216 == val / 65536 / 256;
    }
  }

  /** Nine bytes hold a record: its status, its id and its next id, little-endian. */
  ghost predicate Holds(bs: seq<byte>, r: Record) {
    |bs| == RECORD_SIZE && bs[0] == r.status && LittleEndian(bs[1..5]) == r.id && LittleEndian(bs[5..]) == r.next
  }

  method ToBinary(r: Record) returns (binary: seq<byte>)
    requires r.Fits()
    ensures Holds(binary, r)
  {
    binary := EncodeUint8([], r.status);
    binary := EncodeUint32(binary, r.id);
    ghost var head := binary;
    binary := EncodeUint32(binary, r.next);
    assert binary[..5] == head;
    assert binary[1..5] == head[1..];
  }

  method DecodeUint8(binary: seq<byte>, idx: nat) returns (v: uint8, idx': nat)
    requires idx < |binary|
    ensures v == binary[idx] && idx' == idx + 1
  {
    v := binary[idx];
    idx' := idx + 1;
  }

  /** Throws (ok is false) when fewer than four bytes are left. */
  method DecodeUint32(binary: seq<byte>, idx: nat) returns (ok: bool, v: uint32, idx': nat)
    ensures ok <==> idx + 4 <= |binary|
    ensures ok ==> v == LittleEndian(binary[idx..idx + 4]) && idx' == idx + 4
    ensures !ok ==> idx' == idx
  {
    if idx + 4 > |binary| {
      return false, 0, idx;
    }
    LittleEndian4(binary[idx..idx + 4]);
    v := binary[idx] as int;
    v := v + binary[idx + 1] as int * 256;
    v := v + binary[idx + 2] as int * 65536;
    v := v + binary[idx + 3] as int * 16777216;
    ok, idx' := true, idx + 4;
  }

  /** Throws on fewer than nine bytes; on none the source reads past the end. Further bytes are ignored. */
  method Parse(binary: seq<byte>) returns (ok: bool, r: Record)
    requires binary != []
    ensures ok <==> RECORD_SIZE <= |binary|
    ensures ok ==> Holds(binary[..RECORD_SIZE], r) && r.Fits()
  {
    var idx := 0;
    var status, id, next;
    r := Record(0, 0, 0);
    status, idx := DecodeUint8(binary, idx);
    ok, id, idx := DecodeUint32(binary, idx);
    if !ok {
      return;
    }
    ok, next, idx := DecodeUint32(binary, idx);
    if !ok {
      return;
    }
    r := Record(status, id, next);
    assert binary[..RECORD_SIZE][1..5] == binary[1..5] && binary[..RECORD_SIZE][5..] == binary[5..9];
  }

  /** A file image holds a sequence of records, nine bytes each. */
  ghost predicate Image(file: seq<byte>, log: seq<Record>) {
    |file| == RECORD_SIZE * |log| &&
    forall i :: 0 <= i < |log| ==> Holds(file[RECORD_SIZE * i..RECORD_SIZE * i + RECORD_SIZE], log[i])
  }

  /** A file image determines its records: no two logs share a file. */
  lemma ImageIsInjective(file: seq<byte>, a: seq<Record>, b: seq<Record>)
    requires Image(file, a) && Image(file, b)
    ensures a == b
  {
    assert |a| == |b|;
    forall i | 0 <= i < |a| ensures a[i] == b[i] {
      assert Holds(file[RECORD_SIZE * i..RECORD_SIZE * i + RECORD_SIZE], a[i]);
      assert Holds(file[RECORD_SIZE * i..RECORD_SIZE * i + RECORD_SIZE], b[i]);
    }
  }

  lemma ImageAppend(file: seq<byte>, log: seq<Record>, bs: seq<byte>, r: Record)
    requires Image(file, log) && Holds(bs, r)
    ensures Image(file + bs, log + [r])
  {
    var f, l := file + bs, log + [r];
    forall i | 0 <= i < |l| ensures Holds(f[RECORD_SIZE * i..RECORD_SIZE * i + RECORD_SIZE], l[i]) {
      if i < |log| {
        assert f[RECORD_SIZE * i..RECORD_SIZE * i + RECORD_SIZE] == file[RECORD_SIZE * i..RECORD_SIZE * i + RECORD_SIZE];
      } else {
        assert f[RECORD_SIZE * i..RECORD_SIZE * i + RECORD_SIZE] == bs;
      }
    }
  }

  lemma ImageOne(bs: seq<byte>, r: Record)
    requires Holds(bs, r)
    ensures Image(bs, [r])
  {
    ImageAppend([], [], bs, r);
    assert [] + bs == bs && [] + [r] == [r];
  }

  /** Reading one more record of a file. */
  lemma ImageStep(data: seq<byte>, start: nat, log: seq<Record>, r: Record)
    requires start + RECORD_SIZE <= |data| && Image(data[..start], log)
    requires Holds(data[start..start + RECORD_SIZE], r)
    ensures Image(data[..start + RECORD_SIZE], log + [r])
    ensures Replay(log + [r]) == Absorb(Replay(log), r)
  {
    ImageAppend(data[..start], log, data[start..start + RECORD_SIZE], r);
    assert data[..start] + data[start..start + RECORD_SIZE] == data[..start + RECORD_SIZE];
    assert (log + [r])[..|log|] == log;
  }

  /**
   * The record half of record_manager: the file as bytes, the map of unfinished records in
   * memory and the next id read at start. `log` is the sequence of records the file holds.
   */
  class RecordManager {
    var file: seq<byte>
    var records: map<nat, Record>
    var nextId: nat
    ghost var log: seq<Record>

    ghost predicate Valid()
      reads this
    {
      Image(file, log) && records == Replay(log)
    }

    /** Opens a log file and reads it from the start. The file holds whole records. */
    constructor (data: seq<byte>)
      requires |data| % RECORD_SIZE == 0
      ensures Valid() && file == data && nextId == LastNext(log)
    {
      file, records, nextId, log := data, map[], 0, [];
      new;
      var start := 0;
      ghost var total := |data| / RECORD_SIZE;
      while start < |data|
        invariant |log| <= total && start == RECORD_SIZE * |log| <= |data| == RECORD_SIZE * total
        invariant file == data
        invariant Image(data[..start], log)
        invariant records == Replay(log) && nextId == LastNext(log)
      {
        var binary := data[start..start + RECORD_SIZE];
        var ok, r := Parse(binary);
        assert binary[..RECORD_SIZE] == binary;
        nextId := r.next;
        if r.status == ABORT_DONE || r.status == COMMIT_DONE {
          records := records - {r.id};
        } else {
          records := records[r.id := r];
        }
        ImageStep(data, start, log, r);
        log := log + [r];
        start := start + RECORD_SIZE;
      }
      assert data[..start] == data;
    }

    /** Persists a record, then updates the map; a DONE record that empties it truncates the file. */
    method Log(r: Record) returns (ghost bs: seq<byte>)
      requires Valid() && r.Fits()
      modifies this
      ensures Valid()
      ensures log == Appended(old(log), old(records), r)
      ensures records == Absorb(old(records), r)
      ensures records == if r.status == COMMIT_DONE || r.status == ABORT_DONE then old(records) - {r.id}
                         else old(records)[r.id := r]
      ensures Holds(bs, r)
      ensures file == if r.Done() && records == map[] then bs else old(file) + bs
      ensures LastNext(log) == r.next
      ensures nextId == old(nextId)
    {
      ReplayAppended(log, records, r);
      hide Replay, Image, Holds, LastNext;
      var binary := ToBinary(r);
      bs := binary;
      ImageAppend(file, log, binary, r);
      file := file + binary;
      log := log + [r];
      if r.status == ABORT_DONE || r.status == COMMIT_DONE {
        records := records - {r.id};
        if records == map[] {
          file := [];
          file := file + binary;
          log := [r];
          ImageOne(binary, r);
          assert [] + binary == binary;
        }
      } else {
        records := records[r.id := r];
      }
    }
  }

  /** Closing a log and opening it again gives back the map and the last next id. */
  method Reopen(m: RecordManager) returns (m': RecordManager)
    requires m.Valid()
    ensures fresh(m') && m'.Valid()
    ensures m'.log == m.log && m'.records == m.records && m'.nextId == LastNext(m.log)
  {
    assert |m.file| == RECORD_SIZE * |m.log|;
    assert |m.file| % RECORD_SIZE == 0;
    m' := new RecordManager(m.file);
    ImageIsInjective(m.file, m.log, m'.log);
  }
}
