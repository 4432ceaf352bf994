/**
 The persist-first commitment log.  The Merkle tree is a sequence of leaves with a given root
 function (section 2.1 of RFC 6962); an append writes its row to the durable store before it
 touches memory, and a restart replays the stored rows.
 */
module CommitmentLogs {
  import opened Bytes
  import opened Options
  import opened Records

  /** Root of a non-empty leaf sequence as text, and the record hash. */
  datatype Hashes = Hashes(root: seq<Bytes> -> Bytes, hash: Bytes -> Bytes)

  const ZERO_HEAD: Bytes := seq(64, _ => 48)

  datatype Log = Log(chain: seq<Bytes>, indices: map<Bytes, nat>, records: map<Bytes, Record>, leaves: seq<Bytes>)

  const EMPTY_LOG := Log([], map[], map[], [])

  datatype Row = Row(chainIndex: nat, entityId: Bytes, leafIndex: nat, record: Record)

  function HeadOf(h: Hashes, leaves: seq<Bytes>): Bytes
  {
    if leaves == [] then ZERO_HEAD else h.root(leaves)
  }

  /** The record as it will be stored: chained to the current head. */
  function Sealed(h: Hashes, log: Log, r: Record): Record
  {
    r.(predecessor := Some(HeadOf(h, log.leaves)))
  }

  /** Commit an already sealed record to memory under its entity id. */
  function Committed(log: Log, id: Bytes, r: Record): Log
    requires ToBytes(r).Some?
  {
    Log(log.chain + [id], log.indices[id := |log.leaves|], log.records[id := r], log.leaves + [ToBytes(r).value])
  }

  ghost predicate Replayable(rows: seq<Row>)
  {
    forall i :: 0 <= i < |rows| ==> ToBytes(rows[i].record).Some?
  }

  function Replayed(rows: seq<Row>): Log
    requires Replayable(rows)
  {
    if rows == [] then EMPTY_LOG
    else
      var last := rows[|rows| - 1];
      Committed(Replayed(rows[..|rows| - 1]), last.entityId, last.record)
  }

  // ----- runs with crashes

  datatype Fate = PersistFails | CrashAfterPersist | Completes

  datatype Event = Attempt(record: Record, fate: Fate) | Restart

  /** Durable rows, memory, and the entity ids whose append was acknowledged. */
  datatype System = System(rows: seq<Row>, log: Log, acked: seq<Bytes>)

  ghost predicate Accepts(h: Hashes, log: Log, r: Record)
  {
    r.entityId !in log.records && ToBytes(Sealed(h, log, r)).Some?
  }

  ghost function Step(h: Hashes, s: System, e: Event): System
    requires Replayable(s.rows)
  {
    match e
    case Restart => s.(log := Replayed(s.rows))
    case Attempt(r, fate) =>
      if !Accepts(h, s.log, r) || fate.PersistFails? then s
      else
        var record := Sealed(h, s.log, r);
        var rows := s.rows + [Row(|s.log.chain|, r.entityId, |s.log.leaves|, record)];
        if fate.CrashAfterPersist? then System(rows, Replayed(rows), s.acked)
        else System(rows, Committed(s.log, r.entityId, record), s.acked + [r.entityId])
  }

  ghost function Run(h: Hashes, s: System, events: seq<Event>): System
    requires Sound(h, s)
    decreases |events|
  {
    if events == [] then s
    else
      StepSound(h, s, events[0]);
      Run(h, Step(h, s, events[0]), events[1..])
  }

  const START := System([], EMPTY_LOG, [])

  /** Entry i: its index, its leaf, and its link to the root of the leaves before it. */
  ghost predicate LinkedAt(h: Hashes, log: Log, i: nat)
    requires i < |log.chain| == |log.leaves|
  {
    var id := log.chain[i];
    && id in log.indices && log.indices[id] == i
    && id in log.records && log.records[id].entityId == id
    && ToBytes(log.records[id]) == Some(log.leaves[i])
    && log.records[id].predecessor == Some(HeadOf(h, log.leaves[..i]))
  }

  ghost predicate Linked(h: Hashes, log: Log)
  {
    && |log.chain| == |log.leaves|
    && (forall id :: id in log.records <==> id in log.chain)
    && (forall id :: id in log.indices <==> id in log.chain)
    && forall i :: 0 <= i < |log.chain| ==> LinkedAt(h, log, i)
  }

  ghost predicate RowOk(h: Hashes, rows: seq<Row>, i: nat)
    requires i < |rows| && Replayable(rows)
  {
    && rows[i].chainIndex == i == rows[i].leafIndex && rows[i].entityId == rows[i].record.entityId
    && rows[i].record.predecessor == Some(HeadOf(h, Replayed(rows[..i]).leaves))
  }

  ghost predicate Sound(h: Hashes, s: System)
  {
    && Replayable(s.rows) && s.log == Replayed(s.rows) && Linked(h, s.log)
    && (forall i :: 0 <= i < |s.rows| ==> RowOk(h, s.rows, i))
    && (forall i :: 0 <= i < |s.acked| ==> s.acked[i] in s.log.records)
  }

  lemma {:induction false} ReplayedSizes(rows: seq<Row>)
    requires Replayable(rows)
    ensures |Replayed(rows).chain| == |Replayed(rows).leaves| == |rows|
  {
    if rows != [] {
      ReplayedSizes(rows[..|rows| - 1]);
    }
  }

  lemma CommittedLinked(h: Hashes, log: Log, r: Record)
    requires Linked(h, log) && Accepts(h, log, r)
    ensures Linked(h, Committed(log, r.entityId, Sealed(h, log, r)))
  {
    hide ToBytes;
    var after := Committed(log, r.entityId, Sealed(h, log, r));
    var n := |log.chain|;
    forall i | 0 <= i < |after.chain|
      ensures LinkedAt(h, after, i)
    {
      if i < n {
        assert LinkedAt(h, log, i);
        assert after.leaves[..i] == log.leaves[..i];
      } else {
        assert after.leaves[..n] == log.leaves;
      }
    }
  }

  lemma RowsExtend(h: Hashes, rows: seq<Row>, row: Row)
    requires Replayable(rows) && Replayable(rows + [row])
    requires forall i :: 0 <= i < |rows| ==> RowOk(h, rows, i)
    requires row.chainIndex == |rows| == row.leafIndex && row.entityId == row.record.entityId
    requires row.record.predecessor == Some(HeadOf(h, Replayed(rows).leaves))
    ensures forall i :: 0 <= i < |rows| + 1 ==> RowOk(h, rows + [row], i)
    ensures Replayed(rows + [row]) == Committed(Replayed(rows), row.entityId, row.record)
  {
    hide ToBytes, Committed;
    var all := rows + [row];
    assert all[..|rows|] == rows;
    forall i | 0 <= i < |all|
      ensures RowOk(h, all, i)
    {
      if i < |rows| {
        assert RowOk(h, rows, i);
        assert all[..i] == rows[..i];
      }
    }
  }

  lemma StepSound(h: Hashes, s: System, e: Event)
    requires Sound(h, s)
    ensures Sound(h, Step(h, s, e)) && s.rows <= Step(h, s, e).rows && s.acked <= Step(h, s, e).acked
  {
    hide ToBytes, Linked, RowOk;
    match e
    case Restart =>
    case Attempt(r, fate) =>
      if Accepts(h, s.log, r) && !fate.PersistFails? {
        var record := Sealed(h, s.log, r);
        ReplayedSizes(s.rows);
        RowsExtend(h, s.rows, Row(|s.log.chain|, r.entityId, |s.log.leaves|, record));
        CommittedLinked(h, s.log, r);
        AckedKept(s.acked, s.log, r.entityId, record);
      }
  }

  lemma AckedKept(acked: seq<Bytes>, log: Log, id: Bytes, r: Record)
    requires ToBytes(r).Some? && forall i :: 0 <= i < |acked| ==> acked[i] in log.records
    ensures forall i :: 0 <= i < |acked| ==> acked[i] in Committed(log, id, r).records
    ensures forall i :: 0 <= i < |acked + [id]| ==> (acked + [id])[i] in Committed(log, id, r).records
  {
    hide ToBytes;
  }

  // ----- what every run keeps

  /**
   After any run of appends, failures, crashes and restarts, memory is what replaying the store
   gives, the chain is linked, and every acknowledged record is still there.
   */
  lemma {:induction false} RunSound(h: Hashes, s: System, events: seq<Event>)
    requires Sound(h, s)
    ensures var end := Run(h, s, events);
            && Sound(h, end) && s.rows <= end.rows && s.acked <= end.acked
            && forall i :: 0 <= i < |end.acked| ==> end.acked[i] in Replayed(end.rows).records
    decreases |events|
  {
    hide Sound, Step;
    SoundAcked(h, s);
    if events != [] {
      StepSound(h, s, events[0]);
      RunSound(h, Step(h, s, events[0]), events[1..]);
    }
  }

  lemma SoundAcked(h: Hashes, s: System)
    requires Sound(h, s)
    ensures Replayable(s.rows) && forall i :: 0 <= i < |s.acked| ==> s.acked[i] in Replayed(s.rows).records
  {
  }

  /** Appending the stored records one after another to an empty log, sealing each afresh. */
  ghost function Appended(h: Hashes, rows: seq<Row>): Log
  {
    if rows == [] then EMPTY_LOG
    else
      var before := Appended(h, rows[..|rows| - 1]);
      var r := rows[|rows| - 1].record;
      if Accepts(h, before, r) then Committed(before, r.entityId, Sealed(h, before, r)) else before
  }

  /** Replay gives the same log as appending exactly the persisted records. */
  lemma {:induction false} ReplayIsAppending(h: Hashes, s: System, n: nat)
    requires Sound(h, s) && n <= |s.rows|
    ensures Replayed(s.rows[..n]) == Appended(h, s.rows[..n])
  {
    hide ToBytes;
    if n != 0 {
      ReplayIsAppending(h, s, n - 1);
      var rows := s.rows[..n];
      assert rows[..n - 1] == s.rows[..n - 1];
      var before := Replayed(s.rows[..n - 1]);
      var row := s.rows[n - 1];
      assert RowOk(h, s.rows, n - 1);
      assert Sealed(h, before, row.record) == row.record;
      NotYetCommitted(h, s, n - 1);
    }
  }

  /**
   Entry i is found under its id with index i, its bytes are leaf i, and it names the root of the
   leaves before it.
   */
  ghost predicate Chained(h: Hashes, log: Log, i: nat)
    requires i < |log.chain| == |log.leaves|
  {
    var id := log.chain[i];
    && id in log.indices && log.indices[id] == i && id in log.records && log.records[id].entityId == id
    && ToBytes(log.records[id]) == Some(log.leaves[i])
    && log.records[id].predecessor == Some(if i == 0 then seq(64, _ => 48) else h.root(log.leaves[..i]))
  }

  /** Sixty-four zero digits before the first leaf, the root of the leaves after it. */
  lemma HeadMeans(h: Hashes, leaves: seq<Bytes>)
    ensures HeadOf(h, leaves) == if |leaves| == 0 then seq(64, _ => 48) else h.root(leaves)
  {
    var zeros: Bytes := seq(64, _ => 48);
    assert ZERO_HEAD == zeros;
  }

  /**
   From an empty store, after any run of appends, persist failures, crashes and restarts: replaying
   the store gives the memory, which is what appending exactly the persisted records gives; entry i
   carries leaf i and the root of the leaves before it; and no acknowledged append is missing.
   */
  lemma CrashSafe(h: Hashes, events: seq<Event>)
    ensures Sound(h, START)
    ensures var end := Run(h, START, events);
            && Replayable(end.rows) && end.log == Replayed(end.rows) == Appended(h, end.rows)
            && |end.log.chain| == |end.log.leaves| == |end.rows|
            && (forall i :: 0 <= i < |end.log.chain| ==> Chained(h, end.log, i))
            && forall i :: 0 <= i < |end.acked| ==> end.acked[i] in end.log.records
  {
    hide ToBytes;
    RunSound(h, START, events);
    var end := Run(h, START, events);
    ReplayIsAppending(h, end, |end.rows|);
    assert end.rows[..|end.rows|] == end.rows;
    ReplayedSizes(end.rows);
    forall i | 0 <= i < |end.log.chain| ensures Chained(h, end.log, i)
    {
      assert LinkedAt(h, end.log, i);
      HeadMeans(h, end.log.leaves[..i]);
    }
  }

  lemma {:induction false} ReplayedChain(rows: seq<Row>, i: nat)
    requires Replayable(rows) && i < |rows|
    ensures i < |Replayed(rows).chain| && Replayed(rows).chain[i] == rows[i].entityId
    ensures forall id :: id in Replayed(rows).records ==> exists j :: 0 <= j < |rows| && rows[j].entityId == id
  {
    hide ToBytes;
    ReplayedSizes(rows);
    var t := rows[..|rows| - 1];
    ReplayedSizes(t);
    if t != [] {
      ReplayedChain(t, if i < |t| then i else 0);
    }
    forall id | id in Replayed(rows).records
      ensures exists j :: 0 <= j < |rows| && rows[j].entityId == id
    {
      if id != rows[|t|].entityId {
        var j :| 0 <= j < |t| && t[j].entityId == id;
        assert rows[j].entityId == id;
      }
    }
  }

  lemma DistinctRows(h: Hashes, s: System, j: nat, i: nat)
    requires Sound(h, s) && j < i < |s.rows|
    ensures s.rows[j].entityId != s.rows[i].entityId
  {
    hide ToBytes;
    ReplayedChain(s.rows, i);
    ReplayedChain(s.rows, j);
    assert LinkedAt(h, s.log, i) && LinkedAt(h, s.log, j);
  }

  lemma NotYetCommitted(h: Hashes, s: System, i: nat)
    requires Sound(h, s) && i < |s.rows|
    ensures s.rows[i].entityId !in Replayed(s.rows[..i]).records
  {
    hide ToBytes;
    var t := s.rows[..i];
    forall j | 0 <= j < |t|
      ensures t[j].entityId != s.rows[i].entityId
    {
      DistinctRows(h, s, j, i);
    }
    if t != [] {
      ReplayedChain(t, 0);
    }
  }

  // ----- the log object

  class LogStore {
    var rows: seq<Row>

    constructor ()
      ensures rows == []
    {
      rows := [];
    }
  }

  datatype AppendOutcome = Duplicate | NotEncodable | PersistError | Crashed | Done(ref: Bytes)

  class CommitmentLog {
    const hashes: Hashes
    const store: LogStore
    var chain: seq<Bytes>
    var indices: map<Bytes, nat>
    var records: map<Bytes, Record>
    var leaves: seq<Bytes>

    ghost function Memory(): Log
      reads this
    {
      Log(chain, indices, records, leaves)
    }

    /** Store and memory together, with nothing yet acknowledged. */
    ghost function State(): System
      reads this, store
    {
      System(store.rows, Memory(), [])
    }

    ghost predicate Valid()
      reads this, store
    {
      Sound(hashes, State())
    }

    /** Start from a store, replaying every row it holds. */
    constructor (h: Hashes, s: LogStore)
      requires Replayable(s.rows)
      ensures hashes == h && store == s && Memory() == Replayed(s.rows)
    {
      hashes, store := h, s;
      chain, indices, records, leaves := [], map[], map[], [];
      new;
      ReplayFromStore();
    }

    method ReplayFromStore()
      requires Replayable(store.rows) && Memory() == EMPTY_LOG
      modifies this
      ensures Memory() == Replayed(store.rows)
    {
      hide ToBytes;
      var rows := store.rows;
      for i := 0 to |rows|
        invariant store.rows == rows && Memory() == Replayed(rows[..i])
      {
        var row := rows[i];
        assert rows[..i + 1][..i] == rows[..i];
        chain := chain + [row.entityId];
        indices := indices[row.entityId := |leaves|];
        records := records[row.entityId := row.record];
        leaves := leaves + [ToBytes(row.record).value];
      }
      assert rows[..|rows|] == rows;
    }

    method HeadHash() returns (head: Bytes)
      ensures head == HeadOf(hashes, leaves)
    {
      head := if leaves == [] then ZERO_HEAD else hashes.root(leaves);
    }

    /** Append a record; `fate` says whether persisting fails or the process dies right after it. */
    method Append(r: Record, fate: Fate) returns (outcome: AppendOutcome)
      requires Valid()
      modifies this, store
      ensures store.rows == Step(hashes, old(State()), Attempt(r, fate)).rows
      ensures outcome.Crashed? ==> Memory() == old(Memory())
      ensures !outcome.Crashed? ==> Valid() && Memory() == Step(hashes, old(State()), Attempt(r, fate)).log
      ensures outcome.Duplicate? <==> r.entityId in old(records)
      ensures outcome.PersistError? <==> Accepts(hashes, old(Memory()), r) && fate.PersistFails?
      ensures outcome.NotEncodable? <==> r.entityId !in old(records) && ToBytes(Sealed(hashes, old(Memory()), r)).None?
      ensures outcome.Duplicate? || outcome.NotEncodable? || outcome.PersistError? ==>
                Memory() == old(Memory()) && store.rows == old(store.rows)
      ensures outcome.Done? <==> Accepts(hashes, old(Memory()), r) && fate.Completes?
      ensures outcome.Crashed? <==> Accepts(hashes, old(Memory()), r) && fate.CrashAfterPersist?
      ensures outcome.Done? ==> outcome.ref == hashes.hash(ToBytes(Sealed(hashes, old(Memory()), r)).value)
      ensures outcome.Done? || outcome.Crashed? ==>
                && |store.rows| == |old(store.rows)| + 1 && store.rows[..|old(store.rows)|] == old(store.rows)
                && store.rows[|old(store.rows)|].record ==
                   r.(predecessor := Some(if old(leaves) == [] then seq(64, _ => 48) else hashes.root(old(leaves))))
      ensures outcome.Done? ==>
                && leaves == old(leaves) + [ToBytes(records[r.entityId]).value]
                && records[r.entityId].predecessor
                    == Some(if old(leaves) == [] then seq(64, _ => 48) else hashes.root(old(leaves)))
    {
      hide ToBytes, Linked, RowOk;
      HeadMeans(hashes, leaves);
      ghost var start := State();
      StepSound(hashes, start, Attempt(r, fate));
      if r.entityId in records { return Duplicate; }
      var head := HeadHash();
      var record := r.(predecessor := Some(head));
      var bytes := ToBytes(record);
      if bytes.None? { return NotEncodable; }
      if fate.PersistFails? { return PersistError; }
      store.rows := store.rows + [Row(|chain|, r.entityId, |leaves|, record)];
      if fate.CrashAfterPersist? { return Crashed; }
      indices := indices[r.entityId := |leaves|];
      leaves := leaves + [bytes.value];
      records := records[r.entityId := record];
      chain := chain + [r.entityId];
      SoundWithoutAcks(hashes, Step(hashes, start, Attempt(r, fate)));
      outcome := Done(hashes.hash(bytes.value));
    }

    method Fetch(id: Bytes) returns (r: Option<Record>)
      ensures r == if id in records then Some(records[id]) else None
    {
      if id in records { return Some(records[id]); }
      return None;
    }
  }

  lemma SoundWithoutAcks(h: Hashes, s: System)
    requires Sound(h, s)
    ensures Sound(h, s.(acked := []))
  {
  }

  /** A process that dies after persisting comes back with the record committed. */
  method CrashAndRecover(log: CommitmentLog, r: Record) returns (recovered: CommitmentLog)
    requires log.Valid() && Accepts(log.hashes, log.Memory(), r)
    modifies log, log.store
    ensures recovered.Valid() && recovered.store == log.store && recovered.hashes == log.hashes
    ensures recovered.Memory() == Committed(old(log.Memory()), r.entityId, Sealed(log.hashes, old(log.Memory()), r))
  {
    hide ToBytes, Linked, RowOk;
    ghost var start := log.State();
    StepSound(log.hashes, start, Attempt(r, CrashAfterPersist));
    StepSound(log.hashes, start, Attempt(r, Completes));
    RowsAfter(log.hashes, start, r);
    var outcome := log.Append(r, CrashAfterPersist);
    recovered := new CommitmentLog(log.hashes, log.store);
  }

  lemma RowsAfter(h: Hashes, s: System, r: Record)
    requires Sound(h, s) && Accepts(h, s.log, r)
    ensures Step(h, s, Attempt(r, CrashAfterPersist)).log == Committed(s.log, r.entityId, Sealed(h, s.log, r))
    ensures Step(h, s, Attempt(r, CrashAfterPersist)).rows == Step(h, s, Attempt(r, Completes)).rows
  {
    hide ToBytes, Linked, RowOk;
    StepSound(h, s, Attempt(r, Completes));
  }
}
