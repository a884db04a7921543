/**
 * The in-memory turn recorder (`gameRecorder/DataRecorder.go`): a list of
 * turn records and the current iteration and turn. The per-agent and
 * infrastructure snapshots are opaque here (type parameters `A` and `I`).
 */
module Recording {
  import opened Common

  /**
   * One record: its iteration and turn, the agent snapshots, and the
   * infrastructure snapshot, absent until one is stored.
   */
  datatype TurnRecord<A, I> = TurnRecord(iteration: int, turn: int, agentRecords: seq<A>, infraRecord: Option<I>)

  datatype Recorder<A, I> = Recorder(records: seq<TurnRecord<A, I>>, iteration: int, turn: int)

  /** `NewTurnRecord`: no snapshots yet. */
  function NewTurnRecord<A, I>(iteration: int, turn: int): (t: TurnRecord<A, I>)
    ensures t.iteration == iteration && t.turn == turn
    ensures t.agentRecords == [] && t.infraRecord == None
  {
    TurnRecord(iteration, turn, [], None)
  }

  /** `(iteration, turn)` of `a` comes no later than that of `b`, in lexicographic order. */
  predicate NoLater(a: (int, int), b: (int, int)) {
    a.0 < b.0 || (a.0 == b.0 && a.1 <= b.1)
  }

  function Key<A, I>(t: TurnRecord<A, I>): (int, int) {
    (t.iteration, t.turn)
  }

  /**
   * The recorder's invariant: the turn counter is at least -1, every record
   * has a turn number of at least 0 and none is later than the current
   * position, and the records are in (iteration, turn) order.
   */
  predicate Valid<A, I>(r: Recorder<A, I>) {
    && r.turn >= -1
    && (forall i :: 0 <= i < |r.records| ==>
          r.records[i].turn >= 0 && NoLater(Key(r.records[i]), (r.iteration, r.turn)))
    && (forall i, j :: 0 <= i < j < |r.records| ==> NoLater(Key(r.records[i]), Key(r.records[j])))
  }

  /** `CreateRecorder`: no records, iteration -1 and turn -1, so that the first of each is 0. */
  function CreateRecorder<A, I>(): (r: Recorder<A, I>)
    ensures r.records == [] && r.iteration == -1 && r.turn == -1
    ensures Valid(r)
  {
    Recorder([], -1, -1)
  }

  /** `RecordNewIteration`: the next iteration, the turn back to -1, the records untouched. */
  function RecordNewIteration<A, I>(r: Recorder<A, I>): (s: Recorder<A, I>)
    ensures s.iteration == r.iteration + 1 && s.turn == -1
    ensures s.records == r.records
    ensures Valid(r) ==> Valid(s)
  {
    r.(iteration := r.iteration + 1, turn := -1)
  }

  /**
   * `RecordNewTurn`: the turn counter moves on by one. The first turn of an
   * iteration appends a header record carrying only the infrastructure
   * snapshot, and every turn then appends a record carrying both
   * snapshots; earlier records are untouched.
   */
  function RecordNewTurn<A, I>(r: Recorder<A, I>, agentRecords: seq<A>, infraRecord: I): (s: Recorder<A, I>)
    ensures s.iteration == r.iteration && s.turn == r.turn + 1
    ensures |s.records| == |r.records| + (if s.turn == 0 then 2 else 1)
    ensures s.records[..|r.records|] == r.records
    ensures s.records[|s.records| - 1] == TurnRecord(r.iteration, s.turn, agentRecords, Some(infraRecord))
    ensures s.turn == 0 ==> s.records[|r.records|] == TurnRecord(r.iteration, 0, [], Some(infraRecord))
    ensures Valid(r) ==> Valid(s)
  {
    var turn := r.turn + 1;
    var header := if turn == 0 then [NewTurnRecord(r.iteration, turn).(infraRecord := Some(infraRecord))] else [];
    var record := NewTurnRecord(r.iteration, turn).(agentRecords := agentRecords, infraRecord := Some(infraRecord));
    var s := r.(records := r.records + header + [record], turn := turn);
    assert s.records[..|r.records|] == r.records;
    s
  }

  /**
   * `GetCurrentTurnRecord`: the last record. Go indexes `len - 1` without a
   * guard, so an empty recorder panics; that outcome is `None`.
   */
  function GetCurrentTurnRecord<A, I>(r: Recorder<A, I>): (t: Option<TurnRecord<A, I>>)
    ensures t.None? <==> |r.records| == 0
    ensures t.Some? ==> t.value in r.records
    ensures t.Some? && Valid(r) ==> forall i :: 0 <= i < |r.records| ==> NoLater(Key(r.records[i]), Key(t.value))
  {
    if |r.records| == 0 then None else Some(r.records[|r.records| - 1])
  }

  /** Right after a turn is recorded, the current record is that turn, with both snapshots. */
  lemma CurrentIsLatestTurn<A, I>(r: Recorder<A, I>, agentRecords: seq<A>, infraRecord: I)
    ensures var s := RecordNewTurn(r, agentRecords, infraRecord);
      GetCurrentTurnRecord(s) == Some(TurnRecord(s.iteration, s.turn, agentRecords, Some(infraRecord)))
  {
  }

  /**
   * The first turn recorded after a new iteration is turn 0 of it and adds
   * two records: the header and the turn itself.
   */
  lemma FirstTurnOfIteration<A, I>(r: Recorder<A, I>, agentRecords: seq<A>, infraRecord: I)
    ensures var s := RecordNewTurn(RecordNewIteration(r), agentRecords, infraRecord);
      && s.iteration == r.iteration + 1 && s.turn == 0
      && |s.records| == |r.records| + 2
      && s.records[|r.records|].agentRecords == []
  {
  }

  /**
   * In a valid recorder, a recorded turn is strictly later than every
   * record before it, so no two turn records of an iteration share a turn
   * number apart from the header of turn 0.
   */
  lemma TurnsStrictlyLater<A, I>(r: Recorder<A, I>, agentRecords: seq<A>, infraRecord: I)
    requires Valid(r)
    ensures var s := RecordNewTurn(r, agentRecords, infraRecord);
      forall i :: 0 <= i < |r.records| ==> Key(r.records[i]) != Key(s.records[|s.records| - 1])
  {
    var s := RecordNewTurn(r, agentRecords, infraRecord);
    forall i | 0 <= i < |r.records| ensures Key(r.records[i]) != Key(s.records[|s.records| - 1]) {
      assert NoLater(Key(r.records[i]), (r.iteration, r.turn));
    }
  }
}
