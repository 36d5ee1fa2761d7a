/**
 * The unspent outputs of rust/src/uaas/utxo.rs: a map in memory with writes and deletes held back, and
 * the table behind it.
 */
module UtxoSpec {
  import opened Common
  import opened Tables

  /** The map, the writes and deletes held back, and what has been sent to the database. */
  datatype State = State(
    utxo: map<OutPoint, UtxoRow>,
    entries: map<OutPoint, UtxoRow>,
    deletes: seq<OutPoint>,
    sent: seq<Op>)

  // ---- the methods, on values ----

  function Add(s: State, hash: Hash256, index: nat, row: UtxoRow): State {
    if index >= TWO_32 then s
    else
      var o := OutPoint(hash, index);
      s.(utxo := s.utxo[o := row], entries := s.entries[o := row])
  }

  function Delete(s: State, o: OutPoint): State {
    if o in s.utxo then s.(utxo := s.utxo - {o}, deletes := s.deletes + [o], entries := s.entries - {o}) else s
  }

  function UpdateDb(s: State, batch: seq<(OutPoint, UtxoRow)>): State {
    s.(sent := s.sent + [UtxoBatchWrite(batch), UtxoBatchDelete(s.deletes)], entries := map[], deletes := [])
  }

  function NotAt(utxo: map<OutPoint, UtxoRow>, height: nat): map<OutPoint, UtxoRow> {
    map o | o in utxo && utxo[o].height != height :: utxo[o]
  }

  /** A height past the signed range leaves the map alone, since no entry can have it. */
  function HandleOrphan(s: State, height: nat): State {
    var s' := s.(sent := s.sent + [UtxoDelete(height)]);
    if height >= TWO_31 then s' else s'.(utxo := NotAt(s.utxo, height))
  }

  // ---- agreement ----

  /** A table once everything held back has been written: entries overlaid, deletes removed. */
  function Overlay(table: map<OutPoint, UtxoRow>, entries: map<OutPoint, UtxoRow>, deletes: seq<OutPoint>)
    : map<OutPoint, UtxoRow>
  {
    DeleteAll(table + entries, deletes)
  }

  function Effective(db: Database, s: State): map<OutPoint, UtxoRow> {
    Overlay(ApplyAll(db, s.sent).utxo, s.entries, s.deletes)
  }

  /** Heights are 32-bit signed numbers. */
  ghost predicate InRange(utxo: map<OutPoint, UtxoRow>) {
    forall o :: o in utxo ==> utxo[o].height < TWO_31
  }

  /** The memory map is what the table will be, and what is held back comes from it. */
  ghost predicate Agrees(db: Database, s: State) {
    && Effective(db, s) == s.utxo
    && InRange(s.utxo)
    && s.entries.Keys <= s.utxo.Keys
  }

  lemma {:induction false} LoadedAgrees(db: Database)
    requires InRange(db.utxo)
    ensures Agrees(db, State(db.utxo, map[], [], []))
  {
  }

  /**
   * An added output agrees with the table to come exactly when it is not waiting to be deleted: the next
   * flush writes first and deletes afterwards.
   */
  lemma {:induction false} AddAgreesIff(db: Database, s: State, hash: Hash256, index: nat, row: UtxoRow)
    requires Agrees(db, s) && row.height < TWO_31 && index < TWO_32
    ensures Agrees(db, Add(s, hash, index, row)) <==> OutPoint(hash, index) !in s.deletes
  {
    var o, t := OutPoint(hash, index), Add(s, hash, index, row);
    assert o in t.utxo;
    if o !in s.deletes {
      assert Effective(db, t) == Effective(db, s)[o := row];
    }
  }

  /** Only outputs that are known are noted for deletion. */
  lemma {:induction false} UnknownIsNotDeleted(s: State, o: OutPoint)
    requires o !in s.deletes
    ensures s.deletes <= Delete(s, o).deletes && (o in Delete(s, o).deletes <==> o in s.utxo)
    ensures o !in Delete(s, o).utxo && forall p :: p != o ==> (p in Delete(s, o).utxo <==> p in s.utxo)
  {
  }

  lemma {:induction false} DeleteAgrees(db: Database, s: State, o: OutPoint)
    requires Agrees(db, s)
    ensures Agrees(db, Delete(s, o))
  {
    if o in s.utxo {
      var t := Delete(s, o);
      assert Effective(db, t) == Effective(db, s) - {o};
    }
  }

  ghost predicate AnyAt(entries: map<OutPoint, UtxoRow>, height: nat) {
    exists o :: o in entries && entries[o].height == height
  }

  lemma {:induction false} OverlayNotAt(table: map<OutPoint, UtxoRow>, entries: map<OutPoint, UtxoRow>,
                                        deletes: seq<OutPoint>, height: nat)
    requires !AnyAt(entries, height)
    ensures Overlay(NotAt(table, height), entries, deletes) == NotAt(Overlay(table, entries, deletes), height)
  {
  }

  /** A pending entry whose key survives the deletes shows through. */
  lemma {:induction false} PendingShows(table: map<OutPoint, UtxoRow>, entries: map<OutPoint, UtxoRow>,
                                        deletes: seq<OutPoint>, o: OutPoint)
    requires o in entries && o in Overlay(table, entries, deletes)
    ensures Overlay(table, entries, deletes)[o] == entries[o]
  {
  }

  /** What an orphan does, out of range or not. */
  lemma {:induction false} OrphanEffect(db: Database, s: State, height: nat)
    requires InRange(s.utxo)
    ensures var t := HandleOrphan(s, height);
            t == s.(utxo := NotAt(s.utxo, height), sent := t.sent) &&
            ApplyAll(db, t.sent).utxo == NotAt(ApplyAll(db, s.sent).utxo, height)
  {
    ApplyOneMore(db, s.sent, UtxoDelete(height));
    if height >= TWO_31 {
      assert NotAt(s.utxo, height) == s.utxo;
    }
  }

  lemma {:induction false} OrphanOfPending(db: Database, s: State, height: nat, o: OutPoint)
    requires Agrees(db, s) && o in s.entries && s.entries[o].height == height
    ensures !Agrees(db, HandleOrphan(s, height))
  {
    OrphanEffect(db, s, height);
    PendingShows(ApplyAll(db, s.sent).utxo, s.entries, s.deletes, o);
    assert o !in NotAt(s.utxo, height);
  }

  lemma {:induction false} OrphanOfWritten(db: Database, s: State, height: nat)
    requires Agrees(db, s) && !AnyAt(s.entries, height)
    ensures Agrees(db, HandleOrphan(s, height))
  {
    OrphanEffect(db, s, height);
    OverlayNotAt(ApplyAll(db, s.sent).utxo, s.entries, s.deletes, height);
    forall o | o in s.entries ensures o in NotAt(s.utxo, height) {
      PendingShows(ApplyAll(db, s.sent).utxo, s.entries, s.deletes, o);
    }
  }

  /**
   * Dropping the outputs of an orphan block agrees with the table to come exactly when none of them is
   * still held back: those are written by the next flush although the map has forgotten them.
   */
  lemma {:induction false} OrphanAgreesIff(db: Database, s: State, height: nat)
    requires Agrees(db, s)
    ensures Agrees(db, HandleOrphan(s, height)) <==> !AnyAt(s.entries, height)
  {
    if AnyAt(s.entries, height) {
      var o :| o in s.entries && s.entries[o].height == height;
      OrphanOfPending(db, s, height, o);
    } else {
      OrphanOfWritten(db, s, height);
    }
  }

  lemma {:induction false} FlushEffect(db: Database, s: State, batch: seq<(OutPoint, UtxoRow)>)
    requires Lists(s.entries, batch)
    ensures ApplyAll(db, UpdateDb(s, batch).sent).utxo == Effective(db, s)
  {
    var w, d := UtxoBatchWrite(batch), UtxoBatchDelete(s.deletes);
    ApplyTwoMore(db, s.sent, w, d);
    ReplaceAllIsOverlay(ApplyAll(db, s.sent).utxo, s.entries, batch);
  }

  /** After a flush nothing is held back, and the table is the map. */
  lemma {:induction false} UpdateDbWritesMap(db: Database, s: State, batch: seq<(OutPoint, UtxoRow)>)
    requires Agrees(db, s) && Lists(s.entries, batch)
    ensures var t := UpdateDb(s, batch);
            Agrees(db, t) && t.utxo == s.utxo == ApplyAll(db, t.sent).utxo && t.entries == map[] && t.deletes == []
  {
    FlushEffect(db, s, batch);
    assert Overlay(s.utxo, map[], []) == s.utxo;
  }

  // ---- runs ----

  datatype Event =
    | Added(hash: Hash256, index: nat, row: UtxoRow)
    | Deleted(outpoint: OutPoint)
    | Updated(batch: seq<(OutPoint, UtxoRow)>)
    | Orphaned(height: nat)

  function Step(s: State, e: Event): State {
    match e
    case Added(hash, index, row) => Add(s, hash, index, row)
    case Deleted(o) => Delete(s, o)
    case Updated(batch) => UpdateDb(s, batch)
    case Orphaned(height) => HandleOrphan(s, height)
  }

  /** The event can happen: rows are in range and a flush lists what is held back. */
  ghost predicate Possible(s: State, e: Event) {
    match e
    case Added(_, _, row) => row.height < TWO_31
    case Updated(batch) => Lists(s.entries, batch)
    case _ => true
  }

  /** No output is re-added while waiting to be deleted, no orphaned height is still held back. */
  ghost predicate Careful(s: State, e: Event) {
    match e
    case Added(hash, index, _) => index >= TWO_32 || OutPoint(hash, index) !in s.deletes
    case Orphaned(height) => !AnyAt(s.entries, height)
    case _ => true
  }

  lemma {:induction false} StepAgreesIff(db: Database, s: State, e: Event)
    requires Agrees(db, s) && Possible(s, e)
    ensures Agrees(db, Step(s, e)) <==> Careful(s, e)
  {
    match e
    case Added(hash, index, row) =>
      if index < TWO_32 {
        AddAgreesIff(db, s, hash, index, row);
      }
    case Deleted(o) => DeleteAgrees(db, s, o);
    case Updated(batch) => UpdateDbWritesMap(db, s, batch);
    case Orphaned(height) => OrphanAgreesIff(db, s, height);
  }

  function Run(s: State, es: seq<Event>): State
    decreases |es|
  {
    if es == [] then s else Run(Step(s, es[0]), es[1..])
  }

  ghost predicate CarefulRun(s: State, es: seq<Event>)
    decreases |es|
  {
    es == [] || (Possible(s, es[0]) && Careful(s, es[0]) && CarefulRun(Step(s, es[0]), es[1..]))
  }

  /** Every careful run keeps map and table-to-come equal, so a flush at its end leaves the table equal. */
  lemma {:induction false} CarefulRunAgrees(db: Database, s: State, es: seq<Event>, batch: seq<(OutPoint, UtxoRow)>)
    requires Agrees(db, s) && CarefulRun(s, es)
    requires Lists(Run(s, es).entries, batch)
    ensures Agrees(db, Run(s, es))
    ensures ApplyAll(db, UpdateDb(Run(s, es), batch).sent).utxo == Run(s, es).utxo
    decreases |es|
  {
    if es == [] {
      UpdateDbWritesMap(db, s, batch);
    } else {
      StepAgreesIff(db, s, es[0]);
      CarefulRunAgrees(db, Step(s, es[0]), es[1..], batch);
    }
  }

  // ---- inputs that part map and table ----

  function Empty(): State {
    State(map[], map[], [], [])
  }

  lemma {:induction false} RunOne(s: State, e: Event)
    ensures Run(s, [e]) == Step(s, e)
  {
    assert [e][1..] == [];
  }

  lemma {:induction false} RunTwo(s: State, e: Event, f: Event)
    ensures Run(s, [e, f]) == Step(Step(s, e), f)
  {
    assert [e, f][1..] == [f];
    RunOne(Step(s, e), f);
  }

  /** Added, deleted and added again before the flush: the map has the output, the table has not. */
  lemma {:induction false} ReaddedIsLost(db: Database, hash: Hash256, index: nat, row: UtxoRow,
                                         batch: seq<(OutPoint, UtxoRow)>)
    requires db.utxo == map[] && index < TWO_32 && row.height < TWO_31
    requires var o := OutPoint(hash, index);
      Lists(Run(Empty(), [Added(hash, index, row), Deleted(o), Added(hash, index, row)]).entries, batch)
    ensures var o := OutPoint(hash, index);
      var t := UpdateDb(Run(Empty(), [Added(hash, index, row), Deleted(o), Added(hash, index, row)]), batch);
      o in t.utxo && o !in ApplyAll(db, t.sent).utxo
  {
    var o, add := OutPoint(hash, index), Added(hash, index, row);
    var s := Run(Empty(), [add, Deleted(o), add]);
    assert [add, Deleted(o), add][1..] == [Deleted(o), add];
    RunTwo(Step(Empty(), add), Deleted(o), add);
    assert s.deletes == [o];
    FlushEffect(db, s, batch);
  }

  /** Added at a height that is orphaned before the flush: the map has forgotten the output, the table gets it. */
  lemma {:induction false} OrphanedIsWritten(db: Database, hash: Hash256, index: nat, row: UtxoRow,
                                             batch: seq<(OutPoint, UtxoRow)>)
    requires db.utxo == map[] && index < TWO_32 && 0 <= row.height < TWO_31
    requires Lists(Run(Empty(), [Added(hash, index, row), Orphaned(row.height)]).entries, batch)
    ensures var o := OutPoint(hash, index);
      var t := UpdateDb(Run(Empty(), [Added(hash, index, row), Orphaned(row.height)]), batch);
      o !in t.utxo && o in ApplyAll(db, t.sent).utxo
  {
    var s := Run(Empty(), [Added(hash, index, row), Orphaned(row.height)]);
    RunTwo(Empty(), Added(hash, index, row), Orphaned(row.height));
    assert s.deletes == [] && OutPoint(hash, index) in s.entries;
    FlushEffect(db, s, batch);
  }
}
