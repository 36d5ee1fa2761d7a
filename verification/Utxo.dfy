/** `Utxo` of rust/src/uaas/utxo.rs, updating its fields in place. */
module Utxos {
  import opened Common
  import opened Tables
  import opened UtxoSpec

  class Utxo {
    var utxo: map<OutPoint, UtxoRow>
    var utxoEntries: map<OutPoint, UtxoRow>
    var utxoDeletes: seq<OutPoint>
    var sent: seq<Op>

    ghost function State(): State
      reads this
    {
      UtxoSpec.State(utxo, utxoEntries, utxoDeletes, sent)
    }

    constructor ()
      ensures State() == UtxoSpec.State(map[], map[], [], [])
    {
      utxo, utxoEntries, utxoDeletes, sent := map[], map[], [], [];
    }

    /** `load_utxo`; `rows` is the result of the query, the key being None where the stored hash does not decode. */
    method LoadUtxo(rows: seq<(Option<OutPoint>, UtxoRow)>)
      modifies this`utxo
      ensures Loaded(old(utxo), rows, utxo)
      ensures forall table :: old(utxo) == map[] && RowsOf(table, rows) ==> utxo == table
    {
      for i := 0 to |rows|
        invariant Loaded(old(utxo), rows[..i], utxo)
      {
        assert rows[..i + 1] == rows[..i] + [rows[i]];
        LoadOneMore(old(utxo), rows[..i], utxo, rows[i]);
        if rows[i].0.None? {
          continue;
        }
        utxo := utxo[rows[i].0.value := rows[i].1];
      }
      assert rows[..|rows|] == rows;
      forall table | old(utxo) == map[] && RowsOf(table, rows) ensures utxo == table {
        LoadedTable(table, rows, utxo);
      }
    }

    method Add(hash: Hash256, index: nat, satoshis: int, height: int, pubkeyhash: string)
      modifies this
      ensures State() == UtxoSpec.Add(old(State()), hash, index, UtxoRow(satoshis, height, pubkeyhash))
    {
      if index >= TWO_32 {
        return;
      }
      var outpoint := OutPoint(hash, index);
      utxo := utxo[outpoint := UtxoRow(satoshis, height, pubkeyhash)];
      utxoEntries := utxoEntries[outpoint := UtxoRow(satoshis, height, pubkeyhash)];
    }

    method Delete(outpoint: OutPoint)
      modifies this
      ensures State() == UtxoSpec.Delete(old(State()), outpoint)
    {
      if outpoint in utxo {
        utxo := utxo - {outpoint};
        utxoDeletes := utxoDeletes + [outpoint];
        utxoEntries := utxoEntries - {outpoint};
      }
    }

    method GetSatoshis(outpoint: OutPoint) returns (r: Option<int>)
      ensures r == if outpoint in utxo then Some(utxo[outpoint].satoshis) else None
    {
      if outpoint in utxo {
        return Some(utxo[outpoint].satoshis);
      }
      return None;
    }

    /** The entries as a list, in whatever order the hash map yields them. */
    method EntriesInSomeOrder() returns (batch: seq<(OutPoint, UtxoRow)>)
      ensures Lists(utxoEntries, batch)
    {
      batch := [];
      var keys := utxoEntries.Keys;
      while keys != {}
        invariant keys <= utxoEntries.Keys
        invariant forall i :: 0 <= i < |batch| ==> batch[i].0 in utxoEntries && utxoEntries[batch[i].0] == batch[i].1
        invariant forall o :: o in utxoEntries && o !in keys ==> exists i :: 0 <= i < |batch| && batch[i].0 == o
        decreases keys
      {
        var o :| o in keys;
        ghost var before := batch;
        batch := batch + [(o, utxoEntries[o])];
        keys := keys - {o};
        assert batch[|batch| - 1].0 == o;
        assert forall i :: 0 <= i < |before| ==> batch[i] == before[i];
      }
    }

    method UpdateDb() returns (ghost batch: seq<(OutPoint, UtxoRow)>)
      modifies this
      ensures Lists(old(utxoEntries), batch)
      ensures State() == UtxoSpec.UpdateDb(old(State()), batch)
    {
      var request := EntriesInSomeOrder();
      batch := request;
      sent := sent + [UtxoBatchWrite(request)];
      utxoEntries := map[];
      sent := sent + [UtxoBatchDelete(utxoDeletes)];
      utxoDeletes := [];
    }

    method HandleOrphanBlock(height: nat)
      modifies this
      ensures State() == HandleOrphan(old(State()), height)
    {
      sent := sent + [UtxoDelete(height)];
      if height >= TWO_31 {
        return;
      }
      utxo := map o | o in utxo && utxo[o].height != height :: utxo[o];
    }
  }
}
